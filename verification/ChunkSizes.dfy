/**
  Which size lines of a chunked body the client of external/miniupnpc/miniwget.c reads right however they are cut.
  Behind a cut it takes hexadecimal digits of an extension for digits of the size, as long as it has room for them.
 */
module ChunkSizes {
  import opened Arithmetic
  import opened Sequences
  import opened ChunkedReader

  /** The digits kept of a size line, after one more piece of it. */
  function Collect(digits: string, piece: string): (r: string)
    requires |digits| <= MAX_DIGITS
    ensures |r| <= MAX_DIGITS
  {
    digits + piece[..HexRun(piece, MAX_DIGITS - |digits|)]
  }

  function CollectAll(digits: string, pieces: seq<string>): (r: string)
    requires |digits| <= MAX_DIGITS
    ensures |r| <= MAX_DIGITS
    decreases |pieces|
  {
    if pieces == [] then digits else CollectAll(Collect(digits, pieces[0]), pieces[1..])
  }

  /** However the rest of a size line is cut, the digits kept make up the size. */
  ghost predicate Safe(digits: string, line: string, size: nat)
    requires |digits| <= MAX_DIGITS
  {
    forall pieces :: Concat(pieces) == line ==> Value32(CollectAll(digits, pieces)) == size
  }

  /** The size a chunk line is written for: digits, and an extension that is told from them by its first character. */
  predicate IsSizeLine(digits: string, ext: string) {
    digits != "" && AllHex(digits) && (ext != "" ==> !IsHex(ext[0]))
  }

  /** A number of eight equal digits, of which one more changes nothing in 32 bits; zero is one. */
  predicate Repeats(digit: nat, size: nat) {
    size == 0x1111_1111 * digit
  }

  /** The hexadecimal digits in a text. */
  function HexOf(s: string): string {
    if s == "" then "" else (if IsHex(s[0]) then [s[0]] else "") + HexOf(s[1..])
  }

  /** Eight digits follow one in a text, and there is room for all of them behind the digits that stand before. */
  predicate Covered(before: nat, s: string, p: nat)
    requires p < |s|
  {
    p + 9 <= |s| && AllHex(s[p + 1..p + 9]) && before + |HexOf(s[..p])| + 9 <= MAX_DIGITS
  }

  /** Every hexadecimal digit in a text is the digit that the size repeats, or shifted out by eight others. */
  predicate Harmless(before: nat, s: string, size: nat) {
    forall p :: 0 <= p < |s| && IsHex(s[p]) ==> Repeats(Digit(s[p]), size) || Covered(before, s, p)
  }

  // -------------------------------------------------------------------- lines that are safe

  lemma AppendRepeats(digits: string, c: char, size: nat)
    requires Value32(digits) == size && Repeats(Digit(c), size)
    ensures Value32(digits + [c]) == size
  {
    var h := Digit(c);
    assert (digits + [c])[..|digits|] == digits;
    assert 16 * size + h == h * 0x1_0000_0000 + size;
  }

  predicate AllRepeat(run: string, size: nat) {
    forall i :: 0 <= i < |run| ==> Repeats(Digit(run[i]), size)
  }

  lemma {:induction false} RunRepeats(digits: string, run: string, size: nat)
    requires Value32(digits) == size && AllRepeat(run, size)
    ensures Value32(digits + run) == size
    decreases |run|
  {
    if run == "" {
      assert digits + run == digits;
    } else {
      hide Value32;
      AppendRepeats(digits, run[0], size);
      RunRepeats(digits + [run[0]], run[1..], size);
      assert digits + [run[0]] + run[1..] == digits + run;
    }
  }

  lemma {:induction false} HexRunIsHex(s: string, room: nat)
    ensures AllHex(s[..HexRun(s, room)])
  {
    if s != "" && room > 0 && IsHex(s[0]) {
      HexRunIsHex(s[1..], room - 1);
      ConsTake(s, HexRun(s[1..], room - 1));
    }
  }

  lemma ConsTake(s: string, k: nat)
    requires s != "" && k <= |s| - 1
    ensures s[..k + 1] == [s[0]] + s[1..][..k]
  {
  }

  // -------------------------------------------------------------------- how the digits of a size line are taken

  lemma {:induction false} HexRunExact(d: string, x: string, room: nat)
    requires AllHex(d) && |d| <= room && (x == "" || !IsHex(x[0]) || |d| == room)
    ensures HexRun(d + x, room) == |d|
  {
    if d == "" {
      assert d + x == x;
    } else {
      assert (d + x)[1..] == d[1..] + x;
      HexRunExact(d[1..], x, room - 1);
    }
  }

  lemma {:induction false} HexRunStep(s: string, n: nat, room: nat)
    requires n <= |s|
    ensures var k := HexRun(s[..n], room);
      if k == n then n <= room && HexRun(s, room) == n + HexRun(s[n..], room - n) else HexRun(s, room) == k
  {
    hide IsHex;
    if n == 0 {
      assert s[n..] == s;
    } else if room > 0 && IsHex(s[0]) {
      HexRunStep(s[1..], n - 1, room - 1);
      assert s[..n][1..] == s[1..][..n - 1] && s[1..][n - 1..] == s[n..];
    }
  }

  /** Where the digits end before the room does, no digit follows. */
  lemma {:induction false} HexRunEnds(s: string, room: nat)
    ensures var k := HexRun(s, room); k < room && k < |s| ==> !IsHex(s[k])
  {
    if s != "" && room > 0 && IsHex(s[0]) {
      HexRunEnds(s[1..], room - 1);
    }
  }

  lemma {:induction false} HexOfAppend(a: string, b: string)
    ensures HexOf(a + b) == HexOf(a) + HexOf(b)
  {
    if a == "" {
      assert a + b == b && HexOf(a) + HexOf(b) == HexOf(b);
    } else {
      hide IsHex;
      HexOfAppend(a[1..], b);
      assert (a + b)[0] == a[0] && (a + b)[1..] == a[1..] + b;
      var h := if IsHex(a[0]) then [a[0]] else "";
      assert h + (HexOf(a[1..]) + HexOf(b)) == h + HexOf(a[1..]) + HexOf(b);
    }
  }

  lemma {:induction false} HexOfHex(s: string)
    requires AllHex(s)
    ensures HexOf(s) == s
  {
    if s != "" {
      HexOfHex(s[1..]);
      assert s == [s[0]] + s[1..];
    }
  }

  lemma CoveredTail(before: nat, s: string, n: nat, before': nat, p: nat)
    requires n <= |s| && p < |s| - n && before' <= before + |HexOf(s[..n])| && Covered(before, s, n + p)
    ensures Covered(before', s[n..], p)
  {
    hide HexOf;
    assert s[..n + p] == s[..n] + s[n..][..p];
    HexOfAppend(s[..n], s[n..][..p]);
    assert s[n..][p + 1..p + 9] == s[n + p + 1..n + p + 9];
  }

  /** What follows a place is harmless behind as many digits as stood before it, or fewer. */
  lemma HarmlessTail(before: nat, s: string, n: nat, before': nat, size: nat)
    requires n <= |s| && Harmless(before, s, size) && before' <= before + |HexOf(s[..n])|
    ensures Harmless(before', s[n..], size)
  {
    hide HexOf, Repeats, Digit, IsHex, Covered;
    var t := s[n..];
    forall p | 0 <= p < |t| && IsHex(t[p]) ensures Repeats(Digit(t[p]), size) || Covered(before', t, p) {
      assert t[p] == s[n + p];
      if Covered(before, s, n + p) {
        CoveredTail(before, s, n, before', p);
      }
    }
  }

  lemma RunCounts(s: string, room: nat, q: nat)
    requires q < HexRun(s, room)
    ensures IsHex(s[q]) && |HexOf(s[..q])| == q
  {
    hide HexRun, HexOf, IsHex;
    HexRunIsHex(s, room);
    var run := s[..HexRun(s, room)];
    assert run[q] == s[q] && s[..q] == run[..q];
    HexOfHex(s[..q]);
  }

  /** None of the last eight digits that are taken is covered by others. */
  lemma NotCovered(digits: string, s: string, k: nat, q: nat)
    requires |digits| <= MAX_DIGITS && k == HexRun(s, MAX_DIGITS - |digits|) && q < k <= q + 8
    ensures IsHex(s[q]) && !Covered(|digits|, s, q)
  {
    hide HexRun, HexOf, IsHex;
    RunCounts(s, MAX_DIGITS - |digits|, q);
    HexRunEnds(s, MAX_DIGITS - |digits|);
    if q + 9 <= |s| {
      assert s[q + 1..q + 9][k - q - 1] == s[k];
    }
  }

  /** A digit of a number in base 16, from the right. */
  function NthDigit(x: nat, j: nat): nat {
    if j == 0 then x % 16 else NthDigit(x / 16, j - 1)
  }

  function Pow16(n: nat): (r: nat)
    ensures r >= 1
  {
    if n == 0 then 1 else 16 * Pow16(n - 1)
  }

  lemma {:induction false} LowDigits(w: nat, j: nat, n: nat)
    requires j < n
    ensures NthDigit(w % Pow16(n), j) == NthDigit(w, j)
    decreases n
  {
    var m := Pow16(n - 1);
    RemainderStep(w, 16, m);
    var r := w % Pow16(n);
    assert r == (w / 16 % m) * 16 + w % 16;
    assert r % 16 == w % 16 && r / 16 == w / 16 % m;
    if j > 0 {
      LowDigits(w / 16, j - 1, n - 1);
    }
  }

  lemma Pow16Is()
    ensures Pow16(7) == 0x1000_0000 && Pow16(8) == 0x1_0000_0000
  {
    assert Pow16(0) == 1 && Pow16(1) == 0x10 && Pow16(2) == 0x100 && Pow16(3) == 0x1000;
    assert Pow16(4) == 0x1_0000 && Pow16(5) == 0x10_0000 && Pow16(6) == 0x100_0000;
  }

  /** The last eight digits read are those of the size in 32 bits. */
  lemma {:induction false} DigitAt(d: string, j: nat)
    requires j < 8 && j < |d|
    ensures NthDigit(Value32(d), j) == Digit(d[|d| - 1 - j])
    decreases j
  {
    var front, h := d[..|d| - 1], Digit(d[|d| - 1]);
    var w := Value32(front);
    LastDigit(w, h, Value32(d));
    hide Value32, Pow16;
    if j > 0 {
      DigitAt(front, j - 1);
      Pow16Is();
      LowDigits(w, j - 1, 7);
    }
  }

  lemma LastDigit(w: nat, h: nat, v: nat)
    requires h < 16 && v == (16 * w + h) % 0x1_0000_0000
    ensures v % 16 == h && v / 16 == w % 0x1000_0000
  {
    assert v == 16 * (w % 0x1000_0000) + h;
  }

  lemma RepeatedDigit(k: nat, size: nat, j: nat)
    requires k < 16 && Repeats(k, size) && j < 8
    ensures NthDigit(size, j) == k
  {
    var a, b, c, d := size / 16, size / 16 / 16, size / 16 / 16 / 16, size / 16 / 16 / 16 / 16;
    assert a == 0x111_1111 * k && b == 0x11_1111 * k && c == 0x1_1111 * k && d == 0x1111 * k;
    assert d / 16 == 0x111 * k && d / 16 / 16 == 0x11 * k && d / 16 / 16 / 16 == k;
    assert NthDigit(d, 0) == k && NthDigit(d / 16, 0) == k && NthDigit(d / 16 / 16, 0) == k && NthDigit(k, 0) == k;
    assert NthDigit(d, 1) == NthDigit(d / 16, 0) && NthDigit(d / 16, 1) == NthDigit(d / 16 / 16, 0);
    assert NthDigit(d / 16 / 16, 1) == NthDigit(k, 0);
    assert NthDigit(d, 2) == NthDigit(d / 16, 1) && NthDigit(d, 3) == NthDigit(d / 16, 2) == NthDigit(d / 16 / 16, 1);
    assert NthDigit(size, 4) == NthDigit(a, 3) == NthDigit(b, 2) == NthDigit(c, 1) == NthDigit(d, 0);
    assert NthDigit(size, 5) == NthDigit(a, 4) == NthDigit(b, 3) == NthDigit(c, 2) == NthDigit(d, 1);
    assert NthDigit(size, 6) == NthDigit(a, 5) == NthDigit(b, 4) == NthDigit(c, 3) == NthDigit(d, 2);
    assert NthDigit(size, 7) == NthDigit(a, 6) == NthDigit(b, 5) == NthDigit(c, 4) == NthDigit(d, 3);
    assert NthDigit(size, 1) == NthDigit(a, 0) && NthDigit(size, 2) == NthDigit(a, 1) == NthDigit(b, 0);
    assert NthDigit(size, 3) == NthDigit(a, 2) == NthDigit(b, 1) == NthDigit(c, 0);
  }

  /** One digit more keeps a size in 32 bits only if the size repeats it. */
  lemma OneDigitMore(digits: string, c: char, size: nat)
    requires Value32(digits) == size && Value32(digits + [c]) == size
    ensures Repeats(Digit(c), size)
  {
    assert (digits + [c])[..|digits|] == digits;
    FixedPoint(size, Digit(c), (16 * size + Digit(c)) / 0x1_0000_0000);
  }

  lemma FixedPoint(size: nat, h: nat, t: nat)
    requires size <= UINT_MAX && h < 16 && 16 * size + h == t * 0x1_0000_0000 + size
    ensures Repeats(h, size)
  {
    assert 15 * (size - 0x1111_1111 * t) == t - h;
    assert t < 16;
  }

  lemma {:induction false} SameDigits(x: nat, y: nat, n: nat)
    requires x < Pow16(n) && y < Pow16(n) && forall j :: 0 <= j < n ==> NthDigit(x, j) == NthDigit(y, j)
    ensures x == y
  {
    if n > 0 {
      assert NthDigit(x, 0) == x % 16 && NthDigit(y, 0) == y % 16;
      forall j | 0 <= j < n - 1 ensures NthDigit(x / 16, j) == NthDigit(y / 16, j) {
        assert NthDigit(x, j + 1) == NthDigit(y, j + 1);
      }
      SameDigits(x / 16, y / 16, n - 1);
    }
  }

  lemma RepeatedAt(d: string, size: nat, j: nat)
    requires |d| >= 8 && AllRepeat(d[|d| - 8..], size) && j < 8
    ensures NthDigit(Value32(d), j) == NthDigit(size, j)
  {
    var c := d[|d| - 1 - j];
    assert d[|d| - 8..][7 - j] == c;
    hide Value32, NthDigit, Repeats, Digit;
    DigitAt(d, j);
    RepeatedDigit(Digit(c), size, j);
  }

  /** Eight digits that repeat the size make it up. */
  lemma EightRepeat(d: string, size: nat)
    requires |d| >= 8 && size <= UINT_MAX && AllRepeat(d[|d| - 8..], size)
    ensures Value32(d) == size
  {
    hide Value32, NthDigit, Pow16, AllRepeat;
    Value32Bound(d);
    Pow16Is();
    forall j | 0 <= j < 8 ensures NthDigit(Value32(d), j) == NthDigit(size, j) {
      RepeatedAt(d, size, j);
    }
    SameDigits(Value32(d), size, 8);
  }

  lemma Value32Bound(d: string)
    ensures Value32(d) <= UINT_MAX
  {
  }

  /** The digits taken from harmless text do not change the size. */
  lemma RunKeeps(digits: string, s: string, k: nat, size: nat)
    requires |digits| <= MAX_DIGITS && k == HexRun(s, MAX_DIGITS - |digits|) && Harmless(|digits|, s, size)
    requires Value32(digits) == size
    ensures Value32(digits + s[..k]) == size
  {
    Value32Bound(digits);
    hide Value32, Repeats, Digit, HexRun, Covered, IsHex;
    forall q | 0 <= q < k <= q + 8 ensures Repeats(Digit(s[q]), size) {
      NotCovered(digits, s, k, q);
    }
    if k <= 8 {
      RunRepeats(digits, s[..k], size);
    } else {
      var d := digits + s[..k];
      assert d[|d| - 8..] == s[k - 8..k];
      EightRepeat(d, size);
    }
  }

  /** The digits at the front of a text complete the size, and what follows them is harmless. */
  ghost predicate Reads(digits: string, s: string, size: nat)
    requires |digits| <= MAX_DIGITS
  {
    var k := HexRun(s, MAX_DIGITS - |digits|);
    Value32(digits + s[..k]) == size && (|digits| + k == MAX_DIGITS || Harmless(|digits| + k, s[k..], size))
  }

  /** Taking up to the end of a piece, where the digits go on behind it. */
  lemma ReadsOn(digits: string, s: string, n: nat, size: nat)
    requires |digits| <= MAX_DIGITS && n <= |s| && Reads(digits, s, size)
    requires HexRun(s[..n], MAX_DIGITS - |digits|) == n
    ensures |digits + s[..n]| <= MAX_DIGITS && Reads(digits + s[..n], s[n..], size)
  {
    hide Value32, Harmless, HexRun;
    HexRunStep(s, n, MAX_DIGITS - |digits|);
    var k := HexRun(s[n..], MAX_DIGITS - |digits| - n);
    assert digits + s[..n] + s[n..][..k] == digits + s[..n + k] && s[n..][k..] == s[n + k..];
  }

  /** Taking all the digits at the front of a piece, and passing over the rest of it. */
  lemma ReadsPast(digits: string, s: string, n: nat, size: nat)
    requires |digits| <= MAX_DIGITS && n <= |s| && Reads(digits, s, size)
    requires HexRun(s[..n], MAX_DIGITS - |digits|) < n
    ensures Reads(Collect(digits, s[..n]), s[n..], size)
  {
    hide Value32, Harmless, HexRun;
    HexRunStep(s, n, MAX_DIGITS - |digits|);
    var k := HexRun(s[..n], MAX_DIGITS - |digits|);
    var d, rest := digits + s[..k], s[n..];
    assert s[..n][..k] == s[..k];
    if |d| == MAX_DIGITS {
      assert d + rest[..0] == d;
    } else {
      assert s[k..][n - k..] == rest;
      HarmlessTail(|d|, s[k..], n - k, |d|, size);
      ReadsHarmless(d, rest, size);
    }
  }

  lemma ReadsHarmless(digits: string, s: string, size: nat)
    requires |digits| <= MAX_DIGITS && Value32(digits) == size && Harmless(|digits|, s, size)
    ensures Reads(digits, s, size)
  {
    hide Value32, Harmless, HexRun;
    var k := HexRun(s, MAX_DIGITS - |digits|);
    RunKeeps(digits, s, k, size);
    HexRunIsHex(s, MAX_DIGITS - |digits|);
    HexOfHex(s[..k]);
    HarmlessTail(|digits|, s, k, |digits| + k, size);
  }

  lemma {:induction false} CollectAllReads(digits: string, pieces: seq<string>, size: nat)
    requires |digits| <= MAX_DIGITS && Reads(digits, Concat(pieces), size)
    ensures Value32(CollectAll(digits, pieces)) == size
    decreases |pieces|
  {
    if pieces == [] {
      assert digits + ""[..0] == digits;
    } else {
      hide Reads, HexRun;
      var piece, s := pieces[0], Concat(pieces);
      assert s[..|piece|] == piece && s[|piece|..] == Concat(pieces[1..]);
      if HexRun(piece, MAX_DIGITS - |digits|) == |piece| {
        assert piece[..|piece|] == piece;
        ReadsOn(digits, s, |piece|, size);
      } else {
        ReadsPast(digits, s, |piece|, size);
      }
      CollectAllReads(Collect(digits, piece), pieces[1..], size);
    }
  }

  /** However a text is cut, its digits are read first, and nothing harmful behind them. */
  lemma DigitsFirst(d: string, e: string, size: nat)
    requires |d| <= MAX_DIGITS && AllHex(d) && (e == "" || !IsHex(e[0]) || |d| == MAX_DIGITS)
    requires Value32(d) == size && (|d| == MAX_DIGITS || Harmless(|d|, e, size))
    ensures Safe("", d + e, size)
  {
    hide Value32, HexRun, Harmless, CollectAll;
    HexRunExact(d, e, MAX_DIGITS);
    assert "" + (d + e)[..|d|] == d && (d + e)[|d|..] == e;
    assert Reads("", d + e, size);
    forall pieces | Concat(pieces) == d + e ensures Value32(CollectAll("", pieces)) == size {
      CollectAllReads("", pieces, size);
    }
  }

  /** A size line of up to 31 digits is safe to cut when the client has no room for more, or they would not matter. */
  lemma HarmlessIsSafe(digits: string, ext: string, size: nat)
    requires IsSizeLine(digits, ext) && |digits| <= MAX_DIGITS && Value(digits) == size <= UINT_MAX
    requires |digits| == MAX_DIGITS || Harmless(|digits|, ext, size)
    ensures Safe("", digits + ext, size)
  {
    hide Value32, Harmless, Safe;
    NoOverflow(digits);
    DigitsFirst(digits, ext, size);
  }

  // -------------------------------------------------------------------- and lines that are not

  /** A text cut into its characters. */
  function Singles(s: string): seq<string> {
    if s == "" then [] else [[s[0]]] + Singles(s[1..])
  }

  /** Cut into characters, a text gives away all its digits. */
  lemma {:induction false} SinglesCollect(digits: string, s: string)
    requires |digits| + |HexOf(s)| <= MAX_DIGITS
    ensures Concat(Singles(s)) == s && CollectAll(digits, Singles(s)) == digits + HexOf(s)
    decreases |s|
  {
    if s == "" {
      assert digits + HexOf(s) == digits;
    } else {
      var pieces := Singles(s);
      assert pieces[1..] == Singles(s[1..]) && pieces[0] == [s[0]];
      assert s == [s[0]] + s[1..];
      if IsHex(s[0]) {
        assert HexRun([s[0]], MAX_DIGITS - |digits|) == 1;
        assert Collect(digits, [s[0]]) == digits + [s[0]];
        SinglesCollect(digits + [s[0]], s[1..]);
        assert digits + [s[0]] + HexOf(s[1..]) == digits + HexOf(s);
      } else {
        assert Collect(digits, [s[0]]) == digits;
        SinglesCollect(digits, s[1..]);
        assert HexOf(s) == HexOf(s[1..]);
      }
    }
  }

  lemma {:induction false} CollectAllAppend(digits: string, a: seq<string>, b: seq<string>)
    requires |digits| <= MAX_DIGITS
    ensures CollectAll(digits, a + b) == CollectAll(CollectAll(digits, a), b)
    decreases |a|
  {
    if a == [] {
      assert a + b == b;
    } else {
      hide Collect;
      assert (a + b)[1..] == a[1..] + b;
      CollectAllAppend(Collect(digits, a[0]), a[1..], b);
    }
  }

  /** The line in one piece up to p0, character by character up to p, and the rest in one piece. */
  function CutAt(digits: string, ext: string, p0: nat, p: nat): seq<string>
    requires p0 <= p <= |ext|
  {
    [digits + ext[..p0]] + (Singles(ext[p0..p]) + [ext[p..]])
  }

  /** So cut, the digits between p0 and p are added to the size, and those behind p that there is room for. */
  lemma CutCollects(digits: string, ext: string, p0: nat, p: nat)
    requires IsSizeLine(digits, ext) && 0 < p0 <= p <= |ext| && |digits| + |HexOf(ext[p0..p])| <= MAX_DIGITS
    ensures Concat(CutAt(digits, ext, p0, p)) == digits + ext
    ensures CollectAll("", CutAt(digits, ext, p0, p)) == Collect(digits + HexOf(ext[p0..p]), ext[p..])
  {
    hide HexOf, Singles, HexRun;
    var first, singles, last := digits + ext[..p0], Singles(ext[p0..p]), [ext[p..]];
    var pieces := CutAt(digits, ext, p0, p);
    assert pieces[1..] == singles + last;
    SinglesCollect(digits, ext[p0..p]);
    ConcatAppend(singles, last);
    assert Concat(last) == ext[p..] by { assert last[1..] == []; }
    assert first + (ext[p0..p] + ext[p..]) == digits + ext;
    HexRunExact(digits, ext[..p0], MAX_DIGITS);
    assert first[..|digits|] == digits && "" + digits == digits;
    CollectAllAppend(digits, singles, last);
    var d := digits + HexOf(ext[p0..p]);
    assert CollectAll(d, last) == CollectAll(Collect(d, ext[p..]), []) by { assert last[1..] == []; }
  }

  /** If every cut gives the size, the digits that some cut puts among the last eight are its digits. */
  lemma CutShows(digits: string, ext: string, p0: nat, p: nat, size: nat)
    requires IsSizeLine(digits, ext) && 0 < p0 <= p < |ext| && |digits| + |HexOf(ext[p0..p])| <= MAX_DIGITS
    requires Safe("", digits + ext, size)
    ensures var m := HexRun(ext[p..], MAX_DIGITS - |digits| - |HexOf(ext[p0..p])|);
      0 < m <= 8 ==> NthDigit(size, m - 1) == Digit(ext[p])
  {
    hide HexOf, HexRun, CutAt, CollectAll, NthDigit, Value32, IsSizeLine;
    CutCollects(digits, ext, p0, p);
    var d := digits + HexOf(ext[p0..p]);
    var m := HexRun(ext[p..], MAX_DIGITS - |d|);
    var all := Collect(d, ext[p..]);
    assert Value32(all) == size;
    if 0 < m <= 8 {
      DigitAt(all, m - 1);
      assert all[|d|] == ext[p..][..m][0] == ext[p];
    }
  }

  /** One digit in an extension makes the size repeat it, if every cut gives the size. */
  lemma {:induction false} SomeDigitRepeats(digits: string, ext: string, p: nat, size: nat) returns (c: nat)
    requires IsSizeLine(digits, ext) && 0 < p < |ext| && IsHex(ext[p]) && |digits| < MAX_DIGITS
    requires Value(digits) == size <= UINT_MAX && Safe("", digits + ext, size)
    ensures c < 16 && Repeats(c, size)
    decreases |ext| - p
  {
    hide Safe, IsSizeLine, Repeats, Value;
    if p + 1 < |ext| && IsHex(ext[p + 1]) {
      c := SomeDigitRepeats(digits, ext, p + 1, size);
    } else {
      c := Digit(ext[p]);
      LastRepeats(digits, ext, p, size);
    }
  }

  lemma LastRepeats(digits: string, ext: string, p: nat, size: nat)
    requires IsSizeLine(digits, ext) && 0 < p < |ext| && IsHex(ext[p]) && |digits| < MAX_DIGITS
    requires p + 1 < |ext| ==> !IsHex(ext[p + 1])
    requires Value(digits) == size <= UINT_MAX && Safe("", digits + ext, size)
    ensures Repeats(Digit(ext[p]), size)
  {
    hide HexRun, CutAt, CollectAll, Value32, Value, Repeats, IsSizeLine;
    assert ext[p..p] == "" && HexOf("") == "" && digits + "" == digits;
    CutCollects(digits, ext, p, p);
    HexRunExact([ext[p]], ext[p + 1..], MAX_DIGITS - |digits|);
    assert [ext[p]] + ext[p + 1..] == ext[p..] && ext[p..][..1] == [ext[p]];
    NoOverflow(digits);
    OneDigitMore(digits, ext[p], size);
  }

  /** The last place from which there are so many digits up to p. */
  lemma {:induction false} PlaceWith(ext: string, p: nat, x: nat) returns (p0: nat)
    requires 0 < p <= |ext| && x <= |HexOf(ext[1..p])|
    ensures 0 < p0 <= p && |HexOf(ext[p0..p])| == x
    decreases p
  {
    if x == 0 {
      p0 := p;
      assert ext[p..p] == "";
    } else {
      var q := p - 1;
      assert q > 0 by { assert ext[1..1] == ""; }
      assert ext[1..p] == ext[1..q] + [ext[q]];
      HexOfAppend(ext[1..q], [ext[q]]);
      HexOfOne(ext[q]);
      p0 := PlaceWith(ext, q, if IsHex(ext[q]) then x - 1 else x);
      assert ext[p0..p] == ext[p0..q] + [ext[q]];
      HexOfAppend(ext[p0..q], [ext[q]]);
    }
  }

  lemma HexOfOne(c: char)
    ensures HexOf([c]) == if IsHex(c) then [c] else ""
  {
    assert [c][1..] == "" && HexOf("") == "";
  }

  /** If every cut gives the size, every digit is harmless. */
  lemma DigitIsHarmless(digits: string, ext: string, p: nat, size: nat)
    requires IsSizeLine(digits, ext) && |digits| < MAX_DIGITS && Value(digits) == size <= UINT_MAX
    requires p < |ext| && IsHex(ext[p]) && Safe("", digits + ext, size)
    ensures Repeats(Digit(ext[p]), size) || Covered(|digits|, ext, p)
  {
    hide Safe, Value, HexOf, HexRun, Repeats, NthDigit;
    var c := SomeDigitRepeats(digits, ext, p, size);
    var room, s := MAX_DIGITS - |digits|, ext[p..];
    var k := HexRun(s, 9);
    var p0 := p;
    if k == 9 {
      HexRunIsHex(s, 9);
      assert ext[p + 1..p + 9] == s[..9][1..];
      BehindFirst(ext, p);
    }
    if !Covered(|digits|, ext, p) {
      if k == 9 && room > 8 {
        p0 := PlaceWith(ext, p, room - 8);
      } else {
        assert |HexOf(ext[p..p])| == 0 by { assert ext[p..p] == ""; NoneIn(); }
      }
      var left := room - |HexOf(ext[p0..p])|;
      RunWithin(s, left);
      CutShows(digits, ext, p0, p, size);
      RepeatedDigit(c, size, HexRun(s, left) - 1);
    }
  }

  lemma NoneIn()
    ensures HexOf("") == ""
  {
  }

  lemma BehindFirst(ext: string, p: nat)
    requires 0 < p <= |ext| && !IsHex(ext[0])
    ensures HexOf(ext[..p]) == HexOf(ext[1..p])
  {
    assert ext[..p][1..] == ext[1..p];
    assert "" + HexOf(ext[1..p]) == HexOf(ext[1..p]);
  }

  /** Where fewer than nine digits stand, or there is room for no more than eight, no more than eight are taken. */
  lemma RunWithin(s: string, room: nat)
    requires s != "" && IsHex(s[0]) && room > 0 && (HexRun(s, 9) < 9 || room <= 8)
    ensures 0 < HexRun(s, room) <= 8
  {
    if room > 8 {
      RunAgrees(s, 9, room);
    }
  }

  lemma {:induction false} RunAgrees(s: string, a: nat, b: nat)
    requires HexRun(s, a) < a <= b
    ensures HexRun(s, b) == HexRun(s, a)
  {
    if s != "" && IsHex(s[0]) {
      RunAgrees(s[1..], a - 1, b - 1);
    }
  }

  /**
    A size line of fewer than 31 digits is read right however it is cut if and only if every hexadecimal digit in its
    extension is the one that the size repeats (zero for a size of zero, or the odd case of a size of eight equal
    digits) or is shifted out of the size by eight others right behind it, which there is room for.
   */
  lemma SafeExactly(digits: string, ext: string, size: nat)
    requires IsSizeLine(digits, ext) && |digits| < MAX_DIGITS && Value(digits) == size <= UINT_MAX
    ensures Safe("", digits + ext, size) <==> Harmless(|digits|, ext, size)
  {
    hide Safe, Value, Repeats, Covered, IsSizeLine, Digit;
    if Harmless(|digits|, ext, size) {
      HarmlessIsSafe(digits, ext, size);
    }
    if Safe("", digits + ext, size) {
      forall p | 0 <= p < |ext| && IsHex(ext[p]) ensures Repeats(Digit(ext[p]), size) || Covered(|digits|, ext, p) {
        DigitIsHarmless(digits, ext, p, size);
      }
    }
  }

  // -------------------------------------------------------------------- lines with too many digits

  /** Of a size of more than 31 digits the client keeps the first 31, however the line is cut. */
  lemma LongLine(digits: string, ext: string, size: nat)
    requires IsSizeLine(digits, ext) && |digits| > MAX_DIGITS
    ensures Safe("", digits + ext, size) <==> Value32(digits[..MAX_DIGITS]) == size
  {
    hide Value32, CollectAll, Harmless;
    var kept, e := digits[..MAX_DIGITS], digits[MAX_DIGITS..] + ext;
    assert digits + ext == kept + e;
    DigitsFirst(kept, e, Value32(kept));
    assert Concat([digits + ext]) == digits + ext by { assert [digits + ext][1..] == []; }
  }

  lemma {:induction false} ValueOfPrefix(digits: string, k: nat)
    requires k <= |digits|
    ensures Value(digits[..k]) <= Value(digits)
    ensures k < |digits| && Value(digits[..k]) > 0 ==> Value(digits[..k]) < Value(digits)
    decreases |digits|
  {
    if k == |digits| {
      assert digits[..k] == digits;
    } else {
      var front := digits[..|digits| - 1];
      ValueOfPrefix(front, k);
      assert front[..k] == digits[..k];
    }
  }

  /** So it reads the size right if and only if that is zero. */
  lemma LongLineExactly(digits: string, ext: string)
    requires IsSizeLine(digits, ext) && |digits| > MAX_DIGITS && Value(digits) <= UINT_MAX
    ensures Safe("", digits + ext, Value(digits)) <==> Value(digits) == 0
  {
    hide Safe, Value, Value32;
    LongLine(digits, ext, Value(digits));
    ValueOfPrefix(digits, MAX_DIGITS);
    NoOverflow(digits[..MAX_DIGITS]);
  }

  /** Which size lines are read right however they are cut, for any number of digits. */
  predicate Readable(digits: string, ext: string, size: nat) {
    if |digits| < MAX_DIGITS then Harmless(|digits|, ext, size) else |digits| == MAX_DIGITS || size == 0
  }

  lemma SizeLineExactly(digits: string, ext: string, size: nat)
    requires IsSizeLine(digits, ext) && Value(digits) == size <= UINT_MAX
    ensures Safe("", digits + ext, size) <==> Readable(digits, ext, size)
  {
    hide Safe, Value, Harmless, IsSizeLine;
    if |digits| < MAX_DIGITS {
      SafeExactly(digits, ext, size);
    } else if |digits| == MAX_DIGITS {
      HarmlessIsSafe(digits, ext, size);
    } else {
      LongLineExactly(digits, ext);
    }
  }
}
