/**
  The 7-bit variable-length integers of miniupnpc (external/miniupnpc/codelength.h): the encoder
  macro CODELENGTH and the three decoder macros, on 8-bit bytes and 32-bit unsigned numbers.
 */
module CodeLength {
  import opened Sequences
  import opened CodeLengthBits

  type byte = b: nat | b < 0x100
  type word = n: nat | n < 0x1_0000_0000

  /** The top bit of a byte says that another byte follows. */
  predicate More(b: byte) {
    b >= 0x80
  }

  /** The number a byte string stands for: its low 7-bit groups, most significant first. */
  ghost function Val(bs: seq<byte>): nat {
    if bs == [] then 0 else Val(bs[..|bs| - 1]) * 128 + bs[|bs| - 1] % 128
  }

  /** All bytes continue, and the first group is not zero. */
  ghost predicate Leading(bs: seq<byte>) {
    (forall i :: 0 <= i < |bs| ==> More(bs[i])) && (|bs| > 0 ==> bs[0] != 0x80)
  }

  /** Continuation bits on all bytes but the last, and no leading zero group. */
  ghost predicate Canonical(bs: seq<byte>) {
    |bs| > 0 && Leading(bs[..|bs| - 1]) && !More(bs[|bs| - 1])
  }

  /** bs is the code of n; CodeIsUnique shows that there is no other. */
  ghost predicate IsCode(bs: seq<byte>, n: word) {
    Canonical(bs) && Val(bs) == n
  }

  /** A decoder goes on after bs: the last byte continues, and the value is below 2^25. */
  ghost predicate GoesOn(bs: seq<byte>) {
    |bs| > 0 && More(bs[|bs| - 1]) && Val(bs) < 0x200_0000
  }

  /** A decoder that has read bs went on after every shorter prefix. */
  ghost predicate Run(bs: seq<byte>) {
    forall j :: 0 < j < |bs| ==> GoesOn(bs[..j])
  }

  /** A decoder stops exactly after bs. */
  ghost predicate StopsAfter(bs: seq<byte>) {
    |bs| > 0 && Run(bs) && !GoesOn(bs)
  }

  // -------------------------------------------------------------------- the codes

  lemma ValAppend(bs: seq<byte>, b: byte)
    ensures Val(bs + [b]) == Val(bs) * 128 + b % 128
  {
    assert (bs + [b])[..|bs|] == bs;
  }

  /** The continuing bytes for n > 0. */
  ghost function Upper(n: nat): seq<byte> {
    if n == 0 then [] else Upper(n / 128) + [128 + n % 128]
  }

  ghost function Code(n: nat): seq<byte> {
    Upper(n / 128) + [n % 128]
  }

  lemma LeadingAppend(bs: seq<byte>, up: nat, low: nat)
    requires Leading(bs) && Val(bs) == up && low < 128 && (bs == [] ==> low > 0)
    ensures Leading(bs + [128 + low]) && Val(bs + [128 + low]) == up * 128 + low
  {
    hide Val;
    ValAppend(bs, 128 + low);
    assert (128 + low) % 128 == low;
  }

  lemma {:induction false} UpperIsLeading(n: nat)
    ensures Leading(Upper(n)) && Val(Upper(n)) == n
  {
    if n > 0 {
      UpperIsLeading(n / 128);
      LeadingAppend(Upper(n / 128), n / 128, n % 128);
    }
  }

  lemma CodeIsCode(n: word)
    ensures IsCode(Code(n), n)
  {
    UpperIsLeading(n / 128);
    ValAppend(Upper(n / 128), n % 128);
    assert Code(n)[..|Code(n)| - 1] == Upper(n / 128);
  }

  lemma {:induction false} LeadingHasValue(bs: seq<byte>)
    requires |bs| > 0 && Leading(bs)
    ensures Val(bs) > 0
  {
    if |bs| > 1 {
      LeadingHasValue(bs[..|bs| - 1]);
    }
  }

  lemma {:induction false} LeadingIsUnique(bs: seq<byte>, cs: seq<byte>)
    requires Leading(bs) && Leading(cs) && Val(bs) == Val(cs)
    ensures bs == cs
    decreases |bs|
  {
    if bs != [] { LeadingHasValue(bs); }
    if cs != [] { LeadingHasValue(cs); }
    if bs != [] && cs != [] {
      LeadingIsUnique(bs[..|bs| - 1], cs[..|cs| - 1]);
      assert bs == bs[..|bs| - 1] + [bs[|bs| - 1]] && cs == cs[..|cs| - 1] + [cs[|cs| - 1]];
    }
  }

  /** A number has one code only. */
  lemma CodeIsUnique(bs: seq<byte>, cs: seq<byte>)
    requires Canonical(bs) && Canonical(cs) && Val(bs) == Val(cs)
    ensures bs == cs
  {
    LeadingIsUnique(bs[..|bs| - 1], cs[..|cs| - 1]);
    assert bs == bs[..|bs| - 1] + [bs[|bs| - 1]] && cs == cs[..|cs| - 1] + [cs[|cs| - 1]];
  }

  lemma {:induction false} ValGrows(bs: seq<byte>, j: nat)
    requires j < |bs|
    ensures Val(bs[..j]) * 128 <= Val(bs)
    decreases |bs|
  {
    var front := bs[..|bs| - 1];
    if j == |front| {
      assert bs[..j] == front;
    } else {
      ValGrows(front, j);
      assert front[..j] == bs[..j];
    }
  }

  // -------------------------------------------------------------------- where decoders stop

  /** Where a decoder stops is a function of the bytes it is given. */
  lemma StopIsUnique(stream: seq<byte>, bs: seq<byte>, cs: seq<byte>)
    requires bs <= stream && cs <= stream
    requires StopsAfter(bs) && StopsAfter(cs)
    ensures bs == cs
  {
    assert bs == stream[..|bs|] && cs == stream[..|cs|];
    RunIn(stream, bs);
    RunIn(stream, cs);
  }

  lemma RunIn(stream: seq<byte>, bs: seq<byte>)
    requires bs <= stream && Run(bs)
    ensures forall j :: 0 < j < |bs| ==> GoesOn(stream[..j])
  {
    forall j | 0 < j < |bs| ensures GoesOn(stream[..j]) {
      assert bs[..j] == stream[..j];
    }
  }

  /** Every decoder, started on the code of a 32-bit number, stops exactly at its end. */
  lemma CodeStops(bs: seq<byte>, n: word)
    requires IsCode(bs, n)
    ensures StopsAfter(bs)
  {
    forall j | 0 < j < |bs| ensures GoesOn(bs[..j]) {
      ValGrows(bs, j);
      assert bs[..|bs| - 1][j - 1] == bs[..j][j - 1];
    }
  }

  /** A decoder is done with the bytes read: it stopped there, or they are all there is. */
  ghost predicate Decoded(mem: seq<byte>, read: seq<byte>) {
    read <= mem && Run(read) && (StopsAfter(read) || read == mem)
  }

  /** On bytes that begin with the code of n, a decoder reads that code, no more and no less, and returns n. */
  lemma DecodeUndoesEncode(mem: seq<byte>, read: seq<byte>, code: seq<byte>, n: word)
    requires Decoded(mem, read) && IsCode(code, n) && code <= mem
    ensures read == code && Val(read) == n
  {
    CodeStops(code, n);
    assert mem[..|code|] == code;
    if StopsAfter(read) {
      StopIsUnique(mem, code, read);
    }
  }

  /** Encoding what a decoder returned gives back the bytes it read exactly when it stopped on a
      byte with the top bit clear and did not start a longer number with 0x80. */
  lemma EncodeUndoesDecode(read: seq<byte>, n: word, code: seq<byte>)
    requires Run(read) && Val(read) == n
    requires IsCode(code, n)
    ensures code == read <==>
            |read| > 0 && !More(read[|read| - 1]) && (|read| > 1 ==> read[0] != 0x80)
  {
    if |read| > 0 && !More(read[|read| - 1]) && (|read| > 1 ==> read[0] != 0x80) {
      var front := read[..|read| - 1];
      forall i | 0 <= i < |front| ensures More(front[i]) {
        assert GoesOn(read[..i + 1]) && read[..i + 1][i] == front[i];
      }
      CodeIsUnique(code, read);
    }
  }

  /** No code is a proper prefix of another. */
  lemma PrefixFree(bs: seq<byte>, n: word, cs: seq<byte>, m: word)
    requires IsCode(bs, n) && IsCode(cs, m) && bs <= cs
    ensures n == m
  {
    CodeStops(bs, n);
    CodeStops(cs, m);
    StopIsUnique(cs, bs, cs);
  }

  ghost predicate AreCodes(parts: seq<seq<byte>>, ns: seq<word>) {
    |parts| == |ns| && forall i :: 0 <= i < |ns| ==> IsCode(parts[i], ns[i])
  }

  /** Lengths written back to back can be read back in one way only. */
  lemma {:induction false} ConcatenationDecodes(parts: seq<seq<byte>>, ns: seq<word>, others: seq<seq<byte>>,
                                                ms: seq<word>)
    requires AreCodes(parts, ns) && AreCodes(others, ms)
    requires Concat(parts) == Concat(others)
    ensures ns == ms && parts == others
    decreases |parts|
  {
    if parts == [] || others == [] {
      assert parts == others;
    } else {
      var stream := Concat(parts);
      CodeStops(parts[0], ns[0]);
      CodeStops(others[0], ms[0]);
      StopIsUnique(stream, parts[0], others[0]);
      assert Concat(parts[1..]) == stream[|parts[0]|..] == Concat(others[1..]);
      ConcatenationDecodes(parts[1..], ns[1..], others[1..], ms[1..]);
      assert parts == [parts[0]] + parts[1..] && others == [others[0]] + others[1..];
      assert ns == [ns[0]] + ns[1..] && ms == [ms[0]] + ms[1..];
    }
  }

  /** Where a concatenation of codes begins with a decoded number, the rest is that of the other codes. */
  lemma ConcatenationStep(mem: seq<byte>, read: seq<byte>, parts: seq<seq<byte>>, ns: seq<word>)
    requires AreCodes(parts, ns) && Concat(parts) == mem && Decoded(mem, read) && mem != []
    ensures |ns| > 0 && read == parts[0] && Val(read) == ns[0]
    ensures AreCodes(parts[1..], ns[1..]) && Concat(parts[1..]) == mem[|read|..]
  {
    hide Decoded, IsCode, Val;
    assert IsCode(parts[0], ns[0]);
    DecodeUndoesEncode(mem, read, parts[0], ns[0]);
  }

  // -------------------------------------------------------------------- the macros

  /** What bytes of memory stand for. */
  ghost function Bytes(bs: seq<bv8>): seq<byte> {
    seq(|bs|, i requires 0 <= i < |bs| => ByteNum(bs[i]))
  }

  ghost function Nums(ns: seq<bv32>): seq<word> {
    seq(|ns|, i requires 0 <= i < |ns| => Num(ns[i]))
  }

  /** Number of bytes CODELENGTH writes for n. */
  ghost function Size(n: nat): (k: nat)
    ensures 1 <= k <= 5
  {
    if n >= 0x1000_0000 then 5
    else if n >= 0x20_0000 then 4
    else if n >= 0x4000 then 3
    else if n >= 0x80 then 2
    else 1
  }

  /** CODELENGTH(n, p): the bytes from p0 up to the new p are the code of n, the rest of memory is untouched. */
  method EncodeLength(n: bv32, buf: array<bv8>, p0: nat) returns (p: nat)
    requires p0 + Size(Num(n)) <= buf.Length
    modifies buf
    ensures p == p0 + Size(Num(n))
    ensures IsCode(Bytes(buf[p0..p]), Num(n))
    ensures buf[..p0] == old(buf[..p0]) && buf[p..] == old(buf[p..])
  {
    hide Num, ByteNum, Low, Cont, IsCode, Bytes, Written, Opt;
    StartWritten(buf[..], p0);
    ThresholdsAre(n);
    StoresAreCode(n);
    SizeIs(n);
    ghost var before, s := buf[..], [];
    p := p0;
    p, s := StoreIf(n >= 268435456, Cont(n >> 28), buf, p0, p, before, s);
    p, s := StoreIf(n >= 2097152, Cont(n >> 21), buf, p0, p, before, s);
    p, s := StoreIf(n >= 16384, Cont(n >> 14), buf, p0, p, before, s);
    p, s := StoreIf(n >= 128, Cont(n >> 7), buf, p0, p, before, s);
    p, s := StoreIf(true, Low(n), buf, p0, p, before, s);
    WrittenIs(before, buf[..], p0, p, s);
  }

  /** A byte, if it is stored. */
  ghost function Opt(on: bool, b: bv8): (r: seq<bv8>)
    ensures |r| == if on then 1 else 0
  {
    if on then [b] else []
  }

  lemma SizeIs(n: bv32)
    ensures |Stores(n)| == Size(Num(n))
    ensures n >= 268435456 ==> n >= 2097152
    ensures n >= 2097152 ==> n >= 16384
    ensures n >= 16384 ==> n >= 128
  {
    hide Num, Cont, Low;
    ThresholdsAre(n);
  }

  /** Some bytes have been written from p0 on, up to p. */
  ghost predicate Written(before: seq<bv8>, now: seq<bv8>, p0: nat, p: nat, s: seq<bv8>) {
    |now| == |before| && p0 + |s| == p <= |now| && now == before[..p0] + s + before[p..]
  }

  lemma StartWritten(before: seq<bv8>, p0: nat)
    requires p0 <= |before|
    ensures Written(before, before, p0, p0, [])
  {
  }

  lemma WrittenIs(before: seq<bv8>, now: seq<bv8>, p0: nat, p: nat, s: seq<bv8>)
    requires Written(before, now, p0, p, s)
    ensures now[p0..p] == s && now[..p0] == before[..p0] && now[p..] == before[p..]
  {
  }

  /** *(p++) = b, under a condition. */
  method StoreIf(on: bool, b: bv8, buf: array<bv8>, ghost p0: nat, p: nat, ghost before: seq<bv8>, ghost s: seq<bv8>)
    returns (p': nat, ghost s': seq<bv8>)
    requires (on ==> p < buf.Length) && Written(before, buf[..], p0, p, s)
    modifies buf
    ensures s' == s + Opt(on, b) && p' == p + (if on then 1 else 0) && Written(before, buf[..], p0, p', s')
  {
    p', s' := p, s + Opt(on, b);
    if on {
      buf[p] := b;
      p' := p + 1;
      assert buf[..] == (before[..p0] + s + before[p..])[p := b];
      assert before[p..] == [before[p]] + before[p + 1..];
    } else {
      assert s' == s;
    }
  }

  /** The five stores of CODELENGTH. */
  ghost function Stores(n: bv32): seq<bv8> {
    [] + Opt(n >= 268435456, Cont(n >> 28)) + Opt(n >= 2097152, Cont(n >> 21))
    + Opt(n >= 16384, Cont(n >> 14)) + Opt(n >= 128, Cont(n >> 7)) + Opt(true, Low(n))
  }

  ghost function OptNum(on: bool, b: byte): seq<byte> {
    if on then [b] else []
  }

  /** The same on numbers. */
  ghost function Groups(n: nat): seq<byte> {
    [] + OptNum(n >= 0x1000_0000, 128 + n / 128 / 128 / 128 / 128 % 128)
    + OptNum(n >= 0x20_0000, 128 + n / 128 / 128 / 128 % 128)
    + OptNum(n >= 0x4000, 128 + n / 128 / 128 % 128) + OptNum(n >= 0x80, 128 + n / 128 % 128) + OptNum(true, n % 128)
  }

  lemma GroupsAreCode(n: word)
    ensures Groups(n) == Code(n)
  {
    var a := n / 128;
    var b := a / 128;
    var c := b / 128;
    var d := c / 128;
    assert n >= 0x80 <==> a > 0;
    assert n >= 0x4000 <==> b > 0;
    assert n >= 0x20_0000 <==> c > 0;
    assert n >= 0x1000_0000 <==> d > 0;
    assert d < 128;
    UpperStep(a);
    UpperStep(b);
    UpperStep(c);
    UpperStep(d);
    assert Upper(0) == [];
  }

  lemma UpperStep(n: nat)
    ensures Upper(n) == if n == 0 then [] else Upper(n / 128) + [128 + n % 128]
  {
  }

  lemma StoreIsGroup(n: bv32)
    ensures ByteNum(Cont(n >> 28)) == 128 + Num(n) / 128 / 128 / 128 / 128 % 128
    ensures ByteNum(Cont(n >> 21)) == 128 + Num(n) / 128 / 128 / 128 % 128
    ensures ByteNum(Cont(n >> 14)) == 128 + Num(n) / 128 / 128 % 128
    ensures ByteNum(Cont(n >> 7)) == 128 + Num(n) / 128 % 128
  {
    hide Num, ByteNum, Cont;
    var a, b, c, d := n >> 7, n >> 14, n >> 21, n >> 28;
    Shift7Is(n, a);
    Shift14Is(n, a, b);
    Shift21Is(n, b, c);
    Shift28Is(n, c, d);
    ContIs(a);
    ContIs(b);
    ContIs(c);
    ContIs(d);
  }

  lemma StoresAreGroups(n: bv32)
    ensures Bytes(Stores(n)) == Groups(Num(n))
  {
    hide Num, ByteNum, Low, Cont, Bytes, Opt, OptNum;
    ThresholdsAre(n);
    LowIs(n);
    StoreIsGroup(n);
    BytesNone();
    BytesAppend([], n >= 268435456, Cont(n >> 28));
    var s := [] + Opt(n >= 268435456, Cont(n >> 28));
    BytesAppend(s, n >= 2097152, Cont(n >> 21));
    s := s + Opt(n >= 2097152, Cont(n >> 21));
    BytesAppend(s, n >= 16384, Cont(n >> 14));
    s := s + Opt(n >= 16384, Cont(n >> 14));
    BytesAppend(s, n >= 128, Cont(n >> 7));
    s := s + Opt(n >= 128, Cont(n >> 7));
    BytesAppend(s, true, Low(n));
  }

  lemma BytesNone()
    ensures Bytes([]) == []
  {
  }

  lemma BytesAppend(s: seq<bv8>, on: bool, b: bv8)
    ensures Bytes(s + Opt(on, b)) == Bytes(s) + OptNum(on, ByteNum(b))
  {
    hide ByteNum;
  }

  /** For every 32-bit n the stores are its code. */
  lemma StoresAreCode(n: bv32)
    ensures IsCode(Bytes(Stores(n)), Num(n))
  {
    hide Num, IsCode, Stores, Groups, Code;
    StoresAreGroups(n);
    GroupsAreCode(Num(n));
    CodeIsCode(Num(n));
  }

  /** The body of a decoder's loop keeps the value exact: no bit of it is shifted out. */
  lemma DecodeByte(read: seq<byte>, n: bv32, c: bv8)
    requires Run(read) && (read == [] || GoesOn(read)) && Val(read) == Num(n)
    ensures Run(read + [ByteNum(c)]) && Val(read + [ByteNum(c)]) == Num(ShiftIn(n, c))
    ensures GoesOn(read + [ByteNum(c)]) <==> HasMore(c) && BelowLimit(ShiftIn(n, c))
  {
    hide Num, ByteNum, ShiftIn, HasMore, BelowLimit;
    LimitIs(n);
    ShiftInIs(n, c);
    LimitIs(ShiftIn(n, c));
    MoreIs(c);
    RunAppend(read, ByteNum(c));
  }

  lemma RunAppend(read: seq<byte>, c: byte)
    requires Run(read) && (read == [] || GoesOn(read))
    ensures Run(read + [c]) && Val(read + [c]) == Val(read) * 128 + c % 128
    ensures GoesOn(read + [c]) <==> More(c) && Val(read + [c]) < 0x200_0000
  {
    hide Val;
    ValAppend(read, c);
    forall j | 0 < j < |read + [c]| ensures GoesOn((read + [c])[..j]) {
      assert (read + [c])[..j] == read[..j];
      assert read[..|read|] == read;
    }
  }

  /** One more byte read. */
  lemma BytesNext(mem: seq<bv8>, p: nat)
    requires p < |mem|
    ensures Bytes(mem[..p + 1]) == Bytes(mem[..p]) + [ByteNum(mem[p])]
  {
    hide ByteNum;
  }

  lemma BytesPrefix(mem: seq<bv8>, p: nat)
    requires p <= |mem|
    ensures Bytes(mem[..p]) <= Bytes(mem) && |Bytes(mem[..p])| == p
    ensures Bytes(mem)[p..] == Bytes(mem[p..])
    ensures p == |mem| ==> mem[..p] == mem
  {
    hide ByteNum;
  }

  /** DECODELENGTH_CHECKLIMIT(n, p, p_limit) on the bytes from p up to p_limit, any bytes: it moves p by at
      most their number, and no bit of the value read is shifted out. */
  method DecodeLengthCheckLimit(mem: seq<bv8>) returns (n: bv32, p: nat)
    ensures p <= |mem| && (mem != [] ==> p > 0)
    ensures Decoded(Bytes(mem), Bytes(mem[..p])) && Val(Bytes(mem[..p])) == Num(n)
    ensures forall code, v :: IsCode(code, v) && code <= Bytes(mem) ==> p == |code| && Num(n) == v
  {
    hide Num, ByteNum, ShiftIn, HasMore, BelowLimit, Bytes, Val, Run, GoesOn, IsCode;
    n, p := 0, 0;
    StartIs();
    var going := true;
    while going
      invariant p <= |mem| && (p == 0 ==> going)
      invariant Run(Bytes(mem[..p])) && Val(Bytes(mem[..p])) == Num(n)
      invariant going <==> p == 0 || GoesOn(Bytes(mem[..p]))
      decreases going, |mem| - p
    {
      if p >= |mem| { break; }
      NextIs(mem, p, n);
      n := ShiftIn(n, mem[p]);
      going := HasMore(mem[p]) && BelowLimit(n);
      p := p + 1;
    }
    BytesPrefix(mem, p);
    EveryCode(Bytes(mem), Bytes(mem[..p]));
  }

  lemma StartIs()
    ensures Num(0) == 0
    ensures forall mem: seq<bv8> :: Bytes(mem[..0]) == []
    ensures Run([]) && Val([]) == 0
  {
  }

  lemma NextIs(mem: seq<bv8>, p: nat, n: bv32)
    requires p < |mem| && Run(Bytes(mem[..p])) && Val(Bytes(mem[..p])) == Num(n)
    requires p == 0 || GoesOn(Bytes(mem[..p]))
    ensures Run(Bytes(mem[..p + 1])) && Val(Bytes(mem[..p + 1])) == Num(ShiftIn(n, mem[p]))
    ensures GoesOn(Bytes(mem[..p + 1])) <==> HasMore(mem[p]) && BelowLimit(ShiftIn(n, mem[p]))
  {
    hide Num, ByteNum, ShiftIn, HasMore, BelowLimit, Bytes, Val, Run, GoesOn;
    BytesNext(mem, p);
    BytesPrefix(mem, p);
    DecodeByte(Bytes(mem[..p]), n, mem[p]);
  }

  lemma EveryCode(mem: seq<byte>, read: seq<byte>)
    requires Decoded(mem, read)
    ensures forall code, v :: IsCode(code, v) && code <= mem ==> read == code && Val(read) == v
  {
    hide Decoded, IsCode;
    forall code, v | IsCode(code, v) && code <= mem ensures read == code && Val(read) == v {
      DecodeUndoesEncode(mem, read, code, v);
    }
  }

  /** DECODELENGTH(n, p) on the bytes from p on; the caller vouches that the loop stops among them, after stop bytes. */
  method DecodeLength(mem: seq<bv8>, ghost stop: nat) returns (n: bv32, p: nat)
    requires stop <= |mem| && StopsAfter(Bytes(mem[..stop]))
    ensures p == stop && Val(Bytes(mem[..p])) == Num(n)
    ensures forall code, v :: IsCode(code, v) && code <= Bytes(mem) ==> p == |code| && Num(n) == v
  {
    hide Num, ByteNum, ShiftIn, HasMore, BelowLimit, Bytes, Val, Run, GoesOn, IsCode;
    n, p := 0, 0;
    StartIs();
    var going := true;
    while going
      invariant p <= stop && (p == 0 ==> going)
      invariant Run(Bytes(mem[..p])) && Val(Bytes(mem[..p])) == Num(n)
      invariant going <==> p == 0 || GoesOn(Bytes(mem[..p]))
      decreases going, stop - p
    {
      GoesOnBefore(mem, p, stop);
      NextIs(mem, p, n);
      n := ShiftIn(n, mem[p]);
      going := HasMore(mem[p]) && BelowLimit(n);
      p := p + 1;
    }
    StopsThere(mem, p, stop);
    BytesPrefix(mem, p);
    EveryCode(Bytes(mem), Bytes(mem[..p]));
  }

  /** A loop that goes on has not reached the place where it stops. */
  lemma GoesOnBefore(mem: seq<bv8>, p: nat, stop: nat)
    requires p <= stop <= |mem| && StopsAfter(Bytes(mem[..stop])) && (p == 0 || GoesOn(Bytes(mem[..p])))
    ensures p < stop
  {
    hide Val, ByteNum;
    BytesPrefix(mem, stop);
  }

  lemma StopsThere(mem: seq<bv8>, p: nat, stop: nat)
    requires p <= |mem| && stop <= |mem| && StopsAfter(Bytes(mem[..stop]))
    requires p > 0 && Run(Bytes(mem[..p])) && !GoesOn(Bytes(mem[..p]))
    ensures p == stop && Decoded(Bytes(mem), Bytes(mem[..p]))
  {
    hide Val, ByteNum, Bytes, Run, GoesOn;
    BytesPrefix(mem, p);
    BytesPrefix(mem, stop);
    StopIsUnique(Bytes(mem), Bytes(mem[..p]), Bytes(mem[..stop]));
  }

  /** DECODELENGTH_READ(n, READ): READ hands out the bytes of input in order, and the loop stops at
      its first byte without a top bit even when the value has reached 2^25. */
  method DecodeLengthRead(input: seq<bv8>, ghost stop: nat) returns (n: bv32, used: nat)
    requires stop <= |input| && StopsAfter(Bytes(input[..stop]))
    ensures used == stop && Val(Bytes(input[..used])) == Num(n)
    ensures forall code, v :: IsCode(code, v) && code <= Bytes(input) ==> used == |code| && Num(n) == v
  {
    hide Num, ByteNum, ShiftIn, HasMore, BelowLimit, Bytes, Val, Run, GoesOn, IsCode;
    n, used := 0, 0;
    StartIs();
    var going := true;
    while going
      invariant used <= stop && (used == 0 ==> going)
      invariant Run(Bytes(input[..used])) && Val(Bytes(input[..used])) == Num(n)
      invariant going <==> used == 0 || GoesOn(Bytes(input[..used]))
      decreases going, stop - used
    {
      GoesOnBefore(input, used, stop);
      NextIs(input, used, n);
      var c := input[used];
      used := used + 1;
      n := ShiftIn(n, c);
      if !HasMore(c) { going := false; } else { going := BelowLimit(n); }
    }
    StopsThere(input, used, stop);
    BytesPrefix(input, used);
    EveryCode(Bytes(input), Bytes(input[..used]));
  }

  /** What is left of codes after some of them. */
  ghost predicate Left(mem: seq<byte>, p: nat, ns: seq<word>, parts: seq<seq<byte>>, vs: seq<word>)
    requires p <= |mem|
  {
    && |ns| <= |vs| == |parts| && ns == vs[..|ns|]
    && AreCodes(parts[|ns|..], vs[|ns|..]) && Concat(parts[|ns|..]) == mem[p..]
  }

  /** Length after length up to the limit; codes written back to back come back as the numbers they were written for. */
  method DecodeAll(mem: seq<bv8>) returns (ns: seq<bv32>)
    ensures forall parts: seq<seq<byte>>, vs :: AreCodes(parts, vs) && Concat(parts) == Bytes(mem) ==> Nums(ns) == vs
  {
    hide Num, ByteNum, IsCode, Val, Decoded, AreCodes, Concat;
    ns := [];
    var p := 0;
    forall parts: seq<seq<byte>>, vs | AreCodes(parts, vs) && Concat(parts) == Bytes(mem)
      ensures Left(Bytes(mem), 0, Nums([]), parts, vs)
    {
      AllLeft(Bytes(mem), parts, vs);
    }
    while p < |mem|
      invariant p <= |mem|
      invariant forall parts: seq<seq<byte>>, vs :: AreCodes(parts, vs) && Concat(parts) == Bytes(mem) ==>
                  Left(Bytes(mem), p, Nums(ns), parts, vs)
    {
      var n, k := DecodeLengthCheckLimit(mem[p..]);
      forall parts: seq<seq<byte>>, vs | AreCodes(parts, vs) && Concat(parts) == Bytes(mem)
        ensures Left(Bytes(mem), p + k, Nums(ns + [n]), parts, vs)
      {
        OneMoreLength(mem, p, k, ns, n, parts, vs);
      }
      ns := ns + [n];
      p := p + k;
    }
    forall parts: seq<seq<byte>>, vs | AreCodes(parts, vs) && Concat(parts) == Bytes(mem) ensures Nums(ns) == vs {
      NothingLeft(parts[|ns|..], vs[|ns|..]);
      assert vs[..|ns|] + vs[|ns|..] == vs;
    }
  }

  lemma AllLeft(mem: seq<byte>, parts: seq<seq<byte>>, vs: seq<word>)
    requires AreCodes(parts, vs) && Concat(parts) == mem
    ensures Left(mem, 0, Nums([]), parts, vs)
  {
    hide Concat, IsCode;
    assert parts[0..] == parts && vs[0..] == vs && mem[0..] == mem;
  }

  lemma OneMoreLength(mem: seq<bv8>, p: nat, k: nat, ns: seq<bv32>, n: bv32, parts: seq<seq<byte>>, vs: seq<word>)
    requires p < |mem| && k <= |mem| - p && Left(Bytes(mem), p, Nums(ns), parts, vs)
    requires Decoded(Bytes(mem[p..]), Bytes(mem[p..][..k])) && Val(Bytes(mem[p..][..k])) == Num(n)
    ensures Left(Bytes(mem), p + k, Nums(ns + [n]), parts, vs)
  {
    hide Num, ByteNum, IsCode, Val, Decoded, Concat;
    var i := |ns|;
    BytesPrefix(mem, p);
    ConcatenationStep(Bytes(mem[p..]), Bytes(mem[p..][..k]), parts[i..], vs[i..]);
    assert Nums(ns + [n]) == Nums(ns) + [Num(n)] && vs[..i + 1] == vs[..i] + [vs[i]];
    assert parts[i..][1..] == parts[i + 1..] && vs[i..][1..] == vs[i + 1..];
    assert Bytes(mem)[p..][k..] == Bytes(mem)[p + k..];
  }

  lemma NothingLeft(parts: seq<seq<byte>>, vs: seq<word>)
    requires AreCodes(parts, vs) && Concat(parts) == []
    ensures vs == []
  {
    assert vs != [] ==> IsCode(parts[0], vs[0]);
  }
}
