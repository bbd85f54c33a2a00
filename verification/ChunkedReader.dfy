/**
  How miniupnpc's HTTP client takes a chunked body apart (external/miniupnpc/miniwget.c, getHTTPResponse). The body
  arrives in pieces cut at any byte, and what the client knows between two pieces is how much of the present chunk is
  still to come and which digits of a chunk size it has read.
 */
module ChunkedReader {
  import opened Strings

  const CR := '\r'
  const LF := '\n'
  const CRLF := "\r\n"

  // -------------------------------------------------------------------- digits

  /** isxdigit. */
  predicate IsHex(c: char) {
    IsDigit(c) || 'a' <= c <= 'f' || 'A' <= c <= 'F'
  }

  function Digit(c: char): (r: nat)
    ensures r < 16
  {
    if IsDigit(c) then c as nat - '0' as nat
    else if 'a' <= c <= 'f' then c as nat - 'a' as nat + 10
    else if 'A' <= c <= 'F' then c as nat - 'A' as nat + 10
    else 0
  }

  /** Hexadecimal digits and their values, in either case. */
  lemma HexDigits(c: char)
    ensures IsHex(c) <==> c in "0123456789abcdef" || c in "0123456789ABCDEF"
    ensures forall i :: 0 <= i < 16 ==> Digit("0123456789abcdef"[i]) == i && Digit("0123456789ABCDEF"[i]) == i
  {
    var lower, upper := "0123456789abcdef", "0123456789ABCDEF";
    if IsHex(c) {
      assert c == lower[Digit(c)] || c == upper[Digit(c)];
    }
  }

  predicate AllHex(s: string) {
    forall i :: 0 <= i < |s| ==> IsHex(s[i])
  }

  /** The number some hexadecimal digits stand for. */
  function Value(digits: string): nat {
    if digits == "" then 0 else 16 * Value(digits[..|digits| - 1]) + Digit(digits[|digits| - 1])
  }

  const UINT_MAX := 0xffff_ffff

  /** The same in 32 bits. */
  function Value32(digits: string): (r: nat)
    ensures r <= UINT_MAX
  {
    if digits == "" then 0 else (16 * Value32(digits[..|digits| - 1]) + Digit(digits[|digits| - 1])) % (UINT_MAX + 1)
  }

  lemma {:induction false} NoOverflow(digits: string)
    requires Value(digits) <= UINT_MAX
    ensures Value32(digits) == Value(digits)
  {
    if digits != "" {
      NoOverflow(digits[..|digits| - 1]);
    }
  }

  // -------------------------------------------------------------------- the client's loop on values

  datatype State = State(size: nat, digits: string, content: string, ended: bool)

  const START := State(0, "", "", false)

  /** Digits of a size the client keeps: one less than its buffer. */
  const MAX_DIGITS := 31

  function After(c: char, s: string): (r: string)
    ensures |r| <= |s|
  {
    if s != "" && s[0] == c then s[1..] else s
  }

  /** How many digits there are in front, up to a number of them. */
  function HexRun(s: string, room: nat): (k: nat)
    ensures k <= |s| && k <= room
  {
    if s == "" || room == 0 || !IsHex(s[0]) then 0 else 1 + HexRun(s[1..], room - 1)
  }

  /** How many characters there are before the end of the line. */
  function LineRun(s: string): (k: nat)
    ensures k <= |s|
    ensures k < |s| ==> s[k] == CR || s[k] == LF
  {
    if s == "" || s[0] == CR || s[0] == LF then 0 else 1 + LineRun(s[1..])
  }

  /** The digits after a look at the line of a size; what is left of the piece; whether the line ended. */
  datatype Line = Line(digits: string, rest: string, ended: bool)

  /** A line break in front, which ends the chunk before. */
  function Lead(digits: string, piece: string): (r: string)
    ensures |r| <= |piece|
  {
    if digits == "" then After(LF, After(CR, piece)) else piece
  }

  /** What follows the digits up to the end of the line. */
  function LineEnd(digits: string, s: string): (r: Line)
    ensures |r.rest| <= |s|
    ensures s != "" ==> |r.rest| < |s|
    ensures r.digits == digits
  {
    var end := After(CR, s[LineRun(s)..]);
    if end != "" && end[0] == LF then Line(digits, end[1..], true) else Line(digits, end, false)
  }

  function SizeLine(digits: string, piece: string): (r: Line)
    requires |digits| <= MAX_DIGITS
    ensures |r.digits| <= MAX_DIGITS
    ensures piece != "" ==> |r.rest| < |piece|
  {
    var b := Lead(digits, piece);
    var k := HexRun(b, MAX_DIGITS - |digits|);
    LineEnd(digits + b[..k], b[k..])
  }

  /** How much of the present chunk a piece has. */
  function Copied(st: State, piece: string): (k: nat)
    ensures k <= |piece| && k <= st.size
  {
    if st.size < |piece| then st.size else |piece|
  }

  function Copy(st: State, piece: string): State {
    st.(content := st.content + piece[..Copied(st, piece)], size := st.size - Copied(st, piece))
  }

  /** What one piece does. */
  function Consume(st: State, piece: string): (r: State)
    requires |st.digits| <= MAX_DIGITS
    ensures |r.digits| <= MAX_DIGITS
    decreases |piece|, st.size == 0
  {
    if piece == "" || st.ended then st
    else if st.size == 0 then
      var line := SizeLine(st.digits, piece);
      if !line.ended then Consume(st.(digits := line.digits), line.rest)
      else if Value32(line.digits) == 0 then st.(digits := "", ended := true)
      else Consume(st.(digits := "", size := Value32(line.digits)), line.rest)
    else Consume(Copy(st, piece), piece[Copied(st, piece)..])
  }

  /** What the pieces do one after the other. */
  function ConsumeAll(st: State, pieces: seq<string>): State
    requires |st.digits| <= MAX_DIGITS
    decreases |pieces|
  {
    if pieces == [] then st else ConsumeAll(Consume(st, pieces[0]), pieces[1..])
  }

  lemma CopiedOnce(st: State, piece: string)
    requires |st.digits| <= MAX_DIGITS && !st.ended && st.size > 0 && piece != ""
    ensures Consume(st, piece) == Consume(Copy(st, piece), piece[Copied(st, piece)..])
  {
    hide Copy, Copied, SizeLine, Value32;
  }

  lemma CopiedPiece(st: State, piece: string, k: nat)
    requires |st.digits| <= MAX_DIGITS && !st.ended && st.size > 0
    requires k == if st.size < |piece| then st.size else |piece|
    ensures Consume(st, piece) == Consume(st.(content := st.content + piece[..k], size := st.size - k), piece[k..])
  {
    hide Consume;
    if piece == "" {
      assert st.content + piece[..k] == st.content && piece[k..] == piece;
    } else {
      CopiedOnce(st, piece);
    }
  }

  lemma CopiedFrom(st: State, buf: string, at: nat, i: nat)
    requires |st.digits| <= MAX_DIGITS && !st.ended && st.size > 0 && at <= |buf|
    requires i == at + if st.size < |buf| - at then st.size else |buf| - at
    ensures Consume(st, buf[at..]) ==
            Consume(st.(content := st.content + buf[at..i], size := st.size - (i - at)), buf[i..])
  {
    hide Consume;
    var piece := buf[at..];
    assert piece[..i - at] == buf[at..i];
    assert piece[i - at..] == buf[i..];
    CopiedPiece(st, piece, i - at);
  }

  lemma NothingLeft(st: State, piece: string)
    requires |st.digits| <= MAX_DIGITS && piece == ""
    ensures Consume(st, piece) == st
  {
  }

  lemma SizeRead(st: State, piece: string)
    requires |st.digits| <= MAX_DIGITS && !st.ended && st.size == 0 && piece != ""
    ensures var line := SizeLine(st.digits, piece);
      Consume(st, piece) ==
      if !line.ended then Consume(st.(digits := line.digits), line.rest)
      else if Value32(line.digits) == 0 then st.(digits := "", ended := true)
      else Consume(st.(digits := "", size := Value32(line.digits)), line.rest)
  {
  }

  // -------------------------------------------------------------------- the client's loop

  class ChunkReader {
    var chunksize: nat
    var chunksizeBuf: string
    var content: string
    var endOfStream: bool

    ghost function Snapshot(): State
      reads this
    {
      State(chunksize, chunksizeBuf, content, endOfStream)
    }

    ghost predicate Valid()
      reads this
    {
      |chunksizeBuf| <= MAX_DIGITS
    }

    constructor ()
      ensures Valid() && Snapshot() == START
    {
      chunksize, chunksizeBuf, content, endOfStream := 0, "", "", false;
    }

    /** The size the collected digits stand for. */
    method SizeOf() returns (size: nat)
      ensures size == Value32(chunksizeBuf)
    {
      size := 0;
      for j := 0 to |chunksizeBuf|
        invariant size == Value32(chunksizeBuf[..j])
      {
        assert chunksizeBuf[..j + 1][..j] == chunksizeBuf[..j];
        size := (size * 16 + Digit(chunksizeBuf[j])) % (UINT_MAX + 1);
      }
      assert chunksizeBuf[..|chunksizeBuf|] == chunksizeBuf;
    }

    /** Copies digits as long as there are some and there is room. */
    method TakeDigits(buf: string, start: nat) returns (i: nat)
      requires Valid() && start <= |buf|
      modifies this`chunksizeBuf
      ensures Valid() && start <= i <= |buf|
      ensures i == start + HexRun(buf[start..], MAX_DIGITS - |old(chunksizeBuf)|)
      ensures chunksizeBuf == old(chunksizeBuf) + buf[start..i]
    {
      i := start;
      ghost var room := MAX_DIGITS - |chunksizeBuf|;
      while i < |buf| && IsHex(buf[i]) && |chunksizeBuf| < MAX_DIGITS
        invariant start <= i <= |buf| && |chunksizeBuf| <= MAX_DIGITS
        invariant chunksizeBuf == old(chunksizeBuf) + buf[start..i]
        invariant HexRun(buf[start..], room) == i - start + HexRun(buf[i..], MAX_DIGITS - |chunksizeBuf|)
      {
        assert buf[i..][1..] == buf[i + 1..] && buf[start..i + 1] == buf[start..i] + [buf[i]];
        chunksizeBuf := chunksizeBuf + [buf[i]];
        i := i + 1;
      }
    }

    /** Reads on in the line of a chunk size; whether the line ended. */
    method ReadSizeLine(buf: string, start: nat) returns (i: nat, ended: bool)
      requires Valid() && start < |buf|
      modifies this`chunksizeBuf
      ensures Valid() && start < i <= |buf|
      ensures var line := SizeLine(old(chunksizeBuf), buf[start..]);
        chunksizeBuf == line.digits && buf[i..] == line.rest && ended == line.ended
    {
      hide After, HexRun, LineEnd;
      i := start;
      if chunksizeBuf == "" {
        i := SkipOne(buf, i, CR);
        i := SkipOne(buf, i, LF);
      }
      ghost var b, at := buf[i..], i;
      i := TakeDigits(buf, i);
      assert buf[at..i] == b[..i - at] && buf[i..] == b[i - at..];
      i, ended := FinishLine(buf, i, chunksizeBuf);
    }

    /** Copies what there is of the present chunk. */
    method CopyData(buf: string, start: nat) returns (i: nat)
      requires start <= |buf|
      modifies this`content, this`chunksize
      ensures i == start + if old(chunksize) < |buf| - start then old(chunksize) else |buf| - start
      ensures content == old(content) + buf[start..i] && chunksize == old(chunksize) - (i - start)
    {
      var bytesToCopy := if chunksize < |buf| - start then chunksize else |buf| - start;
      content := content + buf[start..start + bytesToCopy];
      i := start + bytesToCopy;
      chunksize := chunksize - bytesToCopy;
    }

    /** Reads on in a size line and, once it ended, has the size; a size of zero ends the body. */
    method ReadSize(buf: string, start: nat) returns (i: nat, ended: bool)
      requires Valid() && !endOfStream && chunksize == 0 && start < |buf|
      modifies this
      ensures Valid() && start < i <= |buf|
      ensures !ended ==> chunksize == 0 && !endOfStream
      ensures endOfStream ==> Snapshot() == Consume(old(Snapshot()), buf[start..])
      ensures !endOfStream ==> Consume(old(Snapshot()), buf[start..]) == Consume(Snapshot(), buf[i..])
      ensures ended && !endOfStream ==> chunksize > 0
    {
      hide Consume, SizeLine, Value32;
      SizeRead(Snapshot(), buf[start..]);
      i, ended := ReadSizeLine(buf, start);
      if ended {
        var size := SizeOf();
        chunksizeBuf, chunksize := "", size;
        endOfStream := chunksize == 0;
      }
    }

    /** Takes one received piece. */
    method Feed(buf: string)
      requires Valid() && !endOfStream
      modifies this
      ensures Valid() && Snapshot() == Consume(old(Snapshot()), buf)
    {
      hide Consume, SizeLine, Value32;
      var i := 0;
      assert buf[0..] == buf;
      while i < |buf|
        invariant Valid() && i <= |buf| && !endOfStream
        invariant Consume(old(Snapshot()), buf) == Consume(Snapshot(), buf[i..])
      {
        if chunksize == 0 {
          var ended: bool;
          i, ended := ReadSize(buf, i);
          if !ended {
            continue;
          }
          if endOfStream {
            return;
          }
        }
        ghost var at, before := i, Snapshot();
        i := CopyData(buf, i);
        CopiedFrom(before, buf, at, i);
      }
      NothingLeft(Snapshot(), buf[i..]);
    }
  }

  /** Takes the pieces as they are received, until the body has ended. */
  method Receive(pieces: seq<string>) returns (content: string, ended: bool)
    ensures var st := ConsumeAll(START, pieces);
      content == st.content && ended == st.ended
  {
    var reader := new ChunkReader();
    var k := 0;
    while k < |pieces| && !reader.endOfStream
      invariant k <= |pieces| && fresh(reader) && reader.Valid()
      invariant ConsumeAll(START, pieces) == ConsumeAll(reader.Snapshot(), pieces[k..])
    {
      reader.Feed(pieces[k]);
      assert pieces[k..][1..] == pieces[k + 1..];
      k := k + 1;
    }
    if reader.endOfStream {
      EndedStays(reader.Snapshot(), pieces[k..]);
    }
    content, ended := reader.content, reader.endOfStream;
  }

  /** Nothing after the end of the body is looked at. */
  lemma {:induction false} EndedStays(st: State, pieces: seq<string>)
    requires st.ended && |st.digits| <= MAX_DIGITS
    ensures ConsumeAll(st, pieces) == st
    decreases |pieces|
  {
    if pieces != [] {
      EndedStays(st, pieces[1..]);
    }
  }

  method FinishLine(buf: string, start: nat, ghost digits: string) returns (i: nat, ended: bool)
    requires start <= |buf|
    ensures start <= i <= |buf| && LineEnd(digits, buf[start..]) == Line(digits, buf[i..], ended)
  {
    hide After, LineRun;
    i := SkipLine(buf, start);
    assert buf[start..][i - start..] == buf[i..];
    i := SkipOne(buf, i, CR);
    ghost var end := buf[i..];
    ended := i < |buf| && buf[i] == LF;
    assert ended == (end != "" && end[0] == LF);
    if ended {
      i := i + 1;
      assert buf[i..] == end[1..];
    }
  }

  /** One character, if it is next. */
  method SkipOne(buf: string, start: nat, c: char) returns (i: nat)
    requires start <= |buf|
    ensures start <= i <= |buf| && buf[i..] == After(c, buf[start..])
  {
    i := if start < |buf| && buf[start] == c then start + 1 else start;
  }

  /** The rest of the line. */
  method SkipLine(buf: string, start: nat) returns (i: nat)
    requires start <= |buf|
    ensures i == start + LineRun(buf[start..])
  {
    i := start;
    while i < |buf| && buf[i] != CR && buf[i] != LF
      invariant start <= i <= |buf|
      invariant LineRun(buf[start..]) == i - start + LineRun(buf[i..])
    {
      assert buf[i..][1..] == buf[i + 1..];
      i := i + 1;
    }
  }
}
