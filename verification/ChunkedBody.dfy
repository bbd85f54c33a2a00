/**
  Chunked bodies as they are written, section 4.1 of RFC 7230: each chunk has a line with its size in hexadecimal and
  perhaps an extension, then its data and a line break; a chunk of size zero ends the body. The client of
  external/miniupnpc/miniwget.c gets back the data of the chunks, however the body was cut into pieces.
 */
module ChunkedBody {
  import opened Sequences
  import opened ChunkedReader
  import opened ChunkSizes

  datatype Chunk = Chunk(digits: string, ext: string, data: string)

  /** No line break. */
  predicate NoBreak(s: string) {
    forall i :: 0 <= i < |s| ==> s[i] != CR && s[i] != LF
  }

  /** The digits are the size of the data, the extension is on the same line, and the line is safe to cut. */
  predicate WellFormed(c: Chunk) {
    && IsSizeLine(c.digits, c.ext) && NoBreak(c.ext)
    && Value(c.digits) == |c.data| <= UINT_MAX && Readable(c.digits, c.ext, |c.data|)
  }

  /** Chunks with data, and one without at the end. */
  predicate Complete(chunks: seq<Chunk>) {
    chunks != [] && WellFormed(chunks[0]) && (chunks[0].data == "" <==> |chunks| == 1) &&
    (|chunks| > 1 ==> Complete(chunks[1..]))
  }

  /** What follows the size line of a chunk; `rest` is what follows the body's last size line. */
  function Following(c: Chunk, chunks: seq<Chunk>, rest: string): string
    decreases |chunks|, 1
  {
    if c.data == "" then rest else c.data + (CRLF + Body(chunks, rest))
  }

  function Body(chunks: seq<Chunk>, rest: string): string
    decreases |chunks|, 0
  {
    if chunks == [] then rest
    else chunks[0].digits + chunks[0].ext + (CRLF + Following(chunks[0], chunks[1..], rest))
  }

  function Content(chunks: seq<Chunk>): string {
    if chunks == [] then "" else chunks[0].data + Content(chunks[1..])
  }

  // -------------------------------------------------------------------- strings

  /** Two ways to cut one string. */
  lemma Cut(a: string, b: string, x: string, y: string)
    requires a + b == x + y
    ensures |a| <= |x| ==> a == x[..|a|] && b == x[|a|..] + y
    ensures |x| <= |a| ==> x == a[..|x|] && y == a[|x|..] + b
  {
    var s := a + b;
    if |a| <= |x| {
      assert a == s[..|a|] && x == s[..|x|];
      assert b == s[|a|..] && y == s[|x|..];
    }
    if |x| <= |a| {
      assert a == s[..|a|] && x == s[..|x|];
      assert b == s[|a|..] && y == s[|x|..];
    }
  }

  /** The digits in front end at the latest with the line. */
  lemma {:induction false} HexRunStops(b: string, later: string, line: string, y: string, room: nat)
    requires b + later == line + y && y != "" && !IsHex(y[0])
    ensures HexRun(b, room) == HexRun(b[..if |b| <= |line| then |b| else |line|], room)
  {
    var m := if |b| <= |line| then |b| else |line|;
    if b != "" {
      var all := b + later;
      assert b[0] == all[0];
      if line != "" {
        assert line[0] == all[0];
        if room > 0 && IsHex(b[0]) {
          assert b[1..] + later == all[1..] && line[1..] + y == all[1..];
          HexRunStops(b[1..], later, line[1..], y, room - 1);
          assert b[..m][1..] == b[1..][..m - 1];
        }
      } else {
        assert y[0] == all[0];
      }
    }
  }

  lemma {:induction false} LineRunStops(b: string, later: string, line: string, y: string)
    requires b + later == line + y && NoBreak(line) && y != "" && (y[0] == CR || y[0] == LF)
    ensures LineRun(b) == if |b| <= |line| then |b| else |line|
  {
    if b != "" {
      var all := b + later;
      assert b[0] == all[0];
      if line != "" {
        assert line[0] == all[0];
        assert b[1..] + later == all[1..] && line[1..] + y == all[1..];
        LineRunStops(b[1..], later, line[1..], y);
      } else {
        assert y[0] == all[0];
      }
    }
  }

  /** The end of a size line that may be cut anywhere: what is still to come of it. */
  predicate LineRest(line: string, nl: string) {
    NoBreak(line) && (nl == CRLF || (nl == [LF] && line == ""))
  }

  /** Reading on from within the line: it ends in this piece, or the piece ends within it. */
  lemma LineEndIs(digits: string, b: string, later: string, line: string, nl: string, z: string) returns (nl': string)
    requires LineRest(line, nl) && b + later == line + (nl + z)
    ensures var m := if |b| <= |line| then |b| else |line|;
      var r := LineEnd(digits, b);
      if r.ended then m == |line| && r.rest + later == z
      else r.rest == "" && LineRest(line[m..], nl') && later == line[m..] + (nl' + z)
  {
    hide NoBreak, LineRun;
    LineRunStops(b, later, line, nl + z);
    Cut(b, later, line, nl + z);
    NoBreakRest(line, if |b| <= |line| then |b| else |line|);
    if |b| <= |line| {
      assert b[LineRun(b)..] == "";
      nl' := nl;
    } else {
      nl' := [LF];
      assert line[|line|..] == "";
      BreakIs(b[|line|..], later, nl, z);
    }
  }

  lemma NoBreakRest(line: string, k: nat)
    requires NoBreak(line) && k <= |line|
    ensures NoBreak(line[k..])
  {
  }

  /** At the line break itself. */
  lemma BreakIs(b: string, later: string, nl: string, z: string)
    requires b != "" && b + later == nl + z && (nl == CRLF || nl == [LF])
    ensures var end := After(CR, b);
      if end == "" then later == "" + ([LF] + z) else end[0] == LF && end[1..] + later == z
  {
    var all := b + later;
    assert b[0] == all[0];
    if nl == CRLF {
      assert all[0] == CR && all[1] == LF;
      assert z == all[2..];
      assert After(CR, b) == b[1..];
      if |b| == 1 {
        assert later == all[1..];
        assert later == [LF] + z;
      } else {
        assert b[1] == all[1];
        assert b[1..][1..] + later == all[2..];
      }
    } else {
      assert all[0] == LF;
      assert z == all[1..] && b[1..] + later == all[1..];
    }
  }

  /** A line break that ends the chunk before, of which `lead` is still to come. */
  predicate IsLead(lead: string) {
    lead == "" || lead == [LF] || lead == CRLF
  }

  lemma LeadIs(b: string, later: string, lead: string, x: string) returns (lead': string)
    requires IsLead(lead) && b != "" && b + later == lead + x && x != "" && IsHex(x[0])
    ensures IsLead(lead') && Lead("", b) + later == lead' + x && (lead' != "" ==> Lead("", b) == "")
  {
    var all := b + later;
    assert b[0] == all[0];
    if lead == "" {
      lead' := "";
      assert all[0] == x[0];
      assert lead + x == x;
      assert Lead("", b) == b;
    } else if lead == [LF] {
      lead' := "";
      assert all[0] == LF && x == all[1..];
      assert Lead("", b) == b[1..] && b[1..] + later == all[1..];
    } else {
      assert all[0] == CR && all[1] == LF && x == all[2..];
      if |b| == 1 {
        lead' := [LF];
        assert Lead("", b) == "" && later == all[1..] == [LF] + x;
      } else {
        lead' := "";
        assert b[1] == all[1];
        assert Lead("", b) == b[2..] && b[2..] + later == all[2..];
      }
    }
  }

  // -------------------------------------------------------------------- where the client is

  /** What is still to come of the chunk the client is at. */
  datatype Spot =
    | InData(data: string)
    | Before(lead: string)
    | InSize(line: string, nl: string, c: Chunk)

  function Remaining(spot: Spot, chunks: seq<Chunk>, rest: string): string {
    match spot
    case InData(data) => data + (CRLF + Body(chunks, rest))
    case Before(lead) => lead + Body(chunks, rest)
    case InSize(line, nl, c) => line + (nl + Following(c, chunks, rest))
  }

  function Expected(spot: Spot, chunks: seq<Chunk>): string {
    match spot
    case InData(data) => data + Content(chunks)
    case Before(_) => Content(chunks)
    case InSize(_, _, c) => c.data + Content(chunks)
  }

  ghost predicate Rests(c: Chunk, chunks: seq<Chunk>) {
    if c.data == "" then chunks == [] else Complete(chunks)
  }

  ghost predicate At(spot: Spot, chunks: seq<Chunk>, st: State) {
    && !st.ended && |st.digits| <= MAX_DIGITS
    && match spot
       case InData(data) => st.size == |data| > 0 && st.digits == "" && Complete(chunks)
       case Before(lead) => st.size == 0 && st.digits == "" && IsLead(lead) && Complete(chunks)
       case InSize(line, nl, c) =>
         && st.size == 0 && st.digits != "" && LineRest(line, nl)
         && Safe(st.digits, line, |c.data|) && Rests(c, chunks)
  }

  /** What is left of a line that is safe to cut is safe to cut. */
  lemma SafeRest(digits: string, line: string, m: nat, size: nat)
    requires |digits| <= MAX_DIGITS && m <= |line| && Safe(digits, line, size)
    ensures Safe(Collect(digits, line[..m]), line[m..], size)
    ensures m == |line| ==> Value32(Collect(digits, line[..m])) == size
  {
    hide Collect, Value32;
    forall pieces | Concat(pieces) == line[m..]
      ensures Value32(CollectAll(Collect(digits, line[..m]), pieces)) == size
    {
      var all := [line[..m]] + pieces;
      assert all[1..] == pieces && Concat(all) == line;
    }
    if m == |line| {
      assert Concat([]) == line[m..] && CollectAll(Collect(digits, line[..m]), []) == Collect(digits, line[..m]);
    }
  }

  lemma StepInData(spot: Spot, chunks: seq<Chunk>, rest: string, st: State, piece: string, later: string)
    returns (spot': Spot)
    requires At(spot, chunks, st) && spot.InData? && piece != "" && piece + later == Remaining(spot, chunks, rest)
    ensures var k := if st.size < |piece| then st.size else |piece|;
      var st' := st.(content := st.content + piece[..k], size := st.size - k);
      && k > 0 && At(spot', chunks, st') && piece[k..] + later == Remaining(spot', chunks, rest)
      && st'.content + Expected(spot', chunks) == st.content + Expected(spot, chunks)
  {
    hide Body, Content, Complete;
    var k := if st.size < |piece| then st.size else |piece|;
    var after := CRLF + Body(chunks, rest);
    Cut(piece, later, spot.data, after);
    assert piece[..k] == spot.data[..k];
    Moved(st.content, spot.data, k, Content(chunks));
    if k < |spot.data| {
      spot' := InData(spot.data[k..]);
      assert piece[k..] == "" && piece[k..] + later == later;
    } else {
      spot' := Before(CRLF);
      assert spot.data[k..] == "" && spot.data[k..] + Content(chunks) == Content(chunks);
    }
  }

  lemma Moved(content: string, data: string, k: nat, more: string)
    requires k <= |data|
    ensures content + data[..k] + (data[k..] + more) == content + (data + more)
  {
    assert data == data[..k] + data[k..];
  }

  /** Where reading a piece within a size line leads. */
  ghost predicate LineLeads(st: State, piece: string, later: string, rest: string, expected: string, spot: Spot,
                            chunks: seq<Chunk>)
    requires |st.digits| <= MAX_DIGITS
  {
    var line := SizeLine(st.digits, piece);
    if !line.ended then
      && line.rest == "" && later == Remaining(spot, chunks, rest) && At(spot, chunks, st.(digits := line.digits))
      && Expected(spot, chunks) == expected
    else if Value32(line.digits) == 0 then expected == ""
    else
      && line.rest + later == Remaining(spot, chunks, rest)
      && At(spot, chunks, st.(digits := "", size := Value32(line.digits)))
      && Expected(spot, chunks) == expected
  }

  /** What reading a piece within a size line gives: the digits kept, and the size or the rest of the line. */
  lemma LineIs(read: string, b: string, later: string, line: string, nl: string, z: string, size: nat)
    returns (nl': string)
    requires |read| <= MAX_DIGITS && LineRest(line, nl) && Safe(read, line, size) && b + later == line + (nl + z)
    ensures var k := HexRun(b, MAX_DIGITS - |read|);
      var r := LineEnd(read + b[..k], b[k..]);
      var m := if |b| <= |line| then |b| else |line|;
      && (r.ended ==> Value32(r.digits) == size && r.rest + later == z)
      && (!r.ended ==> r.rest == "" && LineRest(line[m..], nl') && Safe(r.digits, line[m..], size)
                       && later == line[m..] + (nl' + z))
  {
    hide NoBreak, LineEnd, HexRun, Value32, Safe;
    var m := if |b| <= |line| then |b| else |line|;
    var k := HexRun(b, MAX_DIGITS - |read|);
    HexRunStops(b, later, line, nl + z, MAX_DIGITS - |read|);
    Cut(b, later, line, nl + z);
    assert b[..m] == line[..m] && b[..k] == line[..m][..k];
    assert Collect(read, line[..m]) == read + b[..k];
    SafeRest(read, line, m, size);
    KLine(b, later, line, nl, z, k);
    NoBreakRest(line, k);
    nl' := LineEndIs(read + b[..k], b[k..], later, line[k..], nl, z);
    assert line[k..][m - k..] == line[m..];
  }

  /** From within a size line. */
  lemma StepInLine(line: string, nl: string, c: Chunk, chunks: seq<Chunk>, rest: string, st: State, piece: string,
                   later: string)
    returns (spot': Spot)
    requires |st.digits| <= MAX_DIGITS && st.size == 0 && !st.ended
    requires LineRest(line, nl) && Safe(st.digits, line, |c.data|) && Rests(c, chunks)
    requires Lead(st.digits, piece) + later == line + (nl + Following(c, chunks, rest))
    requires SizeLine(st.digits, piece).digits != ""
    ensures LineLeads(st, piece, later, rest, c.data + Content(chunks), spot', chunks)
  {
    hide Body, Content, Complete, LineRest, LineEnd, HexRun, Value32, Lead, Safe, Following;
    var b := Lead(st.digits, piece);
    var nl' := LineIs(st.digits, b, later, line, nl, Following(c, chunks, rest), |c.data|);
    if !SizeLine(st.digits, piece).ended {
      spot' := InSize(line[if |b| <= |line| then |b| else |line|..], nl', c);
    } else {
      spot' := InData(c.data);
      FollowingIs(c, chunks, rest);
      EmptyContent();
      assert "" + "" == "";
    }
  }

  lemma KLine(b: string, later: string, line: string, nl: string, z: string, k: nat)
    requires b + later == line + (nl + z) && k <= |b| && k <= |line|
    ensures b[k..] + later == line[k..] + (nl + z)
  {
    var all := b + later;
    assert b[k..] + later == all[k..];
    assert line[k..] + (nl + z) == all[k..];
  }

  lemma FollowingIs(c: Chunk, chunks: seq<Chunk>, rest: string)
    ensures c.data != "" ==> Following(c, chunks, rest) == c.data + (CRLF + Body(chunks, rest))
  {
  }

  lemma EmptyContent()
    ensures Content([]) == ""
  {
  }

  lemma StepInSize(spot: Spot, chunks: seq<Chunk>, rest: string, st: State, piece: string, later: string)
    returns (spot': Spot, chunks': seq<Chunk>)
    requires At(spot, chunks, st) && spot.InSize?
    requires piece + later == Remaining(spot, chunks, rest)
    ensures LineLeads(st, piece, later, rest, Expected(spot, chunks), spot', chunks')
  {
    hide Body, Content, Complete, HexRun, Value32, LineLeads, Safe, Following, LineEnd;
    chunks' := chunks;
    spot' := StepInLine(spot.line, spot.nl, spot.c, chunks, rest, st, piece, later);
  }

  lemma FirstDigitIsRead(piece: string)
    requires Lead("", piece) != "" && IsHex(Lead("", piece)[0])
    ensures SizeLine("", piece).digits != ""
  {
    hide Lead, LineEnd;
    assert HexRun(Lead("", piece), MAX_DIGITS) > 0;
  }

  lemma StepBefore(spot: Spot, chunks: seq<Chunk>, rest: string, st: State, piece: string, later: string)
    returns (spot': Spot, chunks': seq<Chunk>)
    requires At(spot, chunks, st) && spot.Before? && piece != ""
    requires piece + later == Remaining(spot, chunks, rest)
    ensures LineLeads(st, piece, later, rest, Expected(spot, chunks), spot', chunks')
  {
    hide Value, Value32, Following, Safe, Readable;
    var c := chunks[0];
    assert Content(chunks) == c.data + Content(chunks[1..]);
    hide Content;
    var body := Body(chunks, rest);
    assert body[0] == c.digits[0];
    var lead' := LeadIs(piece, later, spot.lead, body);
    var b := Lead("", piece);
    if b == "" {
      spot', chunks' := Before(lead'), chunks;
      assert later == lead' + body by { assert b + later == later; }
      assert SizeLine("", piece) == Line("", "", false);
    } else {
      assert b + later == body by { assert lead' + body == body; }
      assert b[0] == body[0];
      chunks' := chunks[1..];
      LineOf(c);
      FirstDigitIsRead(piece);
      hide LineLeads, Lead, Body, LineEnd, WellFormed, SizeLine, LineRest;
      spot' := StepInLine(c.digits + c.ext, CRLF, c, chunks', rest, st, piece, later);
    }
  }

  lemma LineOf(c: Chunk)
    requires WellFormed(c)
    ensures LineRest(c.digits + c.ext, CRLF) && Safe("", c.digits + c.ext, |c.data|)
  {
    hide Safe, Value, Readable;
    SizeLineExactly(c.digits, c.ext, |c.data|);
    assert forall i :: 0 <= i < |c.digits| ==> IsHex(c.digits[i]);
  }

  /** One piece, from wherever the client is. */
  lemma {:induction false} PieceLeads(spot: Spot, chunks: seq<Chunk>, rest: string, st: State, piece: string,
                                      later: string)
    returns (spot': Spot, chunks': seq<Chunk>)
    requires At(spot, chunks, st)
    requires piece + later == Remaining(spot, chunks, rest)
    ensures var st' := Consume(st, piece);
      if st'.ended then st'.content == st.content + Expected(spot, chunks)
      else
        && At(spot', chunks', st') && later == Remaining(spot', chunks', rest)
        && st'.content + Expected(spot', chunks') == st.content + Expected(spot, chunks)
    decreases |piece|, st.size == 0
  {
    hide Remaining, Expected, SizeLine, Value32;
    if piece == "" {
      spot', chunks' := spot, chunks;
      assert piece + later == later;
    } else if st.size > 0 {
      var mid := StepInData(spot, chunks, rest, st, piece, later);
      var k := if st.size < |piece| then st.size else |piece|;
      var st' := st.(content := st.content + piece[..k], size := st.size - k);
      spot', chunks' := PieceLeads(mid, chunks, rest, st', piece[k..], later);
    } else {
      var mid: Spot, left: seq<Chunk>;
      if spot.Before? {
        mid, left := StepBefore(spot, chunks, rest, st, piece, later);
      } else {
        mid, left := StepInSize(spot, chunks, rest, st, piece, later);
      }
      var line := SizeLine(st.digits, piece);
      if !line.ended {
        spot', chunks' := mid, left;
      } else if Value32(line.digits) == 0 {
        spot', chunks' := spot, chunks;
        assert st.content + "" == st.content;
      } else {
        var st' := st.(digits := "", size := Value32(line.digits));
        spot', chunks' := PieceLeads(mid, left, rest, st', line.rest, later);
      }
    }
  }

  lemma {:induction false} PiecesLead(spot: Spot, chunks: seq<Chunk>, rest: string, st: State, pieces: seq<string>)
    requires At(spot, chunks, st) && |st.digits| <= MAX_DIGITS
    requires Concat(pieces) == Remaining(spot, chunks, rest)
    ensures var st' := ConsumeAll(st, pieces); st'.ended && st'.content == st.content + Expected(spot, chunks)
    decreases |pieces|
  {
    hide Consume, At, Expected, Remaining;
    if pieces == [] {
      RemainingIsNotEmpty(spot, chunks, rest, st);
      assert false;
    } else {
      var spot', chunks' := PieceLeads(spot, chunks, rest, st, pieces[0], Concat(pieces[1..]));
      var st' := Consume(st, pieces[0]);
      if st'.ended {
        EndedStays(st', pieces[1..]);
      } else {
        PiecesLead(spot', chunks', rest, st', pieces[1..]);
      }
    }
  }

  /** Until the last size line has been read there is something to come. */
  lemma RemainingIsNotEmpty(spot: Spot, chunks: seq<Chunk>, rest: string, st: State)
    requires At(spot, chunks, st)
    ensures Remaining(spot, chunks, rest) != ""
  {
  }

  /** However a body is cut into pieces, the client gets back what the chunks hold and sees the end of it. */
  lemma AnyCutIsReassembled(chunks: seq<Chunk>, rest: string, pieces: seq<string>)
    requires Complete(chunks) && Concat(pieces) == Body(chunks, rest)
    ensures ConsumeAll(START, pieces).ended && ConsumeAll(START, pieces).content == Content(chunks)
  {
    hide Complete, Body, Content, ConsumeAll;
    assert "" + Body(chunks, rest) == Body(chunks, rest) && "" + Content(chunks) == Content(chunks);
    PiecesLead(Before(""), chunks, rest, START, pieces);
  }
}
