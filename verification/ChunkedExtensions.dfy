/**
  What the digits of a chunk extension can do to the content that the client of external/miniupnpc/miniwget.c reads.
 */
module ChunkedExtensions {
  import opened Sequences
  import opened ChunkedReader
  import opened ChunkSizes
  import opened ChunkedBody

  /** A body cut within its first extension, of which the client took too large a size: it swallows all the rest. */
  lemma CutBodyIsSwallowed(digits: string, ext: string, p: nat, following: string)
    requires IsSizeLine(digits, ext) && |digits| <= MAX_DIGITS && NoBreak(ext) && 0 < p <= |ext|
    requires Value32(Collect(digits, ext[p..])) > |following| > 0
    ensures var end := ConsumeAll(START, [digits + ext[..p], ext[p..] + (CRLF + following)]);
      !end.ended && end.content == following
  {
    hide Consume, SizeLine, Value32, NoBreak, Collect;
    var first, second := digits + ext[..p], ext[p..] + (CRLF + following);
    var mid, size := START.(digits := digits), Value32(Collect(digits, ext[p..]));
    var st := START.(size := size);
    FirstPart(digits, ext, p);
    SizeRead(START, first);
    NothingLeft(mid, "");
    NoBreakRest(ext, p);
    SecondPart(digits, ext[p..], following);
    SizeRead(mid, second);
    Swallowed(st, following);
    TwoPieces(START, first, second);
  }

  lemma Swallowed(st: State, following: string)
    requires |st.digits| <= MAX_DIGITS && !st.ended && st.size > |following|
    ensures Consume(st, following) == st.(content := st.content + following, size := st.size - |following|)
  {
    hide Consume;
    CopiedPiece(st, following, |following|);
    assert following[..|following|] == following;
    NothingLeft(st.(content := st.content + following, size := st.size - |following|), following[|following|..]);
  }

  lemma TwoPieces(st: State, first: string, second: string)
    requires |st.digits| <= MAX_DIGITS
    ensures ConsumeAll(st, [first, second]) == Consume(Consume(st, first), second)
  {
    hide Consume;
    var pieces := [first, second];
    assert pieces[1..] == [second] && pieces[1..][1..] == [];
    var mid := Consume(st, first);
    assert ConsumeAll(mid, pieces[1..]) == ConsumeAll(Consume(mid, second), []);
  }

  lemma FirstPart(digits: string, ext: string, p: nat)
    requires IsSizeLine(digits, ext) && |digits| <= MAX_DIGITS && NoBreak(ext) && 0 < p <= |ext|
    ensures SizeLine("", digits + ext[..p]) == Line(digits, "", false)
  {
    var b := digits + ext[..p];
    assert b[0] == digits[0] && Lead("", b) == b;
    HexRunExact(digits, ext[..p], MAX_DIGITS);
    assert b[..|digits|] == digits && b[|digits|..] == ext[..p] && "" + digits == digits;
    NoBreakRest(ext, 0);
    assert ext[..p] + (ext[p..] + [CR]) == ext + [CR];
    LineRunStops(ext[..p], ext[p..] + [CR], ext, [CR]);
  }

  lemma SecondPart(digits: string, line: string, following: string)
    requires 0 < |digits| <= MAX_DIGITS && NoBreak(line)
    ensures SizeLine(digits, line + (CRLF + following)) == Line(Collect(digits, line), following, true)
  {
    hide HexRun, LineEnd, NoBreak, After;
    var b := line + (CRLF + following);
    var room := MAX_DIGITS - |digits|;
    assert b + "" == line + (CRLF + following);
    HexRunStops(b, "", line, CRLF + following, room);
    assert b[..|line|] == line;
    var k := HexRun(line, room);
    assert b[..k] == line[..k];
    KLine(b, "", line, CRLF, following, k);
    NoBreakRest(line, k);
    assert b[k..] + "" == b[k..];
    var nl' := LineEndIs(digits + b[..k], b[k..], "", line[k..], CRLF, following);
    assert LineEnd(digits + b[..k], b[k..]).rest + "" == LineEnd(digits + b[..k], b[k..]).rest;
  }

  lemma {:induction false} BodyIsLonger(chunks: seq<Chunk>, rest: string)
    requires Complete(chunks)
    ensures |Body(chunks, rest)| >= |Content(chunks)|
    decreases |chunks|
  {
    hide WellFormed;
    if |chunks| > 1 {
      BodyIsLonger(chunks[1..], rest);
    }
  }

  /**
    So content is lost: a body cut within the extension of its first chunk, in front of digits that make the size
    larger than all that follows, is neither seen to end nor read right.
   */
  lemma ContentIsLost(c: Chunk, chunks: seq<Chunk>, rest: string, p: nat)
    requires Complete(chunks) && IsSizeLine(c.digits, c.ext) && |c.digits| <= MAX_DIGITS && NoBreak(c.ext)
    requires c.data != "" && 0 < p <= |c.ext|
    requires Value32(Collect(c.digits, c.ext[p..])) > |Following(c, chunks, rest)|
    ensures var all, pieces := [c] + chunks, [c.digits + c.ext[..p], c.ext[p..] + (CRLF + Following(c, chunks, rest))];
      && Concat(pieces) == Body(all, rest)
      && !ConsumeAll(START, pieces).ended && ConsumeAll(START, pieces).content != Content(all)
  {
    hide ConsumeAll, Value32, Collect, NoBreak, Complete;
    var following := Following(c, chunks, rest);
    var all, pieces := [c] + chunks, [c.digits + c.ext[..p], c.ext[p..] + (CRLF + following)];
    assert all[1..] == chunks;
    BodyIsLonger(chunks, rest);
    FollowingIs(c, chunks, rest);
    CutBodyIsSwallowed(c.digits, c.ext, p, following);
    hide Following;
    assert c.ext[..p] + c.ext[p..] == c.ext;
    ConcatTwo(c.digits + c.ext[..p], c.ext[p..] + (CRLF + following));
    assert c.digits + c.ext[..p] + (c.ext[p..] + (CRLF + following)) == c.digits + c.ext + (CRLF + following);
  }

  lemma ConcatTwo(a: string, b: string)
    ensures Concat([a, b]) == a + b
  {
    assert [a, b][1..] == [b] && [b][1..] == [];
    assert Concat([b]) == b + "";
  }

  /** A body of three bytes, with a letter in the extension. */
  lemma LossyBody()
    ensures var c, chunks := Chunk("3", ";a", "abc"), [Chunk("0", "", "")];
      && Complete(chunks) && IsSizeLine(c.digits, c.ext) && NoBreak(c.ext) && Value(c.digits) == |c.data|
      && Value32(Collect(c.digits, c.ext[1..])) > |Following(c, chunks, CRLF)|
  {
    hide Value, Value32, Collect, Complete;
    LossyDigits();
    LastChunk();
  }

  lemma LossyDigits()
    ensures Value("3") == 3 && Collect("3", ";a"[1..]) == "3a" && Value32("3a") == 58
  {
    assert Value("3") == 3 by { assert "3"[..0] == ""; }
    assert Collect("3", ";a"[1..]) == "3a" by { assert ";a"[1..] == "a" && HexRun("a", 30) == 1; }
    assert Value32("3a") == 58 by { assert "3a"[..1] == "3" && "3"[..0] == ""; }
  }

  /** In two pieces, its end is not seen and its content is not read right. */
  lemma ContentCanBeLost() returns (first: string, second: string)
    ensures var chunks := [Chunk("3", ";a", "abc"), Chunk("0", "", "")];
      && first == "3;" && first + second == Body(chunks, CRLF)
      && !ConsumeAll(START, [first, second]).ended && ConsumeAll(START, [first, second]).content != Content(chunks)
  {
    var c, chunks := Chunk("3", ";a", "abc"), [Chunk("0", "", "")];
    hide Complete, Value, Value32, NoBreak, Collect, Body, Content, ConsumeAll;
    LossyBody();
    assert [c] + chunks == [c, chunks[0]];
    ContentIsLost(c, chunks, CRLF, 1);
    first, second := "3" + ";a"[..1], ";a"[1..] + (CRLF + Following(c, chunks, CRLF));
    ConcatTwo(first, second);
  }

  lemma LastChunk()
    ensures var chunks := [Chunk("0", "", "")]; Complete(chunks) && |Body(chunks, CRLF)| == 5
  {
    var last := Chunk("0", "", "");
    assert Value("0") == 0 by { assert "0"[..0] == ""; }
    assert [last][1..] == [] && Following(last, [], CRLF) == CRLF;
  }
}
