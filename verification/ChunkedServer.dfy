/**
  The server miniupnpc tests its HTTP client with (external/miniupnpc/minihttptestserver.c): the lines of text it
  serves, and how it cuts them into chunks of random size.
 */
module ChunkedServer {
  import opened Decimals
  import opened Sequences
  import opened ChunkedReader
  import opened ChunkedBody

  // -------------------------------------------------------------------- the text

  const LINE_LENGTH := 64

  /** %04d. */
  function Padded(n: nat): (r: string)
    ensures |r| >= 4
  {
    var d := Decimal(n);
    if |d| >= 4 then d else seq(4 - |d|, i => '0') + d
  }

  const MIDDLE := "_ABCDEFGHIJKL_This_line_is_64_bytes_long_ABCDEFGHIJKL_"

  function FullLine(i: nat): (r: string)
    ensures |r| >= LINE_LENGTH
  {
    assert |MIDDLE| == 54;
    Padded(i) + MIDDLE + Padded(i) + CRLF
  }

  /** What is served of line i. */
  function TextLine(i: nat): (r: string)
    ensures |r| == LINE_LENGTH
  {
    FullLine(i)[..LINE_LENGTH]
  }

  lemma {:induction false} DecimalLength(n: nat)
    ensures n < 10 <==> |Decimal(n)| == 1
    ensures n < 100 <==> |Decimal(n)| <= 2
    ensures n < 1000 <==> |Decimal(n)| <= 3
    ensures n < 10000 <==> |Decimal(n)| <= 4
  {
    if n >= 10 {
      DecimalLength(n / 10);
    }
  }

  /** The lines are as long as they say, and end with a line break, up to number 9999. */
  lemma LineIsWhole(i: nat)
    ensures TextLine(i) == FullLine(i) <==> i < 10000
  {
    hide MIDDLE;
    DecimalLength(i);
    LengthOfLine(i);
  }

  /** Both numbers of a line are its own. */
  lemma NumbersOfLine(i: nat)
    requires i < 10000
    ensures var line := TextLine(i);
      && AllDigits(line[..4]) && Val(line[..4]) == i
      && AllDigits(line[58..62]) && Val(line[58..62]) == i
      && line[4..58] == "_ABCDEFGHIJKL_This_line_is_64_bytes_long_ABCDEFGHIJKL_" && line[62..] == "\r\n"
  {
    hide Padded, Val;
    LineIsWhole(i);
    PaddedIs(i);
    var line, n := TextLine(i), Padded(i);
    assert |MIDDLE| == 54;
    assert line == n + MIDDLE + n + CRLF;
    assert line[..4] == n && line[58..62] == n && line[4..58] == MIDDLE && line[62..] == CRLF;
  }

  lemma PaddedIs(i: nat)
    ensures AllDigits(Padded(i)) && Val(Padded(i)) == i && (i < 10000 ==> |Padded(i)| == 4)
  {
    hide Val, Decimal;
    DecimalLength(i);
    DecimalIs(i);
    if |Decimal(i)| < 4 {
      ZerosInFront(4 - |Decimal(i)|, Decimal(i));
    }
  }

  lemma LengthOfLine(i: nat)
    ensures |FullLine(i)| == 2 * |Padded(i)| + 56
  {
    assert |MIDDLE| == 54;
    hide MIDDLE;
  }

  /** The text at a position. */
  function TextAt(j: nat): char {
    TextLine(j / LINE_LENGTH)[j % LINE_LENGTH]
  }

  function Text(n: nat): (r: string)
    ensures |r| == n
  {
    seq(n, j requires 0 <= j => TextAt(j))
  }

  /** A shorter text is the beginning of a longer one. */
  lemma TextIsPrefix(n: nat, m: nat)
    requires n <= m
    ensures Text(n) <= Text(m)
  {
    assert forall j :: 0 <= j < n ==> Text(n)[j] == Text(m)[j];
  }

  /** build_content. */
  method BuildContent(length: int) returns (p: string)
    ensures p == Text(if length < 0 then 0 else length)
  {
    p := "";
    var n, i := length, 0;
    while n > 0
      invariant length >= 0 ==> n >= 0 && |p| + n == length
      invariant length < 0 ==> p == ""
      invariant n > 0 ==> |p| == LINE_LENGTH * i
      invariant p == Text(|p|)
    {
      var line := TextLine(i);
      var k := if n >= LINE_LENGTH then LINE_LENGTH else n;
      LineContinues(p, i, k);
      p := p + line[..k];
      n := n - k;
      i := i + 1;
    }
  }

  lemma LineContinues(p: string, i: nat, k: nat)
    requires p == Text(|p|) && |p| == LINE_LENGTH * i && k <= LINE_LENGTH
    ensures p + TextLine(i)[..k] == Text(|p| + k)
  {
    hide TextLine;
    forall j | |p| <= j < |p| + k ensures TextAt(j) == TextLine(i)[j - |p|] {
      assert j / LINE_LENGTH == i && j % LINE_LENGTH == j - |p|;
    }
    hide TextAt;
    var more := p + TextLine(i)[..k];
    assert forall j :: 0 <= j < |more| ==> more[j] == Text(|p| + k)[j];
  }

  // -------------------------------------------------------------------- the chunks

  function HexChar(d: nat): (c: char)
    requires d < 16
    ensures IsHex(c) && Digit(c) == d
  {
    if d < 10 then ('0' as nat + d) as char else ('a' as nat + d - 10) as char
  }

  /** %x. */
  function Hex(n: nat): (r: string)
    ensures AllHex(r) && r != ""
  {
    if n < 16 then [HexChar(n)] else Hex(n / 16) + [HexChar(n % 16)]
  }

  lemma {:induction false} HexIsValue(n: nat)
    ensures Value(Hex(n)) == n
    ensures n < 256 ==> |Hex(n)| <= 2
  {
    var d := Hex(n);
    if n >= 16 {
      HexIsValue(n / 16);
      assert d[..|d| - 1] == Hex(n / 16);
    } else {
      assert d[..|d| - 1] == "";
    }
  }

  /** The size of the next chunk, from a random number. */
  function NextSize(draw: nat, left: nat): (n: nat)
    ensures n <= left && n < 200 && (left > 0 ==> n > 0)
  {
    var n := draw % 199 + 1;
    if n > left then left else n
  }

  function Chunks(content: string, draws: seq<nat>): seq<Chunk>
    requires |draws| >= |content|
    decreases |content|
  {
    if content == "" then [Chunk("0", "", "")]
    else
      var n := NextSize(draws[0], |content|);
      [Chunk(Hex(n), "", content[..n])] + Chunks(content[n..], draws[1..])
  }

  /** A chunk without an extension is well formed. */
  lemma BareChunk(c: Chunk)
    requires c.ext == "" && c.digits != "" && |c.digits| <= 2 && AllHex(c.digits) && Value(c.digits) == |c.data| < 200
    ensures WellFormed(c)
  {
    hide Value;
  }

  lemma {:induction false} ChunksAreComplete(content: string, draws: seq<nat>)
    requires |draws| >= |content|
    ensures Complete(Chunks(content, draws)) && Content(Chunks(content, draws)) == content
    decreases |content|
  {
    hide Value, WellFormed, AllHex, Hex;
    var chunks := Chunks(content, draws);
    if content == "" {
      ZeroIs();
      BareChunk(chunks[0]);
    } else {
      var n := NextSize(draws[0], |content|);
      ChunksAreComplete(content[n..], draws[1..]);
      HexIsValue(n);
      BareChunk(chunks[0]);
      assert chunks[1..] == Chunks(content[n..], draws[1..]);
      assert content == content[..n] + content[n..];
    }
  }

  lemma ZeroIs()
    ensures Value("0") == 0 && AllHex("0")
  {
    assert "0"[..0] == "";
  }

  const HEADER := "HTTP/1.1 200 OK\r\nContent-Type: text/plain\r\nTransfer-Encoding: chunked\r\n\r\n"

  function ChunkedText(content: string, draws: seq<nat>): string
    requires |draws| >= |content|
  {
    Body(Chunks(content, draws), CRLF)
  }

  lemma ChunkFirst(content: string, draws: seq<nat>, n: nat)
    requires |draws| >= |content| > 0 && n == NextSize(draws[0], |content|)
    ensures ChunkedText(content, draws) ==
            Hex(n) + CRLF + content[..n] + CRLF + ChunkedText(content[n..], draws[1..])
  {
    hide Hex, NextSize;
    var chunks := Chunks(content, draws);
    assert chunks[1..] == Chunks(content[n..], draws[1..]);
    assert chunks[0] == Chunk(Hex(n), "", content[..n]) && content[..n] != "";
    assert Following(chunks[0], chunks[1..], CRLF) == content[..n] + (CRLF + Body(chunks[1..], CRLF));
    assert ChunkedText(content, draws) ==
           Hex(n) + "" + (CRLF + (content[..n] + (CRLF + ChunkedText(content[n..], draws[1..]))));
    SpreadOut(Hex(n), content[..n], ChunkedText(content[n..], draws[1..]));
  }

  lemma SpreadOut(size: string, data: string, more: string)
    ensures size + "" + (CRLF + (data + (CRLF + more))) == size + CRLF + data + CRLF + more
  {
  }

  lemma ChunkLast(draws: seq<nat>)
    ensures ChunkedText("", draws) == "0\r\n\r\n"
  {
    var c := Chunk("0", "", "");
    var chunks := Chunks("", draws);
    assert chunks == [c] && chunks[1..] == [];
    assert Following(c, chunks[1..], CRLF) == CRLF;
    assert Body(chunks, CRLF) == "0" + "" + (CRLF + Following(c, chunks[1..], CRLF));
    assert ChunkedText("", draws) == "0" + "" + (CRLF + CRLF);
  }

  /** One turn of the loop that writes the chunks. */
  lemma ChunkWritten(response: string, content: string, draws: seq<nat>, i: nat, draw: nat, n: nat)
    requires i < |content| && draw <= i && |draws| >= |content| && n == NextSize(draws[draw], |content| - i)
    ensures response + ChunkedText(content[i..], draws[draw..]) ==
            response + Hex(n) + CRLF + content[i..i + n] + CRLF + ChunkedText(content[i + n..], draws[draw + 1..])
  {
    hide Hex, NextSize, ChunkedText;
    assert n <= |content| - i;
    ChunkFirst(content[i..], draws[draw..], n);
    assert content[i..][..n] == content[i..i + n] && content[i..][n..] == content[i + n..];
    assert draws[draw..][1..] == draws[draw + 1..];
    Prepend(response, Hex(n), content[i..i + n], ChunkedText(content[i + n..], draws[draw + 1..]));
  }

  lemma Prepend(response: string, size: string, data: string, more: string)
    ensures response + (size + CRLF + data + CRLF + more) == response + size + CRLF + data + CRLF + more
  {
  }

  // -------------------------------------------------------------------- the buffer

  function Response(contentLength: nat, draws: seq<nat>): string
    requires |draws| >= contentLength
  {
    HEADER + ChunkedText(Text(contentLength), draws)
  }

  /** The size of the buffer that is allocated. */
  function BufferLength(contentLength: nat): nat {
    256 + contentLength + contentLength / 16
  }

  /** What the chunks add to their data: a size and two line breaks each. */
  function Overhead(left: nat, draws: seq<nat>): nat
    requires |draws| >= left
    decreases left
  {
    if left == 0 then 0
    else
      var n := NextSize(draws[0], left);
      |Hex(n)| + 4 + Overhead(left - n, draws[1..])
  }

  lemma {:induction false} ChunkedLength(content: string, draws: seq<nat>)
    requires |draws| >= |content|
    ensures |ChunkedText(content, draws)| == |content| + Overhead(|content|, draws) + 5
    decreases |content|
  {
    hide ChunkedText, Hex, NextSize;
    if content == "" {
      ChunkLast(draws);
    } else {
      var n := NextSize(draws[0], |content|);
      ChunkFirst(content, draws, n);
      ChunkedLength(content[n..], draws[1..]);
    }
  }

  /** The length of the response, and when it fits the buffer. */
  lemma ResponseLength(contentLength: nat, draws: seq<nat>)
    requires |draws| >= contentLength
    ensures |Response(contentLength, draws)| == 73 + contentLength + Overhead(contentLength, draws) + 5
    ensures |Response(contentLength, draws)| <= BufferLength(contentLength) <==>
            Overhead(contentLength, draws) <= 178 + contentLength / 16
  {
    hide HEADER, Text, ChunkedText;
    HeaderLength();
    ChunkedLength(Text(contentLength), draws);
  }

  lemma {:induction false} SmallestChunks(left: nat, draws: seq<nat>)
    requires |draws| >= left && forall i :: 0 <= i < |draws| ==> draws[i] % 199 == 0
    ensures Overhead(left, draws) == 5 * left
    decreases left
  {
    if left > 0 {
      assert NextSize(draws[0], left) == 1 && |Hex(1)| == 1;
      SmallestChunks(left - 1, draws[1..]);
    }
  }

  /** With chunks of one byte the response fits the buffer up to 36 bytes of content, and never beyond. */
  lemma SmallestChunksOverrun(contentLength: nat, draws: seq<nat>)
    requires |draws| >= contentLength && forall i :: 0 <= i < |draws| ==> draws[i] % 199 == 0
    ensures |Response(contentLength, draws)| <= BufferLength(contentLength) <==> contentLength <= 36
  {
    hide Response, BufferLength, Overhead;
    ResponseLength(contentLength, draws);
    SmallestChunks(contentLength, draws);
  }

  /** The text stands at the front of the buffer. */
  ghost predicate Holds(buf: array<char>, len: nat, text: string)
    reads buf
  {
    len == |text| <= buf.Length && buf[..len] == text
  }

  /** memcpy or a store into the buffer; false where it would write behind its end. */
  method Put(s: string, buf: array<char>, at: nat, ghost text: string) returns (inside: bool)
    requires |text| == at && (at + |s| <= buf.Length ==> Holds(buf, at, text))
    modifies buf
    ensures inside <==> at + |s| <= buf.Length
    ensures inside ==> Holds(buf, at + |s|, text + s)
  {
    inside := at + |s| <= buf.Length;
    if inside {
      for k := 0 to |s|
        invariant buf[..at + k] == text + s[..k]
      {
        buf[at + k] := s[k];
        assert s[..k + 1] == s[..k] + [s[k]];
      }
      assert s[..|s|] == s;
    }
  }

  /** snprintf into the rest of the buffer: as much as fits in front of its NUL, and how long the text is. */
  method PrintInto(s: string, buf: array<char>, at: nat, ghost text: string) returns (printed: nat)
    requires Holds(buf, at, text)
    modifies buf
    ensures printed == |s|
    ensures at + |s| < buf.Length ==> Holds(buf, at + |s|, text + s)
  {
    printed := |s|;
    if at < buf.Length {
      var k := if at + |s| < buf.Length then |s| else buf.Length - at - 1;
      var inside := Put(s[..k], buf, at, text);
      buf[at + k] := '\0';
      assert at + |s| < buf.Length ==> s[..k] == s;
      assert buf[..at + k] == text + s[..k];
    }
  }

  /** One chunk; false where it would write behind the end of the buffer. */
  method PutChunk(data: string, buf: array<char>, len0: nat, ghost text: string) returns (len: nat, inside: bool)
    requires Holds(buf, len0, text) && |text| == len0 && data != ""
    modifies buf
    ensures len == len0 + |Hex(|data|) + CRLF + data + CRLF|
    ensures inside <==> len <= buf.Length
    ensures inside ==> Holds(buf, len, text + Hex(|data|) + CRLF + data + CRLF)
  {
    hide Hex;
    var size := Hex(|data|) + CRLF;
    var printed := PrintInto(size, buf, len0, text);
    len := len0 + printed;
    assert text + Hex(|data|) + CRLF == text + size;
    inside := Put(data, buf, len, text + size);
    if inside {
      inside := Put(CRLF, buf, len + |data|, text + size + data);
    }
    len := len + |data| + 2;
  }

  /**
    build_chunked_response; the random numbers are given. The source does not look at the size of its buffer, so
    `inside` tells whether all its writes stay within it: they do exactly when the response fits.
   */
  method BuildChunkedResponse(contentLength: nat, draws: seq<nat>) returns (buf: array<char>, len: nat, inside: bool)
    requires |draws| >= contentLength
    ensures buf.Length == BufferLength(contentLength)
    ensures inside <==> |Response(contentLength, draws)| <= BufferLength(contentLength)
    ensures inside ==> len <= buf.Length && buf[..len] == Response(contentLength, draws)
  {
    hide Text, HEADER, ChunkedText, Hex, Holds, Response, Pending;
    HeaderLength();
    buf := new char[BufferLength(contentLength)];
    Empty(buf);
    len := PrintInto(HEADER, buf, 0, "");
    assert "" + HEADER == HEADER;
    var content := BuildContent(contentLength);
    ghost var whole := Response(contentLength, draws);
    ResponseStarts(contentLength, draws);
    len, inside := PutChunks(content, draws, buf, len, HEADER, whole);
    if inside {
      ghost var text := whole[..len];
      inside := Put("0\r\n\r\n", buf, len, text);
      len := len + 5;
      Held(buf, len, whole);
    }
  }

  lemma HeaderLength()
    ensures |HEADER| == 73
  {
  }

  /** The loop over the content. */
  method PutChunks(content: string, draws: seq<nat>, buf: array<char>, len0: nat, ghost text0: string,
                   ghost whole: string)
    returns (len: nat, inside: bool)
    requires |draws| >= |content| && Holds(buf, len0, text0) && |text0| == len0
    requires Pending(text0, content, draws, 0, 0, whole)
    modifies buf
    ensures inside ==> |whole| == len + 5 && whole == whole[..len] + "0\r\n\r\n" && Holds(buf, len, whole[..len])
    ensures !inside ==> |whole| > buf.Length
  {
    hide ChunkedText, Hex, Holds, Pending;
    len, inside := len0, true;
    ghost var text := text0;
    var i, draw := 0, 0;
    while i < |content|
      invariant i <= |content| && draw <= i && Holds(buf, len, text) && |text| == len
      invariant Pending(text, content, draws, i, draw, whole)
    {
      var n := draws[draw] % 199 + 1;
      if i + n > |content| {
        n := |content| - i;
      }
      ChunkPending(text, content, draws, i, draw, n, whole);
      len, inside := PutChunk(content[i..i + n], buf, len, text);
      text := text + Hex(n) + CRLF + content[i..i + n] + CRLF;
      if !inside {
        return;
      }
      i := i + n;
      draw := draw + 1;
    }
    LastPending(text, content, draws, i, draw, whole);
    inside := true;
  }

  /** What is still to be written, behind the text so far. */
  ghost predicate Pending(text: string, content: string, draws: seq<nat>, i: nat, draw: nat, whole: string)
    requires i <= |content| <= |draws| && draw <= i
  {
    text + ChunkedText(content[i..], draws[draw..]) == whole
  }

  lemma ChunkPending(text: string, content: string, draws: seq<nat>, i: nat, draw: nat, n: nat, whole: string)
    requires i < |content| <= |draws| && draw <= i && Pending(text, content, draws, i, draw, whole)
    requires n == if i + (draws[draw] % 199 + 1) > |content| then |content| - i else draws[draw] % 199 + 1
    ensures 0 < n <= |content| - i
    ensures var text' := text + Hex(n) + CRLF + content[i..i + n] + CRLF;
      |text'| <= |whole| && Pending(text', content, draws, i + n, draw + 1, whole)
  {
    hide ChunkedText, Hex;
    ChunkWritten(text, content, draws, i, draw, n);
  }

  lemma LastPending(text: string, content: string, draws: seq<nat>, i: nat, draw: nat, whole: string)
    requires i == |content| <= |draws| && draw <= i && Pending(text, content, draws, i, draw, whole)
    ensures text + "0\r\n\r\n" == whole && whole[..|text|] == text
  {
    hide ChunkedText;
    ChunkLast(draws[draw..]);
    assert content[i..] == "";
  }

  lemma Empty(buf: array<char>)
    ensures Holds(buf, 0, "")
  {
  }

  lemma Held(buf: array<char>, len: nat, text: string)
    ensures Holds(buf, len, text) ==> len <= buf.Length && buf[..len] == text
  {
  }

  lemma ResponseStarts(contentLength: nat, draws: seq<nat>)
    requires |draws| >= contentLength
    ensures Pending(HEADER, Text(contentLength), draws, 0, 0, Response(contentLength, draws))
  {
    hide HEADER, ChunkedText;
    assert draws[0..] == draws && Text(contentLength)[0..] == Text(contentLength);
  }

  // -------------------------------------------------------------------- from the server to the client

  /** A chunked text is reassembled, however it arrives. */
  lemma ChunkedTextIsReassembled(content: string, draws: seq<nat>, pieces: seq<string>)
    requires |draws| >= |content| && Concat(pieces) == ChunkedText(content, draws)
    ensures ConsumeAll(START, pieces).ended && ConsumeAll(START, pieces).content == content
  {
    hide Complete, Body, Content, ConsumeAll, Chunks;
    ChunksAreComplete(content, draws);
    AnyCutIsReassembled(Chunks(content, draws), CRLF, pieces);
  }

  /** What the client gets from the server: the text, for all sizes of the chunks that fit and however they arrive. */
  lemma ClientGetsTheText(contentLength: nat, draws: seq<nat>, sent: string, pieces: seq<string>)
    requires |draws| >= contentLength && Overhead(contentLength, draws) <= 178 + contentLength / 16
    requires sent == Response(contentLength, draws) && HEADER + Concat(pieces) == sent
    ensures |sent| <= BufferLength(contentLength)
    ensures ConsumeAll(START, pieces).ended && ConsumeAll(START, pieces).content == Text(contentLength)
  {
    ResponseLength(contentLength, draws);
    hide Text, HEADER, ConsumeAll, ChunkedText, Overhead, BufferLength;
    assert Concat(pieces) == sent[|HEADER|..] == ChunkedText(Text(contentLength), draws);
    ChunkedTextIsReassembled(Text(contentLength), draws, pieces);
  }
}
