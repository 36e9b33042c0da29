/** The framing of one annotated frame as a part of the
    `multipart/x-mixed-replace; boundary=frame` video response: the
    boundary delimiter line, one Content-Type header, a blank line, the
    JPEG bytes and a line terminator (the multipart body syntax of
    section 5.1.1 of RFC 2046). */
module Multipart {
  import opened Types

  /** The boundary parameter of the response's media type. */
  const Boundary: string := "frame"

  const MediaType: string := "multipart/x-mixed-replace; boundary=frame"

  /** A string of 7-bit characters. */
  predicate IsAscii(s: string)
  {
    forall i :: 0 <= i < |s| ==> s[i] as int < 128
  }

  /** The bytes of an ASCII string: one byte per character, each a 7-bit
      code equal to the character's. */
  function Ascii(s: string): (r: seq<byte>)
    requires IsAscii(s)
    ensures |r| == |s|
    ensures forall i :: 0 <= i < |r| ==> r[i] < 128 && r[i] as int == s[i] as int
  {
    seq(|s|, i requires 0 <= i < |s| => s[i] as int as byte)
  }

  /** The header block of every part, after its dash-boundary. */
  const HeaderBlock: string := "\r\nContent-Type: image/jpeg\r\n\r\n"

  /** Everything a part carries before the image:
      "--frame\r\nContent-Type: image/jpeg\r\n\r\n". */
  const PartHead: seq<byte> := Ascii("--frame" + HeaderBlock)

  /** The line terminator after the image. */
  const PartTail: seq<byte> := Ascii("\r\n")

  /** The chunk the stream emits for one encoded frame. */
  function Chunk(jpeg: seq<byte>): (r: seq<byte>)
    ensures |r| == |PartHead| + |jpeg| + |PartTail|
    ensures r[..|PartHead|] == PartHead
    ensures r[|PartHead|..|PartHead| + |jpeg|] == jpeg
    ensures r[|r| - |PartTail|..] == PartTail
  {
    PartHead + jpeg + PartTail
  }

  /** Recovers the image from a chunk, or None when `c` is not framed as a
      chunk. */
  function Unframe(c: seq<byte>): (r: Option<seq<byte>>)
    ensures r.Some? ==> |r.value| == |c| - |PartHead| - |PartTail|
  {
    if |c| >= |PartHead| + |PartTail|
       && c[..|PartHead|] == PartHead
       && c[|c| - |PartTail|..] == PartTail
    then Some(c[|PartHead|..|c| - |PartTail|])
    else None
  }

  /** Stripping the fixed head and tail recovers the image exactly. */
  lemma UnframeChunk(jpeg: seq<byte>)
    ensures Unframe(Chunk(jpeg)) == Some(jpeg)
  {
    var c := Chunk(jpeg);
    assert c[|PartHead|..|c| - |PartTail|] == jpeg;
  }

  /** Conversely, whatever `Unframe` accepts is exactly the chunk of the
      image it returns. */
  lemma ChunkUnframe(c: seq<byte>)
    requires Unframe(c).Some?
    ensures Chunk(Unframe(c).value) == c
  {
    var j := Unframe(c).value;
    assert c == c[..|PartHead|] + c[|PartHead|..|c| - |PartTail|] + c[|c| - |PartTail|..];
  }

  /** The head is the dash-boundary of the declared media type, a CRLF, the
      one header field, and the CRLF that ends the header block; every
      chunk ends in CRLF, so the next chunk's dash-boundary is preceded by
      a CRLF and the two form the delimiter "CRLF--frame". */
  lemma HeadIsBoundaryThenHeader()
    ensures MediaType == "multipart/x-mixed-replace; boundary=" + Boundary
    ensures PartHead == Ascii("--" + Boundary) + Ascii("\r\n")
                        + Ascii("Content-Type: image/jpeg") + Ascii("\r\n") + Ascii("\r\n")
  {
    var dash, crlf, field := "--frame", "\r\n", "Content-Type: image/jpeg";
    assert dash == "--" + Boundary;
    assert dash + HeaderBlock == dash + crlf + field + crlf + crlf;
    PiecesAreAscii();
    AsciiAppendFive(dash, crlf, field, crlf, crlf);
  }

  /** Encoding distributes over a concatenation of five pieces. */
  lemma AsciiAppendFive(a: string, b: string, c: string, d: string, e: string)
    requires IsAscii(a) && IsAscii(b) && IsAscii(c) && IsAscii(d) && IsAscii(e)
    ensures IsAscii(a + b + c + d + e)
    ensures Ascii(a + b + c + d + e) == Ascii(a) + Ascii(b) + Ascii(c) + Ascii(d) + Ascii(e)
  {
    AsciiAppend(a, b);
    AsciiAppend(a + b, c);
    AsciiAppend(a + b + c, d);
    AsciiAppend(a + b + c + d, e);
  }

  lemma AsciiAppend(s: string, t: string)
    requires IsAscii(s) && IsAscii(t)
    ensures IsAscii(s + t) && Ascii(s + t) == Ascii(s) + Ascii(t)
  {
  }

  /** The pieces the head is made of are 7-bit text. */
  lemma PiecesAreAscii()
    ensures IsAscii("--frame") && IsAscii("\r\n") && IsAscii("Content-Type: image/jpeg")
    ensures IsAscii(HeaderBlock)
  {
  }

  /** The head opens with the dash-boundary "--frame". */
  lemma HeadOpensWithDashBoundary()
    ensures |PartHead| >= 7 && PartHead[..7] == Ascii("--" + Boundary)
  {
    assert "--frame" == "--" + Boundary;
    PiecesAreAscii();
    AsciiAppend("--frame", HeaderBlock);
  }

  /** The bytes where two chunks meet: the previous chunk's terminator
      and the next chunk's dash-boundary. */
  lemma DelimiterBytes()
    ensures PartTail + PartHead[..7] == Ascii("\r\n--" + Boundary)
  {
    HeadOpensWithDashBoundary();
    PiecesAreAscii();
    AsciiAppend("\r\n", "--" + Boundary);
  }

  /** Two consecutive chunks meet at the delimiter CRLF "--frame". */
  lemma ChunksMeetAtDelimiter(a: seq<byte>, b: seq<byte>)
    ensures var s := Chunk(a) + Chunk(b);
            var n := |Chunk(a)|;
            s[n - 2..n + 7] == Ascii("\r\n--" + Boundary)
  {
    var ca, cb := Chunk(a), Chunk(b);
    var n := |ca|;
    DelimiterBytes();
    assert ca[n - 2..] == PartTail;
    assert cb[..7] == PartHead[..7];
    assert (ca + cb)[n - 2..n + 7] == ca[n - 2..] + cb[..7];
  }
}
