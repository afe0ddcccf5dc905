/** The chunked coding of section 7.1 of RFC 9112, as a tree and as the bytes it stands for.
    Extensions and trailer fields are only required to keep to their line. */
module ChunkedGrammar {

  type Byte = b: int | 0 <= b < 256

  const TAB: Byte := 9
  const LF: Byte := 10
  const CR: Byte := 13
  const SPACE: Byte := 32
  const SEMICOLON: Byte := 59
  const CRLF: seq<Byte> := [CR, LF]

  predicate IsHex(b: Byte) { 48 <= b <= 57 || 65 <= b <= 70 || 97 <= b <= 102 }

  function HexValue(b: Byte): nat
    requires IsHex(b)
  {
    if b <= 57 then b - 48 else if b <= 70 then b - 55 else b - 87
  }

  predicate AllHex(digits: seq<Byte>) { forall d :: d in digits ==> IsHex(d) }

  function HexNumber(digits: seq<Byte>): nat
    requires AllHex(digits)
  {
    if digits == [] then 0 else 16 * HexNumber(digits[..|digits| - 1]) + HexValue(digits[|digits| - 1])
  }

  /** The size of a chunk, and the rest of its line, which is nothing or `;` after blanks. */
  datatype SizeLine = SizeLine(digits: seq<Byte>, extension: Extension)

  datatype Extension = NoExtension | Extension(blanks: seq<Byte>, text: seq<Byte>)

  datatype Chunk = Chunk(line: SizeLine, data: seq<Byte>)

  datatype Body = Body(chunks: seq<Chunk>, last: SizeLine, trailers: seq<seq<Byte>>)

  ghost predicate IsSizeLine(l: SizeLine) {
    && l.digits != [] && AllHex(l.digits)
    && (l.extension.Extension? ==>
      (forall b :: b in l.extension.blanks ==> b == SPACE || b == TAB) && LF !in l.extension.text)
  }

  /** `*chunk last-chunk trailer-section CRLF`: every data chunk announces its own non-zero
      length, the last one announces zero, and a trailer field fills a line. */
  ghost predicate Grammatical(body: Body) {
    AreChunks(body.chunks) && IsSizeLine(body.last) && HexNumber(body.last.digits) == 0 && AreTrailers(body.trailers)
  }

  ghost predicate AreChunks(chunks: seq<Chunk>) { forall c :: c in chunks ==> IsChunk(c) }

  ghost predicate AreTrailers(trailers: seq<seq<Byte>>) { forall t :: t in trailers ==> IsTrailer(t) }

  ghost predicate IsChunk(c: Chunk) { IsSizeLine(c.line) && HexNumber(c.line.digits) == |c.data| && |c.data| > 0 }

  predicate IsTrailer(t: seq<Byte>) { t != [] && LF !in t }

  function ExtensionText(e: Extension): seq<Byte> {
    if e.NoExtension? then [] else e.blanks + [SEMICOLON] + e.text
  }

  function LineText(l: SizeLine): seq<Byte> { l.digits + ExtensionText(l.extension) + CRLF }

  function ChunkText(c: Chunk): seq<Byte> { LineText(c.line) + (c.data + CRLF) }

  function ChunksText(chunks: seq<Chunk>): seq<Byte> {
    if chunks == [] then [] else ChunkText(chunks[0]) + ChunksText(chunks[1..])
  }

  function TrailersText(trailers: seq<seq<Byte>>): seq<Byte> {
    if trailers == [] then CRLF else (trailers[0] + CRLF) + TrailersText(trailers[1..])
  }

  /** The bytes of a body, up to and including the empty line that ends it. */
  function Text(body: Body): seq<Byte> { ChunksText(body.chunks) + (LineText(body.last) + TrailersText(body.trailers)) }

  function TotalData(chunks: seq<Chunk>): nat {
    if chunks == [] then 0 else |chunks[0].data| + TotalData(chunks[1..])
  }

  // -- where a text stands -----------------------------------------------------------------------

  /** What stands in the stream at `at`. */
  predicate At(bytes: seq<Byte>, at: nat, text: seq<Byte>) {
    at + |text| <= |bytes| && bytes[at..at + |text|] == text
  }

  lemma AtSplits(bytes: seq<Byte>, at: nat, first: seq<Byte>, second: seq<Byte>)
    requires At(bytes, at, first + second)
    ensures At(bytes, at, first) && At(bytes, at + |first|, second)
  {
    var whole := first + second;
    assert bytes[at..at + |first|] == whole[..|first|];
    assert bytes[at + |first|..at + |whole|] == whole[|first|..];
  }

  lemma FirstChunk(bytes: seq<Byte>, at: nat, chunks: seq<Chunk>)
    requires chunks != [] && AreChunks(chunks) && At(bytes, at, ChunksText(chunks))
    ensures IsChunk(chunks[0]) && AreChunks(chunks[1..])
    ensures At(bytes, at, ChunkText(chunks[0])) && At(bytes, at + |ChunkText(chunks[0])|, ChunksText(chunks[1..]))
  {
    AtSplits(bytes, at, ChunkText(chunks[0]), ChunksText(chunks[1..]));
  }

  lemma FirstTrailer(bytes: seq<Byte>, at: nat, trailers: seq<seq<Byte>>)
    requires trailers != [] && AreTrailers(trailers) && At(bytes, at, TrailersText(trailers))
    ensures IsTrailer(trailers[0]) && AreTrailers(trailers[1..])
    ensures At(bytes, at, trailers[0] + CRLF) && At(bytes, at + |trailers[0] + CRLF|, TrailersText(trailers[1..]))
  {
    AtSplits(bytes, at, trailers[0] + CRLF, TrailersText(trailers[1..]));
  }

  // -- a stream has one reading ------------------------------------------------------------------

  lemma LineEndsOnce(bytes: seq<Byte>, at: nat, x: seq<Byte>, y: seq<Byte>)
    requires LF !in y && At(bytes, at, x + CRLF) && At(bytes, at, y + CRLF)
    ensures |y| <= |x|
  {
    assert (x + CRLF)[|x| + 1] == bytes[at + |x| + 1] == LF;
    assert forall k :: 0 <= k <= |y| ==> (y + CRLF)[k] == bytes[at + k] != LF;
  }

  /** Two lines that start at one place are one line. */
  lemma OneLine(bytes: seq<Byte>, at: nat, x: seq<Byte>, y: seq<Byte>)
    requires LF !in x && LF !in y && At(bytes, at, x + CRLF) && At(bytes, at, y + CRLF)
    ensures x == y
  {
    LineEndsOnce(bytes, at, x, y);
    LineEndsOnce(bytes, at, y, x);
    AtSplits(bytes, at, x, CRLF);
    AtSplits(bytes, at, y, CRLF);
  }

  lemma DigitsEndOnce(l: SizeLine, m: SizeLine)
    requires IsSizeLine(l) && IsSizeLine(m) && l.digits + ExtensionText(l.extension) == m.digits + ExtensionText(m.extension)
    ensures |m.digits| <= |l.digits|
  {
    var line := m.digits + ExtensionText(m.extension);
    assert forall k :: 0 <= k < |m.digits| ==> line[k] == m.digits[k] && IsHex(line[k]);
    if l.extension.Extension? {
      assert line[|l.digits|] == ExtensionText(l.extension)[0];
      assert l.extension.blanks != [] ==> l.extension.blanks[0] in l.extension.blanks;
      assert !IsHex(ExtensionText(l.extension)[0]);
    }
  }

  lemma BlanksEndOnce(e: Extension, f: Extension)
    requires e.Extension? && f.Extension? && SEMICOLON !in f.blanks && ExtensionText(e) == ExtensionText(f)
    ensures |f.blanks| <= |e.blanks|
  {
    assert ExtensionText(e)[|e.blanks|] == SEMICOLON;
    assert forall k :: 0 <= k < |f.blanks| ==> ExtensionText(f)[k] == f.blanks[k];
  }

  lemma OneExtension(e: Extension, f: Extension)
    requires ExtensionText(e) == ExtensionText(f)
    requires e.Extension? ==> SEMICOLON !in e.blanks
    requires f.Extension? ==> SEMICOLON !in f.blanks
    ensures e == f
  {
    if e.Extension? && f.Extension? {
      BlanksEndOnce(e, f);
      BlanksEndOnce(f, e);
      assert ExtensionText(e)[..|e.blanks|] == e.blanks && ExtensionText(f)[..|e.blanks|] == f.blanks;
      assert ExtensionText(e)[|e.blanks| + 1..] == e.text && ExtensionText(f)[|e.blanks| + 1..] == f.text;
    }
  }

  lemma OneSizeLine(bytes: seq<Byte>, at: nat, l: SizeLine, m: SizeLine)
    requires IsSizeLine(l) && IsSizeLine(m) && At(bytes, at, LineText(l)) && At(bytes, at, LineText(m))
    ensures l == m
  {
    OneLine(bytes, at, l.digits + ExtensionText(l.extension), m.digits + ExtensionText(m.extension));
    DigitsEndOnce(l, m);
    DigitsEndOnce(m, l);
    var line := l.digits + ExtensionText(l.extension);
    assert line[..|l.digits|] == l.digits && line[..|l.digits|] == m.digits;
    assert line[|l.digits|..] == ExtensionText(l.extension) && line[|l.digits|..] == ExtensionText(m.extension);
    OneExtension(l.extension, m.extension);
  }

  /** The first line of a trailer section: a field, or the empty one that ends it. */
  function FirstField(trailers: seq<seq<Byte>>): seq<Byte> { if trailers == [] then [] else trailers[0] }

  lemma FirstFieldStands(bytes: seq<Byte>, at: nat, trailers: seq<seq<Byte>>)
    requires AreTrailers(trailers) && At(bytes, at, TrailersText(trailers))
    ensures LF !in FirstField(trailers) && At(bytes, at, FirstField(trailers) + CRLF)
    ensures FirstField(trailers) == [] <==> trailers == []
  {
    if trailers == [] {
      assert [] + CRLF == CRLF;
    } else {
      FirstTrailer(bytes, at, trailers);
    }
  }

  lemma {:induction false} OneTrailerSection(bytes: seq<Byte>, at: nat, some: seq<seq<Byte>>, others: seq<seq<Byte>>)
    requires AreTrailers(some) && AreTrailers(others)
    requires At(bytes, at, TrailersText(some)) && At(bytes, at, TrailersText(others))
    ensures some == others
    decreases |some|
  {
    FirstFieldStands(bytes, at, some);
    FirstFieldStands(bytes, at, others);
    OneLine(bytes, at, FirstField(some), FirstField(others));
    if some != [] {
      FirstTrailer(bytes, at, some);
      FirstTrailer(bytes, at, others);
      OneTrailerSection(bytes, at + |some[0] + CRLF|, some[1..], others[1..]);
      assert some == [some[0]] + some[1..] && others == [others[0]] + others[1..];
    }
  }

  function FirstLine(body: Body): SizeLine { if body.chunks == [] then body.last else body.chunks[0].line }

  function AfterFirst(body: Body): Body
    requires body.chunks != []
  {
    body.(chunks := body.chunks[1..])
  }

  lemma FirstLineStands(bytes: seq<Byte>, at: nat, body: Body)
    requires Grammatical(body) && At(bytes, at, Text(body))
    ensures IsSizeLine(FirstLine(body)) && At(bytes, at, LineText(FirstLine(body)))
    ensures HexNumber(FirstLine(body).digits) == (if body.chunks == [] then 0 else |body.chunks[0].data|)
    ensures HexNumber(FirstLine(body).digits) == 0 <==> body.chunks == []
    ensures body.chunks == [] ==> At(bytes, at + |LineText(body.last)|, TrailersText(body.trailers))
  {
    if body.chunks == [] {
      assert Text(body) == LineText(body.last) + TrailersText(body.trailers);
      AtSplits(bytes, at, LineText(body.last), TrailersText(body.trailers));
    } else {
      AtSplits(bytes, at, ChunksText(body.chunks), LineText(body.last) + TrailersText(body.trailers));
      FirstChunk(bytes, at, body.chunks);
      AtSplits(bytes, at, LineText(body.chunks[0].line), body.chunks[0].data + CRLF);
    }
  }

  lemma Associates(a: seq<Byte>, b: seq<Byte>, c: seq<Byte>)
    ensures (a + b) + c == a + (b + c)
  {
  }

  lemma TheRestStands(bytes: seq<Byte>, at: nat, body: Body)
    requires At(bytes, at, Text(body)) && body.chunks != []
    ensures At(bytes, at + |ChunkText(body.chunks[0])|, Text(AfterFirst(body)))
  {
    var first, rest := ChunkText(body.chunks[0]), ChunksText(body.chunks[1..]);
    Associates(first, rest, LineText(body.last) + TrailersText(body.trailers));
    AtSplits(bytes, at, first, Text(AfterFirst(body)));
  }

  lemma FirstDataStands(bytes: seq<Byte>, at: nat, chunks: seq<Chunk>)
    requires chunks != [] && AreChunks(chunks) && At(bytes, at, ChunksText(chunks))
    ensures At(bytes, at + |LineText(chunks[0].line)|, chunks[0].data)
  {
    var c := chunks[0];
    FirstChunk(bytes, at, chunks);
    AtSplits(bytes, at, LineText(c.line), c.data + CRLF);
    AtSplits(bytes, at + |LineText(c.line)|, c.data, CRLF);
  }

  lemma FirstChunkThenTheRest(bytes: seq<Byte>, at: nat, body: Body)
    requires Grammatical(body) && At(bytes, at, Text(body)) && body.chunks != []
    ensures Grammatical(AfterFirst(body)) && At(bytes, at + |ChunkText(body.chunks[0])|, Text(AfterFirst(body)))
    ensures At(bytes, at + |LineText(body.chunks[0].line)|, body.chunks[0].data)
  {
    TheRestStands(bytes, at, body);
    AtSplits(bytes, at, ChunksText(body.chunks), LineText(body.last) + TrailersText(body.trailers));
    FirstDataStands(bytes, at, body.chunks);
  }

  lemma OneFirstLine(bytes: seq<Byte>, at: nat, one: Body, other: Body)
    requires Grammatical(one) && At(bytes, at, Text(one))
    requires Grammatical(other) && At(bytes, at, Text(other))
    ensures FirstLine(one) == FirstLine(other)
    ensures one.chunks == [] <==> other.chunks == []
    ensures one.chunks != [] ==> |one.chunks[0].data| == |other.chunks[0].data|
  {
    FirstLineStands(bytes, at, one);
    FirstLineStands(bytes, at, other);
    OneSizeLine(bytes, at, FirstLine(one), FirstLine(other));
  }

  lemma OneEnding(bytes: seq<Byte>, at: nat, one: Body, other: Body)
    requires Grammatical(one) && At(bytes, at, Text(one)) && one.chunks == []
    requires Grammatical(other) && At(bytes, at, Text(other)) && other.chunks == []
    ensures one == other
  {
    OneFirstLine(bytes, at, one, other);
    FirstLineStands(bytes, at, one);
    FirstLineStands(bytes, at, other);
    OneTrailerSection(bytes, at + |LineText(one.last)|, one.trailers, other.trailers);
  }

  lemma OneFirstChunk(bytes: seq<Byte>, at: nat, one: Body, other: Body) returns (next: nat)
    requires Grammatical(one) && At(bytes, at, Text(one)) && one.chunks != []
    requires Grammatical(other) && At(bytes, at, Text(other)) && other.chunks != []
    ensures one.chunks[0] == other.chunks[0]
    ensures Grammatical(AfterFirst(one)) && At(bytes, next, Text(AfterFirst(one)))
    ensures Grammatical(AfterFirst(other)) && At(bytes, next, Text(AfterFirst(other)))
  {
    OneFirstLine(bytes, at, one, other);
    FirstChunkThenTheRest(bytes, at, one);
    FirstChunkThenTheRest(bytes, at, other);
    next := at + |ChunkText(one.chunks[0])|;
  }

  lemma SameFirstAndRest(one: Body, other: Body)
    requires one.chunks != [] && other.chunks != []
    requires one.chunks[0] == other.chunks[0] && AfterFirst(one) == AfterFirst(other)
    ensures one == other
  {
    assert one.chunks == [one.chunks[0]] + one.chunks[1..] && other.chunks == [other.chunks[0]] + other.chunks[1..];
  }

  /** A stream frames one body at most, whatever its length: two grammatical readings that start at
      one place are one and the same, and so end at the same byte. */
  lemma {:induction false} FramingIsUnambiguous(bytes: seq<Byte>, at: nat, one: Body, other: Body)
    requires Grammatical(one) && At(bytes, at, Text(one))
    requires Grammatical(other) && At(bytes, at, Text(other))
    ensures one == other
    decreases |one.chunks|
  {
    OneFirstLine(bytes, at, one, other);
    if one.chunks == [] {
      OneEnding(bytes, at, one, other);
    } else {
      var next := OneFirstChunk(bytes, at, one, other);
      FramingIsUnambiguous(bytes, next, AfterFirst(one), AfterFirst(other));
      SameFirstAndRest(one, other);
    }
  }
}
