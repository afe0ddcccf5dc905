/** Reading a request's body, or passing over it, so that the stream is left where the
    following request starts. */
module BodyFraming {
  import opened Outcomes
  import opened ChunkedGrammar

  const MAX_FRAMING_LINE := 65536
  const MAX_BODY_BYTES := 65536
  const FRAMING_BLOCK := 65536

  // -- what the reader is given, a line or a block at a time --------------------------------

  /** Where `readline` stops: after a line feed, after `limit` bytes, or at the end. */
  function LineEnd(bytes: seq<Byte>, at: nat, limit: nat): (end: nat)
    requires at <= |bytes|
    ensures at <= end <= |bytes| && end - at <= limit
    ensures end == at <==> at == |bytes| || limit == 0
    decreases |bytes| - at
  {
    if at == |bytes| || limit == 0 then at
    else if bytes[at] == LF then at + 1
    else LineEnd(bytes, at + 1, limit - 1)
  }

  function BeforeSemicolon(line: seq<Byte>): seq<Byte> {
    if line == [] || line[0] == SEMICOLON then [] else [line[0]] + BeforeSemicolon(line[1..])
  }

  predicate IsSpace(b: Byte) { b == SPACE || 9 <= b <= 13 }

  function StripLeft(s: seq<Byte>): seq<Byte> {
    if s != [] && IsSpace(s[0]) then StripLeft(s[1..]) else s
  }

  function StripRight(s: seq<Byte>): seq<Byte> {
    if s != [] && IsSpace(s[|s| - 1]) then StripRight(s[..|s| - 1]) else s
  }

  /** What a size line says before its first semicolon, blanks trimmed, if that is all hex digits. */
  function AnnouncedSize(line: seq<Byte>): Option<nat> {
    var digits := StripRight(StripLeft(BeforeSemicolon(line)));
    if digits == [] || !AllHex(digits) then None else Some(HexNumber(digits))
  }

  // -- the skipper -----------------------------------------------------------------------------

  predicate LineIsRead(at: nat, end: nat) { at < end && end - at <= MAX_FRAMING_LINE }

  function SkipTrailers(bytes: seq<Byte>, at: nat): Option<nat>
    requires at <= |bytes|
    decreases |bytes| - at
  {
    var end := LineEnd(bytes, at, MAX_FRAMING_LINE + 1);
    if !LineIsRead(at, end) then None
    else if bytes[at..end] == CRLF || bytes[at..end] == [LF] then Some(end)
    else SkipTrailers(bytes, end)
  }

  /** A size line, read: where it ends and the size it announces. */
  datatype Announced = Announced(end: nat, size: nat)

  function ReadSize(bytes: seq<Byte>, at: nat): (read: Option<Announced>)
    requires at <= |bytes|
    ensures read.Some? ==> at < read.value.end <= |bytes|
  {
    var end := LineEnd(bytes, at, MAX_FRAMING_LINE + 1);
    if !LineIsRead(at, end) then None
    else match AnnouncedSize(bytes[at..end])
      case None => None
      case Some(size) => Some(Announced(end, size))
  }

  /** Whether `size` bytes of data are there, closed by an end of line. */
  predicate DataIsWhole(bytes: seq<Byte>, at: nat, size: nat) { At(bytes, at + size, CRLF) }

  /** Where the body ends, from a chunk's line on, `skipped` bytes of data having gone by. */
  function SkipFrom(bytes: seq<Byte>, at: nat, skipped: nat): Option<nat>
    requires at <= |bytes|
    decreases |bytes| - at
  {
    match ReadSize(bytes, at)
    case None => None
    case Some(Announced(end, size)) =>
      if size == 0 then SkipTrailers(bytes, end)
      else if skipped + size > MAX_BODY_BYTES || !DataIsWhole(bytes, end, size) then None
      else SkipFrom(bytes, end + size + 2, skipped + size)
  }

  datatype Encoding = Chunked | AnotherEncoding

  /** A declared length, as the language's own integer reading takes it. */
  datatype Length = Number(value: int) | NotANumber

  datatype Headers = Headers(transferEncoding: Option<Encoding>, contentLength: Option<Length>)

  predicate LengthIsRead(length: Option<Length>) {
    length == None || (length.value.Number? && 0 <= length.value.value <= MAX_BODY_BYTES)
  }

  function DeclaredLength(length: Option<Length>): nat
    requires LengthIsRead(length)
  {
    if length == None then 0 else length.value.value
  }

  function Least(a: nat, b: nat): nat { if a <= b then a else b }

  class Connection {
    const bytes: seq<Byte>
    var position: nat
    var closeConnection: bool

    ghost predicate Valid()
      reads this
    {
      position <= |bytes|
    }

    constructor (bytes: seq<Byte>)
      ensures Valid() && this.bytes == bytes && position == 0 && !closeConnection
    {
      this.bytes := bytes;
      position := 0;
      closeConnection := false;
    }

    method ReadLine(limit: nat) returns (line: seq<Byte>)
      requires Valid()
      modifies this`position
      ensures Valid() && position == LineEnd(bytes, old(position), limit)
      ensures line == bytes[old(position)..position]
    {
      var end := LineEnd(bytes, position, limit);
      line := bytes[position..end];
      position := end;
    }

    method Read(n: nat) returns (block: seq<Byte>)
      requires Valid()
      modifies this`position
      ensures Valid() && position == if old(position) + n <= |bytes| then old(position) + n else |bytes|
      ensures block == bytes[old(position)..position]
    {
      var end := if position + n <= |bytes| then position + n else |bytes|;
      block := bytes[position..end];
      position := end;
    }

    method SkipData(size: nat) returns (whole: bool)
      requires Valid()
      modifies this`position
      ensures Valid() && whole == (old(position) + size <= |bytes|)
      ensures whole ==> position == old(position) + size
    {
      var left: nat := size;
      while left > 0
        invariant Valid() && position + left == old(position) + size
        decreases left
      {
        var block := Read(if left < FRAMING_BLOCK then left else FRAMING_BLOCK);
        if block == [] { return false; }
        left := left - |block|;
      }
      whole := true;
    }

    method SkipTrailerSection() returns (framed: bool)
      requires Valid()
      modifies this`position
      ensures Valid() && framed == SkipTrailers(bytes, old(position)).Some?
      ensures framed ==> position == SkipTrailers(bytes, old(position)).value
    {
      while true
        invariant Valid() && SkipTrailers(bytes, old(position)) == SkipTrailers(bytes, position)
        decreases |bytes| - position
      {
        var line := ReadLine(MAX_FRAMING_LINE + 1);
        if line == [] || |line| > MAX_FRAMING_LINE { return false; }
        if line == CRLF || line == [LF] { return true; }
      }
    }

    /** Pass over a chunked body, keeping none of it; false once its end can no longer be found. */
    method SkipChunked() returns (framed: bool)
      requires Valid()
      modifies this`position
      ensures Valid() && framed == SkipFrom(bytes, old(position), 0).Some?
      ensures framed ==> position == SkipFrom(bytes, old(position), 0).value
    {
      var skipped: nat := 0;
      while true
        invariant Valid() && SkipFrom(bytes, old(position), 0) == SkipFrom(bytes, position, skipped)
        decreases |bytes| - position
      {
        ghost var at := position;
        var size := ReadSizeLine();
        if size == None {
          NoSizeIsRefused(bytes, at, skipped);
          return false;
        }
        if size.value == 0 { break; }
        skipped := skipped + size.value;
        if skipped > MAX_BODY_BYTES { return false; }
        ghost var end := position;
        var whole := SkipDataAndEnd(size.value);
        if !whole { return false; }
        ChunkIsSkipped(bytes, at, skipped - size.value, size.value, end, position, skipped);
      }
      framed := SkipTrailerSection();
    }

    /** The line that announces a chunk's size. */
    method ReadSizeLine() returns (size: Option<nat>)
      requires Valid()
      modifies this`position
      ensures Valid() && size.Some? == ReadSize(bytes, old(position)).Some?
      ensures size.Some? ==> ReadSize(bytes, old(position)) == Some(Announced(position, size.value))
    {
      var line := ReadLine(MAX_FRAMING_LINE + 1);
      if line == [] || |line| > MAX_FRAMING_LINE { return None; }
      size := AnnouncedSize(line);
    }

    /** The data of one chunk, and the end of line after it. */
    method SkipDataAndEnd(size: nat) returns (whole: bool)
      requires Valid()
      modifies this`position
      ensures Valid() && whole == DataIsWhole(bytes, old(position), size)
      ensures whole ==> position == old(position) + size + 2
    {
      whole := SkipData(size);
      if !whole { return; }
      var end := Read(2);
      whole := end == CRLF;
    }

    /** Refuse a framing that is not read: the connection is kept exactly when it was skipped. */
    method RefuseFraming(encoding: Encoding, contentLength: Option<Length>)
      requires Valid()
      modifies this
      ensures Valid()
      ensures closeConnection <==>
        contentLength.Some? || encoding != Chunked || SkipFrom(bytes, old(position), 0) == None
      ensures !closeConnection ==> position == SkipFrom(bytes, old(position), 0).value
    {
      var framed := contentLength == None && encoding == Chunked;
      if framed {
        framed := SkipChunked();
      }
      closeConnection := !framed;
    }

    /** The body, when the headers frame one that is read here; nothing when they do not. */
    method ConsumeBody(headers: Headers) returns (body: Option<seq<Byte>>)
      requires Valid()
      modifies this
      ensures Valid()
      ensures forall end :: Framed(bytes, headers, old(position), end) ==> closeConnection || position == end
      ensures body.Some? <==> headers.transferEncoding == None && LengthIsRead(headers.contentLength)
      ensures body.Some? ==>
        closeConnection == old(closeConnection)
        && position == Least(old(position) + DeclaredLength(headers.contentLength), |bytes|)
        && body.value == bytes[old(position)..position]
      ensures body == None && headers.transferEncoding == None ==> closeConnection
      ensures headers.transferEncoding.Some? ==>
        (closeConnection <==> headers.contentLength.Some? || headers.transferEncoding.value != Chunked
                              || SkipFrom(bytes, old(position), 0) == None)
    {
      if headers.transferEncoding.Some? {
        RefuseFraming(headers.transferEncoding.value, headers.contentLength);
        forall end | Framed(bytes, headers, old(position), end) ensures closeConnection || position == end {
          if !closeConnection { FramedChunkedIsSkippedExactly(bytes, old(position), end); }
        }
        return None;
      }
      if headers.contentLength == None { return Some([]); }
      var length := if headers.contentLength.value.Number? then headers.contentLength.value.value else -1;
      if length < 0 || length > MAX_BODY_BYTES {
        closeConnection := true;
        return None;
      }
      var block := Read(length);
      body := Some(block);
    }
  }

  // -- the grammar ---------------------------------------------------------------------------------

  /** Where the body a request frames ends, by the headers alone. */
  ghost predicate Framed(bytes: seq<Byte>, headers: Headers, at: nat, end: nat) {
    match headers.transferEncoding
    case Some(Chunked) => headers.contentLength == None && FramedChunked(bytes, at, end)
    case Some(_) => false
    case None =>
      match headers.contentLength
      case None => end == at
      case Some(Number(n)) => n >= 0 && end == at + n && end <= |bytes|
      case Some(NotANumber) => false
  }

  ghost predicate FramedChunked(bytes: seq<Byte>, at: nat, end: nat) {
    exists body: Body :: Grammatical(body) && At(bytes, at, Text(body)) && end == at + |Text(body)|
  }

  predicate LineFits(text: seq<Byte>) { |text| <= MAX_FRAMING_LINE }

  ghost predicate WithinBounds(body: Body) {
    && ChunksFit(body.chunks)
    && TotalData(body.chunks) <= MAX_BODY_BYTES
    && LineFits(LineText(body.last))
    && TrailersFit(body.trailers)
  }

  /** A line of the grammar is read whole, or is found too long. */
  lemma {:induction false} LineIsFound(bytes: seq<Byte>, at: nat, text: seq<Byte>, limit: nat)
    requires At(bytes, at, text + [LF]) && LF !in text
    ensures LineEnd(bytes, at, limit) == at + if |text| + 1 <= limit then |text| + 1 else limit
    decreases |text|
  {
    assert bytes[at] == (text + [LF])[0];
    if text != [] && limit > 0 {
      assert text[0] in text;
      assert (text + [LF])[1..] == text[1..] + [LF];
      AtSplits(bytes, at, [text[0]], text[1..] + [LF]);
      assert [text[0]] + (text[1..] + [LF]) == text + [LF];
      LineIsFound(bytes, at + 1, text[1..], limit - 1);
    }
  }

  lemma {:induction false} StripsTail(digits: seq<Byte>, tail: seq<Byte>)
    requires digits != [] && !IsSpace(digits[|digits| - 1])
    requires forall b :: b in tail ==> IsSpace(b)
    ensures StripRight(digits + tail) == digits
  {
    var s := digits + tail;
    if tail == [] {
      assert s == digits;
    } else {
      assert s[|s| - 1] == tail[|tail| - 1] && tail[|tail| - 1] in tail;
      assert s[..|s| - 1] == digits + tail[..|tail| - 1];
      StripsTail(digits, tail[..|tail| - 1]);
    }
  }

  lemma {:induction false} NoSemicolonBefore(head: seq<Byte>, rest: seq<Byte>)
    requires SEMICOLON !in head
    ensures BeforeSemicolon(head + rest) == head + BeforeSemicolon(rest)
  {
    if head == [] {
      assert head + rest == rest;
    } else {
      assert head[0] in head;
      assert (head + rest)[1..] == head[1..] + rest;
      NoSemicolonBefore(head[1..], rest);
    }
  }

  /** A size line announces the size its digits spell, whatever follows them. */
  lemma GrammarSizeIsRead(l: SizeLine)
    requires IsSizeLine(l)
    ensures AnnouncedSize(LineText(l)) == Some(HexNumber(l.digits))
  {
    var tail := if l.extension.NoExtension? then CRLF else l.extension.blanks;
    assert BeforeSemicolon(LineText(l)) == l.digits + tail by {
      if l.extension.NoExtension? {
        assert LineText(l) == (l.digits + CRLF) + [];
        NoSemicolonBefore(l.digits + CRLF, []);
      } else {
        var rest := [SEMICOLON] + l.extension.text + CRLF;
        assert LineText(l) == (l.digits + tail) + rest;
        NoSemicolonBefore(l.digits + tail, rest);
      }
    }
    assert l.digits[0] in l.digits && l.digits[|l.digits| - 1] in l.digits;
    assert StripLeft(l.digits + tail) == l.digits + tail;
    StripsTail(l.digits, tail);
  }

  lemma SizeLineIsOneLine(l: SizeLine)
    requires IsSizeLine(l)
    ensures LineText(l) == (l.digits + ExtensionText(l.extension) + [CR]) + [LF]
    ensures LF !in l.digits + ExtensionText(l.extension) + [CR]
  {
  }

  lemma SizeLineIsFound(bytes: seq<Byte>, at: nat, l: SizeLine)
    requires IsSizeLine(l) && At(bytes, at, LineText(l))
    ensures ReadSize(bytes, at) ==
      if LineFits(LineText(l)) then Some(Announced(at + |LineText(l)|, HexNumber(l.digits))) else None
  {
    SizeLineIsOneLine(l);
    LineIsFound(bytes, at, l.digits + ExtensionText(l.extension) + [CR], MAX_FRAMING_LINE + 1);
    GrammarSizeIsRead(l);
  }

  lemma TrailerIsFound(bytes: seq<Byte>, at: nat, t: seq<Byte>)
    requires IsTrailer(t) && At(bytes, at, t + CRLF)
    ensures var end := LineEnd(bytes, at, MAX_FRAMING_LINE + 1);
      && (LineIsRead(at, end) <==> LineFits(t + CRLF))
      && (LineFits(t + CRLF) ==> end == at + |t + CRLF| && bytes[at..end] != CRLF && bytes[at..end] != [LF])
  {
    assert t + CRLF == (t + [CR]) + [LF];
    LineIsFound(bytes, at, t + [CR], MAX_FRAMING_LINE + 1);
    assert |t + CRLF| > 2;
  }

  ghost predicate TrailersFit(trailers: seq<seq<Byte>>) { forall t :: t in trailers ==> LineFits(t + CRLF) }

  lemma TrailersFitSplits(trailers: seq<seq<Byte>>)
    requires trailers != []
    ensures TrailersFit(trailers) <==> LineFits(trailers[0] + CRLF) && TrailersFit(trailers[1..])
  {
    assert forall x :: x in trailers <==> x == trailers[0] || x in trailers[1..];
  }

  lemma OneTrailerIsSkipped(bytes: seq<Byte>, at: nat, t: seq<Byte>, next: nat)
    requires IsTrailer(t) && At(bytes, at, t + CRLF) && next == at + |t + CRLF|
    ensures SkipTrailers(bytes, at) == if LineFits(t + CRLF) then SkipTrailers(bytes, next) else None
  {
    TrailerIsFound(bytes, at, t);
  }

  lemma EmptyLineEndsThem(bytes: seq<Byte>, at: nat)
    requires At(bytes, at, CRLF)
    ensures SkipTrailers(bytes, at) == Some(at + 2)
  {
    assert CRLF == [CR] + [LF];
    LineIsFound(bytes, at, [CR], MAX_FRAMING_LINE + 1);
  }

  lemma {:induction false} TrailersAreSkipped(bytes: seq<Byte>, at: nat, trailers: seq<seq<Byte>>, end: nat)
    requires AreTrailers(trailers) && At(bytes, at, TrailersText(trailers)) && end == at + |TrailersText(trailers)|
    ensures SkipTrailers(bytes, at) == if TrailersFit(trailers) then Some(end) else None
    decreases |trailers|
  {
    if trailers == [] {
      EmptyLineEndsThem(bytes, at);
    } else {
      var next := at + |trailers[0] + CRLF|;
      TrailersFitSplits(trailers);
      FirstTrailer(bytes, at, trailers);
      OneTrailerIsSkipped(bytes, at, trailers[0], next);
      if LineFits(trailers[0] + CRLF) {
        TrailersAreSkipped(bytes, next, trailers[1..], end);
      }
    }
  }

  lemma ChunkIsLineThenData(bytes: seq<Byte>, at: nat, c: Chunk)
    requires IsChunk(c) && At(bytes, at, ChunkText(c))
    ensures at + |ChunkText(c)| == at + |LineText(c.line)| + |c.data| + 2 <= |bytes|
    ensures DataIsWhole(bytes, at + |LineText(c.line)|, |c.data|)
    ensures ReadSize(bytes, at) ==
      if LineFits(LineText(c.line)) then Some(Announced(at + |LineText(c.line)|, |c.data|)) else None
  {
    var end := at + |LineText(c.line)|;
    AtSplits(bytes, at, LineText(c.line), c.data + CRLF);
    AtSplits(bytes, end, c.data, CRLF);
    SizeLineIsFound(bytes, at, c.line);
  }

  /** One chunk goes by, or the skipper gives up at it. */
  lemma ChunkIsSkipped(bytes: seq<Byte>, at: nat, skipped: nat, size: nat, end: nat, next: nat, gone: nat)
    requires at <= |bytes| && size > 0 && next == end + size + 2 <= |bytes| && gone == skipped + size
    requires ReadSize(bytes, at) == Some(Announced(end, size)) && DataIsWhole(bytes, end, size)
    ensures SkipFrom(bytes, at, skipped) ==
      if gone <= MAX_BODY_BYTES then SkipFrom(bytes, next, gone) else None
  {
  }

  lemma LastChunkIsSkipped(bytes: seq<Byte>, at: nat, skipped: nat, last: SizeLine)
    requires IsSizeLine(last) && HexNumber(last.digits) == 0 && At(bytes, at, LineText(last))
    ensures SkipFrom(bytes, at, skipped) ==
      if LineFits(LineText(last)) then SkipTrailers(bytes, at + |LineText(last)|) else None
  {
    SizeLineIsFound(bytes, at, last);
  }

  ghost predicate ChunksFit(chunks: seq<Chunk>) { forall c :: c in chunks ==> LineFits(LineText(c.line)) }

  lemma ChunksFitSplits(chunks: seq<Chunk>)
    requires chunks != []
    ensures ChunksFit(chunks) <==> LineFits(LineText(chunks[0].line)) && ChunksFit(chunks[1..])
  {
    assert forall x :: x in chunks <==> x == chunks[0] || x in chunks[1..];
  }

  /** Whether the skipper gets past these chunks, `skipped` bytes having gone by. */
  ghost predicate GoBy(chunks: seq<Chunk>, skipped: nat) {
    ChunksFit(chunks) && skipped + TotalData(chunks) <= MAX_BODY_BYTES
  }

  lemma ChunksAddUp(chunks: seq<Chunk>)
    requires chunks != []
    ensures |ChunksText(chunks)| == |ChunkText(chunks[0])| + |ChunksText(chunks[1..])|
    ensures TotalData(chunks) == |chunks[0].data| + TotalData(chunks[1..])
  {
  }

  lemma GoBySplits(chunks: seq<Chunk>, skipped: nat, gone: nat)
    requires chunks != [] && gone == skipped + |chunks[0].data|
    ensures GoBy(chunks, skipped) <==>
      LineFits(LineText(chunks[0].line)) && gone <= MAX_BODY_BYTES && GoBy(chunks[1..], gone)
  {
    ChunksFitSplits(chunks);
    ChunksAddUp(chunks);
  }

  lemma NoSizeIsRefused(bytes: seq<Byte>, at: nat, skipped: nat)
    requires at <= |bytes| && ReadSize(bytes, at) == None
    ensures SkipFrom(bytes, at, skipped) == None
  {
  }

  lemma ChunkTooLong(bytes: seq<Byte>, at: nat, skipped: nat, c: Chunk)
    requires IsChunk(c) && At(bytes, at, ChunkText(c)) && !LineFits(LineText(c.line))
    ensures SkipFrom(bytes, at, skipped) == None
  {
    ChunkIsLineThenData(bytes, at, c);
    NoSizeIsRefused(bytes, at, skipped);
  }

  lemma ChunkGoesBy(bytes: seq<Byte>, at: nat, skipped: nat, c: Chunk, next: nat, gone: nat)
    requires IsChunk(c) && At(bytes, at, ChunkText(c)) && LineFits(LineText(c.line))
    requires next == at + |ChunkText(c)| && gone == skipped + |c.data|
    ensures SkipFrom(bytes, at, skipped) == if gone <= MAX_BODY_BYTES then SkipFrom(bytes, next, gone) else None
  {
    ChunkIsLineThenData(bytes, at, c);
    ChunkIsSkipped(bytes, at, skipped, |c.data|, at + |LineText(c.line)|, next, gone);
  }

  lemma {:induction false} ChunksAreSkipped(bytes: seq<Byte>, at: nat, skipped: nat, chunks: seq<Chunk>, end: nat, total: nat)
    requires AreChunks(chunks) && At(bytes, at, ChunksText(chunks)) && GoBy(chunks, skipped)
    requires end == at + |ChunksText(chunks)| && total == skipped + TotalData(chunks)
    ensures SkipFrom(bytes, at, skipped) == SkipFrom(bytes, end, total)
    decreases |chunks|
  {
    if chunks != [] {
      var next, gone := at + |ChunkText(chunks[0])|, skipped + |chunks[0].data|;
      FirstChunk(bytes, at, chunks);
      ChunksAddUp(chunks);
      GoBySplits(chunks, skipped, gone);
      ChunkGoesBy(bytes, at, skipped, chunks[0], next, gone);
      ChunksAreSkipped(bytes, next, gone, chunks[1..], end, total);
    }
  }

  lemma {:induction false} ChunksAreRefused(bytes: seq<Byte>, at: nat, skipped: nat, chunks: seq<Chunk>)
    requires AreChunks(chunks) && At(bytes, at, ChunksText(chunks)) && skipped <= MAX_BODY_BYTES
    requires !GoBy(chunks, skipped)
    ensures SkipFrom(bytes, at, skipped) == None
    decreases |chunks|
  {
    var next, gone := at + |ChunkText(chunks[0])|, skipped + |chunks[0].data|;
    FirstChunk(bytes, at, chunks);
    if !LineFits(LineText(chunks[0].line)) {
      ChunkTooLong(bytes, at, skipped, chunks[0]);
    } else {
      ChunkGoesBy(bytes, at, skipped, chunks[0], next, gone);
      GoBySplits(chunks, skipped, gone);
      if gone <= MAX_BODY_BYTES {
        ChunksAreRefused(bytes, next, gone, chunks[1..]);
      }
    }
  }

  /** At the end of a body: where the last line and the trailers end, or nothing. */
  lemma EndingIsSkipped(bytes: seq<Byte>, at: nat, skipped: nat, last: SizeLine, trailers: seq<seq<Byte>>, end: nat)
    requires IsSizeLine(last) && HexNumber(last.digits) == 0 && AreTrailers(trailers)
    requires At(bytes, at, LineText(last) + TrailersText(trailers)) && end == at + |LineText(last) + TrailersText(trailers)|
    ensures SkipFrom(bytes, at, skipped) == if LineFits(LineText(last)) && TrailersFit(trailers) then Some(end) else None
  {
    AtSplits(bytes, at, LineText(last), TrailersText(trailers));
    TrailersAreSkipped(bytes, at + |LineText(last)|, trailers, end);
    LastChunkIsSkipped(bytes, at, skipped, last);
  }

  lemma BodyGoesBy(bytes: seq<Byte>, at: nat, body: Body, middle: nat, end: nat)
    requires Grammatical(body) && At(bytes, at, ChunksText(body.chunks)) && GoBy(body.chunks, 0)
    requires middle == at + |ChunksText(body.chunks)|
    requires At(bytes, middle, LineText(body.last) + TrailersText(body.trailers))
    requires end == middle + |LineText(body.last) + TrailersText(body.trailers)|
    ensures SkipFrom(bytes, at, 0) == if LineFits(LineText(body.last)) && TrailersFit(body.trailers) then Some(end) else None
  {
    ChunksAreSkipped(bytes, at, 0, body.chunks, middle, TotalData(body.chunks));
    EndingIsSkipped(bytes, middle, TotalData(body.chunks), body.last, body.trailers, end);
  }

  lemma BodyIsSkipped(bytes: seq<Byte>, at: nat, body: Body)
    requires Grammatical(body) && At(bytes, at, Text(body))
    ensures SkipFrom(bytes, at, 0) == if WithinBounds(body) then Some(at + |Text(body)|) else None
  {
    AtSplits(bytes, at, ChunksText(body.chunks), LineText(body.last) + TrailersText(body.trailers));
    if GoBy(body.chunks, 0) {
      BodyGoesBy(bytes, at, body, at + |ChunksText(body.chunks)|, at + |Text(body)|);
    } else {
      ChunksAreRefused(bytes, at, 0, body.chunks);
    }
  }

  /** Whatever grammatical chunked body stands in the stream and whatever follows it, the
      skipper succeeds exactly when the body is within the bounds, and then it stops exactly
      after the line that ends the trailer section. */
  lemma ChunkedBodyIsSkippedExactly(before: seq<Byte>, body: Body, after: seq<Byte>)
    requires Grammatical(body)
    ensures SkipFrom(before + Text(body) + after, |before|, 0) ==
      if WithinBounds(body) then Some(|before| + |Text(body)|) else None
  {
    var bytes := before + Text(body) + after;
    assert bytes[|before|..|before| + |Text(body)|] == Text(body);
    BodyIsSkipped(bytes, |before|, body);
  }

  lemma FramedChunkedIsSkippedExactly(bytes: seq<Byte>, at: nat, end: nat)
    requires at <= |bytes| && FramedChunked(bytes, at, end)
    ensures SkipFrom(bytes, at, 0).Some? ==> SkipFrom(bytes, at, 0).value == end
  {
    var body: Body :| Grammatical(body) && At(bytes, at, Text(body)) && end == at + |Text(body)|;
    BodyIsSkipped(bytes, at, body);
  }
}
