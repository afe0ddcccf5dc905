/** Exactly what the skipper lets by, grammatical or not: the chunked coding widened by what it
    tolerates, and nothing more. */
module LooseFraming {
  import opened Outcomes
  import opened ChunkedGrammar
  import opened BodyFraming

  // -- the grammar it really reads ----------------------------------------------------------------

  /** One line, and only one: a line feed ends it, and stands nowhere else in it. */
  predicate IsLine(line: seq<Byte>) { line != [] && line[|line| - 1] == LF && LF !in line[..|line| - 1] }

  predicate Blank(s: seq<Byte>) { forall b :: b in s ==> IsSpace(b) }

  /** A size line: a run of hex digits, blanks before and after it or none, and then the end of the
      line or anything at all after a semicolon. */
  ghost predicate Spells(line: seq<Byte>, digits: seq<Byte>) {
    exists before, after, rest :: IsMadeOf(line, before, digits, after, rest)
  }

  predicate IsMadeOf(line: seq<Byte>, before: seq<Byte>, digits: seq<Byte>, after: seq<Byte>, rest: seq<Byte>) {
    line == (before + (digits + after)) + rest && Blank(before) && Blank(after) && (rest == [] || rest[0] == SEMICOLON)
  }

  ghost predicate Announces(line: seq<Byte>, size: nat) {
    exists digits :: digits != [] && AllHex(digits) && HexNumber(digits) == size && Spells(line, digits)
  }

  datatype LooseChunk = LooseChunk(line: seq<Byte>, data: seq<Byte>)

  datatype LooseBody = LooseBody(chunks: seq<LooseChunk>, last: seq<Byte>, trailers: seq<seq<Byte>>, end: seq<Byte>)

  ghost predicate IsSizedLine(line: seq<Byte>, size: nat) { IsLine(line) && |line| <= MAX_FRAMING_LINE && Announces(line, size) }

  ghost predicate IsLooseChunk(c: LooseChunk) { c.data != [] && IsSizedLine(c.line, |c.data|) }

  predicate IsEnd(line: seq<Byte>) { line == CRLF || line == [LF] }

  predicate IsLooseTrailer(line: seq<Byte>) { IsLine(line) && |line| <= MAX_FRAMING_LINE && !IsEnd(line) }

  function LooseData(chunks: seq<LooseChunk>): nat {
    if chunks == [] then 0 else |chunks[0].data| + LooseData(chunks[1..])
  }

  /** What goes by, `skipped` bytes of data having gone by before it: every line and all of the data
      within their bounds, and an empty line, of either ending, after the trailers. */
  ghost predicate Tolerated(body: LooseBody, skipped: nat) {
    AreLooseChunks(body.chunks) && DataFits(body.chunks, skipped) && IsLooseEnding(body)
  }

  ghost predicate AreLooseChunks(chunks: seq<LooseChunk>) { forall c :: c in chunks ==> IsLooseChunk(c) }

  predicate DataFits(chunks: seq<LooseChunk>, skipped: nat) {
    chunks != [] ==> skipped + LooseData(chunks) <= MAX_BODY_BYTES
  }

  ghost predicate IsLooseEnding(body: LooseBody) {
    IsSizedLine(body.last, 0) && (forall t :: t in body.trailers ==> IsLooseTrailer(t)) && IsEnd(body.end)
  }

  function LinesText(lines: seq<seq<Byte>>): seq<Byte> {
    if lines == [] then [] else lines[0] + LinesText(lines[1..])
  }

  function LooseChunkText(c: LooseChunk): seq<Byte> { c.line + (c.data + CRLF) }

  function LooseChunksText(chunks: seq<LooseChunk>): seq<Byte> {
    if chunks == [] then [] else LooseChunkText(chunks[0]) + LooseChunksText(chunks[1..])
  }

  function LooseText(body: LooseBody): seq<Byte> {
    LooseChunksText(body.chunks) + (body.last + (LinesText(body.trailers) + body.end))
  }

  // -- one line -----------------------------------------------------------------------------------

  /** What stands between two places of the stream. */
  lemma {:induction false} LineEndIsALine(bytes: seq<Byte>, at: nat, limit: nat)
    requires at <= |bytes|
    ensures var end := LineEnd(bytes, at, limit);
      && LF !in bytes[at..if end > at then end - 1 else at]
      && (end > at ==> bytes[end - 1] == LF || end == |bytes| || end == at + limit)
    decreases |bytes| - at
  {
    if at < |bytes| && limit > 0 && bytes[at] != LF {
      LineEndIsALine(bytes, at + 1, limit - 1);
      var end := LineEnd(bytes, at, limit);
      if end > at + 1 { assert bytes[at..end - 1] == [bytes[at]] + bytes[at + 1..end - 1]; }
    }
  }

  /** A line that is read, and is not the last of the stream, is one line. */
  lemma LineReadIsALine(bytes: seq<Byte>, at: nat)
    requires at <= |bytes|
    ensures var end := LineEnd(bytes, at, MAX_FRAMING_LINE + 1);
      LineIsRead(at, end) ==> LF !in bytes[at..end - 1] && (bytes[end - 1] == LF || end == |bytes|)
  {
    LineEndIsALine(bytes, at, MAX_FRAMING_LINE + 1);
  }

  lemma LineIsReadWhole(bytes: seq<Byte>, at: nat, line: seq<Byte>)
    requires IsLine(line) && At(bytes, at, line) && |line| <= MAX_FRAMING_LINE
    ensures LineEnd(bytes, at, MAX_FRAMING_LINE + 1) == at + |line| && LineIsRead(at, at + |line|)
    ensures bytes[at..at + |line|] == line
  {
    assert line == line[..|line| - 1] + [LF];
    LineIsFound(bytes, at, line[..|line| - 1], MAX_FRAMING_LINE + 1);
  }

  // -- the size it announces ------------------------------------------------------------------------

  lemma {:induction false} SplitsAtSemicolon(line: seq<Byte>) returns (rest: seq<Byte>)
    ensures line == BeforeSemicolon(line) + rest && (rest == [] || rest[0] == SEMICOLON)
  {
    if line == [] || line[0] == SEMICOLON {
      rest := line;
    } else {
      rest := SplitsAtSemicolon(line[1..]);
      assert line == [line[0]] + line[1..];
    }
  }

  lemma {:induction false} StripLeftSplits(s: seq<Byte>) returns (before: seq<Byte>)
    ensures s == before + StripLeft(s) && Blank(before)
  {
    if s != [] && IsSpace(s[0]) {
      var more := StripLeftSplits(s[1..]);
      before := [s[0]] + more;
      assert s == [s[0]] + s[1..];
    } else {
      before := [];
    }
  }

  lemma {:induction false} StripRightSplits(s: seq<Byte>) returns (after: seq<Byte>)
    ensures s == StripRight(s) + after && Blank(after)
  {
    if s != [] && IsSpace(s[|s| - 1]) {
      var more := StripRightSplits(s[..|s| - 1]);
      after := more + [s[|s| - 1]];
      assert s == s[..|s| - 1] + [s[|s| - 1]];
    } else {
      after := [];
    }
  }

  lemma {:induction false} StripsHead(before: seq<Byte>, x: seq<Byte>)
    requires Blank(before) && x != [] && !IsSpace(x[0])
    ensures StripLeft(before + x) == x
  {
    if before == [] {
      assert before + x == x;
    } else {
      assert before[0] in before && (before + x)[1..] == before[1..] + x;
      StripsHead(before[1..], x);
    }
  }

  lemma NoSemicolonYet(before: seq<Byte>, digits: seq<Byte>, after: seq<Byte>)
    requires Blank(before) && AllHex(digits) && Blank(after)
    ensures SEMICOLON !in before + (digits + after)
  {
  }

  lemma PartsAreRead(line: seq<Byte>, before: seq<Byte>, digits: seq<Byte>, after: seq<Byte>, rest: seq<Byte>)
    requires digits != [] && AllHex(digits) && IsMadeOf(line, before, digits, after, rest)
    ensures BeforeSemicolon(line) == before + (digits + after)
    ensures StripRight(StripLeft(before + (digits + after))) == digits
  {
    NoSemicolonYet(before, digits, after);
    NoSemicolonBefore(before + (digits + after), rest);
    assert before + (digits + after) + [] == before + (digits + after);
    assert digits[0] in digits && digits[|digits| - 1] in digits;
    StripsHead(before, digits + after);
    StripsTail(digits, after);
  }

  /** A size is announced exactly by a run of hex digits, not empty, and is their value. */
  lemma SizeIsAnnouncedExactly(line: seq<Byte>, size: nat)
    ensures AnnouncedSize(line) == Some(size) <==> Announces(line, size)
  {
    if AnnouncedSize(line) == Some(size) {
      var rest := SplitsAtSemicolon(line);
      var before := StripLeftSplits(BeforeSemicolon(line));
      var after := StripRightSplits(StripLeft(BeforeSemicolon(line)));
      var digits := StripRight(StripLeft(BeforeSemicolon(line)));
      assert IsMadeOf(line, before, digits, after, rest);
    }
    if Announces(line, size) {
      var digits :| digits != [] && AllHex(digits) && HexNumber(digits) == size && Spells(line, digits);
      var before, after, rest :| IsMadeOf(line, before, digits, after, rest);
      PartsAreRead(line, before, digits, after, rest);
    }
  }

  lemma SizedLineIsRead(bytes: seq<Byte>, at: nat, line: seq<Byte>, size: nat)
    requires IsSizedLine(line, size) && At(bytes, at, line)
    ensures ReadSize(bytes, at) == Some(Announced(at + |line|, size))
  {
    LineIsReadWhole(bytes, at, line);
    SizeIsAnnouncedExactly(line, size);
  }

  lemma ReadLineIsSized(bytes: seq<Byte>, at: nat, end: nat, size: nat)
    requires at <= |bytes| && ReadSize(bytes, at) == Some(Announced(end, size)) && end < |bytes|
    ensures IsSizedLine(bytes[at..end], size) && At(bytes, at, bytes[at..end])
  {
    LineReadIsALine(bytes, at);
    assert bytes[at..end][..end - at - 1] == bytes[at..end - 1];
    SizeIsAnnouncedExactly(bytes[at..end], size);
  }

  // -- the trailers -----------------------------------------------------------------------------------

  /** One more line in front of the rest. */
  lemma OneMoreLine(bytes: seq<Byte>, at: nat, line: seq<Byte>, more: seq<seq<Byte>>, end: seq<Byte>)
    returns (lines: seq<seq<Byte>>)
    requires At(bytes, at, line) && At(bytes, at + |line|, LinesText(more) + end)
    ensures lines == [line] + more && LinesText(lines) + end == line + (LinesText(more) + end)
    ensures At(bytes, at, LinesText(lines) + end)
  {
    lines := [line] + more;
    assert lines[1..] == more;
    Associates(line, LinesText(more), end);
    AtJoins(bytes, at, line, LinesText(more) + end);
  }

  lemma TrailerIsALine(bytes: seq<Byte>, at: nat, next: nat)
    requires at <= |bytes| && next == LineEnd(bytes, at, MAX_FRAMING_LINE + 1) && next < |bytes|
    requires LineIsRead(at, next) && !IsEnd(bytes[at..next])
    ensures IsLooseTrailer(bytes[at..next]) && At(bytes, at, bytes[at..next])
  {
    LineReadIsALine(bytes, at);
    assert bytes[at..next][..next - at - 1] == bytes[at..next - 1];
  }

  lemma {:induction false} TrailersLetBy(bytes: seq<Byte>, at: nat) returns (lines: seq<seq<Byte>>, end: seq<Byte>)
    requires at <= |bytes| && SkipTrailers(bytes, at).Some?
    ensures IsEnd(end) && forall t :: t in lines ==> IsLooseTrailer(t)
    ensures At(bytes, at, LinesText(lines) + end) && SkipTrailers(bytes, at) == Some(at + |LinesText(lines) + end|)
    decreases |bytes| - at
  {
    var next := LineEnd(bytes, at, MAX_FRAMING_LINE + 1);
    if IsEnd(bytes[at..next]) {
      lines, end := [], bytes[at..next];
      assert LinesText(lines) + end == end;
    } else {
      NothingIsLetByAtTheEnd(bytes);
      TrailerIsALine(bytes, at, next);
      var more;
      more, end := TrailersLetBy(bytes, next);
      lines := OneMoreLine(bytes, at, bytes[at..next], more, end);
    }
  }

  lemma NothingIsLetByAtTheEnd(bytes: seq<Byte>)
    ensures SkipTrailers(bytes, |bytes|) == None
  {
  }

  lemma AtJoins(bytes: seq<Byte>, at: nat, first: seq<Byte>, second: seq<Byte>)
    requires At(bytes, at, first) && At(bytes, at + |first|, second)
    ensures At(bytes, at, first + second)
  {
    assert bytes[at..at + |first + second|] == bytes[at..at + |first|] + bytes[at + |first|..at + |first| + |second|];
  }

  lemma OneLineGoesBy(bytes: seq<Byte>, at: nat, line: seq<Byte>)
    requires At(bytes, at, line) && (IsLooseTrailer(line) || IsEnd(line))
    ensures SkipTrailers(bytes, at) == if IsEnd(line) then Some(at + |line|) else SkipTrailers(bytes, at + |line|)
  {
    LineIsReadWhole(bytes, at, line);
  }

  lemma {:induction false} TrailersGoBy(bytes: seq<Byte>, at: nat, lines: seq<seq<Byte>>, end: seq<Byte>, past: nat)
    requires IsEnd(end) && forall t :: t in lines ==> IsLooseTrailer(t)
    requires At(bytes, at, LinesText(lines) + end) && past == at + |LinesText(lines) + end|
    ensures SkipTrailers(bytes, at) == Some(past)
    decreases |lines|
  {
    if lines == [] {
      assert LinesText(lines) + end == end;
      OneLineGoesBy(bytes, at, end);
    } else {
      assert lines[0] in lines;
      Associates(lines[0], LinesText(lines[1..]), end);
      AtSplits(bytes, at, lines[0], LinesText(lines[1..]) + end);
      OneLineGoesBy(bytes, at, lines[0]);
      TrailersGoBy(bytes, at + |lines[0]|, lines[1..], end, past);
    }
  }

  // -- the body -----------------------------------------------------------------------------------------

  lemma FirstLooseChunk(body: LooseBody)
    requires body.chunks != []
    ensures LooseText(body) == LooseChunkText(body.chunks[0]) + LooseText(body.(chunks := body.chunks[1..]))
  {
    var rest := body.(chunks := body.chunks[1..]);
    Associates(LooseChunkText(body.chunks[0]), LooseChunksText(rest.chunks), body.last + (LinesText(body.trailers) + body.end));
  }

  lemma WithOneMoreChunk(c: LooseChunk, rest: LooseBody, skipped: nat, gone: nat) returns (body: LooseBody)
    requires IsLooseChunk(c) && Tolerated(rest, gone) && gone == skipped + |c.data| <= MAX_BODY_BYTES
    ensures Tolerated(body, skipped)
    ensures LooseText(body) == LooseChunkText(c) + LooseText(rest)
  {
    body := rest.(chunks := [c] + rest.chunks);
    assert body.chunks[1..] == rest.chunks && rest == body.(chunks := rest.chunks);
    FirstLooseChunk(body);
    assert forall x :: x in body.chunks <==> x == c || x in rest.chunks;
  }

  lemma LastIsLetBy(bytes: seq<Byte>, at: nat, skipped: nat, end: nat) returns (body: LooseBody)
    requires at <= |bytes| && ReadSize(bytes, at) == Some(Announced(end, 0)) && SkipTrailers(bytes, end).Some?
    ensures Tolerated(body, skipped) && At(bytes, at, LooseText(body))
    ensures SkipTrailers(bytes, end) == Some(at + |LooseText(body)|)
  {
    NothingIsLetByAtTheEnd(bytes);
    ReadLineIsSized(bytes, at, end, 0);
    var lines, last := TrailersLetBy(bytes, end);
    body := LooseBody([], bytes[at..end], lines, last);
    assert LooseText(body) == bytes[at..end] + (LinesText(lines) + last);
    AtJoins(bytes, at, bytes[at..end], LinesText(lines) + last);
  }

  lemma GoesOnPastData(bytes: seq<Byte>, at: nat, skipped: nat, end: nat, size: nat, next: nat)
    requires at <= |bytes| && SkipFrom(bytes, at, skipped).Some? && size > 0 && next == end + size + 2
    requires ReadSize(bytes, at) == Some(Announced(end, size))
    ensures skipped + size <= MAX_BODY_BYTES && At(bytes, end + size, CRLF)
    ensures SkipFrom(bytes, at, skipped) == SkipFrom(bytes, next, skipped + size)
  {
  }

  /** The chunk that stands between two places of a stream the skipper goes on through. */
  lemma ChunkIsLetBy(bytes: seq<Byte>, at: nat, end: nat, size: nat, next: nat) returns (c: LooseChunk)
    requires at <= |bytes| && size > 0 && next == end + size + 2 && At(bytes, end + size, CRLF)
    requires ReadSize(bytes, at) == Some(Announced(end, size))
    ensures IsLooseChunk(c) && |c.data| == size
    ensures At(bytes, at, LooseChunkText(c)) && next == at + |LooseChunkText(c)|
  {
    ReadLineIsSized(bytes, at, end, size);
    c := LooseChunk(bytes[at..end], bytes[end..end + size]);
    AtJoins(bytes, end, c.data, CRLF);
    AtJoins(bytes, at, c.line, c.data + CRLF);
  }

  lemma ChunkThenTheRest(bytes: seq<Byte>, at: nat, c: LooseChunk, next: nat, rest: LooseBody, skipped: nat, gone: nat, end: nat)
    returns (body: LooseBody)
    requires IsLooseChunk(c) && Tolerated(rest, gone) && gone == skipped + |c.data| <= MAX_BODY_BYTES
    requires At(bytes, at, LooseChunkText(c)) && next == at + |LooseChunkText(c)|
    requires At(bytes, next, LooseText(rest)) && end == next + |LooseText(rest)|
    ensures Tolerated(body, skipped) && At(bytes, at, LooseText(body)) && end == at + |LooseText(body)|
  {
    body := WithOneMoreChunk(c, rest, skipped, gone);
    AtJoins(bytes, at, LooseChunkText(c), LooseText(rest));
  }

  /** Whatever is let by is of that grammar. */
  lemma {:induction false} OnlyToleratedIsLetBy(bytes: seq<Byte>, at: nat, skipped: nat, end: nat) returns (body: LooseBody)
    requires at <= |bytes| && SkipFrom(bytes, at, skipped) == Some(end)
    ensures Tolerated(body, skipped) && At(bytes, at, LooseText(body)) && end == at + |LooseText(body)|
    decreases |bytes| - at
  {
    var Announced(line, size) := ReadSize(bytes, at).value;
    if size == 0 {
      body := LastIsLetBy(bytes, at, skipped, line);
    } else {
      var next, gone := line + size + 2, skipped + size;
      GoesOnPastData(bytes, at, skipped, line, size, next);
      var c := ChunkIsLetBy(bytes, at, line, size, next);
      var rest := OnlyToleratedIsLetBy(bytes, next, gone, end);
      body := ChunkThenTheRest(bytes, at, c, next, rest, skipped, gone, end);
    }
  }

  lemma LastGoesBy(bytes: seq<Byte>, at: nat, skipped: nat, body: LooseBody)
    requires Tolerated(body, skipped) && At(bytes, at, LooseText(body)) && body.chunks == []
    ensures SkipFrom(bytes, at, skipped) == Some(at + |LooseText(body)|)
  {
    assert LooseText(body) == body.last + (LinesText(body.trailers) + body.end);
    AtSplits(bytes, at, body.last, LinesText(body.trailers) + body.end);
    SizedLineIsRead(bytes, at, body.last, 0);
    TrailersGoBy(bytes, at + |body.last|, body.trailers, body.end, at + |LooseText(body)|);
  }

  lemma OneChunkGoesBy(bytes: seq<Byte>, at: nat, skipped: nat, c: LooseChunk, next: nat, gone: nat)
    requires IsLooseChunk(c) && At(bytes, at, LooseChunkText(c)) && next == at + |LooseChunkText(c)|
    requires gone == skipped + |c.data| <= MAX_BODY_BYTES
    ensures SkipFrom(bytes, at, skipped) == SkipFrom(bytes, next, gone)
  {
    AtSplits(bytes, at, c.line, c.data + CRLF);
    AtSplits(bytes, at + |c.line|, c.data, CRLF);
    SizedLineIsRead(bytes, at, c.line, |c.data|);
    ChunkIsSkipped(bytes, at, skipped, |c.data|, at + |c.line|, next, gone);
  }

  lemma FirstGoesBy(bytes: seq<Byte>, at: nat, skipped: nat, body: LooseBody, end: nat)
    returns (rest: LooseBody, next: nat, gone: nat)
    requires Tolerated(body, skipped) && At(bytes, at, LooseText(body)) && body.chunks != []
    requires end == at + |LooseText(body)|
    ensures |rest.chunks| < |body.chunks| && Tolerated(rest, gone)
    ensures At(bytes, next, LooseText(rest)) && end == next + |LooseText(rest)|
    ensures SkipFrom(bytes, at, skipped) == SkipFrom(bytes, next, gone)
  {
    var c := body.chunks[0];
    rest, next, gone := body.(chunks := body.chunks[1..]), at + |LooseChunkText(c)|, skipped + |c.data|;
    assert c in body.chunks && LooseData(body.chunks) == |c.data| + LooseData(rest.chunks);
    FirstLooseChunk(body);
    AtSplits(bytes, at, LooseChunkText(c), LooseText(rest));
    OneChunkGoesBy(bytes, at, skipped, c, next, gone);
  }

  /** And all of that grammar is let by. */
  lemma {:induction false} ToleratedIsLetBy(bytes: seq<Byte>, at: nat, skipped: nat, body: LooseBody, end: nat)
    requires Tolerated(body, skipped) && At(bytes, at, LooseText(body)) && end == at + |LooseText(body)|
    ensures SkipFrom(bytes, at, skipped) == Some(end)
    decreases |body.chunks|
  {
    if body.chunks == [] {
      LastGoesBy(bytes, at, skipped, body);
    } else {
      var rest, next, gone := FirstGoesBy(bytes, at, skipped, body, end);
      ToleratedIsLetBy(bytes, next, gone, rest, end);
    }
  }

  /** From any place of any stream, the skipper succeeds if and only if a body of that grammar stands
      there, and then it stops exactly after it. */
  lemma SkippedExactly(bytes: seq<Byte>, at: nat, end: nat)
    requires at <= |bytes|
    ensures SkipFrom(bytes, at, 0) == Some(end) <==>
      exists body :: Tolerated(body, 0) && At(bytes, at, LooseText(body)) && end == at + |LooseText(body)|
  {
    if SkipFrom(bytes, at, 0) == Some(end) {
      var body := OnlyToleratedIsLetBy(bytes, at, 0, end);
      assert Tolerated(body, 0);
    }
    if body :| Tolerated(body, 0) && At(bytes, at, LooseText(body)) && end == at + |LooseText(body)| {
      ToleratedIsLetBy(bytes, at, 0, body, end);
    }
  }
}
