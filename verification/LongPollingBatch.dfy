/**
 The multipart body that carries several long-polling samples: the printer, the parser, and the
 functions of the text they are proved against.
 */
module LongPollingBatch {
  import opened Wrappers
  import opened Text

  const BOUNDARY: string := "opencmw-long-polling-multipart-boundary"
  const INDEX_HEADER: string := "x-opencmw-long-polling-idx: "
  const TOPIC_HEADER: string := "x-opencmw-topic: "
  const SERVICE_HEADER: string := "x-opencmw-service-name: "
  const LENGTH_HEADER: string := "content-length: "

  datatype BatchPart = BatchPart(index: u64, topic: string, serviceName: string, payload: string)

  datatype BatchError =
    | MissingBoundary
    | InvalidBoundaryLength
    | DataAfterFinalBoundary
    | IncompleteHeaders
    | MalformedIndex(text: string)
    | MalformedContentLength(text: string)
    | MissingHeader
    | PayloadTooShort
    | NonConsecutiveIndices
    | PayloadNotFollowedByBoundary
    | MissingFinalBoundary
    | LineBreakInName

  function ParseUnsigned(value: string, error: BatchError): Result<u64, BatchError> {
    var parsed := ParseU64(value);
    if parsed.Some? then Ok(parsed.value) else Err(error)
  }

  // ----- printing ------------------------------------------------------------------------

  predicate OneLine(s: string) {
    '\r' !in s && '\n' !in s
  }

  predicate Printable(parts: seq<BatchPart>) {
    forall part | part in parts :: OneLine(part.topic) && OneLine(part.serviceName)
  }

  function PartText(part: BatchPart): string {
    "--" + BOUNDARY + CRLF
    + INDEX_HEADER + ToDecimal(part.index) + CRLF
    + TOPIC_HEADER + part.topic + CRLF
    + SERVICE_HEADER + part.serviceName + CRLF
    + LENGTH_HEADER + ToDecimal(|part.payload|) + CRLF + CRLF
    + part.payload + CRLF
  }

  function PartTexts(parts: seq<BatchPart>): seq<string> {
    seq(|parts|, i requires 0 <= i < |parts| => PartText(parts[i]))
  }

  function Concat(texts: seq<string>): string {
    if texts == [] then "" else Concat(texts[..|texts| - 1]) + texts[|texts| - 1]
  }

  /** The body of a batch: its parts and the closing boundary. */
  function Encoded(parts: seq<BatchPart>): string {
    Concat(PartTexts(parts)) + ("--" + BOUNDARY + "--" + CRLF)
  }

  method ConcatParts(parts: seq<BatchPart>) returns (body: string)
    ensures body == Concat(PartTexts(parts))
  {
    body := "";
    ghost var texts := PartTexts(parts);
    for i := 0 to |parts|
      invariant body == Concat(texts[..i])
    {
      body := body + PartText(parts[i]);
      assert texts[..i + 1][..i] == texts[..i];
    }
    assert texts[..|parts|] == texts;
  }

  method EncodeBatch(parts: seq<BatchPart>) returns (r: Result<string, BatchError>)
    ensures r == if Printable(parts) then Ok(Encoded(parts)) else Err(LineBreakInName)
  {
    for i := 0 to |parts|
      invariant Printable(parts[..i])
    {
      if !OneLine(parts[i].topic) || !OneLine(parts[i].serviceName) {
        assert parts[i] in parts;
        return Err(LineBreakInName);
      }
    }
    assert parts[..|parts|] == parts;
    var body := ConcatParts(parts);
    r := Ok(body + ("--" + BOUNDARY + "--" + CRLF));
  }

  // ----- parsing, as functions of the text that is left -----------------------------------

  datatype Headers = Headers(
    index: Option<u64>,
    topic: Option<string>,
    serviceName: Option<string>,
    contentLength: Option<u64>)

  const NO_HEADERS := Headers(None, None, None, None)

  function ReadLine(h: Headers, line: string): Result<Headers, BatchError> {
    if INDEX_HEADER <= line then
      var text := line[|INDEX_HEADER|..];
      var index :- ParseUnsigned(text, MalformedIndex(text));
      Ok(h.(index := Some(index)))
    else if TOPIC_HEADER <= line then
      Ok(h.(topic := Some(line[|TOPIC_HEADER|..])))
    else if SERVICE_HEADER <= line then
      Ok(h.(serviceName := Some(line[|SERVICE_HEADER|..])))
    else if LENGTH_HEADER <= line then
      var text := line[|LENGTH_HEADER|..];
      var length :- ParseUnsigned(text, MalformedContentLength(text));
      Ok(h.(contentLength := Some(length)))
    else
      Ok(h)
  }

  function FirstLineEnd(block: string): (end: nat)
    ensures end <= |block|
  {
    var found := Find(block, CRLF);
    if found.Some? then found.value else |block|
  }

  /** Reads the lines of a block one after the other, until one of them is refused. */
  function FoldLines<H>(block: string, h: H, read: (H, string) -> Result<H, BatchError>): Result<H, BatchError>
    decreases |block|
  {
    if block == "" then Ok(h)
    else
      var end := FirstLineEnd(block);
      var h' :- read(h, block[..end]);
      if end + 2 >= |block| then Ok(h') else FoldLines(block[end + 2..], h', read)
  }

  predicate Follows(parts: seq<BatchPart>, index: u64) {
    parts == [] || index == parts[|parts| - 1].index + 1
  }

  /** The payload of a part whose headers are `h`; returns the part and the text behind it. */
  function DecodePayload(h: Headers, text: string, parts: seq<BatchPart>)
    : (r: Result<(BatchPart, string), BatchError>)
    ensures r.Ok? ==> |r.value.1| < |text|
  {
    if h.index.None? || h.topic.None? || h.serviceName.None? || h.contentLength.None? then
      Err(MissingHeader)
    else
      var length := h.contentLength.value;
      if length > |text| then Err(PayloadTooShort)
      else if !Follows(parts, h.index.value) then Err(NonConsecutiveIndices)
      else if !(CRLF <= text[length..]) then Err(PayloadNotFollowedByBoundary)
      else
        Ok((BatchPart(h.index.value, h.topic.value, h.serviceName.value, text[..length]),
            text[length + 2..]))
  }

  /** One part behind its boundary line. */
  function DecodePart(text: string, parts: seq<BatchPart>): (r: Result<(BatchPart, string), BatchError>)
    ensures r.Ok? ==> |r.value.1| < |text|
  {
    var headerEnd := Find(text, CRLF + CRLF);
    if headerEnd.None? then Err(IncompleteHeaders)
    else
      var h :- FoldLines(text[..headerEnd.value], NO_HEADERS, ReadLine);
      DecodePayload(h, text[headerEnd.value + 4..], parts)
  }

  function DecodeParts(text: string, boundary: string, parts: seq<BatchPart>): Result<seq<BatchPart>, BatchError>
    decreases |text|
  {
    if text == "" then Err(MissingFinalBoundary)
    else if boundary + "--" + CRLF <= text then
      if |text| == |boundary + "--" + CRLF| then Ok(parts)
      else Err(DataAfterFinalBoundary)
    else if !(boundary + CRLF <= text) then Err(MissingBoundary)
    else
      var (part, rest) :- DecodePart(text[|boundary + CRLF|..], parts);
      DecodeParts(rest, boundary, parts + [part])
  }

  function Decode(body: string): Result<seq<BatchPart>, BatchError> {
    var boundaryEnd := Find(body, CRLF);
    if boundaryEnd.None? || !("--" <= body) then Err(MissingBoundary)
    else if boundaryEnd.value <= 2 || boundaryEnd.value > 72 then
      Err(InvalidBoundaryLength)
    else
      DecodeParts(body, body[..boundaryEnd.value], [])
  }

  // ----- the parser -----------------------------------------------------------------------

  /** Searching the body for the end of a header line cannot run past the header block. */
  lemma LineEndsInBlock(block: string, behind: string)
    requires CRLF <= behind
    ensures Find(block + behind, CRLF).Some?
    ensures var end := Find(block + behind, CRLF).value;
            FirstLineEnd(block) == if end < |block| then end else |block|
  {
    var text := block + behind;
    assert text[|block|..|block| + 2] == CRLF;
    assert OccursAt(text, CRLF, |block|);
    FindIsFirst(text, CRLF);
    FindIsFirst(block, CRLF);
    if Find(block, CRLF).Some? {
      FindAppend(block, CRLF, behind);
    } else {
      forall i | 0 <= i < |block| ensures !OccursAt(text, CRLF, i) {
        assert !OccursAt(block, CRLF, i);
        if i + 2 <= |block| {
          assert text[i..i + 2] == block[i..i + 2];
        } else {
          assert text[i..i + 2][1] == behind[0] == '\r';
        }
      }
    }
  }

  /** What the header loop still has to read; behind the last line break that may be nothing. */
  function LinesFrom<H>(body: string, position: nat, headerEnd: nat,
                        h: H, read: (H, string) -> Result<H, BatchError>): Result<H, BatchError>
    requires headerEnd <= |body|
  {
    if position < headerEnd then FoldLines(body[position..headerEnd], h, read) else Ok(h)
  }

  /** One turn of the header loop, in positions of the body. */
  lemma FoldFirstLine<H>(body: string, position: nat, headerEnd: nat,
                         h: H, read: (H, string) -> Result<H, BatchError>)
    requires position < headerEnd <= |body| && CRLF <= body[headerEnd..]
    ensures Find(body[position..], CRLF).Some?
    ensures var lineEnd := position + Find(body[position..], CRLF).value;
            var end := if lineEnd < headerEnd then lineEnd else headerEnd;
            var next := read(h, body[position..end]);
            FoldLines(body[position..headerEnd], h, read) ==
            if next.Err? then Err(next.error) else LinesFrom(body, end + 2, headerEnd, next.value, read)
  {
    var block := body[position..headerEnd];
    assert body[position..] == block + body[headerEnd..];
    LineEndsInBlock(block, body[headerEnd..]);
    var end := FirstLineEnd(block);
    assert body[position..position + end] == block[..end];
    if end + 2 < |block| {
      assert body[position + end + 2..headerEnd] == block[end + 2..];
    }
  }

  method ReadHeaderBlock<H>(body: string, position: nat, headerEnd: nat,
                            initial: H, read: (H, string) -> Result<H, BatchError>)
    returns (r: Result<H, BatchError>)
    requires position <= headerEnd <= |body| && CRLF <= body[headerEnd..]
    ensures r == FoldLines(body[position..headerEnd], initial, read)
  {
    var h := initial;
    var headerPosition := position;
    while headerPosition < headerEnd
      invariant position <= headerPosition
      invariant LinesFrom(body, headerPosition, headerEnd, h, read) == FoldLines(body[position..headerEnd], initial, read)
      decreases headerEnd - headerPosition
    {
      var next, end := ReadHeaderLine(body, headerPosition, headerEnd, h, read);
      if next.Err? {
        return Err(next.error);
      }
      h := next.value;
      headerPosition := end + 2;
    }
    r := Ok(h);
  }

  method ReadHeaderLine<H>(body: string, position: nat, headerEnd: nat,
                           h: H, read: (H, string) -> Result<H, BatchError>)
    returns (next: Result<H, BatchError>, end: nat)
    requires position < headerEnd <= |body| && CRLF <= body[headerEnd..]
    ensures position <= end <= headerEnd
    ensures LinesFrom(body, position, headerEnd, h, read) ==
            if next.Err? then Err(next.error) else LinesFrom(body, end + 2, headerEnd, next.value, read)
  {
    FoldFirstLine(body, position, headerEnd, h, read);
    var lineEnd := position + Find(body[position..], CRLF).value;
    end := if lineEnd < headerEnd then lineEnd else headerEnd;
    next := read(h, body[position..end]);
  }

  lemma OccursFirst(text: string, at: nat, a: string, b: string)
    requires OccursAt(text, a + b, at)
    ensures at <= |text| && a <= text[at..]
  {
    assert text[at..at + |a|] == text[at..at + |a + b|][..|a|] == (a + b)[..|a|] == a;
    assert text[at..][..|a|] == text[at..at + |a|];
  }

  lemma HeadersEnd(body: string, position: nat, length: nat, lineBreak: string)
    requires position <= |body| && OccursAt(body[position..], lineBreak + lineBreak, length)
    ensures position + length <= |body| && lineBreak <= body[position + length..]
    ensures body[position..position + length] == body[position..][..length]
  {
    OccursFirst(body[position..], length, lineBreak, lineBreak);
    Drop(body, position, position + length);
  }

  lemma FoundBlock(body: string, position: nat, length: nat)
    requires position <= |body| && Find(body[position..], CRLF + CRLF) == Some(length)
    ensures position + length <= |body| && CRLF <= body[position + length..]
    ensures body[position..position + length] == body[position..][..length]
  {
    FindOccurs(body[position..], CRLF + CRLF);
    HeadersEnd(body, position, length, CRLF);
  }

  method ReadSlice(body: string, position: nat, length: nat, ghost block: string)
    returns (r: Result<Headers, BatchError>)
    requires position + length <= |body| && CRLF <= body[position + length..]
    requires block == body[position..position + length]
    ensures r == FoldLines(block, NO_HEADERS, ReadLine)
  {
    r := ReadHeaderBlock(body, position, position + length, NO_HEADERS, ReadLine);
  }

  method ReadPartHeaders(body: string, position: nat, length: nat) returns (r: Result<Headers, BatchError>)
    requires position <= |body| && Find(body[position..], CRLF + CRLF) == Some(length)
    ensures r == FoldLines(body[position..][..length], NO_HEADERS, ReadLine)
  {
    FoundBlock(body, position, length);
    r := ReadSlice(body, position, length, body[position..][..length]);
  }

  /** The checks behind the headers; returns the part and where the text goes on. */
  method ReadPayload(body: string, position: nat, h: Headers, parts: seq<BatchPart>)
    returns (r: Result<(BatchPart, nat), BatchError>)
    requires position <= |body|
    ensures r.Ok? ==> position < r.value.1 <= |body|
    ensures DecodePayload(h, body[position..], parts) ==
            if r.Ok? then Ok((r.value.0, body[r.value.1..])) else Err(r.error)
  {
    if h.index.None? || h.topic.None? || h.serviceName.None? || h.contentLength.None? {
      return Err(MissingHeader);
    }
    if h.contentLength.value > |body| - position {
      return Err(PayloadTooShort);
    }
    if parts != [] && (parts[|parts| - 1].index == U64_LIMIT - 1
                       || h.index.value != parts[|parts| - 1].index + 1) {
      return Err(NonConsecutiveIndices);
    }
    var payloadSize := h.contentLength.value;
    var payload := body[position..position + payloadSize];
    assert payload == body[position..][..payloadSize];
    Drop(body, position, position + payloadSize);
    if !(CRLF <= body[position + payloadSize..]) {
      return Err(PayloadNotFollowedByBoundary);
    }
    Drop(body, position, position + payloadSize + 2);
    var part := BatchPart(h.index.value, h.topic.value, h.serviceName.value, payload);
    r := Ok((part, position + payloadSize + 2));
  }

  /** The loop body behind the boundary line; returns the part and where the text goes on. */
  method ReadPart(body: string, start: nat, parts: seq<BatchPart>) returns (r: Result<(BatchPart, nat), BatchError>)
    requires start <= |body|
    ensures r.Ok? ==> start < r.value.1 <= |body|
    ensures DecodePart(body[start..], parts) ==
            if r.Ok? then Ok((r.value.0, body[r.value.1..])) else Err(r.error)
  {
    var headerEnd := Find(body[start..], CRLF + CRLF);
    if headerEnd.None? {
      return Err(IncompleteHeaders);
    }
    var h := ReadPartHeaders(body, start, headerEnd.value);
    if h.Err? {
      return Err(h.error);
    }
    var position := start + headerEnd.value + 4;
    assert DecodePart(body[start..], parts) == DecodePayload(h.value, body[position..], parts) by {
      Drop(body, start, position);
    }
    r := ReadPayload(body, position, h.value, parts);
  }

  method DecodeBatch(body: string) returns (r: Result<seq<BatchPart>, BatchError>)
    ensures r == Decode(body)
  {
    var boundaryEnd := Find(body, CRLF);
    if boundaryEnd.None? || !("--" <= body) {
      return Err(MissingBoundary);
    }
    var boundary := body[..boundaryEnd.value];
    if |boundary| <= 2 || |boundary| > 72 {
      return Err(InvalidBoundaryLength);
    }
    var partBoundary := boundary + CRLF;
    var finalBoundary := boundary + "--" + CRLF;
    var parts: seq<BatchPart> := [];
    var position := 0;
    assert body[0..] == body;
    while position < |body|
      invariant 0 <= position <= |body|
      invariant DecodeParts(body[position..], boundary, parts) == DecodeParts(body, boundary, [])
      decreases |body| - position
    {
      ghost var text := body[position..];
      if finalBoundary <= body[position..] {
        position := position + |finalBoundary|;
        if position != |body| {
          return Err(DataAfterFinalBoundary);
        }
        return Ok(parts);
      }
      if !(partBoundary <= body[position..]) {
        return Err(MissingBoundary);
      }
      position := position + |partBoundary|;
      assert body[position..] == text[|partBoundary|..];
      var step := ReadPart(body, position, parts);
      if step.Err? {
        return Err(step.error);
      }
      parts := parts + [step.value.0];
      position := step.value.1;
    }
    assert body[position..] == "";
    r := Err(MissingFinalBoundary);
  }
}
