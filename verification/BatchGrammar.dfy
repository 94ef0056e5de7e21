/**
 The language of multipart batches, written as a grammar, and the proofs that the parser
 accepts exactly that language, that the language is prefix-free, and that printing a batch and
 parsing it gives the batch back.
 */
module BatchGrammar {
  import opened Wrappers
  import opened Text
  import opened LongPollingBatch

  datatype Block = Block(header: string, payload: string)

  function BlockText(block: Block): string {
    block.header + (CRLF + CRLF) + (block.payload + CRLF)
  }

  /** Every block behind a boundary line, then the closing boundary line. */
  function Render(boundary: string, blocks: seq<Block>): string {
    if blocks == [] then boundary + "--" + CRLF
    else boundary + CRLF + (BlockText(blocks[0]) + Render(boundary, blocks[1..]))
  }

  /** A block stands for a part: its header lines end where it does, and name the part's fields. */
  predicate ReadsAs(block: Block, part: BatchPart) {
    && Find(block.header + (CRLF + CRLF), CRLF + CRLF) == Some(|block.header|)
    && |block.payload| < U64_LIMIT
    && FoldLines(block.header, NO_HEADERS, ReadLine)
       == Ok(Headers(Some(part.index), Some(part.topic), Some(part.serviceName), Some(|block.payload|)))
    && part.payload == block.payload
  }

  predicate ReadAs(blocks: seq<Block>, parts: seq<BatchPart>) {
    |blocks| == |parts| && forall i | 0 <= i < |blocks| :: ReadsAs(blocks[i], parts[i])
  }

  predicate Consecutive(parts: seq<BatchPart>) {
    forall i | 0 < i < |parts| :: parts[i].index == parts[i - 1].index + 1
  }

  /** Section 5.1.1 of RFC 2046 allows 70 characters behind the two dashes. */
  predicate BoundaryLine(boundary: string) {
    "--" <= boundary && 2 < |boundary| <= 72 && Find(boundary + CRLF, CRLF) == Some(|boundary|)
  }

  ghost predicate Batch(body: string, boundary: string, blocks: seq<Block>, parts: seq<BatchPart>) {
    && BoundaryLine(boundary)
    && blocks != [] && ReadAs(blocks, parts) && Consecutive(parts)
    && body == Render(boundary, blocks)
  }

  // ----- reading what the grammar generates ------------------------------------------------

  lemma DecodeBlock(block: Block, part: BatchPart, behind: string, done: seq<BatchPart>)
    requires ReadsAs(block, part)
    ensures DecodePart(BlockText(block) + behind, done) ==
            if Follows(done, part.index) then Ok((part, behind)) else Err(NonConsecutiveIndices)
  {
    var text := BlockText(block) + behind;
    var rest := block.payload + CRLF + behind;
    assert Find(text, CRLF + CRLF) == Some(|block.header|) by {
      assert text == block.header + (CRLF + CRLF) + rest;
      FindAppend(block.header + (CRLF + CRLF), CRLF + CRLF, rest);
    }
    assert text[..|block.header|] == block.header;
    assert text[|block.header| + 4..] == rest;
    PayloadSlices(block.payload, behind);
  }

  lemma PayloadSlices(payload: string, behind: string)
    ensures var rest := payload + CRLF + behind;
            && rest[..|payload|] == payload && rest[|payload|..] == CRLF + behind
            && rest[|payload| + 2..] == behind
  {
  }

  lemma DecodeClosing(boundary: string, tail: string, done: seq<BatchPart>)
    ensures DecodeParts(Render(boundary, []) + tail, boundary, done) ==
            if tail == "" then Ok(done) else Err(DataAfterFinalBoundary)
  {
    var closing := boundary + "--" + CRLF;
    assert closing <= closing + tail;
  }

  lemma DecodeOpening(boundary: string, behind: string, done: seq<BatchPart>)
    ensures DecodeParts(boundary + CRLF + behind, boundary, done) ==
            var step := DecodePart(behind, done);
            if step.Err? then Err(step.error)
            else DecodeParts(step.value.1, boundary, done + [step.value.0])
  {
    var text := boundary + CRLF + behind;
    assert text[|boundary|] == '\r';
    assert !(boundary + "--" + CRLF <= text) by {
      assert (boundary + "--" + CRLF)[|boundary|] == '-';
    }
    assert boundary + CRLF <= text;
    assert text[|boundary + CRLF|..] == behind;
  }

  lemma ConsecutiveExtends(done: seq<BatchPart>, parts: seq<BatchPart>)
    requires Consecutive(done) && parts != []
    ensures Follows(done, parts[0].index) ==> Consecutive(done + [parts[0]])
    ensures Consecutive(done + parts) ==> Follows(done, parts[0].index)
    ensures done + [parts[0]] + parts[1..] == done + parts
  {
    if done != [] {
      assert (done + parts)[|done|] == parts[0] && (done + parts)[|done| - 1] == done[|done| - 1];
    }
  }

  lemma {:induction false} DecodeRendered(boundary: string, blocks: seq<Block>, parts: seq<BatchPart>,
                                          tail: string, done: seq<BatchPart>)
    requires ReadAs(blocks, parts) && Consecutive(done)
    ensures DecodeParts(Render(boundary, blocks) + tail, boundary, done) ==
            if !Consecutive(done + parts) then Err(NonConsecutiveIndices)
            else if tail == "" then Ok(done + parts)
            else Err(DataAfterFinalBoundary)
    decreases |blocks|
  {
    if blocks == [] {
      assert done + parts == done;
      DecodeClosing(boundary, tail, done);
    } else {
      var behind := Render(boundary, blocks[1..]) + tail;
      var text := BlockText(blocks[0]) + behind;
      assert Render(boundary, blocks) + tail == boundary + CRLF + text;
      DecodeOpening(boundary, text, done);
      DecodeBlock(blocks[0], parts[0], behind, done);
      ConsecutiveExtends(done, parts);
      if Follows(done, parts[0].index) {
        DecodeRendered(boundary, blocks[1..], parts[1..], tail, done + [parts[0]]);
      }
    }
  }

  /** The boundary the parser picks up from the first line is the one the text was framed with. */
  lemma FirstLineIsBoundary(boundary: string, blocks: seq<Block>, tail: string)
    requires BoundaryLine(boundary) && blocks != []
    ensures var body := Render(boundary, blocks) + tail;
            && "--" <= body
            && Find(body, CRLF) == Some(|boundary|)
            && body[..|boundary|] == boundary
  {
    var behind := BlockText(blocks[0]) + Render(boundary, blocks[1..]) + tail;
    assert Render(boundary, blocks) + tail == boundary + CRLF + behind;
    FindAppend(boundary + CRLF, CRLF, behind);
  }

  lemma DecodeFramed(boundary: string, blocks: seq<Block>, parts: seq<BatchPart>, tail: string)
    requires BoundaryLine(boundary) && blocks != [] && ReadAs(blocks, parts)
    ensures Decode(Render(boundary, blocks) + tail) ==
            if !Consecutive(parts) then Err(NonConsecutiveIndices)
            else if tail == "" then Ok(parts)
            else Err(DataAfterFinalBoundary)
  {
    FirstLineIsBoundary(boundary, blocks, tail);
    DecodeRendered(boundary, blocks, parts, tail, []);
    assert [] + parts == parts;
  }

  // ----- everything accepted is generated by the grammar ----------------------------------

  lemma PayloadIsFramed(h: Headers, text: string, done: seq<BatchPart>)
    requires DecodePayload(h, text, done).Ok?
    ensures var (part, rest) := DecodePayload(h, text, done).value;
            && |part.payload| < U64_LIMIT
            && h == Headers(Some(part.index), Some(part.topic), Some(part.serviceName), Some(|part.payload|))
            && Follows(done, part.index)
            && text == part.payload + CRLF + rest
  {
    var length := h.contentLength.value;
    assert text[length..][..2] == CRLF;
    assert text == text[..length] + CRLF + text[length + 2..];
  }

  lemma PartIsBlock(text: string, done: seq<BatchPart>) returns (block: Block)
    requires DecodePart(text, done).Ok?
    ensures var (part, rest) := DecodePart(text, done).value;
            && ReadsAs(block, part)
            && Follows(done, part.index)
            && text == BlockText(block) + rest
  {
    var end := Find(text, CRLF + CRLF).value;
    FindSplits(text, CRLF + CRLF);
    var header, behind := text[..end], text[end + 4..];
    var h := FoldLines(header, NO_HEADERS, ReadLine).value;
    PayloadIsFramed(h, behind, done);
    var (part, rest) := DecodePayload(h, behind, done).value;
    block := Block(header, part.payload);
    assert header + (CRLF + CRLF) + behind == BlockText(block) + rest;
  }

  lemma AcceptedStart(text: string, boundary: string, done: seq<BatchPart>)
    requires DecodeParts(text, boundary, done).Ok?
    ensures if boundary + "--" + CRLF <= text then text == Render(boundary, []) && DecodeParts(text, boundary, done) == Ok(done)
            else boundary + CRLF <= text && text == boundary + CRLF + text[|boundary + CRLF|..]
  {
  }

  lemma PrependBlock(boundary: string, block: Block, part: BatchPart,
                     blocks: seq<Block>, parts: seq<BatchPart>, done: seq<BatchPart>)
    requires ReadsAs(block, part) && ReadAs(blocks, parts)
    ensures ReadAs([block] + blocks, [part] + parts)
    ensures Render(boundary, [block] + blocks) ==
            boundary + CRLF + (BlockText(block) + Render(boundary, blocks))
    ensures done + [part] + parts == done + ([part] + parts)
  {
    assert ([block] + blocks)[1..] == blocks;
  }

  lemma {:induction false} AcceptedIsRendered(text: string, boundary: string, done: seq<BatchPart>)
    returns (blocks: seq<Block>, parts: seq<BatchPart>)
    requires DecodeParts(text, boundary, done).Ok? && Consecutive(done)
    ensures text == Render(boundary, blocks)
    ensures ReadAs(blocks, parts)
    ensures DecodeParts(text, boundary, done) == Ok(done + parts)
    ensures Consecutive(done + parts)
    decreases |text|
  {
    AcceptedStart(text, boundary, done);
    if boundary + "--" + CRLF <= text {
      blocks, parts := [], [];
      assert done + parts == done;
    } else {
      var behind := text[|boundary + CRLF|..];
      DecodeOpening(boundary, behind, done);
      var (part, rest) := DecodePart(behind, done).value;
      var block := PartIsBlock(behind, done);
      ConsecutiveExtends(done, [part]);
      blocks, parts := AcceptedIsRendered(rest, boundary, done + [part]);
      PrependBlock(boundary, block, part, blocks, parts, done);
      blocks, parts := [block] + blocks, [part] + parts;
    }
  }

  /** The parser accepts a body with these parts exactly when the grammar generates it with them. */
  lemma DecodeAcceptsGrammar(body: string, parts: seq<BatchPart>)
    ensures Decode(body) == Ok(parts) <==> exists boundary, blocks :: Batch(body, boundary, blocks, parts)
  {
    if Decode(body) == Ok(parts) {
      var boundary := body[..Find(body, CRLF).value];
      var blocks := AcceptedIsBatch(body, parts);
      assert Batch(body, boundary, blocks, parts);
    }
    forall boundary, blocks | Batch(body, boundary, blocks, parts) ensures Decode(body) == Ok(parts) {
      DecodeFramed(boundary, blocks, parts, "");
      assert body + "" == body;
    }
  }

  lemma AcceptedIsBatch(body: string, parts: seq<BatchPart>) returns (blocks: seq<Block>)
    requires Decode(body) == Ok(parts)
    ensures Batch(body, body[..Find(body, CRLF).value], blocks, parts)
  {
    var end := Find(body, CRLF).value;
    var boundary := body[..end];
    FindSplits(body, CRLF);
    assert BoundaryLine(boundary);
    var parts';
    blocks, parts' := AcceptedIsRendered(body, boundary, []);
    assert [] + parts' == parts';
    assert body[end] == '\r';
    assert Render(boundary, [])[end] == '-';
  }

  /**
   An accepted body yields at least one part, with consecutive indices: what the clients rely on
   when they look at the last part, or add one to the last delivered index, unchecked.
   */
  lemma AcceptedIsConsecutive(body: string)
    requires Decode(body).Ok?
    ensures Decode(body).value != [] && Consecutive(Decode(body).value)
  {
    var blocks := AcceptedIsBatch(body, Decode(body).value);
  }

  /** Every proper extension of an accepted body is rejected. */
  lemma ExtensionIsRejected(body: string, tail: string)
    requires Decode(body).Ok? && tail != ""
    ensures Decode(body + tail) == Err(DataAfterFinalBoundary)
  {
    var parts := Decode(body).value;
    var blocks := AcceptedIsBatch(body, parts);
    DecodeFramed(body[..Find(body, CRLF).value], blocks, parts, tail);
  }

  /** The accepted language is prefix-free, so a truncated body is never taken for a whole one. */
  lemma AcceptedIsPrefixFree(shorter: string, longer: string)
    requires shorter <= longer && Decode(shorter).Ok? && Decode(longer).Ok?
    ensures shorter == longer
  {
    var tail := longer[|shorter|..];
    assert longer == shorter + tail;
    if tail != "" {
      ExtensionIsRejected(shorter, tail);
    }
  }

  // ----- the round trip -------------------------------------------------------------------

  /** Header lines joined by line breaks, without one behind the last. */
  function Join(lines: seq<string>): string
    requires lines != []
  {
    if |lines| == 1 then lines[0] else lines[0] + CRLF + Join(lines[1..])
  }

  predicate Lines(lines: seq<string>) {
    lines != [] && forall i | 0 <= i < |lines| :: lines[i] != "" && OneLine(lines[i])
  }

  function ReadLines(lines: seq<string>, h: Headers): Result<Headers, BatchError> {
    if lines == [] then Ok(h)
    else
      var h' :- ReadLine(h, lines[0]);
      ReadLines(lines[1..], h')
  }

  lemma JoinStart(lines: seq<string>)
    requires Lines(lines)
    ensures Join(lines) != "" && Join(lines)[0] != '\r'
  {
    assert lines[0][0] in lines[0];
  }

  /** A line contains no line break, so the search for one passes over it. */
  lemma FindBreak(line: string, rest: string, pattern: string)
    requires OneLine(line) && pattern != "" && pattern[0] == '\r'
    ensures Find(line + rest, pattern)
            == if Find(rest, pattern).Some? then Some(|line| + Find(rest, pattern).value) else None
  {
    FindShift(line, rest, pattern);
  }

  /** One line break in front of text is not the blank line. */
  lemma BreakIsNotBlank(rest: string)
    requires rest != "" && rest[0] != '\r' && Find(rest, CRLF + CRLF).Some?
    ensures Find(CRLF + rest, CRLF + CRLF) == Some(2 + Find(rest, CRLF + CRLF).value)
  {
    var text := CRLF + rest;
    assert text[1..] == "\n" + rest;
    assert text[2] == rest[0];
    assert ("\n" + rest)[1..] == rest;
  }

  lemma {:induction false} JoinEndsHeaders(lines: seq<string>)
    requires Lines(lines)
    ensures Find(Join(lines) + (CRLF + CRLF), CRLF + CRLF) == Some(|Join(lines)|)
    decreases |lines|
  {
    var line := lines[0];
    var blank := CRLF + CRLF;
    if |lines| == 1 {
      FindBreak(line, blank, blank);
    } else {
      var later := Join(lines[1..]);
      JoinEndsHeaders(lines[1..]);
      JoinStart(lines[1..]);
      var rest := later + blank;
      assert rest[0] != '\r';
      BreakIsNotBlank(rest);
      assert Join(lines) + blank == line + (CRLF + rest);
      FindBreak(line, CRLF + rest, blank);
    }
  }

  lemma {:induction false} JoinReadsLines(lines: seq<string>, h: Headers)
    requires Lines(lines)
    ensures FoldLines(Join(lines), h, ReadLine) == ReadLines(lines, h)
    decreases |lines|
  {
    var line := lines[0];
    if |lines| == 1 {
      FindBreak(line, "", CRLF);
      assert line + "" == line;
      assert line[..|line|] == line;
    } else {
      var block := Join(lines);
      var behind := CRLF + Join(lines[1..]);
      JoinStart(lines[1..]);
      assert block == line + behind;
      FindBreak(line, behind, CRLF);
      assert CRLF <= behind;
      assert FirstLineEnd(block) == |line|;
      assert block[..|line|] == line;
      assert block[|line| + 2..] == Join(lines[1..]);
      var next := ReadLine(h, line);
      if next.Ok? {
        JoinReadsLines(lines[1..], next.value);
      }
    }
  }

  function HeaderLines(part: BatchPart): seq<string> {
    [INDEX_HEADER + ToDecimal(part.index), TOPIC_HEADER + part.topic,
     SERVICE_HEADER + part.serviceName, LENGTH_HEADER + ToDecimal(|part.payload|)]
  }

  lemma DigitsAreOneLine(n: nat)
    ensures OneLine(ToDecimal(n))
  {
    assert forall c | c in ToDecimal(n) :: IsDigit(c);
  }

  lemma BothOneLine(a: string, b: string)
    requires OneLine(a) && OneLine(b) && a != ""
    ensures OneLine(a + b) && a + b != ""
  {
  }

  lemma IndexAndTopicAreOneLine()
    ensures OneLine(INDEX_HEADER) && OneLine(TOPIC_HEADER)
  {
  }

  lemma ServiceAndLengthAreOneLine()
    ensures OneLine(SERVICE_HEADER) && OneLine(LENGTH_HEADER)
  {
  }

  lemma HeaderLinesAreLines(part: BatchPart)
    requires OneLine(part.topic) && OneLine(part.serviceName)
    ensures Lines(HeaderLines(part))
  {
    IndexAndTopicAreOneLine();
    ServiceAndLengthAreOneLine();
    DigitsAreOneLine(part.index);
    DigitsAreOneLine(|part.payload|);
    BothOneLine(INDEX_HEADER, ToDecimal(part.index));
    BothOneLine(TOPIC_HEADER, part.topic);
    BothOneLine(SERVICE_HEADER, part.serviceName);
    BothOneLine(LENGTH_HEADER, ToDecimal(|part.payload|));
  }

  lemma ReadIndexLine(h: Headers, index: u64)
    ensures ReadLine(h, INDEX_HEADER + ToDecimal(index)) == Ok(h.(index := Some(index)))
  {
    ParseToDecimal(index);
    assert (INDEX_HEADER + ToDecimal(index))[|INDEX_HEADER|..] == ToDecimal(index);
  }

  lemma ReadTopicLine(h: Headers, topic: string)
    ensures ReadLine(h, TOPIC_HEADER + topic) == Ok(h.(topic := Some(topic)))
  {
    var line := TOPIC_HEADER + topic;
    assert line[10] == 't' && INDEX_HEADER[10] == 'l';
    assert line[|TOPIC_HEADER|..] == topic;
  }

  lemma ReadServiceLine(h: Headers, name: string)
    ensures ReadLine(h, SERVICE_HEADER + name) == Ok(h.(serviceName := Some(name)))
  {
    var line := SERVICE_HEADER + name;
    assert line[10] == 's' && INDEX_HEADER[10] == 'l' && TOPIC_HEADER[10] == 't';
    assert line[|SERVICE_HEADER|..] == name;
  }

  lemma ReadLengthLine(h: Headers, length: u64)
    ensures ReadLine(h, LENGTH_HEADER + ToDecimal(length)) == Ok(h.(contentLength := Some(length)))
  {
    ParseToDecimal(length);
    var line := LENGTH_HEADER + ToDecimal(length);
    assert line[0] == 'c' && INDEX_HEADER[0] == 'x' && TOPIC_HEADER[0] == 'x' && SERVICE_HEADER[0] == 'x';
    assert line[|LENGTH_HEADER|..] == ToDecimal(length);
  }

  function BlockOf(part: BatchPart): Block {
    Block(Join(HeaderLines(part)), part.payload)
  }

  lemma PrintedBlockReadsAs(part: BatchPart)
    requires OneLine(part.topic) && OneLine(part.serviceName) && |part.payload| < U64_LIMIT
    ensures ReadsAs(BlockOf(part), part)
  {
    var lines := HeaderLines(part);
    HeaderLinesAreLines(part);
    JoinEndsHeaders(lines);
    JoinReadsLines(lines, NO_HEADERS);
    var h1 := NO_HEADERS.(index := Some(part.index));
    var h2 := h1.(topic := Some(part.topic));
    var h3 := h2.(serviceName := Some(part.serviceName));
    ReadIndexLine(NO_HEADERS, part.index);
    ReadTopicLine(h1, part.topic);
    ReadServiceLine(h2, part.serviceName);
    ReadLengthLine(h3, |part.payload|);
    assert ReadLines(lines[3..], h3) == Ok(h3.(contentLength := Some(|part.payload|)));
    assert lines[2..][1..] == lines[3..];
    assert ReadLines(lines[2..], h2) == ReadLines(lines[3..], h3);
    assert lines[1..][1..] == lines[2..];
    assert ReadLines(lines[1..], h1) == ReadLines(lines[2..], h2);
  }

  function BlocksOf(parts: seq<BatchPart>): seq<Block> {
    seq(|parts|, i requires 0 <= i < |parts| => BlockOf(parts[i]))
  }

  const LINE: string := "--" + BOUNDARY

  lemma JoinFour(a: string, b: string, c: string, d: string)
    ensures Join([a, b, c, d]) == a + CRLF + (b + CRLF + (c + CRLF + d))
  {
    assert [a, b, c, d][1..] == [b, c, d] && [b, c, d][1..] == [c, d] && [c, d][1..] == [d];
    assert Join([c, d]) == c + CRLF + Join([d]) == c + CRLF + d;
    assert Join([b, c, d]) == b + CRLF + Join([c, d]);
  }

  lemma Regroup(line: string, a: string, a': string, b: string, b': string,
                c: string, c': string, d: string, d': string, payload: string)
    ensures line + CRLF + a + a' + CRLF + b + b' + CRLF + c + c' + CRLF + d + d' + CRLF + CRLF + payload + CRLF
            == line + CRLF + BlockText(Block(Join([a + a', b + b', c + c', d + d']), payload))
  {
    JoinFour(a + a', b + b', c + c', d + d');
  }

  lemma PrintedPart(part: BatchPart)
    ensures PartText(part) == LINE + CRLF + BlockText(BlockOf(part))
  {
    Regroup(LINE, INDEX_HEADER, ToDecimal(part.index), TOPIC_HEADER, part.topic,
            SERVICE_HEADER, part.serviceName, LENGTH_HEADER, ToDecimal(|part.payload|), part.payload);
  }

  lemma {:induction false} ConcatIsRendered(boundary: string, texts: seq<string>,
                                            printed: seq<Block>, blocks: seq<Block>)
    requires |texts| == |printed|
    requires forall i | 0 <= i < |texts| :: texts[i] == boundary + CRLF + BlockText(printed[i])
    ensures Concat(texts) + Render(boundary, blocks) == Render(boundary, printed + blocks)
    decreases |texts|
  {
    if texts == [] {
      assert printed + blocks == blocks;
    } else {
      var n := |texts| - 1;
      var longer := [printed[n]] + blocks;
      assert longer[1..] == blocks;
      assert texts[n] + Render(boundary, blocks) == Render(boundary, longer);
      ConcatIsRendered(boundary, texts[..n], printed[..n], longer);
      assert printed[..n] + longer == printed + blocks;
    }
  }

  lemma LineIsBoundary()
    ensures BoundaryLine(LINE)
  {
    LineIsOneLine();
    FindBreak(LINE, CRLF, CRLF);
  }

  lemma EncodedIsRendered(parts: seq<BatchPart>)
    ensures Encoded(parts) == Render(LINE, BlocksOf(parts))
  {
    forall i | 0 <= i < |parts|
      ensures PartTexts(parts)[i] == LINE + CRLF + BlockText(BlocksOf(parts)[i])
    {
      PrintedPart(parts[i]);
    }
    ConcatIsRendered(LINE, PartTexts(parts), BlocksOf(parts), []);
    assert BlocksOf(parts) + [] == BlocksOf(parts);
  }

  lemma EmptyBatchIsRefused()
    ensures Decode(Encoded([])) == Err(IncompleteHeaders)
  {
    var line := LINE + "--";
    LineIsOneLine();
    BothOneLine(LINE, "--");
    assert Encoded([]) == line + CRLF;
    ClosingOnlyIsRefused(line);
  }

  lemma ClosingOnlyIsRefused(line: string)
    requires OneLine(line) && "--" <= line && 2 < |line| <= 72
    ensures Decode(line + CRLF) == Err(IncompleteHeaders)
  {
    var body := line + CRLF;
    FindBreak(line, CRLF, CRLF);
    assert body[..|line|] == line;
    assert body == line + CRLF + "";
    DecodeOpening(line, "", []);
  }

  lemma LineIsOneLine()
    ensures OneLine(LINE)
  {
  }

  /**
   Printing and parsing gives the same parts back exactly for the non-empty batches with
   consecutive indices, whatever the payloads contain: boundary lines and header lines included.
   */
  lemma RoundTripIff(parts: seq<BatchPart>)
    requires Printable(parts)
    requires forall part | part in parts :: |part.payload| < U64_LIMIT
    ensures Decode(Encoded(parts)) == Ok(parts) <==> parts != [] && Consecutive(parts)
    ensures !Consecutive(parts) ==> Decode(Encoded(parts)) == Err(NonConsecutiveIndices)
  {
    if parts == [] {
      EmptyBatchIsRefused();
    } else {
      LineIsBoundary();
      EncodedIsRendered(parts);
      forall i | 0 <= i < |parts| ensures ReadsAs(BlocksOf(parts)[i], parts[i]) {
        PrintedBlockReadsAs(parts[i]);
      }
      DecodeFramed(LINE, BlocksOf(parts), parts, "");
      assert Encoded(parts) + "" == Encoded(parts);
    }
  }

  // ----- what header lines say ------------------------------------------------------------------

  /** What the last line of that name says. */
  function LastField(lines: seq<string>, name: string): Option<string> {
    if lines == [] then None
    else
      var line := lines[|lines| - 1];
      if name <= line then Some(line[|name|..]) else LastField(lines[..|lines| - 1], name)
  }

  /** Every line of that name says a number of 64 bits. */
  predicate Numeric(lines: seq<string>, name: string) {
    forall i | 0 <= i < |lines| && name <= lines[i] :: ParseU64(lines[i][|name|..]).Some?
  }

  function Parsed(field: Option<string>): Option<u64> {
    if field.Some? then ParseU64(field.value) else None
  }

  lemma NamesDiffer(line: string)
    ensures INDEX_HEADER <= line ==> !(TOPIC_HEADER <= line) && !(SERVICE_HEADER <= line) && !(LENGTH_HEADER <= line)
    ensures TOPIC_HEADER <= line ==> !(SERVICE_HEADER <= line) && !(LENGTH_HEADER <= line)
    ensures SERVICE_HEADER <= line ==> !(LENGTH_HEADER <= line)
  {
    assert INDEX_HEADER[10] == 'l' && TOPIC_HEADER[10] == 't' && SERVICE_HEADER[10] == 's' && LENGTH_HEADER[0] == 'c';
  }

  lemma ReadLinesLast(lines: seq<string>, h: Headers)
    requires lines != []
    ensures var front, line := lines[..|lines| - 1], lines[|lines| - 1];
            ReadLines(lines, h) == var r := ReadLines(front, h); if r.Err? then r else ReadLine(r.value, line)
    decreases |lines|
  {
    var n := |lines| - 1;
    if n > 0 {
      var first := ReadLine(h, lines[0]);
      if first.Ok? {
        ReadLinesLast(lines[1..], first.value);
        assert lines[1..][..n - 1] == lines[..n][1..];
      }
    } else {
      assert lines[..0] == [] && lines[1..] == [];
    }
  }

  lemma NumericLast(lines: seq<string>, name: string)
    requires lines != []
    ensures var front, line := lines[..|lines| - 1], lines[|lines| - 1];
            Numeric(lines, name) <==> Numeric(front, name) && (name <= line ==> ParseU64(line[|name|..]).Some?)
  {
    var n := |lines| - 1;
    assert forall i | 0 <= i < n :: lines[..n][i] == lines[i];
  }

  /** Unknown lines are passed over, the last line of a name counts, and numbers must be numbers. */
  lemma {:induction false} HeadersOfLines(lines: seq<string>)
    ensures ReadLines(lines, NO_HEADERS).Ok? <==> Numeric(lines, INDEX_HEADER) && Numeric(lines, LENGTH_HEADER)
    ensures ReadLines(lines, NO_HEADERS).Ok? ==>
              ReadLines(lines, NO_HEADERS).value
              == Headers(Parsed(LastField(lines, INDEX_HEADER)), LastField(lines, TOPIC_HEADER),
                         LastField(lines, SERVICE_HEADER), Parsed(LastField(lines, LENGTH_HEADER)))
    decreases |lines|
  {
    if lines != [] {
      var n := |lines| - 1;
      HeadersOfLines(lines[..n]);
      ReadLinesLast(lines, NO_HEADERS);
      NumericLast(lines, INDEX_HEADER);
      NumericLast(lines, LENGTH_HEADER);
      NamesDiffer(lines[n]);
    }
  }

  /** The same for a header block of such lines. */
  lemma HeadersOfBlock(lines: seq<string>)
    requires Lines(lines)
    ensures var h := FoldLines(Join(lines), NO_HEADERS, ReadLine);
            && (h.Ok? <==> Numeric(lines, INDEX_HEADER) && Numeric(lines, LENGTH_HEADER))
            && (h.Ok? ==> h.value == Headers(Parsed(LastField(lines, INDEX_HEADER)), LastField(lines, TOPIC_HEADER),
                                             LastField(lines, SERVICE_HEADER), Parsed(LastField(lines, LENGTH_HEADER))))
  {
    JoinReadsLines(lines, NO_HEADERS);
    HeadersOfLines(lines);
  }
}
