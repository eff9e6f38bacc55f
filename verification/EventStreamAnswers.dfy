/** What else a reader makes of an event stream: events for others, its end, plain JSON, and errors. */
module EventStreamAnswers {
  import opened EventStreamModel
  import opened Results

  // ---- events for others, and the end of the stream ----

  lemma OneBlock(block: seq<Bytes>)
    requires "" !in block
    ensures Split(block + [""], "") == [block, []]
  {
    SplitAppend(block, "", []);
    SplitOne(block, "");
    assert block + [""] + [] == block + [""];
  }

  /** The blocks of an event, and what they carry. */
  lemma EventBlocks(payload: Bytes, space: Bytes)
    requires SpaceFits(Split(payload, '\n'), space)
    ensures var blocks := Split(DropCRs(Event(payload, space)), "");
      |blocks| == 2 && blocks[1] == [] && Payload(blocks[0]) == Received(payload)
  {
    hide AsData, DropCRs, Data, Join, SpaceFits;
    var data := AsData(Split(payload, '\n'), space);
    DataOfAsData(Split(payload, '\n'), space);
    DropCREmpty();
    DropCRsAppend(data, [""]);
    OneBlock(DropCRs(data));
  }

  lemma NotAccepted(payload: Bytes, space: Bytes, want: Bytes, matches: Matcher)
    requires SpaceFits(Split(payload, '\n'), space) && want != "" && !matches(Received(payload), want)
    ensures var blocks := Split(DropCRs(Event(payload, space)), "");
      Data(blocks[|blocks| - 1]) == [] && NoneAccepted(blocks, want, matches)
  {
    EventBlocks(payload, space);
    hide Split, DropCRs, Event, SpaceFits, Received;
  }

  /** An event whose payload carries another id is skipped, and the one that is waited for is read. */
  lemma WrongIdIsSkipped(other: Bytes, otherSpace: Bytes, payload: Bytes, space: Bytes, rest: Bytes, want: Bytes, matches: Matcher)
    requires SpaceFits(Split(other, '\n'), otherSpace) && SpaceFits(Split(payload, '\n'), space)
    requires Scannable(AsData(Split(other, '\n'), otherSpace)) && Scannable(AsData(Split(payload, '\n'), space))
    requires want != "" && !matches(Received(other), want) && matches(Received(payload), want)
    ensures Reads(Written(Event(other, otherSpace) + Event(payload, space)) + rest, want, matches, Success(Received(payload)))
  {
    hide Received, Reads, Event, AsData, SpaceFits, Scannable, DropCRs, Split, Data, Accepted;
    NotAccepted(other, otherSpace, want, matches);
    EventStarts(other, otherSpace);
    RoundTrip(Event(other, otherSpace), payload, space, rest, want, matches);
  }

  lemma EventStarts(payload: Bytes, space: Bytes)
    requires Scannable(AsData(Split(payload, '\n'), space))
    ensures var lines := Event(payload, space); Scannable(lines) && lines[0] != "" && lines[0][0] == 'd'
  {
    hide Split;
    var data := AsData(Split(payload, '\n'), space);
    assert data[0] == "data:" + space + Split(payload, '\n')[0];
    ScannableAppend(data, [""]);
  }

  /** An event at the end of the input needs no empty line after it. */
  lemma LastEventNeedsNoEnd(before: seq<Bytes>, payload: Bytes, space: Bytes, want: Bytes, matches: Matcher)
    requires SpaceFits(Split(payload, '\n'), space)
    requires Scannable(before) && Scannable(AsData(Split(payload, '\n'), space))
    requires before != [] && before[0] != "" ==> before[0][0] != '{'
    requires var blocks := Split(DropCRs(before), "");
      Data(blocks[|blocks| - 1]) == [] && NoneAccepted(blocks, want, matches)
    requires want == "" || matches(Received(payload), want)
    ensures Reads(Written(before + AsData(Split(payload, '\n'), space)), want, matches, Success(Received(payload)))
  {
    hide IsAnswer, Accepted, ScanLines, Split, Data, Payload, AsData, DropCRs, Written, Scannable, SpaceFits;
    var data := AsData(Split(payload, '\n'), space);
    var head, block := DropCRs(before), DropCRs(data);
    ScanBoth(before, data);
    DataOfAsData(Split(payload, '\n'), space);
    FitsIsAccepted(block, payload, want, matches);
    AnswerAtEnd(head, block, want, matches);
    DataStarts(before, payload, space);
  }

  lemma ScanBoth(a: seq<Bytes>, b: seq<Bytes>)
    requires Scannable(a) && Scannable(b)
    ensures ScanLines(Written(a + b)) == Scan(DropCRs(a) + DropCRs(b), false)
  {
    hide ScanLines, Written, DropCRs, DropCR;
    ScannableAppend(a, b);
    NoLines();
    ScanWritten(a + b, "");
    DropCRsAppend(a, b);
    assert Written(a + b) + "" == Written(a + b) && DropCRs(a) + DropCRs(b) + [] == DropCRs(a) + DropCRs(b);
  }

  lemma DataStarts(before: seq<Bytes>, payload: Bytes, space: Bytes)
    requires before != [] && before[0] != "" ==> before[0][0] != '{'
    ensures var body := Written(before + AsData(Split(payload, '\n'), space)); body != "" && body[0] != '{'
  {
    hide Split;
    var lines := before + AsData(Split(payload, '\n'), space);
    assert lines[0] == if before != [] then before[0] else "data:" + space + Split(payload, '\n')[0];
    assert Written(lines) == lines[0] + "\n" + Written(lines[1..]);
  }

  lemma AnswerAtEnd(head: seq<Bytes>, block: seq<Bytes>, want: Bytes, matches: Matcher)
    requires var blocks := Split(head, "");
      Data(blocks[|blocks| - 1]) == [] && NoneAccepted(blocks, want, matches)
    requires "" !in block && Accepted(block, want, matches)
    ensures IsAnswer(Scan(head + block, false), want, matches, Success(Payload(block)))
  {
    hide Data, Join, Split;
    var parts := Split(head, "");
    var last := parts[|parts| - 1];
    SplitJoinsBlock(head, block);
    DataAppend(last, block);
    var c, i := Candidates(Scan(head + block, false)), |parts| - 1;
    assert c[i] == last + block;
    assert Data(c[i]) == Data(block);
    assert forall j :: 0 <= j < i ==> c[j] == parts[j];
    assert FirstAccepted(c, i, want, matches);
  }

  // ---- the other answers ----

  /** A body that begins with a brace is its own answer, up to 16 MiB of it. */
  lemma PlainIsItself(body: Bytes, want: Bytes, matches: Matcher)
    requires body != "" && body[0] == '{'
    ensures |body| <= 16 * 1024 * 1024 ==> Reads(body, want, matches, Success(body))
    ensures |body| > 16 * 1024 * 1024 ==> forall r :: Reads(body, want, matches, r) ==>
      r.Success? && r.value <= body && |r.value| == 16 * 1024 * 1024
  {
  }

  /** Lines without an accepted event come to an error: which one depends on whether an event was begun at the end. */
  lemma NothingAccepted(lines: seq<Bytes>, want: Bytes, matches: Matcher)
    requires Scannable(lines) && lines != [] && (lines[0] != "" ==> lines[0][0] != '{')
    requires NoneAccepted(Split(DropCRs(lines), ""), want, matches)
    ensures var blocks := Split(DropCRs(lines), "");
      Reads(Written(lines), want, matches,
            Failure(if Data(blocks[|blocks| - 1]) != [] then NoEventWithID else NoEvent))
  {
    hide Split, Accepted, Data, ScanLines;
    NoLines();
    ScanWritten(lines, "");
    assert Written(lines) + "" == Written(lines) && DropCRs(lines) + [] == DropCRs(lines);
    assert Written(lines) == lines[0] + "\n" + Written(lines[1..]);
  }

  lemma NoLines()
    ensures ScanLines("") == Scan([], false)
  {
  }

  /** A line too long for the scanner ends the stream, unless an event was accepted before it. */
  lemma TooLongIsRefused(before: seq<Bytes>, line: Bytes, rest: Bytes, want: Bytes, matches: Matcher)
    requires Scannable(before) && (before != [] && before[0] != "" ==> before[0][0] != '{')
    requires '\n' !in line && |line| >= 16 * 1024 * 1024 && (before == [] ==> line[0] != '{')
    requires var blocks := Split(DropCRs(before), ""); NoneAccepted(blocks[..|blocks| - 1], want, matches)
    ensures Reads(Written(before) + (line + "\n" + rest), want, matches, Failure(LineTooLong))
  {
    hide Split, Accepted, ScanLines;
    var tail := line + "\n" + rest;
    TooLongTail(line, rest);
    ScanWritten(before, tail);
    assert DropCRs(before) + [] == DropCRs(before);
    TooLongAnswer(DropCRs(before), want, matches);
    StartsAs(before, line, rest);
  }

  lemma TooLongTail(line: Bytes, rest: Bytes)
    requires '\n' !in line && |line| >= MAX_LINE
    ensures ScanLines(line + "\n" + rest) == Scan([], true)
  {
    FirstLineIs(line, line + "\n" + rest);
  }

  lemma TooLongAnswer(lines: seq<Bytes>, want: Bytes, matches: Matcher)
    requires var blocks := Split(lines, ""); NoneAccepted(blocks[..|blocks| - 1], want, matches)
    ensures IsAnswer(Scan(lines, true), want, matches, Failure(LineTooLong))
  {
  }

  lemma StartsAs(before: seq<Bytes>, line: Bytes, rest: Bytes)
    requires before != [] && before[0] != "" ==> before[0][0] != '{'
    requires before == [] ==> line != "" && line[0] != '{'
    ensures var body := Written(before) + (line + "\n" + rest); body != "" && body[0] != '{'
  {
    if before != [] {
      assert Written(before) == before[0] + "\n" + Written(before[1..]);
    } else {
      assert Written(before) + (line + "\n" + rest) == line + "\n" + rest;
    }
  }
}
