/**
  What an event stream says (WHATWG HTML Living Standard, section 9.2.6): lines, blocks of lines
  that end at an empty line, and the data of a block. A stream is read as bytes: each character of a
  text stands for one byte, and the bounds count bytes.
*/
module EventStreamModel {
  import opened Results

  type Bytes = string

  // ---- cutting and joining sequences ----

  function Split<T(==)>(s: seq<T>, sep: T): (parts: seq<seq<T>>)
    ensures parts != []
  {
    if s == [] then [[]]
    else
      var rest := Split(s[1..], sep);
      if s[0] == sep then [[]] + rest else [[s[0]] + rest[0]] + rest[1..]
  }

  function Join<T>(parts: seq<seq<T>>, sep: T): seq<T> {
    if parts == [] then [] else if |parts| == 1 then parts[0] else parts[0] + [sep] + Join(parts[1..], sep)
  }

  lemma {:induction false} JoinSplit<T>(s: seq<T>, sep: T)
    ensures Join(Split(s, sep), sep) == s
    ensures forall p <- Split(s, sep) :: sep !in p
  {
    if s != [] {
      JoinSplit(s[1..], sep);
      var rest := Split(s[1..], sep);
      assert Split(s, sep)[1..] == if s[0] == sep then rest else rest[1..];
    }
  }

  /** A separator cuts independently of what stands on either side. */
  lemma {:induction false} SplitAppend<T>(a: seq<T>, sep: T, b: seq<T>)
    ensures Split(a + [sep] + b, sep) == Split(a, sep) + Split(b, sep)
  {
    var s := a + [sep] + b;
    if a == [] {
      assert s[1..] == b;
    } else {
      assert s[1..] == a[1..] + [sep] + b;
      SplitAppend(a[1..], sep, b);
    }
  }

  /** An element that does not separate extends the last part. */
  lemma SplitFront<T>(x: T, s: seq<T>, sep: T)
    ensures Split([x] + s, sep) == if x == sep then [[]] + Split(s, sep) else [[x] + Split(s, sep)[0]] + Split(s, sep)[1..]
  {
    assert ([x] + s)[1..] == s;
  }

  lemma ExtendLast<T>(front: seq<T>, parts: seq<seq<T>>, x: T)
    requires parts != []
    ensures var longer := parts[..|parts| - 1] + [parts[|parts| - 1] + [x]];
            var whole := [front + parts[0]] + parts[1..];
      [front + longer[0]] + longer[1..] == whole[..|whole| - 1] + [whole[|whole| - 1] + [x]]
  {
    assert front + (parts[0] + [x]) == front + parts[0] + [x];
  }

  /** An element that does not separate extends the last part. */
  lemma {:induction false} SplitExtend<T>(a: seq<T>, sep: T, x: T)
    requires x != sep
    ensures var parts := Split(a, sep);
      Split(a + [x], sep) == parts[..|parts| - 1] + [parts[|parts| - 1] + [x]]
  {
    if a == [] {
      SplitFront(x, [], sep);
      assert [x] + [] == [x] && [] + [x] == [x];
    } else {
      SplitExtend(a[1..], sep, x);
      SplitFront(a[0], a[1..], sep);
      SplitFront(a[0], a[1..] + [x], sep);
      assert a == [a[0]] + a[1..] && a + [x] == [a[0]] + (a[1..] + [x]);
      ExtendLast([a[0]], Split(a[1..], sep), x);
    }
  }

  // ---- lines ----

  const MAX_LINE := 0x100_0000
  const MAX_PLAIN := 0x100_0000

  function FirstLine(s: Bytes): (line: Bytes)
    ensures line <= s && '\n' !in line
    ensures |line| < |s| ==> s[|line|] == '\n'
  {
    if s == "" || s[0] == '\n' then "" else [s[0]] + FirstLine(s[1..])
  }

  /** A line ends at a newline or at the end of the text; one carriage return before it is dropped. */
  function DropCR(line: Bytes): Bytes {
    if line != "" && line[|line| - 1] == '\r' then line[..|line| - 1] else line
  }

  /** The lines in front of the first one that is too long for the scanner. */
  datatype Scan = Scan(lines: seq<Bytes>, tooLong: bool)

  function ScanLines(s: Bytes): Scan
    decreases |s|
  {
    if s == "" then Scan([], false)
    else
      var line := FirstLine(s);
      if |line| >= MAX_LINE then Scan([], true)
      else
        var rest := ScanLines(if |line| < |s| then s[|line| + 1..] else "");
        Scan([DropCR(line)] + rest.lines, rest.tooLong)
  }

  lemma {:induction false} FirstLineIs(line: Bytes, s: Bytes)
    requires '\n' !in line && line <= s && (|line| < |s| ==> s[|line|] == '\n')
    ensures FirstLine(s) == line
  {
    if line != "" {
      assert line == [s[0]] + line[1..];
      FirstLineIs(line[1..], s[1..]);
    }
  }

  lemma ScanLine(line: Bytes, rest: Bytes)
    requires '\n' !in line && |line| < MAX_LINE
    ensures ScanLines(line + "\n" + rest) == Scan([DropCR(line)] + ScanLines(rest).lines, ScanLines(rest).tooLong)
  {
    var s := line + "\n" + rest;
    FirstLineIs(line, s);
    assert s[|line| + 1..] == rest;
  }

  // ---- blocks and their data ----

  predicate IsData(line: Bytes) { "data:" <= line }

  /** The value of a data line: one space after the colon is dropped. */
  function Value(line: Bytes): Bytes
    requires IsData(line)
  {
    if |line| > 5 && line[5] == ' ' then line[6..] else line[5..]
  }

  function Data(block: seq<Bytes>): seq<Bytes> {
    if block == [] then [] else (if IsData(block[0]) then [Value(block[0])] else []) + Data(block[1..])
  }

  lemma {:induction false} DataAppend(a: seq<Bytes>, b: seq<Bytes>)
    ensures Data(a + b) == Data(a) + Data(b)
  {
    if a == [] {
      assert a + b == b;
    } else {
      assert (a + b)[1..] == a[1..] + b;
      DataAppend(a[1..], b);
    }
  }

  function Payload(block: seq<Bytes>): Bytes { Join(Data(block), '\n') }

  /** Says whether a payload carries an id; how it reads the payload is not part of this model. */
  type Matcher = (Bytes, Bytes) -> bool

  predicate Fits(payload: Bytes, want: Bytes, matches: Matcher) { want == "" || matches(payload, want) }

  predicate Accepted(block: seq<Bytes>, want: Bytes, matches: Matcher) {
    Data(block) != [] && Fits(Payload(block), want, matches)
  }

  datatype ReadError = EndOfInput | LineTooLong | NoEventWithID | NoEvent | Incomplete

  /** The blocks that can be answered with: the last one ends with the input, so only if all of it was read. */
  function Candidates(scan: Scan): seq<seq<Bytes>> {
    var blocks := Split(scan.lines, "");
    if scan.tooLong then blocks[..|blocks| - 1] else blocks
  }

  ghost predicate FirstAccepted(blocks: seq<seq<Bytes>>, i: nat, want: Bytes, matches: Matcher) {
    i < |blocks| && Accepted(blocks[i], want, matches) && forall j :: 0 <= j < i ==> !Accepted(blocks[j], want, matches)
  }

  ghost predicate AnswersWith(blocks: seq<seq<Bytes>>, p: Bytes, want: Bytes, matches: Matcher) {
    exists i: nat :: FirstAccepted(blocks, i, want, matches) && p == Payload(blocks[i])
  }

  predicate NoneAccepted(blocks: seq<seq<Bytes>>, want: Bytes, matches: Matcher) {
    forall i :: 0 <= i < |blocks| ==> !Accepted(blocks[i], want, matches)
  }

  ghost predicate IsAnswer(scan: Scan, want: Bytes, matches: Matcher, r: Result<Bytes, ReadError>) {
    var blocks, candidates := Split(scan.lines, ""), Candidates(scan);
    match r
    case Success(p) => AnswersWith(candidates, p, want, matches)
    case Failure(e) =>
      && NoneAccepted(candidates, want, matches)
      && e == (if scan.tooLong then LineTooLong else if Data(blocks[|blocks| - 1]) != [] then NoEventWithID else NoEvent)
  }

  /** The meaning of a response body: plain JSON, or the first accepted event of a stream. */
  ghost predicate Reads(body: Bytes, want: Bytes, matches: Matcher, r: Result<Bytes, ReadError>) {
    if body == "" then r == Failure(EndOfInput)
    else if body[0] == '{' then r == Success(if |body| > MAX_PLAIN then body[..MAX_PLAIN] else body)
    else IsAnswer(ScanLines(body), want, matches, r)
  }

  /** A body has one meaning. */
  lemma ReadsUnique(body: Bytes, want: Bytes, matches: Matcher, r: Result<Bytes, ReadError>, q: Result<Bytes, ReadError>)
    requires Reads(body, want, matches, r) && Reads(body, want, matches, q)
    ensures r == q
  {
    if body != "" && body[0] != '{' && r.Success? && q.Success? {
      var blocks := Candidates(ScanLines(body));
      var i: nat :| FirstAccepted(blocks, i, want, matches) && r.value == Payload(blocks[i]);
      var j: nat :| FirstAccepted(blocks, j, want, matches) && q.value == Payload(blocks[j]);
      assert i == j;
    }
  }

  // ---- what a writer puts on a stream is what a reader takes off it ----

  /** Lines as they stand on a stream. */
  function Written(lines: seq<Bytes>): Bytes {
    if lines == [] then "" else lines[0] + "\n" + Written(lines[1..])
  }

  function DropCRs(lines: seq<Bytes>): seq<Bytes> {
    if lines == [] then [] else [DropCR(lines[0])] + DropCRs(lines[1..])
  }

  predicate Scannable(lines: seq<Bytes>) { forall l <- lines :: '\n' !in l && |l| < MAX_LINE }

  lemma {:induction false} ScanWritten(lines: seq<Bytes>, rest: Bytes)
    requires Scannable(lines)
    ensures ScanLines(Written(lines) + rest) == Scan(DropCRs(lines) + ScanLines(rest).lines, ScanLines(rest).tooLong)
  {
    hide ScanLines, DropCR;
    if lines == [] {
      assert Written(lines) + rest == rest;
    } else {
      var tail := Written(lines[1..]) + rest;
      assert lines[0] in lines && Scannable(lines[1..]);
      hide Scannable;
      assert Written(lines) + rest == lines[0] + "\n" + tail;
      ScanWritten(lines[1..], rest);
      ScanLine(lines[0], tail);
      assert DropCRs(lines) == [DropCR(lines[0])] + DropCRs(lines[1..]);
      hide Written, DropCRs;
      assert [DropCR(lines[0])] + (DropCRs(lines[1..]) + ScanLines(rest).lines)
          == [DropCR(lines[0])] + DropCRs(lines[1..]) + ScanLines(rest).lines;
    }
  }

  /** The lines of a payload as data lines, with or without a space after the colon. */
  function AsData(lines: seq<Bytes>, space: Bytes): seq<Bytes> {
    if lines == [] then [] else ["data:" + space + lines[0]] + AsData(lines[1..], space)
  }

  /** A writer puts a space after the colon, or leaves it out before lines that begin with none. */
  predicate SpaceFits(lines: seq<Bytes>, space: Bytes) {
    space == " " || (space == "" && forall l <- lines :: l == "" || l[0] != ' ')
  }

  /** One event: a data line for each line of the payload, and an empty line. */
  function Event(payload: Bytes, space: Bytes): seq<Bytes> { AsData(Split(payload, '\n'), space) + [""] }

  /** What is left of a payload on the way: each line without a carriage return at its end. */
  function Received(payload: Bytes): Bytes { Join(DropCRs(Split(payload, '\n')), '\n') }

  lemma DataLine(line: Bytes, space: Bytes)
    requires SpaceFits([line], space)
    ensures var written := DropCR("data:" + space + line);
      written != "" && IsData(written) && Value(written) == DropCR(line)
  {
    assert line in [line];
    assert DropCR("data:" + space + line) == "data:" + space + DropCR(line);
  }

  lemma {:induction false} DataOfAsData(lines: seq<Bytes>, space: Bytes)
    requires SpaceFits(lines, space)
    ensures Data(DropCRs(AsData(lines, space))) == DropCRs(lines)
    ensures "" !in DropCRs(AsData(lines, space))
  {
    if lines != [] {
      var line := DropCR("data:" + space + lines[0]);
      assert lines[0] in lines && forall l <- lines[1..] :: l in lines;
      DataLine(lines[0], space);
      DataOfAsData(lines[1..], space);
      hide DropCR, IsData, Value;
      var rest := DropCRs(AsData(lines[1..], space));
      assert AsData(lines, space)[1..] == AsData(lines[1..], space);
      assert DropCRs(AsData(lines, space)) == [line] + rest;
      assert ([line] + rest)[1..] == rest;
    }
  }

  lemma {:induction false} DropCRsAppend(a: seq<Bytes>, b: seq<Bytes>)
    ensures DropCRs(a + b) == DropCRs(a) + DropCRs(b)
  {
    if a == [] {
      assert a + b == b;
    } else {
      assert (a + b)[1..] == a[1..] + b;
      DropCRsAppend(a[1..], b);
    }
  }

  lemma {:induction false} JoinLength(a: seq<Bytes>)
    ensures |Join(DropCRs(a), '\n')| <= |Join(a, '\n')|
    ensures |Join(DropCRs(a), '\n')| == |Join(a, '\n')| ==> forall l <- a :: DropCR(l) == l
    ensures (forall l <- a :: DropCR(l) == l) ==> DropCRs(a) == a
  {
    if a != [] { JoinLength(a[1..]); }
  }

  /** A payload arrives unchanged exactly if none of its lines ends in a carriage return. */
  lemma ReceivedUnchanged(payload: Bytes)
    ensures Received(payload) == payload <==> forall l <- Split(payload, '\n') :: !(l != "" && l[|l| - 1] == '\r')
  {
    JoinSplit(payload, '\n');
    JoinLength(Split(payload, '\n'));
  }

  lemma {:induction false} SplitOne<T>(s: seq<T>, sep: T)
    requires sep !in s
    ensures Split(s, sep) == [s]
  {
    if s != [] {
      SplitOne(s[1..], sep);
      assert s == [s[0]] + s[1..];
    }
  }

  lemma {:induction false} SplitJoinsBlock(a: seq<Bytes>, b: seq<Bytes>)
    requires "" !in b
    ensures var parts := Split(a, "");
      Split(a + b, "") == parts[..|parts| - 1] + [parts[|parts| - 1] + b]
  {
    if b == [] {
      var parts := Split(a, "");
      assert a + b == a;
      assert parts[|parts| - 1] + b == parts[|parts| - 1];
    } else {
      var n := |b| - 1;
      SplitJoinsBlock(a, b[..n]);
      SplitExtend(a + b[..n], "", b[n]);
      assert a + b == a + b[..n] + [b[n]];
      assert b == b[..n] + [b[n]];
      var parts, shorter := Split(a, ""), Split(a + b[..n], "");
      assert shorter[..|shorter| - 1] == parts[..|parts| - 1];
      assert shorter[|shorter| - 1] + [b[n]] == parts[|parts| - 1] + b;
    }
  }

  lemma FirstAcceptedBeyond(a: seq<seq<Bytes>>, b: seq<seq<Bytes>>, i: nat, want: Bytes, matches: Matcher)
    requires forall j :: 0 <= j < |a| ==> !Accepted(a[j], want, matches)
    ensures FirstAccepted(a + b, i, want, matches) <==> i >= |a| && FirstAccepted(b, i - |a|, want, matches)
  {
    hide Accepted;
    var c := a + b;
    if FirstAccepted(c, i, want, matches) {
      assert forall j :: 0 <= j < |a| ==> c[j] == a[j];
      assert forall j :: 0 <= j < |b| ==> c[|a| + j] == b[j];
    }
    if i >= |a| && FirstAccepted(b, i - |a|, want, matches) {
      assert forall j :: 0 <= j < |c| ==> c[j] == if j < |a| then a[j] else b[j - |a|];
    }
  }

  lemma AnswersBeyond(a: seq<seq<Bytes>>, b: seq<seq<Bytes>>, p: Bytes, want: Bytes, matches: Matcher)
    requires NoneAccepted(a, want, matches)
    ensures AnswersWith(a + b, p, want, matches) <==> AnswersWith(b, p, want, matches)
  {
    hide Accepted, Payload;
    var c := a + b;
    forall i: nat ensures FirstAccepted(c, i, want, matches) <==> i >= |a| && FirstAccepted(b, i - |a|, want, matches) {
      FirstAcceptedBeyond(a, b, i, want, matches);
    }
    forall i: nat | FirstAccepted(b, i, want, matches) ensures FirstAccepted(c, |a| + i, want, matches) && c[|a| + i] == b[i] {}
  }

  lemma NoneBeyond(a: seq<seq<Bytes>>, b: seq<seq<Bytes>>, want: Bytes, matches: Matcher)
    requires NoneAccepted(a, want, matches)
    ensures NoneAccepted(a + b, want, matches) <==> NoneAccepted(b, want, matches)
  {
    hide Accepted;
    assert forall i :: 0 <= i < |b| ==> (a + b)[|a| + i] == b[i];
  }

  /** Blocks that are not accepted leave no trace in the answer. */
  lemma SkippedBlocksLeaveNoTrace(skipped: seq<Bytes>, rest: Scan, want: Bytes, matches: Matcher, r: Result<Bytes, ReadError>)
    requires NoneAccepted(Split(skipped, ""), want, matches)
    ensures IsAnswer(Scan(skipped + [""] + rest.lines, rest.tooLong), want, matches, r) <==> IsAnswer(rest, want, matches, r)
  {
    hide Split, AnswersWith, NoneAccepted, Data;
    var scan := Scan(skipped + [""] + rest.lines, rest.tooLong);
    SplitAppend(skipped, "", rest.lines);
    var a, b := Split(skipped, ""), Candidates(rest);
    assert Candidates(scan) == a + b;
    if r.Success? { AnswersBeyond(a, b, r.value, want, matches); }
    NoneBeyond(a, b, want, matches);
  }

  /** Lines without an accepted block, and an accepted block after them. */
  lemma AnswerAfter(head: seq<Bytes>, block: seq<Bytes>, rest: Scan, want: Bytes, matches: Matcher)
    requires var blocks := Split(head, "");
      Data(blocks[|blocks| - 1]) == [] && NoneAccepted(blocks, want, matches)
    requires "" !in block && Accepted(block, want, matches)
    ensures IsAnswer(Scan(head + block + [""] + rest.lines, rest.tooLong), want, matches, Success(Payload(block)))
  {
    hide Data, Join, Split;
    var parts, scan := Split(head, ""), Scan(head + block + [""] + rest.lines, rest.tooLong);
    var last := parts[|parts| - 1];
    SplitJoinsBlock(head, block);
    DataAppend(last, block);
    SplitAppend(head + block, "", rest.lines);
    var c, i := Candidates(scan), |parts| - 1;
    assert c[i] == last + block;
    assert Data(c[i]) == Data(block);
    assert forall j :: 0 <= j < i ==> c[j] == parts[j];
    hide Accepted;
    assert FirstAccepted(c, i, want, matches);
  }

  /**
    Round trip: after any lines that hold no accepted event and leave none begun, an event reads
    back as its payload, up to carriage returns at the ends of lines.
  */
  lemma RoundTrip(before: seq<Bytes>, payload: Bytes, space: Bytes, rest: Bytes, want: Bytes, matches: Matcher)
    requires SpaceFits(Split(payload, '\n'), space)
    requires Scannable(before) && Scannable(AsData(Split(payload, '\n'), space))
    requires before != [] && before[0] != "" ==> before[0][0] != '{'
    requires var blocks := Split(DropCRs(before), "");
      Data(blocks[|blocks| - 1]) == [] && NoneAccepted(blocks, want, matches)
    requires want == "" || matches(Received(payload), want)
    ensures Reads(Written(before + Event(payload, space)) + rest, want, matches, Success(Received(payload)))
  {
    hide IsAnswer, Accepted, ScanLines, Split;
    var data, lines := AsData(Split(payload, '\n'), space), before + Event(payload, space);
    var head, block := DropCRs(before), DropCRs(data);
    ScanEvent(before, payload, space, rest);
    DataOfAsData(Split(payload, '\n'), space);
    FitsIsAccepted(block, payload, want, matches);
    AnswerAfter(head, block, ScanLines(rest), want, matches);
    FirstCharacter(before, payload, space, rest);
  }

  /** So a payload arrives as it was written exactly if none of its lines ends in a carriage return. */
  lemma ArrivesExactlyIf(before: seq<Bytes>, payload: Bytes, space: Bytes, rest: Bytes, want: Bytes, matches: Matcher)
    requires SpaceFits(Split(payload, '\n'), space)
    requires Scannable(before) && Scannable(AsData(Split(payload, '\n'), space))
    requires before != [] && before[0] != "" ==> before[0][0] != '{'
    requires var blocks := Split(DropCRs(before), "");
      Data(blocks[|blocks| - 1]) == [] && NoneAccepted(blocks, want, matches)
    requires want == "" || matches(Received(payload), want)
    ensures Reads(Written(before + Event(payload, space)) + rest, want, matches, Success(payload))
       <==> forall l <- Split(payload, '\n') :: !(l != "" && l[|l| - 1] == '\r')
  {
    hide Reads, Split, Received;
    RoundTrip(before, payload, space, rest, want, matches);
    ReceivedUnchanged(payload);
    var body := Written(before + Event(payload, space)) + rest;
    if Reads(body, want, matches, Success(payload)) {
      ReadsUnique(body, want, matches, Success(payload), Success(Received(payload)));
    }
  }

  lemma FitsIsAccepted(block: seq<Bytes>, payload: Bytes, want: Bytes, matches: Matcher)
    requires Data(block) == DropCRs(Split(payload, '\n')) && Fits(Received(payload), want, matches)
    ensures Accepted(block, want, matches) && Payload(block) == Received(payload)
  {
  }

  lemma DropCREmpty()
    ensures DropCRs([""]) == [""]
  {
  }

  lemma ScanEvent(before: seq<Bytes>, payload: Bytes, space: Bytes, rest: Bytes)
    requires Scannable(before) && Scannable(AsData(Split(payload, '\n'), space))
    ensures ScanLines(Written(before + Event(payload, space)) + rest)
         == Scan(DropCRs(before) + DropCRs(AsData(Split(payload, '\n'), space)) + [""] + ScanLines(rest).lines, ScanLines(rest).tooLong)
  {
    hide ScanLines, AsData, Split, DropCR, Written, DropCRs;
    var data := AsData(Split(payload, '\n'), space);
    DropCREmpty();
    DropCRsAppend(data, [""]);
    DropCRsAppend(before, data + [""]);
    ScannableAppend(data, [""]);
    ScannableAppend(before, data + [""]);
    hide Scannable;
    ScanWritten(before + (data + [""]), rest);
    assert DropCRs(before) + (DropCRs(data) + [""]) == DropCRs(before) + DropCRs(data) + [""];
  }

  lemma ScannableAppend(a: seq<Bytes>, b: seq<Bytes>)
    requires Scannable(a) && Scannable(b)
    ensures Scannable(a + b)
  {
  }

  lemma FirstCharacter(before: seq<Bytes>, payload: Bytes, space: Bytes, rest: Bytes)
    requires before != [] && before[0] != "" ==> before[0][0] != '{'
    ensures var body := Written(before + Event(payload, space)) + rest; body != "" && body[0] != '{'
  {
    hide Split;
    var lines := before + Event(payload, space);
    assert lines[0] == if before != [] then before[0] else "data:" + space + Split(payload, '\n')[0];
    assert Written(lines) == lines[0] + "\n" + Written(lines[1..]);
  }

  /** The answer of this server as it writes it to its own clients. */
  function Printed(json: Bytes): Bytes { "event: message\n" + "data: " + json + "\n\n" }

  /** What this server prints, its reader reads back, given JSON on one line. */
  lemma PrintedReadsBack(json: Bytes, rest: Bytes, want: Bytes, matches: Matcher)
    requires '\n' !in json && '\r' !in json && |json| + 6 < MAX_LINE && (want == "" || matches(json, want))
    ensures Reads(Printed(json) + rest, want, matches, Success(json))
  {
    hide Reads, Split, DropCRs, Data;
    PrintedIsEvent(json);
    OtherField("event: message");
    OneDataLine(json);
    RoundTrip(["event: message"], json, " ", rest, want, matches);
  }

  lemma PrintedIsEvent(json: Bytes)
    requires '\n' !in json && '\r' !in json
    ensures Printed(json) == Written(["event: message"] + Event(json, " ")) && Received(json) == json
  {
    WrittenEvent("event: message", json);
    SplitOne(json, '\n');
    assert DropCRs([json]) == [json];
  }

  /** A line of another field begins no data. */
  lemma OtherField(line: Bytes)
    requires line != "" && line[0] != 'd' && '\r' !in line && '\n' !in line && |line| < MAX_LINE
    ensures Scannable([line]) && Split(DropCRs([line]), "") == [[line]] && Data([line]) == []
  {
    assert DropCR(line) == line && DropCRs([line]) == [line];
    SplitOne([line], "");
    NoData(line);
  }

  lemma OneDataLine(json: Bytes)
    requires '\n' !in json && |json| + 6 < MAX_LINE
    ensures Scannable(AsData(Split(json, '\n'), " "))
  {
    hide Split;
    SplitOne(json, '\n');
    DataOfOne(json);
    assert forall l <- ["data: " + json] :: l == "data: " + json;
  }

  lemma DataOfOne(json: Bytes)
    ensures AsData([json], " ") == ["data: " + json]
  {
    assert "data:" + " " + json == "data: " + json && [json][1..] == [];
  }

  lemma NoData(line: Bytes)
    requires line != "" && line[0] != 'd'
    ensures Data([line]) == []
  {
    assert !IsData(line);
  }

  lemma WrittenEvent(first: Bytes, json: Bytes)
    requires '\n' !in json
    ensures Written([first] + Event(json, " ")) == first + "\n" + "data: " + json + "\n\n"
  {
    hide Split;
    SplitOne(json, '\n');
    var data := "data: " + json;
    DataOfOne(json);
    assert [first] + Event(json, " ") == [first, data, ""];
    assert Written([""]) == "\n";
    assert Written([data, ""]) == data + "\n" + "\n" by { assert [data, ""][1..] == [""]; }
    assert [first, data, ""][1..] == [data, ""];
  }
}
