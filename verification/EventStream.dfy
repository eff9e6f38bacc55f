/** Reading the first message of an upstream's answer (internal/mcp/upstream.go). */
module EventStream {
  import opened Results
  import opened EventStreamModel

  /** Hands out the lines of a text one at a time, up to the end or to a line that is too long. */
  class Scanner {
    const input: Bytes
    var pos: nat
    var text: Bytes
    var tooLong: bool

    ghost predicate Valid()
      reads this
    {
      pos <= |input|
    }

    ghost function Rest(): Scan
      reads this
      requires Valid()
    {
      ScanLines(input[pos..])
    }

    constructor (input: Bytes)
      ensures Valid() && this.input == input && Rest() == ScanLines(input) && !tooLong
    {
      this.input, pos, text, tooLong := input, 0, "", false;
      new;
      assert input[0..] == input;
    }

    /** The end of the current line. */
    method LineEnd() returns (end: nat)
      requires Valid()
      ensures pos <= end <= |input| && '\n' !in input[pos..end] && (end < |input| ==> input[end] == '\n')
    {
      end := pos;
      while end < |input| && input[end] != '\n'
        invariant pos <= end <= |input| && '\n' !in input[pos..end]
      {
        end := end + 1;
      }
    }

    method Scan() returns (ok: bool)
      requires Valid() && !tooLong
      modifies this
      ensures Valid() && ok == (old(Rest()).lines != [])
      ensures ok ==> [text] + Rest().lines == old(Rest()).lines && Rest().tooLong == old(Rest()).tooLong && !tooLong
      ensures !ok ==> tooLong == old(Rest()).tooLong
      ensures ok ==> pos > old(pos)
    {
      if pos == |input| { return false; }
      var end := LineEnd();
      LineScanned(input, pos, end);
      hide ScanLines;
      if end - pos >= MAX_LINE {
        tooLong := true;
        return false;
      }
      text := DropCR(input[pos..end]);
      pos := if end < |input| then end + 1 else end;
      return true;
    }
  }

  lemma LineScanned(input: Bytes, pos: nat, end: nat)
    requires pos < |input| && pos <= end <= |input| && '\n' !in input[pos..end] && (end < |input| ==> input[end] == '\n')
    ensures end - pos >= MAX_LINE ==> ScanLines(input[pos..]) == EventStreamModel.Scan([], true)
    ensures var rest := ScanLines(input[if end < |input| then end + 1 else end..]);
      end - pos < MAX_LINE ==>
        ScanLines(input[pos..]) == EventStreamModel.Scan([DropCR(input[pos..end])] + rest.lines, rest.tooLong)
  {
    hide DropCR;
    var s, line := input[pos..], input[pos..end];
    FirstLineIs(line, s);
    hide FirstLine;
    if end < |input| {
      assert s[|line| + 1..] == input[end + 1..];
    } else {
      assert input[end..] == "";
    }
  }

  function TrimPrefix(s: Bytes, prefix: Bytes): Bytes { if prefix <= s then s[|prefix|..] else s }

  /** How far a reader is: the lines it has seen, none of whose finished blocks is accepted, and the data it holds. */
  ghost predicate Progress(seen: seq<Bytes>, dataLines: seq<Bytes>, want: Bytes, matches: Matcher) {
    var blocks := Split(seen, "");
    && Data(blocks[|blocks| - 1]) == dataLines
    && forall j :: 0 <= j < |blocks| - 1 ==> !Accepted(blocks[j], want, matches)
  }

  lemma SeeLine(seen: seq<Bytes>, dataLines: seq<Bytes>, line: Bytes, want: Bytes, matches: Matcher)
    requires Progress(seen, dataLines, want, matches) && line != ""
    ensures Progress(seen + [line], dataLines + (if IsData(line) then [Value(line)] else []), want, matches)
  {
    hide Accepted;
    var blocks := Split(seen, "");
    SplitExtend(seen, "", line);
    DataAppend(blocks[|blocks| - 1], [line]);
    assert Data([line]) == if IsData(line) then [Value(line)] else [];
  }

  lemma SeeBlank(seen: seq<Bytes>, dataLines: seq<Bytes>, want: Bytes, matches: Matcher)
    requires Progress(seen, dataLines, want, matches)
    requires dataLines == [] || !Fits(Join(dataLines, '\n'), want, matches)
    ensures Progress(seen + [""], [], want, matches)
  {
    SplitAppend(seen, "", []);
    assert seen + [""] + [] == seen + [""];
    assert Data([]) == [];
  }

  lemma AnswerAtBlank(seen: seq<Bytes>, dataLines: seq<Bytes>, rest: Scan, want: Bytes, matches: Matcher)
    requires Progress(seen, dataLines, want, matches)
    requires dataLines != [] && Fits(Join(dataLines, '\n'), want, matches)
    ensures IsAnswer(Scan(seen + [""] + rest.lines, rest.tooLong), want, matches, Success(Join(dataLines, '\n')))
  {
    var scan, blocks := Scan(seen + [""] + rest.lines, rest.tooLong), Split(seen, "");
    var i := |blocks| - 1;
    SplitAppend(seen, "", rest.lines);
    assert Candidates(scan)[i] == blocks[i];
    assert forall j :: 0 <= j < i ==> Candidates(scan)[j] == blocks[j];
    assert FirstAccepted(Candidates(scan), i, want, matches);
  }

  lemma AnswerAtEnd(seen: seq<Bytes>, dataLines: seq<Bytes>, tooLong: bool, want: Bytes, matches: Matcher)
    requires Progress(seen, dataLines, want, matches)
    ensures tooLong ==> IsAnswer(Scan(seen, tooLong), want, matches, Failure(LineTooLong))
    ensures !tooLong && dataLines != [] ==>
      IsAnswer(Scan(seen, tooLong), want, matches,
        if Fits(Join(dataLines, '\n'), want, matches) then Success(Join(dataLines, '\n')) else Failure(NoEventWithID))
    ensures !tooLong && dataLines == [] ==> IsAnswer(Scan(seen, tooLong), want, matches, Failure(NoEvent))
  {
    var blocks := Split(seen, "");
    if !tooLong && dataLines != [] && Fits(Join(dataLines, '\n'), want, matches) {
      assert FirstAccepted(Candidates(Scan(seen, tooLong)), |blocks| - 1, want, matches);
    }
  }

  /** The reader returns the meaning of the body; in particular it never finds an event begun but without data. */
  method ReadFirstSSEMessage(body: Bytes, want: Bytes, matches: Matcher) returns (r: Result<Bytes, ReadError>)
    ensures Reads(body, want, matches, r) && r != Failure(Incomplete)
  {
    hide ScanLines, Progress, IsAnswer, Split;
    if body == "" { return Failure(EndOfInput); }
    if body[0] == '{' {
      return Success(if |body| > MAX_PLAIN then body[..MAX_PLAIN] else body);
    }
    var dataLines, inEvent := [], false;
    var scanner := new Scanner(body);
    ghost var seen, all := [], ScanLines(body);
    ProgressStart(want, matches);
    while true
      invariant scanner.Valid() && scanner.input == body && !scanner.tooLong && fresh(scanner)
      invariant seen + scanner.Rest().lines == all.lines && scanner.Rest().tooLong == all.tooLong
      invariant Progress(seen, dataLines, want, matches) && (inEvent <==> dataLines != [])
      decreases |body| - scanner.pos
    {
      ghost var before := scanner.Rest();
      var more := scanner.Scan();
      if !more { break; }
      var line := scanner.text;
      assert all.lines == seen + [line] + scanner.Rest().lines;
      if line == "" {
        if |dataLines| > 0 {
          var payload := Join(dataLines, '\n');
          if want != "" && !matches(payload, want) {
            SeeBlank(seen, dataLines, want, matches);
            dataLines, inEvent, seen := [], false, seen + [line];
            continue;
          }
          AnswerAtBlank(seen, dataLines, scanner.Rest(), want, matches);
          return Success(payload);
        }
        SeeBlank(seen, dataLines, want, matches);
        dataLines, inEvent, seen := [], false, seen + [line];
        continue;
      }
      SeeLine(seen, dataLines, line, want, matches);
      seen := seen + [line];
      assert dataLines + [] == dataLines;
      if "data:" <= line {
        inEvent := true;
        var payload := TrimPrefix(TrimPrefix(line, "data:"), " ");
        assert payload == Value(line);
        dataLines := dataLines + [payload];
      }
    }
    assert all == Scan(seen, scanner.tooLong);
    AnswerAtEnd(seen, dataLines, scanner.tooLong, want, matches);
    if scanner.tooLong { return Failure(LineTooLong); }
    if |dataLines| > 0 {
      var payload := Join(dataLines, '\n');
      if want != "" && !matches(payload, want) { return Failure(NoEventWithID); }
      return Success(payload);
    }
    return Failure(if inEvent then Incomplete else NoEvent);
  }

  lemma ProgressStart(want: Bytes, matches: Matcher)
    ensures Progress([], [], want, matches)
  {
  }
}
