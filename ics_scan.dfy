/** The line scanner of the application's entry point: it reads the calendar
    file line by line, splits each line on every colon and remembers where the
    last `BEGIN:VEVENT` line was. The branch meant to build an event from the
    following lines has an empty body, so the scan's only results are the two
    counters, or the array-index failure that ends it. */
module IcsScan {
  import opened Wrappers
  import opened JavaStrings

  const COLON := ':'
  const BEGIN: string := "BEGIN"
  const VEVENT: string := "VEVENT"

  /** A Java `ArrayIndexOutOfBoundsException` reading `columns[index]` of an array of `length` pieces. */
  datatype Fault = IndexOutOfBounds(index: nat, length: nat)

  /** The counters after the loop: `currentLine` is one past the last line read,
      `startLine` is the line after the last event start, or 0. */
  datatype Counters = Counters(currentLine: nat, startLine: nat)

  /** The scan stopped at line number `line` (1-based, the value of `currentLine` then). */
  datatype ScanError = ScanError(line: nat, fault: Fault)

  /** The line is a non-empty run of colons: it splits into no pieces at all. */
  predicate OnlyColons(line: string)
  {
    line != "" && AllSeparators(line, COLON)
  }

  /** The line is `BEGIN` followed by nothing but colons: it splits into the single piece `BEGIN`. */
  predicate BeginWithoutValue(line: string)
  {
    |line| >= 5 && line[..5] == BEGIN && AllSeparators(line[5..], COLON)
  }

  /** The line's first two colon-separated pieces are `BEGIN` and `VEVENT`. */
  predicate OpensEvent(line: string)
  {
    |line| >= 12 && line[..12] == BEGIN + [COLON] + VEVENT && (|line| == 12 || line[12] == COLON)
  }

  /** The condition `columns[0].equals(BEGIN) && columns[1].equals(VEVENT)` on one line,
      with the index failures Java raises before it can be decided. */
  function TestLine(line: string): (r: Result<bool, Fault>)
    ensures r == Failure(IndexOutOfBounds(0, 0)) <==> OnlyColons(line)
    ensures r == Failure(IndexOutOfBounds(1, 1)) <==> BeginWithoutValue(line)
    ensures r.Failure? ==> OnlyColons(line) || BeginWithoutValue(line)
    ensures r == Success(true) <==> OpensEvent(line)
  {
    SplitShapes(line);
    var columns := Split(line, COLON);
    if |columns| == 0 then Failure(IndexOutOfBounds(0, 0))
    else if columns[0] != BEGIN then Success(false)
    else if |columns| < 2 then Failure(IndexOutOfBounds(1, |columns|))
    else Success(columns[1] == VEVENT)
  }

  /** `BEGIN` holds no colon, so a line that starts with `BEGIN:` splits first into `BEGIN`. */
  lemma SplitAfterBegin(line: string)
    requires |line| >= 6 && line[..5] == BEGIN && line[5] == COLON
    ensures Pieces(line, COLON) == [BEGIN] + Pieces(line[6..], COLON)
  {
    PiecesAfter(BEGIN, COLON, line[6..]);
    assert line == BEGIN + [COLON] + line[6..];
  }

  /** A line that splits into the single piece `BEGIN` is `BEGIN` followed by colons only. */
  lemma SplitBeginAlone(line: string)
    requires |Split(line, COLON)| == 1 && Split(line, COLON)[0] == BEGIN
    ensures BeginWithoutValue(line)
  {
    if COLON !in line {
      assert line == BEGIN;
    } else {
      var i := IndexOf(line, COLON);
      assert Pieces(line, COLON)[0] == line[..i];
      assert i == 5;
      SplitAfterBegin(line);
      var rest := Pieces(line[6..], COLON);
      assert forall k :: 0 <= k < |rest| ==> rest[k] == Pieces(line, COLON)[k + 1];
      AllEmptyPieces(line[6..], COLON);
      assert forall k :: 6 <= k < |line| ==> line[k] == line[6..][k - 6];
    }
  }

  /** `BEGIN` followed by colons only splits into the single piece `BEGIN`. */
  lemma BeginAloneSplit(line: string)
    requires BeginWithoutValue(line)
    ensures |Split(line, COLON)| == 1 && Split(line, COLON)[0] == BEGIN
  {
    if |line| == 5 {
      assert line == BEGIN;
      assert COLON !in line;
    } else {
      assert line[5] == line[5..][0];
      SplitAfterBegin(line);
      assert AllSeparators(line[6..], COLON) by {
        assert forall k :: 0 <= k < |line[6..]| ==> line[6..][k] == line[5..][k + 1];
      }
      AllEmptyPieces(line[6..], COLON);
      assert Pieces(line, COLON)[0] == BEGIN;
    }
  }

  /** A line whose first two pieces are `BEGIN` and `VEVENT` opens an event. */
  lemma SplitBeginVevent(line: string)
    requires |Split(line, COLON)| >= 2 && Split(line, COLON)[0] == BEGIN && Split(line, COLON)[1] == VEVENT
    ensures OpensEvent(line)
  {
    assert COLON in line;
    var i := IndexOf(line, COLON);
    assert Pieces(line, COLON)[0] == line[..i];
    assert i == 5;
    SplitAfterBegin(line);
    var t := line[6..];
    assert Pieces(t, COLON)[0] == VEVENT;
    if COLON in t {
      var j := IndexOf(t, COLON);
      assert t[..j] == VEVENT;
      assert line[..12] == line[..5] + [line[5]] + t[..6];
      assert line[12] == t[6];
    } else {
      assert t == VEVENT;
      assert line == line[..5] + [line[5]] + t;
    }
  }

  /** The text of a line that opens an event, piece by piece. */
  lemma OpensEventText(line: string)
    requires OpensEvent(line)
    ensures |line| >= 12 && line[..5] == BEGIN && line[5] == COLON && line[6..][..6] == VEVENT
    ensures |line| == 12 || line[6..][6] == COLON
  {
    assert line[..5] == line[..12][..5];
    assert line[6..][..6] == line[..12][6..];
  }

  /** `VEVENT` followed by nothing or by a colon starts with the piece `VEVENT`. */
  lemma VeventFirstPiece(t: string)
    requires |t| >= 6 && t[..6] == VEVENT && (|t| == 6 || t[6] == COLON)
    ensures Pieces(t, COLON)[0] == VEVENT
  {
    if |t| == 6 {
      assert t == VEVENT;
      assert COLON !in VEVENT;
    } else {
      assert t == VEVENT + [COLON] + t[7..];
      PiecesAfter(VEVENT, COLON, t[7..]);
    }
  }

  /** A line that opens an event splits into `BEGIN`, `VEVENT`, and possibly more pieces. */
  lemma OpensEventSplit(line: string)
    requires OpensEvent(line)
    ensures |Split(line, COLON)| >= 2 && Split(line, COLON)[0] == BEGIN && Split(line, COLON)[1] == VEVENT
  {
    OpensEventText(line);
    SplitAfterBegin(line);
    VeventFirstPiece(line[6..]);
    SplitKeeps(line, COLON, 1);
    assert Split(line, COLON)[..2] == [BEGIN, VEVENT];
  }

  /** The two shapes of split line that the scan tells apart, described on the raw text. */
  lemma SplitShapes(line: string)
    ensures (|Split(line, COLON)| == 1 && Split(line, COLON)[0] == BEGIN) <==> BeginWithoutValue(line)
    ensures (|Split(line, COLON)| >= 2 && Split(line, COLON)[0] == BEGIN && Split(line, COLON)[1] == VEVENT)
            <==> OpensEvent(line)
  {
    var columns := Split(line, COLON);
    if |columns| == 1 && columns[0] == BEGIN { SplitBeginAlone(line); }
    if BeginWithoutValue(line) { BeginAloneSplit(line); }
    if |columns| >= 2 && columns[0] == BEGIN && columns[1] == VEVENT { SplitBeginVevent(line); }
    if OpensEvent(line) { OpensEventSplit(line); }
  }

  /** `BEGIN:VEVENT:x` opens an event: only the first two pieces are compared. */
  lemma ExtraPieceOpensEvent()
    ensures TestLine("BEGIN:VEVENT:x") == Success(true)
  {
    assert OpensEvent("BEGIN:VEVENT:x") by {
      assert "BEGIN:VEVENT:x"[..12] == "BEGIN:VEVENT";
    }
  }

  /** `BEGIN` and `BEGIN:` split into one piece, so reading `columns[1]` fails. */
  lemma BeginAloneFails()
    ensures TestLine("BEGIN") == Failure(IndexOutOfBounds(1, 1))
    ensures TestLine("BEGIN:") == Failure(IndexOutOfBounds(1, 1))
  {
    assert BeginWithoutValue("BEGIN") by {
      assert "BEGIN"[..5] == BEGIN;
    }
    assert BeginWithoutValue("BEGIN:") by {
      assert "BEGIN:"[..5] == BEGIN && "BEGIN:"[5..] == [COLON];
    }
  }

  /** The empty line splits into one empty piece and passes; a line of colons splits into none and fails. */
  lemma EmptyAndColonLines()
    ensures TestLine("") == Success(false)
    ensures TestLine("::") == Failure(IndexOutOfBounds(0, 0))
  {
    assert OnlyColons("::");
  }

  /** Every line passes the test without an index failure. */
  ghost predicate AllPass(lines: seq<string>)
  {
    forall k :: 0 <= k < |lines| ==> TestLine(lines[k]).Success?
  }

  /** No line from index `from` on opens an event. */
  ghost predicate NoEventFrom(lines: seq<string>, from: nat)
  {
    forall k :: from <= k < |lines| ==> !OpensEvent(lines[k])
  }

  /** `s` is 0 when no line opens an event, else the 1-based number of the last line
      that does, plus one. */
  ghost predicate LastEventStart(lines: seq<string>, s: nat)
  {
    (s == 0 && NoEventFrom(lines, 0)) ||
    (2 <= s <= |lines| + 1 && OpensEvent(lines[s - 2]) && NoEventFrom(lines, s - 1))
  }

  /** `c` is what the loop holds after reading every line of `lines` without failing:
      `currentLine` is one past the last line, and `startLine` is the line after the
      last event start, or 0. */
  ghost predicate CountersAfter(lines: seq<string>, c: Counters)
  {
    AllPass(lines) && c.currentLine == |lines| + 1 && LastEventStart(lines, c.startLine)
  }

  /** `e` names the first line of `lines` whose test fails, and how it fails. */
  ghost predicate FailsAt(lines: seq<string>, e: ScanError)
  {
    1 <= e.line <= |lines| && TestLine(lines[e.line - 1]) == Failure(e.fault) &&
    AllPass(lines[..e.line - 1])
  }

  /** What a scan of `lines` may end with. */
  ghost predicate ScanSpec(lines: seq<string>, r: Result<Counters, ScanError>)
  {
    match r
    case Success(c) => CountersAfter(lines, c)
    case Failure(e) => FailsAt(lines, e)
  }

  /** The specification leaves no choice: at most one outcome meets it. */
  lemma ScanSpecUnique(lines: seq<string>, r1: Result<Counters, ScanError>, r2: Result<Counters, ScanError>)
    requires ScanSpec(lines, r1) && ScanSpec(lines, r2)
    ensures r1 == r2
  {
    if r1.Success? && r2.Success? {
      assert r1.value.startLine == r2.value.startLine;
    }
  }

  /** One more passing line keeps every line passing. */
  lemma AllPassAppend(lines: seq<string>, line: string)
    requires AllPass(lines) && TestLine(line).Success?
    ensures AllPass(lines + [line])
  {
    var next := lines + [line];
    forall k | 0 <= k < |next| ensures TestLine(next[k]).Success? {
      if k < |lines| { assert next[k] == lines[k]; }
    }
  }

  /** One more line that opens no event keeps the event start where it was. */
  lemma NoEventFromAppend(lines: seq<string>, from: nat, line: string)
    requires NoEventFrom(lines, from) && !OpensEvent(line)
    ensures NoEventFrom(lines + [line], from)
  {
    var next := lines + [line];
    forall k | from <= k < |next| ensures !OpensEvent(next[k]) {
      if k < |lines| { assert next[k] == lines[k]; }
    }
  }

  /** One more passing line: `currentLine` advances, and `startLine` moves to the line after
      it when it opens an event (a later event start overwrites an earlier one). */
  lemma CountersStep(lines: seq<string>, i: nat, c: Counters)
    requires i < |lines| && CountersAfter(lines[..i], c)
    requires TestLine(lines[i]).Success?
    ensures CountersAfter(lines[..i + 1], Counters(c.currentLine + 1,
              if OpensEvent(lines[i]) then c.currentLine + 1 else c.startLine))
  {
    var prefix, line := lines[..i], lines[i];
    assert lines[..i + 1] == prefix + [line];
    AllPassAppend(prefix, line);
    if OpensEvent(line) {
      assert lines[..i + 1][i] == line;
    } else if c.startLine == 0 {
      NoEventFromAppend(prefix, 0, line);
    } else {
      NoEventFromAppend(prefix, c.startLine - 1, line);
      assert lines[..i + 1][c.startLine - 2] == prefix[c.startLine - 2];
    }
  }

  /** A line that fails its test after `i` lines that passed ends the scan at line `i + 1`. */
  lemma FailureStep(lines: seq<string>, i: nat, c: Counters, fault: Fault)
    requires i < |lines| && CountersAfter(lines[..i], c)
    requires TestLine(lines[i]) == Failure(fault)
    ensures FailsAt(lines, ScanError(c.currentLine, fault))
  {
  }

  /** The scan keeps `0 <= startLine <= currentLine`. */
  lemma CountersOrdered(lines: seq<string>, c: Counters)
    requires CountersAfter(lines, c)
    ensures c.startLine <= c.currentLine
  {
  }

  /** The `while` loop of the entry point over the lines of the calendar file. */
  method Scan(lines: seq<string>) returns (r: Result<Counters, ScanError>)
    ensures ScanSpec(lines, r)
    ensures r.Success? <==> forall k :: 0 <= k < |lines| ==> TestLine(lines[k]).Success?
    ensures r.Success? ==> r.value.currentLine == |lines| + 1 && r.value.startLine <= r.value.currentLine
  {
    var currentLine: nat := 1;
    var startLine: nat := 0;
    var i := 0;
    assert PlainSeparator(COLON);
    while i < |lines|
      invariant 0 <= i <= |lines|
      invariant CountersAfter(lines[..i], Counters(currentLine, startLine))
    {
      var line := lines[i];
      ghost var before := Counters(currentLine, startLine);
      var columns := Split(line, COLON);
      SplitShapes(line);
      if |columns| == 0 {
        FailureStep(lines, i, before, IndexOutOfBounds(0, 0));
        return Failure(ScanError(currentLine, IndexOutOfBounds(0, 0)));
      }
      if columns[0] == BEGIN {
        if |columns| < 2 {
          FailureStep(lines, i, before, IndexOutOfBounds(1, |columns|));
          return Failure(ScanError(currentLine, IndexOutOfBounds(1, |columns|)));
        }
        if columns[1] == VEVENT {
          startLine := currentLine + 1;
        }
      }
      // Java's `if (startLine > 0)` branch that should build an event is empty.
      CountersStep(lines, i, before);
      currentLine := currentLine + 1;
      i := i + 1;
    }
    assert lines[..i] == lines;
    return Success(Counters(currentLine, startLine));
  }
}
