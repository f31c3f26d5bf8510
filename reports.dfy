/** Reactor safety reports (day02/src/main.rs): a report is a row of
    levels; it is safe when the levels move in one direction by steps of
    one to three. The problem dampener also accepts a report that becomes
    safe once a single level is removed. */
module Reports {
  import opened Options
  import opened Text
  import opened Numbers

  // ---------------------------------------------------------------------
  // Input
  // ---------------------------------------------------------------------

  /** `parse_input`: empty lines are dropped; every other line is split on
      whitespace and each word read as a number. None where the source
      panics (a word that is not a number). */
  function ParseInput(lines: seq<string>): (r: Option<seq<seq<nat>>>)
    ensures r.Some? <==> forall line :: line in lines && line != "" ==> ParseReport(line).Some?
    ensures r.Some? ==> (|r.value| == |NonEmptyLines(lines)| &&
      forall i :: 0 <= i < |r.value| ==> Some(r.value[i]) == ParseReport(NonEmptyLines(lines)[i]))
    ensures r.Some? ==> |r.value| <= |lines|
  {
    NonEmptyLinesMembers(lines);
    ParseAll(NonEmptyLines(lines), ParseReport)
  }

  /** One line split on whitespace, each word read as a number. */
  function ParseReport(line: string): Option<seq<nat>>
  {
    ParseNumbers(Words(line))
  }

  /** The parse depends only on the non-empty lines. */
  lemma ParseInputOfKept(lines: seq<string>, others: seq<string>)
    requires NonEmptyLines(lines) == NonEmptyLines(others)
    ensures ParseInput(lines) == ParseInput(others)
  {
    var r, q := ParseInput(lines), ParseInput(others);
    NonEmptyLinesMembers(lines);
    NonEmptyLinesMembers(others);
    if r.Some? {
      assert q.Some?;
      assert forall i :: 0 <= i < |r.value| ==> Some(r.value[i]) == Some(q.value[i]);
      assert r.value == q.value;
    }
  }

  /** The line of a report: its levels separated by single spaces. */
  function ReportText(row: seq<nat>): string
  {
    Join(Numerals(row), " ")
  }

  /** One printed line per report, in order. */
  function ReportLines(rows: seq<seq<nat>>): (lines: seq<string>)
    ensures |lines| == |rows|
    ensures forall i :: 0 <= i < |rows| ==> lines[i] == ReportText(rows[i])
    decreases |rows|
  {
    if |rows| == 0 then [] else [ReportText(rows[0])] + ReportLines(rows[1..])
  }

  /** The line of a non-empty report is not empty and reads back as the report. */
  lemma ReportTextParses(row: seq<nat>)
    requires |row| > 0
    ensures ReportText(row) != "" && ParseNumbers(Words(ReportText(row))) == Some(row)
  {
    var words := Numerals(row);
    forall i | 0 <= i < |words| ensures |words[i]| > 0 && NoWhitespace(words[i]) {
      assert IsNumeral(words[i]);
    }
    WordsJoin(words);
    ParseNumerals(row);
    assert |words[0]| > 0;
    JoinStartsWithFirst(words, " ");
  }

  /** Parsing the lines of non-empty reports gives the reports back. */
  lemma ParseInputText(rows: seq<seq<nat>>)
    requires forall i :: 0 <= i < |rows| ==> |rows[i]| > 0
    ensures ParseInput(ReportLines(rows)) == Some(rows)
  {
    var lines := ReportLines(rows);
    forall i | 0 <= i < |lines| ensures lines[i] != "" && ParseReport(lines[i]) == Some(rows[i]) {
      ReportTextParses(rows[i]);
    }
    NonEmptyLinesKeepsAll(lines);
    ParseAllOf(lines, ParseReport, rows);
  }

  /** An empty line is skipped, wherever it stands. */
  lemma EmptyLineSkipped(before: seq<string>, after: seq<string>)
    ensures ParseInput(before + [""] + after) == ParseInput(before + after)
  {
    EmptyLineDropped(before, after);
    ParseInputOfKept(before + [""] + after, before + after);
  }

  // ---------------------------------------------------------------------
  // Safe reports
  // ---------------------------------------------------------------------

  /** The check made on each level `v` after the first, against the level
      before it: a distance of one to three, and no step against the
      direction (`up` means rising). */
  predicate StepOk(previous: nat, v: nat, up: bool)
  {
    && 1 <= AbsDiff(v, previous) <= 3
    && !((v > previous && !up) || (v < previous && up))
  }

  /** The direction is fixed by the first two levels; every step has to
      pass the check. So a report is safe exactly when it rises or falls
      throughout by steps of one to three; in particular equal neighbours
      are never safe. */
  predicate Safe(row: seq<nat>)
    requires |row| >= 2
    ensures Safe(row) <==> Rising(row) || Falling(row)
    ensures Safe(row) ==> forall i :: 1 <= i < |row| ==> row[i - 1] != row[i]
  {
    var up := row[0] < row[1];
    StepsMeaning(row, up);
    forall i :: 1 <= i < |row| ==> StepOk(row[i - 1], row[i], up)
  }

  /** Strictly rising with steps of one to three. */
  predicate Rising(row: seq<nat>)
  {
    forall i :: 1 <= i < |row| ==> row[i - 1] < row[i] <= row[i - 1] + 3
  }

  /** Strictly falling with steps of one to three. */
  predicate Falling(row: seq<nat>)
  {
    forall i :: 1 <= i < |row| ==> row[i] < row[i - 1] <= row[i] + 3
  }

  /** Every step passes the check in the direction of the first step
      exactly when the report rises or falls throughout. */
  lemma StepsMeaning(row: seq<nat>, up: bool)
    requires |row| >= 2 && up == (row[0] < row[1])
    ensures (forall i :: 1 <= i < |row| ==> StepOk(row[i - 1], row[i], up)) <==> Rising(row) || Falling(row)
  {
    if forall i :: 1 <= i < |row| ==> StepOk(row[i - 1], row[i], up) {
      assert StepOk(row[0], row[1], up);
      if up {
        assert Rising(row);
      } else {
        assert Falling(row);
      }
    }
    if Rising(row) {
      assert up;
      assert forall i :: 1 <= i < |row| ==> StepOk(row[i - 1], row[i], up);
    }
    if Falling(row) {
      assert !up;
      assert forall i :: 1 <= i < |row| ==> StepOk(row[i - 1], row[i], up);
    }
  }

  /** `is_safe_report`: walk the levels after the first, returning false at
      the first step that fails the check. The source needs two levels at
      least (`unwrap` on the first, `row[1]`). */
  method IsSafeReport(row: seq<nat>) returns (safe: bool)
    requires |row| >= 2
    ensures safe == Safe(row)
  {
    var previousValue := row[0];
    var direction := row[0] < row[1];
    for i := 1 to |row|
      invariant previousValue == row[i - 1]
      invariant forall j :: 1 <= j < i ==> StepOk(row[j - 1], row[j], direction)
    {
      var v := row[i];
      var distance := AbsDiff(v, previousValue);
      var distanceMistake := !(1 <= distance <= 3);
      var directionMistake := (v > previousValue && !direction) || (v < previousValue && direction);
      if distanceMistake || directionMistake {
        return false;
      }
      previousValue := v;
    }
    return true;
  }

  // ---------------------------------------------------------------------
  // The problem dampener
  // ---------------------------------------------------------------------

  /** `Vec::remove` on a clone: the report without the level at `i`. */
  function RemoveAt(row: seq<nat>, i: nat): (r: seq<nat>)
    requires i < |row|
    ensures |r| == |row| - 1
    ensures forall k :: 0 <= k < i ==> r[k] == row[k]
    ensures forall k :: i <= k < |r| ==> r[k] == row[k + 1]
  {
    row[..i] + row[i + 1..]
  }

  /** The source can check the report: two levels at least, and three when
      the dampener has to try removals (a removal from an unsafe report of
      two levels leaves one, on which the check panics). */
  predicate Checkable(row: seq<nat>, allowSingleBadRow: bool)
  {
    |row| >= 2 && (allowSingleBadRow && !Safe(row) ==> |row| >= 3)
  }

  /** The filter of `solve`: safe, or, with the dampener, safe after
      removing some single level. With the dampener and three levels or
      more, that is: safe after some single removal, since a safe report
      stays safe without its first level. */
  predicate Accepted(row: seq<nat>, allowSingleBadRow: bool)
    requires Checkable(row, allowSingleBadRow)
    ensures allowSingleBadRow && |row| >= 3 ==>
      (Accepted(row, allowSingleBadRow) <==> exists i :: 0 <= i < |row| && Safe(RemoveAt(row, i)))
  {
    SafeWithoutEnd(row);
    Safe(row) || (allowSingleBadRow && exists i :: 0 <= i < |row| && Safe(RemoveAt(row, i)))
  }

  /** The filter closure of `solve`: accept a safe report; with the
      dampener, try each removal in turn on a fresh clone. */
  method IsAccepted(row: seq<nat>, allowSingleBadRow: bool) returns (accepted: bool)
    requires Checkable(row, allowSingleBadRow)
    ensures accepted == Accepted(row, allowSingleBadRow)
  {
    var safe := IsSafeReport(row);
    if safe {
      return true;
    }
    if allowSingleBadRow {
      for dropI := 0 to |row|
        invariant forall j :: 0 <= j < dropI ==> !Safe(RemoveAt(row, j))
      {
        var rowClone := RemoveAt(row, dropI);
        var cloneSafe := IsSafeReport(rowClone);
        if cloneSafe {
          return true;
        }
      }
    }
    return false;
  }

  /** Removing the first or the last level of a safe report of three or
      more levels leaves it safe, so the dampener never rejects what the
      plain check accepts and has room to spare at the ends. */
  lemma SafeWithoutEnd(row: seq<nat>)
    requires |row| >= 2
    ensures |row| >= 3 && Safe(row) ==> Safe(RemoveAt(row, 0)) && Safe(RemoveAt(row, |row| - 1))
  {
    if |row| >= 3 && Safe(row) {
      SafeWithoutFirst(row);
      SafeWithoutLast(row);
    }
  }

  lemma SafeWithoutFirst(row: seq<nat>)
    requires |row| >= 3 && Safe(row)
    ensures Safe(RemoveAt(row, 0))
  {
    var first := RemoveAt(row, 0);
    if Rising(row) {
      forall i | 1 <= i < |first| ensures first[i - 1] < first[i] <= first[i - 1] + 3 {
        assert first[i - 1] == row[i] && first[i] == row[i + 1];
      }
      assert Rising(first);
    } else {
      forall i | 1 <= i < |first| ensures first[i] < first[i - 1] <= first[i] + 3 {
        assert first[i - 1] == row[i] && first[i] == row[i + 1];
      }
      assert Falling(first);
    }
  }

  lemma SafeWithoutLast(row: seq<nat>)
    requires |row| >= 3 && Safe(row)
    ensures Safe(RemoveAt(row, |row| - 1))
  {
    var last := RemoveAt(row, |row| - 1);
    if Rising(row) {
      assert Rising(last);
    } else {
      assert Falling(last);
    }
  }

  // ---------------------------------------------------------------------
  // The puzzle
  // ---------------------------------------------------------------------

  predicate AllCheckable(rows: seq<seq<nat>>, allowSingleBadRow: bool)
  {
    forall i :: 0 <= i < |rows| ==> Checkable(rows[i], allowSingleBadRow)
  }

  /** The number of accepted reports. */
  function CountAccepted(rows: seq<seq<nat>>, allowSingleBadRow: bool): (n: nat)
    requires AllCheckable(rows, allowSingleBadRow)
    ensures n <= |rows|
    decreases |rows|
  {
    if |rows| == 0 then 0
    else
      var init := rows[..|rows| - 1];
      assert AllCheckable(init, allowSingleBadRow);
      CountAccepted(init, allowSingleBadRow) + (if Accepted(rows[|rows| - 1], allowSingleBadRow) then 1 else 0)
  }

  /** The dampener only adds reports: part B counts at least as many as part A. */
  lemma {:induction false} DampenerCountsMore(rows: seq<seq<nat>>)
    requires AllCheckable(rows, true)
    ensures AllCheckable(rows, false)
    ensures CountAccepted(rows, false) <= CountAccepted(rows, true)
    decreases |rows|
  {
    if |rows| > 0 {
      DampenerCountsMore(rows[..|rows| - 1]);
    }
  }

  /** `solve`: parse the input and count the accepted reports (`solve_a`
      without, `solve_b` with the dampener). The source panics where the
      input does not parse or a report cannot be checked. */
  method Solve(lines: seq<string>, allowSingleBadRow: bool) returns (count: nat)
    requires ParseInput(lines).Some? && AllCheckable(ParseInput(lines).value, allowSingleBadRow)
    ensures count == CountAccepted(ParseInput(lines).value, allowSingleBadRow)
  {
    var input := ParseInput(lines).value;
    count := CountReports(input, allowSingleBadRow);
  }

  /** The `filter(..).count()` of `solve` over the parsed reports. */
  method CountReports(input: seq<seq<nat>>, allowSingleBadRow: bool) returns (count: nat)
    requires AllCheckable(input, allowSingleBadRow)
    ensures count == CountAccepted(input, allowSingleBadRow)
  {
    count := 0;
    for i := 0 to |input|
      invariant AllCheckable(input[..i], allowSingleBadRow)
      invariant count == CountAccepted(input[..i], allowSingleBadRow)
    {
      assert input[..i + 1][..i] == input[..i];
      var accepted := IsAccepted(input[i], allowSingleBadRow);
      if accepted {
        count := count + 1;
      }
    }
    assert input[..|input|] == input;
  }

  /** The example reports: two are safe as they are, two more once one
      level is removed, and two stay unsafe. */
  function ExampleRows(): seq<seq<nat>>
  {
    [[7, 6, 4, 2, 1], [1, 2, 7, 8, 9], [9, 7, 6, 2, 1], [1, 3, 2, 4, 5], [8, 6, 4, 4, 1], [1, 3, 6, 7, 9]]
  }

  lemma ExampleSafe(row: seq<nat>)
    requires row == [7, 6, 4, 2, 1] || row == [1, 3, 6, 7, 9] || row == [1, 2, 4, 5] || row == [8, 6, 4, 1]
    ensures |row| >= 2 && Safe(row)
  {
    forall i | 1 <= i < |row| ensures StepOk(row[i - 1], row[i], row[0] < row[1]) {
      assert i == 1 || i == 2 || i == 3 || i == 4;
    }
  }

  /** Every removal from these two reports leaves a jump of four or more. */
  lemma ExampleUnfixable(row: seq<nat>)
    requires row == [1, 2, 7, 8, 9] || row == [9, 7, 6, 2, 1]
    ensures !Safe(row)
    ensures forall i :: 0 <= i < |row| ==> !Safe(RemoveAt(row, i))
  {
    var up := row[0] < row[1];
    if row == [1, 2, 7, 8, 9] {
      assert !StepOk(row[1], row[2], up);
    } else {
      assert !StepOk(row[2], row[3], up);
    }
    forall i | 0 <= i < |row| ensures !Safe(RemoveAt(row, i)) {
      var r := RemoveAt(row, i);
      var d := r[0] < r[1];
      assert i == 0 || i == 1 || i == 2 || i == 3 || i == 4;
      assert !StepOk(r[0], r[1], d) || !StepOk(r[1], r[2], d) || !StepOk(r[2], r[3], d);
    }
  }

  /** Which example reports part one accepts: only the two safe ones. */
  lemma ExampleVerdictsA(rows: seq<seq<nat>>, verdicts: seq<bool>)
    requires rows == ExampleRows() && verdicts == [true, false, false, false, false, true]
    ensures AllCheckable(rows, false)
    ensures forall k :: 0 <= k < |rows| ==> Accepted(rows[k], false) == verdicts[k]
  {
    ExampleSafe(rows[0]);
    ExampleSafe(rows[5]);
    ExampleUnfixable(rows[1]);
    ExampleUnfixable(rows[2]);
    assert !StepOk(rows[3][1], rows[3][2], rows[3][0] < rows[3][1]);
    assert !StepOk(rows[4][2], rows[4][3], rows[4][0] < rows[4][1]);
    forall k | 0 <= k < |rows| ensures Checkable(rows[k], false) && Accepted(rows[k], false) == verdicts[k] {
      assert k == 0 || k == 1 || k == 2 || k == 3 || k == 4 || k == 5;
    }
  }

  /** Which example reports part two accepts: the safe ones and the two fixed by removing one level. */
  lemma ExampleVerdictsB(rows: seq<seq<nat>>, verdicts: seq<bool>)
    requires rows == ExampleRows() && verdicts == [true, false, false, true, true, true]
    ensures AllCheckable(rows, true)
    ensures forall k :: 0 <= k < |rows| ==> Accepted(rows[k], true) == verdicts[k]
  {
    ExampleSafe(rows[0]);
    ExampleSafe(rows[5]);
    ExampleUnfixable(rows[1]);
    ExampleUnfixable(rows[2]);
    assert RemoveAt(rows[3], 1) == [1, 2, 4, 5];
    ExampleSafe(RemoveAt(rows[3], 1));
    assert RemoveAt(rows[4], 2) == [8, 6, 4, 1];
    ExampleSafe(RemoveAt(rows[4], 2));
    forall k | 0 <= k < |rows| ensures Checkable(rows[k], true) && Accepted(rows[k], true) == verdicts[k] {
      assert k == 0 || k == 1 || k == 2 || k == 3 || k == 4 || k == 5;
    }
  }

  /** The count is the last of the running counts, report by report. */
  lemma ExampleCount(rows: seq<seq<nat>>, allowSingleBadRow: bool, verdicts: seq<bool>, counts: seq<nat>)
    requires AllCheckable(rows, allowSingleBadRow) && |rows| == |verdicts| == |counts| > 0
    requires forall k :: 0 <= k < |rows| ==> Accepted(rows[k], allowSingleBadRow) == verdicts[k]
    requires counts[0] == if verdicts[0] then 1 else 0
    requires forall k :: 1 <= k < |rows| ==> counts[k] == counts[k - 1] + (if verdicts[k] then 1 else 0)
    ensures CountAccepted(rows, allowSingleBadRow) == counts[|rows| - 1]
  {
    for k := 0 to |rows|
      invariant AllCheckable(rows[..k], allowSingleBadRow)
      invariant CountAccepted(rows[..k], allowSingleBadRow) == if k == 0 then 0 else counts[k - 1]
    {
      assert rows[..k + 1][..k] == rows[..k] && rows[..k + 1][k] == rows[k];
      assert CountAccepted(rows[..k + 1], allowSingleBadRow) ==
        CountAccepted(rows[..k], allowSingleBadRow) + (if verdicts[k] then 1 else 0);
    }
    assert rows[..|rows|] == rows;
  }

  /** Part one counts 2 reports on the example. */
  lemma ExampleCountA()
    ensures AllCheckable(ExampleRows(), false)
    ensures CountAccepted(ExampleRows(), false) == 2
  {
    var counts: seq<nat> := [1, 1, 1, 1, 1, 2];
    var verdicts := [true, false, false, false, false, true];
    assert forall k :: 1 <= k < 6 ==> counts[k] == counts[k - 1] + (if verdicts[k] then 1 else 0);
    ExampleVerdictsA(ExampleRows(), verdicts);
    ExampleCount(ExampleRows(), false, verdicts, counts);
  }

  /** Part two counts 4 reports on the example. */
  lemma ExampleCountB()
    ensures AllCheckable(ExampleRows(), true)
    ensures CountAccepted(ExampleRows(), true) == 4
  {
    var counts: seq<nat> := [1, 1, 1, 2, 3, 4];
    var verdicts := [true, false, false, true, true, true];
    assert forall k :: 1 <= k < 6 ==> counts[k] == counts[k - 1] + (if verdicts[k] then 1 else 0);
    ExampleVerdictsB(ExampleRows(), verdicts);
    ExampleCount(ExampleRows(), true, verdicts, counts);
  }
}
