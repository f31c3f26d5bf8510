/** Bridge calibration equations (day07/src/main.rs): a target value and a
    list of inputs, combined strictly left to right by addition,
    multiplication and, in the second part, decimal concatenation. A line
    counts when some choice of operators reaches its target. */
module Calibration {
  import opened Options
  import opened Text

  /** `Calculation`: the expected output and the inputs of one line. */
  datatype Calculation = Calculation(expected: nat, inputs: seq<nat>)

  /** The line "T: a b c" of a calculation. */
  function CalculationText(c: Calculation): string
  {
    Numeral(c.expected) + ": " + Join(Numerals(c.inputs), " ")
  }

  /** The line starts with the digits of `expected`, followed at `k` by ": ". */
  predicate ExpectedAt(line: string, k: int, expected: nat)
  {
    0 < k && k + 2 <= |line| && line[k..k + 2] == ": " && IsNumeral(line[..k]) && expected == ParseNat(line[..k])
  }

  /** The text of the inputs, after the first ": ", ends at `j` of `rest`:
      no ": " starts before `j`, and one starts at `j` unless `rest` ends there. */
  predicate InputsEndAt(rest: string, j: int)
  {
    && 0 <= j <= |rest|
    && SeparatorFree(rest[..j], ": ")
    && (j == |rest| || SeparatorAt(rest, j, ": "))
  }

  /** In a line whose first ": " is at `k`, the inputs' text is `line[k + 2..j]`. */
  predicate InputsEnd(line: string, k: int, j: int)
  {
    0 <= k && k + 2 <= j <= |line| && InputsEndAt(line[k + 2..], j - k - 2)
  }

  /** `Calculation::parse`: the text before the first ": " is the expected
      output, the whitespace-separated words of the text after it, up to
      the next ": ", are the inputs; text after a second ": " is ignored.
      None where the source panics (no ": ", or a piece that is not a
      number). A line parses only when it starts with a number and ": ",
      and then exactly when the inputs' text is numbers, into them. */
  function ParseCalculation(line: string): (r: Option<Calculation>)
    ensures r.Some? ==> exists k :: ExpectedAt(line, k, r.value.expected)
    ensures forall k, e, j :: ExpectedAt(line, k, e) && InputsEnd(line, k, j) ==>
      && (r.Some? <==> ParseNumbers(Words(line[k + 2..j])).Some?)
      && (r.Some? ==> r.value == Calculation(e, ParseNumbers(Words(line[k + 2..j])).value))
  {
    CalculationShapes(line);
    var parts := Split(line, ": ");
    if |parts| < 2 || !IsNumeral(parts[0]) then None
    else
      match ParseNumbers(Words(parts[1]))
      case None => None
      case Some(inputs) => Some(Calculation(ParseNat(parts[0]), inputs))
  }

  /** The first two pieces of `Split(line, ": ")` are the target and the inputs of a line of shape `ExpectedAt`. */
  lemma CalculationShapes(line: string)
    ensures var parts := Split(line, ": ");
      |parts| >= 2 && IsNumeral(parts[0]) ==> ExpectedAt(line, |parts[0]|, ParseNat(parts[0]))
    ensures forall k, e, j :: ExpectedAt(line, k, e) && InputsEnd(line, k, j) ==>
      var parts := Split(line, ": ");
      |parts| >= 2 && parts[0] == line[..k] && parts[1] == line[k + 2..j]
  {
    var parts := Split(line, ": ");
    if |parts| >= 2 && IsNumeral(parts[0]) {
      var k := |parts[0]|;
      assert line == parts[0] + ": " + Join(parts[1..], ": ");
      assert line[..k] == parts[0];
      assert line[k..k + 2] == ": ";
    }
    forall k, e, j | ExpectedAt(line, k, e) && InputsEnd(line, k, j)
      ensures |parts| >= 2 && parts[0] == line[..k] && parts[1] == line[k + 2..j]
    {
      CalculationPieces(line, k, e, j);
    }
  }

  lemma CalculationPieces(line: string, k: int, e: nat, j: int)
    requires ExpectedAt(line, k, e) && InputsEnd(line, k, j)
    ensures var parts := Split(line, ": ");
      |parts| >= 2 && parts[0] == line[..k] && parts[1] == line[k + 2..j]
  {
    var rest, m := line[k + 2..], j - k - 2;
    assert Split(line, ": ") == [line[..k]] + Split(rest, ": ") by {
      assert ':' !in line[..k] by { assert !IsDigit(':'); }
      SplitFirst(line, ": ", k);
    }
    assert Split(rest, ": ")[0] == line[k + 2..j] by {
      InputsPiece(rest, m);
      assert rest[..m] == line[k + 2..j];
    }
  }

  /** The inputs' text is the first piece of what follows the first ": ". */
  lemma InputsPiece(rest: string, j: int)
    requires InputsEndAt(rest, j)
    ensures Split(rest, ": ")[0] == rest[..j]
  {
    if j == |rest| {
      assert rest[..j] == rest;
      SplitSeparatorFree(rest, ": ");
    } else {
      assert rest == rest[..j] + ": " + rest[j + 2..] by {
        assert rest[j..j + 2] == ": ";
        assert rest == rest[..j] + rest[j..j + 2] + rest[j + 2..];
      }
      SplitAtSeparator(rest[..j], ": ", rest[j + 2..]);
    }
  }

  /** With no ':' after the first ": ", the inputs run to the end of the line. */
  lemma InputsToEnd(rest: string)
    requires ':' !in rest
    ensures InputsEndAt(rest, |rest|)
  {
    assert rest[..|rest|] == rest;
    forall i | 0 <= i < |rest| ensures !SeparatorAt(rest + ": ", i, ": ") {
      assert (rest + ": ")[i] == rest[i];
    }
  }

  /** "190: 10:19" has one ": ", but its inputs' text "10:19" is not a
      number, so the line does not parse (`"10:19".parse().unwrap()` panics). */
  lemma BareColonInInputs()
    ensures ParseCalculation("190: 10:19").None?
  {
    var line, inputs := "190: 10:19", "10:19";
    assert ExpectedAt(line, 3, 190) by {
      assert line[..3] == "190" && line[3..5] == ": ";
    }
    BareColonEndsInputs();
    assert line[5..10] == inputs;
    BareColonOneWord();
    assert !IsNumeral(inputs) by { assert !IsDigit(inputs[2]); }
    assert ParseNumbers([inputs]).None?;
  }

  lemma BareColonEndsInputs()
    ensures InputsEnd("190: 10:19", 3, 10)
  {
    var line, rest := "190: 10:19", "10:19";
    assert line[5..] == rest && rest[..5] == rest;
    forall i | 0 <= i < 5 ensures !SeparatorAt(rest + ": ", i, ": ") {
      assert (rest + ": ")[i + 1] == if i < 4 then rest[i + 1] else ':';
    }
  }

  lemma BareColonOneWord()
    ensures Words("10:19") == ["10:19"]
  {
    var word := "10:19";
    assert NoWhitespace(word);
    assert Spacing(["", ""], 1) && Interleave(["", ""], [word]) == word;
    WordsOfSpaced(["", ""], [word]);
  }

  /** Parsing the text of a calculation gives the calculation back. */
  lemma ParseCalculationText(c: Calculation)
    ensures ParseCalculation(CalculationText(c)) == Some(c)
  {
    var words := Numerals(c.inputs);
    var parts := [Numeral(c.expected), Join(words, " ")];
    assert Join(parts, ": ") == CalculationText(c) by {
      assert parts[1..] == [Join(words, " ")];
    }
    NumeralWithout(c.expected, ':');
    forall i | 0 <= i < |words| ensures ':' !in words[i] && |words[i]| > 0 && NoWhitespace(words[i]) {
      NumeralWithout(c.inputs[i], ':');
    }
    JoinWithout(words, " ", ':');
    SplitJoin(parts, ": ");
    WordsJoin(words);
    ParseNumerals(c.inputs);
  }

  // ---------------------------------------------------------------------
  // Operators
  // ---------------------------------------------------------------------

  /** The number of decimal digits `to_string` prints for `n`. */
  function Digits(n: nat): nat
  {
    |Numeral(n)|
  }

  /** `n` has `Digits(n)` digits: it is below 10^Digits(n), and at least
      10^(Digits(n) - 1) unless it is a single digit. */
  lemma {:induction false} DigitsBounds(n: nat)
    ensures Digits(n) >= 1 && n < Pow10(Digits(n))
    ensures Digits(n) == 1 <==> n < 10
    ensures Digits(n) > 1 ==> Pow10(Digits(n) - 1) <= n
    decreases n
  {
    if n >= 10 {
      DigitsBounds(n / 10);
      assert Numeral(n) == Numeral(n / 10) + [DigitChar(n % 10)];
      assert Digits(n) == Digits(n / 10) + 1;
      assert Pow10(Digits(n) - 1) == Pow10(Digits(n / 10));
      if Digits(n / 10) > 1 {
        assert Pow10(Digits(n / 10)) == 10 * Pow10(Digits(n / 10) - 1);
      }
    }
  }

  /** `execute_operator`: 0 adds, 1 multiplies, 2 prints both numbers,
      joins the two texts and reads the result back, which shifts the first
      number left by the digits of the second. The source panics on any
      other operator id. */
  function ExecuteOperator(op: nat, a: nat, b: nat): (r: nat)
    requires op <= 2
    ensures op == 2 ==> r == a * Pow10(Digits(b)) + b
  {
    if op == 0 then a + b
    else if op == 1 then a * b
    else
      ParseNatAppend(Numeral(a), Numeral(b));
      ParseNat(Numeral(a) + Numeral(b))
  }

  /** The operators never yield less than their first operand unless
      multiplying by zero, so results only grow along a line of positive inputs. */
  lemma OperatorGrows(op: nat, a: nat, b: nat)
    requires op <= 2
    ensures b > 0 ==> ExecuteOperator(op, a, b) >= a
  {
    if b > 0 && op == 1 {
      MulAtLeast(a, b);
    } else if b > 0 && op == 2 {
      DigitsBounds(b);
      MulAtLeast(a, Pow10(Digits(b)));
    }
  }

  lemma MulAtLeast(a: nat, p: nat)
    requires p >= 1
    ensures a * p >= a
  {
    assert a * p == a + a * (p - 1);
  }

  // ---------------------------------------------------------------------
  // Operator sequences
  // ---------------------------------------------------------------------

  /** An operator sequence of length `k` over the ids `0..=maxOp`. */
  predicate IsOpSequence(ops: seq<nat>, k: nat, maxOp: nat)
  {
    |ops| == k && forall i :: 0 <= i < |ops| ==> ops[i] <= maxOp
  }

  function Power(b: nat, e: nat): nat
  {
    if e == 0 then 1 else b * Power(b, e - 1)
  }

  /** The operator sequence numbered `n` among those of length `k` over the
      ids `0..b-1`: the `k` lowest digits of `n` in base `b`, the most
      significant first. */
  function OpSequenceAt(n: nat, k: nat, b: nat): (ops: seq<nat>)
    requires b > 0
    ensures IsOpSequence(ops, k, b - 1)
    decreases k
  {
    if k == 0 then []
    else OpSequenceAt(n / b, k - 1, b) + [n % b]
  }

  /** The number of an operator sequence: its ids read as digits in base `b`. */
  function Index(ops: seq<nat>, b: nat): nat
    decreases |ops|
  {
    if |ops| == 0 then 0 else Index(ops[..|ops| - 1], b) * b + ops[|ops| - 1]
  }

  lemma MulOrder(a: nat, c: nat, b: nat)
    ensures a < c ==> a * b + b <= c * b
    ensures a <= c ==> a * b <= c * b
  {
    if a <= c {
      var e := c - a;
      Distribute(a, e, b);
      if a < c {
        MulAtLeast(b, e);
        assert e * b == b * e;
      }
    }
  }

  lemma Distribute(x: nat, y: nat, b: nat)
    ensures (x + y) * b == x * b + y * b
  {
  }

  lemma DivMod(v: nat, b: nat, d: nat)
    requires d < b
    ensures (v * b + d) / b == v && (v * b + d) % b == d
  {
    var n := v * b + d;
    var q, r := n / b, n % b;
    assert q * b + r == n;
    MulOrder(q, v, b);
    MulOrder(v, q, b);
  }

  lemma MulBelow(v: nat, p: nat, b: nat, d: nat)
    requires v < p && d < b
    ensures v * b + d < p * b
  {
    assert v * b <= (p - 1) * b;
  }

  /** There are b^k sequences of length `k`: each of them is numbered below b^k. */
  lemma {:induction false} IndexBound(ops: seq<nat>, b: nat)
    requires b > 0 && IsOpSequence(ops, |ops|, b - 1)
    ensures Index(ops, b) < Power(b, |ops|)
    decreases |ops|
  {
    if |ops| > 0 {
      var init := ops[..|ops| - 1];
      IndexBound(init, b);
      MulBelow(Index(init, b), Power(b, |init|), b, ops[|ops| - 1]);
    }
  }

  /** The sequence with the number of `ops` is `ops` itself. */
  lemma {:induction false} IndexRoundTrip(ops: seq<nat>, b: nat)
    requires b > 0 && IsOpSequence(ops, |ops|, b - 1)
    ensures OpSequenceAt(Index(ops, b), |ops|, b) == ops
    decreases |ops|
  {
    if |ops| > 0 {
      var init := ops[..|ops| - 1];
      IndexRoundTrip(init, b);
      DivMod(Index(init, b), b, ops[|ops| - 1]);
      assert init + [ops[|ops| - 1]] == ops;
    }
  }

  /** Numbers below b^k name different sequences: the enumeration has no repeats. */
  lemma {:induction false} OpSequenceAtRoundTrip(n: nat, k: nat, b: nat)
    requires b > 0 && n < Power(b, k)
    ensures Index(OpSequenceAt(n, k, b), b) == n
    decreases k
  {
    if k > 0 {
      var q, r := n / b, n % b;
      var ops := OpSequenceAt(n, k, b);
      assert ops[..k - 1] == OpSequenceAt(q, k - 1, b) && ops[k - 1] == r;
      QuotientBelow(n, b, k);
      OpSequenceAtRoundTrip(q, k - 1, b);
      DivModSplit(n, b);
    }
  }

  lemma DivModSplit(n: nat, b: nat)
    requires b > 0
    ensures (n / b) * b + n % b == n
  {
  }

  lemma QuotientBelow(n: nat, b: nat, k: nat)
    requires b > 0 && k > 0 && n < Power(b, k)
    ensures n / b < Power(b, k - 1)
  {
    assert (n / b) * b <= n;
    MulOrder(Power(b, k - 1), n / b, b);
  }

  /** `multi_cartesian_product` of `k` copies of `0..=maxOp`: every operator
      sequence of length `k`, in lexicographic order (the first position
      varies slowest). */
  function OpSequences(k: nat, maxOp: nat): (r: seq<seq<nat>>)
  {
    seq(Power(maxOp + 1, k), n requires 0 <= n < Power(maxOp + 1, k) => OpSequenceAt(n, k, maxOp + 1))
  }

  // ---------------------------------------------------------------------
  // Evaluation
  // ---------------------------------------------------------------------

  /** The value of `current_value` after the inner loop: each operator
      applied to the value so far and the next input, strictly left to
      right, with no precedence between the operators. With additions
      only it is the sum of the inputs; with positive inputs it never drops
      below the first. */
  function Evaluate(values: seq<nat>, ops: seq<nat>): (r: nat)
    requires |values| == |ops| + 1 && IsOpSequence(ops, |ops|, 2)
    ensures (forall i :: 0 <= i < |ops| ==> ops[i] == 0) ==> r == Sum(values)
    ensures (forall i :: 1 <= i < |values| ==> values[i] > 0) ==> r >= values[0]
    decreases |ops|
  {
    if |ops| == 0 then values[0]
    else
      var k := |ops| - 1;
      var acc := Evaluate(values[..k + 1], ops[..k]);
      OperatorGrows(ops[k], acc, values[k + 1]);
      ExecuteOperator(ops[k], acc, values[k + 1])
  }

  /** The sum of the inputs: the value when every operator is an addition. */
  function Sum(values: seq<nat>): nat
    decreases |values|
  {
    if |values| == 0 then 0 else Sum(values[..|values| - 1]) + values[|values| - 1]
  }

  /** The first operator is applied first: it combines the first two
      inputs into the starting value for the rest of the line. */
  lemma {:induction false} EvaluateFirst(values: seq<nat>, ops: seq<nat>)
    requires |values| == |ops| + 1 && |ops| > 0 && IsOpSequence(ops, |ops|, 2)
    ensures Evaluate(values, ops) ==
            Evaluate([ExecuteOperator(ops[0], values[0], values[1])] + values[2..], ops[1..])
    decreases |ops|
  {
    var head := ExecuteOperator(ops[0], values[0], values[1]);
    if |ops| > 1 {
      var k := |ops| - 1;
      var rest, restOps := [head] + values[2..], ops[1..];
      assert rest[..k] == [head] + values[..k + 1][2..] && rest[k] == values[k + 1] by {
        assert values[..k + 1][2..] == values[2..k + 1];
      }
      assert restOps[..k - 1] == ops[..k][1..] && restOps[k - 1] == ops[k];
      EvaluateFirst(values[..k + 1], ops[..k]);
      assert Evaluate(values, ops) ==
             ExecuteOperator(ops[k], Evaluate(values[..k + 1], ops[..k]), values[k + 1]);
      assert Evaluate(rest, restOps) ==
             ExecuteOperator(ops[k], Evaluate(rest[..k], restOps[..k - 1]), values[k + 1]);
    } else {
      assert values[2..] == [];
    }
  }

  /** There is no precedence: `a + b * c` is `(a + b) * c`. */
  lemma NoPrecedence(a: nat, b: nat, c: nat)
    ensures Evaluate([a, b, c], [0, 1]) == (a + b) * c
  {
    assert [a, b, c][..2] == [a, b];
    assert [0, 1][..1] == [0];
    assert [a, b][..1] == [a];
  }

  // ---------------------------------------------------------------------
  // Possible outputs
  // ---------------------------------------------------------------------

  /** `max_op_id`. */
  function MaxOp(includeConcat: bool): nat
  {
    if includeConcat then 2 else 1
  }

  /** The value of each operator sequence, in order. */
  function EvaluateEach(values: seq<nat>, sequences: seq<seq<nat>>): (r: seq<nat>)
    requires forall i :: 0 <= i < |sequences| ==> |values| == |sequences[i]| + 1 && IsOpSequence(sequences[i], |sequences[i]|, 2)
    ensures |r| == |sequences|
    ensures forall i :: 0 <= i < |sequences| ==> r[i] == Evaluate(values, sequences[i])
  {
    seq(|sequences|, i requires 0 <= i < |sequences| => Evaluate(values, sequences[i]))
  }

  /** What `possible_outputs` returns: the value of each operator sequence,
      in enumeration order, one per sequence: 2^(n-1) of them without
      concatenation, 3^(n-1) with it. */
  function Outputs(values: seq<nat>, includeConcat: bool): (r: seq<nat>)
    requires |values| >= 1
    ensures includeConcat ==> |r| == Power(3, |values| - 1)
    ensures !includeConcat ==> |r| == Power(2, |values| - 1)
    ensures forall i :: 0 <= i < |r| ==> r[i] == Evaluate(values, OpSequenceAt(i, |values| - 1, MaxOp(includeConcat) + 1))
  {
    EvaluateEach(values, OpSequences(|values| - 1, MaxOp(includeConcat)))
  }

  /** Each output is the value of some operator sequence. */
  lemma OutputReached(values: seq<nat>, includeConcat: bool, i: nat)
    requires |values| >= 1 && i < |Outputs(values, includeConcat)|
    ensures var ops := OpSequences(|values| - 1, MaxOp(includeConcat))[i];
            IsOpSequence(ops, |values| - 1, MaxOp(includeConcat)) &&
            Evaluate(values, ops) == Outputs(values, includeConcat)[i]
  {
  }

  /** The value of every operator sequence is among the outputs, at the
      sequence's own number. */
  lemma ReachedOutput(values: seq<nat>, includeConcat: bool, ops: seq<nat>)
    requires |values| >= 1 && IsOpSequence(ops, |values| - 1, MaxOp(includeConcat))
    ensures Index(ops, MaxOp(includeConcat) + 1) < |Outputs(values, includeConcat)|
    ensures Outputs(values, includeConcat)[Index(ops, MaxOp(includeConcat) + 1)] == Evaluate(values, ops)
  {
    var b := MaxOp(includeConcat) + 1;
    IndexBound(ops, b);
    IndexRoundTrip(ops, b);
  }

  /** A value is possible exactly when some choice of operators reaches it. */
  lemma OutputsMeaning(values: seq<nat>, includeConcat: bool, x: nat)
    requires |values| >= 1
    ensures x in Outputs(values, includeConcat) <==>
              exists ops :: IsOpSequence(ops, |values| - 1, MaxOp(includeConcat)) && Evaluate(values, ops) == x
  {
    var k, m := |values| - 1, MaxOp(includeConcat);
    var outputs := Outputs(values, includeConcat);
    if x in outputs {
      var i :| 0 <= i < |outputs| && outputs[i] == x;
      OutputReached(values, includeConcat, i);
    }
    forall ops | IsOpSequence(ops, k, m) && Evaluate(values, ops) == x ensures x in outputs {
      ReachedOutput(values, includeConcat, ops);
    }
  }

  /** The enumeration is exhaustive and has no repeats: each operator
      sequence of the right length occurs in it exactly once. */
  lemma OpSequencesExactlyOnce(ops: seq<nat>, maxOp: nat, n: nat)
    requires IsOpSequence(ops, |ops|, maxOp) && n < |OpSequences(|ops|, maxOp)|
    ensures OpSequences(|ops|, maxOp)[n] == ops <==> n == Index(ops, maxOp + 1)
    ensures Index(ops, maxOp + 1) < |OpSequences(|ops|, maxOp)|
  {
    IndexBound(ops, maxOp + 1);
    IndexRoundTrip(ops, maxOp + 1);
    OpSequenceAtRoundTrip(n, |ops|, maxOp + 1);
  }

  /** Every value reachable with + and * alone is reachable once
      concatenation is allowed too. */
  lemma OutputsWithoutConcatIncluded(values: seq<nat>, x: nat)
    requires |values| >= 1 && x in Outputs(values, false)
    ensures x in Outputs(values, true)
  {
    OutputsMeaning(values, false, x);
    OutputsMeaning(values, true, x);
  }

  /** `possible_outputs`: for each operator sequence, fold the inputs left
      to right and collect the results. The source needs two inputs at
      least: for a single input the product of zero ranges depends on the
      library version. */
  method PossibleOutputs(values: seq<nat>, includeConcat: bool) returns (results: seq<nat>)
    requires |values| >= 2
    ensures results == Outputs(values, includeConcat)
  {
    var maxOpId := if includeConcat then 2 else 1;
    var opSequences := OpSequences(|values| - 1, maxOpId);
    ghost var expected := EvaluateEach(values, opSequences);
    results := [];
    for s := 0 to |opSequences|
      invariant results == expected[..s]
    {
      var current := Fold(values, opSequences[s]);
      assert expected[..s + 1] == expected[..s] + [current];
      results := results + [current];
    }
    assert expected[..|opSequences|] == expected;
  }

  /** The inner loop of `possible_outputs`: start from the first input and
      apply each operator to the value so far and the next input. */
  method Fold(values: seq<nat>, opSeq: seq<nat>) returns (current: nat)
    requires |values| == |opSeq| + 1 && IsOpSequence(opSeq, |opSeq|, 2)
    ensures current == Evaluate(values, opSeq)
  {
    current := values[0];
    for i := 0 to |opSeq|
      invariant current == Evaluate(values[..i + 1], opSeq[..i])
    {
      assert values[..i + 2][..i + 1] == values[..i + 1];
      assert opSeq[..i + 1][..i] == opSeq[..i];
      current := ExecuteOperator(opSeq[i], current, values[i + 1]);
    }
    assert values[..|opSeq| + 1] == values && opSeq[..|opSeq|] == opSeq;
  }

  /** `can_be_calculated_from_inputs`: the expected output is among the possible outputs. */
  method CanBeCalculatedFromInputs(c: Calculation, includeConcat: bool) returns (ok: bool)
    requires |c.inputs| >= 2
    ensures ok <==> c.expected in Outputs(c.inputs, includeConcat)
  {
    var outputs := PossibleOutputs(c.inputs, includeConcat);
    ok := c.expected in outputs;
  }

  /** The line "190: 10 19" is reached by a multiplication. */
  lemma ExampleMultiplication()
    ensures 190 in Outputs([10, 19], false)
  {
    assert [10, 19][..1] == [10];
    assert Evaluate([10, 19], [1]) == 190;
    OutputsMeaning([10, 19], false, 190);
  }

  /** The line "156: 15 6" is reached by concatenation... */
  lemma ExampleConcatenation()
    ensures 156 in Outputs([15, 6], true)
  {
    assert [15, 6][..1] == [15];
    assert Digits(6) == 1;
    assert Evaluate([15, 6], [2]) == 156;
    OutputsMeaning([15, 6], true, 156);
  }

  /** ... and only by concatenation: 15 + 6 and 15 * 6 miss it. */
  lemma ExampleNeedsConcatenation()
    ensures 156 !in Outputs([15, 6], false)
  {
    var values := [15, 6];
    assert values[..1] == [15];
    forall ops | IsOpSequence(ops, 1, 1) ensures Evaluate(values, ops) != 156 {
      assert ops[..0] == [];
      assert Evaluate(values, ops) == ExecuteOperator(ops[0], 15, 6);
    }
    OutputsMeaning(values, false, 156);
  }

  // ---------------------------------------------------------------------
  // The puzzle
  // ---------------------------------------------------------------------

  /** Every line is a calculation with at least two inputs (the source
      panics on a line that does not parse). */
  predicate ValidLines(lines: seq<string>)
  {
    forall i :: 0 <= i < |lines| ==> ParseCalculation(lines[i]).Some? && |ParseCalculation(lines[i]).value.inputs| >= 2
  }

  /** The sum of the expected outputs of the calculations that can be calculated. */
  function Total(calculations: seq<Calculation>, includeConcat: bool): nat
    requires forall i :: 0 <= i < |calculations| ==> |calculations[i].inputs| >= 2
    decreases |calculations|
  {
    if |calculations| == 0 then 0
    else
      var last := calculations[|calculations| - 1];
      Total(calculations[..|calculations| - 1], includeConcat)
      + (if last.expected in Outputs(last.inputs, includeConcat) then last.expected else 0)
  }

  lemma TotalStep(calculations: seq<Calculation>, i: nat, includeConcat: bool)
    requires forall i :: 0 <= i < |calculations| ==> |calculations[i].inputs| >= 2
    requires i < |calculations|
    ensures Total(calculations[..i + 1], includeConcat) == Total(calculations[..i], includeConcat)
      + (if calculations[i].expected in Outputs(calculations[i].inputs, includeConcat) then calculations[i].expected else 0)
  {
    assert calculations[..i + 1][..i] == calculations[..i];
  }

  /** Allowing concatenation never lowers the total: every line accepted
      without it is accepted with it. */
  lemma {:induction false} TotalGrowsWithConcat(calculations: seq<Calculation>)
    requires forall i :: 0 <= i < |calculations| ==> |calculations[i].inputs| >= 2
    ensures Total(calculations, false) <= Total(calculations, true)
    decreases |calculations|
  {
    if |calculations| > 0 {
      var last := calculations[|calculations| - 1];
      TotalGrowsWithConcat(calculations[..|calculations| - 1]);
      if last.expected in Outputs(last.inputs, false) {
        OutputsWithoutConcatIncluded(last.inputs, last.expected);
      }
    }
  }

  /** The calculation on each line. */
  function ParseLines(lines: seq<string>): (calculations: seq<Calculation>)
    requires ValidLines(lines)
    ensures |calculations| == |lines|
    ensures forall i :: 0 <= i < |lines| ==> Some(calculations[i]) == ParseCalculation(lines[i])
    ensures forall i :: 0 <= i < |lines| ==> |calculations[i].inputs| >= 2
  {
    seq(|lines|, i requires 0 <= i < |lines| => ParseCalculation(lines[i]).value)
  }

  /** `solve`: parse every line and sum the expected outputs of the lines
      that can be calculated (`solve_a` without, `solve_b` with
      concatenation). */
  method Solve(lines: seq<string>, includeConcat: bool) returns (total: nat)
    requires ValidLines(lines)
    ensures total == Total(ParseLines(lines), includeConcat)
  {
    ghost var calculations := ParseLines(lines);
    total := 0;
    for i := 0 to |lines|
      invariant total == Total(calculations[..i], includeConcat)
    {
      var c := ParseCalculation(lines[i]).value;
      assert c == calculations[i];
      TotalStep(calculations, i, includeConcat);
      var ok := CanBeCalculatedFromInputs(c, includeConcat);
      if ok {
        total := total + c.expected;
      }
    }
    assert calculations[..|lines|] == calculations;
  }
}
