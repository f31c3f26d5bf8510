/** Page ordering rules and print updates (day05/src/main.rs): checking an
    update against the rules "page a before page b", repairing an update by
    moving pages, and the two puzzle answers built on them. */
module PageOrdering {
  import opened Options
  import opened Text

  // ---------------------------------------------------------------------
  // Rules and updates as text
  // ---------------------------------------------------------------------

  /** `PageOrderingRule`: page `lower` has to be printed before page `higher`. */
  datatype Rule = Rule(lower: nat, higher: nat)

  /** The line "lower|higher" of a rule. */
  function RuleText(r: Rule): string
  {
    Numeral(r.lower) + "|" + Numeral(r.higher)
  }

  /** The line holds the digits of `rule.lower` up to the '|' at `i`, then
      the digits of `rule.higher` up to `j`, where the line ends or the next
      '|' stands. */
  predicate RuleAt(s: string, i: int, j: int, rule: Rule)
  {
    && 0 < i < j <= |s| && s[i] == '|'
    && IsNumeral(s[..i]) && IsNumeral(s[i + 1..j]) && (j == |s| || s[j] == '|')
    && rule == Rule(ParseNat(s[..i]), ParseNat(s[i + 1..j]))
  }

  /** `PageOrderingRule::parse`: the first two pieces between '|' read as
      numbers; pieces after the second are ignored. None where the source
      panics (a missing piece or a piece that is not a number). A line
      parses exactly when it has the shape `RuleAt`, into the rule it spells. */
  function ParseRule(s: string): (r: Option<Rule>)
    ensures r.Some? ==> exists i, j :: RuleAt(s, i, j, r.value)
    ensures forall i, j, rule :: RuleAt(s, i, j, rule) ==> r == Some(rule)
  {
    RuleShapes(s);
    var parts := Split(s, "|");
    if |parts| >= 2 && IsNumeral(parts[0]) && IsNumeral(parts[1]) then
      Some(Rule(ParseNat(parts[0]), ParseNat(parts[1])))
    else
      None
  }

  /** The first two pieces of `Split(s, "|")` are the two numbers of a line of shape `RuleAt`. */
  lemma RuleShapes(s: string)
    ensures var parts := Split(s, "|");
      |parts| >= 2 && IsNumeral(parts[0]) && IsNumeral(parts[1]) ==>
        RuleAt(s, |parts[0]|, |parts[0]| + 1 + |parts[1]|, Rule(ParseNat(parts[0]), ParseNat(parts[1])))
    ensures forall i, j, rule :: RuleAt(s, i, j, rule) ==>
      var parts := Split(s, "|");
      |parts| >= 2 && parts[0] == s[..i] && parts[1] == s[i + 1..j]
  {
    var parts := Split(s, "|");
    if |parts| >= 2 && IsNumeral(parts[0]) && IsNumeral(parts[1]) {
      RuleShapeOfParts(s);
    }
    forall i, j, rule | RuleAt(s, i, j, rule)
      ensures |parts| >= 2 && parts[0] == s[..i] && parts[1] == s[i + 1..j]
    {
      assert !IsDigit('|');
      PartsOfRuleShape(s, i, j);
    }
  }

  /** Two numeric pieces in front make the shape `RuleAt`. */
  lemma RuleShapeOfParts(s: string)
    requires var parts := Split(s, "|"); |parts| >= 2 && IsNumeral(parts[0]) && IsNumeral(parts[1])
    ensures var parts := Split(s, "|");
      RuleAt(s, |parts[0]|, |parts[0]| + 1 + |parts[1]|, Rule(ParseNat(parts[0]), ParseNat(parts[1])))
  {
    var parts := Split(s, "|");
    var i := |parts[0]|;
    var j := i + 1 + |parts[1]|;
    var tail := Join(parts[1..], "|");
    JoinStartsWithFirst(parts[1..], "|");
    assert s == parts[0] + "|" + tail;
    assert s[..i] == parts[0];
    assert s[i + 1..j] == tail[..|parts[1]|];
    if |parts| > 2 {
      assert parts[1..][1..] == parts[2..];
      assert tail == parts[1] + "|" + Join(parts[2..], "|");
      assert s[j] == tail[|parts[1]|];
    } else {
      assert tail == parts[1];
    }
  }

  /** When '|' stands at `i` and at `j` (or the line ends there) and not
      before, the first two pieces are the text up to `i` and from `i` to `j`. */
  lemma PartsOfRuleShape(s: string, i: int, j: int)
    requires 0 < i < j <= |s| && s[i] == '|' && (j == |s| || s[j] == '|')
    requires '|' !in s[..i] && '|' !in s[i + 1..j]
    ensures var parts := Split(s, "|"); |parts| >= 2 && parts[0] == s[..i] && parts[1] == s[i + 1..j]
  {
    FirstPieceAndRest(s, i);
    var t, k := s[i + 1..], j - i - 1;
    assert t[..k] == s[i + 1..j];
    assert k == |t| || t[k] == s[j];
    FirstPiece(t, k);
  }

  /** A '|' at `i` and none before splits the line there. */
  lemma FirstPieceAndRest(s: string, i: int)
    requires 0 <= i < |s| && s[i] == '|' && '|' !in s[..i]
    ensures Split(s, "|") == [s[..i]] + Split(s[i + 1..], "|")
  {
    assert s == s[..i] + "|" + s[i + 1..];
    SplitAtFirstSeparator(s[..i], "|", s[i + 1..]);
  }

  /** Text up to the first '|', or to the end, is the first piece. */
  lemma FirstPiece(t: string, k: int)
    requires 0 <= k <= |t| && (k == |t| || t[k] == '|') && '|' !in t[..k]
    ensures Split(t, "|")[0] == t[..k]
  {
    if k == |t| {
      assert t[..k] == t;
      SplitWithoutSeparator(t, "|");
    } else {
      FirstPieceAndRest(t, k);
    }
  }

  /** Parsing the text of a rule gives the rule back. */
  lemma ParseRuleText(r: Rule)
    ensures ParseRule(RuleText(r)) == Some(r)
  {
    var parts := [Numeral(r.lower), Numeral(r.higher)];
    NumeralWithout(r.lower, '|');
    NumeralWithout(r.higher, '|');
    assert Join(parts, "|") == RuleText(r) by {
      assert parts[1..] == [Numeral(r.higher)];
    }
    SplitJoin(parts, "|");
  }

  /** A line without '|' is not a rule. */
  lemma ParseRuleNeedsBar(s: string)
    requires '|' !in s
    ensures ParseRule(s) == None
  {
    SplitWithoutSeparator(s, "|");
  }

  /** The line "a,b,c" of an update. */
  function UpdateText(numbers: seq<nat>): string
  {
    Join(Numerals(numbers), ",")
  }

  /** `PageUpdate::parse`: the pieces between ',' read as numbers. A line
      that parses is made of digits and commas only and names at least one
      page. */
  function ParseUpdate(s: string): (r: Option<seq<nat>>)
    ensures r.Some? ==> |r.value| > 0 && forall c :: c in s ==> IsDigit(c) || c == ','
  {
    UpdateCharacters(s);
    ParseNumbers(Split(s, ","))
  }

  /** Numbers separated by commas leave no room for another character. */
  lemma UpdateCharacters(s: string)
    ensures ParseNumbers(Split(s, ",")).Some? ==> forall c :: c in s ==> IsDigit(c) || c == ','
  {
    var parts := Split(s, ",");
    if ParseNumbers(parts).Some? {
      forall c | c in s ensures IsDigit(c) || c == ',' {
        if !IsDigit(c) && c != ',' {
          forall i | 0 <= i < |parts| ensures c !in parts[i] {
            assert IsNumeral(parts[i]);
          }
          JoinWithout(parts, ",", c);
        }
      }
    }
  }

  /** Parsing the text of a non-empty update gives the update back. */
  lemma ParseUpdateText(numbers: seq<nat>)
    requires |numbers| > 0
    ensures ParseUpdate(UpdateText(numbers)) == Some(numbers)
  {
    var parts := Numerals(numbers);
    forall i | 0 <= i < |parts| ensures ',' !in parts[i] {
      NumeralWithout(numbers[i], ',');
    }
    SplitJoin(parts, ",");
    assert ParseNumbers(parts).value == numbers;
  }

  /** An empty line is not an update (the source panics on it, which is why
      the input reader drops empty lines). */
  lemma EmptyLineIsNoUpdate()
    ensures ParseUpdate("") == None
  {
    assert Split("", ",") == [""];
  }

  // ---------------------------------------------------------------------
  // Checking an update
  // ---------------------------------------------------------------------

  /** `iter().position`: the index of the first occurrence of `v`, if any. */
  function Position(numbers: seq<nat>, v: nat): (r: Option<nat>)
    ensures r.None? <==> v !in numbers
    ensures r.Some? ==> r.value < |numbers| && numbers[r.value] == v && v !in numbers[..r.value]
    decreases |numbers|
  {
    if |numbers| == 0 then None
    else if numbers[0] == v then Some(0)
    else
      match Position(numbers[1..], v)
      case None => None
      case Some(i) =>
        assert numbers[..i + 1] == [numbers[0]] + numbers[1..][..i];
        Some(i + 1)
  }

  lemma NotBefore(s: seq<nat>, v: nat, k: nat)
    requires k <= |s| && v !in s[..k]
    ensures forall q :: 0 <= q < k ==> s[q] != v
  {
    forall q | 0 <= q < k ensures s[q] != v {
      assert s[..k][q] == s[q];
    }
  }

  /** The first occurrence is the one with no earlier occurrence. */
  lemma PositionOf(s: seq<nat>, v: nat, k: nat)
    requires k < |s| && s[k] == v && v !in s[..k]
    ensures Position(s, v) == Some(k)
  {
    var p := Position(s, v).value;
    NotBefore(s, v, k);
    NotBefore(s, v, p);
  }

  /** `is_rule_followed`: the first index of the lower page is below the
      first index of the higher page, where "absent" is below every index.
      So a missing higher page breaks the rule, and a missing lower page
      alone does not. */
  predicate IsRuleFollowed(numbers: seq<nat>, r: Rule)
    ensures r.higher !in numbers ==> !IsRuleFollowed(numbers, r)
    ensures r.lower !in numbers && r.higher in numbers ==> IsRuleFollowed(numbers, r)
  {
    Less(Position(numbers, r.lower), Position(numbers, r.higher))
  }

  /** A rule is followed exactly when the higher page occurs, and, if the
      lower page occurs too, some occurrence of it comes before every
      occurrence of the higher page. */
  lemma RuleFollowedMeaning(numbers: seq<nat>, r: Rule)
    ensures IsRuleFollowed(numbers, r) <==>
              r.higher in numbers &&
              (r.lower in numbers ==>
                 exists i :: 0 <= i < |numbers| && numbers[i] == r.lower && r.higher !in numbers[..i + 1])
  {
    var pl, ph := Position(numbers, r.lower), Position(numbers, r.higher);
    if pl.Some? && ph.Some? {
      if pl.value < ph.value {
        assert numbers[..pl.value + 1] <= numbers[..ph.value];
      }
      forall i | 0 <= i < |numbers| && numbers[i] == r.lower && r.higher !in numbers[..i + 1]
        ensures pl.value < ph.value
      {
        NotBefore(numbers, r.lower, pl.value);
        NotBefore(numbers, r.higher, i + 1);
      }
    }
  }

  /** `get_update_relevant_rules`: the rules whose two pages both occur in
      the update, in their original order. */
  function RelevantRules(numbers: seq<nat>, rules: seq<Rule>): (rel: seq<Rule>)
    ensures forall r :: r in rel <==> r in rules && r.lower in numbers && r.higher in numbers
    ensures |rel| <= |rules|
    decreases |rules|
  {
    if |rules| == 0 then []
    else
      var rest := RelevantRules(numbers, rules[1..]);
      assert rules == [rules[0]] + rules[1..];
      if rules[0].lower in numbers && rules[0].higher in numbers then [rules[0]] + rest else rest
  }

  /** Filtering distributes over concatenation, so the order of the rules is kept. */
  lemma {:induction false} RelevantRulesAppend(numbers: seq<nat>, a: seq<Rule>, b: seq<Rule>)
    ensures RelevantRules(numbers, a + b) == RelevantRules(numbers, a) + RelevantRules(numbers, b)
    decreases |a|
  {
    if |a| > 0 {
      assert (a + b)[1..] == a[1..] + b;
      RelevantRulesAppend(numbers, a[1..], b);
    } else {
      assert a + b == b;
    }
  }

  /** Only which pages occur matters: rearranging an update keeps its relevant rules. */
  lemma {:induction false} RelevantRulesOfPermutation(numbers: seq<nat>, other: seq<nat>, rules: seq<Rule>)
    requires multiset(numbers) == multiset(other)
    ensures RelevantRules(numbers, rules) == RelevantRules(other, rules)
    decreases |rules|
  {
    if |rules| > 0 {
      RelevantRulesOfPermutation(numbers, other, rules[1..]);
      assert rules[0].lower in numbers <==> rules[0].lower in multiset(numbers);
      assert rules[0].higher in numbers <==> rules[0].higher in multiset(numbers);
      assert rules[0].lower in other <==> rules[0].lower in multiset(other);
      assert rules[0].higher in other <==> rules[0].higher in multiset(other);
    }
  }

  /** `Iterator::all` over the rules: each of them is followed. */
  predicate AllFollowed(numbers: seq<nat>, rules: seq<Rule>)
    decreases |rules|
  {
    |rules| == 0 || (IsRuleFollowed(numbers, rules[0]) && AllFollowed(numbers, rules[1..]))
  }

  lemma {:induction false} AllFollowedMeaning(numbers: seq<nat>, rules: seq<Rule>)
    ensures AllFollowed(numbers, rules) <==> forall r :: r in rules ==> IsRuleFollowed(numbers, r)
    decreases |rules|
  {
    if |rules| > 0 {
      AllFollowedMeaning(numbers, rules[1..]);
      assert rules == [rules[0]] + rules[1..];
    }
  }

  /** `are_all_rules_followed`: every rule whose two pages occur is followed;
      a rule naming a page the update lacks is never held against it. */
  predicate AreAllRulesFollowed(numbers: seq<nat>, rules: seq<Rule>)
    ensures (forall r :: r in rules ==> r.lower !in numbers || r.higher !in numbers) ==> AreAllRulesFollowed(numbers, rules)
  {
    var relevant := RelevantRules(numbers, rules);
    assert |relevant| > 0 ==> relevant[0] in relevant;
    AllFollowed(numbers, relevant)
  }

  /** All rules are followed exactly when each rule of the list whose two
      pages occur in the update is followed. */
  lemma AllRulesFollowedMeaning(numbers: seq<nat>, rules: seq<Rule>)
    ensures AreAllRulesFollowed(numbers, rules) <==>
              forall r :: r in rules && r.lower in numbers && r.higher in numbers ==> IsRuleFollowed(numbers, r)
  {
    AllFollowedMeaning(numbers, RelevantRules(numbers, rules));
  }

  /** `get_middle_number`: the page in the middle (the later of the two
      middle pages for an even length). As many pages come before it as
      after it, give or take the one for an even length. */
  function MiddleNumber(numbers: seq<nat>): (m: nat)
    requires |numbers| > 0
    ensures m in numbers
    ensures exists i :: 0 <= i < |numbers| && numbers[i] == m && |numbers| - 1 - i <= i <= |numbers| - i
  {
    numbers[|numbers| / 2]
  }

  function Reverse(numbers: seq<nat>): (r: seq<nat>)
    ensures |r| == |numbers|
    ensures forall i :: 0 <= i < |numbers| ==> r[i] == numbers[|numbers| - 1 - i]
  {
    seq(|numbers|, i requires 0 <= i < |numbers| => numbers[|numbers| - 1 - i])
  }

  /** For an odd number of pages the middle page does not depend on the
      direction the update is read in. */
  lemma MiddleOfReverse(numbers: seq<nat>)
    requires |numbers| % 2 == 1
    ensures MiddleNumber(Reverse(numbers)) == MiddleNumber(numbers)
  {
  }

  // ---------------------------------------------------------------------
  // Repairing an update
  // ---------------------------------------------------------------------

  /** Both pages of every rule occur in the update. */
  ghost predicate PagesPresent(numbers: seq<nat>, rules: seq<Rule>)
  {
    forall r :: r in rules ==> r.lower in numbers && r.higher in numbers
  }

  /** `Vec::remove`: drop the element at index `i`, closing the gap. */
  function Remove(s: seq<nat>, i: nat): (r: seq<nat>)
    requires i < |s|
    ensures |r| == |s| - 1 && multiset(r) + multiset{s[i]} == multiset(s)
    ensures forall k :: 0 <= k < i ==> r[k] == s[k]
    ensures forall k :: i <= k < |r| ==> r[k] == s[k + 1]
  {
    assert s == s[..i] + [s[i]] + s[i + 1..];
    s[..i] + s[i + 1..]
  }

  /** `Vec::insert`: put `v` at index `j`, shifting the rest up. */
  function Insert(s: seq<nat>, j: nat, v: nat): (r: seq<nat>)
    requires j <= |s|
    ensures |r| == |s| + 1 && multiset(r) == multiset(s) + multiset{v}
    ensures r[j] == v
    ensures forall k :: 0 <= k < j ==> r[k] == s[k]
    ensures forall k :: j < k < |r| ==> r[k] == s[k - 1]
  {
    assert s == s[..j] + s[j..];
    s[..j] + [v] + s[j..]
  }

  /** One repair step of `follow_rules`: remove the lower page at its first
      index, then insert it at the first index of the higher page. */
  function RepairStep(numbers: seq<nat>, r: Rule): (result: seq<nat>)
    requires r.lower in numbers && r.higher in numbers
    ensures |result| == |numbers| && multiset(result) == multiset(numbers)
  {
    var lowerPos := Position(numbers, r.lower).value;
    var higherPos := Position(numbers, r.higher).value;
    Insert(Remove(numbers, lowerPos), higherPos, r.lower)
  }

  /** A step on a broken rule with two different pages puts the lower page
      immediately before the higher one, which makes the rule followed. */
  lemma RepairStepFollows(numbers: seq<nat>, r: Rule)
    requires r.lower in numbers && r.higher in numbers && r.lower != r.higher
    requires !IsRuleFollowed(numbers, r)
    ensures var j := Position(numbers, r.higher).value;
      var result := RepairStep(numbers, r);
      j + 1 < |result| && result[j] == r.lower && result[j + 1] == r.higher
    ensures IsRuleFollowed(RepairStep(numbers, r), r)
  {
    var i := Position(numbers, r.lower).value;
    var j := Position(numbers, r.higher).value;
    assert j < i;
    var result := RepairStep(numbers, r);
    RepairStepShape(numbers, i, j, r.lower);
    NotBefore(numbers, r.lower, i);
    NotBefore(numbers, r.higher, j);
    NoneBefore(result, r.lower, j);
    NoneBefore(result, r.higher, j + 1);
    PositionOf(result, r.lower, j);
    PositionOf(result, r.higher, j + 1);
  }

  /** Moving the element at `i` to the earlier index `j` keeps what lies
      before `j` and pushes the old element at `j` one place up. */
  lemma RepairStepShape(numbers: seq<nat>, i: nat, j: nat, v: nat)
    requires j < i < |numbers|
    ensures var result := Insert(Remove(numbers, i), j, v);
      j + 1 < |result| && result[j] == v && result[j + 1] == numbers[j] &&
      forall q :: 0 <= q < j ==> result[q] == numbers[q]
  {
  }

  lemma NoneBefore(s: seq<nat>, v: nat, k: nat)
    requires k <= |s| && forall q :: 0 <= q < k ==> s[q] != v
    ensures v !in s[..k]
  {
  }

  /** A rule with the same page on both sides is never followed, and the
      step leaves the update as it is: `follow_rules` then never returns. */
  lemma RepairStepSamePage(numbers: seq<nat>, p: nat)
    requires p in numbers
    ensures !IsRuleFollowed(numbers, Rule(p, p))
    ensures RepairStep(numbers, Rule(p, p)) == numbers
  {
    var i := Position(numbers, p).value;
    var result := RepairStep(numbers, Rule(p, p));
    assert forall k :: 0 <= k < |numbers| ==> result[k] == numbers[k];
  }

  /** The body of the inner `for`: repair a rule only when it is broken.
      The rules it is given always have both pages present; a rule with a
      missing page (where the source would panic on `unwrap`) leaves the
      update as it is, which keeps the function total. */
  function Fix(numbers: seq<nat>, r: Rule): (result: seq<nat>)
    ensures multiset(result) == multiset(numbers)
  {
    if IsRuleFollowed(numbers, r) || r.lower !in numbers || r.higher !in numbers then numbers
    else RepairStep(numbers, r)
  }

  /** One pass of the inner `for` over the rules, in order; the pages are
      rearranged, never added or lost. */
  function RepairPass(numbers: seq<nat>, rules: seq<Rule>): (result: seq<nat>)
    ensures multiset(result) == multiset(numbers)
    decreases |rules|
  {
    if |rules| == 0 then numbers
    else Fix(RepairPass(numbers, rules[..|rules| - 1]), rules[|rules| - 1])
  }

  lemma PermutationKeepsPages(numbers: seq<nat>, other: seq<nat>, rules: seq<Rule>)
    requires multiset(numbers) == multiset(other) && PagesPresent(numbers, rules)
    ensures PagesPresent(other, rules)
  {
    forall r | r in rules ensures r.lower in other && r.higher in other {
      assert r.lower in multiset(numbers) && r.higher in multiset(numbers);
    }
  }

  /** The relevant rules of an update have both their pages in it. */
  lemma RelevantPagesPresent(numbers: seq<nat>, rules: seq<Rule>)
    ensures PagesPresent(numbers, RelevantRules(numbers, rules))
  {
  }

  /** The inner loop one rule further: the rule at `idx` is fixed on the
      update the earlier rules left. */
  lemma PassStep(before: seq<nat>, rules: seq<Rule>, idx: nat)
    requires idx < |rules|
    ensures RepairPass(before, rules[..idx + 1]) == Fix(RepairPass(before, rules[..idx]), rules[idx])
  {
    assert rules[..idx + 1][..idx] == rules[..idx];
  }

  /** `n` applications of `f`. */
  function Iterate<T>(f: T -> T, x: T, n: nat): T
    decreases n
  {
    if n == 0 then x else Iterate(f, f(x), n - 1)
  }

  lemma {:induction false} IterateNext<T>(f: T -> T, x: T, n: nat)
    ensures Iterate(f, x, n + 1) == f(Iterate(f, x, n))
    decreases n
  {
    if n > 0 {
      IterateNext(f, f(x), n - 1);
    }
  }

  /** The fewest applications of `f`, up to `n`, after which `done` holds. */
  ghost function FirstDone<T>(f: T -> T, done: T -> bool, x: T, n: nat): (k: nat)
    requires done(Iterate(f, x, n))
    ensures k <= n && done(Iterate(f, x, k))
    decreases n
  {
    if done(x) then 0 else 1 + FirstDone(f, done, f(x), n - 1)
  }

  lemma {:induction false} FirstDoneIsFirst<T>(f: T -> T, done: T -> bool, x: T, n: nat)
    requires done(Iterate(f, x, n))
    ensures forall j: nat :: j < FirstDone(f, done, x, n) ==> !done(Iterate(f, x, j))
    decreases n
  {
    if !done(x) {
      FirstDoneIsFirst(f, done, f(x), n - 1);
      forall j: nat | j < FirstDone(f, done, x, n) ensures !done(Iterate(f, x, j)) {
        if j > 0 {
          assert Iterate(f, x, j) == Iterate(f, f(x), j - 1);
        }
      }
    }
  }

  /** A pass of the inner `for` as a function of the update. */
  function Pass(rules: seq<Rule>): seq<nat> -> seq<nat>
  {
    numbers => RepairPass(numbers, rules)
  }

  /** The condition of the outer `while`, negated. */
  function Done(rules: seq<Rule>): seq<nat> -> bool
  {
    numbers => AreAllRulesFollowed(numbers, rules)
  }

  lemma PassPermutes(numbers: seq<nat>, rules: seq<Rule>)
    ensures multiset(Pass(rules)(numbers)) == multiset(numbers)
  {
  }

  /** Any number of passes only rearranges the pages. */
  lemma {:induction false} PassesPermute(numbers: seq<nat>, rules: seq<Rule>, n: nat)
    ensures multiset(Iterate(Pass(rules), numbers, n)) == multiset(numbers)
    decreases n
  {
    if n > 0 {
      var next := Pass(rules)(numbers);
      PassPermutes(numbers, rules);
      PassesPermute(next, rules, n - 1);
    }
  }

  /** `follow_rules` returns: some number of passes leaves every relevant rule followed. */
  ghost predicate Settles(numbers: seq<nat>, rules: seq<Rule>)
  {
    var relevant := RelevantRules(numbers, rules);
    exists n: nat :: AreAllRulesFollowed(Iterate(Pass(relevant), numbers, n), relevant)
  }

  /** The passes `follow_rules` makes: the first number of passes after
      which every relevant rule is followed. */
  ghost function SettleCount(numbers: seq<nat>, rules: seq<Rule>): (k: nat)
    requires Settles(numbers, rules)
    ensures var relevant := RelevantRules(numbers, rules);
      && AreAllRulesFollowed(Iterate(Pass(relevant), numbers, k), relevant)
      && forall j: nat :: j < k ==> !AreAllRulesFollowed(Iterate(Pass(relevant), numbers, j), relevant)
  {
    var relevant := RelevantRules(numbers, rules);
    var n: nat :| AreAllRulesFollowed(Iterate(Pass(relevant), numbers, n), relevant);
    FirstDoneIsFirst(Pass(relevant), Done(relevant), numbers, n);
    FirstDone(Pass(relevant), Done(relevant), numbers, n)
  }

  /** The update `follow_rules` leaves: the same pages, every rule followed. */
  ghost function Settle(numbers: seq<nat>, rules: seq<Rule>): (result: seq<nat>)
    requires Settles(numbers, rules)
    ensures multiset(result) == multiset(numbers) && |result| == |numbers|
    ensures AreAllRulesFollowed(result, rules)
  {
    var relevant := RelevantRules(numbers, rules);
    var result := Iterate(Pass(relevant), numbers, SettleCount(numbers, rules));
    PassesPermute(numbers, relevant, SettleCount(numbers, rules));
    assert |result| == |multiset(result)| == |multiset(numbers)| == |numbers|;
    SameRelevantRules(numbers, result, rules);
    result
  }

  /** A pass of the `while` body before the loop settles: it is one of the
      counted passes, and all relevant pages are there to be moved. */
  lemma SettleStep(numbers: seq<nat>, rules: seq<Rule>, k: nat)
    requires Settles(numbers, rules) && k <= SettleCount(numbers, rules)
    requires !AreAllRulesFollowed(Iterate(Pass(RelevantRules(numbers, rules)), numbers, k), RelevantRules(numbers, rules))
    ensures var relevant := RelevantRules(numbers, rules);
      var current := Iterate(Pass(relevant), numbers, k);
      && k < SettleCount(numbers, rules)
      && PagesPresent(current, relevant)
      && Iterate(Pass(relevant), numbers, k + 1) == RepairPass(current, relevant)
  {
    var relevant := RelevantRules(numbers, rules);
    IterateNext(Pass(relevant), numbers, k);
    PassesPermute(numbers, relevant, k);
    RelevantPagesPresent(numbers, rules);
    PermutationKeepsPages(numbers, Iterate(Pass(relevant), numbers, k), relevant);
  }

  /** The `while` stops exactly after the counted passes. */
  lemma SettleExit(numbers: seq<nat>, rules: seq<Rule>, k: nat)
    requires Settles(numbers, rules) && k <= SettleCount(numbers, rules)
    requires AreAllRulesFollowed(Iterate(Pass(RelevantRules(numbers, rules)), numbers, k), RelevantRules(numbers, rules))
    ensures Iterate(Pass(RelevantRules(numbers, rules)), numbers, k) == Settle(numbers, rules)
  {
  }

  /** After rearranging, being all-followed for the relevant rules of the
      original update is being all-followed for the full rule list. */
  lemma SameRelevantRules(numbers: seq<nat>, other: seq<nat>, rules: seq<Rule>)
    requires multiset(numbers) == multiset(other)
    ensures AreAllRulesFollowed(other, RelevantRules(numbers, rules)) == AreAllRulesFollowed(other, rules)
  {
    var relevant := RelevantRules(numbers, rules);
    AllRulesFollowedMeaning(other, relevant);
    AllRulesFollowedMeaning(other, rules);
    forall r ensures r in relevant && r.lower in other && r.higher in other <==>
                     r in rules && r.lower in other && r.higher in other
    {
      assert r.lower in numbers <==> r.lower in multiset(other);
      assert r.higher in numbers <==> r.higher in multiset(other);
    }
  }

  /** An update that already follows every rule settles with no pass and stays as it is. */
  lemma SettleValid(numbers: seq<nat>, rules: seq<Rule>)
    requires AreAllRulesFollowed(numbers, rules)
    ensures Settles(numbers, rules) && Settle(numbers, rules) == numbers
  {
    var relevant := RelevantRules(numbers, rules);
    SameRelevantRules(numbers, numbers, rules);
    assert AreAllRulesFollowed(Iterate(Pass(relevant), numbers, 0), relevant);
  }

  /** `PageUpdate`: the pages of one print update, rearranged in place by `follow_rules`. */
  class PageUpdate {
    var numbers: seq<nat>

    constructor (numbers: seq<nat>)
      ensures this.numbers == numbers
    {
      this.numbers := numbers;
    }

    /** `follow_rules`: while some relevant rule is broken, walk over the
        relevant rules and move the lower page of each broken one to the
        first index of its higher page. The source loops forever when the
        rules admit no order (a cycle, or a rule with the same page twice),
        hence the precondition. */
    method FollowRules(rules: seq<Rule>)
      requires Settles(numbers, rules)
      modifies this
      ensures numbers == Settle(old(numbers), rules)
      ensures multiset(numbers) == multiset(old(numbers)) && AreAllRulesFollowed(numbers, rules)
    {
      var relevant := RelevantRules(numbers, rules);
      ghost var start := numbers;
      ghost var settled := SettleCount(start, rules);
      ghost var k := 0;
      while !AreAllRulesFollowed(numbers, relevant)
        invariant numbers == Iterate(Pass(relevant), start, k) && k <= settled
        decreases settled - k
      {
        SettleStep(start, rules, k);
        RepairAll(relevant);
        k := k + 1;
      }
      SettleExit(start, rules, k);
    }

    /** One pass of the repair loop: each relevant rule in turn, moving the
        lower page to the first index of the higher page when the rule is broken. */
    method RepairAll(relevant: seq<Rule>)
      requires PagesPresent(numbers, relevant)
      modifies this`numbers
      ensures numbers == RepairPass(old(numbers), relevant)
    {
      ghost var before := numbers;
      for idx := 0 to |relevant|
        invariant numbers == RepairPass(before, relevant[..idx])
      {
        PassStep(before, relevant, idx);
        PermutationKeepsPages(before, numbers, relevant);
        var rule := relevant[idx];
        if !IsRuleFollowed(numbers, rule) {
          var lowerExpectedPos := Position(numbers, rule.lower).value;
          var higherExpectedPos := Position(numbers, rule.higher).value;
          numbers := Remove(numbers, lowerExpectedPos);
          numbers := Insert(numbers, higherExpectedPos, rule.lower);
        }
      }
      assert relevant[..|relevant|] == relevant;
    }
  }

  // ---------------------------------------------------------------------
  // The puzzle
  // ---------------------------------------------------------------------

  /** `parse_inputs`: the rules before the first blank line, one per line;
      the updates after it, one per non-empty line. None where the source
      panics. Every update has at least one page. */
  function ParseInputs(raw: string): (r: Option<(seq<Rule>, seq<seq<nat>>)>)
    ensures r.Some? ==> forall i :: 0 <= i < |r.value.1| ==> |r.value.1[i]| > 0
  {
    var sections := Split(raw, "\n\n");
    if |sections| < 2 then None
    else
      match (ParseRules(Split(sections[0], "\n")), ParseUpdates(Split(sections[1], "\n")))
      case (Some(rules), Some(updates)) => Some((rules, updates))
      case _ => None
  }

  /** Each rule printed as its line. */
  function RuleLines(rules: seq<Rule>): (lines: seq<string>)
    ensures |lines| == |rules| && forall i :: 0 <= i < |rules| ==> lines[i] == RuleText(rules[i])
  {
    seq(|rules|, i requires 0 <= i < |rules| => RuleText(rules[i]))
  }

  /** Each update printed as its line. */
  function UpdateLines(updates: seq<seq<nat>>): (lines: seq<string>)
    ensures |lines| == |updates| && forall i :: 0 <= i < |updates| ==> lines[i] == UpdateText(updates[i])
    decreases |updates|
  {
    if |updates| == 0 then [] else [UpdateText(updates[0])] + UpdateLines(updates[1..])
  }

  /** The puzzle input: the rule lines, a blank line, the update lines. */
  function InputText(rules: seq<Rule>, updates: seq<seq<nat>>): string
  {
    Join(RuleLines(rules), "\n") + "\n\n" + Join(UpdateLines(updates), "\n")
  }

  /** The line of a non-empty update is not empty and has no line break. */
  lemma UpdateTextLine(numbers: seq<nat>)
    requires |numbers| > 0
    ensures |UpdateText(numbers)| > 0 && '\n' !in UpdateText(numbers)
  {
    var parts := Numerals(numbers);
    JoinStartsWithFirst(parts, ",");
    forall i | 0 <= i < |parts| ensures '\n' !in parts[i] {
      NumeralWithout(numbers[i], '\n');
    }
    JoinWithout(parts, ",", '\n');
  }

  /** The lines of non-empty updates parse back as the updates. */
  lemma {:induction false} ParseUpdatesText(updates: seq<seq<nat>>)
    requires forall i :: 0 <= i < |updates| ==> |updates[i]| > 0
    ensures ParseUpdates(UpdateLines(updates)) == Some(updates)
    decreases |updates|
  {
    if |updates| > 0 {
      var lines := UpdateLines(updates);
      UpdateTextLine(updates[0]);
      ParseUpdateText(updates[0]);
      assert lines[1..] == UpdateLines(updates[1..]);
      ParseUpdatesText(updates[1..]);
      var kept := NonEmptyLines(lines[1..]);
      assert NonEmptyLines(lines) == [lines[0]] + kept;
      assert ([lines[0]] + kept)[1..] == kept;
      assert [updates[0]] + updates[1..] == updates;
    }
  }

  /** The text of a puzzle input with at least one rule parses back as its
      rules and updates. */
  lemma ParseInputsText(rules: seq<Rule>, updates: seq<seq<nat>>)
    requires |rules| > 0 && forall i :: 0 <= i < |updates| ==> |updates[i]| > 0
    ensures ParseInputs(InputText(rules, updates)) == Some((rules, updates))
  {
    InputSections(rules, updates);
    RuleLinesParse(rules);
    UpdateLinesParse(updates);
  }

  /** The blank line is the first "\n\n" of the input text. */
  lemma InputSections(rules: seq<Rule>, updates: seq<seq<nat>>)
    requires |rules| > 0 && forall i :: 0 <= i < |updates| ==> |updates[i]| > 0
    ensures var sections := Split(InputText(rules, updates), "\n\n");
      |sections| == 2 && sections[0] == Join(RuleLines(rules), "\n") && sections[1] == Join(UpdateLines(updates), "\n")
  {
    var ruleLines, updateLines := RuleLines(rules), UpdateLines(updates);
    var ruleText, updateText := Join(ruleLines, "\n"), Join(updateLines, "\n");
    RuleLinesShape(rules);
    JoinedLinesSeparatorFree(ruleLines);
    SplitAtSeparator(ruleText, "\n\n", updateText);
    if |updates| > 0 {
      UpdateLinesShape(updates);
      JoinedLinesSeparatorFree(updateLines);
      SplitSeparatorFree(updateText, "\n\n");
    }
  }

  /** Rule lines are not empty and have no line break. */
  lemma RuleLinesShape(rules: seq<Rule>)
    ensures forall i :: 0 <= i < |rules| ==> |RuleLines(rules)[i]| > 0 && '\n' !in RuleLines(rules)[i]
  {
    forall i | 0 <= i < |rules| ensures '\n' !in RuleText(rules[i]) {
      NumeralWithout(rules[i].lower, '\n');
      NumeralWithout(rules[i].higher, '\n');
    }
  }

  /** Update lines are not empty and have no line break. */
  lemma UpdateLinesShape(updates: seq<seq<nat>>)
    requires forall i :: 0 <= i < |updates| ==> |updates[i]| > 0
    ensures forall i :: 0 <= i < |updates| ==> |UpdateLines(updates)[i]| > 0 && '\n' !in UpdateLines(updates)[i]
  {
    forall i | 0 <= i < |updates| ensures |UpdateText(updates[i])| > 0 && '\n' !in UpdateText(updates[i]) {
      UpdateTextLine(updates[i]);
    }
  }

  /** The rules section splits into the rule lines, which parse back as the rules. */
  lemma RuleLinesParse(rules: seq<Rule>)
    requires |rules| > 0
    ensures ParseRules(Split(Join(RuleLines(rules), "\n"), "\n")) == Some(rules)
  {
    var lines := RuleLines(rules);
    RuleLinesShape(rules);
    SplitJoin(lines, "\n");
    forall i | 0 <= i < |lines| ensures ParseRule(lines[i]) == Some(rules[i]) {
      ParseRuleText(rules[i]);
    }
    assert ParseRules(lines).value == rules;
  }

  /** The updates section splits into the update lines, which parse back as the updates. */
  lemma UpdateLinesParse(updates: seq<seq<nat>>)
    requires forall i :: 0 <= i < |updates| ==> |updates[i]| > 0
    ensures ParseUpdates(Split(Join(UpdateLines(updates), "\n"), "\n")) == Some(updates)
  {
    if |updates| > 0 {
      UpdateLinesShape(updates);
      SplitJoin(UpdateLines(updates), "\n");
      ParseUpdatesText(updates);
    } else {
      assert Split("", "\n") == [""];
    }
  }

  /** Every line read as a rule, or None when one of them is not a rule. */
  function ParseRules(lines: seq<string>): (r: Option<seq<Rule>>)
    ensures r.Some? ==> |r.value| == |lines| && forall i :: 0 <= i < |lines| ==> ParseRule(lines[i]) == Some(r.value[i])
    ensures r.None? ==> exists i :: 0 <= i < |lines| && ParseRule(lines[i]).None?
    decreases |lines|
  {
    if |lines| == 0 then Some([])
    else
      match (ParseRule(lines[0]), ParseRules(lines[1..]))
      case (Some(rule), Some(rest)) => Some([rule] + rest)
      case (None, _) => None
      case (_, None) => assert lines[1..][0] == lines[1]; None
  }

  /** Every non-empty line read as an update, in order, or None when one of them is not an update. */
  function ParseUpdates(lines: seq<string>): (r: Option<seq<seq<nat>>>)
    ensures r.Some? <==> forall line :: line in lines && line != "" ==> ParseUpdate(line).Some?
    ensures r.Some? ==> (|r.value| == |NonEmptyLines(lines)| &&
      forall i :: 0 <= i < |r.value| ==> ParseUpdate(NonEmptyLines(lines)[i]) == Some(r.value[i]))
    ensures r.Some? ==> forall i :: 0 <= i < |r.value| ==> |r.value[i]| > 0
    ensures r.Some? ==> |r.value| <= |lines|
  {
    NonEmptyLinesMembers(lines);
    ParseAll(NonEmptyLines(lines), ParseUpdate)
  }

  /** `solve_a`: the sum of the middle pages of the updates that follow
      every rule. At most the sum over all updates: all of it when every
      update is in order, nothing when none is. */
  function SolveA(rules: seq<Rule>, updates: seq<seq<nat>>): (sum: nat)
    requires forall i :: 0 <= i < |updates| ==> |updates[i]| > 0
    ensures sum <= MiddleSum(updates)
    ensures (forall i :: 0 <= i < |updates| ==> AreAllRulesFollowed(updates[i], rules)) ==> sum == MiddleSum(updates)
    ensures (forall i :: 0 <= i < |updates| ==> !AreAllRulesFollowed(updates[i], rules)) ==> sum == 0
    decreases |updates|
  {
    if |updates| == 0 then 0
    else
      (if AreAllRulesFollowed(updates[0], rules) then MiddleNumber(updates[0]) else 0)
      + SolveA(rules, updates[1..])
  }

  /** The sum of the middle pages of all updates. */
  function MiddleSum(updates: seq<seq<nat>>): nat
    requires forall i :: 0 <= i < |updates| ==> |updates[i]| > 0
    decreases |updates|
  {
    if |updates| == 0 then 0 else MiddleNumber(updates[0]) + MiddleSum(updates[1..])
  }

  /** Every update that breaks a rule repairs to an order. */
  ghost predicate AllSettle(rules: seq<Rule>, updates: seq<seq<nat>>)
  {
    forall i :: 0 <= i < |updates| ==> (!AreAllRulesFollowed(updates[i], rules) ==> Settles(updates[i], rules))
  }

  /** What `solve_b` sums: the middle pages of the repaired broken updates. */
  ghost function RepairedMiddleSum(rules: seq<Rule>, updates: seq<seq<nat>>): nat
    requires forall i :: 0 <= i < |updates| ==> |updates[i]| > 0
    requires AllSettle(rules, updates)
    decreases |updates|
  {
    if |updates| == 0 then 0
    else
      var last := updates[|updates| - 1];
      RepairedMiddleSum(rules, updates[..|updates| - 1])
      + (if AreAllRulesFollowed(last, rules) then 0 else MiddleNumber(Settle(last, rules)))
  }

  /** `solve_b`: repair every update that breaks a rule, in place, and sum
      the middle pages of the repaired ones. */
  method SolveB(rules: seq<Rule>, updates: seq<seq<nat>>) returns (sum: nat)
    requires forall i :: 0 <= i < |updates| ==> |updates[i]| > 0
    requires AllSettle(rules, updates)
    ensures sum == RepairedMiddleSum(rules, updates)
  {
    sum := 0;
    for i := 0 to |updates|
      invariant sum == RepairedMiddleSum(rules, updates[..i])
    {
      assert updates[..i + 1][..i] == updates[..i];
      if !AreAllRulesFollowed(updates[i], rules) {
        var update := new PageUpdate(updates[i]);
        update.FollowRules(rules);
        sum := sum + MiddleNumber(update.numbers);
      }
    }
    assert updates[..|updates|] == updates;
  }
}
