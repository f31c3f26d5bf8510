/** Historian location lists (day01/src/main.rs): two columns of location
    IDs are each sorted; part one sums the distances between the sorted
    columns side by side, part two weighs every left ID by how often it
    occurs in the right column. */
module LocationLists {
  import opened Options
  import opened Text
  import opened Numbers

  // ---------------------------------------------------------------------
  // Sorting (`Vec::sort`)
  // ---------------------------------------------------------------------

  predicate Sorted(s: seq<nat>)
  {
    forall i, j :: 0 <= i < j < |s| ==> s[i] <= s[j]
  }

  /** `v` put in place in a sorted list. */
  function InsertSorted(s: seq<nat>, v: nat): (r: seq<nat>)
    ensures multiset(r) == multiset(s) + multiset{v}
    ensures |r| == |s| + 1
    decreases |s|
  {
    if |s| == 0 then [v]
    else if v <= s[0] then [v] + s
    else
      assert s == [s[0]] + s[1..];
      [s[0]] + InsertSorted(s[1..], v)
  }

  lemma {:induction false} InsertSortedSorted(s: seq<nat>, v: nat)
    requires Sorted(s)
    ensures Sorted(InsertSorted(s, v))
    decreases |s|
  {
    if |s| > 0 && v > s[0] {
      var rest := InsertSorted(s[1..], v);
      InsertSortedSorted(s[1..], v);
      forall i | 0 <= i < |rest|
        ensures s[0] <= rest[i]
      {
        assert rest[i] in multiset(rest);
        assert rest[i] in multiset(s[1..]) || rest[i] == v;
      }
    }
  }

  /** The list sorted in ascending order, as `Vec::sort` leaves it: sorted
      and a permutation of the input. */
  function SortedOf(xs: seq<nat>): (r: seq<nat>)
    ensures Sorted(r) && multiset(r) == multiset(xs) && |r| == |xs|
    decreases |xs|
  {
    if |xs| == 0 then []
    else
      assert xs == [xs[0]] + xs[1..];
      InsertSortedSorted(SortedOf(xs[1..]), xs[0]);
      InsertSorted(SortedOf(xs[1..]), xs[0])
  }

  /** There is only one sorted arrangement of a multiset, so the result of
      sorting does not depend on the order of its input. */
  lemma {:induction false} SortedUnique(a: seq<nat>, b: seq<nat>)
    requires Sorted(a) && Sorted(b) && multiset(a) == multiset(b)
    ensures a == b
    decreases |a|
  {
    if |a| == 0 {
      assert |b| == |multiset(b)| == 0;
    } else {
      assert |b| == |multiset(b)| == |multiset(a)| == |a|;
      FirstIsLeast(a, b[0]);
      FirstIsLeast(b, a[0]);
      SameTails(a, b);
      SortedTail(a);
      SortedTail(b);
      SortedUnique(a[1..], b[1..]);
    }
  }

  lemma RemoveFromMultiset(s: seq<nat>, j: nat)
    requires j < |s|
    ensures multiset(s[..j] + s[j + 1..]) == multiset(s) - multiset{s[j]}
  {
    assert s == s[..j] + [s[j]] + s[j + 1..];
  }

  lemma SameTails(a: seq<nat>, b: seq<nat>)
    requires |a| > 0 && |b| > 0 && a[0] == b[0] && multiset(a) == multiset(b)
    ensures multiset(a[1..]) == multiset(b[1..])
  {
    assert a == [a[0]] + a[1..];
    assert b == [b[0]] + b[1..];
    AddOneCancels(a[0], multiset(a[1..]), multiset(b[1..]));
  }

  lemma AddOneCancels(x: nat, m: multiset<nat>, n: multiset<nat>)
    requires multiset{x} + m == multiset{x} + n
    ensures m == n
  {
    assert m == (multiset{x} + m) - multiset{x};
  }

  lemma SortedTail(s: seq<nat>)
    requires Sorted(s) && |s| > 0
    ensures Sorted(s[1..])
  {
    forall i, j | 0 <= i < j < |s| - 1
      ensures s[1..][i] <= s[1..][j]
    {
      assert s[1..][i] == s[i + 1] && s[1..][j] == s[j + 1];
    }
  }

  lemma FirstIsLeast(s: seq<nat>, v: nat)
    requires Sorted(s) && v in multiset(s)
    ensures |s| > 0 && s[0] <= v
  {
    var i :| 0 <= i < |s| && s[i] == v;
  }

  lemma SortedOfPermutation(xs: seq<nat>, ys: seq<nat>)
    requires multiset(xs) == multiset(ys)
    ensures SortedOf(xs) == SortedOf(ys)
  {
    SortedUnique(SortedOf(xs), SortedOf(ys));
  }

  // ---------------------------------------------------------------------
  // Parsing
  // ---------------------------------------------------------------------

  /** The two sorted columns. */
  datatype ListPair = ListPair(left: seq<nat>, right: seq<nat>)

  /** The first two whitespace-separated words of a line as numbers; None
      where the source unwraps a missing word or a failed parse. Words
      after the second are ignored. */
  function ParseLine(line: string): (r: Option<(nat, nat)>)
    ensures r.Some? <==> |Words(line)| >= 2 && IsNumeral(Words(line)[0]) && IsNumeral(Words(line)[1])
  {
    var parts := Words(line);
    if |parts| >= 2 && IsNumeral(parts[0]) && IsNumeral(parts[1])
    then Some((ParseNat(parts[0]), ParseNat(parts[1])))
    else None
  }

  /** The pairs of the non-empty lines, in order. */
  function ParsePairs(lines: seq<string>): (r: Option<seq<(nat, nat)>>)
    ensures r.Some? <==> forall line :: line in lines && line != "" ==> ParseLine(line).Some?
    ensures r.None? <==> exists i :: 0 <= i < |lines| && lines[i] != "" && ParseLine(lines[i]).None?
    ensures r.Some? ==> (|r.value| == |NonEmptyLines(lines)| &&
      forall i :: 0 <= i < |r.value| ==> ParseLine(NonEmptyLines(lines)[i]) == Some(r.value[i]))
    ensures r.Some? ==> |r.value| <= |lines|
  {
    NonEmptyLinesMembers(lines);
    var r := ParseAll(NonEmptyLines(lines), ParseLine);
    assert r.None? ==> exists i :: 0 <= i < |lines| && lines[i] != "" && ParseLine(lines[i]).None? by {
      if r.None? {
        var line :| line in lines && line != "" && ParseLine(line).None?;
        var i :| 0 <= i < |lines| && lines[i] == line;
      }
    }
    r
  }

  function Lefts(pairs: seq<(nat, nat)>): (r: seq<nat>)
    ensures |r| == |pairs| && forall i :: 0 <= i < |pairs| ==> r[i] == pairs[i].0
  {
    seq(|pairs|, i requires 0 <= i < |pairs| => pairs[i].0)
  }

  function Rights(pairs: seq<(nat, nat)>): (r: seq<nat>)
    ensures |r| == |pairs| && forall i :: 0 <= i < |pairs| ==> r[i] == pairs[i].1
  {
    seq(|pairs|, i requires 0 <= i < |pairs| => pairs[i].1)
  }

  /** The columns of the pairs, each sorted. */
  function FromPairs(pairs: seq<(nat, nat)>): (p: ListPair)
    ensures Sorted(p.left) && multiset(p.left) == multiset(Lefts(pairs))
    ensures Sorted(p.right) && multiset(p.right) == multiset(Rights(pairs))
  {
    ListPair(SortedOf(Lefts(pairs)), SortedOf(Rights(pairs)))
  }

  /** `ListPair::parse`. */
  function Parse(lines: seq<string>): (r: Option<ListPair>)
    ensures r.Some? <==> ParsePairs(lines).Some?
    ensures r.Some? ==> r.value == FromPairs(ParsePairs(lines).value)
  {
    match ParsePairs(lines)
    case Some(pairs) => Some(FromPairs(pairs))
    case None => None
  }

  /** Only the contents of each column matter, not the order of the lines
      or which left ID stood beside which right ID. */
  lemma FromPairsOrderFree(pairs: seq<(nat, nat)>, others: seq<(nat, nat)>)
    requires multiset(Lefts(pairs)) == multiset(Lefts(others))
    requires multiset(Rights(pairs)) == multiset(Rights(others))
    ensures FromPairs(pairs) == FromPairs(others)
  {
    SortedOfPermutation(Lefts(pairs), Lefts(others));
    SortedOfPermutation(Rights(pairs), Rights(others));
  }

  /** The line of a pair: the two numbers separated by a space. */
  function PairText(pair: (nat, nat)): string
  {
    Join([Numeral(pair.0), Numeral(pair.1)], " ")
  }

  lemma ParseLineText(pair: (nat, nat))
    ensures PairText(pair) != "" && ParseLine(PairText(pair)) == Some(pair)
  {
    var words := [Numeral(pair.0), Numeral(pair.1)];
    assert IsNumeral(words[0]) && IsNumeral(words[1]);
    WordsJoin(words);
    assert |PairText(pair)| > 0;
  }

  /** One printed line per pair, in order. */
  function PairLines(pairs: seq<(nat, nat)>): (lines: seq<string>)
    ensures |lines| == |pairs|
    decreases |pairs|
  {
    if |pairs| == 0 then [] else [PairText(pairs[0])] + PairLines(pairs[1..])
  }

  lemma ParsePairsCons(line: string, lines: seq<string>, pair: (nat, nat), pairs: seq<(nat, nat)>)
    requires line != "" && ParseLine(line) == Some(pair) && ParsePairs(lines) == Some(pairs)
    ensures ParsePairs([line] + lines) == Some([pair] + pairs)
  {
    assert ([line] + lines)[1..] == lines;
    var kept := NonEmptyLines(lines);
    assert NonEmptyLines([line] + lines) == [line] + kept;
    assert ([line] + kept)[1..] == kept;
  }

  /** Parsing the printed pairs gives the pairs back. */
  lemma {:induction false} ParsePairsText(pairs: seq<(nat, nat)>)
    ensures ParsePairs(PairLines(pairs)) == Some(pairs)
    decreases |pairs|
  {
    if |pairs| > 0 {
      ParseLineText(pairs[0]);
      ParsePairsText(pairs[1..]);
      ParsePairsCons(PairText(pairs[0]), PairLines(pairs[1..]), pairs[0], pairs[1..]);
      assert [pairs[0]] + pairs[1..] == pairs;
    }
  }

  // ---------------------------------------------------------------------
  // Part one: total distance
  // ---------------------------------------------------------------------

  function Min(a: nat, b: nat): nat
  {
    if a < b then a else b
  }

  /** The sum of the distances of the pairs zipped from `a` and `b`; the
      longer list is cut to the length of the shorter. No pair is farther
      apart than the total. */
  function Distance(a: seq<nat>, b: seq<nat>): (r: nat)
    ensures forall i :: 0 <= i < |a| && i < |b| ==> AbsDiff(a[i], b[i]) <= r
    decreases |a|
  {
    if |a| == 0 || |b| == 0 then 0 else AbsDiff(a[0], b[0]) + Distance(a[1..], b[1..])
  }

  /** `score_a`. */
  function ScoreA(pair: ListPair): (score: nat)
    ensures score == Distance(pair.right, pair.left)
  {
    DistanceSymmetric(pair.left, pair.right);
    Distance(pair.left, pair.right)
  }

  lemma {:induction false} DistanceSymmetric(a: seq<nat>, b: seq<nat>)
    ensures Distance(a, b) == Distance(b, a)
    decreases |a|
  {
    if |a| > 0 && |b| > 0 {
      DistanceSymmetric(a[1..], b[1..]);
    }
  }

  /** Only the common length counts. */
  lemma {:induction false} DistanceTruncates(a: seq<nat>, b: seq<nat>)
    ensures Distance(a, b) == Distance(a[..Min(|a|, |b|)], b[..Min(|a|, |b|)])
    decreases |a|
  {
    var m := Min(|a|, |b|);
    if m > 0 {
      DistanceTruncates(a[1..], b[1..]);
      assert a[..m][1..] == a[1..][..m - 1];
      assert b[..m][1..] == b[1..][..m - 1];
    }
  }

  /** The distance is zero exactly when the lists agree on their common length. */
  lemma {:induction false} DistanceZero(a: seq<nat>, b: seq<nat>)
    ensures Distance(a, b) == 0 <==> a[..Min(|a|, |b|)] == b[..Min(|a|, |b|)]
    decreases |a|
  {
    var m := Min(|a|, |b|);
    if m > 0 {
      DistanceZero(a[1..], b[1..]);
      var ta, tb := a[1..][..m - 1], b[1..][..m - 1];
      assert a[..m] == [a[0]] + ta;
      assert b[..m] == [b[0]] + tb;
      if a[..m] == b[..m] {
        assert a[0] == a[..m][0] == b[..m][0] == b[0];
        assert ta == a[..m][1..] == b[..m][1..] == tb;
      }
    }
  }

  /** A list is at distance zero from itself. */
  lemma DistanceToItself(a: seq<nat>)
    ensures Distance(a, a) == 0
  {
    DistanceZero(a, a);
  }

  // ---------------------------------------------------------------------
  // Part two: similarity
  // ---------------------------------------------------------------------

  /** How often `v` occurs in `s` (`filter(..).count()`). */
  function Count(s: seq<nat>, v: nat): (n: nat)
    ensures n <= |s|
    ensures n > 0 <==> v in s
    decreases |s|
  {
    if |s| == 0 then 0 else (if s[0] == v then 1 else 0) + Count(s[1..], v)
  }

  lemma {:induction false} CountIsMultiplicity(s: seq<nat>, v: nat)
    ensures Count(s, v) == multiset(s)[v]
    decreases |s|
  {
    if |s| > 0 {
      CountIsMultiplicity(s[1..], v);
      assert s == [s[0]] + s[1..];
    }
  }

  /** Every ID on the left times its number of occurrences on the right:
      an ID that occurs on the right adds at least itself, and the total is
      zero when no left ID occurs on the right (`Count` is positive exactly
      for the values that occur). */
  function Similarity(left: seq<nat>, right: seq<nat>): (r: nat)
    ensures forall i :: 0 <= i < |left| && Count(right, left[i]) > 0 ==> left[i] <= r
    ensures (forall i :: 0 <= i < |left| ==> Count(right, left[i]) == 0) ==> r == 0
    decreases |left|
  {
    if |left| == 0 then 0
    else
      var n := Count(right, left[0]);
      AtLeastOnce(left[0], n);
      left[0] * n + Similarity(left[1..], right)
  }

  lemma AtLeastOnce(v: nat, n: nat)
    ensures n > 0 ==> v <= v * n
    ensures n == 0 ==> v * n == 0
  {
    if n > 0 {
      assert v * n == v + v * (n - 1);
    }
  }

  /** Part two with the right list as a multiset: each left ID times its
      multiplicity on the right. */
  function Weighted(left: seq<nat>, right: multiset<nat>): nat
    decreases |left|
  {
    if |left| == 0 then 0 else left[0] * right[left[0]] + Weighted(left[1..], right)
  }

  lemma {:induction false} SimilarityIsWeighted(left: seq<nat>, right: seq<nat>)
    ensures Similarity(left, right) == Weighted(left, multiset(right))
    decreases |left|
  {
    if |left| > 0 {
      CountIsMultiplicity(right, left[0]);
      SimilarityIsWeighted(left[1..], right);
    }
  }

  /** `score_b`. */
  function ScoreB(pair: ListPair): (score: nat)
    ensures score == Weighted(pair.left, multiset(pair.right))
  {
    SimilarityIsWeighted(pair.left, pair.right);
    Similarity(pair.left, pair.right)
  }

  /** The right list counts only through its multiset. */
  lemma {:induction false} SimilarityRightOrderFree(left: seq<nat>, right: seq<nat>, other: seq<nat>)
    requires multiset(right) == multiset(other)
    ensures Similarity(left, right) == Similarity(left, other)
    decreases |left|
  {
    if |left| > 0 {
      CountIsMultiplicity(right, left[0]);
      CountIsMultiplicity(other, left[0]);
      SimilarityRightOrderFree(left[1..], right, other);
    }
  }

  /** Taking any one ID of the left list first gives the same total. */
  lemma {:induction false} WeightedRemove(left: seq<nat>, j: nat, right: multiset<nat>)
    requires j < |left|
    ensures Weighted(left, right) == left[j] * right[left[j]] + Weighted(left[..j] + left[j + 1..], right)
    decreases j
  {
    if j > 0 {
      var tail, rest := left[1..], left[..j] + left[j + 1..];
      WeightedRemove(tail, j - 1, right);
      assert tail[j - 1] == left[j];
      assert tail[..j - 1] + tail[j..] == rest[1..];
    } else {
      assert left[..0] + left[1..] == left[1..];
    }
  }

  /** The left list counts only through its multiset. */
  lemma {:induction false} WeightedLeftOrderFree(left: seq<nat>, other: seq<nat>, right: multiset<nat>)
    requires multiset(left) == multiset(other)
    ensures Weighted(left, right) == Weighted(other, right)
    decreases |left|
  {
    if |left| == 0 {
      assert |other| == |multiset(other)| == 0;
    } else {
      assert left[0] in multiset(other);
      var j :| 0 <= j < |other| && other[j] == left[0];
      var rest := other[..j] + other[j + 1..];
      WeightedRemove(other, j, right);
      assert multiset(left[1..]) == multiset(rest) by {
        RemoveFromMultiset(left, 0);
        RemoveFromMultiset(other, j);
        assert left[..0] + left[1..] == left[1..];
      }
      WeightedLeftOrderFree(left[1..], rest, right);
    }
  }

  /** Rearranging the left list does not change the similarity. */
  lemma SimilarityLeftOrderFree(left: seq<nat>, other: seq<nat>, right: seq<nat>)
    requires multiset(left) == multiset(other)
    ensures Similarity(left, right) == Similarity(other, right)
  {
    SimilarityIsWeighted(left, right);
    SimilarityIsWeighted(other, right);
    WeightedLeftOrderFree(left, other, multiset(right));
  }

  /** Neither list's order matters: the score of part two is a function of
      the two multisets. */
  lemma SimilarityOrderFree(left: seq<nat>, left2: seq<nat>, right: seq<nat>, right2: seq<nat>)
    requires multiset(left) == multiset(left2) && multiset(right) == multiset(right2)
    ensures Similarity(left, right) == Similarity(left2, right2)
  {
    SimilarityLeftOrderFree(left, left2, right);
    SimilarityRightOrderFree(left2, right, right2);
  }

  // ---------------------------------------------------------------------
  // Puzzle
  // ---------------------------------------------------------------------

  /** `solve_a`: None where parsing panics. */
  function SolveA(lines: seq<string>): (r: Option<nat>)
    ensures r.Some? <==> ParsePairs(lines).Some?
    ensures r.Some? ==> r.value == ScoreA(FromPairs(ParsePairs(lines).value))
  {
    match Parse(lines)
    case Some(pair) => Some(ScoreA(pair))
    case None => None
  }

  /** `solve_b`: None where parsing panics. */
  function SolveB(lines: seq<string>): (r: Option<nat>)
    ensures r.Some? <==> ParsePairs(lines).Some?
    ensures r.Some? ==> r.value == Similarity(Lefts(ParsePairs(lines).value), Rights(ParsePairs(lines).value))
  {
    match Parse(lines)
    case Some(pair) =>
      var pairs := ParsePairs(lines).value;
      SimilarityOrderFree(pair.left, Lefts(pairs), pair.right, Rights(pairs));
      Some(ScoreB(pair))
    case None => None
  }

  /** Sorting a list with the example's left IDs. */
  lemma ExampleLeft(xs: seq<nat>)
    requires multiset(xs) == multiset([3, 4, 2, 1, 3, 3])
    ensures SortedOf(xs) == [1, 2, 3, 3, 3, 4]
  {
    var sorted: seq<nat> := [1, 2, 3, 3, 3, 4];
    assert multiset([3, 4, 2, 1, 3, 3]) == multiset(sorted);
    ExampleSorted();
    SortedUnique(sorted, SortedOf(xs));
  }

  /** Sorting a list with the example's right IDs. */
  lemma ExampleRight(xs: seq<nat>)
    requires multiset(xs) == multiset([4, 3, 5, 3, 9, 3])
    ensures SortedOf(xs) == [3, 3, 3, 4, 5, 9]
  {
    var sorted: seq<nat> := [3, 3, 3, 4, 5, 9];
    assert multiset([4, 3, 5, 3, 9, 3]) == multiset(sorted);
    ExampleSorted();
    SortedUnique(sorted, SortedOf(xs));
  }

  /** The example of the puzzle: any input whose columns hold the IDs of
      the example, in any order, scores 11 and 31. */
  lemma ExampleScores(pairs: seq<(nat, nat)>)
    requires multiset(Lefts(pairs)) == multiset([3, 4, 2, 1, 3, 3])
    requires multiset(Rights(pairs)) == multiset([4, 3, 5, 3, 9, 3])
    ensures ScoreA(FromPairs(pairs)) == 11
    ensures ScoreB(FromPairs(pairs)) == 31
  {
    ExampleLeft(Lefts(pairs));
    ExampleRight(Rights(pairs));
    ExampleDistance(FromPairs(pairs).left, FromPairs(pairs).right);
    ExampleSimilarity(FromPairs(pairs).left, FromPairs(pairs).right);
  }

  lemma ExampleSorted()
    ensures Sorted([1, 2, 3, 3, 3, 4]) && Sorted([3, 3, 3, 4, 5, 9])
  {
  }

  lemma ExampleDistance(left: seq<nat>, right: seq<nat>)
    requires left == [1, 2, 3, 3, 3, 4] && right == [3, 3, 3, 4, 5, 9]
    ensures Distance(left, right) == 11 && Distance(right, left) == 11
  {
    assert Distance([1, 2, 3, 3, 3, 4], [3, 3, 3, 4, 5, 9]) == 11;
    assert Distance([3, 3, 3, 4, 5, 9], [1, 2, 3, 3, 3, 4]) == 11;
  }

  lemma ExampleSimilarity(left: seq<nat>, right: seq<nat>)
    requires left == [1, 2, 3, 3, 3, 4] && right == [3, 3, 3, 4, 5, 9]
    ensures Similarity(left, right) == 31
  {
    ExampleRightCounts(right);
    ExampleThreesAndFour(right);
    var two: seq<nat> := [2, 3, 3, 3, 4];
    assert left[1..] == two && two[1..] == [3, 3, 3, 4];
    SimilarityStep(two, right);
    SimilarityStep(left, right);
  }

  /** How often the example's left IDs occur in its right column. */
  lemma ExampleRightCounts(right: seq<nat>)
    requires right == [3, 3, 3, 4, 5, 9]
    ensures Count(right, 1) == 0 && Count(right, 2) == 0 && Count(right, 3) == 3 && Count(right, 4) == 1
  {
    assert multiset(right) == multiset{3, 3, 3, 4, 5, 9};
    CountIsMultiplicity(right, 1);
    CountIsMultiplicity(right, 2);
    CountIsMultiplicity(right, 3);
    CountIsMultiplicity(right, 4);
  }

  lemma ExampleThreesAndFour(right: seq<nat>)
    requires Count(right, 3) == 3 && Count(right, 4) == 1
    ensures Similarity([3, 3, 3, 4], right) == 31
  {
    assert Similarity([4], right) == 4;
    assert Similarity([3, 4], right) == 13;
    assert Similarity([3, 3, 4], right) == 22;
  }

  /** One step of the sum over the left list. */
  lemma SimilarityStep(left: seq<nat>, right: seq<nat>)
    requires |left| > 0
    ensures Similarity(left, right) == left[0] * Count(right, left[0]) + Similarity(left[1..], right)
  {
  }
}
