/** Text handling shared by the solvers: splitting a line on a pattern
    (`str::split`), splitting on runs of whitespace (`str::split_whitespace`),
    printing a number (`to_string`) and reading one back (`parse` of an
    unsigned integer), all on `string` values. */
module Text {
  import opened Options

  predicate IsDigit(c: char) { '0' <= c <= '9' }

  predicate AllDigits(s: string) { forall i :: 0 <= i < |s| ==> IsDigit(s[i]) }

  /** A non-empty run of decimal digits: the strings an unsigned `parse` accepts here. */
  predicate IsNumeral(s: string) { |s| > 0 && AllDigits(s) }

  /** `char::is_whitespace`, the Unicode White_Space property: tab, line
      feed, vertical tab, form feed, carriage return, space, next line,
      no-break space, ogham space mark, the spaces U+2000 to U+200A, line
      and paragraph separator, narrow no-break space, medium mathematical
      space and ideographic space. */
  predicate IsWhitespace(c: char)
  {
    || '\t' <= c <= '\r' || c == ' ' || c == '\U{0085}' || c == '\U{00A0}' || c == '\U{1680}'
    || '\U{2000}' <= c <= '\U{200A}' || c == '\U{2028}' || c == '\U{2029}' || c == '\U{202F}'
    || c == '\U{205F}' || c == '\U{3000}'
  }

  predicate NoWhitespace(s: string) { forall i :: 0 <= i < |s| ==> !IsWhitespace(s[i]) }

  function Pow10(k: nat): (r: nat)
    ensures r >= 1
  {
    if k == 0 then 1 else 10 * Pow10(k - 1)
  }

  /** The value of a digit string, most significant digit first. */
  function ParseNat(s: string): (n: nat)
    requires AllDigits(s)
    ensures n < Pow10(|s|)
    decreases |s|
  {
    if |s| == 0 then 0
    else
      var p := ParseNat(s[..|s| - 1]);
      var d := s[|s| - 1] as int - '0' as int;
      assert p * 10 + d <= (Pow10(|s| - 1) - 1) * 10 + 9;
      p * 10 + d
  }

  function DigitChar(d: nat): (c: char)
    requires d < 10
    ensures IsDigit(c) && c as int - '0' as int == d
  {
    ('0' as int + d) as char
  }

  /** The decimal representation of `n`, as `to_string` prints it: reading it
      back gives `n`, and only zero starts with the digit '0'. */
  function Numeral(n: nat): (s: string)
    ensures IsNumeral(s)
    ensures ParseNat(s) == n
    ensures s[0] == '0' ==> n == 0
    decreases n
  {
    if n < 10 then [DigitChar(n)]
    else
      var s := Numeral(n / 10) + [DigitChar(n % 10)];
      assert s[..|s| - 1] == Numeral(n / 10);
      s
  }

  /** Reading the concatenation of two digit strings shifts the first one
      left by as many decimal places as the second has digits. */
  lemma {:induction false} ParseNatAppend(s: string, t: string)
    requires AllDigits(s) && AllDigits(t)
    ensures AllDigits(s + t)
    ensures ParseNat(s + t) == ParseNat(s) * Pow10(|t|) + ParseNat(t)
    decreases |t|
  {
    assert AllDigits(s + t) by {
      forall i | 0 <= i < |s + t| ensures IsDigit((s + t)[i]) {
        if i < |s| { assert (s + t)[i] == s[i]; } else { assert (s + t)[i] == t[i - |s|]; }
      }
    }
    if |t| == 0 {
      assert s + t == s;
    } else {
      var t' := t[..|t| - 1];
      var d := t[|t| - 1] as int - '0' as int;
      assert (s + t)[..|s + t| - 1] == s + t';
      assert (s + t)[|s + t| - 1] == t[|t| - 1];
      ParseNatAppend(s, t');
      var a, p, b := ParseNat(s), Pow10(|t'|), ParseNat(t');
      assert ParseNat(s + t) == (a * p + b) * 10 + d;
      assert ParseNat(t) == b * 10 + d;
      assert Pow10(|t|) == 10 * p;
      ShiftDecimal(a, p, b, d);
    }
  }

  lemma ShiftDecimal(a: int, p: int, b: int, d: int)
    ensures (a * p + b) * 10 + d == a * (10 * p) + (b * 10 + d)
  {}

  /** A printed number holds digits only. */
  lemma NumeralWithout(n: nat, c: char)
    requires !IsDigit(c)
    ensures c !in Numeral(n)
  {
  }

  /** The pieces joined back with the separator between them (the inverse of `Split`). */
  function Join(parts: seq<string>, sep: string): string
    decreases |parts|
  {
    if |parts| == 0 then ""
    else if |parts| == 1 then parts[0]
    else parts[0] + sep + Join(parts[1..], sep)
  }

  /** `str::split` with a string pattern: the pieces between the leftmost
      non-overlapping occurrences of `sep`. Joining the pieces with `sep`
      gives back the input. */
  function Split(s: string, sep: string): (parts: seq<string>)
    requires |sep| > 0
    ensures |parts| > 0
    ensures Join(parts, sep) == s
    decreases |s|
  {
    if |s| < |sep| then [s]
    else if s[..|sep|] == sep then
      var rest := Split(s[|sep|..], sep);
      assert Join([""] + rest, sep) == "" + sep + Join(rest, sep) by {
        assert ([""] + rest)[1..] == rest;
      }
      assert s == s[..|sep|] + s[|sep|..];
      [""] + rest
    else
      var rest := Split(s[1..], sep);
      var parts := [[s[0]] + rest[0]] + rest[1..];
      assert Join(parts, sep) == [s[0]] + Join(rest, sep) by {
        if |rest| > 1 {
          assert parts[1..] == rest[1..];
        }
      }
      assert s == [s[0]] + s[1..];
      parts
  }

  /** The join starts with the first piece. */
  lemma {:induction false} JoinStartsWithFirst(parts: seq<string>, sep: string)
    requires |parts| > 0
    ensures |Join(parts, sep)| >= |parts[0]| && Join(parts, sep)[..|parts[0]|] == parts[0]
  {
    if |parts| > 1 {
      assert Join(parts, sep) == parts[0] + (sep + Join(parts[1..], sep));
    }
  }

  /** `sep` occurs in `t` starting at index `i`. */
  predicate SeparatorAt(t: string, i: int, sep: string)
  {
    0 <= i && i + |sep| <= |t| && t[i..i + |sep|] == sep
  }

  /** `sep` starts nowhere in `a`, not even running on into a following `sep`. */
  predicate SeparatorFree(a: string, sep: string)
  {
    forall i :: 0 <= i < |a| ==> !SeparatorAt(a + sep, i, sep)
  }

  /** Dropping the first character keeps `sep` out. */
  lemma SeparatorFreeTail(a: string, sep: string)
    requires |a| > 0 && SeparatorFree(a, sep)
    ensures SeparatorFree(a[1..], sep)
  {
    assert a[1..] + sep == (a + sep)[1..];
    forall i | 0 <= i < |a[1..]| ensures !SeparatorAt(a[1..] + sep, i, sep) {
      assert !SeparatorAt(a + sep, i + 1, sep);
      assert (a[1..] + sep)[i..i + |sep|] == (a + sep)[i + 1..i + 1 + |sep|];
    }
  }

  /** The leftmost occurrence of `sep` in `a + sep + rest` is the one after `a`. */
  lemma {:induction false} SplitAtSeparator(a: string, sep: string, rest: string)
    requires |sep| > 0 && SeparatorFree(a, sep)
    ensures Split(a + sep + rest, sep) == [a] + Split(rest, sep)
    decreases |a|
  {
    var s := a + sep + rest;
    if |a| == 0 {
      assert s == sep + rest;
      assert s[..|sep|] == sep;
      assert s[|sep|..] == rest;
    } else {
      assert !SeparatorAt(a + sep, 0, sep);
      assert s[..|sep|] == (a + sep)[0..|sep|];
      assert s[1..] == a[1..] + sep + rest;
      SeparatorFreeTail(a, sep);
      SplitAtSeparator(a[1..], sep, rest);
      assert [a[0]] + a[1..] == a;
    }
  }

  /** A text in which `sep` never starts comes out of `Split` whole. */
  lemma {:induction false} SplitSeparatorFree(a: string, sep: string)
    requires |sep| > 0 && SeparatorFree(a, sep)
    ensures Split(a, sep) == [a]
    decreases |a|
  {
    if |a| >= |sep| {
      assert !SeparatorAt(a + sep, 0, sep);
      assert a[..|sep|] == (a + sep)[0..|sep|];
      SeparatorFreeTail(a, sep);
      SplitSeparatorFree(a[1..], sep);
      assert [a[0]] + a[1..] == a;
    }
  }

  /** Non-empty lines without line breaks, joined by single line feeds,
      hold no blank line: "\n\n" starts nowhere in them. */
  lemma {:induction false} JoinedLinesSeparatorFree(lines: seq<string>)
    requires forall i :: 0 <= i < |lines| ==> |lines[i]| > 0 && '\n' !in lines[i]
    ensures SeparatorFree(Join(lines, "\n"), "\n\n")
    decreases |lines|
  {
    var a := Join(lines, "\n");
    if |lines| == 1 {
      forall i | 0 <= i < |a| ensures !SeparatorAt(a + "\n\n", i, "\n\n") {
        assert (a + "\n\n")[i] == a[i];
      }
    } else if |lines| > 1 {
      var tail := Join(lines[1..], "\n");
      JoinedLinesSeparatorFree(lines[1..]);
      JoinStartsWithFirst(lines[1..], "\n");
      assert tail[0] == tail[..|lines[1]|][0] == lines[1][0];
      assert a == lines[0] + "\n" + tail;
      forall i | 0 <= i < |a| ensures !SeparatorAt(a + "\n\n", i, "\n\n") {
        if i < |lines[0]| {
          assert (a + "\n\n")[i] == lines[0][i];
        } else if i == |lines[0]| {
          assert (a + "\n\n")[i + 1] == tail[0];
        } else {
          var t := i - |lines[0]| - 1;
          assert !SeparatorAt(tail + "\n\n", t, "\n\n");
          assert (a + "\n\n")[i..i + 2] == (tail + "\n\n")[t..t + 2];
        }
      }
    }
  }

  /** A piece that does not contain the separator's first character comes out of `Split` whole. */
  lemma {:induction false} SplitWithoutSeparator(a: string, sep: string)
    requires |sep| > 0 && sep[0] !in a
    ensures Split(a, sep) == [a]
    decreases |a|
  {
    if |a| >= |sep| {
      assert a[..|sep|][0] == a[0];
      SplitWithoutSeparator(a[1..], sep);
      assert [a[0]] + a[1..] == a;
    }
  }

  lemma {:induction false} SplitAtFirstSeparator(a: string, sep: string, rest: string)
    requires |sep| > 0 && sep[0] !in a
    ensures Split(a + sep + rest, sep) == [a] + Split(rest, sep)
    decreases |a|
  {
    var s := a + sep + rest;
    if |a| == 0 {
      assert s == sep + rest;
      assert s[..|sep|] == sep;
      assert s[|sep|..] == rest;
    } else {
      assert s[..|sep|][0] == a[0];
      assert s[1..] == a[1..] + sep + rest;
      SplitAtFirstSeparator(a[1..], sep, rest);
      assert [a[0]] + a[1..] == a;
    }
  }

  /** The first occurrence of `sep`, at `k`, ends the first piece. */
  lemma SplitFirst(s: string, sep: string, k: int)
    requires |sep| > 0 && 0 <= k && k + |sep| <= |s| && s[k..k + |sep|] == sep && sep[0] !in s[..k]
    ensures Split(s, sep) == [s[..k]] + Split(s[k + |sep|..], sep)
  {
    var a, mid, rest := s[..k], s[k..], s[k + |sep|..];
    assert s == a + sep + rest by {
      assert s == a + mid;
      assert mid == mid[..|sep|] + mid[|sep|..];
      assert mid[..|sep|] == sep && mid[|sep|..] == rest;
      ConcatAssoc(a, sep, rest);
    }
    SplitAtFirstSeparator(a, sep, rest);
  }

  /** Splitting pieces that were joined with `sep` gives the pieces back,
      provided none of them contains the separator's first character. */
  lemma {:induction false} SplitJoin(parts: seq<string>, sep: string)
    requires |sep| > 0 && |parts| > 0
    requires forall i :: 0 <= i < |parts| ==> sep[0] !in parts[i]
    ensures Split(Join(parts, sep), sep) == parts
    decreases |parts|
  {
    if |parts| == 1 {
      SplitWithoutSeparator(parts[0], sep);
    } else {
      SplitJoin(parts[1..], sep);
      SplitAtFirstSeparator(parts[0], sep, Join(parts[1..], sep));
      assert [parts[0]] + parts[1..] == parts;
    }
  }

  /** Length of the leading run of non-whitespace characters. */
  function WordLength(s: string): (n: nat)
    ensures n <= |s|
    ensures NoWhitespace(s[..n])
    ensures n < |s| ==> IsWhitespace(s[n])
    decreases |s|
  {
    if |s| == 0 || IsWhitespace(s[0]) then 0
    else
      var n := 1 + WordLength(s[1..]);
      assert s[..n] == [s[0]] + s[1..][..n - 1];
      n
  }

  /** `str::split_whitespace`: the maximal non-empty runs of non-whitespace characters. */
  function Words(s: string): (words: seq<string>)
    ensures forall i :: 0 <= i < |words| ==> |words[i]| > 0 && NoWhitespace(words[i])
    ensures exists gaps :: Spacing(gaps, |words|) && Interleave(gaps, words) == s
    decreases |s|
  {
    if |s| == 0 then
      assert Spacing([""], 0) && Interleave([""], []) == s;
      []
    else if IsWhitespace(s[0]) then
      var words := Words(s[1..]);
      SpaceBefore(s[0], s[1..], words);
      assert [s[0]] + s[1..] == s;
      words
    else
      var n := WordLength(s);
      var words := Words(s[n..]);
      WordBefore(s[..n], s[n..], words);
      assert s[..n] + s[n..] == s;
      [s[..n]] + words
  }

  predicate AllWhitespace(s: string) { forall i :: 0 <= i < |s| ==> IsWhitespace(s[i]) }

  /** The whitespace around `n` words: a run before each word and one after
      the last, where the runs between two words are not empty. */
  predicate Spacing(gaps: seq<string>, n: nat)
  {
    && |gaps| == n + 1
    && (forall i :: 0 <= i < |gaps| ==> AllWhitespace(gaps[i]))
    && (forall i :: 0 < i < n ==> |gaps[i]| > 0)
  }

  /** `gaps[0] + words[0] + gaps[1] + ... + words[n - 1] + gaps[n]`. */
  function Interleave(gaps: seq<string>, words: seq<string>): string
    requires |gaps| == |words| + 1
    decreases |words|
  {
    if |words| == 0 then gaps[0] else gaps[0] + (words[0] + Interleave(gaps[1..], words[1..]))
  }

  /** Whitespace in front of a text joins its first run. */
  lemma SpaceBefore(c: char, t: string, words: seq<string>)
    requires IsWhitespace(c)
    requires exists gaps :: Spacing(gaps, |words|) && Interleave(gaps, words) == t
    ensures exists gaps :: Spacing(gaps, |words|) && Interleave(gaps, words) == [c] + t
  {
    var gaps :| Spacing(gaps, |words|) && Interleave(gaps, words) == t;
    var first := [c] + gaps[0];
    var longer := [first] + gaps[1..];
    assert Interleave(longer, words) == [c] + t by {
      InterleaveFirstGap([c], gaps, words);
    }
    WhitespaceRunBefore(c, gaps[0]);
    SpacingWithFirst(gaps, first, |words|);
  }

  lemma WhitespaceRunBefore(c: char, g: string)
    requires IsWhitespace(c) && AllWhitespace(g)
    ensures AllWhitespace([c] + g)
  {
    var first := [c] + g;
    forall j | 0 <= j < |first| ensures IsWhitespace(first[j]) {
      if j > 0 {
        assert first[j] == g[j - 1];
      }
    }
  }

  /** Replacing the leading run by another whitespace run keeps the spacing. */
  lemma SpacingWithFirst(gaps: seq<string>, first: string, n: nat)
    requires Spacing(gaps, n) && AllWhitespace(first)
    ensures Spacing([first] + gaps[1..], n)
  {
    var longer := [first] + gaps[1..];
    forall i | 1 <= i < |longer| ensures longer[i] == gaps[i] {
    }
  }

  lemma ConcatAssoc<T>(a: seq<T>, b: seq<T>, c: seq<T>)
    ensures (a + b) + c == a + (b + c)
  {
  }

  lemma InterleaveFirstGap(p: string, gaps: seq<string>, words: seq<string>)
    requires |gaps| == |words| + 1
    ensures Interleave([p + gaps[0]] + gaps[1..], words) == p + Interleave(gaps, words)
  {
    var longer := [p + gaps[0]] + gaps[1..];
    assert longer[1..] == gaps[1..];
    if |words| > 0 {
      ConcatAssoc(p, gaps[0], words[0] + Interleave(gaps[1..], words[1..]));
    }
  }

  /** A word in front of a text that is empty or starts with whitespace
      comes first, with an empty run before it. */
  lemma WordBefore(w: string, t: string, words: seq<string>)
    requires |w| > 0 && NoWhitespace(w) && (|t| == 0 || IsWhitespace(t[0]))
    requires forall i :: 0 <= i < |words| ==> |words[i]| > 0 && NoWhitespace(words[i])
    requires exists gaps :: Spacing(gaps, |words|) && Interleave(gaps, words) == t
    ensures exists gaps :: Spacing(gaps, |words| + 1) && Interleave(gaps, [w] + words) == w + t
  {
    var gaps :| Spacing(gaps, |words|) && Interleave(gaps, words) == t;
    var longer := [""] + gaps;
    assert longer[1..] == gaps && ([w] + words)[1..] == words;
    assert Interleave(longer, [w] + words) == w + t;
    assert Spacing(longer, |words| + 1);
  }

  /** Leading whitespace produces no word. */
  lemma {:induction false} WordsAfterSpace(g: string, t: string)
    requires AllWhitespace(g)
    ensures Words(g + t) == Words(t)
    decreases |g|
  {
    if |g| > 0 {
      assert (g + t)[1..] == g[1..] + t;
      WordsAfterSpace(g[1..], t);
    } else {
      assert g + t == t;
    }
  }

  /** A word followed by nothing or by whitespace is the first word. */
  lemma WordBeforeSpace(w: string, rest: string)
    requires |w| > 0 && NoWhitespace(w) && (|rest| == 0 || IsWhitespace(rest[0]))
    ensures Words(w + rest) == [w] + Words(rest)
  {
    WordLengthOfWord(w, rest);
    assert (w + rest)[..|w|] == w && (w + rest)[|w|..] == rest;
  }

  lemma FirstGapStarts(gaps: seq<string>, words: seq<string>)
    requires |gaps| == |words| + 1 && |gaps[0]| > 0
    ensures |Interleave(gaps, words)| > 0 && Interleave(gaps, words)[0] == gaps[0][0]
  {
    if |words| > 0 {
      var tail := words[0] + Interleave(gaps[1..], words[1..]);
      assert (gaps[0] + tail)[0] == gaps[0][0];
    }
  }

  /** Words separated by runs of whitespace, with any whitespace before the
      first and after the last, split back into the same words. */
  lemma {:induction false} WordsOfSpaced(gaps: seq<string>, words: seq<string>)
    requires Spacing(gaps, |words|)
    requires forall i :: 0 <= i < |words| ==> |words[i]| > 0 && NoWhitespace(words[i])
    ensures Words(Interleave(gaps, words)) == words
    decreases |words|
  {
    if |words| == 0 {
      WordsAfterSpace(gaps[0], "");
      assert gaps[0] + "" == gaps[0];
    } else {
      var rest := Interleave(gaps[1..], words[1..]);
      assert Spacing(gaps[1..], |words| - 1);
      WordsOfSpaced(gaps[1..], words[1..]);
      if |gaps[1]| > 0 {
        FirstGapStarts(gaps[1..], words[1..]);
      } else {
        assert |words| == 1 && rest == gaps[1];
      }
      WordsOfSpacedStep(gaps[0], words[0], rest, words[1..]);
      assert [words[0]] + words[1..] == words;
    }
  }

  lemma WordsOfSpacedStep(g: string, w: string, rest: string, others: seq<string>)
    requires AllWhitespace(g) && |w| > 0 && NoWhitespace(w)
    requires (|rest| == 0 || IsWhitespace(rest[0])) && Words(rest) == others
    ensures Words(g + (w + rest)) == [w] + others
  {
    WordBeforeSpace(w, rest);
    WordsAfterSpace(g, w + rest);
  }

  /** Any Unicode space separates words, not only the ASCII ones: two
      numbers around a no-break space are two words. */
  lemma NoBreakSpaceSeparates()
    ensures Words("12\U{00A0}3") == ["12", "3"]
  {
    var gaps, words := ["", "\U{00A0}", ""], ["12", "3"];
    assert Spacing(gaps, 2) && NoWhitespace(words[0]) && NoWhitespace(words[1]);
    assert Interleave(gaps, words) == "12\U{00A0}3" by {
      assert Interleave(gaps[2..], words[2..]) == "";
    }
    WordsOfSpaced(gaps, words);
  }

  /** Text without whitespace is one word. */
  lemma SingleWord(w: string)
    requires |w| > 0 && NoWhitespace(w)
    ensures Words(w) == [w]
  {
    WordLengthOfWord(w, "");
    assert w + "" == w;
    assert w[..|w|] == w && w[|w|..] == "";
  }

  lemma {:induction false} WordLengthOfWord(w: string, rest: string)
    requires NoWhitespace(w)
    requires |rest| == 0 || IsWhitespace(rest[0])
    ensures WordLength(w + rest) == |w|
    decreases |w|
  {
    if |w| > 0 {
      assert (w + rest)[1..] == w[1..] + rest;
      WordLengthOfWord(w[1..], rest);
    } else {
      assert w + rest == rest;
    }
  }

  /** The lines that are not empty, in order: the lines `parse_input`
      and `ListPair::parse` look at. */
  function NonEmptyLines(lines: seq<string>): (r: seq<string>)
    ensures |r| <= |lines|
    ensures forall i :: 0 <= i < |r| ==> r[i] != ""
    decreases |lines|
  {
    if |lines| == 0 then []
    else
      var rest := NonEmptyLines(lines[1..]);
      if lines[0] == "" then rest else [lines[0]] + rest
  }

  /** Exactly the non-empty lines are kept. */
  lemma {:induction false} NonEmptyLinesMembers(lines: seq<string>)
    ensures forall line :: line in NonEmptyLines(lines) <==> line in lines && line != ""
    decreases |lines|
  {
    if |lines| > 0 {
      NonEmptyLinesMembers(lines[1..]);
      assert forall line :: line in lines <==> line == lines[0] || line in lines[1..];
    }
  }

  /** Filtering distributes over concatenation. */
  lemma {:induction false} NonEmptyLinesAppend(a: seq<string>, b: seq<string>)
    ensures NonEmptyLines(a + b) == NonEmptyLines(a) + NonEmptyLines(b)
    decreases |a|
  {
    if |a| == 0 {
      assert a + b == b;
    } else {
      assert (a + b)[1..] == a[1..] + b;
      NonEmptyLinesAppend(a[1..], b);
    }
  }

  /** Lines that are all non-empty are kept as they are. */
  lemma {:induction false} NonEmptyLinesKeepsAll(lines: seq<string>)
    requires forall i :: 0 <= i < |lines| ==> lines[i] != ""
    ensures NonEmptyLines(lines) == lines
    decreases |lines|
  {
    if |lines| > 0 {
      NonEmptyLinesKeepsAll(lines[1..]);
      assert [lines[0]] + lines[1..] == lines;
    }
  }

  /** An empty line anywhere is dropped: between any `before` and `after`. */
  lemma EmptyLineDropped(before: seq<string>, after: seq<string>)
    ensures NonEmptyLines(before + [""] + after) == NonEmptyLines(before + after)
  {
    var empty: seq<string> := [""];
    assert NonEmptyLines(before + empty) == NonEmptyLines(before) by {
      NonEmptyLinesAppend(before, empty);
      assert NonEmptyLines(empty) == [];
    }
    NonEmptyLinesAppend(before + empty, after);
    NonEmptyLinesAppend(before, after);
  }

  /** Every line read with `parse`, or None when one of them fails: a
      `map` whose `unwrap` panics on the first bad line. */
  function ParseAll<T>(lines: seq<string>, parse: string -> Option<T>): (r: Option<seq<T>>)
    ensures r.Some? <==> forall i {:trigger lines[i]} :: 0 <= i < |lines| ==> parse(lines[i]).Some?
    ensures r.Some? ==> (|r.value| == |lines| &&
      forall i {:trigger lines[i]} :: 0 <= i < |lines| ==> parse(lines[i]) == Some(r.value[i]))
    decreases |lines|
  {
    if |lines| == 0 then Some([])
    else
      var rest := ParseAll(lines[1..], parse);
      assert forall i :: 1 <= i < |lines| ==> lines[i] == lines[1..][i - 1];
      match parse(lines[0])
      case None => None
      case Some(v) => if rest.Some? then Some([v] + rest.value) else None
  }

  /** Lines that each read as the value at their index read as all those values. */
  lemma ParseAllOf<T>(lines: seq<string>, parse: string -> Option<T>, values: seq<T>)
    requires |lines| == |values|
    requires forall i :: 0 <= i < |lines| ==> parse(lines[i]) == Some(values[i])
    ensures ParseAll(lines, parse) == Some(values)
  {
    var r := ParseAll(lines, parse);
    assert r.Some?;
    assert r.value == values;
  }

  /** Words joined by single spaces split back into the same words. */
  lemma {:induction false} WordsJoin(words: seq<string>)
    requires forall i :: 0 <= i < |words| ==> |words[i]| > 0 && NoWhitespace(words[i])
    ensures Words(Join(words, " ")) == words
    decreases |words|
  {
    if |words| == 1 {
      var w := words[0];
      WordLengthOfWord(w, "");
      assert w + "" == w;
      assert w[|w|..] == "";
    } else if |words| > 1 {
      var w := words[0];
      var tail := Join(words[1..], " ");
      var s := w + " " + tail;
      WordLengthOfWord(w, " " + tail);
      assert s == w + (" " + tail);
      assert s[..|w|] == w;
      assert s[|w|..] == " " + tail;
      assert (" " + tail)[1..] == tail;
      WordsJoin(words[1..]);
      assert [w] + words[1..] == words;
    }
  }

  /** Each number printed, in order. */
  function Numerals(numbers: seq<nat>): (parts: seq<string>)
    ensures |parts| == |numbers|
    ensures forall i :: 0 <= i < |numbers| ==> parts[i] == Numeral(numbers[i])
  {
    seq(|numbers|, i requires 0 <= i < |numbers| => Numeral(numbers[i]))
  }

  /** Every piece read as a number, or None when one of them is not a number. */
  function ParseNumbers(parts: seq<string>): (r: Option<seq<nat>>)
    ensures r.None? <==> exists i :: 0 <= i < |parts| && !IsNumeral(parts[i])
    ensures r.Some? ==> |r.value| == |parts|
    ensures r.Some? ==> forall i :: 0 <= i < |parts| ==> IsNumeral(parts[i]) && r.value[i] == ParseNat(parts[i])
    decreases |parts|
  {
    if |parts| == 0 then Some([])
    else if !IsNumeral(parts[0]) then None
    else
      match ParseNumbers(parts[1..])
      case None => None
      case Some(rest) => Some([ParseNat(parts[0])] + rest)
  }

  /** Reading printed numbers back gives the numbers. */
  lemma ParseNumerals(numbers: seq<nat>)
    ensures ParseNumbers(Numerals(numbers)) == Some(numbers)
  {
    assert ParseNumbers(Numerals(numbers)).value == numbers;
  }

  /** A character in neither the pieces nor the separator is not in their join. */
  lemma {:induction false} JoinWithout(parts: seq<string>, sep: string, c: char)
    requires c !in sep && forall i :: 0 <= i < |parts| ==> c !in parts[i]
    ensures c !in Join(parts, sep)
    decreases |parts|
  {
    if |parts| > 1 {
      JoinWithout(parts[1..], sep, c);
    }
  }
}
