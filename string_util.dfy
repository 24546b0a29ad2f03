/**
 * `gva.util.StringUtil`: slugs for URLs, tag stripping, one-sentence
 * truncation of descriptions and the Levenshtein edit distance used to rank
 * search results.
 */
module StringUtil {
  import opened JsRuntime

  // ---------------------------------------------------------------------
  // slugify
  // ---------------------------------------------------------------------

  /** `str.replace(/^\s|\s$/g, '')`: drops ONE leading and ONE trailing whitespace character. */
  function TrimOneSpace(s: string): (r: string)
    ensures |s| >= 2 && IsSpace(s[0]) && IsSpace(s[|s| - 1]) ==> r == s[1..|s| - 1]
    ensures |s| >= 1 && !IsSpace(s[0]) && !IsSpace(s[|s| - 1]) ==> r == s
    ensures |s| - 2 <= |r| <= |s|
  {
    if |s| == 0 then s
    else
      var a := if IsSpace(s[0]) then 1 else 0;
      var b := if |s| - 1 >= a && IsSpace(s[|s| - 1]) then |s| - 1 else |s|;
      s[a..b]
  }

  /** A character that survives `replace(/[^\w|\s]/g, '')`. */
  predicate IsSlugSource(c: char) {
    IsWordChar(c) || c == '|' || IsSpace(c)
  }

  /** `replace(/[^\w|\s]/g, '')`: keeps word characters, `|` and whitespace, in order. */
  function RemovePunctuation(s: string): string {
    if s == [] then []
    else if IsSlugSource(s[0]) then [s[0]] + RemovePunctuation(s[1..])
    else RemovePunctuation(s[1..])
  }

  /** The filter keeps exactly the characters of `s` that are slug sources. */
  lemma {:induction false} RemovePunctuationAlphabet(s: string)
    ensures forall i :: 0 <= i < |RemovePunctuation(s)| ==>
      IsSlugSource(RemovePunctuation(s)[i]) && RemovePunctuation(s)[i] in s
    decreases |s|
  {
    if s != [] {
      RemovePunctuationAlphabet(s[1..]);
      var rest := RemovePunctuation(s[1..]);
      assert forall c :: c in s[1..] ==> c in s;
      if IsSlugSource(s[0]) {
        assert RemovePunctuation(s) == [s[0]] + rest;
      }
    }
  }

  /**
   * `replace(/\s+/g, sep)`: every maximal whitespace run becomes one `sep`.
   * A whitespace character followed by another one is dropped, so each run
   * is represented by its last character.
   */
  function ReplaceSpaceRuns(s: string, sep: char): string {
    if s == [] then []
    else if !IsSpace(s[0]) then [s[0]] + ReplaceSpaceRuns(s[1..], sep)
    else if |s| > 1 && IsSpace(s[1]) then ReplaceSpaceRuns(s[1..], sep)
    else [sep] + ReplaceSpaceRuns(s[1..], sep)
  }

  /** No whitespace is left, and every other character is `sep` or comes from `s`. */
  lemma {:induction false} ReplaceSpaceRunsAlphabet(s: string, sep: char)
    requires !IsSpace(sep)
    ensures forall i :: 0 <= i < |ReplaceSpaceRuns(s, sep)| ==>
      !IsSpace(ReplaceSpaceRuns(s, sep)[i]) &&
      (ReplaceSpaceRuns(s, sep)[i] == sep || ReplaceSpaceRuns(s, sep)[i] in s)
    decreases |s|
  {
    if s != [] {
      ReplaceSpaceRunsAlphabet(s[1..], sep);
      assert forall c :: c in s[1..] ==> c in s;
    }
  }

  /** `StringUtil.slugify`: 'Page Title' becomes 'page-title'. */
  function Slugify(s: string): string {
    LowerString(ReplaceSpaceRuns(RemovePunctuation(TrimOneSpace(s)), '-'))
  }

  /** A slug holds only lower-case word characters, `|` and `-`, and never whitespace. */
  lemma SlugifyAlphabet(s: string)
    ensures forall i :: 0 <= i < |Slugify(s)| ==>
      var c := Slugify(s)[i];
      (IsWordChar(c) || c == '|' || c == '-') && !IsUpper(c) && !IsSpace(c)
  {
    var t := RemovePunctuation(TrimOneSpace(s));
    var h := ReplaceSpaceRuns(t, '-');
    RemovePunctuationAlphabet(TrimOneSpace(s));
    ReplaceSpaceRunsAlphabet(t, '-');
    forall i | 0 <= i < |h|
      ensures IsWordChar(h[i]) || h[i] == '|' || h[i] == '-'
    {
      if h[i] != '-' {
        var m :| 0 <= m < |t| && t[m] == h[i];
      }
    }
  }

  /** A string without whitespace is left alone. */
  lemma {:induction false} ReplaceSpaceRunsNoSpace(s: string, sep: char)
    requires !IsSpace(sep)
    requires forall i :: 0 <= i < |s| ==> !IsSpace(s[i])
    ensures ReplaceSpaceRuns(s, sep) == s
    decreases |s|
  {
    if s != [] {
      ReplaceSpaceRunsNoSpace(s[1..], sep);
      assert s == [s[0]] + s[1..];
    }
  }

  /** A single leading space before a whitespace-free word becomes one separator. */
  lemma ReplaceLeadingSpace(b: string, sep: char)
    requires !IsSpace(sep)
    requires forall i :: 0 <= i < |b| ==> !IsSpace(b[i])
    ensures ReplaceSpaceRuns([' '] + b, sep) == [sep] + b
  {
    var t := [' '] + b;
    assert t[1..] == b;
    assert |t| > 1 ==> t[1] == b[0];
    ReplaceSpaceRunsNoSpace(b, sep);
  }

  /** One space between two words becomes one separator. */
  lemma {:induction false} ReplaceOneSpace(a: string, b: string, sep: char)
    requires !IsSpace(sep)
    requires forall i :: 0 <= i < |a| ==> !IsSpace(a[i])
    requires forall i :: 0 <= i < |b| ==> !IsSpace(b[i])
    ensures ReplaceSpaceRuns(a + [' '] + b, sep) == a + [sep] + b
    decreases |a|
  {
    if a == [] {
      assert a + [' '] + b == [' '] + b && a + [sep] + b == [sep] + b;
      ReplaceLeadingSpace(b, sep);
    } else {
      ReplaceOneSpace(a[1..], b, sep);
      var s := a + [' '] + b;
      assert s[0] == a[0] && s[1..] == a[1..] + [' '] + b;
      assert a + [sep] + b == [a[0]] + (a[1..] + [sep] + b);
    }
  }

  /** A string that starts and ends with a word character has no whitespace to trim. */
  lemma WordsUntrimmed(s: string, first: char, last: char)
    requires |s| >= 1 && s[0] == first && s[|s| - 1] == last
    requires IsWordChar(first) && IsWordChar(last)
    ensures TrimOneSpace(s) == s
  {
  }

  /** A non-empty string of word characters. */
  predicate IsWord(w: string) {
    |w| > 0 && forall i :: 0 <= i < |w| ==> IsWordChar(w[i])
  }

  lemma LowerStringConcat(a: string, b: string)
    ensures LowerString(a + b) == LowerString(a) + LowerString(b)
  {
    assert |LowerString(a + b)| == |LowerString(a) + LowerString(b)|;
  }

  /**
   * Two words separated by one space: 'Page Title' becomes 'page-title', the
   * example of the function's doc comment.
   */
  lemma SlugifyTwoWords(a: string, b: string)
    requires IsWord(a) && IsWord(b)
    ensures Slugify(a + " " + b) == LowerString(a) + "-" + LowerString(b)
  {
    var s := a + " " + b;
    calc {
      Slugify(s);
      { WordsUntrimmed(s, a[0], b[|b| - 1]); }
      LowerString(ReplaceSpaceRuns(RemovePunctuation(s), '-'));
      { SpaceKept(a, b); }
      LowerString(ReplaceSpaceRuns(s, '-'));
      { ReplaceOneSpace(a, b, '-'); }
      LowerString(a + "-" + b);
      { LowerStringConcat(a + "-", b); LowerStringConcat(a, "-"); }
      LowerString(a) + "-" + LowerString(b);
    }
  }

  /** The punctuation filter keeps the space between two words. */
  lemma SpaceKept(a: string, b: string)
    requires IsWord(a) && IsWord(b)
    ensures RemovePunctuation(a + " " + b) == a + " " + b
  {
    calc {
      RemovePunctuation(a + " " + b);
      { assert a + " " + b == a + (" " + b); }
      RemovePunctuation(a + (" " + b));
      { RemovePunctuationWord(a, " " + b); }
      a + RemovePunctuation(" " + b);
      { assert (" " + b)[1..] == b; }
      a + (" " + RemovePunctuation(b));
      { RemovePunctuationWord(b, ""); assert b + "" == b; }
      a + (" " + (b + RemovePunctuation("")));
      a + " " + b;
    }
  }

  /**
   * Hyphens are punctuation to slugify, so a slug is not a fixed point:
   * slugifying 'page-title' again gives 'pagetitle'.
   */
  lemma SlugifyDropsHyphen(a: string, b: string)
    requires IsWord(a) && IsWord(b)
    ensures Slugify(a + "-" + b) == LowerString(a + b)
  {
    var s := a + "-" + b;
    calc {
      Slugify(s);
      { WordsUntrimmed(s, a[0], b[|b| - 1]); }
      LowerString(ReplaceSpaceRuns(RemovePunctuation(s), '-'));
      { HyphenRemoved(a, b); }
      LowerString(ReplaceSpaceRuns(a + b, '-'));
      { ReplaceSpaceRunsNoSpace(a + b, '-'); }
      LowerString(a + b);
    }
  }

  /** The punctuation filter removes the hyphen between two words. */
  lemma HyphenRemoved(a: string, b: string)
    requires IsWord(a) && IsWord(b)
    ensures RemovePunctuation(a + "-" + b) == a + b
  {
    calc {
      RemovePunctuation(a + "-" + b);
      { assert a + "-" + b == a + ("-" + b); }
      RemovePunctuation(a + ("-" + b));
      { RemovePunctuationWord(a, "-" + b); }
      a + RemovePunctuation("-" + b);
      { assert ("-" + b)[1..] == b; }
      a + RemovePunctuation(b);
      { RemovePunctuationWord(b, ""); assert b + "" == b; }
      a + (b + RemovePunctuation(""));
      a + b;
    }
  }

  /** Word characters pass the punctuation filter unchanged. */
  lemma {:induction false} RemovePunctuationWord(w: string, rest: string)
    requires forall i :: 0 <= i < |w| ==> IsWordChar(w[i])
    ensures RemovePunctuation(w + rest) == w + RemovePunctuation(rest)
    decreases |w|
  {
    if w == [] {
      assert w + rest == rest;
    } else {
      var t := w + rest;
      assert t[0] == w[0] && t[1..] == w[1..] + rest;
      calc {
        RemovePunctuation(t);
        { assert IsSlugSource(t[0]); }
        [w[0]] + RemovePunctuation(w[1..] + rest);
        { RemovePunctuationWord(w[1..], rest); }
        [w[0]] + (w[1..] + RemovePunctuation(rest));
        { assert w == [w[0]] + w[1..]; }
        w + RemovePunctuation(rest);
      }
    }
  }

  // ---------------------------------------------------------------------
  // stripTags
  // ---------------------------------------------------------------------

  /**
   * The pattern `<([^>]+)>` matches at the head of `s`: a `<`, at least one
   * character other than `>`, then a `>`.
   */
  predicate TagAt(s: string) {
    |s| >= 3 && s[0] == '<' && s[1] != '>' && '>' in s[2..]
  }

  /** Length of the tag at the head of `s`: it ends at the first `>`. */
  function TagLength(s: string): (n: nat)
    requires TagAt(s)
    ensures 3 <= n <= |s| && s[n - 1] == '>'
    ensures forall i :: 1 <= i < n - 1 ==> s[i] != '>'
  {
    var k := IndexOf(s[2..], '>');
    assert s[2..][k] == s[k + 2];
    k + 3
  }

  /** `StringUtil.stripTags`: `str.replace(/(<([^>]+)>)/ig, '')`, scanning left to right. */
  function StripTags(s: string): (r: string)
    ensures forall i :: 0 <= i < |r| ==> r[i] in s
    ensures |r| <= |s|
    decreases |s|
  {
    if s == [] then []
    else if TagAt(s) then StripTags(s[TagLength(s)..])
    else [s[0]] + StripTags(s[1..])
  }

  /** No tag is left in the output: the pattern finds no match in it. */
  lemma {:induction false} StripTagsLeavesNoTag(s: string)
    ensures forall i :: 0 <= i < |StripTags(s)| ==> !TagAt(StripTags(s)[i..])
    decreases |s|
  {
    var r := StripTags(s);
    if s == [] {
    } else if TagAt(s) {
      StripTagsLeavesNoTag(s[TagLength(s)..]);
    } else {
      var rest := StripTags(s[1..]);
      StripTagsLeavesNoTag(s[1..]);
      assert r == [s[0]] + rest;
      forall i | 0 <= i < |r| ensures !TagAt(r[i..]) {
        if i == 0 {
          if s[0] == '<' && |r| >= 3 {
            assert |s| >= 2;
            if s[1] == '>' {
              assert !TagAt(s[1..]);
              assert rest[0] == '>';
            } else {
              assert '>' !in s[2..];
              assert '>' !in s[1..];
              assert r[1..] == rest;
            }
          }
        } else {
          assert r[i..] == rest[i - 1..];
        }
      }
    }
  }

  /** A string without `<` is returned unchanged. */
  lemma {:induction false} StripTagsWithoutLt(s: string)
    requires '<' !in s
    ensures StripTags(s) == s
    decreases |s|
  {
    if s != [] {
      StripTagsWithoutLt(s[1..]);
      assert s == [s[0]] + s[1..];
    }
  }

  // ---------------------------------------------------------------------
  // singleSentence
  // ---------------------------------------------------------------------

  /** `str.substr(0, n)`: the first `n` characters, clamped to the string. */
  function Substr(s: string, n: int): (r: string)
    ensures n <= 0 ==> r == ""
    ensures 0 <= n <= |s| ==> r == s[..n]
    ensures n >= |s| ==> r == s
  {
    if n <= 0 then "" else if n >= |s| then s else s[..n]
  }

  /**
   * First step of `singleSentence`: when the first `.` sits at an index of at
   * least `minLength`, keep everything up to and including it.
   */
  function SentenceCut(s: string, minLength: int): (t: string)
    ensures '.' in s && IndexOf(s, '.') >= minLength ==>
      t == s[..IndexOf(s, '.') + 1] && t[|t| - 1] == '.' && '.' !in t[..|t| - 1]
    ensures '.' in s && IndexOf(s, '.') < minLength ==> t == s
    ensures '.' !in s ==> t == if minLength < 0 then "" else s
  {
    var dot := IndexOf(s, '.');
    if dot > minLength - 1 then
      var t := Substr(s, dot + 1);
      assert dot >= 0 ==> t[..|t| - 1] == s[..dot];
      t
    else s
  }

  /**
   * `p` is what is kept of the first `n` characters of `t`: the text before
   * the last space among them, or nothing when there is no space.
   */
  ghost predicate IsLastSpaceCut(t: string, n: nat, p: string)
    requires n <= |t|
  {
    |p| <= n && p == t[..|p|] &&
    ((|p| < n && t[|p|] == ' ' && ' ' !in t[|p| + 1..n]) || (p == "" && ' ' !in t[..n]))
  }

  /** `str.substr(0, str.substr(0, n).lastIndexOf(' '))`. */
  function CutAtLastSpace(t: string, n: nat): (p: string)
    requires n <= |t|
    ensures IsLastSpaceCut(t, n, p)
  {
    var cut := t[..n];
    var space := LastIndexOf(cut, ' ');
    if space < 0 then ""
    else
      assert cut[space] == t[space];
      assert t[space + 1..n] == cut[space + 1..];
      t[..space]
  }

  /**
   * Second step of `singleSentence`: a string longer than a non-zero
   * `maxLength` is cut to the text before the last space among its first
   * `maxLength` characters, and `...` is appended. `maxLength == 0` stands for
   * an omitted argument (both are falsy); a negative `maxLength` keeps nothing.
   */
  function Ellipsize(t: string, maxLength: int): (r: string)
    ensures maxLength == 0 || |t| <= maxLength ==> r == t
    ensures maxLength != 0 && |t| > maxLength ==>
      |r| >= 3 && r[|r| - 3..] == "..." &&
      IsLastSpaceCut(t, if maxLength < 0 then 0 else maxLength, r[..|r| - 3])
  {
    if maxLength != 0 && |t| > maxLength then
      var p := CutAtLastSpace(t, if maxLength < 0 then 0 else maxLength);
      assert (p + "...")[..|p|] == p;
      p + "..."
    else t
  }

  /** `StringUtil.singleSentence(str, minLength, maxLength)`. */
  function SingleSentence(s: string, minLength: int, maxLength: int): string {
    Ellipsize(SentenceCut(s, minLength), maxLength)
  }

  /** With a positive `maxLength` the result is never more than three characters longer. */
  lemma SingleSentenceBound(s: string, minLength: int, maxLength: int)
    requires maxLength > 0
    ensures |SingleSentence(s, minLength, maxLength)| <= maxLength + 3
  {
    var t := SentenceCut(s, minLength);
    var r := Ellipsize(t, maxLength);
    if |t| > maxLength {
      assert |r[..|r| - 3]| <= maxLength;
    }
  }

  // ---------------------------------------------------------------------
  // levenshtein
  // ---------------------------------------------------------------------

  function Min3(x: nat, y: nat, z: nat): (m: nat)
    ensures m <= x && m <= y && m <= z
    ensures m == x || m == y || m == z
  {
    if x <= y && x <= z then x else if y <= z then y else z
  }

  function SubstitutionCost(c: char, d: char): nat {
    if c == d then 0 else 1
  }

  /**
   * The edit distance with unit-cost insertion, deletion and substitution,
   * defined by recursion on the last characters: the recurrence the source's
   * table encodes, stated without the table.
   */
  function EditDistance(a: string, b: string): nat
    decreases |a| + |b|
  {
    if |a| == 0 then |b|
    else if |b| == 0 then |a|
    else Min3(EditDistance(a[..|a| - 1], b) + 1,
              EditDistance(a, b[..|b| - 1]) + 1,
              EditDistance(a[..|a| - 1], b[..|b| - 1]) + SubstitutionCost(a[|a| - 1], b[|b| - 1]))
  }

  /**
   * The recurrence of `EditDistance` read on prefixes, as the table is filled:
   * the cell for `a[..i]`, `b[..j]` is the minimum of the three candidates
   * built from its neighbours above, to the left and diagonally.
   */
  lemma EditDistanceStep(a: string, b: string, i: nat, j: nat, del: nat, ins: nat, sub: nat)
    requires 1 <= i <= |a| && 1 <= j <= |b|
    requires del == EditDistance(a[..i - 1], b[..j]) + 1
    requires ins == EditDistance(a[..i], b[..j - 1]) + 1
    requires sub == EditDistance(a[..i - 1], b[..j - 1]) + SubstitutionCost(a[i - 1], b[j - 1])
    ensures EditDistance(a[..i], b[..j]) == Min3(del, ins, sub)
  {
    assert a[..i][..i - 1] == a[..i - 1];
    assert b[..j][..j - 1] == b[..j - 1];
  }
  /** The first `j` cells of row `i` of the table hold the distances between prefixes. */
  ghost predicate RowFilled(d: array2<nat>, a: string, b: string, i: nat, j: nat)
    reads d
    requires d.Length0 == |a| + 1 && d.Length1 == |b| + 1 && i <= |a| && j <= |b| + 1
  {
    forall q :: 0 <= q < j ==> d[i, q] == EditDistance(a[..i], b[..q])
  }

  /** Row `i` of the table is complete. */
  ghost predicate RowComplete(d: array2<nat>, a: string, b: string, i: nat)
    reads d
    requires d.Length0 == |a| + 1 && d.Length1 == |b| + 1 && i <= |a|
  {
    RowFilled(d, a, b, i, |b| + 1)
  }

  /** One pass of the inner loop of `levenshtein`: row `i` from row `i - 1`. */
  method FillRow(d: array2<nat>, a: string, b: string, i: nat)
    requires d.Length0 == |a| + 1 && d.Length1 == |b| + 1 && 1 <= i <= |a|
    requires forall p :: 0 <= p < i ==> RowComplete(d, a, b, p)
    requires forall p :: i <= p <= |a| ==> d[p, 0] == p
    modifies d
    ensures forall p :: 0 <= p <= i ==> RowComplete(d, a, b, p)
    ensures forall p :: i < p <= |a| ==> d[p, 0] == p
  {
    assert RowComplete(d, a, b, i - 1);
    var j := 1;
    while j <= |b|
      invariant 1 <= j <= |b| + 1
      invariant forall p, q :: 0 <= p < d.Length0 && p != i && 0 <= q < d.Length1 ==> d[p, q] == old(d[p, q])
      invariant RowFilled(d, a, b, i, j)
    {
      assert d[i - 1, j] == old(d[i - 1, j]) == EditDistance(a[..i - 1], b[..j]);
      assert d[i - 1, j - 1] == old(d[i - 1, j - 1]) == EditDistance(a[..i - 1], b[..j - 1]);
      assert d[i, j - 1] == EditDistance(a[..i], b[..j - 1]);
      var del, ins := d[i - 1, j] + 1, d[i, j - 1] + 1;
      var sub := d[i - 1, j - 1] + SubstitutionCost(a[i - 1], b[j - 1]);
      EditDistanceStep(a, b, i, j, del, ins, sub);
      var m := Min3(del, ins, sub);
      label before:
      d[i, j] := m;
      assert RowFilled(d, a, b, i, j + 1) by {
        forall q | 0 <= q < j ensures d[i, q] == EditDistance(a[..i], b[..q]) {
          assert d[i, q] == old@before(d[i, q]);
        }
      }
      j := j + 1;
    }
    forall p | 0 <= p < i ensures RowComplete(d, a, b, p) {
      assert old(RowComplete(d, a, b, p));
      forall q | 0 <= q <= |b| ensures d[p, q] == EditDistance(a[..p], b[..q]) {
        assert d[p, q] == old(d[p, q]);
      }
    }
  }

  /**
   * `StringUtil.levenshtein`: fills the table `d` with `d[i][0] = i`,
   * `d[0][j] = j` and the minimum of deletion, insertion and substitution,
   * and returns its last cell.
   */
  method Levenshtein(a: string, b: string) returns (r: nat)
    ensures r == EditDistance(a, b)
  {
    var x, y := |a|, |b|;
    var d := new nat[x + 1, y + 1];
    var i := 0;
    while i <= x
      invariant 0 <= i <= x + 1
      invariant forall k :: 0 <= k < i ==> d[k, 0] == k
    {
      d[i, 0] := i;
      i := i + 1;
    }
    i := 0;
    while i <= y
      invariant 0 <= i <= y + 1
      invariant forall k :: 0 <= k <= x ==> d[k, 0] == k
      invariant RowFilled(d, a, b, 0, i)
    {
      d[0, i] := i;
      i := i + 1;
    }
    i := 1;
    while i <= x
      invariant 1 <= i <= x + 1
      invariant forall p :: 0 <= p < i ==> RowComplete(d, a, b, p)
      invariant forall p :: i <= p <= x ==> d[p, 0] == p
    {
      FillRow(d, a, b, i);
      i := i + 1;
    }
    assert RowComplete(d, a, b, x);
    assert a[..x] == a && b[..y] == b;
    r := d[x, y];
  }

  /** A string is at distance 0 from itself. */
  lemma {:induction false} EditDistanceSelf(a: string)
    ensures EditDistance(a, a) == 0
    decreases |a|
  {
    if |a| > 0 {
      EditDistanceSelf(a[..|a| - 1]);
    }
  }

  /** The distance to the empty string is the length. */
  lemma EditDistanceToEmpty(a: string)
    ensures EditDistance(a, "") == |a| && EditDistance("", a) == |a|
  {
  }

  /** The distance is symmetric. */
  lemma {:induction false} EditDistanceSymmetric(a: string, b: string)
    ensures EditDistance(a, b) == EditDistance(b, a)
    decreases |a| + |b|
  {
    if |a| > 0 && |b| > 0 {
      EditDistanceSymmetric(a[..|a| - 1], b);
      EditDistanceSymmetric(a, b[..|b| - 1]);
      EditDistanceSymmetric(a[..|a| - 1], b[..|b| - 1]);
    }
  }

  /** The distance lies between the difference of the lengths and the larger length. */
  lemma {:induction false} EditDistanceBounds(a: string, b: string)
    ensures |a| - |b| <= EditDistance(a, b) && |b| - |a| <= EditDistance(a, b)
    ensures EditDistance(a, b) <= if |a| < |b| then |b| else |a|
    decreases |a| + |b|
  {
    if |a| > 0 && |b| > 0 {
      EditDistanceBounds(a[..|a| - 1], b);
      EditDistanceBounds(a, b[..|b| - 1]);
      EditDistanceBounds(a[..|a| - 1], b[..|b| - 1]);
    }
  }
}
