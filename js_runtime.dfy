/**
 * The pieces of JavaScript's runtime that the catalogue's logic leans on:
 * the `undefined`-or-value shape, the character classes of its regular
 * expressions, number-to-string conversion of integers, `indexOf`,
 * `lastIndexOf`, `split` and `join`, and the order in which a `for ... in`
 * loop visits an object's keys.
 *
 * Strings are sequences of Unicode scalar values (Dafny `char`), not UTF-16
 * code units.
 */
module JsRuntime {
  import opened Sorting

  /** A value that may be `undefined` (or `null`, or `false` where the source returns that instead). */
  datatype Option<+T> = None | Some(value: T)

  /** `\w` of a JavaScript regular expression without the `u` flag. */
  predicate IsWordChar(c: char) {
    ('a' <= c <= 'z') || ('A' <= c <= 'Z') || ('0' <= c <= '9') || c == '_'
  }

  /** `\s` of a JavaScript regular expression: the WhiteSpace and LineTerminator characters. */
  predicate IsSpace(c: char) {
    c == '\t' || c == '\n' || c == '\U{B}' || c == '\U{C}' || c == '\r' || c == ' ' ||
    c == '\U{A0}' || c == '\U{1680}' || ('\U{2000}' <= c <= '\U{200A}') ||
    c == '\U{2028}' || c == '\U{2029}' || c == '\U{202F}' || c == '\U{205F}' ||
    c == '\U{3000}' || c == '\U{FEFF}'
  }

  predicate IsUpper(c: char) { 'A' <= c <= 'Z' }

  predicate IsDigit(c: char) { '0' <= c <= '9' }

  /**
   * `toLowerCase` on one character, and the case folding of the regex flag
   * `i`, for the ASCII letters only; every other character is left as it is.
   */
  function ToLower(c: char): (r: char)
    ensures !IsUpper(r)
    ensures IsUpper(c) ==> r as int == c as int + 32
    ensures !IsUpper(c) ==> r == c
  {
    if IsUpper(c) then (c as int + 32) as char else c
  }

  function LowerString(s: string): (r: string)
    ensures |r| == |s|
    ensures forall i :: 0 <= i < |s| ==> r[i] == ToLower(s[i])
  {
    seq(|s|, i requires 0 <= i < |s| => ToLower(s[i]))
  }

  function DigitChar(d: nat): (c: char)
    requires d < 10
    ensures IsDigit(c) && c as int - '0' as int == d
  {
    ('0' as int + d) as char
  }

  function DigitValue(c: char): (d: nat)
    requires IsDigit(c)
    ensures d < 10 && DigitChar(d) == c
  {
    c as int - '0' as int
  }

  predicate AllDigits(s: string) {
    forall i :: 0 <= i < |s| ==> IsDigit(s[i])
  }

  /** `String(n)` for a non-negative integer below 10^21: decimal, no leading zeros. */
  function NatToString(n: nat): (s: string)
    ensures 1 <= |s| && AllDigits(s)
    ensures |s| == 1 <==> n < 10
    ensures s[0] == '0' ==> n == 0
    decreases n
  {
    if n < 10 then [DigitChar(n)] else NatToString(n / 10) + [DigitChar(n % 10)]
  }

  /** Reading a string of decimal digits back as a number. */
  function DigitsValue(s: string): nat
    requires AllDigits(s)
  {
    if s == [] then 0 else 10 * DigitsValue(s[..|s| - 1]) + DigitValue(s[|s| - 1])
  }

  /** Printing and reading back a natural number are inverse. */
  lemma {:induction false} DigitsValueOfNatToString(n: nat)
    ensures DigitsValue(NatToString(n)) == n
    decreases n
  {
    if n >= 10 {
      DigitsValueOfNatToString(n / 10);
      var s := NatToString(n);
      assert s[..|s| - 1] == NatToString(n / 10);
    }
  }

  /** Two-digit numbers print as exactly two characters. */
  lemma NatToStringTwoDigits(n: nat)
    requires 10 <= n < 100
    ensures |NatToString(n)| == 2
    ensures NatToString(n) == [DigitChar(n / 10), DigitChar(n % 10)]
  {
  }

  /** `String(i)` for an integer. */
  function IntToString(i: int): (s: string)
    ensures 1 <= |s|
    ensures i >= 0 ==> s == NatToString(i)
    ensures i < 0 ==> s == "-" + NatToString(-i)
  {
    if i < 0 then "-" + NatToString(-i) else NatToString(i)
  }

  /** A number in decimal, with a leading zero below ten. */
  function ZeroPad(n: int): string {
    (if n < 10 then "0" else "") + IntToString(n)
  }

  /** Numbers in 0..99 pad to exactly two digits that read back as the number. */
  lemma ZeroPadTwoDigits(n: int)
    requires 0 <= n < 100
    ensures |ZeroPad(n)| == 2 && AllDigits(ZeroPad(n)) && DigitsValue(ZeroPad(n)) == n
  {
    DigitsValueOfNatToString(n);
    var s := ZeroPad(n);
    if n < 10 {
      assert s[..1] == "0";
    }
  }

  /** `Array.prototype.indexOf` / `String.prototype.indexOf` with one element: -1 when absent. */
  function IndexOf<T(==)>(s: seq<T>, x: T): (r: int)
    ensures -1 <= r < |s|
    ensures r == -1 <==> x !in s
    ensures 0 <= r ==> s[r] == x && x !in s[..r]
  {
    if |s| == 0 then -1
    else if s[0] == x then 0
    else
      var k := IndexOf(s[1..], x);
      assert s[1..][..if k < 0 then 0 else k] == s[1..if k < 0 then 1 else k + 1];
      if k < 0 then -1 else k + 1
  }

  /** `lastIndexOf` with one element: -1 when absent. */
  function LastIndexOf<T(==)>(s: seq<T>, x: T): (r: int)
    ensures -1 <= r < |s|
    ensures r == -1 <==> x !in s
    ensures 0 <= r ==> s[r] == x && forall j :: r < j < |s| ==> s[j] != x
  {
    if |s| == 0 then -1
    else if s[|s| - 1] == x then |s| - 1
    else
      var k := LastIndexOf(s[..|s| - 1], x);
      assert k < 0 ==> s == s[..|s| - 1] + [s[|s| - 1]];
      k
  }

  /** `Array.prototype.remove` of the Closure library: drop the first occurrence, if any. */
  function RemoveFirst<T(==)>(s: seq<T>, x: T): (r: seq<T>)
    ensures x !in s ==> r == s
    ensures x in s ==> r == s[..IndexOf(s, x)] + s[IndexOf(s, x) + 1..]
  {
    var k := IndexOf(s, x);
    if k < 0 then s else s[..k] + s[k + 1..]
  }

  /** `String.prototype.split` with a one-character separator. */
  function Split(s: string, sep: char): (parts: seq<string>)
    ensures 1 <= |parts|
    decreases |s|
  {
    var k := IndexOf(s, sep);
    if k < 0 then [s] else [s[..k]] + Split(s[k + 1..], sep)
  }

  /** No piece of a split contains the separator. */
  lemma {:induction false} SplitPartsLackSeparator(s: string, sep: char)
    ensures forall i :: 0 <= i < |Split(s, sep)| ==> sep !in Split(s, sep)[i]
    decreases |s|
  {
    var k := IndexOf(s, sep);
    if k >= 0 {
      SplitPartsLackSeparator(s[k + 1..], sep);
    }
  }

  /** `Array.prototype.join` with a one-character separator. */
  function Join(parts: seq<string>, sep: char): string {
    if |parts| == 0 then ""
    else if |parts| == 1 then parts[0]
    else parts[0] + [sep] + Join(parts[1..], sep)
  }

  /** Joining a list with a head: the head, the separator, then the rest joined. */
  lemma JoinCons(x: string, rest: seq<string>, sep: char)
    requires |rest| >= 1
    ensures Join([x] + rest, sep) == x + [sep] + Join(rest, sep)
  {
    assert ([x] + rest)[0] == x && ([x] + rest)[1..] == rest;
  }

  /** Joining the pieces of a split gives back the original string. */
  lemma {:induction false} JoinSplit(s: string, sep: char)
    ensures Join(Split(s, sep), sep) == s
    decreases |s|
  {
    var k := IndexOf(s, sep);
    if k >= 0 {
      var rest := Split(s[k + 1..], sep);
      calc {
        Join(Split(s, sep), sep);
        { assert Split(s, sep) == [s[..k]] + rest; }
        Join([s[..k]] + rest, sep);
        { JoinCons(s[..k], rest, sep); }
        s[..k] + [sep] + Join(rest, sep);
        { JoinSplit(s[k + 1..], sep); }
        s[..k] + [sep] + s[k + 1..];
        { assert s == s[..k] + [s[k]] + s[k + 1..]; }
        s;
      }
    }
  }

  // Sequences without repeats.

  ghost predicate Distinct<T>(s: seq<T>) {
    forall i, j :: 0 <= i < j < |s| ==> s[i] != s[j]
  }

  /** An element at two positions occurs at least twice. */
  lemma TwoPositions<T>(s: seq<T>, i: int, j: int)
    requires 0 <= i < j < |s| && s[i] == s[j]
    ensures multiset(s)[s[i]] >= 2
  {
    assert s == s[..j] + [s[j]] + s[j + 1..];
    assert s[..j][i] == s[i];
    assert s[i] in multiset(s[..j]);
  }

  lemma {:induction false} DistinctCounts<T>(s: seq<T>, x: T)
    requires Distinct(s)
    ensures multiset(s)[x] <= 1
  {
    if s != [] {
      var init := s[..|s| - 1];
      DistinctCounts(init, x);
      assert s == init + [s[|s| - 1]];
      assert s[|s| - 1] !in init;
    }
  }

  /** A permutation of a sequence without repeats has none. */
  lemma DistinctPermutation<T>(a: seq<T>, b: seq<T>)
    requires Distinct(a) && multiset(a) == multiset(b)
    ensures Distinct(b)
  {
    forall i, j | 0 <= i < j < |b| ensures b[i] != b[j] {
      if b[i] == b[j] {
        TwoPositions(b, i, j);
        DistinctCounts(a, b[i]);
      }
    }
  }

  // The order of a `for ... in` loop over an object's own keys.

  /** A canonical array index: decimal digits, no leading zero, below 2^32 - 1. */
  predicate ArrayIndex(s: string) {
    1 <= |s| && AllDigits(s) && (s[0] == '0' ==> |s| == 1) && DigitsValue(s) < 0xFFFF_FFFF
  }

  /** The numeric value of an array-index key (0 for any other key). */
  function IndexKey(s: string): real {
    if ArrayIndex(s) then DigitsValue(s) as real else 0.0
  }

  /** The keys that are array indices (`index`), or that are not (`!index`), in their order. */
  function KeysWhere(keys: seq<string>, index: bool): (r: seq<string>)
    ensures forall k :: k in r <==> k in keys && ArrayIndex(k) == index
  {
    if keys == [] then []
    else
      var last := keys[|keys| - 1];
      assert keys == keys[..|keys| - 1] + [last];
      KeysWhere(keys[..|keys| - 1], index) + if ArrayIndex(last) == index then [last] else []
  }

  /**
   * The order in which `for ... in` visits the own keys of an object whose keys were
   * created in the order `keys`: the array indices first, in ascending numeric order,
   * then the other keys in creation order.
   */
  function ForInOrder(keys: seq<string>): (r: seq<string>)
    ensures forall k :: k in r <==> k in keys
  {
    var indices := KeysWhere(keys, true);
    var sorted := SortByKey(indices, IndexKey);
    assert forall k :: k in sorted <==> k in indices by {
      forall k ensures k in sorted <==> k in indices {
        SortByKeyMembers(indices, IndexKey, k);
      }
    }
    sorted + KeysWhere(keys, false)
  }

  lemma {:induction false} KeysWhereDistinct(keys: seq<string>, index: bool)
    requires Distinct(keys)
    ensures Distinct(KeysWhere(keys, index))
  {
    if keys != [] {
      var init := keys[..|keys| - 1];
      var last := keys[|keys| - 1];
      KeysWhereDistinct(init, index);
      assert last !in init;
    }
  }

  /** Decimal digits without a leading zero are what `String` prints for their value. */
  lemma {:induction false} CanonicalDigits(s: string)
    requires 1 <= |s| && AllDigits(s) && (s[0] == '0' ==> |s| == 1)
    ensures NatToString(DigitsValue(s)) == s
    decreases |s|
  {
    var init := s[..|s| - 1];
    var d := DigitValue(s[|s| - 1]);
    if |s| > 1 {
      CanonicalDigits(init);
      var v := DigitsValue(init);
      assert v != 0;
      var n := 10 * v + d;
      assert n / 10 == v && n % 10 == d;
      assert s == init + [s[|s| - 1]];
    }
  }

  /** Two array-index keys with the same value are the same key. */
  lemma ArrayIndexInjective(s: string, t: string)
    requires ArrayIndex(s) && ArrayIndex(t) && IndexKey(s) == IndexKey(t)
    ensures s == t
  {
    CanonicalDigits(s);
    CanonicalDigits(t);
  }

  /** The loop visits the array indices first and then the other keys. */
  lemma ForInIndicesFirst(keys: seq<string>)
    ensures var r := ForInOrder(keys); var n := |KeysWhere(keys, true)|;
      (forall i :: 0 <= i < |r| ==> (ArrayIndex(r[i]) <==> i < n))
      && r[n..] == KeysWhere(keys, false)
  {
    var a := KeysWhere(keys, true);
    var sa := SortByKey(a, IndexKey);
    var r := ForInOrder(keys);
    forall i | 0 <= i < |a| ensures ArrayIndex(r[i]) {
      SortByKeyMembers(a, IndexKey, sa[i]);
      assert r[i] == sa[i];
    }
    assert r[|a|..] == KeysWhere(keys, false);
    forall i | |a| <= i < |r| ensures !ArrayIndex(r[i]) {
      assert r[i] in r[|a|..];
    }
  }

  /** The loop visits each key once. */
  lemma ForInOrderDistinct(keys: seq<string>)
    requires Distinct(keys)
    ensures Distinct(ForInOrder(keys))
  {
    var a := KeysWhere(keys, true);
    var b := KeysWhere(keys, false);
    var sa := SortByKey(a, IndexKey);
    var r := ForInOrder(keys);
    KeysWhereDistinct(keys, true);
    KeysWhereDistinct(keys, false);
    DistinctPermutation(a, sa);
    ForInIndicesFirst(keys);
    forall i, j | 0 <= i < j < |r| ensures r[i] != r[j] {
      if j < |a| {
        assert r[i] == sa[i] && r[j] == sa[j];
      } else if i >= |a| {
        assert r[i] == b[i - |a|] && r[j] == b[j - |a|];
      }
    }
  }

  /** The array indices are visited in strictly ascending numeric order. */
  lemma ForInIndicesAscending(keys: seq<string>)
    requires Distinct(keys)
    ensures var r := ForInOrder(keys);
      forall i, j :: 0 <= i < j < |KeysWhere(keys, true)| ==> IndexKey(r[i]) < IndexKey(r[j])
  {
    var a := KeysWhere(keys, true);
    var sa := SortByKey(a, IndexKey);
    var r := ForInOrder(keys);
    ForInOrderDistinct(keys);
    ForInIndicesFirst(keys);
    forall i, j | 0 <= i < j < |a| ensures IndexKey(r[i]) < IndexKey(r[j]) {
      assert r[i] == sa[i] && r[j] == sa[j];
      if IndexKey(r[i]) == IndexKey(r[j]) {
        ArrayIndexInjective(r[i], r[j]);
      }
    }
  }
}
