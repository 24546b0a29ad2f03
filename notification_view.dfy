/**
 * `gva.views.NotificationView.getParameterByName`: the value of one query
 * parameter of the page's address.
 *
 * The source builds a regular expression for a `?` or `&`, then the name,
 * then `=` and a run of characters other than `&` and `#`, after escaping
 * the first `[` and the first `]` of the name, and runs it on
 * `window.location.href`. The model reads that pattern as literal text
 * when every regular-expression metacharacter left in it is escaped, which
 * is the case for every name the notification view asks for. The address
 * and `decodeURIComponent` are parameters; `decode` gives `None` where
 * `decodeURIComponent` throws.
 */
module NotificationView {
  import opened JsRuntime

  /** The first `c` of `s` replaced by `t`, nothing else changed. */
  function ReplaceFirst(s: string, c: char, t: string): string
    decreases |s|
  {
    if s == [] then s
    else if s[0] == c then t + s[1..]
    else [s[0]] + ReplaceFirst(s[1..], c, t)
  }

  /** Only the first `c` is replaced, by `t`; without a `c` the string is unchanged. */
  lemma {:induction false} ReplaceFirstSplices(s: string, c: char, t: string)
    ensures c !in s ==> ReplaceFirst(s, c, t) == s
    ensures c in s ==> ReplaceFirst(s, c, t) == s[..IndexOf(s, c)] + t + s[IndexOf(s, c) + 1..]
    decreases |s|
  {
    if s != [] && s[0] != c {
      var r := s[1..];
      ReplaceFirstSplices(r, c, t);
      assert s == [s[0]] + r;
      if c in s {
        var k := IndexOf(r, c);
        assert IndexOf(s, c) == k + 1;
        assert s[..k + 1] == [s[0]] + r[..k];
        assert s[k + 2..] == r[k + 1..];
      }
    }
  }


  /** The name with its first `[` and then its first `]` escaped by a backslash. */
  function EscapeName(name: string): string {
    ReplaceFirst(ReplaceFirst(name, '[', "\\["), ']', "\\]")
  }

  /** The characters a regular expression does not take literally. */
  predicate IsMeta(c: char) {
    c == '\\' || c == '^' || c == '$' || c == '.' || c == '|' || c == '?' || c == '*'
    || c == '+' || c == '(' || c == ')' || c == '[' || c == ']' || c == '{' || c == '}'
  }

  /**
   * The text a regular-expression source matches when it is literal: every
   * metacharacter in it is escaped by a backslash. `None` when it is not.
   */
  function LiteralText(pattern: string): Option<string>
    decreases |pattern|
  {
    if pattern == [] then Some("")
    else if pattern[0] == '\\' then
      if |pattern| >= 2 && IsMeta(pattern[1]) then
        match LiteralText(pattern[2..])
        case Some(rest) => Some([pattern[1]] + rest)
        case None => None
      else None
    else if IsMeta(pattern[0]) then None
    else
      match LiteralText(pattern[1..])
      case Some(rest) => Some([pattern[0]] + rest)
      case None => None
  }

  /** A plain character in front of a literal pattern. */
  lemma LiteralConsPlain(x: char, p: string, t: string)
    requires !IsMeta(x) && LiteralText(p) == Some(t)
    ensures LiteralText([x] + p) == Some([x] + t)
  {
    assert ([x] + p)[1..] == p;
  }

  /** An escaped metacharacter in front of a literal pattern. */
  lemma LiteralConsEscaped(x: char, p: string, t: string)
    requires IsMeta(x) && LiteralText(p) == Some(t)
    ensures LiteralText(['\\', x] + p) == Some([x] + t)
  {
    assert (['\\', x] + p)[2..] == p;
  }

  /**
   * The pattern `name` becomes when the first `[` is escaped (if `open`) and
   * the first `]` is escaped (if `close`), built front to back.
   */
  function Escaped(s: string, open: bool, close: bool): string
    decreases |s|
  {
    if s == [] then ""
    else if s[0] == '[' && open then "\\[" + Escaped(s[1..], false, close)
    else if s[0] == ']' && close then "\\]" + Escaped(s[1..], open, false)
    else [s[0]] + Escaped(s[1..], open, close)
  }

  /** Replacing in a sequence that starts with the character replaces its head. */
  lemma ReplaceFirstHead(c: char, s: string, t: string)
    ensures ReplaceFirst([c] + s, c, t) == t + s
  {
    assert ([c] + s)[0] == c && ([c] + s)[1..] == s;
  }

  /** Replacing in a sequence whose head is some other character leaves the head in front. */
  lemma ReplaceFirstCons(x: char, s: string, c: char, t: string)
    requires x != c
    ensures ReplaceFirst([x] + s, c, t) == [x] + ReplaceFirst(s, c, t)
  {
    assert ([x] + s)[0] == x && ([x] + s)[1..] == s;
  }

  /** The two `replace` calls escape front to back. */
  lemma {:induction false} EscapeNameFrontToBack(s: string, open: bool, close: bool)
    ensures (var r1 := if open then ReplaceFirst(s, '[', "\\[") else s;
             if close then ReplaceFirst(r1, ']', "\\]") else r1) == Escaped(s, open, close)
    decreases |s|
  {
    if s != [] {
      var x, r := s[0], s[1..];
      assert s == [x] + r;
      if x == '[' && open {
        EscapeNameFrontToBack(r, false, close);
        ReplaceFirstHead('[', r, "\\[");
        if close {
          ReplaceFirstCons('[', r, ']', "\\]");
          ReplaceFirstCons('\\', ['['] + r, ']', "\\]");
          assert "\\[" + r == ['\\'] + (['['] + r);
          assert "\\[" + ReplaceFirst(r, ']', "\\]") == ['\\'] + (['['] + ReplaceFirst(r, ']', "\\]"));
        }
      } else if x == ']' && close {
        EscapeNameFrontToBack(r, open, false);
        if open {
          ReplaceFirstCons(']', r, '[', "\\[");
          ReplaceFirstHead(']', ReplaceFirst(r, '[', "\\["), "\\]");
        } else {
          ReplaceFirstHead(']', r, "\\]");
        }
      } else {
        EscapeNameFrontToBack(r, open, close);
        var r1 := if open then ReplaceFirst(r, '[', "\\[") else r;
        if open {
          ReplaceFirstCons(x, r, '[', "\\[");
        }
        if close {
          ReplaceFirstCons(x, r1, ']', "\\]");
        }
      }
    }
  }


  /**
   * `s` has no metacharacter but `[` and `]`, and no `[` unless `open`, no `]` unless
   * `close`, each at most once: once one is seen, its flag is cleared.
   */
  predicate PlainFrom(s: string, open: bool, close: bool)
    decreases |s|
  {
    s == []
    || if s[0] == '[' then open && PlainFrom(s[1..], false, close)
       else if s[0] == ']' then close && PlainFrom(s[1..], open, false)
       else !IsMeta(s[0]) && PlainFrom(s[1..], open, close)
  }

  /** A name whose only metacharacters are at most one `[` and at most one `]`. */
  predicate PlainName(name: string) {
    PlainFrom(name, true, true)
  }

  /** Escaping the brackets still to be escaped leaves a pattern that matches exactly `s`. */
  lemma {:induction false} EscapedIsLiteral(s: string, open: bool, close: bool)
    requires PlainFrom(s, open, close)
    ensures LiteralText(Escaped(s, open, close)) == Some(s)
    decreases |s|
  {
    if s != [] {
      var x, r := s[0], s[1..];
      assert s == [x] + r;
      if x == '[' {
        EscapedIsLiteral(r, false, close);
        LiteralConsEscaped('[', Escaped(r, false, close), r);
      } else if x == ']' {
        EscapedIsLiteral(r, open, false);
        LiteralConsEscaped(']', Escaped(r, open, false), r);
      } else {
        EscapedIsLiteral(r, open, close);
        LiteralConsPlain(x, Escaped(r, open, close), r);
      }
    }
  }


  /**
   * For a plain name, escaping the first `[` and the first `]` leaves a
   * pattern that matches exactly the name.
   */
  lemma EscapedPlainNameIsLiteral(name: string)
    requires PlainName(name)
    ensures LiteralText(EscapeName(name)) == Some(name)
  {
    EscapeNameFrontToBack(name, true, true);
    EscapedIsLiteral(name, true, true);
  }

  /** A `[` left once the first has been escaped stays a metacharacter: the pattern is not literal. */
  lemma {:induction false} UnescapedBracketNotLiteral(s: string, close: bool)
    requires '[' in s && '\\' !in s
    ensures LiteralText(Escaped(s, false, close)) == None
    decreases |s|
  {
    var x, r := s[0], s[1..];
    assert s == [x] + r;
    if x == ']' && close {
      UnescapedBracketNotLiteral(r, false);
      assert Escaped(s, false, close) == ['\\', ']'] + Escaped(r, false, false);
      assert (['\\', ']'] + Escaped(r, false, false))[2..] == Escaped(r, false, false);
    } else if x != '[' && !IsMeta(x) {
      UnescapedBracketNotLiteral(r, close);
      assert ([x] + Escaped(r, false, close))[1..] == Escaped(r, false, close);
    }
  }

  /** Only the first `[` is escaped: a name with two `[` does not give a literal pattern. */
  lemma {:induction false} SecondBracketStaysMeta(s: string, close: bool, i: int, j: int)
    requires 0 <= i < j < |s| && s[i] == '[' && s[j] == '[' && '\\' !in s
    ensures LiteralText(Escaped(s, true, close)) == None
    decreases |s|
  {
    var x, r := s[0], s[1..];
    assert s == [x] + r;
    if x == '[' {
      assert r[j - 1] == '[';
      UnescapedBracketNotLiteral(r, close);
      assert Escaped(s, true, close) == ['\\', '['] + Escaped(r, false, close);
      assert (['\\', '['] + Escaped(r, false, close))[2..] == Escaped(r, false, close);
    } else {
      assert i >= 1 && r[i - 1] == '[' && r[j - 1] == '[';
      if x == ']' && close {
        SecondBracketStaysMeta(r, false, i - 1, j - 1);
        assert Escaped(s, true, close) == ['\\', ']'] + Escaped(r, true, false);
        assert (['\\', ']'] + Escaped(r, true, false))[2..] == Escaped(r, true, false);
      } else if !IsMeta(x) {
        SecondBracketStaysMeta(r, close, i - 1, j - 1);
        assert ([x] + Escaped(r, true, close))[1..] == Escaped(r, true, close);
      }
    }
  }

  /** `getParameterByName('a[b][c]')` and the like: only the first `[` is escaped, the pattern keeps a character class. */
  lemma TwoOpenBrackets(name: string, i: int, j: int)
    requires 0 <= i < j < |name| && name[i] == '[' && name[j] == '[' && '\\' !in name
    ensures LiteralText(EscapeName(name)) == None
  {
    EscapeNameFrontToBack(name, true, true);
    SecondBracketStaysMeta(name, true, i, j);
  }

  // ---------------------------------------------------------------------
  // Matching the address
  // ---------------------------------------------------------------------

  /** `[\?&]` + key + `=` matches `href` at position `p`. */
  predicate MatchesAt(href: string, key: string, p: int) {
    0 <= p && p + |key| + 2 <= |href|
    && (href[p] == '?' || href[p] == '&')
    && href[p + 1..p + 1 + |key|] == key
    && href[p + 1 + |key|] == '='
  }

  /** The leftmost position at or after `from` where the pattern starts, as `exec` finds it. */
  function FirstMatch(href: string, key: string, from: nat): (r: Option<nat>)
    ensures r.Some? ==> from <= r.value && MatchesAt(href, key, r.value)
    ensures r.Some? ==> forall q :: from <= q < r.value ==> !MatchesAt(href, key, q)
    ensures r.None? ==> forall q :: from <= q ==> !MatchesAt(href, key, q)
    decreases |href| - from
  {
    if from + |key| + 2 > |href| then None
    else if MatchesAt(href, key, from) then Some(from)
    else FirstMatch(href, key, from + 1)
  }

  /** `([^&#]*)` from position `start`: the longest run without `&` and `#`. */
  function ValueRun(href: string, start: nat): (r: string)
    requires start <= |href|
    ensures start + |r| <= |href| && r == href[start..start + |r|]
    ensures '&' !in r && '#' !in r
    ensures start + |r| == |href| || href[start + |r|] == '&' || href[start + |r|] == '#'
    decreases |href| - start
  {
    if start == |href| || href[start] == '&' || href[start] == '#' then ""
    else [href[start]] + ValueRun(href, start + 1)
  }

  /** The run is the value when the value is followed by the end, an `&` or a `#`. */
  lemma {:induction false} ValueRunOf(href: string, start: nat, value: string)
    requires start + |value| <= |href| && href[start..start + |value|] == value
    requires '&' !in value && '#' !in value
    requires start + |value| == |href| || href[start + |value|] == '&' || href[start + |value|] == '#'
    ensures ValueRun(href, start) == value
    decreases |value|
  {
    if value != [] {
      assert href[start] == value[0];
      assert href[start + 1..start + 1 + |value[1..]|] == value[1..];
      ValueRunOf(href, start + 1, value[1..]);
      assert value == [value[0]] + value[1..];
    }
  }

  /** `.replace(/\+/g, ' ')`. */
  function PlusToSpace(s: string): (r: string)
    ensures |r| == |s| && '+' !in r
    ensures forall i :: 0 <= i < |s| ==> r[i] == if s[i] == '+' then ' ' else s[i]
  {
    seq(|s|, i requires 0 <= i < |s| => if s[i] == '+' then ' ' else s[i])
  }

  /**
   * `getParameterByName(name)` on the address `href`: `''` when the
   * parameter is missing, else the decoded value with `+` read as a space.
   * `None` where `decodeURIComponent` throws.
   */
  function GetParameterByName(href: string, name: string, decode: string -> Option<string>): Option<string>
    requires PlainName(name)
  {
    EscapedPlainNameIsLiteral(name);
    var key := LiteralText(EscapeName(name)).value;
    match FirstMatch(href, key, 0)
    case None => Some("")
    case Some(p) => decode(PlusToSpace(ValueRun(href, p + |key| + 2)))
  }

  /** A missing parameter gives the empty string. */
  lemma MissingParameter(href: string, name: string, decode: string -> Option<string>)
    requires PlainName(name)
    requires forall p :: !MatchesAt(href, name, p)
    ensures GetParameterByName(href, name, decode) == Some("")
  {
    EscapedPlainNameIsLiteral(name);
  }

  /**
   * A present parameter gives the decoded run after its first occurrence:
   * the run holds no `&` or `#` and stops at the end, an `&` or a `#`.
   */
  lemma PresentParameter(href: string, name: string, decode: string -> Option<string>, p: nat)
    requires PlainName(name)
    requires MatchesAt(href, name, p) && forall q :: 0 <= q < p ==> !MatchesAt(href, name, q)
    ensures GetParameterByName(href, name, decode) == decode(PlusToSpace(ValueRun(href, p + |name| + 2)))
  {
    EscapedPlainNameIsLiteral(name);
    var r := FirstMatch(href, name, 0);
    assert r == Some(p);
  }


  /**
   * Reading a parameter back: when `href` holds `?name=value` at `p`, after a part without
   * `?` and `&`, and the value runs to the end, an `&` or a `#`, the result is the value
   * with `+` read as a space, decoded.
   */
  lemma QueryRoundTrip(href: string, p: nat, name: string, value: string, decode: string -> Option<string>)
    requires PlainName(name)
    requires QueryAt(href, p, name, value)
    ensures GetParameterByName(href, name, decode) == decode(PlusToSpace(value))
  {
    QueryKeyAt(href, p, name, value);
    PresentParameter(href, name, decode, p);
  }

  /**
   * `href` holds `?name=value` at `p`, after a part without `?` and `&`, and the value
   * contains neither `&` nor `#` and runs to the end of `href`, an `&` or a `#`.
   */
  predicate QueryAt(href: string, p: nat, name: string, value: string) {
    var start := p + |name| + 2;
    start + |value| <= |href|
    && '?' !in href[..p] && '&' !in href[..p]
    && href[p] == '?' && href[p + 1..p + 1 + |name|] == name && href[p + 1 + |name|] == '='
    && href[start..start + |value|] == value && '&' !in value && '#' !in value
    && (start + |value| == |href| || href[start + |value|] == '&' || href[start + |value|] == '#')
  }

  /** `prefix?name=value` followed by nothing, an `&…` or a `#…` holds the parameter right after the prefix. */
  lemma QueryLayout(prefix: string, name: string, value: string, rest: string)
    requires '?' !in prefix && '&' !in prefix
    requires '&' !in value && '#' !in value
    requires rest == [] || rest[0] == '&' || rest[0] == '#'
    ensures QueryAt(prefix + "?" + name + "=" + value + rest, |prefix|, name, value)
  {
    var href := prefix + "?" + name + "=" + value + rest;
    var key := prefix + "?" + name + "=";
    var start := |key|;
    ConcatSplit(key, value + rest);
    ConcatSplit(value, rest);
    assert href == key + (value + rest);
    QueryKeyLayout(prefix, name, key);
    assert href[..start] == key && href[start..] == value + rest;
    assert href[..|prefix|] == key[..|prefix|];
    assert href[start..start + |value|] == href[start..][..|value|];
    assert start + |value| < |href| ==> href[start + |value|] == href[start..][|value|];
  }

  /** Where `?name=value` sits, the key first matches, and the value runs as far as it reaches. */
  lemma QueryKeyAt(href: string, p: nat, name: string, value: string)
    requires QueryAt(href, p, name, value)
    ensures MatchesAt(href, name, p) && forall q :: 0 <= q < p ==> !MatchesAt(href, name, q)
    ensures ValueRun(href, p + |name| + 2) == value
  {
    forall q | 0 <= q < p ensures !MatchesAt(href, name, q) {
      assert href[q] == href[..p][q];
    }
    ValueRunOf(href, p + |name| + 2, value);
  }

  /** Where the parts of `prefix?name=` lie. */
  lemma QueryKeyLayout(prefix: string, name: string, key: string)
    requires key == prefix + "?" + name + "="
    ensures |key| == |prefix| + |name| + 2
    ensures key[..|prefix|] == prefix && key[|prefix|] == '?'
    ensures key[|prefix| + 1..|prefix| + 1 + |name|] == name && key[|prefix| + 1 + |name|] == '='
  {
    ConcatSplit(prefix + "?" + name, "=");
    ConcatSplit(prefix + "?", name);
    ConcatSplit(prefix, "?");
  }

  /** The two halves of a concatenation. */
  lemma ConcatSplit(a: string, b: string)
    ensures (a + b)[..|a|] == a && (a + b)[|a|..] == b
  {
  }



}
