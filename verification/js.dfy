/** The pieces of JavaScript value semantics the site's rules depend on:
    truthiness fallbacks (`a || b`, `a ?? b`), `String.prototype.trim`,
    `startsWith` and `includes`. */
module Js {
  import opened Wrappers

  /** `s || fallback` on strings: only the empty string is falsy. */
  function Or(s: string, fallback: string): (r: string)
    ensures r == s || r == fallback
    ensures s != "" ==> r == s
    ensures s == "" ==> r == fallback
  {
    if s != "" then s else fallback
  }

  /** `o || fallback` where `o` may be `undefined`. */
  function OrOpt(o: Option<string>, fallback: string): (r: string)
    ensures o.Some? && o.value != "" ==> r == o.value
    ensures o.None? || o.value == "" ==> r == fallback
  {
    if o.Some? then Or(o.value, fallback) else fallback
  }

  /** `o || fallback` on an optional number: `undefined` and `0` are falsy
      (NaN, the other falsy number, is not modelled). */
  function OrNum(o: Option<int>, fallback: int): (r: int)
    ensures o.Some? && o.value != 0 ==> r == o.value
    ensures o.None? || o.value == 0 ==> r == fallback
  {
    if o.Some? && o.value != 0 then o.value else fallback
  }

  /** `s.startsWith(prefix)`. */
  predicate StartsWith(s: string, prefix: string) {
    prefix <= s
  }

  /** The characters `String.prototype.trim` removes: ECMAScript WhiteSpace
      (tab, VT, FF, space, NBSP, BOM and the Zs category) and LineTerminator. */
  predicate IsSpace(c: char) {
    || c == '\t' || c == '\n' || c == '\U{000B}' || c == '\U{000C}' || c == '\r'
    || c == ' ' || c == '\U{00A0}' || c == '\U{1680}'
    || ('\U{2000}' <= c <= '\U{200A}')
    || c == '\U{2028}' || c == '\U{2029}' || c == '\U{202F}' || c == '\U{205F}'
    || c == '\U{3000}' || c == '\U{FEFF}'
  }

  predicate AllSpace(s: string) {
    forall i :: 0 <= i < |s| ==> IsSpace(s[i])
  }

  function TrimStart(s: string): string
    decreases |s|
  {
    if |s| > 0 && IsSpace(s[0]) then TrimStart(s[1..]) else s
  }

  function TrimEnd(s: string): string
    decreases |s|
  {
    if |s| > 0 && IsSpace(s[|s| - 1]) then TrimEnd(s[..|s| - 1]) else s
  }

  /** `s.trim()`. */
  function Trim(s: string): string {
    TrimEnd(TrimStart(s))
  }

  lemma {:induction false} TrimStartEmpty(s: string)
    ensures TrimStart(s) == "" <==> AllSpace(s)
    ensures TrimStart(s) != "" ==> !IsSpace(TrimStart(s)[0])
    decreases |s|
  {
    if |s| > 0 && IsSpace(s[0]) {
      TrimStartEmpty(s[1..]);
      assert AllSpace(s) <==> AllSpace(s[1..]) by {
        if AllSpace(s[1..]) {
          forall i | 0 <= i < |s| ensures IsSpace(s[i]) {
            if i > 0 { assert s[i] == s[1..][i - 1]; }
          }
        }
      }
    }
  }

  lemma {:induction false} TrimEndEmpty(s: string)
    ensures TrimEnd(s) == "" <==> AllSpace(s)
    ensures TrimEnd(s) <= s
    decreases |s|
  {
    if |s| > 0 && IsSpace(s[|s| - 1]) {
      var t := s[..|s| - 1];
      TrimEndEmpty(t);
      assert AllSpace(s) <==> AllSpace(t) by {
        if AllSpace(t) {
          forall i | 0 <= i < |s| ensures IsSpace(s[i]) {
            if i < |s| - 1 { assert s[i] == t[i]; }
          }
        }
      }
    }
  }

  /** `!s.trim()` holds exactly when every character of `s` is white space. */
  lemma {:induction false} TrimEmptyIffAllSpace(s: string)
    ensures Trim(s) == "" <==> AllSpace(s)
  {
    var t := TrimStart(s);
    TrimStartEmpty(s);
    TrimEndEmpty(t);
    if t != "" {
      assert !AllSpace(t) by { assert !IsSpace(t[0]); }
    }
  }

  /** `s.includes(t)`: `t` occurs somewhere in `s`. */
  predicate Contains(s: string, t: string)
    decreases |s|
  {
    t <= s || (|s| > 0 && Contains(s[1..], t))
  }

  predicate OccursAt(s: string, t: string, i: int) {
    0 <= i && i + |t| <= |s| && s[i..i + |t|] == t
  }

  lemma {:induction false} ContainsHasOccurrence(s: string, t: string) returns (i: int)
    requires Contains(s, t)
    ensures OccursAt(s, t, i)
    decreases |s|
  {
    if t <= s {
      i := 0;
    } else {
      var j := ContainsHasOccurrence(s[1..], t);
      assert s[j + 1..j + 1 + |t|] == s[1..][j..j + |t|];
      i := j + 1;
    }
  }

  lemma {:induction false} OccurrenceIsContained(s: string, t: string, i: int)
    requires OccursAt(s, t, i)
    ensures Contains(s, t)
    decreases i
  {
    if i == 0 {
      assert s[..|t|] == t;
    } else {
      assert s[1..][i - 1..i - 1 + |t|] == s[i..i + |t|];
      OccurrenceIsContained(s[1..], t, i - 1);
    }
  }

  /** `Contains` agrees with the positional definition of a substring. */
  lemma ContainsIffOccurs(s: string, t: string)
    ensures Contains(s, t) <==> exists i :: OccursAt(s, t, i)
  {
    if Contains(s, t) {
      var i := ContainsHasOccurrence(s, t);
    }
    forall i | OccursAt(s, t, i) ensures Contains(s, t) {
      OccurrenceIsContained(s, t, i);
    }
  }

  /** `s.includes("")` always holds. */
  lemma ContainsEmpty(s: string)
    ensures Contains(s, "")
  {
  }
}
