/** The array operations every store and page of the site is built from,
    stated once over sequences: `findIndex`, `find`, "replace the element at
    the found index", `filter`, the "filter, then compare lengths" delete and
    `Array.from(new Set(xs))`. Records are compared by a key projection
    (`key`), the way the source compares `x.id === id` or `c.key === key`. */
module Collection {
  import opened Wrappers

  /** `s.findIndex(x => key(x) === k)`, with `None` for `-1`. */
  function IndexOf<T, K(==)>(s: seq<T>, key: T -> K, k: K): (r: Option<nat>)
    ensures r.Some? ==> r.value < |s| && key(s[r.value]) == k
    ensures r.Some? ==> forall j :: 0 <= j < r.value ==> key(s[j]) != k
    ensures r.None? <==> forall j :: 0 <= j < |s| ==> key(s[j]) != k
    decreases |s|
  {
    if |s| == 0 then None
    else if key(s[0]) == k then Some(0)
    else
      match IndexOf(s[1..], key, k)
      case None => None
      case Some(i) => Some(i + 1)
  }

  predicate HasKey<T, K(==)>(s: seq<T>, key: T -> K, k: K) {
    exists j :: 0 <= j < |s| && key(s[j]) == k
  }

  /** `s.find(x => key(x) === k)`: the first element with key `k`. */
  function Find<T, K(==)>(s: seq<T>, key: T -> K, k: K): (r: Option<T>)
    ensures r.Some? <==> HasKey(s, key, k)
    ensures r.Some? ==> exists i :: 0 <= i < |s| && s[i] == r.value && key(s[i]) == k
                                    && forall j :: 0 <= j < i ==> key(s[j]) != k
  {
    match IndexOf(s, key, k)
    case None => None
    case Some(i) => Some(s[i])
  }

  /** The first element with key `k` is replaced by `f` of itself; with no
      such element the sequence is returned as it is. This is the
      `i = findIndex(...); if (i >= 0) s[i] = f(s[i])` idiom. */
  function UpdateFirst<T, K(==)>(s: seq<T>, key: T -> K, k: K, f: T -> T): (r: seq<T>)
    ensures |r| == |s|
    ensures IndexOf(s, key, k).None? ==> r == s
    ensures IndexOf(s, key, k).Some? ==>
              var i := IndexOf(s, key, k).value; ReplacedAt(s, r, i, f(s[i]))
    decreases |s|
  {
    if |s| == 0 then s
    else if key(s[0]) == k then [f(s[0])] + s[1..]
    else [s[0]] + UpdateFirst(s[1..], key, k, f)
  }

  /** `r` is `s` with position `i` holding `x` and every other position as
      it was. */
  ghost predicate ReplacedAt<T>(s: seq<T>, r: seq<T>, i: int, x: T) {
    && |r| == |s| && 0 <= i < |s| && r[i] == x
    && forall j :: 0 <= j < |s| && j != i ==> r[j] == s[j]
  }

  /** `s.filter(p)`: exactly the elements satisfying `p`, each as often as
      in `s`. */
  function Filter<T(==,!new)>(s: seq<T>, p: T -> bool): (r: seq<T>)
    ensures |r| <= |s|
    ensures forall j :: 0 <= j < |r| ==> p(r[j])
    ensures forall x :: x in r <==> x in s && p(x)
    ensures forall x :: p(x) ==> multiset(r)[x] == multiset(s)[x]
    decreases |s|
  {
    if |s| == 0 then []
    else
      var rest := Filter(s[1..], p);
      assert s == [s[0]] + s[1..];
      if p(s[0]) then [s[0]] + rest else rest
  }

  /** `a` is `b` with some elements deleted, the rest kept in order. */
  predicate IsSubsequence<T(==,!new)>(a: seq<T>, b: seq<T>)
    decreases |b|
  {
    if |a| == 0 then true
    else if |b| == 0 then false
    else (a[0] == b[0] && IsSubsequence(a[1..], b[1..])) || IsSubsequence(a, b[1..])
  }

  lemma {:induction false} FilterIsSubsequence<T(!new)>(s: seq<T>, p: T -> bool)
    ensures IsSubsequence(Filter(s, p), s)
    decreases |s|
  {
    if |s| > 0 {
      FilterIsSubsequence(s[1..], p);
      var r := Filter(s, p);
      if p(s[0]) {
        assert r[0] == s[0] && r[1..] == Filter(s[1..], p);
      }
    }
  }

  /** A filter that keeps every element is the identity. */
  lemma {:induction false} FilterKeepsAll<T(!new)>(s: seq<T>, p: T -> bool)
    requires forall j :: 0 <= j < |s| ==> p(s[j])
    ensures Filter(s, p) == s
    decreases |s|
  {
    if |s| > 0 {
      FilterKeepsAll(s[1..], p);
      assert s == [s[0]] + s[1..];
    }
  }

  /** A filter removes something exactly when some element fails `p`. */
  lemma {:induction false} FilterShrinksIff<T(!new)>(s: seq<T>, p: T -> bool)
    ensures |Filter(s, p)| < |s| <==> exists j :: 0 <= j < |s| && !p(s[j])
    decreases |s|
  {
    if |s| > 0 {
      FilterShrinksIff(s[1..], p);
      if exists j :: 0 <= j < |s[1..]| && !p(s[1..][j]) {
        var j :| 0 <= j < |s[1..]| && !p(s[1..][j]);
        assert !p(s[j + 1]);
      }
      if exists j :: 0 <= j < |s| && !p(s[j]) {
        var j :| 0 <= j < |s| && !p(s[j]);
        if j > 0 { assert !p(s[1..][j - 1]); }
      }
    }
  }

  /** The site's delete: `f = s.filter(x => key(x) !== k)`; the store is
      replaced by `f` and `true` returned only when `f` is shorter. */
  function DeleteAll<T(==,!new), K(==)>(s: seq<T>, key: T -> K, k: K): (r: (seq<T>, bool))
    ensures r.1 <==> HasKey(s, key, k)
    ensures !r.1 ==> r.0 == s
    ensures RemovedAll(s, r.0, key, k)
  {
    var f := Filter(s, KeyIsNot(key, k));
    FilterShrinksIff(s, KeyIsNot(key, k));
    FilterIsSubsequence(s, KeyIsNot(key, k));
    if |f| != |s| then (f, true)
    else
      FilterKeepsAll(s, KeyIsNot(key, k));
      (s, false)
  }

  /** The filter condition of the delete: `x => key(x) !== k`. */
  function KeyIsNot<T, K(==)>(key: T -> K, k: K): T -> bool {
    x => key(x) != k
  }

  /** Deleting the key of an element just appended, when no earlier element
      had it, gives back the sequence before the append. */
  lemma DeleteAllAfterAppend<T(!new), K>(s: seq<T>, x: T, key: T -> K, k: K)
    requires !HasKey(s, key, k) && key(x) == k
    ensures DeleteAll(s + [x], key, k) == (s, true)
  {
    var p := KeyIsNot(key, k);
    assert !p(x);
    FilterSnoc(s, x, p);
    forall j | 0 <= j < |s| ensures p(s[j]) {
      assert key(s[j]) != k;
    }
    FilterKeepsAll(s, p);
    assert Filter(s + [x], p) == s;
    assert HasKey(s + [x], key, k) by {
      assert key((s + [x])[|s|]) == k;
    }
  }

  /** `r` is `s` without the elements whose key is `k`: every other element
      stays as often as it occurs in `s`, and the order is kept. */
  ghost predicate RemovedAll<T(!new), K>(s: seq<T>, r: seq<T>, key: T -> K, k: K) {
    && (forall x :: x in r <==> x in s && key(x) != k)
    && (forall x :: key(x) != k ==> multiset(r)[x] == multiset(s)[x])
    && IsSubsequence(r, s)
  }

  /** Filtering out the key `k` removes exactly the elements with that key. */
  lemma FilterRemovesAll<T(!new), K>(s: seq<T>, key: T -> K, k: K)
    ensures RemovedAll(s, Filter(s, KeyIsNot(key, k)), key, k)
  {
    FilterIsSubsequence(s, KeyIsNot(key, k));
  }

  /** Index of the first occurrence of `x` in `s`. */
  function FirstIndex<T(==,!new)>(s: seq<T>, x: T): (r: nat)
    requires x in s
    ensures r < |s| && s[r] == x
    ensures forall j :: 0 <= j < r ==> s[j] != x
    decreases |s|
  {
    if s[0] == x then 0 else 1 + FirstIndex(s[1..], x)
  }

  lemma FirstIndexOfPrefix<T(!new)>(s: seq<T>, n: nat, x: T)
    requires n <= |s| && x in s[..n]
    ensures FirstIndex(s, x) == FirstIndex(s[..n], x)
  {
    var i := FirstIndex(s[..n], x);
    var j := FirstIndex(s, x);
    assert s[i] == x;
    forall m | 0 <= m < i ensures s[m] != x {
      assert s[m] == s[..n][m];
    }
  }

  /** `Array.from(new Set(s))`: every element of `s` once, in the order of
      first appearance. */
  function Distinct<T(==,!new)>(s: seq<T>): (r: seq<T>)
    ensures forall x :: x in r <==> x in s
    ensures forall i, j :: 0 <= i < j < |r| ==> r[i] != r[j]
    ensures forall i, j :: 0 <= i < j < |r| ==> FirstIndex(s, r[i]) < FirstIndex(s, r[j])
    decreases |s|
  {
    if |s| == 0 then []
    else
      var init := s[..|s| - 1];
      var last := s[|s| - 1];
      var d := Distinct(init);
      assert s == init + [last];
      forall y | y in d ensures FirstIndex(s, y) == FirstIndex(init, y) {
        FirstIndexOfPrefix(s, |s| - 1, y);
      }
      if last in d then d
      else
        assert FirstIndex(s, last) == |s| - 1;
        d + [last]
  }

  /** A prefix is a subsequence. */
  lemma {:induction false} PrefixIsSubsequence<T(!new)>(s: seq<T>, n: nat)
    requires n <= |s|
    ensures IsSubsequence(s[..n], s)
    decreases |s|
  {
    if n > 0 {
      PrefixIsSubsequence(s[1..], n - 1);
      assert s[..n][1..] == s[1..][..n - 1];
    }
  }

  /** Being a subsequence is transitive. */
  lemma {:induction false} SubsequenceTrans<T(!new)>(a: seq<T>, b: seq<T>, c: seq<T>)
    requires IsSubsequence(a, b) && IsSubsequence(b, c)
    ensures IsSubsequence(a, c)
    decreases |c|
  {
    if |a| > 0 {
      if b[0] == c[0] && IsSubsequence(b[1..], c[1..]) {
        if a[0] == b[0] && IsSubsequence(a[1..], b[1..]) {
          SubsequenceTrans(a[1..], b[1..], c[1..]);
        } else {
          SubsequenceTrans(a, b[1..], c[1..]);
        }
      } else {
        SubsequenceTrans(a, b, c[1..]);
      }
    }
  }

  /** Filtering distributes over appending one element. */
  lemma {:induction false} FilterSnoc<T(!new)>(s: seq<T>, x: T, p: T -> bool)
    ensures Filter(s + [x], p) == Filter(s, p) + (if p(x) then [x] else [])
    decreases |s|
  {
    if |s| == 0 {
      assert s + [x] == [x];
      assert [x][1..] == [];
    } else {
      assert (s + [x])[0] == s[0];
      assert (s + [x])[1..] == s[1..] + [x];
      FilterSnoc(s[1..], x, p);
    }
  }

  /** The number of elements satisfying `p`. */
  function Count<T>(s: seq<T>, p: T -> bool): nat
    decreases |s|
  {
    if |s| == 0 then 0 else (if p(s[0]) then 1 else 0) + Count(s[1..], p)
  }

  /** `s.filter(p).length` counts the elements satisfying `p`. */
  lemma {:induction false} FilterLengthIsCount<T(!new)>(s: seq<T>, p: T -> bool)
    ensures |Filter(s, p)| == Count(s, p)
    decreases |s|
  {
    if |s| > 0 {
      FilterLengthIsCount(s[1..], p);
    }
  }

  /** `s.map(tag)`. */
  function Labels<T, L(==,!new)>(s: seq<T>, tag: T -> L): (r: seq<L>)
    ensures |r| == |s| && forall i :: 0 <= i < |s| ==> r[i] == tag(s[i])
    ensures forall c :: c in r <==> exists i :: 0 <= i < |s| && tag(s[i]) == c
  {
    var r := seq(|s|, i requires 0 <= i < |s| => tag(s[i]));
    forall c ensures c in r <==> exists i :: 0 <= i < |s| && tag(s[i]) == c {
      if c in r {
        var i :| 0 <= i < |r| && r[i] == c;
        assert tag(s[i]) == c;
      }
      if exists i :: 0 <= i < |s| && tag(s[i]) == c {
        var i :| 0 <= i < |s| && tag(s[i]) == c;
        assert r[i] == c;
      }
    }
    r
  }

  /** The options of a category selector, `[wildcard, ...Array.from(new
      Set(s.map(tag)))]`: the wildcard first, then every label once, in
      order of first appearance. */
  function Selector<T, L(==,!new)>(wildcard: L, s: seq<T>, tag: T -> L): (r: seq<L>)
    ensures |r| >= 1 && r[0] == wildcard
    ensures forall c :: c in r[1..] <==> exists i :: 0 <= i < |s| && tag(s[i]) == c
    ensures forall i, j :: 1 <= i < j < |r| ==> r[i] != r[j]
    ensures forall i, j :: 1 <= i < j < |r| ==>
              r[i] in Labels(s, tag) && r[j] in Labels(s, tag)
              && FirstIndex(Labels(s, tag), r[i]) < FirstIndex(Labels(s, tag), r[j])
  {
    var d := Distinct(Labels(s, tag));
    assert ([wildcard] + d)[1..] == d;
    [wildcard] + d
  }

  /** `Filter([x] + s, p)` unfolded once. */
  lemma FilterCons<T(!new)>(x: T, s: seq<T>, p: T -> bool)
    ensures Filter([x] + s, p) == (if p(x) then [x] else []) + Filter(s, p)
  {
    assert ([x] + s)[0] == x;
    assert ([x] + s)[1..] == s;
  }

  /** Two filters can be applied in either order. */
  lemma {:induction false} FilterCommutes<T(!new)>(s: seq<T>, p: T -> bool, q: T -> bool)
    ensures Filter(Filter(s, p), q) == Filter(Filter(s, q), p)
    decreases |s|
  {
    if |s| > 0 {
      var x, t := s[0], s[1..];
      assert s == [x] + t;
      FilterCommutes(t, p, q);
      FilterCons(x, t, p);
      FilterCons(x, t, q);
      if p(x) { FilterCons(x, Filter(t, p), q); }
      if q(x) { FilterCons(x, Filter(t, q), p); }
    }
  }
}
