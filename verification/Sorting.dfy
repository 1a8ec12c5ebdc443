/** Go's sort.SliceStable, as the insertion sort it agrees with on every strict weak order. */
module Sorting {
  /** Where a stable insertion puts `x`: after everything it is not less than. */
  function Insert<T>(less: (T, T) -> bool, xs: seq<T>, x: T): seq<T> {
    if xs == [] || !less(x, xs[|xs| - 1]) then xs + [x]
    else Insert(less, xs[..|xs| - 1], x) + [xs[|xs| - 1]]
  }

  function StableSort<T>(less: (T, T) -> bool, xs: seq<T>): seq<T> {
    if xs == [] then [] else Insert(less, StableSort(less, xs[..|xs| - 1]), xs[|xs| - 1])
  }

  /** No element is less than an earlier one. */
  ghost predicate Sorted<T>(less: (T, T) -> bool, xs: seq<T>) {
    forall i, j :: 0 <= i < j < |xs| ==> !less(xs[j], xs[i])
  }

  /** What makes "not less" a total preorder. */
  ghost predicate StrictWeak<T(!new)>(less: (T, T) -> bool) {
    && (forall x, y :: less(x, y) ==> !less(y, x))
    && (forall x, y, z :: !less(x, y) && !less(y, z) ==> !less(x, z))
  }

  lemma {:induction false} InsertMultiset<T>(less: (T, T) -> bool, xs: seq<T>, x: T)
    ensures multiset(Insert(less, xs, x)) == multiset(xs) + multiset{x}
  {
    if xs != [] && less(x, xs[|xs| - 1]) {
      InsertMultiset(less, xs[..|xs| - 1], x);
      assert xs == xs[..|xs| - 1] + [xs[|xs| - 1]];
    }
  }

  lemma {:induction false} SortMultiset<T>(less: (T, T) -> bool, xs: seq<T>)
    ensures multiset(StableSort(less, xs)) == multiset(xs)
    ensures |StableSort(less, xs)| == |xs|
  {
    if xs != [] {
      SortMultiset(less, xs[..|xs| - 1]);
      InsertMultiset(less, StableSort(less, xs[..|xs| - 1]), xs[|xs| - 1]);
      assert xs == xs[..|xs| - 1] + [xs[|xs| - 1]];
    }
    assert |StableSort(less, xs)| == |multiset(StableSort(less, xs))| == |multiset(xs)|;
  }

  lemma SortMembers<T>(less: (T, T) -> bool, xs: seq<T>)
    ensures forall x :: x in StableSort(less, xs) <==> x in xs
  {
    SortMultiset(less, xs);
    forall x ensures x in StableSort(less, xs) <==> x in xs {
      assert x in StableSort(less, xs) <==> x in multiset(StableSort(less, xs));
      assert x in xs <==> x in multiset(xs);
    }
  }

  lemma {:induction false} InsertSorted<T(!new)>(less: (T, T) -> bool, xs: seq<T>, x: T)
    requires StrictWeak(less) && Sorted(less, xs)
    ensures Sorted(less, Insert(less, xs, x))
  {
    if xs != [] && less(x, xs[|xs| - 1]) {
      var n := |xs| - 1;
      var init, last := xs[..n], xs[n];
      InsertSorted(less, init, x);
      InsertMultiset(less, init, x);
      var r := Insert(less, init, x);
      forall i | 0 <= i < |r| ensures !less(last, r[i]) {
        assert r[i] in multiset(r);
        assert r[i] in init || r[i] == x;
      }
    } else {
      forall i | 0 <= i < |xs| ensures !less(x, xs[i]) {
        if i < |xs| - 1 { assert !less(xs[|xs| - 1], xs[i]); }
      }
    }
  }

  lemma {:induction false} SortSorted<T(!new)>(less: (T, T) -> bool, xs: seq<T>)
    requires StrictWeak(less)
    ensures Sorted(less, StableSort(less, xs))
  {
    if xs != [] {
      SortSorted(less, xs[..|xs| - 1]);
      InsertSorted(less, StableSort(less, xs[..|xs| - 1]), xs[|xs| - 1]);
    }
  }

  /** The order `leq`, where it decides, is the one `less` sorts by. */
  ghost predicate Coarsens<T(!new)>(leq: (T, T) -> bool, less: (T, T) -> bool) {
    && (forall x, y, z :: leq(x, y) && leq(y, z) ==> leq(x, z))
    && (forall x, y :: if less(x, y) then leq(x, y) else leq(y, x))
  }

  ghost predicate Ascending<T>(leq: (T, T) -> bool, xs: seq<T>) {
    forall i, j :: 0 <= i < j < |xs| ==> leq(xs[i], xs[j])
  }

  lemma {:induction false} InsertAscending<T(!new)>(less: (T, T) -> bool, leq: (T, T) -> bool, xs: seq<T>, x: T)
    requires Coarsens(leq, less) && Ascending(leq, xs)
    ensures Ascending(leq, Insert(less, xs, x))
  {
    if xs != [] {
      var init, last := xs[..|xs| - 1], xs[|xs| - 1];
      if less(x, last) {
        InsertAscending(less, leq, init, x);
        InsertMultiset(less, init, x);
        var r := Insert(less, init, x);
        forall i | 0 <= i < |r| ensures leq(r[i], last) {
          assert r[i] in multiset(r);
          assert r[i] in init || r[i] == x;
        }
      } else {
        forall i | 0 <= i < |xs| ensures leq(xs[i], x) {
          assert leq(last, x) && (i < |xs| - 1 ==> leq(xs[i], last));
        }
      }
    }
  }

  /** Sorting by `less` sorts by every order that is coarser. */
  lemma {:induction false} SortAscending<T(!new)>(less: (T, T) -> bool, leq: (T, T) -> bool, xs: seq<T>)
    requires Coarsens(leq, less)
    ensures Ascending(leq, StableSort(less, xs))
  {
    if xs != [] {
      SortAscending(less, leq, xs[..|xs| - 1]);
      InsertAscending(less, leq, StableSort(less, xs[..|xs| - 1]), xs[|xs| - 1]);
    }
  }

  lemma InsertBehind<T>(less: (T, T) -> bool, xs: seq<T>, x: T)
    requires xs != [] ==> !less(x, xs[|xs| - 1])
    ensures Insert(less, xs, x) == xs + [x]
  {
  }

  /** A sorted list is left as it is. */
  lemma {:induction false} SortOfSorted<T>(less: (T, T) -> bool, xs: seq<T>)
    requires Sorted(less, xs)
    ensures StableSort(less, xs) == xs
  {
    if xs != [] {
      var n := |xs| - 1;
      SortOfSorted(less, xs[..n]);
      assert n > 0 ==> !less(xs[n], xs[..n][n - 1]);
      hide Sorted, Insert;
      InsertBehind(less, xs[..n], xs[n]);
      assert xs == xs[..n] + [xs[n]];
    }
  }

  ghost predicate Distinct<T, K>(key: T -> K, xs: seq<T>) {
    forall i, j :: 0 <= i < j < |xs| ==> key(xs[i]) != key(xs[j])
  }

  lemma {:induction false} InsertDistinct<T, K>(less: (T, T) -> bool, key: T -> K, xs: seq<T>, x: T)
    requires Distinct(key, xs) && forall i :: 0 <= i < |xs| ==> key(xs[i]) != key(x)
    ensures Distinct(key, Insert(less, xs, x))
  {
    if xs != [] && less(x, xs[|xs| - 1]) {
      var init, last := xs[..|xs| - 1], xs[|xs| - 1];
      InsertDistinct(less, key, init, x);
      InsertMultiset(less, init, x);
      var r := Insert(less, init, x);
      forall i | 0 <= i < |r| ensures key(r[i]) != key(last) {
        assert r[i] in multiset(r);
        assert r[i] in init || r[i] == x;
      }
    }
  }

  /** Sorting keeps keys distinct. */
  lemma {:induction false} SortDistinct<T, K>(less: (T, T) -> bool, key: T -> K, xs: seq<T>)
    requires Distinct(key, xs)
    ensures Distinct(key, StableSort(less, xs))
  {
    if xs != [] {
      var init := xs[..|xs| - 1];
      SortDistinct(less, key, init);
      SortMultiset(less, init);
      var r := StableSort(less, init);
      forall i | 0 <= i < |r| ensures key(r[i]) != key(xs[|xs| - 1]) {
        assert r[i] in multiset(r);
        assert r[i] in init;
      }
      InsertDistinct(less, key, r, xs[|xs| - 1]);
    }
  }

  /** What is less than everything goes to the front. */
  lemma {:induction false} InsertFront<T>(less: (T, T) -> bool, xs: seq<T>, x: T)
    requires forall i :: 0 <= i < |xs| ==> less(x, xs[i])
    ensures Insert(less, xs, x) == [x] + xs
  {
    if xs != [] {
      InsertFront(less, xs[..|xs| - 1], x);
      assert xs == xs[..|xs| - 1] + [xs[|xs| - 1]];
    }
  }

  function CountIf<T>(f: T -> bool, xs: seq<T>): nat {
    if xs == [] then 0
    else CountIf(f, xs[..|xs| - 1]) + (if f(xs[|xs| - 1]) then 1 else 0)
  }

  lemma {:induction false} CountIfInsert<T>(less: (T, T) -> bool, f: T -> bool, xs: seq<T>, x: T)
    ensures CountIf(f, Insert(less, xs, x)) == CountIf(f, xs) + (if f(x) then 1 else 0)
  {
    if xs == [] || !less(x, xs[|xs| - 1]) {
      assert (xs + [x])[..|xs|] == xs;
    } else {
      var init, last := xs[..|xs| - 1], xs[|xs| - 1];
      CountIfInsert(less, f, init, x);
      var r := Insert(less, init, x);
      assert (r + [last])[..|r|] == r;
    }
  }

  lemma {:induction false} CountIfSort<T>(less: (T, T) -> bool, f: T -> bool, xs: seq<T>)
    ensures CountIf(f, StableSort(less, xs)) == CountIf(f, xs)
  {
    if xs != [] {
      CountIfSort(less, f, xs[..|xs| - 1]);
      CountIfInsert(less, f, StableSort(less, xs[..|xs| - 1]), xs[|xs| - 1]);
    }
  }

  lemma {:induction false} CountIfConcat<T>(f: T -> bool, xs: seq<T>, ys: seq<T>)
    ensures CountIf(f, xs + ys) == CountIf(f, xs) + CountIf(f, ys)
    decreases |ys|
  {
    if ys == [] {
      assert xs + ys == xs;
    } else {
      var n := |ys| - 1;
      CountIfConcat(f, xs, ys[..n]);
      assert (xs + ys)[..|xs + ys| - 1] == xs + ys[..n];
    }
  }

  /** The positions, among the first `n`, of the elements that `f` holds of. */
  function Where<T>(f: T -> bool, xs: seq<T>, n: nat): set<nat>
    requires n <= |xs|
  {
    set i: nat | i < n && f(xs[i])
  }

  lemma {:induction false} CountIfIsWhere<T>(f: T -> bool, xs: seq<T>, n: nat)
    requires n <= |xs|
    ensures CountIf(f, xs[..n]) == |Where(f, xs, n)|
  {
    if n == 0 {
      assert Where(f, xs, n) == {} && xs[..n] == [];
    } else {
      CountIfIsWhere(f, xs, n - 1);
      assert xs[..n][..n - 1] == xs[..n - 1];
      assert Where(f, xs, n) == Where(f, xs, n - 1) + (if f(xs[n - 1]) then {n - 1} else {});
    }
  }

  // ----- Go's order on strings

  predicate LexLess(s: string, t: string) {
    t != "" && (s == "" || s[0] < t[0] || (s[0] == t[0] && LexLess(s[1..], t[1..])))
  }

  lemma {:induction false} LexTotal(s: string, t: string)
    ensures LexLess(s, t) ==> !LexLess(t, s)
    ensures !LexLess(s, t) && !LexLess(t, s) ==> s == t
    decreases |s|
  {
    if s != "" && t != "" && s[0] == t[0] {
      LexTotal(s[1..], t[1..]);
      assert s == [s[0]] + s[1..] && t == [t[0]] + t[1..];
    }
  }

  lemma {:induction false} LexTransitive(s: string, t: string, u: string)
    requires !LexLess(s, t) && !LexLess(t, u)
    ensures !LexLess(s, u)
    decreases |s|
  {
    if s != "" && t != "" && u != "" && s[0] == t[0] == u[0] {
      LexTransitive(s[1..], t[1..], u[1..]);
    }
  }

  /** A proper prefix comes first. */
  lemma {:induction false} PrefixLess(s: string, t: string)
    requires s <= t && |s| < |t|
    ensures LexLess(s, t)
    decreases |s|
  {
    if s != "" {
      assert s[0] == t[0];
      PrefixLess(s[1..], t[1..]);
    }
  }

  /** The first `k` characters agree, and then `s` ends or has the smaller one. */
  predicate DiffersAt(s: string, t: string, k: nat) {
    k <= |s| && k < |t| && s[..k] == t[..k] && (k == |s| || s[k] < t[k])
  }

  /** One text comes before another when it is smaller where they first differ, or ends there. */
  lemma {:induction false} LexIff(s: string, t: string)
    ensures LexLess(s, t) <==> exists k: nat :: DiffersAt(s, t, k)
    decreases |s|
  {
    if s != "" && t != "" && s[0] == t[0] {
      LexIff(s[1..], t[1..]);
      if k: nat :| DiffersAt(s[1..], t[1..], k) {
        assert s[..k + 1] == [s[0]] + s[1..][..k] && t[..k + 1] == [t[0]] + t[1..][..k];
        assert DiffersAt(s, t, k + 1);
      }
      if k: nat :| DiffersAt(s, t, k) {
        assert k > 0;
        assert s[1..][..k - 1] == s[..k][1..] && t[1..][..k - 1] == t[..k][1..];
        assert DiffersAt(s[1..], t[1..], k - 1);
      }
    } else if LexLess(s, t) {
      assert DiffersAt(s, t, 0);
    } else if s != "" && t != "" {
      forall k: nat ensures !DiffersAt(s, t, k) {}
    }
  }

  lemma LexOrder()
    ensures StrictWeak(LexLess)
  {
    forall s, t | LexLess(s, t) ensures !LexLess(t, s) {
      LexTotal(s, t);
    }
    forall s, t, u | !LexLess(s, t) && !LexLess(t, u) ensures !LexLess(s, u) {
      LexTransitive(s, t, u);
    }
  }

  function Same(s: string): string { s }

  /** The nonempty texts, each where it stands first. */
  function Uniques(texts: seq<string>): seq<string> {
    if texts == [] then []
    else
      var n := |texts| - 1;
      var before := Uniques(texts[..n]);
      if texts[n] == "" || texts[n] in before then before else before + [texts[n]]
  }

  function SortUnique(texts: seq<string>): seq<string> {
    StableSort(LexLess, Uniques(texts))
  }

  lemma {:induction false} UniquesMean(texts: seq<string>)
    ensures Distinct(Same, Uniques(texts)) && forall s :: s in Uniques(texts) <==> s != "" && s in texts
  {
    if texts != [] {
      var n := |texts| - 1;
      UniquesMean(texts[..n]);
      assert texts == texts[..n] + [texts[n]];
    }
  }

  /** Sorting out texts: each nonempty one once, in order. */
  lemma SortUniqueMeans(texts: seq<string>)
    ensures Distinct(Same, SortUnique(texts)) && Sorted(LexLess, SortUnique(texts))
    ensures forall s :: s in SortUnique(texts) <==> s != "" && s in texts
  {
    UniquesMean(texts);
    LexOrder();
    SortSorted(LexLess, Uniques(texts));
    SortDistinct(LexLess, Same, Uniques(texts));
    SortMembers(LexLess, Uniques(texts));
  }

  method SortUniqueLoop(texts: seq<string>) returns (out: seq<string>)
    ensures out == SortUnique(texts)
  {
    var seen: set<string> := {};
    out := [];
    for i := 0 to |texts|
      invariant out == Uniques(texts[..i])
      invariant forall s :: s in out <==> s in seen
    {
      assert texts[..i + 1][..i] == texts[..i];
      if texts[i] == "" || texts[i] in seen {
        continue;
      }
      seen := seen + {texts[i]};
      out := out + [texts[i]];
    }
    assert texts[..|texts|] == texts;
    out := StableSort(LexLess, out);
  }

  /** The keys of a map or set in sorted order. */
  method SortedKeys(keys: set<string>) returns (out: seq<string>)
    ensures forall k :: k in out <==> k in keys
    ensures Distinct(Same, out) && Sorted(LexLess, out)
  {
    out := [];
    var todo := keys;
    while todo != {}
      invariant todo <= keys && Distinct(Same, out)
      invariant forall k :: k in out <==> k in keys && k !in todo
    {
      var k :| k in todo;
      out := out + [k];
      todo := todo - {k};
    }
    SortMembers(LexLess, out);
    SortDistinct(LexLess, Same, out);
    LexOrder();
    SortSorted(LexLess, out);
    out := StableSort(LexLess, out);
  }
}
