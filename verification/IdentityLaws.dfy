/** What identifies a call (internal/index/model.go): its target, its place in a file, and nothing else. */
module IdentityLaws {
  import opened Strs
  import opened Sorting
  import opened Calls
  import opened Identity

  predicate NulFreeTarget(c: Call) {
    NulFree(c.kind) && NulFree(c.host) && NulFree(c.verb) && NulFree(c.path)
  }

  predicate SameTarget(c: Call, d: Call) {
    c.kind == d.kind && c.host == d.host && c.verb == d.verb && c.path == d.path
  }

  lemma {:induction false} FiveApart(xs: seq<string>, ys: seq<string>)
    requires |xs| == |ys| && (forall i :: 0 <= i < |xs| ==> NulFree(xs[i]) && NulFree(ys[i]))
    ensures Strs.Join(xs, NUL) == Strs.Join(ys, NUL) <==> xs == ys
  {
    if Strs.Join(xs, NUL) == Strs.Join(ys, NUL) { JoinedApart(xs, ys); }
  }

  /** Two calls share a fingerprint exactly when they have the same kind, host, method and path. */
  lemma {:induction false} FingerprintIff(hash: string -> string, c: Call, d: Call)
    requires Ideal(hash) && NulFreeTarget(c) && NulFreeTarget(d)
    ensures Fingerprint(hash, c) == Fingerprint(hash, d) <==> SameTarget(c, d)
  {
    var xs, ys := ["v1", c.kind, c.host, c.verb, c.path], ["v1", d.kind, d.host, d.verb, d.path];
    FiveApart(xs, ys);
    var x, y := Strs.Join(xs, NUL), Strs.Join(ys, NUL);
    assert Fingerprint(hash, c) == "f_" + hash(x) && Fingerprint(hash, d) == "f_" + hash(y);
    hide Strs.Join;
    assert xs == ys <==> xs[1] == ys[1] && xs[2] == ys[2] && xs[3] == ys[3] && xs[4] == ys[4];
    if Fingerprint(hash, c) == Fingerprint(hash, d) {
      assert ("f_" + hash(x))[2..] == hash(x) && ("f_" + hash(y))[2..] == hash(y);
    }
  }

  predicate NulFreePlace(c: Call) {
    NulFree(c.fingerprint) && NulFree(c.file) && NulFree(c.client)
  }

  /** Two calls share an ID exactly when target, file, client and ordinal agree: lines do not matter. */
  lemma {:induction false} IdIff(hash: string -> string, c: Call, m: nat, d: Call, n: nat)
    requires Ideal(hash) && NulFreePlace(c) && NulFreePlace(d)
    ensures IdOf(hash, c, m) == IdOf(hash, d, n)
       <==> c.fingerprint == d.fingerprint && c.file == d.file && c.client == d.client && m == n
  {
    if IdOf(hash, c, m) == IdOf(hash, d, n) { SameId(hash, c, m, d, n); }
  }

  lemma {:induction false} KeyIff(c: Call, d: Call)
    requires NulFreePlace(c) && NulFreePlace(d)
    ensures Key(c) == Key(d) <==> c.file == d.file && c.fingerprint == d.fingerprint && c.client == d.client
  {
    var xs, ys := [c.file, c.fingerprint, c.client], [d.file, d.fingerprint, d.client];
    FiveApart(xs, ys);
    ThreeJoined(c.file, c.fingerprint, c.client);
    ThreeJoined(d.file, d.fingerprint, d.client);
    assert xs == ys <==> xs[0] == ys[0] && xs[1] == ys[1] && xs[2] == ys[2];
    hide Strs.Join;
  }

  lemma {:induction false} ThreeJoined(a: string, b: string, c: string)
    ensures Strs.Join([a, b, c], NUL) == a + NUL + b + NUL + c
  {
    assert [a, b, c][1..] == [b, c] && [b, c][1..] == [c];
    assert Strs.Join([b, c], NUL) == b + NUL + c;
    assert Strs.Join([a, b, c], NUL) == a + NUL + Strs.Join([b, c], NUL);
    hide Strs.Join;
    assert a + NUL + (b + NUL + c) == a + NUL + b + NUL + c;
  }

  // ----- what marking fills in

  /** A score of eighty is high, one of fifty medium. */
  lemma {:induction false} ConfidenceBands(score: int)
    ensures score > 79 ==> ConfidenceFor(score) == High
    ensures 49 < score < 80 ==> ConfidenceFor(score) == Medium
    ensures score < 50 ==> ConfidenceFor(score) == Low
  {
  }

  /** The lists hold what they held, each nonempty text once and in order. */
  ghost predicate SortedOut(xs: seq<string>, ys: seq<string>) {
    && (forall s :: s in ys <==> s in xs && s != "")
    && (forall i, j :: 0 <= i < j < |ys| ==> ys[i] != ys[j] && !LexLess(ys[j], ys[i]))
  }

  /** Only these fields are filled in or sorted out. */
  ghost predicate Filled(hash: string -> string, c: Call, r: Call) {
    && r == c.(fingerprint := r.fingerprint, flags := r.flags, blockers := r.blockers, queryKeys := r.queryKeys,
               confidence := r.confidence)
    && r.fingerprint == Fingerprint(hash, c)
    && SortedOut(c.flags, r.flags) && SortedOut(c.blockers, r.blockers) && SortedOut(c.queryKeys, r.queryKeys)
    && (if c.confidence.Some? then r.confidence == c.confidence else r.confidence == Some(ConfidenceFor(c.score)))
  }

  lemma {:induction false} SortedOutIs(xs: seq<string>)
    ensures SortedOut(xs, SortUnique(xs))
  {
    SortUniqueMeans(xs);
    var ys := SortUnique(xs);
    hide SortUnique;
    forall i, j | 0 <= i < j < |ys| ensures ys[i] != ys[j] { assert Same(ys[i]) != Same(ys[j]); }
  }

  lemma {:induction false} MarkFills(hash: string -> string, c: Call)
    ensures Filled(hash, c, Mark(hash, c))
  {
    SortedOutIs(c.flags);
    SortedOutIs(c.blockers);
    SortedOutIs(c.queryKeys);
    hide SortUnique, Fingerprint, SortedOut, ConfidenceFor;
  }

  // ----- what is assigned

  predicate SamePlace(c: Call, d: Call) {
    c.file == d.file && c.fingerprint == d.fingerprint && c.client == d.client
  }

  /** The calls among the first `n` that share file, target and client with the `i`-th one. */
  function Among(calls: seq<Call>, i: nat, n: nat): set<nat>
    requires i < |calls| && n <= |calls|
  {
    set k: nat | k < n && SamePlace(calls[k], calls[i])
  }

  /** Those that stand before it. */
  function Earlier(calls: seq<Call>, i: nat): set<nat>
    requires i < |calls|
  {
    Among(calls, i, i)
  }

  ghost predicate AllNulFree(calls: seq<Call>) {
    forall i :: 0 <= i < |calls| ==> NulFreePlace(calls[i])
  }

  lemma {:induction false} AmongMore(calls: seq<Call>, i: nat, n: nat)
    requires i < |calls| && n < |calls|
    ensures |Among(calls, i, n + 1)| == |Among(calls, i, n)| + (if SamePlace(calls[n], calls[i]) then 1 else 0)
    ensures |Among(calls, i, 0)| == 0
  {
    hide SamePlace;
    assert Among(calls, i, n + 1) == Among(calls, i, n) + (if SamePlace(calls[n], calls[i]) then {n} else {});
    assert Among(calls, i, 0) == {};
  }

  lemma {:induction false} OrdinalUpTo(calls: seq<Call>, i: nat, n: nat)
    requires n <= |calls| && i < |calls| && AllNulFree(calls)
    ensures Ordinal(calls[..n], Key(calls[i])) == |Among(calls, i, n)|
    decreases n
  {
    AmongMore(calls, i, if n == 0 then 0 else n - 1);
    if n == 0 {
      assert calls[..0] == [];
    } else {
      OrdinalUpTo(calls, i, n - 1);
      KeyIff(calls[n - 1], calls[i]);
      hide Ordinal, Key, Among;
      OrdinalSnoc(calls, n - 1, Key(calls[i]));
    }
  }

  /** A call's ID carries as its ordinal how many calls of its file, target and client stand before it. */
  lemma {:induction false} OrdinalIsRank(hash: string -> string, calls: seq<Call>, i: nat)
    requires i < |calls| && AllNulFree(calls)
    ensures Named(hash, calls)[i] == calls[i].(id := IdOf(hash, calls[i], |Earlier(calls, i)|))
  {
    OrdinalUpTo(calls, i, i);
    hide Ordinal, Key, IdOf, Among;
  }

  /** The calls as they are named: each filled in, and in the order of their places. */
  ghost predicate InPlace(hash: string -> string, calls: seq<Call>, placed: seq<Call>) {
    && multiset(placed) == multiset(Marked(hash, calls))
    && forall i, j :: 0 <= i < j < |placed| ==> NoLater(placed[i], placed[j])
  }

  /** Each call named by how many of its file, target and client stand before it. */
  function Ranked(hash: string -> string, placed: seq<Call>): (r: seq<Call>)
    ensures |r| == |placed|
    ensures forall i :: 0 <= i < |r| ==> r[i] == placed[i].(id := IdOf(hash, placed[i], |Earlier(placed, i)|))
  {
    seq(|placed|, i requires 0 <= i < |placed| => placed[i].(id := IdOf(hash, placed[i], |Earlier(placed, i)|)))
  }

  lemma {:induction false} NamedIsRanked(hash: string -> string, placed: seq<Call>)
    requires AllNulFree(placed)
    ensures Named(hash, placed) == Ranked(hash, placed)
  {
    hide IdOf, Earlier, AllNulFree;
    forall i | 0 <= i < |placed| ensures Named(hash, placed)[i] == Ranked(hash, placed)[i] {
      OrdinalIsRank(hash, placed, i);
    }
  }

  /**
   Assigning identity gives back every call, filled in and named after the calls of its file, target
   and client that stand before it, in the order of their places.
   */
  lemma {:induction false} AssignedIs(hash: string -> string, calls: seq<Call>) returns (placed: seq<Call>)
    requires Ideal(hash) && Storable(calls)
    ensures InPlace(hash, calls, placed) && AllNulFree(placed)
    ensures multiset(Assigned(hash, calls)) == multiset(Ranked(hash, placed))
    ensures Ascending(NoLater, Assigned(hash, calls))
  {
    placed := StableSort(LessByPosition, Marked(hash, calls));
    PlaceOrder();
    SortMultiset(LessByPosition, Marked(hash, calls));
    SortAscending(LessByPosition, NoLater, Marked(hash, calls));
    PlacedNulFree(hash, calls, placed);
    NamedIsRanked(hash, placed);
    hide StableSort, Marked, Ranked, NoLater, AllNulFree;
    SortMultiset(CanonicalLess, Named(hash, placed));
    SortAscending(CanonicalLess, NoLater, Named(hash, placed));
  }

  lemma {:induction false} PlacedNulFree(hash: string -> string, calls: seq<Call>, placed: seq<Call>)
    requires Ideal(hash) && Storable(calls) && multiset(placed) == multiset(Marked(hash, calls))
    ensures AllNulFree(placed)
  {
    forall i | 0 <= i < |placed| ensures NulFreePlace(placed[i]) {
      assert placed[i] in multiset(Marked(hash, calls));
      var k :| 0 <= k < |calls| && Marked(hash, calls)[k] == placed[i];
      MarkNulFree(hash, calls[k]);
    }
  }
}
