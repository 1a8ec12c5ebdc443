/** What merging promises: identity, a balanced report, and each record's lifecycle over many scans. */
module MergeLaws {
  import opened Strs
  import opened Sorting
  import opened Calls
  import opened Merge

  ghost predicate DistinctIds(calls: seq<Call>) {
    Distinct(Id, calls)
  }

  // ----- matching is injective

  lemma HitsStep(prev: seq<Call>, next: seq<Call>)
    requires next != []
    ensures var n := |next| - 1;
            Hits(prev, next)[..n] == Hits(prev, next[..n])
            && Hits(prev, next)[n] == FindPrev(next[n], prev, Taken(prev, Hits(prev, next[..n])))
  {
  }

  lemma {:induction false} HitsPrefix(prev: seq<Call>, next: seq<Call>, i: nat)
    requires i < |next|
    ensures Hits(prev, next)[..i] == Hits(prev, next[..i])
    ensures Hits(prev, next)[i] == FindPrev(next[i], prev, Taken(prev, Hits(prev, next[..i])))
    decreases |next|
  {
    hide Hits, FindPrev, Taken;
    var n := |next| - 1;
    HitsStep(prev, next);
    if i < n {
      HitsPrefix(prev, next[..n], i);
      assert next[..n][..i] == next[..i] && next[..n][i] == next[i];
      assert Hits(prev, next)[..i] == Hits(prev, next)[..n][..i];
      assert Hits(prev, next)[i] == Hits(prev, next)[..n][i];
    }
  }

  /** The narrowest tier: a stored ID not yet taken is an exact match. */
  lemma ExactTier(prev: seq<Call>, c: Call, taken: set<string>)
    requires FindId(prev, c.id) >= 0
    ensures c.id !in taken ==> FindPrev(c, prev, taken) == Some(Hit(FindId(prev, c.id), Exact))
    ensures c.id in taken ==> FindPrev(c, prev, taken).None? || FindPrev(c, prev, taken).value.how != Exact
  {
  }

  lemma TakenHas(prev: seq<Call>, hs: seq<Option<Hit>>, i: nat)
    requires forall k :: 0 <= k < |hs| && hs[k].Some? ==> hs[k].value.at < |prev|
    requires i < |hs| && hs[i].Some?
    ensures prev[hs[i].value.at].id in Taken(prev, hs)
  {
  }

  /** No two calls of a scan continue the same record. */
  lemma HitsInjective(prev: seq<Call>, next: seq<Call>, i: nat, j: nat)
    requires i < j < |next| && Hits(prev, next)[i].Some? && Hits(prev, next)[j].Some?
    ensures prev[Hits(prev, next)[i].value.at].id != prev[Hits(prev, next)[j].value.at].id
    ensures Hits(prev, next)[i].value.at != Hits(prev, next)[j].value.at
  {
    HitsPrefix(prev, next, j);
    assert Hits(prev, next)[..j][i] == Hits(prev, next)[i];
    TakenHas(prev, Hits(prev, next[..j]), i);
  }

  lemma TakenPrefix(prev: seq<Call>, hs: seq<Option<Hit>>, j: nat)
    requires forall k :: 0 <= k < |hs| && hs[k].Some? ==> hs[k].value.at < |prev|
    requires j <= |hs|
    ensures Taken(prev, hs[..j]) <= Taken(prev, hs)
  {
    forall id | id in Taken(prev, hs[..j]) ensures id in Taken(prev, hs) {
      var k :| 0 <= k < j && hs[..j][k].Some? && prev[hs[..j][k].value.at].id == id;
      assert hs[k] == hs[..j][k];
    }
  }

  // ----- output IDs stay distinct

  lemma NextTaken(prev: seq<Call>, next: seq<Call>, j: nat)
    requires j < |next| && FindId(prev, next[j].id) >= 0
    ensures next[j].id in Taken(prev, Hits(prev, next))
  {
    HitsPrefix(prev, next, j);
    TakenPrefix(prev, Hits(prev, next), j);
    ExactTier(prev, next[j], Taken(prev, Hits(prev, next[..j])));
    if Hits(prev, next)[j] == Some(Hit(FindId(prev, next[j].id), Exact)) {
      TakenHas(prev, Hits(prev, next), j);
    }
  }

  /** A record that no call continues shares its ID with no call of the scan. */
  lemma UnclaimedForeign(prev: seq<Call>, next: seq<Call>, p: nat, j: nat)
    requires p < |prev| && j < |next| && prev[p].id !in Taken(prev, Hits(prev, next))
    ensures prev[p].id != next[j].id
  {
    if FindId(prev, next[j].id) >= 0 {
      NextTaken(prev, next, j);
    }
  }

  lemma {:induction false} SeenAllIds(prev: seq<Call>, next: seq<Call>, scan: Scan)
    ensures |SeenAll(prev, next, scan)| == |next|
    ensures forall i :: 0 <= i < |next| ==> SeenAll(prev, next, scan)[i] == Seen(prev, next[i], Hits(prev, next)[i], scan)
  {
    hide Seen, FindPrev, Taken;
    if next != [] {
      var n := |next| - 1;
      SeenAllIds(prev, next[..n], scan);
      forall i | 0 <= i < n
        ensures SeenAll(prev, next, scan)[i] == Seen(prev, next[i], Hits(prev, next)[i], scan)
      {
        assert Hits(prev, next)[i] == Hits(prev, next[..n])[i];
      }
    }
  }

  /** `r` is what is left in the index of some unclaimed record. */
  ghost predicate FromLeft(left: seq<Call>, opts: Options, scan: Scan, r: Call) {
    exists p :: 0 <= p < |left| && Rest(left[p], opts, scan) == [r]
  }

  lemma {:induction false} RestAllFrom(left: seq<Call>, opts: Options, scan: Scan)
    requires DistinctIds(left)
    ensures DistinctIds(RestAll(left, opts, scan))
    ensures forall r :: r in RestAll(left, opts, scan) <==> FromLeft(left, opts, scan, r)
  {
    hide FateOf;
    if left != [] {
      var n := |left| - 1;
      var init := left[..n];
      RestAllFrom(init, opts, scan);
      var before, after := RestAll(init, opts, scan), RestAll(left, opts, scan);
      forall r ensures r in after <==> FromLeft(left, opts, scan, r) {
        if FromLeft(init, opts, scan, r) {
          var p :| 0 <= p < n && Rest(init[p], opts, scan) == [r];
          assert left[p] == init[p];
        }
        if FromLeft(left, opts, scan, r) {
          var p :| 0 <= p < |left| && Rest(left[p], opts, scan) == [r];
          assert p < n ==> Rest(init[p], opts, scan) == [r];
        }
        if Rest(left[n], opts, scan) == [r] { assert FromLeft(left, opts, scan, r); }
      }
      forall i | 0 <= i < |before| ensures before[i].id != left[n].id {
        assert before[i] in before;
        var p :| 0 <= p < n && Rest(init[p], opts, scan) == [before[i]];
        assert Id(left[p]) != Id(left[n]);
      }
    }
  }

  lemma {:induction false} LeftFrom(prev: seq<Call>, taken: set<string>)
    requires DistinctIds(prev)
    ensures DistinctIds(Left(prev, taken))
    ensures forall c :: c in Left(prev, taken) <==> c in prev && c.id !in taken
  {
    if prev != [] {
      var n := |prev| - 1;
      LeftFrom(prev[..n], taken);
      assert prev == prev[..n] + [prev[n]];
      var before := Left(prev[..n], taken);
      forall i | 0 <= i < |before| ensures before[i].id != prev[n].id {
        assert before[i] in before;
        var k :| 0 <= k < n && prev[..n][k] == before[i];
        assert Id(prev[k]) != Id(prev[n]);
      }
    }
  }

  /** Greedy as the matching is, the merged index never holds two records with one ID. */
  lemma MergedDistinct(prev: seq<Call>, next: seq<Call>, scan: Scan, opts: Options)
    requires DistinctIds(prev) && DistinctIds(next)
    ensures DistinctIds(SortCalls(MergedCalls(Some(prev), next, scan, opts)))
  {
    var left := Unclaimed(prev, next);
    var seen, rest := SeenAll(prev, next, scan), RestAll(left, opts, scan);
    LeftFrom(prev, Taken(prev, Hits(prev, next)));
    RestAllFrom(left, opts, scan);
    RestForeign(prev, next, scan, opts);
    SeenDistinct(prev, next, scan);
    ConcatDistinct(seen, rest);
    SortDistinct(CanonicalLess, Id, seen + rest);
  }

  lemma SeenDistinct(prev: seq<Call>, next: seq<Call>, scan: Scan)
    requires DistinctIds(next)
    ensures DistinctIds(SeenAll(prev, next, scan))
  {
    var seen := SeenAll(prev, next, scan);
    SeenAllIds(prev, next, scan);
    forall i, j | 0 <= i < j < |seen| ensures Id(seen[i]) != Id(seen[j]) {
      assert Id(next[i]) != Id(next[j]);
    }
  }

  ghost predicate Apart(xs: seq<Call>, ys: seq<Call>) {
    forall i, j :: 0 <= i < |xs| && 0 <= j < |ys| ==> xs[i].id != ys[j].id
  }

  lemma ConcatDistinct(xs: seq<Call>, ys: seq<Call>)
    requires DistinctIds(xs) && DistinctIds(ys)
    requires Apart(xs, ys)
    ensures DistinctIds(xs + ys)
  {
    var all := xs + ys;
    forall i, j | 0 <= i < j < |all| ensures Id(all[i]) != Id(all[j]) {
      if j < |xs| {
        assert Id(xs[i]) != Id(xs[j]);
      } else if i >= |xs| {
        assert Id(ys[i - |xs|]) != Id(ys[j - |xs|]);
      }
    }
  }

  function IdSet(calls: seq<Call>): set<string> {
    set c | c in calls :: c.id
  }

  lemma UnclaimedIds(prev: seq<Call>, next: seq<Call>)
    requires DistinctIds(prev)
    ensures IdSet(Unclaimed(prev, next)) !! IdSet(next)
  {
    LeftFrom(prev, Taken(prev, Hits(prev, next)));
    forall c, d | c in Unclaimed(prev, next) && d in next ensures c.id != d.id {
      var k :| 0 <= k < |prev| && prev[k] == c;
      var i :| 0 <= i < |next| && next[i] == d;
      UnclaimedForeign(prev, next, k, i);
    }
  }

  lemma RestIds(left: seq<Call>, opts: Options, scan: Scan)
    requires DistinctIds(left)
    ensures IdSet(RestAll(left, opts, scan)) <= IdSet(left)
  {
    RestAllFrom(left, opts, scan);
    forall r | r in RestAll(left, opts, scan) ensures r.id in IdSet(left) {
      var p :| 0 <= p < |left| && Rest(left[p], opts, scan) == [r];
      assert left[p] in left && left[p].id == r.id;
    }
  }

  /** What is left of the unclaimed records shares no ID with the calls of the scan. */
  lemma RestForeign(prev: seq<Call>, next: seq<Call>, scan: Scan, opts: Options)
    requires DistinctIds(prev)
    ensures Apart(SeenAll(prev, next, scan), RestAll(Unclaimed(prev, next), opts, scan))
  {
    var left := Unclaimed(prev, next);
    var seen, rest := SeenAll(prev, next, scan), RestAll(left, opts, scan);
    SeenAllIds(prev, next, scan);
    LeftFrom(prev, Taken(prev, Hits(prev, next)));
    RestIds(left, opts, scan);
    UnclaimedIds(prev, next);
    forall i, j | 0 <= i < |seen| && 0 <= j < |rest| ensures seen[i].id != rest[j].id {
      assert rest[j] in rest && next[i] in next;
      assert rest[j].id in IdSet(left) && seen[i].id in IdSet(next);
    }
  }

  // ----- the report balances

  lemma {:induction false} TallyBalance(prev: seq<Call>, next: seq<Call>)
    ensures var t := TallyAll(prev, next); t.added + t.updated + t.kept + t.restored == |next|
  {
    hide ClassOf, Hits;
    if next != [] { TallyBalance(prev, next[..|next| - 1]); }
  }

  lemma {:induction false} FateBalance(left: seq<Call>, opts: Options, scan: Scan)
    ensures CountFate(left, opts, IsRemoved) + CountFate(left, opts, IsPruned) + CountFate(left, opts, IsCarried) == |left|
    ensures |RestAll(left, opts, scan)| == CountFate(left, opts, IsRemoved) + CountFate(left, opts, IsCarried)
  {
    if left != [] { FateBalance(left[..|left| - 1], opts, scan); }
  }

  /** The matched records and the unclaimed ones make up the previous index. */
  lemma {:induction false} MatchedBalance(prev: seq<Call>, next: seq<Call>)
    requires DistinctIds(prev)
    ensures |Unclaimed(prev, next)| + (|next| - TallyAll(prev, next).added) == |prev|
  {
    TakenSize(prev, next);
    LeftSize(prev, Taken(prev, Hits(prev, next)));
    TakenKnown(prev, next);
  }

  lemma TakenKnown(prev: seq<Call>, next: seq<Call>)
    ensures Taken(prev, Hits(prev, next)) <= (set c | c in prev :: c.id)
  {
  }

  lemma {:induction false} TakenSize(prev: seq<Call>, next: seq<Call>)
    ensures |Taken(prev, Hits(prev, next))| == |next| - TallyAll(prev, next).added
  {
    if next == [] {
      NoneTaken(prev);
    } else {
      var n := |next| - 1;
      hide Hits, FindPrev, Taken, TallyAll, ClassOf, SeenAll, AddedIds, MovedAll;
      TakenSize(prev, next[..n]);
      ExtendSeen(prev, next, n, Scan("", ""));
      assert next[..n + 1] == next;
      TakenFresh(prev, next);
      var taken := Taken(prev, Hits(prev, next[..n]));
      SizeStep(prev, taken, FindPrev(next[n], prev, taken));
    }
  }

  lemma NoneTaken(prev: seq<Call>)
    ensures Taken(prev, Hits(prev, [])) == {} && TallyAll(prev, []).added == 0
  {
    assert Hits(prev, []) == [];
  }

  lemma SizeStep(prev: seq<Call>, taken: set<string>, h: Option<Hit>)
    requires h.Some? ==> h.value.at < |prev| && prev[h.value.at].id !in taken
    ensures |taken + (if h.Some? then {prev[h.value.at].id} else {})| == |taken| + (if h.Some? then 1 else 0)
    ensures forall c :: ClassOf(prev, c, h) == IsAdded <==> h.None?
  {
  }

  /** The last call's record was not taken before. */
  lemma TakenFresh(prev: seq<Call>, next: seq<Call>)
    requires next != []
    ensures var n := |next| - 1;
            var taken := Taken(prev, Hits(prev, next[..n]));
            var h := FindPrev(next[n], prev, taken);
            h.Some? ==> prev[h.value.at].id !in taken
  {
  }

  lemma {:induction false} LeftSize(prev: seq<Call>, taken: set<string>)
    requires DistinctIds(prev) && taken <= IdSet(prev)
    ensures |Left(prev, taken)| + |taken| == |prev|
  {
    if prev != [] {
      var n := |prev| - 1;
      var last := prev[n].id;
      LastIsNew(prev);
      LeftSize(prev[..n], taken - {last});
      LeftIgnores(prev[..n], taken, last);
      assert last in taken ==> |taken - {last}| == |taken| - 1;
      assert last !in taken ==> taken - {last} == taken;
    }
  }

  lemma {:induction false} LeftIgnores(prev: seq<Call>, taken: set<string>, id: string)
    requires id !in (set c | c in prev :: c.id)
    ensures Left(prev, taken - {id}) == Left(prev, taken)
  {
    if prev != [] {
      var n := |prev| - 1;
      assert prev == prev[..n] + [prev[n]];
      LeftIgnores(prev[..n], taken, id);
    }
  }

  /** Every call of the scan, every previous record and every merged record is counted once. */
  lemma ReportBalances(prev: seq<Call>, next: seq<Call>, scan: Scan, opts: Options)
    requires DistinctIds(prev)
    ensures var r := MergeReport(Some(prev), next, opts);
            && |next| == r.added + r.updated + r.kept + r.restored
            && |prev| == (r.updated + r.kept + r.restored) + r.removed + r.pruned + r.carried
            && |SortCalls(MergedCalls(Some(prev), next, scan, opts))| == |next| + r.removed + r.carried
  {
    TallyBalance(prev, next);
    MatchedBalance(prev, next);
    FateBalance(Unclaimed(prev, next), opts, scan);
    SeenAllIds(prev, next, scan);
    SortMultiset(CanonicalLess, MergedCalls(Some(prev), next, scan, opts));
  }

  // ----- exact matches

  /** A call whose ID is stored continues that record exactly when no earlier call took it. */
  lemma ExactUnlessTaken(prev: seq<Call>, next: seq<Call>, j: nat)
    requires j < |next| && FindId(prev, next[j].id) >= 0
    ensures (Hits(prev, next)[j].Some? && Hits(prev, next)[j].value.how == Exact)
        <==> next[j].id !in Taken(prev, Hits(prev, next[..j]))
  {
    HitsPrefix(prev, next, j);
    ExactTier(prev, next[j], Taken(prev, Hits(prev, next[..j])));
  }

  /**
   The matching is greedy: a call standing before another may take, by target alone, the very
   record that the other matches by ID.
   */
  lemma GreedyTakesAnothersRecord(stored: Call, moved: Call, same: Call)
    requires same.id == stored.id && moved.id != stored.id
    requires moved.fingerprint == stored.fingerprint
    ensures var hs := Hits([stored], [moved, same]);
            && hs[0].Some? && hs[0].value.at == 0 && hs[0].value.how != Exact
            && hs[1].None?
  {
    var prev, next := [stored], [moved, same];
    var hs := Hits(prev, next);
    assert next[..0] == [] && Hits(prev, next[..0]) == [] && Taken(prev, []) == {};
    HitsPrefix(prev, next, 0);
    SoleTarget(stored, moved);
    HitsPrefix(prev, next, 1);
    assert hs[..1][0] == hs[0];
    TakenHas(prev, hs[..1], 0);
    AllTaken(prev, same, Taken(prev, hs[..1]));
  }

  lemma SoleTarget(stored: Call, c: Call)
    requires c.id != stored.id && c.fingerprint == stored.fingerprint
    ensures var h := FindPrev(c, [stored], {});
            h.Some? && h.value.at == 0 && h.value.how != Exact
  {
    var prev := [stored];
    assert prev[..0] == [] && [0][..0] == [];
    assert Group(prev, None, c.fingerprint) == [0];
    assert Unmatched(prev, [0], {}) == [0];
  }

  lemma AllTaken(prev: seq<Call>, c: Call, taken: set<string>)
    requires (forall p :: p in prev ==> p.id in taken) && c.id in taken
    ensures FindPrev(c, prev, taken).None?
  {
    NoneLeft(prev, Group(prev, Some(c.file), c.fingerprint), taken);
    NoneLeft(prev, Group(prev, None, c.fingerprint), taken);
  }

  lemma {:induction false} NoneLeft(prev: seq<Call>, at: seq<int>, taken: set<string>)
    requires forall k :: 0 <= k < |at| ==> 0 <= at[k] < |prev|
    requires forall c :: c in prev ==> c.id in taken
    ensures Unmatched(prev, at, taken) == []
  {
    if at != [] {
      NoneLeft(prev, at[..|at| - 1], taken);
      assert prev[at[|at| - 1]] in prev;
    }
  }

  // ----- merging the same calls again

  /** The call is stored, active, and where it was. */
  predicate Still(prev: seq<Call>, c: Call) {
    var p := FindId(prev, c.id);
    p >= 0 && prev[p].file == c.file && prev[p].line == c.line && prev[p].life.status == Active
  }

  /** The scan found exactly the stored calls, all of them active, where they were. */
  ghost predicate SameCalls(prev: seq<Call>, next: seq<Call>) {
    && (forall i :: 0 <= i < |next| ==> Still(prev, next[i]))
    && (forall p :: 0 <= p < |prev| ==> prev[p].id in IdSet(next))
  }

  lemma LastIsNew(next: seq<Call>)
    requires next != [] && DistinctIds(next)
    ensures var n := |next| - 1;
            && DistinctIds(next[..n]) && next[n].id !in IdSet(next[..n])
            && IdSet(next) == IdSet(next[..n]) + {next[n].id} && next[..n + 1] == next
  {
    var n := |next| - 1;
    assert next == next[..n] + [next[n]];
    forall d | d in next[..n] ensures d.id != next[n].id {
      var k :| 0 <= k < n && next[..n][k] == d;
      assert Id(next[k]) != Id(next[n]);
    }
  }

  lemma {:induction false} ExactTaken(prev: seq<Call>, next: seq<Call>)
    requires DistinctIds(next) && forall i :: 0 <= i < |next| ==> Still(prev, next[i])
    ensures Taken(prev, Hits(prev, next)) == IdSet(next)
  {
    if next != [] {
      var n := |next| - 1;
      LastIsNew(next);
      ExactTaken(prev, next[..n]);
      assert Still(prev, next[n]);
      ExtendSeen(prev, next, n, Scan("", ""));
      ExactTier(prev, next[n], IdSet(next[..n]));
    }
  }

  lemma {:induction false} ExactAll(prev: seq<Call>, next: seq<Call>)
    requires DistinctIds(next) && forall i :: 0 <= i < |next| ==> Still(prev, next[i])
    ensures TallyAll(prev, next) == Tally(0, 0, 0, |next|) && MovedAll(prev, next) == []
  {
    if next != [] {
      var n := |next| - 1;
      LastIsNew(next);
      ExactTaken(prev, next[..n]);
      ExactAll(prev, next[..n]);
      assert Still(prev, next[n]);
      ExtendSeen(prev, next, n, Scan("", ""));
      ExactTier(prev, next[n], IdSet(next[..n]));
    }
  }

  lemma {:induction false} LeftNone(prev: seq<Call>, taken: set<string>)
    requires forall p :: 0 <= p < |prev| ==> prev[p].id in taken
    ensures Left(prev, taken) == []
  {
    if prev != [] { LeftNone(prev[..|prev| - 1], taken); }
  }

  /** Scanning unchanged code again reports no drift. */
  lemma RemergeReportsNothing(prev: seq<Call>, next: seq<Call>, opts: Options)
    requires DistinctIds(next) && SameCalls(prev, next)
    ensures var r := MergeReport(Some(prev), next, opts);
            !r.Changed() && r.kept == |next| && r.updated == 0 && r.carried == 0
  {
    ExactTaken(prev, next);
    ExactAll(prev, next);
    LeftNone(prev, Taken(prev, Hits(prev, next)));
  }

  /** A record that the scan looked for in vain. */
  ghost predicate LookedInVain(prev: seq<Call>, next: seq<Call>, opts: Options, p: Call) {
    p in prev && p.id !in IdSet(next) && Looked(opts, p)
  }

  lemma {:induction false} FatesLooked(left: seq<Call>, opts: Options)
    ensures CountFate(left, opts, IsRemoved) + CountFate(left, opts, IsPruned) > 0
       <==> exists p :: p in left && Looked(opts, p)
  {
    if left != [] {
      var n := |left| - 1;
      assert left == left[..n] + [left[n]];
      FatesLooked(left[..n], opts);
    }
  }

  /**
   A scan of unchanged code, complete or filtered, reports a change exactly when it looked for some
   record in vain, be that record already marked removed or not.
   */
  lemma UnchangedScanReportsIff(prev: seq<Call>, next: seq<Call>, opts: Options)
    requires DistinctIds(prev) && DistinctIds(next) && forall i :: 0 <= i < |next| ==> Still(prev, next[i])
    ensures MergeReport(Some(prev), next, opts).Changed() <==> exists p :: LookedInVain(prev, next, opts, p)
  {
    ExactTaken(prev, next);
    ExactAll(prev, next);
    var left := Unclaimed(prev, next);
    LeftFrom(prev, Taken(prev, Hits(prev, next)));
    FatesLooked(left, opts);
    hide Hits, Taken, Unclaimed, TallyAll, MovedAll, CountFate, StableSort;
    if p :| LookedInVain(prev, next, opts, p) {
      assert p in left;
    }
    if p :| p in left && Looked(opts, p) {
      assert LookedInVain(prev, next, opts, p);
    }
    assert |MergeReport(Some(prev), next, opts).relocated| == 0 by { SortMultiset(RelocationLess, []); }
  }

  /** A record already marked removed is counted as removed by every later full scan that keeps it. */
  lemma RemovedAgain(p: Call, prune: int)
    requires p.life.status == Removed && (prune <= 0 || p.life.missing + 1 <= prune)
    ensures var r := MergeReport(Some([p]), [], Options(prune, false, None));
            r.removed == 1 && r.Changed()
  {
    var opts := Options(prune, false, None);
    assert [p][..0] == [] && Hits([p], []) == [] && Taken([p], []) == {};
    assert Left([p], {}) == [p];
    assert FateOf(p, opts) == IsRemoved && CountFate([], opts, IsRemoved) == 0;
    assert CountFate([p], opts, IsRemoved) == 1;
  }

  // ----- one scan, one record

  lemma FindOnly(calls: seq<Call>, c: Call)
    requires DistinctIds(calls) && c in calls
    ensures FindId(calls, c.id) >= 0 && calls[FindId(calls, c.id)] == c
  {
    var k :| 0 <= k < |calls| && calls[k] == c;
    assert Id(calls[FindId(calls, c.id)]) == Id(calls[k]);
  }

  /** Where a merged record comes from. */
  ghost predicate FromScan(prev: seq<Call>, next: seq<Call>, scan: Scan, r: Call) {
    exists i :: 0 <= i < |next| && r == Seen(prev, next[i], Hits(prev, next)[i], scan)
  }

  ghost predicate FromIndex(prev: seq<Call>, next: seq<Call>, scan: Scan, opts: Options, r: Call) {
    FromLeft(Unclaimed(prev, next), opts, scan, r)
  }

  lemma MergedMember(prev: seq<Call>, next: seq<Call>, scan: Scan, opts: Options, r: Call)
    requires DistinctIds(prev)
    ensures r in SortCalls(MergedCalls(Some(prev), next, scan, opts))
       <==> FromScan(prev, next, scan, r) || FromIndex(prev, next, scan, opts, r)
  {
    var seen, left := SeenAll(prev, next, scan), Unclaimed(prev, next);
    SortMembers(CanonicalLess, MergedCalls(Some(prev), next, scan, opts));
    SeenAllIds(prev, next, scan);
    LeftFrom(prev, Taken(prev, Hits(prev, next)));
    RestAllFrom(left, opts, scan);
    if FromScan(prev, next, scan, r) {
      var i :| 0 <= i < |next| && r == Seen(prev, next[i], Hits(prev, next)[i], scan);
      assert seen[i] == r;
    }
    if r in seen {
      var i :| 0 <= i < |seen| && seen[i] == r;
      assert r == Seen(prev, next[i], Hits(prev, next)[i], scan);
    }
  }

  lemma FromScanFacts(prev: seq<Call>, next: seq<Call>, scan: Scan, r: Call)
    requires FromScan(prev, next, scan, r)
    ensures r.id in IdSet(next) && r.life.status == Active && r.life.missing == 0
    ensures scan.id != "" ==> r.life.firstScan != ""
  {
    var i :| 0 <= i < |next| && r == Seen(prev, next[i], Hits(prev, next)[i], scan);
    assert next[i] in next && next[i].id == r.id;
  }

  /** Which record `r` is what is left of. */
  lemma FromIndexFacts(prev: seq<Call>, next: seq<Call>, scan: Scan, opts: Options, r: Call) returns (p: Call)
    requires DistinctIds(prev) && FromIndex(prev, next, scan, opts, r)
    ensures p in prev && p.id == r.id && r.id !in IdSet(next) && Rest(p, opts, scan) == [r]
    ensures FindId(prev, r.id) >= 0 && prev[FindId(prev, r.id)] == p
  {
    var left := Unclaimed(prev, next);
    var k :| 0 <= k < |left| && Rest(left[k], opts, scan) == [r];
    p := left[k];
    LeftFrom(prev, Taken(prev, Hits(prev, next)));
    assert p in left;
    FindOnly(prev, p);
    UnclaimedIds(prev, next);
    assert r.id in IdSet(left);
  }

  // ----- histories of scans

  datatype Step = Step(next: seq<Call>, scan: Scan, opts: Options)

  /** The index after a history of full and partial scans, from no index at all. */
  function Run(h: seq<Step>): Option<seq<Call>> {
    if h == [] then None
    else
      var s := h[|h| - 1];
      Some(SortCalls(MergedCalls(Run(h[..|h| - 1]), s.next, s.scan, s.opts)))
  }

  /** Scans with named IDs, distinct call IDs and retention `k` throughout. */
  ghost predicate Legit(h: seq<Step>, k: int) {
    forall i :: 0 <= i < |h| ==> DistinctIds(h[i].next) && h[i].scan.id != "" && h[i].opts.prune == k
  }

  /** How many scans in a row have now looked for the record and not found it. */
  function Misses(h: seq<Step>, id: string): nat {
    if h == [] then 0
    else
      var init, s := h[..|h| - 1], h[|h| - 1];
      if id in IdSet(s.next) then 0
      else
        var prev := Run(init);
        Misses(init, id)
        + (if prev.Some? && FindId(prev.value, id) >= 0 && Looked(s.opts, prev.value[FindId(prev.value, id)])
           then 1 else 0)
  }

  predicate LifeOk(c: Call, k: int) {
    && (c.life.status == Active <==> c.life.missing == 0)
    && 0 <= c.life.missing <= k
    && c.life.firstScan != ""
  }

  /**
   Over any history of scans with retention k > 0: every record is active exactly when its miss
   count is 0, and the count is the number of scans in a row that looked for it in vain, at most k.
   */
  lemma {:induction false} RunLife(h: seq<Step>, k: int)
    requires h != [] && k > 0 && Legit(h, k)
    ensures DistinctIds(Run(h).value)
    ensures forall c :: c in Run(h).value ==> LifeOk(c, k) && c.life.missing == Misses(h, c.id)
    decreases |h|
  {
    var n := |h| - 1;
    var init, s := h[..n], h[n];
    if n == 0 {
      FirstLife(h, k);
    } else {
      assert Legit(init, k);
      RunLife(init, k);
      var prev := Run(init).value;
      MergedDistinct(prev, s.next, s.scan, s.opts);
      forall c | c in Run(h).value ensures LifeOk(c, k) && c.life.missing == Misses(h, c.id) {
        MergedMember(prev, s.next, s.scan, s.opts, c);
        if FromScan(prev, s.next, s.scan, c) {
          SeenLife(h, k, c);
        } else {
          RestLife(h, k, c);
        }
      }
    }
  }

  function Newborn(scan: Scan): Lifecycle {
    Lifecycle(scan.id, scan.commit, scan.id, scan.commit, Active, 0)
  }

  /** A first scan: distinct records, each just born. */
  lemma {:induction false} FirstRecords(next: seq<Call>, scan: Scan)
    requires DistinctIds(next)
    ensures var out := SortCalls(SeenAll([], next, scan));
            && DistinctIds(out)
            && forall c :: c in out ==> c.id in IdSet(next) && c.life == Newborn(scan)
  {
    var seen := SeenAll([], next, scan);
    SeenDistinct([], next, scan);
    SortDistinct(CanonicalLess, Id, seen);
    SortMembers(CanonicalLess, seen);
    SeenAllIds([], next, scan);
    NothingBefore(next);
    hide StableSort, SeenAll, Hits, DistinctIds;
    forall c | c in SortCalls(seen)
      ensures c.id in IdSet(next) && c.life == Newborn(scan)
    {
      var i :| 0 <= i < |seen| && seen[i] == c;
      assert c == Born(next[i], scan) && next[i] in next;
    }
  }

  lemma {:induction false} FirstLife(h: seq<Step>, k: int)
    requires |h| == 1 && k > 0 && Legit(h, k)
    ensures DistinctIds(Run(h).value)
    ensures forall c :: c in Run(h).value ==> LifeOk(c, k) && c.life.missing == Misses(h, c.id)
  {
    var s := h[0];
    assert h[..0] == [] && Run(h).value == SortCalls(SeenAll([], s.next, s.scan));
    hide Run, SortCalls, SeenAll, DistinctIds;
    FirstRecords(s.next, s.scan);
  }

  lemma SeenLife(h: seq<Step>, k: int, c: Call)
    requires |h| > 1 && k > 0 && Legit(h, k)
    requires var prev := Run(h[..|h| - 1]).value;
             && (forall p :: p in prev ==> LifeOk(p, k))
             && FromScan(prev, h[|h| - 1].next, h[|h| - 1].scan, c)
    ensures LifeOk(c, k) && c.life.missing == Misses(h, c.id)
  {
    FromScanFacts(Run(h[..|h| - 1]).value, h[|h| - 1].next, h[|h| - 1].scan, c);
  }

  lemma RestLife(h: seq<Step>, k: int, c: Call)
    requires |h| > 1 && k > 0 && Legit(h, k)
    requires var init := h[..|h| - 1];
             && DistinctIds(Run(init).value)
             && (forall p :: p in Run(init).value ==> LifeOk(p, k) && p.life.missing == Misses(init, p.id))
             && FromIndex(Run(init).value, h[|h| - 1].next, h[|h| - 1].scan, h[|h| - 1].opts, c)
    ensures LifeOk(c, k) && c.life.missing == Misses(h, c.id)
  {
    var s := h[|h| - 1];
    var prev := Run(h[..|h| - 1]).value;
    hide Run, FromIndex, DistinctIds, LifeOk, FindId, Looked, IdSet;
    var p := LeftLife(prev, s, k, c);
  }

  /** What one scan does to the life of a record it leaves behind. */
  lemma LeftLife(prev: seq<Call>, s: Step, k: int, c: Call) returns (p: Call)
    requires DistinctIds(prev) && k > 0 && s.opts.prune == k
    requires forall p :: p in prev ==> LifeOk(p, k)
    requires FromIndex(prev, s.next, s.scan, s.opts, c)
    ensures p in prev && p.id == c.id && c.id !in IdSet(s.next)
    ensures FindId(prev, c.id) >= 0 && prev[FindId(prev, c.id)] == p
    ensures LifeOk(c, k) && c.life.missing == p.life.missing + (if Looked(s.opts, p) then 1 else 0)
  {
    p := FromIndexFacts(prev, s.next, s.scan, s.opts, c);
    hide FromIndex, DistinctIds, FindId, Looked, IdSet;
    assert LifeOk(p, k);
    assert c in Rest(p, s.opts, s.scan);
  }

  /** An unclaimed record is in the merged index exactly if it is not pruned. */
  lemma UnclaimedFate(prev: seq<Call>, next: seq<Call>, scan: Scan, opts: Options, p: Call)
    requires DistinctIds(prev) && p in Unclaimed(prev, next)
    ensures var out := SortCalls(MergedCalls(Some(prev), next, scan, opts));
            && (p.id in IdSet(out) <==> FateOf(p, opts) != IsPruned)
            && (!Looked(opts, p) ==> p in out)
  {
    hide Unclaimed, MergedCalls, SortCalls, DistinctIds, FromScan;
    var out := SortCalls(MergedCalls(Some(prev), next, scan, opts));
    var left := Unclaimed(prev, next);
    var at :| 0 <= at < |left| && left[at] == p;
    if FateOf(p, opts) != IsPruned {
      var r := Rest(p, opts, scan)[0];
      assert Rest(left[at], opts, scan) == [r];
      MergedMember(prev, next, scan, opts, r);
      assert r in out && r.id == p.id;
    }
    if p.id in IdSet(out) {
      var r :| r in out && r.id == p.id;
      UnclaimedStays(prev, next, scan, opts, p, r);
    }
  }

  /** The record's misses, after a scan that leaves it unclaimed. */
  lemma UnclaimedMisses(h: seq<Step>, k: int, p: Call)
    requires |h| > 1 && k > 0 && Legit(h, k)
    requires p in Unclaimed(Run(h[..|h| - 1]).value, h[|h| - 1].next)
    ensures DistinctIds(Run(h[..|h| - 1]).value) && LifeOk(p, k)
    ensures Misses(h, p.id) == p.life.missing + (if Looked(h[|h| - 1].opts, p) then 1 else 0)
  {
    var init, s := h[..|h| - 1], h[|h| - 1];
    var prev := Run(init).value;
    assert Legit(init, k);
    RunLife(init, k);
    LeftFrom(prev, Taken(prev, Hits(prev, s.next)));
    FindOnly(prev, p);
    UnclaimedIds(prev, s.next);
    assert p.id in IdSet(Unclaimed(prev, s.next));
  }

  /**
   A record that the scan leaves unclaimed is dropped exactly when this is its miss k + 1; one the
   scan did not look for stays as it was.
   */
  lemma DroppedAtMissKPlusOne(h: seq<Step>, k: int, p: Call)
    requires |h| > 1 && k > 0 && Legit(h, k)
    requires p in Unclaimed(Run(h[..|h| - 1]).value, h[|h| - 1].next)
    ensures p.id in IdSet(Run(h).value) <==> Misses(h, p.id) <= k
    ensures p.id !in IdSet(Run(h).value) ==> Misses(h, p.id) == k + 1
    ensures !Looked(h[|h| - 1].opts, p) ==> p in Run(h).value
  {
    var s := h[|h| - 1];
    var prev := Run(h[..|h| - 1]).value;
    assert Run(h).value == SortCalls(MergedCalls(Some(prev), s.next, s.scan, s.opts));
    assert s.opts.prune == k;
    hide Run, Misses, MergedCalls, SortCalls, Unclaimed, Legit, IdSet;
    UnclaimedMisses(h, k, p);
    UnclaimedFate(prev, s.next, s.scan, s.opts, p);
  }

  lemma RestKeepsId(p: Call, opts: Options, scan: Scan, r: Call)
    requires Rest(p, opts, scan) == [r]
    ensures r.id == p.id
  {
    assert r in Rest(p, opts, scan);
  }

  /** The only merged record under an unclaimed record's ID is what is left of it. */
  lemma UnclaimedStays(prev: seq<Call>, next: seq<Call>, scan: Scan, opts: Options, p: Call, r: Call)
    requires DistinctIds(prev) && p in Unclaimed(prev, next) && r.id == p.id
    requires r in SortCalls(MergedCalls(Some(prev), next, scan, opts))
    ensures Rest(p, opts, scan) == [r]
  {
    hide MergedCalls, FromScan, Rest, Hits, Taken, Left;
    var left := Unclaimed(prev, next);
    MergedMember(prev, next, scan, opts, r);
    UnclaimedIds(prev, next);
    assert p.id in IdSet(left);
    if FromScan(prev, next, scan, r) {
      FromScanFacts(prev, next, scan, r);
      assert false;
    }
    var q :| 0 <= q < |left| && Rest(left[q], opts, scan) == [r];
    LeftFrom(prev, Taken(prev, Hits(prev, next)));
    var at :| 0 <= at < |left| && left[at] == p;
    RestKeepsId(left[q], opts, scan, r);
    assert Id(left[q]) == Id(left[at]);
  }
}
