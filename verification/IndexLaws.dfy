/**
 What one scan makes of the index (internal/index/merge.go), record by record: which stored record
 a call continues, what the merged index then says of it, what stays of the others, and what the
 report lists and counts.
 */
module IndexLaws {
  import opened Strs
  import opened Sorting
  import opened Calls
  import opened Merge
  import opened MergeLaws

  // ----- which record a call continues

  /** The stored records of the call's target that no earlier call took, in its file or anywhere. */
  function Candidates(prev: seq<Call>, c: Call, taken: set<string>, sameFile: bool): set<nat> {
    set p: nat | p < |prev| && prev[p].fingerprint == c.fingerprint && prev[p].id !in taken
                 && (sameFile ==> prev[p].file == c.file)
  }

  /** The call's own record is stored, and still free. */
  predicate OwnIsFree(prev: seq<Call>, c: Call, taken: set<string>) {
    c.id !in taken && exists p :: 0 <= p < |prev| && prev[p].id == c.id
  }

  lemma {:induction false} GroupIs(prev: seq<Call>, file: Option<string>, fp: string)
    ensures forall p: int :: p in Group(prev, file, fp) <==>
                             0 <= p < |prev| && prev[p].fingerprint == fp && (file.None? || prev[p].file == file.value)
    ensures forall i, j :: 0 <= i < j < |Group(prev, file, fp)| ==> Group(prev, file, fp)[i] != Group(prev, file, fp)[j]
  {
    if prev != [] {
      var n := |prev| - 1;
      GroupIs(prev[..n], file, fp);
    }
  }

  lemma {:induction false} UnmatchedIs(prev: seq<Call>, at: seq<int>, taken: set<string>)
    requires forall k :: 0 <= k < |at| ==> 0 <= at[k] < |prev|
    requires forall i, j :: 0 <= i < j < |at| ==> at[i] != at[j]
    ensures var r := Unmatched(prev, at, taken);
            && (forall p: int :: p in r <==> p in at && 0 <= p < |prev| && prev[p].id !in taken)
            && forall i, j :: 0 <= i < j < |r| ==> r[i] != r[j]
  {
    if at != [] {
      var n := |at| - 1;
      UnmatchedIs(prev, at[..n], taken);
      var before := Unmatched(prev, at[..n], taken);
      assert at == at[..n] + [at[n]];
      forall i | 0 <= i < |before| ensures before[i] != at[n] {
        assert before[i] in before;
        assert before[i] in at[..n];
        var k :| 0 <= k < n && at[..n][k] == before[i];
      }
    }
  }

  lemma SizeOf(r: seq<int>, s: set<nat>)
    requires forall p: int :: p in r <==> p in s
    requires forall i, j :: 0 <= i < j < |r| ==> r[i] != r[j]
    ensures |r| == |s|
    decreases |r|
  {
    if r == [] {
      assert s == {};
    } else {
      var n := |r| - 1;
      assert r == r[..n] + [r[n]];
      assert r[n] in r;
      SizeOf(r[..n], s - {r[n]});
    }
  }

  lemma TierIs(prev: seq<Call>, c: Call, taken: set<string>, sameFile: bool)
    ensures var file := if sameFile then Some(c.file) else None;
            var r := Unmatched(prev, Group(prev, file, c.fingerprint), taken);
            && |r| == |Candidates(prev, c, taken, sameFile)|
            && (forall p: int :: p in r <==> p in Candidates(prev, c, taken, sameFile))
  {
    var file := if sameFile then Some(c.file) else None;
    GroupIs(prev, file, c.fingerprint);
    UnmatchedIs(prev, Group(prev, file, c.fingerprint), taken);
    SizeOf(Unmatched(prev, Group(prev, file, c.fingerprint), taken), Candidates(prev, c, taken, sameFile));
  }

  lemma FindPrevMeans(c: Call, prev: seq<Call>, taken: set<string>)
    ensures var h := FindPrev(c, prev, taken);
            var near, far := Candidates(prev, c, taken, true), Candidates(prev, c, taken, false);
            if OwnIsFree(prev, c, taken) then h.Some? && h.value.how == Exact && prev[h.value.at].id == c.id
            else if |near| == 1 then h.Some? && h.value.how == SameFile && h.value.at in near
            else if |far| == 1 then h.Some? && h.value.how == RenamedFile && h.value.at in far
            else h == None
  {
    TierIs(prev, c, taken, true);
    TierIs(prev, c, taken, false);
  }

  /** The IDs of the records that the calls before the `i`-th one continue. */
  function TakenBefore(prev: seq<Call>, next: seq<Call>, i: nat): set<string>
    requires i <= |next|
  {
    set j: nat | j < i && Hits(prev, next)[j].Some? :: prev[Hits(prev, next)[j].value.at].id
  }

  /**
   The calls are matched in order, each after the earlier ones took their records: by its own ID,
   else by a sole free record of its target in its file, else by a sole free one anywhere, else not.
   */
  lemma MatchRule(prev: seq<Call>, next: seq<Call>, i: nat)
    requires i < |next|
    ensures var h := Hits(prev, next)[i];
            var taken := TakenBefore(prev, next, i);
            var near, far := Candidates(prev, next[i], taken, true), Candidates(prev, next[i], taken, false);
            if OwnIsFree(prev, next[i], taken) then h.Some? && h.value.how == Exact && prev[h.value.at].id == next[i].id
            else if |near| == 1 then h.Some? && h.value.how == SameFile && h.value.at in near
            else if |far| == 1 then h.Some? && h.value.how == RenamedFile && h.value.at in far
            else h == None
  {
    TakenIs(prev, next, i);
    hide Hits, FindPrev, Taken, OwnIsFree, Candidates, TakenBefore;
    HitsPrefix(prev, next, i);
    FindPrevMeans(next[i], prev, Taken(prev, Hits(prev, next[..i])));
  }

  lemma TakenIs(prev: seq<Call>, next: seq<Call>, i: nat)
    requires i < |next|
    ensures Taken(prev, Hits(prev, next[..i])) == TakenBefore(prev, next, i)
  {
    hide FindPrev;
    HitsPrefix(prev, next, i);
    var hs, all := Hits(prev, next[..i]), Hits(prev, next);
    hide Hits;
    forall j: nat | j < i ensures all[j] == hs[j] { assert all[..i][j] == hs[j]; }
  }

  // ----- what the merged index says of each record

  /** The scan's record, with a life that says it has just been seen. */
  predicate JustSeen(c: Call, scan: Scan, r: Call) {
    && r == c.(life := r.life)
    && r.life.status == Active && r.life.missing == 0
    && r.life.lastScan == scan.id && r.life.lastCommit == scan.commit
  }

  /** First scan and commit are the stored ones, where there are any, or else this scan's. */
  predicate BirthKept(was: Lifecycle, scan: Scan, r: Lifecycle) {
    && (was.firstScan != "" ==> r.firstScan == was.firstScan) && (was.firstScan == "" ==> r.firstScan == scan.id)
    && (was.firstCommit != "" ==> r.firstCommit == was.firstCommit)
    && (was.firstCommit == "" ==> r.firstCommit == scan.commit)
  }

  predicate BornNow(scan: Scan, r: Lifecycle) {
    r.firstScan == scan.id && r.firstCommit == scan.commit
  }

  /** The scan looked where the record is; only a filtered scan may not have. */
  predicate CouldSee(opts: Options, p: Call) {
    opts.partial ==> match opts.scope case None => true case Some(inScope) => inScope(p)
  }

  /** The stored record, one scan longer unseen if the scan could have seen it. */
  predicate NotSeen(p: Call, opts: Options, scan: Scan, r: Call) {
    && r == p.(life := r.life)
    && (!CouldSee(opts, p) ==> r == p)
    && (CouldSee(opts, p) ==>
          && r.life.missing == p.life.missing + 1 && r.life.status == Removed
          && !(opts.prune > 0 && r.life.missing > opts.prune)
          && (p.life.lastScan != "" ==> r.life.lastScan == p.life.lastScan)
          && (p.life.lastScan == "" ==> r.life.lastScan == scan.id)
          && r.life == p.life.(missing := r.life.missing, status := r.life.status, lastScan := r.life.lastScan))
  }

  ghost function Merged(prev: seq<Call>, next: seq<Call>, scan: Scan, opts: Options): seq<Call> {
    SortCalls(MergedCalls(Some(prev), next, scan, opts))
  }

  /** Every call of the scan is in the merged index as the scan found it, with its record's birth. */
  lemma ScanIsAuthority(prev: seq<Call>, next: seq<Call>, scan: Scan, opts: Options, i: nat) returns (r: Call)
    requires i < |next|
    ensures r in Merged(prev, next, scan, opts) && JustSeen(next[i], scan, r)
    ensures Hits(prev, next)[i].None? ==> BornNow(scan, r.life)
    ensures Hits(prev, next)[i].Some? ==> BirthKept(prev[Hits(prev, next)[i].value.at].life, scan, r.life)
  {
    SortMembers(CanonicalLess, MergedCalls(Some(prev), next, scan, opts));
    SeenAllIds(prev, next, scan);
    r := SeenAll(prev, next, scan)[i];
    hide SeenAll, Hits, RestAll, StableSort;
    assert r in MergedCalls(Some(prev), next, scan, opts);
  }

  lemma {:induction false} LeftMembers(prev: seq<Call>, taken: set<string>)
    ensures forall c :: c in Left(prev, taken) <==> c in prev && c.id !in taken
  {
    if prev != [] {
      LeftMembers(prev[..|prev| - 1], taken);
      assert prev == prev[..|prev| - 1] + [prev[|prev| - 1]];
    }
  }

  lemma RestMeans(p: Call, opts: Options, scan: Scan, r: Call)
    ensures r in Rest(p, opts, scan) <==> NotSeen(p, opts, scan, r)
  {
  }

  lemma {:induction false} RestMembers(left: seq<Call>, opts: Options, scan: Scan, r: Call)
    ensures r in RestAll(left, opts, scan) <==> exists p :: p in left && NotSeen(p, opts, scan, r)
  {
    if left != [] {
      hide NotSeen, Rest;
      var n := |left| - 1;
      RestMembers(left[..n], opts, scan, r);
      RestMeans(left[n], opts, scan, r);
      assert left == left[..n] + [left[n]];
    }
  }

  /** The record `p` stays unclaimed: no call of the scan continues it. */
  ghost predicate Unseen(prev: seq<Call>, next: seq<Call>, p: Call) {
    p in prev && forall i :: 0 <= i < |next| && Hits(prev, next)[i].Some? ==>
                               prev[Hits(prev, next)[i].value.at].id != p.id
  }

  lemma UnclaimedMeans(prev: seq<Call>, next: seq<Call>, p: Call)
    ensures p in Unclaimed(prev, next) <==> Unseen(prev, next, p)
    ensures Unseen(prev, next, p) ==> forall i :: 0 <= i < |next| ==> next[i].id != p.id
  {
    LeftMembers(prev, Taken(prev, Hits(prev, next)));
    hide Hits;
    if Unseen(prev, next, p) {
      var k :| 0 <= k < |prev| && prev[k] == p;
      forall i | 0 <= i < |next| ensures next[i].id != p.id { UnclaimedForeign(prev, next, k, i); }
    }
  }

  /** And nothing else is there but what is left of records that no call continues. */
  lemma MergedHolds(prev: seq<Call>, next: seq<Call>, scan: Scan, opts: Options, r: Call)
    ensures r in Merged(prev, next, scan, opts) ==>
              || (exists i :: 0 <= i < |next| && JustSeen(next[i], scan, r))
              || (exists p :: Unseen(prev, next, p) && NotSeen(p, opts, scan, r)
                              && forall i :: 0 <= i < |next| ==> next[i].id != p.id)
    ensures (exists p :: Unseen(prev, next, p) && NotSeen(p, opts, scan, r)) ==> r in Merged(prev, next, scan, opts)
  {
    var left, all := Unclaimed(prev, next), MergedCalls(Some(prev), next, scan, opts);
    SortMembers(CanonicalLess, all);
    SeenAllIds(prev, next, scan);
    RestMembers(left, opts, scan, r);
    forall p ensures p in left <==> Unseen(prev, next, p) { UnclaimedMeans(prev, next, p); }
    hide RestAll, Hits, StableSort, NotSeen, Unseen;
    assert r in all <==> r in SeenAll(prev, next, scan) || r in RestAll(left, opts, scan);
    if r in SeenAll(prev, next, scan) {
      var i :| 0 <= i < |next| && SeenAll(prev, next, scan)[i] == r;
      assert JustSeen(next[i], scan, r);
    } else if r in all {
      var p :| p in left && NotSeen(p, opts, scan, r);
      UnclaimedMeans(prev, next, p);
    }
  }

  /** A first scan stores its calls as it found them. */
  lemma FirstScanHolds(next: seq<Call>, scan: Scan, opts: Options, r: Call)
    ensures r in SortCalls(MergedCalls(None, next, scan, opts))
       <==> exists i :: 0 <= i < |next| && JustSeen(next[i], scan, r) && BornNow(scan, r.life)
  {
    SortMembers(CanonicalLess, SeenAll([], next, scan));
    SeenAllIds([], next, scan);
    NothingBefore(next);
    hide Hits, StableSort, SeenAll;
    if i :| 0 <= i < |next| && JustSeen(next[i], scan, r) && BornNow(scan, r.life) {
      assert SeenAll([], next, scan)[i] == r;
    }
  }

  // ----- what the report lists and counts

  /** The `i`-th call is new, or continues a record that was removed, that moved, or that is as it was. */
  predicate Is(prev: seq<Call>, c: Call, h: Option<Hit>, x: Class)
    requires h.Some? ==> h.value.at < |prev|
  {
    match x
    case IsAdded => h == None
    case IsRestored => h.Some? && prev[h.value.at].life.status == Removed
    case IsUpdated => h.Some? && prev[h.value.at].life.status == Active
                      && (h.value.how != Exact || prev[h.value.at].line != c.line)
    case IsUnchanged => h.Some? && prev[h.value.at].life.status == Active
                        && h.value.how == Exact && prev[h.value.at].line == c.line
  }

  /** The calls, among the first `n`, of one class. */
  ghost function Those(prev: seq<Call>, next: seq<Call>, n: nat, x: Class): set<nat>
    requires n <= |next|
  {
    set i: nat | i < n && Is(prev, next[i], Hits(prev, next)[i], x)
  }

  /** What one more call adds to what the report collects. */
  lemma OneMore(prev: seq<Call>, next: seq<Call>, i: nat)
    requires i < |next|
    ensures var h := Hits(prev, next)[i];
            && TallyAll(prev, next[..i + 1]) == Bump(TallyAll(prev, next[..i]), ClassOf(prev, next[i], h))
            && AddedIds(prev, next[..i + 1]) == AddedIds(prev, next[..i]) + (if h.None? then [next[i].id] else [])
            && MovedAll(prev, next[..i + 1]) == MovedAll(prev, next[..i]) + Moved(prev, next[i], h)
  {
    hide Hits, FindPrev, Taken, TallyAll, AddedIds, MovedAll, Bump, ClassOf, Moved;
    HitsPrefix(prev, next, i);
    ExtendSeen(prev, next, i, Scan("", ""));
  }

  lemma ThoseMore(prev: seq<Call>, next: seq<Call>, i: nat, x: Class)
    requires i < |next|
    ensures |Those(prev, next, i + 1, x)|
         == |Those(prev, next, i, x)| + (if Is(prev, next[i], Hits(prev, next)[i], x) then 1 else 0)
  {
    hide Hits, Is;
    assert Those(prev, next, i + 1, x)
        == Those(prev, next, i, x) + (if Is(prev, next[i], Hits(prev, next)[i], x) then {i} else {});
  }

  lemma IsClass(prev: seq<Call>, c: Call, h: Option<Hit>, x: Class)
    requires h.Some? ==> h.value.at < |prev|
    ensures Is(prev, c, h, x) <==> x == ClassOf(prev, c, h)
  {
  }

  ghost function TallyOf(prev: seq<Call>, next: seq<Call>, n: nat): Tally
    requires n <= |next|
  {
    Tally(|Those(prev, next, n, IsAdded)|, |Those(prev, next, n, IsRestored)|,
          |Those(prev, next, n, IsUpdated)|, |Those(prev, next, n, IsUnchanged)|)
  }

  lemma TallyStep(prev: seq<Call>, next: seq<Call>, i: nat)
    requires i < |next|
    ensures TallyOf(prev, next, i + 1) == Bump(TallyOf(prev, next, i), ClassOf(prev, next[i], Hits(prev, next)[i]))
  {
    hide Hits, Is, Those, ClassOf;
    forall x: Class
      ensures |Those(prev, next, i + 1, x)|
           == |Those(prev, next, i, x)| + (if x == ClassOf(prev, next[i], Hits(prev, next)[i]) then 1 else 0)
    {
      ThoseMore(prev, next, i, x);
      IsClass(prev, next[i], Hits(prev, next)[i], x);
    }
  }

  lemma {:induction false} TallyUpTo(prev: seq<Call>, next: seq<Call>, n: nat)
    requires n <= |next|
    ensures TallyAll(prev, next[..n]) == TallyOf(prev, next, n)
  {
    if n > 0 {
      TallyUpTo(prev, next, n - 1);
      hide TallyAll, TallyOf, Hits, Bump, ClassOf;
      OneMore(prev, next, n - 1);
      TallyStep(prev, next, n - 1);
    } else {
      assert forall x :: Those(prev, next, 0, x) == {};
    }
  }

  /** The counters over the scan count its calls by class. */
  lemma CountsAreClasses(prev: seq<Call>, next: seq<Call>, opts: Options)
    ensures var r := MergeReport(Some(prev), next, opts);
            var n := |next|;
            && r.added == |Those(prev, next, n, IsAdded)| && r.restored == |Those(prev, next, n, IsRestored)|
            && r.updated == |Those(prev, next, n, IsUpdated)| && r.kept == |Those(prev, next, n, IsUnchanged)|
  {
    TallyUpTo(prev, next, |next|);
    assert next[..|next|] == next;
  }

  /** The call's file or line is another one than in its record. */
  predicate Relocates(prev: seq<Call>, next: seq<Call>, i: nat, m: Relocation)
    requires i < |next|
  {
    match Hits(prev, next)[i]
    case None => false
    case Some(h) =>
      && (prev[h.at].file != next[i].file || prev[h.at].line != next[i].line)
      && m == Relocation(next[i].id, prev[h.at].file, next[i].file, prev[h.at].line, next[i].line)
  }

  lemma MovedIs(prev: seq<Call>, next: seq<Call>, i: nat, m: Relocation)
    requires i < |next|
    ensures m in Moved(prev, next[i], Hits(prev, next)[i]) <==> Relocates(prev, next, i, m)
  {
    hide Hits;
  }

  ghost predicate IsMove(prev: seq<Call>, next: seq<Call>, n: nat, m: Relocation)
    requires n <= |next|
  {
    exists i :: 0 <= i < n && Relocates(prev, next, i, m)
  }

  ghost predicate IsNew(prev: seq<Call>, next: seq<Call>, n: nat, id: string)
    requires n <= |next|
  {
    exists i :: 0 <= i < n && Hits(prev, next)[i].None? && next[i].id == id
  }

  lemma OneMoreMove(prev: seq<Call>, next: seq<Call>, i: nat, m: Relocation, id: string)
    requires i < |next|
    ensures IsMove(prev, next, i + 1, m) <==> IsMove(prev, next, i, m) || Relocates(prev, next, i, m)
    ensures IsNew(prev, next, i + 1, id) <==> IsNew(prev, next, i, id) || (Hits(prev, next)[i].None? && next[i].id == id)
  {
    hide Hits, Relocates;
  }

  lemma NothingListed(prev: seq<Call>, next: seq<Call>)
    ensures AddedIds(prev, next[..0]) == [] && MovedAll(prev, next[..0]) == [] && Those(prev, next, 0, IsAdded) == {}
  {
    assert next[..0] == [];
  }

  lemma {:induction false} ListedUpTo(prev: seq<Call>, next: seq<Call>, n: nat, m: Relocation, id: string)
    requires n <= |next|
    ensures m in MovedAll(prev, next[..n]) <==> IsMove(prev, next, n, m)
    ensures id in AddedIds(prev, next[..n]) <==> IsNew(prev, next, n, id)
    ensures |AddedIds(prev, next[..n])| == |Those(prev, next, n, IsAdded)|
  {
    hide MovedAll, AddedIds, Moved, Hits, Relocates, Those, TallyAll;
    if n == 0 {
      NothingListed(prev, next);
    } else {
      ListedUpTo(prev, next, n - 1, m, id);
      hide IsMove, IsNew;
      OneMoreMove(prev, next, n - 1, m, id);
      OneMore(prev, next, n - 1);
      MovedIs(prev, next, n - 1, m);
      ThoseMore(prev, next, n - 1, IsAdded);
    }
  }

  /** The report lists the IDs of the new calls, in order. */
  lemma ReportListsAdded(prev: seq<Call>, next: seq<Call>, opts: Options)
    ensures var r := MergeReport(Some(prev), next, opts);
            && (forall id :: id in r.addedIds <==> IsNew(prev, next, |next|, id))
            && |r.addedIds| == r.added && Sorted(LexLess, r.addedIds)
  {
    var ids, none := AddedIds(prev, next), Relocation("", "", "", 0, 0);
    assert next[..|next|] == next;
    forall id ensures id in ids <==> IsNew(prev, next, |next|, id) { ListedUpTo(prev, next, |next|, none, id); }
    ListedUpTo(prev, next, |next|, none, "");
    CountsAreClasses(prev, next, opts);
    LexOrder();
    SortMembers(LexLess, ids);
    SortMultiset(LexLess, ids);
    SortSorted(LexLess, ids);
    hide AddedIds, Hits, TallyAll, Unclaimed, StableSort, IsNew, Those, MovedAll;
  }

  /** And every move of a call, from where to where, by ID. */
  lemma ReportListsMoves(prev: seq<Call>, next: seq<Call>, opts: Options)
    ensures var r := MergeReport(Some(prev), next, opts);
            && (forall m :: m in r.relocated <==> IsMove(prev, next, |next|, m))
            && forall j, k :: 0 <= j < k < |r.relocated| ==>
                 r.relocated[j].id == r.relocated[k].id || LexLess(r.relocated[j].id, r.relocated[k].id)
  {
    var moves := MovedAll(prev, next);
    assert next[..|next|] == next;
    forall m ensures m in moves <==> IsMove(prev, next, |next|, m) { ListedUpTo(prev, next, |next|, m, ""); }
    LexOrder();
    assert StrictWeak(RelocationLess);
    SortMembers(RelocationLess, moves);
    SortSorted(RelocationLess, moves);
    hide AddedIds, Hits, TallyAll, Unclaimed, StableSort, IsMove, MovedAll;
    var r := MergeReport(Some(prev), next, opts);
    forall j, k | 0 <= j < k < |r.relocated|
      ensures r.relocated[j].id == r.relocated[k].id || LexLess(r.relocated[j].id, r.relocated[k].id)
    {
      assert !RelocationLess(r.relocated[k], r.relocated[j]);
      LexTotal(r.relocated[j].id, r.relocated[k].id);
    }
  }

  /** The record of a scan that could have seen it is dropped, after more misses than `prune` allows. */
  predicate DropsNow(p: Call, opts: Options) {
    CouldSee(opts, p) && opts.prune > 0 && p.life.missing >= opts.prune
  }

  predicate Ends(p: Call, opts: Options, x: Fate) {
    match x
    case IsCarried => !CouldSee(opts, p)
    case IsPruned => DropsNow(p, opts)
    case IsRemoved => CouldSee(opts, p) && !DropsNow(p, opts)
  }

  /** The positions, among the first `n`, of the records free of `taken` that end so. */
  ghost function Ending(prev: seq<Call>, n: nat, taken: set<string>, opts: Options, x: Fate): set<nat>
    requires n <= |prev|
  {
    set p: nat | p < n && prev[p].id !in taken && Ends(prev[p], opts, x)
  }

  ghost predicate RemovedAmong(prev: seq<Call>, n: nat, taken: set<string>, opts: Options, id: string)
    requires n <= |prev|
  {
    exists p :: 0 <= p < n && prev[p].id == id && id !in taken && Ends(prev[p], opts, IsRemoved)
  }

  lemma EndsIs(p: Call, opts: Options, x: Fate)
    ensures Ends(p, opts, x) <==> x == FateOf(p, opts)
  {
  }

  lemma EndingMore(prev: seq<Call>, n: nat, taken: set<string>, opts: Options, x: Fate)
    requires n < |prev|
    ensures |Ending(prev, n + 1, taken, opts, x)|
         == |Ending(prev, n, taken, opts, x)| + (if prev[n].id !in taken && Ends(prev[n], opts, x) then 1 else 0)
  {
    hide Ends;
    assert Ending(prev, n + 1, taken, opts, x)
        == Ending(prev, n, taken, opts, x) + (if prev[n].id !in taken && Ends(prev[n], opts, x) then {n} else {});
  }

  lemma RemovedMore(prev: seq<Call>, n: nat, taken: set<string>, opts: Options, id: string)
    requires n < |prev|
    ensures RemovedAmong(prev, n + 1, taken, opts, id)
       <==> RemovedAmong(prev, n, taken, opts, id)
            || (prev[n].id == id && id !in taken && Ends(prev[n], opts, IsRemoved))
  {
    hide Ends;
  }

  lemma NothingEnds(prev: seq<Call>, taken: set<string>, opts: Options, x: Fate)
    ensures Left(prev[..0], taken) == [] && CountFate([], opts, x) == 0 && RemovedIds([], opts) == []
    ensures Ending(prev, 0, taken, opts, x) == {}
  {
    assert prev[..0] == [];
  }

  lemma {:induction false} EndingUpTo(prev: seq<Call>, n: nat, taken: set<string>, opts: Options, x: Fate, id: string)
    requires n <= |prev|
    ensures CountFate(Left(prev[..n], taken), opts, x) == |Ending(prev, n, taken, opts, x)|
    ensures id in RemovedIds(Left(prev[..n], taken), opts) <==> RemovedAmong(prev, n, taken, opts, id)
  {
    hide Left, CountFate, RemovedIds, Ending, Ends, FateOf, RestAll;
    if n == 0 {
      NothingEnds(prev, taken, opts, x);
    } else {
      EndingUpTo(prev, n - 1, taken, opts, x, id);
      hide RemovedAmong;
      EndingMore(prev, n - 1, taken, opts, x);
      RemovedMore(prev, n - 1, taken, opts, id);
      LeftMore(prev, n - 1, taken);
      EndsIs(prev[n - 1], opts, x);
      EndsIs(prev[n - 1], opts, IsRemoved);
      ExtendLeft(Left(prev[..n - 1], taken), prev[n - 1], opts, Scan("", ""));
    }
  }

  /** What the report says of the records that no call continues. */
  lemma RestIsCounted(prev: seq<Call>, next: seq<Call>, opts: Options)
    ensures var r := MergeReport(Some(prev), next, opts);
            var n, taken := |prev|, TakenBefore(prev, next, |next|);
            && r.carried == |Ending(prev, n, taken, opts, IsCarried)|
            && r.pruned == |Ending(prev, n, taken, opts, IsPruned)|
            && r.removed == |Ending(prev, n, taken, opts, IsRemoved)|
            && (forall id :: id in r.removedIds <==> RemovedAmong(prev, n, taken, opts, id))
            && Sorted(LexLess, r.removedIds)
  {
    var taken := TakenBefore(prev, next, |next|);
    assert taken == Taken(prev, Hits(prev, next));
    assert prev[..|prev|] == prev;
    EndingUpTo(prev, |prev|, taken, opts, IsCarried, "");
    EndingUpTo(prev, |prev|, taken, opts, IsPruned, "");
    var ids := RemovedIds(Unclaimed(prev, next), opts);
    forall id ensures id in ids <==> RemovedAmong(prev, |prev|, taken, opts, id) {
      EndingUpTo(prev, |prev|, taken, opts, IsRemoved, id);
    }
    EndingUpTo(prev, |prev|, taken, opts, IsRemoved, "");
    SortMembers(LexLess, ids);
    LexOrder();
    SortSorted(LexLess, ids);
    hide Hits, Left, CountFate, RemovedIds, Ending, RemovedAmong, StableSort, AddedIds, MovedAll, TallyAll, TakenBefore;
  }

  ghost predicate Vain(prev: seq<Call>, next: seq<Call>, opts: Options, p: nat)
    requires p < |prev|
  {
    prev[p].id !in TakenBefore(prev, next, |next|) && CouldSee(opts, prev[p])
  }

  lemma VainIsCounted(prev: seq<Call>, next: seq<Call>, opts: Options)
    ensures var r := MergeReport(Some(prev), next, opts);
            r.pruned + r.removed > 0 <==> exists p :: 0 <= p < |prev| && Vain(prev, next, opts, p)
  {
    RestIsCounted(prev, next, opts);
    var r, n, taken := MergeReport(Some(prev), next, opts), |prev|, TakenBefore(prev, next, |next|);
    hide MergeReport, TakenBefore, CouldSee, RemovedAmong;
    var c, d := Ending(prev, n, taken, opts, IsPruned), Ending(prev, n, taken, opts, IsRemoved);
    if p :| 0 <= p < |prev| && Vain(prev, next, opts, p) { assert p in c || p in d; }
    if p :| p in c + d { assert Vain(prev, next, opts, p); }
    assert c + d == {} ==> c == {} && d == {};
  }

  lemma DriftIsCounted(prev: seq<Call>, next: seq<Call>, opts: Options)
    ensures var r := MergeReport(Some(prev), next, opts);
            r.added > 0 || r.restored > 0 || |r.relocated| > 0 <==> exists i :: 0 <= i < |next| && Drifts(prev, next, i)
  {
    CountsAreClasses(prev, next, opts);
    ReportListsMoves(prev, next, opts);
    var r := MergeReport(Some(prev), next, opts);
    hide MergeReport, Hits;
    var a, b := Those(prev, next, |next|, IsAdded), Those(prev, next, |next|, IsRestored);
    if i :| 0 <= i < |next| && Drifts(prev, next, i) { DriftShows(prev, next, i, r.relocated); }
    if i :| i in a + b { assert Drifts(prev, next, i); }
    assert a + b == {} ==> a == {} && b == {};
    if |r.relocated| > 0 {
      assert r.relocated[0] in r.relocated;
      var i :| 0 <= i < |next| && Relocates(prev, next, i, r.relocated[0]);
      assert Drifts(prev, next, i);
    }
  }

  /**
   The drift gate: a scan reports a change exactly when some call is new, stands elsewhere than in
   its record or brings a removed record back, or some record was looked for in vain.
   */
  lemma ChangedIff(prev: seq<Call>, next: seq<Call>, opts: Options)
    ensures MergeReport(Some(prev), next, opts).Changed()
       <==> || (exists i :: 0 <= i < |next| && Drifts(prev, next, i))
            || (exists p :: 0 <= p < |prev| && Vain(prev, next, opts, p))
  {
    hide MergeReport, Drifts, Vain;
    DriftIsCounted(prev, next, opts);
    VainIsCounted(prev, next, opts);
  }

  predicate Drifts(prev: seq<Call>, next: seq<Call>, i: nat)
    requires i < |next|
  {
    match Hits(prev, next)[i]
    case None => true
    case Some(h) => prev[h.at].life.status == Removed || prev[h.at].file != next[i].file || prev[h.at].line != next[i].line
  }

  lemma DriftShows(prev: seq<Call>, next: seq<Call>, i: nat, moves: seq<Relocation>)
    requires i < |next| && Drifts(prev, next, i)
    requires forall m :: m in moves <==> IsMove(prev, next, |next|, m)
    ensures i in Those(prev, next, |next|, IsAdded) || i in Those(prev, next, |next|, IsRestored) || moves != []
  {
    hide Hits;
    match Hits(prev, next)[i] {
      case None =>
      case Some(h) =>
        var m := Relocation(next[i].id, prev[h.at].file, next[i].file, prev[h.at].line, next[i].line);
        assert Relocates(prev, next, i, m) ==> m in moves;
    }
  }

  // ----- the order of the index

  /** The merged index goes by file, line and column. */
  lemma IndexGoesByPlace(prev: Option<seq<Call>>, next: seq<Call>, scan: Scan, opts: Options, i: nat, j: nat)
    requires i < j < |SortCalls(MergedCalls(prev, next, scan, opts))|
    ensures var r := SortCalls(MergedCalls(prev, next, scan, opts));
            || LexLess(r[i].file, r[j].file)
            || (r[i].file == r[j].file
                && (r[i].line < r[j].line || (r[i].line == r[j].line && r[i].column <= r[j].column)))
  {
    PlaceOrder();
    SortAscending(CanonicalLess, NoLater, MergedCalls(prev, next, scan, opts));
    hide StableSort, MergedCalls;
  }
}
