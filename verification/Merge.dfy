/** Folding a fresh scan into the index (internal/index/merge.go). */
module Merge {
  import opened Strs
  import opened Sorting
  import opened Calls

  datatype Scan = Scan(id: string, commit: string)

  /** `scope` says whether a partial scan looked where a known call is; it may be absent. */
  datatype Options = Options(prune: int, partial: bool, scope: Option<Call -> bool>)

  datatype Relocation = Relocation(id: string, oldFile: string, newFile: string, oldLine: int, newLine: int)

  datatype Report = Report(added: nat, updated: nat, kept: nat, removed: nat, restored: nat, pruned: nat,
                           carried: nat, addedIds: seq<string>, removedIds: seq<string>,
                           relocated: seq<Relocation>)
  {
    /** The drift gate of a check in continuous integration. */
    predicate Changed() {
      added > 0 || removed > 0 || restored > 0 || pruned > 0 || |relocated| > 0
    }
  }

  // ----- matching

  datatype How = Exact | SameFile | RenamedFile

  /** The previous record a call continues, by position, and how it was found. */
  datatype Hit = Hit(at: nat, how: How)

  /** The position the ID map holds: the last record with that ID, or -1. */
  function FindId(prev: seq<Call>, id: string): (i: int)
    ensures -1 <= i < |prev|
    ensures i >= 0 ==> prev[i].id == id
    ensures i < 0 ==> forall k :: 0 <= k < |prev| ==> prev[k].id != id
  {
    if prev == [] then -1
    else if prev[|prev| - 1].id == id then |prev| - 1
    else FindId(prev[..|prev| - 1], id)
  }

  /** The positions of the records with this target, in this file if one is given, in order. */
  function Group(prev: seq<Call>, file: Option<string>, fp: string): (r: seq<int>)
    ensures forall k :: 0 <= k < |r| ==> 0 <= r[k] < |prev| && prev[r[k]].fingerprint == fp
                                         && (file.Some? ==> prev[r[k]].file == file.value)
  {
    if prev == [] then []
    else
      var n := |prev| - 1;
      Group(prev[..n], file, fp)
      + (if prev[n].fingerprint == fp && (file.None? || prev[n].file == file.value) then [n] else [])
  }

  function Unmatched(prev: seq<Call>, at: seq<int>, matched: set<string>): (r: seq<int>)
    requires forall k :: 0 <= k < |at| ==> 0 <= at[k] < |prev|
    ensures forall k :: 0 <= k < |r| ==> r[k] in at && prev[r[k]].id !in matched
  {
    if at == [] then []
    else
      var n := |at| - 1;
      Unmatched(prev, at[..n], matched) + (if prev[at[n]].id in matched then [] else [at[n]])
  }

  /** findPrev: the narrowest tier that yields a record; the fingerprint tiers need a sole candidate. */
  function FindPrev(c: Call, prev: seq<Call>, matched: set<string>): (h: Option<Hit>)
    ensures h.Some? ==> h.value.at < |prev| && prev[h.value.at].id !in matched
    ensures h.Some? && h.value.how == Exact ==> prev[h.value.at].id == c.id
    ensures h.Some? && h.value.how != Exact ==> prev[h.value.at].fingerprint == c.fingerprint
    ensures h.Some? && h.value.how == SameFile ==> prev[h.value.at].file == c.file
  {
    var i := FindId(prev, c.id);
    if i >= 0 && c.id !in matched then Some(Hit(i, Exact))
    else
      var near := Unmatched(prev, Group(prev, Some(c.file), c.fingerprint), matched);
      if |near| == 1 then assert near[0] in near; Some(Hit(near[0], SameFile))
      else
        var far := Unmatched(prev, Group(prev, None, c.fingerprint), matched);
        if |far| == 1 then assert far[0] in far; Some(Hit(far[0], RenamedFile)) else None
  }

  /** The hits of the calls of a scan, each found after the earlier ones took theirs. */
  function Hits(prev: seq<Call>, next: seq<Call>): (hs: seq<Option<Hit>>)
    ensures |hs| == |next|
    ensures forall i :: 0 <= i < |hs| && hs[i].Some? ==> hs[i].value.at < |prev|
  {
    if next == [] then []
    else
      var n := |next| - 1;
      var hs := Hits(prev, next[..n]);
      hs + [FindPrev(next[n], prev, Taken(prev, hs))]
  }

  /** The IDs of the records already continued. */
  function Taken(prev: seq<Call>, hs: seq<Option<Hit>>): set<string>
    requires forall i :: 0 <= i < |hs| && hs[i].Some? ==> hs[i].value.at < |prev|
  {
    set i | 0 <= i < |hs| && hs[i].Some? :: prev[hs[i].value.at].id
  }

  // ----- what becomes of each call

  function FirstNonEmpty(a: string, b: string): string {
    if a != "" then a else b
  }

  function Born(c: Call, scan: Scan): Call {
    c.(life := Lifecycle(scan.id, scan.commit, scan.id, scan.commit, Active, 0))
  }

  function Continued(c: Call, was: Call, scan: Scan): Call {
    c.(life := Lifecycle(FirstNonEmpty(was.life.firstScan, scan.id), FirstNonEmpty(was.life.firstCommit, scan.commit),
                         scan.id, scan.commit, Active, 0))
  }

  function Seen(prev: seq<Call>, c: Call, h: Option<Hit>, scan: Scan): Call
    requires h.Some? ==> h.value.at < |prev|
  {
    if h.Some? then Continued(c, prev[h.value.at], scan) else Born(c, scan)
  }

  datatype Class = IsAdded | IsRestored | IsUpdated | IsUnchanged

  function ClassOf(prev: seq<Call>, c: Call, h: Option<Hit>): Class
    requires h.Some? ==> h.value.at < |prev|
  {
    if h.None? then IsAdded
    else
      var was := prev[h.value.at];
      if was.life.status == Removed then IsRestored
      else if h.value.how != Exact || was.line != c.line then IsUpdated
      else IsUnchanged
  }

  function Moved(prev: seq<Call>, c: Call, h: Option<Hit>): seq<Relocation>
    requires h.Some? ==> h.value.at < |prev|
  {
    if h.None? then []
    else
      var was := prev[h.value.at];
      if was.file != c.file || was.line != c.line
      then [Relocation(c.id, was.file, c.file, was.line, c.line)] else []
  }

  datatype Fate = IsCarried | IsPruned | IsRemoved

  /** Whether the scan could have seen the record: a filtered scan may not have looked there. */
  predicate Looked(opts: Options, was: Call) {
    !(opts.partial && opts.scope.Some? && !opts.scope.value(was))
  }

  function FateOf(was: Call, opts: Options): Fate {
    if !Looked(opts, was) then IsCarried
    else if opts.prune > 0 && was.life.missing + 1 > opts.prune then IsPruned
    else IsRemoved
  }

  function Missed(was: Call, scan: Scan): Call {
    was.(life := was.life.(missing := was.life.missing + 1, status := Removed,
                           lastScan := FirstNonEmpty(was.life.lastScan, scan.id)))
  }

  /** What stays in the index of a record no call continues. */
  function Rest(was: Call, opts: Options, scan: Scan): seq<Call> {
    match FateOf(was, opts)
    case IsCarried => [was]
    case IsPruned => []
    case IsRemoved => [Missed(was, scan)]
  }

  // ----- accumulated over a scan

  function SeenAll(prev: seq<Call>, next: seq<Call>, scan: Scan): seq<Call> {
    if next == [] then []
    else
      var n := |next| - 1;
      SeenAll(prev, next[..n], scan) + [Seen(prev, next[n], Hits(prev, next)[n], scan)]
  }

  /** The report's counters over the calls of a scan. */
  datatype Tally = Tally(added: nat, restored: nat, updated: nat, kept: nat)

  function Bump(t: Tally, x: Class): Tally {
    match x
    case IsAdded => t.(added := t.added + 1)
    case IsRestored => t.(restored := t.restored + 1)
    case IsUpdated => t.(updated := t.updated + 1)
    case IsUnchanged => t.(kept := t.kept + 1)
  }

  function TallyAll(prev: seq<Call>, next: seq<Call>): Tally {
    if next == [] then Tally(0, 0, 0, 0)
    else
      var n := |next| - 1;
      Bump(TallyAll(prev, next[..n]), ClassOf(prev, next[n], Hits(prev, next)[n]))
  }

  function AddedIds(prev: seq<Call>, next: seq<Call>): seq<string> {
    if next == [] then []
    else
      var n := |next| - 1;
      AddedIds(prev, next[..n]) + (if Hits(prev, next)[n].None? then [next[n].id] else [])
  }

  function MovedAll(prev: seq<Call>, next: seq<Call>): seq<Relocation> {
    if next == [] then []
    else
      var n := |next| - 1;
      MovedAll(prev, next[..n]) + Moved(prev, next[n], Hits(prev, next)[n])
  }

  /** The records that no call continues, in order. */
  function Left(prev: seq<Call>, taken: set<string>): seq<Call> {
    if prev == [] then []
    else
      var n := |prev| - 1;
      Left(prev[..n], taken) + (if prev[n].id in taken then [] else [prev[n]])
  }

  function RestAll(left: seq<Call>, opts: Options, scan: Scan): seq<Call> {
    if left == [] then []
    else
      var n := |left| - 1;
      RestAll(left[..n], opts, scan) + Rest(left[n], opts, scan)
  }

  function CountFate(left: seq<Call>, opts: Options, x: Fate): nat {
    if left == [] then 0
    else
      var n := |left| - 1;
      CountFate(left[..n], opts, x) + (if FateOf(left[n], opts) == x then 1 else 0)
  }

  function RemovedIds(left: seq<Call>, opts: Options): seq<string> {
    if left == [] then []
    else
      var n := |left| - 1;
      RemovedIds(left[..n], opts) + (if FateOf(left[n], opts) == IsRemoved then [left[n].id] else [])
  }

  // ----- the merge

  function Unclaimed(prev: seq<Call>, next: seq<Call>): seq<Call> {
    Left(prev, Taken(prev, Hits(prev, next)))
  }

  /** The merged calls before they are put in canonical order. */
  function MergedCalls(prev: Option<seq<Call>>, next: seq<Call>, scan: Scan, opts: Options): seq<Call> {
    match prev
    case None => SeenAll([], next, scan)
    case Some(p) => SeenAll(p, next, scan) + RestAll(Unclaimed(p, next), opts, scan)
  }

  predicate RelocationLess(a: Relocation, b: Relocation) { LexLess(a.id, b.id) }

  function MergeReport(prev: Option<seq<Call>>, next: seq<Call>, opts: Options): Report {
    var p := if prev.Some? then prev.value else [];
    var left := Unclaimed(p, next);
    var tally := TallyAll(p, next);
    Report(tally.added, tally.updated, tally.kept, CountFate(left, opts, IsRemoved), tally.restored,
           CountFate(left, opts, IsPruned), CountFate(left, opts, IsCarried), StableSort(LexLess, AddedIds(p, next)),
           StableSort(LexLess, RemovedIds(left, opts)), StableSort(RelocationLess, MovedAll(p, next)))
  }

  lemma NothingBefore(next: seq<Call>)
    ensures forall i :: 0 <= i < |next| ==> Hits([], next)[i] == None
  {
    forall i | 0 <= i < |next| ensures Hits([], next)[i] == None {
      assert Hits([], next)[i].Some? ==> Hits([], next)[i].value.at < 0;
    }
  }

  /** Which records an ID, a file and target, or a target leads to. */
  datatype Tiers = Tiers(byId: map<string, int>, byFileFp: map<(string, string), seq<int>>, byFp: map<string, seq<int>>)

  function At<K>(m: map<K, seq<int>>, k: K): seq<int> {
    if k in m then m[k] else []
  }

  /** What each of the three maps holds. */
  ghost predicate IdIndex(prev: seq<Call>, byId: map<string, int>) {
    && (forall id :: (if id in byId then byId[id] else -1) == FindId(prev, id))
    && (forall id :: id in byId ==> byId[id] >= 0)
  }

  ghost predicate NearIndex(prev: seq<Call>, byFileFp: map<(string, string), seq<int>>) {
    forall file, fp :: At(byFileFp, (file, fp)) == Group(prev, Some(file), fp)
  }

  ghost predicate FarIndex(prev: seq<Call>, byFp: map<string, seq<int>>) {
    forall fp :: At(byFp, fp) == Group(prev, None, fp)
  }

  ghost predicate Index(prev: seq<Call>, t: Tiers) {
    IdIndex(prev, t.byId) && NearIndex(prev, t.byFileFp) && FarIndex(prev, t.byFp)
  }

  lemma GroupAppended(prev: seq<Call>, c: Call, file: Option<string>, fp: string)
    ensures Group(prev + [c], file, fp) == Group(prev, file, fp)
            + (if (file.None? || file.value == c.file) && fp == c.fingerprint then [|prev|] else [])
    ensures FindId(prev + [c], c.id) == |prev|
    ensures forall id :: id != c.id ==> FindId(prev + [c], id) == FindId(prev, id)
  {
    assert (prev + [c])[..|prev|] == prev;
  }

  lemma IdAppended(prev: seq<Call>, c: Call, byId: map<string, int>)
    requires IdIndex(prev, byId)
    ensures IdIndex(prev + [c], byId[c.id := |prev|])
  {
    hide FindId;
    GroupAppended(prev, c, None, c.fingerprint);
  }

  lemma NearAppended(prev: seq<Call>, c: Call, byFileFp: map<(string, string), seq<int>>)
    requires NearIndex(prev, byFileFp)
    ensures NearIndex(prev + [c], byFileFp[(c.file, c.fingerprint) := At(byFileFp, (c.file, c.fingerprint)) + [|prev|]])
  {
    hide Group;
    forall file, fp
      ensures Group(prev + [c], Some(file), fp)
           == Group(prev, Some(file), fp) + (if file == c.file && fp == c.fingerprint then [|prev|] else [])
    {
      GroupAppended(prev, c, Some(file), fp);
    }
  }

  lemma FarAppended(prev: seq<Call>, c: Call, byFp: map<string, seq<int>>)
    requires FarIndex(prev, byFp)
    ensures FarIndex(prev + [c], byFp[c.fingerprint := At(byFp, c.fingerprint) + [|prev|]])
  {
    hide Group;
    forall fp
      ensures Group(prev + [c], None, fp) == Group(prev, None, fp) + (if fp == c.fingerprint then [|prev|] else [])
    {
      GroupAppended(prev, c, None, fp);
    }
  }

  lemma IndexAppended(prev: seq<Call>, c: Call, t: Tiers)
    requires Index(prev, t)
    ensures Index(prev + [c], Tiers(
              t.byId[c.id := |prev|],
              t.byFileFp[(c.file, c.fingerprint) := At(t.byFileFp, (c.file, c.fingerprint)) + [|prev|]],
              t.byFp[c.fingerprint := At(t.byFp, c.fingerprint) + [|prev|]]))
  {
    hide IdIndex, NearIndex, FarIndex, At;
    IdAppended(prev, c, t.byId);
    NearAppended(prev, c, t.byFileFp);
    FarAppended(prev, c, t.byFp);
  }

  method BuildTiers(prev: seq<Call>) returns (t: Tiers)
    ensures Index(prev, t)
  {
    t := Tiers(map[], map[], map[]);
    for i := 0 to |prev|
      invariant Index(prev[..i], t)
    {
      assert prev[..i + 1] == prev[..i] + [prev[i]];
      var c := prev[i];
      IndexAppended(prev[..i], c, t);
      var near, far := At(t.byFileFp, (c.file, c.fingerprint)), At(t.byFp, c.fingerprint);
      t := Tiers(t.byId[c.id := i], t.byFileFp[(c.file, c.fingerprint) := near + [i]],
                 t.byFp[c.fingerprint := far + [i]]);
    }
    assert prev[..|prev|] == prev;
  }

  method UnmatchedLoop(prev: seq<Call>, at: seq<int>, matched: set<string>) returns (out: seq<int>)
    requires forall k :: 0 <= k < |at| ==> 0 <= at[k] < |prev|
    ensures out == Unmatched(prev, at, matched)
  {
    out := [];
    for k := 0 to |at|
      invariant out == Unmatched(prev, at[..k], matched)
    {
      assert at[..k + 1][..k] == at[..k];
      if prev[at[k]].id !in matched {
        out := out + [at[k]];
      }
    }
    assert at[..|at|] == at;
  }

  method FindPrevLoop(c: Call, prev: seq<Call>, t: Tiers, matched: set<string>) returns (h: Option<Hit>)
    requires Index(prev, t)
    ensures h == FindPrev(c, prev, matched)
  {
    if c.id in t.byId {
      assert t.byId[c.id] == FindId(prev, c.id);
      if c.id !in matched {
        return Some(Hit(FindId(prev, c.id), Exact));
      }
    } else {
      assert FindId(prev, c.id) == -1;
    }
    assert At(t.byFileFp, (c.file, c.fingerprint)) == Group(prev, Some(c.file), c.fingerprint);
    var near := UnmatchedLoop(prev, At(t.byFileFp, (c.file, c.fingerprint)), matched);
    if |near| == 1 {
      assert near[0] in near;
      return Some(Hit(near[0], SameFile));
    }
    assert At(t.byFp, c.fingerprint) == Group(prev, None, c.fingerprint);
    var far := UnmatchedLoop(prev, At(t.byFp, c.fingerprint), matched);
    if |far| == 1 {
      assert far[0] in far;
      return Some(Hit(far[0], RenamedFile));
    }
    h := None;
  }

  lemma NewIsAdded(prev: seq<Call>, c: Call, tally: Tally)
    ensures Bump(tally, ClassOf(prev, c, None)) == tally.(added := tally.added + 1)
  {
  }

  /** What the first loop has put together after a part of the scan. */
  ghost predicate SeenUpTo(was: seq<Call>, part: seq<Call>, scan: Scan, calls: seq<Call>, matched: set<string>,
                           tally: Tally, addedIds: seq<string>, moved: seq<Relocation>) {
    && calls == SeenAll(was, part, scan) && matched == Taken(was, Hits(was, part))
    && tally == TallyAll(was, part) && addedIds == AddedIds(was, part) && moved == MovedAll(was, part)
  }

  lemma SeenNone(was: seq<Call>, next: seq<Call>, scan: Scan)
    ensures SeenUpTo(was, next[..0], scan, [], {}, Tally(0, 0, 0, 0), [], [])
  {
    assert next[..0] == [];
  }

  lemma SeenMore(was: seq<Call>, next: seq<Call>, i: nat, scan: Scan, calls: seq<Call>, matched: set<string>,
                 tally: Tally, addedIds: seq<string>, moved: seq<Relocation>)
    requires i < |next| && SeenUpTo(was, next[..i], scan, calls, matched, tally, addedIds, moved)
    ensures var cur := next[i];
            var h := FindPrev(cur, was, matched);
            SeenUpTo(was, next[..i + 1], scan, calls + [Seen(was, cur, h, scan)],
                     if h.None? then matched else matched + {was[h.value.at].id},
                     if h.None? then tally.(added := tally.added + 1) else Bump(tally, ClassOf(was, cur, h)),
                     if h.None? then addedIds + [cur.id] else addedIds, moved + Moved(was, cur, h))
  {
    hide SeenAll, Hits, Taken, TallyAll, AddedIds, MovedAll, FindPrev, Seen, Moved;
    ExtendSeen(was, next, i, scan);
    NewIsAdded(was, next[i], tally);
  }

  /** Merge's first loop: every call of the scan continues a record or starts one. */
  method SeeCalls(was: seq<Call>, next: seq<Call>, scan: Scan)
    returns (calls: seq<Call>, matched: set<string>, tally: Tally, addedIds: seq<string>, moved: seq<Relocation>)
    ensures calls == SeenAll(was, next, scan) && matched == Taken(was, Hits(was, next))
    ensures tally == TallyAll(was, next)
    ensures addedIds == AddedIds(was, next) && moved == MovedAll(was, next)
  {
    tally := Tally(0, 0, 0, 0);
    calls, addedIds, moved := [], [], [];
    var tiers := BuildTiers(was);
    matched := {};
    hide SeenAll, Hits, Taken, TallyAll, AddedIds, MovedAll, FindPrev, Seen, Moved, SeenUpTo, ClassOf, Bump;
    SeenNone(was, next, scan);
    for i := 0 to |next|
      invariant SeenUpTo(was, next[..i], scan, calls, matched, tally, addedIds, moved)
    {
      var cur := next[i];
      var h := FindPrevLoop(cur, was, tiers, matched);
      SeenMore(was, next, i, scan, calls, matched, tally, addedIds, moved);
      if h.None? {
        tally := tally.(added := tally.added + 1);
        addedIds := addedIds + [cur.id];
      } else {
        matched := matched + {was[h.value.at].id};
        tally := Bump(tally, ClassOf(was, cur, h));
      }
      moved := moved + Moved(was, cur, h);
      calls := calls + [Seen(was, cur, h, scan)];
    }
    assert next[..|next|] == next;
    assert SeenUpTo(was, next, scan, calls, matched, tally, addedIds, moved);
    SeenAllUp(was, next, scan, calls, matched, tally, addedIds, moved);
  }

  lemma SeenAllUp(was: seq<Call>, next: seq<Call>, scan: Scan, calls: seq<Call>, matched: set<string>,
                  tally: Tally, addedIds: seq<string>, moved: seq<Relocation>)
    requires SeenUpTo(was, next, scan, calls, matched, tally, addedIds, moved)
    ensures calls == SeenAll(was, next, scan) && matched == Taken(was, Hits(was, next)) && tally == TallyAll(was, next)
    ensures addedIds == AddedIds(was, next) && moved == MovedAll(was, next)
  {
  }

  /** What the second loop puts together. */
  datatype Sums = Sums(rest: seq<Call>, carried: nat, removed: nat, pruned: nat, removedIds: seq<string>)

  function SumsOf(left: seq<Call>, opts: Options, scan: Scan): Sums {
    Sums(RestAll(left, opts, scan), CountFate(left, opts, IsCarried), CountFate(left, opts, IsRemoved),
         CountFate(left, opts, IsPruned), RemovedIds(left, opts))
  }

  function AddRest(x: Sums, o: Call, opts: Options, scan: Scan): Sums {
    match FateOf(o, opts)
    case IsCarried => x.(rest := x.rest + [o], carried := x.carried + 1)
    case IsPruned => x.(pruned := x.pruned + 1)
    case IsRemoved => x.(rest := x.rest + [Missed(o, scan)], removed := x.removed + 1, removedIds := x.removedIds + [o.id])
  }

  lemma RestMore(was: seq<Call>, i: nat, matched: set<string>, scan: Scan, opts: Options)
    requires i < |was|
    ensures var before := SumsOf(Left(was[..i], matched), opts, scan);
            var after := SumsOf(Left(was[..i + 1], matched), opts, scan);
            after == if was[i].id in matched then before else AddRest(before, was[i], opts, scan)
  {
    hide Left, SumsOf, AddRest;
    LeftMore(was, i, matched);
    SumsMore(Left(was[..i], matched), was[i], opts, scan);
  }

  lemma SumsMore(left: seq<Call>, o: Call, opts: Options, scan: Scan)
    ensures SumsOf(left + [o], opts, scan) == AddRest(SumsOf(left, opts, scan), o, opts, scan)
  {
    hide Missed, FateOf, RestAll, CountFate, RemovedIds;
    ExtendLeft(left, o, opts, scan);
    assert RestAll(left, opts, scan) + [] == RestAll(left, opts, scan);
    assert RemovedIds(left, opts) + [] == RemovedIds(left, opts);
  }

  lemma LeftMore(was: seq<Call>, i: nat, matched: set<string>)
    requires i < |was|
    ensures Left(was[..i + 1], matched)
         == if was[i].id in matched then Left(was[..i], matched) else Left(was[..i], matched) + [was[i]]
  {
    assert was[..i + 1][..i] == was[..i];
  }

  /** Merge's second loop: what becomes of the records that no call continues. */
  method KeepRest(was: seq<Call>, matched: set<string>, scan: Scan, opts: Options)
    returns (rest: seq<Call>, carried: nat, removed: nat, pruned: nat, removedIds: seq<string>)
    ensures var left := Left(was, matched);
            && rest == RestAll(left, opts, scan)
            && carried == CountFate(left, opts, IsCarried) && removed == CountFate(left, opts, IsRemoved)
            && pruned == CountFate(left, opts, IsPruned) && removedIds == RemovedIds(left, opts)
  {
    carried, removed, pruned := 0, 0, 0;
    rest, removedIds := [], [];
    assert Left(was[..0], matched) == [];
    assert SumsOf([], opts, scan) == Sums(rest, carried, removed, pruned, removedIds);
    hide Missed, Left, SumsOf;
    for i := 0 to |was|
      invariant SumsOf(Left(was[..i], matched), opts, scan) == Sums(rest, carried, removed, pruned, removedIds)
    {
      var o := was[i];
      RestMore(was, i, matched, scan, opts);
      if o.id in matched {
        continue;
      }
      if opts.partial && opts.scope.Some? && !opts.scope.value(o) {
        carried := carried + 1;
        rest := rest + [o];
        continue;
      }
      if opts.prune > 0 && o.life.missing + 1 > opts.prune {
        pruned := pruned + 1;
        continue;
      }
      removed := removed + 1;
      removedIds := removedIds + [o.id];
      rest := rest + [Missed(o, scan)];
    }
    assert was[..|was|] == was;
    SumsAre(Left(was, matched), opts, scan);
  }

  lemma SumsAre(left: seq<Call>, opts: Options, scan: Scan)
    ensures var x := SumsOf(left, opts, scan);
            && x.rest == RestAll(left, opts, scan)
            && x.carried == CountFate(left, opts, IsCarried) && x.removed == CountFate(left, opts, IsRemoved)
            && x.pruned == CountFate(left, opts, IsPruned) && x.removedIds == RemovedIds(left, opts)
  {
  }

  method Merge(prev: Option<seq<Call>>, next: seq<Call>, scan: Scan, opts: Options)
    returns (calls: seq<Call>, rep: Report)
    ensures calls == SortCalls(MergedCalls(prev, next, scan, opts))
    ensures rep == MergeReport(prev, next, opts)
  {
    var was := if prev.Some? then prev.value else [];
    var seen, matched, tally, addedIds, moved := SeeCalls(was, next, scan);
    var rest, carried, removed, pruned, removedIds := KeepRest(was, matched, scan, opts);
    assert prev.None? ==> seen + rest == seen;
    rep := Report(tally.added, tally.updated, tally.kept, removed, tally.restored, pruned, carried,
                  StableSort(LexLess, addedIds), StableSort(LexLess, removedIds), StableSort(RelocationLess, moved));
    calls := SortCalls(seen + rest);
  }

  lemma ExtendHits(prev: seq<Call>, next: seq<Call>, i: nat)
    requires i < |next|
    ensures var hs := Hits(prev, next[..i]);
            var h := FindPrev(next[i], prev, Taken(prev, hs));
            && Hits(prev, next[..i + 1]) == hs + [h]
            && next[..i + 1][..i] == next[..i] && next[..i + 1][i] == next[i]
            && Taken(prev, hs + [h]) == Taken(prev, hs) + (if h.Some? then {prev[h.value.at].id} else {})
  {
    hide FindPrev, Taken;
    assert next[..i + 1][..i] == next[..i] && next[..i + 1][i] == next[i];
    var hs := Hits(prev, next[..i]);
    TakenSnoc(prev, hs, FindPrev(next[i], prev, Taken(prev, hs)));
  }

  lemma TakenSnoc(prev: seq<Call>, hs: seq<Option<Hit>>, h: Option<Hit>)
    requires forall i :: 0 <= i < |hs| && hs[i].Some? ==> hs[i].value.at < |prev|
    requires h.Some? ==> h.value.at < |prev|
    ensures Taken(prev, hs + [h]) == Taken(prev, hs) + (if h.Some? then {prev[h.value.at].id} else {})
  {
    var all := hs + [h];
    forall k | 0 <= k < |hs| && hs[k].Some? ensures prev[hs[k].value.at].id in Taken(prev, all) {
      assert all[k] == hs[k];
    }
    if h.Some? { assert all[|hs|] == h; }
  }

  /** What one more call of the scan adds to each running total. */
  lemma ExtendSeen(prev: seq<Call>, next: seq<Call>, i: nat, scan: Scan)
    requires i < |next|
    ensures var taken := Taken(prev, Hits(prev, next[..i]));
            var h := FindPrev(next[i], prev, taken);
            var one := ClassOf(prev, next[i], h);
            && Taken(prev, Hits(prev, next[..i + 1])) == taken + (if h.Some? then {prev[h.value.at].id} else {})
            && SeenAll(prev, next[..i + 1], scan) == SeenAll(prev, next[..i], scan) + [Seen(prev, next[i], h, scan)]
            && AddedIds(prev, next[..i + 1]) == AddedIds(prev, next[..i]) + (if h.None? then [next[i].id] else [])
            && MovedAll(prev, next[..i + 1]) == MovedAll(prev, next[..i]) + Moved(prev, next[i], h)
            && TallyAll(prev, next[..i + 1]) == Bump(TallyAll(prev, next[..i]), one)
  {
    ExtendHits(prev, next, i);
  }

  lemma ExtendLeft(left: seq<Call>, o: Call, opts: Options, scan: Scan)
    ensures (left + [o])[..|left|] == left
    ensures RestAll(left + [o], opts, scan) == RestAll(left, opts, scan) + Rest(o, opts, scan)
    ensures forall x :: CountFate(left + [o], opts, x) == CountFate(left, opts, x) + (if FateOf(o, opts) == x then 1 else 0)
    ensures RemovedIds(left + [o], opts)
         == RemovedIds(left, opts) + (if FateOf(o, opts) == IsRemoved then [o.id] else [])
  {
    assert (left + [o])[..|left|] == left;
  }
}
