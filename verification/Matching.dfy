/** When a call continues the record of its own ID (internal/index/merge.go), told from the scan and the index. */
module Matching {
  import opened Strs
  import opened Sorting
  import opened Calls
  import opened Merge
  import opened MergeLaws
  import opened Chains

  /**
   The index stores, of the scan's IDs, exactly those in `stored`. IDs are distinct, and a record
   of the same ID has the same target, since the ID is made from it.
   */
  ghost predicate Knows(prev: seq<Call>, next: seq<Call>, stored: set<string>) {
    && DistinctIds(prev)
    && (forall id :: id in IdSet(next) ==> (id in IdSet(prev) <==> id in stored))
    && (forall p, i :: 0 <= p < |prev| && 0 <= i < |next| && prev[p].id == next[i].id ==>
          prev[p].fingerprint == next[i].fingerprint)
  }

  predicate ExactAt(prev: seq<Call>, next: seq<Call>, j: nat)
    requires j < |next|
  {
    var h := Hits(prev, next)[j];
    h.Some? && h.value.how == Exact
  }

  /** Every earlier call with the same target has its own ID stored. */
  predicate EarlierStored(next: seq<Call>, j: nat, stored: set<string>)
    requires j < |next|
  {
    forall i :: 0 <= i < j && next[i].fingerprint == next[j].fingerprint ==> next[i].id in stored
  }

  lemma StoredFound(prev: seq<Call>, next: seq<Call>, stored: set<string>, i: nat)
    requires Knows(prev, next, stored) && i < |next|
    ensures FindId(prev, next[i].id) >= 0 <==> next[i].id in stored
  {
    assert next[i] in next && next[i].id in IdSet(next);
    if FindId(prev, next[i].id) >= 0 {
      assert prev[FindId(prev, next[i].id)] in prev;
    }
  }

  /** Which earlier call has taken a record. */
  lemma TakenBy(prev: seq<Call>, next: seq<Call>, j: nat, id: string) returns (k: nat)
    requires j <= |next| && id in Taken(prev, Hits(prev, next[..j]))
    ensures k < j && Hits(prev, next)[k].Some? && prev[Hits(prev, next)[k].value.at].id == id
  {
    hide Hits, FindPrev;
    var hs := Hits(prev, next[..j]);
    k :| 0 <= k < |hs| && hs[k].Some? && prev[hs[k].value.at].id == id;
    hide Taken;
    HitsPrefix(prev, next, k);
    HitsPrefix(prev, next[..j], k);
    assert next[..j][..k] == next[..k] && next[..j][k] == next[k];
  }

  /** What a hit is made of. */
  lemma HitKinds(prev: seq<Call>, next: seq<Call>, k: nat)
    requires k < |next| && Hits(prev, next)[k].Some?
    ensures var h := Hits(prev, next)[k].value;
            if h.how == Exact then prev[h.at].id == next[k].id
            else prev[h.at].fingerprint == next[k].fingerprint
  {
    HitsPrefix(prev, next, k);
  }

  /** No call takes another's record as long as the calls of that target have their own. */
  lemma {:induction false} OwnRecord(prev: seq<Call>, next: seq<Call>, stored: set<string>, j: nat)
    requires DistinctIds(next) && Knows(prev, next, stored)
    requires j < |next| && next[j].id in stored && EarlierStored(next, j, stored)
    ensures ExactAt(prev, next, j)
    decreases j
  {
    hide Hits, Taken;
    StoredFound(prev, next, stored, j);
    ExactUnlessTaken(prev, next, j);
    if next[j].id in Taken(prev, Hits(prev, next[..j])) {
      var k := TakenBy(prev, next, j, next[j].id);
      HitKinds(prev, next, k);
      assert Id(next[k]) != Id(next[j]);
      OwnRecord(prev, next, stored, k);
      assert false;
    }
  }

  // ----- what earlier calls can take

  /**
   IDs are hashes of target, file and client: a stored record of a call's ID has the call's target,
   file and client.
   */
  ghost predicate KnowsKeys(prev: seq<Call>, next: seq<Call>, stored: set<string>) {
    && Knows(prev, next, stored)
    && forall p, i :: 0 <= p < |prev| && 0 <= i < |next| && prev[p].id == next[i].id ==>
         prev[p].file == next[i].file && prev[p].client == next[i].client
  }

  /** Of the scan's calls with an ID in `ids`, those with the target of `c`, in its file or anywhere. */
  function Fellows(next: seq<Call>, ids: set<string>, c: Call, near: bool): set<string> {
    set k | 0 <= k < |next| && next[k].id in ids && next[k].fingerprint == c.fingerprint
            && (near ==> next[k].file == c.file) :: next[k].id
  }

  /** What is left of the waiting records when `c` has had its turn: it takes its own, or else a sole one. */
  function AfterTurn(next: seq<Call>, ids: set<string>, c: Call): set<string> {
    if c.id in ids then ids - {c.id}
    else if |Fellows(next, ids, c, true)| == 1 then ids - Fellows(next, ids, c, true)
    else if |Fellows(next, ids, c, false)| == 1 then ids - Fellows(next, ids, c, false)
    else ids
  }

  /** The stored IDs of the scan that wait for their call after `i` turns, if nothing else is stored. */
  function Waiting(next: seq<Call>, stored: set<string>, i: nat): set<string>
    requires i <= |next|
  {
    if i == 0 then stored * IdSet(next) else AfterTurn(next, Waiting(next, stored, i - 1), next[i - 1])
  }

  /** The record of call `j` is still waiting when its turn comes. */
  predicate StillWaiting(next: seq<Call>, stored: set<string>, j: nat)
    requires j < |next|
  {
    next[j].id in Waiting(next, stored, j)
  }

  lemma {:induction false} WaitingKnown(next: seq<Call>, stored: set<string>, i: nat)
    requires i <= |next|
    ensures Waiting(next, stored, i) <= stored * IdSet(next)
  {
    if i > 0 { WaitingKnown(next, stored, i - 1); }
  }

  lemma {:induction false} WaitingShrinks(next: seq<Call>, stored: set<string>, i: nat, j: nat)
    requires i <= j <= |next|
    ensures Waiting(next, stored, j) <= Waiting(next, stored, i)
    decreases j
  {
    if i < j { WaitingShrinks(next, stored, i, j - 1); }
  }

  /** Call `i` has no record of its own waiting, and finds `id` as the sole waiting one of its target. */
  predicate Finds(next: seq<Call>, stored: set<string>, i: nat, id: string)
    requires i < |next|
  {
    var ids := Waiting(next, stored, i);
    next[i].id !in ids && (Fellows(next, ids, next[i], true) == {id} || Fellows(next, ids, next[i], false) == {id})
  }

  lemma OneElement(s: set<string>) returns (x: string)
    requires |s| == 1
    ensures s == {x}
  {
    x :| x in s;
    assert s - {x} == {} by { assert |s - {x}| == 0; }
  }

  /** A waiting record stays unless its own call or one that finds it has its turn. */
  lemma WaitsUnlessFound(next: seq<Call>, stored: set<string>, i: nat, id: string)
    requires i < |next| && id in Waiting(next, stored, i) && next[i].id != id
    ensures id in Waiting(next, stored, i + 1) <==> !Finds(next, stored, i, id)
  {
    var ids, c := Waiting(next, stored, i), next[i];
    var near, far := Fellows(next, ids, c, true), Fellows(next, ids, c, false);
    assert Waiting(next, stored, i + 1) == AfterTurn(next, ids, c);
    NearFellows(next, ids, c);
    hide Waiting, Fellows;
    if |near| == 1 {
      var x := OneElement(near);
      assert far == {id} ==> x in far;
    } else if |far| == 1 {
      var x := OneElement(far);
    }
    assert |{id}| == 1;
  }

  lemma NearFellows(next: seq<Call>, ids: set<string>, c: Call)
    ensures Fellows(next, ids, c, true) <= Fellows(next, ids, c, false)
  {
  }

  /** The record of call `j` still waits exactly when no earlier call finds it as a sole one. */
  lemma StillWaitingIff(next: seq<Call>, stored: set<string>, j: nat)
    requires DistinctIds(next) && j < |next| && next[j].id in stored
    ensures StillWaiting(next, stored, j) <==> forall i: nat :: i < j ==> !Finds(next, stored, i, next[j].id)
  {
    assert next[j] in next && next[j].id in Waiting(next, stored, 0);
    StillWaitingUpTo(next, stored, j, j);
  }

  lemma {:induction false} StillWaitingUpTo(next: seq<Call>, stored: set<string>, j: nat, n: nat)
    requires DistinctIds(next) && n <= j < |next| && next[j].id in Waiting(next, stored, 0)
    ensures next[j].id in Waiting(next, stored, n) <==> forall i: nat :: i < n ==> !Finds(next, stored, i, next[j].id)
  {
    if n > 0 {
      StillWaitingUpTo(next, stored, j, n - 1);
      WaitingShrinks(next, stored, n - 1, n);
      assert Id(next[n - 1]) != Id(next[j]);
      hide Waiting, Finds;
      if next[j].id in Waiting(next, stored, n - 1) {
        WaitsUnlessFound(next, stored, n - 1, next[j].id);
      }
    }
  }

  // ----- the candidates of a tier

  /** A record the tier of `c` may take. */
  predicate Candidate(prev: seq<Call>, c: Call, near: bool, taken: set<string>, p: int) {
    && 0 <= p < |prev| && prev[p].fingerprint == c.fingerprint && (near ==> prev[p].file == c.file)
    && prev[p].id !in taken
  }

  function Tier(prev: seq<Call>, c: Call, near: bool, taken: set<string>): seq<int> {
    Unmatched(prev, Group(prev, if near then Some(c.file) else None, c.fingerprint), taken)
  }

  ghost predicate Increasing(at: seq<int>) {
    forall i, j :: 0 <= i < j < |at| ==> at[i] < at[j]
  }

  lemma {:induction false} GroupMembers(prev: seq<Call>, file: Option<string>, fp: string)
    ensures Increasing(Group(prev, file, fp))
    ensures forall p :: p in Group(prev, file, fp) <==>
              0 <= p < |prev| && prev[p].fingerprint == fp && (file.Some? ==> prev[p].file == file.value)
  {
    if prev != [] {
      var n := |prev| - 1;
      GroupMembers(prev[..n], file, fp);
      var before := Group(prev[..n], file, fp);
      assert forall k :: 0 <= k < |before| ==> before[k] in before;
    }
  }

  lemma {:induction false} UnmatchedMembers(prev: seq<Call>, at: seq<int>, taken: set<string>)
    requires forall k :: 0 <= k < |at| ==> 0 <= at[k] < |prev|
    requires Increasing(at)
    ensures Increasing(Unmatched(prev, at, taken))
    ensures forall p :: p in Unmatched(prev, at, taken) <==> p in at && prev[p].id !in taken
  {
    if at != [] {
      var n := |at| - 1;
      UnmatchedMembers(prev, at[..n], taken);
      var before := Unmatched(prev, at[..n], taken);
      assert at == at[..n] + [at[n]];
      assert forall k :: 0 <= k < |before| ==> before[k] in before && before[k] in at[..n];
    }
  }

  lemma TierMembers(prev: seq<Call>, c: Call, near: bool, taken: set<string>)
    ensures Increasing(Tier(prev, c, near, taken))
    ensures forall p :: p in Tier(prev, c, near, taken) <==> Candidate(prev, c, near, taken, p)
  {
    var file := if near then Some(c.file) else None;
    GroupMembers(prev, file, c.fingerprint);
    UnmatchedMembers(prev, Group(prev, file, c.fingerprint), taken);
  }

  /** A tier has a sole candidate exactly if it is the list of it. */
  lemma SoleCandidate(prev: seq<Call>, c: Call, near: bool, taken: set<string>, at: int)
    ensures Tier(prev, c, near, taken) == [at]
       <==> Candidate(prev, c, near, taken, at) && forall p :: Candidate(prev, c, near, taken, p) ==> p == at
  {
    var tier := Tier(prev, c, near, taken);
    TierMembers(prev, c, near, taken);
    hide Tier, Candidate;
    SoleElement(tier, at);
  }

  lemma SoleElement(at: seq<int>, x: int)
    requires Increasing(at)
    ensures at == [x] <==> x in at && forall p :: p in at ==> p == x
  {
    assert forall k :: 0 <= k < |at| ==> at[k] in at;
    assert |at| >= 2 ==> at[0] < at[1];
  }

  /** The three tiers of a turn. */
  lemma TurnTiers(prev: seq<Call>, c: Call, taken: set<string>)
    ensures var own := FindId(prev, c.id);
            var near, far := Tier(prev, c, true, taken), Tier(prev, c, false, taken);
            FindPrev(c, prev, taken)
            == if own >= 0 && c.id !in taken then Some(Hit(own, Exact))
               else if |near| == 1 then Some(Hit(near[0], SameFile))
               else if |far| == 1 then Some(Hit(far[0], RenamedFile))
               else None
  {
    hide Group, Unmatched, FindId;
  }

  // ----- a waiting record is never taken by anybody else

  /** Nothing that still waits has been taken. */
  ghost predicate Untouched(ids: set<string>, taken: set<string>) {
    ids !! taken
  }

  lemma WaitingRecord(prev: seq<Call>, next: seq<Call>, stored: set<string>, id: string) returns (p: nat, k: nat)
    requires KnowsKeys(prev, next, stored) && id in stored * IdSet(next)
    ensures p < |prev| && k < |next| && prev[p].id == id == next[k].id
    ensures prev[p].fingerprint == next[k].fingerprint && prev[p].file == next[k].file
  {
    var c :| c in prev && c.id == id;
    p :| 0 <= p < |prev| && prev[p] == c;
    var d :| d in next && d.id == id;
    k :| 0 <= k < |next| && next[k] == d;
  }

  /** Waiting calls that a call could take are candidates of its tier. */
  lemma FellowsAreCandidates(prev: seq<Call>, next: seq<Call>, stored: set<string>, ids: set<string>, c: Call,
                             near: bool, taken: set<string>, at: nat)
    requires KnowsKeys(prev, next, stored) && ids <= stored * IdSet(next) && ids !! taken
    requires Tier(prev, c, near, taken) == [at as int]
    ensures at < |prev|
    ensures prev[at].id in ids ==> Fellows(next, ids, c, near) == {prev[at].id}
    ensures Fellows(next, ids, c, near) <= {prev[at].id}
  {
    SoleCandidate(prev, c, near, taken, at);
    hide Tier;
    forall id | id in Fellows(next, ids, c, near) ensures id == prev[at].id {
      var p, k := WaitingRecord(prev, next, stored, id);
      var m :| 0 <= m < |next| && next[m].id in ids && next[m].fingerprint == c.fingerprint
               && (near ==> next[m].file == c.file) && next[m].id == id;
      assert Candidate(prev, c, near, taken, p);
    }
    if prev[at].id in ids {
      var p, k := WaitingRecord(prev, next, stored, prev[at].id);
      assert Id(prev[p]) == Id(prev[at]);
      assert next[k].id in Fellows(next, ids, c, near);
    }
  }

  /** Whatever the turn takes from the index, it takes at least that from what waits. */
  lemma TurnKeepsUntouched(prev: seq<Call>, next: seq<Call>, stored: set<string>, ids: set<string>, c: Call,
                           taken: set<string>)
    requires KnowsKeys(prev, next, stored) && ids <= stored * IdSet(next) && ids !! taken
    ensures var h := FindPrev(c, prev, taken);
            AfterTurn(next, ids, c) !! taken + (if h.Some? then {prev[h.value.at].id} else {})
  {
    var h := FindPrev(c, prev, taken);
    TurnTiers(prev, c, taken);
    hide Tier, FindPrev, Knows, KnowsKeys, FindId, Fellows;
    if h.Some? && prev[h.value.at].id in ids {
      var x := prev[h.value.at].id;
      var near, far := Tier(prev, c, true, taken), Tier(prev, c, false, taken);
      if h.value.how == Exact {
      } else if |near| == 1 {
        assert near == [h.value.at as int];
        FellowsAreCandidates(prev, next, stored, ids, c, true, taken, h.value.at);
        OwnNotWaiting(prev, next, stored, ids, c, taken);
      } else {
        assert far == [h.value.at as int];
        FellowsAreCandidates(prev, next, stored, ids, c, false, taken, h.value.at);
        NearFellows(next, ids, c);
        OwnNotWaiting(prev, next, stored, ids, c, taken);
        assert Fellows(next, ids, c, true) <= {x};
        assert Fellows(next, ids, c, true) == {} || Fellows(next, ids, c, true) == {x};
      }
    }
  }

  /** A call that does not get its own record has none waiting. */
  lemma OwnNotWaiting(prev: seq<Call>, next: seq<Call>, stored: set<string>, ids: set<string>, c: Call,
                      taken: set<string>)
    requires KnowsKeys(prev, next, stored) && ids <= stored * IdSet(next) && ids !! taken
    requires !(FindId(prev, c.id) >= 0 && c.id !in taken)
    ensures c.id !in ids
  {
    if c.id in ids {
      var p, k := WaitingRecord(prev, next, stored, c.id);
      assert false;
    }
  }

  lemma TakenGrows(prev: seq<Call>, next: seq<Call>, i: nat)
    requires i < |next|
    ensures var taken := Taken(prev, Hits(prev, next[..i]));
            var h := FindPrev(next[i], prev, taken);
            Taken(prev, Hits(prev, next[..i + 1])) == taken + (if h.Some? then {prev[h.value.at].id} else {})
  {
    hide Hits, FindPrev, Taken;
    ExtendHits(prev, next, i);
  }

  lemma {:induction false} WaitingUntaken(prev: seq<Call>, next: seq<Call>, stored: set<string>, i: nat)
    requires KnowsKeys(prev, next, stored) && i <= |next|
    ensures Waiting(next, stored, i) !! Taken(prev, Hits(prev, next[..i]))
  {
    if i == 0 {
      assert next[..0] == [];
    } else {
      var ids, taken := Waiting(next, stored, i - 1), Taken(prev, Hits(prev, next[..i - 1]));
      assert Waiting(next, stored, i) == AfterTurn(next, ids, next[i - 1]);
      hide Hits, FindPrev, Taken, KnowsKeys, AfterTurn, Waiting;
      WaitingUntaken(prev, next, stored, i - 1);
      WaitingKnown(next, stored, i - 1);
      TakenGrows(prev, next, i - 1);
      TurnKeepsUntouched(prev, next, stored, ids, next[i - 1], taken);
    }
  }

  /** A call whose record still waits continues it, whatever else the index holds. */
  lemma WaitingIsExact(prev: seq<Call>, next: seq<Call>, stored: set<string>, j: nat)
    requires KnowsKeys(prev, next, stored) && j < |next| && StillWaiting(next, stored, j)
    ensures ExactAt(prev, next, j)
  {
    WaitingUntaken(prev, next, stored, j);
    WaitingKnown(next, stored, j);
    StoredFound(prev, next, stored, j);
    hide Hits, Taken, Waiting;
    ExactUnlessTaken(prev, next, j);
  }

  // ----- an index that holds nothing else

  /** The index holds no record but those of the scan's IDs. */
  ghost predicate NothingElse(prev: seq<Call>, next: seq<Call>) {
    IdSet(prev) <= IdSet(next)
  }

  ghost predicate Exactly(ids: set<string>, prev: seq<Call>, taken: set<string>) {
    ids == IdSet(prev) - taken
  }

  /** Then the candidates of a tier are the waiting calls. */
  lemma CandidatesAreFellows(prev: seq<Call>, next: seq<Call>, stored: set<string>, ids: set<string>, c: Call,
                             near: bool, taken: set<string>)
    requires KnowsKeys(prev, next, stored) && NothingElse(prev, next) && Exactly(ids, prev, taken)
    ensures |Tier(prev, c, near, taken)| == 1 <==> |Fellows(next, ids, c, near)| == 1
    ensures |Tier(prev, c, near, taken)| == 1 ==>
              var at := Tier(prev, c, near, taken)[0];
              0 <= at < |prev| && Fellows(next, ids, c, near) == {prev[at].id}
  {
    var tier, fellows := Tier(prev, c, near, taken), Fellows(next, ids, c, near);
    ExactlyKnown(prev, next, stored, ids, taken);
    if |tier| == 1 {
      SoleCandidate(prev, c, near, taken, tier[0]);
      assert prev[tier[0]] in prev;
      FellowsAreCandidates(prev, next, stored, ids, c, near, taken, tier[0]);
    } else if |fellows| == 1 {
      var at := SoleFellow(prev, next, stored, ids, c, near, taken);
      SoleCandidate(prev, c, near, taken, at);
      assert false;
    }
  }

  lemma ExactlyKnown(prev: seq<Call>, next: seq<Call>, stored: set<string>, ids: set<string>, taken: set<string>)
    requires KnowsKeys(prev, next, stored) && NothingElse(prev, next) && Exactly(ids, prev, taken)
    ensures ids <= stored * IdSet(next) && ids !! taken
  {
  }

  /** A sole waiting call is the sole candidate. */
  lemma SoleFellow(prev: seq<Call>, next: seq<Call>, stored: set<string>, ids: set<string>, c: Call, near: bool,
                   taken: set<string>) returns (at: nat)
    requires KnowsKeys(prev, next, stored) && NothingElse(prev, next) && Exactly(ids, prev, taken)
    requires |Fellows(next, ids, c, near)| == 1
    ensures Candidate(prev, c, near, taken, at) && forall p :: Candidate(prev, c, near, taken, p) ==> p == at
  {
    var fellows := Fellows(next, ids, c, near);
    var x := OneElement(fellows);
    assert x in fellows;
    ExactlyKnown(prev, next, stored, ids, taken);
    var k: nat;
    at, k := WaitingRecord(prev, next, stored, x);
    var m :| 0 <= m < |next| && next[m].id in ids && next[m].fingerprint == c.fingerprint
             && (near ==> next[m].file == c.file) && next[m].id == x;
    forall p | Candidate(prev, c, near, taken, p) ensures p == at {
      assert prev[p] in prev && prev[p].id in ids;
      var q, i := WaitingRecord(prev, next, stored, prev[p].id);
      assert next[i].id in fellows;
      assert Id(prev[q]) == Id(prev[p]) && prev[p].id == x;
      assert Id(prev[p]) == Id(prev[at]);
    }
  }

  /** Then a turn takes from the index exactly what it takes from what waits. */
  lemma TurnIsExact(prev: seq<Call>, next: seq<Call>, stored: set<string>, ids: set<string>, c: Call,
                    taken: set<string>)
    requires KnowsKeys(prev, next, stored) && NothingElse(prev, next) && Exactly(ids, prev, taken)
    ensures var h := FindPrev(c, prev, taken);
            Exactly(AfterTurn(next, ids, c), prev, taken + (if h.Some? then {prev[h.value.at].id} else {}))
  {
    TurnTiers(prev, c, taken);
    OwnWaits(prev, c, ids, taken);
    hide Tier, FindPrev, Knows, KnowsKeys, FindId, Fellows;
    CandidatesAreFellows(prev, next, stored, ids, c, true, taken);
    CandidatesAreFellows(prev, next, stored, ids, c, false, taken);
  }

  lemma OwnWaits(prev: seq<Call>, c: Call, ids: set<string>, taken: set<string>)
    requires Exactly(ids, prev, taken)
    ensures FindId(prev, c.id) >= 0 && c.id !in taken <==> c.id in ids
  {
    FoundIds(prev, c.id);
  }

  lemma {:induction false} WaitingExactly(prev: seq<Call>, next: seq<Call>, stored: set<string>, i: nat)
    requires KnowsKeys(prev, next, stored) && NothingElse(prev, next) && i <= |next|
    ensures Exactly(Waiting(next, stored, i), prev, Taken(prev, Hits(prev, next[..i])))
  {
    if i == 0 {
      assert next[..0] == [] && Taken(prev, []) == {};
    } else {
      var ids, taken := Waiting(next, stored, i - 1), Taken(prev, Hits(prev, next[..i - 1]));
      assert Waiting(next, stored, i) == AfterTurn(next, ids, next[i - 1]);
      hide Hits, FindPrev, Taken, KnowsKeys, AfterTurn, NothingElse, Waiting, Exactly;
      WaitingExactly(prev, next, stored, i - 1);
      TakenGrows(prev, next, i - 1);
      TurnIsExact(prev, next, stored, ids, next[i - 1], taken);
    }
  }

  /** With nothing else stored, a call continues its record exactly if that still waits. */
  lemma ExactIffWaiting(prev: seq<Call>, next: seq<Call>, stored: set<string>, j: nat)
    requires KnowsKeys(prev, next, stored) && NothingElse(prev, next) && j < |next| && next[j].id in stored
    ensures ExactAt(prev, next, j) <==> StillWaiting(next, stored, j)
  {
    WaitingExactly(prev, next, stored, j);
    StoredFound(prev, next, stored, j);
    assert next[j] in next;
    hide Hits, Taken, Waiting;
    ExactUnlessTaken(prev, next, j);
  }

  // ----- such an index: a first scan that found just the stored calls

  function StoredCalls(next: seq<Call>, stored: set<string>): seq<Call> {
    if next == [] then []
    else
      var n := |next| - 1;
      StoredCalls(next[..n], stored) + (if next[n].id in stored then [next[n]] else [])
  }

  lemma {:induction false} StoredCallsMembers(next: seq<Call>, stored: set<string>)
    requires DistinctIds(next)
    ensures DistinctIds(StoredCalls(next, stored))
    ensures forall c :: c in StoredCalls(next, stored) <==> c in next && c.id in stored
  {
    if next != [] {
      var n := |next| - 1;
      LastIsNew(next);
      StoredCallsMembers(next[..n], stored);
      assert next == next[..n] + [next[n]];
      var before := StoredCalls(next[..n], stored);
      forall k | 0 <= k < |before| ensures before[k].id != next[n].id {
        assert before[k] in before && before[k] in next[..n];
      }
    }
  }

  /** The index after one scan that found just these calls. */
  function ScannedOnce(kept: seq<Call>, scan: Scan, opts: Options): seq<Call> {
    After([Step(kept, scan, opts)])
  }

  lemma {:induction false} ScannedOnceMembers(kept: seq<Call>, scan: Scan, opts: Options)
    requires DistinctIds(kept)
    ensures DistinctIds(ScannedOnce(kept, scan, opts))
    ensures forall r :: r in ScannedOnce(kept, scan, opts) <==> exists k :: 0 <= k < |kept| && r == Born(kept[k], scan)
  {
    var h := [Step(kept, scan, opts)];
    var seen := SeenAll([], kept, scan);
    assert h[..0] == [] && Run(h[..0]) == None;
    assert After(h) == SortCalls(seen);
    SeenDistinct([], kept, scan);
    SortDistinct(CanonicalLess, Id, seen);
    SortMembers(CanonicalLess, seen);
    SeenAllIds([], kept, scan);
    NothingBefore(kept);
    hide StableSort, SeenAll, Hits, DistinctIds, After;
    forall r ensures r in SortCalls(seen) <==> exists k :: 0 <= k < |kept| && r == Born(kept[k], scan) {
      if r in seen {
        var k :| 0 <= k < |seen| && seen[k] == r;
        assert r == Born(kept[k], scan);
      }
      if k :| 0 <= k < |kept| && r == Born(kept[k], scan) {
        assert seen[k] == r;
      }
    }
  }

  /** Its records are the stored calls of the scan. */
  lemma OnceRecords(next: seq<Call>, stored: set<string>, scan: Scan, opts: Options, r: Call)
    requires DistinctIds(next)
    ensures r in ScannedOnce(StoredCalls(next, stored), scan, opts)
       <==> exists k :: 0 <= k < |next| && next[k].id in stored && r == Born(next[k], scan)
  {
    var kept := StoredCalls(next, stored);
    StoredCallsMembers(next, stored);
    ScannedOnceMembers(kept, scan, opts);
    hide StoredCalls, ScannedOnce, DistinctIds;
    if k :| 0 <= k < |kept| && r == Born(kept[k], scan) {
      assert kept[k] in kept;
      var m :| 0 <= m < |next| && next[m] == kept[k];
    }
    if k :| 0 <= k < |next| && next[k].id in stored && r == Born(next[k], scan) {
      assert next[k] in kept;
      var m :| 0 <= m < |kept| && kept[m] == next[k];
    }
  }

  lemma OnceIds(next: seq<Call>, stored: set<string>, scan: Scan, opts: Options)
    requires DistinctIds(next)
    ensures IdSet(ScannedOnce(StoredCalls(next, stored), scan, opts)) == stored * IdSet(next)
  {
    var prev := ScannedOnce(StoredCalls(next, stored), scan, opts);
    hide ScannedOnce, StoredCalls, DistinctIds;
    forall id ensures id in IdSet(prev) <==> id in stored && id in IdSet(next) {
      if r :| r in prev && r.id == id {
        OnceRecords(next, stored, scan, opts, r);
        var k :| 0 <= k < |next| && next[k].id in stored && r == Born(next[k], scan);
        assert next[k] in next;
      }
      if c :| c in next && c.id == id && id in stored {
        var k :| 0 <= k < |next| && next[k] == c;
        OnceRecords(next, stored, scan, opts, Born(c, scan));
        assert Born(c, scan) in prev;
      }
    }
  }

  lemma OnceSame(next: seq<Call>, stored: set<string>, scan: Scan, opts: Options, r: Call, i: nat)
    requires DistinctIds(next) && i < |next|
    requires r in ScannedOnce(StoredCalls(next, stored), scan, opts) && r.id == next[i].id
    ensures r == Born(next[i], scan)
  {
    hide ScannedOnce, StoredCalls;
    OnceRecords(next, stored, scan, opts, r);
    var k :| 0 <= k < |next| && next[k].id in stored && r == Born(next[k], scan);
    assert k != i ==> Id(next[k]) != Id(next[i]);
  }

  lemma ScannedOnceKnows(next: seq<Call>, stored: set<string>, scan: Scan, opts: Options)
    requires DistinctIds(next)
    ensures var prev := ScannedOnce(StoredCalls(next, stored), scan, opts);
            KnowsKeys(prev, next, stored) && NothingElse(prev, next)
  {
    var prev := ScannedOnce(StoredCalls(next, stored), scan, opts);
    StoredCallsMembers(next, stored);
    ScannedOnceMembers(StoredCalls(next, stored), scan, opts);
    OnceIds(next, stored, scan, opts);
    hide ScannedOnce, StoredCalls, DistinctIds, IdSet;
    forall p, i | 0 <= p < |prev| && 0 <= i < |next| && prev[p].id == next[i].id
      ensures prev[p].fingerprint == next[i].fingerprint && prev[p].file == next[i].file
              && prev[p].client == next[i].client
    {
      assert prev[p] in prev;
      OnceSame(next, stored, scan, opts, prev[p], i);
    }
  }

  // ----- for every index

  /** A call is sure to continue the record of its own ID, whatever else the index holds. */
  ghost predicate SurelyExact(next: seq<Call>, j: nat, stored: set<string>)
    requires j < |next|
  {
    forall prev :: KnowsKeys(prev, next, stored) ==> ExactAt(prev, next, j)
  }

  /**
   A call whose ID is stored is sure to continue that record if and only if the record still waits
   at its turn when each earlier call takes its own waiting record or else a sole one of its target,
   in its file or anywhere. Otherwise a single earlier scan leaves an index in which it does not.
   */
  lemma {:induction false} SurelyExactIff(next: seq<Call>, j: nat, stored: set<string>, scan: Scan, opts: Options)
    requires DistinctIds(next) && j < |next| && next[j].id in stored
    ensures SurelyExact(next, j, stored) <==> StillWaiting(next, stored, j)
    ensures SurelyExact(next, j, stored) <==>
            ExactAt(ScannedOnce(StoredCalls(next, stored), scan, opts), next, j)
  {
    hide StillWaiting, ExactAt, ScannedOnce, StoredCalls;
    var once := ScannedOnce(StoredCalls(next, stored), scan, opts);
    ScannedOnceKnows(next, stored, scan, opts);
    ExactIffWaiting(once, next, stored, j);
    if StillWaiting(next, stored, j) {
      forall prev | KnowsKeys(prev, next, stored) ensures ExactAt(prev, next, j) {
        WaitingIsExact(prev, next, stored, j);
      }
    }
  }

  // ----- for all calls of a target at once

  /** The stored calls of the target of call `i` that stand behind it, in its file or anywhere. */
  function Behind(next: seq<Call>, stored: set<string>, i: nat, near: bool): set<string>
    requires i < |next|
  {
    set k | i < k < |next| && next[k].id in stored && next[k].fingerprint == next[i].fingerprint
            && (near ==> next[k].file == next[i].file) :: next[k].id
  }

  /** Call `i` is not stored, and of its target exactly one stored call stands behind it, in its file or at all. */
  predicate Robs(next: seq<Call>, stored: set<string>, i: nat)
    requires i < |next|
  {
    next[i].id !in stored && (|Behind(next, stored, i, true)| == 1 || |Behind(next, stored, i, false)| == 1)
  }

  /** All stored calls of the target that have not had their turn are waiting. */
  ghost predicate AllWait(next: seq<Call>, stored: set<string>, fp: string, i: nat)
    requires i <= |next|
  {
    forall k :: i <= k < |next| && next[k].fingerprint == fp && next[k].id in stored ==>
      next[k].id in Waiting(next, stored, i)
  }

  /** What waits at the turn of call `i` of the target is what stands behind it. */
  lemma BehindWaits(next: seq<Call>, stored: set<string>, i: nat, near: bool)
    requires DistinctIds(next) && i < |next| && next[i].id !in stored
    requires AllWait(next, stored, next[i].fingerprint, i) && NoneLeftBehind(next, stored, next[i].fingerprint, i)
    ensures Fellows(next, Waiting(next, stored, i), next[i], near) == Behind(next, stored, i, near)
  {
    WaitingKnown(next, stored, i);
    var ids := Waiting(next, stored, i);
    hide Waiting;
    forall id | id in Fellows(next, ids, next[i], near) ensures id in Behind(next, stored, i, near) {
      var k :| 0 <= k < |next| && next[k].id in ids && next[k].fingerprint == next[i].fingerprint
               && (near ==> next[k].file == next[i].file) && next[k].id == id;
      assert k > i;
    }
    forall id | id in Behind(next, stored, i, near) ensures id in Fellows(next, ids, next[i], near) {
      var k :| i < k < |next| && next[k].id in stored && next[k].fingerprint == next[i].fingerprint
               && (near ==> next[k].file == next[i].file) && next[k].id == id;
      assert next[k].id in ids;
    }
  }

  /** No stored call of the target that has had its turn is waiting. */
  ghost predicate NoneLeftBehind(next: seq<Call>, stored: set<string>, fp: string, i: nat)
    requires i <= |next|
  {
    forall k :: 0 <= k < i && next[k].fingerprint == fp ==> next[k].id !in Waiting(next, stored, i)
  }

  lemma {:induction false} TurnsOver(next: seq<Call>, stored: set<string>, fp: string, i: nat)
    requires i <= |next|
    ensures NoneLeftBehind(next, stored, fp, i)
  {
    if i > 0 {
      TurnsOver(next, stored, fp, i - 1);
      WaitingShrinks(next, stored, i - 1, i);
      hide Waiting, Fellows;
      OwnTurnOver(next, stored, i - 1);
    }
  }

  lemma OwnTurnOver(next: seq<Call>, stored: set<string>, i: nat)
    requires i < |next|
    ensures next[i].id !in Waiting(next, stored, i + 1)
  {
  }

  /** A turn of another target takes nothing of this one. */
  lemma OtherTarget(next: seq<Call>, ids: set<string>, c: Call, k: nat)
    requires DistinctIds(next) && c in next && k < |next| && next[k].fingerprint != c.fingerprint && next[k].id in ids
    ensures next[k].id in AfterTurn(next, ids, c)
  {
    var i :| 0 <= i < |next| && next[i] == c;
    forall m | 0 <= m < |next| && next[m].id == next[k].id ensures m == k {
      assert m != k ==> Id(next[m]) != Id(next[k]);
    }
  }

  lemma {:induction false} AllWaitUntil(next: seq<Call>, stored: set<string>, fp: string, i: nat)
    requires DistinctIds(next) && i <= |next|
    requires forall k: nat :: k < i && next[k].fingerprint == fp ==> !Robs(next, stored, k)
    ensures AllWait(next, stored, fp, i)
  {
    if i == 0 {
      assert forall k :: 0 <= k < |next| ==> next[k] in next;
    } else {
      AllWaitUntil(next, stored, fp, i - 1);
      TurnsOver(next, stored, fp, i - 1);
      hide Robs, Fellows, Behind;
      forall k | i <= k < |next| && next[k].fingerprint == fp && next[k].id in stored
        ensures next[k].id in Waiting(next, stored, i)
      {
        WaitsOn(next, stored, i - 1, k);
      }
    }
  }

  /** A call that robs nobody leaves a later stored call's record alone. */
  lemma WaitsOn(next: seq<Call>, stored: set<string>, i: nat, k: nat)
    requires DistinctIds(next) && i < k < |next| && next[k].id in Waiting(next, stored, i)
    requires next[i].fingerprint == next[k].fingerprint ==>
               && !Robs(next, stored, i) && AllWait(next, stored, next[i].fingerprint, i)
               && NoneLeftBehind(next, stored, next[i].fingerprint, i)
    ensures next[k].id in Waiting(next, stored, i + 1)
  {
    assert Id(next[i]) != Id(next[k]);
    var ids := Waiting(next, stored, i);
    assert Waiting(next, stored, i + 1) == AfterTurn(next, ids, next[i]);
    assert AllWait(next, stored, next[i].fingerprint, i) && next[i].id in stored ==> next[i].id in ids;
    hide Waiting, Behind, Fellows, AllWait, NoneLeftBehind;
    if next[i].fingerprint != next[k].fingerprint {
      OtherTarget(next, ids, next[i], k);
    } else if next[i].id !in stored {
      BehindWaits(next, stored, i, true);
      BehindWaits(next, stored, i, false);
    }
  }

  /** The first call that robs takes a stored call's record before its turn. */
  lemma RobbedCall(next: seq<Call>, stored: set<string>, i: nat) returns (j: nat)
    requires DistinctIds(next) && i < |next| && Robs(next, stored, i)
    requires forall k: nat :: k < i && next[k].fingerprint == next[i].fingerprint ==> !Robs(next, stored, k)
    ensures i < j < |next| && next[j].fingerprint == next[i].fingerprint && next[j].id in stored
    ensures !StillWaiting(next, stored, j)
  {
    var fp := next[i].fingerprint;
    AllWaitUntil(next, stored, fp, i);
    TurnsOver(next, stored, fp, i);
    BehindWaits(next, stored, i, true);
    BehindWaits(next, stored, i, false);
    WaitingKnown(next, stored, i);
    var near := |Behind(next, stored, i, true)| == 1;
    var robbed := Behind(next, stored, i, near);
    var x := OneElement(robbed);
    assert x in robbed;
    j :| i < j < |next| && next[j].id in stored && next[j].fingerprint == fp && next[j].id == x;
    assert x !in Waiting(next, stored, i + 1);
    WaitingShrinks(next, stored, i + 1, j);
  }

  lemma {:induction false} FirstRobber(next: seq<Call>, stored: set<string>, i: nat) returns (r: nat)
    requires i < |next| && Robs(next, stored, i)
    ensures r <= i && Robs(next, stored, r) && next[r].fingerprint == next[i].fingerprint
    ensures forall k: nat :: k < r && next[k].fingerprint == next[r].fingerprint ==> !Robs(next, stored, k)
    decreases i
  {
    r := i;
    if k: nat :| k < i && next[k].fingerprint == next[i].fingerprint && Robs(next, stored, k) {
      r := FirstRobber(next, stored, k);
    }
  }

  ghost predicate AllSurelyExact(next: seq<Call>, stored: set<string>, fp: string) {
    forall j :: 0 <= j < |next| && next[j].fingerprint == fp && next[j].id in stored ==> SurelyExact(next, j, stored)
  }

  /**
   Every stored call of a target is sure to continue its own record if and only if no call of the
   target that is not stored has exactly one stored call of the target behind it, in its file or at all.
   */
  lemma TargetSurelyExactIff(next: seq<Call>, stored: set<string>, fp: string, scan: Scan, opts: Options)
    requires DistinctIds(next)
    ensures AllSurelyExact(next, stored, fp)
       <==> forall i: nat :: i < |next| && next[i].fingerprint == fp ==> !Robs(next, stored, i)
  {
    hide SurelyExact, Robs, ScannedOnce, StoredCalls;
    if forall i: nat :: i < |next| && next[i].fingerprint == fp ==> !Robs(next, stored, i) {
      forall j | 0 <= j < |next| && next[j].fingerprint == fp && next[j].id in stored
        ensures SurelyExact(next, j, stored)
      {
        AllWaitUntil(next, stored, fp, j);
        SurelyExactIff(next, j, stored, scan, opts);
      }
    } else {
      var i: nat :| i < |next| && next[i].fingerprint == fp && Robs(next, stored, i);
      var r := FirstRobber(next, stored, i);
      var j := RobbedCall(next, stored, r);
      SurelyExactIff(next, j, stored, scan, opts);
    }
  }

  // ----- two inputs

  /** Three calls of one target in three files, the first of them new: the other two are sure to keep their records. */
  lemma NewThirdFile(a: Call, b: Call, c: Call, scan: Scan, opts: Options)
    requires a.fingerprint == b.fingerprint == c.fingerprint
    requires a.file != b.file && a.file != c.file && b.file != c.file
    requires a.id != b.id && a.id != c.id && b.id != c.id
    ensures var next := [a, b, c]; SurelyExact(next, 1, {b.id, c.id}) && SurelyExact(next, 2, {b.id, c.id})
  {
    var next, stored := [a, b, c], {b.id, c.id};
    assert Behind(next, stored, 0, true) == {};
    assert next[1].id in Behind(next, stored, 0, false) && next[2].id in Behind(next, stored, 0, false);
    assert Behind(next, stored, 0, false) == stored;
    assert |stored| == 2;
    assert forall i: nat :: i < |next| && next[i].fingerprint == a.fingerprint ==> !Robs(next, stored, i);
    hide Robs, Behind, SurelyExact;
    TargetSurelyExactIff(next, stored, a.fingerprint, scan, opts);
    assert next[1].id in stored && next[2].id in stored;
  }

  /** Two calls of one target, the first of them new: the first takes the record of the second, in any file. */
  lemma NewSecondFile(a: Call, b: Call, scan: Scan, opts: Options)
    requires a.fingerprint == b.fingerprint && a.id != b.id
    ensures !ExactAt(ScannedOnce([b], scan, opts), [a, b], 1)
  {
    var next, stored := [a, b], {b.id};
    assert next[..1] == [a] && [a][..0] == [] && StoredCalls([], stored) == [] && StoredCalls([a], stored) == [];
    assert StoredCalls(next, stored) == [b];
    var ids := Waiting(next, stored, 0);
    assert b in next && ids == {b.id};
    assert next[1].id in Fellows(next, ids, a, false);
    assert Fellows(next, ids, a, false) == {b.id};
    assert Finds(next, stored, 0, b.id);
    hide Finds, Fellows, Waiting, StillWaiting, ScannedOnce, StoredCalls, SurelyExact, ExactAt;
    StillWaitingIff(next, stored, 1);
    SurelyExactIff(next, 1, stored, scan, opts);
  }
}
