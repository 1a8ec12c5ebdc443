/**
 What the store's operations make of a finding, a run and a decision (internal/store/store.go,
 internal/model/model.go), said in the names of severities and states and field by field.
 */
module FindingLaws {
  import opened Strs
  import opened Sorting
  import opened StoreState
  import opened StoreLaws

  /** The batch holds a sighting of the fingerprint with this severity. */
  predicate Sighted(batch: seq<Finding>, fp: string, severity: string) {
    exists i :: 0 <= i < |batch| && batch[i].fingerprint == fp && batch[i].severity == severity
  }

  predicate Sightings(batch: seq<Finding>, fp: string) {
    exists i :: 0 <= i < |batch| && batch[i].fingerprint == fp
  }

  predicate Corroborating(batch: seq<Finding>, fp: string) {
    exists i :: 0 <= i < |batch| && batch[i].fingerprint == fp && batch[i].corroborated
  }

  predicate LastSighting(batch: seq<Finding>, fp: string, i: nat)
    requires i < |batch|
  {
    batch[i].fingerprint == fp && forall j :: i < j < |batch| ==> batch[j].fingerprint != fp
  }

  /** The positions of the batch that sight the fingerprint. */
  function Sights(batch: seq<Finding>, fp: string): set<nat> {
    set i: nat | i < |batch| && batch[i].fingerprint == fp
  }

  /** The severity of a stored finding after a batch: breaking beats risky, risky beats the rest. */
  predicate SeverityAfter(was: string, batch: seq<Finding>, fp: string, now: string) {
    if was == "breaking" || Sighted(batch, fp, "breaking") then now == "breaking"
    else if was == "risky" || Sighted(batch, fp, "risky") then now == "risky"
    else now == was
  }

  /** What a batch makes of the severity and the state of a stored finding. */
  predicate Triage(e: Finding, batch: seq<Finding>, fp: string, r: Finding) {
    && SeverityAfter(e.severity, batch, fp, r.severity)
    && (e.status == "acked" && Worsens(batch, fp, e.severity)
        ==> r.status == "open" && r.note == "reopened: severity increased")
    && (e.status == "resolved" && Sightings(batch, fp) ==> r.status == "open" && r.note == "reopened: seen again")
    && (!(e.status == "acked" && Worsens(batch, fp, e.severity)) && !(e.status == "resolved" && Sightings(batch, fp))
        ==> r.status == e.status && r.note == e.note)
  }

  /** The commits, links and citations are those of the last sighting. */
  predicate BasedOnLast(batch: seq<Finding>, fp: string, r: Finding) {
    forall i :: 0 <= i < |batch| && LastSighting(batch, fp, i) ==> r.basis == batch[i].basis
  }

  /** What a batch makes of what is known of a stored finding. */
  predicate Evidence(e: Finding, batch: seq<Finding>, fp: string, now: Time, r: Finding) {
    && (r.corroborated <==> e.corroborated || Corroborating(batch, fp))
    && (Sightings(batch, fp) ==> r.lastSeen == now)
    && BasedOnLast(batch, fp, r)
    && r.occurrences == e.occurrences + |Sights(batch, fp)|
    && (!Sightings(batch, fp) ==> r == e)
  }

  /** A batch changes nothing else of a stored finding. */
  predicate Updated(e: Finding, batch: seq<Finding>, fp: string, now: Time, r: Finding) {
    && Triage(e, batch, fp, r) && Evidence(e, batch, fp, now, r)
    && r == e.(severity := r.severity, status := r.status, note := r.note, corroborated := r.corroborated,
               lastSeen := r.lastSeen, occurrences := r.occurrences, basis := r.basis)
  }

  lemma SightedMore(batch: seq<Finding>, fp: string, severity: string)
    requires batch != []
    ensures var n := |batch| - 1;
            Sighted(batch, fp, severity)
            <==> Sighted(batch[..n], fp, severity) || (batch[n].fingerprint == fp && batch[n].severity == severity)
  {
    var n := |batch| - 1;
    if i :| 0 <= i < |batch| && batch[i].fingerprint == fp && batch[i].severity == severity && i < n {
      assert batch[..n][i].fingerprint == fp;
    }
    if Sighted(batch[..n], fp, severity) {
      var i :| 0 <= i < n && batch[..n][i].fingerprint == fp && batch[..n][i].severity == severity;
      assert batch[i] == batch[..n][i];
    }
  }

  lemma SightingsMore(batch: seq<Finding>, fp: string)
    requires batch != []
    ensures var n := |batch| - 1;
            Sightings(batch, fp) <==> Sightings(batch[..n], fp) || batch[n].fingerprint == fp
  {
    var n := |batch| - 1;
    if i :| 0 <= i < |batch| && batch[i].fingerprint == fp && i < n {
      assert batch[..n][i].fingerprint == fp;
    }
    if Sightings(batch[..n], fp) {
      var i :| 0 <= i < n && batch[..n][i].fingerprint == fp;
      assert batch[i] == batch[..n][i];
    }
  }

  lemma CorroboratingMore(batch: seq<Finding>, fp: string)
    requires batch != []
    ensures var n := |batch| - 1;
            Corroborating(batch, fp)
            <==> Corroborating(batch[..n], fp) || (batch[n].fingerprint == fp && batch[n].corroborated)
  {
    var n := |batch| - 1;
    if i :| 0 <= i < |batch| && batch[i].fingerprint == fp && batch[i].corroborated && i < n {
      assert batch[..n][i].fingerprint == fp;
    }
    if Corroborating(batch[..n], fp) {
      var i :| 0 <= i < n && batch[..n][i].fingerprint == fp && batch[..n][i].corroborated;
      assert batch[i] == batch[..n][i];
    }
  }

  lemma SightsMore(batch: seq<Finding>, fp: string)
    requires batch != []
    ensures var n := |batch| - 1;
            |Sights(batch, fp)| == |Sights(batch[..n], fp)| + (if batch[n].fingerprint == fp then 1 else 0)
  {
    var n := |batch| - 1;
    assert Sights(batch, fp) == Sights(batch[..n], fp) + (if batch[n].fingerprint == fp then {n} else {});
  }

  /** Counting a fingerprint in a batch counts the positions that sight it. */
  lemma {:induction false} CountIsSights(batch: seq<Finding>, fp: string)
    ensures Count(batch, fp) == |Sights(batch, fp)|
  {
    if batch == [] {
      assert Sights(batch, fp) == {};
    } else {
      CountIsSights(batch[..|batch| - 1], fp);
      SightsMore(batch, fp);
      hide Sights;
    }
  }

  lemma BasedMore(batch: seq<Finding>, fp: string, r: Finding, r': Finding)
    requires batch != []
    requires batch[|batch| - 1].fingerprint == fp ==> r'.basis == batch[|batch| - 1].basis
    requires batch[|batch| - 1].fingerprint != fp ==> r' == r && BasedOnLast(batch[..|batch| - 1], fp, r)
    ensures BasedOnLast(batch, fp, r')
  {
    var n := |batch| - 1;
    forall i | 0 <= i < |batch| && LastSighting(batch, fp, i) ensures r'.basis == batch[i].basis {
      if i < n { assert LastSighting(batch[..n], fp, i) && batch[..n][i] == batch[i]; }
    }
  }

  lemma WorsensIff(batch: seq<Finding>, fp: string, was: string)
    ensures Worsens(batch, fp, was)
       <==> was != "breaking" && (Sighted(batch, fp, "breaking") || (was != "risky" && Sighted(batch, fp, "risky")))
  {
  }

  lemma TriageMore(e: Finding, batch: seq<Finding>, fp: string, now: Time, r: Finding)
    requires batch != [] && Triage(e, batch[..|batch| - 1], fp, r)
    ensures var f := batch[|batch| - 1];
            Triage(e, batch, fp, if f.fingerprint == fp then SeenAgain(r, f, now) else r)
  {
    SightedMore(batch, fp, "breaking");
    SightedMore(batch, fp, "risky");
    SightingsMore(batch, fp);
    WorsensStep(batch, fp, e.severity);
    WorsensIff(batch[..|batch| - 1], fp, e.severity);
    hide Sighted, Sightings, Worsens;
  }

  lemma EvidenceMore(e: Finding, batch: seq<Finding>, fp: string, now: Time, r: Finding)
    requires batch != [] && Evidence(e, batch[..|batch| - 1], fp, now, r)
    ensures var f := batch[|batch| - 1];
            Evidence(e, batch, fp, now, if f.fingerprint == fp then SeenAgain(r, f, now) else r)
  {
    SightingsMore(batch, fp);
    CorroboratingMore(batch, fp);
    SightsMore(batch, fp);
    var f := batch[|batch| - 1];
    BasedMore(batch, fp, r, if f.fingerprint == fp then SeenAgain(r, f, now) else r);
    hide BasedOnLast, Sightings, Corroborating, Sights;
  }

  /** Sighting one finding more. */
  lemma UpdatedMore(e: Finding, batch: seq<Finding>, fp: string, now: Time, r: Finding)
    requires batch != [] && Updated(e, batch[..|batch| - 1], fp, now, r)
    ensures var f := batch[|batch| - 1];
            Updated(e, batch, fp, now, if f.fingerprint == fp then SeenAgain(r, f, now) else r)
  {
    TriageMore(e, batch, fp, now, r);
    EvidenceMore(e, batch, fp, now, r);
    hide Triage, Evidence;
  }

  /** A stored finding after a batch, field by field. */
  lemma {:induction false} SeenIsUpdated(e: Finding, batch: seq<Finding>, fp: string, now: Time)
    ensures Seen(Some(e), batch, fp, now).Some? && Updated(e, batch, fp, now, Seen(Some(e), batch, fp, now).value)
  {
    if batch == [] {
      assert Sights(batch, fp) == {};
    } else {
      var n := |batch| - 1;
      SeenIsUpdated(e, batch[..n], fp, now);
      hide Updated, SeenAgain;
      UpdatedMore(e, batch, fp, now, Seen(Some(e), batch[..n], fp, now).value);
    }
  }

  /** Unseen fingerprints stay unseen. */
  lemma {:induction false} NeverSighted(batch: seq<Finding>, fp: string, now: Time)
    requires !Sightings(batch, fp)
    ensures Seen(None, batch, fp, now) == None
  {
    if batch != [] {
      SightingsMore(batch, fp);
      NeverSighted(batch[..|batch| - 1], fp, now);
    }
  }

  /** What the first sighting of a fingerprint stores. */
  predicate New(f: Finding, now: Time, r: Finding) {
    && r.firstSeen == now && r.lastSeen == now && r.occurrences == 1
    && (f.status == "" ==> r.status == "open") && (f.status != "" ==> r.status == f.status)
    && r == f.(firstSeen := r.firstSeen, lastSeen := r.lastSeen, occurrences := r.occurrences, status := r.status)
  }

  /** A fingerprint not stored yet: its first sighting is stored, and the later ones update it. */
  lemma {:induction false} FirstSightStored(batch: seq<Finding>, fp: string, now: Time, i: nat)
    requires i < |batch| && batch[i].fingerprint == fp && !Sightings(batch[..i], fp)
    ensures exists first :: New(batch[i], now, first)
                            && Seen(None, batch, fp, now) == Seen(Some(first), batch[i + 1..], fp, now)
  {
    var n := |batch| - 1;
    if i == n {
      NeverSighted(batch[..n], fp, now);
      var first := FirstSight(batch[n], now);
      assert batch[n + 1..] == [];
      assert New(batch[i], now, first) && Seen(None, batch, fp, now) == Seen(Some(first), batch[i + 1..], fp, now);
    } else {
      assert batch[..n][..i] == batch[..i] && batch[..n][i + 1..] == batch[i + 1..][..n - i - 1];
      FirstSightStored(batch[..n], fp, now, i);
      var first :| New(batch[i], now, first)
                   && Seen(None, batch[..n], fp, now) == Seen(Some(first), batch[..n][i + 1..], fp, now);
      assert |batch[i + 1..]| == n - i && batch[i + 1..][n - i - 1] == batch[n];
      hide New, SeenAgain;
      assert Seen(None, batch, fp, now) == Seen(Some(first), batch[i + 1..], fp, now);
    }
  }

  lemma AfterUpsert(t: Timed, s: State, fp: string)
    requires UniqueFps(s.findings) && t.op.UpsertFindings?
    ensures Apply(t, s).Some? && UniqueFps(Apply(t, s).value.findings)
    ensures Stored(Apply(t, s).value.findings, fp) == Seen(Stored(s.findings, fp), t.op.batch, fp, t.now)
  {
    UpsertStored(s.findings, t.op.batch, t.now, fp);
    StoredAfterSort(Upsert(s.findings, t.op.batch, t.now), fp);
  }

  /** Upserting a batch: what becomes of a stored finding. */
  lemma StoredIsUpdated(t: Timed, s: State, e: Finding) returns (r: Finding)
    requires UniqueFps(s.findings) && t.op.UpsertFindings? && e in s.findings
    ensures Apply(t, s).Some? && r in Apply(t, s).value.findings
    ensures Updated(e, t.op.batch, e.fingerprint, t.now, r)
  {
    hide Updated, Seen, Apply;
    AfterUpsert(t, s, e.fingerprint);
    StoredIs(s.findings, e);
    SeenIsUpdated(e, t.op.batch, e.fingerprint, t.now);
    r := Stored(Apply(t, s).value.findings, e.fingerprint).value;
  }

  /** And of a sighting, the batch's first, of what was not stored: it is stored as new, open if it
      says nothing else, and updated by the rest of the batch. */
  lemma SightingIsStored(t: Timed, s: State, i: nat) returns (first: Finding, r: Finding)
    requires UniqueFps(s.findings) && t.op.UpsertFindings? && i < |t.op.batch|
    requires forall e :: e in s.findings ==> e.fingerprint != t.op.batch[i].fingerprint
    requires !Sightings(t.op.batch[..i], t.op.batch[i].fingerprint)
    ensures New(t.op.batch[i], t.now, first) && Apply(t, s).Some? && r in Apply(t, s).value.findings
    ensures Updated(first, t.op.batch[i + 1..], first.fingerprint, t.now, r)
  {
    hide Updated, Seen, Apply;
    var fp := t.op.batch[i].fingerprint;
    AfterUpsert(t, s, fp);
    FirstSightStored(t.op.batch, fp, t.now, i);
    first :| New(t.op.batch[i], t.now, first)
             && Seen(None, t.op.batch, fp, t.now) == Seen(Some(first), t.op.batch[i + 1..], fp, t.now);
    SeenIsUpdated(first, t.op.batch[i + 1..], fp, t.now);
    r := Stored(Apply(t, s).value.findings, fp).value;
  }

  /** Nothing else is stored. */
  lemma NothingElseStored(t: Timed, s: State, r: Finding)
    requires UniqueFps(s.findings) && t.op.UpsertFindings? && Apply(t, s).Some? && r in Apply(t, s).value.findings
    ensures Sightings(t.op.batch, r.fingerprint) || r in s.findings
  {
    hide Seen, Apply;
    var fp := r.fingerprint;
    AfterUpsert(t, s, fp);
    StoredIs(Apply(t, s).value.findings, r);
    if !Sightings(t.op.batch, fp) {
      match Stored(s.findings, fp) {
        case None => NeverSighted(t.op.batch, fp, t.now);
        case Some(e) => SeenIsUpdated(e, t.op.batch, fp, t.now);
      }
    }
  }

  /** An acknowledged risky finding that turns breaking is open again. */
  lemma AckedRiskyTurnsBreaking(t: Timed, s: State, e: Finding) returns (r: Finding)
    requires UniqueFps(s.findings) && t.op.UpsertFindings? && e in s.findings
    requires e.severity == "risky" && e.status == "acked" && Sighted(t.op.batch, e.fingerprint, "breaking")
    ensures Apply(t, s).Some? && r in Apply(t, s).value.findings && r.fingerprint == e.fingerprint
    ensures r.severity == "breaking" && r.status == "open"
  {
    r := StoredIsUpdated(t, s, e);
  }

  /** A breaking finding stays one, and stays dismissed, whatever is sighted. */
  lemma BreakingStaysBreaking(t: Timed, s: State, e: Finding) returns (r: Finding)
    requires UniqueFps(s.findings) && t.op.UpsertFindings? && e in s.findings && e.severity == "breaking"
    ensures Apply(t, s).Some? && r in Apply(t, s).value.findings && r.fingerprint == e.fingerprint
    ensures r.severity == "breaking" && (e.status == "acked" ==> r.status == "acked")
  {
    r := StoredIsUpdated(t, s, e);
  }

  /** Retiring what a complete run no longer found: which findings it resolves, and in whose name. */
  predicate Retired(t: Timed, e: Finding, r: Finding)
    requires t.op.ResolveStaleFindings?
  {
    r == if e.signal == t.op.signal && e.repoKey == t.op.repoKey && e.fingerprint !in t.op.live && e.status != "resolved"
         then e.(status := "resolved", note := t.op.reason, who := "monitor", statusAt := Some(t.now)) else e
  }

  lemma {:induction false} RetirementIs(t: Timed, s: State, r: Finding)
    requires t.op.ResolveStaleFindings? && Apply(t, s).Some?
    ensures r in Apply(t, s).value.findings <==> exists e :: e in s.findings && Retired(t, e, r)
  {
    var fs := ResolveStale(s.findings, t.op.signal, t.op.repoKey, t.op.live, t.op.reason, t.now);
    SortMembers(FindingLess, fs);
    hide StableSort, ResolveStale;
    if r in fs {
      var i :| 0 <= i < |fs| && fs[i] == r;
      RetiredAt(t, s.findings, i);
      assert s.findings[i] in s.findings;
    }
    if e :| e in s.findings && Retired(t, e, r) {
      var i :| 0 <= i < |s.findings| && s.findings[i] == e;
      RetiredAt(t, s.findings, i);
      assert fs[i] == r;
    }
  }

  lemma {:induction false} RetiredAt(t: Timed, fs: seq<Finding>, i: nat)
    requires t.op.ResolveStaleFindings? && i < |fs|
    ensures Retired(t, fs[i], ResolveStale(fs, t.op.signal, t.op.repoKey, t.op.live, t.op.reason, t.now)[i])
  {
  }

  /** The first finding of that ID or fingerprint. */
  predicate FirstOf(fs: seq<Finding>, id: string, i: nat) {
    && i < |fs| && (fs[i].id == id || fs[i].fingerprint == id)
    && forall k :: 0 <= k < i ==> fs[k].id != id && fs[k].fingerprint != id
  }

  /** Setting a state by hand changes the first finding of that name as told, and no other; without one it fails. */
  lemma {:induction false} TriageIs(t: Timed, s: State, i: nat)
    requires t.op.SetFindingStatus?
    ensures Apply(t, s) == None <==> forall f :: f in s.findings ==> f.id != t.op.id && f.fingerprint != t.op.id
    ensures FirstOf(s.findings, t.op.id, i) ==>
              var r := s.findings[i].(status := t.op.status, note := t.op.note, who := t.op.who,
                                      statusAt := Some(t.now), mutedUntil := t.op.muted);
              && Apply(t, s).Some?
              && multiset(Apply(t, s).value.findings) == multiset(s.findings[i := r])
  {
    var n := FirstNamed(s.findings, t.op.id);
    hide StableSort, FirstNamed;
    if FirstOf(s.findings, t.op.id, i) {
      assert n == i;
      var r := Triaged(s.findings[i], t.op.status, t.op.note, t.op.who, t.op.muted, t.now);
      SortMultiset(FindingLess, s.findings[i := r]);
    }
    if n >= 0 { assert s.findings[n] in s.findings; }
  }

  // ----- the order of the document

  predicate Known(f: Finding) {
    f.severity == "breaking" || f.severity == "risky" || f.severity == "info"
  }

  /** `a` is no less severe than `b`. */
  predicate NoMilder(a: Finding, b: Finding) {
    && (b.severity == "breaking" ==> a.severity == "breaking")
    && (b.severity == "risky" ==> a.severity == "breaking" || a.severity == "risky")
  }

  /** No finding stands behind a less severe one. */
  predicate SeverestFirst(fs: seq<Finding>) {
    forall i, j :: 0 <= i < j < |fs| ==> NoMilder(fs[i], fs[j])
  }

  /** Of two findings alike in severity the corroborated comes first, then the later seen, then by ID. */
  predicate InOrder(a: Finding, b: Finding) {
    && (b.corroborated ==> a.corroborated)
    && (a.corroborated == b.corroborated ==> a.lastSeen >= b.lastSeen)
    && (a.corroborated == b.corroborated && a.lastSeen == b.lastSeen && a.id != b.id ==> LexLess(a.id, b.id))
  }

  predicate InOrderAll(fs: seq<Finding>) {
    forall i, j :: 0 <= i < j < |fs| && fs[i].severity == fs[j].severity ==> InOrder(fs[i], fs[j])
  }

  /** Every write leaves no finding behind a less severe one. */
  lemma NormalizedSeverestFirst(t: Timed, s: State)
    requires Apply(t, s).Some?
    ensures SeverestFirst(Apply(t, s).value.findings)
  {
    SortAscending(FindingLess, NoMilder, Mutate(t, s).value.findings);
  }

  /** What sorting compares, for findings of known severities. */
  predicate Precedes(a: Finding, b: Finding) {
    || Rank(a.severity) < Rank(b.severity)
    || (Rank(a.severity) == Rank(b.severity)
        && ((a.corroborated && !b.corroborated)
            || (a.corroborated == b.corroborated
                && (a.lastSeen > b.lastSeen || (a.lastSeen == b.lastSeen && LexLess(a.id, b.id))))))
  }

  lemma PrecedesOrder()
    ensures StrictWeak(Precedes)
  {
    forall x, y | Precedes(x, y) ensures !Precedes(y, x) {
      LexTotal(x.id, y.id);
    }
    forall x, y, z | !Precedes(x, y) && !Precedes(y, z) ensures !Precedes(x, z) {
      PrecedesTransitive(x, y, z);
    }
  }

  lemma PrecedesTransitive(x: Finding, y: Finding, z: Finding)
    requires !Precedes(x, y) && !Precedes(y, z)
    ensures !Precedes(x, z)
  {
    if !LexLess(x.id, y.id) && !LexLess(y.id, z.id) { LexTransitive(x.id, y.id, z.id); }
  }

  /** Two orders that agree on a list sort it alike. */
  lemma {:induction false} InsertAgrees<T>(p: (T, T) -> bool, q: (T, T) -> bool, xs: seq<T>, x: T)
    requires forall y :: y in xs ==> p(x, y) == q(x, y)
    ensures Insert(p, xs, x) == Insert(q, xs, x)
  {
    if xs != [] { InsertAgrees(p, q, xs[..|xs| - 1], x); }
  }

  lemma {:induction false} SortAgrees<T>(p: (T, T) -> bool, q: (T, T) -> bool, xs: seq<T>)
    requires forall x, y :: x in xs && y in xs ==> p(x, y) == q(x, y)
    ensures StableSort(p, xs) == StableSort(q, xs)
  {
    if xs != [] {
      var init := xs[..|xs| - 1];
      SortAgrees(p, q, init);
      SortMultiset(p, init);
      var x := xs[|xs| - 1];
      forall y | y in StableSort(p, init) ensures p(x, y) == q(x, y) {
        assert y in multiset(StableSort(p, init));
        assert x in xs && y in xs;
      }
      InsertAgrees(p, q, StableSort(p, init), x);
    }
  }

  /** Where all severities are known, findings alike in severity stand in their order. */
  lemma NormalizedInOrder(t: Timed, s: State)
    requires Apply(t, s).Some? && forall f :: f in Mutate(t, s).value.findings ==> Known(f)
    ensures InOrderAll(Apply(t, s).value.findings)
  {
    var fs := Mutate(t, s).value.findings;
    var r := StableSort(FindingLess, fs);
    SortAgrees(FindingLess, Precedes, fs);
    PrecedesOrder();
    SortSorted(Precedes, fs);
    hide StableSort, Mutate;
    forall i, j | 0 <= i < j < |r| && r[i].severity == r[j].severity ensures InOrder(r[i], r[j]) {
      assert !Precedes(r[j], r[i]);
      LexTotal(r[i].id, r[j].id);
    }
  }

  // ----- runs, links and decisions

  lemma LatestCount(runs: seq<Run>, last: nat)
    requires LatestFirst(runs, last)
    ensures |runs| <= 50
  {
  }

  /** A start puts one run in front: the next number under its own ID, unfinished, begun now. */
  lemma StartedRun(t: Timed, s: State)
    requires t.op.StartRun? && LatestFirst(s.runs, s.runSeq)
    ensures Apply(t, s).Some?
    ensures var after := Apply(t, s).value;
            && after.runSeq == s.runSeq + 1 && after.runs != []
            && after.runs[0].number == s.runSeq + 1 && after.runs[0].startedAt == t.now
            && after.runs[0].trigger == t.op.trigger
            && !after.runs[0].complete && after.runs[0].finishedAt == None
            && (exists d: string :: after.runs[0].id == "r_" + d && d != "" && AllDigits(d) && Number(d) == s.runSeq + 1)
            && after.runs[1..] == if |s.runs| == 50 then s.runs[..49] else s.runs
  {
    hide LatestFirst, StableSort, Number, AllDigits;
    LatestCount(s.runs, s.runSeq);
    var run := NewRun(s.runSeq + 1, t.op.trigger, t.now);
    StartSorts(s.runs, s.runSeq, run);
    assert run.id == "r_" + Itoa(s.runSeq + 1);
  }

  /** Finishing a stored run replaces its record by the one handed in, complete and finished now. */
  lemma FinishedRun(t: Timed, s: State)
    requires t.op.CompleteRun? && LatestFirst(s.runs, s.runSeq) && Legal(t, s)
    ensures Apply(t, s).Some? && |Apply(t, s).value.runs| == |s.runs| && Apply(t, s).value.runSeq == s.runSeq
    ensures forall i :: 0 <= i < |s.runs| ==>
              Apply(t, s).value.runs[i]
              == if s.runs[i].number == t.op.run.number
                 then t.op.run.(finishedAt := Some(t.now), complete := true) else s.runs[i]
  {
    hide RunId, StableSort;
    var run, last := t.op.run, s.runSeq;
    var done := Finished(run, t.now);
    FoundAt(s.runs, last, run.number);
    hide FindRun;
    if last - run.number < |s.runs| {
      var i := last - run.number;
      FinishInPlace(s.runs, last, run, t.now, i);
      LatestFirstSorted(s.runs[i := done], last);
    } else {
      EvictedSorts(s.runs, last, done);
    }
  }

  /** A link gets a role and a status where it names none, is dated now, and keeps its first date. */
  lemma LinkedAs(t: Timed, s: State) returns (r: Upstream)
    requires t.op.Link? && UniqueLinks(s.upstreams)
    ensures Apply(t, s).Some? && r in Apply(t, s).value.upstreams
    ensures var u := t.op.upstream;
            && r.role == (if u.role == "" then "implementation" else u.role)
            && r.status == (if u.status == "" then "active" else u.status)
            && r.updatedAt == t.now
            && r == u.(role := r.role, status := r.status, updatedAt := r.updatedAt, createdAt := r.createdAt)
            && (forall e :: e in s.upstreams && e.host == u.host && e.repoKey == u.repoKey && e.prefix == u.prefix
                            ==> r.createdAt == e.createdAt)
            && ((forall e :: e in s.upstreams ==> e.host != u.host || e.repoKey != u.repoKey || e.prefix != u.prefix)
                ==> r.createdAt == t.now)
    ensures forall x :: x in Apply(t, s).value.upstreams <==>
                        x == r || (x in s.upstreams && !(x.host == t.op.upstream.host && x.repoKey == t.op.upstream.repoKey
                                                          && x.prefix == t.op.upstream.prefix))
  {
    var u := t.op.upstream;
    ApplyMembers(t, s);
    LinkExact(s.upstreams, u, t.now);
    r := Linked(s.upstreams, u, t.now);
    var i := FindLink(s.upstreams, Defaulted(u, t.now));
    hide Apply, LinkUpstream;
    forall e | e in s.upstreams && e.host == u.host && e.repoKey == u.repoKey && e.prefix == u.prefix
      ensures r.createdAt == e.createdAt
    {
      var k :| 0 <= k < |s.upstreams| && s.upstreams[k] == e;
      assert LinkKey(s.upstreams[k]) == LinkKey(s.upstreams[i]);
    }
  }

  /** Links stand by host, and within a host by repository where prefix and priority are alike. */
  lemma LinksInOrder(s: State, i: nat, j: nat)
    requires i < j < |Normalize(s).upstreams|
    ensures var a, b := Normalize(s).upstreams[i], Normalize(s).upstreams[j];
            && (a.host != b.host ==> LexLess(a.host, b.host))
            && (a.host == b.host && a.prefix == b.prefix && a.priority == b.priority && a.repoKey != b.repoKey
                ==> LexLess(a.repoKey, b.repoKey))
  {
    UpstreamOrder();
    SortSorted(UpstreamLess, s.upstreams);
    var a, b := Normalize(s).upstreams[i], Normalize(s).upstreams[j];
    assert !UpstreamLess(b, a);
    LexTotal(a.host, b.host);
    LexTotal(a.repoKey, b.repoKey);
  }

  /** Decisions stand by host. */
  lemma DecisionsInOrder(s: State, i: nat, j: nat)
    requires i < j < |Normalize(s).decisions|
    ensures var a, b := Normalize(s).decisions[i], Normalize(s).decisions[j];
            a.host == b.host || LexLess(a.host, b.host)
  {
    DecisionOrder();
    SortSorted(DecisionLess, s.decisions);
    var a, b := Normalize(s).decisions[i], Normalize(s).decisions[j];
    assert !DecisionLess(b, a);
    LexTotal(a.host, b.host);
  }

  lemma DecisionOrder()
    ensures StrictWeak(DecisionLess)
  {
    LexOrder();
  }

  /**
   A host put off for later without a date is asked about again a week after the decision, to the
   nanosecond, and one put off for good never, as long as it has no link.
   */
  lemma LaterIsAWeek(t: Timed, s: State, now: Time)
    requires t.op.SetDecision? && UniqueDecisions(s.decisions) && !IsLinked(s.upstreams, t.op.decision.host)
    ensures Apply(t, s).Some?
    ensures var d := t.op.decision;
            var at := match d.decidedAt case Some(x) => x case None => t.now;
            NeedsLinking(Apply(t, s).value, d.host, now)
            <==> match d.expiresAt
                 case Some(end) => end <= now
                 case None => d.kind == "later" && at + 7 * 24 * 3600 * 1_000_000_000 <= now
  {
    var d := t.op.decision;
    DecideExact(s.decisions, d, t.now);
    ApplyMembers(t, s);
    hide Apply, Decide;
    var ds := Apply(t, s).value.decisions;
    assert Dated(d, t.now) in ds;
    assert Decided(ds, d.host, now) <==> InForce(Dated(d, t.now), now);
  }

  /** Clearing a decision makes the tool ask about the host again, unless it has a link. */
  lemma {:induction false} ClearingAsks(t: Timed, s: State, now: Time)
    requires t.op.ClearDecision?
    ensures Apply(t, s).Some? && (NeedsLinking(Apply(t, s).value, t.op.host, now) <==> !IsLinked(s.upstreams, t.op.host))
    ensures forall d :: d in Apply(t, s).value.decisions <==> d in s.decisions && d.host != t.op.host
  {
    DropExact(s.decisions, t.op.host);
    ApplyMembers(t, s);
    hide Apply, DropDecision;
  }
}
