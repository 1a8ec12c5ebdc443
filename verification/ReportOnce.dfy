/**
 What a check reports as new (internal/monitor/run.go) on top of the concurrent store: every
 state the store can hold, and why one finding is never reported by two runs.
 */
module ReportOnce {
  import opened Strs
  import opened Sorting
  import opened StoreState
  import opened StoreLaws
  import opened Protocol

  const STORE: Spec<Timed, State> := Spec(EMPTY, Apply)

  type Log = seq<Entry<Timed>>

  // ----- every reachable document

  /** `run` is the record that the StartRun committed at position `q` returned. */
  predicate StartedAt(log: Log, q: nat, run: Run)
    requires q < |log|
  {
    var n := Fold(STORE, log[..q + 1]).runSeq;
    log[q].u.op.StartRun? && run.number == n && run.id == RunId(n)
  }

  /** Every completed run was handed out by a StartRun committed before. */
  ghost predicate RunsComeFromStart(log: Log) {
    forall p :: 0 <= p < |log| && log[p].u.op.CompleteRun? ==>
      exists q :: 0 <= q < p && StartedAt(log, q, log[p].u.op.run)
  }

  lemma RunSeqGrows(t: Timed, s: State)
    requires Apply(t, s).Some?
    ensures Apply(t, s).value.runSeq == s.runSeq + (if t.op.StartRun? then 1 else 0)
  {
  }

  lemma {:induction false} RunSeqMonotone(log: Log, i: nat, j: nat)
    requires i <= j <= |log|
    ensures Fold(STORE, log[..i]).runSeq <= Fold(STORE, log[..j]).runSeq
    decreases j
  {
    hide Fold, Apply, STORE;
    if i < j {
      RunSeqMonotone(log, i, j - 1);
      RunSeqStep(log, j);
    }
  }

  lemma RunSeqStep(log: Log, j: nat)
    requires 0 < j <= |log|
    ensures Fold(STORE, log[..j - 1]).runSeq <= Fold(STORE, log[..j]).runSeq
  {
    hide Fold, Apply;
    FoldLast(log, j);
    var before := Fold(STORE, log[..j - 1]);
    if Apply(log[j - 1].u, before).Some? { RunSeqGrows(log[j - 1].u, before); }
  }

  /** What the last commit makes of the ones before it. */
  lemma FoldLast(log: Log, j: nat)
    requires 0 < j <= |log|
    ensures var before := Fold(STORE, log[..j - 1]);
            var last := Apply(log[j - 1].u, before);
            Fold(STORE, log[..j]) == if last.Some? then last.value else before
  {
    hide Apply;
    assert log[..j][..j - 1] == log[..j - 1] && log[..j][j - 1] == log[j - 1];
  }

  lemma StartCounts(log: Log, q: nat)
    requires q < |log| && log[q].u.op.StartRun? && AllSucceeded(STORE, log)
    ensures Fold(STORE, log[..q + 1]).runSeq >= 1
  {
    assert log[..q + 1][..q] == log[..q];
    assert Apply(log[q].u, Fold(STORE, log[..q])).Some?;
    RunSeqGrows(log[q].u, Fold(STORE, log[..q]));
  }

  lemma StartedInRange(log: Log, q: nat, p: nat, run: Run)
    requires q < p <= |log| && AllSucceeded(STORE, log) && StartedAt(log, q, run)
    ensures 1 <= run.number <= Fold(STORE, log[..p]).runSeq && run.id == RunId(run.number)
  {
    StartCounts(log, q);
    RunSeqMonotone(log, q + 1, p);
  }

  lemma StartedLegal(log: Log, p: nat)
    requires p < |log| && RunsComeFromStart(log)
    requires AllSucceeded(STORE, log)
    ensures Legal(log[p].u, Fold(STORE, log[..p]))
  {
    if log[p].u.op.CompleteRun? {
      var q :| 0 <= q < p && StartedAt(log, q, log[p].u.op.run);
      StartedInRange(log, q, p, log[p].u.op.run);
    }
  }

  /** What every document in the store satisfies. */
  ghost predicate Sound(s: State) {
    && UniqueFps(s.findings) && LatestFirst(s.runs, s.runSeq)
    && UniqueLinks(s.upstreams) && UniqueDecisions(s.decisions)
  }

  lemma {:induction false} FoldSound(log: Log, k: nat)
    requires k <= |log| && RunsComeFromStart(log)
    requires AllSucceeded(STORE, log)
    ensures Sound(Fold(STORE, log[..k]))
    decreases k
  {
    if k == 0 {
      assert log[..0] == [];
      assert Sound(EMPTY);
    } else {
      var t, before := log[k - 1].u, Fold(STORE, log[..k - 1]);
      assert log[..k][..k - 1] == log[..k - 1];
      assert Apply(t, before).Some? && Fold(STORE, log[..k]) == Apply(t, before).value;
      hide Fold, Apply, RunsComeFromStart, AllSucceeded, Sound;
      FoldSound(log, k - 1);
      StartedLegal(log, k - 1);
      SoundStep(t, before);
    }
  }

  lemma SoundStep(t: Timed, s: State)
    requires Sound(s) && Legal(t, s) && Apply(t, s).Some?
    ensures Sound(Apply(t, s).value)
  {
    hide Apply, Legal, UniqueFps, LatestFirst, UniqueLinks, UniqueDecisions;
    ApplyFindings(t, s);
    ApplyRuns(t, s);
    ApplyLinks(t, s);
    ApplyDecisions(t, s);
  }

  /** Some StartRun already committed has handed out this run record. */
  ghost predicate HandedOut(log: Log, run: Run) {
    exists q: nat :: q < |log| && StartedAt(log, q, run)
  }

  /** Whoever finishes a run passes a record that a StartRun has handed out. */
  ghost predicate FinishesStarted(w: World<Timed, State>) {
    forall t :: t in w.threads && w.threads[t].call.Some? && w.threads[t].call.value.op.CompleteRun? ==>
      HandedOut(w.log, w.threads[t].call.value.op.run)
  }

  lemma StartedEarlier(log: Log, q: nat, e: Entry<Timed>, run: Run)
    requires q < |log|
    ensures StartedAt(log + [e], q, run) <==> StartedAt(log, q, run)
  {
    hide Fold;
    assert (log + [e])[..q + 1] == log[..q + 1];
  }

  lemma ComesFromStartGrows(log: Log, e: Entry<Timed>)
    requires RunsComeFromStart(log) && (e.u.op.CompleteRun? ==> HandedOut(log, e.u.op.run))
    ensures RunsComeFromStart(log + [e])
  {
    var all := log + [e];
    hide StartedAt;
    forall p | 0 <= p < |all| && all[p].u.op.CompleteRun?
      ensures exists q :: 0 <= q < p && StartedAt(all, q, all[p].u.op.run)
    {
      if p < |log| {
        var q :| 0 <= q < p && StartedAt(log, q, log[p].u.op.run);
        StartedEarlier(log, q, e, log[p].u.op.run);
      } else {
        var q: nat :| q < |log| && StartedAt(log, q, e.u.op.run);
        StartedEarlier(log, q, e, e.u.op.run);
      }
    }
  }

  /** As long as callers finish runs that were handed out, only such runs are in the log. */
  lemma {:induction false} LogComesFromStart(b: seq<World<Timed, State>>, j: nat)
    requires Behavior(STORE, b) && j < |b| && forall i :: 0 <= i < j ==> FinishesStarted(b[i])
    ensures RunsComeFromStart(b[j].log)
  {
    if j > 0 {
      LogComesFromStart(b, j - 1);
      BehaviorInv(STORE, b, j - 1, j - 1);
      var w, w' := b[j - 1], b[j];
      assert Next(STORE, b[j - 1], b[j - 1 + 1]) && FinishesStarted(b[j - 1]);
      hide Behavior, Inv, RunsComeFromStart, Step;
      if t, a :| t in w.threads && Step(STORE, w, t, a) == Some(w') {
        StepComesFromStart(w, t, a);
      }
    }
  }

  lemma StepComesFromStart(w: World<Timed, State>, t: nat, a: Action<Timed>)
    requires t in w.threads && Step(STORE, w, t, a).Some?
    requires RunsComeFromStart(w.log) && CallInv(w) && FinishesStarted(w)
    ensures RunsComeFromStart(Step(STORE, w, t, a).value.log)
  {
    hide RunsComeFromStart, HandedOut, Own, Fold;
    if a.Rename? {
      var th := w.threads[t];
      assert Carried(th.pc).Some?;
      ComesFromStartGrows(w.log, Entry(t, th.serial, th.pc.u));
    } else {
      QuietStep(STORE, w, t, a);
    }
  }

  /** In every interleaving, the stored document and every document read is sound. */
  lemma EveryDocumentSound(b: seq<World<Timed, State>>, j: nat, i: nat)
    requires Behavior(STORE, b) && j < |b| && forall k :: 0 <= k < j ==> FinishesStarted(b[k])
    ensures Sound(Content(STORE, b[j].file))
    ensures i < |b[j].results| && b[j].results[i].ret.ReadOk? ==> Sound(b[j].results[i].ret.s)
  {
    LogComesFromStart(b, j);
    FileIsCommits(STORE, b, j, j);
    assert b[j].log[..|b[j].log|] == b[j].log;
    FoldSound(b[j].log, |b[j].log|);
    if i < |b[j].results| && b[j].results[i].ret.ReadOk? {
      var k := ReadIsPrefix(STORE, b, j, i);
      FoldSound(b[j].log, k);
    }
  }

  // ----- counting sightings

  function Sightings(log: Log, fp: string): nat {
    if log == [] then 0
    else
      var n := |log| - 1;
      var op := log[n].u.op;
      Sightings(log[..n], fp) + (if op.UpsertFindings? then Count(op.batch, fp) else 0)
  }

  lemma SucceededPrefix(log: Log, n: nat)
    requires AllSucceeded(STORE, log) && n <= |log|
    ensures AllSucceeded(STORE, log[..n])
  {
    forall q | 0 <= q < n ensures Apply(log[..n][q].u, Fold(STORE, log[..n][..q])).Some? {
      assert log[..n][..q] == log[..q];
    }
  }

  /** The stored occurrence count of a fingerprint is the number of times it was ever sighted. */
  lemma {:induction false} OccurrencesAreSightings(log: Log, fp: string)
    requires AllSucceeded(STORE, log)
    ensures UniqueFps(Fold(STORE, log).findings)
    ensures Occurrences(Stored(Fold(STORE, log).findings, fp)) == Sightings(log, fp)
    ensures Stored(Fold(STORE, log).findings, fp).Some? <==> Sightings(log, fp) > 0
  {
    if log != [] {
      var n := |log| - 1;
      SucceededPrefix(log, n);
      OccurrencesAreSightings(log[..n], fp);
      var before := Fold(STORE, log[..n]);
      assert Apply(log[n].u, before).Some?;
      MutateFindings(log[n].u, before, fp);
      StoredAfterSort(Mutate(log[n].u, before).value.findings, fp);
    }
  }

  lemma {:induction false} SightingsSplit(log: Log, p: nat, k: nat, fp: string)
    requires p < k <= |log|
    ensures var op := log[p].u.op;
            Sightings(log[..k], fp) >= Sightings(log[..p], fp) + (if op.UpsertFindings? then Count(op.batch, fp) else 0)
    decreases k
  {
    assert log[..k][..k - 1] == log[..k - 1];
    if p < k - 1 {
      SightingsSplit(log, p, k - 1, fp);
    }
  }

  // ----- newOnly

  function FirstStored(fs: seq<Finding>, fp: string): Option<Finding> {
    if fs == [] then None
    else if fs[0].fingerprint == fp then Some(fs[0])
    else FirstStored(fs[1..], fp)
  }

  /** newOnly: what of the batch the read-back shows as seen at most once; all of it if the read failed. */
  function NewOnly(batch: seq<Finding>, read: Option<State>): seq<Finding> {
    match read
    case None => batch
    case Some(s) =>
      if batch == [] then []
      else
        var n := |batch| - 1;
        var fp := batch[n].fingerprint;
        NewOnly(batch[..n], read)
        + (if Occurrences(Stored(s.findings, fp)) <= 1 && FirstStored(s.findings, fp).Some?
           then [FirstStored(s.findings, fp).value] else [])
  }

  method FirstStoredLoop(fs: seq<Finding>, fp: string) returns (f: Option<Finding>)
    ensures f == FirstStored(fs, fp)
  {
    for j := 0 to |fs|
      invariant FirstStored(fs, fp) == FirstStored(fs[j..], fp)
    {
      assert fs[j..][1..] == fs[j + 1..];
      if fs[j].fingerprint == fp {
        return Some(fs[j]);
      }
    }
    f := None;
  }

  method NewOnlyLoop(batch: seq<Finding>, read: Option<State>) returns (out: seq<Finding>)
    ensures out == NewOnly(batch, read)
  {
    if read.None? {
      return batch;
    }
    var fs := read.value.findings;
    var seen: map<string, int> := map[];
    for i := 0 to |fs|
      invariant forall fp :: (if fp in seen then seen[fp] else 0) == Occurrences(Stored(fs[..i], fp))
    {
      assert fs[..i + 1][..i] == fs[..i];
      seen := seen[fs[i].fingerprint := fs[i].occurrences];
    }
    assert fs[..|fs|] == fs;
    out := [];
    for i := 0 to |batch|
      invariant out == NewOnly(batch[..i], read)
    {
      assert batch[..i + 1][..i] == batch[..i];
      var fp := batch[i].fingerprint;
      if (if fp in seen then seen[fp] else 0) <= 1 {
        var first := FirstStoredLoop(fs, fp);
        if first.Some? {
          out := out + [first.value];
        }
      }
    }
    assert batch[..|batch|] == batch;
  }

  ghost predicate Reports(batch: seq<Finding>, read: Option<State>, fp: string) {
    exists i :: 0 <= i < |NewOnly(batch, read)| && NewOnly(batch, read)[i].fingerprint == fp
  }

  lemma {:induction false} FirstIsStored(fs: seq<Finding>, fp: string)
    ensures FirstStored(fs, fp).Some? <==> exists i :: 0 <= i < |fs| && fs[i].fingerprint == fp
    ensures FirstStored(fs, fp).Some? ==> FirstStored(fs, fp).value in fs && FirstStored(fs, fp).value.fingerprint == fp
    decreases |fs|
  {
    if fs != [] {
      FirstIsStored(fs[1..], fp);
      if i :| 0 <= i < |fs| && fs[i].fingerprint == fp {
        assert i > 0 ==> fs[1..][i - 1] == fs[i];
      }
    }
  }

  /** A fingerprint is reported exactly when the batch has it and it is stored as seen once. */
  lemma {:induction false} ReportsIff(batch: seq<Finding>, s: State, fp: string)
    requires UniqueFps(s.findings)
    ensures Reports(batch, Some(s), fp) <==>
            Count(batch, fp) > 0 && Stored(s.findings, fp).Some? && Occurrences(Stored(s.findings, fp)) <= 1
  {
    if batch != [] {
      var n := |batch| - 1;
      ReportsIff(batch[..n], s, fp);
      FirstIsStored(s.findings, batch[n].fingerprint);
      var before, after := NewOnly(batch[..n], Some(s)), NewOnly(batch, Some(s));
      if Reports(batch[..n], Some(s), fp) {
        var i :| 0 <= i < |before| && before[i].fingerprint == fp;
        assert after[i] == before[i];
      }
      if Reports(batch, Some(s), fp) {
        var i :| 0 <= i < |after| && after[i].fingerprint == fp;
        assert i < |before| ==> before[i] == after[i];
      }
      if batch[n].fingerprint == fp && Stored(s.findings, fp).Some? {
        var j := Find(s.findings, fp);
        assert s.findings[j].fingerprint == fp;
        if Occurrences(Stored(s.findings, fp)) <= 1 {
          assert after[|before|].fingerprint == fp;
        }
      }
    }
  }

  /** What is reported is the stored record, seen at most once, of something in the batch. */
  lemma {:induction false} ReportedIsStored(batch: seq<Finding>, s: State, i: nat)
    requires UniqueFps(s.findings) && i < |NewOnly(batch, Some(s))|
    ensures var f := NewOnly(batch, Some(s))[i];
            && f in s.findings && f.occurrences <= 1
            && exists k :: 0 <= k < |batch| && batch[k].fingerprint == f.fingerprint
    decreases |batch|
  {
    var n := |batch| - 1;
    if i < |NewOnly(batch[..n], Some(s))| {
      ReportedIsStored(batch[..n], s, i);
      var f := NewOnly(batch, Some(s))[i];
      var k :| 0 <= k < n && batch[..n][k].fingerprint == f.fingerprint;
      assert batch[k] == batch[..n][k];
    } else {
      FirstIsStored(s.findings, batch[n].fingerprint);
      StoredIs(s.findings, FirstStored(s.findings, batch[n].fingerprint).value);
    }
  }

  /** A run whose read-back failed reports everything it found, seen before or not. */
  lemma {:induction false} UnreadReportsAll(batch: seq<Finding>, fp: string)
    ensures Reports(batch, None, fp) <==> Count(batch, fp) > 0
  {
    if batch != [] {
      var n := |batch| - 1;
      UnreadReportsAll(batch[..n], fp);
      if Reports(batch[..n], None, fp) {
        var i :| 0 <= i < n && NewOnly(batch[..n], None)[i].fingerprint == fp;
        assert NewOnly(batch, None)[i].fingerprint == fp;
      }
      if batch[n].fingerprint == fp {
        assert NewOnly(batch, None)[n].fingerprint == fp;
      }
      if Reports(batch, None, fp) {
        var i :| 0 <= i < |batch| && NewOnly(batch, None)[i].fingerprint == fp;
        assert i < n ==> NewOnly(batch[..n], None)[i].fingerprint == fp;
      }
    }
  }

  /** A run's report, for its upsert at position `p` and its read-back of the first `k` commits. */
  ghost predicate RunReports(log: Log, p: nat, k: nat, fp: string) {
    && p < k <= |log| && log[p].u.op.UpsertFindings?
    && Reports(log[p].u.op.batch, Some(Fold(STORE, log[..k])), fp)
  }

  /** A run reports a fingerprint exactly when its own sighting is the only one so far. */
  lemma RunReportsIff(log: Log, p: nat, k: nat, fp: string)
    requires AllSucceeded(STORE, log) && p < k <= |log| && log[p].u.op.UpsertFindings?
    ensures RunReports(log, p, k, fp) <==> Count(log[p].u.op.batch, fp) > 0 && Sightings(log[..k], fp) == 1
  {
    SucceededPrefix(log, k);
    OccurrencesAreSightings(log[..k], fp);
    ReportsIff(log[p].u.op.batch, Fold(STORE, log[..k]), fp);
    SightingsSplit(log, p, k, fp);
  }

  /** However runs interleave, at most one of them reports a fingerprint as new. */
  lemma AtMostOneReport(log: Log, p: nat, k: nat, p': nat, k': nat, fp: string)
    requires AllSucceeded(STORE, log) && p != p'
    ensures !(RunReports(log, p, k, fp) && RunReports(log, p', k', fp))
  {
    if RunReports(log, p, k, fp) && RunReports(log, p', k', fp) {
      RunReportsIff(log, p, k, fp);
      RunReportsIff(log, p', k', fp);
      var a, b, last := if p < p' then p else p', if p < p' then p' else p, if p < p' then k' else k;
      SightingsSplit(log, b, last, fp);
      SightingsSplit(log, a, b, fp);
      assert false;
    }
  }

  /**
   When no other run's upsert falls between a run's own upsert and its read-back, the run reports
   a fingerprint exactly when nobody sighted it before and its batch has it exactly once.
   */
  lemma SequentialReport(log: Log, p: nat, k: nat, fp: string)
    requires AllSucceeded(STORE, log) && p < k <= |log| && log[p].u.op.UpsertFindings?
    requires forall q :: p < q < k ==> !log[q].u.op.UpsertFindings?
    ensures RunReports(log, p, k, fp) <==>
            Sightings(log[..p], fp) == 0 && Count(log[p].u.op.batch, fp) == 1
  {
    RunReportsIff(log, p, k, fp);
    QuietSightings(log, p, k, fp);
  }

  lemma {:induction false} QuietSightings(log: Log, p: nat, k: nat, fp: string)
    requires p < k <= |log| && log[p].u.op.UpsertFindings?
    requires forall q :: p < q < k ==> !log[q].u.op.UpsertFindings?
    ensures Sightings(log[..k], fp) == Sightings(log[..p], fp) + Count(log[p].u.op.batch, fp)
    decreases k
  {
    assert log[..k][..k - 1] == log[..k - 1];
    if p < k - 1 {
      QuietSightings(log, p, k - 1, fp);
    }
  }

  predicate Sights(log: Log, p: nat, fp: string) {
    p < |log| && log[p].u.op.UpsertFindings? && Count(log[p].u.op.batch, fp) > 0
  }

  lemma {:induction false} UnsightedIff(log: Log, k: nat, fp: string)
    requires k <= |log|
    ensures Sightings(log[..k], fp) == 0 <==> forall q: nat :: q < k ==> !Sights(log, q, fp)
    decreases k
  {
    if k == 0 {
      assert log[..0] == [];
    } else {
      assert log[..k][..k - 1] == log[..k - 1];
      UnsightedIff(log, k - 1, fp);
      assert log[..k][k - 1] == log[k - 1];
      assert Sights(log, k - 1, fp) <==> Sightings(log[..k], fp) > Sightings(log[..k - 1], fp);
    }
  }

  /** A run's upsert at position `upsert` of the log, and its read-back of the first `read` commits. */
  datatype Turn = Turn(upsert: nat, read: nat)

  /** Each run reads back before the next one upserts, and nobody else upserts. */
  ghost predicate Sequential(log: Log, runs: seq<Turn>) {
    && (forall i :: 0 <= i < |runs| ==>
          runs[i].upsert < runs[i].read <= |log| && log[runs[i].upsert].u.op.UpsertFindings?)
    && (forall i, j :: 0 <= i < j < |runs| ==> runs[i].read <= runs[j].upsert)
    && (forall p: nat :: p < |log| && log[p].u.op.UpsertFindings? ==> UpsertOf(runs, p))
  }

  ghost predicate UpsertOf(runs: seq<Turn>, p: nat) {
    exists i :: 0 <= i < |runs| && runs[i].upsert == p
  }

  lemma {:induction false} FirstSighting(log: Log, p: nat, fp: string) returns (q: nat)
    requires Sights(log, p, fp)
    ensures q <= p && Sights(log, q, fp) && Sightings(log[..q], fp) == 0
    decreases p
  {
    q := p;
    UnsightedIff(log, p, fp);
    if Sightings(log[..p], fp) != 0 {
      var r: nat :| r < p && Sights(log, r, fp);
      q := FirstSighting(log, r, fp);
    }
  }

  lemma LaterUpsert(log: Log, runs: seq<Turn>, i: nat, q: nat)
    requires Sequential(log, runs) && i < |runs| && runs[i].upsert < q < |log| && log[q].u.op.UpsertFindings?
    ensures runs[i].read <= q
  {
    assert UpsertOf(runs, q);
    var k :| 0 <= k < |runs| && runs[k].upsert == q;
    assert k < i ==> runs[k].read <= runs[i].upsert;
    assert i < k ==> runs[i].read <= runs[k].upsert;
  }

  lemma NoUpsertBetween(log: Log, runs: seq<Turn>, i: nat)
    requires Sequential(log, runs) && i < |runs|
    ensures forall q :: runs[i].upsert < q < runs[i].read ==> !log[q].u.op.UpsertFindings?
  {
    forall q | runs[i].upsert < q < runs[i].read ensures !log[q].u.op.UpsertFindings? {
      if log[q].u.op.UpsertFindings? { LaterUpsert(log, runs, i, q); }
    }
  }

  /**
   Of runs that follow each other, one and only one reports a fingerprint that any of them sights:
   the first to sight it. That one reports it exactly when its batch has it once.
   */
  lemma ExactlyOneReport(log: Log, runs: seq<Turn>, p: nat, fp: string) returns (first: nat)
    requires AllSucceeded(STORE, log) && Sequential(log, runs) && Sights(log, p, fp)
    ensures first < |runs| && Sights(log, runs[first].upsert, fp) && Sightings(log[..runs[first].upsert], fp) == 0
    ensures forall i :: 0 <= i < |runs| ==>
              (RunReports(log, runs[i].upsert, runs[i].read, fp)
               <==> i == first && Count(log[runs[first].upsert].u.op.batch, fp) == 1)
  {
    var q := FirstSighting(log, p, fp);
    assert UpsertOf(runs, q);
    first :| 0 <= first < |runs| && runs[first].upsert == q;
    forall i | 0 <= i < |runs|
      ensures RunReports(log, runs[i].upsert, runs[i].read, fp)
         <==> i == first && Count(log[q].u.op.batch, fp) == 1
    {
      NoUpsertBetween(log, runs, i);
      SequentialReport(log, runs[i].upsert, runs[i].read, fp);
      UnsightedIff(log, runs[i].upsert, fp);
      UnsightedIff(log, q, fp);
      var here := runs[i].upsert;
      assert here < q ==> !Sights(log, here, fp);
      assert i != first ==> here != q by {
        assert i < first ==> runs[i].read <= runs[first].upsert;
        assert first < i ==> runs[first].read <= runs[i].upsert;
      }
    }
  }

  /** What a read call brought back. */
  function ReadBack(r: Result<Timed, State>): Option<State> {
    if r.ret.ReadOk? then Some(r.ret.s) else None
  }

  /** Result `x` is a successful call that passed an upsert of `batch`, and result `r` a later read by the same thread. */
  ghost predicate OwnUpsert(w: World<Timed, State>, x: nat, r: nat, batch: seq<Finding>) {
    && x < r < |w.results| && w.results[x].tid == w.results[r].tid
    && w.results[x].ret.Committed? && (w.results[r].ret.ReadOk? || w.results[r].ret.ReadFailed?)
    && w.results[x].call.Some? && w.results[x].call.value.op == UpsertFindings(batch)
  }

  /**
   The same in the protocol itself: take any two update calls that succeeded, by any threads of
   any processes, each followed by a read of the same thread. Both report a finding only if one of
   the two reads failed.
   */
  lemma ReportedOnceInEveryInterleaving(b: seq<World<Timed, State>>, j: nat, x: nat, rx: nat, y: nat, ry: nat,
                                        bx: seq<Finding>, by': seq<Finding>, fp: string)
    requires Behavior(STORE, b) && j < |b| && x != y
    requires OwnUpsert(b[j], x, rx, bx) && OwnUpsert(b[j], y, ry, by')
    ensures Reports(bx, ReadBack(b[j].results[rx]), fp) && Reports(by', ReadBack(b[j].results[ry]), fp) ==>
              b[j].results[rx].ret.ReadFailed? || b[j].results[ry].ret.ReadFailed?
  {
    var w := b[j];
    if w.results[rx].ret.ReadOk? && w.results[ry].ret.ReadOk? {
      FileIsCommits(STORE, b, j, j);
      BehaviorInv(STORE, b, j, j);
      var p, k := ReadsOwnWrites(STORE, b, j, x, rx);
      var p', k' := ReadsOwnWrites(STORE, b, j, y, ry);
      var ox := SuccessMeansCommitted(STORE, b, j, x);
      var oy := SuccessMeansCommitted(STORE, b, j, y);
      assert p != p' by {
        if w.results[x].tid == w.results[y].tid {
          assert w.results[x].ended <= w.results[y].begun || w.results[y].ended <= w.results[x].begun;
        }
      }
      AtMostOneReport(w.log, p, k, p', k', fp);
    }
  }
}
