/** What every store operation keeps, and what it does to one finding, one run, one route. */
module StoreLaws {
  import opened Strs
  import opened Sorting
  import opened StoreState

  // ----- findings are a map from fingerprints

  function Fp(f: Finding): string { f.fingerprint }

  ghost predicate UniqueFps(fs: seq<Finding>) {
    Distinct(Fp, fs)
  }

  function Stored(fs: seq<Finding>, fp: string): Option<Finding> {
    var i := Find(fs, fp);
    if i >= 0 then Some(fs[i]) else None
  }

  lemma StoredIs(fs: seq<Finding>, f: Finding)
    requires UniqueFps(fs) && f in fs
    ensures Stored(fs, f.fingerprint) == Some(f)
  {
    var k :| 0 <= k < |fs| && fs[k] == f;
    var i := Find(fs, f.fingerprint);
    assert Fp(fs[i]) == Fp(fs[k]);
  }

  /** Reordering unique findings changes what is stored for no fingerprint. */
  lemma StoredAfterSort(fs: seq<Finding>, fp: string)
    requires UniqueFps(fs)
    ensures UniqueFps(StableSort(FindingLess, fs))
    ensures Stored(StableSort(FindingLess, fs), fp) == Stored(fs, fp)
  {
    var sorted := StableSort(FindingLess, fs);
    SortDistinct(FindingLess, Fp, fs);
    SortMembers(FindingLess, fs);
    var i := Find(fs, fp);
    if i >= 0 {
      assert fs[i] in sorted;
      StoredIs(sorted, fs[i]);
    } else {
      assert forall k :: 0 <= k < |sorted| ==> sorted[k] in fs;
    }
  }

  /** One fingerprint's finding after a batch, other fingerprints ignored. */
  function Seen(o: Option<Finding>, batch: seq<Finding>, fp: string, now: Time): Option<Finding> {
    if batch == [] then o
    else
      var n := |batch| - 1;
      var before := Seen(o, batch[..n], fp, now);
      if batch[n].fingerprint != fp then before
      else match before
        case None => Some(FirstSight(batch[n], now))
        case Some(e) => Some(SeenAgain(e, batch[n], now))
  }

  lemma UpsertOneStored(fs: seq<Finding>, f: Finding, now: Time, fp: string)
    requires UniqueFps(fs)
    ensures UniqueFps(UpsertOne(fs, f, now))
    ensures Stored(UpsertOne(fs, f, now), fp) ==
            if f.fingerprint != fp then Stored(fs, fp)
            else match Stored(fs, fp)
              case None => Some(FirstSight(f, now))
              case Some(e) => Some(SeenAgain(e, f, now))
  {
    var i := Find(fs, f.fingerprint);
    var after := UpsertOne(fs, f, now);
    assert UniqueFps(after) by {
      forall p, q | 0 <= p < q < |after| ensures Fp(after[p]) != Fp(after[q]) {
        if i >= 0 { assert Fp(fs[p]) != Fp(fs[q]); }
      }
    }
    if f.fingerprint == fp {
      var at := if i >= 0 then i else |fs|;
      StoredIs(after, after[at]);
    } else {
      var j := Find(fs, fp);
      if j >= 0 {
        assert after[j] == fs[j];
        StoredIs(after, fs[j]);
        StoredIs(fs, fs[j]);
      }
    }
  }

  /** An upsert acts on each fingerprint by itself, and keeps fingerprints unique. */
  lemma {:induction false} UpsertStored(fs: seq<Finding>, batch: seq<Finding>, now: Time, fp: string)
    requires UniqueFps(fs)
    ensures UniqueFps(Upsert(fs, batch, now))
    ensures Stored(Upsert(fs, batch, now), fp) == Seen(Stored(fs, fp), batch, fp, now)
  {
    if batch != [] {
      var n := |batch| - 1;
      UpsertStored(fs, batch[..n], now, fp);
      UpsertOneStored(Upsert(fs, batch[..n], now), batch[n], now, fp);
    }
  }

  function Count(batch: seq<Finding>, fp: string): nat {
    if batch == [] then 0
    else
      var n := |batch| - 1;
      Count(batch[..n], fp) + (if batch[n].fingerprint == fp then 1 else 0)
  }

  function Occurrences(o: Option<Finding>): int {
    match o case None => 0 case Some(f) => f.occurrences
  }

  /** Occurrences count appearances. */
  lemma {:induction false} SeenCounts(o: Option<Finding>, batch: seq<Finding>, fp: string, now: Time)
    ensures Occurrences(Seen(o, batch, fp, now)) == Occurrences(o) + Count(batch, fp)
    ensures Seen(o, batch, fp, now).None? <==> o.None? && Count(batch, fp) == 0
    ensures Count(batch, fp) == 0 ==> Seen(o, batch, fp, now) == o
    ensures o.Some? && o.value.fingerprint == fp ==> Seen(o, batch, fp, now).value.fingerprint == fp
  {
    if batch != [] {
      SeenCounts(o, batch[..|batch| - 1], fp, now);
    }
  }

  /** Severity `a` is worse than `b`: breaking is worse than risky, and both than the rest. */
  predicate Severer(a: string, b: string) {
    (a == "breaking" && b != "breaking") || (a == "risky" && b != "breaking" && b != "risky")
  }

  /** Some finding of the batch with this fingerprint is worse than `severity`. */
  predicate Worsens(batch: seq<Finding>, fp: string, severity: string) {
    exists i :: 0 <= i < |batch| && batch[i].fingerprint == fp && Severer(batch[i].severity, severity)
  }

  lemma WorsensStep(batch: seq<Finding>, fp: string, severity: string)
    requires batch != []
    ensures var n := |batch| - 1;
            Worsens(batch, fp, severity) <==>
            Worsens(batch[..n], fp, severity)
            || (batch[n].fingerprint == fp && Severer(batch[n].severity, severity))
  {
    var n := |batch| - 1;
    if Worsens(batch[..n], fp, severity) {
      var i :| 0 <= i < n && batch[..n][i].fingerprint == fp && Severer(batch[..n][i].severity, severity);
      assert batch[i] == batch[..n][i];
    }
    if Worsens(batch, fp, severity) {
      var i :| 0 <= i < |batch| && batch[i].fingerprint == fp && Severer(batch[i].severity, severity);
      assert i < n ==> batch[..n][i] == batch[i];
    }
  }

  /**
   Triage survives being seen again: an acknowledgement is undone exactly by a worse severity,
   a resolution exactly by another sighting, a mute by nothing. Severity only gets worse.
   */
  lemma {:induction false} TriageSurvives(e: Finding, batch: seq<Finding>, fp: string, now: Time)
    ensures var s := Seen(Some(e), batch, fp, now);
            && s.Some?
            && !Severer(e.severity, s.value.severity)
            && (Severer(s.value.severity, e.severity) <==> Worsens(batch, fp, e.severity))
            && s.value.firstSeen == e.firstSeen && s.value.id == e.id
            && (e.status == "acked" ==> s.value.status == if Worsens(batch, fp, e.severity) then "open" else "acked")
            && (e.status == "resolved" ==> s.value.status == if Count(batch, fp) > 0 then "open" else "resolved")
            && (e.status != "acked" && e.status != "resolved" ==> s.value.status == e.status)
  {
    if batch != [] {
      TriageSurvives(e, batch[..|batch| - 1], fp, now);
      WorsensStep(batch, fp, e.severity);
    }
  }

  /** Retirement touches exactly the stale findings of its signal and repository. */
  lemma RetirementExact(fs: seq<Finding>, signal: string, key: string, live: set<string>, note: string, now: Time, fp: string)
    requires UniqueFps(fs)
    ensures var after := ResolveStale(fs, signal, key, live, note, now);
            && UniqueFps(after)
            && Stored(after, fp) == match Stored(fs, fp)
                 case None => None
                 case Some(f) => Some(if Stale(f, signal, key, live) then Retire(f, note, now) else f)
  {
    var after := ResolveStale(fs, signal, key, live, note, now);
    assert forall i :: 0 <= i < |fs| ==> Fp(after[i]) == Fp(fs[i]);
    FindSameFingerprints(fs, after, fp);
  }

  /** A finding never goes away, is never seen less often, and never gets milder. */
  ghost predicate Grew(before: seq<Finding>, after: seq<Finding>) {
    forall fp :: Stored(before, fp).Some? ==>
      && Stored(after, fp).Some?
      && Stored(after, fp).value.occurrences >= Stored(before, fp).value.occurrences
      && !Severer(Stored(before, fp).value.severity, Stored(after, fp).value.severity)
      && Stored(after, fp).value.firstSeen == Stored(before, fp).value.firstSeen
  }

  lemma MutateFindings(t: Timed, s: State, fp: string)
    requires UniqueFps(s.findings) && Mutate(t, s).Some?
    ensures UniqueFps(Mutate(t, s).value.findings)
    ensures Occurrences(Stored(Mutate(t, s).value.findings, fp))
         == Occurrences(Stored(s.findings, fp)) + (if t.op.UpsertFindings? then Count(t.op.batch, fp) else 0)
    ensures Stored(s.findings, fp).Some? ==>
              && Stored(Mutate(t, s).value.findings, fp).Some?
              && !Severer(Stored(s.findings, fp).value.severity, Stored(Mutate(t, s).value.findings, fp).value.severity)
              && Stored(Mutate(t, s).value.findings, fp).value.firstSeen == Stored(s.findings, fp).value.firstSeen
    ensures Stored(s.findings, fp).None? ==>
              (Stored(Mutate(t, s).value.findings, fp).Some? <==> t.op.UpsertFindings? && Count(t.op.batch, fp) > 0)
  {
    match t.op {
      case UpsertFindings(batch) =>
        UpsertStored(s.findings, batch, t.now, fp);
        SeenCounts(Stored(s.findings, fp), batch, fp, t.now);
        if Stored(s.findings, fp).Some? {
          TriageSurvives(Stored(s.findings, fp).value, batch, fp, t.now);
        }
      case ResolveStaleFindings(signal, key, live, reason) =>
        RetirementExact(s.findings, signal, key, live, reason, t.now, fp);
      case SetFindingStatus(id, status, note, who, muted) =>
        TriageOneStored(s.findings, FirstNamed(s.findings, id), status, note, who, muted, t.now, fp);
      case _ =>
    }
  }

  lemma TriageOneStored(fs: seq<Finding>, i: int, status: string, note: string, who: string,
                        muted: Option<Time>, now: Time, fp: string)
    requires UniqueFps(fs) && 0 <= i < |fs|
    ensures var after := fs[i := Triaged(fs[i], status, note, who, muted, now)];
            && UniqueFps(after)
            && Stored(after, fp) == match Stored(fs, fp)
                 case None => None
                 case Some(f) => Some(if f.fingerprint == fs[i].fingerprint
                                      then Triaged(f, status, note, who, muted, now) else f)
  {
    var after := fs[i := Triaged(fs[i], status, note, who, muted, now)];
    assert forall k :: 0 <= k < |fs| ==> Fp(after[k]) == Fp(fs[k]);
    FindSameFingerprints(fs, after, fp);
    var j := Find(fs, fp);
    if j >= 0 && i != j {
      assert Fp(fs[i]) != Fp(fs[j]);
    }
  }

  /** Every operation keeps fingerprints unique and lets findings only grow. */
  lemma ApplyFindings(t: Timed, s: State)
    requires UniqueFps(s.findings) && Apply(t, s).Some?
    ensures UniqueFps(Apply(t, s).value.findings) && Grew(s.findings, Apply(t, s).value.findings)
  {
    var m := Mutate(t, s).value;
    MutateFindings(t, s, "");
    forall fp | Stored(s.findings, fp).Some?
      ensures var a := Stored(Apply(t, s).value.findings, fp);
              && a.Some? && a.value.occurrences >= Stored(s.findings, fp).value.occurrences
              && !Severer(Stored(s.findings, fp).value.severity, a.value.severity)
              && a.value.firstSeen == Stored(s.findings, fp).value.firstSeen
    {
      MutateFindings(t, s, fp);
      StoredAfterSort(m.findings, fp);
    }
    StoredAfterSort(m.findings, "");
  }

  // ----- the run history

  /** The run list is exactly the latest run numbers, newest first, each under its own ID. */
  ghost predicate LatestFirst(runs: seq<Run>, last: nat) {
    && |runs| == (if last < MAX_RUNS then last else MAX_RUNS)
    && forall i :: 0 <= i < |runs| ==> runs[i].number == last - i && runs[i].id == RunId(last - i)
  }

  lemma RunIdInjective(a: nat, b: nat)
    requires RunId(a) == RunId(b)
    ensures a == b
  {
    assert RunId(a)[2..] == Itoa(a) && RunId(b)[2..] == Itoa(b);
    assert Number(Itoa(a)) == Number(Itoa(b));
  }

  lemma LatestFirstSorted(runs: seq<Run>, last: nat)
    requires LatestFirst(runs, last)
    ensures LatestRuns(runs) == runs
  {
    assert Sorted(NewerRun, runs);
    SortOfSorted(NewerRun, runs);
  }

  lemma StartSorts(runs: seq<Run>, last: nat, run: Run)
    requires LatestFirst(runs, last) && run.number == last + 1
    ensures StableSort(NewerRun, runs + [run]) == [run] + runs
  {
    assert Sorted(NewerRun, runs);
    SortOfSorted(NewerRun, runs);
    assert (runs + [run])[..|runs|] == runs;
    InsertFront(NewerRun, runs, run);
  }

  lemma NewestInFront(runs: seq<Run>, last: nat, run: Run, all: seq<Run>, kept: seq<Run>)
    requires LatestFirst(runs, last) && run.number == last + 1 && run.id == RunId(last + 1)
    requires all == [run] + runs && kept == if |all| > MAX_RUNS then all[..MAX_RUNS] else all
    ensures LatestFirst(kept, last + 1)
  {
    hide RunId;
    forall i | 0 <= i < |kept|
      ensures kept[i].number == last + 1 - i && kept[i].id == RunId(last + 1 - i)
    {
      if i > 0 {
        assert kept[i] == runs[i - 1];
      }
    }
  }

  lemma StartKeepsLatest(runs: seq<Run>, last: nat, run: Run)
    requires LatestFirst(runs, last) && run.number == last + 1 && run.id == RunId(last + 1)
    ensures LatestFirst(LatestRuns(runs + [run]), last + 1)
  {
    hide LatestFirst, RunId, StableSort;
    StartSorts(runs, last, run);
    NewestInFront(runs, last, run, [run] + runs, LatestRuns(runs + [run]));
  }

  lemma RunAt(runs: seq<Run>, last: nat, i: nat)
    requires LatestFirst(runs, last) && i < |runs|
    ensures FindRun(runs, RunId(last - i)) >= 0
  {
    assert runs[i].id == RunId(last - i);
  }

  /** Which of the stored runs has this number, and so this ID. */
  lemma FoundAt(runs: seq<Run>, last: nat, n: nat)
    requires LatestFirst(runs, last) && 1 <= n <= last
    ensures FindRun(runs, RunId(n)) == if last - n < |runs| then last - n else -1
  {
    var i := FindRun(runs, RunId(n));
    if i >= 0 { RunIdInjective(last - i, n); }
    if last - n < |runs| { RunAt(runs, last, last - n); }
  }

  lemma FinishInPlace(runs: seq<Run>, last: nat, run: Run, now: Time, i: nat)
    requires LatestFirst(runs, last) && i < |runs| && run.number == last - i && run.id == RunId(run.number)
    ensures LatestFirst(runs[i := Finished(run, now)], last)
  {
  }

  /** A run older than all the stored ones. */
  lemma EvictedSorts(runs: seq<Run>, last: nat, late: Run)
    requires LatestFirst(runs, last) && 1 <= late.number <= last - |runs|
    ensures LatestRuns(runs + [late]) == runs
  {
    var all := runs + [late];
    forall i, j | 0 <= i < j < |all| ensures !NewerRun(all[j], all[i]) {
      assert all[i] == runs[i];
    }
    SortOfSorted(NewerRun, all);
    assert |runs| == MAX_RUNS && all[..MAX_RUNS] == runs;
  }

  /** Even a run that finishes after it was evicted does not come back. */
  lemma CompleteKeepsLatest(runs: seq<Run>, last: nat, run: Run, now: Time)
    requires LatestFirst(runs, last)
    requires 1 <= run.number <= last && run.id == RunId(run.number)
    ensures LatestFirst(LatestRuns(FinishRun(runs, run, now)), last)
  {
    var done := Finished(run, now);
    hide LatestFirst, LatestRuns, RunId;
    FoundAt(runs, last, run.number);
    if last - run.number < |runs| {
      var i := last - run.number;
      FinishInPlace(runs, last, run, now, i);
      LatestFirstSorted(runs[i := done], last);
    } else {
      EvictedSorts(runs, last, done);
    }
  }

  /** The callers' side of FinishRun: the record came from StartRun. */
  predicate Legal(t: Timed, s: State) {
    t.op.CompleteRun? ==> 1 <= t.op.run.number <= s.runSeq && t.op.run.id == RunId(t.op.run.number)
  }

  lemma ApplyRuns(t: Timed, s: State)
    requires LatestFirst(s.runs, s.runSeq) && Legal(t, s) && Apply(t, s).Some?
    ensures LatestFirst(Apply(t, s).value.runs, Apply(t, s).value.runSeq)
    ensures Apply(t, s).value.runSeq >= s.runSeq
  {
    hide LatestFirst, Upsert, ResolveStale, StableSort;
    match t.op {
      case StartRun(trigger) => StartKeepsLatest(s.runs, s.runSeq, NewRun(s.runSeq + 1, trigger, t.now));
      case CompleteRun(run) => CompleteKeepsLatest(s.runs, s.runSeq, run, t.now);
      case _ => LatestFirstSorted(s.runs, s.runSeq);
    }
  }

  // ----- links

  function LinkKey(u: Upstream): (string, string, string) {
    (u.host, u.repoKey, u.prefix)
  }

  /** No two links are for the same host, repository and prefix. */
  ghost predicate UniqueLinks(us: seq<Upstream>) {
    Distinct(LinkKey, us)
  }

  /** What is stored for the link: its first date stays when it replaces one. */
  function Linked(us: seq<Upstream>, u: Upstream, now: Time): Upstream {
    var v := Defaulted(u, now);
    var i := FindLink(us, v);
    v.(createdAt := if i >= 0 then us[i].createdAt else now)
  }

  /** Linking puts the link in the place of one for the same triple, and touches no other. */
  lemma LinkExact(us: seq<Upstream>, u: Upstream, now: Time)
    requires UniqueLinks(us)
    ensures UniqueLinks(LinkUpstream(us, u, now))
    ensures forall x :: x in LinkUpstream(us, u, now) <==> x == Linked(us, u, now) || (x in us && !SameLink(x, u))
  {
    var v := Linked(us, u, now);
    var after := LinkUpstream(us, u, now);
    var i := FindLink(us, Defaulted(u, now));
    forall j, k | 0 <= j < k < |after| ensures LinkKey(after[j]) != LinkKey(after[k]) {
      assert k < |us| ==> LinkKey(us[j]) != LinkKey(us[k]);
    }
    forall x ensures x in after <==> x == v || (x in us && !SameLink(x, u)) {
      if x in us && !SameLink(x, u) {
        var k :| 0 <= k < |us| && us[k] == x;
        assert after[k] == x;
      }
      if x in after {
        var k :| 0 <= k < |after| && after[k] == x;
        assert i >= 0 && k != i ==> LinkKey(us[k]) != LinkKey(us[i]);
      }
      assert after[if i >= 0 then i else |us|] == v;
    }
  }

  lemma {:induction false} UnlinkMembers(us: seq<Upstream>, host: string)
    ensures forall x :: x in UnlinkHost(us, host) <==> x in us && x.host != host
  {
    if us != [] {
      var n := |us| - 1;
      UnlinkMembers(us[..n], host);
      assert us == us[..n] + [us[n]];
    }
  }

  /** Unlinking removes every link of the host and no other. */
  lemma {:induction false} UnlinkExact(us: seq<Upstream>, host: string)
    requires UniqueLinks(us)
    ensures forall x :: x in UnlinkHost(us, host) <==> x in us && x.host != host
    ensures UniqueLinks(UnlinkHost(us, host))
  {
    UnlinkMembers(us, host);
    if us != [] {
      var n := |us| - 1;
      UnlinkExact(us[..n], host);
      var kept := UnlinkHost(us[..n], host);
      forall j | 0 <= j < |kept| ensures LinkKey(kept[j]) != LinkKey(us[n]) {
        assert kept[j] in us[..n];
        var k :| 0 <= k < n && us[..n][k] == kept[j];
        assert LinkKey(us[k]) != LinkKey(us[n]);
      }
    }
  }

  /** Every operation keeps links unique. */
  lemma ApplyLinks(t: Timed, s: State)
    requires UniqueLinks(s.upstreams) && Apply(t, s).Some?
    ensures UniqueLinks(Apply(t, s).value.upstreams)
  {
    hide UniqueLinks, LinkUpstream, UnlinkHost, StableSort, Upsert, ResolveStale, FinishRun;
    var m := Mutate(t, s).value;
    match t.op {
      case Link(u) => LinkExact(s.upstreams, u, t.now);
      case Unlink(host) => UnlinkExact(s.upstreams, host);
      case _ =>
    }
    SortedLinks(m.upstreams);
  }

  lemma SortedLinks(us: seq<Upstream>)
    requires UniqueLinks(us)
    ensures UniqueLinks(StableSort(UpstreamLess, us))
  {
    SortDistinct(UpstreamLess, LinkKey, us);
  }

  // ----- decisions

  function DecisionHost(d: Decision): string { d.host }

  /** At most one decision per host. */
  ghost predicate UniqueDecisions(ds: seq<Decision>) {
    Distinct(DecisionHost, ds)
  }

  lemma {:induction false} DropExact(ds: seq<Decision>, host: string)
    ensures forall d :: d in DropDecision(ds, host) <==> d in ds && d.host != host
    ensures UniqueDecisions(ds) ==> UniqueDecisions(DropDecision(ds, host))
  {
    if ds != [] {
      var n := |ds| - 1;
      DropExact(ds[..n], host);
      assert ds == ds[..n] + [ds[n]];
      if UniqueDecisions(ds) {
        var kept := DropDecision(ds[..n], host);
        assert UniqueDecisions(ds[..n]);
        forall j | 0 <= j < |kept| ensures DecisionHost(kept[j]) != DecisionHost(ds[n]) {
          assert kept[j] in ds[..n];
          var k :| 0 <= k < n && ds[..n][k] == kept[j];
          assert DecisionHost(ds[k]) != DecisionHost(ds[n]);
        }
      }
    }
  }

  lemma DecideExact(ds: seq<Decision>, d: Decision, now: Time)
    requires UniqueDecisions(ds)
    ensures UniqueDecisions(Decide(ds, d, now))
    ensures forall x :: x in Decide(ds, d, now) <==> x == Dated(d, now) || (x in ds && x.host != d.host)
  {
    DropExact(ds, d.host);
    var kept := DropDecision(ds, d.host);
    forall j | 0 <= j < |kept| ensures kept[j].host != d.host {
      assert kept[j] in kept;
    }
  }

  /** Every operation keeps at most one decision per host. */
  lemma ApplyDecisions(t: Timed, s: State)
    requires UniqueDecisions(s.decisions) && Apply(t, s).Some?
    ensures UniqueDecisions(Apply(t, s).value.decisions)
  {
    hide UniqueDecisions, LinkUpstream, UnlinkHost, StableSort, Upsert, ResolveStale, FinishRun, Decide, DropDecision;
    var m := Mutate(t, s).value;
    match t.op {
      case Link(u) => DropExact(s.decisions, u.host);
      case SetDecision(d) => DecideExact(s.decisions, d, t.now);
      case ClearDecision(host) => DropExact(s.decisions, host);
      case _ =>
    }
    SortedDecisions(m.decisions);
  }

  lemma SortedDecisions(ds: seq<Decision>)
    requires UniqueDecisions(ds)
    ensures UniqueDecisions(StableSort(DecisionLess, ds))
  {
    SortDistinct(DecisionLess, DecisionHost, ds);
  }

  predicate InForce(d: Decision, now: Time) {
    d.expiresAt.None? || now < d.expiresAt.value
  }

  ghost predicate Decided(ds: seq<Decision>, host: string, now: Time) {
    exists d :: d in ds && d.host == host && InForce(d, now)
  }

  ghost predicate IsLinked(us: seq<Upstream>, host: string) {
    exists u :: u in us && u.host == host
  }

  /** The user is to be asked about the host: it has no link, and no decision in force. */
  ghost predicate NeedsLinking(s: State, host: string, now: Time) {
    !IsLinked(s.upstreams, host) && !Decided(s.decisions, host, now)
  }

  lemma ApplyMembers(t: Timed, s: State)
    requires Apply(t, s).Some?
    ensures forall u :: u in Apply(t, s).value.upstreams <==> u in Mutate(t, s).value.upstreams
    ensures forall d :: d in Apply(t, s).value.decisions <==> d in Mutate(t, s).value.decisions
  {
    var m := Mutate(t, s).value;
    hide Mutate, StableSort, UpstreamLess, DecisionLess;
    SortMembers(UpstreamLess, m.upstreams);
    SortMembers(DecisionLess, m.decisions);
  }

  lemma UnlinkAsks(t: Timed, s: State, now: Time)
    requires t.op.Unlink? && UniqueLinks(s.upstreams)
    ensures Apply(t, s).Some?
    ensures NeedsLinking(Apply(t, s).value, t.op.host, now) <==> !Decided(s.decisions, t.op.host, now)
  {
    ApplyMembers(t, s);
    UnlinkExact(s.upstreams, t.op.host);
    hide Apply, UnlinkHost;
  }

  lemma LinkDecides(t: Timed, s: State, now: Time)
    requires t.op.Link? && UniqueLinks(s.upstreams)
    ensures Apply(t, s).Some?
    ensures var host := t.op.upstream.host;
            Decided(Apply(t, s).value.decisions, host, now)
            <==> FindLink(s.upstreams, t.op.upstream) >= 0 && Decided(s.decisions, host, now)
  {
    ApplyMembers(t, s);
    DropExact(s.decisions, t.op.upstream.host);
    hide Apply, LinkUpstream, DropDecision;
  }

  /**
   Linking a host and unlinking it again makes the tool ask about it, unless a decision is in force
   and the link was for a triple already stored: replacing that one leaves the decision in place.
   */
  lemma LinkThenUnlinkAsksIff(link: Timed, unlink: Timed, s: State, now: Time)
    requires link.op.Link? && unlink.op == Unlink(link.op.upstream.host) && UniqueLinks(s.upstreams)
    ensures Apply(link, s).Some? && Apply(unlink, Apply(link, s).value).Some?
    ensures var host := link.op.upstream.host;
            NeedsLinking(Apply(unlink, Apply(link, s).value).value, host, now)
            <==> FindLink(s.upstreams, link.op.upstream) < 0 || !Decided(s.decisions, host, now)
  {
    LinkDecides(link, s, now);
    ApplyLinks(link, s);
    hide Apply, NeedsLinking, Decided, FindLink, UniqueLinks;
    UnlinkAsks(unlink, Apply(link, s).value, now);
  }

  // ----- routing

  predicate Covers(u: Upstream, host: string, path: string) {
    u.host == host && (u.prefix == "" || HasPrefix(path, u.prefix))
  }

  /** UpstreamsForEndpoint: the stored upstreams covering a path, in stored order. */
  function Routes(us: seq<Upstream>, host: string, path: string): seq<Upstream> {
    if us == [] then []
    else
      var n := |us| - 1;
      Routes(us[..n], host, path) + (if Covers(us[n], host, path) then [us[n]] else [])
  }

  method UpstreamsForEndpoint(us: seq<Upstream>, host: string, path: string) returns (out: seq<Upstream>)
    ensures out == Routes(us, host, path)
  {
    out := [];
    for i := 0 to |us|
      invariant out == Routes(us[..i], host, path)
    {
      assert us[..i + 1][..i] == us[..i];
      if us[i].host == host && (us[i].prefix == "" || HasPrefix(path, us[i].prefix)) {
        out := out + [us[i]];
      }
    }
    assert us[..|us|] == us;
  }

  lemma UpstreamOrder()
    ensures StrictWeak(UpstreamLess)
  {
    forall x, y | UpstreamLess(x, y) ensures !UpstreamLess(y, x) {
      LexTotal(x.host, y.host);
      LexTotal(x.prefix, y.prefix);
      LexTotal(x.repoKey, y.repoKey);
    }
    forall x, y, z | !UpstreamLess(x, y) && !UpstreamLess(y, z) ensures !UpstreamLess(x, z) {
      UpstreamOrderTransitive(x, y, z);
    }
  }

  lemma UpstreamOrderTransitive(x: Upstream, y: Upstream, z: Upstream)
    requires !UpstreamLess(x, y) && !UpstreamLess(y, z)
    ensures !UpstreamLess(x, z)
  {
    LexTotal(x.host, y.host);
    LexTotal(y.host, z.host);
    LexTotal(x.host, z.host);
    LexTotal(y.prefix, x.prefix);
    LexTotal(z.prefix, y.prefix);
    LexTotal(z.prefix, x.prefix);
    if !LexLess(x.host, y.host) && !LexLess(y.host, z.host) { LexTransitive(x.host, y.host, z.host); }
    if !LexLess(y.prefix, x.prefix) && !LexLess(z.prefix, y.prefix) { LexTransitive(z.prefix, y.prefix, x.prefix); }
    if !LexLess(x.repoKey, y.repoKey) && !LexLess(y.repoKey, z.repoKey) {
      LexTransitive(x.repoKey, y.repoKey, z.repoKey);
    }
  }

  lemma {:induction false} RoutesSorted(us: seq<Upstream>, host: string, path: string)
    requires Sorted(UpstreamLess, us)
    ensures Sorted(UpstreamLess, Routes(us, host, path))
    ensures forall u :: u in Routes(us, host, path) <==> u in us && Covers(u, host, path)
  {
    if us != [] {
      var n := |us| - 1;
      RoutesSorted(us[..n], host, path);
      assert us == us[..n] + [us[n]];
      forall u | u in Routes(us[..n], host, path) ensures !UpstreamLess(us[n], u) {
        assert u in us[..n];
        var k :| 0 <= k < n && us[..n][k] == u;
        assert us[k] == u;
      }
    }
  }

  /** Of two routes the earlier one has the longer prefix, or the same and no worse a priority. */
  lemma RoutesOrdered(routes: seq<Upstream>, host: string, path: string, i: nat, j: nat)
    requires Sorted(UpstreamLess, routes) && i < j < |routes| && forall u :: u in routes ==> Covers(u, host, path)
    ensures |routes[i].prefix| >= |routes[j].prefix|
    ensures routes[i].prefix == routes[j].prefix ==> routes[i].priority <= routes[j].priority
  {
    assert routes[i] in routes && routes[j] in routes;
    assert !UpstreamLess(routes[j], routes[i]);
    var p, q := routes[i].prefix, routes[j].prefix;
    if |p| < |q| {
      assert p <= q by {
        assert p <= path && q <= path;
        assert p == path[..|p|] && q[..|p|] == path[..|p|];
      }
      PrefixLess(p, q);
    }
  }

  /** After any write, routing returns every upstream that covers the path, longest prefix first. */
  lemma RoutingLongestFirst(s: State, host: string, path: string)
    ensures var r := Routes(Normalize(s).upstreams, host, path);
            && (forall u :: u in s.upstreams && Covers(u, host, path) <==> u in r)
            && forall i, j :: 0 <= i < j < |r| ==>
                 && |r[i].prefix| >= |r[j].prefix|
                 && (r[i].prefix == r[j].prefix ==> r[i].priority <= r[j].priority)
  {
    var sorted := Normalize(s).upstreams;
    var r := Routes(sorted, host, path);
    UpstreamOrder();
    SortSorted(UpstreamLess, s.upstreams);
    SortMembers(UpstreamLess, s.upstreams);
    RoutesSorted(sorted, host, path);
    hide UpstreamLess, Routes, Covers, StableSort;
    forall i, j | 0 <= i < j < |r|
      ensures |r[i].prefix| >= |r[j].prefix| && (r[i].prefix == r[j].prefix ==> r[i].priority <= r[j].priority)
    {
      RoutesOrdered(r, host, path, i, j);
    }
  }
}
