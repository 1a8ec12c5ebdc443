/** The in-memory document that Update's closures change in place (internal/store/store.go). */
module Document {
  import opened Strs
  import opened Sorting
  import opened StoreState

  function CountStale(fs: seq<Finding>, signal: string, repoKey: string, live: set<string>): nat {
    if fs == [] then 0
    else
      var n := |fs| - 1;
      CountStale(fs[..n], signal, repoKey, live) + (if Stale(fs[n], signal, repoKey, live) then 1 else 0)
  }

  /** The lookup map of UpsertFindings: each stored fingerprint's last position. */
  ghost predicate Indexes(byFP: map<string, int>, fs: seq<Finding>) {
    && (forall fp :: fp in byFP <==> Find(fs, fp) >= 0)
    && (forall fp :: fp in byFP ==> byFP[fp] == Find(fs, fp))
  }

  lemma IndexesAppended(byFP: map<string, int>, fs: seq<Finding>, f: Finding)
    requires Indexes(byFP, fs)
    ensures Indexes(byFP[f.fingerprint := |fs|], fs + [f])
  {
    assert (fs + [f])[..|fs|] == fs;
  }

  lemma IndexesReplaced(byFP: map<string, int>, fs: seq<Finding>, i: int, f: Finding)
    requires Indexes(byFP, fs) && 0 <= i < |fs| && f.fingerprint == fs[i].fingerprint
    ensures Indexes(byFP, fs[i := f])
  {
    forall fp ensures Find(fs, fp) == Find(fs[i := f], fp) {
      FindSameFingerprints(fs, fs[i := f], fp);
    }
  }

  lemma UpsertStep(fs: seq<Finding>, batch: seq<Finding>, k: nat, now: Time)
    requires k < |batch|
    ensures Upsert(fs, batch[..k + 1], now) == UpsertOne(Upsert(fs, batch[..k], now), batch[k], now)
  {
    assert batch[..k + 1][..k] == batch[..k];
  }

  /** What one finding does to the stored ones and to their lookup map. */
  lemma UpsertIndexed(byFP: map<string, int>, fs: seq<Finding>, f: Finding, now: Time)
    requires Indexes(byFP, fs)
    ensures f.fingerprint in byFP ==>
              && 0 <= byFP[f.fingerprint] < |fs|
              && var i := byFP[f.fingerprint];
                 && UpsertOne(fs, f, now) == fs[i := SeenAgain(fs[i], f, now)]
                 && Indexes(byFP, fs[i := SeenAgain(fs[i], f, now)])
    ensures f.fingerprint !in byFP ==>
              && UpsertOne(fs, f, now) == fs + [FirstSight(f, now)]
              && Indexes(byFP[f.fingerprint := |fs|], fs + [FirstSight(f, now)])
  {
    if f.fingerprint in byFP {
      var i := byFP[f.fingerprint];
      IndexesReplaced(byFP, fs, i, SeenAgain(fs[i], f, now));
    } else {
      IndexesAppended(byFP, fs, FirstSight(f, now));
    }
  }

  method IndexByFingerprint(fs: seq<Finding>) returns (byFP: map<string, int>)
    ensures Indexes(byFP, fs)
  {
    byFP := map[];
    for i := 0 to |fs|
      invariant Indexes(byFP, fs[..i])
    {
      assert fs[..i + 1] == fs[..i] + [fs[i]];
      IndexesAppended(byFP, fs[..i], fs[i]);
      byFP := byFP[fs[i].fingerprint := i];
    }
    assert fs[..|fs|] == fs;
  }

  /** Finding a link looks at its triple only. */
  lemma {:induction false} SameTriple(us: seq<Upstream>, u: Upstream, v: Upstream)
    requires u.host == v.host && u.repoKey == v.repoKey && u.prefix == v.prefix
    ensures FindLink(us, u) == FindLink(us, v)
  {
    if us != [] { SameTriple(us[1..], u, v); }
  }

  class Doc {
    var upstreams: seq<Upstream>
    var decisions: seq<Decision>
    var findings: seq<Finding>
    var checks: map<string, CheckState>
    var runs: seq<Run>
    var runSeq: nat

    ghost function View(): State
      reads this
    {
      State(upstreams, decisions, findings, checks, runs, runSeq)
    }

    constructor (s: State)
      ensures View() == s
    {
      upstreams, decisions, findings := s.upstreams, s.decisions, s.findings;
      checks, runs, runSeq := s.checks, s.runs, s.runSeq;
    }

    method UpsertFindings(batch: seq<Finding>, now: Time) returns (added: nat, updated: nat)
      modifies this`findings
      ensures findings == Upsert(old(findings), batch, now)
      ensures added + updated == |batch| && |findings| == |old(findings)| + added
    {
      var byFP := IndexByFingerprint(findings);
      assert Upsert(findings, [], now) == findings && batch[..0] == [];
      hide Upsert, UpsertOne, Indexes, SeenAgain, FirstSight;
      added, updated := 0, 0;
      for k := 0 to |batch|
        invariant findings == Upsert(old(findings), batch[..k], now)
        invariant added + updated == k && |findings| == |old(findings)| + added
        invariant Indexes(byFP, findings)
      {
        var f := batch[k];
        UpsertStep(old(findings), batch, k, now);
        UpsertIndexed(byFP, findings, f, now);
        if f.fingerprint in byFP {
          var i := byFP[f.fingerprint];
          findings := findings[i := SeenAgain(findings[i], f, now)];
          updated := updated + 1;
        } else {
          findings := findings + [FirstSight(f, now)];
          byFP := byFP[f.fingerprint := |findings| - 1];
          added := added + 1;
        }
      }
      assert batch[..|batch|] == batch;
    }

    method ResolveStaleFindings(signal: string, repoKey: string, live: set<string>, reason: string, now: Time)
      returns (resolved: nat)
      modifies this`findings
      ensures findings == ResolveStale(old(findings), signal, repoKey, live, reason, now)
      ensures resolved == CountStale(old(findings), signal, repoKey, live)
    {
      resolved := 0;
      ghost var target := ResolveStale(findings, signal, repoKey, live, reason, now);
      ghost var n := |findings|;
      for i := 0 to |findings|
        invariant |findings| == n
        invariant forall k :: 0 <= k < i ==> findings[k] == target[k]
        invariant forall k :: i <= k < n ==> findings[k] == old(findings)[k]
        invariant resolved == CountStale(old(findings)[..i], signal, repoKey, live)
      {
        assert old(findings)[..i + 1][..i] == old(findings)[..i];
        var f := findings[i];
        if f.signal == signal && f.repoKey == repoKey {
          if f.status != "resolved" && f.fingerprint !in live {
            findings := findings[i := Retire(f, reason, now)];
            resolved := resolved + 1;
          }
        }
      }
      assert old(findings)[..n] == old(findings);
    }

    method SetFindingStatus(id: string, status: string, note: string, who: string, muted: Option<Time>, now: Time)
      returns (ok: bool)
      modifies this`findings
      ensures ok == (FirstNamed(old(findings), id) >= 0)
      ensures ok ==> var i := FirstNamed(old(findings), id);
                     findings == old(findings)[i := Triaged(old(findings)[i], status, note, who, muted, now)]
      ensures !ok ==> findings == old(findings)
    {
      for i := 0 to |findings|
        invariant findings == old(findings)
        invariant forall k :: 0 <= k < i ==> !Named(findings[k], id)
      {
        if Named(findings[i], id) {
          findings := findings[i := Triaged(findings[i], status, note, who, muted, now)];
          return true;
        }
      }
      return false;
    }

    method StartRun(trigger: string, now: Time) returns (run: Run)
      modifies this`runs, this`runSeq
      ensures runSeq == old(runSeq) + 1 && run == NewRun(runSeq, trigger, now)
      ensures runs == old(runs) + [run]
    {
      runSeq := runSeq + 1;
      run := NewRun(runSeq, trigger, now);
      runs := runs + [run];
    }

    method CompleteRun(run: Run, now: Time)
      modifies this`runs
      ensures runs == FinishRun(old(runs), run, now)
    {
      for i := 0 to |runs|
        invariant runs == old(runs)
        invariant forall k :: 0 <= k < i ==> runs[k].id != run.id
      {
        if runs[i].id == run.id {
          runs := runs[i := Finished(run, now)];
          return;
        }
      }
      runs := runs + [Finished(run, now)];
    }

    /** dropDecision keeps the other hosts' decisions, in order. */
    method DropHost(host: string)
      modifies this`decisions
      ensures decisions == DropDecision(old(decisions), host)
    {
      var kept: seq<Decision> := [];
      for i := 0 to |decisions|
        invariant decisions == old(decisions)
        invariant kept == DropDecision(decisions[..i], host)
      {
        assert decisions[..i + 1][..i] == decisions[..i];
        if decisions[i].host != host {
          kept := kept + [decisions[i]];
        }
      }
      assert decisions[..|decisions|] == decisions;
      decisions := kept;
    }

    method SetDecision(d: Decision, now: Time)
      modifies this`decisions
      ensures decisions == Decide(old(decisions), d, now)
    {
      var dated := d;
      if dated.decidedAt.None? {
        dated := dated.(decidedAt := Some(now));
      }
      if dated.kind == "later" && dated.expiresAt.None? {
        dated := dated.(expiresAt := Some(dated.decidedAt.value + WEEK));
      }
      DropHost(dated.host);
      decisions := decisions + [dated];
    }

    method Link(u: Upstream, now: Time)
      modifies this`upstreams, this`decisions
      ensures upstreams == LinkUpstream(old(upstreams), u, now)
      ensures decisions == LinkAnswers(old(upstreams), old(decisions), u)
    {
      var v := Defaulted(u, now);
      assert FindLink(upstreams, v) == FindLink(upstreams, u) by { SameTriple(upstreams, u, v); }
      for i := 0 to |upstreams|
        invariant upstreams == old(upstreams) && decisions == old(decisions)
        invariant forall k :: 0 <= k < i ==> !SameLink(upstreams[k], v)
      {
        if SameLink(upstreams[i], v) {
          upstreams := upstreams[i := v.(createdAt := upstreams[i].createdAt)];
          return;
        }
      }
      upstreams := upstreams + [v.(createdAt := now)];
      DropHost(v.host);
    }

    method Unlink(host: string) returns (removed: nat)
      modifies this`upstreams
      ensures upstreams == UnlinkHost(old(upstreams), host)
      ensures removed == |old(upstreams)| - |upstreams|
    {
      removed := 0;
      var kept: seq<Upstream> := [];
      for i := 0 to |upstreams|
        invariant upstreams == old(upstreams)
        invariant kept == UnlinkHost(upstreams[..i], host) && removed == i - |kept|
      {
        assert upstreams[..i + 1][..i] == upstreams[..i];
        if upstreams[i].host == host {
          removed := removed + 1;
          continue;
        }
        kept := kept + [upstreams[i]];
      }
      assert upstreams[..|upstreams|] == upstreams;
      upstreams := kept;
    }

    method Normalize()
      modifies this
      ensures View() == StoreState.Normalize(old(View()))
    {
      upstreams := StableSort(UpstreamLess, upstreams);
      decisions := StableSort(DecisionLess, decisions);
      findings := StableSort(FindingLess, findings);
      runs := StableSort(NewerRun, runs);
      if |runs| > MAX_RUNS {
        runs := runs[..MAX_RUNS];
      }
    }

    /** One Update on the document just read: the closure, then normalize; an error changes nothing. */
    method Perform(t: Timed) returns (ok: bool)
      modifies this
      ensures Apply(t, old(View())) == if ok then Some(View()) else None
      ensures !ok ==> View() == old(View())
    {
      hide Upsert, ResolveStale, FinishRun, LinkUpstream, LinkAnswers, UnlinkHost, Decide, DropDecision, StableSort,
           FirstNamed, Triaged, NewRun, CountStale;
      ok := true;
      match t.op {
        case UpsertFindings(batch) => var _, _ := UpsertFindings(batch, t.now);
        case ResolveStaleFindings(signal, key, live, reason) =>
          var _ := ResolveStaleFindings(signal, key, live, reason, t.now);
        case SetFindingStatus(id, status, note, who, muted) =>
          ok := SetFindingStatus(id, status, note, who, muted, t.now);
        case SetCheckState(key, check) => checks := checks[key := check];
        case StartRun(trigger) => var _ := StartRun(trigger, t.now);
        case CompleteRun(run) => CompleteRun(run, t.now);
        case Link(u) => Link(u, t.now);
        case Unlink(host) => var _ := Unlink(host);
        case SetDecision(d) => SetDecision(d, t.now);
        case ClearDecision(host) => DropHost(host);
      }
      assert Mutate(t, old(View())) == if ok then Some(View()) else None;
      if ok {
        Normalize();
      }
    }
  }
}
