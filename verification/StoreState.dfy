/**
 The persisted document (internal/store/store.go, internal/model/model.go) as a value, and
 what each store operation makes of it.
 */
module StoreState {
  import opened Strs
  import opened Sorting

  type Time = int

  // ----- findings

  /** The evidence an occurrence brings: commits, comparison link, citations and endpoints. */
  datatype Basis = Basis(commit: string, base: string, head: string, compareURL: string,
                         evidence: seq<string>, endpoints: seq<string>)

  datatype Finding = Finding(
    id: string, fingerprint: string, signal: string, repoKey: string, severity: string,
    corroborated: bool, basis: Basis, firstSeen: Time, lastSeen: Time, occurrences: int,
    status: string, note: string, who: string, statusAt: Option<Time>, mutedUntil: Option<Time>)

  function Rank(severity: string): nat {
    if severity == "breaking" then 0 else if severity == "risky" then 1 else 2
  }

  /** The position the lookup map holds for a fingerprint: the last one, or -1. */
  function Find(fs: seq<Finding>, fp: string): (i: int)
    ensures -1 <= i < |fs|
    ensures i >= 0 ==> fs[i].fingerprint == fp
    ensures i < 0 ==> forall k :: 0 <= k < |fs| ==> fs[k].fingerprint != fp
  {
    if fs == [] then -1
    else if fs[|fs| - 1].fingerprint == fp then |fs| - 1
    else Find(fs[..|fs| - 1], fp)
  }

  /** Updating findings in place moves no fingerprint. */
  lemma {:induction false} FindSameFingerprints(xs: seq<Finding>, ys: seq<Finding>, fp: string)
    requires |xs| == |ys| && forall i :: 0 <= i < |xs| ==> xs[i].fingerprint == ys[i].fingerprint
    ensures Find(xs, fp) == Find(ys, fp)
  {
    if xs != [] {
      FindSameFingerprints(xs[..|xs| - 1], ys[..|ys| - 1], fp);
    }
  }

  /** A stored finding after it has been seen once more. */
  function SeenAgain(e: Finding, f: Finding, now: Time): Finding {
    var seen := e.(occurrences := e.occurrences + 1, lastSeen := now, basis := f.basis,
                   corroborated := e.corroborated || f.corroborated);
    var open := if seen.status == "resolved"
                then seen.(status := "open", note := "reopened: seen again") else seen;
    if Rank(f.severity) < Rank(open.severity) then
      var worse := open.(severity := f.severity);
      if worse.status == "acked" then worse.(status := "open", note := "reopened: severity increased") else worse
    else open
  }

  function FirstSight(f: Finding, now: Time): Finding {
    f.(firstSeen := now, lastSeen := now, occurrences := 1,
       status := if f.status == "" then "open" else f.status)
  }

  function UpsertOne(fs: seq<Finding>, f: Finding, now: Time): seq<Finding> {
    var i := Find(fs, f.fingerprint);
    if i >= 0 then fs[i := SeenAgain(fs[i], f, now)] else fs + [FirstSight(f, now)]
  }

  function Upsert(fs: seq<Finding>, batch: seq<Finding>, now: Time): seq<Finding> {
    if batch == [] then fs
    else
      var n := |batch| - 1;
      UpsertOne(Upsert(fs, batch[..n], now), batch[n], now)
  }

  predicate Stale(f: Finding, signal: string, repoKey: string, live: set<string>) {
    f.signal == signal && f.repoKey == repoKey && f.status != "resolved" && f.fingerprint !in live
  }

  function Retire(f: Finding, note: string, now: Time): Finding {
    f.(status := "resolved", note := note, who := "monitor", statusAt := Some(now))
  }

  function ResolveStale(fs: seq<Finding>, signal: string, repoKey: string, live: set<string>,
                        note: string, now: Time): (r: seq<Finding>)
    ensures |r| == |fs|
  {
    seq(|fs|, i requires 0 <= i < |fs| =>
      if Stale(fs[i], signal, repoKey, live) then Retire(fs[i], note, now) else fs[i])
  }

  predicate Named(f: Finding, id: string) {
    f.id == id || f.fingerprint == id
  }

  /** The first finding an identifier names, or -1. */
  function FirstNamed(fs: seq<Finding>, id: string): (i: int)
    ensures -1 <= i < |fs|
    ensures i >= 0 ==> Named(fs[i], id) && forall k :: 0 <= k < i ==> !Named(fs[k], id)
    ensures i < 0 ==> forall k :: 0 <= k < |fs| ==> !Named(fs[k], id)
  {
    if fs == [] then -1
    else if Named(fs[0], id) then 0
    else
      var i := FirstNamed(fs[1..], id);
      if i < 0 then -1 else i + 1
  }

  function Triaged(f: Finding, status: string, note: string, who: string, muted: Option<Time>, now: Time): Finding {
    f.(status := status, note := note, who := who, statusAt := Some(now), mutedUntil := muted)
  }

  // ----- runs

  datatype Run = Run(id: string, number: int, startedAt: Time, finishedAt: Option<Time>,
                     trigger: string, counts: seq<int>, remarks: seq<string>, complete: bool)

  const MAX_RUNS: nat := 50

  function RunId(number: nat): string {
    "r_" + Itoa(number)
  }

  function NewRun(number: nat, trigger: string, now: Time): Run {
    Run(RunId(number), number, now, None, trigger, [], [], false)
  }

  /** The first run record with this ID, or -1. */
  function FindRun(runs: seq<Run>, id: string): (i: int)
    ensures -1 <= i < |runs|
    ensures i >= 0 ==> runs[i].id == id && forall k :: 0 <= k < i ==> runs[k].id != id
    ensures i < 0 ==> forall k :: 0 <= k < |runs| ==> runs[k].id != id
  {
    if runs == [] then -1
    else if runs[0].id == id then 0
    else
      var i := FindRun(runs[1..], id);
      if i < 0 then -1 else i + 1
  }

  function Finished(run: Run, now: Time): Run {
    run.(finishedAt := Some(now), complete := true)
  }

  function FinishRun(runs: seq<Run>, run: Run, now: Time): seq<Run> {
    var i := FindRun(runs, run.id);
    if i >= 0 then runs[i := Finished(run, now)] else runs + [Finished(run, now)]
  }

  // ----- upstreams and check state

  datatype Upstream = Upstream(host: string, repoKey: string, prefix: string, role: string,
                               priority: int, status: string, createdAt: Time, updatedAt: Time)

  /** What is remembered about one upstream between checks. */
  datatype CheckState = CheckState(
    defaultBranch: string, lastHead: string, lastChecked: Option<Time>, pushedAt: Option<Time>,
    releaseTag: string, tagName: string, specPaths: seq<string>, etags: map<string, string>,
    status: string, lastError: string, failures: nat, skipUntil: nat)

  const UNSEEN := CheckState("", "", None, None, "", "", [], map[], "", "", 0, 0)

  predicate SameLink(a: Upstream, b: Upstream) {
    a.host == b.host && a.repoKey == b.repoKey && a.prefix == b.prefix
  }

  function FindLink(us: seq<Upstream>, u: Upstream): (i: int)
    ensures -1 <= i < |us|
    ensures i >= 0 ==> SameLink(us[i], u) && forall k :: 0 <= k < i ==> !SameLink(us[k], u)
    ensures i < 0 ==> forall k :: 0 <= k < |us| ==> !SameLink(us[k], u)
  {
    if us == [] then -1
    else if SameLink(us[0], u) then 0
    else
      var i := FindLink(us[1..], u);
      if i < 0 then -1 else i + 1
  }

  function Defaulted(u: Upstream, now: Time): Upstream {
    u.(role := if u.role == "" then "implementation" else u.role,
       status := if u.status == "" then "active" else u.status, updatedAt := now)
  }

  function LinkUpstream(us: seq<Upstream>, u: Upstream, now: Time): seq<Upstream> {
    var v := Defaulted(u, now);
    var i := FindLink(us, v);
    if i >= 0 then us[i := v.(createdAt := us[i].createdAt)] else us + [v.(createdAt := now)]
  }

  function UnlinkHost(us: seq<Upstream>, host: string): seq<Upstream> {
    if us == [] then []
    else
      var n := |us| - 1;
      UnlinkHost(us[..n], host) + (if us[n].host == host then [] else [us[n]])
  }

  // ----- decisions not to link a host

  datatype Decision = Decision(host: string, kind: string, reason: string, who: string,
                               decidedAt: Option<Time>, expiresAt: Option<Time>)

  const WEEK: Time := 604_800_000_000_000

  function DropDecision(ds: seq<Decision>, host: string): seq<Decision> {
    if ds == [] then []
    else
      var n := |ds| - 1;
      DropDecision(ds[..n], host) + (if ds[n].host == host then [] else [ds[n]])
  }

  /** A decision for later expires after a week unless it says otherwise. */
  function Dated(d: Decision, now: Time): Decision {
    var at := if d.decidedAt.Some? then d.decidedAt.value else now;
    d.(decidedAt := Some(at),
       expiresAt := if d.kind == "later" && d.expiresAt.None? then Some(at + WEEK) else d.expiresAt)
  }

  function Decide(ds: seq<Decision>, d: Decision, now: Time): seq<Decision> {
    DropDecision(ds, d.host) + [Dated(d, now)]
  }

  /** A link for a new triple answers the question a decision was suppressing. */
  function LinkAnswers(us: seq<Upstream>, ds: seq<Decision>, u: Upstream): seq<Decision> {
    if FindLink(us, u) >= 0 then ds else DropDecision(ds, u.host)
  }

  // ----- the document

  datatype State = State(upstreams: seq<Upstream>, decisions: seq<Decision>, findings: seq<Finding>,
                         checks: map<string, CheckState>, runs: seq<Run>, runSeq: nat)

  const EMPTY := State([], [], [], map[], [], 0)

  predicate UpstreamLess(a: Upstream, b: Upstream) {
    if a.host != b.host then LexLess(a.host, b.host)
    else if a.prefix != b.prefix then LexLess(b.prefix, a.prefix)
    else if a.priority != b.priority then a.priority < b.priority
    else LexLess(a.repoKey, b.repoKey)
  }

  predicate DecisionLess(a: Decision, b: Decision) {
    LexLess(a.host, b.host)
  }

  predicate FindingLess(a: Finding, b: Finding) {
    if a.severity != b.severity then Rank(a.severity) < Rank(b.severity)
    else if a.corroborated != b.corroborated then a.corroborated
    else if a.lastSeen != b.lastSeen then a.lastSeen > b.lastSeen
    else LexLess(a.id, b.id)
  }

  predicate NewerRun(a: Run, b: Run) {
    a.number > b.number
  }

  function LatestRuns(runs: seq<Run>): seq<Run> {
    var sorted := StableSort(NewerRun, runs);
    if |sorted| > MAX_RUNS then sorted[..MAX_RUNS] else sorted
  }

  /** normalize: every write puts the document in its stable order. */
  function Normalize(s: State): State {
    s.(upstreams := StableSort(UpstreamLess, s.upstreams),
       decisions := StableSort(DecisionLess, s.decisions),
       findings := StableSort(FindingLess, s.findings),
       runs := LatestRuns(s.runs))
  }

  /** The mutations that reach the store, each the closure handed to one Update. */
  datatype Op =
    | UpsertFindings(batch: seq<Finding>)
    | ResolveStaleFindings(signal: string, repoKey: string, live: set<string>, reason: string)
    | SetFindingStatus(id: string, status: string, note: string, who: string, muted: Option<Time>)
    | SetCheckState(key: string, check: CheckState)
    | StartRun(trigger: string)
    | CompleteRun(run: Run)
    | Link(upstream: Upstream)
    | Unlink(host: string)
    | SetDecision(decision: Decision)
    | ClearDecision(host: string)

  /** An operation with the clock reading its closure uses. */
  datatype Timed = Timed(op: Op, now: Time)

  /** The closure: the new document, or None when it returns an error. */
  function Mutate(t: Timed, s: State): Option<State> {
    match t.op
    case UpsertFindings(batch) => Some(s.(findings := Upsert(s.findings, batch, t.now)))
    case ResolveStaleFindings(signal, key, live, reason) =>
      Some(s.(findings := ResolveStale(s.findings, signal, key, live, reason, t.now)))
    case SetFindingStatus(id, status, note, who, muted) =>
      var i := FirstNamed(s.findings, id);
      if i < 0 then None
      else Some(s.(findings := s.findings[i := Triaged(s.findings[i], status, note, who, muted, t.now)]))
    case SetCheckState(key, check) => Some(s.(checks := s.checks[key := check]))
    case StartRun(trigger) =>
      Some(s.(runSeq := s.runSeq + 1, runs := s.runs + [NewRun(s.runSeq + 1, trigger, t.now)]))
    case CompleteRun(run) => Some(s.(runs := FinishRun(s.runs, run, t.now)))
    case Link(u) =>
      Some(s.(upstreams := LinkUpstream(s.upstreams, u, t.now), decisions := LinkAnswers(s.upstreams, s.decisions, u)))
    case Unlink(host) => Some(s.(upstreams := UnlinkHost(s.upstreams, host)))
    case SetDecision(d) => Some(s.(decisions := Decide(s.decisions, d, t.now)))
    case ClearDecision(host) => Some(s.(decisions := DropDecision(s.decisions, host)))
  }

  /** One Update: the closure, then normalize. */
  function Apply(t: Timed, s: State): Option<State> {
    match Mutate(t, s)
    case Some(s') => Some(Normalize(s'))
    case None => None
  }
}
