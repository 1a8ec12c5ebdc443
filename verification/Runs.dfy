/**
 A whole check (Run, internal/monitor/run.go) as calls of one thread over the concurrent store:
 which findings are stored when a process dies, and what a run reports that cannot read back.
 */
module MonitorRuns {
  import opened Strs
  import opened Sorting
  import opened StoreState
  import opened StoreLaws
  import opened Protocol
  import opened ReportOnce
  import opened CheckUpstream
  import CheckLaws

  // ----- commits and renames

  /** Step `i` of a behavior is the rename of call `n` of thread `t`. */
  ghost predicate RenamesAt<U(!new), S(!new)>(sp: Spec<U, S>, b: seq<World<U, S>>, i: nat, t: nat, n: nat) {
    && i + 1 < |b| && t in b[i].threads && b[i].threads[t].serial == n
    && Step(sp, b[i], t, Rename) == Some(b[i + 1])
  }

  ghost predicate Renamed<U(!new), S(!new)>(sp: Spec<U, S>, b: seq<World<U, S>>, j: nat, t: nat, n: nat) {
    exists i :: 0 <= i < j && RenamesAt(sp, b, i, t, n)
  }

  lemma RenameLogs<U(!new), S(!new)>(sp: Spec<U, S>, w: World<U, S>, t: nat)
    requires t in w.threads && Step(sp, w, t, Rename).Some?
    ensures Step(sp, w, t, Rename).value.log == w.log + [Entry(t, w.threads[t].serial, w.threads[t].pc.u)]
  {
  }

  /** One step of a behavior adds to the log exactly what it renames. */
  lemma StepLogs<U(!new), S(!new)>(sp: Spec<U, S>, b: seq<World<U, S>>, i: nat, t: nat, n: nat)
    requires i + 1 < |b| && Next(sp, b[i], b[i + 1])
    ensures InLog(b[i + 1].log, t, n) <==> InLog(b[i].log, t, n) || RenamesAt(sp, b, i, t, n)
  {
    var w, w' := b[i], b[i + 1];
    hide Step, InLog;
    if x, a :| x in w.threads && Step(sp, w, x, a) == Some(w') {
      if a.Rename? {
        RenameLogs(sp, w, x);
        var e := w'.log[|w.log|];
        LogGrows(w.log, e, t, n);
        if RenamesAt(sp, b, i, t, n) { RenameLogs(sp, w, t); }
      } else {
        QuietStep(sp, w, x, a);
        if RenamesAt(sp, b, i, t, n) { RenameLogs(sp, w, t); }
      }
    } else if RenamesAt(sp, b, i, t, n) {
      RenameLogs(sp, w, t);
    }
  }

  lemma BehaviorStep<U(!new), S(!new)>(sp: Spec<U, S>, b: seq<World<U, S>>, i: nat)
    requires Behavior(sp, b) && i + 1 < |b|
    ensures Next(sp, b[i], b[i + 1])
  {
    hide Next;
  }

  lemma RenamedStep<U(!new), S(!new)>(sp: Spec<U, S>, b: seq<World<U, S>>, j: nat, t: nat, n: nat)
    ensures Renamed(sp, b, j + 1, t, n) <==> Renamed(sp, b, j, t, n) || RenamesAt(sp, b, j, t, n)
  {
    hide RenamesAt;
  }

  /** A call is in the log exactly when its rename has happened. */
  lemma {:induction false} CommittedIffRenamed<U(!new), S(!new)>(sp: Spec<U, S>, b: seq<World<U, S>>, j: nat,
                                                                 t: nat, n: nat)
    requires Behavior(sp, b) && j < |b|
    ensures InLog(b[j].log, t, n) <==> Renamed(sp, b, j, t, n)
    decreases j
  {
    hide RenamesAt;
    if j > 0 {
      CommittedIffRenamed(sp, b, j - 1, t, n);
      BehaviorStep(sp, b, j - 1);
      RenamedStep(sp, b, j - 1, t, n);
      hide *;
      StepLogs(sp, b, j - 1, t, n);
    }
  }

  // ----- a run

  /** The states of the upstreams that a run checked, in order, and the findings it kept. */
  datatype Plan = Plan(checks: seq<(string, CheckState)>, batch: seq<Finding>)

  datatype Wanted = ReadFirst | Start | SaveCheck(key: string, check: CheckState) | SaveFindings(batch: seq<Finding>)
                  | ReadAgain | Finish

  /** The number of the call that upserts the findings. */
  function UpsertCall(plan: Plan): nat {
    |plan.checks| + 3
  }

  /** The `k`th call of a run, from 1 on. */
  function Wants(plan: Plan, k: nat): Wanted
    requires 1 <= k <= UpsertCall(plan) + 2
  {
    if k == 1 then ReadFirst
    else if k == 2 then Start
    else if k < UpsertCall(plan) then SaveCheck(plan.checks[k - 3].0, plan.checks[k - 3].1)
    else if k == UpsertCall(plan) then SaveFindings(plan.batch)
    else if k == UpsertCall(plan) + 1 then ReadAgain
    else Finish
  }

  predicate Is(call: Option<Timed>, x: Wanted) {
    match x
    case ReadFirst => call.None?
    case ReadAgain => call.None?
    case Start => call.Some? && call.value.op.StartRun?
    case SaveCheck(key, check) => call.Some? && call.value.op == SetCheckState(key, check)
    case SaveFindings(batch) => call.Some? && call.value.op == UpsertFindings(batch)
    case Finish => call.Some? && call.value.op.CompleteRun?
  }

  /** Result `i` is the run's `k`th call, it was what the run wants, and the run goes on after it. */
  predicate Passed(w: World<Timed, State>, i: int, t: nat, base: nat, plan: Plan, k: nat)
    requires 1 <= k <= UpsertCall(plan) + 2
  {
    var x := Wants(plan, k);
    && 0 <= i < |w.results| && w.results[i].tid == t && w.results[i].serial == base + k && Is(w.results[i].call, x)
    && (if x.ReadFirst? then w.results[i].ret.ReadOk?
        else if x.ReadAgain? then w.results[i].ret.ReadOk? || w.results[i].ret.ReadFailed?
        else w.results[i].ret.Committed?)
  }

  ghost predicate HasPassed(w: World<Timed, State>, t: nat, base: nat, plan: Plan, k: nat)
    requires 1 <= k <= UpsertCall(plan) + 2
  {
    exists i :: Passed(w, i, t, base, plan, k)
  }

  function UpsertSerial(base: nat, plan: Plan): nat {
    base + UpsertCall(plan)
  }

  /** The record that the run finishes is the one that its own StartRun, its second call, handed out. */
  ghost predicate FinishesOwn(w: World<Timed, State>, t: nat, base: nat) {
    && t in w.threads && w.threads[t].call.Some? && w.threads[t].call.value.op.CompleteRun?
    && exists q: nat :: q < |w.log| && At(w.log, q, t, base + 2) && StartedAt(w.log, q, w.threads[t].call.value.op.run)
  }

  /** Thread `t` is somewhere in a run whose first call has number `base + 1`: an error ends it. */
  ghost predicate Running(w: World<Timed, State>, t: nat, base: nat, plan: Plan) {
    && t in w.threads && base <= w.threads[t].serial <= base + UpsertCall(plan) + 2
    && (w.threads[t].serial > base ==> Is(w.threads[t].call, Wants(plan, w.threads[t].serial - base)))
    && (forall k: nat :: 1 <= k < w.threads[t].serial - base ==> HasPassed(w, t, base, plan, k))
    && (w.threads[t].serial == base + UpsertCall(plan) + 2 ==> FinishesOwn(w, t, base))
  }

  /** What the run commits as its call `k` is what it wanted. */
  lemma CommittedAsWanted(b: seq<World<Timed, State>>, j: nat, t: nat, base: nat, plan: Plan, k: nat, p: nat)
    requires Behavior(STORE, b) && j < |b| && Running(b[j], t, base, plan)
    requires 1 <= k <= UpsertCall(plan) + 2 && At(b[j].log, p, t, base + k)
    ensures Is(Some(b[j].log[p].u), Wants(plan, k))
  {
    var w := b[j];
    CommitOfCall(STORE, b, j, t, base + k, p);
    hide Behavior, Wants, Is, UpsertCall;
    if base + k < w.threads[t].serial {
      assert HasPassed(w, t, base, plan, k);
      var i :| Passed(w, i, t, base, plan, k);
    }
  }

  /** Thread `t` has made a call of a run. */
  ghost predicate InARun(w: World<Timed, State>, t: nat) {
    exists base: nat, plan: Plan :: Running(w, t, base, plan) && base < w.threads[t].serial
  }

  /** Runs are finished by runs only. */
  ghost predicate RunsFinish(w: World<Timed, State>) {
    forall t :: t in w.threads && w.threads[t].call.Some? && w.threads[t].call.value.op.CompleteRun? ==> InARun(w, t)
  }

  lemma RunsFinishStarted(w: World<Timed, State>)
    requires RunsFinish(w)
    ensures FinishesStarted(w)
  {
    hide StartedAt, HasPassed;
    forall t | t in w.threads && w.threads[t].call.Some? && w.threads[t].call.value.op.CompleteRun?
      ensures HandedOut(w.log, w.threads[t].call.value.op.run)
    {
      assert InARun(w, t);
      var base: nat, plan: Plan :| Running(w, t, base, plan) && base < w.threads[t].serial;
      assert Is(w.threads[t].call, Wants(plan, w.threads[t].serial - base));
      assert FinishesOwn(w, t, base);
    }
  }

  /** When runs alone finish runs, every document stored and every document read is sound. */
  lemma RunsKeepDocumentsSound(b: seq<World<Timed, State>>, j: nat, i: nat)
    requires Behavior(STORE, b) && j < |b| && forall k :: 0 <= k < j ==> RunsFinish(b[k])
    ensures Sound(Content(STORE, b[j].file))
    ensures i < |b[j].results| && b[j].results[i].ret.ReadOk? ==> Sound(b[j].results[i].ret.s)
  {
    hide RunsFinish, FinishesStarted, Behavior, Sound;
    forall k | 0 <= k < j ensures FinishesStarted(b[k]) { RunsFinishStarted(b[k]); }
    EveryDocumentSound(b, j, i);
  }

  /** A commit of somebody else, or of another call, that sights the fingerprint. */
  ghost predicate SightedElsewhere(log: Log, t: nat, n: nat, fp: string) {
    exists p: nat :: Sights(log, p, fp) && !At(log, p, t, n)
  }

  /**
   What a run found is in the store exactly when the rename of its upsert has happened, or somebody
   else sighted it. Whatever else the run did before it died or failed, makes no difference.
   */
  lemma FoundIsStoredIff(b: seq<World<Timed, State>>, j: nat, t: nat, base: nat, plan: Plan, fp: string)
    requires Behavior(STORE, b) && j < |b| && Running(b[j], t, base, plan) && Count(plan.batch, fp) > 0
    ensures Stored(Content(STORE, b[j].file).findings, fp).Some?
       <==> Renamed(STORE, b, j, t, UpsertSerial(base, plan))
            || SightedElsewhere(b[j].log, t, UpsertSerial(base, plan), fp)
  {
    var log, n := b[j].log, UpsertSerial(base, plan);
    FileIsCommits(STORE, b, j, j);
    OccurrencesAreSightings(log, fp);
    UnsightedIff(log, |log|, fp);
    assert log[..|log|] == log;
    CommittedIffRenamed(STORE, b, j, t, n);
    OwnSighting(b, j, t, base, plan, fp);
    hide Renamed, Behavior, Running, Stored, Sightings, InLog, Content, Sights, UpsertSerial;
    if q: nat :| q < |log| && Sights(log, q, fp) {
      assert !At(log, q, t, n) ==> SightedElsewhere(log, t, n, fp);
      InLogAt(log, q, t, n);
    }
  }

  lemma InLogAt(log: Log, p: nat, t: nat, n: nat)
    ensures At(log, p, t, n) ==> InLog(log, t, n)
  {
  }

  /** The run's own upsert, once committed, sights what the run found. */
  lemma OwnSighting(b: seq<World<Timed, State>>, j: nat, t: nat, base: nat, plan: Plan, fp: string)
    requires Behavior(STORE, b) && j < |b| && Running(b[j], t, base, plan) && Count(plan.batch, fp) > 0
    ensures InLog(b[j].log, t, UpsertSerial(base, plan)) ==> exists p: nat :: p < |b[j].log| && Sights(b[j].log, p, fp)
  {
    hide Behavior, Running;
    if InLog(b[j].log, t, UpsertSerial(base, plan)) {
      var p :| At(b[j].log, p, t, UpsertSerial(base, plan));
      CommittedAsWanted(b, j, t, base, plan, UpsertCall(plan), p);
      assert Sights(b[j].log, p, fp);
    }
  }

  /** By then every check state of the run has been committed, before the findings. */
  lemma ChecksComeFirst(b: seq<World<Timed, State>>, j: nat, t: nat, base: nat, plan: Plan, i: nat) returns (p: nat)
    requires Behavior(STORE, b) && j < |b| && Running(b[j], t, base, plan) && i < |plan.checks|
    requires b[j].threads[t].serial >= UpsertSerial(base, plan)
    ensures At(b[j].log, p, t, base + 3 + i)
    ensures b[j].log[p].u.op == SetCheckState(plan.checks[i].0, plan.checks[i].1)
    ensures forall q: nat :: At(b[j].log, q, t, UpsertSerial(base, plan)) ==> p < q
  {
    var w, k := b[j], 3 + i;
    assert HasPassed(w, t, base, plan, k);
    var r :| Passed(w, r, t, base, plan, k);
    assert Wants(plan, k) == SaveCheck(plan.checks[i].0, plan.checks[i].1);
    hide Behavior, Wants, Running;
    p := SuccessMeansCommitted(STORE, b, j, r);
    forall q: nat | At(w.log, q, t, UpsertSerial(base, plan)) ensures p < q {
      CommitsInCallOrder(STORE, b, j, t, p, q, base + k, UpsertSerial(base, plan));
    }
  }

  // ----- after a crash

  lemma DeadStep<U(!new), S(!new)>(sp: Spec<U, S>, b: seq<World<U, S>>, i: nat, t: nat)
    requires i + 1 < |b| && Next(sp, b[i], b[i + 1])
    requires t in b[i].threads && b[i].threads[t].pc.Dead?
    ensures t in b[i + 1].threads && b[i + 1].threads[t] == b[i].threads[t]
    ensures forall n :: !RenamesAt(sp, b, i, t, n)
  {
    var w, w' := b[i], b[i + 1];
    if x, a :| x in w.threads && Step(sp, w, x, a) == Some(w') {
      OtherThreads(sp, w, x, a, t);
    }
  }

  lemma OtherThreads<U, S>(sp: Spec<U, S>, w: World<U, S>, x: nat, a: Action<U>, t: nat)
    requires x in w.threads && t in w.threads && Step(sp, w, x, a).Some? && w.threads[t].pc.Dead?
    ensures var w' := Step(sp, w, x, a).value; t in w'.threads && w'.threads[t] == w.threads[t]
  {
  }

  /** A dead thread stays as it is, and commits nothing more. */
  lemma {:induction false} DeadStays<U(!new), S(!new)>(sp: Spec<U, S>, b: seq<World<U, S>>, i: nat, j: nat, t: nat, n: nat)
    requires Behavior(sp, b) && i <= j < |b| && t in b[i].threads && b[i].threads[t].pc.Dead?
    ensures t in b[j].threads && b[j].threads[t] == b[i].threads[t]
    ensures Renamed(sp, b, j, t, n) <==> Renamed(sp, b, i, t, n)
    decreases j
  {
    hide *;
    if i < j {
      BehaviorStep(sp, b, j - 1);
      DeadStays(sp, b, i, j - 1, t, n);
      DeadStep(sp, b, j - 1, t);
      RenamedStep(sp, b, j - 1, t, n);
    }
  }

  lemma StillRunning(b: seq<World<Timed, State>>, i: nat, j: nat, t: nat, base: nat, plan: Plan)
    requires Behavior(STORE, b) && i <= j < |b| && Running(b[i], t, base, plan) && b[i].threads[t].pc.Dead?
    ensures Running(b[j], t, base, plan)
  {
    hide Behavior, Inv, CallInv, Wants, Is, Renamed, StartedAt;
    DeadStays(STORE, b, i, j, t, 0);
    BehaviorInv(STORE, b, i, j);
    var w, w' := b[i], b[j];
    forall k: nat | 1 <= k < w.threads[t].serial - base ensures HasPassed(w', t, base, plan, k) {
      assert HasPassed(w, t, base, plan, k);
      var r :| Passed(w, r, t, base, plan, k);
      assert w'.results[r] == w.results[r];
      assert Passed(w', r, t, base, plan, k);
    }
    if w.threads[t].serial == base + UpsertCall(plan) + 2 {
      OwnStays(w, w', t, base);
    }
  }

  lemma OwnStays(w: World<Timed, State>, w': World<Timed, State>, t: nat, base: nat)
    requires FinishesOwn(w, t, base) && t in w'.threads && w'.threads[t] == w.threads[t] && w.log <= w'.log
    ensures FinishesOwn(w', t, base)
  {
    hide Fold;
    var run := w.threads[t].call.value.op.run;
    var q: nat :| q < |w.log| && At(w.log, q, t, base + 2) && StartedAt(w.log, q, run);
    assert w'.log[..q + 1] == w.log[..q + 1];
    assert StartedAt(w'.log, q, run) && At(w'.log, q, t, base + 2);
  }

  /**
   A process that dies settles for good what becomes of its findings: at any later moment they are
   stored exactly when it survived to the rename of its upsert, or somebody else sighted them.
   */
  lemma FindingsSurviveIff(b: seq<World<Timed, State>>, i: nat, j: nat, t: nat, base: nat, plan: Plan, fp: string)
    requires Behavior(STORE, b) && i <= j < |b| && Running(b[i], t, base, plan) && Count(plan.batch, fp) > 0
    requires b[i].threads[t].pc.Dead?
    ensures Stored(Content(STORE, b[j].file).findings, fp).Some?
       <==> Renamed(STORE, b, i, t, UpsertSerial(base, plan))
            || SightedElsewhere(b[j].log, t, UpsertSerial(base, plan), fp)
  {
    StillRunning(b, i, j, t, base, plan);
    FoundIsStoredIff(b, j, t, base, plan, fp);
    DeadStays(STORE, b, i, j, t, UpsertSerial(base, plan));
  }

  // ----- building behaviors

  ghost predicate Path<U(!new), S(!new)>(sp: Spec<U, S>, b: seq<World<U, S>>) {
    b != [] && forall i :: 0 <= i < |b| - 1 ==> Next(sp, b[i], b[i + 1])
  }

  ghost predicate Leads<U(!new), S(!new)>(sp: Spec<U, S>, b: seq<World<U, S>>, w: World<U, S>, w': World<U, S>) {
    Path(sp, b) && b[0] == w && b[|b| - 1] == w'
  }

  ghost predicate Reach<U(!new), S(!new)>(sp: Spec<U, S>, w: World<U, S>, w': World<U, S>) {
    exists b :: Leads(sp, b, w, w')
  }

  lemma ReachNext<U(!new), S(!new)>(sp: Spec<U, S>, w: World<U, S>, w': World<U, S>)
    requires Next(sp, w, w')
    ensures Reach(sp, w, w')
  {
    hide Next;
    assert Leads(sp, [w, w'], w, w');
  }

  lemma ReachStep<U(!new), S(!new)>(sp: Spec<U, S>, w: World<U, S>, t: nat, a: Action<U>, w': World<U, S>)
    requires t in w.threads && Step(sp, w, t, a) == Some(w')
    ensures Reach(sp, w, w')
  {
    hide Step;
    ReachNext(sp, w, w');
  }

  lemma ReachTrans<U(!new), S(!new)>(sp: Spec<U, S>, w: World<U, S>, w': World<U, S>, w'': World<U, S>)
    requires Reach(sp, w, w') && Reach(sp, w', w'')
    ensures Reach(sp, w, w'')
  {
    hide Next;
    var b :| Leads(sp, b, w, w');
    var c :| Leads(sp, c, w', w'');
    var all := b + c[1..];
    forall i | 0 <= i < |all| - 1 ensures Next(sp, all[i], all[i + 1]) {
      if i < |b| - 1 {
        assert Next(sp, b[i], b[i + 1]);
      } else {
        var k := i - (|b| - 1);
        assert all[i] == c[k] && all[i + 1] == c[k + 1];
        assert Next(sp, c[k], c[k + 1]);
      }
    }
    assert Leads(sp, all, w, w'');
  }

  lemma ReachIsBehavior<U(!new), S(!new)>(sp: Spec<U, S>, w: World<U, S>, w': World<U, S>) returns (b: seq<World<U, S>>)
    requires Init(w) && Reach(sp, w, w')
    ensures Behavior(sp, b) && b[|b| - 1] == w'
  {
    hide Next;
    b :| Leads(sp, b, w, w');
  }

  /** Thread `t` is idle and nobody holds a lock it needs. */
  predicate Free<U, S>(w: World<U, S>, t: nat) {
    && t in w.threads && w.threads[t].pc == Idle
    && w.threads[t].proc !in w.mutexes && w.exclusive == None && w.shared == {}
  }

  /** The world with thread `t` at another point. */
  function Put<U, S>(w: World<U, S>, t: nat, th: Thread<U, S>): World<U, S> {
    w.(threads := w.threads[t := th])
  }

  /** The thread after it has called: at program point `pc` of the call. */
  function Asked<U, S>(w: World<U, S>, t: nat, call: Option<U>, pc: Pc<U, S>): Thread<U, S>
    requires t in w.threads
  {
    w.threads[t].(serial := w.threads[t].serial + 1, begun := |w.log|, call := call, pc := pc)
  }

  lemma GotoPut<U, S>(w: World<U, S>, t: nat, th: Thread<U, S>, pc: Pc<U, S>)
    ensures Goto(Put(w, t, th), t, pc) == Put(w, t, th.(pc := pc))
  {
    assert w.threads[t := th][t := th.(pc := pc)] == w.threads[t := th.(pc := pc)];
  }

  lemma ReturnPut<U, S>(w: World<U, S>, t: nat, th: Thread<U, S>, ret: Return<S>)
    ensures Returned(Put(w, t, th), t, ret)
         == Put(w.(results := w.results + [Result(t, th.serial, th.begun, |w.log|, th.call, ret)]), t, th.(pc := Idle))
  {
    GotoPut(w, t, th, Idle);
  }

  /** The world of thread `t` holding its locks. */
  function Held<U, S>(w: World<U, S>, t: nat): World<U, S>
    requires t in w.threads
  {
    w.(exclusive := Some(t), mutexes := w.mutexes[w.threads[t].proc := t])
  }

  /** Right before the rename of an update: everything is written, nothing is committed. */
  function BeforeRename<U, S>(w: World<U, S>, t: nat, u: U, s: S): World<U, S>
    requires t in w.threads
  {
    Put(Held(w, t).(temps := w.temps[t := s]), t, Asked(w, t, Some(u), Written(u, s)))
  }

  /** After an update that nobody disturbed. */
  function Updated<U, S>(w: World<U, S>, t: nat, u: U, s: S): World<U, S>
    requires t in w.threads
  {
    var n := w.threads[t].serial + 1;
    Put(w.(temps := w.temps - {t}, file := Some(s), log := w.log + [Entry(t, n, u)],
           results := w.results + [Result(t, n, |w.log|, |w.log| + 1, Some(u), Committed)]),
        t, Asked(w, t, Some(u), Idle))
  }

  function HasRead<U, S>(w: World<U, S>, t: nat, ret: Return<S>): World<U, S>
    requires t in w.threads
  {
    Put(w.(results := w.results + [Result(t, w.threads[t].serial + 1, |w.log|, |w.log|, None, ret)]),
        t, Asked(w, t, None, Idle))
  }

  lemma StepsToLock<U(!new), S(!new)>(sp: Spec<U, S>, w: World<U, S>, t: nat, u: U)
    requires Free(w, t)
    ensures Reach(sp, w, Put(Held(w, t), t, Asked(w, t, Some(u), Locked(u))))
  {
    var w1 := Call(w, t, Some(u), WantMutex(u));
    var th := Asked(w, t, Some(u), WantMutex(u));
    GotoPut(w, t, th, WantLock(u));
    var mutexed := w.(mutexes := w.mutexes[w.threads[t].proc := t]);
    var w2, w3 := Put(mutexed, t, th.(pc := WantLock(u))), Put(Held(w, t), t, th.(pc := Locked(u)));
    GotoPut(mutexed, t, w2.threads[t], Locked(u));
    hide Goto, Reach;
    ReachStep(sp, w, t, BeginUpdate(u), w1);
    ReachStep(sp, w1, t, TakeMutex, w2);
    ReachTrans(sp, w, w1, w2);
    ReachStep(sp, w2, t, LockExclusive, w3);
    ReachTrans(sp, w, w2, w3);
  }

  lemma StepsToWritten<U(!new), S(!new)>(sp: Spec<U, S>, w: World<U, S>, t: nat, th: Thread<U, S>, u: U, s: S)
    requires th.pc == Locked(u) && sp.apply(u, Content(sp, w.file)) == Some(s)
    ensures Reach(sp, Put(w, t, th), Put(w.(temps := w.temps[t := s]), t, th.(pc := Written(u, s))))
  {
    var w3, w4 := Put(w, t, th), Put(w, t, th.(pc := Holding(u, Content(sp, w.file))));
    var w5, w6 := Put(w, t, th.(pc := Ready(u, s))), Put(w.(temps := w.temps[t := s]), t, th.(pc := Written(u, s)));
    GotoPut(w, t, th, w4.threads[t].pc);
    GotoPut(w, t, w4.threads[t], Ready(u, s));
    GotoPut(w, t, w5.threads[t], Written(u, s));
    hide Goto, Reach;
    ReachStep(sp, w3, t, ReadState, w4);
    ReachStep(sp, w4, t, RunClosure, w5);
    ReachTrans(sp, w3, w4, w5);
    ReachStep(sp, w5, t, WriteTemp, w6);
    ReachTrans(sp, w3, w5, w6);
  }

  lemma StepsToRename<U(!new), S(!new)>(sp: Spec<U, S>, w: World<U, S>, t: nat, u: U, s: S)
    requires Free(w, t) && sp.apply(u, Content(sp, w.file)) == Some(s)
    ensures Reach(sp, w, BeforeRename(w, t, u, s))
  {
    hide Reach;
    var th := Asked(w, t, Some(u), Locked(u));
    StepsToLock(sp, w, t, u);
    StepsToWritten(sp, Held(w, t), t, th, u, s);
    ReachTrans(sp, w, Put(Held(w, t), t, th), BeforeRename(w, t, u, s));
  }

  lemma StepsFromWritten<U(!new), S(!new)>(sp: Spec<U, S>, w: World<U, S>, t: nat, th: Thread<U, S>, u: U, s: S)
    requires th.pc == Written(u, s)
    ensures Reach(sp, Put(w.(temps := w.temps[t := s]), t, th),
                  Put(w.(temps := w.temps - {t}, file := Some(s), log := w.log + [Entry(t, th.serial, u)],
                         exclusive := None), t, th.(pc := Unmutexing(true))))
  {
    var renamed := w.(temps := w.temps - {t}, file := Some(s), log := w.log + [Entry(t, th.serial, u)]);
    var w6, w7 := Put(w.(temps := w.temps[t := s]), t, th), Put(renamed, t, th.(pc := Unlocking(true)));
    var w8 := Put(renamed.(exclusive := None), t, th.(pc := Unmutexing(true)));
    assert w.temps[t := s] - {t} == w.temps - {t};
    GotoPut(w.(temps := w.temps[t := s]), t, th, Unlocking(true));
    GotoPut(renamed, t, w7.threads[t], Unmutexing(true));
    hide Goto, Reach;
    ReachStep(sp, w6, t, Rename, w7);
    ReachStep(sp, w7, t, Unlock, w8);
    ReachTrans(sp, w6, w7, w8);
  }

  lemma StepsFromRename<U(!new), S(!new)>(sp: Spec<U, S>, w: World<U, S>, t: nat, u: U, s: S)
    requires Free(w, t)
    ensures Reach(sp, BeforeRename(w, t, u, s), Updated(w, t, u, s))
  {
    var th := Asked(w, t, Some(u), Written(u, s));
    var proc := th.proc;
    var left := w.(temps := w.temps - {t}, file := Some(s), log := w.log + [Entry(t, th.serial, u)]);
    var locked := left.(mutexes := w.mutexes[proc := t]);
    var w8 := Put(locked, t, th.(pc := Unmutexing(true)));
    StepsFromWritten(sp, Held(w, t), t, th, u, s);
    ReturnPut(locked, t, w8.threads[t], Committed);
    assert w.mutexes[proc := t] - {proc} == w.mutexes;
    hide Returned, Reach;
    ReachStep(sp, w8, t, Unmutex, Updated(w, t, u, s));
    ReachTrans(sp, BeforeRename(w, t, u, s), w8, Updated(w, t, u, s));
  }

  lemma UpdateSteps<U(!new), S(!new)>(sp: Spec<U, S>, w: World<U, S>, t: nat, u: U, s: S)
    requires Free(w, t) && sp.apply(u, Content(sp, w.file)) == Some(s)
    ensures Reach(sp, w, Updated(w, t, u, s)) && Free(Updated(w, t, u, s), t)
  {
    hide Reach;
    StepsToRename(sp, w, t, u, s);
    StepsFromRename(sp, w, t, u, s);
    ReachTrans(sp, w, BeforeRename(w, t, u, s), Updated(w, t, u, s));
  }

  lemma StepsToHoldingRead<U(!new), S(!new)>(sp: Spec<U, S>, w: World<U, S>, t: nat, got: S)
    requires Free(w, t) && got == Content(sp, w.file)
    ensures Reach(sp, w, Put(w.(shared := {t}), t, Asked(w, t, None, HoldingRead(Some(got)))))
  {
    var th := Asked(w, t, None, WantShared);
    var sharing := w.(shared := {t});
    var w1, w2 := Call(w, t, None, WantShared), Put(sharing, t, th.(pc := Shared));
    var w3 := Put(sharing, t, th.(pc := HoldingRead(Some(got))));
    assert {} + {t} == {t};
    GotoPut(w, t, th, Shared);
    GotoPut(sharing, t, w2.threads[t], HoldingRead(Some(got)));
    hide Goto, Reach;
    ReachStep(sp, w, t, BeginRead, w1);
    ReachStep(sp, w1, t, LockShared, w2);
    ReachTrans(sp, w, w1, w2);
    ReachStep(sp, w2, t, ReadShared, w3);
    ReachTrans(sp, w, w2, w3);
  }

  lemma ReadSteps<U(!new), S(!new)>(sp: Spec<U, S>, w: World<U, S>, t: nat)
    requires Free(w, t)
    ensures var w' := HasRead(w, t, ReadOk(Content(sp, w.file))); Reach(sp, w, w') && Free(w', t)
  {
    var got := Content(sp, w.file);
    var th := Asked(w, t, None, HoldingRead(Some(got)));
    var sharing := w.(shared := {t});
    var w3, w4 := Put(sharing, t, th), HasRead(w, t, ReadOk(got));
    assert {t} - {t} == {};
    StepsToHoldingRead(sp, w, t, got);
    ReturnPut(sharing, t, th, ReadOk(got));
    hide Goto, Returned, Reach, Content;
    ReachStep(sp, w3, t, UnlockShared, w4);
    ReachTrans(sp, w, w3, w4);
  }

  lemma FailedReadSteps<U(!new), S(!new)>(sp: Spec<U, S>, w: World<U, S>, t: nat)
    requires Free(w, t)
    ensures Reach(sp, w, HasRead(w, t, ReadFailed)) && Free(HasRead(w, t, ReadFailed), t)
  {
    var w1, w2 := Call(w, t, None, WantShared), HasRead(w, t, ReadFailed);
    ReturnPut(w, t, Asked(w, t, None, WantShared), ReadFailed);
    hide Returned, Reach;
    ReachStep(sp, w, t, BeginRead, w1);
    ReachStep(sp, w1, t, LockSharedFails, w2);
    ReachTrans(sp, w, w1, w2);
  }

  /** One process with one thread and nothing stored. */
  const NOTHING_YET: World<Timed, State> :=
    World(None, map[], {}, None, map[], map[0 := Thread(0, 0, 0, None, Idle)], [], [])

  // ----- the head has moved on and the findings are gone

  lemma StartedAndSaved(trigger: string, key: string, check: CheckState)
    ensures var started := Apply(Timed(StartRun(trigger), 0), EMPTY);
            && started.Some?
            && var saved := Apply(Timed(SetCheckState(key, check), 0), started.value);
               saved.Some? && saved.value.findings == [] && saved.value.checks == map[key := check]
  {
    assert StableSort(FindingLess, []) == [];
    hide LatestRuns;
  }

  /** A step from one call to the next: read, or update, with nobody else around. */
  lemma Updating(w0: World<Timed, State>, w: World<Timed, State>, u: Timed, s: State) returns (w': World<Timed, State>)
    requires Reach(STORE, w0, w) && Free(w, 0) && Apply(u, Content(STORE, w.file)) == Some(s)
    ensures Reach(STORE, w0, w') && Free(w', 0) && w'.file == Some(s)
    ensures w'.threads.Keys == w.threads.Keys && w'.threads[0].proc == w.threads[0].proc
    ensures w'.threads[0].serial == w.threads[0].serial + 1
    ensures w'.log == w.log + [Entry(0, w'.threads[0].serial, u)]
    ensures w'.results == w.results + [Result(0, w'.threads[0].serial, |w.log|, |w.log| + 1, Some(u), Committed)]
  {
    assert 0 in w.threads;
    hide Apply, Reach, Free;
    UpdateSteps(STORE, w, 0, u, s);
    w' := Updated(w, 0, u, s);
    ReachTrans(STORE, w0, w, w');
  }

  lemma Reading(w0: World<Timed, State>, w: World<Timed, State>, ret: Return<State>) returns (w': World<Timed, State>)
    requires Reach(STORE, w0, w) && Free(w, 0)
    requires ret == ReadFailed || ret == ReadOk(Content(STORE, w.file))
    ensures Reach(STORE, w0, w') && Free(w', 0) && w'.file == w.file
    ensures w'.threads.Keys == w.threads.Keys && w'.threads[0].proc == w.threads[0].proc
    ensures w'.threads[0].serial == w.threads[0].serial + 1 && w'.log == w.log
    ensures w'.results == w.results + [Result(0, w'.threads[0].serial, |w.log|, |w.log|, None, ret)]
  {
    assert 0 in w.threads;
    hide Reach, Free, Content;
    w' := HasRead(w, 0, ret);
    if ret == ReadFailed { FailedReadSteps(STORE, w, 0); } else { ReadSteps(STORE, w, 0); }
    ReachTrans(STORE, w0, w, w');
  }

  lemma NothingReaches()
    ensures Reach(STORE, NOTHING_YET, NOTHING_YET) && Free(NOTHING_YET, 0) && Init(NOTHING_YET)
    ensures NOTHING_YET.threads.Keys == {0} && NOTHING_YET.threads[0].proc == 0 && NOTHING_YET.threads[0].serial == 0
  {
    hide Next;
    assert Leads(STORE, [NOTHING_YET], NOTHING_YET, NOTHING_YET);
  }

  /** A read and two updates in a row. */
  lemma ThreeCalls(u1: Timed, s1: State, u2: Timed, s2: State) returns (w: World<Timed, State>)
    requires Apply(u1, EMPTY) == Some(s1) && Apply(u2, s1) == Some(s2)
    ensures Reach(STORE, NOTHING_YET, w) && Free(w, 0) && w.file == Some(s2)
    ensures w.threads.Keys == {0} && w.threads[0].proc == 0 && w.threads[0].serial == 3
    ensures w.log == [Entry(0, 2, u1), Entry(0, 3, u2)]
    ensures w.results == [Result(0, 1, 0, 0, None, ReadOk(EMPTY)), Result(0, 2, 0, 1, Some(u1), Committed),
                          Result(0, 3, 1, 2, Some(u2), Committed)]
  {
    NothingReaches();
    ContentOf(None);
    ContentOf(Some(s1));
    hide Apply, Reach, Free, Content;
    var w1 := Reading(NOTHING_YET, NOTHING_YET, ReadOk(EMPTY));
    var w2 := Updating(NOTHING_YET, w1, u1, s1);
    w := Updating(NOTHING_YET, w2, u2, s2);
  }

  lemma ThreePassed(w: World<Timed, State>, plan: Plan, start: Timed, save: Timed)
    requires |plan.checks| == 1 && start.op.StartRun?
    requires save.op == SetCheckState(plan.checks[0].0, plan.checks[0].1)
    requires |w.results| == 3 && forall i :: 0 <= i < 3 ==> w.results[i].tid == 0 && w.results[i].serial == i + 1
    requires w.results[0].call == None && w.results[0].ret.ReadOk?
    requires w.results[1].call == Some(start) && w.results[1].ret.Committed?
    requires w.results[2].call == Some(save) && w.results[2].ret.Committed?
    ensures Passed(w, 0, 0, 0, plan, 1) && Passed(w, 1, 0, 0, plan, 2) && Passed(w, 2, 0, 0, plan, 3)
  {
  }

  /** A read and two updates, and then a crash during the third update. */
  lemma CrashInThird(u1: Timed, s1: State, u2: Timed, s2: State, u3: Timed, s3: State)
    returns (b: seq<World<Timed, State>>, w: World<Timed, State>)
    requires Apply(u1, EMPTY) == Some(s1) && Apply(u2, s1) == Some(s2) && Apply(u3, s2) == Some(s3)
    ensures Behavior(STORE, b) && b != [] && b[|b| - 1] == w && w.file == Some(s2)
    ensures 0 in w.threads && w.threads[0].pc.Dead? && w.threads[0].serial == 4 && w.threads[0].call == Some(u3)
    ensures w.log == [Entry(0, 2, u1), Entry(0, 3, u2)]
    ensures w.results == [Result(0, 1, 0, 0, None, ReadOk(EMPTY)), Result(0, 2, 0, 1, Some(u1), Committed),
                          Result(0, 3, 1, 2, Some(u2), Committed)]
  {
    NothingReaches();
    ContentOf(Some(s2));
    hide Apply, Reach, Free, Content, Init;
    var w3 := ThreeCalls(u1, s1, u2, s2);
    StepsToRename(STORE, w3, 0, u3, s3);
    var w4 := BeforeRename(w3, 0, u3, s3);
    ReachTrans(STORE, NOTHING_YET, w3, w4);
    w := Crash(w4, 0);
    ReachNext(STORE, w4, w);
    ReachTrans(STORE, NOTHING_YET, w4, w);
    b := ReachIsBehavior(STORE, NOTHING_YET, w);
    CrashedAt(w3, u3, s3);
  }

  /**
   For any state and findings of an upstream there is a behavior in which the process dies during
   the upsert: the state is stored, the findings are not, and no later moment brings them back.
   */
  lemma CrashLosesFindings(key: string, check: CheckState, batch: seq<Finding>) returns (b: seq<World<Timed, State>>)
    ensures Behavior(STORE, b)
    ensures var w := b[|b| - 1];
            && Running(w, 0, 0, Plan([(key, check)], batch)) && w.threads[0].pc.Dead?
            && !Renamed(STORE, b, |b| - 1, 0, 4)
            && Content(STORE, w.file).checks == map[key := check] && Content(STORE, w.file).findings == []
  {
    hide Apply, Passed, Behavior;
    var plan := Plan([(key, check)], batch);
    var start, save := Timed(StartRun("cli"), 0), Timed(SetCheckState(key, check), 0);
    var upsert := Timed(UpsertFindings(batch), 0);
    StartedAndSaved("cli", key, check);
    var s1 := Apply(start, EMPTY).value;
    var s2 := Apply(save, s1).value;
    UpsertFromNothing(batch, s2);
    var w;
    b, w := CrashInThird(start, s1, save, s2, upsert, Apply(upsert, s2).value);
    assert !InLog(w.log, 0, 4);
    hide InLog;
    CommittedIffRenamed(STORE, b, |b| - 1, 0, 4);
    ThreePassed(w, plan, start, save);
    RunOfThree(w, plan);
  }

  lemma CrashedAt(w: World<Timed, State>, u: Timed, s: State)
    requires w.threads.Keys == {0} && w.threads[0].proc == 0
    ensures var w' := Crash(BeforeRename(w, 0, u, s), 0);
            && w'.file == w.file && w'.log == w.log && w'.results == w.results && 0 in w'.threads
            && w'.threads[0].pc.Dead? && w'.threads[0].serial == w.threads[0].serial + 1
            && w'.threads[0].call == Some(u)
  {
  }

  lemma RunOfThree(w: World<Timed, State>, plan: Plan)
    requires |plan.checks| == 1 && 0 in w.threads && w.threads[0].serial == 4
    requires Is(w.threads[0].call, Wants(plan, 4))
    requires Passed(w, 0, 0, 0, plan, 1) && Passed(w, 1, 0, 0, plan, 2) && Passed(w, 2, 0, 0, plan, 3)
    ensures Running(w, 0, 0, plan)
  {
    hide Passed, Is, Wants;
    assert HasPassed(w, 0, 0, plan, 1) && HasPassed(w, 0, 0, plan, 2) && HasPassed(w, 0, 0, plan, 3);
  }

  /**
   So the analysed commits of an upstream can be lost for good: the remembered head is already the
   one where the comparison ended, and whatever a later check analyses starts there.
   */
  lemma AnalysedWindowLost(key: string, prev: CheckState, a: Answers, s: Settings, out: CheckUpstream.Outcome)
    returns (b: seq<World<Timed, State>>)
    requires CheckLaws.GoesOn(prev, a, s) && CheckLaws.Ahead(a.compare) && Checked(prev, a, s, out)
    ensures Behavior(STORE, b)
    ensures var stored := Content(STORE, b[|b| - 1].file);
            && Running(b[|b| - 1], 0, 0, Plan([(key, out.next)], out.findings)) && stored.findings == []
            && key in stored.checks && stored.checks[key] == out.next
            && (a.compare.head != "" ==> out.next.lastHead == a.compare.head)
            && out.window == Some(Window(prev.lastHead, out.next.lastHead))
    ensures forall a', s', out' :: Checked(out.next, a', s', out') && out'.window.Some? ==>
              out'.window.value.base == out.next.lastHead
  {
    b := CrashLosesFindings(key, out.next, out.findings);
    CheckLaws.AnalysisMovesHead(prev, a, s, out);
    hide Behavior, Running, Renamed, Judge, HeadAfter;
  }

  // ----- reported twice

  lemma UpsertFromNothing(batch: seq<Finding>, s: State)
    ensures Apply(Timed(UpsertFindings(batch), 0), s).Some?
  {
  }

  lemma ContentOf(file: Option<State>)
    ensures Content(STORE, file) == if file.Some? then file.value else EMPTY
  {
  }

  lemma TwoUpserts(w: World<Timed, State>, u: Timed, batch: seq<Finding>)
    requires u.op == UpsertFindings(batch)
    requires |w.results| == 4 && forall i :: 0 <= i < 4 ==> w.results[i].tid == 0
    requires w.results[0].call == Some(u) && w.results[0].ret.Committed? && w.results[1].ret == ReadFailed
    requires w.results[2].call == Some(u) && w.results[2].ret.Committed? && w.results[3].ret == ReadFailed
    ensures OwnUpsert(w, 0, 1, batch) && OwnUpsert(w, 2, 3, batch)
    ensures ReadBack(w.results[1]) == None && ReadBack(w.results[3]) == None
  {
  }

  /** Two updates, each followed by a read that fails. */
  lemma FourCalls(u: Timed, s1: State, s2: State) returns (w: World<Timed, State>)
    requires Apply(u, EMPTY) == Some(s1) && Apply(u, s1) == Some(s2)
    ensures Reach(STORE, NOTHING_YET, w) && Init(NOTHING_YET)
    ensures w.results == [Result(0, 1, 0, 1, Some(u), Committed), Result(0, 2, 1, 1, None, ReadFailed),
                          Result(0, 3, 1, 2, Some(u), Committed), Result(0, 4, 2, 2, None, ReadFailed)]
  {
    NothingReaches();
    ContentOf(None);
    ContentOf(Some(s1));
    hide Apply, Reach, Free, Content;
    var w1 := Updating(NOTHING_YET, NOTHING_YET, u, s1);
    var w2 := Reading(NOTHING_YET, w1, ReadFailed);
    var w3 := Updating(NOTHING_YET, w2, u, s2);
    w := Reading(NOTHING_YET, w3, ReadFailed);
  }

  /** Two runs that find the same and cannot read back both report it. */
  lemma ReportedTwice(batch: seq<Finding>, fp: string) returns (b: seq<World<Timed, State>>)
    requires Count(batch, fp) > 0
    ensures Behavior(STORE, b)
    ensures var w := b[|b| - 1];
            && OwnUpsert(w, 0, 1, batch) && OwnUpsert(w, 2, 3, batch)
            && Reports(batch, ReadBack(w.results[1]), fp) && Reports(batch, ReadBack(w.results[3]), fp)
  {
    hide Apply, Reach, Reports, OwnUpsert, Init, ReadBack;
    var upsert := Timed(UpsertFindings(batch), 0);
    UpsertFromNothing(batch, EMPTY);
    var s1 := Apply(upsert, EMPTY).value;
    UpsertFromNothing(batch, s1);
    UnreadReportsAll(batch, fp);
    var w := FourCalls(upsert, s1, Apply(upsert, s1).value);
    TwoUpserts(w, upsert, batch);
    b := ReachIsBehavior(STORE, NOTHING_YET, w);
  }
}
