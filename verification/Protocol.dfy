/**
 The store's read-modify-write protocol (internal/store/store.go, internal/store/lock_posix.go)
 as a state machine: threads of several processes take the process mutex and the advisory file
 lock, read, apply a closure, write a temporary file and rename it. Any thread may step at any
 moment, and a whole process may crash between any two steps.
 */
module Protocol {
  import opened Strs

  /** What is stored: the document of a missing file, and the closures, which may fail. */
  datatype Spec<!U, !S> = Spec(empty: S, apply: (U, S) -> Option<S>)

  datatype Pc<U, S> =
    | Idle
    // Update
    | WantMutex(u: U)
    | WantLock(u: U)
    | Locked(u: U)
    | Holding(u: U, s: S)   // has read the document
    | Ready(u: U, s: S)     // the closure succeeded
    | Written(u: U, s: S)   // the temporary file is complete
    | Unlocking(ok: bool)
    | Unmutexing(ok: bool)
    // Read
    | WantShared
    | Shared
    | HoldingRead(got: Option<S>)
    | Dead

  /**
   `serial` numbers the thread's calls, `begun` is how much had been committed at the call, and
   `call` is the closure the caller passed, None for a read. No step but the call itself sets them.
   */
  datatype Thread<U, S> = Thread(proc: nat, serial: nat, begun: nat, call: Option<U>, pc: Pc<U, S>)

  datatype Entry<U> = Entry(tid: nat, serial: nat, u: U)

  datatype Return<S> = Committed | Failed | ReadOk(s: S) | ReadFailed

  datatype Result<U, S> = Result(tid: nat, serial: nat, begun: nat, ended: nat, call: Option<U>, ret: Return<S>)

  /** `log` and `results` only record what happened: renames in order, and returned calls. */
  datatype World<U, S> = World(
    file: Option<S>, temps: map<nat, S>, shared: set<nat>, exclusive: Option<nat>,
    mutexes: map<nat, nat>, threads: map<nat, Thread<U, S>>, log: seq<Entry<U>>, results: seq<Result<U, S>>)

  datatype Action<U> =
    | BeginUpdate(u: U) | TakeMutex | LockExclusive | LockFails | ReadState | ReadFails
    | RunClosure | WriteTemp | TempFails | Rename | RenameFails | Unlock | Unmutex
    | BeginRead | LockShared | LockSharedFails | ReadShared | ReadSharedFails | UnlockShared

  function Content<U, S>(sp: Spec<U, S>, file: Option<S>): S {
    if file.Some? then file.value else sp.empty
  }

  /** The document after the committed closures, in commit order. */
  function Fold<U, S>(sp: Spec<U, S>, log: seq<Entry<U>>): S {
    if log == [] then sp.empty
    else
      var before := Fold(sp, log[..|log| - 1]);
      match sp.apply(log[|log| - 1].u, before)
      case Some(s) => s
      case None => before
  }

  function Goto<U, S>(w: World<U, S>, t: nat, pc: Pc<U, S>): World<U, S>
    requires t in w.threads
  {
    w.(threads := w.threads[t := w.threads[t].(pc := pc)])
  }

  function Call<U, S>(w: World<U, S>, t: nat, call: Option<U>, pc: Pc<U, S>): World<U, S>
    requires t in w.threads
  {
    var th := w.threads[t];
    w.(threads := w.threads[t := th.(serial := th.serial + 1, begun := |w.log|, call := call, pc := pc)])
  }

  function Returned<U, S>(w: World<U, S>, t: nat, ret: Return<S>): World<U, S>
    requires t in w.threads
  {
    var th := w.threads[t];
    Goto(w, t, Idle).(results := w.results + [Result(t, th.serial, th.begun, |w.log|, th.call, ret)])
  }

  /** One step of thread `t`, if it can take it. */
  function Step<U, S>(sp: Spec<U, S>, w: World<U, S>, t: nat, a: Action<U>): Option<World<U, S>>
    requires t in w.threads
  {
    var th := w.threads[t];
    match (a, th.pc)
    case (BeginUpdate(u), Idle) => Some(Call(w, t, Some(u), WantMutex(u)))
    case (TakeMutex, WantMutex(u)) =>
      if th.proc in w.mutexes then None
      else Some(Goto(w, t, WantLock(u)).(mutexes := w.mutexes[th.proc := t]))
    case (LockExclusive, WantLock(u)) =>
      if w.exclusive.Some? || w.shared != {} then None
      else Some(Goto(w, t, Locked(u)).(exclusive := Some(t)))
    case (LockFails, WantLock(_)) => Some(Goto(w, t, Unmutexing(false)))
    case (ReadState, Locked(u)) => Some(Goto(w, t, Holding(u, Content(sp, w.file))))
    case (ReadFails, Locked(_)) => Some(Goto(w, t, Unlocking(false)))
    case (RunClosure, Holding(u, s)) =>
      (match sp.apply(u, s)
       case Some(s') => Some(Goto(w, t, Ready(u, s')))
       case None => Some(Goto(w, t, Unlocking(false))))
    case (WriteTemp, Ready(u, s)) => Some(Goto(w, t, Written(u, s)).(temps := w.temps[t := s]))
    case (TempFails, Ready(_, _)) => Some(Goto(w, t, Unlocking(false)).(temps := w.temps - {t}))
    case (Rename, Written(u, _)) =>
      if t !in w.temps then None
      else Some(Goto(w, t, Unlocking(true)).(
        file := Some(w.temps[t]), temps := w.temps - {t}, log := w.log + [Entry(t, th.serial, u)]))
    case (RenameFails, Written(_, _)) => Some(Goto(w, t, Unlocking(false)).(temps := w.temps - {t}))
    case (Unlock, Unlocking(ok)) => Some(Goto(w, t, Unmutexing(ok)).(exclusive := None))
    case (Unmutex, Unmutexing(ok)) =>
      Some(Returned(w, t, if ok then Committed else Failed).(mutexes := w.mutexes - {th.proc}))
    case (BeginRead, Idle) => Some(Call(w, t, None, WantShared))
    case (LockShared, WantShared) =>
      if w.exclusive.Some? then None else Some(Goto(w, t, Shared).(shared := w.shared + {t}))
    case (LockSharedFails, WantShared) => Some(Returned(w, t, ReadFailed))
    case (ReadShared, Shared) => Some(Goto(w, t, HoldingRead(Some(Content(sp, w.file)))))
    case (ReadSharedFails, Shared) => Some(Goto(w, t, HoldingRead(None)))
    case (UnlockShared, HoldingRead(got)) =>
      Some(Returned(w, t, if got.Some? then ReadOk(got.value) else ReadFailed).(shared := w.shared - {t}))
    case _ => None
  }

  /** The process dies: its threads stop and the system drops their locks; files stay. */
  function Crash<U, S>(w: World<U, S>, proc: nat): World<U, S> {
    var doomed := set t | t in w.threads && w.threads[t].proc == proc;
    w.(threads := map t | t in w.threads :: if t in doomed then w.threads[t].(pc := Dead) else w.threads[t],
       shared := w.shared - doomed,
       exclusive := if w.exclusive.Some? && w.exclusive.value in doomed then None else w.exclusive,
       mutexes := w.mutexes - {proc})
  }

  ghost predicate Next<U(!new), S>(sp: Spec<U, S>, w: World<U, S>, w': World<U, S>) {
    || (exists t, a :: t in w.threads && Step(sp, w, t, a) == Some(w'))
    || (exists proc :: w' == Crash(w, proc))
  }

  ghost predicate Init<U, S>(w: World<U, S>) {
    && w.file == None && w.temps == map[] && w.shared == {} && w.exclusive == None && w.mutexes == map[]
    && w.log == [] && w.results == []
    && forall t :: t in w.threads ==> w.threads[t].pc == Idle && w.threads[t].begun == 0
  }

  ghost predicate Behavior<U(!new), S>(sp: Spec<U, S>, b: seq<World<U, S>>) {
    && b != [] && Init(b[0])
    && forall i :: 0 <= i < |b| - 1 ==> Next(sp, b[i], b[i + 1])
  }

  // ----- the invariant

  predicate HoldsExclusive<U, S>(pc: Pc<U, S>) {
    pc.Locked? || pc.Holding? || pc.Ready? || pc.Written? || pc.Unlocking?
  }

  predicate HoldsShared<U, S>(pc: Pc<U, S>) {
    pc.Shared? || pc.HoldingRead?
  }

  predicate Resting<U, S>(pc: Pc<U, S>) {
    pc.Idle? || pc.Dead?
  }

  /** Call `serial` of thread `t` was committed at position `p`. */
  predicate At<U>(log: seq<Entry<U>>, p: int, t: nat, serial: nat) {
    0 <= p < |log| && log[p].tid == t && log[p].serial == serial
  }

  ghost predicate InLog<U>(log: seq<Entry<U>>, t: nat, serial: nat) {
    exists p :: At(log, p, t, serial)
  }

  ghost predicate InLogSince<U>(log: seq<Entry<U>>, begun: nat, t: nat, serial: nat) {
    exists p :: begun <= p && At(log, p, t, serial)
  }

  /** The advisory lock: one writer and nobody else, or any number of readers. */
  ghost predicate LockInv<U, S>(w: World<U, S>) {
    && (forall t :: w.exclusive == Some(t) <==> t in w.threads && HoldsExclusive(w.threads[t].pc))
    && (forall t :: t in w.shared <==> t in w.threads && HoldsShared(w.threads[t].pc))
    && (w.exclusive.Some? ==> w.shared == {})
  }

  ghost predicate FileInv<U, S>(sp: Spec<U, S>, w: World<U, S>) {
    && w.file == (if w.log == [] then None else Some(Fold(sp, w.log)))
    && (forall p :: 0 <= p < |w.log| ==>
          w.log[p].tid in w.threads && w.log[p].serial <= w.threads[w.log[p].tid].serial)
    && (forall p, q :: 0 <= p < q < |w.log| && w.log[p].tid == w.log[q].tid ==> w.log[p].serial < w.log[q].serial)
  }

  ghost predicate ThreadInv<U, S>(sp: Spec<U, S>, w: World<U, S>, t: nat, th: Thread<U, S>) {
    && th.begun <= |w.log|
    && match th.pc
       case Holding(u, s) => s == Content(sp, w.file) && !InLog(w.log, t, th.serial)
       case Ready(u, s) => sp.apply(u, Content(sp, w.file)) == Some(s) && !InLog(w.log, t, th.serial)
       case Written(u, s) =>
         && sp.apply(u, Content(sp, w.file)) == Some(s) && !InLog(w.log, t, th.serial)
         && t in w.temps && w.temps[t] == s
       case Unlocking(ok) => if ok then InLogSince(w.log, th.begun, t, th.serial) else !InLog(w.log, t, th.serial)
       case Unmutexing(ok) => if ok then InLogSince(w.log, th.begun, t, th.serial) else !InLog(w.log, t, th.serial)
       case HoldingRead(got) => got.Some? ==> got.value == Content(sp, w.file)
       case Idle => true
       case Dead => true
       case _ => !InLog(w.log, t, th.serial)
  }

  /** What a returned call promises its caller, whatever happened in between and since. */
  ghost predicate ResultInv<U, S>(sp: Spec<U, S>, log: seq<Entry<U>>, r: Result<U, S>) {
    && r.begun <= r.ended <= |log|
    && match r.ret
       case Committed => exists p :: r.begun <= p < r.ended && At(log, p, r.tid, r.serial)
       case Failed => !InLog(log, r.tid, r.serial)
       case ReadOk(s) => exists k :: r.begun <= k <= r.ended && s == Fold(sp, log[..k])
       case ReadFailed => true
  }

  /** Calls of one thread follow each other, and a recorded call is over. */
  ghost predicate OrderInv<U, S>(w: World<U, S>) {
    && (forall i :: 0 <= i < |w.results| ==>
          var r := w.results[i];
          && r.tid in w.threads
          && var th := w.threads[r.tid];
             && r.serial <= th.serial
             && (!Resting(th.pc) ==> r.serial < th.serial && r.ended <= th.begun))
    && (forall i, j :: 0 <= i < j < |w.results| && w.results[i].tid == w.results[j].tid
                       ==> w.results[i].ended <= w.results[j].begun)
  }

  ghost predicate Inv<U, S>(sp: Spec<U, S>, w: World<U, S>) {
    && LockInv(w) && FileInv(sp, w)
    && (forall t :: t in w.threads ==> ThreadInv(sp, w, t, w.threads[t]))
    && (forall i :: 0 <= i < |w.results| ==> ResultInv(sp, w.log, w.results[i]))
    && OrderInv(w)
  }

  lemma InitInv<U, S>(sp: Spec<U, S>, w: World<U, S>)
    requires Init(w)
    ensures Inv(sp, w)
  {
  }

  /** A step that moves one thread and commits nothing keeps everything said about the rest. */
  lemma LocalStep<U, S>(sp: Spec<U, S>, w: World<U, S>, w': World<U, S>, t: nat)
    requires Inv(sp, w) && t in w.threads && w'.threads.Keys == w.threads.Keys
    requires forall x :: x in w.threads && x != t ==> w'.threads[x] == w.threads[x]
    requires forall x :: x in w.temps && x != t ==> x in w'.temps && w'.temps[x] == w.temps[x]
    requires w'.file == w.file && w'.log == w.log && LockInv(w')
    requires ThreadInv(sp, w', t, w'.threads[t]) && w.threads[t].serial <= w'.threads[t].serial
    requires forall i :: 0 <= i < |w'.results| ==> ResultInv(sp, w'.log, w'.results[i])
    requires OrderInv(w')
    ensures Inv(sp, w')
  {
    forall x | x in w'.threads ensures ThreadInv(sp, w', x, w'.threads[x]) {
      if x != t { assert ThreadInv(sp, w, x, w.threads[x]); }
    }
  }

  /** Moving to a new program point with the same call number. */
  lemma GotoOrder<U, S>(w: World<U, S>, w': World<U, S>, t: nat, pc: Pc<U, S>)
    requires t in w.threads && OrderInv(w)
    requires w'.threads == Goto(w, t, pc).threads && w'.results == w.results
    requires !Resting(w.threads[t].pc)
    ensures OrderInv(w')
  {
  }

  lemma NewCall<U, S>(sp: Spec<U, S>, w: World<U, S>, t: nat, call: Option<U>, pc: Pc<U, S>)
    requires Inv(sp, w) && t in w.threads && w.threads[t].pc.Idle?
    requires pc.WantMutex? || pc.WantShared?
    ensures Inv(sp, Call(w, t, call, pc))
  {
    hide Fold, InLogSince;
    var w' := Call(w, t, call, pc);
    assert !InLog(w.log, t, w.threads[t].serial + 1) by {
      assert forall p :: 0 <= p < |w.log| && w.log[p].tid == t ==> w.log[p].serial <= w.threads[t].serial;
    }
    LocalStep(sp, w, w', t);
  }

  /** Returning records a call whose promise holds. */
  lemma ReturnInv<U, S>(sp: Spec<U, S>, w: World<U, S>, w': World<U, S>, t: nat, ret: Return<S>)
    requires Inv(sp, w) && t in w.threads && !Resting(w.threads[t].pc)
    requires w' == Returned(w, t, ret).(shared := w'.shared, mutexes := w'.mutexes) && LockInv(w')
    requires ResultInv(sp, w.log, Result(t, w.threads[t].serial, w.threads[t].begun, |w.log|, w.threads[t].call, ret))
    ensures Inv(sp, w')
  {
    hide Fold, InLog, InLogSince, FileInv;
    LocalStep(sp, w, w', t);
  }

  lemma RenameFile<U, S>(sp: Spec<U, S>, w: World<U, S>, t: nat)
    requires FileInv(sp, w) && t in w.threads && w.threads[t].pc.Written?
    requires ThreadInv(sp, w, t, w.threads[t])
    ensures Step(sp, w, t, Rename).Some?
    ensures var w' := Step(sp, w, t, Rename).value;
            && FileInv(sp, w')
            && w'.log == w.log + [Entry(t, w.threads[t].serial, w.threads[t].pc.u)]
            && w'.threads.Keys == w.threads.Keys && w'.results == w.results
  {
    var th := w.threads[t];
    var w' := Step(sp, w, t, Rename).value;
    var e := Entry(t, th.serial, th.pc.u);
    assert w'.log == w.log + [e] && w'.log[..|w.log|] == w.log;
    assert Fold(sp, w.log) == Content(sp, w.file);
    assert Fold(sp, w'.log) == th.pc.s;
    hide Fold, Content;
    forall p | 0 <= p < |w.log| && w.log[p].tid == t ensures w.log[p].serial < th.serial {
      assert !At(w.log, p, t, th.serial);
    }
  }

  /** The commit is in the log of the thread that made it; a thread that neither reads nor writes notices nothing. */
  lemma RenameThread<U, S>(sp: Spec<U, S>, w: World<U, S>, t: nat, x: nat)
    requires t in w.threads && w.threads[t].pc.Written? && LockInv(w) && Step(sp, w, t, Rename).Some?
    requires x in w.threads && ThreadInv(sp, w, x, w.threads[x])
    ensures var w' := Step(sp, w, t, Rename).value; ThreadInv(sp, w', x, w'.threads[x])
  {
    hide Fold;
    var th, w' := w.threads[t], Step(sp, w, t, Rename).value;
    var e := Entry(t, th.serial, th.pc.u);
    if x == t {
      assert th.begun <= |w.log| && At(w'.log, |w.log|, t, th.serial);
    } else {
      assert HoldsExclusive(th.pc);
      assert !HoldsExclusive(w.threads[x].pc) && !HoldsShared(w.threads[x].pc);
      LogGrows(w.log, e, x, w.threads[x].serial);
      SinceGrows(w.log, e, w.threads[x].begun, x, w.threads[x].serial);
    }
  }

  lemma RenameOrder<U, S>(sp: Spec<U, S>, w: World<U, S>, t: nat)
    requires t in w.threads && w.threads[t].pc.Written? && Step(sp, w, t, Rename).Some?
    requires LockInv(w) && OrderInv(w)
    ensures LockInv(Step(sp, w, t, Rename).value) && OrderInv(Step(sp, w, t, Rename).value)
  {
    var w' := Step(sp, w, t, Rename).value;
    SameLocks(w, w', t);
    GotoOrder(w, w', t, w'.threads[t].pc);
  }

  lemma RenameInv<U, S>(sp: Spec<U, S>, w: World<U, S>, t: nat)
    requires Inv(sp, w) && t in w.threads && w.threads[t].pc.Written?
    ensures Step(sp, w, t, Rename).Some? && Inv(sp, Step(sp, w, t, Rename).value)
  {
    hide ThreadInv, FileInv, LockInv, OrderInv, ResultInv, Step;
    var th := w.threads[t];
    assert ThreadInv(sp, w, t, th);
    RenameFile(sp, w, t);
    RenameOrder(sp, w, t);
    RenameResults(sp, w, t, Entry(t, th.serial, th.pc.u));
    var w' := Step(sp, w, t, Rename).value;
    forall x | x in w'.threads ensures ThreadInv(sp, w', x, w'.threads[x]) {
      RenameThread(sp, w, t, x);
    }
  }

  /** The promises already made outlive a commit of a call that is still running. */
  lemma RenameResults<U, S>(sp: Spec<U, S>, w: World<U, S>, t: nat, e: Entry<U>)
    requires Inv(sp, w) && t in w.threads && w.threads[t].pc.Written?
    requires e.tid == t && e.serial == w.threads[t].serial
    ensures forall i :: 0 <= i < |w.results| ==> ResultInv(sp, w.log + [e], w.results[i])
  {
    hide ResultInv, LockInv, FileInv, ThreadInv;
    forall i | 0 <= i < |w.results| ensures ResultInv(sp, w.log + [e], w.results[i]) {
      var r := w.results[i];
      assert r.tid == t ==> r.serial < w.threads[t].serial;
      ResultGrows(sp, w.log, e, r);
    }
  }

  lemma LogGrows<U>(log: seq<Entry<U>>, e: Entry<U>, t: nat, n: nat)
    ensures InLog(log + [e], t, n) <==> InLog(log, t, n) || (e.tid == t && e.serial == n)
  {
    if InLog(log + [e], t, n) {
      var p :| At(log + [e], p, t, n);
      assert p < |log| ==> At(log, p, t, n);
    }
    if InLog(log, t, n) {
      var p :| At(log, p, t, n);
      assert At(log + [e], p, t, n);
    }
    if e.tid == t && e.serial == n {
      assert At(log + [e], |log|, t, n);
    }
  }

  lemma SinceGrows<U>(log: seq<Entry<U>>, e: Entry<U>, begun: nat, t: nat, n: nat)
    ensures InLogSince(log, begun, t, n) ==> InLogSince(log + [e], begun, t, n)
  {
    if InLogSince(log, begun, t, n) {
      var p :| begun <= p && At(log, p, t, n);
      assert At(log + [e], p, t, n);
    }
  }

  /** A later commit breaks no promise already made. */
  lemma ResultGrows<U, S>(sp: Spec<U, S>, log: seq<Entry<U>>, e: Entry<U>, r: Result<U, S>)
    requires ResultInv(sp, log, r) && (e.tid != r.tid || e.serial != r.serial)
    ensures ResultInv(sp, log + [e], r)
  {
    match r.ret {
      case Committed =>
        var p :| r.begun <= p < r.ended && At(log, p, r.tid, r.serial);
        assert At(log + [e], p, r.tid, r.serial);
      case Failed => LogGrows(log, e, r.tid, r.serial);
      case ReadOk(s) =>
        var k :| r.begun <= k <= r.ended && s == Fold(sp, log[..k]);
        assert (log + [e])[..k] == log[..k];
      case ReadFailed =>
    }
  }

  /** A step inside a call: one thread moves on, taking or dropping locks and its own file. */
  lemma MoveInv<U, S>(sp: Spec<U, S>, w: World<U, S>, w': World<U, S>, t: nat, pc: Pc<U, S>)
    requires Inv(sp, w) && t in w.threads && !Resting(w.threads[t].pc)
    requires w' == Goto(w, t, pc).(temps := w'.temps, shared := w'.shared, exclusive := w'.exclusive,
                                   mutexes := w'.mutexes)
    requires forall x :: x in w.temps && x != t ==> x in w'.temps && w'.temps[x] == w.temps[x]
    requires LockInv(w') && ThreadInv(sp, w', t, w'.threads[t])
    ensures Inv(sp, w')
  {
    GotoOrder(w, w', t, pc);
    LocalStep(sp, w, w', t);
  }

  predicate LockAction<U>(a: Action<U>) {
    a.LockExclusive? || a.LockFails? || a.Unlock? || a.LockShared? || a.TakeMutex?
  }

  predicate WorkAction<U>(a: Action<U>) {
    || a.ReadState? || a.ReadFails? || a.RunClosure? || a.WriteTemp? || a.TempFails? || a.RenameFails?
    || a.ReadShared? || a.ReadSharedFails?
  }

  lemma LockStepLocks<U, S>(sp: Spec<U, S>, w: World<U, S>, t: nat, a: Action<U>)
    requires LockInv(w) && t in w.threads && LockAction(a) && Step(sp, w, t, a).Some?
    ensures LockInv(Step(sp, w, t, a).value)
  {
    hide ThreadInv;
    var w' := Step(sp, w, t, a).value;
    var pc, pc' := w.threads[t].pc, w'.threads[t].pc;
    assert w'.threads == w.threads[t := w'.threads[t]];
    if a.LockExclusive? {
      assert HoldsExclusive(pc') && !HoldsShared(pc');
    } else if a.Unlock? {
      assert HoldsExclusive(pc) && !HoldsExclusive(pc') && !HoldsShared(pc');
    } else if a.LockShared? {
      assert HoldsShared(pc') && !HoldsExclusive(pc');
    } else {
      SameLocks(w, w', t);
    }
  }

  lemma LockStepThread<U, S>(sp: Spec<U, S>, w: World<U, S>, t: nat, a: Action<U>)
    requires t in w.threads && LockAction(a) && Step(sp, w, t, a).Some?
    requires ThreadInv(sp, w, t, w.threads[t])
    ensures var w' := Step(sp, w, t, a).value;
            && !Resting(w.threads[t].pc)
            && w' == Goto(w, t, w'.threads[t].pc).(shared := w'.shared, exclusive := w'.exclusive,
                                                    mutexes := w'.mutexes)
            && ThreadInv(sp, w', t, w'.threads[t])
  {
  }

  lemma LockStepInv<U, S>(sp: Spec<U, S>, w: World<U, S>, t: nat, a: Action<U>)
    requires Inv(sp, w) && t in w.threads && LockAction(a) && Step(sp, w, t, a).Some?
    ensures Inv(sp, Step(sp, w, t, a).value)
  {
    var w' := Step(sp, w, t, a).value;
    assert ThreadInv(sp, w, t, w.threads[t]) && LockInv(w);
    hide Step, Inv, ThreadInv, LockInv, Resting;
    LockStepLocks(sp, w, t, a);
    LockStepThread(sp, w, t, a);
    MoveInv(sp, w, w', t, w'.threads[t].pc);
  }

  lemma WorkStepThread<U, S>(sp: Spec<U, S>, w: World<U, S>, t: nat, a: Action<U>)
    requires t in w.threads && WorkAction(a) && Step(sp, w, t, a).Some?
    requires ThreadInv(sp, w, t, w.threads[t])
    ensures var w' := Step(sp, w, t, a).value;
            var pc, pc' := w.threads[t].pc, w'.threads[t].pc;
            && !Resting(pc)
            && w' == Goto(w, t, pc').(temps := w'.temps)
            && (forall x :: x in w.temps && x != t ==> x in w'.temps && w'.temps[x] == w.temps[x])
            && HoldsExclusive(pc) == HoldsExclusive(pc') && HoldsShared(pc) == HoldsShared(pc')
            && ThreadInv(sp, w', t, w'.threads[t])
  {
    hide InLog, InLogSince, Fold;
  }

  /** Locks do not notice a move between two points that hold the same ones. */
  lemma SameLocks<U, S>(w: World<U, S>, w': World<U, S>, t: nat)
    requires LockInv(w) && t in w.threads && t in w'.threads && w'.threads == w.threads[t := w'.threads[t]]
    requires w'.exclusive == w.exclusive && w'.shared == w.shared
    requires HoldsExclusive(w.threads[t].pc) == HoldsExclusive(w'.threads[t].pc)
    requires HoldsShared(w.threads[t].pc) == HoldsShared(w'.threads[t].pc)
    ensures LockInv(w')
  {
  }

  lemma WorkStepInv<U, S>(sp: Spec<U, S>, w: World<U, S>, t: nat, a: Action<U>)
    requires Inv(sp, w) && t in w.threads && WorkAction(a) && Step(sp, w, t, a).Some?
    ensures Inv(sp, Step(sp, w, t, a).value)
  {
    var w' := Step(sp, w, t, a).value;
    assert ThreadInv(sp, w, t, w.threads[t]) && LockInv(w);
    hide Step, Inv, ThreadInv, LockInv, HoldsExclusive, HoldsShared, Resting;
    WorkStepThread(sp, w, t, a);
    SameLocks(w, w', t);
    MoveInv(sp, w, w', t, w'.threads[t].pc);
  }

  lemma UnmutexInv<U, S>(sp: Spec<U, S>, w: World<U, S>, t: nat)
    requires Inv(sp, w) && t in w.threads && w.threads[t].pc.Unmutexing?
    ensures Inv(sp, Step(sp, w, t, Unmutex).value)
  {
    var th, w' := w.threads[t], Step(sp, w, t, Unmutex).value;
    assert ThreadInv(sp, w, t, th) && LockInv(w);
    SameLocks(w, w', t);
    hide Fold, FileInv, OrderInv, LockInv, Inv;
    var ret := if th.pc.ok then Committed else Failed;
    assert ResultInv(sp, w.log, Result(t, th.serial, th.begun, |w.log|, th.call, ret)) by {
      if th.pc.ok {
        var p :| th.begun <= p && At(w.log, p, t, th.serial);
      }
    }
    hide ThreadInv, ResultInv;
    ReturnInv(sp, w, w', t, ret);
  }

  lemma UnlockSharedInv<U, S>(sp: Spec<U, S>, w: World<U, S>, t: nat)
    requires Inv(sp, w) && t in w.threads && w.threads[t].pc.HoldingRead?
    ensures Inv(sp, Step(sp, w, t, UnlockShared).value)
  {
    hide OrderInv;
    var th := w.threads[t];
    assert ThreadInv(sp, w, t, th) && w.log[..|w.log|] == w.log;
    ReturnInv(sp, w, Step(sp, w, t, UnlockShared).value, t,
              if th.pc.got.Some? then ReadOk(th.pc.got.value) else ReadFailed);
  }

  lemma StepInv<U, S>(sp: Spec<U, S>, w: World<U, S>, t: nat, a: Action<U>)
    requires Inv(sp, w) && t in w.threads && Step(sp, w, t, a).Some?
    ensures Inv(sp, Step(sp, w, t, a).value)
  {
    if LockAction(a) {
      LockStepInv(sp, w, t, a);
    } else if WorkAction(a) {
      WorkStepInv(sp, w, t, a);
    } else {
      match a {
        case BeginUpdate(u) => NewCall(sp, w, t, Some(u), WantMutex(u));
        case BeginRead => NewCall(sp, w, t, None, WantShared);
        case Rename => RenameInv(sp, w, t);
        case Unmutex => UnmutexInv(sp, w, t);
        case UnlockShared => UnlockSharedInv(sp, w, t);
        case LockSharedFails =>
          assert ThreadInv(sp, w, t, w.threads[t]);
          ReturnInv(sp, w, Step(sp, w, t, a).value, t, ReadFailed);
      }
    }
  }

  /** Commits and returned calls are only ever added. */
  lemma StepGrows<U, S>(sp: Spec<U, S>, w: World<U, S>, t: nat, a: Action<U>)
    requires t in w.threads && Step(sp, w, t, a).Some?
    ensures w.log <= Step(sp, w, t, a).value.log && w.results <= Step(sp, w, t, a).value.results
  {
  }

  lemma CrashInv<U, S>(sp: Spec<U, S>, w: World<U, S>, proc: nat)
    requires Inv(sp, w)
    ensures Inv(sp, Crash(w, proc))
  {
    hide Fold, InLog, InLogSince;
    var w' := Crash(w, proc);
    forall t | t in w'.threads ensures ThreadInv(sp, w', t, w'.threads[t]) {
      assert ThreadInv(sp, w, t, w.threads[t]);
    }
  }

  lemma NextInv<U(!new), S>(sp: Spec<U, S>, w: World<U, S>, w': World<U, S>)
    requires Inv(sp, w) && Next(sp, w, w')
    ensures Inv(sp, w') && w.log <= w'.log && w.results <= w'.results
  {
    if t, a :| t in w.threads && Step(sp, w, t, a) == Some(w') {
      StepInv(sp, w, t, a);
      StepGrows(sp, w, t, a);
    } else {
      var proc :| w' == Crash(w, proc);
      CrashInv(sp, w, proc);
    }
  }

  /** Every committed closure succeeded on what the commits before it had made. */
  ghost predicate AllSucceeded<U, S>(sp: Spec<U, S>, log: seq<Entry<U>>) {
    forall p :: 0 <= p < |log| ==> sp.apply(log[p].u, Fold(sp, log[..p])).Some?
  }

  lemma CommitSucceeded<U, S>(sp: Spec<U, S>, log: seq<Entry<U>>, e: Entry<U>)
    requires AllSucceeded(sp, log) && sp.apply(e.u, Fold(sp, log)).Some?
    ensures AllSucceeded(sp, log + [e])
  {
    forall p | 0 <= p < |log + [e]| ensures sp.apply((log + [e])[p].u, Fold(sp, (log + [e])[..p])).Some? {
      assert (log + [e])[..p] == log[..p];
      assert log[..|log|] == log;
    }
  }

  lemma NextSucceeded<U(!new), S>(sp: Spec<U, S>, w: World<U, S>, w': World<U, S>)
    requires Inv(sp, w) && Next(sp, w, w') && AllSucceeded(sp, w.log)
    ensures AllSucceeded(sp, w'.log)
  {
    if t, a :| t in w.threads && Step(sp, w, t, a) == Some(w') {
      StepSucceeded(sp, w, t, a);
    }
  }

  lemma StepSucceeded<U, S>(sp: Spec<U, S>, w: World<U, S>, t: nat, a: Action<U>)
    requires Inv(sp, w) && t in w.threads && Step(sp, w, t, a).Some? && AllSucceeded(sp, w.log)
    ensures AllSucceeded(sp, Step(sp, w, t, a).value.log)
  {
    if a.Rename? {
      var th := w.threads[t];
      assert ThreadInv(sp, w, t, th);
      CommitSucceeded(sp, w.log, Entry(t, th.serial, th.pc.u));
    } else {
      QuietStep(sp, w, t, a);
    }
  }

  lemma QuietStep<U, S>(sp: Spec<U, S>, w: World<U, S>, t: nat, a: Action<U>)
    requires t in w.threads && Step(sp, w, t, a).Some? && !a.Rename?
    ensures Step(sp, w, t, a).value.log == w.log
  {
  }

  // ----- what is committed is what the caller passed

  /** The closure an update in progress carries along. */
  function Carried<U, S>(pc: Pc<U, S>): Option<U> {
    match pc
    case WantMutex(u) => Some(u)
    case WantLock(u) => Some(u)
    case Locked(u) => Some(u)
    case Holding(u, _) => Some(u)
    case Ready(u, _) => Some(u)
    case Written(u, _) => Some(u)
    case _ => None
  }

  /** Whatever call `serial` of thread `t` committed is what its caller passed. */
  ghost predicate Own<U(!new)>(log: seq<Entry<U>>, t: nat, serial: nat, call: Option<U>) {
    forall p :: At(log, p, t, serial) ==> call == Some(log[p].u)
  }

  ghost predicate CallInv<U(!new), S>(w: World<U, S>) {
    && (forall t :: t in w.threads ==>
          var th := w.threads[t];
          && (Carried(th.pc).Some? ==> th.call == Carried(th.pc))
          && Own(w.log, t, th.serial, th.call))
    && (forall i :: 0 <= i < |w.results| ==>
          Own(w.log, w.results[i].tid, w.results[i].serial, w.results[i].call))
  }

  lemma OwnGrows<U(!new)>(log: seq<Entry<U>>, e: Entry<U>, t: nat, n: nat, call: Option<U>)
    requires Own(log, t, n, call) && (e.tid == t && e.serial == n ==> call == Some(e.u))
    ensures Own(log + [e], t, n, call)
  {
    forall p | At(log + [e], p, t, n) ensures call == Some((log + [e])[p].u) {
      assert p < |log| ==> At(log, p, t, n);
    }
  }

  /** The new call number has nothing in the log. */
  lemma BeginCalls<U(!new), S>(sp: Spec<U, S>, w: World<U, S>, t: nat, call: Option<U>, pc: Pc<U, S>)
    requires FileInv(sp, w) && CallInv(w) && t in w.threads
    requires Carried(pc).Some? ==> call == Carried(pc)
    ensures CallInv(Call(w, t, call, pc))
  {
    assert forall p :: 0 <= p < |w.log| && w.log[p].tid == t ==> w.log[p].serial <= w.threads[t].serial;
    assert Own(w.log, t, w.threads[t].serial + 1, call);
    hide Own, Fold, FileInv;
  }

  lemma RenameCalls<U(!new), S>(sp: Spec<U, S>, w: World<U, S>, t: nat)
    requires OrderInv(w) && CallInv(w) && t in w.threads && w.threads[t].pc.Written?
    requires Step(sp, w, t, Rename).Some?
    ensures CallInv(Step(sp, w, t, Rename).value)
  {
    hide Fold, Own;
    var w' := Step(sp, w, t, Rename).value;
    var e := Entry(t, w.threads[t].serial, w.threads[t].pc.u);
    forall x | x in w'.threads ensures Own(w'.log, x, w'.threads[x].serial, w'.threads[x].call) {
      OwnGrows(w.log, e, x, w.threads[x].serial, w.threads[x].call);
    }
    forall i | 0 <= i < |w'.results|
      ensures Own(w'.log, w'.results[i].tid, w'.results[i].serial, w'.results[i].call) {
      var r := w.results[i];
      OwnGrows(w.log, e, r.tid, r.serial, r.call);
    }
  }

  /** Between the call and the rename the closure is handed on as it is. */
  lemma HandedOn<U, S>(sp: Spec<U, S>, w: World<U, S>, t: nat, a: Action<U>)
    requires t in w.threads && Step(sp, w, t, a).Some? && !a.BeginUpdate? && !a.BeginRead?
    ensures var th, th' := w.threads[t], Step(sp, w, t, a).value.threads[t];
            && th'.call == th.call && th'.serial == th.serial
            && (Carried(th'.pc).Some? ==> Carried(th'.pc) == Carried(th.pc))
    ensures var w' := Step(sp, w, t, a).value;
            && w'.threads == w.threads[t := w'.threads[t]]
            && (w'.results == w.results
                || exists r :: w'.results == w.results + [r]
                               && (r.tid, r.serial, r.call) == (t, w.threads[t].serial, w.threads[t].call))
  {
    hide Fold;
    var th, w' := w.threads[t], Step(sp, w, t, a).value;
    if w'.results != w.results {
      var r := w'.results[|w.results|];
      assert w'.results == w.results + [r];
    }
  }

  lemma StepCalls<U(!new), S>(sp: Spec<U, S>, w: World<U, S>, t: nat, a: Action<U>)
    requires FileInv(sp, w) && OrderInv(w) && CallInv(w) && t in w.threads && Step(sp, w, t, a).Some?
    ensures CallInv(Step(sp, w, t, a).value)
  {
    match a {
      case BeginUpdate(u) => BeginCalls(sp, w, t, Some(u), WantMutex(u));
      case BeginRead => BeginCalls(sp, w, t, None, WantShared);
      case Rename => RenameCalls(sp, w, t);
      case _ =>
        HandedOn(sp, w, t, a);
        QuietStep(sp, w, t, a);
        hide FileInv, OrderInv, Step, Carried, Own;
    }
  }

  lemma NextCalls<U(!new), S>(sp: Spec<U, S>, w: World<U, S>, w': World<U, S>)
    requires Inv(sp, w) && CallInv(w) && Next(sp, w, w')
    ensures CallInv(w')
  {
    hide FileInv, OrderInv, LockInv, ThreadInv, ResultInv, Own;
    if t, a :| t in w.threads && Step(sp, w, t, a) == Some(w') {
      StepCalls(sp, w, t, a);
    }
  }

  // ----- whole behaviors

  lemma {:induction false} BehaviorInv<U(!new), S>(sp: Spec<U, S>, b: seq<World<U, S>>, i: nat, j: nat)
    requires Behavior(sp, b) && i <= j < |b|
    ensures Inv(sp, b[j]) && b[i].log <= b[j].log && b[i].results <= b[j].results
    ensures AllSucceeded(sp, b[j].log) && CallInv(b[j])
    decreases j
  {
    if j == 0 {
      InitInv(sp, b[0]);
    } else {
      BehaviorInv(sp, b, if i < j then i else j - 1, j - 1);
      assert Next(sp, b[j - 1], b[j - 1 + 1]);
      NextInv(sp, b[j - 1], b[j]);
      NextSucceeded(sp, b[j - 1], b[j]);
      NextCalls(sp, b[j - 1], b[j]);
    }
  }

  /**
   At every moment of every interleaving, crashes included, the file holds exactly the committed
   closures applied in rename order, each of which succeeded; and no commit is ever lost.
   */
  lemma FileIsCommits<U(!new), S>(sp: Spec<U, S>, b: seq<World<U, S>>, i: nat, j: nat)
    requires Behavior(sp, b) && i <= j < |b|
    ensures Content(sp, b[j].file) == Fold(sp, b[j].log)
    ensures AllSucceeded(sp, b[j].log)
    ensures b[i].log <= b[j].log
  {
    BehaviorInv(sp, b, i, j);
  }

  /** An update reported as done was committed exactly once, during the call: the closure that was passed. */
  lemma SuccessMeansCommitted<U(!new), S>(sp: Spec<U, S>, b: seq<World<U, S>>, j: nat, i: nat) returns (p: nat)
    requires Behavior(sp, b) && j < |b| && i < |b[j].results| && b[j].results[i].ret.Committed?
    ensures var r := b[j].results[i];
            && r.begun <= p < r.ended && At(b[j].log, p, r.tid, r.serial)
            && r.call == Some(b[j].log[p].u)
            && forall q :: At(b[j].log, q, r.tid, r.serial) ==> q == p
  {
    BehaviorInv(sp, b, j, j);
    var r := b[j].results[i];
    assert ResultInv(sp, b[j].log, r);
    p :| r.begun <= p < r.ended && At(b[j].log, p, r.tid, r.serial);
    assert Own(b[j].log, r.tid, r.serial, r.call);
  }

  /** A commit belongs to the call of its number, and is what that call's caller passed. */
  lemma CommitOfCall<U(!new), S>(sp: Spec<U, S>, b: seq<World<U, S>>, j: nat, t: nat, n: nat, p: nat)
    requires Behavior(sp, b) && j < |b| && At(b[j].log, p, t, n)
    ensures t in b[j].threads && n <= b[j].threads[t].serial
    ensures n == b[j].threads[t].serial ==> b[j].threads[t].call == Some(b[j].log[p].u)
    ensures forall i :: 0 <= i < |b[j].results| && b[j].results[i].tid == t && b[j].results[i].serial == n ==>
              b[j].results[i].call == Some(b[j].log[p].u)
  {
    BehaviorInv(sp, b, j, j);
    hide LockInv, ThreadInv, ResultInv, OrderInv, Fold, Behavior;
    var w := b[j];
    assert Own(w.log, t, w.threads[t].serial, w.threads[t].call);
    forall i | 0 <= i < |w.results| && w.results[i].tid == t && w.results[i].serial == n
      ensures w.results[i].call == Some(w.log[p].u) {
      assert Own(w.log, w.results[i].tid, w.results[i].serial, w.results[i].call);
    }
  }

  /** One thread's commits follow the order of its calls. */
  lemma CommitsInCallOrder<U(!new), S>(sp: Spec<U, S>, b: seq<World<U, S>>, j: nat, t: nat, p: nat, q: nat, m: nat, n: nat)
    requires Behavior(sp, b) && j < |b| && At(b[j].log, p, t, m) && At(b[j].log, q, t, n)
    ensures m < n <==> p < q
  {
    BehaviorInv(sp, b, j, j);
  }

  /** An update reported as failed was not committed, then or ever after. */
  lemma FailureMeansUntouched<U(!new), S>(sp: Spec<U, S>, b: seq<World<U, S>>, j: nat, k: nat, i: nat)
    requires Behavior(sp, b) && j <= k < |b| && i < |b[j].results| && b[j].results[i].ret.Failed?
    ensures !InLog(b[k].log, b[j].results[i].tid, b[j].results[i].serial)
  {
    BehaviorInv(sp, b, j, k);
    assert b[k].results[i] == b[j].results[i];
    assert ResultInv(sp, b[k].log, b[k].results[i]);
  }

  /** A read returns what some prefix of the commits made, and none committed before the call is missing. */
  lemma ReadIsPrefix<U(!new), S>(sp: Spec<U, S>, b: seq<World<U, S>>, j: nat, i: nat) returns (k: nat)
    requires Behavior(sp, b) && j < |b| && i < |b[j].results| && b[j].results[i].ret.ReadOk?
    ensures var r := b[j].results[i];
            r.begun <= k <= r.ended && k <= |b[j].log| && r.ret.s == Fold(sp, b[j].log[..k])
  {
    BehaviorInv(sp, b, j, j);
    var r := b[j].results[i];
    assert ResultInv(sp, b[j].log, r);
    k :| r.begun <= k <= r.ended && r.ret.s == Fold(sp, b[j].log[..k]);
  }

  /** A thread's read after its own successful update sees that update. */
  lemma ReadsOwnWrites<U(!new), S>(sp: Spec<U, S>, b: seq<World<U, S>>, j: nat, wrote: nat, read: nat)
    returns (p: nat, k: nat)
    requires Behavior(sp, b) && j < |b| && wrote < read < |b[j].results|
    requires b[j].results[wrote].tid == b[j].results[read].tid
    requires b[j].results[wrote].ret.Committed? && b[j].results[read].ret.ReadOk?
    ensures p < k <= |b[j].log| && At(b[j].log, p, b[j].results[wrote].tid, b[j].results[wrote].serial)
    ensures b[j].results[wrote].call == Some(b[j].log[p].u)
    ensures b[j].results[read].ret.s == Fold(sp, b[j].log[..k])
  {
    BehaviorInv(sp, b, j, j);
    p := SuccessMeansCommitted(sp, b, j, wrote);
    k := ReadIsPrefix(sp, b, j, read);
  }
}
