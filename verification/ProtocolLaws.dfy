/**
 What else every step of the store's protocol keeps (internal/store/store.go): the mutex of each
 process, the temporary files, and when a thread has to wait.
 */
module ProtocolLaws {
  import opened Strs
  import opened Protocol

  /** The thread is inside an update, from taking its process's mutex to giving it back. */
  predicate InUpdate<U, S>(pc: Pc<U, S>) {
    || pc.WantLock? || pc.Locked? || pc.Holding? || pc.Ready? || pc.Written? || pc.Unlocking? || pc.Unmutexing?
  }

  /** The mutex of a process is held by the one of its threads that is inside an update, if there is one. */
  ghost predicate MutexInv<U, S>(w: World<U, S>) {
    forall proc, t :: (proc in w.mutexes && w.mutexes[proc] == t)
                 <==> (t in w.threads && w.threads[t].proc == proc && InUpdate(w.threads[t].pc))
  }

  /** A temporary file belongs to a thread that is about to rename it, or that died. */
  ghost predicate TempInv<U, S>(w: World<U, S>) {
    forall t :: t in w.temps ==> t in w.threads && (w.threads[t].pc.Written? || w.threads[t].pc.Dead?)
  }

  /** One thread moves on, without entering or leaving an update. */
  lemma {:induction false} SameMutex<U, S>(w: World<U, S>, w': World<U, S>, t: nat)
    requires MutexInv(w) && t in w.threads && t in w'.threads && w'.threads == w.threads[t := w'.threads[t]]
    requires w'.mutexes == w.mutexes && w'.threads[t].proc == w.threads[t].proc
    requires InUpdate(w.threads[t].pc) == InUpdate(w'.threads[t].pc)
    ensures MutexInv(w')
  {
  }

  lemma {:induction false} StepMoves<U, S>(sp: Spec<U, S>, w: World<U, S>, t: nat, a: Action<U>)
    requires t in w.threads && Step(sp, w, t, a).Some?
    ensures var w' := Step(sp, w, t, a).value;
            && t in w'.threads && w'.threads == w.threads[t := w'.threads[t]]
            && w'.threads[t].proc == w.threads[t].proc
            && (!a.TakeMutex? && !a.Unmutex? ==>
                  w'.mutexes == w.mutexes && InUpdate(w.threads[t].pc) == InUpdate(w'.threads[t].pc))
  {
  }

  lemma {:induction false} StepKeepsMutex<U, S>(sp: Spec<U, S>, w: World<U, S>, t: nat, a: Action<U>)
    requires MutexInv(w) && t in w.threads && Step(sp, w, t, a).Some?
    ensures MutexInv(Step(sp, w, t, a).value)
  {
    StepMoves(sp, w, t, a);
    var w' := Step(sp, w, t, a).value;
    if a.TakeMutex? || a.Unmutex? {
      MutexStep(sp, w, t, a);
    } else {
      hide Step;
      SameMutex(w, w', t);
    }
  }

  lemma {:induction false} TakesMutex<U, S>(w: World<U, S>, w': World<U, S>, t: nat)
    requires MutexInv(w) && t in w.threads && w.threads[t].proc !in w.mutexes
    requires t in w'.threads && w'.threads == w.threads[t := w'.threads[t]] && w'.threads[t].proc == w.threads[t].proc
    requires w'.mutexes == w.mutexes[w.threads[t].proc := t] && InUpdate(w'.threads[t].pc)
    ensures MutexInv(w')
  {
    hide InUpdate;
    forall proc, x ensures (proc in w'.mutexes && w'.mutexes[proc] == x)
                      <==> (x in w'.threads && w'.threads[x].proc == proc && InUpdate(w'.threads[x].pc))
    {
      assert (proc in w.mutexes && w.mutexes[proc] == x)
        <==> (x in w.threads && w.threads[x].proc == proc && InUpdate(w.threads[x].pc));
    }
  }

  lemma {:induction false} DropsMutex<U, S>(w: World<U, S>, w': World<U, S>, t: nat)
    requires MutexInv(w) && t in w.threads && InUpdate(w.threads[t].pc)
    requires t in w'.threads && w'.threads == w.threads[t := w'.threads[t]] && w'.threads[t].proc == w.threads[t].proc
    requires w'.mutexes == w.mutexes - {w.threads[t].proc} && !InUpdate(w'.threads[t].pc)
    ensures MutexInv(w')
  {
    hide InUpdate;
    var mine := w.threads[t].proc;
    assert mine in w.mutexes && w.mutexes[mine] == t;
    forall proc, x ensures (proc in w'.mutexes && w'.mutexes[proc] == x)
                      <==> (x in w'.threads && w'.threads[x].proc == proc && InUpdate(w'.threads[x].pc))
    {
      assert (proc in w.mutexes && w.mutexes[proc] == x)
        <==> (x in w.threads && w.threads[x].proc == proc && InUpdate(w.threads[x].pc));
    }
  }

  lemma {:induction false} MutexStep<U, S>(sp: Spec<U, S>, w: World<U, S>, t: nat, a: Action<U>)
    requires MutexInv(w) && t in w.threads && Step(sp, w, t, a).Some? && (a.TakeMutex? || a.Unmutex?)
    ensures MutexInv(Step(sp, w, t, a).value)
  {
    hide MutexInv;
    StepMoves(sp, w, t, a);
    var w' := Step(sp, w, t, a).value;
    if a.TakeMutex? { TakesMutex(w, w', t); } else { DropsMutex(w, w', t); }
  }

  lemma {:induction false} CrashKeepsMutex<U, S>(w: World<U, S>, proc: nat)
    requires MutexInv(w)
    ensures MutexInv(Crash(w, proc))
  {
  }

  lemma {:induction false} StepKeepsTemps<U, S>(sp: Spec<U, S>, w: World<U, S>, t: nat, a: Action<U>)
    requires TempInv(w) && t in w.threads && Step(sp, w, t, a).Some?
    ensures TempInv(Step(sp, w, t, a).value)
  {
  }

  lemma {:induction false} CrashKeepsTemps<U, S>(w: World<U, S>, proc: nat)
    requires TempInv(w)
    ensures TempInv(Crash(w, proc))
  {
  }

  lemma {:induction false} NextKeeps<U(!new), S>(sp: Spec<U, S>, w: World<U, S>, w': World<U, S>)
    requires MutexInv(w) && TempInv(w) && Next(sp, w, w')
    ensures MutexInv(w') && TempInv(w')
  {
    hide MutexInv, TempInv, Step, Crash;
    if t, a :| t in w.threads && Step(sp, w, t, a) == Some(w') {
      StepKeepsMutex(sp, w, t, a);
      StepKeepsTemps(sp, w, t, a);
    } else {
      var proc :| w' == Crash(w, proc);
      CrashKeepsMutex(w, proc);
      CrashKeepsTemps(w, proc);
    }
  }

  /** At any time at most one thread of a process is inside an update, and files are left only by the dead. */
  lemma {:induction false} BehaviorKeeps<U(!new), S>(sp: Spec<U, S>, b: seq<World<U, S>>, i: nat)
    requires Behavior(sp, b) && i < |b|
    ensures MutexInv(b[i]) && TempInv(b[i])
  {
    if i > 0 {
      BehaviorKeeps(sp, b[..i], i - 1);
      assert Next(sp, b[i - 1], b[i - 1 + 1]);
      NextKeeps(sp, b[i - 1], b[i]);
    }
  }

  // ----- when a thread waits

  /** What a thread may do at each point of a call. */
  predicate May<U, S>(pc: Pc<U, S>, a: Action<U>) {
    match a
    case BeginUpdate(_) => pc.Idle?
    case TakeMutex => pc.WantMutex?
    case LockExclusive => pc.WantLock?
    case LockFails => pc.WantLock?
    case ReadState => pc.Locked?
    case ReadFails => pc.Locked?
    case RunClosure => pc.Holding?
    case WriteTemp => pc.Ready?
    case TempFails => pc.Ready?
    case Rename => pc.Written?
    case RenameFails => pc.Written?
    case Unlock => pc.Unlocking?
    case Unmutex => pc.Unmutexing?
    case BeginRead => pc.Idle?
    case LockShared => pc.WantShared?
    case LockSharedFails => pc.WantShared?
    case ReadShared => pc.Shared?
    case ReadSharedFails => pc.Shared?
    case UnlockShared => pc.HoldingRead?
  }

  /** What a step has to find free. */
  ghost predicate Free<U, S>(w: World<U, S>, t: nat, a: Action<U>)
    requires t in w.threads
  {
    && (a.TakeMutex? ==> w.threads[t].proc !in w.mutexes)
    && (a.LockExclusive? ==> w.exclusive == None && w.shared == {})
    && (a.LockShared? ==> w.exclusive == None)
  }

  lemma {:induction false} StepIff<U, S>(sp: Spec<U, S>, w: World<U, S>, t: nat, a: Action<U>)
    requires t in w.threads && (w.threads[t].pc.Written? ==> t in w.temps)
    ensures Step(sp, w, t, a).Some? <==> May(w.threads[t].pc, a) && Free(w, t, a)
  {
    hide Goto, Call, Returned, Content;
  }

  /** A thread waits for the mutex of its process and for the lock, and for nothing else. */
  lemma {:induction false} EnabledIff<U, S>(sp: Spec<U, S>, w: World<U, S>, t: nat, a: Action<U>)
    requires Inv(sp, w) && t in w.threads
    ensures Step(sp, w, t, a).Some? <==> May(w.threads[t].pc, a) && Free(w, t, a)
  {
    assert ThreadInv(sp, w, t, w.threads[t]);
    hide Inv, Step, May, Free;
    StepIff(sp, w, t, a);
  }
}
