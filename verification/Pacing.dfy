/**
 Request pacing (internal/ghsource/rest.go): goroutines share a semaphore of request slots, and
 under a mutex each reserves the time at which it may start. Times are nanoseconds.
 */
module Pacing {
  import opened Strs

  datatype Limits = Limits(slots: nat, minInterval: nat)

  datatype Pc =
    | Idle
    | WantSlot
    | HasSlot
    | InMutex
    | Measured(wait: int)     // has read the clock once
    | Reserved(at: int, wait: int)   // has stored its start time, still in the mutex
    | Leaving(at: int, wait: int)    // is about to sleep for the measured wait, if any
    | Sleeping(at: int, until: int)
    | Running(at: int)
    | Limited                 // the request is over and met a secondary limit

  /** `acquired` and `released` count the thread's operations on the semaphore. */
  datatype Thread = Thread(pc: Pc, acquired: nat, released: nat)

  /** `starts` records the reserved times in the order in which they were stored. */
  datatype World = World(clock: int, sem: nat, mutex: Option<nat>, last: Option<int>, serial: bool,
                         threads: seq<Thread>, starts: seq<int>)

  datatype Action =
    | Enter | Acquire | GiveUp | TakeMutex | Measure | Reserve | LeaveMutex | StartSleep | Wake | SleepFails
    | Finish(limited: bool) | SetSerial

  function At(w: World, t: nat, pc: Pc): World
    requires t < |w.threads|
  {
    w.(threads := w.threads[t := w.threads[t].(pc := pc)])
  }

  function Release(w: World, t: nat): World
    requires t < |w.threads|
  {
    w.(sem := if w.sem == 0 then 0 else w.sem - 1,
       threads := w.threads[t := w.threads[t].(pc := Idle, released := w.threads[t].released + 1)])
  }

  /** How long to wait, measured against the start reserved last, which may lie ahead. */
  function WaitFor(l: Limits, last: Option<int>, now: int): int {
    if last.None? || now - last.value >= l.minInterval then 0 else l.minInterval - (now - last.value)
  }

  /** One step of thread `t`, if it can take it. */
  function Step(l: Limits, w: World, t: nat, a: Action): Option<World>
    requires t < |w.threads|
  {
    var th := w.threads[t];
    match (a, th.pc)
    case (Enter, Idle) => Some(At(w, t, WantSlot))
    case (Acquire, WantSlot) =>
      if w.sem >= l.slots then None
      else Some(w.(sem := w.sem + 1, threads := w.threads[t := Thread(HasSlot, th.acquired + 1, th.released)]))
    case (GiveUp, WantSlot) => Some(At(w, t, Idle))
    case (TakeMutex, HasSlot) => if w.mutex.Some? then None else Some(At(w, t, InMutex).(mutex := Some(t)))
    case (Measure, InMutex) => Some(At(w, t, Measured(WaitFor(l, w.last, w.clock))))
    case (Reserve, Measured(wait)) =>
      var at := w.clock + wait;
      Some(At(w, t, Reserved(at, wait)).(last := Some(at), starts := w.starts + [at]))
    case (LeaveMutex, Reserved(at, wait)) => Some(At(w, t, Leaving(at, wait)).(mutex := None))
    case (StartSleep, Leaving(at, wait)) =>
      Some(At(w, t, if wait > 0 then Sleeping(at, w.clock + wait) else Running(at)))
    case (Wake, Sleeping(at, until)) => if w.clock < until then None else Some(At(w, t, Running(at)))
    case (SleepFails, Sleeping(_, _)) => Some(Release(w, t))
    case (Finish(limited), Running(_)) => Some(if limited then At(Release(w, t), t, Limited) else Release(w, t))
    case (SetSerial, Limited) => if w.mutex.Some? then None else Some(At(w, t, Idle).(serial := true))
    case _ => None
  }

  /** Time passes. */
  function Tick(w: World, d: nat): World {
    w.(clock := w.clock + d)
  }

  ghost predicate Next(l: Limits, w: World, w': World) {
    || (exists t: nat, a :: t < |w.threads| && Step(l, w, t, a) == Some(w'))
    || (exists d: nat :: w' == Tick(w, d))
  }

  ghost predicate Init(w: World) {
    && w.sem == 0 && w.mutex == None && w.last == None && w.starts == [] && !w.serial
    && forall t :: 0 <= t < |w.threads| ==> w.threads[t] == Thread(Idle, 0, 0)
  }

  ghost predicate Behavior(l: Limits, b: seq<World>) {
    && b != [] && Init(b[0])
    && forall i :: 0 <= i < |b| - 1 ==> Next(l, b[i], b[i + 1])
  }

  // ----- the invariant

  predicate Holds(pc: Pc) {
    !pc.Idle? && !pc.WantSlot? && !pc.Limited?
  }

  predicate InCritical(pc: Pc) {
    pc.InMutex? || pc.Measured? || pc.Reserved?
  }

  function Holders(ts: seq<Thread>): nat {
    if ts == [] then 0 else Holders(ts[..|ts| - 1]) + (if Holds(ts[|ts| - 1].pc) then 1 else 0)
  }

  function RunningCount(ts: seq<Thread>): nat {
    if ts == [] then 0 else RunningCount(ts[..|ts| - 1]) + (if ts[|ts| - 1].pc.Running? then 1 else 0)
  }

  /** Starts are at least the interval apart, and the last one is where the next is measured from. */
  ghost predicate Spaced(l: Limits, starts: seq<int>, last: Option<int>) {
    && (last == if starts == [] then None else Some(starts[|starts| - 1]))
    && forall i :: 0 <= i < |starts| - 1 ==> starts[i + 1] - starts[i] >= l.minInterval
  }

  ghost predicate ThreadInv(l: Limits, w: World, t: nat)
    requires t < |w.threads|
  {
    var th := w.threads[t];
    && th.acquired == th.released + (if Holds(th.pc) then 1 else 0)
    && (InCritical(th.pc) <==> w.mutex == Some(t))
    && (th.pc.Measured? ==> th.pc.wait >= 0 && (w.last.Some? ==> w.clock + th.pc.wait >= w.last.value + l.minInterval))
    && (th.pc.Reserved? || th.pc.Leaving? ==> w.clock + th.pc.wait >= th.pc.at && th.pc.at in w.starts)
    && (th.pc.Sleeping? ==> th.pc.until >= th.pc.at && th.pc.at in w.starts)
    && (th.pc.Running? ==> w.clock >= th.pc.at && th.pc.at in w.starts)
  }

  ghost predicate Inv(l: Limits, w: World) {
    && w.sem == Holders(w.threads) <= l.slots
    && (w.mutex.Some? ==> w.mutex.value < |w.threads|)
    && Spaced(l, w.starts, w.last)
    && forall t :: 0 <= t < |w.threads| ==> ThreadInv(l, w, t)
  }

  lemma {:induction false} HoldersUpdate(ts: seq<Thread>, t: nat, th: Thread)
    requires t < |ts|
    ensures Holders(ts[t := th]) == Holders(ts) + (if Holds(th.pc) then 1 else 0) - (if Holds(ts[t].pc) then 1 else 0)
  {
    var n := |ts| - 1;
    if t < n {
      HoldersUpdate(ts[..n], t, th);
      assert ts[t := th][..n] == ts[..n][t := th];
    } else {
      assert ts[t := th][..n] == ts[..n];
    }
  }

  lemma {:induction false} NoneHold(ts: seq<Thread>)
    requires forall t :: 0 <= t < |ts| ==> !Holds(ts[t].pc)
    ensures Holders(ts) == 0
  {
    if ts != [] {
      NoneHold(ts[..|ts| - 1]);
    }
  }

  lemma {:induction false} RunningHold(ts: seq<Thread>)
    ensures RunningCount(ts) <= Holders(ts)
  {
    if ts != [] {
      RunningHold(ts[..|ts| - 1]);
    }
  }

  lemma StepKeepsOthers(l: Limits, w: World, t: nat, a: Action, x: nat)
    requires Inv(l, w) && t < |w.threads| && Step(l, w, t, a).Some? && x < |w.threads| && x != t
    ensures var w' := Step(l, w, t, a).value; |w'.threads| == |w.threads| && ThreadInv(l, w', x)
  {
    hide Spaced, Holders;
    assert ThreadInv(l, w, t) && ThreadInv(l, w, x);
  }

  lemma StepKeepsSelf(l: Limits, w: World, t: nat, a: Action)
    requires Inv(l, w) && t < |w.threads| && Step(l, w, t, a).Some?
    ensures var w' := Step(l, w, t, a).value; |w'.threads| == |w.threads| && ThreadInv(l, w', t)
  {
    hide Spaced, Holders;
    assert ThreadInv(l, w, t);
  }

  lemma StepKeepsSpacing(l: Limits, w: World, t: nat, a: Action)
    requires Inv(l, w) && t < |w.threads| && Step(l, w, t, a).Some?
    ensures var w' := Step(l, w, t, a).value; Spaced(l, w'.starts, w'.last)
  {
    hide Holders;
    assert ThreadInv(l, w, t);
  }

  lemma StepKeepsCount(l: Limits, w: World, t: nat, a: Action)
    requires Inv(l, w) && t < |w.threads| && Step(l, w, t, a).Some?
    ensures var w' := Step(l, w, t, a).value; w'.sem == Holders(w'.threads) <= l.slots
  {
    hide Spaced;
    var w' := Step(l, w, t, a).value;
    HoldersUpdate(w.threads, t, w'.threads[t]);
    hide Holders;
    assert w'.threads == w.threads[t := w'.threads[t]];
  }

  lemma StepInv(l: Limits, w: World, t: nat, a: Action)
    requires Inv(l, w) && t < |w.threads| && Step(l, w, t, a).Some?
    ensures Inv(l, Step(l, w, t, a).value)
  {
    hide ThreadInv, Spaced, Holders;
    var w' := Step(l, w, t, a).value;
    StepKeepsSelf(l, w, t, a);
    StepKeepsSpacing(l, w, t, a);
    StepKeepsCount(l, w, t, a);
    forall x | 0 <= x < |w'.threads| ensures ThreadInv(l, w', x) {
      if x != t {
        StepKeepsOthers(l, w, t, a, x);
      }
    }
  }

  lemma TickInv(l: Limits, w: World, d: nat)
    requires Inv(l, w)
    ensures Inv(l, Tick(w, d))
  {
    hide Spaced, Holders;
    var w' := Tick(w, d);
    forall t | 0 <= t < |w'.threads| ensures ThreadInv(l, w', t) {
      assert ThreadInv(l, w, t);
    }
  }

  lemma {:induction false} BehaviorInv(l: Limits, b: seq<World>, i: nat)
    requires Behavior(l, b) && i < |b|
    ensures Inv(l, b[i])
  {
    if i == 0 {
      NoneHold(b[0].threads);
    } else {
      BehaviorInv(l, b, i - 1);
      hide Inv, Step;
      var w, w' := b[i - 1], b[i];
      assert Next(l, b[i - 1], b[i - 1 + 1]);
      if t: nat, a :| t < |w.threads| && Step(l, w, t, a) == Some(w') {
        StepInv(l, w, t, a);
      } else {
        var d: nat :| w' == Tick(w, d);
        TickInv(l, w, d);
      }
    }
  }

  // ----- the promises

  /** Requests in flight never exceed the slots, and the semaphore counts exactly the threads that hold one. */
  lemma InFlightBounded(l: Limits, b: seq<World>, i: nat)
    requires Behavior(l, b) && i < |b|
    ensures RunningCount(b[i].threads) <= b[i].sem == Holders(b[i].threads) <= l.slots
  {
    BehaviorInv(l, b, i);
    RunningHold(b[i].threads);
  }

  /** Every slot that was acquired is released once, or still held: on success, failure and cancellation. */
  lemma ReleasedOnce(l: Limits, b: seq<World>, i: nat, t: nat)
    requires Behavior(l, b) && i < |b| && t < |b[i].threads|
    ensures var th := b[i].threads[t]; th.released <= th.acquired <= th.released + 1
    ensures var th := b[i].threads[t]; th.pc.Idle? ==> th.acquired == th.released
  {
    BehaviorInv(l, b, i);
    assert ThreadInv(l, b[i], t);
  }

  /** Reserved start times are in increasing order, any two at least the interval apart for each step between them. */
  lemma {:induction false} StartsSpaced(l: Limits, b: seq<World>, i: nat, j: nat, k: nat)
    requires Behavior(l, b) && i < |b| && j <= k < |b[i].starts|
    ensures b[i].starts[k] - b[i].starts[j] >= (k - j) * l.minInterval
    decreases k
  {
    if j < k {
      StartsSpaced(l, b, i, j, k - 1);
      BehaviorInv(l, b, i);
      assert b[i].starts[k - 1 + 1] - b[i].starts[k - 1] >= l.minInterval;
      assert (k - j) * l.minInterval == (k - 1 - j) * l.minInterval + l.minInterval;
    }
  }

  /** Sleeping for the measured wait, from whenever the mutex was left, no request runs before its reserved time. */
  lemma RunsAfterReserved(l: Limits, b: seq<World>, i: nat, t: nat)
    requires Behavior(l, b) && i < |b| && t < |b[i].threads| && b[i].threads[t].pc.Running?
    ensures b[i].threads[t].pc.at in b[i].starts && b[i].clock >= b[i].threads[t].pc.at
  {
    BehaviorInv(l, b, i);
    assert ThreadInv(l, b[i], t);
  }

  // ----- the flag that changes nothing

  /** Once the flag is set, requests run one at a time. */
  ghost predicate OneAtATime(l: Limits, n: nat) {
    forall b: seq<World>, i :: Behavior(l, b) && |b[0].threads| == n && 0 <= i < |b| && b[i].serial
                   ==> RunningCount(b[i].threads) <= 1
  }

  lemma {:induction false} RunningAtMost(ts: seq<Thread>)
    ensures RunningCount(ts) <= |ts|
  {
    if ts != [] { RunningAtMost(ts[..|ts| - 1]); }
  }

  lemma {:induction false} RunningHas(ts: seq<Thread>, i: nat, j: nat)
    requires i < |ts| && j < |ts| && ts[i].pc.Running? && ts[j].pc.Running?
    ensures RunningCount(ts) >= if i == j then 1 else 2
    decreases |ts|
  {
    var n := |ts| - 1;
    var a, b := if i < n then i else j, if j < n then j else i;
    if a < n { RunningHas(ts[..n], a, if b < n then b else a); }
  }

  lemma {:induction false} SameThreads(l: Limits, b: seq<World>, i: nat)
    requires Behavior(l, b) && i < |b|
    ensures |b[i].threads| == |b[0].threads|
  {
    if i > 0 {
      SameThreads(l, b, i - 1);
      assert Next(l, b[i - 1], b[i - 1 + 1]);
    }
  }

  // ----- building behaviors

  ghost predicate Path(l: Limits, b: seq<World>) {
    b != [] && forall i :: 0 <= i < |b| - 1 ==> Next(l, b[i], b[i + 1])
  }

  ghost predicate Leads(l: Limits, b: seq<World>, w: World, w': World) {
    Path(l, b) && b[0] == w && b[|b| - 1] == w'
  }

  ghost predicate Reach(l: Limits, w: World, w': World) {
    exists b :: Leads(l, b, w, w')
  }

  lemma ReachMore(l: Limits, w0: World, w: World, w': World)
    requires Reach(l, w0, w) && Next(l, w, w')
    ensures Reach(l, w0, w')
  {
    hide Next;
    var b :| Leads(l, b, w0, w);
    var all := b + [w'];
    forall i | 0 <= i < |all| - 1 ensures Next(l, all[i], all[i + 1]) {
      if i < |b| - 1 { assert Next(l, b[i], b[i + 1]); }
    }
    assert Leads(l, all, w0, w');
  }

  lemma Go(l: Limits, w0: World, w: World, t: nat, a: Action) returns (w': World)
    requires Reach(l, w0, w) && t < |w.threads| && Step(l, w, t, a).Some?
    ensures Step(l, w, t, a) == Some(w') && Reach(l, w0, w')
  {
    hide Step, Reach;
    w' := Step(l, w, t, a).value;
    ReachMore(l, w0, w, w');
  }

  /** All threads but `t` are as they were. */
  ghost predicate Others(w: World, w': World, t: nat) {
    && |w'.threads| == |w.threads| && w'.serial == w.serial
    && forall x :: 0 <= x < |w.threads| && x != t ==> w'.threads[x] == w.threads[x]
  }

  /** An idle thread gets a slot, reserves its time and leaves the mutex. */
  lemma GetsReady(l: Limits, w0: World, w: World, t: nat) returns (w': World)
    requires Reach(l, w0, w) && t < |w.threads| && w.threads[t].pc.Idle? && w.mutex == None && w.sem < l.slots
    ensures Reach(l, w0, w') && Others(w, w', t) && w'.threads[t].pc.Leaving? && w'.mutex == None
    ensures w'.sem == w.sem + 1
  {
    hide Reach;
    w' := Go(l, w0, w, t, Enter);
    w' := Go(l, w0, w', t, Acquire);
    w' := Go(l, w0, w', t, TakeMutex);
    w' := Go(l, w0, w', t, Measure);
    w' := Go(l, w0, w', t, Reserve);
    w' := Go(l, w0, w', t, LeaveMutex);
  }

  /** It sleeps, if it must, and its time comes. */
  lemma StartsRunning(l: Limits, w0: World, w: World, t: nat) returns (w': World)
    requires Reach(l, w0, w) && t < |w.threads| && w.threads[t].pc.Leaving?
    ensures Reach(l, w0, w') && Others(w, w', t) && w'.threads[t].pc.Running?
    ensures w'.mutex == w.mutex && w'.sem == w.sem
  {
    hide Reach;
    var wait := w.threads[t].pc.wait;
    w' := Go(l, w0, w, t, StartSleep);
    if wait > 0 {
      var slept := Tick(w', wait);
      ReachMore(l, w0, w', slept);
      w' := Go(l, w0, slept, t, Wake);
    }
  }

  /** With two slots and two threads there is a behavior in which both run after the flag has been set. */
  lemma TwoRunUnderTheFlag(l: Limits, n: nat) returns (b: seq<World>)
    requires l.slots >= 2 && n >= 2
    ensures Behavior(l, b) && |b[0].threads| == n
    ensures var w := b[|b| - 1]; w.serial && RunningCount(w.threads) >= 2
  {
    var w0 := World(0, 0, None, None, false, seq(n, i => Thread(Idle, 0, 0)), []);
    assert Reach(l, w0, w0) by { assert Leads(l, [w0], w0, w0); }
    hide Reach;
    var w := GetsReady(l, w0, w0, 0);
    w := StartsRunning(l, w0, w, 0);
    w := Go(l, w0, w, 0, Finish(true));
    w := Go(l, w0, w, 0, SetSerial);
    assert w.serial && w.sem == 0 && |w.threads| == n && w.threads[0].pc.Idle? && w.threads[1].pc.Idle?;
    hide Step;
    w := GetsReady(l, w0, w, 0);
    w := GetsReady(l, w0, w, 1);
    w := StartsRunning(l, w0, w, 0);
    w := StartsRunning(l, w0, w, 1);
    RunningHas(w.threads, 0, 1);
    b := ReachIsBehavior(l, w0, w);
  }

  lemma ReachIsBehavior(l: Limits, w: World, w': World) returns (b: seq<World>)
    requires Init(w) && Reach(l, w, w')
    ensures Behavior(l, b) && b[0] == w && b[|b| - 1] == w'
  {
    hide Next;
    b :| Leads(l, b, w, w');
  }

  /** The flag keeps requests one at a time exactly where they were so without it: one slot, or one thread. */
  lemma OneAtATimeIff(l: Limits, n: nat)
    ensures OneAtATime(l, n) <==> l.slots <= 1 || n <= 1
  {
    hide Step;
    if l.slots <= 1 || n <= 1 {
      forall b: seq<World>, i | Behavior(l, b) && |b[0].threads| == n && 0 <= i < |b| && b[i].serial
        ensures RunningCount(b[i].threads) <= 1
      {
        InFlightBounded(l, b, i);
        SameThreads(l, b, i);
        RunningAtMost(b[i].threads);
      }
    } else {
      var b := TwoRunUnderTheFlag(l, n);
      var i := |b| - 1;
      assert b[i].serial && RunningCount(b[i].threads) >= 2;
    }
  }

  // ----- no longer than needed

  /** The wait is the least that puts the start the interval behind the one reserved last. */
  lemma {:induction false} WaitIsLeast(l: Limits, last: int, now: int, w: int)
    ensures WaitFor(l, None, now) == 0
    ensures WaitFor(l, Some(last), now) >= 0 && now + WaitFor(l, Some(last), now) >= last + l.minInterval
    ensures w >= 0 && now + w >= last + l.minInterval ==> w >= WaitFor(l, Some(last), now)
  {
  }

  /** Where a thread stands, and what it does next. */
  predicate May(pc: Pc, a: Action) {
    match a
    case Enter => pc.Idle?
    case Acquire => pc.WantSlot?
    case GiveUp => pc.WantSlot?
    case TakeMutex => pc.HasSlot?
    case Measure => pc.InMutex?
    case Reserve => pc.Measured?
    case LeaveMutex => pc.Reserved?
    case StartSleep => pc.Leaving?
    case Wake => pc.Sleeping?
    case SleepFails => pc.Sleeping?
    case Finish(_) => pc.Running?
    case SetSerial => pc.Limited?
  }

  /** A thread waits for nothing but a free slot, the mutex and its own time. */
  lemma {:induction false} EnabledIff(l: Limits, w: World, t: nat, a: Action)
    requires t < |w.threads|
    ensures Step(l, w, t, a).Some?
       <==> May(w.threads[t].pc, a)
            && (a.Acquire? ==> w.sem < l.slots)
            && (a.TakeMutex? || a.SetSerial? ==> w.mutex == None)
            && (a.Wake? ==> w.clock >= w.threads[t].pc.until)
  {
  }

  /** A request that ends, and a sleep that is cut short, give their slot back; giving up on one takes none. */
  lemma {:induction false} SlotsGivenBack(l: Limits, w: World, t: nat, a: Action)
    requires Inv(l, w) && t < |w.threads| && Step(l, w, t, a).Some?
    ensures var w' := Step(l, w, t, a).value;
            w'.sem == if a.Acquire? then w.sem + 1 else if a.Finish? || a.SleepFails? then w.sem - 1 else w.sem
  {
    if a.Finish? || a.SleepFails? {
      HoldersUpdate(w.threads, t, Thread(Idle, 0, 0));
    }
  }
}
