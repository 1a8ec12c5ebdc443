/** The retry loop around one request (internal/ghsource/rest.go): do. Durations are int64 nanoseconds. */
module Retry {
  import opened Strs

  const SECOND: int := 1_000_000_000
  const HALF: int := 500_000_000

  /** What one request came to; the waits are what the server asked for. */
  datatype Reply =
    | Done
    | Secondary(retryAfter: int)
    | Primary(untilReset: int)
    | Transient
    | Fatal

  /** One attempt: the random part of the backoff before it, its reply, and whether each sleep runs to its end. */
  datatype Attempt = Attempt(jitter: int, backoffSlept: bool, reply: Reply, waitSlept: bool)

  /** A draw below a duration that is not positive panics. */
  datatype Outcome = Success | Cancelled | GaveUp | Panicked

  function Pow2(n: nat): (p: int)
    ensures p >= 1
  {
    if n == 0 then 1 else 2 * Pow2(n - 1)
  }

  /** Two's complement on 64 bits. */
  function Wrap64(n: int): (r: int)
    ensures -0x8000_0000_0000_0000 <= n <= MAX_INT ==> r == n
    ensures r <= MAX_INT && (n >= 0 ==> r <= n)
  {
    var m := n % 0x1_0000_0000_0000_0000;
    if m > MAX_INT then m - 0x1_0000_0000_0000_0000 else m
  }

  /** 2^n seconds as the source computes them. */
  function Seconds(n: nat): int {
    Wrap64(Wrap64(Pow2(n)) * SECOND)
  }

  /** The random part of the backoff before attempt `i` is drawn below 2^(i-1) seconds, if they are positive. */
  predicate Drawn(i: nat, jitter: int) {
    i > 0 && Seconds(i - 1) > 0 ==> 0 <= jitter < Seconds(i - 1)
  }

  /** No random part can be drawn before attempt `i`. */
  predicate Undrawable(i: nat) {
    i > 0 && Seconds(i - 1) <= 0
  }

  /** A sleep of a duration that is not positive ends at once. */
  function Slept(d: int): nat {
    if d < 0 then 0 else d
  }

  function Backoff(i: nat, jitter: int): int {
    if i == 0 then 0 else Wrap64(jitter + Seconds(i - 1) / 2)
  }

  /** How long a rate-limited attempt waits, if it waits at all. */
  function Wait(i: nat, reply: Reply, maxWait: int): Option<int> {
    match reply
    case Secondary(after) =>
      var wait := if after <= 0 then Seconds(i) else after;
      if wait > maxWait then None else Some(wait)
    case Primary(reset) => if 0 < reset <= maxWait then Some(reset) else None
    case _ => None
  }

  /** The attempt is made, and leads to another one if there may be one. */
  predicate Retries(i: nat, a: Attempt, maxWait: int) {
    && (i == 0 || a.backoffSlept)
    && (a.reply.Transient? || (Wait(i, a.reply, maxWait).Some? && a.waitSlept))
  }

  /** Why the loop ended after `calls` requests. */
  predicate Ended(script: seq<Attempt>, maxWait: int, out: Outcome, calls: nat)
    requires calls <= |script|
  {
    match out
    case Success => calls > 0 && script[calls - 1].reply.Done?
    case GaveUp =>
      && calls > 0 && !script[calls - 1].reply.Done?
      && (|| calls == |script|
          || (!script[calls - 1].reply.Transient? && Wait(calls - 1, script[calls - 1].reply, maxWait).None?))
    case Panicked => calls < |script| && Undrawable(calls)
    case Cancelled =>
      || (0 < calls < |script| && !script[calls].backoffSlept)
      || (calls > 0 && Wait(calls - 1, script[calls - 1].reply, maxWait).Some? && !script[calls - 1].waitSlept)
  }

  function Cap(maxWait: int): nat {
    if maxWait < 0 then 0 else maxWait
  }

  /** What all backoffs before attempts 1, ..., n-1 stay below, when there is one. */
  function BackoffCap(n: nat): int {
    if n == 0 then 0 else 3 * (Pow2(n - 1) - 1) * HALF
  }

  lemma {:induction false} Pow2Mono(m: nat, n: nat)
    requires m <= n
    ensures Pow2(m) <= Pow2(n)
    decreases n
  {
    if m < n { Pow2Mono(m, n - 1); }
  }

  lemma {:induction false} Pow2Add(m: nat, n: nat)
    ensures Pow2(m + n) == Pow2(m) * Pow2(n)
  {
    if n > 0 { Pow2Add(m, n - 1); }
  }

  lemma Powers()
    ensures Pow2(32) == 4_294_967_296 && Pow2(33) == 8_589_934_592 && Pow2(34) == 17_179_869_184
  {
    assert Pow2(4) == 16;
    Pow2Add(4, 4);
    Pow2Add(8, 8);
    Pow2Add(16, 16);
  }

  /** 2^n seconds are computed exactly up to n = 33, and for no greater n. */
  lemma SecondsExactIff(n: nat)
    ensures Seconds(n) == Pow2(n) * SECOND <==> n <= 33
  {
    Powers();
    if n <= 33 {
      Pow2Mono(n, 33);
    } else {
      Pow2Mono(34, n);
    }
  }

  /** The random part of a backoff cannot be drawn before attempt 35, and can before every earlier one. */
  lemma FirstUndrawable(i: nat)
    requires i <= 35
    ensures Undrawable(i) <==> i == 35
  {
    Powers();
    if 0 < i < 35 {
      SecondsExactIff(i - 1);
    }
  }

  lemma BackoffBelow(i: nat, jitter: int)
    requires 0 < i <= 34 && Drawn(i, jitter)
    ensures Slept(Backoff(i, jitter)) < 3 * Pow2(i - 1) * HALF
    ensures BackoffCap(i) + 3 * Pow2(i - 1) * HALF == BackoffCap(i + 1)
  {
    SecondsExactIff(i - 1);
    var p := Pow2(i - 1);
    assert Seconds(i - 1) / 2 == p * HALF;
    assert Pow2(i) == 2 * p;
  }

  lemma WaitBelow(i: nat, reply: Reply, maxWait: int)
    ensures Wait(i, reply, maxWait).Some? ==> Slept(Wait(i, reply, maxWait).value) <= Cap(maxWait)
  {
  }

  /** A bound on what `n` attempts sleep; from the second on it is not reached. */
  function Budget(n: nat, maxWait: int): int {
    n * Cap(maxWait) + BackoffCap(n) - (if n > 1 then 1 else 0)
  }

  /** What attempt `i` sleeps before its request, and after it. */
  function SleptBefore(i: nat, jitter: int): nat {
    if i == 0 then 0 else Slept(Backoff(i, jitter))
  }

  function SleptAfter(i: nat, reply: Reply, maxWait: int): nat {
    var wait := Wait(i, reply, maxWait);
    if wait.None? then 0 else Slept(wait.value)
  }

  lemma BudgetStep(i: nat, a: Attempt, maxWait: int)
    requires i <= 34 && Drawn(i, a.jitter)
    ensures Budget(i, maxWait) + SleptBefore(i, a.jitter) + SleptAfter(i, a.reply, maxWait) <= Budget(i + 1, maxWait)
  {
    WaitBelow(i, a.reply, maxWait);
    assert (i + 1) * Cap(maxWait) == i * Cap(maxWait) + Cap(maxWait);
    assert BackoffCap(0) == 0 && BackoffCap(1) == 0;
    hide Wait, Backoff, Drawn, Cap, BackoffCap, Pow2, Slept;
    if i > 0 { BackoffBelow(i, a.jitter); }
  }

  lemma {:induction false} BudgetGrows(m: nat, n: nat, maxWait: int)
    requires m <= n
    ensures Budget(m, maxWait) <= Budget(n, maxWait)
    decreases n
  {
    if m < n {
      BudgetGrows(m, n - 1, maxWait);
      assert n * Cap(maxWait) == (n - 1) * Cap(maxWait) + Cap(maxWait);
      if n > 1 {
        assert Pow2(n - 1) == 2 * Pow2(n - 2);
      }
    }
  }

  /** One of the first `n` replies was a secondary limit. */
  ghost predicate SawSecondary(script: seq<Attempt>, n: nat) {
    exists i :: 0 <= i < n && i < |script| && script[i].reply.Secondary?
  }

  lemma SawMore(script: seq<Attempt>, n: nat)
    requires n < |script|
    ensures SawSecondary(script, n + 1) <==> SawSecondary(script, n) || script[n].reply.Secondary?
  {
  }

  /** What follows a reply: the loop stops, or another attempt may be made. */
  datatype Turn = Again | Stop(out: Outcome)

  function TurnOf(i: nat, a: Attempt, maxWait: int): Turn {
    if a.reply.Done? then Stop(Success)
    else if a.reply.Transient? then Again
    else if Wait(i, a.reply, maxWait).None? then Stop(GaveUp)
    else if a.waitSlept then Again
    else Stop(Cancelled)
  }

  /** The part of a turn that follows the request. */
  method AfterReply(i: nat, a: Attempt, maxWait: int) returns (turn: Turn, slept: int)
    ensures turn == TurnOf(i, a, maxWait) && slept == SleptAfter(i, a.reply, maxWait)
  {
    slept := 0;
    match a.reply {
      case Done => turn := Stop(Success);
      case Fatal => turn := Stop(GaveUp);
      case Transient => turn := Again;
      case _ =>
        var wait := Wait(i, a.reply, maxWait);
        if wait.None? {
          return Stop(GaveUp), 0;
        }
        slept := Slept(wait.value);
        turn := if a.waitSlept then Again else Stop(Cancelled);
    }
  }

  lemma StopEnds(script: seq<Attempt>, maxWait: int, i: nat)
    requires i < |script| && TurnOf(i, script[i], maxWait).Stop?
    ensures Ended(script, maxWait, TurnOf(i, script[i], maxWait).out, i + 1)
  {
  }

  lemma AgainRetries(a: Attempt, maxWait: int, i: nat)
    requires TurnOf(i, a, maxWait).Again? && (i == 0 || a.backoffSlept)
    ensures Retries(i, a, maxWait) && !a.reply.Done?
  {
  }

  /** At most one request per allowed attempt, and a bound on everything slept between them. */
  method Do(script: seq<Attempt>, maxWait: int) returns (out: Outcome, calls: nat, slept: int, serial: bool)
    requires 0 < |script| && forall i :: 0 <= i < |script| ==> Drawn(i, script[i].jitter)
    ensures calls <= |script| && Ended(script, maxWait, out, calls)
    ensures forall i :: 0 <= i < calls - 1 ==> Retries(i, script[i], maxWait)
    ensures serial <==> SawSecondary(script, calls)
    ensures 0 <= slept <= |script| * Cap(maxWait) + BackoffCap(|script|)
    ensures |script| > 1 ==> slept < |script| * Cap(maxWait) + BackoffCap(|script|)
    ensures calls <= 35 && (out == Panicked ==> calls == 35)
  {
    calls, slept, serial := 0, 0, false;
    assert Budget(0, maxWait) == 0;
    assert Budget(|script|, maxWait)
        == |script| * Cap(maxWait) + BackoffCap(|script|) - (if |script| > 1 then 1 else 0);
    for attempt := 0 to |script|
      invariant calls == attempt <= 35
      invariant attempt > 0 ==> !script[attempt - 1].reply.Done?
      invariant forall i :: 0 <= i < attempt ==> Retries(i, script[i], maxWait)
      invariant serial <==> SawSecondary(script, attempt)
      invariant 0 <= slept <= Budget(attempt, maxWait)
    {
      hide Wait, Backoff, Drawn, Cap, BackoffCap, Pow2, Seconds, Slept, Undrawable, Budget, SawSecondary, TurnOf, Retries;
      var a := script[attempt];
      SawMore(script, attempt);
      FirstUndrawable(attempt);
      BudgetGrows(attempt, |script|, maxWait);
      if attempt > 0 && Undrawable(attempt) {
        return Panicked, calls, slept, serial;
      }
      BudgetStep(attempt, a, maxWait);
      BudgetGrows(attempt + 1, |script|, maxWait);
      if attempt > 0 {
        slept := slept + Slept(Backoff(attempt, a.jitter));
        if !a.backoffSlept {
          return Cancelled, calls, slept, serial;
        }
      }
      calls := calls + 1;
      serial := serial || a.reply.Secondary?;
      var turn, waited := AfterReply(attempt, a, maxWait);
      slept := slept + waited;
      if turn.Stop? {
        StopEnds(script, maxWait, attempt);
        return turn.out, calls, slept, serial;
      }
      AgainRetries(a, maxWait, attempt);
    }
    out := GaveUp;
  }

  // ----- what is slept, and when another attempt is made, in plain figures

  predicate Within(i: nat, d: int)
    requires i > 0
  {
    Pow2(i - 1) * 500_000_000 <= d < Pow2(i - 1) * 1_500_000_000
  }

  /**
   The backoff before attempt `i` is at least half of 2^(i-1) seconds and less than one and a half
   times that, unless the sum of the random part and the half leaves 64 bits.
   */
  lemma {:induction false} BackoffWithinIff(i: nat, jitter: int)
    requires 0 < i <= 34 && Drawn(i, jitter)
    ensures Within(i, Backoff(i, jitter)) <==> jitter + Pow2(i - 1) * 500_000_000 <= 0x7fff_ffff_ffff_ffff
    ensures i <= 33 ==> Within(i, Backoff(i, jitter))
  {
    SecondsExactIff(i - 1);
    var p := Pow2(i - 1);
    Pow2Mono(i - 1, 33);
    if i <= 33 { Pow2Mono(i - 1, 32); }
    Powers();
    assert Seconds(i - 1) / 2 == p * HALF;
    hide Seconds, Pow2;
  }

  /** Before attempt 34 the greatest draw does so, and nothing is slept at all. */
  lemma {:induction false} LongestBackoffIsNone(jitter: int)
    requires jitter == Seconds(33) - 1
    ensures Drawn(34, jitter) && Slept(Backoff(34, jitter)) == 0 && !Within(34, Backoff(34, jitter))
  {
    SecondsExactIff(33);
    Powers();
    hide Pow2;
  }

  /** What a rate limit makes the loop wait: what the server says, or else 2^i seconds, if that is not too long. */
  lemma {:induction false} WaitIs(i: nat, reply: Reply, maxWait: int)
    requires i <= 33
    ensures reply.Secondary? ==>
              var due := if reply.retryAfter > 0 then reply.retryAfter else Pow2(i) * 1_000_000_000;
              Wait(i, reply, maxWait) == if due <= maxWait then Some(due) else None
    ensures reply.Primary? ==>
              Wait(i, reply, maxWait) == if 0 < reply.untilReset <= maxWait then Some(reply.untilReset) else None
  {
    SecondsExactIff(i);
    hide Seconds, Pow2;
  }

  /** Another attempt is made after a transient failure, or when a rate limit has been waited out; never otherwise. */
  lemma {:induction false} RetriesIff(i: nat, a: Attempt, maxWait: int)
    requires i <= 33
    ensures Retries(i, a, maxWait)
       <==> (i == 0 || a.backoffSlept)
            && match a.reply
               case Done => false
               case Fatal => false
               case Transient => true
               case Secondary(after) =>
                 a.waitSlept && (if after > 0 then after <= maxWait else Pow2(i) * 1_000_000_000 <= maxWait)
               case Primary(reset) => a.waitSlept && 0 < reset <= maxWait
  {
    WaitIs(i, a.reply, maxWait);
    hide Wait, Pow2;
  }

  /** Powers of two, to tell them from anything else. */
  lemma {:induction false} PowersOfTwo(n: nat)
    ensures Pow2(0) == 1 && Pow2(n + 1) == Pow2(n) + Pow2(n)
  {
  }
}
