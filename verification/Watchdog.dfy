/**
 Deadlines on a container (core/sandbox/watchdog.py) over a wait that is cut into slices
 (core/sandbox/docker_driver.py). Time is a real number and passes only in waits and callbacks.
 */
module Watchdog {
  import opened Numbers
  import opened Options

  /** Signals, and when they were sent. */
  datatype Signal = Term(at: real) | Kill(at: real)

  /** What one wait comes to: an exit code, no code, or an exception. */
  datatype Answer = Exited(code: int) | NoCode | Raised

  function Clamp(x: real, lo: real, hi: real): (r: real)
    requires lo <= hi
    ensures lo <= r <= hi
  {
    if x < lo then lo else if x > hi then hi else x
  }

  /** The time that `n` slices of length `tick` take. */
  function Reach(n: nat, tick: real): real {
    if n == 0 then 0.0 else Reach(n - 1, tick) + tick
  }

  lemma Positive(x: real, tick: real)
    requires x > 0.0 && tick > 0.0
    ensures x * tick > 0.0
  {
  }

  lemma Scaled(p: real, q: real, tick: real)
    requires tick > 0.0 && p * tick <= q * tick
    ensures p <= q
  {
    assert (p - q) * tick == p * tick - q * tick;
    if p > q {
      Positive(p - q, tick);
    }
  }

  lemma DivideLess(a: real, b: real, tick: real)
    requires tick > 0.0 && a <= b - tick
    ensures a / tick <= b / tick - 1.0
  {
    var p, q := a / tick, b / tick;
    assert p * tick == a && q * tick == b;
    assert (q - 1.0) * tick == b - tick;
    Scaled(p, q - 1.0, tick);
  }

  /** However short the slices, finitely many of them cover the wait. */
  lemma {:induction false} EnoughSlices(remaining: real, tick: real) returns (n: nat)
    requires tick > 0.0
    ensures remaining <= Reach(n, tick)
    decreases if remaining <= 0.0 then 0 else (remaining / tick).Floor + 1
  {
    if remaining <= 0.0 {
      n := 0;
    } else {
      DivideLess(remaining - tick, remaining, tick);
      var m := EnoughSlices(remaining - tick, tick);
      n := m + 1;
    }
  }

  /** A slice that ran its full length, or to the end of the wait, leaves fewer. */
  lemma SliceProgress(before: real, after: real, tick: real, n: nat)
    requires tick > 0.0 && 0.0 < before <= Reach(n, tick) && after <= before - RealMin(before, tick)
    ensures n > 0 && after <= Reach(n - 1, tick)
  {
    ReachIsPositive(n - 1, tick);
  }

  lemma {:induction false} ReachIsPositive(n: nat, tick: real)
    requires tick > 0.0
    ensures Reach(n, tick) >= 0.0
  {
    if n > 0 {
      ReachIsPositive(n - 1, tick);
    }
  }

  /** Of the answers since `before` all are without a code but the last, which is `a` unless it is, too. */
  predicate EndsWith(answers: seq<Answer>, before: seq<Answer>, a: Answer) {
    && before <= answers
    && (!a.NoCode? ==> |before| < |answers| && answers[|answers| - 1] == a)
    && (a.NoCode? ==> forall i :: |before| <= i < |answers| ==> answers[i] == NoCode)
    && (!a.NoCode? ==> forall i :: |before| <= i < |answers| - 1 ==> answers[i] == NoCode)
  }

  class Container {
    var now: real
    var signals: seq<Signal>
    /** Answers without an exit code that the daemon may yet give before their time is up. */
    var blanks: nat
    /** What the daemon has answered so far. */
    ghost var answers: seq<Answer>
    /** Whether output is offered between slices, and how long a slice is. */
    const sliced: bool
    const tick: real
    /** How late a wait may return, and how long one callback may take. */
    const slack: real
    const callback: real

    predicate Valid()
    {
      tick > 0.0 && slack >= 0.0 && callback >= 0.0
    }

    function Lag(): real {
      slack + if sliced then callback else 0.0
    }

    constructor (sliced: bool, tick: real, slack: real, callback: real, now: real, blanks: nat)
      requires tick > 0.0 && slack >= 0.0 && callback >= 0.0
      ensures Valid() && signals == [] && this.now == now && this.blanks == blanks && this.sliced == sliced
      ensures answers == []
    {
      this.sliced, this.tick, this.slack, this.callback := sliced, tick, slack, callback;
      this.now, this.blanks, signals, answers := now, blanks, [], [];
    }

    /** The daemon: it answers within the time asked for, give or take, and may answer without a code. */
    method WaitOnce(timeout: real) returns (a: Answer)
      requires Valid() && timeout > 0.0
      modifies `now, `blanks, `answers
      ensures old(now) <= now <= old(now) + timeout + slack
      ensures answers == old(answers) + [a]
      ensures blanks <= old(blanks)
      ensures a.NoCode? ==> now >= old(now) + timeout || blanks < old(blanks)
    {
      var any: real := *;
      if * {
        now := Clamp(any, now, now + timeout + slack);
        var code: int := *;
        a := Exited(code);
      } else if * {
        now := Clamp(any, now, now + timeout + slack);
        a := Raised;
      } else if * {
        if blanks > 0 {
          now, blanks := Clamp(any, now, now + timeout + slack), blanks - 1;
          a := NoCode;
        } else {
          now := now + timeout;
          a := NoCode;
        }
      } else {
        now := Clamp(any, now + timeout, now + timeout + slack);
        a := NoCode;
      }
      answers := answers + [a];
    }

    method OnTick()
      requires Valid()
      modifies `now
      ensures old(now) <= now <= old(now) + callback
    {
      var any: real := *;
      now := Clamp(any, now, now + callback);
    }

    /**
     `_ContainerHandle.wait`. However slow the callbacks, the wait ends; it overruns by no more than
     one of them; and it gives up only when its time is up. A wait that is not sliced can
     also give up at an answer without a code.
     */
    method Wait(timeout: real) returns (a: Answer)
      requires Valid() && timeout > 0.0
      modifies `now, `blanks, `answers
      ensures old(now) <= now <= old(now) + timeout + Lag()
      ensures EndsWith(answers, old(answers), a)
      ensures !a.NoCode? ==> now <= old(now) + timeout + slack
      ensures blanks <= old(blanks)
      ensures a.NoCode? ==> now >= old(now) + timeout || (!sliced && blanks < old(blanks))
    {
      if !sliced {
        a := WaitOnce(timeout);
        return;
      }
      var deadline := now + timeout;
      ghost var slices := EnoughSlices(timeout, tick);
      while true
        invariant old(now) <= now <= deadline + Lag()
        invariant blanks <= old(blanks) && EndsWith(answers, old(answers), NoCode)
        invariant deadline - now <= Reach(slices, tick)
        decreases blanks, slices
      {
        var remaining := deadline - now;
        if remaining <= 0.0 {
          return NoCode;
        }
        a := WaitOnce(RealMin(remaining, tick));
        if !a.NoCode? {
          return;
        }
        OnTick();
        if deadline - now <= remaining - RealMin(remaining, tick) {
          SliceProgress(remaining, deadline - now, tick, slices);
          slices := slices - 1;
        }
      }
    }

    method Terminate()
      modifies `signals
      ensures signals == old(signals) + [Term(now)]
    {
      signals := signals + [Term(now)];
    }

    method ForceKill()
      modifies `signals
      ensures signals == old(signals) + [Kill(now)]
    {
      signals := signals + [Kill(now)];
    }
  }

  datatype Verdict = FinishedInTime | Terminated | Killed | Escaped

  datatype Outcome =
    | Outcome(verdict: Verdict, exitCode: Option<int>, waited: real)
    | BadTimeout
    | BadGrace
    | WaitRaised

  const CONFIRM := 5.0

  /** How long the kill is given to land. */
  function ConfirmWait(grace: real): real {
    if RealMin(grace, CONFIRM) == 0.0 then CONFIRM else RealMin(grace, CONFIRM)
  }

  /** As long as the grace period, up to five seconds; five if there was none. */
  lemma ConfirmWaitMeaning(grace: real)
    requires grace >= 0.0
    ensures ConfirmWait(grace) == if 0.0 < grace < 5.0 then grace else 5.0
  {
  }

  /** The signals an outcome comes with, and that each is sent only when its time has come. */
  predicate Escalated(sent: seq<Signal>, start: real, timeout: real, grace: real) {
    || sent == []
    || (|sent| == 1 && sent[0].Term? && sent[0].at >= start + timeout)
    || (|sent| == 2 && sent[0].Term? && sent[1].Kill? && sent[0].at >= start + timeout
        && sent[1].at >= sent[0].at + grace)
  }

  /** How many signals each ending takes. */
  function Severity(v: Verdict): nat {
    match v
    case FinishedInTime => 0
    case Terminated => 1
    case Killed => 2
    case Escaped => 2
  }

  /** How long each ending may take. */
  function Bound(v: Verdict, timeout: real, grace: real, lag: real): real {
    match v
    case FinishedInTime => timeout + lag
    case Terminated => timeout + grace + 2.0 * lag
    case Killed => timeout + grace + ConfirmWait(grace) + 3.0 * lag
    case Escaped => timeout + grace + ConfirmWait(grace) + 3.0 * lag
  }

  /**
   `enforce_deadline`: SIGTERM never before the deadline, SIGKILL only after SIGTERM and the grace
   period, nothing sent to a container that finished, the exit code that the daemon reported, and a
   bound on the whole.
   */
  method EnforceDeadline(c: Container, timeout: real, grace: real) returns (o: Outcome)
    requires c.Valid()
    modifies c
    ensures timeout <= 0.0 <==> o.BadTimeout?
    ensures timeout > 0.0 && grace < 0.0 <==> o.BadGrace?
    ensures o.BadTimeout? || o.BadGrace? ==>
              c.signals == old(c.signals) && c.now == old(c.now) && c.answers == old(c.answers)
    ensures old(c.signals) <= c.signals
    ensures var sent := c.signals[|old(c.signals)|..];
            && |sent| <= 2 && (|sent| >= 1 ==> sent[0].Term?) && (|sent| == 2 ==> sent[1].Kill?)
            && (c.sliced || c.blanks == old(c.blanks) ==> Escalated(sent, old(c.now), timeout, grace))
            && (o.Outcome? ==> |sent| == Severity(o.verdict))
    ensures o.WaitRaised? ==> EndsWith(c.answers, old(c.answers), Raised)
    ensures o.Outcome? ==>
              && o.waited == c.now - old(c.now)
              && o.waited <= Bound(o.verdict, timeout, grace, c.Lag()) <= timeout + grace + CONFIRM + 3.0 * c.Lag()
              && (o.exitCode.None? <==> o.verdict.Escaped?)
              && EndsWith(c.answers, old(c.answers), if o.exitCode.Some? then Exited(o.exitCode.value) else NoCode)
              && (c.sliced || c.blanks == old(c.blanks) ==>
                    && (o.verdict.Terminated? ==> o.waited >= timeout && grace > 0.0)
                    && (o.verdict.Killed? ==> o.waited >= timeout + grace)
                    && (o.verdict.Escaped? ==> o.waited >= timeout + grace + ConfirmWait(grace)))
  {
    if timeout <= 0.0 {
      return BadTimeout;
    }
    if grace < 0.0 {
      return BadGrace;
    }
    var started := c.now;
    ghost var before := c.signals;
    var a := c.Wait(timeout);
    if a.Raised? {
      assert c.signals[|before|..] == [];
      return WaitRaised;
    }
    if a.Exited? {
      assert c.signals[|before|..] == [];
      return Outcome(FinishedInTime, Some(a.code), c.now - started);
    }
    ghost var asked := c.now;
    c.Terminate();
    assert c.signals[|before|..] == [Term(asked)];
    if grace > 0.0 {
      a := c.Wait(grace);
      if a.Raised? {
        return WaitRaised;
      }
      if a.Exited? {
        return Outcome(Terminated, Some(a.code), c.now - started);
      }
    }
    ghost var forced := c.now;
    c.ForceKill();
    assert c.signals[|before|..] == [Term(asked), Kill(forced)];
    a := c.Wait(ConfirmWait(grace));
    if a.Raised? {
      return WaitRaised;
    }
    if a.Exited? {
      return Outcome(Killed, Some(a.code), c.now - started);
    }
    o := Outcome(Escaped, None, c.now - started);
  }
}
