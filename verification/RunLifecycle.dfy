/**
 A run's life as a protocol: conditional claim and worker finish (core/pipeline/scan.py), orphan
 sweep (core/pipeline/recovery.py), dispatch after commit (core/orchestrator/tasks.py) and
 duplicate deliveries (core/orchestrator/scan_tasks.py).
 */
module RunLifecycle {
  import opened Options
  import opened Order

  type Id = string

  datatype Status = Queued | Running | Completed | Degraded | Failed | Cancelled

  predicate IsTerminal(s: Status) {
    s.Completed? || s.Degraded? || s.Failed? || s.Cancelled?
  }

  /** Times are seconds on the database's clock. */
  datatype Run = Run(status: Status, createdAt: int, startedAt: Option<int>, finishedAt: Option<int>)

  datatype AuditEntry = RunRequeued(run: Id, attempt: nat) | RunOrphaned(run: Id)

  datatype Db = Db(runs: map<Id, Run>, audit: seq<AuditEntry>)

  datatype Settings = Settings(queuedGrace: int, runningTimeout: int, maxRequeues: nat)

  // ----- the transactions

  predicate Claimable(db: Db, id: Id) {
    id in db.runs && db.runs[id].status == Queued
  }

  /** `_claim`: one conditional update. */
  function Claim(db: Db, id: Id, now: int): Db {
    if Claimable(db, id)
    then db.(runs := db.runs[id := db.runs[id].(status := Running, startedAt := Some(now))])
    else db
  }

  /** The end of `run_scan`: an unconditional write. */
  function Finish(db: Db, id: Id, status: Status, now: int): Db {
    if id in db.runs
    then db.(runs := db.runs[id := db.runs[id].(status := status, finishedAt := Some(now))])
    else db
  }

  /** `_requeue_attempts`, counted from the audit log. */
  function Attempts(audit: seq<AuditEntry>, id: Id): nat {
    if audit == [] then 0
    else
      var e := audit[|audit| - 1];
      Attempts(audit[..|audit| - 1], id) + if e.RunRequeued? && e.run == id then 1 else 0
  }

  function Anchor(r: Run): int {
    if r.startedAt.Some? then r.startedAt.value else r.createdAt
  }

  datatype Verdict = Leave | Requeue | GiveUp

  /** What the sweep decides about one candidate. */
  function Judge(db: Db, id: Id, now: int, cfg: Settings): Verdict
    requires id in db.runs
  {
    var r := db.runs[id];
    var age := now - Anchor(r);
    if r.status == Queued && r.startedAt.None? then
      if age < cfg.queuedGrace then Leave
      else if Attempts(db.audit, id) >= cfg.maxRequeues then GiveUp
      else Requeue
    else if age >= cfg.runningTimeout then GiveUp
    else Leave
  }

  /** `_fail`. */
  function Fail(db: Db, id: Id, now: int): Db
    requires id in db.runs
  {
    Db(db.runs[id := db.runs[id].(status := Failed, finishedAt := Some(now))], db.audit + [RunOrphaned(id)])
  }

  function SweepRun(db: Db, id: Id, now: int, cfg: Settings): Db
    requires id in db.runs
  {
    match Judge(db, id, now, cfg)
    case Leave => db
    case Requeue => db.(audit := db.audit + [RunRequeued(id, Attempts(db.audit, id) + 1)])
    case GiveUp => Fail(db, id, now)
  }

  predicate IsCandidate(db: Db, id: Id) {
    id in db.runs && (db.runs[id].status == Queued || db.runs[id].status == Running)
  }

  /** `order` is what the sweep's query returns: every queued or running run, once. */
  ghost predicate IsQuery(db: Db, order: seq<Id>) {
    NoDuplicates(order) && forall id :: id in order <==> IsCandidate(db, id)
  }

  predicate AllKnown(db: Db, order: seq<Id>) {
    forall i :: 0 <= i < |order| ==> order[i] in db.runs
  }

  lemma QueryIsKnown(db: Db, order: seq<Id>)
    requires IsQuery(db, order)
    ensures AllKnown(db, order)
  {
    forall i | 0 <= i < |order|
      ensures order[i] in db.runs
    {
      assert order[i] in order && IsCandidate(db, order[i]);
    }
  }

  datatype Swept = Swept(db: Db, requeued: seq<Id>, failed: seq<Id>)

  function Sweep(db: Db, order: seq<Id>, now: int, cfg: Settings): (r: Swept)
    requires AllKnown(db, order)
    ensures r.db.runs.Keys == db.runs.Keys
  {
    if order == [] then Swept(db, [], [])
    else
      var n := |order| - 1;
      var before := Sweep(db, order[..n], now, cfg);
      var verdict := Judge(before.db, order[n], now, cfg);
      Swept(SweepRun(before.db, order[n], now, cfg),
            before.requeued + (if verdict.Requeue? then [order[n]] else []),
            before.failed + (if verdict.GiveUp? then [order[n]] else []))
  }

  lemma SweepSnoc(db: Db, order: seq<Id>, i: nat, now: int, cfg: Settings)
    requires AllKnown(db, order) && i < |order|
    ensures var before := Sweep(db, order[..i], now, cfg);
            order[i] in before.db.runs
            && var verdict := Judge(before.db, order[i], now, cfg);
               Sweep(db, order[..i + 1], now, cfg)
               == Swept(SweepRun(before.db, order[i], now, cfg),
                        before.requeued + (if verdict.Requeue? then [order[i]] else []),
                        before.failed + (if verdict.GiveUp? then [order[i]] else []))
  {
    hide Judge, SweepRun;
    assert order[..i + 1][..i] == order[..i];
  }

  // ----- the same transactions on tables

  class Tables {
    var runs: map<Id, Run>
    var audit: seq<AuditEntry>

    function View(): Db
      reads this
    {
      Db(runs, audit)
    }

    constructor ()
      ensures View() == Db(map[], [])
    {
      runs, audit := map[], [];
    }

    method ClaimRun(id: Id, now: int) returns (claimed: bool)
      modifies this
      ensures View() == Claim(old(View()), id, now)
      ensures claimed == Claimable(old(View()), id)
    {
      claimed := id in runs && runs[id].status == Queued;
      if claimed {
        runs := runs[id := runs[id].(status := Running, startedAt := Some(now))];
      }
    }

    method FinishRun(id: Id, status: Status, now: int)
      modifies this
      ensures View() == Finish(old(View()), id, status, now)
    {
      if id in runs {
        runs := runs[id := runs[id].(status := status, finishedAt := Some(now))];
      }
    }

    method RequeueAttempts(id: Id) returns (n: nat)
      ensures n == Attempts(audit, id)
    {
      n := 0;
      for i := 0 to |audit|
        invariant n == Attempts(audit[..i], id)
      {
        assert audit[..i + 1][..i] == audit[..i];
        if audit[i].RunRequeued? && audit[i].run == id {
          n := n + 1;
        }
      }
      assert audit[..|audit|] == audit;
    }

    method FailRun(id: Id, now: int)
      requires id in runs
      modifies this
      ensures View() == Fail(old(View()), id, now)
    {
      runs := runs[id := runs[id].(status := Failed, finishedAt := Some(now))];
      audit := audit + [RunOrphaned(id)];
    }

    /** `sweep_orphaned_runs` over the rows its query returned. */
    method SweepOrphanedRuns(order: seq<Id>, now: int, cfg: Settings) returns (requeued: seq<Id>, failed: seq<Id>)
      requires AllKnown(View(), order)
      modifies this
      ensures Swept(View(), requeued, failed) == Sweep(old(View()), order, now, cfg)
    {
      requeued, failed := [], [];
      ghost var start := View();
      for i := 0 to |order|
        invariant runs.Keys == start.runs.Keys
        invariant Swept(View(), requeued, failed) == Sweep(start, order[..i], now, cfg)
      {
        SweepSnoc(start, order, i, now, cfg);
        hide Sweep, Judge, SweepRun;
        var verdict := SweepOne(order[i], now, cfg);
        if verdict == Requeue {
          requeued := requeued + [order[i]];
        } else if verdict == GiveUp {
          failed := failed + [order[i]];
        }
      }
      assert order[..|order|] == order;
    }

    /** The sweep's treatment of one run. */
    method SweepOne(id: Id, now: int, cfg: Settings) returns (verdict: Verdict)
      requires id in runs
      modifies this
      ensures verdict == Judge(old(View()), id, now, cfg)
      ensures View() == SweepRun(old(View()), id, now, cfg) && runs.Keys == old(runs.Keys)
    {
      hide Attempts, Anchor;
      var run := runs[id];
      var age := now - Anchor(run);
      if run.status == Queued && run.startedAt.None? {
        if age < cfg.queuedGrace {
          return Leave;
        }
        var attempts := RequeueAttempts(id);
        if attempts >= cfg.maxRequeues {
          FailRun(id, now);
          return GiveUp;
        }
        audit := audit + [RunRequeued(id, attempts + 1)];
        return Requeue;
      }
      if age >= cfg.runningTimeout {
        FailRun(id, now);
        return GiveUp;
      }
      verdict := Leave;
    }
  }

  // ----- the system

  /** Database, messages in the broker, workers holding a claim, and the claims ever granted. */
  datatype Sys = Sys(db: Db, broker: multiset<Id>, working: multiset<Id>, claims: multiset<Id>)

  datatype Action =
    | Submit(id: Id, now: int)
    | Deliver(id: Id, now: int)
    | Duplicate(id: Id)
    | Lose(id: Id)
    | Conclude(id: Id, status: Status, now: int)
    | Die(id: Id)
    | Recover(order: seq<Id>, now: int)

  /** What a worker writes at the end: a failure, or the outcome of its stages. */
  predicate Outcome(s: Status) {
    s.Completed? || s.Degraded? || s.Failed?
  }

  ghost function Step(s: Sys, a: Action, cfg: Settings): Sys {
    match a
    case Submit(id, now) =>
      if id in s.db.runs then s
      else s.(db := s.db.(runs := s.db.runs[id := Run(Queued, now, None, None)]), broker := s.broker + multiset{id})
    case Deliver(id, now) =>
      if id !in s.broker then s
      else
        var taken := s.(broker := s.broker - multiset{id});
        if Claimable(s.db, id)
        then taken.(db := Claim(s.db, id, now), working := s.working + multiset{id}, claims := s.claims + multiset{id})
        else taken
    case Duplicate(id) => s.(broker := s.broker + multiset{id})
    case Lose(id) => s.(broker := s.broker - multiset{id})
    case Conclude(id, status, now) =>
      if id in s.working && Outcome(status)
      then s.(db := Finish(s.db, id, status, now), working := s.working - multiset{id})
      else s
    case Die(id) => s.(working := s.working - multiset{id})
    case Recover(order, now) =>
      if !IsQuery(s.db, order) then s
      else
        QueryIsKnown(s.db, order);
        var swept := Sweep(s.db, order, now, cfg);
        s.(db := swept.db, broker := s.broker + multiset(swept.requeued))
  }

  ghost function Exec(s: Sys, actions: seq<Action>, cfg: Settings): Sys {
    if actions == [] then s else Step(Exec(s, actions[..|actions| - 1], cfg), actions[|actions| - 1], cfg)
  }

  const EMPTY := Sys(Db(map[], []), multiset{}, multiset{}, multiset{})

  // ----- what one sweep does to one run

  lemma SweepRunElsewhere(db: Db, id: Id, other: Id, now: int, cfg: Settings)
    requires id in db.runs && other != id
    ensures other in SweepRun(db, id, now, cfg).runs <==> other in db.runs
    ensures other in db.runs ==> SweepRun(db, id, now, cfg).runs[other] == db.runs[other]
    ensures Attempts(SweepRun(db, id, now, cfg).audit, other) == Attempts(db.audit, other)
  {
    AttemptsSnoc(db.audit, RunRequeued(id, Attempts(db.audit, id) + 1), other);
    AttemptsSnoc(db.audit, RunOrphaned(id), other);
  }

  lemma AttemptsSnoc(audit: seq<AuditEntry>, e: AuditEntry, id: Id)
    ensures Attempts(audit + [e], id) == Attempts(audit, id) + if e.RunRequeued? && e.run == id then 1 else 0
  {
    assert (audit + [e])[..|audit|] == audit;
  }

  /** A run in one state that a sweep may have touched. */
  ghost predicate SameFor(a: Db, b: Db, id: Id) {
    && (id in a.runs <==> id in b.runs)
    && (id in a.runs ==> a.runs[id] == b.runs[id])
    && Attempts(a.audit, id) == Attempts(b.audit, id)
  }

  lemma SameAttempts(a: Db, b: Db, id: Id)
    requires SameFor(a, b, id)
    ensures Attempts(a.audit, id) == Attempts(b.audit, id) && (id in a.runs <==> id in b.runs)
  {
    hide Attempts;
  }

  lemma SweepCases(db: Db, id: Id, now: int, cfg: Settings, entry: AuditEntry)
    requires id in db.runs && entry == RunRequeued(id, Attempts(db.audit, id) + 1)
    ensures var v := Judge(db, id, now, cfg);
            SweepRun(db, id, now, cfg)
            == if v.Leave? then db else if v.Requeue? then db.(audit := db.audit + [entry]) else Fail(db, id, now)
  {
    hide Judge, Attempts, Fail;
  }

  lemma SameJudgement(a: Db, b: Db, id: Id, now: int, cfg: Settings)
    requires id in a.runs && SameFor(a, b, id)
    ensures Judge(a, id, now, cfg) == Judge(b, id, now, cfg)
  {
    hide Attempts, Anchor;
  }

  lemma SameAfterEntry(a: Db, b: Db, id: Id, entry: AuditEntry)
    requires SameFor(a, b, id)
    ensures SameFor(a.(audit := a.audit + [entry]), b.(audit := b.audit + [entry]), id)
  {
    AttemptsSnoc(a.audit, entry, id);
    AttemptsSnoc(b.audit, entry, id);
    hide Attempts;
  }

  lemma SameAfterFailure(a: Db, b: Db, id: Id, now: int)
    requires id in a.runs && SameFor(a, b, id)
    ensures SameFor(Fail(a, id, now), Fail(b, id, now), id)
  {
    AttemptsSnoc(a.audit, RunOrphaned(id), id);
    AttemptsSnoc(b.audit, RunOrphaned(id), id);
    hide Attempts;
  }

  /** A sweep treats each candidate once and as if it were alone, and leaves every other run be. */
  lemma {:induction false} SweepIsPerRun(db: Db, order: seq<Id>, now: int, cfg: Settings, id: Id)
    requires NoDuplicates(order) && AllKnown(db, order)
    ensures id !in order ==> SameFor(Sweep(db, order, now, cfg).db, db, id)
    ensures id in order ==> id in db.runs && SameFor(Sweep(db, order, now, cfg).db, SweepRun(db, id, now, cfg), id)
    ensures id in Sweep(db, order, now, cfg).requeued <==> id in order && Judge(db, id, now, cfg).Requeue?
    ensures id in Sweep(db, order, now, cfg).failed <==> id in order && Judge(db, id, now, cfg).GiveUp?
  {
    if order != [] {
      var n := |order| - 1;
      var before := Sweep(db, order[..n], now, cfg).db;
      SweepIsPerRun(db, order[..n], now, cfg, id);
      if id == order[n] {
        assert id !in order[..n];
        hide SweepRun, Judge, SameFor, Fail, Attempts;
        SameJudgement(before, db, id, now, cfg);
        SameAttempts(before, db, id);
        var entry := RunRequeued(id, Attempts(db.audit, id) + 1);
        SweepCases(before, id, now, cfg, entry);
        SweepCases(db, id, now, cfg, entry);
        SameAfterEntry(before, db, id, entry);
        SameAfterFailure(before, db, id, now);
      } else {
        SweepRunElsewhere(before, order[n], id, now, cfg);
        assert id in order <==> id in order[..n];
      }
    }
  }

  // ----- what every interleaving keeps

  ghost predicate Good(s: Sys, id: Id, cfg: Settings) {
    && s.working[id] <= s.claims[id] <= 1
    && Attempts(s.db.audit, id) <= cfg.maxRequeues
    && (id !in s.db.runs ==> s.claims[id] == 0 && Attempts(s.db.audit, id) == 0)
    && (id in s.db.runs ==>
          var r := s.db.runs[id];
          && (r.status == Queued ==> s.claims[id] == 0)
          && (s.claims[id] == 0 ==> r.startedAt.None? && (r.status == Queued || r.status == Failed))
          && (r.status == Running ==> r.startedAt.Some?))
  }

  lemma SweepKeepsGood(s: Sys, id: Id, cfg: Settings, order: seq<Id>, now: int)
    requires Good(s, id, cfg) && IsQuery(s.db, order)
    ensures Good(Step(s, Recover(order, now), cfg), id, cfg)
  {
    hide IsQuery, Sweep;
    QueryIsKnown(s.db, order);
    QueryDistinct(s.db, order);
    SweepIsPerRun(s.db, order, now, cfg, id);
    if id in order {
      AttemptsSnoc(s.db.audit, RunRequeued(id, Attempts(s.db.audit, id) + 1), id);
      AttemptsSnoc(s.db.audit, RunOrphaned(id), id);
    }
  }

  lemma QueryDistinct(db: Db, order: seq<Id>)
    ensures IsQuery(db, order) ==> NoDuplicates(order) && forall id :: id in order <==> IsCandidate(db, id)
  {
  }

  lemma StepKeepsGood(s: Sys, a: Action, id: Id, cfg: Settings)
    requires Good(s, id, cfg)
    ensures Good(Step(s, a, cfg), id, cfg)
  {
    if a.Recover? && IsQuery(s.db, a.order) {
      SweepKeepsGood(s, id, cfg, a.order, a.now);
    }
  }

  /** At most one claim per run ever succeeds, and requeue records stay within the limit. */
  lemma {:induction false} AtMostOneClaim(actions: seq<Action>, id: Id, cfg: Settings)
    ensures Good(Exec(EMPTY, actions, cfg), id, cfg)
    ensures Exec(EMPTY, actions, cfg).claims[id] <= 1
    ensures Attempts(Exec(EMPTY, actions, cfg).db.audit, id) <= cfg.maxRequeues
  {
    hide Step;
    if actions != [] {
      AtMostOneClaim(actions[..|actions| - 1], id, cfg);
      StepKeepsGood(Exec(EMPTY, actions[..|actions| - 1], cfg), actions[|actions| - 1], id, cfg);
    }
  }

  /** What one step may do to a run that exists. */
  lemma StepOnRun(s: Sys, a: Action, id: Id, cfg: Settings)
    requires id in s.db.runs
    ensures id in Step(s, a, cfg).db.runs
    ensures Step(s, a, cfg).db.runs[id].createdAt == s.db.runs[id].createdAt
    ensures Step(s, a, cfg).db.runs[id] != s.db.runs[id] ==>
              || (a.Deliver? && a.id == id && s.db.runs[id].status == Queued)
              || (a.Conclude? && a.id == id && id in s.working)
              || (a.Recover? && IsCandidate(s.db, id) && Step(s, a, cfg).db.runs[id].status == Failed)
  {
    if a.Recover? && IsQuery(s.db, a.order) {
      QueryIsKnown(s.db, a.order);
      SweepIsPerRun(s.db, a.order, a.now, cfg, id);
    }
  }

  /** Nothing puts a run back into the queue: not a sweep, not a redelivery, not a worker. */
  lemma NeverQueuedAgain(s: Sys, a: Action, id: Id, cfg: Settings)
    requires id in s.db.runs && s.db.runs[id].status != Queued
    ensures id in Step(s, a, cfg).db.runs && Step(s, a, cfg).db.runs[id].status != Queued
  {
    StepOnRun(s, a, id, cfg);
  }

  /** A run somebody is working on was claimed, and a terminal run without a worker never changes. */
  lemma {:induction false} TerminalWithoutWorkerIsFinal(s: Sys, actions: seq<Action>, id: Id, cfg: Settings)
    requires id in s.db.runs && IsTerminal(s.db.runs[id].status) && id !in s.working
    ensures id in Exec(s, actions, cfg).db.runs
    ensures Exec(s, actions, cfg).db.runs[id] == s.db.runs[id] && id !in Exec(s, actions, cfg).working
  {
    if actions != [] {
      var n := |actions| - 1;
      TerminalWithoutWorkerIsFinal(s, actions[..n], id, cfg);
      var before := Exec(s, actions[..n], cfg);
      StepOnRun(before, actions[n], id, cfg);
      NoNewWorker(before, actions[n], id, cfg);
    }
  }

  lemma NoNewWorker(s: Sys, a: Action, id: Id, cfg: Settings)
    requires id in s.db.runs && s.db.runs[id].status != Queued && id !in s.working
    ensures id !in Step(s, a, cfg).working
  {
  }

  ghost predicate Final(s: Sys, id: Id, cfg: Settings)
    requires id in s.db.runs
  {
    forall actions :: id in Exec(s, actions, cfg).db.runs
                      && Exec(s, actions, cfg).db.runs[id].status == s.db.runs[id].status
  }

  /**
   Terminal is not absorbing in general: a terminal status is final exactly when no worker still
   holds the run's claim. A worker's last write can replace a sweep's FAILED.
   */
  lemma TerminalIsFinalIffUnheld(s: Sys, id: Id, cfg: Settings)
    requires id in s.db.runs && IsTerminal(s.db.runs[id].status)
    ensures Final(s, id, cfg) <==> id !in s.working
  {
    if id in s.working {
      var other := if s.db.runs[id].status == Completed then Failed else Completed;
      var late := [Conclude(id, other, 0)];
      assert late[..0] == [];
      assert Exec(s, late, cfg) == Step(s, late[0], cfg);
      assert Exec(s, late, cfg).db.runs[id].status == other;
    } else {
      forall actions
        ensures id in Exec(s, actions, cfg).db.runs
        ensures Exec(s, actions, cfg).db.runs[id].status == s.db.runs[id].status
      {
        TerminalWithoutWorkerIsFinal(s, actions, id, cfg);
      }
    }
  }

  // ----- nothing is queued or running for ever

  /** Sweeps of `actions` that found run `id` past its grace period. */
  ghost function LateSweeps(s: Sys, actions: seq<Action>, id: Id, cfg: Settings): nat {
    if actions == [] then 0
    else
      var n := |actions| - 1;
      var before, a := Exec(s, actions[..n], cfg), actions[n];
      LateSweeps(s, actions[..n], id, cfg)
        + if && a.Recover? && IsQuery(before.db, a.order) && id in before.db.runs
             && a.now - before.db.runs[id].createdAt >= cfg.queuedGrace then 1 else 0
  }

  lemma LateSweepCounts(s: Sys, a: Action, id: Id, cfg: Settings)
    requires Good(s, id, cfg) && id in s.db.runs && s.db.runs[id].status == Queued
    requires Step(s, a, cfg).db.runs[id].status == Queued
    ensures Attempts(Step(s, a, cfg).db.audit, id)
         >= Attempts(s.db.audit, id)
            + if && a.Recover? && IsQuery(s.db, a.order)
                 && a.now - s.db.runs[id].createdAt >= cfg.queuedGrace then 1 else 0
  {
    hide IsQuery, Sweep, Attempts;
    if a.Recover? && IsQuery(s.db, a.order) {
      QueryIsKnown(s.db, a.order);
      SweepCounts(s.db, a.order, a.now, cfg, id);
    }
  }

  lemma SweepCounts(db: Db, order: seq<Id>, now: int, cfg: Settings, id: Id)
    requires IsQuery(db, order) && AllKnown(db, order)
    requires id in db.runs && db.runs[id].status == Queued && db.runs[id].startedAt.None?
    requires id in Sweep(db, order, now, cfg).db.runs && Sweep(db, order, now, cfg).db.runs[id].status == Queued
    ensures Attempts(Sweep(db, order, now, cfg).db.audit, id)
         >= Attempts(db.audit, id) + if now - db.runs[id].createdAt >= cfg.queuedGrace then 1 else 0
  {
    QueryDistinct(db, order);
    SweepIsPerRun(db, order, now, cfg, id);
    assert IsCandidate(db, id);
    assert id in order;
    hide Sweep, NoDuplicates, AllKnown, IsQuery;
    var entry := RunRequeued(id, Attempts(db.audit, id) + 1);
    AttemptsSnoc(db.audit, entry, id);
    SweepCases(db, id, now, cfg, entry);
    hide SweepRun, Attempts;
  }

  /** A run still queued has been requeued at every late sweep so far. */
  lemma {:induction false} QueuedMeansRequeued(actions: seq<Action>, id: Id, cfg: Settings)
    ensures var s := Exec(EMPTY, actions, cfg);
            && (id !in s.db.runs ==> LateSweeps(EMPTY, actions, id, cfg) == 0)
            && (id in s.db.runs && s.db.runs[id].status == Queued ==>
                  LateSweeps(EMPTY, actions, id, cfg) <= Attempts(s.db.audit, id))
  {
    if actions != [] {
      var n := |actions| - 1;
      var before := Exec(EMPTY, actions[..n], cfg);
      QueuedMeansRequeued(actions[..n], id, cfg);
      AtMostOneClaim(actions[..n], id, cfg);
      hide Step, Good, IsQuery;
      if id in before.db.runs {
        StepOnRun(before, actions[n], id, cfg);
        if before.db.runs[id].status == Queued {
          if Step(before, actions[n], cfg).db.runs[id].status == Queued {
            LateSweepCounts(before, actions[n], id, cfg);
          }
        } else {
          NeverQueuedAgain(before, actions[n], id, cfg);
        }
      }
    }
  }

  /** A run that nobody ever claims is FAILED after at most max + 1 sweeps past its grace period. */
  lemma UnclaimedRunFails(actions: seq<Action>, id: Id, cfg: Settings)
    requires LateSweeps(EMPTY, actions, id, cfg) > cfg.maxRequeues
    requires Exec(EMPTY, actions, cfg).claims[id] == 0
    ensures id in Exec(EMPTY, actions, cfg).db.runs
    ensures Exec(EMPTY, actions, cfg).db.runs[id].status == Failed
  {
    hide Exec, LateSweeps;
    AtMostOneClaim(actions, id, cfg);
    QueuedMeansRequeued(actions, id, cfg);
  }

  /** A claimed run whose worker died is FAILED by the first sweep past the running timeout. */
  lemma AbandonedRunFails(s: Sys, id: Id, order: seq<Id>, now: int, cfg: Settings)
    requires Good(s, id, cfg) && IsQuery(s.db, order)
    requires id in s.db.runs && s.db.runs[id].status == Running
    requires now - Anchor(s.db.runs[id]) >= cfg.runningTimeout
    ensures id in Step(s, Recover(order, now), cfg).db.runs
    ensures Step(s, Recover(order, now), cfg).db.runs[id].status == Failed
  {
    QueryIsKnown(s.db, order);
    QueryDistinct(s.db, order);
    SweepIsPerRun(s.db, order, now, cfg, id);
    assert IsCandidate(s.db, id);
  }

  /** A scan within its timeouts is never failed by the sweep while its worker runs. */
  lemma LiveRunIsSpared(s: Sys, id: Id, order: seq<Id>, now: int, cfg: Settings)
    requires IsQuery(s.db, order) && id in s.db.runs && s.db.runs[id].status == Running
    requires now - Anchor(s.db.runs[id]) < cfg.runningTimeout
    ensures Step(s, Recover(order, now), cfg).db.runs[id] == s.db.runs[id]
  {
    QueryIsKnown(s.db, order);
    QueryDistinct(s.db, order);
    SweepIsPerRun(s.db, order, now, cfg, id);
  }

  // ----- exactly what one sweep does

  /** The requeue records of a run, by their place in the audit log. */
  function Requeues(audit: seq<AuditEntry>, id: Id): set<nat> {
    set i: nat | i < |audit| && audit[i].RunRequeued? && audit[i].run == id
  }

  /** `_requeue_attempts` counts them. */
  lemma {:induction false} AttemptsAreRecords(audit: seq<AuditEntry>, id: Id)
    ensures Attempts(audit, id) == |Requeues(audit, id)|
  {
    if audit == [] {
      assert Requeues(audit, id) == {};
    } else {
      var n := |audit| - 1;
      AttemptsAreRecords(audit[..n], id);
      OneMorePlace(Requeues(audit[..n], id), Requeues(audit, id), n, audit[n].RunRequeued? && audit[n].run == id);
    }
  }

  lemma {:induction false} RequeuedOnce(db: Db, order: seq<Id>, now: int, cfg: Settings, id: Id)
    requires NoDuplicates(order) && AllKnown(db, order)
    ensures multiset(Sweep(db, order, now, cfg).requeued)[id] <= 1
  {
    hide Judge, SweepRun;
    if order != [] {
      var n := |order| - 1;
      RequeuedOnce(db, order[..n], now, cfg, id);
      SweepIsPerRun(db, order[..n], now, cfg, id);
      assert order[n] !in order[..n];
    }
  }

  lemma SweepRunRecords(db: Db, id: Id, now: int, cfg: Settings)
    requires id in db.runs
    ensures var v, audit := Judge(db, id, now, cfg), SweepRun(db, id, now, cfg).audit;
            && db.audit <= audit
            && (v.Requeue? ==> RunRequeued(id, Attempts(db.audit, id) + 1) in audit)
            && (v.GiveUp? ==> RunOrphaned(id) in audit)
  {
    hide Judge, Attempts;
  }

  /** Whatever the sweep decides to do about a run is on record. */
  lemma {:induction false} SweepRecords(db: Db, order: seq<Id>, now: int, cfg: Settings, id: Id)
    requires NoDuplicates(order) && AllKnown(db, order) && id in order
    ensures var v, audit := Judge(db, id, now, cfg), Sweep(db, order, now, cfg).db.audit;
            && (v.Requeue? ==> RunRequeued(id, Attempts(db.audit, id) + 1) in audit)
            && (v.GiveUp? ==> RunOrphaned(id) in audit)
  {
    hide Judge, SweepRun, Attempts, SameFor;
    var n := |order| - 1;
    var before := Sweep(db, order[..n], now, cfg).db;
    SweepRunRecords(before, order[n], now, cfg);
    if id == order[n] {
      SweepIsPerRun(db, order[..n], now, cfg, id);
      SameJudgement(before, db, id, now, cfg);
      SameAttempts(before, db, id);
    } else {
      SweepRecords(db, order[..n], now, cfg, id);
    }
  }

  /** The sweep's new entries about a run: what it adds to the audit log and to the broker. */
  ghost predicate Added(s: Sys, t: Sys, id: Id, records: nat, messages: nat) {
    && |Requeues(t.db.audit, id)| == |Requeues(s.db.audit, id)| + records
    && t.broker[id] == s.broker[id] + messages
  }

  /** A candidate's row and requeue count after a sweep, by what the sweep decides about it. */
  lemma SweptRow(db: Db, order: seq<Id>, id: Id, now: int, cfg: Settings)
    requires NoDuplicates(order) && AllKnown(db, order) && id in order
    ensures var swept, v := Sweep(db, order, now, cfg).db, Judge(db, id, now, cfg);
            && id in swept.runs
            && (v.GiveUp? ==> swept.runs[id] == db.runs[id].(status := Failed, finishedAt := Some(now)))
            && (!v.GiveUp? ==> swept.runs[id] == db.runs[id])
            && Attempts(swept.audit, id) == Attempts(db.audit, id) + if v.Requeue? then 1 else 0
  {
    SweepIsPerRun(db, order, now, cfg, id);
    var entry := RunRequeued(id, Attempts(db.audit, id) + 1);
    SweepCases(db, id, now, cfg, entry);
    AttemptsSnoc(db.audit, entry, id);
    AttemptsSnoc(db.audit, RunOrphaned(id), id);
    hide Judge, SweepRun, Attempts, Sweep, NoDuplicates, AllKnown;
  }

  lemma SweptMessages(db: Db, order: seq<Id>, id: Id, now: int, cfg: Settings)
    requires NoDuplicates(order) && AllKnown(db, order) && id in order
    ensures multiset(Sweep(db, order, now, cfg).requeued)[id] == if Judge(db, id, now, cfg).Requeue? then 1 else 0
  {
    hide Judge, SweepRun, Attempts, Sweep, NoDuplicates, AllKnown, SameFor;
    SweepIsPerRun(db, order, now, cfg, id);
    RequeuedOnce(db, order, now, cfg, id);
  }

  lemma SweepByJudgement(s: Sys, id: Id, order: seq<Id>, now: int, cfg: Settings)
    requires IsQuery(s.db, order) && IsCandidate(s.db, id)
    ensures var t, v := Step(s, Recover(order, now), cfg), Judge(s.db, id, now, cfg);
            && id in t.db.runs
            && (v.GiveUp? ==> t.db.runs[id] == s.db.runs[id].(status := Failed, finishedAt := Some(now)))
            && (!v.GiveUp? ==> t.db.runs[id] == s.db.runs[id])
            && Added(s, t, id, if v.Requeue? then 1 else 0, if v.Requeue? then 1 else 0)
            && (v.Requeue? ==> RunRequeued(id, |Requeues(s.db.audit, id)| + 1) in t.db.audit)
            && (v.GiveUp? ==> RunOrphaned(id) in t.db.audit)
  {
    QueryDistinct(s.db, order);
    hide Judge, SweepRun, Attempts, Requeues, Sweep, NoDuplicates, AllKnown, IsQuery;
    QueryIsKnown(s.db, order);
    SweepRecords(s.db, order, now, cfg, id);
    SweptRow(s.db, order, id, now, cfg);
    SweptMessages(s.db, order, id, now, cfg);
    AttemptsAreRecords(s.db.audit, id);
    AttemptsAreRecords(Sweep(s.db, order, now, cfg).db.audit, id);
  }

  /**
   A queued run that nobody started: left alone within its grace period; past it put back on the
   broker with one more record, or FAILED once it has used up its requeues.
   */
  lemma SweepOfAQueuedRun(s: Sys, id: Id, order: seq<Id>, now: int, cfg: Settings)
    requires IsQuery(s.db, order) && id in s.db.runs
    requires s.db.runs[id].status == Queued && s.db.runs[id].startedAt.None?
    ensures var t, r := Step(s, Recover(order, now), cfg), s.db.runs[id];
            var late, spent := now - r.createdAt >= cfg.queuedGrace, |Requeues(s.db.audit, id)| >= cfg.maxRequeues;
            && id in t.db.runs
            && (!late ==> t.db.runs[id] == r && Added(s, t, id, 0, 0))
            && (late && !spent ==>
                  && t.db.runs[id] == r && Added(s, t, id, 1, 1)
                  && RunRequeued(id, |Requeues(s.db.audit, id)| + 1) in t.db.audit)
            && (late && spent ==>
                  && t.db.runs[id] == r.(status := Failed, finishedAt := Some(now)) && Added(s, t, id, 0, 0)
                  && RunOrphaned(id) in t.db.audit)
  {
    AttemptsAreRecords(s.db.audit, id);
    SweepByJudgement(s, id, order, now, cfg);
    hide Step, IsQuery, Attempts, Requeues, Added;
  }

  /** A run that was started: left alone within the running timeout, FAILED from then on, never requeued. */
  lemma SweepOfAStartedRun(s: Sys, id: Id, order: seq<Id>, now: int, cfg: Settings)
    requires IsQuery(s.db, order) && IsCandidate(s.db, id) && s.db.runs[id].startedAt.Some?
    ensures var t, r := Step(s, Recover(order, now), cfg), s.db.runs[id];
            && id in t.db.runs && Added(s, t, id, 0, 0)
            && (now - r.startedAt.value < cfg.runningTimeout ==> t.db.runs[id] == r)
            && (now - r.startedAt.value >= cfg.runningTimeout ==>
                  && t.db.runs[id] == r.(status := Failed, finishedAt := Some(now))
                  && RunOrphaned(id) in t.db.audit)
  {
    SweepByJudgement(s, id, order, now, cfg);
    hide Step, IsQuery, Attempts, Requeues, Added;
  }

  // ----- over every interleaving

  /** What a run's own row says of its past. */
  ghost predicate Consistent(s: Sys, id: Id, cfg: Settings) {
    id in s.db.runs ==>
      var r := s.db.runs[id];
      && (IsTerminal(r.status) <==> r.finishedAt.Some?)
      && (r.startedAt.Some? <==> s.claims[id] == 1)
      && (s.claims[id] == 0 && r.status == Failed ==> Attempts(s.db.audit, id) >= cfg.maxRequeues)
  }

  lemma SweepKeepsConsistent(s: Sys, order: seq<Id>, now: int, id: Id, cfg: Settings)
    requires Good(s, id, cfg) && Consistent(s, id, cfg) && IsQuery(s.db, order)
    ensures Consistent(Step(s, Recover(order, now), cfg), id, cfg)
  {
    QueryIsKnown(s.db, order);
    QueryDistinct(s.db, order);
    SweepIsPerRun(s.db, order, now, cfg, id);
    hide IsQuery, Sweep, Attempts, SweepRun, NoDuplicates, AllKnown;
    if id in order {
      SweptRow(s.db, order, id, now, cfg);
    }
  }

  lemma WorkKeepsConsistent(s: Sys, a: Action, id: Id, cfg: Settings)
    requires Good(s, id, cfg) && Consistent(s, id, cfg) && (a.Submit? || a.Deliver? || a.Conclude?)
    ensures Consistent(Step(s, a, cfg), id, cfg)
  {
    hide IsQuery, Sweep, Attempts;
  }

  lemma StepKeepsConsistent(s: Sys, a: Action, id: Id, cfg: Settings)
    requires Good(s, id, cfg) && Consistent(s, id, cfg)
    ensures Consistent(Step(s, a, cfg), id, cfg)
  {
    hide IsQuery, Sweep, Attempts, Good;
    if a.Submit? || a.Deliver? || a.Conclude? {
      WorkKeepsConsistent(s, a, id, cfg);
    } else if a.Recover? && IsQuery(s.db, a.order) {
      SweepKeepsConsistent(s, a.order, a.now, id, cfg);
    }
  }

  lemma {:induction false} ExecKeepsConsistent(actions: seq<Action>, id: Id, cfg: Settings)
    ensures Consistent(Exec(EMPTY, actions, cfg), id, cfg)
  {
    hide Step, Good, Consistent;
    if actions == [] {
      assert Consistent(EMPTY, id, cfg) by { NothingInconsistent(id, cfg); }
    } else {
      var n := |actions| - 1;
      ExecKeepsConsistent(actions[..n], id, cfg);
      AtMostOneClaim(actions[..n], id, cfg);
      StepKeepsConsistent(Exec(EMPTY, actions[..n], cfg), actions[n], id, cfg);
    }
  }

  lemma NothingInconsistent(id: Id, cfg: Settings)
    ensures Consistent(EMPTY, id, cfg)
  {
  }

  /**
   In every interleaving a run has an end time exactly when it is terminal, a start time exactly
   when it was claimed, and is FAILED without a claim only after all its requeues.
   */
  lemma RowTellsThePast(actions: seq<Action>, id: Id, cfg: Settings)
    requires id in Exec(EMPTY, actions, cfg).db.runs
    ensures var s := Exec(EMPTY, actions, cfg);
            var r := s.db.runs[id];
            && (IsTerminal(r.status) <==> r.finishedAt.Some?)
            && (r.startedAt.Some? <==> s.claims[id] == 1)
            && (s.claims[id] == 0 && r.status == Failed ==> |Requeues(s.db.audit, id)| == cfg.maxRequeues)
  {
    hide Exec, Attempts, Requeues;
    ExecKeepsConsistent(actions, id, cfg);
    AtMostOneClaim(actions, id, cfg);
    AttemptsAreRecords(Exec(EMPTY, actions, cfg).db.audit, id);
  }

  /** No worker of `id` concludes, and no sweep comes later than the timeout after `start`. */
  ghost predicate WithinTimeout(actions: seq<Action>, id: Id, start: int, cfg: Settings) {
    forall i :: 0 <= i < |actions| ==>
      && (actions[i].Conclude? ==> actions[i].id != id)
      && (actions[i].Recover? ==> actions[i].now - start < cfg.runningTimeout)
  }

  /**
   Whoever takes a queued run from the broker has the running timeout for it: whatever else happens
   in between, the run stays as it was claimed until its worker concludes or the time is up.
   */
  lemma {:induction false} ClaimedRunHasItsTime(s: Sys, id: Id, start: int, actions: seq<Action>, cfg: Settings)
    requires id in s.broker && id in s.db.runs && s.db.runs[id].status == Queued
    requires WithinTimeout(actions, id, start, cfg)
    ensures var t := Exec(Step(s, Deliver(id, start), cfg), actions, cfg);
            id in t.db.runs && t.db.runs[id] == s.db.runs[id].(status := Running, startedAt := Some(start))
  {
    if actions != [] {
      var n := |actions| - 1;
      ClaimedRunHasItsTime(s, id, start, actions[..n], cfg);
      var t := Exec(Step(s, Deliver(id, start), cfg), actions[..n], cfg);
      StepOnRun(t, actions[n], id, cfg);
      if actions[n].Recover? && IsQuery(t.db, actions[n].order) {
        LiveRunIsSpared(t, id, actions[n].order, actions[n].now, cfg);
      }
      hide WithinTimeout, IsQuery, Exec;
    }
  }

  lemma StepLeavesWorker(s: Sys, a: Action, id: Id, cfg: Settings)
    requires id in s.working && !((a.Conclude? || a.Die?) && a.id == id)
    ensures id in Step(s, a, cfg).working
  {
    hide IsQuery, Sweep, Finish, Claim, Claimable;
  }

  lemma {:induction false} WorkerStays(s: Sys, id: Id, start: int, actions: seq<Action>, cfg: Settings)
    requires id in s.broker && id in s.db.runs && s.db.runs[id].status == Queued
    requires WithinTimeout(actions, id, start, cfg)
    requires forall i :: 0 <= i < |actions| && actions[i].Die? ==> actions[i].id != id
    ensures id in Exec(Step(s, Deliver(id, start), cfg), actions, cfg).working
  {
    if actions != [] {
      var n := |actions| - 1;
      assert Exec(Step(s, Deliver(id, start), cfg), actions, cfg)
          == Step(Exec(Step(s, Deliver(id, start), cfg), actions[..n], cfg), actions[n], cfg);
      WorkerStays(s, id, start, actions[..n], cfg);
      hide *;
      StepLeavesWorker(Exec(Step(s, Deliver(id, start), cfg), actions[..n], cfg), actions[n], id, cfg);
    }
  }

  /**
   A worker that lives and concludes within the running timeout has the last word: whatever else happens
   meanwhile, the run ends with the outcome it reports, at the time it does.
   */
  lemma WorkerHasTheLastWord(s: Sys, id: Id, start: int, actions: seq<Action>, outcome: Status, end: int, cfg: Settings)
    requires id in s.broker && id in s.db.runs && s.db.runs[id].status == Queued
    requires WithinTimeout(actions, id, start, cfg)
    requires forall i :: 0 <= i < |actions| && actions[i].Die? ==> actions[i].id != id
    requires outcome == Completed || outcome == Degraded || outcome == Failed
    ensures var t := Exec(Step(s, Deliver(id, start), cfg), actions, cfg);
            var done := Step(t, Conclude(id, outcome, end), cfg);
            && id in done.db.runs
            && done.db.runs[id] == Run(outcome, s.db.runs[id].createdAt, Some(start), Some(end))
  {
    ClaimedRunHasItsTime(s, id, start, actions, cfg);
    WorkerStays(s, id, start, actions, cfg);
    hide Exec;
  }
}
