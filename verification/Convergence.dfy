/**
 Whole runs of the protocol: batches take effect in the order they were produced, and a drained
 agent's host shows exactly what the agent last collected.
 */
module Convergence {
  import opened Wire
  import opened Delta
  import opened InventoryTables
  import opened Replica
  import opened Protocol
  import Queue

  // ---------------------------------------------------------------- order of application

  /** A request the server has not finished with, whose batch is not applied. */
  ghost predicate Live(me: nat, s: System, r: nat) {
    && r in s.tasks && (s.tasks[r].phase == Arrived || s.tasks[r].phase == Unseen)
    && (me, s.tasks[r].batch.batchId) !in s.tables.ledger
  }

  /** No live request carries a batch the agent no longer holds. */
  ghost predicate OrphanFree(me: nat, s: System) {
    forall r :: Live(me, s, r) ==> Queued(s.queue.items, s.tasks[r].batch.batchId)
  }

  /** The push evicts no batch that a live request carries. */
  ghost predicate SafePush(me: nat, s: System, push: PushResult) {
    push.Stored? && push.evicted <= |s.queue.items| ==>
      forall r, i :: Live(me, s, r) && 0 <= i < push.evicted ==> BatchId(s.queue.items[i]) != s.tasks[r].batch.batchId
  }

  ghost predicate SafeStep(me: nat, s: System, step: Step) {
    match step
    case Start(_, _, _, _, push) => SafePush(me, s, push)
    case Collect(_, _, running, installed, push) => (running == [] && installed == []) || SafePush(me, s, push)
    case _ => true
  }

  lemma QueuedAt(items: seq<Queue.Entry>, i: nat)
    requires i < |items|
    ensures Queued(items, BatchId(items[i]))
  {
  }

  /** While there are no orphans, every live request carries the batch at the head of the queue. */
  lemma LiveIsHead(me: nat, s: System, r: nat)
    requires Inv(me, s) && OrphanFree(me, s) && Live(me, s, r)
    ensures s.queue.items != [] && BatchId(s.queue.items[0]) == s.tasks[r].batch.batchId
  {
  }

  lemma OrphansOfPush(me: nat, s: System, b: IngestRequest, push: PushResult)
    requires Inv(me, s) && OrphanFree(me, s) && Pushable(s.queue, push) && b.batchId == |s.log|
    ensures OrphanFree(me, Produce(me, s, b, push)) <==> SafePush(me, s, push)
  {
  }

  /**
   Orphans, exactly: from an orphan-free state a step leaves one behind if and only if it pushes a
   batch and thereby evicts one that a live request still carries.
   */
  lemma OrphanIff(me: nat, s: System, step: Step, s': System)
    requires Inv(me, s) && OrphanFree(me, s) && Next(me, s, step, s')
    ensures OrphanFree(me, s') <==> SafeStep(me, s, step)
  {
    match step
    case Start(procs, insts, running, installed, push) =>
      OrphansOfBatch(me, s, AgentState(Collected(procs), Collected(insts)), NextBatch(s, true, running, installed), push);
    case Collect(procs, insts, running, installed, push) =>
      var agent := AgentState(NextState(s.agent.proc, procs), NextState(s.agent.inst, insts));
      if running == [] && installed == [] {
        assert forall r :: Live(me, s', r) ==> Live(me, s, r);
      } else {
        OrphansOfBatch(me, s, agent, NextBatch(s, false, running, installed), push);
      }
    case Transact(rid) =>
      TransactLive(me, s, rid);
    case Deliver(rid, removed) =>
      DeliverLive(me, s, rid, removed);
    case _ =>
      QuietLive(me, s, step, s');
  }

  /** The other steps add no live request but for the head of the queue. */
  lemma QuietLive(me: nat, s: System, step: Step, s': System)
    requires Inv(me, s) && OrphanFree(me, s) && Next(me, s, step, s')
    requires step.Send? || step.GiveUp? || step.Lose? || step.CheckSeen? || step.Refuse? || step.OtherIngest?
    ensures OrphanFree(me, s')
  {
    hide Ingest, Accounted, QueueOk, TasksOk, AppliedOk, LogOk;
    if step.Send? {
      QueuedAt(s.queue.items, 0);
      assert forall r :: r != step.rid && Live(me, s', r) ==> Live(me, s, r);
    } else {
      if step.OtherIngest? {
        IngestSound(s.tables, step.agent, step.req);
      }
      assert forall r :: Live(me, s', r) ==> Live(me, s, r);
    }
  }

  lemma OrphansOfBatch(me: nat, s: System, agent: AgentState, b: IngestRequest, push: PushResult)
    requires Inv(me, s) && OrphanFree(me, s) && Pushable(s.queue, push) && b.batchId == |s.log|
    ensures OrphanFree(me, Produce(me, s.(agent := agent, posting := None), b, push)) <==> SafePush(me, s, push)
    ensures OrphanFree(me, Produce(me, s.(agent := agent), b, push)) <==> SafePush(me, s, push)
  {
    var s1, s2 := s.(agent := agent, posting := None), s.(agent := agent);
    assert forall r :: Live(me, s1, r) <==> Live(me, s, r);
    assert forall r :: Live(me, s2, r) <==> Live(me, s, r);
    OrphansOfPush(me, s1, b, push);
    OrphansOfPush(me, s2, b, push);
  }

  lemma TransactLive(me: nat, s: System, rid: nat)
    requires Inv(me, s) && OrphanFree(me, s) && Enabled(me, s, Transact(rid))
    ensures OrphanFree(me, After(me, s, Transact(rid)))
  {
    hide QueueOk, TasksOk, AppliedOk, Accounted, LogOk, Ingest;
    var s', b := After(me, s, Transact(rid)), s.tasks[rid].batch;
    if Accepts(s.tables, me, b.batchId) {
      IngestSound(s.tables, me, b);
    }
    assert forall r :: Live(me, s', r) ==> Live(me, s, r) && s'.tasks[r].batch == s.tasks[r].batch;
  }

  /** An accepted reply for the head means no request is live any more. */
  lemma DeliverLive(me: nat, s: System, rid: nat, removed: bool)
    requires Inv(me, s) && OrphanFree(me, s) && Enabled(me, s, Deliver(rid, removed))
    ensures OrphanFree(me, After(me, s, Deliver(rid, removed)))
  {
  }

  ghost predicate InOrder(applied: seq<IngestRequest>) {
    forall i, j :: 0 <= i < j < |applied| ==> applied[i].batchId < applied[j].batchId
  }

  lemma OrderStep(me: nat, s: System, step: Step, s': System)
    requires Inv(me, s) && OrphanFree(me, s) && Next(me, s, step, s') && InOrder(s.applied)
    ensures InOrder(s'.applied)
  {
    hide Ingest, Accounted, QueueOk, TasksOk, LogOk;
    if step.Transact? && Accepts(s.tables, me, s.tasks[step.rid].batch.batchId) {
      LiveIsHead(me, s, step.rid);
      forall i | 0 <= i < |s.applied| ensures s.applied[i].batchId < s.tasks[step.rid].batch.batchId {
        assert (me, s.applied[i].batchId) in s.tables.ledger;
      }
    }
  }

  /** The log without the batches the ledger does not hold. */
  ghost function Kept(me: nat, log: Log, ledger: Ledger): Log {
    if log == [] then
      []
    else
      var last := log[|log| - 1];
      Kept(me, log[..|log| - 1], ledger) + if (me, last.batchId) in ledger then [last] else []
  }

  /** `applied` lists in log order exactly the batches of the log that the ledger holds. */
  ghost predicate Enumerates(me: nat, log: Log, applied: seq<IngestRequest>, ledger: Ledger) {
    && LogOk(log) && InOrder(applied)
    && (forall i :: 0 <= i < |applied| ==> Logged(log, applied[i]) && (me, applied[i].batchId) in ledger)
    && (forall id :: 0 <= id < |log| && (me, id) in ledger ==> log[id] in applied)
  }

  /** The log's last batch closes the enumeration, or is not part of it. */
  lemma EnumeratesLast(me: nat, log: Log, applied: seq<IngestRequest>, ledger: Ledger)
    requires Enumerates(me, log, applied, ledger)
    ensures log == [] ==> applied == []
    ensures log != [] && (me, log[|log| - 1].batchId) in ledger ==>
              applied != [] && applied[|applied| - 1] == log[|log| - 1] && Enumerates(me, log[..|log| - 1], applied[..|applied| - 1], ledger)
    ensures log != [] && (me, log[|log| - 1].batchId) !in ledger ==> Enumerates(me, log[..|log| - 1], applied, ledger)
  {
  }

  /** A sorted enumeration of the ledger's batches is the log filtered by the ledger. */
  lemma {:induction false} SortedIsKept(me: nat, log: Log, applied: seq<IngestRequest>, ledger: Ledger)
    requires Enumerates(me, log, applied, ledger)
    ensures applied == Kept(me, log, ledger)
  {
    hide Enumerates;
    EnumeratesLast(me, log, applied, ledger);
    if log != [] {
      var init := if (me, log[|log| - 1].batchId) in ledger then applied[..|applied| - 1] else applied;
      SortedIsKept(me, log[..|log| - 1], init, ledger);
    }
  }

  lemma {:induction false} SafeRun(me: nat, states: seq<System>, steps: seq<Step>, n: nat)
    requires Run(me, states, steps) && n < |states|
    requires forall i :: 0 <= i < n ==> SafeStep(me, states[i], steps[i])
    ensures Inv(me, states[n]) && OrphanFree(me, states[n]) && InOrder(states[n].applied)
  {
    RunKeepsInv(me, states, steps, n);
    if n > 0 {
      hide Next, Inv, OrphanFree, SafeStep, InOrder;
      SafeRun(me, states, steps, n - 1);
      assert StepAt(me, states, steps, n - 1);
      OrphanIff(me, states[n - 1], steps[n - 1], states[n]);
      OrderStep(me, states[n - 1], steps[n - 1], states[n]);
    }
  }

  /**
   In-order effect: in every run that never evicts a batch a live request carries, what the server
   applied is the produced sequence without the batches it does not have, in production order;
   and what it does not have is still queued or was lost.
   */
  lemma InOrderEffect(me: nat, states: seq<System>, steps: seq<Step>, n: nat)
    requires Run(me, states, steps) && n < |states|
    requires forall i :: 0 <= i < n ==> SafeStep(me, states[i], steps[i])
    ensures var s := states[n];
            && s.applied == Kept(me, s.log, s.tables.ledger)
            && forall id :: 0 <= id < |s.log| && (me, id) !in s.tables.ledger ==> Queued(s.queue.items, id) || id in s.lost
  {
    SafeRun(me, states, steps, n);
    SortedIsKept(me, states[n].log, states[n].applied, states[n].tables.ledger);
  }

  // ---------------------------------------------------------------- order of effect, exactly

  /** A continuation that never evicts a batch a live request carries. */
  ghost predicate SafeSteps(me: nat, s: System, steps: seq<Step>)
    decreases |steps|
  {
    steps == [] || (Enabled(me, s, steps[0]) && SafeStep(me, s, steps[0]) && SafeSteps(me, After(me, s, steps[0]), steps[1..]))
  }

  ghost function EndOf(me: nat, s: System, steps: seq<Step>): System
    requires SafeSteps(me, s, steps)
    decreases |steps|
  {
    if steps == [] then s else EndOf(me, After(me, s, steps[0]), steps[1..])
  }

  /** Some continuation by safe steps leads from `s` to `t`. */
  ghost predicate SafelyReaches(me: nat, s: System, t: System) {
    exists steps :: SafeSteps(me, s, steps) && EndOf(me, s, steps) == t
  }

  lemma {:induction false} SafeSnoc(me: nat, s: System, steps: seq<Step>, step: Step)
    requires SafeSteps(me, s, steps) && Enabled(me, EndOf(me, s, steps), step) && SafeStep(me, EndOf(me, s, steps), step)
    ensures SafeSteps(me, s, steps + [step]) && EndOf(me, s, steps + [step]) == After(me, EndOf(me, s, steps), step)
    decreases |steps|
  {
    hide Enabled, After, SafeStep;
    if steps == [] {
      assert ([] + [step])[1..] == [] && SafeSteps(me, After(me, s, step), []);
    } else {
      assert (steps + [step])[1..] == steps[1..] + [step];
      SafeSnoc(me, After(me, s, steps[0]), steps[1..], step);
    }
  }

  lemma StayPut(me: nat, s: System)
    ensures SafelyReaches(me, s, s)
  {
    assert SafeSteps(me, s, []) && EndOf(me, s, []) == s;
  }

  /** One more safe step. */
  lemma Continue(me: nat, s: System, t: System, step: Step) returns (t': System)
    requires SafelyReaches(me, s, t) && Inv(me, t) && Enabled(me, t, step) && SafeStep(me, t, step)
    ensures t' == After(me, t, step) && SafelyReaches(me, s, t') && Inv(me, t')
  {
    hide Enabled, After, SafeStep, Inv;
    var steps :| SafeSteps(me, s, steps) && EndOf(me, s, steps) == t;
    SafeSnoc(me, s, steps, step);
    t' := After(me, t, step);
    StepKeepsInv(me, t, step, t');
  }

  lemma {:induction false} SafeStepsKeepOrder(me: nat, s: System, steps: seq<Step>)
    requires Inv(me, s) && OrphanFree(me, s) && InOrder(s.applied) && SafeSteps(me, s, steps)
    ensures InOrder(EndOf(me, s, steps).applied)
    decreases |steps|
  {
    hide Enabled, After, SafeStep, Inv, OrphanFree, InOrder;
    if steps != [] {
      var s' := After(me, s, steps[0]);
      StepKeepsInv(me, s, steps[0], s');
      OrphanIff(me, s, steps[0], s');
      OrderStep(me, s, steps[0], s');
      SafeStepsKeepOrder(me, s', steps[1..]);
    }
  }

  lemma OrderKept(me: nat, s: System, t: System)
    requires Inv(me, s) && OrphanFree(me, s) && InOrder(s.applied) && SafelyReaches(me, s, t)
    ensures InOrder(t.applied)
  {
    hide Inv, OrphanFree, InOrder;
    var steps :| SafeSteps(me, s, steps) && EndOf(me, s, steps) == t;
    SafeStepsKeepOrder(me, s, steps);
  }

  lemma Bound(ids: set<nat>) returns (b: nat)
    ensures forall i :: i in ids ==> i < b
  {
    b := 0;
    if i :| i in ids {
      var b' := Bound(ids - {i});
      assert forall j :: j in ids ==> j == i || j in ids - {i};
      b := if i < b' then b' else i + 1;
    }
  }

  /** The server handles a live request in full: its batch is applied now. */
  lemma HandleLive(me: nat, s: System, t: System, r: nat) returns (t': System)
    requires SafelyReaches(me, s, t) && Inv(me, t) && Live(me, t, r)
    ensures SafelyReaches(me, s, t') && Inv(me, t') && t'.applied == t.applied + [t.tasks[r].batch]
    ensures t'.queue == t.queue && t'.tables.ledger == t.tables.ledger + {(me, t.tasks[r].batch.batchId)}
    ensures forall q :: q in t.tasks && q != r ==> q in t'.tasks && t'.tasks[q] == t.tasks[q]
  {
    hide SafelyReaches, Ingest, QueueOk, TasksOk, AppliedOk, Accounted, LogOk;
    var u := t;
    if t.tasks[r].phase == Arrived {
      u := Continue(me, s, t, CheckSeen(r));
    }
    IngestSound(u.tables, me, u.tasks[r].batch);
    t' := Continue(me, s, u, Transact(r));
  }

  /** A live request whose batch is older than an unapplied head of the queue can be overtaken by it. */
  lemma Overtake(me: nat, s: System, r: nat) returns (t: System)
    requires Inv(me, s) && Live(me, s, r) && s.queue.items != []
    requires s.tasks[r].batch.batchId < BatchId(s.queue.items[0]) && (me, BatchId(s.queue.items[0])) !in s.tables.ledger
    ensures SafelyReaches(me, s, t) && !InOrder(t.applied)
  {
    hide SafelyReaches, Inv;
    var rid := Bound(s.tasks.Keys);
    StayPut(me, s);
    var s1 := Continue(me, s, s, Send(rid));
    var s2 := HandleLive(me, s, s1, rid);
    t := HandleLive(me, s, s2, r);
    var n := |s.applied|;
    assert t.applied[n] == s.queue.items[0].batch && t.applied[n + 1] == s.tasks[r].batch;
  }

  /** What an unsafe push leaves: the request it orphans, and a younger, unapplied head. */
  lemma UnsafePush(me: nat, s: System, b: IngestRequest, push: PushResult) returns (r: nat)
    requires Inv(me, s) && OrphanFree(me, s) && Pushable(s.queue, push) && b.batchId == |s.log| && !SafePush(me, s, push)
    ensures var s' := Produce(me, s, b, push);
            && Live(me, s', r) && s'.queue.items != []
            && s'.tasks[r].batch.batchId < BatchId(s'.queue.items[0]) && (me, BatchId(s'.queue.items[0])) !in s'.tables.ledger
  {
    var q, i :| Live(me, s, q) && 0 <= i < push.evicted && BatchId(s.queue.items[i]) == s.tasks[q].batch.batchId;
    r := q;
    LiveIsHead(me, s, r);
  }

  /**
   Order of effect, exactly: from an orphan-free state whose batches took effect in order, a step
   evicts no batch that a live request carries if and only if every continuation that evicts none
   keeps the order. An orphaned request, checked or not, can always be overtaken by the new head.
   */
  lemma OrderIff(me: nat, s: System, step: Step, s': System)
    requires Inv(me, s) && OrphanFree(me, s) && InOrder(s.applied) && Next(me, s, step, s')
    ensures SafeStep(me, s, step) <==> forall t :: SafelyReaches(me, s', t) ==> InOrder(t.applied)
  {
    hide SafelyReaches, InOrder, Inv, OrphanFree;
    StepKeepsInv(me, s, step, s');
    if SafeStep(me, s, step) {
      OrphanIff(me, s, step, s');
      OrderStep(me, s, step, s');
      forall t | SafelyReaches(me, s', t) ensures InOrder(t.applied) {
        OrderKept(me, s', t);
      }
    } else {
      var _ := UnsafeStepReorders(me, s, step, s');
    }
  }

  lemma UnsafeStepReorders(me: nat, s: System, step: Step, s': System) returns (t: System)
    requires Inv(me, s) && OrphanFree(me, s) && Next(me, s, step, s') && !SafeStep(me, s, step) && Inv(me, s')
    ensures SafelyReaches(me, s', t) && !InOrder(t.applied)
  {
    hide SafelyReaches, InOrder;
    var s1 := if step.Start? then s.(agent := s'.agent, posting := None) else s.(agent := s'.agent);
    assert forall r :: Live(me, s1, r) <==> Live(me, s, r);
    var r := UnsafePush(me, s1, NextBatch(s, step.Start?, step.running, step.installed), step.push);
    t := Overtake(me, s', r);
  }

  // ---------------------------------------------------------------- nothing gets stuck

  /** Post the head, let the server handle the copy in full, and acknowledge it; an applied head is accepted as seen. */
  lemma DrainOneMore(me: nat, s: System, t: System) returns (t': System)
    requires SafelyReaches(me, s, t) && Inv(me, t) && t.queue.items != []
    ensures SafelyReaches(me, s, t') && Inv(me, t')
    ensures t'.queue.items == t.queue.items[1..] && t'.log == t.log && t'.lost == t.lost && t'.agent == t.agent
    ensures t'.tables.ledger == t.tables.ledger + {(me, BatchId(t.queue.items[0]))}
    ensures t'.applied == if (me, BatchId(t.queue.items[0])) in t.tables.ledger then t.applied else t.applied + [t.queue.items[0].batch]
  {
    hide SafelyReaches, Ingest, QueueOk, TasksOk, AppliedOk, Accounted, LogOk, Valid, Queue.Ack;
    var rid := Bound(t.tasks.Keys);
    var b := t.queue.items[0].batch;
    var u := Continue(me, s, t, Send(rid));
    u := Continue(me, s, u, CheckSeen(rid));
    if (me, b.batchId) !in t.tables.ledger {
      IngestSound(u.tables, me, b);
      u := Continue(me, s, u, Transact(rid));
    }
    DeliverKeepsInv(me, u, rid);
    t' := Continue(me, s, u, Deliver(rid, true));
  }

  /** The ids at the queue's places. */
  function IdsOf(items: seq<Queue.Entry>): set<nat> {
    set e <- items :: BatchId(e)
  }

  /**
   No dead end: whatever was lost, delayed or retried before, from every state that satisfies the
   invariant some continuation without evictions empties the spool and has every batch in it applied,
   losing nothing, whether or not a copy had been applied before and its reply lost.
   */
  lemma {:induction false} CanDrain(me: nat, s: System, t: System) returns (end: System)
    requires SafelyReaches(me, s, t) && Inv(me, t)
    ensures SafelyReaches(me, s, end) && Inv(me, end)
    ensures end.queue.items == [] && end.log == t.log && end.lost == t.lost && end.agent == t.agent
    ensures end.tables.ledger == t.tables.ledger + set id <- IdsOf(t.queue.items) :: (me, id)
    ensures t.applied <= end.applied
    decreases |t.queue.items|
  {
    hide SafelyReaches, Inv;
    end := t;
    if t.queue.items != [] {
      var items := t.queue.items;
      var u := DrainOneMore(me, s, t);
      end := CanDrain(me, s, u);
      assert IdsOf(items) == IdsOf(items[1..]) + {BatchId(items[0])} by {
        assert forall e :: e in items <==> e == items[0] || e in items[1..];
      }
    }
  }

  /** Whatever the collectors report while no request is outstanding, the agent can take it in. */
  lemma CanCollect(me: nat, s: System, procs: Option<seq<SoftwareDelta>>, insts: Option<seq<SoftwareDelta>>, push: PushResult) returns (step: Step)
    requires s.posting.None? && Pushable(s.queue, push)
    requires (procs.Some? ==> From(procs.value, Running)) && (insts.Some? ==> From(insts.value, Installed))
    ensures step.Collect? && step.procs == procs && step.insts == insts && step.push == push && Enabled(me, s, step)
  {
    var running, installed := [], [];
    if procs.Some? {
      running := DiffExists(s.agent.proc, procs.value);
    }
    if insts.Some? {
      installed := DiffExists(s.agent.inst, insts.value);
    }
    step := Collect(procs, insts, running, installed, push);
  }

  // ---------------------------------------------------------------- effect of a log on a slot

  ghost function LogEffect(bs: seq<IngestRequest>, s: Slot, x: Option<InventoryRow>): Option<InventoryRow> {
    if bs == [] then x else BatchEffect(bs[|bs| - 1], s, LogEffect(bs[..|bs| - 1], s, x))
  }

  lemma LogEffectSnoc(bs: seq<IngestRequest>, b: IngestRequest, s: Slot, x: Option<InventoryRow>)
    ensures LogEffect(bs + [b], s, x) == BatchEffect(b, s, LogEffect(bs, s, x))
  {
  }

  lemma {:induction false} LogEffectConcat(a: seq<IngestRequest>, b: seq<IngestRequest>, s: Slot, x: Option<InventoryRow>)
    ensures LogEffect(a + b, s, x) == LogEffect(b, s, LogEffect(a, s, x))
  {
    if b == [] {
      assert a + b == a;
    } else {
      assert (a + b)[..|a + b| - 1] == a + b[..|b| - 1];
      LogEffectConcat(a, b[..|b| - 1], s, x);
    }
  }

  lemma TablesStep(me: nat, s: System, step: Step, s': System, slot: Slot, x: Option<InventoryRow>)
    requires Inv(me, s) && Next(me, s, step, s') && slot.host == s.tables.agents[me]
    requires At(s.tables, slot) == LogEffect(s.applied, slot, x)
    ensures s'.tables.agents == s.tables.agents
    ensures At(s'.tables, slot) == LogEffect(s'.applied, slot, x)
  {
    hide Ingest, At, BatchEffect, LogEffect, LogOk, QueueOk, TasksOk, AppliedOk, Accounted;
    if step.Transact? && Accepts(s.tables, me, s.tasks[step.rid].batch.batchId) {
      var b := s.tasks[step.rid].batch;
      IngestSound(s.tables, me, b);
      LogEffectSnoc(s.applied, b, slot, x);
    } else if step.OtherIngest? {
      IngestSound(s.tables, step.agent, step.req);
    }
  }

  /** Our host's slots only ever change by the batches applied, in the order applied. */
  lemma {:induction false} TablesFollowApplied(me: nat, states: seq<System>, steps: seq<Step>, n: nat, slot: Slot)
    requires Run(me, states, steps) && n < |states|
    requires slot.host == states[0].tables.agents[me]
    ensures states[n].tables.agents == states[0].tables.agents
    ensures At(states[n].tables, slot) == LogEffect(states[n].applied, slot, At(states[0].tables, slot))
  {
    hide Next, Inv, At;
    if n > 0 {
      TablesFollowApplied(me, states, steps, n - 1, slot);
      RunKeepsInv(me, states, steps, n - 1);
      assert StepAt(me, states, steps, n - 1);
      TablesStep(me, states[n - 1], steps[n - 1], states[n], slot, At(states[0].tables, slot));
    }
  }

  // ---------------------------------------------------------------- the agent's side

  function StateOf(a: AgentState, source: Source): State
    requires source == Running || source == Installed
  {
    if source == Running then a.proc else a.inst
  }

  ghost predicate AgentOk(a: AgentState) {
    Sourced(a.proc, Running) && Sourced(a.inst, Installed)
  }

  /** What a step collects for a source, if it does. */
  function CollectedIn(step: Step, source: Source): Option<seq<SoftwareDelta>>
    requires source == Running || source == Installed
  {
    match step
    case Start(procs, insts, _, _, _) => Some(if source == Running then procs else insts)
    case Collect(procs, insts, _, _, _) => if source == Running then procs else insts
    case _ => None
  }

  lemma NextSourced(last: State, collected: Option<seq<SoftwareDelta>>, source: Source, deltas: seq<SoftwareDelta>)
    requires Sourced(last, source) && CollectsOne(last, collected, source, deltas, NextState(last, collected))
    ensures Sourced(NextState(last, collected), source) && From(deltas, source)
  {
    if collected.Some? {
      CollectedSourced(collected.value, source);
      DeltaKeys(last, collected.value, deltas, source);
    }
  }

  lemma AgentStep(me: nat, s: System, step: Step, s': System)
    requires Next(me, s, step, s') && AgentOk(s.agent)
    ensures AgentOk(s'.agent)
  {
    match step
    case Start(procs, insts, running, installed, push) =>
      CollectedSourced(procs, Running);
      CollectedSourced(insts, Installed);
    case Collect(procs, insts, running, installed, push) =>
      NextSourced(s.agent.proc, procs, Running, running);
      NextSourced(s.agent.inst, insts, Installed, installed);
    case _ =>
  }

  /** What the agent collected for a source from step `start` on, up to state `n`. */
  function Collections(steps: seq<Step>, start: nat, n: nat, source: Source): seq<seq<SoftwareDelta>>
    requires start < n <= |steps| && (source == Running || source == Installed)
    decreases n
  {
    var before := if n == start + 1 then [] else Collections(steps, start, n - 1, source);
    var items := CollectedIn(steps[n - 1], source);
    if items.Some? then before + [items.value] else before
  }

  /**
   The log from `snap` on shows a history of collections: whatever a slot of the source held, the log
   leaves the row of the item that the history shows there. `last` is the state after the history.
   */
  ghost predicate LogShows(log: Log, snap: nat, cs: seq<seq<SoftwareDelta>>, last: State, host: nat, source: Source) {
    && snap <= |log| && last == StateAfter(cs, |cs|)
    && forall ident, x :: LogEffect(log[snap..], Slot(host, source, ident), x) == RowShown(Shown(cs, |cs|, ident))
  }

  /** An all-upsert snapshot that mentions a slot's source forgets what the slot held. */
  lemma SnapshotForgets(b: IngestRequest, s: Slot, x: Option<InventoryRow>)
    requires b.fullSnapshot && AllUpserts(AllDeltas(b)) && SeesSource(AllDeltas(b), s.source)
    ensures BatchEffect(b, s, x) == Effect(AllDeltas(b), s, None)
  {
    UpsertEffect(AllDeltas(b), s, x);
    UpsertEffect(AllDeltas(b), s, None);
  }

  /** One more collection, as the slot's history sees it. */
  lemma ShownSnoc(cs: seq<seq<SoftwareDelta>>, items: seq<SoftwareDelta>, ident: Identity)
    ensures var last := StateAfter(cs, |cs|); var sent := LastSentAs(last, items, ident);
            && StateAfter(cs + [items], |cs| + 1) == Collected(items)
            && Shown(cs + [items], |cs| + 1, ident) ==
                 if Leaves(last, Collected(items), ident) then None else if sent.Some? then sent else Shown(cs, |cs|, ident)
  {
    hide Leaves, LastSentAs, Collected;
    ShownPrefix(cs, cs + [items], |cs|, ident);
    assert StateAfter(cs + [items], |cs|) == StateAfter(cs, |cs|);
  }

  /** A full snapshot with an item of the source starts the slot's history afresh, from any prior row. */
  lemma SnapshotShows(b: IngestRequest, items: seq<SoftwareDelta>, deltas: seq<SoftwareDelta>, s: Slot, x: Option<InventoryRow>)
    requires b.fullSnapshot && items != [] && From(items, s.source)
    requires IsDiff(map[], items, deltas, Collected(items))
    requires (s.source == Running && deltas == b.running) || (s.source == Installed && deltas == b.installed)
    requires From(b.running, Running) && From(b.installed, Installed) && AllUpserts(b.running) && AllUpserts(b.installed)
    ensures BatchEffect(b, s, x) == RowShown(Shown([items], 1, s.ident))
  {
    hide IsDiff, BatchEffect, Effect, Shown, LastSentAs, Collected;
    var ds := AllDeltas(b);
    EffectOfBatch(b, s, None);
    DiffFromEmpty(items, deltas, Collected(items));
    assert SeesSource(ds, s.source) by {
      assert items[0] in items && deltas[0] in deltas && deltas[0] in ds;
    }
    SnapshotForgets(b, s, x);
    DiffEffect(map[], items, deltas, s, None);
    ShownSnoc([], items, s.ident);
    NothingShown(s.ident);
    assert [] + [items] == [items];
  }

  lemma NothingShown(ident: Identity)
    ensures Shown([], 0, ident) == None
  {
  }

  lemma UpsertsOnly(items: seq<SoftwareDelta>, deltas: seq<SoftwareDelta>, source: Source)
    requires From(items, source) && IsDiff(map[], items, deltas, Collected(items))
    ensures AllUpserts(deltas) && From(deltas, source)
  {
    DiffFromEmpty(items, deltas, Collected(items));
    forall d | d in deltas ensures d.op != Remove && d.source == source {
      var i :| 0 <= i < |deltas| && deltas[i] == d;
      assert items[i] in items;
    }
  }

  lemma StartShows(me: nat, s: System, step: Step, s': System, host: nat, source: Source)
    requires Next(me, s, step, s') && step.Start? && (source == Running || source == Installed)
    requires CollectedIn(step, source).value != []
    ensures LogShows(s'.log, |s.log|, [CollectedIn(step, source).value], StateOf(s'.agent, source), host, source)
  {
    hide Shown, BatchEffect, LogEffect, Collected, IsDiff;
    var items := CollectedIn(step, source).value;
    var b := NextBatch(s, true, step.running, step.installed);
    UpsertsOnly(step.allProcs, step.running, Running);
    UpsertsOnly(step.allInsts, step.installed, Installed);
    assert s'.log[|s.log|..] == [b];
    forall ident, x
      ensures LogEffect(s'.log[|s.log|..], Slot(host, source, ident), x) == RowShown(Shown([items], 1, ident))
    {
      var slot := Slot(host, source, ident);
      LogEffectOne(b, slot, x);
      SnapshotShows(b, items, if source == Running then step.running else step.installed, slot, x);
    }
  }

  lemma LogEffectOne(b: IngestRequest, slot: Slot, x: Option<InventoryRow>)
    ensures LogEffect([b], slot, x) == BatchEffect(b, slot, x)
  {
    LogEffectSnoc([], b, slot, x);
    assert [] + [b] == [b];
  }

  /** What a collect step leaves of the agent's state and the log. */
  lemma CollectResult(me: nat, s: System, step: Step, s': System, source: Source)
    requires Next(me, s, step, s') && step.Collect? && (source == Running || source == Installed) && AgentOk(s.agent)
    ensures var b := NextBatch(s, false, step.running, step.installed);
            && s'.log == (if step.running == [] && step.installed == [] then s.log else s.log + [b])
            && !b.fullSnapshot && From(b.running, Running) && From(b.installed, Installed)
    ensures var deltas := if source == Running then step.running else step.installed;
            && CollectsOne(StateOf(s.agent, source), CollectedIn(step, source), source, deltas, StateOf(s'.agent, source))
            && StateOf(s'.agent, source) == NextState(StateOf(s.agent, source), CollectedIn(step, source))
  {
    NextSourced(s.agent.proc, step.procs, Running, step.running);
    NextSourced(s.agent.inst, step.insts, Installed, step.installed);
  }

  /** A batch without deltas does nothing to a slot, so not sending it changes nothing. */
  lemma LogEffectOfCollect(log: Log, b: IngestRequest, snap: nat, slot: Slot, x: Option<InventoryRow>)
    requires snap <= |log| && !b.fullSnapshot && From(b.running, Running) && From(b.installed, Installed)
    ensures var log' := if b.running == [] && b.installed == [] then log else log + [b];
            LogEffect(log'[snap..], slot, x) == BatchEffect(b, slot, LogEffect(log[snap..], slot, x))
  {
    EffectOfBatch(b, slot, LogEffect(log[snap..], slot, x));
    if b.running != [] || b.installed != [] {
      assert (log + [b])[snap..] == log[snap..] + [b];
      LogEffectSnoc(log[snap..], b, slot, x);
    }
  }

  lemma CollectShows(me: nat, s: System, step: Step, s': System, snap: nat, cs: seq<seq<SoftwareDelta>>, host: nat, source: Source)
    requires Next(me, s, step, s') && step.Collect? && (source == Running || source == Installed) && AgentOk(s.agent)
    requires LogShows(s.log, snap, cs, StateOf(s.agent, source), host, source)
    ensures var items := CollectedIn(step, source);
            LogShows(s'.log, snap, if items.Some? then cs + [items.value] else cs, StateOf(s'.agent, source), host, source)
  {
    hide Next, BatchEffect, LogEffect, Shown, Effect, LastSentAs, IsDiff, Collected;
    CollectResult(me, s, step, s', source);
    var b, last, items := NextBatch(s, false, step.running, step.installed), StateOf(s.agent, source), CollectedIn(step, source);
    var deltas := if source == Running then step.running else step.installed;
    var cs' := if items.Some? then cs + [items.value] else cs;
    forall ident, x
      ensures LogEffect(s'.log[snap..], Slot(host, source, ident), x) == RowShown(Shown(cs', |cs'|, ident))
    {
      var slot := Slot(host, source, ident);
      var before := LogEffect(s.log[snap..], slot, x);
      LogEffectOfCollect(s.log, b, snap, slot, x);
      PlainBatchEffect(b, deltas, slot, before);
      CollectSlot(last, items, deltas, slot, before);
      if items.Some? {
        ShownSnoc(cs, items.value, ident);
      }
    }
    if items.Some? {
      ShownSnoc(cs, items.value, Hashed(""));
    }
  }

  /** One source's share of a collect step, at one slot. */
  lemma CollectSlot(last: State, items: Option<seq<SoftwareDelta>>, deltas: seq<SoftwareDelta>, slot: Slot, before: Option<InventoryRow>)
    requires Sourced(last, slot.source) && CollectsOne(last, items, slot.source, deltas, NextState(last, items))
    ensures Effect(deltas, slot, before) ==
            if items.None? then before
            else if Leaves(last, Collected(items.value), slot.ident) then None
            else if LastSentAs(last, items.value, slot.ident).Some? then RowShown(LastSentAs(last, items.value, slot.ident)) else before
  {
    if items.Some? {
      DiffEffect(last, items.value, deltas, slot, before);
    }
  }

  lemma PlainBatchEffect(b: IngestRequest, deltas: seq<SoftwareDelta>, slot: Slot, x: Option<InventoryRow>)
    requires !b.fullSnapshot && From(b.running, Running) && From(b.installed, Installed)
    requires (slot.source == Running && deltas == b.running) || (slot.source == Installed && deltas == b.installed)
    ensures BatchEffect(b, slot, x) == Effect(deltas, slot, x)
  {
    EffectOfBatch(b, slot, x);
  }

  /**
   From the latest start on the log shows the history of what was collected, after every step and
   with no hypothesis on the collections: flaps and handovers included.
   */
  lemma {:induction false} LogShowsHistory(me: nat, states: seq<System>, steps: seq<Step>, start: nat, n: nat, host: nat, source: Source)
    requires Run(me, states, steps) && start < n < |states| && (source == Running || source == Installed)
    requires LatestStart(steps, start, n, source)
    ensures LogShows(states[n].log, |states[start].log|, Collections(steps, start, n, source), StateOf(states[n].agent, source), host, source)
  {
    hide Next, LogShows, AgentOk, CollectedIn;
    assert StepAt(me, states, steps, n - 1);
    if n == start + 1 {
      StartShows(me, states[start], steps[start], states[n], host, source);
      StartCollects(steps[start], source);
      assert [] + [CollectedIn(steps[start], source).value] == [CollectedIn(steps[start], source).value];
    } else {
      LogShowsHistory(me, states, steps, start, n - 1, host, source);
      AgentOkRun(me, states, steps, n - 1);
      StepShows(me, states[n - 1], steps[n - 1], states[n], |states[start].log|, Collections(steps, start, n - 1, source), host, source);
    }
  }

  lemma StartCollects(step: Step, source: Source)
    requires step.Start? && (source == Running || source == Installed)
    ensures CollectedIn(step, source).Some?
  {
  }

  lemma StepShows(me: nat, s: System, step: Step, s': System, snap: nat, cs: seq<seq<SoftwareDelta>>, host: nat, source: Source)
    requires Next(me, s, step, s') && !step.Start? && (source == Running || source == Installed) && AgentOk(s.agent)
    requires LogShows(s.log, snap, cs, StateOf(s.agent, source), host, source)
    ensures var items := CollectedIn(step, source);
            LogShows(s'.log, snap, if items.Some? then cs + [items.value] else cs, StateOf(s'.agent, source), host, source)
  {
    if step.Collect? {
      CollectShows(me, s, step, s', snap, cs, host, source);
    } else {
      assert s'.log == s.log && s'.agent == s.agent;
    }
  }

  lemma {:induction false} AgentOkRun(me: nat, states: seq<System>, steps: seq<Step>, n: nat)
    requires Run(me, states, steps) && n < |states|
    ensures AgentOk(states[n].agent)
  {
    if n > 0 {
      AgentOkRun(me, states, steps, n - 1);
      assert StepAt(me, states, steps, n - 1);
      AgentStep(me, states[n - 1], steps[n - 1], states[n]);
    }
  }

  /** Step `start` is the latest restart before state `n`, and its snapshot has an item of the source. */
  ghost predicate LatestStart(steps: seq<Step>, start: nat, n: nat, source: Source)
    requires start < n <= |steps| && (source == Running || source == Installed)
  {
    && steps[start].Start?
    && CollectedIn(steps[start], source).value != []
    && forall i :: start < i < n ==> !steps[i].Start?
  }

  /** Nothing of the log from `snap` on is missing once the queue is empty. */
  lemma {:induction false} KeptSuffix(me: nat, log: Log, ledger: Ledger, snap: nat)
    requires LogOk(log) && snap <= |log|
    requires forall id :: snap <= id < |log| ==> (me, id) in ledger
    ensures Kept(me, log, ledger) == Kept(me, log[..snap], ledger) + log[snap..]
  {
    if snap == |log| {
      assert log[..snap] == log && log[snap..] == [];
    } else {
      var n := |log| - 1;
      KeptSuffix(me, log[..n], ledger, snap);
      assert log[..n][..snap] == log[..snap];
      assert log[snap..] == log[..n][snap..] + [log[n]];
    }
  }

  /**
   A run in which no push evicted a batch that a live request carries, and a state of it in which the
   spool is empty and no batch since the latest restart was lost.
   */
  ghost predicate Drained(me: nat, states: seq<System>, steps: seq<Step>, start: nat, n: nat, source: Source) {
    && Run(me, states, steps) && start < n < |states| && (source == Running || source == Installed)
    && LatestStart(steps, start, n, source)
    && (forall i :: 0 <= i < n ==> SafeStep(me, states[i], steps[i]))
    && states[n].queue.items == []
    && (forall id :: |states[start].log| <= id < |states[n].log| ==> id !in states[n].lost)
  }

  /** In a drained run every slot of a source that the restart reported on shows what the history leaves there. */
  lemma DrainedShows(me: nat, states: seq<System>, steps: seq<Step>, start: nat, n: nat, source: Source)
    requires Drained(me, states, steps, start, n, source)
    ensures Valid(states[n].tables) && me in states[n].tables.agents
    ensures var cs := Collections(steps, start, n, source);
            && StateOf(states[n].agent, source) == StateAfter(cs, |cs|)
            && forall ident :: At(states[n].tables, Slot(states[n].tables.agents[me], source, ident)) == RowShown(Shown(cs, |cs|, ident))
  {
    hide Next, Shown, At, LogEffect, Collections, SafeStep, OrphanFree;
    var snap, host, cs := |states[start].log|, states[0].tables.agents[me], Collections(steps, start, n, source);
    SafeRun(me, states, steps, n);
    LogShowsHistory(me, states, steps, start, n, host, source);
    InOrderEffect(me, states, steps, n);
    DrainedLedger(me, states[n], snap);
    TablesFollowApplied(me, states, steps, n, Slot(host, source, Hashed("")));
    forall ident ensures At(states[n].tables, Slot(host, source, ident)) == RowShown(Shown(cs, |cs|, ident)) {
      var slot := Slot(host, source, ident);
      TablesFollowApplied(me, states, steps, n, slot);
      DrainedEffect(me, states[n], snap, slot, At(states[0].tables, slot));
    }
  }

  /**
   Convergence, exactly: in a drained run the server's rows of the host mirror the agent's state, with
   paths and owners when `exact`, if and only if the collections since the restart tell it. Nothing is
   assumed of what was collected: handovers, flaps and later diffs that heal them are all accounted for.
   */
  lemma ConvergesIff(exact: bool, me: nat, states: seq<System>, steps: seq<Step>, start: nat, n: nat, source: Source)
    requires Drained(me, states, steps, start, n, source)
    ensures me in states[n].tables.agents
    ensures Mirrors(exact, states[n].tables, states[n].tables.agents[me], source, StateOf(states[n].agent, source)) <==>
            Tells(exact, Collections(steps, start, n, source))
  {
    assert start < n < |states| == |steps| + 1 && (source == Running || source == Installed);
    hide Drained, Mirrors, Shown, At, Faithful, Collections;
    DrainedShows(me, states, steps, start, n, source);
    FaithfulSlotsMirror(exact, states[n].tables, states[n].tables.agents[me], source, StateOf(states[n].agent, source));
  }

  /**
   Convergence. In a drained run, if no collection since the restart handed an identity over from a key
   that left to one that is held, the server's rows of the host are exactly the catalog identities of
   the agent's state. If moreover identity is injective on the keys that meet in each diff, the rows show
   the agent's paths and owners if and only if every key's last item sent shows those last collected.
   */
  lemma Converges(me: nat, states: seq<System>, steps: seq<Step>, start: nat, n: nat, source: Source)
    requires Drained(me, states, steps, start, n, source)
    requires NoHandovers(Collections(steps, start, n, source))
    ensures me in states[n].tables.agents
    ensures Mirrors(false, states[n].tables, states[n].tables.agents[me], source, StateOf(states[n].agent, source))
    ensures Injectives(Collections(steps, start, n, source)) ==>
              (Mirrors(true, states[n].tables, states[n].tables.agents[me], source, StateOf(states[n].agent, source)) <==>
               SettledRows(Collections(steps, start, n, source)))
  {
    assert start < n < |states| == |steps| + 1 && (source == Running || source == Installed);
    hide Drained, Mirrors, Tells, NoHandovers, Injectives, SettledRows;
    var cs := Collections(steps, start, n, source);
    ConvergesIff(false, me, states, steps, start, n, source);
    ConvergesIff(true, me, states, steps, start, n, source);
    RowsTell(cs);
    if Injectives(cs) {
      ValuesTellIff(cs);
    }
  }

  /** With an empty queue and nothing lost since `snap`, the ledger holds everything from there on. */
  lemma DrainedLedger(me: nat, s: System, snap: nat)
    requires Inv(me, s) && s.queue.items == []
    requires forall id :: snap <= id < |s.log| ==> id !in s.lost
    ensures forall id :: snap <= id < |s.log| ==> (me, id) in s.tables.ledger
  {
  }

  lemma DrainedEffect(me: nat, s: System, snap: nat, slot: Slot, x: Option<InventoryRow>)
    requires LogOk(s.log) && snap <= |s.log|
    requires forall id :: snap <= id < |s.log| ==> (me, id) in s.tables.ledger
    requires s.applied == Kept(me, s.log, s.tables.ledger)
    ensures LogEffect(s.applied, slot, x) ==
            LogEffect(s.log[snap..], slot, LogEffect(Kept(me, s.log[..snap], s.tables.ledger), slot, x))
  {
    KeptSuffix(me, s.log, s.tables.ledger, snap);
    LogEffectConcat(Kept(me, s.log[..snap], s.tables.ledger), s.log[snap..], slot, x);
  }
}
