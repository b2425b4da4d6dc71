/**
 Agent, network and server as one state machine (cmd/agent/main.go, internal/agent/transport,
 internal/server/api/handlers.go). The agent's loop is single threaded: it collects only while no
 request is outstanding. Every request copy is a task of its own; the seen-check and the
 transaction of a task are separate steps, and copies may be delayed or lost without bound.

 `log`, `applied`, `lost` and `acked` are history: they never influence a step.
 */
module Protocol {
  import opened Wire
  import opened Delta
  import opened InventoryTables
  import opened Replica
  import Queue

  datatype AgentState = AgentState(proc: State, inst: State)

  /** What the handler did so far for one copy of a request. */
  datatype Phase = Arrived | Unseen | Accepted | Refused

  datatype Task = Task(batch: IngestRequest, phase: Phase)

  datatype System = System(
    agent: AgentState,
    queue: Queue.Queue,
    posting: Option<Queue.Entry>,
    tasks: map<nat, Task>,
    tables: Tables,
    log: seq<IngestRequest>,
    applied: seq<IngestRequest>,
    lost: set<nat>,
    acked: set<nat>)

  /** How a push ends: stored after dropping a prefix, or not committed. */
  datatype PushResult = Stored(evicted: nat) | Failed

  datatype Step =
    | Start(allProcs: seq<SoftwareDelta>, allInsts: seq<SoftwareDelta>, running: seq<SoftwareDelta>, installed: seq<SoftwareDelta>, push: PushResult)
    | Collect(procs: Option<seq<SoftwareDelta>>, insts: Option<seq<SoftwareDelta>>, running: seq<SoftwareDelta>, installed: seq<SoftwareDelta>, push: PushResult)
    | Send(rid: nat)
    | GiveUp
    | Lose(rid: nat)
    | CheckSeen(rid: nat)
    | Transact(rid: nat)
    | Refuse(rid: nat)
    | Deliver(rid: nat, removed: bool)
    | OtherIngest(agent: nat, req: IngestRequest)

  /** One source's share of collectAndSpool: skipped, or diffed against the last state. */
  ghost predicate CollectsOne(last: State, collected: Option<seq<SoftwareDelta>>, source: Source,
                              deltas: seq<SoftwareDelta>, next: State)
  {
    match collected
    case None => deltas == [] && next == last
    case Some(current) => From(current, source) && IsDiff(last, current, deltas, next)
  }

  function NextState(last: State, collected: Option<seq<SoftwareDelta>>): State {
    match collected
    case None => last
    case Some(current) => Collected(current)
  }

  function BatchId(e: Queue.Entry): nat {
    e.batch.batchId
  }

  predicate Pushable(q: Queue.Queue, push: PushResult) {
    push.Stored? ==> push.evicted <= |q.items|
  }

  /** The tail of collectAndSpool: a new batch is pushed, or is gone if the push fails. */
  function Produce(me: nat, s: System, b: IngestRequest, push: PushResult): System
    requires Pushable(s.queue, push)
  {
    match push
    case Stored(n) =>
      s.(queue := Queue.Push(s.queue, b, n),
         log := s.log + [b],
         lost := s.lost + set e | e in s.queue.items[..n] && (me, BatchId(e)) !in s.tables.ledger :: BatchId(e))
    case Failed =>
      s.(log := s.log + [b], lost := s.lost + {b.batchId})
  }

  function NextBatch(s: System, full: bool, running: seq<SoftwareDelta>, installed: seq<SoftwareDelta>): IngestRequest {
    IngestRequest(|s.log|, full, running, installed)
  }

  ghost predicate Enabled(me: nat, s: System, step: Step) {
    match step
    case Start(procs, insts, running, installed, push) =>
      && CollectsOne(map[], Some(procs), Running, running, Collected(procs))
      && CollectsOne(map[], Some(insts), Installed, installed, Collected(insts))
      && Pushable(s.queue, push)
    case Collect(procs, insts, running, installed, push) =>
      && s.posting.None?
      && CollectsOne(s.agent.proc, procs, Running, running, NextState(s.agent.proc, procs))
      && CollectsOne(s.agent.inst, insts, Installed, installed, NextState(s.agent.inst, insts))
      && Pushable(s.queue, push)
    case Send(rid) => rid !in s.tasks && s.queue.items != []
    case GiveUp => s.posting.Some?
    case Lose(rid) => rid in s.tasks
    case CheckSeen(rid) => rid in s.tasks && s.tasks[rid].phase == Arrived
    case Transact(rid) => rid in s.tasks && s.tasks[rid].phase == Unseen
    case Refuse(rid) => rid in s.tasks && (s.tasks[rid].phase == Arrived || s.tasks[rid].phase == Unseen)
    case Deliver(rid, _) =>
      rid in s.tasks && s.tasks[rid].phase == Accepted && s.posting.Some? && s.posting.value.batch == s.tasks[rid].batch
    case OtherIngest(agent, req) =>
      && Accepts(s.tables, agent, req.batchId) && me in s.tables.agents
      && agent != me && s.tables.agents[agent] != s.tables.agents[me]
  }

  ghost function After(me: nat, s: System, step: Step): System
    requires Enabled(me, s, step)
  {
    match step
    case Start(procs, insts, running, installed, push) =>
      var restarted := s.(agent := AgentState(Collected(procs), Collected(insts)), posting := None);
      Produce(me, restarted, NextBatch(s, true, running, installed), push)
    case Collect(procs, insts, running, installed, push) =>
      var s1 := s.(agent := AgentState(NextState(s.agent.proc, procs), NextState(s.agent.inst, insts)));
      if running == [] && installed == [] then s1
      else Produce(me, s1, NextBatch(s, false, running, installed), push)
    case Send(rid) =>
      s.(posting := Some(s.queue.items[0]), tasks := s.tasks[rid := Task(s.queue.items[0].batch, Arrived)])
    case GiveUp => s.(posting := None)
    case Lose(rid) => s.(tasks := s.tasks - {rid})
    case CheckSeen(rid) =>
      var b := s.tasks[rid].batch;
      s.(tasks := s.tasks[rid := Task(b, if (me, b.batchId) in s.tables.ledger then Accepted else Unseen)])
    case Transact(rid) =>
      var b := s.tasks[rid].batch;
      if Accepts(s.tables, me, b.batchId) then
        s.(tables := Ingest(s.tables, me, b), applied := s.applied + [b], tasks := s.tasks[rid := Task(b, Accepted)])
      else
        s.(tasks := s.tasks[rid := Task(b, Refused)])
    case Refuse(rid) => s.(tasks := s.tasks[rid := s.tasks[rid].(phase := Refused)])
    case Deliver(rid, removed) =>
      s.(queue := if removed then Queue.Ack(s.queue, s.posting.value.key) else s.queue,
         posting := None, acked := s.acked + {BatchId(s.posting.value)})
    case OtherIngest(agent, req) => s.(tables := Ingest(s.tables, agent, req))
  }

  ghost predicate Next(me: nat, s: System, step: Step, s': System) {
    Enabled(me, s, step) && s' == After(me, s, step)
  }

  /** Nothing produced, nothing in flight; the tables are any the database could hold. */
  ghost predicate Init(me: nat, s: System) {
    && Valid(s.tables) && me in s.tables.agents && (forall i :: (me, i) !in s.tables.ledger)
    && s.agent == AgentState(map[], map[]) && s.queue == Queue.Queue([], 0) && s.posting == None && s.tasks == map[]
    && s.log == [] && s.applied == [] && s.lost == {} && s.acked == {}
  }

  /** `states` is the run that `steps` drives from an initial state. */
  ghost predicate Run(me: nat, states: seq<System>, steps: seq<Step>) {
    && |states| == |steps| + 1
    && Init(me, states[0])
    && forall i :: 0 <= i < |steps| ==> StepAt(me, states, steps, i)
  }

  ghost predicate StepAt(me: nat, states: seq<System>, steps: seq<Step>, i: nat)
    requires |states| == |steps| + 1 && i < |steps|
  {
    Next(me, states[i], steps[i], states[i + 1])
  }

  // ---------------------------------------------------------------- invariant

  type Log = seq<IngestRequest>
  type Ledger = set<(nat, nat)>

  ghost predicate Logged(log: Log, b: IngestRequest) {
    b.batchId < |log| && log[b.batchId] == b
  }

  ghost predicate Queued(items: seq<Queue.Entry>, id: nat) {
    exists e :: e in items && BatchId(e) == id
  }

  ghost predicate LogOk(log: Log) {
    forall i :: 0 <= i < |log| ==> log[i].batchId == i
  }

  /** The queue holds logged batches in the order they were produced. */
  ghost predicate QueueOk(log: Log, q: Queue.Queue, posting: Option<Queue.Entry>) {
    && Queue.Valid(q)
    && (forall i :: 0 <= i < |q.items| ==> Logged(log, q.items[i].batch))
    && (forall i, j :: 0 <= i < j < |q.items| ==> BatchId(q.items[i]) < BatchId(q.items[j]))
    && (posting.Some? ==> q.items != [] && q.items[0] == posting.value)
  }

  /** A request carries a logged batch no younger than the queue's; an accepted one is in the ledger. */
  ghost predicate TaskOk(me: nat, log: Log, t: Task, items: seq<Queue.Entry>, ledger: Ledger) {
    && Logged(log, t.batch)
    && (t.phase == Accepted ==> (me, t.batch.batchId) in ledger)
    && (items != [] ==> t.batch.batchId <= BatchId(items[0]))
  }

  ghost predicate TasksOk(me: nat, log: Log, tasks: map<nat, Task>, items: seq<Queue.Entry>, ledger: Ledger) {
    forall r :: r in tasks ==> TaskOk(me, log, tasks[r], items, ledger)
  }

  /** The ledger records exactly the applied batches, each applied once. */
  ghost predicate AppliedOk(me: nat, log: Log, applied: seq<IngestRequest>, items: seq<Queue.Entry>, ledger: Ledger) {
    && (forall i :: 0 <= i < |applied| ==> Logged(log, applied[i]) && (me, applied[i].batchId) in ledger)
    && (forall id :: (me, id) in ledger ==> id < |log| && log[id] in applied)
    && (forall i, j :: 0 <= i < j < |applied| ==> applied[i].batchId != applied[j].batchId)
    && (items != [] ==> forall i :: 0 <= i < |applied| ==> applied[i].batchId <= BatchId(items[0]))
  }

  /** Every batch ever produced is queued, applied or lost; an acknowledged one is applied. */
  ghost predicate Accounted(me: nat, log: Log, items: seq<Queue.Entry>, ledger: Ledger, lost: set<nat>, acked: set<nat>) {
    && (forall i :: 0 <= i < |log| ==> Queued(items, i) || (me, i) in ledger || i in lost)
    && (forall i :: i in acked ==> (me, i) in ledger)
  }

  ghost predicate Inv(me: nat, s: System) {
    && Valid(s.tables) && me in s.tables.agents
    && LogOk(s.log)
    && QueueOk(s.log, s.queue, s.posting)
    && TasksOk(me, s.log, s.tasks, s.queue.items, s.tables.ledger)
    && AppliedOk(me, s.log, s.applied, s.queue.items, s.tables.ledger)
    && Accounted(me, s.log, s.queue.items, s.tables.ledger, s.lost, s.acked)
  }

  /** Appending to the log and dropping entries from the queue's front disturbs nothing recorded. */
  lemma LogGrows(me: nat, s: System, b: IngestRequest, items: seq<Queue.Entry>)
    requires Inv(me, s) && b.batchId == |s.log|
    requires items != [] ==> BatchId(items[0]) == |s.log| || (s.queue.items != [] && BatchId(s.queue.items[0]) <= BatchId(items[0]))
    ensures LogOk(s.log + [b])
    ensures TasksOk(me, s.log + [b], s.tasks, items, s.tables.ledger)
    ensures AppliedOk(me, s.log + [b], s.applied, items, s.tables.ledger)
  {
  }

  lemma PushQueueOk(s: System, b: IngestRequest, n: nat)
    requires QueueOk(s.log, s.queue, s.posting) && n <= |s.queue.items| && b.batchId == |s.log|
    ensures QueueOk(s.log + [b], Queue.Push(s.queue, b, n), None)
  {
    var items, q, log := s.queue.items, Queue.Push(s.queue, b, n), s.log + [b];
    Queue.PushValid(s.queue, b, n);
    assert forall i :: 0 <= i < |items| - n ==> q.items[i] == items[n + i];
    assert forall i :: 0 <= i < |s.log| ==> log[i] == s.log[i];
  }

  lemma PushAccounted(me: nat, s: System, b: IngestRequest, n: nat)
    requires Inv(me, s) && n <= |s.queue.items| && b.batchId == |s.log|
    ensures var s' := Produce(me, s, b, Stored(n)); Accounted(me, s'.log, s'.queue.items, s.tables.ledger, s'.lost, s'.acked)
  {
    var s', items := Produce(me, s, b, Stored(n)), s.queue.items;
    var added := s'.queue.items[|items| - n];
    forall i | 0 <= i < |s'.log|
      ensures Queued(s'.queue.items, i) || (me, i) in s'.tables.ledger || i in s'.lost
    {
      if i == |s.log| {
        assert added in s'.queue.items && BatchId(added) == i;
      } else if Queued(items, i) {
        var j :| 0 <= j < |items| && BatchId(items[j]) == i;
        if j < n {
          assert items[..n][j] == items[j];
        } else {
          assert s'.queue.items[j - n] == items[j];
        }
      }
    }
  }

  lemma ProduceKeepsInv(me: nat, s: System, b: IngestRequest, push: PushResult)
    requires Inv(me, s) && Pushable(s.queue, push) && b.batchId == |s.log|
    requires s.posting.None?
    ensures Inv(me, Produce(me, s, b, push))
  {
    var s', items := Produce(me, s, b, push), s.queue.items;
    match push
    case Stored(n) =>
      assert n < |items| ==> s'.queue.items[0] == items[n] && (n > 0 ==> BatchId(items[0]) < BatchId(items[n]));
      LogGrows(me, s, b, s'.queue.items);
      PushQueueOk(s, b, n);
      PushAccounted(me, s, b, n);
    case Failed =>
      LogGrows(me, s, b, items);
      assert forall i :: 0 <= i < |s.log| ==> s'.log[i] == s.log[i];
  }

  lemma SendKeepsInv(me: nat, s: System, rid: nat)
    requires Inv(me, s) && Enabled(me, s, Send(rid))
    ensures Inv(me, After(me, s, Send(rid)))
  {
  }

  /** A task may change phase, as long as an accepted one is in the ledger. */
  lemma PhaseKeepsInv(me: nat, s: System, rid: nat, phase: Phase)
    requires Inv(me, s) && rid in s.tasks
    requires phase == Accepted ==> (me, s.tasks[rid].batch.batchId) in s.tables.ledger
    ensures Inv(me, s.(tasks := s.tasks[rid := Task(s.tasks[rid].batch, phase)]))
  {
  }

  /** Applying one more logged batch, no younger than the queue. */
  lemma IngestKeepsInv(me: nat, s: System, b: IngestRequest)
    requires Inv(me, s) && Accepts(s.tables, me, b.batchId)
    requires TaskOk(me, s.log, Task(b, Unseen), s.queue.items, s.tables.ledger)
    ensures Inv(me, s.(tables := Ingest(s.tables, me, b), applied := s.applied + [b]))
  {
    hide Ingest, At;
    IngestSound(s.tables, me, b);
    var tables, applied := Ingest(s.tables, me, b), s.applied + [b];
    assert applied[|s.applied|] == b && forall i :: 0 <= i < |s.applied| ==> applied[i] == s.applied[i];
    assert forall x :: x in applied <==> x in s.applied || x == b;
    forall r | r in s.tasks ensures TaskOk(me, s.log, s.tasks[r], s.queue.items, tables.ledger) {
      assert TaskOk(me, s.log, s.tasks[r], s.queue.items, s.tables.ledger);
    }
    assert AppliedOk(me, s.log, applied, s.queue.items, tables.ledger);
  }

  lemma TransactKeepsInv(me: nat, s: System, rid: nat)
    requires Inv(me, s) && Enabled(me, s, Transact(rid))
    ensures Inv(me, After(me, s, Transact(rid)))
  {
    var b := s.tasks[rid].batch;
    assert TaskOk(me, s.log, s.tasks[rid], s.queue.items, s.tables.ledger);
    if Accepts(s.tables, me, b.batchId) {
      IngestKeepsInv(me, s, b);
      IngestSound(s.tables, me, b);
      PhaseKeepsInv(me, s.(tables := Ingest(s.tables, me, b), applied := s.applied + [b]), rid, Accepted);
    } else {
      PhaseKeepsInv(me, s, rid, Refused);
    }
  }

  /** The head leaves the queue; what follows it is ordered and younger. */
  lemma DeliverQueueOk(log: Log, q: Queue.Queue)
    requires QueueOk(log, q, None) && q.items != []
    ensures var q' := Queue.Ack(q, q.items[0].key);
            q'.items == q.items[1..] && QueueOk(log, q', None) && (q'.items != [] ==> BatchId(q.items[0]) < BatchId(q'.items[0]))
  {
    Queue.WithoutHead(q.items);
    assert forall i :: 0 <= i < |q.items| - 1 ==> q.items[1..][i] == q.items[i + 1];
    assert forall e :: e in q.items[1..] ==> e in q.items;
  }

  /** Without its head the queue is no older than before. */
  lemma YoungerHead(me: nat, s: System, items: seq<Queue.Entry>)
    requires TasksOk(me, s.log, s.tasks, s.queue.items, s.tables.ledger) && AppliedOk(me, s.log, s.applied, s.queue.items, s.tables.ledger)
    requires items != [] ==> s.queue.items != [] && BatchId(s.queue.items[0]) <= BatchId(items[0])
    ensures TasksOk(me, s.log, s.tasks, items, s.tables.ledger) && AppliedOk(me, s.log, s.applied, items, s.tables.ledger)
  {
  }

  /** The batch removed is in the ledger, so every batch stays accounted for. */
  lemma DeliverAccounted(me: nat, log: Log, items: seq<Queue.Entry>, ledger: Ledger, lost: set<nat>, acked: set<nat>)
    requires Accounted(me, log, items, ledger, lost, acked) && items != [] && (me, BatchId(items[0])) in ledger
    ensures Accounted(me, log, items[1..], ledger, lost, acked + {BatchId(items[0])})
  {
    forall i | Queued(items, i) && i != BatchId(items[0]) ensures Queued(items[1..], i) {
      var j :| 0 <= j < |items| && BatchId(items[j]) == i;
      assert items[1..][j - 1] == items[j];
    }
  }

  lemma DeliverKeepsInv(me: nat, s: System, rid: nat)
    requires Inv(me, s) && Enabled(me, s, Deliver(rid, true))
    ensures Inv(me, After(me, s, Deliver(rid, true)))
    ensures After(me, s, Deliver(rid, true)).queue.items == s.queue.items[1..]
  {
    assert QueueOk(s.log, s.queue, None) && TaskOk(me, s.log, s.tasks[rid], s.queue.items, s.tables.ledger);
    assert s.queue.items != [] && s.posting.value == s.queue.items[0];
    hide QueueOk, TasksOk, AppliedOk, Accounted, LogOk, Valid, Queue.Ack;
    DeliverQueueOk(s.log, s.queue);
    YoungerHead(me, s, s.queue.items[1..]);
    DeliverAccounted(me, s.log, s.queue.items, s.tables.ledger, s.lost, s.acked);
  }

  lemma OtherKeepsInv(me: nat, s: System, agent: nat, req: IngestRequest)
    requires Inv(me, s) && Enabled(me, s, OtherIngest(agent, req))
    ensures Inv(me, After(me, s, OtherIngest(agent, req)))
  {
    IngestSound(s.tables, agent, req);
    var ledger := s.tables.ledger + {(agent, req.batchId)};
    forall r | r in s.tasks ensures TaskOk(me, s.log, s.tasks[r], s.queue.items, ledger) {
      assert TaskOk(me, s.log, s.tasks[r], s.queue.items, s.tables.ledger);
    }
  }

  lemma StepKeepsInv(me: nat, s: System, step: Step, s': System)
    requires Inv(me, s) && Next(me, s, step, s')
    ensures Inv(me, s')
  {
    match step
    case Start(procs, insts, running, installed, push) =>
      var restarted := s.(agent := AgentState(Collected(procs), Collected(insts)), posting := None);
      ProduceKeepsInv(me, restarted, NextBatch(s, true, running, installed), push);
    case Collect(procs, insts, running, installed, push) =>
      var s1 := s.(agent := AgentState(NextState(s.agent.proc, procs), NextState(s.agent.inst, insts)));
      if running != [] || installed != [] {
        ProduceKeepsInv(me, s1, NextBatch(s, false, running, installed), push);
      }
    case Send(rid) => SendKeepsInv(me, s, rid);
    case GiveUp =>
    case Lose(rid) =>
    case CheckSeen(rid) =>
      PhaseKeepsInv(me, s, rid, if (me, s.tasks[rid].batch.batchId) in s.tables.ledger then Accepted else Unseen);
    case Transact(rid) => TransactKeepsInv(me, s, rid);
    case Refuse(rid) => PhaseKeepsInv(me, s, rid, Refused);
    case Deliver(rid, removed) =>
      if removed {
        DeliverKeepsInv(me, s, rid);
      } else {
        assert TaskOk(me, s.log, s.tasks[rid], s.queue.items, s.tables.ledger);
      }
    case OtherIngest(agent, req) => OtherKeepsInv(me, s, agent, req);
  }

  lemma {:induction false} RunKeepsInv(me: nat, states: seq<System>, steps: seq<Step>, n: nat)
    requires Run(me, states, steps) && n < |states|
    ensures Inv(me, states[n])
  {
    if n > 0 {
      RunKeepsInv(me, states, steps, n - 1);
      assert StepAt(me, states, steps, n - 1);
      StepKeepsInv(me, states[n - 1], steps[n - 1], states[n]);
    }
  }

  /**
   Exactly once, over every run: however requests and replies are lost, retried or delayed, no
   batch is applied twice, only produced batches are applied, every reply the agent took for an
   acceptance is backed by an applied batch, and a batch that is neither queued nor lost is applied.
   */
  lemma ExactlyOnce(me: nat, states: seq<System>, steps: seq<Step>, n: nat)
    requires Run(me, states, steps) && n < |states|
    ensures var s := states[n];
            && (forall i, j :: 0 <= i < j < |s.applied| ==> s.applied[i].batchId != s.applied[j].batchId)
            && (forall b :: b in s.applied ==> b in s.log)
            && (forall id :: id in s.acked ==> id < |s.log| && s.log[id] in s.applied)
            && (forall id :: 0 <= id < |s.log| && !Queued(s.queue.items, id) && id !in s.lost ==> s.log[id] in s.applied)
  {
    RunKeepsInv(me, states, steps, n);
    var s := states[n];
    forall b | b in s.applied ensures b in s.log {
      var i :| 0 <= i < |s.applied| && s.applied[i] == b;
      assert s.log[b.batchId] == b;
    }
  }
}
