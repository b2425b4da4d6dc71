/**
 Concrete runs that show which hypotheses the replication theorems cannot do without.
 */
module Witnesses {
  import opened Wire
  import opened Delta
  import opened InventoryTables
  import opened Replica
  import opened Protocol
  import Queue

  function Program(name: string, sha256: Option<string>): SoftwareDelta {
    SoftwareDelta(Upsert, Running, name, None, None, sha256, false, None, None, None, None, None)
  }

  lemma SingleCollected(d: SoftwareDelta)
    ensures Collected([d]) == map[KeyOf(d) := d]
  {
  }

  lemma SingleDiff(d: SoftwareDelta)
    requires d.op == Upsert
    ensures IsDiff(map[], [d], [d], Collected([d]))
  {
    SingleCollected(d);
    UpsertsSnoc(map[], [], d);
    assert [] + [d] == [d] && Upserts(map[], [d]) == [d];
    assert Departures(map[], Collected([d]), []) && [d] + Removes(map[], []) == [d];
  }

  // ---------------------------------------------------------------- a rename under one hash

  /**
   One binary, renamed: the new key's upsert and the old key's remove name one catalog row, the
   remove comes last, and the server is left without the row although the agent holds the item.
   */
  lemma RenameLosesTheRow(host: nat, x: Option<InventoryRow>) returns (last: State, current: seq<SoftwareDelta>, deltas: seq<SoftwareDelta>, slot: Slot)
    requires x.Some?
    ensures Sourced(last, Running) && From(current, Running) && IsDiff(last, current, deltas, Collected(current))
    ensures slot.host == host && slot.source == Running && Holds(last, slot.ident) && Holds(Collected(current), slot.ident)
    ensures Effect(deltas, slot, x) == None
  {
    var before, after := Program("old", Some("ab")), Program("renamed", Some("ab"));
    var k, k' := KeyOf(before), KeyOf(after);
    assert k != k';
    last, current, slot := map[k := before], [after], Slot(host, Running, Hashed("ab"));
    deltas := RenameDiff(last, before, after);
    SingleCollected(after);
    assert k in last && k !in Collected(current) && KeyIdentity(k) == slot.ident;
    assert k' in Collected(current) && KeyIdentity(k') == slot.ident;
    RowStep(last, current, deltas, slot, x);
  }

  lemma RenameDiff(last: State, before: SoftwareDelta, after: SoftwareDelta) returns (deltas: seq<SoftwareDelta>)
    requires KeyOf(before) != KeyOf(after) && last == map[KeyOf(before) := before]
    ensures IsDiff(last, [after], deltas, Collected([after]))
  {
    var ks := [KeyOf(before)];
    SingleCollected(after);
    assert Departures(last, Collected([after]), ks);
    deltas := Upserts(last, [after]) + Removes(last, ks);
  }

  // ---------------------------------------------------------------- a late copy of an evicted batch

  /** Some run from an initial state ends in `s`. */
  ghost predicate Reachable(me: nat, s: System) {
    exists states, steps :: Run(me, states, steps) && states[|states| - 1] == s
  }

  lemma ReachInit(me: nat, s: System)
    requires Init(me, s)
    ensures Reachable(me, s)
  {
    var steps: seq<Step> := [];
    assert Run(me, [s], steps) && [s][0] == s;
  }

  lemma ReachStep(me: nat, s: System, step: Step, s': System)
    requires Reachable(me, s) && Next(me, s, step, s')
    ensures Reachable(me, s')
  {
    hide Next, Init;
    var states, steps :| Run(me, states, steps) && states[|states| - 1] == s;
    var states', steps' := states + [s'], steps + [step];
    forall i | 0 <= i < |steps'| ensures StepAt(me, states', steps', i) {
      if i < |steps| {
        assert StepAt(me, states, steps, i);
      }
    }
    assert Run(me, states', steps') && states'[|states'| - 1] == s';
  }

  function Snapshot(id: nat, d: SoftwareDelta): IngestRequest {
    IngestRequest(id, true, [d], [])
  }

  /** Take one step of a reachable run. */
  lemma Go(me: nat, s: System, step: Step) returns (s': System)
    requires Reachable(me, s) && Inv(me, s) && Enabled(me, s, step)
    ensures s' == After(me, s, step) && Reachable(me, s') && Inv(me, s')
  {
    hide After, Enabled, Inv, Reachable;
    s' := After(me, s, step);
    ReachStep(me, s, step, s');
    StepKeepsInv(me, s, step, s');
  }

  /** Post the head of the queue, let the server handle it, and acknowledge it. */
  lemma DrainHead(me: nat, s: System, rid: nat) returns (s': System)
    requires Reachable(me, s) && Inv(me, s) && s.queue.items != [] && rid !in s.tasks
    requires Accepts(s.tables, me, BatchId(s.queue.items[0]))
    ensures Reachable(me, s') && Inv(me, s')
    ensures s'.queue.items == s.queue.items[1..] && s'.log == s.log && s'.lost == s.lost && s'.agent == s.agent
    ensures s'.tables == Ingest(s.tables, me, s.queue.items[0].batch)
    ensures forall r :: r in s.tasks ==> r in s'.tasks && s'.tasks[r] == s.tasks[r]
  {
    hide Ingest, Reachable, LogOk, TasksOk, AppliedOk, Accounted, QueueOk, Valid;
    var s1 := Go(me, s, Send(rid));
    var s2 := Go(me, s1, CheckSeen(rid));
    var s3 := Go(me, s2, Transact(rid));
    s' := Go(me, s3, Deliver(rid, true));
    DeliverKeepsInv(me, s3, rid);
  }

  /** Let the server handle a request that is still on its way. */
  lemma HandleLate(me: nat, s: System, rid: nat) returns (s': System)
    requires Reachable(me, s) && Inv(me, s) && rid in s.tasks && s.tasks[rid].phase == Arrived
    requires Accepts(s.tables, me, s.tasks[rid].batch.batchId)
    ensures Reachable(me, s') && s'.queue == s.queue && s'.log == s.log && s'.lost == s.lost && s'.agent == s.agent
    ensures s'.tables == Ingest(s.tables, me, s.tasks[rid].batch)
  {
    hide Ingest, Reachable, Inv;
    var s1 := Go(me, s, CheckSeen(rid));
    s' := Go(me, s1, Transact(rid));
  }

  /** A snapshot of one item leaves exactly that item's identity in the running slots. */
  lemma OneItemSnapshot(t: Tables, me: nat, id: nat, d: SoftwareDelta, s: Slot)
    requires Valid(t) && Accepts(t, me, id) && s.host == t.agents[me] && s.source == Running
    requires d.op == Upsert && d.source == Running
    ensures At(Ingest(t, me, Snapshot(id, d)), s).Some? <==> IdentityOf(d) == s.ident
  {
    var ds := AllDeltas(Snapshot(id, d));
    StampKeeps([d], Running);
    assert ds == [d] && d in ds;
    SnapshotStabilises(t, me, Snapshot(id, d), s);
    assert SeesSource(ds, Running);
    assert LastHit([], s) == None && ds[..0] == [];
  }

  /** The first start, and its snapshot on the wire. */
  lemma SnapshotPosted(p: SoftwareDelta) returns (s: System)
    requires p.op == Upsert && p.source == Running
    ensures Reachable(0, s) && Inv(0, s)
    ensures s.queue == Queue.Queue([Queue.Entry(1, Snapshot(0, p))], 1) && s.tasks == map[0 := Task(Snapshot(0, p), Arrived)]
    ensures s.log == [Snapshot(0, p)] && s.lost == {} && s.tables == EmptyTables()
  {
    hide Inv, Collected, Reachable;
    var s0 := System(AgentState(map[], map[]), Queue.Queue([], 0), None, map[], EmptyTables(), [], [], {}, {});
    ReachInit(0, s0);
    InitInv(0, s0);
    RunStart(s0, p, 0);
    var s1 := Go(0, s0, Start([p], [], [p], [], Stored(0)));
    s := Go(0, s1, Send(0));
  }

  /** Then the agent restarts, and the new snapshot's push evicts the old one. */
  lemma RestartWhilePosting(p: SoftwareDelta, q: SoftwareDelta) returns (s: System)
    requires p.op == Upsert && p.source == Running && q.op == Upsert && q.source == Running
    ensures Reachable(0, s) && Inv(0, s)
    ensures s.queue.items == [Queue.Entry(2, Snapshot(1, q))] && s.tasks == map[0 := Task(Snapshot(0, p), Arrived)]
    ensures s.log == [Snapshot(0, p), Snapshot(1, q)] && s.lost == {0} && s.agent.proc == Collected([q])
    ensures s.tables == EmptyTables()
  {
    hide Inv, Collected, Reachable, Enabled;
    var s2 := SnapshotPosted(p);
    RunStart(s2, q, 1);
    s := Go(0, s2, Start([q], [], [q], [], Stored(1)));
    var evicted := s2.queue.items[..1];
    assert evicted == [Queue.Entry(1, Snapshot(0, p))] && s2.queue.items[1..] == [];
    assert Queue.Entry(1, Snapshot(0, p)) in evicted && forall e :: e in evicted ==> BatchId(e) == 0;
  }

  /** A source whose snapshot is empty is not reconciled: its rows outlive the programs. */
  lemma EmptySnapshotKeepsRows() returns (t: Tables, req: IngestRequest, stale: Slot)
    ensures Valid(t) && Accepts(t, 0, req.batchId) && stale.host == t.agents[0] && stale.source == Running
    ensures req.fullSnapshot && req.running == [] && req.installed == []
    ensures At(Ingest(t, 0, req), stale).Some?
  {
    var p := Program("p", None);
    var first := Snapshot(0, p);
    IngestSound(EmptyTables(), 0, first);
    t, req, stale := Ingest(EmptyTables(), 0, first), IngestRequest(1, true, [], []), Slot(0, Running, IdentityOf(p));
    OneItemSnapshot(EmptyTables(), 0, 0, p, stale);
    SnapshotStabilises(t, 0, req, stale);
  }

  function EmptyTables(): Tables {
    Tables(map[0 := 0], map[], 0, map[], {})
  }

  lemma InitInv(me: nat, s: System)
    requires Init(me, s)
    ensures Inv(me, s)
  {
  }

  /**
   Why pushes must be safe: a snapshot is posted and its reply lost; a restart evicts it and its
   own snapshot is delivered; then the server gets round to the old copy. The spool is empty and
   nothing was lost since the restart, yet the host shows a program that the agent does not hold.
   */
  lemma LateCopyUndoesASnapshot() returns (s: System, stale: Slot)
    ensures Reachable(0, s) && s.queue.items == [] && |s.log| == 2 && s.log[1].fullSnapshot && s.lost == {0}
    ensures stale.source == Running && 0 in s.tables.agents && stale.host == s.tables.agents[0]
    ensures !Holds(s.agent.proc, stale.ident) && At(s.tables, stale).Some?
  {
    var p, q := Program("p", None), Program("q", None);
    assert p.name[0] == 'p' && q.name[0] == 'q';
    var s3 := RestartWhilePosting(p, q);
    hide Ingest, After, Inv;
    var s4 := DrainHead(0, s3, 1);
    IngestSound(s3.tables, 0, Snapshot(1, q));
    s := HandleLate(0, s4, 0);
    IngestSound(s4.tables, 0, Snapshot(0, p));
    stale := Slot(0, Running, IdentityOf(p));
    OneItemSnapshot(s4.tables, 0, 0, p, stale);
    SingleCollected(q);
    IdentityFromKey(q);
  }

  lemma RunStart(s: System, d: SoftwareDelta, evicted: nat)
    requires d.op == Upsert && d.source == Running && evicted <= |s.queue.items|
    ensures Enabled(0, s, Start([d], [], [d], [], Stored(evicted)))
  {
    SingleDiff(d);
    assert Departures(map[], map[], []) && Upserts(map[], []) + Removes(map[], []) == [];
    assert IsDiff(map[], [], [], Collected([]));
  }
}
