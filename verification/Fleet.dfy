/**
 Configuration pushes, decommissioning and the agents' requests over the agents, commands and
 inventory tables (internal/server/store/decommission.go, internal/server/store/agent.go, the handlers
 of internal/server/api/handlers.go and the certificate gate). A push and a decommission are two
 statements each; a check-in, a heartbeat and an ingest are the gate followed by their own database
 calls. The steps of any number of them interleave, and any of them may stop half way.
 */
module Fleet {
  import opened Wire
  import Inventory = InventoryTables

  datatype Kind = ConfigUpdate | Decommission | OtherKind(text: string)

  /** A command's id is its place in creation order. `config` stands for the payload. */
  datatype Command = Command(agent: nat, kind: Kind, config: nat, acked: bool)

  datatype AgentRow = AgentRow(fingerprint: string, active: bool, config: nat, version: nat, checkins: nat, beats: nat)

  datatype Tables = Tables(agents: map<nat, AgentRow>, commands: seq<Command>)

  // ---------------------------------------------------------------- single statements

  function Bump(t: Tables, a: nat, config: nat): Tables {
    if a in t.agents then t.(agents := t.agents[a := t.agents[a].(config := config, version := t.agents[a].version + 1)]) else t
  }

  function Retire(t: Tables, a: nat): Tables {
    if a in t.agents then t.(agents := t.agents[a := t.agents[a].(active := false)]) else t
  }

  /** The foreign key on commands rejects an unknown agent. */
  function Enqueue(t: Tables, a: nat, kind: Kind, config: nat): Tables {
    if a in t.agents then t.(commands := t.commands + [Command(a, kind, config, false)]) else t
  }

  function Touch(t: Tables, a: nat): Tables {
    if a in t.agents then t.(agents := t.agents[a := t.agents[a].(checkins := t.agents[a].checkins + 1)]) else t
  }

  function Beat(t: Tables, a: nat): Tables {
    if a in t.agents then t.(agents := t.agents[a := t.agents[a].(beats := t.agents[a].beats + 1)]) else t
  }

  function AckOne(c: Command, a: nat, acks: bool): Command {
    if c.agent == a && acks then c.(acked := true) else c
  }

  function Acked(commands: seq<Command>, a: nat, ids: set<nat>): (r: seq<Command>)
    ensures |r| == |commands|
    ensures forall i :: 0 <= i < |r| ==> r[i] == AckOne(commands[i], a, i in ids)
  {
    if commands == [] then [] else
      var n := |commands| - 1;
      Acked(commands[..n], a, ids) + [AckOne(commands[n], a, n in ids)]
  }

  /** Ids of the agent's unacknowledged commands, in creation order. */
  function Pending(commands: seq<Command>, a: nat): (r: seq<nat>)
    ensures forall i :: i in r <==> 0 <= i < |commands| && commands[i].agent == a && !commands[i].acked
    ensures forall i, j :: 0 <= i < j < |r| ==> r[i] < r[j]
  {
    if commands == [] then []
    else
      var n := |commands| - 1;
      var init := Pending(commands[..n], a);
      assert forall i :: 0 <= i < |init| ==> init[i] in init;
      init + if commands[n].agent == a && !commands[n].acked then [n] else []
  }

  class Store {
    var agents: map<nat, AgentRow>
    var commands: seq<Command>

    function State(): Tables
      reads this
    {
      Tables.Tables(agents, commands)
    }

    constructor (t: Tables)
      ensures State() == t
    {
      agents, commands := t.agents, t.commands;
    }

    /** The certificate gate: only active agents are found. */
    method GetAgentByCert(fingerprint: string) returns (a: Option<nat>)
      ensures a.Some? ==> a.value in agents && agents[a.value].fingerprint == fingerprint && agents[a.value].active
      ensures a.None? ==> forall id :: id in agents && agents[id].fingerprint == fingerprint ==> !agents[id].active
    {
      if id :| id in agents && agents[id].fingerprint == fingerprint && agents[id].active {
        return Some(id);
      }
      return None;
    }

    /** AckCommands: an empty list is a no-op. */
    method AckCommands(a: nat, ids: set<nat>)
      modifies this`commands
      ensures State() == old(State()).(commands := Acked(old(commands), a, ids))
      ensures |commands| == |old(commands)| && forall i :: 0 <= i < |commands| ==>
                commands[i] == if old(commands)[i].agent == a && i in ids then old(commands)[i].(acked := true) else old(commands)[i]
    {
      if ids == {} {
        assert forall i :: 0 <= i < |commands| ==> AckOne(commands[i], a, i in ids) == commands[i];
        return;
      }
      ghost var before := commands;
      for i := 0 to |commands|
        invariant |commands| == |before|
        invariant forall j :: 0 <= j < |before| ==> commands[j] == if j < i then AckOne(before[j], a, j in ids) else before[j]
      {
        if commands[i].agent == a && i in ids {
          commands := commands[i := commands[i].(acked := true)];
        }
      }
      assert commands == Acked(before, a, ids);
    }

    method PendingCommands(a: nat) returns (ids: seq<nat>)
      ensures ids == Pending(commands, a)
      ensures forall i :: i in ids <==> 0 <= i < |commands| && commands[i].agent == a && !commands[i].acked
      ensures forall i, j :: 0 <= i < j < |ids| ==> ids[i] < ids[j]
    {
      ids := [];
      for i := 0 to |commands|
        invariant ids == Pending(commands[..i], a)
      {
        assert commands[..i + 1][..i] == commands[..i];
        if commands[i].agent == a && !commands[i].acked {
          ids := ids + [i];
        }
      }
      assert commands[..|commands|] == commands;
    }

    /** PushConfig: bump the version, then queue the command; `second` is whether it gets that far. */
    method PushConfig(a: nat, config: nat, second: bool)
      modifies this
      ensures State() == if second then Enqueue(Bump(old(State()), a, config), a, ConfigUpdate, config) else Bump(old(State()), a, config)
      ensures a !in old(agents) ==> State() == old(State())
      ensures a in old(agents) ==> a in agents && agents == old(agents)[a := agents[a]]
      ensures a in old(agents) ==> agents[a].config == config && agents[a].version == old(agents)[a].version + 1
      ensures a in old(agents) ==> agents[a].fingerprint == old(agents)[a].fingerprint && agents[a].active == old(agents)[a].active
      ensures a in old(agents) ==> agents[a].checkins == old(agents)[a].checkins && agents[a].beats == old(agents)[a].beats
      ensures a in old(agents) ==> commands == old(commands) + if second then [Command(a, ConfigUpdate, config, false)] else []
    {
      if a in agents {
        agents := agents[a := agents[a].(config := config, version := agents[a].version + 1)];
      }
      if second && a in agents {
        commands := commands + [Command(a, ConfigUpdate, config, false)];
      }
    }

    /** DecommissionAgent: deactivate, then queue the command. */
    method DecommissionAgent(a: nat, second: bool)
      modifies this
      ensures State() == if second then Enqueue(Retire(old(State()), a), a, Decommission, 0) else Retire(old(State()), a)
      ensures a !in old(agents) ==> State() == old(State())
      ensures a in old(agents) ==> a in agents && agents == old(agents)[a := agents[a]] && !agents[a].active
      ensures a in old(agents) ==> agents[a].config == old(agents)[a].config && agents[a].version == old(agents)[a].version
      ensures a in old(agents) ==> agents[a].fingerprint == old(agents)[a].fingerprint
      ensures a in old(agents) ==> agents[a].checkins == old(agents)[a].checkins && agents[a].beats == old(agents)[a].beats
      ensures a in old(agents) ==> commands == old(commands) + if second then [Command(a, Decommission, 0, false)] else []
    {
      if a in agents {
        agents := agents[a := agents[a].(active := false)];
      }
      if second && a in agents {
        commands := commands + [Command(a, Decommission, 0, false)];
      }
    }
  }

  predicate Passes(t: Tables, fingerprint: string, a: nat) {
    a in t.agents && t.agents[a].fingerprint == fingerprint && t.agents[a].active
  }

  // ---------------------------------------------------------------- interleaved requests

  /** A started two-statement operation; `done` once its command is queued. */
  datatype Operation = Operation(agent: nat, kind: Kind, config: nat, done: bool)

  /**
   A check-in of agent `agent`, which reported version `known` when it was sent, at the gate or long
   before: passed the gate, touched, acked, then
   `seen` and `config` as read from its row; the reply carries the config iff `seen` is newer.
   */
  datatype Checkin = Checkin(agent: nat, known: nat, ids: set<nat>, phase: Phase, seen: nat, config: nat)

  datatype Phase = Gated | Touched | AckedPhase | Replied

  /** A heartbeat or an ingest that has passed the gate; `checked` is whether its batch was found unseen. */
  datatype Request = Beating(agent: nat) | Ingesting(agent: nat, batch: IngestRequest, checked: bool)

  /** `local` is each agent's own version; `history` records what every version's config was. */
  datatype Fleet = Fleet(tables: Tables, inventory: Inventory.Tables, ops: seq<Operation>, checkins: map<nat, Checkin>,
                         requests: map<nat, Request>, local: map<nat, nat>, history: map<(nat, nat), nat>)

  datatype Step =
    | StartPush(agent: nat, config: nat)
    | StartRetire(agent: nat)
    | Finish(op: nat)
    | Create(agent: nat, text: string)
    | Gate(id: nat, fingerprint: string, agent: nat, known: nat, ids: set<nat>)
    | Advance(id: nat)
    | Receive(id: nat)
    | Drop(id: nat)
    | Admit(id: nat, fingerprint: string, request: Request)
    | Serve(id: nat)
    | Abandon(id: nat)

  function Local(f: Fleet, a: nat): nat {
    if a in f.local then f.local[a] else 0
  }

  predicate Enabled(f: Fleet, s: Step) {
    match s
    case StartPush(a, _) => a in f.tables.agents
    case StartRetire(a) => a in f.tables.agents
    case Finish(op) => op < |f.ops| && !f.ops[op].done && f.ops[op].agent in f.tables.agents
    case Create(a, _) => a in f.tables.agents
    case Gate(id, fingerprint, a, known, _) => id !in f.checkins && Passes(f.tables, fingerprint, a) && known <= Local(f, a)
    case Advance(id) => id in f.checkins && f.checkins[id].phase != Replied && f.checkins[id].agent in f.tables.agents
    case Receive(id) => id in f.checkins && f.checkins[id].phase == Replied
    case Drop(id) => id in f.checkins
    case Admit(id, fingerprint, r) =>
      id !in f.requests && Passes(f.tables, fingerprint, r.agent) && (r.Ingesting? ==> !r.checked)
    case Serve(id) => id in f.requests
    case Abandon(id) => id in f.requests
  }

  /** The next database call of a heartbeat or an ingest; after its last one the request is over. */
  ghost function Served(f: Fleet, id: nat): Fleet
    requires id in f.requests
  {
    var rest := f.(requests := f.requests - {id});
    match f.requests[id]
    case Beating(a) => rest.(tables := Beat(f.tables, a))
    case Ingesting(a, b, false) =>
      if (a, b.batchId) in f.inventory.ledger then rest else f.(requests := f.requests[id := Ingesting(a, b, true)])
    case Ingesting(a, b, true) =>
      if Inventory.Accepts(f.inventory, a, b.batchId) then rest.(inventory := Inventory.Ingest(f.inventory, a, b)) else rest
  }

  ghost function After(f: Fleet, s: Step): Fleet
    requires Enabled(f, s)
  {
    match s
    case StartPush(a, config) =>
      f.(tables := Bump(f.tables, a, config), ops := f.ops + [Operation(a, ConfigUpdate, config, false)],
         history := f.history[(a, f.tables.agents[a].version + 1) := config])
    case StartRetire(a) => f.(tables := Retire(f.tables, a), ops := f.ops + [Operation(a, Decommission, 0, false)])
    case Finish(op) =>
      f.(tables := Enqueue(f.tables, f.ops[op].agent, f.ops[op].kind, f.ops[op].config), ops := f.ops[op := f.ops[op].(done := true)])
    case Create(a, text) => f.(tables := Enqueue(f.tables, a, OtherKind(text), 0))
    case Gate(id, _, a, known, ids) => f.(checkins := f.checkins[id := Checkin(a, known, ids, Gated, 0, 0)])
    case Advance(id) =>
      var c := f.checkins[id];
      var row := f.tables.agents[c.agent];
      (match c.phase
       case Gated => f.(tables := Touch(f.tables, c.agent), checkins := f.checkins[id := c.(phase := Touched)])
       case Touched =>
         f.(tables := f.tables.(commands := Acked(f.tables.commands, c.agent, c.ids)), checkins := f.checkins[id := c.(phase := AckedPhase)])
       case _ => f.(checkins := f.checkins[id := c.(phase := Replied, seen := row.version, config := row.config)]))
    case Receive(id) =>
      var c := f.checkins[id];
      f.(checkins := f.checkins - {id},
         local := if c.seen > Local(f, c.agent) then f.local[c.agent := c.seen] else f.local)
    case Drop(id) => f.(checkins := f.checkins - {id})
    case Admit(id, _, r) => f.(requests := f.requests[id := r])
    case Serve(id) => Served(f, id)
    case Abandon(id) => f.(requests := f.requests - {id})
  }

  /** What the reply carries: the config, if the row is newer than the version reported. */
  function ReplyConfig(c: Checkin): Option<nat> {
    if c.seen > c.known then Some(c.config) else None
  }

  // ---------------------------------------------------------------- versions

  /** Config updates queued for an agent, and pushes started but not yet queued. */
  function Queued(commands: seq<Command>, a: nat): nat {
    if commands == [] then 0
    else Queued(commands[..|commands| - 1], a) +
         if commands[|commands| - 1].agent == a && commands[|commands| - 1].kind == ConfigUpdate then 1 else 0
  }

  function Unfinished(ops: seq<Operation>, a: nat): nat {
    if ops == [] then 0
    else Unfinished(ops[..|ops| - 1], a) +
         if ops[|ops| - 1].agent == a && ops[|ops| - 1].kind == ConfigUpdate && !ops[|ops| - 1].done then 1 else 0
  }

  lemma QueuedSnoc(commands: seq<Command>, c: Command, a: nat)
    ensures Queued(commands + [c], a) == Queued(commands, a) + if c.agent == a && c.kind == ConfigUpdate then 1 else 0
  {
  }

  lemma {:induction false} QueuedAcked(commands: seq<Command>, a: nat, ids: set<nat>, b: nat)
    ensures Queued(Acked(commands, a, ids), b) == Queued(commands, b)
  {
    if commands != [] {
      var n := |commands| - 1;
      assert Acked(commands, a, ids)[..n] == Acked(commands[..n], a, ids);
      QueuedAcked(commands[..n], a, ids, b);
      assert Acked(commands, a, ids)[n] == AckOne(commands[n], a, n in ids);
    }
  }

  lemma UnfinishedSnoc(ops: seq<Operation>, o: Operation, a: nat)
    ensures Unfinished(ops + [o], a) == Unfinished(ops, a) + if o.agent == a && o.kind == ConfigUpdate && !o.done then 1 else 0
  {
  }

  lemma {:induction false} UnfinishedDone(ops: seq<Operation>, i: nat, a: nat)
    requires i < |ops| && !ops[i].done
    ensures Unfinished(ops, a) == Unfinished(ops[i := ops[i].(done := true)], a) + if ops[i].agent == a && ops[i].kind == ConfigUpdate then 1 else 0
  {
    var n, ops' := |ops| - 1, ops[i := ops[i].(done := true)];
    if i < n {
      assert ops'[..n] == ops[..n][i := ops[..n][i].(done := true)];
      UnfinishedDone(ops[..n], i, a);
    } else {
      assert ops'[..n] == ops[..n];
    }
  }

  /** Row, local state and replies in flight agree with the recorded history of an agent's configs. */
  ghost predicate VersionsOk(f: Fleet) {
    && (forall a :: a in f.tables.agents ==>
          && Local(f, a) <= f.tables.agents[a].version
          && (a, f.tables.agents[a].version) in f.history && f.history[(a, f.tables.agents[a].version)] == f.tables.agents[a].config)
    && (forall k :: k in f.history && k.0 in f.tables.agents ==> k.1 <= f.tables.agents[k.0].version)
    && (forall id :: id in f.checkins ==> CheckinOk(f, f.checkins[id]))
  }

  ghost predicate CheckinOk(f: Fleet, c: Checkin) {
    && c.agent in f.tables.agents && c.known <= f.tables.agents[c.agent].version
    && (c.phase == Replied ==>
          && c.seen <= f.tables.agents[c.agent].version
          && (c.agent, c.seen) in f.history && f.history[(c.agent, c.seen)] == c.config)
  }

  /** The count of an agent's version increments that are accounted for by commands and pushes. */
  function Accounted(f: Fleet, a: nat): nat {
    Queued(f.tables.commands, a) + Unfinished(f.ops, a)
  }

  function Version(f: Fleet, a: nat): nat {
    if a in f.tables.agents then f.tables.agents[a].version else 0
  }

  lemma StepCounts(f: Fleet, s: Step, a: nat)
    requires Enabled(f, s)
    ensures Version(After(f, s), a) - Version(f, a) == Accounted(After(f, s), a) - Accounted(f, a)
    ensures Version(f, a) <= Version(After(f, s), a)
  {
    hide Queued, Unfinished;
    match s
    case StartPush(b, config) => UnfinishedSnoc(f.ops, Operation(b, ConfigUpdate, config, false), a);
    case StartRetire(b) => UnfinishedSnoc(f.ops, Operation(b, Decommission, 0, false), a);
    case Finish(op) => FinishCounts(f, op, a);
    case Create(b, text) => QueuedSnoc(f.tables.commands, Command(b, OtherKind(text), 0, false), a);
    case Advance(id) => AdvanceCounts(f, id, a);
    case _ =>
  }

  lemma AdvanceCounts(f: Fleet, id: nat, a: nat)
    requires Enabled(f, Advance(id))
    ensures Accounted(After(f, Advance(id)), a) == Accounted(f, a)
    ensures Version(After(f, Advance(id)), a) == Version(f, a)
  {
    hide Queued, Unfinished;
    if f.checkins[id].phase == Touched {
      QueuedAcked(f.tables.commands, f.checkins[id].agent, f.checkins[id].ids, a);
    }
  }

  lemma FinishCounts(f: Fleet, op: nat, a: nat)
    requires Enabled(f, Finish(op))
    ensures Accounted(After(f, Finish(op)), a) == Accounted(f, a)
  {
    var o := f.ops[op];
    QueuedSnoc(f.tables.commands, Command(o.agent, o.kind, o.config, false), a);
    UnfinishedDone(f.ops, op, a);
  }

  /** A check-in stays in order while its agent's version and the history only grow. */
  lemma CheckinSurvives(f: Fleet, f': Fleet, c: Checkin)
    requires CheckinOk(f, c) && c.agent in f'.tables.agents
    requires f.tables.agents[c.agent].version <= f'.tables.agents[c.agent].version
    requires forall k :: k in f.history && k.1 <= f.tables.agents[c.agent].version && k.0 == c.agent ==> k in f'.history && f'.history[k] == f.history[k]
    ensures CheckinOk(f', c)
  {
  }

  lemma PushVersions(f: Fleet, a: nat, config: nat)
    requires VersionsOk(f) && Enabled(f, StartPush(a, config))
    ensures VersionsOk(After(f, StartPush(a, config)))
  {
    var f' := After(f, StartPush(a, config));
    forall id | id in f'.checkins ensures CheckinOk(f', f'.checkins[id]) {
      CheckinSurvives(f, f', f.checkins[id]);
    }
  }

  /** What the invariant looks at in an agent's row. */
  ghost predicate SameVersions(t: Tables, t': Tables) {
    && t'.agents.Keys == t.agents.Keys
    && forall a :: a in t.agents ==> t'.agents[a].version == t.agents[a].version && t'.agents[a].config == t.agents[a].config
  }

  lemma SameVersionsKeep(f: Fleet, f': Fleet)
    requires VersionsOk(f) && SameVersions(f.tables, f'.tables) && f'.local == f.local && f'.history == f.history
    requires forall id :: id in f'.checkins ==> id in f.checkins && f'.checkins[id] == f.checkins[id]
    ensures VersionsOk(f')
  {
    forall i | i in f'.checkins ensures CheckinOk(f', f'.checkins[i]) {
      assert CheckinOk(f, f.checkins[i]);
    }
  }

  lemma CheckinPut(f: Fleet, id: nat, c: Checkin)
    requires VersionsOk(f) && CheckinOk(f, c)
    ensures VersionsOk(f.(checkins := f.checkins[id := c]))
  {
    var f' := f.(checkins := f.checkins[id := c]);
    forall i | i in f'.checkins ensures CheckinOk(f', f'.checkins[i]) {
      assert i != id ==> CheckinOk(f, f.checkins[i]);
    }
  }

  /** The step's table update leaves versions alone, and the check-in's new record is in order. */
  lemma AdvanceCheckin(f: Fleet, id: nat)
    requires VersionsOk(f) && Enabled(f, Advance(id))
    ensures var f' := After(f, Advance(id)); var f1 := f.(tables := f'.tables);
            SameVersions(f.tables, f1.tables) && f' == f1.(checkins := f.checkins[id := f'.checkins[id]]) && CheckinOk(f1, f'.checkins[id])
  {
    assert CheckinOk(f, f.checkins[id]);
    hide Acked;
  }

  lemma AdvanceVersions(f: Fleet, id: nat)
    requires VersionsOk(f) && Enabled(f, Advance(id))
    ensures VersionsOk(After(f, Advance(id)))
  {
    hide VersionsOk, CheckinOk, SameVersions, After;
    AdvanceCheckin(f, id);
    var f' := After(f, Advance(id));
    var f1 := f.(tables := f'.tables);
    SameVersionsKeep(f, f1);
    CheckinPut(f1, id, f'.checkins[id]);
  }

  lemma ReceiveVersions(f: Fleet, id: nat)
    requires VersionsOk(f) && Enabled(f, Receive(id))
    ensures VersionsOk(After(f, Receive(id)))
  {
    var f' := After(f, Receive(id));
    assert CheckinOk(f, f.checkins[id]);
    forall i | i in f'.checkins ensures CheckinOk(f', f'.checkins[i]) {
      assert CheckinOk(f, f.checkins[i]);
    }
  }

  /** Steps other than a push and those of check-ins leave versions, configs and history alone. */
  lemma QuietVersions(f: Fleet, s: Step)
    requires VersionsOk(f) && Enabled(f, s) && !s.StartPush? && !s.Advance? && !s.Gate? && !s.Receive?
    ensures VersionsOk(After(f, s))
  {
    hide VersionsOk, Inventory.Ingest;
    SameVersionsKeep(f, After(f, s));
  }

  lemma GateVersions(f: Fleet, s: Step)
    requires VersionsOk(f) && Enabled(f, s) && s.Gate?
    ensures VersionsOk(After(f, s))
  {
    CheckinPut(f, s.id, Checkin(s.agent, s.known, s.ids, Gated, 0, 0));
  }

  lemma StepVersions(f: Fleet, s: Step)
    requires VersionsOk(f) && Enabled(f, s)
    ensures VersionsOk(After(f, s))
  {
    hide VersionsOk, After, Enabled;
    match s
    case StartPush(a, config) => PushVersions(f, a, config);
    case Advance(id) => AdvanceVersions(f, id);
    case Gate(_, _, _, _, _) => GateVersions(f, s);
    case Receive(id) => ReceiveVersions(f, id);
    case _ => QuietVersions(f, s);
  }

  ghost predicate Run(f: Fleet, steps: seq<Step>)
    decreases |steps|
  {
    steps == [] || (Enabled(f, steps[0]) && Run(After(f, steps[0]), steps[1..]))
  }

  ghost function Final(f: Fleet, steps: seq<Step>): Fleet
    requires Run(f, steps)
    decreases |steps|
  {
    if steps == [] then f else Final(After(f, steps[0]), steps[1..])
  }

  /**
   Config versioning over every run: versions never decrease; every increment is one config_update
   command or one push that stopped before queueing it, so commands never outnumber increments; the
   agent is never ahead of the server; and a reply carries a config exactly when the row it read was
   newer than the version reported, namely the config that belongs to that version.
   */
  lemma {:induction false} ConfigVersioning(f: Fleet, steps: seq<Step>, a: nat)
    requires VersionsOk(f) && Run(f, steps)
    ensures var end := Final(f, steps);
            && Version(f, a) <= Version(end, a)
            && Version(end, a) - Version(f, a) == Accounted(end, a) - Accounted(f, a)
            && VersionsOk(end)
            && (a in end.tables.agents ==> Local(end, a) <= Version(end, a))
            && forall id :: id in end.checkins && end.checkins[id].phase == Replied ==>
                 var c := end.checkins[id];
                 if c.known < c.seen
                 then (c.agent, c.seen) in end.history && ReplyConfig(c) == Some(end.history[(c.agent, c.seen)])
                 else ReplyConfig(c) == None
    decreases |steps|
  {
    if steps != [] {
      StepCounts(f, steps[0], a);
      StepVersions(f, steps[0]);
      ConfigVersioning(After(f, steps[0]), steps[1..], a);
    } else {
      forall id | id in f.checkins ensures CheckinOk(f, f.checkins[id]) {}
    }
  }

  /** Newly enrolled agents: nothing queued, nothing under way, no agent has taken a config yet. */
  function Fresh(agents: map<nat, AgentRow>, inventory: Inventory.Tables): Fleet {
    Fleet(Tables.Tables(agents, []), inventory, [], map[], map[], map[],
          map a | a in agents :: (a, agents[a].version) := agents[a].config)
  }

  /**
   From fresh agents on: at every time the increments of an agent's version are the config updates
   queued for it plus the pushes that stopped before queueing theirs.
   */
  lemma FreshVersioning(agents: map<nat, AgentRow>, inventory: Inventory.Tables, steps: seq<Step>, a: nat)
    requires Run(Fresh(agents, inventory), steps) && a in agents
    ensures var end := Final(Fresh(agents, inventory), steps);
            && VersionsOk(end)
            && Version(end, a) == agents[a].version + Queued(end.tables.commands, a) + Unfinished(end.ops, a)
  {
    assert VersionsOk(Fresh(agents, inventory));
    ConfigVersioning(Fresh(agents, inventory), steps, a);
  }

  // ---------------------------------------------------------------- what a step changes

  /**
   An agent's row, step by step: the fingerprint never changes; a push sets config and version, the first
   step of a decommission clears the active mark, the first step of a check-in and a heartbeat's only one
   count as marks; nothing else touches the row, and no row of another agent.
   */
  lemma RowStep(f: Fleet, s: Step, a: nat)
    requires Enabled(f, s) && a in f.tables.agents
    ensures a in After(f, s).tables.agents
    ensures var row, row' := f.tables.agents[a], After(f, s).tables.agents[a];
            && row'.fingerprint == row.fingerprint
            && (row'.active <==> row.active && s != StartRetire(a))
            && (if s.StartPush? && s.agent == a then row'.config == s.config && row'.version == row.version + 1
                else row'.config == row.config && row'.version == row.version)
            && row'.checkins == row.checkins + (if s.Advance? && f.checkins[s.id].agent == a && f.checkins[s.id].phase == Gated then 1 else 0)
            && row'.beats == row.beats + (if s.Serve? && f.requests[s.id] == Beating(a) then 1 else 0)
  {
    hide Inventory.Ingest, Inventory.Accepts, Acked;
    match s
    case Advance(_) =>
    case Serve(_) =>
    case _ =>
  }

  /**
   The commands, step by step: the second statement of an operation queues its command with the payload of
   its first, an operator creates one, and a touched check-in marks its own agent's listed ones.
   */
  lemma CommandStep(f: Fleet, s: Step)
    requires Enabled(f, s)
    ensures var before, after := f.tables.commands, After(f, s).tables.commands;
            match s
            case Finish(op) => after == before + [Command(f.ops[op].agent, f.ops[op].kind, f.ops[op].config, false)]
            case Create(a, text) => after == before + [Command(a, OtherKind(text), 0, false)]
            case Advance(id) =>
              |after| == |before| && forall i :: 0 <= i < |before| ==>
                after[i] == if f.checkins[id].phase == Touched && before[i].agent == f.checkins[id].agent && i in f.checkins[id].ids
                            then before[i].(acked := true) else before[i]
            case _ => after == before
    ensures s.StartPush? ==> After(f, s).ops == f.ops + [Operation(s.agent, ConfigUpdate, s.config, false)]
    ensures s.StartRetire? ==> After(f, s).ops == f.ops + [Operation(s.agent, Decommission, 0, false)]
  {
    hide Inventory.Ingest, Inventory.Accepts;
    match s
    case Advance(_) =>
    case Serve(_) =>
    case _ =>
  }

  /** The agent's own version moves only when it receives a reply that is newer, and then to that version. */
  lemma LocalStep(f: Fleet, s: Step, a: nat)
    requires Enabled(f, s)
    ensures Local(After(f, s), a) ==
            if s.Receive? && f.checkins[s.id].agent == a && f.checkins[s.id].seen > Local(f, a) then f.checkins[s.id].seen else Local(f, a)
  {
    hide Inventory.Ingest, Inventory.Accepts, Acked, Bump, Retire, Enqueue, Touch, Beat;
    match s
    case Advance(_) =>
    case Serve(_) =>
    case _ =>
  }

  /** A check-in goes through its four calls in order, and its reply holds the version and config of the row as it is then. */
  lemma CheckinStep(f: Fleet, id: nat)
    requires Enabled(f, Advance(id))
    ensures var c := f.checkins[id]; var row := f.tables.agents[c.agent];
            After(f, Advance(id)).checkins == f.checkins[id :=
              match c.phase
              case Gated => Checkin(c.agent, c.known, c.ids, Touched, c.seen, c.config)
              case Touched => Checkin(c.agent, c.known, c.ids, AckedPhase, c.seen, c.config)
              case _ => Checkin(c.agent, c.known, c.ids, Replied, row.version, row.config)]
  {
  }

  /** Over every run an active agent stays active, under its fingerprint, if and only if no decommission of it starts. */
  lemma {:induction false} ActiveIff(f: Fleet, steps: seq<Step>, a: nat)
    requires a in f.tables.agents && Run(f, steps)
    ensures a in Final(f, steps).tables.agents && Final(f, steps).tables.agents[a].fingerprint == f.tables.agents[a].fingerprint
    ensures Final(f, steps).tables.agents[a].active <==> f.tables.agents[a].active && StartRetire(a) !in steps
    decreases |steps|
  {
    hide After, Enabled;
    if steps != [] {
      RowStep(f, steps[0], a);
      ActiveIff(After(f, steps[0]), steps[1..], a);
      assert steps == [steps[0]] + steps[1..];
    }
  }

  /**
   The gate, over every run: a heartbeat, an ingest or a check-in of the agent passes it afterwards if and only if it
   comes under the agent's fingerprint, the agent was active, and no decommission of it has started.
   */
  lemma GateIff(f: Fleet, steps: seq<Step>, a: nat, id: nat, fingerprint: string, r: Request)
    requires a in f.tables.agents && Run(f, steps) && r.agent == a && (r.Ingesting? ==> !r.checked)
    requires id !in Final(f, steps).requests
    ensures Enabled(Final(f, steps), Admit(id, fingerprint, r)) <==>
            f.tables.agents[a].fingerprint == fingerprint && f.tables.agents[a].active && StartRetire(a) !in steps
    ensures forall cid: nat, known: nat, ids :: cid !in Final(f, steps).checkins && known <= Local(Final(f, steps), a) ==>
              (Enabled(Final(f, steps), Gate(cid, fingerprint, a, known, ids)) <==>
               f.tables.agents[a].fingerprint == fingerprint && f.tables.agents[a].active && StartRetire(a) !in steps)
  {
    ActiveIff(f, steps, a);
  }

  // ---------------------------------------------------------------- decommission

  /** The agent is out and none of its requests is past the gate. */
  ghost predicate Out(f: Fleet, a: nat) {
    && a in f.tables.agents && !f.tables.agents[a].active
    && (forall id :: id in f.checkins ==> f.checkins[id].agent != a || f.checkins[id].phase == Replied)
    && (forall id :: id in f.requests ==> f.requests[id].agent != a)
  }

  /** The agent's commands keep their status; commands of any kind are only added. */
  ghost predicate CommandsKept(before: seq<Command>, after: seq<Command>, a: nat) {
    |before| <= |after| && forall i :: 0 <= i < |before| && before[i].agent == a ==> after[i] == before[i]
  }

  /**
   The agent's batches in the ledger are the same, and so is every slot of its host unless another
   agent reports for that host.
   */
  ghost predicate ContributionKept(before: Inventory.Tables, after: Inventory.Tables, a: nat) {
    && after.agents == before.agents
    && (forall i :: (a, i) in after.ledger <==> (a, i) in before.ledger)
    && (a in before.agents && (forall x :: x in before.agents && x != a ==> before.agents[x] != before.agents[a]) ==>
          forall s: Inventory.Slot :: s.host == before.agents[a] ==> Inventory.At(after, s) == Inventory.At(before, s))
  }

  lemma StepStaysOut(f: Fleet, s: Step, a: nat)
    requires Out(f, a) && Enabled(f, s)
    ensures var f' := After(f, s);
            && Out(f', a)
            && f'.tables.agents[a].checkins == f.tables.agents[a].checkins && f'.tables.agents[a].beats == f.tables.agents[a].beats
            && CommandsKept(f.tables.commands, f'.tables.commands, a)
  {
    hide Inventory.Ingest;
    if s.Advance? {
      AdvanceStaysOut(f, s.id, a);
    }
  }

  lemma AdvanceStaysOut(f: Fleet, id: nat, a: nat)
    requires Out(f, a) && Enabled(f, Advance(id))
    ensures var f' := After(f, Advance(id));
            && Out(f', a)
            && f'.tables.agents[a].checkins == f.tables.agents[a].checkins && f'.tables.agents[a].beats == f.tables.agents[a].beats
            && CommandsKept(f.tables.commands, f'.tables.commands, a)
  {
    hide Inventory.Ingest;
  }

  lemma StepKeepsContribution(f: Fleet, s: Step, a: nat)
    requires Inventory.Valid(f.inventory) && Out(f, a) && Enabled(f, s)
    ensures Inventory.Valid(After(f, s).inventory) && ContributionKept(f.inventory, After(f, s).inventory, a)
  {
    hide Inventory.Ingest, Inventory.Valid, Inventory.At, Inventory.BatchEffect;
    if s.Serve? && f.requests[s.id].Ingesting? {
      var r := f.requests[s.id];
      if Inventory.Accepts(f.inventory, r.agent, r.batch.batchId) {
        Inventory.IngestSound(f.inventory, r.agent, r.batch);
      }
    }
  }

  /**
   Decommission is terminal: once the agent is out, no run lets a check-in, heartbeat or ingest of it
   through the gate, so its marks stay as they are, its commands, the decommission included, keep
   their status, and the inventory holds what it had contributed and nothing else of it.
   */
  lemma {:induction false} DecommissionIsTerminal(f: Fleet, steps: seq<Step>, a: nat, fingerprint: string)
    requires Inventory.Valid(f.inventory) && Out(f, a) && Run(f, steps)
    ensures var end := Final(f, steps);
            && Out(end, a) && !Passes(end.tables, fingerprint, a)
            && end.tables.agents[a].checkins == f.tables.agents[a].checkins && end.tables.agents[a].beats == f.tables.agents[a].beats
            && CommandsKept(f.tables.commands, end.tables.commands, a)
            && (forall i :: i in Pending(f.tables.commands, a) ==> i in Pending(end.tables.commands, a))
            && Inventory.Valid(end.inventory) && ContributionKept(f.inventory, end.inventory, a)
    decreases |steps|
  {
    hide Inventory.Valid, Inventory.At, After, Enabled;
    if steps != [] {
      StepStaysOut(f, steps[0], a);
      StepKeepsContribution(f, steps[0], a);
      DecommissionIsTerminal(After(f, steps[0]), steps[1..], a, fingerprint);
    }
  }

  /** Some ingest of the agent's batch `i` is past the gate. */
  ghost predicate Admitted(f: Fleet, a: nat, i: nat) {
    exists id :: id in f.requests && IngestOf(f.requests[id], a, i)
  }

  predicate IngestOf(r: Request, a: nat, i: nat) {
    r.Ingesting? && r.agent == a && r.batch.batchId == i
  }

  /** The ledger only gains the batch of the ingest being served. */
  lemma StepLedger(f: Fleet, s: Step, a: nat, i: nat)
    requires Inventory.Valid(f.inventory) && Enabled(f, s)
    ensures Inventory.Valid(After(f, s).inventory)
    ensures (a, i) in After(f, s).inventory.ledger ==> (a, i) in f.inventory.ledger || (Admitted(f, a, i) && a in f.inventory.agents)
  {
    hide Inventory.Ingest, Inventory.Valid, Inventory.At, Inventory.BatchEffect;
    if s.Serve? && f.requests[s.id].Ingesting? {
      var r := f.requests[s.id];
      if Inventory.Accepts(f.inventory, r.agent, r.batch.batchId) {
        Inventory.IngestSound(f.inventory, r.agent, r.batch);
      }
    }
  }

  /** An ingest past the gate was so before the step, or has just passed it. */
  lemma AdmittedOrigin(f: Fleet, s: Step, a: nat, i: nat, id: nat)
    requires Enabled(f, s) && id in After(f, s).requests && IngestOf(After(f, s).requests[id], a, i)
    ensures (s.Admit? && s.request.agent == a) || (id in f.requests && IngestOf(f.requests[id], a, i))
  {
    hide Inventory.Ingest, Inventory.Accepts, Acked, Bump, Retire, Enqueue, Touch, Beat;
    match s
    case Advance(_) =>
    case Serve(_) =>
    case _ =>
  }

  lemma StepAdmitsNothing(f: Fleet, s: Step, a: nat, i: nat)
    requires a in f.tables.agents && !f.tables.agents[a].active && Enabled(f, s)
    ensures Admitted(After(f, s), a, i) ==> Admitted(f, a, i)
  {
    hide After, IngestOf;
    if Admitted(After(f, s), a, i) {
      var id :| id in After(f, s).requests && IngestOf(After(f, s).requests[id], a, i);
      AdmittedOrigin(f, s, a, i, id);
    }
  }

  lemma StepKeepsAgents(f: Fleet, s: Step)
    requires Enabled(f, s)
    ensures After(f, s).inventory.agents == f.inventory.agents
  {
    hide Inventory.Ingest, Inventory.Accepts;
    if s.Serve? {
      ServeKeepsAgents(f, s.id);
    }
  }

  lemma ServeKeepsAgents(f: Fleet, id: nat)
    requires id in f.requests
    ensures Served(f, id).inventory.agents == f.inventory.agents
  {
    if f.requests[id].Ingesting? && Inventory.Accepts(f.inventory, f.requests[id].agent, f.requests[id].batch.batchId) {
      Inventory.IngestKeepsAgents(f.inventory, f.requests[id].agent, f.requests[id].batch);
    }
  }

  /** A deactivated agent stays so. */
  lemma StepStaysInactive(f: Fleet, s: Step, a: nat)
    requires a in f.tables.agents && !f.tables.agents[a].active && Enabled(f, s)
    ensures a in After(f, s).tables.agents && !After(f, s).tables.agents[a].active
  {
    hide Inventory.Ingest, Inventory.Accepts, Acked;
    match s
    case Advance(id) =>
    case Serve(id) =>
    case _ =>
  }

  lemma {:induction false} OnlyAdmittedLand(f: Fleet, steps: seq<Step>, a: nat, i: nat)
    requires Inventory.Valid(f.inventory) && a in f.tables.agents && !f.tables.agents[a].active && Run(f, steps)
    ensures (a, i) in Final(f, steps).inventory.ledger ==>
              (a, i) in f.inventory.ledger || (Admitted(f, a, i) && a in f.inventory.agents)
    decreases |steps|
  {
    hide Inventory.Valid, After, Enabled, Admitted;
    if steps != [] {
      StepLedger(f, steps[0], a, i);
      StepAdmitsNothing(f, steps[0], a, i);
      StepKeepsAgents(f, steps[0]);
      StepStaysInactive(f, steps[0], a);
      OnlyAdmittedLand(After(f, steps[0]), steps[1..], a, i);
    }
  }

  lemma OneStep(f: Fleet, s: Step)
    requires Enabled(f, s)
    ensures Run(f, [s]) && Final(f, [s]) == After(f, s)
  {
    assert [s][1..] == [] && Run(After(f, s), []);
  }

  lemma TwoSteps(f: Fleet, s: Step, t: Step)
    requires Enabled(f, s) && Enabled(After(f, s), t)
    ensures Run(f, [s, t]) && Final(f, [s, t]) == After(After(f, s), t)
  {
    hide Enabled, After;
    OneStep(After(f, s), t);
    assert [s, t][1..] == [t];
  }

  /** An ingest past the gate whose batch is not in the ledger can be served to its end. */
  lemma AdmittedLands(f: Fleet, a: nat, i: nat) returns (steps: seq<Step>)
    requires Inventory.Valid(f.inventory) && Admitted(f, a, i) && Inventory.Accepts(f.inventory, a, i)
    ensures Run(f, steps) && (a, i) in Final(f, steps).inventory.ledger
  {
    hide Inventory.Ingest, Inventory.Valid, Inventory.At;
    var id :| id in f.requests && IngestOf(f.requests[id], a, i);
    Inventory.IngestSound(f.inventory, a, f.requests[id].batch);
    if f.requests[id].checked {
      OneStep(f, Serve(id));
      steps := [Serve(id)];
    } else {
      TwoSteps(f, Serve(id), Serve(id));
      steps := [Serve(id), Serve(id)];
    }
  }

  /**
   With requests under way, exactly: once the agent is deactivated, a batch of it can be in the ledger
   after some run if and only if it is there already or an ingest of it had passed the gate by then.
   */
  lemma LandIff(f: Fleet, a: nat, i: nat)
    requires Inventory.Valid(f.inventory) && a in f.tables.agents && !f.tables.agents[a].active
    ensures (exists steps :: Run(f, steps) && (a, i) in Final(f, steps).inventory.ledger) <==>
            (a, i) in f.inventory.ledger || (Admitted(f, a, i) && a in f.inventory.agents)
  {
    hide Inventory.Valid, After, Enabled, Admitted;
    if steps :| Run(f, steps) && (a, i) in Final(f, steps).inventory.ledger {
      OnlyAdmittedLand(f, steps, a, i);
    }
    if (a, i) in f.inventory.ledger {
      assert Run(f, []) && Final(f, []) == f;
    } else if Admitted(f, a, i) && a in f.inventory.agents {
      var steps := AdmittedLands(f, a, i);
    }
  }

  /** A check-in of the agent that is past the gate, has not acknowledged yet, and lists the command. */
  predicate WillAck(c: Checkin, a: nat, cmd: nat) {
    c.agent == a && cmd in c.ids && (c.phase == Gated || c.phase == Touched)
  }

  ghost predicate Acking(f: Fleet, a: nat, cmd: nat) {
    exists id :: id in f.checkins && WillAck(f.checkins[id], a, cmd)
  }

  ghost predicate PendingAt(f: Fleet, a: nat, cmd: nat) {
    cmd < |f.tables.commands| && f.tables.commands[cmd].agent == a && !f.tables.commands[cmd].acked
  }

  /** A check-in that is going to acknowledge was so before the step, or has just passed the gate. */
  lemma AckingOrigin(f: Fleet, s: Step, a: nat, cmd: nat, id: nat)
    requires Enabled(f, s) && id in After(f, s).checkins && WillAck(After(f, s).checkins[id], a, cmd)
    ensures (s.Gate? && s.agent == a) || (id in f.checkins && WillAck(f.checkins[id], a, cmd))
  {
    hide Inventory.Ingest, Bump, Retire, Enqueue, Touch, Beat, Acked;
  }

  lemma StepAcking(f: Fleet, s: Step, a: nat, cmd: nat)
    requires a in f.tables.agents && !f.tables.agents[a].active && Enabled(f, s)
    ensures Acking(After(f, s), a, cmd) ==> Acking(f, a, cmd)
  {
    hide After, WillAck;
    if Acking(After(f, s), a, cmd) {
      var id :| id in After(f, s).checkins && WillAck(After(f, s).checkins[id], a, cmd);
      AckingOrigin(f, s, a, cmd, id);
    }
  }

  lemma StepAcks(f: Fleet, s: Step, a: nat, cmd: nat)
    requires Enabled(f, s) && PendingAt(f, a, cmd) && !Acking(f, a, cmd)
    ensures PendingAt(After(f, s), a, cmd)
  {
    hide Inventory.Ingest;
  }

  lemma {:induction false} OnlyAckingAck(f: Fleet, steps: seq<Step>, a: nat, cmd: nat)
    requires a in f.tables.agents && !f.tables.agents[a].active && PendingAt(f, a, cmd) && !Acking(f, a, cmd) && Run(f, steps)
    ensures PendingAt(Final(f, steps), a, cmd)
    decreases |steps|
  {
    hide After, Enabled, Acking, PendingAt;
    if steps != [] {
      StepAcks(f, steps[0], a, cmd);
      StepAcking(f, steps[0], a, cmd);
      StepStaysInactive(f, steps[0], a);
      OnlyAckingAck(After(f, steps[0]), steps[1..], a, cmd);
    }
  }

  lemma AckingAcks(f: Fleet, a: nat, cmd: nat) returns (steps: seq<Step>)
    requires a in f.tables.agents && PendingAt(f, a, cmd) && Acking(f, a, cmd)
    ensures Run(f, steps) && !PendingAt(Final(f, steps), a, cmd)
  {
    var id :| id in f.checkins && WillAck(f.checkins[id], a, cmd);
    if f.checkins[id].phase == Touched {
      OneStep(f, Advance(id));
      steps := [Advance(id)];
    } else {
      TwoSteps(f, Advance(id), Advance(id));
      steps := [Advance(id), Advance(id)];
    }
  }

  /**
   The same for acknowledgements: once the agent is deactivated, a pending command of it stays pending
   in every run if and only if no check-in of it that lists the command is between gate and acknowledgement.
   */
  lemma StaysPendingIff(f: Fleet, a: nat, cmd: nat)
    requires a in f.tables.agents && !f.tables.agents[a].active && PendingAt(f, a, cmd)
    ensures (forall steps :: Run(f, steps) ==> PendingAt(Final(f, steps), a, cmd)) <==> !Acking(f, a, cmd)
  {
    hide After, Enabled, Acking, PendingAt;
    if Acking(f, a, cmd) {
      var steps := AckingAcks(f, a, cmd);
    } else {
      forall steps | Run(f, steps) ensures PendingAt(Final(f, steps), a, cmd) {
        OnlyAckingAck(f, steps, a, cmd);
      }
    }
  }

  /** A started operation keeps its agent, kind and payload. */
  lemma {:induction false} OperationsPersist(f: Fleet, steps: seq<Step>, i: nat)
    requires i < |f.ops| && Run(f, steps)
    ensures i < |Final(f, steps).ops| && Final(f, steps).ops[i] == f.ops[i].(done := Final(f, steps).ops[i].done)
    decreases |steps|
  {
    if steps != [] {
      OperationsPersist(After(f, steps[0]), steps[1..], i);
    }
  }

  /**
   Decommissioning an agent with no request under way shuts it out at once, whatever happens to the
   second statement; when that one runs, the queued command stays pending for ever.
   */
  lemma DecommissionShutsOut(f: Fleet, a: nat, fingerprint: string, steps: seq<Step>, more: seq<Step>)
    requires Inventory.Valid(f.inventory) && a in f.tables.agents
    requires forall id :: id in f.checkins ==> f.checkins[id].agent != a
    requires forall id :: id in f.requests ==> f.requests[id].agent != a
    requires Run(After(f, StartRetire(a)), steps) && Enabled(Final(After(f, StartRetire(a)), steps), Finish(|f.ops|))
    requires Run(After(Final(After(f, StartRetire(a)), steps), Finish(|f.ops|)), more)
    ensures var mid := Final(After(f, StartRetire(a)), steps); var end := Final(After(mid, Finish(|f.ops|)), more);
            && !Passes(mid.tables, fingerprint, a) && !Passes(end.tables, fingerprint, a)
            && ContributionKept(f.inventory, mid.inventory, a) && ContributionKept(f.inventory, end.inventory, a)
            && |mid.tables.commands| in Pending(end.tables.commands, a)
            && end.tables.commands[|mid.tables.commands|].kind == Decommission
  {
    hide Inventory.Valid, Inventory.At;
    var f1 := After(f, StartRetire(a));
    DecommissionIsTerminal(f1, steps, a, fingerprint);
    OperationsPersist(f1, steps, |f.ops|);
    var mid := Final(f1, steps);
    StepStaysOut(mid, Finish(|f.ops|), a);
    DecommissionIsTerminal(After(mid, Finish(|f.ops|)), more, a, fingerprint);
  }
}
