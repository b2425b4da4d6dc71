/**
 The ingest endpoint (internal/server/api/handlers.go): a seen-check followed by the transaction,
 two separate database calls, raced by any number of handlers for one batch.
 */
module Handlers {
  import opened Wire
  import opened InventoryTables
  import Store

  const OK: nat := 200
  const INTERNAL_ERROR: nat := 500

  /** One handler running alone: an accepted reply means the ledger has the batch. */
  method HandleIngest(db: Store.DB, agent: nat, req: IngestRequest) returns (status: nat)
    requires Valid(db.State())
    modifies db
    ensures status == 200 || status == 500
    ensures status == 200 <==> (agent, req.batchId) in db.ledger
    ensures db.State() == if Accepts(old(db.State()), agent, req.batchId) then Ingest(old(db.State()), agent, req) else old(db.State())
    ensures Valid(db.State())
  {
    ghost var before := db.State();
    var seen := db.IsBatchSeen(agent, req.batchId);
    if seen {
      return OK;
    }
    var err := db.IngestBatch(agent, req);
    if err.Some? {
      return INTERNAL_ERROR;
    }
    IngestSound(before, agent, req);
    return OK;
  }

  /** Where one handler is. */
  datatype Progress = Received | Unseen | Replied(status: nat)

  /** Any number of handlers, all serving the same (agent, batch). */
  datatype Race = Race(tables: Tables, handlers: seq<Progress>)

  /**
   A handler's next database call, a failure of that call, or a transaction that commits although
   the handler sees an error.
   */
  datatype Move = Check(i: nat) | Transact(i: nat) | Break(i: nat) | CommitUnheard(i: nat)

  predicate Possible(r: Race, m: Move) {
    match m
    case Check(i) => i < |r.handlers| && r.handlers[i] == Received
    case Transact(i) => i < |r.handlers| && r.handlers[i] == Unseen
    case Break(i) => i < |r.handlers| && !r.handlers[i].Replied?
    case CommitUnheard(i) => i < |r.handlers| && r.handlers[i] == Unseen
  }

  ghost function Moved(agent: nat, req: IngestRequest, r: Race, m: Move): Race
    requires Possible(r, m)
  {
    match m
    case Check(i) =>
      r.(handlers := r.handlers[i := if (agent, req.batchId) in r.tables.ledger then Replied(OK) else Unseen])
    case Transact(i) =>
      if Accepts(r.tables, agent, req.batchId) then Race(Ingest(r.tables, agent, req), r.handlers[i := Replied(OK)])
      else r.(handlers := r.handlers[i := Replied(INTERNAL_ERROR)])
    case Break(i) => r.(handlers := r.handlers[i := Replied(INTERNAL_ERROR)])
    case CommitUnheard(i) =>
      Race(if Accepts(r.tables, agent, req.batchId) then Ingest(r.tables, agent, req) else r.tables, r.handlers[i := Replied(INTERNAL_ERROR)])
  }

  ghost predicate Interleaving(agent: nat, req: IngestRequest, r: Race, moves: seq<Move>)
    decreases |moves|
  {
    moves == [] || (Possible(r, moves[0]) && Interleaving(agent, req, Moved(agent, req, r, moves[0]), moves[1..]))
  }

  ghost function Outcome(agent: nat, req: IngestRequest, r: Race, moves: seq<Move>): Race
    requires Interleaving(agent, req, r, moves)
    decreases |moves|
  {
    if moves == [] then r else Outcome(agent, req, Moved(agent, req, r, moves[0]), moves[1..])
  }

  /** Either nothing happened to the tables, or exactly one ingest did; accepted replies are backed. */
  ghost predicate OneEffect(t: Tables, agent: nat, req: IngestRequest, r: Race) {
    && (r.tables == t || (Accepts(t, agent, req.batchId) && r.tables == Ingest(t, agent, req)))
    && forall i :: 0 <= i < |r.handlers| && r.handlers[i] == Replied(OK) ==> (agent, req.batchId) in r.tables.ledger
  }

  /**
   Race safety: in every interleaving of any number of handlers for one batch, the tables are
   those of at most one IngestBatch, and every accepted reply was sent with the batch in the ledger.
   */
  lemma {:induction false} RaceSafe(t: Tables, agent: nat, req: IngestRequest, r: Race, moves: seq<Move>)
    requires Valid(t) && OneEffect(t, agent, req, r) && Interleaving(agent, req, r, moves)
    ensures OneEffect(t, agent, req, Outcome(agent, req, r, moves))
    decreases |moves|
  {
    if moves != [] {
      var r' := Moved(agent, req, r, moves[0]);
      if Accepts(t, agent, req.batchId) {
        IngestSound(t, agent, req);
      }
      assert OneEffect(t, agent, req, r');
      RaceSafe(t, agent, req, r', moves[1..]);
    }
  }

  /** A copy that is checked once the ledger has the batch is accepted without a transaction. */
  lemma LateCopyIsAccepted(agent: nat, req: IngestRequest, r: Race, i: nat)
    requires i < |r.handlers| && r.handlers[i] == Received && (agent, req.batchId) in r.tables.ledger
    ensures Moved(agent, req, r, Check(i)).handlers[i] == Replied(200) && Moved(agent, req, r, Check(i)).tables == r.tables
  {
  }

  /** If the batch was new and some handler accepted it, the tables are those of one IngestBatch. */
  lemma AcceptedMeansIngested(t: Tables, agent: nat, req: IngestRequest, count: nat, moves: seq<Move>, i: nat)
    requires Valid(t) && (agent, req.batchId) !in t.ledger
    requires Interleaving(agent, req, Race(t, seq(count, _ => Received)), moves)
    requires i < |Outcome(agent, req, Race(t, seq(count, _ => Received)), moves).handlers|
    requires Outcome(agent, req, Race(t, seq(count, _ => Received)), moves).handlers[i] == Replied(OK)
    ensures Accepts(t, agent, req.batchId)
    ensures Outcome(agent, req, Race(t, seq(count, _ => Received)), moves).tables == Ingest(t, agent, req)
  {
    RaceSafe(t, agent, req, Race(t, seq(count, _ => Received)), moves);
  }
}
