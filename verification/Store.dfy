/**
 The store's ingest methods over mutable tables (internal/server/store/ingest.go), proved to do
 what the Tables functions say. A transaction that fails changes nothing.
 */
module Store {
  import opened Wire
  import opened InventoryTables

  datatype IngestError = DuplicateBatch | UnknownAgent

  class DB {
    var agents: map<nat, nat>
    var catalog: map<nat, CatalogRow>
    var nextId: nat
    var inventory: map<RowKey, InventoryRow>
    var ledger: set<(nat, nat)>

    function State(): Tables
      reads this
    {
      Tables(agents, catalog, nextId, inventory, ledger)
    }

    constructor (t: Tables)
      ensures State() == t
    {
      agents, catalog, nextId, inventory, ledger := t.agents, t.catalog, t.nextId, t.inventory, t.ledger;
    }

    method IsBatchSeen(agent: nat, batchId: nat) returns (seen: bool)
      ensures seen <==> (agent, batchId) in ledger
    {
      seen := (agent, batchId) in ledger;
    }

    /**
     Resolves or inserts a catalog row: a new one is as sent, one that is there only changes its source.
     */
    method UpsertCatalog(d: SoftwareDelta) returns (id: nat)
      requires Valid(State())
      modifies this`catalog, this`nextId
      ensures State() == Resolve(old(State()), d).0 && id == Resolve(old(State()), d).1
      ensures id in catalog && IdentityOfRow(catalog[id]) == IdentityOf(d)
      ensures id !in old(catalog) <==> forall i :: i in old(catalog) ==> IdentityOfRow(old(catalog)[i]) != IdentityOf(d)
      ensures id in old(catalog) ==> catalog == old(catalog)[id := old(catalog)[id].(source := d.source)]
      ensures id !in old(catalog) ==>
                && catalog == old(catalog)[id := catalog[id]] && catalog[id].source == d.source && catalog[id].name == d.name
                && catalog[id].signed == d.signed && catalog[id].signer == d.signer && catalog[id].arch == d.arch
                && if StrVal(d.sha256) != ""
                   then catalog[id].sha256 == d.sha256 && catalog[id].publisher == d.publisher && catalog[id].version == d.version
                   else catalog[id].sha256 == None && catalog[id].publisher == Some(StrVal(d.publisher)) && catalog[id].version == Some(StrVal(d.version))
    {
      ghost var before := State();
      ResolveSound(before, d);
      ResolveRow(before, d);
      assert Find(before.catalog, IdentityOf(d)).None? ==> forall i :: !IsEntry(before.catalog, IdentityOf(d), i);
      if d.sha256.Some? && d.sha256.value != "" {
        id := InsertOnConflict(d, CatalogRow(d.source, d.name, d.publisher, d.version, d.sha256, d.signed, d.signer, d.arch));
      } else {
        var pub, ver := "", "";
        if d.publisher.Some? { pub := d.publisher.value; }
        if d.version.Some? { ver := d.version.value; }
        id := InsertOnConflict(d, CatalogRow(d.source, d.name, Some(pub), Some(ver), None, d.signed, d.signer, d.arch));
      }
    }

    /** INSERT .. ON CONFLICT .. DO UPDATE SET source=EXCLUDED.source RETURNING id. */
    method InsertOnConflict(ghost d: SoftwareDelta, row: CatalogRow) returns (id: nat)
      requires Valid(State()) && row == NewRow(d)
      modifies this`catalog, this`nextId
      ensures State() == Resolve(old(State()), d).0 && id == Resolve(old(State()), d).1
    {
      NewRowIdentity(d);
      if clash :| clash in catalog && IdentityOfRow(catalog[clash]) == IdentityOfRow(row) {
        FindIsUnique(State(), IdentityOf(d), clash);
        id := clash;
        catalog := catalog[id := catalog[id].(source := row.source)];
      } else {
        assert forall i :: !IsEntry(catalog, IdentityOf(d), i);
        id := nextId;
        nextId := nextId + 1;
        catalog := catalog[id := row];
      }
    }

    /** One pass of the delta loop: resolve the catalog row, then delete or upsert the host's row. */
    method ApplyOne(host: nat, d: SoftwareDelta) returns (id: nat)
      requires Valid(State())
      modifies this`catalog, this`nextId, this`inventory
      ensures Valid(State()) && State() == ApplyDelta(old(State()), host, d) && id == Resolve(old(State()), d).1
    {
      ghost var before := State();
      ApplyDeltaSound(before, host, d);
      ResolveSound(before, d);
      id := UpsertCatalog(d);
      if d.op == Remove {
        inventory := inventory - {RowKey(host, id, d.source)};
      } else {
        var isRunning := d.source == Running;
        inventory := inventory[RowKey(host, id, d.source) := InventoryRow(d.exePath, d.installLocation, d.owningUser, isRunning)];
      }
    }

    /** The delta loop: apply in order, remembering the ids the upserts resolved to. */
    method ApplyDeltas(host: nat, deltas: seq<SoftwareDelta>) returns (seen: Seen)
      requires Valid(State())
      modifies this`catalog, this`nextId, this`inventory
      ensures Valid(State()) && State() == ApplyAll(old(State()), host, deltas)
      ensures seen == SeenBy(old(State()), host, deltas)
    {
      ghost var t0 := State();
      seen := map[];
      for i := 0 to |deltas|
        invariant Valid(State()) && State() == ApplyAll(t0, host, deltas[..i])
        invariant seen == SeenBy(t0, host, deltas[..i])
      {
        assert deltas[..i + 1][..i] == deltas[..i];
        var id := ApplyOne(host, deltas[i]);
        if deltas[i].op != Remove {
          seen := AddSeen(seen, deltas[i].source, id);
        }
      }
      assert deltas[..|deltas|] == deltas;
    }

    /** One transaction: record the batch, apply its deltas in order, reconcile a snapshot. */
    method IngestBatch(agent: nat, req: IngestRequest) returns (err: Option<IngestError>)
      requires Valid(State())
      modifies this
      ensures err.None? <==> Accepts(old(State()), agent, req.batchId)
      ensures err == Some(DuplicateBatch) <==> (agent, req.batchId) in old(ledger)
      ensures State() == if err.None? then Ingest(old(State()), agent, req) else old(State())
      ensures Valid(State())
    {
      ghost var before := State();
      var rollback := ledger;
      if (agent, req.batchId) in ledger {
        return Some(DuplicateBatch);
      }
      ledger := ledger + {(agent, req.batchId)};
      if agent !in agents {
        ledger := rollback;
        return Some(UnknownAgent);
      }
      var running := Restamp(req.running, Running);
      var installed := Restamp(req.installed, Installed);
      assert Valid(State());
      var seen := ApplyDeltas(agents[agent], running + installed);
      if req.fullSnapshot {
        ReconcileSources(agents[agent], seen);
      }
      IngestSound(before, agent, req);
      return None;
    }

    /** One DELETE per source seen in the batch, in whatever order the map yields. */
    method ReconcileSources(host: nat, seen: Seen)
      modifies this`inventory
      ensures State() == Reconcile(old(State()), host, seen)
    {
      var pending := seen.Keys;
      while pending != {}
        invariant pending <= seen.Keys
        invariant inventory == map k | k in old(inventory) &&
          !(k.host == host && k.source in seen && k.source !in pending && k.catalogId !in seen[k.source]) :: old(inventory)[k]
        decreases pending
      {
        var source :| source in pending;
        inventory := map k | k in inventory && !(k.host == host && k.source == source && k.catalogId !in seen[source]) :: inventory[k];
        pending := pending - {source};
      }
    }
  }

  /** The server overwrites the source of each item with that of the list it came in. */
  method Restamp(ds: seq<SoftwareDelta>, source: Source) returns (r: seq<SoftwareDelta>)
    ensures r == Stamp(ds, source)
  {
    r := ds;
    for i := 0 to |ds|
      invariant |r| == |ds|
      invariant forall j :: 0 <= j < |ds| ==> r[j] == if j < i then ds[j].(source := source) else ds[j]
    {
      r := r[i := r[i].(source := source)];
    }
  }
}
