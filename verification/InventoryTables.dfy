/**
 The server's inventory tables and what one ingest transaction does to them
 (internal/server/store/ingest.go, migrations/000001_init.up.sql), as functions on table values.
 Ids stand for UUIDs: a fresh one is `nextId`. Timestamps are not modelled.
 */
module InventoryTables {
  import opened Wire

  /** What makes two catalog rows the same software: the two partial unique indexes. */
  datatype Identity = Hashed(sha256: string) | Package(name: string, publisher: string, version: string)

  datatype CatalogRow = CatalogRow(
    source: Source,
    name: string,
    publisher: Option<string>,
    version: Option<string>,
    sha256: Option<string>,
    signed: bool,
    signer: Option<string>,
    arch: Option<string>)

  /** Primary key of host_software. */
  datatype RowKey = RowKey(host: nat, catalogId: nat, source: Source)

  datatype InventoryRow = InventoryRow(
    exePath: Option<string>,
    installLocation: Option<string>,
    owningUser: Option<string>,
    isRunning: bool)

  datatype Tables = Tables(
    agents: map<nat, nat>,
    catalog: map<nat, CatalogRow>,
    nextId: nat,
    inventory: map<RowKey, InventoryRow>,
    ledger: set<(nat, nat)>)

  function IdentityOf(d: SoftwareDelta): Identity {
    if StrVal(d.sha256) != "" then Hashed(StrVal(d.sha256))
    else Package(d.name, StrVal(d.publisher), StrVal(d.version))
  }

  function IdentityOfRow(r: CatalogRow): Identity {
    match r.sha256
    case Some(h) => Hashed(h)
    case None => Package(r.name, StrVal(r.publisher), StrVal(r.version))
  }

  /** The two partial unique indexes hold. */
  ghost predicate UniqueIdentities(catalog: map<nat, CatalogRow>) {
    forall i, j :: i in catalog && j in catalog && IdentityOfRow(catalog[i]) == IdentityOfRow(catalog[j]) ==> i == j
  }

  /** The database constraints: unique identities, and no dangling catalog reference. */
  ghost predicate Valid(t: Tables) {
    && UniqueIdentities(t.catalog)
    && (forall i :: i in t.catalog ==> i < t.nextId)
    && (forall k :: k in t.inventory ==> k.catalogId in t.catalog)
  }

  ghost predicate IsEntry(catalog: map<nat, CatalogRow>, ident: Identity, id: nat) {
    id in catalog && IdentityOfRow(catalog[id]) == ident
  }

  /** The row an ON CONFLICT clause would hit. */
  ghost function Find(catalog: map<nat, CatalogRow>, ident: Identity): (r: Option<nat>)
    ensures r.Some? ==> IsEntry(catalog, ident, r.value)
    ensures r.None? ==> forall id :: !IsEntry(catalog, ident, id)
  {
    if exists id :: IsEntry(catalog, ident, id) then
      var id :| IsEntry(catalog, ident, id);
      Some(id)
    else
      None
  }

  /** The row inserted when there is no conflict. */
  function NewRow(d: SoftwareDelta): CatalogRow {
    if StrVal(d.sha256) != "" then
      CatalogRow(d.source, d.name, d.publisher, d.version, d.sha256, d.signed, d.signer, d.arch)
    else
      CatalogRow(d.source, d.name, Some(StrVal(d.publisher)), Some(StrVal(d.version)), None, d.signed, d.signer, d.arch)
  }

  /** upsertCatalog: on conflict only the source (and last_seen) is rewritten. */
  ghost function Resolve(t: Tables, d: SoftwareDelta): (Tables, nat) {
    match Find(t.catalog, IdentityOf(d))
    case Some(id) => (t.(catalog := t.catalog[id := t.catalog[id].(source := d.source)]), id)
    case None => (t.(catalog := t.catalog[t.nextId := NewRow(d)], nextId := t.nextId + 1), t.nextId)
  }

  function RowOf(d: SoftwareDelta): InventoryRow {
    InventoryRow(d.exePath, d.installLocation, d.owningUser, d.source == Running)
  }

  /** Every operation that is not a remove is an upsert. */
  ghost function ApplyDelta(t: Tables, host: nat, d: SoftwareDelta): Tables {
    var (t1, id) := Resolve(t, d);
    var k := RowKey(host, id, d.source);
    if d.op == Remove then t1.(inventory := t1.inventory - {k})
    else t1.(inventory := t1.inventory[k := RowOf(d)])
  }

  ghost function ApplyAll(t: Tables, host: nat, ds: seq<SoftwareDelta>): Tables {
    if ds == [] then t else ApplyDelta(ApplyAll(t, host, ds[..|ds| - 1]), host, ds[|ds| - 1])
  }

  /** seenBySource: the catalog ids the batch's upserts resolved to. */
  type Seen = map<Source, set<nat>>

  function AddSeen(seen: Seen, source: Source, id: nat): Seen {
    seen[source := (if source in seen then seen[source] else {}) + {id}]
  }

  ghost function SeenBy(t: Tables, host: nat, ds: seq<SoftwareDelta>): Seen {
    if ds == [] then
      map[]
    else
      var init, d := ds[..|ds| - 1], ds[|ds| - 1];
      var seen := SeenBy(t, host, init);
      if d.op == Remove then seen else AddSeen(seen, d.source, Resolve(ApplyAll(t, host, init), d).1)
  }

  function Reconcile(t: Tables, host: nat, seen: Seen): Tables {
    t.(inventory := map k | k in t.inventory &&
         !(k.host == host && k.source in seen && k.catalogId !in seen[k.source]) :: t.inventory[k])
  }

  function Stamp(ds: seq<SoftwareDelta>, source: Source): (r: seq<SoftwareDelta>)
    ensures |r| == |ds| && forall i :: 0 <= i < |ds| ==> r[i] == ds[i].(source := source)
  {
    if ds == [] then [] else Stamp(ds[..|ds| - 1], source) + [ds[|ds| - 1].(source := source)]
  }

  function AllDeltas(req: IngestRequest): seq<SoftwareDelta> {
    Stamp(req.running, Running) + Stamp(req.installed, Installed)
  }

  /** The transaction goes through: its ledger key is new and its agent exists. */
  predicate Accepts(t: Tables, agent: nat, batchId: nat) {
    (agent, batchId) !in t.ledger && agent in t.agents
  }

  ghost function Ingest(t: Tables, agent: nat, req: IngestRequest): Tables
    requires Accepts(t, agent, req.batchId)
  {
    var host := t.agents[agent];
    var t0 := t.(ledger := t.ledger + {(agent, req.batchId)});
    var t1 := ApplyAll(t0, host, AllDeltas(req));
    if req.fullSnapshot then Reconcile(t1, host, SeenBy(t0, host, AllDeltas(req))) else t1
  }

  // ---------------------------------------------------------------- the catalog

  lemma FindIsUnique(t: Tables, ident: Identity, id: nat)
    requires Valid(t) && IsEntry(t.catalog, ident, id)
    ensures Find(t.catalog, ident) == Some(id)
  {
  }

  lemma NewRowIdentity(d: SoftwareDelta)
    ensures IdentityOfRow(NewRow(d)) == IdentityOf(d)
  {
  }

  /** Rows are the same software iff one of the two unique indexes says so. */
  lemma SameIdentityIff(a: CatalogRow, b: CatalogRow)
    ensures IdentityOfRow(a) == IdentityOfRow(b) <==>
            if a.sha256.Some? || b.sha256.Some? then a.sha256 == b.sha256
            else a.name == b.name && StrVal(a.publisher) == StrVal(b.publisher) && StrVal(a.version) == StrVal(b.version)
  {
  }

  /**
   The row of a piece of software first sent as `first` and last sent as `last`: everything but the source
   is from the first. A hash makes the row keep publisher and version as sent; without one nil reads as "".
   */
  predicate RowIs(row: CatalogRow, first: SoftwareDelta, last: SoftwareDelta) {
    && row.source == last.source && row.name == first.name
    && row.signed == first.signed && row.signer == first.signer && row.arch == first.arch
    && (StrVal(first.sha256) != "" ==> row.sha256 == first.sha256 && row.publisher == first.publisher && row.version == first.version)
    && (StrVal(first.sha256) == "" ==>
          row.sha256 == None && row.publisher == Some(StrVal(first.publisher)) && row.version == Some(StrVal(first.version)))
  }

  /** What resolving does to the catalog: a row as sent if the identity is new, else the source tag and nothing more. */
  lemma ResolveRow(t: Tables, d: SoftwareDelta)
    requires Valid(t)
    ensures var (t1, id) := Resolve(t, d);
            && id in t1.catalog
            && (Find(t.catalog, IdentityOf(d)).None? ==>
                  id !in t.catalog && t1.catalog == t.catalog[id := t1.catalog[id]] && RowIs(t1.catalog[id], d, d))
            && (Find(t.catalog, IdentityOf(d)).Some? ==>
                  id in t.catalog && t1.catalog == t.catalog[id := t.catalog[id].(source := d.source)])
  {
  }

  /** Later catalogs keep every id with all of its fields but the source tag. */
  ghost predicate Extends(a: map<nat, CatalogRow>, b: map<nat, CatalogRow>) {
    forall id :: id in a ==> id in b && b[id] == a[id].(source := b[id].source)
  }

  lemma ExtendsTransitive(a: map<nat, CatalogRow>, b: map<nat, CatalogRow>, c: map<nat, CatalogRow>)
    requires Extends(a, b) && Extends(b, c)
    ensures Extends(a, c)
  {
  }

  /** Putting a row under an id keeps identities unique if no other row has its identity. */
  lemma PutUnique(catalog: map<nat, CatalogRow>, id: nat, row: CatalogRow)
    requires UniqueIdentities(catalog) && forall i :: i in catalog && i != id ==> IdentityOfRow(catalog[i]) != IdentityOfRow(row)
    ensures UniqueIdentities(catalog[id := row])
  {
  }

  /** Resolving keeps identities unique and finds the delta's identity under the id returned. */
  lemma ResolveValid(t: Tables, d: SoftwareDelta)
    requires Valid(t)
    ensures var (t1, id) := Resolve(t, d);
            Valid(t1) && Extends(t.catalog, t1.catalog) && IsEntry(t1.catalog, IdentityOf(d), id)
    ensures forall i :: i in t.catalog ==> IdentityOfRow(Resolve(t, d).0.catalog[i]) == IdentityOfRow(t.catalog[i])
  {
    NewRowIdentity(d);
    match Find(t.catalog, IdentityOf(d))
    case Some(id) =>
      var row := t.catalog[id].(source := d.source);
      assert IdentityOfRow(row) == IdentityOfRow(t.catalog[id]);
      assert UniqueIdentities(t.catalog);
      hide UniqueIdentities, IdentityOfRow;
      PutUnique(t.catalog, id, row);
    case None =>
      assert forall i :: i in t.catalog ==> !IsEntry(t.catalog, IdentityOf(d), i);
      assert UniqueIdentities(t.catalog);
      hide UniqueIdentities, IdentityOfRow;
      PutUnique(t.catalog, t.nextId, NewRow(d));
  }

  lemma ResolveOthers(t: Tables, d: SoftwareDelta, ident: Identity)
    requires Valid(t) && ident != IdentityOf(d)
    ensures Find(Resolve(t, d).0.catalog, ident) == Find(t.catalog, ident)
  {
    ResolveValid(t, d);
    var (t1, id) := Resolve(t, d);
    match Find(t.catalog, ident)
    case Some(i) =>
      assert IsEntry(t1.catalog, ident, i);
    case None =>
      forall i ensures !IsEntry(t1.catalog, ident, i) {
        assert !IsEntry(t.catalog, ident, i);
      }
  }

  lemma ResolveSound(t: Tables, d: SoftwareDelta)
    requires Valid(t)
    ensures var (t1, id) := Resolve(t, d);
            && Valid(t1) && Extends(t.catalog, t1.catalog)
            && Find(t1.catalog, IdentityOf(d)) == Some(id)
            && t1.inventory == t.inventory && t1.agents == t.agents && t1.ledger == t.ledger
    ensures forall ident :: ident != IdentityOf(d) ==> Find(Resolve(t, d).0.catalog, ident) == Find(t.catalog, ident)
    ensures Find(t.catalog, IdentityOf(d)).Some? ==> Find(t.catalog, IdentityOf(d)) == Some(Resolve(t, d).1)
    ensures Find(t.catalog, IdentityOf(d)).None? ==> Resolve(t, d).1 !in t.catalog
  {
    var (t1, id) := Resolve(t, d);
    ResolveValid(t, d);
    FindIsUnique(t1, IdentityOf(d), id);
    forall ident | ident != IdentityOf(d)
      ensures Find(t1.catalog, ident) == Find(t.catalog, ident)
    {
      ResolveOthers(t, d, ident);
    }
  }

  // ---------------------------------------------------------------- one place in the inventory

  /** A place in one host's inventory, named by identity rather than by catalog id. */
  datatype Slot = Slot(host: nat, source: Source, ident: Identity)

  ghost function At(t: Tables, s: Slot): Option<InventoryRow> {
    match Find(t.catalog, s.ident)
    case None => None
    case Some(id) =>
      var k := RowKey(s.host, id, s.source);
      if k in t.inventory then Some(t.inventory[k]) else None
  }

  predicate Hits(d: SoftwareDelta, s: Slot) {
    d.source == s.source && IdentityOf(d) == s.ident
  }

  /** What a delta list sent by the slot's host leaves in the slot. */
  function Effect(ds: seq<SoftwareDelta>, s: Slot, before: Option<InventoryRow>): Option<InventoryRow> {
    if ds == [] then
      before
    else
      var d := ds[|ds| - 1];
      if !Hits(d, s) then Effect(ds[..|ds| - 1], s, before)
      else if d.op == Remove then None
      else Some(RowOf(d))
  }

  /** Some upsert of the list has this source (and this identity). */
  ghost predicate SeesSource(ds: seq<SoftwareDelta>, source: Source) {
    exists d :: d in ds && d.op != Remove && d.source == source
  }

  ghost predicate SeesSlot(ds: seq<SoftwareDelta>, s: Slot) {
    exists d :: d in ds && d.op != Remove && Hits(d, s)
  }

  /** What one batch from the slot's host leaves in the slot. */
  ghost function BatchEffect(req: IngestRequest, s: Slot, before: Option<InventoryRow>): Option<InventoryRow> {
    var ds := AllDeltas(req);
    if req.fullSnapshot && SeesSource(ds, s.source) && !SeesSlot(ds, s) then None else Effect(ds, s, before)
  }

  /** One delta, seen at one slot. */
  lemma ApplyDeltaAt(t: Tables, host: nat, d: SoftwareDelta, s: Slot)
    requires Valid(t)
    ensures At(ApplyDelta(t, host, d), s) ==
            if s.host == host && Hits(d, s) then (if d.op == Remove then None else Some(RowOf(d))) else At(t, s)
  {
    hide IdentityOf, RowOf;
    var (t1, id) := Resolve(t, d);
    var found, found' := Find(t.catalog, s.ident), Find(t1.catalog, s.ident);
    assert && t1.inventory == t.inventory && found' == (if s.ident == IdentityOf(d) then Some(id) else found)
           && (s.ident == IdentityOf(d) && found.None? ==> RowKey(s.host, id, s.source) !in t.inventory)
           && (s.ident == IdentityOf(d) && found.Some? ==> found == Some(id))
           && (s.ident != IdentityOf(d) && found'.Some? ==> found'.value != id) by {
      ResolveSound(t, d);
      if s.ident != IdentityOf(d) && found'.Some? {
        assert IsEntry(t1.catalog, s.ident, found'.value);
      }
    }
    hide Resolve, Find, Valid;
  }

  lemma ApplyDeltaSound(t: Tables, host: nat, d: SoftwareDelta)
    requires Valid(t)
    ensures var t1 := ApplyDelta(t, host, d);
            Valid(t1) && Extends(t.catalog, t1.catalog) && t1.agents == t.agents && t1.ledger == t.ledger
    ensures forall s :: At(ApplyDelta(t, host, d), s) ==
                        if s.host == host && Hits(d, s) then (if d.op == Remove then None else Some(RowOf(d))) else At(t, s)
  {
    ResolveSound(t, d);
    forall s: Slot
      ensures At(ApplyDelta(t, host, d), s) ==
              if s.host == host && Hits(d, s) then (if d.op == Remove then None else Some(RowOf(d))) else At(t, s)
    {
      ApplyDeltaAt(t, host, d, s);
    }
  }

  lemma {:induction false} ApplyAllSound(t: Tables, host: nat, ds: seq<SoftwareDelta>)
    requires Valid(t)
    ensures var t1 := ApplyAll(t, host, ds);
            Valid(t1) && Extends(t.catalog, t1.catalog) && t1.agents == t.agents && t1.ledger == t.ledger
    ensures forall s :: At(ApplyAll(t, host, ds), s) == if s.host == host then Effect(ds, s, At(t, s)) else At(t, s)
  {
    if ds != [] {
      var init := ds[..|ds| - 1];
      ApplyAllSound(t, host, init);
      ApplyDeltaSound(ApplyAll(t, host, init), host, ds[|ds| - 1]);
      ExtendsTransitive(t.catalog, ApplyAll(t, host, init).catalog, ApplyAll(t, host, ds).catalog);
    }
  }

  /** An entry keeps its identity in every extension, so it is found under the same id. */
  lemma FoundAgain(a: Tables, b: Tables, ident: Identity)
    requires Valid(b) && Extends(a.catalog, b.catalog)
    ensures Find(a.catalog, ident).Some? ==> Find(b.catalog, ident) == Find(a.catalog, ident)
  {
    if Find(a.catalog, ident).Some? {
      FindIsUnique(b, ident, Find(a.catalog, ident).value);
    }
  }

  /**
   `seen` describes the upserts among `ds`, given the catalog they left: a source is listed iff
   one of them has it, and an id is listed iff one of them has that identity.
   */
  ghost predicate SeenMatches(seen: Seen, catalog: map<nat, CatalogRow>, ds: seq<SoftwareDelta>, s: Slot) {
    SeenIds(IdsOf(seen, s.source), catalog.Keys, Find(catalog, s.ident), SeesSource(ds, s.source), SeesSlot(ds, s))
  }

  function IdsOf(seen: Seen, source: Source): Option<set<nat>> {
    if source in seen then Some(seen[source]) else None
  }

  predicate SeenIds(ids: Option<set<nat>>, known: set<nat>, found: Option<nat>, sourceSeen: bool, slotSeen: bool) {
    && (ids.Some? <==> sourceSeen)
    && (ids.Some? ==> ids.value <= known)
    && (ids.Some? && found.Some? ==> (found.value in ids.value <==> slotSeen))
    && (slotSeen ==> ids.Some? && found.Some?)
  }

  lemma SeenStep(t: Tables, d: SoftwareDelta, seen: Seen, ds: seq<SoftwareDelta>, s: Slot)
    requires Valid(t) && SeenMatches(seen, t.catalog, ds, s)
    ensures var (t1, id) := Resolve(t, d);
            SeenMatches(if d.op == Remove then seen else AddSeen(seen, d.source, id), t1.catalog, ds + [d], s)
  {
    var (t1, id) := Resolve(t, d);
    var found, found' := Find(t.catalog, s.ident), Find(t1.catalog, s.ident);
    assert t.catalog.Keys <= t1.catalog.Keys && id in t1.catalog.Keys
           && found' == (if IdentityOf(d) == s.ident then Some(id) else found)
           && (IdentityOf(d) == s.ident ==> found == Some(id) || (found == None && id !in t.catalog.Keys))
           && (IdentityOf(d) != s.ident && found'.Some? ==> found'.value != id) by {
      ResolveSound(t, d);
      if IdentityOf(d) != s.ident && found'.Some? {
        assert IsEntry(t1.catalog, s.ident, found'.value) && IsEntry(t1.catalog, IdentityOf(d), id);
      }
    }
    SeesSnoc(ds, d, s);
    SeenIdsStep(IdsOf(seen, s.source), t.catalog.Keys, found, SeesSource(ds, s.source), SeesSlot(ds, s),
                t1.catalog.Keys, found', id, d.op != Remove && d.source == s.source, IdentityOf(d) == s.ident);
    var seen' := if d.op == Remove then seen else AddSeen(seen, d.source, id);
    assert IdsOf(seen', s.source) ==
           if d.op != Remove && d.source == s.source then
             Some((if IdsOf(seen, s.source).Some? then IdsOf(seen, s.source).value else {}) + {id})
           else IdsOf(seen, s.source);
  }

  lemma SeenIdsStep(ids: Option<set<nat>>, known: set<nat>, found: Option<nat>, sourceSeen: bool, slotSeen: bool,
                    known': set<nat>, found': Option<nat>, id: nat, upsertHere: bool, same: bool)
    requires SeenIds(ids, known, found, sourceSeen, slotSeen)
    requires known <= known' && id in known'
    requires found' == if same then Some(id) else found
    requires same ==> found == Some(id) || (found == None && id !in known)
    requires !same && found'.Some? ==> found'.value != id
    ensures SeenIds(if upsertHere then Some((if ids.Some? then ids.value else {}) + {id}) else ids,
                    known', found', sourceSeen || upsertHere, slotSeen || (upsertHere && same))
  {
  }

  lemma {:induction false} SeenSound(t: Tables, host: nat, ds: seq<SoftwareDelta>, s: Slot)
    requires Valid(t)
    ensures SeenMatches(SeenBy(t, host, ds), ApplyAll(t, host, ds).catalog, ds, s)
  {
    if ds != [] {
      var init, d := ds[..|ds| - 1], ds[|ds| - 1];
      assert ds == init + [d];
      SeenSound(t, host, init, s);
      ApplyAllSound(t, host, init);
      SeenStep(ApplyAll(t, host, init), d, SeenBy(t, host, init), init, s);
    }
  }

  lemma SeesSnoc(init: seq<SoftwareDelta>, d: SoftwareDelta, s: Slot)
    ensures SeesSource(init + [d], s.source) <==> SeesSource(init, s.source) || (d.op != Remove && d.source == s.source)
    ensures SeesSlot(init + [d], s) <==> SeesSlot(init, s) || (d.op != Remove && Hits(d, s))
  {
  }

  /**
   What an accepted ingest does to the whole inventory, slot by slot: slots of the agent's host
   take the batch's effect, all other hosts' slots keep their rows.
   */
  lemma IngestSound(t: Tables, agent: nat, req: IngestRequest)
    requires Valid(t) && Accepts(t, agent, req.batchId)
    ensures var t1 := Ingest(t, agent, req);
            Valid(t1) && Extends(t.catalog, t1.catalog) && t1.agents == t.agents && t1.ledger == t.ledger + {(agent, req.batchId)}
    ensures forall s :: At(Ingest(t, agent, req), s) ==
                        if s.host == t.agents[agent] then BatchEffect(req, s, At(t, s)) else At(t, s)
  {
    var host, ds := t.agents[agent], AllDeltas(req);
    var t0 := t.(ledger := t.ledger + {(agent, req.batchId)});
    assert forall s :: At(t0, s) == At(t, s);
    ApplyAllSound(t0, host, ds);
    var t1, seen := ApplyAll(t0, host, ds), SeenBy(t0, host, ds);
    var t2 := Ingest(t, agent, req);
    forall s: Slot
      ensures At(t2, s) == if s.host == host then BatchEffect(req, s, At(t, s)) else At(t, s)
    {
      SeenSound(t0, host, ds, s);
      assert t2.catalog == t1.catalog;
    }
  }

  /** The agents table is none of an ingest's business. */
  lemma IngestKeepsAgents(t: Tables, agent: nat, req: IngestRequest)
    requires Accepts(t, agent, req.batchId)
    ensures Ingest(t, agent, req).agents == t.agents
  {
    ApplyAllKeepsAgents(t.(ledger := t.ledger + {(agent, req.batchId)}), t.agents[agent], AllDeltas(req));
  }

  lemma {:induction false} ApplyAllKeepsAgents(t: Tables, host: nat, ds: seq<SoftwareDelta>)
    ensures ApplyAll(t, host, ds).agents == t.agents
  {
    if ds != [] {
      ApplyAllKeepsAgents(t, host, ds[..|ds| - 1]);
    }
  }

  // ---------------------------------------------------------------- what catalog rows say

  function FirstOf(ds: seq<SoftwareDelta>, ident: Identity): Option<SoftwareDelta> {
    if ds == [] then None
    else
      var first := FirstOf(ds[..|ds| - 1], ident);
      if first.None? && IdentityOf(ds[|ds| - 1]) == ident then Some(ds[|ds| - 1]) else first
  }

  function LastOf(ds: seq<SoftwareDelta>, ident: Identity): Option<SoftwareDelta> {
    if ds == [] then None
    else if IdentityOf(ds[|ds| - 1]) == ident then Some(ds[|ds| - 1])
    else LastOf(ds[..|ds| - 1], ident)
  }

  /** The catalog's row of an identity, if there is one. */
  ghost function RowFor(catalog: map<nat, CatalogRow>, ident: Identity): Option<CatalogRow> {
    match Find(catalog, ident)
    case Some(id) => Some(catalog[id])
    case None => None
  }

  /**
   The row of an identity after the operations `ds`: one there before keeps all but its source, which
   is that of the last operation; a new one is as first sent; one never sent is not there.
   */
  ghost predicate RowAfter(before: Option<CatalogRow>, after: Option<CatalogRow>, ds: seq<SoftwareDelta>, ident: Identity) {
    match (before, LastOf(ds, ident))
    case (Some(row), Some(d)) => after == Some(row.(source := d.source))
    case (None, Some(d)) => after.Some? && FirstOf(ds, ident).Some? && RowIs(after.value, FirstOf(ds, ident).value, d)
    case (_, None) => after == before
  }

  lemma FirstAndLast(ds: seq<SoftwareDelta>, d: SoftwareDelta, ident: Identity)
    ensures FirstOf(ds, ident).Some? <==> LastOf(ds, ident).Some?
    ensures LastOf(ds + [d], ident) == if IdentityOf(d) == ident then Some(d) else LastOf(ds, ident)
    ensures FirstOf(ds + [d], ident) == if FirstOf(ds, ident).None? && IdentityOf(d) == ident then Some(d) else FirstOf(ds, ident)
  {
  }

  /** Resolving, as one identity's row sees it. */
  lemma ResolveRowFor(t: Tables, d: SoftwareDelta, ident: Identity)
    requires Valid(t)
    ensures var before := RowFor(t.catalog, ident); var after := RowFor(Resolve(t, d).0.catalog, ident);
            && (IdentityOf(d) != ident ==> after == before)
            && (IdentityOf(d) == ident && before.Some? ==> after == Some(before.value.(source := d.source)))
            && (IdentityOf(d) == ident && before.None? ==> after.Some? && RowIs(after.value, d, d))
  {
    ResolveSound(t, d);
    ResolveRow(t, d);
    hide Resolve, Valid, RowIs;
    var (t1, id) := Resolve(t, d);
    if IdentityOf(d) != ident && Find(t1.catalog, ident).Some? {
      assert IsEntry(t1.catalog, ident, Find(t1.catalog, ident).value) && IsEntry(t1.catalog, IdentityOf(d), id);
    }
  }

  lemma RowAfterOne(before: Option<CatalogRow>, row: Option<CatalogRow>, row': Option<CatalogRow>, d: SoftwareDelta, ds: seq<SoftwareDelta>, ident: Identity)
    requires RowAfter(before, row, ds, ident)
    requires IdentityOf(d) != ident ==> row' == row
    requires IdentityOf(d) == ident && row.Some? ==> row' == Some(row.value.(source := d.source))
    requires IdentityOf(d) == ident && row.None? ==> row'.Some? && RowIs(row'.value, d, d)
    ensures RowAfter(before, row', ds + [d], ident)
  {
    hide IdentityOf, FirstOf, LastOf;
    FirstAndLast(ds, d, ident);
  }

  lemma ApplyDeltaCatalog(t: Tables, host: nat, d: SoftwareDelta)
    ensures ApplyDelta(t, host, d).catalog == Resolve(t, d).0.catalog
  {
  }

  lemma {:induction false} RowsAfterAll(t: Tables, host: nat, ds: seq<SoftwareDelta>, before: Option<CatalogRow>, sent: seq<SoftwareDelta>, ident: Identity)
    requires Valid(t) && RowAfter(before, RowFor(t.catalog, ident), sent, ident)
    ensures RowAfter(before, RowFor(ApplyAll(t, host, ds).catalog, ident), sent + ds, ident)
  {
    if ds == [] {
      assert sent + ds == sent;
    } else {
      hide RowAfter, Resolve, RowFor, RowIs, Valid, Extends, ApplyDelta, At, Effect, IdentityOf;
      var init, d := ds[..|ds| - 1], ds[|ds| - 1];
      RowsAfterAll(t, host, init, before, sent, ident);
      ApplyAllSound(t, host, init);
      var t1 := ApplyAll(t, host, init);
      ApplyDeltaCatalog(t1, host, d);
      ResolveRowFor(t1, d, ident);
      RowAfterOne(before, RowFor(t1.catalog, ident), RowFor(Resolve(t1, d).0.catalog, ident), d, sent + init, ident);
      assert sent + init + [d] == sent + ds;
    }
  }

  // ---------------------------------------------------------------- full snapshots

  /** The last upsert of the list that lands in the slot. */
  function LastHit(ds: seq<SoftwareDelta>, s: Slot): Option<SoftwareDelta> {
    if ds == [] then None
    else if Hits(ds[|ds| - 1], s) then Some(ds[|ds| - 1])
    else LastHit(ds[..|ds| - 1], s)
  }

  ghost predicate AllUpserts(ds: seq<SoftwareDelta>) {
    forall d :: d in ds ==> d.op != Remove
  }

  lemma {:induction false} UpsertEffect(ds: seq<SoftwareDelta>, s: Slot, before: Option<InventoryRow>)
    requires AllUpserts(ds)
    ensures SeesSlot(ds, s) <==> LastHit(ds, s).Some?
    ensures LastHit(ds, s).Some? ==> LastHit(ds, s).value in ds && Hits(LastHit(ds, s).value, s)
    ensures Effect(ds, s, before) == match LastHit(ds, s) case Some(d) => Some(RowOf(d)) case None => before
  {
    if ds != [] {
      var init, d := ds[..|ds| - 1], ds[|ds| - 1];
      assert ds == init + [d] && d in ds && forall x :: x in init ==> x in ds;
      SeesSnoc(init, d, s);
      UpsertEffect(init, s, before);
    }
  }

  lemma SlotSeesSource(ds: seq<SoftwareDelta>, s: Slot)
    ensures SeesSlot(ds, s) ==> SeesSource(ds, s.source)
  {
  }

  /**
   Self-stabilisation: whatever the tables held, an all-upsert full snapshot leaves, for each
   source it mentions, exactly its items in the host's rows, each with the attributes of its last
   occurrence; rows of sources it does not mention and of other hosts stay as they were.
   */
  lemma SnapshotStabilises(t: Tables, agent: nat, req: IngestRequest, s: Slot)
    requires Valid(t) && Accepts(t, agent, req.batchId)
    requires req.fullSnapshot && AllUpserts(AllDeltas(req))
    ensures var t1 := Ingest(t, agent, req);
            At(t1, s) ==
              if s.host != t.agents[agent] || !SeesSource(AllDeltas(req), s.source) then At(t, s)
              else match LastHit(AllDeltas(req), s)
                case Some(d) => Some(InventoryRow(d.exePath, d.installLocation, d.owningUser, s.source == Running))
                case None => None
  {
    IngestSound(t, agent, req);
    UpsertEffect(AllDeltas(req), s, At(t, s));
    SlotSeesSource(AllDeltas(req), s);
  }

  /** The host's rows for a source are the payload's items of that source. */
  ghost predicate RowsMatchPayload(t: Tables, host: nat, source: Source, ds: seq<SoftwareDelta>) {
    forall s: Slot :: s.host == host && s.source == source ==> (At(t, s).Some? <==> SeesSlot(ds, s))
  }

  /**
   An empty source is not reconciled: the rows match the snapshot if and only if the snapshot
   has an item of that source or the host had no row of it.
   */
  lemma SnapshotMatchesIff(t: Tables, agent: nat, req: IngestRequest, source: Source)
    requires Valid(t) && Accepts(t, agent, req.batchId)
    requires req.fullSnapshot && AllUpserts(AllDeltas(req))
    ensures RowsMatchPayload(Ingest(t, agent, req), t.agents[agent], source, AllDeltas(req)) <==>
            SeesSource(AllDeltas(req), source) || forall k :: k in t.inventory && k.host == t.agents[agent] ==> k.source != source
  {
    var host, ds, t1 := t.agents[agent], AllDeltas(req), Ingest(t, agent, req);
    forall s: Slot | s.host == host && s.source == source
      ensures At(t1, s).Some? <==> SeesSlot(ds, s) || (!SeesSource(ds, source) && At(t, s).Some?)
    {
      SnapshotStabilises(t, agent, req, s);
      UpsertEffect(ds, s, At(t, s));
      SlotSeesSource(ds, s);
    }
    if !SeesSource(ds, source) {
      forall s: Slot | s.source == source ensures !SeesSlot(ds, s) {
        SlotSeesSource(ds, s);
      }
      if k :| k in t.inventory && k.host == host && k.source == source {
        SlotOfRow(t, k);
      } else {
        forall s: Slot | s.host == host && s.source == source ensures At(t, s).None? {}
      }
    }
  }

  /** Every inventory row is what its slot shows. */
  lemma SlotOfRow(t: Tables, k: RowKey)
    requires Valid(t) && k in t.inventory
    ensures k.catalogId in t.catalog
    ensures At(t, Slot(k.host, k.source, IdentityOfRow(t.catalog[k.catalogId]))) == Some(t.inventory[k])
  {
    FindIsUnique(t, IdentityOfRow(t.catalog[k.catalogId]), k.catalogId);
  }

  // ---------------------------------------------------------------- runs of ingests

  datatype Delivery = Delivery(agent: nat, req: IngestRequest)

  /** A run of transactions; refused ones leave the tables alone. */
  ghost function IngestAll(t: Tables, run: seq<Delivery>): Tables {
    if run == [] then
      t
    else
      var t1, d := IngestAll(t, run[..|run| - 1]), run[|run| - 1];
      if Accepts(t1, d.agent, d.req.batchId) then Ingest(t1, d.agent, d.req) else t1
  }

  /** The operations of the batches that were accepted, in order. */
  ghost function Accepted(t: Tables, run: seq<Delivery>): seq<SoftwareDelta> {
    if run == [] then
      []
    else
      var init, d := run[..|run| - 1], run[|run| - 1];
      Accepted(t, init) + if Accepts(IngestAll(t, init), d.agent, d.req.batchId) then AllDeltas(d.req) else []
  }

  /**
   What the catalog says, over every run of ingests: the row of an identity has the attributes of the
   first operation that named it and the source of the last, whatever agents they came from.
   */
  lemma {:induction false} CatalogRowsOverRuns(t: Tables, run: seq<Delivery>, ident: Identity)
    requires Valid(t)
    ensures RowAfter(RowFor(t.catalog, ident), RowFor(IngestAll(t, run).catalog, ident), Accepted(t, run), ident)
  {
    if run == [] {
    } else {
      hide RowAfter, RowFor, ApplyAll, Resolve;
      var init, d := run[..|run| - 1], run[|run| - 1];
      CatalogRowsOverRuns(t, init, ident);
      CatalogOverRuns(t, init, ident);
      var t1 := IngestAll(t, init);
      if Accepts(t1, d.agent, d.req.batchId) {
        var t0 := t1.(ledger := t1.ledger + {(d.agent, d.req.batchId)});
        RowsAfterAll(t0, t1.agents[d.agent], AllDeltas(d.req), RowFor(t.catalog, ident), Accepted(t, init), ident);
      } else {
        assert Accepted(t, init) + [] == Accepted(t, init);
      }
    }
  }

  /**
   Over every run of ingests the catalog keeps identities unique and rows referenced, never
   reassigns an id, never changes a row but for its source tag, and resolves an identity it once
   knew to the id it had then.
   */
  lemma {:induction false} CatalogOverRuns(t: Tables, run: seq<Delivery>, ident: Identity)
    requires Valid(t)
    ensures Valid(IngestAll(t, run)) && Extends(t.catalog, IngestAll(t, run).catalog)
    ensures Find(t.catalog, ident).Some? ==> Find(IngestAll(t, run).catalog, ident) == Find(t.catalog, ident)
    ensures t.ledger <= IngestAll(t, run).ledger
  {
    if run != [] {
      var init, d := run[..|run| - 1], run[|run| - 1];
      CatalogOverRuns(t, init, ident);
      var t1 := IngestAll(t, init);
      if Accepts(t1, d.agent, d.req.batchId) {
        IngestSound(t1, d.agent, d.req);
        ExtendsTransitive(t.catalog, t1.catalog, IngestAll(t, run).catalog);
      }
      FoundAgain(t, IngestAll(t, run), ident);
    }
  }
}
