/**
 How a diff acts on the server's inventory: the agent's state and the host's rows, one slot at a
 time. The agent tells items apart by key, the catalog only by identity, and identity is coarser.
 */
module Replica {
  import opened Wire
  import opened Delta
  import opened InventoryTables

  /** The catalog identity of an item is a function of its key. */
  function KeyIdentity(k: Key): Identity {
    if k.sha256 != "" then Hashed(k.sha256) else Package(k.name, k.publisher, k.version)
  }

  lemma IdentityFromKey(d: SoftwareDelta)
    ensures IdentityOf(d) == KeyIdentity(KeyOf(d))
  {
  }

  /** The collector of a source labels every item with it. */
  predicate From(ds: seq<SoftwareDelta>, source: Source) {
    forall d <- ds :: d.source == source
  }

  ghost predicate Holds(last: State, ident: Identity) {
    exists k :: k in last && KeyIdentity(k) == ident
  }

  /** A row shows an item: same executable and owner, nil and empty alike. */
  predicate Shows(r: InventoryRow, d: SoftwareDelta) {
    StrVal(r.exePath) == StrVal(d.exePath) && StrVal(r.owningUser) == StrVal(d.owningUser)
  }

  /**
   A slot is faithful to the agent's state: there is a row iff the agent holds the identity, and,
   when `exact`, the row shows the agent's item.
   */
  ghost predicate Faithful(exact: bool, last: State, ident: Identity, row: Option<InventoryRow>) {
    && (row.Some? <==> Holds(last, ident))
    && (exact && row.Some? ==> forall k :: k in last && KeyIdentity(k) == ident ==> Shows(row.value, last[k]))
  }

  /** No key leaves while another with the same catalog identity stays or arrives. */
  ghost predicate NoHandover(last: State, next: State) {
    forall a, b :: a in last && a !in next && b in next ==> KeyIdentity(a) != KeyIdentity(b)
  }

  ghost predicate Injective(keys: set<Key>) {
    forall a, b :: a in keys && b in keys && KeyIdentity(a) == KeyIdentity(b) ==> a == b
  }

  /** Two items of one key would look the same in a row. */
  predicate SameDisplay(a: SoftwareDelta, b: SoftwareDelta) {
    StrVal(a.exePath) == StrVal(b.exePath) && StrVal(a.owningUser) == StrVal(b.owningUser)
  }

  /** For every key, the last item sent shows the path and owner of the last item collected. */
  ghost predicate Settles(last: State, current: seq<SoftwareDelta>) {
    forall k :: k in Collected(current) && LastSent(last, current, k).Some? ==>
      SameDisplay(LastSent(last, current, k).value, Collected(current)[k])
  }

  /** A collection in which no key flaps settles. */
  lemma NoFlapSettles(last: State, current: seq<SoftwareDelta>, deltas: seq<SoftwareDelta>)
    requires Keyed(last) && IsDiff(last, current, deltas, Collected(current)) && NoFlap(last, current)
    ensures Settles(last, current)
  {
    SameRefl(last);
    PatchLaw(last, last, current, deltas, Collected(current));
    forall k | k in Collected(current) && LastSent(last, current, k).Some?
      ensures SameDisplay(LastSent(last, current, k).value, Collected(current)[k])
    {
      var d := LastSent(last, current, k).value;
      ReplayedValue(last, last, current, deltas, k);
      assert VisibleOf(d.(op := Upsert)) == VisibleOf(Collected(current)[k]);
    }
  }

  // ---------------------------------------------------------------- effects of lists

  lemma {:induction false} EffectConcat(a: seq<SoftwareDelta>, b: seq<SoftwareDelta>, s: Slot, x: Option<InventoryRow>)
    ensures Effect(a + b, s, x) == Effect(b, s, Effect(a, s, x))
  {
    if b == [] {
      assert a + b == a;
    } else {
      assert (a + b)[..|a + b| - 1] == a + b[..|b| - 1];
      EffectConcat(a, b[..|b| - 1], s, x);
    }
  }

  lemma {:induction false} EffectOfOthers(ds: seq<SoftwareDelta>, s: Slot, x: Option<InventoryRow>)
    requires forall d <- ds :: d.source != s.source
    ensures Effect(ds, s, x) == x
  {
    if ds != [] {
      EffectOfOthers(ds[..|ds| - 1], s, x);
    }
  }

  lemma EffectSnoc(init: seq<SoftwareDelta>, d: SoftwareDelta, s: Slot, x: Option<InventoryRow>)
    ensures Effect(init + [d], s, x) ==
            if !Hits(d, s) then Effect(init, s, x) else if d.op == Remove then None else Some(RowOf(d))
  {
  }

  lemma StampKeeps(ds: seq<SoftwareDelta>, source: Source)
    requires From(ds, source)
    ensures Stamp(ds, source) == ds
  {
  }

  /** A slot only feels the list of its own source. */
  lemma EffectOfBatch(req: IngestRequest, s: Slot, x: Option<InventoryRow>)
    requires From(req.running, Running) && From(req.installed, Installed)
    ensures AllDeltas(req) == req.running + req.installed
    ensures s.source == Running ==> Effect(AllDeltas(req), s, x) == Effect(req.running, s, x)
    ensures s.source == Installed ==> Effect(AllDeltas(req), s, x) == Effect(req.installed, s, x)
  {
    StampKeeps(req.running, Running);
    StampKeeps(req.installed, Installed);
    EffectConcat(req.running, req.installed, s, x);
    if s.source == Running {
      EffectOfOthers(req.installed, s, Effect(req.running, s, x));
    } else if s.source == Installed {
      EffectOfOthers(req.running, s, x);
    }
  }

  // ---------------------------------------------------------------- which rows exist

  /** The last item sent that has the given catalog identity, if any. */
  function LastSentAs(last: State, current: seq<SoftwareDelta>, ident: Identity): (r: Option<SoftwareDelta>)
    ensures r.Some? ==> r.value in current && Emits(last, r.value) && IdentityOf(r.value) == ident
    ensures r.None? ==> forall d <- current :: Emits(last, d) ==> IdentityOf(d) != ident
  {
    if current == [] then None
    else
      var d := current[|current| - 1];
      if IdentityOf(d) == ident && Emits(last, d) then Some(d) else
        var r := LastSentAs(last, current[..|current| - 1], ident);
        assert forall e <- current :: e in current[..|current| - 1] || e == d;
        r
  }

  /** The row of an item, if there is one. */
  function RowShown(d: Option<SoftwareDelta>): Option<InventoryRow> {
    match d
    case None => None
    case Some(v) => Some(RowOf(v))
  }

  lemma {:induction false} SentEffect(last: State, current: seq<SoftwareDelta>, s: Slot, x: Option<InventoryRow>)
    requires From(current, s.source)
    ensures Effect(Upserts(last, current), s, x) ==
            if LastSentAs(last, current, s.ident).Some? then RowShown(LastSentAs(last, current, s.ident)) else x
  {
    if current != [] {
      hide Upserts, Effect, Emits;
      var init, d := current[..|current| - 1], current[|current| - 1];
      assert current == init + [d] && d in current;
      SentEffect(last, init, s, x);
      SentEffectStep(last, init, d, s, x);
    }
  }

  lemma SentEffectStep(last: State, init: seq<SoftwareDelta>, d: SoftwareDelta, s: Slot, x: Option<InventoryRow>)
    requires d.source == s.source
    ensures Effect(Upserts(last, init + [d]), s, x) ==
            if Emits(last, d) && IdentityOf(d) == s.ident then Some(RowOf(d)) else Effect(Upserts(last, init), s, x)
  {
    hide Upserts, Effect, Emits;
    UpsertsSnoc(last, init, d);
    var up := d.(op := Upsert);
    assert IdentityOf(up) == IdentityOf(d) && RowOf(up) == RowOf(d);
    if Emits(last, d) {
      EffectSnoc(Upserts(last, init), up, s, x);
    } else {
      assert Upserts(last, init) + [] == Upserts(last, init);
    }
  }

  lemma {:induction false} RemovePresence(last: State, ks: seq<Key>, s: Slot, x: Option<InventoryRow>)
    requires Keyed(last) && forall k <- ks :: k in last && k.source == s.source
    ensures Effect(Removes(last, ks), s, x) == if exists k :: k in ks && KeyIdentity(k) == s.ident then None else x
  {
    if ks != [] {
      var init, k := ks[..|ks| - 1], ks[|ks| - 1];
      assert ks == init + [k] && k in ks;
      assert forall j :: j in ks <==> j in init || j == k;
      RemovePresence(last, init, s, x);
      RemovesSnoc(last, init, k);
      var d := last[k].(op := Remove);
      assert KeyOf(d) == KeyOf(last[k]) == k;
      IdentityFromKey(d);
      EffectSnoc(Removes(last, init), d, s, x);
    }
  }

  ghost predicate Leaves(last: State, next: State, ident: Identity) {
    exists k :: k in last && k !in next && KeyIdentity(k) == ident
  }

  /** The keys of a source's state carry that source. */
  ghost predicate Sourced(last: State, source: Source) {
    Keyed(last) && forall k :: k in last ==> k.source == source
  }

  lemma CollectedSourced(current: seq<SoftwareDelta>, source: Source)
    requires From(current, source)
    ensures Sourced(Collected(current), source)
  {
  }

  /** What a whole diff leaves in a slot, from any row: upserts take effect in order, then the removes. */
  lemma DiffEffect(last: State, current: seq<SoftwareDelta>, deltas: seq<SoftwareDelta>, s: Slot, x: Option<InventoryRow>)
    requires Sourced(last, s.source) && From(current, s.source)
    requires IsDiff(last, current, deltas, Collected(current))
    ensures Effect(deltas, s, x) ==
            if Leaves(last, Collected(current), s.ident) then None
            else if LastSentAs(last, current, s.ident).Some? then RowShown(LastSentAs(last, current, s.ident)) else x
  {
    hide Effect, Upserts, Removes, LastSentAs;
    var next := Collected(current);
    var ks :| Departures(last, next, ks) && deltas == Upserts(last, current) + Removes(last, ks);
    EffectConcat(Upserts(last, current), Removes(last, ks), s, x);
    SentEffect(last, current, s, x);
    RemovePresence(last, ks, s, Effect(Upserts(last, current), s, x));
  }

  /**
   One diff, exactly. If a row was present just when the agent held its identity, then the same is
   true afterwards unless a key of that identity left while another one is held.
   */
  lemma PresenceStep(last: State, current: seq<SoftwareDelta>, ident: Identity, before: bool)
    requires before <==> Holds(last, ident)
    ensures var after := !Leaves(last, Collected(current), ident) && (LastSentAs(last, current, ident).Some? || before);
            (after <==> Holds(Collected(current), ident)) <==> !(Leaves(last, Collected(current), ident) && Holds(Collected(current), ident))
  {
    var next := Collected(current);
    if LastSentAs(last, current, ident).Some? {
      var d := LastSentAs(last, current, ident).value;
      IdentityFromKey(d);
      var i :| 0 <= i < |current| && current[i] == d;
      assert KeyOf(d) in next;
    }
    if b :| b in next && KeyIdentity(b) == ident && b !in last {
      var i :| 0 <= i < |current| && KeyOf(current[i]) == b;
      IdentityFromKey(current[i]);
      assert current[i] in current && Emits(last, current[i]);
    }
  }

  lemma RowStep(last: State, current: seq<SoftwareDelta>, deltas: seq<SoftwareDelta>, s: Slot, x: Option<InventoryRow>)
    requires Sourced(last, s.source) && From(current, s.source)
    requires IsDiff(last, current, deltas, Collected(current))
    requires x.Some? <==> Holds(last, s.ident)
    ensures (Effect(deltas, s, x).Some? <==> Holds(Collected(current), s.ident)) <==>
            !(Leaves(last, Collected(current), s.ident) && Holds(Collected(current), s.ident))
  {
    hide Effect, IsDiff, LastSentAs;
    DiffEffect(last, current, deltas, s, x);
    PresenceStep(last, current, s.ident, x.Some?);
  }

  /** Every slot of the host and source has a row just when the agent holds its identity. */
  ghost predicate RowsMatch(last: State, rows: Slot -> Option<InventoryRow>, host: nat, source: Source) {
    forall ident :: rows(Slot(host, source, ident)).Some? <==> Holds(last, ident)
  }

  /**
   The server's row set follows a diff if and only if no identity is handed over between keys: an
   upsert of the arriving key comes before the remove of the leaving one and both name one row.
   */
  lemma RowsFollowIff(last: State, current: seq<SoftwareDelta>, deltas: seq<SoftwareDelta>,
                      rows: Slot -> Option<InventoryRow>, host: nat, source: Source)
    requires Sourced(last, source) && From(current, source)
    requires IsDiff(last, current, deltas, Collected(current))
    requires RowsMatch(last, rows, host, source)
    ensures RowsMatch(Collected(current), s => Effect(deltas, s, rows(s)), host, source) <==> NoHandover(last, Collected(current))
  {
    var next := Collected(current);
    var after := s => Effect(deltas, s, rows(s));
    forall ident
      ensures (after(Slot(host, source, ident)).Some? <==> Holds(next, ident)) <==> !(Leaves(last, next, ident) && Holds(next, ident))
    {
      var s := Slot(host, source, ident);
      RowStep(last, current, deltas, s, rows(s));
    }
    if a, b :| a in last && a !in next && b in next && KeyIdentity(a) == KeyIdentity(b) {
      assert Leaves(last, next, KeyIdentity(a)) && Holds(next, KeyIdentity(a));
    }
  }

  // ---------------------------------------------------------------- what rows show

  /**
   While identity is injective on the keys involved, the slot follows the replayed state: the
   server is a replica of `Replay`.
   */
  lemma {:induction false} Simulates(m: State, ds: seq<SoftwareDelta>, keys: set<Key>, s: Slot, x: Option<InventoryRow>)
    requires Injective(keys) && m.Keys <= keys && From(ds, s.source)
    requires forall d <- ds :: KeyOf(d) in keys
    requires Faithful(true, m, s.ident, x)
    ensures Replay(m, ds).Keys <= keys && Faithful(true, Replay(m, ds), s.ident, Effect(ds, s, x))
  {
    if ds != [] {
      var init, d := ds[..|ds| - 1], ds[|ds| - 1];
      assert ds == init + [d] && d in ds;
      Simulates(m, init, keys, s, x);
      EffectSnoc(init, d, s, x);
      ReplaySnoc(m, init, d);
      SimulatesOne(Replay(m, init), d, keys, s, Effect(init, s, x));
    }
  }

  lemma SimulatesOne(m: State, d: SoftwareDelta, keys: set<Key>, s: Slot, x: Option<InventoryRow>)
    requires Injective(keys) && m.Keys <= keys && KeyOf(d) in keys && d.source == s.source
    requires Faithful(true, m, s.ident, x)
    ensures Faithful(true, Apply(m, d), s.ident, if !Hits(d, s) then x else if d.op == Remove then None else Some(RowOf(d)))
  {
    var k, m' := KeyOf(d), Apply(m, d);
    IdentityFromKey(d);
    if KeyIdentity(k) == s.ident {
      assert forall j :: j in m && KeyIdentity(j) == s.ident ==> j == k;
      if d.op != Remove {
        assert k in m';
      }
    } else {
      assert forall j :: KeyIdentity(j) == s.ident ==> (j in m <==> j in m');
    }
  }

  /** A row that shows the replayed item shows the new one iff the last item sent looks like it. */
  lemma ShowsIff(last: State, current: seq<SoftwareDelta>, deltas: seq<SoftwareDelta>, k: Key, row: InventoryRow)
    requires Keyed(last) && IsDiff(last, current, deltas, Collected(current)) && k in Collected(current)
    requires k in Replay(last, deltas) ==> Shows(row, Replay(last, deltas)[k])
    ensures Shows(row, Collected(current)[k]) <==>
            (LastSent(last, current, k).Some? ==> SameDisplay(LastSent(last, current, k).value, Collected(current)[k]))
  {
    hide IsDiff, Replay, Collected, LastSent, Keyed;
    ReplayedValue(last, last, current, deltas, k);
    if LastSent(last, current, k).None? {
      assert VisibleOf(last[k]) == VisibleOf(Collected(current)[k]);
    }
  }

  /** A slot faithful to the replayed state is faithful to the new one iff its keys show the same. */
  lemma FaithfulIff(last: State, current: seq<SoftwareDelta>, deltas: seq<SoftwareDelta>, ident: Identity, x: Option<InventoryRow>)
    requires Keyed(last) && IsDiff(last, current, deltas, Collected(current))
    requires Faithful(true, Replay(last, deltas), ident, x)
    ensures Faithful(true, Collected(current), ident, x) <==>
            forall k :: k in Collected(current) && KeyIdentity(k) == ident && LastSent(last, current, k).Some? ==>
              SameDisplay(LastSent(last, current, k).value, Collected(current)[k])
  {
    hide IsDiff, Replay, Collected, LastSent, Keyed, Shows, SameDisplay, KeyIdentity;
    var r, next := Replay(last, deltas), Collected(current);
    SameRefl(last);
    PatchLaw(last, last, current, deltas, next);
    assert forall k :: k in r <==> k in next;
    forall k | k in next && KeyIdentity(k) == ident
      ensures x.Some? && (Shows(x.value, next[k]) <==>
                (LastSent(last, current, k).Some? ==> SameDisplay(LastSent(last, current, k).value, next[k])))
    {
      assert k in r;
      ShowsIff(last, current, deltas, k, x.value);
    }
  }

  /**
   Attributes, exactly: while identity is injective on the keys involved and every slot of the source
   was faithful, path and owner included, all of them are faithful after a diff if and only if, for
   every key, the last item sent shows the path and owner of the last item collected.
   */
  lemma ValuesFollowIff(last: State, current: seq<SoftwareDelta>, deltas: seq<SoftwareDelta>,
                        rows: Slot -> Option<InventoryRow>, host: nat, source: Source)
    requires Sourced(last, source) && From(current, source)
    requires IsDiff(last, current, deltas, Collected(current)) && Injective(last.Keys + Collected(current).Keys)
    requires forall ident :: Faithful(true, last, ident, rows(Slot(host, source, ident)))
    ensures (forall ident :: Faithful(true, Collected(current), ident, Effect(deltas, Slot(host, source, ident), rows(Slot(host, source, ident)))))
            <==> Settles(last, current)
  {
    hide IsDiff, Effect, Replay, Injective;
    var next := Collected(current);
    DeltaKeys(last, current, deltas, source);
    forall ident
      ensures Faithful(true, next, ident, Effect(deltas, Slot(host, source, ident), rows(Slot(host, source, ident)))) <==>
              forall k :: k in next && KeyIdentity(k) == ident && LastSent(last, current, k).Some? ==>
                SameDisplay(LastSent(last, current, k).value, next[k])
    {
      var s := Slot(host, source, ident);
      Simulates(last, deltas, last.Keys + next.Keys, s, rows(s));
      FaithfulIff(last, current, deltas, ident, Effect(deltas, s, rows(s)));
    }
    if forall ident :: Faithful(true, next, ident, Effect(deltas, Slot(host, source, ident), rows(Slot(host, source, ident)))) {
      forall k | k in next && LastSent(last, current, k).Some?
        ensures SameDisplay(LastSent(last, current, k).value, next[k])
      {
        var ident := KeyIdentity(k);
        assert Faithful(true, next, ident, Effect(deltas, Slot(host, source, ident), rows(Slot(host, source, ident))));
      }
    }
  }

  /** Every delta of a diff concerns a key of the old or the new state, and keeps the source. */
  lemma DeltaKeys(last: State, current: seq<SoftwareDelta>, deltas: seq<SoftwareDelta>, source: Source)
    requires Sourced(last, source) && From(current, source)
    requires IsDiff(last, current, deltas, Collected(current))
    ensures forall d <- deltas :: KeyOf(d) in last.Keys + Collected(current).Keys && d.source == source
  {
    var next := Collected(current);
    var ks :| Departures(last, next, ks) && deltas == Upserts(last, current) + Removes(last, ks);
    UpsertKeys(last, current, source);
    RemovesExact(last, ks);
    forall d | d in deltas
      ensures KeyOf(d) in last.Keys + next.Keys && d.source == source
    {
      if d !in Upserts(last, current) {
        var i :| 0 <= i < |ks| && Removes(last, ks)[i] == d;
        assert KeyOf(d).source == source;
      }
    }
  }

  lemma {:induction false} UpsertKeys(last: State, current: seq<SoftwareDelta>, source: Source)
    requires From(current, source)
    ensures forall d <- Upserts(last, current) :: KeyOf(d) in Collected(current) && d.source == source
  {
    if current != [] {
      var init, d := current[..|current| - 1], current[|current| - 1];
      assert current == init + [d] && d in current;
      UpsertKeys(last, init, source);
      UpsertsSnoc(last, init, d);
      CollectedSnoc(init, d);
      assert KeyOf(d.(op := Upsert)) == KeyOf(d);
    }
  }

  // ---------------------------------------------------------------- whole histories

  /**
   The item whose row an identity's slot shows after the first `n` collections: the last one sent
   under that identity since a key of it last left.
   */
  ghost function Shown(collections: seq<seq<SoftwareDelta>>, n: nat, ident: Identity): Option<SoftwareDelta>
    requires n <= |collections|
  {
    if n == 0 || Leaves(StateAfter(collections, n - 1), StateAfter(collections, n), ident) then None
    else
      var sent := LastSentAs(StateAfter(collections, n - 1), collections[n - 1], ident);
      if sent.Some? then sent else Shown(collections, n - 1, ident)
  }

  lemma {:induction false} ShownPrefix(a: seq<seq<SoftwareDelta>>, b: seq<seq<SoftwareDelta>>, n: nat, ident: Identity)
    requires a <= b && n <= |a|
    ensures Shown(a, n, ident) == Shown(b, n, ident)
  {
    hide Leaves, LastSentAs, Collected;
    if n > 0 {
      ShownPrefix(a, b, n - 1, ident);
      assert StateAfter(a, n) == StateAfter(b, n) && StateAfter(a, n - 1) == StateAfter(b, n - 1);
    }
  }

  ghost predicate NoHandovers(collections: seq<seq<SoftwareDelta>>) {
    forall i :: 0 <= i < |collections| ==> NoHandover(StateAfter(collections, i), StateAfter(collections, i + 1))
  }

  /** Identity tells apart all keys that meet in one diff. */
  ghost predicate Injectives(collections: seq<seq<SoftwareDelta>>) {
    forall i :: 0 <= i < |collections| ==> Injective(StateAfter(collections, i).Keys + StateAfter(collections, i + 1).Keys)
  }

  lemma InjectiveMeansNoHandover(collections: seq<seq<SoftwareDelta>>)
    requires Injectives(collections)
    ensures NoHandovers(collections)
  {
  }

  /** Without handovers an identity shows an item just when the agent holds it. */
  lemma {:induction false} ShownIfHeld(collections: seq<seq<SoftwareDelta>>, n: nat, ident: Identity)
    requires NoHandovers(collections) && n <= |collections|
    ensures Shown(collections, n, ident).Some? <==> Holds(StateAfter(collections, n), ident)
  {
    hide LastSentAs, Collected, KeyIdentity;
    if n > 0 {
      ShownIfHeld(collections, n - 1, ident);
      var last, next := StateAfter(collections, n - 1), StateAfter(collections, n);
      assert NoHandover(last, next);
      assert !(Leaves(last, next, ident) && Holds(next, ident));
      hide NoHandovers, NoHandover, Holds, Leaves;
      PresenceStep(last, collections[n - 1], ident, Shown(collections, n - 1, ident).Some?);
    }
  }

  /** Items sent under an identity are those sent under its key, if only one key has it. */
  lemma {:induction false} SentUnderKey(last: State, current: seq<SoftwareDelta>, k: Key)
    requires forall d <- current :: IdentityOf(d) == KeyIdentity(k) ==> KeyOf(d) == k
    ensures LastSentAs(last, current, KeyIdentity(k)) == LastSent(last, current, k)
  {
    if current != [] {
      var d := current[|current| - 1];
      assert d in current;
      IdentityFromKey(d);
      SentUnderKey(last, current[..|current| - 1], k);
    }
  }

  /** One diff under an injective identity: the key did not leave, and what is sent under both is the same. */
  lemma InjectiveStep(last: State, current: seq<SoftwareDelta>, k: Key)
    requires Injective(last.Keys + Collected(current).Keys) && k in Collected(current)
    ensures !Leaves(last, Collected(current), KeyIdentity(k))
    ensures LastSentAs(last, current, KeyIdentity(k)) == LastSent(last, current, k)
    ensures LastSent(last, current, k).Some? || k in last
  {
    hide LastSentAs, LastSent, KeyIdentity;
    forall d | d in current && IdentityOf(d) == KeyIdentity(k) ensures KeyOf(d) == k {
      IdentityFromKey(d);
      var i :| 0 <= i < |current| && current[i] == d;
      assert KeyOf(d) in Collected(current);
    }
    SentUnderKey(last, current, k);
    if k !in last {
      var i :| 0 <= i < |current| && KeyOf(current[i]) == k;
      SentIfEmitted(last, current, i);
    }
  }

  /** While identity is injective, what a slot shows is the standing item of its one key. */
  lemma {:induction false} ShownIsStanding(collections: seq<seq<SoftwareDelta>>, n: nat, k: Key)
    requires Injectives(collections) && n <= |collections| && k in StateAfter(collections, n)
    ensures Shown(collections, n, KeyIdentity(k)) == Standing(collections, n, k) && Standing(collections, n, k).Some?
  {
    hide Leaves, LastSentAs, LastSent, Collected, Injective, KeyIdentity;
    var last := StateAfter(collections, n - 1);
    assert Injective(last.Keys + Collected(collections[n - 1]).Keys);
    InjectiveStep(last, collections[n - 1], k);
    if k in last {
      ShownIsStanding(collections, n - 1, k);
    }
  }

  /** The slots of a source, each showing what the history leaves in it, are faithful to the final state. */
  ghost predicate Tells(exact: bool, collections: seq<seq<SoftwareDelta>>) {
    forall ident :: Faithful(exact, StateAfter(collections, |collections|), ident, RowShown(Shown(collections, |collections|, ident)))
  }

  /** For every key held, the last item sent since it appeared shows the path and owner last collected. */
  ghost predicate SettledRows(collections: seq<seq<SoftwareDelta>>) {
    var final := StateAfter(collections, |collections|);
    forall k :: k in final && Standing(collections, |collections|, k).Some? ==>
      SameDisplay(Standing(collections, |collections|, k).value, final[k])
  }

  lemma RowsTell(collections: seq<seq<SoftwareDelta>>)
    requires NoHandovers(collections)
    ensures Tells(false, collections)
  {
    forall ident
      ensures Faithful(false, StateAfter(collections, |collections|), ident, RowShown(Shown(collections, |collections|, ident)))
    {
      ShownIfHeld(collections, |collections|, ident);
    }
  }

  /**
   The hypothesis is needed: after a history without handovers, one more collection is told if and only
   if it hands over no identity.
   */
  lemma OneHandoverIff(collections: seq<seq<SoftwareDelta>>)
    requires collections != [] && NoHandovers(collections[..|collections| - 1])
    ensures Tells(false, collections) <==>
            NoHandover(StateAfter(collections, |collections| - 1), StateAfter(collections, |collections|))
  {
    hide LastSentAs, Collected, KeyIdentity;
    var n, init := |collections| - 1, collections[..|collections| - 1];
    var last, next := StateAfter(collections, n), StateAfter(collections, n + 1);
    assert forall i :: 0 <= i <= n ==> StateAfter(init, i) == StateAfter(collections, i);
    forall ident
      ensures Faithful(false, next, ident, RowShown(Shown(collections, n + 1, ident))) <==> !(Leaves(last, next, ident) && Holds(next, ident))
    {
      ShownIfHeld(init, n, ident);
      ShownPrefix(init, collections, n, ident);
      PresenceStep(last, collections[n], ident, Shown(collections, n, ident).Some?);
    }
    if a, b :| a in last && a !in next && b in next && KeyIdentity(a) == KeyIdentity(b) {
      assert Leaves(last, next, KeyIdentity(a)) && Holds(next, KeyIdentity(a));
    }
  }

  /** While identity is injective, the history is told, paths and owners included, iff it is settled. */
  lemma ValuesTellIff(collections: seq<seq<SoftwareDelta>>)
    requires Injectives(collections)
    ensures Tells(true, collections) <==> SettledRows(collections)
  {
    hide Shown, Standing, StateAfter, Injectives, SameDisplay, Shows;
    var n, final := |collections|, StateAfter(collections, |collections|);
    InjectiveMeansNoHandover(collections);
    RowsTell(collections);
    forall k | k in final
      ensures Standing(collections, n, k).Some? && Shown(collections, n, KeyIdentity(k)) == Standing(collections, n, k)
      ensures Shows(RowOf(Standing(collections, n, k).value), final[k]) <==> SameDisplay(Standing(collections, n, k).value, final[k])
    {
      ShownIsStanding(collections, n, k);
      ShowsItem(Standing(collections, n, k).value, final[k]);
    }
    if Tells(true, collections) {
      forall k | k in final ensures SameDisplay(Standing(collections, n, k).value, final[k]) {
        assert Faithful(true, final, KeyIdentity(k), RowShown(Shown(collections, n, KeyIdentity(k))));
      }
    }
    if SettledRows(collections) {
      forall ident ensures Faithful(true, final, ident, RowShown(Shown(collections, n, ident))) {
        assert Faithful(false, final, ident, RowShown(Shown(collections, n, ident)));
      }
    }
  }

  lemma ShowsItem(d: SoftwareDelta, e: SoftwareDelta)
    ensures Shows(RowOf(d), e) <==> SameDisplay(d, e)
  {
  }

  // ---------------------------------------------------------------- the tables themselves

  /** `k` is the host's inventory row for an identity and source. */
  ghost predicate IsRow(t: Tables, k: RowKey, host: nat, source: Source, ident: Identity) {
    k in t.inventory && k.host == host && k.source == source && k.catalogId in t.catalog && IdentityOfRow(t.catalog[k.catalogId]) == ident
  }

  /**
   The host's rows of a source mirror the agent's state: every row is of an identity the agent
   holds, and every item has its row, which shows it when `exact`.
   */
  ghost predicate Mirrors(exact: bool, t: Tables, host: nat, source: Source, last: State) {
    && (forall k, ident :: IsRow(t, k, host, source, ident) ==> Holds(last, ident))
    && (forall key :: key in last ==>
          exists k :: IsRow(t, k, host, source, KeyIdentity(key)) && (exact ==> Shows(t.inventory[k], last[key])))
  }

  /** The tables mirror the agent's state if and only if every slot of the host and source is faithful. */
  lemma FaithfulSlotsMirror(exact: bool, t: Tables, host: nat, source: Source, last: State)
    requires Valid(t)
    ensures Mirrors(exact, t, host, source, last) <==> forall ident :: Faithful(exact, last, ident, At(t, Slot(host, source, ident)))
  {
    if forall ident :: Faithful(exact, last, ident, At(t, Slot(host, source, ident))) {
      FaithfulMirrors(exact, t, host, source, last);
    }
    if Mirrors(exact, t, host, source, last) {
      forall ident ensures Faithful(exact, last, ident, At(t, Slot(host, source, ident))) {
        MirrorFaithful(exact, t, last, Slot(host, source, ident));
      }
    }
  }

  lemma MirrorFaithful(exact: bool, t: Tables, last: State, s: Slot)
    requires Valid(t) && Mirrors(exact, t, s.host, s.source, last)
    ensures Faithful(exact, last, s.ident, At(t, s))
  {
    if At(t, s).Some? {
      assert IsRow(t, RowKey(s.host, Find(t.catalog, s.ident).value, s.source), s.host, s.source, s.ident);
    }
    forall key | key in last && KeyIdentity(key) == s.ident
      ensures At(t, s).Some? && (exact ==> Shows(At(t, s).value, last[key]))
    {
      var k :| IsRow(t, k, s.host, s.source, s.ident) && (exact ==> Shows(t.inventory[k], last[key]));
      SlotOfRow(t, k);
    }
  }

  lemma FaithfulMirrors(exact: bool, t: Tables, host: nat, source: Source, last: State)
    requires Valid(t)
    requires forall ident :: Faithful(exact, last, ident, At(t, Slot(host, source, ident)))
    ensures Mirrors(exact, t, host, source, last)
  {
    forall k, ident | IsRow(t, k, host, source, ident) ensures Holds(last, ident) {
      SlotOfRow(t, k);
      assert Faithful(exact, last, ident, At(t, Slot(host, source, ident)));
    }
    forall key | key in last
      ensures exists k :: IsRow(t, k, host, source, KeyIdentity(key)) && (exact ==> Shows(t.inventory[k], last[key]))
    {
      var slot := Slot(host, source, KeyIdentity(key));
      assert Faithful(exact, last, slot.ident, At(t, slot)) && Holds(last, slot.ident);
      var k := RowKey(host, Find(t.catalog, slot.ident).value, source);
      assert IsRow(t, k, host, source, KeyIdentity(key));
    }
  }
}
