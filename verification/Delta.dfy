/**
 The agent's diff (internal/agent/delta/delta.go): what changed between the state last handed
 to the spool and a fresh collection.
 */
module Delta {
  import opened Wire

  datatype Key = Key(source: Source, name: string, publisher: string, version: string, sha256: string)

  /** The last-sent state, keyed by software identity. */
  type State = map<Key, SoftwareDelta>

  function KeyOf(d: SoftwareDelta): Key {
    Key(d.source, d.name, StrVal(d.publisher), StrVal(d.version), StrVal(d.sha256))
  }

  /** The five fields a diff compares; nil reads as the empty string. */
  datatype Visible = Visible(version: string, exePath: string, owningUser: string, signed: bool, signer: string)

  function VisibleOf(d: SoftwareDelta): Visible {
    Visible(StrVal(d.version), StrVal(d.exePath), StrVal(d.owningUser), d.signed, StrVal(d.signer))
  }

  /** True iff one of the compared fields differs. */
  predicate ObservableChange(a: SoftwareDelta, b: SoftwareDelta) {
    VisibleOf(a) != VisibleOf(b)
  }

  // ---------------------------------------------------------------- specification

  /** The state a collection leaves behind: every key with its last item. */
  function Collected(current: seq<SoftwareDelta>): (s: State)
    ensures forall k :: k in s <==> exists i :: 0 <= i < |current| && KeyOf(current[i]) == k
  {
    if current == [] then
      map[]
    else
      var d := current[|current| - 1];
      var init := current[..|current| - 1];
      assert current == init + [d];
      Collected(init)[KeyOf(d) := d]
  }

  /** An item is sent when its key is new or it differs from the last-sent item of that key. */
  predicate Emits(last: State, d: SoftwareDelta) {
    KeyOf(d) !in last || ObservableChange(last[KeyOf(d)], d)
  }

  function Emission(last: State, d: SoftwareDelta): seq<SoftwareDelta> {
    if Emits(last, d) then [d.(op := Upsert)] else []
  }

  function Upserts(last: State, current: seq<SoftwareDelta>): seq<SoftwareDelta> {
    if current == [] then [] else Upserts(last, current[..|current| - 1]) + Emission(last, current[|current| - 1])
  }

  function Removes(last: State, ks: seq<Key>): seq<SoftwareDelta>
    requires forall k <- ks :: k in last
  {
    if ks == [] then [] else Removes(last, ks[..|ks| - 1]) + [last[ks[|ks| - 1]].(op := Remove)]
  }

  /** `ks` lists every key that left, once each; Go's map iteration picks the order. */
  ghost predicate Departures(last: State, next: State, ks: seq<Key>) {
    && (forall k :: k in ks <==> k in last && k !in next)
    && (forall i, j :: 0 <= i < j < |ks| ==> ks[i] != ks[j])
  }

  /** What one call of Diff may return. */
  ghost predicate IsDiff(last: State, current: seq<SoftwareDelta>, deltas: seq<SoftwareDelta>, next: State) {
    && next == Collected(current)
    && exists ks :: Departures(last, next, ks) && deltas == Upserts(last, current) + Removes(last, ks)
  }

  lemma CollectedSnoc(init: seq<SoftwareDelta>, d: SoftwareDelta)
    ensures Collected(init + [d]) == Collected(init)[KeyOf(d) := d]
  {
  }

  lemma UpsertsSnoc(last: State, init: seq<SoftwareDelta>, d: SoftwareDelta)
    ensures Upserts(last, init + [d]) == Upserts(last, init) + Emission(last, d)
  {
  }

  lemma RemovesSnoc(last: State, ks: seq<Key>, k: Key)
    requires forall x <- ks + [k] :: x in last
    ensures forall x <- ks :: x in last
    ensures k in last && Removes(last, ks + [k]) == Removes(last, ks) + [last[k].(op := Remove)]
  {
  }

  method Diff(last: State, current: seq<SoftwareDelta>) returns (deltas: seq<SoftwareDelta>, next: State)
    ensures IsDiff(last, current, deltas, next)
  {
    next, deltas := map[], [];
    assert next == Collected(current[..0]) && deltas == Upserts(last, current[..0]);
    hide *;
    for i := 0 to |current|
      invariant next == Collected(current[..i])
      invariant deltas == Upserts(last, current[..i])
    {
      var d := current[i];
      OneMore(last, current, i);
      var k := KeyOf(d);
      next := next[k := d];
      if k !in last {
        deltas := deltas + [d.(op := Upsert)];
        continue;
      }
      if ObservableChange(last[k], d) {
        deltas := deltas + [d.(op := Upsert)];
      }
    }
    assert current[..|current|] == current;
    var removes := RemoveDeltas(last, next);
    WholeDiff(last, current, removes);
    deltas := deltas + removes;
  }

  /** One pass of the first loop. */
  lemma OneMore(last: State, current: seq<SoftwareDelta>, i: nat)
    requires i < |current|
    ensures var d := current[i];
            && Collected(current[..i + 1]) == Collected(current[..i])[KeyOf(d) := d]
            && Upserts(last, current[..i + 1]) ==
                 if KeyOf(d) !in last || ObservableChange(last[KeyOf(d)], d) then Upserts(last, current[..i]) + [d.(op := Upsert)]
                 else Upserts(last, current[..i])
  {
    assert current[..i + 1] == current[..i] + [current[i]];
    CollectedSnoc(current[..i], current[i]);
    UpsertsSnoc(last, current[..i], current[i]);
    hide Collected, Upserts, KeyOf, ObservableChange;
    assert Upserts(last, current[..i]) + [] == Upserts(last, current[..i]);
  }

  lemma WholeDiff(last: State, current: seq<SoftwareDelta>, removes: seq<SoftwareDelta>)
    requires exists ks :: Departures(last, Collected(current), ks) && removes == Removes(last, ks)
    ensures IsDiff(last, current, Upserts(last, current) + removes, Collected(current))
  {
  }

  /** The second loop of Diff: whatever is in `last` and no longer collected. */
  method RemoveDeltas(last: State, next: State) returns (deltas: seq<SoftwareDelta>)
    ensures exists ks :: Departures(last, next, ks) && deltas == Removes(last, ks)
  {
    deltas := [];
    ghost var ks: seq<Key> := [];
    var pending := last.Keys;
    while pending != {}
      invariant pending <= last.Keys
      invariant forall k :: k in ks <==> k in last && k !in next && k !in pending
      invariant forall i, j :: 0 <= i < j < |ks| ==> ks[i] != ks[j]
      invariant deltas == Removes(last, ks)
      decreases pending
    {
      var k :| k in pending;
      pending := pending - {k};
      if k !in next {
        assert forall x <- ks + [k] :: x in last;
        RemovesSnoc(last, ks, k);
        deltas := deltas + [last[k].(op := Remove)];
        ks := ks + [k];
      }
    }
    assert Departures(last, next, ks);
  }

  lemma Enumerate(ids: set<Key>) returns (ks: seq<Key>)
    ensures forall k :: k in ks <==> k in ids
    ensures forall i, j :: 0 <= i < j < |ks| ==> ks[i] != ks[j]
  {
    ks := [];
    if k :| k in ids {
      var rest := Enumerate(ids - {k});
      ks := rest + [k];
    }
  }

  /** Every state and collection have a diff. */
  lemma DiffExists(last: State, current: seq<SoftwareDelta>) returns (deltas: seq<SoftwareDelta>)
    ensures IsDiff(last, current, deltas, Collected(current))
  {
    var ks := Enumerate(last.Keys - Collected(current).Keys);
    assert Departures(last, Collected(current), ks);
    deltas := Upserts(last, current) + Removes(last, ks);
  }

  // ---------------------------------------------------------------- replaying a diff

  /** A state files every item under its own key. */
  ghost predicate Keyed(s: State) {
    forall k :: k in s ==> KeyOf(s[k]) == k
  }

  /** Agreement up to what the diff observes. */
  ghost predicate Same(a: State, b: State) {
    a.Keys == b.Keys && forall k :: k in a ==> !ObservableChange(a[k], b[k])
  }

  function Apply(m: State, d: SoftwareDelta): State {
    if d.op == Remove then m - {KeyOf(d)} else m[KeyOf(d) := d]
  }

  /** The receiver's reading of a delta list: apply the operations in order. */
  function Replay(m: State, deltas: seq<SoftwareDelta>): State {
    if deltas == [] then m else Apply(Replay(m, deltas[..|deltas| - 1]), deltas[|deltas| - 1])
  }

  lemma ReplaySnoc(m: State, init: seq<SoftwareDelta>, d: SoftwareDelta)
    ensures Replay(m, init + [d]) == Apply(Replay(m, init), d)
  {
  }

  lemma {:induction false} ReplayConcat(m: State, a: seq<SoftwareDelta>, b: seq<SoftwareDelta>)
    ensures Replay(m, a + b) == Replay(Replay(m, a), b)
  {
    if b == [] {
      assert a + b == a;
    } else {
      var n := |b| - 1;
      assert (a + b)[..|a + b| - 1] == a + b[..n];
      ReplayConcat(m, a, b[..n]);
    }
  }

  lemma {:induction false} CollectedKeyed(current: seq<SoftwareDelta>)
    ensures Keyed(Collected(current))
  {
    if current != [] {
      CollectedKeyed(current[..|current| - 1]);
    }
  }

  /** Some item of key `k` differs observably from the last-sent one. */
  ghost predicate Moved(last: State, current: seq<SoftwareDelta>, k: Key)
    requires k in last
  {
    exists i :: 0 <= i < |current| && KeyOf(current[i]) == k && ObservableChange(last[k], current[i])
  }

  /**
   What the upserts do to one key of the receiver's map `m`, ending in `r`: untouched unless an
   item moved, and the final item verbatim when the key is new or its final item moved.
   */
  ghost predicate Tracks(m: State, last: State, next: State, moved: bool, r: State, k: Key) {
    && (k in r <==> k in m || k in next)
    && (k in next && k !in last ==> r[k] == next[k].(op := Upsert))
    && (k in next && k in last && ObservableChange(last[k], next[k]) ==> r[k] == next[k].(op := Upsert))
    && (k in last && !moved && k in m ==> k in r && r[k] == m[k])
    && (k in last && moved ==> k in r && ObservableChange(last[k], r[k]))
  }

  lemma TracksStep(m: State, last: State, next: State, moved: bool, r: State, d: SoftwareDelta, k: Key)
    requires m.Keys == last.Keys && Tracks(m, last, next, moved, r, k)
    ensures Tracks(m, last, next[KeyOf(d) := d], moved || (KeyOf(d) == k && k in last && ObservableChange(last[k], d)),
                   Replay(r, Emission(last, d)), k)
  {
    var up := d.(op := Upsert);
    assert KeyOf(up) == KeyOf(d) && VisibleOf(up) == VisibleOf(d);
    ReplaySnoc(r, [], up);
    assert [] + [up] == [up];
  }

  lemma MovedSnoc(last: State, init: seq<SoftwareDelta>, d: SoftwareDelta, k: Key)
    requires k in last
    ensures Moved(last, init + [d], k) <==> Moved(last, init, k) || (KeyOf(d) == k && ObservableChange(last[k], d))
  {
    var current := init + [d];
    assert current[|init|] == d && forall i :: 0 <= i < |init| ==> init[i] == current[i];
  }

  lemma {:induction false} ReplayUpserts(m: State, last: State, current: seq<SoftwareDelta>, k: Key)
    requires m.Keys == last.Keys
    ensures Tracks(m, last, Collected(current), k in last && Moved(last, current, k),
                   Replay(m, Upserts(last, current)), k)
  {
    if current != [] {
      var init, d := current[..|current| - 1], current[|current| - 1];
      assert current == init + [d];
      ReplayUpserts(m, last, init, k);
      CollectedSnoc(init, d);
      UpsertsSnoc(last, init, d);
      ReplayConcat(m, Upserts(last, init), Emission(last, d));
      if k in last {
        MovedSnoc(last, init, d, k);
      }
      TracksStep(m, last, Collected(init), k in last && Moved(last, init, k), Replay(m, Upserts(last, init)), d, k);
    }
  }

  lemma {:induction false} ReplayRemoves(m: State, last: State, ks: seq<Key>)
    requires Keyed(last)
    requires forall k <- ks :: k in last
    ensures Replay(m, Removes(last, ks)).Keys == m.Keys - (set k | k in ks)
    ensures forall k :: k in Replay(m, Removes(last, ks)) ==> Replay(m, Removes(last, ks))[k] == m[k]
  {
    if ks != [] {
      var init, k := ks[..|ks| - 1], ks[|ks| - 1];
      assert ks == init + [k];
      RemovesSnoc(last, init, k);
      ReplayRemoves(m, last, init);
      var rm := last[k].(op := Remove);
      assert KeyOf(rm) == KeyOf(last[k]) == k;
      ReplaySnoc(m, Removes(last, init), rm);
      assert (set x | x in ks) == (set x | x in init) + {k};
    }
  }

  /**
   A key flaps when some item of it moved although its final item did not: the diff then sends
   the moved item and nothing that takes it back. Distinct keys never flap.
   */
  ghost predicate NoFlap(last: State, current: seq<SoftwareDelta>) {
    forall k :: k in last && k in Collected(current) && Moved(last, current, k) ==>
      ObservableChange(last[k], Collected(current)[k])
  }

  ghost predicate ConsistentDuplicates(current: seq<SoftwareDelta>) {
    forall i, j :: 0 <= i < j < |current| && KeyOf(current[i]) == KeyOf(current[j]) ==>
      !ObservableChange(current[i], current[j])
  }

  lemma {:induction false} CollectedIsAnItem(current: seq<SoftwareDelta>, k: Key) returns (i: nat)
    requires k in Collected(current)
    ensures i < |current| && KeyOf(current[i]) == k && Collected(current)[k] == current[i]
    ensures forall j :: i < j < |current| ==> KeyOf(current[j]) != k
  {
    var n := |current| - 1;
    if KeyOf(current[n]) == k {
      i := n;
    } else {
      i := CollectedIsAnItem(current[..n], k);
    }
  }

  lemma ConsistentDuplicatesNeverFlap(last: State, current: seq<SoftwareDelta>)
    requires ConsistentDuplicates(current)
    ensures NoFlap(last, current)
  {
    forall k | k in last && k in Collected(current) && Moved(last, current, k)
      ensures ObservableChange(last[k], Collected(current)[k])
    {
      var i := CollectedIsAnItem(current, k);
      var j :| 0 <= j < |current| && KeyOf(current[j]) == k && ObservableChange(last[k], current[j]);
    }
  }

  /** Replaying a whole diff, seen at one key. */
  lemma ReplayDiff(m: State, last: State, current: seq<SoftwareDelta>, deltas: seq<SoftwareDelta>, next: State, k: Key)
    requires Keyed(last) && m.Keys == last.Keys
    requires IsDiff(last, current, deltas, next)
    ensures k in Replay(m, deltas) <==> k in next
    ensures k in next ==> Tracks(m, last, next, k in last && Moved(last, current, k), Replay(m, deltas), k)
  {
    var ks :| Departures(last, next, ks) && deltas == Upserts(last, current) + Removes(last, ks);
    var mid := Replay(m, Upserts(last, current));
    ReplayConcat(m, Upserts(last, current), Removes(last, ks));
    ReplayRemoves(mid, last, ks);
    ReplayUpserts(m, last, current, k);
  }

  /**
   The patch law, exactly. On any map that agrees with `last`, replaying a diff yields the new
   key set, and yields the new state if and only if no key flaps.
   */
  lemma PatchLaw(m: State, last: State, current: seq<SoftwareDelta>, deltas: seq<SoftwareDelta>, next: State)
    requires Keyed(last) && Same(m, last)
    requires IsDiff(last, current, deltas, next)
    ensures Replay(m, deltas).Keys == next.Keys
    ensures Same(Replay(m, deltas), next) <==> NoFlap(last, current)
  {
    assert next == Collected(current);
    hide Replay, IsDiff, Moved, Keyed, Collected, KeyOf;
    var r := Replay(m, deltas);
    forall k
      ensures k in r <==> k in next
      ensures k in next ==> (!ObservableChange(r[k], next[k]) <==>
                (k in last && Moved(last, current, k) ==> ObservableChange(last[k], next[k])))
    {
      ReplayDiff(m, last, current, deltas, next, k);
      if k in next {
        assert VisibleOf(next[k].(op := Upsert)) == VisibleOf(next[k]);
      }
    }
  }

  lemma HasMember<T>(s: seq<T>)
    ensures s == [] || exists x :: x in s
  {
    if s != [] {
      assert s[0] in s;
    }
  }

  /** The last item of a key that a diff sends, if it sends any. */
  function LastSent(last: State, current: seq<SoftwareDelta>, k: Key): Option<SoftwareDelta> {
    if current == [] then None
    else if KeyOf(current[|current| - 1]) == k && Emits(last, current[|current| - 1]) then Some(current[|current| - 1])
    else LastSent(last, current[..|current| - 1], k)
  }

  lemma ReplayUpsertsSnoc(m: State, last: State, init: seq<SoftwareDelta>, d: SoftwareDelta)
    ensures var before := Replay(m, Upserts(last, init));
            Replay(m, Upserts(last, init + [d])) == if Emits(last, d) then before[KeyOf(d) := d.(op := Upsert)] else before
  {
    hide Replay, Upserts, Emits;
    UpsertsSnoc(last, init, d);
    if Emits(last, d) {
      var up := d.(op := Upsert);
      assert KeyOf(up) == KeyOf(d);
      ReplaySnoc(m, Upserts(last, init), up);
    } else {
      assert Upserts(last, init) + [] == Upserts(last, init);
    }
  }

  lemma LastSentSnoc(last: State, init: seq<SoftwareDelta>, d: SoftwareDelta, k: Key)
    ensures LastSent(last, [], k) == None
    ensures LastSent(last, init + [d], k) == if KeyOf(d) == k && Emits(last, d) then Some(d) else LastSent(last, init, k)
  {
  }

  lemma {:induction false} ReplaySent(m: State, last: State, current: seq<SoftwareDelta>, k: Key)
    ensures var r := Replay(m, Upserts(last, current));
            match LastSent(last, current, k)
            case Some(d) => k in r && r[k] == d.(op := Upsert)
            case None => (k in r <==> k in m) && (k in r ==> r[k] == m[k])
  {
    if current != [] {
      hide Emits, KeyOf, Replay, Upserts, LastSent;
      var init, d := current[..|current| - 1], current[|current| - 1];
      assert current == init + [d];
      ReplaySent(m, last, init, k);
      ReplayUpsertsSnoc(m, last, init, d);
      LastSentSnoc(last, init, d, k);
    }
  }

  /** The value a whole diff leaves at a key of the new state. */
  lemma ReplayedValue(m: State, last: State, current: seq<SoftwareDelta>, deltas: seq<SoftwareDelta>, k: Key)
    requires Keyed(last) && m.Keys == last.Keys
    requires IsDiff(last, current, deltas, Collected(current)) && k in Collected(current)
    ensures k in Replay(m, deltas)
    ensures match LastSent(last, current, k)
            case Some(d) => Replay(m, deltas)[k] == d.(op := Upsert)
            case None => k in last && Replay(m, deltas)[k] == m[k] && !ObservableChange(last[k], Collected(current)[k])
  {
    var next := Collected(current);
    var ks :| Departures(last, next, ks) && deltas == Upserts(last, current) + Removes(last, ks);
    ReplayDiff(m, last, current, deltas, next, k);
    ReplayConcat(m, Upserts(last, current), Removes(last, ks));
    ReplayRemoves(Replay(m, Upserts(last, current)), last, ks);
    ReplaySent(m, last, current, k);
    var i := CollectedIsAnItem(current, k);
    if Emits(last, current[i]) {
      SentIfEmitted(last, current, i);
    }
  }

  lemma {:induction false} SentIfEmitted(last: State, current: seq<SoftwareDelta>, i: nat)
    requires i < |current| && Emits(last, current[i])
    ensures LastSent(last, current, KeyOf(current[i])).Some?
  {
    if i < |current| - 1 {
      SentIfEmitted(last, current[..|current| - 1], i);
    }
  }

  /** A diff from nothing sends every item, in order. */
  lemma DiffFromEmpty(current: seq<SoftwareDelta>, deltas: seq<SoftwareDelta>, next: State)
    requires IsDiff(map[], current, deltas, next)
    ensures |deltas| == |current| && forall i :: 0 <= i < |deltas| ==> deltas[i] == current[i].(op := Upsert)
  {
    var ks: seq<Key> :| Departures(map[], next, ks) && deltas == Upserts(map[], current) + Removes(map[], ks);
    HasMember(ks);
    UpsertsOfAll(current);
  }

  /** A diff from nothing rebuilds the state exactly, whatever the duplicates. */
  lemma PatchFromEmpty(current: seq<SoftwareDelta>, deltas: seq<SoftwareDelta>, next: State)
    requires IsDiff(map[], current, deltas, next)
    ensures Replay(map[], deltas) == map k | k in next :: next[k].(op := Upsert)
  {
    forall k
      ensures k in Replay(map[], deltas) <==> k in next
      ensures k in next ==> Replay(map[], deltas)[k] == next[k].(op := Upsert)
    {
      ReplayDiff(map[], map[], current, deltas, next, k);
    }
  }

  lemma {:induction false} UpsertsOfAll(current: seq<SoftwareDelta>)
    ensures |Upserts(map[], current)| == |current|
    ensures forall i :: 0 <= i < |current| ==> Upserts(map[], current)[i] == current[i].(op := Upsert)
  {
    if current != [] {
      UpsertsOfAll(current[..|current| - 1]);
    }
  }

  // ---------------------------------------------------------------- whole runs of diffs

  /** A history of collections: `diffs[i]` is a diff of `collections[i]` against the one before. */
  ghost predicate DiffRun(collections: seq<seq<SoftwareDelta>>, diffs: seq<seq<SoftwareDelta>>) {
    && |collections| == |diffs|
    && forall i :: 0 <= i < |diffs| ==>
         IsDiff(StateAfter(collections, i), collections[i], diffs[i], Collected(collections[i]))
  }

  /** The agent's state after the first `n` collections. */
  function StateAfter(collections: seq<seq<SoftwareDelta>>, n: nat): State
    requires n <= |collections|
  {
    if n == 0 then map[] else Collected(collections[n - 1])
  }

  function Flatten(diffs: seq<seq<SoftwareDelta>>): seq<SoftwareDelta> {
    if diffs == [] then [] else Flatten(diffs[..|diffs| - 1]) + diffs[|diffs| - 1]
  }

  /** The last item sent for a key in the first `n` diffs, since the key was last absent. */
  function Standing(collections: seq<seq<SoftwareDelta>>, n: nat, k: Key): Option<SoftwareDelta>
    requires n <= |collections|
  {
    if n == 0 || k !in Collected(collections[n - 1]) then None
    else match LastSent(StateAfter(collections, n - 1), collections[n - 1], k)
      case Some(d) => Some(d)
      case None => Standing(collections, n - 1, k)
  }

  /** What the receiver holds under a key after `n` diffs: its standing item, if the key is present. */
  ghost predicate HoldsStanding(collections: seq<seq<SoftwareDelta>>, n: nat, k: Key, m: State)
    requires n <= |collections|
  {
    && (k in StateAfter(collections, n) <==> Standing(collections, n, k).Some?)
    && (k in m <==> Standing(collections, n, k).Some?)
    && (k in m ==> m[k] == Standing(collections, n, k).value.(op := Upsert))
  }

  lemma StateAfterKeyed(collections: seq<seq<SoftwareDelta>>, n: nat)
    requires n <= |collections|
    ensures Keyed(StateAfter(collections, n))
  {
    if n > 0 {
      CollectedKeyed(collections[n - 1]);
    }
  }

  lemma StandingStep(collections: seq<seq<SoftwareDelta>>, n: nat, m: State, deltas: seq<SoftwareDelta>, k: Key)
    requires n < |collections| && m.Keys == StateAfter(collections, n).Keys
    requires IsDiff(StateAfter(collections, n), collections[n], deltas, Collected(collections[n]))
    requires HoldsStanding(collections, n, k, m)
    ensures HoldsStanding(collections, n + 1, k, Replay(m, deltas))
  {
    hide IsDiff, Replay, Collected, LastSent, Keyed, Moved;
    var last, current := StateAfter(collections, n), collections[n];
    StateAfterKeyed(collections, n);
    ReplayDiff(m, last, current, deltas, Collected(current), k);
    if k in Collected(current) {
      ReplayedValue(m, last, current, deltas, k);
    }
  }

  /** Telescoping, key by key: after any history of diffs the receiver holds exactly the standing items. */
  lemma {:induction false} ReplayedStanding(collections: seq<seq<SoftwareDelta>>, diffs: seq<seq<SoftwareDelta>>, n: nat)
    requires DiffRun(collections, diffs) && n <= |diffs|
    ensures Replay(map[], Flatten(diffs[..n])).Keys == StateAfter(collections, n).Keys
    ensures forall k :: HoldsStanding(collections, n, k, Replay(map[], Flatten(diffs[..n])))
  {
    hide IsDiff, Replay, Collected, Standing;
    if n == 0 {
      NothingStands(collections);
    } else {
      ReplayedStanding(collections, diffs, n - 1);
      var m := Replay(map[], Flatten(diffs[..n - 1]));
      assert diffs[..n][..n - 1] == diffs[..n - 1];
      ReplayConcat(map[], Flatten(diffs[..n - 1]), diffs[n - 1]);
      var r := Replay(m, diffs[n - 1]);
      forall k ensures HoldsStanding(collections, n, k, r) && (k in r <==> k in StateAfter(collections, n)) {
        StandingStep(collections, n - 1, m, diffs[n - 1], k);
      }
    }
  }

  lemma NothingStands(collections: seq<seq<SoftwareDelta>>)
    ensures Replay(map[], []) == map[] && forall k :: Standing(collections, 0, k) == None
  {
  }

  /** Telescoping: replaying every diff of any history from nothing gives the final key set. */
  lemma TelescopeKeys(collections: seq<seq<SoftwareDelta>>, diffs: seq<seq<SoftwareDelta>>)
    requires DiffRun(collections, diffs)
    ensures Replay(map[], Flatten(diffs)).Keys == StateAfter(collections, |collections|).Keys
  {
    ReplayedStanding(collections, diffs, |diffs|);
    assert diffs[..|diffs|] == diffs;
  }

  /** Every key's standing item looks like the one last collected. */
  ghost predicate Settled(collections: seq<seq<SoftwareDelta>>) {
    var final := StateAfter(collections, |collections|);
    forall k :: k in final && Standing(collections, |collections|, k).Some? ==>
      !ObservableChange(Standing(collections, |collections|, k).value, final[k])
  }

  /**
   Telescoping, exactly: the replayed history agrees observably with the final state if and only if
   for every key of it the last item sent since the key appeared looks like the last one collected.
   A flap does harm only until a later diff sends the key again.
   */
  lemma TelescopeIff(collections: seq<seq<SoftwareDelta>>, diffs: seq<seq<SoftwareDelta>>)
    requires DiffRun(collections, diffs)
    ensures Same(Replay(map[], Flatten(diffs)), StateAfter(collections, |collections|)) <==> Settled(collections)
  {
    assert |collections| == |diffs|;
    hide Replay, Standing, StateAfter, DiffRun;
    var n, r, final := |collections|, Replay(map[], Flatten(diffs)), StateAfter(collections, |collections|);
    ReplayedStanding(collections, diffs, n);
    assert diffs[..n] == diffs;
    forall k | k in final
      ensures k in r && Standing(collections, n, k).Some?
      ensures ObservableChange(r[k], final[k]) <==> ObservableChange(Standing(collections, n, k).value, final[k])
    {
      assert HoldsStanding(collections, n, k, r);
      assert VisibleOf(r[k]) == VisibleOf(Standing(collections, n, k).value);
    }
  }

  /** A history in which no step flaps is settled. */
  lemma {:induction false} NoFlapsSettle(collections: seq<seq<SoftwareDelta>>, diffs: seq<seq<SoftwareDelta>>)
    requires DiffRun(collections, diffs)
    requires forall i :: 0 <= i < |diffs| ==> NoFlap(StateAfter(collections, i), collections[i])
    ensures Settled(collections)
  {
    SameWithoutFlaps(collections, diffs);
    TelescopeIff(collections, diffs);
  }

  lemma {:induction false} SameWithoutFlaps(collections: seq<seq<SoftwareDelta>>, diffs: seq<seq<SoftwareDelta>>)
    requires DiffRun(collections, diffs)
    requires forall i :: 0 <= i < |diffs| ==> NoFlap(StateAfter(collections, i), collections[i])
    ensures Same(Replay(map[], Flatten(diffs)), StateAfter(collections, |collections|))
  {
    hide IsDiff, Replay, Collected, NoFlap;
    if diffs == [] {
      NothingStands(collections);
    } else {
      var n := |diffs| - 1;
      var cs, ds := collections[..n], diffs[..n];
      assert forall i :: 0 <= i <= n ==> StateAfter(cs, i) == StateAfter(collections, i);
      SameWithoutFlaps(cs, ds);
      var last := StateAfter(collections, n);
      StateAfterKeyed(collections, n);
      ReplayConcat(map[], Flatten(ds), diffs[n]);
      PatchLaw(Replay(map[], Flatten(ds)), last, collections[n], diffs[n], Collected(collections[n]));
    }
  }

  // ---------------------------------------------------------------- exactness of a diff

  ghost predicate DistinctKeys(current: seq<SoftwareDelta>) {
    forall i, j :: 0 <= i < j < |current| ==> KeyOf(current[i]) != KeyOf(current[j])
  }

  /** `ups` holds exactly one upsert for every key of `next` that must be sent. */
  ghost predicate ExactUpserts(last: State, next: State, ups: seq<SoftwareDelta>) {
    && DistinctKeys(ups)
    && (forall u :: u in ups ==> KeyOf(u) in next && u == next[KeyOf(u)].(op := Upsert) && Emits(last, next[KeyOf(u)]))
    && (forall k :: k in next && Emits(last, next[k]) ==> next[k].(op := Upsert) in ups)
  }

  lemma {:induction false} UpsertsExact(last: State, current: seq<SoftwareDelta>)
    requires DistinctKeys(current)
    ensures ExactUpserts(last, Collected(current), Upserts(last, current))
  {
    if current != [] {
      var init, d := current[..|current| - 1], current[|current| - 1];
      assert current == init + [d];
      UpsertsExact(last, init);
      CollectedSnoc(init, d);
      UpsertsSnoc(last, init, d);
      CollectedKeyed(init);
      assert KeyOf(d) !in Collected(init);
      ExactUpsertsStep(last, Collected(init), Upserts(last, init), d);
    }
  }

  lemma ExactUpsertsStep(last: State, next: State, ups: seq<SoftwareDelta>, d: SoftwareDelta)
    requires Keyed(next) && ExactUpserts(last, next, ups) && KeyOf(d) !in next
    ensures ExactUpserts(last, next[KeyOf(d) := d], ups + Emission(last, d))
  {
  }

  lemma {:induction false} RemovesExact(last: State, ks: seq<Key>)
    requires Keyed(last) && forall k <- ks :: k in last
    ensures |Removes(last, ks)| == |ks|
    ensures forall i :: 0 <= i < |ks| ==> ks[i] in last && KeyOf(Removes(last, ks)[i]) == ks[i]
    ensures forall i :: 0 <= i < |ks| ==> Removes(last, ks)[i] == last[ks[i]].(op := Remove)
  {
    if ks != [] {
      var init, k := ks[..|ks| - 1], ks[|ks| - 1];
      assert ks == init + [k];
      RemovesSnoc(last, init, k);
      RemovesExact(last, init);
    }
  }

  ghost predicate HasOp(deltas: seq<SoftwareDelta>, k: Key, op: Op) {
    exists d :: d in deltas && KeyOf(d) == k && d.op == op
  }

  /**
   With distinct keys a diff is exact: every key has at most one operation, upserts precede
   removes, a key is upserted iff it is new or observably changed and removed iff it left, and
   the diff is empty iff the two states agree.
   */
  lemma DiffExact(last: State, current: seq<SoftwareDelta>, deltas: seq<SoftwareDelta>, next: State)
    requires Keyed(last) && DistinctKeys(current)
    requires IsDiff(last, current, deltas, next)
    ensures DistinctKeys(deltas)
    ensures forall i :: 0 <= i < |deltas| ==> deltas[i].op == Upsert || deltas[i].op == Remove
    ensures forall i, j :: 0 <= i < j < |deltas| && deltas[i].op == Remove ==> deltas[j].op == Remove
    ensures forall k :: HasOp(deltas, k, Upsert) <==> k in next && (k in last ==> ObservableChange(last[k], next[k]))
    ensures forall k :: HasOp(deltas, k, Remove) <==> k in last && k !in next
    ensures deltas == [] <==> Same(last, next)
  {
    hide HasOp, Same, Emits;
    var ks :| Departures(last, next, ks) && deltas == Upserts(last, current) + Removes(last, ks);
    UpsertsExact(last, current);
    CollectedKeyed(current);
    ExactDiffShape(last, next, Upserts(last, current), ks);
    forall k
      ensures HasOp(deltas, k, Upsert) <==> k in next && (k in last ==> ObservableChange(last[k], next[k]))
      ensures HasOp(deltas, k, Remove) <==> k in last && k !in next
    {
      OpsAtKey(last, next, Upserts(last, current), ks, k);
    }
    EmptyIffSame(last, next, deltas);
  }

  lemma EmptyIffSame(last: State, next: State, deltas: seq<SoftwareDelta>)
    requires forall i :: 0 <= i < |deltas| ==> deltas[i].op == Upsert || deltas[i].op == Remove
    requires forall k :: HasOp(deltas, k, Upsert) <==> k in next && (k in last ==> ObservableChange(last[k], next[k]))
    requires forall k :: HasOp(deltas, k, Remove) <==> k in last && k !in next
    ensures deltas == [] <==> Same(last, next)
  {
    hide ObservableChange;
    if deltas == [] {
      assert forall k :: !HasOp(deltas, k, Upsert) && !HasOp(deltas, k, Remove);
    } else {
      assert HasOp(deltas, KeyOf(deltas[0]), deltas[0].op);
    }
  }

  lemma ExactDiffShape(last: State, next: State, ups: seq<SoftwareDelta>, ks: seq<Key>)
    requires Keyed(last) && ExactUpserts(last, next, ups) && Departures(last, next, ks)
    ensures var deltas := ups + Removes(last, ks);
            && DistinctKeys(deltas)
            && |deltas| == |ups| + |ks|
            && forall i :: 0 <= i < |deltas| ==> deltas[i].op == (if i < |ups| then Upsert else Remove)
  {
    RemovesExact(last, ks);
    assert forall i :: 0 <= i < |ups| ==> ups[i] in ups;
    assert forall i :: 0 <= i < |ks| ==> ks[i] in ks;
  }

  lemma OpsAtKey(last: State, next: State, ups: seq<SoftwareDelta>, ks: seq<Key>, k: Key)
    requires Keyed(last) && Keyed(next) && ExactUpserts(last, next, ups) && Departures(last, next, ks)
    ensures HasOp(ups + Removes(last, ks), k, Upsert) <==> k in next && (k in last ==> ObservableChange(last[k], next[k]))
    ensures HasOp(ups + Removes(last, ks), k, Remove) <==> k in last && k !in next
  {
    UpsertsAtKey(last, next, ups, k);
    assert k in next ==> KeyOf(next[k]) == k;
    RemovesAtKey(last, ks, k);
    assert forall d :: d in ups + Removes(last, ks) <==> d in ups || d in Removes(last, ks);
  }

  lemma UpsertsAtKey(last: State, next: State, ups: seq<SoftwareDelta>, k: Key)
    requires Keyed(next) && ExactUpserts(last, next, ups)
    ensures !HasOp(ups, k, Remove)
    ensures HasOp(ups, k, Upsert) <==> k in next && Emits(last, next[k])
  {
  }

  lemma RemovesAtKey(last: State, ks: seq<Key>, k: Key)
    requires Keyed(last) && forall x <- ks :: x in last
    ensures !HasOp(Removes(last, ks), k, Upsert)
    ensures HasOp(Removes(last, ks), k, Remove) <==> k in ks
  {
  }

  // ---------------------------------------------------------------- what a diff carries, field by field

  /** Items share a key iff they agree on source, name, publisher, version and hash, nil reading as "". */
  lemma SameKeyIff(a: SoftwareDelta, b: SoftwareDelta)
    ensures KeyOf(a) == KeyOf(b) <==>
            && a.source == b.source && a.name == b.name && StrVal(a.publisher) == StrVal(b.publisher)
            && StrVal(a.version) == StrVal(b.version) && StrVal(a.sha256) == StrVal(b.sha256)
  {
  }

  /**
   What the receiver ends up with: after a diff with distinct keys, replayed on the last state, it holds
   under the key of every item collected one with that item's version, path, owner and signature.
   */
  lemma DiffCarriesFields(last: State, current: seq<SoftwareDelta>, deltas: seq<SoftwareDelta>, i: nat)
    requires Keyed(last) && DistinctKeys(current) && IsDiff(last, current, deltas, Collected(current)) && i < |current|
    ensures KeyOf(current[i]) in Replay(last, deltas)
    ensures var got := Replay(last, deltas)[KeyOf(current[i])];
            && StrVal(got.version) == StrVal(current[i].version) && StrVal(got.exePath) == StrVal(current[i].exePath)
            && StrVal(got.owningUser) == StrVal(current[i].owningUser)
            && got.signed == current[i].signed && StrVal(got.signer) == StrVal(current[i].signer)
  {
    var k := KeyOf(current[i]);
    var j := CollectedIsAnItem(current, k);
    assert i == j;
    assert ConsistentDuplicates(current);
    ConsistentDuplicatesNeverFlap(last, current);
    SameRefl(last);
    hide IsDiff, Replay, Collected, NoFlap;
    PatchLaw(last, last, current, deltas, Collected(current));
    assert VisibleOf(Replay(last, deltas)[k]) == VisibleOf(current[i]);
  }

  /** The last state holds an item of the same key with the same version, path, owner and signature. */
  predicate HeldAlike(last: State, d: SoftwareDelta) {
    && KeyOf(d) in last
    && StrVal(last[KeyOf(d)].version) == StrVal(d.version) && StrVal(last[KeyOf(d)].exePath) == StrVal(d.exePath)
    && StrVal(last[KeyOf(d)].owningUser) == StrVal(d.owningUser)
    && last[KeyOf(d)].signed == d.signed && StrVal(last[KeyOf(d)].signer) == StrVal(d.signer)
  }

  /** An item collected, not held alike, as an upsert. */
  ghost predicate IsChange(last: State, current: seq<SoftwareDelta>, u: SoftwareDelta) {
    exists d :: d in current && !HeldAlike(last, d) && u == d.(op := Upsert)
  }

  /** An item of the last state whose key was not collected, as a remove. */
  ghost predicate IsDeparture(last: State, current: seq<SoftwareDelta>, u: SoftwareDelta) {
    exists k :: k in last && Absent(current, k) && u == last[k].(op := Remove)
  }

  ghost predicate Absent(current: seq<SoftwareDelta>, k: Key) {
    forall d <- current :: KeyOf(d) != k
  }

  lemma AbsentIff(current: seq<SoftwareDelta>, k: Key)
    ensures Absent(current, k) <==> k !in Collected(current)
  {
  }

  lemma {:induction false} UpsertsAreChanges(last: State, current: seq<SoftwareDelta>)
    ensures forall u <- Upserts(last, current) :: IsChange(last, current, u)
    ensures forall d <- current :: !HeldAlike(last, d) ==> d.(op := Upsert) in Upserts(last, current)
  {
    if current != [] {
      var init, d := current[..|current| - 1], current[|current| - 1];
      assert current == init + [d];
      assert Emits(last, d) <==> !HeldAlike(last, d);
      hide HeldAlike, Emits, ObservableChange;
      UpsertsAreChanges(last, init);
      UpsertsSnoc(last, init, d);
    }
  }

  lemma RemovesAreDepartures(last: State, current: seq<SoftwareDelta>, ks: seq<Key>)
    requires Keyed(last) && Departures(last, Collected(current), ks)
    ensures forall u <- Removes(last, ks) :: IsDeparture(last, current, u)
    ensures forall k :: k in last && Absent(current, k) ==> last[k].(op := Remove) in Removes(last, ks)
  {
    RemovesExact(last, ks);
    hide Removes, Collected, Absent;
    forall u | u in Removes(last, ks) ensures IsDeparture(last, current, u) {
      var i :| 0 <= i < |ks| && Removes(last, ks)[i] == u;
      AbsentIff(current, ks[i]);
    }
    forall k | k in last && Absent(current, k) ensures last[k].(op := Remove) in Removes(last, ks) {
      AbsentIff(current, k);
      var i :| 0 <= i < |ks| && ks[i] == k;
      assert Removes(last, ks)[i] == last[k].(op := Remove);
    }
  }

  /**
   What is sent: exactly the items collected that are not held alike, as upserts, and the items of the
   last state whose key was not collected, as removes, no other field altered. So nothing is sent if and
   only if every item collected is held alike and no key is gone.
   */
  lemma DiffSendsChanges(last: State, current: seq<SoftwareDelta>, deltas: seq<SoftwareDelta>)
    requires Keyed(last) && IsDiff(last, current, deltas, Collected(current))
    ensures forall u :: u in deltas <==> IsChange(last, current, u) || IsDeparture(last, current, u)
    ensures deltas == [] <==> (forall d <- current :: HeldAlike(last, d)) && (forall k :: k in last ==> !Absent(current, k))
  {
    hide Upserts, Removes, HeldAlike, Absent;
    var ks :| Departures(last, Collected(current), ks) && deltas == Upserts(last, current) + Removes(last, ks);
    UpsertsAreChanges(last, current);
    RemovesAreDepartures(last, current, ks);
    HasMember(deltas);
    assert forall d <- current :: !HeldAlike(last, d) ==> IsChange(last, current, d.(op := Upsert));
    assert forall k :: k in last && Absent(current, k) ==> IsDeparture(last, current, last[k].(op := Remove));
  }

  // ---------------------------------------------------------------- a collection that flaps

  function Executable(name: string, sha256: string, path: string): SoftwareDelta {
    SoftwareDelta(Upsert, Running, name, None, None, Some(sha256), false, None, None, Some(path), None, None)
  }

  /**
   Two running copies of one binary share a key. Started from the second alone, a collection of both
   sends the first copy's path and keeps the second's: the receiver is left with the wrong path.
   */
  lemma CopiesOfOneBinaryFlap() returns (last: State, current: seq<SoftwareDelta>, deltas: seq<SoftwareDelta>)
    ensures Keyed(last) && IsDiff(last, current, deltas, Collected(current))
    ensures !Same(Replay(last, deltas), Collected(current))
  {
    var first, second := Executable("python3", "ab", "/opt/bin/python3"), Executable("python3", "ab", "/usr/bin/python3");
    var k := KeyOf(second);
    last, current := map[k := second], [first, second];
    CollectedSnoc([], first);
    CollectedSnoc([first], second);
    assert [] + [first] == [first] && [first] + [second] == current;
    assert Collected(current) == map[k := second];
    deltas := Upserts(last, current);
    assert Departures(last, Collected(current), []) && deltas + Removes(last, []) == deltas;
    assert VisibleOf(first).exePath[1] == 'o' && VisibleOf(second).exePath[1] == 'u';
    assert current[0] == first && Moved(last, current, k);
    assert !NoFlap(last, current);
    SameRefl(last);
    PatchLaw(last, last, current, deltas, Collected(current));
  }

  /**
   A flap is not for ever: a history whose second step flaps is not settled, and is settled again once a
   third collection sends the key. So no-flap at every step is more than telescoping needs.
   */
  lemma AFlapHeals() returns (collections: seq<seq<SoftwareDelta>>)
    ensures |collections| == 3 && !NoFlap(StateAfter(collections, 1), collections[1])
    ensures !Settled(collections[..2]) && Settled(collections)
  {
    var first, second := Executable("python3", "ab", "/opt/bin/python3"), Executable("python3", "ab", "/usr/bin/python3");
    var third, k := Executable("python3", "ab", "/var/bin/python3"), KeyOf(first);
    assert VisibleOf(first).exePath[1] == 'o' && VisibleOf(second).exePath[1] == 'u' && VisibleOf(third).exePath[1] == 'v';
    hide ObservableChange;
    assert ObservableChange(second, first) && ObservableChange(second, third) && !ObservableChange(second, second);
    assert !ObservableChange(third, third) && ObservableChange(first, second);
    assert KeyOf(second) == k && KeyOf(third) == k;
    collections := [[second], [first, second], [third]];
    OneItem(second, third);
    OneItem(second, second);
    TwoItems(first, second);
    var early := collections[..2];
    assert collections[1][0] == first && Moved(map[k := second], collections[1], k);
    assert Standing(early, 2, k) == Some(first);
    assert Standing(collections, 3, k) == Some(third);
  }

  lemma OneItem(last: SoftwareDelta, d: SoftwareDelta)
    requires KeyOf(d) == KeyOf(last)
    ensures Collected([d]) == map[KeyOf(d) := d]
    ensures LastSent(map[KeyOf(d) := last], [d], KeyOf(d)) == if ObservableChange(last, d) then Some(d) else None
  {
    CollectedSnoc([], d);
    LastSentSnoc(map[KeyOf(d) := last], [], d, KeyOf(d));
    assert [] + [d] == [d];
  }

  lemma TwoItems(a: SoftwareDelta, b: SoftwareDelta)
    requires KeyOf(a) == KeyOf(b) && ObservableChange(b, a)
    ensures Collected([a, b]) == map[KeyOf(b) := b]
    ensures LastSent(map[KeyOf(b) := b], [a, b], KeyOf(b)) == Some(a)
  {
    OneItem(b, a);
    CollectedSnoc([a], b);
    LastSentSnoc(map[KeyOf(b) := b], [a], b, KeyOf(b));
    assert [a] + [b] == [a, b];
  }

  lemma SameRefl(a: State)
    ensures Same(a, a)
  {
  }
}
