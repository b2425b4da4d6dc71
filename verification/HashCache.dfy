/**
 The executable-hash cache (internal/agent/hashcache/hashcache.go) under concurrent calls and file
 rewrites. Each call is a sequence of separate steps: stat, inode lookup, bucket read, hash, bucket
 write. A file is the history of its versions; a hash reads one version. SHA-256 is an arbitrary
 function `sha` throughout.
 */
module HashCache {
  import opened Wire

  /** What a path holds at some time. */
  datatype Version = Gone | File(size: int, mtime: int, inode: nat, content: string)

  datatype Entry = Entry(sha256: string, size: int, mtime: int, inode: nat)

  function CacheKey(path: string): string {
    "v1:" + path
  }

  /** The cached hash is taken when it is non-empty and all three stamps match. */
  predicate Fresh(e: Entry, size: int, mtime: int, inode: nat) {
    e.sha256 != "" && e.size == size && e.mtime == mtime && e.inode == inode
  }

  // ---------------------------------------------------------------- one call alone

  class Cache {
    var bucket: map<string, Entry>

    constructor ()
      ensures bucket == map[]
    {
      bucket := map[];
    }

    /** Get, with what the file system answers as parameters; `hash` is None if hashing fails. */
    method Get(path: string, info: Option<(int, int)>, inode: nat, hash: Option<string>, stored: bool) returns (r: string)
      modifies this
      ensures var key := CacheKey(path);
              var hit := info.Some? && key in old(bucket) && Fresh(old(bucket)[key], info.value.0, info.value.1, inode);
              && (info.None? ==> r == "")
              && (hit ==> r == old(bucket)[key].sha256)
              && (info.Some? && !hit ==> r == if hash.Some? then hash.value else "")
              && bucket == if info.Some? && !hit && hash.Some? && stored
                           then old(bucket)[key := Entry(hash.value, info.value.0, info.value.1, inode)] else old(bucket)
    {
      if info.None? {
        return "";
      }
      var (size, mtime) := info.value;
      var key := CacheKey(path);
      var cached := Entry("", 0, 0, 0);
      if key in bucket {
        cached := bucket[key];
      }
      if cached.sha256 != "" && cached.size == size && cached.mtime == mtime && cached.inode == inode {
        return cached.sha256;
      }
      if hash.None? {
        return "";
      }
      var entry := Entry(hash.value, size, mtime, inode);
      if stored {
        bucket := bucket[key := entry];
      }
      return hash.value;
    }
  }

  // ---------------------------------------------------------------- many calls and rewrites

  /**
   Where a call is. `from` is the index of the file's version when the call began; `seen` that of
   the version the stat saw; `of` that of the version hashed; `until` the number of versions when
   the call returned.
   */
  datatype Call =
    | Begun(path: string, from: nat)
    | Statted(path: string, from: nat, seen: nat, size: int, mtime: int)
    | Probed(path: string, from: nat, seen: nat, size: int, mtime: int, inode: nat)
    | Missed(path: string, from: nat, seen: nat, size: int, mtime: int, inode: nat)
    | Hashed(path: string, from: nat, seen: nat, size: int, mtime: int, inode: nat, of: nat, hash: string)
    | Returned(path: string, from: nat, until: nat, result: string)

  datatype World = World(files: map<string, seq<Version>>, cache: map<string, Entry>, calls: map<nat, Call>)

  datatype Step =
    | Rewrite(path: string, version: Version)
    | Call(id: nat, path: string)
    | Stat(id: nat)
    | StatInode(id: nat, failed: bool)
    | Lookup(id: nat)
    | Hash(id: nat)
    | Fail(id: nat)
    | Save(id: nat, stored: bool)

  /** All versions of a path so far; a path never written is gone. */
  function History(w: World, path: string): (h: seq<Version>)
    ensures |h| > 0
  {
    if path in w.files && w.files[path] != [] then w.files[path] else [Gone]
  }

  function Now(w: World, path: string): Version {
    History(w, path)[|History(w, path)| - 1]
  }

  function Return(w: World, c: Call, result: string): Call {
    Returned(c.path, c.from, |History(w, c.path)|, result)
  }

  /** What a lookup that does not fail reads: a missing file has inode zero. */
  function InodeOf(v: Version): nat {
    if v.Gone? then 0 else v.inode
  }

  predicate Enabled(w: World, step: Step) {
    match step
    case Rewrite(_, _) => true
    case Call(id, _) => id !in w.calls
    case Stat(id) => id in w.calls && w.calls[id].Begun?
    case StatInode(id, _) => id in w.calls && w.calls[id].Statted?
    case Lookup(id) => id in w.calls && w.calls[id].Probed?
    case Hash(id) => id in w.calls && w.calls[id].Missed?
    case Fail(id) => id in w.calls && (w.calls[id].Begun? || w.calls[id].Missed?)
    case Save(id, _) => id in w.calls && w.calls[id].Hashed?
  }

  /** A call's next step; `failed` is whether its inode lookup fails, which reads as zero. */
  function Advance(sha: string -> string, w: World, c: Call, failed: bool): Call {
    var now, last := Now(w, c.path), |History(w, c.path)| - 1;
    match c
    case Begun(p, from) =>
      if now.Gone? then Return(w, c, "") else Statted(p, from, last, now.size, now.mtime)
    case Statted(p, from, seen, size, mtime) =>
      Probed(p, from, seen, size, mtime, if failed then 0 else InodeOf(now))
    case Probed(p, from, seen, size, mtime, inode) =>
      var key := CacheKey(p);
      if key in w.cache && Fresh(w.cache[key], size, mtime, inode) then Return(w, c, w.cache[key].sha256)
      else Missed(p, from, seen, size, mtime, inode)
    case Missed(p, from, seen, size, mtime, inode) =>
      if now.Gone? then Return(w, c, "")
      else Hashed(p, from, seen, size, mtime, inode, last, sha(now.content))
    case Hashed(_, _, _, _, _, _, _, hash) => Return(w, c, hash)
    case Returned(_, _, _, _) => c
  }

  function After(sha: string -> string, w: World, step: Step): World
    requires Enabled(w, step)
  {
    match step
    case Rewrite(p, v) => w.(files := w.files[p := History(w, p) + [v]])
    case Call(id, p) => w.(calls := w.calls[id := Begun(p, |History(w, p)| - 1)])
    case Fail(id) => w.(calls := w.calls[id := Return(w, w.calls[id], "")])
    case Save(id, stored) =>
      var c := w.calls[id];
      w.(calls := w.calls[id := Advance(sha, w, c, false)],
         cache := if stored then w.cache[CacheKey(c.path) := Entry(c.hash, c.size, c.mtime, c.inode)] else w.cache)
    case StatInode(id, failed) => w.(calls := w.calls[id := Advance(sha, w, w.calls[id], failed)])
    case _ => w.(calls := w.calls[step.id := Advance(sha, w, w.calls[step.id], false)])
  }

  /** A fresh cache directory, and no file written yet. */
  function Empty(): World {
    World(map[], map[], map[])
  }

  // ---------------------------------------------------------------- what can go wrong

  /** No two versions of a path share size and modification time. */
  ghost predicate DistinctStamps(h: seq<Version>) {
    forall i, j :: 0 <= i < j < |h| && h[i].File? && h[j].File? ==> h[i].size != h[j].size || h[i].mtime != h[j].mtime
  }

  /** Lookups at two versions can read one inode; if lookups of a file may fail, they always can. */
  predicate InodesMeet(reliable: bool, h: seq<Version>, l: nat, m: nat)
    requires l < |h| && m < |h|
  {
    reliable ==> InodeOf(h[l]) == InodeOf(h[m])
  }

  /**
   A call can stat version `i`, read the inode at `l` and hash `j`, and a later one stat version `k` with
   the same size and mtime and read the same inode at `m`, although none of `k .. m` has that hash.
   */
  ghost predicate Masks(reliable: bool, sha: string -> string, h: seq<Version>, i: nat, l: nat, j: nat, k: nat, m: nat) {
    && i <= l <= j < k <= m < |h| && h[i].File? && h[j].File? && h[k].File?
    && h[i].size == h[k].size && h[i].mtime == h[k].mtime && InodesMeet(reliable, h, l, m)
    && sha(h[j].content) != "" && !HashOfOne(sha, h, k, m + 1, sha(h[j].content))
  }

  /** The stamps tell apart all versions that must be told apart. */
  ghost predicate Honest(reliable: bool, sha: string -> string, h: seq<Version>) {
    forall i, l, j, k, m :: !Masks(reliable, sha, h, i, l, j, k, m)
  }

  lemma DistinctIsHonest(reliable: bool, sha: string -> string, h: seq<Version>)
    requires DistinctStamps(h)
    ensures Honest(reliable, sha, h)
  {
  }

  /** Version `j`, from `i` on but before `k`, hashes unlike `k`, which has the size and mtime of `i`. */
  predicate Disguised(sha: string -> string, h: seq<Version>, i: nat, j: nat, k: nat) {
    && i <= j < k < |h| && h[i].File? && h[j].File? && h[k].File?
    && h[i].size == h[k].size && h[i].mtime == h[k].mtime
    && sha(h[j].content) != "" && sha(h[j].content) != sha(h[k].content)
  }

  /** If inode lookups may fail, size and mtime alone decide. */
  lemma HonestWithoutInodes(sha: string -> string, h: seq<Version>)
    ensures Honest(false, sha, h) <==> forall i, j, k :: !Disguised(sha, h, i, j, k)
  {
    if i: nat, j: nat, k: nat :| Disguised(sha, h, i, j, k) {
      assert Masks(false, sha, h, i, i, j, k, k);
    }
    if i: nat, l: nat, j: nat, k: nat, m: nat :| Masks(false, sha, h, i, l, j, k, m) {
      assert Disguised(sha, h, i, j, k);
    }
  }

  // ---------------------------------------------------------------- invariant

  predicate Stamped(h: seq<Version>, i: nat, size: int, mtime: int) {
    i < |h| && h[i].File? && h[i].size == size && h[i].mtime == mtime
  }

  /** `hash` is the hash of one of the versions `from .. until`. */
  ghost predicate HashOfOne(sha: string -> string, h: seq<Version>, from: nat, until: nat, hash: string) {
    exists v :: from <= v < until && v < |h| && h[v].File? && hash == sha(h[v].content)
  }

  /** A lookup at version `l` may have read `inode`. */
  predicate InodeAt(reliable: bool, h: seq<Version>, l: nat, inode: nat) {
    l < |h| && (reliable ==> inode == InodeOf(h[l]))
  }

  ghost predicate ReadBetween(reliable: bool, h: seq<Version>, from: nat, until: nat, inode: nat) {
    exists l :: from <= l < until && InodeAt(reliable, h, l, inode)
  }

  /** An entry's size and mtime are those of `i`, its inode was read at `l` and its hash is that of `j`, in this order. */
  predicate EntryFrom(reliable: bool, sha: string -> string, h: seq<Version>, e: Entry, i: nat, l: nat, j: nat) {
    i <= l <= j < |h| && Stamped(h, i, e.size, e.mtime) && InodeAt(reliable, h, l, e.inode) && h[j].File? && e.sha256 == sha(h[j].content)
  }

  /** A stored hash comes from a version no older than its inode, and that from one no older than its size and mtime. */
  ghost predicate EntryOk(reliable: bool, sha: string -> string, h: seq<Version>, e: Entry) {
    exists i, l, j :: EntryFrom(reliable, sha, h, e, i, l, j)
  }

  ghost predicate CallOk(reliable: bool, sha: string -> string, h: seq<Version>, c: Call) {
    match c
    case Begun(_, from) => from < |h|
    case Statted(_, from, seen, size, mtime) => from <= seen && Stamped(h, seen, size, mtime)
    case Probed(_, from, seen, size, mtime, inode) =>
      from <= seen && Stamped(h, seen, size, mtime) && ReadBetween(reliable, h, seen, |h|, inode)
    case Missed(_, from, seen, size, mtime, inode) =>
      from <= seen && Stamped(h, seen, size, mtime) && ReadBetween(reliable, h, seen, |h|, inode)
    case Hashed(_, from, seen, size, mtime, inode, of, hash) =>
      && from <= seen <= of < |h| && Stamped(h, seen, size, mtime) && ReadBetween(reliable, h, seen, of + 1, inode)
      && h[of].File? && hash == sha(h[of].content)
    case Returned(_, from, until, result) =>
      until <= |h| && (result == "" || HashOfOne(sha, h, from, until, result))
  }

  /** The entry and the calls of one path agree with its history. */
  ghost predicate Inv(reliable: bool, sha: string -> string, w: World, p: string) {
    && (CacheKey(p) in w.cache ==> EntryOk(reliable, sha, History(w, p), w.cache[CacheKey(p)]))
    && (forall id :: id in w.calls && w.calls[id].path == p ==> CallOk(reliable, sha, History(w, p), w.calls[id]))
  }

  lemma KeyInjective(p: string, q: string)
    ensures CacheKey(p) == CacheKey(q) ==> p == q
  {
    assert CacheKey(p)[3..] == p && CacheKey(q)[3..] == q;
  }

  lemma EntryGrows(reliable: bool, sha: string -> string, h: seq<Version>, v: Version, e: Entry)
    requires EntryOk(reliable, sha, h, e)
    ensures EntryOk(reliable, sha, h + [v], e)
  {
    var i: nat, l: nat, j: nat :| EntryFrom(reliable, sha, h, e, i, l, j);
    assert EntryFrom(reliable, sha, h + [v], e, i, l, j);
  }

  lemma HashGrows(sha: string -> string, h: seq<Version>, v: Version, from: nat, until: nat, hash: string)
    requires HashOfOne(sha, h, from, until, hash)
    ensures HashOfOne(sha, h + [v], from, until, hash)
  {
    var x :| from <= x < until && x < |h| && h[x].File? && hash == sha(h[x].content);
    assert (h + [v])[x] == h[x];
  }

  lemma ReadGrows(reliable: bool, h: seq<Version>, v: Version, from: nat, until: nat, until': nat, inode: nat)
    requires ReadBetween(reliable, h, from, until, inode) && until <= until'
    ensures ReadBetween(reliable, h + [v], from, until', inode)
  {
    var l: nat :| from <= l < until && InodeAt(reliable, h, l, inode);
    assert InodeAt(reliable, h + [v], l, inode);
  }

  /** Histories only grow, and growing one disturbs nothing already known about it. */
  lemma CallGrows(reliable: bool, sha: string -> string, h: seq<Version>, v: Version, c: Call)
    requires CallOk(reliable, sha, h, c)
    ensures CallOk(reliable, sha, h + [v], c)
  {
    var h' := h + [v];
    assert forall i :: 0 <= i < |h| ==> h'[i] == h[i];
    match c
    case Probed(_, _, seen, _, _, inode) => ReadGrows(reliable, h, v, seen, |h|, |h'|, inode);
    case Missed(_, _, seen, _, _, inode) => ReadGrows(reliable, h, v, seen, |h|, |h'|, inode);
    case Hashed(_, _, seen, _, _, inode, of, _) => ReadGrows(reliable, h, v, seen, of + 1, of + 1, inode);
    case Returned(_, from, until, result) =>
      if result != "" {
        HashGrows(sha, h, v, from, until, result);
      }
    case _ =>
  }

  /** A hit returns the hash of a version held since the call began, or one that hashes alike. */
  lemma HitOk(reliable: bool, sha: string -> string, h: seq<Version>, from: nat, seen: nat, e: Entry)
    requires Honest(reliable, sha, h) && EntryOk(reliable, sha, h, e) && e.sha256 != ""
    requires from <= seen && Stamped(h, seen, e.size, e.mtime) && ReadBetween(reliable, h, seen, |h|, e.inode)
    ensures HashOfOne(sha, h, from, |h|, e.sha256)
  {
    var i: nat, l: nat, j: nat :| EntryFrom(reliable, sha, h, e, i, l, j);
    var m: nat :| seen <= m < |h| && InodeAt(reliable, h, m, e.inode);
    if j < seen {
      assert !Masks(reliable, sha, h, i, l, j, seen, m);
      var x :| seen <= x < m + 1 && x < |h| && h[x].File? && e.sha256 == sha(h[x].content);
    }
  }

  lemma AdvanceOk(reliable: bool, sha: string -> string, w: World, c: Call, failed: bool)
    requires Inv(reliable, sha, w, c.path) && CallOk(reliable, sha, History(w, c.path), c) && Honest(reliable, sha, History(w, c.path))
    requires c.Statted? && reliable ==> !failed
    ensures CallOk(reliable, sha, History(w, c.path), Advance(sha, w, c, failed))
  {
    hide Honest, ReadBetween, EntryOk;
    var h := History(w, c.path);
    match c
    case Statted(_, _, seen, _, _) =>
      ReadNow(reliable, h, seen, if failed then 0 else InodeOf(Now(w, c.path)));
    case Probed(_, from, seen, size, mtime, inode) =>
      if CacheKey(c.path) in w.cache && Fresh(w.cache[CacheKey(c.path)], size, mtime, inode) {
        HitOk(reliable, sha, h, from, seen, w.cache[CacheKey(c.path)]);
      }
    case Hashed(_, from, _, _, _, _, of, hash) =>
      assert HashOfOne(sha, h, from, |h|, hash);
    case _ =>
  }

  lemma ReadNow(reliable: bool, h: seq<Version>, seen: nat, inode: nat)
    requires seen < |h| && InodeAt(reliable, h, |h| - 1, inode)
    ensures ReadBetween(reliable, h, seen, |h|, inode)
  {
  }

  lemma RewriteOk(reliable: bool, sha: string -> string, w: World, path: string, v: Version, p: string)
    requires Inv(reliable, sha, w, p)
    ensures Inv(reliable, sha, After(sha, w, Rewrite(path, v)), p)
  {
    hide EntryOk, CallOk;
    var w' := After(sha, w, Rewrite(path, v));
    if p == path {
      if CacheKey(p) in w.cache {
        EntryGrows(reliable, sha, History(w, p), v, w.cache[CacheKey(p)]);
      }
      forall id | id in w'.calls && w'.calls[id].path == p ensures CallOk(reliable, sha, History(w', p), w'.calls[id]) {
        CallGrows(reliable, sha, History(w, p), v, w.calls[id]);
      }
    }
  }

  /** Replacing one call's record, the files and cache as they were. */
  lemma CallUpdateOk(reliable: bool, sha: string -> string, w: World, id: nat, c: Call, p: string)
    requires Inv(reliable, sha, w, p) && (c.path == p ==> CallOk(reliable, sha, History(w, p), c))
    ensures Inv(reliable, sha, w.(calls := w.calls[id := c]), p)
  {
  }

  lemma SaveOk(reliable: bool, sha: string -> string, w: World, id: nat, stored: bool, p: string)
    requires Inv(reliable, sha, w, p) && Enabled(w, Save(id, stored)) && Honest(reliable, sha, History(w, p))
    ensures Inv(reliable, sha, After(sha, w, Save(id, stored)), p)
  {
    hide Honest;
    var c, h := w.calls[id], History(w, p);
    KeyInjective(p, c.path);
    if c.path == p {
      AdvanceOk(reliable, sha, w, c, false);
      var l: nat :| c.seen <= l < c.of + 1 && InodeAt(reliable, h, l, c.inode);
      assert EntryFrom(reliable, sha, h, Entry(c.hash, c.size, c.mtime, c.inode), c.seen, l, c.of);
    }
  }

  /** In a reliable run no inode lookup of a file fails. */
  predicate Allowed(reliable: bool, step: Step) {
    step.StatInode? && reliable ==> !step.failed
  }

  lemma StepKeepsInv(reliable: bool, sha: string -> string, w: World, step: Step, p: string)
    requires Inv(reliable, sha, w, p) && Enabled(w, step) && Allowed(reliable, step) && Honest(reliable, sha, History(w, p))
    ensures Inv(reliable, sha, After(sha, w, step), p)
  {
    hide Honest, Inv;
    match step
    case Rewrite(path, v) => RewriteOk(reliable, sha, w, path, v, p);
    case Save(id, stored) => SaveOk(reliable, sha, w, id, stored, p);
    case Call(id, q) => CallUpdateOk(reliable, sha, w, id, Begun(q, |History(w, q)| - 1), p);
    case Fail(id) => CallUpdateOk(reliable, sha, w, id, Return(w, w.calls[id], ""), p);
    case StatInode(id, failed) => OneCallOk(reliable, sha, w, id, failed, p);
    case _ => OneCallOk(reliable, sha, w, step.id, false, p);
  }

  lemma OneCallOk(reliable: bool, sha: string -> string, w: World, id: nat, failed: bool, p: string)
    requires Inv(reliable, sha, w, p) && id in w.calls && Honest(reliable, sha, History(w, p))
    requires w.calls[id].Statted? && reliable ==> !failed
    ensures Inv(reliable, sha, w.(calls := w.calls[id := Advance(sha, w, w.calls[id], failed)]), p)
  {
    hide Honest, CallOk, EntryOk;
    if w.calls[id].path == p {
      AdvanceOk(reliable, sha, w, w.calls[id], failed);
    }
    CallUpdateOk(reliable, sha, w, id, Advance(sha, w, w.calls[id], failed), p);
  }

  // ---------------------------------------------------------------- runs

  ghost predicate Run(reliable: bool, sha: string -> string, w: World, steps: seq<Step>)
    decreases |steps|
  {
    steps == [] || (Enabled(w, steps[0]) && Allowed(reliable, steps[0]) && Run(reliable, sha, After(sha, w, steps[0]), steps[1..]))
  }

  function Final(reliable: bool, sha: string -> string, w: World, steps: seq<Step>): World
    requires Run(reliable, sha, w, steps)
    decreases |steps|
  {
    if steps == [] then w else Final(reliable, sha, After(sha, w, steps[0]), steps[1..])
  }

  lemma {:induction false} HistoriesGrow(reliable: bool, sha: string -> string, w: World, steps: seq<Step>, p: string)
    requires Run(reliable, sha, w, steps)
    ensures History(w, p) <= History(Final(reliable, sha, w, steps), p)
    decreases |steps|
  {
    if steps != [] {
      HistoriesGrow(reliable, sha, After(sha, w, steps[0]), steps[1..], p);
    }
  }

  /** Every non-empty hash a call of the path returned is that of contents it had during the call. */
  ghost predicate Right(sha: string -> string, w: World, p: string) {
    forall id :: id in w.calls && w.calls[id].path == p && w.calls[id].Returned? ==> !Stale(sha, w, id)
  }

  ghost predicate Stale(sha: string -> string, w: World, id: nat)
    requires id in w.calls && w.calls[id].Returned?
  {
    var c := w.calls[id];
    c.result != "" && !HashOfOne(sha, History(w, c.path), c.from, c.until, c.result)
  }

  lemma InvIsRight(reliable: bool, sha: string -> string, w: World, p: string)
    requires Inv(reliable, sha, w, p)
    ensures Right(sha, w, p)
  {
  }

  /** While the path's history is honest, every step of every interleaving keeps the invariant. */
  lemma {:induction false} HonestRun(reliable: bool, sha: string -> string, w: World, steps: seq<Step>, p: string)
    requires Inv(reliable, sha, w, p) && Run(reliable, sha, w, steps)
    requires Honest(reliable, sha, History(Final(reliable, sha, w, steps), p))
    ensures Inv(reliable, sha, Final(reliable, sha, w, steps), p)
    decreases |steps|
  {
    hide Honest, Inv, Enabled, After;
    if steps != [] {
      HistoriesGrow(reliable, sha, w, steps, p);
      HonestPrefix(reliable, sha, History(w, p), History(Final(reliable, sha, w, steps), p));
      StepKeepsInv(reliable, sha, w, steps[0], p);
      HonestRun(reliable, sha, After(sha, w, steps[0]), steps[1..], p);
    }
  }

  lemma HonestPrefix(reliable: bool, sha: string -> string, a: seq<Version>, b: seq<Version>)
    requires a <= b && Honest(reliable, sha, b)
    ensures Honest(reliable, sha, a)
  {
    forall i, l, j, k, m ensures !Masks(reliable, sha, a, i, l, j, k, m) {
      assert !Masks(reliable, sha, b, i, l, j, k, m);
    }
  }

  /**
   Linearizability: whatever interleaving of calls and rewrites happens from a fresh cache, if
   distinct versions of a path have distinct size or mtime, every non-empty hash a call returns is
   the hash of contents the file had at some time during that call.
   */
  lemma CacheLinearizable(sha: string -> string, steps: seq<Step>, p: string)
    requires Run(false, sha, Empty(), steps) && DistinctStamps(History(Final(false, sha, Empty(), steps), p))
    ensures Right(sha, Final(false, sha, Empty(), steps), p)
  {
    assert Inv(false, sha, Empty(), p);
    DistinctIsHonest(false, sha, History(Final(false, sha, Empty(), steps), p));
    HonestRun(false, sha, Empty(), steps, p);
    InvIsRight(false, sha, Final(false, sha, Empty(), steps), p);
  }

  // ---------------------------------------------------------------- exactly when

  ghost predicate Reaches(reliable: bool, sha: string -> string, a: World, b: World) {
    exists steps :: Run(reliable, sha, a, steps) && Final(reliable, sha, a, steps) == b
  }

  lemma {:induction false} RunSnoc(reliable: bool, sha: string -> string, w: World, steps: seq<Step>, s: Step)
    requires Run(reliable, sha, w, steps) && Enabled(Final(reliable, sha, w, steps), s) && Allowed(reliable, s)
    ensures Run(reliable, sha, w, steps + [s])
    ensures Final(reliable, sha, w, steps + [s]) == After(sha, Final(reliable, sha, w, steps), s)
    decreases |steps|
  {
    var w1 := After(sha, Final(reliable, sha, w, steps), s);
    if steps == [] {
      assert ([] + [s])[1..] == [] && Run(reliable, sha, w1, []);
    } else {
      assert (steps + [s])[1..] == steps[1..] + [s];
      RunSnoc(reliable, sha, After(sha, w, steps[0]), steps[1..], s);
    }
  }

  lemma ReachesSelf(reliable: bool, sha: string -> string, a: World)
    ensures Reaches(reliable, sha, a, a)
  {
    assert Run(reliable, sha, a, []) && Final(reliable, sha, a, []) == a;
  }

  /** Take one more step. */
  lemma Go(reliable: bool, sha: string -> string, a: World, b: World, s: Step) returns (c: World)
    requires Reaches(reliable, sha, a, b) && Enabled(b, s) && Allowed(reliable, s)
    ensures c == After(sha, b, s) && Reaches(reliable, sha, a, c)
  {
    var steps :| Run(reliable, sha, a, steps) && Final(reliable, sha, a, steps) == b;
    RunSnoc(reliable, sha, a, steps, s);
    c := After(sha, b, s);
  }

  /** Rewrite the path until its history is the first `n` versions of `h`. */
  lemma {:induction false} WriteUpTo(reliable: bool, sha: string -> string, a: World, b: World, p: string, h: seq<Version>, n: nat) returns (c: World)
    requires Reaches(reliable, sha, a, b) && |History(b, p)| <= n <= |h| && History(b, p) == h[..|History(b, p)|]
    ensures Reaches(reliable, sha, a, c) && History(c, p) == h[..n] && c.calls == b.calls && c.cache == b.cache
    decreases n
  {
    hide Reaches;
    if n == |History(b, p)| {
      c := b;
    } else {
      var m := WriteUpTo(reliable, sha, a, b, p, h, n - 1);
      c := Go(reliable, sha, a, m, Rewrite(p, h[n - 1]));
    }
  }

  /** The first steps of a call with nothing in between: it begins and stats the file. */
  function Begin(sha: string -> string, w: World, id: nat, p: string): World
    requires id !in w.calls
  {
    After(sha, After(sha, w, Call(id, p)), Stat(id))
  }

  lemma BeginDoes(reliable: bool, sha: string -> string, a: World, w: World, id: nat, p: string)
    requires Reaches(reliable, sha, a, w) && id !in w.calls
    ensures Reaches(reliable, sha, a, Begin(sha, w, id, p))
    ensures var now, n := Now(w, p), |History(w, p)|;
            Begin(sha, w, id, p) == w.(calls := w.calls[id := if now.Gone? then Returned(p, n - 1, n, "") else Statted(p, n - 1, n - 1, now.size, now.mtime)])
  {
    hide Reaches;
    var w1 := Go(reliable, sha, a, w, Call(id, p));
    var _ := Go(reliable, sha, a, w1, Stat(id));
  }

  /** The next ones: it reads the inode and probes the cache. */
  function Probe(sha: string -> string, w: World, id: nat, failed: bool): World
    requires id in w.calls && w.calls[id].Statted?
  {
    After(sha, After(sha, w, StatInode(id, failed)), Lookup(id))
  }

  lemma ProbeDoes(reliable: bool, sha: string -> string, a: World, w: World, id: nat, failed: bool)
    requires Reaches(reliable, sha, a, w) && id in w.calls && w.calls[id].Statted? && (reliable ==> !failed)
    ensures Reaches(reliable, sha, a, Probe(sha, w, id, failed))
    ensures var c, inode := w.calls[id], if failed then 0 else InodeOf(Now(w, w.calls[id].path)); var key := CacheKey(c.path);
            Probe(sha, w, id, failed) ==
              w.(calls := w.calls[id := if key in w.cache && Fresh(w.cache[key], c.size, c.mtime, inode)
                                        then Returned(c.path, c.from, |History(w, c.path)|, w.cache[key].sha256)
                                        else Missed(c.path, c.from, c.seen, c.size, c.mtime, inode)])
  {
    hide Reaches;
    var w1 := Go(reliable, sha, a, w, StatInode(id, failed));
    var _ := Go(reliable, sha, a, w1, Lookup(id));
  }

  /** A call that missed hashes the current version and stores it. */
  lemma HashAndSave(reliable: bool, sha: string -> string, a: World, b: World, id: nat) returns (w: World)
    requires Reaches(reliable, sha, a, b) && id in b.calls && b.calls[id].Missed? && Now(b, b.calls[id].path).File?
    ensures var c := b.calls[id]; var hash := sha(Now(b, c.path).content);
            && Reaches(reliable, sha, a, w) && w == After(sha, After(sha, b, Hash(id)), Save(id, true))
            && w.files == b.files && w.calls == b.calls[id := Returned(c.path, c.from, |History(b, c.path)|, hash)]
            && w.cache == b.cache[CacheKey(c.path) := Entry(hash, c.size, c.mtime, c.inode)]
  {
    hide Reaches;
    var w1 := Go(reliable, sha, a, b, Hash(id));
    w := Go(reliable, sha, a, w1, Save(id, true));
  }

  /** A call stats version `i`, the file is `l` when its inode is read and `j` when it is hashed: `j`'s hash is stored. */
  lemma StoreLate(reliable: bool, sha: string -> string, p: string, h: seq<Version>, i: nat, l: nat, j: nat) returns (w: World)
    requires h != [] && h[0] == Gone && i <= l <= j < |h| && h[i].File? && h[j].File?
    ensures Reaches(reliable, sha, Empty(), w) && History(w, p) == h[..j + 1] && 1 !in w.calls
    ensures w.cache == map[CacheKey(p) := Entry(sha(h[j].content), h[i].size, h[i].mtime, if reliable then InodeOf(h[l]) else 0)]
  {
    hide Reaches, Run, Final, Begin, Probe;
    ReachesSelf(reliable, sha, Empty());
    var w1 := WriteUpTo(reliable, sha, Empty(), Empty(), p, h, i + 1);
    BeginDoes(reliable, sha, Empty(), w1, 0, p);
    var w2 := WriteUpTo(reliable, sha, Empty(), Begin(sha, w1, 0, p), p, h, l + 1);
    assert w2.calls == map[0 := Statted(p, i, i, h[i].size, h[i].mtime)] && w2.cache == map[] && Now(w2, p) == h[l];
    ProbeDoes(reliable, sha, Empty(), w2, 0, !reliable);
    var w3 := WriteUpTo(reliable, sha, Empty(), Probe(sha, w2, 0, !reliable), p, h, j + 1);
    assert w3.calls == map[0 := Missed(p, i, i, h[i].size, h[i].mtime, if reliable then InodeOf(h[l]) else 0)];
    w := HashAndSave(reliable, sha, Empty(), w3, 0);
  }

  /** A run that serves a stale hash: `j`'s hash is stored, and a call that stats `k` and reads the inode at `m` takes it. */
  lemma StaleRun(reliable: bool, sha: string -> string, p: string, h: seq<Version>, i: nat, l: nat, j: nat, k: nat, m: nat) returns (end: World)
    requires h != [] && h[0] == Gone && Masks(reliable, sha, h, i, l, j, k, m)
    ensures Reaches(reliable, sha, Empty(), end) && History(end, p) == h
    ensures 1 in end.calls && end.calls[1] == Returned(p, k, m + 1, sha(h[j].content)) && Stale(sha, end, 1)
  {
    hide Reaches, Run, Final, Begin, Probe, HashOfOne;
    var w1 := StoreLate(reliable, sha, p, h, i, l, j);
    var w2 := WriteUpTo(reliable, sha, Empty(), w1, p, h, k + 1);
    assert Now(w2, p) == h[k];
    BeginDoes(reliable, sha, Empty(), w2, 1, p);
    var w3 := WriteUpTo(reliable, sha, Empty(), Begin(sha, w2, 1, p), p, h, m + 1);
    assert w3.calls[1] == Statted(p, k, k, h[k].size, h[k].mtime) && Now(w3, p) == h[m];
    ProbeDoes(reliable, sha, Empty(), w3, 1, !reliable);
    end := WriteUpTo(reliable, sha, Empty(), Probe(sha, w3, 1, !reliable), p, h, |h|);
    assert h[..|h|] == h;
  }

  /**
   The cache, exactly: whatever history a path goes through, every hash returned for it in every run
   from a fresh cache is right if and only if the history is honest; both when inode lookups may fail
   and when they do not.
   */
  lemma CacheRightIff(reliable: bool, sha: string -> string, p: string, h: seq<Version>)
    requires h != [] && h[0] == Gone
    ensures (forall end :: Reaches(reliable, sha, Empty(), end) && History(end, p) == h ==> Right(sha, end, p)) <==>
            Honest(reliable, sha, h)
  {
    hide Masks, Right;
    if Honest(reliable, sha, h) {
      forall end | Reaches(reliable, sha, Empty(), end) && History(end, p) == h ensures Right(sha, end, p) {
        ReachedIsRight(reliable, sha, end, p);
      }
    } else {
      var i: nat, l: nat, j: nat, k: nat, m: nat :| Masks(reliable, sha, h, i, l, j, k, m);
      var end := StaleRun(reliable, sha, p, h, i, l, j, k, m);
      StaleIsNotRight(sha, end, 1, p);
    }
  }

  lemma StaleIsNotRight(sha: string -> string, w: World, id: nat, p: string)
    requires id in w.calls && w.calls[id].Returned? && w.calls[id].path == p && Stale(sha, w, id)
    ensures !Right(sha, w, p)
  {
  }

  lemma ReachedIsRight(reliable: bool, sha: string -> string, end: World, p: string)
    requires Reaches(reliable, sha, Empty(), end) && Honest(reliable, sha, History(end, p))
    ensures Right(sha, end, p)
  {
    assert Inv(reliable, sha, Empty(), p);
    hide Honest, Inv;
    var steps :| Run(reliable, sha, Empty(), steps) && Final(reliable, sha, Empty(), steps) == end;
    HonestRun(reliable, sha, Empty(), steps, p);
    InvIsRight(reliable, sha, end, p);
  }

  /**
   Equal contents sharing a stamp are enough to break it: when a file is rewritten while it is
   hashed and then put back with its stamps, the other contents' hash is served for it.
   */
  lemma RestoredFileIsMisread(sha: string -> string, p: string, a: Version, b: Version) returns (end: World)
    requires a.File? && b.File? && sha(b.content) != "" && sha(b.content) != sha(a.content)
    ensures Reaches(true, sha, Empty(), end) && History(end, p) == [Gone, a, b, a]
    ensures 1 in end.calls && end.calls[1] == Returned(p, 3, 4, sha(b.content)) && Stale(sha, end, 1)
  {
    var h := [Gone, a, b, a];
    assert Masks(true, sha, h, 1, 1, 2, 3, 3);
    end := StaleRun(true, sha, p, h, 1, 1, 2, 3, 3);
  }

  // ---------------------------------------------------------------- calls that run alone

  /** A whole call with nothing in between; the inode lookup and the store succeed. */
  function CallAlone(sha: string -> string, w: World, id: nat, p: string): World
    requires id !in w.calls
  {
    var w1 := Begin(sha, w, id, p);
    if w1.calls[id].Returned? then w1 else
      var w2 := Probe(sha, w1, id, false);
      if w2.calls[id].Returned? then w2 else After(sha, After(sha, w2, Hash(id)), Save(id, true))
  }

  /** What a call alone returns, and what it leaves in the cache. */
  lemma CallAloneDoes(sha: string -> string, a: World, w: World, id: nat, p: string)
    requires Reaches(true, sha, a, w) && id !in w.calls
    ensures Reaches(true, sha, a, CallAlone(sha, w, id, p))
    ensures var w', now, n, key := CallAlone(sha, w, id, p), Now(w, p), |History(w, p)|, CacheKey(p);
            var hit := now.File? && key in w.cache && Fresh(w.cache[key], now.size, now.mtime, now.inode);
            && w'.files == w.files
            && w'.calls == w.calls[id := Returned(p, n - 1, n, if now.Gone? then "" else if hit then w.cache[key].sha256 else sha(now.content))]
            && w'.cache == if now.Gone? || hit then w.cache else w.cache[key := Entry(sha(now.content), now.size, now.mtime, now.inode)]
  {
    hide Reaches, Begin, Probe;
    BeginDoes(true, sha, a, w, id, p);
    var w1 := Begin(sha, w, id, p);
    if w1.calls[id].Statted? {
      ProbeDoes(true, sha, a, w1, id, false);
      var w2 := Probe(sha, w1, id, false);
      if w2.calls[id].Missed? {
        var _ := HashAndSave(true, sha, a, w2, id);
      }
    }
  }

  /** Write `u` and call; write `v` and call again; no two of these overlap. */
  ghost predicate TwoCalls(sha: string -> string, p: string, u: Version, v: Version, w: World) {
    var w1 := CallAlone(sha, After(sha, Empty(), Rewrite(p, u)), 0, p);
    var w2 := After(sha, w1, Rewrite(p, v));
    1 !in w2.calls && w == CallAlone(sha, w2, 1, p)
  }

  /**
   Why stamps must differ even without races: after a call has cached `u`, a call that finds `v`
   returns a hash the file did not have during it if and only if both are files with one size, mtime
   and inode but different hashes, `u`'s being non-empty.
   */
  lemma StaleIff(sha: string -> string, p: string, u: Version, v: Version) returns (w: World)
    ensures TwoCalls(sha, p, u, v, w) && Reaches(true, sha, Empty(), w)
    ensures 1 in w.calls && w.calls[1].Returned?
    ensures Stale(sha, w, 1) <==>
            && u.File? && v.File? && u.size == v.size && u.mtime == v.mtime && u.inode == v.inode
            && sha(u.content) != "" && sha(u.content) != sha(v.content)
  {
    hide Reaches, CallAlone;
    ReachesSelf(true, sha, Empty());
    var w1 := Go(true, sha, Empty(), Empty(), Rewrite(p, u));
    assert History(w1, p) == [Gone, u];
    CallAloneDoes(sha, Empty(), w1, 0, p);
    var w2 := CallAlone(sha, w1, 0, p);
    var w3 := Go(true, sha, Empty(), w2, Rewrite(p, v));
    assert History(w3, p) == [Gone, u, v];
    CallAloneDoes(sha, Empty(), w3, 1, p);
    w := CallAlone(sha, w3, 1, p);
    assert [Gone, u, v][2] == v && [Gone, u, v][1] == u;
  }
}
