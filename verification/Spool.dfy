/**
 The spool (internal/agent/spool/spool.go): a bucket of byte keys in byte order and a persistent
 sequence counter, proved to implement Queue. JSON encoding of the values is not modelled.
 */
module Spool {
  import opened Wire
  import Queue

  const UINT64_LIMIT: nat := 0x1_0000_0000_0000_0000

  // ---------------------------------------------------------------- big-endian keys

  function Pow256(n: nat): (p: nat)
    ensures p > 0
  {
    if n == 0 then 1 else 256 * Pow256(n - 1)
  }

  /** The low `width` bytes of `v`, most significant first. */
  function PutBigEndian(v: nat, width: nat): (r: seq<Byte>)
    ensures |r| == width
  {
    if width == 0 then [] else PutBigEndian(v / 256, width - 1) + [v % 256]
  }

  /** bytes.Compare(a, b) < 0, the order of a bucket's cursor. */
  predicate ByteLess(a: seq<Byte>, b: seq<Byte>) {
    b != [] && (a == [] || a[0] < b[0] || (a[0] == b[0] && ByteLess(a[1..], b[1..])))
  }

  lemma {:induction false} ByteLessSnoc(a: seq<Byte>, b: seq<Byte>, x: Byte, y: Byte)
    requires |a| == |b|
    ensures ByteLess(a + [x], b + [y]) <==> ByteLess(a, b) || (a == b && x < y)
  {
    if a != [] {
      ByteLessSnoc(a[1..], b[1..], x, y);
      assert (a + [x])[1..] == a[1..] + [x] && (b + [y])[1..] == b[1..] + [y];
      assert a == [a[0]] + a[1..] && b == [b[0]] + b[1..];
    } else {
      assert a + [x] == [x] && b + [y] == [y];
      assert [x][1..] == [] && [y][1..] == [];
    }
  }

  /** Byte order of big-endian keys is the order of the numbers they encode. */
  lemma {:induction false} BigEndianOrder(u: nat, v: nat, width: nat)
    requires u < Pow256(width) && v < Pow256(width)
    ensures ByteLess(PutBigEndian(u, width), PutBigEndian(v, width)) <==> u < v
    ensures PutBigEndian(u, width) == PutBigEndian(v, width) <==> u == v
  {
    if width > 0 {
      var a, b := PutBigEndian(u / 256, width - 1), PutBigEndian(v / 256, width - 1);
      var x: Byte, y: Byte := u % 256, v % 256;
      BigEndianOrder(u / 256, v / 256, width - 1);
      ByteLessSnoc(a, b, x, y);
      assert (a + [x])[..|a|] == a && (b + [y])[..|b|] == b;
      assert (a + [x])[|a|] == x && (b + [y])[|b|] == y;
    }
  }

  function KeyBytes(v: nat): seq<Byte> {
    PutBigEndian(v, 8)
  }

  lemma KeyOrder(u: nat, v: nat)
    requires u < UINT64_LIMIT && v < UINT64_LIMIT
    ensures ByteLess(KeyBytes(u), KeyBytes(v)) <==> u < v
    ensures KeyBytes(u) == KeyBytes(v) <==> u == v
  {
    assert Pow256(8) == UINT64_LIMIT by {
      assert Pow256(4) == 256 * Pow256(3) == 256 * (256 * Pow256(2));
      assert Pow256(6) == 256 * Pow256(5) == 256 * (256 * Pow256(4));
    }
    BigEndianOrder(u, v, 8);
  }

  // ---------------------------------------------------------------- the bucket

  /** What bucket statistics read during one push; they need not reflect that push's own deletes. */
  datatype Reading = Reading(leafInuse: int, keyN: int)

  /** The bucket that holds exactly the given entries, each under its big-endian key. */
  function BucketOf(items: seq<Queue.Entry>): map<seq<Byte>, IngestRequest> {
    if items == [] then map[] else BucketOf(items[1..])[KeyBytes(items[0].key) := items[0].batch]
  }

  /** Entries in key order whose keys fit a uint64. */
  ghost predicate Storable(items: seq<Queue.Entry>) {
    Queue.Ordered(items) && forall i :: 0 <= i < |items| ==> items[i].key < UINT64_LIMIT
  }

  /** Entries later in the queue have keys later in byte order, so the cursor starts at the head. */
  lemma {:induction false} BucketKeys(items: seq<Queue.Entry>, k: seq<Byte>, floor: nat)
    requires Storable(items) && k in BucketOf(items)
    requires floor < UINT64_LIMIT && forall i :: 0 <= i < |items| ==> floor < items[i].key
    ensures ByteLess(KeyBytes(floor), k) && !ByteLess(k, KeyBytes(floor)) && k != KeyBytes(floor)
  {
    KeyOrder(floor, items[0].key);
    KeyOrder(items[0].key, floor);
    if k != KeyBytes(items[0].key) {
      BucketKeys(items[1..], k, floor);
    }
  }

  lemma {:induction false} BucketSize(items: seq<Queue.Entry>)
    requires Storable(items)
    ensures |BucketOf(items)| == |items|
  {
    if items != [] {
      var rest := BucketOf(items[1..]);
      BucketSize(items[1..]);
      if KeyBytes(items[0].key) in rest {
        BucketKeys(items[1..], KeyBytes(items[0].key), items[0].key);
      }
      assert BucketOf(items).Keys == rest.Keys + {KeyBytes(items[0].key)};
    }
  }

  lemma {:induction false} BucketDelete(items: seq<Queue.Entry>, key: nat)
    requires Storable(items) && key < UINT64_LIMIT
    ensures BucketOf(Queue.Without(items, key)) == BucketOf(items) - {KeyBytes(key)}
  {
    if items != [] {
      KeyOrder(items[0].key, key);
      BucketDelete(items[1..], key);
      var rest, k0 := BucketOf(items[1..]), KeyBytes(items[0].key);
      if items[0].key == key {
        assert rest[k0 := items[0].batch] - {k0} == rest - {k0};
      } else {
        var tail := Queue.Without(items[1..], key);
        assert ([items[0]] + tail)[1..] == tail;
        assert rest[k0 := items[0].batch] - {KeyBytes(key)} == (rest - {KeyBytes(key)})[k0 := items[0].batch];
      }
    }
  }

  lemma {:induction false} BucketPut(items: seq<Queue.Entry>, e: Queue.Entry)
    requires Storable(items) && e.key < UINT64_LIMIT
    requires forall i :: 0 <= i < |items| ==> items[i].key < e.key
    ensures BucketOf(items + [e]) == BucketOf(items)[KeyBytes(e.key) := e.batch]
  {
    if items != [] {
      assert (items + [e])[1..] == items[1..] + [e];
      BucketPut(items[1..], e);
      KeyOrder(items[0].key, e.key);
    } else {
      assert [e][1..] == [];
    }
  }

  class Spool {
    var bucket: map<seq<Byte>, IngestRequest>
    var sequence: nat
    const maxBytes: int
    ghost var items: seq<Queue.Entry>

    ghost function Contents(): Queue.Queue
      reads this
    {
      Queue.Queue(items, sequence)
    }

    ghost predicate Valid()
      reads this
    {
      sequence < UINT64_LIMIT && Queue.Valid(Contents()) && bucket == BucketOf(items)
    }

    lemma Fits()
      requires Valid()
      ensures Storable(items) && forall i :: 0 <= i < |items| ==> items[i].key <= sequence
    {
    }

    constructor (maxBytes: int)
      ensures Valid() && Contents() == Queue.Queue([], 0) && this.maxBytes == maxBytes
    {
      bucket, sequence, items := map[], 0, [];
      this.maxBytes := maxBytes;
    }

    /** Cursor().First(): the key that is least in byte order. */
    method First() returns (k: Option<seq<Byte>>)
      requires Valid()
      ensures k == if items == [] then None else Some(KeyBytes(items[0].key))
      ensures items != [] ==> KeyBytes(items[0].key) in bucket && bucket[KeyBytes(items[0].key)] == items[0].batch
    {
      Fits();
      BucketSize(items);
      if |bucket| == 0 {
        return None;
      }
      ghost var head := KeyBytes(items[0].key);
      forall k' | k' in bucket && k' != head
        ensures ByteLess(head, k') && !ByteLess(k', head)
      {
        BucketKeys(items[1..], k', items[0].key);
      }
      assert head in bucket;
      var least :| least in bucket && forall k' :: k' in bucket ==> k' == least || ByteLess(least, k');
      k := Some(least);
    }

    /** Bucket.Delete: removes the entry stored under the key, if any. */
    method Delete(k: seq<Byte>, ghost key: nat)
      requires Valid() && key < UINT64_LIMIT && k == KeyBytes(key)
      modifies this`bucket, this`items
      ensures Valid() && Contents() == Queue.Ack(old(Contents()), key)
    {
      Fits();
      BucketDelete(items, key);
      Queue.WithoutOrdered(items, key);
      bucket := bucket - {k};
      items := Queue.Without(items, key);
    }

    /** Delete what the cursor starts at, if anything. */
    method DropFirst() returns (dropped: bool)
      requires Valid()
      modifies this`bucket, this`items
      ensures Valid() && (dropped <==> old(items) != []) && items == if dropped then old(items)[1..] else []
    {
      var first := First();
      if first.None? {
        return false;
      }
      Fits();
      Queue.WithoutHead(items);
      Delete(first.value, items[0].key);
      return true;
    }

    /**
     The size-cap loop: while a reading exceeds the cap and counts a key, drop the oldest entry. It drops
     `evicted` entries: one for each reading up to the first that does not, or all there are.
     */
    method EvictToCap(stats: nat -> Reading) returns (ghost evicted: nat)
      requires Valid()
      modifies this`bucket, this`items
      ensures Valid() && evicted <= |old(items)| && items == old(items)[evicted..]
      ensures forall j: nat :: j < evicted ==> stats(j).leafInuse > maxBytes && stats(j).keyN > 0
      ensures evicted < |old(items)| ==> stats(evicted).leafInuse <= maxBytes || stats(evicted).keyN <= 0
      ensures stats(0).leafInuse <= maxBytes ==> evicted == 0
    {
      hide *;
      var n := 0;
      evicted := 0;
      while stats(n).leafInuse > maxBytes && stats(n).keyN > 0
        invariant Valid() && n == evicted <= |old(items)| && items == old(items)[n..]
        invariant forall j: nat :: j < n ==> stats(j).leafInuse > maxBytes && stats(j).keyN > 0
        decreases |items|
      {
        var dropped := DropFirst();
        if !dropped {
          break;
        }
        n := n + 1;
        evicted := n;
      }
    }

    /** The next sequence number fits a uint64. */
    predicate Room()
      reads this
    {
      sequence + 1 < UINT64_LIMIT
    }

    /** Bucket.Put under the next sequence number, which wraps to zero after the last one. */
    method Append(v: IngestRequest)
      requires Valid()
      modifies this`bucket, this`items, this`sequence
      ensures sequence == (old(sequence) + 1) % UINT64_LIMIT && bucket == old(bucket)[KeyBytes(sequence) := v]
      ensures old(Room()) ==> Valid() && items == old(items) + [Queue.Entry(sequence, v)]
    {
      hide BucketOf, KeyBytes;
      if Room() {
        Fits();
        BucketPut(items, Queue.Entry(sequence + 1, v));
        Queue.PushValid(Contents(), v, 0);
        assert items[0..] == items;
      }
      hide Queue.Valid;
      sequence := (sequence + 1) % UINT64_LIMIT;
      var k := KeyBytes(sequence);
      bucket := bucket[k := v];
      items := items + [Queue.Entry(sequence, v)];
    }

    /** An aborted transaction puts the bucket and its counter back. */
    method Rollback(savedBucket: map<seq<Byte>, IngestRequest>, savedSequence: nat, ghost savedItems: seq<Queue.Entry>)
      requires savedSequence < UINT64_LIMIT && savedBucket == BucketOf(savedItems)
      requires Queue.Valid(Queue.Queue(savedItems, savedSequence))
      modifies this`bucket, this`items, this`sequence
      ensures Valid() && Contents() == Queue.Queue(savedItems, savedSequence)
    {
      bucket, sequence, items := savedBucket, savedSequence, savedItems;
    }

    /**
     Push: drop the oldest entries while over the cap, then store the batch under the next
     sequence number; at or under the cap nothing is dropped. A transaction that does not commit leaves everything as it was. At the very
     last sequence number the new key is zero, and the bucket is no longer in push order.
     */
    method Push(v: IngestRequest, stats: nat -> Reading, commits: bool) returns (ok: bool, ghost evicted: nat)
      requires Valid()
      modifies this`bucket, this`items, this`sequence
      ensures ok == commits
      ensures !commits ==> Valid() && Contents() == old(Contents())
      ensures evicted <= |old(items)|
      ensures forall j: nat :: j < evicted ==> stats(j).leafInuse > maxBytes && stats(j).keyN > 0
      ensures evicted < |old(items)| ==> stats(evicted).leafInuse <= maxBytes || stats(evicted).keyN <= 0
      ensures commits ==>
                && sequence == (old(sequence) + 1) % UINT64_LIMIT
                && bucket == BucketOf(old(items)[evicted..])[KeyBytes(sequence) := v]
                && (old(Room()) ==> Valid() && Contents() == Queue.Push(old(Contents()), v, evicted))
      ensures commits && old(Room()) && stats(0).leafInuse <= maxBytes ==> items == old(items) + [Queue.Entry(sequence, v)]
    {
      hide BucketOf, KeyBytes, Storable, Queue.Ordered, Queue.Valid;
      var savedBucket, savedSequence := bucket, sequence;
      ghost var before := Contents();
      evicted := EvictToCap(stats);
      Append(v);
      assert old(Room()) ==> Valid() && Contents() == Queue.Push(before, v, evicted);
      hide Queue.Push;
      if !commits {
        Rollback(savedBucket, savedSequence, before.items);
      }
      ok := commits;
    }

    /** The oldest entry's key and batch. */
    method Peek() returns (r: Option<(seq<Byte>, IngestRequest)>)
      requires Valid()
      ensures r == if items == [] then None else Some((KeyBytes(items[0].key), items[0].batch))
    {
      var first := First();
      match first
      case None => r := None;
      case Some(k) => r := Some((k, bucket[k]));
    }

    method Ack(k: seq<Byte>, ghost key: nat)
      requires Valid() && key < UINT64_LIMIT && k == KeyBytes(key)
      modifies this`bucket, this`items
      ensures Valid() && Contents() == Queue.Ack(old(Contents()), key)
    {
      Delete(k, key);
    }

    method Len() returns (n: nat)
      requires Valid()
      ensures n == |items|
    {
      Fits();
      BucketSize(items);
      n := |bucket|;
    }
  }
}
