/**
 The spool as an abstract queue: entries in key order plus the bucket's sequence counter.
 The protocol model uses these functions; Spool.dfy proves that the bbolt-backed class
 implements them.
 */
module Queue {
  import opened Wire

  datatype Entry = Entry(key: nat, batch: IngestRequest)

  datatype Queue = Queue(items: seq<Entry>, sequence: nat)

  predicate Ordered(items: seq<Entry>) {
    forall i, j :: 0 <= i < j < |items| ==> items[i].key < items[j].key
  }

  ghost predicate Valid(q: Queue) {
    Ordered(q.items) && forall e :: e in q.items ==> e.key <= q.sequence
  }

  /** Drop the oldest entries, then append under the next sequence number. */
  function Push(q: Queue, batch: IngestRequest, evicted: nat): (r: Queue)
    requires evicted <= |q.items|
    ensures evicted == 0 ==> r.items == q.items + [Entry(r.sequence, batch)]
  {
    assert q.items[0..] == q.items;
    Queue(q.items[evicted..] + [Entry(q.sequence + 1, batch)], q.sequence + 1)
  }

  lemma PushValid(q: Queue, batch: IngestRequest, evicted: nat)
    requires Valid(q) && evicted <= |q.items|
    ensures Valid(Push(q, batch, evicted))
  {
  }

  /** The entries without the given key: what a delete by key leaves. */
  function Without(items: seq<Entry>, key: nat): (r: seq<Entry>)
    ensures forall e :: e in r <==> e in items && e.key != key
  {
    if items == [] then []
    else if items[0].key == key then Without(items[1..], key)
    else [items[0]] + Without(items[1..], key)
  }

  function Ack(q: Queue, key: nat): Queue {
    q.(items := Without(q.items, key))
  }

  lemma {:induction false} WithoutAbsent(items: seq<Entry>, key: nat)
    requires forall e :: e in items ==> e.key != key
    ensures Without(items, key) == items
  {
    if items != [] {
      assert items[0] in items && forall e :: e in items[1..] ==> e in items;
      WithoutAbsent(items[1..], key);
    }
  }

  lemma WithoutHead(items: seq<Entry>)
    requires Ordered(items) && items != []
    ensures Without(items, items[0].key) == items[1..]
  {
    assert forall e :: e in items[1..] ==> e.key != items[0].key;
    WithoutAbsent(items[1..], items[0].key);
  }

  lemma {:induction false} WithoutOrdered(items: seq<Entry>, key: nat)
    requires Ordered(items)
    ensures Ordered(Without(items, key))
  {
    if items != [] && items[0].key != key {
      var rest := Without(items[1..], key);
      WithoutOrdered(items[1..], key);
      forall i | 0 <= i < |rest| ensures items[0].key < rest[i].key {
        assert rest[i] in rest;
      }
    } else if items != [] {
      WithoutHead(items);
    }
  }

  // ---------------------------------------------------------------- whole runs

  /**
   One use of the queue. `Fail` is a push whose transaction does not commit; `Peek` remembers the
   head's key; `AckPeeked` acknowledges any key some earlier peek returned.
   */
  datatype Use = PushOne(batch: IngestRequest, evicted: nat) | Fail | Peek | AckPeeked(key: nat)

  /** A queue with its history: every entry ever pushed, and every key ever peeked. */
  datatype History = History(q: Queue, issued: seq<Entry>, peeked: set<nat>)

  predicate Allowed(h: History, u: Use) {
    match u
    case PushOne(_, evicted) => evicted <= |h.q.items|
    case AckPeeked(key) => key in h.peeked
    case _ => true
  }

  function After(h: History, u: Use): History
    requires Allowed(h, u)
  {
    match u
    case PushOne(b, evicted) => h.(q := Push(h.q, b, evicted), issued := h.issued + [Entry(h.q.sequence + 1, b)])
    case Fail => h
    case Peek => if h.q.items == [] then h else h.(peeked := h.peeked + {h.q.items[0].key})
    case AckPeeked(key) => h.(q := Ack(h.q, key))
  }

  ghost predicate RunFrom(h: History, uses: seq<Use>)
    decreases |uses|
  {
    uses == [] || (Allowed(h, uses[0]) && RunFrom(After(h, uses[0]), uses[1..]))
  }

  function AfterAll(h: History, uses: seq<Use>): History
    requires RunFrom(h, uses)
    decreases |uses|
  {
    if uses == [] then h else AfterAll(After(h, uses[0]), uses[1..])
  }

  /**
   Entries were issued under strictly increasing keys, the queue is what is left of them after
   dropping `gone` from the front, and no key peeked so far is beyond the head.
   */
  ghost predicate Holds(h: History, gone: nat) {
    && Ordered(h.issued)
    && (forall i :: 0 <= i < |h.issued| ==> h.issued[i].key <= h.q.sequence)
    && gone <= |h.issued| && h.q.items == h.issued[gone..]
    && (forall k, i :: k in h.peeked && gone <= i < |h.issued| ==> k <= h.issued[i].key)
    && (forall k :: k in h.peeked ==> k <= h.q.sequence)
  }

  lemma PushHolds(h: History, b: IngestRequest, evicted: nat, gone: nat)
    requires Holds(h, gone) && evicted <= |h.q.items|
    ensures Holds(After(h, PushOne(b, evicted)), gone + evicted)
  {
  }

  lemma PeekHolds(h: History, gone: nat)
    requires Holds(h, gone)
    ensures Holds(After(h, Peek), gone)
  {
  }

  /** Acknowledging a peeked key removes the head it names, or nothing. */
  lemma AckHolds(h: History, key: nat, gone: nat) returns (gone': nat)
    requires Holds(h, gone) && key in h.peeked
    ensures var ack := Ack(h.q, key).items; var items := h.q.items;
            ack == if items != [] && items[0].key == key then items[1..] else items
    ensures Holds(After(h, AckPeeked(key)), gone') && gone <= gone'
  {
    var items := h.q.items;
    assert forall i :: 0 <= i < |items| ==> items[i] == h.issued[gone + i];
    if items != [] && items[0].key == key {
      WithoutHead(items);
      gone' := gone + 1;
      assert items[1..] == h.issued[gone'..];
    } else {
      forall e | e in items ensures e.key != key {
        var i :| 0 <= i < |items| && items[i] == e;
        assert key <= items[0].key;
      }
      WithoutAbsent(items, key);
      gone' := gone;
    }
  }

  lemma StepHolds(h: History, u: Use, gone: nat) returns (gone': nat)
    requires Holds(h, gone) && Allowed(h, u)
    ensures Holds(After(h, u), gone') && gone <= gone'
    ensures h.issued <= After(h, u).issued && h.peeked <= After(h, u).peeked
  {
    gone' := gone;
    match u
    case PushOne(b, evicted) =>
      PushHolds(h, b, evicted, gone);
      gone' := gone + evicted;
    case Fail =>
    case Peek =>
      PeekHolds(h, gone);
    case AckPeeked(key) =>
      gone' := AckHolds(h, key, gone);
  }

  /**
   Refinement over whole runs. Whatever pushes, evictions, peeks and acknowledgements happen,
   the queue holds a suffix of everything pushed, in push order; keys of issued entries strictly
   increase, so none is ever reused.
   */
  lemma {:induction false} QueueIsASuffix(h: History, uses: seq<Use>, gone: nat) returns (gone': nat)
    requires Holds(h, gone) && RunFrom(h, uses)
    ensures Holds(AfterAll(h, uses), gone') && gone <= gone'
    ensures h.issued <= AfterAll(h, uses).issued && h.peeked <= AfterAll(h, uses).peeked
    decreases |uses|
  {
    gone' := gone;
    if uses != [] {
      gone' := StepHolds(h, uses[0], gone);
      gone' := QueueIsASuffix(After(h, uses[0]), uses[1..], gone');
    }
  }

  /** The fresh spool starts such a run, so every spool's contents are a suffix of what was pushed into it. */
  lemma FreshQueueIsASuffix(uses: seq<Use>) returns (gone: nat)
    requires RunFrom(History(Queue([], 0), [], {}), uses)
    ensures var h := AfterAll(History(Queue([], 0), [], {}), uses);
            Ordered(h.issued) && gone <= |h.issued| && h.q.items == h.issued[gone..]
  {
    gone := QueueIsASuffix(History(Queue([], 0), [], {}), uses, 0);
  }

  /**
   Acknowledging a key peeked before an arbitrary run takes out the entry it was peeked from, or
   nothing: no later push can come under that key.
   */
  lemma AckAfterAnything(h: History, uses: seq<Use>, gone: nat)
    requires Holds(h, gone) && h.q.items != [] && RunFrom(After(h, Peek), uses)
    ensures var items := AfterAll(After(h, Peek), uses).q.items; var key := h.q.items[0].key;
            Without(items, key) == if items != [] && items[0] == h.q.items[0] then items[1..] else items
  {
    var h1, head := After(h, Peek), h.q.items[0];
    PeekHolds(h, gone);
    var gone2 := QueueIsASuffix(h1, uses, gone);
    var h2 := AfterAll(h1, uses);
    var _ := AckHolds(h2, head.key, gone2);
    assert head == h.issued[gone] == h2.issued[gone];
    if h2.q.items != [] && h2.q.items[0].key == head.key {
      assert h2.q.items[0] == h2.issued[gone2];
    }
  }
}
