/**
 The agent's loop bodies (cmd/agent/main.go) over mutable state: collect into the spool, and drain
 the spool through the transport. Collector output and network outcomes are parameters.
 */
module Agent {
  import opened Wire
  import opened Delta
  import opened Protocol
  import Queue
  import Replica
  import Spool

  // ---------------------------------------------------------------- transport

  /** How one HTTP attempt ends. */
  datatype Attempt = Delivered | HttpError(code: int) | NetworkError

  const MAX_ATTEMPTS: nat := 5

  /** The client error responses are final; everything else is tried again. */
  predicate Retryable(a: Attempt) {
    a.NetworkError? || (a.HttpError? && a.code >= 500)
  }

  /**
   Post: up to five attempts; `sent` counts the request copies put on the wire. All but the last failed
   in a way that is tried again, and were followed by a wait that was not cancelled; the last one was
   delivered, or refused for good, or the fifth, or followed by a cancelled wait.
   */
  method Post(attempts: nat -> Attempt, cancelled: nat -> bool) returns (ok: bool, sent: nat)
    ensures 1 <= sent <= 5 && (ok <==> attempts(sent - 1) == Delivered)
    ensures forall j: nat :: j + 1 < sent ==>
              (attempts(j) == NetworkError || (attempts(j).HttpError? && attempts(j).code >= 500)) && !cancelled(j + 1)
    ensures !ok ==> (attempts(sent - 1).HttpError? && attempts(sent - 1).code < 500) || sent == 5 || cancelled(sent)
  {
    sent := 0;
    while sent < MAX_ATTEMPTS
      invariant sent <= MAX_ATTEMPTS
      invariant forall j: nat :: j < sent ==> Retryable(attempts(j)) && (j > 0 ==> !cancelled(j))
    {
      if sent > 0 && cancelled(sent) {
        return false, sent;
      }
      sent := sent + 1;
      if attempts(sent - 1) == Delivered {
        return true, sent;
      }
      if !Retryable(attempts(sent - 1)) {
        return false, sent;
      }
    }
    return false, sent;
  }

  // ---------------------------------------------------------------- collect and drain

  class Program {
    var procState: State
    var instState: State
    var produced: nat
    const spool: Spool.Spool

    constructor (spool: Spool.Spool)
      ensures procState == map[] && instState == map[] && produced == 0 && this.spool == spool
    {
      procState, instState, produced := map[], map[], 0;
      this.spool := spool;
    }

    /**
     collectAndSpool: diff each source that was collected, store the new state, and push the
     deltas as one batch. The state is stored whether or not the push commits.
     */
    method CollectAndSpool(procs: Option<seq<SoftwareDelta>>, insts: Option<seq<SoftwareDelta>>, full: bool,
                           stats: nat -> Spool.Reading, commits: bool)
      returns (running: seq<SoftwareDelta>, installed: seq<SoftwareDelta>, ghost evicted: nat)
      requires spool.Valid()
      requires procs.Some? ==> Replica.From(procs.value, Running)
      requires insts.Some? ==> Replica.From(insts.value, Installed)
      modifies this, spool
      ensures old(spool.Room()) || !commits ==> spool.Valid()
      ensures CollectsOne(old(procState), procs, Running, running, procState)
      ensures CollectsOne(old(instState), insts, Installed, installed, instState)
      ensures evicted <= |old(spool.items)|
      ensures forall j: nat :: j < evicted ==> stats(j).leafInuse > spool.maxBytes && stats(j).keyN > 0
      ensures evicted < |old(spool.items)| && produced != old(produced) ==>
                stats(evicted).leafInuse <= spool.maxBytes || stats(evicted).keyN <= 0
      ensures var batch := IngestRequest(old(produced), full, running, installed);
              if running == [] && installed == [] && !full then
                produced == old(produced) && spool.Contents() == old(spool.Contents())
              else
                && produced == old(produced) + 1
                && (!commits ==> spool.Contents() == old(spool.Contents()))
                && (commits && old(spool.Room()) ==> spool.Contents() == Queue.Push(old(spool.Contents()), batch, evicted))
                && (commits ==> spool.bucket == Spool.BucketOf(old(spool.items)[evicted..])[Spool.KeyBytes(spool.sequence) := batch])
    {
      running, installed, evicted := [], [], 0;
      if procs.Some? {
        var d, next := Diff(procState, procs.value);
        procState := next;
        running := d;
      }
      if insts.Some? {
        var d, next := Diff(instState, insts.value);
        instState := next;
        installed := d;
      }
      if |running| == 0 && |installed| == 0 && !full {
        return;
      }
      var batch := IngestRequest(produced, full, running, installed);
      produced := produced + 1;
      var _, dropped := spool.Push(batch, stats, commits);
      evicted := dropped;
    }

    /** One turn of the drain loop: peek, post, and acknowledge if the post went through. */
    method DrainOne(turn: Turn) returns (posted: IngestRequest)
      requires spool.Valid() && spool.items != []
      modifies spool
      ensures spool.Valid() && spool.sequence == old(spool.sequence)
      ensures posted == old(spool.items)[0].batch
      ensures spool.items == if turn == Acked then old(spool.items)[1..] else old(spool.items)
    {
      spool.Fits();
      Queue.WithoutHead(spool.items);
      var head := spool.Peek();
      posted := head.value.1;
      if turn == Acked {
        spool.Ack(head.value.0, spool.items[0].key);
      }
    }

    /**
     drainSpool: post the oldest batch until a post fails or the spool is empty. Every turn posts the
     batch after those acknowledged so far, so one whose acknowledgement failed is posted again. The
     loop ends as long as only finitely many acknowledgements fail, at most `failing`: the measure is
     the spool's length plus the failures still to come.
     */
    method DrainSpool(turns: nat -> Turn, ghost failing: nat) returns (posted: seq<IngestRequest>)
      requires spool.Valid() && forall n: nat :: Count(turns, n, AckFails) <= failing
      modifies spool
      ensures spool.Valid() && spool.sequence == old(spool.sequence)
      ensures var acked := Count(turns, |posted|, Acked);
              acked <= |old(spool.items)| && spool.items == old(spool.items)[acked..]
      ensures PostsInTurn(turns, old(spool.items), posted) && |posted| <= |old(spool.items)| + failing
      ensures spool.items == [] || (posted != [] && turns(|posted| - 1) == PostFails)
    {
      hide *;
      ghost var before := spool.items;
      posted := [];
      NoPosts(turns, before);
      var len := spool.Len();
      while len > 0
        invariant spool.Valid() && spool.sequence == old(spool.sequence)
        invariant Count(turns, |posted|, Acked) <= |before| && spool.items == before[Count(turns, |posted|, Acked)..]
        invariant len == |spool.items| && PostsInTurn(turns, before, posted) && (posted != [] ==> turns(|posted| - 1) != PostFails)
        invariant |posted| == Count(turns, |posted|, Acked) + Count(turns, |posted|, AckFails)
        decreases |spool.items| + failing - Count(turns, |posted|, AckFails)
      {
        var turn := turns(|posted|);
        var batch := DrainOne(turn);
        OnePost(turns, before, posted, batch);
        posted := posted + [batch];
        if turn == PostFails {
          return;
        }
        len := spool.Len();
      }
    }
  }

  /** How a turn of the drain loop ends. */
  datatype Turn = PostFails | AckFails | Acked

  /** How many of the first `n` turns end in a given way. */
  function Count(turns: nat -> Turn, n: nat, turn: Turn): nat {
    if n == 0 then 0 else Count(turns, n - 1, turn) + if turns(n - 1) == turn then 1 else 0
  }

  /** Each post carries the oldest entry not acknowledged before it, and only the last one may have failed. */
  ghost predicate PostsInTurn(turns: nat -> Turn, items: seq<Queue.Entry>, posted: seq<IngestRequest>) {
    && (forall i :: 0 <= i < |posted| ==> Count(turns, i, Acked) < |items| && posted[i] == items[Count(turns, i, Acked)].batch)
    && (forall i: nat :: i + 1 < |posted| ==> turns(i) != PostFails)
  }

  lemma NoPosts(turns: nat -> Turn, items: seq<Queue.Entry>)
    ensures PostsInTurn(turns, items, []) && Count(turns, 0, Acked) == 0 && Count(turns, 0, AckFails) == 0
  {
  }

  lemma OnePost(turns: nat -> Turn, items: seq<Queue.Entry>, posted: seq<IngestRequest>, batch: IngestRequest)
    requires PostsInTurn(turns, items, posted) && (posted != [] ==> turns(|posted| - 1) != PostFails)
    requires Count(turns, |posted|, Acked) < |items| && batch == items[Count(turns, |posted|, Acked)].batch
    ensures PostsInTurn(turns, items, posted + [batch])
    ensures forall turn :: Count(turns, |posted + [batch]|, turn) ==
                           Count(turns, |posted|, turn) + if turns(|posted|) == turn then 1 else 0
  {
  }
}
