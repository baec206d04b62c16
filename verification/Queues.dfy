/**
 The request queues between the dispatcher and the workers.  Each queue is a pair of
 lists, one that producers append to and one that consumers take from; an empty consumer
 list is refilled by splicing the producer list onto it.
 */
module Queues {
  import opened Collections

  type Req = nat

  datatype List = List(q: seq<Req>, size: nat)
  datatype Pair = Pair(producer: List, consumer: List)

  predicate Counted(p: Pair) {
    p.producer.size == |p.producer.q| && p.consumer.size == |p.consumer.q|
  }

  /** The one queue that the two lists stand for. */
  function Contents(p: Pair): seq<Req> {
    p.consumer.q + p.producer.q
  }

  /** What the lists become under their locks. */
  function AfterPut(p: Pair, r: Req): Pair {
    p.(producer := List(p.producer.q + [r], p.producer.size + 1))
  }

  function AfterTake(p: Pair): Pair
    requires p.consumer.q != [] && p.consumer.size > 0
  {
    p.(consumer := List(p.consumer.q[1..], p.consumer.size - 1))
  }

  function AfterSplice(p: Pair): Pair {
    Pair(List([], 0), List(p.consumer.q + p.producer.q, p.producer.size))
  }

  const MOUNT := 0
  const CALL := 1
  const LOW_LATENCY := 2
  const HIGH_LATENCY := 3

  datatype Kind = NfsRequest(mount: bool, highLatency: bool) | NfsCall | NinePRequest | OtherKind

  function QueueOf(kind: Kind): Option<nat> {
    match kind
    case NfsRequest(mount, high) => Some(if mount then MOUNT else if high then HIGH_LATENCY else LOW_LATENCY)
    case NfsCall => Some(CALL)
    case NinePRequest => Some(LOW_LATENCY)
    case OtherKind => None
  }

  /** Mount requests, calls and requests of high latency each have a queue of their own; the rest share one. */
  lemma WhichQueue(kind: Kind)
    ensures QueueOf(kind) == Some(0) <==> kind.NfsRequest? && kind.mount
    ensures QueueOf(kind) == Some(1) <==> kind.NfsCall?
    ensures QueueOf(kind) == Some(3) <==> kind.NfsRequest? && !kind.mount && kind.highLatency
    ensures QueueOf(kind) == None <==> kind.OtherKind?
    ensures QueueOf(kind).Some? ==> QueueOf(kind).value < 4
  {
  }

  function Rest(q: seq<Req>): seq<Req> {
    if q == [] then [] else q[1..]
  }

  function First(q: seq<Req>): Option<Req> {
    if q == [] then None else Some(q[0])
  }

  /** What a consumer finds if `arrived` is enqueued while it looks. */
  function Found(p: Pair, arrived: seq<Req>): (q: seq<Req>)
    ensures arrived == [] ==> q == Contents(p)
  {
    if p.consumer.size > 0 then Contents(p) else Contents(p) + arrived
  }

  /** The first request of queue `i`, if any, was taken, and nothing else changed. */
  ghost predicate TookFrom(before: seq<Pair>, i: nat, r: Option<Req>, after: seq<Pair>)
    requires i < |before|
  {
    && |after| == |before| && AllCounted(after)
    && r == First(Contents(before[i])) && Contents(after[i]) == Rest(Contents(before[i]))
    && after == before[i := after[i]]
  }

  function AfterAll(p: Pair, rs: seq<Req>): Pair {
    if rs == [] then p else AfterPut(AfterAll(p, rs[..|rs| - 1]), rs[|rs| - 1])
  }

  lemma {:induction false} AllPut(p: Pair, rs: seq<Req>)
    requires Counted(p)
    ensures Counted(AfterAll(p, rs)) && AfterAll(p, rs).consumer == p.consumer
    ensures Contents(AfterAll(p, rs)) == Contents(p) + rs
    decreases |rs|
  {
    if rs != [] {
      var before, last := rs[..|rs| - 1], rs[|rs| - 1];
      AllPut(p, before);
      assert Contents(AfterAll(p, rs)) == Contents(AfterAll(p, before)) + [last];
      assert rs == before + [last];
    }
  }

  class QueueSet {
    const qset: array<Pair>

    constructor ()
      ensures fresh(qset) && qset.Length == 4
      ensures forall i :: 0 <= i < 4 ==> Counted(qset[i]) && Contents(qset[i]) == []
    {
      qset := new Pair[4](_ => Pair(List([], 0), List([], 0)));
    }

    ghost predicate Valid()
      reads this, qset
    {
      qset.Length == 4 && forall i :: 0 <= i < 4 ==> Counted(qset[i])
    }

    /** nfs_rpc_enqueue_req */
    method Enqueue(kind: Kind, r: Req)
      requires Valid()
      modifies qset
      ensures Valid()
      ensures forall i :: 0 <= i < 4 ==>
        Contents(qset[i]) == old(Contents(qset[i])) + if QueueOf(kind) == Some(i) then [r] else []
    {
      var which := QueueOf(kind);
      if which.Some? {
        var p := qset[which.value];
        qset[which.value] := AfterPut(p, r);
        assert Contents(AfterPut(p, r)) == Contents(p) + [r];
      }
    }

    /**
     nfs_rpc_consume_req.  The consumer list is found empty under its own lock; until the
     producer lock is taken too, `arrived` may still be enqueued.
     */
    method Consume(i: nat, arrived: seq<Req>) returns (r: Option<Req>)
      requires Valid() && i < 4
      modifies qset
      ensures Valid()
      ensures r == First(Found(old(qset[i]), arrived)) && Contents(qset[i]) == Rest(Found(old(qset[i]), arrived))
      ensures qset[..] == old(qset[..])[i := qset[i]]
      ensures r == None ==> qset[..] == old(qset[..])
    {
      var p := qset[i];
      if p.consumer.size > 0 {
        r := Some(p.consumer.q[0]);
        qset[i] := AfterTake(p);
        assert Contents(AfterTake(p)) == Rest(Contents(p));
        return;
      }
      var q := AfterAll(p, arrived);
      AllPut(p, arrived);
      if q.producer.size > 0 {
        var spliced := AfterSplice(q);
        r := Some(spliced.consumer.q[0]);
        qset[i] := AfterTake(spliced);
        assert Contents(AfterTake(spliced)) == Rest(Contents(q));
        return;
      }
      r := None;
    }

    /** One step of a round: the queues are as found, and one of them is tried. */
    method ConsumeFound(i: nat, now: seq<Pair>) returns (r: Option<Req>)
      requires qset.Length == |now| == 4 && AllCounted(now) && i < 4
      modifies qset
      ensures TookFrom(now, i, r, qset[..])
    {
      forall j | 0 <= j < 4 {
        qset[j] := now[j];
      }
      assert qset[..] == now;
      r := Consume(i, []);
    }

    /**
     nfs_rpc_dequeue_req, one round from the queue `turn` whose turn it is.  Other threads may
     come in between: `found[k]` is what the round finds at its step `k`.
     */
    method Dequeue(turn: nat, found: seq<seq<Pair>>) returns (r: Option<Req>, ghost k: nat)
      requires qset.Length == 4 && |found| == 4 && turn < 4
      requires forall j :: 0 <= j < 4 ==> |found[j]| == 4 && AllCounted(found[j])
      modifies qset
      ensures k < 4 && TookFrom(found[k], Turn(turn, k), r, qset[..]) && NothingSeen(found, turn, k)
      ensures r == None ==> NothingSeen(found, turn, 4)
    {
      var slot := turn;
      r, k := None, 3;
      for ix := 0 to 4
        invariant slot == Turn(turn, ix) && NothingSeen(found, turn, ix)
        invariant ix > 0 ==> r == None && k == ix - 1 && TookFrom(found[k], Turn(turn, k), r, qset[..])
      {
        k := ix;
        r := ConsumeFound(slot, found[ix]);
        if r.Some? {
          return;
        }
        slot := Following(slot);
      }
    }
  }

  function Following(slot: nat): (r: nat)
    requires slot < 4
    ensures r == if slot == 3 then 0 else slot + 1
  {
    (slot + 1) % 4
  }

  /** The queue that a round from `start` looks at after `n` others. */
  ghost function Turn(start: nat, n: nat): (t: nat)
    requires start < 4
    ensures t < 4
  {
    if n == 0 then start else Following(Turn(start, n - 1))
  }

  predicate AllCounted(qset: seq<Pair>) {
    forall i :: 0 <= i < |qset| ==> Counted(qset[i])
  }

  /** The queues of the first `n` steps of the round were empty when it looked. */
  ghost predicate NothingSeen(found: seq<seq<Pair>>, start: nat, n: nat)
    requires |found| == 4 && (forall j :: 0 <= j < 4 ==> |found[j]| == 4) && start < 4 && n <= 4
  {
    n == 0 || (NothingSeen(found, start, n - 1) && Contents(found[n - 1][Turn(start, n - 1)]) == [])
  }

  lemma {:induction false} TurnIs(start: nat, k: nat)
    requires start < 4 && k < 4
    ensures Turn(start, k) == if start + k < 4 then start + k else start + k - 4
  {
    if k > 0 { TurnIs(start, k - 1); }
  }

  lemma {:induction false} SeenAt(found: seq<seq<Pair>>, start: nat, n: nat, k: nat)
    requires |found| == 4 && (forall j :: 0 <= j < 4 ==> |found[j]| == 4) && start < 4 && k < n <= 4
    requires NothingSeen(found, start, n)
    ensures Contents(found[k][Turn(start, k)]) == []
    decreases n
  {
    if k < n - 1 { SeenAt(found, start, n - 1, k); }
  }

  /** A round that comes back empty has looked at every queue and found it empty. */
  lemma EmptyRound(found: seq<seq<Pair>>, start: nat, i: nat) returns (k: nat)
    requires |found| == 4 && (forall j :: 0 <= j < 4 ==> |found[j]| == 4) && start < 4 && i < 4
    requires NothingSeen(found, start, 4)
    ensures k < 4 && Turn(start, k) == i && Contents(found[k][i]) == []
  {
    k := if i >= start then i - start else i + 4 - start;
    TurnIs(start, k);
    SeenAt(found, start, 4, k);
  }

  // ---- runs ---------------------------------------------------------------

  /** What happens to one queue, at the grain of its locks. */
  datatype Step = Put(r: Req) | Take | Splice

  datatype State = State(pair: Pair, put: seq<Req>, taken: seq<Req>)

  predicate Can(p: Pair, step: Step) {
    match step
    case Put(_) => true
    case Take => p.consumer.size > 0 && p.consumer.q != []
    case Splice => p.consumer.size == 0 && p.producer.size > 0
  }

  function Next(s: State, step: Step): State
    requires Can(s.pair, step)
  {
    match step
    case Put(r) => State(AfterPut(s.pair, r), s.put + [r], s.taken)
    case Take => State(AfterTake(s.pair), s.put, s.taken + [s.pair.consumer.q[0]])
    case Splice => s.(pair := AfterSplice(s.pair))
  }

  ghost predicate Run(s: State, steps: seq<Step>, t: State)
    decreases |steps|
  {
    if steps == [] then s == t else Can(s.pair, steps[0]) && Run(Next(s, steps[0]), steps[1..], t)
  }

  lemma NextConserves(s: State, step: Step)
    requires Can(s.pair, step) && Counted(s.pair) && s.put == s.taken + Contents(s.pair)
    ensures var t := Next(s, step); Counted(t.pair) && t.put == t.taken + Contents(t.pair)
  {
  }

  /** First in, first out: in every run, what was taken and what is left are what was put, in order. */
  lemma {:induction false} Fifo(s: State, steps: seq<Step>, t: State)
    requires Run(s, steps, t) && Counted(s.pair) && s.put == s.taken + Contents(s.pair)
    ensures Counted(t.pair) && t.put == t.taken + Contents(t.pair)
    decreases |steps|
  {
    if steps != [] {
      NextConserves(s, steps[0]);
      Fifo(Next(s, steps[0]), steps[1..], t);
    }
  }
}
