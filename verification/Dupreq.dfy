/**
 The duplicate request cache.

 A request is looked up by its key before it is executed.  The cache is a dictionary
 from key to entry, a queue of entries in order of insertion, counts of the requests
 that still refer to an entry, and a window that delays retirement after a hit.

 Every section of code under one lock is a step.  Finishing a request takes the oldest
 entry off the queue under one lock and removes it from the dictionary under another;
 deleting one marks, unlinks and dequeues its entry under three.  The entries in between
 are kept in view, because a request that finds one of them in the dictionary goes wrong.
 */
module Dupreq {
  import opened Collections

  /** What the comparators of the dictionary look at. */
  datatype Key = Key(addr: nat, xid: nat, cksum: nat)

  type Res = nat
  type Id = nat
  type Req = nat

  datatype Progress = Start | Complete | Deleted

  datatype Entry = Entry(key: Key, state: Progress, res: Res, refcnt: int)

  /** A request refers to the entry it created, or to one it found complete. */
  datatype Hold = Owner(id: Id) | Hit(id: Id)

  /** Entries off the queue and not yet freed; deleted and not yet unlinked; unlinked and not yet dequeued. */
  datatype Windows = Windows(retiring: set<Id>, marked: set<Id>, unlinked: set<Id>)

  datatype Cache = Cache(
    entries: map<Id, Entry>,      // entries not freed
    dict: map<Key, Id>,
    queue: seq<Id>,
    size: int,
    retwnd: nat,
    next: Id,                     // the next entry to be allocated
    held: map<Req, Hold>,         // requests between start and rele
    w: Windows,
    maxsize: nat,
    hiwat: nat)

  datatype Status = Success | BeingProcessed | Exists(res: Res)

  const RETWND_START_BIAS: nat := 16

  // ---- the operations -----------------------------------------------------

  function IncRetwnd(w: nat): nat {
    if w == 0 then RETWND_START_BIAS else w + 1
  }

  function DecRetwnd(w: nat): nat {
    if w > 0 then w - 1 else 0
  }

  predicate ShouldRetire(c: Cache) {
    c.size > c.maxsize || (c.retwnd == 0 && c.size > c.hiwat)
  }

  function StartStatus(c: Cache, k: Key): Status
    requires k in c.dict ==> c.dict[k] in c.entries
  {
    if k !in c.dict then Success
    else if c.entries[c.dict[k]].state == Start then BeingProcessed
    else Exists(c.entries[c.dict[k]].res)
  }

  /** One more reference to an entry found complete. */
  function AfterHit(c: Cache, r: Req, id: Id): Cache
    requires id in c.entries
  {
    c.(entries := c.entries[id := c.entries[id].(refcnt := c.entries[id].refcnt + 1)],
       retwnd := IncRetwnd(c.retwnd),
       held := c.held[r := Hit(id)])
  }

  /** A new entry, referred to by the request that created it. */
  function AfterNew(c: Cache, r: Req, k: Key, res: Res): Cache {
    c.(entries := c.entries[c.next := Entry(k, Start, res, 1)],
       dict := c.dict[k := c.next],
       queue := c.queue + [c.next],
       size := c.size + 1,
       next := c.next + 1,
       held := c.held[r := Owner(c.next)])
  }

  function AfterStart(c: Cache, r: Req, k: Key, res: Res): Cache
    requires k in c.dict ==> c.dict[k] in c.entries
  {
    match StartStatus(c, k)
    case BeingProcessed => c
    case Exists(_) => AfterHit(c, r, c.dict[k])
    case Success => AfterNew(c, r, k, res)
  }

  /** The entry that finishing a request retires, if any: the oldest, once nobody refers to it. */
  predicate Retires(c: Cache) {
    ShouldRetire(c) && c.queue != [] && c.queue[0] in c.entries && c.entries[c.queue[0]].refcnt <= 0
  }

  function AfterComplete(c: Cache, id: Id, res: Res): Cache
    requires id in c.entries
  {
    c.(entries := c.entries[id := c.entries[id].(res := res, state := Complete)])
  }

  /** The first lock of a retirement: the oldest entry leaves the queue. */
  function AfterTakeOff(c: Cache): Cache {
    if !ShouldRetire(c) || c.queue == [] then c
    else
      var c1 := c.(retwnd := DecRetwnd(c.retwnd));
      if Retires(c)
      then c1.(queue := c.queue[1..], size := c.size - 1, w := c.w.(retiring := c.w.retiring + {c.queue[0]}))
      else c1
  }

  /** The second: it leaves the dictionary and is freed. */
  function AfterFree(c: Cache, id: Id): Cache
    requires id in c.entries
  {
    c.(dict := c.dict - {c.entries[id].key},
       entries := c.entries - {id},
       w := c.w.(retiring := c.w.retiring - {id}))
  }

  /** A retirement with nothing in between. */
  function AfterRetire(c: Cache): Cache {
    if Retires(c) then AfterFree(AfterTakeOff(c), c.queue[0]) else AfterTakeOff(c)
  }

  function AfterFinish(c: Cache, id: Id, res: Res): Cache
    requires id in c.entries
  {
    AfterRetire(AfterComplete(c, id, res))
  }

  function AfterMark(c: Cache, id: Id): Cache
    requires id in c.entries
  {
    c.(entries := c.entries[id := c.entries[id].(state := Deleted)], w := c.w.(marked := c.w.marked + {id}))
  }

  function AfterUnlink(c: Cache, id: Id): Cache
    requires id in c.entries
  {
    c.(dict := c.dict - {c.entries[id].key},
       w := c.w.(marked := c.w.marked - {id}, unlinked := c.w.unlinked + {id}))
  }

  function AfterDequeue(c: Cache, id: Id): Cache {
    c.(queue := Without(c.queue, id), size := c.size - 1, w := c.w.(unlinked := c.w.unlinked - {id}))
  }

  /** A deletion with nothing in between. */
  function AfterDelete(c: Cache, id: Id): Cache
    requires id in c.entries
  {
    AfterDequeue(AfterUnlink(AfterMark(c, id), id), id)
  }

  function AfterRele(c: Cache, r: Req): Cache
    requires r in c.held && c.held[r].id in c.entries
  {
    var id := c.held[r].id;
    var e := c.entries[id].(refcnt := c.entries[id].refcnt - 1);
    c.(held := c.held - {r},
       entries := if e.refcnt == 0 && e.state == Deleted then c.entries - {id} else c.entries[id := e])
  }

  // ---- what always holds --------------------------------------------------

  function Ids(held: map<Req, Hold>): map<Req, Id> {
    map r | r in held :: held[r].id
  }

  /** The requests that refer to an entry. */
  function Holders(held: map<Req, Hold>, id: Id): set<Req> {
    Preimage(Ids(held), id)
  }

  ghost predicate Sorted(q: seq<Id>) {
    forall i, j :: 0 <= i < j < |q| ==> q[i] < q[j]
  }

  ghost predicate Live(entries: map<Id, Entry>, id: Id) {
    id in entries && entries[id].state != Deleted
  }

  ghost predicate Tabled(entries: map<Id, Entry>, w: Windows, id: Id) {
    id in entries && (entries[id].state != Deleted || id in w.marked)
  }

  ghost predicate Queued(entries: map<Id, Entry>, w: Windows, id: Id) {
    id in entries && id !in w.retiring && (entries[id].state != Deleted || id in w.marked || id in w.unlinked)
  }

  /** The dictionary holds exactly the entries not deleted or only marked, each under its key. */
  ghost predicate DictAgrees(entries: map<Id, Entry>, w: Windows, dict: map<Key, Id>) {
    && (forall id :: Tabled(entries, w, id) ==> entries[id].key in dict && dict[entries[id].key] == id)
    && (forall k :: k in dict ==> Tabled(entries, w, dict[k]) && entries[dict[k]].key == k)
  }

  /** The queue holds its entries once each, in order of insertion; and `size` is its length. */
  ghost predicate QueueAgrees(entries: map<Id, Entry>, w: Windows, queue: seq<Id>, size: int) {
    && Sorted(queue) && |queue| == size
    && (forall id :: id in queue <==> Queued(entries, w, id))
  }

  /** Nobody refers to an entry that is about to be freed, and the one who deletes an entry still does. */
  ghost predicate WindowsAgree(entries: map<Id, Entry>, w: Windows, held: map<Req, Hold>) {
    && (forall id :: id in w.retiring ==> Live(entries, id) && entries[id].refcnt == 0)
    && (forall id :: id in w.marked + w.unlinked ==> id in entries && entries[id].state == Deleted && Owned(held, id))
    && w.marked !! w.unlinked
  }

  ghost predicate Owned(held: map<Req, Hold>, id: Id) {
    exists r :: r in held && held[r] == Owner(id)
  }

  /** Counts are exact, nobody refers to a freed entry, and a deleted one lasts while referred to. */
  ghost predicate CountsAgree(entries: map<Id, Entry>, held: map<Req, Hold>, next: Id) {
    && (forall id :: id in entries ==>
          && entries[id].refcnt == |Holders(held, id)| && id < next
          && (entries[id].state == Deleted ==> entries[id].refcnt > 0))
    && (forall r :: r in held ==> held[r].id in entries)
  }

  /** Only the request that created an entry sees it unfinished, and there is only one such request. */
  ghost predicate OneOwner(entries: map<Id, Entry>, held: map<Req, Hold>) {
    && (forall r :: r in held && held[r].Hit? && held[r].id in entries ==> entries[held[r].id].state != Start)
    && (forall r, s :: r in held && s in held && held[r].Owner? && held[s] == held[r] ==> r == s)
  }

  ghost predicate Inv(c: Cache) {
    && DictAgrees(c.entries, c.w, c.dict)
    && QueueAgrees(c.entries, c.w, c.queue, c.size)
    && CountsAgree(c.entries, c.held, c.next)
    && OneOwner(c.entries, c.held)
    && WindowsAgree(c.entries, c.w, c.held)
  }

  function Empty(maxsize: nat, hiwat: nat): Cache {
    Cache(map[], map[], [], 0, 0, 0, map[], Windows({}, {}, {}), maxsize, hiwat)
  }

  lemma EmptyInv(maxsize: nat, hiwat: nat)
    ensures Inv(Empty(maxsize, hiwat))
  {
  }

  lemma HoldersAfterAdd(held: map<Req, Hold>, r: Req, h: Hold, id: Id)
    requires r !in held
    ensures |Holders(held[r := h], id)| == |Holders(held, id)| + (if h.id == id then 1 else 0)
  {
    assert Ids(held[r := h]) == Ids(held)[r := h.id];
    PreimageAdd(Ids(held), r, h.id, id);
  }

  lemma HoldersAfterRemove(held: map<Req, Hold>, r: Req, id: Id)
    requires r in held
    ensures |Holders(held - {r}, id)| == |Holders(held, id)| - (if held[r].id == id then 1 else 0)
  {
    assert Ids(held - {r}) == Ids(held) - {r};
    PreimageRemove(Ids(held), r, id);
  }

  /** Dropping references and finishing entries cannot create a second owner. */
  lemma OwnerKept(entries: map<Id, Entry>, held: map<Req, Hold>, entries': map<Id, Entry>, held': map<Req, Hold>)
    requires OneOwner(entries, held)
    requires forall r :: r in held' ==> r in held && held'[r] == held[r]
    requires forall id :: id in entries' ==>
               id in entries && (entries'[id].state == Start ==> entries[id].state == Start)
    ensures OneOwner(entries', held')
  {
  }

  lemma HolderCounts(entries: map<Id, Entry>, held: map<Req, Hold>, next: Id, r: Req)
    requires CountsAgree(entries, held, next) && r in held
    ensures held[r].id in entries && entries[held[r].id].refcnt > 0
  {
    assert r in Holders(held, held[r].id);
    assert |Holders(held, held[r].id)| > 0;
  }

  lemma NobodyHolds(held: map<Req, Hold>, id: Id)
    requires |Holders(held, id)| <= 0
    ensures forall r :: r in held ==> held[r].id != id
  {
    assert Holders(held, id) == {};
    forall r | r in held ensures held[r].id != id {
      assert r !in Holders(held, id);
    }
  }

  // A new entry.

  lemma NewQueue(entries: map<Id, Entry>, w: Windows, queue: seq<Id>, size: int, next: Id, e: Entry)
    requires QueueAgrees(entries, w, queue, size) && next !in entries && next !in w.retiring && e.state != Deleted
    requires forall id :: id in entries ==> id < next
    ensures QueueAgrees(entries[next := e], w, queue + [next], size + 1)
  {
    var queue' := queue + [next];
    forall i, j | 0 <= i < j < |queue'| ensures queue'[i] < queue'[j] {
      assert queue[i] in queue;
    }
    forall id ensures id in queue' <==> Queued(entries[next := e], w, id) {
      assert id in queue <==> Queued(entries, w, id);
    }
  }

  lemma NewCounts(entries: map<Id, Entry>, held: map<Req, Hold>, next: Id, r: Req, e: Entry)
    requires CountsAgree(entries, held, next)
    requires r !in held && e.refcnt == 1 && e.state == Start
    ensures CountsAgree(entries[next := e], held[r := Owner(next)], next + 1)
  {
    assert Holders(held, next) == {};
    forall id | id in entries || id == next
      ensures |Holders(held[r := Owner(next)], id)| == |Holders(held, id)| + (if id == next then 1 else 0)
    {
      HoldersAfterAdd(held, r, Owner(next), id);
    }
  }

  lemma NewOwner(entries: map<Id, Entry>, held: map<Req, Hold>, next: Id, r: Req, e: Entry)
    requires CountsAgree(entries, held, next) && OneOwner(entries, held) && r !in held
    ensures OneOwner(entries[next := e], held[r := Owner(next)])
  {
  }

  lemma NewDict(entries: map<Id, Entry>, w: Windows, dict: map<Key, Id>, next: Id, e: Entry)
    requires DictAgrees(entries, w, dict) && next !in entries && e.key !in dict && e.state == Start
    ensures DictAgrees(entries[next := e], w, dict[e.key := next])
  {
    var entries' := entries[next := e];
    assert forall x :: x != next ==> (Tabled(entries', w, x) <==> Tabled(entries, w, x));
  }

  /** Windows stay right when another request joins and their entries do not change. */
  lemma MoreHeld(entries: map<Id, Entry>, entries': map<Id, Entry>, w: Windows, held: map<Req, Hold>, r: Req, h: Hold)
    requires WindowsAgree(entries, w, held) && r !in held
    requires forall id :: id in w.retiring + w.marked + w.unlinked && id in entries ==>
               id in entries' && entries'[id].state == entries[id].state
               && (id in w.retiring ==> entries'[id].refcnt == entries[id].refcnt)
    ensures WindowsAgree(entries', w, held[r := h])
  {
    forall id | id in w.marked + w.unlinked ensures Owned(held[r := h], id) {
      var o :| o in held && held[o] == Owner(id);
      assert held[r := h][o] == Owner(id);
    }
  }

  // Another reference to an entry.

  lemma HitCounts(entries: map<Id, Entry>, held: map<Req, Hold>, next: Id, r: Req, id: Id)
    requires CountsAgree(entries, held, next)
    requires r !in held && id in entries
    ensures var entries' := entries[id := entries[id].(refcnt := entries[id].refcnt + 1)];
      CountsAgree(entries', held[r := Hit(id)], next)
  {
    forall x | x in entries
      ensures |Holders(held[r := Hit(id)], x)| == |Holders(held, x)| + (if x == id then 1 else 0)
    {
      HoldersAfterAdd(held, r, Hit(id), x);
    }
  }

  lemma HitOwner(entries: map<Id, Entry>, held: map<Req, Hold>, r: Req, id: Id, e: Entry)
    requires OneOwner(entries, held) && r !in held && id in entries && e.state == entries[id].state != Start
    ensures OneOwner(entries[id := e], held[r := Hit(id)])
  {
  }

  /** Changes to an entry that keep its key and do not delete it are invisible to dictionary and queue. */
  lemma TouchAgrees(entries: map<Id, Entry>, w: Windows, dict: map<Key, Id>, queue: seq<Id>, size: int,
                    id: Id, e: Entry)
    requires DictAgrees(entries, w, dict) && QueueAgrees(entries, w, queue, size) && id in entries
    requires e.key == entries[id].key && (e.state == Deleted <==> entries[id].state == Deleted)
    ensures DictAgrees(entries[id := e], w, dict) && QueueAgrees(entries[id := e], w, queue, size)
  {
    var entries' := entries[id := e];
    assert forall x :: Tabled(entries', w, x) <==> Tabled(entries, w, x);
    assert forall x :: Queued(entries', w, x) <==> Queued(entries, w, x);
  }

  lemma HitWindows(entries: map<Id, Entry>, w: Windows, held: map<Req, Hold>, r: Req, id: Id, e: Entry)
    requires WindowsAgree(entries, w, held) && r !in held
    requires id in entries && id !in w.retiring && e.state == entries[id].state
    ensures WindowsAgree(entries[id := e], w, held[r := Hit(id)])
  {
    MoreHeld(entries, entries[id := e], w, held, r, Hit(id));
  }

  lemma NewInv(c: Cache, r: Req, k: Key, res: Res)
    requires Inv(c) && r !in c.held && k !in c.dict
    ensures Inv(AfterNew(c, r, k, res))
  {
    var e := Entry(k, Start, res, 1);
    NewDict(c.entries, c.w, c.dict, c.next, e);
    NewQueue(c.entries, c.w, c.queue, c.size, c.next, e);
    NewCounts(c.entries, c.held, c.next, r, e);
    NewOwner(c.entries, c.held, c.next, r, e);
    MoreHeld(c.entries, c.entries[c.next := e], c.w, c.held, r, Owner(c.next));
  }

  lemma HitInv(c: Cache, r: Req, id: Id)
    requires Inv(c) && r !in c.held && id in c.entries && c.entries[id].state != Start && id !in c.w.retiring
    ensures Inv(AfterHit(c, r, id))
  {
    var e := c.entries[id].(refcnt := c.entries[id].refcnt + 1);
    HitCounts(c.entries, c.held, c.next, r, id);
    HitOwner(c.entries, c.held, r, id, e);
    HitWindows(c.entries, c.w, c.held, r, id, e);
    TouchAgrees(c.entries, c.w, c.dict, c.queue, c.size, id, e);
  }

  /** The request finds an entry that is off the queue and about to be freed, and takes a reference to it. */
  ghost predicate HitsRetiring(c: Cache, k: Key) {
    k in c.dict && c.dict[k] in c.w.retiring && c.dict[k] in c.entries && c.entries[c.dict[k]].state != Start
  }

  lemma StartInv(c: Cache, r: Req, k: Key, res: Res)
    requires Inv(c) && r !in c.held && !HitsRetiring(c, k)
    ensures Inv(AfterStart(c, r, k, res))
  {
    match StartStatus(c, k)
    case BeingProcessed =>
    case Exists(_) => HitInv(c, r, c.dict[k]);
    case Success => NewInv(c, r, k, res);
  }

  /** A start keeps the cache right exactly if it does not take a reference to an entry about to be freed. */
  lemma StartInvIff(c: Cache, r: Req, k: Key, res: Res)
    requires Inv(c) && r !in c.held
    ensures Inv(AfterStart(c, r, k, res)) <==> !HitsRetiring(c, k)
  {
    if HitsRetiring(c, k) {
      var id := c.dict[k];
      var c' := AfterStart(c, r, k, res);
      assert c'.entries[id].refcnt == 1 && id in c'.w.retiring;
    } else {
      StartInv(c, r, k, res);
    }
  }

  // Completion and retirement.

  lemma CompleteInv(c: Cache, id: Id, res: Res)
    requires Inv(c) && Live(c.entries, id)
    ensures Inv(AfterComplete(c, id, res))
  {
    TouchAgrees(c.entries, c.w, c.dict, c.queue, c.size, id, c.entries[id].(res := res, state := Complete));
  }

  lemma FirstIsThere(entries: map<Id, Entry>, w: Windows, queue: seq<Id>, size: int)
    requires QueueAgrees(entries, w, queue, size)
    ensures queue != [] ==> queue[0] in entries
  {
    if queue != [] { assert queue[0] in queue; }
  }

  /** Nobody refers to the entry that is taken off the queue. */
  lemma FirstIsLive(c: Cache)
    requires Inv(c) && Retires(c)
    ensures Live(c.entries, c.queue[0]) && c.entries[c.queue[0]].refcnt == 0 && c.queue[0] !in c.w.retiring
  {
    var id := c.queue[0];
    assert id in c.queue;
    NobodyHolds(c.held, id);
  }

  lemma TakeOffQueue(entries: map<Id, Entry>, w: Windows, queue: seq<Id>, size: int)
    requires QueueAgrees(entries, w, queue, size) && queue != []
    ensures QueueAgrees(entries, w.(retiring := w.retiring + {queue[0]}), queue[1..], size - 1)
  {
    var w' := w.(retiring := w.retiring + {queue[0]});
    assert queue[0] !in queue[1..];
    forall id ensures id in queue[1..] <==> Queued(entries, w', id) {
      assert id in queue <==> id == queue[0] || id in queue[1..];
      assert id in queue <==> Queued(entries, w, id);
    }
  }

  lemma SameTabled(entries: map<Id, Entry>, w: Windows, w': Windows, dict: map<Key, Id>)
    requires DictAgrees(entries, w, dict) && w'.marked == w.marked
    ensures DictAgrees(entries, w', dict)
  {
    assert forall x :: Tabled(entries, w', x) <==> Tabled(entries, w, x);
  }

  lemma TakeOffInv(c: Cache)
    requires Inv(c)
    ensures Inv(AfterTakeOff(c))
  {
    if Retires(c) {
      FirstIsLive(c);
      TakeOffQueue(c.entries, c.w, c.queue, c.size);
      SameTabled(c.entries, c.w, c.w.(retiring := c.w.retiring + {c.queue[0]}), c.dict);
    }
  }

  lemma FreeTables(entries: map<Id, Entry>, w: Windows, dict: map<Key, Id>, queue: seq<Id>, size: int, id: Id)
    requires DictAgrees(entries, w, dict) && QueueAgrees(entries, w, queue, size)
    requires id in w.retiring && Live(entries, id)
    ensures var w' := w.(retiring := w.retiring - {id});
      && DictAgrees(entries - {id}, w', dict - {entries[id].key})
      && QueueAgrees(entries - {id}, w', queue, size)
  {
    var w' := w.(retiring := w.retiring - {id});
    var entries' := entries - {id};
    assert Tabled(entries, w, id);
    assert forall x :: Tabled(entries', w', x) <==> Tabled(entries, w, x) && x != id;
    assert forall x :: Queued(entries', w', x) <==> Queued(entries, w, x);
  }

  lemma FreeWindows(entries: map<Id, Entry>, w: Windows, held: map<Req, Hold>, id: Id)
    requires WindowsAgree(entries, w, held) && id in w.retiring
    ensures WindowsAgree(entries - {id}, w.(retiring := w.retiring - {id}), held)
  {
  }

  lemma FreeInv(c: Cache, id: Id)
    requires Inv(c) && id in c.w.retiring
    ensures Inv(AfterFree(c, id))
  {
    NobodyHolds(c.held, id);
    FreeTables(c.entries, c.w, c.dict, c.queue, c.size, id);
    FreeWindows(c.entries, c.w, c.held, id);
    OwnerKept(c.entries, c.held, c.entries - {id}, c.held);
  }

  /** Freeing takes no entry that a request still refers to. */
  lemma FreeKeepsHeld(c: Cache, id: Id, r: Req)
    requires Inv(c) && id in c.w.retiring && r in c.held
    ensures AfterFree(c, id).held == c.held && c.held[r].id in AfterFree(c, id).entries
  {
    NobodyHolds(c.held, id);
  }

  lemma RetireInv(c: Cache)
    requires Inv(c)
    ensures Inv(AfterRetire(c))
  {
    TakeOffInv(c);
    if Retires(c) { FreeInv(AfterTakeOff(c), c.queue[0]); }
  }

  /** Retirement never frees an entry that a request still refers to. */
  lemma RetireKeepsHeld(c: Cache, r: Req)
    requires Inv(c) && r in c.held
    ensures AfterRetire(c).held == c.held && c.held[r].id in AfterRetire(c).entries
  {
    TakeOffInv(c);
    if Retires(c) { FreeKeepsHeld(AfterTakeOff(c), c.queue[0], r); }
  }

  lemma FinishInv(c: Cache, id: Id, res: Res)
    requires Inv(c) && Live(c.entries, id)
    ensures Inv(AfterFinish(c, id, res))
  {
    CompleteInv(c, id, res);
    RetireInv(AfterComplete(c, id, res));
  }

  // Deletion.

  lemma {:induction false} WithoutSorted(q: seq<Id>, id: Id)
    requires Sorted(q)
    ensures Sorted(Without(q, id))
    ensures forall x :: x in Without(q, id) <==> x in q && x != id
    ensures id in q ==> |Without(q, id)| == |q| - 1
    decreases |q|
  {
    if q != [] {
      assert forall x :: x in q <==> x == q[0] || x in q[1..];
      if q[0] != id {
        var rest := Without(q[1..], id);
        WithoutSorted(q[1..], id);
        forall j | 0 <= j < |rest| ensures q[0] < rest[j] {
          assert rest[j] in q[1..];
        }
      }
    }
  }

  /** Marking an entry changes neither dictionary nor queue. */
  lemma MarkTables(entries: map<Id, Entry>, w: Windows, dict: map<Key, Id>, queue: seq<Id>, size: int, id: Id)
    requires DictAgrees(entries, w, dict) && QueueAgrees(entries, w, queue, size) && Live(entries, id)
    ensures var entries', w' := entries[id := entries[id].(state := Deleted)], w.(marked := w.marked + {id});
      DictAgrees(entries', w', dict) && QueueAgrees(entries', w', queue, size)
  {
    var entries', w' := entries[id := entries[id].(state := Deleted)], w.(marked := w.marked + {id});
    assert forall x :: Tabled(entries', w', x) <==> Tabled(entries, w, x);
    assert forall x :: Queued(entries', w', x) <==> Queued(entries, w, x);
  }

  lemma MarkWindows(entries: map<Id, Entry>, w: Windows, held: map<Req, Hold>, r: Req)
    requires WindowsAgree(entries, w, held) && r in held && held[r].Owner? && Live(entries, held[r].id)
    requires held[r].id !in w.retiring
    ensures var id := held[r].id;
      WindowsAgree(entries[id := entries[id].(state := Deleted)], w.(marked := w.marked + {id}), held)
  {
  }

  lemma MarkInv(c: Cache, r: Req)
    requires Inv(c) && r in c.held && c.held[r].Owner? && Live(c.entries, c.held[r].id)
    ensures Inv(AfterMark(c, c.held[r].id))
  {
    var id := c.held[r].id;
    HolderCounts(c.entries, c.held, c.next, r);
    MarkTables(c.entries, c.w, c.dict, c.queue, c.size, id);
    MarkWindows(c.entries, c.w, c.held, r);
    OwnerKept(c.entries, c.held, c.entries[id := c.entries[id].(state := Deleted)], c.held);
  }

  lemma UnlinkTables(entries: map<Id, Entry>, w: Windows, dict: map<Key, Id>, queue: seq<Id>, size: int, id: Id)
    requires DictAgrees(entries, w, dict) && QueueAgrees(entries, w, queue, size)
    requires id in w.marked && id in entries && entries[id].state == Deleted
    ensures var w' := w.(marked := w.marked - {id}, unlinked := w.unlinked + {id});
      DictAgrees(entries, w', dict - {entries[id].key}) && QueueAgrees(entries, w', queue, size)
  {
    var w' := w.(marked := w.marked - {id}, unlinked := w.unlinked + {id});
    assert Tabled(entries, w, id);
    assert forall x :: Tabled(entries, w', x) <==> Tabled(entries, w, x) && x != id;
    assert forall x :: Queued(entries, w', x) <==> Queued(entries, w, x);
  }

  lemma UnlinkWindows(entries: map<Id, Entry>, w: Windows, held: map<Req, Hold>, id: Id)
    requires WindowsAgree(entries, w, held) && id in w.marked
    ensures WindowsAgree(entries, w.(marked := w.marked - {id}, unlinked := w.unlinked + {id}), held)
  {
  }

  lemma UnlinkInv(c: Cache, id: Id)
    requires Inv(c) && id in c.w.marked
    ensures Inv(AfterUnlink(c, id))
  {
    assert WindowsAgree(c.entries, AfterUnlink(c, id).w, c.held) by {
      UnlinkWindows(c.entries, c.w, c.held, id);
    }
    UnlinkTables(c.entries, c.w, c.dict, c.queue, c.size, id);
  }

  lemma DequeueTables(entries: map<Id, Entry>, w: Windows, dict: map<Key, Id>, queue: seq<Id>, size: int, id: Id)
    requires DictAgrees(entries, w, dict) && QueueAgrees(entries, w, queue, size)
    requires id in w.unlinked && id !in w.marked && id !in w.retiring && id in entries && entries[id].state == Deleted
    ensures var w' := w.(unlinked := w.unlinked - {id});
      DictAgrees(entries, w', dict) && QueueAgrees(entries, w', Without(queue, id), size - 1)
  {
    var w' := w.(unlinked := w.unlinked - {id});
    WithoutSorted(queue, id);
    assert Queued(entries, w, id);
    assert forall x :: Tabled(entries, w', x) <==> Tabled(entries, w, x);
    assert forall x :: Queued(entries, w', x) <==> Queued(entries, w, x) && x != id;
  }

  lemma DequeueInv(c: Cache, id: Id)
    requires Inv(c) && id in c.w.unlinked
    ensures Inv(AfterDequeue(c, id))
  {
    DequeueTables(c.entries, c.w, c.dict, c.queue, c.size, id);
  }

  lemma DeleteInv(c: Cache, r: Req)
    requires Inv(c) && r in c.held && c.held[r].Owner? && Live(c.entries, c.held[r].id)
    ensures Inv(AfterDelete(c, c.held[r].id))
  {
    var id := c.held[r].id;
    MarkInv(c, r);
    UnlinkInv(AfterMark(c, id), id);
    DequeueInv(AfterUnlink(AfterMark(c, id), id), id);
  }

  // Release.

  lemma OneHolderLess(held: map<Req, Hold>, r: Req)
    requires r in held
    ensures forall x :: |Holders(held - {r}, x)| == |Holders(held, x)| - (if x == held[r].id then 1 else 0)
  {
    forall x ensures |Holders(held - {r}, x)| == |Holders(held, x)| - (if x == held[r].id then 1 else 0) {
      HoldersAfterRemove(held, r, x);
    }
  }

  lemma ReleKeptCounts(entries: map<Id, Entry>, held: map<Req, Hold>, next: Id, r: Req, e: Entry)
    requires CountsAgree(entries, held, next) && r in held
    requires e == entries[held[r].id].(refcnt := entries[held[r].id].refcnt - 1)
    requires !(e.refcnt == 0 && e.state == Deleted)
    ensures CountsAgree(entries[held[r].id := e], held - {r}, next)
  {
    OneHolderLess(held, r);
  }

  lemma ReleFreedCounts(entries: map<Id, Entry>, held: map<Req, Hold>, next: Id, r: Req)
    requires CountsAgree(entries, held, next) && r in held && entries[held[r].id].refcnt == 1
    ensures CountsAgree(entries - {held[r].id}, held - {r}, next)
  {
    OneHolderLess(held, r);
    NobodyHolds(held - {r}, held[r].id);
  }

  lemma FreedAgrees(entries: map<Id, Entry>, w: Windows, dict: map<Key, Id>, queue: seq<Id>, size: int, id: Id)
    requires DictAgrees(entries, w, dict) && QueueAgrees(entries, w, queue, size)
    requires id in entries && entries[id].state == Deleted && id !in w.marked && id !in w.unlinked
    ensures DictAgrees(entries - {id}, w, dict) && QueueAgrees(entries - {id}, w, queue, size)
  {
    assert forall x :: Tabled(entries - {id}, w, x) <==> Tabled(entries, w, x);
    assert forall x :: Queued(entries - {id}, w, x) <==> Queued(entries, w, x);
  }

  lemma ReleOwner(entries: map<Id, Entry>, held: map<Req, Hold>, r: Req, id: Id, e: Entry)
    requires OneOwner(entries, held) && id in entries && e.state == entries[id].state
    ensures OneOwner(entries - {id}, held - {r}) && OneOwner(entries[id := e], held - {r})
  {
    OwnerKept(entries, held, entries - {id}, held - {r});
    OwnerKept(entries, held, entries[id := e], held - {r});
  }

  /** The one who is deleting an entry does not let go of it before it is done. */
  ghost predicate MayRele(c: Cache, r: Req) {
    r in c.held && !(c.held[r].Owner? && c.held[r].id in c.w.marked + c.w.unlinked)
  }

  lemma StillOwned(held: map<Req, Hold>, r: Req, id: Id)
    requires Owned(held, id) && r in held && held[r] != Owner(id)
    ensures Owned(held - {r}, id) && |Holders(held - {r}, id)| > 0
  {
    var o :| o in held && held[o] == Owner(id);
    assert (held - {r})[o] == Owner(id);
    assert o in Holders(held - {r}, id);
  }

  /** Dropping a reference to an entry leaves the windows right; so does freeing an entry that is in none. */
  lemma ReleWindows(entries: map<Id, Entry>, w: Windows, held: map<Req, Hold>, r: Req, e: Entry)
    requires WindowsAgree(entries, w, held) && r in held && held[r].id !in w.retiring
    requires held[r].id in entries && e.state == entries[held[r].id].state
    requires forall id :: id in w.marked + w.unlinked ==> held[r] != Owner(id)
    ensures WindowsAgree(entries[held[r].id := e], w, held - {r})
    ensures held[r].id !in w.marked + w.unlinked ==> WindowsAgree(entries - {held[r].id}, w, held - {r})
  {
    forall id | id in w.marked + w.unlinked ensures Owned(held - {r}, id) {
      StillOwned(held, r, id);
    }
  }

  /** The last reference to a deleted entry is not dropped before its deletion is done. */
  lemma LastIsDone(entries: map<Id, Entry>, w: Windows, held: map<Req, Hold>, next: Id, r: Req)
    requires CountsAgree(entries, held, next) && WindowsAgree(entries, w, held) && r in held
    requires forall id :: id in w.marked + w.unlinked ==> held[r] != Owner(id)
    requires held[r].id in entries && entries[held[r].id].refcnt == 1
    ensures held[r].id !in w.marked + w.unlinked
  {
    var id := held[r].id;
    if id in w.marked + w.unlinked {
      StillOwned(held, r, id);
      HoldersAfterRemove(held, r, id);
      assert false;
    }
  }

  lemma ReleInv(c: Cache, r: Req)
    requires Inv(c) && MayRele(c, r)
    ensures Inv(AfterRele(c, r))
  {
    var id := c.held[r].id;
    HolderCounts(c.entries, c.held, c.next, r);
    var e := c.entries[id].(refcnt := c.entries[id].refcnt - 1);
    ReleOwner(c.entries, c.held, r, id, e);
    ReleWindows(c.entries, c.w, c.held, r, e);
    if e.state == Deleted && e.refcnt == 0 {
      ReleFreedCounts(c.entries, c.held, c.next, r);
      LastIsDone(c.entries, c.w, c.held, c.next, r);
      FreedAgrees(c.entries, c.w, c.dict, c.queue, c.size, id);
    } else {
      ReleKeptCounts(c.entries, c.held, c.next, r, e);
      TouchAgrees(c.entries, c.w, c.dict, c.queue, c.size, id, e);
    }
  }

  // ---- the operations in place --------------------------------------------

  class Drc {
    var entries: map<Id, Entry>
    var dict: map<Key, Id>
    var queue: seq<Id>
    var size: int
    var retwnd: nat
    var next: Id
    var held: map<Req, Hold>
    ghost var w: Windows
    const maxsize: nat
    const hiwat: nat

    ghost function State(): Cache
      reads this
    {
      Cache(entries, dict, queue, size, retwnd, next, held, w, maxsize, hiwat)
    }

    constructor (maxsize: nat, hiwat: nat)
      ensures State() == Empty(maxsize, hiwat) && Inv(State())
    {
      entries, dict, queue, size, retwnd, next, held := map[], map[], [], 0, 0, 0, map[];
      w := Windows({}, {}, {});
      this.maxsize, this.hiwat := maxsize, hiwat;
    }

    /** The branch of nfs_dupreq_start for an entry found complete. */
    method TakeHit(r: Req, id: Id)
      requires id in entries
      modifies this
      ensures State() == AfterHit(old(State()), r, id)
    {
      retwnd := IncRetwnd(retwnd);
      entries := entries[id := entries[id].(refcnt := entries[id].refcnt + 1)];
      held := held[r := Hit(id)];
    }

    /** Its branch for a key not in the dictionary. */
    method AddNew(r: Req, k: Key, buffer: Res)
      modifies this
      ensures State() == AfterNew(old(State()), r, k, buffer)
    {
      dict := dict[k := next];
      entries := entries[next := Entry(k, Start, buffer, 1)];
      queue := queue + [next];
      size := size + 1;
      held := held[r := Owner(next)];
      next := next + 1;
    }

    /** nfs_dupreq_start for a cacheable request; `buffer` is the result buffer of a new request. */
    method StartRequest(r: Req, k: Key, buffer: Res) returns (status: Status)
      requires Inv(State()) && r !in held
      modifies this
      ensures status == StartStatus(old(State()), k)
      ensures State() == AfterStart(old(State()), r, k, buffer)
      ensures Inv(State()) <==> !HitsRetiring(old(State()), k)
    {
      StartInvIff(State(), r, k, buffer);
      if k in dict {
        var dv := entries[dict[k]];
        if dv.state == Start {
          status := BeingProcessed;
        } else {
          status := Exists(dv.res);
          TakeHit(r, dict[k]);
        }
      } else {
        status := Success;
        AddNew(r, k, buffer);
      }
    }

    /** The part of nfs_dupreq_finish under the lock of the entry. */
    method CompleteRequest(r: Req, res: Res)
      requires Inv(State()) && r in held && Live(entries, held[r].id)
      modifies this
      ensures State() == AfterComplete(old(State()), old(held[r].id), res)
      ensures Inv(State())
    {
      CompleteInv(State(), held[r].id, res);
      entries := entries[held[r].id := entries[held[r].id].(res := res, state := Complete)];
    }

    method TakeFirst() returns (first: Option<Id>)
      requires queue != [] ==> queue[0] in entries
      modifies this
      ensures State() == AfterTakeOff(old(State()))
      ensures first == if old(Retires(State())) then Some(old(queue[0])) else None
    {
      first := None;
      if (size > maxsize || (retwnd == 0 && size > hiwat)) && queue != [] {
        var ov := queue[0];
        retwnd := DecRetwnd(retwnd);
        if entries[ov].refcnt <= 0 {
          queue := queue[1..];
          size := size - 1;
          w := w.(retiring := w.retiring + {ov});
          first := Some(ov);
        }
      }
    }

    /** The part under the lock of the cache: the oldest entry leaves the queue, if it is time. */
    method TakeOff() returns (first: Option<Id>)
      requires Inv(State())
      modifies this
      ensures State() == AfterTakeOff(old(State()))
      ensures Inv(State())
      ensures first == if old(Retires(State())) then Some(old(queue[0])) else None
    {
      TakeOffInv(State());
      FirstIsThere(entries, w, queue, size);
      first := TakeFirst();
    }

    /** The part under the lock of the dictionary, and the end of the entry. */
    method FreeRetired(id: Id)
      requires Inv(State()) && id in w.retiring
      modifies this
      ensures State() == AfterFree(old(State()), id)
      ensures Inv(State())
    {
      FreeInv(State(), id);
      dict := dict - {entries[id].key};
      entries := entries - {id};
      w := w.(retiring := w.retiring - {id});
    }

    /** nfs_dupreq_finish when nothing happens between its locks. */
    method FinishRequest(r: Req, res: Res)
      requires Inv(State()) && r in held && Live(entries, held[r].id)
      modifies this
      ensures State() == AfterFinish(old(State()), old(held[r].id), res)
      ensures Inv(State())
    {
      CompleteRequest(r, res);
      var first := TakeOff();
      if first.Some? {
        FreeRetired(first.value);
      }
    }

    /** The part of nfs_dupreq_delete under the lock of the entry. */
    method MarkDeleted(r: Req)
      requires Inv(State()) && r in held && held[r].Owner? && Live(entries, held[r].id)
      modifies this
      ensures State() == AfterMark(old(State()), old(held[r].id))
      ensures Inv(State())
    {
      MarkInv(State(), r);
      var id := held[r].id;
      entries := entries[id := entries[id].(state := Deleted)];
      w := w.(marked := w.marked + {id});
    }

    /** The part under the lock of the dictionary. */
    method Unlink(id: Id)
      requires Inv(State()) && id in w.marked
      modifies this
      ensures State() == AfterUnlink(old(State()), id)
      ensures Inv(State())
    {
      UnlinkInv(State(), id);
      dict := dict - {entries[id].key};
      w := w.(marked := w.marked - {id}, unlinked := w.unlinked + {id});
    }

    /** The part under the lock of the cache. */
    method Dequeue(id: Id)
      requires Inv(State()) && id in w.unlinked
      modifies this
      ensures State() == AfterDequeue(old(State()), id)
      ensures Inv(State())
    {
      DequeueInv(State(), id);
      queue := Without(queue, id);
      size := size - 1;
      w := w.(unlinked := w.unlinked - {id});
    }

    /** nfs_dupreq_delete when nothing happens between its locks. */
    method DeleteRequest(r: Req)
      requires Inv(State()) && r in held && held[r].Owner? && Live(entries, held[r].id)
      modifies this
      ensures State() == AfterDelete(old(State()), old(held[r].id))
      ensures Inv(State())
    {
      MarkDeleted(r);
      Unlink(held[r].id);
      Dequeue(held[r].id);
    }

    /** nfs_dupreq_rele: drop the reference; a deleted entry goes with its last one. */
    method Rele(r: Req)
      requires Inv(State()) && MayRele(State(), r)
      modifies this
      ensures State() == AfterRele(old(State()), r)
      ensures Inv(State())
    {
      ReleInv(State(), r);
      var id := held[r].id;
      held := held - {r};
      var dv := entries[id].(refcnt := entries[id].refcnt - 1);
      if dv.refcnt == 0 && dv.state == Deleted {
        entries := entries - {id};
      } else {
        entries := entries[id := dv];
      }
    }
  }
}
