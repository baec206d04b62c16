/**
 What the duplicate request cache guarantees over whole runs: a request is executed at
 most once until it is forgotten, duplicates get the stored result, and the cache stays
 within its marks.
 */
module DupreqRuns {
  import opened Dupreq

  // ---- runs ---------------------------------------------------------------

  /**
   What is done under one lock.  A finish is DoComplete, DoTakeOff and DoFree; a delete is
   DoMark, DoUnlink and DoDequeue.
   */
  datatype Op =
    | DoStart(r: Req, k: Key, res: Res)
    | DoComplete(r: Req, res: Res)
    | DoTakeOff
    | DoFree(id: Id)
    | DoMark(r: Req)
    | DoUnlink(id: Id)
    | DoDequeue(id: Id)
    | DoRele(r: Req)

  /** What nfs_rpc_execute keeps to: a request is finished or deleted at most once, and only if it was new. */
  ghost predicate Can(c: Cache, op: Op) {
    match op
    case DoStart(r, k, res) => r !in c.held && (k in c.dict ==> c.dict[k] in c.entries)
    case DoComplete(r, res) =>
      r in c.held && c.held[r].Owner? && c.held[r].id in c.entries && c.entries[c.held[r].id].state == Start
    case DoTakeOff => true
    case DoFree(id) => id in c.w.retiring && id in c.entries
    case DoMark(r) => r in c.held && c.held[r].Owner? && Live(c.entries, c.held[r].id)
    case DoUnlink(id) => id in c.w.marked && id in c.entries
    case DoDequeue(id) => id in c.w.unlinked
    case DoRele(r) => MayRele(c, r) && c.held[r].id in c.entries
  }

  ghost function Next(c: Cache, op: Op): Cache
    requires Can(c, op)
  {
    match op
    case DoStart(r, k, res) => AfterStart(c, r, k, res)
    case DoComplete(r, res) => AfterComplete(c, c.held[r].id, res)
    case DoTakeOff => AfterTakeOff(c)
    case DoFree(id) => AfterFree(c, id)
    case DoMark(r) => AfterMark(c, c.held[r].id)
    case DoUnlink(id) => AfterUnlink(c, id)
    case DoDequeue(id) => AfterDequeue(c, id)
    case DoRele(r) => AfterRele(c, r)
  }

  /** A request takes a reference to an entry between the two locks of its retirement. */
  ghost predicate Dangles(c: Cache, op: Op) {
    op.DoStart? && HitsRetiring(c, op.k)
  }

  lemma NextInv(c: Cache, op: Op)
    requires Inv(c) && Can(c, op) && !Dangles(c, op)
    ensures Inv(Next(c, op))
  {
    match op
    case DoStart(r, k, res) => StartInv(c, r, k, res);
    case DoComplete(r, res) => CompleteInv(c, c.held[r].id, res);
    case DoTakeOff => TakeOffInv(c);
    case DoFree(id) => FreeInv(c, id);
    case DoMark(r) => MarkInv(c, r);
    case DoUnlink(id) => UnlinkInv(c, id);
    case DoDequeue(id) => DequeueInv(c, id);
    case DoRele(r) => ReleInv(c, r);
  }

  ghost predicate CanRun(c: Cache, ops: seq<Op>)
    decreases |ops|
  {
    ops == [] || (Can(c, ops[0]) && CanRun(Next(c, ops[0]), ops[1..]))
  }

  ghost function Run(c: Cache, ops: seq<Op>): Cache
    requires CanRun(c, ops)
    decreases |ops|
  {
    if ops == [] then c else Run(Next(c, ops[0]), ops[1..])
  }

  ghost predicate NeverDangles(c: Cache, ops: seq<Op>)
    requires CanRun(c, ops)
    decreases |ops|
  {
    ops == [] || (!Dangles(c, ops[0]) && NeverDangles(Next(c, ops[0]), ops[1..]))
  }

  ghost predicate AlwaysInv(c: Cache, ops: seq<Op>)
    requires CanRun(c, ops)
    decreases |ops|
  {
    Inv(c) && (ops == [] || AlwaysInv(Next(c, ops[0]), ops[1..]))
  }

  /** In such runs the invariant holds, so no count is wrong and no entry in use is freed. */
  lemma {:induction false} RunInv(c: Cache, ops: seq<Op>)
    requires Inv(c) && CanRun(c, ops) && NeverDangles(c, ops)
    ensures Inv(Run(c, ops))
    decreases |ops|
  {
    if ops != [] {
      NextInv(c, ops[0]);
      RunInv(Next(c, ops[0]), ops[1..]);
    }
  }

  /** And in no others: the cache is right all along exactly if no request takes such a reference. */
  lemma {:induction false} RunInvIff(c: Cache, ops: seq<Op>)
    requires Inv(c) && CanRun(c, ops)
    ensures AlwaysInv(c, ops) <==> NeverDangles(c, ops)
    decreases |ops|
  {
    if ops != [] {
      if Dangles(c, ops[0]) {
        StartInvIff(c, ops[0].r, ops[0].k, ops[0].res);
      } else {
        NextInv(c, ops[0]);
        RunInvIff(Next(c, ops[0]), ops[1..]);
      }
    }
  }

  // ---- at most once -------------------------------------------------------

  /** What callers can observe about a key. */
  datatype Event = Started(key: Key, status: Status) | Finished(key: Key, res: Res) | Forgotten(key: Key)

  /** The life of one key: idle, executing, done with a result. */
  datatype Phase = Idle | Executing | Done(res: Res) | Broken

  function PhaseAfter(p: Phase, e: Event): Phase {
    match (p, e)
    case (Idle, Started(_, Success)) => Executing
    case (Executing, Started(_, BeingProcessed)) => Executing
    case (Executing, Finished(_, res)) => Done(res)
    case (Done(res), Started(_, Exists(again))) => if again == res then p else Broken
    case (Executing, Forgotten(_)) => Idle
    case (Done(_), Forgotten(_)) => Idle
    case _ => Broken
  }

  /** The life of key `k` through a log of events. */
  function Follow(p: Phase, log: seq<Event>, k: Key): Phase
    decreases |log|
  {
    if log == [] then p
    else Follow(if log[0].key == k then PhaseAfter(p, log[0]) else p, log[1..], k)
  }

  function PhaseIn(entries: map<Id, Entry>, dict: map<Key, Id>, doomed: set<Id>, k: Key): Phase {
    if k !in dict || dict[k] !in entries || dict[k] in doomed then Idle
    else if entries[dict[k]].state == Start then Executing
    else Done(entries[dict[k]].res)
  }

  /** Entries still in the dictionary that are being retired or deleted. */
  function Doomed(c: Cache): set<Id> {
    c.w.retiring + c.w.marked
  }

  function PhaseOf(c: Cache, k: Key): Phase {
    PhaseIn(c.entries, c.dict, Doomed(c), k)
  }

  ghost function Log(c: Cache, op: Op): seq<Event>
    requires Can(c, op)
  {
    match op
    case DoStart(r, k, res) => [Started(k, StartStatus(c, k))]
    case DoComplete(r, res) => [Finished(c.entries[c.held[r].id].key, res)]
    case DoTakeOff => if Retires(c) then [Forgotten(c.entries[c.queue[0]].key)] else []
    case DoMark(r) => [Forgotten(c.entries[c.held[r].id].key)]
    case _ => []
  }

  /** The operation is no start of `k` that finds its entry being retired or deleted. */
  ghost predicate Quiet(c: Cache, op: Op, k: Key) {
    op.DoStart? && op.k == k ==> !(k in c.dict && c.dict[k] in Doomed(c))
  }

  /** An entry found in the dictionary is doomed from here on: the life of its key ends, and no other. */
  lemma DoomPhase(entries: map<Id, Entry>, w: Windows, dict: map<Key, Id>, doomed: set<Id>, id: Id, k: Key)
    requires DictAgrees(entries, w, dict) && Live(entries, id) && id !in doomed
    ensures var key := entries[id].key; var p := PhaseIn(entries, dict, doomed, k);
      && PhaseIn(entries, dict, doomed + {id}, k) == (if k == key then PhaseAfter(p, Forgotten(k)) else p)
      && PhaseIn(entries[id := entries[id].(state := Deleted)], dict, doomed + {id}, k)
         == (if k == key then PhaseAfter(p, Forgotten(k)) else p)
  {
    assert Tabled(entries, w, id);
  }

  /** Taking a doomed entry out of the dictionary changes no life, whether it is freed or stays. */
  lemma RemovePhase(entries: map<Id, Entry>, w: Windows, dict: map<Key, Id>, doomed: set<Id>, id: Id, k: Key)
    requires DictAgrees(entries, w, dict) && id in doomed && Tabled(entries, w, id)
    ensures var key := entries[id].key; var p := PhaseIn(entries, dict, doomed, k);
      && PhaseIn(entries - {id}, dict - {key}, doomed - {id}, k) == p
      && PhaseIn(entries, dict - {key}, doomed - {id}, k) == p
  {
  }

  lemma CompletePhase(c: Cache, r: Req, res: Res, k: Key)
    requires Inv(c) && Can(c, DoComplete(r, res))
    ensures var key := c.entries[c.held[r].id].key;
      PhaseOf(AfterComplete(c, c.held[r].id, res), k)
      == if k == key then PhaseAfter(PhaseOf(c, k), Finished(k, res)) else PhaseOf(c, k)
  {
    HolderCounts(c.entries, c.held, c.next, r);
    assert Tabled(c.entries, c.w, c.held[r].id);
  }

  lemma TakeOffPhase(c: Cache, k: Key)
    requires Inv(c)
    ensures PhaseOf(AfterTakeOff(c), k) ==
            if Retires(c) && k == c.entries[c.queue[0]].key then PhaseAfter(PhaseOf(c, k), Forgotten(k))
            else PhaseOf(c, k)
  {
    if Retires(c) {
      FirstIsLive(c);
      DoomPhase(c.entries, c.w, c.dict, Doomed(c), c.queue[0], k);
      assert Doomed(AfterTakeOff(c)) == Doomed(c) + {c.queue[0]};
    }
  }

  lemma FreePhase(c: Cache, id: Id, k: Key)
    requires Inv(c) && Can(c, DoFree(id))
    ensures PhaseOf(AfterFree(c, id), k) == PhaseOf(c, k)
  {
    RemovePhase(c.entries, c.w, c.dict, Doomed(c), id, k);
    assert Doomed(AfterFree(c, id)) == Doomed(c) - {id};
  }

  lemma MarkPhase(c: Cache, r: Req, k: Key)
    requires Inv(c) && Can(c, DoMark(r))
    ensures var id := c.held[r].id;
      PhaseOf(AfterMark(c, id), k) ==
      if k == c.entries[id].key then PhaseAfter(PhaseOf(c, k), Forgotten(k)) else PhaseOf(c, k)
  {
    var id := c.held[r].id;
    HolderCounts(c.entries, c.held, c.next, r);
    DoomPhase(c.entries, c.w, c.dict, Doomed(c), id, k);
    assert Doomed(AfterMark(c, id)) == Doomed(c) + {id};
  }

  lemma UnlinkPhase(c: Cache, id: Id, k: Key)
    requires DictAgrees(c.entries, c.w, c.dict) && Can(c, DoUnlink(id)) && id !in c.w.retiring
    ensures PhaseOf(AfterUnlink(c, id), k) == PhaseOf(c, k)
  {
    RemovePhase(c.entries, c.w, c.dict, Doomed(c), id, k);
    assert Doomed(AfterUnlink(c, id)) == Doomed(c) - {id};
  }

  lemma StartPhase(c: Cache, r: Req, key: Key, res: Res, k: Key)
    requires DictAgrees(c.entries, c.w, c.dict) && c.next !in c.entries && c.next !in Doomed(c)
    requires Quiet(c, DoStart(r, key, res), k)
    ensures PhaseOf(AfterStart(c, r, key, res), k) ==
            if k == key then PhaseAfter(PhaseOf(c, k), Started(k, StartStatus(c, k))) else PhaseOf(c, k)
  {
    if k in c.dict { assert Tabled(c.entries, c.w, c.dict[k]); }
  }

  lemma RelePhase(c: Cache, r: Req, k: Key)
    requires DictAgrees(c.entries, c.w, c.dict) && r in c.held && c.held[r].id in c.entries
    requires c.entries[c.held[r].id].refcnt == 1 ==> c.held[r].id !in c.w.marked
    ensures PhaseOf(AfterRele(c, r), k) == PhaseOf(c, k)
  {
    if k in c.dict { assert Tabled(c.entries, c.w, c.dict[k]); }
  }

  lemma FollowOne(p: Phase, e: Event, k: Key)
    ensures Follow(p, [e], k) == if e.key == k then PhaseAfter(p, e) else p
  {
    assert [e][1..] == [];
  }

  lemma StartFollows(c: Cache, r: Req, key: Key, res: Res, k: Key)
    requires Inv(c) && Can(c, DoStart(r, key, res))
    ensures var op := DoStart(r, key, res);
      if Quiet(c, op, k) then Follow(PhaseOf(c, k), Log(c, op), k) == PhaseOf(Next(c, op), k)
      else Follow(PhaseOf(c, k), Log(c, op), k) == Broken
  {
    FollowOne(PhaseOf(c, k), Started(key, StartStatus(c, key)), k);
    if Quiet(c, DoStart(r, key, res), k) { StartPhase(c, r, key, res, k); }
  }

  lemma CompleteFollows(c: Cache, r: Req, res: Res, k: Key)
    requires Inv(c) && Can(c, DoComplete(r, res))
    ensures var op := DoComplete(r, res);
      Follow(PhaseOf(c, k), Log(c, op), k) == PhaseOf(Next(c, op), k)
  {
    CompletePhase(c, r, res, k);
    FollowOne(PhaseOf(c, k), Finished(c.entries[c.held[r].id].key, res), k);
  }

  lemma TakeOffFollows(c: Cache, k: Key)
    requires Inv(c)
    ensures Follow(PhaseOf(c, k), Log(c, DoTakeOff), k) == PhaseOf(AfterTakeOff(c), k)
  {
    TakeOffPhase(c, k);
    if Retires(c) { FollowOne(PhaseOf(c, k), Forgotten(c.entries[c.queue[0]].key), k); }
  }

  lemma MarkFollows(c: Cache, r: Req, k: Key)
    requires Inv(c) && Can(c, DoMark(r))
    ensures Follow(PhaseOf(c, k), Log(c, DoMark(r)), k) == PhaseOf(Next(c, DoMark(r)), k)
  {
    MarkPhase(c, r, k);
    FollowOne(PhaseOf(c, k), Forgotten(c.entries[c.held[r].id].key), k);
  }

  lemma ReleFollows(c: Cache, r: Req, k: Key)
    requires Inv(c) && Can(c, DoRele(r))
    ensures PhaseOf(AfterRele(c, r), k) == PhaseOf(c, k)
  {
    if c.entries[c.held[r].id].refcnt == 1 { LastIsDone(c.entries, c.w, c.held, c.next, r); }
    RelePhase(c, r, k);
  }

  /** An operation moves every key along its life; only a start that finds a doomed entry breaks out of it. */
  lemma StepFollows(c: Cache, op: Op, k: Key)
    requires Inv(c) && Can(c, op)
    ensures if Quiet(c, op, k) then Follow(PhaseOf(c, k), Log(c, op), k) == PhaseOf(Next(c, op), k)
            else Follow(PhaseOf(c, k), Log(c, op), k) == Broken
  {
    match op
    case DoStart(r, key, res) => StartFollows(c, r, key, res, k);
    case DoComplete(r, res) => CompleteFollows(c, r, res, k);
    case DoTakeOff => TakeOffFollows(c, k);
    case DoFree(id) => FreePhase(c, id, k);
    case DoMark(r) => MarkFollows(c, r, k);
    case DoUnlink(id) => UnlinkPhase(c, id, k);
    case DoDequeue(id) => assert PhaseOf(AfterDequeue(c, id), k) == PhaseOf(c, k);
    case DoRele(r) => ReleFollows(c, r, k);
  }

  ghost function RunLog(c: Cache, ops: seq<Op>): seq<Event>
    requires CanRun(c, ops)
    decreases |ops|
  {
    if ops == [] then [] else Log(c, ops[0]) + RunLog(Next(c, ops[0]), ops[1..])
  }

  ghost predicate QuietRun(c: Cache, ops: seq<Op>, k: Key)
    requires CanRun(c, ops)
    decreases |ops|
  {
    ops == [] || (Quiet(c, ops[0], k) && QuietRun(Next(c, ops[0]), ops[1..], k))
  }

  lemma {:induction false} FollowAppend(p: Phase, a: seq<Event>, b: seq<Event>, k: Key)
    ensures Follow(p, a + b, k) == Follow(Follow(p, a, k), b, k)
    decreases |a|
  {
    if a == [] {
      assert a + b == b;
    } else {
      assert (a + b)[1..] == a[1..] + b;
      FollowAppend(if a[0].key == k then PhaseAfter(p, a[0]) else p, a[1..], b, k);
    }
  }

  lemma {:induction false} BrokenForever(log: seq<Event>, k: Key)
    ensures Follow(Broken, log, k) == Broken
    decreases |log|
  {
    if log != [] { BrokenForever(log[1..], k); }
  }

  /** Every key lives by the rules from beginning to end exactly if no start finds its entry doomed. */
  lemma {:induction false} RunFollows(c: Cache, ops: seq<Op>, k: Key)
    requires Inv(c) && CanRun(c, ops) && NeverDangles(c, ops)
    ensures if QuietRun(c, ops, k) then Follow(PhaseOf(c, k), RunLog(c, ops), k) == PhaseOf(Run(c, ops), k) != Broken
            else Follow(PhaseOf(c, k), RunLog(c, ops), k) == Broken
    decreases |ops|
  {
    if ops != [] {
      var rest := RunLog(Next(c, ops[0]), ops[1..]);
      StepFollows(c, ops[0], k);
      FollowAppend(PhaseOf(c, k), Log(c, ops[0]), rest, k);
      if Quiet(c, ops[0], k) {
        NextInv(c, ops[0]);
        RunFollows(Next(c, ops[0]), ops[1..], k);
      } else {
        BrokenForever(rest, k);
      }
    }
  }

  lemma PrefixNotBroken(log: seq<Event>, k: Key, j: nat)
    requires j <= |log| && Follow(Idle, log, k) != Broken
    ensures Follow(Idle, log[..j], k) != Broken
  {
    assert log == log[..j] + log[j..];
    FollowAppend(Idle, log[..j], log[j..], k);
    if Follow(Idle, log[..j], k) == Broken { BrokenForever(log[j..], k); }
  }

  lemma OneMore(log: seq<Event>, k: Key, i: nat)
    requires i < |log| && log[i].key == k
    ensures Follow(Idle, log[..i + 1], k) == PhaseAfter(Follow(Idle, log[..i], k), log[i])
  {
    assert log[..i + 1] == log[..i] + [log[i]];
    FollowAppend(Idle, log[..i], [log[i]], k);
    FollowOne(Follow(Idle, log[..i], k), log[i], k);
  }

  // Two executions.

  ghost predicate Occupied(c: Cache, k: Key) {
    k in c.dict && c.dict[k] !in Doomed(c)
  }

  lemma StartOccupied(c: Cache, op: Op, k: Key)
    requires Inv(c) && Can(c, op) && op.DoStart?
    ensures Log(c, op) == [Started(k, Success)] ==> Occupied(Next(c, op), k)
    ensures Occupied(c, k) ==> Occupied(Next(c, op), k) && Log(c, op) != [Started(k, Success)]
  {
  }

  lemma RemoveOccupied(c: Cache, id: Id, k: Key)
    requires Inv(c) && Occupied(c, k) && id in c.entries && id in Doomed(c)
    ensures k in c.dict - {c.entries[id].key}
  {
    assert Tabled(c.entries, c.w, id);
  }

  /** Once executed, a request is not executed again while it is not forgotten. */
  lemma StaysOccupied(c: Cache, op: Op, k: Key)
    requires Inv(c) && Can(c, op) && Occupied(c, k) && Forgotten(k) !in Log(c, op)
    ensures Occupied(Next(c, op), k) && Started(k, Success) !in Log(c, op)
  {
    match op
    case DoStart(_, _, _) => StartOccupied(c, op, k);
    case DoComplete(_, _) =>
    case DoTakeOff => if Retires(c) { assert Forgotten(c.entries[c.queue[0]].key) in Log(c, op); }
    case DoFree(id) => RemoveOccupied(c, id, k);
    case DoMark(r) => assert Forgotten(c.entries[c.held[r].id].key) in Log(c, op);
    case DoUnlink(id) => RemoveOccupied(c, id, k);
    case DoDequeue(_) =>
    case DoRele(_) =>
  }

  lemma OneEvent(c: Cache, op: Op)
    requires Can(c, op)
    ensures |Log(c, op)| <= 1
  {
  }

  /** No execution of `k` before it is forgotten. */
  ghost predicate ForgottenFirst(log: seq<Event>, k: Key) {
    forall j :: 0 <= j < |log| && log[j] == Started(k, Success) ==> Forgotten(k) in log[..j]
  }

  /** No two executions of `k` without its being forgotten in between. */
  ghost predicate Separated(log: seq<Event>, k: Key) {
    forall i, j :: 0 <= i < j < |log| && log[i] == log[j] == Started(k, Success) ==> Forgotten(k) in log[i + 1..j]
  }

  lemma ForgottenFirstMore(e: Event, rest: seq<Event>, k: Key)
    requires e != Started(k, Success) && (e == Forgotten(k) || ForgottenFirst(rest, k))
    ensures ForgottenFirst([e] + rest, k)
  {
    var log := [e] + rest;
    forall j | 0 <= j < |log| && log[j] == Started(k, Success) ensures Forgotten(k) in log[..j] {
      assert log[..j] == [e] + rest[..j - 1];
    }
  }

  lemma SeparatedMore(e: Event, rest: seq<Event>, k: Key)
    requires Separated(rest, k) && (e == Started(k, Success) ==> ForgottenFirst(rest, k))
    ensures Separated([e] + rest, k)
  {
    var log := [e] + rest;
    forall i, j | 0 <= i < j < |log| && log[i] == log[j] == Started(k, Success)
      ensures Forgotten(k) in log[i + 1..j]
    {
      assert log[i + 1..j] == rest[i..j - 1];
      if i == 0 { assert rest[0..j - 1] == rest[..j - 1]; }
    }
  }

  lemma ForgottenStep(c: Cache, op: Op, rest: seq<Event>, k: Key)
    requires Inv(c) && Can(c, op) && Occupied(c, k)
    requires Occupied(Next(c, op), k) ==> ForgottenFirst(rest, k)
    ensures ForgottenFirst(Log(c, op) + rest, k)
  {
    var first := Log(c, op);
    OneEvent(c, op);
    if Forgotten(k) !in first { StaysOccupied(c, op, k); }
    if first == [] { assert first + rest == rest; } else { ForgottenFirstMore(first[0], rest, k); }
  }

  lemma {:induction false} ForgottenBefore(c: Cache, ops: seq<Op>, k: Key)
    requires Inv(c) && CanRun(c, ops) && NeverDangles(c, ops) && Occupied(c, k)
    ensures ForgottenFirst(RunLog(c, ops), k)
    decreases |ops|
  {
    if ops != [] {
      var c' := Next(c, ops[0]);
      NextInv(c, ops[0]);
      if Occupied(c', k) { ForgottenBefore(c', ops[1..], k); }
      ForgottenStep(c, ops[0], RunLog(c', ops[1..]), k);
    }
  }

  /** Two executions of the same request are separated by its being forgotten. */
  lemma {:induction false} AtMostOnce(c: Cache, ops: seq<Op>, k: Key)
    requires Inv(c) && CanRun(c, ops) && NeverDangles(c, ops)
    ensures Separated(RunLog(c, ops), k)
    decreases |ops|
  {
    if ops != [] {
      var c' := Next(c, ops[0]);
      OneEvent(c, ops[0]);
      NextInv(c, ops[0]);
      if Log(c, ops[0]) == [Started(k, Success)] {
        StartOccupied(c, ops[0], k);
        ForgottenBefore(c', ops[1..], k);
      }
      AtMostOnce(c', ops[1..], k);
      var first, rest := Log(c, ops[0]), RunLog(c', ops[1..]);
      if first == [] { assert first + rest == rest; } else { SeparatedMore(first[0], rest, k); }
    }
  }

  /** A duplicate is answered with the very result that the execution stored. */
  lemma {:induction false} DuplicateGetsStoredResult(log: seq<Event>, k: Key, res: Res, n: nat)
    requires n <= |log| && Follow(Idle, log[..n], k) == Done(res)
    ensures exists i :: 0 <= i < n && log[i] == Finished(k, res) && Forgotten(k) !in log[i + 1..n]
    decreases n
  {
    assert n > 0;
    var e := log[n - 1];
    assert log[..n] == log[..n - 1] + [e];
    FollowAppend(Idle, log[..n - 1], [e], k);
    FollowOne(Follow(Idle, log[..n - 1], k), e, k);
    if e == Finished(k, res) {
      assert log[n - 1 + 1..n] == [];
    } else {
      DuplicateGetsStoredResult(log, k, res, n - 1);
      var i :| 0 <= i < n - 1 && log[i] == Finished(k, res) && Forgotten(k) !in log[i + 1..n - 1];
      assert log[i + 1..n] == log[i + 1..n - 1] + [e];
    }
  }

  /** A hit returns the result of the one execution, not forgotten since, if no start found its entry doomed. */
  lemma HitReturnsStored(c: Cache, ops: seq<Op>, k: Key, res: Res, j: nat)
    requires Inv(c) && CanRun(c, ops) && NeverDangles(c, ops) && QuietRun(c, ops, k) && k !in c.dict
    requires j < |RunLog(c, ops)| && RunLog(c, ops)[j] == Started(k, Exists(res))
    ensures var log := RunLog(c, ops);
      exists i :: 0 <= i < j && log[i] == Finished(k, res) && Forgotten(k) !in log[i + 1..j]
  {
    var log := RunLog(c, ops);
    RunFollows(c, ops, k);
    PrefixNotBroken(log, k, j + 1);
    OneMore(log, k, j);
    DuplicateGetsStoredResult(log, k, res, j);
  }

  // ---- what goes wrong between the locks -----------------------------------

  lemma FirstStep(c: Cache, op: Op, rest: seq<Op>)
    requires Can(c, op) && CanRun(Next(c, op), rest)
    ensures CanRun(c, [op] + rest) && Run(c, [op] + rest) == Run(Next(c, op), rest)
    ensures RunLog(c, [op] + rest) == Log(c, op) + RunLog(Next(c, op), rest)
    ensures NeverDangles(c, [op] + rest) <==> !Dangles(c, op) && NeverDangles(Next(c, op), rest)
  {
    assert ([op] + rest)[1..] == rest;
  }

  lemma ThreeSteps(c: Cache, op: Op, op': Op, op'': Op)
    requires Can(c, op) && Can(Next(c, op), op') && Can(Next(Next(c, op), op'), op'')
    ensures var ops := [op] + ([op'] + ([op''] + [])); var c1 := Next(c, op); var c2 := Next(c1, op');
      && CanRun(c, ops) && Run(c, ops) == Next(c2, op'')
      && RunLog(c, ops) == Log(c, op) + (Log(c1, op') + (Log(c2, op'') + []))
      && (NeverDangles(c, ops) <==> !Dangles(c, op) && !Dangles(c1, op') && !Dangles(c2, op''))
  {
    var c1 := Next(c, op);
    FirstStep(Next(c1, op'), op'', []);
    FirstStep(c1, op', [op''] + []);
    FirstStep(c, op, [op'] + ([op''] + []));
  }

  lemma RetireWindow(c: Cache)
    requires Inv(c) && Retires(c)
    ensures var id := c.queue[0]; var e := c.entries[id]; var c1 := AfterTakeOff(c);
      && c1.w.retiring == c.w.retiring + {id} && c1.entries == c.entries && c1.held == c.held
      && e.key in c1.dict && c1.dict[e.key] == id
  {
    FirstIsLive(c);
    assert Tabled(c.entries, c.w, c.queue[0]);
  }

  /** Between the locks of a retirement, a duplicate gets a reference to an entry that is then freed. */
  lemma RetireWindowFails(c: Cache, r: Req, buffer: Res)
    requires Inv(c) && Retires(c) && c.queue[0] in c.entries && c.entries[c.queue[0]].state == Complete && r !in c.held
    ensures var id := c.queue[0]; var e := c.entries[id];
      var ops := [DoTakeOff] + ([DoStart(r, e.key, buffer)] + ([DoFree(id)] + []));
      && CanRun(c, ops)
      && RunLog(c, ops) == [Forgotten(e.key), Started(e.key, Exists(e.res))]
      && r in Run(c, ops).held && Run(c, ops).held[r] == Hit(id) && id !in Run(c, ops).entries
      && !Can(Run(c, ops), DoRele(r))
  {
    RetireWindow(c);
    ThreeSteps(c, DoTakeOff, DoStart(r, c.entries[c.queue[0]].key, buffer), DoFree(c.queue[0]));
  }

  /** A cache without room, after its first request. */
  function OneServed(): Cache {
    Cache(map[0 := Entry(Key(0, 1, 0), Complete, 7, 0)], map[Key(0, 1, 0) := 0], [0], 1, 0, 1, map[],
          Windows({}, {}, {}), 0, 0)
  }

  lemma ServedExample(rest: seq<Op>)
    requires CanRun(OneServed(), rest)
    ensures var ops := [DoStart(1, Key(0, 1, 0), 5)] + ([DoComplete(1, 7)] + ([DoTakeOff] + ([DoRele(1)] + rest)));
      && CanRun(Empty(0, 0), ops) && Run(Empty(0, 0), ops) == Run(OneServed(), rest)
      && (NeverDangles(Empty(0, 0), ops) <==> NeverDangles(OneServed(), rest))
  {
    var k := Key(0, 1, 0);
    var c1 := AfterNew(Empty(0, 0), 1, k, 5);
    var c2 := AfterComplete(c1, 0, 7);
    assert c2.entries == map[0 := Entry(k, Complete, 7, 1)];
    assert AfterTakeOff(c2) == c2;
    assert AfterRele(c2, 1) == OneServed();
    FirstStep(c2, DoRele(1), rest);
    FirstStep(c2, DoTakeOff, [DoRele(1)] + rest);
    FirstStep(c1, DoComplete(1, 7), [DoTakeOff] + ([DoRele(1)] + rest));
    FirstStep(Empty(0, 0), DoStart(1, k, 5), [DoComplete(1, 7)] + ([DoTakeOff] + ([DoRele(1)] + rest)));
  }

  /** A run that leads there: a second request is finished. */
  lemma RetireWindowExample()
    ensures var ops := [DoStart(1, Key(0, 1, 0), 5)] + ([DoComplete(1, 7)] + ([DoTakeOff] + ([DoRele(1)]
                       + ([DoStart(2, Key(0, 2, 0), 6)] + ([DoComplete(2, 8)] + [])))));
      && CanRun(Empty(0, 0), ops) && NeverDangles(Empty(0, 0), ops)
      && var c := Run(Empty(0, 0), ops);
         Retires(c) && c.queue[0] in c.entries && c.entries[c.queue[0]].state == Complete && 3 !in c.held
  {
    var k := Key(0, 2, 0);
    var c1 := AfterNew(OneServed(), 2, k, 6);
    FirstStep(c1, DoComplete(2, 8), []);
    FirstStep(OneServed(), DoStart(2, k, 6), [DoComplete(2, 8)] + []);
    ServedExample([DoStart(2, k, 6)] + ([DoComplete(2, 8)] + []));
  }

  /** Between the locks of a deletion, a duplicate is answered with the buffer of a request that never finished. */
  lemma DeleteWindowFails(c: Cache, r: Req, again: Req, k: Key, buffer: Res, other: Res)
    requires Inv(c) && k !in c.dict && r !in c.held && again !in c.held && r != again
    ensures var ops := [DoStart(r, k, buffer)] + ([DoMark(r)] + ([DoStart(again, k, other)] + []));
      && CanRun(c, ops) && NeverDangles(c, ops)
      && RunLog(c, ops) == [Started(k, Success), Forgotten(k), Started(k, Exists(buffer))]
  {
    ThreeSteps(c, DoStart(r, k, buffer), DoMark(r), DoStart(again, k, other));
  }

  // ---- the window after a hit ----------------------------------------------

  ghost predicate IsHit(c: Cache, op: Op)
    requires Can(c, op)
  {
    op.DoStart? && StartStatus(c, op.k).Exists?
  }

  /** A look at the queue that finds more entries than may be kept. */
  predicate IsOver(c: Cache, op: Op) {
    op.DoTakeOff? && c.size > c.maxsize
  }

  ghost function Hits(c: Cache, ops: seq<Op>): nat
    requires CanRun(c, ops)
    decreases |ops|
  {
    if ops == [] then 0 else (if IsHit(c, ops[0]) then 1 else 0) + Hits(Next(c, ops[0]), ops[1..])
  }

  ghost function Overs(c: Cache, ops: seq<Op>): nat
    requires CanRun(c, ops)
    decreases |ops|
  {
    if ops == [] then 0 else (if IsOver(c, ops[0]) then 1 else 0) + Overs(Next(c, ops[0]), ops[1..])
  }

  /** Nothing is retired but to keep the cache within its size. */
  ghost predicate OnlyOvers(c: Cache, ops: seq<Op>)
    requires CanRun(c, ops)
    decreases |ops|
  {
    ops == [] || ((ops[0].DoTakeOff? && !IsOver(c, ops[0]) ==> Next(c, ops[0]) == c && Log(c, ops[0]) == [])
                  && OnlyOvers(Next(c, ops[0]), ops[1..]))
  }

  lemma WindowStep(c: Cache, op: Op)
    requires |c.queue| == c.size && Can(c, op) && c.retwnd > 0
    ensures Next(c, op).retwnd == c.retwnd + (if IsHit(c, op) then 1 else 0) - (if IsOver(c, op) then 1 else 0)
    ensures op.DoTakeOff? && !IsOver(c, op) ==> Next(c, op) == c && Log(c, op) == []
  {
  }

  /**
   While the window is open, entries are retired only beyond the size of the cache.  Each hit
   widens it by one, and each finished request that finds the cache beyond its size narrows it
   by one.
   */
  lemma {:induction false} WindowHolds(c: Cache, ops: seq<Op>)
    requires Inv(c) && CanRun(c, ops) && NeverDangles(c, ops) && Overs(c, ops) < c.retwnd
    ensures OnlyOvers(c, ops) && Run(c, ops).retwnd == c.retwnd + Hits(c, ops) - Overs(c, ops)
    decreases |ops|
  {
    if ops != [] {
      WindowStep(c, ops[0]);
      NextInv(c, ops[0]);
      WindowHolds(Next(c, ops[0]), ops[1..]);
    }
  }

  lemma ClosedStep(c: Cache, op: Op)
    requires Can(c, op) && c.retwnd == 0 && !IsHit(c, op)
    ensures Next(c, op).retwnd == 0
  {
  }

  /** Without hits it closes after as many such requests as it is wide, and stays closed. */
  lemma {:induction false} WindowCloses(c: Cache, ops: seq<Op>)
    requires Inv(c) && CanRun(c, ops) && NeverDangles(c, ops) && Hits(c, ops) == 0 && Overs(c, ops) >= c.retwnd
    ensures Run(c, ops).retwnd == 0
    decreases |ops|
  {
    if ops != [] {
      NextInv(c, ops[0]);
      if c.retwnd == 0 { ClosedStep(c, ops[0]); } else { WindowStep(c, ops[0]); }
      WindowCloses(Next(c, ops[0]), ops[1..]);
    }
  }

  /**
   A hit that finds the window closed opens it: until sixteen requests have found the cache
   beyond its size, the high-water mark retires nothing.  After that, without more hits, the
   window is closed.
   */
  lemma HitOpensWindow(c: Cache, hit: Op, ops: seq<Op>)
    requires Inv(c) && Can(c, hit) && IsHit(c, hit) && !Dangles(c, hit) && c.retwnd == 0
    requires CanRun(Next(c, hit), ops) && NeverDangles(Next(c, hit), ops)
    ensures Overs(Next(c, hit), ops) < 16 ==> OnlyOvers(Next(c, hit), ops)
    ensures Overs(Next(c, hit), ops) >= 16 && Hits(Next(c, hit), ops) == 0 ==> Run(Next(c, hit), ops).retwnd == 0
  {
    NextInv(c, hit);
    if Overs(Next(c, hit), ops) < 16 {
      WindowHolds(Next(c, hit), ops);
    } else if Hits(Next(c, hit), ops) == 0 {
      WindowCloses(Next(c, hit), ops);
    }
  }

  /** Then the marks govern: the oldest entry is retired exactly beyond either, if nobody refers to it. */
  lemma MarksGovern(c: Cache)
    requires Inv(c) && c.retwnd == 0
    ensures Log(c, DoTakeOff) != [] <==>
            (c.size > c.hiwat || c.size > c.maxsize)
            && c.queue[0] in c.entries && c.entries[c.queue[0]].refcnt == 0
    ensures Log(c, DoTakeOff) != [] ==> Log(c, DoTakeOff) == [Forgotten(c.entries[c.queue[0]].key)]
  {
    FirstIsThere(c.entries, c.w, c.queue, c.size);
  }

  // ---- how large the cache gets -------------------------------------------

  datatype Outcome = Completes(res: Res) | Drops

  /** One request from start to rele, with nothing else going on. */
  ghost function Serve(c: Cache, r: Req, k: Key, buffer: Res, outcome: Outcome): Cache
    requires Inv(c) && r !in c.held && !HitsRetiring(c, k)
  {
    StartInv(c, r, k, buffer);
    var c1 := AfterStart(c, r, k, buffer);
    match StartStatus(c, k)
    case BeingProcessed => c
    case Exists(_) => AfterRele(c1, r)
    case Success =>
      var id := c.next;
      match outcome
      case Completes(res) => (RetireKeeps(c1, r, id, res); AfterRele(AfterFinish(c1, id, res), r))
      case Drops => AfterRele(AfterDelete(c1, id), r)
  }

  lemma RetireKeeps(c: Cache, r: Req, id: Id, res: Res)
    requires Inv(c) && r in c.held && c.held[r].id == id && Live(c.entries, id)
    ensures var c' := AfterFinish(c, id, res); c'.held == c.held && id in c'.entries
  {
    CompleteInv(c, id, res);
    RetireKeepsHeld(AfterComplete(c, id, res), r);
  }

  ghost predicate Between(c: Cache) {
    Inv(c) && c.held == map[] && c.w == Windows({}, {}, {})
  }

  lemma FinishCloses(c: Cache, id: Id, res: Res)
    requires Inv(c) && Live(c.entries, id)
    ensures AfterFinish(c, id, res).w == c.w
  {
    var done := AfterComplete(c, id, res);
    CompleteInv(c, id, res);
    if Retires(done) {
      FirstIsLive(done);
      assert AfterFinish(c, id, res).w.retiring == c.w.retiring;
    }
  }

  lemma DeleteCloses(c: Cache, id: Id)
    requires id in c.entries && id !in c.w.marked && id !in c.w.unlinked
    ensures AfterDelete(c, id).w == c.w
  {
    assert AfterDelete(c, id).w.marked == c.w.marked && AfterDelete(c, id).w.unlinked == c.w.unlinked;
  }

  lemma CompletesBetween(c: Cache, r: Req, id: Id, res: Res)
    requires Inv(c) && c.held == map[r := Owner(id)] && Live(c.entries, id) && c.w == Windows({}, {}, {})
    ensures var c' := AfterFinish(c, id, res); r in c'.held && c'.held[r].id in c'.entries && Between(AfterRele(c', r))
  {
    RetireKeeps(c, r, id, res);
    FinishInv(c, id, res);
    FinishCloses(c, id, res);
    ReleInv(AfterFinish(c, id, res), r);
  }

  lemma DropsBetween(c: Cache, r: Req, id: Id)
    requires Inv(c) && c.held == map[r := Owner(id)] && Live(c.entries, id) && c.w == Windows({}, {}, {})
    ensures Between(AfterRele(AfterDelete(c, id), r))
  {
    DeleteInv(c, r);
    DeleteCloses(c, id);
    ReleInv(AfterDelete(c, id), r);
  }

  lemma HitBetween(c: Cache, r: Req, id: Id)
    requires Between(c) && id in c.entries && c.entries[id].state != Start
    ensures Between(AfterRele(AfterHit(c, r, id), r))
  {
    HitInv(c, r, id);
    ReleInv(AfterHit(c, r, id), r);
  }

  lemma ServeBetween(c: Cache, r: Req, k: Key, buffer: Res, outcome: Outcome)
    requires Between(c)
    ensures Between(Serve(c, r, k, buffer, outcome))
  {
    StartInv(c, r, k, buffer);
    var c1 := AfterStart(c, r, k, buffer);
    if k in c.dict {
      if c.entries[c.dict[k]].state != Start { HitBetween(c, r, c.dict[k]); }
    } else if outcome.Completes? {
      CompletesBetween(c1, r, c.next, outcome.res);
    } else {
      DropsBetween(c1, r, c.next);
    }
  }

  /** Between requests nobody refers to the oldest entry. */
  lemma FirstIsFree(c: Cache)
    requires Between(c) && c.size > 0
    ensures c.queue != [] && Live(c.entries, c.queue[0]) && c.entries[c.queue[0]].refcnt == 0
  {
    assert c.queue[0] in c.queue;
    assert Holders(c.held, c.queue[0]) == {};
  }

  /** A lone new request can retire whatever is older than it. */
  lemma LoneNewcomer(c: Cache, r: Req, k: Key, buffer: Res, res: Res)
    requires Between(c) && k !in c.dict
    ensures var done := AfterComplete(AfterNew(c, r, k, buffer), c.next, res);
      done.size == c.size + 1 && (Retires(done) <==> ShouldRetire(done) && c.size > 0)
  {
    if c.size > 0 { FirstIsFree(c); }
  }

  function Max(a: int, b: int): int {
    if a < b then b else a
  }

  function Min(a: int, b: int): int {
    if a < b then a else b
  }

  ghost function Mark(c: Cache): int {
    Min(c.hiwat, c.maxsize)
  }

  /** The size after a lone new request has been finished. */
  lemma NewcomerWithinMarks(c: Cache, r: Req, k: Key, buffer: Res, res: Res)
    requires Between(c) && k !in c.dict
    ensures var c' := AfterFinish(AfterNew(c, r, k, buffer), c.next, res);
      && c'.size == (if c.size > 0 && (c.size + 1 > c.maxsize || (c.retwnd == 0 && c.size + 1 > c.hiwat)) then c.size
                     else c.size + 1)
      && (c.retwnd == 0 ==> c'.retwnd == 0)
  {
    LoneNewcomer(c, r, k, buffer, res);
  }

  /** The release after a finished request changes no size. */
  lemma CompletedSize(c: Cache, r: Req, k: Key, buffer: Res, res: Res)
    requires Between(c) && k !in c.dict
    ensures var c' := Serve(c, r, k, buffer, Completes(res));
      var done := AfterFinish(AfterNew(c, r, k, buffer), c.next, res);
      c'.size == done.size && c'.retwnd == done.retwnd && c'.maxsize == c.maxsize && c'.hiwat == c.hiwat
  {
    NewInv(c, r, k, buffer);
    RetireKeeps(AfterNew(c, r, k, buffer), r, c.next, res);
  }

  /** A duplicate, and a request that is dropped, leave the size as it was. */
  lemma UncompletedSize(c: Cache, r: Req, k: Key, buffer: Res, outcome: Outcome)
    requires Between(c) && (k in c.dict || outcome.Drops?)
    ensures var c' := Serve(c, r, k, buffer, outcome);
      && c'.size == c.size && c'.maxsize == c.maxsize && c'.hiwat == c.hiwat
      && (k !in c.dict ==> c'.retwnd == c.retwnd)
  {
  }

  lemma ServeKeepsMarks(c: Cache, r: Req, k: Key, buffer: Res, outcome: Outcome)
    requires Between(c)
    ensures var c' := Serve(c, r, k, buffer, outcome); c'.maxsize == c.maxsize && c'.hiwat == c.hiwat
  {
    if k !in c.dict && outcome.Completes? {
      CompletedSize(c, r, k, buffer, outcome.res);
    } else {
      UncompletedSize(c, r, k, buffer, outcome);
    }
  }

  /** Serving one request keeps the hard bound, and without hits ever, the high-water mark too. */
  lemma ServeWithinMarks(c: Cache, r: Req, k: Key, buffer: Res, outcome: Outcome)
    requires Between(c)
    ensures var c' := Serve(c, r, k, buffer, outcome);
      && (c.size <= Max(c.maxsize, 1) ==> c'.size <= Max(c.maxsize, 1))
      && (c.retwnd == 0 && k !in c.dict && c.size <= Max(Mark(c), 1) ==>
            c'.retwnd == 0 && c'.size <= Max(Mark(c), 1))
  {
    if k !in c.dict && outcome.Completes? {
      CompletedSize(c, r, k, buffer, outcome.res);
      NewcomerWithinMarks(c, r, k, buffer, outcome.res);
    } else {
      UncompletedSize(c, r, k, buffer, outcome);
    }
  }

  datatype Request = Request(r: Req, k: Key, buffer: Res, outcome: Outcome)

  ghost function ServeAll(c: Cache, requests: seq<Request>): Cache
    requires Between(c)
    decreases |requests|
  {
    if requests == [] then c
    else
      var q := requests[0];
      ServeBetween(c, q.r, q.k, q.buffer, q.outcome);
      ServeAll(Serve(c, q.r, q.k, q.buffer, q.outcome), requests[1..])
  }

  /** No request of the sequence is a duplicate of one still cached. */
  ghost predicate NoHits(c: Cache, requests: seq<Request>)
    requires Between(c)
    decreases |requests|
  {
    if requests == [] then true
    else
      var q := requests[0];
      ServeBetween(c, q.r, q.k, q.buffer, q.outcome);
      q.k !in c.dict && NoHits(Serve(c, q.r, q.k, q.buffer, q.outcome), requests[1..])
  }

  /** Requests served one at a time, each finished or dropped, never push the cache past its bound. */
  lemma {:induction false} ServeAllWithinMarks(c: Cache, requests: seq<Request>)
    requires Between(c)
    ensures c.size <= Max(c.maxsize, 1) ==> ServeAll(c, requests).size <= Max(c.maxsize, 1)
    ensures c.retwnd == 0 && c.size <= Max(Mark(c), 1) && NoHits(c, requests) ==>
            ServeAll(c, requests).size <= Max(Mark(c), 1)
    decreases |requests|
  {
    if requests != [] {
      var q := requests[0];
      ServeBetween(c, q.r, q.k, q.buffer, q.outcome);
      ServeKeepsMarks(c, q.r, q.k, q.buffer, q.outcome);
      ServeWithinMarks(c, q.r, q.k, q.buffer, q.outcome);
      ServeAllWithinMarks(Serve(c, q.r, q.k, q.buffer, q.outcome), requests[1..]);
    }
  }

  ghost predicate Cached(c: Cache, id: Id) {
    Live(c.entries, id) && id !in c.w.retiring
  }

  lemma TakesHead(c: Cache, gone: Id, kept: Id)
    requires Inv(c) && Cached(c, gone) && !Cached(AfterTakeOff(c), gone) && Cached(AfterTakeOff(c), kept)
    ensures gone < kept
  {
    assert Queued(c.entries, c.w, gone) && Queued(c.entries, c.w, kept);
    assert gone in c.queue && kept in c.queue && gone == c.queue[0] && gone != kept;
  }

  /** Retirement follows insertion order: what is retired is older than all that stays cached. */
  lemma OldestRetiresFirst(c: Cache)
    requires Inv(c)
    ensures var c' := AfterTakeOff(c);
      forall gone, kept :: Cached(c, gone) && !Cached(c', gone) && Cached(c', kept) ==> gone < kept
  {
    var c' := AfterTakeOff(c);
    forall gone, kept | Cached(c, gone) && !Cached(c', gone) && Cached(c', kept) ensures gone < kept {
      TakesHead(c, gone, kept);
    }
  }
}
