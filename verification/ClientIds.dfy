/**
 Client records, the two tables they live in, and the counts of references to them.

 A record is unconfirmed, confirmed or expired.  The table of unconfirmed and the table
 of confirmed records are keyed by client id and each hold a reference.  Expiry marks
 the record under its mutex first and takes it out of its table afterwards, so there is
 a moment when an expired record can still be found.
 */
module ClientIds {
  import opened Collections

  type Id = nat          // a record
  type Cid = nat         // a 64-bit client id: the server's epoch, then a counter
  type Holder = nat      // somebody with a counted pointer to a record

  datatype Confirmation = Unconfirmed | Confirmed | Expired
  datatype Table = UnconfirmedTable | ConfirmedTable

  datatype Record = Record(cid: Cid, confirmed: Confirmation, refcount: int)

  datatype State = State(
    records: map<Id, Record>,          // records not freed
    unconf: map<Cid, Id>,
    conf: map<Cid, Id>,
    dying: map<Id, Table>,             // marked expired, still in this table
    holders: map<Holder, Id>)

  /** Every operation either yields a new state or runs into an assertion of the source. */
  datatype Outcome = Done(s: State) | AssertionFails

  datatype Lookup = Found(id: Id) | Stale | NotFound

  // ---- operations ---------------------------------------------------------

  /** dec_client_id_ref. */
  function DropRef(s: State, id: Id): Outcome
    requires id in s.records
  {
    var r := s.records[id].(refcount := s.records[id].refcount - 1);
    if r.refcount > 0 then Done(s.(records := s.records[id := r]))
    else if r.confirmed == Expired then Done(s.(records := s.records - {id}))
    else AssertionFails
  }

  /** create_client_id followed by nfs_client_id_insert; a taken id frees the new record again. */
  function Insert(s: State, id: Id, cid: Cid): Outcome {
    if cid in s.unconf then Done(s)
    else Done(s.(records := s.records[id := Record(cid, Unconfirmed, 1)], unconf := s.unconf[cid := id]))
  }

  /** nfs_client_id_get: finding a record and referring to it are one step. */
  function Find(s: State, t: Table, cid: Cid, epoch: nat): Lookup {
    var table := if t == UnconfirmedTable then s.unconf else s.conf;
    if cid / 0x1_0000_0000 != epoch then Stale
    else if cid in table then Found(table[cid])
    else NotFound
  }

  function AddRef(s: State, h: Holder, id: Id): Outcome
    requires id in s.records
  {
    Done(s.(records := s.records[id := s.records[id].(refcount := s.records[id].refcount + 1)],
            holders := s.holders[h := id]))
  }

  function Get(s: State, h: Holder, t: Table, cid: Cid, epoch: nat): Outcome
    requires forall c :: (c in s.unconf ==> s.unconf[c] in s.records) && (c in s.conf ==> s.conf[c] in s.records)
  {
    match Find(s, t, cid, epoch)
    case Found(id) => AddRef(s, h, id)
    case _ => Done(s)
  }

  function Release(s: State, h: Holder): Outcome
    requires h in s.holders && s.holders[h] in s.records
  {
    DropRef(s.(holders := s.holders - {h}), s.holders[h])
  }

  /** nfs_client_id_confirm: out of one table by key, into the other unless the key is taken there. */
  function Confirm(s: State, id: Id): Outcome
    requires id in s.records
  {
    var r := s.records[id];
    if r.cid !in s.unconf then Done(s)
    else
      var s1 := s.(unconf := s.unconf - {r.cid});
      if r.cid !in s.conf then
        Done(s1.(records := s.records[id := r.(confirmed := Confirmed)], conf := s.conf[r.cid := id]))
      else
        DropRef(s1.(records := s.records[id := r.(confirmed := Expired)]), id)
  }

  /** remove_confirmed_client_id and remove_unconfirmed_client_id. */
  function Remove(s: State, t: Table, id: Id): Outcome
    requires id in s.records
  {
    var r := s.records[id];
    if r.cid !in (if t == UnconfirmedTable then s.unconf else s.conf) then Done(s)
    else
      var s1 := if t == UnconfirmedTable then s.(unconf := s.unconf - {r.cid}) else s.(conf := s.conf - {r.cid});
      DropRef(s1.(records := s.records[id := r.(confirmed := Expired)]), id)
  }

  /** The first part of nfs_client_id_expire, under the mutex of the record. */
  function ExpireMark(s: State, id: Id): Outcome
    requires id in s.records
  {
    var r := s.records[id];
    if r.confirmed == Expired then Done(s)
    else Done(s.(records := s.records[id := r.(confirmed := Expired)],
                 dying := s.dying[id := if r.confirmed == Confirmed then ConfirmedTable else UnconfirmedTable]))
  }

  /** The rest of nfs_client_id_expire. */
  function ExpireFinish(s: State, id: Id): Outcome
    requires id in s.records && id in s.dying
  {
    var r := s.records[id];
    var t := s.dying[id];
    if r.cid !in (if t == UnconfirmedTable then s.unconf else s.conf) then AssertionFails
    else
      var s1 := if t == UnconfirmedTable then s.(unconf := s.unconf - {r.cid}) else s.(conf := s.conf - {r.cid});
      DropRef(s1.(dying := s.dying - {id}), id)
  }

  // ---- what always holds --------------------------------------------------

  datatype Home = Nowhere | In(table: Table)

  /** The table a record belongs in: the one its state names, or the one its expiry has yet to clear. */
  function HomeOf(records: map<Id, Record>, dying: map<Id, Table>, id: Id): Home
    requires id in records
  {
    match records[id].confirmed
    case Unconfirmed => In(UnconfirmedTable)
    case Confirmed => In(ConfirmedTable)
    case Expired => if id in dying then In(dying[id]) else Nowhere
  }

  /** `table` holds exactly the records whose home it is, each under its client id. */
  ghost predicate Holds(table: map<Cid, Id>, t: Table, records: map<Id, Record>, dying: map<Id, Table>) {
    && (forall c :: c in table ==> table[c] in records && records[table[c]].cid == c
                                   && HomeOf(records, dying, table[c]) == In(t))
    && (forall id :: id in records && HomeOf(records, dying, id) == In(t) ==>
          records[id].cid in table && table[records[id].cid] == id)
  }

  function Dues(records: map<Id, Record>, dying: map<Id, Table>, holders: map<Holder, Id>, id: Id): nat
    requires id in records
  {
    (if HomeOf(records, dying, id) == Nowhere then 0 else 1) + |Preimage(holders, id)|
  }

  /**
   Counts are one for the home table plus one for each holder, and a record without any is
   gone; except that the record `debt`, if there is one, still counts a reference given up.
   */
  ghost predicate Counts(records: map<Id, Record>, dying: map<Id, Table>, holders: map<Holder, Id>, debt: set<Id>) {
    && (forall id :: id in records ==>
          records[id].refcount == Dues(records, dying, holders, id) + (if id in debt then 1 else 0))
    && (forall id :: id in records ==> records[id].refcount > 0)
    && (forall h :: h in holders ==> holders[h] in records)
    && (forall id :: id in dying ==> id in records && records[id].confirmed == Expired)
  }

  ghost predicate InvBut(s: State, debt: set<Id>) {
    && Holds(s.unconf, UnconfirmedTable, s.records, s.dying)
    && Holds(s.conf, ConfirmedTable, s.records, s.dying)
    && Counts(s.records, s.dying, s.holders, debt)
  }

  ghost predicate Inv(s: State) {
    InvBut(s, {})
  }

  // ---- references ---------------------------------------------------------

  lemma NobodyHolds(holders: map<Holder, Id>, id: Id)
    requires |Preimage(holders, id)| == 0
    ensures forall h :: h in holders ==> holders[h] != id
  {
    assert Preimage(holders, id) == {};
    forall h | h in holders ensures holders[h] != id {
      assert h !in Preimage(holders, id);
    }
  }

  /** Changing only the count of a record leaves the tables right. */
  lemma RecountHolds(table: map<Cid, Id>, t: Table, records: map<Id, Record>, dying: map<Id, Table>, id: Id, n: int)
    requires Holds(table, t, records, dying) && id in records
    ensures Holds(table, t, records[id := records[id].(refcount := n)], dying)
  {
    var records' := records[id := records[id].(refcount := n)];
    assert forall x :: x in records ==> HomeOf(records', dying, x) == HomeOf(records, dying, x);
  }

  lemma FreeHolds(table: map<Cid, Id>, t: Table, records: map<Id, Record>, dying: map<Id, Table>, id: Id)
    requires Holds(table, t, records, dying) && id in records && HomeOf(records, dying, id) == Nowhere
    ensures Holds(table, t, records - {id}, dying)
  {
    var records' := records - {id};
    assert forall x :: x in records' ==> HomeOf(records', dying, x) == HomeOf(records, dying, x);
  }

  lemma DropOneCount(records: map<Id, Record>, dying: map<Id, Table>, holders: map<Holder, Id>, id: Id)
    requires Counts(records, dying, holders, {id}) && id in records && records[id].refcount > 1
    ensures Counts(records[id := records[id].(refcount := records[id].refcount - 1)], dying, holders, {})
  {
    var records' := records[id := records[id].(refcount := records[id].refcount - 1)];
    assert forall x :: x in records ==> Dues(records', dying, holders, x) == Dues(records, dying, holders, x);
  }

  lemma DropLastCount(records: map<Id, Record>, dying: map<Id, Table>, holders: map<Holder, Id>, id: Id)
    requires Counts(records, dying, holders, {id}) && id in records && records[id].refcount <= 1
    ensures HomeOf(records, dying, id) == Nowhere && records[id].confirmed == Expired
    ensures Counts(records - {id}, dying, holders, {})
  {
    NobodyHolds(holders, id);
    var records' := records - {id};
    assert forall x :: x in records' ==> Dues(records', dying, holders, x) == Dues(records, dying, holders, x);
  }

  /**
   Taking off a reference that was given up never trips the assertion that only expired
   records may lose their last one, and never frees a record that is tabled or held.
   */
  lemma DropRefSafe(s: State, id: Id)
    requires InvBut(s, {id}) && id in s.records
    ensures DropRef(s, id).Done? && Inv(DropRef(s, id).s)
  {
    var n := s.records[id].refcount - 1;
    if n > 0 {
      DropOneCount(s.records, s.dying, s.holders, id);
      RecountHolds(s.unconf, UnconfirmedTable, s.records, s.dying, id, n);
      RecountHolds(s.conf, ConfirmedTable, s.records, s.dying, id, n);
    } else {
      DropLastCount(s.records, s.dying, s.holders, id);
      FreeHolds(s.unconf, UnconfirmedTable, s.records, s.dying, id);
      FreeHolds(s.conf, ConfirmedTable, s.records, s.dying, id);
    }
  }

  /** The assertion is that only an expired record loses its last reference. */
  lemma AssertionFailsIff(s: State, id: Id)
    requires id in s.records
    ensures DropRef(s, id).AssertionFails? <==> s.records[id].refcount <= 1 && s.records[id].confirmed != Expired
    ensures DropRef(s, id).Done? ==> (id in DropRef(s, id).s.records <==> s.records[id].refcount > 1)
  {
  }

  lemma ReleaseSafe(s: State, h: Holder)
    requires Inv(s) && h in s.holders
    ensures Release(s, h).Done? && Inv(Release(s, h).s)
  {
    var id := s.holders[h];
    ReleaseCounts(s.records, s.dying, s.holders, h);
    DropRefSafe(s.(holders := s.holders - {h}), id);
  }

  lemma ReleaseCounts(records: map<Id, Record>, dying: map<Id, Table>, holders: map<Holder, Id>, h: Holder)
    requires Counts(records, dying, holders, {}) && h in holders
    ensures Counts(records, dying, holders - {h}, {holders[h]})
  {
    forall x | x in records
      ensures |Preimage(holders - {h}, x)| == |Preimage(holders, x)| - (if x == holders[h] then 1 else 0)
    {
      PreimageRemove(holders, h, x);
    }
  }

  lemma AddCounts(records: map<Id, Record>, dying: map<Id, Table>, holders: map<Holder, Id>, h: Holder, id: Id)
    requires Counts(records, dying, holders, {}) && h !in holders && id in records
    ensures Counts(records[id := records[id].(refcount := records[id].refcount + 1)], dying, holders[h := id], {})
  {
    var records' := records[id := records[id].(refcount := records[id].refcount + 1)];
    forall x | x in records
      ensures Dues(records', dying, holders[h := id], x)
              == Dues(records, dying, holders, x) + (if x == id then 1 else 0)
    {
      PreimageAdd(holders, h, id, x);
    }
  }

  lemma AddRefSafe(s: State, h: Holder, id: Id)
    requires Inv(s) && h !in s.holders && id in s.records
    ensures AddRef(s, h, id).Done? && Inv(AddRef(s, h, id).s)
  {
    var n := s.records[id].refcount + 1;
    AddCounts(s.records, s.dying, s.holders, h, id);
    RecountHolds(s.unconf, UnconfirmedTable, s.records, s.dying, id, n);
    RecountHolds(s.conf, ConfirmedTable, s.records, s.dying, id, n);
  }

  lemma GetSafe(s: State, h: Holder, t: Table, cid: Cid, epoch: nat)
    requires Inv(s) && h !in s.holders
    ensures Get(s, h, t, cid, epoch).Done? && Inv(Get(s, h, t, cid, epoch).s)
  {
    var found := Find(s, t, cid, epoch);
    if found.Found? { AddRefSafe(s, h, found.id); }
  }

  // ---- moving between tables ----------------------------------------------

  /** Only the record `id` changes, and it keeps its client id. */
  ghost predicate OnlyMoves(records: map<Id, Record>, dying: map<Id, Table>,
                            records': map<Id, Record>, dying': map<Id, Table>, id: Id)
  {
    && id in records && records'.Keys == records.Keys && records'[id].cid == records[id].cid
    && (forall x :: x in records && x != id ==>
          records'[x] == records[x] && HomeOf(records', dying', x) == HomeOf(records, dying, x))
  }

  /** What a table must become when `id` moves. */
  function Moved(table: map<Cid, Id>, cid: Cid, id: Id, was: bool, now: bool): map<Cid, Id> {
    if was == now then table else if now then table[cid := id] else table - {cid}
  }

  lemma MoveHolds(table: map<Cid, Id>, t: Table, records: map<Id, Record>, dying: map<Id, Table>,
                  records': map<Id, Record>, dying': map<Id, Table>, id: Id)
    requires Holds(table, t, records, dying) && OnlyMoves(records, dying, records', dying', id)
    requires HomeOf(records', dying', id) == In(t) && HomeOf(records, dying, id) != In(t) ==> records[id].cid !in table
    ensures var was, now := HomeOf(records, dying, id) == In(t), HomeOf(records', dying', id) == In(t);
      Holds(Moved(table, records[id].cid, id, was, now), t, records', dying')
  {
  }

  lemma MoveCounts(records: map<Id, Record>, dying: map<Id, Table>, holders: map<Holder, Id>,
                   records': map<Id, Record>, dying': map<Id, Table>, id: Id)
    requires Counts(records, dying, holders, {}) && OnlyMoves(records, dying, records', dying', id)
    requires records'[id].refcount == records[id].refcount
    requires HomeOf(records, dying, id) != Nowhere
    requires forall x :: x in dying' ==> x in records' && records'[x].confirmed == Expired
    ensures Counts(records', dying', holders, if HomeOf(records', dying', id) == Nowhere then {id} else {})
  {
  }

  lemma InsertHolds(unconf: map<Cid, Id>, conf: map<Cid, Id>, records: map<Id, Record>, dying: map<Id, Table>,
                    id: Id, cid: Cid)
    requires Holds(unconf, UnconfirmedTable, records, dying) && Holds(conf, ConfirmedTable, records, dying)
    requires id !in records && cid !in unconf
    ensures var records' := records[id := Record(cid, Unconfirmed, 1)];
      Holds(unconf[cid := id], UnconfirmedTable, records', dying) && Holds(conf, ConfirmedTable, records', dying)
  {
    var records' := records[id := Record(cid, Unconfirmed, 1)];
    assert forall x :: x in records ==> HomeOf(records', dying, x) == HomeOf(records, dying, x);
  }

  lemma InsertCounts(records: map<Id, Record>, dying: map<Id, Table>, holders: map<Holder, Id>, id: Id, cid: Cid)
    requires Counts(records, dying, holders, {}) && id !in records
    ensures Counts(records[id := Record(cid, Unconfirmed, 1)], dying, holders, {})
  {
    var records' := records[id := Record(cid, Unconfirmed, 1)];
    assert Preimage(holders, id) == {};
    assert forall x :: x in records ==> Dues(records', dying, holders, x) == Dues(records, dying, holders, x);
  }

  lemma InsertSafe(s: State, id: Id, cid: Cid)
    requires Inv(s) && id !in s.records
    ensures Insert(s, id, cid).Done? && Inv(Insert(s, id, cid).s)
  {
    if cid !in s.unconf {
      InsertHolds(s.unconf, s.conf, s.records, s.dying, id, cid);
      InsertCounts(s.records, s.dying, s.holders, id, cid);
    }
  }

  /** The state when `id` becomes `to` and the tables follow. */
  function MovedState(s: State, id: Id, to: Confirmation, dying: map<Id, Table>): State
    requires id in s.records
  {
    var r := s.records[id];
    var records := s.records[id := r.(confirmed := to)];
    var was, now := HomeOf(s.records, s.dying, id), HomeOf(records, dying, id);
    State(records,
          Moved(s.unconf, r.cid, id, was == In(UnconfirmedTable), now == In(UnconfirmedTable)),
          Moved(s.conf, r.cid, id, was == In(ConfirmedTable), now == In(ConfirmedTable)),
          dying, s.holders)
  }

  ghost predicate OnlyDying(dying: map<Id, Table>, dying': map<Id, Table>, id: Id) {
    forall x :: x != id ==> (x in dying' <==> x in dying) && (x in dying ==> dying'[x] == dying[x])
  }

  lemma OnlyOneMoves(records: map<Id, Record>, dying: map<Id, Table>, dying': map<Id, Table>, id: Id, to: Confirmation)
    requires id in records && OnlyDying(dying, dying', id)
    ensures OnlyMoves(records, dying, records[id := records[id].(confirmed := to)], dying', id)
  {
  }

  /** A move that the operations make: out of a table, or marked as on the way out of it. */
  ghost predicate MayMove(s: State, id: Id, to: Confirmation, dying: map<Id, Table>) {
    && id in s.records && HomeOf(s.records, s.dying, id) != Nowhere
    && OnlyDying(s.dying, dying, id)
    && s.records[id].confirmed != to && to != Unconfirmed && (to == Confirmed ==> s.records[id].cid !in s.conf)
    && (id in dying ==> to == Expired && In(dying[id]) == HomeOf(s.records, s.dying, id))
  }

  lemma MoveTables(s: State, id: Id, to: Confirmation, dying: map<Id, Table>)
    requires Inv(s) && MayMove(s, id, to, dying)
    ensures var t := MovedState(s, id, to, dying);
      Holds(t.unconf, UnconfirmedTable, t.records, dying) && Holds(t.conf, ConfirmedTable, t.records, dying)
  {
    var records' := s.records[id := s.records[id].(confirmed := to)];
    OnlyOneMoves(s.records, s.dying, dying, id, to);
    MoveHolds(s.unconf, UnconfirmedTable, s.records, s.dying, records', dying, id);
    MoveHolds(s.conf, ConfirmedTable, s.records, s.dying, records', dying, id);
  }

  lemma MovedCounts(records: map<Id, Record>, dying: map<Id, Table>, holders: map<Holder, Id>,
                    dying': map<Id, Table>, id: Id, to: Confirmation)
    requires Counts(records, dying, holders, {}) && id in records && HomeOf(records, dying, id) != Nowhere
    requires OnlyDying(dying, dying', id) && (id in dying' ==> to == Expired)
    ensures var records' := records[id := records[id].(confirmed := to)];
      Counts(records', dying', holders, if HomeOf(records', dying', id) == Nowhere then {id} else {})
  {
    var records' := records[id := records[id].(confirmed := to)];
    OnlyOneMoves(records, dying, dying', id, to);
    forall x | x in dying' ensures x in records' && records'[x].confirmed == Expired {
      assert x != id ==> x in dying;
    }
    MoveCounts(records, dying, holders, records', dying', id);
  }

  lemma MoveSafe(s: State, id: Id, to: Confirmation, dying: map<Id, Table>)
    requires Inv(s) && MayMove(s, id, to, dying)
    ensures var t := MovedState(s, id, to, dying);
      InvBut(t, if HomeOf(t.records, dying, id) == Nowhere then {id} else {})
  {
    MoveTables(s, id, to, dying);
    MovedCounts(s.records, s.dying, s.holders, dying, id, to);
  }

  lemma ConfirmSafe(s: State, id: Id)
    requires Inv(s) && id in s.records && s.records[id].confirmed == Unconfirmed
    ensures Confirm(s, id).Done? && Inv(Confirm(s, id).s)
  {
    var to := if s.records[id].cid in s.conf then Expired else Confirmed;
    MoveSafe(s, id, to, s.dying);
    if to == Expired { DropRefSafe(MovedState(s, id, to, s.dying), id); }
  }

  lemma RemoveSafe(s: State, t: Table, id: Id)
    requires Inv(s) && id in s.records
    requires s.records[id].confirmed == if t == UnconfirmedTable then Unconfirmed else Confirmed
    ensures Remove(s, t, id).Done? && Inv(Remove(s, t, id).s)
  {
    MoveSafe(s, id, Expired, s.dying);
    DropRefSafe(MovedState(s, id, Expired, s.dying), id);
  }

  /** A record that is marked stays where it is. */
  lemma MarkedStays(s: State, id: Id, dying: map<Id, Table>)
    requires Inv(s) && id in s.records && s.records[id].confirmed != Expired
    requires dying == s.dying[id := if s.records[id].confirmed == Confirmed then ConfirmedTable else UnconfirmedTable]
    ensures MayMove(s, id, Expired, dying)
    ensures MovedState(s, id, Expired, dying) == ExpireMark(s, id).s
    ensures HomeOf(MovedState(s, id, Expired, dying).records, dying, id) != Nowhere
  {
  }

  lemma ExpireMarkSafe(s: State, id: Id)
    requires Inv(s) && id in s.records
    ensures ExpireMark(s, id).Done? && Inv(ExpireMark(s, id).s)
  {
    var r := s.records[id];
    if r.confirmed != Expired {
      var dying := s.dying[id := if r.confirmed == Confirmed then ConfirmedTable else UnconfirmedTable];
      MarkedStays(s, id, dying);
      MoveSafe(s, id, Expired, dying);
    }
  }

  /** The state when the expiry of `id` has cleared its table. */
  function ClearedState(s: State, id: Id): State
    requires id in s.records && id in s.dying
  {
    var cid := s.records[id].cid;
    (if s.dying[id] == UnconfirmedTable then s.(unconf := s.unconf - {cid}) else s.(conf := s.conf - {cid}))
    .(dying := s.dying - {id})
  }

  lemma ClearedSafe(s: State, id: Id)
    requires Inv(s) && id in s.dying
    ensures InvBut(ClearedState(s, id), {id}) && HomeOf(s.records, s.dying - {id}, id) == Nowhere
    ensures ExpireFinish(s, id) == DropRef(ClearedState(s, id), id)
  {
    var dying' := s.dying - {id};
    assert OnlyMoves(s.records, s.dying, s.records, dying', id);
    MoveHolds(s.unconf, UnconfirmedTable, s.records, s.dying, s.records, dying', id);
    MoveHolds(s.conf, ConfirmedTable, s.records, s.dying, s.records, dying', id);
    MoveCounts(s.records, s.dying, s.holders, s.records, dying', id);
  }

  /** The record is still where its mark says, so the assertion on its removal cannot fail. */
  lemma ExpireFinishSafe(s: State, id: Id)
    requires Inv(s) && id in s.dying
    ensures ExpireFinish(s, id).Done? && Inv(ExpireFinish(s, id).s)
  {
    ClearedSafe(s, id);
    DropRefSafe(ClearedState(s, id), id);
  }

  // ---- runs ---------------------------------------------------------------

  datatype Op =
    | DoInsert(id: Id, cid: Cid)
    | DoGet(h: Holder, t: Table, cid: Cid, epoch: nat)
    | DoAddRef(h: Holder, id: Id)
    | DoRelease(h: Holder)
    | DoConfirm(id: Id)
    | DoRemove(t: Table, id: Id)
    | DoExpireMark(id: Id)
    | DoExpireFinish(id: Id)

  /** What callers keep to: no stale pointers, and removal from a table only of what is there. */
  ghost predicate Can(s: State, op: Op) {
    match op
    case DoInsert(id, cid) => id !in s.records
    case DoGet(h, t, cid, epoch) => h !in s.holders
    case DoAddRef(h, id) => h !in s.holders && id in s.records
    case DoRelease(h) => h in s.holders
    case DoConfirm(id) => id in s.records && s.records[id].confirmed == Unconfirmed
    case DoRemove(t, id) =>
      id in s.records && s.records[id].confirmed == if t == UnconfirmedTable then Unconfirmed else Confirmed
    case DoExpireMark(id) => id in s.records
    case DoExpireFinish(id) => id in s.dying
  }

  ghost function Step(s: State, op: Op): Outcome
    requires Inv(s) && Can(s, op)
  {
    match op
    case DoInsert(id, cid) => Insert(s, id, cid)
    case DoGet(h, t, cid, epoch) => Get(s, h, t, cid, epoch)
    case DoAddRef(h, id) => AddRef(s, h, id)
    case DoRelease(h) => Release(s, h)
    case DoConfirm(id) => Confirm(s, id)
    case DoRemove(t, id) => Remove(s, t, id)
    case DoExpireMark(id) => ExpireMark(s, id)
    case DoExpireFinish(id) => ExpireFinish(s, id)
  }

  lemma StepSafe(s: State, op: Op)
    requires Inv(s) && Can(s, op)
    ensures Step(s, op).Done? && Inv(Step(s, op).s)
  {
    match op
    case DoInsert(id, cid) => InsertSafe(s, id, cid);
    case DoGet(h, t, cid, epoch) => GetSafe(s, h, t, cid, epoch);
    case DoAddRef(h, id) => AddRefSafe(s, h, id);
    case DoRelease(h) => ReleaseSafe(s, h);
    case DoConfirm(id) => ConfirmSafe(s, id);
    case DoRemove(t, id) => RemoveSafe(s, t, id);
    case DoExpireMark(id) => ExpireMarkSafe(s, id);
    case DoExpireFinish(id) => ExpireFinishSafe(s, id);
  }

  ghost predicate CanRun(s: State, ops: seq<Op>)
    requires Inv(s)
    decreases |ops|
  {
    ops == [] || (Can(s, ops[0]) && (StepSafe(s, ops[0]); CanRun(Step(s, ops[0]).s, ops[1..])))
  }

  ghost function Run(s: State, ops: seq<Op>): Outcome
    requires Inv(s) && CanRun(s, ops)
    decreases |ops|
  {
    if ops == [] then Done(s) else StepSafe(s, ops[0]); Run(Step(s, ops[0]).s, ops[1..])
  }

  /**
   In every run no assertion of the source fails, every record is in exactly the table
   its state names, counts are exact, and so no record is freed while tabled or held.
   */
  lemma {:induction false} RunSafe(s: State, ops: seq<Op>)
    requires Inv(s) && CanRun(s, ops)
    ensures Run(s, ops).Done? && Inv(Run(s, ops).s)
    decreases |ops|
  {
    if ops != [] {
      StepSafe(s, ops[0]);
      RunSafe(Step(s, ops[0]).s, ops[1..]);
    }
  }

  lemma StartsEmpty()
    ensures Inv(State(map[], map[], map[], map[], map[]))
  {
  }

  /** The record `id` has the client id `cid` and lives in the table. */
  ghost predicate Tabled(s: State, t: Table, cid: Cid, id: Id) {
    id in s.records && s.records[id].cid == cid && HomeOf(s.records, s.dying, id) == In(t)
  }

  /** A lookup finds a record exactly when one with that id lives in the table, expired or not. */
  lemma FindIffTabled(s: State, t: Table, cid: Cid, epoch: nat)
    requires Inv(s)
    ensures var found := Find(s, t, cid, epoch);
      && (found.Found? ==> Tabled(s, t, cid, found.id))
      && (cid / 0x1_0000_0000 == epoch ==> (found.Found? <==> exists id :: Tabled(s, t, cid, id)))
      && (cid / 0x1_0000_0000 != epoch ==> found == Stale)
  {
    var found := Find(s, t, cid, epoch);
    if found.Found? { assert Tabled(s, t, cid, found.id); }
  }

  // ---- what the operations do ----------------------------------------------

  /** Every other record and all holders are as they were. */
  ghost predicate OthersSame(s: State, s': State, id: Id) {
    && (forall x :: x != id ==> (x in s'.records <==> x in s.records))
    && (forall x :: x in s.records && x != id ==> s'.records[x] == s.records[x])
    && OnlyDying(s.dying, s'.dying, id)
    && s'.holders == s.holders
  }

  /** So other records are found where they were found. */
  lemma OthersStay(s: State, s': State, id: Id, t: Table, cid: Cid, x: Id)
    requires Inv(s) && Inv(s') && OthersSame(s, s', id) && x != id
    ensures FoundIn(s', t, cid, x) <==> FoundIn(s, t, cid, x)
  {
    TabledIsFound(s, t, cid, x);
    TabledIsFound(s', t, cid, x);
  }

  ghost predicate Vacant(s: State, t: Table, cid: Cid) {
    cid !in (if t == UnconfirmedTable then s.unconf else s.conf)
  }

  /** A lookup under the right epoch finds this record. */
  ghost predicate FoundIn(s: State, t: Table, cid: Cid, id: Id) {
    Find(s, t, cid, cid / 0x1_0000_0000) == Found(id)
  }

  lemma TabledIsFound(s: State, t: Table, cid: Cid, id: Id)
    requires Inv(s)
    ensures Tabled(s, t, cid, id) <==> FoundIn(s, t, cid, id)
  {
  }

  /** No lookup finds the record, and it is still there exactly if somebody holds it. */
  ghost predicate Untabled(s: State, id: Id) {
    && (forall c :: c in s.unconf ==> s.unconf[c] != id)
    && (forall c :: c in s.conf ==> s.conf[c] != id)
    && (id in s.records <==> Preimage(s.holders, id) != {})
  }

  lemma HomelessIsUntabled(s: State, id: Id)
    requires Inv(s) && (id in s.records ==> HomeOf(s.records, s.dying, id) == Nowhere)
    ensures Untabled(s, id)
  {
    if id in s.records {
      assert |Preimage(s.holders, id)| > 0;
    } else {
      assert Preimage(s.holders, id) == {};
    }
  }

  /** The last step of leaving a table. */
  lemma DropEffect(s: State, id: Id)
    requires InvBut(s, {id}) && id in s.records && HomeOf(s.records, s.dying, id) == Nowhere
    ensures DropRef(s, id).Done?
    ensures var s' := DropRef(s, id).s;
      OthersSame(s, s', id) && Untabled(s', id) && s'.unconf == s.unconf && s'.conf == s.conf && s'.dying == s.dying
  {
    DropRefSafe(s, id);
    HomelessIsUntabled(DropRef(s, id).s, id);
  }

  lemma SameTwice(s: State, s1: State, s2: State, id: Id)
    requires OthersSame(s, s1, id) && OthersSame(s1, s2, id)
    ensures OthersSame(s, s2, id)
  {
  }

  /** A new record is found among the unconfirmed exactly if its client id was free there. */
  lemma InsertEffect(s: State, id: Id, cid: Cid)
    requires Inv(s) && Can(s, DoInsert(id, cid))
    ensures var s' := Insert(s, id, cid).s;
      && OthersSame(s, s', id)
      && (Vacant(s, UnconfirmedTable, cid) ==>
            id in s'.records && s'.records[id] == Record(cid, Unconfirmed, 1) && FoundIn(s', UnconfirmedTable, cid, id))
      && (!Vacant(s, UnconfirmedTable, cid) ==> s' == s)
  {
  }

  /** Confirming a record moves it to the other table, with its count, if its client id is free there. */
  lemma ConfirmMoves(s: State, id: Id)
    requires Inv(s) && Can(s, DoConfirm(id)) && Vacant(s, ConfirmedTable, s.records[id].cid)
    ensures Confirm(s, id).Done?
    ensures var s' := Confirm(s, id).s; var r := s.records[id];
      && OthersSame(s, s', id)
      && id in s'.records && s'.records[id] == r.(confirmed := Confirmed)
      && FoundIn(s', ConfirmedTable, r.cid, id) && Vacant(s', UnconfirmedTable, r.cid)
  {
  }

  /** The state when `id` has left its table for none and its reference has yet to be taken off. */
  lemma LeaveSafe(s: State, id: Id)
    requires Inv(s) && id in s.records && s.records[id].confirmed != Expired
    ensures var s1 := MovedState(s, id, Expired, s.dying); var r := s.records[id];
      && InvBut(s1, {id}) && HomeOf(s1.records, s1.dying, id) == Nowhere
      && OthersSame(s, s1, id) && (r.confirmed == Unconfirmed ==> Vacant(s1, UnconfirmedTable, r.cid))
      && (r.confirmed == Confirmed ==> Vacant(s1, ConfirmedTable, r.cid))
  {
    MoveSafe(s, id, Expired, s.dying);
  }

  lemma LeaveEffect(s: State, id: Id)
    requires Inv(s) && id in s.records && s.records[id].confirmed != Expired
    ensures var left := DropRef(MovedState(s, id, Expired, s.dying), id); var r := s.records[id];
      && left.Done? && OthersSame(s, left.s, id) && Untabled(left.s, id)
      && (r.confirmed == Unconfirmed ==> Vacant(left.s, UnconfirmedTable, r.cid))
      && (r.confirmed == Confirmed ==> Vacant(left.s, ConfirmedTable, r.cid))
  {
    var s1 := MovedState(s, id, Expired, s.dying);
    LeaveSafe(s, id);
    DropEffect(s1, id);
    SameTwice(s, s1, DropRef(s1, id).s, id);
  }

  /** Which is what removing a record does, and confirming one whose client id is taken. */
  lemma RemoveLeaves(s: State, t: Table, id: Id)
    requires Inv(s) && Can(s, DoRemove(t, id))
    ensures Remove(s, t, id) == DropRef(MovedState(s, id, Expired, s.dying), id)
  {
  }

  lemma ConfirmLeaves(s: State, id: Id)
    requires Inv(s) && Can(s, DoConfirm(id)) && !Vacant(s, ConfirmedTable, s.records[id].cid)
    ensures Confirm(s, id) == DropRef(MovedState(s, id, Expired, s.dying), id)
  {
  }

  /** Otherwise it leaves its table for none. */
  lemma ConfirmLoses(s: State, id: Id)
    requires Inv(s) && Can(s, DoConfirm(id)) && !Vacant(s, ConfirmedTable, s.records[id].cid)
    ensures Confirm(s, id).Done?
    ensures var s' := Confirm(s, id).s;
      OthersSame(s, s', id) && Untabled(s', id) && Vacant(s', UnconfirmedTable, s.records[id].cid)
  {
    LeaveEffect(s, id);
    ConfirmLeaves(s, id);
  }

  /** Removing a record takes it out of its table. */
  lemma RemoveEffect(s: State, t: Table, id: Id)
    requires Inv(s) && Can(s, DoRemove(t, id))
    ensures Remove(s, t, id).Done?
    ensures var s' := Remove(s, t, id).s;
      OthersSame(s, s', id) && Untabled(s', id) && Vacant(s', t, s.records[id].cid)
  {
    LeaveEffect(s, id);
    RemoveLeaves(s, t, id);
  }

  /** Marking a record expired leaves it where it was, with its count; it is done once. */
  lemma ExpireMarkEffect(s: State, id: Id)
    requires Inv(s) && Can(s, DoExpireMark(id))
    ensures var s' := ExpireMark(s, id).s; var r := s.records[id];
      && OthersSame(s, s', id) && s'.unconf == s.unconf && s'.conf == s.conf
      && id in s'.records && s'.records[id] == r.(confirmed := Expired)
      && HomeOf(s'.records, s'.dying, id) == HomeOf(s.records, s.dying, id)
      && (r.confirmed == Expired ==> s' == s) && (r.confirmed != Expired ==> Can(s', DoExpireFinish(id)))
  {
  }

  /** The rest of its expiry takes it out of its table. */
  lemma ExpireFinishEffect(s: State, id: Id)
    requires Inv(s) && Can(s, DoExpireFinish(id))
    ensures ExpireFinish(s, id).Done?
    ensures var s' := ExpireFinish(s, id).s;
      && OthersSame(s, s', id) && Untabled(s', id) && Vacant(s', s.dying[id], s.records[id].cid) && id !in s'.dying
  {
    ClearedSafe(s, id);
    DropEffect(ClearedState(s, id), id);
    SameTwice(s, ClearedState(s, id), ExpireFinish(s, id).s, id);
  }

  /** A lookup that finds a record refers to it, and changes nothing else. */
  lemma GetEffect(s: State, h: Holder, t: Table, cid: Cid, epoch: nat)
    requires Inv(s) && Can(s, DoGet(h, t, cid, epoch))
    ensures var s' := Get(s, h, t, cid, epoch).s;
      match Find(s, t, cid, epoch)
      case Found(id) => Tabled(s, t, cid, id) && s' == s.(records := s'.records, holders := s.holders[h := id])
                        && s'.records == s.records[id := s.records[id].(refcount := s.records[id].refcount + 1)]
      case _ => s' == s
  {
  }

  /** Letting go of a record frees it exactly if no table and nobody else has it. */
  lemma ReleaseEffect(s: State, h: Holder)
    requires Inv(s) && Can(s, DoRelease(h))
    ensures Release(s, h).Done?
    ensures var s' := Release(s, h).s; var id := s.holders[h];
      && s' == s.(records := s'.records, holders := s.holders - {h})
      && (forall x :: x in s.records && x != id ==> x in s'.records && s'.records[x] == s.records[x])
      && (id !in s'.records <==> HomeOf(s.records, s.dying, id) == Nowhere && |Preimage(s.holders, id)| == 1)
  {
    var id := s.holders[h];
    assert h in Preimage(s.holders, id);
    assert s.records[id].refcount == Dues(s.records, s.dying, s.holders, id);
  }

  // ---- the operations in place --------------------------------------------

  class ClientTables {
    var records: map<Id, Record>
    var unconf: map<Cid, Id>
    var conf: map<Cid, Id>
    var dying: map<Id, Table>
    var holders: map<Holder, Id>

    function Now(): State
      reads this
    {
      State(records, unconf, conf, dying, holders)
    }

    /** dec_client_id_ref; `ok` is false where the source asserts. */
    method DecRef(id: Id) returns (ok: bool)
      requires id in records
      modifies this
      ensures DropRef(old(Now()), id) == if ok then Done(Now()) else AssertionFails
      ensures old(InvBut(Now(), {id})) ==> ok && Inv(Now())
    {
      if InvBut(Now(), {id}) { DropRefSafe(Now(), id); }
      var refcount := records[id].refcount - 1;
      if refcount > 0 {
        records := records[id := records[id].(refcount := refcount)];
        return true;
      }
      ok := records[id].confirmed == Expired;
      if ok {
        records := records - {id};
      }
    }

    /** nfs_client_id_insert of a record just created. */
    method InsertClient(id: Id, cid: Cid) returns (inserted: bool)
      modifies this
      ensures Done(Now()) == Insert(old(Now()), id, cid) && inserted == (cid !in old(unconf))
      ensures old(Inv(Now())) && id !in old(records) ==> Inv(Now())
    {
      if Inv(Now()) && id !in records { InsertSafe(Now(), id, cid); }
      inserted := cid !in unconf;
      if inserted {
        unconf := unconf[cid := id];
        records := records[id := Record(cid, Unconfirmed, 1)];
      }
    }

    /** nfs_client_id_get. */
    method GetClient(h: Holder, t: Table, cid: Cid, epoch: nat) returns (r: Lookup)
      requires forall c :: (c in unconf ==> unconf[c] in records) && (c in conf ==> conf[c] in records)
      modifies this
      ensures Done(Now()) == Get(old(Now()), h, t, cid, epoch) && r == Find(old(Now()), t, cid, epoch)
      ensures old(Inv(Now())) && h !in old(holders) ==> Inv(Now())
    {
      if Inv(Now()) && h !in holders { GetSafe(Now(), h, t, cid, epoch); }
      if cid / 0x1_0000_0000 != epoch {
        return Stale;
      }
      var table := if t == UnconfirmedTable then unconf else conf;
      if cid !in table {
        return NotFound;
      }
      var id := table[cid];
      records := records[id := records[id].(refcount := records[id].refcount + 1)];
      holders := holders[h := id];
      return Found(id);
    }

    /** nfs_client_id_confirm. */
    method ConfirmClient(id: Id) returns (ok: bool)
      requires id in records
      modifies this
      ensures Confirm(old(Now()), id) == if ok then Done(Now()) else AssertionFails
      ensures old(Inv(Now()) && Can(Now(), DoConfirm(id))) ==> ok && Inv(Now())
    {
      if Inv(Now()) && Can(Now(), DoConfirm(id)) { ConfirmSafe(Now(), id); }
      var cid := records[id].cid;
      if cid !in unconf {
        return true;
      }
      unconf := unconf - {cid};
      if cid in conf {
        records := records[id := records[id].(confirmed := Expired)];
        ok := DecRef(id);
      } else {
        records := records[id := records[id].(confirmed := Confirmed)];
        conf := conf[cid := id];
        ok := true;
      }
    }

    /** remove_confirmed_client_id and remove_unconfirmed_client_id. */
    method RemoveClient(t: Table, id: Id) returns (ok: bool)
      requires id in records
      modifies this
      ensures Remove(old(Now()), t, id) == if ok then Done(Now()) else AssertionFails
      ensures old(Inv(Now()) && Can(Now(), DoRemove(t, id))) ==> ok && Inv(Now())
    {
      if Inv(Now()) && Can(Now(), DoRemove(t, id)) { RemoveSafe(Now(), t, id); }
      var cid := records[id].cid;
      if cid !in (if t == UnconfirmedTable then unconf else conf) {
        return true;
      }
      if t == UnconfirmedTable {
        unconf := unconf - {cid};
      } else {
        conf := conf - {cid};
      }
      records := records[id := records[id].(confirmed := Expired)];
      ok := DecRef(id);
    }

    /** nfs_client_id_expire up to the release of the record's mutex. */
    method MarkExpired(id: Id) returns (marked: bool)
      requires id in records
      modifies this
      ensures Done(Now()) == ExpireMark(old(Now()), id) && marked == (old(records[id].confirmed) != Expired)
      ensures old(Inv(Now())) ==> Inv(Now())
    {
      if Inv(Now()) { ExpireMarkSafe(Now(), id); }
      marked := records[id].confirmed != Expired;
      if marked {
        dying := dying[id := if records[id].confirmed == Confirmed then ConfirmedTable else UnconfirmedTable];
        records := records[id := records[id].(confirmed := Expired)];
      }
    }

    /** The rest of nfs_client_id_expire. */
    method FinishExpiry(id: Id) returns (ok: bool)
      requires id in records && id in dying
      modifies this
      ensures ExpireFinish(old(Now()), id) == if ok then Done(Now()) else AssertionFails
      ensures old(Inv(Now())) ==> ok && Inv(Now())
    {
      if Inv(Now()) { ExpireFinishSafe(Now(), id); }
      var cid := records[id].cid;
      var t := dying[id];
      if cid !in (if t == UnconfirmedTable then unconf else conf) {
        return false;
      }
      if t == UnconfirmedTable {
        unconf := unconf - {cid};
      } else {
        conf := conf - {cid};
      }
      dying := dying - {id};
      ok := DecRef(id);
    }
  }
}
