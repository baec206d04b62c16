/**
 The states that owners hold on files: share reservations, delegations, locks, layouts.

 Every state is in the list of its file, in the list of its owner and in the table of
 stateids; a file is pinned while its list is not empty.
 */
module FileStates {
  import opened Collections

  type Sid = nat      // a state record
  type File = nat
  type Owner = nat
  type Other = nat    // the part of a stateid that names the state

  /** Share access and deny bits. */
  datatype Mode = Read | Write
  datatype Kind =
    | NoKind
    | Share(access: set<Mode>, deny: set<Mode>)
    | Deleg(write: bool)
    | Lock
    | Layout

  datatype StateRec = StateRec(kind: Kind, file: File, owner: Owner, other: Other)

  datatype World = World(
    states: map<Sid, StateRec>,
    files: map<File, seq<Sid>>,
    owners: map<Owner, seq<Sid>>,
    table: map<Other, Sid>,
    pins: map<File, int>,
    refs: map<Owner, int>)

  datatype Status = Success | Conflict | MallocError | PinError

  // ---- conflicts ----------------------------------------------------------

  /** state_conflict: would the candidate conflict with the existing state? */
  predicate StateConflict(existing: Kind, candidate: Kind) {
    match candidate
    case NoKind => false
    case Share(access, deny) => existing.Share? && (existing.access * deny != {} || existing.deny * access != {})
    case Lock => false
    case Layout => false
    case Deleg(write) =>
      existing.Share? && (if write then existing.access * {Read, Write} != {} else Write in existing.access)
  }

  lemma ShareConflictSymmetric(a: Kind, b: Kind)
    requires a.Share? && b.Share?
    ensures StateConflict(a, b) <==> StateConflict(b, a)
  {
    assert a.access * b.deny == b.deny * a.access && a.deny * b.access == b.access * a.deny;
  }

  /** A read delegation tolerates readers, a write delegation nobody; no other kind conflicts with anything. */
  lemma WhatDelegationsExclude(existing: Kind, k: Kind)
    ensures k == Deleg(false) ==> (StateConflict(existing, k) <==> existing.Share? && Write in existing.access)
    ensures k == Deleg(true) ==>
      (StateConflict(existing, k) <==> existing.Share? && (Read in existing.access || Write in existing.access))
    ensures (k.NoKind? || k.Lock? || k.Layout?) || !existing.Share? ==> !StateConflict(existing, k)
  {
    if existing.Share? {
      assert existing.access * {Read, Write} != {} <==> Read in existing.access || Write in existing.access by {
        if m :| m in existing.access * {Read, Write} { assert m == Read || m == Write; }
        assert Read in existing.access ==> Read in existing.access * {Read, Write};
        assert Write in existing.access ==> Write in existing.access * {Read, Write};
      }
    }
  }

  // ---- the operations -----------------------------------------------------

  /** The list or the count of a key, if there is none yet an empty one. */
  function ListAt(lists: map<nat, seq<Sid>>, k: nat): seq<Sid> {
    if k in lists then lists[k] else []
  }

  function CountAt(counts: map<nat, int>, k: nat): int {
    if k in counts then counts[k] else 0
  }

  function FileList(w: World, f: File): seq<Sid> {
    ListAt(w.files, f)
  }

  function OwnerList(w: World, o: Owner): seq<Sid> {
    ListAt(w.owners, o)
  }

  function Pins(w: World, f: File): int {
    CountAt(w.pins, f)
  }

  function Refs(w: World, o: Owner): int {
    CountAt(w.refs, o)
  }

  predicate AnyConflict(w: World, f: File, k: Kind) {
    exists sid :: sid in FileList(w, f) && sid in w.states && StateConflict(w.states[sid].kind, k)
  }

  function AddStatus(w: World, st: StateRec, pinnable: bool): Status {
    if FileList(w, st.file) == [] && !pinnable then PinError
    else if AnyConflict(w, st.file, st.kind) then Conflict
    else if st.other in w.table then MallocError
    else Success
  }

  /** The world with a state linked in everywhere. */
  function Linked(w: World, sid: Sid, st: StateRec): World {
    World(w.states[sid := st],
          w.files[st.file := FileList(w, st.file) + [sid]],
          w.owners[st.owner := OwnerList(w, st.owner) + [sid]],
          w.table[st.other := sid],
          if FileList(w, st.file) == [] then w.pins[st.file := Pins(w, st.file) + 1] else w.pins,
          w.refs[st.owner := Refs(w, st.owner) + 1])
  }

  /** The world with a state taken out everywhere. */
  function Unlinked(w: World, sid: Sid): World
    requires sid in w.states
  {
    var st := w.states[sid];
    var rest := Without(FileList(w, st.file), sid);
    World(w.states - {sid},
          w.files[st.file := rest],
          w.owners[st.owner := Without(OwnerList(w, st.owner), sid)],
          w.table - {st.other},
          if rest == [] then w.pins[st.file := Pins(w, st.file) - 1] else w.pins,
          w.refs[st.owner := Refs(w, st.owner) - 1])
  }

  // ---- what always holds --------------------------------------------------

  function OfFile(states: map<Sid, StateRec>, f: File): set<Sid> {
    set sid | sid in states && states[sid].file == f
  }

  function OfOwner(states: map<Sid, StateRec>, o: Owner): set<Sid> {
    set sid | sid in states && states[sid].owner == o
  }

  ghost predicate TableOk(states: map<Sid, StateRec>, table: map<Other, Sid>) {
    && (forall k :: k in table ==> table[k] in states && states[table[k]].other == k)
    && (forall sid :: sid in states ==> states[sid].other in table && table[states[sid].other] == sid)
  }

  /** No two share states of a file exclude each other. */
  ghost predicate Compatible(states: map<Sid, StateRec>) {
    forall a, b :: (a in states && b in states && a != b && states[a].file == states[b].file
                    && states[a].kind.Share? && states[b].kind.Share?)
                   ==> !StateConflict(states[a].kind, states[b].kind)
  }

  ghost predicate FileOk(w: World, f: File) {
    && Enumerates(FileList(w, f), OfFile(w.states, f))
    && Pins(w, f) == if FileList(w, f) == [] then 0 else 1
  }

  ghost predicate OwnerOk(w: World, o: Owner) {
    && Enumerates(OwnerList(w, o), OfOwner(w.states, o))
    && Refs(w, o) == |OwnerList(w, o)|
  }

  ghost predicate Inv(w: World) {
    && (forall f :: FileOk(w, f))
    && (forall o :: OwnerOk(w, o))
    && TableOk(w.states, w.table)
    && Compatible(w.states)
  }

  // ---- adding -------------------------------------------------------------

  lemma AddFileOk(w: World, sid: Sid, st: StateRec, f: File)
    requires FileOk(w, f) && sid !in w.states
    ensures FileOk(Linked(w, sid, st), f)
  {
    var w' := Linked(w, sid, st);
    if f == st.file {
      AddOne(FileList(w, f), OfFile(w.states, f), sid);
      assert OfFile(w'.states, f) == OfFile(w.states, f) + {sid};
    } else {
      assert OfFile(w'.states, f) == OfFile(w.states, f);
    }
  }

  lemma AddOwnerOk(w: World, sid: Sid, st: StateRec, o: Owner)
    requires OwnerOk(w, o) && sid !in w.states
    ensures OwnerOk(Linked(w, sid, st), o)
  {
    var w' := Linked(w, sid, st);
    if o == st.owner {
      AddOne(OwnerList(w, o), OfOwner(w.states, o), sid);
      assert OfOwner(w'.states, o) == OfOwner(w.states, o) + {sid};
    } else {
      assert OfOwner(w'.states, o) == OfOwner(w.states, o);
    }
  }

  lemma AddCompatible(w: World, sid: Sid, st: StateRec)
    requires Compatible(w.states) && sid !in w.states && FileOk(w, st.file) && !AnyConflict(w, st.file, st.kind)
    ensures Compatible(w.states[sid := st])
  {
    forall a | a in w.states && w.states[a].file == st.file && w.states[a].kind.Share? && st.kind.Share?
      ensures !StateConflict(w.states[a].kind, st.kind) && !StateConflict(st.kind, w.states[a].kind)
    {
      assert a in OfFile(w.states, st.file);
      assert a in FileList(w, st.file);
      ShareConflictSymmetric(w.states[a].kind, st.kind);
    }
  }

  /** A successful addition keeps every list, the table, the pin and the compatibility of shares. */
  lemma AddInv(w: World, sid: Sid, st: StateRec, pinnable: bool)
    requires Inv(w) && sid !in w.states && AddStatus(w, st, pinnable) == Success
    ensures Inv(Linked(w, sid, st))
  {
    forall f ensures FileOk(Linked(w, sid, st), f) { AddFileOk(w, sid, st, f); }
    forall o ensures OwnerOk(Linked(w, sid, st), o) { AddOwnerOk(w, sid, st, o); }
    AddCompatible(w, sid, st);
  }

  // ---- deleting -----------------------------------------------------------

  lemma DelFileOk(w: World, sid: Sid, f: File)
    requires FileOk(w, f) && sid in w.states
    ensures FileOk(Unlinked(w, sid), f)
  {
    var w' := Unlinked(w, sid);
    assert OfFile(w'.states, f) == OfFile(w.states, f) - {sid};
    if f == w.states[sid].file {
      assert sid in OfFile(w.states, f);
      RemoveOne(FileList(w, f), OfFile(w.states, f), sid);
      assert FileList(w, f) != [];
    } else {
      assert OfFile(w.states, f) - {sid} == OfFile(w.states, f);
    }
  }

  lemma DelOwnerOk(w: World, sid: Sid, o: Owner)
    requires OwnerOk(w, o) && sid in w.states
    ensures OwnerOk(Unlinked(w, sid), o)
  {
    var w' := Unlinked(w, sid);
    assert OfOwner(w'.states, o) == OfOwner(w.states, o) - {sid};
    if o == w.states[sid].owner {
      assert sid in OfOwner(w.states, o);
      RemoveOne(OwnerList(w, o), OfOwner(w.states, o), sid);
    } else {
      assert OfOwner(w.states, o) - {sid} == OfOwner(w.states, o);
    }
  }

  lemma DelInv(w: World, sid: Sid)
    requires Inv(w) && sid in w.states
    ensures Inv(Unlinked(w, sid))
  {
    forall f ensures FileOk(Unlinked(w, sid), f) { DelFileOk(w, sid, f); }
    forall o ensures OwnerOk(Unlinked(w, sid), o) { DelOwnerOk(w, sid, o); }
  }

  // ---- wiping -------------------------------------------------------------

  /** The world after the states of `sids` have been deleted in order. */
  function Wiped(w: World, sids: seq<Sid>): World
    decreases |sids|
  {
    if sids == [] then w
    else if sids[0] in w.states then Wiped(Unlinked(w, sids[0]), sids[1..])
    else Wiped(w, sids[1..])
  }

  lemma {:induction false} WipedStates(w: World, sids: seq<Sid>)
    ensures Wiped(w, sids).states == w.states - (set x | x in sids)
    decreases |sids|
  {
    if sids == [] {
      assert (set x | x in sids) == {};
    } else {
      WipedStates(if sids[0] in w.states then Unlinked(w, sids[0]) else w, sids[1..]);
      assert (set x | x in sids) == (set x | x in sids[1..]) + {sids[0]};
    }
  }

  lemma {:induction false} WipeInv(w: World, sids: seq<Sid>)
    requires Inv(w)
    ensures Inv(Wiped(w, sids))
    decreases |sids|
  {
    if sids != [] {
      if sids[0] in w.states {
        DelInv(w, sids[0]);
        WipeInv(Unlinked(w, sids[0]), sids[1..]);
      } else {
        WipeInv(w, sids[1..]);
      }
    }
  }

  lemma NothingLeft(w: World, f: File)
    requires FileOk(w, f) && OfFile(w.states, f) == {}
    ensures FileList(w, f) == [] && Pins(w, f) == 0
  {
    if FileList(w, f) != [] { HasMember(FileList(w, f)); }
  }

  /** Wiping a file leaves it without state and unpinned, and keeps the states of all other files. */
  lemma WipeFile(w: World, f: File)
    requires Inv(w)
    ensures var w' := Wiped(w, FileList(w, f));
      && FileList(w', f) == [] && Pins(w', f) == 0
      && (forall sid :: sid in w'.states <==> sid in w.states && w.states[sid].file != f)
      && (forall sid :: sid in w'.states ==> w'.states[sid] == w.states[sid])
  {
    var list := FileList(w, f);
    assert FileOk(w, f);
    assert forall x :: x in list <==> x in OfFile(w.states, f);
    WipeInv(w, list);
    WipedStates(w, list);
    var w' := Wiped(w, list);
    assert FileOk(w', f);
    NothingLeft(w', f);
  }

  // ---- what adding and deleting do ----------------------------------------

  /** Some state of the file excludes a state of this kind. */
  ghost predicate Excluded(states: map<Sid, StateRec>, f: File, k: Kind) {
    exists sid :: sid in states && states[sid].file == f && StateConflict(states[sid].kind, k)
  }

  ghost predicate Taken(states: map<Sid, StateRec>, other: Other) {
    exists sid :: sid in states && states[sid].other == other
  }

  lemma ExcludedIsListed(w: World, f: File, k: Kind)
    requires FileOk(w, f)
    ensures AnyConflict(w, f, k) <==> Excluded(w.states, f, k)
  {
    assert forall sid :: sid in FileList(w, f) <==> sid in OfFile(w.states, f);
  }

  /** The answer to an addition, told from the states themselves. */
  lemma AddStatusIs(w: World, st: StateRec, pinnable: bool)
    requires Inv(w)
    ensures var status := AddStatus(w, st, pinnable); var first := OfFile(w.states, st.file) == {};
      && (status == Success <==>
            (first ==> pinnable) && !Excluded(w.states, st.file, st.kind) && !Taken(w.states, st.other))
      && (status == PinError <==> first && !pinnable)
      && (status == Conflict <==> Excluded(w.states, st.file, st.kind))
  {
    assert FileOk(w, st.file);
    ExcludedIsListed(w, st.file, st.kind);
    assert FileList(w, st.file) == [] <==> OfFile(w.states, st.file) == {} by {
      if FileList(w, st.file) != [] { HasMember(FileList(w, st.file)); }
    }
    if st.other in w.table { assert w.states[w.table[st.other]].other == st.other; }
  }

  /** An added state is in the lists of its file and its owner and found by its stateid; nothing else moves. */
  lemma AddEffect(w: World, sid: Sid, st: StateRec)
    requires Inv(w) && sid !in w.states
    ensures var w' := Linked(w, sid, st);
      && w'.states == w.states[sid := st]
      && w'.table == w.table[st.other := sid]
      && (forall f :: FileList(w', f) == if f == st.file then FileList(w, f) + [sid] else FileList(w, f))
      && (forall o :: OwnerList(w', o) == if o == st.owner then OwnerList(w, o) + [sid] else OwnerList(w, o))
  {
  }

  /** A deleted state is in no list and not found; the others keep their order. */
  lemma DelEffect(w: World, sid: Sid)
    requires Inv(w) && sid in w.states
    ensures var w' := Unlinked(w, sid); var st := w.states[sid];
      && w'.states == w.states - {sid} && w'.table == w.table - {st.other}
      && (forall f :: FileList(w', f) == if f == st.file then Without(FileList(w, f), sid) else FileList(w, f))
      && (forall o :: OwnerList(w', o) == if o == st.owner then Without(OwnerList(w, o), sid) else OwnerList(w, o))
  {
  }

  // ---- upgrades and downgrades --------------------------------------------

  /** The world with other share modes for a state. */
  function Reshared(w: World, sid: Sid, k: Kind): World
    requires sid in w.states
  {
    w.(states := w.states[sid := w.states[sid].(kind := k)])
  }

  /** Its share modes and nothing else change. */
  lemma ReshareEffect(w: World, sid: Sid, k: Kind, x: Sid)
    requires sid in w.states && x in w.states
    ensures var w' := Reshared(w, sid, k);
      && w'.states.Keys == w.states.Keys
      && w'.states[x] == (if x == sid then w.states[x].(kind := k) else w.states[x])
      && w'.files == w.files && w'.owners == w.owners && w'.table == w.table
  {
  }

  lemma ReshareInv(w: World, sid: Sid, k: Kind)
    requires Inv(w) && sid in w.states && Compatible(Reshared(w, sid, k).states)
    ensures Inv(Reshared(w, sid, k))
  {
    var w' := Reshared(w, sid, k);
    forall f ensures FileOk(w', f) {
      assert FileOk(w, f);
      assert OfFile(w'.states, f) == OfFile(w.states, f);
    }
    forall o ensures OwnerOk(w', o) {
      assert OwnerOk(w, o);
      assert OfOwner(w'.states, o) == OfOwner(w.states, o);
    }
  }

  /** Share modes that conflict with no state of the file may be added to a state. */
  lemma UpgradeCompatible(w: World, sid: Sid, access: set<Mode>, deny: set<Mode>)
    requires Inv(w) && sid in w.states && w.states[sid].kind.Share?
    requires !AnyConflict(w, w.states[sid].file, Share(access, deny))
    ensures var k := w.states[sid].kind; Compatible(Reshared(w, sid, Share(k.access + access, k.deny + deny)).states)
  {
    var st := w.states[sid];
    var more := Share(st.kind.access + access, st.kind.deny + deny);
    forall a | a in w.states && a != sid && w.states[a].file == st.file && w.states[a].kind.Share?
      ensures !StateConflict(w.states[a].kind, more) && !StateConflict(more, w.states[a].kind)
    {
      var other := w.states[a].kind;
      assert FileOk(w, st.file);
      assert a in OfFile(w.states, st.file);
      assert a in FileList(w, st.file);
      assert !StateConflict(other, st.kind) && !StateConflict(other, Share(access, deny));
      assert other.access * more.deny == other.access * st.kind.deny + other.access * deny;
      assert other.deny * more.access == other.deny * st.kind.access + other.deny * access;
      ShareConflictSymmetric(other, more);
    }
  }

  /** And share modes may always be given up. */
  lemma DowngradeCompatible(w: World, sid: Sid, access: set<Mode>, deny: set<Mode>)
    requires Compatible(w.states) && sid in w.states && w.states[sid].kind.Share?
    requires access <= w.states[sid].kind.access && deny <= w.states[sid].kind.deny
    ensures Compatible(Reshared(w, sid, Share(access, deny)).states)
  {
    var st := w.states[sid];
    forall a | a in w.states && a != sid && w.states[a].file == st.file && w.states[a].kind.Share?
      ensures !StateConflict(w.states[a].kind, Share(access, deny))
      ensures !StateConflict(Share(access, deny), w.states[a].kind)
    {
      var other := w.states[a].kind;
      assert !StateConflict(other, st.kind);
      assert other.access * deny <= other.access * st.kind.deny && other.deny * access <= other.deny * st.kind.access;
      ShareConflictSymmetric(other, Share(access, deny));
    }
  }

  // ---- runs ---------------------------------------------------------------

  /** What an upgrade is granted, and when, is the matter of the counters of the file. */
  datatype Op =
    | Add(sid: Sid, st: StateRec, pinnable: bool)
    | Upgrade(sid: Sid, access: set<Mode>, deny: set<Mode>)
    | Downgrade(sid: Sid, access: set<Mode>, deny: set<Mode>)
    | Del(sid: Sid)
    | Wipe(f: File)

  ghost predicate Can(w: World, op: Op) {
    match op
    case Add(sid, st, _) => sid !in w.states
    case Upgrade(sid, access, deny) =>
      sid in w.states && w.states[sid].kind.Share? && !AnyConflict(w, w.states[sid].file, Share(access, deny))
    case Downgrade(sid, access, deny) =>
      sid in w.states && w.states[sid].kind.Share?
      && access <= w.states[sid].kind.access && deny <= w.states[sid].kind.deny
    case Del(sid) => sid in w.states
    case Wipe(f) => true
  }

  ghost function Next(w: World, op: Op): World
    requires Can(w, op)
  {
    match op
    case Add(sid, st, pinnable) => if AddStatus(w, st, pinnable) == Success then Linked(w, sid, st) else w
    case Upgrade(sid, access, deny) =>
      var k := w.states[sid].kind;
      Reshared(w, sid, Share(k.access + access, k.deny + deny))
    case Downgrade(sid, access, deny) => Reshared(w, sid, Share(access, deny))
    case Del(sid) => Unlinked(w, sid)
    case Wipe(f) => Wiped(w, FileList(w, f))
  }

  ghost predicate CanRun(w: World, ops: seq<Op>)
    decreases |ops|
  {
    ops == [] || (Can(w, ops[0]) && CanRun(Next(w, ops[0]), ops[1..]))
  }

  ghost function Run(w: World, ops: seq<Op>): World
    requires CanRun(w, ops)
    decreases |ops|
  {
    if ops == [] then w else Run(Next(w, ops[0]), ops[1..])
  }

  lemma NextInv(w: World, op: Op)
    requires Inv(w) && Can(w, op)
    ensures Inv(Next(w, op))
  {
    match op
    case Add(sid, st, pinnable) =>
      if AddStatus(w, st, pinnable) == Success { AddInv(w, sid, st, pinnable); }
    case Upgrade(sid, access, deny) =>
      var k := w.states[sid].kind;
      UpgradeCompatible(w, sid, access, deny);
      ReshareInv(w, sid, Share(k.access + access, k.deny + deny));
    case Downgrade(sid, access, deny) =>
      DowngradeCompatible(w, sid, access, deny);
      ReshareInv(w, sid, Share(access, deny));
    case Del(sid) => DelInv(w, sid);
    case Wipe(f) => WipeInv(w, FileList(w, f));
  }

  /**
   In every run of additions, upgrades, downgrades, deletions and wipes, lists and table agree, a file is pinned
   exactly once while it has states, and the share states of a file are compatible.
   */
  lemma {:induction false} RunInv(w: World, ops: seq<Op>)
    requires Inv(w) && CanRun(w, ops)
    ensures Inv(Run(w, ops))
    decreases |ops|
  {
    if ops != [] {
      NextInv(w, ops[0]);
      RunInv(Next(w, ops[0]), ops[1..]);
    }
  }

  lemma StartsEmpty()
    ensures Inv(World(map[], map[], map[], map[], map[], map[]))
  {
    var w := World(map[], map[], map[], map[], map[], map[]);
    forall f ensures FileOk(w, f) { assert OfFile(w.states, f) == {}; }
    forall o ensures OwnerOk(w, o) { assert OfOwner(w.states, o) == {}; }
  }

  // ---- the operations in place --------------------------------------------

  class StateTable {
    var states: map<Sid, StateRec>
    var files: map<File, seq<Sid>>
    var owners: map<Owner, seq<Sid>>
    var table: map<Other, Sid>
    var pins: map<File, int>
    var refs: map<Owner, int>

    function Now(): World
      reads this
    {
      World(states, files, owners, table, pins, refs)
    }

    /** The scan of a file's list in state_add_impl. */
    method FindConflict(f: File, k: Kind) returns (found: bool)
      requires forall sid :: sid in FileList(Now(), f) ==> sid in states
      ensures found == AnyConflict(Now(), f, k)
    {
      var list := FileList(Now(), f);
      for i := 0 to |list|
        invariant forall j :: 0 <= j < i ==> !StateConflict(states[list[j]].kind, k)
      {
        assert list[i] in list;
        if StateConflict(states[list[i]].kind, k) {
          return true;
        }
      }
      return false;
    }

    /** The part of state_add_impl that adds the state to the lists and the table. */
    method Link(sid: Sid, st: StateRec, gotPinned: bool)
      requires gotPinned == (ListAt(files, st.file) == [])
      modifies this
      ensures Now() == Linked(old(Now()), sid, st)
    {
      if gotPinned {
        pins := pins[st.file := CountAt(pins, st.file) + 1];
      }
      table := table[st.other := sid];
      states := states[sid := st];
      files := files[st.file := ListAt(files, st.file) + [sid]];
      refs := refs[st.owner := CountAt(refs, st.owner) + 1];
      owners := owners[st.owner := ListAt(owners, st.owner) + [sid]];
    }

    /** state_add_impl; `pinnable` says whether pinning the file would succeed. */
    method AddState(sid: Sid, st: StateRec, pinnable: bool) returns (status: Status)
      requires forall x :: x in FileList(Now(), st.file) ==> x in states
      modifies this
      ensures status == AddStatus(old(Now()), st, pinnable)
      ensures Now() == if status == Success then Linked(old(Now()), sid, st) else old(Now())
      ensures old(Inv(Now())) && sid !in old(states) ==> Inv(Now())
    {
      if Inv(Now()) && sid !in states { NextInv(Now(), Add(sid, st, pinnable)); }
      var gotPinned := ListAt(files, st.file) == [];
      if gotPinned && !pinnable {
        return PinError;
      }
      var clash := FindConflict(st.file, st.kind);
      if clash {
        return Conflict;
      }
      if st.other in table {
        return MallocError;
      }
      Link(sid, st, gotPinned);
      return Success;
    }

    /** state_del_locked. */
    method DelState(sid: Sid)
      requires sid in states
      modifies this
      ensures Now() == Unlinked(old(Now()), sid)
      ensures old(Inv(Now())) ==> Inv(Now())
    {
      if Inv(Now()) { DelInv(Now(), sid); }
      var st := states[sid];
      table := table - {st.other};
      owners := owners[st.owner := Without(ListAt(owners, st.owner), sid)];
      refs := refs[st.owner := CountAt(refs, st.owner) - 1];
      files := files[st.file := Without(ListAt(files, st.file), sid)];
      states := states - {sid};
      if ListAt(files, st.file) == [] {
        pins := pins[st.file := CountAt(pins, st.file) - 1];
      }
    }

    /** state_nfs4_state_wipe. */
    method WipeStates(f: File)
      requires forall x :: x in FileList(Now(), f) ==> x in states
      requires NoDup(FileList(Now(), f))
      modifies this
      ensures Now() == Wiped(old(Now()), FileList(old(Now()), f))
      ensures old(Inv(Now())) ==> Inv(Now()) && FileList(Now(), f) == [] && Pins(Now(), f) == 0
    {
      var list := FileList(Now(), f);
      if Inv(Now()) {
        WipeInv(Now(), list);
        WipeFile(Now(), f);
      }
      for i := 0 to |list|
        invariant Wiped(Now(), list[i..]) == Wiped(old(Now()), list)
        invariant forall j :: i <= j < |list| ==> list[j] in states
      {
        assert list[i..][0] == list[i] && list[i..][1..] == list[i + 1..];
        DelState(list[i]);
      }
    }

    /**
     nfs4_check_special_stateid: anonymous I/O is refused exactly when opening the file
     with that access and no deny mode would conflict with some state on it.
     */
    method CheckSpecialStateid(f: File, io: Io) returns (locked: bool)
      requires forall sid :: sid in FileList(Now(), f) ==> sid in states
      ensures locked <==> AnyConflict(Now(), f, Share(Modes(io), {}))
    {
      var list := FileList(Now(), f);
      for i := 0 to |list|
        invariant forall j :: 0 <= j < i ==> !StateConflict(states[list[j]].kind, Share(Modes(io), {}))
      {
        assert list[i] in list;
        var kind := states[list[i]].kind;
        DeniesAccess(kind, io);
        if kind.Share? {
          if io == ReadIo && Read in kind.deny {
            return true;
          }
          if io == WriteIo && Write in kind.deny {
            return true;
          }
          if io == ReadWriteIo && kind.deny * {Read, Write} != {} {
            return true;
          }
        }
      }
      return false;
    }
  }

  datatype Io = ReadIo | WriteIo | ReadWriteIo

  function Modes(io: Io): set<Mode> {
    match io
    case ReadIo => {Read}
    case WriteIo => {Write}
    case ReadWriteIo => {Read, Write}
  }

  /** The three tests of nfs4_check_special_stateid together are the conflict test. */
  lemma DeniesAccess(kind: Kind, io: Io)
    ensures StateConflict(kind, Share(Modes(io), {})) <==>
            (kind.Share? && ((io == ReadIo && Read in kind.deny) || (io == WriteIo && Write in kind.deny)
                             || (io == ReadWriteIo && kind.deny * {Read, Write} != {})))
  {
    if kind.Share? {
      assert kind.access * {} == {};
      assert Read in kind.deny * Modes(io) <==> Read in kind.deny && Read in Modes(io);
      assert Write in kind.deny * Modes(io) <==> Write in kind.deny && Write in Modes(io);
      if kind.deny * Modes(io) != {} {
        var m :| m in kind.deny * Modes(io);
        assert m == Read || m == Write;
      }
    }
  }
}
