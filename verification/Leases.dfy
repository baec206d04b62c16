/**
 Leases: how long a client's state is kept, and who may expire it.

 A lease is valid while it is reserved or was renewed recently enough.  A compound
 reserves the lease of the client it works for and remembers the client; some operations
 reserve it once more for themselves, and above version 4.0 OPEN and LOCKT never give that
 reservation back.  The reaper looks for invalid leases and, after letting go of the
 client's mutex, expires them.  Every mutex section is one step.
 */
module Leases {
  import opened Collections

  type Id = nat
  /** A place that remembers a reservation: the preserved_clientid of one compound, or one operation. */
  type Slot = nat

  datatype Client = Client(expired: bool, reservations: int, lastRenew: int)

  datatype Server = Server(
    clients: map<Id, Client>,
    preserved: map<Slot, Id>,    // compounds that remember a client
    working: map<Slot, Id>,      // operations with a reservation of their own, under way
    kept: map<Slot, Id>,         // operations that have ended and kept it
    condemned: set<Id>,          // found invalid by the reaper, not yet expired
    now: int,
    lifetime: nat)

  /** _valid_lease: the time left, or 0. */
  function LeaseLeft(c: Client, now: int, lifetime: nat): int {
    if c.expired then 0
    else if c.reservations != 0 then lifetime
    else if c.lastRenew + lifetime > now then c.lastRenew + lifetime - now
    else 0
  }

  predicate Valid(c: Client, now: int, lifetime: nat) {
    LeaseLeft(c, now, lifetime) != 0
  }

  // ---- steps --------------------------------------------------------------

  datatype Step =
    | Tick(d: nat)
    | Create(id: Id)
    | Reserve(slot: Slot, id: Id)
    | Release(slot: Slot)
    | Renew(id: Id)              // RENEW, and a replayed CLOSE of version 4.0
    | OpReserve(slot: Slot, id: Id)
    | OpRelease(slot: Slot)      // OPEN and LOCKT of version 4.0, RELEASE_LOCKOWNER
    | OpKeep(slot: Slot)         // OPEN and LOCKT above version 4.0
    | ReaperCheck(id: Id)
    | ReaperExpire(id: Id)
    | Expire(id: Id)
    | Bump(id: Id)

  /** The client after one reservation of it has been given up. */
  function Updated(c: Client, now: int): Client {
    c.(reservations := c.reservations - 1,
       lastRenew := if c.reservations - 1 == 0 then now else c.lastRenew)
  }

  ghost predicate Can(s: Server, step: Step) {
    match step
    case Tick(_) => true
    case Create(id) => id !in s.clients
    case Reserve(slot, id) => slot !in s.preserved && id in s.clients
    case Release(slot) => slot in s.preserved
    case Renew(id) => id in s.clients
    case OpReserve(slot, id) => slot !in s.working && slot !in s.kept && id in s.clients
    case OpRelease(slot) => slot in s.working
    case OpKeep(slot) => slot in s.working
    case ReaperCheck(id) => id in s.clients
    case ReaperExpire(id) => id in s.condemned
    case Expire(id) => id in s.clients
    case Bump(id) => id in s.clients
  }

  function Renewed(c: Client, now: int, lifetime: nat): Client {
    if Valid(c, now, lifetime) then Updated(c.(reservations := c.reservations + 1), now) else c
  }

  /** The client with one reservation more. */
  function Reserved(c: Client): Client {
    c.(reservations := c.reservations + 1)
  }

  predicate ValidIn(s: Server, id: Id) {
    id in s.clients && Valid(s.clients[id], s.now, s.lifetime)
  }

  function With(s: Server, id: Id, c: Client): Server {
    s.(clients := s.clients[id := c])
  }

  function AfterReserve(s: Server, slot: Slot, id: Id): Server {
    if ValidIn(s, id) then With(s, id, Reserved(s.clients[id])).(preserved := s.preserved[slot := id]) else s
  }

  function AfterRelease(s: Server, slot: Slot): Server {
    if slot in s.preserved && s.preserved[slot] in s.clients then
      var id := s.preserved[slot];
      With(s, id, Updated(s.clients[id], s.now)).(preserved := s.preserved - {slot})
    else s
  }

  function AfterOpReserve(s: Server, slot: Slot, id: Id): Server {
    if ValidIn(s, id) then With(s, id, Reserved(s.clients[id])).(working := s.working[slot := id]) else s
  }

  function AfterOpRelease(s: Server, slot: Slot): Server {
    if slot in s.working && s.working[slot] in s.clients then
      var id := s.working[slot];
      With(s, id, Updated(s.clients[id], s.now)).(working := s.working - {slot})
    else s
  }

  function AfterOpKeep(s: Server, slot: Slot): Server {
    if slot in s.working then s.(working := s.working - {slot}, kept := s.kept[slot := s.working[slot]]) else s
  }

  function Next(s: Server, step: Step): Server {
    match step
    case Tick(d) => s.(now := s.now + d)
    case Create(id) => With(s, id, Client(false, 0, s.now))
    case Reserve(slot, id) => AfterReserve(s, slot, id)
    case Release(slot) => AfterRelease(s, slot)
    case Renew(id) => if id in s.clients then With(s, id, Renewed(s.clients[id], s.now, s.lifetime)) else s
    case OpReserve(slot, id) => AfterOpReserve(s, slot, id)
    case OpRelease(slot) => AfterOpRelease(s, slot)
    case OpKeep(slot) => AfterOpKeep(s, slot)
    case ReaperCheck(id) => if id in s.clients && !ValidIn(s, id) then s.(condemned := s.condemned + {id}) else s
    case ReaperExpire(id) =>
      if id in s.clients then With(s, id, s.clients[id].(expired := true)).(condemned := s.condemned - {id}) else s
    case Expire(id) => if id in s.clients then With(s, id, s.clients[id].(expired := true)) else s
    case Bump(id) => if id in s.clients then With(s, id, s.clients[id].(lastRenew := s.now)) else s
  }

  // ---- what always holds --------------------------------------------------

  /** The reservations of a client: compounds, operations under way, and those never given back. */
  function Holdings(s: Server, id: Id): nat {
    |Preimage(s.preserved, id)| + |Preimage(s.working, id)| + |Preimage(s.kept, id)|
  }

  ghost predicate Known(slots: map<Slot, Id>, clients: map<Id, Client>) {
    forall x :: x in slots ==> slots[x] in clients
  }

  /** Reservations are counted exactly. */
  ghost predicate Counted(s: Server) {
    && Known(s.preserved, s.clients) && Known(s.working, s.clients) && Known(s.kept, s.clients)
    && s.working.Keys !! s.kept.Keys
    && (forall id :: id in s.clients ==> s.clients[id].reservations == Holdings(s, id))
  }

  /** Whatever the reaper has condemned still has no valid lease. */
  ghost predicate Doomed(s: Server) {
    forall id :: id in s.condemned ==> id in s.clients && !Valid(s.clients[id], s.now, s.lifetime)
  }

  /** No renewal lies in the future, and with no lifetime at all nothing can be reserved. */
  ghost predicate Timely(s: Server) {
    && (forall id :: id in s.clients ==> s.clients[id].lastRenew <= s.now)
    && (s.lifetime == 0 ==> s.preserved == map[] && s.working == map[] && s.kept == map[])
  }

  ghost predicate Inv(s: Server) {
    Counted(s) && Timely(s) && Doomed(s)
  }

  lemma OneMoreSlot(slots: map<Slot, Id>, slot: Slot, id: Id)
    requires slot !in slots
    ensures forall x :: |Preimage(slots[slot := id], x)| == |Preimage(slots, x)| + (if x == id then 1 else 0)
  {
    forall x ensures |Preimage(slots[slot := id], x)| == |Preimage(slots, x)| + (if x == id then 1 else 0) {
      PreimageAdd(slots, slot, id, x);
    }
  }

  lemma OneSlotLess(slots: map<Slot, Id>, slot: Slot)
    requires slot in slots
    ensures forall x :: |Preimage(slots - {slot}, x)| == |Preimage(slots, x)| - (if x == slots[slot] then 1 else 0)
  {
    forall x ensures |Preimage(slots - {slot}, x)| == |Preimage(slots, x)| - (if x == slots[slot] then 1 else 0) {
      PreimageRemove(slots, slot, x);
    }
  }

  lemma CreateCounted(s: Server, id: Id)
    requires Counted(s) && id !in s.clients
    ensures Counted(Next(s, Create(id)))
  {
    assert Preimage(s.preserved, id) == {} && Preimage(s.working, id) == {} && Preimage(s.kept, id) == {};
  }

  lemma ReserveCounted(s: Server, slot: Slot, id: Id)
    requires Counted(s) && slot !in s.preserved
    ensures Counted(AfterReserve(s, slot, id))
  {
    OneMoreSlot(s.preserved, slot, id);
  }

  lemma ReleaseCounted(s: Server, slot: Slot)
    requires Counted(s) && slot in s.preserved
    ensures Counted(AfterRelease(s, slot))
  {
    OneSlotLess(s.preserved, slot);
  }

  lemma OpReserveCounted(s: Server, slot: Slot, id: Id)
    requires Counted(s) && slot !in s.working && slot !in s.kept
    ensures Counted(AfterOpReserve(s, slot, id))
  {
    OneMoreSlot(s.working, slot, id);
  }

  lemma OpReleaseCounted(s: Server, slot: Slot)
    requires Counted(s) && slot in s.working
    ensures Counted(AfterOpRelease(s, slot))
  {
    OneSlotLess(s.working, slot);
  }

  lemma OpKeepCounted(s: Server, slot: Slot)
    requires Counted(s) && slot in s.working
    ensures Counted(AfterOpKeep(s, slot))
  {
    OneSlotLess(s.working, slot);
    OneMoreSlot(s.kept, slot, s.working[slot]);
  }

  /** The other steps change no reservation. */
  lemma SameCounted(s: Server, id: Id, c: Client)
    requires Counted(s) && id in s.clients && c.reservations == s.clients[id].reservations
    ensures Counted(With(s, id, c))
  {
  }

  /** Every step keeps the count. */
  lemma StepCounted(s: Server, step: Step)
    requires Counted(s) && Can(s, step)
    ensures Counted(Next(s, step))
  {
    match step
    case Tick(_) =>
    case Create(id) => CreateCounted(s, id);
    case Reserve(slot, id) => ReserveCounted(s, slot, id);
    case Release(slot) => ReleaseCounted(s, slot);
    case Renew(id) => SameCounted(s, id, Renewed(s.clients[id], s.now, s.lifetime));
    case OpReserve(slot, id) => OpReserveCounted(s, slot, id);
    case OpRelease(slot) => OpReleaseCounted(s, slot);
    case OpKeep(slot) => OpKeepCounted(s, slot);
    case ReaperCheck(_) =>
    case ReaperExpire(id) => if id in s.clients { SameCounted(s, id, s.clients[id].(expired := true)); }
    case Expire(id) => SameCounted(s, id, s.clients[id].(expired := true));
    case Bump(id) => SameCounted(s, id, s.clients[id].(lastRenew := s.now));
  }

  /** A lease renewed other than through a reservation: the one way back for an invalid lease. */
  ghost predicate Revives(s: Server, step: Step) {
    step.Bump? && step.id in s.clients && !s.clients[step.id].expired
    && !Valid(s.clients[step.id], s.now, s.lifetime) && s.lifetime > 0
  }

  /** An invalid lease stays invalid through a step, except exactly when that step revives it. */
  lemma InvalidStays(s: Server, step: Step, id: Id)
    requires Counted(s) && Can(s, step)
    requires id in s.clients && !Valid(s.clients[id], s.now, s.lifetime)
    ensures id in Next(s, step).clients
    ensures Valid(Next(s, step).clients[id], Next(s, step).now, s.lifetime) <==> Revives(s, step) && step.id == id
  {
    if step.Release? && s.preserved[step.slot] == id {
      assert step.slot in Preimage(s.preserved, id);
    } else if step.OpRelease? && s.working[step.slot] == id {
      assert step.slot in Preimage(s.working, id);
    }
  }

  lemma StepTimely(s: Server, step: Step)
    requires Counted(s) && Timely(s) && Can(s, step)
    ensures Timely(Next(s, step))
  {
    if (step.Reserve? || step.OpReserve?) && s.lifetime == 0 {
      assert Preimage(s.preserved, step.id) == {} && Preimage(s.working, step.id) == {}
             && Preimage(s.kept, step.id) == {};
    }
  }

  lemma StepDoomed(s: Server, step: Step)
    requires Inv(s) && Can(s, step) && !(Revives(s, step) && step.id in s.condemned)
    ensures Doomed(Next(s, step))
  {
    var s' := Next(s, step);
    forall id | id in s'.condemned ensures id in s'.clients && !Valid(s'.clients[id], s'.now, s'.lifetime) {
      if id in s.condemned { InvalidStays(s, step, id); }
    }
  }

  /** When the reaper comes back to expire a client, no compound and no operation holds its lease. */
  lemma ReaperSparesReserved(s: Server, id: Id)
    requires Inv(s) && id in s.condemned && !s.clients[id].expired
    ensures Preimage(s.preserved, id) == {} && Preimage(s.working, id) == {} && Preimage(s.kept, id) == {}
  {
    assert Holdings(s, id) == 0;
  }

  /** The reservations are those of the compounds alone exactly if no operation has one, or has kept one. */
  lemma CompoundsAloneIff(s: Server, id: Id)
    requires Counted(s) && id in s.clients
    ensures s.clients[id].reservations == |Preimage(s.preserved, id)| <==>
            (forall x :: x in s.working ==> s.working[x] != id) && (forall x :: x in s.kept ==> s.kept[x] != id)
  {
    if |Preimage(s.working, id)| == 0 && |Preimage(s.kept, id)| == 0 {
      assert forall x :: x in s.working && s.working[x] == id ==> x in Preimage(s.working, id);
      assert forall x :: x in s.kept && s.kept[x] == id ==> x in Preimage(s.kept, id);
    } else if x :| x in Preimage(s.working, id) + Preimage(s.kept, id) {
      assert (x in s.working && s.working[x] == id) || (x in s.kept && s.kept[x] == id);
    }
  }

  /** A reservation that is never given back keeps the lease valid whatever the time. */
  lemma KeptIsValid(s: Server, slot: Slot)
    requires Counted(s) && s.lifetime > 0 && slot in s.kept && !s.clients[s.kept[slot]].expired
    ensures Valid(s.clients[s.kept[slot]], s.now, s.lifetime)
  {
    assert slot in Preimage(s.kept, s.kept[slot]);
  }

  // ---- runs ---------------------------------------------------------------

  ghost predicate CanRun(s: Server, steps: seq<Step>)
    decreases |steps|
  {
    steps == [] || (Can(s, steps[0]) && CanRun(Next(s, steps[0]), steps[1..]))
  }

  function Run(s: Server, steps: seq<Step>): Server
    decreases |steps|
  {
    if steps == [] then s else Run(Next(s, steps[0]), steps[1..])
  }

  lemma FirstStep(s: Server, step: Step, rest: seq<Step>)
    requires Can(s, step) && CanRun(Next(s, step), rest)
    ensures CanRun(s, [step] + rest) && Run(s, [step] + rest) == Run(Next(s, step), rest)
  {
    assert ([step] + rest)[1..] == rest;
  }

  /** No step of the run gives a condemned client a new lease behind the reaper's back. */
  ghost predicate NoRevival(s: Server, steps: seq<Step>)
    decreases |steps|
  {
    steps == [] ||
    (!(Revives(s, steps[0]) && steps[0].id in s.condemned) && NoRevival(Next(s, steps[0]), steps[1..]))
  }

  ghost predicate Fresh(s: Server) {
    s.clients == map[] && s.preserved == map[] && s.working == map[] && s.kept == map[] && s.condemned == {}
  }

  /**
   In every run, the reservations of a client are the compounds that remember it, the
   operations that work for it, and those that ended without giving theirs back.
   */
  lemma {:induction false} RunCounted(s: Server, steps: seq<Step>)
    requires Counted(s) && CanRun(s, steps)
    ensures Counted(Run(s, steps))
    decreases |steps|
  {
    if steps != [] {
      StepCounted(s, steps[0]);
      RunCounted(Next(s, steps[0]), steps[1..]);
    }
  }

  lemma {:induction false} RunInv(s: Server, steps: seq<Step>)
    requires Inv(s) && CanRun(s, steps) && NoRevival(s, steps)
    ensures Inv(Run(s, steps))
    decreases |steps|
  {
    if steps != [] {
      StepCounted(s, steps[0]);
      StepTimely(s, steps[0]);
      StepDoomed(s, steps[0]);
      RunInv(Next(s, steps[0]), steps[1..]);
    }
  }

  /**
   In every run without a revival, a client that the reaper is about to expire is held by
   no compound and no operation, however many steps lie between its check and its expiry.
   */
  lemma ReaperIsSafe(s: Server, steps: seq<Step>, id: Id)
    requires Fresh(s) && CanRun(s, steps) && NoRevival(s, steps)
    requires id in Run(s, steps).condemned
    ensures id in Run(s, steps).clients
    ensures !Run(s, steps).clients[id].expired ==>
      Preimage(Run(s, steps).preserved, id) == {} && Preimage(Run(s, steps).working, id) == {}
  {
    RunInv(s, steps);
    if !Run(s, steps).clients[id].expired {
      ReaperSparesReserved(Run(s, steps), id);
    }
  }

  /**
   The condition is exact: renewing a condemned client, as CREATE_SESSION may, always
   lets a compound reserve it while the reaper is still going to expire it.
   */
  lemma RevivalIsUnsafe(s: Server, id: Id, slot: Slot)
    requires Inv(s) && id in s.condemned && Revives(s, Bump(id)) && slot !in s.preserved
    ensures var s' := Next(Next(s, Bump(id)), Reserve(slot, id));
      id in s'.condemned && !s'.clients[id].expired && slot in Preimage(s'.preserved, id)
  {
  }

  /** Such a run exists: the reaper checks an idle client, which then creates a session and is used. */
  lemma RevivalExample()
    ensures var s := Server(map[], map[], map[], map[], {}, 0, 60);
      var steps := [Create(1), Tick(60), ReaperCheck(1), Bump(1), Reserve(7, 1)];
      && Fresh(s) && CanRun(s, steps)
      && 1 in Run(s, steps).condemned && 1 in Run(s, steps).clients && !Run(s, steps).clients[1].expired
      && Preimage(Run(s, steps).preserved, 1) == {7}
  {
    var s := Server(map[], map[], map[], map[], {}, 0, 60);
    var s1 := Next(s, Create(1));
    var s2 := Next(s1, Tick(60));
    var s3 := Next(s2, ReaperCheck(1));
    var s4 := Next(s3, Bump(1));
    assert s3 == Server(map[1 := Client(false, 0, 0)], map[], map[], map[], {1}, 60, 60);
    FirstStep(s4, Reserve(7, 1), []);
    FirstStep(s3, Bump(1), [Reserve(7, 1)]);
    FirstStep(s2, ReaperCheck(1), [Bump(1), Reserve(7, 1)]);
    FirstStep(s1, Tick(60), [ReaperCheck(1), Bump(1), Reserve(7, 1)]);
    FirstStep(s, Create(1), [Tick(60), ReaperCheck(1), Bump(1), Reserve(7, 1)]);
  }

  // ---- how long a lease lasts ----------------------------------------------

  /** The step gives back a reservation of the client, of a compound or of an operation. */
  ghost predicate GivesBack(s: Server, step: Step, id: Id) {
    || (step.Release? && step.slot in s.preserved && s.preserved[step.slot] == id)
    || (step.OpRelease? && step.slot in s.working && s.working[step.slot] == id)
  }

  /** The client has not expired, and was renewed no earlier than `start`. */
  ghost predicate RenewedSince(s: Server, id: Id, start: int) {
    id in s.clients && !s.clients[id].expired && s.clients[id].lastRenew >= start
  }

  /**
   Giving back the only reservation renews the lease, and giving back another does not:
   from then on the lease lasts for its lifetime, to the second.
   */
  lemma GivingBackRenews(s: Server, step: Step, id: Id, d: nat)
    requires Counted(s) && Can(s, step) && GivesBack(s, step, id) && !s.clients[id].expired
    ensures var s' := Next(s, step); var later := Next(s', Tick(d));
      && id in later.clients
      && (s.clients[id].reservations == 1 ==>
            s'.clients[id].lastRenew == s.now && (ValidIn(later, id) <==> d < s.lifetime))
      && (s.clients[id].reservations != 1 ==> s'.clients[id].lastRenew == s.clients[id].lastRenew)
  {
  }

  /** A renewal of a valid lease that nobody has reserved: the same. */
  lemma RenewingRenews(s: Server, id: Id, d: nat)
    requires ValidIn(s, id) && s.clients[id].reservations == 0
    ensures ValidIn(Next(Next(s, Renew(id)), Tick(d)), id) <==> d < s.lifetime
  {
  }

  function Elapsed(steps: seq<Step>): nat {
    if steps == [] then 0 else (if steps[0].Tick? then steps[0].d else 0) + Elapsed(steps[1..])
  }

  lemma StepRenewedSince(s: Server, step: Step, id: Id, start: int)
    requires Can(s, step) && RenewedSince(s, id, start) && start <= s.now && id !in s.condemned
    requires s.now < start + s.lifetime && step != Expire(id)
    ensures RenewedSince(Next(s, step), id, start) && id !in Next(s, step).condemned
    ensures Next(s, step).now == s.now + Elapsed([step]) && Next(s, step).lifetime == s.lifetime
  {
    assert [step][1..] == [];
  }

  /**
   A client that was renewed less than a lifetime ago keeps its lease in every run of that
   length, whatever is reserved and given back meanwhile, and the reaper never takes it.
   */
  lemma {:induction false} RenewedLasts(s: Server, steps: seq<Step>, id: Id, start: int)
    requires CanRun(s, steps) && RenewedSince(s, id, start) && start <= s.now && id !in s.condemned
    requires s.now + Elapsed(steps) < start + s.lifetime && Expire(id) !in steps
    ensures var t := Run(s, steps); ValidIn(t, id) && id !in t.condemned
    decreases |steps|
  {
    if steps != [] {
      assert [steps[0]][1..] == [] && forall x :: x in steps[1..] ==> x in steps;
      StepRenewedSince(s, steps[0], id, start);
      RenewedLasts(Next(s, steps[0]), steps[1..], id, start);
    }
  }

  /** Expiry is for good: in every run an expired client stays expired, and its lease invalid. */
  lemma {:induction false} ExpiryIsFinal(s: Server, steps: seq<Step>, id: Id)
    requires CanRun(s, steps) && id in s.clients && s.clients[id].expired
    ensures var t := Run(s, steps); id in t.clients && t.clients[id].expired && !ValidIn(t, id)
    decreases |steps|
  {
    if steps != [] { ExpiryIsFinal(Next(s, steps[0]), steps[1..], id); }
  }

  /** And both ways of expiring a client expire it, and no other. */
  lemma ExpireExpires(s: Server, step: Step, id: Id)
    requires Inv(s) && Can(s, step) && (step == ReaperExpire(id) || step == Expire(id))
    ensures var t := Next(s, step);
      && id in t.clients && t.clients == s.clients[id := s.clients[id].(expired := true)]
      && t.condemned == if step.Expire? then s.condemned else s.condemned - {id}
  {
  }

  /** The reaper condemns exactly the clients it finds without a valid lease. */
  lemma ReaperCondemns(s: Server, id: Id, x: Id)
    requires Can(s, ReaperCheck(id))
    ensures x in Next(s, ReaperCheck(id)).condemned <==> x in s.condemned || (x == id && !ValidIn(s, id))
  {
  }

  // ---- reservations that are never given back -----------------------------

  /** A client with a kept reservation that is not on the reaper's list unless it has expired. */
  ghost predicate Immortal(s: Server, slot: Slot, id: Id) {
    && slot in s.kept && s.kept[slot] == id && id in s.clients
    && (id in s.condemned ==> s.clients[id].expired)
  }

  lemma StepImmortal(s: Server, step: Step, slot: Slot, id: Id)
    requires Counted(s) && Can(s, step) && s.lifetime > 0 && Immortal(s, slot, id)
    ensures Immortal(Next(s, step), slot, id) && Next(s, step).lifetime == s.lifetime
  {
    if !s.clients[id].expired { KeptIsValid(s, slot); }
  }

  /**
   Once an OPEN or LOCKT above version 4.0 has kept its reservation, the lease of the client
   is valid in every later state, however much time passes, and the reaper never condemns
   the client, unless something else expires it.
   */
  lemma {:induction false} KeptNeverLapses(s: Server, steps: seq<Step>, slot: Slot, id: Id)
    requires Counted(s) && CanRun(s, steps) && s.lifetime > 0 && Immortal(s, slot, id)
    ensures Immortal(Run(s, steps), slot, id)
    ensures var t := Run(s, steps); !t.clients[id].expired ==> Valid(t.clients[id], t.now, t.lifetime)
    decreases |steps|
  {
    if steps == [] {
      if !s.clients[id].expired { KeptIsValid(s, slot); }
    } else {
      StepCounted(s, steps[0]);
      StepImmortal(s, steps[0], slot, id);
      KeptNeverLapses(Next(s, steps[0]), steps[1..], slot, id);
    }
  }

  /** SEQUENCE, OPEN and the end of the compound: no compound is left and one reservation is. */
  lemma KeptExample()
    ensures var s := Server(map[], map[], map[], map[], {}, 0, 60);
      var steps := [Create(1), Reserve(7, 1), OpReserve(8, 1), OpKeep(8), Release(7)];
      && Fresh(s) && CanRun(s, steps)
      && Run(s, steps).preserved == map[] && Run(s, steps).working == map[]
      && 1 in Run(s, steps).clients && Run(s, steps).clients[1].reservations == 1
  {
    var s := Server(map[], map[], map[], map[], {}, 0, 60);
    var s1 := Next(s, Create(1));
    var s2 := Next(s1, Reserve(7, 1));
    var s3 := Next(s2, OpReserve(8, 1));
    var s4 := Next(s3, OpKeep(8));
    assert s4 == Server(map[1 := Client(false, 2, 0)], map[7 := 1], map[], map[8 := 1], {}, 0, 60);
    FirstStep(s4, Release(7), []);
    FirstStep(s3, OpKeep(8), [Release(7)]);
    FirstStep(s2, OpReserve(8, 1), [OpKeep(8), Release(7)]);
    FirstStep(s1, Reserve(7, 1), [OpReserve(8, 1), OpKeep(8), Release(7)]);
    FirstStep(s, Create(1), [Reserve(7, 1), OpReserve(8, 1), OpKeep(8), Release(7)]);
  }

  // ---- the operations in place --------------------------------------------

  class ClientRecord {
    var expired: bool
    var reservations: int
    var lastRenew: int

    function View(): Client
      reads this
    {
      Client(expired, reservations, lastRenew)
    }

    /** valid_lease. */
    method ValidLease(now: int, lifetime: nat) returns (valid: bool)
      ensures valid == Valid(View(), now, lifetime)
      ensures valid <==> !expired && (if reservations != 0 then lifetime > 0 else now < lastRenew + lifetime)
    {
      valid := LeaseLeft(View(), now, lifetime) != 0;
    }

    /** reserve_lease. */
    method ReserveLease(now: int, lifetime: nat) returns (ok: bool)
      modifies this
      ensures ok == old(Valid(View(), now, lifetime))
      ensures View() == old(View()).(reservations := old(reservations) + if ok then 1 else 0)
    {
      ok := Valid(View(), now, lifetime);
      if ok {
        reservations := reservations + 1;
      }
    }

    /** update_lease. */
    method UpdateLease(now: int)
      modifies this
      ensures View() == Updated(old(View()), now)
      ensures reservations == old(reservations) - 1 && expired == old(expired)
      ensures lastRenew == if old(reservations) == 1 then now else old(lastRenew)
    {
      reservations := reservations - 1;
      if reservations == 0 {
        lastRenew := now;
      }
    }
  }

  class CompoundData {
    var preserved: ClientRecord?
  }

  /**
   The lease handling of nfs4_Check_Stateid for a state that was found: move the
   compound's reservation to the owner of the state, or report that its lease has expired.
   The reservations of all other clients are untouched.
   */
  method HoldLease(data: CompoundData, owner: ClientRecord, now: int, later: int, lifetime: nat) returns (ok: bool)
    modifies data, data.preserved, owner
    ensures old(data.preserved) == owner ==> ok && data.preserved == owner && owner.View() == old(owner.View())
    ensures old(data.preserved) != owner ==>
      && ok == old(Valid(owner.View(), later, lifetime))
      && data.preserved == (if ok then owner else null)
      && owner.View() == old(owner.View()).(reservations := old(owner.reservations) + if ok then 1 else 0)
      && (old(data.preserved) != null ==> old(data.preserved).View() == Updated(old(data.preserved.View()), now))
  {
    if data.preserved != owner {
      if data.preserved != null {
        data.preserved.UpdateLease(now);
        data.preserved := null;
      }
      ok := owner.ReserveLease(later, lifetime);
      if !ok {
        return false;
      }
      data.preserved := owner;
    }
    ok := true;
  }

  /**
   The lease handling of OPEN and LOCKT around their work, which takes from `now` to `later`:
   above version 4.0 the reservation outlives the operation.
   */
  method WorkUnderLease(client: ClientRecord, v40: bool, now: int, later: int, lifetime: nat) returns (ok: bool)
    modifies client
    ensures ok == old(Valid(client.View(), now, lifetime))
    ensures client.View() ==
      if !ok then old(client.View())
      else if v40 then Updated(old(client.View()).(reservations := old(client.reservations) + 1), later)
      else old(client.View()).(reservations := old(client.reservations) + 1)
  {
    ok := client.ReserveLease(now, lifetime);
    if ok && v40 {
      client.UpdateLease(later);
    }
  }

  /**
   The lease handling of nfs4_Check_Stateid for a replayed CLOSE: in version 4.0 the
   lease is renewed and nothing is remembered, in 4.1 the compound keeps the reservation.
   */
  method HoldLeaseForClose(data: CompoundData, client: ClientRecord, v40: bool, now: int, later: int, lifetime: nat)
    returns (ok: bool)
    modifies data, data.preserved, client
    ensures var before := old(if data.preserved == client then Updated(client.View(), now) else client.View());
      && ok == Valid(before, later, lifetime)
      && client.View() == (if v40 then Renewed(before, later, lifetime)
                           else before.(reservations := before.reservations + if ok then 1 else 0))
    ensures data.preserved == if ok && !v40 then client else null
    ensures old(data.preserved) != null && old(data.preserved) != client ==>
      old(data.preserved).View() == Updated(old(data.preserved.View()), now)
  {
    if data.preserved != null {
      data.preserved.UpdateLease(now);
      data.preserved := null;
    }
    ok := client.ReserveLease(later, lifetime);
    if !ok {
      return;
    }
    if v40 {
      client.UpdateLease(later);
    } else {
      data.preserved := client;
    }
  }
}
