/**
 The share reservations of one file.

 Besides the list of its states a file has four counters, of the states that want or deny
 reading and writing.  Conflicts are decided by the counters alone.  They also count I/O in
 progress without an open state.  What the counters say in union is pushed to the back end,
 which may refuse.
 */
module Shares {
  import FS = FileStates

  type Sid = FS.Sid

  datatype Bit = Access(mode: FS.Mode) | Deny(mode: FS.Mode)

  function Against(b: Bit): Bit {
    match b
    case Access(m) => Deny(m)
    case Deny(m) => Access(m)
  }

  function Bits(access: set<FS.Mode>, deny: set<FS.Mode>): set<Bit> {
    (set m | m in access :: Access(m)) + (set m | m in deny :: Deny(m))
  }

  function AccessPart(bits: set<Bit>): set<Bit> {
    set b | b in bits && b.Access?
  }

  function DenyPart(bits: set<Bit>): set<Bit> {
    set b | b in bits && b.Deny?
  }

  ghost predicate Excludes(a: set<Bit>, b: set<Bit>) {
    exists x :: x in a && Against(x) in b
  }

  lemma ExcludesBoth(a: set<Bit>, b: set<Bit>)
    ensures Excludes(a, b) <==> Excludes(b, a)
  {
    if Excludes(a, b) {
      var x :| x in a && Against(x) in b;
      assert Against(Against(x)) == x;
    }
    if Excludes(b, a) {
      var x :| x in b && Against(x) in a;
      assert Against(Against(x)) == x;
    }
  }

  /** On bits, exclusion is the conflict of share states. */
  lemma ExcludesIsConflict(a: FS.Kind, b: FS.Kind)
    requires a.Share? && b.Share?
    ensures Excludes(Bits(a.access, a.deny), Bits(b.access, b.deny)) <==> FS.StateConflict(a, b)
  {
    var x, y := Bits(a.access, a.deny), Bits(b.access, b.deny);
    assert forall m :: m in a.access * b.deny <==> Access(m) in x && Deny(m) in y;
    assert forall m :: m in a.deny * b.access <==> Deny(m) in x && Access(m) in y;
    if Excludes(x, y) {
      var bit :| bit in x && Against(bit) in y;
      assert bit.mode in a.access * b.deny || bit.mode in a.deny * b.access;
    }
    if m :| m in a.access * b.deny { assert Against(Access(m)) in y; }
    if m :| m in a.deny * b.access { assert Against(Deny(m)) in y; }
  }

  // ---- counters -----------------------------------------------------------

  datatype Counts = Counts(accessRead: int, accessWrite: int, denyRead: int, denyWrite: int)

  function At(c: Counts, b: Bit): int {
    match b
    case Access(Read) => c.accessRead
    case Access(Write) => c.accessWrite
    case Deny(Read) => c.denyRead
    case Deny(Write) => c.denyWrite
  }

  function Has(bits: set<Bit>, b: Bit): int {
    if b in bits then 1 else 0
  }

  function Updated(c: Counts, was: set<Bit>, now: set<Bit>): Counts {
    Counts(c.accessRead + Has(now, Access(FS.Read)) - Has(was, Access(FS.Read)),
           c.accessWrite + Has(now, Access(FS.Write)) - Has(was, Access(FS.Write)),
           c.denyRead + Has(now, Deny(FS.Read)) - Has(was, Deny(FS.Read)),
           c.denyWrite + Has(now, Deny(FS.Write)) - Has(was, Deny(FS.Write)))
  }

  lemma UpdatedAt(c: Counts, was: set<Bit>, now: set<Bit>, b: Bit)
    ensures At(Updated(c, was, now), b) == At(c, b) + Has(now, b) - Has(was, b)
  {
  }

  lemma SameCounts(c: Counts, d: Counts)
    requires forall b :: At(c, b) == At(d, b)
    ensures c == d
  {
    assert At(c, Access(FS.Read)) == At(d, Access(FS.Read)) && At(c, Access(FS.Write)) == At(d, Access(FS.Write));
    assert At(c, Deny(FS.Read)) == At(d, Deny(FS.Read)) && At(c, Deny(FS.Write)) == At(d, Deny(FS.Write));
  }

  predicate Clashes(c: Counts, bits: set<Bit>) {
    exists b :: b in bits && At(c, Against(b)) > 0
  }

  /** The union of share modes that the back end knows of. */
  function Union(c: Counts): set<Bit> {
    set b | b in Bits({FS.Read, FS.Write}, {FS.Read, FS.Write}) && At(c, b) > 0
  }

  /** The change of counters need not be pushed, or the back end accepts it. */
  predicate Pushes(c: Counts, was: set<Bit>, now: set<Bit>, accepts: bool) {
    Union(Updated(c, was, now)) == Union(c) || accepts
  }

  // ---- the operations -----------------------------------------------------

  /** The share modes that a state has been opened with. */
  datatype Seen = Seen(access: set<set<Bit>>, deny: set<set<Bit>>)

  datatype File = File(
    shares: map<Sid, set<Bit>>,
    seen: map<Sid, Seen>,
    io: map<nat, set<Bit>>,    // I/O in progress without a state
    counts: Counts,
    lost: Counts)              // what has been given up without being counted off

  datatype Status = Success | Conflict | PushError | Invalid

  function Note(s: Seen, bits: set<Bit>): Seen {
    Seen(s.access + {AccessPart(bits)}, s.deny + {DenyPart(bits)})
  }

  function OpenStatus(c: Counts, was: set<Bit>, bits: set<Bit>, accepts: bool): Status {
    if Clashes(c, bits) then Conflict
    else if !Pushes(c, was, was + bits, accepts) then PushError
    else Success
  }

  function AfterAdd(f: File, sid: Sid, bits: set<Bit>, accepts: bool): File {
    if OpenStatus(f.counts, {}, bits, accepts) != Success then f
    else f.(shares := f.shares[sid := bits],
            seen := f.seen[sid := Note(Seen({}, {}), bits)],
            counts := Updated(f.counts, {}, bits))
  }

  function AfterUpgrade(f: File, sid: Sid, bits: set<Bit>, accepts: bool): File
    requires sid in f.shares && sid in f.seen
  {
    var was := f.shares[sid];
    if OpenStatus(f.counts, was, bits, accepts) != Success then f
    else f.(shares := f.shares[sid := was + bits],
            seen := f.seen[sid := Note(f.seen[sid], bits)],
            counts := Updated(f.counts, was, was + bits))
  }

  function DowngradeStatus(f: File, sid: Sid, bits: set<Bit>, minor: nat, accepts: bool): Status
    requires sid in f.shares && sid in f.seen
  {
    if !(bits <= f.shares[sid]) then Invalid
    else if minor > 0 then Success
    else if AccessPart(bits) !in f.seen[sid].access || DenyPart(bits) !in f.seen[sid].deny then Invalid
    else if !Pushes(f.counts, f.shares[sid], bits, accepts) then PushError
    else Success
  }

  /** Above minor version 0 the counters are not told. */
  function AfterDowngrade(f: File, sid: Sid, bits: set<Bit>, minor: nat, accepts: bool): File
    requires sid in f.shares && sid in f.seen
  {
    if DowngradeStatus(f, sid, bits, minor, accepts) != Success then f
    else if minor > 0
    then f.(shares := f.shares[sid := bits], lost := Updated(f.lost, bits, f.shares[sid]))
    else f.(shares := f.shares[sid := bits], counts := Updated(f.counts, f.shares[sid], bits))
  }

  /** CLOSE deletes the state even if the back end refuses, which leaves the counters as they were. */
  function AfterClose(f: File, sid: Sid, accepts: bool): File
    requires sid in f.shares
  {
    var rest := f.(shares := f.shares - {sid}, seen := f.seen - {sid});
    if Pushes(f.counts, f.shares[sid], {}, accepts)
    then rest.(counts := Updated(f.counts, f.shares[sid], {}))
    else rest.(lost := Updated(f.lost, {}, f.shares[sid]))
  }

  function AfterIoStart(f: File, slot: nat, bits: set<Bit>): File {
    if Clashes(f.counts, bits) then f
    else f.(io := f.io[slot := bits], counts := Updated(f.counts, {}, bits))
  }

  function AfterIoDone(f: File, slot: nat): File
    requires slot in f.io
  {
    f.(io := f.io - {slot}, counts := Updated(f.counts, f.io[slot], {}))
  }

  // ---- what always holds --------------------------------------------------

  function Holding(m: map<nat, set<Bit>>, b: Bit): set<nat> {
    set k | k in m && b in m[k]
  }

  /** What a counter should be. */
  function Users(f: File, b: Bit): int {
    |Holding(f.shares, b)| + |Holding(f.io, b)|
  }

  ghost predicate Accounted(f: File) {
    forall b :: At(f.counts, b) == Users(f, b) + At(f.lost, b) && At(f.lost, b) >= 0
  }

  ghost predicate Compatible(shares: map<Sid, set<Bit>>) {
    forall s, t :: s in shares && t in shares && s != t ==> !Excludes(shares[s], shares[t])
  }

  /** I/O in progress excludes no share. */
  ghost predicate IoCompatible(shares: map<Sid, set<Bit>>, io: map<nat, set<Bit>>) {
    forall s, i :: s in shares && i in io ==> !Excludes(shares[s], io[i])
  }

  ghost predicate Inv(f: File) {
    && Accounted(f)
    && Compatible(f.shares)
    && IoCompatible(f.shares, f.io)
    && f.seen.Keys == f.shares.Keys
  }

  lemma HoldingAfter(m: map<nat, set<Bit>>, k: nat, bits: set<Bit>, b: Bit)
    ensures |Holding(m[k := bits], b)| == |Holding(m, b)| + Has(bits, b) - (if k in m then Has(m[k], b) else 0)
  {
    var others := Holding(m, b) - {k};
    assert Holding(m, b) == if k in m && b in m[k] then others + {k} else others;
    assert Holding(m[k := bits], b) == if b in bits then others + {k} else others;
  }

  lemma HoldingWithout(m: map<nat, set<Bit>>, k: nat, b: Bit)
    requires k in m
    ensures |Holding(m - {k}, b)| == |Holding(m, b)| - Has(m[k], b)
  {
    var others := Holding(m, b) - {k};
    assert Holding(m, b) == if b in m[k] then others + {k} else others;
    assert Holding(m - {k}, b) == others;
  }

  lemma Held(m: map<nat, set<Bit>>, k: nat, b: Bit)
    requires k in m && b in m[k]
    ensures |Holding(m, b)| > 0
  {
    assert k in Holding(m, b);
  }

  lemma GrantedExcludesNone(f: File, bits: set<Bit>, m: map<nat, set<Bit>>)
    requires Accounted(f) && !Clashes(f.counts, bits) && (m == f.shares || m == f.io)
    ensures forall k :: k in m ==> !Excludes(bits, m[k]) && !Excludes(m[k], bits)
  {
    forall k | k in m ensures !Excludes(bits, m[k]) && !Excludes(m[k], bits) {
      ExcludesBoth(bits, m[k]);
      if Excludes(bits, m[k]) {
        var x :| x in bits && Against(x) in m[k];
        Held(m, k, Against(x));
        assert false;
      }
    }
  }

  ghost predicate SomeExcludes(m: map<nat, set<Bit>>, bits: set<Bit>) {
    exists k :: k in m && Excludes(bits, m[k])
  }

  /** The counters refuse what some state or some I/O in progress excludes, and what has been lost: nothing else. */
  lemma ClashesIff(f: File, bits: set<Bit>)
    requires Accounted(f)
    ensures Clashes(f.counts, bits) <==>
            SomeExcludes(f.shares, bits) || SomeExcludes(f.io, bits) || Clashes(f.lost, bits)
  {
    if Clashes(f.counts, bits) {
      var x :| x in bits && At(f.counts, Against(x)) > 0;
      var a := Against(x);
      assert At(f.counts, a) == Users(f, a) + At(f.lost, a);
      if k :| k in Holding(f.shares, a) {
        assert Excludes(bits, f.shares[k]);
      } else if k :| k in Holding(f.io, a) {
        assert Excludes(bits, f.io[k]);
      } else {
        assert Holding(f.shares, a) == {} && Holding(f.io, a) == {};
      }
    } else {
      GrantedExcludesNone(f, bits, f.shares);
      GrantedExcludesNone(f, bits, f.io);
    }
    if Clashes(f.lost, bits) {
      var x :| x in bits && At(f.lost, Against(x)) > 0;
      assert At(f.counts, Against(x)) > 0;
    }
  }

  /** `f` has the share states of file `file` of `w`. */
  ghost predicate Represents(f: File, w: FS.World, file: FS.File) {
    forall sid :: sid in FS.FileList(w, file) && sid in w.states && w.states[sid].kind.Share? ==>
      sid in f.shares && f.shares[sid] == Bits(w.states[sid].kind.access, w.states[sid].kind.deny)
  }

  /** What the counters grant conflicts with no state in the list of the file. */
  lemma GrantedHasNoConflict(f: File, w: FS.World, file: FS.File, k: FS.Kind)
    requires Accounted(f) && Represents(f, w, file) && k.Share? && !Clashes(f.counts, Bits(k.access, k.deny))
    ensures !FS.AnyConflict(w, file, k)
  {
    GrantedExcludesNone(f, Bits(k.access, k.deny), f.shares);
    forall sid | sid in FS.FileList(w, file) && sid in w.states ensures !FS.StateConflict(w.states[sid].kind, k) {
      if w.states[sid].kind.Share? { ExcludesIsConflict(w.states[sid].kind, k); }
    }
  }

  // ---- every operation keeps it -------------------------------------------

  lemma OpenAccounted(f: File, sid: Sid, bits: set<Bit>)
    requires Accounted(f)
    ensures var was := if sid in f.shares then f.shares[sid] else {};
      Accounted(f.(shares := f.shares[sid := bits], counts := Updated(f.counts, was, bits)))
  {
    var was := if sid in f.shares then f.shares[sid] else {};
    var f' := f.(shares := f.shares[sid := bits], counts := Updated(f.counts, was, bits));
    forall b ensures At(f'.counts, b) == Users(f', b) + At(f'.lost, b) {
      assert At(f.counts, b) == Users(f, b) + At(f.lost, b);
      HoldingAfter(f.shares, sid, bits, b);
      UpdatedAt(f.counts, was, bits, b);
    }
  }

  lemma ExcludesMore(a: set<Bit>, b: set<Bit>, c: set<Bit>)
    ensures Excludes(a + b, c) ==> Excludes(a, c) || Excludes(b, c)
    ensures Excludes(c, a + b) ==> Excludes(c, a) || Excludes(c, b)
  {
    if Excludes(a + b, c) {
      var x :| x in a + b && Against(x) in c;
      assert x in a || x in b;
    }
    if Excludes(c, a + b) {
      var x :| x in c && Against(x) in a + b;
      assert Against(x) in a || Against(x) in b;
    }
  }

  /** What is granted on top of what a state has excludes no other state. */
  lemma MoreCompatible(f: File, sid: Sid, bits: set<Bit>)
    requires Inv(f) && !Clashes(f.counts, bits)
    ensures var was := if sid in f.shares then f.shares[sid] else {};
      Compatible(f.shares[sid := was + bits]) && IoCompatible(f.shares[sid := was + bits], f.io)
  {
    var was := if sid in f.shares then f.shares[sid] else {};
    GrantedExcludesNone(f, bits, f.shares);
    GrantedExcludesNone(f, bits, f.io);
    forall s | s in f.shares && s != sid
      ensures !Excludes(f.shares[s], was + bits) && !Excludes(was + bits, f.shares[s])
    {
      ExcludesMore(was, bits, f.shares[s]);
    }
    forall i | i in f.io ensures !Excludes(was + bits, f.io[i]) {
      ExcludesMore(was, bits, f.io[i]);
    }
  }

  lemma AddInv(f: File, sid: Sid, bits: set<Bit>, accepts: bool)
    requires Inv(f) && sid !in f.shares
    ensures Inv(AfterAdd(f, sid, bits, accepts))
  {
    if OpenStatus(f.counts, {}, bits, accepts) == Success {
      OpenAccounted(f, sid, bits);
      MoreCompatible(f, sid, bits);
      assert {} + bits == bits;
    }
  }

  lemma UpgradeInv(f: File, sid: Sid, bits: set<Bit>, accepts: bool)
    requires Inv(f) && sid in f.shares
    ensures Inv(AfterUpgrade(f, sid, bits, accepts))
  {
    if OpenStatus(f.counts, f.shares[sid], bits, accepts) == Success {
      OpenAccounted(f, sid, f.shares[sid] + bits);
      MoreCompatible(f, sid, bits);
    }
  }

  lemma FewerCompatible(shares: map<Sid, set<Bit>>, io: map<nat, set<Bit>>, sid: Sid, bits: set<Bit>)
    requires Compatible(shares) && IoCompatible(shares, io) && sid in shares && bits <= shares[sid]
    ensures Compatible(shares[sid := bits]) && IoCompatible(shares[sid := bits], io)
  {
    assert forall a :: Excludes(bits, a) ==> Excludes(shares[sid], a);
    assert forall a :: Excludes(a, bits) ==> Excludes(a, shares[sid]);
  }

  lemma LostAccounted(f: File, sid: Sid, bits: set<Bit>)
    requires Accounted(f) && sid in f.shares && bits <= f.shares[sid]
    ensures Accounted(f.(shares := f.shares[sid := bits], lost := Updated(f.lost, bits, f.shares[sid])))
  {
    var f' := f.(shares := f.shares[sid := bits], lost := Updated(f.lost, bits, f.shares[sid]));
    forall b ensures At(f'.counts, b) == Users(f', b) + At(f'.lost, b) && At(f'.lost, b) >= 0 {
      assert At(f.counts, b) == Users(f, b) + At(f.lost, b);
      HoldingAfter(f.shares, sid, bits, b);
      UpdatedAt(f.lost, bits, f.shares[sid], b);
    }
  }

  /** Every downgrade keeps the shares compatible, whether or not it is counted. */
  lemma DowngradeInv(f: File, sid: Sid, bits: set<Bit>, minor: nat, accepts: bool)
    requires Inv(f) && sid in f.shares
    ensures Inv(AfterDowngrade(f, sid, bits, minor, accepts))
  {
    if DowngradeStatus(f, sid, bits, minor, accepts) == Success {
      FewerCompatible(f.shares, f.io, sid, bits);
      if minor > 0 { LostAccounted(f, sid, bits); } else { OpenAccounted(f, sid, bits); }
    }
  }

  lemma CloseInv(f: File, sid: Sid, accepts: bool)
    requires Inv(f) && sid in f.shares
    ensures Inv(AfterClose(f, sid, accepts))
  {
    var f' := AfterClose(f, sid, accepts);
    forall b ensures At(f'.counts, b) == Users(f', b) + At(f'.lost, b) && At(f'.lost, b) >= 0 {
      assert At(f.counts, b) == Users(f, b) + At(f.lost, b);
      HoldingWithout(f.shares, sid, b);
      UpdatedAt(f.counts, f.shares[sid], {}, b);
      UpdatedAt(f.lost, {}, f.shares[sid], b);
    }
  }

  lemma IoStartInv(f: File, slot: nat, bits: set<Bit>)
    requires Inv(f) && slot !in f.io
    ensures Inv(AfterIoStart(f, slot, bits))
  {
    if !Clashes(f.counts, bits) {
      var f' := AfterIoStart(f, slot, bits);
      GrantedExcludesNone(f, bits, f.shares);
      forall b ensures At(f'.counts, b) == Users(f', b) + At(f'.lost, b) {
        assert At(f.counts, b) == Users(f, b) + At(f.lost, b);
        HoldingAfter(f.io, slot, bits, b);
        UpdatedAt(f.counts, {}, bits, b);
      }
    }
  }

  lemma IoDoneInv(f: File, slot: nat)
    requires Inv(f) && slot in f.io
    ensures Inv(AfterIoDone(f, slot))
  {
    var f' := AfterIoDone(f, slot);
    forall b ensures At(f'.counts, b) == Users(f', b) + At(f'.lost, b) {
      assert At(f.counts, b) == Users(f, b) + At(f.lost, b);
      HoldingWithout(f.io, slot, b);
      UpdatedAt(f.counts, f.io[slot], {}, b);
    }
  }

  // ---- runs ---------------------------------------------------------------

  datatype Op =
    | Add(sid: Sid, bits: set<Bit>, accepts: bool)
    | Upgrade(sid: Sid, bits: set<Bit>, accepts: bool)
    | Downgrade(sid: Sid, bits: set<Bit>, minor: nat, accepts: bool)
    | Close(sid: Sid, accepts: bool)
    | IoStart(slot: nat, bits: set<Bit>)
    | IoDone(slot: nat)

  ghost predicate Can(f: File, op: Op) {
    match op
    case Add(sid, _, _) => sid !in f.shares
    case Upgrade(sid, _, _) => sid in f.shares && sid in f.seen
    case Downgrade(sid, _, _, _) => sid in f.shares && sid in f.seen
    case Close(sid, _) => sid in f.shares
    case IoStart(slot, _) => slot !in f.io
    case IoDone(slot) => slot in f.io
  }

  ghost function Next(f: File, op: Op): File
    requires Can(f, op)
  {
    match op
    case Add(sid, bits, accepts) => AfterAdd(f, sid, bits, accepts)
    case Upgrade(sid, bits, accepts) => AfterUpgrade(f, sid, bits, accepts)
    case Downgrade(sid, bits, minor, accepts) => AfterDowngrade(f, sid, bits, minor, accepts)
    case Close(sid, accepts) => AfterClose(f, sid, accepts)
    case IoStart(slot, bits) => AfterIoStart(f, slot, bits)
    case IoDone(slot) => AfterIoDone(f, slot)
  }

  lemma NextInv(f: File, op: Op)
    requires Inv(f) && Can(f, op)
    ensures Inv(Next(f, op))
  {
    match op
    case Add(sid, bits, accepts) => AddInv(f, sid, bits, accepts);
    case Upgrade(sid, bits, accepts) => UpgradeInv(f, sid, bits, accepts);
    case Downgrade(sid, bits, minor, accepts) => DowngradeInv(f, sid, bits, minor, accepts);
    case Close(sid, accepts) => CloseInv(f, sid, accepts);
    case IoStart(slot, bits) => IoStartInv(f, slot, bits);
    case IoDone(slot) => IoDoneInv(f, slot);
  }

  ghost predicate CanRun(f: File, ops: seq<Op>)
    decreases |ops|
  {
    ops == [] || (Can(f, ops[0]) && CanRun(Next(f, ops[0]), ops[1..]))
  }

  ghost function Run(f: File, ops: seq<Op>): File
    requires CanRun(f, ops)
    decreases |ops|
  {
    if ops == [] then f else Run(Next(f, ops[0]), ops[1..])
  }

  /**
   In every run the shares of the file are compatible with each other and with the I/O in
   progress, and each counter is the number of its users and of what has been lost.
   */
  lemma {:induction false} RunInv(f: File, ops: seq<Op>)
    requires Inv(f) && CanRun(f, ops)
    ensures Inv(Run(f, ops))
    decreases |ops|
  {
    if ops != [] {
      NextInv(f, ops[0]);
      RunInv(Next(f, ops[0]), ops[1..]);
    }
  }

  function Unused(): File {
    File(map[], map[], map[], Counts(0, 0, 0, 0), Counts(0, 0, 0, 0))
  }

  lemma StartsUnused()
    ensures Inv(Unused())
  {
    assert forall b :: Holding(map[], b) == {};
  }

  // ---- what a state holds ---------------------------------------------------

  /** The life of one state: not open, or holding share modes and opened with these before. */
  datatype History = NotOpen | Open(held: set<Bit>, opens: set<set<Bit>>)

  /**
   An open is granted exactly if nobody and nothing lost excludes it; and a back end that
   refuses stops it only if some mode is new to the file.
   */
  lemma OpenGrantedIff(f: File, was: set<Bit>, bits: set<Bit>)
    requires Accounted(f)
    ensures OpenStatus(f.counts, was, bits, true) == Success <==>
            !SomeExcludes(f.shares, bits) && !SomeExcludes(f.io, bits) && !Clashes(f.lost, bits)
    ensures OpenStatus(f.counts, was, bits, true) != PushError
    ensures OpenStatus(f.counts, was, bits, false) ==
            if OpenStatus(f.counts, was, bits, true) == Success && exists b :: b in bits - was && b !in Union(f.counts)
            then PushError else OpenStatus(f.counts, was, bits, true)
  {
    ClashesIff(f, bits);
    PushedIffNew(f, was, bits);
  }

  lemma UnionHas(c: Counts, b: Bit)
    ensures b in Union(c) <==> At(c, b) > 0
  {
    assert b.mode == FS.Read || b.mode == FS.Write;
    assert b in Bits({FS.Read, FS.Write}, {FS.Read, FS.Write});
  }

  /** The back end knows of exactly the modes that somebody uses or that are lost. */
  lemma UnionIsUsed(f: File, b: Bit)
    requires Accounted(f)
    ensures b in Union(f.counts) <==> Users(f, b) > 0 || At(f.lost, b) > 0
  {
    UnionHas(f.counts, b);
    assert At(f.counts, b) == Users(f, b) + At(f.lost, b);
  }

  /** And it is asked only if a mode is new to it: without that, an open succeeds whatever it would say. */
  lemma PushedIffNew(f: File, was: set<Bit>, bits: set<Bit>)
    requires Accounted(f)
    ensures Pushes(f.counts, was, was + bits, false) <==> forall b :: b in bits - was ==> b in Union(f.counts)
    ensures Pushes(f.counts, was, was + bits, true)
  {
    var now := Updated(f.counts, was, was + bits);
    forall b ensures b in Union(now) <==> b in Union(f.counts) || b in bits - was {
      UnionHas(f.counts, b);
      UnionHas(now, b);
      UpdatedAt(f.counts, was, was + bits, b);
      assert At(f.counts, b) == Users(f, b) + At(f.lost, b) >= 0;
    }
  }

  /** How an operation continues the life of a state. */
  function Continued(h: History, f: File, op: Op, sid: Sid): History {
    match op
    case Add(x, bits, accepts) =>
      if x == sid && OpenStatus(f.counts, {}, bits, accepts) == Success then Open(bits, {bits}) else h
    case Upgrade(x, bits, accepts) =>
      if x == sid && h.Open? && OpenStatus(f.counts, h.held, bits, accepts) == Success
      then Open(h.held + bits, h.opens + {bits}) else h
    case Downgrade(x, bits, minor, accepts) =>
      if x == sid && h.Open? && ValidDowngrade(h, bits, minor)
         && (minor > 0 || Pushes(f.counts, h.held, bits, accepts))
      then h.(held := bits) else h
    case Close(x, _) => if x == sid then NotOpen else h
    case IoStart(_, _) => h
    case IoDone(_) => h
  }

  /** Share modes are given up by parts that were each opened before; above minor version 0 anyhow. */
  predicate ValidDowngrade(h: History, bits: set<Bit>, minor: nat)
    requires h.Open?
  {
    bits <= h.held
    && (minor > 0 || ((exists b :: b in h.opens && AccessPart(b) == AccessPart(bits))
                      && (exists b :: b in h.opens && DenyPart(b) == DenyPart(bits))))
  }

  ghost function Life(h: History, f: File, ops: seq<Op>, sid: Sid): History
    requires CanRun(f, ops)
    decreases |ops|
  {
    if ops == [] then h else Life(Continued(h, f, ops[0], sid), Next(f, ops[0]), ops[1..], sid)
  }

  ghost predicate Remembers(f: File, sid: Sid, h: History) {
    match h
    case NotOpen => sid !in f.shares
    case Open(held, opens) =>
      && sid in f.shares && f.shares[sid] == held && sid in f.seen
      && f.seen[sid].access == (set b | b in opens :: AccessPart(b))
      && f.seen[sid].deny == (set b | b in opens :: DenyPart(b))
  }

  lemma DowngradeRemembered(f: File, sid: Sid, h: History, bits: set<Bit>, minor: nat, accepts: bool)
    requires Remembers(f, sid, h) && h.Open?
    ensures DowngradeStatus(f, sid, bits, minor, accepts) == Invalid <==> !ValidDowngrade(h, bits, minor)
    ensures DowngradeStatus(f, sid, bits, minor, accepts) == Success <==>
            ValidDowngrade(h, bits, minor) && (minor > 0 || Pushes(f.counts, h.held, bits, accepts))
  {
  }

  lemma StepRemembers(f: File, op: Op, sid: Sid, h: History)
    requires Can(f, op) && Remembers(f, sid, h)
    ensures Remembers(Next(f, op), sid, Continued(h, f, op, sid))
  {
    match op
    case Add(x, bits, accepts) =>
    case Upgrade(x, bits, accepts) => if x == sid { NotedToo(h.opens, bits); }
    case Downgrade(x, bits, minor, accepts) =>
      if x == sid { DowngradeRemembered(f, sid, h, bits, minor, accepts); }
    case Close(x, _) =>
    case IoStart(_, _) =>
    case IoDone(_) =>
  }

  lemma NotedToo(opens: set<set<Bit>>, bits: set<Bit>)
    ensures (set b | b in opens + {bits} :: AccessPart(b)) == (set b | b in opens :: AccessPart(b)) + {AccessPart(bits)}
    ensures (set b | b in opens + {bits} :: DenyPart(b)) == (set b | b in opens :: DenyPart(b)) + {DenyPart(bits)}
  {
  }

  /** In every run each state holds what its opens and downgrades have left it, and remembers its opens. */
  lemma {:induction false} RunRemembers(f: File, ops: seq<Op>, sid: Sid, h: History)
    requires CanRun(f, ops) && Remembers(f, sid, h)
    ensures Remembers(Run(f, ops), sid, Life(h, f, ops, sid))
    decreases |ops|
  {
    if ops != [] {
      StepRemembers(f, ops[0], sid, h);
      RunRemembers(Next(f, ops[0]), ops[1..], sid, Continued(h, f, ops[0], sid));
    }
  }

  /** So in every run a downgrade is invalid exactly if it is more than the state holds or was not opened so. */
  lemma DowngradeValidIff(ops: seq<Op>, sid: Sid, bits: set<Bit>, minor: nat, accepts: bool)
    requires CanRun(Unused(), ops) && Can(Run(Unused(), ops), Downgrade(sid, bits, minor, accepts))
    ensures var h := Life(NotOpen, Unused(), ops, sid);
      h.Open? && (DowngradeStatus(Run(Unused(), ops), sid, bits, minor, accepts) == Invalid
                  <==> !ValidDowngrade(h, bits, minor))
  {
    RunRemembers(Unused(), ops, sid, NotOpen);
    DowngradeRemembered(Run(Unused(), ops), sid, Life(NotOpen, Unused(), ops, sid), bits, minor, accepts);
  }

  /** I/O that was let in keeps out, while it lasts, whoever would exclude it. */
  lemma IoKeepsOut(f: File, slot: nat, io: set<Bit>, was: set<Bit>, bits: set<Bit>, accepts: bool)
    requires Inv(f) && slot !in f.io && !Clashes(f.counts, io) && Excludes(bits, io)
    ensures OpenStatus(AfterIoStart(f, slot, io).counts, was, bits, accepts) == Conflict
    ensures AfterIoDone(AfterIoStart(f, slot, io), slot) == f
  {
    var f' := AfterIoStart(f, slot, io);
    IoStartInv(f, slot, io);
    assert f'.io[slot] == io;
    ClashesIff(f', bits);
    Reverted(f.counts, {}, io);
    assert f'.io - {slot} == f.io;
  }

  // ---- what is lost -------------------------------------------------------

  /** A downgrade above minor version 0 that gives up something; a close that the back end refuses. */
  ghost predicate Loses(f: File, op: Op, b: Bit)
    requires Can(f, op)
  {
    match op
    case Downgrade(sid, bits, minor, _) => minor > 0 && bits <= f.shares[sid] && b in f.shares[sid] - bits
    case Close(sid, accepts) => b in f.shares[sid] && !Pushes(f.counts, f.shares[sid], {}, accepts)
    case _ => false
  }

  lemma NextLost(f: File, op: Op, b: Bit)
    requires Can(f, op)
    ensures At(Next(f, op).lost, b) == At(f.lost, b) + (if Loses(f, op, b) then 1 else 0)
  {
    match op
    case Downgrade(sid, bits, minor, accepts) =>
      UpdatedAt(f.lost, bits, f.shares[sid], b);
    case Close(sid, accepts) => UpdatedAt(f.lost, {}, f.shares[sid], b);
    case _ =>
  }

  ghost predicate NeverLoses(f: File, ops: seq<Op>, b: Bit)
    requires CanRun(f, ops)
    decreases |ops|
  {
    ops == [] || (!Loses(f, ops[0], b) && NeverLoses(Next(f, ops[0]), ops[1..], b))
  }

  lemma {:induction false} RunLost(f: File, ops: seq<Op>, b: Bit)
    requires CanRun(f, ops)
    ensures At(Run(f, ops).lost, b) >= At(f.lost, b)
    ensures At(Run(f, ops).lost, b) == At(f.lost, b) <==> NeverLoses(f, ops, b)
    decreases |ops|
  {
    if ops != [] {
      NextLost(f, ops[0], b);
      RunLost(Next(f, ops[0]), ops[1..], b);
    }
  }

  /** A counter is the number of its users exactly in the runs without such a downgrade or close. */
  lemma RunExactIff(f: File, ops: seq<Op>, b: Bit)
    requires Inv(f) && CanRun(f, ops) && At(f.counts, b) == Users(f, b)
    ensures At(Run(f, ops).counts, b) == Users(Run(f, ops), b) <==> NeverLoses(f, ops, b)
  {
    RunInv(f, ops);
    RunLost(f, ops, b);
    assert At(f.counts, b) == Users(f, b) + At(f.lost, b);
    assert At(Run(f, ops).counts, b) == Users(Run(f, ops), b) + At(Run(f, ops).lost, b);
  }

  /** What is lost is refused for good, whoever opens the file and whatever has been closed since. */
  lemma LostIsRefused(f: File, ops: seq<Op>, b: Bit, was: set<Bit>, bits: set<Bit>, accepts: bool)
    requires Inv(f) && CanRun(f, ops) && At(f.lost, b) > 0 && Against(b) in bits
    ensures OpenStatus(Run(f, ops).counts, was, bits, accepts) == Conflict
  {
    RunInv(f, ops);
    RunLost(f, ops, b);
    var f' := Run(f, ops);
    assert At(f'.counts, b) == Users(f', b) + At(f'.lost, b);
    assert Against(Against(b)) == b;
  }

  lemma FirstStep(f: File, op: Op, rest: seq<Op>)
    requires Can(f, op) && CanRun(Next(f, op), rest)
    ensures CanRun(f, [op] + rest) && Run(f, [op] + rest) == Run(Next(f, op), rest)
  {
    assert ([op] + rest)[1..] == rest;
  }

  /** Whatever an unused file is opened with, that is what it then has. */
  lemma FirstOpen(sid: Sid, bits: set<Bit>)
    ensures OpenStatus(Unused().counts, {}, bits, true) == Success
    ensures var f := AfterAdd(Unused(), sid, bits, true);
      f.shares == map[sid := bits] && sid in f.seen && f.io == map[] && Inv(f)
  {
    assert forall b :: At(Unused().counts, b) == 0;
    StartsUnused();
    AddInv(Unused(), sid, bits, true);
  }

  /** Opened, downgraded above minor version 0 and closed, a file without any state refuses what was given up. */
  lemma LostExample(sid: Sid, bits: set<Bit>, fewer: set<Bit>, b: Bit)
    requires fewer <= bits && b in bits - fewer
    ensures var ops := [Add(sid, bits, true)] + ([Downgrade(sid, fewer, 1, true)] + ([Close(sid, true)] + []));
      && CanRun(Unused(), ops)
      && var f := Run(Unused(), ops);
         f.shares == map[] && f.io == map[] && OpenStatus(f.counts, {}, {Against(b)}, true) == Conflict
  {
    FirstOpen(sid, bits);
    var f1 := AfterAdd(Unused(), sid, bits, true);
    var f2 := AfterDowngrade(f1, sid, fewer, 1, true);
    var f3 := AfterClose(f2, sid, true);
    DowngradeInv(f1, sid, fewer, 1, true);
    CloseInv(f2, sid, true);
    NextLost(f1, Downgrade(sid, fewer, 1, true), b);
    NextLost(f2, Close(sid, true), b);
    LostIsRefused(f3, [], b, {}, {Against(b)}, true);
    FirstStep(f2, Close(sid, true), []);
    FirstStep(f1, Downgrade(sid, fewer, 1, true), [Close(sid, true)] + []);
    FirstStep(Unused(), Add(sid, bits, true), [Downgrade(sid, fewer, 1, true)] + ([Close(sid, true)] + []));
  }

  // ---- upgrades -----------------------------------------------------------

  /** An owner alone on the file is refused an upgrade exactly if it conflicts with its own share. */
  lemma UpgradeAgainstItself(f: File, sid: Sid, bits: set<Bit>)
    requires Inv(f) && f.shares.Keys == {sid} && f.io == map[] && (forall b :: At(f.lost, b) == 0)
    ensures OpenStatus(f.counts, f.shares[sid], bits, true) == Conflict <==> Excludes(bits, f.shares[sid])
  {
    ClashesIff(f, bits);
    assert sid in f.shares;
    assert forall k :: k in f.shares <==> k == sid;
  }

  /** So an owner that denies writing, say, cannot add writing to what it has opened. */
  lemma SelfConflictExample(sid: Sid, bits: set<Bit>, b: Bit)
    requires b in bits
    ensures var f := AfterAdd(Unused(), sid, bits, true);
      f.shares == map[sid := bits] && OpenStatus(f.counts, bits, {Against(b)}, true) == Conflict
  {
    FirstOpen(sid, bits);
    assert Against(Against(b)) in bits;
    UpgradeAgainstItself(AfterAdd(Unused(), sid, bits, true), sid, {Against(b)});
  }

  /** A counted downgrade to what a state had undoes the upgrade. */
  lemma DowngradeUndoesUpgrade(f: File, sid: Sid, bits: set<Bit>, accepts: bool, again: bool)
    requires Inv(f) && sid in f.shares && OpenStatus(f.counts, f.shares[sid], bits, accepts) == Success
    ensures var up := AfterUpgrade(f, sid, bits, accepts);
      var down := AfterDowngrade(up, sid, f.shares[sid], 0, again);
      DowngradeStatus(up, sid, f.shares[sid], 0, again) == Success ==>
        down.shares == f.shares && down.counts == f.counts && down.lost == f.lost
  {
    var up := AfterUpgrade(f, sid, bits, accepts);
    var was := f.shares[sid];
    forall b ensures At(Updated(up.counts, was + bits, was), b) == At(f.counts, b) {
      UpdatedAt(f.counts, was, was + bits, b);
      UpdatedAt(up.counts, was + bits, was, b);
    }
    SameCounts(Updated(up.counts, was + bits, was), f.counts);
  }

  // ---- the operations in place --------------------------------------------

  /** Counting back is the way a push that the back end refuses is undone. */
  lemma Reverted(c: Counts, was: set<Bit>, now: set<Bit>)
    ensures Updated(Updated(c, was, now), now, was) == c
  {
  }

  class FileShares {
    var shares: map<Sid, set<Bit>>
    var seen: map<Sid, Seen>
    var io: map<nat, set<Bit>>
    var counts: Counts
    ghost var lost: Counts

    ghost function State(): File
      reads this
    {
      File(shares, seen, io, counts, lost)
    }

    constructor ()
      ensures State() == Unused() && Inv(State())
    {
      shares, seen, io, counts, lost := map[], map[], map[], Counts(0, 0, 0, 0), Counts(0, 0, 0, 0);
      new;
      StartsUnused();
    }

    /** state_share_check_conflict: the four tests together decide whether some bit clashes. */
    method CheckConflict(bits: set<Bit>) returns (conflict: bool)
      ensures conflict <==> Clashes(counts, bits)
    {
      if Access(FS.Read) in bits && counts.denyRead > 0 {
        assert At(counts, Against(Access(FS.Read))) > 0;
        return true;
      }
      if Access(FS.Write) in bits && counts.denyWrite > 0 {
        assert At(counts, Against(Access(FS.Write))) > 0;
        return true;
      }
      if Deny(FS.Read) in bits && counts.accessRead > 0 {
        assert At(counts, Against(Deny(FS.Read))) > 0;
        return true;
      }
      if Deny(FS.Write) in bits && counts.accessWrite > 0 {
        assert At(counts, Against(Deny(FS.Write))) > 0;
        return true;
      }
      return false;
    }

    /** Count, push the new union if there is one, count back if the back end refuses. */
    method Count(was: set<Bit>, now: set<Bit>, accepts: bool) returns (pushed: bool)
      modifies `counts
      ensures pushed == Pushes(old(counts), was, now, accepts)
      ensures counts == if pushed then Updated(old(counts), was, now) else old(counts)
    {
      var union := Union(counts);
      counts := Updated(counts, was, now);
      pushed := true;
      if Union(counts) != union && !accepts {
        Reverted(old(counts), was, now);
        counts := Updated(counts, now, was);
        pushed := false;
      }
    }

    /** state_share_add. */
    method AddShare(sid: Sid, bits: set<Bit>, accepts: bool) returns (status: Status)
      requires Inv(State()) && sid !in shares
      modifies this
      ensures status == OpenStatus(old(counts), {}, bits, accepts)
      ensures State() == AfterAdd(old(State()), sid, bits, accepts)
      ensures Inv(State())
    {
      AddInv(State(), sid, bits, accepts);
      assert {} + bits == bits;
      var conflict := CheckConflict(bits);
      if conflict {
        return Conflict;
      }
      var pushed := Count({}, bits, accepts);
      if !pushed {
        return PushError;
      }
      shares := shares[sid := bits];
      seen := seen[sid := Note(Seen({}, {}), bits)];
      return Success;
    }

    /** state_share_upgrade. */
    method UpgradeShare(sid: Sid, bits: set<Bit>, accepts: bool) returns (status: Status)
      requires Inv(State()) && sid in shares
      modifies this
      ensures status == OpenStatus(old(counts), old(shares[sid]), bits, accepts)
      ensures sid in old(seen) && State() == AfterUpgrade(old(State()), sid, bits, accepts)
      ensures Inv(State())
    {
      assert sid in seen.Keys;
      UpgradeInv(State(), sid, bits, accepts);
      var conflict := CheckConflict(bits);
      if conflict {
        return Conflict;
      }
      var pushed := Count(shares[sid], shares[sid] + bits, accepts);
      if !pushed {
        return PushError;
      }
      shares := shares[sid := shares[sid] + bits];
      seen := seen[sid := Note(seen[sid], bits)];
      return Success;
    }

    /** nfs4_op_open_downgrade, with nfs4_do_open_downgrade and state_share_downgrade. */
    method DowngradeShare(sid: Sid, bits: set<Bit>, minor: nat, accepts: bool) returns (status: Status)
      requires Inv(State()) && sid in shares
      modifies this
      ensures sid in old(seen) && status == DowngradeStatus(old(State()), sid, bits, minor, accepts)
      ensures State() == AfterDowngrade(old(State()), sid, bits, minor, accepts)
      ensures Inv(State())
    {
      assert sid in seen.Keys;
      DowngradeInv(State(), sid, bits, minor, accepts);
      if !(bits <= shares[sid]) {
        return Invalid;
      }
      if minor > 0 {
        lost := Updated(lost, bits, shares[sid]);
      } else {
        if AccessPart(bits) !in seen[sid].access || DenyPart(bits) !in seen[sid].deny {
          return Invalid;
        }
        var pushed := Count(shares[sid], bits, accepts);
        if !pushed {
          return PushError;
        }
      }
      shares := shares[sid := bits];
      return Success;
    }

    /** The part of CLOSE and of the release of an owner that removes the share, with state_share_remove. */
    method CloseShare(sid: Sid, accepts: bool)
      requires Inv(State()) && sid in shares
      modifies this
      ensures State() == AfterClose(old(State()), sid, accepts)
      ensures Inv(State())
    {
      CloseInv(State(), sid, accepts);
      var pushed := Count(shares[sid], {}, accepts);
      if !pushed {
        lost := Updated(lost, {}, shares[sid]);
      }
      shares := shares - {sid};
      seen := seen - {sid};
    }

    /** state_share_anonymous_io_start. */
    method StartIo(slot: nat, bits: set<Bit>) returns (status: Status)
      requires Inv(State()) && slot !in io
      modifies this
      ensures status == if Clashes(old(counts), bits) then Conflict else Success
      ensures State() == AfterIoStart(old(State()), slot, bits)
      ensures Inv(State())
    {
      IoStartInv(State(), slot, bits);
      var conflict := CheckConflict(bits);
      if conflict {
        return Conflict;
      }
      counts := Updated(counts, {}, bits);
      io := io[slot := bits];
      return Success;
    }

    /** state_share_anonymous_io_done. */
    method FinishIo(slot: nat)
      requires Inv(State()) && slot in io
      modifies this
      ensures State() == AfterIoDone(old(State()), slot)
      ensures Inv(State())
    {
      IoDoneInv(State(), slot);
      counts := Updated(counts, io[slot], {});
      io := io - {slot};
    }
  }
}
