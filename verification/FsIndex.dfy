/**
 The index of file systems by fsid: a search tree whose nodes are the file system
 records themselves, so that changing a record's fsid means taking it out and putting it
 back, and putting it back as it was if the new fsid is taken.
 */
module FsIndex {
  import opened Bits
  import opened Collections
  import opened SearchTrees
  import opened Widths

  datatype FsidType = NoType | OneUint64 | Major64 | TwoUint64 | TwoUint32 | Device
  datatype Fs = Fs(kind: FsidType, major: nat, minor: nat, devMajor: nat, devMinor: nat, indexed: bool)

  /** The components of an fsid and of a device number are 64-bit numbers. */
  predicate Fits(fs: Fs) {
    fs.major < UINT64 && fs.minor < UINT64 && fs.devMajor < UINT64 && fs.devMinor < UINT64
  }

  // ---- the order ----------------------------------------------------------

  /** fsal_fs_cmpf_fsid: a missing minor comes before every minor. */
  function Compare(a: Fs, b: Fs): int {
    if a.major < b.major then -1
    else if a.major > b.major then 1
    else if a.kind == Major64 && b.kind == Major64 then 0
    else if a.kind == Major64 then -1
    else if b.kind == Major64 then 1
    else if a.minor < b.minor then -1
    else if a.minor > b.minor then 1
    else 0
  }

  /** One number with the same order. */
  function KeyOf(fs: Fs): int {
    fs.major * (UINT64 + 1) + (if fs.kind == Major64 then 0 else fs.minor + 1)
  }

  /** The comparison is the order of the numbers, so it is total and transitive. */
  lemma CompareIsKeyOrder(a: Fs, b: Fs)
    requires Fits(a) && Fits(b)
    ensures Compare(a, b) < 0 <==> KeyOf(a) < KeyOf(b)
    ensures Compare(a, b) == 0 <==> KeyOf(a) == KeyOf(b)
    ensures Compare(a, b) > 0 <==> KeyOf(a) > KeyOf(b)
  {
  }

  function KeysOf(fss: map<Id, Fs>): Keys {
    map x | x in fss :: KeyOf(fss[x])
  }

  // ---- the index ----------------------------------------------------------

  datatype Index = Index(fss: map<Id, Fs>, tree: Tree)

  ghost predicate Inv(i: Index) {
    && (forall x :: x in i.fss ==> Fits(i.fss[x]))
    && Ordered(KeysOf(i.fss), i.tree)
    && (forall x :: x in Members(i.tree) <==> x in i.fss && i.fss[x].indexed)
  }

  /** Two states of the index that no lookup can tell apart. */
  ghost predicate SameIndex(i: Index, j: Index) {
    i.fss == j.fss && Members(i.tree) == Members(j.tree)
  }

  datatype Outcome = Done | Invalid | Exists | Fatal

  /** The record under its new fsid. */
  function Retyped(fs: Fs, kind: FsidType, major: nat, minor: nat): Fs {
    fs.(kind := kind, major := major, minor := minor)
  }

  /** Is the new fsid already that of another indexed file system? */
  ghost predicate Taken(i: Index, x: Id, fs: Fs) {
    exists y :: y in i.fss && y != x && i.fss[y].indexed && KeyOf(i.fss[y]) == KeyOf(fs)
  }

  /** Taking a record out of the tree frees its key to change. */
  lemma TakeOut(i: Index, x: Id, fs: Fs)
    requires Inv(i) && x in i.fss
    ensures var t := Removed(i.tree, x); var keys' := KeysOf(i.fss[x := fs]);
      && Members(t) == Members(i.tree) - {x} && Ordered(KeysOf(i.fss), t) && Ordered(keys', t)
  {
    var t := Removed(i.tree, x);
    RemovedMembers(KeysOf(i.fss), i.tree, x);
    RemovedOrdered(KeysOf(i.fss), i.tree, x);
    OrderedSame(KeysOf(i.fss), KeysOf(i.fss[x := fs]), t);
  }

  lemma FreeIffNotTaken(i: Index, x: Id, fs: Fs)
    requires Inv(i) && x in i.fss
    ensures Search(KeysOf(i.fss[x := fs]), Removed(i.tree, x), KeyOf(fs)).None? <==> !Taken(i, x, fs)
  {
    var t := Removed(i.tree, x);
    var keys' := KeysOf(i.fss[x := fs]);
    TakeOut(i, x, fs);
    var found := Search(keys', t, KeyOf(fs));
    if found.Some? {
      SearchFinds(keys', t, KeyOf(fs), found.value);
      assert found.value in Members(i.tree) && found.value != x;
    }
    if Taken(i, x, fs) {
      var y :| y in i.fss && y != x && i.fss[y].indexed && KeyOf(i.fss[y]) == KeyOf(fs);
      SearchFinds(keys', t, KeyOf(fs), y);
    }
  }

  /** The tree without `x`, if it was in it. */
  function Unlinked(i: Index, x: Id): Tree
    requires x in i.fss
  {
    if i.fss[x].indexed then Removed(i.tree, x) else i.tree
  }

  function Inserts(fss: map<Id, Fs>, t: Tree, x: Id): bool
    requires x in fss
  {
    Search(KeysOf(fss), t, KeyOf(fss[x])).None?
  }

  /** What re_index_fs_fsid returns, and the index it leaves. */
  function ReIndexed(i: Index, x: Id, kind: FsidType, major: nat, minor: nat): (Outcome, Index)
    requires x in i.fss
  {
    if kind == NoType then (Invalid, i)
    else
      var t := Unlinked(i, x);
      var fss := i.fss[x := Retyped(i.fss[x], kind, major, minor)];
      if Inserts(fss, t, x) then (Done, Index(i.fss[x := fss[x].(indexed := true)], Inserted(KeysOf(fss), t, x)))
      else if !i.fss[x].indexed then (Exists, i)
      else if Inserts(i.fss, t, x) then (Exists, Index(i.fss, Inserted(KeysOf(i.fss), t, x)))
      else (Fatal, Index(i.fss, t))
  }

  lemma NotMember(i: Index, x: Id)
    requires Inv(i) && x in i.fss && !i.fss[x].indexed
    ensures Removed(i.tree, x) == i.tree
  {
    RemovedNothing(i.tree, x);
  }

  lemma {:induction false} RemovedNothing(t: Tree, x: Id)
    requires x !in Members(t)
    ensures Removed(t, x) == t
    decreases t
  {
    if t != Leaf {
      RemovedNothing(t.left, x);
      RemovedNothing(t.right, x);
    }
  }

  /** The old key is free again, so the record goes back to where it was. */
  lemma PutBack(i: Index, x: Id)
    requires Inv(i) && x in i.fss && i.fss[x].indexed
    ensures var t := Removed(i.tree, x); var keys := KeysOf(i.fss);
      && Search(keys, t, KeyOf(i.fss[x])).None?
      && Ordered(keys, t) && Ordered(keys, Inserted(keys, t, x)) && Members(Inserted(keys, t, x)) == Members(i.tree)
  {
    var keys := KeysOf(i.fss);
    var t := Removed(i.tree, x);
    RemovedMembers(keys, i.tree, x);
    RemovedOrdered(keys, i.tree, x);
    var found := Search(keys, t, keys[x]);
    if found.Some? {
      SearchFinds(keys, t, keys[x], found.value);
      KeysDiffer(keys, i.tree, x, found.value);
    }
    InsertedMembers(keys, t, x);
    InsertedOrdered(keys, t, x);
  }

  lemma MovedIn(i: Index, x: Id, fs: Fs)
    requires Inv(i) && x in i.fss && Fits(fs) && !Taken(i, x, fs)
    ensures var keys := KeysOf(i.fss[x := fs]); var t := Removed(i.tree, x);
      Ordered(keys, Inserted(keys, t, x)) && Members(Inserted(keys, t, x)) == Members(i.tree) + {x}
  {
    TakeOut(i, x, fs);
    FreeIffNotTaken(i, x, fs);
    var keys := KeysOf(i.fss[x := fs]);
    InsertedMembers(keys, Removed(i.tree, x), x);
    InsertedOrdered(keys, Removed(i.tree, x), x);
  }

  lemma KeyIgnoresIndexed(fss: map<Id, Fs>, x: Id, fs: Fs)
    ensures KeysOf(fss[x := fs.(indexed := true)]) == KeysOf(fss[x := fs])
  {
  }

  lemma InPlace(i: Index, x: Id)
    requires Inv(i) && x in i.fss && i.fss[x].kind != Major64
    ensures KeysOf(i.fss[x := i.fss[x].(kind := TwoUint64)]) == KeysOf(i.fss)
  {
  }

  /** The index after a successful move. */
  lemma MovedInv(i: Index, x: Id, fs: Fs)
    requires Inv(i) && x in i.fss && Fits(fs) && !Taken(i, x, fs)
    ensures Inv(Index(i.fss[x := fs.(indexed := true)], Inserted(KeysOf(i.fss[x := fs]), Removed(i.tree, x), x)))
  {
    MovedIn(i, x, fs);
    KeyIgnoresIndexed(i.fss, x, fs);
    OneMore(i, x, fs.(indexed := true), Inserted(KeysOf(i.fss[x := fs]), Removed(i.tree, x), x));
  }

  lemma OneMore(i: Index, x: Id, fs: Fs, t: Tree)
    requires Inv(i) && x in i.fss && Fits(fs) && fs.indexed
    requires Ordered(KeysOf(i.fss[x := fs]), t) && Members(t) == Members(i.tree) + {x}
    ensures Inv(Index(i.fss[x := fs], t))
  {
  }

  /**
   A success moves this file system and no other.  A failure leaves the index as it was:
   the old entry always goes back in, so the fatal error cannot happen.
   */
  lemma ReIndexIsAtomic(i: Index, x: Id, kind: FsidType, major: nat, minor: nat)
    requires Inv(i) && x in i.fss && major < UINT64 && minor < UINT64
    ensures var (r, j) := ReIndexed(i, x, kind, major, minor);
      && Inv(j) && r != Fatal
      && (r == Invalid <==> kind == NoType)
      && (r == Exists <==> kind != NoType && Taken(i, x, Retyped(i.fss[x], kind, major, minor)))
      && (r != Done ==> SameIndex(i, j))
      && (r == Done ==> j.fss == i.fss[x := Retyped(i.fss[x], kind, major, minor).(indexed := true)])
  {
    if kind != NoType {
      var fs := Retyped(i.fss[x], kind, major, minor);
      if !i.fss[x].indexed { NotMember(i, x); }
      FreeIffNotTaken(i, x, fs);
      if Taken(i, x, fs) {
        if i.fss[x].indexed { PutBack(i, x); }
      } else {
        MovedInv(i, x, fs);
      }
    }
  }

  // ---- changing the type --------------------------------------------------

  /** The new fsid, if there is a conversion.  A `&&` of a number and a mask is 0 or 1. */
  function Target(fs: Fs, kind: FsidType): Option<(nat, nat)> {
    match kind
    case OneUint64 =>
      if fs.kind == TwoUint64 then Some((Xor(fs.major, Or(fs.minor * UINT32 % UINT64, fs.minor / UINT32)), 0))
      else if fs.kind == TwoUint32 then Some((Or(fs.major * UINT32 % UINT64, fs.minor), 0))
      else None
    case Major64 => Some((fs.major, fs.minor))
    case TwoUint64 => Some((fs.major, fs.minor))
    case Device =>
      // the case falls through to the next
      if Halved(fs).Some? then Halved(fs) else Some((fs.devMajor, fs.devMinor))
    case TwoUint32 => Halved(fs)
    case NoType => None
  }

  function Halved(fs: Fs): Option<(nat, nat)> {
    if fs.kind == TwoUint64 then
      Some((Xor(Truth(fs.major), fs.major / UINT32), Xor(Truth(fs.minor), fs.minor / UINT32)))
    else if fs.kind == OneUint64 then Some((fs.major / UINT32, Truth(fs.major)))
    else None
  }

  function Truth(n: nat): nat {
    if n == 0 then 0 else 1
  }

  /** The record after a change of type that succeeds. */
  function Changed(fs: Fs, kind: FsidType): Fs {
    var target := Target(fs, kind);
    if fs.kind == kind || target.None? then fs
    else Retyped(fs, kind, target.value.0, target.value.1)
  }

  /** Does the change have to move the record in the tree? */
  predicate Moves(fs: Fs, kind: FsidType) {
    kind != fs.kind && Target(fs, kind).Some? && (kind == TwoUint64 ==> fs.kind == Major64)
  }

  lemma TargetFits(fs: Fs, kind: FsidType)
    requires Fits(fs)
    ensures var t := Target(fs, kind); t.Some? ==> t.value.0 < UINT64 && t.value.1 < UINT64
  {
    Bounds64(Truth(fs.major), fs.major / UINT32);
    Bounds64(Truth(fs.minor), fs.minor / UINT32);
    Bounds64(fs.major * UINT32 % UINT64, fs.minor);
    var swapped := Or(fs.minor * UINT32 % UINT64, fs.minor / UINT32);
    Bounds64(fs.minor * UINT32 % UINT64, fs.minor / UINT32);
    Bounds64(fs.major, swapped);
  }

  /**
   A 64-bit fsid that is split in two and put together again is the same fsid exactly if
   its low half is what `&&` makes of it: 1, or 0 for the fsid 0.
   */
  lemma SplitAndJoin(fs: Fs)
    requires Fits(fs) && fs.kind == OneUint64
    ensures Changed(Changed(fs, TwoUint32), OneUint64).major == fs.major <==> fs.major % UINT32 == Truth(fs.major)
  {
    OrHalves(fs.major / UINT32, Truth(fs.major));
    var split := Changed(fs, TwoUint32);
    assert split.major == fs.major / UINT32 && split.minor == Truth(fs.major);
    assert fs.major == fs.major / UINT32 * UINT32 + fs.major % UINT32;
  }

  lemma SplitExample()
    ensures var fs := Fs(OneUint64, 5, 0, 0, 0, true); Changed(Changed(fs, TwoUint32), OneUint64).major != 5
  {
    SplitAndJoin(Fs(OneUint64, 5, 0, 0, 0, true));
  }

  /** Changing to a type that keeps both words loses neither, also when the second is not indexed meanwhile. */
  lemma WordsAreKept(fs: Fs)
    ensures Changed(fs, Major64).major == fs.major && Changed(fs, Major64).minor == fs.minor
    ensures fs.kind == TwoUint64 ==> Changed(Changed(fs, Major64), TwoUint64) == fs
    ensures Changed(fs, TwoUint64) == fs.(kind := TwoUint64)
  {
  }

  /** Two words are squashed into one by exclusive or, the halves of the second changing places. */
  lemma SquashedHalves(fs: Fs)
    requires Fits(fs) && fs.kind == TwoUint64
    ensures Changed(fs, OneUint64) ==
            Retyped(fs, OneUint64, Xor(fs.major / UINT32, fs.minor % UINT32) * UINT32
                                   + Xor(fs.major % UINT32, fs.minor / UINT32), 0)
  {
    var high, low := fs.minor / UINT32, fs.minor % UINT32;
    assert fs.minor * UINT32 % UINT64 == low * UINT32 by { ShiftedOut(high, low); }
    OrHalves(low, high);
    assert low * UINT32 % UINT64 == low * UINT32;
    XorHalves(fs.major / UINT32, fs.major % UINT32, low, high);
    assert fs.major == fs.major / UINT32 * UINT32 + fs.major % UINT32;
  }

  lemma ShiftedOut(high: nat, low: nat)
    requires high < UINT32 && low < UINT32
    ensures (high * UINT32 + low) * UINT32 % UINT64 == low * UINT32
  {
    assert (high * UINT32 + low) * UINT32 == high * UINT64 + low * UINT32;
  }

  /** What the comment on the conversion of two words promises: each word folded by exclusive or. */
  function Folded(n: nat): nat {
    Xor(n % UINT32, n / UINT32)
  }

  /** Two words are folded as promised exactly if both low halves are what `&&` makes of them. */
  lemma FoldsIffLowHalvesAreTruth(fs: Fs)
    requires fs.kind == TwoUint64
    ensures Changed(fs, TwoUint32) == Retyped(fs, TwoUint32, Folded(fs.major), Folded(fs.minor)) <==>
            fs.major % UINT32 == Truth(fs.major) && fs.minor % UINT32 == Truth(fs.minor)
  {
    XorInjective(Truth(fs.major), fs.major % UINT32, fs.major / UINT32);
    XorInjective(Truth(fs.minor), fs.minor % UINT32, fs.minor / UINT32);
  }

  lemma FoldExample()
    ensures var fs := Fs(TwoUint64, 6, 0, 0, 0, true);
      Changed(fs, TwoUint32) != Retyped(fs, TwoUint32, Folded(6), Folded(0))
  {
    FoldsIffLowHalvesAreTruth(Fs(TwoUint64, 6, 0, 0, 0, true));
  }

  /**
   A change to the device type takes the device numbers exactly if the fsid is not one or
   two 64-bit words, or folding or splitting those happens to give the same numbers.
   */
  lemma DeviceIffNotWords(fs: Fs)
    requires fs.kind != Device
    ensures Changed(fs, Device) == Retyped(fs, Device, fs.devMajor, fs.devMinor) <==>
            (fs.kind != OneUint64 && fs.kind != TwoUint64) || Halved(fs) == Some((fs.devMajor, fs.devMinor))
  {
  }

  lemma DeviceExample()
    ensures var fs := Fs(OneUint64, 5, 0, 8, 16, true); Changed(fs, Device) == Retyped(fs, Device, 0, 1)
  {
  }

  class FsTable {
    var fss: map<Id, Fs>
    var tree: Tree

    function Now(): Index
      reads this
    {
      Index(fss, tree)
    }

    /** avltree_inline_fsid_lookup: finds a file system exactly if one that compares equal is indexed. */
    method LookupFsid(key: Fs) returns (r: Option<Id>)
      requires Inv(Now()) && Fits(key)
      ensures r.Some? ==> r.value in fss && fss[r.value].indexed && Compare(fss[r.value], key) == 0
      ensures r.None? ==> forall x :: x in fss && fss[x].indexed ==> Compare(fss[x], key) != 0
    {
      ghost var keys := KeysOf(fss);
      var node := tree;
      while node != Leaf
        invariant Ordered(keys, node) && Members(node) <= Members(tree)
        invariant Search(keys, node, KeyOf(key)) == Search(keys, tree, KeyOf(key))
        decreases node
      {
        assert node.id in Members(tree);
        var res := Compare(fss[node.id], key);
        CompareIsKeyOrder(fss[node.id], key);
        if res == 0 {
          return Some(node.id);
        }
        node := if res > 0 then node.left else node.right;
      }
      r := None;
      forall x | x in fss && fss[x].indexed ensures Compare(fss[x], key) != 0 {
        SearchFinds(keys, tree, KeyOf(key), x);
        CompareIsKeyOrder(fss[x], key);
      }
    }

    /** avltree_insert of the record `x`; false if its key is taken. */
    method Insert(x: Id) returns (ok: bool)
      requires x in fss
      modifies this`tree
      ensures tree == if ok then Inserted(KeysOf(fss), old(tree), x) else old(tree)
      ensures ok == Inserts(fss, old(tree), x)
    {
      ok := Inserts(fss, tree, x);
      if ok { tree := Inserted(KeysOf(fss), tree, x); }
    }

    /** re_index_fs_fsid */
    method ReIndex(x: Id, kind: FsidType, major: nat, minor: nat) returns (r: Outcome)
      requires x in fss
      modifies this
      ensures (r, Now()) == ReIndexed(old(Now()), x, kind, major, minor)
    {
      if kind == NoType {
        return Invalid;
      }
      var oldFs := fss[x];
      if oldFs.indexed {
        tree := Removed(tree, x);
      }
      fss := fss[x := Retyped(oldFs, kind, major, minor)];
      var ok := Insert(x);
      if !ok {
        fss := fss[x := oldFs];
        assert fss == old(fss);
        if oldFs.indexed {
          ok := Insert(x);
          if !ok {
            return Fatal;
          }
        }
        return Exists;
      }
      fss := fss[x := fss[x].(indexed := true)];
      assert fss == old(fss)[x := fss[x]];
      r := Done;
    }

    /**
     change_fsid_type.  Retyping to FSID_TWO_UINT64 in place, without touching the tree, is
     right because the comparison does not see the difference.
     */
    method ChangeFsidType(x: Id, kind: FsidType) returns (r: Outcome)
      requires Inv(Now()) && x in fss
      modifies this
      ensures Inv(Now()) && r != Fatal
      ensures r == Invalid <==> kind != old(fss[x].kind) && Target(old(fss[x]), kind).None?
      ensures r == Exists <==> Moves(old(fss[x]), kind) && Taken(old(Now()), x, Changed(old(fss[x]), kind))
      ensures x in fss
      ensures r == Done ==> fss == old(fss)[x := Changed(old(fss[x]), kind).(indexed := fss[x].indexed)]
      ensures r != Done ==> SameIndex(Now(), old(Now()))
    {
      var fs := fss[x];
      if fs.kind == kind {
        assert fss == fss[x := fs];
        return Done;
      }
      TargetFits(fs, kind);
      if kind == TwoUint64 && fs.kind != Major64 {
        InPlace(Now(), x);
        fss := fss[x := fs.(kind := kind)];
        return Done;
      }
      var target := Target(fs, kind);
      if target.None? {
        return Invalid;
      }
      ReIndexIsAtomic(Now(), x, kind, target.value.0, target.value.1);
      r := ReIndex(x, kind, target.value.0, target.value.1);
    }
  }
}
