/**
 The recovery directory as a set of directory paths, and what it records.

 A client name is cut into segments of at most NAME_MAX characters, one nested
 directory per segment.  This module says what adding, removing and reading names
 do to such a tree and to the set of names that it records.
 */
module RecoveryTree {
  import opened Decimals
  import opened RecoveryNames

  /** A directory below the recovery root: the names of the directories leading to it. */
  type Path = seq<string>
  type Tree = set<Path>

  // ---- cutting names into segments ---------------------------------------

  function Segments(n: string): Path
    decreases |n|
  {
    if n == "" then []
    else if |n| <= NAME_MAX then [n]
    else [n[..NAME_MAX]] + Segments(n[NAME_MAX..])
  }

  function Join(p: Path): string {
    if p == [] then "" else p[0] + Join(p[1..])
  }

  lemma {:induction false} JoinAppend(p: Path, q: Path)
    ensures Join(p + q) == Join(p) + Join(q)
    decreases |p|
  {
    if p == [] {
      assert p + q == q;
    } else {
      assert (p + q)[1..] == p[1..] + q;
      JoinAppend(p[1..], q);
    }
  }

  lemma JoinSnoc(p: Path, s: string)
    ensures Join(p + [s]) == Join(p) + s
  {
    JoinAppend(p, [s]);
    assert Join([s]) == s + Join([]);
  }

  /** Concatenating the segments gives the name back. */
  lemma {:induction false} JoinSegments(n: string)
    ensures Join(Segments(n)) == n
    decreases |n|
  {
    if n == "" {
    } else if |n| <= NAME_MAX {
      assert Join([n]) == n + Join([]);
    } else {
      var rest := n[NAME_MAX..];
      JoinSegments(rest);
      assert Segments(n)[1..] == Segments(rest);
      assert n == n[..NAME_MAX] + rest;
    }
  }

  /** A partial hierarchy spells a proper piece of the name, one full segment per level. */
  lemma {:induction false} JoinPartial(n: string, k: nat)
    requires k < |Segments(n)|
    ensures NAME_MAX * k < |n|
    ensures Join(Segments(n)[..k]) == n[..NAME_MAX * k]
    decreases k
  {
    if k > 0 {
      var rest := n[NAME_MAX..];
      assert Segments(n)[1..] == Segments(rest);
      JoinPartial(rest, k - 1);
      assert Segments(n)[..k][1..] == Segments(rest)[..k - 1];
      assert n[..NAME_MAX] + rest[..NAME_MAX * (k - 1)] == n[..NAME_MAX * k];
    }
  }

  /** The hierarchy of one name is never an ancestor of the hierarchy of another. */
  lemma NotAncestor(m: string, n: string)
    requires WellFormed(m) && WellFormed(n)
    requires Segments(m) <= Segments(n)
    ensures m == n
  {
    JoinSegments(m);
    JoinSegments(n);
    var k := |Segments(m)|;
    if k < |Segments(n)| {
      JoinPartial(n, k);
      assert Segments(m) == Segments(n)[..k];
      PrefixFree(m, n);
    } else {
      assert Segments(m) == Segments(n);
    }
  }

  /** Entries whose name starts with a dot are skipped by the reader. */
  predicate Hidden(s: string) {
    s != "" && s[0] == '.'
  }

  ghost predicate Recordable(n: string) {
    WellFormed(n) && forall i :: 0 <= i < |Segments(n)| ==> !Hidden(Segments(n)[i])
  }

  // ---- what the operations do to a tree ----------------------------------

  ghost predicate ParentClosed(t: Tree) {
    forall p :: p in t ==> p != [] && (|p| > 1 ==> p[..|p| - 1] in t)
  }

  lemma {:induction false} AncestorsPresent(t: Tree, p: Path, k: nat)
    requires ParentClosed(t) && p in t && 1 <= k <= |p|
    ensures p[..k] in t
    decreases |p|
  {
    if k < |p| {
      var q := p[..|p| - 1];
      assert q in t;
      AncestorsPresent(t, q, k);
      assert q[..k] == p[..k];
    } else {
      assert p[..k] == p;
    }
  }

  predicate HasChild(t: Tree, p: Path) {
    exists q :: q in t && p < q && |q| == |p| + 1
  }

  /** rmdir: only an existing directory with nothing in it goes away. */
  function AfterRmdir(t: Tree, p: Path): Tree {
    if HasChild(t, p) then t else t - {p}
  }

  lemma RmdirParentClosed(t: Tree, p: Path)
    requires ParentClosed(t)
    ensures ParentClosed(AfterRmdir(t, p))
  {
    forall q | q in AfterRmdir(t, p) && |q| > 1 ensures q[..|q| - 1] in AfterRmdir(t, p) {
      if q[..|q| - 1] == p {
        assert HasChild(t, p) by { assert q in t && p < q; }
      }
    }
  }

  /** The first `k` levels of a hierarchy, the part that `k` mkdir calls create. */
  function Levels(segs: Path, k: nat): Tree
    requires k <= |segs|
  {
    set i | 1 <= i <= k :: segs[..i]
  }

  /** The tree after the rmdir calls on the levels below `i`, deepest first. */
  function AfterRemoving(t: Tree, segs: Path, i: nat): Tree
    requires i <= |segs|
    decreases |segs| - i
  {
    if i == |segs| then t else AfterRmdir(AfterRemoving(t, segs, i + 1), segs[..i + 1])
  }

  // ---- what a tree records ------------------------------------------------

  ghost predicate PartOf(p: Path, n: string) {
    p != [] && p <= Segments(n)
  }

  /**
   `t` records exactly `names`: every directory belongs to the hierarchy of some
   name, and the whole hierarchy of a name is there just when the name is recorded.
   */
  ghost predicate Records(t: Tree, names: set<string>) {
    Shaped(t) && Whole(t, names)
  }

  ghost predicate Shaped(t: Tree) {
    ParentClosed(t) && forall p :: p in t ==> Owned(p)
  }

  ghost predicate Whole(t: Tree, names: set<string>) {
    (forall n :: n in names ==> Recordable(n)) && forall n :: Agree(t, names, n)
  }

  ghost predicate Agree(t: Tree, names: set<string>, n: string) {
    Recordable(n) ==> (Segments(n) in t <==> n in names)
  }

  ghost predicate Owned(p: Path) {
    exists n :: Recordable(n) && PartOf(p, n)
  }

  lemma RecordsNothing()
    ensures Records({}, {})
  {
  }

  lemma LevelIsWholeName(m: string, n: string, k: nat)
    requires Recordable(m) && Recordable(n)
    requires 1 <= k <= |Segments(n)| && Segments(m) == Segments(n)[..k]
    ensures m == n && k == |Segments(n)|
  {
    NotAncestor(m, n);
  }

  lemma AddKeepsShape(t: Tree, n: string, k: nat)
    requires Shaped(t) && Recordable(n) && k <= |Segments(n)|
    ensures Shaped(t + Levels(Segments(n), k))
  {
    var segs := Segments(n);
    var t' := t + Levels(segs, k);
    forall p | p in t' && p !in t
      ensures p != [] && Owned(p) && (|p| > 1 ==> p[..|p| - 1] in t')
    {
      var i :| 1 <= i <= k && p == segs[..i];
      assert PartOf(p, n);
      if i > 1 { assert p[..|p| - 1] == segs[..i - 1]; }
    }
  }

  lemma AddedWholeNames(t: Tree, n: string, k: nat, m: string)
    requires Recordable(n) && k <= |Segments(n)|
    requires Recordable(m)
    ensures Segments(m) in t + Levels(Segments(n), k) <==>
            Segments(m) in t || (m == n && k == |Segments(n)|)
  {
    var segs := Segments(n);
    if Segments(m) in Levels(segs, k) {
      var i :| 1 <= i <= k && Segments(m) == segs[..i];
      LevelIsWholeName(m, n, i);
    }
    WellFormedNotEmpty(n);
    if m == n && k == |segs| {
      assert segs[..k] == segs;
    }
  }

  /** The names known when `k` mkdir calls of the addition of `n` have been made. */
  function Learned(names: set<string>, n: string, k: nat): set<string> {
    if k == |Segments(n)| then names + {n} else names
  }

  /** Adding, whole or cut short after `k` directories. */
  lemma AddKeepsRecords(t: Tree, names: set<string>, n: string, k: nat)
    requires Records(t, names)
    requires Recordable(n) && k <= |Segments(n)|
    ensures Records(t + Levels(Segments(n), k), Learned(names, n, k))
  {
    var t', names' := t + Levels(Segments(n), k), Learned(names, n, k);
    AddKeepsShape(t, n, k);
    assert Whole(t', names') by {
      forall m ensures Agree(t', names', m) {
        assert Agree(t, names, m);
        if Recordable(m) { AddedWholeNames(t, n, k, m); }
      }
    }
  }

  lemma WellFormedNotEmpty(n: string)
    requires WellFormed(n)
    ensures n != "" && Segments(n) != []
  {
  }

  /** The deepest directory of a recorded name holds nothing, so the first rmdir takes it. */
  lemma WholeNameIsLeaf(t: Tree, names: set<string>, n: string)
    requires Records(t, names) && Recordable(n)
    ensures !HasChild(t, Segments(n))
  {
    if HasChild(t, Segments(n)) {
      var q :| q in t && Segments(n) < q;
      var m :| Recordable(m) && PartOf(q, m);
      assert Segments(n) <= Segments(m);
      NotAncestor(n, m);
      assert false;
    }
  }

  /** The name whose hierarchy ends at `p`, if it is one of `names`. */
  function EndingAt(names: set<string>, p: Path): set<string> {
    set n | n in names && Segments(n) == p
  }

  lemma RmdirAgrees(t: Tree, names: set<string>, p: Path, m: string)
    requires Records(t, names)
    ensures Agree(AfterRmdir(t, p), names - EndingAt(names, p), m)
  {
    assert Agree(t, names, m);
    if Recordable(m) && Segments(m) == p { WholeNameIsLeaf(t, names, m); }
  }

  lemma RmdirKeepsRecords(t: Tree, names: set<string>, p: Path)
    requires Records(t, names)
    ensures Records(AfterRmdir(t, p), names - EndingAt(names, p))
  {
    var t', names' := AfterRmdir(t, p), names - EndingAt(names, p);
    assert Shaped(t') by { RmdirParentClosed(t, p); }
    forall m ensures Agree(t', names', m) { RmdirAgrees(t, names, p, m); }
  }

  /** The names left when `k` rmdir calls of the removal of `n` have been made. */
  function Forgotten(names: set<string>, n: string, k: nat): set<string> {
    if k > 0 then names - {n} else names
  }

  /** No name but the removed one ends on its way. */
  lemma LevelEnds(names: set<string>, n: string, i: nat)
    requires Recordable(n) && i < |Segments(n)| && forall m :: m in names ==> Recordable(m)
    ensures EndingAt(names, Segments(n)[..i + 1]) == if i + 1 == |Segments(n)| then names * {n} else {}
  {
    var ends := EndingAt(names, Segments(n)[..i + 1]);
    forall m | m in ends ensures m == n { LevelIsWholeName(m, n, i + 1); }
    if m :| m in ends { LevelIsWholeName(m, n, i + 1); }
    if i + 1 == |Segments(n)| { assert Segments(n)[..i + 1] == Segments(n); }
  }

  /** Removing, whole or cut short after `k` rmdir calls; one call is enough to forget the name. */
  lemma {:induction false} RemoveKeepsRecords(t: Tree, names: set<string>, n: string, k: nat)
    requires Records(t, names)
    requires Recordable(n) && k <= |Segments(n)|
    ensures Records(AfterRemoving(t, Segments(n), |Segments(n)| - k), Forgotten(names, n, k))
    decreases k
  {
    if k > 0 {
      var i := |Segments(n)| - k;
      var u, names' := AfterRemoving(t, Segments(n), i + 1), Forgotten(names, n, k - 1);
      RemoveKeepsRecords(t, names, n, k - 1);
      RmdirKeepsRecords(u, names', Segments(n)[..i + 1]);
      LevelEnds(names', n, i);
      assert names' - EndingAt(names', Segments(n)[..i + 1]) == Forgotten(names, n, k);
    }
  }

  // ---- reading a tree back ------------------------------------------------

  /** No segment of `p` beyond the first `from` is hidden. */
  predicate VisibleFrom(p: Path, from: nat) {
    forall i :: from <= i < |p| ==> !Hidden(p[i])
  }

  function VisibleChildren(t: Tree, p: Path): set<Path> {
    set q | q in t && p < q && |q| == |p| + 1 && !Hidden(q[|p|])
  }

  predicate Below(parent: Path, p: Path) {
    parent < p && VisibleFrom(p, |parent|)
  }

  /** The directories under `parent` whose rebuilt names enter the client list. */
  function Collected(t: Tree, parent: Path): Tree {
    set p | p in t && Below(parent, p) && VisibleChildren(t, p) == {} && Judge(Join(p)) == Accepted
  }

  /** Directories the reader leaves in place: hidden ones, and ends whose name is malformed. */
  predicate Stuck(t: Tree, parent: Path, q: Path) {
    && parent < q
    && (VisibleFrom(q, |parent|) ==> VisibleChildren(t, q) == {} && Judge(Join(q)) == Malformed)
  }

  predicate Held(t: Tree, parent: Path, p: Path) {
    exists q :: q in t && p <= q && Stuck(t, parent, q)
  }

  /** What a reading that is not for a takeover leaves of the tree. */
  function Remaining(t: Tree, parent: Path): Tree {
    set p | p in t && (parent < p ==> Held(t, parent, p))
  }

  /** The directories copied to the target directory. */
  function Copied(t: Tree, parent: Path): Tree {
    set p | p in t && Below(parent, p)
  }

  function NamesOf(ends: Tree): set<string> {
    set p | p in ends :: Join(p)
  }

  lemma PartVisible(p: Path, n: string)
    requires Recordable(n) && PartOf(p, n)
    ensures Below([], p)
  {
    forall i | 0 <= i < |p| ensures !Hidden(p[i]) {
      assert p[i] == Segments(n)[i];
    }
  }

  /** A directory of a recorded tree is judged by how much of a name it spells. */
  lemma JudgePart(p: Path, n: string)
    requires Recordable(n) && PartOf(p, n)
    ensures p == Segments(n) ==> Join(p) == n && Judge(Join(p)) == Accepted
    ensures p != Segments(n) ==> Judge(Join(p)) == WrongLength
  {
    JoinSegments(n);
    if p == Segments(n) {
      WellFormedAccepted(n);
    } else {
      var k := |p|;
      JoinPartial(n, k);
      assert p == Segments(n)[..k];
      ProperPrefixRejected(Join(p), n);
    }
  }

  lemma EndIsWholeName(t: Tree, names: set<string>, p: Path)
    requires Records(t, names) && p in Collected(t, [])
    ensures Join(p) in names && p == Segments(Join(p))
  {
    var n :| Recordable(n) && PartOf(p, n);
    assert Agree(t, names, n);
    JudgePart(p, n);
  }

  lemma RecordedNameIsEnd(t: Tree, names: set<string>, n: string)
    requires Records(t, names) && n in names
    ensures Segments(n) in Collected(t, []) && Join(Segments(n)) == n
  {
    assert Agree(t, names, n);
    WellFormedNotEmpty(n);
    assert PartOf(Segments(n), n);
    PartVisible(Segments(n), n);
    JudgePart(Segments(n), n);
    WholeNameIsLeaf(t, names, n);
  }

  lemma OwnedNotStuck(t: Tree, q: Path)
    requires Owned(q)
    ensures !Stuck(t, [], q) && Below([], q)
  {
    var n :| Recordable(n) && PartOf(q, n);
    PartVisible(q, n);
    JudgePart(q, n);
  }

  /** Nothing of a recorded tree stays behind, and all of it is copied. */
  lemma ReadMovesAll(t: Tree, names: set<string>)
    requires Records(t, names)
    ensures Remaining(t, []) == {}
    ensures Copied(t, []) == t
  {
    forall q | q in t ensures !Stuck(t, [], q) && Below([], q) {
      OwnedNotStuck(t, q);
    }
  }

  /**
   Reading a tree back collects exactly the recorded names, each from one directory.
   */
  lemma ReadBack(t: Tree, names: set<string>)
    requires Records(t, names)
    ensures NamesOf(Collected(t, [])) == names
    ensures forall p :: p in Collected(t, []) ==> p == Segments(Join(p))
  {
    forall p | p in Collected(t, []) ensures Join(p) in names && p == Segments(Join(p)) {
      EndIsWholeName(t, names, p);
    }
    forall n | n in names ensures n in NamesOf(Collected(t, [])) {
      RecordedNameIsEnd(t, names, n);
    }
  }

  // ---- names that are lost ------------------------------------------------

  lemma AcceptedIsOwner(p: Path, n: string)
    requires Owned(p) && Judge(Join(p)) == Accepted && Join(p) == n
    ensures Recordable(n)
  {
    var m :| Recordable(m) && PartOf(p, m);
    JudgePart(p, m);
  }

  lemma LevelThatSpellsAll(n: string, p: Path)
    requires p in Levels(Segments(n), |Segments(n)|) && Join(p) == n
    ensures p == Segments(n)
  {
    var segs := Segments(n);
    var i :| 1 <= i <= |segs| && p == segs[..i];
    if i < |segs| { JoinPartial(n, i); }
  }

  lemma FoundIsRecordable(t: Tree, names: set<string>, n: string, p: Path)
    requires Records(t, names) && WellFormed(n)
    requires p in t || p in Levels(Segments(n), |Segments(n)|)
    requires Below([], p) && Judge(Join(p)) == Accepted && Join(p) == n
    ensures Recordable(n)
  {
    if p in t {
      AcceptedIsOwner(p, n);
    } else {
      LevelThatSpellsAll(n, p);
    }
  }

  /**
   A segment that starts with a dot is the exact reason a well-formed name is lost: such a
   name, though added in full, is not found, and every other name is.
   */
  lemma FoundIffNoHiddenSegment(t: Tree, names: set<string>, n: string)
    requires Records(t, names) && WellFormed(n)
    ensures n in NamesOf(Collected(t + Levels(Segments(n), |Segments(n)|), [])) <==> Recordable(n)
  {
    var segs := Segments(n);
    var t' := t + Levels(segs, |segs|);
    if Recordable(n) {
      AddKeepsRecords(t, names, n, |segs|);
      ReadBack(t', names + {n});
    }
    forall p | p in Collected(t', []) && Join(p) == n ensures Recordable(n) {
      FoundIsRecordable(t, names, n, p);
    }
  }

  /** A name the server can build and would lose: its second segment starts with a dot. */
  lemma HiddenSegmentExample()
    ensures exists n :: WellFormed(n) && n !in NamesOf(Collected(Levels(Segments(n), |Segments(n)|), []))
  {
    var ip := "Unknown";
    var clid := seq(300, i => '.');
    var n := ClidName(ip, clid);
    assert Decimal(300) == Decimal(30) + "0" == "300";
    assert n == ip + "-(" + "300" + ":" + clid + ")";
    assert IsNameOf(n, ip, clid);
    var rest := n[NAME_MAX..];
    assert Segments(n) == [n[..NAME_MAX]] + Segments(rest);
    assert Segments(rest) == [rest] && rest[0] == '.';
    assert Segments(n)[1] == rest;
    assert WellFormed(n) && !Recordable(n);
    RecordsNothing();
    FoundIffNoHiddenSegment({}, {}, n);
    assert {} + Levels(Segments(n), |Segments(n)|) == Levels(Segments(n), |Segments(n)|);
  }
}
