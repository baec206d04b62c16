/**
 The routines that keep the recovery directory: nfs4_add_clid, nfs4_rm_clid and
 nfs4_read_recov_clids, working on a directory tree in place.
 */
module RecoveryDir {
  import opened Collections
  import opened RecoveryHistory
  import opened RecoveryMoves
  import opened RecoveryNames
  import opened RecoveryTree

  datatype Errno = Success | Exists | NoEntry | NotEmpty

  /** The directories below one root. */
  class DirTree {
    var dirs: Tree

    ghost predicate Valid()
      reads this
    {
      ParentClosed(dirs)
    }

    method Mkdir(p: Path) returns (e: Errno)
      requires Valid() && p != []
      modifies this
      ensures Valid()
      ensures (|p| == 1 || p[..|p| - 1] in old(dirs)) ==> dirs == old(dirs) + {p} && (e == Success || e == Exists)
      ensures !(|p| == 1 || p[..|p| - 1] in old(dirs)) ==> dirs == old(dirs) && e == NoEntry
    {
      if p in dirs {
        e := Exists;
      } else if |p| > 1 && p[..|p| - 1] !in dirs {
        e := NoEntry;
      } else {
        dirs := dirs + {p};
        e := Success;
      }
    }

    method Rmdir(p: Path) returns (e: Errno)
      requires Valid()
      modifies this
      ensures Valid()
      ensures dirs == AfterRmdir(old(dirs), p)
      ensures e == Success <==> p in old(dirs) && p !in dirs
    {
      if HasChild(dirs, p) {
        return NotEmpty;
      } else if p !in dirs {
        return NoEntry;
      }
      RmdirParentClosed(dirs, p);
      dirs := dirs - {p};
      e := Success;
    }
  }

  /** Where the segment that starts at `position` ends. */
  function SegmentEnd(name: string, position: nat): nat
    requires position <= |name|
  {
    if |name| - position <= NAME_MAX then |name| else position + NAME_MAX
  }

  /** Cutting the next segment off the rest of a name goes one level down its hierarchy. */
  lemma NextSegment(name: string, position: nat, k: nat)
    requires position < |name| && k <= |Segments(name)|
    requires Segments(name[position..]) == Segments(name)[k..]
    ensures k < |Segments(name)|
    ensures var end := SegmentEnd(name, position);
      && Segments(name)[..k] + [name[position..end]] == Segments(name)[..k + 1]
      && Segments(name[end..]) == Segments(name)[k + 1..]
  {
    var end := SegmentEnd(name, position);
    var rest := name[position..];
    assert name[position..end] == rest[..end - position];
    assert name[end..] == rest[end - position..];
    assert end == |name| ==> rest[..end - position] == rest;
    assert Segments(rest) == [name[position..end]] + Segments(name[end..]);
    assert Segments(name)[k..][0] == Segments(name)[k];
    assert Segments(name)[k..][1..] == Segments(name)[k + 1..];
  }

  lemma LevelsStep(segs: Path, k: nat)
    requires k < |segs|
    ensures Levels(segs, k + 1) == Levels(segs, k) + {segs[..k + 1]}
    ensures segs[..k + 1][..k] == segs[..k]
    ensures k > 0 ==> segs[..k] in Levels(segs, k)
  {
  }

  /**
   nfs4_add_clid, interrupted by a crash once `crashAfter` directories have been made.
   */
  method AddClid(d: DirTree, name: string, crashAfter: nat)
    requires d.Valid()
    modifies d
    ensures d.Valid()
    ensures var segs := Segments(name);
      d.dirs == old(d.dirs) + Levels(segs, if crashAfter < |segs| then crashAfter else |segs|)
  {
    ghost var segs := Segments(name);
    var path: Path := [];
    var position := 0;
    var made := 0;
    assert name[0..] == name;
    while position < |name| && made < crashAfter
      invariant position <= |name| && made <= |segs| && made <= crashAfter
      invariant path == segs[..made] && Segments(name[position..]) == segs[made..]
      invariant d.Valid()
      invariant d.dirs == old(d.dirs) + Levels(segs, made)
      decreases |name| - position
    {
      NextSegment(name, position, made);
      LevelsStep(segs, made);
      var end := SegmentEnd(name, position);
      path := path + [name[position..end]];
      var err := d.Mkdir(path);
      made := made + 1;
      if end == |name| {
        break;
      }
      if err != Success && err != Exists {
        break;
      }
      position := end;
    }
  }

  /** What is left of a budget of rmdir calls after going back up to level `k`. */
  function Left(budget: nat, levels: nat, k: nat): nat
    requires k <= levels
  {
    if budget < levels - k then 0 else budget - (levels - k)
  }

  /** The level that a budget of rmdir calls reaches on the way up to level `k`. */
  function Reached(budget: nat, levels: nat, k: nat): (r: nat)
    requires k <= levels
    ensures r <= levels
  {
    if budget < levels - k then levels - budget else k
  }

  lemma OneLevelUp(t: Tree, segs: Path, budget: nat, k: nat)
    requires k < |segs|
    ensures var u := AfterRemoving(t, segs, Reached(budget, |segs|, k + 1)); var left := Left(budget, |segs|, k + 1);
      && Left(budget, |segs|, k) == (if left > 0 then left - 1 else 0)
      && AfterRemoving(t, segs, Reached(budget, |segs|, k)) == if left > 0 then AfterRmdir(u, segs[..k + 1]) else u
  {
  }

  /**
   nfs4_rm_clid, interrupted by a crash once `budget` directories have been tried; the
   deepest directory goes first.  `left` is the part of the budget not used.
   */
  method RmClid(d: DirTree, name: string, parent: Path, position: nat, budget: nat) returns (left: nat)
    requires d.Valid()
    requires position <= |name| && |parent| <= |Segments(name)|
    requires parent == Segments(name)[..|parent|] && Segments(name[position..]) == Segments(name)[|parent|..]
    modifies d
    ensures d.Valid()
    ensures left == Left(budget, |Segments(name)|, |parent|)
    ensures d.dirs == AfterRemoving(old(d.dirs), Segments(name), Reached(budget, |Segments(name)|, |parent|))
    decreases |name| - position
  {
    if position == |name| {
      return budget;
    }
    NextSegment(name, position, |parent|);
    OneLevelUp(d.dirs, Segments(name), budget, |parent|);
    var end := SegmentEnd(name, position);
    var path := parent + [name[position..end]];
    left := RmClid(d, name, path, end, budget);
    if left > 0 {
      var err := d.Rmdir(path);
      left := left - 1;
    }
  }

  // ---- reading ------------------------------------------------------------

  ghost function Entries(list: seq<string>): set<string> {
    set n | n in list
  }

  /** The list has grown by the names of `ends`, one entry for each directory. */
  ghost predicate Grown(list: seq<string>, newList: seq<string>, ends: Tree) {
    |newList| == |list| + |ends| && Entries(newList) == Entries(list) + NamesOf(ends)
  }

  lemma GrownTwice(a: seq<string>, b: seq<string>, c: seq<string>, x: Tree, y: Tree, z: Tree)
    requires Grown(a, b, x) && Grown(b, c, y) && x !! y && z == x + y
    ensures Grown(a, c, z)
  {
    assert NamesOf(x + y) == NamesOf(x) + NamesOf(y);
  }

  lemma EntriesPrepend(a: seq<string>, n: string)
    ensures Entries([n] + a) == Entries(a) + {n}
  {
  }

  lemma GrownByOne(a: seq<string>, p: Path)
    ensures Grown(a, [Join(p)] + a, {p})
  {
    EntriesPrepend(a, Join(p));
    assert NamesOf({p}) == {Join(p)};
  }

  /** The part of a set of paths that lies in the subtrees of the given children. */
  ghost predicate Under(children: set<Path>, depth: nat, p: Path) {
    |p| >= depth && p[..depth] in children
  }

  ghost predicate SameSubtree(t: Tree, u: Tree, c: Path) {
    forall p :: c <= p ==> (p in t <==> p in u)
  }

  /** Everything said about the subtree of a directory depends on that subtree alone. */
  lemma SubtreeLocal(t: Tree, u: Tree, c: Path)
    requires SameSubtree(t, u, c)
    ensures forall q :: c <= q ==> VisibleChildren(t, q) == VisibleChildren(u, q)
    ensures Collected(t, c) == Collected(u, c)
    ensures Copied(t, c) == Copied(u, c)
    ensures forall p :: c <= p ==> (Held(t, c, p) <==> Held(u, c, p))
  {
    forall q | c <= q ensures VisibleChildren(t, q) == VisibleChildren(u, q) {
      forall r | q < r ensures r in t <==> r in u { assert c <= r; }
    }
    forall p | c <= p ensures Held(t, c, p) <==> Held(u, c, p) {
      if Held(t, c, p) {
        var q :| q in t && p <= q && Stuck(t, c, q);
        assert q in u && Stuck(u, c, q);
      }
      if Held(u, c, p) {
        var q :| q in u && p <= q && Stuck(u, c, q);
        assert q in t && Stuck(t, c, q);
      }
    }
  }

  ghost predicate VisibleChild(parent: Path, c: Path) {
    |c| == |parent| + 1 && parent < c && !Hidden(c[|parent|])
  }

  lemma ThroughChild(parent: Path, c: Path, q: Path)
    requires VisibleChild(parent, c) && c <= q
    ensures parent < q
    ensures VisibleFrom(q, |parent|) <==> VisibleFrom(q, |c|)
  {
    assert q[|parent|] == c[|parent|];
    assert q[..|parent|] == c[..|parent|] == parent;
  }

  /** Below a visible child, being held does not depend on where the reading started. */
  lemma HeldThroughChild(t: Tree, parent: Path, c: Path, p: Path)
    requires VisibleChild(parent, c) && c < p
    ensures Held(t, parent, p) <==> Held(t, c, p)
  {
    forall q | p <= q ensures Stuck(t, parent, q) <==> Stuck(t, c, q) {
      ThroughChild(parent, c, q);
    }
  }

  /** A child is held by itself or by something below it. */
  lemma HeldChild(t: Tree, parent: Path, c: Path)
    requires VisibleChild(parent, c) && c in t
    ensures Held(t, parent, c) <==> Stuck(t, parent, c) || exists p :: p in t && c < p && Held(t, c, p)
  {
    if Held(t, parent, c) && !Stuck(t, parent, c) {
      var q :| q in t && c <= q && Stuck(t, parent, q);
      assert |q| == |c| ==> q == c;
      HeldThroughChild(t, parent, c, q);
    }
    if p :| p in t && c < p && Held(t, c, p) {
      HeldThroughChild(t, parent, c, p);
      var q :| q in t && p <= q && Stuck(t, parent, q);
      assert c <= q;
    }
  }

  lemma StuckChild(t: Tree, parent: Path, c: Path)
    requires VisibleChild(parent, c)
    ensures Stuck(t, parent, c) <==> VisibleChildren(t, c) == {} && Judge(Join(c)) == Malformed
  {
  }

  lemma CollectedThroughChild(t: Tree, parent: Path, c: Path, p: Path)
    requires VisibleChild(parent, c) && c <= p
    ensures p in Collected(t, parent) <==>
            p in Collected(t, c) || (p == c && c in t && VisibleChildren(t, c) == {} && Judge(Join(c)) == Accepted)
    ensures p in Copied(t, parent) <==> p in Copied(t, c) || (p == c && c in t)
  {
    ThroughChild(parent, c, p);
    assert |p| == |c| ==> p == c;
  }

  lemma RemainingParentClosed(t: Tree, parent: Path)
    requires ParentClosed(t)
    ensures ParentClosed(Remaining(t, parent))
  {
    var r := Remaining(t, parent);
    forall p | p in r && |p| > 1 ensures p[..|p| - 1] in r {
      var up := p[..|p| - 1];
      if parent < up {
        var q :| q in t && p <= q && Stuck(t, parent, q);
        assert up <= q;
      }
    }
  }

  /** What is left once the subtrees of `done` have been read. */
  ghost function Pruned(t: Tree, parent: Path, done: set<Path>): Tree {
    set p | p in t && (Under(done, |parent| + 1, p) ==> Held(t, parent, p))
  }

  lemma PrunedSame(t: Tree, parent: Path, done: set<Path>, c: Path)
    requires VisibleChild(parent, c) && c !in done
    ensures SameSubtree(t, Pruned(t, parent, done), c)
  {
    forall p | c <= p ensures p in t <==> p in Pruned(t, parent, done) {
      assert p[..|parent| + 1] == c;
    }
  }

  lemma PrunedParentClosed(t: Tree, parent: Path, done: set<Path>)
    requires ParentClosed(t)
    ensures ParentClosed(Pruned(t, parent, done))
  {
    var r := Pruned(t, parent, done);
    forall p | p in r && |p| > 1 ensures p[..|p| - 1] in r {
      var up := p[..|p| - 1];
      if Under(done, |parent| + 1, up) {
        assert up[..|parent| + 1] == p[..|parent| + 1];
        var q :| q in t && p <= q && Stuck(t, parent, q);
        assert up <= q;
      }
    }
  }

  /** Reading the subtree of `c` leaves the rest as it was. */
  lemma PruneChildBelow(t: Tree, parent: Path, done: set<Path>, c: Path, p: Path)
    requires c in t && VisibleChild(parent, c) && c !in done
    ensures p != c ==>
      (p in Remaining(Pruned(t, parent, done), c) <==> p in Pruned(t, parent, done + {c}))
  {
    var cur := Pruned(t, parent, done);
    PrunedSame(t, parent, done, c);
    SubtreeLocal(t, cur, c);
    if c < p {
      HeldThroughChild(t, parent, c, p);
      assert p[..|parent| + 1] == c;
    } else {
      assert |p| == |c| && p[..|c|] == c ==> p == c;
    }
  }

  /** What reading the subtree of `c` leaves below it. */
  lemma ReadLeaves(t: Tree, parent: Path, done: set<Path>, c: Path, p: Path)
    requires VisibleChild(parent, c) && c !in done && c < p
    ensures p in Remaining(Pruned(t, parent, done), c) <==> p in t && Held(t, c, p)
  {
    var cur := Pruned(t, parent, done);
    PrunedSame(t, parent, done, c);
    SubtreeLocal(t, cur, c);
  }

  lemma ReadKeepsTree(t: Tree, parent: Path, done: set<Path>, c: Path)
    requires ParentClosed(t) && c in t && VisibleChild(parent, c) && c !in done
    ensures var u := Remaining(Pruned(t, parent, done), c); ParentClosed(u) && c in u
  {
    PrunedSame(t, parent, done, c);
    PrunedParentClosed(t, parent, done);
    RemainingParentClosed(Pruned(t, parent, done), c);
  }

  /** Whether the directory `c` itself can go once its subtree has been read. */
  lemma PruneChildItself(t: Tree, parent: Path, done: set<Path>, c: Path, u: Tree)
    requires ParentClosed(t) && c in t && VisibleChild(parent, c) && c !in done
    requires u == Remaining(Pruned(t, parent, done), c)
    ensures ParentClosed(u) && c in u
    ensures Held(t, parent, c) <==> Stuck(t, parent, c) || HasChild(u, c)
  {
    ReadKeepsTree(t, parent, done, c);
    HeldChild(t, parent, c);
    if HasChild(u, c) {
      var q :| q in u && c < q && |q| == |c| + 1;
      ReadLeaves(t, parent, done, c, q);
    }
    if p :| p in t && c < p && Held(t, c, p) {
      ReadLeaves(t, parent, done, c, p);
      AncestorsPresent(u, p, |c| + 1);
      assert c < p[..|c| + 1];
    }
  }

  /** Reading the subtree of `c` and then, unless its name is malformed, removing `c`. */
  lemma PruneChild(t: Tree, parent: Path, done: set<Path>, c: Path, u: Tree)
    requires ParentClosed(t) && c in t && VisibleChild(parent, c) && c !in done
    requires u == Remaining(Pruned(t, parent, done), c)
    ensures ParentClosed(u)
    ensures Stuck(t, parent, c) ==> u == Pruned(t, parent, done + {c})
    ensures !Stuck(t, parent, c) ==> AfterRmdir(u, c) == Pruned(t, parent, done + {c})
  {
    var after := Pruned(t, parent, done + {c});
    PruneChildItself(t, parent, done, c, u);
    forall p ensures p != c ==> (p in u <==> p in after) {
      PruneChildBelow(t, parent, done, c, p);
    }
    assert c[..|parent| + 1] == c;
    assert c in after <==> Held(t, parent, c);
  }

  /** What has been collected and copied once the subtrees of `done` have been read. */
  ghost function CollectedIn(t: Tree, parent: Path, done: set<Path>): Tree {
    set p | p in Collected(t, parent) && Under(done, |parent| + 1, p)
  }

  ghost function CopiedIn(t: Tree, parent: Path, done: set<Path>): Tree {
    set p | p in Copied(t, parent) && Under(done, |parent| + 1, p)
  }

  /** The child itself, when its own name is the one collected. */
  ghost function OwnEnd(t: Tree, c: Path): Tree {
    if VisibleChildren(t, c) == {} && Judge(Join(c)) == Accepted then {c} else {}
  }

  lemma UnderOneMore(done: set<Path>, c: Path, p: Path)
    ensures Under(done + {c}, |c|, p) <==> Under(done, |c|, p) || c <= p
  {
    if c <= p { assert p[..|c|] == c; }
  }

  lemma CollectChildEnds(t: Tree, parent: Path, done: set<Path>, c: Path)
    requires VisibleChild(parent, c) && c in t
    ensures CollectedIn(t, parent, done + {c}) == CollectedIn(t, parent, done) + (Collected(t, c) + OwnEnd(t, c))
  {
    forall p
      ensures p in CollectedIn(t, parent, done + {c}) <==>
              p in CollectedIn(t, parent, done) || p in Collected(t, c) || p in OwnEnd(t, c)
    {
      UnderOneMore(done, c, p);
      if c <= p { CollectedThroughChild(t, parent, c, p); }
    }
  }

  lemma CollectChildCopies(t: Tree, parent: Path, done: set<Path>, c: Path)
    requires VisibleChild(parent, c) && c in t
    ensures CopiedIn(t, parent, done + {c}) == CopiedIn(t, parent, done) + ({c} + Copied(t, c))
  {
    forall p
      ensures p in CopiedIn(t, parent, done + {c}) <==>
              p in CopiedIn(t, parent, done) || p == c || p in Copied(t, c)
    {
      UnderOneMore(done, c, p);
      if c <= p { CollectedThroughChild(t, parent, c, p); }
    }
  }

  /** Reading every child is reading the whole directory. */
  lemma AllChildrenRead(t: Tree, parent: Path, done: set<Path>)
    requires ParentClosed(t) && done == VisibleChildren(t, parent)
    ensures Pruned(t, parent, done) == Remaining(t, parent)
    ensures CollectedIn(t, parent, done) == Collected(t, parent)
    ensures CopiedIn(t, parent, done) == Copied(t, parent)
  {
    forall p | p in t && parent < p
      ensures Under(done, |parent| + 1, p) || (!Below(parent, p) && Held(t, parent, p))
    {
      var c := p[..|parent| + 1];
      AncestorsPresent(t, p, |parent| + 1);
      assert parent < c;
      if c !in done {
        assert Hidden(c[|parent|]) && p[|parent|] == c[|parent|];
        assert Stuck(t, parent, p);
      }
    }
    forall p | p in t && Under(done, |parent| + 1, p) ensures parent < p {
      var c := p[..|parent| + 1];
      assert c in done && c <= p;
      ThroughChild(parent, c, p);
    }
  }

  lemma NoChildRead(t: Tree, parent: Path, list: seq<string>)
    ensures Pruned(t, parent, {}) == t && CopiedIn(t, parent, {}) == {}
    ensures Grown(list, list, CollectedIn(t, parent, {}))
  {
    assert CollectedIn(t, parent, {}) == {};
  }

  ghost function Subtree(t: Tree, c: Path): Tree {
    set p | p in t && c <= p
  }

  ghost function Descendants(t: Tree, c: Path): Tree {
    set p | p in t && c < p
  }

  /** The subtree of a child is no larger a job, and its descendants are a smaller one. */
  lemma ChildIsSmaller(t: Tree, u: Tree, parent: Path, c: Path)
    requires VisibleChild(parent, c) && u <= t
    ensures |Subtree(u, c)| <= |Descendants(t, parent)|
  {
    forall p | p in u && c <= p ensures p in t && parent < p {
      ThroughChild(parent, c, p);
    }
    SubsetSize(Subtree(u, c), Descendants(t, parent));
  }

  lemma FewerBelow(t: Tree, c: Path)
    requires c in t
    ensures |Descendants(t, c)| < |Subtree(t, c)|
  {
    assert c in Subtree(t, c) && c !in Descendants(t, c);
    SubsetSize(Descendants(t, c) + {c}, Subtree(t, c));
  }

  /** The name of the child itself is added after those below it. */
  lemma OwnEndGrown(t: Tree, c: Path, list: seq<string>, mid: seq<string>)
    requires Grown(list, mid, Collected(t, c))
    ensures Grown(list, if OwnEnd(t, c) == {} then mid else [Join(c)] + mid, Collected(t, c) + OwnEnd(t, c))
  {
    var below := Collected(t, c);
    assert c !in below;
    GrownOptional(list, mid, below, c);
  }

  lemma GrownOptional(list: seq<string>, mid: seq<string>, below: Tree, c: Path)
    requires Grown(list, mid, below) && c !in below
    ensures Grown(list, mid, below + {}) && Grown(list, [Join(c)] + mid, below + {c})
  {
    assert below + {} == below;
    GrownByOne(mid, c);
    GrownTwice(list, mid, [Join(c)] + mid, below, {c}, below + {c});
  }

  lemma OneMoreDone(kids: Tree, todo: Tree, done: Tree, c: Path)
    requires c in todo && todo <= kids && done == kids - todo
    ensures c !in done && c in kids && done + {c} == kids - (todo - {c})
  {
  }

  lemma UnionAssoc(a: Tree, b: Tree, c: Tree)
    ensures (a + b) + c == a + (b + c)
  {
  }

  /** What reading one child leaves of the tree: the child goes too, unless it is malformed or not empty. */
  ghost function AfterChild(t: Tree, c: Path): Tree {
    var u := Remaining(t, c);
    if VisibleChildren(t, c) == {} && Judge(Join(c)) == Malformed then u else AfterRmdir(u, c)
  }

  lemma BuiltName(parent: Path, path: Path)
    requires VisibleChild(parent, path)
    ensures Join(path) == Join(parent) + path[|parent|] && path[..|path| - 1] == parent
  {
    assert path == parent + [path[|parent|]];
    JoinSnoc(parent, path[|parent|]);
  }

  /** The two trees of a reading; without a target nothing is copied. */
  function Both(src: DirTree, tgt: DirTree?): Trees
    reads src, tgt
  {
    Trees(src.dirs, if tgt == null then {} else tgt.dirs)
  }

  /** One turn of the reading loop: the directory `path` in `parent`. */
  method ReadChild(src: DirTree, parent: Path, path: Path, clid: string, tgt: DirTree?, takeover: bool,
                   list: seq<string>)
    returns (newList: seq<string>, ghost ms: seq<Move>)
    requires src.Valid() && path in src.dirs && VisibleChild(parent, path) && clid == Join(parent)
    requires tgt != null ==> tgt != src && tgt.Valid() && (parent == [] || parent in tgt.dirs)
    modifies src, tgt
    ensures src.Valid() && (tgt != null ==> tgt.Valid())
    ensures src.dirs == if takeover then old(src.dirs) else AfterChild(old(src.dirs), path)
    ensures tgt != null ==> tgt.dirs == old(tgt.dirs) + ({path} + Copied(old(src.dirs), path))
    ensures Grown(list, newList, Collected(old(src.dirs), path) + OwnEnd(old(src.dirs), path))
    ensures Traced(old(Both(src, tgt)), tgt != null, ms, Both(src, tgt))
    decreases |Subtree(src.dirs, path)|, 1
  {
    var build := clid + path[|parent|];
    BuiltName(parent, path);
    var rc;
    rc, newList, ms := ReadBelow(src, path, build, tgt, takeover, list);
    ghost var read := Both(src, tgt);
    OwnEndGrown(old(src.dirs), path, list, newList);
    assert rc == 0 <==> VisibleChildren(old(src.dirs), path) == {};
    var dropped;
    newList, dropped := SettleChild(src, path, build, rc == 0, takeover, newList);
    if dropped {
      DropTraced(old(Both(src, tgt)), tgt != null, ms, read, path);
      ms := ms + [Drop(path)];
    }
  }

  /** The first part of a turn: the directory is copied, if there is a target, and then read. */
  method ReadBelow(src: DirTree, path: Path, build: string, tgt: DirTree?, takeover: bool, list: seq<string>)
    returns (rc: nat, newList: seq<string>, ghost ms: seq<Move>)
    requires src.Valid() && path in src.dirs && build == Join(path)
    requires tgt != null ==> tgt != src && tgt.Valid() && (|path| == 1 || path[..|path| - 1] in tgt.dirs)
    modifies src, tgt
    ensures src.Valid() && (tgt != null ==> tgt.Valid())
    ensures src.dirs == if takeover then old(src.dirs) else Remaining(old(src.dirs), path)
    ensures tgt != null ==> tgt.dirs == old(tgt.dirs) + ({path} + Copied(old(src.dirs), path))
    ensures rc == |VisibleChildren(old(src.dirs), path)|
    ensures Grown(list, newList, Collected(old(src.dirs), path))
    ensures Traced(old(Both(src, tgt)), tgt != null, ms, Both(src, tgt))
    decreases |Subtree(src.dirs, path)|, 0
  {
    if tgt != null {
      var err := tgt.Mkdir(path);
    }
    ghost var made, inner := Both(src, tgt), [];
    FewerBelow(src.dirs, path);
    rc, newList, inner := ReadRecovClids(src, path, build, tgt, takeover, list);
    CopyTraced(old(Both(src, tgt)), tgt != null, path, made, inner, Both(src, tgt));
    ms := (if tgt != null then [Copy(path)] else []) + inner;
    if tgt != null { UnionAssoc(old(tgt.dirs), {path}, Copied(old(src.dirs), path)); }
  }

  /** The end of a turn: a directory without children has a name to judge, and then the directory goes. */
  method SettleChild(src: DirTree, path: Path, build: string, leaf: bool, takeover: bool, list: seq<string>)
    returns (newList: seq<string>, dropped: bool)
    requires src.Valid()
    modifies src
    ensures src.Valid()
    ensures dropped == (!takeover && !(leaf && Judge(build) == Malformed))
    ensures src.dirs == if dropped then AfterRmdir(old(src.dirs), path) else old(src.dirs)
    ensures newList == if leaf && Judge(build) == Accepted then [build] + list else list
  {
    newList, dropped := list, false;
    if leaf {
      var verdict := Judge(build);
      if verdict == Malformed {
        return;
      }
      if verdict == Accepted {
        newList := [build] + newList;
      }
    }
    if !takeover {
      var err := src.Rmdir(path);
      dropped := true;
    }
  }

  /**
   nfs4_read_recov_clids: rebuild the names below `parent` into `list`, copying the
   directories to `tgt` if there is one, and removing them unless this is a takeover.  The
   mkdir and rmdir calls are `ms`; while copying, a directory goes only after its copy is made.
   */
  method ReadRecovClids(src: DirTree, parent: Path, clid: string, tgt: DirTree?, takeover: bool, list: seq<string>)
    returns (num: nat, newList: seq<string>, ghost ms: seq<Move>)
    requires src.Valid() && clid == Join(parent)
    requires tgt != null ==> tgt != src && tgt.Valid() && (parent == [] || parent in tgt.dirs)
    modifies src, tgt
    ensures src.Valid() && (tgt != null ==> tgt.Valid())
    ensures src.dirs == if takeover then old(src.dirs) else Remaining(old(src.dirs), parent)
    ensures tgt != null ==> tgt.dirs == old(tgt.dirs) + Copied(old(src.dirs), parent)
    ensures num == |VisibleChildren(old(src.dirs), parent)|
    ensures Grown(list, newList, Collected(old(src.dirs), parent))
    ensures Traced(old(Both(src, tgt)), tgt != null, ms, Both(src, tgt))
    decreases |Descendants(src.dirs, parent)|, 2
  {
    ghost var t := src.dirs;
    var todo := VisibleChildren(src.dirs, parent);
    ghost var kids, done := todo, {};
    num, newList, ms := 0, list, [];
    TraceNone(Both(src, tgt), tgt != null);
    NoChildRead(t, parent, list);
    while todo != {}
      invariant todo <= kids && done == kids - todo
      invariant src.Valid() && src.dirs == if takeover then t else Pruned(t, parent, done)
      invariant tgt != null ==> tgt.Valid() && tgt.dirs == old(tgt.dirs) + CopiedIn(t, parent, done)
      invariant num + |todo| == |kids|
      invariant Grown(list, newList, CollectedIn(t, parent, done))
      invariant Traced(old(Both(src, tgt)), tgt != null, ms, Both(src, tgt))
      decreases |todo|
    {
      var path :| path in todo;
      OneMoreDone(kids, todo, done, path);
      todo := todo - {path};
      num := num + 1;
      NextChildTree(t, src.dirs, parent, done, path, takeover);
      ghost var before, trees, turn := newList, Both(src, tgt), [];
      newList, turn := ReadChild(src, parent, path, clid, tgt, takeover, newList);
      TraceBoth(old(Both(src, tgt)), tgt != null, ms, trees, turn, Both(src, tgt));
      ms := ms + turn;
      NextChildList(t, parent, done, path, list, before, newList);
      CollectChildCopies(t, parent, done, path);
      if tgt != null { UnionAssoc(old(tgt.dirs), CopiedIn(t, parent, done), {path} + Copied(t, path)); }
      done := done + {path};
    }
    AllChildrenRead(t, parent, done);
  }

  /** One turn of the loop takes out of the tree what it should. */
  lemma NextChildLeft(t: Tree, parent: Path, done: set<Path>, c: Path)
    requires ParentClosed(t) && c in t && VisibleChild(parent, c) && c !in done
    ensures AfterChild(Pruned(t, parent, done), c) == Pruned(t, parent, done + {c})
  {
    var cur := Pruned(t, parent, done);
    PrunedSame(t, parent, done, c);
    SubtreeLocal(t, cur, c);
    StuckChild(t, parent, c);
    PruneChild(t, parent, done, c, Remaining(cur, c));
  }

  /** What one turn of the loop does to the tree. */
  lemma NextChildTree(t: Tree, cur: Tree, parent: Path, done: set<Path>, c: Path, takeover: bool)
    requires ParentClosed(t) && c in VisibleChildren(t, parent) && c !in done
    requires cur == if takeover then t else Pruned(t, parent, done)
    ensures c in cur && |Subtree(cur, c)| <= |Descendants(t, parent)|
    ensures Collected(cur, c) + OwnEnd(cur, c) == Collected(t, c) + OwnEnd(t, c) && Copied(cur, c) == Copied(t, c)
    ensures !takeover ==> AfterChild(cur, c) == Pruned(t, parent, done + {c})
  {
    PrunedSame(t, parent, done, c);
    SubtreeLocal(t, cur, c);
    ChildIsSmaller(t, cur, parent, c);
    NextChildLeft(t, parent, done, c);
  }

  lemma NotYetCollected(t: Tree, parent: Path, done: set<Path>, c: Path)
    requires VisibleChild(parent, c) && c !in done
    ensures CollectedIn(t, parent, done) !! Collected(t, c) + OwnEnd(t, c)
  {
    forall p | p in Collected(t, c) + OwnEnd(t, c) ensures p !in CollectedIn(t, parent, done) {
      assert c <= p && p[..|parent| + 1] == c;
    }
  }

  /** What one turn of the loop adds to the list. */
  lemma NextChildList(t: Tree, parent: Path, done: set<Path>, c: Path, a: seq<string>, b: seq<string>, d: seq<string>)
    requires c in VisibleChildren(t, parent) && c !in done
    requires Grown(a, b, CollectedIn(t, parent, done)) && Grown(b, d, Collected(t, c) + OwnEnd(t, c))
    ensures Grown(a, d, CollectedIn(t, parent, done + {c}))
  {
    NotYetCollected(t, parent, done, c);
    CollectChildEnds(t, parent, done, c);
    var ends := Collected(t, c) + OwnEnd(t, c);
    GrownTwice(a, b, d, CollectedIn(t, parent, done), ends, CollectedIn(t, parent, done + {c}));
  }

  lemma LoadedNames(d: Disk, first: seq<string>, both: seq<string>)
    requires Grown([], first, Collected(d.prior, [])) && Grown(first, both, Collected(d.recov, []))
    ensures Entries(both) == Reclaimable(d)
  {
  }

  /**
   nfs4_load_recov_clids at start-up: the list is emptied, the directory left by the
   previous run is read and cleared, then this one is read, cleared and moved there.  A crash
   after any of the calls is a restart cut short.
   */
  method LoadRecovClids(recov: DirTree, prior: DirTree)
    returns (list: seq<string>, ghost clears: seq<Move>, ghost cleared: Tree, ghost moves: seq<Move>)
    requires recov != prior && recov.Valid() && prior.Valid()
    modifies recov, prior
    ensures recov.Valid() && prior.Valid()
    ensures Disk(recov.dirs, prior.dirs) == AfterRestart(Disk(old(recov.dirs), old(prior.dirs)))
    ensures Entries(list) == Reclaimable(Disk(old(recov.dirs), old(prior.dirs)))
    ensures Traced(Trees(old(prior.dirs), {}), false, clears, Trees(cleared, {}))
    ensures Traced(Trees(old(recov.dirs), cleared), true, moves, Trees(recov.dirs, prior.dirs))
  {
    var num;
    num, list, clears := ReadRecovClids(prior, [], "", null, false, []);
    cleared := prior.dirs;
    ghost var first := list;
    num, list, moves := ReadRecovClids(recov, [], "", prior, false, list);
    LoadedNames(Disk(old(recov.dirs), old(prior.dirs)), first, list);
  }

  /** nfs4_load_recov_clids on a takeover: the other node's directory is only read and copied. */
  method TakeOver(other: DirTree, prior: DirTree, list: seq<string>) returns (newList: seq<string>)
    requires other != prior && other.Valid() && prior.Valid()
    modifies other, prior
    ensures other.Valid() && prior.Valid()
    ensures other.dirs == old(other.dirs)
    ensures prior.dirs == old(prior.dirs) + Copied(old(other.dirs), [])
    ensures Entries(newList) == Entries(list) + NamesOf(Collected(old(other.dirs), []))
  {
    var num;
    ghost var copies;
    num, newList, copies := ReadRecovClids(other, [], "", prior, true, list);
  }

  /**
   nfs4_chk_clid: during grace a client may reclaim if its name is in the list.  The
   comparison looks at the first PATH_MAX characters only.
   */
  method MayReclaim(list: seq<string>, name: string, inGrace: bool) returns (allowed: bool)
    ensures allowed <==> inGrace && exists i :: 0 <= i < |list| && SameUpTo(list[i], name, PATH_MAX)
    ensures (|name| < PATH_MAX && forall i :: 0 <= i < |list| ==> |list[i]| < PATH_MAX)
            ==> (allowed <==> inGrace && name in list)
  {
    allowed := false;
    if !inGrace {
      return;
    }
    for i := 0 to |list|
      invariant !allowed && forall j :: 0 <= j < i ==> !SameUpTo(list[j], name, PATH_MAX)
    {
      if SameUpTo(list[i], name, PATH_MAX) {
        allowed := true;
        return;
      }
    }
    if name in list {
      var i :| 0 <= i < |list| && list[i] == name;
      assert SameUpTo(list[i], name, PATH_MAX);
    }
  }

  predicate SameUpTo(a: string, b: string, n: nat) {
    (if |a| <= n then a else a[..n]) == (if |b| <= n then b else b[..n])
  }
}
