/**
 A restart, one mkdir or rmdir call at a time: directories are copied from one tree to
 another and dropped from the first.  Stopping after any of the calls leaves trees that
 still record sets of names, and no name that is copied is lost.
 */
module RecoveryMoves {
  import opened RecoveryTree

  datatype Move = Copy(p: Path) | Drop(p: Path)
  datatype Trees = Trees(src: Tree, tgt: Tree)

  /** What the reader keeps to; while it copies, it drops only what it has copied. */
  ghost predicate CanMove(s: Trees, copying: bool, m: Move) {
    match m
    case Copy(p) => copying && p in s.src && p != [] && (|p| == 1 || p[..|p| - 1] in s.tgt)
    case Drop(p) => copying ==> p in s.tgt
  }

  function AfterMove(s: Trees, m: Move): Trees {
    match m
    case Copy(p) => s.(tgt := s.tgt + {p})
    case Drop(p) => s.(src := AfterRmdir(s.src, p))
  }

  function AfterMoves(s: Trees, ms: seq<Move>): Trees {
    if ms == [] then s else AfterMove(AfterMoves(s, ms[..|ms| - 1]), ms[|ms| - 1])
  }

  ghost predicate CanMoveAll(s: Trees, copying: bool, ms: seq<Move>) {
    ms == [] ||
    (CanMoveAll(s, copying, ms[..|ms| - 1]) && CanMove(AfterMoves(s, ms[..|ms| - 1]), copying, ms[|ms| - 1]))
  }

  /** A crash can come after any of the calls. */
  lemma {:induction false} CutAnywhere(s: Trees, copying: bool, ms: seq<Move>, i: nat)
    requires CanMoveAll(s, copying, ms) && i <= |ms|
    ensures CanMoveAll(s, copying, ms[..i])
    decreases |ms|
  {
    if i == |ms| {
      assert ms[..i] == ms;
    } else {
      CutAnywhere(s, copying, ms[..|ms| - 1], i);
      assert ms[..|ms| - 1][..i] == ms[..i];
    }
  }

  /** The trees before, between and after the calls. */
  ghost predicate Steps(states: seq<Trees>, copying: bool, ms: seq<Move>) {
    && |states| == |ms| + 1
    && (forall i :: 0 <= i < |ms| ==> CanMove(states[i], copying, ms[i]))
    && (forall i :: 0 <= i < |ms| ==> states[i + 1] == AfterMove(states[i], ms[i]))
  }

  /** The calls `ms` lead from `s` to `s'`. */
  ghost predicate Traced(s: Trees, copying: bool, ms: seq<Move>, s': Trees) {
    exists states :: Steps(states, copying, ms) && states[0] == s && states[|ms|] == s'
  }

  lemma {:induction false} StepsAreMoves(states: seq<Trees>, copying: bool, ms: seq<Move>)
    requires Steps(states, copying, ms)
    ensures CanMoveAll(states[0], copying, ms) && AfterMoves(states[0], ms) == states[|ms|]
    decreases |ms|
  {
    if ms != [] {
      var n := |ms| - 1;
      StepsAreMoves(states[..|ms|], copying, ms[..n]);
      assert states[n + 1] == AfterMove(states[n], ms[n]);
    }
  }

  lemma TracedMoves(s: Trees, copying: bool, ms: seq<Move>, s': Trees)
    requires Traced(s, copying, ms, s')
    ensures CanMoveAll(s, copying, ms) && AfterMoves(s, ms) == s'
  {
    var states :| Steps(states, copying, ms) && states[0] == s && states[|ms|] == s';
    StepsAreMoves(states, copying, ms);
  }

  lemma TraceNone(s: Trees, copying: bool)
    ensures Traced(s, copying, [], s)
  {
    assert Steps([s], copying, []);
  }

  lemma TraceOne(s: Trees, copying: bool, m: Move)
    requires CanMove(s, copying, m)
    ensures Traced(s, copying, [m], AfterMove(s, m))
  {
    assert Steps([s, AfterMove(s, m)], copying, [m]);
  }

  lemma TraceBoth(s: Trees, copying: bool, a: seq<Move>, s': Trees, b: seq<Move>, s'': Trees)
    requires Traced(s, copying, a, s') && Traced(s', copying, b, s'')
    ensures Traced(s, copying, a + b, s'')
  {
    var xs :| Steps(xs, copying, a) && xs[0] == s && xs[|a|] == s';
    var ys :| Steps(ys, copying, b) && ys[0] == s' && ys[|b|] == s'';
    var states, ms := xs[..|a|] + ys, a + b;
    forall i | 0 <= i < |ms|
      ensures CanMove(states[i], copying, ms[i]) && states[i + 1] == AfterMove(states[i], ms[i])
    {
      if i < |a| {
        assert states[i] == xs[i] && states[i + 1] == xs[i + 1] && ms[i] == a[i];
      } else {
        assert states[i] == ys[i - |a|] && states[i + 1] == ys[i - |a| + 1] && ms[i] == b[i - |a|];
      }
    }
    assert Steps(states, copying, ms);
  }

  /** One directory is copied, if there is a target, before what is below it is moved. */
  lemma CopyTraced(s: Trees, copying: bool, p: Path, s': Trees, inner: seq<Move>, s'': Trees)
    requires if copying then CanMove(s, true, Copy(p)) && s' == AfterMove(s, Copy(p)) else s' == s
    requires Traced(s', copying, inner, s'')
    ensures Traced(s, copying, (if copying then [Copy(p)] else []) + inner, s'')
  {
    if copying { TraceOne(s, true, Copy(p)); } else { TraceNone(s, copying); }
    TraceBoth(s, copying, if copying then [Copy(p)] else [], s', inner, s'');
  }

  /** Afterwards it may be dropped. */
  lemma DropTraced(s: Trees, copying: bool, ms: seq<Move>, s': Trees, p: Path)
    requires Traced(s, copying, ms, s') && (copying ==> p in s'.tgt)
    ensures Traced(s, copying, ms + [Drop(p)], AfterMove(s', Drop(p)))
  {
    TraceOne(s', copying, Drop(p));
    TraceBoth(s, copying, ms, s', [Drop(p)], AfterMove(s', Drop(p)));
  }

  // ---- what the moves do to the names -------------------------------------

  datatype Names = Names(src: set<string>, tgt: set<string>)

  function NamesAfter(k: Names, m: Move): Names {
    match m
    case Copy(p) => k.(tgt := k.tgt + EndingAt(k.src, p))
    case Drop(p) => k.(src := k.src - EndingAt(k.src, p))
  }

  function NamesAfterAll(k: Names, ms: seq<Move>): Names {
    if ms == [] then k else NamesAfter(NamesAfterAll(k, ms[..|ms| - 1]), ms[|ms| - 1])
  }

  ghost predicate Recorded(s: Trees, k: Names) {
    Records(s.src, k.src) && Records(s.tgt, k.tgt)
  }

  lemma MkdirAgrees(t: Tree, names: set<string>, src: Tree, srcNames: set<string>, p: Path, m: string)
    requires Records(t, names) && Records(src, srcNames) && p in src
    ensures Agree(t + {p}, names + EndingAt(srcNames, p), m)
  {
    assert Agree(t, names, m) && Agree(src, srcNames, m);
  }

  lemma MkdirKeepsRecords(t: Tree, names: set<string>, src: Tree, srcNames: set<string>, p: Path)
    requires Records(t, names) && Records(src, srcNames) && p in src && p != [] && (|p| == 1 || p[..|p| - 1] in t)
    ensures Records(t + {p}, names + EndingAt(srcNames, p))
  {
    var t', names' := t + {p}, names + EndingAt(srcNames, p);
    assert Shaped(t');
    forall m ensures Agree(t', names', m) { MkdirAgrees(t, names, src, srcNames, p, m); }
  }

  lemma MoveRecorded(s: Trees, k: Names, copying: bool, m: Move)
    requires Recorded(s, k) && CanMove(s, copying, m)
    ensures Recorded(AfterMove(s, m), NamesAfter(k, m))
  {
    match m
    case Copy(p) => MkdirKeepsRecords(s.tgt, k.tgt, s.src, k.src, p);
    case Drop(p) => RmdirKeepsRecords(s.src, k.src, p);
  }

  lemma {:induction false} MovesRecorded(s: Trees, k: Names, copying: bool, ms: seq<Move>)
    requires Recorded(s, k) && CanMoveAll(s, copying, ms)
    ensures Recorded(AfterMoves(s, ms), NamesAfterAll(k, ms))
    decreases |ms|
  {
    if ms != [] {
      var before, m := ms[..|ms| - 1], ms[|ms| - 1];
      MovesRecorded(s, k, copying, before);
      MoveRecorded(AfterMoves(s, before), NamesAfterAll(k, before), copying, m);
    }
  }

  /** What is dropped while copying is in the other tree already. */
  lemma MoveConserves(s: Trees, k: Names, m: Move)
    requires Recorded(s, k) && CanMove(s, true, m)
    ensures NamesAfter(k, m).src + NamesAfter(k, m).tgt == k.src + k.tgt
  {
    if m.Drop? {
      forall n | n in EndingAt(k.src, m.p) ensures n in k.tgt { assert Agree(s.tgt, k.tgt, n); }
    }
  }

  /** Copying and dropping never loses a name, wherever it stops. */
  lemma {:induction false} MovesConserve(s: Trees, k: Names, ms: seq<Move>)
    requires Recorded(s, k) && CanMoveAll(s, true, ms)
    ensures NamesAfterAll(k, ms).src + NamesAfterAll(k, ms).tgt == k.src + k.tgt
    decreases |ms|
  {
    if ms != [] {
      var before, m := ms[..|ms| - 1], ms[|ms| - 1];
      MovesConserve(s, k, before);
      MovesRecorded(s, k, true, before);
      MoveConserves(AfterMoves(s, before), NamesAfterAll(k, before), m);
    }
  }

  /** The names whose last directory is not among those dropped. */
  function NotDropped(names: set<string>, ms: seq<Move>): set<string> {
    set n | n in names && Drop(Segments(n)) !in ms
  }

  /** Clearing a tree without copying loses exactly the names whose last directory is dropped. */
  lemma {:induction false} ClearLoses(s: Trees, k: Names, ms: seq<Move>)
    requires CanMoveAll(s, false, ms)
    ensures NamesAfterAll(k, ms) == Names(NotDropped(k.src, ms), k.tgt)
    decreases |ms|
  {
    if ms != [] {
      var before, m := ms[..|ms| - 1], ms[|ms| - 1];
      ClearLoses(s, k, before);
      assert ms == before + [m];
      assert forall n :: Drop(Segments(n)) in ms <==> Drop(Segments(n)) in before || Segments(n) == m.p;
    }
  }
}
