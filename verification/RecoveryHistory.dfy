/**
 Histories of the recovery directory.  Over every history of additions, removals and
 restarts, each of them cut short anywhere or not, the server finds exactly the names that
 it should.
 */
module RecoveryHistory {
  import opened RecoveryMoves
  import opened RecoveryTree

  /** The recovery directory of this run and the one left by the previous run. */
  datatype Disk = Disk(recov: Tree, prior: Tree)
  datatype Known = Known(recov: set<string>, prior: set<string>)

  /**
   Additions and removals say how many directories were made or removed before a crash.  A
   restart that is cut short says which calls it made: first it clears the directory of the
   previous run, then it moves this one there.
   */
  datatype Event =
    | Add(name: string, mkdirs: nat)
    | Remove(name: string, rmdirs: nat)
    | Restart
    | CutRestart(clears: seq<Move>, moves: seq<Move>)

  function Cleared(d: Disk, clears: seq<Move>): Tree {
    AfterMoves(Trees(d.prior, {}), clears).src
  }

  /** What a restart that is not cut short leaves. */
  function AfterRestart(d: Disk): Disk {
    Disk(Remaining(d.recov, []), Remaining(d.prior, []) + Copied(d.recov, []))
  }

  ghost predicate Possible(d: Disk, e: Event) {
    match e
    case Add(n, k) => Recordable(n) && k <= |Segments(n)|
    case Remove(n, k) => Recordable(n) && k <= |Segments(n)|
    case Restart => true
    case CutRestart(clears, moves) =>
      && CanMoveAll(Trees(d.prior, {}), false, clears)
      && CanMoveAll(Trees(d.recov, Cleared(d, clears)), true, moves)
  }

  ghost function Apply(d: Disk, e: Event): Disk
    requires Possible(d, e)
  {
    match e
    case Add(n, k) => d.(recov := d.recov + Levels(Segments(n), k))
    case Remove(n, k) => d.(recov := AfterRemoving(d.recov, Segments(n), |Segments(n)| - k))
    case Restart => AfterRestart(d)
    case CutRestart(clears, moves) =>
      var s := AfterMoves(Trees(d.recov, Cleared(d, clears)), moves);
      Disk(s.src, s.tgt)
  }

  /** The names a restart would find: what nfs4_load_recov_clids puts in the client list. */
  function Reclaimable(d: Disk): set<string> {
    NamesOf(Collected(d.prior, [])) + NamesOf(Collected(d.recov, []))
  }

  /** The same history on sets of names, with no directories at all. */
  ghost function Intended(k: Known, e: Event): Known {
    match e
    case Add(n, made) => k.(recov := Learned(k.recov, n, made))
    case Remove(n, gone) => k.(recov := Forgotten(k.recov, n, gone))
    case Restart => Known({}, k.recov)
    case CutRestart(clears, moves) =>
      var names := NamesAfterAll(Names(k.recov, NamesAfterAll(Names(k.prior, {}), clears).src), moves);
      Known(names.src, names.tgt)
  }

  ghost predicate CanRun(d: Disk, events: seq<Event>)
    decreases |events|
  {
    events == [] || (Possible(d, events[0]) && CanRun(Apply(d, events[0]), events[1..]))
  }

  ghost function Run(d: Disk, events: seq<Event>): Disk
    requires CanRun(d, events)
    decreases |events|
  {
    if events == [] then d else Run(Apply(d, events[0]), events[1..])
  }

  ghost function RunIntended(k: Known, events: seq<Event>): Known
    decreases |events|
  {
    if events == [] then k else RunIntended(Intended(k, events[0]), events[1..])
  }

  ghost predicate Faithful(d: Disk, k: Known) {
    Records(d.recov, k.recov) && Records(d.prior, k.prior)
  }

  /** Only the recovery directory has changed. */
  lemma RecovChanged(d: Disk, k: Known, d': Disk, k': Known)
    requires Faithful(d, k) && d'.prior == d.prior && k'.prior == k.prior && Records(d'.recov, k'.recov)
    ensures Faithful(d', k')
  {
  }

  lemma AddFaithful(d: Disk, k: Known, n: string, made: nat)
    requires Faithful(d, k) && Possible(d, Add(n, made))
    ensures Faithful(Apply(d, Add(n, made)), Intended(k, Add(n, made)))
  {
    AddKeepsRecords(d.recov, k.recov, n, made);
    RecovChanged(d, k, Apply(d, Add(n, made)), Intended(k, Add(n, made)));
  }

  lemma RemoveFaithful(d: Disk, k: Known, n: string, gone: nat)
    requires Faithful(d, k) && Possible(d, Remove(n, gone))
    ensures Faithful(Apply(d, Remove(n, gone)), Intended(k, Remove(n, gone)))
  {
    RemoveKeepsRecords(d.recov, k.recov, n, gone);
    RecovChanged(d, k, Apply(d, Remove(n, gone)), Intended(k, Remove(n, gone)));
  }

  lemma RestartFaithful(d: Disk, k: Known)
    requires Faithful(d, k)
    ensures Faithful(Apply(d, Restart), Intended(k, Restart))
  {
    ReadMovesAll(d.recov, k.recov);
    ReadMovesAll(d.prior, k.prior);
    RecordsNothing();
    assert {} + d.recov == d.recov;
  }

  lemma CutRestartFaithful(d: Disk, k: Known, clears: seq<Move>, moves: seq<Move>)
    requires Faithful(d, k) && Possible(d, CutRestart(clears, moves))
    ensures Faithful(Apply(d, CutRestart(clears, moves)), Intended(k, CutRestart(clears, moves)))
  {
    RecordsNothing();
    MovesRecorded(Trees(d.prior, {}), Names(k.prior, {}), false, clears);
    var left := NamesAfterAll(Names(k.prior, {}), clears).src;
    MovesRecorded(Trees(d.recov, Cleared(d, clears)), Names(k.recov, left), true, moves);
  }

  lemma StepFaithful(d: Disk, k: Known, e: Event)
    requires Faithful(d, k) && Possible(d, e)
    ensures Faithful(Apply(d, e), Intended(k, e))
  {
    match e
    case Add(n, made) => AddFaithful(d, k, n, made);
    case Remove(n, gone) => RemoveFaithful(d, k, n, gone);
    case Restart => RestartFaithful(d, k);
    case CutRestart(clears, moves) => CutRestartFaithful(d, k, clears, moves);
  }

  lemma {:induction false} RunFaithful(d: Disk, k: Known, events: seq<Event>)
    requires Faithful(d, k) && CanRun(d, events)
    ensures Faithful(Run(d, events), RunIntended(k, events))
    decreases |events|
  {
    if events != [] {
      StepFaithful(d, k, events[0]);
      RunFaithful(Apply(d, events[0]), Intended(k, events[0]), events[1..]);
    }
  }

  lemma FaithfulFindsAll(d: Disk, k: Known)
    requires Faithful(d, k)
    ensures Reclaimable(d) == k.prior + k.recov
  {
    ReadBack(d.recov, k.recov);
    ReadBack(d.prior, k.prior);
  }

  /**
   After every history, crashes anywhere included, the names a restart finds are exactly
   those that the same history leaves when it is told of names instead of directories.
   */
  lemma RestartFindsExactly(events: seq<Event>)
    requires CanRun(Disk({}, {}), events)
    ensures var k := RunIntended(Known({}, {}), events);
      Reclaimable(Run(Disk({}, {}), events)) == k.prior + k.recov
  {
    RecordsNothing();
    RunFaithful(Disk({}, {}), Known({}, {}), events);
    FaithfulFindsAll(Run(Disk({}, {}), events), RunIntended(Known({}, {}), events));
  }

  /** The calls that a restart makes in full; a crash can come after any of them. */
  ghost predicate RestartCalls(d: Disk, clears: seq<Move>, moves: seq<Move>, d': Disk) {
    && Possible(d, CutRestart(clears, moves)) && Apply(d, CutRestart(clears, moves)) == d'
    && (forall i :: 0 <= i <= |clears| ==> Possible(d, CutRestart(clears[..i], [])))
    && (forall j :: 0 <= j <= |moves| ==> Possible(d, CutRestart(clears, moves[..j])))
  }

  lemma TracedRestart(d: Disk, clears: seq<Move>, prior: Tree, moves: seq<Move>, d': Disk)
    requires Traced(Trees(d.prior, {}), false, clears, Trees(prior, {}))
    requires Traced(Trees(d.recov, prior), true, moves, Trees(d'.recov, d'.prior))
    ensures RestartCalls(d, clears, moves, d')
  {
    TracedMoves(Trees(d.prior, {}), false, clears, Trees(prior, {}));
    TracedMoves(Trees(d.recov, prior), true, moves, Trees(d'.recov, d'.prior));
    forall i | 0 <= i <= |clears| ensures Possible(d, CutRestart(clears[..i], [])) {
      CutAnywhere(Trees(d.prior, {}), false, clears, i);
    }
    forall j | 0 <= j <= |moves| ensures Possible(d, CutRestart(clears, moves[..j])) {
      CutAnywhere(Trees(d.recov, prior), true, moves, j);
    }
  }

  /**
   Wherever a restart stops, each name of this run is whole in one directory or the other;
   and a name of the previous run is lost exactly if its last directory has been cleared
   and it is not also a name of this run.
   */
  lemma CutRestartFinds(d: Disk, k: Known, clears: seq<Move>, moves: seq<Move>)
    requires Faithful(d, k) && Possible(d, CutRestart(clears, moves))
    ensures Reclaimable(Apply(d, CutRestart(clears, moves))) == k.recov + NotDropped(k.prior, clears)
  {
    CutRestartFaithful(d, k, clears, moves);
    FaithfulFindsAll(Apply(d, CutRestart(clears, moves)), Intended(k, CutRestart(clears, moves)));
    RecordsNothing();
    ClearLoses(Trees(d.prior, {}), Names(k.prior, {}), clears);
    MovesRecorded(Trees(d.prior, {}), Names(k.prior, {}), false, clears);
    var left := NamesAfterAll(Names(k.prior, {}), clears).src;
    MovesConserve(Trees(d.recov, Cleared(d, clears)), Names(k.recov, left), moves);
  }

  lemma OneName(n: string)
    requires Recordable(n)
    ensures Faithful(Disk({}, Levels(Segments(n), |Segments(n)|)), Known({}, {n}))
  {
    RecordsNothing();
    AddKeepsRecords({}, {}, n, |Segments(n)|);
    assert {} + Levels(Segments(n), |Segments(n)|) == Levels(Segments(n), |Segments(n)|) && {} + {n} == {n};
  }

  lemma OneDrop(d: Disk, p: Path)
    ensures Possible(d, CutRestart([Drop(p)], []))
  {
    assert [Drop(p)][..0] == [];
  }

  lemma NoneLeft(n: string)
    ensures {} + NotDropped({n}, [Drop(Segments(n))]) == {}
  {
  }

  /** A restart that is cut short once it has removed the last directory of a name of the previous run loses it. */
  lemma CutRestartExample(n: string)
    requires Recordable(n)
    ensures var d := Disk({}, Levels(Segments(n), |Segments(n)|)); var e := CutRestart([Drop(Segments(n))], []);
      Reclaimable(d) == {n} && Possible(d, e) && Reclaimable(Apply(d, e)) == {}
  {
    var d, k := Disk({}, Levels(Segments(n), |Segments(n)|)), Known({}, {n});
    assert Faithful(d, k) by { OneName(n); }
    OneDrop(d, Segments(n));
    FaithfulFindsAll(d, k);
    CutRestartFinds(d, k, [Drop(Segments(n))], []);
    NoneLeft(n);
  }
}
