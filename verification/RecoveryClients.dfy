/**
 Who may reclaim after a restart.  The histories of the recovery directory, told of clients
 instead of names: a client may reclaim exactly if its own address and id were recorded and
 not removed since.
 */
module RecoveryClients {
  import opened RecoveryNames
  import opened RecoveryTree
  import opened RecoveryMoves
  import opened RecoveryDir
  import History = RecoveryHistory

  datatype Client = Client(ip: string, clid: string)

  function NameOf(c: Client): string {
    ClidName(c.ip, c.clid)
  }

  /** A client whose name the reader finds again. */
  ghost predicate Good(c: Client) {
    '(' !in c.ip && |c.ip| <= SOCK_NAME_MAX && Recordable(NameOf(c))
  }

  /** The clients recorded by this run and by the one before. */
  datatype Roster = Roster(recov: set<Client>, prior: set<Client>)

  datatype Event =
    | Add(c: Client, mkdirs: nat)
    | Remove(c: Client, rmdirs: nat)
    | Restart
    | CutRestart(clears: seq<Move>, moves: seq<Move>)

  function OnDisk(e: Event): History.Event {
    match e
    case Add(c, k) => History.Add(NameOf(c), k)
    case Remove(c, k) => History.Remove(NameOf(c), k)
    case Restart => History.Restart
    case CutRestart(clears, moves) => History.CutRestart(clears, moves)
  }

  function AllOnDisk(events: seq<Event>): seq<History.Event> {
    if events == [] then [] else [OnDisk(events[0])] + AllOnDisk(events[1..])
  }

  ghost predicate AboutGood(e: Event) {
    match e
    case Add(c, _) => Good(c)
    case Remove(c, _) => Good(c)
    case _ => true
  }

  ghost predicate AllAboutGood(events: seq<Event>) {
    forall i :: 0 <= i < |events| ==> AboutGood(events[i])
  }

  /** The clients that a restart moves and drops, as far as it gets. */
  datatype Pair = Pair(src: set<Client>, tgt: set<Client>)

  function LastAt(cs: set<Client>, p: Path): set<Client> {
    set c | c in cs && Segments(NameOf(c)) == p
  }

  function ClientsAfter(k: Pair, ms: seq<Move>): Pair {
    if ms == [] then k
    else
      var k1 := ClientsAfter(k, ms[..|ms| - 1]);
      match ms[|ms| - 1]
      case Copy(p) => k1.(tgt := k1.tgt + LastAt(k1.src, p))
      case Drop(p) => k1.(src := k1.src - LastAt(k1.src, p))
  }

  /** The history of clients, without names or directories. */
  function Remembered(k: Roster, e: Event): Roster {
    match e
    case Add(c, made) => if made == |Segments(NameOf(c))| then k.(recov := k.recov + {c}) else k
    case Remove(c, gone) => if gone > 0 then k.(recov := k.recov - {c}) else k
    case Restart => Roster({}, k.recov)
    case CutRestart(clears, moves) =>
      var pair := ClientsAfter(Pair(k.recov, ClientsAfter(Pair(k.prior, {}), clears).src), moves);
      Roster(pair.src, pair.tgt)
  }

  function RunRemembered(k: Roster, events: seq<Event>): Roster
    decreases |events|
  {
    if events == [] then k else RunRemembered(Remembered(k, events[0]), events[1..])
  }

  // ---- clients and their names --------------------------------------------

  function NamesOfAll(cs: set<Client>): set<string> {
    set c | c in cs :: NameOf(c)
  }

  ghost predicate AllGood(cs: set<Client>) {
    forall c :: c in cs ==> Good(c)
  }

  lemma NamedIff(cs: set<Client>, c: Client)
    requires AllGood(cs) && '(' !in c.ip
    ensures NameOf(c) in NamesOfAll(cs) <==> c in cs
  {
    if NameOf(c) in NamesOfAll(cs) {
      var d :| d in cs && NameOf(d) == NameOf(c);
      NameTellsClient(c.ip, c.clid, d.ip, d.clid);
    }
  }

  lemma NamesWithout(cs: set<Client>, c: Client)
    requires AllGood(cs) && Good(c)
    ensures NamesOfAll(cs - {c}) == NamesOfAll(cs) - {NameOf(c)}
  {
    forall n | n in NamesOfAll(cs - {c}) ensures n != NameOf(c) {
      NamedIff(cs - {c}, c);
    }
  }

  lemma NamesLastAt(cs: set<Client>, p: Path)
    requires AllGood(cs)
    ensures NamesOfAll(LastAt(cs, p)) == EndingAt(NamesOfAll(cs), p)
    ensures NamesOfAll(cs - LastAt(cs, p)) == NamesOfAll(cs) - EndingAt(NamesOfAll(cs), p)
  {
  }

  lemma {:induction false} MovesName(k: Pair, ms: seq<Move>)
    requires AllGood(k.src) && AllGood(k.tgt)
    ensures var k' := ClientsAfter(k, ms);
      && AllGood(k'.src) && AllGood(k'.tgt)
      && NamesAfterAll(Names(NamesOfAll(k.src), NamesOfAll(k.tgt)), ms)
         == Names(NamesOfAll(k'.src), NamesOfAll(k'.tgt))
    decreases |ms|
  {
    if ms != [] {
      var k1 := ClientsAfter(k, ms[..|ms| - 1]);
      MovesName(k, ms[..|ms| - 1]);
      NamesLastAt(k1.src, ms[|ms| - 1].p);
    }
  }

  function Known(k: Roster): History.Known {
    History.Known(NamesOfAll(k.recov), NamesOfAll(k.prior))
  }

  ghost predicate GoodRoster(k: Roster) {
    AllGood(k.recov) && AllGood(k.prior)
  }

  lemma CutNames(k: Roster, clears: seq<Move>, moves: seq<Move>)
    requires GoodRoster(k)
    ensures var e := CutRestart(clears, moves);
      GoodRoster(Remembered(k, e)) && History.Intended(Known(k), OnDisk(e)) == Known(Remembered(k, e))
  {
    MovesName(Pair(k.prior, {}), clears);
    assert NamesOfAll({}) == {};
    MovesName(Pair(k.recov, ClientsAfter(Pair(k.prior, {}), clears).src), moves);
  }

  /** What is intended of names is what is remembered of clients. */
  lemma StepNames(k: Roster, e: Event)
    requires GoodRoster(k) && AboutGood(e)
    ensures GoodRoster(Remembered(k, e)) && History.Intended(Known(k), OnDisk(e)) == Known(Remembered(k, e))
  {
    match e
    case Add(c, made) => assert NamesOfAll(k.recov + {c}) == NamesOfAll(k.recov) + {NameOf(c)};
    case Remove(c, gone) => NamesWithout(k.recov, c);
    case Restart =>
    case CutRestart(clears, moves) => CutNames(k, clears, moves);
  }

  lemma {:induction false} RunNames(k: Roster, events: seq<Event>)
    requires GoodRoster(k) && AllAboutGood(events)
    ensures GoodRoster(RunRemembered(k, events))
    ensures History.RunIntended(Known(k), AllOnDisk(events)) == Known(RunRemembered(k, events))
    decreases |events|
  {
    if events != [] {
      StepNames(k, events[0]);
      assert AllOnDisk(events)[1..] == AllOnDisk(events[1..]);
      RunNames(Remembered(k, events[0]), events[1..]);
    }
  }

  // ---- who may reclaim ----------------------------------------------------

  /** After every history, the name of a client is found exactly if that client is remembered. */
  lemma ReclaimExactly(events: seq<Event>, c: Client)
    requires AllAboutGood(events) && History.CanRun(History.Disk({}, {}), AllOnDisk(events)) && '(' !in c.ip
    ensures var k := RunRemembered(Roster({}, {}), events);
      NameOf(c) in History.Reclaimable(History.Run(History.Disk({}, {}), AllOnDisk(events)))
      <==> c in k.prior + k.recov
  {
    var k := RunRemembered(Roster({}, {}), events);
    assert NamesOfAll({}) == {};
    RunNames(Roster({}, {}), events);
    History.RestartFindsExactly(AllOnDisk(events));
    NamedIff(k.prior, c);
    NamedIff(k.recov, c);
  }

  /** A restart after some history, and then a client that asks to reclaim. */
  method RestartAndReclaim(recov: DirTree, prior: DirTree, ip: string, id: seq<Byte>, inGrace: bool,
                           ghost events: seq<Event>)
    returns (allowed: bool)
    requires recov != prior && recov.Valid() && prior.Valid()
    requires AllAboutGood(events) && History.CanRun(History.Disk({}, {}), AllOnDisk(events))
    requires History.Disk(recov.dirs, prior.dirs) == History.Run(History.Disk({}, {}), AllOnDisk(events))
    requires '(' !in ip && |NameOf(Client(ip, ClidText(id)))| < PATH_MAX
    modifies recov, prior
    ensures var k := RunRemembered(Roster({}, {}), events);
      allowed <==> inGrace && Client(ip, ClidText(id)) in k.prior + k.recov
  {
    ghost var d := History.Disk(recov.dirs, prior.dirs);
    var c := Client(ip, ClidText(id));
    ReclaimExactly(events, c);
    FoundAreShort(events);
    var list, clears, cleared, moves := LoadRecovClids(recov, prior);
    assert forall i :: 0 <= i < |list| ==> list[i] in Entries(list);
    allowed := MayReclaim(list, NameOf(c), inGrace);
  }

  lemma FoundAreShort(events: seq<Event>)
    requires AllAboutGood(events) && History.CanRun(History.Disk({}, {}), AllOnDisk(events))
    ensures var d := History.Run(History.Disk({}, {}), AllOnDisk(events));
      forall n :: n in History.Reclaimable(d) ==> |n| < PATH_MAX
  {
    var k := RunRemembered(Roster({}, {}), events);
    assert NamesOfAll({}) == {};
    RunNames(Roster({}, {}), events);
    History.RestartFindsExactly(AllOnDisk(events));
  }
}
