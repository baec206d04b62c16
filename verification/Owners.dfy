/**
 Open-owner and lock-owner sequence numbers of NFSv4.0: at most one execution of each
 request that an owner's reply is saved for, and the saved reply for its retransmission.
 */
module Owners {
  import opened Counters
  import opened Widths

  type Op = nat
  type File = nat
  type Response = nat

  datatype Entry = NoEntry | Entry(file: File)
  datatype Request = Request(seqid: nat, op: Op, entry: Entry)
  datatype Saved = Saved(seqid: nat, op: Op, entry: Entry, response: Response)

  datatype Verdict = Execute | Replay(response: Response) | BadSeqid

  /** What an owner answers to a request. */
  function Judge(owner: Saved, req: Request): Verdict {
    if owner.entry == NoEntry || req.seqid == Succ(owner.seqid) then Execute
    else if req.seqid == owner.seqid && req.op == owner.op && req.entry == owner.entry then Replay(owner.response)
    else BadSeqid
  }

  function Record(req: Request, response: Response): Saved {
    Saved(req.seqid, req.op, req.entry, response)
  }

  class Owner {
    var seqid: nat
    var op: Op
    var entry: Entry
    var response: Response

    function Now(): Saved
      reads this
    {
      Saved(seqid, op, entry, response)
    }

    /** Copy_nfs4_state_req */
    method Save(req: Request, r: Response)
      modifies this
      ensures Now() == Record(req, r)
    {
      response := r;
      op := req.op;
      entry := req.entry;
      seqid := req.seqid;
    }
  }

  /** Check_nfs4_seqid; a false result comes with the status or the copied response. */
  method CheckSeqid(owner: Owner?, req: Request) returns (proceed: bool, v: Verdict)
    ensures v == if owner == null then Execute else Judge(owner.Now(), req)
    ensures proceed <==> v == Execute
  {
    if owner == null {
      return true, Execute;
    }
    if owner.entry == NoEntry {
      return true, Execute;
    }
    var next := Succ(owner.seqid);
    if req.seqid == next {
      return true, Execute;
    }
    if owner.seqid != req.seqid {
      return false, BadSeqid;
    }
    if req.op != owner.op {
      return false, BadSeqid;
    }
    if owner.entry != req.entry {
      return false, BadSeqid;
    }
    return false, Replay(owner.response);
  }

  // ---- runs ---------------------------------------------------------------

  /**
   A request, the response it gets if it is executed, and whether the server then saves it:
   some errors leave the owner as it was.
   */
  datatype Event = Event(req: Request, response: Response, saves: bool)

  function Step(owner: Saved, e: Event): Saved {
    if Judge(owner, e.req) == Execute && e.saves then Record(e.req, e.response) else owner
  }

  function Run(owner: Saved, events: seq<Event>): Saved {
    if events == [] then owner else Step(Run(owner, events[..|events| - 1]), events[|events| - 1])
  }

  /** The sequence numbers of the executions that were saved, in order. */
  function Executed(owner: Saved, events: seq<Event>): seq<nat> {
    if events == [] then []
    else
      var before := events[..|events| - 1];
      var e := events[|events| - 1];
      Executed(owner, before) +
      (if Judge(Run(owner, before), e.req) == Execute && e.saves then [e.req.seqid] else [])
  }

  /** Requests carry 32-bit numbers and the operations they name apply to a file. */
  ghost predicate Proper(events: seq<Event>) {
    forall e :: e in events ==> e.req.seqid < UINT32 && e.req.entry != NoEntry
  }

  /** The owner always stands at its last saved execution. */
  lemma {:induction false} RunStandsAtLast(owner: Saved, events: seq<Event>)
    requires Proper(events)
    ensures var log := Executed(owner, events); var now := Run(owner, events);
      && Consecutive(log)
      && (forall i :: 0 <= i < |log| ==> log[i] < UINT32)
      && (if log == [] then now == owner else now.seqid == log[|log| - 1] && now.entry != NoEntry)
    decreases |events|
  {
    if events != [] {
      var before := events[..|events| - 1];
      var e := events[|events| - 1];
      assert e in events && Proper(before);
      RunStandsAtLast(owner, before);
      if Judge(Run(owner, before), e.req) == Execute && e.saves {
        Extend(Executed(owner, before), e.req.seqid);
      }
    }
  }

  /** The executions follow each other: none is left out and none is repeated before the counter wraps. */
  lemma AtMostOnce(owner: Saved, events: seq<Event>, i: nat, j: nat)
    requires Proper(events) && i < j < |Executed(owner, events)|
    ensures var log := Executed(owner, events); log[i] == log[j] ==> j - i >= UINT32
  {
    RunStandsAtLast(owner, events);
    var log := Executed(owner, events);
    if log[i] == log[j] { ReuseIsFar(log, i, j); }
  }

  /** A new owner may start with any number. */
  lemma NewOwnerStartsAnywhere(owner: Saved, e: Event)
    requires owner.entry == NoEntry
    ensures Judge(owner, e.req) == Execute
    ensures e.saves && e.req.entry != NoEntry ==> Judge(Step(owner, e), e.req) == Replay(e.response)
    ensures !e.saves ==> Step(owner, e) == owner
  {
  }

  /** An owner with a saved entry continues from it. */
  lemma ContinuesFromSaved(owner: Saved, events: seq<Event>)
    requires Proper(events) && owner.entry != NoEntry && Executed(owner, events) != []
    ensures Executed(owner, events)[0] == Succ(owner.seqid)
    decreases |events|
  {
    var before := events[..|events| - 1];
    assert Proper(before);
    RunStandsAtLast(owner, before);
    if Executed(owner, before) != [] { ContinuesFromSaved(owner, before); }
  }

  /**
   Right after a saved execution its retransmission gets the saved response, any other
   request but the next is refused, and neither changes the owner; so it goes on to hold
   however often either comes.
   */
  lemma {:induction false} RetransmissionsAreReplayed(owner: Saved, first: Event, others: seq<Event>, req: Request)
    requires Judge(owner, first.req) == Execute && first.saves
    requires first.req.entry != NoEntry && first.req.seqid < UINT32
    requires forall e :: e in others ==> e.req.seqid != Succ(first.req.seqid)
    ensures Run(owner, [first] + others) == Record(first.req, first.response)
    ensures Judge(Run(owner, [first] + others), first.req) == Replay(first.response)
    ensures Judge(Run(owner, [first] + others), req) ==
            if req.seqid == Succ(first.req.seqid) then Execute
            else if req == first.req then Replay(first.response)
            else BadSeqid
    decreases |others|
  {
    var events := [first] + others;
    if others == [] {
      assert events[..0] == [] && events[0] == first;
      assert Run(owner, events[..0]) == owner;
    } else {
      var before := others[..|others| - 1];
      assert events[..|events| - 1] == [first] + before;
      assert events[|events| - 1] == others[|others| - 1] && others[|others| - 1] in others;
      RetransmissionsAreReplayed(owner, first, before, req);
    }
  }
}
