/**
 The slots of a session's callback channel: each call holds a slot, and the calls sent on
 one slot carry consecutive sequence numbers, so that the client can tell a new call from
 a repeated one.
 */
module CbSlots {
  import opened Counters
  import opened Widths

  const NB_SLOTS := 3

  datatype Slot = Slot(inUse: bool, sequence: nat)

  function Taken(s: Slot): Slot {
    Slot(true, Succ(s.sequence))
  }

  function Freed(s: Slot, sent: bool): Slot {
    Slot(false, if sent then s.sequence else Pred(s.sequence))
  }

  /** The first `n` slots are all in use. */
  ghost predicate AllInUse(slots: seq<Slot>, n: nat)
    requires n <= |slots|
  {
    forall i :: 0 <= i < n ==> slots[i].inUse
  }

  /** `h` is the greatest of `slot` and the slots in use below `n`. */
  ghost predicate Highest(slots: seq<Slot>, n: nat, slot: nat, h: nat)
    requires n <= |slots|
  {
    && slot <= h < n && (h == slot || slots[h].inUse)
    && (forall i :: h < i < n ==> !slots[i].inUse)
  }

  /** A reservation of the first free slot below `n`. */
  ghost predicate Reserves(before: seq<Slot>, after: seq<Slot>, n: nat, slot: nat, highest: nat)
    requires n <= |before|
  {
    && slot < n && AllInUse(before, slot) && !before[slot].inUse
    && after == before[slot := Taken(before[slot])]
    && Highest(before, n, slot, highest)
  }

  class Session {
    const slots: array<Slot>
    var maxRequests: nat

    constructor (max: nat)
      ensures fresh(slots) && slots.Length == NB_SLOTS && maxRequests == max
      ensures forall i :: 0 <= i < NB_SLOTS ==> slots[i] == Slot(false, 0)
    {
      slots := new Slot[NB_SLOTS](_ => Slot(false, 0));
      maxRequests := max;
    }

    function Limit(): nat
      reads this
    {
      if maxRequests < NB_SLOTS then maxRequests else NB_SLOTS
    }

    /** One pass over the slots; 0 stands for a slot not set. */
    method Scan() returns (found: bool, slot: nat, highest: nat)
      requires slots.Length == NB_SLOTS
      ensures found <==> !AllInUse(slots[..], Limit())
      ensures found ==> slot < Limit() && AllInUse(slots[..], slot) && !slots[slot].inUse
      ensures found ==> Highest(slots[..], Limit(), slot, highest)
    {
      found, slot, highest := false, 0, 0;
      for cur := 0 to Limit()
        invariant !found ==> AllInUse(slots[..], cur)
        invariant found ==> slot < cur && AllInUse(slots[..], slot) && !slots[slot].inUse
        invariant found ==> Highest(slots[..], cur, slot, highest)
      {
        if !slots[cur].inUse && !found {
          found, slot, highest := true, cur, cur;
        }
        if slots[cur].inUse {
          highest := cur;
        }
      }
    }

    /**
     find_cb_slot.  Waiting lets other threads in: `woken` holds the slots found on waking,
     and nothing if the wait timed out.
     */
    method FindSlot(wait: bool, woken: seq<seq<Slot>>) returns (found: bool, slot: nat, highest: nat)
      requires slots.Length == NB_SLOTS && |woken| <= 1 && forall w :: w in woken ==> |w| == NB_SLOTS
      modifies slots
      ensures var start := Start(old(slots[..]), Limit(), wait, woken);
        && (found <==> !AllInUse(start, Limit()))
        && (if found then Reserves(start, slots[..], Limit(), slot, highest) && slot < maxRequests
            else slots[..] == start)
    {
      found, slot, highest := Scan();
      if !found && wait && woken != [] {
        forall i | 0 <= i < NB_SLOTS {
          slots[i] := woken[0][i];
        }
        assert slots[..] == woken[0];
        found, slot, highest := Scan();
      }
      if found {
        ghost var start := slots[..];
        slots[slot] := Taken(slots[slot]);
        assert slots[..] == start[slot := Taken(start[slot])];
      }
    }

    /** release_cb_slot */
    method ReleaseSlot(slot: nat, sent: bool)
      requires slot < slots.Length
      modifies slots
      ensures slots[..] == old(slots[..])[slot := Freed(old(slots[slot]), sent)]
    {
      slots[slot] := Slot(false, slots[slot].sequence);
      if !sent {
        slots[slot] := slots[slot].(sequence := Pred(slots[slot].sequence));
      }
    }
  }

  /** The slots that the reservation is made in. */
  ghost function Start(slots: seq<Slot>, n: nat, wait: bool, woken: seq<seq<Slot>>): (r: seq<Slot>)
    requires n <= |slots| && |woken| <= 1 && forall w :: w in woken ==> |w| == |slots|
    ensures |r| == |slots|
  {
    if AllInUse(slots, n) && wait && woken != [] then woken[0] else slots
  }

  // ---- runs ---------------------------------------------------------------

  type CallId = nat

  /** A call between its reservation and its release; `sequence` is what it puts on the wire. */
  datatype Call = Call(slot: nat, sequence: nat, sent: bool)

  /** The slots, the calls under way, and the numbers sent so far on each slot. */
  datatype State = State(slots: seq<Slot>, calls: map<CallId, Call>, log: seq<seq<nat>>)

  datatype Step =
    | Reserve(call: CallId, slot: nat)
    | GiveUp(call: CallId)    // not constructed or not submitted
    | Submit(call: CallId)
    | Complete(call: CallId)

  predicate Can(s: State, step: Step)
    requires |s.log| == |s.slots|
  {
    match step
    case Reserve(c, slot) => c !in s.calls && slot < |s.slots| && !s.slots[slot].inUse
    case GiveUp(c) => c in s.calls && !s.calls[c].sent && s.calls[c].slot < |s.slots|
    case Submit(c) => c in s.calls && !s.calls[c].sent && s.calls[c].slot < |s.slots|
    case Complete(c) => c in s.calls && s.calls[c].sent && s.calls[c].slot < |s.slots|
  }

  function Next(s: State, step: Step): (r: State)
    requires |s.log| == |s.slots| && Can(s, step)
    ensures |r.slots| == |s.slots| && |r.log| == |s.log|
  {
    match step
    case Reserve(c, slot) =>
      var taken := Taken(s.slots[slot]);
      s.(slots := s.slots[slot := taken], calls := s.calls[c := Call(slot, taken.sequence, false)])
    case GiveUp(c) => Released(s, c)
    case Submit(c) =>
      var call := s.calls[c];
      s.(calls := s.calls[c := call.(sent := true)],
         log := s.log[call.slot := s.log[call.slot] + [call.sequence]])
    case Complete(c) => Released(s, c)
  }

  function Released(s: State, c: CallId): State
    requires c in s.calls && s.calls[c].slot < |s.slots|
  {
    var call := s.calls[c];
    s.(slots := s.slots[call.slot := Freed(s.slots[call.slot], call.sent)], calls := s.calls - {c})
  }

  /** The number of the last call sent on a slot. */
  function Last(start: nat, log: seq<nat>): nat {
    if log == [] then start else log[|log| - 1]
  }

  /** One slot and its calls: at most one call, which carries the slot's number. */
  ghost predicate SlotOk(slot: Slot, i: nat, calls: map<CallId, Call>, log: seq<nat>, start: nat) {
    && slot.sequence < UINT32
    && Consecutive([start] + log)
    && Last(start, log) < UINT32
    && (!slot.inUse ==> slot.sequence == Last(start, log))
    && (slot.inUse <==> exists c :: c in calls && calls[c].slot == i)
    && (forall c :: c in calls && calls[c].slot == i ==>
          && calls[c].sequence == slot.sequence && (calls[c].sent ==> log != [])
          && slot.sequence == if calls[c].sent then Last(start, log) else Succ(Last(start, log)))
  }

  ghost predicate Alone(calls: map<CallId, Call>) {
    forall c, d :: c in calls && d in calls && calls[c].slot == calls[d].slot ==> c == d
  }

  ghost predicate Inv(s: State, start: seq<nat>) {
    && |s.log| == |s.slots| == |start|
    && Alone(s.calls)
    && (forall c :: c in s.calls ==> s.calls[c].slot < |s.slots|)
    && (forall i :: 0 <= i < |s.slots| ==> SlotOk(s.slots[i], i, s.calls, s.log[i], start[i]))
  }

  /** Another slot does not notice. */
  lemma OtherSlot(slot: Slot, i: nat, calls: map<CallId, Call>, calls': map<CallId, Call>, log: seq<nat>, start: nat)
    requires SlotOk(slot, i, calls, log, start)
    requires forall c :: (c in calls && calls[c].slot == i) <==> (c in calls' && calls'[c].slot == i)
    requires forall c :: c in calls && calls[c].slot == i && c in calls' ==> calls'[c] == calls[c]
    ensures SlotOk(slot, i, calls', log, start)
  {
    if slot.inUse {
      var c :| c in calls && calls[c].slot == i;
      assert c in calls' && calls'[c].slot == i;
    }
  }

  lemma ReserveOk(s: State, start: seq<nat>, c: CallId, slot: nat)
    requires Inv(s, start) && Can(s, Reserve(c, slot))
    ensures Inv(Next(s, Reserve(c, slot)), start)
  {
    var t := Next(s, Reserve(c, slot));
    forall i | 0 <= i < |s.slots| ensures SlotOk(t.slots[i], i, t.calls, t.log[i], start[i]) {
      if i == slot {
        assert SlotOk(s.slots[i], i, s.calls, s.log[i], start[i]);
        assert c in t.calls && t.calls[c].slot == i;
      } else {
        OtherSlot(s.slots[i], i, s.calls, t.calls, s.log[i], start[i]);
      }
    }
  }

  lemma ReleaseOk(s: State, start: seq<nat>, c: CallId)
    requires Inv(s, start) && c in s.calls
    ensures Inv(Released(s, c), start)
  {
    var t := Released(s, c);
    forall i | 0 <= i < |s.slots| ensures SlotOk(t.slots[i], i, t.calls, t.log[i], start[i]) {
      if i == s.calls[c].slot {
        assert SlotOk(s.slots[i], i, s.calls, s.log[i], start[i]);
        PredSucc(Last(start[i], s.log[i]));
      } else {
        OtherSlot(s.slots[i], i, s.calls, t.calls, s.log[i], start[i]);
      }
    }
  }

  lemma SubmitOk(s: State, start: seq<nat>, c: CallId)
    requires Inv(s, start) && Can(s, Submit(c))
    ensures Inv(Next(s, Submit(c)), start)
  {
    var t := Next(s, Submit(c));
    forall i | 0 <= i < |s.slots| ensures SlotOk(t.slots[i], i, t.calls, t.log[i], start[i]) {
      if i == s.calls[c].slot {
        assert SlotOk(s.slots[i], i, s.calls, s.log[i], start[i]);
        SendOne(start[i], s.log[i], s.calls[c].sequence);
        assert c in t.calls && t.calls[c].slot == i;
      } else {
        OtherSlot(s.slots[i], i, s.calls, t.calls, s.log[i], start[i]);
      }
    }
  }

  lemma SendOne(start: nat, log: seq<nat>, n: nat)
    requires Consecutive([start] + log) && n == Succ(Last(start, log))
    ensures Consecutive([start] + (log + [n])) && Last(start, log + [n]) == n
  {
    Extend([start] + log, n);
    assert [start] + (log + [n]) == [start] + log + [n];
  }

  lemma NextOk(s: State, start: seq<nat>, step: Step)
    requires Inv(s, start) && Can(s, step)
    ensures Inv(Next(s, step), start)
  {
    match step
    case Reserve(c, slot) => ReserveOk(s, start, c, slot);
    case GiveUp(c) => ReleaseOk(s, start, c);
    case Submit(c) => SubmitOk(s, start, c);
    case Complete(c) => ReleaseOk(s, start, c);
  }

  /** A reservation gives the call its slot, with the number after the last one sent there. */
  lemma ReserveHolds(s: State, start: seq<nat>, c: CallId, slot: nat)
    requires Inv(s, start) && Can(s, Reserve(c, slot))
    ensures var t := Next(s, Reserve(c, slot));
      && t.slots[slot].inUse && t.log == s.log
      && t.calls == s.calls[c := Call(slot, Succ(Last(start[slot], s.log[slot])), false)]
  {
    assert SlotOk(s.slots[slot], slot, s.calls, s.log[slot], start[slot]);
  }

  /** Submitting the call sends that number on that slot and nothing anywhere else. */
  lemma SubmitSendsNext(s: State, start: seq<nat>, c: CallId)
    requires Inv(s, start) && Can(s, Submit(c))
    ensures var t := Next(s, Submit(c)); var slot := s.calls[c].slot;
      && t.log == s.log[slot := s.log[slot] + [Succ(Last(start[slot], s.log[slot]))]]
      && c in t.calls && t.calls[c].sent && t.slots == s.slots
  {
    var slot := s.calls[c].slot;
    assert SlotOk(s.slots[slot], slot, s.calls, s.log[slot], start[slot]);
  }

  /** The end of a call frees its slot, ready for the number after the last one sent. */
  lemma ReleaseFrees(s: State, start: seq<nat>, c: CallId)
    requires Inv(s, start) && c in s.calls
    ensures var t := Released(s, c); var slot := s.calls[c].slot;
      && t.slots == s.slots[slot := Slot(false, Last(start[slot], s.log[slot]))]
      && t.calls == s.calls - {c} && t.log == s.log
  {
    var slot := s.calls[c].slot;
    assert SlotOk(s.slots[slot], slot, s.calls, s.log[slot], start[slot]);
    PredSucc(Last(start[slot], s.log[slot]));
  }

  ghost predicate Run(states: seq<State>, steps: seq<Step>) {
    && |states| == |steps| + 1
    && (forall i :: 0 <= i < |states| ==> |states[i].log| == |states[i].slots|)
    && (forall i :: 0 <= i < |steps| ==> Can(states[i], steps[i]) && states[i + 1] == Next(states[i], steps[i]))
  }

  /** No slot in use and nothing sent. */
  ghost predicate Idle(s: State, start: seq<nat>) {
    && |s.log| == |s.slots| == |start| && s.calls == map[]
    && (forall i :: 0 <= i < |start| ==> s.slots[i] == Slot(false, start[i]) && s.log[i] == [] && start[i] < UINT32)
  }

  lemma {:induction false} RunOk(states: seq<State>, steps: seq<Step>, start: seq<nat>, n: nat)
    requires Run(states, steps) && n < |states| && Idle(states[0], start)
    ensures Inv(states[n], start)
    decreases n
  {
    if n > 0 {
      RunOk(states, steps, start, n - 1);
      NextOk(states[n - 1], start, steps[n - 1]);
    }
  }

  /**
   In every run, two calls under way never share a slot, and what has been sent on a slot is
   the slot's first number plus one, plus two, and so on without a gap, whatever
   reservations were given up in between.
   */
  lemma SlotDiscipline(states: seq<State>, steps: seq<Step>, start: seq<nat>, n: nat, i: nat)
    requires Run(states, steps) && n < |states| && Idle(states[0], start) && i < |start|
    ensures Alone(states[n].calls)
    ensures |states[n].log| == |start| && Consecutive([start[i]] + states[n].log[i])
  {
    RunOk(states, steps, start, n);
    assert SlotOk(states[n].slots[i], i, states[n].calls, states[n].log[i], start[i]);
  }

  /** The number of a call on the wire is the last one sent on its slot: the one the client answers. */
  lemma CallOnWireIsLast(states: seq<State>, steps: seq<Step>, start: seq<nat>, n: nat, c: CallId)
    requires Run(states, steps) && n < |states| && Idle(states[0], start)
    requires c in states[n].calls && states[n].calls[c].sent
    ensures var call := states[n].calls[c]; call.slot < |states[n].log|
    ensures var call := states[n].calls[c]; var log := states[n].log[call.slot];
      log != [] && call.sequence == log[|log| - 1]
  {
    RunOk(states, steps, start, n);
    var call := states[n].calls[c];
    assert SlotOk(states[n].slots[call.slot], call.slot, states[n].calls, states[n].log[call.slot], start[call.slot]);
  }
}
