/**
 Sequence numbers of stateids: 32-bit counters that skip zero, compared by signed
 difference so that the comparison survives wrap-around.
 */
module Seqids {
  import opened Widths

  const TWO_31: int := 0x8000_0000
  const SEQID_ALL_ONE: int := 0xFFFF_FFFF

  predicate IsUint32(x: int) {
    0 <= x < UINT32
  }

  /** A sequence number that a client can hold: never zero. */
  predicate IsSeqid(x: int) {
    1 <= x < UINT32
  }

  /** The 32-bit sum. */
  function Add32(x: int, y: int): int {
    (x + y) % UINT32
  }

  /** `a - b` as a 32-bit difference read as a signed number. */
  function SignedDiff(a: int, b: int): int {
    var d := (a - b) % UINT32;
    if d >= TWO_31 then d - UINT32 else d
  }

  /** The sequence number after an update. */
  function NextSeqid(s: int): int {
    var t := Add32(s, 1);
    if t == 0 then 1 else t
  }

  class StateRecord {
    var seqid: int

    constructor ()
      ensures seqid == 0
    {
      seqid := 0;
    }

    /** update_stateid: the number goes into the response, and is never zero. */
    method UpdateStateid() returns (resp: int)
      requires IsUint32(seqid)
      modifies this
      ensures seqid == NextSeqid(old(seqid)) && resp == seqid && IsSeqid(seqid)
    {
      seqid := Add32(seqid, 1);
      if seqid == 0 {
        seqid := 1;
      }
      resp := seqid;
    }
  }

  /** The sequence number `n` updates after `s`. */
  function After(s: int, n: nat): int {
    if n == 0 then s else NextSeqid(After(s, n - 1))
  }

  /** Updates walk a cycle of all the numbers but zero. */
  lemma {:induction false} AfterIsCycle(s: int, n: nat)
    requires IsSeqid(s)
    ensures IsSeqid(After(s, n))
    ensures After(s, n) == (s - 1 + n) % (UINT32 - 1) + 1
    decreases n
  {
    if n > 0 {
      AfterIsCycle(s, n - 1);
      var x := s - 1 + n - 1;
      StepInCycle(x);
      NextInCycle(x % (UINT32 - 1));
    }
  }

  lemma NextInCycle(c: int)
    requires 0 <= c < UINT32 - 1
    ensures NextSeqid(c + 1) == (if c == UINT32 - 2 then 0 else c + 1) + 1
  {
  }

  lemma StepInCycle(x: nat)
    ensures (x + 1) % (UINT32 - 1) == if x % (UINT32 - 1) == UINT32 - 2 then 0 else x % (UINT32 - 1) + 1
  {
  }

  /** For fewer updates than half the range, the difference is the number of updates, plus one across zero. */
  lemma DiffOfOlder(s: int, n: nat)
    requires IsSeqid(s) && n < TWO_31
    ensures SignedDiff(s, After(s, n)) == if s + n < UINT32 then 0 - n else 0 - n - 1
  {
    AfterIsCycle(s, n);
    if s + n < UINT32 {
      assert (s - 1 + n) % (UINT32 - 1) == s - 1 + n;
      assert s - After(s, n) == 0 - n;
    } else {
      assert (s - 1 + n) % (UINT32 - 1) == s - 1 + n - (UINT32 - 1);
      assert s - After(s, n) == UINT32 - n - 1;
    }
  }

  // ---- how a presented sequence number is judged --------------------------

  datatype Judgement = Current | Replay | Old | Bad

  /** The sequence number test of nfs4_Check_Stateid. */
  function Judge(presented: int, current: int, isLayout: bool, checkSeqid: bool, ownerIsCurrent: bool): Judgement {
    if !isLayout && presented == 0 then Current
    else
      var diff := SignedDiff(presented, current);
      if diff < 0 then
        if checkSeqid && (diff == -1 || (current == 1 && presented == SEQID_ALL_ONE)) && ownerIsCurrent then Replay
        else Old
      else if diff == 0 && checkSeqid && ownerIsCurrent then Replay
      else if diff > 0 then Bad
      else Current
  }

  /**
   A number issued `n` updates ago, for any number of updates below 2^31 and across any
   wrap-around, is judged old, or a possible replay if it is the one just before; it is
   never taken for current, nor for one not yet issued.
   */
  lemma IssuedBefore(s: int, n: nat, isLayout: bool, checkSeqid: bool, ownerIsCurrent: bool)
    requires IsSeqid(s) && 1 <= n < TWO_31
    ensures Judge(s, After(s, n), isLayout, checkSeqid, ownerIsCurrent) ==
            if n == 1 && checkSeqid && ownerIsCurrent then Replay else Old
  {
    DiffOfOlder(s, n);
    AfterIsCycle(s, n);
    if s + n < UINT32 {
      assert (s - 1 + n) % (UINT32 - 1) == s - 1 + n;
    } else {
      assert (s - 1 + n) % (UINT32 - 1) == s - 1 + n - (UINT32 - 1);
    }
  }

  /** The number last issued is current, or the replay of an operation of an owner that stands there. */
  lemma JustIssued(s: int, isLayout: bool, checkSeqid: bool, ownerIsCurrent: bool)
    requires IsSeqid(s)
    ensures Judge(s, s, isLayout, checkSeqid, ownerIsCurrent) ==
            if checkSeqid && ownerIsCurrent then Replay else Current
  {
  }

  /** Zero stands for the current number, except for layouts, where it is judged like any other. */
  lemma ZeroIsCurrent(current: int, checkSeqid: bool, ownerIsCurrent: bool)
    requires IsSeqid(current)
    ensures Judge(0, current, false, checkSeqid, ownerIsCurrent) == Current
    ensures Judge(0, current, true, checkSeqid, ownerIsCurrent) != Current
  {
  }

  /** A number that is `n` updates ahead is bad, for as many updates as the difference can tell apart. */
  lemma NotYetIssued(current: int, n: nat, isLayout: bool, checkSeqid: bool, ownerIsCurrent: bool)
    requires IsSeqid(current) && 1 <= n < TWO_31
    ensures Judge(After(current, n), current, isLayout, checkSeqid, ownerIsCurrent) == Bad <==>
            current + n < UINT32 || n + 1 < TWO_31
  {
    AfterIsCycle(current, n);
    if current + n < UINT32 {
      assert (current - 1 + n) % (UINT32 - 1) == current - 1 + n;
      assert After(current, n) - current == n;
    } else {
      assert (current - 1 + n) % (UINT32 - 1) == current - 1 + n - (UINT32 - 1);
      assert After(current, n) - current == n + 1 - UINT32;
    }
  }

  /** The bound is exact: 2^31 updates across zero make an old number look like one not yet issued. */
  lemma TooManyUpdates(s: int)
    requires IsSeqid(s) && s >= TWO_31
    ensures Judge(s, After(s, TWO_31), false, false, false) == Bad
  {
    AfterIsCycle(s, TWO_31);
    assert (s - 1 + TWO_31) % (UINT32 - 1) == s - 1 + TWO_31 - (UINT32 - 1);
    assert s - After(s, TWO_31) == TWO_31 - 1;
  }

  /** The replay test accepts exactly the immediate predecessor in the cycle that skips zero. */
  lemma ReplayIsPredecessor(presented: int, current: int, isLayout: bool)
    requires IsSeqid(presented) && IsSeqid(current) && presented != current
    ensures Judge(presented, current, isLayout, true, true) == Replay <==> NextSeqid(presented) == current
  {
  }
}
