/**
 Counters that a protocol keeps in 32 bits.
 */
module Counters {
  import opened Widths

  function Succ(n: nat): nat {
    (n + 1) % UINT32
  }

  function Pred(n: nat): nat {
    (n + UINT32 - 1) % UINT32
  }

  lemma PredSucc(n: nat)
    requires n < UINT32
    ensures Succ(n) < UINT32 && Pred(Succ(n)) == n
  {
  }

  /** Each number is the one before plus one. */
  ghost predicate Consecutive(log: seq<nat>) {
    forall i :: 0 <= i < |log| - 1 ==> log[i + 1] == Succ(log[i])
  }

  lemma Extend(log: seq<nat>, n: nat)
    requires Consecutive(log) && (log != [] ==> n == Succ(log[|log| - 1]))
    ensures Consecutive(log + [n])
  {
    var more := log + [n];
    forall i | 0 <= i < |more| - 1 ensures more[i + 1] == Succ(more[i]) {
      assert more[i] == log[i] && (i + 1 < |log| ==> more[i + 1] == log[i + 1]);
    }
  }

  lemma SuccOfSum(n: nat, d: nat)
    ensures Succ((n + d) % UINT32) == (n + (d + 1)) % UINT32
  {
  }

  lemma {:induction false} Distance(log: seq<nat>, i: nat, j: nat)
    requires Consecutive(log) && i <= j < |log| && log[i] < UINT32
    ensures log[j] == (log[i] + (j - i)) % UINT32
    decreases j
  {
    if i < j {
      Distance(log, i, j - 1);
      SuccOfSum(log[i], j - 1 - i);
      assert log[j - 1 + 1] == Succ(log[j - 1]);
    }
  }

  /** A number comes back only after all the others have been used. */
  lemma ReuseIsFar(log: seq<nat>, i: nat, j: nat)
    requires Consecutive(log) && i < j < |log| && log[i] < UINT32 && log[i] == log[j]
    ensures j - i >= UINT32
  {
    Distance(log, i, j);
  }
}
