/**
 Lists of integer ranges that stand for sets of node numbers.

 Every list is kept in a normal form: ranges in order, with a gap between neighbours.
 Adding and removing a range rebuild the list in one pass, which is right only because
 of that form.
 */
module Ranges {

  const LONG_MIN: int := -0x8000_0000_0000_0000
  const LONG_MAX: int := 0x7fff_ffff_ffff_ffff

  datatype Range = Range(from: int, to: int)

  // ---- predicates on ranges -----------------------------------------------

  function Set(v1: int, v2: int): (r: Range)
    ensures Check(r) && {r.from, r.to} == {v1, v2}
  {
    if v1 <= v2 then Range(v1, v2) else Range(v2, v1)
  }

  predicate Check(r: Range) {
    r.from <= r.to
  }

  predicate In(r: Range, x: int) {
    r.from <= x <= r.to
  }

  function Compare(r1: Range, r2: Range): int {
    if !Check(r1) || !Check(r2) then 0
    else if r1 == r2 then 0
    else if r1.to < r2.from then -1
    else 1
  }

  /** nl_range_intersects, with its redundant tests as they are written. */
  function Intersects(r1: Range, r2: Range): (b: bool)
    ensures b <==> exists x :: In(r1, x) && In(r2, x)
  {
    var b := Check(r1) && Check(r2) &&
      ((r2.to == r2.from && r1.from <= r2.to <= r1.to)
       || (r1.to == r1.from && r2.from <= r1.to <= r2.to)
       || (r2.to >= r1.from && r2.from <= r1.to)
       || (r1.to >= r2.from && r1.from <= r2.to));
    assert b ==> In(r1, if r1.from < r2.from then r2.from else r1.from)
                 && In(r2, if r1.from < r2.from then r2.from else r1.from);
    b
  }

  function Contiguous(r1: Range, r2: Range): int {
    if !Check(r1) || !Check(r2) then -1
    else if r1.to + 1 != r2.from && r1.from - 1 != r2.to then 0
    else if r1.to < r2.from then 1
    else 2
  }

  function Includes(r1: Range, r2: Range): int {
    if !Check(r1) || !Check(r2) then -1
    else if r2.from >= r1.from && r2.to <= r1.to then 1
    else if r1.from >= r2.from && r1.to <= r2.to then 2
    else 0
  }

  /** nl_range_union: the hull of two ranges that meet; otherwise the second is left as it is. */
  function Union(r1: Range, r2: Range): Range {
    if !Check(r1) || !Check(r2) || (!Intersects(r1, r2) && Contiguous(r1, r2) == 0) then r2
    else Range(if r1.from < r2.from then r1.from else r2.from, if r1.to > r2.to then r1.to else r2.to)
  }

  // ---- the normal form ----------------------------------------------------

  /** The set a list stands for. */
  ghost predicate Has(s: seq<Range>, x: int) {
    exists i :: 0 <= i < |s| && In(s[i], x)
  }

  /** There is a gap between `a` and `b`, with `a` first. */
  predicate Apart(a: Range, b: Range) {
    a.to + 1 < b.from
  }

  ghost predicate Normal(s: seq<Range>) {
    && (forall i :: 0 <= i < |s| ==> Check(s[i]))
    && (forall i, j :: 0 <= i < j < |s| ==> Apart(s[i], s[j]))
  }

  /** Bounds strictly inside the C type, so that `to + 1` and `from - 1` do not overflow. */
  ghost predicate Bounded(s: seq<Range>) {
    forall i :: 0 <= i < |s| ==> LONG_MIN < s[i].from && s[i].to < LONG_MAX
  }

  /** For a normal list this is a fact about the set it stands for. */
  lemma BoundedIffMembers(s: seq<Range>)
    requires Normal(s)
    ensures Bounded(s) <==> forall x :: Has(s, x) ==> LONG_MIN < x < LONG_MAX
  {
    if forall x :: Has(s, x) ==> LONG_MIN < x < LONG_MAX {
      forall i | 0 <= i < |s| ensures LONG_MIN < s[i].from && s[i].to < LONG_MAX {
        assert In(s[i], s[i].from) && In(s[i], s[i].to);
        assert Has(s, s[i].from) && Has(s, s[i].to);
      }
    }
  }

  lemma HasAppend(s: seq<Range>, r: Range, x: int)
    ensures Has(s + [r], x) <==> Has(s, x) || In(r, x)
  {
    if Has(s, x) {
      var i :| 0 <= i < |s| && In(s[i], x);
      assert In((s + [r])[i], x);
    }
    if In(r, x) { assert In((s + [r])[|s|], x); }
  }

  lemma HasCons(r: Range, s: seq<Range>, x: int)
    ensures Has([r] + s, x) <==> In(r, x) || Has(s, x)
  {
    if Has(s, x) {
      var i :| 0 <= i < |s| && In(s[i], x);
      assert In(([r] + s)[i + 1], x);
    }
    if In(r, x) { assert In(([r] + s)[0], x); }
  }

  lemma HasTail(s: seq<Range>, x: int)
    requires s != []
    ensures Has(s, x) <==> In(s[0], x) || Has(s[1..], x)
  {
    HasCons(s[0], s[1..], x);
    assert [s[0]] + s[1..] == s;
  }

  /** The first range of a normal list is read off the set it stands for. */
  lemma FirstRange(s: seq<Range>, x: int)
    requires Normal(s) && s != []
    ensures Has(s, s[0].from) && Has(s, s[0].to) && !Has(s, s[0].to + 1)
    ensures Has(s, x) ==> s[0].from <= x
    ensures s[0].from <= x <= s[0].to ==> Has(s, x)
  {
    assert In(s[0], s[0].from) && In(s[0], s[0].to);
    if In(s[0], x) { assert Has(s, x); }
  }

  /** The normal form is unique: lists that stand for the same set are the same list. */
  lemma {:induction false} Canonical(s: seq<Range>, t: seq<Range>)
    requires Normal(s) && Normal(t)
    requires forall x :: Has(s, x) <==> Has(t, x)
    ensures s == t
    decreases |s|
  {
    if s == [] {
      if t != [] { FirstRange(t, 0); assert false; }
    } else {
      FirstRange(s, 0);
      assert t != [];
      FirstRange(t, 0);
      FirstRange(s, t[0].from);
      FirstRange(t, s[0].from);
      FirstRange(s, t[0].to + 1);
      FirstRange(t, s[0].to + 1);
      assert s[0] == t[0];
      forall x ensures Has(s[1..], x) <==> Has(t[1..], x) {
        HasTail(s, x);
        HasTail(t, x);
        TailApart(s, x);
        TailApart(t, x);
      }
      Canonical(s[1..], t[1..]);
    }
  }

  lemma TailApart(s: seq<Range>, x: int)
    requires Normal(s) && s != []
    ensures Has(s[1..], x) ==> !In(s[0], x)
  {
  }

  // ---- sorting ------------------------------------------------------------

  /** What qsort makes of the list under nl_range_compare, as an insertion sort. */
  function InsertByCompare(s: seq<Range>, r: Range): seq<Range> {
    if s == [] then [r]
    else if Compare(r, s[0]) < 0 then [r] + s
    else [s[0]] + InsertByCompare(s[1..], r)
  }

  function SortByCompare(s: seq<Range>): seq<Range> {
    if s == [] then [] else InsertByCompare(SortByCompare(s[..|s| - 1]), s[|s| - 1])
  }

  lemma {:induction false} InsertAtEnd(s: seq<Range>, r: Range)
    requires Normal(s + [r])
    ensures InsertByCompare(s, r) == s + [r]
    decreases |s|
  {
    if s != [] {
      assert (s + [r])[0] == s[0] && (s + [r])[|s|] == r;
      assert (s + [r])[1..] == s[1..] + [r];
      InsertAtEnd(s[1..], r);
    }
  }

  lemma {:induction false} SortNormal(s: seq<Range>)
    requires Normal(s)
    ensures SortByCompare(s) == s
    decreases |s|
  {
    if s != [] {
      var init := s[..|s| - 1];
      assert s == init + [s[|s| - 1]];
      SortNormal(init);
      InsertAtEnd(init, s[|s| - 1]);
    }
  }

  lemma SortOne(r: Range)
    ensures SortByCompare([r]) == [r]
  {
    assert [r][..0] == [];
  }

  /** `r` does not touch any range of the list. */
  ghost predicate Clear(s: seq<Range>, r: Range) {
    forall i :: 0 <= i < |s| ==> Apart(s[i], r) || Apart(r, s[i])
  }

  lemma {:induction false} InsertNormal(s: seq<Range>, r: Range)
    requires Normal(s) && Check(r) && Clear(s, r)
    ensures Normal(InsertByCompare(s, r))
    ensures forall x :: Has(InsertByCompare(s, r), x) <==> Has(s, x) || In(r, x)
    ensures forall q :: q in InsertByCompare(s, r) <==> q in s || q == r
    decreases |s|
  {
    if s == [] {
      assert forall x :: Has([r], x) <==> In(r, x) by {
        forall x ensures Has([r], x) <==> In(r, x) { HasCons(r, [], x); }
      }
    } else if Compare(r, s[0]) < 0 {
      forall x ensures Has([r] + s, x) <==> Has(s, x) || In(r, x) { HasCons(r, s, x); }
      forall j | 0 <= j < |s| ensures Apart(r, s[j]) {
        if j > 0 { assert Apart(s[0], s[j]); }
      }
    } else {
      assert Apart(s[0], r);
      var rest := InsertByCompare(s[1..], r);
      InsertNormal(s[1..], r);
      forall x ensures Has([s[0]] + rest, x) <==> Has(s, x) || In(r, x) {
        HasCons(s[0], rest, x);
        HasTail(s, x);
      }
      forall j | 0 <= j < |rest| ensures Apart(s[0], rest[j]) {
        assert rest[j] in rest;
      }
    }
  }

  // ---- adding and removing ------------------------------------------------

  /** Where the merging pass stands: `work` and `r` stand for what has been read and the range being added. */
  ghost predicate Merging(a: seq<Range>, id: nat, r0: Range, work: seq<Range>, r: Range) {
    && id <= |a| && Normal(work) && Check(r) && Clear(work, r)
    && (forall i, j :: 0 <= i < |work| && id <= j < |a| ==> Apart(work[i], a[j]))
    && (forall x :: Has(work, x) || In(r, x) <==> Has(a[..id], x) || In(r0, x))
  }

  /** `r` touches no range so far and not the next one either: the next one is kept. */
  lemma MergeKeep(a: seq<Range>, id: nat, r0: Range, work: seq<Range>, r: Range)
    requires Merging(a, id, r0, work, r) && Normal(a) && id < |a|
    requires !Intersects(a[id], r) && Contiguous(a[id], r) == 0
    ensures Merging(a, id + 1, r0, work + [a[id]], r)
  {
    var middle := if a[id].from < r.from then r.from else a[id].from;
    assert !(In(a[id], middle) && In(r, middle));
    assert Apart(a[id], r) || Apart(r, a[id]);
    assert a[..id + 1] == a[..id] + [a[id]];
    forall x ensures Has(work + [a[id]], x) || In(r, x) <==> Has(a[..id + 1], x) || In(r0, x) {
      HasAppend(work, a[id], x);
      HasAppend(a[..id], a[id], x);
    }
  }

  /** The next range is touched: it is merged, and what was kept before stays clear of the result. */
  lemma MergeGrow(a: seq<Range>, id: nat, r0: Range, work: seq<Range>, r: Range)
    requires Merging(a, id, r0, work, r) && Normal(a) && id < |a|
    requires Intersects(a[id], r) || Contiguous(a[id], r) != 0
    ensures Merging(a, id + 1, r0, work, Union(a[id], r))
  {
    var u := Union(a[id], r);
    assert u == Range(if a[id].from < r.from then a[id].from else r.from, if a[id].to > r.to then a[id].to else r.to);
    assert a[id].from <= r.to + 1 && r.from <= a[id].to + 1;
    assert a[..id + 1] == a[..id] + [a[id]];
    forall i | 0 <= i < |work| ensures Apart(work[i], u) {
      assert Apart(work[i], a[id]);
    }
    forall x ensures Has(work, x) || In(u, x) <==> Has(a[..id + 1], x) || In(r0, x) {
      HasAppend(a[..id], a[id], x);
      assert In(u, x) <==> In(a[id], x) || In(r, x);
    }
  }

  lemma MergeDone(a: seq<Range>, r0: Range, work: seq<Range>, r: Range)
    requires Merging(a, |a|, r0, work, r)
    ensures SortByCompare(work + [r]) == InsertByCompare(work, r)
    ensures Normal(InsertByCompare(work, r))
    ensures forall x :: Has(InsertByCompare(work, r), x) <==> Has(a, x) || In(r0, x)
  {
    assert (work + [r])[..|work|] == work;
    SortNormal(work);
    InsertNormal(work, r);
    assert a[..|a|] == a;
  }

  /** Adding a reversed range is wrong on every list but the empty one, and never gives a normal list. */
  lemma ReversedRangeLoses(s: seq<Range>, r: Range)
    requires Normal(s) && !Check(r)
    ensures !Normal([r])
    ensures (forall x :: Has([r], x) <==> Has(s, x) || In(r, x)) <==> s == []
  {
    assert !Check([r][0]);
    if s != [] {
      FirstRange(s, 0);
      assert Has(s, s[0].from) && !Has([r], s[0].from);
    }
  }

  /** The second half of nl_rangelist_add_range: one pass over the list, then the sort. */
  method MergePass(a: seq<Range>, rin: Range) returns (result: seq<Range>)
    requires Normal(a)
    ensures Check(rin) ==> Normal(result) && forall x :: Has(result, x) <==> Has(a, x) || In(rin, x)
    ensures !Check(rin) ==> result == [rin]
  {
    var r := rin;
    var work: seq<Range> := [];
    for id := 0 to |a|
      invariant Check(rin) ==> Merging(a, id, rin, work, r)
      invariant !Check(rin) ==> work == [] && r == rin
    {
      if !Intersects(a[id], r) && Contiguous(a[id], r) == 0 {
        if Check(rin) { MergeKeep(a, id, rin, work, r); }
        work := work + [a[id]];
      } else {
        if Check(rin) { MergeGrow(a, id, rin, work, r); }
        r := Union(a[id], r);
      }
    }
    if Check(rin) { MergeDone(a, rin, work, r); } else { SortOne(rin); assert work + [r] == [rin]; }
    result := SortByCompare(work + [r]);
  }

  class RangeList {
    var ranges: seq<Range>

    constructor ()
      ensures ranges == []
    {
      ranges := [];
    }

    /**
     nl_rangelist_add_range.  For a proper range the result is the union, in normal form;
     a reversed range, which no caller should pass, replaces the whole list.
     */
    method AddRange(rin: Range) returns (status: int)
      requires Normal(ranges)
      modifies this
      ensures status == 0
      ensures Check(rin) ==> Normal(ranges) && forall x :: Has(ranges, x) <==> old(Has(ranges, x)) || In(rin, x)
      ensures !Check(rin) ==> ranges == [rin]
      ensures Check(rin) && Bounded([rin]) && old(Bounded(ranges)) ==> Bounded(ranges)
    {
      status := 0;
      if |ranges| == 0 {
        ranges := [rin];
        assert forall x :: In(rin, x) ==> In(ranges[0], x);
        return;
      }
      for id := 0 to |ranges|
        invariant ranges == old(ranges)
      {
        if Includes(ranges[id], rin) == 1 {
          assert forall x :: In(rin, x) ==> In(ranges[id], x);
          return;
        }
      }
      var work := MergePass(ranges, rin);
      ranges := work;
      if Check(rin) { StillBounded(old(ranges), rin, ranges); }
    }

    /** nl_rangelist_remove_range: the difference, in normal form. */
    method RemoveRange(rin: Range) returns (status: int)
      requires Normal(ranges)
      modifies this
      ensures status == 0
      ensures Normal(ranges)
      ensures forall x :: Has(ranges, x) <==> old(Has(ranges, x)) && !In(rin, x)
      ensures old(Bounded(ranges)) ==> Bounded(ranges)
    {
      status := 0;
      if |ranges| == 0 {
        return;
      }
      var work := new RangeList();
      for id := 0 to |ranges|
        invariant unchanged(this) && fresh(work) && status == 0 && Normal(work.ranges)
        invariant forall x :: Has(work.ranges, x) <==> Has(ranges[..id], x) && !In(rin, x)
      {
        var pr := ranges[id];
        ghost var before := work.ranges;
        if !Intersects(pr, rin) {
          var st := work.AddRange(pr);
          status := status + st;
        } else if pr.from != pr.to && Includes(rin, pr) != 1 {
          if pr.from < rin.from {
            var st := work.AddRange(Set(pr.from, rin.from - 1));
            status := status + st;
          }
          if pr.to > rin.to {
            var st := work.AddRange(Set(rin.to + 1, pr.to));
            status := status + st;
          }
        }
        LeftOver(pr, rin);
        assert forall x :: Has(work.ranges, x) <==> Has(before, x) || (In(pr, x) && !In(rin, x));
        assert ranges[..id + 1] == ranges[..id] + [pr];
        forall x ensures Has(ranges[..id + 1], x) <==> Has(ranges[..id], x) || In(pr, x) {
          HasAppend(ranges[..id], pr, x);
        }
      }
      assert ranges[..|ranges|] == ranges;
      BoundedIffMembers(ranges);
      BoundedIffMembers(work.ranges);
      ranges := work.ranges;
    }

    /** nl_rangelist_add_rangelist, for proper ranges. */
    method AddAll(rs: seq<Range>)
      requires Normal(ranges) && forall i :: 0 <= i < |rs| ==> Check(rs[i])
      modifies this
      ensures Normal(ranges)
      ensures forall x :: Has(ranges, x) <==> old(Has(ranges, x)) || Has(rs, x)
    {
      for i := 0 to |rs|
        invariant Normal(ranges)
        invariant forall x :: Has(ranges, x) <==> old(Has(ranges, x)) || Has(rs[..i], x)
      {
        var st := AddRange(rs[i]);
        assert rs[..i + 1] == rs[..i] + [rs[i]];
        forall x ensures Has(rs[..i + 1], x) <==> Has(rs[..i], x) || In(rs[i], x) {
          HasAppend(rs[..i], rs[i], x);
        }
      }
      assert rs[..|rs|] == rs;
    }
  }

  lemma StillBounded(s: seq<Range>, r: Range, t: seq<Range>)
    requires Normal(s) && Check(r) && Normal(t)
    requires forall x :: Has(t, x) ==> Has(s, x) || In(r, x)
    ensures Bounded(s) && Bounded([r]) ==> Bounded(t)
  {
    if Bounded(s) && Bounded([r]) {
      BoundedIffMembers(s);
      BoundedIffMembers(t);
      assert [r][0] == r;
    }
  }

  /** What is left of a range once another that meets it is cut out. */
  lemma LeftOver(pr: Range, r: Range)
    ensures Check(pr) && !Intersects(pr, r) ==> forall x :: In(pr, x) ==> !In(r, x)
    ensures Check(pr) && Intersects(pr, r) ==> forall x :: In(pr, x) && !In(r, x) <==>
      (pr.from < r.from && pr.from <= x <= r.from - 1) || (pr.to > r.to && r.to + 1 <= x <= pr.to)
  {
  }

  /** The final list does not depend on the order of the additions. */
  method AddInAnyOrder(rs: seq<Range>, rs': seq<Range>) returns (a: seq<Range>, b: seq<Range>)
    requires forall i :: 0 <= i < |rs| ==> Check(rs[i])
    requires multiset(rs) == multiset(rs')
    ensures a == b && Normal(a) && forall x :: Has(a, x) <==> Has(rs, x)
  {
    var l := new RangeList();
    var l' := new RangeList();
    forall i | 0 <= i < |rs'| ensures Check(rs'[i]) {
      assert rs'[i] in multiset(rs');
    }
    l.AddAll(rs);
    l'.AddAll(rs');
    forall x ensures Has(rs, x) <==> Has(rs', x) {
      SameElements(rs, rs', x);
      SameElements(rs', rs, x);
    }
    Canonical(l.ranges, l'.ranges);
    a, b := l.ranges, l'.ranges;
  }

  lemma SameElements(rs: seq<Range>, rs': seq<Range>, x: int)
    requires multiset(rs) == multiset(rs')
    ensures Has(rs, x) ==> Has(rs', x)
  {
    if Has(rs, x) {
      var i :| 0 <= i < |rs| && In(rs[i], x);
      assert rs[i] in multiset(rs');
    }
  }
}
