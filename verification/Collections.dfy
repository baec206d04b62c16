/**
 Optional values, sizes of sets and of preimages under maps, and linked lists seen as sequences without repetition.
 */
module Collections {

  datatype Option<T> = None | Some(value: T)

  lemma {:induction false} SubsetSize<T>(a: set<T>, b: set<T>)
    requires a <= b
    ensures |a| <= |b|
    decreases a
  {
    if x :| x in a {
      SubsetSize(a - {x}, b - {x});
    }
  }

  /** The keys that a map sends to a value. */
  function Preimage<K, V(==)>(m: map<K, V>, v: V): set<K> {
    set k | k in m && m[k] == v
  }

  lemma PreimageAdd<K, V>(m: map<K, V>, k: K, v: V, x: V)
    requires k !in m
    ensures |Preimage(m[k := v], x)| == |Preimage(m, x)| + (if x == v then 1 else 0)
  {
    assert Preimage(m[k := v], x) == Preimage(m, x) + (if x == v then {k} else {});
  }

  lemma PreimageRemove<K, V>(m: map<K, V>, k: K, x: V)
    requires k in m
    ensures |Preimage(m - {k}, x)| == |Preimage(m, x)| - (if x == m[k] then 1 else 0)
  {
    assert Preimage(m, x) == Preimage(m - {k}, x) + (if x == m[k] then {k} else {});
  }

  ghost predicate NoDup<T>(q: seq<T>) {
    forall i, j :: 0 <= i < j < |q| ==> q[i] != q[j]
  }

  /** glist_del and TAILQ_REMOVE: the list without an element. */
  function Without<T(==)>(q: seq<T>, x: T): seq<T> {
    if q == [] then [] else if q[0] == x then q[1..] else [q[0]] + Without(q[1..], x)
  }

  lemma {:induction false} WithoutNoDup<T(!new)>(q: seq<T>, x: T)
    requires NoDup(q)
    ensures NoDup(Without(q, x))
    ensures forall y :: y in Without(q, x) <==> y in q && y != x
    ensures |Without(q, x)| == |q| - (if x in q then 1 else 0)
    decreases |q|
  {
    if q != [] {
      assert forall y :: y in q <==> y == q[0] || y in q[1..];
      if q[0] != x {
        var rest := Without(q[1..], x);
        WithoutNoDup(q[1..], x);
        forall j | 0 <= j < |rest| ensures rest[j] != q[0] {
          assert rest[j] in rest;
        }
      }
    }
  }

  lemma HasMember<T>(q: seq<T>)
    requires q != []
    ensures exists x :: x in q
  {
    assert q[0] in q;
  }

  /** `q` lists exactly the members of `m`. */
  ghost predicate Enumerates<T(!new)>(q: seq<T>, m: set<T>) {
    NoDup(q) && forall x :: x in q <==> x in m
  }

  lemma AddOne<T(!new)>(q: seq<T>, m: set<T>, x: T)
    requires Enumerates(q, m) && x !in m
    ensures Enumerates(q + [x], m + {x})
  {
    forall i, j | 0 <= i < j < |q + [x]| ensures (q + [x])[i] != (q + [x])[j] {
      assert (q + [x])[i] in q;
    }
  }

  lemma RemoveOne<T(!new)>(q: seq<T>, m: set<T>, x: T)
    requires Enumerates(q, m)
    ensures Enumerates(Without(q, x), m - {x})
    ensures |Without(q, x)| == |q| - (if x in m then 1 else 0)
  {
    WithoutNoDup(q, x);
  }
}
