/**
 Search trees whose nodes are records kept elsewhere, ordered by a key of the record.
 */
module SearchTrees {
  import opened Collections

  type Id = nat
  type Keys = map<Id, int>

  datatype Tree = Leaf | Node(left: Tree, id: Id, right: Tree)

  function Members(t: Tree): set<Id> {
    if t == Leaf then {} else Members(t.left) + {t.id} + Members(t.right)
  }

  ghost predicate AllBelow(keys: Keys, t: Tree, k: int) {
    forall x :: x in Members(t) ==> x in keys && keys[x] < k
  }

  ghost predicate AllAbove(keys: Keys, t: Tree, k: int) {
    forall x :: x in Members(t) ==> x in keys && k < keys[x]
  }

  ghost predicate Ordered(keys: Keys, t: Tree) {
    t == Leaf ||
    (t.id in keys && Ordered(keys, t.left) && Ordered(keys, t.right)
     && AllBelow(keys, t.left, keys[t.id]) && AllAbove(keys, t.right, keys[t.id]))
  }

  /** Whatever happens to the keys of other records, a tree stays ordered. */
  lemma {:induction false} OrderedSame(keys: Keys, keys': Keys, t: Tree)
    requires Ordered(keys, t)
    requires forall x :: x in Members(t) && x in keys ==> x in keys' && keys'[x] == keys[x]
    ensures Ordered(keys', t)
    decreases t
  {
    if t != Leaf {
      OrderedSame(keys, keys', t.left);
      OrderedSame(keys, keys', t.right);
    }
  }

  /** No two members have the same key. */
  lemma {:induction false} KeysDiffer(keys: Keys, t: Tree, x: Id, y: Id)
    requires Ordered(keys, t) && x in Members(t) && y in Members(t) && x in keys && y in keys && keys[x] == keys[y]
    ensures x == y
    decreases t
  {
    if x in Members(t.left) && y in Members(t.left) {
      KeysDiffer(keys, t.left, x, y);
    } else if x in Members(t.right) && y in Members(t.right) {
      KeysDiffer(keys, t.right, x, y);
    }
  }

  /** The member with key `k`, on the path that a lookup takes. */
  function Search(keys: Keys, t: Tree, k: int): Option<Id> {
    if t == Leaf || t.id !in keys then None
    else if keys[t.id] == k then Some(t.id)
    else if keys[t.id] > k then Search(keys, t.left, k)
    else Search(keys, t.right, k)
  }

  /** The path misses nothing: a record is found exactly if it is in the tree with that key. */
  lemma {:induction false} SearchFinds(keys: Keys, t: Tree, k: int, x: Id)
    requires Ordered(keys, t)
    ensures x in Members(t) && x in keys && keys[x] == k <==> Search(keys, t, k) == Some(x)
    decreases t
  {
    if t != Leaf {
      SearchFinds(keys, t.left, k, x);
      SearchFinds(keys, t.right, k, x);
    }
  }

  /** Insertion without the balancing: nothing happens if the key is taken. */
  function Inserted(keys: Keys, t: Tree, x: Id): Tree
    requires x in keys
  {
    if t == Leaf then Node(Leaf, x, Leaf)
    else if t.id !in keys || keys[t.id] == keys[x] then t
    else if keys[t.id] > keys[x] then Node(Inserted(keys, t.left, x), t.id, t.right)
    else Node(t.left, t.id, Inserted(keys, t.right, x))
  }

  lemma {:induction false} InsertedMembers(keys: Keys, t: Tree, x: Id)
    requires Ordered(keys, t) && x in keys
    ensures Members(Inserted(keys, t, x)) == Members(t) + (if Search(keys, t, keys[x]).None? then {x} else {})
    decreases t
  {
    if t != Leaf {
      if keys[t.id] > keys[x] { InsertedMembers(keys, t.left, x); }
      else if keys[t.id] < keys[x] { InsertedMembers(keys, t.right, x); }
    }
  }

  lemma {:induction false} InsertedOrdered(keys: Keys, t: Tree, x: Id)
    requires Ordered(keys, t) && x in keys
    ensures Ordered(keys, Inserted(keys, t, x))
    decreases t
  {
    if t != Leaf {
      if keys[t.id] > keys[x] {
        InsertedMembers(keys, t.left, x);
        InsertedOrdered(keys, t.left, x);
      } else if keys[t.id] < keys[x] {
        InsertedMembers(keys, t.right, x);
        InsertedOrdered(keys, t.right, x);
      }
    }
  }

  function Joined(l: Tree, r: Tree): Tree {
    if l == Leaf then r else Node(l.left, l.id, Joined(l.right, r))
  }

  /** Removal of a given node. */
  function Removed(t: Tree, x: Id): Tree {
    if t == Leaf then Leaf
    else if t.id == x then Joined(t.left, t.right)
    else Node(Removed(t.left, x), t.id, Removed(t.right, x))
  }

  lemma {:induction false} JoinedMembers(l: Tree, r: Tree)
    ensures Members(Joined(l, r)) == Members(l) + Members(r)
    decreases l
  {
    if l != Leaf { JoinedMembers(l.right, r); }
  }

  lemma {:induction false} JoinedOrdered(keys: Keys, l: Tree, r: Tree, k: int)
    requires Ordered(keys, l) && Ordered(keys, r) && AllBelow(keys, l, k) && AllAbove(keys, r, k)
    ensures Ordered(keys, Joined(l, r))
    decreases l
  {
    if l != Leaf {
      assert l.id in Members(l) && AllBelow(keys, l.right, k);
      JoinedOrdered(keys, l.right, r, k);
      JoinedMembers(l.right, r);
    }
  }

  lemma {:induction false} RemovedMembers(keys: Keys, t: Tree, x: Id)
    requires Ordered(keys, t)
    ensures Members(Removed(t, x)) == Members(t) - {x}
    decreases t
  {
    if t != Leaf {
      RemovedMembers(keys, t.left, x);
      RemovedMembers(keys, t.right, x);
      JoinedMembers(t.left, t.right);
    }
  }

  lemma {:induction false} RemovedOrdered(keys: Keys, t: Tree, x: Id)
    requires Ordered(keys, t)
    ensures Ordered(keys, Removed(t, x))
    decreases t
  {
    if t != Leaf {
      if t.id == x {
        JoinedOrdered(keys, t.left, t.right, keys[x]);
      } else {
        RemovedMembers(keys, t.left, x);
        RemovedMembers(keys, t.right, x);
        RemovedOrdered(keys, t.left, x);
        RemovedOrdered(keys, t.right, x);
      }
    }
  }
}
