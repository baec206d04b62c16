/**
 The index of the entries of one directory.

 Entries live in a tree ordered by a 64-bit key, which is also the cookie handed to
 clients.  The key is the hash of the name, moved on by quadratic probing when it is
 taken.  Deleted entries move to a second tree, so that a client may resume a listing
 from the cookie of an entry that has since gone.
 */
module Dirents {
  import opened Collections
  import opened Widths

  const KEY_SPACE := UINT64
  const MIN_COOKIE: nat := 3
  /** Above this many deleted entries, insertions recycle the smallest one. */
  const DELETED_LIMIT: nat := 65535
  /** The probe counter is a C int that is doubled, so it is good for this many probes. */
  const PROBE_LIMIT: nat := 0x4000_0000

  datatype Dirent = Dirent(name: string, k: nat, p: nat, deleted: bool)

  /** The trees `t` and `c`, as maps from key to entry, and the longest probe so far. */
  datatype Dir = Dir(t: map<nat, Dirent>, c: map<nat, Dirent>, collisions: nat)

  // ---- probing ------------------------------------------------------------

  /** The key tried at step `j`: each step `j` adds `2j` to the key before. */
  function ProbeKey(h: nat, j: nat): (k: nat)
    ensures k < KEY_SPACE
  {
    (h + Offset(j)) % KEY_SPACE
  }

  function Offset(j: nat): nat {
    if j == 0 then 0 else Offset(j - 1) + 2 * j
  }

  lemma ProbeStep(h: nat, j: nat)
    requires j > 0
    ensures (ProbeKey(h, j - 1) + 2 * j) % KEY_SPACE == ProbeKey(h, j)
  {
    ModAdd(h + Offset(j - 1), 2 * j);
  }

  /** The probing is quadratic: step `j` tries the hash plus `j(j + 1)`. */
  lemma {:induction false} ProbeIsQuadratic(h: nat, j: nat)
    ensures Offset(j) == j * (j + 1) && ProbeKey(h, j) == (h + j * (j + 1)) % KEY_SPACE
    decreases j
  {
    if j > 0 {
      ProbeIsQuadratic(h, j - 1);
      assert j * (j + 1) == (j - 1) * j + 2 * j;
    }
  }

  lemma ModAdd(a: nat, b: nat)
    ensures (a % KEY_SPACE + b) % KEY_SPACE == (a + b) % KEY_SPACE
  {
    var q := a / KEY_SPACE;
    assert a + b == a % KEY_SPACE + b + q * KEY_SPACE;
    ModMultiple(a % KEY_SPACE + b, q);
  }

  lemma {:induction false} ModMultiple(a: nat, q: nat)
    ensures (a + q * KEY_SPACE) % KEY_SPACE == a % KEY_SPACE
    decreases q
  {
    if q > 0 {
      ModMultiple(a, q - 1);
      assert a + q * KEY_SPACE == (a + (q - 1) * KEY_SPACE) + KEY_SPACE;
    }
  }

  lemma {:induction false} OffsetsGrow(i: nat, j: nat)
    requires i < j
    ensures Offset(i) < Offset(j)
    decreases j
  {
    if i < j - 1 { OffsetsGrow(i, j - 1); }
  }

  lemma OffsetBound(j: nat)
    requires j < PROBE_LIMIT
    ensures Offset(j) < KEY_SPACE
  {
    ProbeIsQuadratic(0, j);
    MulBound(j, j + 1);
  }

  lemma {:induction false} MulBound(a: nat, b: nat)
    requires a <= PROBE_LIMIT && b <= PROBE_LIMIT
    ensures a * b <= PROBE_LIMIT * b
    decreases b
  {
    if b > 0 {
      MulBound(a, b - 1);
      assert a * b == a * (b - 1) + a;
    }
  }

  /** Within the limit no two steps try the same key. */
  lemma ProbesDiffer(h: nat, i: nat, j: nat)
    requires i < j < PROBE_LIMIT
    ensures ProbeKey(h, i) != ProbeKey(h, j)
  {
    OffsetsGrow(i, j);
    OffsetBound(j);
    if ProbeKey(h, i) == ProbeKey(h, j) {
      SameResidue(h + Offset(i), h + Offset(j));
    }
  }

  lemma SameResidue(x: nat, y: nat)
    requires x % KEY_SPACE == y % KEY_SPACE && x <= y < x + KEY_SPACE
    ensures x == y
  {
  }

  ghost predicate Free(t: map<nat, Dirent>, k: nat) {
    k >= MIN_COOKIE && k !in t
  }

  /** The first `n` probes all fail. */
  ghost predicate AllTaken(t: map<nat, Dirent>, h: nat, n: nat) {
    n == 0 || (AllTaken(t, h, n - 1) && !Free(t, ProbeKey(h, n - 1)))
  }

  lemma {:induction false} TakenAt(t: map<nat, Dirent>, h: nat, n: nat, j: nat)
    requires AllTaken(t, h, n) && j < n
    ensures !Free(t, ProbeKey(h, j))
    decreases n
  {
    if j < n - 1 { TakenAt(t, h, n - 1, j); }
  }

  ghost function ProbedKeys(h: nat, n: nat): set<nat> {
    set i | 0 <= i < n :: ProbeKey(h, i)
  }

  lemma {:induction false} ProbedKeysCount(h: nat, n: nat)
    requires n <= PROBE_LIMIT
    ensures |ProbedKeys(h, n)| == n
    decreases n
  {
    if n > 0 {
      ProbedKeysCount(h, n - 1);
      forall i | 0 <= i < n - 1 ensures ProbeKey(h, i) != ProbeKey(h, n - 1) {
        ProbesDiffer(h, i, n - 1);
      }
      assert ProbedKeys(h, n) == ProbedKeys(h, n - 1) + {ProbeKey(h, n - 1)};
    }
  }

  /** Probing `n` times without finding a free key needs `n` keys taken or reserved. */
  lemma FailuresAreFew(t: map<nat, Dirent>, h: nat, n: nat)
    requires n <= PROBE_LIMIT && AllTaken(t, h, n)
    ensures n <= |t| + MIN_COOKIE
  {
    ProbedKeysCount(h, n);
    forall x | x in ProbedKeys(h, n) ensures x in t.Keys || x < MIN_COOKIE {
      var j :| 0 <= j < n && x == ProbeKey(h, j);
      TakenAt(t, h, n, j);
    }
    TakenOrReserved(t.Keys, ProbedKeys(h, n));
  }

  lemma TakenOrReserved(taken: set<nat>, probed: set<nat>)
    requires forall x :: x in probed ==> x in taken || x < MIN_COOKIE
    ensures |probed| <= |taken| + MIN_COOKIE
  {
    SubsetSize(probed, taken + {0, 1, 2});
    assert |taken + {0, 1, 2}| <= |taken| + |{0, 1, 2}|;
  }

  // ---- the two trees ------------------------------------------------------

  /** avltree_first and avltree_next: the least key above `k`. */
  ghost predicate IsLeastAbove(keys: set<nat>, k: int, m: nat) {
    m in keys && m > k && forall x :: x in keys && x > k ==> m <= x
  }

  lemma {:induction false} LeastAboveExists(keys: set<nat>, k: int)
    requires exists x :: x in keys && x > k
    ensures exists m :: IsLeastAbove(keys, k, m)
    decreases keys
  {
    var x :| x in keys && x > k;
    if !IsLeastAbove(keys, k, x) {
      var y :| y in keys && y > k && y < x;
      assert y in keys - {x};
      LeastAboveExists(keys - {x}, k);
      var m: nat :| IsLeastAbove(keys - {x}, k, m);
      assert m <= y;
      forall z | z in keys && z > k ensures m <= z {
        if z != x { assert z in keys - {x}; }
      }
      assert IsLeastAbove(keys, k, m);
    }
  }

  function LeastAbove(keys: set<nat>, k: int): (r: Option<nat>)
    ensures r.None? <==> forall x :: x in keys ==> x <= k
    ensures r.Some? ==> IsLeastAbove(keys, k, r.value)
  {
    if exists x :: x in keys && x > k then
      LeastAboveExists(keys, k);
      var m :| m in keys && m > k && forall x :: x in keys && x > k ==> m <= x;
      Some(m)
    else None
  }

  /** The deleted tree once an insertion has tried key `k`. */
  function Recycled(c: map<nat, Dirent>, k: nat): map<nat, Dirent> {
    if k in c then c - {k}
    else if |c| > DELETED_LIMIT then
      match LeastAbove(c.Keys, -1)
      case Some(m) => c - {m}
      case None => c
    else c
  }

  /** The deleted tree once the first `j` probes have failed. */
  function Swept(c: map<nat, Dirent>, h: nat, j: nat): map<nat, Dirent> {
    if j == 0 then c
    else
      var before := Swept(c, h, j - 1);
      var k := ProbeKey(h, j - 1);
      if k < MIN_COOKIE then before else Recycled(before, k)
  }

  ghost predicate FirstFree(t: map<nat, Dirent>, h: nat, p: nat) {
    Free(t, ProbeKey(h, p)) && AllTaken(t, h, p)
  }

  /** The directory after a name has been placed at probe `p`. */
  function Inserted(d: Dir, h: nat, name: string, p: nat): Dir {
    var k := ProbeKey(h, p);
    Dir(d.t[k := Dirent(name, k, p, false)], Recycled(Swept(d.c, h, p), k),
        if d.collisions < p then p else d.collisions)
  }

  function SetDeleted(d: Dir, k: nat): Dir
    requires k in d.t
  {
    d.(t := d.t - {k}, c := d.c[k := d.t[k].(deleted := true)])
  }

  function ClearDeleted(d: Dir, k: nat): Dir
    requires k in d.c
  {
    d.(c := d.c - {k}, t := d.t[k := d.c[k].(deleted := false)])
  }

  /** An entry stands where probing its name put it. */
  ghost predicate Placed(hash: string -> nat, v: Dirent, k: nat, collisions: nat) {
    && v.k == k && MIN_COOKIE <= k < KEY_SPACE
    && v.p <= collisions && v.p < PROBE_LIMIT
    && k == ProbeKey(hash(v.name), v.p)
  }

  ghost predicate Valid(hash: string -> nat, d: Dir) {
    && d.t.Keys !! d.c.Keys
    && (forall k :: k in d.t ==> Placed(hash, d.t[k], k, d.collisions) && !d.t[k].deleted)
    && (forall k :: k in d.c ==> Placed(hash, d.c[k], k, d.collisions) && d.c[k].deleted)
  }

  ghost predicate Submap(a: map<nat, Dirent>, b: map<nat, Dirent>) {
    forall x :: x in a ==> x in b && a[x] == b[x]
  }

  lemma RecycledFacts(c: map<nat, Dirent>, k: nat)
    ensures k !in Recycled(c, k) && Submap(Recycled(c, k), c)
    ensures |c| <= DELETED_LIMIT ==> Recycled(c, k).Keys == c.Keys - {k}
  {
  }

  lemma {:induction false} SweptFacts(c: map<nat, Dirent>, h: nat, j: nat)
    ensures Submap(Swept(c, h, j), c)
    ensures forall x :: x in c && x !in Swept(c, h, j) && |c| <= DELETED_LIMIT ==>
              exists i :: 0 <= i < j && x == ProbeKey(h, i) && x >= MIN_COOKIE
    decreases j
  {
    if j > 0 {
      SweptFacts(c, h, j - 1);
      var before := Swept(c, h, j - 1);
      RecycledFacts(before, ProbeKey(h, j - 1));
      assert |before| <= |c| by { assert before.Keys <= c.Keys; SubsetSize(before.Keys, c.Keys); }
    }
  }

  lemma PlaceKeepsValid(hash: string -> nat, d: Dir, v: Dirent, c: map<nat, Dirent>, most: nat)
    requires Valid(hash, d) && v.k !in d.t && v.k !in c && Submap(c, d.c)
    requires d.collisions <= most && Placed(hash, v, v.k, most) && !v.deleted
    ensures Valid(hash, Dir(d.t[v.k := v], c, most))
  {
  }

  /** Every step keeps the trees disjoint and every entry where probing finds it. */
  lemma InsertKeepsValid(hash: string -> nat, d: Dir, name: string, p: nat)
    requires Valid(hash, d) && p < PROBE_LIMIT && Free(d.t, ProbeKey(hash(name), p))
    ensures Valid(hash, Inserted(d, hash(name), name, p))
  {
    var h := hash(name);
    var k := ProbeKey(h, p);
    var swept := Swept(d.c, h, p);
    SweptFacts(d.c, h, p);
    RecycledFacts(swept, k);
    var most := if d.collisions < p then p else d.collisions;
    PlaceKeepsValid(hash, d, Dirent(name, k, p, false), Recycled(swept, k), most);
  }

  lemma ShrinkKeepsValid(hash: string -> nat, d: Dir, c: map<nat, Dirent>)
    requires Valid(hash, d) && Submap(c, d.c)
    ensures Valid(hash, d.(c := c))
  {
  }

  lemma SetDeletedKeepsValid(hash: string -> nat, d: Dir, k: nat)
    requires Valid(hash, d) && k in d.t
    ensures Valid(hash, SetDeleted(d, k))
  {
  }

  lemma ClearDeletedKeepsValid(hash: string -> nat, d: Dir, k: nat)
    requires Valid(hash, d) && k in d.c
    ensures Valid(hash, ClearDeleted(d, k))
  {
  }

  lemma SweepLosesNothing(t: map<nat, Dirent>, c: map<nat, Dirent>, h: nat, p: nat)
    requires |c| <= DELETED_LIMIT && t.Keys !! c.Keys && AllTaken(t, h, p)
    ensures Swept(c, h, p).Keys == c.Keys
  {
    SweptFacts(c, h, p);
    forall x | x in c ensures x in Swept(c, h, p) {
      if i :| 0 <= i < p && x == ProbeKey(h, i) && x >= MIN_COOKIE {
        TakenAt(t, h, p, i);
      }
    }
  }

  /** While the deleted tree is not over its limit, no cookie is ever forgotten. */
  lemma InsertKeepsCookies(d: Dir, h: nat, name: string, p: nat)
    requires |d.c| <= DELETED_LIMIT && FirstFree(d.t, h, p) && d.t.Keys !! d.c.Keys
    ensures Cookies(Inserted(d, h, name, p)) == Cookies(d) + {ProbeKey(h, p)}
  {
    SweepLosesNothing(d.t, d.c, h, p);
    var c := Swept(d.c, h, p);
    assert |c| == |c.Keys| == |d.c.Keys|;
    RecycledFacts(c, ProbeKey(h, p));
  }

  /** An insertion adds the one entry, active and at a free key, and changes no other active entry. */
  lemma InsertAddsOne(d: Dir, h: nat, name: string, p: nat)
    requires FirstFree(d.t, h, p)
    ensures var d' := Inserted(d, h, name, p); var k := ProbeKey(h, p);
      && d'.t.Keys == d.t.Keys + {k} && k !in d.t && d'.t[k] == Dirent(name, k, p, false)
      && (forall x :: x in d.t ==> d'.t[x] == d.t[x])
      && d.collisions <= d'.collisions && p <= d'.collisions
  {
  }

  /** A deleted entry is not active, and undeleting it restores the directory. */
  lemma UndeleteRestores(hash: string -> nat, d: Dir, k: nat)
    requires Valid(hash, d) && k in d.t
    ensures var d' := SetDeleted(d, k);
      d'.t == d.t - {k} && k in d'.c && d'.c - {k} == d.c && ClearDeleted(d', k) == d
  {
    assert k !in d.c;
    assert ClearDeleted(SetDeleted(d, k), k).t == d.t;
  }

  /** Above the limit an attempt at a new key forgets the smallest deleted entry and no other. */
  lemma RecyclesSmallest(c: map<nat, Dirent>, k: nat, m: nat)
    requires |c| > DELETED_LIMIT && k !in c && m in c && forall x :: x in c ==> m <= x
    ensures Recycled(c, k) == c - {m}
  {
  }

  /** The cookies from which a listing can resume. */
  function Cookies(d: Dir): set<nat> {
    d.t.Keys + d.c.Keys
  }

  // ---- listing ------------------------------------------------------------

  /**
   `batch` is what one READDIR returns after `cookie`: every key above the cookie up to the
   last one returned, in order, and `eod` if none is left above.
   */
  ghost predicate Listed(keys: set<nat>, cookie: nat, batch: seq<nat>, eod: bool) {
    var last := NewCookie(cookie, batch);
    && Ascending(batch)
    && (forall i :: 0 <= i < |batch| ==> batch[i] in keys && cookie < batch[i])
    && (forall k :: k in keys && cookie < k <= last ==> k in batch)
    && (eod <==> forall k :: k in keys ==> k <= last)
  }

  /** The batch holds exactly the keys after the cookie up to `pos`. */
  ghost predicate ListedUpTo(keys: set<nat>, cookie: nat, batch: seq<nat>, pos: nat) {
    && Ascending(batch) && cookie <= pos
    && (forall i :: 0 <= i < |batch| ==> batch[i] in keys && cookie < batch[i] <= pos)
    && (forall k :: k in keys && cookie < k <= pos ==> k in batch)
  }

  /** The next key is passed over or appended. */
  lemma ListedOneMore(t: set<nat>, passed: set<nat>, cookie: nat, batch: seq<nat>, pos: nat, k: nat, stale: bool)
    requires ListedUpTo(t - passed, cookie, batch, pos) && IsLeastAbove(t, pos, k) && k !in passed
    ensures stale ==> ListedUpTo(t - (passed + {k}), cookie, batch, k)
    ensures !stale ==> ListedUpTo(t - passed, cookie, batch + [k], k)
  {
    assert forall x :: x in batch + [k] <==> x in batch || x == k;
  }

  lemma ListedAtEnd(keys: set<nat>, cookie: nat, batch: seq<nat>, pos: nat, eod: bool)
    requires ListedUpTo(keys, cookie, batch, pos)
    requires if eod then forall k :: k in keys ==> k <= pos else exists k :: k in keys && k > pos
    ensures Listed(keys, cookie, batch, eod)
  {
    var last := NewCookie(cookie, batch);
    forall k | k in keys && k <= pos ensures k <= last {
      if cookie < k {
        var i :| 0 <= i < |batch| && batch[i] == k;
        assert i < |batch| - 1 ==> batch[i] < batch[|batch| - 1];
      }
    }
    assert last <= pos;
  }

  /** What an answer passes over: the stale entries with nothing left out between them and the cookie. */
  ghost predicate PassedOver(keys: set<nat>, gone: set<nat>, cookie: nat, batch: seq<nat>, k: nat) {
    k in keys && k in gone && cookie < k && forall x :: x in keys - gone && cookie < x < k ==> x in batch
  }

  /** Stale entries are passed over, each of them and nothing else. */
  ghost predicate SkipsStale(keys: set<nat>, gone: set<nat>, cookie: nat, batch: seq<nat>, passed: set<nat>) {
    && (forall k :: k in batch ==> k !in gone)
    && (forall k :: k in passed <==> PassedOver(keys, gone, cookie, batch, k))
  }

  lemma SkippedUpTo(keys: set<nat>, gone: set<nat>, cookie: nat, batch: seq<nat>, passed: set<nat>, pos: nat,
                    node: Option<nat>)
    requires ListedUpTo(keys - passed, cookie, batch, pos)
    requires forall k :: k in passed <==> k in keys && k in gone && cookie < k <= pos
    requires node.Some? ==> IsLeastAbove(keys, pos, node.value) && node.value !in gone
    requires node.None? ==> forall k :: k in keys ==> k <= pos
    ensures SkipsStale(keys, gone, cookie, batch, passed)
  {
    forall k | k in keys && k in gone && cookie < k
      ensures k in passed <==> PassedOver(keys, gone, cookie, batch, k)
    {
      if k > pos {
        assert node.value in keys - gone && cookie < node.value < k && node.value !in batch;
      }
    }
  }

  ghost predicate Ascending(s: seq<nat>) {
    forall i, j :: 0 <= i < j < |s| ==> s[i] < s[j]
  }

  /**
   What happens to a directory and to a client that lists it: changes, the loss of trust in
   the cached content, its rebuilding by the next call of any client, and calls of this client
   that are answered or refused.  `gone` are the entries an answer passed over because their
   object has turned out to be stale, which costs the trust too.
   */
  datatype Event =
    | Changed(after: Dir)
    | Distrusted
    | Rebuilt(after: Dir)
    | Answered(gone: set<nat>, batch: seq<nat>, eod: bool)
    | Refused

  function NewCookie(cookie: nat, batch: seq<nat>): nat {
    if batch == [] then cookie else batch[|batch| - 1]
  }

  /** A cookie is refused if it is not known, or if its entry is gone and nothing active follows it. */
  ghost predicate Refuses(d: Dir, cookie: nat) {
    0 < cookie && (cookie !in Cookies(d) || (cookie !in d.t && NoneAhead(d, cookie)))
  }

  ghost predicate NoneAhead(d: Dir, cookie: nat) {
    forall k :: k in d.t ==> k <= cookie
  }

  /**
   A listing resumed each time from the last cookie received, with any changes in between.
   Calls work on trusted content only; without trust both trees are rebuilt first.
   */
  ghost predicate Listing(d: Dir, trusted: bool, cookie: nat, events: seq<Event>)
    decreases |events|
  {
    events == [] ||
    match events[0]
    case Changed(d') => Listing(d', trusted, cookie, events[1..])
    case Distrusted => Listing(d, false, cookie, events[1..])
    case Rebuilt(d') => !trusted && d'.c == map[] && Listing(d', true, cookie, events[1..])
    case Answered(gone, batch, eod) =>
      && trusted && !Refuses(d, cookie) && Listed(d.t.Keys - gone, cookie, batch, eod)
      && Listing(d, gone == {}, NewCookie(cookie, batch), events[1..])
    case Refused => trusted && Refuses(d, cookie) && Listing(d, trusted, cookie, events[1..])
  }

  function Output(events: seq<Event>): seq<nat> {
    if events == [] then []
    else if events[0].Answered? then events[0].batch + Output(events[1..])
    else Output(events[1..])
  }

  /** The entry at `k` is active from first to last, and its object is there. */
  ghost predicate StaysActive(d: Dir, events: seq<Event>, k: nat) {
    && k in d.t
    && (forall i :: 0 <= i < |events| && (events[i].Changed? || events[i].Rebuilt?) ==> k in events[i].after.t)
    && (forall i :: 0 <= i < |events| && events[i].Answered? ==> k !in events[i].gone)
  }

  /** Each refusal came when nothing active was left ahead. */
  ghost predicate RefusedAtEnd(d: Dir, cookie: nat, events: seq<Event>)
    decreases |events|
  {
    events == [] ||
    match events[0]
    case Changed(d') => RefusedAtEnd(d', cookie, events[1..])
    case Distrusted => RefusedAtEnd(d, cookie, events[1..])
    case Rebuilt(d') => RefusedAtEnd(d', cookie, events[1..])
    case Answered(_, batch, _) => RefusedAtEnd(d, NewCookie(cookie, batch), events[1..])
    case Refused => NoneAhead(d, cookie) && RefusedAtEnd(d, cookie, events[1..])
  }

  /** The client stops at the end of the directory, or because it is refused. */
  ghost predicate Ends(e: Event) {
    e == Refused || (e.Answered? && e.eod)
  }

  /** Every number is above `low`. */
  ghost predicate AllAbove(s: seq<nat>, low: int) {
    forall i :: 0 <= i < |s| ==> low < s[i]
  }

  lemma OneAfterOther(a: seq<nat>, b: seq<nat>, low: nat)
    requires Ascending(a) && Ascending(b) && AllAbove(a, low) && AllAbove(b, NewCookie(low, a))
    ensures Ascending(a + b) && AllAbove(a + b, low)
  {
    forall i, j | 0 <= i < j < |a + b| ensures (a + b)[i] < (a + b)[j] {
      if i < |a| <= j { assert a[i] <= NewCookie(low, a) < b[j - |a|]; }
    }
  }

  lemma {:induction false} ListingInOrder(d: Dir, trusted: bool, cookie: nat, events: seq<Event>)
    requires Listing(d, trusted, cookie, events)
    ensures Ascending(Output(events)) && AllAbove(Output(events), cookie)
    decreases |events|
  {
    if events != [] {
      match events[0]
      case Changed(d') => ListingInOrder(d', trusted, cookie, events[1..]);
      case Distrusted => ListingInOrder(d, false, cookie, events[1..]);
      case Rebuilt(d') => ListingInOrder(d', true, cookie, events[1..]);
      case Answered(gone, batch, _) =>
        ListingInOrder(d, gone == {}, NewCookie(cookie, batch), events[1..]);
        OneAfterOther(batch, Output(events[1..]), cookie);
      case Refused => ListingInOrder(d, trusted, cookie, events[1..]);
    }
  }

  lemma StillActive(d: Dir, events: seq<Event>, k: nat)
    requires events != [] && StaysActive(d, events, k)
    ensures StaysActive(if events[0].Changed? || events[0].Rebuilt? then events[0].after else d, events[1..], k)
    ensures events[0].Answered? ==> k !in events[0].gone
  {
    var rest := events[1..];
    assert forall i :: 0 <= i < |rest| ==> rest[i] == events[i + 1];
  }

  lemma {:induction false} ListingCovers(d: Dir, trusted: bool, cookie: nat, events: seq<Event>, k: nat)
    requires Listing(d, trusted, cookie, events) && StaysActive(d, events, k) && cookie < k
    requires events != [] && Ends(events[|events| - 1])
    requires events[|events| - 1] == Refused ==> RefusedAtEnd(d, cookie, events)
    ensures k in Output(events)
    decreases |events|
  {
    var rest := events[1..];
    StillActive(d, events, k);
    match events[0]
    case Changed(d') => ListingCovers(d', trusted, cookie, rest, k);
    case Distrusted => ListingCovers(d, false, cookie, rest, k);
    case Rebuilt(d') => ListingCovers(d', true, cookie, rest, k);
    case Answered(gone, batch, eod) =>
      assert k in d.t.Keys - gone;
      if NewCookie(cookie, batch) < k {
        assert |events| > 1;
        ListingCovers(d, gone == {}, NewCookie(cookie, batch), rest, k);
      }
    case Refused =>
      assert |events| > 1;
      ListingCovers(d, trusted, cookie, rest, k);
  }

  /**
   However the directory changes meanwhile, a listing returns strictly increasing
   cookies, and one that reaches the end has returned every entry that stayed active,
   so exactly once.
   */
  lemma ListingIsComplete(d: Dir, trusted: bool, events: seq<Event>)
    requires Listing(d, trusted, 0, events)
    ensures Ascending(Output(events))
    ensures events != [] && events[|events| - 1].Answered? && events[|events| - 1].eod ==>
      forall k :: k > 0 && StaysActive(d, events, k) ==> k in Output(events)
  {
    ListingInOrder(d, trusted, 0, events);
    if events != [] && events[|events| - 1].Answered? && events[|events| - 1].eod {
      forall k | k > 0 && StaysActive(d, events, k) ensures k in Output(events) {
        ListingCovers(d, trusted, 0, events, k);
      }
    }
  }

  // ---- how long a cookie stays good ---------------------------------------

  datatype Change = Add(name: string, p: nat) | Delete(k: nat) | Undelete(k: nat)

  ghost predicate Can(hash: string -> nat, d: Dir, e: Change) {
    match e
    case Add(name, p) => p < PROBE_LIMIT && FirstFree(d.t, hash(name), p)
    case Delete(k) => k in d.t
    case Undelete(k) => k in d.c
  }

  ghost function After(hash: string -> nat, d: Dir, e: Change): Dir
    requires Can(hash, d, e)
  {
    match e
    case Add(name, p) => Inserted(d, hash(name), name, p)
    case Delete(k) => SetDeleted(d, k)
    case Undelete(k) => ClearDeleted(d, k)
  }

  /** An insertion recycles nothing while the deleted tree is not over its limit. */
  ghost predicate WithinLimit(d: Dir, e: Change) {
    e.Add? ==> |d.c| <= DELETED_LIMIT
  }

  lemma ChangeKeepsCookies(hash: string -> nat, d: Dir, e: Change)
    requires Valid(hash, d) && Can(hash, d, e) && WithinLimit(d, e)
    ensures Valid(hash, After(hash, d, e)) && Cookies(d) <= Cookies(After(hash, d, e))
  {
    match e
    case Add(name, p) =>
      InsertKeepsValid(hash, d, name, p);
      InsertKeepsCookies(d, hash(name), name, p);
    case Delete(k) => SetDeletedKeepsValid(hash, d, k);
    case Undelete(k) => ClearDeletedKeepsValid(hash, d, k);
  }

  /** A history of changes, each insertion within the limit. */
  ghost predicate CanAll(hash: string -> nat, d: Dir, changes: seq<Change>)
    decreases |changes|
  {
    changes == [] ||
    (Can(hash, d, changes[0]) && WithinLimit(d, changes[0]) && CanAll(hash, After(hash, d, changes[0]), changes[1..]))
  }

  ghost function AfterAll(hash: string -> nat, d: Dir, changes: seq<Change>): Dir
    requires CanAll(hash, d, changes)
    decreases |changes|
  {
    if changes == [] then d else AfterAll(hash, After(hash, d, changes[0]), changes[1..])
  }

  /**
   Through any history in which no insertion finds the deleted tree over its limit, every
   cookie ever given out stays good.
   */
  lemma {:induction false} CookiesSurvive(hash: string -> nat, d: Dir, changes: seq<Change>)
    requires Valid(hash, d) && CanAll(hash, d, changes)
    ensures Valid(hash, AfterAll(hash, d, changes))
    ensures Cookies(d) <= Cookies(AfterAll(hash, d, changes))
    decreases |changes|
  {
    if changes != [] {
      ChangeKeepsCookies(hash, d, changes[0]);
      CookiesSurvive(hash, After(hash, d, changes[0]), changes[1..]);
    }
  }

  // ---- listing a directory that the operations change -----------------------

  ghost predicate Changes(hash: string -> nat, d: Dir, e: Change, d': Dir) {
    Can(hash, d, e) && WithinLimit(d, e) && d' == After(hash, d, e)
  }

  /** Every change of the directory is one of the operations, within the limit. */
  ghost predicate Legal(hash: string -> nat, d: Dir, events: seq<Event>)
    decreases |events|
  {
    events == [] ||
    match events[0]
    case Changed(d') => (exists e :: Changes(hash, d, e, d')) && Legal(hash, d', events[1..])
    case Rebuilt(d') => Valid(hash, d') && Legal(hash, d', events[1..])
    case _ => Legal(hash, d, events[1..])
  }

  /** The cookie of a client is 0 or was once given out, and has not been forgotten. */
  ghost predicate Known(d: Dir, cookie: nat) {
    cookie == 0 || cookie in Cookies(d)
  }

  /** No rebuilding forgets the cookie that the client has then. */
  ghost predicate RebuildsKeep(cookie: nat, events: seq<Event>)
    decreases |events|
  {
    events == [] ||
    match events[0]
    case Rebuilt(d') => Known(d', cookie) && RebuildsKeep(cookie, events[1..])
    case Answered(_, batch, _) => RebuildsKeep(NewCookie(cookie, batch), events[1..])
    case _ => RebuildsKeep(cookie, events[1..])
  }

  /** Rebuilt trees know active entries only, so that a cookie is refused exactly if its entry is not active. */
  lemma RebuiltRefusesIff(d: Dir, cookie: nat)
    requires d.c == map[]
    ensures Refuses(d, cookie) <==> !Known(d, cookie)
    ensures Refuses(d, cookie) <==> 0 < cookie && cookie !in d.t
  {
  }

  /** While no entry is passed over and nothing else costs the trust, nothing is rebuilt. */
  lemma {:induction false} TrustKeepsCookies(d: Dir, cookie: nat, events: seq<Event>)
    requires Listing(d, true, cookie, events)
    requires forall i :: 0 <= i < |events| ==> events[i] != Distrusted && (events[i].Answered? ==> events[i].gone == {})
    ensures RebuildsKeep(cookie, events)
    decreases |events|
  {
    if events != [] {
      var rest := events[1..];
      assert forall i :: 0 <= i < |rest| ==> rest[i] == events[i + 1];
      assert events[0] != Distrusted;
      match events[0]
      case Changed(d') => TrustKeepsCookies(d', cookie, rest);
      case Answered(_, batch, _) => TrustKeepsCookies(d, NewCookie(cookie, batch), rest);
      case Refused => TrustKeepsCookies(d, cookie, rest);
    }
  }

  /** A call with an active entry still ahead of its cookie is answered, unless a rebuilding forgot the cookie. */
  lemma {:induction false} RefusedOnlyAtEnd(hash: string -> nat, d: Dir, trusted: bool, cookie: nat, events: seq<Event>)
    requires Valid(hash, d) && Known(d, cookie) && Listing(d, trusted, cookie, events) && Legal(hash, d, events)
    requires RebuildsKeep(cookie, events)
    ensures RefusedAtEnd(d, cookie, events)
    decreases |events|
  {
    if events != [] {
      match events[0]
      case Changed(d') =>
        var e :| Changes(hash, d, e, d');
        ChangeKeepsCookies(hash, d, e);
        RefusedOnlyAtEnd(hash, d', trusted, cookie, events[1..]);
      case Distrusted => RefusedOnlyAtEnd(hash, d, false, cookie, events[1..]);
      case Rebuilt(d') => RefusedOnlyAtEnd(hash, d', true, cookie, events[1..]);
      case Answered(gone, batch, _) =>
        RefusedOnlyAtEnd(hash, d, gone == {}, NewCookie(cookie, batch), events[1..]);
      case Refused => RefusedOnlyAtEnd(hash, d, trusted, cookie, events[1..]);
    }
  }

  /**
   In every run of insertions, deletions and READDIR calls within the limit, however they
   interleave, in which no rebuilding forgets the cookie of the client, the cookies returned
   ascend, and a client that stops at the end of the directory or because it is refused has
   every entry that stayed active, exactly once.
   */
  lemma EveryListingCompletes(hash: string -> nat, d: Dir, trusted: bool, events: seq<Event>)
    requires Valid(hash, d) && Listing(d, trusted, 0, events) && Legal(hash, d, events) && RebuildsKeep(0, events)
    ensures Ascending(Output(events)) && RefusedAtEnd(d, 0, events)
    ensures events != [] && Ends(events[|events| - 1]) ==>
      forall k :: k > 0 && StaysActive(d, events, k) ==> k in Output(events)
  {
    ListingInOrder(d, trusted, 0, events);
    RefusedOnlyAtEnd(hash, d, trusted, 0, events);
    if events != [] && Ends(events[|events| - 1]) {
      forall k | k > 0 && StaysActive(d, events, k) ensures k in Output(events) {
        ListingCovers(d, trusted, 0, events, k);
      }
    }
  }

  /** The condition is exact: a client whose cookie a rebuilding forgets is refused, whatever lies ahead. */
  lemma ForgottenIsRefused(d: Dir, cookie: nat, d': Dir)
    requires d'.c == map[] && !Known(d', cookie)
    ensures Listing(d, false, cookie, [Rebuilt(d'), Refused])
    ensures RefusedAtEnd(d, cookie, [Rebuilt(d'), Refused]) <==> NoneAhead(d', cookie)
  {
    assert [Rebuilt(d'), Refused][1..] == [Refused] && [Refused][1..] == [];
  }

  // ---- a listing that misses an entry ---------------------------------------

  function ExampleHash(name: string): nat {
    if name == "a" then 10 else 20
  }

  function ExampleEntry(name: string): Dirent {
    Dirent(name, ExampleHash(name), 0, false)
  }

  function TwoEntries(): Dir {
    Dir(map[10 := ExampleEntry("a"), 20 := ExampleEntry("b")], map[], 0)
  }

  function OneEntry(): Dir {
    Dir(map[20 := ExampleEntry("b")], map[], 0)
  }

  lemma ExampleValid()
    ensures Valid(ExampleHash, TwoEntries()) && Valid(ExampleHash, OneEntry())
  {
  }

  /** A run that lists, is legal and returns nothing. */
  ghost predicate Silent(d: Dir, trusted: bool, cookie: nat, events: seq<Event>) {
    Listing(d, trusted, cookie, events) && Legal(ExampleHash, d, events) && Output(events) == []
  }

  lemma SilentRefusal(d: Dir, cookie: nat)
    requires Refuses(d, cookie)
    ensures Silent(d, true, cookie, [Refused])
  {
    assert [Refused][1..] == [];
  }

  lemma SilentStep(d: Dir, trusted: bool, e: Event, d': Dir, trusted': bool, cookie: nat, rest: seq<Event>)
    requires Silent(d', trusted', cookie, rest)
    requires || (e == Changed(d') && trusted' == trusted && exists x :: Changes(ExampleHash, d, x, d'))
             || (e == Distrusted && d' == d && !trusted')
             || (e == Rebuilt(d') && !trusted && trusted' && d'.c == map[] && Valid(ExampleHash, d'))
    ensures Silent(d, trusted, cookie, [e] + rest)
  {
    assert ([e] + rest)[1..] == rest;
  }

  /** What happens after the client has stopped at `a`. */
  function ExampleRest(): seq<Event> {
    [Changed(SetDeleted(TwoEntries(), 10))] + ([Distrusted] + ([Rebuilt(OneEntry())] + [Refused]))
  }

  lemma ExampleRestHappens()
    ensures Silent(TwoEntries(), true, 10, ExampleRest())
  {
    var d1 := SetDeleted(TwoEntries(), 10);
    ExampleValid();
    assert Changes(ExampleHash, TwoEntries(), Delete(10), d1);
    SilentRefusal(OneEntry(), 10);
    SilentStep(d1, false, Rebuilt(OneEntry()), OneEntry(), true, 10, [Refused]);
    SilentStep(d1, true, Distrusted, d1, false, 10, [Rebuilt(OneEntry())] + [Refused]);
    SilentStep(TwoEntries(), true, Changed(d1), d1, true, 10, [Distrusted] + ([Rebuilt(OneEntry())] + [Refused]));
  }

  /**
   A client stops at `a`, which is then deleted; the trust is lost and both trees are
   rebuilt; the client is refused and never gets `b`, which has been active all the time.
   */
  lemma RebuildExample()
    ensures var events := [Answered({}, [10], false)] + ExampleRest();
      && Valid(ExampleHash, TwoEntries()) && Listing(TwoEntries(), true, 0, events)
      && Legal(ExampleHash, TwoEntries(), events)
      && StaysActive(TwoEntries(), events, 20) && 20 !in Output(events)
  {
    var events := [Answered({}, [10], false)] + ExampleRest();
    ExampleValid();
    ExampleRestHappens();
    ExampleListed();
    ExampleActive();
    assert events[1..] == ExampleRest();
  }

  lemma ExampleListed()
    ensures Listed(TwoEntries().t.Keys - {}, 0, [10], false) && NewCookie(0, [10]) == 10
  {
    assert 20 in TwoEntries().t.Keys - {};
  }

  lemma ExampleActive()
    ensures StaysActive(TwoEntries(), [Answered({}, [10], false)] + ExampleRest(), 20)
  {
    var events := [Answered({}, [10], false)] + ExampleRest();
    assert events == [events[0], events[1], events[2], events[3], events[4]];
    assert 20 in SetDeleted(TwoEntries(), 10).t && 20 in OneEntry().t;
  }

  // ---- the operations -----------------------------------------------------

  datatype Status = Ok | BadCookie | PopulateError

  method FirstKey(h: nat) returns (k: nat)
    ensures k == ProbeKey(h, 0)
  {
    k := h % KEY_SPACE;
  }

  /** One step of the probing loops. */
  method NextKey(k: nat, j: nat, ghost h: nat) returns (next: nat)
    requires k == ProbeKey(h, if j == 0 then 0 else j - 1)
    ensures next == ProbeKey(h, j)
  {
    if j > 0 { ProbeStep(h, j); }
    next := (k + 2 * j) % KEY_SPACE;
  }

  /** Some active entry has the name. */
  predicate Has(t: map<nat, Dirent>, name: string) {
    exists k :: k in t && t[k].name == name
  }

  /** An insertion into a directory without deleted entries recycles nothing. */
  lemma FreshInsert(d: Dir, h: nat, name: string, p: nat)
    requires d.c == map[] && FirstFree(d.t, h, p)
    ensures Inserted(d, h, name, p).c == map[]
    ensures forall n :: Has(Inserted(d, h, name, p).t, n) <==> Has(d.t, n) || n == name
  {
    SweptFacts(d.c, h, p);
    var swept := Swept(d.c, h, p);
    RecycledFacts(swept, ProbeKey(h, p));
    assert forall x :: x !in Recycled(swept, ProbeKey(h, p));
    var t' := Inserted(d, h, name, p).t;
    assert t'[ProbeKey(h, p)].name == name;
    forall n | Has(d.t, n) ensures Has(t', n) {
      var k :| k in d.t && d.t[k].name == n;
      assert t'[k].name == n;
    }
  }

  class DirIndex {
    var t: map<nat, Dirent>
    var c: map<nat, Dirent>
    var collisions: nat
    var trusted: bool
    const hash: string -> nat

    function State(): Dir
      reads this
    {
      Dir(t, c, collisions)
    }

    ghost predicate Inv()
      reads this
    {
      Valid(hash, State())
    }

    constructor (hash: string -> nat)
      ensures Inv() && trusted && State() == Dir(map[], map[], 0) && this.hash == hash
    {
      t, c, collisions, trusted := map[], map[], 0, true;
      this.hash := hash;
    }

    /** cache_inode_avl_insert_impl: one attempt, which may recycle a deleted entry even if it fails. */
    method InsertImpl(v: Dirent, j: nat) returns (code: int)
      modifies `t, `c, `collisions
      ensures c == Recycled(old(c), v.k)
      ensures v.k in old(t) ==> code == -1 && t == old(t) && collisions == old(collisions)
      ensures v.k !in old(t) ==> code == 0 && t == old(t)[v.k := v.(p := j)]
                                 && collisions == if old(collisions) < j then j else old(collisions)
    {
      c := Recycled(c, v.k);
      if v.k in t {
        code := -1;
      } else {
        t := t[v.k := v.(p := j)];
        code := 0;
        if collisions < j {
          collisions := j;
        }
      }
    }

    /**
     cache_inode_avl_qp_insert by quadratic probing.  The entry goes to the first free
     key; there always is one unless the directory holds about 2^30 entries.
     */
    method QpInsert(name: string) returns (code: int, p: nat)
      requires Inv()
      modifies `t, `c, `collisions
      ensures Inv()
      ensures code == 0 ==> FirstFree(old(t), hash(name), p)
                            && State() == Inserted(old(State()), hash(name), name, p)
      ensures code != 0 ==> t == old(t) && collisions == old(collisions) && |t| + MIN_COOKIE >= PROBE_LIMIT
      ensures code != 0 ==> Submap(c, old(c))
    {
      var h := hash(name);
      var k := FirstKey(h);
      var j := 0;
      while j < PROBE_LIMIT
        invariant j <= PROBE_LIMIT
        invariant k == ProbeKey(h, if j == 0 then 0 else j - 1)
        invariant AllTaken(t, h, j)
        invariant t == old(t) && collisions == old(collisions) && c == Swept(old(c), h, j)
      {
        k := NextKey(k, j, h);
        if k >= MIN_COOKIE {
          code := InsertImpl(Dirent(name, k, 0, false), j);
          if code >= 0 {
            p := j;
            InsertKeepsValid(hash, old(State()), name, p);
            return;
          }
        }
        j := j + 1;
      }
      code, p := -1, 0;
      SweptFacts(old(c), h, j);
      ShrinkKeepsValid(hash, old(State()), c);
      FailuresAreFew(t, h, j);
    }

    /** avl_dirent_set_deleted: the entry keeps its key, so its cookie still marks a place. */
    method MarkDeleted(k: nat)
      requires Inv() && k in t
      modifies `t, `c
      ensures Inv() && State() == SetDeleted(old(State()), k)
      ensures Cookies(State()) == old(Cookies(State()))
    {
      SetDeletedKeepsValid(hash, State(), k);
      c := c[k := t[k].(deleted := true)];
      t := t - {k};
    }

    /** avl_dirent_clear_deleted; its second assertion cannot fail, the trees being disjoint. */
    method UnmarkDeleted(k: nat)
      requires Inv() && k in c
      modifies `t, `c
      ensures Inv() && State() == ClearDeleted(old(State()), k)
      ensures Cookies(State()) == old(Cookies(State()))
    {
      ClearDeletedKeepsValid(hash, State(), k);
      assert k !in t;
      t := t[k := c[k].(deleted := false)];
      c := c - {k};
    }

    /** cache_inode_avl_lookup_k. */
    method LookupK(k: nat, nextActive: bool) returns (r: Option<Dirent>)
      requires Inv()
      ensures k !in Cookies(State()) ==> r == None
      ensures k in Cookies(State()) && (nextActive || k in c) ==>
        match LeastAbove(t.Keys, k) { case None => r == None case Some(m) => r == Some(t[m]) }
      ensures k in t && !nextActive ==> r == Some(t[k])
    {
      if k in t {
        if !nextActive {
          return Some(t[k]);
        }
        var next := LeastAbove(t.Keys, k);
        return if next.Some? then Some(t[next.value]) else None;
      }
      if k in c {
        // the least upper bound of k, which is not itself active
        var sup := LeastAbove(t.Keys, k);
        return if sup.Some? then Some(t[sup.value]) else None;
      }
      return None;
    }

    /**
     cache_inode_avl_qp_lookup_s.  It finds a name exactly when an active entry with it
     was placed by one of the first `maxj` probes; with `maxj` above the longest probe,
     exactly when there is one at all, whatever has been deleted in between.
     */
    method QpLookup(name: string, maxj: nat) returns (r: Option<Dirent>)
      requires Inv() && maxj <= PROBE_LIMIT
      ensures r.Some? ==> r.value.k in t && t[r.value.k] == r.value && r.value.name == name
      ensures r.Some? <==> exists k :: k in t && t[k].name == name && t[k].p < maxj
      ensures maxj > collisions ==> (r.Some? <==> exists k :: k in t && t[k].name == name)
    {
      var h := hash(name);
      var k := FirstKey(h);
      var j := 0;
      while j < maxj
        invariant j <= maxj
        invariant k == ProbeKey(h, if j == 0 then 0 else j - 1)
        invariant forall i :: 0 <= i < j && ProbeKey(h, i) in t ==> t[ProbeKey(h, i)].name != name
      {
        k := NextKey(k, j, h);
        if k in t && t[k].name == name {
          assert Placed(hash, t[k], k, collisions);
          PlacedAt(h, t[k].p, j);
          return Some(t[k]);
        }
        j := j + 1;
      }
      r := None;
      forall x | x in t && t[x].name == name ensures t[x].p >= maxj {
        assert Placed(hash, t[x], x, collisions);
      }
    }

    /** The part of cache_inode_readdir_populate that inserts one name into trees just emptied. */
    method AddFresh(name: string) returns (ok: bool)
      requires Inv() && c == map[]
      modifies `t, `c, `collisions
      ensures Inv() && c == map[]
      ensures forall n :: Has(t, n) <==> Has(old(t), n) || (ok && n == name)
      ensures !ok ==> |t| + MIN_COOKIE >= PROBE_LIMIT
    {
      var code, p := QpInsert(name);
      ok := code == 0;
      if ok {
        FreshInsert(old(State()), hash(name), name, p);
      }
    }

    /**
     cache_inode_readdir_populate: both trees are emptied and the names that the file system
     lists are inserted again.  Deleted entries are forgotten with their cookies.
     */
    method Populate(names: seq<string>) returns (ok: bool)
      requires Inv()
      modifies this
      ensures Inv() && trusted && c == map[]
      ensures ok ==> forall n :: Has(t, n) <==> n in names
      ensures !ok ==> |t| + MIN_COOKIE >= PROBE_LIMIT
    {
      t, c, trusted := map[], map[], true;
      for i := 0 to |names|
        invariant Inv() && trusted && c == map[]
        invariant forall n :: Has(t, n) <==> n in names[..i]
      {
        ok := AddFresh(names[i]);
        if !ok {
          return;
        }
        assert names[..i + 1] == names[..i] + [names[i]];
      }
      ok := true;
      assert names[..|names|] == names;
    }

    /**
     cache_inode_readdir, with a callback that takes `room` entries.  Content that is not
     trusted is first rebuilt from the `names` that the file system lists.  The objects of the
     entries in `gone` turn out to be stale, and `passed` are those passed over.
     */
    method Readdir(cookie: nat, room: nat, gone: set<nat>, names: seq<string>)
      returns (status: Status, batch: seq<nat>, eod: bool, passed: set<nat>)
      requires Inv()
      modifies this
      ensures Inv()
      ensures old(trusted) ==> State() == old(State()) && status != PopulateError
      ensures !old(trusted) ==> c == map[] && (status != PopulateError ==> forall n :: Has(t, n) <==> n in names)
      ensures status != PopulateError ==> (status == BadCookie <==> Refuses(State(), cookie))
      ensures status == Ok ==>
        && Listed(t.Keys - passed, cookie, batch, eod) && |batch| <= room && (eod || |batch| == room)
        && SkipsStale(t.Keys, gone, cookie, batch, passed)
      ensures passed <= gone * t.Keys && trusted == (passed == {})
    {
      batch, eod, passed := [], false, {};
      if !trusted {
        var ok := Populate(names);
        if !ok {
          return PopulateError, batch, eod, passed;
        }
      }
      status, batch, eod, passed := ReadTrusted(cookie, room, gone);
    }

    /** The rest of cache_inode_readdir: the cookie is looked up and the entries after it are listed. */
    method ReadTrusted(cookie: nat, room: nat, gone: set<nat>)
      returns (status: Status, batch: seq<nat>, eod: bool, passed: set<nat>)
      requires Inv() && trusted
      modifies `trusted
      ensures status != PopulateError && (status == BadCookie <==> Refuses(State(), cookie))
      ensures status == Ok ==>
        && Listed(t.Keys - passed, cookie, batch, eod) && |batch| <= room && (eod || |batch| == room)
        && SkipsStale(t.Keys, gone, cookie, batch, passed)
      ensures passed <= gone * t.Keys && trusted == (passed == {})
    {
      batch, eod, passed := [], false, {};
      assert t.Keys - {} == t.Keys;
      var node: Option<nat>;
      if cookie > 0 {
        if cookie < MIN_COOKIE {
          return BadCookie, batch, eod, passed;
        }
        var dirent := LookupK(cookie, true);
        if dirent == None {
          var self := LookupK(cookie, false);
          if self != None {
            return Ok, batch, true, passed;
          }
          return BadCookie, batch, eod, passed;
        }
        node := Some(dirent.value.k);
      } else {
        node := LeastAbove(t.Keys, -1);
      }
      batch, eod, passed := ListFrom(cookie, node, room, gone);
      status := Ok;
    }

    /** The loop of cache_inode_readdir, from the entry at `first`; passing over a stale entry costs the trust. */
    method ListFrom(cookie: nat, first: Option<nat>, room: nat, gone: set<nat>)
      returns (batch: seq<nat>, eod: bool, passed: set<nat>)
      requires first == LeastAbove(t.Keys, if cookie == 0 then -1 else cookie)
      requires forall k :: k in t ==> 0 < k < KEY_SPACE
      modifies `trusted
      ensures Listed(t.Keys - passed, cookie, batch, eod) && |batch| <= room && (eod || |batch| == room)
      ensures SkipsStale(t.Keys, gone, cookie, batch, passed)
      ensures passed <= gone * t.Keys && trusted == (old(trusted) && passed == {})
    {
      batch, passed := [], {};
      var node := first;
      ghost var pos := cookie;
      // in_result turns false only when an entry is left that the callback has no room for
      while node.Some? && (node.value in gone || |batch| < room)
        invariant ListedUpTo(t.Keys - passed, cookie, batch, pos) && |batch| <= room
        invariant trusted == (old(trusted) && passed == {}) && cookie <= pos
        invariant forall k :: k in passed <==> k in t.Keys && k in gone && cookie < k <= pos
        invariant node.Some? ==> IsLeastAbove(t.Keys, pos, node.value)
        invariant node.None? ==> forall k :: k in t ==> k <= pos
        decreases KEY_SPACE - pos
      {
        ListedOneMore(t.Keys, passed, cookie, batch, pos, node.value, node.value in gone);
        if node.value in gone {
          trusted := false;
          passed := passed + {node.value};
        } else {
          batch := batch + [node.value];
        }
        pos := node.value;
        node := LeastAbove(t.Keys, node.value);
      }
      eod := node.None?;
      assert !eod ==> node.value in t.Keys - passed && node.value > pos;
      SkippedUpTo(t.Keys, gone, cookie, batch, passed, pos, node);
      ListedAtEnd(t.Keys - passed, cookie, batch, pos, eod);
    }
  }

  /** A client that stopped at an entry which is then deleted, with none after it, is refused. */
  method RefusalExample(hash: string -> nat) returns (status: Status)
    ensures status == BadCookie
  {
    var dir := new DirIndex(hash);
    var code, p := dir.QpInsert("file");
    var k := ProbeKey(hash("file"), p);
    dir.MarkDeleted(k);
    var batch, eod, passed;
    status, batch, eod, passed := dir.Readdir(k, 1, {}, []);
  }

  lemma PlacedAt(h: nat, p: nat, j: nat)
    requires p < PROBE_LIMIT && j < PROBE_LIMIT && ProbeKey(h, p) == ProbeKey(h, j)
    ensures p == j
  {
    if p < j { ProbesDiffer(h, p, j); } else if j < p { ProbesDiffer(h, j, p); }
  }
}
