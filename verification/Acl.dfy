/**
 Access checks against an NFSv4 access control list.

 The list is scanned once, from its first entry on.  The scan keeps the set of
 permissions still undecided and stops as soon as it can.  A mask is the set of the
 numbers of its bits; `m & n`, `m | n` and `m & ~n` are intersection, union and
 difference.
 */
module Acl {

  type Mask = set<nat>

  const TYPE_ALLOW: nat := 0
  const TYPE_DENY: nat := 1

  const FLAG_INHERIT_ONLY: nat := 3
  const FLAG_GROUP_ID: nat := 6
  const IFLAG_EXCLUDE_DIRS: nat := 29
  const IFLAG_EXCLUDE_FILES: nat := 30
  const IFLAG_SPECIAL_ID: nat := 31

  const SPECIAL_OWNER: nat := 1
  const SPECIAL_GROUP: nat := 2
  const SPECIAL_EVERYONE: nat := 3

  const PERM_EXECUTE: nat := 5
  const PERM_READ_ATTR: nat := 7
  const PERM_WRITE_ATTR: nat := 8
  const PERM_READ_ACL: nat := 17
  const PERM_WRITE_ACL: nat := 18
  const PERM_WRITE_OWNER: nat := 19
  const PERM_CONTINUE: nat := 30

  /** Always granted to the owner of the object. */
  const OWNER_BITS: Mask := {PERM_WRITE_ACL, PERM_READ_ACL, PERM_WRITE_ATTR, PERM_READ_ATTR}
  /** Denial of one of these is reported as EPERM. */
  const SETATTR_BITS: Mask := {PERM_WRITE_ATTR, PERM_WRITE_ACL, PERM_WRITE_OWNER}

  datatype Ace = Ace(kind: nat, perm: Mask, flag: Mask, iflag: Mask, who: nat)
  datatype Creds = Creds(uid: nat, gid: nat, groups: seq<nat>)
  datatype Object = Object(owner: nat, group: nat, isDir: bool, aces: seq<Ace>)
  datatype Answer = Granted | Perm | Access
  /** What the list says about one permission. */
  datatype Ruling = Silent | Allowed | Denied

  // ---- which entries apply ------------------------------------------------

  predicate InGroup(gid: nat, creds: Creds) {
    gid == creds.gid || gid in creds.groups
  }

  /** fsal_check_ace_group. */
  method CheckAceGroup(gid: nat, creds: Creds) returns (found: bool)
    ensures found == InGroup(gid, creds)
  {
    if creds.gid == gid {
      return true;
    }
    for i := 0 to |creds.groups|
      invariant gid !in creds.groups[..i]
    {
      if creds.groups[i] == gid {
        return true;
      }
    }
    return false;
  }

  /** fsal_check_ace_matches. */
  predicate Matches(e: Ace, creds: Creds, isOwner: bool, isGroup: bool) {
    if IFLAG_SPECIAL_ID in e.iflag then
      (e.who == SPECIAL_OWNER && isOwner) || (e.who == SPECIAL_GROUP && isGroup) || e.who == SPECIAL_EVERYONE
    else if FLAG_GROUP_ID in e.flag then InGroup(e.who, creds)
    else creds.uid == e.who
  }

  /** fsal_check_ace_applicable. */
  predicate Applicable(e: Ace, creds: Creds, isDir: bool, isOwner: bool, isGroup: bool, isRoot: bool) {
    && FLAG_INHERIT_ONLY !in e.flag
    && (if isDir then IFLAG_EXCLUDE_DIRS else IFLAG_EXCLUDE_FILES) !in e.iflag
    && (isRoot || Matches(e, creds, isOwner, isGroup))
  }

  predicate IsRoot(creds: Creds) {
    creds.uid == 0
  }

  predicate IsOwner(o: Object, creds: Creds) {
    creds.uid == o.owner
  }

  predicate Applies(e: Ace, o: Object, creds: Creds) {
    Applicable(e, creds, o.isDir, IsOwner(o, creds), InGroup(o.group, creds), IsRoot(creds))
  }

  /** The entry is about objects of this kind, and not only about what is created in them. */
  predicate Effective(e: Ace, isDir: bool) {
    && FLAG_INHERIT_ONLY !in e.flag
    && !(isDir && IFLAG_EXCLUDE_DIRS in e.iflag)
    && !(!isDir && IFLAG_EXCLUDE_FILES in e.iflag)
  }

  /** Whom an entry is for: OWNER@, GROUP@, EVERYONE@, a group or a user; to root, all entries are. */
  lemma WhomAnEntryIsFor(e: Ace, o: Object, creds: Creds)
    ensures Applies(e, o, creds) ==> Effective(e, o.isDir)
    ensures Effective(e, o.isDir) && creds.uid == 0 ==> Applies(e, o, creds)
    ensures Effective(e, o.isDir) && creds.uid != 0 && IFLAG_SPECIAL_ID in e.iflag ==>
      && (e.who == SPECIAL_OWNER ==> (Applies(e, o, creds) <==> creds.uid == o.owner))
      && (e.who == SPECIAL_GROUP ==> (Applies(e, o, creds) <==> o.group == creds.gid || o.group in creds.groups))
      && (e.who == SPECIAL_EVERYONE ==> Applies(e, o, creds))
      && (e.who !in {SPECIAL_OWNER, SPECIAL_GROUP, SPECIAL_EVERYONE} ==> !Applies(e, o, creds))
    ensures Effective(e, o.isDir) && creds.uid != 0 && IFLAG_SPECIAL_ID !in e.iflag ==>
      && (FLAG_GROUP_ID in e.flag ==> (Applies(e, o, creds) <==> e.who == creds.gid || e.who in creds.groups))
      && (FLAG_GROUP_ID !in e.flag ==> (Applies(e, o, creds) <==> e.who == creds.uid))
  {
  }

  // ---- the rule -----------------------------------------------------------

  /** What the list must allow: for root only execution, and for the owner not the owner's rights. */
  function Base(o: Object, creds: Creds, v4mask: Mask): Mask {
    var m := v4mask - {PERM_CONTINUE};
    var m1 := if IsRoot(creds) then m * {PERM_EXECUTE} else m;
    if IsOwner(o, creds) then m1 - OWNER_BITS else m1
  }

  /** An entry speaks about a permission if it applies and names it; to root, denials do not speak. */
  predicate Speaks(e: Ace, o: Object, creds: Creds, b: nat) {
    && (e.kind == TYPE_ALLOW || (e.kind == TYPE_DENY && !IsRoot(creds)))
    && Applies(e, o, creds) && b in e.perm
  }

  function RulingOf(e: Ace): Ruling {
    if e.kind == TYPE_ALLOW then Allowed else Denied
  }

  /** The verdict of the first of the first `n` entries that speaks about `b`. */
  function Verdict(o: Object, creds: Creds, n: nat, b: nat): Ruling
    requires n <= |o.aces|
  {
    if n == 0 then Silent
    else
      var before := Verdict(o, creds, n - 1, b);
      if before != Silent then before
      else if Speaks(o.aces[n - 1], o, creds, b) then RulingOf(o.aces[n - 1])
      else Silent
  }

  function Final(o: Object, creds: Creds, b: nat): Ruling {
    Verdict(o, creds, |o.aces|, b)
  }

  lemma {:induction false} VerdictStays(o: Object, creds: Creds, n: nat, m: nat, b: nat)
    requires n <= m <= |o.aces| && Verdict(o, creds, n, b) != Silent
    ensures Verdict(o, creds, m, b) == Verdict(o, creds, n, b)
    decreases m
  {
    if n < m { VerdictStays(o, creds, n, m - 1, b); }
  }

  /** The verdict is that of the first entry that speaks. */
  lemma {:induction false} VerdictIsFirst(o: Object, creds: Creds, n: nat, b: nat)
    requires n <= |o.aces|
    ensures Verdict(o, creds, n, b) == Silent <==> forall i :: 0 <= i < n ==> !Speaks(o.aces[i], o, creds, b)
    ensures Verdict(o, creds, n, b) != Silent ==>
      exists i :: 0 <= i < n && Speaks(o.aces[i], o, creds, b)
                  && (forall j :: 0 <= j < i ==> !Speaks(o.aces[j], o, creds, b))
                  && Verdict(o, creds, n, b) == RulingOf(o.aces[i])
    decreases n
  {
    if n > 0 { VerdictIsFirst(o, creds, n - 1, b); }
  }

  // ---- the scan -----------------------------------------------------------

  /** Where the scan stands after `n` entries. */
  ghost predicate Scanned(o: Object, creds: Creds, base: Mask, n: nat, missing: Mask, allowed: Mask, denied: Mask) {
    && n <= |o.aces|
    && (forall b :: b in missing <==> b in base && Verdict(o, creds, n, b) == Silent)
    && (forall b :: b in base ==> (b in allowed <==> Verdict(o, creds, n, b) == Allowed))
    && (forall b :: b in base && Verdict(o, creds, n, b) == Denied ==> b in denied)
    && (denied != {} ==> exists b :: b in base && Verdict(o, creds, n, b) == Denied)
    && missing !! denied
  }

  lemma ScanSilent(o: Object, creds: Creds, base: Mask, n: nat, missing: Mask, allowed: Mask, denied: Mask)
    requires Scanned(o, creds, base, n, missing, allowed, denied) && n < |o.aces|
    requires forall b :: b in missing ==> !Speaks(o.aces[n], o, creds, b)
    ensures Scanned(o, creds, base, n + 1, missing, allowed, denied)
  {
    assert forall b :: b in base ==> Verdict(o, creds, n + 1, b) == Verdict(o, creds, n, b);
  }

  lemma ScanAllow(o: Object, creds: Creds, base: Mask, v4mask: Mask, n: nat, missing: Mask, allowed: Mask, denied: Mask)
    requires Scanned(o, creds, base, n, missing, allowed, denied) && n < |o.aces| && base <= v4mask
    requires o.aces[n].kind == TYPE_ALLOW && Applies(o.aces[n], o, creds)
    ensures var tperm := o.aces[n].perm - denied;
      Scanned(o, creds, base, n + 1, missing - tperm * missing, allowed + v4mask * tperm, denied)
  {
    var tperm := o.aces[n].perm - denied;
    forall b | b in base
      ensures Verdict(o, creds, n + 1, b) == if b in missing && b in tperm then Allowed else Verdict(o, creds, n, b)
    {
      assert b in missing ==> (b in tperm <==> b in o.aces[n].perm);
    }
    if denied != {} {
      var b :| b in base && Verdict(o, creds, n, b) == Denied;
      assert Verdict(o, creds, n + 1, b) == Denied;
    }
  }

  lemma ScanDeny(o: Object, creds: Creds, base: Mask, v4mask: Mask, n: nat, missing: Mask, allowed: Mask, denied: Mask)
    requires Scanned(o, creds, base, n, missing, allowed, denied) && n < |o.aces| && base <= v4mask
    requires o.aces[n].kind == TYPE_DENY && Applies(o.aces[n], o, creds) && !IsRoot(creds)
    requires o.aces[n].perm * missing != {}
    ensures var perm := o.aces[n].perm;
      Scanned(o, creds, base, n + 1, missing - perm * missing, allowed, denied + v4mask * perm)
  {
    forall b | b in base ensures Verdict(o, creds, n + 1, b) ==
      if b in missing && b in o.aces[n].perm then Denied else Verdict(o, creds, n, b) {}
    var b :| b in o.aces[n].perm * missing;
    assert b in base && Verdict(o, creds, n + 1, b) == Denied;
  }

  lemma ScanStart(o: Object, creds: Creds, base: Mask, allowed: Mask)
    requires base !! allowed
    ensures Scanned(o, creds, base, 0, base, allowed, {})
  {
  }

  /** Once nothing is undecided, the rest of the list cannot change anything. */
  lemma ScanSettled(o: Object, creds: Creds, base: Mask, n: nat, allowed: Mask, denied: Mask)
    requires Scanned(o, creds, base, n, {}, allowed, denied)
    ensures Scanned(o, creds, base, |o.aces|, {}, allowed, denied)
  {
    forall b | b in base ensures Verdict(o, creds, |o.aces|, b) == Verdict(o, creds, n, b) {
      assert b !in {};
      VerdictStays(o, creds, n, |o.aces|, b);
    }
  }

  ghost predicate SomeDenied(o: Object, creds: Creds, base: Mask) {
    exists b :: b in base && Final(o, creds, b) == Denied
  }

  /** Entry `n` is the first that denies a permission of `base` not decided before. */
  ghost predicate StopsAt(o: Object, creds: Creds, base: Mask, n: nat) {
    && n < |o.aces|
    && (forall b :: b in base ==> Verdict(o, creds, n, b) != Denied)
    && (exists b :: b in base && Verdict(o, creds, n + 1, b) == Denied)
  }

  /** Some permission to change attributes, list or owner has this ruling after `n` entries. */
  ghost predicate SetattrRuled(o: Object, creds: Creds, base: Mask, n: nat, ruling: Ruling)
    requires n <= |o.aces|
  {
    exists b :: b in SETATTR_BITS && b in base && Verdict(o, creds, n, b) == ruling
  }

  /**
   A refusal is EPERM if a permission of SETATTR_BITS is among those that the entry denies
   at which the scan stops, or, if it does not stop, among those that no entry speaks about.
   */
  ghost predicate ReportsPerm(o: Object, creds: Creds, base: Mask, goesOn: bool) {
    if goesOn || !SomeDenied(o, creds, base) then SetattrRuled(o, creds, base, |o.aces|, Silent)
    else exists n: nat :: StopsAt(o, creds, base, n) && SetattrRuled(o, creds, base, n + 1, Denied)
  }

  /** The scan stops at one entry only. */
  lemma StopsOnce(o: Object, creds: Creds, base: Mask, n: nat, m: nat)
    requires StopsAt(o, creds, base, n) && StopsAt(o, creds, base, m)
    ensures n == m
  {
    if n < m {
      var b :| b in base && Verdict(o, creds, n + 1, b) == Denied;
      VerdictStays(o, creds, n + 1, m, b);
    } else if m < n {
      var b :| b in base && Verdict(o, creds, m + 1, b) == Denied;
      VerdictStays(o, creds, m + 1, n, b);
    }
  }

  predicate AllAllowed(o: Object, creds: Creds, base: Mask) {
    forall b :: b in base ==> Final(o, creds, b) == Allowed
  }

  /**
   fsal_check_access_acl.  The four calls of fsalstat without `return` in the source have
   no effect and are left out.  Access is granted exactly when every permission that the
   list must allow is allowed by the first entry that speaks about it, whether or not the
   caller asks for the denied permissions or for the scan to continue.  Which error a
   refusal reports depends on where the scan stops.  Denied
   permissions are reported exactly if the list denies one that it must allow; without
   CONTINUE they are those of the first entry that does so.
   */
  method CheckAccessAcl(creds: Creds, v4mask: Mask, wantDenied: bool, o: Object)
    returns (answer: Answer, allowed: Mask, denied: Mask)
    ensures answer == Granted <==> AllAllowed(o, creds, Base(o, creds, v4mask))
    ensures answer != Granted ==>
      (answer == Perm <==> ReportsPerm(o, creds, Base(o, creds, v4mask), wantDenied && PERM_CONTINUE in v4mask))
    ensures wantDenied && PERM_CONTINUE in v4mask ==>
      forall b :: b in Base(o, creds, v4mask) ==>
        && (b in allowed <==> Final(o, creds, b) == Allowed)
        && (Final(o, creds, b) == Denied ==> b in denied)
    ensures answer == Granted ==> Base(o, creds, v4mask) <= allowed && denied == {}
    ensures if wantDenied then denied != {} <==> SomeDenied(o, creds, Base(o, creds, v4mask)) else denied == {}
    ensures PERM_CONTINUE !in v4mask && denied != {} ==>
      exists n: nat :: StopsAt(o, creds, Base(o, creds, v4mask), n) && denied == v4mask * o.aces[n].perm
  {
    allowed, denied := {}, {};
    var missing := v4mask - {PERM_CONTINUE};
    if IsRoot(creds) {
      if o.isDir {
        allowed := v4mask;
      }
      missing := missing * {PERM_EXECUTE};
      allowed := v4mask - {PERM_EXECUTE};
    }
    if IsOwner(o, creds) {
      allowed := allowed + v4mask * OWNER_BITS;
      missing := missing - OWNER_BITS;
    }
    ghost var base := Base(o, creds, v4mask);
    assert missing == base && base !! allowed;
    ScanStart(o, creds, base, allowed);
    answer, missing, allowed, denied := ScanAces(creds, v4mask, wantDenied, o, missing, allowed);
    if answer != Granted {
      return;
    }
    ScanVerdict(o, creds, base, missing, allowed, denied);
    if missing != {} || (wantDenied && denied != {}) {
      SilentSetattr(o, creds, base, missing, allowed, denied);
      answer := if missing * SETATTR_BITS != {} then Perm else Access;
    }
  }

  lemma SilentSetattr(o: Object, creds: Creds, base: Mask, missing: Mask, allowed: Mask, denied: Mask)
    requires Scanned(o, creds, base, |o.aces|, missing, allowed, denied)
    ensures missing * SETATTR_BITS != {} <==> SetattrRuled(o, creds, base, |o.aces|, Silent)
  {
    if missing * SETATTR_BITS != {} {
      var b :| b in missing * SETATTR_BITS;
      assert b in base && Verdict(o, creds, |o.aces|, b) == Silent;
    }
    if SetattrRuled(o, creds, base, |o.aces|, Silent) {
      var b :| b in SETATTR_BITS && b in base && Verdict(o, creds, |o.aces|, b) == Silent;
      assert b in missing * SETATTR_BITS;
    }
  }

  /** What the scan has found out at the end of the list. */
  lemma ScanVerdict(o: Object, creds: Creds, base: Mask, missing: Mask, allowed: Mask, denied: Mask)
    requires Scanned(o, creds, base, |o.aces|, missing, allowed, denied)
    ensures AllAllowed(o, creds, base) <==> missing == {} && denied == {}
    ensures denied != {} <==> SomeDenied(o, creds, base)
  {
    if missing != {} {
      var b :| b in missing;
      assert Final(o, creds, b) == Silent;
    }
  }

  /** The loop of fsal_check_access_acl; an answer other than Granted is an early return. */
  method ScanAces(creds: Creds, v4mask: Mask, wantDenied: bool, o: Object, base: Mask, allowed0: Mask)
    returns (answer: Answer, missing: Mask, allowed: Mask, denied: Mask)
    requires base <= v4mask && base !! allowed0
    ensures answer == Granted ==>
      && Scanned(o, creds, base, |o.aces|, missing, allowed, denied)
      && (!wantDenied || PERM_CONTINUE !in v4mask ==> denied == {})
    ensures answer != Granted ==> !(wantDenied && PERM_CONTINUE in v4mask) && SomeDenied(o, creds, base)
    ensures answer != Granted ==>
      exists n: nat :: StopsAt(o, creds, base, n) && denied == if wantDenied then v4mask * o.aces[n].perm else {}
    ensures answer != Granted ==> (answer == Perm <==> ReportsPerm(o, creds, base, false))
  {
    answer, missing, allowed, denied := Granted, base, allowed0, {};
    ScanStart(o, creds, base, allowed0);
    for n := 0 to |o.aces|
      invariant answer == Granted && Scanned(o, creds, base, n, missing, allowed, denied)
      invariant !wantDenied || PERM_CONTINUE !in v4mask ==> denied == {}
    {
      var e := o.aces[n];
      if (e.kind == TYPE_ALLOW || e.kind == TYPE_DENY) && Applies(e, o, creds) {
        if e.kind == TYPE_ALLOW {
          var tperm := if wantDenied then e.perm - denied else e.perm;
          assert tperm == e.perm - denied;
          ScanAllow(o, creds, base, v4mask, n, missing, allowed, denied);
          allowed := allowed + v4mask * tperm;
          missing := missing - tperm * missing;
          if missing == {} {
            ScanSettled(o, creds, base, n + 1, allowed, denied);
            return;
          }
        } else if e.perm * missing != {} && !IsRoot(creds) {
          ScanDeny(o, creds, base, v4mask, n, missing, allowed, denied);
          DeniedHere(o, creds, base, n, missing, allowed, denied);
          if wantDenied {
            denied := denied + v4mask * e.perm;
          }
          if !wantDenied || PERM_CONTINUE !in v4mask {
            DeniedSetattr(o, creds, base, n, missing, allowed);
            answer := if e.perm * missing * SETATTR_BITS != {} then Perm else Access;
            return;
          }
          missing := missing - e.perm * missing;
          if missing == {} {
            ScanSettled(o, creds, base, n + 1, allowed, denied);
            return;
          }
        } else {
          ScanSilent(o, creds, base, n, missing, allowed, denied);
        }
      } else {
        ScanSilent(o, creds, base, n, missing, allowed, denied);
      }
    }
  }

  /** Which of EPERM and EACCES it is where the scan stops. */
  lemma DeniedSetattr(o: Object, creds: Creds, base: Mask, n: nat, missing: Mask, allowed: Mask)
    requires Scanned(o, creds, base, n, missing, allowed, {}) && n < |o.aces|
    requires o.aces[n].kind == TYPE_DENY && Applies(o.aces[n], o, creds) && !IsRoot(creds)
    requires o.aces[n].perm * missing != {}
    ensures o.aces[n].perm * missing * SETATTR_BITS != {} <==> ReportsPerm(o, creds, base, false)
  {
    DeniedHere(o, creds, base, n, missing, allowed, {});
    forall b | b in base ensures Verdict(o, creds, n + 1, b) == Denied <==> b in o.aces[n].perm * missing {
      assert Verdict(o, creds, n, b) != Denied;
    }
    if o.aces[n].perm * missing * SETATTR_BITS != {} {
      var b :| b in o.aces[n].perm * missing * SETATTR_BITS;
      assert SetattrRuled(o, creds, base, n + 1, Denied);
    }
    if m: nat :| StopsAt(o, creds, base, m) && SetattrRuled(o, creds, base, m + 1, Denied) {
      StopsOnce(o, creds, base, n, m);
      var b :| b in SETATTR_BITS && b in base && Verdict(o, creds, n + 1, b) == Denied;
      assert b in o.aces[n].perm * missing * SETATTR_BITS;
    }
  }

  /** A denial of something undecided settles the matter against the caller. */
  lemma DeniedHere(o: Object, creds: Creds, base: Mask, n: nat, missing: Mask, allowed: Mask, denied: Mask)
    requires Scanned(o, creds, base, n, missing, allowed, denied) && n < |o.aces|
    requires o.aces[n].kind == TYPE_DENY && Applies(o.aces[n], o, creds) && !IsRoot(creds)
    requires o.aces[n].perm * missing != {}
    ensures forall b :: b in o.aces[n].perm * missing ==> b in base && Final(o, creds, b) == Denied
    ensures SomeDenied(o, creds, base) && (denied == {} ==> StopsAt(o, creds, base, n))
  {
    var d :| d in o.aces[n].perm * missing;
    assert d in base && Verdict(o, creds, n + 1, d) == Denied;
    forall b | b in o.aces[n].perm * missing ensures b in base && Final(o, creds, b) == Denied {
      VerdictStays(o, creds, n + 1, |o.aces|, b);
    }
  }

  /** For anyone but root this is the plain rule of section 6.2.1 of RFC 7530, entry by entry. */
  lemma RuleForOthers(o: Object, creds: Creds, v4mask: Mask, b: nat)
    requires !IsRoot(creds)
    ensures b in Base(o, creds, v4mask) <==>
            b in v4mask && b != PERM_CONTINUE && !(IsOwner(o, creds) && b in OWNER_BITS)
    ensures Final(o, creds, b) == Allowed <==>
      exists i :: 0 <= i < |o.aces| && o.aces[i].kind == TYPE_ALLOW && Names(o.aces[i], o, creds, b)
                  && forall j :: 0 <= j < i && Names(o.aces[j], o, creds, b) ==> o.aces[j].kind != TYPE_DENY
  {
    VerdictIsFirst(o, creds, |o.aces|, b);
    if i :| 0 <= i < |o.aces| && o.aces[i].kind == TYPE_ALLOW && Names(o.aces[i], o, creds, b)
            && forall j :: 0 <= j < i && Names(o.aces[j], o, creds, b) ==> o.aces[j].kind != TYPE_DENY {
      assert Speaks(o.aces[i], o, creds, b);
    }
  }

  predicate Names(e: Ace, o: Object, creds: Creds, b: nat) {
    Applies(e, o, creds) && b in e.perm
  }

  /** Root on a directory, too, needs an entry that allows execution, contrary to the comment in the source. */
  lemma RuleForRoot(o: Object, creds: Creds, v4mask: Mask)
    requires IsRoot(creds)
    ensures AllAllowed(o, creds, Base(o, creds, v4mask)) <==>
      PERM_EXECUTE !in v4mask
      || exists i :: 0 <= i < |o.aces| && o.aces[i].kind == TYPE_ALLOW && Names(o.aces[i], o, creds, PERM_EXECUTE)
  {
    VerdictIsFirst(o, creds, |o.aces|, PERM_EXECUTE);
    var base := Base(o, creds, v4mask);
    assert base == if PERM_EXECUTE in v4mask then {PERM_EXECUTE} else {};
    if i :| 0 <= i < |o.aces| && o.aces[i].kind == TYPE_ALLOW && Names(o.aces[i], o, creds, PERM_EXECUTE) {
      assert Speaks(o.aces[i], o, creds, PERM_EXECUTE);
    }
  }

  /** Root may not search a directory without entries. */
  lemma RootExample()
    ensures var creds := Creds(0, 0, []); var o := Object(7, 7, true, []);
      IsRoot(creds) && o.isDir && !AllAllowed(o, creds, Base(o, creds, {PERM_EXECUTE}))
  {
    RuleForRoot(Object(7, 7, true, []), Creds(0, 0, []), {PERM_EXECUTE});
  }
}
