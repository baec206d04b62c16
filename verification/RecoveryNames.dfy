/**
 The names under which clients are remembered across a restart.

 A client is recorded as `IP-(len:clid)`, where `len` is the decimal length of
 `clid`.  At restart the server rebuilds names from the directory tree and uses
 the length field to tell a whole name from one cut short by a crash.
 */
module RecoveryNames {
  import opened Decimals

  const NAME_MAX: nat := 255
  const PATH_MAX: nat := 4096
  const SOCK_NAME_MAX: nat := 128

  // ---- names --------------------------------------------------------------

  /** What nfs4_create_clid_name stores for a client address and its clientid text. */
  function ClidName(ip: string, clid: string): string {
    ip + "-(" + Decimal(|clid|) + ":" + clid + ")"
  }

  /** A name the server can build: the address text has no parenthesis and fits its buffer. */
  ghost predicate WellFormed(n: string) {
    |n| < PATH_MAX &&
    exists ip, clid :: IsNameOf(n, ip, clid)
  }

  predicate IsNameOf(n: string, ip: string, clid: string) {
    && '(' !in ip
    && |ip| <= SOCK_NAME_MAX
    && n == ClidName(ip, clid)
  }

  /** C's `strchr`, as an index; the length of `s` when the character is absent. */
  function IndexOf(s: string, c: char): (i: nat)
    ensures i <= |s|
    ensures i < |s| ==> s[i] == c
  {
    if s == "" then 0
    else if s[0] == c then 0
    else 1 + IndexOf(s[1..], c)
  }

  /**
   How the reader judges a rebuilt name.  A malformed one is skipped at once; one
   whose length field does not fit is dropped, but its directory is still removed.
   */
  datatype Verdict = Malformed | WrongLength | Accepted

  function Judge(n: string): Verdict {
    var open := IndexOf(n, '(');
    if |n| >= PATH_MAX || open == |n| then Malformed
    else
      var colon := open + IndexOf(n[open..], ':');
      if colon == |n| || colon - open - 1 >= 9 then Malformed
      else
        var cidLen := Atoi(n[open + 1..colon]);
        if |n| - colon == cidLen + 2 && n[|n| - 1] == ')' then Accepted else WrongLength
  }

  /** The first place where the character stands, or the length if it does not occur. */
  lemma {:induction false} IndexOfIs(s: string, c: char, i: nat)
    requires i <= |s| && (i < |s| ==> s[i] == c)
    requires forall j :: 0 <= j < i ==> s[j] != c
    ensures IndexOf(s, c) == i
    decreases |s|
  {
    if i > 0 { IndexOfIs(s[1..], c, i - 1); }
  }

  /** Where the separators of a name stand: `(` at `open`, `:` at `colon`, `)` at the end. */
  ghost predicate Layout(n: string, open: nat, colon: nat, clidLen: nat) {
    && open < colon <= open + 5 <= 134 && |n| == colon + clidLen + 2
    && n[open] == '(' && n[colon] == ':' && n[|n| - 1] == ')'
    && (forall j :: 0 <= j < open ==> n[j] != '(')
    && (forall j :: open <= j < colon ==> n[j] != ':')
    && n[open + 1..colon] == Decimal(clidLen)
  }

  lemma LayoutOfParts(head: string, digits: string, clid: string)
    requires 0 < |head| <= SOCK_NAME_MAX + 2 && |digits| <= 4
    requires head[|head| - 1] == '(' && forall j :: 0 <= j < |head| - 1 ==> head[j] != '('
    requires digits == Decimal(|clid|)
    ensures Layout(head + digits + [':'] + clid + [')'], |head| - 1, |head| + |digits|, |clid|)
  {
    var n := head + digits + [':'] + clid + [')'];
    assert n[|head|..|head| + |digits|] == digits;
    forall j | |head| <= j < |head| + |digits| ensures n[j] != ':' {
      assert n[j] == digits[j - |head|];
    }
  }

  lemma WellFormedLayout(n: string) returns (open: nat, colon: nat, clidLen: nat)
    requires WellFormed(n)
    ensures Layout(n, open, colon, clidLen)
  {
    var ip, clid :| IsNameOf(n, ip, clid);
    var head := ip + "-(";
    DecimalWidthOfLength(n, ip, clid);
    LayoutOfParts(head, Decimal(|clid|), clid);
    assert n == head + Decimal(|clid|) + [':'] + clid + [')'];
    open, colon, clidLen := |ip| + 1, |head| + |Decimal(|clid|)|, |clid|;
  }

  /** Where the reader finds the separators in a piece of a name. */
  lemma FindSeparators(p: string, n: string, open: nat, colon: nat, clidLen: nat)
    requires Layout(n, open, colon, clidLen)
    requires p <= n
    ensures IndexOf(p, '(') == if |p| <= open then |p| else open
    ensures |p| > open ==> IndexOf(p[open..], ':') == if |p| <= colon then |p| - open else colon - open
    ensures |p| > colon ==> p[open + 1..colon] == Decimal(clidLen)
  {
    assert p == n[..|p|];
    IndexOfIs(p, '(', if |p| <= open then |p| else open);
    if |p| > open {
      var rest := p[open..];
      assert forall j :: 0 <= j < |rest| ==> rest[j] == n[open + j];
      IndexOfIs(rest, ':', if |p| <= colon then |p| - open else colon - open);
      if |p| > colon {
        assert p[open + 1..colon] == n[open + 1..colon];
      }
    }
  }

  lemma JudgeShortPiece(p: string, n: string, open: nat, colon: nat, clidLen: nat)
    requires Layout(n, open, colon, clidLen) && p <= n && |p| <= colon
    ensures Judge(p) == Malformed
  {
    FindSeparators(p, n, open, colon, clidLen);
  }

  lemma JudgeLongPiece(p: string, n: string, open: nat, colon: nat, clidLen: nat)
    requires Layout(n, open, colon, clidLen) && |n| < PATH_MAX && p <= n && |p| > colon
    ensures Judge(p) == if |p| == |n| then Accepted else WrongLength
  {
    FindSeparators(p, n, open, colon, clidLen);
    assert Atoi(p[open + 1..colon]) == clidLen by { AtoiDecimal(clidLen); }
    assert |p| == |n| ==> p == n;
  }

  /** How the reader judges a name or a piece of one. */
  lemma JudgePiece(p: string, n: string, open: nat, colon: nat, clidLen: nat)
    requires Layout(n, open, colon, clidLen) && |n| < PATH_MAX
    requires p <= n
    ensures Judge(p) == if |p| <= colon then Malformed else if p == n then Accepted else WrongLength
  {
    if |p| <= colon {
      JudgeShortPiece(p, n, open, colon, clidLen);
    } else {
      JudgeLongPiece(p, n, open, colon, clidLen);
      assert |p| == |n| ==> p == n;
    }
  }

  lemma DecimalWidthOfLength(n: string, ip: string, clid: string)
    requires IsNameOf(n, ip, clid) && |n| < PATH_MAX
    ensures |Decimal(|clid|)| <= 4
  {
    assert Pow10(4) == 10 * Pow10(3) == 10000 by {
      assert Pow10(3) == 10 * Pow10(2) == 1000 by { assert Pow10(2) == 10 * Pow10(1); }
    }
    DecimalWidth(|clid|, 4);
  }

  /** A whole name passes the reader's test. */
  lemma WellFormedAccepted(n: string)
    requires WellFormed(n)
    ensures Judge(n) == Accepted
  {
    var open, colon, clidLen := WellFormedLayout(n);
    JudgePiece(n, n, open, colon, clidLen);
  }

  /**
   No piece of a name passes it; and a piece long enough to hold one whole directory
   segment is never malformed, so its directories do not stay behind.
   */
  lemma ProperPrefixRejected(p: string, n: string)
    requires WellFormed(n)
    requires p <= n && p != n
    ensures Judge(p) != Accepted
    ensures |p| >= NAME_MAX ==> Judge(p) == WrongLength
  {
    var open, colon, clidLen := WellFormedLayout(n);
    JudgePiece(p, n, open, colon, clidLen);
  }

  /** Names form a prefix-free code. */
  lemma PrefixFree(m: string, n: string)
    requires WellFormed(m) && WellFormed(n)
    requires m <= n
    ensures m == n
  {
    WellFormedAccepted(m);
    if m != n {
      ProperPrefixRejected(m, n);
    }
  }

  // ---- what the reader accepts --------------------------------------------

  /** The text has the form of a name, with a length that fits. */
  ghost predicate Formed(n: string, head: string, len: string, clid: string) {
    n == head + "(" + len + ":" + clid + ")" && '(' !in head && ':' !in len && |len| < 9 && Atoi(len) == |clid|
  }

  lemma FormedParts(head: string, len: string, clid: string)
    requires '(' !in head && ':' !in len
    ensures var n := head + "(" + len + ":" + clid + ")";
      && IndexOf(n, '(') == |head| && IndexOf(n[|head|..], ':') == |len| + 1
      && n[|head| + 1..|head| + 1 + |len|] == len
  {
    var rest := "(" + len + ":" + clid + ")";
    var n := head + "(" + len + ":" + clid + ")";
    assert n == head + rest;
    assert forall j :: 0 <= j < |head| ==> n[j] == head[j];
    IndexOfIs(n, '(', |head|);
    assert forall j :: 0 <= j < |len| ==> rest[j + 1] == len[j];
    IndexOfIs(rest, ':', |len| + 1);
  }

  lemma FormedAccepted(n: string, head: string, len: string, clid: string)
    requires Formed(n, head, len, clid) && |n| < PATH_MAX
    ensures Judge(n) == Accepted
  {
    FormedParts(head, len, clid);
    assert |n| == |head| + |len| + |clid| + 3 && n[|n| - 1] == ')';
  }

  lemma {:induction false} NotBefore(s: string, c: char, j: nat)
    requires j < IndexOf(s, c)
    ensures s[j] != c
    decreases j
  {
    if j > 0 { NotBefore(s[1..], c, j - 1); }
  }

  /** Of all texts the reader accepts exactly those of that form, below the length limit. */
  lemma AcceptedIffFormed(n: string)
    ensures Judge(n) == Accepted <==> |n| < PATH_MAX && exists head, len, clid :: Formed(n, head, len, clid)
  {
    if Judge(n) == Accepted {
      var open := IndexOf(n, '(');
      var colon := open + IndexOf(n[open..], ':');
      var head, len, clid := n[..open], n[open + 1..colon], n[colon + 1..|n| - 1];
      forall j | 0 <= j < open ensures n[j] != '(' { NotBefore(n, '(', j); }
      forall j | open <= j < colon ensures n[j] != ':' {
        NotBefore(n[open..], ':', j - open);
        assert n[j] == n[open..][j - open];
      }
      assert n[open..][colon - open] == ':' && n[colon] == ':';
      assert n == head + "(" + len + ":" + clid + ")";
      assert Formed(n, head, len, clid);
    }
    if |n| < PATH_MAX && exists head, len, clid :: Formed(n, head, len, clid) {
      var head, len, clid :| Formed(n, head, len, clid);
      FormedAccepted(n, head, len, clid);
    }
  }

  // ---- what a name tells --------------------------------------------------

  lemma NameParts(ip: string, clid: string)
    requires '(' !in ip
    ensures var n := ClidName(ip, clid); var digits := Decimal(|clid|);
      && IndexOf(n, '(') == |ip| + 1 && n[..|ip|] == ip
      && n[|ip| + 2..] == digits + ":" + clid + ")"
      && IndexOf(n[|ip| + 2..], ':') == |digits|
      && n[|ip| + 2..][|digits| + 1..] == clid + ")"
  {
    var n, digits := ClidName(ip, clid), Decimal(|clid|);
    var rest := digits + ":" + clid + ")";
    assert n == ip + "-(" + rest;
    assert forall j :: 0 <= j < |ip| ==> n[j] == ip[j];
    IndexOfIs(n, '(', |ip| + 1);
    assert forall j :: 0 <= j < |digits| ==> rest[j] == digits[j];
    IndexOfIs(rest, ':', |digits|);
  }

  /** A name tells the address and the id of its client. */
  lemma NameTellsClient(ip: string, clid: string, ip': string, clid': string)
    requires '(' !in ip && '(' !in ip' && ClidName(ip, clid) == ClidName(ip', clid')
    ensures ip == ip' && clid == clid'
  {
    NameParts(ip, clid);
    NameParts(ip', clid');
    assert clid == (clid + ")")[..|clid|] && clid' == (clid' + ")")[..|clid'|];
  }

  // ---- the text of an id --------------------------------------------------

  type Byte = b: nat | b < 256

  /** An id that can be a file name as it is. */
  predicate Plain(id: seq<Byte>) {
    forall i :: 0 <= i < |id| ==> 0x20 <= id[i] <= 0x7e && id[i] as char != '/'
  }

  function Text(id: seq<Byte>): string {
    seq(|id|, i requires 0 <= i < |id| => id[i] as char)
  }

  function HexDigit(d: nat): char
    requires d < 16
  {
    if d < 10 then DigitChar(d) else ('a' as int + (d - 10)) as char
  }

  function Hex(id: seq<Byte>): string {
    if id == [] then "" else [HexDigit(id[0] / 16), HexDigit(id[0] % 16)] + Hex(id[1..])
  }

  /** convert_opaque_value_max_for_dir: the id itself if it is plain, else its bytes in hexadecimal. */
  function ClidText(id: seq<Byte>): string {
    if Plain(id) then Text(id) else "0x" + Hex(id)
  }

  lemma TextTells(v: seq<Byte>, w: seq<Byte>)
    requires Text(v) == Text(w)
    ensures v == w
  {
    forall i | 0 <= i < |v| ensures v[i] == w[i] {
      assert Text(v)[i] == Text(w)[i];
    }
  }

  lemma HexDigitTells(d: nat, e: nat)
    requires d < 16 && e < 16 && HexDigit(d) == HexDigit(e)
    ensures d == e
  {
  }

  lemma {:induction false} HexTells(v: seq<Byte>, w: seq<Byte>)
    requires Hex(v) == Hex(w)
    ensures v == w
    decreases |v|
  {
    if v != [] && w != [] {
      assert Hex(v)[0] == Hex(w)[0] && Hex(v)[1] == Hex(w)[1];
      HexDigitTells(v[0] / 16, w[0] / 16);
      HexDigitTells(v[0] % 16, w[0] % 16);
      assert Hex(v)[2..] == Hex(v[1..]) && Hex(w)[2..] == Hex(w[1..]);
      HexTells(v[1..], w[1..]);
      assert v == [v[0]] + v[1..] && w == [w[0]] + w[1..];
    }
  }

  /** Two ids have the same text exactly if they are the same or one spells the other in hexadecimal. */
  lemma SameTextIff(v: seq<Byte>, w: seq<Byte>)
    ensures ClidText(v) == ClidText(w) <==>
            (v == w || (Plain(v) && !Plain(w) && Text(v) == "0x" + Hex(w))
             || (Plain(w) && !Plain(v) && Text(w) == "0x" + Hex(v)))
  {
    if ClidText(v) == ClidText(w) {
      if Plain(v) && Plain(w) {
        TextTells(v, w);
      } else if !Plain(v) && !Plain(w) {
        assert Hex(v) == ("0x" + Hex(v))[2..] && Hex(w) == ("0x" + Hex(w))[2..];
        HexTells(v, w);
      }
    }
  }

  function Bytes(s: string): seq<Byte>
    requires forall i :: 0 <= i < |s| ==> s[i] as int < 256
  {
    seq(|s|, i requires 0 <= i < |s| => s[i] as int)
  }

  lemma {:induction false} HexIsPlain(id: seq<Byte>)
    ensures |Hex(id)| == 2 * |id|
    ensures forall i :: 0 <= i < |Hex(id)| ==> '0' <= Hex(id)[i] <= 'f'
    decreases |id|
  {
    if id != [] { HexIsPlain(id[1..]); }
  }

  /** So every id that is not plain shares its text with another id, which is. */
  lemma HexTwin(id: seq<Byte>)
    requires !Plain(id)
    ensures forall i :: 0 <= i < |"0x" + Hex(id)| ==> ("0x" + Hex(id))[i] as int < 256
    ensures var twin := Bytes("0x" + Hex(id)); Plain(twin) && twin != id && ClidText(twin) == ClidText(id)
  {
    HexIsPlain(id);
    var text := "0x" + Hex(id);
    assert forall i :: 0 <= i < |text| ==> '0' <= text[i] <= 'x';
    assert Text(Bytes(text)) == text;
  }
}
