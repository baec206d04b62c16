/**
 Lists of ranges written as text, such as `[1-4,7,012-010]`.
 */
module RangeText {
  import opened Collections
  import opened Ranges
  import opened Decimals

  // ---- the parser as a function -------------------------------------------

  /** The pending start of an interval, the widest zero-led number, and the ranges added so far. */
  datatype Parser = Parser(start: Option<int>, padding: nat, added: seq<Range>)
  datatype Outcome = Parsed(p: Parser) | Rejected(added: seq<Range>)

  function DigitRun(s: string): (k: nat)
    ensures k <= |s|
  {
    if s == "" || !IsDigit(s[0]) then 0 else 1 + DigitRun(s[1..])
  }

  function Wider(padding: nat, text: string): nat {
    if text != "" && text[0] == '0' && |text| > padding then |text| else padding
  }

  /** What the parser does with a number, given the character after it. */
  function TakeNumber(p: Parser, text: string, next: char): Outcome {
    var value := DigitsFrom(text, 0);
    if value >= LONG_MAX then Rejected(p.added)
    else if next == '\0' || next == ',' || next == ']' then
      Parsed(Parser(None, Wider(p.padding, text),
                    p.added + [Set(if p.start.Some? then p.start.value else value, value)]))
    else if next == '-' then Parsed(Parser(Some(value), Wider(p.padding, text), p.added))
    else Rejected(p.added)
  }

  function Parse(s: string, p: Parser): Outcome
    decreases |s|
  {
    if s == "" then Parsed(p)
    else
      var k := DigitRun(s);
      if k == 0 then Parse(s[1..], p)
      else if k == |s| then TakeNumber(p, s, '\0')
      else
        var o := TakeNumber(p, s[..k], s[k]);
        if o.Parsed? then Parse(s[k + 1..], o.p) else o
  }

  // ---- well-formed lists --------------------------------------------------

  /** A number, or an interval given by its two ends in either order. */
  datatype Item = One(n: string) | Span(a: string, b: string)

  predicate IsNumber(s: string) {
    s != "" && forall i :: 0 <= i < |s| ==> IsDigit(s[i])
  }

  predicate IsItem(e: Item) {
    match e
    case One(n) => IsNumber(n)
    case Span(a, b) => IsNumber(a) && IsNumber(b)
  }

  function ItemText(e: Item): string {
    match e
    case One(n) => n
    case Span(a, b) => a + "-" + b
  }

  function ItemRange(e: Item): Range {
    match e
    case One(n) => Set(DigitsFrom(n, 0), DigitsFrom(n, 0))
    case Span(a, b) => Set(DigitsFrom(a, 0), DigitsFrom(b, 0))
  }

  function ItemWidth(padding: nat, e: Item): nat {
    match e
    case One(n) => Wider(padding, n)
    case Span(a, b) => Wider(Wider(padding, a), b)
  }

  /** Its numbers are below the largest long, where the parser gives up. */
  predicate Fits(e: Item) {
    match e
    case One(n) => DigitsFrom(n, 0) < LONG_MAX
    case Span(a, b) => DigitsFrom(a, 0) < LONG_MAX && DigitsFrom(b, 0) < LONG_MAX
  }

  function ListText(items: seq<Item>, close: string): string {
    if items == [] then close
    else if |items| == 1 then ItemText(items[0]) + close
    else ItemText(items[0]) + "," + ListText(items[1..], close)
  }

  function ItemRanges(items: seq<Item>): seq<Range> {
    if items == [] then [] else [ItemRange(items[0])] + ItemRanges(items[1..])
  }

  function ItemsWidth(padding: nat, items: seq<Item>): nat
    decreases |items|
  {
    if items == [] then padding else ItemsWidth(ItemWidth(padding, items[0]), items[1..])
  }

  // ---- what the parser makes of them --------------------------------------

  lemma {:induction false} RunOf(n: string, rest: string)
    requires IsNumber(n) && (rest == "" || !IsDigit(rest[0]))
    ensures DigitRun(n + rest) == |n|
    decreases |n|
  {
    if |n| == 1 {
      assert (n + rest)[1..] == rest;
    } else {
      assert (n + rest)[1..] == n[1..] + rest;
      RunOf(n[1..], rest);
    }
  }

  /** A number followed by a separator is taken as one token. */
  lemma ParseNumber(n: string, c: char, rest: string, p: Parser)
    requires IsNumber(n) && !IsDigit(c)
    ensures Parse(n + [c] + rest, p) ==
      if TakeNumber(p, n, c).Parsed? then Parse(rest, TakeNumber(p, n, c).p) else TakeNumber(p, n, c)
  {
    var s := n + [c] + rest;
    assert s == n + ([c] + rest);
    RunOf(n, [c] + rest);
    assert s[..|n|] == n && s[|n|] == c && s[|n| + 1..] == rest;
  }

  lemma ParseLastNumber(n: string, p: Parser)
    requires IsNumber(n)
    ensures Parse(n, p) == TakeNumber(p, n, '\0')
  {
    RunOf(n, "");
    assert n + "" == n;
  }

  predicate IsTail(tail: string) {
    tail == "" || tail[0] == ',' || tail[0] == ']'
  }

  /** The parser after the last number of an item. */
  function Closed(p: Parser, n: string): Parser {
    var value := DigitsFrom(n, 0);
    Parser(None, Wider(p.padding, n), p.added + [Set(if p.start.Some? then p.start.value else value, value)])
  }

  lemma ParseEnd(n: string, tail: string, p: Parser)
    requires IsNumber(n) && IsTail(tail)
    ensures Parse(n + tail, p) ==
      if DigitsFrom(n, 0) >= LONG_MAX then Rejected(p.added)
      else if tail == "" then Parsed(Closed(p, n))
      else Parse(tail[1..], Closed(p, n))
  {
    if tail == "" {
      assert n + tail == n;
      ParseLastNumber(n, p);
    } else {
      assert n + [tail[0]] + tail[1..] == n + tail;
      ParseNumber(n, tail[0], tail[1..], p);
    }
  }

  function AfterItem(p: Parser, e: Item): Parser {
    Parser(None, ItemWidth(p.padding, e), p.added + [ItemRange(e)])
  }

  /** An item, then either the end of the text or a separator and the rest. */
  lemma ParseItem(e: Item, tail: string, p: Parser)
    requires IsItem(e) && p.start.None? && IsTail(tail)
    ensures Parse(ItemText(e) + tail, p) ==
      if !Fits(e) then Rejected(p.added)
      else if tail == "" then Parsed(AfterItem(p, e))
      else Parse(tail[1..], AfterItem(p, e))
  {
    match e
    case One(n) => ParseEnd(n, tail, p);
    case Span(a, b) =>
      assert ItemText(e) + tail == a + ['-'] + (b + tail);
      ParseNumber(a, '-', b + tail, p);
      if DigitsFrom(a, 0) < LONG_MAX {
        ParseEnd(b, tail, TakeNumber(p, a, '-').p);
      }
  }

  /** The items before the first one with a number too large. */
  function Fitting(items: seq<Item>): seq<Item> {
    if items == [] || !Fits(items[0]) then [] else [items[0]] + Fitting(items[1..])
  }

  predicate AllFit(items: seq<Item>) {
    forall i :: 0 <= i < |items| ==> Fits(items[i])
  }

  /** What the parser makes of a whole list. */
  function Expected(items: seq<Item>, p: Parser): Outcome {
    if AllFit(items) then Parsed(Parser(None, ItemsWidth(p.padding, items), p.added + ItemRanges(items)))
    else Rejected(p.added + ItemRanges(Fitting(items)))
  }

  lemma ExpectedStep(items: seq<Item>, p: Parser)
    requires items != [] && Fits(items[0])
    ensures Expected(items, p) == Expected(items[1..], AfterItem(p, items[0]))
  {
    var e, rest := items[0], items[1..];
    assert items == [e] + rest;
    assert AllFit(items) <==> AllFit(rest);
    assert Fitting(items)[1..] == Fitting(rest);
    assert p.added + ([ItemRange(e)] + ItemRanges(rest)) == p.added + [ItemRange(e)] + ItemRanges(rest);
    var more := ItemRanges(Fitting(rest));
    assert p.added + ([ItemRange(e)] + more) == p.added + [ItemRange(e)] + more;
  }

  lemma ExpectedNothing(p: Parser)
    ensures Expected([], p) == Parsed(p.(start := None))
  {
    assert p.added + [] == p.added;
  }

  lemma ExpectedReject(items: seq<Item>, p: Parser)
    requires items != [] && !Fits(items[0])
    ensures Expected(items, p) == Rejected(p.added)
  {
    assert ItemRanges(Fitting(items)) == [] && p.added + [] == p.added;
  }

  /**
   The parser adds exactly the listed intervals and finds the widest zero-led number; a
   number too large makes it give up after the items before.
   */
  lemma {:induction false} ParseList(items: seq<Item>, close: string, p: Parser)
    requires p.start.None? && (close == "" || close == "]")
    requires forall i :: 0 <= i < |items| ==> IsItem(items[i])
    ensures Parse(ListText(items, close), p) == Expected(items, p)
    decreases |items|
  {
    if items == [] {
      ParseClose(close, p);
      ExpectedNothing(p);
    } else {
      var e, rest := items[0], items[1..];
      var tail := if |items| == 1 then close else "," + ListText(rest, close);
      assert ListText(items, close) == ItemText(e) + tail;
      ParseItem(e, tail, p);
      if !Fits(e) {
        ExpectedReject(items, p);
      } else {
        ExpectedStep(items, p);
        if |items| == 1 {
          assert rest == [];
          ExpectedNothing(AfterItem(p, e));
          if close == "]" { assert close[1..] == ""; }
        } else {
          assert tail[1..] == ListText(rest, close);
          ParseList(rest, close, AfterItem(p, e));
        }
      }
    }
  }

  lemma ParseClose(close: string, p: Parser)
    requires close == "" || close == "]"
    ensures Parse(close, p) == Parsed(p)
  {
    if close == "]" { assert close[1..] == ""; }
  }

  // ---- the parser in place ------------------------------------------------

  lemma {:induction false} RunExtends(s: string, k: nat)
    requires k <= |s| && forall i :: 0 <= i < k ==> IsDigit(s[i])
    requires k == |s| || !IsDigit(s[k])
    ensures DigitRun(s) == k
    decreases |s|
  {
    if k > 0 { RunExtends(s[1..], k - 1); }
  }

  /** Where the parser stands: what is left of the text, once past its end nothing. */
  function Remaining(s: string, pos: nat, p: Parser): Outcome {
    if pos <= |s| then Parse(s[pos..], p) else Parsed(p)
  }

  /** The character at `end`, or the terminator. */
  function CharAt(s: string, end: nat): char
    requires end <= |s|
  {
    if end == |s| then '\0' else s[end]
  }

  /** The parser after the digits from `begin` to `end`, if there are any. */
  function Token(s: string, begin: nat, end: nat, p: Parser): Outcome
    requires begin <= end <= |s|
  {
    if begin == end then Parsed(p) else TakeNumber(p, s[begin..end], CharAt(s, end))
  }

  lemma ParseToken(s: string, begin: nat, end: nat, p: Parser)
    requires begin <= end <= |s| && (forall i :: begin <= i < end ==> IsDigit(s[i])) && (end == |s| || !IsDigit(s[end]))
    ensures var o := Token(s, begin, end, p);
      Remaining(s, begin, p) == if o.Parsed? then Remaining(s, end + 1, o.p) else o
  {
    var t := s[begin..];
    RunExtends(t, end - begin);
    assert t[..end - begin] == s[begin..end];
    if end < |s| {
      assert t[end - begin + 1..] == s[end + 1..];
      assert t[1..] == s[begin + 1..];
    } else {
      assert t == s[begin..end];
    }
  }

  /** `list` has grown from `before` by the ranges of `added`. */
  ghost predicate Grew(before: seq<Range>, after: seq<Range>, added: seq<Range>) {
    Normal(after) && forall x :: Has(after, x) <==> Has(before, x) || Has(added, x)
  }

  lemma GrewByOne(before: seq<Range>, mid: seq<Range>, after: seq<Range>, added: seq<Range>, r: Range)
    requires Grew(before, mid, added) && Normal(after) && forall x :: Has(after, x) <==> Has(mid, x) || In(r, x)
    ensures Grew(before, after, added + [r])
  {
    forall x ensures Has(added + [r], x) <==> Has(added, x) || In(r, x) {
      HasAppend(added, r, x);
    }
  }

  /** What the parser returns. */
  function StatusOf(o: Outcome): int {
    if o.Parsed? then o.p.padding else -1
  }

  function AddedBy(o: Outcome): seq<Range> {
    if o.Parsed? then o.p.added else o.added
  }

  method SkipDigits(s: string, begin: nat) returns (end: nat)
    requires begin <= |s|
    ensures begin <= end <= |s| && (forall i :: begin <= i < end ==> IsDigit(s[i])) && (end == |s| || !IsDigit(s[end]))
  {
    end := begin;
    while end < |s| && IsDigit(s[end])
      invariant begin <= end <= |s| && forall i :: begin <= i < end ==> IsDigit(s[i])
    {
      end := end + 1;
    }
  }

  /** One number of the text: note its width, and start an interval or add one. */
  method TakeText(list: RangeList, text: string, next: char, start: Option<int>, padding: nat,
                  ghost before: seq<Range>, ghost added: seq<Range>)
    returns (ok: bool, start': Option<int>, padding': nat, ghost added': seq<Range>)
    requires Normal(list.ranges) && Grew(before, list.ranges, added)
    modifies list
    ensures Grew(before, list.ranges, added')
    ensures TakeNumber(Parser(start, padding, added), text, next) ==
            if ok then Parsed(Parser(start', padding', added')) else Rejected(added')
  {
    start', padding', added' := start, padding, added;
    var value := DigitsFrom(text, 0);
    if value >= LONG_MAX {
      return false, start', padding', added';
    }
    padding' := Wider(padding, text);
    if next == '\0' || next == ',' || next == ']' {
      var range := Set(if start.Some? then start.value else value, value);
      ghost var mid := list.ranges;
      var st := list.AddRange(range);
      GrewByOne(before, mid, list.ranges, added, range);
      added' := added + [range];
      start' := None;
      ok := true;
    } else if next == '-' {
      start' := Some(value);
      ok := true;
    } else {
      ok := false;
    }
  }

  /** The digits from `begin`, if any, and the character after them. */
  method TakeToken(list: RangeList, s: string, begin: nat, start: Option<int>, padding: nat,
                   ghost before: seq<Range>, ghost added: seq<Range>)
    returns (ok: bool, end: nat, start': Option<int>, padding': nat, ghost added': seq<Range>)
    requires begin <= |s| && Grew(before, list.ranges, added)
    modifies list
    ensures begin <= end <= |s| && Grew(before, list.ranges, added')
    ensures Remaining(s, begin, Parser(start, padding, added)) ==
            if ok then Remaining(s, end + 1, Parser(start', padding', added')) else Rejected(added')
  {
    ok, start', padding', added' := true, start, padding, added;
    end := SkipDigits(s, begin);
    ParseToken(s, begin, end, Parser(start, padding, added));
    if end > begin {
      ok, start', padding', added' :=
        TakeText(list, s[begin..end], CharAt(s, end), start, padding, before, added);
    }
  }

  /** The loop of nl_rangelist_add_list. */
  method AddTokens(list: RangeList, s: string, first: nat) returns (status: int, ghost o: Outcome)
    requires first <= |s| && Normal(list.ranges)
    modifies list
    ensures o == Remaining(s, first, Parser(None, 0, []))
    ensures status == StatusOf(o) && Grew(old(list.ranges), list.ranges, AddedBy(o))
  {
    var ok, begin, start: Option<int>, padding := true, first, None, 0;
    ghost var added: seq<Range> := [];
    o := Remaining(s, first, Parser(None, 0, []));
    while ok && begin <= |s|
      invariant begin <= |s| + 1
      invariant o == if ok then Remaining(s, begin, Parser(start, padding, added)) else Rejected(added)
      invariant Grew(old(list.ranges), list.ranges, added)
      decreases |s| + 1 - begin
    {
      var end;
      ok, end, start, padding, added := TakeToken(list, s, begin, start, padding, old(list.ranges), added);
      begin := end + 1;
    }
    status := if ok then padding else -1;
  }

  /** nl_rangelist_add_list: the padding, or -1 if the text was rejected. */
  method AddList(list: RangeList, s: string) returns (status: int)
    requires Normal(list.ranges)
    modifies list
    ensures var o := Parse(s[if s != "" && s[0] == '[' then 1 else 0..], Parser(None, 0, []));
      status == StatusOf(o) && Grew(old(list.ranges), list.ranges, AddedBy(o))
  {
    ghost var o;
    status, o := AddTokens(list, s, if s != "" && s[0] == '[' then 1 else 0);
  }

  /**
   A well-formed list, with or without brackets: exactly the union of the listed intervals
   is added and the longest zero-led number gives the padding; or, if some number is too
   large, -1 is returned and the items before it have been added.
   */
  method AddWellFormedList(list: RangeList, items: seq<Item>, brackets: bool) returns (status: int)
    requires Normal(list.ranges) && forall i :: 0 <= i < |items| ==> IsItem(items[i])
    modifies list
    ensures Normal(list.ranges)
    ensures AllFit(items) ==>
      && status == ItemsWidth(0, items)
      && forall x :: Has(list.ranges, x) <==> old(Has(list.ranges, x)) || Has(ItemRanges(items), x)
    ensures !AllFit(items) ==>
      && status == -1
      && forall x :: Has(list.ranges, x) <==> old(Has(list.ranges, x)) || Has(ItemRanges(Fitting(items)), x)
  {
    var body := ListText(items, if brackets then "]" else "");
    var s := if brackets then "[" + body else body;
    if brackets { assert s[1..] == body; } else { FirstIsNotBracket(items, ""); assert s[0..] == body; }
    ParseList(items, if brackets then "]" else "", Parser(None, 0, []));
    assert [] + ItemRanges(items) == ItemRanges(items);
    assert [] + ItemRanges(Fitting(items)) == ItemRanges(Fitting(items));
    status := AddList(list, s);
  }

  lemma FirstIsNotBracket(items: seq<Item>, close: string)
    requires close == "" && forall i :: 0 <= i < |items| ==> IsItem(items[i])
    ensures var s := ListText(items, close); s == "" || s[0] != '['
  {
    if items != [] {
      assert IsItem(items[0]);
      assert IsDigit(ItemText(items[0])[0]);
    }
  }

  /** A number of the item that is written with a leading zero. */
  predicate ZeroLed(e: Item, n: string) {
    n != "" && n[0] == '0' && match e case One(a) => n == a case Span(a, b) => n == a || n == b
  }

  /** The width found is that of some zero-led number of the list, and none is longer. */
  lemma {:induction false} WidthIsLongest(padding: nat, items: seq<Item>)
    ensures ItemsWidth(padding, items) >= padding
    ensures forall i, n :: 0 <= i < |items| && ZeroLed(items[i], n) ==> ItemsWidth(padding, items) >= |n|
    ensures ItemsWidth(padding, items) == padding
            || exists i, n :: 0 <= i < |items| && ZeroLed(items[i], n) && ItemsWidth(padding, items) == |n|
    decreases |items|
  {
    if items != [] {
      var rest := items[1..];
      var w := ItemWidth(padding, items[0]);
      WidthIsLongest(w, rest);
      WidthOfItem(padding, items[0]);
      forall i, n | 0 <= i < |items| && ZeroLed(items[i], n) ensures ItemsWidth(padding, items) >= |n| {
        if i > 0 { assert items[i] == rest[i - 1]; }
      }
      if j, n :| 0 <= j < |rest| && ZeroLed(rest[j], n) && ItemsWidth(w, rest) == |n| {
        assert items[j + 1] == rest[j] && ZeroLed(items[j + 1], n);
      } else if w != padding {
        var n :| ZeroLed(items[0], n) && w == |n|;
      }
    }
  }

  lemma WidthOfItem(padding: nat, e: Item)
    ensures ItemWidth(padding, e) >= padding
    ensures forall n :: ZeroLed(e, n) ==> ItemWidth(padding, e) >= |n|
    ensures ItemWidth(padding, e) == padding || exists n :: ZeroLed(e, n) && ItemWidth(padding, e) == |n|
  {
    match e
    case One(n) => if ItemWidth(padding, e) != padding { assert ZeroLed(e, n); }
    case Span(a, b) =>
      if ItemWidth(padding, e) != padding {
        assert (ZeroLed(e, a) && ItemWidth(padding, e) == |a|) || (ZeroLed(e, b) && ItemWidth(padding, e) == |b|);
      }
  }
}
