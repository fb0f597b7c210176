/**
  Field paths such as "bmx[0-3].startoff": the scanner (db/flist.c, flist_split and flist_scan), the
  index normalisation of flist_parse, and the printed form (db/print.c, print_flist_1).
*/
module FieldPath {
  import opened Arith

  datatype Option<T> = None | Some(value: T)

  function Prepend<T>(v: seq<T>, o: Option<seq<T>>): Option<seq<T>> {
    if o == None then None else Some(v + o.value)
  }

  lemma {:induction false} PrependNone<T>(o: Option<seq<T>>)
    ensures Prepend([], o) == o
  {
    if o.Some? { assert [] + o.value == o.value; }
  }

  lemma {:induction false} PrependMore<T>(v: seq<T>, t: T, o: Option<seq<T>>)
    ensures Prepend(v, Prepend([t], o)) == Prepend(v + [t], o)
  {
    if o.Some? { assert v + ([t] + o.value) == (v + [t]) + o.value; }
  }

  datatype Tok = Name(text: string) | Num(text: string) | Text(text: string) | LB | RB | Dash | Dot

  /** A node of a chain: the name and the index range with its two flags. */
  datatype Node = Node(name: string, low: int, high: int, okLow: bool, okHigh: bool)

  const INT_MAX := 0x7fff_ffff

  // ---------------------------------------------------------------------------
  // Tokens
  // ---------------------------------------------------------------------------

  predicate InitIdChar(c: char) { 'a' <= c <= 'z' }

  predicate NumChar(c: char) { '0' <= c <= '9' }

  predicate IdChar(c: char) { InitIdChar(c) || NumChar(c) || c == '_' }

  predicate XNumChar(c: char) { NumChar(c) || c == 'x' || c == 'X' }

  /** strspn */
  function Span(s: string, p: char -> bool): (n: nat)
    ensures n <= |s|
  {
    if s == "" || !p(s[0]) then 0 else 1 + Span(s[1..], p)
  }

  /** strrchr, for a quote */
  function LastQuote(s: string, k: nat): (r: Option<nat>)
    requires k <= |s|
    ensures r.Some? ==> r.value < k
  {
    if k == 0 then None else if s[k - 1] == '"' then Some(k - 1) else LastQuote(s, k - 1)
  }

  /** The first token of a string that is not empty, and how much of the string it takes. */
  function FirstTok(s: string): (r: Option<(Tok, nat)>)
    requires s != ""
    ensures r.Some? ==> 0 < r.value.1 <= |s|
  {
    if s[0] == '"' then
      match LastQuote(s[1..], |s| - 1)
      case None => None
      case Some(k) => Some((Text(s[1..k + 1]), k + 2))
    else if InitIdChar(s[0]) then Some((Name(s[..Span(s, IdChar)]), Span(s, IdChar)))
    else if NumChar(s[0]) then Some((Num(s[..Span(s, XNumChar)]), Span(s, XNumChar)))
    else if s[0] == '[' then Some((LB, 1))
    else if s[0] == '-' then Some((Dash, 1))
    else if s[0] == ']' then Some((RB, 1))
    else if s[0] == '.' then Some((Dot, 1))
    else None
  }

  /** All tokens, or nothing when a character is bad or a quote is not closed. */
  function Tokens(s: string): Option<seq<Tok>> {
    if s == "" then Some([])
    else
      match FirstTok(s)
      case None => None
      case Some((t, n)) => Prepend([t], Tokens(s[n..]))
  }

  /** The token at a position: what is left after it has the remaining tokens. */
  method NextTok(s: string, pos: nat) returns (first: Option<(Tok, nat)>)
    requires pos < |s|
    ensures first == None ==> Tokens(s[pos..]) == None
    ensures first.Some? ==> 0 < first.value.1 <= |s| - pos
                            && Tokens(s[pos..]) == Prepend([first.value.0], Tokens(s[pos + first.value.1..]))
  {
    first := FirstTok(s[pos..]);
    if first.Some? { assert s[pos..][first.value.1..] == s[pos + first.value.1..]; }
  }

  /** flist_split */
  method Split(s: string) returns (r: Option<seq<Tok>>)
    ensures r == Tokens(s)
  {
    var v: seq<Tok> := [];
    var pos := 0;
    PrependNone(Tokens(s));
    assert s[0..] == s;
    while pos < |s|
      invariant 0 <= pos <= |s| && Tokens(s) == Prepend(v, Tokens(s[pos..]))
    {
      var first := NextTok(s, pos);
      if first == None {
        return None;
      }
      PrependMore(v, first.value.0, Tokens(s[pos + first.value.1..]));
      v, pos := v + [first.value.0], pos + first.value.1;
    }
    assert s[|s|..] == "" && v + [] == v;
    r := Some(v);
  }

  // ---------------------------------------------------------------------------
  // Numbers
  // ---------------------------------------------------------------------------

  function Digit(c: char): nat
    requires NumChar(c)
  {
    c as nat - '0' as nat
  }

  /** The digits of a string in some base; other characters are refused. */
  function Digits(s: string, base: nat): Option<nat> {
    if s == "" then Some(0)
    else
      var c := s[|s| - 1];
      match Digits(s[..|s| - 1], base)
      case None => None
      case Some(v) => if NumChar(c) && Digit(c) < base then Some(v * base + Digit(c)) else None
  }

  /** strtoul with base 0, where nothing may follow the number. */
  function StrToUl(s: string): Option<nat> {
    if |s| > 2 && s[0] == '0' && (s[1] == 'x' || s[1] == 'X') then Digits(s[2..], 16)
    else if |s| > 1 && s[0] == '0' then Digits(s, 8)
    else if s == "" then None
    else Digits(s, 10)
  }

  /** The conversion from unsigned long to int. */
  function ToInt(v: nat): int {
    var w := (if v < 0x1_0000_0000_0000_0000 then v else 0xffff_ffff_ffff_ffff) % 0x1_0000_0000;
    if w <= INT_MAX then w else w - 0x1_0000_0000
  }

  // ---------------------------------------------------------------------------
  // Chains
  // ---------------------------------------------------------------------------

  function NumberAt(ts: seq<Tok>, p: nat): Option<int> {
    if p < |ts| && ts[p].Num? then
      match StrToUl(ts[p].text)
      case None => None
      case Some(v) => Some(ToInt(v))
    else None
  }

  predicate Is(ts: seq<Tok>, p: nat, t: Tok) { p < |ts| && ts[p] == t }

  /** The node that starts at token p, and the token behind it and its dot. */
  function NodeAt(ts: seq<Tok>, p: nat): (r: Option<(Node, nat)>)
    requires p < |ts|
    ensures r.Some? ==> p < r.value.1 <= |ts|
  {
    if !ts[p].Name? then None
    else
      var name := ts[p].text;
      if !Is(ts, p + 1, LB) then AfterDot(ts, p + 1, Node(name, 0, 0, false, false))
      else
        match NumberAt(ts, p + 2)
        case None => None
        case Some(low) =>
          if Is(ts, p + 3, RB) then AfterDot(ts, p + 4, Node(name, low, 0, true, false))
          else if !Is(ts, p + 3, Dash) then None
          else
            match NumberAt(ts, p + 4)
            case None => None
            case Some(high) =>
              if Is(ts, p + 5, RB) then AfterDot(ts, p + 6, Node(name, low, high, true, true)) else None
  }

  /** A dot may follow, but must not come last. */
  function AfterDot(ts: seq<Tok>, p: nat, n: Node): (r: Option<(Node, nat)>)
    requires p <= |ts|
    ensures r.Some? ==> p <= r.value.1 <= |ts|
  {
    if !Is(ts, p, Dot) then Some((n, p)) else if p + 1 == |ts| then None else Some((n, p + 1))
  }

  function Nodes(ts: seq<Tok>, p: nat): Option<seq<Node>>
    requires p <= |ts|
    decreases |ts| - p
  {
    if p == |ts| then Some([])
    else
      match NodeAt(ts, p)
      case None => None
      case Some((n, q)) => Prepend([n], Nodes(ts, q))
  }

  /** The chain that a path names; an empty path names an empty chain. */
  function Chain(s: string): Option<seq<Node>> {
    match Tokens(s)
    case None => None
    case Some(ts) => Nodes(ts, 0)
  }

  /** flist_scan */
  method Scan(s: string) returns (r: Option<seq<Node>>)
    ensures r == Chain(s)
  {
    var split := Split(s);
    if split == None {
      return None;
    }
    var ts := split.value;
    var chain: seq<Node> := [];
    var p := 0;
    PrependNone(Nodes(ts, 0));
    while p < |ts|
      invariant 0 <= p <= |ts| && Nodes(ts, 0) == Prepend(chain, Nodes(ts, p))
    {
      match NodeAt(ts, p)
      case None =>
        return None;
      case Some((n, q)) =>
        PrependMore(chain, n, Nodes(ts, q));
        chain, p := chain + [n], q;
    }
    assert chain + [] == chain;
    r := Some(chain);
  }

  /** The index part of flist_parse for an array: a single index is a range of one. */
  function Normal(n: Node): Node {
    if n.okLow && !n.okHigh then n.(high := n.low, okHigh := true) else n
  }

  function NormalAll(ns: seq<Node>): seq<Node> {
    if ns == [] then [] else [Normal(ns[0])] + NormalAll(ns[1..])
  }

  // ---------------------------------------------------------------------------
  // Printing
  // ---------------------------------------------------------------------------

  const DIGITS: string := "0123456789"

  /** "%d" of a number that is not negative */
  function NumText(n: nat): string { Decimal(n, DIGITS) }

  /** "%d" */
  function Printed(n: int): string { if n < 0 then "-" + NumText(-n) else NumText(n) }

  function IndexText(n: Node): string {
    if !n.okLow then ""
    else if n.low == n.high then "[" + Printed(n.low) + "]"
    else "[" + Printed(n.low) + "-" + Printed(n.high) + "]"
  }

  /** The path as print_flist_1 prints it. */
  function Path(ns: seq<Node>): string {
    if ns == [] then ""
    else if |ns| == 1 then ns[0].name + IndexText(ns[0])
    else ns[0].name + (IndexText(ns[0]) + ("." + Path(ns[1..])))
  }

  // ---------------------------------------------------------------------------
  // The round trip
  // ---------------------------------------------------------------------------

  predicate ValidName(s: string) {
    s != "" && InitIdChar(s[0]) && forall i :: 0 <= i < |s| ==> IdChar(s[i])
  }

  /** The characters of a number; whether they make one up is up to strtoul. */
  predicate Numeral(s: string) {
    s != "" && NumChar(s[0]) && forall i :: 0 <= i < |s| ==> XNumChar(s[i])
  }

  /** A parsed node: no index, or a range of indices. */
  predicate ParsedNode(n: Node) {
    && ValidName(n.name) && n.okLow == n.okHigh
    && (if n.okLow then 0 <= n.low <= INT_MAX && 0 <= n.high <= INT_MAX else n.low == n.high == 0)
  }

  predicate ParsedChain(ns: seq<Node>) {
    forall i :: 0 <= i < |ns| ==> ParsedNode(ns[i])
  }

  lemma {:induction false} SpanOf(a: string, rest: string, p: char -> bool)
    requires (forall i :: 0 <= i < |a| ==> p(a[i])) && (rest == "" || !p(rest[0]))
    ensures Span(a + rest, p) == |a|
  {
    if a == "" {
      assert a + rest == rest;
    } else {
      assert (a + rest)[1..] == a[1..] + rest;
      SpanOf(a[1..], rest, p);
    }
  }

  lemma {:induction false} NumTextDigits(n: nat)
    ensures NumText(n) != "" && forall i :: 0 <= i < |NumText(n)| ==> NumChar(NumText(n)[i])
    ensures Digits(NumText(n), 10) == Some(n)
    ensures |NumText(n)| > 1 ==> NumText(n)[0] != '0'
    ensures n > 0 ==> NumText(n)[0] != '0'
  {
    if n >= 10 {
      NumTextDigits(n / 10);
      assert NumText(n)[..|NumText(n)| - 1] == NumText(n / 10);
    } else {
      assert NumText(n)[..0] == "";
    }
  }

  lemma {:induction false} PlainNumText(s: string)
    requires s != "" && (|s| > 1 ==> s[0] != '0')
    ensures StrToUl(s) == Digits(s, 10)
  {
  }

  lemma {:induction false} SmallInt(n: nat)
    requires n <= INT_MAX
    ensures ToInt(n) == n
  {
  }

  lemma {:induction false} NumberBack(ts: seq<Tok>, p: nat, n: nat)
    requires n <= INT_MAX && p < |ts| && ts[p] == Num(NumText(n))
    ensures NumberAt(ts, p) == Some(n)
  {
    NumTextDigits(n);
    PlainNumText(NumText(n));
    SmallInt(n);
  }

  lemma {:induction false} NameToken(name: string, rest: string)
    requires ValidName(name) && (rest == "" || !IdChar(rest[0]))
    ensures Tokens(name + rest) == Prepend([Name(name)], Tokens(rest))
  {
    SpanOf(name, rest, IdChar);
    assert (name + rest)[..|name|] == name && (name + rest)[|name|..] == rest;
  }

  lemma {:induction false} NumeralToken(s: string, rest: string)
    requires Numeral(s) && (rest == "" || !XNumChar(rest[0]))
    ensures Tokens(s + rest) == Prepend([Num(s)], Tokens(rest))
  {
    SpanOf(s, rest, XNumChar);
    assert (s + rest)[..|s|] == s && (s + rest)[|s|..] == rest && (s + rest)[0] == s[0];
  }

  lemma {:induction false} NumToken(n: nat, rest: string)
    requires rest == "" || !XNumChar(rest[0])
    ensures Tokens(NumText(n) + rest) == Prepend([Num(NumText(n))], Tokens(rest))
  {
    NumTextDigits(n);
    NumeralToken(NumText(n), rest);
  }

  lemma {:induction false} PunctToken(c: char, rest: string)
    requires c == '[' || c == '-' || c == ']' || c == '.'
    ensures Tokens([c] + rest)
         == Prepend([if c == '[' then LB else if c == '-' then Dash else if c == ']' then RB else Dot], Tokens(rest))
  {
    assert ([c] + rest)[1..] == rest;
  }

  /** The tokens of a node's index. */
  function IndexToks(n: Node): seq<Tok>
    requires ParsedNode(n)
  {
    if !n.okLow then []
    else if n.low == n.high then [LB, Num(NumText(n.low)), RB]
    else [LB, Num(NumText(n.low)), Dash, Num(NumText(n.high)), RB]
  }

  function Toks(ns: seq<Node>): seq<Tok>
    requires ParsedChain(ns)
  {
    if ns == [] then []
    else [Name(ns[0].name)] + IndexToks(ns[0]) + (if |ns| == 1 then [] else [Dot] + Toks(ns[1..]))
  }

  lemma {:induction false} IndexTokens(n: Node, rest: string)
    requires ParsedNode(n)
    ensures Tokens(IndexText(n) + rest) == Prepend(IndexToks(n), Tokens(rest))
  {
    if !n.okLow {
      assert IndexText(n) + rest == rest;
      PrependNone(Tokens(rest));
    } else if n.low == n.high {
      assert IndexText(n) + rest == "[" + (NumText(n.low) + ("]" + rest));
      PunctNum('[', LB, n.low, "]" + rest);
      PunctToken(']', rest);
      SingleJoin(Num(NumText(n.low)), Tokens(rest));
    } else {
      RangeTokens(n, rest);
    }
  }

  lemma {:induction false} RangeText(a: string, b: string, rest: string)
    ensures "[" + a + "-" + b + "]" + rest == "[" + (a + ("-" + (b + ("]" + rest))))
  {
  }

  lemma {:induction false} RangeTokens(n: Node, rest: string)
    requires ParsedNode(n) && n.okLow && n.low != n.high
    ensures Tokens(IndexText(n) + rest) == Prepend(IndexToks(n), Tokens(rest))
  {
    RangeText(NumText(n.low), NumText(n.high), rest);
    RangeOf(n.low, n.high, rest);
  }

  /** A punctuation character and a number, before something that is not part of the number. */
  lemma {:induction false} PunctNum(c: char, t: Tok, n: nat, s: string)
    requires (c == '[' && t == LB) || (c == '-' && t == Dash)
    requires s != "" && !XNumChar(s[0])
    ensures Tokens([c] + (NumText(n) + s)) == Prepend([t, Num(NumText(n))], Tokens(s))
  {
    PunctToken(c, NumText(n) + s);
    NumToken(n, s);
    Join1(t, [Num(NumText(n))], Tokens(s));
    assert [t] + [Num(NumText(n))] == [t, Num(NumText(n))];
  }

  lemma {:induction false} RangeOf(low: nat, high: nat, rest: string)
    ensures Tokens("[" + (NumText(low) + ("-" + (NumText(high) + ("]" + rest)))))
         == Prepend([LB, Num(NumText(low)), Dash, Num(NumText(high)), RB], Tokens(rest))
  {
    PunctNum('-', Dash, high, "]" + rest);
    PunctToken(']', rest);
    PunctNum('[', LB, low, "-" + (NumText(high) + ("]" + rest)));
    RangeJoin(Num(NumText(low)), Num(NumText(high)), Tokens(rest));
  }

  lemma {:induction false} RangeJoin(a: Tok, b: Tok, o: Option<seq<Tok>>)
    ensures Prepend([LB, a], Prepend([Dash, b], Prepend([RB], o))) == Prepend([LB, a, Dash, b, RB], o)
  {
    if o.Some? { assert [LB, a] + ([Dash, b] + ([RB] + o.value)) == [LB, a, Dash, b, RB] + o.value; }
  }

  lemma {:induction false} SingleJoin(a: Tok, o: Option<seq<Tok>>)
    ensures Prepend([LB, a], Prepend([RB], o)) == Prepend([LB, a, RB], o)
  {
    if o.Some? { assert [LB, a] + ([RB] + o.value) == [LB, a, RB] + o.value; }
  }

  lemma {:induction false} NodeTokens(n: Node, rest: string)
    requires ParsedNode(n) && (rest == "" || rest[0] == '.')
    ensures Tokens(n.name + (IndexText(n) + rest)) == Prepend([Name(n.name)] + IndexToks(n), Tokens(rest))
  {
    var s := IndexText(n) + rest;
    assert s == "" || s[0] == '.' || s[0] == '[';
    NameToken(n.name, s);
    IndexTokens(n, rest);
    Join1(Name(n.name), IndexToks(n), Tokens(rest));
  }

  lemma {:induction false} Join1(a: Tok, v: seq<Tok>, o: Option<seq<Tok>>)
    ensures Prepend([a], Prepend(v, o)) == Prepend([a] + v, o)
  {
    if o.Some? { assert [a] + (v + o.value) == ([a] + v) + o.value; }
  }

  /** A printed path splits into the tokens of its chain. */
  lemma {:induction false} PathTokens(ns: seq<Node>)
    requires ParsedChain(ns)
    ensures Tokens(Path(ns)) == Some(Toks(ns))
  {
    if |ns| == 1 {
      assert ns[0].name + IndexText(ns[0]) == ns[0].name + (IndexText(ns[0]) + "") by {
        assert IndexText(ns[0]) + "" == IndexText(ns[0]);
      }
      NodeTokens(ns[0], "");
    } else if |ns| > 1 {
      PathTokens(ns[1..]);
      NodeTokens(ns[0], "." + Path(ns[1..]));
      PunctToken('.', Path(ns[1..]));
    }
  }

  /** A node as it comes out of the scanner: a single index has no upper end yet. */
  function Raw(n: Node): Node {
    if n.okLow && n.low == n.high then n.(high := 0, okHigh := false) else n
  }

  function RawAll(ns: seq<Node>): seq<Node> {
    if ns == [] then [] else [Raw(ns[0])] + RawAll(ns[1..])
  }

  /** Behind the node: the end, or a dot with more after it. */
  ghost predicate Followed(ts: seq<Tok>, p: nat, more: bool) {
    if more then Is(ts, p, Dot) && p + 1 < |ts| else p == |ts|
  }

  lemma {:induction false} DotBack(ts: seq<Tok>, p: nat, n: Node, more: bool)
    requires Followed(ts, p, more)
    ensures p <= |ts| && AfterDot(ts, p, n) == Some((n, if more then p + 1 else p))
  {
  }

  lemma {:induction false} NodeBack(ts: seq<Tok>, p: nat, n: Node, more: bool)
    requires ParsedNode(n) && p + 1 + |IndexToks(n)| <= |ts| && ts[p] == Name(n.name)
    requires forall j :: 0 <= j < |IndexToks(n)| ==> ts[p + 1 + j] == IndexToks(n)[j]
    requires Followed(ts, p + 1 + |IndexToks(n)|, more)
    ensures NodeAt(ts, p) == Some((Raw(n), p + 1 + |IndexToks(n)| + if more then 1 else 0))
  {
    var q := p + 1 + |IndexToks(n)|;
    DotBack(ts, q, Raw(n), more);
    if n.okLow {
      var v := IndexToks(n);
      assert ts[p + 1 + 0] == v[0] && ts[p + 1 + 1] == v[1] && ts[p + 1 + 2] == v[2];
      NumberBack(ts, p + 2, n.low);
      if n.low != n.high {
        assert ts[p + 1 + 3] == v[3] && ts[p + 1 + 4] == v[4];
        NumberBack(ts, p + 4, n.high);
      }
    }
  }

  /** The tokens of a chain make up the chain as it comes out of the scanner. */
  lemma {:induction false} ToksBack(ts: seq<Tok>, p: nat, ns: seq<Node>)
    requires ParsedChain(ns) && p <= |ts| && ts[p..] == Toks(ns)
    ensures Nodes(ts, p) == Some(RawAll(ns))
    decreases |ns|
  {
    if ns != [] {
      var k, more := 1 + |IndexToks(ns[0])|, |ns| > 1;
      var rest := Toks(ns[1..]);
      HeadToks(ts, p, ns, k, more);
      NodeBack(ts, p, ns[0], more);
      var q := p + k + if more then 1 else 0;
      NodesStep(ts, p, Raw(ns[0]), q);
      ToksBack(ts, q, ns[1..]);
    }
  }

  lemma {:induction false} NodesStep(ts: seq<Tok>, p: nat, n: Node, q: nat)
    requires p < |ts| && NodeAt(ts, p) == Some((n, q))
    ensures p < q <= |ts| && Nodes(ts, p) == Prepend([n], Nodes(ts, q))
  {
  }

  lemma {:induction false} HeadToks(ts: seq<Tok>, p: nat, ns: seq<Node>, k: nat, more: bool)
    requires ParsedChain(ns) && ns != [] && p <= |ts| && ts[p..] == Toks(ns) && more == (|ns| > 1)
    requires k == 1 + |IndexToks(ns[0])|
    ensures p + k <= |ts| && ts[p] == Name(ns[0].name) && Followed(ts, p + k, more)
    ensures forall j :: 0 <= j < |IndexToks(ns[0])| ==> ts[p + 1 + j] == IndexToks(ns[0])[j]
    ensures var q := p + k + if more then 1 else 0; q <= |ts| && ts[q..] == Toks(ns[1..])
  {
    var t := ts[p..];
    assert t[0] == Name(ns[0].name) && ts[p] == t[0];
    forall j | 0 <= j < |IndexToks(ns[0])|
      ensures ts[p + 1 + j] == IndexToks(ns[0])[j]
    {
      assert t[1 + j] == IndexToks(ns[0])[j] && ts[p + 1 + j] == t[1 + j];
    }
    if more {
      assert t[k] == Dot && ts[p + k] == t[k] && Toks(ns[1..]) != [];
      assert t[k + 1..] == Toks(ns[1..]) && ts[p + k + 1..] == t[k + 1..];
    }
  }

  lemma {:induction false} NormalRaw(ns: seq<Node>)
    requires ParsedChain(ns)
    ensures NormalAll(RawAll(ns)) == ns
  {
    if ns != [] {
      assert ParsedNode(ns[0]);
      NormalRaw(ns[1..]);
      assert RawAll(ns)[1..] == RawAll(ns[1..]);
    }
  }

  lemma {:induction false} PathScans(ns: seq<Node>)
    requires ParsedChain(ns)
    ensures Chain(Path(ns)) == Some(RawAll(ns))
  {
    PathTokens(ns);
    ToksBack(Toks(ns), 0, ns);
  }

  /** Printing a chain and scanning the path again gives the chain, once single indices are normalised. */
  lemma {:induction false} PrintThenScan(ns: seq<Node>)
    requires ParsedChain(ns)
    ensures Chain(Path(ns)).Some? && NormalAll(Chain(Path(ns)).value) == ns
  {
    PathScans(ns);
    NormalRaw(ns);
  }

  lemma {:induction false} RawSame(ns: seq<Node>)
    requires ParsedChain(ns)
    ensures RawAll(ns) == ns <==> forall i :: 0 <= i < |ns| && ns[i].okLow ==> ns[i].low != ns[i].high
  {
    if ns != [] {
      RawSame(ns[1..]);
      assert ParsedNode(ns[0]) && ns == [ns[0]] + ns[1..];
      assert RawAll(ns)[0] == Raw(ns[0]) && RawAll(ns)[1..] == RawAll(ns[1..]);
      assert forall i :: 0 <= i < |ns[1..]| ==> ns[1..][i] == ns[i + 1];
    }
  }

  /** Without the normalisation it gives the chain exactly when no index is a single one. */
  lemma {:induction false} ScanAloneExact(ns: seq<Node>)
    requires ParsedChain(ns)
    ensures Chain(Path(ns)) == Some(ns) <==> forall i :: 0 <= i < |ns| && ns[i].okLow ==> ns[i].low != ns[i].high
  {
    PathScans(ns);
    RawSame(ns);
  }
}
