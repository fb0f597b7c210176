/**
  Which paths the scanner of db/flist.c accepts, and what they name: a grammar for paths on its own,
  with names, indices in the notations of strtoul, and dots.
*/
module PathGrammar {
  import opened FieldPath

  // ---------------------------------------------------------------------------
  // The grammar
  // ---------------------------------------------------------------------------

  datatype Index = NoIndex | One(low: string) | Two(low: string, high: string)

  /** A name, its index as it is written, and whether a dot follows. */
  datatype Item = Item(name: string, index: Index, dot: bool)

  /** A name: a lower-case letter, and then letters, digits and underscores. */
  predicate NameText(s: string) {
    && s != "" && 'a' <= s[0] <= 'z'
    && forall i :: 0 <= i < |s| ==> 'a' <= s[i] <= 'z' || '0' <= s[i] <= '9' || s[i] == '_'
  }

  /** The characters of a number: a digit, and then digits and the x of 0x. */
  predicate NumberText(s: string) {
    s != "" && '0' <= s[0] <= '9' && forall i :: 0 <= i < |s| ==> '0' <= s[i] <= '9' || s[i] == 'x' || s[i] == 'X'
  }

  predicate Number(s: string) { NumberText(s) && StrToUl(s).Some? }

  predicate IndexOk(x: Index) {
    match x
    case NoIndex => true
    case One(low) => Number(low)
    case Two(low, high) => Number(low) && Number(high)
  }

  /** A dot is never last, and a name without an index needs one before the next. */
  predicate ItemOk(items: seq<Item>, i: nat)
    requires i < |items|
  {
    && NameText(items[i].name) && IndexOk(items[i].index)
    && (items[i].dot ==> i + 1 < |items|)
    && (items[i].index.NoIndex? && !items[i].dot ==> i + 1 == |items|)
  }

  predicate Indexed(items: seq<Item>) {
    forall i :: 0 <= i < |items| ==> IndexOk(items[i].index)
  }

  predicate ItemsOk(items: seq<Item>) {
    Indexed(items) && forall i :: 0 <= i < |items| ==> ItemOk(items, i)
  }

  function IndexStr(x: Index): string {
    match x
    case NoIndex => ""
    case One(low) => "[" + low + "]"
    case Two(low, high) => "[" + low + "-" + high + "]"
  }

  /** The path that the items make up. */
  function PathOf(items: seq<Item>): string {
    if items == [] then ""
    else items[0].name + IndexStr(items[0].index) + (if items[0].dot then "." else "") + PathOf(items[1..])
  }

  function Value(s: string): int
    requires Number(s)
  {
    ToInt(StrToUl(s).value)
  }

  function NodeOf(it: Item): Node
    requires IndexOk(it.index)
  {
    match it.index
    case NoIndex => Node(it.name, 0, 0, false, false)
    case One(low) => Node(it.name, Value(low), 0, true, false)
    case Two(low, high) => Node(it.name, Value(low), Value(high), true, true)
  }

  function NodesOf(items: seq<Item>): seq<Node>
    requires Indexed(items)
  {
    if items == [] then [] else [NodeOf(items[0])] + NodesOf(items[1..])
  }

  // ---------------------------------------------------------------------------
  // Tokens and text
  // ---------------------------------------------------------------------------

  function TokText(t: Tok): string {
    match t
    case Name(s) => s
    case Num(s) => s
    case Text(s) => "\"" + s + "\""
    case LB => "["
    case RB => "]"
    case Dash => "-"
    case Dot => "."
  }

  function TextOf(ts: seq<Tok>): string {
    if ts == [] then "" else TokText(ts[0]) + TextOf(ts[1..])
  }

  predicate TokOk(t: Tok) {
    match t
    case Name(s) => ValidName(s)
    case Num(s) => Numeral(s)
    case Text(_) => false
    case _ => true
  }

  /** The token ends where this character follows. */
  predicate EndsAt(t: Tok, c: char) {
    match t
    case Name(_) => !IdChar(c)
    case Num(_) => !XNumChar(c)
    case _ => true
  }

  predicate Apart(ts: seq<Tok>, i: nat)
    requires i + 1 < |ts|
  {
    TokText(ts[i + 1]) != "" && EndsAt(ts[i], TokText(ts[i + 1])[0])
  }

  /** Tokens that are found again in their text. */
  predicate Lexed(ts: seq<Tok>) {
    && (forall i :: 0 <= i < |ts| ==> TokOk(ts[i]))
    && (forall i :: 0 <= i < |ts| - 1 ==> Apart(ts, i))
  }

  lemma {:induction false} SpanMax(s: string, p: char -> bool)
    ensures forall i :: 0 <= i < Span(s, p) ==> p(s[i])
    ensures Span(s, p) < |s| ==> !p(s[Span(s, p)])
  {
    if s != "" && p(s[0]) {
      SpanMax(s[1..], p);
      forall i | 0 <= i < Span(s, p)
        ensures p(s[i])
      {
        if i > 0 { assert s[1..][i - 1] == s[i]; }
      }
    }
  }

  lemma {:induction false} TextAppend(a: seq<Tok>, b: seq<Tok>)
    ensures TextOf(a + b) == TextOf(a) + TextOf(b)
  {
    if a == [] {
      assert a + b == b;
    } else {
      assert (a + b)[1..] == a[1..] + b;
      TextAppend(a[1..], b);
    }
  }

  /** The first token of a text. */
  lemma {:induction false} FirstBack(t: Tok, rest: string)
    requires TokOk(t) && (rest == "" || EndsAt(t, rest[0]))
    ensures Tokens(TokText(t) + rest) == Prepend([t], Tokens(rest))
  {
    match t
    case Name(s) => NameToken(s, rest);
    case Num(s) => NumeralToken(s, rest);
    case LB => PunctToken('[', rest);
    case RB => PunctToken(']', rest);
    case Dash => PunctToken('-', rest);
    case Dot => PunctToken('.', rest);
  }

  lemma {:induction false} FirstOfText(ts: seq<Tok>)
    requires ts != [] && TokText(ts[0]) != ""
    ensures TextOf(ts) != "" && TextOf(ts)[0] == TokText(ts[0])[0]
  {
  }

  lemma {:induction false} LexedFirst(ts: seq<Tok>)
    requires ts != [] && Lexed(ts)
    ensures TokOk(ts[0]) && Lexed(ts[1..])
    ensures TextOf(ts[1..]) == "" || EndsAt(ts[0], TextOf(ts[1..])[0])
  {
    forall i | 0 <= i < |ts[1..]| - 1
      ensures Apart(ts[1..], i)
    {
      assert Apart(ts, i + 1);
    }
    if |ts| > 1 {
      assert Apart(ts, 0);
      FirstOfText(ts[1..]);
    }
  }

  /** Such tokens are found again. */
  lemma {:induction false} LexedBack(ts: seq<Tok>)
    requires Lexed(ts)
    ensures Tokens(TextOf(ts)) == Some(ts)
  {
    if ts != [] {
      LexedFirst(ts);
      LexedBack(ts[1..]);
      FirstBack(ts[0], TextOf(ts[1..]));
      assert [ts[0]] + ts[1..] == ts;
    }
  }

  /** Where a token that is not a quoted text comes from. */
  lemma {:induction false} FirstIs(s: string, t: Tok, n: nat)
    requires s != "" && FirstTok(s) == Some((t, n)) && !t.Text?
    ensures 0 < n <= |s| && TokOk(t) && TokText(t) == s[..n] && (n < |s| ==> EndsAt(t, s[n]))
  {
    if InitIdChar(s[0]) {
      SpanMax(s, IdChar);
    } else if NumChar(s[0]) {
      SpanMax(s, XNumChar);
    }
  }

  lemma {:induction false} FirstOf(s: string, ts: seq<Tok>) returns (n: nat)
    requires s != "" && Tokens(s) == Some(ts)
    ensures ts != [] && FirstTok(s) == Some((ts[0], n)) && 0 < n <= |s| && Tokens(s[n..]) == Some(ts[1..])
  {
    n := FirstTok(s).value.1;
    assert ts[1..] == Tokens(s[n..]).value;
  }

  lemma {:induction false} LexedMore(t: Tok, rest: seq<Tok>)
    requires TokOk(t) && Lexed(rest) && (TextOf(rest) != "" ==> EndsAt(t, TextOf(rest)[0]))
    ensures Lexed([t] + rest) && TextOf([t] + rest) == TokText(t) + TextOf(rest)
  {
    var ts := [t] + rest;
    if rest != [] {
      assert TokOk(rest[0]) && TokText(rest[0]) != "";
      FirstOfText(rest);
    }
    forall i | 0 <= i < |ts| - 1
      ensures Apart(ts, i)
    {
      if i > 0 { assert Apart(rest, i - 1); }
    }
    assert ts[1..] == rest;
  }

  predicate Unquoted(ts: seq<Tok>) {
    forall i :: 0 <= i < |ts| ==> !ts[i].Text?
  }

  lemma {:induction false} LexedFrom(s: string, ts: seq<Tok>, n: nat)
    requires s != "" && ts != [] && FirstTok(s) == Some((ts[0], n)) && !ts[0].Text?
    requires n <= |s| && Lexed(ts[1..]) && TextOf(ts[1..]) == s[n..]
    ensures Lexed(ts) && TextOf(ts) == s
  {
    FirstIs(s, ts[0], n);
    LexedMore(ts[0], ts[1..]);
    assert ts == [ts[0]] + ts[1..] && s == s[..n] + s[n..];
  }

  /** Only such tokens are found, as long as none is a quoted text, and their text is the path. */
  lemma {:induction false} TokensLexed(s: string, ts: seq<Tok>)
    requires Tokens(s) == Some(ts) && Unquoted(ts)
    ensures Lexed(ts) && TextOf(ts) == s
    decreases |s|
  {
    if s != "" {
      var n := FirstOf(s, ts);
      TokensLexed(s[n..], ts[1..]);
      LexedFrom(s, ts, n);
    }
  }

  lemma {:induction false} LastQuoteIs(s: string, k: nat, q: nat)
    requires q < k <= |s| && s[q] == '"' && forall i :: q < i < k ==> s[i] != '"'
    ensures LastQuote(s, k) == Some(q)
    decreases k
  {
    if q < k - 1 { LastQuoteIs(s, k - 1, q); }
  }

  lemma {:induction false} NoLastQuote(s: string, k: nat)
    requires k <= |s| && forall i :: 0 <= i < k ==> s[i] != '"'
    ensures LastQuote(s, k) == None
  {
    if k > 0 { NoLastQuote(s, k - 1); }
  }

  lemma {:induction false} FirstStep(s: string, t: Tok, n: nat)
    requires s != "" && FirstTok(s) == Some((t, n))
    ensures n <= |s| && Tokens(s) == Prepend([t], Tokens(s[n..]))
  {
  }

  /** A quoted text reaches to the last quote there is, whatever is in between. */
  lemma {:induction false} QuotedToken(t: string, rest: string)
    requires forall i :: 0 <= i < |rest| ==> rest[i] != '"'
    ensures Tokens("\"" + t + "\"" + rest) == Prepend([Text(t)], Tokens(rest))
  {
    var s := "\"" + t + "\"" + rest;
    var n := |t|;
    assert s[1..] == t + "\"" + rest && s[1..][n] == '"';
    assert forall i :: n < i < |s| - 1 ==> s[1..][i] == rest[i - n - 1];
    LastQuoteIs(s[1..], |s| - 1, n);
    assert s[1..n + 1] == t && s[n + 2..] == rest;
    FirstStep(s, Text(t), n + 2);
  }

  /** A quote that is not closed is an error. */
  lemma {:induction false} OpenQuote(t: string)
    requires forall i :: 0 <= i < |t| ==> t[i] != '"'
    ensures Tokens("\"" + t) == None
  {
    var s := "\"" + t;
    assert s[1..] == t;
    NoLastQuote(t, |t|);
  }

  // ---------------------------------------------------------------------------
  // Items and tokens
  // ---------------------------------------------------------------------------

  function IndexToksOf(x: Index): seq<Tok> {
    match x
    case NoIndex => []
    case One(low) => [LB, Num(low), RB]
    case Two(low, high) => [LB, Num(low), Dash, Num(high), RB]
  }

  function ItemToks(it: Item): seq<Tok> {
    [Name(it.name)] + IndexToksOf(it.index) + (if it.dot then [Dot] else [])
  }

  function AllToks(items: seq<Item>): seq<Tok> {
    if items == [] then [] else ItemToks(items[0]) + AllToks(items[1..])
  }

  lemma {:induction false} TextTwo(a: Tok, b: Tok)
    ensures TextOf([b]) == TokText(b) && TextOf([a, b]) == TokText(a) + TokText(b)
  {
    assert [b][1..] == [] && TokText(b) + "" == TokText(b);
    assert [a, b][1..] == [b];
  }

  lemma {:induction false} IndexTextIs(x: Index)
    ensures TextOf(IndexToksOf(x)) == IndexStr(x)
  {
    if x.One? {
      TextTwo(LB, Num(x.low));
      TextTwo(LB, RB);
      TextAppend([LB, Num(x.low)], [RB]);
      assert IndexToksOf(x) == [LB, Num(x.low)] + [RB];
    } else if x.Two? {
      var low, high := [LB, Num(x.low)], [Dash, Num(x.high)];
      TextTwo(LB, Num(x.low));
      TextTwo(Dash, Num(x.high));
      TextTwo(LB, RB);
      TextAppend(low, high);
      TextAppend(low + high, [RB]);
      assert IndexToksOf(x) == low + high + [RB];
      assert ("[" + x.low) + ("-" + x.high) == "[" + x.low + "-" + x.high;
    }
  }

  lemma {:induction false} PathIsText(items: seq<Item>)
    ensures TextOf(AllToks(items)) == PathOf(items)
  {
    if items != [] {
      var it := items[0];
      var dot := if it.dot then [Dot] else [];
      PathIsText(items[1..]);
      TextAppend(ItemToks(it), AllToks(items[1..]));
      TextAppend([Name(it.name)] + IndexToksOf(it.index), dot);
      TextAppend([Name(it.name)], IndexToksOf(it.index));
      IndexTextIs(it.index);
    }
  }

  // ---------------------------------------------------------------------------
  // What the grammar gives is accepted
  // ---------------------------------------------------------------------------

  /** The item's tokens stand in the sequence, and behind them is what the item says. */
  ghost predicate StandsAt(ts: seq<Tok>, p: nat, it: Item) {
    && p + |ItemToks(it)| <= |ts| && ts[p..p + |ItemToks(it)|] == ItemToks(it)
    && (it.dot ==> p + |ItemToks(it)| < |ts|)
    && (!it.dot ==> !Is(ts, p + |ItemToks(it)|, Dot))
    && (it.index.NoIndex? && !it.dot ==> !Is(ts, p + 1, LB))
  }

  lemma {:induction false} NumberIs(ts: seq<Tok>, p: nat, s: string)
    requires Is(ts, p, Num(s)) && Number(s)
    ensures NumberAt(ts, p) == Some(Value(s))
  {
  }

  lemma {:induction false} ItemBack(ts: seq<Tok>, p: nat, it: Item)
    requires StandsAt(ts, p, it) && IndexOk(it.index)
    ensures p < |ts| && NodeAt(ts, p) == Some((NodeOf(it), p + |ItemToks(it)|))
  {
    var v := ItemToks(it);
    assert forall j :: 0 <= j < |v| ==> ts[p + j] == ts[p..p + |v|][j] == v[j];
    assert ts[p + 0] == v[0];
    match it.index
    case NoIndex =>
      if it.dot { assert ts[p + 1] == v[1]; }
    case One(low) =>
      assert ts[p + 1] == v[1] && ts[p + 2] == v[2] && ts[p + 3] == v[3];
      if it.dot { assert ts[p + 4] == v[4]; }
      NumberIs(ts, p + 2, low);
    case Two(low, high) =>
      assert ts[p + 1] == v[1] && ts[p + 2] == v[2] && ts[p + 3] == v[3] && ts[p + 4] == v[4] && ts[p + 5] == v[5];
      if it.dot { assert ts[p + 6] == v[6]; }
      NumberIs(ts, p + 2, low);
      NumberIs(ts, p + 4, high);
  }

  lemma {:induction false} RestOk(items: seq<Item>)
    requires items != [] && ItemsOk(items)
    ensures ItemsOk(items[1..])
  {
    forall i | 0 <= i < |items[1..]|
      ensures ItemOk(items[1..], i)
    {
      assert ItemOk(items, i + 1) && items[1..][i] == items[i + 1];
    }
  }

  /** A sequence of items begins with a name, if with anything. */
  lemma {:induction false} FirstIsName(items: seq<Item>)
    ensures (AllToks(items) == [] <==> items == []) && (items != [] ==> AllToks(items)[0] == Name(items[0].name))
  {
  }

  lemma {:induction false} SliceSplit(ts: seq<Tok>, p: nat, v: seq<Tok>, rest: seq<Tok>)
    requires p <= |ts| && ts[p..] == v + rest
    ensures p + |v| <= |ts| && ts[p..p + |v|] == v && ts[p + |v|..] == rest
  {
    assert ts[p..p + |v|] == ts[p..][..|v|] && ts[p + |v|..] == ts[p..][|v|..];
  }

  lemma {:induction false} HeadStands(ts: seq<Tok>, p: nat, items: seq<Item>)
    requires p <= |ts| && ts[p..] == AllToks(items) && items != [] && ItemOk(items, 0)
    ensures StandsAt(ts, p, items[0]) && ts[p + |ItemToks(items[0])|..] == AllToks(items[1..])
  {
    var v, rest := ItemToks(items[0]), AllToks(items[1..]);
    SliceSplit(ts, p, v, rest);
    FirstIsName(items[1..]);
    if rest != [] { assert ts[p + |v|] == rest[0]; }
  }

  /** The items' tokens stand in the sequence one after the other, up to its end. */
  ghost predicate Spelled(ts: seq<Tok>, p: nat, items: seq<Item>)
    decreases |items|
  {
    if items == [] then p == |ts| else StandsAt(ts, p, items[0]) && Spelled(ts, p + |ItemToks(items[0])|, items[1..])
  }

  lemma {:induction false} ItemsSpelled(ts: seq<Tok>, p: nat, items: seq<Item>)
    requires p <= |ts| && ts[p..] == AllToks(items) && ItemsOk(items)
    ensures Spelled(ts, p, items)
    decreases |items|
  {
    if items != [] {
      assert ItemOk(items, 0);
      HeadStands(ts, p, items);
      RestOk(items);
      ItemsSpelled(ts, p + |ItemToks(items[0])|, items[1..]);
    }
  }

  lemma {:induction false} SpelledStep(ts: seq<Tok>, p: nat, items: seq<Item>) returns (q: nat)
    requires items != [] && Spelled(ts, p, items) && Indexed(items)
    ensures q == p + |ItemToks(items[0])| <= |ts| && StandsAt(ts, p, items[0]) && IndexOk(items[0].index)
    ensures Spelled(ts, q, items[1..]) && Indexed(items[1..])
  {
    q := p + |ItemToks(items[0])|;
  }

  lemma {:induction false} NodeStands(ts: seq<Tok>, p: nat, it: Item, q: nat)
    requires p <= |ts| && StandsAt(ts, p, it) && IndexOk(it.index) && q == p + |ItemToks(it)|
    ensures Nodes(ts, p) == Prepend([NodeOf(it)], Nodes(ts, q))
  {
    ItemBack(ts, p, it);
    NodesStep(ts, p, NodeOf(it), q);
  }

  lemma {:induction false} ItemsBack(ts: seq<Tok>, p: nat, items: seq<Item>)
    requires p <= |ts| && Spelled(ts, p, items) && Indexed(items)
    ensures Nodes(ts, p) == Some(NodesOf(items))
    decreases |items|
  {
    if items != [] {
      var q := SpelledStep(ts, p, items);
      NodeStands(ts, p, items[0], q);
      ItemsBack(ts, q, items[1..]);
    }
  }

  /** Two lists of tokens, where the first one ends before the second. */
  lemma {:induction false} LexedJoin(a: seq<Tok>, b: seq<Tok>)
    requires Lexed(a) && Lexed(b)
    requires a != [] && b != [] ==> TokText(b[0]) != "" && EndsAt(a[|a| - 1], TokText(b[0])[0])
    ensures Lexed(a + b)
  {
    var ts := a + b;
    forall i | 0 <= i < |ts| - 1
      ensures Apart(ts, i)
    {
      if i + 1 < |a| {
        assert Apart(a, i);
      } else if i >= |a| {
        assert Apart(b, i - |a|);
      }
    }
  }

  lemma {:induction false} IndexLexed(x: Index)
    requires IndexOk(x)
    ensures Lexed(IndexToksOf(x))
  {
  }

  lemma {:induction false} ItemLexed(it: Item)
    requires NameText(it.name) && IndexOk(it.index)
    ensures Lexed(ItemToks(it))
  {
    var x := IndexToksOf(it.index);
    IndexLexed(it.index);
    LexedJoin([Name(it.name)], x);
    LexedJoin([Name(it.name)] + x, if it.dot then [Dot] else []);
  }

  lemma {:induction false} ItemsLexed(items: seq<Item>)
    requires ItemsOk(items)
    ensures Lexed(AllToks(items))
  {
    if items != [] {
      assert ItemOk(items, 0);
      ItemLexed(items[0]);
      RestOk(items);
      ItemsLexed(items[1..]);
      FirstIsName(items[1..]);
      if |items| > 1 { assert ItemOk(items, 1); }
      LexedJoin(ItemToks(items[0]), AllToks(items[1..]));
    }
  }

  /** Every path of the grammar is accepted, and names the nodes of its items. */
  lemma {:induction false} GrammarAccepted(items: seq<Item>)
    requires ItemsOk(items)
    ensures Chain(PathOf(items)) == Some(NodesOf(items))
  {
    PathIsText(items);
    ItemsLexed(items);
    LexedBack(AllToks(items));
    ItemsSpelled(AllToks(items), 0, items);
    ItemsBack(AllToks(items), 0, items);
  }

  // ---------------------------------------------------------------------------
  // Nothing else is accepted
  // ---------------------------------------------------------------------------

  lemma {:induction false} NoTextAt(ts: seq<Tok>, p: nat)
    requires p < |ts| && NodeAt(ts, p).Some?
    ensures forall i :: p <= i < NodeAt(ts, p).value.1 ==> !ts[i].Text?
  {
  }

  lemma {:induction false} NoText(ts: seq<Tok>, p: nat)
    requires p <= |ts| && Nodes(ts, p).Some?
    ensures forall i :: p <= i < |ts| ==> !ts[i].Text?
    decreases |ts| - p
  {
    if p < |ts| {
      NoTextAt(ts, p);
      NoText(ts, NodeAt(ts, p).value.1);
    }
  }

  /** The index that stands behind a name. */
  function IndexAt(ts: seq<Tok>, p: nat): Index
    requires p < |ts| && NodeAt(ts, p).Some?
  {
    if !Is(ts, p + 1, LB) then NoIndex
    else if Is(ts, p + 3, RB) then One(ts[p + 2].text)
    else Two(ts[p + 2].text, ts[p + 4].text)
  }

  function ItemAt(ts: seq<Tok>, p: nat): Item
    requires p < |ts| && NodeAt(ts, p).Some?
  {
    var x := IndexAt(ts, p);
    Item(ts[p].text, x, Is(ts, p + 1 + |IndexToksOf(x)|, Dot))
  }

  lemma {:induction false} ItemFine(ts: seq<Tok>, p: nat)
    requires Lexed(ts) && p < |ts| && NodeAt(ts, p).Some?
    ensures NameText(ItemAt(ts, p).name) && IndexOk(ItemAt(ts, p).index)
  {
    assert TokOk(ts[p]);
    if Is(ts, p + 1, LB) {
      assert TokOk(ts[p + 2]);
      if !Is(ts, p + 3, RB) { assert TokOk(ts[p + 4]); }
    }
  }

  lemma {:induction false} IndexStands(ts: seq<Tok>, p: nat)
    requires p < |ts| && NodeAt(ts, p).Some?
    ensures var x := IndexToksOf(IndexAt(ts, p));
            && p + 1 + |x| <= |ts| && ts[p + 1..p + 1 + |x|] == x
            && (Is(ts, p + 1 + |x|, Dot) ==> p + 2 + |x| < |ts|)
  {
    if !Is(ts, p + 1, LB) {
      assert ts[p + 1..p + 1] == [];
    } else if Is(ts, p + 3, RB) {
      assert ts[p + 1..p + 4] == [LB, ts[p + 2], RB];
    } else {
      assert ts[p + 1..p + 6] == [LB, ts[p + 2], Dash, ts[p + 4], RB];
    }
  }

  lemma {:induction false} StandsBy(ts: seq<Tok>, p: nat, it: Item, x: seq<Tok>)
    requires p + 1 + |x| <= |ts| && ts[p] == Name(it.name) && x == IndexToksOf(it.index)
    requires ts[p + 1..p + 1 + |x|] == x && it.dot == Is(ts, p + 1 + |x|, Dot) && (it.dot ==> p + 2 + |x| < |ts|)
    requires it.index.NoIndex? ==> !Is(ts, p + 1, LB)
    ensures StandsAt(ts, p, it)
  {
    var q := p + 1 + |x|;
    if it.dot {
      assert ts[p..q + 1] == [ts[p]] + ts[p + 1..q] + [Dot];
    } else {
      assert ts[p..q] == [ts[p]] + ts[p + 1..q] + [];
    }
  }

  lemma {:induction false} ItemStands(ts: seq<Tok>, p: nat)
    requires p < |ts| && NodeAt(ts, p).Some?
    ensures StandsAt(ts, p, ItemAt(ts, p))
  {
    IndexStands(ts, p);
    StandsBy(ts, p, ItemAt(ts, p), IndexToksOf(IndexAt(ts, p)));
  }

  /** Two names do not stand side by side. */
  lemma {:induction false} NamesApart(ts: seq<Tok>, p: nat)
    requires Lexed(ts) && p + 1 < |ts| && ts[p].Name?
    ensures !ts[p + 1].Name?
  {
    assert Apart(ts, p) && TokOk(ts[p + 1]);
  }

  lemma {:induction false} MoreItems(it: Item, rest: seq<Item>)
    requires ItemsOk(rest) && NameText(it.name) && IndexOk(it.index)
    requires (it.dot ==> rest != []) && (it.index.NoIndex? && !it.dot ==> rest == [])
    ensures AllToks([it] + rest) == ItemToks(it) + AllToks(rest)
    ensures ItemsOk([it] + rest) && NodesOf([it] + rest) == [NodeOf(it)] + NodesOf(rest)
  {
    var items := [it] + rest;
    assert items[1..] == rest;
    forall i | 0 <= i < |items|
      ensures ItemOk(items, i)
    {
      if i > 0 { assert ItemOk(rest, i - 1); }
    }
  }

  lemma {:induction false} RestFits(ts: seq<Tok>, p: nat, it: Item, rest: seq<Item>)
    requires Lexed(ts) && StandsAt(ts, p, it) && AllToks(rest) == ts[p + |ItemToks(it)|..]
    ensures (it.dot ==> rest != []) && (it.index.NoIndex? && !it.dot ==> rest == [])
    ensures ts[p..] == ItemToks(it) + AllToks(rest)
  {
    var q := p + |ItemToks(it)|;
    FirstIsName(rest);
    if rest != [] {
      assert ts[q] == ts[q..][0] && ts[p] == ts[p..q][0];
      if q == p + 1 { NamesApart(ts, p); }
    }
  }

  lemma {:induction false} ItemsFrom(ts: seq<Tok>, p: nat) returns (items: seq<Item>)
    requires Lexed(ts) && p <= |ts| && Nodes(ts, p).Some?
    ensures AllToks(items) == ts[p..] && ItemsOk(items) && Nodes(ts, p) == Some(NodesOf(items))
    decreases |ts| - p
  {
    if p == |ts| {
      items := [];
    } else {
      var it := ItemAt(ts, p);
      var q := p + |ItemToks(it)|;
      ItemFine(ts, p);
      ItemStands(ts, p);
      ItemBack(ts, p, it);
      NodesStep(ts, p, NodeOf(it), q);
      var rest := ItemsFrom(ts, q);
      RestFits(ts, p, it, rest);
      MoreItems(it, rest);
      items := [it] + rest;
    }
  }

  /** What the scanner accepts is a path of the grammar. */
  lemma {:induction false} AcceptedIsGrammar(s: string) returns (items: seq<Item>)
    requires Chain(s).Some?
    ensures ItemsOk(items) && PathOf(items) == s && Chain(s) == Some(NodesOf(items))
  {
    var ts := Tokens(s).value;
    NoText(ts, 0);
    TokensLexed(s, ts);
    items := ItemsFrom(ts, 0);
    PathIsText(items);
  }

  lemma {:induction false} NoneIn(s: string, c: char)
    requires forall i :: 0 <= i < |s| ==> s[i] != c
    ensures multiset(s)[c] == 0
  {
    assert c !in s;
  }

  /** No quote, and as many brackets open as close. */
  predicate Shaped(s: string) { '"' !in s && multiset(s)['['] == multiset(s)[']'] }

  lemma {:induction false} ShapedJoin(a: string, b: string)
    requires Shaped(a) && Shaped(b)
    ensures Shaped(a + b)
  {
  }

  predicate Plain(a: string) {
    forall i :: 0 <= i < |a| ==> a[i] != '"' && a[i] != '[' && a[i] != ']'
  }

  lemma {:induction false} Bracketed(a: string)
    requires Plain(a)
    ensures Shaped("[" + a + "]")
  {
    NoneIn(a, '[');
    NoneIn(a, ']');
  }

  lemma {:induction false} RangeShape(low: string, high: string)
    requires Plain(low) && Plain(high)
    ensures Shaped("[" + low + "-" + high + "]")
  {
    Bracketed(low + "-" + high);
    assert "[" + low + "-" + high + "]" == "[" + (low + "-" + high) + "]";
  }

  lemma {:induction false} NumberPlain(s: string)
    requires NumberText(s)
    ensures Plain(s)
  {
  }

  lemma {:induction false} IndexShape(x: Index)
    requires IndexOk(x)
    ensures Shaped(IndexStr(x))
  {
    if x.One? {
      NumberPlain(x.low);
      Bracketed(x.low);
    } else if x.Two? {
      NumberPlain(x.low);
      NumberPlain(x.high);
      RangeShape(x.low, x.high);
    }
  }

  lemma {:induction false} PathShape(items: seq<Item>)
    requires ItemsOk(items)
    ensures Shaped(PathOf(items))
  {
    if items != [] {
      assert ItemOk(items, 0);
      RestOk(items);
      PathShape(items[1..]);
      IndexShape(items[0].index);
      var name, dot := items[0].name, if items[0].dot then "." else "";
      NoneIn(name, '[');
      NoneIn(name, ']');
      ShapedJoin(name, IndexStr(items[0].index));
      ShapedJoin(name + IndexStr(items[0].index), dot);
      ShapedJoin(name + IndexStr(items[0].index) + dot, PathOf(items[1..]));
    }
  }

  lemma {:induction false} LastIn(a: string, b: string)
    requires b != ""
    ensures a + b != "" && (a + b)[|a + b| - 1] == b[|b| - 1]
  {
  }

  lemma {:induction false} LastOfName(name: string, x: string)
    requires NameText(name) && (x == "" || x[|x| - 1] == ']')
    ensures name + x != "" && (name + x)[|name + x| - 1] != '.'
  {
    if x == "" {
      assert name + x == name && IdChar(name[|name| - 1]);
    } else {
      LastIn(name, x);
    }
  }

  lemma {:induction false} LastCharacter(items: seq<Item>)
    requires ItemsOk(items) && items != []
    ensures PathOf(items) != "" && PathOf(items)[|PathOf(items)| - 1] != '.'
  {
    assert ItemOk(items, 0);
    var name, x := items[0].name, IndexStr(items[0].index);
    if |items| > 1 {
      RestOk(items);
      LastCharacter(items[1..]);
      LastIn(name + x + (if items[0].dot then "." else ""), PathOf(items[1..]));
    } else {
      assert PathOf(items) == name + x + "" + "" == name + x;
      LastOfName(name, x);
    }
  }

  /** What is never accepted: a quote, a dot at the end, a bracket without its partner. */
  lemma {:induction false} Refused(s: string)
    requires '"' in s || (s != "" && s[|s| - 1] == '.') || multiset(s)['['] != multiset(s)[']']
    ensures Chain(s) == None
  {
    if Chain(s).Some? {
      var items := AcceptedIsGrammar(s);
      PathShape(items);
      LastCharacter(items);
      assert false;
    }
  }

  // ---------------------------------------------------------------------------
  // Numbers
  // ---------------------------------------------------------------------------

  predicate Decimals(s: string) {
    forall i :: 0 <= i < |s| ==> '0' <= s[i] <= '9'
  }

  lemma {:induction false} DigitsMore(s: string, c: char, base: nat)
    requires '0' <= c <= '9'
    ensures Digits(s + [c], base)
         == match Digits(s, base)
            case None => None
            case Some(v) => if c as int - 48 < base then Some(v * base + (c as int - 48)) else None
  {
    assert (s + [c])[..|s|] == s;
  }

  lemma {:induction false} DigitsFit(s: string, base: nat)
    requires Decimals(s) && base >= 10
    ensures Digits(s, base).Some?
  {
    if s != "" { DigitsFit(s[..|s| - 1], base); }
  }

  lemma {:induction false} HexAlone(x: char)
    requires x == 'x' || x == 'X'
    ensures StrToUl(['0', x]) == None
  {
    assert ['0', x][..1] == ['0'];
  }

  lemma {:induction false} HexDigits(x: char, s: string)
    requires (x == 'x' || x == 'X') && s != ""
    ensures StrToUl(['0', x] + s) == Digits(s, 16)
  {
    assert (['0', x] + s)[2..] == s;
  }

  /** After 0x every further digit counts sixteenfold. */
  lemma {:induction false} HexNumber(x: char, s: string, c: char)
    requires (x == 'x' || x == 'X') && Decimals(s) && '0' <= c <= '9'
    ensures StrToUl(['0', x]) == None && StrToUl(['0', x] + [c]) == Some(c as int - 48)
    ensures s != "" ==> StrToUl(['0', x] + s).Some?
                        && StrToUl(['0', x] + s + [c]) == Some(16 * StrToUl(['0', x] + s).value + (c as int - 48))
  {
    HexAlone(x);
    HexDigits(x, [c]);
    DigitsMore("", c, 16);
    assert "" + [c] == [c];
    if s != "" {
      HexDigits(x, s);
      HexDigits(x, s + [c]);
      assert ['0', x] + s + [c] == ['0', x] + (s + [c]);
      DigitsFit(s, 16);
      DigitsMore(s, c, 16);
    }
  }

  /** After a 0 every further digit counts eightfold, and 8 and 9 are refused. */
  lemma {:induction false} OctalNumber(s: string, c: char)
    requires Decimals(s) && '0' <= c <= '9'
    ensures StrToUl("0") == Some(0)
    ensures StrToUl("0" + s + [c]) == match StrToUl("0" + s)
                                      case None => None
                                      case Some(v) => if c < '8' then Some(8 * v + (c as int - 48)) else None
  {
    var z := "0" + s;
    assert z[0] == '0' && (|z| > 1 ==> z[1] == s[0]);
    DigitsMore(z, c, 8);
    DigitsMore("", '0', 8);
    DigitsMore("", '0', 10);
    assert "" + "0" == "0";
    assert s == "" ==> z == "0";
  }

  /** Otherwise every further digit counts tenfold. */
  lemma {:induction false} DecimalNumber(s: string, c: char)
    requires Decimals(s) && (s != "" ==> s[0] != '0') && '0' <= c <= '9'
    ensures StrToUl("") == None && StrToUl([c]) == Some(c as int - 48)
    ensures s != "" ==> StrToUl(s).Some? && StrToUl(s + [c]) == Some(10 * StrToUl(s).value + (c as int - 48))
  {
    DigitsMore("", c, 10);
    assert "" + [c] == [c];
    if s != "" {
      DigitsFit(s, 10);
      DigitsMore(s, c, 10);
    }
  }

  lemma {:induction false} DigitsOnly(s: string, base: nat)
    requires Digits(s, base).Some?
    ensures Decimals(s)
  {
    if s != "" { DigitsOnly(s[..|s| - 1], base); }
  }

  /** The numbers are digits, but for the x of 0x. */
  lemma {:induction false} NumberShape(s: string)
    requires StrToUl(s).Some?
    ensures s != "" && (Decimals(s) || (|s| > 2 && s[0] == '0' && (s[1] == 'x' || s[1] == 'X') && Decimals(s[2..])))
  {
    if |s| > 2 && s[0] == '0' && (s[1] == 'x' || s[1] == 'X') {
      DigitsOnly(s[2..], 16);
    } else if |s| > 1 && s[0] == '0' {
      DigitsOnly(s, 8);
    } else {
      DigitsOnly(s, 10);
    }
  }

  /** An index that is too large for an int wraps around, and one too large for an unsigned long is -1. */
  lemma {:induction false} IntWraps(v: nat)
    ensures -0x8000_0000 <= ToInt(v) <= 0x7fff_ffff
    ensures v < 0x1_0000_0000_0000_0000 ==> (v - ToInt(v)) % 0x1_0000_0000 == 0
    ensures v >= 0x1_0000_0000_0000_0000 ==> ToInt(v) == -1
  {
    if v < 0x1_0000_0000_0000_0000 {
      var w := v % 0x1_0000_0000;
      assert v - w == 0x1_0000_0000 * (v / 0x1_0000_0000);
      assert v - (w - 0x1_0000_0000) == 0x1_0000_0000 * (v / 0x1_0000_0000 + 1);
    }
  }

  /** A name with one index, whatever the notation of its number. */
  lemma {:induction false} SingleIndex(name: string, t: string)
    requires NameText(name) && Number(t)
    ensures Chain(name + "[" + t + "]") == Some([Node(name, ToInt(StrToUl(t).value), 0, true, false)])
  {
    var items := [Item(name, One(t), false)];
    assert ItemOk(items, 0) && items[1..] == [];
    GrammarAccepted(items);
    assert PathOf(items) == name + "[" + t + "]";
    assert NodesOf(items) == [NodeOf(items[0])];
  }

  lemma {:induction false} Sixteen()
    ensures Number("0x10") && StrToUl("0x10") == Some(16)
  {
    var z: string := ['0', 'x'];
    HexNumber('x', "1", '0');
    HexNumber('x', "", '1');
    assert z + ['1'] == z + "1" && z + "1" + ['0'] == "0x10";
  }

  lemma {:induction false} HexIndex(name: string)
    requires NameText(name)
    ensures Chain(name + "[0x10]") == Some([Node(name, 16, 0, true, false)])
  {
    Sixteen();
    SingleIndex(name, "0x10");
    assert name + "[" + "0x10" + "]" == name + "[0x10]";
  }
}
