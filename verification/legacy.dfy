/** The older codec of edn/_edn.py: namedtuple symbols and keywords, the
    reader hook `make_tagged_value`, and `dumps`, which passes an object
    through the first write handler that claims it, renders it by an ordered
    table of dump rules into a tree of tokens, flattens the tree and writes
    the tokens out with the spacing of `_format`. */
module Legacy {
  import opened Outcomes
  import opened Text
  import opened Ast
  import opened Natives
  import opened Printer
  import Extended

  // ---------------------------------------------------------------------
  // Symbols and keywords

  /** The value of the namedtuples' third field `type`: one private marker
      object per class. */
  datatype Marker = SymbolMarker | KeywordMarker

  /** The fields `(name, prefix, type)` of a symbol or keyword, which is
      what namedtuple equality compares. */
  function Fields(x: Native): (string, Option<string>, Marker)
    requires x.NSymbol? || x.NKeyword?
  {
    (x.sym.name, x.sym.prefix, if x.NSymbol? then SymbolMarker else KeywordMarker)
  }

  /** `Symbol(name, prefix=None)`. */
  function MakeSymbol(name: string, prefix: Option<string>): Native
  {
    NSymbol(Symbol(name, prefix))
  }

  /** The first argument of `Keyword(name_or_symbol, prefix=None)`. */
  datatype KeywordSource = Name(name: string) | OfSymbol(symbol: Symbol)

  /** `Keyword(name_or_symbol, prefix)`: a keyword made from a symbol takes
      the symbol's name and prefix and ignores `prefix`; either way it is
      never equal to a symbol, as the markers differ. */
  function MakeKeyword(source: KeywordSource, prefix: Option<string>): (r: Native)
    ensures r.NKeyword?
    ensures source.OfSymbol? ==> Fields(r) == (source.symbol.name, source.symbol.prefix, KeywordMarker)
    ensures source.Name? ==> Fields(r) == (source.name, prefix, KeywordMarker)
    ensures Fields(r) != Fields(MakeSymbol(r.sym.name, r.sym.prefix))
  {
    match source
    case Name(name) => NKeyword(Symbol(name, prefix))
    case OfSymbol(s) => NKeyword(s)
  }

  /** A keyword made from a symbol is the keyword of the symbol's name and
      prefix, whatever prefix is passed alongside; and no keyword equals the
      symbol with the same name and prefix. */
  lemma KeywordOfSymbol(name: string, prefix: Option<string>, ignored: Option<string>)
    ensures MakeKeyword(OfSymbol(MakeSymbol(name, prefix).sym), ignored) == MakeKeyword(Name(name), prefix)
    ensures Fields(MakeKeyword(Name(name), prefix)) != Fields(MakeSymbol(name, prefix))
  {
  }

  // ---------------------------------------------------------------------
  // The reader's tagged-value hook

  /** `make_tagged_value(handlers, symbol, value, no_handler)`: the handler
      registered for the tag, else `no_handler` (absent: the `TaggedValue`
      namedtuple); what the handler raises is the result. */
  function MakeTaggedValue(handlers: Extended.Readers, symbol: Symbol, value: Native,
                           noHandler: Option<Extended.Handler>): (r: Result<Native, Error>)
  {
    if symbol in handlers then handlers[symbol](value)
    else if noHandler.Some? then noHandler.value(symbol, value)
    else Ok(NTagged(symbol, value))
  }

  /** The handlers `loads(string, handlers)` reads tags with: the built-in
      `#inst` and `#uuid` readers when none are given, otherwise exactly the
      given ones. */
  function LoadsHandlers(host: Host, handlers: Option<Extended.Readers>): (r: Extended.Readers)
  {
    if handlers.None? then Extended.DefaultReaders(host) else handlers.value
  }

  /** The hook resolves a tag exactly as the newer codec's decoder does
      with the same readers and fallback; but the older `loads` replaces
      the built-in readers with the caller's where the newer one merges
      them, so a caller's handlers without `#inst` leave `#inst` values
      tagged. */
  lemma GivenHandlersReplace(host: Host, handlers: Extended.Readers, value: Native)
    requires InstTag !in handlers
    ensures forall symbol, noHandler ::
      MakeTaggedValue(handlers, symbol, value, noHandler) ==
      Extended.ResolveTag(Extended.Decoder(Extended.Corrected, handlers, noHandler), symbol, value)
    ensures MakeTaggedValue(LoadsHandlers(host, Some(handlers)), InstTag, value, None) == Ok(NTagged(InstTag, value))
    ensures MakeTaggedValue(LoadsHandlers(host, None), InstTag, value, None) == host.parseDate(value)
    ensures Extended.ResolveTag(Extended.Decoder(Extended.Corrected, Extended.MergeReaders(host, handlers), None),
                                InstTag, value) == host.parseDate(value)
  {
  }

  // ---------------------------------------------------------------------
  // Tokens: `_flatten` and `_format`

  /** What a dump rule returns: a string, or a list of token trees. */
  datatype Tokens = Leaf(text: string) | Group(parts: seq<Tokens>)

  /** The leaves of parts k.. of a group, left to right. */
  function FlattenFrom(t: Tokens, k: nat): seq<string>
    requires t.Group? && k <= |t.parts|
    decreases t, 0, |t.parts| - k
  {
    if k == |t.parts| then [] else Flatten(t.parts[k]) + FlattenFrom(t, k + 1)
  }

  /** `_flatten`: the leaves of a token tree, left to right. */
  function Flatten(t: Tokens): seq<string>
    decreases t, 1, 0
  {
    match t
    case Leaf(s) => [s]
    case Group(_) => FlattenFrom(t, 0)
  }

  /** A group of leaves, one per string. */
  function Leaves(ss: seq<string>): (r: seq<Tokens>)
    ensures |r| == |ss|
    ensures forall i :: 0 <= i < |ss| ==> r[i] == Leaf(ss[i])
    decreases |ss|
  {
    if |ss| == 0 then [] else [Leaf(ss[0])] + Leaves(ss[1..])
  }

  lemma {:induction false} FlattenShift(a: seq<Tokens>, b: seq<Tokens>, j: nat)
    requires j <= |b|
    ensures FlattenFrom(Group(a + b), |a| + j) == FlattenFrom(Group(b), j)
    decreases |b| - j
  {
    if j < |b| {
      FlattenShift(a, b, j + 1);
      assert (a + b)[|a| + j] == b[j];
    }
  }

  lemma {:induction false} FlattenAppendFrom(a: seq<Tokens>, b: seq<Tokens>, k: nat)
    requires k <= |a|
    ensures FlattenFrom(Group(a + b), k) == FlattenFrom(Group(a), k) + FlattenFrom(Group(b), 0)
    decreases |a| - k
  {
    if k < |a| {
      FlattenAppendFrom(a, b, k + 1);
      assert (a + b)[k] == a[k];
    } else {
      FlattenShift(a, b, 0);
    }
  }

  /** Flattening distributes over the concatenation of two groups. */
  lemma FlattenAppend(a: seq<Tokens>, b: seq<Tokens>)
    ensures Flatten(Group(a + b)) == Flatten(Group(a)) + Flatten(Group(b))
  {
    FlattenAppendFrom(a, b, 0);
  }

  lemma {:induction false} FlattenLeavesFrom(ss: seq<string>, k: nat)
    requires k <= |ss|
    ensures FlattenFrom(Group(Leaves(ss)), k) == ss[k..]
    decreases |ss| - k
  {
    if k < |ss| {
      FlattenLeavesFrom(ss, k + 1);
      assert ss[k..] == [ss[k]] + ss[k + 1..];
    }
  }

  /** A group of leaves flattens to its strings, so flattening is
      idempotent: re-flattening the leaves of a flattened tree changes
      nothing. */
  lemma FlattenLeaves(ss: seq<string>, t: Tokens)
    ensures Flatten(Group(Leaves(ss))) == ss
    ensures Flatten(Group(Leaves(Flatten(t)))) == Flatten(t)
  {
    FlattenLeavesFrom(ss, 0);
    FlattenLeavesFrom(Flatten(t), 0);
  }

  /** `last_token in open_brackets`: nothing before, or an opening bracket. */
  predicate OpensGroup(last: Option<string>) {
    last.None? || last.value == "{" || last.value == "#{" || last.value == "(" || last.value == "["
  }

  /** `token in close_brackets`, where `close_brackets` is the string
      `'})]'`: a substring test, so the empty token and `})` count too. */
  predicate ClosesGroup(token: string) {
    Contains("})]", token)
  }

  /** A token written with a space before it whatever precedes it, and
      after which the next token gets a space too. */
  predicate PlainToken(t: string) {
    !OpensGroup(Some(t)) && !ClosesGroup(t)
  }

  /** `_format` from a given previous token: each token, preceded by a
      space unless the previous token opens a group or this one closes
      one. */
  function FormatFrom(tokens: seq<string>, last: Option<string>): seq<string>
    decreases |tokens|
  {
    if |tokens| == 0 then []
    else
      (if !OpensGroup(last) && !ClosesGroup(tokens[0]) then [" ", tokens[0]] else [tokens[0]])
      + FormatFrom(tokens[1..], Some(tokens[0]))
  }

  /** `_format`. */
  function Format(tokens: seq<string>): seq<string>
  {
    FormatFrom(tokens, None)
  }

  /** The token before position i, if any. */
  function Previous(tokens: seq<string>, i: nat): Option<string>
    requires i <= |tokens|
  {
    if i == 0 then None else Some(tokens[i - 1])
  }

  /** The separator written before token i. */
  function Gap(tokens: seq<string>, i: nat): string
    requires i < |tokens|
  {
    if !OpensGroup(Previous(tokens, i)) && !ClosesGroup(tokens[i]) then " " else ""
  }

  /** Token i after its gap. */
  function Piece(tokens: seq<string>, i: nat): string
    requires i < |tokens|
  {
    Gap(tokens, i) + tokens[i]
  }

  /** Reference layout: tokens i.. of `tokens`, each after its gap. */
  function Spaced(tokens: seq<string>, i: nat): string
    requires i <= |tokens|
    decreases |tokens| - i
  {
    if i == |tokens| then "" else Piece(tokens, i) + Spaced(tokens, i + 1)
  }

  lemma FormatStep(tokens: seq<string>, last: Option<string>)
    requires |tokens| > 0
    ensures FormatFrom(tokens, last) ==
      (if !OpensGroup(last) && !ClosesGroup(tokens[0]) then [" ", tokens[0]] else [tokens[0]])
      + FormatFrom(tokens[1..], Some(tokens[0]))
  {
  }

  /** `''.join(_format(tokens))` writes every token in order, each after
      its gap, and nothing else. */
  lemma {:induction false} FormatSpaced(tokens: seq<string>, i: nat)
    requires i <= |tokens|
    ensures Concat(FormatFrom(tokens[i..], Previous(tokens, i))) == Spaced(tokens, i)
    decreases |tokens| - i
  {
    if i < |tokens| {
      FormatSpaced(tokens, i + 1);
      var rest := tokens[i..];
      assert rest[0] == tokens[i];
      assert rest[1..] == tokens[i + 1..];
      var piece := if Gap(tokens, i) == " " then [" ", tokens[i]] else [tokens[i]];
      FormatStep(rest, Previous(tokens, i));
      assert FormatFrom(rest, Previous(tokens, i)) == piece + FormatFrom(tokens[i + 1..], Previous(tokens, i + 1));
      ConcatAppend(piece, FormatFrom(tokens[i + 1..], Previous(tokens, i + 1)));
      PieceText(tokens, i);
    }
  }

  lemma PieceText(tokens: seq<string>, i: nat)
    requires i < |tokens|
    ensures Concat(if Gap(tokens, i) == " " then [" ", tokens[i]] else [tokens[i]]) == Piece(tokens, i)
  {
    PieceConcat(Gap(tokens, i), tokens[i]);
  }

  /** `''.join(_format(tokens))` as the generator runs: a loop carrying the
      previous token. */
  method FormatJoin(tokens: seq<string>) returns (text: string)
    ensures text == Spaced(tokens, 0)
    ensures text == Concat(Format(tokens))
  {
    text := "";
    var last: Option<string> := None;
    var i := 0;
    while i < |tokens|
      invariant 0 <= i <= |tokens|
      invariant last == Previous(tokens, i)
      invariant text + Spaced(tokens, i) == Spaced(tokens, 0)
    {
      var token := tokens[i];
      var piece := if !OpensGroup(last) && !ClosesGroup(token) then " " + token else token;
      assert piece == Piece(tokens, i);
      AppendAssoc(text, piece, Spaced(tokens, i + 1));
      text := text + piece;
      last := Some(token);
      i := i + 1;
    }
    FormatSpaced(tokens, 0);
    assert tokens[0..] == tokens;
  }

  /** A token that holds a character other than `}`, `)` and `]` is not a
      closing token. */
  lemma NotCloser(t: string, k: nat)
    requires k < |t| && t[k] != '}' && t[k] != ')' && t[k] != ']'
    ensures !ClosesGroup(t)
  {
    if |t| <= 3 {
      forall i | 0 <= i && i + |t| <= 3
        ensures !OccursAt("})]", t, i)
      {
        assert "})]"[i..i + |t|][k] == "})]"[i + k];
      }
    }
  }

  /** The three closing brackets are closing tokens. */
  lemma Closers()
    ensures ClosesGroup("}") && ClosesGroup(")") && ClosesGroup("]")
  {
    assert OccursAt("})]", "}", 0);
    assert OccursAt("})]", ")", 1);
    assert OccursAt("})]", "]", 2);
  }

  /** Tokens whose delimited layout is a single-spaced join. */
  predicate PlainTokens(ts: seq<string>) {
    forall i :: 0 <= i < |ts| ==> PlainToken(ts[i])
  }

  /** A run of plain tokens followed by a closing one is written as the
      tokens joined by single spaces (after a space when the previous token
      does not open a group), then the closing token with no space. */
  lemma {:induction false} FormatRun(ts: seq<string>, last: Option<string>, close: string)
    requires PlainTokens(ts) && ClosesGroup(close)
    ensures Concat(FormatFrom(ts + [close], last)) ==
      (if |ts| == 0 then "" else (if OpensGroup(last) then "" else " ") + Join(" ", ts)) + close
    decreases |ts|
  {
    if |ts| == 0 {
      assert ts + [close] == [close];
      assert FormatFrom([close], last) == [close];
    } else {
      var rest := ts[1..] + [close];
      assert (ts + [close])[1..] == rest;
      assert (ts + [close])[0] == ts[0];
      var gap := if OpensGroup(last) then "" else " ";
      var piece := if OpensGroup(last) then [ts[0]] else [" ", ts[0]];
      assert FormatFrom(ts + [close], last) == piece + FormatFrom(rest, Some(ts[0]));
      ConcatAppend(piece, FormatFrom(rest, Some(ts[0])));
      PieceConcat(gap, ts[0]);
      FormatRun(ts[1..], Some(ts[0]), close);
      var tail := if |ts| == 1 then "" else " " + Join(" ", ts[1..]);
      JoinHead(ts);
      AppendAssoc(gap + ts[0], tail, close);
      AppendAssoc(gap, ts[0], tail);
    }
  }

  lemma PieceConcat(gap: string, t: string)
    requires gap == "" || gap == " "
    ensures Concat(if gap == "" then [t] else [" ", t]) == gap + t
  {
    assert [t][1..] == [];
    assert [" ", t][1..] == [t];
    assert Concat([t]) == t + "";
    assert Concat([" ", t]) == " " + Concat([t]);
  }

  lemma JoinHead(ts: seq<string>)
    requires |ts| > 0
    ensures Join(" ", ts) == ts[0] + (if |ts| == 1 then "" else " " + Join(" ", ts[1..]))
  {
    if |ts| > 1 {
      AppendAssoc(ts[0], " ", Join(" ", ts[1..]));
    }
  }

  /** An opening token, plain tokens and a closing token are written as
      the opener, the tokens joined by single spaces, and the closer. */
  lemma Delimited(open: string, ts: seq<string>, close: string)
    requires OpensGroup(Some(open)) && !ClosesGroup(open)
    requires PlainTokens(ts) && ClosesGroup(close)
    ensures Concat(Format([open] + (ts + [close]))) == open + Join(" ", ts) + close
  {
    var all := [open] + (ts + [close]);
    var rest := FormatFrom(ts + [close], Some(open));
    FormatStep(all, None);
    ConcatAppend([open], rest);
    PieceConcat("", open);
    FormatRun(ts, Some(open), close);
    AppendAssoc(open, Join(" ", ts), close);
  }

  /** The tokens of a group rendered as `''.join(_format(_flatten(t)))`. */
  function Render(t: Tokens): string
  {
    Concat(Format(Flatten(t)))
  }

  /** A bare string, or a one-string list, renders as that string. */
  lemma RenderLeaf(s: string)
    ensures Render(Leaf(s)) == s
    ensures Render(Group([Leaf(s)])) == s
  {
    var g := Group([Leaf(s)]);
    assert FlattenFrom(g, 1) == [];
    assert FlattenFrom(g, 0) == [s] + [];
    assert [s] + [] == [s];
    assert [s][1..] == [];
    assert FormatFrom([s], None) == [s] + [];
    assert Concat([s]) == s + "";
  }

  /** A list of two strings renders as the two with a space between, unless
      the first opens or the second closes a group. */
  lemma RenderPair(a: string, b: string)
    requires PlainToken(a) && !ClosesGroup(b)
    ensures Render(Group([Leaf(a), Leaf(b)])) == a + " " + b
  {
    var g := Group([Leaf(a), Leaf(b)]);
    assert FlattenFrom(g, 2) == [];
    assert FlattenFrom(g, 1) == [b] + [];
    assert FlattenFrom(g, 0) == [a] + [b];
    assert [a] + [b] == [a, b];
    assert [a, b][1..] == [b];
    assert [b][1..] == [];
    assert FormatFrom([b], Some(a)) == [" ", b] + [];
    assert Format([a, b]) == [a] + [" ", b];
    assert [a] + [" ", b] == [a, " ", b];
    assert [" ", b][1..] == [b];
    assert Concat([b]) == b + "";
    assert Concat([" ", b]) == " " + Concat([b]);
    assert [a, " ", b][1..] == [" ", b];
  }

  /** `[open, inner, close]`, where the inner tokens flatten to plain
      tokens, renders as the delimited join of those tokens. */
  lemma RenderBracketed(open: string, inner: seq<Tokens>, ts: seq<string>, close: string)
    requires OpensGroup(Some(open)) && !ClosesGroup(open)
    requires Flatten(Group(inner)) == ts && PlainTokens(ts) && ClosesGroup(close)
    ensures Render(Group([Leaf(open), Group(inner), Leaf(close)])) == open + Join(" ", ts) + close
  {
    var g := Group([Leaf(open), Group(inner), Leaf(close)]);
    assert FlattenFrom(g, 3) == [];
    assert FlattenFrom(g, 2) == [close] + [];
    assert FlattenFrom(g, 1) == ts + [close];
    assert FlattenFrom(g, 0) == [open] + (ts + [close]);
    Delimited(open, ts, close);
  }

  // ---------------------------------------------------------------------
  // The dump table

  /** The dump rules of `dumps`, by what they do. */
  datatype DumpKind =
    | DBool | DNumber | DLong | DStr | DNil | DKeyword | DSymbol | DTagged | DList | DSet | DDict

  /** RULES, in order: the first rule whose types the object is an
      instance of renders it. */
  const DumpRules: seq<Rule<DumpKind>> :=
    [ Rule([TBool], DBool),
      Rule([TInt, TFloat], DNumber),
      Rule([TLong], DLong),
      Rule([TUnicode, TStr], DStr),
      Rule([TNone], DNil),
      Rule([TKeyword], DKeyword),
      Rule([TSymbol], DSymbol),
      Rule([TTaggedValue], DTagged),
      Rule([TList, TTuple], DList),
      Rule([TSet, TFrozenSet], DSet),
      Rule([TDict], DDict) ]

  /** The objects a rule's types admit. Symbols, keywords and tagged
      values are namedtuples, so the `(list, tuple)` rule admits them too. */
  predicate Claims(kind: DumpKind, x: Native) {
    match kind
    case DBool => x.NBool?
    case DNumber => x.NBool? || x.NInt? || x.NFloat?
    case DLong => x.NLong?
    case DStr => x.NText?
    case DNil => x.NNone?
    case DKeyword => x.NKeyword?
    case DSymbol => x.NSymbol?
    case DTagged => x.NTagged?
    case DList => x.NList? || x.NTuple? || x.NSymbol? || x.NKeyword? || x.NTagged?
    case DSet => x.NSet?
    case DDict => x.NDict? && !x.frozen
  }

  /** The objects a dump rule can render. */
  predicate Renders(kind: DumpKind, x: Native) {
    Claims(kind, x) && (kind == DList ==> x.NList? || x.NTuple?)
  }

  /** The rule that renders each kind of object, by its constructor: a
      boolean is not a number, a long is neither, any list or plain tuple
      is a list, and there is no rule for a frozen dict, a decimal or any
      other object. */
  function KindOf(x: Native): (r: Option<DumpKind>)
    ensures r.Some? ==> Renders(r.value, x)
  {
    match x
    case NBool(_) => Some(DBool)
    case NInt(_) => Some(DNumber)
    case NFloat(_) => Some(DNumber)
    case NLong(_) => Some(DLong)
    case NText(_, _) => Some(DStr)
    case NNone => Some(DNil)
    case NKeyword(_) => Some(DKeyword)
    case NSymbol(_) => Some(DSymbol)
    case NTagged(_, _) => Some(DTagged)
    case NList(_) => Some(DList)
    case NTuple(_, _) => Some(DList)
    case NSet(_, _) => Some(DSet)
    case NDict(_, frozen) => if frozen then None else Some(DDict)
    case _ => None
  }

  /** The position of a kind's rule in RULES. */
  function RuleNumber(kind: DumpKind): (r: nat)
    ensures r < |DumpRules| && DumpRules[r].action == kind
  {
    match kind
    case DBool => 0
    case DNumber => 1
    case DLong => 2
    case DStr => 3
    case DNil => 4
    case DKeyword => 5
    case DSymbol => 6
    case DTagged => 7
    case DList => 8
    case DSet => 9
    case DDict => 10
  }

  lemma ScalarRuleTypes(x: Native, k: nat)
    requires k < 4
    ensures AnyInstance(NamedTuples, x, DumpRules[k].types) <==> Claims(DumpRules[k].action, x)
  {
    var r := DumpRules[k];
    if k == 0 {
      assert r == Rule([TBool], DBool);
      AnyInstanceOne(NamedTuples, x, TBool);
    } else if k == 1 {
      assert r == Rule([TInt, TFloat], DNumber);
      AnyInstanceTwo(NamedTuples, x, TInt, TFloat);
    } else if k == 2 {
      assert r == Rule([TLong], DLong);
      AnyInstanceOne(NamedTuples, x, TLong);
    } else {
      assert r == Rule([TUnicode, TStr], DStr);
      AnyInstanceTwo(NamedTuples, x, TUnicode, TStr);
    }
  }

  lemma NamedRuleTypes(x: Native, k: nat)
    requires 4 <= k < 8
    ensures AnyInstance(NamedTuples, x, DumpRules[k].types) <==> Claims(DumpRules[k].action, x)
  {
    var r := DumpRules[k];
    if k == 4 {
      assert r == Rule([TNone], DNil);
      AnyInstanceOne(NamedTuples, x, TNone);
    } else if k == 5 {
      assert r == Rule([TKeyword], DKeyword);
      AnyInstanceOne(NamedTuples, x, TKeyword);
    } else if k == 6 {
      assert r == Rule([TSymbol], DSymbol);
      AnyInstanceOne(NamedTuples, x, TSymbol);
    } else {
      assert r == Rule([TTaggedValue], DTagged);
      AnyInstanceOne(NamedTuples, x, TTaggedValue);
    }
  }

  lemma CollectionRuleTypes(x: Native, k: nat)
    requires 8 <= k < 11
    ensures AnyInstance(NamedTuples, x, DumpRules[k].types) <==> Claims(DumpRules[k].action, x)
  {
    var r := DumpRules[k];
    if k == 8 {
      assert r == Rule([TList, TTuple], DList);
      AnyInstanceTwo(NamedTuples, x, TList, TTuple);
    } else if k == 9 {
      assert r == Rule([TSet, TFrozenSet], DSet);
      AnyInstanceTwo(NamedTuples, x, TSet, TFrozenSet);
    } else {
      assert r == Rule([TDict], DDict);
      AnyInstanceOne(NamedTuples, x, TDict);
    }
  }

  /** Rule k's types admit exactly the objects `Claims` names. */
  lemma DumpRuleTypes(x: Native, k: nat)
    requires k < |DumpRules|
    ensures AnyInstance(NamedTuples, x, DumpRules[k].types) <==> Claims(DumpRules[k].action, x)
  {
    if k < 4 {
      ScalarRuleTypes(x, k);
    } else if k < 8 {
      NamedRuleTypes(x, k);
    } else {
      CollectionRuleTypes(x, k);
    }
  }

  lemma KindsLow(k: nat)
    requires k < 6
    ensures RuleNumber(DumpRules[k].action) == k
  {
    assert DumpRules[k].action == [DBool, DNumber, DLong, DStr, DNil, DKeyword][k];
  }

  lemma KindsHigh(k: nat)
    requires 6 <= k < |DumpRules|
    ensures RuleNumber(DumpRules[k].action) == k
  {
    assert DumpRules[k].action == [DSymbol, DTagged, DList, DSet, DDict][k - 6];
  }

  /** A rule that admits x comes no earlier than the rule of x's kind, and
      the rule of x's kind admits it. */
  lemma ClaimsOrder(x: Native, k: nat)
    requires k < |DumpRules|
    ensures Claims(DumpRules[k].action, x) ==> KindOf(x).Some? && RuleNumber(KindOf(x).value) <= k
    ensures KindOf(x).Some? && RuleNumber(KindOf(x).value) == k ==> Claims(DumpRules[k].action, x)
  {
    if k < 6 {
      KindsLow(k);
    } else {
      KindsHigh(k);
    }
  }

  /** Scanning RULES in order finds the rule of x's kind, and no rule
      when x has none. */
  lemma DumpRuleIndex(x: Native)
    ensures FirstMatch(NamedTuples, DumpRules, x) ==
      (if KindOf(x).Some? then Some(RuleNumber(KindOf(x).value)) else None)
  {
    forall k | 0 <= k < |DumpRules|
      ensures AnyInstance(NamedTuples, x, DumpRules[k].types) <==> Claims(DumpRules[k].action, x)
    {
      DumpRuleTypes(x, k);
    }
    forall k | 0 <= k < |DumpRules|
      ensures Claims(DumpRules[k].action, x) ==> KindOf(x).Some? && RuleNumber(KindOf(x).value) <= k
      ensures KindOf(x).Some? && RuleNumber(KindOf(x).value) == k ==> Claims(DumpRules[k].action, x)
    {
      ClaimsOrder(x, k);
    }
    if KindOf(x).Some? {
      FirstMatchIs(NamedTuples, DumpRules, x, RuleNumber(KindOf(x).value));
    } else {
      FirstMatchNone(NamedTuples, DumpRules, x);
    }
  }

  // ---------------------------------------------------------------------
  // Write handlers

  /** A write handler's function: `tagger(tag, f)`, or any other function
      of the caller's, whose exception is the result of `dumps`. */
  datatype HandlerFn = Tagging(tagger: Extended.Tagger) | Plain(f: Native -> Result<Native, Error>)

  /** A `(base_type, function)` entry of `write_handlers`. */
  type WriteHandler = Rule<HandlerFn>

  /** DEFAULT_WRITE_HANDLERS: datetimes as `#inst` of their ISO text, UUIDs
      as `#uuid` of their text. */
  const DefaultWriteHandlers: seq<WriteHandler> :=
    [ Rule([TClass(DatetimeClass)], Tagging(Extended.Tagger(InstTag, Extended.IsoText))),
      Rule([TClass(UuidClass)], Tagging(Extended.Tagger(UuidTag, Extended.UuidText))) ]

  /** Calling a handler's function: a tagger wraps the transformed object
      in a `TaggedValue`. */
  function CallHandler(host: Host, h: HandlerFn, x: Native): Result<Native, Error>
  {
    match h
    case Tagging(t) =>
      var y :- Extended.Apply(host, t.transform, x);
      Ok(NTagged(t.tag, y))
    case Plain(f) => f(x)
  }

  /** The handler loop of `dumps`: the first handler whose type x is an
      instance of replaces x, once; without one x is kept. */
  function Substitute(host: Host, handlers: seq<WriteHandler>, x: Native): Result<Native, Error>
  {
    match FirstMatch(NamedTuples, handlers, x)
    case Some(j) => CallHandler(host, handlers[j].action, x)
    case None => Ok(x)
  }

  /** Which handler of the defaults claims x: datetimes first, then
      UUIDs; nothing else. */
  lemma DefaultHandlerIndex(x: Native)
    ensures FirstMatch(NamedTuples, DefaultWriteHandlers, x) ==
      if (x.NTuple? || x.NObject?) && DatetimeClass in x.classes then Some(0)
      else if (x.NTuple? || x.NObject?) && UuidClass in x.classes then Some(1)
      else None
  {
    AnyInstanceOne(NamedTuples, x, TClass(DatetimeClass));
    AnyInstanceOne(NamedTuples, x, TClass(UuidClass));
    assert DefaultWriteHandlers[0].types == [TClass(DatetimeClass)];
    assert DefaultWriteHandlers[1].types == [TClass(UuidClass)];
    if (x.NTuple? || x.NObject?) && DatetimeClass in x.classes {
      FirstMatchIs(NamedTuples, DefaultWriteHandlers, x, 0);
    } else if (x.NTuple? || x.NObject?) && UuidClass in x.classes {
      FirstMatchIs(NamedTuples, DefaultWriteHandlers, x, 1);
    } else {
      FirstMatchNone(NamedTuples, DefaultWriteHandlers, x);
    }
  }

  // ---------------------------------------------------------------------
  // dumps

  /** `_dump_str`: the text between double quotes, through the escape
      table. A byte string must be ASCII to be encoded as UTF-8. */
  function DumpStr(y: Native): Result<string, Error>
    requires y.NText?
  {
    if !y.unicode && !Ascii(y.s) then Err(NotAscii(y))
    else Ok("\"" + Escape(y.s) + "\"")
  }

  /** `str` of a bool, an int or a float. */
  function NumberText(y: Native): string
    requires y.NBool? || y.NInt? || y.NFloat?
  {
    match y
    case NBool(b) => if b then "True" else "False"
    case NInt(i) => DecimalText(i)
    case NFloat(f) => f.text
  }

  /** The symbol `_dump_tagged_value` prints before the value: as written
      `'#' + tag.name`, which drops the tag's prefix; corrected, the whole
      printed tag. */
  function TagSymbol(variant: Extended.Variant, tag: Symbol): Symbol
  {
    match variant
    case AsWritten => Symbol("#" + tag.name, None)
    case Corrected => Symbol("#" + SymbolText(tag), None)
  }

  /** The text that symbol prints as. */
  function TagText(variant: Extended.Variant, tag: Symbol): string
  {
    TagSymbol(variant, tag).name
  }

  /** `''.join(_format(_flatten(tokens)))` of a rule's result. */
  function Rendered(r: Result<Tokens, Error>): Result<string, Error>
  {
    match r
    case Ok(t) => Ok(Render(t))
    case Err(e) => Err(e)
  }

  /** `dumps(obj, write_handlers)`: substitute through the handlers, then
      render by RULES. `fuel` bounds the nesting depth, standing for the
      interpreter's recursion limit. */
  function DumpsWith(host: Host, variant: Extended.Variant, x: Native, handlers: seq<WriteHandler>,
                     fuel: nat): Result<string, Error>
    decreases fuel, 1, 0
  {
    if fuel == 0 then Err(RecursionLimit)
    else
      var y :- Substitute(host, handlers, x);
      DumpObject(host, variant, y, handlers, fuel)
  }

  /** The RULES loop of `dumps` on the substituted object. */
  function DumpObject(host: Host, variant: Extended.Variant, y: Native, handlers: seq<WriteHandler>,
                      fuel: nat): Result<string, Error>
    requires fuel > 0
    decreases fuel, 0, 0
  {
    match FirstMatch(NamedTuples, DumpRules, y)
    case None => Err(CannotEncode(y))
    case Some(k) =>
      DumpRuleIndex(y);
      Rendered(DumpTokens(host, variant, DumpRules[k].action, y, handlers, fuel - 1))
  }

  /** The dump rules: the token tree each returns. Collections dump their
      elements with the same handlers; a tagged value dumps its tag symbol
      and its value with the default handlers. */
  function DumpTokens(host: Host, variant: Extended.Variant, kind: DumpKind, y: Native,
                      handlers: seq<WriteHandler>, fuel: nat): Result<Tokens, Error>
    requires Renders(kind, y)
    decreases fuel, 3, 0
  {
    match kind
    case DBool => Ok(Leaf(if y.b then "true" else "false"))
    case DNumber => Ok(Leaf(NumberText(y)))
    case DLong => Ok(Leaf(DecimalText(y.l) + "N"))
    case DStr =>
      var text :- DumpStr(y);
      Ok(Leaf(text))
    case DNil => Ok(Leaf("nil"))
    case DKeyword =>
      Ok(if HasPrefix(y.sym) then Group([Leaf(":" + SymbolText(y.sym))]) else Leaf(":" + y.sym.name))
    case DSymbol =>
      Ok(if HasPrefix(y.sym) then Group([Leaf(SymbolText(y.sym))]) else Leaf(y.sym.name))
    case DTagged =>
      var tag :- DumpsWith(host, variant, NSymbol(TagSymbol(variant, y.tag)), DefaultWriteHandlers, fuel);
      var value :- DumpsWith(host, variant, y.value, DefaultWriteHandlers, fuel);
      Ok(Group([Leaf(tag), Leaf(value)]))
    case DList =>
      var ts :- DumpAll(host, variant, y.items, handlers, fuel);
      Ok(Group([Leaf("("), Group(Leaves(ts)), Leaf(")")]))
    case DSet =>
      var ts :- DumpAll(host, variant, y.items, handlers, fuel);
      Ok(Group([Leaf("#{"), Group(Leaves(ts)), Leaf("}")]))
    case DDict =>
      var ps :- DumpPairs(host, variant, y.pairs, handlers, fuel);
      Ok(Group([Leaf("{"), Group(PairGroups(ps)), Leaf("}")]))
  }

  /** `[dumps(x, write_handlers) for x in xs]`. */
  function DumpAll(host: Host, variant: Extended.Variant, xs: seq<Native>, handlers: seq<WriteHandler>,
                   fuel: nat): Result<seq<string>, Error>
    decreases fuel, 2, |xs|
  {
    if |xs| == 0 then Ok([])
    else
      var t :- DumpsWith(host, variant, xs[0], handlers, fuel);
      var ts :- DumpAll(host, variant, xs[1..], handlers, fuel);
      Ok([t] + ts)
  }

  /** `[[dumps(k, ...), dumps(v, ...)] for k, v in obj.items()]`. */
  function DumpPairs(host: Host, variant: Extended.Variant, ps: seq<(Native, Native)>,
                     handlers: seq<WriteHandler>, fuel: nat): Result<seq<(string, string)>, Error>
    decreases fuel, 2, |ps|
  {
    if |ps| == 0 then Ok([])
    else
      var k :- DumpsWith(host, variant, ps[0].0, handlers, fuel);
      var v :- DumpsWith(host, variant, ps[0].1, handlers, fuel);
      var rest :- DumpPairs(host, variant, ps[1..], handlers, fuel);
      Ok([(k, v)] + rest)
  }

  /** One two-token group per pair. */
  function PairGroups(ps: seq<(string, string)>): (r: seq<Tokens>)
    ensures |r| == |ps|
    decreases |ps|
  {
    if |ps| == 0 then [] else [Group([Leaf(ps[0].0), Leaf(ps[0].1)])] + PairGroups(ps[1..])
  }

  /** The texts of the pairs, key then value, pair after pair. */
  function PairTokens(ps: seq<(string, string)>): (r: seq<string>)
    ensures |r| == 2 * |ps|
    ensures forall i :: 0 <= i < |ps| ==> r[2 * i] == ps[i].0 && r[2 * i + 1] == ps[i].1
    decreases |ps|
  {
    if |ps| == 0 then [] else [ps[0].0, ps[0].1] + PairTokens(ps[1..])
  }

  /** `dumps(obj, write_handlers=None)`: the defaults unless handlers are
      given (a given list replaces them). */
  function Dumps(host: Host, x: Native, handlers: Option<seq<WriteHandler>>, fuel: nat): Result<string, Error>
  {
    DumpsWith(host, Extended.Corrected, x, if handlers.None? then DefaultWriteHandlers else handlers.value, fuel)
  }

  /** `dumps` as written, with the tag's prefix dropped. */
  function DumpsAsWritten(host: Host, x: Native, handlers: Option<seq<WriteHandler>>, fuel: nat): Result<string, Error>
  {
    DumpsWith(host, Extended.AsWritten, x, if handlers.None? then DefaultWriteHandlers else handlers.value, fuel)
  }

  // ---------------------------------------------------------------------
  // What dumps writes

  /** After substitution an object is rendered by the rule of its kind, or
      refused when it has none. */
  lemma ObjectDispatch(host: Host, variant: Extended.Variant, y: Native, hs: seq<WriteHandler>, fuel: nat)
    requires fuel > 0
    ensures KindOf(y).None? ==> DumpObject(host, variant, y, hs, fuel) == Err(CannotEncode(y))
    ensures KindOf(y).Some? ==>
      DumpObject(host, variant, y, hs, fuel) == Rendered(DumpTokens(host, variant, KindOf(y).value, y, hs, fuel - 1))
  {
    DumpRuleIndex(y);
  }

  /** A handler claims an object once: what it raises is the result, and
      what it returns is rendered by RULES directly, without passing through
      the handlers again, so a result with no rule is refused. */
  lemma HandlerAppliedOnce(host: Host, variant: Extended.Variant, x: Native, hs: seq<WriteHandler>,
                           j: nat, fuel: nat)
    requires fuel > 0 && FirstMatch(NamedTuples, hs, x) == Some(j)
    ensures CallHandler(host, hs[j].action, x).Err? ==>
      DumpsWith(host, variant, x, hs, fuel) == Err(CallHandler(host, hs[j].action, x).error)
    ensures CallHandler(host, hs[j].action, x).Ok? ==>
      DumpsWith(host, variant, x, hs, fuel) == DumpObject(host, variant, CallHandler(host, hs[j].action, x).value, hs, fuel)
    ensures CallHandler(host, hs[j].action, x).Ok? && KindOf(CallHandler(host, hs[j].action, x).value).None? ==>
      DumpsWith(host, variant, x, hs, fuel) == Err(CannotEncode(CallHandler(host, hs[j].action, x).value))
  {
    if CallHandler(host, hs[j].action, x).Ok? {
      ObjectDispatch(host, variant, CallHandler(host, hs[j].action, x).value, hs, fuel);
    }
  }

  /** The atoms print as the newer printer prints the same edn elements:
      booleans as `true`/`false` (the bool rule comes before the int rule),
      ints and floats by `str`, longs with an `N`, None as `nil`. An object
      no rule admits is refused. */
  lemma AtomDumps(host: Host, variant: Extended.Variant, x: Native, hs: seq<WriteHandler>, fuel: nat)
    requires fuel > 0 && FirstMatch(NamedTuples, hs, x).None?
    ensures x.NBool? ==> DumpsWith(host, variant, x, hs, fuel) == Ok(Unparse(Bool(x.b)))
    ensures x.NInt? ==> DumpsWith(host, variant, x, hs, fuel) == Ok(Unparse(Integer(x.i, false)))
    ensures x.NLong? ==> DumpsWith(host, variant, x, hs, fuel) == Ok(Unparse(Integer(x.l, true)))
    ensures x.NFloat? ==> DumpsWith(host, variant, x, hs, fuel) == Ok(Unparse(Float(x.f)))
    ensures x.NNone? ==> DumpsWith(host, variant, x, hs, fuel) == Ok(Unparse(Nil))
    ensures KindOf(x).None? ==> DumpsWith(host, variant, x, hs, fuel) == Err(CannotEncode(x))
  {
    ObjectDispatch(host, variant, x, hs, fuel);
    if x.NBool? || x.NInt? || x.NLong? || x.NFloat? || x.NNone? {
      var text := if x.NBool? then Unparse(Bool(x.b))
        else if x.NInt? then Unparse(Integer(x.i, false))
        else if x.NLong? then Unparse(Integer(x.l, true))
        else if x.NFloat? then Unparse(Float(x.f))
        else Unparse(Nil);
      PrintedAtom(x);
      assert DumpTokens(host, variant, KindOf(x).value, x, hs, fuel - 1) == Ok(Leaf(text));
      RenderLeaf(text);
    }
  }

  lemma PrintedAtom(x: Native)
    ensures x.NBool? ==> Unparse(Bool(x.b)) == if x.b then "true" else "false"
    ensures x.NInt? ==> Unparse(Integer(x.i, false)) == DecimalText(x.i)
    ensures x.NLong? ==> Unparse(Integer(x.l, true)) == DecimalText(x.l) + "N"
    ensures x.NFloat? ==> Unparse(Float(x.f)) == x.f.text
    ensures Unparse(Nil) == "nil"
  {
  }

  /** Symbols and keywords print as `prefix/name` when the prefix is
      truthy and as the bare name otherwise, the keyword after a colon: as
      the newer printer prints them. */
  lemma NameDumps(host: Host, variant: Extended.Variant, x: Native, hs: seq<WriteHandler>, fuel: nat)
    requires fuel > 0 && FirstMatch(NamedTuples, hs, x).None?
    ensures x.NSymbol? ==> DumpsWith(host, variant, x, hs, fuel) == Ok(Unparse(Sym(x.sym)))
    ensures x.NKeyword? ==> DumpsWith(host, variant, x, hs, fuel) == Ok(Unparse(Keyword(x.sym)))
  {
    if x.NSymbol? || x.NKeyword? {
      ObjectDispatch(host, variant, x, hs, fuel);
      PrintedName(x.sym);
      var text := if x.NSymbol? then SymbolText(x.sym) else ":" + SymbolText(x.sym);
      var t := DumpTokens(host, variant, KindOf(x).value, x, hs, fuel - 1);
      assert t == Ok(if HasPrefix(x.sym) then Group([Leaf(text)]) else Leaf(text));
      RenderLeaf(text);
    }
  }

  lemma PrintedName(s: Symbol)
    ensures Unparse(Sym(s)) == SymbolText(s)
    ensures Unparse(Keyword(s)) == ":" + SymbolText(s)
  {
  }

  /** Strings print between double quotes through the escape table, as the
      newer printer prints them, and are refused exactly when the newer
      printer refuses the same string: a byte string with a non-ASCII
      character fails the UTF-8 encoding. */
  lemma StringDumps(host: Host, variant: Extended.Variant, x: Native, hs: seq<WriteHandler>, fuel: nat)
    requires fuel > 0 && FirstMatch(NamedTuples, hs, x).None? && x.NText?
    ensures DumpsWith(host, variant, x, hs, fuel).Ok? <==> Printable(String(x.s, !x.unicode))
    ensures !x.unicode && !Ascii(x.s) ==> DumpsWith(host, variant, x, hs, fuel) == Err(NotAscii(x))
    ensures x.unicode || Ascii(x.s) ==> DumpsWith(host, variant, x, hs, fuel) == Ok(Unparse(String(x.s, !x.unicode)))
  {
    ObjectDispatch(host, variant, x, hs, fuel);
    RenderLeaf("\"" + Escape(x.s) + "\"");
  }

  /** The elements of a list, tuple or set are each dumped with the same
      handlers: the list of texts exists exactly when every element
      dumps. */
  lemma {:induction false} DumpAllSucceed(host: Host, variant: Extended.Variant, xs: seq<Native>,
                                          hs: seq<WriteHandler>, fuel: nat)
    ensures DumpAll(host, variant, xs, hs, fuel).Ok? <==>
      forall i :: 0 <= i < |xs| ==> DumpsWith(host, variant, xs[i], hs, fuel).Ok?
    decreases |xs|
  {
    if |xs| > 0 {
      DumpAllSucceed(host, variant, xs[1..], hs, fuel);
      assert forall i :: 1 <= i < |xs| ==> xs[1..][i - 1] == xs[i];
    }
  }

  /** When the elements dump, the list of texts holds their texts in
      order. */
  lemma {:induction false} DumpAllElements(host: Host, variant: Extended.Variant, xs: seq<Native>,
                                           hs: seq<WriteHandler>, fuel: nat)
    requires DumpAll(host, variant, xs, hs, fuel).Ok?
    ensures |DumpAll(host, variant, xs, hs, fuel).value| == |xs|
    ensures forall i :: 0 <= i < |xs| ==>
      DumpsWith(host, variant, xs[i], hs, fuel) == Ok(DumpAll(host, variant, xs, hs, fuel).value[i])
    decreases |xs|
  {
    if |xs| > 0 {
      var r := DumpAll(host, variant, xs, hs, fuel);
      var rest := DumpAll(host, variant, xs[1..], hs, fuel);
      DumpAllElements(host, variant, xs[1..], hs, fuel);
      forall i | 1 <= i < |xs|
        ensures DumpsWith(host, variant, xs[i], hs, fuel) == Ok(r.value[i])
      {
        assert xs[1..][i - 1] == xs[i];
        assert r.value[i] == rest.value[i - 1];
      }
    }
  }

  /** The keys and values of a dict are each dumped with the same handlers:
      the pairs of texts exist exactly when every key and value dumps. */
  lemma {:induction false} DumpPairsSucceed(host: Host, variant: Extended.Variant, ps: seq<(Native, Native)>,
                                            hs: seq<WriteHandler>, fuel: nat)
    ensures DumpPairs(host, variant, ps, hs, fuel).Ok? <==>
      forall i :: 0 <= i < |ps| ==>
        DumpsWith(host, variant, ps[i].0, hs, fuel).Ok? && DumpsWith(host, variant, ps[i].1, hs, fuel).Ok?
    decreases |ps|
  {
    if |ps| > 0 {
      DumpPairsSucceed(host, variant, ps[1..], hs, fuel);
      assert forall i :: 1 <= i < |ps| ==> ps[1..][i - 1] == ps[i];
    }
  }

  /** When a dict's pairs dump, the pairs of texts are the texts of its
      keys and values, in order. */
  lemma {:induction false} DumpPairsElements(host: Host, variant: Extended.Variant, ps: seq<(Native, Native)>,
                                             hs: seq<WriteHandler>, fuel: nat)
    requires DumpPairs(host, variant, ps, hs, fuel).Ok?
    ensures |DumpPairs(host, variant, ps, hs, fuel).value| == |ps|
    ensures forall i :: 0 <= i < |ps| ==>
      DumpsWith(host, variant, ps[i].0, hs, fuel) == Ok(DumpPairs(host, variant, ps, hs, fuel).value[i].0) &&
      DumpsWith(host, variant, ps[i].1, hs, fuel) == Ok(DumpPairs(host, variant, ps, hs, fuel).value[i].1)
    decreases |ps|
  {
    if |ps| > 0 {
      var r := DumpPairs(host, variant, ps, hs, fuel);
      var rest := DumpPairs(host, variant, ps[1..], hs, fuel);
      DumpPairsElements(host, variant, ps[1..], hs, fuel);
      forall i | 1 <= i < |ps|
        ensures DumpsWith(host, variant, ps[i].0, hs, fuel) == Ok(r.value[i].0)
        ensures DumpsWith(host, variant, ps[i].1, hs, fuel) == Ok(r.value[i].1)
      {
        assert ps[1..][i - 1] == ps[i];
        assert r.value[i] == rest.value[i - 1];
      }
    }
  }

  /** The opening bracket `_dump_list` or `_dump_set` writes. */
  function SequenceOpener(x: Native): string
  {
    if x.NSet? then "#{" else "("
  }

  /** The closing bracket `_dump_list` or `_dump_set` writes. */
  function SequenceCloser(x: Native): string
  {
    if x.NSet? then "}" else ")"
  }

  /** A list or tuple prints as `(` and a set as `#{`, then the element
      texts separated by single spaces, then the closing bracket; the first
      element that cannot be dumped makes the whole dump fail. */
  lemma SequenceDumps(host: Host, variant: Extended.Variant, x: Native, hs: seq<WriteHandler>, fuel: nat)
    requires fuel > 0 && (x.NList? || x.NTuple? || x.NSet?) && FirstMatch(NamedTuples, hs, x).None?
    ensures var r := DumpAll(host, variant, x.items, hs, fuel - 1);
      && (r.Err? ==> DumpsWith(host, variant, x, hs, fuel) == Err(r.error))
      && (r.Ok? && PlainTokens(r.value) ==>
            DumpsWith(host, variant, x, hs, fuel) == Ok(SequenceOpener(x) + Join(" ", r.value) + SequenceCloser(x)))
  {
    ObjectDispatch(host, variant, x, hs, fuel);
    var r := DumpAll(host, variant, x.items, hs, fuel - 1);
    if r.Ok? && PlainTokens(r.value) {
      Closers();
      NotCloser(SequenceOpener(x), 0);
      FlattenLeaves(r.value, Leaf(""));
      RenderBracketed(SequenceOpener(x), Leaves(r.value), r.value, SequenceCloser(x));
    }
  }

  /** The pair groups flatten to key, value, key, value, ... */
  lemma {:induction false} FlattenPairGroups(ps: seq<(string, string)>)
    ensures Flatten(Group(PairGroups(ps))) == PairTokens(ps)
    decreases |ps|
  {
    if |ps| > 0 {
      var g := Group([Leaf(ps[0].0), Leaf(ps[0].1)]);
      assert PairGroups(ps) == [g] + PairGroups(ps[1..]);
      FlattenAppend([g], PairGroups(ps[1..]));
      FlattenPairGroups(ps[1..]);
      assert FlattenFrom(g, 2) == [];
      assert FlattenFrom(g, 1) == [ps[0].1] + [];
      assert FlattenFrom(g, 0) == [ps[0].0] + [ps[0].1];
      assert FlattenFrom(Group([g]), 1) == [];
      assert FlattenFrom(Group([g]), 0) == Flatten(g) + [];
    }
  }

  /** A dict prints as `{`, its keys and values in iteration order
      separated by single spaces, then `}`; the first key or value that
      cannot be dumped makes the whole dump fail. */
  lemma DictDumps(host: Host, variant: Extended.Variant, x: Native, hs: seq<WriteHandler>, fuel: nat)
    requires fuel > 0 && x.NDict? && !x.frozen && FirstMatch(NamedTuples, hs, x).None?
    ensures var r := DumpPairs(host, variant, x.pairs, hs, fuel - 1);
      && (r.Err? ==> DumpsWith(host, variant, x, hs, fuel) == Err(r.error))
      && (r.Ok? && PlainTokens(PairTokens(r.value)) ==>
            DumpsWith(host, variant, x, hs, fuel) == Ok("{" + Join(" ", PairTokens(r.value)) + "}"))
  {
    ObjectDispatch(host, variant, x, hs, fuel);
    var r := DumpPairs(host, variant, x.pairs, hs, fuel - 1);
    if r.Ok? && PlainTokens(PairTokens(r.value)) {
      Closers();
      NotCloser("{", 0);
      FlattenPairGroups(r.value);
      RenderBracketed("{", PairGroups(r.value), PairTokens(r.value), "}");
    }
  }

  lemma TagSymbolDumps(host: Host, variant: Extended.Variant, tag: Symbol, fuel: nat)
    requires fuel > 0
    ensures DumpsWith(host, variant, NSymbol(TagSymbol(variant, tag)), DefaultWriteHandlers, fuel) ==
      Ok(TagText(variant, tag))
  {
    var sym := NSymbol(TagSymbol(variant, tag));
    DefaultHandlerIndex(sym);
    NameDumps(host, variant, sym, DefaultWriteHandlers, fuel);
    PrintedName(sym.sym);
  }

  /** A tagged value, once past the handlers, prints as its tag symbol's
      text, a space and its value's text; both are dumped with the default
      handlers, not the caller's. */
  lemma TaggedObject(host: Host, variant: Extended.Variant, tag: Symbol, value: Native,
                     hs: seq<WriteHandler>, fuel: nat)
    requires fuel > 1
    ensures var v := DumpsWith(host, variant, value, DefaultWriteHandlers, fuel - 1);
      && (v.Err? ==> DumpObject(host, variant, NTagged(tag, value), hs, fuel) == Err(v.error))
      && (v.Ok? && PlainToken(TagText(variant, tag)) && !ClosesGroup(v.value) ==>
            DumpObject(host, variant, NTagged(tag, value), hs, fuel) == Ok(TagText(variant, tag) + " " + v.value))
  {
    var x := NTagged(tag, value);
    ObjectDispatch(host, variant, x, hs, fuel);
    TagSymbolDumps(host, variant, tag, fuel - 1);
    var v := DumpsWith(host, variant, value, DefaultWriteHandlers, fuel - 1);
    if v.Ok? && PlainToken(TagText(variant, tag)) && !ClosesGroup(v.value) {
      RenderPair(TagText(variant, tag), v.value);
    }
  }

  /** With the default handlers a datetime prints as `#inst` and its ISO
      text as a string, a UUID as `#uuid` and its text; a given handler
      list replaces the defaults, so with an empty one a datetime object
      is refused. */
  lemma DefaultHandlersTag(host: Host, x: Native, fuel: nat)
    requires fuel > 1 && x.NObject?
    ensures DatetimeClass in x.classes && Ascii(host.isoformat(x)) ==>
      Dumps(host, x, None, fuel) == Ok("#inst " + Unparse(String(host.isoformat(x), true)))
    ensures DatetimeClass !in x.classes && UuidClass in x.classes && Ascii(host.uuidText(x)) ==>
      Dumps(host, x, None, fuel) == Ok("#uuid " + Unparse(String(host.uuidText(x), true)))
    ensures Dumps(host, x, Some([]), fuel) == Err(CannotEncode(x))
  {
    var none: seq<WriteHandler> := [];
    FirstMatchNone(NamedTuples, none, x);
    AtomDumps(host, Extended.Corrected, x, [], fuel);
    DefaultHandlerIndex(x);
    if DatetimeClass in x.classes && Ascii(host.isoformat(x)) {
      TagDefault(host, x, 0, InstTag, host.isoformat(x), "#inst ", fuel);
    } else if DatetimeClass !in x.classes && UuidClass in x.classes && Ascii(host.uuidText(x)) {
      TagDefault(host, x, 1, UuidTag, host.uuidText(x), "#uuid ", fuel);
    }
  }

  lemma TagDefault(host: Host, x: Native, j: nat, tag: Symbol, text: string, lead: string, fuel: nat)
    requires fuel > 1 && FirstMatch(NamedTuples, DefaultWriteHandlers, x) == Some(j)
    requires j == 0 ==> tag == InstTag && text == host.isoformat(x)
    requires j == 1 ==> tag == UuidTag && text == host.uuidText(x)
    requires Ascii(text) && lead == "#" + tag.name + " "
    ensures Dumps(host, x, None, fuel) == Ok(lead + Unparse(String(text, true)))
  {
    var t := NText(text, false);
    assert CallHandler(host, DefaultWriteHandlers[j].action, x) == Ok(NTagged(tag, t));
    HandlerAppliedOnce(host, Extended.Corrected, x, DefaultWriteHandlers, j, fuel);
    DefaultHandlerIndex(t);
    StringDumps(host, Extended.Corrected, t, DefaultWriteHandlers, fuel - 1);
    QuotedPlain(text);
    assert TagText(Extended.Corrected, tag) == "#" + tag.name;
    NotCloser("#" + tag.name, 0);
    TaggedObject(host, Extended.Corrected, tag, t, DefaultWriteHandlers, fuel);
  }

  /** A tagged int, with no handler for it, prints as the tag text, a
      space and the digits. */
  lemma TaggedInt(host: Host, variant: Extended.Variant, tag: Symbol, n: int, fuel: nat)
    requires fuel > 1 && PlainToken(TagText(variant, tag))
    ensures DumpsWith(host, variant, NTagged(tag, NInt(n)), DefaultWriteHandlers, fuel) ==
      Ok(TagText(variant, tag) + " " + DecimalText(n))
  {
    var x := NTagged(tag, NInt(n));
    DefaultHandlerIndex(x);
    DefaultHandlerIndex(NInt(n));
    AtomDumps(host, variant, NInt(n), DefaultWriteHandlers, fuel - 1);
    PrintedAtom(NInt(n));
    DecimalRoundTrip(n);
    NotCloser(DecimalText(n), 0);
    TaggedObject(host, variant, tag, NInt(n), DefaultWriteHandlers, fuel);
  }

  lemma QuotedPlain(text: string)
    ensures !ClosesGroup(Unparse(String(text, true)))
  {
    var q := Unparse(String(text, true));
    assert q == "\"" + Escape(text) + "\"";
    NotCloser(q, 0);
  }

  /** As written, a tag's prefix is dropped from the printed tag: the tag
      `my/foo` prints as `#foo`, which reads back as another tag. */
  lemma TagPrefixDropped(host: Host, fuel: nat)
    requires fuel > 1
    ensures DumpsAsWritten(host, NTagged(Symbol("foo", Some("my")), NInt(1)), None, fuel) == Ok("#foo 1")
    ensures ReadSymbol("foo") != Canonical(Symbol("foo", Some("my")))
  {
    var tag := Symbol("foo", Some("my"));
    assert TagText(Extended.AsWritten, tag) == "#foo";
    NotCloser("#foo", 0);
    TaggedInt(host, Extended.AsWritten, tag, 1, fuel);
    assert DecimalText(1) == "1";
    assert "#foo" + " " + "1" == "#foo 1";
    assert IndexOf("foo", '/').None?;
  }

  /** Corrected, the tag `my/foo` prints as `#my/foo`, which reads back as
      that tag. */
  lemma TagPrefixKept(host: Host, fuel: nat)
    requires fuel > 1
    ensures Dumps(host, NTagged(Symbol("foo", Some("my")), NInt(1)), None, fuel) == Ok("#my/foo 1")
    ensures ReadSymbol("my/foo") == Canonical(Symbol("foo", Some("my")))
  {
    var tag := Symbol("foo", Some("my"));
    assert SymbolText(tag) == "my/foo";
    assert TagText(Extended.Corrected, tag) == "#my/foo";
    NotCloser("#my/foo", 0);
    TaggedInt(host, Extended.Corrected, tag, 1, fuel);
    assert DecimalText(1) == "1";
    assert "#my/foo" + " " + "1" == "#my/foo 1";
    SymbolReadBack(tag);
  }

  /** The corrected tag text is `#` and the tag's printed form, which reads
      back as the tag (up to an empty prefix printing like an absent one),
      and a tagged value prints as the newer printer prints it; as written,
      a tag with a prefix never reads back. */
  lemma TagReadBack(tag: Symbol, value: Value)
    requires WellFormedSymbol(tag)
    ensures TagText(Extended.Corrected, tag)[0] == '#'
    ensures ReadSymbol(TagText(Extended.Corrected, tag)[1..]) == Canonical(tag)
    ensures TagText(Extended.Corrected, tag) + " " + Unparse(value) == Unparse(TaggedValue(tag, value))
    ensures HasPrefix(tag) ==> ReadSymbol(TagText(Extended.AsWritten, tag)[1..]) != Canonical(tag)
  {
    var t := TagText(Extended.Corrected, tag);
    assert t[1..] == SymbolText(tag);
    SymbolReadBack(tag);
    AppendAssoc("#", SymbolText(tag), " ");
    AppendAssoc("#" + SymbolText(tag), " ", Unparse(value));
    var w := TagText(Extended.AsWritten, tag);
    assert w[1..] == tag.name;
    if HasPrefix(tag) && tag.name != "/" {
      assert '/' !in tag.name;
    }
  }
}
