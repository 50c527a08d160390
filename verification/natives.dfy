/** The Python objects the codecs convert from and to, Python 2's
    `isinstance` over them, and ordered type-dispatch tables. */
module Natives {
  import opened Outcomes
  import opened Ast

  /** A class named by a writer or handler table (a namedtuple class, a
      `datetime.datetime`, a `uuid.UUID`, a user class). */
  type ClassId = string

  const DatetimeClass: ClassId := "datetime.datetime"
  const UuidClass: ClassId := "uuid.UUID"

  /** A Python object.
      - `NInt` is a Python `int`, `NLong` a Python `long`; both carry an
        unbounded integer (the machine-word range of `int`, beyond which
        Python 2 makes a `long`, is not imposed). `NBool` is kept apart
        although `bool` subclasses `int`.
      - `NDecimal.text` is `str()` of the decimal.
      - `NText.unicode` tells `unicode` from byte `str`.
      - `NTuple.classes` lists the tuple subclasses (namedtuple types) the
        object is an instance of; a plain tuple has none.
      - `frozen` tells `frozenset`/`frozendict` from `set`/`dict`.
      - `NSymbol`, `NKeyword` and `NTagged` are the library's own symbol,
        keyword and tagged-value objects (terml terms in edn/_extended.py,
        namedtuples in edn/_edn.py and edn.py).
      - `NObject` is any other object, by its classes and an opaque payload. */
  datatype Native =
    | NNone
    | NBool(b: bool)
    | NInt(i: int)
    | NLong(l: int)
    | NFloat(f: HostFloat)
    | NDecimal(text: string)
    | NText(s: string, unicode: bool)
    | NTuple(items: seq<Native>, classes: seq<ClassId>)
    | NList(items: seq<Native>)
    | NSet(items: seq<Native>, frozen: bool)
    | NDict(pairs: seq<(Native, Native)>, frozen: bool)
    | NSymbol(sym: Symbol)
    | NKeyword(sym: Symbol)
    | NTagged(tag: Symbol, value: Native)
    | NObject(classes: seq<ClassId>, payload: string)

  /** The types named in the dispatch tables. */
  datatype PyType =
    | TNone | TBool | TInt | TLong | TFloat | TDecimal | TStr | TUnicode
    | TTuple | TList | TSet | TFrozenSet | TDict | TFrozenDict
    | TSymbol | TKeyword | TTaggedValue
    | TClass(id: ClassId)

  /** Which definition of the library's symbol, keyword and tagged-value
      classes is in force: terml terms (not tuples) or namedtuples (tuples). */
  datatype Universe = TermUniverse | NamedTuples

  /** Python 2's `isinstance(x, t)`. `bool` is a subclass of `int`; `long`
      is not; in the namedtuple universe symbols, keywords and tagged values
      are tuples. */
  predicate IsInstance(u: Universe, x: Native, t: PyType) {
    match t
    case TNone => x.NNone?
    case TBool => x.NBool?
    case TInt => x.NBool? || x.NInt?
    case TLong => x.NLong?
    case TFloat => x.NFloat?
    case TDecimal => x.NDecimal?
    case TStr => x.NText? && !x.unicode
    case TUnicode => x.NText? && x.unicode
    case TTuple => x.NTuple? || (u == NamedTuples && (x.NSymbol? || x.NKeyword? || x.NTagged?))
    case TList => x.NList?
    case TSet => x.NSet? && !x.frozen
    case TFrozenSet => x.NSet? && x.frozen
    case TDict => x.NDict? && !x.frozen
    case TFrozenDict => x.NDict? && x.frozen
    case TSymbol => x.NSymbol?
    case TKeyword => x.NKeyword?
    case TTaggedValue => x.NTagged?
    case TClass(c) => (x.NTuple? || x.NObject?) && c in x.classes
  }

  /** `isinstance(x, (t0, t1, ...))`. */
  predicate AnyInstance(u: Universe, x: Native, ts: seq<PyType>)
    decreases |ts|
  {
    |ts| > 0 && (IsInstance(u, x, ts[0]) || AnyInstance(u, x, ts[1..]))
  }

  /** x is an instance of the tuple of types exactly when it is an
      instance of one of them. */
  lemma {:induction false} AnyInstanceSome(u: Universe, x: Native, ts: seq<PyType>)
    ensures AnyInstance(u, x, ts) <==> exists i :: 0 <= i < |ts| && IsInstance(u, x, ts[i])
    decreases |ts|
  {
    if |ts| > 0 {
      AnyInstanceSome(u, x, ts[1..]);
      if exists i :: 0 <= i < |ts| && IsInstance(u, x, ts[i]) {
        var i :| 0 <= i < |ts| && IsInstance(u, x, ts[i]);
        if i > 0 { assert ts[1..][i - 1] == ts[i]; }
      }
      if AnyInstance(u, x, ts[1..]) {
        var i :| 0 <= i < |ts[1..]| && IsInstance(u, x, ts[1..][i]);
        assert IsInstance(u, x, ts[i + 1]);
      }
    }
  }

  /** `isinstance` against tuples of one, two and three types. */
  lemma AnyInstanceOne(u: Universe, x: Native, a: PyType)
    ensures AnyInstance(u, x, [a]) <==> IsInstance(u, x, a)
  {
    assert [a][1..] == [];
  }

  lemma AnyInstanceTwo(u: Universe, x: Native, a: PyType, b: PyType)
    ensures AnyInstance(u, x, [a, b]) <==> IsInstance(u, x, a) || IsInstance(u, x, b)
  {
    assert [a, b][1..] == [b];
    AnyInstanceOne(u, x, b);
  }

  lemma AnyInstanceThree(u: Universe, x: Native, a: PyType, b: PyType, c: PyType)
    ensures AnyInstance(u, x, [a, b, c]) <==> IsInstance(u, x, a) || IsInstance(u, x, b) || IsInstance(u, x, c)
  {
    assert [a, b, c][1..] == [b, c];
    AnyInstanceTwo(u, x, b, c);
  }

  /** One `(types, action)` entry of a dispatch table. */
  datatype Rule<A> = Rule(types: seq<PyType>, action: A)

  /** Index of the first rule, from `from` on, whose types x is an
      instance of. */
  function FirstMatchFrom<A>(u: Universe, rules: seq<Rule<A>>, x: Native, from: nat): (r: Option<nat>)
    requires from <= |rules|
    ensures r.Some? ==> from <= r.value < |rules|
    decreases |rules| - from
  {
    if from == |rules| then None
    else if AnyInstance(u, x, rules[from].types) then Some(from)
    else FirstMatchFrom(u, rules, x, from + 1)
  }

  /** The `for types, action in rules: if isinstance(x, types)` loop. */
  function FirstMatch<A>(u: Universe, rules: seq<Rule<A>>, x: Native): (r: Option<nat>)
    ensures r.Some? ==> r.value < |rules|
  {
    FirstMatchFrom(u, rules, x, 0)
  }

  /** The scan from `from` finds the least matching index at or after
      `from`, and finds none exactly when no rule from there on matches. */
  lemma {:induction false} FirstMatchFromSpec<A>(u: Universe, rules: seq<Rule<A>>, x: Native, from: nat)
    requires from <= |rules|
    ensures var r := FirstMatchFrom(u, rules, x, from);
      && (r.Some? ==> AnyInstance(u, x, rules[r.value].types))
      && (r.Some? ==> forall j :: from <= j < r.value ==> !AnyInstance(u, x, rules[j].types))
      && (r.None? <==> forall j :: from <= j < |rules| ==> !AnyInstance(u, x, rules[j].types))
    decreases |rules| - from
  {
    if from < |rules| && !AnyInstance(u, x, rules[from].types) {
      FirstMatchFromSpec(u, rules, x, from + 1);
    }
  }

  /** The first match is a matching rule with no matching rule before it,
      and there is none exactly when no rule matches. */
  lemma FirstMatchSpec<A>(u: Universe, rules: seq<Rule<A>>, x: Native)
    ensures var r := FirstMatch(u, rules, x);
      && (r.Some? ==> AnyInstance(u, x, rules[r.value].types))
      && (r.Some? ==> forall j :: 0 <= j < r.value ==> !AnyInstance(u, x, rules[j].types))
      && (r.None? <==> forall j :: 0 <= j < |rules| ==> !AnyInstance(u, x, rules[j].types))
  {
    FirstMatchFromSpec(u, rules, x, 0);
  }

  /** The first match is the least matching index. */
  lemma FirstMatchIs<A>(u: Universe, rules: seq<Rule<A>>, x: Native, k: nat)
    requires k < |rules| && AnyInstance(u, x, rules[k].types)
    requires forall j :: 0 <= j < k ==> !AnyInstance(u, x, rules[j].types)
    ensures FirstMatch(u, rules, x) == Some(k)
  {
    FirstMatchSpec(u, rules, x);
  }

  /** No match exists exactly when no rule matches. */
  lemma FirstMatchNone<A>(u: Universe, rules: seq<Rule<A>>, x: Native)
    requires forall j :: 0 <= j < |rules| ==> !AnyInstance(u, x, rules[j].types)
    ensures FirstMatch(u, rules, x).None?
  {
    FirstMatchSpec(u, rules, x);
  }

  /** A match in a table is still a match, and still the first, once more
      rules are appended after it; a table without a match defers to the
      appended rules. */
  lemma FirstMatchAppend<A>(u: Universe, a: seq<Rule<A>>, b: seq<Rule<A>>, x: Native)
    ensures FirstMatch(u, a, x).Some? ==> FirstMatch(u, a + b, x) == FirstMatch(u, a, x)
    ensures FirstMatch(u, a, x).None? && FirstMatch(u, b, x).Some? ==>
      FirstMatch(u, a + b, x) == Some(|a| + FirstMatch(u, b, x).value)
    ensures FirstMatch(u, a, x).None? && FirstMatch(u, b, x).None? ==> FirstMatch(u, a + b, x).None?
  {
    FirstMatchSpec(u, a, x);
    FirstMatchSpec(u, b, x);
    assert forall j :: 0 <= j < |a| ==> (a + b)[j] == a[j];
    assert forall j :: 0 <= j < |b| ==> (a + b)[|a| + j] == b[j];
    if FirstMatch(u, a, x).Some? {
      FirstMatchIs(u, a + b, x, FirstMatch(u, a, x).value);
    } else if FirstMatch(u, b, x).Some? {
      var k := FirstMatch(u, b, x).value;
      forall j | 0 <= j < |a| + k ensures !AnyInstance(u, x, (a + b)[j].types) {
        if j >= |a| { assert (a + b)[j] == b[j - |a|]; }
      }
      FirstMatchIs(u, a + b, x, |a| + k);
    } else {
      forall j | 0 <= j < |a + b| ensures !AnyInstance(u, x, (a + b)[j].types) {
        if j >= |a| { assert (a + b)[j] == b[j - |a|]; }
      }
      FirstMatchNone(u, a + b, x);
    }
  }

  /** What a conversion raises. */
  datatype Error =
    | CannotConvert(obj: Native)   // to_terms: "Cannot convert %r to edn"
    | CannotEncode(obj: Native)    // dumps: "Cannot encode %r"
    | CannotDecode(tag: string)    // from_terms: "Cannot decode %r"
    | NotAscii(obj: Native)        // a byte string with a non-ASCII byte, decoded implicitly
    | Unprintable(term: Value)     // unparse of a term holding such a byte string
    | ReaderFailed(message: string) // whatever a tag reader or default handler raises
    | RecursionLimit               // the interpreter's recursion limit
    | SyntaxError                  // the parser rejected the text

  /** Functions of the host libraries the codecs call but do not define:
      `datetime.isoformat`, `str(uuid)`, `iso8601.parse_date`, `uuid.UUID`,
      and `str(Decimal(text))`. The two readers raise on malformed input
      (`iso8601.ParseError`, `ValueError`). */
  datatype Host = Host(
    isoformat: Native -> string,
    uuidText: Native -> string,
    parseDate: Native -> Result<Native, Error>,
    makeUuid: Native -> Result<Native, Error>,
    decimalText: string -> string)

  const InstTag: Symbol := Symbol("inst", None)
  const UuidTag: Symbol := Symbol("uuid", None)

  function Larger(a: nat, b: nat): nat {
    if a < b then b else a
  }

  /** Nesting depth: 0 for a scalar, one more than the deepest element for
      a container. */
  function Depth(x: Native): nat
    decreases x, 1
  {
    match x
    case NTuple(_, _) => 1 + ItemsDepth(x, 0)
    case NList(_) => 1 + ItemsDepth(x, 0)
    case NSet(_, _) => 1 + ItemsDepth(x, 0)
    case NDict(_, _) => 1 + PairsDepth(x, 0)
    case NTagged(_, v) => 1 + Depth(v)
    case _ => 0
  }

  /** The depth of the deepest element of a tuple, list or set from index
      k on (0 for none). */
  function ItemsDepth(x: Native, k: nat): nat
    requires x.NTuple? || x.NList? || x.NSet?
    requires k <= |x.items|
    decreases x, 0, |x.items| - k
  {
    if k == |x.items| then 0 else Larger(Depth(x.items[k]), ItemsDepth(x, k + 1))
  }

  /** The depth of the deepest key or value of a dict from index k on. */
  function PairsDepth(x: Native, k: nat): nat
    requires x.NDict? && k <= |x.pairs|
    decreases x, 0, |x.pairs| - k
  {
    if k == |x.pairs| then 0
    else Larger(Larger(Depth(x.pairs[k].0), Depth(x.pairs[k].1)), PairsDepth(x, k + 1))
  }

  lemma {:induction false} ItemsDepthBound(x: Native, k: nat)
    requires x.NTuple? || x.NList? || x.NSet?
    requires k <= |x.items|
    ensures forall i :: k <= i < |x.items| ==> Depth(x.items[i]) <= ItemsDepth(x, k)
    decreases |x.items| - k
  {
    if k < |x.items| {
      ItemsDepthBound(x, k + 1);
    }
  }

  lemma {:induction false} PairsDepthBound(x: Native, k: nat)
    requires x.NDict? && k <= |x.pairs|
    ensures forall i :: k <= i < |x.pairs| ==>
      Depth(x.pairs[i].0) <= PairsDepth(x, k) && Depth(x.pairs[i].1) <= PairsDepth(x, k)
    decreases |x.pairs| - k
  {
    if k < |x.pairs| {
      PairsDepthBound(x, k + 1);
    }
  }

  /** Every element and every key and value of a container is strictly
      shallower than the container. */
  lemma DepthBound(x: Native)
    ensures (x.NTuple? || x.NList? || x.NSet?) ==> forall i :: 0 <= i < |x.items| ==> Depth(x.items[i]) < Depth(x)
    ensures x.NDict? ==> forall i :: 0 <= i < |x.pairs| ==>
      Depth(x.pairs[i].0) < Depth(x) && Depth(x.pairs[i].1) < Depth(x)
    ensures x.NTagged? ==> Depth(x.value) < Depth(x)
  {
    if x.NTuple? || x.NList? || x.NSet? {
      ItemsDepthBound(x, 0);
    } else if x.NDict? {
      PairsDepthBound(x, 0);
    }
  }
}
