/** The native codec of edn/_extended.py: `to_terms` turns Python objects
    into edn syntax through an ordered table of writers and base rules,
    `from_terms` turns syntax back into Python objects through a table of
    decoders and tag readers, and `dumps`, `dump` and `loads` compose them
    with the printer and the parser. */
module Extended {
  import opened Outcomes
  import opened Text
  import opened Ast
  import opened Printer
  import opened Natives

  /** Two definitions of a table: as the module writes it, and corrected
      (see the definitions that take it). */
  datatype Variant = AsWritten | Corrected

  // ---------------------------------------------------------------------
  // Encoding: to_terms

  /** What a writer makes of an object it claims: the default writers take
      the host's ISO text of a datetime and the text of a UUID; a caller's
      writer is any function, and what it raises is the result. */
  datatype Transform = IsoText | UuidText | Custom(f: Native -> Result<Native, Error>)

  function Apply(host: Host, t: Transform, x: Native): (r: Result<Native, Error>)
  {
    match t
    case IsoText => Ok(NText(host.isoformat(x), false))
    case UuidText => Ok(NText(host.uuidText(x), false))
    case Custom(f) => f(x)
  }

  /** The action `_make_tag_rule(tag, writer)` builds: tag the encoding of
      the transformed object. */
  datatype Tagger = Tagger(tag: Symbol, transform: Transform)

  /** A `(types, tag, writer)` entry, in the rule form `to_terms` scans. */
  type Writer = Rule<Tagger>

  /** DEFAULT_WRITERS: datetimes as `#inst` of their ISO text, UUIDs as
      `#uuid` of their canonical text. */
  const DefaultWriters: seq<Writer> :=
    [ Rule([TClass(DatetimeClass)], Tagger(InstTag, IsoText)),
      Rule([TClass(UuidClass)], Tagger(UuidTag, UuidText)) ]

  /** The `default` argument of `to_terms`: `_default_handler`, which
      refuses every object, or a caller's function, which returns an object
      to encode instead or fails. */
  datatype Fallback = RaiseDefault | Handler(f: Native -> Result<Native, Error>)

  function CallDefault(default: Fallback, x: Native): Result<Native, Error>
  {
    match default
    case RaiseDefault => Err(CannotConvert(x))
    case Handler(f) => f(x)
  }

  /** The encoders of `_base_encoding_rules`. */
  datatype BaseKind = KString | KMap | KSet | KList | KVector | KNil | KIdentity | KExact

  /** The numeric rule's types. As written the rule is `(int, float)`, and
      Python 2's `long` is not a subclass of `int`, so a long matches no
      rule; the corrected rule adds `long`. */
  function NumericTypes(variant: Variant): seq<PyType>
  {
    if variant == AsWritten then [TInt, TFloat] else [TInt, TLong, TFloat]
  }

  /** `_base_encoding_rules`, in order. */
  function BaseRules(variant: Variant): seq<Rule<BaseKind>>
  {
    [ Rule([TStr, TUnicode], KString),
      Rule([TDict, TFrozenDict], KMap),
      Rule([TSet, TFrozenSet], KSet),
      Rule([TTuple], KList),
      Rule([TList], KVector),
      Rule([TNone], KNil),
      Rule(NumericTypes(variant), KIdentity),
      Rule([TDecimal], KExact) ]
  }

  /** The objects an encoder accepts. */
  predicate Fits(kind: BaseKind, x: Native) {
    match kind
    case KString => x.NText?
    case KMap => x.NDict?
    case KSet => x.NSet?
    case KList => x.NTuple?
    case KVector => x.NList?
    case KNil => x.NNone?
    case KIdentity => x.NBool? || x.NInt? || x.NLong? || x.NFloat?
    case KExact => x.NDecimal?
  }

  /** Each base rule's types are exactly the objects its encoder accepts,
      except that as written no rule accepts a long. */
  lemma BaseRuleTypes(variant: Variant, x: Native)
    ensures forall k :: 0 <= k < |BaseRules(variant)| ==>
      (AnyInstance(TermUniverse, x, BaseRules(variant)[k].types) <==>
        Fits(BaseRules(variant)[k].action, x) && !(x.NLong? && variant == AsWritten))
  {
    forall k | 0 <= k < |BaseRules(variant)|
      ensures AnyInstance(TermUniverse, x, BaseRules(variant)[k].types) <==>
        Fits(BaseRules(variant)[k].action, x) && !(x.NLong? && variant == AsWritten)
    {
      BaseRuleTypesAt(variant, x, k);
    }
  }

  lemma BaseRuleTypesAt(variant: Variant, x: Native, k: nat)
    requires k < |BaseRules(variant)|
    ensures AnyInstance(TermUniverse, x, BaseRules(variant)[k].types) <==>
      Fits(BaseRules(variant)[k].action, x) && !(x.NLong? && variant == AsWritten)
  {
    if k < 3 {
      CollectionRuleTypes(variant, x, k);
    } else if k < 6 {
      SequenceRuleTypes(variant, x, k);
    } else {
      ScalarRuleTypes(variant, x, k);
    }
  }

  /** The string, map and set rules. */
  lemma CollectionRuleTypes(variant: Variant, x: Native, k: nat)
    requires k < 3
    ensures AnyInstance(TermUniverse, x, BaseRules(variant)[k].types) <==> Fits(BaseRules(variant)[k].action, x)
  {
    var r := BaseRules(variant)[k];
    if k == 0 {
      assert r == Rule([TStr, TUnicode], KString);
      AnyInstanceTwo(TermUniverse, x, TStr, TUnicode);
    } else if k == 1 {
      assert r == Rule([TDict, TFrozenDict], KMap);
      AnyInstanceTwo(TermUniverse, x, TDict, TFrozenDict);
    } else {
      assert r == Rule([TSet, TFrozenSet], KSet);
      AnyInstanceTwo(TermUniverse, x, TSet, TFrozenSet);
    }
  }

  /** The tuple, list and None rules. */
  lemma SequenceRuleTypes(variant: Variant, x: Native, k: nat)
    requires 3 <= k < 6
    ensures AnyInstance(TermUniverse, x, BaseRules(variant)[k].types) <==> Fits(BaseRules(variant)[k].action, x)
  {
    var r := BaseRules(variant)[k];
    if k == 3 {
      assert r == Rule([TTuple], KList);
      AnyInstanceOne(TermUniverse, x, TTuple);
    } else if k == 4 {
      assert r == Rule([TList], KVector);
      AnyInstanceOne(TermUniverse, x, TList);
    } else {
      assert r == Rule([TNone], KNil);
      AnyInstanceOne(TermUniverse, x, TNone);
    }
  }

  /** The numeric and decimal rules; only the numeric rule depends on the
      variant. */
  lemma ScalarRuleTypes(variant: Variant, x: Native, k: nat)
    requires 6 <= k < 8
    ensures AnyInstance(TermUniverse, x, BaseRules(variant)[k].types) <==>
      Fits(BaseRules(variant)[k].action, x) && !(x.NLong? && variant == AsWritten)
  {
    var r := BaseRules(variant)[k];
    if k == 7 {
      assert r == Rule([TDecimal], KExact);
      AnyInstanceOne(TermUniverse, x, TDecimal);
    } else if variant == AsWritten {
      assert r == Rule([TInt, TFloat], KIdentity);
      AnyInstanceTwo(TermUniverse, x, TInt, TFloat);
    } else {
      assert r == Rule([TInt, TLong, TFloat], KIdentity);
      AnyInstanceThree(TermUniverse, x, TInt, TLong, TFloat);
    }
  }

  /** The base rule an object selects, by its constructor. */
  function BaseIndex(variant: Variant, x: Native): Option<nat>
  {
    match x
    case NText(_, _) => Some(0)
    case NDict(_, _) => Some(1)
    case NSet(_, _) => Some(2)
    case NTuple(_, _) => Some(3)
    case NList(_) => Some(4)
    case NNone => Some(5)
    case NBool(_) => Some(6)
    case NInt(_) => Some(6)
    case NFloat(_) => Some(6)
    case NLong(_) => if variant == Corrected then Some(6) else None
    case NDecimal(_) => Some(7)
    case _ => None
  }

  /** An object fits the k-th base rule exactly when its constructor
      selects that rule. */
  lemma FitsIndex(variant: Variant, x: Native, k: nat)
    requires k < |BaseRules(variant)|
    ensures Fits(BaseRules(variant)[k].action, x) && !(x.NLong? && variant == AsWritten) <==>
      BaseIndex(variant, x) == Some(k)
  {
    var kind := BaseRules(variant)[k].action;
    if k < 4 {
      assert kind == [KString, KMap, KSet, KList][k];
      FitsLowIndex(variant, x, k, kind);
    } else {
      assert kind == [KVector, KNil, KIdentity, KExact][k - 4];
      FitsHighIndex(variant, x, k, kind);
    }
  }

  lemma FitsLowIndex(variant: Variant, x: Native, k: nat, kind: BaseKind)
    requires k < 4 && kind == [KString, KMap, KSet, KList][k]
    ensures Fits(kind, x) <==> BaseIndex(variant, x) == Some(k)
  {
  }

  lemma FitsHighIndex(variant: Variant, x: Native, k: nat, kind: BaseKind)
    requires 4 <= k < 8 && kind == [KVector, KNil, KIdentity, KExact][k - 4]
    ensures Fits(kind, x) && !(x.NLong? && variant == AsWritten) <==> BaseIndex(variant, x) == Some(k)
  {
  }

  /** The base table dispatches on the constructor alone: strings, dicts,
      sets, tuples, lists, None, numbers and decimals select their rule;
      symbols, keywords, tagged values and foreign objects select none; a
      long selects the numeric rule only once it is corrected. */
  lemma BaseRuleIndex(variant: Variant, x: Native)
    ensures FirstMatch(TermUniverse, BaseRules(variant), x) == BaseIndex(variant, x)
  {
    var rs := BaseRules(variant);
    forall k | 0 <= k < |rs|
      ensures AnyInstance(TermUniverse, x, rs[k].types) <==> BaseIndex(variant, x) == Some(k)
    {
      BaseRuleTypesAt(variant, x, k);
      FitsIndex(variant, x, k);
    }
    if BaseIndex(variant, x).Some? {
      FirstMatchIs(TermUniverse, rs, x, BaseIndex(variant, x).value);
    } else {
      FirstMatchNone(TermUniverse, rs, x);
    }
  }

  /** The `identity` rule: booleans, integers and floats are their own
      terms (the printer writes a long with an `N`). */
  function Identity(x: Native): Value
    requires x.NBool? || x.NInt? || x.NLong? || x.NFloat?
  {
    match x
    case NBool(b) => Bool(b)
    case NInt(i) => Integer(i, false)
    case NLong(l) => Integer(l, true)
    case NFloat(f) => Float(f)
  }

  /** `to_terms(x, writers, default)` with the base rules of `variant`.
      `fuel` bounds the nesting of calls, as the interpreter's recursion
      limit does. Symbols and keywords pass through; otherwise the first
      matching writer (the caller's before the defaults) tags the encoding
      of its transform, which sees the default writers only; otherwise the
      first matching base rule encodes the object, its elements with the
      same writers and default; otherwise `default(x)` is encoded instead. */
  function Encode(host: Host, variant: Variant, x: Native, writers: seq<Writer>,
                  default: Fallback, fuel: nat): Result<Value, Error>
    decreases fuel, 0, 2
  {
    if fuel == 0 then Err(RecursionLimit)
    else if x.NSymbol? then Ok(Sym(x.sym))
    else if x.NKeyword? then Ok(Keyword(x.sym))
    else EncodeObject(host, variant, x, writers, default, fuel)
  }

  /** An object that is not a symbol or keyword: the writers first. */
  function EncodeObject(host: Host, variant: Variant, x: Native, writers: seq<Writer>,
                        default: Fallback, fuel: nat): Result<Value, Error>
    requires fuel > 0
    decreases fuel, 0, 1
  {
    var all := writers + DefaultWriters;
      match FirstMatch(TermUniverse, all, x)
    case Some(i) =>
      var w := all[i].action;
      var y :- Apply(host, w.transform, x);
      var v :- Encode(host, variant, y, [], RaiseDefault, fuel - 1);
      Ok(TaggedValue(w.tag, v))
    case None => EncodeBase(host, variant, x, writers, default, fuel)
  }

  /** An object no writer claims: the base rules, then `default`. */
  function EncodeBase(host: Host, variant: Variant, x: Native, writers: seq<Writer>,
                      default: Fallback, fuel: nat): Result<Value, Error>
    requires fuel > 0
    decreases fuel, 0, 0
  {
    match FirstMatch(TermUniverse, BaseRules(variant), x)
    case Some(k) =>
      FirstMatchSpec(TermUniverse, BaseRules(variant), x);
      BaseRuleTypes(variant, x);
      Convert(host, variant, BaseRules(variant)[k].action, x, writers, default, fuel - 1)
    case None =>
      var y :- CallDefault(default, x);
      Encode(host, variant, y, writers, default, fuel - 1)
  }

  /** One base encoder; `fuel` is what the elements get. */
  function Convert(host: Host, variant: Variant, kind: BaseKind, x: Native, writers: seq<Writer>,
                   default: Fallback, fuel: nat): Result<Value, Error>
    requires Fits(kind, x)
    decreases fuel, 2, 0
  {
    match kind
    case KString => Ok(String(x.s, !x.unicode))
    case KMap =>
      var ps :- EncodePairs(host, variant, x.pairs, writers, default, fuel);
      Ok(Map(ps))
    case KSet =>
      var vs :- EncodeAll(host, variant, x.items, writers, default, fuel);
      Ok(Set(vs))
    case KList =>
      var vs :- EncodeAll(host, variant, x.items, writers, default, fuel);
      Ok(List(vs))
    case KVector =>
      var vs :- EncodeAll(host, variant, x.items, writers, default, fuel);
      Ok(Vector(vs))
    case KNil => Ok(Nil)
    case KIdentity => Ok(Identity(x))
    case KExact => Ok(ExactFloat(x.text))
  }

  /** Encodes elements left to right; the first failure is the result. */
  function EncodeAll(host: Host, variant: Variant, xs: seq<Native>, writers: seq<Writer>,
                     default: Fallback, fuel: nat): Result<seq<Value>, Error>
    decreases fuel, 1, |xs|
  {
    if |xs| == 0 then Ok([])
    else
      var v :- Encode(host, variant, xs[0], writers, default, fuel);
      var vs :- EncodeAll(host, variant, xs[1..], writers, default, fuel);
      Ok([v] + vs)
  }

  /** Encodes key-value pairs left to right, each key before its value. */
  function EncodePairs(host: Host, variant: Variant, ps: seq<(Native, Native)>, writers: seq<Writer>,
                       default: Fallback, fuel: nat): Result<seq<(Value, Value)>, Error>
    decreases fuel, 1, |ps|
  {
    if |ps| == 0 then Ok([])
    else
      var k :- Encode(host, variant, ps[0].0, writers, default, fuel);
      var v :- Encode(host, variant, ps[0].1, writers, default, fuel);
      var rest :- EncodePairs(host, variant, ps[1..], writers, default, fuel);
      Ok([(k, v)] + rest)
  }

  /** One step of EncodeAll: a head that encodes followed by a tail that
      encodes. */
  lemma EncodeAllStep(host: Host, variant: Variant, xs: seq<Native>, writers: seq<Writer>,
                      default: Fallback, fuel: nat, v: Value, vs: seq<Value>)
    requires |xs| > 0
    requires Encode(host, variant, xs[0], writers, default, fuel) == Ok(v)
    requires EncodeAll(host, variant, xs[1..], writers, default, fuel) == Ok(vs)
    ensures EncodeAll(host, variant, xs, writers, default, fuel) == Ok([v] + vs)
  {
  }

  /** One step of EncodePairs. */
  lemma EncodePairsStep(host: Host, variant: Variant, ps: seq<(Native, Native)>, writers: seq<Writer>,
                        default: Fallback, fuel: nat, k: Value, v: Value, rest: seq<(Value, Value)>)
    requires |ps| > 0
    requires Encode(host, variant, ps[0].0, writers, default, fuel) == Ok(k)
    requires Encode(host, variant, ps[0].1, writers, default, fuel) == Ok(v)
    requires EncodePairs(host, variant, ps[1..], writers, default, fuel) == Ok(rest)
    ensures EncodePairs(host, variant, ps, writers, default, fuel) == Ok([(k, v)] + rest)
  {
  }

  /** `to_terms`, with the numeric rule accepting longs. */
  function ToTerms(host: Host, x: Native, writers: seq<Writer>,
                   default: Fallback, fuel: nat): Result<Value, Error>
  {
    Encode(host, Corrected, x, writers, default, fuel)
  }

  /** `to_terms` as written, with the numeric rule `(int, float)`. */
  function ToTermsAsWritten(host: Host, x: Native, writers: seq<Writer>,
                            default: Fallback, fuel: nat): Result<Value, Error>
  {
    Encode(host, AsWritten, x, writers, default, fuel)
  }

  /** The base table read by constructor, as an independent reference for
      what its first-match dispatch does: each kind of object gets its
      encoder, and an object no rule accepts (a long, as written) goes to
      `default`. `fuel` is what the elements get. */
  function ByConstructor(host: Host, variant: Variant, x: Native, writers: seq<Writer>,
                         default: Fallback, fuel: nat): Result<Value, Error>
  {
    match x
    case NText(s, u) => Ok(String(s, !u))
    case NDict(ps, _) =>
      var qs :- EncodePairs(host, variant, ps, writers, default, fuel);
      Ok(Map(qs))
    case NSet(items, _) =>
      var vs :- EncodeAll(host, variant, items, writers, default, fuel);
      Ok(Set(vs))
    case NTuple(items, _) =>
      var vs :- EncodeAll(host, variant, items, writers, default, fuel);
      Ok(List(vs))
    case NList(items) =>
      var vs :- EncodeAll(host, variant, items, writers, default, fuel);
      Ok(Vector(vs))
    case NNone => Ok(Nil)
    case NBool(b) => Ok(Bool(b))
    case NInt(i) => Ok(Integer(i, false))
    case NFloat(f) => Ok(Float(f))
    case NLong(l) =>
      if variant == Corrected then Ok(Integer(l, true))
      else
        var y :- CallDefault(default, x);
        Encode(host, variant, y, writers, default, fuel)
    case NDecimal(t) => Ok(ExactFloat(t))
    case _ =>
      var y :- CallDefault(default, x);
      Encode(host, variant, y, writers, default, fuel)
  }

  /** Once no writer claims an object that is not a symbol or keyword, the
      ordered base table encodes it as the constructor-directed reading
      does. */
  lemma BaseDispatch(host: Host, variant: Variant, x: Native, writers: seq<Writer>,
                     default: Fallback, fuel: nat)
    requires fuel > 0 && !x.NSymbol? && !x.NKeyword?
    requires FirstMatch(TermUniverse, writers + DefaultWriters, x).None?
    ensures Encode(host, variant, x, writers, default, fuel) == ByConstructor(host, variant, x, writers, default, fuel - 1)
  {
    EncodeUnfold(host, variant, x, writers, default, fuel);
    BaseRuleIndex(variant, x);
    if BaseIndex(variant, x).Some? {
      ConvertAgrees(host, variant, x, writers, default, fuel - 1);
    }
  }

  /** The encoder of the rule an object selects is the constructor-directed
      one. */
  lemma ConvertAgrees(host: Host, variant: Variant, x: Native, writers: seq<Writer>,
                      default: Fallback, fuel: nat)
    requires BaseIndex(variant, x).Some?
    ensures var kind := BaseRules(variant)[BaseIndex(variant, x).value].action;
      Fits(kind, x) && Convert(host, variant, kind, x, writers, default, fuel) == ByConstructor(host, variant, x, writers, default, fuel)
  {
    var k := BaseIndex(variant, x).value;
    FitsIndex(variant, x, k);
    var kinds := [KString, KMap, KSet, KList, KVector, KNil, KIdentity, KExact];
    assert BaseRules(variant)[k].action == kinds[k];
  }

  /** One step of the layered encoder: an object that is not a symbol or
      keyword goes to the writers, and one no writer claims to the base
      rules. */
  lemma EncodeUnfold(host: Host, variant: Variant, x: Native, writers: seq<Writer>,
                     default: Fallback, fuel: nat)
    requires fuel > 0 && !x.NSymbol? && !x.NKeyword?
    ensures Encode(host, variant, x, writers, default, fuel) == EncodeObject(host, variant, x, writers, default, fuel)
    ensures FirstMatch(TermUniverse, writers + DefaultWriters, x).None? ==>
      EncodeObject(host, variant, x, writers, default, fuel) == EncodeBase(host, variant, x, writers, default, fuel)
  {
  }

  /** Encoding elements succeeds exactly when every element encodes, and
      then yields the elements' encodings in order. */
  lemma {:induction false} EncodeAllElements(host: Host, variant: Variant, xs: seq<Native>, writers: seq<Writer>,
                                             default: Fallback, fuel: nat)
    ensures EncodeAll(host, variant, xs, writers, default, fuel).Ok? <==>
      forall i :: 0 <= i < |xs| ==> Encode(host, variant, xs[i], writers, default, fuel).Ok?
    ensures EncodeAll(host, variant, xs, writers, default, fuel).Ok? ==>
      var vs := EncodeAll(host, variant, xs, writers, default, fuel).value;
      |vs| == |xs| && forall i :: 0 <= i < |xs| ==> Encode(host, variant, xs[i], writers, default, fuel) == Ok(vs[i])
    decreases |xs|
  {
    if |xs| > 0 {
      EncodeAllElements(host, variant, xs[1..], writers, default, fuel);
      assert forall i :: 1 <= i < |xs| ==> xs[i] == xs[1..][i - 1];
    }
  }

  /** Likewise for key-value pairs. */
  lemma {:induction false} EncodePairsElements(host: Host, variant: Variant, ps: seq<(Native, Native)>, writers: seq<Writer>,
                                               default: Fallback, fuel: nat)
    ensures EncodePairs(host, variant, ps, writers, default, fuel).Ok? <==>
      forall i :: 0 <= i < |ps| ==>
        Encode(host, variant, ps[i].0, writers, default, fuel).Ok? && Encode(host, variant, ps[i].1, writers, default, fuel).Ok?
    ensures EncodePairs(host, variant, ps, writers, default, fuel).Ok? ==>
      var qs := EncodePairs(host, variant, ps, writers, default, fuel).value;
      |qs| == |ps| && forall i :: 0 <= i < |ps| ==>
        Encode(host, variant, ps[i].0, writers, default, fuel) == Ok(qs[i].0) &&
        Encode(host, variant, ps[i].1, writers, default, fuel) == Ok(qs[i].1)
    decreases |ps|
  {
    if |ps| > 0 {
      EncodePairsElements(host, variant, ps[1..], writers, default, fuel);
      assert forall i :: 1 <= i < |ps| ==> ps[i] == ps[1..][i - 1];
    }
  }

  // ---------------------------------------------------------------------
  // Properties of the encoder

  /** Symbols and keywords are already terms and are returned unchanged,
      whatever the writers say. */
  lemma SymbolsPassThrough(host: Host, s: Symbol, writers: seq<Writer>,
                           default: Fallback, fuel: nat)
    requires fuel > 0
    ensures ToTerms(host, NSymbol(s), writers, default, fuel) == Ok(Sym(s))
    ensures ToTerms(host, NKeyword(s), writers, default, fuel) == Ok(Keyword(s))
  {
  }

  /** The first of the caller's writers whose types the object is an
      instance of decides, ahead of the default writers and of every base
      rule (a namedtuple with a writer is not written as a list): the result
      is that writer's tag over the encoding of its transform, which is
      encoded with the default writers and the refusing default only. This
      holds with either set of rules. */
  lemma UserWriterWins(host: Host, variant: Variant, x: Native, writers: seq<Writer>, default: Fallback,
                       fuel: nat, j: nat)
    requires fuel > 0 && !x.NSymbol? && !x.NKeyword?
    requires j < |writers| && AnyInstance(TermUniverse, x, writers[j].types)
    requires forall i :: 0 <= i < j ==> !AnyInstance(TermUniverse, x, writers[i].types)
    ensures Encode(host, variant, x, writers, default, fuel) ==
      match Apply(host, writers[j].action.transform, x)
      case Err(e) => Err(e)
      case Ok(y) =>
        match Encode(host, variant, y, [], RaiseDefault, fuel - 1)
        case Ok(v) => Ok(TaggedValue(writers[j].action.tag, v))
        case Err(e) => Err(e)
  {
    EncodeUnfold(host, variant, x, writers, default, fuel);
    FirstMatchIs(TermUniverse, writers, x, j);
    FirstMatchAppend(TermUniverse, writers, DefaultWriters, x);
    assert (writers + DefaultWriters)[j] == writers[j];
  }

  /** The default writers claim datetimes first, then UUIDs, and nothing
      else. */
  lemma DefaultWriterIndex(x: Native)
    ensures FirstMatch(TermUniverse, DefaultWriters, x) ==
      if (x.NTuple? || x.NObject?) && DatetimeClass in x.classes then Some(0)
      else if (x.NTuple? || x.NObject?) && UuidClass in x.classes then Some(1)
      else None
  {
    assert DefaultWriters[0].types == [TClass(DatetimeClass)];
    assert DefaultWriters[1].types == [TClass(UuidClass)];
    if (x.NTuple? || x.NObject?) && DatetimeClass in x.classes {
      FirstMatchIs(TermUniverse, DefaultWriters, x, 0);
    } else if (x.NTuple? || x.NObject?) && UuidClass in x.classes {
      FirstMatchIs(TermUniverse, DefaultWriters, x, 1);
    } else {
      FirstMatchNone(TermUniverse, DefaultWriters, x);
    }
  }

  /** With none of the caller's writers claiming it, an object falls to
      the default writers. */
  lemma CallerWritersPass(x: Native, writers: seq<Writer>)
    requires forall i :: 0 <= i < |writers| ==> !AnyInstance(TermUniverse, x, writers[i].types)
    ensures FirstMatch(TermUniverse, writers + DefaultWriters, x) ==
      match FirstMatch(TermUniverse, DefaultWriters, x)
      case Some(k) => Some(|writers| + k)
      case None => None
  {
    FirstMatchNone(TermUniverse, writers, x);
    FirstMatchAppend(TermUniverse, writers, DefaultWriters, x);
  }

  /** With no writer of the caller's for it, a datetime is written as
      `#inst` over the string of its ISO text, and a UUID that is not also
      a datetime as `#uuid` over the string of its text. */
  lemma DefaultWritersTag(host: Host, variant: Variant, x: Native, writers: seq<Writer>, default: Fallback,
                          fuel: nat)
    requires fuel > 1 && x.NObject?
    requires forall i :: 0 <= i < |writers| ==> !AnyInstance(TermUniverse, x, writers[i].types)
    ensures DatetimeClass in x.classes ==>
      Encode(host, variant, x, writers, default, fuel) == Ok(TaggedValue(InstTag, String(host.isoformat(x), true)))
    ensures DatetimeClass !in x.classes && UuidClass in x.classes ==>
      Encode(host, variant, x, writers, default, fuel) == Ok(TaggedValue(UuidTag, String(host.uuidText(x), true)))
  {
    EncodeUnfold(host, variant, x, writers, default, fuel);
    CallerWritersPass(x, writers);
    DefaultWriterIndex(x);
    var all := writers + DefaultWriters;
    assert all[|writers|] == DefaultWriters[0];
    assert all[|writers| + 1] == DefaultWriters[1];
    if DatetimeClass in x.classes || UuidClass in x.classes {
      var t := Apply(host, if DatetimeClass in x.classes then IsoText else UuidText, x).value;
      NoWriterFor(t, []);
      assert [] + DefaultWriters == DefaultWriters;
      BaseDispatch(host, variant, t, [], RaiseDefault, fuel - 1);
    }
  }

  /** No writer applies to an object the caller's writers do not claim and
      that is neither a datetime nor a UUID. */
  lemma NoWriterFor(x: Native, writers: seq<Writer>)
    requires forall i :: 0 <= i < |writers| ==> !AnyInstance(TermUniverse, x, writers[i].types)
    requires !((x.NTuple? || x.NObject?) && (DatetimeClass in x.classes || UuidClass in x.classes))
    ensures FirstMatch(TermUniverse, writers + DefaultWriters, x).None?
  {
    CallerWritersPass(x, writers);
    DefaultWriterIndex(x);
  }

  /** An object no writer and no base rule knows is replaced by
      `default(x)`, which is encoded with the same writers and default; the
      refusing default makes the conversion fail naming the object. */
  lemma UnknownUsesDefault(host: Host, variant: Variant, x: Native, writers: seq<Writer>, default: Fallback,
                           fuel: nat)
    requires fuel > 0 && x.NObject? && DatetimeClass !in x.classes && UuidClass !in x.classes
    requires forall i :: 0 <= i < |writers| ==> !AnyInstance(TermUniverse, x, writers[i].types)
    ensures Encode(host, variant, x, writers, default, fuel) ==
      match CallDefault(default, x)
      case Ok(y) => Encode(host, variant, y, writers, default, fuel - 1)
      case Err(e) => Err(e)
    ensures Encode(host, variant, x, writers, RaiseDefault, fuel) == Err(CannotConvert(x))
  {
    NoWriterFor(x, writers);
    EncodeUnfold(host, variant, x, writers, default, fuel);
    EncodeUnfold(host, variant, x, writers, RaiseDefault, fuel);
    BaseRuleIndex(variant, x);
  }

  /** A list no writer matches is written as a vector of its elements'
      encodings, each encoded with the same writers and default (a caller's
      writer applies at any depth); the list fails to encode with the first
      failure among its elements (see EncodeAllElements). */
  lemma ListKeepsWriters(host: Host, variant: Variant, items: seq<Native>, writers: seq<Writer>,
                         default: Fallback, fuel: nat)
    requires fuel > 0
    requires forall i :: 0 <= i < |writers| ==> !AnyInstance(TermUniverse, NList(items), writers[i].types)
    ensures Encode(host, variant, NList(items), writers, default, fuel) ==
      match EncodeAll(host, variant, items, writers, default, fuel - 1)
      case Ok(vs) => Ok(Vector(vs))
      case Err(e) => Err(e)
  {
    NoWriterFor(NList(items), writers);
    BaseDispatch(host, variant, NList(items), writers, default, fuel);
  }

  // ---------------------------------------------------------------------
  // Decoding: from_terms

  /** The terml node names a decoder table is keyed by. */
  datatype Node =
    | TupleNode | CharacterNode | ExactFloatNode | StringNode | VectorNode | ListNode
    | MapNode | NilNode | SetNode | SymbolNode | KeywordNode | TaggedValueNode
    | TrueNode | FalseNode

  /** The name of a node, as a decode failure reports it. */
  function NodeName(n: Node): string
  {
    match n
    case TupleNode => ".tuple."
    case CharacterNode => "Character"
    case ExactFloatNode => "ExactFloat"
    case StringNode => "String"
    case VectorNode => "Vector"
    case ListNode => "List"
    case MapNode => "Map"
    case NilNode => "Nil"
    case SetNode => "Set"
    case SymbolNode => "Symbol"
    case KeywordNode => "Keyword"
    case TaggedValueNode => "TaggedValue"
    case TrueNode => "true"
    case FalseNode => "false"
  }

  /** `_DECODERS` plus the `TaggedValue` entry every decoder adds: every
      node but `true` and `false`, the names of a boolean nested in a term,
      which as written have no entry; the corrected table has them. */
  predicate Known(variant: Variant, n: Node)
  {
    (n == TrueNode || n == FalseNode) ==> variant == Corrected
  }

  /** A tag reader (`iso8601.parse_date`, `uuid.UUID` or a caller's
      callable), which may raise. */
  type Reader = Native -> Result<Native, Error>

  /** The handler for tags without a reader, given the tag and the built
      value; it may raise. */
  type Handler = (Symbol, Native) -> Result<Native, Error>

  /** The tag readers, keyed by tag symbol. */
  type Readers = map<Symbol, Reader>

  /** DEFAULT_READERS: `#inst` through the ISO 8601 parser, `#uuid` through
      the UUID constructor. */
  function DefaultReaders(host: Host): Readers
  {
    map[InstTag := host.parseDate, UuidTag := host.makeUuid]
  }

  /** `_Decoder`: the decoder table (named by its variant), the readers in force, and the
      handler for tags without a reader (absent: keep a tagged value). */
  datatype Decoder = Decoder(variant: Variant, readers: Readers, default: Option<Handler>)

  /** `_handle_tagged_value`: the reader for the tag, else the default
      handler, else a tagged value; what the reader or handler raises is
      the result. */
  function ResolveTag(d: Decoder, tag: Symbol, value: Native): Result<Native, Error>
  {
    if tag in d.readers then d.readers[tag](value)
    else if d.default.Some? then d.default.value(tag, value)
    else Ok(NTagged(tag, value))
  }

  /** The node a term is built under, for terms that are not data
      leaves. */
  function NodeOf(v: Value): Node
    requires !v.Integer? && !v.Float?
  {
    match v
    case Nil => NilNode
    case Bool(b) => if b then TrueNode else FalseNode
    case ExactFloat(_) => ExactFloatNode
    case Character(_) => CharacterNode
    case String(_, _) => StringNode
    case Sym(_) => SymbolNode
    case Keyword(_) => KeywordNode
    case List(_) => ListNode
    case Vector(_) => VectorNode
    case Set(_) => SetNode
    case Map(_) => MapNode
    case TaggedValue(_, _) => TaggedValueNode
  }

  /** The build of a term by the decoder: numbers are data leaves and stand
      for themselves; any other node is looked up by name first (an unknown
      name fails the build), then its arguments are built left to right and
      handed to the decoder found. Sequences are built through the
      `.tuple.` node; symbols and keywords are rebuilt; vectors and lists
      become tuples, sets frozensets, maps frozendicts, strings and
      characters unicode (`unicode` of a byte string holding a non-ASCII
      character raises). */
  function Build(host: Host, d: Decoder, v: Value): Result<Native, Error>
    decreases v, 1
  {
    if !v.Integer? && !v.Float? && !Known(d.variant, NodeOf(v)) then Err(CannotDecode(NodeName(NodeOf(v))))
    else match v
      case Integer(n, big) => Ok(if big then NLong(n) else NInt(n))
      case Float(f) => Ok(NFloat(f))
      case Nil => Ok(NNone)
      case Bool(b) => Ok(NBool(b))
      case ExactFloat(t) => Ok(NDecimal(host.decimalText(t)))
      case Character(c) => Ok(NText([c], true))
      case String(s, bytes) => if bytes && !Ascii(s) then Err(NotAscii(NText(s, false))) else Ok(NText(s, true))
      case Sym(s) => Ok(NSymbol(s))
      case Keyword(s) =>
        if !Known(d.variant, SymbolNode) then Err(CannotDecode(NodeName(SymbolNode))) else Ok(NKeyword(s))
      case List(xs) =>
        var items :- BuildTuple(host, d, xs);
        Ok(NTuple(items, []))
      case Vector(xs) =>
        var items :- BuildTuple(host, d, xs);
        Ok(NTuple(items, []))
      case Set(xs) =>
        var items :- BuildTuple(host, d, xs);
        Ok(NSet(items, true))
      case Map(ps) =>
        if !Known(d.variant, TupleNode) then Err(CannotDecode(NodeName(TupleNode)))
        else
          var pairs :- BuildPairs(host, d, v, 0);
          Ok(NDict(pairs, true))
      case TaggedValue(t, x) =>
        if !Known(d.variant, SymbolNode) then Err(CannotDecode(NodeName(SymbolNode)))
        else
          var value :- Build(host, d, x);
          ResolveTag(d, t, value)
  }

  /** A `.tuple.` node over elements. */
  function BuildTuple(host: Host, d: Decoder, xs: seq<Value>): Result<seq<Native>, Error>
    decreases xs, 1
  {
    if !Known(d.variant, TupleNode) then Err(CannotDecode(NodeName(TupleNode)))
    else BuildAll(host, d, xs)
  }

  function BuildAll(host: Host, d: Decoder, xs: seq<Value>): Result<seq<Native>, Error>
    decreases xs, 0
  {
    if |xs| == 0 then Ok([])
    else
      var x :- Build(host, d, xs[0]);
      var rest :- BuildAll(host, d, xs[1..]);
      Ok([x] + rest)
  }

  /** The built pairs of a map from index k on, or the first failure
      among the keys and values in order. (Each pair is a `.tuple.` node,
      already known to the decoder when the map's own `.tuple.` node was.) */
  function BuildPairs(host: Host, d: Decoder, v: Value, k: nat): Result<seq<(Native, Native)>, Error>
    requires v.Map? && k <= |v.pairs|
    decreases v, 0, |v.pairs| - k
  {
    if k == |v.pairs| then Ok([])
    else
      var key :- Build(host, d, v.pairs[k].0);
      var value :- Build(host, d, v.pairs[k].1);
      var rest :- BuildPairs(host, d, v, k + 1);
      Ok([(key, value)] + rest)
  }

  /** `DEFAULT_READERS.merge(readers)`: the caller's readers override the
      defaults. */
  function MergeReaders(host: Host, readers: Readers): (r: Readers)
    ensures forall t :: t in r <==> t in readers || t == InstTag || t == UuidTag
    ensures forall t :: t in readers ==> r[t] == readers[t]
    ensures InstTag !in readers ==> r[InstTag] == host.parseDate
    ensures UuidTag !in readers ==> r[UuidTag] == host.makeUuid
  {
    DefaultReaders(host) + readers
  }

  /** `from_terms` with the decoder table of `variant`: a bare boolean or
      number is returned as it is; any other term is built. */
  function FromTermsWith(host: Host, variant: Variant, v: Value, readers: Readers,
                         default: Option<Handler>): Result<Native, Error>
  {
    var d := Decoder(variant, MergeReaders(host, readers), default);
    match v
    case Bool(b) => Ok(NBool(b))
    case _ => Build(host, d, v)
  }

  /** `from_terms`, with decoders for nested booleans. */
  function FromTerms(host: Host, v: Value, readers: Readers, default: Option<Handler>): Result<Native, Error>
  {
    FromTermsWith(host, Corrected, v, readers, default)
  }

  /** `from_terms` as written. */
  function FromTermsAsWritten(host: Host, v: Value, readers: Readers, default: Option<Handler>): Result<Native, Error>
  {
    FromTermsWith(host, AsWritten, v, readers, default)
  }

  /** With either decoder table, a tagged value is decoded through the
      caller's reader for its tag if there is one, else through the default
      `#inst`/`#uuid` reader, else through the caller's default handler,
      else kept as a tagged value; the reader sees the decoded value, and
      what it raises is the result. */
  lemma TaggedDecoding(host: Host, variant: Variant, t: Symbol, x: Value, readers: Readers,
                       default: Option<Handler>)
    requires FromTermsWith(host, variant, x, readers, default).Ok? && (variant == AsWritten ==> !x.Bool?)
    ensures var d := FromTermsWith(host, variant, x, readers, default).value;
      FromTermsWith(host, variant, TaggedValue(t, x), readers, default) ==
        if t in readers then readers[t](d)
        else if t == InstTag then host.parseDate(d)
        else if t == UuidTag then host.makeUuid(d)
        else if default.Some? then default.value(t, d)
        else Ok(NTagged(t, d))
  {
    if x.Bool? {
      // The corrected table builds a nested boolean as the top level does.
      var d := Decoder(variant, MergeReaders(host, readers), default);
      assert Build(host, d, x) == FromTermsWith(host, variant, x, readers, default);
    }
  }

  /** A term holds a boolean strictly inside it. */
  predicate HasBool(v: Value)
    decreases v
  {
    match v
    case Bool(_) => true
    case List(xs) => exists i :: 0 <= i < |xs| && HasBool(xs[i])
    case Vector(xs) => exists i :: 0 <= i < |xs| && HasBool(xs[i])
    case Set(xs) => exists i :: 0 <= i < |xs| && HasBool(xs[i])
    case Map(ps) => exists i :: 0 <= i < |ps| && (HasBool(ps[i].0) || HasBool(ps[i].1))
    case TaggedValue(_, x) => HasBool(x)
    case _ => false
  }

  /** A term whose build raises whatever the decoder table: somewhere in
      it, a byte string holding a non-ASCII character, or a tagged value
      whose value builds but whose reader or default handler then raises. */
  predicate Undecodable(host: Host, d: Decoder, v: Value)
    decreases v
  {
    match v
    case String(s, bytes) => bytes && !Ascii(s)
    case List(xs) => exists i :: 0 <= i < |xs| && Undecodable(host, d, xs[i])
    case Vector(xs) => exists i :: 0 <= i < |xs| && Undecodable(host, d, xs[i])
    case Set(xs) => exists i :: 0 <= i < |xs| && Undecodable(host, d, xs[i])
    case Map(ps) => exists i :: 0 <= i < |ps| && (Undecodable(host, d, ps[i].0) || Undecodable(host, d, ps[i].1))
    case TaggedValue(t, x) =>
      || Undecodable(host, d, x)
      || (Build(host, d, x).Ok? && ResolveTag(d, t, Build(host, d, x).value).Err?)
    case _ => false
  }

  /** A term whose build raises: one that is undecodable, or, with the
      table as written, one holding a boolean. */
  predicate Fails(host: Host, d: Decoder, v: Value)
  {
    (d.variant == AsWritten && HasBool(v)) || Undecodable(host, d, v)
  }

  /** A build fails exactly when the term fails: with the table as
      written, when it holds a boolean or is undecodable; with the
      corrected table, only when it is undecodable. */
  lemma {:induction false} BuildFailure(host: Host, d: Decoder, v: Value)
    ensures d.variant == AsWritten ==> (Build(host, d, v).Err? <==> HasBool(v) || Undecodable(host, d, v))
    ensures d.variant == Corrected ==> (Build(host, d, v).Err? <==> Undecodable(host, d, v))
    decreases v, 1
  {
    if v.List? || v.Vector? || v.Set? {
      ElementsFailure(host, d, v.elements);
      SequenceNodeFailure(host, d, v);
    } else if v.Map? {
      PairsFailure(host, d, v, 0);
      MapNodeFailure(host, d, v);
    } else if v.TaggedValue? {
      BuildFailure(host, d, v.value);
      TaggedNodeFailure(host, d, v);
    } else {
      LeafFailure(host, d, v);
    }
  }

  /** One node of the build, given its elements' builds. */
  lemma SequenceNodeFailure(host: Host, d: Decoder, v: Value)
    requires v.List? || v.Vector? || v.Set?
    requires BuildAll(host, d, v.elements).Err? <==> exists i :: 0 <= i < |v.elements| && Fails(host, d, v.elements[i])
    ensures Build(host, d, v).Err? <==> Fails(host, d, v)
  {
    SequenceFails(host, d, v);
  }

  /** A List, Vector or Set fails exactly when one of its elements does. */
  lemma SequenceFails(host: Host, d: Decoder, v: Value)
    requires v.List? || v.Vector? || v.Set?
    ensures Fails(host, d, v) <==> exists i :: 0 <= i < |v.elements| && Fails(host, d, v.elements[i])
  {
    if i :| 0 <= i < |v.elements| && Fails(host, d, v.elements[i]) {
      assert Fails(host, d, v);
    }
  }

  lemma MapNodeFailure(host: Host, d: Decoder, v: Value)
    requires v.Map?
    requires BuildPairs(host, d, v, 0).Err? <==>
      exists i :: 0 <= i < |v.pairs| && (Fails(host, d, v.pairs[i].0) || Fails(host, d, v.pairs[i].1))
    ensures Build(host, d, v).Err? <==> Fails(host, d, v)
  {
    MapFails(host, d, v);
  }

  /** A Map fails exactly when one of its keys or values does. */
  lemma MapFails(host: Host, d: Decoder, v: Value)
    requires v.Map?
    ensures Fails(host, d, v) <==>
      exists i :: 0 <= i < |v.pairs| && (Fails(host, d, v.pairs[i].0) || Fails(host, d, v.pairs[i].1))
  {
    if i :| 0 <= i < |v.pairs| && (Fails(host, d, v.pairs[i].0) || Fails(host, d, v.pairs[i].1)) {
      assert Fails(host, d, v);
    }
  }

  lemma TaggedNodeFailure(host: Host, d: Decoder, v: Value)
    requires v.TaggedValue?
    requires Build(host, d, v.value).Err? <==> Fails(host, d, v.value)
    ensures Build(host, d, v).Err? <==> Fails(host, d, v)
  {
  }

  lemma LeafFailure(host: Host, d: Decoder, v: Value)
    requires !(v.List? || v.Vector? || v.Set? || v.Map? || v.TaggedValue?)
    ensures Build(host, d, v).Err? <==> Fails(host, d, v)
  {
  }

  lemma {:induction false} ElementsFailure(host: Host, d: Decoder, xs: seq<Value>)
    ensures BuildAll(host, d, xs).Err? <==> exists i :: 0 <= i < |xs| && Fails(host, d, xs[i])
    decreases xs, 0
  {
    if |xs| > 0 {
      BuildFailure(host, d, xs[0]);
      ElementsFailure(host, d, xs[1..]);
      if j :| 0 <= j < |xs| - 1 && Fails(host, d, xs[1..][j]) {
        assert Fails(host, d, xs[j + 1]);
      }
      if i :| 0 < i < |xs| && Fails(host, d, xs[i]) {
        assert Fails(host, d, xs[1..][i - 1]);
      }
    }
  }

  lemma {:induction false} PairsFailure(host: Host, d: Decoder, v: Value, k: nat)
    requires v.Map? && k <= |v.pairs|
    ensures BuildPairs(host, d, v, k).Err? <==>
      exists i :: k <= i < |v.pairs| && (Fails(host, d, v.pairs[i].0) || Fails(host, d, v.pairs[i].1))
    decreases v, 0, |v.pairs| - k
  {
    if k < |v.pairs| {
      BuildFailure(host, d, v.pairs[k].0);
      BuildFailure(host, d, v.pairs[k].1);
      PairsFailure(host, d, v, k + 1);
    }
  }

  /** `from_terms` as written refuses every term with a boolean nested
      inside it, though a bare boolean is accepted; the corrected decoder
      fails only on an undecodable term. */
  lemma NestedBoolRejected(host: Host, v: Value, readers: Readers, default: Option<Handler>)
    ensures FromTermsAsWritten(host, v, readers, default).Err? <==>
      !v.Bool? && (HasBool(v) || Undecodable(host, Decoder(AsWritten, MergeReaders(host, readers), default), v))
    ensures FromTerms(host, v, readers, default).Err? <==>
      Undecodable(host, Decoder(Corrected, MergeReaders(host, readers), default), v)
  {
    BuildFailure(host, Decoder(AsWritten, MergeReaders(host, readers), default), v);
    BuildFailure(host, Decoder(Corrected, MergeReaders(host, readers), default), v);
  }

  /** The smallest such term: `[true]` fails to decode as written, naming
      the boolean's tag, while the corrected decoder gives `(True,)`. */
  lemma NestedTrueNamed(host: Host, readers: Readers, default: Option<Handler>)
    ensures FromTermsAsWritten(host, Vector([Bool(true)]), readers, default) == Err(CannotDecode("true"))
    ensures FromTerms(host, Vector([Bool(true)]), readers, default) == Ok(NTuple([NBool(true)], []))
  {
    var xs := [Bool(true)];
    assert xs[1..] == [];
    var wrong := Decoder(AsWritten, MergeReaders(host, readers), default);
    assert Build(host, wrong, xs[0]) == Err(CannotDecode("true"));
    var right := Decoder(Corrected, MergeReaders(host, readers), default);
    assert Build(host, right, xs[0]) == Ok(NBool(true));
    assert [NBool(true)] + [] == [NBool(true)];
    assert BuildAll(host, right, xs) == Ok([NBool(true)]);
  }

  // ---------------------------------------------------------------------
  // Round trip

  /** The objects the codec carries across unchanged up to freezing: no
      tagged values or foreign objects, no tuple of a class a default
      writer claims, byte strings in ASCII, and decimals in the canonical
      text `str` gives. */
  predicate Plain(host: Host, x: Native)
    decreases x
  {
    && !x.NTagged? && !x.NObject?
    && (x.NText? && !x.unicode ==> Ascii(x.s))
    && (x.NDecimal? ==> host.decimalText(x.text) == x.text)
    && (x.NTuple? ==> DatetimeClass !in x.classes && UuidClass !in x.classes)
    && ((x.NTuple? || x.NList? || x.NSet?) ==> forall i :: 0 <= i < |x.items| ==> Plain(host, x.items[i]))
    && (x.NDict? ==> forall i :: 0 <= i < |x.pairs| ==> Plain(host, x.pairs[i].0) && Plain(host, x.pairs[i].1))
  }

  /** No `long` anywhere in the object. */
  predicate NoLong(x: Native)
    decreases x
  {
    && !x.NLong?
    && ((x.NTuple? || x.NList? || x.NSet?) ==> forall i :: 0 <= i < |x.items| ==> NoLong(x.items[i]))
    && (x.NDict? ==> forall i :: 0 <= i < |x.pairs| ==> NoLong(x.pairs[i].0) && NoLong(x.pairs[i].1))
  }

  /** No boolean anywhere in the object. */
  predicate NoBool(x: Native)
    decreases x
  {
    && !x.NBool?
    && ((x.NTuple? || x.NList? || x.NSet?) ==> forall i :: 0 <= i < |x.items| ==> NoBool(x.items[i]))
    && (x.NDict? ==> forall i :: 0 <= i < |x.pairs| ==> NoBool(x.pairs[i].0) && NoBool(x.pairs[i].1))
  }

  /** The term an object stands for: strings as strings, dicts as maps,
      sets as sets, tuples as lists, lists as vectors, None as nil, numbers
      and booleans as themselves, decimals as exact floats. A byte string
      stays one in the term `to_terms` builds; in the term the parser reads
      back from the printed text (`read`) every string is unicode. */
  function Expected(host: Host, x: Native, read: bool): Value
    requires Plain(host, x)
    decreases x, 1
  {
    match x
    case NNone => Nil
    case NBool(b) => Bool(b)
    case NInt(i) => Integer(i, false)
    case NLong(l) => Integer(l, true)
    case NFloat(f) => Float(f)
    case NDecimal(t) => ExactFloat(t)
    case NText(s, u) => String(s, !u && !read)
    case NTuple(_, _) => List(ExpectedItems(host, x, read, 0))
    case NList(_) => Vector(ExpectedItems(host, x, read, 0))
    case NSet(_, _) => Set(ExpectedItems(host, x, read, 0))
    case NDict(_, _) => Map(ExpectedPairs(host, x, read, 0))
    case NSymbol(s) => Sym(s)
    case NKeyword(s) => Keyword(s)
  }

  /** The terms of the elements of a tuple, list or set from index k on. */
  function ExpectedItems(host: Host, x: Native, read: bool, k: nat): (r: seq<Value>)
    requires (x.NTuple? || x.NList? || x.NSet?) && Plain(host, x) && k <= |x.items|
    ensures |r| == |x.items| - k
    decreases x, 0, |x.items| - k
  {
    if k == |x.items| then [] else [Expected(host, x.items[k], read)] + ExpectedItems(host, x, read, k + 1)
  }

  /** The terms of the keys and values of a dict from index k on. */
  function ExpectedPairs(host: Host, x: Native, read: bool, k: nat): (r: seq<(Value, Value)>)
    requires x.NDict? && Plain(host, x) && k <= |x.pairs|
    ensures |r| == |x.pairs| - k
    decreases x, 0, |x.pairs| - k
  {
    if k == |x.pairs| then []
    else [(Expected(host, x.pairs[k].0, read), Expected(host, x.pairs[k].1, read))] + ExpectedPairs(host, x, read, k + 1)
  }

  /** The term at index i of a tuple, list or set is the term of its
      element. */
  lemma {:induction false} ExpectedItemAt(host: Host, x: Native, read: bool, k: nat, i: nat)
    requires (x.NTuple? || x.NList? || x.NSet?) && Plain(host, x) && k <= i < |x.items|
    ensures ExpectedItems(host, x, read, k)[i - k] == Expected(host, x.items[i], read)
    decreases i - k
  {
    if k < i {
      ExpectedItemAt(host, x, read, k + 1, i);
    }
  }

  /** The pair of terms at index i of a dict is the pair of the terms of
      its key and value. */
  lemma {:induction false} ExpectedPairAt(host: Host, x: Native, read: bool, k: nat, i: nat)
    requires x.NDict? && Plain(host, x) && k <= i < |x.pairs|
    ensures ExpectedPairs(host, x, read, k)[i - k] == (Expected(host, x.pairs[i].0, read), Expected(host, x.pairs[i].1, read))
    decreases i - k
  {
    if k < i {
      ExpectedPairAt(host, x, read, k + 1, i);
    }
  }

  /** The term of a plain object can be printed: its byte strings are
      ASCII. */
  lemma {:induction false} ExpectedPrintable(host: Host, x: Native, read: bool)
    requires Plain(host, x)
    ensures Printable(Expected(host, x, read))
    decreases x
  {
    if x.NTuple? || x.NList? || x.NSet? {
      var es := ExpectedItems(host, x, read, 0);
      forall i | 0 <= i < |es| ensures Printable(es[i]) {
        ExpectedItemAt(host, x, read, 0, i);
        ExpectedPrintable(host, x.items[i], read);
      }
    } else if x.NDict? {
      var ps := ExpectedPairs(host, x, read, 0);
      forall i | 0 <= i < |ps| ensures Printable(ps[i].0) && Printable(ps[i].1) {
        ExpectedPairAt(host, x, read, 0, i);
        ExpectedPrintable(host, x.pairs[i].0, read);
        ExpectedPrintable(host, x.pairs[i].1, read);
      }
    }
  }

  /** The object decoding gives back: text becomes unicode, tuples and
      lists become plain tuples, sets and dicts become frozen. */
  function Freeze(host: Host, x: Native): (r: Native)
    requires Plain(host, x)
    decreases x, 1
  {
    match x
    case NText(s, _) => NText(s, true)
    case NTuple(_, _) => NTuple(FreezeItems(host, x, 0), [])
    case NList(_) => NTuple(FreezeItems(host, x, 0), [])
    case NSet(_, _) => NSet(FreezeItems(host, x, 0), true)
    case NDict(_, _) => NDict(FreezePairs(host, x, 0), true)
    case _ => x
  }

  function FreezeItems(host: Host, x: Native, k: nat): seq<Native>
    requires (x.NTuple? || x.NList? || x.NSet?) && Plain(host, x) && k <= |x.items|
    decreases x, 0, |x.items| - k
  {
    if k == |x.items| then [] else [Freeze(host, x.items[k])] + FreezeItems(host, x, k + 1)
  }

  function FreezePairs(host: Host, x: Native, k: nat): seq<(Native, Native)>
    requires x.NDict? && Plain(host, x) && k <= |x.pairs|
    decreases x, 0, |x.pairs| - k
  {
    if k == |x.pairs| then []
    else [(Freeze(host, x.pairs[k].0), Freeze(host, x.pairs[k].1))] + FreezePairs(host, x, k + 1)
  }

  /** With no writer of the caller's, every plain object converts, with
      enough fuel for its depth, to the term it stands for; with the rules
      as written this needs an object without longs. */
  lemma {:induction false} EncodePlain(host: Host, variant: Variant, x: Native, fuel: nat)
    requires Plain(host, x) && fuel > Depth(x)
    requires variant == AsWritten ==> NoLong(x)
    ensures Encode(host, variant, x, [], RaiseDefault, fuel) == Ok(Expected(host, x, false))
    decreases x, 2, 0, 0
  {
    if x.NTuple? || x.NList? || x.NSet? {
      EncodeItemsFrom(host, variant, x, 0, fuel);
      assert x.items[0..] == x.items;
      ItemsDispatch(host, variant, x, fuel);
    } else if x.NDict? {
      EncodePairsFrom(host, variant, x, 0, fuel);
      assert x.pairs[0..] == x.pairs;
      PairsDispatch(host, variant, x, fuel);
    } else if !x.NSymbol? && !x.NKeyword? {
      NoWriterFor(x, []);
      assert [] + DefaultWriters == DefaultWriters;
      BaseDispatch(host, variant, x, [], RaiseDefault, fuel);
    }
  }

  /** The elements of a plain tuple, list or set from index k on encode to
      the terms they stand for. */
  lemma {:induction false} EncodeItemsFrom(host: Host, variant: Variant, x: Native, k: nat, fuel: nat)
    requires (x.NTuple? || x.NList? || x.NSet?) && Plain(host, x) && k <= |x.items|
    requires variant == AsWritten ==> NoLong(x)
    requires fuel > 1 + ItemsDepth(x, k)
    ensures EncodeAll(host, variant, x.items[k..], [], RaiseDefault, fuel - 1) == Ok(ExpectedItems(host, x, false, k))
    decreases x, 1, |x.items| - k, 1
  {
    if k < |x.items| {
      EncodeItemsFrom(host, variant, x, k + 1, fuel);
      EncodeItemAt(host, variant, x, k, fuel);
    } else {
      ItemsNil(host, variant, x, fuel - 1);
    }
  }

  /** The element at index k of a plain tuple, list or set encodes to its
      term, ahead of the elements after it. */
  lemma {:induction false} EncodeItemAt(host: Host, variant: Variant, x: Native, k: nat, fuel: nat)
    requires (x.NTuple? || x.NList? || x.NSet?) && Plain(host, x) && k < |x.items|
    requires variant == AsWritten ==> NoLong(x)
    requires fuel > 1 + ItemsDepth(x, k)
    requires EncodeAll(host, variant, x.items[k + 1..], [], RaiseDefault, fuel - 1) == Ok(ExpectedItems(host, x, false, k + 1))
    ensures EncodeAll(host, variant, x.items[k..], [], RaiseDefault, fuel - 1) == Ok(ExpectedItems(host, x, false, k))
    decreases x, 1, |x.items| - k, 0
  {
    EncodePlain(host, variant, x.items[k], fuel - 1);
    ItemsCons(host, variant, x, k, fuel - 1);
  }

  lemma ItemsNil(host: Host, variant: Variant, x: Native, fuel: nat)
    requires (x.NTuple? || x.NList? || x.NSet?) && Plain(host, x)
    requires variant == AsWritten ==> NoLong(x)
    ensures EncodeAll(host, variant, x.items[|x.items|..], [], RaiseDefault, fuel) == Ok(ExpectedItems(host, x, false, |x.items|))
  {
    assert x.items[|x.items|..] == [];
  }

  /** The step of EncodeItemsFrom. */
  lemma ItemsCons(host: Host, variant: Variant, x: Native, k: nat, fuel: nat)
    requires (x.NTuple? || x.NList? || x.NSet?) && Plain(host, x) && k < |x.items|
    requires variant == AsWritten ==> NoLong(x)
    requires Encode(host, variant, x.items[k], [], RaiseDefault, fuel) == Ok(Expected(host, x.items[k], false))
    requires EncodeAll(host, variant, x.items[k + 1..], [], RaiseDefault, fuel) == Ok(ExpectedItems(host, x, false, k + 1))
    ensures EncodeAll(host, variant, x.items[k..], [], RaiseDefault, fuel) == Ok(ExpectedItems(host, x, false, k))
  {
    var xs := x.items[k..];
    assert xs[0] == x.items[k] && xs[1..] == x.items[k + 1..];
    EncodeAllStep(host, variant, xs, [], RaiseDefault, fuel, Expected(host, x.items[k], false), ExpectedItems(host, x, false, k + 1));
  }

  /** A plain tuple, list or set whose elements encode is encoded through
      the rule for its kind. */
  lemma ItemsDispatch(host: Host, variant: Variant, x: Native, fuel: nat)
    requires (x.NTuple? || x.NList? || x.NSet?) && fuel > 0 && Plain(host, x)
    requires variant == AsWritten ==> NoLong(x)
    requires EncodeAll(host, variant, x.items, [], RaiseDefault, fuel - 1) == Ok(ExpectedItems(host, x, false, 0))
    ensures Encode(host, variant, x, [], RaiseDefault, fuel) == Ok(Expected(host, x, false))
  {
    NoWriterFor(x, []);
    assert [] + DefaultWriters == DefaultWriters;
    BaseDispatch(host, variant, x, [], RaiseDefault, fuel);
  }

  /** The keys and values of a plain dict from index k on encode to the
      terms they stand for. */
  lemma {:induction false} EncodePairsFrom(host: Host, variant: Variant, x: Native, k: nat, fuel: nat)
    requires x.NDict? && Plain(host, x) && k <= |x.pairs|
    requires variant == AsWritten ==> NoLong(x)
    requires fuel > 1 + PairsDepth(x, k)
    ensures EncodePairs(host, variant, x.pairs[k..], [], RaiseDefault, fuel - 1) == Ok(ExpectedPairs(host, x, false, k))
    decreases x, 1, |x.pairs| - k, 2
  {
    if k < |x.pairs| {
      EncodePairsFrom(host, variant, x, k + 1, fuel);
      EncodePairAt(host, variant, x, k, fuel);
    } else {
      PairsNil(host, variant, x, fuel - 1);
    }
  }

  /** The key and value at index k of a plain dict encode to their terms,
      ahead of the pairs after them. */
  lemma {:induction false} EncodePairAt(host: Host, variant: Variant, x: Native, k: nat, fuel: nat)
    requires x.NDict? && Plain(host, x) && k < |x.pairs|
    requires variant == AsWritten ==> NoLong(x)
    requires fuel > 1 + PairsDepth(x, k)
    requires EncodePairs(host, variant, x.pairs[k + 1..], [], RaiseDefault, fuel - 1) == Ok(ExpectedPairs(host, x, false, k + 1))
    ensures EncodePairs(host, variant, x.pairs[k..], [], RaiseDefault, fuel - 1) == Ok(ExpectedPairs(host, x, false, k))
    decreases x, 1, |x.pairs| - k, 1
  {
    EncodeKey(host, variant, x, k, fuel);
    EncodeValue(host, variant, x, k, fuel);
    PairsCons(host, variant, x, k, fuel - 1);
  }

  lemma {:induction false} EncodeKey(host: Host, variant: Variant, x: Native, k: nat, fuel: nat)
    requires x.NDict? && Plain(host, x) && k < |x.pairs|
    requires variant == AsWritten ==> NoLong(x)
    requires fuel > 1 + PairsDepth(x, k)
    ensures Encode(host, variant, x.pairs[k].0, [], RaiseDefault, fuel - 1) == Ok(Expected(host, x.pairs[k].0, false))
    decreases x, 1, |x.pairs| - k, 0
  {
    EncodePlain(host, variant, x.pairs[k].0, fuel - 1);
  }

  lemma {:induction false} EncodeValue(host: Host, variant: Variant, x: Native, k: nat, fuel: nat)
    requires x.NDict? && Plain(host, x) && k < |x.pairs|
    requires variant == AsWritten ==> NoLong(x)
    requires fuel > 1 + PairsDepth(x, k)
    ensures Encode(host, variant, x.pairs[k].1, [], RaiseDefault, fuel - 1) == Ok(Expected(host, x.pairs[k].1, false))
    decreases x, 1, |x.pairs| - k, 0
  {
    EncodePlain(host, variant, x.pairs[k].1, fuel - 1);
  }

  lemma PairsNil(host: Host, variant: Variant, x: Native, fuel: nat)
    requires x.NDict? && Plain(host, x)
    requires variant == AsWritten ==> NoLong(x)
    ensures EncodePairs(host, variant, x.pairs[|x.pairs|..], [], RaiseDefault, fuel) == Ok(ExpectedPairs(host, x, false, |x.pairs|))
  {
    assert x.pairs[|x.pairs|..] == [];
  }

  /** The step of EncodePairsFrom: a pair whose key and value encode to
      their terms, ahead of pairs that encode to theirs. */
  lemma PairsCons(host: Host, variant: Variant, x: Native, k: nat, fuel: nat)
    requires x.NDict? && Plain(host, x) && k < |x.pairs|
    requires variant == AsWritten ==> NoLong(x)
    requires Encode(host, variant, x.pairs[k].0, [], RaiseDefault, fuel) == Ok(Expected(host, x.pairs[k].0, false))
    requires Encode(host, variant, x.pairs[k].1, [], RaiseDefault, fuel) == Ok(Expected(host, x.pairs[k].1, false))
    requires EncodePairs(host, variant, x.pairs[k + 1..], [], RaiseDefault, fuel) == Ok(ExpectedPairs(host, x, false, k + 1))
    ensures EncodePairs(host, variant, x.pairs[k..], [], RaiseDefault, fuel) == Ok(ExpectedPairs(host, x, false, k))
  {
    var ps := x.pairs[k..];
    assert ps[0] == x.pairs[k] && ps[1..] == x.pairs[k + 1..];
    EncodePairsStep(host, variant, ps, [], RaiseDefault, fuel,
                    Expected(host, x.pairs[k].0, false), Expected(host, x.pairs[k].1, false), ExpectedPairs(host, x, false, k + 1));
  }

  /** A plain dict whose keys and values encode is encoded through the map
      rule. */
  lemma PairsDispatch(host: Host, variant: Variant, x: Native, fuel: nat)
    requires x.NDict? && fuel > 0 && Plain(host, x)
    requires variant == AsWritten ==> NoLong(x)
    requires EncodePairs(host, variant, x.pairs, [], RaiseDefault, fuel - 1) == Ok(ExpectedPairs(host, x, false, 0))
    ensures Encode(host, variant, x, [], RaiseDefault, fuel) == Ok(Expected(host, x, false))
  {
    NoWriterFor(x, []);
    assert [] + DefaultWriters == DefaultWriters;
    BaseDispatch(host, variant, x, [], RaiseDefault, fuel);
  }

  /** The term a plain object stands for decodes to the frozen object,
      whatever readers and default handler are in force, whether its
      strings are as converted or as read back; with the table as written
      this needs an object without booleans. */
  lemma {:induction false} DecodeExpected(host: Host, d: Decoder, read: bool, x: Native)
    requires Plain(host, x)
    requires d.variant == AsWritten ==> NoBool(x)
    ensures Build(host, d, Expected(host, x, read)) == Ok(Freeze(host, x))
    decreases x, 2
  {
    if x.NTuple? || x.NList? || x.NSet? {
      DecodeItemsFrom(host, d, read, x, 0);
      DecodeItemsNode(host, d, read, x);
    } else if x.NDict? {
      DecodePairsFrom(host, d, read, x, 0);
      DecodeDictNode(host, d, read, x);
    } else {
      DecodeLeaf(host, d, read, x);
    }
  }

  /** A term for a tuple, list or set is built through its `.tuple.`
      node over the elements. */
  lemma DecodeItemsNode(host: Host, d: Decoder, read: bool, x: Native)
    requires (x.NTuple? || x.NList? || x.NSet?) && Plain(host, x)
    requires d.variant == AsWritten ==> NoBool(x)
    requires BuildAll(host, d, ExpectedItems(host, x, read, 0)) == Ok(FreezeItems(host, x, 0))
    ensures Build(host, d, Expected(host, x, read)) == Ok(Freeze(host, x))
  {
  }

  /** A term for a dict is built from its pairs. */
  lemma DecodeDictNode(host: Host, d: Decoder, read: bool, x: Native)
    requires x.NDict? && Plain(host, x)
    requires d.variant == AsWritten ==> NoBool(x)
    requires BuildPairs(host, d, Expected(host, x, read), 0) == Ok(FreezePairs(host, x, 0))
    ensures Build(host, d, Expected(host, x, read)) == Ok(Freeze(host, x))
  {
  }

  /** A term for an object without elements is built in one step. */
  lemma DecodeLeaf(host: Host, d: Decoder, read: bool, x: Native)
    requires !(x.NTuple? || x.NList? || x.NSet? || x.NDict?) && Plain(host, x)
    requires d.variant == AsWritten ==> NoBool(x)
    ensures Build(host, d, Expected(host, x, read)) == Ok(Freeze(host, x))
  {
  }

  lemma {:induction false} DecodeItemsFrom(host: Host, d: Decoder, read: bool, x: Native, k: nat)
    requires (x.NTuple? || x.NList? || x.NSet?) && Plain(host, x) && k <= |x.items|
    requires d.variant == AsWritten ==> NoBool(x)
    ensures BuildAll(host, d, ExpectedItems(host, x, read, k)) == Ok(FreezeItems(host, x, k))
    decreases x, 1, |x.items| - k
  {
    if k < |x.items| {
      var es := ExpectedItems(host, x, read, k);
      DecodeExpected(host, d, read, x.items[k]);
      DecodeItemsFrom(host, d, read, x, k + 1);
      assert es[0] == Expected(host, x.items[k], read) && es[1..] == ExpectedItems(host, x, read, k + 1);
    }
  }

  lemma {:induction false} DecodePairsFrom(host: Host, d: Decoder, read: bool, x: Native, k: nat)
    requires x.NDict? && Plain(host, x) && k <= |x.pairs|
    requires d.variant == AsWritten ==> NoBool(x)
    ensures BuildPairs(host, d, Expected(host, x, read), k) == Ok(FreezePairs(host, x, k))
    decreases x, 1, |x.pairs| - k
  {
    if k < |x.pairs| {
      ExpectedPairAt(host, x, read, 0, k);
      DecodeExpected(host, d, read, x.pairs[k].0);
      DecodeExpected(host, d, read, x.pairs[k].1);
      DecodePairsFrom(host, d, read, x, k + 1);
    }
  }

  /** Encoding a plain object and decoding the term gives back the object,
      frozen: the codec's round trip, with either set of tables. As written
      it holds for objects without longs (which do not convert) and without
      booleans below the top (which do not decode). */
  lemma RoundTrip(host: Host, variant: Variant, x: Native, fuel: nat, readers: Readers,
                  default: Option<Handler>)
    requires Plain(host, x) && fuel > Depth(x)
    requires variant == AsWritten ==> NoLong(x) && (x.NBool? || NoBool(x))
    ensures Encode(host, variant, x, [], RaiseDefault, fuel) == Ok(Expected(host, x, false))
    ensures FromTermsWith(host, variant, Expected(host, x, false), readers, default) == Ok(Freeze(host, x))
  {
    EncodePlain(host, variant, x, fuel);
    if !x.NBool? {
      DecodeExpected(host, Decoder(variant, MergeReaders(host, readers), default), false, x);
    }
  }

  /** As written, a long matches no rule, so converting one fails even
      though the parser produces longs for `N` literals; corrected, a long
      converts to itself, prints with an `N` and decodes back to the long. */
  lemma LongConversion(host: Host, l: int, fuel: nat, readers: Readers, default: Option<Handler>)
    requires fuel > 0
    ensures ToTermsAsWritten(host, NLong(l), [], RaiseDefault, fuel) == Err(CannotConvert(NLong(l)))
    ensures ToTerms(host, NLong(l), [], RaiseDefault, fuel) == Ok(Integer(l, true))
    ensures Unparse(Integer(l, true)) == DecimalText(l) + "N"
    ensures FromTerms(host, Integer(l, true), readers, default) == Ok(NLong(l))
  {
    var x := NLong(l);
    NoWriterFor(x, []);
    assert [] + DefaultWriters == DefaultWriters;
    BaseDispatch(host, AsWritten, x, [], RaiseDefault, fuel);
    BaseDispatch(host, Corrected, x, [], RaiseDefault, fuel);
  }

  // ---------------------------------------------------------------------
  // dumps, dump, loads

  /** `dumps`, over the corrected `to_terms` (longs convert): the printed
      text of the conversion; printing raises on a term holding a non-ASCII
      byte string. */
  function Dumps(host: Host, x: Native, writers: seq<Writer>,
                 default: Fallback, fuel: nat): Result<string, Error>
  {
    var v :- ToTerms(host, x, writers, default, fuel);
    if Printable(v) then Ok(Unparse(v)) else Err(Unprintable(v))
  }

  /** A byte string holding a non-ASCII character converts to a string
      term that neither prints (`dumps` raises where `unparse` encodes it)
      nor decodes (`from_terms` raises where `unicode` decodes it); the
      same text as unicode goes through both. */
  lemma NonAsciiBytes(host: Host, s: string, fuel: nat, readers: Readers, default: Option<Handler>)
    requires !Ascii(s) && fuel > 0
    ensures ToTerms(host, NText(s, false), [], RaiseDefault, fuel) == Ok(String(s, true))
    ensures Dumps(host, NText(s, false), [], RaiseDefault, fuel) == Err(Unprintable(String(s, true)))
    ensures FromTerms(host, String(s, true), readers, default) == Err(NotAscii(NText(s, false)))
    ensures Dumps(host, NText(s, true), [], RaiseDefault, fuel) == Ok(Unparse(String(s, false)))
    ensures FromTerms(host, String(s, false), readers, default) == Ok(NText(s, true))
  {
    NoWriterFor(NText(s, false), []);
    NoWriterFor(NText(s, true), []);
    assert [] + DefaultWriters == DefaultWriters;
    BaseDispatch(host, Corrected, NText(s, false), [], RaiseDefault, fuel);
    BaseDispatch(host, Corrected, NText(s, true), [], RaiseDefault, fuel);
  }

  /** `loads`: the parser (a parameter: the grammar is not modelled)
      followed by the corrected `from_terms` (nested booleans decode). */
  function Loads(host: Host, text: string, parse: string -> Result<Value, Error>, readers: Readers,
                 default: Option<Handler>): Result<Native, Error>
  {
    var v :- parse(text);
    FromTerms(host, v, readers, default)
  }

  /** With a parser that reads the printed text back (as unicode),
      `loads` inverts `dumps` on plain objects, up to freezing. */
  lemma LoadsDumps(host: Host, x: Native, fuel: nat, parse: string -> Result<Value, Error>,
                   readers: Readers, default: Option<Handler>)
    requires Plain(host, x) && fuel > Depth(x)
    requires parse(Unparse(Expected(host, x, false))) == Ok(Expected(host, x, true))
    ensures Dumps(host, x, [], RaiseDefault, fuel) == Ok(Unparse(Expected(host, x, false)))
    ensures Loads(host, Dumps(host, x, [], RaiseDefault, fuel).value, parse, readers, default) == Ok(Freeze(host, x))
  {
    EncodePlain(host, Corrected, x, fuel);
    ExpectedPrintable(host, x, false);
    if !x.NBool? {
      DecodeExpected(host, Decoder(Corrected, MergeReaders(host, readers), default), true, x);
    }
  }

  /** The conversions of the first n objects. */
  function Converted(host: Host, objs: seq<Native>, n: nat, writers: seq<Writer>,
                     default: Fallback, fuel: nat): (r: seq<Value>)
    requires n <= |objs|
    requires forall i :: 0 <= i < n ==> Dumps(host, objs[i], writers, default, fuel).Ok?
    ensures |r| == n
    ensures forall i :: 0 <= i < n ==>
      ToTerms(host, objs[i], writers, default, fuel) == Ok(r[i]) &&
      Dumps(host, objs[i], writers, default, fuel) == Ok(Unparse(r[i]))
  {
    seq(n, i requires 0 <= i < n && Dumps(host, objs[i], writers, default, fuel).Ok? =>
      ToTerms(host, objs[i], writers, default, fuel).value)
  }

  /** `dump`, over the corrected `to_terms` (longs convert): converts,
      prints and writes the objects one at a time, each
      followed by a line feed. When an object fails to convert or to print,
      the objects before it have been written and the failure is that
      object's error. */
  method Dump(host: Host, objs: seq<Native>, writers: seq<Writer>,
              default: Fallback, fuel: nat) returns (out: string, failure: Option<Error>)
    ensures failure.None? ==>
      (forall i :: 0 <= i < |objs| ==> Dumps(host, objs[i], writers, default, fuel).Ok?) &&
      out == StreamText(Converted(host, objs, |objs|, writers, default, fuel))
    ensures failure.Some? ==> exists k ::
      && 0 <= k < |objs|
      && Dumps(host, objs[k], writers, default, fuel) == Err(failure.value)
      && (forall i :: 0 <= i < k ==> Dumps(host, objs[i], writers, default, fuel).Ok?)
      && out == StreamText(Converted(host, objs, k, writers, default, fuel))
  {
    out := "";
    var i := 0;
    while i < |objs|
      invariant 0 <= i <= |objs|
      invariant forall j :: 0 <= j < i ==> Dumps(host, objs[j], writers, default, fuel).Ok?
      invariant out == StreamText(Converted(host, objs, i, writers, default, fuel))
    {
      var r := ToTerms(host, objs[i], writers, default, fuel);
      if r.Err? {
        return out, Some(r.error);
      }
      if !Printable(r.value) {
        return out, Some(Unprintable(r.value));
      }
      StreamTextSnoc(Converted(host, objs, i, writers, default, fuel), r.value);
      assert Converted(host, objs, i + 1, writers, default, fuel)
          == Converted(host, objs, i, writers, default, fuel) + [r.value];
      out := out + Unparse(r.value) + "\n";
      i := i + 1;
    }
    failure := None;
  }
}
