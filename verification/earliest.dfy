/** The first printer of the library, edn.py: `dumps` by an ordered table
    of six rules (booleans, ints, floats, byte strings, None, symbols) and
    no write handlers, collections, keywords or tagged values. edn.py
    declares its own `Symbol` and `Keyword` namedtuple classes, with the
    same fields and constructor behaviour as those of edn/_edn.py; both are
    the NSymbol and NKeyword objects here. */
module Earliest {
  import opened Outcomes
  import opened Text
  import opened Ast
  import opened Natives
  import opened Printer
  import Legacy
  import Extended

  /** The dump rules of `dumps`, by what they do. */
  datatype EarlyKind = EBool | EInt | EFloat | EStr | ENil | ESymbol

  /** RULES, in order. */
  const EarlyRules: seq<Rule<EarlyKind>> :=
    [ Rule([TBool], EBool),
      Rule([TInt], EInt),
      Rule([TFloat], EFloat),
      Rule([TStr], EStr),
      Rule([TNone], ENil),
      Rule([TSymbol], ESymbol) ]

  /** The rule that renders each object, by its constructor: a boolean is
      not an int, a string must be a byte string, and a keyword, a long, a
      unicode string, a collection or any other object has no rule. */
  function EarlyKindOf(x: Native): Option<EarlyKind>
  {
    match x
    case NBool(_) => Some(EBool)
    case NInt(_) => Some(EInt)
    case NFloat(_) => Some(EFloat)
    case NText(_, unicode) => if unicode then None else Some(EStr)
    case NNone => Some(ENil)
    case NSymbol(_) => Some(ESymbol)
    case _ => None
  }

  /** The position of a kind's rule in RULES. */
  function EarlyNumber(kind: EarlyKind): (r: nat)
    ensures r < |EarlyRules| && EarlyRules[r].action == kind
  {
    match kind
    case EBool => 0
    case EInt => 1
    case EFloat => 2
    case EStr => 3
    case ENil => 4
    case ESymbol => 5
  }

  /** The objects a rule's types admit. */
  predicate EarlyClaims(kind: EarlyKind, x: Native) {
    match kind
    case EBool => x.NBool?
    case EInt => x.NBool? || x.NInt?
    case EFloat => x.NFloat?
    case EStr => x.NText? && !x.unicode
    case ENil => x.NNone?
    case ESymbol => x.NSymbol?
  }

  lemma EarlyRuleAt(x: Native, k: nat)
    requires k < |EarlyRules|
    ensures AnyInstance(NamedTuples, x, EarlyRules[k].types) <==> EarlyClaims(EarlyRules[k].action, x)
    ensures EarlyNumber(EarlyRules[k].action) == k
  {
    var r := EarlyRules[k];
    var t := [TBool, TInt, TFloat, TStr, TNone, TSymbol][k];
    assert r == Rule([t], [EBool, EInt, EFloat, EStr, ENil, ESymbol][k]);
    AnyInstanceOne(NamedTuples, x, t);
  }

  /** Scanning RULES in order finds the rule of x's kind, and no rule when
      x has none. */
  lemma EarlyRuleIndex(x: Native)
    ensures FirstMatch(NamedTuples, EarlyRules, x) ==
      (if EarlyKindOf(x).Some? then Some(EarlyNumber(EarlyKindOf(x).value)) else None)
  {
    forall k | 0 <= k < |EarlyRules|
      ensures AnyInstance(NamedTuples, x, EarlyRules[k].types) <==> EarlyClaims(EarlyRules[k].action, x)
      ensures EarlyNumber(EarlyRules[k].action) == k
    {
      EarlyRuleAt(x, k);
    }
    if EarlyKindOf(x).Some? {
      FirstMatchIs(NamedTuples, EarlyRules, x, EarlyNumber(EarlyKindOf(x).value));
    } else {
      FirstMatchNone(NamedTuples, EarlyRules, x);
    }
  }

  /** The text a rule gives its object. `quote` stands for the host's
      `repr(s)[1:-1].replace('"', '\\"')` of a byte string. */
  function EarlyText(kind: EarlyKind, x: Native, quote: string -> string): string
    requires EarlyKindOf(x) == Some(kind)
  {
    match kind
    case EBool => if x.b then "true" else "false"
    case EInt => DecimalText(x.i)
    case EFloat => x.f.text
    case EStr => "\"" + quote(x.s) + "\""
    case ENil => "nil"
    case ESymbol => if HasPrefix(x.sym) then x.sym.prefix.value + "/" + x.sym.name else x.sym.name
  }

  /** `dumps(obj)`: the text of the first rule whose type the object is an
      instance of; booleans, ints, floats, None and symbols print as the
      newer printer prints them, byte strings between double quotes; any
      other object is refused. */
  function Dumps(x: Native, quote: string -> string): (r: Result<string, Error>)
    ensures r.Ok? <==> EarlyKindOf(x).Some?
    ensures r.Err? ==> r.error == CannotEncode(x)
    ensures x.NBool? ==> r == Ok(Unparse(Bool(x.b)))
    ensures x.NInt? ==> r == Ok(Unparse(Integer(x.i, false)))
    ensures x.NFloat? ==> r == Ok(Unparse(Float(x.f)))
    ensures x.NNone? ==> r == Ok(Unparse(Nil))
    ensures x.NSymbol? ==> r == Ok(Unparse(Sym(x.sym)))
    ensures x.NText? && !x.unicode ==> r == Ok("\"" + quote(x.s) + "\"")
  {
    EarlyRuleIndex(x);
    Legacy.PrintedName(if x.NSymbol? then x.sym else Symbol("", None));
    Legacy.PrintedAtom(x);
    match FirstMatch(NamedTuples, EarlyRules, x)
    case None => Err(CannotEncode(x))
    case Some(k) => Ok(EarlyText(EarlyRules[k].action, x, quote))
  }

  /** On the objects both printers accept, other than strings, the first
      printer writes what the older codec's `dumps` writes without
      handlers; keywords, longs, unicode strings and collections, which
      the older codec prints, are refused. */
  lemma AgreesWithLegacy(host: Host, x: Native, quote: string -> string, fuel: nat)
    requires fuel > 0
    ensures EarlyKindOf(x).Some? && !x.NText? ==> Dumps(x, quote) == Legacy.Dumps(host, x, Some([]), fuel)
    ensures (x.NKeyword? || x.NLong? || (x.NText? && x.unicode) || x.NList? || x.NTuple?) ==>
      Dumps(x, quote) == Err(CannotEncode(x)) && Legacy.KindOf(x).Some?
  {
    var none: seq<Legacy.WriteHandler> := [];
    FirstMatchNone(NamedTuples, none, x);
    Legacy.AtomDumps(host, Extended.Corrected, x, none, fuel);
    Legacy.NameDumps(host, Extended.Corrected, x, none, fuel);
  }
}
