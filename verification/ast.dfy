/** The abstract syntax of edn (edn/_ast.py): one closed sum type with a
    variant per terml node the grammar builds. */
module Ast {
  import opened Outcomes

  /** `my/symbol` is Symbol("symbol", Some("my")); `foo` is Symbol("foo", None).
      A present but empty prefix is kept apart from an absent one, as the
      terml node keeps one argument or two. */
  datatype Symbol = Symbol(name: string, prefix: Option<string>)

  /** A 64-bit binary float. Float arithmetic and formatting are the host's:
      the value is carried opaquely, together with the text Python's `str`
      gives for it, which is all the printer needs. */
  datatype HostFloat = HostFloat(text: string)

  /** One edn element.  `Integer.big` records a Python `long` (the grammar
      builds one for a literal with the `N` suffix); `ExactFloat` carries the
      literal text of an arbitrary-precision decimal (a literal with the `M`
      suffix); `String.bytes` records a Python 2 byte string (`str`) rather
      than `unicode` (the grammar builds only the latter; `to_terms` wraps a
      `str` as it is); `Sym` is the terml `Symbol` node and `Keyword` wraps a symbol.
      Set and Map elements are sequences: their order is whatever the host
      iteration gives and is not relied on. */
  datatype Value =
    | Nil
    | Bool(truth: bool)
    | Integer(number: int, big: bool)
    | Float(float: HostFloat)
    | ExactFloat(digits: string)
    | Character(ch: char)
    | String(text: string, bytes: bool)
    | Sym(sym: Symbol)
    | Keyword(sym: Symbol)
    | List(elements: seq<Value>)
    | Vector(elements: seq<Value>)
    | Set(elements: seq<Value>)
    | Map(pairs: seq<(Value, Value)>)
    | TaggedValue(tag: Symbol, value: Value)

  /** The grammar's `Float(value, exact)` binding: an `M`-suffixed literal
      becomes an ExactFloat carrying the literal text unchanged, any other
      literal becomes a binary float through the host conversion `toFloat`
      (Python's `float`). The two variants are never mixed. */
  function MakeFloat(value: string, exact: bool, toFloat: string -> HostFloat): (r: Value)
  {
    if exact then ExactFloat(value) else Float(toFloat(value))
  }
}
