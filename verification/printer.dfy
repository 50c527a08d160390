/** The printer of edn/_ast.py (`_Builder`, `unparse`, `unparse_stream`):
    a total function from the abstract syntax to canonical text, together
    with small reference readers (string literal, symbol, lines) that the
    printed text is proved to be read back by. */
module Printer {
  import opened Outcomes
  import opened Text
  import opened Ast

  const Backspace: char := '\U{8}'
  const FormFeed: char := '\U{C}'

  // ---------------------------------------------------------------------
  // Strings

  /** The seven characters of the printer's escape table. */
  predicate Escapable(c: char) {
    c == '"' || c == '\\' || c == '\n' || c == '\r' || c == '\t' || c == Backspace || c == FormFeed
  }

  /** The escapes of the edn string grammar, read direction: the character a
      backslash followed by `c` stands for. */
  function Unescape(c: char): Option<char> {
    if c == '"' then Some('"')
    else if c == '\\' then Some('\\')
    else if c == 'n' then Some('\n')
    else if c == 'r' then Some('\r')
    else if c == 't' then Some('\t')
    else if c == 'b' then Some(Backspace)
    else if c == 'f' then Some(FormFeed)
    else None
  }

  /** One entry of the escape table: the seven escapable characters become a
      backslash and a letter that reads back as that character; every other
      character is copied unchanged. */
  function EscapeChar(c: char): (r: string)
    ensures Escapable(c) <==> |r| == 2
    ensures Escapable(c) ==> r[0] == '\\' && Unescape(r[1]) == Some(c)
    ensures !Escapable(c) ==> r == [c]
  {
    if c == '"' then "\\\""
    else if c == '\\' then "\\\\"
    else if c == '\n' then "\\n"
    else if c == '\r' then "\\r"
    else if c == '\t' then "\\t"
    else if c == Backspace then "\\b"
    else if c == FormFeed then "\\f"
    else [c]
  }

  /** The body of a printed string: every character through the table. */
  function Escape(s: string): string
    decreases |s|
  {
    if |s| == 0 then "" else EscapeChar(s[0]) + Escape(s[1..])
  }

  /** Line breaks and the other control characters of the table. */
  predicate RawControl(c: char) {
    c == '\n' || c == '\r' || c == '\t' || c == Backspace || c == FormFeed
  }

  /** The escaped body is at least as long as the input. */
  lemma {:induction false} EscapeLength(s: string)
    ensures |Escape(s)| >= |s|
    decreases |s|
  {
    if |s| > 0 {
      EscapeLength(s[1..]);
    }
  }

  /** The escaped body holds none of the escaped control characters raw (no
      line break in particular). */
  lemma {:induction false} EscapeShape(s: string)
    ensures forall i :: 0 <= i < |Escape(s)| ==> !RawControl(Escape(s)[i])
    decreases |s|
  {
    if |s| > 0 {
      EscapeShape(s[1..]);
      var e := EscapeChar(s[0]);
      assert Escape(s) == e + Escape(s[1..]);
      forall i | 0 <= i < |Escape(s)|
        ensures !RawControl(Escape(s)[i])
      {
        if i >= |e| {
          assert Escape(s)[i] == Escape(s[1..])[i - |e|];
        }
      }
    }
  }

  /** Reads a string body up to the first unescaped double quote, decoding
      the seven escapes and passing every other character through (a raw line
      break included). Yields the text read and what follows the quote. */
  function ReadStringBody(t: string): Option<(string, string)>
    decreases |t|
  {
    if |t| == 0 then None
    else if t[0] == '"' then Some(("", t[1..]))
    else if t[0] == '\\' then
      if |t| < 2 then None
      else match Unescape(t[1])
        case None => None
        case Some(c) =>
          match ReadStringBody(t[2..])
          case None => None
          case Some(p) => Some(([c] + p.0, p.1))
    else
      match ReadStringBody(t[1..])
      case None => None
      case Some(p) => Some(([t[0]] + p.0, p.1))
  }

  /** Reads a whole double-quoted string literal at the start of t. */
  function ReadStringLiteral(t: string): Option<(string, string)>
  {
    if |t| > 0 && t[0] == '"' then ReadStringBody(t[1..]) else None
  }

  /** The escaped body, followed by the closing quote, reads back as exactly
      the original text and the closing quote is found where the body ends. */
  lemma {:induction false} EscapeReadBack(s: string, rest: string)
    ensures ReadStringBody(Escape(s) + "\"" + rest) == Some((s, rest))
    decreases |s|
  {
    var t := Escape(s) + "\"" + rest;
    if |s| == 0 {
      assert t == "\"" + rest;
      assert t[1..] == rest;
    } else {
      var e := EscapeChar(s[0]);
      var tail := Escape(s[1..]) + "\"" + rest;
      EscapeReadBack(s[1..], rest);
      assert t == e + tail;
      if Escapable(s[0]) {
        assert t[0] == '\\' && t[1] == e[1];
        assert t[2..] == tail;
      } else {
        assert t[0] == s[0];
        assert t[1..] == tail;
      }
      assert [s[0]] + s[1..] == s;
    }
  }

  // ---------------------------------------------------------------------
  // Symbols

  /** A prefix is printed only when it is present and non-empty (Python's
      truthiness of the prefix argument). */
  predicate HasPrefix(s: Symbol) {
    s.prefix.Some? && s.prefix.value != ""
  }

  /** `_dump_Symbol`. */
  function SymbolText(s: Symbol): string
  {
    if HasPrefix(s) then s.prefix.value + "/" + s.name else s.name
  }

  /** The symbol with an empty prefix replaced by an absent one: the two
      print alike. */
  function Canonical(s: Symbol): Symbol
  {
    if HasPrefix(s) then s else Symbol(s.name, None)
  }

  /** A symbol the printer's text can identify: no `/` in the prefix, and no
      `/` in the name unless the name is exactly `/`. */
  predicate WellFormedSymbol(s: Symbol) {
    && ('/' !in s.name || s.name == "/")
    && (s.prefix.Some? ==> '/' !in s.prefix.value)
  }

  /** Reads a symbol's text: `/` alone is the symbol named `/`; otherwise
      the first `/` separates prefix and name. */
  function ReadSymbol(t: string): Symbol
  {
    if t == "/" then Symbol("/", None)
    else match IndexOf(t, '/')
      case None => Symbol(t, None)
      case Some(k) => Symbol(t[k + 1..], Some(t[..k]))
  }

  /** A symbol prints as `prefix/name` when its prefix is present and
      non-empty and as its bare name otherwise; the text reads back as the
      same symbol, up to an empty prefix printing like an absent one. */
  lemma SymbolReadBack(s: Symbol)
    requires WellFormedSymbol(s)
    ensures ReadSymbol(SymbolText(s)) == Canonical(s)
    ensures HasPrefix(s) ==> SymbolText(s) == s.prefix.value + "/" + s.name
    ensures !HasPrefix(s) ==> SymbolText(s) == s.name
  {
    var t := SymbolText(s);
    if HasPrefix(s) {
      var p := s.prefix.value;
      assert t[|p|] == '/';
      assert t[..|p|] == p;
      assert t[|p| + 1..] == s.name;
      assert t != "/";
    } else if s.name != "/" {
      assert '/' !in t;
    }
  }

  // ---------------------------------------------------------------------
  // Elements

  /** `_wrap(start, end, middle)`. */
  function Wrap(start: string, end: string, middle: string): string
  {
    start + middle + end
  }

  /** `unparse`: the element's canonical text. Collection elements are
      printed and merged with single spaces (`_merge_elements`); a map's
      pairs are each merged as `k v` first, then merged again. */
  function Unparse(v: Value): string
    decreases v
  {
    match v
    case Nil => "nil"
    case Bool(b) => if b then "true" else "false"
    case Integer(n, big) => if big then DecimalText(n) + "N" else DecimalText(n)
    case Float(f) => f.text
    case ExactFloat(d) => d + "M"
    case Character(c) => "\\" + [c]
    case String(s, _) => "\"" + Escape(s) + "\""
    case Sym(s) => SymbolText(s)
    case Keyword(s) => ":" + SymbolText(s)
    case List(xs) => Wrap("(", ")", Join(" ", seq(|xs|, i requires 0 <= i < |xs| => Unparse(xs[i]))))
    case Vector(xs) => Wrap("[", "]", Join(" ", seq(|xs|, i requires 0 <= i < |xs| => Unparse(xs[i]))))
    case Set(xs) => Wrap("#{", "}", Join(" ", seq(|xs|, i requires 0 <= i < |xs| => Unparse(xs[i]))))
    case Map(ps) =>
      Wrap("{", "}", Join(" ", seq(|ps|, i requires 0 <= i < |ps| =>
        Join(" ", [Unparse(ps[i].0), Unparse(ps[i].1)]))))
    case TaggedValue(t, x) => "#" + SymbolText(t) + " " + Unparse(x)
  }

  /** No non-ASCII byte string anywhere in the term. `_dump_String`
      encodes its text as UTF-8, and Python 2 decodes a byte string as ASCII
      first, so such a string makes the whole build raise. The other
      implicit decode, of UTF-8 output meeting unicode text in a join, is
      not part of this predicate. */
  predicate Printable(v: Value)
    decreases v
  {
    match v
    case String(s, bytes) => !bytes || Ascii(s)
    case List(xs) => forall i :: 0 <= i < |xs| ==> Printable(xs[i])
    case Vector(xs) => forall i :: 0 <= i < |xs| ==> Printable(xs[i])
    case Set(xs) => forall i :: 0 <= i < |xs| ==> Printable(xs[i])
    case Map(ps) => forall i :: 0 <= i < |ps| ==> Printable(ps[i].0) && Printable(ps[i].1)
    case TaggedValue(_, x) => Printable(x)
    case _ => true
  }

  /** The renderings of a sequence of elements, in order. */
  function UnparseAll(xs: seq<Value>): (r: seq<string>)
    ensures |r| == |xs|
    ensures forall i :: 0 <= i < |xs| ==> r[i] == Unparse(xs[i])
  {
    seq(|xs|, i requires 0 <= i < |xs| => Unparse(xs[i]))
  }

  /** Keys and values of a map, printed, in pair order: k0 v0 k1 v1 ... */
  function FlatPairs(ps: seq<(Value, Value)>): (r: seq<string>)
    ensures |r| == 2 * |ps|
    decreases |ps|
  {
    if |ps| == 0 then [] else [Unparse(ps[0].0), Unparse(ps[0].1)] + FlatPairs(ps[1..])
  }

  /** The opening and closing delimiters of the four collections. */
  function Opener(v: Value): string
    requires v.List? || v.Vector? || v.Set? || v.Map?
  {
    if v.List? then "(" else if v.Vector? then "[" else if v.Set? then "#{" else "{"
  }

  function Closer(v: Value): string
    requires v.List? || v.Vector? || v.Set? || v.Map?
  {
    if v.List? then ")" else if v.Vector? then "]" else "}"
  }

  /** List, Vector and Set print as their opener, the element renderings
      separated by single spaces, and their closer; an empty one prints as
      its bare delimiters, and the text is as long as the delimiters, the
      elements and one space between each two. */
  lemma SequenceLayout(v: Value)
    requires v.List? || v.Vector? || v.Set?
    ensures Unparse(v) == Opener(v) + Join(" ", UnparseAll(v.elements)) + Closer(v)
    ensures |v.elements| == 0 ==> Unparse(v) == Opener(v) + Closer(v)
    ensures |v.elements| > 0 ==>
      |Unparse(v)| == |Opener(v)| + TotalLength(UnparseAll(v.elements)) + |v.elements| - 1 + |Closer(v)|
  {
    SequenceUnfold(v);
    if |v.elements| > 0 {
      JoinLength(" ", UnparseAll(v.elements));
    }
  }

  lemma SequenceUnfold(v: Value)
    requires v.List? || v.Vector? || v.Set?
    ensures Unparse(v) == Opener(v) + Join(" ", UnparseAll(v.elements)) + Closer(v)
  {
    var xs := v.elements;
    assert UnparseAll(xs) == seq(|xs|, i requires 0 <= i < |xs| => Unparse(xs[i]));
  }

  /** The elements of a non-empty List, Vector or Set can be read back off
      its text when none of their texts holds a space: between the opener
      and the closer, the pieces separated by spaces are the elements'
      texts, in order. */
  lemma SequenceReadBack(v: Value)
    requires v.List? || v.Vector? || v.Set?
    requires |v.elements| > 0
    requires forall i :: 0 <= i < |v.elements| ==> ' ' !in Unparse(v.elements[i])
    ensures var u := Unparse(v);
      && |Opener(v)| + |Closer(v)| <= |u|
      && u[..|Opener(v)|] == Opener(v)
      && u[|u| - |Closer(v)|..] == Closer(v)
      && Split(u[|Opener(v)|..|u| - |Closer(v)|], ' ') == UnparseAll(v.elements)
  {
    SequenceLayout(v);
    var inner := Join(" ", UnparseAll(v.elements));
    var u := Unparse(v);
    assert u == Opener(v) + inner + Closer(v);
    assert u[|Opener(v)|..|u| - |Closer(v)|] == inner;
    SplitJoin(UnparseAll(v.elements), ' ');
  }

  /** A map prints as `{`, then its keys and values in pair order, all
      separated by single spaces, then `}`: merging each pair as `k v` and
      then merging the pairs leaves no other separator between pairs. */
  lemma MapLayout(ps: seq<(Value, Value)>)
    ensures Unparse(Map(ps)) == "{" + Join(" ", FlatPairs(ps)) + "}"
    ensures forall i :: 0 <= i < |ps| ==>
      FlatPairs(ps)[2 * i] == Unparse(ps[i].0) && FlatPairs(ps)[2 * i + 1] == Unparse(ps[i].1)
  {
    MapUnfold(ps);
    JoinPairs(ps, PairTexts(ps));
    FlatPairsIndex(ps);
  }

  /** Each pair of a map merged as `k v`. */
  function PairTexts(ps: seq<(Value, Value)>): (r: seq<string>)
    ensures |r| == |ps|
    ensures forall i :: 0 <= i < |ps| ==> r[i] == Join(" ", [Unparse(ps[i].0), Unparse(ps[i].1)])
  {
    seq(|ps|, i requires 0 <= i < |ps| => Join(" ", [Unparse(ps[i].0), Unparse(ps[i].1)]))
  }

  lemma MapUnfold(ps: seq<(Value, Value)>)
    ensures Unparse(Map(ps)) == "{" + Join(" ", PairTexts(ps)) + "}"
  {
  }

  lemma {:induction false} JoinPairs(ps: seq<(Value, Value)>, merged: seq<string>)
    requires |merged| == |ps|
    requires forall i :: 0 <= i < |ps| ==> merged[i] == Join(" ", [Unparse(ps[i].0), Unparse(ps[i].1)])
    ensures Join(" ", merged) == Join(" ", FlatPairs(ps))
    decreases |ps|
  {
    if |ps| == 1 {
      assert FlatPairs(ps) == [Unparse(ps[0].0), Unparse(ps[0].1)];
    } else if |ps| > 1 {
      JoinPairs(ps[1..], merged[1..]);
      var head := [Unparse(ps[0].0), Unparse(ps[0].1)];
      JoinAppend(" ", head, FlatPairs(ps[1..]));
      assert Join(" ", head) == Unparse(ps[0].0) + " " + Unparse(ps[0].1);
    }
  }

  lemma {:induction false} FlatPairsIndex(ps: seq<(Value, Value)>)
    ensures forall i :: 0 <= i < |ps| ==>
      FlatPairs(ps)[2 * i] == Unparse(ps[i].0) && FlatPairs(ps)[2 * i + 1] == Unparse(ps[i].1)
    decreases |ps|
  {
    if |ps| > 0 {
      FlatPairsIndex(ps[1..]);
      forall i | 0 <= i < |ps|
        ensures FlatPairs(ps)[2 * i] == Unparse(ps[i].0) && FlatPairs(ps)[2 * i + 1] == Unparse(ps[i].1)
      {
        if i > 0 {
          assert FlatPairs(ps)[2 * i] == FlatPairs(ps[1..])[2 * (i - 1)];
          assert FlatPairs(ps)[2 * i + 1] == FlatPairs(ps[1..])[2 * (i - 1) + 1];
        }
      }
    }
  }

  /** Scalars: nil, true, false; a character after a backslash; an exact
      float's text followed by `M`; an integer's decimal text, which reads
      back as the integer, followed by `N` exactly when it is a long. */
  lemma ScalarLayout(v: Value)
    requires v.Nil? || v.Bool? || v.Integer? || v.ExactFloat? || v.Character?
    ensures v.Nil? ==> Unparse(v) == "nil"
    ensures v.Bool? ==> Unparse(v) == (if v.truth then "true" else "false")
    ensures v.Character? ==> Unparse(v) == ['\\', v.ch]
    ensures v.ExactFloat? ==> Unparse(v) == v.digits + "M"
    ensures v.Integer? ==>
      var t := Unparse(v);
      && |t| > 0
      && (t[|t| - 1] == 'N' <==> v.big)
      && ParseDecimal(if v.big then t[..|t| - 1] else t) == Some(v.number)
  {
    if v.Integer? {
      DecimalRoundTrip(v.number);
      NatTextRoundTrip(if v.number < 0 then -v.number else v.number);
      var d := DecimalText(v.number);
      assert IsDigit(d[|d| - 1]) by {
        if v.number < 0 {
          assert d[|d| - 1] == NatText(-v.number)[|NatText(-v.number)| - 1];
        }
      }
      if v.big {
        assert Unparse(v)[..|Unparse(v)| - 1] == d;
      }
    }
  }

  /** A float literal as the grammar's `Float` binding builds it, printed
      back: an `M`-suffixed literal prints as exactly the digits it was read
      from followed by `M`, so the exact variant survives; any other literal
      prints as the host's text of the binary float it became. */
  lemma FloatLiteral(value: string, exact: bool, toFloat: string -> HostFloat)
    ensures exact ==> Unparse(MakeFloat(value, exact, toFloat)) == value + "M"
    ensures !exact ==> Unparse(MakeFloat(value, exact, toFloat)) == toFloat(value).text
    ensures Printable(MakeFloat(value, exact, toFloat))
  {
  }

  /** A string prints as a double quote, the escaped text and a double
      quote, unless it is a byte string holding a non-ASCII character, which
      cannot be printed at all; the text is at least two characters longer
      than the string, and reading a string literal from the front of the
      printed text (whatever follows it) gives back exactly the string and
      what follows. */
  lemma StringLayout(s: string, bytes: bool, rest: string)
    ensures Printable(String(s, bytes)) <==> !bytes || Ascii(s)
    ensures Unparse(String(s, bytes)) == "\"" + Escape(s) + "\""
    ensures |Unparse(String(s, bytes))| >= |s| + 2
    ensures ReadStringLiteral(Unparse(String(s, bytes)) + rest) == Some((s, rest))
  {
    var u := "\"" + Escape(s) + "\"";
    assert Unparse(String(s, bytes)) == u;
    EscapeLength(s);
    QuotedReadBack(u, s, rest);
  }

  /** The text of a string element, followed by anything, reads back as the
      string and what follows it. */
  lemma QuotedReadBack(u: string, s: string, rest: string)
    requires u == "\"" + Escape(s) + "\""
    ensures ReadStringLiteral(u + rest) == Some((s, rest))
  {
    EscapeReadBack(s, rest);
    assert (u + rest)[1..] == Escape(s) + "\"" + rest;
  }

  /** A keyword prints as `:` followed by its symbol's text, so a keyword
      never prints like the symbol it wraps. */
  lemma KeywordLayout(s: Symbol)
    ensures Unparse(Keyword(s)) == ":" + Unparse(Sym(s))
    ensures Unparse(Keyword(s)) != Unparse(Sym(s))
  {
    assert |Unparse(Keyword(s))| == |Unparse(Sym(s))| + 1;
  }

  /** A tagged value prints as `#`, the tag's text, one space and the
      value's text; when the tag's text holds no space, the first space of
      the output ends the tag, whose text reads back as the tag. */
  lemma TaggedValueLayout(t: Symbol, x: Value)
    requires WellFormedSymbol(t)
    requires ' ' !in SymbolText(t)
    ensures var out := Unparse(TaggedValue(t, x));
      var k := |SymbolText(t)| + 1;
      && IndexOf(out, ' ') == Some(k)
      && out[0] == '#'
      && ReadSymbol(out[1..k]) == Canonical(t)
      && out[k + 1..] == Unparse(x)
  {
    var out := Unparse(TaggedValue(t, x));
    var k := |SymbolText(t)| + 1;
    assert out[..k] == "#" + SymbolText(t);
    assert ' ' !in out[..k];
    assert out[1..k] == SymbolText(t);
    assert out[k + 1..] == Unparse(x);
    SymbolReadBack(t);
  }

  // ---------------------------------------------------------------------
  // Line structure

  /** Every character that can reach the output raw is free of a line
      feed. Strings are not constrained: the printer escapes their line
      breaks. */
  predicate LineSafe(v: Value)
    decreases v
  {
    match v
    case Float(f) => '\n' !in f.text
    case ExactFloat(d) => '\n' !in d
    case Character(c) => c != '\n'
    case Sym(s) => SymbolLineSafe(s)
    case Keyword(s) => SymbolLineSafe(s)
    case List(xs) => forall i :: 0 <= i < |xs| ==> LineSafe(xs[i])
    case Vector(xs) => forall i :: 0 <= i < |xs| ==> LineSafe(xs[i])
    case Set(xs) => forall i :: 0 <= i < |xs| ==> LineSafe(xs[i])
    case Map(ps) => forall i :: 0 <= i < |ps| ==> LineSafe(ps[i].0) && LineSafe(ps[i].1)
    case TaggedValue(t, x) => SymbolLineSafe(t) && LineSafe(x)
    case _ => true
  }

  predicate SymbolLineSafe(s: Symbol) {
    '\n' !in s.name && (s.prefix.Some? ==> '\n' !in s.prefix.value)
  }

  lemma {:induction false} JoinAvoids(sep: string, parts: seq<string>, c: char)
    requires c !in sep
    requires forall i :: 0 <= i < |parts| ==> c !in parts[i]
    ensures c !in Join(sep, parts)
    decreases |parts|
  {
    if |parts| > 1 {
      JoinAvoids(sep, parts[1..], c);
    }
  }

  /** The printed text of a line-safe element holds no line feed: a string's
      line breaks are always escaped. */
  lemma {:induction false} SingleLine(v: Value)
    requires LineSafe(v)
    ensures '\n' !in Unparse(v)
    decreases v, 1
  {
    match v
    case String(s, _) =>
      EscapeShape(s);
      assert Unparse(v) == "\"" + Escape(s) + "\"";
    case Integer(n, big) =>
      DecimalSingleLine(n);
    case List(xs) =>
      ElementsSingleLine(v);
    case Vector(xs) =>
      ElementsSingleLine(v);
    case Set(xs) =>
      ElementsSingleLine(v);
    case Map(ps) =>
      PairsSingleLine(ps);
    case TaggedValue(t, x) =>
      SingleLine(x);
    case _ =>
  }

  lemma DecimalSingleLine(n: int)
    ensures '\n' !in DecimalText(n)
  {
    var m: nat := if n < 0 then -n else n;
    NatTextRoundTrip(m);
    assert '\n' !in NatText(m) by {
      forall i | 0 <= i < |NatText(m)| ensures NatText(m)[i] != '\n' {
        assert IsDigit(NatText(m)[i]);
      }
    }
  }

  lemma {:induction false} ElementsSingleLine(v: Value)
    requires v.List? || v.Vector? || v.Set?
    requires LineSafe(v)
    ensures '\n' !in Unparse(v)
    decreases v, 0
  {
    var xs := v.elements;
    forall i | 0 <= i < |xs| ensures '\n' !in UnparseAll(xs)[i] {
      SingleLine(xs[i]);
    }
    JoinAvoids(" ", UnparseAll(xs), '\n');
    SequenceLayout(v);
  }

  lemma {:induction false} PairsSingleLine(ps: seq<(Value, Value)>)
    requires LineSafe(Map(ps))
    ensures '\n' !in Unparse(Map(ps))
    decreases Map(ps), 0
  {
    var flat := FlatPairs(ps);
    FlatPairsIndex(ps);
    forall j | 0 <= j < |flat| ensures '\n' !in flat[j] {
      var i := j / 2;
      assert ps[i] in ps;
      if j == 2 * i {
        SingleLine(ps[i].0);
      } else {
        assert j == 2 * i + 1;
        SingleLine(ps[i].1);
      }
    }
    JoinAvoids(" ", flat, '\n');
    MapLayout(ps);
  }

  /** `unparse_stream`'s output: each element's text followed by a line
      feed, in order. */
  function StreamText(vs: seq<Value>): string
    decreases |vs|
  {
    if |vs| == 0 then "" else Unparse(vs[0]) + "\n" + StreamText(vs[1..])
  }

  lemma {:induction false} StreamTextSnoc(vs: seq<Value>, v: Value)
    ensures StreamText(vs + [v]) == StreamText(vs) + Unparse(v) + "\n"
    decreases |vs|
  {
    if |vs| == 0 {
      assert vs + [v] == [v];
    } else {
      assert (vs + [v])[1..] == vs[1..] + [v];
      StreamTextSnoc(vs[1..], v);
    }
  }

  /** `unparse_stream` writing to an output stream: the stream's contents
      afterwards, and the index of the element whose build raised, if one
      did. Each element is written as soon as it is printed, so the
      elements before an unprintable one stay written. */
  method WriteStream(vs: seq<Value>) returns (out: string, failed: Option<nat>)
    ensures failed.None? ==> (forall i :: 0 <= i < |vs| ==> Printable(vs[i])) && out == StreamText(vs)
    ensures failed.Some? ==>
      && failed.value < |vs|
      && !Printable(vs[failed.value])
      && (forall i :: 0 <= i < failed.value ==> Printable(vs[i]))
      && out == StreamText(vs[..failed.value])
  {
    out := "";
    var i := 0;
    while i < |vs|
      invariant 0 <= i <= |vs|
      invariant forall j :: 0 <= j < i ==> Printable(vs[j])
      invariant out == StreamText(vs[..i])
    {
      if !Printable(vs[i]) {
        return out, Some(i);
      }
      StreamTextSnoc(vs[..i], vs[i]);
      assert vs[..i + 1] == vs[..i] + [vs[i]];
      out := out + Unparse(vs[i]) + "\n";
      i := i + 1;
    }
    assert vs[..i] == vs;
    failed := None;
  }

  /** Splits text at line feeds; the last line need not be terminated. */
  function Lines(t: string): seq<string>
    decreases |t|
  {
    if |t| == 0 then []
    else match IndexOf(t, '\n')
      case None => [t]
      case Some(k) => [t[..k]] + Lines(t[k + 1..])
  }

  /** A line-feed-free text followed by a line feed is one line. */
  lemma LinesCons(u: string, rest: string)
    requires '\n' !in u
    ensures Lines(u + "\n" + rest) == [u] + Lines(rest)
  {
    var t := u + "\n" + rest;
    assert t[..|u|] == u;
    assert t[|u|] == '\n';
    assert IndexOf(t, '\n') == Some(|u|);
    assert t[|u| + 1..] == rest;
  }

  /** With line-safe elements, the stream holds one line per element: its
      lines are exactly the elements' texts, in order. */
  lemma {:induction false} StreamLines(vs: seq<Value>)
    requires forall i :: 0 <= i < |vs| ==> LineSafe(vs[i])
    ensures Lines(StreamText(vs)) == UnparseAll(vs)
    decreases |vs|
  {
    if |vs| > 0 {
      SingleLine(vs[0]);
      StreamLines(vs[1..]);
      StreamLinesStep(vs);
    }
  }

  /** The step of StreamLines: one more line in front. */
  lemma StreamLinesStep(vs: seq<Value>)
    requires |vs| > 0 && '\n' !in Unparse(vs[0])
    requires Lines(StreamText(vs[1..])) == UnparseAll(vs[1..])
    ensures Lines(StreamText(vs)) == UnparseAll(vs)
  {
    var u := Unparse(vs[0]);
    var rest := StreamText(vs[1..]);
    StreamTextCons(vs);
    LinesCons(u, rest);
    UnparseAllCons(vs);
  }

  lemma StreamTextCons(vs: seq<Value>)
    requires |vs| > 0
    ensures StreamText(vs) == Unparse(vs[0]) + "\n" + StreamText(vs[1..])
  {
  }

  lemma UnparseAllCons(xs: seq<Value>)
    requires |xs| > 0
    ensures UnparseAll(xs) == [Unparse(xs[0])] + UnparseAll(xs[1..])
  {
    assert UnparseAll(xs)[1..] == UnparseAll(xs[1..]);
  }
}
