# edn printers and native codec, in Dafny

This project models how the Python `edn` library turns values into edn
text and converts Python objects to and from edn terms. The library has
three generations of this code, and each one is modelled on its own:

- **`edn/_ast.py`**: the term printer. An edn term (`Value`: nil, booleans,
  integers, floats, exact floats, characters, strings, symbols, keywords,
  lists, vectors, sets, maps, tagged values) is printed by `unparse`.
  A sequence of terms is printed one per line by `unparse_stream`.
  The printer is in modules `Ast` and `Printer`.
- **`edn/_extended.py`**: the native codec. `to_terms` converts a Python
  object to a term using:
  - caller writers, then the default writers for `datetime` and `uuid`;
  - the base rules for strings, mappings, sets, tuples, lists, `None`,
    numbers and `Decimal`;
  - a fallback `default`.

  `from_terms` builds Python objects back from a term. It uses the decoder
  table, the `#inst`/`#uuid` readers merged with the caller's readers, and
  a default for unknown tags. `dumps`, `dump` and `loads` are compositions
  of these with the printer and a parser. This is module `Extended`, on
  top of `Natives`, which holds the Python object model.
- **`edn/_edn.py`**: the older token printer. `dumps` runs in three steps:
  1. It substitutes an object through the write handlers.
  2. It picks a rule from an ordered `isinstance` table.
  3. It joins the rule's nested token lists with `_flatten` and `_format`.

  The same file holds the `Symbol`/`Keyword` namedtuples and the read-side
  `make_tagged_value` hook. This is module `Legacy`.
- **`edn.py`**: the first printer, a six-rule table. This is module `Earliest`.

Python objects are the datatype `Natives.Native`. `isinstance` is
`Natives.IsInstance` over the Python 2 class hierarchy:
- `bool` is a subclass of `int`; `long` is not.
- A byte `str` and a `unicode` string are different types. A string term
  remembers which one it came from (`Ast.String.bytes`). Python 2 decodes a
  byte string as ASCII wherever it meets it implicitly. So a byte string
  holding a non-ASCII character makes `unparse` raise (`str.encode('utf8')`
  in `_dump_String`) and makes `from_terms` raise (`unicode(str)`). The
  model returns errors there.
- `Symbol`, `Keyword` and `TaggedValue` of `_edn.py` are namedtuples, and
  so are tuples.

A rule table is `seq<Rule<A>>`, and "the first rule whose types the object
is an instance of" is `Natives.FirstMatch`. Functions of the host that
cannot be seen are fields of a `Host` value, passed as a parameter:
- `datetime.isoformat`, `str(uuid)`, `iso8601.parse_date` and `uuid.UUID`.
  The last two, like a caller's tag readers and default handler, may fail,
  and their failure is the result of `from_terms`;
- a caller's writer functions (`to_terms`, `dumps`, `dump`) and write
  handler functions (`_edn.dumps`), which may fail too, their failure
  being the result;
- `str()` of a float, which is carried as its text;
- `repr` of a byte string in `edn.py`, given as the `quote` function;
- the edn parser, given to `Extended.Loads` as `parse`.

Python's recursion limit is a `fuel` parameter, and running out of fuel is
the `RecursionLimit` error.

Where the source has a defect, the model defines the behaviour as written
and a corrected one (see "Findings"). `Extended.Variant` (`AsWritten` /
`Corrected`) selects which one a codec runs. The lemmas about writers, tag
decoding, build failures and the round trip take the variant as a
parameter and hold for both; tag decoding excludes a tagged bare boolean
only for the as-written table, which rejects it. The as-written round trip is stated for
objects without longs and without booleans below the top, which are what
the two defects reject. The lemmas about `dumps`, `loads` and `dump`, and
the Findings lemmas that contrast the two variants, name the one they
are about. The public entry points (`Extended.ToTerms`, `Extended.FromTerms`,
`Extended.Dumps`, `Extended.Dump`, `Extended.Loads`, `Legacy.Dumps`) are the
corrected ones. `Extended.ToTermsAsWritten`,
`Extended.FromTermsAsWritten` and `Legacy.DumpsAsWritten` keep the code as
written.

Files:
- `outcomes.dfy`: Option and Result.
- `text.dfy`: joining and splitting, substring search, ASCII, and decimal text with its parser.
- `ast.dfy`: the term datatype.
- `printer.dfy`: the printer, plus reference readers for string literals
  and symbols that state its round trips.
- `natives.dfy`: Python objects, `isinstance` and first-match dispatch.
- `extended.dfy`: the native codec.
- `legacy.dfy`: the token printer.
- `earliest.dfy`: the first printer.

## Model

| member | source | states |
|---|---|---|
| Text.DecimalRoundTrip | edn/_ast.py:87 | `str` of an int is a non-empty numeral, starting with a sign or a digit, that parses back to the same int |
| Printer.EscapeChar | edn/_ast.py:121-130 | each of the seven escapable characters becomes a backslash and a letter that maps back to it; every other character is kept as is |
| Printer.EscapeShape | edn/_ast.py:121-135 | no raw newline, carriage return, tab, backspace or form feed is left in an escaped string |
| Printer.EscapeReadBack | edn/_ast.py:131-137 | reading an escaped body up to the closing quote gives back the original string and leaves the rest of the input untouched |
| Printer.StringLayout | edn/_ast.py:120-137 | a string can be printed unless it is a byte string holding a non-ASCII character; it prints as its escaped text between double quotes, at least two characters longer, and a string-literal reader recovers the string from it |
| Printer.SymbolReadBack | edn/_ast.py:111-115 | a symbol prints as `prefix/name` when the prefix is non-empty and as the bare name otherwise; the text reads back to the same symbol, where an empty prefix means none |
| Printer.KeywordLayout | edn/_ast.py:108-109 | a keyword prints as a colon before its symbol's text, so it never prints like the symbol |
| Printer.TaggedValueLayout | edn/_ast.py:117-118 | a tagged value prints as `#`, the tag, one space and the value; the first space comes right after the tag, and the tag text reads back to the tag |
| Printer.ScalarLayout | edn/_ast.py:86-106 | layouts of nil, the booleans, characters and exact floats; an integer's text ends in `N` exactly when it is a long, and its digits parse back to the number |
| Printer.FloatLiteral | edn/_ast.py:41-44 | a literal with the `M` suffix, built by `Float(value, True)`, prints back as the same digits followed by `M`; any other literal becomes a host float and prints as that float's text |
| Printer.SequenceReadBack | edn/_ast.py:139-145 | the elements of a non-empty list, vector or set whose element texts hold no space can be read back off its text: it starts with the opener and ends with the closer, and splitting what lies between at spaces gives each element's text, in order |
| Printer.MapLayout | edn/_ast.py:142-145 | a map prints keys and values alternately between braces, pair i's key at position 2i and its value at 2i+1 |
| Printer.SingleLine | edn/_ast.py:120-145 | a term whose floats, characters and symbol names hold no newline prints without a newline, because strings escape theirs |
| Printer.StreamTextSnoc | edn/_ast.py:179-181 | writing one more element appends its text and one newline to the stream |
| Printer.WriteStream | edn/_ast.py:171-181 | when every element can be printed, the stream holds each element's text followed by a newline, in order; otherwise it holds those of the elements before the first unprintable one, whose index is reported |
| Printer.StreamLines | edn/_ast.py:171-181 | splitting the written stream at newlines gives back each element's printed text, one per line and in order |
| Natives.FirstMatchSpec | edn/_extended.py:223-225 | the first-match scan returns a rule whose types admit the object with no earlier rule admitting it, and returns none exactly when no rule admits it |
| Natives.FirstMatchAppend | edn/_extended.py:213-217 | with caller rules placed before the defaults, a match among the caller rules wins, and otherwise the default's match is shifted past them |
| Extended.BaseRuleTypes | edn/_extended.py:201-211 | base rule k admits an object exactly when the rule's kind fits the object's constructor; as written, no rule admits a long |
| Extended.BaseRuleIndex | edn/_extended.py:201-211 | scanning the base rules finds the rule that a by-constructor reference names |
| Extended.ConvertAgrees | edn/_extended.py:223-225 | applying the rule the scan finds gives the same result as the by-constructor reference conversion |
| Extended.BaseDispatch | edn/_extended.py:219-226 | when no writer matches, `to_terms` of a non-symbol equals the by-constructor reference conversion |
| Extended.EncodeAllElements | edn/_extended.py:205-207 | converting elements fails exactly when some element fails; on success there is one term per element, each that element's own conversion |
| Extended.EncodePairsElements | edn/_extended.py:203-204 | converting a mapping's pairs fails exactly when some key or value fails; otherwise each key and value is converted on its own |
| Extended.SymbolsPassThrough | edn/_extended.py:219-221 | symbols and keywords are returned unchanged, whatever the writers |
| Extended.UserWriterWins | edn/_extended.py:173-174 | with either set of rules, the first caller writer that matches tags the object; what its function raises is the result, and what it returns is converted with no writers and the raising default |
| Extended.DefaultWriterIndex | edn/_extended.py:177-180 | among the default writers, datetimes pick the first and UUIDs the second; any other object picks none |
| Extended.CallerWritersPass | edn/_extended.py:213-217 | when no caller writer matches, the match among writers plus defaults is the defaults' own match, shifted past the caller writers |
| Extended.DefaultWritersTag | edn/_extended.py:177-180 | with either set of rules, a datetime converts to `#inst` of its ISO text and a UUID to `#uuid` of its text, both byte strings |
| Extended.NoWriterFor | edn/_extended.py:213-217 | an object that no caller writer matches, and that is neither a datetime nor a UUID, matches no writer at all |
| Extended.UnknownUsesDefault | edn/_extended.py:226 | with either set of rules, an object no rule claims is converted through `default(obj)`; the default handler's error becomes the result |
| Extended.ListKeepsWriters | edn/_extended.py:198-207 | with either set of rules, a list becomes a vector of its items, each converted with the same writers and default |
| Extended.MergeReaders | edn/_extended.py:117 | the merged readers hold the caller's tags plus `#inst` and `#uuid`; a caller reader replaces a default one, and the defaults fill the rest |
| Extended.TaggedDecoding | edn/_extended.py:85-89 | with either decoder table (as written, for a value that is not a bare boolean), a tagged value is decoded by the caller's reader, else by `#inst`/`#uuid` parsing, else by the caller's default, else kept as a tagged value; what the reader or default raises is the result |
| Extended.BuildFailure | edn/_extended.py:48-95 | as written, building a term fails exactly when it holds a boolean or is undecodable; corrected, exactly when it is undecodable. Undecodable means a non-ASCII byte string somewhere in it, or a tag whose reader or default raises on the built value |
| Extended.NestedBoolRejected | edn/_extended.py:48-60 | as written, `from_terms` fails exactly on a term that is not a bare boolean and holds a boolean or is undecodable; corrected, it fails exactly on undecodable terms |
| Extended.NestedTrueNamed | edn/_extended.py:91-95 | as written, a vector holding `true` fails with "Cannot decode 'true'"; the corrected version gives the tuple `(True,)` |
| Extended.EncodePlain | edn/_extended.py:191-226 | with enough fuel, converting a plain object with no writers gives its expected term, with either set of rules (as written, for objects without longs) |
| Extended.DecodeExpected | edn/_extended.py:104-121 | decoding the expected term of a plain object gives its frozen image: tuples for lists, frozensets, frozendicts, unicode strings. This holds with either decoder table (as written, for objects without booleans), whether its strings are byte strings as converted or unicode as read back |
| Extended.RoundTrip | edn/_extended.py:104-121 | with either set of tables, `to_terms(x)` gives the expected term and `from_terms` of it is the frozen image of x, whatever the readers and default; as written, this holds for objects without longs and without booleans below the top |
| Extended.LongConversion | edn/_extended.py:209 | as written, a long cannot be converted; corrected, it becomes a big integer that prints as its digits followed by `N` and decodes back to the long |
| Extended.NonAsciiBytes | edn/_extended.py:52 | a byte string holding a non-ASCII character converts to a byte-string term that `dumps` cannot print and `from_terms` cannot decode; as unicode, the same text prints and decodes |
| Extended.LoadsDumps | edn/_extended.py:229-242 | the public (corrected) `dumps` prints the expected term, and `loads` of that text gives back the frozen object when the parser reads back the printed term with unicode strings |
| Extended.Dump | edn/_extended.py:245-264 | over the corrected `to_terms`: when every object converts and prints, the stream holds each printed conversion followed by a newline; otherwise it holds those of the objects before the first failing one, and that object's conversion or printing error is reported |
| Legacy.MakeKeyword | edn/_edn.py:18-28 | a keyword made from a symbol takes the symbol's name and prefix and ignores the given prefix; otherwise it takes the name and prefix given; a keyword never equals the symbol with the same fields |
| Legacy.KeywordOfSymbol | edn/_edn.py:21-28 | the keyword of a symbol equals the keyword of its name and prefix, and differs from the symbol |
| Legacy.GivenHandlersReplace | edn/_edn.py:89-93 | the read hook agrees with the native decoder's tag resolution; given handlers without `#inst` leave `#inst` tagged, where the defaults and the merging decoder parse it |
| Legacy.FlattenLeaves | edn/_edn.py:154-160 | flattening a flat token list gives it back, and flattening is idempotent |
| Legacy.FlattenAppend | edn/_edn.py:154-160 | flattening a concatenation of token lists concatenates their flattenings |
| Legacy.FormatSpaced | edn/_edn.py:164-172 | the formatted tokens put one space before each token, unless the previous token opens a group or this one closes one |
| Legacy.FormatJoin | edn/_edn.py:164-172 | a left-to-right loop over the tokens builds exactly the joined formatted text |
| Legacy.FormatRun | edn/_edn.py:164-172 | plain tokens followed by a closing token are written single-spaced, with no space before the closer |
| Legacy.Delimited | edn/_edn.py:164-172 | an opening bracket, plain tokens and a closing bracket are written as the bracket, the tokens joined by single spaces, and the closer |
| Legacy.RenderPair | edn/_edn.py:164-172 | two tokens, where the first neither opens nor closes a group and the second does not close one, are written with one space between them |
| Legacy.RenderBracketed | edn/_edn.py:135-146 | a bracketed rule result renders as the opener, its flattened inner tokens joined by single spaces, and the closer |
| Legacy.KindOf | edn/_edn.py:212-224 | the rule picked for an object is one whose types admit that object |
| Legacy.ClaimsOrder | edn/_edn.py:212-224 | any rule admitting an object comes no earlier than the object's own rule, so booleans go to the bool rule and namedtuples to their class rules rather than to the tuple rule |
| Legacy.DumpRuleIndex | edn/_edn.py:225-227 | scanning RULES in order finds the rule the by-constructor reference names, and none when it names none |
| Legacy.DefaultHandlerIndex | edn/_edn.py:197-200 | the default write handlers pick the datetime entry for datetimes and the UUID entry for UUIDs, and nothing for other objects |
| Legacy.HandlerAppliedOnce | edn/_edn.py:207-210 | only the first matching handler is applied, once; what it raises is the result, what it returns is dumped by RULES, and an unrenderable result is refused |
| Legacy.ObjectDispatch | edn/_edn.py:225-229 | an object with no rule is refused with "Cannot encode"; otherwise its rule's tokens are flattened, formatted and joined |
| Legacy.AtomDumps | edn/_edn.py:212-217 | booleans, ints, longs, floats and None print as the term printer prints them; an object with no rule is refused |
| Legacy.NameDumps | edn/_edn.py:123-132 | symbols and keywords print as the term printer prints them |
| Legacy.StringDumps | edn/_edn.py:103-120 | a string dumps exactly when the term printer can print it, and then as the term printer's quoted and escaped string; a byte string holding a non-ASCII character fails to encode |
| Legacy.DumpAllSucceed | edn/_edn.py:135-140 | dumping the items succeeds exactly when every item dumps |
| Legacy.DumpAllElements | edn/_edn.py:135-140 | a successful item dump has one text per item, each that item's own dump |
| Legacy.DumpPairsSucceed | edn/_edn.py:143-146 | dumping a dict's pairs succeeds exactly when every key and value dumps |
| Legacy.DumpPairsElements | edn/_edn.py:143-146 | a successful pair dump has one pair of texts per pair, each the dump of that key and value |
| Legacy.SequenceDumps | edn/_edn.py:135-140 | a list, tuple or set prints its items' dumps between `(`/`)` or `#{`/`}`, single-spaced; an item's failure is the result |
| Legacy.DictDumps | edn/_edn.py:143-146 | a dict prints its keys and values alternately between braces, single-spaced; a failure of a key or value is the result |
| Legacy.TaggedObject | edn/_edn.py:149-150 | a tagged value prints as `#` and its tag, a space, and the value dumped with the default handlers; the value's failure is the result |
| Legacy.DefaultHandlersTag | edn/_edn.py:191-205 | with no handlers given, a datetime prints as `#inst` and its quoted ISO text, and a UUID as `#uuid` and its quoted text; with an empty handler list such objects are refused |
| Legacy.TagPrefixDropped | edn/_edn.py:149-150 | as written, the tag `my/foo` prints as `#foo`, which reads back as a different symbol |
| Legacy.TagPrefixKept | edn/_edn.py:149-150 | corrected, the tag `my/foo` prints as `#my/foo` and reads back as the tag |
| Legacy.TagReadBack | edn/_edn.py:149-150 | the corrected tag text reads back to the tag, and tag and value print exactly as the term printer prints the tagged value; as written, a prefixed tag does not read back |
| Earliest.EarlyRuleIndex | edn.py:68-78 | scanning the six rules finds the rule of the object's kind, with booleans before ints, and none for other objects |
| Earliest.Dumps | edn.py:65-79 | the printer succeeds exactly on booleans, ints, floats, byte strings, None and symbols, printing them as the term printer does (a byte string as the host's quoting of it between double quotes); it refuses everything else with "Cannot encode" |
| Earliest.AgreesWithLegacy | edn.py:65-79 | on non-string objects that both printers accept, it writes what the token printer writes; it refuses keywords, longs, unicode strings, lists and tuples, which the token printer prints |

## Left out

- The edn parser and grammar are not part of this model: `parse`, `parse_stream`, `load`, the parsley grammar and `edn/_parsley.py`. `Extended.Loads` takes the parser as a parameter.
- The `terml` term classes are not part of this model. Terms are the closed datatype `Ast.Value`, and coercing raw objects to terms is not modelled.
- The text of a float is the host's `str(float)`, carried as a string. Float rounding and formatting are not modelled.
- `Decimal` is carried as its digits; `str(Decimal)` normalisation is not modelled.
- The internals of `#inst` and `#uuid` are host functions: ISO formatting, `iso8601.parse_date` and `uuid.UUID`.
- `edn.py`'s `_dump_str` depends on Python's `repr` of a byte string. It is the `quote` parameter, so `Earliest.AgreesWithLegacy` leaves strings out.
- Sets and dicts are sequences in iteration order. Hashing, deduplication (`1 == 1.0 == True`) and the host's iteration order are not modelled.
- Non-ASCII unicode strings are printed as characters, not as the UTF-8 bytes the source writes. As a consequence the second implicit-decode failure is not modelled either: `_dump_String` returns UTF-8 bytes while symbol, keyword and character text from unicode leaves stays unicode, so where the two meet (`' '.join` at edn/_ast.py:145, `'#%s %s' %` at edn/_ast.py:118, `''.join` at edn/_edn.py:228) Python 2 raises UnicodeDecodeError, e.g. for a vector holding `Symbol(u'a')` and `String(u'\xe9')`. `Printer.Printable`, `Printer.WriteStream`, `Extended.Dumps` and `Extended.Dump` treat such a term as printable.
- Printer.WriteStream: stops only at a non-ASCII byte string, not at the UTF-8/unicode mix described above.
- Extended.Dump: reports only a conversion error or a non-ASCII byte string, not the UTF-8/unicode mix described above.
- Extended.Dump: runs the corrected `to_terms`, so `dump([10L], s)` writes `10N` where the code as written raises "Cannot convert" (edn/_extended.py:209); the as-written conversion is `Extended.ToTermsAsWritten`, and `Extended.LongConversion` states the difference.
- Output streams are strings. File objects and their `write` calls are not modelled.
- The Python recursion limit is the `fuel` parameter; only nesting deeper than the fuel is refused.
- `setup.py`, `edn/__init__.py` and the test modules are not part of this model.
- Legacy.SequenceDumps: states the text only when no item's dump is itself a bracket token. If an item prints as `(`, `)` or the empty string, `_format` spaces it as a bracket; only `Legacy.DumpsWith` covers that case.
- Legacy.DictDumps: states the text only when no key's or value's dump is itself a bracket token, for the same reason.
- Legacy.TaggedObject: states the text only when the tag text is a plain token and the value's dump does not close a group.
- Legacy.GivenHandlersReplace: relates the hook to the native decoder only for handler maps without `#inst`. That case is where the two differ; with `#inst` the given reader is used in both.
- Extended.RoundTrip: covers "plain" objects only. These are objects built from strings (byte strings in ASCII), numbers, None, collections, symbols and keywords. Objects that need writers or the default go through `Extended.UserWriterWins` and `Extended.UnknownUsesDefault` instead.
- Extended.LoadsDumps: assumes a parser that reads back what the printer writes. The parser is not part of this model, and `Printer.StringLayout` and `Printer.SymbolReadBack` state the reading back for strings and symbols.
- Extended.LoadsDumps: stated for the public, corrected `dumps` and `loads` only. The as-written text round trip is not restated; `Extended.RoundTrip` gives the term-level one for both variants.
- `NInt` carries an unbounded integer. Python 2 turns an `int` beyond `sys.maxint` into a `long`, and a large `N`-less literal is decoded to a `long`; the model keeps such numbers as `NInt`, so that boundary is not modelled.
- `edn.py` and `edn/_edn.py` each declare their own `Symbol` and `Keyword` namedtuple classes, with the same fields and constructors. The model gives both the one object form, `NSymbol`/`NKeyword`, so passing one module's symbols to the other module's `dumps` is not modelled.
- A reader's, default handler's, writer's or write handler's exception is an `Error` value. Which exception class it is, and the traceback, are not modelled.
- `frozendict` is not a subclass of `dict`, so `edn/_edn.py`'s `dumps` has no rule for it, and the model refuses it.

## Findings

| source | as written | input that shows it | evidently intended | confidence | as-written member | corrected member |
|---|---|---|---|---|---|---|
| edn/_extended.py:209 | the numeric base rule lists `(int, float)`; a Python 2 `long` is not an `int` | `to_terms(10000000000000000000L)` raises "Cannot convert", although the printer writes longs as `...N` and the decoder gives longs back | longs convert to big integers, like ints | not executed | Extended.LongConversion | Extended.ToTerms |
| edn/_extended.py:48-60 | the decoder table has no entries for the `true` and `false` term tags that nested booleans carry | `from_terms` of a vector holding `true` raises "Cannot decode 'true'" | booleans decode to `True`/`False` at any depth | not executed | Extended.NestedBoolRejected | Extended.BuildFailure |
| edn/_edn.py:149-150 | the tag is printed as `'#' + tag.name`, which drops the tag's prefix | `dumps(TaggedValue(Symbol('foo', 'my'), 1))` gives `#foo 1` | `#my/foo 1`, which reads back to the same tag | not executed | Legacy.TagPrefixDropped | Legacy.TagPrefixKept |
