# Finishing a parsed path template

A model of the last step of the resource-path template parser in gax-nodejs
(templates such as `projects/{project}/topics/{topic}`). The grammar
produces an ordered array of segments. Each segment has a kind (BINDING,
END_BINDING or TERMINAL) and a literal. `finishParse` then does three things,
in this order:

1. It rejects the array when two TERMINAL segments have the literal `**`
   (`allowOnePathWildcard`).
2. It names every BINDING that has no literal, in place, as `$0`, `$1`, ...
   in array order (`updateBindingLiterals`). The counter advances only when a
   name is synthesized.
3. It returns the same array together with `size`, the number of TERMINAL
   segments (`countTerminals`).

Files:

- `decimal.dfy` (module `Decimal`): decimal rendering of a counter, standing
  in for `util.format('$%d', n)`, with its inverse `ParseDecimal`.
- `parser_extras.dfy`, module `ParserExtras`: the kinds and their integer
  constants, `Segment`, and the three steps and `finishParse`. The imperative
  steps are methods over an `array<Segment>`. Each is proved against a
  specification function on sequences (`WildcardCount`, `NameBindings`,
  `CountTerminals`), and lemmas state the properties of those functions.
- `parser_extras.dfy`, module `ParserExtrasExamples`: worked examples.

A literal is a `string`, and `""` stands for an absent one. This is what the
test `!s.literal` at src/parser_extras.ts:87 treats as missing.

`size` counts every TERMINAL segment, including those written inside a
binding. So the segments BINDING, TERMINAL `shelf`, END_BINDING,
TERMINAL `books`, BINDING, TERMINAL `book`, END_BINDING get size 3 (`ParserExtrasExamples.ShelfBooksCounts`).
The model follows the code here: an account that gives this template a
size of 2 does not match src/parser_extras.ts:73-75.

## Model

| member | source | states |
|---|---|---|
| `Decimal.NatToString` | src/parser_extras.ts:88 | the `%d` rendering of the counter is a non-empty string of decimal digits; it is one digit exactly below 10, and it starts with `0` only for 0 (no leading zeros) |
| `Decimal.ParseNatToString` | src/parser_extras.ts:88 | reading the rendered digits back gives the counter (a round trip) |
| `Decimal.NatToStringInjective` | src/parser_extras.ts:88 | two counters get the same rendering exactly when they are equal |
| `ParserExtras.KindCode` | src/parser_extras.ts:37-40 | every kind has one of the grammar constants 1, 2, 3 |
| `ParserExtras.KindOfCode` | src/parser_extras.ts:37-40 | an integer stands for a kind exactly when it is 1, 2 or 3 |
| `ParserExtras.KindCodeRoundTrip` | src/parser_extras.ts:37-40 | constant and kind convert back and forth: BINDING, END_BINDING and TERMINAL are three distinct constants |
| `ParserExtras.WildcardCount` | src/parser_extras.ts:54-56 | the number of TERMINAL `**` segments is at most the length |
| `ParserExtras.WildcardCountPositive` | src/parser_extras.ts:51-61 | the count is at least one exactly when some position holds a TERMINAL `**` |
| `ParserExtras.WildcardCountTwo` | src/parser_extras.ts:50-63 | the count is at least two exactly when two positions i < j hold a TERMINAL `**`, whatever lies between them |
| `ParserExtras.WildcardCountPrefix` | src/parser_extras.ts:57-60 | a prefix never holds more wildcards than the whole array, so failing on a second wildcard in a prefix is failing on the whole array |
| `ParserExtras.WildcardCountIgnoresOthers` | src/parser_extras.ts:54-56 | a segment that is not a TERMINAL with literal exactly `**` can be inserted anywhere without changing the count (for example a `**` BINDING or a `***` TERMINAL) |
| `ParserExtras.WildcardCountSamePositions` | src/parser_extras.ts:54-56 | the count depends only on where the TERMINAL `**` segments are |
| `ParserExtras.AllowOnePathWildcard` | src/parser_extras.ts:50-63 | passes exactly when at most one TERMINAL `**` occurs. Fails with the single too-many-wildcards error exactly when two occur. The loop returns at the second one. The method has no modifies clause, so it leaves the array unchanged either way |
| `ParserExtras.CountTerminals` | src/parser_extras.ts:73-75 | the terminal count lies between 0 and the length |
| `ParserExtras.CountTerminalsIsPositions` | src/parser_extras.ts:74 | the count equals the number of positions whose kind is TERMINAL (the length of the filtered array) |
| `ParserExtras.CountTerminalsZero` | src/parser_extras.ts:73-75 | the count is 0 exactly when no segment is TERMINAL (the empty array included) |
| `ParserExtras.CountTerminalsAll` | src/parser_extras.ts:73-75 | the count is the length exactly when every segment is TERMINAL |
| `ParserExtras.CountTerminalsSameKinds` | src/parser_extras.ts:74 | the count depends only on the kinds, not on the literals |
| `ParserExtras.BindingName` | src/parser_extras.ts:88 | a synthesized name is `$` followed by digits that read back as the counter, so it is never empty |
| `ParserExtras.BindingNameInjective` | src/parser_extras.ts:88 | different counter values give different names |
| `ParserExtras.UnnamedCount` | src/parser_extras.ts:85-90 | the number of unnamed bindings, which is the counter's value after a prefix, is at most the prefix's length |
| `ParserExtras.NameBindings` | src/parser_extras.ts:84-92 | naming keeps the length of the array |
| `ParserExtras.NameBindingsAt` | src/parser_extras.ts:85-90 | position i is renamed exactly when it is a BINDING with an empty literal, and it then receives the name for the number of unnamed bindings before i |
| `ParserExtras.BindingsAllNamed` | src/parser_extras.ts:84-92 | after naming, every BINDING has a non-empty literal |
| `ParserExtras.NameBindingsKeepsOthers` | src/parser_extras.ts:87 | naming keeps every kind. It leaves unchanged every segment that is not an unnamed BINDING: named bindings, END_BINDINGs and TERMINALs |
| `ParserExtras.UnnamedCountMonotone` | src/parser_extras.ts:89 | the counter never decreases along the array and grows strictly past each unnamed binding |
| `ParserExtras.SynthesizedNamesDistinct` | src/parser_extras.ts:85-90 | of two unnamed bindings, the earlier gets the smaller counter value, and their names differ |
| `ParserExtras.NameRun` | src/parser_extras.ts:88-89 | the run has k entries, and entry j is the name `$j` |
| `ParserExtras.SynthesizedLiterals` | src/parser_extras.ts:85-90 | the literals picked at unnamed-binding positions number exactly the unnamed bindings |
| `ParserExtras.SynthesizedNamesRun` | src/parser_extras.ts:85-90 | read in array order, the synthesized names are exactly `$0`, ..., `$(k-1)` for k unnamed bindings, with no gap and no reordering |
| `ParserExtras.NameBindingsNoUnnamed` | src/parser_extras.ts:87 | an array without unnamed bindings is left as it is |
| `ParserExtras.NameBindingsIdempotent` | src/parser_extras.ts:84-92 | naming an already named array changes nothing |
| `ParserExtras.NameBindingsKeepsCounts` | src/parser_extras.ts:107-114 | naming changes neither the wildcard count nor the terminal count, so the size computed after naming equals the count on the input |
| `ParserExtras.NameBindingsStep` | src/parser_extras.ts:86-90 | one more segment adds exactly that segment, named with the current counter when it is an unnamed binding. The counter advances by one exactly then |
| `ParserExtras.UpdateBindingLiterals` | src/parser_extras.ts:84-92 | the array afterwards is `NameBindings` of the array before. The loop keeps the counter equal to the number of unnamed bindings seen so far |
| `ParserExtras.FinishParse` | src/parser_extras.ts:107-114 | fails exactly when two TERMINAL `**` occur, and then leaves the array untouched. Otherwise it returns the same array, named. Its size is the terminal count of both the final array and the input. The final array has at most one wildcard, and every BINDING in it is named |
| `ParserExtrasExamples.NamedBindingTakesNoCounter` | src/parser_extras.ts:85-90 | in `[BINDING "shelf", BINDING ""]`, the unnamed binding gets `$0`, not `$1` |
| `ParserExtrasExamples.ShelfBooksCounts` | src/parser_extras.ts:73-75 | the shelf/books template has no path wildcard and size 3 |
| `ParserExtrasExamples.ShelfBooksNamed` | src/parser_extras.ts:84-92 | the shelf/books template's two unnamed bindings become `$0` and `$1`, in order |
| `ParserExtrasExamples.SeparatedWildcardsRejected` | src/parser_extras.ts:50-63 | `**`, `foo`, `**` holds two path wildcards, so it is rejected |

## Left out

- `util.format` (src/parser_extras.ts:88) is a Node library call. Only its effect on a non-negative integer is modelled: `$` followed by the decimal digits (`Decimal.NatToString`).
- The `TypeError` and its message (src/parser_extras.ts:58-59) become the single error value `TooManyPathWildcards`, returned instead of thrown.
- The `Segment` type and the `PathTemplate` class in `./path_template` are not part of this model. They do the matching and rendering against paths. The pegjs grammar that produces the segments is not part of it either.
- `Segment.literal` is a string, and `""` stands for `undefined`. JavaScript values with other truthiness are not modelled.
- Segments are values held in an `array<Segment>`, and naming writes a new value into the slot. The source mutates a shared segment object. Two slots that point to the same object (aliasing) are not modelled. The grammar creates a fresh object for each segment.
- `ParserExtras.AllowOnePathWildcard`: its contract does not say which segment triggers the failure. The method returns at the second `**`, as the source does, but only the verdict is stated.
