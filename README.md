# COLLADA model loading of rusty-engine, in Dafny

This project models the hand-written COLLADA (`.dae`) loader of the rusty-engine renderer.
The loader has three layers, and the model follows them.

1. **Parser combinators and grammar.** This is `src/model_loading/collada_parsing.rs`.
   - A parser is a function from the input to an optional pair of the remaining input and a value.
   - `Map`, `And`, `Or`, `Maybe`, `Many` and `ManyDelim` combine parsers. The two repetition
     combinators are loops in the source, so they are modelled twice: a recursive specification
     (`ManyLoop`, `ManyDelimLoop`) and a method with a `while` loop proved equal to it.
   - Primitives: a literal token, scanning up to a character (`Until`) or up to the earliest of
     several (`UntilAny`, whose search loop is the method `EarliestOf`), whitespace, look-ahead
     and one decimal digit.
   - Numbers: integers, decimals and scientific notation. Their digit folds are methods proved
     against `DecimalValue` and `FloatValue`.
   - The recursive grammar produces the `Collada` tree: header, open tag, self-closing tag, text
     and a run of numbers, plus `TagParameter` attributes. `ColladaP` ties the recursion by handing
     the element grammar itself, restricted to shorter inputs. `ColladaUnfolds` proves that this
     restriction never cuts anything off.
2. **Tree queries and geometry extraction.** This is `src/model_loading.rs` and its near-copy
   `src/drawing/mesh/model_loading.rs`.
   - The source loops are methods: last-match lookup of a child tag, the source scan, grouping of
     numbers into triples and pairs, conversion to 16-bit indices, and packing index triples into
     vertices. Each is proved equal to a recursive or comprehension specification, and the
     properties are proved about that specification.
   - The copy's shared functions differ from the originals only in visibility, so module
     `ModelLoading` models both. Module `MeshModelLoading` adds the copy's `to_matrix` and
     `extract_transform_mat`.
3. **The mesh.** This is `src/drawing/mesh.rs`, modelled as class `Meshes.Mesh` whose fields the
   methods update in place.
   - The four constructors and the three setters.
   - `load_geometry`, taking the file's text as a parameter or taking the parsed tree.
   - `buffer_unindexed`, whose vertex loop is proved to compute exactly what `pack_verts` computes.

Numbers are exact decimals `Decimal(mantissa, exponent)`, meaning mantissa × 10^exponent. Integers
are unbounded.

One place where the code decides and prose about it might suggest otherwise: when the character
is absent, `parse_until` returns the whole input as the remainder with an empty match. It does not
return the input as the match. The model follows the code (`ParserPrimitives.UntilSpec`).

An open tag's content is a whitespace-delimited list of one or more elements. When there is none,
the grammar falls back to numbers, then to text, and empty text is `ColladaNone`. So `<a></a>` has
the single child `ColladaNone` (`ColladaGrammar.EmptyTag`).

## Model

| member | source | states |
|---|---|---|
| Base.IndexOf | src/model_loading/collada_parsing.rs:210 | the position of the first occurrence of a character, or nothing exactly when it does not occur (`str::find`) |
| Base.IndexOfAny | src/model_loading/collada_parsing.rs:219-234 | the smallest position holding any of several characters, or nothing when none occurs |
| ParserCore.Map | src/model_loading/collada_parsing.rs:97-105 | `map` transforms the result and keeps the remainder; proved by `MapStep`, `MapFails`, `MapParts` and `MapKeeps` (consumption, suffix and non-growth carry over) |
| ParserCore.And | src/model_loading/collada_parsing.rs:165-176 | `and` runs the second parser on the first one's remainder and pairs the results, failing if either fails; proved by `AndStep`, `AndFirstFails`, `AndSecondFails`, `AndParts` and `AndKeeps` |
| ParserCore.Or | src/model_loading/collada_parsing.rs:178-189 | `or` is the first parser's result when it succeeds, otherwise the second's on the same input; proved by `OrFirstSuccess` and `OrKeeps` |
| ParserCore.Maybe | src/model_loading/collada_parsing.rs:191-199 | `maybe` never fails, returning the input unchanged with the default when the parser fails; proved by `MaybeTotal` and `MaybeKeeps` |
| ParserCore.ManyLoop | src/model_loading/collada_parsing.rs:117-125 | the repetition loop never lengthens the input, only adds to the results, and stops where `f` fails |
| ParserCore.Many | src/model_loading/collada_parsing.rs:107-128 | `many` of a parser that always consumes also always consumes |
| ParserCore.ManySpec | src/model_loading/collada_parsing.rs:109-128 | `many` fails exactly when the first `f` fails; otherwise at least one result, the first being `f`'s, and `f` fails on the remainder |
| ParserCore.ManyParse | src/model_loading/collada_parsing.rs:109-128 | the loop with `i` and `res` updated in place computes `Many` |
| ParserCore.ManyUnfold | src/model_loading/collada_parsing.rs:109-128 | `many` is one `f` followed by `many` again, or that one result alone when the rest fails: results in order, remainder after the last success |
| ParserCore.ManyLoopAccumulates | src/model_loading/collada_parsing.rs:117-125 | results gathered before the loop stay in front of those it adds |
| ParserCore.ManyStep | src/model_loading/collada_parsing.rs:109-128 | one success of `f` followed by the rest of the repetition |
| ParserCore.ManyDelimLoop | src/model_loading/collada_parsing.rs:141-159 | the delimited loop never lengthens the input, only adds results, and stops where the delimiter or `f` fails |
| ParserCore.ManyDelim | src/model_loading/collada_parsing.rs:131-163 | `many_delim` of a consuming parser with a non-lengthening delimiter consumes |
| ParserCore.ManyDelimSpec | src/model_loading/collada_parsing.rs:133-162 | `many_delim` fails exactly when the first `f` fails; otherwise at least one result and the delimiter or `f` fails at the remainder |
| ParserCore.ManyDelimParse | src/model_loading/collada_parsing.rs:133-162 | the loop with `i` and `res` updated in place computes `ManyDelim` |
| ParserCore.ManyDelimUnfold | src/model_loading/collada_parsing.rs:133-162 | `many_delim` is one `f`; then it ends there when the delimiter fails, or continues with the list after the delimiter, and when that list fails it keeps the one result with the delimiter consumed |
| ParserCore.ManyDelimLoopAccumulates | src/model_loading/collada_parsing.rs:141-159 | results gathered before the loop stay in front of those it adds |
| ParserCore.ManyDelimStep | src/model_loading/collada_parsing.rs:141-159 | one element and one delimiter followed by the rest of the list |
| ParserCore.ManyDelimLast | src/model_loading/collada_parsing.rs:142-145 | when the delimiter fails, the list ends with the single result |
| ParserCore.OrFirstSuccess | src/model_loading/collada_parsing.rs:180-188 | `or` is `f`'s result whenever `f` succeeds, and `g` on the original input otherwise |
| ParserCore.MaybeTotal | src/model_loading/collada_parsing.rs:193-198 | `maybe` never fails: the default with nothing consumed when `f` fails, `f`'s result otherwise |
| ParserCore.MapKeeps | src/model_loading/collada_parsing.rs:99-104 | `map` leaves what `f` leaves, so it keeps suffix, progress and no-growth |
| ParserCore.AndKeeps | src/model_loading/collada_parsing.rs:167-175 | `and` leaves a suffix when both parts do, and consumes when either part consumes and the other does not lengthen |
| ParserCore.OrKeeps | src/model_loading/collada_parsing.rs:180-188 | `or` keeps suffix, progress and no-growth of both alternatives |
| ParserCore.MaybeKeeps | src/model_loading/collada_parsing.rs:193-198 | `maybe` keeps suffix and no-growth |
| ParserCore.ManyKeeps | src/model_loading/collada_parsing.rs:109-128 | `many` of a suffix-leaving parser leaves a suffix |
| ParserCore.ManyLoopSuffix | src/model_loading/collada_parsing.rs:117-125 | every pass of the repetition loop leaves a suffix |
| ParserCore.ManyDelimKeeps | src/model_loading/collada_parsing.rs:133-162 | `many_delim` of suffix-leaving parsers leaves a suffix |
| ParserCore.ManyDelimLoopSuffix | src/model_loading/collada_parsing.rs:141-159 | every pass of the delimited loop leaves a suffix |
| ParserCore.ManyDelimLocal | src/model_loading/collada_parsing.rs:133-162 | `many_delim` only ever runs `f` on what is left of its input |
| ParserCore.ManyDelimLoopLocal | src/model_loading/collada_parsing.rs:141-159 | the delimited loop only ever runs `f` on what is left of its input |
| ParserCore.AndParts | src/model_loading/collada_parsing.rs:167-175 | a success of `and` is `f`'s success followed by `g`'s on what `f` left |
| ParserCore.MapParts | src/model_loading/collada_parsing.rs:99-104 | a success of `map` is `f`'s success with the value transformed |
| ParserPrimitives.Token | src/model_loading/collada_parsing.rs:258-265 | `parse_token` never lengthens the input; it succeeds exactly on a prefix match (`TokenSpec`, `TokenThen`) |
| ParserPrimitives.Until | src/model_loading/collada_parsing.rs:208-215 | `parse_until` never lengthens the input; it splits at the first occurrence of the character; without one it returns the whole input with an empty match (`UntilSpec`, `UntilThen`) |
| ParserPrimitives.UntilAny | src/model_loading/collada_parsing.rs:217-241 | `parse_until_l` never lengthens the input; it splits at the earliest of the characters (`UntilAnySpec`, `UntilAnyThen`) |
| ParserPrimitives.Ws | src/model_loading/collada_parsing.rs:243-256 | `parse_ws` consumes when it succeeds; it succeeds exactly on leading whitespace and drops all of it (`WsSpec`) |
| ParserPrimitives.Lookahead | src/model_loading/collada_parsing.rs:267-274 | `parse_lookahead` never lengthens the input; it consumes nothing and succeeds exactly on a prefix match (`LookaheadSpec`) |
| ParserPrimitives.Digit | src/model_loading/collada_parsing.rs:276-288 | `parse_digit` consumes when it succeeds; it reads one leading decimal digit as its value (`DigitSpec`) |
| ParserPrimitives.TrimStart | src/model_loading/collada_parsing.rs:249 | removes exactly the leading whitespace and leaves a suffix |
| ParserPrimitives.TokenSpec | src/model_loading/collada_parsing.rs:258-265 | `parse_token` succeeds exactly on inputs starting with the token, yields it and leaves what follows |
| ParserPrimitives.TokenSound | src/model_loading/collada_parsing.rs:258-265 | `parse_token` leaves a suffix |
| ParserPrimitives.TokenThen | src/model_loading/collada_parsing.rs:258-265 | the token in front of anything is split off exactly |
| ParserPrimitives.UntilSpec | src/model_loading/collada_parsing.rs:208-215 | `parse_until` never fails; match and remainder concatenate to the input; the match holds no `c`; the remainder starts with `c` when `c` occurs, and is the whole input with an empty match when it does not |
| ParserPrimitives.UntilSound | src/model_loading/collada_parsing.rs:208-215 | `parse_until` leaves a suffix |
| ParserPrimitives.UntilThen | src/model_loading/collada_parsing.rs:208-215 | a `c`-free prefix, `c` and the rest split at that `c` |
| ParserPrimitives.EarliestOf | src/model_loading/collada_parsing.rs:219-234 | the search loop keeping the smallest position computes `IndexOfAny` |
| ParserPrimitives.IndexOfAnySnoc | src/model_loading/collada_parsing.rs:221-231 | one more candidate character gives the earlier of the two positions |
| ParserPrimitives.UntilAnySpec | src/model_loading/collada_parsing.rs:217-241 | `parse_until_l` never fails; the match holds none of the characters; the remainder starts with one of them when any occurs, and is the whole input otherwise |
| ParserPrimitives.UntilAnySound | src/model_loading/collada_parsing.rs:217-241 | `parse_until_l` leaves a suffix |
| ParserPrimitives.UntilAnyThen | src/model_loading/collada_parsing.rs:217-241 | a prefix free of the characters, one of them, and the rest split there |
| ParserPrimitives.WsSpec | src/model_loading/collada_parsing.rs:243-256 | `parse_ws` succeeds exactly on leading whitespace and then removes all of it |
| ParserPrimitives.WsSound | src/model_loading/collada_parsing.rs:243-256 | `parse_ws` leaves a suffix |
| ParserPrimitives.LookaheadSpec | src/model_loading/collada_parsing.rs:267-274 | `parse_lookahead` succeeds exactly on inputs starting with the token and returns the input unchanged |
| ParserPrimitives.LookaheadSound | src/model_loading/collada_parsing.rs:267-274 | `parse_lookahead` leaves a suffix |
| ParserPrimitives.DigitSpec | src/model_loading/collada_parsing.rs:276-288 | `parse_digit` succeeds exactly on a leading decimal digit, consumes it and yields its value 0..9 |
| ParserPrimitives.DigitSound | src/model_loading/collada_parsing.rs:276-288 | `parse_digit` leaves a suffix |
| ParserNumbers.Integer | src/model_loading/collada_parsing.rs:290-320 | `parse_integer` consumes when it succeeds; its readings are stated by `IntegerOfDigits`, `IntegerOfNegative`, `IntegerStopsInside`, `MinusNeedsDigit`, `IntegerNeedsDigit` and `IntegerSound` |
| ParserNumbers.Float | src/model_loading/collada_parsing.rs:322-363 | `parse_float` consumes when it succeeds; its readings are stated by `FloatOfDecimal`, `FloatOfWhole`, `FloatNeedsDigit` and `FloatSound` |
| ParserNumbers.Scientific | src/model_loading/collada_parsing.rs:365-403 | `parse_scientific` consumes when it succeeds; its four alternatives are stated by the `Scientific*` lemmas, `ScientificNeedsDigit` and `ScientificSound` |
| ParserNumbers.Negate | src/model_loading/collada_parsing.rs:374-396 | the `(-1.0) *` applied to a negative mantissa (376-377) and to a negative plain float (395): the result denotes minus the real value of its argument (same exponent, opposite mantissa) |
| ParserNumbers.Scale | src/model_loading/collada_parsing.rs:374-377 | the `* powi(10.0, exp)` factor: the result denotes the argument's real value times 10^e (exponent grows by `e`, mantissa kept) |
| ParserNumbers.RealPow10Add | src/model_loading/collada_parsing.rs:377 | 10^(a+b) = 10^a * 10^b for exponents of either sign, which is what lets a scaled decimal's exponent be added rather than multiplied out |
| ParserNumbers.Pow10Add | src/model_loading/collada_parsing.rs:300 | powers of ten multiply by adding exponents |
| ParserNumbers.DecimalValueAppend | src/model_loading/collada_parsing.rs:299-302 | the value of a digit string split in two is the left part shifted by the length of the right part, plus the right part |
| ParserNumbers.FoldDigits | src/model_loading/collada_parsing.rs:308-315 | popping digits from the end and weighting each by a growing power of ten gives the decimal value of the digit string |
| ParserNumbers.FloatValueDigits | src/model_loading/collada_parsing.rs:330-346 | `whole.frac` is the integer spelled by all the digits, scaled down by the number of fraction digits |
| ParserNumbers.FoldFloat | src/model_loading/collada_parsing.rs:330-346 | the two digit folds of `parse_float` give `whole.frac` exactly |
| ParserNumbers.DigitValues | src/model_loading/collada_parsing.rs:293 | one value per digit character |
| ParserNumbers.ManyDigits | src/model_loading/collada_parsing.rs:293 | `many` of digits reads exactly a maximal run of digits, with their values in order |
| ParserNumbers.IntegerOfDigits | src/model_loading/collada_parsing.rs:306-317 | a run of digits reads as its decimal value |
| ParserNumbers.IntegerOfNegative | src/model_loading/collada_parsing.rs:292-304 | `-` and a run of digits reads as the negated decimal value (`NegativeValue`), the `-` branch being tried first |
| ParserNumbers.NegativeIntegerOf | src/model_loading/collada_parsing.rs:290-304 | the `-` branch of `parse_integer` reads `-` and a digit run, stopping at the first non-digit |
| ParserNumbers.IntegerFirst | src/model_loading/collada_parsing.rs:290-304 | when the `-` branch reads, its result is the result of `parse_integer` |
| ParserNumbers.LeadingDigits | src/model_loading/collada_parsing.rs:293 | the length of the digit run `many(digit)` can take: every character before it is a digit and the one after it is not |
| ParserNumbers.MinusNeedsDigit | src/model_loading/collada_parsing.rs:290-320 | `-` followed by a non-digit is no integer: the negative form needs a digit and the positive form cannot start at `-` |
| ParserNumbers.IntegerStopsInside | src/model_loading/collada_parsing.rs:290-320 | on a quoted value that is no integer literal the integer read fails or stops at a character other than the closing quote |
| ParserNumbers.IntegerNeedsDigit | src/model_loading/collada_parsing.rs:290-320 | input starting with neither a digit nor `-` is no integer |
| ParserNumbers.IntegerSound | src/model_loading/collada_parsing.rs:290-320 | `parse_integer` leaves a suffix |
| ParserNumbers.DigitsSound | src/model_loading/collada_parsing.rs:293 | `many` of digits leaves a suffix |
| ParserNumbers.FloatOfDecimal | src/model_loading/collada_parsing.rs:324-347 | `w.f` reads as that decimal |
| ParserNumbers.PointedOf | src/model_loading/collada_parsing.rs:322-347 | the first branch of `parse_float` reads `w.f` up to the first non-digit after the fraction |
| ParserNumbers.FloatFirst | src/model_loading/collada_parsing.rs:322-349 | when the first branch of `parse_float` reads, its result is the result of `parse_float` |
| ParserNumbers.FloatOfWhole | src/model_loading/collada_parsing.rs:348-361 | digits with no fraction after them read as the whole number through the second alternative |
| ParserNumbers.FloatNeedsDigit | src/model_loading/collada_parsing.rs:322-363 | input not starting with a digit is no float |
| ParserNumbers.FloatSound | src/model_loading/collada_parsing.rs:322-363 | `parse_float` leaves a suffix |
| ParserNumbers.ScientificOfExponent | src/model_loading/collada_parsing.rs:367-379 | `-w.fe` and an integer `e` read as the negated mantissa times 10^e |
| ParserNumbers.ScientificNegativeExpReads | src/model_loading/collada_parsing.rs:367-379 | the first alternative applies to `-`, a float, `e` and an integer |
| ParserNumbers.ScientificNegative | src/model_loading/collada_parsing.rs:392-398 | `-w.f` without an exponent reads as the negated decimal |
| ParserNumbers.ScientificOfNegativeWhole | src/model_loading/collada_parsing.rs:392-398 | `-` and digits without fraction or exponent read as the negated whole number |
| ParserNumbers.ScientificUnsigned | src/model_loading/collada_parsing.rs:365-403 | an unsigned float without an exponent falls through to the last alternative |
| ParserNumbers.ScientificUnsignedExp | src/model_loading/collada_parsing.rs:380-390 | an unsigned float, `e` and an integer `e` read through the second alternative as the mantissa times 10^e |
| ParserNumbers.ScientificOfPositiveExponent | src/model_loading/collada_parsing.rs:380-390 | `w.fe` and an integer `e` read as the decimal `w.f` times 10^e |
| ParserNumbers.ScientificOfDecimal | src/model_loading/collada_parsing.rs:399-401 | `w.f` without an exponent reads as that decimal |
| ParserNumbers.ScientificOfWhole | src/model_loading/collada_parsing.rs:399-401 | digits without fraction or exponent read as the whole number |
| ParserNumbers.ScientificFirst | src/model_loading/collada_parsing.rs:367-379 | when the first alternative succeeds it is the result |
| ParserNumbers.NegativeExpStops | src/model_loading/collada_parsing.rs:367-379 | without an `e` after the mantissa the first alternative fails |
| ParserNumbers.ExpNeedsDigit | src/model_loading/collada_parsing.rs:380-390 | the second alternative needs a leading digit |
| ParserNumbers.NegativeReads | src/model_loading/collada_parsing.rs:392-398 | the third alternative negates the float after `-` |
| ParserNumbers.NegativeExpReads | src/model_loading/collada_parsing.rs:367-379 | the first alternative yields the negated mantissa times 10^e |
| ParserNumbers.ScientificNeedsDigit | src/model_loading/collada_parsing.rs:365-403 | input starting with neither a digit nor `-` is no number |
| ParserNumbers.ScientificSound | src/model_loading/collada_parsing.rs:365-403 | `parse_scientific` leaves a suffix |
| ColladaGrammar.HeaderP | src/model_loading/collada_parsing.rs:405-421 | `collada_header_p` consumes when it succeeds; stated by `HeaderReads`, `HeaderNeedsProlog`, `HeaderDocument` and `HeaderSound` |
| ColladaGrammar.StringP | src/model_loading/collada_parsing.rs:423-435 | `collada_string_p` never lengthens the input; stated by `TextSpec` and `NoTextAt` |
| ColladaGrammar.FloatsP | src/model_loading/collada_parsing.rs:437-445 | `collada_floats_p` consumes when it succeeds; which numbers it reads is stated by `FloatsBeforeTag` (exactly those of the whitespace-separated scan of numbers) and `FloatsOf` (a written run followed by `<` gives `ColladaFloats` of the numerals' values), its failures by `NoFloatsAt`, and its consumption by `FloatsSound` |
| ColladaGrammar.ParamIntP | src/model_loading/collada_parsing.rs:447-461 | `tag_parameter_int_p` consumes when it succeeds; stated by `IntAttribute`, `NegativeIntAttribute` and `IntFormFails` |
| ColladaGrammar.ParamStrP | src/model_loading/collada_parsing.rs:463-477 | `tag_parameter_str_p` consumes when it succeeds; stated by `TextAttribute` |
| ColladaGrammar.ParamP | src/model_loading/collada_parsing.rs:479-499 | `tag_parameter_p` consumes when it succeeds; stated by `AttributeReads`, `IntAttribute`, `NegativeIntAttribute`, `TextAttribute`, `BadAttributeRefused`, `ParamName` and `ParamSound` |
| ColladaGrammar.IdentifierP | src/model_loading/collada_parsing.rs:501-513 | `tag_identifier_p` never lengthens the input; stated by `NameBeforeOf`, `NameHasNoSlash`, `SlashEndsNoOpenTag` and `NameSound` |
| ColladaGrammar.ClosedIdentifierP | src/model_loading/collada_parsing.rs:515-527 | `tag_identifier_closed_p` never lengthens the input; stated by `ClosedNameOf` and `NameSound` |
| ColladaGrammar.TagP | src/model_loading/collada_parsing.rs:529-561 | `collada_tag_p` consumes when it succeeds; stated by `TagReads`, `TagWithAttributes`, `TextTagDocument`, `FloatsTagDocument`, `EmptyTag`, `TagNeedsOpen`, `UncheckedClosingName` and `TagSound` |
| ColladaGrammar.TagClosedP | src/model_loading/collada_parsing.rs:563-579 | `collada_tag_closed_p` consumes when it succeeds; stated by `ClosedWithAttributes` (`<n a1="v1" … ak="vk"/>` with any number of attributes gives `ColladaTagClosed(n, ps)`, `ps` being what the attributes read as, in order), `TagClosedOf`, `SelfClosingWithAttributes`, `SelfClosing` and `TagClosedSound` |
| ColladaGrammar.Element | src/model_loading/collada_parsing.rs:581-589 | one step of `collada_p`: the header, then the open tag, then the self-closing tag; consumes when it succeeds; stated by `ElementIsHeader`, `ElementIsTag`, `ElementIsClosed`, `ClosingIsNoElement` and `ElementSound` |
| ColladaGrammar.ColladaP | src/model_loading/collada_parsing.rs:581-589 | every success of the element grammar consumes input |
| ColladaGrammar.ColladaUnfolds | src/model_loading/collada_parsing.rs:581-589 | the element parser is exactly header-or-tag-or-closed-tag with itself for every nested element |
| ColladaGrammar.ColladaSuffix | src/model_loading/collada_parsing.rs:581-589 | parsing an element leaves a suffix of the input |
| ColladaGrammar.BelowSound | src/model_loading/collada_parsing.rs:581-589 | the element parser restricted to shorter inputs leaves suffixes when the element parser does on those inputs |
| ColladaGrammar.ElementSound | src/model_loading/collada_parsing.rs:581-589 | the three alternatives leave a suffix when nested elements do |
| ColladaGrammar.ElementLocal | src/model_loading/collada_parsing.rs:581-589 | an element reads nested elements only from strictly shorter input |
| ColladaGrammar.TagLocal | src/model_loading/collada_parsing.rs:529-561 | an open tag reads its children only from strictly shorter input |
| ColladaGrammar.HeaderLocal | src/model_loading/collada_parsing.rs:405-421 | the header reads its element only from strictly shorter input |
| ColladaGrammar.BodyLocal | src/model_loading/collada_parsing.rs:540-548 | the content reads nested elements only from what is left |
| ColladaGrammar.ChildrenLocal | src/model_loading/collada_parsing.rs:541-545 | the child list reads nested elements only from what is left |
| ColladaGrammar.OptWsSound | src/model_loading/collada_parsing.rs:412 | optional whitespace leaves a suffix |
| ColladaGrammar.FloatsSound | src/model_loading/collada_parsing.rs:437-445 | the run of numbers leaves a suffix |
| ColladaGrammar.ParamSound | src/model_loading/collada_parsing.rs:479-499 | an attribute leaves a suffix |
| ColladaGrammar.NameSound | src/model_loading/collada_parsing.rs:501-527 | a tag name leaves a suffix |
| ColladaGrammar.HeadSound | src/model_loading/collada_parsing.rs:532-536 | the name and attribute list leave a suffix |
| ColladaGrammar.OpenSound | src/model_loading/collada_parsing.rs:531-536 | `<`, the name and attributes leave a suffix |
| ColladaGrammar.BodySound | src/model_loading/collada_parsing.rs:540-548 | the content leaves a suffix |
| ColladaGrammar.TagSound | src/model_loading/collada_parsing.rs:529-561 | an open tag leaves a suffix |
| ColladaGrammar.TagClosedSound | src/model_loading/collada_parsing.rs:563-579 | a self-closing tag leaves a suffix |
| ColladaGrammar.HeaderSound | src/model_loading/collada_parsing.rs:405-421 | the header leaves a suffix |
| ColladaGrammar.TextSpec | src/model_loading/collada_parsing.rs:423-435 | text never fails; when a `<` occurs it stops right before the first one; with no `<` at all it consumes nothing and gives `ColladaNone`; it gives `ColladaNone` exactly when it consumes nothing, and otherwise `ColladaString` of the `<`-free span it consumed |
| ColladaGrammar.NoTextAt | src/model_loading/collada_parsing.rs:423-435 | at a `<` the text is empty, so `ColladaNone` |
| ColladaGrammar.FloatsBeforeTag | src/model_loading/collada_parsing.rs:437-445 | a run of numbers holds at least one number and stops right before a `<`, which it does not consume; its numbers and where it stops are exactly those of the whitespace-separated scan of numbers |
| ColladaGrammar.NoFloatsAt | src/model_loading/collada_parsing.rs:437-445 | at a `<` there is no run of numbers |
| ColladaGrammar.IntAttribute | src/model_loading/collada_parsing.rs:446-499 | `n="d"` whose value is a run of digits becomes `ParameterInt` with its decimal value, the integer form being tried first |
| ColladaGrammar.NegativeIntAttribute | src/model_loading/collada_parsing.rs:446-499 | `n="-d"` with `d` a run of digits (e.g. `n="-5"`) becomes `ParameterInt` with the negated decimal value, the integer form being tried first |
| ColladaGrammar.ClosedIntAttribute | src/model_loading/collada_parsing.rs:446-461 | once the name and an integer are read up to the closing quote, the quote completes the attribute as `ParameterInt` with that integer, for any name that is not refused |
| ColladaGrammar.IntFormFails | src/model_loading/collada_parsing.rs:446-461 | the integer form refuses every quoted value that is not an integer literal (`12abc`, `1.5`, `-x`, the empty value): the integer read fails or stops before the closing quote |
| ColladaGrammar.TextAttribute | src/model_loading/collada_parsing.rs:463-499 | `n="v"` whose value (free of `"`) is anything but an integer literal becomes `ParameterString(n, v)`, including values with a numeric prefix such as `12abc` or `1.5` |
| ColladaGrammar.BadAttributeRefused | src/model_loading/collada_parsing.rs:484-492 | an attribute whose name holds `/`, `<` or `>` is refused |
| ColladaGrammar.ParamName | src/model_loading/collada_parsing.rs:447-477 | both attribute forms take their name from the text before `="` |
| ColladaGrammar.AttributeNameSplits | src/model_loading/collada_parsing.rs:449-450 | a name read before `="` and what it leaves give back the input |
| ColladaGrammar.AttributeNameOf | src/model_loading/collada_parsing.rs:449-450 | the name is everything before `="` |
| ColladaGrammar.NoAttributeAt | src/model_loading/collada_parsing.rs:479-499 | no attribute starts at `/` or `>` |
| ColladaGrammar.BadNameRefused | src/model_loading/collada_parsing.rs:480-495 | whichever attribute form reads, the attribute is refused when its name holds `/`, `>` or `<` |
| ColladaGrammar.AttributeStart | src/model_loading/collada_parsing.rs:448-450 | an attribute text that does not start with `=` starts with a character of its name |
| ColladaGrammar.NoParams | src/model_loading/collada_parsing.rs:534 | the optional attribute list is empty before `/` or `>` |
| ColladaGrammar.NoWs | src/model_loading/collada_parsing.rs:533 | optional whitespace consumes nothing before a non-space |
| ColladaGrammar.NameBeforeOf | src/model_loading/collada_parsing.rs:501-527 | a tag name is the text before the first stop character, when it has no `/` |
| ColladaGrammar.NameBeforeRefuses | src/model_loading/collada_parsing.rs:504-506 | a name containing `/` is refused |
| ColladaGrammar.NameHasNoSlash | src/model_loading/collada_parsing.rs:504-506 | no accepted tag name contains `/` |
| ColladaGrammar.OpenTagNameHasNoSlash | src/model_loading/collada_parsing.rs:529-561 | the name of a parsed open tag contains no `/` |
| ColladaGrammar.TagNameIs | src/model_loading/collada_parsing.rs:556-557 | a parsed open tag carries the name read after `<` |
| ColladaGrammar.OpenName | src/model_loading/collada_parsing.rs:531-532 | the name read after `<` is the one the opening part yields |
| ColladaGrammar.TagPartsOpen | src/model_loading/collada_parsing.rs:531-539 | the opening part of a tag is read first |
| ColladaGrammar.TagReads | src/model_loading/collada_parsing.rs:529-561 | opening part, content, `</`, any closing name and `>` give `ColladaTag` of the name, attributes and children, whatever the closing name is |
| ColladaGrammar.OpenTagOf | src/model_loading/collada_parsing.rs:531-539 | `<a>` opens a tag named `a` with no attributes |
| ColladaGrammar.CloseOf | src/model_loading/collada_parsing.rs:550-554 | `</b>` is read as `</`, the name `b` and `>` |
| ColladaGrammar.EmptyTag | src/model_loading/collada_parsing.rs:540-545 | `<a></b>` is a tag named `a` whose only child is `ColladaNone` |
| ColladaGrammar.EmptyBody | src/model_loading/collada_parsing.rs:540-548 | content that is immediately a `<` and not an element is the single `ColladaNone` |
| ColladaGrammar.EmptyChildren | src/model_loading/collada_parsing.rs:541-545 | with no element and no number, the text alternative gives `ColladaNone` |
| ColladaGrammar.ClosingIsNoElement | src/model_loading/collada_parsing.rs:581-589 | a closing tag `</b>` is not an element, so a child list stops there |
| ColladaGrammar.ClosingNoOpenName | src/model_loading/collada_parsing.rs:501-513 | a closing tag has no open-tag name |
| ColladaGrammar.ClosingNoClosedTag | src/model_loading/collada_parsing.rs:563-579 | a closing tag is not a self-closing tag |
| ColladaGrammar.UncheckedClosingName | src/model_loading/collada_parsing.rs:550-554 | `<a></b>` parses whatever `b` is: the closing name is never compared with the opening one |
| ColladaGrammar.SlashEndsNoOpenTag | src/model_loading/collada_parsing.rs:501-513 | `<n/>` is not an open tag, because its name would contain `/` |
| ColladaGrammar.NoOpenAfter | src/model_loading/collada_parsing.rs:531-536 | no open tag without a name |
| ColladaGrammar.TagNeedsOpen | src/model_loading/collada_parsing.rs:529-561 | no open tag without its opening part |
| ColladaGrammar.HeaderNeedsProlog | src/model_loading/collada_parsing.rs:405-421 | no header without `<?` |
| ColladaGrammar.ClosedNameOf | src/model_loading/collada_parsing.rs:515-527 | a self-closing tag's name runs up to `/` |
| ColladaGrammar.TagClosedOf | src/model_loading/collada_parsing.rs:563-579 | `<n/>` is `ColladaTagClosed(n, [])` |
| ColladaGrammar.ClosedAfterName | src/model_loading/collada_parsing.rs:563-579 | a name and `/>` after `<` give a self-closing tag without attributes |
| ColladaGrammar.SelfClosing | src/model_loading/collada_parsing.rs:581-589 | `<n/>` reads only as `ColladaTagClosed`: header and open tag both fail |
| ColladaGrammar.SelfClosingDocument | src/model_loading/collada_parsing.rs:581-589 | the element parser reads `<n/>` as `ColladaTagClosed(n, [])` |
| ColladaGrammar.BareOpen | src/model_loading/collada_parsing.rs:531-536 | `<` and a name followed by `/` or `>` open with no attributes |
| ColladaGrammar.PrologOf | src/model_loading/collada_parsing.rs:407-412 | `<?h?>` with no `?` inside `h`, followed by a non-space, is read as the prolog and leaves what follows |
| ColladaGrammar.HeaderReads | src/model_loading/collada_parsing.rs:405-421 | a prolog followed by an element is `ColladaHeader` of that element |
| ColladaGrammar.ElementIsHeader | src/model_loading/collada_parsing.rs:581-589 | a header that reads is the element: headers are tried first |
| ColladaGrammar.ElementIsTag | src/model_loading/collada_parsing.rs:581-589 | with no header, an open tag that reads is the element |
| ColladaGrammar.ElementIsClosed | src/model_loading/collada_parsing.rs:581-589 | with neither a header nor an open tag, the element is what the self-closing form reads |
| ColladaGrammar.HeaderDocument | src/model_loading/collada_parsing.rs:405-421 | `<?h?><n/>` is a header around the self-closing tag |
| ParserNumbers.NumeralReads | src/model_loading/collada_parsing.rs:365-403 | a numeral (optional `-`, digits, optional `.` and digits) followed by whitespace or `<` reads as the decimal it denotes, and reading stops right after it |
| ColladaGrammar.FloatRunOne | src/model_loading/collada_parsing.rs:439 | one numeral directly before `<` is a run of that one value |
| ColladaGrammar.FloatRunCons | src/model_loading/collada_parsing.rs:439 | a numeral and a space before a run put the numeral's value in front of the run's values |
| ColladaGrammar.FloatRunFrom | src/model_loading/collada_parsing.rs:439 | a numeral followed by space-separated numerals and `<` reads as all their values, in order |
| ColladaGrammar.FloatRunOf | src/model_loading/collada_parsing.rs:439 | space-separated numerals followed by `<` read as their values, in order, stopping before the `<` |
| ColladaGrammar.FloatsOf | src/model_loading/collada_parsing.rs:437-445 | space-separated numerals followed by `<` give `ColladaFloats` of their values and leave the `<` |
| ColladaGrammar.FloatsExample | src/model_loading/collada_parsing.rs:686-688 | `1.2 2 3.4<` gives `ColladaFloats` of 1.2, 2 and 3.4 and leaves `<` |
| ColladaGrammar.SignedFloatsExample | src/model_loading/collada_parsing.rs:648-651 | `-1 -1 1 -1 1<` gives `ColladaFloats` of -1, -1, 1, -1, 1 and leaves `<` |
| ColladaGrammar.AttributeReads | src/model_loading/collada_parsing.rs:446-499 | every attribute `n="v"` (name free of `=`, `/`, `<`, `>`; value free of `"`) reads as `ParameterInt` of the integer when `v` is an integer literal and as `ParameterString(n, v)` otherwise, and reading stops right after the closing quote |
| ColladaGrammar.ParamListOne | src/model_loading/collada_parsing.rs:534 | one attribute before `/` or `>` is a list of its one reading |
| ColladaGrammar.ParamListCons | src/model_loading/collada_parsing.rs:534 | an attribute and a space before an attribute list put its reading in front of the list's |
| ColladaGrammar.ParamListFrom | src/model_loading/collada_parsing.rs:534 | space-separated attributes before `/` or `>` read as their readings, in order |
| ColladaGrammar.AttributesAfterName | src/model_loading/collada_parsing.rs:533-534 | after a tag name, zero or more space-separated attributes followed by `/` or `>` read as their readings, in order, stopping at the `/` or `>` |
| ColladaGrammar.NameFollowedBy | src/model_loading/collada_parsing.rs:501-527 | a name free of `/` and of the stop characters is read up to the stop character that follows it |
| ColladaGrammar.OpenWithAttributes | src/model_loading/collada_parsing.rs:531-536 | `<`, a name and space-separated attributes before `/` or `>` give the name and the attributes' readings |
| ColladaGrammar.ClosedWithAttributes | src/model_loading/collada_parsing.rs:563-579 | `<n a1="v1" … ak="vk"/>` gives `ColladaTagClosed(n, ps)`, `ps` being the attributes' readings in order |
| ColladaGrammar.TagNeedsHead | src/model_loading/collada_parsing.rs:529-561 | no open tag without `<`, a name, attributes and `>` |
| ColladaGrammar.AttributedIsNoOpenTag | src/model_loading/collada_parsing.rs:529-539 | `<n a="v" …/>` is no open tag: the head reads, but `>` does not follow it |
| ColladaGrammar.SelfClosingWithAttributes | src/model_loading/collada_parsing.rs:581-589 | `<n a1="v1" … ak="vk"/>`, with or without attributes, reads as an element only as `ColladaTagClosed(n, ps)` |
| ColladaGrammar.AttributedSelfClosing | src/model_loading/collada_parsing.rs:581-589 | with at least one attribute, neither a header nor an open tag reads, so the self-closing form gives the element |
| ColladaGrammar.OpenHeadWith | src/model_loading/collada_parsing.rs:531-539 | `<a a1="v1" … ak="vk">` opens a tag named `a` with the attributes' readings in order |
| ColladaGrammar.NoElementAt | src/model_loading/collada_parsing.rs:581-589 | nothing that does not start with `<` is an element |
| ColladaGrammar.NoNumberAt | src/model_loading/collada_parsing.rs:437-445 | text starting with neither a digit nor `-` is no run of numbers |
| ColladaGrammar.TextUpTo | src/model_loading/collada_parsing.rs:423-435 | non-empty text free of `<` before a `<` is `ColladaString` of that text |
| ColladaGrammar.TextChildren | src/model_loading/collada_parsing.rs:541-545 | plain text before `<`, where no element starts, is the single child `ColladaString` of that text: element list and numbers fail, so the text alternative reads |
| ColladaGrammar.TextBody | src/model_loading/collada_parsing.rs:540-548 | a tag body of plain text is `[ColladaString(w)]` |
| ColladaGrammar.BodyOfChildren | src/model_loading/collada_parsing.rs:540-548 | content with no whitespace around it is the body exactly as the children read it |
| ColladaGrammar.FloatsChildren | src/model_loading/collada_parsing.rs:541-545 | where a run of numbers reads and no element starts, the children are that one run |
| ColladaGrammar.FloatsBodyOf | src/model_loading/collada_parsing.rs:540-548 | where a run of numbers reads and no element starts, the body is that one run |
| ColladaGrammar.FloatsContent | src/model_loading/collada_parsing.rs:540-548 | inside a document, content that reads as a run of numbers is a body holding that run |
| ColladaGrammar.TagWithAttributes | src/model_loading/collada_parsing.rs:529-561 | `<a a1="v1" … ak="vk">`, a body and `</b>` give `ColladaTag(a, ps, cs)`, `ps` the attributes' readings and `cs` the body's children, whatever `b` is |
| ColladaGrammar.TextTagDocument | src/model_loading/collada_parsing.rs:529-589 | the document parser reads `<a a1="v1" … ak="vk">w</b>`, `w` plain text, as `ColladaTag(a, ps, [ColladaString(w)])` |
| ColladaGrammar.FloatsTagOf | src/model_loading/collada_parsing.rs:529-589 | the document parser reads a tag with attributes whose content reads as a run of numbers as `ColladaTag(a, ps, [that run])` |
| ColladaGrammar.FloatsTagDocument | src/model_loading/collada_parsing.rs:529-589 | the document parser reads `<a a1="v1" … ak="vk">` space-separated numerals `</b>` as `ColladaTag(a, ps, [ColladaFloats(values)])`, the shape of the positions array of `test_vertices` (collada_parsing.rs:737-749) |
| ColladaGrammar.AttributedTextExample | src/model_loading/collada_parsing.rs:692-698 | `<test hello="world">content</test>` is `ColladaTag("test", [ParameterString("hello", "world")], [ColladaString("content")])` with nothing left |
| ColladaGrammar.HeaderOf | src/model_loading/collada_parsing.rs:405-421 | `<?h?>` followed by a document is `ColladaHeader` of that document |
| ColladaGrammar.HeaderExample | src/model_loading/collada_parsing.rs:673-682 | `<?header?><test hello="world">content</test>` is a header holding that tag, with nothing left |
| ModelLoading.DefaultsAreZero | src/drawing/mesh/model_loading.rs:18-74 | every coordinate of the default vertex, position, normal and texture coordinates is zero |
| ModelLoading.TagNamed | src/model_loading.rs:75-94 | `find_tag_name`: the last child tag of that name, nothing for a non-tag; stated by `LastTagNamedIsLast` and proved of the loop by `FindTagName` |
| ModelLoading.LastTagNamed | src/model_loading.rs:79-89 | nothing exactly when no child is an open tag with the name; otherwise an open tag with that name |
| ModelLoading.LastTagNamedIsLast | src/model_loading.rs:79-89 | what is found is a child after which no open tag has the name |
| ModelLoading.FindTagName | src/model_loading.rs:75-94 | the loop overwriting `res` yields the last open-tag child with the name, and nothing for a source that is not an open tag |
| ModelLoading.FindFloats | src/model_loading.rs:96-106 | numbers exactly when the source is an open tag whose first child is a run of numbers, and then those numbers |
| ModelLoading.Positions | src/model_loading.rs:108-116 | `len/3` positions, position `i` being numbers `3i`, `3i+1` and `3i+2`, leftovers dropped |
| ModelLoading.Normals | src/model_loading.rs:118-126 | `len/3` normals, normal `i` being numbers `3i`, `3i+1` and `3i+2` |
| ModelLoading.TexCoords | src/model_loading.rs:128-136 | `len/2` coordinate pairs, pair `i` being numbers `2i` and `2i+1` |
| ModelLoading.GroupToPositions | src/model_loading.rs:108-116 | the loop splitting off three numbers at a time computes `Positions` |
| ModelLoading.GroupToNormals | src/model_loading.rs:118-126 | the loop splitting off three numbers at a time computes `Normals` |
| ModelLoading.GroupToTexCoords | src/model_loading.rs:128-136 | the loop splitting off two numbers at a time computes `TexCoords` |
| ModelLoading.AsU16 | src/model_loading.rs:142 | the `f32 as u16` cast: truncation toward zero, then saturation to 0..65535; stated by `TruncateTowardZero`, `AsU16Saturates` and `AsU16Whole` |
| ModelLoading.TruncateTowardZero | src/model_loading.rs:142 | the integer part rounds toward zero: whole numbers are kept, others land on the nearest integer on the side of zero |
| ModelLoading.AsU16Saturates | src/model_loading.rs:142 | the cast to `u16` keeps an integer part in 0..65535 and saturates below at 0 and above at 65535 |
| ModelLoading.AsU16Whole | src/model_loading.rs:142 | a whole number in range is the index it spells |
| ModelLoading.IndicesOf | src/model_loading.rs:138-145 | one index per number, in order |
| ModelLoading.ToIndices | src/model_loading.rs:138-145 | the loop pushing one cast per number keeps length and order |
| ModelLoading.LastSourceFor | src/model_loading.rs:159-173 | nothing exactly when no child is an open tag whose first attribute is the text `id` containing the key; otherwise such a child |
| ModelLoading.LastSourceForIsLast | src/model_loading.rs:159-173 | what is found is a child after which no child is such a source |
| ModelLoading.FindSource | src/model_loading.rs:159-173 | the loop overwriting `res` finds the last source for the key |
| ModelLoading.MeshOf | src/model_loading.rs:147-157 | a mesh is found only under a header, and is an open tag named `mesh` |
| ModelLoading.GeometryFloats | src/model_loading.rs:147-203 | numbers are found only when the mesh and a source for the key exist |
| ModelLoading.ExtractGeometryFloats | src/model_loading.rs:147-203 | the walk `library_geometries`, `geometry`, `mesh`, source scan, `float_array`, numbers, giving nothing at the first missing step |
| ModelLoading.PositionsIn | src/model_loading.rs:147-203 | positions exactly when the numbers of the last "position" source exist, and then `len/3` triples of them |
| ModelLoading.NormalsIn | src/model_loading.rs:205-261 | normals exactly when the numbers of the last "normal" source exist, and then `len/3` triples of them |
| ModelLoading.TexCoordsIn | src/model_loading.rs:263-319 | coordinates exactly when the numbers of the last "map" source exist, and then `len/2` pairs of them |
| ModelLoading.ExtractPositions | src/model_loading.rs:147-203 | `extract_positions` computes `PositionsIn` |
| ModelLoading.ExtractNormals | src/model_loading.rs:205-261 | `extract_normals` computes `NormalsIn` |
| ModelLoading.ExtractTextureCoordinates | src/model_loading.rs:263-319 | `extract_texture_coordinates` computes `TexCoordsIn` |
| ModelLoading.TrianglesOf | src/model_loading.rs:321-333 | a `p` tag is found only under the mesh |
| ModelLoading.ExtractIndices | src/model_loading.rs:321-358 | indices exactly when `library_geometries`, `geometry`, `mesh`, `triangles`, `p` and its numbers all exist; then one cast per number, in order |
| ModelLoading.Packed | src/model_loading.rs:360-390 | `pack_verts`: one vertex per index triple, failing on an index out of range; stated by `PackedSpec`, `PackedIgnoresTail` and proved of the loop by `PackVerts` |
| ModelLoading.PackedSpec | src/model_loading.rs:360-390 | packing succeeds exactly when every complete triple is in range; then `len/3` vertices, vertex `k` built from triple `k` |
| ModelLoading.PackedIgnoresTail | src/model_loading.rs:365 | one or two trailing indices do not matter |
| ModelLoading.PackVerts | src/model_loading.rs:360-390 | the loop with early returns computes `Packed` |
| ModelLoading.PackIndexedVerts | src/model_loading.rs:392-404 | always fails |
| MeshModelLoading.ToMatrix | src/drawing/mesh/model_loading.rs:152-171 | nothing exactly when there are not 16 numbers; otherwise entry `[r][c]` is number `4c+r` |
| MeshModelLoading.ColumnsOfMatrix | src/drawing/mesh/model_loading.rs:157-167 | the matrix's columns give the 16 numbers back in order |
| MeshModelLoading.MatrixOfColumns | src/drawing/mesh/model_loading.rs:157-167 | every 4x4 matrix is the reading of its own columns |
| MeshModelLoading.MatrixTagOf | src/drawing/mesh/model_loading.rs:386-402 | a `matrix` tag is found only under a header |
| MeshModelLoading.ExtractTransformMat | src/drawing/mesh/model_loading.rs:386-418 | a matrix exactly when `library_visual_scenes`, `visual_scene`, `node`, `matrix` and 16 numbers all exist |
| MeshModelLoading.TransformColumns | src/drawing/mesh/model_loading.rs:386-418 | a found transform lists the numbers of the `matrix` tag column by column |
| Meshes.ZeroMatrix | src/drawing/mesh.rs:26-31 | a 4x4 matrix of zeros |
| Meshes.Mesh.constructor | src/drawing/mesh.rs:25-46 | no geometry, no buffer, zero transform, zero offset, unit scale, all ids 0 |
| Meshes.Mesh.WithId | src/drawing/mesh.rs:49-70 | the same, with the given id |
| Meshes.Mesh.WithIdShader | src/drawing/mesh.rs:73-94 | the same, with the given id and shader id |
| Meshes.Mesh.WithIdShaderTex | src/drawing/mesh.rs:96-117 | the same, with the given id, shader id and texture id |
| Meshes.Mesh.SetId | src/drawing/mesh.rs:120-122 | only the id changes |
| Meshes.Mesh.SetOffset | src/drawing/mesh.rs:124-126 | only the offset changes |
| Meshes.Mesh.SetScale | src/drawing/mesh.rs:129-131 | only the scale changes |
| Meshes.Mesh.LoadGeometry | src/drawing/mesh.rs:142-155 | the four geometry fields become the extraction results, the transform changes only when one is found, nothing else changes |
| Meshes.Mesh.StoreGeometry | src/drawing/mesh.rs:148-155 | the four geometry fields take the given values, the transform only when one is given, and nothing else changes |
| Meshes.Mesh.ParseAndLoadGeometry | src/drawing/mesh.rs:140-155 | the same for the tree the file's text parses to |
| Meshes.Mesh.BufferUnindexed | src/drawing/mesh.rs:158-216 | nothing changes unless all four lists are present and the index count is a multiple of 3; then the buffer holds `len/3` vertices, vertex `k` from triple `k`, the same as `pack_verts` |

## Left out

- File and device I/O: reading the file and building its path from the id (`src/drawing/mesh.rs:134-139`), `load_model` and `load_indexed_model` (`src/model_loading.rs:406-438`). `VertexBuffer::new` on a display is modelled as storing the vertex sequence.
- Floating point: numbers are exact decimals. So `f32` rounding and `f32::powi` are not modelled, and a value such as `12.623` is exact, not `12.623001`.
- `ParserNumbers.FoldDigits`: the `i32` accumulation of `parse_integer` is unbounded, so overflow on long digit runs is not modelled.
- `ModelLoading.AsU16`: the `f32`-to-`u16` cast is modelled on exact decimals: truncation toward zero, then saturation. NaN cannot arise.
- Meshes.Mesh.ParseAndLoadGeometry: the source aborts when the file does not parse (`unwrap` at `src/drawing/mesh.rs:140`). The model requires the text to parse instead.
- Meshes.Mesh.BufferUnindexed: the source aborts when an index is past the end of its list. The model requires every index triple to be in range whenever the lists would be buffered.
- Meshes.Mesh.BufferUnindexed: the `display` argument and the device-side buffer are not modelled.
- Strings are sequences of characters. UTF-8 byte offsets are not modelled, and neither is slicing inside a multi-byte character.
- `Many` and `ManyDelim` require the repeated parser to consume input. The source loops forever on one that does not, and none of its grammar does that.
- `ParserCore.Many`: the `FnMut` parser trait and its `PhantomData` plumbing carry no state, so parsers are pure functions.
- `ColladaGrammar.Below`: its `else None` case is never reached for input shorter than the bound, which `ColladaGrammar.ColladaUnfolds` proves. It exists only to make the recursion well-founded.
- The tests that read `resources/collada/*.dae` are not part of this model.
- The long documents of `collada_parse_test5`, `collada_parse_test6` and `test_vertices` are not restated character by character. `ColladaGrammar.FloatsTagDocument` states the shape of `test_vertices` (a tag with a text and an integer attribute holding one run of signed numbers) for any attributes and numerals.
- `src/drawing/mesh/model_loading.rs` declares its own `collada_parsing` submodule. That file is not part of this model; it is taken to be the grammar of `src/model_loading/collada_parsing.rs`.
