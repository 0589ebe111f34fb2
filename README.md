# nomoreounces, modelled in Dafny

nomoreounces rewrites American recipe text for a British reader. It finds
each measure in the text (an amount followed by a unit word). It turns
imperial measures into the most readable metric unit, and it turns cups into
grams of the ingredient named around the measure. That conversion looks the
ingredient up in a nested table of grams per cup, built from a hand-written
chart with its plurals and American synonyms. Finally it rewrites Fahrenheit
oven temperatures and gas marks in Celsius.

This project models that core in Dafny:

- the unit table and the unit operations: lookup by name, conversion, the
  most readable conversion, and the lookup tables precomputed from the data;
- the fraction reader that turns `1 1/2`, `½` and `³⁄₄` into decimals;
- the builder of the cup table, and the search that weighs an ingredient
  phrase;
- `Measure`, `MeasureFinder.findAll` and `convertRecipeText`;
- the oven rewriter, with the gas-mark table and the rounding to five
  degrees;
- the regular-expression helpers and the British-to-American dictionary.

JavaScript numbers are modelled as exact `real`s. JavaScript objects are
modelled as ordered association lists (`Assoc`): their keys keep insertion
order, and an overwritten key keeps its place. Code whose behaviour cannot be
seen from the source is passed in as a parameter:

- `pluralize` is `plural`;
- `he.decode` is `decode`;
- `fahrenheitToCelsius` is `f2c`;
- the printing of a number is `show`;
- `+text` is `toNumber`;
- the first match of a regular expression is `firstMatch` or `Matchers`.

The file split follows the program:

- `unit_data`, `unit`, `unit_registry` model lib/data/unit-data.ts and lib/unit.ts;
- `fraction` and `fraction_laws` model lib/util/parse-fraction.ts;
- `cup_data`, `cup_lut`, `cup_lut_laws`, `cup_search`, `cup_search_laws`
  and `cup_search_examples` model lib/data/cup-to-grams.ts;
- `measure` models lib/measure-finder.ts;
- `convert` models lib/convert.ts;
- `oven`, `gas_mark` and `number` model the oven rewriter and its helpers;
- `regexp` and `american_terms` model the remaining helpers.

Where the code mutates state step by step (the precompute, the table
builders, `searchLUT`, `findAll`, the measure loop, the oven rewriter), the
model has a method with a loop or with reassignments. That method is proved
equal to a function, and the properties are proved about the function.
`Measure` is a class whose methods update its fields.

## Model

| member | source | states |
|---|---|---|
| Number.MathRound | lib/util/number.ts:14 | `Math.round`: the integer nearest to x, with halves rounded up |
| Number.Round5 | lib/util/number.ts:11-15 | 0 stays 0; anything else below 5 gives 5; from 5 on, the result is a multiple of 5 within 2.5 of the input |
| Number.Round5Unique | lib/util/number.ts:11-15 | from 5 on, the result is the one multiple of 5 within 2.5 of the input |
| Number.Round5Fixed | lib/util/number.ts:11-15 | a positive multiple of 5 is returned unchanged |
| Number.Round5Idempotent | lib/util/number.ts:11-15 | rounding twice gives the same result as rounding once |
| Number.Round5Monotone | lib/util/number.ts:11-15 | from 5 on, rounding never reverses the order of two temperatures |
| Number.Round5Examples | tests/util/number.spec.ts:5-21 | every value of the round5 tests, plus -3 giving 5 |
| RegExp.Escape | lib/util/regexp.ts:1-3 | each metacharacter grows by two characters, since `\$1` replaces it |
| RegExp.EscapeIdentity | lib/util/regexp.ts:1-3 | escaping leaves a string unchanged exactly when it has no metacharacter |
| RegExp.CountMetaZero | lib/util/regexp.ts:1-3 | no metacharacter is counted exactly when none occurs |
| RegExp.EscapeAppend | lib/util/regexp.ts:1-3 | escaping distributes over concatenation |
| RegExp.EscapeExample | lib/util/regexp.ts:2 | `a.b` becomes `a\$1b`, because the pattern has no group 1 |
| RegExp.EscapedText | lib/util/regexp.ts:1-3 | the text an escaped pattern matches is one character longer per metacharacter |
| RegExp.EscapedTextPlain | lib/util/regexp.ts:1-3 | a word without metacharacters is matched exactly as written |
| RegExp.EscapeAll | lib/util/regexp.ts:6 | `words.map(escape)` escapes every word, in order |
| RegExp.BuildAlternationRaw | lib/util/regexp.ts:5-7 | the result opens with `(?:` and closes with `)` |
| RegExp.AlternationRoundTrip | lib/util/regexp.ts:5-7 | for words without metacharacters, splitting the inside of the group on `\|` gives the words back |
| GasMark.GasMarkToCelsius | lib/util/celsius-to-gasmark.ts:19-28 | an error `invalid mark '<mark>'` outside 0 to 12 (the table's length); 107 °C up to mark 1/4; 121 °C up to mark 1/2; above that, a table entry exactly for whole marks |
| GasMark.FirstMarkAtLeast | lib/util/celsius-to-gasmark.ts:34-38 | the loop stops at the first mark whose temperature reaches the input; every earlier one is cooler |
| GasMark.CelsiusToGasMark | lib/util/celsius-to-gasmark.ts:30-41 | 1/4 up to 110 °C; 1/2 up to 130 °C; above that a whole mark from 1 to 13, the first whose temperature reaches the input; 13 above 290 °C |
| GasMark.CelsiusToGasMarkMonotone | lib/util/celsius-to-gasmark.ts:30-41 | a hotter temperature never gives a lower mark |
| GasMark.TableIncreases | lib/util/celsius-to-gasmark.ts:3-17 | the table's temperatures rise from mark 1 on |
| GasMark.GasMarkRoundTrip | lib/util/celsius-to-gasmark.ts:19-41 | marks 1 to 12 go to their temperature, and that temperature goes back to the same mark |
| GasMark.MarkBetween | lib/util/celsius-to-gasmark.ts:30-41 | a temperature above one mark's and up to the next mark's gives the next mark |
| GasMark.CelsiusToGasMarkExamples | tests/util/celsius-to-gasmark.spec.ts:5-19 | every value of the celsiusToGasMark tests |
| GasMark.GasMarkToCelsiusExamples | tests/util/celsius-to-gasmark.spec.ts:22-33 | -1 and 100 are errors naming the mark; 1/4, 1/2, 7 and 9 give 107, 121, 210 and 240; 7.5 gives no temperature |
| AmericanTerms.Invert | lib/data/american-terms.ts:39 | `_.invert`: no more keys than entries, and the last entry's British term maps to its American term (InvertLastWins and InvertAbsent give the rest) |
| AmericanTerms.InvertLastWins | lib/data/american-terms.ts:39 | an entry that no later entry shadows is what the inverted table holds |
| AmericanTerms.InvertAbsent | lib/data/american-terms.ts:39 | a term that no entry names is not in the inverted table |
| AmericanTerms.BritishToAmerican | lib/data/american-terms.ts:43-54 | one to three words. The word itself comes first unless it is `icing sugar`. A second word is present exactly when the word is in the table, and it is the table's American term |
| AmericanTerms.BritishToAmericanUnknown | lib/data/american-terms.ts:48-50 | a word that is not in the table gives just itself |
| AmericanTerms.BritishToAmericanKnown | lib/data/american-terms.ts:48-52 | a British term gives itself and its American term |
| AmericanTerms.BritishToAmericanExamples | lib/data/american-terms.ts:5-38 | aubergine, plain flour, cling film and treacle |
| AmericanTerms.BritishToAmericanSpecialCases | lib/data/american-terms.ts:43-46 | icing sugar has three American names and is not in its own list; the lookup is case-sensitive |
| UnitData.ImperialToMetricMultiplier | lib/data/unit-data.ts:17-22 | 453.592 g to the pound; one fluid ounce is 1/33.8140226 litre |
| UnitData.TableContents | lib/data/unit-data.ts:36-146 | the 19 units in source order, with their names and relative values |
| UnitData.TableDomains | lib/data/unit-data.ts:36-146 | the first five units are masses and the rest volumes, in the metric and imperial lists the source gives |
| UnitData.BaseIndex | lib/data/unit-data.ts:14-22 | each domain and system has a unit of value 1 |
| UnitData.OneBasePerList | lib/data/unit-data.ts:14-22 | exactly one unit per domain and system has value 1 |
| UnitData.NamesDistinct | lib/data/unit-data.ts:36-146 | no two units share a name |
| UnitData.NamesNotAltnames | lib/data/unit-data.ts:36-146 | no unit's name is another unit's altname |
| UnitData.NotUnitNames | lib/data/unit-data.ts:36-146 | `grams` and `g` are not unit names |
| UnitData.AltnameFacts | lib/data/unit-data.ts:76-79 | the millilitre's altnames are `ml` and `milliliter`, and `milliliter` is no unit's first altname |
| UnitData.AltnamesNonEmpty | lib/data/unit-data.ts:36-146 | every unit has an altname |
| Units.NameTableSpec | lib/unit.ts:271 | the name table holds a unit under exactly the names of the units, and each entry carries its own name |
| Units.Named | lib/unit.ts:50-54 | the unit of that name, or the error `unit <name> does not exist` exactly when no unit has that name |
| Units.NamedFindsEveryUnit | lib/unit.ts:50-54 | every unit is found by its name |
| Units.NamedExamples | tests/unit.spec.ts:24-30 | gram, kilogram and cup |
| Units.NamedRejects | lib/unit.ts:50-54 | `grams` and `g` are not names, so `to('grams')` throws |
| Units.NamedUnknown | lib/unit.ts:52 | an unknown name throws |
| Units.ShortForm | lib/unit.ts:94-96 | the first altname, present exactly when the unit has one |
| Units.ShortFormExamples | tests/unit.spec.ts:40-46 | g, tsp and fl oz; every unit has a short form; the gram is metric and the pound is not |
| Units.FilterCompatible | lib/unit.ts:111-116 | the filter keeps only units of the same domain, and of the system if one is given |
| Units.FilterMembers | lib/unit.ts:111-116 | a unit is kept exactly when it is in the list and compatible |
| Units.PossibleConversions | lib/unit.ts:111-116 | every candidate is compatible |
| Units.FilterAppend | lib/unit.ts:111-116 | filtering distributes over concatenation, so order is kept |
| Units.FilterKeepsAll | lib/unit.ts:111-116 | a list of compatible units is kept whole |
| Units.FilterDropsAll | lib/unit.ts:111-116 | a list of incompatible units is dropped whole |
| Units.PossibleConversionsExamples | tests/unit.spec.ts:148-153 | the gram converts to the five masses, or to the three metric masses |
| Units.GramCompatibility | lib/unit.ts:111-116 | the gram is compatible with the five masses and nothing else, and with the three metric masses in the metric system |
| Units.PossibleConversionsPrefix | lib/unit.ts:111-116 | when the compatible units form a prefix of the unit list, the conversions are exactly that prefix |
| Units.CanConvertSameDomain | lib/unit.ts:121-123 | two units convert exactly when they share a domain |
| Units.ConvertValue | lib/unit.ts:145-176 | the converted amount is the same quantity, measured in the target unit |
| Units.Convert | lib/unit.ts:145-176 | the error `cannot convert between two different domains` exactly when the domains differ; otherwise the same quantity |
| Units.BaseAmountInjective | lib/unit.ts:145-176 | two amounts that are the same quantity in one unit are equal |
| Units.ConvertSameUnit | lib/unit.ts:159-162 | converting a unit to itself keeps the amount |
| Units.ConvertRoundTrip | lib/unit.ts:145-176 | converting there and back gives the amount back |
| Units.ConvertCompose | lib/unit.ts:145-176 | converting through a third unit is the same as converting directly |
| Units.ConvertMassExamples | tests/unit.spec.ts:80-88 | the exact mass values of the tests, and zero staying zero |
| Units.ConvertVolumeExamples | tests/unit.spec.ts:99-103 | litre, centilitre, teaspoon and tablespoon values; cup to gram is an error |
| Units.ConvertAcrossSystemsExamples | tests/unit.spec.ts:96-110 | kg to lb and litres to gallons, within the tests' tolerance |
| Units.Converted | lib/unit.ts:208-209 | the candidates' amounts, in order |
| Units.MostReadableSpec | lib/unit.ts:198-214 | no amount reads better than the chosen one. The choice moves only to an amount that reads strictly better than the starting amount and every earlier candidate |
| Units.MostReadableConversion | lib/unit.ts:193-217 | the chosen amount is the input converted to the chosen unit, and neither the input nor any candidate reads better |
| Units.ChosenStep | lib/unit.ts:208-214 | one step of the `forEach` moves to a candidate exactly when it reads better |
| Units.ConvertBest | lib/unit.ts:193-217 | the loop's result is the fold's choice; it is a same-domain conversion that nothing beats |
| Units.MetricGramAmounts | lib/unit.ts:111-116 | grams seen as mg, g and kg |
| Units.MassGramAmounts | lib/unit.ts:111-116 | grams seen as each of the five masses |
| Units.BestMetricExamples | tests/unit.spec.ts:116-119 | 500 g and 900 g stay in grams |
| Units.KeepsGrams | lib/unit.ts:198-214 | any amount between 1 and 1000 g stays in grams among the metric masses |
| Units.BestMassExample | tests/unit.spec.ts:113-115 | 1000 g among all masses becomes about 2.2 lb, not the 1 kg the test expects (see Findings) |
| Units.PoundWins | lib/unit.ts:199-214 | as written, among the five mass amounts of 1000 g the pound amount is chosen |
| Units.OneIsKept | lib/unit.ts:202-204 | under the intended score, an amount of magnitude one is never given up |
| Units.KilogramIntended | tests/unit.spec.ts:115 | under the intended score, 1000 g becomes 1 kg |
| UnitRegistry.AltRegistrationsSpec | lib/unit.ts:276-279 | each altname registers itself and its plural, both for its own unit |
| UnitRegistry.RegistrationsValues | lib/unit.ts:274-279 | every registered value is a unit of the list |
| UnitRegistry.RegistrationsNames | lib/unit.ts:274 | every unit is registered under its name |
| UnitRegistry.RegistrationsAltnames | lib/unit.ts:277 | every unit is registered under each of its altnames |
| UnitRegistry.MatchTableLookup | lib/unit.ts:274-279 | a lookup in `matchToUnit` finds the last unit registered under the key. Every name and altname is found, and only units of the list are returned |
| UnitRegistry.MatchTableKeys | lib/unit.ts:274-279 | the keys are the registered words in first-registration order, without repeats |
| UnitRegistry.UnitPattern | lib/unit.ts:289-290 | the pattern opens with `(?:^\|\b\|\d)(?:` |
| UnitRegistry.ShortFormAsWrittenKeys | lib/unit.ts:280-283 | as written, the short-form table holds every altname of every unit |
| UnitRegistry.AltsAsWrittenKeys | lib/unit.ts:276-283 | as written, one unit adds all of its altnames to the short-form table |
| UnitRegistry.AllAltnamesIndexed | lib/unit.ts:276 | a word is an altname exactly when some unit lists it |
| UnitRegistry.ShortFormTableKeys | lib/unit.ts:280 | the intended short-form table holds exactly the first altnames |
| UnitRegistry.ShortFormFinding | lib/unit.ts:280-283 | `isShortForm('milliliter')` holds as written; under the intended table only `ml` is a short form |
| UnitRegistry.MillilitreAltnameRecorded | lib/unit.ts:280-283 | as written, `milliliter` is recorded |
| UnitRegistry.ShortFormsOfTable | lib/unit.ts:80-82 | the intended table recognises `ml` and not `milliliter` |
| UnitRegistry.BuildTables | lib/unit.ts:254-293 | the loops build the unit list, the name table, the match table in registration order, the short-form table as written, and the pattern over the match table's keys |
| UnitRegistry.RegisterAltnames | lib/unit.ts:276-284 | the inner loop appends each altname's two registrations and updates the short-form table as written |
| UnitRegistry.Register | lib/unit.ts:274 | one assignment to the object: an existing key keeps its place |
| UnitRegistry.PrecomputeExtractUnitData | lib/unit.ts:252-293 | the tables precomputed from the unit data |
| UnitRegistry.FromString | lib/unit.ts:61-74 | no unit when the pattern does not match; an error when the matched word is not in `matchToUnit`; otherwise the unit registered under the match, after the first `liter` is replaced with `litre` |
| UnitRegistry.FromStringFindsTableWords | lib/unit.ts:61-74 | a match on any altname gives a unit |
| Assoc.PutGet | lib/unit.ts:271-282 | an assignment to an object is read back, and other keys are unchanged |
| Assoc.PutAllGet | lib/data/cup-to-grams.ts:241-243 | after a run of assignments, a key holds its last assigned value |
| Assoc.PutAllKeys | lib/data/cup-to-grams.ts:241-243 | the keys of the object are the assigned keys in first-assignment order |
| Assoc.DedupMembers | lib/data/cup-to-grams.ts:241 | `_.uniq` keeps every word once, and nothing else |
| Strings.IndexOf | lib/unit.ts:63 | the first place from `from` on where the pattern occurs, or none when it occurs nowhere from there |
| Strings.ReplaceFirst | lib/convert.ts:43 | `String.replace` with a string: the first occurrence is replaced, and text without the pattern is unchanged |
| Strings.ReplaceFirstIgnoreCase | lib/unit.ts:63 | `replace(/liter/i, ...)`: the first case-insensitive occurrence is replaced, and text without one is unchanged |
| Strings.TrimStart | lib/util/parse-fraction.ts:92 | only leading white space is removed, and all of it |
| Strings.TrimEnd | lib/util/parse-fraction.ts:92 | only trailing white space is removed, and all of it |
| Fraction.GlyphTable | lib/util/parse-fraction.ts:10-29 | 18 fraction glyphs, each mapped to a plain `n/d` |
| Fraction.GlyphKeys | lib/util/parse-fraction.ts:10-29 | the glyphs are distinct |
| Fraction.MapNumerals | lib/util/parse-fraction.ts:47-55 | only the first numeral of the cipher is replaced (the expression has no `g` flag), by its digit |
| Fraction.MapNumeralsDigits | lib/util/parse-fraction.ts:47-55 | plain digits are left alone |
| Fraction.ApplyGlyphsAbsent | lib/util/parse-fraction.ts:62-64 | text without glyphs is unchanged |
| Fraction.ApplyDistinctGlyph | lib/util/parse-fraction.ts:62-64 | a lone glyph becomes a space and its fraction |
| Fraction.NoFractionSlash | lib/util/parse-fraction.ts:66 | text without `⁄` is unchanged |
| Fraction.SlashFractionDigits | lib/util/parse-fraction.ts:69-72 | digits, spaces, `/`, spaces and digits are recognised as one fraction |
| Fraction.TightenDigits | lib/util/parse-fraction.ts:69-72 | the spaces around the slash of such a fraction are removed |
| Fraction.TightenNoSlash | lib/util/parse-fraction.ts:69-72 | text without `/` is unchanged |
| Fraction.NumeralFractionTightened | lib/util/parse-fraction.ts:69-72 | `³/₄` becomes `3/4` |
| Fraction.Divide | lib/util/parse-fraction.ts:85 | `g1 / g2`: finite exactly when the divisor is not zero, and then the quotient |
| Fraction.AddWhole | lib/util/parse-fraction.ts:87 | `parseInt(num) + f1 / f2` |
| Fraction.NumberAt | lib/util/parse-fraction.ts:75-91 | a number starts exactly at a digit; plain numbers are kept as written |
| Fraction.ConvertNoSlash | lib/util/parse-fraction.ts:82-91 | text without `/` is rendered back unchanged |
| Fraction.ConvertFraction | lib/util/parse-fraction.ts:84-85 | `a/b` becomes the value a/b |
| Fraction.ConvertMixed | lib/util/parse-fraction.ts:86-87 | `n a/b` becomes n + a/b |
| Fraction.RenderAppend | lib/util/parse-fraction.ts:82-91 | rendering distributes over concatenation |
| Fraction.ParseFraction | lib/util/parse-fraction.ts:59-93 | the statement sequence computes the pipeline: decode, glyphs, fraction slash, tightening, conversion, trim |
| Fraction.PlainTextUnchanged | lib/util/parse-fraction.ts:59-93 | text with no glyph, no fraction slash and no `/` comes back trimmed and otherwise unchanged |
| FractionLaws.LoneFraction | tests/util/parse-fraction.spec.ts:11-13 | `x / y`, with any spacing, becomes x/y |
| FractionLaws.MixedNumber | tests/util/parse-fraction.spec.ts:14-15 | `n a/b` becomes n + a/b |
| FractionLaws.NumeralFraction | tests/util/parse-fraction.spec.ts:24 | superscript, fraction slash, subscript becomes p/q |
| FractionLaws.SpacedFractionTightened | lib/util/parse-fraction.ts:69-72 | `x sp / sp y` becomes `x/y` |
| FractionLaws.FractionConverted | lib/util/parse-fraction.ts:84-85 | `x/y` is converted to one value |
| FractionLaws.MixedConverted | lib/util/parse-fraction.ts:86-87 | a mixed number is converted to one value |
| FractionLaws.PlainCharsKept | lib/util/parse-fraction.ts:62-66 | text of plain characters is unchanged by the glyph and fraction-slash passes |
| FractionLaws.NumeralFractionRewritten | lib/util/parse-fraction.ts:47-72 | superscript, fraction slash, subscript is rewritten as digit, `/`, digit |
| FractionLaws.DigitFractionConverted | lib/util/parse-fraction.ts:84-85 | digit, `/`, digit is converted to one value, their quotient |
| CupLUT.SplitCommas | lib/data/cup-to-grams.ts:220 | `split(/\s*,\s*/)`: one piece per comma, none containing a comma |
| CupLUT.SplitCommasJoin | lib/data/cup-to-grams.ts:220 | splitting `a, b, c` gives the words back |
| CupLUT.TrimPieces | lib/data/cup-to-grams.ts:220 | the spaces around each comma are dropped, and words without outer spaces come back whole |
| CupLUT.StarStripped | lib/data/cup-to-grams.ts:271-275 | a leading star is stripped from a key other than `*` itself |
| CupLUT.TakeUntil | lib/data/cup-to-grams.ts:281-282 | the American words before the full ingredient name itself |
| CupLUT.Yanked | lib/data/cup-to-grams.ts:283-284 | each American word loses its first ` <ingredient>` |
| CupLUT.Collapse | lib/data/cup-to-grams.ts:297-298 | a table whose only key is `*` collapses to its value; any other table is kept |
| CupLUT.MakeVariantTable | lib/data/cup-to-grams.ts:256-299 | the loops build the variant table the recursive definition gives |
| CupLUT.AddEntry | lib/data/cup-to-grams.ts:267-288 | one raw entry adds its star copy and its variants |
| CupLUT.AddVariants | lib/data/cup-to-grams.ts:277-288 | the variants of one key, in order |
| CupLUT.AddVariant | lib/data/cup-to-grams.ts:280-287 | a variant's American forms, then the variant itself |
| CupLUT.WithPlurals | lib/data/cup-to-grams.ts:230-232 | every form followed by its plural |
| CupLUT.WithPluralsAt | lib/data/cup-to-grams.ts:230-232 | the forms sit at even places and their plurals just after them |
| CupLUT.KeyRunAssignments | lib/data/cup-to-grams.ts:220-244 | the loop over the names of a key makes exactly the listed assignments |
| CupLUT.RootRunAssignments | lib/data/cup-to-grams.ts:219-245 | the loop over the chart makes exactly the listed assignments |
| CupLUT.MakeCupLUT | lib/data/cup-to-grams.ts:215-248 | the loops build the table the definition gives |
| CupLUT.AddKey | lib/data/cup-to-grams.ts:220-244 | one chart key, ingredient by ingredient |
| CupLUT.AddIngredient | lib/data/cup-to-grams.ts:221-243 | one ingredient's table, under each of its keywords |
| CupLUT.Register | lib/data/cup-to-grams.ts:241-243 | each keyword is assigned the table |
| CupLUTLaws.PlainVariant | lib/data/cup-to-grams.ts:280-287 | a variant with no American name registers just itself |
| CupLUTLaws.IcingVariant | lib/data/cup-to-grams.ts:280-287 | `icing` sugar registers `powdered`, `confectioners` and `powder` before `icing` |
| CupLUTLaws.IcingYanks | lib/data/cup-to-grams.ts:281-282 | the American names of icing sugar before icing sugar itself are `powdered sugar`, `confectioners sugar` and `powder sugar` |
| CupLUTLaws.SugarYanked | lib/data/cup-to-grams.ts:283 | the three American names of icing sugar lose ` sugar` |
| CupLUTLaws.EntryShares | lib/data/cup-to-grams.ts:267-288 | every word of a raw key, and the star, share the entry's value |
| CupLUTLaws.VariantsShare | lib/data/cup-to-grams.ts:277-288 | every variant of a key is registered with its value |
| CupLUTLaws.BareNumber | lib/data/cup-to-grams.ts:222-223 | a bare number becomes a plain value |
| CupLUTLaws.VariantTableLookup | lib/data/cup-to-grams.ts:256-299 | a lookup in a variant table finds the last value assigned to the key; keys are unique |
| CupLUTLaws.CupLUTLookup | lib/data/cup-to-grams.ts:215-248 | a lookup in the built table finds the last value assigned to the key; keys are unique |
| CupLUTLaws.KeywordsCover | lib/data/cup-to-grams.ts:230-241 | every American form and its plural is a keyword, and so is the ingredient itself (except icing sugar). `barlies` and `parslies` are keywords. Nothing else is |
| CupSearch.SplitSpaces | lib/data/cup-to-grams.ts:306 | `split(/\s+/)`: pieces without spaces |
| CupSearch.SplitSpacesJoin | lib/data/cup-to-grams.ts:306 | splitting words joined by single spaces gives them back |
| CupSearch.KeepLower | lib/data/cup-to-grams.ts:306 | the characters kept are exactly the word's lower-case letters |
| CupSearch.KeepLowerPlain | lib/data/cup-to-grams.ts:306 | a word of lower-case letters is kept whole |
| CupSearch.NormaliseAlphabet | lib/data/cup-to-grams.ts:340 | the normalised phrase holds only letters a to z and spaces |
| CupSearch.NormaliseCanonical | lib/data/cup-to-grams.ts:340 | a phrase already made of lower-case words is unchanged |
| CupSearch.FindWord | lib/data/cup-to-grams.ts:311-314 | the leftmost place where the word stands between word boundaries |
| CupSearch.RemoveWordSpec | lib/data/cup-to-grams.ts:310-319 | null exactly when the word does not occur as a whole word; otherwise the first occurrence is cut out |
| CupSearch.RemoveWordRestores | lib/data/cup-to-grams.ts:310-319 | putting the word back where it was cut out gives the input |
| CupSearch.WordCount | lib/data/cup-to-grams.ts:323-326 | `*` counts 0; any other key counts one more than its spaces |
| CupSearch.SearchLUT | lib/data/cup-to-grams.ts:350-375 | the recursive search with its loop computes the search function |
| CupSearch.VisitEntry | lib/data/cup-to-grams.ts:352-368 | one entry advances the loop as the search function does |
| CupSearch.CupToGrams | lib/data/cup-to-grams.ts:338-348 | the method computes the lookup function |
| CupSearchLaws.ScanImproves | lib/data/cup-to-grams.ts:351-369 | the loop never lowers the best match's count, replaces the best match only with one of a higher running count (the words matched so far, carried across siblings as line 358 does), and takes values from the table |
| CupSearchLaws.SearchImproves | lib/data/cup-to-grams.ts:350-375 | the best match gives way only to a match with a higher running count, whose value the table offers |
| CupSearchLaws.StarTakenLast | lib/data/cup-to-grams.ts:371-374 | the wildcard is taken after the loop, only when the running count beats the loop's best |
| CupSearchLaws.ScanNoWord | lib/data/cup-to-grams.ts:351-369 | a loop in which no key occurs changes nothing |
| CupSearchLaws.NoWordNoMatch | lib/data/cup-to-grams.ts:350-375 | a phrase containing none of the table's words has no match |
| CupSearchLaws.EntryKeepsSound | lib/data/cup-to-grams.ts:355-368 | one entry keeps the best match sound and advances the loop as written |
| CupSearchLaws.ScanFindsLeaf | lib/data/cup-to-grams.ts:355-363 | once the word of a plain entry occurs, the loop ends with a match |
| CupSearchLaws.LeafWordMatches | lib/data/cup-to-grams.ts:350-375 | a phrase with the word of a plain entry has a match |
| CupSearch.ScanIntended | lib/data/cup-to-grams.ts:328-336 | the loop as the comment describes it: each entry counts its own words on top of its path's; the best match changes only to a found match of more words |
| CupSearch.SearchIntended | lib/data/cup-to-grams.ts:328-336 | the same for a whole table with its wildcard |
| CupSearchLaws.ScanIntendedBeats | lib/data/cup-to-grams.ts:334-335 | the corrected loop ends with at least as many words as any match reachable from an entry it visits |
| CupSearchLaws.SearchIntendedBeats | lib/data/cup-to-grams.ts:334-335 | the corrected search ends with at least as many words as any match reachable in its table |
| CupSearchLaws.ScanIntendedSound | lib/data/cup-to-grams.ts:334-335 | a new best match of the corrected loop is reachable from one of its entries, with exactly that many words |
| CupSearchLaws.SearchIntendedSound | lib/data/cup-to-grams.ts:334-335 | a new best match of the corrected search is reachable in its table, with exactly that many words |
| CupSearchLaws.IntendedSearchLongest | lib/data/cup-to-grams.ts:334-335 | from the top, the corrected search finds a reachable match, and no reachable match has more words |
| CupSearchLaws.GramsPerCupSpec | lib/data/cup-to-grams.ts:338-348 | anything melted weighs 240 g per cup; otherwise a result is a value the table offers |
| CupSearchExamples.FlourTableShape | lib/data/cup-to-grams.ts:29-43 | the written-out flour branch has the keys and values the search below relies on |
| CupSearchExamples.SugarTableShape | lib/data/cup-to-grams.ts:44-59 | the same for the sugar branch |
| CupSearchExamples.CornflourTableShape | lib/data/cup-to-grams.ts:70-73 | the same for the corn flour branch |
| CupSearchExamples.PastryFlour | tests/data/cups-to-grams.spec.ts:114 | `pastry flour` weighs 130 g per cup |
| CupSearchExamples.WellSiftedAllPurposeFlour | tests/data/cups-to-grams.spec.ts:153 | `well sifted all purpose flour` weighs 110 g per cup |
| CupSearchExamples.MasaCornFlour | tests/data/cups-to-grams.spec.ts:130 | `masa corn flour` weighs 114 g per cup, through `corn flour` and not `flour` |
| CupSearchExamples.SoftBrownSugar | tests/data/cups-to-grams.spec.ts:150 | `soft brown sugar` weighs 220 g per cup |
| CupSearchExamples.CarriedCountWins | lib/data/cup-to-grams.ts:358 | with `white sugar`, `butter` and `honey` all present, the search as written ends on honey (340) with a count of 3 |
| CupSearchExamples.LongestMatchKept | lib/data/cup-to-grams.ts:334-335 | on the same phrase the corrected search keeps `white sugar` (200), the two-word match |
| CupSearchExamples.WhiteSugarButterHoney | lib/data/cup-to-grams.ts:44-65 | for `white sugar butter honey` over the sugar, butter and honey entries, the search as written finds honey and the corrected one white sugar |
| Measures.CupsIn | lib/measure-finder.ts:62 | the cups a volume measure holds are the same quantity |
| Measures.CupUnitNamed | lib/measure-finder.ts:62 | `cup` names the cup, a volume |
| Measures.GramsMissing | lib/measure-finder.ts:53 | no unit is named `grams`, and the lookup fails with `unit grams does not exist` |
| Measures.CupsConverted | lib/measure-finder.ts:62 | a volume converts to cups, the same quantity |
| Measures.MassNeverInGrams | lib/measure-finder.ts:52-53 | a mass measure never yields grams |
| Measures.GramsOfSpec | lib/measure-finder.ts:51-64 | a mass throws `unit grams does not exist`. A volume of unknown ingredient throws the unknown-ingredient error. Otherwise the result is the cups times the grams per cup |
| Measures.MassGrams | lib/measure-finder.ts:52-53 | a mass measure throws, because no unit is named `grams` |
| Measures.VolumeGrams | lib/measure-finder.ts:55-63 | a volume measure weighs its cups times the grams per cup, or fails |
| Measures.UnknownIngredient | lib/measure-finder.ts:57-61 | an unknown ingredient throws with the context in the message |
| Measures.TableFound | lib/measure-finder.ts:62 | a match on a whole table gives no number |
| Measures.GramsFound | lib/measure-finder.ts:62 | a known ingredient gives the cups times its grams |
| Measures.CupMeasureGrams | lib/measure-finder.ts:62 | n cups weigh n times the grams per cup |
| Measures.TablespoonGrams | lib/measure-finder.ts:62 | n tablespoons weigh n/16 times the grams per cup |
| Measures.LabelIsOwnName | lib/measure-finder.ts:73-78 | the unit word is the short form when flagged, else the name |
| Measures.ShortGramsText | lib/measure-finder.ts:73-78 | grams flagged short print as `<amount> g` |
| Measures.Measure.constructor | lib/measure-finder.ts:28-34 | a new measure holds its arguments, not flagged short |
| Measures.Measure.SetUnitAndAmount | lib/measure-finder.ts:36-39 | the unit and amount are replaced and nothing else changes |
| Measures.Measure.SetUnitAndAmountNamed | lib/measure-finder.ts:36-39 | by name: an unknown name throws and changes nothing |
| Measures.Measure.MarkShortForm | lib/measure-finder.ts:41-43 | only the short-form flag is set |
| Measures.CanonicalAmount | lib/measure-finder.ts:113-114 | an amount is kept exactly when it prints back as the text it was read from |
| Measures.AcceptSpec | lib/measure-finder.ts:112-124 | a match is dropped when its amount does not read back or no unit is found. It throws when the unit lookup throws. Otherwise it gives a measure of that unit and amount, with the match's texts |
| Measures.FoundOk | lib/measure-finder.ts:110-126 | the loop succeeds exactly when no match throws |
| Measures.FoundKept | lib/measure-finder.ts:110-126 | the result holds the accepted matches in text order, and every other match is dropped |
| Measures.NothingAccepted | lib/measure-finder.ts:110-126 | with no accepted match, the result is empty |
| Measures.FoundErrSticks | lib/measure-finder.ts:110-126 | the first throw ends the scan with its message |
| Measures.FindAll | lib/measure-finder.ts:93-129 | the loop returns fresh, distinct measures, one per accepted match, or the first error |
| RecipeConvert.BestMetric | lib/convert.ts:38 | `toBest('metric')` is the readability fold over the metric units |
| RecipeConvert.GramUnitNamed | lib/convert.ts:33 | `gram` names the metric mass unit of short form `g` |
| RecipeConvert.RewrittenSpec | lib/convert.ts:27-40 | a metric measure is kept. A cup becomes grams flagged short, or fails as `toGrams` fails. Any other unit keeps its quantity in the most readable metric unit of its domain |
| RecipeConvert.RewriteErrSticks | lib/convert.ts:26-44 | once a measure fails, the whole conversion fails with its message |
| RecipeConvert.ConvertRecipeText | lib/convert.ts:19-48 | the loop and the oven pass compute the recipe-text function |
| RecipeConvert.NothingToConvert | lib/convert.ts:19-48 | a text with no accepted measure and no oven phrase comes back unchanged |
| RecipeConvert.CupsBecomeGrams | lib/convert.ts:29-34 | the first occurrence of `n cups` becomes `<n times the grams> g` |
| RecipeConvert.UnknownCupsFail | lib/convert.ts:33 | cups of an unknown ingredient make the conversion throw |
| RecipeConvert.MetricReprinted | lib/convert.ts:27-28 | a metric measure is reprinted as amount and unit name |
| RecipeConvert.AbsentMeasureKeepsText | lib/convert.ts:43 | when the original text no longer occurs, nothing is replaced |
| Oven.DigitGasMarkCelsius | lib/util/convert-oven-temperatures.ts:53 | mark 0 gives 107 °C; marks 1 to 9 give their table temperature |
| Oven.ConvertOvenTemperatures | lib/util/convert-oven-temperatures.ts:16-61 | the reassignments and the `matched` flag compute the rule cascade |
| Oven.NoMatchUnchanged | lib/util/convert-oven-temperatures.ts:16-61 | text that none of the three patterns matches comes back unchanged |
| Oven.FirstRuleWins | lib/util/convert-oven-temperatures.ts:19-33 | when the first rule converts, only its first match is rewritten, and the later rules do not matter |
| Oven.SecondRuleWins | lib/util/convert-oven-temperatures.ts:36-47 | `oven to` above 250 becomes `oven to <C>°C`, and the gas-mark rule does not matter |
| Oven.GasMarkRuleLast | lib/util/convert-oven-temperatures.ts:50-58 | the gas-mark rule rewrites its match as the rounded Celsius temperature |
| Oven.HighCelsiusTakenForFahrenheit | lib/util/convert-oven-temperatures.ts:25-27 | above 250 any unit is taken for Fahrenheit, and the unit is renamed `C` or `Celsius` by length |
| Oven.LowOvenToKept | lib/util/convert-oven-temperatures.ts:39-44 | `oven to` at 250 or below leaves the text as it was |
| Oven.CelsiusTextMultipleOf5 | lib/util/convert-oven-temperatures.ts:26 | the printed Celsius temperature is a multiple of five |
| Oven.GasMarkTemperatures | lib/util/convert-oven-temperatures.ts:53 | rounding keeps every table temperature; mark 0 prints 105 |
| Oven.CelsiusTextExamples | tests/util/convert-oven-temperatures.spec.ts:7-13 | 390 °F prints 200 and 350 °F prints 175, with the standard formula |
| Oven.FahrenheitExample | tests/util/convert-oven-temperatures.spec.ts:8 | `390 ' F` becomes `200 ' C` |
| Oven.FahrenheitWordExample | tests/util/convert-oven-temperatures.spec.ts:12 | `390 degrees Fahrenheit` becomes `200 degrees Celsius` |
| Oven.OvenToExample | tests/util/convert-oven-temperatures.spec.ts:13 | `preheat oven to 350` becomes `preheat oven to 175°C` |
| Oven.GasMarkExample | tests/util/convert-oven-temperatures.spec.ts:10 | `gas mark 3` becomes `160°C` |
| Oven.UndefinedDegree | lib/util/convert-oven-temperatures.ts:30 | as written, a match without a degree word prints `undefined` (`200 C` becomes `200 undefinedC`) |
| Oven.TempReplacementIntended | lib/util/convert-oven-temperatures.ts:25-30 | the replacement with an absent degree printed as nothing: it converts exactly when the match's temperature is taken for Fahrenheit, as the code's replacement does |
| Oven.IntendedKeepsUnconverted | lib/util/convert-oven-temperatures.ts:25-30 | with an absent degree printed as nothing, an unconverted match leaves the text as it was and a converted one changes only the number and the unit; with a degree word the corrected replacement agrees with the code |

## Left out

- The regular-expression engine. The patterns that are simple scans
  (`\b` words, `/\s*,\s*/`, `/\s+/`, the fraction rewrites) are modelled
  as explicit scans. The scanner's big pattern in `findAll`, the unit
  pattern matched by `fromString`, and the three oven patterns are inputs:
  the matches they would return.
- `pluralize`, `he.decode`, `fahrenheitToCelsius` and JavaScript's printing
  of numbers (`${x}`, which `toString` and the fraction reader rely on) are
  parameters. Integers are printed exactly, and round-trips through `show`
  are stated against the parameter.
- `+text` and `NaN`: the number read back from a string is the parameter
  `toNumber`. A weight found on a whole table rather than a number (which
  would be `NaN`) is an error "NaN".
- Floating point: all arithmetic is exact over `real`. `Math.log` in the
  score is replaced by a ranking key with the same order.
- Units.ConvertAcrossSystemsExamples: it holds within the tests' tolerance
  rather than to the last bit, because the model is exact.
- AmericanTerms.BritishToAmerican: the lookup `_britishToAmerican[word]`
  (lib/data/american-terms.ts:48) also finds prototype keys such as
  `constructor` or `toString`. The model treats the object as a plain
  dictionary, so those words give just themselves.
- Measures.CanonicalAmount: an amount is kept only when `toNumber` reads a
  real number from it. JavaScript also keeps an amount text `NaN` (what
  `0/0` prints), since `${+"NaN"}` is again `NaN`, and it treats `Infinity`
  the same way. The model has no value for either, so such a match is
  dropped.
- Units.Named: the lookup `nameToUnit[name]` (lib/unit.ts:51, over the plain
  object of lib/unit.ts:256) also finds prototype keys such as
  `constructor` or `toString` and returns that member instead of throwing.
  The model's table holds only the registered names, so those names are
  errors. The `in` test of `Unit.isShortForm` (lib/unit.ts:81) has the same
  gap, as does UnitRegistry's `shortForm` table.
- Units.NamedUnknown: for the same reason, it also covers `constructor` and
  `toString`, which in JavaScript do not throw.
- Exceptions are `Result` errors that carry the source's message. Methods
  that can throw return a `Result`.
- Aliasing: the tables are values. The source shares one table object
  between all the keywords of an ingredient; the model copies the value.
- CupSearchExamples: the worked searches run on the flour, sugar, corn
  flour and `white sugar`/`butter`/`honey` entries written out entry by entry. The equality of those constants
  with the branches of `TheCupLUT` is not proved: unfolding the whole chart
  is beyond the solver's budget. The shape lemmas check the keys and values
  the searches use.
- `Unit.allUnits`, `Unit.regex` and `buildAlternation` only return
  precomputed fields or wrap a pattern in a `RegExp`, and they carry no
  logic of their own. The precompute models their fields.
- `lib/util/convert-units.ts` is not part of this model; it lies outside the
  core.

## Findings

| source | as written | input that shows it | evidently intended | confidence | as-written member | corrected member |
|---|---|---|---|---|---|---|
| lib/unit.ts:280-283 | `if (!(unit.name in shortForm)) shortForm[altname] = unit` checks the unit's name, but the keys are altnames, so every altname is recorded | `Unit.isShortForm('milliliter')` is true | only the first altname of each unit is a short form (the comment on line 280) | not executed | UnitRegistry.ShortFormFinding | UnitRegistry.ShortFormTableKeys |
| lib/util/convert-oven-temperatures.ts:30 | `temp + space1 + deg + space2 + unit` concatenates the optional degree group even when it is absent | `200 C` becomes `200 undefinedC` | an absent degree word prints as nothing | not executed | Oven.UndefinedDegree | Oven.IntendedKeepsUnconverted |
| lib/data/cup-to-grams.ts:358 | `words += wordCount(k)` adds each matched key's words to the running count, which is carried on to the later siblings of that entry | `white sugar butter honey` weighs as honey (340 g per cup, a count of 3) rather than white sugar (200 g, two words) | the match of the largest combination of words wins (the comment on lines 334-335), so each entry counts only its path's words plus its own | not executed | CupSearchExamples.CarriedCountWins | CupSearchLaws.IntendedSearchLongest |
| lib/unit.ts:204 | `if (val <= 1) return 0.5` ranks an amount of exactly 1 with the fractions, below 2.2 | `g.convert(1000).toBest()` gives about 2.2 lb, while tests/unit.spec.ts:115 expects 1 kg | only amounts below 1 score 0.5, as the comment on line 202 says (1000 g should become 1 kg, not 2.2 lb) | not executed | Units.BestMassExample | Units.OneIsKept |
