# gradient-editor in Dafny

A model of the gradient engine of the gradient-editor React component, and
proofs about it. The engine is:

- a recursive-descent parser for CSS gradient text such as
  `radial-gradient(circle, rgba(250,84,28,1) 0%, rgba(54,207,201,1) 25%)`;
- the adapter that turns the parser's tree into the editor's
  `{type, direction, stops}`;
- the stop-list operations the editor and its stop bar run;
- the older regular-expression reader of gradient text;
- the `color2rgba` color normaliser.

The modules follow the source files:

| module | models |
|---|---|
| `Tokens`, `Ast`, `Grammar`, `Parser`, `GrammarFacts` | `src/GradientEditor/parser.ts` |
| `Adapter` | `src/GradientEditor/GradientParser.ts` |
| `Engine`, `Legacy` | `src/GradientEditor/constants.ts` |
| `Panel` | `src/GradientEditor/PanelRender.tsx` |
| `Editor` | `src/GradientEditor/index.tsx` |
| `ColorUtils` | `src/utils/index.ts` |
| `Text`, `Numbers`, `Stops`, `Colors` | what these share |

What `Text`, `Numbers`, `Stops` and `Colors` provide:

- `Text`: JavaScript's string operations.
- `Numbers`: JavaScript numbers, as `Finite(real)` or `NaN`, with printing and `Number(...)`.
- `Stops`: the stop record `(id, color, position)` and the sort by position.
- `Colors`: a stand-in for the `color` library.

The parser appears twice.

- `Grammar` gives each production as a function of the input and a cursor. Its result is one of:
  - a match, with the node and the new cursor;
  - no match, with the cursor left after the skipped white space;
  - the error that is thrown.
- `Parser.ParserState` is the parser as the source runs it. It is an object holding the input and a cursor, which stands for the module-level `input` variable.
  - Its methods scan and consume in place.
  - The listings run as loops.
  - The radial lookahead saves and restores the cursor.
  - Each method is proved to give the same outcome and the same cursor as the `Grammar` function of the same name.

The regular expressions are modelled as follows:

- The parser's token patterns are hand-written recognisers in `Tokens`.
- The legacy reader's patterns are functions in `Legacy`. These follow the leftmost start and the greedy quantifiers of a JavaScript regular expression search.

Ids from `uuid()` are natural numbers that the caller supplies. Positions are JavaScript numbers, so `Number(undefined)` and `Number("left")` are `NaN`, and a sort key of `position || 0` is `OrZero(position)`.

Where the code and its description differ, the model follows the code. One case: `src/GradientEditor/index.tsx:15` imports `ParseGradient` from `./constants`. That module does not export it; `src/GradientEditor/GradientParser.ts` does. The model uses the function of `GradientParser.ts`.

## Model

| member | source | states |
|---|---|---|
| Parser.ParserState.constructor | src/GradientEditor/parser.ts:334-337 | a fresh state whose remaining input is the whole code |
| Parser.ParserState.Consume | src/GradientEditor/parser.ts:330-332 | the remaining input loses its first `size` characters, or becomes empty when it is shorter |
| Parser.ParserState.Scan | src/GradientEditor/parser.ts:314-328 | scanning in place gives the outcome and cursor of `Grammar.Scan` |
| Parser.ParserState.MatchToken | src/GradientEditor/parser.ts:299-312 | in-place `match` agrees with `Grammar.MatchToken` |
| Parser.ParserState.MatchLength | src/GradientEditor/parser.ts:295-297 | px then em, as `Grammar.MatchLength` |
| Parser.ParserState.MatchDistance | src/GradientEditor/parser.ts:287-289 | percent, then a position keyword, then a length, as `Grammar.MatchDistance` |
| Parser.ParserState.MatchNumber | src/GradientEditor/parser.ts:283-285 | agrees with `Grammar.MatchNumber` |
| Parser.ParserState.MatchNumbers | src/GradientEditor/parser.ts:223-240 | the number listing run as a loop agrees with `Grammar.MatchNumbers` |
| Parser.ParserState.MatchRgbCall | src/GradientEditor/parser.ts:265-281 | `rgba(`/`rgb(` with a number list in place agrees with `Grammar.MatchRgbCall` |
| Parser.ParserState.MatchHexColor | src/GradientEditor/parser.ts:261-263 | agrees with `Grammar.MatchHexColor` |
| Parser.ParserState.MatchLiteralColor | src/GradientEditor/parser.ts:257-259 | agrees with `Grammar.MatchLiteralColor` |
| Parser.ParserState.MatchColor | src/GradientEditor/parser.ts:253-255 | hex, rgba, rgb, literal in that order, as `Grammar.MatchColor` |
| Parser.ParserState.MatchColorStop | src/GradientEditor/parser.ts:242-251 | a color then an optional distance, as `Grammar.MatchColorStop` |
| Parser.ParserState.MatchColorStops | src/GradientEditor/parser.ts:223-240 | the color stop listing run as a loop agrees with `Grammar.MatchColorStops` |
| Parser.ParserState.MatchCoordinates | src/GradientEditor/parser.ts:216-221 | agrees with `Grammar.MatchCoordinates` |
| Parser.ParserState.MatchPositioning | src/GradientEditor/parser.ts:205-214 | agrees with `Grammar.MatchPositioning` |
| Parser.ParserState.MatchAtPosition | src/GradientEditor/parser.ts:193-203 | agrees with `Grammar.MatchAtPosition` |
| Parser.ParserState.MatchExtentKeyword | src/GradientEditor/parser.ts:189-191 | agrees with `Grammar.MatchExtentKeyword` |
| Parser.ParserState.MatchEllipse | src/GradientEditor/parser.ts:179-187 | agrees with `Grammar.MatchEllipse` |
| Parser.ParserState.MatchCircle | src/GradientEditor/parser.ts:169-177 | agrees with `Grammar.MatchCircle` |
| Parser.ParserState.MatchShape | src/GradientEditor/parser.ts:143 | agrees with `Grammar.MatchShape` |
| Parser.ParserState.MatchExtentAt | src/GradientEditor/parser.ts:148-154 | agrees with `Grammar.MatchExtentAt` |
| Parser.ParserState.MatchRadialOrientation | src/GradientEditor/parser.ts:142-167 | agrees with `Grammar.MatchRadialOrientation` |
| Parser.ParserState.MatchListRadialOrientations | src/GradientEditor/parser.ts:119-140 | with the cursor saved and restored around the second orientation, agrees with `Grammar.MatchListRadialOrientations` |
| Parser.ParserState.SecondRadialOrientation | src/GradientEditor/parser.ts:128-136 | agrees with `Grammar.SecondRadialOrientation` |
| Parser.ParserState.MatchAngle | src/GradientEditor/parser.ts:115-117 | agrees with `Grammar.MatchAngle` |
| Parser.ParserState.MatchSideOrCorner | src/GradientEditor/parser.ts:111-113 | agrees with `Grammar.MatchSideOrCorner` |
| Parser.ParserState.MatchLinearOrientation | src/GradientEditor/parser.ts:107-109 | agrees with `Grammar.MatchLinearOrientation` |
| Parser.ParserState.MatchOrientation | src/GradientEditor/parser.ts:53-63 | the orientation by gradient kind agrees with `Grammar.MatchOrientation` |
| Parser.ParserState.OpenCall | src/GradientEditor/parser.ts:89-96 | keyword and `(` agree with `Grammar.OpenCall` |
| Parser.ParserState.CloseCall | src/GradientEditor/parser.ts:97-103 | the closing `)` agrees with `Grammar.CloseCall` |
| Parser.ParserState.GradientBody | src/GradientEditor/parser.ts:73-86 | orientation, comma and stops agree with `Grammar.GradientBody` |
| Parser.ParserState.MatchGradient | src/GradientEditor/parser.ts:68-87 | agrees with `Grammar.MatchGradient` |
| Parser.ParserState.MatchDefinition | src/GradientEditor/parser.ts:51-66 | the four gradient kinds in order, as `Grammar.MatchDefinition` |
| Parser.ParserState.MatchListDefinitions | src/GradientEditor/parser.ts:47-49 | the definition listing run as a loop agrees with `Grammar.MatchListDefinitions` |
| Parser.ParserState.GetAST | src/GradientEditor/parser.ts:37-45 | the result of in-place parsing equals `Grammar.GetAST` |
| Parser.GradientParser | src/GradientEditor/parser.ts:334-337 | the exported parser gives exactly `Grammar.GradientParser(code)` |
| Tokens.Recognize | src/GradientEditor/parser.ts:1-22 | a recognised token is a nonempty prefix of the text |
| Tokens.FirstFolded | src/GradientEditor/parser.ts:6-9 | the alternative found is a case-insensitive prefix among those listed, and when none is found no listed one is a prefix |
| Tokens.NumberLen | src/GradientEditor/parser.ts:21 | the number token is a nonempty run of digits and dots |
| Tokens.Unit | src/GradientEditor/parser.ts:10-13 | the match is a signed number followed by the unit; the capture is exactly the number, made of digits and dots with an optional leading `-` |
| Grammar.Skip | src/GradientEditor/parser.ts:317-320 | the cursor moves over exactly the leading white space |
| Grammar.Scan | src/GradientEditor/parser.ts:314-328 | never throws; on no match the cursor is after the white space, on a match it is strictly further on |
| Grammar.MatchToken | src/GradientEditor/parser.ts:299-312 | never throws, stays in the input, and tags the node with the given unit |
| Grammar.MatchLength | src/GradientEditor/parser.ts:295-297 | a length is px or em |
| Grammar.MatchDistance | src/GradientEditor/parser.ts:287-289 | a distance is a percent, a position keyword, px or em |
| Grammar.MatchExtentKeyword | src/GradientEditor/parser.ts:189-191 | an extent keyword node when it matches |
| Grammar.MatchCoordinates | src/GradientEditor/parser.ts:216-221 | always matches, the coordinates being optional |
| Grammar.MatchPositioning | src/GradientEditor/parser.ts:205-214 | a positioning has an x or a y |
| Grammar.MatchAtPosition | src/GradientEditor/parser.ts:193-203 | the only error is "Missing positioning value" |
| Grammar.MatchCircle | src/GradientEditor/parser.ts:169-177 | a circle is a shape node |
| Grammar.MatchEllipse | src/GradientEditor/parser.ts:179-187 | an ellipse is a shape node |
| Grammar.MatchExtentAt | src/GradientEditor/parser.ts:148-154 | an extent node, or no match exactly when no extent keyword is there |
| Grammar.MatchListRadialOrientations | src/GradientEditor/parser.ts:119-140 | one or two radial orientations |
| Grammar.SecondRadialOrientation | src/GradientEditor/parser.ts:128-136 | keeps the first orientation and adds at most one |
| Grammar.MatchOrientation | src/GradientEditor/parser.ts:53-63 | radial kinds give radial orientations, linear kinds linear ones and never an error |
| Grammar.OpenCall | src/GradientEditor/parser.ts:89-96 | no match exactly when the keyword does not match; an error, always "Missing (", exactly when the keyword is not followed by `(` |
| Grammar.CloseCall | src/GradientEditor/parser.ts:97-103 | passes the body's error through; after a body, an error, always "Missing )", exactly when no `)` follows it |
| Grammar.GradientBody | src/GradientEditor/parser.ts:73-86 | at least one stop; an orientation not followed by a comma raises "Missing comma before color stops" |
| Grammar.MatchGradient | src/GradientEditor/parser.ts:68-87 | the node has the matched kind; no match exactly when the keyword is absent |
| Grammar.MatchHexColor | src/GradientEditor/parser.ts:261-263 | a hex color node |
| Grammar.MatchLiteralColor | src/GradientEditor/parser.ts:257-259 | a literal color node |
| Grammar.MatchRgbCall | src/GradientEditor/parser.ts:265-281 | an `rgba` node for `rgba(`, an `rgb` node for `rgb(`, no match exactly when the keyword is absent |
| Grammar.MatchColorStop | src/GradientEditor/parser.ts:242-251 | no color raises "Expected color definition"; a matched color always gives a stop, with or without a distance, and the stop's color is that color |
| Grammar.MatchColorStops | src/GradientEditor/parser.ts:223-240 | a stop listing is an error or at least one stop |
| Grammar.MatchNumbers | src/GradientEditor/parser.ts:223-240 | the only error of a number listing is "One extra comma" |
| Grammar.NumbersAfter | src/GradientEditor/parser.ts:229-235 | a comma not followed by a number raises "One extra comma", the listing's only error; the numbers collected so far stay a prefix |
| Grammar.DefinitionsAfter | src/GradientEditor/parser.ts:229-235 | a comma not followed by a definition raises "One extra comma"; the definitions collected so far stay a prefix |
| Grammar.GetAST | src/GradientEditor/parser.ts:37-45 | input left after the definitions raises "Invalid input not EOF" |
| GrammarFacts.SkipIdempotent | src/GradientEditor/parser.ts:317-320 | skipping white space twice skips no more |
| GrammarFacts.CommaScanCount | src/GradientEditor/parser.ts:314-328 | a comma scan consumes exactly one comma |
| GrammarFacts.ListingCountsCommas | src/GradientEditor/parser.ts:223-240 | a listing of n > 0 numbers consumed n - 1 commas, and an empty one none |
| GrammarFacts.EmptyListingIffNoFirstItem | src/GradientEditor/parser.ts:227 | a listing is empty exactly when its first item does not match |
| GrammarFacts.ParseConsumesAll | src/GradientEditor/parser.ts:37-45 | parsing succeeds exactly when the definitions reach the end of the input, and then returns them |
| GrammarFacts.RadialLookaheadRestores | src/GradientEditor/parser.ts:128-136 | with one radial orientation, a consumed comma is given back: the cursor is at the comma or just after the white space |
| GrammarFacts.RgbaNeverRgb | src/GradientEditor/parser.ts:254 | input beginning `rgba` never gives an `rgb` node |
| GrammarFacts.HexComesFirst | src/GradientEditor/parser.ts:254 | a hex token at the cursor always gives the hex color |
| Adapter.ParseGradient | src/GradientEditor/GradientParser.ts:5-32 | "" and "none" give the defaults without parsing; the parser's error passes through uncaught in both directions; a parse with no definitions (blank text) keeps the defaults |
| Adapter.FirstDefinitionOnly | src/GradientEditor/GradientParser.ts:16-28 | only the first definition is read: the type, the direction, one stop per color stop in order with ids counting up, and a failure exactly when a hex or literal color is joined |
| Adapter.TypeName | src/GradientEditor/GradientParser.ts:18 | the type's text strictly before its first `-` |
| Adapter.TypeNames | src/GradientEditor/GradientParser.ts:18 | `linear`, `radial`, and `repeating` for both repeating kinds |
| Adapter.Direction | src/GradientEditor/GradientParser.ts:19-21 | the first radial orientation's value for a list, otherwise the linear value, none without an orientation |
| Adapter.StopColor | src/GradientEditor/GradientParser.ts:24 | only rgb and rgba colors can be joined; the text is `rgba(`…`)` |
| Adapter.StopColorValues | src/GradientEditor/GradientParser.ts:24 | the text splits back into the color's values at the commas |
| Adapter.StopPosition | src/GradientEditor/GradientParser.ts:25 | NaN without a length |
| Adapter.MapStops | src/GradientEditor/GradientParser.ts:23-27 | one stop per color stop |
| Adapter.MapStopsSpec | src/GradientEditor/GradientParser.ts:23-27 | fails exactly when some color cannot be joined; else stop k has id firstId + k, the joined color and the number of its length |
| Adapter.FromDefinition | src/GradientEditor/GradientParser.ts:17-28 | the only failure of reading a definition is the join `TypeError` |
| Engine.ComputePercentage | src/GradientEditor/constants.ts:136-139 | an integer in [0, 100]; NaN only from NaN |
| Engine.ComputePercentageClamps | src/GradientEditor/constants.ts:136-139 | 0 at or below 0, 100 at or above 100, the nearest integer in between |
| Engine.ComputePercentageFixes | src/GradientEditor/constants.ts:136-139 | the identity on integers in [0, 100] |
| Engine.ComputePercentageIdempotent | src/GradientEditor/constants.ts:136-139 | applying it twice is applying it once |
| Engine.InterpolateColor | src/GradientEditor/constants.ts:34-60 | white with alpha 1 when a color is missing, otherwise an `rgb(` text |
| Engine.InterpolateColorAtStops | src/GradientEditor/constants.ts:50-58 | at either stop's position the result is that stop's color, printed without alpha |
| Engine.LerpAtStops | src/GradientEditor/constants.ts:50-55 | the scale gives the first color at the first position and the second at the second |
| Engine.MixBetween | src/GradientEditor/constants.ts:50-58 | between the positions, every channel, before and after rounding, lies between the end colors' channels |
| Engine.NearestUnique | src/GradientEditor/constants.ts:69-77 | exactly one index is the nearest stop the loop settles on |
| Engine.FindColorByPosition | src/GradientEditor/constants.ts:61-84 | the first color below the first stop, the last above the last, otherwise the interpolation at the lowest nearest index and its predecessor |
| Engine.DefaultStops | src/GradientEditor/constants.ts:17-20 | two sorted transparent white stops at 0 and 50 |
| Colors.DecodeRender | src/GradientEditor/constants.ts:58 | reading the printed color gives back its rounded channels |
| Colors.LerpEnds | src/GradientEditor/constants.ts:53-55 | the mixture is either end color at scale 0 and 1, and channel-wise between them in between |
| Legacy.ParseGradient | src/GradientEditor/constants.ts:87-113 | the type is linear or radial; a missing direction only in the linear fallback with no stops |
| Legacy.ParseGradientBranches | src/GradientEditor/constants.ts:96-112 | linear with the leftmost angle match exactly when the angle pattern matches; radial exactly when only the radial pattern does; otherwise the fallback |
| Legacy.FindDegLeftmost | src/GradientEditor/constants.ts:96 | the angle search finds the leftmost match, and nothing only when no position matches |
| Legacy.FindRadialSome | src/GradientEditor/constants.ts:103 | the radial search fails only when no position matches |
| Legacy.DegAt | src/GradientEditor/constants.ts:96 | a matched direction is digits followed by `deg` |
| Legacy.RadialAt | src/GradientEditor/constants.ts:103 | the captured radial text is nonempty and holds no `)` |
| Legacy.RestAt | src/GradientEditor/constants.ts:96-100 | the trimmed capture neither starts nor ends with white space |
| Legacy.MatchStop | src/GradientEditor/constants.ts:123 | a captured position is a nonempty digit run and the color holds no line break |
| Legacy.Matches | src/GradientEditor/constants.ts:121-124 | at most one stop per segment, each a match of the stop pattern |
| Legacy.MatchesOne | src/GradientEditor/constants.ts:121-124 | a single segment yields its match, or nothing when its trimmed text does not match |
| Legacy.MatchesConcat | src/GradientEditor/constants.ts:121-124 | the matches of two runs of segments are the first run's followed by the second's, so each matching segment contributes exactly its match, in order |
| Legacy.MatchesAll | src/GradientEditor/constants.ts:121-124 | one stop per segment exactly when every trimmed segment matches |
| Legacy.PushStop | src/GradientEditor/constants.ts:122-129 | one loop turn: a matching segment pushes a stop with the next id and moves the current position |
| Legacy.ParseStops | src/GradientEditor/constants.ts:115-133 | the loop's result equals the specification `ParsedStops` |
| Legacy.PushedPlace | src/GradientEditor/constants.ts:121-130 | the rest of the loop appends the stops placed from the remaining segments |
| Legacy.CarryForward | src/GradientEditor/constants.ts:125-128 | ids count up; a stated position is its digits' value; a missing one repeats the previous position, the first starting from 0 |
| Legacy.ParsedPositions | src/GradientEditor/constants.ts:125-128 | every parsed position is a non-negative integer |
| Panel.FirstAfter | src/GradientEditor/PanelRender.tsx:47 | the first stop strictly after the position, with none earlier, or none at all |
| Panel.AddGradientStop | src/GradientEditor/PanelRender.tsx:40-69 | one stop spliced in at the clamped position before the first later stop, the old stops kept in order; its color is the left, the right or the interpolated one along the source's guards |
| Panel.SpliceSorted | src/GradientEditor/PanelRender.tsx:47-65 | splicing a stop at a position of at least 0 keeps a sorted list sorted, `NaN` positions included |
| Panel.MixesStrictlyBetween | src/GradientEditor/PanelRender.tsx:56-61 | interpolation only happens strictly between the neighbours' positions, so it never divides by zero |
| Panel.NeighboursSorted | src/GradientEditor/PanelRender.tsx:49-50 | in a sorted list the neighbours are the stops on either side of the splice point |
| Panel.SetGradientStopPosition | src/GradientEditor/PanelRender.tsx:29-37 | the array is changed in place to the list with the stop moved to the clamped position, sorted |
| Panel.RepositionedProperties | src/GradientEditor/PanelRender.tsx:29-37 | that list is sorted, a permutation of the input with only the moved stop's position changed, and all positions stay numbers |
| Panel.ElementStart | src/GradientEditor/PanelRender.tsx:91 | the grabbed stop's position, 0 when it is absent or NaN |
| Panel.DragTarget | src/GradientEditor/PanelRender.tsx:106 | the stop moves by exactly the mouse's travel |
| Panel.DragStill | src/GradientEditor/PanelRender.tsx:91-106 | a drag without mouse travel leaves a stop at an integer percentage in place |
| Stops.SortInPlace | src/GradientEditor/index.tsx:46-49 | the array's insertion sort in place leaves the stable sort of its old contents by position |
| Stops.InsertLast | src/GradientEditor/index.tsx:46-49 | one insertion step places the element among the sorted prefix and nothing beyond changes |
| Stops.SortByKeyProperties | src/GradientEditor/index.tsx:46-49 | the sort is ordered by `position \|\| 0`, a permutation, and stable (stops of equal key keep their order) |
| Stops.SortByKeyOfSorted | src/GradientEditor/index.tsx:46-49 | a sorted list is left as it is |
| Stops.SortByKeyIdempotent | src/GradientEditor/index.tsx:46-49 | sorting twice is sorting once |
| Stops.IndexOfId | src/GradientEditor/PanelRender.tsx:32 | the first index with the id, or none when no stop has it |
| Editor.ChangeStops | src/GradientEditor/index.tsx:42-44 | the stored list is the sorted list |
| Editor.GenerateGradientValue | src/GradientEditor/index.tsx:71-82 | the text is empty exactly when there are no stops |
| Editor.GeneratedParts | src/GradientEditor/index.tsx:71-82 | the text is `<type>-gradient(`…`)`, and what is inside splits at `", "` into the direction and each stop's color and position in order, for every color in which `", "` does not occur (with its following space) |
| Editor.StopsTextSplits | src/GradientEditor/index.tsx:79-81 | the joined stop texts split back into the head and the stops' parts |
| Editor.CanonicalColorsUnseparated | src/GradientEditor/constants.ts:18-19 | the default and newly added `rgba(255,255,255,…)` colors meet the condition of `GeneratedParts` |
| Editor.JoinedColorUnseparated | src/GradientEditor/GradientParser.ts:24 | an `rgba(…)` color joined from values without spaces meets the condition of `GeneratedParts` |
| Editor.NumberTextNoComma | src/GradientEditor/index.tsx:77-80 | a printed number holds no comma, so it cannot break the split |
| Editor.NewColorStop | src/GradientEditor/index.tsx:51-62 | the last color 10 further on when the last position is a number up to 90, otherwise exactly 100 (`NaN` included); white at 60 on an empty list |
| Editor.AddColor | src/GradientEditor/index.tsx:51-62 | the new list is the sorted list with that stop appended |
| Editor.WithoutId | src/GradientEditor/index.tsx:66 | no stop with the id remains |
| Editor.WithoutIdCount | src/GradientEditor/index.tsx:66 | exactly the stops with the id go and every other stop keeps its count |
| Editor.WithoutPresentId | src/GradientEditor/index.tsx:66 | with unique ids, a present id removes exactly one stop |
| Editor.AbsentId | src/GradientEditor/index.tsx:66 | an absent id changes nothing |
| Editor.RemoveColor | src/GradientEditor/index.tsx:64-69 | at most two stops are kept as they are (the button's guard, index.tsx:193-196), otherwise the sorted list without the id |
| Editor.Changed | src/GradientEditor/index.tsx:96-98 | same length; the stops with the id receive the change and all others are unchanged |
| Editor.ChangeProperty | src/GradientEditor/index.tsx:93-103 | the changed list, sorted only when asked |
| Editor.CapPosition | src/GradientEditor/index.tsx:184-186 | a value above 100 becomes exactly 100; values up to 100 and NaN pass unchanged |
| ColorUtils.ColorToRgba | src/utils/index.ts:3-21 | `rgba…` and texts starting with neither `rgb` nor `#` come back unchanged; `rgb…` and `#…` give a text starting `rgba` |
| ColorUtils.ColorToRgbaIdempotent | src/utils/index.ts:3-21 | normalising twice is normalising once |
| ColorUtils.RgbGainsAlpha | src/utils/index.ts:7-9 | `rgb(v)` becomes `rgba(v,1)` |
| ColorUtils.RgbRewrite | src/utils/index.ts:7-9 | the first `rgb` is replaced by `rgba`, and the result starts `rgba` |
| ColorUtils.ReplaceFirst | src/utils/index.ts:8 | for the first index where the pattern occurs, the text with that occurrence replaced; the text itself when it never occurs |
| ColorUtils.HexColorDecodes | src/utils/index.ts:10-18 | `#rrggbb` gives `rgba(r,g,b,1)` with the pairs' values |
| ColorUtils.HexAlphaRange | src/utils/index.ts:14-17 | a ninth-character alpha is a whole number of hundredths in [0, 1], 0 for `00` and 1 for `ff` |
| ColorUtils.NoHalfwayAlpha | src/utils/index.ts:16 | a/255 never lies halfway between hundredths, so rounding exact values rounds as the doubles would |
| ColorUtils.ParseHexByte | src/utils/index.ts:11-13 | `parseInt` with radix 16 reads a two-digit pair back as its value |
| ColorUtils.ParseHex | src/utils/index.ts:11-15 | `parseInt` with radix 16 gives NaN or an integer |
| ColorUtils.Slice | src/utils/index.ts:11-15 | the clamped `slice`: at most `b - a` characters, exactly `s[a..b]` in range |

## Left out

- React and DOM: rendering, `useState`/`useCallback`, both `useEffect`s (src/GradientEditor/index.tsx:27-40, 84-89), `getBoundingClientRect` and the pixel-to-percent conversion (src/GradientEditor/PanelRender.tsx:72-85), the 10 ms click suppression, and the `InputNumber` widget. These are presentation, time and I/O. So `parseInt(direction)` of the first `useEffect` is not modelled either.
- The `color` library: `Colors.Decode` reads `rgb(…)`/`rgba(…)` with integer channels in 0..255, and `Colors.Render` prints `rgb(r, g, b)` with rounded channels. These stand in for the library; its other formats and its own printing are not modelled.
- `uuid()`: ids are natural numbers that the caller passes in.
- Floating point: positions and channels are exact reals. `Math.round` is `Numbers.Round`. `toFixed(2)` is exact rounding to hundredths, which `ColorUtils.NoHalfwayAlpha` shows agrees on the values it meets. Printing a number (`Numbers.NumberText`) is exact for integers and keeps at most 20 fraction digits otherwise; JavaScript's shortest round-trip printing is not modelled.
- `Array.prototype.sort` is modelled as a stable insertion sort (`Stops.SortInPlace`), which is what the language standard requires of it.
- Panel.SetGradientStopPosition: requires every position to be a number, because the comparator `a - b` gives NaN otherwise and the order is then unspecified; it also requires the current id to be present, since `temp[-1]` is written otherwise.
- Panel.AddGradientStop: requires a nonempty list (`temp[0]` is read). When the color is interpolated, it requires colors the library can read and neighbour positions that are numbers. A neighbour with a `NaN` position, as a parsed stop without a length has, reaches `interpolateColor` with a `NaN` scale, and the color stand-in cannot print that. It works on sequences; `splice` on the copied array is the sequence concatenation.
- Engine.FindColorByPosition: requires the nearest index to be above 0 and its two stops to be interpolable. At index 0 the source reads `colorsArray[-1]` and throws.
- Editor.RemoveColor: the `length > 2` guard of the remove button (src/GradientEditor/index.tsx:193-196) is folded into the operation.
- Legacy.ParseGradient: its own ensures is weak; `Legacy.ParseGradientBranches` states the branches. No lemma takes the legacy reader back through `Editor.GenerateGradientValue`.
- Editor.GradientType: only `linear` and `radial` are modelled. After a repeating gradient is read, the component holds the type `"repeating"` and writes `repeating-gradient(…)`; that state is not represented.
- Editor.GenerateGradientValue: no lemma runs the parser and the adapter on its output. `Editor.GeneratedParts` states only how the text splits back into its parts. A full round trip is not proved because:
  - proving it would take the whole grammar over symbolic text;
  - it does not hold. A `NaN` position prints `NaN%`, which the number token does not read, so the parser stops with "Missing )". A hex or literal color is rejected by the adapter's join. An interpolated `rgb(r, g, b)` color comes back as `rgba(r,g,b)`.
- Editor.GeneratedParts: requires that `", "` not occur in a color followed by its space. The `rgba(…)` colors meet this (`Editor.CanonicalColorsUnseparated`, `Editor.JoinedColorUnseparated`). The `rgb(r, g, b)` text of an interpolated color does not: its parts split at its own `", "`. That the adapter's values are spaceless number tokens is not connected to `Editor.JoinedColorUnseparated`.
- Legacy.BackOff: the greedy `(.*)` is modelled as giving back one character at a time from the longest stretch. The contract states only that the stretch returned is followed by a match; that no longer stretch is followed by one is not stated.
- Legacy.MatchStop: states the shape of what is captured, not that it is the leftmost match of the pattern.
- Grammar.MatchColorStops: the number of stops is not related to the commas consumed; that relation is proved for the number listing only (`GrammarFacts.ListingCountsCommas`).
- The `console.log` of src/GradientEditor/constants.ts:118 is debug output.
- The icon and stylesheet imports, and the `GradientPanel` component, are not part of this model.
