# Query-parameter mapper of the image handler

The image handler accepts legacy query strings such as
`?format=webp&fit=cover&width=300&height=0`. Its `QueryParamMapper` class turns them into
the nested "image edits" object the rest of the pipeline consumes. Here that is
`{toFormat: "webp", resize: {fit: "cover", width: 300, height: null}}`.

The class has three parts:

- a dispatch table (`QUERY_PARAM_MAPPING`) sends each of nine parameter names to a destination with an optional value transform. A destination is a path of object keys plus a final key;
- a fold (`mapQueryParamsToEdits`) walks the entries in order. For each recognised entry it creates the missing objects on the way, then writes the transformed value. Anything that throws is reported as a Bad-Request `ImageHandlerError`;
- three transforms: `stringToBoolean`, `stringToNullInt` and `zeroStringToNullInt`. The class also defines an unused strict reader, `mapToBoolean`.

The project is split into these modules:

- `Outcomes` (`outcomes.dfy`): `Option` and `Result`.
- `EcmaScript` (`ecmascript.dfy`): the two built-ins the transforms call.
  - `parseInt` with no radix (section 19.2.5 of ECMA-262): white-space trimming, sign, the implicit `0x`/`0X` hex prefix, the longest digit run, and NaN.
  - `String.prototype.toLowerCase` on ASCII letters.
- `Transforms` (`transforms.dfy`): the four transform functions.
- `JsonValues` (`json_values.dfy`): the nested output value with JavaScript truthiness, and the path walk of `current[segment] = current[segment] || {}`.
  - A write into a truthy primitive throws a TypeError in strict-mode code; it is `None` here.
- `QueryParamMapper` (`query_param_mapper.dfy`):
  - the table, the error, and one iteration (`Step`);
  - the fold (`Accumulate`, `MapQueryParams`) and its loop form (`MapQueryParamsToEdits`);
  - the code as written with inherited names (see Findings).
- `MapperProperties` (`mapper_properties.dfy`): an independent reference definition. It keeps the last defined raw value per destination (`LastValues`) and renders it (`Render`).
  - The main theorem: the fold equals the rendered last values.
  - Last-write-wins, the output shape, commutation of independent entries and the grey/gray alias follow from it.

The input is the sequence of `Object.entries(queryParameters)`, in order; a value of
`None` is `undefined`. The model allows repeated names, so it is more general than a real
object.

Two consequences of the code are worth stating up front:

- `parseInt(input)` is called with no radix, so `width=0x1A` gives 26 (`EcmaScript.ParseIntHexExample`).
- `grayscale` and `greyscale` share the destination `greyscale`, so the later entry wins (`MapperProperties.GreyscaleAliasOrderMatters`). Every other pair of entries commutes (`MapperProperties.SwapIndependent`).

## Model

| member | source | states |
|---|---|---|
| `QueryParamMapper.TableShape` | source/image-handler/query-param-mapper.ts:10-23 | every rule writes at the top level or inside `resize`, no final key is `resize`, and no segment or key is a member inherited from `Object.prototype` |
| `MapperProperties.TableDestinations` | source/image-handler/query-param-mapper.ts:14-22 | the address each of the nine names writes, with `grayscale` and `greyscale` both at `greyscale` |
| `QueryParamMapper.Step` | source/image-handler/query-param-mapper.ts:37-51 | an undefined value or unknown name leaves the object alone; a recognised entry throws exactly when the root is no object or the walk meets a truthy primitive, and otherwise leaves its transformed value at its destination |
| `QueryParamMapper.StepAsWritten` | source/image-handler/query-param-mapper.ts:37-42 | as written, an iteration differs from the intended one only by throwing on a defined entry with an inherited name |
| `QueryParamMapper.AccumulateAsWritten` | source/image-handler/query-param-mapper.ts:36-53 | as written, the fold agrees with the intended one whenever it succeeds, and fails where the intended one succeeds only when some defined entry has an inherited name |
| `QueryParamMapper.QueryParamKeysListTable` | source/image-handler/query-param-mapper.ts:24 | `QUERY_PARAM_KEYS` contains exactly the table's names, each once |
| `QueryParamMapper.ApplyTransform` | source/image-handler/query-param-mapper.ts:47-49 | a transformed value is never an object, and with no transform the raw string is written unchanged |
| `QueryParamMapper.Accumulate` | source/image-handler/query-param-mapper.ts:34-53 | the fold starts from `{}`; whenever it does not throw, the result is an object |
| `QueryParamMapper.MapQueryParams` | source/image-handler/query-param-mapper.ts:32-64 | the mapper fails only with the 400 `QueryParameterParsingError`, and it fails exactly when an iteration threw; on success it returns an object |
| `QueryParamMapper.MapQueryParamsToEdits` | source/image-handler/query-param-mapper.ts:32-64 | the loop over the entries computes the same result as the fold |
| `QueryParamMapper.MapQueryParamsAsWritten` | source/image-handler/query-param-mapper.ts:36-62 | the code as written, inherited names included, also fails only with the Bad-Request error |
| `JsonValues.SetPath` | source/image-handler/query-param-mapper.ts:40-51 | a successful walk-and-assign leaves an object at the root (objects have no inherited members here) |
| `JsonValues.SetPathSucceedsExactly` | source/image-handler/query-param-mapper.ts:40-51 | the walk and assignment throw exactly when the root is no object or some node on the path is a truthy primitive |
| `JsonValues.SetPathWrites` | source/image-handler/query-param-mapper.ts:40-51 | after the assignment, the value is found at `path + [key]`, for objects without inherited members |
| `JsonValues.SetPathFrame` | source/image-handler/query-param-mapper.ts:40-51 | every address neither on the way to `path + [key]` nor below it keeps its old value, for objects without inherited members |
| `Transforms.StringToNullInt` | source/image-handler/query-param-mapper.ts:72-74 | the result is null exactly for the empty string |
| `Transforms.ZeroStringToNullInt` | source/image-handler/query-param-mapper.ts:76-78 | the result is null exactly for `""` and `"0"`; any other input behaves as `stringToNullInt` |
| `Transforms.StringToBoolean` | source/image-handler/query-param-mapper.ts:67-70 | `stringToBoolean` is false exactly for `""`, `"0"` and `false` in any mix of letter cases |
| `Transforms.LowerCaseIsZero` | source/image-handler/query-param-mapper.ts:69 | a string lower-cases to `0` exactly when it is `0` |
| `Transforms.LowerCaseIsFalse` | source/image-handler/query-param-mapper.ts:69 | a string lower-cases to `false` exactly when it spells `false` in any mix of cases |
| `Transforms.StringToBooleanFalsyExamples` | source/image-handler/query-param-mapper.ts:67-70 | `""`, `"0"`, `"false"`, `"FALSE"` and `"False"` read as false |
| `Transforms.StringToBooleanTruthyExamples` | source/image-handler/query-param-mapper.ts:67-70 | `"1"`, `"true"`, `"yes"`, `"no"` and `"00"` read as true |
| `Transforms.MapToBoolean` | source/image-handler/query-param-mapper.ts:7-9 | whatever `mapToBoolean` reads as true, `stringToBoolean` reads as true too |
| `Transforms.MapToBooleanIsStricter` | source/image-handler/query-param-mapper.ts:7-9 | whatever `mapToBoolean` accepts, `stringToBoolean` accepts too, but not the other way round (`"yes"`) |
| `Transforms.StringToNullIntOfNumeral` | source/image-handler/query-param-mapper.ts:72-74 | the decimal numeral of any integer reads back as that integer, so `rotate=0` gives 0 and not null |
| `Transforms.ZeroStringToNullIntOfNumeral` | source/image-handler/query-param-mapper.ts:76-78 | the numeral of a non-zero integer reads back as it, and the numeral of 0 gives null |
| `Transforms.ZeroStringToNullIntDoubleZero` | source/image-handler/query-param-mapper.ts:76-78 | only the exact string `0` is null: `00` gives the number 0 |
| `Transforms.ZeroStringToNullIntSignedZero` | source/image-handler/query-param-mapper.ts:76-78 | `+0` gives the number 0 |
| `EcmaScript.TrimStart` | source/image-handler/query-param-mapper.ts:73 | `parseInt`'s trimming removes a prefix of white space and line terminators and stops at the first other character |
| `EcmaScript.DigitRun` | source/image-handler/query-param-mapper.ts:73 | `parseInt` reads the longest prefix of digits of the radix |
| `EcmaScript.ParseIntRoundTrip` | source/image-handler/query-param-mapper.ts:73 | `parseInt` reads the decimal numeral of every integer `n` back as `n` |
| `EcmaScript.ParseIntDecimalPrefix` | source/image-handler/query-param-mapper.ts:73 | `parseInt` reads a numeral and ignores the text after it, unless that text goes on with a digit or turns `0` into a hex prefix |
| `EcmaScript.ParseIntSkipsWhiteSpace` | source/image-handler/query-param-mapper.ts:73 | leading white space never changes the result of `parseInt` |
| `EcmaScript.ParseInt` | source/image-handler/query-param-mapper.ts:73 | a string without any decimal digit parses to NaN; what a numeral parses to is stated by the rows below |
| `EcmaScript.ToLowerCase` | source/image-handler/query-param-mapper.ts:69 | lowering keeps the length, leaves no ASCII capital, and changes a character only by lowering an ASCII capital |
| `EcmaScript.ToLowerCaseIdempotent` | source/image-handler/query-param-mapper.ts:69 | lowering twice is lowering once |
| `EcmaScript.ParseIntTrailingTextExample` | source/image-handler/query-param-mapper.ts:73 | `42px` parses to 42 |
| `EcmaScript.ParseIntWhiteSpaceExample` | source/image-handler/query-param-mapper.ts:73 | a space and a tab followed by `-7` parse to -7 |
| `EcmaScript.ParseIntHexExample` | source/image-handler/query-param-mapper.ts:73 | `0x1A` parses to 26: with no radix, `parseInt` honours the hex prefix |
| `EcmaScript.ParseIntBareHexPrefixExample` | source/image-handler/query-param-mapper.ts:73 | `0x` parses to NaN, not to the `0` before the `x` |
| `MapperProperties.StepRender` | source/image-handler/query-param-mapper.ts:37-51 | one iteration on the rendering of some last values gives the rendering of the last values after that entry |
| `MapperProperties.AccumulateMatchesReference` | source/image-handler/query-param-mapper.ts:34-53 | the fold builds exactly the object holding, at each destination, the transform of the last defined value aimed at it, and nothing else |
| `MapperProperties.MapQueryParamsMatchesReference` | source/image-handler/query-param-mapper.ts:32-64 | `mapQueryParamsToEdits` returns the rendering of the last values |
| `MapperProperties.MapQueryParamsNeverFails` | source/image-handler/query-param-mapper.ts:33-62 | with this table and unknown names ignored, no input makes the mapper throw: no path of a rule runs through a primitive |
| `MapperProperties.LookupDestination` | source/image-handler/query-param-mapper.ts:36-51 | the destination of a recognised name holds the transform of the last defined value aimed at it, or nothing |
| `MapperProperties.LastWriteWins` | source/image-handler/query-param-mapper.ts:36-51 | the last entry writing a destination decides the value found there |
| `MapperProperties.UnwrittenDestinationAbsent` | source/image-handler/query-param-mapper.ts:36-51 | a destination no entry writes is absent from the result |
| `MapperProperties.OutputShape` | source/image-handler/query-param-mapper.ts:14-22 | the result has only the keys `toFormat`, `resize`, `rotate`, `flip`, `flop` and `greyscale` (never `grayscale`); `resize` has only `fit`, `width` and `height` |
| `MapperProperties.NothingRecognisedGivesEmptyEdits` | source/image-handler/query-param-mapper.ts:36-37 | entries that are undefined or have unknown names give `{}` |
| `MapperProperties.SwapIndependent` | source/image-handler/query-param-mapper.ts:36-53 | swapping two neighbouring entries changes nothing unless both are defined and aim at the same destination |
| `MapperProperties.GreyscaleAliasOrderMatters` | source/image-handler/query-param-mapper.ts:21-22 | `grayscale=true` then `greyscale=0` gives `{greyscale: false}`; the reverse order gives `{greyscale: true}` |
| `MapperProperties.ExampleRequested` | source/image-handler/query-param-mapper.ts:14-17 | in `format=webp&fit=cover&width=300&height=0`, each of the four entries is the last writer of its destination |
| `MapperProperties.ExampleWidth` | source/image-handler/query-param-mapper.ts:76-78 | `width=300` gives the number 300 |
| `MapperProperties.ExampleResizeFields` | source/image-handler/query-param-mapper.ts:15-17 | `fit=cover`, `width=300` and `height=0` give `resize: {fit: "cover", width: 300, height: null}` |
| `MapperProperties.ExampleRender` | source/image-handler/query-param-mapper.ts:14-17 | the four values of the example render as `{toFormat: "webp", resize: {...}}` |
| `MapperProperties.WorkedExample` | source/image-handler/query-param-mapper.ts:32-64 | `format=webp&fit=cover&width=300&height=0` maps to `{toFormat: "webp", resize: {fit: "cover", width: 300, height: null}}` |
| `MapperProperties.StepWritesOneLeaf` | source/image-handler/query-param-mapper.ts:40-51 | one recognised entry, for any table and objects without inherited members, puts its transformed value at its destination and changes no unrelated address |
| `MapperProperties.WidthKeepsFit` | source/image-handler/query-param-mapper.ts:15-16 | a `width` entry reuses the `resize` object and keeps the `fit` already in it |
| `MapperProperties.AccumulateIgnoresSkipped` | source/image-handler/query-param-mapper.ts:37 | for any table, an undefined entry or one with an unknown name can be dropped from anywhere without changing the result |
| `MapperProperties.InheritedNamesAreNotRules` | source/image-handler/query-param-mapper.ts:13-23 | no name inherited from `Object.prototype` is a rule of the table |
| `MapperProperties.AsWrittenFailsOnInheritedName` | source/image-handler/query-param-mapper.ts:37-42 | as written, one defined entry with an inherited name such as `constructor` makes the whole call fail with Bad Request |
| `MapperProperties.AsWrittenAgreesWithoutInheritedNames` | source/image-handler/query-param-mapper.ts:36-62 | with no defined entries under inherited names, the code as written and the model agree |
| `MapperProperties.ConstructorQueryRejectedAsWritten` | source/image-handler/query-param-mapper.ts:37-42 | `?constructor=1` is rejected as written, but gives `{}` when unknown names are ignored |

## Left out

- `console.error(error)` (source/image-handler/query-param-mapper.ts:57) is output only; it is not modelled.
- The `ImageEdits`, `ImageHandlerError`, `QueryStringParameters` and `StatusCodes` declarations of `./lib` are not part of this model.
  - The error is a record of status, code and message.
  - `StatusCodes.BAD_REQUEST` is taken to be 400.
- A `null` or `undefined` argument to `Object.entries` is not modelled; the parameter's type excludes it. The input is always a sequence of entries.
- Numbers are unbounded integers. IEEE-754 rounding of very long digit strings is not modelled. Neither is the `-0` that `parseInt("-0")` returns; it reads as 0 here.
- `EcmaScript.ToLowerCase`: lowers ASCII letters only, not full Unicode case mapping.
  - No other character lower-cases into one of the letters of `false` or into `0`.
  - So `stringToBoolean` is modelled exactly (`Transforms.StringToBoolean`).
- `JsonValues.SetPathWrites`, `JsonValues.SetPathFrame` and `MapperProperties.StepWritesOneLeaf` hold of objects without `Object.prototype`.
  - In the source, `current[segment] || {}` also reads inherited members, and `current[key] = value` with the key `__proto__` calls the prototype setter.
  - A table whose path segment or key is an inherited name (`constructor`, `__proto__`, ...) is therefore outside what these lemmas promise.
  - The real table uses no such name (`QueryParamMapper.TableShape`), so the results about it are unaffected.
- The output object is a map, so the insertion order of its keys, and with it the order of a JSON serialisation, is not modelled.
- `Object.entries` lists integer-like own keys first, in ascending order. The model takes the entries in whatever order they are given, so any listing order is covered.

## Findings

| source | as written | input that shows it | evidently intended | confidence | as-written member | corrected member |
|---|---|---|---|---|---|---|
| source/image-handler/query-param-mapper.ts:37-42 | The test `QUERY_PARAM_MAPPING[param]` also finds the members every object inherits from `Object.prototype`. These are `constructor`, `toString`, `__proto__` and the like, and they are truthy. Destructuring then gives `path === undefined`, `for (const segment of path)` throws a TypeError, and the call fails with 400 `QueryParameterParsingError`. | `?constructor=1` | A name that is not a rule is ignored like any other unknown name, and `?constructor=1` gives `{}`. | not executed | `QueryParamMapper.MapQueryParamsAsWritten` (shown by `MapperProperties.ConstructorQueryRejectedAsWritten` and `MapperProperties.AsWrittenFailsOnInheritedName`) | `QueryParamMapper.MapQueryParams` (proved by `MapperProperties.AccumulateIgnoresSkipped` and `MapperProperties.NothingRecognisedGivesEmptyEdits`) |
