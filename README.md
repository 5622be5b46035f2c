# HFS-NEXT-NATIVE utilities in Dafny

A model of the three utility functions the HFS-NEXT-NATIVE app uses to talk to the
Haofenshu ("HFS") exam-results service, with proofs of what they promise:

- `fillTemplate` (`src/utils/string.ts`): fills the `${name}` placeholders of an endpoint
  URL template from a replacements object. Module `Template`, on top of `Js`, which models
  the JavaScript values the function sees (truthiness, `String(v)`, property access).
  The regular expression `/\$\{(.*?)}/g` is modelled character by character: a placeholder
  starts at `${` and ends at the first `}` after it, provided no line terminator comes
  first (`.` does not match one). Each placeholder is replaced by
  `replacements[key] || ''`, converted to a string, and inserted without being rescanned.
  The model is proved equal to a second definition that follows the global-replace
  loop of `String.prototype.replace` (find the next match from `lastIndex`, copy the text
  before it, insert the replacement, continue after the match).
- `fetchHFSApi` (`src/utils/api.ts`): builds the request (URL filled from `getParams`, the
  two headers, the JSON body only when `postBody` is truthy) in a method that creates the
  `options` object and attaches the body to it afterwards. It then classifies what `fetch`
  brings back into the `{ok, payload, errMsg}` record. Module `Api`. `fetch` is a function
  parameter from the request to its outcome. The outcome is a thrown exception, or a
  response with its `ok` flag, its status text and the result of `res.json()`.
- `formatTimestamp` (`src/utils/time.ts`): prints a calendar date as `year-MM-DD`. Module
  `Time`. The local-time decomposition done by `Date` is an input (`Some(year, monthIndex,
  day)`, or `None` for an Invalid Date). The decimal printing of integers is in module
  `Decimal`, with its inverse.
- The endpoint registry `HFS_APIs` (`src/constants.ts`) is module `Constants`. Module
  `EndpointExamples` fills its templates the way the screens do.

The model follows the code; in particular:

- `fillTemplate` returns the template unchanged when the replacements value is falsy
  (`!replacements`): `0`, `""`, `false`, `null` or `undefined`.
- The request body is attached when `postBody` is truthy, so `postBody: 0` or
  `postBody: ""` sends no body.
- A placeholder's key does not span a line break: in `"${a\nb}"` nothing is replaced.

## Model

| member | source | states |
|---|---|---|
| Js.ToString | src/utils/string.ts:7 | the text a value is converted to is empty exactly for the empty string, and a string converts to itself |
| Js.GetProperty | src/utils/api.ts:34-37 | reading a property throws exactly on `null`/`undefined`; an object yields its field or `undefined`; any other value yields `undefined` |
| Template.CloseFrom | src/utils/string.ts:6 | the lazy `(.*?)}` match ends at a `}` and passes only characters that are neither `}` nor line terminators |
| Template.PlaceholderAt | src/utils/string.ts:6 | a match at `i` starts with `${` and ends at the first `}`, with no line terminator in the key |
| Template.Lookup | src/utils/string.ts:7 | the inserted text is empty exactly when the key is missing or its value is falsy; a string value is inserted as it is |
| Template.FillTemplate | src/utils/string.ts:1-9 | a falsy replacements value returns the template unchanged |
| Template.NextPlaceholder | src/utils/string.ts:6 | the regex search from `lastIndex` finds the leftmost match, with no match before it, or reports that none is left |
| Template.CopiesPlainText | src/utils/string.ts:5-8 | text that holds no placeholder is copied to the output character for character |
| Template.WithoutDollarNoPlaceholder | src/utils/string.ts:6 | a template without `$` contains no placeholder |
| Template.NoPlaceholderUnchanged | src/utils/string.ts:1-9 | a template with no placeholder is returned unchanged for every replacements value |
| Template.LeftmostPlaceholderReplaced | src/utils/string.ts:5-8 | the output is the text before the first placeholder, then that key's value, then the filled rest |
| Template.ReplaceStep | src/utils/string.ts:5-8 | one step of the global replace: text up to the next match, the replacement, then the rest from after the match |
| Template.AgreesWithGlobalReplace | src/utils/string.ts:5-8 | the recursive fill equals the `lastIndex` loop of a global replace, from every position |
| Template.FillTemplateIsGlobalReplace | src/utils/string.ts:5-8 | `fillTemplate` with truthy replacements equals the global-replace definition |
| Template.CloseFromAppend | src/utils/string.ts:6 | searching for `}` inside a suffix finds the same brace, shifted |
| Template.PlaceholderAtAppend | src/utils/string.ts:6 | whether a placeholder starts at a position does not depend on text before it |
| Template.PlaceholderAppend | src/utils/string.ts:6 | a placeholder in a suffix has the same key, and its end is shifted by the prefix length |
| Template.SubstituteAppend | src/utils/string.ts:5-8 | filling from a position never looks back: the text before it does not change the result |
| Template.AppendPlaceholderStep | src/utils/string.ts:5-8 | the placeholder case of the no-look-back property |
| Template.AppendCharStep | src/utils/string.ts:5-8 | the plain-character case of the no-look-back property |
| Template.UnclosedStaysUnclosed | src/utils/string.ts:6 | when no `}` closes the text, filling cannot produce one either |
| Template.UnclosedOpenerKept | src/utils/string.ts:6 | a `${` that is never closed is copied unchanged and does not become a placeholder in the output |
| Template.NoPlaceholderAtFront | src/utils/string.ts:5-8 | a copied character followed by filled text never starts a placeholder, when the inserted values are inert |
| Template.FilledHasNoPlaceholder | src/utils/string.ts:5-8 | when every inserted value is non-empty and has no `$` or `{`, the output has no placeholder left |
| Template.FillTemplateLeavesNoPlaceholder | src/utils/string.ts:1-9 | no `${key}` remains after filling with inert values |
| Template.CloseFromPlain | src/utils/string.ts:6 | a key of ordinary characters is closed by the `}` right after it |
| Template.FillSimplePieces | src/utils/string.ts:5-8 | a template built from plain texts and simple placeholders fills to the texts with each placeholder's value in its place |
| Template.FillTemplatePieces | src/utils/string.ts:1-9 | the same for `fillTemplate` with a replacements object |
| EndpointExamples.FillOneHole | src/utils/string.ts:5-8 | a one-placeholder template fills to its prefix, the key's value and its suffix |
| EndpointExamples.ExamEndpoints | src/constants.ts:4-6 | the exam endpoints share the prefix `https://hfs-be.yunxiao.com/v3/exam/`; the overview and rank-info ones hold the single placeholder `${examId}` |
| EndpointExamples.FillExamEndpoint | src/utils/string.ts:5-8 | an exam endpoint with its one `${examId}` fills to the prefix, the value for `examId` and the rest of the path |
| EndpointExamples.ExamOverviewFilled | src/constants.ts:5 | the exam overview template with `examId: "123"` gives `.../v3/exam/123/overview` |
| EndpointExamples.ExamOverviewWithoutId | src/constants.ts:5 | a missing `examId` leaves an empty path segment |
| EndpointExamples.ExamRankInfoWithZeroId | src/constants.ts:6 | `examId: 0` is falsy and gives an empty segment, not `0` |
| EndpointExamples.ExamRankInfoWithNumber | src/constants.ts:6 | `examId: 42` is printed in decimal |
| EndpointExamples.ExamListUnchanged | src/constants.ts:4 | the exam list URL has no placeholder and is used as it is |
| Decimal.NatToDecimal | src/utils/time.ts:12 | a number prints as digits with no leading zero, and one or two digits exactly for numbers below 10 or 100 |
| Decimal.IntToDecimal | src/utils/time.ts:12 | an integer prints as digits, with a leading `-` exactly when it is negative |
| Decimal.IntToDecimalValue | src/utils/time.ts:12 | the printed digits denote the integer, or its absolute value after the `-` of a negative one, with no leading zero |
| Decimal.IntToDecimalInjective | src/utils/time.ts:12 | different integers, negative ones included, print differently |
| Decimal.DecimalRoundTrip | src/utils/time.ts:12 | reading a printed number back gives the number |
| Decimal.NatToDecimalInjective | src/utils/time.ts:12 | different numbers print differently |
| Api.Headers | src/utils/api.ts:16-19 | exactly two headers: `Content-Type: application/json` and `Hfs-token` with the token as it is |
| Api.RequestFor | src/utils/api.ts:15-26 | the URL is the template filled from `getParams`, the headers are the two above, the method is passed through, and the JSON body is present exactly when `postBody` is truthy |
| Api.RequestOptions.constructor | src/utils/api.ts:20-23 | new options hold the headers and the method and no body |
| Api.RequestOptions.ToRequest | src/utils/api.ts:28 | the request `fetch` receives is the URL with the options' current fields |
| Api.BuildRequest | src/utils/api.ts:15-26 | the URL and the options, after the body is attached in place, make the request `RequestFor` describes |
| Api.Classify | src/utils/api.ts:29-41 | `ok` holds exactly on an HTTP-ok response whose parsed `code` is the number 0; exactly then there is a `payload` (the `data` field) and no `errMsg`; each failure carries the exception text, the status text, the parse error, the null-access error or the `msg` field |
| Api.FetchHfsApi | src/utils/api.ts:3-42 | the result is the classification of what `fetch` returns for the request `RequestFor` describes |
| Api.HttpFailureIgnoresBody | src/utils/api.ts:29-31 | an HTTP failure gives the status text whatever the body is |
| Api.StringZeroCodeFails | src/utils/api.ts:34-37 | the comparison is strict: `code: "0"` is a failure |
| Api.SuccessWithoutData | src/utils/api.ts:34-35 | a success without `data` carries an `undefined` payload |
| Api.FalsyPostBodyIsNoBody | src/utils/api.ts:24-26 | a falsy `postBody` (`false`, `0`, `""`, `null`) sends no body and the same request as an absent one |
| ApiExamples.ExamOverviewRequest | src/utils/api.ts:15-28 | the exam overview GET for exam "123" goes to the filled URL with the token header and no body |
| ApiExamples.SuccessPayload | src/utils/api.ts:33-35 | `{code: 0, data: {foo: 1}}` gives `ok` with payload `{foo: 1}` |
| ApiExamples.ApplicationError | src/utils/api.ts:36-37 | `{code: 1, msg: "bad login"}` gives a failure with `"bad login"` |
| ApiExamples.ServerError | src/utils/api.ts:29-31 | an HTTP 500 gives a failure with its status text |
| ApiExamples.TransportError | src/utils/api.ts:39-41 | a thrown fetch gives a failure with the exception's text |
| ApiExamples.NullBody | src/utils/api.ts:33-41 | a `null` body makes `json_data.code` throw and gives a failure with that error's text |
| ApiExamples.NumberBody | src/utils/api.ts:34-37 | a body that is a number has no `code`: a failure whose `errMsg` is `undefined` |
| Time.Pad | src/utils/time.ts:9-10 | a value below 10 gets exactly one leading `0`, a value of 10 or more is printed unpadded, and 1..99 give two digits |
| Time.FormatTimestamp | src/utils/time.ts:1-13 | an Invalid Date prints `NaN-NaN-NaN`; otherwise the output starts with the year as printed, followed by `-` |
| Time.ParseTimestamp | src/utils/time.ts:12 | reading `year-MM-DD` back gives a month index of at least -1 and a non-negative day |
| Time.PadValue | src/utils/time.ts:9-10 | a padded field of 1..99 is two digits that read back as its value |
| Time.Layout | src/utils/time.ts:12 | in `year-MM-DD` the two separators sit six and three characters from the end, whatever the year |
| Time.FormattedLayout | src/utils/time.ts:12 | the output is the printed year, `-`, the padded month, `-` and the padded day, each at its fixed place from the end |
| Time.ParseFields | src/utils/time.ts:12 | a text with separators at those places and digit fields reads as the date they denote, for a signed or unsigned year |
| Time.FormatParseRoundTrip | src/utils/time.ts:1-13 | for every valid date, negative years included, reading the output back gives the date |
| Time.FormatInjective | src/utils/time.ts:1-13 | two different valid dates never print the same, for every year |
| Time.MonthField | src/utils/time.ts:6-9 | for every year, the field three to five characters from the end is two digits whose value is the 0-based month index plus one, in 1..12 |
| Time.DayField | src/utils/time.ts:7-10 | for every year, the last two characters are two digits whose value is the day |
| Time.DashCount | src/utils/time.ts:12 | joining with two `-` adds exactly two `-` to those of the year |
| Time.YearDashes | src/utils/time.ts:12 | a printed year holds one `-` when it is negative and none otherwise |
| Time.TwoSeparators | src/utils/time.ts:12 | the output has exactly two `-` separators, plus the sign of a negative year |
| Time.InvalidDateNotParsed | src/utils/time.ts:3-12 | `NaN-NaN-NaN` does not read back as a date |
| Time.FirstOfMarch | src/utils/time.ts:1-13 | 1 March 2024 prints as `2024-03-01`, both fields padded |
| Time.ChristmasDay | src/utils/time.ts:1-13 | 25 December 2024 prints as `2024-12-25`, neither field padded |

## Left out

- Network, `await` and promises: `fetch` is a function parameter, and the two awaits become sequential steps. No timeout, retry or cancellation exists to model.
- `JSON.stringify` of `postBody`: the body is the value it serialises (`Body.JsonText`), not its text. Every value of the model is a finite tree of integers, strings, booleans and objects, so serialising cannot throw.
- `res.json()`: its outcome is part of `fetch`'s result (parsed value or rejection text). JSON parsing itself is not modelled.
- Exception texts (`String(e)`) are inputs. This covers the engine's TypeError for reading `code` from a `null` body (`Classify`'s `nullAccessError`).
- Exceptions thrown inside `fillTemplate` are not modelled. In JavaScript a getter or a converted value can throw there, and the `catch` then reports that error as well as fetch, parse and null-access failures.
- Js.JsValue: numbers are unbounded integers (no fractions, NaN, Infinity or `-0`); arrays, functions and Symbols are not modelled.
- Js.ToString: an object always prints as `[object Object]`. JavaScript calls its own `toString`/`valueOf` members, and `String({toString: "x"})` throws a TypeError, so `fillTemplate("${a}", {a: {toString: "x"}})` throws where the model inserts `[object Object]`.
- Js.ToString: a number prints as its plain decimal digits. JavaScript prints numbers of 1e21 or more in exponent form (`1e+21`), and integers above 2^53 are not held exactly.
- Js.GetProperty: an object has only its own fields. Inherited properties are not modelled, so `fillTemplate("${toString}", {})` inserts `""` where JavaScript inserts the text of `Object.prototype.toString`.
- Js.GetProperty: property lookup on a primitive replacements value (`"abc"[key]`, `length`) yields `undefined`.
- Api.Init: the token is a string. src/screens/HomeScreen.tsx:60 passes the un-awaited Promise of `AsyncStorage.getItem` (cast to a string at line 73), which `Init.token` cannot express; that caller is not part of this model.
- Strings are sequences of code points, not UTF-16 code units.
- Date decomposition: `new Date(timestamp)` and its local-time getters depend on the time zone; the model takes their results as input.
- Template.FillTemplateLeavesNoPlaceholder: stated only when every inserted value is non-empty and has no `$` or `{`. Other values can create a new `${...}` from the text around them.
- Screens, AsyncStorage, the login flow, `Promise.all` on the exam screen and `btoa` are callers of the core and are not part of this model.
