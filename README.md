# husnapi v1 request logic in Dafny

This project models the request-processing core of husnapi's v1 router
(`src/v1/index.ts`): a read-only HTTP API over a fixed catalogue of `Name`
records (an identifier, an Arabic-script label, a transliteration and
English/Indonesian translations with a meaning, a tafsir and an optional
insight). The catalogue the server loads once at start-up is a `seq<Name>`
parameter of every handler; the empty sequence is the fallback the server
uses when loading fails.

Modules, one per concern of the router:

- `Wrappers` (`wrappers.dfy`): `Option` (a property that may be absent),
  `Nullable` (a JSON field that is present but may be `null`), `Min`, `Max`.
- `JsString` (`js_string.dfy`): the JavaScript string built-ins the handlers
  call: `trim` (white space = ECMA-262 WhiteSpace and LineTerminator, the set
  `\s` also matches), `toLowerCase` on ASCII letters, `includes`.
- `JsNumber` (`js_number.dfy`): `Number(string)` on decimal integers, with
  the decimal rendering it reads back.
- `Catalogue` (`catalogue.dfy`): the record types, `parseLang`, `parseQuery`
  and `formatName`.
- `FisherYates` (`fisher_yates.dfy`): the shuffle of `/names/random`: a
  specification function and the in-place array loop proved equal to it.
  `Math.random` is replaced by a caller-supplied sequence of draws in
  [0, 1); step `i` picks `floor(draw * (i + 1))`.
- `Routes` (`routes.dfy`): the response envelope and the `/names`,
  `/names/random` and `/names/:id` handlers.

Each envelope satisfies `success == (status == 200)`, and it carries data
exactly when it succeeds (`Envelope.WellFormed`).

Where the written description of the API and the code differ, the model
follows the code:

- The query character class is `[a-z0-9\s-]`, so any white space is
  allowed inside a query, not only single spaces.
- `prop` is tested for truthiness, so `prop=` (empty) behaves like a missing
  `prop`.
- A negative `count` is not capped at 1. It survives `Math.min`, and
  `slice(0, k)` then drops `-k` records from the end.

## Model

| member | source | states |
|---|---|---|
| `JsString.Trim` | src/v1/index.ts:64 | the result is the input minus the white space at both ends: some split of the input into white space, the result and white space exists, and the result has no white space at either end |
| `JsString.TrimUnique` | src/v1/index.ts:64 | every split of a string into white space, a trimmed core and white space yields the core `Trim` returns, so `Trim` matches its reference definition |
| `JsString.Includes` | src/v1/index.ts:94-96 | `includes` is true exactly when the query occurs as a contiguous piece of the string at some position |
| `JsNumber.ParseNumberRoundTrip` | src/v1/index.ts:145 | `Number` applied to the decimal rendering of any integer gives back that integer |
| `Catalogue.ParseLang` | src/v1/index.ts:57-61 | total; returns `Id` exactly when the input is a string whose trimmed, lowercased form is `"id"`, and `En` for everything else (absent, non-strings, `"fr"`, the empty string) |
| `Catalogue.ParseLangAccepts` | src/v1/index.ts:57-61 | a language code in any letter case, with any white space around it, parses to its language |
| `Catalogue.ParseQuery` | src/v1/index.ts:63-68 | the result holds only a-z, 0-9, white space and `-`; it is either `""` or the trimmed, lowercased string input; a string whose trimmed, lowercased form is clean is returned whole (so a string with any bad character gives `""`, with nothing stripped; a non-string gives `""`) |
| `Catalogue.ParseQueryIdempotent` | src/v1/index.ts:63-68 | sanitising a sanitised query returns it unchanged |
| `Catalogue.FormatName` | src/v1/index.ts:70-79 | `id`, `arabic` and `latin` are copied; `meaning` and `tafsir` come from the chosen language's translation; `insight` is `Null` exactly when the source has none and equals the source value otherwise |
| `Routes.Filter` | src/v1/index.ts:90-98 | every kept element is accepted by the callback; every accepted element is kept; nothing is added (a sub-multiset of the input, no longer than it) |
| `Routes.FilterConcat` | src/v1/index.ts:90-98 | filtering keeps collection order: filtering a concatenation is the concatenation of the filtered parts |
| `Routes.FilterKeepsAccepted` | src/v1/index.ts:90-98 | when the callback accepts every element, the filter returns the collection unchanged |
| `Routes.FilterEmpty` | src/v1/index.ts:90-100 | the filter result is empty exactly when the callback accepts no element |
| `Routes.FilterKeepsAllOnEmptyQuery` | src/v1/index.ts:87-89 | the empty query selects every record, in order |
| `Routes.ListNames` | src/v1/index.ts:83-115 | an empty sanitised query returns every record formatted, in collection order; a non-empty query gives 404 with null data exactly when no record's chosen-language meaning, tafsir or insight contains it, and otherwise 200 with the matching records formatted; the status is always 200 or 404 |
| `Routes.RequestedCount` | src/v1/index.ts:120 | `Number(count)` falling back to 1: a non-zero parsed count is kept; a missing, non-string, non-numeric or zero count becomes 1; the result is never 0 |
| `Routes.SampleSize` | src/v1/index.ts:122-133 | for the coerced count, the sample size never exceeds the catalogue size; it is 0 for an empty catalogue; a positive count gives `min(count, n)`; a negative count gives `max(n + count, 0)` |
| `Routes.SampleSizeOfDecimal` | src/v1/index.ts:120-133 | for a count parameter written in decimal: 0 gives `min(1, n)` (one record unless the catalogue is empty), a positive count gives `min(count, n)`, a negative count gives `max(n + count, 0)` |
| `FisherYates.Pick` | src/v1/index.ts:128 | `floor(draw * (i + 1))` for a draw in [0, 1) is an index at most `i` |
| `FisherYates.StepsPermutes` | src/v1/index.ts:127-131 | any number of swap steps leaves the same multiset of elements |
| `FisherYates.Shuffle` | src/v1/index.ts:124-131 | the shuffle has the input's length and multiset: a permutation |
| `FisherYates.ShuffledCopy` | src/v1/index.ts:124-131 | the descending swap loop over a copy yields exactly `Shuffle` of the input, a permutation of it; the input sequence is left unchanged |
| `FisherYates.SampleFromShuffle` | src/v1/index.ts:133 | a prefix of the shuffle has the requested length and takes each record at most as often as the catalogue holds it |
| `Routes.RandomNames` | src/v1/index.ts:117-141 | always 200; returns `SampleSize` records for the coerced count (never more than the catalogue), namely the formatted first records of the shuffled copy, a sub-multiset of the catalogue |
| `Routes.FieldOf` | src/v1/index.ts:175 | recognises exactly the keys of the formatted `name` object: a found field's key is the given string, and no field has the key when none is found |
| `Routes.FindIndex` | src/v1/index.ts:157 | no index exactly when no record has the id; otherwise the index of a record with that id, and no earlier record has it |
| `Routes.SelectProp` | src/v1/index.ts:170-194 | no `prop` (missing or empty) returns the full formatted record; a truthy `prop` gives 400 with null data exactly when it names no key of `name`, and otherwise the single-key object `{prop: value}` |
| `Routes.LookupName` | src/v1/index.ts:143-195 | 400 when the id is not a number; 404 when no record has that id; otherwise the `prop` stage applied to the formatted first record with that id; the status is always 200, 400 or 404 |
| `Routes.LookupFindsRecord` | src/v1/index.ts:143-169 | with unique ids, any id string that reads as a record's id, without `prop`, returns that record formatted |
| `Routes.LookupFindsRecordByDecimalId` | src/v1/index.ts:143-169 | with unique ids, looking up a record's own id written in decimal, without `prop`, returns that record formatted |

## Left out

- `loadNames` and the top-level `await` (src/v1/index.ts:36-55): file
  reading, JSON parsing and logging. The catalogue is a parameter. An empty
  sequence stands for the load-failure fallback.
- `/health` (src/v1/index.ts:197-224): it reports process uptime, wall-clock
  time and rounded memory figures, and holds no logic to verify.
- `src/index.ts`: Express wiring, rate limiting, CORS, the root metadata
  endpoint and the catch-all 404/500 middleware. These are framework
  plumbing. The route ordering that sends `/names/random` to its own handler
  before `/names/:id` is assumed.
- The statistical uniformity of the shuffle: `Math.random` is an oracle of
  draws in [0, 1), and only the permutation property is stated.
- `JsNumber.ParseNumber`: only signed decimal integers with surrounding
  white space are numbers, and the empty string is 0. Fractions, exponents,
  hexadecimal and `Infinity` read as NaN in the model. So `/names/1.0` is a
  400 here where JavaScript looks up id 1, and `count=2.5` gives 1 record
  here where JavaScript gives 2.
- `JsString.Lower`: only ASCII `A`-`Z` are lowered. Full Unicode case
  mapping is not modelled, so a character such as the Kelvin sign, which
  JavaScript lowers to `k`, makes a query invalid here.
- Query parameters that are arrays (`?q=a&q=b`). `Param.Other` stands for a
  non-string, non-array value.
- `Routes.FieldOf`: JavaScript's `in` also accepts inherited keys such as
  `toString`, and extra properties a JSON record might carry. The model
  accepts only `meaning`, `tafsir` and `insight`.
- Record identifiers are modelled as integers, not as JavaScript numbers.
