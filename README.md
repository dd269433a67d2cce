# Podcast-summary router, modelled in Dafny

This project models the in-memory podcast-summary router of a small
podcast-script service (`backend/src/routes/podcastSummaryRoutes.ts`). The
router keeps a process-lifetime list of `{id, title, textContent}` records,
seeded with three entries, and serves three requests:

- **GET /** lists the records.
- **POST /** validates `textContent`. A value that is missing, empty or not a
  string gives 400. More than 50,000 UTF-16 code units gives 413. A missing
  API key ends the process. Otherwise a prompt built from the text goes to a
  script generator.
  On success the router appends a record whose id is the old length plus
  one, printed in decimal. The record keeps the request's title unchecked
  and stores the *generated script*, not the input text. The reply is 200
  with the script. When the generator throws, nothing is stored. An `Error`
  whose message contains `SAFETY` gives 400 with the message; anything else
  gives 500.
- **DELETE /:id** reads the parameter with `parseInt`, prints it back, and
  filters out every record with that id. If the length did not change, the
  reply is 404. Otherwise it is 200 with the remaining list.

Files:

- `js_runtime.dfy` (module `JsRuntime`): the JavaScript behaviour the
  handlers rely on. It covers truthiness and `typeof` of JSON values, string
  `length` in UTF-16 code units, `includes`, `parseInt` without a radix
  (leading white space, sign, `0x` prefix, longest digit run, NaN) and
  `toString` of integral numbers. It proves `parseInt(String(v)) == v`.
- `podcast_summary_routes.dfy` (module `PodcastSummaryRoutes`): the records,
  replies and the `PodcastSummaryRouter` class. Its field `podcastSummaries`
  is the module-level list; `Get`, `Post` and `Delete` are the handlers,
  with early-return guards in the source's order. The module also holds the
  filter, the DELETE key and their lemmas.
- `podcast_summary_properties.dfy` (module `PodcastSummaryProperties`):
  properties that span several requests.

The generator call is replaced by an input, `generation`: either
`Script(text)` or `Threw(thrown)`. `Post` also returns `generatorInput`:
the text embedded in the prompt the generator was given, or `None` when it
was never asked. The prompt template around it is not modelled. The
API key is the input `apiKeyPresent`, and `process.exit(1)` is the reply
`Exit(1)`.

The router's invariant `Valid()` says that every id is the decimal numeral
of a positive number. It does **not** say ids are distinct, because they
are not. After a DELETE, the next POST numbers from the shorter length and
can reuse an id that is still present (`IdCollisionAfterDelete`). A DELETE
of that id then removes every record that shares it.

The replies and records, as the code builds them:

- POST answers 200 with `{ podcast_script }`.
- DELETE answers 200 with `{ message, podcastSummaries }`, the list that
  remains.
- The stored `textContent` is the generated script, not the request's text.
- The title is stored as sent, without any check.

## Model

| member | source | states |
|---|---|---|
| `PodcastSummaryRoutes.PodcastSummaryRouter.constructor` | backend/src/routes/podcastSummaryRoutes.ts:11-15 | the list starts as the three seeded records with ids "1", "2", "3", and the id invariant holds |
| `PodcastSummaryRoutes.PodcastSummaryRouter.Get` | backend/src/routes/podcastSummaryRoutes.ts:18-20 | GET replies 200 with exactly the current list and changes nothing (no modifies clause) |
| `PodcastSummaryRoutes.PodcastSummaryRouter.Post` | backend/src/routes/podcastSummaryRoutes.ts:33-109 | 400 when `textContent` is not a non-empty string; 413 above 50,000 code units; `Exit(1)` without a key; in those three cases the list is unchanged and the generator is never asked. Otherwise the generator gets a prompt built from the text; the model records the text. On a script the list grows by exactly one record at the end, with id old length + 1, the given title (any JSON value, even absent) and the script, and the reply is 200 with the script. On a throw the list is unchanged and the reply is the failure classification |
| `PodcastSummaryRoutes.PodcastSummaryRouter.Delete` | backend/src/routes/podcastSummaryRoutes.ts:117-129 | the new list is the old one filtered by `String(parseInt(id))`. The reply is 404, with the list unchanged, exactly when no record had that id; otherwise it is 200 with the new list, which is strictly shorter |
| `PodcastSummaryRoutes.GenerationFailureResponse` | backend/src/routes/podcastSummaryRoutes.ts:94-107 | a generator failure yields 400 exactly when it is an `Error` whose message contains `SAFETY`, with that message as details; every other failure yields 500 with the generic message |
| `JsRuntime.MissingOrNotStringIff` | backend/src/routes/podcastSummaryRoutes.ts:37-40 | JavaScript truthiness and `typeof` combine to reject precisely undefined, null, booleans, numbers, arrays, objects and "" |
| `JsRuntime.Truthy` | backend/src/routes/podcastSummaryRoutes.ts:37 | ToBoolean on a JSON value: false exactly for undefined, null, `false`, 0 and the empty string. `MissingOrNotStringIff` combines it with `TypeOf` |
| `JsRuntime.TypeOf` | backend/src/routes/podcastSummaryRoutes.ts:37 | `typeof` gives one of five names, "string" exactly for strings and "object" exactly for null, arrays and objects |
| `PodcastSummaryRoutes.TextLimitBoundary` | backend/src/routes/podcastSummaryRoutes.ts:42-46 | more than 50,000 characters is always over the limit; 50,000 or fewer Basic-Multilingual-Plane characters, exactly 50,000 included, always pass |
| `JsRuntime.Utf16Length` | backend/src/routes/podcastSummaryRoutes.ts:42 | `length` in UTF-16 code units lies between the number of characters and twice that |
| `JsRuntime.Utf16LengthOfBmp` | backend/src/routes/podcastSummaryRoutes.ts:42 | on text without astral characters `length` equals the character count |
| `JsRuntime.Includes` | backend/src/routes/podcastSummaryRoutes.ts:99 | `includes` is true exactly when the search string occurs at some position of the message |
| `PodcastSummaryRoutes.NextId` | backend/src/routes/podcastSummaryRoutes.ts:88 | the id `(length + 1).toString()` that POST assigns is always the decimal numeral of a positive number, a store id |
| `PodcastSummaryRoutes.AppendKeepsStoreIds` | backend/src/routes/podcastSummaryRoutes.ts:88 | the id `length + 1` that POST assigns is a positive decimal numeral, so appending keeps the id invariant |
| `PodcastSummaryRoutes.Without` | backend/src/routes/podcastSummaryRoutes.ts:121 | the filter keeps exactly the records whose id differs from the key, each with as many copies as before, drops every copy of a record with the key, and never lengthens the list |
| `PodcastSummaryRoutes.WithoutConcat` | backend/src/routes/podcastSummaryRoutes.ts:121 | the filter preserves relative order: filtering a concatenation is the concatenation of the filtered parts |
| `PodcastSummaryRoutes.WithoutShrinksIff` | backend/src/routes/podcastSummaryRoutes.ts:119-126 | the length drops exactly when some record has the key; when none has it the list comes back identical |
| `PodcastSummaryRoutes.WithoutRemovesKey` | backend/src/routes/podcastSummaryRoutes.ts:121 | after the filter no record carries the key, so a repeated DELETE of the same id answers 404 |
| `PodcastSummaryRoutes.WithoutKeepsStoreIds` | backend/src/routes/podcastSummaryRoutes.ts:121 | filtering keeps the id invariant |
| `JsRuntime.ParseInt` | backend/src/routes/podcastSummaryRoutes.ts:118 | `parseInt` without a radix: skip leading white space (`TrimStart`), then `ParseSigned` takes an optional `-` or `+`, then `ParseUnsigned` reads radix 16 behind `0x`/`0X` and radix 10 otherwise, the longest digit run, and NaN when there is no digit. Pinned down by `TrimStartIsLongestSpaceRun`, `DigitPrefixIsLongestRun`, `ParseIntOfDigits` and `ParseIntOfNumberToString` |
| `JsRuntime.ParseSigned` | backend/src/routes/podcastSummaryRoutes.ts:118 | the sign step of `parseInt`: `-` negates the unsigned result (NaN stays NaN), `+` is skipped. `ParseIntOfMinusDigits` pins the negative case down |
| `JsRuntime.ParseUnsigned` | backend/src/routes/podcastSummaryRoutes.ts:118 | the digit step of `parseInt`: radix choice, longest digit prefix, NaN on no digit. `ParseIntOfDigits` pins the decimal case down |
| `JsRuntime.TrimStartIsLongestSpaceRun` | backend/src/routes/podcastSummaryRoutes.ts:118 | `parseInt` skips exactly the leading run of white space and line terminators |
| `JsRuntime.DigitPrefixIsLongestRun` | backend/src/routes/podcastSummaryRoutes.ts:118 | `parseInt` reads the longest prefix made of digits of the radix in use, stopping at the first non-digit |
| `JsRuntime.NumberToString` | backend/src/routes/podcastSummaryRoutes.ts:121 | `toString` of an integral number or NaN: "NaN", a `-` before the numeral of a negative, the numeral itself otherwise. `ParseIntOfNumberToString` makes `parseInt` its left inverse and `LeadingCharOfNumber` says what its first character reveals |
| `JsRuntime.DecimalStringFacts` | backend/src/routes/podcastSummaryRoutes.ts:88 | `toString` of a non-negative integer is a non-empty run of decimal digits, starting with `0` only for zero, that denotes that integer |
| `JsRuntime.ParseIntOfDecimal` | backend/src/routes/podcastSummaryRoutes.ts:118 | `parseInt` of a decimal numeral gives its number back |
| `JsRuntime.ParseIntOfDigits` | backend/src/routes/podcastSummaryRoutes.ts:118 | a string made only of decimal digits, leading zeros included, parses as its decimal value |
| `JsRuntime.ParseIntOfNumberToString` | backend/src/routes/podcastSummaryRoutes.ts:118 | `parseInt(String(v))` is `v` for NaN and every integer, negatives included |
| `JsRuntime.DigitsValueLeadingZeros` | backend/src/routes/podcastSummaryRoutes.ts:118 | leading zeros do not change the value of a digit string |
| `PodcastSummaryRoutes.DeleteKey` | backend/src/routes/podcastSummaryRoutes.ts:118-121 | the key DELETE filters on, `parseInt(req.params.id).toString()`. `DeleteKeyIdempotent`, `StoreIdIsOwnKey` and `DeleteMatchesOnlyPositiveKeys` pin it down through `ParseIntOfNumberToString` |
| `PodcastSummaryRoutes.DeleteKeyIdempotent` | backend/src/routes/podcastSummaryRoutes.ts:118-121 | normalising a DELETE key a second time changes nothing |
| `PodcastSummaryRoutes.StoreIdIsOwnKey` | backend/src/routes/podcastSummaryRoutes.ts:118-121 | every id the router assigns normalises to itself, so DELETE with a listed id targets that record |
| `PodcastSummaryRoutes.DeleteKeyDropsLeadingZeros` | backend/src/routes/podcastSummaryRoutes.ts:118 | zeros in front of a decimal numeral are dropped from the key |
| `PodcastSummaryRoutes.LeadingZerosExample` | backend/src/routes/podcastSummaryRoutes.ts:118 | the parameter "007" becomes the key "7" |
| `PodcastSummaryRoutes.LeadingCharOfNumber` | backend/src/routes/podcastSummaryRoutes.ts:118-121 | a printed number starts with a digit 1 to 9 exactly when it is a positive integer |
| `PodcastSummaryRoutes.DeleteMatchesOnlyPositiveKeys` | backend/src/routes/podcastSummaryRoutes.ts:118-126 | in a valid store, DELETE can match only when the parameter parses to a positive integer; "abc", "0" and "-3" always get 404 |
| `PodcastSummaryProperties.PostedRecordIsDeletable` | backend/src/routes/podcastSummaryRoutes.ts:88-121 | the appended record carries the request title and the script, and a DELETE with its id matches, shortens the list and leaves no record with that id |
| `PodcastSummaryProperties.EveryRecordDeletable` | backend/src/routes/podcastSummaryRoutes.ts:117-128 | in a valid store each record's id is its own key, and deleting by it removes that record and shortens the list |
| `PodcastSummaryProperties.IdCollisionAfterDelete` | backend/src/routes/podcastSummaryRoutes.ts:88-121 | deleting "1" from the seed and then posting gives two records with id "3"; deleting "3" then removes both |
| `PodcastSummaryProperties.CreateListDelete` | backend/src/routes/podcastSummaryRoutes.ts:18-128 | POST of a valid text answers 200 with the script; GET then lists the old records plus the new one at the end; DELETE of the new id answers 200 and leaves the old list minus any record sharing the id |

## Left out

- The generator client, its model name and the prompt template are not modelled. The client is a network call into a foreign library; the prompt is only a string passed to it. The generator's outcome is an input instead.
- Environment loading and the API key lookup are not modelled. Only whether a key is present is an input.
- `Exit(1)` ends the process in the source, and the in-memory list is lost with it. The model returns `Exit(1)` and leaves the list as it was.
- Logging, JSON serialisation of replies, Express routing and the error-handling middleware are not modelled. They are I/O plumbing.
- Requests are modelled as one call after another. The source has no locking, and interleaving across `await` is not modelled.
- The request body is taken as already parsed into `title` and `textContent` values. A request with no parsed body at all is not modelled.
- The DELETE parameter is taken after Express has URL-decoded it.
- JSON numbers are exact reals, and `parseInt` results are exact integers. JavaScript rounds integers above 2^53 to a double and prints values of 1e21 or more in exponent form; the model does neither.
- A JSON string may hold an unpaired surrogate (`"\ud800"`), which `JSON.parse` accepts and `.length` counts as one code unit. A Dafny `string` cannot hold one, so such a `textContent` is not modelled. The handlers treat it like any other character, so no outcome depends on it.
- `includes` is evaluated on characters rather than on UTF-16 code units. For the ASCII search string `SAFETY` both give the same answer.
- The zod schema file and the commented-out validation middleware are not part of this model. They are never called by the routes.
- The mobile form screen is not part of this model. It is presentation and a network call.
