# Menu extraction core, modelled in Dafny

The application takes an uploaded text file, such as a WhatsApp chat export or
a plain-text menu, and asks an LLM to extract a structured menu from it. It
validates the model's JSON against a fixed menu schema and stores the result.
This project models the two pieces of real logic in it:

- **The menu schema** (`lib/schema.ts`). A `Menu` has an optional `vendor`,
  an optional `currency` and a non-empty `items` array. Each item has a
  non-empty `name`. It may also have a string `category`, a string
  `description`, a number-or-string `price`, and `options`: an array of
  `{label, price?}` variants. The model has three parts:
  - a JSON datatype;
  - the rules, written once as declarative predicates;
  - a validator that works the way the schema library does. It walks the
    declared keys in order and collects one issue (a path and a reason) per
    broken rule. An accepted value becomes a typed menu, and unknown keys are
    dropped.
- **The extraction route** (`app/api/process/route.ts`):
  - `buildPrompt`;
  - `parseRetryDelaySeconds`, which reads the server's `RetryInfo` delay out
    of a thrown error;
  - `generateWithRetry`, which allows three attempts and, after each 429,
    sleeps for the server delay or `2^attempt * 2` seconds, capped at 30;
  - the JSON salvage step, which parses the text from the first `{` to the
    last `}`;
  - the mapping of every outcome of `POST` to an HTTP status.

The model is organised as follows:

- **Thrown errors.** The code reads thrown errors through optional chaining,
  so they are modelled as arbitrary JSON values. `||`, `??` and truthiness
  follow JavaScript.
- **The completion service.** Each call's outcome (text, or a thrown value)
  comes from a script. The retry loop returns the sleeps it asked for instead
  of sleeping.
- **`JSON.parse` and the database.** Both are function parameters of the
  handler. `parse` returns nothing when `JSON.parse` would throw. `store`
  returns the new id, or nothing when `ensureTables`/`insertMenu` would throw.

Modules: `JsValues` (`js_values.dfy`), `Text` (`text.dfy`), `Schema`
(`schema.dfy`), `Retry` (`retry.dfy`), `Process` (`process.dfy`).

### Behaviour of the code worth knowing

- **Blank model output is answered with 500.** `generateWithRetry` throws
  "Empty response from model" inside its own `try` (route.ts:92). That error
  has no status, so the loop stops and rethrows it (route.ts:102-105), and the
  outer `catch` answers 500 (route.ts:140-142). The `if (!raw)` 502 at
  route.ts:109-111 can therefore never fire (`Process.Status502Iff`).
- **Salvaged text that does not parse is answered with 500.** The second
  `JSON.parse` (route.ts:122) is not guarded, so its exception reaches the
  outer `catch` (`Process.SalvageParseFailureIs500`). Only a missing `{…}`
  span gives 502 (route.ts:119-121).
- **A 429 on the third attempt still sleeps.** The sleep at route.ts:98-99
  runs before `continue`, so after the third 429 the loop sleeps, ends, and
  throws that error (route.ts:105) (`Retry.ThreeRateLimits`).
- **A storage failure is answered with the generic 500.** `ensureTables` and
  `insertMenu` (route.ts:136-137) are not guarded, so their exceptions reach
  the outer `catch` (`Process.StoreFailureIs500`).
- **The success body** is `{ok: true, menuId, menu}` (route.ts:139).

## Model

| member | source | states |
|---|---|---|
| `Schema.Validate` | lib/schema.ts:19-23 | The result is accepted exactly when the declarative rules hold. A rejection carries at least one issue, and every issue points into the input. An accepted menu is well formed and keeps the input's item count and order, with each item's name taken from the input. Written back out as JSON, it is the input with every undeclared key removed. |
| `Schema.MenuIssuesEmpty` | lib/schema.ts:19-23 | No issue is collected exactly when all of these hold: `vendor` and `currency` are absent or strings, `items` is an array of at least one element, and every element is an accepted item. |
| `Schema.ItemIssuesEmpty` | lib/schema.ts:4-17 | An item draws no issue exactly when all of these hold: it is an object with a string `name` of length at least 1; `category` and `description` are absent or strings (null is refused); `price` is absent, a number or a string; and `options`, if present, is an array of accepted options. |
| `Schema.OptionIssuesEmpty` | lib/schema.ts:11-14 | An option draws no issue exactly when it is an object with a string `label` (the empty string allowed) and an absent, number or string `price`. |
| `Schema.EachIssuesEmpty` | lib/schema.ts:10 | An array draws no issues exactly when none of its elements does. |
| `Schema.MenuIssuesLocated` | lib/schema.ts:19-23 | Every issue points into the input. A missing-key issue names an absent key of an existing object. Every other issue names a value that is present. |
| `Schema.ItemLocated` | lib/schema.ts:4-17 | The same holds for the issues of one item. |
| `Schema.OptionLocated` | lib/schema.ts:11-14 | The same holds for the issues of one option. |
| `Schema.EachLocated` | lib/schema.ts:10 | Element issues, re-rooted under their index, still point into the array. |
| `Schema.EachIssuesHas` | lib/schema.ts:22 | An issue of element `i` appears among the array's issues under index `i`. |
| `Schema.ItemIssueReported` | lib/schema.ts:22 | Any issue of item `i` is reported for the menu under `items`, `i`, so one bad item rejects the whole menu. |
| `Schema.BadNameReported` | lib/schema.ts:5 | For item `i`, an issue is reported at `items`, `i`, `name`: Required when the name is missing, TooSmall when it is the empty string, InvalidType when it is not a string. |
| `Schema.EmptyItemsReported` | lib/schema.ts:22 | An empty `items` array is reported as TooSmall at `items` and rejects the menu, whatever `vendor` and `currency` are. |
| `Schema.DecodeMenu` | lib/schema.ts:19-23 | An accepted value decodes to a well-formed menu. It has the input's items in order, each named as in the input. |
| `Schema.MenuRoundTrip` | lib/schema.ts:4-23 | Every well-formed menu, written back out as JSON, validates to itself. |
| `Schema.ItemRoundTrip` | lib/schema.ts:4-17 | An item with a non-empty name, written as JSON, is accepted and decodes back to itself. |
| `Schema.OptionRoundTrip` | lib/schema.ts:11-14 | An option written as JSON is accepted and decodes back to itself. |
| `Schema.MenuDecodeEncode` | lib/schema.ts:19-23 | Decoding an accepted menu and writing it out again gives the input with every key the schema does not declare removed, at every level. Nothing declared is lost or altered, and nothing else is kept. |
| `Schema.ItemDecodeEncode` | lib/schema.ts:4-17 | The same for one accepted item, its options included. |
| `Schema.OptionDecodeEncode` | lib/schema.ts:11-14 | The same for one accepted option. |
| `Text.Trim` | app/api/process/route.ts:91 | `trim()` gives an empty result exactly when the text is all JavaScript whitespace. A non-empty result starts and ends with non-whitespace. |
| `Text.TrimIsInfix` | app/api/process/route.ts:91 | The text is the trimmed result with whitespace-only text before and after it, so nothing else is removed. |
| `Text.TrimIdempotent` | app/api/process/route.ts:91 | Trimming twice is trimming once. |
| `Text.IncludesIff` | app/api/process/route.ts:74 | `includes` on a string holds exactly when the substring occurs at some position. |
| `Text.DigitsRoundTrip` | app/api/process/route.ts:78 | The decimal value of a number's decimal spelling is that number. |
| `Text.LeadingDigits` | app/api/process/route.ts:76 | The longest all-digit prefix is all digits and is followed by a non-digit or the end. |
| `Retry.StatusFallback` | app/api/process/route.ts:96-97 | A falsy `status` (absent, null, false, 0, "") falls back: the call is a rate limit exactly when `response.status` is the number 429. A truthy `status` decides alone: the call is a rate limit exactly when it is the number 429, so the string "429" is not one. |
| `Retry.DelayPatternAccepted` | app/api/process/route.ts:76-78 | `<digits>s` and `<digits>.<digits>s` both parse to the value of the whole-seconds digits. |
| `Retry.DelayPatternOnly` | app/api/process/route.ts:76-78 | Only those two shapes parse, and the value is that of the leading digit run. |
| `Retry.DelayExamplesAccepted` | app/api/process/route.ts:75-79 | "43s" gives 43, "1.5s" gives 1, "0s" gives 0. |
| `Retry.DelayExamplesRejected` | app/api/process/route.ts:76 | "43", "1.s", ".5s", "43s " and "" give no delay. |
| `Retry.FindRetryInfo` | app/api/process/route.ts:74 | `find` returns the first entry whose `@type` includes "RetryInfo", with every entry before it a non-match. It returns nothing when no entry matches. It throws only at an entry whose `@type` has no `includes` method, with only non-matches before it. |
| `Retry.FindFirst` | app/api/process/route.ts:74 | A matching entry with only non-matches before it is the one `find` returns. |
| `Retry.CrashAt` | app/api/process/route.ts:74 | An entry whose `@type` test throws, with only non-matches before it, makes `find` throw. |
| `Retry.ParseRetryDelaySeconds` | app/api/process/route.ts:70-84 | A delay is returned only when the error details are an array whose first RetryInfo entry yields that delay. |
| `Retry.FirstRetryInfoDecides` | app/api/process/route.ts:72-79 | The first RetryInfo entry alone decides the result, even when its delay does not parse. |
| `Retry.CrashMeansNoDelay` | app/api/process/route.ts:72-83 | An entry whose `@type` is a number, boolean or object makes `includes` throw. If that entry comes before any RetryInfo entry, the result is null. |
| `Retry.EmptyDetailsHideResponse` | app/api/process/route.ts:72 | An empty `errorDetails` array is truthy, so `response.errorDetails` is never consulted. |
| `Retry.SleepMs` | app/api/process/route.ts:98-99 | The sleep is `min(delay, 30)` seconds in milliseconds, so it is never more than 30 000. |
| `Retry.ZeroDelayIsHonoured` | app/api/process/route.ts:98 | A parsed delay of 0 gives a zero sleep: `??` keeps the 0 where `\|\|` would not. |
| `Retry.DefaultBackoff` | app/api/process/route.ts:98 | With no server delay, the sleeps on attempts 0, 1, 2 are 2 s, 4 s, 8 s. |
| `Retry.AttemptResult` | app/api/process/route.ts:90-93 | Non-blank text yields exactly its trimmed text, which is non-empty. Text that is all whitespace yields the empty-response error, and only such text does. A thrown value is passed on unchanged. |
| `Retry.Attempts` | app/api/process/route.ts:88-104 | The loop makes at most three calls and only ever appends to the sleeps. |
| `Retry.GenerateWithRetry` | app/api/process/route.ts:86-106 | It makes between one and three calls and no more sleeps than calls. Returned text is never blank. |
| `Retry.AttemptsSpec` | app/api/process/route.ts:88-105 | The run follows the script: (a) every call but the last was a 429; (b) an early stop is on a non-429 call; (c) each 429, the third included, is followed by the clamped sleep for its attempt, and nothing else sleeps; (d) the result is the last call's. |
| `Retry.StopSpec` | app/api/process/route.ts:94-102 | A call that is not a 429 ends the loop with its own result. |
| `Retry.LastRateLimitSpec` | app/api/process/route.ts:97-105 | A 429 on the last attempt still sleeps, and then its error is thrown. |
| `Retry.GenerateWithRetrySpec` | app/api/process/route.ts:86-106 | The whole loop follows the script, as in `AttemptsSpec`. |
| `Retry.ThreeRateLimits` | app/api/process/route.ts:88-105 | Three 429s give exactly three calls and three sleeps, and the third error is thrown. |
| `Retry.OtherFailureStops` | app/api/process/route.ts:92-102 | A non-429 failure, or blank output, on the first call gives one call and no sleep, and that error is rethrown. |
| `Retry.ServerDelayBeforeSecondCall` | app/api/process/route.ts:98-99 | After a first-call 429 with server delay `d`, a second call happens, and the sleep before it is `min(d, 30)` seconds. |
| `Retry.TotalSleepBounded` | app/api/process/route.ts:88-100 | The sleeps add up to at most 90 s. |
| `Process.BuildPrompt` | app/api/process/route.ts:13-41 | The prompt is the fixed instructions, then the uploaded text verbatim, then the closing fence. |
| `Process.BuildPromptInjective` | app/api/process/route.ts:13-41 | Different uploads give different prompts. |
| `Process.SalvageSpan` | app/api/process/route.ts:118 | A match runs from the first `{` to the last `}` after it. There is no match exactly when no `{` comes before a `}`. |
| `Process.SalvageCandidate` | app/api/process/route.ts:118-122 | The salvaged text exists exactly when the regex matches, and it starts with `{` and ends with `}`. |
| `Process.SalvageStripsProse` | app/api/process/route.ts:117-122 | Prose around a single `{…}` block, with no `{` before it and no `}` after it, is cut away exactly. |
| `Process.ParseModelOutput` | app/api/process/route.ts:113-123 | A direct parse that succeeds wins. Otherwise the result is one of: no block; a failure of the salvaged parse; or the salvaged parse's value. |
| `Process.Conclude` | app/api/process/route.ts:109-139 | Once the text is in hand, the status is 200, 422, 500 or 502, and at most one menu is stored. |
| `Process.Extract` | app/api/process/route.ts:86-108 | An admitted upload is the text the prompt is built from, and the calls and sleeps are the retry loop's. A thrown generation error is a 500 and stores nothing. Text goes on to the parse, validate and store steps. |
| `Process.Post` | app/api/process/route.ts:43-144 | The status is always one of 200, 400, 422, 500, 502. At most one menu is stored, and at most three calls are made. |
| `Process.RejectedBeforeCalling` | app/api/process/route.ts:44-57 | A missing file, or an empty text field, gives 400. A missing API key gives 500. An unreadable form, or a non-empty text field in place of a file, throws into the outer handler and gives 500. In all these cases no call is made and nothing is stored. |
| `Process.SendsThePrompt` | app/api/process/route.ts:59-90 | An admitted request sends `buildPrompt(text)`, with the retry loop's calls and sleeps. |
| `Process.GenerationFailureIs500` | app/api/process/route.ts:105-108 | Exhausted retries, any other service error and blank output are all 500, and nothing is stored. |
| `Process.Conclude502` | app/api/process/route.ts:113-121 | For non-blank text, 502 is sent exactly when the direct parse fails and no `{` comes before a `}`. Its body is "Model did not return valid JSON". |
| `Process.Status502Iff` | app/api/process/route.ts:109-121 | The "Empty response" 502 is never sent. Every 502 is the invalid-JSON one, under exactly the conditions above. |
| `Process.SalvageParseFailureIs500` | app/api/process/route.ts:118-122 | A salvaged text that does not parse gives 500, not 502, and nothing is stored. |
| `Process.StoreFailureIs500` | app/api/process/route.ts:134-142 | A validated menu that the store fails to save gives the generic 500 "Server error", after that one menu was handed to the store. |
| `Process.ConcludeStores` | app/api/process/route.ts:126-139 | 422 is sent exactly when a parsed value is refused; it carries the issues and the raw text and stores nothing. Only a validated menu is stored. 200 is sent exactly when the store returned an id, and it carries that id and the stored menu. |
| `Process.PostAdmitted` | app/api/process/route.ts:43-66 | Past the file and key checks, the handler is the extraction. |
| `Process.ValidationFailureIs422` | app/api/process/route.ts:126-132 | A refused parsed value gives 422 with a non-empty issue list and the raw text. Nothing is stored. |
| `Process.StoresOnlyValidated` | app/api/process/route.ts:126-137 | A 422 stores nothing. Anything stored is the well-formed menu the validator returned for the parsed text. |
| `Process.SuccessIff` | app/api/process/route.ts:134-139 | 200 is sent exactly when every step succeeded. The body carries the store's id and the validated menu, which is the one stored. |

## Left out

- `lib/db.ts`: the connection pool, `ensureTables`, `insertMenu`, `listMenus` and `getMenu` are SQL run by the database. The handler sees them only as the `store` parameter, which returns an id or nothing.
- `app/page.tsx`, `app/layout.tsx`: presentation only.
- `app/api/list/route.ts`, `app/api/menu/route.ts`, `app/api/test-dns/route.ts`: routing glue over the database, HTML templating and a DNS lookup.
- `JSON.parse` is a parameter (`parse`). `Number.isFinite` and JavaScript's 64-bit floating point are not modelled: delays are unbounded naturals, and JSON numbers are reals with no NaN or Infinity.
- The completion service (`GoogleGenerativeAI`, the model name from `GEMINI_MODEL`, `temperature: 0`, `responseMimeType`) is represented only by the script of call outcomes. The script must have an outcome for each of the three possible calls.
- `setTimeout`-based `sleep` is recorded as the requested milliseconds instead of being performed. `async`/`await` ordering and concurrency between requests are not modelled.
- The UTF-8 decoding of the upload is not modelled: an upload is given as its decoded text. JavaScript strings are UTF-16 code units, while the model uses Unicode code points, which makes no difference to `trim`, `includes` or the regular expressions used here.
- Issue messages and the schema library's other issue fields are not modelled. An issue is a path and one of four reasons: Required, InvalidType, TooSmall, InvalidUnion. The order of issues follows the schema library's key-by-key checking.
- `console.error` logging in the outer `catch` is not modelled.
- `Retry.ParseRetryDelaySeconds`: its own contract states only the direction "a delay implies a first RetryInfo entry that yields it". The converse is `Retry.FirstRetryInfoDecides`.
