# Visitor webhook, message cleaner and status badge — a Dafny model

This project models the three pieces of logic in the customer-service
dashboard that make decisions.

- **The visitor webhook** (`app/api/webhook/route.ts`).
  - `POST` takes an arbitrary JSON body from the blog's visit tracker and
    normalises it into one 17-column `visitantes_site` row. Every column is a
    JavaScript `||` chain over candidate payload keys, ending in a literal
    default. The row is inserted, and the handler answers 200, 500 with the
    store's error message, or 500 with a fixed message when anything throws.
  - `OPTIONS` answers the CORS preflight.
- **`cleanHtmlMessage`** (`lib/utils.ts`). It:
  1. deletes `<…>` runs;
  2. decodes a 13-entry entity table, one global replacement per entry in
     table order;
  3. collapses blank lines, then collapses every whitespace run to one space,
     then trims.
- **`getStatusColor`** (`app/page.tsx`): a case-insensitive lookup from a
  conversation status to a Tailwind badge class.

## Modules

- `json.dfy`, module `Json`: JSON values as `request.json()` yields them.
  - Objects are maps, because the last duplicate key wins.
  - It defines JavaScript truthiness and member access (`value.key`).
- `webhook.dfy`, module `Webhook`: the `||` chain and its specification
  `PicksFirstTruthy`, the normalised record, the row, and the POST and
  OPTIONS outcomes. The store, `crypto.randomUUID()` and the clock are
  parameters.
- `html.dfy`, module `Html`:
  - the JavaScript `\s` class as a fixed character set;
  - each string step as a specification function;
  - `Clean`, the whole pipeline as one expression;
  - `CleanHtmlMessage`, a method that rebinds its result step by step and
    loops over the entity table the way the source's `forEach` does. It is
    proved equal to `Clean`.
- `status.dfy`, module `StatusBadge`: ASCII lower-casing and the badge lookup.

## Behaviour the proofs bring out

- The chains test truthiness, not presence. A `0`, `""`, `false` or `null`
  in the payload counts as missing, so `time_spent: 0` falls through to
  `duration`.
- `converted` is copied as is: a truthy string or number is stored in
  `converteu` unchanged.
- A `null` body throws at the first member read. It ends in the catch
  branch (500, nothing inserted). Any other non-object body yields all
  defaults.
- Decoding runs `&amp;` first, so double-escaped text is decoded twice
  (`&amp;lt;` gives `<`).
- Decoding runs after tag stripping, so an escaped tag survives as a real
  tag (`&lt;b&gt;` gives `<b>`). Cleaning is therefore not idempotent:
  cleaning `<b>` again gives the empty string (`EscapedTagNotIdempotent`).
- After decoding, only the words of the text matter: the result is the
  maximal runs of non-whitespace characters joined by single spaces
  (`NormalizeSpace`, `Clean`). The blank-line pass makes no difference to
  that result (`CollapseBlankLinesAbsorbed`).
- The route only answers 200 or 500, with the bodies listed below.

## Model

| member | source | states |
|---|---|---|
| Json.Member | app/api/webhook/route.ts:31-46 | for the keys the route reads, `value.key` yields a value exactly when `value` is an object holding `key`, and then yields that member |
| Json.Truthy | app/api/webhook/route.ts:31-46 | a JSON value is falsy exactly when it is `null`, `false`, `0` or `""`; arrays and objects are truthy |
| Json.TruthyAt | app/api/webhook/route.ts:31-46 | a member is truthy exactly when the body is an object holding the key with a truthy value; a missing member is falsy |
| Webhook.FirstTruthy | app/api/webhook/route.ts:31-46 | a fallback chain yields either its literal default or the truthy value of one of its candidate keys, and the default when no candidate is truthy |
| Webhook.FirstTruthyPicksFirst | app/api/webhook/route.ts:31-46 | a fallback chain over candidate keys yields the value of the first key whose value is truthy, or the literal default when none is |
| Webhook.PicksFirstTruthyUnique | app/api/webhook/route.ts:31-46 | the first-truthy-candidate rule determines a single value |
| Webhook.Normalize | app/api/webhook/route.ts:30-48 | each of the 16 payload-derived fields follows its own chain, with the keys in source order and the source's default (fresh UUID, blog URL, "N/A", "Página inicial", 0, "direto", null, "desktop", false, "visualizacao", now); `criado_em` is always the current time |
| Webhook.NoTruthyCandidateGivesDefaults | app/api/webhook/route.ts:31-46 | a body with no truthy candidate key yields exactly the record of defaults |
| Webhook.NonObjectGivesDefaults | app/api/webhook/route.ts:31-46 | a boolean, number, string or array body has no members and yields all defaults |
| Webhook.NormalizeReadsOnlyCandidates | app/api/webhook/route.ts:30-48 | two bodies that agree on the truthy values of the 30 candidate keys give the same record |
| Webhook.FalsyMemberIsAbsent | app/api/webhook/route.ts:31-46 | setting any key to a falsy value gives the same record as removing it |
| Webhook.OtherKeysDropped | app/api/webhook/route.ts:30-52 | a payload key outside the candidate lists never influences the record |
| Webhook.ConvertedNotCoerced | app/api/webhook/route.ts:44 | `converteu` is the payload's `converted` value itself when that is truthy, and `false` otherwise |
| Webhook.ZeroTimeFallsThrough | app/api/webhook/route.ts:36 | `time_spent: 0` with `duration: 5` gives a stay of 5 |
| Webhook.EmptyCampaignFallsThrough | app/api/webhook/route.ts:38 | `campaign: ""` with no `utm_campaign` gives `null` |
| Webhook.ToRow | app/api/webhook/route.ts:30-52 | the inserted object has exactly the 17 column names as keys |
| Webhook.ColumnsDistinct | app/api/webhook/route.ts:31-47 | the object literal names 17 distinct columns |
| Webhook.CorsHeaders | app/api/webhook/route.ts:19-23 | exactly the three CORS headers: any origin, methods `POST, OPTIONS`, request header `Content-Type` |
| Webhook.JsonResponse | app/api/webhook/route.ts:56-73 | `NextResponse.json(body, {status, headers})` keeps the status and the body, and carries the CORS headers plus `content-type: application/json` and nothing else |
| Webhook.Options | app/api/webhook/route.ts:7-14 | the preflight is 200 with a null body and exactly the three CORS headers with their values |
| Webhook.Post | app/api/webhook/route.ts:17-75 | an insert happens iff the body parsed and is not `null`; it is one row, the normalised record, into `visitantes_site`; the status is 200 iff the store reports no error, else 500; the body is the generic error, the store's message, or the success message with `data`; every response carries the CORS headers |
| Webhook.CorsOnEveryResponse | app/api/webhook/route.ts:7-23 | every POST response carries the same three CORS headers as the preflight |
| Html.StripTags | lib/utils.ts:17 | the result is never longer than the input and has no character the input lacks; no `<` in it is followed by a `>`; text without `<`, and text without `>` (such as `a < b`), is unchanged |
| Html.StripTagsPlainPrefix | lib/utils.ts:17 | text without `<` passes through, whatever follows it |
| Html.StripTagsDropsTag | lib/utils.ts:17 | a complete tag at the start is deleted and stripping goes on after it |
| Html.ReplaceAll | lib/utils.ts:38-39 | a replacement no longer than its pattern never lengthens the text; text without the pattern's first character is unchanged |
| Html.ReplaceAllMatchPrefix | lib/utils.ts:38-39 | a match at the start is replaced and the scan resumes after it |
| Html.ReplaceAllClosedPrefix | lib/utils.ts:38-39 | a prefix that neither contains the pattern at its start nor is a prefix of it is kept, and no match spans it |
| Html.EntitiesWellFormed | lib/utils.ts:20-34 | every table name starts with `&` and is longer than its replacement |
| Html.EntityNamesPrefixFree | lib/utils.ts:20-34 | no entity name is a prefix of another |
| Html.DecodeFrom | lib/utils.ts:37-40 | the passes from one table entry on never lengthen the text and leave text without `&` unchanged |
| Html.DecodeWith | lib/utils.ts:37-40 | decoding never lengthens the text and leaves text without `&` unchanged |
| Html.DecodeFromStep | lib/utils.ts:37-40 | the fold over the table is one global replacement for the current entry followed by the rest of the table |
| Html.DecodePlainPrefix | lib/utils.ts:37-40 | text without `&` is untouched by decoding, whatever follows it |
| Html.EntityDecodes | lib/utils.ts:20-40 | each table entity other than `&amp;` becomes its character, whatever follows it |
| Html.AmpDecodes | lib/utils.ts:20-40 | `&amp;` followed by `&`-free text that does not complete another table name decodes to `&` and that text, unchanged |
| Html.UnknownEntityKept | lib/utils.ts:20-40 | an `&`-sequence that is neither a table name nor a prefix of one is left as is |
| Html.DoubleEscapedDecodedTwice | lib/utils.ts:20-40 | `&amp;` followed by the rest of any other table name decodes to that name's character |
| Html.IsSpace | lib/utils.ts:44-46 | the `\s` class and the set `trim` removes: among ASCII characters exactly space, tab, line feed, vertical tab, form feed and carriage return; beyond them only code points from U+00A0 up |
| Html.BlankLineMatch | lib/utils.ts:44 | a match of `\n\s*\n` starts the text exactly when it starts with `\n` and the whitespace run after it holds another `\n`; the match is whitespace only and ends with a `\n` |
| Html.CollapseBlankLines | lib/utils.ts:44 | never lengthens the text and keeps its first and last characters |
| Html.CollapseBlankLinesKeepsWords | lib/utils.ts:44 | the blank-line pass removes only whitespace: the words (maximal non-whitespace runs) are unchanged |
| Html.CollapseSpaces | lib/utils.ts:45 | the only whitespace left is single spaces, never two adjacent; the result starts (ends) with whitespace exactly when the input does |
| Html.CollapseSpacesKeepsWords | lib/utils.ts:45 | collapsing removes only whitespace: the words are unchanged |
| Html.CollapseSpacesJoinsWords | lib/utils.ts:45 | the result is the words joined by single spaces, with one space in front for leading and one behind for trailing whitespace |
| Html.CollapseBlankLinesAbsorbed | lib/utils.ts:44-45 | collapsing spaces after the blank-line pass gives the same text as collapsing spaces alone |
| Html.TrimStart | lib/utils.ts:46 | the result is a suffix of the input, everything removed is whitespace, and it does not start with whitespace |
| Html.TrimEnd | lib/utils.ts:46 | the result is a prefix of the input, everything removed is whitespace, and it does not end with whitespace |
| Html.Trim | lib/utils.ts:46 | the input with its leading whitespace run and a trailing whitespace run removed and nothing else; the result neither starts nor ends with whitespace, keeps the words, and keeps single spacing |
| Html.NormalizeSpace | lib/utils.ts:43-46 | the whitespace chain yields the words of its input joined by single spaces: trimmed, singly spaced, never longer |
| Html.WordsOfJoin | lib/utils.ts:43-46 | splitting words joined by single spaces gives the same words back, so the chain's output has exactly the input's words |
| Html.NormalizeSpaceFixed | lib/utils.ts:43-46 | trimmed, singly-spaced text is left alone by the whitespace chain |
| Html.NormalizeSpaceIdempotent | lib/utils.ts:43-46 | the whitespace chain is idempotent |
| Html.Decoded | lib/utils.ts:17-40 | stripping then decoding never lengthens the text, and text without `<` and `&` is unchanged |
| Html.Clean | lib/utils.ts:13-49 | the cleaned message is the words of the stripped and decoded text joined by single spaces; "" for "" |
| Html.CleanHtmlMessage | lib/utils.ts:13-49 | the method (strip, loop over the table, whitespace chain) computes exactly `Clean`; empty input gives "" |
| Html.CleanShape | lib/utils.ts:13-49 | every result has exactly the words of the decoded text, joined by single spaces: trimmed, whitespace only as single spaces, never longer than the input, "" for "" |
| Html.PlainTextOnlyWhitespace | lib/utils.ts:13-49 | text without `<` and `&` only has its whitespace normalised |
| Html.EscapedTagNotIdempotent | lib/utils.ts:17-40 | an escaped tag `&lt;t&gt;` cleans to `<t>`, and cleaning that gives "" |
| Html.AmpExample | lib/utils.ts:13-49 | `"A &amp; B"` cleans to `"A & B"` |
| Html.NbspExample | lib/utils.ts:13-49 | `"<b>Hi</b>&nbsp;there"` cleans to `"Hi there"` |
| Html.DoubleEscapeExample | lib/utils.ts:13-49 | `"&amp;lt;"` cleans to `"<"` |
| Html.UnknownEntityExample | lib/utils.ts:13-49 | `"&#039;"` is not in the table and is unchanged |
| Html.NotIdempotentExample | lib/utils.ts:13-49 | `"&lt;b&gt;"` cleans to `"<b>"`, which cleans to `""` |
| StatusBadge.LowerChar | app/page.tsx:59 | a capital ASCII letter becomes its own lower-case letter (code point plus 32); every other character is unchanged |
| StatusBadge.ToLower | app/page.tsx:59 | same length, each character lowered in place |
| StatusBadge.ToLowerNormalises | app/page.tsx:59 | lowering leaves no capital letters and is the identity on text without them |
| StatusBadge.ToLowerIdempotent | app/page.tsx:59 | lowering twice is lowering once |
| StatusBadge.StatusColor | app/page.tsx:58-69 | green iff the lowered status is "finalizado", red iff "abandonado", yellow iff "em andamento", grey otherwise; always one of the four |
| StatusBadge.CaseInsensitive | app/page.tsx:58-69 | statuses differing only in letter case get the same badge |
| StatusBadge.UpperCaseExample | app/page.tsx:59-61 | `"FINALIZADO"` is green |
| StatusBadge.PaddedExample | app/page.tsx:58-69 | `"abandonado "` is grey: the status is not trimmed |

## Left out

- The Supabase client (`lib/supabase.ts`, `createClient`, `.from().insert()`): the store is a function parameter returning `{data, error}`. A store call that throws would land in the catch branch (500); the model's store always answers.
- `createClient()` runs outside the `try` at line 18. Its failure is not modelled.
- `request.json()` is not modelled as a parser: a body that fails to parse is the `Unparseable` request.
- `console.log` and `console.error` are left out: output only.
- `NextResponse` is modelled only as a status, an optional JSON body and the headers. `NextResponse.json` adds `content-type: application/json`, and the model includes that header.
- `crypto.randomUUID()` and `new Date().toISOString()` are parameters.
- Webhook.Normalize: both `toISOString` calls (lines 46 and 47) are modelled as one instant `now`. The source reads the clock twice, so the two values can differ by the time between the calls.
- Json.Member: models `value.key` only for keys that are neither `length` nor the name of an inherited prototype member. For such names JavaScript yields a defined value even on arrays, strings and empty objects (`[1].length`, `({}).toString`). None of the 30 keys the route reads is such a name.
- Json.Json: JSON numbers are reals. Only whether a number is zero matters to the chains, and JSON has no NaN.
- StatusBadge.ToLower: lowers ASCII letters only. For the badge this loses nothing. No target status contains `k`, and the only non-ASCII character that full `toLowerCase` maps to a lone ASCII letter is the Kelvin sign, which becomes `k`. U+0130 (capital I with dot above) lowers to `i` followed by a combining dot above (U+0307); the combining dot stays, and no target status contains it, so the comparison fails either way. Any other non-ASCII character makes the comparison fail either way.
- Strings are sequences of code points, not UTF-16 code units. The cleaner's patterns and whitespace set are all in the Basic Multilingual Plane, so nothing here depends on the difference.
- `formatDate`, `cn`, the React state and rendering of `app/page.tsx`, `app/layout.tsx`, `components/` and the data fetch are left out: presentation, library wrappers and locale formatting.
