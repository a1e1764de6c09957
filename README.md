# Endpoint parsing and context detection for a browser-extension message bridge

A message bridge between the contexts of a browser extension (background page,
content script, popup, options page, devtools panel, injected window,
web-accessible page) addresses each participant by an endpoint token such as
`content-script@12.0`. This project models the three utilities of
`src/utils.ts` that give those tokens and contexts their meaning:

- `parseEndpoint`: an anchored regular expression turns a token into
  `{context, tabId, frameId}`. It never fails: a token outside the grammar gives
  `undefined`, `NaN`, `undefined`.
- `isInternalEndpoint`: the context is one of `content-script`, `background`,
  `devtools` or `web_accessible`.
- `getBackgroundPageType`: a chain of guarded early returns that guesses the
  current context from the window, the current URL, the background-page
  identity check and the manifest.

All three are pure, and the model keeps them as Dafny functions:

- `decimal.dfy` (module `Decimal`): digit strings and their decimal value.
- `js_values.dfy` (module `JsValues`): `undefined` as `Option`, `NaN` as
  `JsNumber.NaN`, string truthiness, `||` and unary `+`.
- `endpoints.dfy` (module `Endpoints`): the pattern as an explicit matcher that
  tries the seven context alternatives in the pattern's order. It is proved
  sound and complete against a declarative grammar (`WellFormed` groups and
  the `Token` they spell), and the grammar is proved unambiguous. The parser
  and the classifier follow.
- `background_page.dfy` (module `BackgroundPage`): the resolver as a function of
  a `Host` record holding everything it reads from the browser.

Two details of the code shape what the model promises:

- `background` is written `(?:background$)`, so it matches only as the whole
  string: `background@1` is not an endpoint (`BackgroundOnlyExact`).
- The popup page falls back to `action.default_popup` when
  `browser_action.default_popup` is missing and also when it is the empty
  string, because the code uses `||` (`PopupPage`).

## Model

| member | source | states |
|---|---|---|
| `Decimal.LeadingZeroIgnored` | src/utils.ts:11-12 | number coercion of a captured digit group neither rejects nor weighs leading zeros: `0` followed by digits has the value of those digits |
| `JsValues.UnaryPlus` | src/utils.ts:11 | the result is NaN exactly when nothing was captured (`+undefined`); `+` of the decimal rendering of any natural k gives back k |
| `JsValues.Or` | src/utils.ts:40 | `a \|\| b` yields `a` when it is truthy, otherwise `b`; the result is truthy iff either operand is |
| `Endpoints.DigitRun` | src/utils.ts:4 | the greedy `\d+` run: every character before the returned length is a digit and the character at it, if any, is not |
| `Endpoints.MatchSuffix` | src/utils.ts:4 | a suffix the `(?:@(\d+)(?:\.(\d+))?)?$` part accepts consists of well-formed digit groups that spell exactly that suffix |
| `Endpoints.MatchFrom` | src/utils.ts:4 | trying the alternatives in order, any match has well-formed groups (background with no tab part) that spell the input exactly |
| `Endpoints.MatchEndpoint` | src/utils.ts:7 | soundness of `endpoint.match(ENDPOINT_RE)`: a match's groups are well formed and spell the whole input |
| `Endpoints.ParseEndpoint` | src/utils.ts:6-14 | an endpoint with no context is the all-undefined/NaN one; a frame id only occurs with a numeric tab id; a `background` endpoint never carries tab or frame |
| `Endpoints.IsInternalEndpoint` | src/utils.ts:16 | true exactly when the context is content-script, background, devtools or web_accessible; false for popup, options, window and undefined |
| `Endpoints.NamesPrefixFree` | src/utils.ts:4 | no context name is a prefix of another name followed by anything, so at most one alternative can apply to a token |
| `Endpoints.MatchSuffixComplete` | src/utils.ts:4 | every well-formed `@tab(.frame)` suffix is accepted with exactly its own groups |
| `Endpoints.MatchFromFinds` | src/utils.ts:4 | alternatives before a token's own context are skipped and the token's context then matches with the token's groups |
| `Endpoints.MatchComplete` | src/utils.ts:4 | completeness: every token of the grammar matches, and the captured groups are exactly the ones the token was built from |
| `Endpoints.MatchIffInGrammar` | src/utils.ts:4 | the pattern matches a string if and only if the string belongs to the endpoint grammar |
| `Endpoints.TokenInjective` | src/utils.ts:4 | the grammar is unambiguous: two well-formed group sets that spell the same token are equal |
| `Endpoints.ParseTabAndFrame` | src/utils.ts:4-13 | `ctx@n.m`, for a context other than background, gives context ctx, tab id the value of n and frame id the value of m |
| `Endpoints.ParseTabOnly` | src/utils.ts:7-12 | `ctx@n` gives context ctx, tab id the value of n and an undefined frame id |
| `Endpoints.ParseBare` | src/utils.ts:7-12 | a bare context name, background included, gives that context with tab id NaN and frame id undefined |
| `Endpoints.ParseNumbers` | src/utils.ts:11-12 | tab and frame numbers written in decimal are read back as the same numbers |
| `Endpoints.BackgroundOnlyExact` | src/utils.ts:4 | `background` followed by any non-empty text (`@1`, `@1.2`, `x`) does not match and parses to the all-undefined/NaN endpoint |
| `Endpoints.ParseFailsIffOutsideGrammar` | src/utils.ts:7-13 | parsing degrades to undefined/NaN/undefined if and only if the string is outside the grammar; inside it the context is kept |
| `Endpoints.RejectedAfterName` | src/utils.ts:4-13 | a context name followed by text the `@tab(.frame)` part rejects parses to the all-undefined/NaN endpoint |
| `Endpoints.RejectedWithoutName` | src/utils.ts:4-13 | a string shorter than every context name, or starting with a letter no name starts with, parses to the all-undefined/NaN endpoint |
| `Endpoints.ParseRejects` | src/utils.ts:4-13 | `""`, `foo`, `popup@`, `popup@1.` and `popup@a` all parse to the all-undefined/NaN endpoint |
| `Endpoints.ParseLeadingZero` | src/utils.ts:11 | `ctx@0n` has the same tab id as `ctx@n` |
| `Endpoints.UnmatchedNotInternal` | src/utils.ts:16 | a string outside the grammar never parses to an internal endpoint |
| `Endpoints.TokenInternalIff` | src/utils.ts:16 | a parsed token is internal exactly when its context is one of the four internal ones, whatever its tab and frame parts |
| `BackgroundPage.TryBackground` | src/utils.ts:26-36 | the guarded block only ever answers background; it answers exactly when the identity check says the current window or, without a throw, the page is Firefox's generated background page; a throw yields no answer |
| `BackgroundPage.PopupPage` | src/utils.ts:40 | the popup page is `browser_action.default_popup` when that is non-empty, otherwise `action.default_popup`; some popup is configured iff either key is non-empty |
| `BackgroundPage.GetBackgroundPageType` | src/utils.ts:21-60 | the result is one of background, popup, options or web_accessible; background without a window; popup, options and web_accessible only when their own condition holds |
| `BackgroundPage.BackgroundIff` | src/utils.ts:21-59 | background exactly when decided before the manifest or when neither popup nor options path matches and the page is not the extension's own |
| `BackgroundPage.PopupIff` | src/utils.ts:40-44 | popup exactly when not decided before the manifest and the resolved popup path equals the current path |
| `BackgroundPage.OptionsIff` | src/utils.ts:46-49 | options exactly when not decided earlier, the popup path does not match and the resolved options path does |
| `BackgroundPage.WebAccessibleIff` | src/utils.ts:51-57 | web_accessible exactly when nothing earlier fired and the page is on an extension protocol with the extension's own id as host |
| `BackgroundPage.GeneratedPageIsBackground` | src/utils.ts:29-35 | on Firefox's generated background page, with a non-throwing identity check, the answer is background whatever the manifest says |
| `BackgroundPage.ThrowIsAbsorbed` | src/utils.ts:26-36 | a throwing identity check changes nothing away from the generated background page: the answer is the one for a check that found another window |
| `BackgroundPage.ThrowSkipsGeneratedPageCheck` | src/utils.ts:26-36 | a throw also skips the generated-page check: the same generated page gives web_accessible after a throw and background without one |
| `BackgroundPage.PopupBeatsOptions` | src/utils.ts:41-49 | when the popup path matches, the answer is popup whatever the options page is |
| `BackgroundPage.LegacyPopupKeyWins` | src/utils.ts:40 | with a non-empty `browser_action.default_popup`, the `action` key has no influence on the answer |
| `BackgroundPage.WebAccessibleNeedsOwnHost` | src/utils.ts:51-56 | web_accessible implies a `chrome-extension:` or `moz-extension:` protocol and a host equal to `runtime.id` (chrome) or to the base URL's host (moz) |
| `BackgroundPage.LabelIsEndpoint` | src/utils.ts:21-60 | every label the resolver returns is itself a bare endpoint token parsing to that context, and it is internal exactly for background and web_accessible |

## Left out

- `hasAPI` (src/utils.ts:19): a property lookup on the `webextension-polyfill` object, whose contents are not part of this model.
- The browser calls themselves (`getBackgroundPage`, `getManifest`, `getURL`, `runtime.id`) and WHATWG URL parsing: their results are fields of `BackgroundPage.Host`, and the pathname of a resolved manifest page is an arbitrary function `resolvedPathname`.
- `window.location.pathname` and the pathname of `new URL(window.location.href)` are one field, `pathname`; a browser gives them the same value.
- Exceptions outside the guarded block (a missing `browser.runtime`, an unparsable location) are not modelled; the code does not absorb them.
- JavaScript numbers: tab and frame ids are unbounded naturals, so neither the rounding of values beyond 2^53 nor the `Infinity` that a digit string of more than about 309 digits coerces to is modelled.
- JsValues.UnaryPlus: gives the exact decimal value of every digit capture, where a double would round past 2^53 and give `Infinity` past about 309 digits.
- The `Endpoint` and `RuntimeContext` types come from `./types`, which is not part of this model; `Endpoints.Endpoint` and `Endpoints.RuntimeContext` stand in for them.
- Purity (repeated calls give equal results) holds of every Dafny function and needs no lemma.
