# pc-template-react core, modelled in Dafny

This project models the logic at the centre of a React admin template:

- the route table and the route guard: finding the route for a pathname,
  and deciding whether to redirect, where to, and which title to show;
- the session store (token, user profile, login flag) and its persisted
  snapshot;
- the application store (loading flag, theme, locale);
- the expiring key-value wrapper over `localStorage`;
- the decisions of the HTTP client's interceptors: the bearer header, how
  a response settles, and what a transport error does to the session;
- the formatting helpers for phone numbers, dates and relative times;
- the user-agent tests;
- the build script that checks the service modules' exported type names
  for duplicates and for the module-prefix naming rule.

Files, one module each:

| file | module | models |
|---|---|---|
| `wrappers.dfy` | `Wrappers` | `Option` |
| `text.dfy` | `Text` | the JavaScript string built-ins the code relies on: `startsWith`, `endsWith`, `indexOf`/`includes`, `replace` with a string pattern, `split` on one character, ASCII case mapping, `String(n)` and `padStart(2, '0')` |
| `routes.dfy` | `Routes` | `src/router/routes.tsx` |
| `auth_guard.dfy` | `AuthGuard` | `src/router/AuthGuard.tsx` |
| `user_store.dfy` | `UserStore` | `src/store/modules/userStore.ts` |
| `app_store.dfy` | `AppStore` | `src/store/modules/appStore.ts` |
| `storage.dfy` | `Storage` | `src/utils/storage.ts` |
| `request.dfy` | `Request` | `src/utils/request.ts` |
| `format.dfy` | `Format` | `src/utils/format.ts` |
| `device.dfy` | `Device` | `src/utils/device.ts` |
| `check_api_types.dfy` | `CheckApiTypes` | `scripts/check-api-types.js` |

Pure code is modelled as functions with lemmas about them. This covers the
route matcher, the guard's decision, the formatters, the user-agent tests
and the type-name extraction. Code that updates state in place is modelled
as classes whose methods have `modifies` clauses: `UserStore`, `AppStore`,
`Storage`, the request configuration's headers and `window.location.hash`.
Each session-store method is tied to a pure transition on the `UserState`
snapshot. The checker script's loops are methods with loop invariants. They
are proved against specification functions, which are defined declaration
by declaration from the end.

Behaviours of the code that a reader may not expect, all modelled as written:

- Route matching is by declaration order only. An exact match does not
  beat an earlier wildcard, so an earlier `'/*'` shadows a later `'/user'`.
- A `:` segment matches any segment, including the empty one.
- `login` sets the login flag to true even for an empty token; only
  `setToken` derives the flag from the token.
- `updateUserInfo` depends on a profile being present, not on the login
  flag.
- A 401 logs out and sets the location hash to `#/`; it does not navigate
  to `/login`.

JavaScript details that are modelled on purpose:

- A regular expression with `/i` and without `u` folds letter case without
  ever mapping a non-ASCII character onto an ASCII one. For the ASCII
  keywords used here, ASCII case folding is therefore exact.
- `\d` and `\w` are ASCII-only.
- `expire ? … : undefined` treats every non-zero expiry as present,
  including negative ones. A stored deadline of exactly 0 is falsy, so it
  never expires.
- `split('/')` keeps empty pieces.
- `replace` with a string pattern replaces the first occurrence only.
- An object spread copies a property that is present with the value
  `undefined`. This is why a patch's `avatar` and `phone`, the optional
  profile fields, are `Option<Option<…>>`.

## Model

| member | source | states |
|---|---|---|
| Routes.OnlyUserRequiresAuth | src/router/routes.tsx:46-53 | among the table's entries, exactly the `/user` page requires authentication |
| Routes.LoginIsPublic | src/router/routes.tsx:30-37 | the `/login` entry does not require authentication |
| Routes.CatchAllIsLast | src/router/routes.tsx:54-61 | the table has five entries and the `*` catch-all is the last |
| Routes.TableShape | src/router/routes.tsx:21-62 | paths are defined, pairwise distinct and free of `:`; no entry has children; every entry has a title and an explicit `requiresAuth` |
| AuthGuard.FindRouteConfig | src/router/AuthGuard.tsx:14-57 | a route it returns matches the pathname by itself, through the exact, the parameter or the wildcard rule |
| AuthGuard.FirstMatchIndex | src/router/AuthGuard.tsx:15-55 | the index of the first node of a flat list that matches, and no earlier node matches; none exactly when no node matches (the reference search) |
| AuthGuard.FirstMatchAppend | src/router/AuthGuard.tsx:15-55 | searching a concatenation searches the first part and falls through to the second only when the first has no match |
| AuthGuard.FindIsFirstInPreOrder | src/router/AuthGuard.tsx:14-57 | the matcher returns the first node, in depth-first pre-order, that matches; a route's children come right after it and before its later siblings |
| AuthGuard.ResultIsNode | src/router/AuthGuard.tsx:15-56 | any result is a node of the input tree, and the result is undefined exactly when no node of the tree matches |
| AuthGuard.UndefinedPathSearchesChildren | src/router/AuthGuard.tsx:17-54 | a route with an undefined path never matches by itself, but its children are searched before its later siblings |
| AuthGuard.StarMatchesEverything | src/router/AuthGuard.tsx:43-48 | a `*` route matches every pathname, so nothing after it is reached |
| AuthGuard.WildcardShadowsLaterExact | src/router/AuthGuard.tsx:15-48 | an earlier `/*` is returned for `/user` ahead of a later exact `/user` route |
| AuthGuard.ColonSegmentAcceptsAnything | src/router/AuthGuard.tsx:22-39 | `base/:name` accepts `base/value` for any value without `/`, the empty value included |
| AuthGuard.ExtraSegmentDefeatsParam | src/router/AuthGuard.tsx:26 | the parameter rule rejects every pathname whose number of `/` separators (hence of segments) differs from the pattern's |
| AuthGuard.WildcardNeedsPrefix | src/router/AuthGuard.tsx:43-48 | `/admin/*` accepts `/admin/settings` and matches nothing at `/admin` |
| AuthGuard.PlainPathMatchesOnlyItself | src/router/AuthGuard.tsx:17-48 | a path with no `:` and no trailing `*` matches exactly its own pathname |
| AuthGuard.TableLookup | src/router/routes.tsx:21-62 | with the application's table, the four literal paths find their own entry and every other pathname finds the catch-all |
| AuthGuard.EveryPathnameIsRouted | src/router/routes.tsx:54-61 | every pathname finds a route in the table, and `/user/42` finds the catch-all |
| AuthGuard.TitleOf | src/router/AuthGuard.tsx:86-88 | a title is returned exactly when the matched route has a non-empty `meta.title`, and it is that title |
| AuthGuard.Decide | src/router/AuthGuard.tsx:64-89 | redirect to `/login` (replace, remembering the pathname, warning `请先登录`) exactly when the route is protected and the user is signed out; redirect to `/` (replace) exactly when otherwise the pathname is `/login` and the user is signed in; else stay and set the route's title |
| AuthGuard.Guard | src/router/AuthGuard.tsx:60-92 | with the application's table, the guard redirects exactly at `/user` when signed out and at `/login` when signed in; everywhere else it stays and sets a title |
| AuthGuard.SignedOutRedirectTarget | src/router/AuthGuard.tsx:69-77 | signed out, the redirect at `/user` goes to `/login` with replace and `from` = `/user` |
| AuthGuard.SignedInRedirectTarget | src/router/AuthGuard.tsx:80-83 | signed in, the redirect at `/login` goes to `/` with replace |
| AuthGuard.NoLoginLoop | src/router/AuthGuard.tsx:69-83 | the guard never sends `/login` to `/login` |
| AuthGuard.UnknownPathnameShowsNotFound | src/router/AuthGuard.tsx:66-88 | an unknown pathname is not redirected and gets the title `404` |
| UserStore.Merge | src/store/modules/userStore.ts:66-71 | each field present in the patch (even as `undefined` for `avatar`/`phone`) wins; every field left out keeps the current value |
| UserStore.MergeIdentityAndIdempotence | src/store/modules/userStore.ts:66-71 | spreading an empty patch changes nothing; spreading the same patch twice equals spreading it once |
| UserStore.MergeCompose | src/store/modules/userStore.ts:66-71 | two successive updates equal one update with the combined patch |
| UserStore.WithToken | src/store/modules/userStore.ts:35-37 | `setToken(t)` sets the token, sets the flag exactly when `t` is non-empty, and keeps the profile |
| UserStore.WithUserInfo | src/store/modules/userStore.ts:40-42 | `setUserInfo` replaces the profile and keeps the token and the flag |
| UserStore.LoggedIn | src/store/modules/userStore.ts:45-51 | `login` sets the token, the profile and the flag to true |
| UserStore.LoginProperties | src/store/modules/userStore.ts:45-51 | `login` ignores the state it starts from, so it is idempotent |
| UserStore.EmptyTokenLoginIsSignedIn | src/store/modules/userStore.ts:35-51 | `login` with an empty token signs in, where `setToken("")` would sign out |
| UserStore.LoggedOut | src/store/modules/userStore.ts:54-60 | `logout` gives back the initial state |
| UserStore.LogoutProperties | src/store/modules/userStore.ts:54-60 | `logout` is idempotent and undoes `login` |
| UserStore.WithUpdatedInfo | src/store/modules/userStore.ts:63-73 | without a profile `updateUserInfo` changes nothing, whatever the flag; otherwise only the profile changes, to the merge |
| UserStore.UpdateUserInfoCompose | src/store/modules/userStore.ts:63-73 | two successive `updateUserInfo` calls equal one call with the combined patch |
| UserStore.UserStore.Partialize | src/store/modules/userStore.ts:79-83 | the persisted snapshot holds exactly the token, the profile and the flag |
| UserStore.UserStore.constructor | src/store/modules/userStore.ts:30-32 | the store starts with no token, no profile and signed out |
| UserStore.UserStore.Rehydrate | src/store/modules/userStore.ts:75-84 | rehydration makes the store's snapshot the stored one |
| UserStore.UserStore.SetToken | src/store/modules/userStore.ts:35-37 | the new state is the `setToken` transition of the old |
| UserStore.UserStore.SetUserInfo | src/store/modules/userStore.ts:40-42 | the new state is the old one with only the profile replaced |
| UserStore.UserStore.Login | src/store/modules/userStore.ts:45-51 | the new state is the `login` transition of the old |
| UserStore.UserStore.Logout | src/store/modules/userStore.ts:54-60 | the new state is the `logout` transition of the old |
| UserStore.UserStore.UpdateUserInfo | src/store/modules/userStore.ts:63-73 | the new state is the `updateUserInfo` transition of the old |
| UserStore.PersistRoundTrip | src/store/modules/userStore.ts:75-84 | a fresh store rehydrated from the snapshot has the same session |
| AppStore.Toggled | src/store/modules/appStore.ts:44-47 | toggling always changes the theme |
| AppStore.ToggleTwice | src/store/modules/appStore.ts:44-47 | toggling twice gives back the theme |
| AppStore.AppStore.constructor | src/store/modules/appStore.ts:24-26 | the store starts not loading, light, `zh-CN` |
| AppStore.AppStore.SetLoading | src/store/modules/appStore.ts:29-31 | only the loading flag changes, to the argument |
| AppStore.AppStore.SetTheme | src/store/modules/appStore.ts:34-36 | only the theme changes, to the argument, so a repeated call changes nothing |
| AppStore.AppStore.SetLocale | src/store/modules/appStore.ts:39-41 | only the locale changes, to the argument |
| AppStore.AppStore.ToggleTheme | src/store/modules/appStore.ts:44-47 | only the theme changes, to the other one |
| Storage.Deadline | src/utils/storage.ts:21 | no deadline exactly when the expiry is absent or 0; otherwise the deadline lies `expire * 1000` ms after `now` |
| Storage.Expired | src/utils/storage.ts:39 | an expired entry has a deadline strictly before `now`; a deadline of 0 is falsy and never expires |
| Storage.ExpiredStaysExpired | src/utils/storage.ts:39 | an entry expired at some time is expired at every later time |
| Storage.Lookup | src/utils/storage.ts:31-49 | `get` returns the stored value of a well-formed, unexpired entry, and null for a missing, unparsable or expired one |
| Storage.AfterGet | src/utils/storage.ts:38-42 | after `get` the key remains exactly when it was present and not expired; every other key and every remaining entry is unchanged |
| Storage.SetWithoutExpiry | src/utils/storage.ts:18-44 | after `set` without an expiry (or with 0), `get` returns the value at any time and removes nothing |
| Storage.SetWithExpiry | src/utils/storage.ts:18-44 | after `set` with `e > 0` seconds, `get` returns the value up to the deadline; after it, `get` returns null and removes exactly that key |
| Storage.NegativeExpiry | src/utils/storage.ts:21-42 | a negative expiry is already expired one millisecond later, unless its deadline is exactly 0 |
| Storage.GetMissingOrMalformed | src/utils/storage.ts:31-48 | `get` of a missing key or of an entry that does not parse returns null and changes nothing |
| Storage.GetTwice | src/utils/storage.ts:31-49 | a second `get` at the same time gives the same answer and changes nothing |
| Storage.GetKeepsOtherKeys | src/utils/storage.ts:38-42 | `get` never adds, removes or changes another key |
| Storage.RemovedKeyIsGone | src/utils/storage.ts:55-64 | after `remove(k)` or `clear()`, `get(k)` returns null; `remove` keeps the other entries |
| Storage.Storage.constructor | src/utils/storage.ts:76 | the helper wraps the existing backing store |
| Storage.Storage.Set | src/utils/storage.ts:18-24 | the entry for the key becomes the value with the computed deadline; nothing else changes |
| Storage.Storage.Get | src/utils/storage.ts:31-49 | returns the lookup of the old store, and the new store drops the key exactly when it had expired |
| Storage.Storage.Remove | src/utils/storage.ts:55-57 | only the key is removed |
| Storage.Storage.Clear | src/utils/storage.ts:62-64 | the store becomes empty |
| Storage.Storage.Has | src/utils/storage.ts:70-72 | true exactly when `get` would not return null, with `get`'s removal of an expired entry |
| Request.BearerFor | src/utils/request.ts:31-34 | a header value exists exactly when the token is non-null and non-empty, and it is `Bearer ` followed by the token |
| Request.InterceptRequest | src/utils/request.ts:28-36 | the headers gain `Authorization: Bearer <token>` exactly when the token is non-empty, and are otherwise untouched; the same config is returned |
| Request.OnResponse | src/utils/request.ts:45-56 | resolves with the payload exactly when the code is 200 or 0; otherwise rejects with the message, or `请求失败` when it is empty |
| Request.Classify | src/utils/request.ts:57-84 | 401, any other status, a request without a response, and neither, are four separate branches |
| Request.OnResponseError | src/utils/request.ts:57-87 | a 401 logs out and sets the hash to `#/`; every other branch leaves the store and the hash alone; every branch rejects with the original error |
| Text.ReplaceFirstSpec | src/utils/format.ts:40-46 | a string-pattern `replace` replaces the leftmost occurrence only, and leaves a string without one unchanged |
| Format.FirstDigitRun | src/utils/format.ts:12 | the leftmost start of eleven consecutive ASCII digits, or none when there is no such run |
| Format.FormatPhone | src/utils/format.ts:10-13 | the empty string stays empty; the length is kept; without an eleven-digit run the string is unchanged; otherwise the 4th to 7th digits of the leftmost run become `****` |
| Format.PhoneMaskPositions | src/utils/format.ts:12 | character by character, exactly the four middle positions of the leftmost run are masked |
| Format.TwoDigits | src/utils/format.ts:34-38 | at least two ASCII digits, and a zero followed by the digit below 10 |
| Format.TwoDigitsValue | src/utils/format.ts:34-38 | the padded rendering reads back as the number |
| Format.FormatDate | src/utils/format.ts:30-47 | a format without any of the six tokens comes back unchanged |
| Format.FormatYearMonthDay | src/utils/format.ts:30-47 | `YYYY-MM-DD` renders the year, the 1-based padded month and the padded day |
| Format.FormatDefault | src/utils/format.ts:30-47 | the default format renders all six components in place |
| Format.OnlyFirstOccurrence | src/utils/format.ts:40-46 | `YYYY/YYYY` renders only the first year token |
| Format.FormatRelativeTime | src/utils/format.ts:69-89 | under a minute (future times included) gives `刚刚`; then whole minutes 1..59, whole hours 1..23, whole days 1..6; from seven days on, the `YYYY-MM-DD` date |
| Device.OccurrenceSurvivesLowering | src/utils/device.ts:9 | a case-sensitive occurrence is also a case-insensitive one |
| Device.IsMobile | src/utils/device.ts:8-10 | `isMobile()`: a user agent containing one of the eight keywords exactly as spelled is mobile (the test itself ignores case) |
| Device.IsIOS | src/utils/device.ts:15-17 | `isIOS()`: every user agent it accepts is also mobile |
| Device.IsAndroid | src/utils/device.ts:22-24 | `isAndroid()`: every user agent it accepts is also mobile |
| Device.IsWeChat | src/utils/device.ts:29-31 | `isWeChat()`: a user agent containing `MicroMessenger` exactly as spelled is WeChat (the test itself ignores case) |
| Device.CaseInsensitiveTests | src/utils/device.ts:8-31 | the mobile and WeChat tests give the same answer for a user agent and its lower-cased form |
| Device.UpperCaseIphone | src/utils/device.ts:8-17 | `IPHONE` is mobile but not iOS: only the iOS test is case-sensitive |
| Device.DeviceInfoOf | src/utils/device.ts:36-46 | the report carries the user agent, and iOS or Android implies mobile |
| CheckApiTypes.WordRunShape | scripts/check-api-types.js:47-49 | the greedy `\w+` run at a position: it is the text there, all word characters, and is followed by a non-word character or the end |
| CheckApiTypes.NameAt | scripts/check-api-types.js:47-49 | a match at a position reports a name only where the keyword occurs there, and the name lies inside the text after the keyword |
| CheckApiTypes.ScanFindsDeclarations | scripts/check-api-types.js:47-49 | every name the global search finds is a non-empty run of `\w` characters that stands right after an occurrence of the keyword in the text |
| CheckApiTypes.ExtractNames | scripts/check-api-types.js:47-55 | every extracted name is a non-empty word that follows one of the three keywords in the file |
| CheckApiTypes.ScanSkip | scripts/check-api-types.js:47-54 | at a character that cannot start the keyword the search moves on by one character |
| CheckApiTypes.NameAtDeclaration | scripts/check-api-types.js:47-49 | a keyword followed by a word and then a non-word character (or the end) reports exactly that word |
| CheckApiTypes.NoMatchInLine | scripts/check-api-types.js:47-54 | a keyword never occurs inside a line declared with one of the other two keywords, nor across its end |
| CheckApiTypes.ScanSource | scripts/check-api-types.js:47-54 | over a file of declaration lines, the global search for one keyword finds exactly the names declared with it, each once, in file order |
| CheckApiTypes.ExtractDeclarations | scripts/check-api-types.js:47-55 | from a file of bare declaration lines (`keyword name` and a line break) with mixed keywords, `allTypes` is every interface name in file order, then every type name, then every enum name |
| CheckApiTypes.InterfacesBeforeTypes | scripts/check-api-types.js:47-55 | a file declaring `type B` and then `interface A` gives `A` before `B` |
| CheckApiTypes.DeclsOf | scripts/check-api-types.js:36-57 | a module without `types.ts` declares nothing; otherwise each extracted name is paired with the module |
| CheckApiTypes.TypeMapShape | scripts/check-api-types.js:67-71 | the keys of `typeMap` are exactly the declared names, and each list has one entry per declaration of its name |
| CheckApiTypes.ModulesDeclaringShape | scripts/check-api-types.js:67-71 | a module is among the declarers of a name exactly when it declares that name |
| CheckApiTypes.TypeMapContents | scripts/check-api-types.js:67-71 | each `typeMap` list is the modules that declare its name, in declaration order, so a module is listed for a name exactly when it declares it |
| CheckApiTypes.KeyOrderShape | scripts/check-api-types.js:67-71 | the insertion order lists every declared name exactly once |
| CheckApiTypes.ViolationsShape | scripts/check-api-types.js:58-65 | a module's violation list holds a name exactly when the module declares it and it does not start with the capitalised module name; listed modules have non-empty lists |
| CheckApiTypes.ViolationOrderShape | scripts/check-api-types.js:60-63 | the violation order lists exactly the modules with violations |
| CheckApiTypes.MissingTypesFileContributesNothing | scripts/check-api-types.js:39-42 | a module without `types.ts` adds no declaration |
| CheckApiTypes.DuplicatesOf | scripts/check-api-types.js:76 | a name is a duplicate exactly when it is in the order and its list is longer than one |
| CheckApiTypes.DuplicatesAreRepeatedNames | scripts/check-api-types.js:76 | the duplicates are exactly the names declared more than once |
| CheckApiTypes.RepeatInOneModule | scripts/check-api-types.js:68-71 | a name declared twice by one module is listed twice and is a duplicate |
| CheckApiTypes.CountsMatchDeclarations | scripts/check-api-types.js:116-121 | the per-module counts total the entries of all `typeMap` lists, one per declaration |
| CheckApiTypes.Verdict | scripts/check-api-types.js:78-144 | there are no duplicates and no violations exactly when no name is declared twice and every name follows the naming rule |
| CheckApiTypes.Record | scripts/check-api-types.js:57-72 | recording one declaration gives the tables of the declarations so far plus that one |
| CheckApiTypes.RecordModule | scripts/check-api-types.js:51-72 | recording a module's declarations in order gives the tables of all of them |
| CheckApiTypes.FindDuplicates | scripts/check-api-types.js:76 | the loop computes the duplicates in `typeMap` order |
| CheckApiTypes.CountModules | scripts/check-api-types.js:116-121 | the loop counts one entry per element of every `typeMap` list |
| CheckApiTypes.RecordAll | scripts/check-api-types.js:36-72 | the loop over the directories gives the modules lacking `types.ts`, in order, and the tables of all declarations |
| CheckApiTypes.Check | scripts/check-api-types.js:18-148 | the report holds the missing-file modules, both maps with their key orders, the duplicates, the module and type counts, and the per-module counts of the declarations; the exit code is 0 exactly when no name is declared twice and every name follows the naming rule, so 0 when there are no modules |

## Left out

- Page components, `src/App.tsx` and `src/router/index.tsx`: UI rendering and wiring.
- `src/router/navigate.ts`: a setter and forwarder around the router with no logic of its own.
- The service wrappers and the re-export modules (`src/services`, `src/hooks`, `src/utils/index.ts`, `src/store/index.ts`): HTTP endpoint wrappers and re-exports only. The profile record follows `src/services/user/types.ts`.
- The axios transport, its timeout and its base URL: the model covers only the interceptors' decisions.
- `message.*` toasts, `document.title`, `navigate`: the guard returns the navigation, warning and title it would apply, as values.
- zustand's `persist` and `createJSONStorage` internals, and JSON serialisation: the snapshot is the `UserState` value, and a storage entry is what `JSON.parse` makes of it (`Item`).
- Storage.Storage.Get: text that parses to a JSON value other than an object (a number, say) makes `get` return `undefined`, not `null`; the model treats it like text that does not parse (`Malformed`, giving null). A record whose `value` is missing is treated the same way.
- UserStore.Merge: a patch may carry `id`, `username` or `email` present as `undefined`, which the spread would copy into the profile; the model's patch fields for these are `Option<…>`, so such a patch cannot be expressed.
- The clock: `Date.now()` is the parameter `now` of every operation that reads it.
- Storage.SetWithExpiry: stated for `now >= 0`, the range `Date.now()` returns; `NegativeExpiry` covers the deadline-0 case separately.
- Fractional expiries in seconds: expiries are integers in the model.
- Storage.Deadline: `Date.now() + expire * 1000` is floating-point arithmetic; the model's unbounded integers do not capture the loss of precision above 2^53 ms, nor an overflow to `Infinity`, which `JSON.stringify` stores as `null` so that the entry never expires.
- `formatMoney` and `formatFileSize`: floating-point formatting with `toFixed`, `Math.log` and `Math.pow`.
- The `Date` conversion in `formatDate` and `formatRelativeTime`: a date arrives as its local integer components (`DateParts`, with the 0-based month) and the current time as `now`.
- `navigator.userAgent` and `window.screen`: the user agent and the screen size are parameters.
- Text.Capitalize: upper-cases ASCII letters only, where `toUpperCase` is Unicode-aware; this matters only for module names starting with a non-ASCII letter.
- Text.Lower: ASCII lower-casing only, exact for the ASCII keywords of the `/i` tests.
- CheckApiTypes.ExtractDeclarations: completeness is proved only for files of bare declaration lines. For a file like `src/services/user/types.ts`, where a declaration is followed by a body, only soundness holds (`ScanFindsDeclarations`: every extracted name is a word right after a keyword).
- The checker's directory listing and file reads: each module arrives with the text of its `types.ts` or `None`. Console output, the `try`/`catch` around the script, and the exit with code 1 when reading fails are not modelled.
- CheckApiTypes.CountModules: `moduleTypeCounts` is a multiset of module names rather than an object, so the order in which the counts are printed is not modelled; nor is the plain object's behaviour for a module named after an `Object.prototype` property (`constructor`, `__proto__`), where the count does not start from 0 or the assignment is swallowed. The multiset counts every name alike.
