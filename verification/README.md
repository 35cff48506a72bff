# rewriter-web core, modelled in Dafny

rewriter-web is a note-taking web application. Its users keep **vaults**, and
each vault holds **pages**. This project models the core of the application
and proves properties of that model:

- **The perimeter gate** (`Proxy`) runs before every request. It either lets
  the request through or redirects it. A logged-out caller on a guarded path
  is sent to the login surface, with a callback URL that encodes the path and
  query string.
- **The shared fault layer** (`Api`): the `APIFault` value a handler throws,
  and how anything thrown becomes a `{ success: false, error }` response.
- **`/api/vaults`** (`VaultsRoute`):
  - `GET` lists the caller's vaults, most recently updated first, with
    `offset`/`limit` paging;
  - `POST` validates a body, normalises it and inserts one vault.
- **`/api/pages`** (`PagesRoute`): the same two handlers for the pages of one
  vault. Both check that the caller owns the vault.
- **The client-side pieces:**
  - the display tables for vault icons and accent colours (`UiExtras`);
  - the id and colour helpers (`Utils`);
  - the create-vault modal's store (`ModalStore`), a class whose fields each
    action overwrites;
  - the create-page dialog (`CreatePageModal`): its schema, its tag parser and
    the request body it sends;
  - the vault grid and its cards (`VaultGrid`);
  - the active-sessions list and its revoke dialog (`SessionsSection`).

The JavaScript built-ins the core relies on are modelled in their own modules:

- `trim`, UTF-16 `length`, `includes`, ASCII `toLowerCase`, one-character
  `split` and `join` (`JsString`);
- truthiness, `||`, and reading a property of a JSON value (`Js`);
- `parseInt` in radix 10 and 16, and integer rendering (`NumberParse`);
- `encodeURIComponent`, with a reference `decodeURIComponent` over UTF-8
  (`UriComponent`);
- Prisma's `where`/`orderBy`/`skip`/`take` (`Listing`);
- the two tables, as an in-memory class `Store.Db` with the invariant that
  every page lies in a vault of its own owner (`Store`).

Each request handler is modelled in three parts:

- an outcome function: the handler's body up to its `catch`, which either
  gives a value or says what was thrown;
- a reply function: the `catch` and `resolveAPIErrors`;
- for `POST`, a `method` over `Store.Db`. It runs the same guard chain
  imperatively, returns the reply proved equal to the reply function's, and
  inserts exactly the outcome's record.

The session, the clock (`now`) and the random part of ids (`createId()`) are
inputs.

Where the design intent and the code differ, the model follows the code:

- A title made only of white space passes the `POST` checks, because `length`
  is measured before trimming. It is then stored as the empty string.
  `VaultsRoute.BlankTitleStoredEmpty` proves this.
- Errors that are not `APIFault`s reach the client with their own message and
  status 500. This covers a malformed JSON body, a `null` body, a
  `summary`/`description` that is falsy but not nullish (`false`, `0`), which
  passes the string checks and then has no `trim`, and a `NaN` paging value. Their internal message is not hidden.
- `GET /api/vaults` answers its list under the key `sucess`, as the handler
  spells it.
- `GET /api/vaults` checks paging before the session, so bad paging is
  answered 400 even to an anonymous caller. `GET /api/pages` checks the
  session first.

## Model

Definitions without a contract of their own (lookup tables, state
constructors such as `ModalStore.Opened`, and helpers such as `Api.Throw`,
`UiExtras.HasKey`, `Proxy.IsGuarded` or `VaultsRoute.Echo`) are not listed;
the rows of the members and lemmas that state their properties cite their
source lines.

| member | source | states |
|---|---|---|
| Api.NewFault | src/app/api/_api.tsx:9-14 | a fault is named `APIFault` and keeps the message and status code it was built with |
| Api.FormatError | src/app/api/_api.tsx:16-20 | the formatted error carries exactly the fault's message |
| Api.ResolveAPIErrors | src/app/api/_api.tsx:23-54 | every resolved response has `success: false`; a fault keeps its status and message; an `Error` gives 500 with its own message; anything else gives 500 with "Unknown error occurred" |
| Api.FaultRoundTrip | src/app/api/_api.tsx:9-39 | throwing `new APIFault(m, s)` and resolving it answers status `s` with message `m` |
| Api.ThrowReplies | src/app/api/_api.tsx:9-39 | a handler that throws `new APIFault(m, s)` answers status `s` with message `m`, whatever its success key |
| Api.Respond | src/app/api/vaults/route.ts:8-71 | a handler succeeds exactly when its body completes; success carries the value under the handler's key, and a throw gives the resolved error response |
| Proxy.Gate | src/proxy.ts:11-50 | api-auth paths always pass; on auth routes a logged-in caller goes to the default redirect and others pass; a logged-in caller is never sent to `/auth`; public routes pass; `/auth/logout` gets the fixed `%2F` callback; other guarded paths get the encoded path plus query as callback |
| Proxy.RedirectIff | src/proxy.ts:22-49 | the gate is total and redirects exactly a logged-in caller on an auth route, or a guarded request |
| Proxy.CallbackDecodes | src/proxy.ts:34-46 | the callback value decodes back to the path followed by the query string, and holds no raw `&`, `=`, `?`, `#` or `/` |
| Proxy.LogoutCallbackIsRoot | src/proxy.ts:40-42 | the fixed logout callback `%2F` is the encoding of `/` |
| UriComponent.EncodeRoundTrip | src/proxy.ts:38 | decoding `encodeURIComponent(s)` gives `s` back |
| UriComponent.EncodingHasNoDelimiters | src/proxy.ts:38 | the encoding contains no `&`, `=`, `?`, `#` or `/` |
| UriComponent.EncodeURIComponent | src/proxy.ts:38 | the encoding is never shorter than the input, and a string of unescaped characters only is unchanged |
| UriComponent.EscapeWellEncoded | src/proxy.ts:38 | one `%XX` escape in front of a well-encoded suffix is well encoded |
| UriComponent.EncodingWellEncoded | src/proxy.ts:38 | the encoding is only unescaped characters and `%XX` escapes in upper-case hexadecimal |
| UriComponent.Utf8WellFormed | src/proxy.ts:38 | the encoding of one code point has a lead byte announcing its length, continuation bytes after it, spells that code point and is its shortest form |
| UriComponent.Utf8DecodeCons | src/proxy.ts:38 | UTF-8 decoding reads back one encoded code point in front of any suffix |
| UriComponent.Utf8 | src/proxy.ts:38 | one code point is encoded as 1 to 4 UTF-8 bytes |
| JsString.Trim | src/app/api/vaults/route.ts:106 | the result is the slice of the input left once the white space at both ends is removed, and neither starts nor ends with white space |
| JsString.TrimStart | src/app/api/vaults/route.ts:106 | only leading white space is removed, and the result starts with a non-space |
| JsString.TrimEnd | src/app/api/vaults/route.ts:106 | only trailing white space is removed, and the result ends with a non-space |
| JsString.TrimTrimmed | src/app/api/vaults/route.ts:106 | a string without white space at either end trims to itself |
| JsString.TrimIdempotent | src/app/api/vaults/route.ts:106 | trimming twice is trimming once |
| JsString.Utf16Length | src/app/api/vaults/route.ts:91 | `length` lies between the number of code points and twice that, and equals it exactly when all code points are in the basic plane |
| JsString.ToLower | src/components/settings/sessions-section.tsx:47 | each character is lower-cased and the length is kept |
| JsString.ToLowerAppend | src/components/settings/sessions-section.tsx:47 | lower-casing distributes over concatenation |
| JsString.Split | src/components/modals/create-page-modal.tsx:65 | there is one part more than separators, and no part contains the separator |
| JsString.SplitAppend | src/components/modals/create-page-modal.tsx:65 | splitting at a separator between two strings splits each |
| JsString.SplitJoin | src/components/modals/create-page-modal.tsx:65 | splitting the join of separator-free parts gives the parts back |
| JsString.SplitNoSep | src/components/modals/create-page-modal.tsx:65 | a string without the separator splits into itself |
| JsString.TrimEmptyIff | src/app/api/vaults/route.ts:107 | a string trims to empty exactly when it is all white space |
| JsString.ContainsIff | src/components/settings/sessions-section.tsx:47 | `includes` holds exactly when the substring occurs at some index |
| Js.Get | src/app/api/vaults/route.ts:85 | destructuring gives the property when present and `undefined` otherwise |
| Js.Or | src/app/api/vaults/route.ts:108 | `a \|\| b` is `a` when `a` is truthy and `b` otherwise |
| NumberParse.ParseInt | src/app/api/vaults/route.ts:13-14 | `parseInt` is `NaN` exactly when no digit follows the optional white space, sign and hexadecimal prefix |
| NumberParse.DigitRun | src/lib/utils.ts:16-18 | the digit run is the longest prefix of digits |
| NumberParse.NatDigits | src/lib/utils.ts:19 | a natural number renders as at least one decimal digit |
| NumberParse.SplitSignedDigits | src/app/api/vaults/route.ts:13-14 | an optional `-` in front of a digit run is read as the sign and leaves the digits |
| NumberParse.ParseSignedDigits | src/app/api/vaults/route.ts:13-14 | an optional `-` followed only by digits parses to its signed value |
| NumberParse.DecimalRoundTrip | src/app/api/vaults/route.ts:13-14 | `parseInt` of an integer's decimal rendering is that integer |
| NumberParse.NatDigitsValue | src/lib/utils.ts:19 | reading back the decimal digits of `n` gives `n` |
| NumberParse.DigitRunAll | src/lib/utils.ts:16-18 | a string of digits is a single digit run |
| Request.ParamOr | src/app/api/vaults/route.ts:13-14 | an absent or empty parameter takes the fallback, any other keeps its value |
| Request.PagingValue | src/app/api/vaults/route.ts:13-14 | a present, non-empty parameter is parsed in radix 10; otherwise the fallback is |
| Request.DefaultPaging | src/app/api/vaults/route.ts:13-14 | an absent paging parameter reads as its default number |
| Request.DefaultTen | src/app/api/vaults/route.ts:13 | the default `limit` of the vault list is 10 |
| Request.DefaultZero | src/app/api/vaults/route.ts:14 | the default `offset` is 0 |
| Request.DefaultFifty | src/app/api/pages/route.ts:20 | the default `limit` of the page list is 50 |
| Request.NonNumericIsNaN | src/app/api/vaults/route.ts:13 | a non-numeric parameter such as `abc` parses to `NaN` |
| Request.PagingError | src/app/api/vaults/route.ts:16-22 | paging is rejected exactly when `limit < 1` or `offset < 0`, with the limit message first; `NaN` passes both checks |
| Request.TrimOrNull | src/app/api/vaults/route.ts:107 | `x?.trim() \|\| null` succeeds exactly for a nullish value or a string, stores the trimmed text or `null` when it trims to empty, and otherwise throws "is not a function" |
| Listing.Filter | src/app/api/vaults/route.ts:33-35 | the kept elements are exactly those that satisfy the condition, and there are no more of them than elements |
| Listing.FilterAppend | src/app/api/vaults/route.ts:33-35 | filtering distributes over concatenation, so the kept records keep their relative order |
| Listing.FilterCounts | src/app/api/vaults/route.ts:33-35 | a kept record occurs as often as in the input, and any other not at all |
| Listing.FilterOne | src/app/api/vaults/route.ts:33-35 | a single record is kept exactly when it satisfies the condition |
| Listing.InsertDesc | src/app/api/vaults/route.ts:36-38 | inserting into a sorted list keeps it sorted and adds exactly the element |
| Listing.SortDesc | src/app/api/vaults/route.ts:36-38 | the result is ordered by non-increasing key and is a permutation of the input |
| Listing.Window | src/app/api/vaults/route.ts:47-48 | `skip`/`take` gives at most `limit` elements, the ones starting at `offset` |
| Listing.WindowSorted | src/app/api/vaults/route.ts:36-48 | a window of a sorted list is sorted |
| Listing.WindowsTile | src/app/api/vaults/route.ts:47-48 | consecutive pages tile the list: the page after `a` elements continues where the first ended |
| Listing.WholeWindow | src/app/api/vaults/route.ts:47-48 | a window from 0 that is at least the list's length is the whole list |
| Store.PagesOwnedMoreVaults | src/app/api/vaults/route.ts:103-112 | adding vaults keeps every page inside a vault of its owner |
| Store.PageCount | src/app/api/vaults/route.ts:39-45 | a vault's page count is at most the number of pages, and zero exactly when no page lies in it |
| Store.PageCountAppend | src/app/api/vaults/route.ts:39-45 | counting distributes over concatenation, so an inserted page counts only in its own vault |
| Store.Db.InsertVault | src/app/api/vaults/route.ts:103-112 | inserting a vault appends exactly it, keeps the pages, and keeps the invariant |
| Store.Db.InsertPage | src/app/api/pages/route.ts:130-141 | inserting a page into a vault of its owner appends exactly it and keeps the invariant |
| Utils.GenerateId | src/lib/utils.ts:8-12 | an id is the prefix, `_`, then the random part |
| Utils.RemoveFirst | src/lib/utils.ts:15 | `replace("#", "")` removes only the first `#`, and changes nothing without one |
| Utils.Slice | src/lib/utils.ts:16-18 | `slice` within bounds is the substring; an end past the string is clamped to it; a start at or past the end, or an end at or before the start, gives the empty string |
| Utils.HexToRgb | src/lib/utils.ts:14-20 | once the first `#` is removed, six leading hexadecimal digits give their three pair values whatever follows; nothing left gives `NaN, NaN, NaN` |
| Utils.RgbOfDigits | src/lib/utils.ts:16-19 | the three slices of six leading hexadecimal digits parse to their pair values; an empty string gives three `NaN` |
| Utils.SixDigitSlices | src/lib/utils.ts:16-18 | the slices `0..2`, `2..4` and `4..6` of six leading digits are the three digit pairs |
| Utils.EmptyIsNaN | src/lib/utils.ts:16-18 | `parseInt` of an empty slice is `NaN` |
| Utils.PairValue | src/lib/utils.ts:16-18 | two hexadecimal digits have a value below 256 |
| Utils.ParsePair | src/lib/utils.ts:16-18 | `parseInt` in radix 16 of a digit pair is its value |
| Utils.PairRoundTrip | src/lib/utils.ts:14-20 | rendering a pair's value in hexadecimal gives the pair back, up to case |
| Utils.HexToRgbChannels | src/lib/utils.ts:14-20 | for `#` and six digits, the triple holds the three pair values |
| Utils.Hex6RoundTrip | src/lib/utils.ts:14-20 | the three channel values re-rendered give the six digits back, up to case |
| Utils.HexToRgbSixDigits | src/lib/utils.ts:14-20 | a `#RRGGBB` colour gives three channels in 0..255 that round-trip to the digits |
| Utils.HashSliceIsNaN | src/lib/utils.ts:16 | a slice that starts with `#` parses to `NaN` |
| Utils.SecondHashNotRemoved | src/lib/utils.ts:15-18 | with a doubled `#`, red is `NaN` and green and blue are read shifted back by one digit |
| UiExtras.GetIcon | src/lib/ui-extras.tsx:58-62 | a falsy name or a name that is not the table's own key gives the default icon; an own key gives its icon |
| UiExtras.AccentHex | src/lib/ui-extras.tsx:64-71 | an own key of the colour table gives its colour; anything else gives `sky` |
| UiExtras.GetAccentColor | src/lib/ui-extras.tsx:64-74 | the result is the `r, g, b` conversion of the named colour, or of the default |
| UiExtras.InheritedNamesFallBack | src/lib/ui-extras.tsx:51-56 | an inherited name such as `toString` is not a key and gets the defaults |
| UiExtras.DefaultsAreTableEntries | src/lib/ui-extras.tsx:48-49 | the default icon and colour are the `activity` and `sky` entries |
| UiExtras.AccentColorsAreHex6 | src/lib/ui-extras.tsx:30-43 | every table colour is `#` and six hexadecimal digits |
| UiExtras.AccentColorIsTableEntry | src/lib/ui-extras.tsx:64-71 | the colour converted is always a table entry |
| UiExtras.AccentColorIsTableRgb | src/lib/ui-extras.tsx:64-74 | `getAccentColor` never yields `NaN`: it always gives three channel values in 0..255 of a table colour |
| VaultsRoute.Owned | src/app/api/vaults/route.ts:33-35 | exactly the caller's vaults are selected |
| VaultsRoute.Project | src/app/api/vaults/route.ts:51-62 | each listed vault is projected, in order, with its page count |
| VaultsRoute.Item | src/app/api/vaults/route.ts:51-62 | a listed vault carries its own id, title, description, icon, accent colour and `updatedAt`, and the number of pages in it as `pagesCount` |
| VaultsRoute.InsertedPageCounted | src/app/api/vaults/route.ts:39-45 | inserting a page raises its own vault's `pagesCount` by one and leaves every other vault's |
| VaultsRoute.Selected | src/app/api/vaults/route.ts:32-49 | the window is `skip: offset, take: limit` of some ordering of the caller's vaults by non-increasing `updatedAt` that holds each of them once |
| VaultsRoute.SelectedOwnedSorted | src/app/api/vaults/route.ts:32-49 | the window skips `offset` of the caller's vaults and holds `limit` of them or all that remain; each is one of the caller's vaults; they are ordered by non-increasing `updatedAt` |
| VaultsRoute.ListVaults | src/app/api/vaults/route.ts:32-62 | the list is the projection of `skip: offset, take: limit` of the caller's vaults ordered by non-increasing `updatedAt`; it has `limit` items or all that remain past `offset`; each item is one of the caller's vaults with its page count |
| VaultsRoute.ProjectListed | src/app/api/vaults/route.ts:51-62 | projecting ordered vaults of the caller gives ordered items, each from the caller's vaults with its page count |
| VaultsRoute.ProjectAppend | src/app/api/vaults/route.ts:51-62 | projecting distributes over concatenation |
| VaultsRoute.ListingsTile | src/app/api/vaults/route.ts:32-49 | paging loses and repeats nothing: the page of `a` at `offset` followed by the page of `b` after it is the page of `a + b` at `offset` |
| VaultsRoute.ListedAll | src/app/api/vaults/route.ts:32-49 | from offset 0 with a large enough limit, every vault of the caller is listed |
| VaultsRoute.ListOutcome | src/app/api/vaults/route.ts:13-62 | the paging 400 comes first, then 401, then a `NaN` paging value is refused by the store, and otherwise the caller's list |
| VaultsRoute.Get | src/app/api/vaults/route.ts:8-71 | bad paging answers 400 with its message, then a missing session 401 "Unauthorized", then a `NaN` paging value 500; it succeeds exactly otherwise, with the caller's list under the key `sucess` |
| VaultsRoute.PagingBeforeSession | src/app/api/vaults/route.ts:13-30 | bad paging gives the same 400 with or without a session |
| VaultsRoute.DefaultListing | src/app/api/vaults/route.ts:13-14 | without paging parameters, the first ten of the caller's vaults are listed |
| VaultsRoute.ValidationError | src/app/api/vaults/route.ts:87-101 | each message is given exactly when its check is the first to fail, and none when all pass |
| VaultsRoute.CreateOutcome | src/app/api/vaults/route.ts:79-112 | 401 first; a malformed or null body throws; then the validation 400; it succeeds exactly when the checks pass and the description can be trimmed, and the vault is then built from the normalised fields |
| VaultsRoute.CreateReply | src/app/api/vaults/route.ts:114-128 | success echoes the stored vault under `success`, and a throw gives the resolved error |
| VaultsRoute.Post | src/app/api/vaults/route.ts:73-129 | the reply is the outcome's reply; the store grows by exactly the created vault, or is unchanged on a throw; pages are untouched; the invariant holds |
| VaultsRoute.CreatedIsListed | src/app/api/vaults/route.ts:32-49 | after a create, the owner's first page (large enough) lists the new vault |
| VaultsRoute.BlankTitleStoredEmpty | src/app/api/vaults/route.ts:87-93 | a title of white space only passes the checks and is stored as the empty string, and a missing description as `null` |
| VaultsRoute.AnonymousFirst | src/app/api/vaults/route.ts:79-81 | an anonymous caller gets 401 whatever the body |
| PagesRoute.InVault | src/app/api/pages/route.ts:48-51 | exactly the caller's pages of the vault are selected |
| PagesRoute.Summary | src/app/api/pages/route.ts:57-65 | a listed page carries its id, title, summary, thumbnail, tags and both timestamps, and not its content |
| PagesRoute.Selected | src/app/api/pages/route.ts:47-56 | the window is `skip: offset, take: limit` of some ordering of the caller's pages of the vault by non-increasing `updatedAt` that holds each of them once |
| PagesRoute.SelectedInVaultSorted | src/app/api/pages/route.ts:47-56 | the window skips `offset` of the caller's pages of the vault and holds `limit` of them or all that remain; each is one of those pages; they are ordered by non-increasing `updatedAt` |
| PagesRoute.Summaries | src/app/api/pages/route.ts:57-65 | each page is listed by its selected columns, in order |
| PagesRoute.ListPages | src/app/api/pages/route.ts:47-66 | the list is the summaries of `skip: offset, take: limit` of the caller's pages of the vault ordered by non-increasing `updatedAt`; it has `limit` items or all that remain past `offset`; each is one of those pages |
| PagesRoute.SummariesListed | src/app/api/pages/route.ts:57-65 | summarising ordered pages of the caller in the vault gives ordered summaries of those pages |
| PagesRoute.SummariesAppend | src/app/api/pages/route.ts:57-65 | summarising distributes over concatenation |
| PagesRoute.ListingsTile | src/app/api/pages/route.ts:47-56 | paging loses and repeats nothing: the page of `a` at `offset` followed by the page of `b` after it is the page of `a + b` at `offset` |
| PagesRoute.ListedAll | src/app/api/pages/route.ts:47-66 | from offset 0 with a large enough limit, every page of the caller in the vault is listed |
| PagesRoute.ListOutcome | src/app/api/pages/route.ts:10-66 | 401, then "vaultId is required", then the paging 400, then 404 for a vault the caller does not own, then the `NaN` refusal, otherwise the list |
| PagesRoute.Get | src/app/api/pages/route.ts:8-75 | 401 without a session, then 400 "vaultId is required", then the paging 400, then 404 "Vault not found" for a vault the caller does not own, then 500 for a `NaN` paging value; it succeeds exactly otherwise, with the list under `success` |
| PagesRoute.NotFoundIsUniform | src/app/api/pages/route.ts:36-45 | a vault that does not exist and a vault of someone else get the same answer |
| PagesRoute.DefaultListing | src/app/api/pages/route.ts:20-21 | without paging parameters, the first fifty pages are listed |
| PagesRoute.ValidationError | src/app/api/pages/route.ts:90-116 | each of the seven messages is given exactly when its check is the first to fail, and none when all pass |
| PagesRoute.StoredTags | src/app/api/pages/route.ts:137 | `tags \|\| []`: the sent array, or none |
| PagesRoute.CreateOutcome | src/app/api/pages/route.ts:79-141 | the guard chain in order, with 404 for a vault the caller does not own; it succeeds exactly when all checks pass, the caller owns the vault and the summary can be trimmed; the page is then built from the normalised fields and lies in a vault of its owner |
| PagesRoute.CreateReply | src/app/api/pages/route.ts:143-157 | success echoes the page's summary columns, and a throw gives the resolved error |
| PagesRoute.Post | src/app/api/pages/route.ts:77-158 | the reply is the outcome's reply; the pages grow by exactly the created page, or are unchanged; vaults are untouched; the invariant holds |
| PagesRoute.CreatedIsListed | src/app/api/pages/route.ts:47-66 | a created page is listed in its vault by a large enough first page |
| PagesRoute.ValidBodyCreates | src/app/api/pages/route.ts:90-141 | a body that passes every check, for a vault of the caller, creates its page |
| ModalStore.Merge | src/stores/modal-store.ts:15-23 | `set` overwrites the fields the patch names and keeps the others |
| ModalStore.MergeNothing | src/stores/modal-store.ts:15-23 | an empty patch changes nothing |
| ModalStore.OpenedKeepsTab | src/stores/modal-store.ts:18 | opening shows the modal with the given extras and keeps the tab |
| ModalStore.ClosedIdempotent | src/stores/modal-store.ts:19 | closing hides the modal and clears the extras, and closing again changes nothing |
| ModalStore.ToggleTwice | src/stores/modal-store.ts:20 | toggling flips only `isOpen`, so toggling twice restores the state |
| ModalStore.TabSetOnlyTab | src/stores/modal-store.ts:22 | setting the tab changes only the tab |
| ModalStore.CloseForgetsOpen | src/stores/modal-store.ts:18-19 | closing after opening is the same as closing |
| ModalStore.Modal.constructor | src/stores/modal-store.ts:15-23 | the store starts closed, with `{}` extras, on the `casual` tab |
| ModalStore.Modal.Set | src/stores/modal-store.ts:15-23 | the fields become the merge of the old state with the patch |
| ModalStore.Modal.OnOpen | src/stores/modal-store.ts:18 | the new state is the old state opened with the extras |
| ModalStore.Modal.OnClose | src/stores/modal-store.ts:19 | the new state is the old state closed |
| ModalStore.Modal.Toggle | src/stores/modal-store.ts:20 | the new state is the old state toggled |
| ModalStore.Modal.SetActiveTab | src/stores/modal-store.ts:22 | the new state is the old state with the tab set |
| CreatePageModal.TrimEach | src/components/modals/create-page-modal.tsx:66 | each part is trimmed, in place |
| CreatePageModal.NonEmpty | src/components/modals/create-page-modal.tsx:67 | the kept parts are exactly the non-empty ones |
| CreatePageModal.TrimmedParts | src/components/modals/create-page-modal.tsx:65-66 | trimming comma-free parts gives trimmed, comma-free parts |
| CreatePageModal.Pipeline | src/components/modals/create-page-modal.tsx:63-68 | a string without a comma gives its trimmed text as the one tag, or none when that is empty; there are at most one more tags than commas; each tag is non-empty, trimmed and comma-free |
| CreatePageModal.ParseTags | src/components/modals/create-page-modal.tsx:63-68 | an absent or empty tag string gives no tags; a string without a comma gives its trimmed text as the one tag, or none; otherwise the same guarantees as the chain |
| CreatePageModal.OneEntry | src/components/modals/create-page-modal.tsx:63-68 | a string without a comma gives its trimmed text as the one tag, or none when that is empty |
| CreatePageModal.ParseTagsIsPipeline | src/components/modals/create-page-modal.tsx:63-68 | the empty-string guard changes nothing: parsing equals the chain on every string |
| CreatePageModal.NonEmptyAppend | src/components/modals/create-page-modal.tsx:67 | filtering distributes over concatenation |
| CreatePageModal.NonEmptyKeepsAll | src/components/modals/create-page-modal.tsx:67 | filtering non-empty strings keeps them all |
| CreatePageModal.TrimEachAppend | src/components/modals/create-page-modal.tsx:66 | trimming each part distributes over concatenation |
| CreatePageModal.PipelineAppend | src/components/modals/create-page-modal.tsx:63-68 | the chain distributes over a comma |
| CreatePageModal.TagsConcat | src/components/modals/create-page-modal.tsx:63-68 | tags keep their order: two strings joined by a comma give the first string's tags, then the second's |
| CreatePageModal.ParseTagsIdempotent | src/components/modals/create-page-modal.tsx:63-68 | parsing the tags joined by commas gives the same tags |
| CreatePageModal.TitleIssue | src/components/modals/create-page-modal.tsx:30 | the title passes exactly at 1 to 200 UTF-16 units; empty means "Title is required", over 200 means "Title is too long" |
| CreatePageModal.SummaryIssue | src/components/modals/create-page-modal.tsx:31 | the summary passes exactly when absent or at most 500 units |
| CreatePageModal.ContentIssue | src/components/modals/create-page-modal.tsx:32 | the content passes exactly when non-empty |
| CreatePageModal.SummaryOrNull | src/components/modals/create-page-modal.tsx:78 | an absent or empty summary is sent as `null`, any other as its text |
| CreatePageModal.TagValues | src/components/modals/create-page-modal.tsx:80 | each tag is sent as a JSON string, in order |
| CreatePageModal.BodyFields | src/components/modals/create-page-modal.tsx:75-81 | the handler reads back the dialog's vault, title, content, summary and tags, and no thumbnail |
| CreatePageModal.AcceptedFormIsValid | src/components/modals/create-page-modal.tsx:29-81 | a body built from a form the schema accepts passes every field check of `POST /api/pages` |
| CreatePageModal.AcceptedFormIsCreated | src/components/modals/create-page-modal.tsx:62-81 | in a vault of the caller, such a body creates a page with the parsed tags |
| CreatePageModal.HandleClose | src/components/modals/create-page-modal.tsx:108-113 | while a create is pending nothing happens; otherwise the form is reset and the dialog closed |
| VaultGrid.Truncate | src/components/core/vault-grid.tsx:104-111 | the text is shortened and gets "..." exactly when longer than the limit; within the limit it is unchanged; it is at most the limit plus 3 long |
| VaultGrid.TruncateKeepsPrefix | src/components/core/vault-grid.tsx:104-111 | the shown text starts with the original's first characters |
| VaultGrid.CardAsWritten | src/components/core/vault-grid.tsx:104-111 | the card as written fails exactly when the description is `null`, and otherwise truncates title and description |
| VaultGrid.NoDescriptionBreaksCard | src/components/core/vault-grid.tsx:110 | a vault created without a description breaks the card as written, but not the corrected card |
| VaultGrid.Card | src/components/core/vault-grid.tsx:72-122 | title and description are at most 38 and 103 characters long; the card agrees with the code as written whenever a description exists |
| VaultGrid.Cards | src/components/core/vault-grid.tsx:50 | one card per vault, in order |
| VaultGrid.Render | src/components/core/vault-grid.tsx:30-53 | the placeholder is always shown; exactly 5 skeletons while loading; the error only when not loading; cards only when neither loading nor failed |
| VaultGrid.OneViewAtATime | src/components/core/vault-grid.tsx:38-50 | skeletons, the error line and cards exclude one another |
| VaultGrid.LoadedCardsBounded | src/components/core/vault-grid.tsx:48-50 | a loaded grid has one card per vault, with texts of at most 38 and 103 characters |
| SessionsSection.GetDeviceIcon | src/components/settings/sessions-section.tsx:45-59 | phone exactly for "iphone" or "android" in any case; otherwise laptop exactly for "mac" or "windows"; otherwise monitor |
| SessionsSection.ToLowerIdempotent | src/components/settings/sessions-section.tsx:47 | lower-casing twice is lower-casing once |
| SessionsSection.DeviceIconIgnoresCase | src/components/settings/sessions-section.tsx:45-59 | names that are equal up to case get the same icon |
| SessionsSection.Ago | src/components/settings/sessions-section.tsx:71-74 | the unit takes "s" exactly when the count is over 1 |
| SessionsSection.MinutesToHours | src/components/settings/sessions-section.tsx:65-66 | whole minutes floor-divided by 60 are the whole hours |
| SessionsSection.HoursToDays | src/components/settings/sessions-section.tsx:66-67 | whole hours floor-divided by 24 are the whole days |
| SessionsSection.FormatLastActive | src/components/settings/sessions-section.tsx:61-81 | under a minute (negative included) gives "Just now"; under an hour, a day and a week give the floor count of minutes, hours or days (at least 1, under 60, 24 or 7); from a week on gives a calendar date |
| SessionsSection.AgoEnds | src/components/settings/sessions-section.tsx:71-74 | every count phrase ends in "ago" |
| SessionsSection.JustNowExactly | src/components/settings/sessions-section.tsx:69-74 | "Just now" is shown exactly for differences under a minute |
| SessionsSection.RowOf | src/components/settings/sessions-section.tsx:94-128 | a row shows the badge exactly for the current session and the revoke button exactly for the others |
| SessionsSection.Rows | src/components/settings/sessions-section.tsx:94 | one row per session, in order |
| SessionsSection.RevokeAllShown | src/components/settings/sessions-section.tsx:133 | "Revoke All" shows exactly when there are at least two sessions |
| SessionsSection.NonCurrent | src/components/settings/sessions-section.tsx:138 | exactly the sessions that are not current are kept, as a filter of the list |
| SessionsSection.NonCurrentAppend | src/components/settings/sessions-section.tsx:138 | the kept sessions keep their order across the list |
| SessionsSection.RevokeAllAnnounces | src/components/settings/sessions-section.tsx:137-143 | "Revoke All" announces only when some session is not current |
| SessionsSection.SingleSessionButtons | src/components/settings/sessions-section.tsx:120-133 | a single session has no "Revoke All", and has a row button exactly when it is not current |
| SessionsSection.Panel.constructor | src/components/settings/sessions-section.tsx:32 | nothing is selected and the dialog is closed |
| SessionsSection.Panel.Select | src/components/settings/sessions-section.tsx:124 | the row's session is selected, and the dialog opens exactly for a non-empty id |
| SessionsSection.Panel.Dismiss | src/components/settings/sessions-section.tsx:152-155 | dismissing clears the selection |
| SessionsSection.Panel.HandleRevoke | src/components/settings/sessions-section.tsx:34-43 | with nothing selected, nothing changes; otherwise the selected id is handed to `onRevoke` once and the selection is cleared |

## Left out

- The session lookup (better-auth) is an input, `Option` of the user id. A failing lookup is not modelled.
- The route tables of `./routes` are parameters of `Proxy.Gate`. `./routes` is not part of this model.
- The middleware matcher regular expression (src/proxy.ts:52-54) is not modelled: the gate is applied to every request it is given.
- Resolving redirect targets against the request URL (`new URL(..., nextUrl)`) is left out. The model gives the relative location.
- Prisma is replaced by the in-memory `Store.Db`:
  - database errors are not modelled;
  - the timestamps a create stores are the `now` input, and later updates to `updatedAt` are not modelled;
  - the `NaN` refusal of `skip`/`take` is a 500 whose message text (`Request.NaNPaging`) stands in for the client library's.
- The random part of ids (`createId()`) is an input.
- Error text produced by the JavaScript runtime has stand-in strings. This covers a failed JSON parse, destructuring `null`, and calling `trim` on a non-string.
- Listing.SortDesc: the handlers leave the order among records with equal `updatedAt` open. The model uses a stable sort, and its contract only states the order and the permutation.
- Numbers are integers. Floating-point values in JSON bodies are not modelled.
- JsString.ToLower: only ASCII letters are lower-cased, not Unicode case mapping.
- VaultGrid.Truncate: it counts code points, whereas `substring` and `length` count UTF-16 units. The two agree on text in the basic plane.
- Utils.Slice: it counts code points, whereas `slice` counts UTF-16 units. The two agree on text in the basic plane, which includes every colour the tables hold.
- Listing.Filter: its own contract states membership and length. The order and multiplicity of the kept records are stated beside it by `Listing.FilterAppend`, `Listing.FilterOne` and `Listing.FilterCounts`, which together determine the result.
- The card's icon, accent colour, link and relative time (`moment().fromNow()`) are presentation. `getIcon` and `getAccentColor` are modelled in `UiExtras`.
- SessionsSection.FormatLastActive: the calendar date for activity a week or more old (`toLocaleDateString`) is not modelled. Date parsing and the clock are replaced by the millisecond difference.
- SessionsSection.Panel.HandleRevoke: `onRevoke` is asynchronous and may fail. The model records the call, and the selection is cleared either way, as in the source. The `isRevoking` button state is not modelled.
- The toast notifications, the query-cache invalidation and the `fetch` calls of the dialogs are left out, along with the react-query hooks that wrap them.
- The create-vault modal's `onOpen` is wired straight to a click in the grid, so its extras are the click event. The model takes the extras as any JSON value.
- The slug, single-vault and single-page handlers are not part of this model, and neither are the mock routes for API keys, users and sessions.

## Findings

| source | as written | input that shows it | evidently intended | confidence | as-written member | corrected member |
|---|---|---|---|---|---|---|
| src/components/core/vault-grid.tsx:110-111 | the card reads `substring` and `length` of `vault.description` with no null check | a vault created by `POST /api/vaults` with no `description` (or a blank one) is stored and listed with `description: null` (src/app/api/vaults/route.ts:107), so rendering its card throws | show a missing description as empty text | not executed | VaultGrid.CardAsWritten, VaultGrid.NoDescriptionBreaksCard | VaultGrid.Card |
