# Soraku client logic in Dafny

Soraku is a community site built with Next.js. Its pages call small pieces of decision logic and in-memory client stores, and those pieces are modelled here:

- the role/permission table and the role order;
- the countdown arithmetic and formatting;
- the slug, truncation, initials and "time ago" string helpers;
- the Zustand stores for events, blog posts, toasts and modals, and the signed-in user;
- the maintenance gate of the request middleware.

Each source file maps to its own module:

| module | file | form |
|---|---|---|
| `Roles` | `src/lib/roles.ts` | datatypes, functions and lemmas over the whole table |
| `Countdown` | `src/hooks/useCountdown.ts` | functions; the `forEach` of `useMultipleCountdowns` and the `push`es of `formatCountdown` are methods with loops or steps proved against functions |
| `Utils` | `src/lib/utils.ts` | functions and lemmas |
| `EventStore` | `src/stores/eventStore.ts` | the status rule and the countdown as functions; the store as a class whose methods update `userRSVPs` and `categories`; `updateEventStatus` and the RSVP record build as loops |
| `BlogStore` | `src/stores/blogStore.ts` | parameter defaults, filters, range and page count as functions; the store as a class |
| `UiStore` | `src/stores/uiStore.ts` | a class with one method per action, each allowed to change only its own field |
| `AuthStore` | `src/stores/authStore.ts` | the login record, merge and getters as functions; the store as a class |
| `Middleware` | `middleware.ts` | the gate decision as a function |

The helper modules are:

- `Wrappers`: `Option`.
- `Strings`: the JavaScript built-ins the code relies on.
  - ASCII `toLowerCase`/`toUpperCase`.
  - The `\s` class and `trim`.
  - `String(n)` and decimal `parseInt`.
  - `join` and `split`.
- `Collections`:
  - `[...new Set(xs)]`;
  - `flatMap`;
  - a record filled in a `forEach` where the later key wins.
- `Arith`: the uniqueness of Euclidean quotient and remainder, which the countdown and "time ago" arithmetic use.

The other inputs are parameters of the model:

- **Time.** Every clock reading (`new Date()`, `Date.now()`) is an integer count of milliseconds.
- **Database results.** Every Supabase query, upsert, delete and RPC is replaced by its outcome: a failure flag, or the rows and count it returns.
- **Toast ids.** The random toast id is an argument.
- **Login time.** The `createdAt` reading of `login` is an argument.
- **Public routes.** Clerk's route matcher is an arbitrary predicate `isPublicRoute`.

## Model

| member | source | states |
|---|---|---|
| Roles.Level | src/lib/roles.ts:3-8 | every role has a level between 1 and 4 |
| Roles.Permissions | src/lib/roles.ts:10-49 | the table holds, entry by entry, the lists of the source; every list contains MANAGER and has no duplicates |
| Roles.Includes | src/lib/roles.ts:53 | the front-to-back scan answers exactly list membership |
| Roles.HasPermission | src/lib/roles.ts:51-54 | an absent role is denied for every list; a present role is allowed iff the list contains it |
| Roles.IsAtLeast | src/lib/roles.ts:56-59 | an absent role is below every minimum; a present role passes iff its level is at least the minimum's |
| Roles.LevelInjective | src/lib/roles.ts:3-8 | the four levels are pairwise distinct: equal levels iff equal roles |
| Roles.AtLeastReflexive | src/lib/roles.ts:58 | every role is at least itself |
| Roles.AtLeastTransitive | src/lib/roles.ts:58 | the order is transitive |
| Roles.AtLeastAntisymmetricTotal | src/lib/roles.ts:3-8 | the order is antisymmetric and total over the four roles |
| Roles.AtLeastBounds | src/lib/roles.ts:3-8 | every role is at least USER; MANAGER is at least every role; only MANAGER is at least MANAGER |
| Roles.ViewListsAdmitEveryone | src/lib/roles.ts:16-34 | the three `view` lists and gallery `upload` admit all four roles |
| Roles.DeleteIsManagerOnly | src/lib/roles.ts:15-36 | every `delete` list is exactly [MANAGER], so only MANAGER passes it |
| Roles.ManagerPassesEverything | src/lib/roles.ts:10-54 | MANAGER passes every entry of the table; the absent role passes none |
| Roles.EmptyListDeniesAll | src/lib/roles.ts:51-53 | an empty allow-list denies every caller, present or absent |
| Roles.TableIsNotMonotone | src/lib/roles.ts:20-27 | AGENSI outranks ADMIN, yet blog create admits ADMIN and not AGENSI, and events create admits AGENSI and not ADMIN; blog create is no level threshold |
| Countdown.Decompose | src/hooks/useCountdown.ts:29-32 | for a non-negative difference, hours < 24, minutes < 60, seconds < 60, and the weighted sum of the parts is the floor of the difference in seconds |
| Countdown.CalculateTimeLeft | src/hooks/useCountdown.ts:13-42 | expired iff target − now ≤ 0, and then every field is 0; otherwise the fields are in their clock ranges and add up to totalSeconds = floor(difference / 1000) |
| Countdown.LastSecondNotExpired | src/hooks/useCountdown.ts:18-40 | under a second before the target the result is all zeros but not expired |
| Countdown.CalculateAll | src/hooks/useCountdown.ts:67-97 | the record has exactly the ids of the input; an id's entry is the single-target result of its last date |
| Countdown.OnUpdate | src/hooks/useCountdown.ts:121-148 | nothing fires on the first run; onExpire fires iff the result turns from not expired to expired; the minute, hour and day callbacks each fire iff that field changed, carrying its new value |
| Countdown.ExpireCount | src/hooks/useCountdown.ts:121-148 | onExpire fires at most once per observed update; the first observation only remembers the result |
| Countdown.ExpireFiresOnTransition | src/hooks/useCountdown.ts:127-130 | along a trace that stays expired once expired, onExpire fires exactly once if the first result is not expired and the last is, else never |
| Countdown.ClockTraceStaysExpired | src/hooks/useCountdown.ts:18-27 | one target observed at non-decreasing clock readings never leaves the expired state |
| Countdown.ExpireFiresAtMostOnce | src/hooks/useCountdown.ts:121-148 | watching one target with a clock that never goes back, onExpire fires at most once, exactly when the countdown runs out during the watch |
| Countdown.PartsOf | src/hooks/useCountdown.ts:177-190 | one printed part per shown unit |
| Countdown.Parts | src/hooks/useCountdown.ts:177-190 | the number of parts is the number of shown units |
| Countdown.PartsSpelledOut | src/hooks/useCountdown.ts:177-190 | the parts are, in order: days when shown, hours when shown, minutes always, seconds when asked for |
| Countdown.CompactParts | src/hooks/useCountdown.ts:177-179 | the compact style's parts built step by step are exactly the parts of the shown units |
| Countdown.LongParts | src/hooks/useCountdown.ts:183-188 | the long style's parts built step by step are exactly the parts of the shown units (days only when positive, hours when either is positive) |
| Countdown.FormatCountdown | src/hooks/useCountdown.ts:154-191 | with options defaulted (seconds shown, long style, Indonesian labels), the string is the parts of the shown units joined by " " (compact) or ", " |
| Countdown.CompactPartCount | src/hooks/useCountdown.ts:177-181 | the compact style prints days, hours, minutes and seconds when asked: exactly 3 or 4 parts |
| Countdown.LongStyleParts | src/hooks/useCountdown.ts:183-190 | the long style always prints minutes; hours iff hours > 0 or days > 0; days iff days > 0; seconds iff asked |
| Countdown.CountdownSegments | src/hooks/useCountdown.ts:199-206 | four segments carrying days, hours, minutes and seconds, labelled Hari, Jam, Menit, Detik in that order |
| Countdown.SegmentsAddUp | src/hooks/useCountdown.ts:199-206 | for a live countdown, the segments weighted by their unit add up to the whole seconds left |
| Utils.RemoveDisallowed | src/lib/utils.ts:13 | a character is in the result iff it is an allowed character of the input; an input of allowed characters is unchanged |
| Utils.RemoveDisallowedAppend | src/lib/utils.ts:13 | the filter distributes over concatenation, so the kept characters stay in their input order |
| Utils.RemoveDisallowedKeepsOrder | src/lib/utils.ts:13 | for any class of allowed characters, the result holds exactly the input's characters of that class, in order |
| Utils.CollapseRuns | src/lib/utils.ts:14-15 | every character is the replacement or an input character outside the class, and every input character outside the class appears; empty iff the input is empty |
| Utils.CollapseRunsOfRun | src/lib/utils.ts:14-15 | a whole maximal run, of any length, becomes exactly one replacement character |
| Utils.CollapseRunsSplit | src/lib/utils.ts:14-15 | at any character outside the class the string is collapsed as two independent halves, so runs never merge across it |
| Utils.CollapseRunsKeepsOthers | src/lib/utils.ts:14-15 | the characters outside the class come through whole and in input order |
| Utils.CollapseRunsNoAdjacent | src/lib/utils.ts:15 | after collapsing no two neighbours are in the class |
| Utils.CollapseRunsIdentity | src/lib/utils.ts:14-15 | collapsing a string already free of runs changes nothing |
| Strings.LowerChar | src/lib/utils.ts:12 | the result is never an ASCII capital: ASCII capitals go to their lower case, the Kelvin sign to 'k', the dotted capital I to 'i', and every other character stays |
| Utils.GenerateSlug | src/lib/utils.ts:10-17 | the slug contains only a–z, 0–9 and '-', never "--" |
| Utils.KelvinSignInSlug | src/lib/utils.ts:12-13 | a Kelvin sign lower-cases to a 'k' that the slug keeps |
| Utils.SlugOfLower | src/lib/utils.ts:10-12 | two texts with the same lower-cased form have the same slug |
| Utils.SlugStagesShape | src/lib/utils.ts:11-15 | the stages before the final trim already give a slug-shaped string |
| Utils.SlugOfSlugShaped | src/lib/utils.ts:10-17 | a string of slug characters without "--" is its own slug |
| Utils.GenerateSlugIdempotent | src/lib/utils.ts:10-17 | slug(slug(x)) = slug(x) |
| Utils.SlugKeepsLettersAndDigits | src/lib/utils.ts:10-17 | the slug's characters other than '-', in order, are exactly the ASCII letters and digits of the lower-cased input |
| Utils.SlugTrimIsNoOp | src/lib/utils.ts:16 | the final trim never changes the result |
| Utils.SlugKeepsLeadingDash | src/lib/utils.ts:13-16 | input starting with white space gives a slug starting with '-' |
| Utils.StripDashes | src/lib/utils.ts:16 | the result neither starts nor ends with '-', and its characters other than '-' are exactly the input's, in order |
| Utils.StripDashesIsSlice | src/lib/utils.ts:16 | the result is a contiguous slice of the input, and everything cut off at either side is '-' |
| Utils.StripDashesKeepsShape | src/lib/utils.ts:16 | stripping dashes keeps the slug character set and keeps "--" out |
| Utils.GenerateSlugTrimmed | src/lib/utils.ts:10-17 | slug characters only, no "--", no '-' at either end, and its characters other than '-' are exactly the ASCII letters and digits of the lower-cased input, in order |
| Utils.GenerateSlugTrimmedIdempotent | src/lib/utils.ts:10-17 | the trimmed slug is idempotent |
| Utils.SliceTo | src/lib/utils.ts:60 | `slice(0, end)` is a prefix of the input with the length JavaScript gives it: `end` itself within the string, the whole string past it, and counted from the end for a negative `end` |
| Utils.TruncateText | src/lib/utils.ts:58-61 | text within the limit is returned unchanged; longer text ends with "..." and, for a non-negative limit, is at most limit + 3 long |
| Strings.TrimIsSlice | src/lib/utils.ts:60 | trimming leaves a contiguous slice of the input that neither starts nor ends with white space, and everything cut off at either side is white space |
| Utils.TruncateKeepsCore | src/lib/utils.ts:60 | before the "..." stands a contiguous run of the first maxLength characters that neither starts nor ends with white space, and everything cut off around it is white space |
| Utils.NonEmptyWords | src/lib/utils.ts:143 | every kept word is non-empty and from the input, every non-empty input word is kept, and there are never more kept words than input words |
| Utils.NonEmptyWordsAppend | src/lib/utils.ts:141-143 | dropping empty words distributes over concatenation, so the kept words stay in input order |
| Utils.Heads | src/lib/utils.ts:142-144 | character i is the first character of the i-th non-empty word, and there is one per non-empty word |
| Utils.GetInitials | src/lib/utils.ts:140-147 | at most 2 characters (fewer only with fewer non-empty words); character i is the upper-cased first character of the i-th non-empty word; none is a lower-case ASCII letter |
| Utils.DiffInSeconds | src/lib/utils.ts:46 | the elapsed time rounded down to whole seconds, in the future too |
| Utils.RelativeBucket | src/lib/utils.ts:48-54 | the six buckets hold exactly their half-open ranges, negative ages included among "just now"; minutes ∈ [1,59], hours ∈ [1,23], days ∈ [1,6], weeks ∈ [1,4], each the floor of the age in its unit |
| Utils.RenderRelative | src/lib/utils.ts:49-55 | only the date fallback has no text; under a minute the text is "Baru saja"; a counted bucket reads back its count with `parseInt` and ends with its unit phrase (" menit yang lalu", " jam yang lalu", " hari yang lalu", " minggu yang lalu") |
| Utils.Counted | src/lib/utils.ts:50-53 | the template `${n} <unit>` reads back `n` with `parseInt` and ends with the unit phrase |
| Utils.RenderRelativeInjective | src/lib/utils.ts:49-53 | different buckets or counts never give the same text |
| Utils.FormatRelativeTime | src/lib/utils.ts:44-55 | "Baru saja" exactly for an age under 60 000 ms (the future included); the date fallback exactly from 30 days on; in between, the whole minutes, hours, days or weeks of the age in milliseconds followed by the matching unit phrase |
| Utils.TwoDaysAgo | src/lib/utils.ts:42-52 | an age of exactly two days reads "2 hari yang lalu", the example in the source comment |
| Utils.BucketMonotone | src/lib/utils.ts:48-52 | an older date never lands in a more recent bucket, and within a bucket its count never drops |
| EventStore.NextStatus | src/stores/eventStore.ts:251-261 | cancelled is sticky and nothing else becomes cancelled; upcoming before the start, ongoing from start to end inclusive, ended after the end |
| EventStore.StatusWritesExact | src/stores/eventStore.ts:263-268 | every write comes from an event whose status changes, carrying the new status; every changing event gets its write; no write cancels |
| EventStore.NextStatusIdempotent | src/stores/eventStore.ts:251-261 | re-applying the rule at the same time changes nothing |
| EventStore.SecondPassWritesNothing | src/stores/eventStore.ts:247-268 | once the writes of a pass are applied, a second pass at the same time issues none |
| EventStore.EventStore.UpdateEventStatus | src/stores/eventStore.ts:243-270 | the writes issued are exactly those of the status rule, in event order |
| EventStore.GetCountdown | src/stores/eventStore.ts:365-380 | expired iff distance < 0, with all zeros; otherwise the fields are in their clock ranges and add up to floor(distance / 1000) |
| EventStore.CountdownsDisagreeOnlyAtZero | src/stores/eventStore.ts:370-379 | the store's countdown equals the hook's except at distance 0, where the store reports not expired and the hook expired |
| EventStore.CollectRsvps | src/stores/eventStore.ts:281-284 | the record has exactly the rows' event ids; an event's entry is the status of its last row |
| EventStore.EventStore.FetchUserRsvps | src/stores/eventStore.ts:272-290 | a failed query leaves the record alone; otherwise it is replaced by the record of the rows (empty for null data) |
| EventStore.EventStore.RsvpToEvent | src/stores/eventStore.ts:292-319 | on upsert success the event's entry becomes the status and every other entry is kept; on upsert error nothing changes; the result is true iff neither the upsert failed nor the count refresh threw |
| EventStore.EventStore.CancelRsvp | src/stores/eventStore.ts:321-344 | on delete success only the event's key is removed; on error nothing changes; the result is true iff neither failed |
| EventStore.EventStore.GetRsvpStatus | src/stores/eventStore.ts:346-348 | null exactly when there is no entry for the event, otherwise the stored status |
| EventStore.EventStore.FetchCategories | src/stores/eventStore.ts:350-361 | on success the distinct categories in first-seen order, a null category included, on failure unchanged |
| EventStore.EventStore.constructor | src/stores/eventStore.ts:61-69 | no events, no RSVPs, no categories |
| BlogStore.Resolve | src/stores/blogStore.ts:64-72 | an omitted page is 1, limit 10, status published; supplied values are kept; an omitted parameter object behaves like {} |
| BlogStore.Filters | src/stores/blogStore.ts:79-85 | the status filter always comes first; the category, tag and search filters are added iff their value is non-empty, and the featured filter iff one was given |
| BlogStore.RangeSpan | src/stores/blogStore.ts:88-89 | the inclusive range of a page spans exactly `limit` rows |
| BlogStore.PagesContiguous | src/stores/blogStore.ts:88-89 | to(p) + 1 = from(p + 1): consecutive pages are contiguous and disjoint |
| BlogStore.PageStartsAfterEarlierPages | src/stores/blogStore.ts:88-89 | page 1 starts at row 0 and every later page right after its predecessor |
| BlogStore.CeilDiv | src/stores/blogStore.ts:100 | `Math.ceil` of the quotient: for a positive divisor the least r with r·limit ≥ total; for a negative one the mirror bounds |
| BlogStore.TotalPages | src/stores/blogStore.ts:100 | a missing count counts as 0; no finite value iff limit is 0; for a positive limit pages·limit ≥ total and (pages − 1)·limit < total |
| BlogStore.CeilDivIsLeast | src/stores/blogStore.ts:100 | no smaller page count covers the total |
| BlogStore.TotalPagesOfEmptyAndNonEmpty | src/stores/blogStore.ts:100-107 | no posts means 0 pages, at least one post at least one page |
| BlogStore.CategoryList | src/stores/blogStore.ts:247 | no duplicates; contains every fetched category, a null category included, and nothing else |
| BlogStore.TagList | src/stores/blogStore.ts:263-264 | no duplicates; contains every tag of every row and nothing else |
| BlogStore.TagListOfPrefix | src/stores/blogStore.ts:263-264 | first-seen order across rows: the tag list of the first k rows is a prefix of the tag list of all rows |
| BlogStore.BlogStore.FetchPosts | src/stores/blogStore.ts:60-118 | returns the query sent (resolved filters, rows from..to); on error posts and pagination are unchanged and only error (the message or 'Failed to fetch posts') and isLoading change; on success posts, pagination {page, limit, count or 0, ceiling page count} and a cleared error; loading has ended |
| BlogStore.BlogStore.FetchCategories | src/stores/blogStore.ts:238-252 | success replaces the categories with the distinct list, null included; failure leaves them |
| BlogStore.BlogStore.FetchTags | src/stores/blogStore.ts:254-269 | success replaces the tags with the distinct list; failure leaves them |
| BlogStore.BlogStore.constructor | src/stores/blogStore.ts:46-58 | the initial state, pagination {1, 10, 0, 0} |
| UiStore.MakeToast | src/stores/uiStore.ts:52-53 | the toast has the given id and the input's fields; a missing or 0 duration becomes 5000, any other is kept; the duration is never 0 |
| UiStore.WithoutId | src/stores/uiStore.ts:64 | no kept toast has the id; every kept toast comes from the list; every toast with another id is kept |
| UiStore.WithoutIdAppend | src/stores/uiStore.ts:64 | removal distributes over concatenation, so kept toasts stay in their original order |
| UiStore.WithoutUnknownId | src/stores/uiStore.ts:62-66 | removing an id no toast has is a no-op |
| UiStore.AddThenRemoveRestores | src/stores/uiStore.ts:51-66 | a toast added with a fresh id and then removed by it leaves the list as before |
| UiStore.WithoutIdIdempotent | src/stores/uiStore.ts:62-66 | removing the same id twice is removing it once |
| UiStore.UiStore.constructor | src/stores/uiStore.ts:48-95 | no toasts, modal closed with null type and data, sidebar open, other flags off |
| UiStore.UiStore.AddToast | src/stores/uiStore.ts:51-55 | exactly one toast appended at the end, earlier toasts kept in order |
| UiStore.UiStore.RemoveToast | src/stores/uiStore.ts:62-66 | the list becomes the toasts with another id |
| UiStore.UiStore.ClearToasts | src/stores/uiStore.ts:67 | the list is empty |
| UiStore.UiStore.OpenModal | src/stores/uiStore.ts:71-73 | the modal is open with the type and the data (null when omitted) |
| UiStore.UiStore.CloseModal | src/stores/uiStore.ts:74-76 | the modal is {closed, null, null} |
| UiStore.UiStore.ToggleSidebar | src/stores/uiStore.ts:80 | the sidebar flag is negated |
| UiStore.UiStore.SetSidebarOpen | src/stores/uiStore.ts:81 | the sidebar flag is the argument |
| UiStore.UiStore.ToggleMobileMenu | src/stores/uiStore.ts:85 | the mobile-menu flag is negated |
| UiStore.UiStore.SetMobileMenuOpen | src/stores/uiStore.ts:86 | the mobile-menu flag is the argument |
| UiStore.UiStore.SetIsScrolled | src/stores/uiStore.ts:90 | the scrolled flag is the argument |
| UiStore.UiStore.SetGlobalLoading | src/stores/uiStore.ts:94 | the loading flag is the argument |
| UiStore.ToggleTwiceRestores | src/stores/uiStore.ts:80-85 | toggling the sidebar or the menu twice restores it and touches no other field |
| UiStore.ToastLifetime | src/stores/uiStore.ts:51-66 | a toast shown and removed by its timer leaves the store's toasts, modal and sidebar as they were |
| AuthStore.JsRem | src/stores/authStore.ts:59 | JavaScript `%`: the remainder has the sign of the dividend and lies within the divisor |
| AuthStore.JsRemOdd | src/stores/authStore.ts:59 | the truncating remainder is odd in the dividend |
| AuthStore.EmbedIndex | src/stores/authStore.ts:59 | "NaN" when the discriminator has no leading number; otherwise text that parses back to the truncated remainder mod 5, in [-4, 4] |
| AuthStore.AvatarUrl | src/stores/authStore.ts:57-59 | with a non-empty hash the URL starts with the profile's CDN path and hash; otherwise it is an embed default avatar |
| AuthStore.AvatarWithHash | src/stores/authStore.ts:57-58 | with a hash the URL is exactly the CDN base, the user id, `/`, the hash and `.png?size=256` |
| AuthStore.EmbedIndexOfDigits | src/stores/authStore.ts:59 | without a hash and with a numeric discriminator, the embed avatar index is the discriminator's value mod 5, one digit in [0,4] |
| AuthStore.EmbedIndexOfNonNumber | src/stores/authStore.ts:59 | a non-numeric discriminator gives the literal index NaN |
| AuthStore.LoginUser | src/stores/authStore.ts:53-63 | empty id, role member, the given creation time, the Discord id and name, the avatar above, and null for an absent or empty email |
| AuthStore.Merge | src/stores/authStore.ts:85 | for each of the seven fields, a supplied value replaces the current one and an omitted one keeps it |
| AuthStore.MergeLaws | src/stores/authStore.ts:82-87 | merging no fields is the identity; merging the same fields twice is merging once |
| AuthStore.MergeForgetsOldSuppliedFields | src/stores/authStore.ts:85 | when every field is supplied, the result does not depend on the current user |
| AuthStore.GetterLaws | src/stores/authStore.ts:90-92 | isAdmin implies isModerator; canManageContent equals isModerator; with no user all three are false; isModerator iff the role is not member |
| AuthStore.LoginIsUnprivileged | src/stores/authStore.ts:61 | a freshly logged-in user is neither admin nor moderator |
| AuthStore.AuthStore.constructor | src/stores/authStore.ts:42-45 | no user, not authenticated, loading, no token |
| AuthStore.AuthStore.SetUser | src/stores/authStore.ts:48 | the user is set; authenticated iff it is non-null |
| AuthStore.AuthStore.SetDiscordAccessToken | src/stores/authStore.ts:50 | the token is the argument |
| AuthStore.AuthStore.Login | src/stores/authStore.ts:52-71 | user is the login record, authenticated, not loading, token stored |
| AuthStore.AuthStore.Logout | src/stores/authStore.ts:73-78 | no user, no token, not authenticated, not loading |
| AuthStore.AuthStore.SetLoading | src/stores/authStore.ts:80 | the loading flag is the argument |
| AuthStore.AuthStore.UpdateUser | src/stores/authStore.ts:82-87 | no-op without a user; otherwise the merge of the supplied fields; keeps the authenticated flag consistent with the user |
| AuthStore.AuthStore.IsAdmin | src/stores/authStore.ts:90 | true only with a user |
| AuthStore.AuthStore.IsModerator | src/stores/authStore.ts:91 | true only with a user |
| AuthStore.AuthStore.CanManageContent | src/stores/authStore.ts:92 | true only with a user |
| Middleware.MaintenanceMode | middleware.ts:29 | maintenance is on exactly when the variable is the string 'true' |
| Middleware.AnyPrefix | middleware.ts:34 | true iff some listed prefix starts the path |
| Middleware.Decide | middleware.ts:28-44 | a redirect, always to '/maintenance', exactly during maintenance for a path outside the bypass list; otherwise protection exactly for a non-public route |
| Middleware.NoRedirectWhenOff | middleware.ts:31-38 | with maintenance off there is never a redirect |
| Middleware.RedirectExactlyOutsideBypass | middleware.ts:32-37 | with maintenance on, a path is redirected iff no bypass prefix starts it, always to '/maintenance' |
| Middleware.RedirectNeverLoops | middleware.ts:33-36 | the redirect target is not redirected again |
| Middleware.BypassPrefixPasses | middleware.ts:33-34 | a path under any bypass prefix passes the maintenance block |
| Middleware.AdminLookalikesPass | middleware.ts:34 | the test is a raw prefix test: '/admin/settings' and '/administrator' both pass |
| Middleware.HomeRedirectedDuringMaintenance | middleware.ts:33-37 | during maintenance the home page is redirected to '/maintenance' |
| Middleware.ProtectExactlyNonPublic | middleware.ts:41-43 | a request that is not redirected needs authentication iff it is not a public route |
| Strings.TrimStart | src/lib/utils.ts:60 | what remains is a suffix that does not start with white space; everything dropped is white space |
| Strings.TrimEnd | src/lib/utils.ts:60 | what remains is a prefix that does not end with white space; everything dropped is white space |
| Strings.Trim | src/lib/utils.ts:60 | the result neither starts nor ends with white space |
| Strings.Split | src/lib/utils.ts:142 | at least one piece, none containing the separator |
| Strings.JoinSplit | src/lib/utils.ts:142-144 | joining the pieces with the separator gives the input back |
| Strings.ParseIntOfDigits | src/stores/authStore.ts:59 | a non-empty string of digits parses to its value |
| Strings.ParseIntOfIntToString | src/stores/authStore.ts:59 | parsing the decimal rendering of an integer gives the integer |
| Strings.ParseIntOfIntToStringThen | src/lib/utils.ts:50-53 | `parseInt` reads an integer back from its decimal rendering followed by text that does not start with a digit |
| Collections.Dedup | src/stores/blogStore.ts:247 | no duplicates, the same members as the input, no longer than it |
| Collections.DedupPrefix | src/stores/blogStore.ts:264 | de-duplicating a prefix gives a prefix of the result: entries appear in first-seen order |
| Collections.DedupOfDistinct | src/stores/blogStore.ts:264 | a list without duplicates is unchanged |
| Collections.Flatten | src/stores/blogStore.ts:263 | every element of every list appears, and nothing else |
| Collections.FlattenAppend | src/stores/blogStore.ts:263 | flattening distributes over concatenation, so the lists come out one after another in order |
| Collections.LastWins | src/hooks/useCountdown.ts:68-94 | the record's keys are exactly the assigned keys |
| Collections.LastWinsAt | src/stores/eventStore.ts:281-284 | a key's entry is the value of its last assignment |

## Notes on the source

- The two countdowns of the code disagree at the boundary. `useCountdown` treats an exact hit (difference 0) as expired. The store's `getCountdown` treats it as not expired. Both behaviours are modelled as written, and `EventStore.CountdownsDisagreeOnlyAtZero` states the difference.

## Left out

- React rendering, hooks state, effects and intervals. The countdown tick, the hook's `useState` and the timers are not modelled. Toast auto-removal is modelled only as a later `RemoveToast` call (`UiStore.ToastLifetime`), not as a timer.
- Supabase calls: the CRUD actions of both stores are not modelled because they are foreign calls without local logic beyond setting `isLoading`/`error`. These are:
  - `fetchEvents`, `fetchEventBySlug`, `fetchUpcomingEvents`, `fetchOngoingEvents`, `fetchPastEvents`, `createEvent`, `updateEvent`, `deleteEvent`, `setCurrentEvent`;
  - `fetchPostBySlug`, `fetchFeaturedPosts`, `createPost`, `updatePost`, `deletePost`, `incrementViewCount`, `setCurrentPost`.
- BlogStore.BlogStore.FetchPosts: only the final state is stated. The intermediate state (`isLoading` true, `error` null) is visible to subscribers during the await, but it is not part of the contract.
- EventStore.EventStore.UpdateEventStatus: the source fires the writes from un-awaited async callbacks, so their completion order and failures are not modelled. Dates are integers, so an invalid date (`NaN`, where every comparison is false and the status is kept) is not modelled. The loaded `events` are not updated by the source either.
- EventStore.EventStore.GetRsvpStatus: the record is modelled as a map. Keys inherited from `Object.prototype` (such as `constructor`) are therefore absent, while a JavaScript object lookup would find them.
- EventStore.EventStore.RsvpToEvent: `rpcThrows` stands for the RPC promise rejecting. An RPC that resolves with an error object is indistinguishable from success, as in the source.
- Countdown.CalculateAll: the source reads the clock once per entry. The model uses one reading `now` for the whole pass.
- AuthStore.EmbedIndex: `parseInt` is modelled for decimal text only. The hexadecimal `0x` prefix and precision loss on very long digit strings are not modelled.
- Strings.Upper: case mapping is ASCII only. Characters outside ASCII are left as they are, while JavaScript would map them (sometimes to two characters, as with 'ß').
- Strings.LowerChar: non-ASCII capitals other than the Kelvin sign and the dotted capital I keep their case, and the dotted I loses its combining dot. Neither changes a slug, because the next step of `generateSlug` removes every non-ASCII character.
- Strings.IntToString: always plain decimal. JavaScript's `String(n)` switches to exponent notation from 1e21 on; no count, id index or countdown field here gets that large.
- Countdown.CalculateTimeLeft, EventStore.GetCountdown, Utils.DiffInSeconds and Utils.FormatRelativeTime: dates are integers, so an invalid date is not modelled. In JavaScript it makes `getTime()` NaN, every comparison false and every field NaN, with `isExpired` false.
- Utils.TruncateText, Utils.SliceTo, BlogStore.Resolve, BlogStore.RangeSpan, BlogStore.TotalPages and UiStore.MakeToast: `maxLength`, `page`, `limit` and a toast's `duration` are JavaScript numbers, and the model takes integers. Fractional values are not modelled: `slice` would truncate them, the range and page count would be computed on fractions, and a fractional duration would be kept as it is. NaN is not modelled either; a NaN duration would become 5000 through `||`, like 0.
- Strings are sequences of Unicode scalar values. JavaScript counts UTF-16 code units, so lengths in `truncateText` and `getInitials` differ for characters outside the Basic Multilingual Plane.
- `formatRelativeTime`, `formatDate` and `formatDateTime`: the locale date fallback (`Intl`) is `None`.
- Other utilities not modelled: `formatNumber`, `generateExcerpt`, `debounce`/`throttle`, the JWT helpers, the storage helpers and `cn`.
- `persist`/`partialize` of the auth store and `ROLE_COLORS` are not modelled.
- AuthStore.AuthStore.UpdateUser: an update that explicitly passes `undefined` for a field is not modelled; the model only distinguishes omitted from supplied fields.
- Middleware.Decide: the effect of `auth.protect()` is the outcome `Protect`. The `config.matcher` patterns, the route patterns of `isPublicRoute` and Clerk itself are not modelled.
- The Discord stats cache and `slugify` are not defined in the files modelled here and are not modelled.
- `getCurrentUserRole` (`src/lib/clerk.ts`) is not part of this model.

## Findings

| source | as written | input that shows it | evidently intended | confidence | as-written member | corrected member |
|---|---|---|---|---|---|---|
| src/lib/utils.ts:10-17 | `generateSlug` ends with `.trim()` after white space has already become '-', so the trim never changes anything and edge dashes survive | `" Hello"` gives `"-hello"`; `"Hello!  "` gives `"hello-"` | a slug without a leading or trailing '-' | medium; not executed | Utils.SlugKeepsLeadingDash | Utils.GenerateSlugTrimmed |
