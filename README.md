# Portfolio site logic, modelled in Dafny

This project models the logic of a personal portfolio web site: a Next.js
application with two stand-alone browser demos. Most of the site is markup. The
parts with behaviour are modelled here, one Dafny module per source file:

- `RateLimit` (`src/hooks/useRateLimit.ts`): the client-side sliding-window
  rate limiter. It is a class holding the timestamp log and the retry
  countdown. Each call takes the clock reading `now`, and a `Tick` method
  stands for the one-second timer.
- `PasswordGenerator` (`public/demos/password-generator/app.ts`):
  - the four character sets and the secure random index;
  - `generatePassword`, with its fill loop and in-place Fisher–Yates shuffle on
    an array;
  - the strength score;
  - the five-entry history, a class;
  - `handleGenerate`;
  - the rule that keeps one checkbox ticked.
- `ColorPalette` (`public/demos/color-palette-generator/script.js`): the
  `#rrggbb` encoder and the `ColorPaletteGenerator` class with its five slots
  and its set of locked indices.
- `Validations` (`src/lib/validations.ts`):
  - the form-id check;
  - the contact schema's trim-then-length rules and the issues they produce;
  - the `getFieldErrors` loop.
- `ContactSection` (`src/components/home/ContactSection.tsx`): the submit flow
  as a class over the form status, the field errors and a rate limiter with 3
  sends per 60 s. The asynchronous request splits `handleSubmit` in two steps:
  `Submit` runs up to the request, `Complete` runs once its outcome is known.
- `Projects` (`src/components/projects/ProjectsPageClient.tsx`): the gallery's
  stable sort by `order ?? 999`, the category, language and text filters, and
  the sorted, de-duplicated lists of available categories and languages.
- `Sitemap` (`src/app/sitemap.ts`): the latest-date `reduce` and the list of
  entries.
- `Sidebar` (`src/components/Sidebar.tsx`): the active-link predicate, the
  smooth-scroll condition, the hash target, and the menu flags as a class.
- `Theme` (`src/components/ThemeProvider.tsx`): the module-level theme store,
  its listeners and notifications, the provider's one-time initialisation, and
  the toggle.
- `Skills` (`src/data/skills.ts`): the skill data and `getAllSkillNames`.
- `SiteConfig` (`src/config/site.ts`): the site URL and `absoluteUrl`.

Two shared modules support them:

- `Strings` spells out the JavaScript string operations the code relies on:
  `trim`, ASCII `toLowerCase`, `includes`, `startsWith`, `replace` of the first
  match, `padStart`, and `<` on strings.
- `Wrappers` holds `Option`, which stands for `T | undefined` and `T | null`.

Randomness is an argument. The password generator receives `entropy: nat ->
Word`, whose value at k is the k-th 32-bit word `crypto.getRandomValues`
returns during one generation. The palette receives one draw per slot, the
integer `Math.floor(Math.random() * 16777215)`. Environment variables are
`Option<string>` arguments.

Where the documented behaviour and the code differ, the model
follows the code:

- The status alert component (`ContactStatusAlerts.tsx`) accepts a
  `'rate-limited'` status, but the form's own status type has no such member
  and `handleSubmit` never sets one. A rejected submit leaves the status as it
  was, and the limiter's countdown marks the form busy. `Submit` shows this.
- `getFieldErrors` tests `!fieldErrors[field]`. An entry holding the empty
  string is therefore overwritten by a later issue. `Validations.Step` models
  that case, and first-error-wins is proved for non-empty messages, which are
  the only kind the schema produces.

## Model

| member | source | states |
|---|---|---|
| RateLimit.CeilDiv | src/hooks/useRateLimit.ts:55 | the result is the ceiling of r/d: `(q-1)*d < r <= q*d` |
| RateLimit.CeilDivThousand | src/hooks/useRateLimit.ts:55 | for a positive amount, `Math.ceil(r/1000)` equals `(r+999)/1000` |
| RateLimit.Retained | src/hooks/useRateLimit.ts:46-48 | a timestamp is kept iff `now - t < windowMs`; the filtered log is no longer than the log |
| RateLimit.RetainedKeepsRecent | src/hooks/useRateLimit.ts:46-48 | the filter leaves a log unchanged when every entry is inside the window |
| RateLimit.RetainedSorted | src/hooks/useRateLimit.ts:46-48 | filtering keeps a chronological log chronological |
| RateLimit.RetainedLater | src/hooks/useRateLimit.ts:46-48 | filtering at an earlier instant and then at a later one equals filtering at the later one |
| RateLimit.RetainedIsWindow | src/hooks/useRateLimit.ts:46-50 | the number of retained entries is the number of allowed instants in the window ending at `now` |
| RateLimit.RateLimiter.constructor | src/hooks/useRateLimit.ts:40-41 | the hook starts with an empty log and a countdown of 0 |
| RateLimit.RateLimiter.CheckRateLimit | src/hooks/useRateLimit.ts:43-62 | the result is true iff fewer than `maxRequests` entries are retained. On true the log is the retained entries plus `now`; on false it is only filtered. Every kept entry is inside the window. On a rejection with a non-empty log the countdown becomes `max(1, ceil((windowMs-(now-oldest))/1000))`, which lies in 1..ceil(windowMs/1000); otherwise the countdown is unchanged. No window has seen more than `maxRequests` allowed calls |
| RateLimit.RateLimiter.GetRetryAfterSeconds | src/hooks/useRateLimit.ts:64-77 | a read-only query whose result is at least 0. It is positive only when a check would reject; when `maxRequests >= 1`, it is positive exactly then |
| RateLimit.RateLimiter.RetryAfterAtMostWindow | src/hooks/useRateLimit.ts:71-76 | the wait is at most the window rounded up to whole seconds |
| RateLimit.RateLimiter.Tick | src/hooks/useRateLimit.ts:81-87 | a positive countdown drops by exactly 1; at or below 0 it stays |
| RateLimit.RateLimiter.WindowBound | src/hooks/useRateLimit.ts:50-60 | at any instant, the window ending there holds at most `maxRequests` allowed calls |
| RateLimit.QueryThenCheck | src/hooks/useRateLimit.ts:50-76 | at the same instant, a positive wait is reported exactly when the check rejects |
| RateLimit.ScenarioWindowSlides | src/__tests__/hooks/useRateLimit.test.ts:43-59 | with one request per 10 s: allowed, then rejected, then allowed 10 000 ms later |
| RateLimit.ScenarioTwoPerMinute | src/hooks/useRateLimit.ts:43-77 | with two per minute: two calls at the same instant are allowed, and a third is rejected with a 60 s countdown and a 60 s wait |
| RateLimit.LogInvariant | src/hooks/useRateLimit.ts:46-61 | the invariant the log keeps: at most `maxRequests` entries, chronological, exactly the allowed instants inside the window, and every window within the limit |
| RateLimit.PurgeStep | src/hooks/useRateLimit.ts:46-48 | the purge at a later instant keeps the invariant |
| RateLimit.RecordStep | src/hooks/useRateLimit.ts:50-60 | recording `now` below the limit keeps the invariant |
| RateLimit.RecordPreservesWindow | src/hooks/useRateLimit.ts:50-60 | recording `now` when the window ending at `now` is below the limit keeps every window within the limit |
| PasswordGenerator.EnabledCount | public/demos/password-generator/app.ts:137-142 | the number of selected classes is at most 4 |
| PasswordGenerator.CharSetRanges | public/demos/password-generator/app.ts:22-27 | the letters and digits are the ASCII ranges; the symbols are ASCII and are neither letters nor digits |
| PasswordGenerator.CharSetsDisjoint | public/demos/password-generator/app.ts:22-27 | no character belongs to two of the four sets |
| PasswordGenerator.SecureRandomInt | public/demos/password-generator/app.ts:70-74 | a 32-bit word taken modulo `max` lies in [0, max) |
| PasswordGenerator.EnabledClasses | public/demos/password-generator/app.ts:84-99 | it lists the selected classes, one each, in the order uppercase, lowercase, numbers, symbols |
| PasswordGenerator.RequiredChars | public/demos/password-generator/app.ts:84-99 | one character per selected class, the k-th drawn from the set of the k-th selected class |
| PasswordGenerator.PicksOfInSets | public/demos/password-generator/app.ts:86-98 | each pick lies in the set of its own class |
| PasswordGenerator.RequiredCharsCoverClasses | public/demos/password-generator/app.ts:84-99 | every selected class has a required character from its set |
| PasswordGenerator.Pool | public/demos/password-generator/app.ts:84-102 | the selected sets appended in order; empty exactly when no class is selected |
| PasswordGenerator.PoolMembership | public/demos/password-generator/app.ts:84-102 | a character is in the pool iff one of the selected sets holds it; the pool is empty iff no class is selected |
| PasswordGenerator.PoolExcludesDisabled | public/demos/password-generator/app.ts:84-99 | a pool character never belongs to an unselected class |
| PasswordGenerator.FisherYatesShuffle | public/demos/password-generator/app.ts:116-119 | the in-place loop from the last index down to 1, each index swapped with a drawn `j` in [0, i], leaves the multiset of characters unchanged and uses one draw per swap |
| PasswordGenerator.GeneratePassword | public/demos/password-generator/app.ts:79-122 | with no class selected the result is the placeholder. Otherwise its length is `max(length, number of classes)`, it contains every required character, and every character is from the pool |
| PasswordGenerator.FillFromPool | public/demos/password-generator/app.ts:107-113 | the required characters come first, followed by `max(remaining, 0)` characters; the j-th of these is the pool character at the j-th fresh random word modulo the pool length, so every character is in the pool |
| PasswordGenerator.RequiredCharsInPool | public/demos/password-generator/app.ts:84-99 | every required character is a pool character |
| PasswordGenerator.GeneratedCoversClasses | public/demos/password-generator/app.ts:84-119 | a generated password has a character of every selected class and none of an unselected one |
| PasswordGenerator.LengthScore | public/demos/password-generator/app.ts:131-134 | one point per threshold 8, 12, 16, 24 reached, at most 4 |
| PasswordGenerator.CalculateStrength | public/demos/password-generator/app.ts:127-156 | the score is the length points plus the number of classes, in 0..8; the label and CSS class are those of the score's tier |
| PasswordGenerator.TierRanges | public/demos/password-generator/app.ts:147-155 | weak is 0..3, fair 4..5, good 6..7 and strong 8 |
| PasswordGenerator.StrengthMonotoneInLength | public/demos/password-generator/app.ts:131-134 | with the same options, a longer password never scores or ranks lower |
| PasswordGenerator.StrongExactly | public/demos/password-generator/app.ts:131-155 | a password is strong iff it has at least 24 characters and all four classes are selected |
| PasswordGenerator.AddedHistory | public/demos/password-generator/app.ts:185-198 | a present password leaves the history as it is; otherwise the password goes first and, past 5 entries, the last is dropped |
| PasswordGenerator.AddedHistoryInvariant | public/demos/password-generator/app.ts:185-198 | the history stays at most 5 entries and duplicate-free; it contains the password, newest first, and gains no other entry |
| PasswordGenerator.AddedHistoryIdempotent | public/demos/password-generator/app.ts:187 | adding the same password twice equals adding it once |
| PasswordGenerator.PasswordHistory.Add | public/demos/password-generator/app.ts:185-198 | the in-place `unshift`/`pop` gives `AddedHistory` of the old entries and keeps the invariant |
| PasswordGenerator.PasswordHistory.Clear | public/demos/password-generator/app.ts:292-295 | the history becomes empty |
| PasswordGenerator.PasswordLacksMarker | public/demos/password-generator/app.ts:283 | no string of pool characters contains the placeholder's marker |
| PasswordGenerator.PlaceholderHasMarker | public/demos/password-generator/app.ts:103 | the placeholder contains the marker `handleGenerate` looks for |
| PasswordGenerator.HandleGenerate | public/demos/password-generator/app.ts:275-287 | with no class selected, the placeholder is shown and nothing is scored or recorded; otherwise the password has length `max(length, number of classes)`, holds every required character and only pool characters, and is scored and added to the history |
| PasswordGenerator.WithClass | public/demos/password-generator/app.ts:313-325 | setting one checkbox changes that class only |
| PasswordGenerator.EnforceAtLeastOne | public/demos/password-generator/app.ts:313-325 | after a change at least one class is selected. With one still ticked nothing changes; with none, only the box just changed is ticked again |
| PasswordGenerator.ScenarioAlnum12 | public/demos/password-generator/app.ts:79-122 | with length 12, upper, lower and digits: 12 ASCII letters or digits, with at least one uppercase letter, one lowercase letter and one digit |
| ColorPalette.DigitRoundTrip | public/demos/color-palette-generator/script.js:16 | reading back a hex digit gives its value |
| ColorPalette.ToHex | public/demos/color-palette-generator/script.js:16 | `toString(16)` gives at least one lowercase hex digit |
| ColorPalette.HexRoundTrip | public/demos/color-palette-generator/script.js:16 | the value of the digits of `n` is `n` |
| ColorPalette.ToHexLength | public/demos/color-palette-generator/script.js:16 | a number below 16^k has at most k digits |
| ColorPalette.FromHexLeadingZeros | public/demos/color-palette-generator/script.js:16 | left padding with `'0'` does not change the value |
| ColorPalette.RandomColor | public/demos/color-palette-generator/script.js:15-17 | for a draw in [0, 16777215), the colour is `#` plus six lowercase hex digits whose value is the draw |
| ColorPalette.RandomColorInjective | public/demos/color-palette-generator/script.js:15-17 | distinct draws give distinct colours |
| ColorPalette.NeverWhite | public/demos/color-palette-generator/script.js:16 | `#ffffff` is never produced |
| ColorPalette.NextPalette | public/demos/color-palette-generator/script.js:20-29 | five slots: a locked slot whose colour exists keeps it, and every other slot takes the colour of its draw |
| ColorPalette.NextPaletteValid | public/demos/color-palette-generator/script.js:20-29 | every slot of a new palette is a `#rrggbb` colour |
| ColorPalette.AllLockedIsIdentity | public/demos/color-palette-generator/script.js:23-24 | with every slot of a full palette locked, regeneration changes nothing |
| ColorPalette.NoLockIgnoresOld | public/demos/color-palette-generator/script.js:23-27 | with no lock, the new palette does not depend on the old one |
| ColorPalette.KeptSurvivesTwice | public/demos/color-palette-generator/script.js:23-24 | a kept colour survives two regenerations with the same locks |
| ColorPalette.Toggled | public/demos/color-palette-generator/script.js:75-80 | only the membership of the index flips |
| ColorPalette.ToggleInvolution | public/demos/color-palette-generator/script.js:75-80 | toggling twice restores the set |
| ColorPalette.ColorPaletteGenerator.constructor | public/demos/color-palette-generator/script.js:3-12 | the generator starts with no locks and a first palette built from an empty one |
| ColorPalette.ColorPaletteGenerator.GeneratePalette | public/demos/color-palette-generator/script.js:20-29 | the loop gives exactly `NextPalette` of the old colours and locks; the locks are unchanged |
| ColorPalette.ColorPaletteGenerator.ToggleLock | public/demos/color-palette-generator/script.js:75-82 | the locks become `Toggled` of the old ones; colours unchanged |
| ColorPalette.ColorPaletteGenerator.UnlockAll | public/demos/color-palette-generator/script.js:85-88 | no lock remains; colours unchanged |
| Validations.AlnumRunIff | src/lib/validations.ts:7-9 | the recursive check holds iff every character is an ASCII letter or digit |
| Validations.IsFormId | src/lib/validations.ts:7-9 | `formspreeIdSchema`: one or more ASCII letters or digits (`FormIdIff`) |
| Validations.FormIdIff | src/lib/validations.ts:7-9 | a form id is accepted iff it is non-empty and all ASCII letters or digits |
| Validations.FormIdAccepted | src/__tests__/lib/validations.test.ts:84-97 | a letters-and-digits id is accepted |
| Validations.FormIdRejected | src/__tests__/lib/validations.test.ts:84-97 | the empty id and ids containing `-`, a space or `/` are rejected |
| Validations.ValidatedFormspreeId | src/lib/validations.ts:14-19 | the id is returned unchanged when it is set and well formed; otherwise the result is undefined |
| Validations.NameIssues | src/lib/validations.ts:23-27 | no issue iff the trimmed name has 1 to 100 characters; each issue names `name` |
| Validations.EmailIssues | src/lib/validations.ts:28-32 | no issue iff the trimmed email is non-empty and passes the email predicate; an empty one reports "required" first |
| Validations.MessageIssues | src/lib/validations.ts:33-37 | no issue iff the trimmed message has 1 to 5000 characters |
| Validations.ParseContact | src/lib/validations.ts:22-38 | success iff all three fields are valid, with the trimmed values as data; a failure has at least one issue, each with a one-field path and a message |
| Validations.BlankNameRejected | src/__tests__/lib/validations.test.ts:21-25 | a whitespace-only name is rejected |
| Validations.FailedFieldHasIssue | src/lib/validations.ts:22-38 | a field that breaks its rule has an issue naming it |
| Validations.ValidFieldHasNoIssue | src/lib/validations.ts:22-38 | a valid field has no issue |
| Validations.GetFieldErrors | src/lib/validations.ts:44-55 | the loop computes the fold `FieldErrorsOf`; a field has an entry iff some issue's path starts with it |
| Validations.FieldErrorsKeys | src/lib/validations.ts:48-53 | a field has an entry iff some issue names it; issues without a path head are skipped |
| Validations.FieldErrorsFirstWins | src/lib/validations.ts:48-53 | with non-empty messages, a field's entry is the message of the first issue naming it |
| Validations.ParseFieldErrors | src/lib/validations.ts:22-55 | after a failed parse, the fields with an error are exactly the invalid ones |
| Validations.EmptyNameMessage | src/lib/validations.ts:22-53 | an empty name reports "お名前を入力してください" |
| Validations.EmptyEmailMessage | src/lib/validations.ts:22-53 | an empty email reports the "required" message, not the format one |
| Validations.EmptyMessageMessage | src/lib/validations.ts:22-53 | an empty message reports "メッセージを入力してください" |
| ContactSection.ContactForm.constructor | src/components/home/ContactSection.tsx:14-28 | status idle, no field errors, the validated form id, and a fresh limiter with 3 per 60 000 ms |
| ContactSection.ContactForm.Submit | src/components/home/ContactSection.tsx:38-65 | Without a form id, only the mail fallback happens. On invalid input the field errors are set and nothing else changes. On valid input the errors are cleared and the limiter decides: sent iff it allows, and then the status is `'sending'`, the countdown is left as it was and the call is logged. A rejection leaves the status and the log, and starts a countdown of 1 to 60 seconds until the oldest logged call leaves the window, so the form is busy |
| ContactSection.ContactForm.Dispatch | src/components/home/ContactSection.tsx:58-65 | the field errors are cleared; sent iff the limiter allows, then `'sending'` with the countdown unchanged and the call logged; a rejection keeps the status and the log and starts a countdown of 1 to 60 seconds |
| ContactSection.ContactForm.Complete | src/components/home/ContactSection.tsx:66-76 | success iff the response is ok, error for a non-ok response or a throw; the form is reset only on ok |
| ContactSection.ContactForm.ClearError | src/components/home/ContactSection.tsx:34-36 | only the given field loses its message |
| ContactSection.ContactForm.Tick | src/hooks/useRateLimit.ts:81-87 | the limiter's countdown tick |
| ContactSection.ContactForm.IsBusy | src/components/home/ContactSection.tsx:79 | the submit button is disabled while sending or while the rate-limit countdown runs |
| ContactSection.ContactForm.StartNewMessage | src/components/home/ContactSection.tsx:110-116 | the "new message" button returns the form to `'idle'` |
| Projects.InsertByKey | src/components/projects/ProjectsPageClient.tsx:41 | inserting adds exactly one element (multiset) |
| Projects.InsertByKeySorted | src/components/projects/ProjectsPageClient.tsx:41 | inserting into a sorted list keeps it sorted |
| Projects.SortByOrder | src/components/projects/ProjectsPageClient.tsx:39-41 | the sorted copy is a permutation of the projects |
| Projects.SortByOrderSorted | src/components/projects/ProjectsPageClient.tsx:41 | the copy is non-decreasing in `order ?? 999` |
| Projects.SortByOrderStable | src/components/projects/ProjectsPageClient.tsx:41 | projects with equal `order ?? 999` keep their relative order |
| Projects.FilterCount | src/components/projects/ProjectsPageClient.tsx:42-51 | a filter keeps every copy of a passing project and no other project |
| Projects.FilterSorted | src/components/projects/ProjectsPageClient.tsx:42-51 | filtering keeps a sorted list sorted |
| Projects.FilterAllPass | src/components/projects/ProjectsPageClient.tsx:42-45 | a filter that every element passes (`'all'`, empty query) changes nothing |
| Projects.FilteredCount | src/components/projects/ProjectsPageClient.tsx:37-53 | a project passing all three tests is shown as often as it occurs; every other project is not shown |
| Projects.Filtered | src/components/projects/ProjectsPageClient.tsx:37-53 | the sorted copy passed through the category, language and text filters; never longer than the input |
| Projects.FilteredSpec | src/components/projects/ProjectsPageClient.tsx:37-53 | the list is sorted by `order ?? 999`, and a project is shown iff it is one of the projects and passes the category, language and text tests |
| Projects.NarrowingShrinks | src/components/projects/ProjectsPageClient.tsx:42-43 | choosing one category or language instead of `'all'` never shows more (multiset inclusion) |
| Projects.NarrowingQueryShrinks | src/components/projects/ProjectsPageClient.tsx:38-51 | a normalised query that contains the previous one (or a previously empty query) never shows a project that was not shown before (multiset inclusion) |
| Projects.MatchesSubquery | src/components/projects/ProjectsPageClient.tsx:44-51 | a project whose title, summary, a tech or a tag includes the query also matches every substring of the query |
| Projects.BlankQueryIsEmpty | src/components/projects/ProjectsPageClient.tsx:38 | a whitespace-only query is empty once lowercased and trimmed |
| Projects.BlankQueryNoTextFilter | src/components/projects/ProjectsPageClient.tsx:38-45 | a whitespace-only query applies no text filter |
| Projects.ClearAll | src/components/projects/ProjectsPageClient.tsx:55-59 | both selections become `'all'` and the query empty |
| Projects.ClearAllShowsAll | src/components/projects/ProjectsPageClient.tsx:37-59 | after clearing, every project is shown in sorted order |
| Projects.Dedupe | src/components/projects/ProjectsPageClient.tsx:25-32 | `Array.from(new Set(...))` has the same values and no duplicates |
| Projects.InsertStringSorted | src/components/projects/ProjectsPageClient.tsx:25-33 | inserting a new value keeps a strictly ascending list strictly ascending |
| Projects.SortStringsSorted | src/components/projects/ProjectsPageClient.tsx:25-33 | sorting distinct values gives a strictly ascending list |
| Projects.AvailableValues | src/components/projects/ProjectsPageClient.tsx:23-35 | the list holds exactly the values present, without duplicates, strictly ascending |
| Projects.Categories | src/components/projects/ProjectsPageClient.tsx:25 | one category per project, in project order |
| Projects.Languages | src/components/projects/ProjectsPageClient.tsx:32 | one primary language per project, in project order |
| Projects.AvailableCategoriesSpec | src/components/projects/ProjectsPageClient.tsx:23-27 | each category of some project appears in the list, once and in ascending order |
| Projects.AvailableLanguagesSpec | src/components/projects/ProjectsPageClient.tsx:29-35 | each primary language of some project appears in the list, once and in ascending order |
| Sitemap.EffectiveDate | src/app/sitemap.ts:17 | `updatedAt` when it is non-empty, `createdAt` otherwise |
| Sitemap.LatestStep | src/app/sitemap.ts:17-18 | one step never decreases the date and ends on the old date or the project's date |
| Sitemap.LatestFrom | src/app/sitemap.ts:16-19 | the `reduce` never goes below its start value |
| Sitemap.LatestFromBounds | src/app/sitemap.ts:16-19 | the fold equals its start or some project's effective date |
| Sitemap.LatestProjectDate | src/app/sitemap.ts:16-19 | `latestProjectDate` is never earlier than `'2024-01-01'` |
| Sitemap.LatestFromAbove | src/app/sitemap.ts:16-19 | the fold is at least every project's non-empty date |
| Sitemap.LatestProjectDateSpec | src/app/sitemap.ts:16-19 | `latestProjectDate` is at least `'2024-01-01'`, equals it or some project's date, and is at least every project's effective date |
| Sitemap.ProjectEntry | src/app/sitemap.ts:38-43 | url `baseUrl/projects/<id>`; last modified is `updatedAt` when set, otherwise the build time |
| Sitemap.Entries | src/app/sitemap.ts:12-46 | `2 + n` entries: the home page, then `/projects`, both dated `latestProjectDate`, then one entry per project in order |
| Sitemap.EntriesUseAbsoluteUrls | src/app/sitemap.ts:13-40 | with the configured URL, the entries are `absoluteUrl('')`, `absoluteUrl('/projects')` and `absoluteUrl('/projects/' + id)` |
| Sitemap.ProjectUrlsDistinct | src/app/sitemap.ts:38-40 | distinct ids give distinct project URLs |
| Sidebar.IsActive | src/components/Sidebar.tsx:44-53 | `isActive`: `/projects` by prefix, a `/#` link only on `/`, any other link by equality; a null pathname never matches (`IsActiveCases`) |
| Sidebar.ShouldSmoothScroll | src/components/Sidebar.tsx:122-123 | a `/#` link scrolls in place only on `/` (`SmoothScrollIsActive`) |
| Sidebar.IsActiveCases | src/components/Sidebar.tsx:44-53 | `/projects` is active iff the pathname starts with `/projects`; a `/#` link iff the pathname is `/`; any other link iff the pathname equals it |
| Sidebar.SmoothScrollIsActive | src/components/Sidebar.tsx:121-123 | a link that scrolls in place is highlighted |
| Sidebar.HashTarget | src/components/Sidebar.tsx:134 | for a `/#` link the target is the rest of the link after `/#` |
| Sidebar.HashTargetExample | src/components/Sidebar.tsx:134 | `/#skills` targets `skills` |
| Sidebar.ActiveOnHome | src/components/Sidebar.tsx:25-123 | on `/` exactly the four section links are active and scroll in place; `/projects` is not active |
| Sidebar.ActiveBelowProjects | src/components/Sidebar.tsx:25-53 | below `/projects` only the platform link is active and nothing scrolls |
| Sidebar.NothingActiveWithoutPath | src/components/Sidebar.tsx:44-53 | with a null pathname no link is active or scrolls |
| Sidebar.SidebarState.ToggleMobile | src/components/Sidebar.tsx:81 | the hamburger button flips the mobile menu |
| Sidebar.SidebarState.CloseMobile | src/components/Sidebar.tsx:103 | the overlay closes the mobile menu |
| Sidebar.SidebarState.SetDesktopExpanded | src/components/Sidebar.tsx:170-171 | hovering sets the desktop rail's expansion |
| Sidebar.SidebarState.Navigate | src/components/Sidebar.tsx:39-41 | a changed pathname closes the mobile menu; the same pathname leaves it |
| Sidebar.SidebarState.ClickLink | src/components/Sidebar.tsx:55-137 | a smooth-scroll click returns the hash target and closes the menu; another click changes nothing here |
| Theme.Toggled | src/components/ThemeProvider.tsx:96 | the toggle always changes the theme |
| Theme.ToggleTwice | src/components/ThemeProvider.tsx:95-98 | toggling twice restores the theme |
| Theme.ResolveInitial | src/components/ThemeProvider.tsx:72-81 | a stored `'dark'` or `'light'` wins; otherwise dark iff the system prefers dark |
| Theme.ThemeStore.Snapshot | src/components/ThemeProvider.tsx:39-41 | `getThemeSnapshot` reports the store's current theme |
| Theme.ServerSnapshot | src/components/ThemeProvider.tsx:43-45 | the server snapshot is always dark |
| Theme.Added | src/components/ThemeProvider.tsx:33 | adding to the set adds the callback once and nothing else |
| Theme.Without | src/components/ThemeProvider.tsx:34-36 | deleting removes only that callback, keeping the others |
| Theme.SubscribeThenUnsubscribe | src/components/ThemeProvider.tsx:32-37 | unsubscribing a new callback right after subscribing it restores the set |
| Theme.ThemeStore.constructor | src/components/ThemeProvider.tsx:29-30 | the store starts dark with no listener |
| Theme.ThemeStore.Subscribe | src/components/ThemeProvider.tsx:32-33 | the listeners become `Added` of the old ones, still duplicate-free |
| Theme.ThemeStore.Unsubscribe | src/components/ThemeProvider.tsx:34-36 | the listeners become `Without` of the old ones |
| Theme.ThemeStore.SetThemeValue | src/components/ThemeProvider.tsx:47-56 | the theme becomes `next` and every listener is called once, in insertion order |
| Theme.Provider.Initialize | src/components/ThemeProvider.tsx:65-84 | the first run sets the resolved theme and notifies; later runs change nothing |
| Theme.Provider.ToggleTheme | src/components/ThemeProvider.tsx:95-98 | the theme becomes the opposite of the current one, and listeners are notified |
| Theme.InitializeTwice | src/components/ThemeProvider.tsx:68-70 | a second initialisation with other inputs keeps the first resolution |
| Theme.ToggleTwiceFromStart | src/components/ThemeProvider.tsx:29-98 | from the start, two toggles give dark again and a subscribed callback hears both |
| Skills.FlatNamesLength | src/data/skills.ts:84-88 | there are as many names as skills over all categories |
| Skills.FlatNamesOrder | src/data/skills.ts:84-88 | the j-th skill of category k is listed right after the skills of the earlier categories |
| Skills.FlatNamesMembership | src/data/skills.ts:85-87 | a string is listed iff it is the name of some skill in some category |
| Skills.SkillCategoriesWellFormed | src/data/skills.ts:28-72 | every category has a skill and a `bg-` dot colour, and every skill a name and a duration |
| Skills.AllSkillNames | src/data/skills.ts:84-88 | one name per skill over all categories |
| Skills.AllSkillNamesCount | src/data/skills.ts:84-88 | `getAllSkillNames()` lists 19 names, the number of skills |
| SiteConfig.Url | src/config/site.ts:12 | the environment URL when it is set and non-empty, the CloudFront address otherwise |
| SiteConfig.AbsoluteUrl | src/config/site.ts:42-44 | the result is the site URL followed by the path, with length `|url| + |path|` |
| SiteConfig.AbsoluteUrlDefault | src/config/site.ts:42 | with the default `''` the result is the site URL |
| SiteConfig.AbsoluteUrlProjects | src/config/site.ts:12-44 | without the environment value, `absoluteUrl('/projects')` is the CloudFront address plus `/projects` |
| SiteConfig.AbsoluteUrlInjective | src/config/site.ts:42-44 | different paths give different URLs |
| Strings.TrimStartSpec | src/lib/validations.ts:25 | the start-trim is a suffix of the input, preceded only by whitespace, and does not start with whitespace; it is empty iff the input is all whitespace |
| Strings.TrimEndSpec | src/lib/validations.ts:25 | the end-trim is a prefix of the input, followed only by whitespace, and does not end with whitespace; it is empty iff the input is all whitespace |
| Strings.Trim | src/lib/validations.ts:25 | the trim has no ECMAScript whitespace at either end and is no longer than the input; it is empty iff the input is all whitespace |
| Strings.TrimOccursIn | src/lib/validations.ts:25 | the trim occurs in the input as a contiguous slice |
| Strings.TrimIdempotent | src/lib/validations.ts:25 | trimming twice equals trimming once |
| Strings.ToLower | src/components/projects/ProjectsPageClient.tsx:38 | ASCII upper-case letters become lower case; every other character is kept |
| Strings.IncludesIff | src/components/projects/ProjectsPageClient.tsx:47-50 | `includes` holds iff the substring occurs at some index |
| Strings.IncludesTransitive | src/components/projects/ProjectsPageClient.tsx:44-51 | a string that includes `a` includes everything `a` includes |
| Strings.RemoveFirstPrefix | src/components/Sidebar.tsx:134 | replacing the first match of a prefix removes the prefix |
| Strings.RemoveFirstAbsent | src/components/Sidebar.tsx:134 | a string without the pattern is unchanged |
| Strings.PadStart | public/demos/color-palette-generator/script.js:16 | the result has the target length, ends with the input, and is padded on the left with the pad character |
| Strings.LexLessTotal | src/components/projects/ProjectsPageClient.tsx:25 | two different strings are ordered one way or the other |
| Strings.LexLessTransitive | src/app/sitemap.ts:18 | `<` on strings is transitive |

## Left out

- Browser I/O in general:
  - DOM rendering and `innerHTML`;
  - the clipboard and its `execCommand` fallbacks, and toasts;
  - `escapeHtml`, framer-motion and all markup.
- Browser I/O in the theme provider: `classList` and `localStorage`. The stored value is an argument of `Theme.Provider.Initialize`.
- Browser I/O in the sidebar: the scrolling itself. `Sidebar.SidebarState.ClickLink` returns the target id.
- Browser I/O in the password demo: the copy-button guard. It only feeds the clipboard.
- The `fetch` to the form endpoint. Only its outcome (ok, not ok, thrown) enters, through `Complete`.
- `mailto:` navigation: `Submit` reports `MailFallback` instead.
- `Date.now`, `setTimeout` and `new Date()`. The clock is the `now` argument, the timer is `Tick`, and the build time is `BuildTime`.
- The sitemap's float priorities, held as tenths.
- The quality of the randomness: `crypto.getRandomValues` and `Math.random` are arguments; modulo bias and uniformity are not modelled.
- Unicode `toLowerCase`: `Strings.ToLower` maps only the ASCII letters.
- UTF-16: strings are sequences of Unicode scalar values, so `length`, `<` and `.sort()` agree with JavaScript only for characters in the Basic Multilingual Plane.
- The schema library's email format check: `isEmail` is a parameter.
- Non-string form values: a missing form field (`null`) is not modelled.
- `RateLimit.RateLimiter.constructor`: requires `windowMs > 0`, since the hook is only ever configured with a positive window.
- `RateLimit.RateLimiter.CheckRateLimit`: requires `now` to be no earlier than the previous call, because the code takes `timestamps[0]` as the oldest entry.
- `ContactSection.ContactForm.ClearError`: removes the field's key where the source stores `undefined` under it. Both hide the message.
- `PasswordGenerator.GeneratePassword`: the four `if (options.X)` steps are modelled by the `Pool` and `RequiredChars` functions rather than by statements.
- `PasswordGenerator.GeneratePassword`: the shuffle's result is stated as a permutation, not as a particular order.
- The two `getStrengthColor` lookups and `updateStrengthIndicator`: they only style the page.
- The `'rate-limited'` alert: `ContactSection.tsx` never sets that status, so it is unreachable.
- `Sidebar.SidebarState.Navigate`: the effect on `[pathname]` is modelled as running when the pathname changes; the first run at mount is covered by the constructor's closed menu.
- `certifications` in `src/data/skills.ts`: plain data that no function reads.
