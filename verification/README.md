# JiraTime in Dafny

JiraTime is a browser extension that tracks the time spent on tracker
tickets and logs it as worklogs. This project models the rules at its core
and proves properties of them:

- duration rendering (the logged total and the live clock);
- the tracker client's pure parts: the authorisation scheme, the query
  strings, the empty-keys short cut, status colours, the mapping of search
  results, the worklog body, the reading of the permission reply and the
  sum of today's time;
- the ticket row's handlers: stopping a timer (60-second floor, eight-hour
  advisory), logging time by hand, the start button and the issue-type
  icon;
- the running-timer store with its toolbar badge, and the background
  worker that keeps the badge in step with it;
- the settings form's validation and normalisation, and settings storage
  with its defaults.

Modules follow the source files:

- `Wrappers`: `Option` and `Result`.
- `Strings`: the JavaScript string operations used. These are `trim`,
  `split`, `join`, `includes`, `startsWith`, `toLowerCase` and integer
  printing.
- `Types`: the records of `src/lib/types.ts` and `ActiveTimer`.
- `Utils`: `src/lib/utils.ts`.
- `Jira`: `src/lib/jira.ts`.
- `Storage`: `src/lib/storage.ts`.
- `TimerStore`: `src/hooks/useActiveTimer.ts`.
- `Background`: `src/background/index.ts`.
- `TicketItem`: `src/components/TicketItem.tsx`.
- `SettingsForm`: `src/components/Settings.tsx`.

How the outside world is represented:

- Every network call is replaced by its outcome. A `Reply` is either a
  response (status, status text, body text and the decoded body) or a
  rejection.
- `btoa` and `parseDuration` are function parameters. `parseDuration` is
  imported by the ticket row, but its definition is not part of this model.
- The clock (`Date.now()`) and today's local date are parameters.
- Browser storage is a value. The local area is a map holding the timer
  record. The synchronised area is a record of optional settings fields.
- The toolbar badge is a text and a colour.
- A UI handler is a function returning the ordered list of effects it
  causes: alerts, the worklog submission, and the callbacks it invokes.
  `ApplyEffects` runs that list against the store and the manual-entry
  text.

Several properties are stated against an independent reader of the
produced text rather than against the producing code:

- a duration reader (`Utils.ReadDuration`);
- an Authorization header parser;
- a reader for quoted filter lists;
- `Split` as the inverse of `Join`;
- readers for the worklog body's duration and comment.

Behaviour of the code worth knowing:

- No permission check happens before a timer starts. `checkWorklogPermission`
  is modelled but nothing in these files calls it.
- A failed stop has no retry or discard choice. It shows an alert and
  leaves the timer running.
- No comment is collected when a timer is stopped; `addWorklog` is called
  without one.
- Search results never fill the status category key, although
  `JiraTicket` declares it.

## Model

| member | source | states |
|---|---|---|
| Utils.FormatDuration | src/lib/utils.ts:8-20 | zero renders as "0m", a positive amount under a minute as "<1m", and a negative amount as the empty string |
| Utils.FormatDurationShape | src/lib/utils.ts:11-19 | for a minute or more: the hour token comes first, only when hours > 0; the minute token comes second, only when the leftover minutes are > 0; the two are separated by one space |
| Utils.FormatDurationReadsBack | src/lib/utils.ts:11-19 | for a minute or more, the rendering reads back as exactly the whole minutes of the input (seconds - seconds mod 60), so leftover seconds never show |
| Utils.FormatDurationIgnoresSeconds | src/lib/utils.ts:11-12 | for a minute or more, amounts with the same whole minutes render identically |
| Utils.FormatDurationExamples | src/lib/utils.ts:8-20 | 0 → "0m", 30 → "<1m", 120 → "2m", 3600 → "1h", 3661 → "1h 1m", -5 → "" |
| Utils.LiveShape | src/lib/utils.ts:22-35 | for now ≥ start: the elapsed whole seconds are h*3600 + m*60 + s with m and s below 60; the minute and second tokens always appear, and the hour token appears exactly when at least one hour has elapsed |
| Utils.LiveReadsBack | src/lib/utils.ts:23-26 | for now ≥ start: the live rendering reads back as floor((now - start)/1000), the elapsed whole seconds |
| Utils.LiveBehindReadsBack | src/lib/utils.ts:22-35 | for now < start: the rendering reads back as 0 ("0m 0s") when the elapsed seconds, rounded down, are a negative multiple of 3600 (a clock behind by n hours, or by up to one second less than that), and does not read back at all otherwise, because its minute token is negative |
| Utils.LiveNegativeExample | src/lib/utils.ts:22-35 | a clock 5 s behind the start renders "-1m -5s": the remainders keep the sign of the dividend |
| Utils.LiveExamples | src/lib/utils.ts:22-35 | 65 s → "1m 5s"; 3725.999 s → "1h 2m 5s"; a clock 5 s behind the start → "-1m -5s" (truncating remainder) |
| Jira.CreateHeaders | src/lib/jira.ts:3-16 | Content-Type and Accept are always application/json |
| Jira.AuthorizationScheme | src/lib/jira.ts:6-8 | the Authorization value parses as Basic over base64 of "email:pat" when the email is non-empty, and as Bearer with the bare PAT otherwise |
| Jira.Checked | src/lib/jira.ts:111-114 | a reply succeeds exactly when its status is 2xx; a rejection is a network error; a non-OK response is an HTTP error whose message starts with the call's prefix |
| Jira.InProgressJql | src/lib/jira.ts:52-73 | the query starts with "assignee = currentUser()" and ends with " ORDER BY updated DESC" |
| Jira.InProgressClauses | src/lib/jira.ts:56-69 | the query is the base, the status clause, the type clause and the ordering. With a non-blank status filter, the status clause holds the quoted list, which reads back as the trimmed comma pieces; otherwise it is the fixed exclusion list. The type clause is empty exactly when its filter is blank |
| Jira.StatusClauseReadsBack | src/lib/jira.ts:55-63 | a non-blank status filter gives " AND status in (" + list + ")" whose list reads back as the trimmed comma pieces; a missing or blank one gives the fixed exclusion clause |
| Jira.IssueTypeClauseReadsBack | src/lib/jira.ts:65-69 | a non-blank issue-type filter gives " AND issuetype in (" + list + ")" whose list reads back as the trimmed comma pieces; the clause is empty exactly when the filter is missing or blank |
| Jira.QuotedListReadsBack | src/lib/jira.ts:58 | the quoted list reads back as the filter's comma pieces, each trimmed, in order, with empty pieces kept |
| Jira.KeysJql | src/lib/jira.ts:81-86 | there is no query exactly when the key list is empty; otherwise the query is "key in (" … ")" |
| Jira.KeysJqlReadsBack | src/lib/jira.ts:84 | when no key contains a comma, splitting the parenthesised part at commas gives the keys back |
| Jira.FetchDoneTickets | src/lib/jira.ts:75-79 | one search with the fixed seven-day query of done tickets, ending in " ORDER BY updated DESC", with the caller's headers and 50 results at most |
| Jira.DoneIgnoresFilters | src/lib/jira.ts:75-79 | the done-tickets search does not depend on the status, issue-type, theme or pinned-key settings |
| Jira.FetchTicketsByKeys | src/lib/jira.ts:81-86 | an empty key list answers [] without a search; otherwise one search with that query and 50 results at most |
| Jira.GetStatusColor | src/lib/jira.ts:90-97 | amber exactly for "indeterminate", green exactly for "done", and slate for every other key |
| Jira.ToTicket | src/lib/jira.ts:118-131 | id, key and summary are copied. A missing time spent gives 0. A missing type name or status name gives "Unknown", a missing icon "". The colour is the status colour of the category key, or of "" when the status, its category or its key is missing. The status category key is never filled |
| Jira.SearchTickets | src/lib/jira.ts:99-132 | the search succeeds exactly on an OK reply and then maps every issue in order; a non-OK reply fails with "Jira API Error: …" |
| Jira.WorklogBodyFor | src/lib/jira.ts:143-167 | the body has exactly one duration field, chosen by the duration's type, and has a comment exactly for a non-empty comment |
| Jira.WorklogBodyReadsBack | src/lib/jira.ts:143-167 | the body's duration reads back as the one given, and its document reads back as the comment text |
| Jira.AddWorklogOutcome | src/lib/jira.ts:169-179 | the call resolves exactly on an OK reply; a non-OK reply fails with "Failed to log time: …" |
| Jira.CheckWorklogPermission | src/lib/jira.ts:274-293 | permission is granted only on an OK reply. On such a reply it is granted exactly when WORK_ON_ISSUES.havePermission is the boolean true. A rejection is false |
| Jira.SumTodayIgnoresOthers | src/lib/jira.ts:249-255 | entries by other authors or dated on other days contribute nothing |
| Jira.SumTodaysWorklogs | src/lib/jira.ts:247-258 | the nested loop computes the reference sum over all fetched worklogs of the caller's entries dated today |
| Jira.FetchTodaysTime | src/lib/jira.ts:181-272 | the result is 0 when the identity or search call fails, or when any per-issue fetch rejects. Otherwise it is the reference sum over every OK page's worklogs |
| Storage.SaveSettings | src/lib/storage.ts:3-5 | every settings field is written; an absent filter leaves the stored value under its key as it was |
| Storage.GetSettings | src/lib/storage.ts:7-21 | settings load exactly when host and PAT are stored non-empty. Stored values come back unchanged. A missing email or filter reads as "", a missing theme as System, missing pinned keys as [] |
| Storage.HasSettings | src/lib/storage.ts:23-26 | true exactly when the settings load |
| Storage.SaveLoadRoundTrip | src/lib/storage.ts:3-21 | loading right after saving returns the saved settings exactly when host and PAT are non-empty and both filters are present, whatever was stored before |
| Storage.SaveWithoutCredentials | src/lib/storage.ts:3-21 | saved settings with an empty host or PAT do not load |
| Storage.NothingStored | src/lib/storage.ts:7-26 | with nothing stored, no settings load and none are reported present |
| TimerStore.ReadTimer | src/hooks/useActiveTimer.ts:24-28 | a record is read exactly when the timer key is stored; a missing key reads as null |
| TimerStore.StartTimer | src/hooks/useActiveTimer.ts:30-39 | the stored timer becomes the new ticket and start time, replacing any previous one; the badge becomes "ON" in #22c55e; other keys are untouched |
| TimerStore.StopTimer | src/hooks/useActiveTimer.ts:41-44 | the stored timer is gone, the badge text is "" and its colour is kept; other keys are untouched |
| TimerStore.OnChanged | src/hooks/useActiveTimer.ts:15-19 | a view adopts the new value exactly when the change names the timer key, in any area; otherwise it is unchanged |
| TimerStore.ViewsFollowStore | src/hooks/useActiveTimer.ts:15-44 | after a start or a stop, every open view shows what the store holds, whatever it showed before |
| TimerStore.LastWriteWins | src/hooks/useActiveTimer.ts:30-44 | after any run of starts and stops, the store holds what the last action wrote, or nothing if it was a stop |
| Background.UpdateBadge | src/background/index.ts:3-10 | a record sets "ON" in #22c55e; no record sets the text to "" and leaves the colour |
| Background.OnStorageChanged | src/background/index.ts:13-17 | the badge reacts only to a timer-key change in the local area; any other change leaves it alone |
| Background.RestoreBadge | src/background/index.ts:19-31 | on install and on browser start the badge is recomputed from the stored record, after which it is on exactly when a timer is stored and green when on; the store is unchanged |
| Background.UpdateBadgeIdempotent | src/background/index.ts:3-10 | updating twice with the same record equals updating once |
| Background.BadgeOrderIrrelevant | src/background/index.ts:13-17 | for a start or a stop, the hook's badge write and the worker's reaction give the same badge in either order, and that badge agrees with the store |
| Background.SessionKeepsBadge | src/background/index.ts:3-17 | once badge and store agree, they keep agreeing through any run of starts and stops, each followed by the worker's reaction |
| TicketItem.IssueName | src/components/TicketItem.tsx:16 | a missing or empty type name is shown as "Unknown" |
| TicketItem.IssueKindOf | src/components/TicketItem.tsx:15-46 | first-match classification of the lower-cased name: bug; task without sub; story; epic; sub; anfrage; analyse; otherwise generic. Each of the eight kinds, the generic one included, is stated as an iff over the keywords the name contains |
| TicketItem.KindColorsDistinct | src/components/TicketItem.tsx:20-46 | the eight kinds have eight different colour classes |
| TicketItem.OtherWhenNoKeyword | src/components/TicketItem.tsx:19-46 | a name containing no keyword gets the generic icon in gray |
| TicketItem.MissingTypeIsOther | src/components/TicketItem.tsx:16-46 | a missing type is classified as "unknown", which falls through to the generic icon |
| TicketItem.RunningExcludes | src/components/TicketItem.tsx:83 | at most one ticket id shows as running, and a running ticket's start is disabled |
| TicketItem.CheckTouchGrass | src/components/TicketItem.tsx:102-107 | the advisory is shown exactly for 28800 seconds or more |
| TicketItem.StopDuration | src/components/TicketItem.tsx:143-147 | the submitted duration is at least 60 and equals the elapsed time whenever that is 60 or more |
| TicketItem.HandleStopTimer | src/components/TicketItem.tsx:133-158 | with no timer, nothing happens. Otherwise exactly one worklog of max(60, elapsed) seconds is submitted against this ticket. The advisory fires exactly when the raw elapsed time is 28800 or more, and comes before the submission. Stop and refresh happen exactly on success, after the submission. The failure alert happens exactly on failure |
| TicketItem.HandleManualSubmit | src/components/TicketItem.tsx:109-131 | an empty entry does nothing. Otherwise exactly one worklog carrying the entry's raw text is submitted. The advisory fires exactly when the parsed value is 28800 or more. Clear and refresh happen exactly on success. The timer is never touched |
| TicketItem.HandleStartClick | src/components/TicketItem.tsx:250-258 | the button is disabled while the view holds any timer; a click starts this ticket's timer, and does nothing else, exactly when the view holds no timer (`TimerStore.ViewsFollowStore` makes the view agree with the store) |
| TicketItem.StopTimerOutcome | src/components/TicketItem.tsx:149-155 | a successful stop leaves no stored timer and an empty badge; a failed stop leaves the store, the badge and the entry exactly as they were |
| TicketItem.ManualSubmitOutcome | src/components/TicketItem.tsx:121-127 | manual logging never changes store or badge; the entry is cleared on success and kept on failure |
| TicketItem.StartThenStop | src/components/TicketItem.tsx:83-149 | a timer started from the button shows this ticket as running, and stopping it later submits to the same ticket: the elapsed whole seconds when that is a minute or more, 60 otherwise |
| TicketItem.StopExamples | src/components/TicketItem.tsx:138-149 | 65.999 s logs 65; 10 s logs 60; a clock behind the start logs 60; the advisory fires at 28800 s and not at 28799.999 s |
| SettingsForm.IsValidEmail | src/components/Settings.tsx:45-48 | the check agrees with the pattern ^[^\s@]+@[^\s@]+\.[^\s@]+$, read as "some split fits it"; an accepted address has no white space |
| SettingsForm.MatchFacts | src/components/Settings.tsx:45 | any match has no white space, its @ is the first and only one, and a dot follows at least two characters later, before the last character |
| SettingsForm.EmailAccepted | src/components/Settings.tsx:45-48 | "me@example.com" is accepted |
| SettingsForm.EmailWithoutDot | src/components/Settings.tsx:45-48 | "me@example" is rejected |
| SettingsForm.EmailWithSpace | src/components/Settings.tsx:45-48 | "me @example.com" is rejected |
| SettingsForm.NormalizeHost | src/components/Settings.tsx:50-56 | the normalised host always starts with "http" |
| SettingsForm.NormalizeCleanHost | src/components/Settings.tsx:50-56 | a host with no white space, starting with "http" and without a trailing slash is kept as is |
| SettingsForm.NormalizeBareHost | src/components/Settings.tsx:50-56 | a non-empty bare domain without a trailing slash gets "https://" in front |
| SettingsForm.NormalizePadded | src/components/Settings.tsx:50-56 | a host with one blank on each side that starts with "http" and ends with "/" is stored without the blanks and without that slash |
| SettingsForm.HostPadded | src/components/Settings.tsx:50-56 | " https://a.io/ " becomes "https://a.io" |
| SettingsForm.HostDoubleSlash | src/components/Settings.tsx:56 | only one trailing slash is removed: "a//" becomes "https://a/" |
| SettingsForm.HostStartingWithHttp | src/components/Settings.tsx:52-54 | a domain starting with "http" gets no scheme: "httpbin.org" is kept |
| SettingsForm.HostBlank | src/components/Settings.tsx:50-56 | a host of one space becomes "https:/" |
| SettingsForm.CleanSettings | src/components/Settings.tsx:39-66 | an empty host, PAT or email fails with the required-fields message before anything else. Otherwise a pattern mismatch fails with "Invalid email format". On success the email is kept as typed and the host normalised. The PAT and filters are trimmed, the theme defaults to System and the pinned keys to none |
| SettingsForm.FormOnOpen | src/components/Settings.tsx:17-32 | the form opens filled from the stored settings when they load; otherwise it opens empty, and submitting it as is fails with the required-fields message and saves nothing |
| SettingsForm.HandleSubmit | src/components/Settings.tsx:34-75 | settings are saved (merged) and success is reported exactly when validation passes; otherwise the area is unchanged and the message is shown |
| SettingsForm.SubmitThenLoad | src/components/Settings.tsx:58-68 | after a successful submit, the next load returns exactly the clean settings, unless the PAT was only white space; then nothing loads |
| SettingsForm.BlankPatIsLost | src/components/Settings.tsx:41-61 | a PAT of one space passes validation and is saved, but the settings then no longer load |
| SettingsForm.ResubmitUnchanged | src/components/Settings.tsx:58-66 | submitting the form unchanged, when it was filled from clean settings, yields the same settings |

## Left out

- Network transport, JSON decoding, the `console` output and `alert` texts. A reply is an already decoded value; alerts are effects without text.
- The parallel fetch in `fetchTodaysTime` (`Promise.all`). The replies are given per key. A rejected one rejects the whole batch and yields 0.
- `fetchTodaysTime` with a worklog lacking `author`. In the source that throws and the catch returns 0; the model requires every worklog to carry an author id.
- `fetchTodaysTime`'s UTC date string (line 200). It is computed but only logged; the local date used for matching is a parameter.
- `Utils.FormatDurationFromStart`: no `ensures` of its own. Its shape and read-back are stated by `Utils.LiveShape` and `Utils.LiveReadsBack`.
- `Utils.FormatDuration`: non-integer and NaN inputs are not modelled. Durations are integers here.
- `Jira.CreateHeaders`: `btoa` is a parameter. Its failure on characters outside Latin-1 is not modelled.
- `Strings.ToLower` lowers A-Z and the Kelvin sign only. That is enough for the issue-type keywords, which are lower-case ASCII, but it is not a full Unicode case mapping.
- Chrome storage is modelled as a plain value. Two popups starting timers at the same time, and the order of notification delivery between processes, are not modelled; `Background.BadgeOrderIrrelevant` covers the one ordering that matters for the badge.
- `chrome.storage.set` silently drops `undefined` values. `Storage.SaveSettings` models that, and nothing else of the storage API.
- React rendering, hook lifecycle, the one-second refresh interval, expand/collapse and unpin confirmation.
- The in-flight guard. While a worklog is being submitted, `isSubmitting` disables the Stop & Save button, the Log button and the manual entry field (`src/components/ui/Button.tsx:24`, `src/components/TicketItem.tsx:244`, `:275`, `:281`), so a second submission cannot start. The handlers are modelled as if each ran to completion on its own; this guard is not modelled.
- `cn`, `src/App.tsx`, `src/components/TicketList.tsx`, `src/components/SortableTicketItem.tsx` and the UI primitives. These are presentation and orchestration.
- `parseDuration` is a parameter; its definition is not part of this model.
- The request URLs of the worklog, permission and today's-search calls, and the search body of `fetchTodaysTime`, are not modelled; only the replies are. The worklog's JSON body is modelled (`Jira.WorklogBodyFor`).
- `validateConnection` (`src/lib/jira.ts:18-28`) is not part of this model; the settings form does not call it.
