# Portfolio widgets, modelled in Dafny

This project models the stateful pieces of a single-page portfolio site built
with React. Each piece is a module of pure functions over immutable state
records. Timers are modelled as events, and `fetch`, `new Function`,
`JSON.stringify` and `Date.now` are modelled as inputs supplied by the
caller.

- `Format` (format.dfy) is the code playground's `formatOutput` and its
  console capture. A JavaScript value is abstract: `Value` carries its
  `String(v)` rendering, and objects also carry the outcome of
  `JSON.stringify`, which can be text, `undefined` or a throw. The four
  console channels add their fixed prefixes.
- `Playground` (playground.dfy) is the rest of the playground:
  - `runCode` for the four languages, with the outcome of evaluating the
    user's source supplied as an `Evaluation` (a parse error, a return after
    some console calls, a throw after some console calls caught by the
    wrapper, or an error that escapes the wrapper after some console calls
    because the source closed the wrapper's function);
  - the busy flag;
  - copy with its reset timer;
  - reset, the two toggles, language change, the editor callback, and when
    the HTML preview shows.
- `GitHub` (github.dfy) is the GitHub section:
  - the star, fork and repository totals;
  - the "popular" view and the default view (sorted by stars, first 25);
  - the per-day contribution map and its total;
  - the week grouping of the last 366 days;
  - the activity level and its badge colour;
  - the first three topics of a card.
- `Projects` (projects.dfy) is the project grid: the six projects as
  data, the all/featured/tag filter, the empty state and the tag-chip
  summary.
- `Contact` (contact.dfy) is the contact form: field edits, the simulated
  1.5-second request, the 5-second status reset and the submit button's
  disabled state.
- `Hero` (hero.dfy) is the typewriter effect in the hero banner: the
  `typeEffect` step as written, its reachable states, and a corrected step
  (see Findings).
- `Seqs` and `Wrappers` (seqs.dfy, wrappers.dfy) are the sequence helpers
  the modules share: `Array.prototype.join`, `String.prototype.split` on one
  character, `filter`, `slice(0, n)` and flattening, plus an `Option` type.

Some details of the model:

- Calendar days are integers counting days since 1970-01-01 UTC, so
  `getDay()` is `(day + 4) % 7`.
- The contribution map is an association list kept in first-insertion
  order, like a JavaScript object with string keys.
- React state updates inside one handler are applied together.

## Model

| member | source | states |
|---|---|---|
| Format.FormatOutput | src/components/CodePlayground.tsx:34-45 | No arguments give "". One argument gives its own rendering. Otherwise the text starts with the first argument's rendering followed by a space. |
| Format.FormatArg | src/components/CodePlayground.tsx:35-43 | A non-object prints as `String(v)`. An object prints as its JSON text, as `String(v)` when stringifying throws, and as empty text when stringifying gives undefined. |
| Format.FormatArgs | src/components/CodePlayground.tsx:35-43 | Each argument is formatted on its own, with one string per argument in the same order. |
| Format.FormatOutputAppend | src/components/CodePlayground.tsx:34-45 | Formatting two non-empty argument lists together equals formatting each and joining them with one space. |
| Format.FormatOutputSingle | src/components/CodePlayground.tsx:34-45 | One argument formats as that argument alone, and no arguments format as the empty string. |
| Format.FormatNullUndefined | src/components/CodePlayground.tsx:36-43 | `null` is not treated as an object and prints as "null". `undefined` prints as "undefined". |
| Format.CaptureLines | src/components/CodePlayground.tsx:54-60 | Each console call adds exactly one log line, in call order: the channel's prefix (none for log, WARN/ERROR/INFO for the others) followed by the formatted arguments. |
| Format.CaptureAppend | src/components/CodePlayground.tsx:54-60 | Capturing two runs of calls one after the other gives the concatenation of their logs. |
| Format.Capture | src/components/CodePlayground.tsx:54-60 | The loop that pushes one line per call produces the same lines as CaptureLines. |
| Playground.ScriptOutput | src/components/CodePlayground.tsx:62-85 | A JavaScript or TypeScript run always shows something. A parse error shows the "Uncaught error" prefix followed by the message. |
| Playground.RunOutput | src/components/CodePlayground.tsx:62-91 | runCode's dispatch: never empty. The script languages use the evaluated output. HTML and CSS start with their header and end with a blank line followed by the code verbatim. |
| Playground.Run | src/components/CodePlayground.tsx:47-95 | A run while one is in progress changes nothing. Otherwise only the output changes, and it becomes the language's run output. |
| Playground.AlwaysAtRest | src/components/CodePlayground.tsx:47-95 | From the initial state, after any sequence of user actions, the busy flag is down between actions, because the `finally` lowers it in the same handler. |
| Playground.StepsKeepAtRest | src/components/CodePlayground.tsx:47-95 | Every action sequence preserves "not running". |
| Playground.ScriptLanguagesAgree | src/components/CodePlayground.tsx:62 | JavaScript and TypeScript take the same path. The source is not transpiled, so both give the same output for the same evaluation. |
| Playground.CompletedOutput | src/components/CodePlayground.tsx:76-80 | A completed run shows the captured lines plus a return line exactly when the value is not undefined. If those lines are none or one empty line, the no-output message replaces them. Otherwise they are joined by newlines. |
| Playground.CompletedLinesReadBack | src/components/CodePlayground.tsx:76-80 | When no line contains a newline, splitting the output on newlines recovers exactly the captured lines followed by the return line. |
| Playground.ThrewOutput | src/components/CodePlayground.tsx:66-74 | A throw inside the user code is caught by the wrapper. The output is the earlier lines plus one ERROR line for the thrown value. There is no return line, no "Uncaught" line and never the no-output message. |
| Playground.EscapedOutput | src/components/CodePlayground.tsx:81-84 | An error that escapes the wrapper after user code has run keeps the lines logged before it and adds one "Uncaught error" line after them, with no fallback message. A construction failure is the same output with no lines. |
| Playground.EscapedLinesReadBack | src/components/CodePlayground.tsx:81-84 | With newline-free lines and message, splitting that output on newlines gives back the logged lines and then the uncaught-error line. |
| Playground.ParseErrorOutput | src/components/CodePlayground.tsx:81-84 | When constructing the function fails, the output is the "Uncaught error" prefix followed by the message. It reads back as a single line when the message has no newline. |
| Playground.MarkupPassThrough | src/components/CodePlayground.tsx:86-91 | HTML and CSS never evaluate anything: the output is the header, a blank line and the source, whatever evaluation would do. |
| Playground.RunOpensOutputPanel | src/components/CodePlayground.tsx:234 | After a run that was not blocked by the busy flag, the output is non-empty, so the output panel is open. |
| Playground.RunForgetsEarlierOutput | src/components/CodePlayground.tsx:50-51 | A run's result does not depend on the previous output. |
| Playground.EditCode | src/components/CodePlayground.tsx:216 | An editor change sets the code to the new value, or to "" when the value is missing, and changes nothing else. |
| Playground.ResetCode | src/components/CodePlayground.tsx:103-106 | Reset installs the reset snippet, clears the output and leaves every other field alone. |
| Playground.ResetIdempotent | src/components/CodePlayground.tsx:103-106 | Resetting twice is the same as resetting once. |
| Playground.CopyCode | src/components/CodePlayground.tsx:97-101 | Copy raises the "copied" flag and schedules one more reset timer. Nothing else changes. |
| Playground.CopyTimerFires | src/components/CodePlayground.tsx:100 | A pending copy timer lowers the flag and is used up. |
| Playground.CopyThenTimer | src/components/CodePlayground.tsx:97-101 | Copy followed by its timer returns the state to what it was, with the flag down. |
| Playground.ToggleExpand | src/components/CodePlayground.tsx:108-110 | Expand flips only the expanded flag. |
| Playground.MouseDown | src/components/CodePlayground.tsx:116-129 | While expanded, a press outside the playground collapses it and changes nothing else. Any other press changes nothing. |
| Playground.ToggleDarkMode | src/components/CodePlayground.tsx:112-114 | The theme toggle flips only the dark-mode flag. |
| Playground.TogglesInvolutive | src/components/CodePlayground.tsx:108-114 | Each toggle undoes itself, and the two toggles commute. |
| Playground.ChangeLanguage | src/components/CodePlayground.tsx:146 | The selector changes only the language. The output stays. |
| Playground.Preview | src/components/CodePlayground.tsx:246-257 | The preview frame is present exactly when the language is HTML and the output is non-empty, and it renders the current code. |
| Playground.PreviewFollowsEdits | src/components/CodePlayground.tsx:246-257 | After an HTML run, editing the code changes the preview at once, without another run. |
| Playground.PreviewAfterLanguageSwitch | src/components/CodePlayground.tsx:246-253 | Switching to HTML with any earlier output shows the current code in the preview, even if it was never run as HTML. |
| Playground.HelloWorldScenario | src/components/CodePlayground.tsx:56 | `console.log("Hello, World!")` outputs exactly that text. |
| Playground.ReturnScenario | src/components/CodePlayground.tsx:76-78 | Returning 4 outputs the return-value line with "4". |
| Playground.ThrowScenario | src/components/CodePlayground.tsx:70-72 | Throwing `new Error("boom")` outputs "❌ ERROR: {}", because an Error stringifies to "{}". |
| Playground.NoOutputScenarios | src/components/CodePlayground.tsx:80 | Silent code and a single `console.log("")` both show the no-output message. |
| Playground.MarkupScenario | src/components/CodePlayground.tsx:86-87 | An HTML run of `<b>hi</b>` shows the header and the markup, and previews the markup. |
| GitHub.ComputeStats | src/components/GitHubSection.tsx:62-68 | The stats are the sum of stars, the sum of forks and the number of repositories. |
| GitHub.TotalsAppend | src/components/GitHubSection.tsx:62-63 | Star and fork totals add up over concatenation. |
| GitHub.TotalStarsBounds | src/components/GitHubSection.tsx:62 | Every repository's stars are at most the total. The total is zero exactly when no repository has a star. |
| GitHub.Popular | src/components/GitHubSection.tsx:125-126 | The popular view keeps, in order, exactly the repositories with at least one star or fork. |
| GitHub.PopularExact | src/components/GitHubSection.tsx:125-126 | Any in-order selection of popular repositories that is as long as the popular count is the popular view, so the view is determined by these properties. |
| GitHub.PopularKeepsTotals | src/components/GitHubSection.tsx:125-126 | Dropping the repositories with no stars and no forks loses no stars or forks. |
| GitHub.FilteredRepos | src/components/GitHubSection.tsx:125-129 | The shown list draws only on the fetched repositories. The popular view holds exactly the starred or forked ones. The default view has min(n, 25) repositories sorted by stars. |
| GitHub.InsertByStars | src/components/GitHubSection.tsx:128 | Inserting into a list sorted by stars, most first, keeps it sorted and adds exactly that repository. |
| GitHub.SortByStars | src/components/GitHubSection.tsx:128 | The comparator `b.stars - a.stars` yields a permutation in descending star order. |
| GitHub.InsertStable | src/components/GitHubSection.tsx:128 | Insertion places the new repository ahead of every repository with as many stars. |
| GitHub.SortStable | src/components/GitHubSection.tsx:128 | The sort is stable: for every star count, the repositories with that count keep their input order. |
| GitHub.TopRepos | src/components/GitHubSection.tsx:127-129 | The default view has min(n, 25) repositories, sorted by stars and drawn from the input. |
| GitHub.TopReposAreTop | src/components/GitHubSection.tsx:127-129 | No repository left out of the default view has more stars than any repository shown. |
| GitHub.TopReposSplit | src/components/GitHubSection.tsx:127-129 | The default view is a prefix of the sorted list, and the left-out repositories are the rest of it. |
| GitHub.NoReposMessageIff | src/components/GitHubSection.tsx:230-237 | The "no repositories" message shows exactly when there are no repositories (default view), or when none has a star or fork (popular view). |
| GitHub.VisibleTopics | src/components/GitHubSection.tsx:310-312 | A card shows exactly the first min(n, 3) topics, and shows none only when there are none. |
| GitHub.Bump | src/components/GitHubSection.tsx:78 | Counting one event adds one to its day, leaves every other day alone, adds the day to the keys, and grows the total by one. |
| GitHub.ContributionMap | src/components/GitHubSection.tsx:74-79 | The map has one entry per distinct day, each with a positive count. Its keys are exactly the days on which some event happened. |
| GitHub.ContributionCounts | src/components/GitHubSection.tsx:74-79 | A day's count is the number of events on that day, and days with no events are absent and read as 0. |
| GitHub.NotInDaysLookup | src/components/GitHubSection.tsx:92 | A day missing from the map reads as 0 contributions. |
| GitHub.Weeks | src/components/GitHubSection.tsx:82-105 | The weeks, laid end to end, are the 366 days from today−365 to today with their counts. Each week has one to seven days, every week but the last ends on a Saturday, and the last ends today. |
| GitHub.DayOfWeek | src/components/GitHubSection.tsx:99 | `getDay()` of a day is a weekday in 0..6. DayOfWeekAnchor and NextDayOfWeek pin down which one. |
| GitHub.DayOfWeekAnchor | src/components/GitHubSection.tsx:99 | Day 0 (1970-01-01 UTC) is a Thursday (4), and weekdays repeat every seven days. |
| GitHub.Calendar | src/components/GitHubSection.tsx:84-90 | The calendar covers 366 days. |
| GitHub.CalendarDays | src/components/GitHubSection.tsx:84-97 | The calendar runs from today−365 to today, one day at a time, and each day carries the map's count for it, or 0. |
| GitHub.NextDayOfWeek | src/components/GitHubSection.tsx:99 | The weekday advances by one each day and wraps from Saturday (6) to Sunday (0). |
| GitHub.ActivityLevel | src/components/GitHubSection.tsx:136-143 | The level is high exactly below 3 thirty-day months since the update, and low exactly at 6 or more. Otherwise it is medium. |
| GitHub.ActivityMonotone | src/components/GitHubSection.tsx:136-143 | A repository updated longer ago never has a higher activity level. |
| GitHub.ActivityColor | src/components/GitHubSection.tsx:264-270 | Any level other than "high" and "medium" gets the grey badge. |
| GitHub.ActivityColorsDistinct | src/components/GitHubSection.tsx:264-270 | High, medium and low map to green, yellow and grey. |
| Projects.FilterProjects | src/components/Projects.tsx:90-98 | "all" shows every project. "featured" shows exactly the featured ones in order. Any other filter shows exactly the projects whose tag list contains that exact string. |
| Projects.FilterIsSubsequence | src/components/Projects.tsx:90-98 | Every filter keeps projects in their original order and never invents one. |
| Projects.EmptyStateIff | src/components/Projects.tsx:234-240 | The "no projects" message shows exactly when no project matches the filter. |
| Projects.FeaturedOnProjectData | src/components/Projects.tsx:93-94 | On the site's data, "featured" shows the bookstore, the wildlife site and the society site. |
| Projects.ExactTagMatch | src/components/Projects.tsx:96 | On the site's data, the tag filter "React.js" shows no project at all. |
| Projects.SpacedTagMatch | src/components/Projects.tsx:49 | Only the trip planner carries the tag " React.js", with a leading space, so that exact string selects only it. |
| Projects.TagSummary | src/components/Projects.tsx:193-205 | A card shows the first min(n, 3) tags. The "+k more" chip appears exactly when there are more than three, and it counts the rest. |
| Contact.HandleChange | src/components/Contact.tsx:41-44 | Typing into a field sets that field and leaves the other three unchanged. |
| Contact.HandleSubmit | src/components/Contact.tsx:46-48 | Submitting raises the busy flag and schedules the request timer. Nothing else changes. |
| Contact.SubmitDone | src/components/Contact.tsx:51-60 | When the request timer fires, busy goes down, the status becomes success, all four fields are cleared and the status-reset timer is scheduled. |
| Contact.StatusExpire | src/components/Contact.tsx:62-64 | The reset timer returns the status to idle and changes nothing else. |
| Contact.StepsKeepConsistent | src/components/Contact.tsx:46-66 | At most one request is in flight, exactly while busy; a success status always has a reset pending; no event sets the error status. |
| Contact.ErrorBannerDead | src/components/Contact.tsx:247-251 | Whatever the interleaving of edits, submits and timers, the status is only ever idle or success, so the error banner never shows. |
| Contact.SubmissionCycle | src/components/Contact.tsx:46-66 | Submit, request timer, reset timer: the form ends empty and idle, with no timers pending. |
| Contact.SubmitWhileSubmitting | src/components/Contact.tsx:221 | The disabled button ignores a second submit while one is in flight. |
| Hero.Substring | src/components/Hero.tsx:19 | `substring` returns the slice between in-range bounds. From a start at or below 0 it is the prefix up to the clamped end. It is never longer than the string. |
| Hero.SubstringSwap | src/components/Hero.tsx:19 | Reversed bounds give the same text as the bounds in order. |
| Hero.Shown | src/components/Hero.tsx:40 | The banner never shows empty text: empty becomes a single space. |
| Hero.TypeEffect | src/components/Hero.tsx:17-45 | One step shows the first `index` characters of the title, or a space when that is empty. Past the end it shows the whole title. The delay is 50 ms while deleting and 150 ms otherwise. Typing advances by the direction, changes nothing else inside the title, and turns to deleting once past the end. Deleting steps `index -= direction`; when that reaches 0 it stops deleting and schedules one more direction reset; otherwise only the index changes. |
| Hero.RestoreDirection | src/components/Hero.tsx:24-26 | The pending reset timer sets the direction to 1 and is used up. |
| Hero.ResetUnreachable | src/components/Hero.tsx:18-36 | From the start, under any interleaving of steps and timers, the code never reaches `index === 0` while deleting, and no direction reset is ever pending. |
| Hero.DeletingNeverShrinks | src/components/Hero.tsx:18-21 | As written, once deleting, the index grows by one per step and the full title stays shown forever. |
| Hero.DeletingStartsAtNineteen | src/components/Hero.tsx:28-36 | Nineteen steps after the start, the effect is deleting at index 19. |
| Hero.TypeEffectFixed | src/components/Hero.tsx:18-27 | The corrected step has the same frame guarantees, and deleting moves the index by the direction. |
| Hero.FixedDeletingEnds | src/components/Hero.tsx:18-27 | With the fix, deleting from index k shows the first k characters, and after k steps reaches index 0, stops deleting and schedules the direction reset. |
| Seqs.SplitJoin | src/components/CodePlayground.tsx:80 | Joining newline-free lines with "\n" and splitting on "\n" gives the lines back. |
| Seqs.JoinEmptyIff | src/components/CodePlayground.tsx:80 | A join with a non-empty separator is empty exactly for no parts, or for one empty part. This is when the fallback to the message applies. |
| Seqs.KeepUnique | src/components/GitHubSection.tsx:126 | An in-order selection of elements satisfying the predicate, as long as their count, is the filter's result. |

## Left out

- `new Function`, the user's code and `JSON.stringify` are not modelled. Their outcome is an input: `Evaluation`, and the JSON outcome carried by each object `Value`.
- Playground.ScriptLanguagesAgree: user code that replaces methods on the console object it receives is not modelled. The model assumes each console call reaches the capture.
- `String(v)` is total in the model. A value whose `toString` throws would escape `formatOutput` and is not modelled.
- Code that never terminates, or that schedules its own timers, is not modelled. The playground has no timeout.
- React's batching and rendering are reduced to "all updates in a handler apply together". The transient `isRunning = true` is therefore never observed.
- Playground.CopyCode: the model assumes `navigator.clipboard` exists. Outside a secure context `writeText` throws before the flag is raised and the timer is set, and that path is not modelled.
- The Monaco editor options, the clipboard write's effect on the system clipboard, the iframe sandbox, `isMobile` and the `dark` class on the document element are side effects with no state of their own in this model.
- Playground.MouseDown: the `closest('.code-playground-container')` test is not modelled. Whether a press landed inside the playground is an input.
- The GitHub `fetch` calls, their HTTP error paths and the JSON decoding are left out. The repositories and events are inputs.
- `Date`, time zones and `toISOString` are left out. Days are integers in UTC, and the time elapsed since an update is an integer number of milliseconds.
- GitHub.ActivityLevel: the floating-point division by a thirty-day month is not modelled. Integer milliseconds are compared with 3 and 6 months' worth.
- The copy, request and status-reset timers (2 s, 1.5 s and 5 s) are modelled without their durations, as pending-timer counters. Only the typewriter's 150/50 ms delays appear in the model. No clock orders timers, so any interleaving of pending timers is allowed.
- GitHub.SortByStars: its own contract states only sortedness and permutation. Stability is the separate lemma GitHub.SortStable.
- GitHub.TopRepos: its own contract does not state the order of equal-star repositories. TopReposSplit (a prefix of the sorted list) with SortStable does.
- GitHub.FilteredRepos: `repos.sort` sorts the state array in place. After the default view renders once, the popular view sees the repositories in star order. The model treats the two views as functions of the fetched list.
- The project images, descriptions and links, the scroll-reveal observers, and the header, footer, skills and helix components are static presentation.
- Projects.EmptyStateIff: `filteredProjects` is state written by effects, not a value computed during render. On mount, the filter effect runs with the still-empty `projects` and overwrites the list set by the load effect, so the first renders show "No projects found" under "all". After each filter click, one render still shows the previous list. The model gives only the settled list, as a function of the filter and the data.
- Contact: the browser's `required` and `type="email"` checks that gate submission are not modelled. Any submit event is accepted unless the button is disabled.
- Hero: the `setTimeout(() => {}, 2000)` on turning to deleting has no effect and is omitted. The first step's 1-second delay is not modelled.

## Findings

| source | as written | input that shows it | evidently intended | confidence | as-written member | corrected member |
|---|---|---|---|---|---|---|
| src/components/Hero.tsx:20 | While deleting, `index -= direction` with `direction === -1` increases the index, so `index === 0` is never reached. The banner shows the full title forever once typing completes. | Start from the initial state and take 19 steps: the effect is deleting at index 19, and every later step shows "Software Developer" with index 20, 21, … | Deleting removes one character per step until the index reaches 0, then stops deleting and schedules the direction reset | high (not executed) | Hero.DeletingNeverShrinks | Hero.FixedDeletingEnds |

Two further points where the code differs from what its comments or
descriptions say:

- The week-splitting comment in GitHubSection.tsx:99 says Sunday, but
  `getDay() === 6` is Saturday. `GitHub.Weeks` follows the code.
- The code playground reports a thrown `Error` through
  `console.error(err)`, which stringifies the error to "{}", so the message
  does not appear. `Playground.ThrowScenario` follows the code.
