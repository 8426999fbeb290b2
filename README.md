# A verified model of the decision rules of a campus e-voting front end

The front end is a React application where students vote in elections and admins run them. Most of it is rendering and REST calls. This project models the rules it decides by itself, and proves what those rules promise:

- **Election window** (`Schedule`). The dashboard's status chip (Upcoming / Completed / Active, each with one colour) and the election page's `isActive` test. It also holds the start-before-end date check, which the creation form and the edit dialog both apply.
- **Registration** (`Register`, `Numerals`). The four checks of the registration form run in order:
  1. the passwords match;
  2. the e-mail ends in `@vit.ac.in`;
  3. the phone number matches `/^\d{10}$/`;
  4. the joining year, read by JavaScript's `parseInt` without a radix, lies in [2000, current year].

  The first failing check names the error, and only a form that passes all four is sent. The page itself is a class whose submit handler returns at the first failed guard.
- **Tally** (`Tally`):
  - each candidate's percentage, computed exactly in rationals and rounded by `toFixed(1)` to the nearest tenth, ties upward;
  - the leader's count (`Math.max`) and the bar width relative to it;
  - the result cards with their rank numbers.
- **Election page** (`ElectionDetails`):
  - who sees the vote button;
  - which notice is shown;
  - the guards in front of the vote, vote-history and edit calls;
  - a class holding the page's view state, whose handlers update it step by step.
- **Results page** (`Results`). Which of its four screens it shows, and the fetch that decides it.
- **Creation form** (`CreateElection`). A class for the form's state, the date checks it runs before posting, and the `loading` flag around the post.
- **Routing** (`Routes`). The `PrivateRoute` guard and the route table: which paths are public, private or admin-only, and where redirects lead.

## How the model stands in for the outside world

- The current time is a parameter `now`, in integer milliseconds. Timestamps are integers too.
- Backend calls are not made. A handler takes the call's outcome as a `Response` parameter: either the body, or the thrown error's server message and own message. Requests the page sends are recorded in a field (`requests`, `posted`, `registered`).
- The navigations a handler performs are recorded in `navigatedTo`.
- A JavaScript value that may be `null`/`undefined` is an `Option`. Truthiness of an optional string is `Truthy`, and `a || b` on strings is `OrElse`.

## Model

| member | source | states |
|---|---|---|
| Schedule.GetElectionStatus | src/pages/AdminDashboard.js:51-63 | Upcoming exactly when now < start, Completed exactly when start <= now and end < now, Active exactly when start <= now <= end (so exactly one label, and Upcoming wins for an inverted window); each label has its one colour; an inverted window is never Active |
| Schedule.IsActive | src/pages/ElectionDetails.js:233-234 | holds exactly when the dashboard's status is Active; implies start <= end |
| Schedule.CheckDates | src/pages/CreateElection.js:49-55 | passes exactly when both dates are present and start < end; a missing date reports "Please select both start and end dates" before the ordering is looked at; start >= end (equal dates included) reports "End date must be after start date"; the same check guards the edit dialog (src/pages/ElectionDetails.js:179-185) |
| Numerals.ParseInt | src/pages/Register.js:59 | a negative result comes only from a leading minus sign, and a minus sign never gives a positive result; NaN only when the digits after the sign (and any 0x prefix) are missing |
| Numerals.TrimStartSkipsWhitespace | src/pages/Register.js:59 | leading JavaScript white space is removed entirely, so the trimmed string is the same with or without it |
| Numerals.ParseIntOfTrimmed | src/pages/Register.js:59 | `parseInt` gives the same result for two strings that agree once their leading white space is trimmed |
| Numerals.ParseIntSkipsWhitespace | src/pages/Register.js:59 | leading JavaScript white space never changes what `parseInt` returns |
| Numerals.ParseIntOfDecimal | src/pages/Register.js:59 | `parseInt` reads back the decimal numeral of every natural number, also with a trailing non-digit suffix, except a lone 0 followed by x or X, which starts a hex numeral |
| Numerals.ParseIntOfNegative | src/pages/Register.js:59 | a leading minus sign yields the negated value |
| Numerals.NoDigitMeansNaN | src/pages/Register.js:59-60 | a string without a decimal digit parses to NaN |
| Numerals.HexPrefixExample | src/pages/Register.js:59 | without a radix, "0x7D0" is read in base 16 as 2000 |
| Numerals.ParseDigitsOfHex | src/pages/Register.js:59 | after a "0x" prefix the digits are read in radix 16 |
| Numerals.ToDecimal | src/pages/Register.js:59 | the numeral is non-empty, all digits, without leading zeros, and denotes its number |
| Register.MatchesDigitsToEndIff | src/pages/Register.js:52 | the anchored pattern `\d{k}$` matches exactly the strings of k ASCII digits |
| Register.PhoneNumberIsTenDigits | src/pages/Register.js:52-55 | a phone number is accepted exactly when it has ten characters, each 0-9; "12345" and "12345678901" are rejected, "1234567890" accepted |
| Register.JoiningYearRange | src/pages/Register.js:58-63 | a year typed as its numeral is accepted exactly when 2000 <= year <= current year, both bounds inclusive |
| Register.JoiningYearWithoutDigits | src/pages/Register.js:59-63 | a year field without digits is NaN and rejected |
| Register.FirstFailure | src/pages/Register.js:41-63 | no message exactly when every check passes; otherwise the message of a failing check all of whose predecessors pass |
| Register.Validate | src/pages/Register.js:41-74 | a password mismatch reports "Passwords do not match" whatever else the form holds; success exactly when all four checks pass; the payload's joining year is the parsed number within [2000, current year], and its other fields are the form's own (no confirmation password) |
| Register.ValidateReportsFirstFailure | src/pages/Register.js:41-63 | the reported error is the first failing check's message in the checks' fixed order, and there is one exactly when some check fails |
| Register.EmailSuffixDecides | src/pages/Register.js:46-49 | with matching passwords, the e-mail error is reported exactly when the address does not end in "@vit.ac.in" |
| Register.RegisterPage.constructor | src/pages/Register.js:16-26 | every field of the form starts empty and there is no error |
| Register.RegisterPage.HandleChange | src/pages/Register.js:30-35 | only the named field takes the new value |
| Register.RegisterPage.HandleSubmit | src/pages/Register.js:37-79 | a failed check sets its message and registers nothing; a passing form registers exactly the validated payload, then either opens the dashboard or shows the server's message, falling back to "Failed to register" |
| Tally.Share | src/pages/Results.js:93-95 | 0 when there are no votes; otherwise share * total = 100 * count; never negative, and at most 100 when count <= total |
| Tally.RoundTenths | src/pages/ElectionDetails.js:72 | `toFixed(1)` as tenths: within half a tenth of the exact value, ties upward; at most 1000 for values up to 100 |
| Tally.RoundedShare | src/pages/ElectionDetails.js:72 | the tenths shown equal the integer (2000 v + t) div (2 t), the nearest integer to 1000 v / t with ties upward |
| Tally.CandidatePercentage | src/pages/ElectionDetails.js:69-73 | the number 0 exactly when the total is missing or zero (a missing count counts as 0); otherwise the rounded share, at most 100.0 when count <= total |
| Tally.ThreeToOneExample | src/pages/ElectionDetails.js:69-73 | 3 and 1 of 4 votes show 75.0 and 25.0; no votes show 0 |
| Tally.Fixed1 | src/pages/Results.js:119 | the text is digits, a point and one tenths digit, reads back as the number of tenths, and has no leading zero before the point except the single 0 of "0.x" |
| Tally.PercentageLabelsAgree | src/pages/Results.js:93-95 | with votes, the election page and the results page print the same percentage; with none, the first prints "0" and the second "0.0" |
| Tally.WithPercentages | src/pages/ElectionDetails.js:70-78 | same length and order, and each candidate changes only in its percentage |
| Tally.MaxVotes | src/pages/Results.js:70 | bounds every count and is attained; absent (-Infinity) exactly for an empty list |
| Tally.BarWidthAsWritten | src/pages/Results.js:124 | NaN exactly when the leader's count is 0; otherwise width * maxVotes = 100 * count |
| Tally.AllZeroCountsGiveNaN | src/pages/Results.js:124 | with all counts zero the leader's count is 0 and every bar width as written is NaN |
| Tally.BarWidth | src/pages/Results.js:124 | in [0, 100] for every count up to the leader's; the leader's bar is full when the leader has votes; all-zero counts give empty bars; equals the written formula whenever the leader has votes |
| Tally.MaxOfLeader | src/pages/Results.js:70 | a count no smaller than any other is the maximum |
| Tally.RowOf | src/pages/Results.js:97-126 | one card shows its candidate's own fields under rank index + 1, the rounded share `Tally.RoundTenths(Tally.Share(count, total))` as its percentage and `Tally.BarWidth(count, max)` as its bar; its bar lies in [0, 100] when its count is at most the leader's, and is full for the leader when the leader has votes; its percentage lies in [0, 100.0] when its count is at most the total, and is 0 without votes |
| Tally.ResultRows | src/pages/Results.js:70-124 | one card per candidate in the order received, rank i + 1 and that candidate's own fields; each percentage is the rounded share of its count in the total, and each bar is `Tally.BarWidth` of its count against `Tally.MaxVotes` of all counts; every bar in [0, 100], and the leader's full when it has votes; every percentage at most 100.0 when no count exceeds the total, and 0 when there are no votes |
| Tally.RankIsPositionNotVotes | src/pages/Results.js:108 | ranks follow position, not votes: a first candidate with fewer votes is still ranked 1 |
| ElectionDetails.Includes | src/pages/ElectionDetails.js:232 | `includes` holds exactly when the id is present and in the list |
| ElectionDetails.HasVoted | src/pages/ElectionDetails.js:232 | true exactly when the user, the list and the id are present and the list holds the id |
| ElectionDetails.BannerFor | src/pages/ElectionDetails.js:269-281 | the not-active notice exactly when inactive, the already-voted notice exactly when active and voted, the prompt to choose otherwise |
| ElectionDetails.ShowVoteButton | src/pages/ElectionDetails.js:344 | shown exactly when active, not yet voted and not an admin; a shown button always comes with the prompt to choose |
| ElectionDetails.VoteButtonGate | src/pages/ElectionDetails.js:232-344 | the button shows exactly when the dashboard would label the election Active, the user has not voted and is no admin; an admin in an open election sees the prompt but no button |
| ElectionDetails.ShowVoteHistory | src/pages/ElectionDetails.js:344-364 | the history table shows only to admins and only with rows, and whoever sees it never sees a vote button, whatever the election's state |
| ElectionDetails.MountRequests | src/pages/ElectionDetails.js:110-121 | nothing without an election id; otherwise the election first, then the vote history exactly for an admin, and no other request (one request, or two for an admin) |
| ElectionDetails.VoteRequest | src/pages/ElectionDetails.js:123-133 | without an election or candidate id, the error "Invalid election or candidate ID" and no post; otherwise a post of exactly that pair |
| ElectionDetails.ViewOf | src/pages/ElectionDetails.js:209-364 | the spinner exactly while loading, "Election not found" exactly when loaded with no election; otherwise the page with the notice, vote buttons, admin controls, history table as the rules above decide, and an error alert present exactly when there is an error and showing that error |
| ElectionDetails.ElectionDetailsPage.constructor | src/pages/ElectionDetails.js:37-50 | no election, no history, loading, no error, dialogs closed, empty edit form |
| ElectionDetails.ElectionDetailsPage.FetchElectionDetails | src/pages/ElectionDetails.js:55-65 | without an id: "Invalid election ID", loading stops and nothing is requested; otherwise the error clears, loading starts and the election is requested |
| ElectionDetails.ElectionDetailsPage.FetchVoteHistory | src/pages/ElectionDetails.js:89-95 | the history is requested exactly for an admin with an election id |
| ElectionDetails.ElectionDetailsPage.Mount | src/pages/ElectionDetails.js:110-121 | the requests made are those of MountRequests |
| ElectionDetails.ElectionDetailsPage.ReceiveElection | src/pages/ElectionDetails.js:62-86 | loading always stops; a body is kept with its percentages attached; an empty body reports "No election data received"; a failure shows the server's message or "Error fetching election details" |
| ElectionDetails.ElectionDetailsPage.ReceiveVoteHistory | src/pages/ElectionDetails.js:94-107 | a body replaces the rows (none when it has no list); a failure changes nothing |
| ElectionDetails.ElectionDetailsPage.SelectCandidate | src/pages/ElectionDetails.js:349-352 | the candidate is selected and the confirmation dialog opens |
| ElectionDetails.ElectionDetailsPage.HandleVote | src/pages/ElectionDetails.js:123-140 | the guard's error and no post; or the post, then on success the dialog closes and the election is requested again, on failure the server's message or "Error casting vote" |
| ElectionDetails.ElectionDetailsPage.HandleEditClick | src/pages/ElectionDetails.js:152-160 | the edit form holds the election's fields and the dialog opens |
| ElectionDetails.ElectionDetailsPage.HandleEditChange | src/pages/ElectionDetails.js:162-168 | only the named text field changes |
| ElectionDetails.ElectionDetailsPage.HandleEditDateChange | src/pages/ElectionDetails.js:170-175 | only the named date changes |
| ElectionDetails.ElectionDetailsPage.HandleEditSubmit | src/pages/ElectionDetails.js:177-198 | a failed date check shows its message and sends nothing; otherwise the update is sent, then on success the dialog closes and the election is requested again, on failure the server's message or the error's own is shown |
| ElectionDetails.ElectionDetailsPage.HandleDelete | src/pages/ElectionDetails.js:200-207 | the delete is sent; on success the admin dashboard opens, on failure the server's message or "Error deleting election" |
| Results.SelectView | src/pages/Results.js:39-68 | the spinner exactly while loading, then the error alert exactly when there is an error, then "No results" exactly when there are none, and otherwise the election's title, description and total with the cards of ResultRows |
| Results.ResultsPage.constructor | src/pages/Results.js:18-20 | no results, loading, no error |
| Results.ResultsPage.Mount | src/pages/Results.js:24-26 | one request for the route's election id |
| Results.ResultsPage.ReceiveResults | src/pages/Results.js:28-37 | loading always stops; a body is kept; a failure shows the server's message or "Error fetching results", so a failure always ends on the error screen |
| CreateElection.CreateElectionPage.constructor | src/pages/CreateElection.js:17-24 | an empty form, no error, not loading |
| CreateElection.CreateElectionPage.HandleChange | src/pages/CreateElection.js:27-33 | only the named text field changes |
| CreateElection.CreateElectionPage.HandleDateChange | src/pages/CreateElection.js:35-40 | only the named date changes |
| CreateElection.CreateElectionPage.Submit | src/pages/CreateElection.js:42-61 | a failed date check shows its message, posts nothing and leaves loading off; a valid form is posted exactly once with the error cleared and loading on; nothing happens while loading |
| CreateElection.CreateElectionPage.ReceiveResponse | src/pages/CreateElection.js:57-68 | loading is off afterwards whatever the outcome; success opens the admin dashboard; a failure shows the server's message, falling back to the error's own |
| Routes.PrivateRoute | src/App.js:15-31 | loading text exactly while loading; then login exactly without a user; then the dashboard exactly for a non-admin on an admin-only route; the page exactly for a user allowed to see it |
| Routes.FindRoute | src/App.js:37-97 | the first route of the table whose pattern matches, or none exactly when no pattern matches |
| Routes.AtMostOneRouteMatches | src/App.js:38-96 | no path matches two routes, so neither table order nor route ranking affects which page a path reaches |
| Routes.FindMatchingRoute | src/App.js:38-96 | a path reaches the route whose pattern it matches |
| Routes.Resolve | src/App.js:37-97 | no landing exactly when no route matches |
| Routes.AdminOnlyRoutes | src/App.js:56-79 | exactly three routes are admin-only, and they are the admin dashboard, election creation and candidate creation |
| Routes.RouteAccess | src/App.js:38-96 | a route is public exactly for login and registration, and admin-only exactly for the three admin pages |
| Routes.GuardedPagesNeedUser | src/App.js:15-96 | a page other than login and registration renders only for a loaded session with a user, and an admin page only for an admin |
| Routes.PublicPagesAlwaysRender | src/App.js:38-39 | /login and /register render whatever the session |
| Routes.RedirectTargets | src/App.js:22-28 | with the session known, every redirect goes to /login or /dashboard |
| Routes.DashboardResolves | src/App.js:38-47 | /login always renders, and /dashboard renders for any user and sends anyone else to /login, so redirects end on a page within two hops |
| Routes.TableRedirectsToDashboard | src/App.js:96 | the only redirect in the table goes to /dashboard |
| Routes.RootRedirects | src/App.js:96 | "/" redirects to /dashboard whatever the session |

## Left out

- Backend calls and the backend itself, including its one-vote-per-voter rule: each call's outcome is a parameter, and the calls are recorded, not made.
- The order in which overlapping fetches complete: each answer is a separate method, applied in whatever order the caller chooses.
- The wall clock: `now` and the current year are parameters. Where the page calls `new Date()` more than once in one rule, the model uses one instant.
- Date parsing and formatting (`toISOString`, `toLocaleDateString`), and comparisons with invalid dates (NaN): dates are integers.
- IEEE doubles: shares and bar widths are exact rationals, and `toFixed(1)` rounds the exact value, ties upward. Rounding of the binary value near a tie is not modelled.
- `Numerals.ParseInt`: models the full no-radix `parseInt`, including white space, sign and the 0x prefix, on unbounded integers. The loss of precision for numerals beyond 2^53 is not modelled.
- Tally.RowOf: uses the corrected bar width `Tally.BarWidth` of the finding below. When every count is 0 the page as written gives NaN bars (`Tally.AllZeroCountsGiveNaN`), while the model gives empty bars.
- Tally.ResultRows: uses the corrected bar width through `Tally.RowOf`, as the line above says. It also takes every candidate's count as present: the results page reads `voteCount` with no `|| 0` fallback (src/pages/Results.js:70, 94, 124), so a missing count would print "NaN%" and make every bar NaN. That case is not modelled.
- Tally.PercentageLabelsAgree: holds for counts that are present. For a missing count among votes the election page prints 0.0 (it falls back to 0) while the results page prints "NaN", which is not modelled.
- Routes.Resolve: matches routes by exact, case-sensitive equality of non-empty path segments. The router's case-insensitive matching, trailing-slash handling and outlet rendering are not modelled, so "/Admin" is not treated as "/admin".
- ElectionDetails.ElectionDetailsPage.ReceiveVoteHistory: does not merge an `election` object from the history response into the page's election.
- ElectionDetails.ElectionDetailsPage.ReceiveElection: the response's candidate list is always present. The `TypeError` a missing list would throw, which the page reports with the fallback message, is not modelled.
- Results.ResultsPage.ReceiveResults: the response body's `election` field is the `Option` given. The `TypeError` an absent body would throw is not modelled.
- Results.SelectView: the results' candidate list is always present. Without it the page throws a `TypeError` while rendering (src/pages/Results.js:70), which is not modelled.
- Opening and closing the confirmation and delete dialogs (`setOpenDialog(false)` on cancel, `setOpenDeleteDialog`): plain flag toggles. The confirmation dialog's call is the `HandleVote` handler given the selected candidate's id.
- AdminDashboard's list, its loading state and its delete-then-refetch handler: only `getElectionStatus` is modelled from that page.
- The user profile, dashboard, navigation bar and candidate creation views: they fetch and render, with nothing beyond role checks and upload plumbing.
- JSX, the component library and React's hook scheduling: of the markup, only the rendering decisions (`ViewOf`, `SelectView`, the `PrivateRoute` outcome) and the submit button that `loading` disables on the creation form are modelled.
- CreateElection.CreateElectionPage.Submit: the browser's own constraint checks, which run before the handler because the form does not set `noValidate`, are not modelled. The `required` title and description (src/pages/CreateElection.js:87-107) block the submit event on the page, so the model posts forms with an empty title or description that the page never sends.
- Register.RegisterPage.HandleSubmit: the browser's constraint checks on the registration form are not modelled. These are `required` on all eight fields, `type="email"` on the address and `type="number"` with `min` 2000 and `max` the current year on the joining year (src/pages/Register.js:97-185). They run before the handler, so the model accepts and rejects, with the handler's messages, inputs that the page stops earlier with the browser's own prompt; the year-range message, for instance, is only reachable on the page for inputs such as "2e3".
- Register.Validate: states the handler's own check chain. On the page an empty required field or a malformed address is stopped by the browser's prompt before that chain runs, so "Passwords do not match" whatever else the form holds is a promise about the handler, not about what the page shows.

## Findings

| source | as written | input that shows it | evidently intended | confidence | as-written member | corrected member |
|---|---|---|---|---|---|---|
| src/pages/Results.js:124 | the bar width divides each count by `maxVotes` without a guard | an election whose candidates all have 0 votes: `maxVotes` is 0 and every width is 0/0 = NaN | empty bars when nobody has voted, as the percentage's own zero-vote guard does (src/pages/Results.js:93-95) | not executed | Tally.BarWidthAsWritten, Tally.AllZeroCountsGiveNaN | Tally.BarWidth |
