# APNs token workflow and admin event panel, in Dafny

This project models the two pieces of sequential logic in the policy-benefit-admin React
Native client, and proves properties of them.

**The push-token workflow of `App.js`.** The app first asks for notification permission.
It then registers the device for remote messages. On iOS, once registration has
succeeded, it reads the APNs token, polling on a fixed interval for a bounded window.
The token's status (`idle`, `waiting`, `ready`, `error`), the token itself, the last
error and the AsyncStorage entries are kept in a class, `App.AppState`.
`sendTokensToBackend` registers again, gathers the tokens for the platform, stores the
truthy ones and posts one `{fcmToken, apnToken}` body. `refreshAPNs` registers again and
polls once more. `handleEvent` and `clearEvents` maintain the event feed.

**The list logic of `components/AdminPanel.js`.** This covers:
- filtering the loaded events by website (`getFilteredEvents`);
- the website list: "All" followed by each distinct `who` in order of first occurrence;
- the default selection after a load;
- the Total Calls figure and the empty-list message;
- the dropdown state, in the class `AdminPanel.PanelState`.

Files:
- `common.dfy` (module `Common`): JavaScript null/string values and truthiness.
- `host.dfy` (module `Host`): the platform as an oracle (class `Environment`). Firebase
  messaging, axios' POST and the clock behind `Date.now`/`setTimeout` all answer from
  scripts fixed in advance. AsyncStorage is not part of the platform here: it is the map
  `AppState.store`, and `setItem` is a map update that always succeeds. The environment also
  keeps a log of the calls that matter for ordering. It states the ordering contract
  `ReadsFollowRegistration`: every APNs read comes after a registration, and the most
  recent registration before it succeeded.
- `token_workflow.dfy` (module `TokenWorkflow`): the pure specification of the poll loop
  (`Poll`) and of the publisher (`Publish`), with the lemmas about them.
- `app.dfy` (module `App`): the class `AppState` and its methods. Each method is proved
  against a specification: the functions of `TokenWorkflow`, or the relations `Polled`,
  `ApnsStepped` and `Published` between two `Snapshot`s of the state, which are built on
  those functions. `Init`'s contract chains these relations: registration, then the APNs
  step, then the publisher.
- `admin_panel.dfy` (module `AdminPanel`): the filter, the website list, the default
  selection and the panel state.

How the platform is modelled:
- Each kind of platform call takes its answers from a script: `registrations`,
  `apnsReads`, `fcmReads`, `posts`, and `lags` (how late each timer fires).
- A token read answers `Token(s)`, `NoToken` (null) or `Throw(e)`.
- A thrown value keeps `String(e)` and whether `e` was truthy, because
  `lastErr ? String(lastErr) : ...` depends on that.
- `Environment.GetApnsToken` may only be called while the most recent registration
  succeeded. So the verifier checks the ordering guard at every call site: at start-up,
  in the poll loop, in the publisher and on refresh.
- The publisher at start-up runs in the closure of the first render, where `apnsToken` is
  still null, so on iOS it always reads the APNs token afresh; `Init`'s contract states
  this (`Published(afterApns, …, None)`).

## Model

| member | source | states |
|---|---|---|
| Common.Truthy | App.js:143-150 | JavaScript truthiness of a string-or-null, as in `if (apns)`, `if (fcm)` and `apnsToken \|\|`: null and the empty string are falsy |
| Common.OrNull | App.js:155 | `apns \|\| null`: a truthy string is kept; anything else becomes null, so a non-null result is never empty |
| Host.ValueOf | App.js:68-69 | the string-or-null value of a read that did not throw is the read's own string, or null for a null read; it is truthy exactly when the read ends a wait (a non-empty token) |
| Host.IsToken | App.js:69 | the `if (t)` exit test of the poll loop (and of the first read at App.js:111): a read ends a wait exactly when it yields a non-empty string |
| Host.At | App.js:51 | definition: a scripted platform answer is the next one of its script, or the default once the script is used up |
| Host.Attempted | App.js:66-68 | definition: the answers of `n` consecutive reads are the scripted answers from the current position on |
| Host.Reads | App.js:66-68 | the log entries of `n` polled reads are `n` APNs reads |
| Host.LastRegistrationOk | App.js:48-57 | the most recent registration recorded in the call log succeeded |
| Host.ReadsFollowRegistration | App.js:48-51 | the ordering contract over a call log: every APNs read comes after a registration, and the most recent one before it succeeded |
| Host.ReadsFollowRegistrationAt | App.js:48-51 | the ordering contract, stated read by read: before every APNs read in the log, the most recent registration succeeded |
| Host.ReadsAfterRegistration | App.js:104-107 | any number of APNs reads after a successful registration keeps the ordering contract, and the registration stays the most recent |
| Host.RegisteredOnce | App.js:139-143 | a call sequence that opens with a successful registration and registers nothing after it keeps the ordering contract |
| Host.Environment.RequestPermission | App.js:36 | the permission request answers with the scripted answer |
| Host.Environment.RegisterDevice | App.js:51 | registration takes the next scripted answer and is logged; the registration flag follows its outcome |
| Host.Environment.GetApnsToken | App.js:68 | an APNs read can only be made while the most recent registration succeeded; it takes the next scripted answer and is logged |
| Host.Environment.GetToken | App.js:149 | the FCM read takes the next scripted answer and is logged; it leaves the registration state alone |
| Host.Environment.Post | App.js:153-156 | the POST takes the next scripted answer and logs the body it sent |
| Host.Environment.Now | App.js:63-66 | `Date.now()` reads the clock |
| Host.Environment.Sleep | App.js:79 | a timer of `ms` advances the clock by `ms` plus that timer's lateness |
| TokenWorkflow.Enabled | App.js:37-39 | the permission answer counts as enabled exactly when it is AUTHORIZED or PROVISIONAL; a thrown request never does |
| TokenWorkflow.Poll | App.js:60-87 | the loop makes no read once `timeoutMs` has elapsed. A token is non-empty and ends the loop inside the window with one read more than sleeps. Without a token, every read was followed by a sleep and the window is over |
| TokenWorkflow.PollHit | App.js:68-74 | a read that yields a non-empty token ends the loop at once with that token |
| TokenWorkflow.PollMiss | App.js:76-79 | a read that yields null, the empty string or a throw does not end the loop: it sleeps and goes round with the caught value |
| TokenWorkflow.LastThrown | App.js:64-78 | the value `lastErr` holds after a sequence of answers: each throw overwrites it, and nothing else touches it, so it is the initial value or the error of one of the answers |
| TokenWorkflow.FailureMessage | App.js:82-85 | the error recorded on give-up: `String(lastErr)` when `lastErr` is truthy, else "Timed out waiting for APNs token." |
| TokenWorkflow.Misses | App.js:66-79 | after `k` empty turns, `k` reads and `k` timers are used up, and at least `k * intervalMs` has elapsed |
| TokenWorkflow.MissesStep | App.js:66-79 | one more empty turn advances the loop by one read, one timer and one interval plus its lateness |
| TokenWorkflow.PollAfterMisses | App.js:66-80 | after any number of empty turns the rest of the loop is the loop restarted from where they left it |
| TokenWorkflow.LastThrownNoThrow | App.js:64-78 | with no throw among the answers, `lastErr` keeps its initial value |
| TokenWorkflow.LastThrownIsLatest | App.js:76-78 | a throw only overwrites `lastErr`: the error kept is the one of the last read that threw |
| TokenWorkflow.AttemptedStep | App.js:66-68 | the answers of `n + 1` reads are the current answer followed by the answers of the next `n` |
| TokenWorkflow.PollSleepsOnlyAfterMisses | App.js:66-79 | every read that was followed by a sleep yielded null, the empty string or a throw: the loop never sleeps past a non-empty token |
| TokenWorkflow.PollReturnsLastRead | App.js:68-74 | a returned token is the answer of the last read the loop made |
| TokenWorkflow.PollLastError | App.js:64-85 | when the loop gives up, `lastErr` is `LastThrown` over exactly the answers it received |
| TokenWorkflow.PollWithinWindow | App.js:66-79 | the number of reads is bounded by the window: `(attempts - 1)` intervals after the start are still less than `timeoutMs` |
| TokenWorkflow.PollReadsInWindow | App.js:66-79 | every read starts inside the window, however late the timers fire: before the `k`-th read, all `k` earlier reads yielded no token and less than `timeoutMs` has elapsed |
| TokenWorkflow.PollFindsToken | App.js:66-75 | with timers on time, a token that the `k`-th read yields after `k` empty answers is returned, provided that read still starts inside the window |
| TokenWorkflow.PollFourthReadExample | App.js:60-75 | null three times then "abc", in a 1000 ms window at 200 ms: the loop returns "abc" after four reads, 600 ms in |
| TokenWorkflow.SaveIfTruthy | App.js:142-151 | definition of `if (token) setItem(key, token)`: a truthy token is written under its key; otherwise the store is unchanged |
| TokenWorkflow.ReadsApns | App.js:142-143 | the `isIOS` guard and the `apnsToken \|\|` short-circuit: `getAPNSToken` is called exactly on iOS when the cached token is not truthy |
| TokenWorkflow.ApnsBlock | App.js:142-145 | the iOS block reads only on iOS without a truthy cached token. It throws exactly when that read throws, and throws the read's own error. Its value is null off iOS, else the cached token, else the read's value |
| TokenWorkflow.FcmBlock | App.js:147-151 | the Android block reads only on Android. It throws exactly when that read throws, and throws the read's own error. Its value is null elsewhere, else the read's value |
| TokenWorkflow.PublishAfterApns | App.js:147-162 | after the iOS block: the Android block, then the one POST of `{fcmToken, apnToken: apns \|\| null}`, or the Android read's error rethrown |
| TokenWorkflow.PublishRegistered | App.js:140-162 | after registration: the iOS block, whose error is rethrown, else the rest of the publisher |
| TokenWorkflow.Publish | App.js:137-139 | the publisher's first call is the registration, with its outcome |
| TokenWorkflow.PublishRegistersFirst | App.js:137-162 | a failed registration ends the publisher with nothing read, stored or posted, and rethrows its error. No call sequence of the publisher breaks the ordering contract |
| TokenWorkflow.PublishReads | App.js:142-151 | the APNs token is read exactly when registration succeeded on iOS without a truthy cached token. The FCM token is read exactly when registration succeeded on Android and nothing threw before |
| TokenWorkflow.PublishPostsLast | App.js:153-162 | at most one POST, and only as the last call. It is made exactly when nothing threw before it, and its outcome is then the publisher's. Otherwise the publisher rethrows the error of the first failing call: the registration's, else the APNs read's, else the FCM read's |
| TokenWorkflow.PublishBody | App.js:142-156 | in the posted body, `apnToken` is the truthy cached token, else the read value or null, and null off iOS. `fcmToken` is the Android read as-is, and null elsewhere |
| TokenWorkflow.PublishSaves | App.js:142-151 | only the platform's own token is offered for storage, and only once its block has finished without a throw |
| App.AppState.constructor | App.js:25-31 | the first render: status idle, no token, no error, an empty feed; AsyncStorage holds whatever it held before |
| App.AppState.Polled | App.js:60-87 | the state after a poll run: the reads, timers, clock and log `Poll` uses up; a token ends in 'ready' with the token kept, the error cleared and the token stored; otherwise 'error' with `FailureMessage`, the old token and storage |
| App.AppState.ApnsStepped | App.js:107-125 | the state after the start-up APNs step: unchanged unless on iOS with registration confirmed; then one read whose token gives 'ready' and storage, whose throw gives 'error' with `String(e)`, and whose null or empty answer is followed by a poll with the defaults |
| App.AppState.Publication | App.js:137-163 | what the publisher does from a given state, with the cached token of its closure and the platform's next answers |
| App.AppState.Published | App.js:137-163 | the state after the publisher: its calls logged, the truthy tokens it reached stored, the answers it asked for used up; APNs status, token, error, timers and clock untouched |
| App.AppState.PublishedAfterRegistration | App.js:137-163 | a successful registration followed by what `PublishRegistered` describes is what `Publish` describes, state and outcome alike |
| App.AppState.RequestUserPermission | App.js:34-46 | the result is `Enabled` of the platform's answer: true exactly for an authorized or provisional status; false (never a throw) when the platform call throws |
| App.AppState.EnsureRemoteRegistration | App.js:49-57 | true exactly when registration did not throw; the call is logged and the registration flag follows it |
| App.AppState.Attempt | App.js:67-79 | one pass of the loop body, only in 'waiting' with the error cleared: one read; on no token, record a throw in `lastErr` and sleep `intervalMs` |
| App.AppState.WaitForApnsToken | App.js:63-80 | the `while` loop, run in 'waiting' with the error cleared, computes exactly `Poll`: its token, its last caught value, the reads, timers, clock and log it uses up |
| App.AppState.PollApnsToken | App.js:60-87 | status 'waiting' with the error cleared before the first read (the loop requires it), then the loop; the final state is `Polled` from the state before: a token ends in 'ready', is kept and stored under "apnToken"; otherwise 'error' with `String(lastErr)` or the timeout message, the token and storage untouched |
| App.AppState.StartupApns | App.js:106-125 | the final state is `ApnsStepped` from the state before: only on iOS with registration confirmed, one immediate read; a token goes straight to 'ready' and is stored with no poll; null or empty starts the poll with its defaults; a throw ends in 'error' with `String(e)` |
| App.AppState.GatherApns | App.js:142-145 | the iOS block carried out on the platform and storage: `ApnsBlock`'s value, throw, calls and store update |
| App.AppState.GatherFcm | App.js:147-151 | the Android block carried out: `FcmBlock`'s value, throw, calls and store update |
| App.AppState.SendAfterApns | App.js:147-156 | the Android block then one POST of `{fcmToken, apnToken: apns \|\| null}`, as `PublishAfterApns` describes |
| App.AppState.SendRegistered | App.js:140-156 | after registration, the two blocks and the POST, as `PublishRegistered` describes |
| App.AppState.SendTokensToBackend | App.js:137-163 | the publisher carried out on the platform: the final state is `Published` from the state before, and the outcome, which a failure is handed back in, is `Publication`'s |
| App.AppState.Init | App.js:98-134 | the start-up sequence: registration, logged and consumed; then the APNs step (`ApnsStepped` from the registered state); then the publisher with no cached token (`Published` from the state after the APNs step), whose failure is swallowed |
| App.AppState.RefreshApns | App.js:179-183 | off iOS only an alert, and no part of the state changes. On iOS it registers again; on success the final state is `Polled` from the registered state; on failure only the registration is consumed and logged |
| App.AppState.HandleEvent | App.js:190 | the new event goes in front of the feed |
| App.AppState.ClearEvents | App.js:191 | the feed becomes empty |
| AdminPanel.FromSite | components/AdminPanel.js:61 | the filter is never longer than the response and keeps only events from the site |
| AdminPanel.FilteredEvents | components/AdminPanel.js:57-62 | definition of `getFilteredEvents`: "All" gives the response unchanged; any other selection gives the events from that site (its properties are `FilteredEventsProperties`) |
| AdminPanel.FromSiteIsSubsequence | components/AdminPanel.js:61 | the filter keeps the original order: its result is a subsequence of the response |
| AdminPanel.FromSiteCounts | components/AdminPanel.js:61 | the filter keeps each event from the site exactly as often as in the response, and nothing else |
| AdminPanel.FromSiteIdempotent | components/AdminPanel.js:61 | filtering the filtered list by the same site changes nothing |
| AdminPanel.FilteredEventsProperties | components/AdminPanel.js:57-62 | `getFilteredEvents` yields a subsequence of the response. For a site it holds exactly that site's events with their counts. Applying it twice is the same as once |
| AdminPanel.Whos | components/AdminPanel.js:37 | definition of `map(event => event.who)`, position by position |
| AdminPanel.Distinct | components/AdminPanel.js:36-38 | `[...new Set(s)]` has no duplicates, holds exactly the values of `s`, and is never longer |
| AdminPanel.FirstIndex | components/AdminPanel.js:36-38 | the position of the first occurrence of a value |
| AdminPanel.DistinctFirstOccurrenceOrder | components/AdminPanel.js:36-38 | the set lists its values in order of first occurrence |
| AdminPanel.DistinctHead | components/AdminPanel.js:36-45 | the first value of the set is the first value inserted |
| AdminPanel.WhosCoverage | components/AdminPanel.js:36-40 | every `who` of the response is in the set, and only those are |
| AdminPanel.WebsiteOptionsProperties | components/AdminPanel.js:36-40 | the website list is "All" followed by each distinct `who` exactly once, in order of first occurrence, covering every event |
| AdminPanel.WebsiteOptions | components/AdminPanel.js:39 | `['All', ...websites]` |
| AdminPanel.DefaultSelectionIsFirstSite | components/AdminPanel.js:43-45 | after a load, the selection is the `who` of the first event, or unchanged when nothing was loaded, and is then offered in the list |
| AdminPanel.DefaultSelection | components/AdminPanel.js:43-45 | the selection after a load: the first website when there is one, else the current selection |
| AdminPanel.TotalCalls | components/AdminPanel.js:208-210 | the Total Calls figure is the length of the filtered list |
| AdminPanel.EmptyMessage | components/AdminPanel.js:249-255 | the message shown instead of an empty filtered list |
| AdminPanel.EmptyMessageProperties | components/AdminPanel.js:208-255 | a message replaces the list exactly when Total Calls is 0. It reads "No recent events" when nothing was loaded and "No events from <selection>" otherwise; with "All" selected it appears only when nothing was loaded, and never for a site an event came from. Total Calls never exceeds the response |
| AdminPanel.PanelState.constructor | components/AdminPanel.js:23-27 | the initial state: empty response, list ["All"], selection "All", dropdown closed, no error |
| AdminPanel.PanelState.FetchPayload | components/AdminPanel.js:29-49 | a load stores `data.data \|\| []`, the website list and the default selection. A failure only records "Error fetching data: " plus the message |
| AdminPanel.PanelState.ToggleDropdown | components/AdminPanel.js:199 | the dropdown button flips `showDropdown` |
| AdminPanel.PanelState.SelectWebsite | components/AdminPanel.js:229-232 | picking an item selects it and closes the dropdown |

## Left out

- Rendering: React components, styles, the APNs badge label (App.js:166-177), the `showAPNs`
  alert text (App.js:185-187) and `formatTime` (locale-dependent date formatting).
- components/SocketClient.js, services/SoundService.js, services/notification.js,
  services/api.js and index.js are not part of this model. They are transport, sound,
  OS dialogs and bootstrapping. `getPayload` is an input (`FetchOutcome`) to
  `PanelState.FetchPayload`.
- Firebase messaging, axios, `Date.now` and `setTimeout` are scripted oracles. The clock is an integer that only a timer
  advances, by its delay plus a scripted lateness. Time spent inside the platform calls
  themselves is not modelled.
- AsyncStorage is the map `AppState.store`, and a `setItem` never fails. So the model
  leaves out a throwing `setItem`. Inside the poll loop (App.js:72), such a throw
  would be caught after 'ready' and the token were already set, and the loop would go
  on reading.
- The foreground `onMessage` listener (App.js:90-95) and every `console.log` are left out:
  they only log.
- Asynchronous interleaving is not modelled. Each operation runs to completion before the
  next starts. The code has no single-flight guard: `refreshAPNs` can start a second
  `pollAPNSToken` while one is waiting. The model asserts no such guard.
- App.AppState.PollApnsToken: requires `intervalMs > 0` so that the loop provably ends. The
  source always uses its default of 800 ms. The source writes the 'ready' state inside the
  loop before returning; the model writes it right after the loop, with the same final
  state.
- App.AppState.Init: the permission prompt is not logged, so no contract places it
  before the registration; its answer does not influence anything that follows
  (App.js:101 discards it).
- The ordering guard is a precondition of `Environment.GetApnsToken`, checked at each call
  site, and is backed by a ghost registration flag; the platform itself enforces nothing.
- AdminPanel.PanelState.FetchPayload: the partial-failure path is not modelled. This
  covers a `data` that is not an object, a truthy `data.data` that is not an array, a
  `null` event, and events whose `who` is missing. In the last three cases
  `setResponse` (components/AdminPanel.js:33) has already run when
  `.map(event => event.who)` (line 37) throws. The code then ends with the new response
  and the error message, whereas `FetchFailed` leaves the response unchanged. A site that is itself named "All" is not treated
  specially, as in the code.
- The AdminPanel sound toggle, the volume control and `clearEvents` confirmation
  (components/AdminPanel.js:64-69) are UI around SoundService and the Alert dialog.
