# specify-gmeet-mic content script, modelled in Dafny

The content script runs on the video-conferencing page. It selects the user's preferred microphone with retried page interactions. It also keeps a stored list of microphone labels for the popup, and it re-selects the microphone a few seconds after the host reports a device change. This project models that script in Dafny and proves what each part does.

- `Outcome` (outcome.dfy): how a step settles (`Attempt`), an optional value (`Option`), and JavaScript truthiness of an optional string.
- `Text` (text.dfy): `String.prototype.includes`, proved equal to "occurs at some index".
- `Backoff` (backoff.dfy): `withExponentialBackoff`. The operation is a function from the invocation number to how that invocation settles. The result records the number of invocations, the sleeps between them and the final outcome.
- `Devices` (devices.dfy): the filter and map that turn the enumerated devices into the stored `mics` list, and `updateDeviceList`.
- `PageRules` (page_rules.dfy): the rules that choose which page element each step clicks, or decide that the step throws. Elements are abstract records in document order.
- `MicSelection` (mic_selection.dfy): `setMic`. The page seen by each invocation of each step is a parameter. A loop awaits the steps of the lobby path and, if one of them exhausts its retries, the steps of the settings-dialog fallback. The module also proves the invocation and sleep budgets of both paths.
- `DeviceChange` (device_change.dfy): the device-change handler. It is a class holding the `eventHandled` flag and the timers it schedules on an abstract millisecond clock. A reference function `Debounce` says which events are acted on.
- `Startup` (startup.dfy): what the script does when the page loads.

## Model

| member | source | states |
|---|---|---|
| Text.IncludesIff | content-script.js:170 | `includes` holds exactly when the needle occurs at some index of the text |
| Backoff.WithExponentialBackoff | content-script.js:2-15 | 1 to `maxRetries + 1` invocations; the outcome is that of the last invocation; every earlier one threw; a throw is rethrown only after the whole budget; the sleeps are `delay, 2·delay, …`, one between each pair of invocations |
| Backoff.AlwaysFailing | content-script.js:6-12 | an operation that always throws is invoked `maxRetries + 1` times and the last error is rethrown |
| Backoff.NoRetries | content-script.js:7-8 | with `maxRetries == 0`, one invocation, no sleep, and the error is rethrown |
| Backoff.FirstSuccess | content-script.js:3-5 | if the `k`-th invocation is the first to return, there are exactly `k` invocations and its value is returned |
| Backoff.WaitSchedule | content-script.js:10-12 | the `i`-th sleep is `delay · 2^i` |
| Backoff.TotalWait | content-script.js:10-12 | the total sleep is `delay · (2^(calls−1) − 1)`, at most `delay · (2^maxRetries − 1)` |
| Backoff.DefaultSchedule | content-script.js:2 | with the defaults (4 retries, 50 ms), an always-throwing operation sleeps 50, 100, 200 and 400 ms |
| Devices.Mics | content-script.js:66-68 | the list is no longer than the device list and holds no "AirPods" label |
| Devices.MicsSpec | content-script.js:66-68 | the list holds, in device order, exactly the labels of the devices of kind "audioinput" not labelled "AirPods"; device ids are dropped |
| Devices.MicsAppend | content-script.js:66-68 | the filter works entry by entry: the list of a concatenation is the concatenation of the lists |
| Devices.AllAirPodsHidden | content-script.js:64-67 | every device labelled exactly "AirPods" is dropped, not just one |
| Devices.UpdateDeviceList | content-script.js:60-74 | a successful enumeration replaces the stored list with the filtered one; a failed enumeration leaves it unchanged |
| PageRules.FirstIndex | content-script.js:198 | the first element satisfying the predicate, or none when no element does |
| PageRules.At | content-script.js:154-158 | `Array.prototype.at`: defined exactly for `−length ≤ k < length`, and a negative index counts from the end |
| PageRules.ClickMoreOptionsButton | content-script.js:145-165 | on a window narrower than 600 px during a call it picks the second-to-last "More options" button, otherwise the last; if that button does not exist it throws the "More actions" error |
| PageRules.ClickSettingsButton | content-script.js:167-177 | it picks the first menu entry whose text contains "Settings", and throws exactly when no entry does |
| PageRules.ClickMicrophoneSelector | content-script.js:179-187 | it succeeds exactly when the microphone selector exists |
| PageRules.ClickDesiredMic | content-script.js:189-205 | with a truthy id that some list item carries, it picks the first such item; otherwise it picks the first option whose text contains the name; with neither it throws "Mic selector not found" |
| PageRules.NoIdPicksByName | content-script.js:190-199 | without an id, the choice is the first option showing the name |
| PageRules.CloseDialog | content-script.js:207-215 | it succeeds exactly when the close button exists, and otherwise reports "Mic selector not found" |
| PageRules.CheckIfDesiredMicSelected | content-script.js:217-223 | it succeeds exactly when the selector exists and its text contains the name at some index |
| MicSelection.RunPath | content-script.js:82-140 | the steps run in order, each at its position; a step runs only if every earlier step returned; running stops only at the end or after a step that exhausted its retries |
| MicSelection.SetMic | content-script.js:76-141 | with no name nothing runs; the fallback runs exactly when a lobby step failed; the call throws exactly when a fallback step failed, and then it throws that step's last error |
| MicSelection.PathWithinBudget | content-script.js:82-140 | a run of a path invokes operations at most the path's budget and sleeps at most its sleep budget |
| MicSelection.PathBudgets | content-script.js:86-139 | the lobby path makes at most 13 invocations and sleeps at most 2650 ms; the fallback makes at most 30 and sleeps at most 9000 ms |
| DeviceChange.Debounce | content-script.js:43-55 | the first event is always acted on, and no more events are acted on than arrive |
| DeviceChange.ShiftedAt | content-script.js:46-48 | the `i`-th re-selection is due 3000 ms after the `i`-th acted-on event |
| DeviceChange.DebounceSpaced | content-script.js:44-52 | acted-on events are at least 5000 ms apart |
| DeviceChange.ActsIffQuiet | content-script.js:44-52 | an event is acted on exactly when every earlier acted-on event lies at least 5000 ms before it; otherwise nothing changes |
| DeviceChange.BurstActsOnce | content-script.js:44-52 | a burst of events inside one 5000 ms window is acted on once, at its first event |
| DeviceChange.FlagDecides | content-script.js:44-45 | the flag is set exactly when the next event is ignored |
| DeviceChange.DeviceChangeReactor.constructor | content-script.js:41 | the flag starts clear and nothing is scheduled |
| DeviceChange.DeviceChangeReactor.AdvanceTo | content-script.js:50-52 | when time passes the due time, the timer clears the flag; nothing else changes |
| DeviceChange.DeviceChangeReactor.OnDeviceChange | content-script.js:43-56 | with the flag clear, an event sets it, schedules a re-selection 3000 ms later and the clearing 5000 ms later, and starts one refresh; with the flag set it is ignored; the acted-on events stay `Debounce` of all events |
| Startup.Startup | content-script.js:27-37 | with no stored list the device list is refreshed; otherwise the stored name is selected and the id passed is always absent |
| Startup.HandlerInstalled | content-script.js:33-43 | the device-change handler is installed unless the startup selection threw |

## Left out

- popup.js is not part of this model: it renders the stored list and writes the user's choice.
- Page access, persistent storage and device enumeration are not modelled. What the page shows at each invocation, what is stored and what enumeration returns are parameters.
- Clicking is not modelled. Only which element would be clicked is modelled.
- Real timers are not modelled. Sleeps are recorded as durations and scheduled callbacks as due times. The re-selection that a handled event schedules is recorded, not run; it is `setMic` with the same inputs.
- MicSelection.SetMic: each `await` inside a `try` or `catch` block is modelled by `RunPath` looping over a step list, not written out one statement at a time. The lobby and fallback step lists carry the source's retry budgets and sleeps.
- PageRules.ClickDesiredMic: the id is matched by value. The quoting of the id inside a CSS selector is not modelled.
- DeviceChange.DeviceChangeReactor: a timer that falls due at the same instant as an event is taken to run first.
- DeviceChange.ActsIffQuiet: the model assumes the flag-clearing timer runs exactly at its due time (`AdvanceTo` clears the flag once `resetAt <= t`). `setTimeout` only promises that a callback runs no earlier than its due time. A busy event loop or a throttled background tab can run it later, and an event that arrives in that gap is still ignored. So the "acted on when quiet" direction of this lemma, and DeviceChange.FlagDecides, hold only under this assumption. The "ignored when not quiet" direction, DeviceChange.DebounceSpaced and DeviceChange.BurstActsOnce hold either way.
- Devices.UpdateDeviceList: the storage write is not awaited in the source. The model treats it as done when the function returns.
- The startup read asks storage only for `selectedMicName` and `mics`. So `selectedMicId` is always absent, and every selection goes by name (Startup.Startup).
- The device-change handler reuses the name captured at startup. It does not read the preference again, so a change made in the popup later is not picked up until the page reloads.
- Only labels exactly equal to "AirPods" are hidden, and all of them, although the source comment speaks of hiding one entry (Devices.AllAirPodsHidden).
- Errors that are only logged are not modelled, and neither is an unhandled rejection of the re-selection timer's `setMic`.
- Backoff.TotalWait: the sleeps are the unbounded delays passed to `setTimeout`. Real `setTimeout` stores its delay as a 32-bit signed integer and fires at once when the delay is larger. From a first delay of 50 ms, sleep 26 already exceeds 2^31 − 1 ms, so the stated total matches real timers only for budgets up to 26 retries. The script uses at most 4.
- Text.IncludesIff: strings are sequences of Unicode scalar values, while `includes` compares UTF-16 code units. The two agree except on text holding lone surrogates, which are not modelled.
