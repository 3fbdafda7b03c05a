# Highlight session replay: playback clock, network panel and request correlation

This project models in Dafny three pieces of the Highlight session-replay product, and proves properties of the model.

- **The session player page** (`frontend/src/Player.js`):
  - the playback clock driven by a 50 ms interval, the play/pause button, the 7-second "undo" button and the slider;
  - the identifiers given to the recorded events before they are handed to the replayer;
  - the click test and the "event-cast" listener of the event stream;
  - the `minutes:seconds` label.
- **The network panel of the dev tools** (`NetworkPage.tsx`):
  - the waterfall range;
  - the list of resources to render, after the method, type and search filters;
  - arrow-key navigation;
  - the failed-row flag and the status column;
  - the error deep link;
  - the auto-scroll requests.
- **The Node SDK's request correlation** (`sdk.ts`): the `x-highlight-request` header name and `parseHeaders`, which splits the header's value into the secure session id and the request id.

Modules:

- `Wrappers` (`wrappers.dfy`): `Option`, the model of `undefined`.
- `Strings` (`strings.dfy`): decimal rendering, ASCII lower-casing and `includes`.
- `Seqs` (`seqs.dfy`): `filter`, `map`, `indexOf` and `find` over sequences.
- `Player` (`player.dfy`).
- `NetworkPage` (`network_page.dfy`).
- `Sdk` (`sdk.dfy`).

The clock is modelled twice:

- as the class `Player.Clock`, whose fields are the component's state hooks (`time`, `paused`, `ticker`) plus the calls issued to the replayer;
- as values: `Player.Apply` is one transition, `Player.Run` a sequence of them, `Player.Ticks` gives `n` interval callbacks.

Every `Clock` method states its new state outright. `Tick`, `TogglePlay`, `Rewind` and `SliderSeek` are also tied to `Apply`. `SyncTicker` manages only the interval, which `Apply` does not model. The lemmas about `Apply`, `Run` and `Ticks` then state:

- the range the position stays in;
- the closed form of playback;
- the overshoot at the end.

The browser's interval table is the ghost field `liveTimers`, so `SyncTicker` can state that at most one interval is ever live.

JavaScript semantics are written out where they matter:

- `%` truncates toward zero (`Player.JsRemainder`);
- `toFixed(0)` rounds half away from zero and writes a sign;
- `""`, `0`, `null` and `undefined` are falsy;
- `null` and `undefined` are kept apart where the page compares them with `===` (`NetworkPage.JsString`);
- `current || 0` picks 0 for an absent index (`Option.GetOr`), which is the one `||` the model needs. `GetOr` is not a general model of `||`, which also replaces `0` and `""`;
- `status ?? unknown` is modelled by `NetworkPage.StatusCellOf`;
- `split('/')`, `find` and `indexOf` are modelled as such.

The helpers that `NetworkPage.tsx` imports from its `utils` module are inputs of the model: `findResourceWithMatchingHighlightHeader` is the `findMatch` parameter of `DeepLink`, `getHighlightRequestId` is the `requestIdOf` parameter of `RowHasError`, and the result of `findLastActiveEventIndex` is a plain argument of `AutoScrollRequests`. Their code is not part of this model.

### Behaviour worth knowing


- A tick adds 50 ms without clamping. The tick that finds the position at or past the end pauses instead. So playback can stop up to 49 ms past `totalTime`. From 9980 ms of a 10000 ms session, one tick gives 10030 ms, still playing, and the next one pauses there (`Player.OvershootExample`).
- The slider sets `time` only. It does not pause, and it does not tell the replayer.
- Play at the end simply unpauses. The next tick pauses again. Nothing restarts from zero.
- `parseHeaders` accepts a value without '/', and the request id is then undefined. Such a value is not rejected as malformed.

## Model

Each row names a member and the source lines it models, and says what its contract states.

| member | source | states |
|---|---|---|
| Player.Apply | frontend/src/Player.js:46-54 | one transition of the clock: the interval callback (lines 47-53), the slider (line 103), the play/pause button (lines 112-119) and the undo button (lines 130-138). It has no contract of its own; `Player.ApplyStaysInRange`, `Player.RunStaysInRange` and `Player.TicksClosedForm` state its properties, and the `Clock` methods are proved equal to it |
| Player.RewoundTime | frontend/src/Player.js:131 | the undo target is `time - 7000`, or 0 when that would be negative; never negative, never later than `time` |
| Player.ApplyStaysInRange | frontend/src/Player.js:46-54 | a tick, a button press or an in-range slider value keeps the position in `[0, totalTime + 50)` |
| Player.RunStaysInRange | frontend/src/Player.js:46-54 | any sequence of controls whose slider values lie in `[0, totalTime]` keeps the position in `[0, totalTime + 50)` |
| Player.TicksClosedForm | frontend/src/Player.js:46-54 | after `n` callbacks the position has advanced by 50 ms per callback until it reached the end; the clock is paused iff it was paused or more callbacks fired than were needed to reach the end |
| Player.StopsWithinOneTick | frontend/src/Player.js:48-52 | the position where ticking stops is at or past `totalTime`, by less than 50 ms |
| Player.OvershootExample | frontend/src/Player.js:48-52 | 9980 ms of 10000 ms: one callback gives 10030 ms still playing, the second pauses at 10030 ms |
| Player.Clock.constructor | frontend/src/Player.js:25-28 | the loaded player starts at 0 ms, paused, with no interval and no replayer calls |
| Player.Clock.Tick | frontend/src/Player.js:47-53 | before the end the position advances by 50 ms; at or past the end the clock pauses and the position stays; equals `Apply` with `IntervalFired` |
| Player.Clock.SyncTicker | frontend/src/Player.js:39-57 | paused clears the interval; playing with no interval starts a fresh one and keeps it; an interval runs iff the clock plays, and at most one is ever live |
| Player.Clock.TogglePlay | frontend/src/Player.js:112-119 | flips `paused`; when it starts playback it issues `play(time)`, otherwise `pause()` |
| Player.Clock.Rewind | frontend/src/Player.js:130-138 | the position becomes the undo target; the paused state is kept; the replayer gets `pause(newTime)` when paused and `play(newTime)` when playing |
| Player.Clock.SliderSeek | frontend/src/Player.js:102-105 | the position becomes the slider value; the paused state and the replayer calls are unchanged |
| Player.IsClick | frontend/src/Player.js:161-163 | an incremental snapshot (type 3) whose data is a mouse click (type 2). No contract of its own; `Player.UntypedDataIsNoClick`, `Player.AssignIdentifiersKeepsClicks` and `Player.CastHighlightsRow` use it |
| Player.UntypedDataIsNoClick | frontend/src/Player.js:161-163 | an event whose data has no `type` is never a click |
| Player.NumberFrom | frontend/src/Player.js:63-65 | each event is copied in place with identifier `from + i` |
| Player.AssignIdentifiers | frontend/src/Player.js:63-65 | same length; event `i` gets identifier `i`; kind, data and timestamp of every event are kept |
| Player.IdentifiersDistinct | frontend/src/Player.js:63-65 | no two numbered events share an identifier |
| Player.AssignIdentifiersKeepsClicks | frontend/src/Player.js:63-65 | numbering does not change which events are clicks |
| Player.PrepareEvents | frontend/src/Player.js:60-65 | events reach the replayer iff the session has more than one, and then numbered by position |
| Player.OnEventCast | frontend/src/Player.js:171-174 | a cast click makes its identifier the highlighted one; any other event leaves the highlight unchanged |
| Player.CastHighlightsRow | frontend/src/Player.js:168-181 | casting the i-th numbered event highlights row `i` exactly when that event is a click |
| Player.JsRemainder | frontend/src/Player.js:242 | the remainder lies strictly between `-b` and `b`, has the dividend's sign, and equals Euclidean `%` for a non-negative dividend |
| Player.JsRemainderOdd | frontend/src/Player.js:242 | negating the dividend negates the remainder |
| Player.TwoDigits | frontend/src/Player.js:243 | below 100 the seconds field is the tens digit followed by the units digit |
| Player.MillisToMinutesAndSeconds | frontend/src/Player.js:240-244 | for a non-negative duration the label is the whole minutes, ':', and the remaining milliseconds rounded half-up to seconds as two digits |
| Player.SecondsFieldAtMostSixty | frontend/src/Player.js:242-243 | for a non-negative duration the seconds field is two digits worth at most 60 |
| Player.SixtySecondsShown | frontend/src/Player.js:240-244 | 59999 ms renders as "0:60" |
| Player.MillisToMinutesAndSecondsCarried | frontend/src/Player.js:240-244 | the corrected label ends in ':' and two digits whose first is at most 5 |
| Player.CarriedIsNearestSecond | frontend/src/Player.js:240-244 | the corrected label shows the nearest whole second, halves up, as minutes and seconds below 60 |
| Player.AgreesBelowSixty | frontend/src/Player.js:240-244 | the label as written equals the corrected one whenever its seconds field is below 60 |
| NetworkPage.NetworkRange | frontend/src/pages/Player/Toolbar/DevToolsWindowV2/NetworkPage/NetworkPage.tsx:80-88 | the waterfall width. No contract of its own; `NetworkPage.NetworkRangeUsesEnds`, `NetworkPage.WithinRange` and `NetworkPage.NetworkRangeNotMaximal` state its properties |
| NetworkPage.NetworkRangeUsesEnds | frontend/src/pages/Player/Toolbar/DevToolsWindowV2/NetworkPage/NetworkPage.tsx:80-88 | the range is the last resource's response end minus the first one's start, whatever lies between; one resource gives its own span; no resources give 0 |
| NetworkPage.WithinRange | frontend/src/pages/Player/Toolbar/DevToolsWindowV2/NetworkPage/NetworkPage.tsx:80-88 | a resource that starts no earlier than the first and ends no later than the last lies inside the range |
| NetworkPage.NetworkRangeNotMaximal | frontend/src/pages/Player/Toolbar/DevToolsWindowV2/NetworkPage/NetworkPage.tsx:80-88 | a resource in the middle that ends last is not covered: the range is not the longest span |
| NetworkPage.MatchesMethod | frontend/src/pages/Player/Toolbar/DevToolsWindowV2/NetworkPage/NetworkPage.tsx:95-97 | no method selected, or the recorded verb equals it. A definition without a contract; the rendering lemmas below use it through `Listed` |
| NetworkPage.MatchesType | frontend/src/pages/Player/Toolbar/DevToolsWindowV2/NetworkPage/NetworkPage.tsx:98-99 | the type filter is All, or equals the initiator type. A definition without a contract, used through `Listed` |
| NetworkPage.Label | frontend/src/pages/Player/Toolbar/DevToolsWindowV2/NetworkPage/NetworkPage.tsx:112 | the display name when it is non-empty, otherwise the name; an empty string stands for an absent one. A definition without a contract |
| NetworkPage.MatchesSearch | frontend/src/pages/Player/Toolbar/DevToolsWindowV2/NetworkPage/NetworkPage.tsx:107-114 | a resource without a name fails; otherwise its lower-cased label contains the lower-cased search text. A definition without a contract; `NetworkPage.FiltersIgnoreStamp` and the rendering lemmas use it |
| NetworkPage.Stamp | frontend/src/pages/Player/Toolbar/DevToolsWindowV2/NetworkPage/NetworkPage.tsx:101-104 | the resource with `timestamp = startTime + sessionStart`. A definition without a contract; `NetworkPage.StampAll` states it element by element |
| NetworkPage.Listed | frontend/src/pages/Player/Toolbar/DevToolsWindowV2/NetworkPage/NetworkPage.tsx:93-116 | the three filters as one test, the search applying only to a non-empty search text. A definition without a contract; it is the reference test of `NetworkPage.ResourcesToRenderOnePass` |
| NetworkPage.ResourcesToRender | frontend/src/pages/Player/Toolbar/DevToolsWindowV2/NetworkPage/NetworkPage.tsx:90-118 | the memo as written: method and type filter, stamp, then search filter when the text is not empty. No contract of its own; `NetworkPage.ResourcesToRenderOnePass`, `NetworkPage.RenderedRowsAreListed`, `NetworkPage.RenderedRowsAreStamped`, `NetworkPage.ListedIsRendered` and `NetworkPage.RenderedKeepsOrder` state what it computes |
| NetworkPage.StampAll | frontend/src/pages/Player/Toolbar/DevToolsWindowV2/NetworkPage/NetworkPage.tsx:101-104 | same length; each resource gets `timestamp = startTime + sessionStart` and nothing else changes |
| NetworkPage.StampCommutesWithFilter | frontend/src/pages/Player/Toolbar/DevToolsWindowV2/NetworkPage/NetworkPage.tsx:90-104 | a filter that ignores `timestamp` gives the same list before or after stamping |
| NetworkPage.FilterFilter | frontend/src/pages/Player/Toolbar/DevToolsWindowV2/NetworkPage/NetworkPage.tsx:90-118 | two filter passes keep exactly what passes both tests |
| NetworkPage.FiltersIgnoreStamp | frontend/src/pages/Player/Toolbar/DevToolsWindowV2/NetworkPage/NetworkPage.tsx:101-114 | neither the search test nor the combined test depends on `timestamp` |
| NetworkPage.SearchPassMatches | frontend/src/pages/Player/Toolbar/DevToolsWindowV2/NetworkPage/NetworkPage.tsx:106-116 | with a search text, the two passes equal one pass of the combined test followed by stamping |
| NetworkPage.ResourcesToRenderOnePass | frontend/src/pages/Player/Toolbar/DevToolsWindowV2/NetworkPage/NetworkPage.tsx:90-118 | the rendered list is the stamped input filtered by the combined method, type and search test |
| NetworkPage.FilterKeepsStamped | frontend/src/pages/Player/Toolbar/DevToolsWindowV2/NetworkPage/NetworkPage.tsx:106-116 | filtering a list whose resources all carry their absolute timestamp keeps only such resources |
| NetworkPage.RenderedRowsAreListed | frontend/src/pages/Player/Toolbar/DevToolsWindowV2/NetworkPage/NetworkPage.tsx:90-118 | every rendered row passes the method, type and search filters |
| NetworkPage.RenderedRowsAreStamped | frontend/src/pages/Player/Toolbar/DevToolsWindowV2/NetworkPage/NetworkPage.tsx:90-118 | every rendered row has `timestamp = startTime + sessionStart` |
| NetworkPage.ListedIsRendered | frontend/src/pages/Player/Toolbar/DevToolsWindowV2/NetworkPage/NetworkPage.tsx:90-118 | every input resource that passes the three filters is rendered, stamped |
| NetworkPage.RenderedKeepsOrder | frontend/src/pages/Player/Toolbar/DevToolsWindowV2/NetworkPage/NetworkPage.tsx:90-118 | the rendered list is a subsequence of the stamped input, so the input order is kept |
| NetworkPage.EmptySearchKeepsAll | frontend/src/pages/Player/Toolbar/DevToolsWindowV2/NetworkPage/NetworkPage.tsx:106-118 | with an empty search text, as many rows are rendered as pass the method and type filters |
| NetworkPage.ArrowKey | frontend/src/pages/Player/Toolbar/DevToolsWindowV2/NetworkPage/NetworkPage.tsx:224-248 | only ArrowUp and ArrowDown are handled; the new index is `current` (or 0 when absent) plus or minus 1, clamped into the list, hence a valid row of a non-empty list; an open panel shows that row and the list scrolls to the index before it; any other key changes nothing |
| NetworkPage.FailedRow | frontend/src/pages/Player/Toolbar/DevToolsWindowV2/NetworkPage/NetworkPage.tsx:378-385 | the `failedResource` flag as written, truthiness test included. A definition without a contract; `NetworkPage.FailedRowExactly` states exactly when it holds |
| NetworkPage.FailedRowExactly | frontend/src/pages/Player/Toolbar/DevToolsWindowV2/NetworkPage/NetworkPage.tsx:378-385 | a row is flagged failed iff it has an error or a recorded status of at least 400; status 0 flags nothing by itself |
| NetworkPage.RowHasError | frontend/src/pages/Player/Toolbar/DevToolsWindowV2/NetworkPage/NetworkPage.tsx:295-299 | a row has an error iff some error's `request_id` is strictly equal (`===`) to the row's correlation id |
| NetworkPage.AbsentIdsMatch | frontend/src/pages/Player/Toolbar/DevToolsWindowV2/NetworkPage/NetworkPage.tsx:295-314 | a row whose correlation id is absent is flagged failed by an error whose `request_id` is absent in the same way (`undefined` and `undefined`, or `null` and `null`) |
| NetworkPage.UndefinedIdIgnoresNull | frontend/src/pages/Player/Toolbar/DevToolsWindowV2/NetworkPage/NetworkPage.tsx:297-299 | a row whose correlation id is `undefined` has no error when every error's `request_id` is `null` or a string |
| NetworkPage.StatusCellOf | frontend/src/pages/Player/Toolbar/DevToolsWindowV2/NetworkPage/NetworkPage.tsx:391-400 | '200' iff the initiator is neither XHR nor fetch; the unknown marker iff it is one of them without a recorded status; otherwise the recorded status |
| NetworkPage.ZeroStatusShownNotFlagged | frontend/src/pages/Player/Toolbar/DevToolsWindowV2/NetworkPage/NetworkPage.tsx:378-400 | a fetch with status 0 shows 0 and, without an error, is not flagged failed |
| NetworkPage.DeepLinkReady | frontend/src/pages/Player/Toolbar/DevToolsWindowV2/NetworkPage/NetworkPage.tsx:146-154 | the guards of the deep-link effect. A definition without a contract; `NetworkPage.DeepLink` is stated in terms of it |
| NetworkPage.LinkedError | frontend/src/pages/Player/Toolbar/DevToolsWindowV2/NetworkPage/NetworkPage.tsx:156 | nothing iff no error has the linked id; otherwise the first error that has it |
| NetworkPage.DeepLink | frontend/src/pages/Player/Toolbar/DevToolsWindowV2/NetworkPage/NetworkPage.tsx:145-193 | nothing happens unless every guard holds and the linked error has a truthy `request_id`; a matched row is shown, the player seeks to its start and the list scrolls to its index; otherwise the Errors tab and the error panel are shown, and the player seeks to the parsed error time minus the session start iff the session start and the raw `timestamp` are both truthy |
| NetworkPage.DeepLinkHitScrollsToRow | frontend/src/pages/Player/Toolbar/DevToolsWindowV2/NetworkPage/NetworkPage.tsx:162-165 | when the matched resource is one of the rows, the scroll target is a valid index holding it |
| NetworkPage.AutoScrollRequests | frontend/src/pages/Player/Toolbar/DevToolsWindowV2/NetworkPage/NetworkPage.tsx:209-220 | the scroll requests of the two auto-scroll effects. No contract of its own; `NetworkPage.AutoScrollAtMostOnce` states its properties |
| NetworkPage.AutoScrollAtMostOnce | frontend/src/pages/Player/Toolbar/DevToolsWindowV2/NetworkPage/NetworkPage.tsx:209-220 | at most one scroll request, to the active index; one is issued iff auto-scroll is on and the replayer is playing or paused |
| Sdk.HighlightRequestHeader | sdk/highlight-node/src/sdk.ts:6 | the header name `x-highlight-request`, which `Sdk.OnlyTheHighlightHeader` pins down |
| Sdk.Join | sdk/highlight-node/src/sdk.ts:93 | the pieces glued back with the separator between them: the inverse that specifies `Sdk.Split`. No contract of its own; `Sdk.Split` and `Sdk.SplitJoin` relate the two |
| Sdk.Split | sdk/highlight-node/src/sdk.ts:93 | at least one piece; no piece holds the separator; joining the pieces with it gives the string back |
| Sdk.SplitJoin | sdk/highlight-node/src/sdk.ts:93 | splitting a join of separator-free pieces gives the pieces back |
| Sdk.SplitFindsSeparator | sdk/highlight-node/src/sdk.ts:92-93 | a value splits into more than one piece iff it holds '/'; otherwise the one piece is the value itself |
| Sdk.ParseHeaders | sdk/highlight-node/src/sdk.ts:87-104 | no result iff the headers or the header are missing or the value is empty; the session id holds no '/'; the request id is absent iff the value holds no '/', and then the session id is the whole value |
| Sdk.ParseRoundTrip | sdk/highlight-node/src/sdk.ts:91-94 | `"s/r"` parses to `s` and `r` when neither holds '/' |
| Sdk.ParseKeepsTwoPieces | sdk/highlight-node/src/sdk.ts:92-94 | pieces after a second '/' are dropped |
| Sdk.ParseWithoutSeparator | sdk/highlight-node/src/sdk.ts:92-94 | a non-empty value without '/' is accepted whole, with no request id |
| Sdk.OnlyTheHighlightHeader | sdk/highlight-node/src/sdk.ts:6 | the header name is `x-highlight-request`, and a value under any other name is ignored |
| Strings.NatToString | frontend/src/Player.js:243 | decimal digits only; one digit iff below 10, two iff 10 to 99; no leading zero |
| Strings.DigitsRoundTrip | frontend/src/Player.js:243 | reading the rendered digits back gives the number |
| Strings.NatToStringInjective | frontend/src/Player.js:243 | two different numbers never render alike |
| Strings.IntToString | frontend/src/Player.js:243 | a negative number renders as '-' followed by its magnitude |
| Strings.Lower | frontend/src/pages/Player/Toolbar/DevToolsWindowV2/NetworkPage/NetworkPage.tsx:112-114 | same length, each character lower-cased |
| Strings.Includes | frontend/src/pages/Player/Toolbar/DevToolsWindowV2/NetworkPage/NetworkPage.tsx:112-114 | true iff the needle occurs at some position of the string |
| Seqs.Filter | frontend/src/pages/Player/Toolbar/DevToolsWindowV2/NetworkPage/NetworkPage.tsx:93-100 | every kept element passes the test, and the result is a subsequence of the input |
| Seqs.FilterKeeps | frontend/src/pages/Player/Toolbar/DevToolsWindowV2/NetworkPage/NetworkPage.tsx:93-100 | every element that passes the test is kept |
| Seqs.MapSeq | frontend/src/pages/Player/Toolbar/DevToolsWindowV2/NetworkPage/NetworkPage.tsx:101-104 | same length; element `i` is `f` of input element `i` |
| Seqs.IndexOf | frontend/src/pages/Player/Toolbar/DevToolsWindowV2/NetworkPage/NetworkPage.tsx:165 | -1 iff the element is absent; otherwise the first position that holds it |
| Seqs.Find | frontend/src/pages/Player/Toolbar/DevToolsWindowV2/NetworkPage/NetworkPage.tsx:156 | nothing iff no element passes; otherwise the first element that passes |

## Left out

- Timing: the 50 ms interval is modelled as the `Tick` callback, which fires at whatever moments its caller chooses. Real time, the interval's drift and React's batching of state updates are not modelled.
- The debounce (`_.debounce`, 1000/60 ms) and `requestAnimationFrame` around scrolling: the model records the requested scroll index only.
- The player's state before the session loads. `totalTime` is fixed when a `Clock` is constructed, so these are not modelled: `totalTime` being 0 while loading, the play button throwing on an undefined replayer, and the interval callback closing over a stale `totalTime`.
- Rendering, rrweb's `Replayer`, react-scroll, Virtuoso, the GraphQL query, toasts (`message.success`) and analytics. They are outside the logic; the replayer appears only as the recorded `ReplayerCommand`s, and the page's calls as `PageCommand`s.
- The waterfall percentages of `ResourceRow`, which are floating-point layout. Only `networkRange` is modelled.
- `findLastActiveEventIndex`, `findResourceWithMatchingHighlightHeader`, `getHighlightRequestId` and `playerTimeToSessionAbsoluteTime` live in other modules. They are parameters or plain inputs here.
- Strings.Lower: stands for `toLocaleLowerCase` on ASCII letters only; locale rules and Unicode case mapping are not modelled.
- Times are integer milliseconds. The source's `number` and `Math.floor` on floating point are not modelled.
- Seqs.IndexOf: compares resources by value, while JavaScript's `indexOf` compares objects by reference. With two equal rows, the source could scroll to a different one of them.
- Sdk.ParseHeaders: a header value that is an array (`string[]` in `IncomingHttpHeaders`), which the source turns into a comma-joined string, is not modelled. Values are single strings.
- Sdk.ParseHeaders: the debug `H.log` call and the `try`/`catch` are not modelled. Nothing in the modelled path throws.
- The rest of the Node SDK (`init`, `consumeError`, `recordMetric`, `flush` and so on) is outside this model.
- NetworkPage.DeepLink: `new Date(timestamp).getTime()` is the parameter `dateOf`. An unparsable timestamp gives `NaN` in the source, and the model does not represent `NaN`. The session start is an integer, so an undefined or `NaN` start time is not represented either.
- NetworkPage.RecordedError: `request_id` and `timestamp` are `undefined`, `null` or a string. A timestamp given as a number is not modelled.
- Player.IsClick: reading `e.data.type` on an event without `data` would throw in the source. The model's events always carry `data`, whose `type` may be absent.

## Findings

| source | as written | input that shows it | evidently intended | confidence | as-written member | corrected member |
|---|---|---|---|---|---|---|
| frontend/src/Player.js:240-244 | the seconds are rounded with `toFixed(0)` after the minutes are split off, so a remainder of 59500 ms or more shows as 60 seconds | `millisToMinutesAndSeconds(59999)` gives "0:60" | round to the nearest second first, then split, giving "1:00" with seconds always below 60 | not executed | Player.SixtySecondsShown | Player.MillisToMinutesAndSecondsCarried |
