# Live ECG chart: a Dafny model

This project models the sequential core of a Blazor application that plays
back ECG recordings as a live, scrolling chart.

The browser side (`wwwroot/js/ecgChart.js`) has four parts:

- a rolling display buffer, `pathPoints`, with a write cursor, `currentIndex`;
- a pacing tick that walks through a chart's samples;
- a registry of charts keyed by container id, whose entries hold the samples,
  the playback index, the running timer and the SignalR connection;
- the line parser that turns a fetched `.ecg` file into samples.

The server side (`Services/EcgFileManager.cs`) keeps a fixed list of recordings
and a current position that next / previous / select move within the list.

Modules:

- `Options`: the `Option` datatype.
- `Modular`: facts about `%` that the cursor and tick proofs use.
- `SampleParse`: the `loadFile` parse `split('\n').map(l => parseInt(l.trim())).filter(Number.isFinite)`.
  It covers ECMAScript whitespace for `trim`, and `parseInt` with an optional
  sign, a `0x` prefix and the longest digit prefix. Also a serializer and the
  round trip through it.
- `LiveTrace`: `renderEcgSignalLive` and `clearEcgChart` as the class `Trace`.
  `Render` keeps the pre-fill loop, the push and shift, and the cursor wrap.
  The path is computed as a sequence of move-to / line-to segments. The lemmas
  cover the cursor cycle, the range of the logical index, the steady state, the
  exact shape of the path, and FIFO eviction over any number of renders.
- `Playback`: the timer callback's `data[index]` read and its
  `(index + 1) % length` step. An index is a number or `NaN`, which is what an
  empty data list produces.
- `ChartRegistry`: the `charts` dictionary of chart objects, the running
  timers (each holding the object its callback ticks), and the module-level
  trace. The operations are `renderChart`, `init`, `startStreaming`,
  `stopStreaming`, the tick, `updateFile` and `cleanupChart`.
- `FileManager`: `EcgFileManager` as a class. The directory listing is a
  constructor parameter. `Path.GetFileNameWithoutExtension` is modelled for
  '/' separators.

Points in the buffer are stored as `(slot, sample)`: the cursor value that
`xScaleLive` maps to x, and the sample that `yScaleLive` maps to y.
`xScaleLive` maps `[0, max - 1]` onto an increasing pixel range, so the path's
"previous x is greater" test is a comparison of slots. `yScaleLive` maps
`[0, 1023]` onto a decreasing range, because SVG y grows downwards. The path
never compares y values, so the model keeps the sample as it is.

The path code computes `gapStart = currentIndex + 1` and
`gapEnd = currentIndex + 20`, and compares them with a logical index in
`[0, max)`. The bounds are never reduced modulo the capacity. So the gap
covers the 19 logical indices after the cursor, and near the right edge it is
cut short instead of wrapping. `LiveTrace.SteadyPathShape` states the
resulting shape exactly.

## Model

| member | source | states |
|---|---|---|
| SampleParse.Split | wwwroot/js/ecgChart.js:37 | `split('\n')` gives at least one piece, and no piece contains a line feed |
| SampleParse.JoinSplit | wwwroot/js/ecgChart.js:37 | splitting loses nothing: joining the pieces with line feeds restores the text |
| SampleParse.SplitJoin | wwwroot/js/ecgChart.js:37 | splitting the join of line-feed-free lines gives back exactly those lines |
| SampleParse.TrimStart | wwwroot/js/ecgChart.js:37 | the result is a suffix of the input; everything dropped is ECMAScript whitespace; the result does not start with whitespace |
| SampleParse.TrimEnd | wwwroot/js/ecgChart.js:37 | the result is a prefix of the input; everything dropped is whitespace; the result does not end with whitespace |
| SampleParse.TrimSlice | wwwroot/js/ecgChart.js:37 | `Trim` (`.trim()`) leaves the slice of the line between a whitespace prefix and a whitespace suffix, and that slice neither starts nor ends with whitespace |
| SampleParse.DigitPrefix | wwwroot/js/ecgChart.js:37 | parseInt reads the longest prefix of radix digits: a prefix of the input, all digits, followed by a non-digit or the end |
| SampleParse.ReadDecimal | wwwroot/js/ecgChart.js:37 | a non-empty run of decimal digits is read whole, as a decimal number |
| SampleParse.ParseIntDefined | wwwroot/js/ecgChart.js:37 | `ParseInt` (`parseInt`) gives a number iff, after leading whitespace and one optional sign, a decimal digit follows, and after a "0x" prefix a hexadecimal digit; a negative result only comes from a leading '-'; with `ParseShow` the value is fixed |
| SampleParse.ParseUnsigned | wwwroot/js/ecgChart.js:37 | helper for `ParseShow`: parseInt of unsigned text without leading whitespace is its magnitude |
| SampleParse.ParseNegative | wwwroot/js/ecgChart.js:37 | helper for `ParseShow`: parseInt of '-' followed by a magnitude is the negated magnitude |
| SampleParse.ReadLines | wwwroot/js/ecgChart.js:37 | one reading per line, in order: reading i is `parseInt(trim(line i))`, with NaN as None |
| SampleParse.Finite | wwwroot/js/ecgChart.js:37 | `filter(Number.isFinite)` keeps at most as many values as it reads; `FiniteMembers` and `FiniteAppend` fix which values and in what order |
| SampleParse.FiniteMembers | wwwroot/js/ecgChart.js:37 | the filter keeps exactly the readings that are numbers: x is kept iff some line reads as x |
| SampleParse.FiniteAppend | wwwroot/js/ecgChart.js:37 | the filter keeps order: filtering a concatenation concatenates the filtered parts |
| SampleParse.LoadedSamples | wwwroot/js/ecgChart.js:37 | `ParseSamples` (the whole line 37) yields at most one sample per line, and x is a sample iff some trimmed line reads as x; `ParseSerialize` gives the order |
| SampleParse.ParseShow | wwwroot/js/ecgChart.js:37 | the decimal text of any integer, trimmed and parsed, gives the integer back |
| SampleParse.ParseSerialize | wwwroot/js/ecgChart.js:37 | samples written one per line and loaded again come back exactly, in order |
| LiveTrace.JsRem | wwwroot/js/ecgChart.js:299 | JavaScript `%`: the remainder lies in [0, b) for a non-negative dividend and in (-b, 0] for a negative one |
| LiveTrace.NextCursor | wwwroot/js/ecgChart.js:312-315 | the cursor stays below the capacity, and from an in-range cursor it moves to (cursor + 1) mod capacity |
| LiveTrace.Pushed | wwwroot/js/ecgChart.js:275-292 | from an empty or full buffer the result holds exactly max points; the new point (pre-call cursor, new value) is last; the rest is the old buffer (or the pre-fill) minus only its oldest point, in order |
| LiveTrace.PointIndex | wwwroot/js/ecgChart.js:299 | the logical index lies in [0, max) whenever the dividend is non-negative; `PointIndexRange` shows that it always is and that the newest point's index is its cursor |
| LiveTrace.StartsSubpath | wwwroot/js/ecgChart.js:301-305 | the M test: inside the erase gap, the first point, or x going backwards; `SubpathAt` gives its closed form on an aligned buffer |
| LiveTrace.PathData | wwwroot/js/ecgChart.js:298-308 | one segment per stored point, carrying that point, in storage order, starting with a move-to; `SteadyPathShape` fixes which segments are move-tos |
| LiveTrace.Trace.constructor | wwwroot/js/ecgChart.js:258-259 | the buffer starts empty and the cursor at 0 |
| LiveTrace.Trace.Clear | wwwroot/js/ecgChart.js:229-230 | the state part of `clearEcgChart`: the cursor is 0 and the buffer empty |
| LiveTrace.Trace.Render | wwwroot/js/ecgChart.js:258-315 | the pre-fill loop, push, shift and cursor wrap give exactly `Pushed` and `NextCursor` of the old state; the drawn path is `PathData` of the new buffer with the pre-increment cursor; a settled trace stays settled |
| LiveTrace.AdvanceMod | wwwroot/js/ecgChart.js:312-315 | k renders move an in-range cursor to (cursor + k) mod capacity |
| LiveTrace.CursorFullCycle | wwwroot/js/ecgChart.js:312-315 | after capacity-many renders the cursor is back where it started |
| LiveTrace.PointIndexRange | wwwroot/js/ecgChart.js:298-299 | each point's logical index lies in [0, max), and the newest point's logical index is the cursor it was written at |
| LiveTrace.RenderKeepsAligned | wwwroot/js/ecgChart.js:275-292 | after a render from a cleared or aligned state, the buffer is full and the point at position i sits in slot (cursor + i) mod max |
| LiveTrace.SubpathAt | wwwroot/js/ecgChart.js:295-308 | in an aligned buffer, point i opens a subpath iff it is the first, or lies in the (truncated) gap, or is slot 0 after slot max - 1 |
| LiveTrace.SteadyPathShape | wwwroot/js/ecgChart.js:294-308 | in the steady state the path has one segment per stored point, in storage order; segment i is a move-to iff i = 0, or i < 19 with cursor + 1 + i < max, or cursor + 1 + i = max |
| LiveTrace.FirstRender | wwwroot/js/ecgChart.js:275-292 | the first render after a clear gives the pre-fill minus its first point, then the new point |
| LiveTrace.FullRender | wwwroot/js/ecgChart.js:287-292 | a render into a full buffer drops the oldest point and appends the new one |
| LiveTrace.ReplayCursor | wwwroot/js/ecgChart.js:312-315 | after k renders from a cleared trace the cursor is k mod capacity |
| LiveTrace.ReplayWindow | wwwroot/js/ecgChart.js:275-292 | FIFO eviction: after k ≥ 1 renders from a cleared trace the buffer is exactly the last max entries of everything drawn (pre-fill, then sample j in slot j mod max) |
| LiveTrace.FullSweep | wwwroot/js/ecgChart.js:275-315 | after max renders from a cleared trace the buffer holds those samples in slots 0..max-1 and the cursor is 0 |
| LiveTrace.ThreeSampleScenario | wwwroot/js/ecgChart.js:275-315 | capacity 3 with samples 500, 520, 600 leaves exactly those three points in order and the cursor at 0 |
| Playback.TickValue | wwwroot/js/ecgChart.js:97 | the tick reads a sample iff the index is a number inside the list, and then it is that element; otherwise undefined |
| Playback.TickIndex | wwwroot/js/ecgChart.js:98 | the next index is NaN iff the list is empty or the index is NaN, and otherwise lies inside the list |
| Playback.TicksCycle | wwwroot/js/ecgChart.js:96-98 | from an in-range start, tick j sends data[(start + j) mod n] and the index after k ticks is (start + k) mod n |
| Playback.FullPass | wwwroot/js/ecgChart.js:96-98 | n ticks from index 0 send every sample once, in order, and end back at index 0 |
| Playback.EmptyDataTicks | wwwroot/js/ecgChart.js:97-98 | with an empty list every tick sends undefined and the index is NaN from the first tick on |
| ChartRegistry.Stopped | wwwroot/js/ecgChart.js:135-143 | stopping keeps the connection's identity and leaves it disconnected; no connection stays none |
| ChartRegistry.Ready | wwwroot/js/ecgChart.js:83-90 | `startStreaming`'s two guards: a connection exists and its state is "Connected"; `StartChart` shows that nothing changes when it fails |
| ChartRegistry.Chart.Blank | wwwroot/js/ecgChart.js:67-74 | the record `renderChart` creates: the data, index 0, no timer, the capacity, no connection |
| ChartRegistry.Chart.Live | wwwroot/js/ecgChart.js:190-198 | the record `init` stores: connection, group named after the container, data, index 0, no timer, capacity 2550, base URI |
| ChartRegistry.EcgCharts.constructor | wwwroot/js/ecgChart.js:24-25 | no charts, no timers, an empty trace |
| ChartRegistry.EcgCharts.OneTimerPerChart | wwwroot/js/ecgChart.js:91-96 | under the registry invariant (each running timer's record holds its id, and each registered record's id names a running timer that ticks it) no chart record is ticked by two timers |
| ChartRegistry.EcgCharts.StopChart | wwwroot/js/ecgChart.js:107-112 | the chart's timer, if any, is cleared and its interval becomes null; with no timer nothing changes, so a second stop is a no-op |
| ChartRegistry.EcgCharts.StartChart | wwwroot/js/ecgChart.js:82-105 | without a connection, or when its state is not "Connected", nothing changes; otherwise the old timer is cleared and exactly one new timer, for this chart, is installed |
| ChartRegistry.EcgCharts.StartStreaming | wwwroot/js/ecgChart.js:202-205 | an unknown id changes nothing; a registered chart that is not ready keeps its timers and interval; a ready one has its old timer cleared, exactly one new timer installed for it, and every other timer kept |
| ChartRegistry.EcgCharts.StopStreaming | wwwroot/js/ecgChart.js:206-209 | an unknown id changes nothing; for a registered chart exactly its own timer is removed, its interval becomes null and every other timer is kept, so a second call changes nothing |
| ChartRegistry.EcgCharts.Tick | wwwroot/js/ecgChart.js:96-104 | the callback sends `data[index]`, advances the index by `TickIndex`, and renders the sent value into the trace with the chart's capacity |
| ChartRegistry.EcgCharts.RenderChart | wwwroot/js/ecgChart.js:53-80 | an unknown id gets a fresh record with index 0; a known id keeps its record, which gets the new data and capacity and index 0; no other entry changes |
| ChartRegistry.EcgCharts.Install | wwwroot/js/ecgChart.js:188-200 | a fresh record replaces the entry; the record that was there gets the new data, index 0 and capacity 2550 from `renderChart` and keeps its timer, connection, base URI and group; the trace is cleared |
| ChartRegistry.EcgCharts.Init | wwwroot/js/ecgChart.js:168-201 | an empty base URI or a failed fetch or connection leaves everything unchanged; otherwise the entry is a fresh record with the parsed samples, index 0, no timer, capacity 2550, the new connection, the base URI and the group, other entries are kept, and the trace is cleared; a record that was under the id gets the parsed samples, index 0 and capacity 2550 and keeps its timer, connection, base URI and group |
| ChartRegistry.EcgCharts.Reload | wwwroot/js/ecgChart.js:129-164 | the record gets the samples and index 0, the trace is cleared, and the connection is the new one if it started, else the old one stopped |
| ChartRegistry.EcgCharts.Refresh | wwwroot/js/ecgChart.js:127-164 | streaming stops first; a failed fetch changes nothing more; otherwise the parsed samples are reloaded |
| ChartRegistry.EcgCharts.UpdateFile | wwwroot/js/ecgChart.js:114-165 | a missing chart or base URI changes nothing; otherwise the timer is stopped; a failed fetch keeps the samples, index, connection and trace; a loaded file sets the parsed samples and index 0, clears the trace, and installs the new connection or stops the old one |
| ChartRegistry.EcgCharts.CleanupChart | wwwroot/js/ecgChart.js:40-51 | the entry is removed; its timer is cleared and no timer ticks the removed record; its connection is stopped |
| FileManager.LastIndexOf | Services/EcgFileManager.cs:9 | the position of the last occurrence of the character: it holds the character and nothing after it does; -1 when absent |
| FileManager.FileName | Services/EcgFileManager.cs:9 | the file name is the separator-free suffix of the path that starts right after its last '/', or the whole path when it has none |
| FileManager.Stem | Services/EcgFileManager.cs:9 | the displayed name contains no separator |
| FileManager.StemOfPath | Services/EcgFileManager.cs:8-10 | "dir/base.ext" is shown as base, for any directory and extension |
| FileManager.NavigationKeepsInvariant | Services/EcgFileManager.cs:24-40 | every navigation step keeps the index inside a non-empty list, and on an empty list each leaves it at 0 |
| FileManager.NextPreviousInverse | Services/EcgFileManager.cs:24-32 | a step that moved is undone by the opposite step |
| FileManager.NextTimesSaturates | Services/EcgFileManager.cs:24-27 | k calls of `NextFile` move k files forward but stop at the last file |
| FileManager.PreviousTimesSaturates | Services/EcgFileManager.cs:29-32 | k calls of `PreviousFile` move k files back but stop at the first file |
| FileManager.EcgFileManager.constructor | Services/EcgFileManager.cs:15-22 | the list is the listing, or empty when the directory is missing; the index starts at 0 |
| FileManager.EcgFileManager.HasNextFile | Services/EcgFileManager.cs:12 | true exactly when `NextFile` would move the index |
| FileManager.EcgFileManager.HasPreviousFile | Services/EcgFileManager.cs:13 | true exactly when `PreviousFile` would move the index |
| FileManager.EcgFileManager.CurrentFileName | Services/EcgFileManager.cs:8-10 | "No File" for an empty list, otherwise the name of the current recording, which is in bounds under the invariant |
| FileManager.EcgFileManager.NextFile | Services/EcgFileManager.cs:24-27 | the index moves one forward exactly when it is below Count - 1, and the invariant holds |
| FileManager.EcgFileManager.PreviousFile | Services/EcgFileManager.cs:29-32 | the index moves one back exactly when it is above 0, and the invariant holds |
| FileManager.EcgFileManager.SetCurrentFileIndex | Services/EcgFileManager.cs:34-40 | the index becomes the argument iff it is a position in the list, otherwise nothing changes |

## Left out

- Hubs/EcgHub.cs and Program.cs are not part of this model. They are one-line forwards to SignalR groups, and host setup with static files.
- SignalR and `fetch` are not executed. Their outcomes are parameters:
  - the fetched text, or None when the fetch fails;
  - the started connection, or None when starting it or joining the group fails.

  `invoke` is the value `Tick` returns. The `ReceiveEcgData` handlers that `init` and `updateFile` register are left out.
- `setInterval` timing and `await` interleavings are not modelled. Each operation runs to completion, and a tick is a method call on a running timer.
- The d3 scales and all SVG work are left out: float coordinates, the path string's number formatting, the cursor circle and line, `renderEcgLiveBaseline` and the grid drawing.
- LiveTrace.Trace.Render: requires a capacity of at least 1. With 0, the JavaScript `% 0` makes every logical index NaN. Every caller passes 2550.
- ChartRegistry.EcgCharts.RenderChart: takes a capacity of at least 1, which is the `Capacity` type. Its only caller passes 2550.
- The JavaScript `undefined` and `null` base URIs are not distinguished from the empty string. The model's falsy test is "absent or empty".
- `parseInt` returns an exact integer here. Values beyond 2^53 lose precision in JavaScript, and a magnitude that overflows to Infinity is dropped by `Number.isFinite`. The model keeps both as ordinary integers.
- `Path.GetFileNameWithoutExtension` is modelled with '/' as the only directory separator. The '\\' separator and volume prefixes of Windows paths are left out.
- A connection whose `stop()` rejects is treated as stopped.
