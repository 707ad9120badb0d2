# Internet stability monitor: the state machine behind the window

The program pings `google.com` roughly once a second while monitoring is on.
It keeps the last 100 `(elapsed, latency)` samples, a byte counter and the
longest latency ever seen. When a new maximum above 175 ms arrives, and no
automatic log was written in the last minute, it writes a `log_<stamp>.txt`
file. Its buttons start or stop monitoring, clear the data, and export the
recent samples to `log.txt`.

This project models the state that all of this shares, as one class,
`Monitor.InternetMonitor`, with these methods:

- `ToggleMonitoring`: the start/stop button.
- `ClearData`: the "Clear Data" button.
- `Tick`: the frame-by-frame decision whether a probe is due.
- `CompleteProbe`: what a finished probe does to the state.
- `LogData`: the "Log Data" button.

Each method is one atomic step. The clock is a caller-supplied count of
milliseconds. The probe result arrives as a `ProbeOutcome` value:
`Unresolvable`, `NoReply`, or `Reply(ms)` with a whole number of milliseconds.

The pure parts are separate modules:

- `Samples`: the bounded window, the high-water mark, the printed average,
  the rounding of seconds, and the export window filter.
- `Decimal`: decimal numerals and a reader for them.
- `LogFormat`: the log text, built by a loop (as the source builds it with
  `push_str`), together with a reader that recovers the sample lines.

The class's invariant `Valid()` is maintained by every method. It rests on
three ghost fields:

- `history`: every sample recorded, including those evicted or cleared.
- `probesSinceClear`: the number of probes recorded since the last Clear.
- `logTimes`: when automatic logs were scheduled.

`Valid()` states five things:

- The window is the newest `min(probesSinceClear, 100)` samples of
  `history`, in order.
- `longestResponseTime` is the maximum over all of `history`, so eviction
  and Clear never lower it.
- `totalDataSent` is exactly 32 bytes per probe recorded since the last
  Clear.
- Any two scheduled automatic logs are at least 60 s apart, and
  `lastLogTime` is the latest of them.
- The start and last-check times are set together and never reset: both
  are present while monitoring, and they are present or absent together.

Behaviour worth knowing, reproduced as the code has it:

- An unresolvable target ends the cycle with nothing changed: no sample, no
  bytes, no status (src/main.rs:186-189).
- A successful ping under one millisecond truncates to 0 (`as_millis`). It is
  then recorded like a failure and shows "Disconnected".
- Clear leaves the longest latency, the debounce time, the last log name and
  the session start untouched. Stop leaves the start and last-check times
  untouched.
- The automatic log is rendered from the state the cycle leaves behind: after
  the 32 bytes are counted and after eviction. The probe thread holds the
  window's lock until the cycle ends, and the render thread waits for it.
- The export window `(now - 100 s) - start` stops at zero. Within one session
  it keeps exactly the samples taken in the last 100 s, except for a sample
  taken at the very start of the session. After a stop and restart, the
  older samples carry elapsed times of the earlier session.

## Model

| member | source | states |
|---|---|---|
| `Monitor.InternetMonitor.constructor` | src/main.rs:29-45 | Initial state: not monitoring, no start or check time, status "Not checked yet", empty window, counters 0, no log name or time |
| `Monitor.InternetMonitor.ToggleMonitoring` | src/main.rs:68-78 | Flips monitoring. Switching on sets status "Monitoring google.com..." and start = last check = now. Switching off sets "Not monitoring" and keeps both times |
| `Monitor.InternetMonitor.ClearData` | src/main.rs:81-95 | Stops monitoring, status "Not monitoring", window empty, bytes 0, log status "Data cleared". Longest latency and last log time are unchanged; the frame excludes every other field |
| `Monitor.InternetMonitor.Tick` | src/main.rs:152-159 | A probe is dispatched iff monitoring, a last check exists and at least 1000 ms have passed since it; only then does the last check become now |
| `Monitor.InternetMonitor.CompleteProbe` | src/main.rs:186-298 | Unresolvable: nothing changes and no log. Otherwise: status by latency; window = Retained(old, sample); bytes + 32; longest = max(old, latency). A log is scheduled iff ShouldLog holds; it sets the log time and name and returns the file rendered from the new state. Latency 0 never logs and never raises the longest |
| `Monitor.InternetMonitor.RecordProbe` | src/main.rs:196-298 | One resolved cycle: the same effects as CompleteProbe, also stating that the history grows by the sample and the log schedule by `now` |
| `Monitor.InternetMonitor.UpdateLongest` | src/main.rs:219-290 | Longest becomes max(old, latency). A log is scheduled exactly when latency > old longest, latency > 175 and the debounce interval has passed; then name := log_<stamp>.txt and time := now, otherwise both unchanged |
| `Monitor.InternetMonitor.PushSample` | src/main.rs:216-217 | Push, count 32 bytes, evict index 0 past 100 (lines 292-298): the window equals Retained(old, sample) and stays at most 100 |
| `Monitor.InternetMonitor.LogData` | src/main.rs:306-365 | The file is log.txt holding the rendered export: samples with elapsed > window, average over all retained samples, longest, bytes. The check mark is set only when the write succeeded |
| `Monitor.LatencyOf` | src/main.rs:196-199 | A reply records its round trip; a positive latency comes only from a reply, so a failed ping records 0 |
| `Monitor.StatusAfterProbe` | src/main.rs:201-208 | The status is "Connected to google.com." exactly when the latency is positive, and "Disconnected from google.com." exactly when it is 0 |
| `Monitor.SinceMs` | src/main.rs:155 | `elapsed()` from t to now: t + d = now when t is not later, and 0 when t is later (saturating) |
| `Monitor.ElapsedSinceStart` | src/main.rs:210-214 | The sample's elapsed time: now − start with a captured start, 0 without one or when the start is later |
| `Monitor.DebounceElapsed` | src/main.rs:228 | With a past log time, the debounce has passed iff at least 60 000 ms have elapsed since it; never for a log time in the future; always without one |
| `Monitor.ShouldLog` | src/main.rs:221-228 | A log is due iff the latency exceeds both the old longest and 175 ms, and the debounce has passed |
| `Monitor.AutoLogNameReadsBack` | src/main.rs:229-230 | The automatic log's name is "log_" + stamp + ".txt", and the stamp is recovered from it |
| `Monitor.FileTextAddsNewline` | src/main.rs:281 | `writeln!` writes the rendered content followed by exactly one newline |
| `Monitor.RecordKeepsWindow` | src/main.rs:292-298 | Recording a sample keeps the invariant: window = newest min(probes, 100) of history, bytes = 32 × probes |
| `Monitor.ScheduleKeepsDebounce` | src/main.rs:227-233 | Scheduling at `now` once the debounce has passed keeps every pair of log times at least 60 s apart |
| `Samples.Retained` | src/main.rs:295-298 | Result is the suffix of window + [x] with length \|window\|+1 below 100, else \|window\|: the oldest is evicted, the order kept, the bound 100 preserved |
| `Samples.HighWaterIsMaximum` | src/main.rs:219-222 | The high-water mark bounds every latency and is attained by one (or is 0 when empty) |
| `Samples.HighWaterIsUnique` | src/main.rs:219-222 | A value bounds every latency and is attained (or is 0) iff it is the high-water mark, so the invariant's `IsHighWater` pins the longest latency down |
| `Samples.IsHighWaterAppend` | src/main.rs:219-222 | Recording a sample and raising the mark to max(old, latency), as the update does, keeps it the high-water mark of the longer history |
| `Samples.HighWaterAppend` | src/main.rs:220-222 | Adding a sample makes the maximum max(old, latency), independent of eviction |
| `Samples.HighWaterSuffix` | src/main.rs:296-297 | Dropping the oldest samples never raises the maximum |
| `Samples.SumAtMostCountTimesHighWater` | src/main.rs:320-324 | Sum of latencies ≤ count × maximum |
| `Samples.RoundHalfEven` | src/main.rs:333-338 | Result is the integer nearest s/n, with ties going to even (the `{:.0}` rounding of the average) |
| `Samples.RoundedAverage` | src/main.rs:320-324 | Printed average: 0 when empty, else within one half of sum/count, a tie going to even |
| `Samples.AverageAtMostHighWater` | src/main.rs:320-327 | The printed average never exceeds the maximum retained latency |
| `Samples.RoundSecs` | src/main.rs:341-346 | Seconds printed: the nearest whole second, half a second rounding up |
| `Samples.ExportWindow` | src/main.rs:307-315 | The window is how far `now − 100 s` lies after the start, and 0 when it does not; a missing start counts as now. What the filter then keeps is stated by `ExportWindowIsLookback` |
| `Samples.ExportWindowIsLookback` | src/main.rs:313-316 | Within a session, a sample passes the filter iff it was taken after the start and less than 100 s before now |
| `Samples.ExportSelection` | src/main.rs:311-318 | A sample is selected iff it is retained and its elapsed time is strictly greater than the window; never more samples than retained |
| `Samples.ExportSelectionAppend` | src/main.rs:311-318 | Filtering distributes over concatenation, so the stored order is kept |
| `Samples.ExportSelectionAll` | src/main.rs:311-318 | When every sample is inside the window, all are selected unchanged |
| `Decimal.FromNat` | src/main.rs:254-261 | A numeral is at least one digit, all digits, with no leading zero unless it is 0 |
| `Decimal.ReadNat` | src/main.rs:265-268 | The reader stops at the first non-digit and never lengthens its input |
| `Decimal.FromNatValue` | src/main.rs:254-261 | The numeral of n denotes n |
| `Decimal.ReadDigits` | src/main.rs:265-268 | Reading through a run of digits shifts the accumulator by their count and adds their value |
| `Decimal.ReadFromNat` | src/main.rs:265-268 | Round trip: reading the numeral of n followed by a non-digit gives back n and the rest |
| `LogFormat.RenderLog` | src/main.rs:253-274 | The loop's text equals LogContent: the exact "Log Created: ts\nNo data to log." body for no samples, else five header lines, a blank line, and one line per sample in stored order |
| `LogFormat.PushSampleLines` | src/main.rs:263-269 | The per-sample `push_str` loop appends exactly the sample lines, one per sample in stored order, to what was already written |
| `LogFormat.LogLineCount` | src/main.rs:253-274 | For a one-line creation stamp, the log with no samples has one line break (two lines); otherwise 6 + n: five header lines, a blank line and one line per listed sample |
| `LogFormat.HeaderLineCount` | src/main.rs:254-261 | The header is exactly six line breaks: the five lines "Log Created", "Ping Target", "Average Response Time", "Longest Response Time", "Total Data Sent", then a blank line |
| `LogFormat.NoDataLineCount` | src/main.rs:273 | "Log Created: ts\nNo data to log." holds exactly one line break |
| `LogFormat.SampleLinesCount` | src/main.rs:263-269 | The sample part has exactly one line per sample |
| `LogFormat.ParseSampleLine` | src/main.rs:265-268 | One "<s> s, <l> ms" line reads back as (rounded seconds, latency) and leaves the rest |
| `LogFormat.SampleLinesCons` | src/main.rs:263-269 | The lines of x::xs are x's line followed by the lines of xs |
| `LogFormat.ParseSampleLines` | src/main.rs:341-347 | Round trip: the sample lines read back as exactly the samples' rows, one per sample, in order |
| `LogFormat.LogListsSamples` | src/main.rs:331-352 | A log listing samples begins with the header, and the text after it reads back as exactly those samples |

## Left out

- egui layout, labels, colours and the 60 FPS pacing (src/main.rs:50-64, 111-150, 163-164): presentation. This includes the on-screen "Longest Response Time", which is the maximum over the retained window only (line 142), not the stored high-water mark.
- Threads, `Arc<Mutex<…>>` and overlapping probe cycles: each operation is one atomic step. The race in which another cycle changes the window before an automatic log is rendered is not modelled.
- DNS resolution and `ping` (src/main.rs:180-199): they become the `ProbeOutcome` parameter. The 100 ms settle sleep (line 301) has no effect on the state.
- `File::create` and `writeln!` (src/main.rs:276-283, 354-362): each file is returned as a `LogFile` value (name and full text, including the final newline). For the manual export, a `written` flag stands for whether the write succeeded, and it gates the check mark. Automatic log failures are absorbed and change nothing.
- The 2-second timers that reset the log status (src/main.rs:97-103, 367-373): these are timer threads.
- `Instant` and `chrono::Local`: the clock is a `nat` count of milliseconds, and the two formatted timestamps are opaque strings passed in.
- Samples store elapsed time as whole milliseconds, whereas the source stores f64 seconds at nanosecond resolution. At that finer resolution, the start-of-session exclusion of `ExportWindowIsLookback` would practically never happen.
- `Instant::now() - Duration::from_secs(100)` can panic on a platform whose clock cannot go 100 s back (src/main.rs:308). The model computes with unbounded integers instead.
- `totalDataSent` is an unbounded `nat`. The source's `u64` would overflow only after about 2^59 probes.
- Samples.RoundedAverage: computes the nearest integer to the exact quotient sum/count, and assumes `{:.0}` rounds ties to even. The f64 quotient is not exact in general (1/3, say), but it rounds the same way: an exact x.5 tie is representable in f64, and any other quotient lies at least 1/(2·count) from a half, far more than the f64 error for sums and counts of this size. The tie rule follows recent Rust toolchains.
