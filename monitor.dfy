/**
 * The monitor's owned state and the operations that change it: the
 * start/stop button, "Clear Data", the once-a-second probe decision, the
 * update a finished probe makes (with the debounced automatic log) and the
 * manual "Log Data" export. Each operation is one atomic step; the clock is
 * a caller-supplied count of milliseconds.
 */
module Monitor {
  import opened Wrappers
  import opened Samples
  import opened LogFormat

  /** A new maximum above this many milliseconds schedules an automatic log. */
  const ThresholdMs: nat := 175
  /** Minimum time between two automatic logs. */
  const DebounceMs: nat := 60000
  /** Time between two probe dispatches while monitoring. */
  const ProbeIntervalMs: nat := 1000
  /** Bytes added to the data total for each recorded probe. */
  const BytesPerProbe: nat := 32

  const NotCheckedYet: string := "Not checked yet"
  const NotMonitoring: string := "Not monitoring"
  const MonitoringTarget: string := "Monitoring " + Target + "..."
  const DataCleared: string := "Data cleared"
  /** The check mark shown after a successful manual export. */
  const Done: string := "✔"
  const ManualLogName: string := "log.txt"

  /** What resolving and pinging the target produced. */
  datatype ProbeOutcome =
    | Unresolvable           // no address for the target: the cycle ends at once
    | NoReply                // the ping failed
    | Reply(roundTripMs: nat) // the ping returned after this many whole milliseconds

  /** The latency a recorded probe stores: the round trip, or 0 when the ping failed. */
  function LatencyOf(o: ProbeOutcome): (l: nat)
    ensures o.Reply? ==> l == o.roundTripMs
    ensures l > 0 ==> o.Reply?
  {
    if o.Reply? then o.roundTripMs else 0
  }

  const Connected: string := "Connected to " + Target + "."
  const Disconnected: string := "Disconnected from " + Target + "."

  /** The status a recorded probe leaves: connected exactly when its latency is positive. */
  function StatusAfterProbe(latency: nat): (s: string)
    ensures s == Connected <==> latency > 0
    ensures s == Disconnected <==> latency == 0
  {
    assert Connected[0] != Disconnected[0];
    if latency > 0 then Connected else Disconnected
  }

  /** `Instant::elapsed`: time from `t` to `now`, zero when `t` is later. */
  function SinceMs(now: nat, t: nat): (d: nat)
    ensures t <= now ==> t + d == now
    ensures now < t ==> d == 0
  {
    if now >= t then now - t else 0
  }

  /** The elapsed time a sample records: since the session start, or 0 without one. */
  function ElapsedSinceStart(now: nat, start: Option<nat>): (e: nat)
    ensures start.None? ==> e == 0
    ensures start.Some? && start.value <= now ==> start.value + e == now
    ensures start.Some? && now < start.value ==> e == 0
  {
    match start
    case None => 0
    case Some(t) => SinceMs(now, t)
  }

  /** No automatic log yet, or the last one is at least a minute old. */
  predicate DebounceElapsed(lastLogTime: Option<nat>, now: nat)
    ensures lastLogTime.Some? && lastLogTime.value <= now ==>
              (DebounceElapsed(lastLogTime, now) <==> lastLogTime.value + DebounceMs <= now)
    ensures lastLogTime.Some? && now < lastLogTime.value ==> !DebounceElapsed(lastLogTime, now)
  {
    lastLogTime.None? || SinceMs(now, lastLogTime.value) >= DebounceMs
  }

  /** When a probe with this latency writes an automatic log. */
  predicate ShouldLog(latency: nat, longest: nat, lastLogTime: Option<nat>, now: nat)
    ensures ShouldLog(latency, longest, lastLogTime, now) <==>
              latency > Max(longest, ThresholdMs) && DebounceElapsed(lastLogTime, now)
  {
    latency > longest && latency > ThresholdMs && DebounceElapsed(lastLogTime, now)
  }

  function AutoLogName(stamp: string): string {
    "log_" + stamp + ".txt"
  }

  /** The automatic log's file name is `log_<stamp>.txt`, and the stamp can be read back from it. */
  lemma AutoLogNameReadsBack(stamp: string)
    ensures var name := AutoLogName(stamp);
      && |name| == |stamp| + 8
      && name[..4] == "log_" && name[4..|name| - 4] == stamp && name[|name| - 4..] == ".txt"
  {
  }

  /** A file the monitor writes: its name and its full text. */
  datatype LogFile = LogFile(name: string, text: string)

  function FileText(content: string): string {
    content + "\n"
  }

  /** `writeln!` writes the rendered content followed by exactly one newline. */
  lemma FileTextAddsNewline(content: string)
    ensures var text := FileText(content);
      |text| == |content| + 1 && text[..|content|] == content && text[|content|] == '\n'
  {
  }

  /**
   * The window is the newest `min(probes, Capacity)` samples of the history,
   * and 32 bytes are counted per recorded probe (both since the last Clear).
   */
  ghost predicate WindowInvariant(window: seq<Sample>, history: seq<Sample>, probes: nat, total: nat) {
    |window| <= |history| &&
    window == history[|history| - |window|..] &&
    |window| == Min(probes, Capacity) &&
    total == BytesPerProbe * probes
  }

  /** The debounce state mirrors the log schedule, whose entries lie pairwise at least a minute apart. */
  ghost predicate DebounceInvariant(lastLogTime: Option<nat>, lastLogFileName: Option<string>, logTimes: seq<nat>) {
    (lastLogTime.None? <==> logTimes == []) &&
    (lastLogFileName.None? <==> logTimes == []) &&
    (logTimes != [] ==> lastLogTime == Some(logTimes[|logTimes| - 1])) &&
    (forall i, j :: 0 <= i < j < |logTimes| ==> logTimes[i] + DebounceMs <= logTimes[j])
  }

  /**
   * A session sets its start and check times together and nothing resets
   * them: both are present while monitoring, and they are present or absent
   * together.
   */
  ghost predicate SessionInvariant(isMonitoring: bool, startTime: Option<nat>, lastCheck: Option<nat>) {
    (isMonitoring ==> startTime.Some? && lastCheck.Some?) &&
    (startTime.Some? <==> lastCheck.Some?)
  }

  lemma RecordKeepsWindow(window: seq<Sample>, history: seq<Sample>, probes: nat, total: nat, x: Sample)
    requires WindowInvariant(window, history, probes, total)
    ensures WindowInvariant(Retained(window, x), history + [x], probes + 1, total + BytesPerProbe)
    ensures |Retained(window, x)| <= Capacity
  {
    var h := history + [x];
    var pushed := window + [x];
    assert pushed == h[|h| - |pushed|..];
    if |pushed| > Capacity {
      assert Retained(window, x) == pushed[1..] == h[|h| - |window|..];
    } else {
      assert Retained(window, x) == pushed;
    }
  }

  lemma ScheduleKeepsDebounce(lastLogTime: Option<nat>, lastLogFileName: Option<string>, logTimes: seq<nat>,
                              now: nat, name: string)
    requires DebounceInvariant(lastLogTime, lastLogFileName, logTimes)
    requires DebounceElapsed(lastLogTime, now)
    ensures DebounceInvariant(Some(now), Some(name), logTimes + [now])
  {
  }

  /**
   * The automatic log file: named after `stamp`, listing every retained
   * sample with their average, the longest latency and the byte counter.
   */
  function AutoLogFile(stamp: string, created: string, longest: nat, total: nat, window: seq<Sample>): LogFile {
    LogFile(AutoLogName(stamp), FileText(LogContent(created, RoundedAverage(window), longest, total, window)))
  }

  class InternetMonitor {
    var isMonitoring: bool
    var startTime: Option<nat>
    var lastCheck: Option<nat>
    var status: string
    var responseTimes: seq<Sample>
    var logStatus: Option<string>
    var totalDataSent: nat
    var longestResponseTime: nat
    var lastLogFileName: Option<string>
    var lastLogTime: Option<nat>

    /** Every sample ever recorded, including the evicted and the cleared ones. */
    ghost var history: seq<Sample>
    /** Probes recorded since the last Clear. */
    ghost var probesSinceClear: nat
    /** The times at which automatic logs were scheduled, oldest first. */
    ghost var logTimes: seq<nat>

    /** The invariants about recorded probes and automatic logs. */
    ghost predicate ProbesValid()
      reads this`responseTimes, this`history, this`probesSinceClear, this`totalDataSent,
            this`longestResponseTime, this`lastLogTime, this`lastLogFileName, this`logTimes
    {
      WindowInvariant(responseTimes, history, probesSinceClear, totalDataSent) &&
      IsHighWater(longestResponseTime, history) &&
      DebounceInvariant(lastLogTime, lastLogFileName, logTimes)
    }

    ghost predicate Valid()
      reads this`responseTimes, this`history, this`probesSinceClear, this`totalDataSent,
            this`longestResponseTime, this`lastLogTime, this`lastLogFileName, this`logTimes,
            this`isMonitoring, this`startTime, this`lastCheck
    {
      ProbesValid() && SessionInvariant(isMonitoring, startTime, lastCheck)
    }

    /** The state at program start (`Default`). */
    constructor ()
      ensures Valid()
      ensures !isMonitoring && startTime.None? && lastCheck.None?
      ensures status == NotCheckedYet && responseTimes == [] && logStatus.None?
      ensures totalDataSent == 0 && longestResponseTime == 0
      ensures lastLogFileName.None? && lastLogTime.None?
      ensures history == [] && logTimes == []
    {
      isMonitoring := false;
      startTime := None;
      lastCheck := None;
      status := NotCheckedYet;
      responseTimes := [];
      logStatus := None;
      totalDataSent := 0;
      longestResponseTime := 0;
      lastLogFileName := None;
      lastLogTime := None;
      history := [];
      probesSinceClear := 0;
      logTimes := [];
    }

    /** The start/stop button. */
    method ToggleMonitoring(now: nat)
      requires Valid()
      modifies this`isMonitoring, this`status, this`startTime, this`lastCheck
      ensures Valid()
      ensures isMonitoring == !old(isMonitoring)
      ensures isMonitoring ==> status == MonitoringTarget && startTime == Some(now) && lastCheck == Some(now)
      ensures !isMonitoring ==> status == NotMonitoring && startTime == old(startTime) && lastCheck == old(lastCheck)
    {
      isMonitoring := !isMonitoring;
      if isMonitoring {
        status := MonitoringTarget;
        startTime := Some(now);
        lastCheck := Some(now);
      } else {
        status := NotMonitoring;
      }
      assert ProbesValid();
    }

    /**
     * The "Clear Data" button: stops monitoring and empties the window and the
     * byte counter. The high-water mark and the debounce state are kept.
     */
    method ClearData()
      requires Valid()
      modifies this`isMonitoring, this`status, this`responseTimes, this`totalDataSent, this`logStatus,
               this`probesSinceClear
      ensures Valid()
      ensures !isMonitoring && status == NotMonitoring
      ensures responseTimes == [] && totalDataSent == 0
      ensures logStatus == Some(DataCleared)
      ensures longestResponseTime == old(longestResponseTime) && lastLogTime == old(lastLogTime)
    {
      isMonitoring := false;
      status := NotMonitoring;
      responseTimes := [];
      totalDataSent := 0;
      probesSinceClear := 0;
      logStatus := Some(DataCleared);
    }

    /**
     * The per-frame check: a probe is dispatched while monitoring once a
     * second has passed since the last check, and the check time moves to now.
     * A dispatched probe carries the session start as it was at dispatch
     * (`captured`); its sample measures elapsed time from that copy.
     */
    method Tick(now: nat) returns (dispatch: bool, captured: Option<nat>)
      requires Valid()
      modifies this`lastCheck
      ensures Valid()
      ensures dispatch <==> isMonitoring && old(lastCheck).Some? && SinceMs(now, old(lastCheck).value) >= ProbeIntervalMs
      ensures lastCheck == if dispatch then Some(now) else old(lastCheck)
      ensures captured == if dispatch then startTime else None
    {
      dispatch, captured := false, None;
      if isMonitoring {
        if lastCheck.Some? && SinceMs(now, lastCheck.value) >= ProbeIntervalMs {
          dispatch, captured := true, startTime;
          lastCheck := Some(now);
        }
      }
    }

    /**
     * What a dispatched probe does with its outcome at time `now`: an
     * unresolvable target ends the cycle with nothing changed; any other
     * outcome is recorded with its latency, its elapsed time measured from
     * `start`, the session start captured when the probe was dispatched.
     */
    method CompleteProbe(outcome: ProbeOutcome, start: Option<nat>, now: nat, fileStamp: string, created: string)
      returns (autoLog: Option<LogFile>)
      requires Valid()
      modifies this`status, this`responseTimes, this`history, this`totalDataSent, this`probesSinceClear,
               this`longestResponseTime, this`lastLogFileName, this`lastLogTime, this`logTimes
      ensures Valid()
      ensures outcome.Unresolvable? ==> unchanged(this) && autoLog.None?
      ensures !outcome.Unresolvable? ==>
        var sample := Sample(ElapsedSinceStart(now, start), LatencyOf(outcome));
        && status == StatusAfterProbe(LatencyOf(outcome))
        && responseTimes == Retained(old(responseTimes), sample)
        && totalDataSent == old(totalDataSent) + BytesPerProbe
        && longestResponseTime == Max(old(longestResponseTime), LatencyOf(outcome))
      ensures autoLog.Some? <==>
        !outcome.Unresolvable? && ShouldLog(LatencyOf(outcome), old(longestResponseTime), old(lastLogTime), now)
      ensures autoLog.Some? ==>
        && lastLogTime == Some(now)
        && lastLogFileName == Some(AutoLogName(fileStamp))
        && autoLog.value == AutoLogFile(fileStamp, created, longestResponseTime, totalDataSent, responseTimes)
      ensures autoLog.None? ==> lastLogTime == old(lastLogTime) && lastLogFileName == old(lastLogFileName)
      ensures LatencyOf(outcome) == 0 ==> autoLog.None? && longestResponseTime == old(longestResponseTime)
    {
      if outcome.Unresolvable? {
        return None;
      }
      var latency := LatencyOf(outcome);
      assert latency == 0 ==> !ShouldLog(latency, longestResponseTime, lastLogTime, now);
      autoLog := RecordProbe(latency, start, now, fileStamp, created);
      assert SessionInvariant(isMonitoring, startTime, lastCheck);
    }

    /**
     * One resolved probe cycle: the sample is pushed into the window, the
     * status, high-water mark and byte counter are updated, the oldest
     * sample is evicted past `Capacity`, and when the latency is a new
     * maximum above the threshold and the last automatic log is a minute
     * old, a log named after `fileStamp` is scheduled; its text is rendered
     * from the state the cycle leaves behind, headed by `created`. The sample
     * measures its elapsed time from `start`, the start captured at dispatch.
     */
    method RecordProbe(latency: nat, start: Option<nat>, now: nat, fileStamp: string, created: string)
      returns (autoLog: Option<LogFile>)
      requires ProbesValid()
      modifies this`status, this`responseTimes, this`history, this`totalDataSent, this`probesSinceClear,
               this`longestResponseTime, this`lastLogFileName, this`lastLogTime, this`logTimes
      ensures ProbesValid()
      ensures var sample := Sample(ElapsedSinceStart(now, start), latency);
        && status == StatusAfterProbe(latency)
        && responseTimes == Retained(old(responseTimes), sample)
        && history == old(history) + [sample]
        && totalDataSent == old(totalDataSent) + BytesPerProbe
        && longestResponseTime == Max(old(longestResponseTime), latency)
      ensures autoLog.Some? <==> ShouldLog(latency, old(longestResponseTime), old(lastLogTime), now)
      ensures autoLog.Some? ==>
        && lastLogTime == Some(now)
        && logTimes == old(logTimes) + [now]
        && lastLogFileName == Some(AutoLogName(fileStamp))
        && autoLog.value == AutoLogFile(fileStamp, created, longestResponseTime, totalDataSent, responseTimes)
      ensures autoLog.None? ==>
        lastLogTime == old(lastLogTime) && lastLogFileName == old(lastLogFileName) && logTimes == old(logTimes)
    {
      status := StatusAfterProbe(latency);
      var sample := Sample(ElapsedSinceStart(now, start), latency);
      IsHighWaterAppend(longestResponseTime, history, sample);
      var scheduled := UpdateLongest(latency, now, fileStamp);
      PushSample(sample);

      // The render runs once the cycle has released the window.
      if scheduled {
        var content := RenderLog(created, RoundedAverage(responseTimes), longestResponseTime,
                                 totalDataSent, responseTimes);
        autoLog := Some(LogFile(AutoLogName(fileStamp), FileText(content)));
      } else {
        autoLog := None;
      }
    }

    /**
     * The high-water mark and threshold part of a probe cycle: a strict new
     * maximum replaces the longest latency, and when it is also above the
     * threshold and the debounce interval has passed, the log name and time
     * are recorded.
     */
    method UpdateLongest(latency: nat, now: nat, fileStamp: string) returns (scheduled: bool)
      requires DebounceInvariant(lastLogTime, lastLogFileName, logTimes)
      modifies this`longestResponseTime, this`lastLogFileName, this`lastLogTime, this`logTimes
      ensures DebounceInvariant(lastLogTime, lastLogFileName, logTimes)
      ensures longestResponseTime == Max(old(longestResponseTime), latency)
      ensures scheduled <==> ShouldLog(latency, old(longestResponseTime), old(lastLogTime), now)
      ensures scheduled ==> lastLogTime == Some(now) && logTimes == old(logTimes) + [now]
                            && lastLogFileName == Some(AutoLogName(fileStamp))
      ensures !scheduled ==> lastLogTime == old(lastLogTime) && logTimes == old(logTimes)
                             && lastLogFileName == old(lastLogFileName)
    {
      scheduled := false;
      if latency > longestResponseTime {
        longestResponseTime := latency;
        if latency > ThresholdMs {
          if DebounceElapsed(lastLogTime, now) {
            var name := AutoLogName(fileStamp);
            ScheduleKeepsDebounce(lastLogTime, lastLogFileName, logTimes, now, name);
            lastLogFileName := Some(name);
            scheduled := true;
            lastLogTime := Some(now);
            logTimes := logTimes + [now];
          }
        }
      }
    }

    /**
     * The window part of a probe cycle: push the sample, count its bytes, and
     * evict index 0 once the window is longer than `Capacity`.
     */
    method PushSample(sample: Sample)
      requires WindowInvariant(responseTimes, history, probesSinceClear, totalDataSent)
      modifies this`responseTimes, this`history, this`totalDataSent, this`probesSinceClear
      ensures WindowInvariant(responseTimes, history, probesSinceClear, totalDataSent)
      ensures responseTimes == Retained(old(responseTimes), sample)
      ensures history == old(history) + [sample]
      ensures totalDataSent == old(totalDataSent) + BytesPerProbe
      ensures |responseTimes| <= Capacity
    {
      RecordKeepsWindow(responseTimes, history, probesSinceClear, totalDataSent, sample);
      responseTimes := responseTimes + [sample];
      history := history + [sample];
      totalDataSent := totalDataSent + BytesPerProbe;
      probesSinceClear := probesSinceClear + 1;
      if |responseTimes| > Capacity {
        responseTimes := responseTimes[1..];
      }
    }

    /**
     * The "Log Data" button: writes the samples of the export window to
     * `log.txt`, the average being over every retained sample; the check
     * mark appears only when the write succeeded (`written`).
     */
    method LogData(now: nat, created: string, written: bool) returns (file: LogFile)
      requires Valid()
      modifies this`logStatus
      ensures Valid()
      ensures file == LogFile(ManualLogName,
                FileText(LogContent(created, RoundedAverage(responseTimes), longestResponseTime, totalDataSent,
                                    ExportSelection(responseTimes, ExportWindow(now, startTime)))))
      ensures logStatus == if written then Some(Done) else old(logStatus)
    {
      var selected := ExportSelection(responseTimes, ExportWindow(now, startTime));
      var content := RenderLog(created, RoundedAverage(responseTimes), longestResponseTime, totalDataSent, selected);
      file := LogFile(ManualLogName, FileText(content));
      if written {
        logStatus := Some(Done);
      }
    }
  }
}
