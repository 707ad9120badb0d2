/**
 * Clients of the monitor that replay one step of a concrete run each and
 * check, from the contracts alone, what the monitor must do.
 */
module Scenarios {
  import opened Wrappers
  import opened Samples
  import opened Monitor

  /** Starting monitoring at time 0 makes the first probe due one second later. */
  method StartRun(now: nat) {
    var m := new InternetMonitor();
    m.ToggleMonitoring(now);
    var early, _ := m.Tick(now + 999);
    assert !early;
    var due, start := m.Tick(now + 1000);
    assert due && m.lastCheck == Some(now + 1000) && start == Some(now);
  }

  /** While monitoring, a probe is always dispatched once a second has passed since the last check. */
  method SessionDispatches(m: InternetMonitor, now: nat)
    requires m.Valid() && m.isMonitoring
    requires now >= m.lastCheck.value + ProbeIntervalMs
    modifies m
  {
    var due, start := m.Tick(now);
    assert due && start == m.startTime && start.Some?;
  }

  /**
   * A probe dispatched at 5 s of a session started at 0 is still measured
   * from 0 when monitoring is stopped and restarted before it completes.
   */
  method RestartDuringProbe(m: InternetMonitor, stamp: string, created: string)
    requires m.Valid() && m.isMonitoring && m.startTime == Some(0) && m.lastCheck == Some(4000)
    modifies m
  {
    var due, start := m.Tick(5000);
    assert due && start == Some(0);
    m.ToggleMonitoring(5100);
    m.ToggleMonitoring(5200);
    assert m.startTime == Some(5200);
    var _ := m.CompleteProbe(Reply(40), start, 5300, stamp, created);
    assert m.responseTimes[|m.responseTimes| - 1] == Sample(5300, 40);
  }

  /**
   * After (0 s, 50 ms) and (1 s, 60 ms), a 200 ms reply at 2 s with no
   * earlier log schedules one: the longest becomes 200 ms and the window
   * holds the three samples in order.
   */
  method ThresholdRun(m: InternetMonitor, stamp: string, created: string)
    requires m.Valid() && m.lastLogTime.None?
    requires m.responseTimes == [Sample(0, 50), Sample(1000, 60)] && m.longestResponseTime == 60
    modifies m
  {
    var before := m.responseTimes;
    assert Retained(before, Sample(2000, 200)) == before + [Sample(2000, 200)];
    assert ShouldLog(200, 60, None, 2000);
    var log := m.CompleteProbe(Reply(200), Some(0), 2000, stamp, created);
    assert log.Some?;
    assert m.longestResponseTime == 200;
    assert m.lastLogFileName == Some(AutoLogName(stamp));
    assert m.responseTimes == [Sample(0, 50), Sample(1000, 60), Sample(2000, 200)];
  }

  /** The average printed for those three samples is 103 ms. */
  method ThresholdRunAverage() {
    var w := [Sample(0, 50), Sample(1000, 60), Sample(2000, 200)];
    assert w[1..][1..][1..] == [];
    assert LatencySum(w[1..][1..]) == 200;
    assert LatencySum(w) == 310;
    assert RoundedAverage(w) == 103;
  }

  /** A new maximum above the threshold 70 s after the last log schedules another; 10 s after, none. */
  method DebounceRun(m: InternetMonitor, t: nat, stamp: string, created: string)
    requires m.Valid() && m.lastLogTime == Some(t) && m.longestResponseTime == 200
    modifies m
  {
    var soon := m.CompleteProbe(Reply(300), m.startTime, t + 10000, stamp, created);
    assert soon.None? && m.lastLogTime == Some(t);
    assert m.longestResponseTime == 300;
    var later := m.CompleteProbe(Reply(400), m.startTime, t + 70000, stamp, created);
    assert later.Some? && m.lastLogTime == Some(t + 70000);
  }

  /** A failed probe is recorded as latency 0, counts its bytes and never logs. */
  method FailureRun(m: InternetMonitor, now: nat, stamp: string, created: string)
    requires m.Valid()
    modifies m
  {
    var log := m.CompleteProbe(NoReply, m.startTime, now, stamp, created);
    assert log.None? && m.status == StatusAfterProbe(0);
    assert m.responseTimes[|m.responseTimes| - 1].latencyMs == 0;
    assert m.totalDataSent == old(m.totalDataSent) + 32;
  }

  /** Clear empties the window and the counter but keeps the longest latency. */
  method ClearRun(m: InternetMonitor)
    requires m.Valid() && m.longestResponseTime == 500
    modifies m
  {
    m.ClearData();
    assert m.responseTimes == [] && m.totalDataSent == 0 && m.status == NotMonitoring;
    assert m.longestResponseTime == 500 && !m.isMonitoring;
    var due, _ := m.Tick(10000);
    assert !due;
  }
}
