/**
 * The monitor's samples and the pure computations over them: the bounded
 * rolling window, the high-water mark, the displayed average, the rounding of
 * elapsed seconds and the manual export's time-window filter.
 */
module Samples {
  import opened Wrappers

  /** Most recent samples kept; the oldest is dropped once there are more. */
  const Capacity: nat := 100
  /** The manual export looks back this far, in milliseconds. */
  const ExportLookbackMs: nat := 100000

  /**
   * One probe result: time since the monitoring session started and the
   * round trip, both in whole milliseconds; latency 0 marks a failed probe.
   */
  datatype Sample = Sample(elapsedMs: nat, latencyMs: nat)

  function Max(a: nat, b: nat): nat {
    if a >= b then a else b
  }

  function Min(a: nat, b: nat): nat {
    if a <= b then a else b
  }

  /**
   * The window after `x` is pushed and, when that makes it longer than
   * `Capacity`, the element at index 0 is removed.
   */
  function Retained(xs: seq<Sample>, x: Sample): (r: seq<Sample>)
    ensures |r| == if |xs| < Capacity then |xs| + 1 else |xs|
    ensures r == (xs + [x])[|xs| + 1 - |r|..]
    ensures |xs| <= Capacity ==> |r| <= Capacity
  {
    var pushed := xs + [x];
    if |pushed| > Capacity then pushed[1..] else pushed
  }

  /** The largest latency in `xs`, or 0 when there is none. */
  function HighWater(xs: seq<Sample>): nat {
    if xs == [] then 0 else Max(xs[0].latencyMs, HighWater(xs[1..]))
  }

  /** `m` bounds every latency in `xs` and is one of them, unless it is 0. */
  ghost predicate IsHighWater(m: nat, xs: seq<Sample>) {
    (forall i :: 0 <= i < |xs| ==> xs[i].latencyMs <= m) &&
    (m == 0 || exists i :: 0 <= i < |xs| && xs[i].latencyMs == m)
  }

  /** The high-water mark bounds every latency in `xs` and is one of them, unless it is 0. */
  lemma {:induction false} HighWaterIsMaximum(xs: seq<Sample>)
    ensures IsHighWater(HighWater(xs), xs)
  {
    if xs != [] {
      HighWaterIsMaximum(xs[1..]);
      assert forall i :: 1 <= i < |xs| ==> xs[i] == xs[1..][i - 1];
      if HighWater(xs) != xs[0].latencyMs && HighWater(xs) != 0 {
        var j :| 0 <= j < |xs[1..]| && xs[1..][j].latencyMs == HighWater(xs[1..]);
        assert xs[j + 1].latencyMs == HighWater(xs);
      }
    }
  }

  /** Only the high-water mark bounds every latency and is one of them (or 0). */
  lemma HighWaterIsUnique(m: nat, xs: seq<Sample>)
    ensures IsHighWater(m, xs) <==> m == HighWater(xs)
  {
    HighWaterIsMaximum(xs);
    if IsHighWater(m, xs) && HighWater(xs) != 0 {
      var i :| 0 <= i < |xs| && xs[i].latencyMs == HighWater(xs);
      assert HighWater(xs) <= m;
      if m != 0 {
        var j :| 0 <= j < |xs| && xs[j].latencyMs == m;
        assert m <= HighWater(xs);
      }
    }
  }

  /** Recording one more sample keeps a high-water mark once raised to the sample's latency. */
  lemma IsHighWaterAppend(m: nat, xs: seq<Sample>, x: Sample)
    requires IsHighWater(m, xs)
    ensures IsHighWater(Max(m, x.latencyMs), xs + [x])
  {
    var ys := xs + [x];
    assert ys[|xs|] == x;
    assert forall i :: 0 <= i < |xs| ==> ys[i] == xs[i];
    if m != 0 && x.latencyMs <= m {
      var j :| 0 <= j < |xs| && xs[j].latencyMs == m;
      assert ys[j].latencyMs == m;
    }
  }

  /** Recording one more sample raises the high-water mark to at least its latency, and no further. */
  lemma {:induction false} HighWaterAppend(xs: seq<Sample>, x: Sample)
    ensures HighWater(xs + [x]) == Max(HighWater(xs), x.latencyMs)
  {
    if xs != [] {
      assert (xs + [x])[1..] == xs[1..] + [x];
      HighWaterAppend(xs[1..], x);
    }
  }

  /** Dropping older samples never raises the high-water mark. */
  lemma HighWaterSuffix(xs: seq<Sample>, k: nat)
    requires k <= |xs|
    ensures HighWater(xs[k..]) <= HighWater(xs)
  {
    var ys := xs[k..];
    HighWaterIsMaximum(xs);
    HighWaterIsMaximum(ys);
    if HighWater(ys) != 0 {
      var i :| 0 <= i < |ys| && ys[i].latencyMs == HighWater(ys);
      assert ys[i] == xs[k + i];
    }
  }

  function LatencySum(xs: seq<Sample>): nat {
    if xs == [] then 0 else xs[0].latencyMs + LatencySum(xs[1..])
  }

  lemma MulSucc(q: nat, n: nat)
    ensures (q + 1) * n == q * n + n
  {
  }

  lemma MulMonotone(a: nat, b: nat, n: nat)
    requires a <= b
    ensures n * a <= n * b && a * n <= b * n
  {
  }

  lemma {:induction false} SumAtMostCountTimesHighWater(xs: seq<Sample>)
    ensures LatencySum(xs) <= |xs| * HighWater(xs)
  {
    if xs != [] {
      var k := |xs| - 1;
      var h, h' := HighWater(xs), HighWater(xs[1..]);
      SumAtMostCountTimesHighWater(xs[1..]);
      HighWaterSuffix(xs, 1);
      HighWaterIsMaximum(xs);
      assert xs[0].latencyMs <= h;
      assert LatencySum(xs) == xs[0].latencyMs + LatencySum(xs[1..]);
      MulMonotone(h', h, k);
      MulSucc(k, h);
      assert |xs| * h == (k + 1) * h;
    }
  }

  /** The integer nearest to `s / n`, a tie going to the even neighbour. */
  function RoundHalfEven(s: nat, n: nat): (r: nat)
    requires n > 0
    ensures 2 * (r * n) <= 2 * s + n && 2 * s <= 2 * (r * n) + n
    ensures 2 * s == 2 * (r * n) + n || 2 * s + n == 2 * (r * n) ==> r % 2 == 0
  {
    var q, m := s / n, s % n;
    RoundingStep(s, n, q, m);
    if 2 * m < n then q
    else if 2 * m > n then q + 1
    else if q % 2 == 0 then q
    else q + 1
  }

  lemma RoundingStep(s: nat, n: nat, q: nat, m: nat)
    requires n > 0 && q == s / n && m == s % n
    ensures s == q * n + m && m < n
    ensures (q + 1) * n == q * n + n
  {
    MulSucc(q, n);
  }

  /**
   * The average latency as `{:.0}` prints it: the integer nearest to the sum
   * over the count, a tie going to the even neighbour; 0 when there are no
   * samples.
   */
  function RoundedAverage(xs: seq<Sample>): (r: nat)
    ensures xs == [] ==> r == 0
    ensures xs != [] ==> 2 * (r * |xs|) <= 2 * LatencySum(xs) + |xs|
    ensures xs != [] ==> 2 * LatencySum(xs) <= 2 * (r * |xs|) + |xs|
    ensures xs != [] && (2 * LatencySum(xs) == 2 * (r * |xs|) + |xs| || 2 * LatencySum(xs) + |xs| == 2 * (r * |xs|))
            ==> r % 2 == 0
  {
    if xs == [] then 0 else RoundHalfEven(LatencySum(xs), |xs|)
  }

  /** The printed average never exceeds the largest retained latency. */
  lemma AverageAtMostHighWater(xs: seq<Sample>)
    ensures RoundedAverage(xs) <= HighWater(xs)
  {
    if xs != [] {
      var n, r, h := |xs|, RoundedAverage(xs), HighWater(xs);
      SumAtMostCountTimesHighWater(xs);
      assert n * h == h * n;
      if r > h {
        MulMonotone(h + 1, r, n);
        MulSucc(h, n);
        assert false;
      }
    }
  }

  /**
   * Elapsed seconds as the log prints them: rounded to the nearest whole
   * second, half a second rounding up.
   */
  function RoundSecs(ms: nat): (s: nat)
    ensures 1000 * s <= ms + 500 < 1000 * s + 1000
  {
    (ms + 500) / 1000
  }

  /**
   * The manual export's window, `(now - 100 s) - start`, as a duration: it
   * stops at zero when the start is later. A session that never started
   * counts from `now`.
   */
  function ExportWindow(now: nat, start: Option<nat>): (w: nat)
    ensures start.GetOr(now) + ExportLookbackMs <= now ==> start.GetOr(now) + ExportLookbackMs + w == now
    ensures now < start.GetOr(now) + ExportLookbackMs ==> w == 0
  {
    var d := now - ExportLookbackMs - start.GetOr(now);
    if d > 0 then d else 0
  }

  /** Within one session the window keeps exactly the samples taken after `now - 100 s`, except one taken at the start. */
  lemma ExportWindowIsLookback(now: nat, start: nat, takenAt: nat)
    requires start <= takenAt
    ensures takenAt - start > ExportWindow(now, Some(start))
        <==> takenAt > start && takenAt + ExportLookbackMs > now
  {
  }

  /** The samples the manual export lists, in stored order. */
  function ExportSelection(xs: seq<Sample>, window: nat): (r: seq<Sample>)
    ensures |r| <= |xs|
    ensures forall x :: x in r <==> x in xs && x.elapsedMs > window
  {
    if xs == [] then []
    else (if xs[0].elapsedMs > window then [xs[0]] else []) + ExportSelection(xs[1..], window)
  }

  /** Selection distributes over concatenation, so stored order is kept. */
  lemma {:induction false} ExportSelectionAppend(xs: seq<Sample>, ys: seq<Sample>, window: nat)
    ensures ExportSelection(xs + ys, window) == ExportSelection(xs, window) + ExportSelection(ys, window)
  {
    if xs == [] {
      assert xs + ys == ys;
    } else {
      assert (xs + ys)[1..] == xs[1..] + ys;
      ExportSelectionAppend(xs[1..], ys, window);
    }
  }

  /** When every sample lies inside the window, the selection is the whole window. */
  lemma {:induction false} ExportSelectionAll(xs: seq<Sample>, window: nat)
    requires forall i :: 0 <= i < |xs| ==> xs[i].elapsedMs > window
    ensures ExportSelection(xs, window) == xs
  {
    if xs != [] {
      ExportSelectionAll(xs[1..], window);
    }
  }
}
