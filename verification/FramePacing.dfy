/**
  Client-side frame pacing: when to wake up for the next frame, and the pacing of whole runs of waits.
  Times are nanoseconds on one monotone clock. The readings a call takes (the clock, the server's
  latest vsync, the clock again) are its parameters.
 */
module FramePacing {
  import opened Basics
  import opened Arithmetic

  /** What one call of `next_frame_after` reads: the clock, the vsync the resync callback reports, and
      the clock after the callback. */
  datatype Reading = Reading(now: int, serverFrame: int, later: int)

  function MissedFrames(period: int, prev: int, now: int): int
    requires period != 0
  {
    if now > prev + period then TruncDiv(now - (prev + period), period) else 0
  }

  predicate Resyncs(period: int, changed: bool, prev: int, now: int)
    requires period != 0
  {
    MissedFrames(period, prev, now) > 1 || changed
  }

  function ResyncTarget(period: int, r: Reading): int
    requires period != 0
  {
    if r.serverFrame > r.later then r.serverFrame
    else r.serverFrame + (TruncDiv(r.later - r.serverFrame, period) + 1) * period
  }

  /** `next_frame_after`. */
  function Target(period: int, changed: bool, prev: int, r: Reading): int
  {
    if period == 0 then prev
    else if Resyncs(period, changed, prev, r.now) then ResyncTarget(period, r)
    else if MissedFrames(period, prev, r.now) > 0 then prev + period + MissedFrames(period, prev, r.now) * period
    else prev + period
  }

  /** The resync used when no callback was set: the last multiple of the period. */
  function FallbackResync(period: int, now: int): int
  {
    if period != 0 then now - TruncMod(now, period) else now
  }

  class FrameClock {
    var period: int
    var configChanged: bool

    constructor ()
      ensures period == 0 && !configChanged
    {
      period, configChanged := 0, false;
    }

    method SetPeriod(ns: int)
      modifies this
      ensures period == ns && configChanged
    {
      period, configChanged := ns, true;
    }

    method NextFrameAfter(prev: int, r: Reading) returns (target: int)
      modifies this`configChanged
      ensures target == Target(period, old(configChanged), prev, r)
      ensures configChanged == (old(configChanged) && period == 0)
      ensures period > 0 && Resyncs(period, old(configChanged), prev, r.now) ==> target > r.later
    {
      if period == 0 {
        return prev;
      }
      target := prev + period;
      var now := r.now;
      var missedFrames := if now > target then TruncDiv(now - target, period) else 0;
      if missedFrames > 1 || configChanged {
        now := r.later;
        if r.serverFrame > now {
          target := r.serverFrame;
        } else {
          var age := now - r.serverFrame;
          var ageFrames := TruncDiv(age, period);
          target := r.serverFrame + (ageFrames + 1) * period;
        }
        if period > 0 {
          AfterNow(period, r);
        }
        configChanged := false;
      } else if missedFrames > 0 {
        target := target + missedFrames * period;
      }
    }
  }

  /** The assertion in the code: a resynchronised target lies strictly in the future. */
  lemma AfterNow(period: int, r: Reading)
    requires period > 0
    ensures ResyncTarget(period, r) > r.later
  {
    if r.serverFrame <= r.later {
      DivBounds(r.later - r.serverFrame, period);
    }
  }

  /** When the server's frame is not in the future, the target is the first tick of its grid after now. */
  lemma FirstTickAfterNow(period: int, r: Reading, k: int)
    requires period > 0 && r.serverFrame <= r.later
    ensures ResyncTarget(period, r) - period <= r.later < ResyncTarget(period, r)
    ensures (ResyncTarget(period, r) - r.serverFrame) % period == 0
    ensures r.serverFrame + k * period > r.later ==> ResyncTarget(period, r) <= r.serverFrame + k * period
  {
    var q := TruncDiv(r.later - r.serverFrame, period);
    DivBounds(r.later - r.serverFrame, period);
    Multiple(q + 1, period);
    if r.serverFrame + k * period > r.later && k <= q {
      MulMonotone(k, q, period);
    } else if k > q {
      MulMonotone(q + 1, k, period);
    }
  }

  lemma SumOfMultiples(a: int, b: int, p: int)
    requires p > 0 && a % p == 0 && b % p == 0
    ensures (a + b) % p == 0 && (a - b) % p == 0
  {
    assert a == p * (a / p) && b == p * (b / p);
    assert a + b == (a / p + b / p) * p;
    assert a - b == (a / p - b / p) * p;
    Multiple(a / p + b / p, p);
    Multiple(a / p - b / p, p);
  }

  /** When a call resynchronises: on a pending change, or three periods or more after the last target. */
  lemma ResyncsIff(period: int, changed: bool, prev: int, now: int)
    requires period > 0
    ensures Resyncs(period, changed, prev, now) <==> changed || now >= prev + 3 * period
  {
    if now > prev + period {
      var k := MissedFrames(period, prev, now);
      DivBounds(now - (prev + period), period);
      if k >= 2 {
        MulMonotone(2, k, period);
      } else {
        MulMonotone(k, 1, period);
      }
    }
  }

  /** Without a change pending, and less than three periods after the last target: the next tick if it is still
      ahead, else the last tick that is not after now, so that one missed frame is caught up with. */
  lemma CatchUp(period: int, prev: int, r: Reading)
    requires period > 0 && r.now < prev + 3 * period
    ensures var t := Target(period, false, prev, r);
      && (t - prev) % period == 0
      && (r.now < prev + period ==> t == prev + period)
      && (r.now >= prev + period ==> t <= r.now < t + period)
  {
    ResyncsIff(period, false, prev, r.now);
    var m := MissedFrames(period, prev, r.now);
    if r.now > prev + period {
      DivBounds(r.now - (prev + period), period);
    }
    assert Target(period, false, prev, r) - prev == (m + 1) * period;
    Multiple(m + 1, period);
  }

  /** A server frame still ahead is the target itself; an unthrottled clock answers what it was given. */
  lemma TargetGiven(period: int, changed: bool, prev: int, r: Reading)
    ensures period == 0 ==> Target(period, changed, prev, r) == prev
    ensures period > 0 && (changed || r.now >= prev + 3 * period) && r.serverFrame > r.later ==>
      Target(period, changed, prev, r) == r.serverFrame
  {
    if period > 0 {
      ResyncsIff(period, changed, prev, r.now);
    }
  }

  /** Bounds on one target: never a full period in the past; congruent to `prev` unless it resyncs. */
  lemma TargetBounds(period: int, changed: bool, prev: int, r: Reading)
    requires period > 0 && r.now <= r.later
    ensures r.now - Target(period, changed, prev, r) < period
    ensures Resyncs(period, changed, prev, r.now) ==> Target(period, changed, prev, r) > r.later
    ensures !Resyncs(period, changed, prev, r.now) ==> (Target(period, changed, prev, r) - prev) % period == 0
    ensures !Resyncs(period, changed, prev, r.now) ==> prev + period <= Target(period, changed, prev, r) <= prev + 2 * period
  {
    if Resyncs(period, changed, prev, r.now) {
      AfterNow(period, r);
    } else {
      var m := MissedFrames(period, prev, r.now);
      if r.now > prev + period {
        DivBounds(r.now - (prev + period), period);
      }
      assert 0 <= m <= 1;
      assert Target(period, changed, prev, r) - prev == (m + 1) * period;
      Multiple(m + 1, period);
    }
  }

  // ------------------------------------------------------------------------- runs of waits

  /** One stream's wait loop: the frame clock and the last vsync waited for. */
  class BufferStream {
    var clock: FrameClock?
    var lastVsync: int

    constructor (clock: FrameClock?)
      ensures this.clock == clock && lastVsync == 0
    {
      this.clock, lastVsync := clock, 0;
    }

    /** `wait_for_vsync`; returns the time slept until, if any. */
    method WaitForVsync(r: Reading) returns (target: Option<int>)
      modifies this`lastVsync, if clock == null then {} else {clock}
      ensures clock == null ==> target == None && lastVsync == old(lastVsync)
      ensures clock != null ==>
        && clock.period == old(clock.period)
        && target == Some(Target(clock.period, old(clock.configChanged), old(lastVsync), r))
        && lastVsync == Latest(old(lastVsync), target.value)
        && lastVsync >= old(lastVsync) && lastVsync >= target.value && (lastVsync == old(lastVsync) || lastVsync == target.value)
        && clock.configChanged == (old(clock.configChanged) && clock.period == 0)
    {
      if clock == null {
        return None;
      }
      var last := lastVsync;
      var t := clock.NextFrameAfter(last, r);
      if t > lastVsync {
        lastVsync := t;
      }
      target := Some(t);
    }
  }

  function Latest(last: int, target: int): int
  {
    if target > last then target else last
  }

  /** The targets of a run of waits with no configuration change in between; `changed` tells whether
      one was still pending before the first wait. */
  function Targets(period: int, changed: bool, last: int, readings: seq<Reading>): (ts: seq<int>)
    ensures |ts| == |readings|
    decreases |readings|
  {
    if readings == [] then []
    else
      var t := Target(period, changed, last, readings[0]);
      [t] + Targets(period, changed && period == 0, Latest(last, t), readings[1..])
  }

  function LastVsync(period: int, changed: bool, last: int, readings: seq<Reading>): int
    decreases |readings|
  {
    if readings == [] then last
    else
      var t := Target(period, changed, last, readings[0]);
      LastVsync(period, changed && period == 0, Latest(last, t), readings[1..])
  }

  ghost predicate Monotone(readings: seq<Reading>)
  {
    forall i :: 0 <= i < |readings| ==> readings[i].now <= readings[i].later
  }

  lemma Advances(period: int, last: int, r: Reading)
    requires period > 0 && r.now <= r.later
    ensures Target(period, false, last, r) >= last + period
  {
    TargetBounds(period, false, last, r);
    if Resyncs(period, false, last, r.now) {
      DivBounds(r.now - (last + period), period);
      MulMonotone(2, MissedFrames(period, last, r.now), period);
    }
  }

  ghost predicate Spaced(ts: seq<int>, period: int)
  {
    forall i :: 0 <= i < |ts| - 1 ==> ts[i + 1] >= ts[i] + period
  }

  lemma SpacedCons(t: int, ts: seq<int>, period: int)
    requires Spaced(ts, period) && (ts != [] ==> ts[0] >= t + period)
    ensures Spaced([t] + ts, period)
  {
  }

  lemma {:induction false} SpacedSpan(ts: seq<int>, period: int, k: nat)
    requires Spaced(ts, period) && k < |ts|
    ensures ts[k] >= ts[0] + k * period
  {
    if k > 0 {
      SpacedSpan(ts, period, k - 1);
      assert ts[(k - 1) + 1] >= ts[k - 1] + period;
      assert k * period == (k - 1) * period + period;
    }
  }

  lemma {:induction false} SettledTargets(period: int, last: int, readings: seq<Reading>)
    requires period > 0 && Monotone(readings)
    ensures var ts := Targets(period, false, last, readings);
      && Spaced(ts, period)
      && (readings != [] ==> ts[0] >= last + period && LastVsync(period, false, last, readings) == ts[|ts| - 1])
    decreases |readings|
  {
    if readings != [] {
      var t := Target(period, false, last, readings[0]);
      Advances(period, last, readings[0]);
      SettledTargets(period, t, readings[1..]);
      SpacedCons(t, Targets(period, false, t, readings[1..]), period);
    }
  }

  /** Pacing: once the configuration is settled, successive targets strictly increase and lie at least a
      period apart, so that k waits advance the last vsync by at least k periods. */
  lemma Paced(period: int, last: int, readings: seq<Reading>)
    requires period > 0 && Monotone(readings)
    ensures Spaced(Targets(period, false, last, readings), period)
    ensures LastVsync(period, false, last, readings) >= last + |readings| * period
  {
    SettledTargets(period, last, readings);
    if readings != [] {
      var n := |readings| - 1;
      SpacedSpan(Targets(period, false, last, readings), period, n);
      OneMorePeriod(n, |readings|, period);
    }
  }

  lemma OneMorePeriod(n: int, next: int, period: int)
    requires next == n + 1
    ensures next * period == n * period + period
  {
  }

  /** The same with a configuration change pending at the start: every later target still comes at least
      a period after the one before it, and every wait after the first advances the last vsync by at least
      a period. */
  lemma PacedFromFirstFrame(period: int, last: int, readings: seq<Reading>)
    requires period > 0 && Monotone(readings)
    ensures Spaced(Targets(period, true, last, readings), period)
    ensures readings != [] ==>
      LastVsync(period, true, last, readings) >=
      Latest(last, Target(period, true, last, readings[0])) + (|readings| - 1) * period
  {
    if readings != [] {
      var t := Target(period, true, last, readings[0]);
      Paced(period, Latest(last, t), readings[1..]);
      SettledTargets(period, Latest(last, t), readings[1..]);
      SpacedCons(t, Targets(period, false, Latest(last, t), readings[1..]), period);
    }
  }

  // ------------------------------------------------------------------------- phase

  /** Readings whose resync is the fallback: the callback read the clock between the two others. */
  ghost predicate Fallback(period: int, readings: seq<Reading>)
  {
    forall i :: 0 <= i < |readings| ==>
      exists at :: readings[i].now <= at <= readings[i].later && readings[i].serverFrame == FallbackResync(period, at)
  }

  /** The fallback is the last multiple of the period that is not after now. */
  lemma FallbackOnGrid(period: int, now: int)
    requires period > 0
    ensures FallbackResync(period, now) % period == 0
    ensures now >= 0 ==> FallbackResync(period, now) <= now < FallbackResync(period, now) + period
  {
    if now >= 0 {
      DivBounds(now, period);
    }
    assert FallbackResync(period, now) == TruncDiv(now, period) * period;
    Multiple(TruncDiv(now, period), period);
  }

  lemma TargetOnGrid(period: int, changed: bool, last: int, r: Reading)
    requires period > 0 && r.now <= r.later && r.serverFrame % period == 0
    requires Resyncs(period, changed, last, r.now) || last % period == 0
    ensures Target(period, changed, last, r) % period == 0
  {
    var t := Target(period, changed, last, r);
    if !Resyncs(period, changed, last, r.now) {
      TargetBounds(period, changed, last, r);
      SumOfMultiples(t - last, last, period);
    } else if r.serverFrame <= r.later {
      FirstTickAfterNow(period, r, 0);
      SumOfMultiples(t - r.serverFrame, r.serverFrame, period);
    }
  }

  /** Phase: with the fallback resync every target is a multiple of the period, whatever the stream was
      doing before the configuration change, provided it had slept until its last vsync (or started
      on the grid, as a new stream does). */
  lemma {:induction false} AllOnGrid(period: int, changed: bool, last: int, readings: seq<Reading>)
    requires period > 0 && Monotone(readings) && Fallback(period, readings)
    requires last % period == 0 || (changed && readings != [] && readings[0].now >= last)
    ensures forall i :: 0 <= i < |readings| ==> Targets(period, changed, last, readings)[i] % period == 0
    decreases |readings|
  {
    if readings != [] {
      var r := readings[0];
      var at :| r.now <= at <= r.later && r.serverFrame == FallbackResync(period, at);
      FallbackOnGrid(period, at);
      TargetOnGrid(period, changed, last, r);
      var t := Target(period, changed, last, r);
      if changed {
        AfterNow(period, r);
      }
      assert Latest(last, t) % period == 0;
      AllOnGrid(period, false, Latest(last, t), readings[1..]);
    }
  }

  /** Independent processes with the same period stay in phase with each other. */
  lemma InPhase(period: int, mine: seq<Reading>, yours: seq<Reading>, i: nat, j: nat)
    requires period > 0 && Monotone(mine) && Monotone(yours) && Fallback(period, mine) && Fallback(period, yours)
    requires i < |mine| && j < |yours|
    ensures (Targets(period, true, 0, mine)[i] - Targets(period, true, 0, yours)[j]) % period == 0
  {
    AllOnGrid(period, true, 0, mine);
    AllOnGrid(period, true, 0, yours);
    SumOfMultiples(Targets(period, true, 0, mine)[i], Targets(period, true, 0, yours)[j], period);
  }
}
