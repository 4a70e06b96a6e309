/** Presentation positions of the output stream. */
module FeedingDelay {
  import opened Arithmetic

  const MINIMUM_DELAY_MS := 50
  const MAXIMUM_DELAY_MS := 1000
  const EXTRA_AUDIO_SYNC_MS := 200

  /** What the port reports; `ok` says whether the call succeeded. */
  datatype Report = Report(ok: bool, delayNs: nat, absorbedBytes: nat)

  function DelayMs(framesCount: nat, sampleRate: nat, r: Report): nat
    requires sampleRate > 0
  {
    var reported := r.delayNs / 1000000;
    if r.ok && MINIMUM_DELAY_MS < reported < MAXIMUM_DELAY_MS then reported
    else framesCount * 1000 / sampleRate + EXTRA_AUDIO_SYNC_MS
  }

  function LatencyFrames(framesCount: nat, sampleRate: nat, r: Report): nat
    requires sampleRate > 0
  {
    DelayMs(framesCount, sampleRate, r) * sampleRate / 1000
  }

  /**
    The delay is the reported one in whole milliseconds, if that was reported
    and lies strictly between 50 and 1000; otherwise it is the playing time of
    the buffer plus 200.
   */
  lemma DelayIsReportedIff(framesCount: nat, sampleRate: nat, r: Report, ms: nat)
    requires sampleRate > 0 && 1000000 * ms <= r.delayNs < 1000000 * ms + 1000000
    ensures r.ok && 50 < ms < 1000 ==> DelayMs(framesCount, sampleRate, r) == ms
    ensures !(r.ok && 50 < ms < 1000) ==>
              var playing := DelayMs(framesCount, sampleRate, r) - 200;
              playing >= 0 && playing * sampleRate <= framesCount * 1000 < (playing + 1) * sampleRate
  {
    assert r.delayNs / 1000000 == ms;
    FloorBounds(framesCount * 1000, sampleRate);
  }

  /** The latency in frames is the delay at the sample rate, rounded down. */
  lemma LatencyIsDelay(framesCount: nat, sampleRate: nat, r: Report)
    requires sampleRate > 0
    ensures var frames := LatencyFrames(framesCount, sampleRate, r);
            frames * 1000 <= DelayMs(framesCount, sampleRate, r) * sampleRate < (frames + 1) * 1000
  {
    FloorBounds(DelayMs(framesCount, sampleRate, r) * sampleRate, 1000);
  }

  function Clamped(x: int): nat {
    if x > 0 then x else 0
  }

  /** A counter of the stack that is at most one latency behind the frames presented. */
  predicate Plausible(presented: nat, absorbed: nat, latency: nat) {
    presented - latency <= absorbed <= presented
  }

  function Believed(presented: nat, absorbed: nat, latency: nat): nat {
    if Plausible(presented, absorbed, latency) then absorbed else presented
  }

  /**
    out_calculate_feeding_delay_ms, with both outputs asked for.  Whatever the
    stack's counter says, the position is between one and two latencies behind
    the frames presented; it follows the counter exactly when that is plausible.
   */
  method Calculate(framesCount: nat, sampleRate: nat, frameSize: nat, presented: nat, r: Report)
    returns (latencyMs: nat, frames: nat)
    requires sampleRate > 0 && frameSize > 0
    ensures latencyMs == DelayMs(framesCount, sampleRate, r)
    ensures var latency := LatencyFrames(framesCount, sampleRate, r);
            && Clamped(presented - 2 * latency) <= frames <= Clamped(presented - latency)
            && var absorbed := r.absorbedBytes / frameSize;
            && (presented - latency <= absorbed <= presented ==> frames == if absorbed > latency then absorbed - latency else 0)
            && (!(presented - latency <= absorbed <= presented) ==>
                  frames == if presented > latency then presented - latency else 0)
            && frames == Clamped(Believed(presented, absorbed, latency) - latency)
  {
    var delayReportMs := 0;
    var timestampFetched := false;
    if r.ok {
      delayReportMs := r.delayNs / 1000000;
      if delayReportMs > MINIMUM_DELAY_MS && delayReportMs < MAXIMUM_DELAY_MS {
        timestampFetched := true;
      }
    }
    if !timestampFetched {
      delayReportMs := framesCount * 1000 / sampleRate + EXTRA_AUDIO_SYNC_MS;
    }
    latencyMs := delayReportMs;
    var latencyFrames := delayReportMs * sampleRate / 1000;
    frames := r.absorbedBytes / frameSize;
    if presented < frames {
      frames := presented;
    } else if presented - frames > latencyFrames {
      frames := presented;
    }
    if frames > latencyFrames {
      frames := frames - latencyFrames;
    } else {
      frames := 0;
    }
  }

  /** With the same latency, a later position is behind an earlier one by at most that latency. */
  lemma PositionFallsBackAtMost(presented: nat, absorbed: nat, more: nat, absorbed': nat, latency: nat)
    ensures var before := Clamped(Believed(presented, absorbed, latency) - latency);
            var after := Clamped(Believed(presented + more, absorbed', latency) - latency);
            && before - after <= Clamped(latency - more)
            && ((absorbed <= absorbed' && Plausible(presented, absorbed, latency) && Plausible(presented + more, absorbed', latency))
                ==> before <= after)
  {
  }
}
