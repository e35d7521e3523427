/** The integer moving averages: frames per second of the AX206 driver, frame period of the MPro driver. */
module Ewma {
  import opened Words

  /** The weight of a sample: a shift by 3 in the AX206 driver, by 4 in the MPro driver. */
  datatype Weight = Eighth | Sixteenth

  function Part(k: Weight, a: nat): nat { if k == Eighth then a / 8 else a / 16 }

  function Parts(k: Weight): nat { if k == Eighth then 8 else 16 }

  /** The shifts round down. */
  lemma PartExact(k: Weight, a: nat)
    ensures 8 * Part(Eighth, a) <= a < 8 * Part(Eighth, a) + 8
    ensures 16 * Part(Sixteenth, a) <= a < 16 * Part(Sixteenth, a) + 16
    ensures Parts(k) * Part(k, a) <= a < Parts(k) * Part(k, a) + Parts(k)
  {}

  /** One sample; an average of zero counts as empty. */
  function Next(k: Weight, average: nat, sample: nat): int {
    if average == 0 then sample else average - Part(k, average) + Part(k, sample)
  }

  /** A value less its k-th part never falls when the value grows. */
  lemma KeepsOrder(k: Weight, a: nat, b: nat)
    requires a <= b
    ensures a - Part(k, a) <= b - Part(k, b) && Part(k, a) <= Part(k, b)
  {}

  /** The new average lies between any bounds of the old one and of the sample, so it never wraps. */
  lemma NextBetween(k: Weight, average: nat, sample: nat, lo: nat, hi: nat)
    requires lo <= sample <= hi && (average == 0 || lo <= average <= hi)
    ensures lo <= Next(k, average, sample) <= hi
  {
    if average != 0 {
      KeepsOrder(k, lo, average);
      KeepsOrder(k, average, hi);
      KeepsOrder(k, lo, sample);
      KeepsOrder(k, sample, hi);
    }
  }

  /** The average after a run of samples. */
  function Average(k: Weight, samples: seq<nat>): (r: int)
    ensures 0 <= r
  {
    if samples == [] then 0
    else
      var before := Average(k, samples[..|samples| - 1]);
      var sample := samples[|samples| - 1];
      NextBetween(k, before, sample, 0, before + sample);
      Next(k, before, sample)
  }

  ghost predicate AllBetween(samples: seq<nat>, lo: nat, hi: nat) {
    forall i :: 0 <= i < |samples| ==> lo <= samples[i] <= hi
  }

  /** Over any run the average stays between the smallest and the largest sample. */
  lemma {:induction false} RunBetween(k: Weight, samples: seq<nat>, lo: nat, hi: nat)
    requires AllBetween(samples, lo, hi)
    ensures samples != [] ==> lo <= Average(k, samples) <= hi
    decreases samples
  {
    if samples != [] {
      var front := samples[..|samples| - 1];
      assert AllBetween(front, lo, hi);
      RunBetween(k, front, lo, hi);
      NextBetween(k, Average(k, front), samples[|samples| - 1], lo, hi);
    }
  }

  /** A positive sample makes the average positive for good, so the restart at zero happens only at the start. */
  lemma {:induction false} ZeroMeansNoSample(k: Weight, samples: seq<nat>)
    ensures Average(k, samples) == 0 <==> AllBetween(samples, 0, 0)
    decreases samples
  {
    if samples != [] {
      var front, sample := samples[..|samples| - 1], samples[|samples| - 1];
      ZeroMeansNoSample(k, front);
      assert samples == front + [sample];
      if Average(k, front) != 0 {
        NextBetween(k, Average(k, front), sample, 0, Average(k, front) + sample);
        KeepsOrder(k, 1, Average(k, front));
      }
    }
  }

  // ---- A constant sample -----------------------------------------------------------------------------

  function Gap(a: int, b: int): nat { if a < b then b - a else a - b }

  lemma PartGap(k: Weight, a: nat, c: nat)
    requires c <= a
    ensures 0 <= Part(k, a) - Part(k, c) <= a - c
    ensures Parts(k) <= a - c ==> Part(k, c) < Part(k, a)
    ensures Part(k, c) == Part(k, a) ==> a - c < Parts(k)
  {}

  /** The distance to a constant sample never grows, and shrinks until average and sample share a k-th part. */
  lemma NextCloser(k: Weight, average: nat, c: nat)
    requires average != 0
    ensures 0 <= Next(k, average, c)
    ensures Part(k, average) == Part(k, c) ==> Next(k, average, c) == average
    ensures Part(k, average) != Part(k, c) ==> Gap(Next(k, average, c), c) < Gap(average, c)
    ensures Gap(average, c) >= Parts(k) ==> Part(k, average) != Part(k, c)
    ensures Part(k, average) == Part(k, c) ==> Gap(average, c) < Parts(k)
    ensures average < c ==> Next(k, average, c) <= c
    ensures average > c ==> Next(k, average, c) >= c
  {
    if c <= average {
      PartGap(k, average, c);
    } else {
      PartGap(k, c, average);
    }
    NextBetween(k, average, c, 0, average + c);
  }

  function Repeated(k: Weight, average: nat, c: nat, n: nat): (r: int)
    requires 0 < average
    ensures 0 < r
  {
    if n == 0 then average
    else
      var before := Repeated(k, average, c, n - 1);
      KeepsOrder(k, 1, before);
      Next(k, before, c)
  }

  /**
   With a constant sample c the average reaches the k values that share c's k-th part after at most as many
   samples as it was away from c, and does not move from then on.
   */
  lemma {:induction false} Settles(k: Weight, average: nat, c: nat, n: nat)
    requires 0 < average
    ensures Gap(Repeated(k, average, c, n), c) <= Gap(average, c)
    ensures Part(k, Repeated(k, average, c, n)) == Part(k, c) || Gap(Repeated(k, average, c, n), c) + n <= Gap(average, c)
    ensures n >= Gap(average, c) ==>
              Part(k, Repeated(k, average, c, n)) == Part(k, c) && Gap(Repeated(k, average, c, n), c) < Parts(k)
    decreases n
  {
    if n > 0 {
      Settles(k, average, c, n - 1);
      NextCloser(k, Repeated(k, average, c, n - 1), c);
    }
    var r := Repeated(k, average, c, n);
    NextCloser(k, r, c);
    if Gap(r, c) == 0 {
      assert r == c;
    }
  }

  lemma {:induction false} Rests(k: Weight, average: nat, c: nat, n: nat, m: nat)
    requires 0 < average && Gap(average, c) <= n <= m
    ensures Repeated(k, average, c, m) == Repeated(k, average, c, n)
    decreases m
  {
    if n < m {
      Rests(k, average, c, n, m - 1);
      Settles(k, average, c, m - 1);
      NextCloser(k, Repeated(k, average, c, m - 1), c);
    }
  }

  // ---- AX206 -----------------------------------------------------------------------------------------

  /** Milliframes per second for a frame that took delta nanoseconds, cut to 32 bits. */
  function FpsSample(delta: nat): (s: nat)
    requires 0 < delta
    ensures s < U32
  {
    1000 * 1_000_000_000 / delta % U32
  }

  /** As long as nothing is cut, the sample is the largest rate whose frames fill no more than 10^12 / 1000 seconds. */
  lemma FpsSampleExact(delta: nat)
    requires 0 < delta && 1_000_000_000_000 / delta < U32
    ensures FpsSample(delta) * delta <= 1_000_000_000_000 < (FpsSample(delta) + 1) * delta
  {
    var s := 1_000_000_000_000 / delta;
    assert FpsSample(delta) == s;
    assert 1_000_000_000_000 == s * delta + 1_000_000_000_000 % delta;
  }

  /** The samples that frames at these times give, when the last frame came at `last` or never (0). */
  function FpsSamples(times: seq<nat>): seq<nat>
    requires Rising(times)
  {
    if |times| < 2 then []
    else
      var front, delta := times[..|times| - 1], times[|times| - 1] - times[|times| - 2];
      FpsSamples(front) + FpsOf(delta)
  }

  /** Two frames in the same nanosecond give no sample. */
  function FpsOf(delta: nat): seq<nat> { if delta == 0 then [] else [FpsSample(delta)] }

  /** The clock does not run backwards and has left zero. */
  ghost predicate Rising(times: seq<nat>) {
    (forall i :: 0 <= i < |times| ==> 0 < times[i]) && (forall i, j :: 0 <= i < j < |times| ==> times[i] <= times[j])
  }

  lemma AverageSnoc(k: Weight, samples: seq<nat>, s: nat)
    ensures Average(k, samples + [s]) == Next(k, Average(k, samples), s)
  {
    assert (samples + [s])[..|samples|] == samples;
  }

  lemma {:induction false} FpsSamplesFit(times: seq<nat>)
    requires Rising(times)
    ensures AllBetween(FpsSamples(times), 0, U32 - 1)
    decreases times
  {
    if |times| >= 2 {
      FpsSamplesFit(times[..|times| - 1]);
    }
  }

  /** The last recorded time, 0 if there is none. */
  function LastOf(times: seq<nat>): nat { if times == [] then 0 else times[|times| - 1] }

  lemma RisingSnoc(times: seq<nat>, now: nat)
    requires Rising(times) && 0 < now && LastOf(times) <= now
    ensures Rising(times + [now]) && LastOf(times + [now]) == now
    ensures LastOf(times) == 0 <==> times == []
  {}

  lemma AverageAppend(k: Weight, samples: seq<nat>, more: seq<nat>)
    requires |more| <= 1
    ensures Average(k, samples + more) == if more == [] then Average(k, samples) else Next(k, Average(k, samples), more[0])
  {
    if more == [] {
      assert samples + more == samples;
    } else {
      assert more == [more[0]];
      AverageSnoc(k, samples, more[0]);
    }
  }

  lemma FpsSnoc(times: seq<nat>, now: nat)
    requires Rising(times) && 0 < now && LastOf(times) <= now && Rising(times + [now])
    ensures FpsSamples(times + [now]) == FpsSamples(times) + if times == [] then [] else FpsOf(now - LastOf(times))
  {
    var longer := times + [now];
    assert longer[..|longer| - 1] == times;
  }

  /** What one more frame does to the average. */
  lemma FpsAverage(times: seq<nat>, now: nat)
    requires Rising(times) && 0 < now && LastOf(times) <= now && Rising(times + [now])
    ensures Average(Eighth, FpsSamples(times + [now])) ==
            if times == [] || now == LastOf(times) then Average(Eighth, FpsSamples(times))
            else Next(Eighth, Average(Eighth, FpsSamples(times)), FpsSample(now - LastOf(times)))
  {
    FpsSnoc(times, now);
    if times == [] {
      AverageAppend(Eighth, FpsSamples(times), []);
    } else {
      AverageAppend(Eighth, FpsSamples(times), FpsOf(now - LastOf(times)));
    }
  }

  /** One update in 32-bit arithmetic, as both drivers write it. */
  method Blend(k: Weight, average: nat, sample: nat) returns (r: nat)
    requires average < U32 && sample < U32
    ensures r == Next(k, average, sample) < U32
  {
    NextBetween(k, average, sample, 0, U32 - 1);
    if average == 0 {
      r := sample;
    } else {
      r := (average - Part(k, average) + Part(k, sample)) % U32;
    }
  }

  class Ax206Stats {
    var received: nat
    var lastFrameTime: nat
    var fpsEwma: nat
    ghost var times: seq<nat>    // of the frames since the reset

    /** The field is the average of the samples that the frames gave. */
    ghost predicate Valid()
      reads this
    {
      && Rising(times)
      && lastFrameTime == LastOf(times)
      && fpsEwma == Average(Eighth, FpsSamples(times)) < U32
    }

    constructor ()
      ensures Valid() && times == [] && received == 0
    {
      received, lastFrameTime, fpsEwma, times := 0, 0, 0, [];
    }

    method Reset()
      modifies this
      ensures Valid() && times == [] && received == 0
    {
      received, lastFrameTime, fpsEwma, times := 0, 0, 0, [];
    }

    /** frame_received and _update_fps; the assignments are those of 32-bit arithmetic. */
    method FrameReceived(now: nat)
      requires Valid() && 0 < now && lastFrameTime <= now
      modifies this
      ensures Valid() && times == old(times) + [now] && received == old(received) + 1
    {
      received := received + 1;
      UpdateFps(now);
    }

    method UpdateFps(now: nat)
      requires Valid() && 0 < now && lastFrameTime <= now
      modifies this`lastFrameTime, this`fpsEwma, this`times
      ensures Valid() && times == old(times) + [now]
    {
      RisingSnoc(times, now);
      FpsAverage(times, now);
      times := times + [now];
      if lastFrameTime == 0 {
        lastFrameTime := now;
        return;
      }
      var delta := now - lastFrameTime;
      lastFrameTime := now;
      if delta == 0 {
        return;
      }
      var fpsNow := FpsSample(delta);
      fpsEwma := Blend(Eighth, fpsEwma, fpsNow);
    }
  }

  // ---- MPro ------------------------------------------------------------------------------------------

  function PeriodSample(delta: nat): nat { if delta < U32 then delta else U32 - 1 }

  /** The interval, or the largest u32 if it does not fit. */
  lemma PeriodSampleExact(delta: nat)
    ensures PeriodSample(delta) <= delta && PeriodSample(delta) <= 0xffff_ffff
    ensures PeriodSample(delta) == delta || PeriodSample(delta) == 0xffff_ffff
  {}

  /** One sample for every completed frame after the first. */
  function PeriodSamples(times: seq<nat>): seq<nat>
    requires Rising(times)
  {
    if |times| < 2 then []
    else PeriodSamples(times[..|times| - 1]) + [PeriodSample(times[|times| - 1] - times[|times| - 2])]
  }

  lemma PeriodSnoc(times: seq<nat>, now: nat)
    requires Rising(times) && 0 < now && LastOf(times) <= now && Rising(times + [now])
    ensures var before, after := Average(Sixteenth, PeriodSamples(times)), Average(Sixteenth, PeriodSamples(times + [now]));
            after == if times == [] then before else Next(Sixteenth, before, PeriodSample(now - LastOf(times)))
  {
    var longer := times + [now];
    assert longer[..|longer| - 1] == times;
    if times != [] {
      AverageSnoc(Sixteenth, PeriodSamples(times), PeriodSample(now - LastOf(times)));
    }
  }

  lemma PeriodAverage(times: seq<nat>, now: nat, average: nat) returns (longer: seq<nat>)
    requires Rising(times) && 0 < now && LastOf(times) <= now && average == Average(Sixteenth, PeriodSamples(times))
    ensures longer == times + [now] && Rising(longer) && LastOf(longer) == now
    ensures Average(Sixteenth, PeriodSamples(longer)) ==
            if LastOf(times) == 0 then average else Next(Sixteenth, average, PeriodSample(now - LastOf(times)))
  {
    longer := times + [now];
    RisingSnoc(times, now);
    PeriodSnoc(times, now);
  }

  class MproStats {
    var displayed: nat
    var lastFrameNs: nat
    var ewmaPeriodNs: nat
    ghost var times: seq<nat>

    ghost predicate Valid()
      reads this
    {
      && Rising(times)
      && lastFrameNs == LastOf(times)
      && ewmaPeriodNs == Average(Sixteenth, PeriodSamples(times)) < U32
    }

    constructor ()
      ensures Valid() && times == [] && displayed == 0
    {
      displayed, lastFrameNs, ewmaPeriodNs, times := 0, 0, 0, [];
    }

    /** The average after one more interval, if there is one. */
    method AddPeriod(prev: nat, now: nat)
      requires prev <= now && ewmaPeriodNs < U32
      modifies this`ewmaPeriodNs
      ensures ewmaPeriodNs < U32
      ensures ewmaPeriodNs ==
              if prev == 0 then old(ewmaPeriodNs) else Next(Sixteenth, old(ewmaPeriodNs), PeriodSample(now - prev))
    {
      if prev != 0 {
        var d := PeriodSample(now - prev);
        ewmaPeriodNs := Blend(Sixteenth, ewmaPeriodNs, d);
      }
    }

    /** The statistics part of mpro_bulk_complete, for a URB that succeeded. */
    method BulkComplete(now: nat)
      requires Valid() && 0 < now && lastFrameNs <= now
      modifies this
      ensures Valid() && times == old(times) + [now] && displayed == old(displayed) + 1
    {
      times := PeriodAverage(times, now, ewmaPeriodNs);
      var prev := lastFrameNs;
      lastFrameNs := now;
      displayed := displayed + 1;
      AddPeriod(prev, now);
    }
  }
}
