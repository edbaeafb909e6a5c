/** The arithmetic of the start-up zero-offset calibration: per-channel sums
    of the calibration samples and their integer mean. */
module Calibration {
  import opened Types

  /** The number of four-channel samples the calibration takes. */
  const CALIB_SAMPLES: nat := 20

  /** Every sample holds one reading per channel. */
  predicate WellFormedSamples(samples: seq<seq<u16>>) {
    forall i :: 0 <= i < |samples| ==> |samples[i]| == CHANNEL_COUNT
  }

  /** The sum of channel `ch` over the first `n` samples; it never exceeds
      n readings of the largest uint16_t value. */
  function ChannelSum(samples: seq<seq<u16>>, n: nat, ch: nat): (s: nat)
    requires WellFormedSamples(samples) && n <= |samples| && ch < CHANNEL_COUNT
    ensures s <= n * 0xFFFF
  {
    if n == 0 then 0 else ChannelSum(samples, n - 1, ch) + samples[n - 1][ch]
  }

  /** The calibrated offset of channel `ch`: the sum over all samples divided
      (unsigned, rounding down) by their count. */
  function Mean(samples: seq<seq<u16>>, ch: nat): (m: u16)
    requires WellFormedSamples(samples) && |samples| > 0 && ch < CHANNEL_COUNT
    ensures m * |samples| <= ChannelSum(samples, |samples|, ch) < (m + 1) * |samples|
  {
    var n := |samples|;
    var s := ChannelSum(samples, n, ch);
    DivBounds(s, n, 0, 0xFFFF);
    s / n
  }

  /** A sum of `n` readings that all lie in [lo, hi] lies in [n*lo, n*hi]. */
  lemma {:induction false} SumBounds(samples: seq<seq<u16>>, n: nat, ch: nat, lo: int, hi: int)
    requires WellFormedSamples(samples) && n <= |samples| && ch < CHANNEL_COUNT
    requires forall i :: 0 <= i < n ==> lo <= samples[i][ch] <= hi
    ensures n * lo <= ChannelSum(samples, n, ch) <= n * hi
  {
    if n > 0 {
      SumBounds(samples, n - 1, ch, lo, hi);
      assert n * lo == (n - 1) * lo + lo && n * hi == (n - 1) * hi + hi;
    }
  }

  /** Rounding-down division of a value between n*lo and n*hi lands between
      lo and hi, and satisfies the defining bounds of floor division. */
  lemma DivBounds(s: nat, n: nat, lo: int, hi: int)
    requires n > 0 && n * lo <= s <= n * hi
    ensures lo <= s / n <= hi
    ensures (s / n) * n <= s < (s / n + 1) * n
  {
    var q := s / n;
    assert s == q * n + s % n;
    if q < lo {
      MulMonotone(q, lo - 1, n);
      assert false;
    }
    if q > hi {
      MulMonotone(hi + 1, q, n);
      assert false;
    }
  }

  lemma MulMonotone(a: int, b: int, n: nat)
    requires a <= b
    ensures a * n <= b * n
  {
  }

  /** Each offset lies between the smallest and the largest reading of its
      channel, so it is a genuine centre reading and fits uint16_t. */
  lemma MeanWithinSamples(samples: seq<seq<u16>>, ch: nat, lo: int, hi: int)
    requires WellFormedSamples(samples) && |samples| > 0 && ch < CHANNEL_COUNT
    requires forall i :: 0 <= i < |samples| ==> lo <= samples[i][ch] <= hi
    ensures lo <= Mean(samples, ch) <= hi
  {
    SumBounds(samples, |samples|, ch, lo, hi);
    DivBounds(ChannelSum(samples, |samples|, ch), |samples|, lo, hi);
  }

  /** A stick that does not move during calibration yields exactly the
      reading it rests at. */
  lemma SteadyStickCalibratesToReading(samples: seq<seq<u16>>, ch: nat, c: u16)
    requires WellFormedSamples(samples) && |samples| > 0 && ch < CHANNEL_COUNT
    requires forall i :: 0 <= i < |samples| ==> samples[i][ch] == c
    ensures Mean(samples, ch) == c
  {
    MeanWithinSamples(samples, ch, c, c);
  }

  /** One accumulation step of the calibration loop: adding the next reading
      to the uint32_t sum never wraps within twenty samples. */
  lemma AccumulateStep(samples: seq<seq<u16>>, i: nat, ch: nat)
    requires WellFormedSamples(samples) && i < |samples| == CALIB_SAMPLES && ch < CHANNEL_COUNT
    ensures (ChannelSum(samples, i, ch) + samples[i][ch]) % U32_MODULUS == ChannelSum(samples, i + 1, ch)
  {
    var s := ChannelSum(samples, i + 1, ch);
    assert s <= (i + 1) * 0xFFFF <= CALIB_SAMPLES * 0xFFFF;
  }

  /** The stored offset: the uint32_t sum divided by the sample count and
      narrowed to uint16_t, which never truncates. */
  lemma StoreMean(samples: seq<seq<u16>>, ch: nat)
    requires WellFormedSamples(samples) && |samples| == CALIB_SAMPLES && ch < CHANNEL_COUNT
    ensures (ChannelSum(samples, CALIB_SAMPLES, ch) / CALIB_SAMPLES) % 0x1_0000 == Mean(samples, ch)
  {
    var m := Mean(samples, ch);
    assert ChannelSum(samples, CALIB_SAMPLES, ch) / CALIB_SAMPLES == m;
  }

  /** Twenty uint16_t readings cannot overflow the uint32_t accumulator. */
  lemma SumFits32(samples: seq<seq<u16>>, ch: nat)
    requires WellFormedSamples(samples) && |samples| == CALIB_SAMPLES && ch < CHANNEL_COUNT
    ensures ChannelSum(samples, CALIB_SAMPLES, ch) < U32_MODULUS
  {
  }
}
