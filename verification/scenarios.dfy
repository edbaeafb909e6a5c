/** Properties that span calibration, scaling and rendering: what the
    pipeline produces end to end for a stick at rest and for a pressed
    button with a deflected stick. */
module Scenarios {
  import opened Types
  import opened Axis
  import opened Frame
  import Calibration

  /** Calibrating on an untouched stick and then reading it at rest gives 0
      on every axis, however often it is recalibrated. The readings may be
      noisy: for each channel the calibration readings and the later
      reading lie within one band `[lo, hi]` no wider than `NOISE_BAND`.
      `offsets` are the per-channel means that the calibration stores. */
  lemma UntouchedStickReadsZero(samples: seq<seq<u16>>, rest: seq<u16>, offsets: seq<u16>, lo: seq<int>, hi: seq<int>)
    requires Calibration.WellFormedSamples(samples) && |samples| > 0
    requires |rest| == CHANNEL_COUNT && |offsets| == CHANNEL_COUNT
    requires |lo| == CHANNEL_COUNT && |hi| == CHANNEL_COUNT
    requires forall ch :: 0 <= ch < CHANNEL_COUNT ==> hi[ch] - lo[ch] <= NOISE_BAND && lo[ch] <= rest[ch] <= hi[ch]
    requires forall i, ch :: 0 <= i < |samples| && 0 <= ch < CHANNEL_COUNT ==> lo[ch] <= samples[i][ch] <= hi[ch]
    requires forall ch :: 0 <= ch < CHANNEL_COUNT ==> offsets[ch] == Calibration.Mean(samples, ch)
    ensures ConvertAxes(rest, offsets) == Axes(0, 0, 0, 0)
  {
    forall ch | 0 <= ch < CHANNEL_COUNT
      ensures DeadZone(Centred(rest[ch], offsets[ch])) == 0 && DeadZone(-Centred(rest[ch], offsets[ch])) == 0
    {
      Calibration.MeanWithinSamples(samples, ch, lo[ch], hi[ch]);
      NoiseReadsZero(rest[ch], offsets[ch]);
    }
  }

  /** The noiseless case: every reading, during and after calibration,
      is exactly `rest`. */
  lemma SteadyStickReadsZero(samples: seq<seq<u16>>, rest: seq<u16>, offsets: seq<u16>)
    requires Calibration.WellFormedSamples(samples) && |samples| > 0
    requires |rest| == CHANNEL_COUNT && |offsets| == CHANNEL_COUNT
    requires forall i :: 0 <= i < |samples| ==> samples[i] == rest
    requires forall ch :: 0 <= ch < CHANNEL_COUNT ==> offsets[ch] == Calibration.Mean(samples, ch)
    ensures ConvertAxes(rest, offsets) == Axes(0, 0, 0, 0)
  {
    var bounds: seq<int> := rest;
    UntouchedStickReadsZero(samples, rest, offsets, bounds, bounds);
  }

  /** A rendered line from its already rendered fields. */
  lemma RenderFields(p: Packet, bd: string, i0: string, i1: string, i2: string, i3: string)
    requires forall i :: 0 <= i < |p.buttons| ==> p.buttons[i] >= 0
    requires ButtonDigits(p.buttons) == bd
    requires IntToString(p.axes.leftY) == i0 && IntToString(p.axes.leftX) == i1
    requires IntToString(p.axes.rightY) == i2 && IntToString(p.axes.rightX) == i3
    ensures Render(p) == "B:" + bd + ",A:" + i0 + "," + i1 + "," + i2 + "," + i3 + "\n"
  {
  }

  lemma JoinLiterals()
    ensures "B:" + "00000000" + ",A:" + "0" + "," + "0" + "," + "0" + "," + "0" + "\n" == "B:00000000,A:0,0,0,0\n"
    ensures "B:" + "00100000" + ",A:" + "0" + "," + "0" + "," + "-24" + "," + "0" + "\n" == "B:00100000,A:0,0,-24,0\n"
  {
  }

  lemma RenderNoButtons()
    ensures ButtonDigits([0, 0, 0, 0, 0, 0, 0, 0]) == "00000000"
  {
    var bs: seq<u8> := [0, 0, 0, 0, 0, 0, 0, 0];
    ButtonDigitsOfDigits(bs);
    assert DigitChar(0) == '0';
    var d := ButtonDigits(bs);
    assert forall i :: 0 <= i < 8 ==> d[i] == "00000000"[i];
  }

  /** No button pressed and a centred stick. */
  lemma ZeroFrame(p: Packet)
    requires p == Packet([0, 0, 0, 0, 0, 0, 0, 0], Axes(0, 0, 0, 0))
    ensures Render(p) == "B:00000000,A:0,0,0,0\n"
  {
    RenderTwentyFour();
    RenderNoButtons();
    RenderFields(p, "00000000", "0", "0", "0", "0");
    assert "B:" + "00000000" + ",A:" + "0" + "," + "0" + "," + "0" + "," + "0" + "\n" == "B:00000000,A:0,0,0,0\n" by {
      JoinLiterals();
    }
  }

  /** All four channels at their centre of 2048 and all buttons released. */
  lemma RestingFrame(p: Packet)
    requires p == Packet([0, 0, 0, 0, 0, 0, 0, 0], ConvertAxes([2048, 2048, 2048, 2048], [2048, 2048, 2048, 2048]))
    ensures Render(p) == "B:00000000,A:0,0,0,0\n"
  {
    CentreReadsZero([2048, 2048, 2048, 2048], [2048, 2048, 2048, 2048]);
    ZeroFrame(p);
  }

  /** Channel 0 reading 500 above its offset: channel 0 is the right
      stick's Y axis with its sign inverted, so -trunc(500 * 100 / 2048) = -24
      is the only axis outside the dead zone. */
  lemma DeflectedRightStick()
    ensures ConvertAxes([2548, 2048, 2048, 2048], [2048, 2048, 2048, 2048]) == Axes(0, 0, -24, 0)
  {
    assert TruncDiv(500 * SCALE_NUM, SCALE_DEN) == 24;
    assert Centred(2548, 2048) == 24;
    assert DeadZone(-24) == -24;
  }

  lemma RenderTwentyFour()
    ensures IntToString(-24) == "-24" && IntToString(0) == "0"
  {
    assert DigitChar(0) == '0' && DigitChar(2) == '2' && DigitChar(4) == '4';
    assert NatToString(24) == NatToString(2) + [DigitChar(4)];
  }

  lemma RenderButtonTwo()
    ensures ButtonDigits([0, 0, 1, 0, 0, 0, 0, 0]) == "00100000"
  {
    var bs: seq<u8> := [0, 0, 1, 0, 0, 0, 0, 0];
    ButtonDigitsOfDigits(bs);
    assert DigitChar(0) == '0' && DigitChar(1) == '1';
    var d := ButtonDigits(bs);
    assert forall i :: 0 <= i < 8 ==> d[i] == "00100000"[i];
  }

  /** Button 2 pressed (third digit) and the deflected right stick. */
  lemma PressedButtonFrame(p: Packet)
    requires p == Packet([0, 0, 1, 0, 0, 0, 0, 0], Axes(0, 0, -24, 0))
    ensures Render(p) == "B:00100000,A:0,0,-24,0\n"
  {
    RenderTwentyFour();
    RenderButtonTwo();
    RenderFields(p, "00100000", "0", "0", "-24", "0");
    assert "B:" + "00100000" + ",A:" + "0" + "," + "0" + "," + "-24" + "," + "0" + "\n" == "B:00100000,A:0,0,-24,0\n" by {
      JoinLiterals();
    }
  }
}
