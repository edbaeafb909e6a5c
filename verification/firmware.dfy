/** The firmware's shared state and its three interrupt handlers plus the
    start-up calibration, each handler taken as one atomic step. The C
    globals become the fields of one `Joystick` object; the fixed-size C
    arrays stay arrays. */
module Firmware {
  import opened Types
  import opened Debounce
  import opened Axis
  import Frame
  import Calibration

  class Joystick {
    // ---- the debounce tables, one slot per button ----
    const keyExtiFlag: array<u8>
    const keyStableState: array<u8>
    const debounceCnt: array<u16>

    // ---- the two `static uint32_t` counters of the tick handler ----
    var tick1kHz: u32
    var lastCheckTick: u32

    // ---- `gamepad_data`: button snapshot and axes ----
    const packetButtons: array<u8>
    var leftY: i16
    var leftX: i16
    var rightY: i16
    var rightX: i16

    // ---- calibration ----
    const adcOffset: array<u16>
    var calibCount: u8
    const calibSum: array<u32>

    /** The contents of the `message` buffer, without its NUL. */
    var message: string

    /** The debounce tables and the packet's button bytes: eight slots
        each, in distinct arrays, holding only well-formed values. */
    ghost predicate TablesValid()
      reads keyExtiFlag, keyStableState, debounceCnt, packetButtons
    {
      keyExtiFlag.Length == BUTTON_COUNT && keyStableState.Length == BUTTON_COUNT &&
      debounceCnt.Length == BUTTON_COUNT && packetButtons.Length == BUTTON_COUNT &&
      keyExtiFlag != keyStableState && keyExtiFlag != packetButtons && keyStableState != packetButtons &&
      (forall k :: 0 <= k < BUTTON_COUNT ==> WellFormed(ButtonAt(k))) &&
      (forall k :: 0 <= k < BUTTON_COUNT ==> IsBit(packetButtons[k]))
    }

    /** The arrays the tick handler writes. */
    ghost function TableRepr(): set<object>
    {
      {keyExtiFlag as object, keyStableState as object, debounceCnt as object, packetButtons as object}
    }

    ghost predicate Valid()
      reads this, keyExtiFlag, keyStableState, debounceCnt, packetButtons, adcOffset, calibSum
    {
      TablesValid() &&
      adcOffset.Length == CHANNEL_COUNT && calibSum.Length == CHANNEL_COUNT &&
      adcOffset !in TableRepr() && calibSum !in TableRepr() &&
      Elapsed(tick1kHz, lastCheckTick) < REPOLL_PERIOD &&
      |message| < Frame.MESSAGE_SIZE
    }

    /** Button `k`'s slot across the three debounce tables. */
    ghost function ButtonAt(k: int): Button
      reads keyExtiFlag, debounceCnt, keyStableState
      requires 0 <= k < keyExtiFlag.Length && k < debounceCnt.Length && k < keyStableState.Length
    {
      Button(keyExtiFlag[k], debounceCnt[k], keyStableState[k])
    }

    /** The packet as `sprintf` sees it. */
    function CurrentPacket(): Frame.Packet
      reads this, packetButtons
    {
      Frame.Packet(packetButtons[..], Axes(leftY, leftX, rightY, rightX))
    }

    /** The zero-initialised globals at reset. */
    constructor ()
      ensures Valid()
      ensures forall k :: 0 <= k < BUTTON_COUNT ==> ButtonAt(k) == Button(0, 0, 0) && packetButtons[k] == 0
      ensures tick1kHz == 0 && lastCheckTick == 0 && calibCount == 0
      ensures leftY == 0 && leftX == 0 && rightY == 0 && rightX == 0 && message == ""
      ensures adcOffset[..] == [0, 0, 0, 0] && calibSum[..] == [0, 0, 0, 0]
      ensures fresh(keyExtiFlag) && fresh(keyStableState) && fresh(debounceCnt)
      ensures fresh(packetButtons) && fresh(adcOffset) && fresh(calibSum)
    {
      keyExtiFlag := new u8[BUTTON_COUNT](_ => 0);
      keyStableState := new u8[BUTTON_COUNT](_ => 0);
      debounceCnt := new u16[BUTTON_COUNT](_ => 0);
      packetButtons := new u8[BUTTON_COUNT](_ => 0);
      adcOffset := new u16[CHANNEL_COUNT](_ => 0);
      calibSum := new u32[CHANNEL_COUNT](_ => 0);
      tick1kHz, lastCheckTick, calibCount := 0, 0, 0;
      leftY, leftX, rightY, rightX := 0, 0, 0, 0;
      message := "";
    }

    /** `HAL_GPIO_EXTI_Callback`: an edge on `pin` sets the pending flag of
        the button on that pin and touches nothing else; an edge on a pin no
        button uses changes nothing. */
    method ExtiCallback(pin: u16)
      requires Valid()
      modifies keyExtiFlag
      ensures Valid()
      ensures keyExtiFlag[..] == match ButtonOfPin(pin)
                                 case Some(i) => old(keyExtiFlag[..])[i := 1]
                                 case None => old(keyExtiFlag[..])
    {
      var i := 0;
      while i < BUTTON_COUNT
        invariant 0 <= i <= BUTTON_COUNT
        invariant ButtonOfPin(pin) == FindPin(pin, i)
        invariant keyExtiFlag[..] == old(keyExtiFlag[..])
      {
        if pin == BUTTON_PINS[i] {
          keyExtiFlag[i] := 1;
          break;
        }
        i := i + 1;
      }
      forall k | 0 <= k < BUTTON_COUNT
        ensures WellFormed(ButtonAt(k))
      {
        assert WellFormed(old(ButtonAt(k)));
      }
    }

    /** The TIM3 branch of `HAL_TIM_PeriodElapsedCallback`, with `high[k]`
        the level `HAL_GPIO_ReadPin` reports for button `k` during this tick.
        Returns whether the tick starts an ADC conversion. */
    method Tick(high: seq<bool>) returns (convRequested: bool)
      requires Valid() && |high| == BUTTON_COUNT
      modifies `tick1kHz, `lastCheckTick, keyExtiFlag, debounceCnt, keyStableState, packetButtons
      ensures Valid()
      ensures tick1kHz == Next(old(tick1kHz))
      ensures lastCheckTick == if RepollDue(tick1kHz, old(lastCheckTick)) then tick1kHz else old(lastCheckTick)
      ensures forall k :: 0 <= k < BUTTON_COUNT ==>
                ButtonAt(k) == TickButton(old(ButtonAt(k)), high[k], RepollDue(tick1kHz, old(lastCheckTick)))
      ensures convRequested == SampleDue(tick1kHz)
      ensures packetButtons[..] == if convRequested then keyStableState[..] else old(packetButtons[..])
    {
      RepollCadence(tick1kHz, lastCheckTick);
      tick1kHz := Next(tick1kHz);
      DebounceButtons(high);
      if RepollDue(tick1kHz, lastCheckTick) {
        lastCheckTick := tick1kHz;
        RepollButtons(high);
      }
      convRequested := SampleDue(tick1kHz);
      if convRequested {
        SnapshotButtons();
      }
    }

    /** The per-button debounce loop of the tick handler. */
    method DebounceButtons(high: seq<bool>)
      requires TablesValid() && |high| == BUTTON_COUNT
      modifies keyExtiFlag, debounceCnt, keyStableState
      ensures TablesValid()
      ensures forall k :: 0 <= k < BUTTON_COUNT ==> ButtonAt(k) == DebounceButton(old(ButtonAt(k)), high[k])
    {
      var i := 0;
      while i < BUTTON_COUNT
        invariant 0 <= i <= BUTTON_COUNT
        invariant forall k :: 0 <= k < i ==> ButtonAt(k) == DebounceButton(old(ButtonAt(k)), high[k])
        invariant forall k :: i <= k < BUTTON_COUNT ==> ButtonAt(k) == old(ButtonAt(k))
      {
        if keyExtiFlag[i] != 0 {
          keyExtiFlag[i] := 0;
          debounceCnt[i] := DEBOUNCE_TICKS;
        }
        if debounceCnt[i] != 0 {
          debounceCnt[i] := debounceCnt[i] - 1;
          if debounceCnt[i] == 0 {
            keyStableState[i] := if !high[i] then 1 else 0;
          }
        }
        i := i + 1;
      }
      forall k | 0 <= k < BUTTON_COUNT
        ensures WellFormed(ButtonAt(k))
      {
        assert WellFormed(old(ButtonAt(k)));
      }
    }

    /** The anti-stuck re-poll loop of the tick handler. */
    method RepollButtons(high: seq<bool>)
      requires TablesValid() && |high| == BUTTON_COUNT
      modifies keyStableState
      ensures TablesValid()
      ensures forall k :: 0 <= k < BUTTON_COUNT ==> ButtonAt(k) == Repoll(old(ButtonAt(k)), high[k])
    {
      var i := 0;
      while i < BUTTON_COUNT
        invariant 0 <= i <= BUTTON_COUNT
        invariant forall k :: 0 <= k < i ==> ButtonAt(k) == Repoll(old(ButtonAt(k)), high[k])
        invariant forall k :: i <= k < BUTTON_COUNT ==> ButtonAt(k) == old(ButtonAt(k))
      {
        var current: u8 := if !high[i] then 1 else 0;
        if current != keyStableState[i] && debounceCnt[i] == 0 {
          keyStableState[i] := current;
        }
        i := i + 1;
      }
      forall k | 0 <= k < BUTTON_COUNT
        ensures WellFormed(ButtonAt(k))
      {
        assert WellFormed(old(ButtonAt(k)));
      }
    }

    /** The packet snapshot loop of the tick handler. */
    method SnapshotButtons()
      requires TablesValid()
      modifies packetButtons
      ensures TablesValid()
      ensures packetButtons[..] == keyStableState[..]
    {
      var i := 0;
      while i < BUTTON_COUNT
        invariant 0 <= i <= BUTTON_COUNT
        invariant forall k :: 0 <= k < i ==> packetButtons[k] == keyStableState[k]
      {
        packetButtons[i] := keyStableState[i];
        i := i + 1;
      }
      forall k | 0 <= k < BUTTON_COUNT
        ensures IsBit(packetButtons[k])
      {
        assert WellFormed(ButtonAt(k));
      }
    }

    /** `HAL_ADC_ConvCpltCallback`, with `values` the four raw samples the
        conversion delivered: scale, map and dead-zone the axes into the
        packet, then render the frame into `message`. The frame reads back
        as the packet, and fits the buffer. */
    method ConversionComplete(values: seq<u16>)
      requires Valid() && |values| == CHANNEL_COUNT
      modifies `leftY, `leftX, `rightY, `rightX, `message
      ensures Valid()
      ensures Axes(leftY, leftX, rightY, rightX) == ConvertAxes(values, adcOffset[..])
      ensures message == Frame.Render(CurrentPacket())
      ensures Frame.ParseFrame(message) == Some(CurrentPacket())
    {
      var a := ConvertAxes(values, adcOffset[..]);
      leftY, leftX, rightY, rightX := a.leftY, a.leftX, a.rightY, a.rightX;
      Frame.RenderFitsBuffer(CurrentPacket());
      Frame.RenderParses(CurrentPacket());
      message := Frame.Render(CurrentPacket());
    }

    /** `ADC_Calibration`, with `samples` the twenty four-channel readings the
        blocking conversions deliver: accumulate per-channel sums in uint32_t,
        count the samples in uint8_t, and store each channel's mean as its
        offset. */
    method Calibrate(samples: seq<seq<u16>>)
      requires Valid()
      requires |samples| == Calibration.CALIB_SAMPLES && Calibration.WellFormedSamples(samples)
      modifies calibSum, `calibCount, adcOffset
      ensures Valid()
      ensures calibCount == Calibration.CALIB_SAMPLES
      ensures forall ch :: 0 <= ch < CHANNEL_COUNT ==>
                calibSum[ch] == Calibration.ChannelSum(samples, Calibration.CALIB_SAMPLES, ch) &&
                adcOffset[ch] == Calibration.Mean(samples, ch)
    {
      forall ch | 0 <= ch < CHANNEL_COUNT {
        calibSum[ch] := 0;
      }
      calibCount := 0;

      var i := 0;
      while i < Calibration.CALIB_SAMPLES
        invariant 0 <= i <= Calibration.CALIB_SAMPLES && calibCount == i
        modifies calibSum, `calibCount
        invariant forall ch :: 0 <= ch < CHANNEL_COUNT ==> calibSum[ch] == Calibration.ChannelSum(samples, i, ch)
      {
        var ch := 0;
        while ch < CHANNEL_COUNT
          invariant 0 <= ch <= CHANNEL_COUNT
          modifies calibSum
          invariant forall c :: 0 <= c < ch ==> calibSum[c] == Calibration.ChannelSum(samples, i + 1, c)
          invariant forall c :: ch <= c < CHANNEL_COUNT ==> calibSum[c] == Calibration.ChannelSum(samples, i, c)
        {
          Calibration.AccumulateStep(samples, i, ch);
          calibSum[ch] := (calibSum[ch] + samples[i][ch]) % U32_MODULUS;
          ch := ch + 1;
        }
        calibCount := (calibCount + 1) % 0x100;
        i := i + 1;
      }

      var ch := 0;
      while ch < CHANNEL_COUNT
        invariant 0 <= ch <= CHANNEL_COUNT
        modifies adcOffset
        invariant forall c :: 0 <= c < ch ==> adcOffset[c] == Calibration.Mean(samples, c)
        invariant forall c :: 0 <= c < CHANNEL_COUNT ==>
                    calibSum[c] == Calibration.ChannelSum(samples, Calibration.CALIB_SAMPLES, c)
      {
        Calibration.StoreMean(samples, ch);
        adcOffset[ch] := (calibSum[ch] / calibCount) % 0x1_0000;
        ch := ch + 1;
      }
    }
  }
}
