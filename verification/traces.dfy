/** Short runs of the firmware object from reset, driving its handlers in
    an order they can run in. */
module Traces {
  import opened Types
  import opened Debounce
  import Calibration
  import Scenarios
  import opened Firmware

  /** Reset, the start-up calibration on an untouched stick, then the first
      conversion with the stick still at rest: the first frame reports no
      button pressed and every axis at 0. */
  method StartupAtRest(rest: seq<u16>) returns (message: string)
    requires |rest| == CHANNEL_COUNT
    ensures message == "B:00000000,A:0,0,0,0\n"
  {
    var j := new Joystick();
    var samples := seq(Calibration.CALIB_SAMPLES, _ => rest);
    j.Calibrate(samples);
    Scenarios.SteadyStickReadsZero(samples, rest, j.adcOffset[..]);
    assert j.packetButtons[..] == [0, 0, 0, 0, 0, 0, 0, 0];
    j.ConversionComplete(rest);
    Scenarios.ZeroFrame(j.CurrentPacket());
    message := j.message;
  }

  /** Button `k` after `t` ticks of the press trace below. */
  ghost function PressState(k: nat, t: nat): Button {
    if k != 2 then Button(0, 0, 0)
    else if t == 0 then Button(1, 0, 0)
    else if t < DEBOUNCE_TICKS then Button(0, DEBOUNCE_TICKS - t, 0)
    else Button(0, 0, 1)
  }

  /** The pin levels of the press trace: only button 2 reads low. */
  const PRESS_LEVELS: seq<bool> := [true, true, false, true, true, true, true, true]

  lemma PressStep(k: nat, t: nat)
    requires k < BUTTON_COUNT && t < SAMPLE_PERIOD
    ensures !RepollDue(t + 1, 0) && SampleDue(t + 1) == (t + 1 == SAMPLE_PERIOD)
    ensures TickButton(PressState(k, t), PRESS_LEVELS[k], false) == PressState(k, t + 1)
  {
    assert Elapsed(t + 1, 0) == t + 1;
  }

  /** One tick of the press trace. */
  method PressTick(j: Joystick, t: nat) returns (requested: bool)
    requires j.Valid() && t < SAMPLE_PERIOD
    requires j.tick1kHz == t && j.lastCheckTick == 0
    requires forall k :: 0 <= k < BUTTON_COUNT ==> j.ButtonAt(k) == PressState(k, t)
    modifies j, j.keyExtiFlag, j.debounceCnt, j.keyStableState, j.packetButtons
    ensures j.Valid()
    ensures j.tick1kHz == t + 1 && j.lastCheckTick == 0
    ensures forall k :: 0 <= k < BUTTON_COUNT ==> j.ButtonAt(k) == PressState(k, t + 1)
    ensures requested == (t + 1 == SAMPLE_PERIOD)
    ensures j.packetButtons[..] == if requested then j.keyStableState[..] else old(j.packetButtons[..])
  {
    PressStep(0, t);
    requested := j.Tick(PRESS_LEVELS);
    forall k | 0 <= k < BUTTON_COUNT
      ensures j.ButtonAt(k) == PressState(k, t + 1)
    {
      PressStep(k, t);
    }
  }

  /** Reset followed by one edge interrupt on GPIO_PIN_3 (button 2). */
  method ResetAndPress() returns (j: Joystick)
    ensures fresh(j) && fresh(j.keyExtiFlag) && fresh(j.debounceCnt) && fresh(j.keyStableState) && fresh(j.packetButtons)
    ensures j.Valid()
    ensures j.tick1kHz == 0 && j.lastCheckTick == 0
    ensures forall k :: 0 <= k < BUTTON_COUNT ==> j.ButtonAt(k) == PressState(k, 0)
    ensures j.packetButtons[..] == [0, 0, 0, 0, 0, 0, 0, 0]
  {
    j := new Joystick();
    ButtonOfPinExact(0x0008, 2);
    ghost var flags := j.keyExtiFlag[..];
    forall k | 0 <= k < BUTTON_COUNT
      ensures flags[k] == 0 && j.debounceCnt[k] == 0 && j.keyStableState[k] == 0
    {
      assert j.ButtonAt(k) == Button(0, 0, 0);
    }
    j.ExtiCallback(0x0008);
    forall k | 0 <= k < BUTTON_COUNT
      ensures j.ButtonAt(k) == PressState(k, 0)
    {
      assert j.keyExtiFlag[k] == flags[2 := 1][k];
    }
  }

  /** Reset, one edge interrupt on GPIO_PIN_3 (button 2) whose pin then
      stays low, and twenty ticks: the debounce window of 15 ticks resolves
      the button to pressed, and the twentieth tick, which is the first to
      request a conversion, snaps it into the packet. */
  method PressButtonTwo() returns (buttons: seq<u8>, requested: bool)
    ensures buttons == [0, 0, 1, 0, 0, 0, 0, 0] && requested
  {
    var j := ResetAndPress();
    var t := 0;
    requested := false;
    while t < SAMPLE_PERIOD
      invariant 0 <= t <= SAMPLE_PERIOD
      invariant j.Valid()
      invariant j.tick1kHz == t && j.lastCheckTick == 0
      invariant forall k :: 0 <= k < BUTTON_COUNT ==> j.ButtonAt(k) == PressState(k, t)
      invariant t < SAMPLE_PERIOD ==> j.packetButtons[..] == [0, 0, 0, 0, 0, 0, 0, 0]
      invariant t == SAMPLE_PERIOD ==> j.packetButtons[..] == j.keyStableState[..]
      invariant requested == (t == SAMPLE_PERIOD)
      modifies j, j.keyExtiFlag, j.debounceCnt, j.keyStableState, j.packetButtons
    {
      requested := PressTick(j, t);
      t := t + 1;
    }
    forall k | 0 <= k < BUTTON_COUNT
      ensures j.keyStableState[k] == [0, 0, 1, 0, 0, 0, 0, 0][k]
    {
      assert j.keyStableState[k] == j.ButtonAt(k).stable;
    }
    buttons := j.packetButtons[..];
  }
}
