/** The debounce engine of the 1 kHz tick, one button at a time, and the
    pin-to-button lookup of the edge interrupt. The class in firmware.dfy runs
    these per-button steps over its tables; the lemmas here say what a run of
    ticks does to one button. */
module Debounce {
  import opened Types

  /** A pending edge re-arms the counter to this many ticks (15 ms). */
  const DEBOUNCE_TICKS: nat := 15

  /** The anti-stuck re-poll runs once this many ticks have elapsed (100 ms). */
  const REPOLL_PERIOD: nat := 100

  /** Buttons are snapped into the packet and a conversion started on every
      tick divisible by this (20 ms, 50 Hz). */
  const SAMPLE_PERIOD: nat := 20

  /** One button's slot in the parallel tables `key_exti_flag`,
      `debounce_cnt` and `key_stable_state`. */
  datatype Button = Button(flag: u8, cnt: u16, stable: u8)

  /** The invariant the firmware keeps for every slot: flag and state are
      0 or 1, and the counter never exceeds the window. */
  predicate WellFormed(b: Button) {
    IsBit(b.flag) && IsBit(b.stable) && b.cnt <= DEBOUNCE_TICKS
  }

  /** Active low: an electrically low pin reads as pressed (1). */
  function PressedLevel(high: bool): (s: u8)
    ensures IsBit(s)
    ensures s == 1 <==> !high
  {
    if high then 0 else 1
  }

  /** The body of the debounce loop for one button: a pending flag is cleared
      and re-arms the counter; a running counter is decremented, and when it
      reaches zero the pin is read into the stable state. */
  function DebounceButton(b: Button, high: bool): (r: Button)
    ensures r.flag == 0
    ensures b.flag != 0 ==> r.cnt == DEBOUNCE_TICKS - 1
    ensures b.flag == 0 ==> r.cnt == if b.cnt > 0 then b.cnt - 1 else 0
    ensures r.stable == if b.flag == 0 && b.cnt == 1 then PressedLevel(high) else b.stable
  {
    var armed: u16 := if b.flag != 0 then DEBOUNCE_TICKS else b.cnt;
    var cnt: u16 := if armed != 0 then armed - 1 else armed;
    var stable := if armed != 0 && cnt == 0 then PressedLevel(high) else b.stable;
    Button(0, cnt, stable)
  }

  /** The anti-stuck re-poll for one button: a button that is not
      mid-debounce is forced to the level its pin reads. */
  function Repoll(b: Button, high: bool): (r: Button)
    ensures r.flag == b.flag && r.cnt == b.cnt
    ensures b.cnt != 0 ==> r.stable == b.stable
    ensures b.cnt == 0 ==> r.stable == PressedLevel(high)
  {
    var current := PressedLevel(high);
    if current != b.stable && b.cnt == 0 then b.(stable := current) else b
  }

  /** What one tick does to one button: the debounce step, then the re-poll
      when the tick handler decided to run it. */
  function TickButton(b: Button, high: bool, poll: bool): (r: Button)
    ensures WellFormed(b) ==> WellFormed(r)
    ensures r.flag == 0
    ensures b.flag != 0 ==> r.cnt == DEBOUNCE_TICKS - 1 && r.stable == b.stable
    ensures r.stable != b.stable ==>
              r.stable == PressedLevel(high) &&
              ((b.flag == 0 && b.cnt == 1) || (poll && r.cnt == 0))
  {
    var d := DebounceButton(b, high);
    if poll then Repoll(d, high) else d
  }

  /** What an edge interrupt does to a button between two ticks (any number
      of edges leave the same single pending flag). */
  function Arm(b: Button, edge: bool): (r: Button)
    ensures r.cnt == b.cnt && r.stable == b.stable
    ensures r.flag == if edge then 1 else b.flag
  {
    if edge then b.(flag := 1) else b
  }

  /** The inputs one button sees at one tick: whether an edge interrupt came
      in since the previous tick, the pin level, and whether the re-poll runs. */
  datatype TickInput = TickInput(edge: bool, high: bool, poll: bool)

  /** A button after a run of ticks. */
  function Run(b: Button, ins: seq<TickInput>): Button
    decreases |ins|
  {
    if ins == [] then b
    else Run(TickButton(Arm(b, ins[0].edge), ins[0].high, ins[0].poll), ins[1..])
  }

  /** How many more ticks, without further edges, before the stable state is
      resolved (0 when the button is idle). */
  function Window(b: Button): nat {
    if b.flag != 0 then DEBOUNCE_TICKS else b.cnt
  }

  lemma {:induction false} RunAppend(b: Button, xs: seq<TickInput>, ys: seq<TickInput>)
    ensures Run(b, xs + ys) == Run(Run(b, xs), ys)
    decreases |xs|
  {
    if xs == [] {
      assert xs + ys == ys;
    } else {
      assert (xs + ys)[1..] == xs[1..] + ys;
      RunAppend(TickButton(Arm(b, xs[0].edge), xs[0].high, xs[0].poll), xs[1..], ys);
    }
  }

  /** While a debounce window is open, nothing the pin does (bouncing) and no
      re-poll changes the stable state, and further edges only extend the
      window (re-triggerable debounce). */
  lemma {:induction false} BounceWithinWindowHolds(b: Button, ins: seq<TickInput>)
    requires b.cnt <= DEBOUNCE_TICKS
    requires |ins| < Window(b)
    ensures Run(b, ins).stable == b.stable
    ensures Run(b, ins).cnt <= DEBOUNCE_TICKS
    ensures Window(Run(b, ins)) >= Window(b) - |ins|
    decreases |ins|
  {
    if ins != [] {
      var a := Arm(b, ins[0].edge);
      var t := TickButton(a, ins[0].high, ins[0].poll);
      assert Window(a) >= Window(b);
      assert t.cnt == Window(a) - 1 && t.stable == b.stable;
      BounceWithinWindowHolds(t, ins[1..]);
    }
  }

  /** A window that runs out on a quiet, steady pin leaves the button idle
      with its stable state equal to the pin's level. */
  lemma {:induction false} QuietWindowResolves(b: Button, ins: seq<TickInput>, high: bool)
    requires Window(b) >= 1 && |ins| == Window(b)
    requires forall t :: 0 <= t < |ins| ==> !ins[t].edge && ins[t].high == high
    ensures Run(b, ins) == Button(0, 0, PressedLevel(high))
    decreases |ins|
  {
    var t := TickButton(Arm(b, false), high, ins[0].poll);
    assert Run(b, ins) == Run(t, ins[1..]);
    if |ins| > 1 {
      QuietWindowResolves(t, ins[1..], high);
    }
  }

  /** An idle button whose state matches its steady pin stays as it is:
      no further flip without a new edge. */
  lemma {:induction false} SettledStays(b: Button, ins: seq<TickInput>, high: bool)
    requires b == Button(0, 0, PressedLevel(high))
    requires forall t :: 0 <= t < |ins| ==> !ins[t].edge && ins[t].high == high
    ensures Run(b, ins) == b
    decreases |ins|
  {
    if ins != [] {
      assert TickButton(Arm(b, false), high, ins[0].poll) == b;
      SettledStays(b, ins[1..], high);
    }
  }

  /** A single clean edge on an idle button followed by a steady pin: the
      stable state does not move during the 15-tick window, then takes the
      pin's level, and keeps it for every later quiet tick. */
  lemma CleanEdgeFlipsOnce(b: Button, ins: seq<TickInput>, high: bool)
    requires b.flag == 0 && b.cnt == 0
    requires |ins| >= DEBOUNCE_TICKS && ins[0].edge
    requires forall t :: 0 <= t < |ins| ==> ins[t].high == high
    requires forall t :: 1 <= t < |ins| ==> !ins[t].edge
    ensures forall n :: 0 <= n < DEBOUNCE_TICKS ==> Run(b, ins[..n]).stable == b.stable
    ensures Run(b, ins) == Button(0, 0, PressedLevel(high))
  {
    var t := TickButton(Arm(b, true), high, ins[0].poll);
    assert t == Button(0, DEBOUNCE_TICKS - 1, b.stable);
    forall n | 0 <= n < DEBOUNCE_TICKS
      ensures Run(b, ins[..n]).stable == b.stable
    {
      if n > 0 {
        assert Run(b, ins[..n]) == Run(t, ins[..n][1..]);
        BounceWithinWindowHolds(t, ins[..n][1..]);
      }
    }
    var window := ins[1..DEBOUNCE_TICKS];
    var rest := ins[DEBOUNCE_TICKS..];
    assert ins[1..] == window + rest;
    RunAppend(t, window, rest);
    QuietWindowResolves(t, window, high);
    SettledStays(Button(0, 0, PressedLevel(high)), rest, high);
  }

  /** The anti-stuck guard recovers a missed edge: an idle button whose
      state disagrees with its pin takes the pin's level on a re-poll tick. */
  lemma RepollRecoversMissedEdge(b: Button, high: bool)
    requires b.flag == 0 && b.cnt == 0
    ensures TickButton(b, high, true) == Button(0, 0, PressedLevel(high))
  {
  }

  // ---- the 32-bit tick counters ----

  /** `++tick_1kHz` on a uint32_t: wraps from 0xFFFF_FFFF to 0. */
  function Next(t: u32): (r: u32)
    ensures t < U32_MODULUS - 1 ==> r == t + 1
    ensures t == U32_MODULUS - 1 ==> r == 0
  {
    (t + 1) % U32_MODULUS
  }

  /** `now - last` on uint32_t operands: unsigned, wrap-safe subtraction. */
  function Elapsed(now: u32, last: u32): (d: u32)
    ensures now >= last ==> d == now - last
    ensures now < last ==> d == now - last + U32_MODULUS
  {
    (now - last) % U32_MODULUS
  }

  /** The re-poll test `tick - last_check_tick >= 100`, on the incremented
      tick: at least 100 ticks since the last re-poll, counted across the
      32-bit wrap when the counter has wrapped since then. */
  function RepollDue(tick: u32, lastCheck: u32): (due: bool)
    ensures tick >= lastCheck ==> (due <==> tick >= lastCheck + REPOLL_PERIOD)
    ensures tick < lastCheck ==> (due <==> tick + U32_MODULUS >= lastCheck + REPOLL_PERIOD)
  {
    Elapsed(tick, lastCheck) >= REPOLL_PERIOD
  }

  /** Between re-polls the elapsed count grows by exactly one per tick, also
      across the 32-bit wrap, so the re-poll fires exactly every 100 ticks. */
  lemma RepollCadence(tick: u32, lastCheck: u32)
    requires Elapsed(tick, lastCheck) < REPOLL_PERIOD
    ensures RepollDue(Next(tick), lastCheck) <==> Elapsed(tick, lastCheck) == REPOLL_PERIOD - 1
    ensures !RepollDue(Next(tick), lastCheck) ==>
              Elapsed(Next(tick), lastCheck) == Elapsed(tick, lastCheck) + 1
    ensures Elapsed(Next(tick), Next(tick)) == 0
  {
  }

  /** One button ticked by the firmware's own clock: each tick increments
      the counter and runs the re-poll exactly when it is due, with no edges
      and a steady pin. */
  function RunClocked(b: Button, tick: u32, lastCheck: u32, high: bool, n: nat): Button
    decreases n
  {
    if n == 0 then b
    else
      var now := Next(tick);
      var poll := RepollDue(now, lastCheck);
      RunClocked(TickButton(b, high, poll), now, if poll then now else lastCheck, high, n - 1)
  }

  /** A missed edge is recovered within 100 ticks: an idle button whose
      state disagrees with its steady pin keeps its state until the re-poll
      comes due, which is after 100 - Elapsed ticks, and then takes the
      pin's level. */
  lemma {:induction false} MissedEdgeRecovered(b: Button, tick: u32, lastCheck: u32, high: bool)
    requires b.flag == 0 && b.cnt == 0
    requires Elapsed(tick, lastCheck) < REPOLL_PERIOD
    ensures REPOLL_PERIOD - Elapsed(tick, lastCheck) <= REPOLL_PERIOD
    ensures forall m :: 0 <= m < REPOLL_PERIOD - Elapsed(tick, lastCheck) ==> RunClocked(b, tick, lastCheck, high, m) == b
    ensures RunClocked(b, tick, lastCheck, high, REPOLL_PERIOD - Elapsed(tick, lastCheck)) == Button(0, 0, PressedLevel(high))
    decreases REPOLL_PERIOD - Elapsed(tick, lastCheck)
  {
    var e := Elapsed(tick, lastCheck);
    var now := Next(tick);
    RepollCadence(tick, lastCheck);
    if e == REPOLL_PERIOD - 1 {
      RepollRecoversMissedEdge(b, high);
      assert RunClocked(b, tick, lastCheck, high, 1) == RunClocked(TickButton(b, high, true), now, now, high, 0);
    } else {
      assert TickButton(b, high, false) == b;
      MissedEdgeRecovered(b, now, lastCheck, high);
      forall m | 0 < m <= REPOLL_PERIOD - e
        ensures RunClocked(b, tick, lastCheck, high, m) == RunClocked(b, now, lastCheck, high, m - 1)
      {
      }
    }
  }

  /** `tick_1kHz % 20 == 0`: a packet snapshot and conversion on this tick. */
  function SampleDue(tick: u32): (due: bool)
    ensures due <==> tick == SAMPLE_PERIOD * (tick / SAMPLE_PERIOD)
  {
    tick % SAMPLE_PERIOD == 0
  }

  /** The 50 Hz cadence is exact away from the wrap; across the wrap of the
      32-bit counter one interval is 16 ticks instead of 20, because 2^32 is
      not a multiple of 20. */
  lemma SampleCadence(tick: u32)
    requires SampleDue(tick)
    ensures tick + SAMPLE_PERIOD < U32_MODULUS ==>
              SampleDue(tick + SAMPLE_PERIOD) &&
              forall k :: tick < k < tick + SAMPLE_PERIOD ==> !SampleDue(k)
    ensures tick == 0xFFFF_FFF0 ==>
              SampleDue(Next(0xFFFF_FFFF)) &&
              forall k :: tick < k < U32_MODULUS ==> !SampleDue(k)
  {
  }

  // ---- the edge interrupt's pin lookup ----

  /** The first button at or after `from` whose pin mask is `pin`. */
  function FindPin(pin: u16, from: nat): (r: Option<nat>)
    requires from <= |BUTTON_PINS|
    ensures r.Some? ==> from <= r.value < |BUTTON_PINS| && BUTTON_PINS[r.value] == pin
    ensures r.Some? ==> forall j :: from <= j < r.value ==> BUTTON_PINS[j] != pin
    ensures r.None? <==> pin !in BUTTON_PINS[from..]
    decreases |BUTTON_PINS| - from
  {
    if from == |BUTTON_PINS| then None
    else if BUTTON_PINS[from] == pin then Some(from)
    else
      assert BUTTON_PINS[from..] == [BUTTON_PINS[from]] + BUTTON_PINS[from + 1..];
      FindPin(pin, from + 1)
  }

  /** The button an edge on `pin` belongs to, if any. */
  function ButtonOfPin(pin: u16): Option<nat> {
    FindPin(pin, 0)
  }

  /** The pin masks are distinct, so a pin names exactly one button or none. */
  lemma ButtonOfPinExact(pin: u16, i: nat)
    ensures ButtonOfPin(pin) == Some(i) <==> i < BUTTON_COUNT && BUTTON_PINS[i] == pin
    ensures ButtonOfPin(pin) == None <==> pin !in BUTTON_PINS
  {
    assert BUTTON_PINS[0..] == BUTTON_PINS;
    var r := ButtonOfPin(pin);
    if r.Some? && i < BUTTON_COUNT && BUTTON_PINS[i] == pin {
      assert r.value == i by {
        var j := r.value;
        assert BUTTON_PINS[j] == BUTTON_PINS[i];
        assert forall x, y :: 0 <= x < y < BUTTON_COUNT ==> BUTTON_PINS[x] < BUTTON_PINS[y];
      }
    }
  }
}
