/** The axis half of the conversion-complete handler: each raw sample is
    centred on its calibrated offset, scaled by 100/2048 with C's truncating
    division, mapped onto the four stick axes with fixed signs, and put
    through a dead zone. */
module Axis {
  import opened Types

  const SCALE_NUM: int := 100
  const SCALE_DEN: int := 2048

  /** Scaled values whose magnitude is below this are forced to 0. */
  const DEAD_ZONE: nat := 7

  /** The largest magnitude a scaled value can have: 65535 * 100 / 2048. */
  const MAX_SCALED: nat := 3199

  /** The four stick axes of the packet, in frame order. */
  datatype Axes = Axes(leftY: int, leftX: int, rightY: int, rightX: int)

  /** C99 integer division, which truncates toward zero (Dafny's `/` is
      Euclidean). The remainder takes the sign of the dividend. */
  function TruncDiv(a: int, d: int): (q: int)
    requires d > 0
    ensures a >= 0 ==> q >= 0 && 0 <= a - q * d < d
    ensures a < 0 ==> q <= 0 && -d < a - q * d <= 0
  {
    if a >= 0 then a / d else -((-a) / d)
  }

  /** Truncating division is odd: negating before or after dividing agrees. */
  lemma TruncDivNegate(a: int, d: int)
    requires d > 0
    ensures TruncDiv(-a, d) == -TruncDiv(a, d)
  {
  }

  /** A quotient truncated toward zero never grows in magnitude when the
      dividend shrinks in magnitude. */
  lemma TruncDivMonotone(a: int, b: int, d: int)
    requires d > 0 && 0 <= a <= b
    ensures TruncDiv(a, d) <= TruncDiv(b, d)
  {
    var qa, qb := a / d, b / d;
    if qa > qb {
      assert qa * d >= (qb + 1) * d;
    }
  }

  /** One channel, centred and scaled: `(int32_t)(raw - offset) * 100 / 2048`.
      The uint16_t operands are promoted to int, so the difference is signed. */
  function Centred(raw: u16, offset: u16): (v: int)
    ensures -(MAX_SCALED as int) <= v <= MAX_SCALED
    ensures raw == offset ==> v == 0
    ensures (raw >= offset ==> v >= 0) && (raw <= offset ==> v <= 0)
    ensures Abs(raw - offset) <= 20 ==> v == 0
  {
    var delta := (raw - offset) * SCALE_NUM;
    TruncDivMonotone(Abs(delta), 0xFFFF * SCALE_NUM, SCALE_DEN);
    TruncDivNegate(Abs(delta), SCALE_DEN);
    TruncDiv(delta, SCALE_DEN)
  }

  /** The fixed channel-to-axis map, written as the handler computes it: the
      X axis of the left stick and the Y axis of the right stick negate the
      product before dividing. */
  function ScaleAxes(raw: seq<u16>, offset: seq<u16>): (a: Axes)
    requires |raw| == CHANNEL_COUNT && |offset| == CHANNEL_COUNT
    ensures a.leftY == Centred(raw[2], offset[2])
    ensures a.leftX == -Centred(raw[3], offset[3])
    ensures a.rightY == -Centred(raw[0], offset[0])
    ensures a.rightX == Centred(raw[1], offset[1])
  {
    TruncDivNegate((raw[3] - offset[3]) * SCALE_NUM, SCALE_DEN);
    TruncDivNegate((raw[0] - offset[0]) * SCALE_NUM, SCALE_DEN);
    Axes(TruncDiv((raw[2] - offset[2]) * SCALE_NUM, SCALE_DEN),
         TruncDiv(-((raw[3] - offset[3]) * SCALE_NUM), SCALE_DEN),
         TruncDiv(-((raw[0] - offset[0]) * SCALE_NUM), SCALE_DEN),
         TruncDiv((raw[1] - offset[1]) * SCALE_NUM, SCALE_DEN))
  }

  /** `if (abs(v) < 7) v = 0;` */
  function DeadZone(v: int): (r: int)
    ensures r == 0 || r == v
    ensures r == 0 || Abs(r) >= DEAD_ZONE
    ensures Abs(v) >= DEAD_ZONE ==> r == v
  {
    if Abs(v) < DEAD_ZONE then 0 else v
  }

  /** Applying the dead zone a second time changes nothing. */
  lemma DeadZoneIdempotent(v: int)
    ensures DeadZone(DeadZone(v)) == DeadZone(v)
  {
  }

  /** The boundary: magnitude 6 is zeroed, magnitude 7 survives. */
  lemma DeadZoneBoundary()
    ensures DeadZone(6) == 0 && DeadZone(-6) == 0
    ensures DeadZone(7) == 7 && DeadZone(-7) == -7
  {
  }

  /** The axis values the conversion-complete handler stores in the packet. */
  function ConvertAxes(raw: seq<u16>, offset: seq<u16>): (a: Axes)
    requires |raw| == CHANNEL_COUNT && |offset| == CHANNEL_COUNT
    ensures a.leftY == DeadZone(Centred(raw[2], offset[2]))
    ensures a.leftX == DeadZone(-Centred(raw[3], offset[3]))
    ensures a.rightY == DeadZone(-Centred(raw[0], offset[0]))
    ensures a.rightX == DeadZone(Centred(raw[1], offset[1]))
    ensures Fits16(a)
  {
    var s := ScaleAxes(raw, offset);
    Axes(DeadZone(s.leftY), DeadZone(s.leftX), DeadZone(s.rightY), DeadZone(s.rightX))
  }

  /** Every axis fits the packet's int16_t fields. */
  predicate Fits16(a: Axes) {
    -0x8000 <= a.leftY < 0x8000 && -0x8000 <= a.leftX < 0x8000 &&
    -0x8000 <= a.rightY < 0x8000 && -0x8000 <= a.rightX < 0x8000
  }

  /** The widest gap between a reading and its offset that the dead zone
      still absorbs: 143 * 100 / 2048 truncates to 6. */
  const NOISE_BAND: nat := 143

  /** A reading within the noise band of its offset reads 0, whichever sign
      its axis takes. */
  lemma NoiseReadsZero(raw: u16, offset: u16)
    requires Abs(raw - offset) <= NOISE_BAND
    ensures DeadZone(Centred(raw, offset)) == 0 && DeadZone(-Centred(raw, offset)) == 0
  {
    var delta := (raw - offset) * SCALE_NUM;
    TruncDivMonotone(Abs(delta), NOISE_BAND * SCALE_NUM, SCALE_DEN);
    TruncDivNegate(Abs(delta), SCALE_DEN);
    assert TruncDiv(NOISE_BAND * SCALE_NUM, SCALE_DEN) == 6;
  }

  /** The band is tight: one step further out survives the dead zone. */
  lemma NoiseBandTight()
    ensures DeadZone(Centred(2048 + NOISE_BAND + 1, 2048)) == 7
  {
    assert TruncDiv((NOISE_BAND + 1) * SCALE_NUM, SCALE_DEN) == 7;
  }

  /** A stick resting exactly on its calibrated centre reads 0 on every axis. */
  lemma CentreReadsZero(raw: seq<u16>, offset: seq<u16>)
    requires |raw| == CHANNEL_COUNT && raw == offset
    ensures ConvertAxes(raw, offset) == Axes(0, 0, 0, 0)
  {
  }
}
