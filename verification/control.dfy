/** Integer helpers that src/lesu.c and src/volvo.c share word for word:
    the slew-rate limiter `ramp`, the three-position switch reader (`input3`
    in lesu.c, `input2` in volvo.c), the pump output `output1` (which differs
    between the builds only in PUMP_MAX), the stick distance from neutral, and
    the fixed-point ADC conversion `sensor` (which differs only in its two
    calibration constants). */
module Control {
  import opened Bytes

  /** Servo pulse width of the neutral position, in microseconds. */
  const Neutral := 1500
  /** Minimum pump duty added to any non-zero demand (PUMP_MIN). */
  const PumpMin := 60

  /** `t < 1500 ? 1500 - t : t - 1500`: the distance of a channel from neutral. */
  function Dist(t: u16): (d: u16)
    ensures t == Neutral + d || t == Neutral - d
  {
    if t < Neutral then Neutral - t else t - Neutral
  }

  /** A channel frame as the serial decoder stores it: 14 values of 12 bits. */
  predicate Frame(chv: seq<u16>)
  {
    |chv| == 14 && forall k :: 0 <= k < 14 ==> chv[k] < 0x1000
  }

  /** Three-position switch: 0 below 1450, 2 above 1550, 1 in between. */
  function Switch3(t: u16): (r: u8)
    ensures r <= 2
    ensures r == 0 <==> t < 1450
    ensures r == 2 <==> t > 1550
    ensures r == 1 <==> 1450 <= t <= 1550
  {
    if t < 1450 then 0
    else if t > 1550 then 2
    else 1
  }

  /** Pump pulse width and the active flag `*s = !!t`. */
  datatype PumpOut = PumpOut(duty: u16, on: bool)

  /** `output1`: zero demand gives neutral with the pump flagged off; any
      other demand is offset by PUMP_MIN (in int16 arithmetic) and capped at
      PUMP_MAX above neutral. */
  function Pump(t: i16, pumpMax: nat): (r: PumpOut)
    requires PumpMin <= pumpMax < 0x8000
    ensures r.on <==> t != 0
    ensures t == 0 ==> r.duty == Neutral
    ensures t != 0 && -(Neutral + PumpMin) <= t < 0x8000 - PumpMin ==>
              r.duty == Min(Neutral + PumpMin + t, Neutral + pumpMax)
    ensures 0 <= t < 0x8000 - PumpMin ==> Neutral <= r.duty <= Neutral + pumpMax
  {
    if t == 0 then PumpOut(Neutral, false)
    else
      var w := I16(t + PumpMin);
      if w > pumpMax then PumpOut(U16(Neutral + pumpMax), true)
      else PumpOut(U16(Neutral + w), true)
  }

  /** `ramp(t, u, x)`: move the previous output `u` towards the target `t` by
      at most `x`, jumping over the dead zone 1450..1550, in uint16
      arithmetic. A zero previous output or a zero step disables limiting. */
  function Ramp(t: u16, u: u16, x: u16): (r: u16)
    ensures u == 0 || x == 0 ==> r == t
    // the result stays on the target's side of neutral and never overshoots it
    ensures t < Neutral ==> t <= r < Neutral
    ensures t >= Neutral ==> Neutral <= r <= t
    // closed forms of the limiter
    ensures u != 0 && x != 0 && t < Neutral ==> r == Max(t, Min(U16(u - x), 1450))
    ensures u != 0 && x != 0 && t >= Neutral ==> r == Min(t, Max(U16(u + x), 1550))
    // away from wrap-around and the dead zone, one step moves by exactly x
    ensures x <= u <= 1450 + x && t < Neutral ==> r == t || r == u - x
    ensures 1550 - x <= u < 0x1_0000 - x && t >= Neutral ==> r == t || r == u + x
  {
    if u == 0 || x == 0 then t
    else if t < Neutral then
      var v := U16(u - x);
      var v' := if v > 1450 then 1450 else v;
      if t < v' then v' else t
    else
      var v := U16(u + x);
      var v' := if v < 1550 then 1550 else v;
      if t > v' then v' else t
  }

  /** `((uint32_t)v * volt) >> 10`: the Q10 fixed-point product. */
  function Scale(v: u16, volt: nat): (r: nat)
    requires volt < 0x1_0000
    ensures r * 1024 <= v * volt < (r + 1) * 1024
    ensures r < 0x40_0000
  {
    var p := v * volt;
    assert p < 0x1_0000_0000 by { MulBound(v, volt); }
    p / 1024
  }

  lemma MulBound(a: nat, b: nat)
    requires a < 0x1_0000 && b < 0x1_0000
    ensures a * b < 0x1_0000_0000
  {
    assert a * b <= a * 0xFFFF <= 0xFFFF * 0xFFFF;
  }

  /** `sensor(i, v)`: index 0 (TMP36) is `((v * volt1) >> 10) - 100` and
      index 1 (voltage divider) is `(v * volt2) >> 10`, in uint32 arithmetic. */
  function Convert(i: u8, v: u16, volt1: nat, volt2: nat): (r: u32)
    requires volt1 < 0x1_0000 && volt2 < 0x1_0000
    ensures i > 1 ==> r == 0
    ensures i == 1 ==> r * 1024 <= v * volt2 < (r + 1) * 1024
    ensures i == 0 && v * volt1 >= 100 * 1024 ==> (r + 100) * 1024 <= v * volt1 < (r + 101) * 1024
    ensures i == 0 && v * volt1 < 100 * 1024 ==> r >= 0x1_0000_0000 - 100
    ensures i == 0 && v * volt1 < 100 * 1024 ==> r == 0x1_0000_0000 + v * volt1 / 1024 - 100
  {
    if i == 0 then U32(Scale(v, volt1) - 100)
    else if i == 1 then Scale(v, volt2)
    else 0
  }
}
