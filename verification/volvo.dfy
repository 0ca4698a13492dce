/** The Volvo build (src/volvo.c): three proportional valves driven straight
    from trimmed stick channels, and a hydraulic pump whose demand is the sum
    of the three valve openings. Only the computed values are modelled. */
module Volvo {
  import opened Bytes
  import opened Control

  const Ch1Trim := -50   // bucket
  const Ch2Trim := 50    // boom
  const Ch3Trim := -80   // stick
  const ValveMin := 220  // still closed
  const ValveMax := 280  // fully open
  const ValveMul := 100  // input multiplier (%)
  const PumpMax := 340
  const PumpLim := 20
  const Volt1 := 3329    // mV
  const Volt2 := 3662

  /** Result of `input1`: the valve opening it returns and the trimmed pulse
      width it writes through its `*u` out-parameter. */
  datatype Valve = Valve(level: i16, duty: u16)

  /** The valve opening as a function of the distance from neutral, in
      16-bit unsigned arithmetic: closed below VALVE_MIN, a half-slope ramp up
      to VALVE_MAX, then `d - (VALVE_MIN + VALVE_MAX) / 2`. */
  function Level(d: u16): (r: i16)
    ensures 0 <= r <= 0xFFFF / 100
    ensures d < ValveMin ==> r == 0
    ensures ValveMin <= d < ValveMax ==> r == (d - ValveMin) / 2
    ensures ValveMax <= d <= 905 ==> r == d - (ValveMin + ValveMax) / 2
  {
    if d < ValveMin then 0
    else if d < ValveMax then U16(ValveMul * U16(d - ValveMin)) / 200
    else U16(ValveMul * U16(d - (ValveMin + ValveMax) / 2)) / 100
  }

  /** `input1(t, &u, x)`: the trimmed pass-through `t + x` is written in every
      case, independently of the dead band. */
  function Input1(t: u16, x: i16): (r: Valve)
    ensures r.level == Level(Dist(t))
    ensures 0 <= t + x < 0x1_0000 ==> r.duty == t + x
    ensures (r.duty - (t + x)) % 0x1_0000 == 0
  {
    Valve(Level(Dist(t)), U16(t + x))
  }

  /** The opening never decreases as the stick moves away from neutral, as
      long as the 16-bit product does not wrap (up to 905 from neutral, far
      beyond the servo range); in particular the last two pieces meet at
      VALVE_MAX, where both give 30. */
  lemma {:induction false} LevelMonotone(d1: u16, d2: u16)
    requires d1 <= d2 <= 905
    ensures Level(d1) <= Level(d2)
  {
    if d1 < ValveMax <= d2 {
      assert Level(d1) <= (ValveMax - ValveMin) / 2 == 30;
      assert Level(d2) >= ValveMax - (ValveMin + ValveMax) / 2 == 30;
    }
  }

  /** The outputs `update` keeps: three valve pulse widths, the ramped pump
      pulse width, and the two indicator pins. */
  datatype State = State(u1: u16, u2: u16, u3: u16, u4: u16, light: bool, pumpOn: bool)

  /** The statics before the first frame: zero-initialised, pins low. */
  const Init := State(0, 0, 0, 0, false, false)

  /** Pump demand: the sum of the three valve openings. */
  function Demand(chv: seq<u16>): (r: i16)
    requires Frame(chv)
    ensures 0 <= r
    ensures Dist(chv[0]) <= 905 && Dist(chv[1]) <= 905 && Dist(chv[2]) <= 905 ==>
              (r == 0 <==> Dist(chv[0]) < ValveMin + 2 && Dist(chv[1]) < ValveMin + 2 && Dist(chv[2]) < ValveMin + 2)
  {
    Input1(chv[0], Ch1Trim).level + Input1(chv[1], Ch2Trim).level + Input1(chv[2], Ch3Trim).level
  }

  /** `update`: valves follow their trimmed channels, the pump follows the
      summed valve demand through `output1` and `ramp`. */
  function Update(st: State, chv: seq<u16>): (r: State)
    requires Frame(chv)
    // the valves get the raw channels shifted by their trims (never wrapping in the servo range)
    ensures chv[0] >= -Ch1Trim ==> r.u1 == chv[0] + Ch1Trim
    ensures r.u2 == chv[1] + Ch2Trim
    ensures chv[2] >= -Ch3Trim ==> r.u3 == chv[2] + Ch3Trim
    ensures r.u4 == Ramp(Pump(Demand(chv), PumpMax).duty, st.u4, PumpLim)
    ensures Neutral <= r.u4 <= Neutral + PumpMax
    ensures r.pumpOn <==> Demand(chv) != 0
    ensures !r.pumpOn ==> r.u4 == Neutral
    ensures r.light <==> Switch3(chv[6]) != 0
  {
    var s1 := Switch3(chv[6]);
    var v1 := Input1(chv[0], Ch1Trim);
    var v2 := Input1(chv[1], Ch2Trim);
    var v3 := Input1(chv[2], Ch3Trim);
    var pump := Pump(v1.level + v2.level + v3.level, PumpMax);
    State(v1.duty, v2.duty, v3.duty, Ramp(pump.duty, st.u4, PumpLim), s1 != 0, pump.on)
  }

  /** `sensor`: TMP36 temperature for index 0, divided battery voltage for 1. */
  function Sensor(i: u8, v: u16): (r: u32)
    ensures i > 1 ==> r == 0
    ensures i == 1 ==> r * 1024 <= v * Volt2 < (r + 1) * 1024
    ensures i == 0 && v * Volt1 >= 100 * 1024 ==> (r + 100) * 1024 <= v * Volt1 < (r + 101) * 1024
    // below 0 degrees Celsius the uint32 subtraction wraps
    ensures i == 0 && v * Volt1 < 100 * 1024 ==> r == 0x1_0000_0000 + v * Volt1 / 1024 - 100
  {
    Convert(i, v, Volt1, Volt2)
  }
}
