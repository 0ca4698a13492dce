/** The LESU build (src/lesu.c): two drive motors mixed from a throttle and a
    steering channel, a hydraulic pump driven by three valve sticks, and a
    blink mode for the signal lamps. Only the computed values are modelled;
    the timer and port registers they are written to are not. */
module Lesu {
  import opened Bytes
  import opened Control

  const ValveMin := 80   // still closed
  const ValveMul := 50   // input multiplier (%)
  const PumpMax := 300
  const PumpLim := 20
  const DriveMin := 50
  const DriveMax := 500
  const DriveLim := 20
  const Volt1 := 3325    // mV
  const Volt2 := 3657

  /** `input1`: valve stick opening. A dead band of VALVE_MIN around neutral,
      then `VALVE_MUL * (d - VALVE_MIN) / 200` computed in 16-bit unsigned
      arithmetic (SDCC's `int` is 16 bits wide). */
  function Input1(t: u16): (r: i16)
    ensures 0 <= r <= 0xFFFF / 200
    ensures Dist(t) <= 1390 ==> (r == 0 <==> Dist(t) < ValveMin + 4)
    // inside the no-wrap region the unbounded formula holds
    ensures ValveMin <= Dist(t) <= 1390 ==> r == ValveMul * (Dist(t) - ValveMin) / 200
  {
    var d := Dist(t);
    if d < ValveMin then 0 else U16(ValveMul * U16(d - ValveMin)) / 200
  }

  /** The valve opening depends only on the distance from neutral. */
  lemma Input1Symmetric(k: nat)
    requires k <= Neutral
    ensures Input1(Neutral + k) == Input1(Neutral - k)
  {
  }

  /** `input2`: signed offset from neutral, `t - 1500` cast to int16. */
  function Input2(t: u16): (r: i16)
    ensures t < 0x8000 + Neutral ==> r == t - Neutral
  {
    I16(t - Neutral)
  }

  /** `output2`: drive pulse width, neutral inside a dead band of DRIVE_MIN,
      otherwise `1500 + t` clamped to 1500 +/- DRIVE_MAX. */
  function Output2(t: i16): (r: u16)
    ensures Neutral - DriveMax <= r <= Neutral + DriveMax
    ensures r == Neutral <==> -DriveMin < t < DriveMin
    ensures t <= -DriveMin || t >= DriveMin ==> r == Max(Neutral - DriveMax, Min(Neutral + DriveMax, Neutral + t))
  {
    if t > -DriveMin && t < DriveMin then Neutral
    else if t < -DriveMax then Neutral - DriveMax
    else if t > DriveMax then Neutral + DriveMax
    else Neutral + t
  }

  /** The blink mode chosen in `update` from the previous mode `bm`, the
      forced-blink switch `s2`, the throttle `i3` and the steering `i4`. */
  function Blink(bm: u8, s2: u8, i3: i16, i4: i16): (b: u8)
    requires s2 <= 2
    ensures bm <= 4 ==> b <= 4
    // forced blinking (3 or 4) overrides everything
    ensures s2 != 0 ==> b == s2 + 2
    ensures b >= 3 ==> s2 != 0 || b == bm
    // reversing hard or steering straight turns the lamps off
    ensures s2 == 0 && (i3 < -100 || -50 < i4 < 50) ==> b == 0
    // a turn signal needs a hard turn while not reversing
    ensures b == 1 && bm != 1 ==> s2 == 0 && i3 > -50 && i4 < -250
    ensures b == 2 && bm != 2 ==> s2 == 0 && i3 > -50 && i4 > 250
    // and a hard turn while not reversing selects it
    ensures s2 == 0 && i3 > -50 && i4 < -250 ==> b == 1
    ensures s2 == 0 && i3 > -50 && i4 > 250 ==> b == 2
    // otherwise the mode is kept
    ensures s2 == 0 && !(i3 < -100 || -50 < i4 < 50) && !(i3 > -50 && (i4 < -250 || i4 > 250)) ==> b == bm
  {
    if s2 != 0 then s2 + 2
    else if i3 < -100 || (i4 > -50 && i4 < 50) then 0
    else if i3 > -50 then
      if i4 < -250 then 1
      else if i4 > 250 then 2
      else bm
    else bm
  }

  /** The outputs `update` keeps between frames: the three ramped pulse
      widths, the blink mode, and the three indicator pins. */
  datatype State = State(u1: u16, u2: u16, u3: u16, bm: u8, light: bool, pumpOn: bool, reversing: bool)

  /** The statics before the first frame: zero-initialised, pins low. */
  const Init := State(0, 0, 0, 0, false, false, false)

  /** `update`: the control law run once per validated servo frame. */
  function Update(st: State, chv: seq<u16>): (r: State)
    requires Frame(chv)
    // the drive outputs mix throttle and steering, then pass the limiter
    ensures r.u1 == Ramp(Output2(Input2(chv[2]) + Input2(chv[3])), st.u1, DriveLim)
    ensures r.u2 == Ramp(Output2(Input2(chv[2]) - Input2(chv[3])), st.u2, DriveLim)
    ensures Neutral - DriveMax <= r.u1 <= Neutral + DriveMax
    ensures Neutral - DriveMax <= r.u2 <= Neutral + DriveMax
    // the pump runs forward only, and only while some valve is open
    ensures Neutral <= r.u3 <= Neutral + PumpMax
    ensures r.pumpOn <==> Input1(chv[0]) + Input1(chv[1]) + Input1(chv[4]) != 0
    ensures !r.pumpOn ==> r.u3 == Neutral
    ensures r.u3 == Ramp(Pump(Input1(chv[0]) + Input1(chv[1]) + Input1(chv[4]), PumpMax).duty, st.u3, PumpLim)
    // the blink mode follows the forced-blink switch, throttle and steering
    ensures r.bm == Blink(st.bm, Switch3(chv[6]), Input2(chv[2]), Input2(chv[3]))
    ensures st.bm <= 4 ==> r.bm <= 4
    ensures r.light <==> Switch3(chv[5]) != 0
    ensures r.reversing <==> chv[2] < Neutral - 50
  {
    var s1 := Switch3(chv[5]);
    var s2 := Switch3(chv[6]);
    var i1 := Input1(chv[0]);
    var i2 := Input1(chv[1]);
    var i3 := Input2(chv[2]);
    var i4 := Input2(chv[3]);
    var i5 := Input1(chv[4]);
    var pump := Pump(i1 + i2 + i5, PumpMax);
    State(
      Ramp(Output2(i3 + i4), st.u1, DriveLim),
      Ramp(Output2(i3 - i4), st.u2, DriveLim),
      Ramp(pump.duty, st.u3, PumpLim),
      Blink(st.bm, s2, i3, i4),
      s1 != 0,
      pump.on,
      i3 < -50)
  }

  /** `sensor`: TMP36 temperature for index 0, divided battery voltage for 1. */
  function Sensor(i: u8, v: u16): (r: u32)
    ensures i > 1 ==> r == 0
    ensures i == 1 ==> r * 1024 <= v * Volt2 < (r + 1) * 1024
    ensures i == 0 && v * Volt1 >= 100 * 1024 ==> (r + 100) * 1024 <= v * Volt1 < (r + 101) * 1024
    // below 0 degrees Celsius the uint32 subtraction wraps
    ensures i == 0 && v * Volt1 < 100 * 1024 ==> r == 0x1_0000_0000 + v * Volt1 / 1024 - 100
  {
    Convert(i, v, Volt1, Volt2)
  }
}
