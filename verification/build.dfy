/** The application linked with the serial engine: src/lesu.c or src/volvo.c.
    Each supplies `update` (the control law run after a validated servo frame)
    and `sensor` (the conversion of an averaged ADC reading). */
module Build {
  import opened Bytes
  import Control
  import Lesu
  import Volvo

  datatype App = LesuApp(lesu: Lesu.State) | VolvoApp(volvo: Volvo.State)

  /** The linked application before its first `update()`: its statics are
      zero-initialised. */
  function Boot(lesu: bool): (r: App)
    ensures r.LesuApp? <==> lesu
    ensures r.LesuApp? ==> r.lesu == Lesu.Init
    ensures r.VolvoApp? ==> r.volvo == Volvo.Init
  {
    if lesu then LesuApp(Lesu.Init) else VolvoApp(Volvo.Init)
  }

  /** `update()` of whichever application is linked. */
  function Update(app: App, chv: seq<u16>): (r: App)
    requires Control.Frame(chv)
    ensures r.LesuApp? <==> app.LesuApp?
    ensures r.LesuApp? ==> r.lesu == Lesu.Update(app.lesu, chv)
    ensures r.VolvoApp? ==> r.volvo == Volvo.Update(app.volvo, chv)
  {
    match app
    case LesuApp(st) => LesuApp(Lesu.Update(st, chv))
    case VolvoApp(st) => VolvoApp(Volvo.Update(st, chv))
  }

  /** Every recorded call of `update()` received a channel frame. */
  predicate Frames(calls: seq<seq<u16>>)
  {
    forall k :: 0 <= k < |calls| ==> Control.Frame(calls[k])
  }

  /** The application's state after `update()` was called with each frame of
      `calls` in order. */
  function Replay(app: App, calls: seq<seq<u16>>): (r: App)
    requires Frames(calls)
    ensures r.LesuApp? <==> app.LesuApp?
  {
    if |calls| == 0 then app
    else Update(Replay(app, calls[..|calls| - 1]), calls[|calls| - 1])
  }

  /** One more call runs the control law once more on the new frame. */
  lemma ReplaySnoc(app: App, calls: seq<seq<u16>>, chv: seq<u16>)
    requires Frames(calls) && Control.Frame(chv)
    ensures Frames(calls + [chv])
    ensures Replay(app, calls + [chv]) == Update(Replay(app, calls), chv)
  {
    assert (calls + [chv])[..|calls|] == calls;
  }

  /** `sensor(i, v)` of whichever application is linked. */
  function Sensor(app: App, i: u8, v: u16): (r: u32)
    ensures i > 1 ==> r == 0
    ensures app.LesuApp? ==> r == Lesu.Sensor(i, v)
    ensures app.VolvoApp? ==> r == Volvo.Sensor(i, v)
  {
    if app.LesuApp? then Lesu.Sensor(i, v) else Volvo.Sensor(i, v)
  }

  /** The conversion does not depend on the control state, only on which
      application is linked. */
  lemma SensorIgnoresState(app: App, calls: seq<seq<u16>>, i: u8, v: u16)
    requires Frames(calls)
    ensures Sensor(Replay(app, calls), i, v) == Sensor(app, i, v)
  {
  }
}
