/** Whole iBUS sensor exchanges in half duplex: a four-byte request fed byte
    by byte to the receive handler, then the TX interrupts that put the
    response on the wire. */
module SensorExchange {
  import opened Bytes
  import Checksum
  import Sensor
  import opened Serial
  import opened Trace
  import ServoFrames

  /** The link waits for a request: half duplex, receiving, no byte of the
      request seen yet (so the accumulator is fresh). */
  predicate Listening(s: Link)
  {
    s.Valid() && s.halfDuplex && s.cr2 == RxMode && s.m == 0
  }

  /** An accepted servo frame leaves the link listening for a request. */
  lemma ServoThenListening(s: Link, f: seq<u8>, sample: u16)
    requires ServoFrames.Idle(s) && ServoFrames.Shaped(f) && Checksum.Sealed(f)
    ensures var r := Run(s, RxEvents(f, sample)); Listening(r) && r.n == ServoEnd
  {
    ServoFrames.ServoFrame(s, f, sample);
  }

  /** The timeout reverts a receiving link to full duplex, with the servo
      decoder waiting for the next sync marker as the accepted frame left
      it. */
  lemma Recover(r: Link)
    requires r.Valid() && r.halfDuplex && r.cr2 == RxMode && r.n == ServoEnd
    ensures Step(r, Timeout).next == r.(halfDuplex := false, timer := false)
    ensures ServoFrames.Idle(Step(r, Timeout).next)
  {
  }

  /** The first and third byte of a request are only counted. */
  lemma CountRequestByte(r: Link, x: u8, sample: u16)
    requires r.Valid() && r.halfDuplex && r.cr2 == RxMode && (r.m == 0 || r.m == 2)
    ensures Step(r, Received(x, sample)).next == r.(a := r.b, b := x, m := r.m + 1)
  {
  }

  /** The second byte completes the first pair: it is latched as the
      request's length and command and subtracted from the accumulator. */
  lemma LatchPair(r: Link, x: u8, sample: u16)
    requires r.Valid() && r.halfDuplex && r.cr2 == RxMode && r.m == 1
    ensures Step(r, Received(x, sample)).next
         == r.(a := r.b, b := x, m := 2, c := r.b, d := x, u := U16(r.u - (r.b + x)))
  {
  }

  /** The fourth byte completes the checksum: a request of length 4 whose
      checksum matches is answered, anything else makes the link deaf. */
  lemma CheckPair(r: Link, x: u8, sample: u16)
    requires r.Valid() && r.halfDuplex && r.cr2 == RxMode && r.m == 3
    ensures Step(r, Received(x, sample)).next
         == if r.c == 4 && r.u == Word(r.b, x) then Respond(r.(a := r.b, b := x, m := 0, u := 0xFFFF), sample)
            else r.(a := r.b, b := x, m := RequestEnd)
  {
  }

  /** The states after the first two, three and four request bytes. */
  function Latched(s: Link, q: seq<u8>): (r: Link)
    requires Listening(s) && |q| == 4
    ensures r.Valid() && r.halfDuplex && r.cr2 == RxMode && r.m == 2
  {
    s.(a := q[0], b := q[1], m := 2, c := q[0], d := q[1], u := U16(0xFFFF - (q[0] as int + q[1])))
  }

  /** The request with its bytes in `(c, d)` and `(a, b)`, ready for dispatch. */
  function Decoded(s: Link, q: seq<u8>): (r: Link)
    requires Listening(s) && |q| == 4
    ensures Listening(r) && r.u == 0xFFFF
    ensures r.(a := s.a, b := s.b, c := s.c, d := s.d) == s
  {
    s.(a := q[2], b := q[3], c := q[0], d := q[1])
  }

  lemma FirstTwo(s: Link, q: seq<u8>, sample: u16)
    requires Listening(s) && |q| == 4
    ensures Feed(s, q[..2], sample) == Latched(s, q)
  {
    assert q[..2][..1] == q[..1] && q[..1][..0] == [];
    var r1 := s.(a := s.b, b := q[0], m := 1);
    CountRequestByte(s, q[0], sample);
    assert Feed(s, q[..1], sample) == r1;
    LatchPair(r1, q[1], sample);
  }

  lemma ThirdByte(s: Link, q: seq<u8>, sample: u16)
    requires Listening(s) && |q| == 4
    ensures Feed(s, q[..3], sample) == Latched(s, q).(a := q[1], b := q[2], m := 3)
  {
    FirstTwo(s, q, sample);
    assert q[..3][..2] == q[..2];
    CountRequestByte(Latched(s, q), q[2], sample);
  }

  /** The received checksum matches the accumulator exactly when the request
      is sealed. */
  lemma RequestChecksum(q: seq<u8>)
    requires |q| == 4
    ensures U16(0xFFFF - (q[0] as int + q[1])) == Word(q[2], q[3]) <==> Checksum.Sealed(q)
  {
    assert q[..2][..1] == q[..1] && q[..1][..0] == [];
    assert Checksum.ByteSum(q[..1]) == q[0];
    assert Checksum.ByteSum(q[..2]) == q[0] as int + q[1];
    Checksum.AccumulatorMatch(q[0] as int + q[1], Word(q[2], q[3]));
  }

  /** A whole request from a listening link: a sealed request of length 4 is
      dispatched with its bytes latched and a fresh accumulator; anything else
      leaves the link deaf (`m == 4`) until the timeout. Nothing is sent
      while receiving. */
  lemma Request(s: Link, q: seq<u8>, sample: u16)
    requires Listening(s) && |q| == 4
    ensures Feed(s, q, sample)
         == if q[0] == 4 && Checksum.Sealed(q) then Respond(Decoded(s, q), sample)
            else Decoded(s, q).(m := RequestEnd, u := U16(0xFFFF - (q[0] as int + q[1])))
  {
    var r3 := Latched(s, q).(a := q[1], b := q[2], m := 3);
    assert q[..3] == q[..|q| - 1];
    ThirdByte(s, q, sample);
    CheckPair(r3, q[3], sample);
    RequestChecksum(q);
  }

  /** A deaf link ignores every byte but shifts it through `(a, b)`. */
  lemma {:induction false} Deaf(r: Link, bs: seq<u8>, sample: u16)
    requires r.Valid() && r.halfDuplex && r.cr2 == RxMode && r.m == RequestEnd
    ensures var t := Run(r, RxEvents(bs, sample));
      t.(a := r.a, b := r.b) == r && t.b == (if |bs| > 0 then bs[|bs| - 1] else r.b)
  {
    if |bs| > 0 {
      Deaf(r, bs[..|bs| - 1], sample);
      RunLast(r, bs, |bs|, sample);
      assert bs[..|bs|] == bs;
    }
  }

  /** The iBUS response a sensor owes to request `q`, or none: a request
      must have length 4 and a valid checksum; its command's low nibble
      addresses sensor `nibble - 1`, which must be registered; a probe is
      echoed, a type query answered with the sensor's type code, a value
      query with a fresh average converted by the application, in a frame
      as wide as the type code says. Every response is a well-formed iBUS
      frame: its first byte is its length, its second echoes the request's
      command, and it is sealed. */
  function Response(s: Link, q: seq<u8>, sample: u16): (w: Option<seq<u8>>)
    requires s.reg.Valid() && |q| == 4
    ensures w.Some? ==> var f := w.value;
      4 <= |f| <= 8 && f[0] == |f| && f[1] == q[1] && Checksum.Sealed(f)
  {
    var i := U8(q[1] as int % 16 - 1);
    var t := Sensor.SensorType(i);
    if q[0] != 4 || !Checksum.Sealed(q) || t == 0 then None
    else if q[1] / 16 == Probe then Some(q)
    else if q[1] / 16 == Type then Some(Frame2(q[1], t))
    else if q[1] / 16 == Value then
      match Sensor.SensorData(s.reg, i, sample, s.app)
      case NoData => None
      case Data(v, _) => ValueFrame(q[1], t, v)
    else None
  }

  /** A response is owed exactly when the command addresses a registered
      sensor with a known kind, in a sealed request of length 4. */
  lemma ResponseOwed(s: Link, q: seq<u8>, sample: u16)
    requires s.reg.Valid() && |q| == 4
    ensures Response(s, q, sample).Some?
        <==> q[0] == 4 && Checksum.Sealed(q) && 1 <= q[1] % 16 <= Sensor.Count
             && (q[1] / 16 == Probe || q[1] / 16 == Type || q[1] / 16 == Value)
  {
    var i := U8(q[1] as int % 16 - 1);
    assert Sensor.SensorType(i) != 0 <==> 1 <= q[1] % 16 <= Sensor.Count;
  }

  /** Dispatching a request queues exactly the response owed to it. */
  predicate QueuedAs(r: Link, w: Option<seq<u8>>)
  {
    match w
    case None => r.cr2 == RxMode
    case Some(f) => r.cr2 == TxMode && r.txp == 0 && r.tx == f
  }

  lemma Queued(s: Link, q: seq<u8>, sample: u16)
    requires Listening(s) && |q| == 4 && q[0] == 4 && Checksum.Sealed(q)
    ensures QueuedAs(Respond(Decoded(s, q), sample), Response(s, q, sample))
  {
    var t := Sensor.SensorType(U8(q[1] as int % 16 - 1));
    if t == 0 || (q[1] / 16 != Probe && q[1] / 16 != Type && q[1] / 16 != Value) {
      QueuedNothing(s, q, sample);
    } else if q[1] / 16 == Probe {
      QueuedProbe(s, q, sample);
    } else if q[1] / 16 == Type {
      QueuedType(s, q, sample);
    } else {
      QueuedValue(s, q, sample);
    }
  }

  /** The decoded link addresses the same sensor and command as the
      request. */
  lemma DecodedCommand(s: Link, q: seq<u8>)
    requires Listening(s) && |q| == 4
    ensures var d := Decoded(s, q);
      && d.c == q[0] && d.d == q[1] && d.a == q[2] && d.b == q[3]
      && d.reg == s.reg && d.app == s.app
      && U8(d.d % 16 - 1) == U8(q[1] as int % 16 - 1) && d.d / 16 == q[1] / 16
  {
  }

  lemma QueuedNothing(s: Link, q: seq<u8>, sample: u16)
    requires Listening(s) && |q| == 4 && q[0] == 4 && Checksum.Sealed(q)
    requires var t := Sensor.SensorType(U8(q[1] as int % 16 - 1));
      t == 0 || (q[1] / 16 != Probe && q[1] / 16 != Type && q[1] / 16 != Value)
    ensures Response(s, q, sample).None? && Respond(Decoded(s, q), sample) == Decoded(s, q)
  {
    var t := Sensor.SensorType(U8(q[1] as int % 16 - 1));
    DecodedCommand(s, q);
    var d := Decoded(s, q);
    assert Sensor.SensorType(U8(d.d % 16 - 1)) == t;
    if t == 0 {
      assert Response(s, q, sample).None?;
      assert Respond(d, sample) == d;
    } else {
      assert Response(s, q, sample).None?;
      assert Respond(d, sample) == d;
    }
  }

  lemma QueuedProbe(s: Link, q: seq<u8>, sample: u16)
    requires Listening(s) && |q| == 4 && q[0] == 4 && Checksum.Sealed(q)
    requires Sensor.SensorType(U8(q[1] as int % 16 - 1)) != 0 && q[1] / 16 == Probe
    ensures Response(s, q, sample) == Some(q)
    ensures var r := Respond(Decoded(s, q), sample); r.cr2 == TxMode && r.txp == 0 && r.tx == q
  {
    DecodedCommand(s, q);
    assert [q[0], q[1], q[2], q[3]] == q;
  }

  lemma QueuedType(s: Link, q: seq<u8>, sample: u16)
    requires Listening(s) && |q| == 4 && q[0] == 4 && Checksum.Sealed(q)
    requires Sensor.SensorType(U8(q[1] as int % 16 - 1)) != 0 && q[1] / 16 == Type
    ensures var f := Frame2(q[1], Sensor.SensorType(U8(q[1] as int % 16 - 1)));
      && Response(s, q, sample) == Some(f)
      && var r := Respond(Decoded(s, q), sample); r.cr2 == TxMode && r.txp == 0 && r.tx == f
  {
    DecodedCommand(s, q);
  }

  lemma QueuedValue(s: Link, q: seq<u8>, sample: u16)
    requires Listening(s) && |q| == 4 && q[0] == 4 && Checksum.Sealed(q)
    requires Sensor.SensorType(U8(q[1] as int % 16 - 1)) != 0 && q[1] / 16 == Value
    ensures var data := Sensor.SensorData(s.reg, U8(q[1] as int % 16 - 1), sample, s.app);
      var f := Frame2(q[1], U16(data.value));
      && Response(s, q, sample) == Some(f)
      && var r := Respond(Decoded(s, q), sample); r.cr2 == TxMode && r.txp == 0 && r.tx == f
  {
    var i := U8(q[1] as int % 16 - 1);
    var t := Sensor.SensorType(i);
    var data := Sensor.SensorData(s.reg, i, sample, s.app);
    assert i < Sensor.Count && t / 0x100 == 2;
    assert data.Data?;
    var f := Frame2(q[1], U16(data.value));
    assert ValueFrame(q[1], t, data.value) == Some(f);
    assert Response(s, q, sample) == Some(f);
    DecodedCommand(s, q);
    var r := Respond(Decoded(s, q), sample);
    assert r.tx == f;
  }

  /** After dispatch, the TX interrupts put the queued response on the wire,
      one byte each, and the completion interrupt returns the link to
      receiving in half duplex. Without a response the TX interrupt stays
      disabled and nothing is sent. */
  lemma Reply(s: Link, q: seq<u8>, sample: u16, k: nat)
    requires Listening(s) && |q| == 4
    ensures var r := Run(s, RxEvents(q, sample));
      match Response(s, q, sample)
      case None => Run(r, Readies(k)) == r && Wire(r, Readies(k)) == []
      case Some(w) =>
        && Wire(r, Readies(|w| + 1)) == w
        && Run(r, Readies(|w| + 1)) == r.(txp := |w|, cr2 := RxMode)
  {
    var r := Run(s, RxEvents(q, sample));
    FeedRun(s, q, sample);
    Request(s, q, sample);
    if q[0] == 4 && Checksum.Sealed(q) {
      Queued(s, q, sample);
    }
    match Response(s, q, sample)
    case None =>
      Silence(r, k);
    case Some(w) =>
      Transmission(r, w);
  }

  /** The number of TX interrupts a request's reply takes: the bytes of the
      owed response and the completion interrupt, or none. */
  function ReplyEvents(s: Link, q: seq<u8>, sample: u16): nat
    requires s.reg.Valid() && |q| == 4
  {
    match Response(s, q, sample)
    case None => 0
    case Some(w) => |w| + 1
  }

  /** A request, answered or not, leaves the servo side of the link alone;
      with no response owed the link keeps receiving. */
  lemma RequestKeepsServo(s: Link, q: seq<u8>, sample: u16)
    requires Listening(s) && |q| == 4
    ensures var r := Run(s, RxEvents(q, sample));
      && r.n == s.n && r.chv == s.chv && r.calls == s.calls && r.halfDuplex
      && (Response(s, q, sample).None? ==> r.cr2 == RxMode)
  {
    FeedRun(s, q, sample);
    Request(s, q, sample);
    if q[0] == 4 && Checksum.Sealed(q) {
      Queued(s, q, sample);
    }
  }

  /** A sensor exchange leaves the servo side as it found it: after the
      request, its reply and the timeout, the servo decoder waits for the
      next sync with the same channels and no further `update()` call. */
  lemma ExchangeKeepsServo(s: Link, q: seq<u8>, sample: u16)
    requires Listening(s) && |q| == 4 && s.n == ServoEnd
    ensures var t := Run(Run(s, RxEvents(q, sample)), Readies(ReplyEvents(s, q, sample)));
      && t.chv == s.chv && t.calls == s.calls && t.n == ServoEnd
      && ServoFrames.Idle(Step(t, Timeout).next)
  {
    var r := Run(s, RxEvents(q, sample));
    RequestKeepsServo(s, q, sample);
    Reply(s, q, sample, 0);
    match Response(s, q, sample)
    case None =>
      Recover(r);
    case Some(w) =>
      Recover(r.(txp := |w|, cr2 := RxMode));
  }
}
