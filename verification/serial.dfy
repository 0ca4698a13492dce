/** The serial link engine of src/serial.c: one UART carries the FlySky iBUS
    servo stream (full duplex, listening on RX) and, after every valid servo
    frame, an iBUS sensor exchange (half duplex, request then response on the
    same wire). The three interrupt handlers are modelled as pure step
    functions over one immutable state record; each hardware interrupt is a
    discrete event that runs to completion. */
module Serial {
  import opened Bytes
  import Checksum
  import Control
  import Sensor
  import Build

  /** A response that may be absent. */
  datatype Option<+T> = None | Some(value: T)

  /** UART_CR2 values the engine writes. */
  const RxMode := 0x2C     // REN, TEN, RIEN: receive with interrupts
  const TxMode := 0x88     // TEN, TIEN: transmit on TX-empty interrupts, RX off
  const DrainMode := 0x48  // TEN, TCIEN: wait for transmission complete, RX off

  /** Servo sync marker. */
  const SyncLo := 0x20
  const SyncHi := 0x40
  /** Byte count of a servo frame after the sync (14 fields and a checksum). */
  const ServoEnd := 30
  /** Byte count of a sensor request. */
  const RequestEnd := 4
  /** Number of servo channels. */
  const Channels := 14

  /** Command kinds in the high nibble of a sensor request's command byte. */
  const Probe := 0x8
  const Type := 0x9
  const Value := 0xA

  /** Everything the three handlers share. `a`, `b`, `c`, `d`, `m`, `n` and
      `u` are the receive handler's static locals; `chv` the channel frame;
      `halfDuplex` is UART_CR5's HDSEL bit, `timer` whether TIM4 is counting,
      `cr2` UART_CR2; `tx` the queued response (the front `txq` bytes of the
      8-byte buffer: the bytes behind them are never sent), `txp` and `txq`
      the send cursor and the response length; `reg` the
      sensor registry; `app` the linked application as initialised, and
      `calls` the channel frames `update()` has been called with, in order:
      the application's current state is `Build.Replay(app, calls)`. */
  datatype Link = Link(
    a: u8, b: u8, c: u8, d: u8, m: u8, n: u8, u: u16,
    chv: seq<u16>,
    halfDuplex: bool, timer: bool, cr2: u8,
    tx: seq<u8>, txp: u8, txq: u8,
    reg: Sensor.Registry, app: Build.App, calls: seq<seq<u16>>)
  {
    predicate Valid()
    {
      && Control.Frame(chv)
      && n <= ServoEnd && m <= RequestEnd
      && (cr2 == RxMode || cr2 == TxMode || cr2 == DrainMode)
      && |tx| == txq <= 8 && txp <= txq
      && (cr2 == TxMode ==> txp < txq)
      && (cr2 == DrainMode ==> txp == txq)
      // half duplex is never entered without arming the recovery timeout
      && timer == halfDuplex
      // a request starts with a fresh checksum accumulator
      && (halfDuplex && m <= 1 ==> u == 0xFFFF)
      && reg.Valid()
      && Build.Frames(calls)
    }
  }

  /** The state after `initserial`: statics zeroed except `n = 30`, the UART
      receiving in full duplex. */
  function Init(lesu: bool): (s: Link)
    ensures s.Valid() && !s.halfDuplex && !s.timer && s.cr2 == RxMode
    // the servo decoder waits for a sync marker; no request is in progress
    ensures s.n == ServoEnd && s.m == 0
    ensures s.chv == seq(Channels, _ => 0) && s.txq == 0
    // zeroed sampler and application statics, and no call of `update()` yet
    ensures s.reg == Sensor.Init && s.app == Build.Boot(lesu) && s.calls == []
  {
    Link(0, 0, 0, 0, 0, ServoEnd, 0, seq(Channels, _ => 0), false, false, RxMode,
         [], 0, 0, Sensor.Init, Build.Boot(lesu), [])
  }

  /** `send2(p, x)`'s frame: length 6, command, the 16-bit value, checksum
      `0xFFF9 - p - lo - hi`. */
  function Frame2(p: u8, x: u16): (f: seq<u8>)
    ensures |f| == 6 && f[0] == 0x06 && f[1] == p && Word(f[2], f[3]) == x
    ensures Checksum.Sealed(f)
  {
    var ck := U16(0xFFF9 - p - Lo(x) - Hi(x));
    var body: seq<u8> := [0x06, p, Lo(x), Hi(x)];
    var f: seq<u8> := [0x06, p, Lo(x), Hi(x), Lo(ck), Hi(ck)];
    assert f[..4] == body;
    WordOfBytes(x);
    Checksum.ByteSum4(0x06, p, Lo(x), Hi(x));
    Checksum.AccumulatorMatch(Checksum.ByteSum(body), ck);
    f
  }

  /** `send4(p, x)`'s frame: length 8, command, the 32-bit value, checksum
      `0xFFF7 - p - b0 - b1 - b2 - b3`. */
  function Frame4(p: u8, x: u32): (f: seq<u8>)
    ensures |f| == 8 && f[0] == 0x08 && f[1] == p
    ensures f[2] as int + 0x100 * (f[3] as int) + 0x1_0000 * (f[4] as int) + 0x100_0000 * (f[5] as int) == x
    ensures Checksum.Sealed(f)
  {
    var b0, b1, b2, b3 := Byte(x, 0), Byte(x, 1), Byte(x, 2), Byte(x, 3);
    var ck := U16(0xFFF7 - p - b0 - b1 - b2 - b3);
    var body: seq<u8> := [0x08, p, b0, b1, b2, b3];
    var f: seq<u8> := [0x08, p, b0, b1, b2, b3, Lo(ck), Hi(ck)];
    BytesOfU32(x);
    assert f[..6] == body;
    Checksum.ByteSum6(0x08, p, b0, b1, b2, b3);
    Checksum.AccumulatorMatch(Checksum.ByteSum(body), ck);
    f
  }

  /** The Value response for a sensor whose type code is `t`: its width
      `t >> 8` selects `send2` or `send4`; any other width has no response. */
  function ValueFrame(p: u8, t: u16, v: u32): (f: Option<seq<u8>>)
    ensures t / 0x100 == 2 <==> f == Some(Frame2(p, U16(v)))
    ensures t / 0x100 == 4 <==> f == Some(Frame4(p, v))
    ensures f.None? <==> t / 0x100 != 2 && t / 0x100 != 4
  {
    if t / 0x100 == 2 then Some(Frame2(p, U16(v)))
    else if t / 0x100 == 4 then Some(Frame4(p, v))
    else None
  }

  /** Queue a response: fill the front of `tx`, rewind the cursor. */
  function Queue(s: Link, f: seq<u8>): (r: Link)
    requires s.Valid() && s.cr2 == RxMode && 1 <= |f| <= 8
    ensures r.Valid() && r.tx == f && r.txp == 0 && r.txq == |f| && r.cr2 == s.cr2
    // nothing but the transmit buffer and its cursors changes
    ensures r == s.(tx := f, txp := 0, txq := |f|)
  {
    s.(tx := f, txp := 0, txq := |f|)
  }

  /** `UART_CR2 = 0x88`: start transmitting, receiver off. */
  function Transmit(s: Link): (r: Link)
    requires s.Valid() && s.txp < s.txq
    ensures r.Valid() && r.cr2 == TxMode && r == s.(cr2 := TxMode)
  {
    s.(cr2 := TxMode)
  }

  /** The dispatch after a valid sensor request `[c, d, a, b]`: the index
      is `(d & 0x0F) - 1` as a uint8, the command kind `d >> 4`. */
  function Respond(s: Link, sample: u16): (r: Link)
    requires s.Valid() && s.cr2 == RxMode
    ensures r.Valid()
    ensures r.halfDuplex == s.halfDuplex && r.m == s.m && r.u == s.u && r.chv == s.chv && r.app == s.app
    ensures r.calls == s.calls
    // a response changes only the transmitter and the sampler: the decoders
    // of both protocols keep their state
    ensures var i := U8(s.d % 16 - 1); var kind := s.d / 16;
      Sensor.SensorType(i) != 0 && (kind == Probe || kind == Type || kind == Value) ==>
        r == s.(tx := r.tx, txp := 0, txq := r.txq, cr2 := TxMode, reg := r.reg)
    ensures var i := U8(s.d % 16 - 1); var kind := s.d / 16;
      && (Sensor.SensorType(i) == 0 || (kind != Probe && kind != Type && kind != Value) ==> r == s)
      && (Sensor.SensorType(i) != 0 && kind == Probe ==>
            r.tx == [s.c, s.d, s.a, s.b] && r.txp == 0 && r.txq == 4 && r.cr2 == TxMode && r.reg == s.reg)
      && (Sensor.SensorType(i) != 0 && kind == Type ==>
            r.tx == Frame2(s.d, Sensor.SensorType(i)) && r.txp == 0 && r.txq == 6 && r.cr2 == TxMode && r.reg == s.reg)
      && (Sensor.SensorType(i) != 0 && kind == Value ==>
            var data := Sensor.SensorData(s.reg, i, sample, s.app);
            data.Data? && r.reg == data.next &&
            r.tx == Frame2(s.d, U16(data.value)) && r.txp == 0 && r.txq == 6 && r.cr2 == TxMode)
  {
    var i := U8(s.d % 16 - 1);
    var t := Sensor.SensorType(i);
    if t == 0 then s
    else if s.d / 16 == Probe then Transmit(Queue(s, [s.c, s.d, s.a, s.b]))
    else if s.d / 16 == Type then Transmit(Queue(s, Frame2(s.d, t)))
    else if s.d / 16 == Value then
      match Sensor.SensorData(s.reg, i, sample, s.app)
      case NoData => s
      case Data(v, reg) =>
        var s' := s.(reg := reg);
        match ValueFrame(s.d, t, v)
        case Some(f) => Transmit(Queue(s', f))
        case None => s'  // the sample was still taken
    else s
  }

  /** The half-duplex branch of `UART_RXNE`, after the shift `a = b; b = byte`:
      count bytes in `m`, latch the first pair in `(c, d)`, validate the second
      pair against the accumulator and dispatch. A rejected request leaves
      `m == 4`, which ignores every further byte. */
  function SensorRx(s: Link, sample: u16): (r: Link)
    requires s.Valid() && s.halfDuplex && s.cr2 == RxMode
    ensures r.Valid() && r.halfDuplex && r.chv == s.chv && r.app == s.app && r.calls == s.calls
    ensures s.m == RequestEnd ==> r == s
    ensures s.m == 1 ==> r == s.(m := 2, c := s.a, d := s.b, u := U16(s.u - (s.a + s.b)))
    ensures s.m == 3 && (s.c != 4 || s.u != Word(s.a, s.b)) ==> r == s.(m := RequestEnd)
    ensures s.m == 3 && s.c == 4 && s.u == Word(s.a, s.b) ==> r == Respond(s.(m := 0, u := 0xFFFF), sample)
    ensures s.m != 3 ==> r.cr2 == s.cr2 && r.tx == s.tx && r.txp == s.txp && r.txq == s.txq && r.reg == s.reg
  {
    if s.m == RequestEnd then s
    else if (s.m + 1) % 2 == 1 then s.(m := s.m + 1)
    else if s.m + 1 == RequestEnd then
      if s.c != 4 || s.u != Word(s.a, s.b) then s.(m := RequestEnd)  // sync lost
      else Respond(s.(m := 0, u := 0xFFFF), sample)
    else s.(m := s.m + 1, c := s.a, d := s.b, u := U16(s.u - (s.a + s.b)))
  }

  /** A validated servo frame: call `update()` on the channel values (the
      call is recorded in `calls`), then switch to half duplex with a fresh
      request accumulator and arm the one-shot timeout. */
  function Accept(s: Link): (r: Link)
    requires s.Valid() && !s.halfDuplex
    ensures r.Valid() && r.halfDuplex && r.timer && r.m == 0 && r.u == 0xFFFF
    ensures r.calls == s.calls + [s.chv] && r.app == s.app
    ensures r.chv == s.chv && r.n == s.n && r.cr2 == s.cr2 && r.tx == s.tx && r.txp == s.txp && r.txq == s.txq
  {
    s.(calls := s.calls + [s.chv],
       m := 0, u := 0xFFFF, halfDuplex := true, timer := true)
  }

  /** The full-duplex branch of `UART_RXNE`, after the shift: detect the sync
      marker at any position, count bytes in `n`, store each completed field
      masked to 12 bits, and compare the final pair with the accumulator. */
  function ServoRx(s: Link): (r: Link)
    requires s.Valid() && !s.halfDuplex
    ensures r.Valid() && r.cr2 == s.cr2 && r.tx == s.tx && r.txp == s.txp && r.txq == s.txq && r.reg == s.reg
    ensures r.app == s.app
    // the sync marker restarts the frame wherever it appears
    ensures s.a == SyncLo && s.b == SyncHi ==> r == s.(n := 0, u := 0xFFFF - (SyncLo + SyncHi))
    // after a complete frame, bytes are ignored until the next sync
    ensures !(s.a == SyncLo && s.b == SyncHi) && s.n == ServoEnd ==> r == s
    // the second byte of a field pair stores the field and updates the accumulator
    ensures !(s.a == SyncLo && s.b == SyncHi) && s.n < ServoEnd - 1 && s.n % 2 == 1 ==>
              r == s.(n := s.n + 1, chv := s.chv[(s.n + 1) / 2 - 1 := Word(s.a, s.b) % 0x1000],
                      u := U16(s.u - (s.a + s.b)))
    // the checksum pair decides whether the frame is accepted
    ensures !(s.a == SyncLo && s.b == SyncHi) && s.n == ServoEnd - 1 ==>
              r == if s.u == Word(s.a, s.b) then Accept(s.(n := ServoEnd)) else s.(n := ServoEnd)
  {
    if s.a == SyncLo && s.b == SyncHi then s.(n := 0, u := 0xFFFF - (SyncLo + SyncHi))
    else if s.n == ServoEnd then s
    else
      var n := s.n + 1;
      if n % 2 == 1 then s.(n := n)
      else
        var v := Word(s.a, s.b);
        if n == ServoEnd then
          if s.u != v then s.(n := n)  // sync lost
          else Accept(s.(n := n))
        else
          s.(n := n, chv := s.chv[n / 2 - 1 := v % 0x1000], u := U16(s.u - (s.a + s.b)))
  }

  /** `UART_RXNE`: shift the received byte into `(a, b)` and decode it in the
      current mode. The sample is the ADC reading a Value request captures. */
  function RxByte(s: Link, x: u8, sample: u16): (r: Link)
    requires s.Valid() && s.cr2 == RxMode
    ensures r.Valid() && r.a == s.b && r.b == x && r.app == s.app
    ensures s.halfDuplex ==> r.halfDuplex && r.calls == s.calls && r.chv == s.chv
    ensures !s.halfDuplex ==> r.cr2 == RxMode && r.reg == s.reg
    ensures !s.halfDuplex ==> r.calls == if r.halfDuplex then s.calls + [r.chv] else s.calls
  {
    var s' := s.(a := s.b, b := x);
    if s.halfDuplex then SensorRx(s', sample) else ServoRx(s')
  }

  /** What one event emits on the wire. */
  datatype Out = Out(next: Link, sent: seq<u8>)

  /** `UART_TXE`: in the completion phase (TCIEN set) restore reception;
      otherwise emit `tx[txp++]` and, after the last byte, wait for the
      transmission to complete. */
  function TxReady(s: Link): (r: Out)
    requires s.Valid() && s.cr2 != RxMode
    ensures r.next.Valid()
    ensures s.cr2 == DrainMode ==> r.sent == [] && r.next == s.(cr2 := RxMode)
    ensures s.cr2 == TxMode ==> r.sent == [s.tx[s.txp]] && r.next.txp == s.txp + 1
    ensures s.cr2 == TxMode ==> r.next.cr2 == if s.txp + 1 == s.txq then DrainMode else TxMode
    ensures r.next.tx == s.tx && r.next.txq == s.txq && r.next.halfDuplex == s.halfDuplex
    ensures r.next.app == s.app && r.next.calls == s.calls
  {
    if (s.cr2 / 0x40) % 2 == 1 then Out(s.(cr2 := RxMode), [])
    else
      var s' := s.(txp := s.txp + 1);
      Out(if s'.txp == s.txq then s'.(cr2 := DrainMode) else s', [s.tx[s.txp]])
  }

  /** `TIM4_UIF`: revert to full duplex. The one-pulse timer has stopped
      itself; nothing else changes. */
  function Expire(s: Link): (r: Link)
    requires s.Valid()
    ensures r.Valid() && !r.halfDuplex && !r.timer
    ensures r.(halfDuplex := s.halfDuplex, timer := s.timer) == s
  {
    s.(halfDuplex := false, timer := false)
  }

  /** The hardware events: a received byte (with the ADC reading a sensor
      value request would capture), TX-empty/TX-complete, the timeout. */
  datatype Event = Received(byte: u8, sample: u16) | Ready | Timeout

  /** Whether the event's interrupt is enabled. */
  predicate Enabled(s: Link, e: Event)
  {
    match e
    case Received(_, _) => s.cr2 == RxMode
    case Ready => s.cr2 != RxMode
    case Timeout => s.timer
  }

  /** One event: the handler runs if its interrupt is enabled. */
  function Step(s: Link, e: Event): (r: Out)
    requires s.Valid()
    ensures r.next.Valid() && |r.sent| <= 1
    // the linked application is fixed; only its recorded calls grow
    ensures r.next.app == s.app
    ensures !Enabled(s, e) ==> r == Out(s, [])
    ensures r.sent != [] ==> e == Ready && s.cr2 == TxMode
  {
    if !Enabled(s, e) then Out(s, [])
    else match e
      case Received(x, sample) => Out(RxByte(s, x, sample), [])
      case Ready => TxReady(s)
      case Timeout => Out(Expire(s), [])
  }

  /** The state after a sequence of events. */
  function Run(s: Link, evs: seq<Event>): (r: Link)
    requires s.Valid()
    ensures r.Valid() && r.app == s.app
  {
    if |evs| == 0 then s else Step(Run(s, evs[..|evs| - 1]), evs[|evs| - 1]).next
  }

  /** The bytes put on the wire during a sequence of events. */
  function Wire(s: Link, evs: seq<Event>): (w: seq<u8>)
    requires s.Valid()
    ensures |w| <= |evs|
  {
    if |evs| == 0 then []
    else Wire(s, evs[..|evs| - 1]) + Step(Run(s, evs[..|evs| - 1]), evs[|evs| - 1]).sent
  }
}
