/** The sensor registry and oversampling sampler of src/sensor.c. The ADC
    conversion itself (channel selection, the 16 settling conversions and the
    busy-wait on end-of-conversion) is replaced by the captured reading, which
    every operation that samples receives as a parameter. */
module Sensor {
  import opened Bytes
  import Build

  /** Number of registered sensors. */
  const Count := 2
  /** Slots of each sensor's ring buffer. */
  const Slots := 64

  /** `sensortype(i)`: the type code of sensor `i` (high byte: payload width
      in bytes, low byte: iBUS sensor type), or 0 for an unregistered index. */
  function SensorType(i: u8): (t: u16)
    ensures t != 0 <==> i < Count
    ensures t != 0 ==> t / 0x100 == 2
    ensures i == 0 ==> t == 0x201
    ensures i == 1 ==> t == 0x203
  {
    if i > 1 then 0 else [0x201, 0x203][i]
  }

  /** Plain sum of readings, folded from the back. */
  function Sum(xs: seq<u16>): nat
  {
    if |xs| == 0 then 0 else Sum(xs[..|xs| - 1]) + xs[|xs| - 1]
  }

  /** One sensor's state: the ring buffer `b[i]`, the write cursor `p[i]` and
      the filled count `q[i]`, which saturates at 64. Both cursors start at 0
      and move together until the buffer is full. */
  datatype Channel = Channel(buf: seq<u16>, p: u8, q: u8)
  {
    predicate Valid()
    {
      |buf| == Slots && q <= Slots && (q < Slots ==> p == q)
    }
  }

  /** `n` zero readings: the statically zeroed buffer. */
  function Zeros(n: nat): (z: seq<u16>)
    ensures |z| == n && forall j :: 0 <= j < n ==> z[j] == 0
  {
    if n == 0 then [] else Zeros(n - 1) + [0]
  }

  const Empty := Channel(Zeros(Slots), 0, 0)

  /** The reported average and the channel after the capture. */
  datatype Sampled = Sampled(avg: u16, next: Channel)

  /** The sampling part of `sensordata` for one channel: sum all 64 slots in
      16-bit arithmetic, store the new reading at `p & 63`, advance `p`, let
      `q` follow `p` until it reaches 64, and divide by `q`. */
  function Capture(c: Channel, sample: u16): (r: Sampled)
    requires c.Valid()
    ensures r.next.Valid()
    // the divisor is the new filled count: never zero, non-decreasing, pinned at 64
    ensures r.next.q == Min(c.q + 1, Slots) && r.next.q >= 1
    ensures r.next.p == (c.p + 1) % 0x100
    // exactly one slot changes: the one the old cursor designates
    ensures r.next.buf == c.buf[c.p % Slots := sample]
    // the average is over the slots as they were before the new reading
    ensures r.avg == U16(Sum(c.buf)) / r.next.q
  {
    var s := U16(Sum(c.buf));
    var p := U8(c.p + 1);
    var buf := c.buf[c.p % Slots := sample];
    // while filling, q == p, so `q = p` after the increment is q + 1
    var n: u8 := if c.q < Slots then c.q + 1 else c.q;
    assert c.q < Slots ==> n == p;
    DivBound(s, n);
    Sampled(s / n, Channel(buf, p, n))
  }

  /** Dividing by a positive count never exceeds the dividend. */
  lemma DivBound(x: nat, n: nat)
    requires n >= 1
    ensures 0 <= x / n <= x
  {
    var k := x / n;
    assert x == k * n + x % n;
    MulAtLeast(k, n);
  }

  lemma {:induction false} MulAtLeast(k: nat, n: nat)
    requires n >= 1
    ensures k <= k * n
  {
    if n > 1 {
      MulAtLeast(k, n - 1);
      assert k * n == k * (n - 1) + k;
    }
  }

  /** The summation loop of `sensordata` (`s += b[i][j]` with a uint16
      accumulator). */
  method SumSlots(buf: seq<u16>) returns (s: u16)
    requires |buf| == Slots
    ensures s == U16(Sum(buf))
  {
    s := 0;
    var j := 0;
    while j < Slots
      invariant 0 <= j <= Slots
      invariant s == U16(Sum(buf[..j]))
    {
      assert buf[..j + 1][..j] == buf[..j];
      U16Add(Sum(buf[..j]), buf[j]);
      s := U16(s + buf[j]);
      j := j + 1;
    }
    assert buf[..Slots] == buf;
  }

  /** Adding to a truncated sum truncates the same as adding first. */
  lemma U16Add(x: nat, y: nat)
    ensures U16(U16(x) + y) == U16(x + y)
  {
    var k := x / 0x1_0000;
    assert x == k * 0x1_0000 + U16(x);
    assert x + y == (U16(x) + y) + k * 0x1_0000;
  }

  /** The two sensors' channels. */
  datatype Registry = Registry(chans: seq<Channel>)
  {
    predicate Valid()
    {
      |chans| == Count && forall k :: 0 <= k < Count ==> chans[k].Valid()
    }
  }

  const Init := Registry([Empty, Empty])

  datatype DataResult = NoData | Data(value: u32, next: Registry)

  /** `sensordata(i, &v)`: nothing for an unregistered index; otherwise one
      capture on sensor `i`'s channel, converted by the application's
      `sensor`. */
  function SensorData(reg: Registry, i: u8, sample: u16, app: Build.App): (r: DataResult)
    requires reg.Valid()
    ensures r.NoData? <==> i >= Count
    ensures r.Data? ==> r.next.Valid()
    ensures r.Data? ==> r.next.chans[i] == Capture(reg.chans[i], sample).next
    ensures r.Data? ==> r.value == Build.Sensor(app, i, Capture(reg.chans[i], sample).avg)
    // only the addressed sensor's channel changes
    ensures r.Data? ==> forall k :: 0 <= k < Count && k != i ==> r.next.chans[k] == reg.chans[k]
  {
    if i > 1 then NoData
    else
      var cap := Capture(reg.chans[i], sample);
      Data(Build.Sensor(app, i, cap.avg), Registry(reg.chans[i := cap.next]))
  }
}
