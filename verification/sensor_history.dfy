/** What `sensordata` reports, stated against the history of readings a
    sensor has captured: the k-th call reports the floor mean of the readings
    before it, over at most the last 64 of them. */
module SensorHistory {
  import opened Bytes
  import opened Sensor
  import Build

  /** The last (at most) 64 readings of a history. */
  function Window(h: seq<u16>): (w: seq<u16>)
    ensures |w| == Min(|h|, Slots)
  {
    if |h| <= Slots then h else h[|h| - Slots..]
  }

  /** A channel holds history `h`: the cursors count the captures, the ring
      buffer holds the last 64 readings at their slots, unused slots are zero,
      and the buffer's sum is the window's sum. */
  ghost predicate Holds(c: Channel, h: seq<u16>)
  {
    && c.Valid()
    && c.p == |h| % 0x100
    && c.q == Min(|h|, Slots)
    && (forall t :: 0 <= t < |h| && |h| - Slots <= t ==> c.buf[t % Slots] == h[t])
    && (forall j :: |h| <= j < Slots ==> c.buf[j] == 0)
    && Sum(c.buf) == Sum(Window(h))
  }

  lemma {:induction false} SumZeros(n: nat)
    ensures Sum(Zeros(n)) == 0
  {
    if n > 0 {
      assert Zeros(n)[..n - 1] == Zeros(n - 1);
      SumZeros(n - 1);
    }
  }

  lemma {:induction false} SumCons(x: u16, xs: seq<u16>)
    ensures Sum([x] + xs) == x + Sum(xs)
    decreases |xs|
  {
    if |xs| > 0 {
      assert ([x] + xs)[..|xs|] == [x] + xs[..|xs| - 1];
      SumCons(x, xs[..|xs| - 1]);
    }
  }

  /** Overwriting one slot changes the sum by the difference. */
  lemma {:induction false} SumUpdate(xs: seq<u16>, j: nat, x: u16)
    requires j < |xs|
    ensures Sum(xs[j := x]) == Sum(xs) - xs[j] + x
    decreases |xs|
  {
    var n := |xs|;
    if j == n - 1 {
      assert xs[j := x][..n - 1] == xs[..n - 1];
    } else {
      assert xs[j := x][..n - 1] == xs[..n - 1][j := x];
      SumUpdate(xs[..n - 1], j, x);
    }
  }

  /** Sliding the window by one reading. */
  lemma WindowStep(h: seq<u16>, x: u16)
    ensures Sum(Window(h + [x])) == Sum(Window(h)) - (if |h| >= Slots then h[|h| - Slots] else 0) + x
  {
    if |h| < Slots {
      assert (h + [x])[..|h|] == h;
      assert Window(h + [x]) == h + [x];
    } else {
      WindowSlide(h, x);
    }
  }

  /** Once full, the window drops its oldest reading as it takes the new one. */
  lemma WindowSlide(h: seq<u16>, x: u16)
    requires |h| >= Slots
    ensures Sum(Window(h + [x])) == Sum(Window(h)) - h[|h| - Slots] + x
  {
    var k := |h|;
    var h' := h + [x];
    assert h'[..k] == h;
    assert Window(h) == [h[k - Slots]] + h[k - Slots + 1..];
    assert Window(h') == h[k - Slots + 1..] + [x];
    assert (h[k - Slots + 1..] + [x])[..Slots - 1] == h[k - Slots + 1..];
    SumCons(h[k - Slots], h[k - Slots + 1..]);
  }

  lemma Mod256Mod64(k: nat)
    ensures (k % 0x100) % Slots == k % Slots
  {
    var a := k / 0x100;
    assert k == a * 0x100 + k % 0x100;
    assert k == (a * 4) * Slots + k % 0x100;
  }

  lemma EmptyHolds()
    ensures Holds(Empty, [])
  {
    SumZeros(Slots);
  }

  lemma CursorStep(k: nat)
    ensures (k % 0x100 + 1) % 0x100 == (k + 1) % 0x100
  {
    var a := k / 0x100;
    assert k == a * 0x100 + k % 0x100;
    assert k + 1 == a * 0x100 + (k % 0x100 + 1);
  }

  lemma DistinctSlots(t: nat, k: nat)
    requires t < k < t + Slots
    ensures t % Slots != k % Slots
  {
    var a, b := t / Slots, k / Slots;
    assert t == a * Slots + t % Slots && k == b * Slots + k % Slots;
  }

  /** Writing reading `x` at slot `|h| % 64` keeps the last 64 readings of
      `h + [x]` at their slots and the unused slots zero. */
  lemma {:induction false} SlotsAfterWrite(buf: seq<u16>, h: seq<u16>, x: u16)
    requires |buf| == Slots
    requires forall t :: 0 <= t < |h| && |h| - Slots <= t ==> buf[t % Slots] == h[t]
    requires forall j :: |h| <= j < Slots ==> buf[j] == 0
    ensures var buf' := buf[|h| % Slots := x]; var h' := h + [x];
      && (forall t :: 0 <= t < |h'| && |h'| - Slots <= t ==> buf'[t % Slots] == h'[t])
      && (forall j :: |h'| <= j < Slots ==> buf'[j] == 0)
  {
    var k := |h|;
    var buf' := buf[k % Slots := x];
    var h' := h + [x];
    forall t | 0 <= t < |h'| && |h'| - Slots <= t
      ensures buf'[t % Slots] == h'[t]
    {
      if t < k {
        DistinctSlots(t, k);
      }
    }
  }

  /** The slot about to be overwritten holds the reading that leaves the
      window (or zero while the buffer fills). */
  lemma {:induction false} LeavingSlot(buf: seq<u16>, h: seq<u16>)
    requires |buf| == Slots
    requires forall t :: 0 <= t < |h| && |h| - Slots <= t ==> buf[t % Slots] == h[t]
    requires forall j :: |h| <= j < Slots ==> buf[j] == 0
    ensures buf[|h| % Slots] == if |h| >= Slots then h[|h| - Slots] else 0
  {
    var k := |h|;
    if k >= Slots {
      assert (k - Slots) % Slots == k % Slots;
      assert buf[(k - Slots) % Slots] == h[k - Slots];
    } else {
      assert k % Slots == k;
    }
  }

  /** One capture extends the history by the new reading, and reports the
      floor mean of the window as it was before the reading. */
  lemma {:induction false} CaptureHolds(c: Channel, h: seq<u16>, x: u16)
    requires Holds(c, h)
    ensures Holds(Capture(c, x).next, h + [x])
    ensures Capture(c, x).avg == U16(Sum(Window(h))) / Min(|h| + 1, Slots)
  {
    var k := |h|;
    var h' := h + [x];
    var c' := Capture(c, x).next;
    Mod256Mod64(k);
    assert c'.buf == c.buf[k % Slots := x];
    CursorStep(k);
    assert c'.p == |h'| % 0x100;
    assert c'.q == Min(|h'|, Slots);
    SlotsAfterWrite(c.buf, h, x);
    CaptureSum(c, h, x);
  }

  /** The buffer's sum follows the window's sum across a capture. */
  lemma CaptureSum(c: Channel, h: seq<u16>, x: u16)
    requires Holds(c, h)
    ensures Sum(Capture(c, x).next.buf) == Sum(Window(h + [x]))
  {
    var k := |h|;
    Mod256Mod64(k);
    assert Capture(c, x).next.buf == c.buf[k % Slots := x];
    LeavingSlot(c.buf, h);
    SumUpdate(c.buf, k % Slots, x);
    WindowStep(h, x);
  }

  /** The channel after capturing the readings of `h` in order. */
  function Replay(h: seq<u16>): (c: Channel)
    ensures c.Valid()
  {
    if |h| == 0 then Empty else Capture(Replay(h[..|h| - 1]), h[|h| - 1]).next
  }

  lemma {:induction false} ReplayHolds(h: seq<u16>)
    ensures Holds(Replay(h), h)
  {
    if |h| == 0 {
      EmptyHolds();
    } else {
      var h0 := h[..|h| - 1];
      ReplayHolds(h0);
      assert h0 + [h[|h| - 1]] == h;
      CaptureHolds(Replay(h0), h0, h[|h| - 1]);
    }
  }

  /** The average the last call of `h` reports: the call that captures
      `h[|h| - 1]` after all earlier readings. */
  function Reported(h: seq<u16>): u16
    requires |h| >= 1
  {
    Capture(Replay(h[..|h| - 1]), h[|h| - 1]).avg
  }

  /** The k-th call reports the 16-bit sum of the (at most 64) readings
      before it, divided by min(k, 64): the new reading is never included,
      and during warm-up the divisor counts it while the sum does not. */
  lemma ReportedAverage(h: seq<u16>)
    requires |h| >= 1
    ensures Reported(h) == U16(Sum(Window(h[..|h| - 1]))) / Min(|h|, Slots)
  {
    ReplayHolds(h[..|h| - 1]);
    CaptureHolds(Replay(h[..|h| - 1]), h[..|h| - 1], h[|h| - 1]);
  }

  /** The first call reports an average of zero. */
  lemma FirstReport(x: u16)
    ensures Reported([x]) == 0
  {
    ReportedAverage([x]);
    assert [x][..0] == [];
  }

  /** Readings of a right-aligned 10-bit ADC never make the 16-bit sum wrap. */
  lemma {:induction false} TenBitSum(w: seq<u16>)
    requires forall t :: 0 <= t < |w| ==> w[t] <= 1023
    ensures Sum(w) <= 1023 * |w|
  {
    if |w| > 0 {
      TenBitSum(w[..|w| - 1]);
    }
  }

  /** Once 64 readings have been captured, each call with 10-bit readings
      reports exactly the floor mean of the previous 64 readings. */
  lemma SteadyMean(h: seq<u16>)
    requires |h| > Slots
    requires forall t :: 0 <= t < |h| ==> h[t] <= 1023
    ensures Reported(h) == Sum(h[|h| - 1 - Slots..|h| - 1]) / Slots
  {
    ReportedAverage(h);
    var w := Window(h[..|h| - 1]);
    assert w == h[|h| - 1 - Slots..|h| - 1];
    TenBitSum(w);
  }

  /** The first Value reply of the temperature sensor: the reported average
      is 0, below the TMP36 offset, so `sensor` wraps in uint32 and `send2`
      transmits the low word 0xFF9C, whichever application is linked. */
  lemma FirstTemperature(app: Build.App, x: u16)
    ensures U16(Build.Sensor(app, 0, Reported([x]))) == 0xFF9C
  {
    FirstReport(x);
  }
}
