/** Whole iBUS servo frames fed byte by byte to the receive handler: what the
    decoder stores and when it calls `update()`, and an encoder whose frames
    the decoder always accepts. */
module ServoFrames {
  import opened Bytes
  import Checksum
  import Control
  import Build
  import opened Serial
  import opened Trace

  /** The decoder is waiting for a sync marker in full duplex: the state
      after `initserial` and after every completed or abandoned frame. */
  predicate Idle(s: Link)
  {
    s.Valid() && !s.halfDuplex && s.cr2 == RxMode && s.n == ServoEnd
  }

  /** No sync marker `0x20 0x40` appears inside the frame after its header. */
  predicate NoInnerSync(f: seq<u8>)
  {
    forall k :: 2 <= k < |f| ==> !(f[k - 1] == SyncLo && f[k] == SyncHi)
  }

  /** A well-formed servo frame as it appears on the wire: length 0x20,
      command 0x40, 14 fields, checksum. */
  predicate Shaped(f: seq<u8>)
  {
    |f| == 2 + 2 * Channels + 2 && f[0] == SyncLo && f[1] == SyncHi && NoInnerSync(f)
  }

  /** `chv` after the first `j` fields of `body` were stored, each masked to
      12 bits. */
  function Stored(chv: seq<u16>, body: seq<u8>, j: nat): (r: seq<u16>)
    requires |chv| == Channels && j <= Channels && 2 * j <= |body|
    ensures |r| == Channels
    ensures forall i :: 0 <= i < Channels ==>
              r[i] == if i < j then Word(body[2 * i], body[2 * i + 1]) % 0x1000 else chv[i]
  {
    if j == 0 then chv
    else Stored(chv, body, j - 1)[j - 1 := Word(body[2 * j - 2], body[2 * j - 1]) % 0x1000]
  }

  /** The decoder after the header and `j` complete fields of a shaped
      frame: `2j` bytes counted, the pairs subtracted from the accumulator,
      the fields stored. */
  function AtPair(s: Link, f: seq<u8>, j: nat): (r: Link)
    requires Idle(s) && Shaped(f) && j <= Channels
    ensures r.Valid() && !r.halfDuplex && r.cr2 == RxMode
  {
    s.(a := f[2 * j], b := f[2 * j + 1], n := 2 * j,
       u := U16(0xFFFF - Checksum.ByteSum(f[..2 * j + 2])),
       chv := Stored(s.chv, f[2..], j))
  }

  /** The same after one more byte, the first of the next pair (or of the
      checksum when `j == 14`). */
  function InPair(s: Link, f: seq<u8>, j: nat): (r: Link)
    requires Idle(s) && Shaped(f) && j <= Channels
    ensures r.Valid() && !r.halfDuplex && r.cr2 == RxMode
  {
    AtPair(s, f, j).(a := f[2 * j + 1], b := f[2 * j + 2], n := 2 * j + 1)
  }

  /** Two more bytes add their sum. */
  lemma SumPair(f: seq<u8>, k: nat)
    requires 2 <= k <= |f|
    ensures Checksum.ByteSum(f[..k]) == Checksum.ByteSum(f[..k - 2]) + f[k - 2] + f[k - 1]
  {
    assert f[..k][..k - 1] == f[..k - 1];
    assert f[..k - 1][..k - 2] == f[..k - 2];
  }

  /** In full duplex, a byte that completes no sync marker and no pair is
      only counted. */
  lemma CountByte(r: Link, x: u8, sample: u16)
    requires r.Valid() && !r.halfDuplex && r.cr2 == RxMode
    requires !(r.b == SyncLo && x == SyncHi) && r.n < ServoEnd && r.n % 2 == 0
    ensures Step(r, Received(x, sample)).next == r.(a := r.b, b := x, n := r.n + 1)
  {
  }

  /** In full duplex, a byte that completes a field pair stores the field and
      subtracts the pair from the accumulator. */
  lemma StoreByte(r: Link, x: u8, sample: u16, i: nat)
    requires r.Valid() && !r.halfDuplex && r.cr2 == RxMode
    requires !(r.b == SyncLo && x == SyncHi) && i < Channels && r.n == 2 * i + 1
    ensures Step(r, Received(x, sample)).next
         == r.(a := r.b, b := x, n := r.n + 1, chv := r.chv[i := Word(r.b, x) % 0x1000],
               u := U16(r.u - (r.b + x)))
  {
    assert (r.n + 1) / 2 - 1 == i;
  }

  /** The first byte of a pair is only counted. */
  lemma FirstOfPair(s: Link, f: seq<u8>, j: nat, sample: u16)
    requires Idle(s) && Shaped(f) && j <= Channels
    ensures Step(AtPair(s, f, j), Received(f[2 * j + 2], sample)).next == InPair(s, f, j)
  {
    assert !(f[2 * j + 1] == SyncLo && f[2 * j + 2] == SyncHi);
    CountByte(AtPair(s, f, j), f[2 * j + 2], sample);
  }

  /** The second byte of a field pair stores the field and updates the
      accumulator. */
  lemma SecondOfPair(s: Link, f: seq<u8>, j: nat, sample: u16)
    requires Idle(s) && Shaped(f) && j < Channels
    ensures Step(InPair(s, f, j), Received(f[2 * j + 3], sample)).next == AtPair(s, f, j + 1)
  {
    var r := InPair(s, f, j);
    assert !(f[2 * j + 2] == SyncLo && f[2 * j + 3] == SyncHi);
    StoreByte(r, f[2 * j + 3], sample, j);
    AccumulatePair(f, j);
    StoredPair(s.chv, f, j);
  }

  /** The accumulator after one more pair. */
  lemma AccumulatePair(f: seq<u8>, j: nat)
    requires 2 * j + 4 <= |f|
    ensures U16(U16(0xFFFF - Checksum.ByteSum(f[..2 * j + 2])) - (f[2 * j + 2] as int + f[2 * j + 3]))
         == U16(0xFFFF - Checksum.ByteSum(f[..2 * j + 4]))
  {
    SumPair(f, 2 * j + 4);
    Checksum.AccumulatorStep(Checksum.ByteSum(f[..2 * j + 2]), f[2 * j + 2] as int + f[2 * j + 3]);
  }

  /** The fields after one more pair. */
  lemma StoredPair(chv: seq<u16>, f: seq<u8>, j: nat)
    requires |chv| == Channels && j < Channels && 2 * j + 4 <= |f|
    ensures Stored(chv, f[2..], j + 1) == Stored(chv, f[2..], j)[j := Word(f[2 * j + 2], f[2 * j + 3]) % 0x1000]
  {
    assert f[2..][2 * j] == f[2 * j + 2] && f[2..][2 * j + 1] == f[2 * j + 3];
  }

  /** The header `0x20 0x40` starts the frame: count, accumulator and
      position reset. */
  lemma ServoHeader(s: Link, f: seq<u8>, sample: u16)
    requires Idle(s) && Shaped(f)
    ensures Run(s, RxEvents(f[..2], sample)) == AtPair(s, f, 0)
  {
    var s1 := s.(a := s.b, b := f[0]);
    assert f[..0] == [];
    RunNext(s, f, 1, sample, s);
    assert Step(s, Received(f[0], sample)).next == s1;
    RunNext(s, f, 2, sample, s1);
    SumPair(f, 2);
  }

  /** One more byte moves `AtPair` to `InPair`. */
  lemma FirstHalf(s: Link, f: seq<u8>, sample: u16, j: nat)
    requires Idle(s) && Shaped(f) && j <= Channels
    requires Run(s, RxEvents(f[..2 * j + 2], sample)) == AtPair(s, f, j)
    ensures Run(s, RxEvents(f[..2 * j + 3], sample)) == InPair(s, f, j)
  {
    RunNext(s, f, 2 * j + 3, sample, AtPair(s, f, j));
    FirstOfPair(s, f, j, sample);
  }

  /** One more byte moves `InPair` to the next `AtPair`. */
  lemma SecondHalf(s: Link, f: seq<u8>, sample: u16, j: nat)
    requires Idle(s) && Shaped(f) && j < Channels
    requires Run(s, RxEvents(f[..2 * j + 3], sample)) == InPair(s, f, j)
    ensures Run(s, RxEvents(f[..2 * j + 4], sample)) == AtPair(s, f, j + 1)
  {
    RunNext(s, f, 2 * j + 4, sample, InPair(s, f, j));
    SecondOfPair(s, f, j, sample);
  }

  /** One more field pair moves `AtPair` on by one. */
  lemma PairStep(s: Link, f: seq<u8>, sample: u16, j: nat)
    requires Idle(s) && Shaped(f) && j < Channels
    requires Run(s, RxEvents(f[..2 * j + 2], sample)) == AtPair(s, f, j)
    ensures Run(s, RxEvents(f[..2 * j + 4], sample)) == AtPair(s, f, j + 1)
  {
    FirstHalf(s, f, sample, j);
    SecondHalf(s, f, sample, j);
  }

  /** After the header and `j` fields the decoder is in `AtPair`. */
  lemma {:induction false} ServoPrefix(s: Link, f: seq<u8>, sample: u16, j: nat)
    requires Idle(s) && Shaped(f) && j <= Channels
    ensures Run(s, RxEvents(f[..2 * j + 2], sample)) == AtPair(s, f, j)
  {
    if j == 0 {
      ServoHeader(s, f, sample);
    } else {
      var i := j - 1;
      ServoPrefix(s, f, sample, i);
      assert f[..2 * i + 2] == f[..2 * j];
      PairStep(s, f, sample, i);
      assert f[..2 * i + 4] == f[..2 * j + 2];
    }
  }

  /** The byte count, accumulator and fields before the final byte. */
  lemma BeforeLast(s: Link, f: seq<u8>, sample: u16)
    requires Idle(s) && Shaped(f)
    ensures Run(s, RxEvents(f[..31], sample)) == InPair(s, f, Channels)
  {
    ServoPrefix(s, f, sample, Channels);
    FirstHalf(s, f, sample, Channels);
  }

  /** The final byte compares the checksum word with the accumulator. */
  lemma LastByte(s: Link, f: seq<u8>, sample: u16)
    requires Idle(s) && Shaped(f)
    ensures var r := InPair(s, f, Channels).(a := f[30], b := f[31], n := ServoEnd);
      Step(InPair(s, f, Channels), Received(f[31], sample)).next
        == if Checksum.Sealed(f) then Accept(r) else r
  {
    assert !(f[30] == SyncLo && f[31] == SyncHi);
    assert f[..30] == f[..|f| - 2];
    Checksum.AccumulatorMatch(Checksum.ByteSum(f[..30]), Word(f[30], f[31]));
  }

  /** A whole shaped frame from an idle decoder: every field is stored (even
      when the checksum then fails), and the frame is accepted, with one call
      of `update()` on the new fields and a switch to half duplex, exactly
      when its checksum seals it. */
  lemma ServoFrame(s: Link, f: seq<u8>, sample: u16)
    requires Idle(s) && Shaped(f)
    ensures var r := Run(s, RxEvents(f, sample));
      var chv := Stored(s.chv, f[2..], Channels);
      && r.chv == chv && r.n == ServoEnd && r.cr2 == RxMode
      && r.reg == s.reg && r.tx == s.tx && r.txp == s.txp && r.txq == s.txq
      && (r.halfDuplex <==> Checksum.Sealed(f))
      && (Checksum.Sealed(f) ==>
            r.timer && r.m == 0 && r.u == 0xFFFF
            && r.calls == s.calls + [chv])
      && (!Checksum.Sealed(f) ==> Idle(r) && r.calls == s.calls)
  {
    BeforeLast(s, f, sample);
    RunNext(s, f, 32, sample, InPair(s, f, Channels));
    assert f[..32] == f;
    LastByte(s, f, sample);
  }

  /** A frame that does not start with the header is never accepted on its
      own: from an idle decoder, it leaves the decoder idle. */
  lemma {:induction false} IdleIgnores(s: Link, bs: seq<u8>, sample: u16)
    requires Idle(s)
    requires forall k :: 1 <= k < |bs| ==> !(bs[k - 1] == SyncLo && bs[k] == SyncHi)
    requires |bs| > 0 ==> !(s.b == SyncLo && bs[0] == SyncHi)
    ensures var r := Run(s, RxEvents(bs, sample));
      Idle(r) && r.(a := s.a, b := s.b) == s && r.b == (if |bs| > 0 then bs[|bs| - 1] else s.b)
  {
    if |bs| > 0 {
      IdleIgnores(s, bs[..|bs| - 1], sample);
      RunLast(s, bs, |bs|, sample);
      assert bs[..|bs|] == bs;
    }
  }

  /** The header and the fields of a servo frame for channel values `chv`. */
  function ServoBody(chv: seq<u16>): (body: seq<u8>)
    ensures |body| == 2 + 2 * |chv|
    ensures body[0] == SyncLo && body[1] == SyncHi
    ensures forall i :: 0 <= i < |chv| ==> body[2 + 2 * i] == Lo(chv[i]) && body[3 + 2 * i] == Hi(chv[i])
  {
    if |chv| == 0 then [SyncLo, SyncHi]
    else ServoBody(chv[..|chv| - 1]) + [Lo(chv[|chv| - 1]), Hi(chv[|chv| - 1])]
  }

  /** The frame a transmitter sends for channel values `chv`. */
  function EncodeServo(chv: seq<u16>): (f: seq<u8>)
    requires Control.Frame(chv)
    ensures Checksum.Sealed(f) && |f| == 32
    ensures f[..30] == ServoBody(chv)
  {
    var body := ServoBody(chv);
    var f := body + [Lo(Checksum.Seal(body)), Hi(Checksum.Seal(body))];
    assert f[..30] == body;
    f
  }

  /** Header and twelve-bit fields sum to at most 0x60 + 270 per field. */
  lemma {:induction false} BodySum(chv: seq<u16>)
    requires forall i :: 0 <= i < |chv| ==> chv[i] < 0x1000
    ensures Checksum.ByteSum(ServoBody(chv)) <= 0x60 + 270 * |chv|
  {
    var b := ServoBody(chv);
    if |chv| == 0 {
      SumPair(b, 2);
      assert b[..2] == b && b[..0] == [];
    } else {
      var last := chv[|chv| - 1];
      var prev := ServoBody(chv[..|chv| - 1]);
      BodySum(chv[..|chv| - 1]);
      SumPair(b, |b|);
      assert b[..|b|] == b && b[..|b| - 2] == prev;
      assert b[|b| - 1] == Hi(last) < 0x10;
    }
  }

  /** Every high byte of a twelve-bit field is below 0x10. */
  lemma HighByte(chv: seq<u16>, f: seq<u8>, i: nat)
    requires Control.Frame(chv) && i < Channels && |f| >= 30 && f[..30] == ServoBody(chv)
    ensures f[3 + 2 * i] < 0x10
  {
    assert f[3 + 2 * i] == ServoBody(chv)[3 + 2 * i];
    assert chv[i] < 0x1000;
  }

  /** The checksum of twelve-bit fields is at least 0xEE9F. */
  lemma HighChecksum(chv: seq<u16>)
    requires Control.Frame(chv)
    ensures Hi(Checksum.Seal(ServoBody(chv))) >= 0xEE
  {
    BodySum(chv);
  }

  /** With twelve-bit fields no sync marker can appear inside an encoded
      frame: each field's high byte is below 0x10, and the checksum's high
      byte is at least 0xEE. */
  lemma EncodedHasNoInnerSync(chv: seq<u16>)
    requires Control.Frame(chv)
    ensures Shaped(EncodeServo(chv))
  {
    var f := EncodeServo(chv);
    var body := ServoBody(chv);
    assert f[31] == Hi(Checksum.Seal(body));
    assert f[1] == body[1];
    HighChecksum(chv);
    forall k | 2 <= k < |f| ensures !(f[k - 1] == SyncLo && f[k] == SyncHi) {
      var i := (k - 2) / 2;
      if k == 2 {
      } else if k == 31 {
      } else if k == 2 * i + 2 {
        HighByte(chv, f, i - 1);
      } else {
        assert k == 3 + 2 * i;
        HighByte(chv, f, i);
      }
    }
  }

  lemma TwelveBits(x: int)
    requires 0 <= x < 0x1000
    ensures x % 0x1000 == x
  {
  }

  /** The fields of an encoded frame, stored with the decoder's 12-bit mask,
      are the encoded channel values. */
  lemma StoredEncoded(chv0: seq<u16>, chv: seq<u16>)
    requires |chv0| == Channels && Control.Frame(chv)
    ensures Stored(chv0, EncodeServo(chv)[2..], Channels) == chv
  {
    var f := EncodeServo(chv);
    var body := f[2..];
    var stored := Stored(chv0, body, Channels);
    forall i | 0 <= i < Channels ensures stored[i] == chv[i] {
      assert body[2 * i] == f[..30][2 + 2 * i] == Lo(chv[i]);
      assert body[2 * i + 1] == f[..30][3 + 2 * i] == Hi(chv[i]);
      WordOfBytes(chv[i]);
      var w := Word(body[2 * i], body[2 * i + 1]);
      assert w == chv[i] < 0x1000;
      assert stored[i] == w % 0x1000;
      TwelveBits(w);
    }
    assert |stored| == |chv|;
  }

  /** Round trip: an encoded frame received by an idle decoder delivers
      exactly the transmitted channel values to `update()`, which runs once. */
  lemma ServoRoundTrip(s: Link, chv: seq<u16>, sample: u16)
    requires Idle(s) && Control.Frame(chv)
    ensures var r := Run(s, RxEvents(EncodeServo(chv), sample));
      r.chv == chv && r.halfDuplex && r.timer
      && r.calls == s.calls + [chv]
  {
    EncodedHasNoInnerSync(chv);
    ServoFrame(s, EncodeServo(chv), sample);
    StoredEncoded(s.chv, chv);
  }

  /** After power-up the decoder waits for a sync marker, so the first
      encoded frame is accepted: `update()` runs once, on the zeroed statics
      of the linked application, with exactly the transmitted channels. */
  lemma FirstFrame(lesu: bool, chv: seq<u16>, sample: u16)
    requires Control.Frame(chv)
    ensures var r := Run(Init(lesu), RxEvents(EncodeServo(chv), sample));
      && r.halfDuplex && r.calls == [chv]
      && Build.Replay(r.app, r.calls) == Build.Update(Build.Boot(lesu), chv)
  {
    var s := Init(lesu);
    ServoRoundTrip(s, chv, sample);
    Build.ReplaySnoc(Build.Boot(lesu), [], chv);
    assert [] + [chv] == [chv];
  }
}
