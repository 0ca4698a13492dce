/** The iBUS checksum rule shared by servo frames, sensor requests and sensor
    responses: the last two bytes of a frame hold, little-endian, the 16-bit
    value `0xFFFF - (sum of all preceding bytes)`. */
module Checksum {
  import opened Bytes

  /** Plain sum of a byte sequence, folded from the back so that extending a
      prefix by one byte adds that byte. */
  function ByteSum(bs: seq<u8>): nat
  {
    if |bs| == 0 then 0 else ByteSum(bs[..|bs| - 1]) + bs[|bs| - 1]
  }

  /** A frame is sealed when its preceding bytes plus its trailing word sum to
      0xFFFF modulo 2^16. */
  predicate Sealed(f: seq<u8>)
  {
    |f| >= 2 && (ByteSum(f[..|f| - 2]) + Word(f[|f| - 2], f[|f| - 1])) % 0x1_0000 == 0xFFFF
  }

  /** Sums of short literal frames, as the encoders need them. */
  lemma ByteSum4(w: u8, x: u8, y: u8, z: u8)
    ensures ByteSum([w, x, y, z]) == w + x + y + z
  {
    var s4: seq<u8> := [w, x, y, z];
    var s3: seq<u8> := [w, x, y];
    var s2: seq<u8> := [w, x];
    var s1: seq<u8> := [w];
    assert s4[..3] == s3 && s3[..2] == s2 && s2[..1] == s1 && s1[..0] == [];
    assert ByteSum(s1) == w;
    assert ByteSum(s2) == w + x;
    assert ByteSum(s3) == w + x + y;
  }

  lemma ByteSum6(w: u8, x: u8, y: u8, z: u8, v: u8, t: u8)
    ensures ByteSum([w, x, y, z, v, t]) == w + x + y + z + v + t
  {
    var s6: seq<u8> := [w, x, y, z, v, t];
    var s5: seq<u8> := [w, x, y, z, v];
    var s4: seq<u8> := [w, x, y, z];
    assert s6[..5] == s5 && s5[..4] == s4;
    ByteSum4(w, x, y, z);
    assert ByteSum(s5) == w + x + y + z + v;
  }

  /** The trailing word that seals `body`. */
  function Seal(body: seq<u8>): (ck: u16)
    ensures Sealed(body + [Lo(ck), Hi(ck)])
    ensures forall w: u16 :: Sealed(body + [Lo(w), Hi(w)]) <==> w == ck
  {
    forall w: u16 ensures Sealed(body + [Lo(w), Hi(w)]) <==> w == U16(0xFFFF - ByteSum(body)) {
      SealedBy(body, w);
    }
    SealedBy(body, U16(0xFFFF - ByteSum(body)));
    U16(0xFFFF - ByteSum(body))
  }

  /** Word `w` seals `body` exactly when it is `0xFFFF - sum` modulo 2^16. */
  lemma SealedBy(body: seq<u8>, w: u16)
    ensures Sealed(body + [Lo(w), Hi(w)]) <==> w == U16(0xFFFF - ByteSum(body))
  {
    var g := body + [Lo(w), Hi(w)];
    var sum := ByteSum(body);
    assert g[..|g| - 2] == body;
    assert Word(g[|g| - 2], g[|g| - 1]) == w by {
      WordOfBytes(w);
    }
    assert Sealed(g) <==> (sum + w) % 0x1_0000 == 0xFFFF;
    AccumulatorMatch(sum, w);
  }

  /** The decoders keep `u = 0xFFFF - sum` modulo 2^16 and compare it with the
      received word; that comparison is exactly the sealing rule. */
  lemma AccumulatorMatch(s: nat, w: u16)
    ensures U16(0xFFFF - s) == w <==> (s + w) % 0x1_0000 == 0xFFFF
  {
    var q := s / 0x1_0000;
    var r := s % 0x1_0000;
    assert s == q * 0x1_0000 + r;
    assert U16(0xFFFF - s) == U16(0xFFFF - r) by {
      assert 0xFFFF - s == (0xFFFF - r) + (-q) * 0x1_0000;
    }
    assert (s + w) % 0x1_0000 == (r + w) % 0x1_0000 by {
      assert s + w == (r + w) + q * 0x1_0000;
    }
  }

  /** Subtracting one more pair of bytes keeps the running accumulator equal
      to `0xFFFF - sum` modulo 2^16. */
  lemma AccumulatorStep(s: nat, x: nat)
    ensures U16(U16(0xFFFF - s) - x) == U16(0xFFFF - (s + x))
  {
    var k := (0xFFFF - s) / 0x1_0000;
    assert 0xFFFF - s == k * 0x1_0000 + U16(0xFFFF - s);
    assert U16(0xFFFF - s) - x == (0xFFFF - (s + x)) - k * 0x1_0000;
  }
}
