/** Sequences of hardware events and what running them does: the helpers
    every whole-exchange property is built from. */
module Trace {
  import opened Bytes
  import opened Serial

  /** The receive events of a byte string, all carrying the same ADC reading. */
  function RxEvents(bs: seq<u8>, sample: u16): (evs: seq<Event>)
    ensures |evs| == |bs|
  {
    if |bs| == 0 then [] else RxEvents(bs[..|bs| - 1], sample) + [Received(bs[|bs| - 1], sample)]
  }

  /** One more event runs one more step. */
  lemma RunSnoc(s: Link, evs: seq<Event>, e: Event)
    requires s.Valid()
    ensures Run(s, evs + [e]) == Step(Run(s, evs), e).next
    ensures Wire(s, evs + [e]) == Wire(s, evs) + Step(Run(s, evs), e).sent
  {
    assert (evs + [e])[..|evs|] == evs;
  }

  /** Running two event sequences back to back is running their
      concatenation: the state reached by the first is where the second
      starts. */
  lemma {:induction false} RunAppend(s: Link, a: seq<Event>, b: seq<Event>)
    requires s.Valid()
    ensures Run(s, a + b) == Run(Run(s, a), b)
    decreases |b|
  {
    if |b| == 0 {
      assert a + b == a;
    } else {
      var b', e := b[..|b| - 1], b[|b| - 1];
      RunAppend(s, a, b');
      assert b == b' + [e];
      assert a + b == (a + b') + [e];
      RunAlike(s, a + b', Run(s, a), b', e);
    }
  }

  /** Runs that reach the same state stay together for one more event. */
  lemma RunAlike(s1: Link, x: seq<Event>, s2: Link, y: seq<Event>, e: Event)
    requires s1.Valid() && s2.Valid() && Run(s1, x) == Run(s2, y)
    ensures Run(s1, x + [e]) == Run(s2, y + [e])
  {
    RunSnoc(s1, x, e);
    RunSnoc(s2, y, e);
  }

  /** Receiving one more byte runs the receive handler once more. */
  lemma RunLast(s: Link, f: seq<u8>, k: nat, sample: u16)
    requires s.Valid() && 1 <= k <= |f|
    ensures Run(s, RxEvents(f[..k], sample))
         == Step(Run(s, RxEvents(f[..k - 1], sample)), Received(f[k - 1], sample)).next
  {
    assert f[..k][..k - 1] == f[..k - 1];
    assert RxEvents(f[..k], sample) == RxEvents(f[..k - 1], sample) + [Received(f[k - 1], sample)];
    RunSnoc(s, RxEvents(f[..k - 1], sample), Received(f[k - 1], sample));
  }

  /** The same, when the state before the byte is known. */
  lemma RunNext(s: Link, f: seq<u8>, k: nat, sample: u16, r: Link)
    requires s.Valid() && 1 <= k <= |f| && Run(s, RxEvents(f[..k - 1], sample)) == r
    ensures Run(s, RxEvents(f[..k], sample)) == Step(r, Received(f[k - 1], sample)).next
  {
    RunLast(s, f, k, sample);
  }

  /** The link after receiving `bs`, one handler run per byte. */
  function Feed(s: Link, bs: seq<u8>, sample: u16): (r: Link)
    requires s.Valid()
    ensures r.Valid()
  {
    if |bs| == 0 then s else Step(Feed(s, bs[..|bs| - 1], sample), Received(bs[|bs| - 1], sample)).next
  }

  /** Running the receive events of `bs` is feeding `bs`. */
  lemma {:induction false} FeedRun(s: Link, bs: seq<u8>, sample: u16)
    requires s.Valid()
    ensures Run(s, RxEvents(bs, sample)) == Feed(s, bs, sample)
  {
    if |bs| > 0 {
      FeedRun(s, bs[..|bs| - 1], sample);
      RunSnoc(s, RxEvents(bs[..|bs| - 1], sample), Received(bs[|bs| - 1], sample));
    }
  }

  /** Receiving bytes never puts anything on the wire. */
  lemma {:induction false} RxSilent(s: Link, bs: seq<u8>, sample: u16)
    requires s.Valid()
    ensures Wire(s, RxEvents(bs, sample)) == []
  {
    if |bs| > 0 {
      assert RxEvents(bs, sample)[..|bs| - 1] == RxEvents(bs[..|bs| - 1], sample);
      RxSilent(s, bs[..|bs| - 1], sample);
    }
  }

  /** `k` TX-ready interrupts in a row. */
  function Readies(k: nat): (evs: seq<Event>)
    ensures |evs| == k && forall j :: 0 <= j < k ==> evs[j] == Ready
  {
    if k == 0 then [] else Readies(k - 1) + [Ready]
  }

  /** One TX-empty interrupt while transmitting sends the next byte. */
  lemma SendByte(r: Link)
    requires r.Valid() && r.cr2 == TxMode
    ensures Step(r, Ready)
         == Out(r.(txp := r.txp + 1, cr2 := if r.txp + 1 == r.txq then DrainMode else TxMode), [r.tx[r.txp]])
  {
  }

  /** One more Ready event runs one more step. */
  lemma ReadyNext(r: Link, k: nat)
    requires r.Valid() && k > 0
    ensures Run(r, Readies(k)) == Step(Run(r, Readies(k - 1)), Ready).next
    ensures Wire(r, Readies(k)) == Wire(r, Readies(k - 1)) + Step(Run(r, Readies(k - 1)), Ready).sent
  {
    RunSnoc(r, Readies(k - 1), Ready);
  }

  /** `k` TX-ready interrupts run on `r`: the state they leave and the
      bytes they send. */
  function Pumped(r: Link, k: nat): (o: Out)
    requires r.Valid()
    ensures o.next.Valid() && |o.sent| <= k
  {
    if k == 0 then Out(r, [])
    else
      var p := Pumped(r, k - 1);
      var o := Step(p.next, Ready);
      Out(o.next, p.sent + o.sent)
  }

  /** Running `k` Ready events is pumping `k` times. */
  lemma {:induction false} PumpRun(r: Link, k: nat)
    requires r.Valid()
    ensures Run(r, Readies(k)) == Pumped(r, k).next
  {
    if k > 0 {
      PumpRun(r, k - 1);
      ReadyNext(r, k);
    }
  }

  lemma {:induction false} PumpWire(r: Link, k: nat)
    requires r.Valid()
    ensures Wire(r, Readies(k)) == Pumped(r, k).sent
  {
    if k > 0 {
      PumpWire(r, k - 1);
      PumpRun(r, k - 1);
      ReadyNext(r, k);
    }
  }

  /** The transmitter state after `k` Ready events, `k` at most the queued
      length. */
  function Sending(r: Link, k: nat): Link
    requires r.cr2 == TxMode && r.txp + k <= r.txq <= 8
  {
    r.(txp := r.txp + k, cr2 := if r.txp + k == r.txq then DrainMode else TxMode)
  }

  /** The `k`-th Ready event while transmitting sends byte `txp + k - 1`. */
  lemma SendNext(r: Link, k: nat)
    requires r.Valid() && r.cr2 == TxMode && 0 < k <= r.txq - r.txp
    ensures Step(Sending(r, k - 1), Ready) == Out(Sending(r, k), [r.tx[r.txp + k - 1]])
  {
    SendByte(Sending(r, k - 1));
  }

  /** The `k` bytes of `t` from position `i` on, in the order they are
      sent. */
  function Span(t: seq<u8>, i: nat, k: nat): seq<u8>
    requires i + k <= |t|
  {
    if k == 0 then [] else Span(t, i, k - 1) + [t[i + k - 1]]
  }

  /** From the front, the span is the prefix. */
  lemma {:induction false} SpanPrefix(t: seq<u8>, k: nat)
    requires k <= |t|
    ensures Span(t, 0, k) == t[..k]
  {
    if k > 0 {
      SpanPrefix(t, k - 1);
      assert t[..k] == t[..k - 1] + [t[k - 1]];
    }
  }

  /** Ready events while transmitting advance the cursor one byte each;
      after the last byte they wait for completion. */
  lemma {:induction false} DrainState(r: Link, k: nat)
    requires r.Valid() && r.cr2 == TxMode && k <= r.txq - r.txp
    ensures Pumped(r, k).next == Sending(r, k)
  {
    if k > 0 {
      DrainState(r, k - 1);
      SendNext(r, k);
    }
  }

  /** Meanwhile they put `tx[txp..]` on the wire in order. */
  lemma {:induction false} Drain(r: Link, k: nat)
    requires r.Valid() && r.cr2 == TxMode && k <= r.txq - r.txp
    ensures Pumped(r, k).sent == Span(r.tx, r.txp, k)
  {
    if k > 0 {
      Drain(r, k - 1);
      DrainState(r, k - 1);
      SendNext(r, k);
    }
  }

  /** Nothing happens on TX-ready interrupts while receiving: the interrupt
      is disabled. */
  lemma {:induction false} Quiet(r: Link, k: nat)
    requires r.Valid() && r.cr2 == RxMode
    ensures Pumped(r, k) == Out(r, [])
  {
    if k > 0 {
      Quiet(r, k - 1);
    }
  }

  /** The completion interrupt restores reception and sends nothing. */
  lemma Complete(r: Link, k: nat)
    requires r.Valid() && k > 0 && Pumped(r, k - 1).next.cr2 == DrainMode
    ensures Pumped(r, k) == Out(Pumped(r, k - 1).next.(cr2 := RxMode), Pumped(r, k - 1).sent)
  {
  }

  /** A queued frame goes out whole: `|w|` Ready events send it byte by
      byte, and one more completes the transmission and re-enables the
      receiver. */
  lemma Transmission(r: Link, w: seq<u8>)
    requires r.Valid() && r.cr2 == TxMode && r.txp == 0 && r.tx == w
    ensures Wire(r, Readies(|w| + 1)) == w
    ensures Run(r, Readies(|w| + 1)) == r.(txp := |w|, cr2 := RxMode)
  {
    Transmitted(r, w);
    PumpRun(r, |w| + 1);
    PumpWire(r, |w| + 1);
  }

  /** The same, for the pumped state and bytes. */
  lemma Transmitted(r: Link, w: seq<u8>)
    requires r.Valid() && r.cr2 == TxMode && r.txp == 0 && r.tx == w
    ensures Pumped(r, |w| + 1) == Out(r.(txp := |w|, cr2 := RxMode), w)
  {
    Sent(r, w);
    Complete(r, |w| + 1);
  }

  /** Before the completion interrupt: the whole frame is on the wire. */
  lemma Sent(r: Link, w: seq<u8>)
    requires r.Valid() && r.cr2 == TxMode && r.txp == 0 && r.tx == w
    ensures Pumped(r, |w|) == Out(Sending(r, |w|), w)
  {
    var n := |w|;
    Drain(r, n);
    DrainState(r, n);
    SpanPrefix(w, n);
    assert w[..n] == w;
  }

  /** A receiving link ignores any number of Ready events. */
  lemma Silence(r: Link, k: nat)
    requires r.Valid() && r.cr2 == RxMode
    ensures Run(r, Readies(k)) == r && Wire(r, Readies(k)) == []
  {
    Quiet(r, k);
    PumpRun(r, k);
    PumpWire(r, k);
  }

  /** The timeout only leaves full duplex behind, and a second timeout
      changes nothing: the one-shot timer is no longer counting. */
  lemma TimeoutIdempotent(s: Link)
    requires s.Valid() && s.timer
    ensures var r := Step(s, Timeout).next;
      && r == s.(halfDuplex := false, timer := false)
      && Step(r, Timeout) == Out(r, [])
  {
  }
}
