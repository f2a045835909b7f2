/** The driver with its own transmit line wired to its receiver, in main-loop order. */
module UartLoopback {
  import opened MachineInts
  import opened Uart
  import opened UartTransmit

  datatype Link = Link(now: u64, tx: Tx, rx: Rx)

  /** One pass: tick, start_tx if idle and a byte is offered, get_tx_line, sample_rx. */
  function Pass(s: Link, period: u64, offer: Option<bv8>): (Link, Option<bv8>) {
    var now := Add64(s.now, 1);
    var started := if offer.Some? then TxStart(s.tx, now, offer.value) else s.tx;
    var tx := TxAdvance(started, now, period);
    var (rx, out) := RxSample(s.rx, now, period, TxLevel(tx));
    (Link(now, tx, rx), out)
  }

  /** Nothing on the line. */
  predicate Resting(s: Link) {
    s.tx.index == -1 && s.rx.index == -1 && s.rx.prev
  }

  /** The lowest m bits are those of b, the others zero. */
  predicate HasBits(byte: bv8, b: bv8, m: nat) {
    forall j: nat | j < 8 :: GetBit(byte, j) == (j < m && GetBit(b, j))
  }

  lemma TakeBit(byte: bv8, b: bv8, k: nat)
    requires 1 <= k <= 8 && HasBits(byte, b, k - 1)
    ensures HasBits(if GetBit(b, k - 1) then SetBit(byte, k - 1) else byte, b, k)
  {
    SetBitGet(byte, k - 1);
    var byte' := if GetBit(b, k - 1) then SetBit(byte, k - 1) else byte;
    forall j: nat | j < 8
      ensures GetBit(byte', j) == (j < k && GetBit(b, j))
    {
      assert GetBit(byte, j) == (j < k - 1 && GetBit(b, j));
      assert GetBit(SetBit(byte, k - 1), j) == (j == k - 1 || GetBit(byte, j));
    }
  }

  /** Both halves are e ticks into slot k of the frame of b, and the receiver has the bits of b
      sampled so far. */
  predicate Sending(s: Link, period: nat, b: bv8, k: nat, e: nat) {
    && k < 10 && e < period
    && s.tx == Tx(k, Sub64(s.now, e), b)
    && s.rx.index == k && s.rx.start == Sub64(s.now, e) && s.rx.prev == FrameBit(b, k)
    && HasBits(s.rx.byte, b, Sampled(period, k, e))
  }

  lemma OneMoreTick(now: u64, e: u64)
    requires e + 1 < TWO64
    ensures Sub64(Add64(now, 1), Sub64(now, e)) == e + 1
    ensures Sub64(Add64(now, 1), e + 1) == Sub64(now, e)
    ensures Sub64(now, now) == 0 && Sub64(now, 0) == now
  {
  }

  lemma RestingPass(s: Link, period: u64, offer: Option<bv8>)
    requires period >= 2 && Resting(s)
    ensures var (s', out) := Pass(s, period, offer);
            && out == None
            && (if offer.Some? then Sending(s', period, offer.value, 0, 0) else Resting(s'))
  {
  }

  lemma SendingPass(s: Link, period: u64, offer: Option<bv8>, b: bv8, k: nat, e: nat)
    requires period >= 2 && Sending(s, period, b, k, e) && e + 1 < period
    ensures Sending(Pass(s, period, offer).0, period, b, k, e + 1)
    ensures Pass(s, period, offer).1 == None
  {
    var now := Add64(s.now, 1);
    OneMoreTick(s.now, e);
    SampleInside(s.rx, now, period, FrameBit(b, k), e + 1);
    assert Pass(s, period, offer) == (Link(now, s.tx, RxSample(s.rx, now, period, FrameBit(b, k)).0), None);
    if 1 <= k <= 8 && e + 1 == period / 2 {
      TakeBit(s.rx.byte, b, k);
    }
  }

  lemma SlotPass(s: Link, period: u64, offer: Option<bv8>, b: bv8, k: nat)
    requires period >= 2 && Sending(s, period, b, k, period - 1)
    ensures k < 9 ==> Sending(Pass(s, period, offer).0, period, b, k + 1, 0)
    ensures k < 9 ==> Pass(s, period, offer).1 == None
    ensures k == 9 ==> Resting(Pass(s, period, offer).0) && Pass(s, period, offer).1 == Some(b)
  {
    var now, next := Add64(s.now, 1), if k < 9 then k + 1 else -1;
    OneMoreTick(s.now, period - 1);
    OneMoreTick(now, 0);
    var level := FrameBit(b, k + 1);
    SampleLast(s.rx, now, period, level);
    assert Pass(s, period, offer) == (Link(now, Tx(next, now, b), RxAdvance(s.rx.(prev := level), now).0),
                                      RxAdvance(s.rx.(prev := level), now).1);
    if k == 9 {
      SameBits(s.rx.byte, b);
    }
  }

  /** The link is between frames or inside one. */
  ghost predicate Lockstep(s: Link, period: u64) {
    Resting(s) || exists k: nat, e: nat :: Sending(s, period, s.tx.byte, k, e)
  }

  /** The byte accepted but not yet delivered. */
  function InFlight(s: Link): seq<bv8> {
    if s.tx.index == -1 then [] else [s.tx.byte]
  }

  /** Every pass keeps the two halves in step, and a byte comes out only as it leaves the line. */
  lemma PassKeepsLockstep(s: Link, period: u64, offer: Option<bv8>)
    requires period >= 2 && Lockstep(s, period)
    ensures var (s', out) := Pass(s, period, offer);
            var taken := if offer.Some? && s.tx.index == -1 then [offer.value] else [];
            && Lockstep(s', period)
            && InFlight(s) + taken == (if out.Some? then [out.value] else []) + InFlight(s')
  {
    if Resting(s) {
      RestingPass(s, period, offer);
    } else {
      var b := s.tx.byte;
      var k: nat, e: nat :| Sending(s, period, b, k, e);
      if e + 1 < period {
        SendingPass(s, period, offer, b, k, e);
      } else {
        SlotPass(s, period, offer, b, k);
      }
    }
  }

  lemma Regroup(done: seq<bv8>, held: seq<bv8>, taken: seq<bv8>, out: seq<bv8>, held': seq<bv8>)
    requires held + taken == out + held'
    ensures done + held + taken == done + out + held'
  {
    assert done + held + taken == done + (held + taken);
  }

  /** A run of the loop: offer(t) is the byte at the head of the queue in pass t, if any, state(t)
      the link before that pass, out(t) what sample_rx returns in it. */
  datatype Run = Run(period: u64, offer: nat -> Option<bv8>, state: nat -> Link, out: nat -> Option<bv8>) {

    predicate Follows(t: nat) {
      (state(t + 1), out(t)) == Pass(state(t), period, offer(t))
    }

    ghost predicate Valid() {
      forall t: nat :: Follows(t)
    }

    predicate Takes(t: nat) {
      offer(t).Some? && state(t).tx.index == -1
    }

    function Accepted(t: nat): seq<bv8> {
      if t == 0 then [] else Accepted(t - 1) + if Takes(t - 1) then [offer(t - 1).value] else []
    }

    function Delivered(t: nat): seq<bv8> {
      if t == 0 then [] else Delivered(t - 1) + if out(t - 1).Some? then [out(t - 1).value] else []
    }

    /** What comes out is at all times what went in, less the byte on the line: nothing is lost,
        changed, reordered or invented, whenever bytes are offered. */
    lemma {:induction false} Loopback(t: nat)
      requires Valid() && period >= 2 && Resting(state(0))
      ensures Lockstep(state(t), period)
      ensures Accepted(t) == Delivered(t) + InFlight(state(t))
      ensures Delivered(t) <= Accepted(t)
    {
      if t == 0 {
      } else {
        Loopback(t - 1);
        assert Follows(t - 1);
        PassKeepsLockstep(state(t - 1), period, offer(t - 1));
        Regroup(Delivered(t - 1), InFlight(state(t - 1)),
                if Takes(t - 1) then [offer(t - 1).value] else [],
                if out(t - 1).Some? then [out(t - 1).value] else [], InFlight(state(t)));
      }
    }

    /** In pass t the link is e ticks into slot k of the frame of b, after the given deliveries. */
    predicate InSlot(t: nat, b: bv8, k: nat, e: nat, done: seq<bv8>) {
      Sending(state(t), period, b, k, e) && Delivered(t) == done
    }

    lemma SlotTick(t: nat, b: bv8, k: nat, e: nat, done: seq<bv8>)
      requires Valid() && period >= 2 && e + 1 < period && InSlot(t, b, k, e, done)
      ensures InSlot(t + 1, b, k, e + 1, done)
    {
      assert Follows(t);
      SendingPass(state(t), period, offer(t), b, k, e);
    }

    lemma SlotEnd(t: nat, b: bv8, k: nat, done: seq<bv8>)
      requires Valid() && period >= 2 && k < 9 && InSlot(t, b, k, period - 1, done)
      ensures InSlot(t + 1, b, k + 1, 0, done)
    {
      assert Follows(t);
      SlotPass(state(t), period, offer(t), b, k);
    }

    lemma StartTick(t: nat, b: bv8)
      requires Valid() && period >= 2 && Resting(state(t)) && offer(t) == Some(b)
      ensures InSlot(t + 1, b, 0, 0, Delivered(t))
    {
      assert Follows(t);
      RestingPass(state(t), period, offer(t));
    }

    lemma {:induction false} SlotRun(t: nat, b: bv8, k: nat, e: nat, done: seq<bv8>)
      requires Valid() && period >= 2 && InSlot(t, b, k, 0, done) && e < period
      ensures InSlot(t + e, b, k, e, done)
    {
      if e == 0 {
      } else {
        SlotRun(t, b, k, e - 1, done);
        SlotTick(t + e - 1, b, k, e - 1, done);
      }
    }

    lemma LastTick(t: nat, b: bv8)
      requires Valid() && period >= 2 && Sending(state(t), period, b, 9, period - 1)
      ensures out(t) == Some(b) && Resting(state(t + 1))
    {
      assert Follows(t);
      SlotPass(state(t), period, offer(t), b, 9);
    }

    lemma LastSlot(t: nat, b: bv8, done: seq<bv8>, t': nat)
      requires Valid() && period >= 2 && InSlot(t, b, 9, 0, done) && t' == t + period
      ensures out(t' - 1) == Some(b) && Resting(state(t')) && Delivered(t') == done + [b]
    {
      SlotRun(t, b, 9, period - 1, done);
      LastTick(t' - 1, b);
    }

    /** For a frame accepted in pass n, slot k begins one pass later and k periods on. */
    lemma {:induction false} FrameInRun(n: nat, b: bv8, k: nat)
      requires Valid() && period >= 2 && Resting(state(n)) && offer(n) == Some(b) && k < 10
      ensures InSlot(Start(n + 1, period, k), b, k, 0, Delivered(n))
    {
      if k == 0 {
        StartTick(n, b);
      } else {
        FrameInRun(n, b, k - 1);
        SlotRun(Start(n + 1, period, k - 1), b, k - 1, period - 1, Delivered(n));
        SlotEnd(Start(n + 1, period, k) - 1, b, k - 1, Delivered(n));
      }
    }

    lemma FrameEnd(n: nat, b: bv8, t': nat)
      requires Valid() && period >= 2 && Resting(state(n)) && offer(n) == Some(b) && t' == n + 10 * period + 1
      ensures out(t' - 1) == Some(b) && Resting(state(t'))
      ensures Delivered(t') == Delivered(n) + [b]
    {
      FrameInRun(n, b, 9);
      StartIs(n + 1, period, 9);
      LastSlot(Start(n + 1, period, 9), b, Delivered(n), t');
    }

    /** The byte at the head of the queue in a pass. */
    function Offered(t: int): bv8 {
      if t >= 0 && offer(t).Some? then offer(t).value else 0
    }

    /** With a queue that is never empty a byte takes exactly 10 * period + 1 passes, the n-th one
        arriving in pass n * (10 * period + 1) - 1 and in no other. */
    lemma {:induction false} Throughput(n: nat)
      requires Valid() && period >= 2 && Resting(state(0))
      requires forall t: nat :: offer(t).Some?
      ensures n * (10 * period + 1) >= 0
      ensures var frame := 10 * period + 1;
              && Resting(state(n * frame))
              && Delivered(n * frame) == seq(n, i requires 0 <= i => Offered(i * frame))
              && (n > 0 ==> out(n * frame - 1) == Some(Offered((n - 1) * frame)))
    {
      var frame := 10 * period + 1;
      MulNonNegative(n, frame);
      if n == 0 {
      } else {
        Throughput(n - 1);
        var from := (n - 1) * frame;
        assert n * frame == from + frame;
        FrameEnd(from, Offered(from), n * frame);
      }
    }
  }

  // Periods below two ticks, which the constructor yields when the clock is slower than twice
  // the baud rate.

  /** With a period of one tick the middle of a data slot is never sampled. */
  predicate Blind(s: Link, k: nat) {
    && k < 10
    && s.tx.index == k && s.tx.start == s.now
    && s.rx.index == k && s.rx.start == s.now && s.rx.byte == 0
  }

  lemma BlindPass(s: Link, k: nat, offer: Option<bv8>)
    requires Blind(s, k)
    ensures var (s', out) := Pass(s, 1, offer);
            if k < 9 then Blind(s', k + 1) && out == None else out == Some(0)
  {
    OneMoreTick(s.now, 0);
  }

  lemma BlindStart(s: Link, b: bv8)
    requires Resting(s)
    ensures var (s', out) := Pass(s, 1, Some(b)); Blind(s', 0) && out == None
  {
    OneMoreTick(Add64(s.now, 1), 0);
  }

  /** A run at rest in which b is offered in the first pass and nothing after it. */
  ghost predicate Alone(r: Run, period: u64, b: bv8) {
    && r.Valid() && r.period == period && Resting(r.state(0))
    && r.offer(0) == Some(b) && forall t: nat | t > 0 :: r.offer(t) == None
  }

  lemma {:induction false} BlindRun(r: Run, b: bv8, k: nat)
    requires Alone(r, 1, b) && k < 10
    ensures Blind(r.state(k + 1), k)
    ensures r.Delivered(k + 1) == []
  {
    assert r.Follows(k);
    if k == 0 {
      BlindStart(r.state(0), b);
    } else {
      BlindRun(r, b, k - 1);
      BlindPass(r.state(k), k - 1, r.offer(k));
    }
  }

  /** With a period of no tick the start bit of a byte whose bits are all one is over before it is on
      the line, which therefore never falls. */
  predicate AllHigh(s: Link) {
    && s.rx.index == -1 && s.rx.prev
    && (s.tx.index == -1 || (1 <= s.tx.index <= 9 && s.tx.byte == 0xFF))
  }

  lemma AllHighPass(s: Link, offer: Option<bv8>)
    requires AllHigh(s) && (s.tx.index == -1 ==> offer == None || offer == Some(0xFF))
    ensures AllHigh(Pass(s, 0, offer).0) && Pass(s, 0, offer).1 == None
  {
  }

  lemma {:induction false} NeverFalls(r: Run, t: nat)
    requires Alone(r, 0, 0xFF)
    ensures AllHigh(r.state(t)) && r.Delivered(t) == []
  {
    if t == 0 {
    } else {
      NeverFalls(r, t - 1);
      assert r.Follows(t - 1);
      AllHighPass(r.state(t - 1), r.offer(t - 1));
    }
  }

  lemma {:induction false} DeliveredGrows(r: Run, m: nat, n: nat)
    requires m <= n
    ensures r.Delivered(m) <= r.Delivered(n)
  {
    if m == n {
    } else {
      DeliveredGrows(r, m, n - 1);
    }
  }

  /** In a run with too short a period 0xFF is not what arrives, at any time. */
  lemma TooFast(r: Run, period: u64, t: nat)
    requires Alone(r, period, 0xFF) && period < 2
    ensures r.Delivered(t) != [0xFF]
  {
    if period == 0 {
      NeverFalls(r, t);
    } else {
      BlindRun(r, 0xFF, 9);
      BlindPass(r.state(10), 9, r.offer(10));
      assert r.Follows(10);
      assert r.Delivered(11) == [0];
      if t <= 10 {
        DeliveredGrows(r, t, 10);
      } else {
        DeliveredGrows(r, 11, t);
      }
    }
  }

  /** After some number of passes the byte, and nothing else, has arrived. */
  ghost predicate Arrives(r: Run, b: bv8) {
    exists t: nat :: r.Delivered(t) == [b]
  }

  /** A frame carries every byte value exactly when a period is at least two ticks. */
  lemma SingleByte(runs: bv8 -> Run, period: u64)
    requires forall b: bv8 :: Alone(runs(b), period, b)
    ensures (forall b: bv8 :: Arrives(runs(b), b)) <==> period >= 2
  {
    if period >= 2 {
      forall b: bv8
        ensures Arrives(runs(b), b)
      {
        assert Alone(runs(b), period, b);
        runs(b).FrameEnd(0, b, 10 * period + 1);
        assert runs(b).Delivered(10 * period + 1) == [b];
      }
    } else {
      forall t: nat
        ensures runs(0xFF).Delivered(t) != [0xFF]
      {
        TooFast(runs(0xFF), period, t);
      }
      assert !Arrives(runs(0xFF), 0xFF);
    }
  }

  // Every link and every offers have a run.

  function RunFrom(start: Link, period: u64, offer: nat -> Option<bv8>): Run {
    var step := (s: Link, t: nat) => Pass(s, period, offer(t)).0;
    Run(period, offer, (t: nat) => Iterate(step, start, t),
        (t: nat) => Pass(Iterate(step, start, t), period, offer(t)).1)
  }

  lemma RunFollows(start: Link, period: u64, offer: nat -> Option<bv8>, t: nat)
    ensures RunFrom(start, period, offer).Follows(t)
  {
    IterateNext((s: Link, t: nat) => Pass(s, period, offer(t)).0, start, t);
  }

  lemma RunExists(start: Link, period: u64, offer: nat -> Option<bv8>)
    ensures RunFrom(start, period, offer).Valid() && RunFrom(start, period, offer).state(0) == start
  {
    forall t: nat
      ensures RunFrom(start, period, offer).Follows(t)
    {
      RunFollows(start, period, offer, t);
    }
  }
}
