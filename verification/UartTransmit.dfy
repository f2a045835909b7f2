/** What the transmitter puts on the line over a whole frame. */
module UartTransmit {
  import opened MachineInts
  import opened Uart

  /** Element k of the frame of b: start bit, eight data bits lowest first, then high. */
  predicate FrameBit(b: bv8, k: nat) {
    if k == 0 then false
    else if k <= 8 then GetBit(b, k - 1)
    else true
  }

  /** The elements in the driver's own terms. */
  lemma FrameIs(b: bv8, k: nat)
    ensures FrameBit(b, k) == if k == 0 then false else if k < 9 then (b >> (k - 1)) & 1 == 1 else true
  {
    if 0 < k < 9 {
      Shifts(b, k - 1);
    }
  }

  /** The ideal line of one frame sent with the given period, high once the frame is over. */
  predicate Wave(b: bv8, period: nat, d: nat)
    requires period > 0
  {
    FrameBit(b, d / period)
  }

  /** The transmitter after get_tx_line was called once at each of the offsets 0 to d. */
  function TxAt(tx: Tx, now: int, period: u64, d: nat): Tx {
    TxAdvance(if d == 0 then tx else TxAt(tx, now, period, d - 1), Add64(now, d), period)
  }

  /** Where slot k begins, for a frame that begins at t0. */
  function Start(t0: nat, period: nat, k: nat): (s: nat)
    ensures s >= t0
  {
    if k == 0 then t0 else Start(t0, period, k - 1) + period
  }

  lemma {:induction false} StartIs(t0: nat, period: nat, k: nat)
    ensures Start(t0, period, k) == t0 + k * period
  {
    if k == 0 {
    } else {
      StartIs(t0, period, k - 1);
      assert k * period == (k - 1) * period + period;
    }
  }

  /** The slot a tick lies in, and how far. */
  lemma SlotOf(t0: nat, period: nat, d: nat) returns (k: nat, e: nat)
    requires period >= 1
    ensures t0 + d == Start(t0, period, k) + e && e < period && k == d / period
    ensures k < 10 <==> d < 10 * period
  {
    k, e := d / period, d % period;
    StartIs(t0, period, k);
    Quotient(d, period);
    if k < 10 {
      MulNonNegative(9 - k, period);
      assert (9 - k) * period == 9 * period - k * period;
    } else {
      MulNonNegative(k - 10, period);
      assert (k - 10) * period == k * period - 10 * period;
    }
  }

  lemma SlotOrder(t0: nat, period: nat, k: nat, e: nat, k': nat, e': nat)
    requires e < period && e' < period && Start(t0, period, k') + e' <= Start(t0, period, k) + e
    ensures k' < k || (k' == k && e' <= e)
  {
    StartIs(t0, period, k);
    StartIs(t0, period, k');
    assert k' * period == k * period + period * (k' - k);
    if k' > k {
      MulAtLeast(period, k' - k);
    }
  }

  /** The state of the transmitter e ticks into slot k, whatever the counter started from. */
  lemma {:induction false} TxInSlot(tx: Tx, now: int, period: u64, b: bv8, k: nat, e: nat)
    requires period >= 1 && tx == Tx(0, Add64(now, 0), b)
    requires k < 10 && e < period
    ensures TxAt(tx, now, period, Start(0, period, k) + e) == Tx(k, Add64(now, Start(0, period, k)), b)
    decreases k, e
  {
    var s := Start(0, period, k);
    Elapsed(now, s, e);
    if e > 0 {
      TxInSlot(tx, now, period, b, k, e - 1);
    } else if k > 0 {
      TxInSlot(tx, now, period, b, k - 1, period - 1);
      Elapsed(now, s - period, period);
    }
  }

  lemma {:induction false} TxDone(tx: Tx, now: int, period: u64, b: bv8, d: nat)
    requires period >= 1 && tx == Tx(0, Add64(now, 0), b)
    requires d >= 10 * period
    ensures TxAt(tx, now, period, d).index == -1
  {
    if d == 10 * period {
      TxInSlot(tx, now, period, b, 9, period - 1);
      StartIs(0, period, 9);
      Elapsed(now, 9 * period, period);
    } else {
      TxDone(tx, now, period, b, d - 1);
    }
  }

  lemma LevelInSlot(sent: Tx, start: u64, b: bv8, period: nat, d: nat, k: nat)
    requires k < 10 && sent == Tx(k, start, b) && period >= 1 && k == d / period
    ensures TxLevel(sent) == Wave(b, period, d)
  {
  }

  lemma LevelAfter(sent: Tx, b: bv8, period: nat, d: nat)
    requires sent.index == -1 && period >= 1 && d / period >= 10
    ensures TxLevel(sent) == Wave(b, period, d)
  {
  }

  /** An accepted byte is sent as its frame, one element per period, and the line is high and
      the transmitter idle from offset 10 * period on. The counter may wrap in between. */
  lemma Waveform(tx: Tx, now: u64, period: u64, b: bv8, d: nat)
    requires period >= 1 && tx.index == -1
    ensures var sent := TxAt(TxStart(tx, now, b), now, period, d);
            && TxLevel(sent) == Wave(b, period, d)
            && (sent.index == -1 <==> d >= 10 * period)
  {
    var k, e := SlotOf(0, period, d);
    var started := TxStart(tx, now, b);
    var sent := TxAt(started, now, period, d);
    if k < 10 {
      TxInSlot(started, now, period, b, k, e);
      LevelInSlot(sent, Add64(now, Start(0, period, k)), b, period, d, k);
    } else {
      TxDone(started, now, period, b, d);
      LevelAfter(sent, b, period, d);
    }
  }
}
