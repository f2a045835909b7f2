/** What the receiver decodes from an arbitrary line, one sample per tick. */
module UartReceive {
  import opened MachineInts
  import opened Uart
  import opened UartTransmit

  /** A receiver listening to a line from counter value now on: its state before each sample, and
      what sample_rx returns for it. */
  datatype Session = Session(now: int, period: u64, line: nat -> bool, state: nat -> Rx, out: nat -> Option<bv8>) {

    predicate Follows(t: nat) {
      (state(t + 1), out(t)) == RxSample(state(t), Add64(now, t), period, line(t))
    }

    /** Every state and every result is that of sample_rx. */
    ghost predicate Valid() {
      forall t: nat :: Follows(t)
    }

    predicate Idle(t: nat) {
      state(t).index == -1
    }

    /** The line falls at sample t. */
    predicate Falls(t: nat) {
      (if t == 0 then state(0).prev else line(t - 1)) && !line(t)
    }

    /** The sample in the middle of slot k of a frame that began at t0. */
    function Middle(t0: nat, k: nat): nat {
      Start(t0, period, k) + period / 2
    }

    /** The byte whose lowest m bits are the middles of slots 1 to m. */
    function Gathered(t0: nat, m: nat): bv8
      requires m <= 8
    {
      if m == 0 then 0
      else if line(Middle(t0, m)) then SetBit(Gathered(t0, m - 1), m - 1)
      else Gathered(t0, m - 1)
    }

    lemma PreviousLevel(t: nat)
      requires Valid()
      ensures state(t).prev == if t == 0 then state(0).prev else line(t - 1)
    {
      if t > 0 {
        assert Follows(t - 1);
      }
    }

    lemma {:induction false} GatheredBits(t0: nat, m: nat, j: nat)
      requires m <= 8 && j < 8
      ensures GetBit(Gathered(t0, m), j) == (j < m && line(Middle(t0, j + 1)))
    {
      if m == 0 {
      } else {
        GatheredBits(t0, m - 1, j);
        SetBitGet(Gathered(t0, m - 1), m - 1);
      }
    }

    /** Before sample t, e ticks into slot k, which began at sample s. */
    predicate Inside(t0: nat, k: nat, s: nat, e: nat, t: nat) {
      && k < 10 && 0 < e && t == s + e
      && state(t) == Rx(k, Add64(now, s), Gathered(t0, Sampled(period, k, e - 1)), line(t - 1))
    }

    /** One sample inside a slot: the middle of the start or the stop bit may abort the frame. */
    lemma Sample(t0: nat, k: nat, s: nat, e: nat, t: nat)
      requires Valid() && period >= 2 && 1 <= e < period
      requires Inside(t0, k, s, e, t) && s == Start(t0, period, k)
      ensures e == period / 2 && k == 0 && line(t) ==> Idle(t + 1)
      ensures e == period / 2 && k == 9 && !line(t) ==> Idle(t + 1)
      ensures !(e == period / 2 && ((k == 0 && line(t)) || (k == 9 && !line(t)))) ==>
                Inside(t0, k, s, e + 1, t + 1)
      ensures out(t) == None
    {
      assert Follows(t);
      Elapsed(now, s, e);
      SampleInside(state(t), Add64(now, t), period, line(t), e);
    }

    /** The last sample of a slot moves to the next slot, or delivers the byte. */
    lemma Boundary(t0: nat, k: nat, s: nat, t: nat)
      requires Valid() && period >= 2 && Inside(t0, k, s, period, t)
      ensures k < 9 ==> out(t) == None && Inside(t0, k + 1, t, 1, t + 1)
      ensures k == 9 ==> out(t) == Some(Gathered(t0, 8)) && Idle(t + 1)
    {
      assert Follows(t);
      Elapsed(now, s, period);
      SampleLast(state(t), Add64(now, t), period, line(t));
    }

    lemma Begin(t0: nat)
      requires Valid() && period >= 2 && Idle(t0) && Falls(t0)
      ensures out(t0) == None && Inside(t0, 0, t0, 1, t0 + 1)
    {
      assert Follows(t0);
      PreviousLevel(t0);
      Elapsed(now, t0, 0);
    }

    /** The checks a frame has passed e ticks into slot k. */
    predicate Passed(t0: nat, k: nat, e: nat) {
      && (k > 0 || e >= period / 2 ==> !line(Middle(t0, 0)))
      && (k == 9 && e >= period / 2 ==> line(Middle(t0, 9)))
    }

    lemma PassedBefore(t0: nat, k: nat, e: nat, k': nat, e': nat)
      requires Passed(t0, k, e) && k < 10 && (k' < k || (k' == k && e' <= e))
      ensures Passed(t0, k', e')
    {
    }

    lemma NotAborted(t0: nat, k: nat, s: nat, e: nat, t: nat)
      requires Valid() && period >= 2 && 1 <= e < period && Passed(t0, k, e)
      requires Inside(t0, k, s, e, t) && s == Start(t0, period, k)
      ensures Inside(t0, k, s, e + 1, t + 1) && out(t) == None
    {
      Sample(t0, k, s, e, t);
    }

    /** The state of a reception in progress, after the sample e ticks into slot k. */
    lemma {:induction false} InFrame(t0: nat, k: nat, e: nat, t: nat)
      requires Valid() && period >= 2 && Idle(t0) && Falls(t0)
      requires k < 10 && e < period && t == Start(t0, period, k) + e
      requires Passed(t0, k, e)
      ensures out(t) == None
      ensures Inside(t0, k, Start(t0, period, k), e + 1, t + 1)
      decreases k, e
    {
      var s := Start(t0, period, k);
      if e > 0 {
        PassedBefore(t0, k, e, k, e - 1);
        InFrame(t0, k, e - 1, t - 1);
        NotAborted(t0, k, s, e, t);
      } else if k > 0 {
        PassedBefore(t0, k, e, k - 1, period - 1);
        InFrame(t0, k - 1, period - 1, t - 1);
        Boundary(t0, k - 1, s - period, t);
      } else {
        Begin(t0);
      }
    }

    /** A frame that begins at t0 with a low start bit and a high stop bit. */
    predicate Frame(t0: nat) {
      Falls(t0) && !line(Middle(t0, 0)) && line(Middle(t0, 9))
    }

    predicate Quiet(i: nat, j: nat) {
      forall t: nat | i <= t < j :: out(t) == None
    }

    lemma FrameQuiet(t0: nat, k: nat, e: nat, t: nat)
      requires Valid() && period >= 2 && Idle(t0) && Falls(t0)
      requires k < 10 && e < period && t == Start(t0, period, k) + e
      requires Passed(t0, k, e)
      ensures Quiet(t0, t + 1)
    {
      forall u: nat | t0 <= u < t + 1
        ensures out(u) == None
      {
        var k', e' := SlotOf(t0, period, u - t0);
        SlotOrder(t0, period, k, e, k', e');
        PassedBefore(t0, k, e, k', e');
        InFrame(t0, k', e', u);
      }
    }

    /** A good frame is quiet until its last tick and then delivers its eight middles. */
    lemma FrameDelivers(t0: nat)
      requires Valid() && period >= 2 && Idle(t0) && Frame(t0)
      ensures var end := t0 + 10 * period;
              Quiet(t0, end) && out(end) == Some(Gathered(t0, 8)) && Idle(end + 1)
    {
      var s := Start(t0, period, 9);
      StartIs(t0, period, 9);
      InFrame(t0, 9, period - 1, s + period - 1);
      FrameQuiet(t0, 9, period - 1, s + period - 1);
      Boundary(t0, 9, s, s + period);
    }

    /** A start bit that is high in its middle aborts there: no byte, idle again. */
    lemma StartBitAborts(t0: nat)
      requires Valid() && period >= 2 && Idle(t0) && Falls(t0) && line(Middle(t0, 0))
      ensures Quiet(t0, Middle(t0, 0) + 1) && Idle(Middle(t0, 0) + 1)
    {
      var half := period / 2;
      InFrame(t0, 0, half - 1, t0 + half - 1);
      FrameQuiet(t0, 0, half - 1, t0 + half - 1);
      Sample(t0, 0, t0, half, t0 + half);
    }

    /** A stop bit that is low in its middle aborts there: no byte, idle again. */
    lemma StopBitAborts(t0: nat)
      requires Valid() && period >= 2 && Idle(t0) && Falls(t0) && !line(Middle(t0, 0)) && !line(Middle(t0, 9))
      ensures Quiet(t0, Middle(t0, 9) + 1) && Idle(Middle(t0, 9) + 1)
    {
      var s, half := Start(t0, period, 9), period / 2;
      InFrame(t0, 9, half - 1, s + half - 1);
      FrameQuiet(t0, 9, half - 1, s + half - 1);
      Sample(t0, 9, s, half, s + half);
    }

    /** A busy receiver is inside a frame that began on a falling edge seen while idle. */
    lemma {:induction false} Origin(t: nat) returns (t0: nat, k: nat, e: nat)
      requires Valid() && period >= 2 && Idle(0) && !Idle(t)
      ensures k < 10 && e < period && t == Start(t0, period, k) + e + 1
      ensures Idle(t0) && Falls(t0) && Passed(t0, k, e)
    {
      var s := t - 1;
      if Idle(s) {
        IdleSilent(s);
        t0, k, e := s, 0, 0;
      } else {
        t0, k, e := Origin(s);
        InFrame(t0, k, e, s - 1);
        k, e := Onward(t0, k, e, s);
      }
    }

    /** A frame that is not aborted by sample t goes on there. */
    lemma Onward(t0: nat, k: nat, e: nat, t: nat) returns (k': nat, e': nat)
      requires Valid() && period >= 2 && e < period && !Idle(t + 1) && Passed(t0, k, e)
      requires Inside(t0, k, Start(t0, period, k), e + 1, t)
      ensures k' < 10 && e' < period && t == Start(t0, period, k') + e' && Passed(t0, k', e')
    {
      if e + 1 < period {
        Sample(t0, k, Start(t0, period, k), e + 1, t);
        k', e' := k, e + 1;
      } else {
        Boundary(t0, k, Start(t0, period, k), t);
        k', e' := k + 1, 0;
      }
    }

    lemma IdleSilent(t: nat)
      requires Valid() && period >= 2 && Idle(t)
      ensures out(t) == None
      ensures !Falls(t) ==> Idle(t + 1)
    {
      assert Follows(t);
      PreviousLevel(t);
    }

    lemma DeliveryOrigin(t: nat)
      requires Valid() && period >= 2 && Idle(0) && out(t).Some?
      ensures t >= 10 * period && Idle(t - 10 * period) && Frame(t - 10 * period)
    {
      if Idle(t) {
        IdleSilent(t);
      } else {
        var t0, k, e := Origin(t);
        InFrame(t0, k, e, t - 1);
        if e + 1 < period {
          Sample(t0, k, Start(t0, period, k), e + 1, t);
        } else {
          Boundary(t0, k, Start(t0, period, k), t);
          StartIs(t0, period, 9);
        }
      }
    }

    /** When sample_rx delivers: exactly at the end of a good frame, whose falling edge was seen
        while idle ten periods before; bit j of the byte is the line in the middle of slot j + 1. */
    lemma Delivered(t: nat)
      requires Valid() && period >= 2 && Idle(0)
      ensures out(t).Some? <==> t >= 10 * period && Idle(t - 10 * period) && Frame(t - 10 * period)
      ensures out(t).Some? ==>
                forall j: nat | j < 8 :: GetBit(out(t).value, j) == line(Middle(t - 10 * period, j + 1))
    {
      if out(t).Some? {
        DeliveryOrigin(t);
      }
      if t >= 10 * period && Idle(t - 10 * period) && Frame(t - 10 * period) {
        FrameDelivers(t - 10 * period);
        forall j: nat | j < 8
          ensures GetBit(out(t).value, j) == line(Middle(t - 10 * period, j + 1))
        {
          GatheredBits(t - 10 * period, 8, j);
        }
      }
    }

    /** What the receiver delivers at samples i to n - 1, each byte with its sample. */
    function Log(i: nat, n: nat): seq<(nat, bv8)>
      decreases n - i
    {
      if i >= n then []
      else (if out(i).Some? then [(i, out(i).value)] else []) + Log(i + 1, n)
    }

    /** The reference decoder: it looks at the whole line, jumps from frame to frame and has no
        state but its position. A receiver that is idle before sample i is meant to agree. */
    function Decode(i: nat, n: nat): seq<(nat, bv8)>
      requires period >= 2
      decreases n - i
    {
      if i >= n then []
      else if !Falls(i) then Decode(i + 1, n)
      else if line(Middle(i, 0)) then Decode(Middle(i, 0) + 1, n)
      else if !line(Middle(i, 9)) then Decode(Middle(i, 9) + 1, n)
      else if i + 10 * period < n then [(i + 10 * period, Gathered(i, 8))] + Decode(i + 10 * period + 1, n)
      else []
    }

    lemma {:induction false} QuietLog(i: nat, j: nat, n: nat)
      requires i <= j && Quiet(i, j)
      ensures Log(i, n) == if j <= n then Log(j, n) else []
      decreases j - i
    {
      if i == j || i >= n {
      } else {
        assert out(i) == None;
        QuietLog(i + 1, j, n);
      }
    }

    /** The state machine computes the reference decoder, on every line and over any window. */
    lemma {:induction false} LogIsDecode(i: nat, n: nat)
      requires Valid() && period >= 2 && Idle(i)
      ensures Log(i, n) == Decode(i, n)
      decreases n - i
    {
      if i >= n {
      } else {
        if !Falls(i) {
          IdleSilent(i);
          LogAfter(i, i, n);
        } else if line(Middle(i, 0)) {
          StartBitAborts(i);
          LogAfter(i, Middle(i, 0), n);
        } else if !line(Middle(i, 9)) {
          StopBitAborts(i);
          LogAfter(i, Middle(i, 9), n);
        } else {
          FrameLog(i, n);
          if i + 10 * period < n {
            LogIsDecode(i + 10 * period + 1, n);
          }
        }
      }
    }

    lemma FrameLog(i: nat, n: nat)
      requires Valid() && period >= 2 && Idle(i) && Frame(i)
      ensures var end := i + 10 * period;
              && Log(i, n) == (if end < n then [(end, Gathered(i, 8))] + Log(end + 1, n) else [])
              && Idle(end + 1)
    {
      FrameDelivers(i);
      QuietLog(i, i + 10 * period, n);
    }

    lemma {:induction false} LogAfter(i: nat, last: nat, n: nat)
      requires Valid() && period >= 2 && i <= last && Quiet(i, last + 1) && Idle(last + 1)
      ensures Log(i, n) == Decode(last + 1, n)
      decreases n - i, 0
    {
      QuietLog(i, last + 1, n);
      if last + 1 > n {
      } else {
        LogIsDecode(last + 1, n);
      }
    }
  }

  // Every receiver and every line have a session.

  function Listen(rx: Rx, now: int, period: u64, line: nat -> bool): Session {
    var step := (r: Rx, t: nat) => RxSample(r, Add64(now, t), period, line(t)).0;
    Session(now, period, line,
            (t: nat) => Iterate(step, rx, t),
            (t: nat) => RxSample(Iterate(step, rx, t), Add64(now, t), period, line(t)).1)
  }

  lemma ListenFollows(rx: Rx, now: int, period: u64, line: nat -> bool, t: nat)
    ensures Listen(rx, now, period, line).Follows(t)
  {
    IterateNext((r: Rx, t: nat) => RxSample(r, Add64(now, t), period, line(t)).0, rx, t);
  }

  lemma ListenValid(rx: Rx, now: int, period: u64, line: nat -> bool)
    ensures Listen(rx, now, period, line).Valid() && Listen(rx, now, period, line).state(0) == rx
  {
    forall t: nat
      ensures Listen(rx, now, period, line).Follows(t)
    {
      ListenFollows(rx, now, period, line, t);
    }
  }
}
