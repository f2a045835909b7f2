/** The main loop between host and device: the 256-slot ring, the parallel handshake and the serial
    path through the bit driver. */
module HostPort {
  import opened MachineInts
  import opened Uart
  import opened UartLoopback
  import opened HostFeed
  import opened HostSerial

  // The ring.

  function RingSeq(slots: seq<bv8>, head: int, tail: int): seq<bv8>
    requires |slots| == SLOTS && 0 <= head < SLOTS && 0 <= tail < SLOTS
  {
    if head <= tail then slots[head..tail] else slots[head..] + slots[..tail]
  }

  lemma RingEmpty(slots: seq<bv8>, head: int, tail: int)
    requires |slots| == SLOTS && 0 <= head < SLOTS && 0 <= tail < SLOTS
    ensures RingSeq(slots, head, tail) == [] <==> head == tail
    ensures |RingSeq(slots, head, tail)| < SLOTS
  {
  }

  class HostLoop {
    const rxFifo: array<bv8>
    var rxFifoHead: int
    var rxFifoTail: int
    var parRx: bv8
    var parRxValid: bool

    ghost predicate Valid()
      reads this, rxFifo
    {
      rxFifo.Length == SLOTS && 0 <= rxFifoHead < SLOTS && 0 <= rxFifoTail < SLOTS
    }

    ghost function Contents(): seq<bv8>
      requires Valid()
      reads this, rxFifo
    {
      RingSeq(rxFifo[..], rxFifoHead, rxFifoTail)
    }

    ghost function State(): Feed
      requires Valid()
      reads this, rxFifo
    {
      Feed(Contents(), if parRxValid then Some(parRx) else None)
    }

    constructor ()
      ensures Valid() && fresh(rxFifo) && State() == Feed([], None)
    {
      rxFifo := new bv8[SLOTS];
      rxFifoHead, rxFifoTail := 0, 0;
      parRxValid := false;
    }

    method Enqueue(ch: bv8) returns (stored: bool)
      requires Valid()
      modifies this`rxFifoTail, rxFifo
      ensures Valid()
      ensures stored == (|old(Contents())| < SLOTS - 1)
      ensures Contents() == old(Contents()) + if stored then [ch] else []
    {
      var nextTail := (rxFifoTail + 1) % SLOTS;
      if nextTail != rxFifoHead {
        rxFifo[rxFifoTail] := ch;
        rxFifoTail := nextTail;
        return true;
      }
      return false;
    }

    method Dequeue() returns (ch: bv8)
      requires Valid() && rxFifoHead != rxFifoTail
      modifies this`rxFifoHead
      ensures Valid()
      ensures old(Contents()) == [ch] + Contents()
      ensures old(Contents()) != [] && ch == old(Contents())[0] && Contents() == old(Contents())[1..]
    {
      ch := rxFifo[rxFifoHead];
      rxFifoHead := (rxFifoHead + 1) % SLOTS;
    }

    /** Take back an acknowledged byte, then present the next one if there is room. */
    method Acknowledge(ack: bool)
      requires Valid()
      modifies this
      ensures Valid() && State() == Handshake(old(State()), ack)
    {
      if ack {
        parRxValid := false;
      }
      RingEmpty(rxFifo[..], rxFifoHead, rxFifoTail);
      if !parRxValid && rxFifoHead != rxFifoTail {
        var ch := Dequeue();
        parRx := ch;
        parRxValid := true;
      }
    }

    /** The loop body in parallel mode, from the host byte to the handshake. */
    method PassParallel(host: Option<bv8>, ack: bool)
      requires Valid()
      modifies this, rxFifo
      ensures Valid()
      ensures State() == Handshake(Store(old(State()), host), ack)
    {
      if host.Some? {
        var stored := Enqueue(host.value);
      }
      assert State() == Store(old(State()), host);
      Acknowledge(ack);
    }

    method NextParallel(inputs: seq<Input>, n: nat, acked: seq<bv8>) returns (acked': seq<bv8>)
      requires Valid() && n < |inputs| && State() == FeedAt(inputs, n) && acked == Acknowledged(inputs, n)
      modifies this, rxFifo
      ensures Valid() && State() == FeedAt(inputs, n + 1) && acked' == Acknowledged(inputs, n + 1)
    {
      acked' := acked;
      if inputs[n].ack && parRxValid {
        acked' := acked + [parRx];
      }
      PassParallel(inputs[n].host, inputs[n].ack);
    }

    /** The whole loop in parallel mode: it ends on Ctrl+D or when the inputs do. Conservation
        says what was acknowledged. */
    method RunParallel(inputs: seq<Input>) returns (passes: nat, acked: seq<bv8>)
      requires Valid() && State() == Feed([], None)
      modifies this, rxFifo
      ensures Valid() && passes == Live(inputs)
      ensures State() == FeedAt(inputs, passes)
      ensures acked == Acknowledged(inputs, passes)
    {
      passes, acked := 0, [];
      while passes < |inputs| && inputs[passes].host != Some(CTRL_D)
        invariant passes <= |inputs| && LiveFrom(inputs, passes) == Live(inputs)
        invariant Valid() && State() == FeedAt(inputs, passes)
        invariant acked == Acknowledged(inputs, passes)
      {
        acked := NextParallel(inputs, passes, acked);
        passes := passes + 1;
      }
    }

    /** Hand the byte at the head of the ring to an idle transmitter. */
    method StartNext(driver: UARTBitDriver) returns (ghost offer: Option<bv8>, ghost taken: seq<bv8>)
      requires Valid()
      modifies this`rxFifoHead
      modifies driver`txByte, driver`txBitIndex, driver`txBitStartCycle
      ensures Valid() && old(Contents()) == taken + Contents()
      ensures Contents() == if taken == [] then old(Contents()) else old(Contents())[1..]
      ensures offer == if old(Contents()) == [] then None else Some(old(Contents())[0])
      ensures taken == if offer.Some? && old(driver.TxState()).index == -1 then [offer.value] else []
      ensures driver.TxState() == if offer.Some? then TxStart(old(driver.TxState()), driver.cycleCounter, offer.value)
                                  else old(driver.TxState())
    {
      ghost var queue := Contents();
      offer := if queue == [] then None else Some(queue[0]);
      taken := if offer.Some? && driver.txBitIndex == -1 then [queue[0]] else [];
      RingEmpty(rxFifo[..], rxFifoHead, rxFifoTail);
      var idle := driver.IsIdle();
      if rxFifoHead != rxFifoTail && idle {
        var ch := Dequeue();
        var accepted := driver.StartTx(ch);
      }
    }

    /** The two halves of the driver, wired together. */
    method LoopLine(driver: UARTBitDriver) returns (out: Option<bv8>)
      modifies driver`txBitIndex, driver`txBitStartCycle
      modifies driver`rxBitIndex, driver`rxBitStartCycle, driver`rxByte, driver`rxLinePrev
      ensures driver.TxState() == TxAdvance(old(driver.TxState()), driver.cycleCounter, driver.cyclesPerBit)
      ensures (driver.RxState(), out) == RxSample(old(driver.RxState()), driver.cycleCounter, driver.cyclesPerBit,
                                                  TxLevel(driver.TxState()))
    {
      var line := driver.GetTxLine();
      out := driver.SampleRx(line);
    }

    /** The rest of the pass after the tick and the host byte. */
    method DriveLine(driver: UARTBitDriver, ghost before: Link) returns (out: Option<bv8>, ghost offer: Option<bv8>)
      requires Valid() && LinkOf(driver) == before.(now := Add64(before.now, 1))
      modifies this`rxFifoHead
      modifies driver`txByte, driver`txBitIndex, driver`txBitStartCycle
      modifies driver`rxBitIndex, driver`rxBitStartCycle, driver`rxByte, driver`rxLinePrev
      ensures Valid()
      ensures offer == if old(Contents()) == [] then None else Some(old(Contents())[0])
      ensures Contents() == if offer.Some? && before.tx.index == -1 then old(Contents())[1..] else old(Contents())
      ensures (LinkOf(driver), out) == Pass(before, driver.cyclesPerBit, offer)
    {
      ghost var taken;
      offer, taken := StartNext(driver);
      out := LoopLine(driver);
    }

    /** The loop body in serial mode, with the driver's transmit line wired to its receiver. */
    method PassSerial(driver: UARTBitDriver, host: Option<bv8>) returns (out: Option<bv8>)
      requires Valid()
      modifies this`rxFifoHead, this`rxFifoTail, rxFifo
      modifies driver
      ensures Valid() && driver.cyclesPerBit == old(driver.cyclesPerBit)
      ensures (Desk(LinkOf(driver), Contents()), out)
           == SerialPass(old(Desk(LinkOf(driver), Contents())), driver.cyclesPerBit, host)
    {
      ghost var before, queue := LinkOf(driver), Contents();
      driver.Tick();
      if host.Some? {
        var stored := Enqueue(host.value);
      }
      assert Contents() == Store(Feed(queue, None), host).queue;
      ghost var offer;
      out, offer := DriveLine(driver, before);
    }

    method NextSerial(driver: UARTBitDriver, inputs: seq<Input>, n: nat, received: seq<bv8>, ghost r: SerialRun)
      returns (received': seq<bv8>)
      requires Valid() && n < |inputs| && r.Valid() && driver.cyclesPerBit == r.period && r.host(n) == inputs[n].host
      requires Desk(LinkOf(driver), Contents()) == r.desk(n) && received == r.Received(n)
      modifies this`rxFifoHead, this`rxFifoTail, rxFifo
      modifies driver
      ensures Valid() && driver.cyclesPerBit == r.period
      ensures Desk(LinkOf(driver), Contents()) == r.desk(n + 1) && received' == r.Received(n + 1)
    {
      var out := PassSerial(driver, inputs[n].host);
      assert r.Follows(n);
      received' := if out.Some? then received + [out.value] else received;
    }

    /** The whole loop in serial mode, looped back: it goes through a run. SerialRun says what was received. */
    method RunSerial(driver: UARTBitDriver, inputs: seq<Input>, ghost r: SerialRun)
      returns (passes: nat, received: seq<bv8>)
      requires Valid() && Contents() == []
      requires r.Valid() && Repeats(r, LinkOf(driver), driver.cyclesPerBit, inputs)
      modifies this`rxFifoHead, this`rxFifoTail, rxFifo
      modifies driver
      ensures Valid() && passes == Live(inputs)
      ensures Desk(LinkOf(driver), Contents()) == r.desk(passes) && received == r.Received(passes)
    {
      passes, received := 0, [];
      while passes < |inputs| && inputs[passes].host != Some(CTRL_D)
        invariant passes <= |inputs| && LiveFrom(inputs, passes) == Live(inputs)
        invariant Valid() && driver.cyclesPerBit == r.period
        invariant Desk(LinkOf(driver), Contents()) == r.desk(passes) && received == r.Received(passes)
      {
        received := NextSerial(driver, inputs, passes, received, r);
        passes := passes + 1;
      }
    }
  }

  function LinkOf(driver: UARTBitDriver): Link
    reads driver
  {
    Link(driver.cycleCounter, driver.TxState(), driver.RxState())
  }
}
