/** The bit-level UART driver of the test bench: its state machine and the class that runs it. */
module Uart {
  import opened MachineInts

  // Bits of a byte, lowest first.

  function Mask(k: nat): bv8
    requires k < 8
  {
    if k == 0 then 0x01 else if k == 1 then 0x02 else if k == 2 then 0x04 else if k == 3 then 0x08
    else if k == 4 then 0x10 else if k == 5 then 0x20 else if k == 6 then 0x40 else 0x80
  }

  predicate GetBit(b: bv8, k: nat)
    requires k < 8
  {
    b & Mask(k) != 0
  }

  function SetBit(b: bv8, k: nat): bv8
    requires k < 8
  {
    b | Mask(k)
  }

  lemma SetBitGet(b: bv8, k: nat)
    requires k < 8
    ensures forall j: nat | j < 8 :: GetBit(SetBit(b, k), j) == (j == k || GetBit(b, j))
  {
  }

  /** These are the shift expressions by which the driver reads and sets a bit. */
  lemma Shifts(b: bv8, k: nat)
    requires k < 8
    ensures b | ((1 as bv8) << k) == SetBit(b, k)
    ensures ((b >> k) & 1 == 1) == GetBit(b, k)
  {
    if k == 0 {} else if k == 1 {} else if k == 2 {} else if k == 3 {}
    else if k == 4 {} else if k == 5 {} else if k == 6 {} else {}
  }

  /** The expression that picks a data bit for the line. */
  method ReadBit(b: bv8, k: nat) returns (bit: bool)
    requires k < 8
    ensures bit == GetBit(b, k)
  {
    Shifts(b, k);
    return (b >> k) & 1 == 1;
  }

  /** The expression that stores a sampled bit. */
  method WriteBit(b: bv8, k: nat) returns (byte: bv8)
    requires k < 8
    ensures byte == SetBit(b, k)
  {
    Shifts(b, k);
    return b | ((1 as bv8) << k);
  }

  /** A byte is determined by its eight bits. */
  lemma SameBits(a: bv8, b: bv8)
    requires forall j: nat | j < 8 :: GetBit(a, j) == GetBit(b, j)
    ensures a == b
  {
    assert GetBit(a, 0) == GetBit(b, 0);
    assert GetBit(a, 1) == GetBit(b, 1);
    assert GetBit(a, 2) == GetBit(b, 2);
    assert GetBit(a, 3) == GetBit(b, 3);
    assert GetBit(a, 4) == GetBit(b, 4);
    assert GetBit(a, 5) == GetBit(b, 5);
    assert GetBit(a, 6) == GetBit(b, 6);
    assert GetBit(a, 7) == GetBit(b, 7);
  }

  // The two halves of the driver as state machines. Index -1 is idle, 0 the
  // start bit, 1 to 8 the data bits, 9 the stop bit.

  datatype Tx = Tx(index: int, start: u64, byte: bv8)

  datatype Rx = Rx(index: int, start: u64, byte: bv8, prev: bool)

  /** A request to send is taken only while the transmitter is idle. */
  function TxStart(tx: Tx, now: u64, b: bv8): Tx {
    if tx.index != -1 then tx else Tx(0, now, b)
  }

  function TxAdvance(tx: Tx, now: u64, period: u64): Tx {
    if tx.index != -1 && Sub64(now, tx.start) >= period then
      Tx(if tx.index + 1 >= 10 then -1 else tx.index + 1, now, tx.byte)
    else
      tx
  }

  predicate TxLevel(tx: Tx) {
    if tx.index == 0 then false
    else if 1 <= tx.index <= 8 then GetBit(tx.byte, tx.index - 1)
    else true
  }

  function RxEdge(rx: Rx, now: u64, line: bool): Rx {
    if rx.index == -1 && rx.prev && !line then Rx(0, now, 0, line) else rx.(prev := line)
  }

  /** The mid-bit sample; a start bit that is not low or a stop bit that is not high aborts. */
  function RxMiddle(rx: Rx, line: bool): Rx {
    if rx.index == 0 then (if line then rx.(index := -1) else rx)
    else if 1 <= rx.index <= 8 then (if line then rx.(byte := SetBit(rx.byte, rx.index - 1)) else rx)
    else if rx.index == 9 then (if !line then rx.(index := -1) else rx)
    else rx
  }

  function RxAdvance(rx: Rx, now: u64): (Rx, Option<bv8>) {
    if rx.index + 1 >= 10 then (rx.(index := -1, start := now), Some(rx.byte))
    else (rx.(index := rx.index + 1, start := now), None)
  }

  function RxSample(rx: Rx, now: u64, period: u64, line: bool): (Rx, Option<bv8>) {
    var edge := RxEdge(rx, now, line);
    if edge.index == -1 then (edge, None)
    else
      var elapsed := Sub64(now, edge.start);
      var mid := if period / 2 <= elapsed < period / 2 + 1 then RxMiddle(edge, line) else edge;
      if mid.index == -1 then (mid, None)
      else if elapsed >= period then RxAdvance(mid, now)
      else (mid, None)
  }

  // One call of sample_rx while a byte is being received, e ticks into a slot.

  lemma SampleInside(rx: Rx, now: u64, period: u64, line: bool, e: nat)
    requires 0 <= rx.index < 10 && e < period && Sub64(now, rx.start) == e
    ensures var seen := rx.(prev := line);
            RxSample(rx, now, period, line) == (if e == period / 2 then RxMiddle(seen, line) else seen, None)
  {
  }

  lemma SampleLast(rx: Rx, now: u64, period: u64, line: bool)
    requires period >= 2 && 0 <= rx.index < 10 && Sub64(now, rx.start) == period
    ensures RxSample(rx, now, period, line) == RxAdvance(rx.(prev := line), now)
  {
  }

  /** Data bits sampled e ticks into slot k. */
  function Sampled(period: nat, k: nat, e: nat): (m: nat)
    ensures m <= 8
  {
    if k == 0 then 0
    else if k > 8 then 8
    else if e >= period / 2 then k
    else k - 1
  }

  lemma QuotientFits(x: u64, d: u64)
    requires d != 0
    ensures 0 <= x / d < TWO64
  {
  }

  // States one step after another.

  function Iterate<S>(step: (S, nat) -> S, start: S, t: nat): S {
    if t == 0 then start else step(Iterate(step, start, t - 1), t - 1)
  }

  lemma IterateNext<S>(step: (S, nat) -> S, start: S, t: nat)
    ensures Iterate(step, start, t + 1) == step(Iterate(step, start, t), t)
  {
  }

  /** The driver object. */
  class UARTBitDriver {
    var cycleCounter: u64
    var cyclesPerBit: u64
    var txByte: bv8
    var txBitIndex: int
    var txBitStartCycle: u64
    var rxBitIndex: int
    var rxBitStartCycle: u64
    var rxByte: bv8
    var rxLinePrev: bool

    function TxState(): Tx
      reads this
    {
      Tx(txBitIndex, txBitStartCycle, txByte)
    }

    function RxState(): Rx
      reads this
    {
      Rx(rxBitIndex, rxBitStartCycle, rxByte, rxLinePrev)
    }

    constructor (clkFreq: u64, baudRate: u64)
      requires baudRate != 0
      ensures cycleCounter == 0 && cyclesPerBit == clkFreq / baudRate
      ensures TxState().index == -1 && RxState() == Rx(-1, 0, 0, true)
    {
      cycleCounter := 0;
      txBitIndex := -1;
      txBitStartCycle := 0;
      rxBitIndex := -1;
      rxBitStartCycle := 0;
      rxByte := 0;
      rxLinePrev := true;
      QuotientFits(clkFreq, baudRate);
      cyclesPerBit := clkFreq / baudRate;
    }

    method Tick()
      modifies this`cycleCounter
      ensures cycleCounter == Add64(old(cycleCounter), 1)
    {
      cycleCounter := (cycleCounter + 1) % TWO64;
    }

    method StartTx(b: bv8) returns (accepted: bool)
      modifies this`txByte, this`txBitIndex, this`txBitStartCycle
      ensures accepted == (old(TxState()).index == -1)
      ensures TxState() == TxStart(old(TxState()), cycleCounter, b)
    {
      if txBitIndex != -1 {
        return false;
      }
      txByte := b;
      txBitIndex := 0;
      txBitStartCycle := cycleCounter;
      return true;
    }

    method GetTxLine() returns (line: bool)
      modifies this`txBitIndex, this`txBitStartCycle
      ensures TxState() == TxAdvance(old(TxState()), cycleCounter, cyclesPerBit)
      ensures line == TxLevel(TxState())
    {
      if txBitIndex == -1 {
        return true;
      }
      if Sub64(cycleCounter, txBitStartCycle) >= cyclesPerBit {
        txBitIndex := txBitIndex + 1;
        txBitStartCycle := cycleCounter;
        if txBitIndex >= 10 {
          txBitIndex := -1;
        }
      }
      if txBitIndex == 0 {
        return false;
      }
      if 1 <= txBitIndex <= 8 {
        line := ReadBit(txByte, txBitIndex - 1);
        return;
      }
      return true;
    }

    /** The sample in the middle of a slot, which may abort the reception. */
    method SampleMiddle(line: bool) returns (aborted: bool)
      requires rxBitIndex != -1
      modifies this`rxBitIndex, this`rxByte
      ensures RxState() == RxMiddle(old(RxState()), line) && aborted == (rxBitIndex == -1)
    {
      if rxBitIndex == 0 {
        if line {
          rxBitIndex := -1;
          return true;
        }
      } else if 1 <= rxBitIndex <= 8 {
        if line {
          rxByte := WriteBit(rxByte, rxBitIndex - 1);
        }
      } else if rxBitIndex == 9 {
        if !line {
          rxBitIndex := -1;
          return true;
        }
      }
      return false;
    }

    method SampleRx(line: bool) returns (received: Option<bv8>)
      modifies this`rxBitIndex, this`rxBitStartCycle, this`rxByte, this`rxLinePrev
      ensures (RxState(), received) == RxSample(old(RxState()), cycleCounter, cyclesPerBit, line)
    {
      if rxBitIndex == -1 && rxLinePrev && !line {
        rxBitIndex := 0;
        rxBitStartCycle := cycleCounter;
        rxByte := 0;
      }
      rxLinePrev := line;
      ghost var edge := RxEdge(old(RxState()), cycleCounter, line);
      assert RxState() == edge;
      if rxBitIndex == -1 {
        return None;
      }
      var bitElapsed := Sub64(cycleCounter, rxBitStartCycle);
      if bitElapsed >= cyclesPerBit / 2 && bitElapsed < cyclesPerBit / 2 + 1 {
        var aborted := SampleMiddle(line);
        if aborted {
          return None;
        }
      }
      assert RxState() == if cyclesPerBit / 2 <= bitElapsed < cyclesPerBit / 2 + 1 then RxMiddle(edge, line) else edge;
      if bitElapsed >= cyclesPerBit {
        rxBitIndex := rxBitIndex + 1;
        rxBitStartCycle := cycleCounter;
        if rxBitIndex >= 10 {
          var byteOut := rxByte;
          rxBitIndex := -1;
          return Some(byteOut);
        }
      }
      return None;
    }

    method IsIdle() returns (idle: bool)
      ensures idle == (TxState().index == -1)
    {
      return txBitIndex == -1;
    }
  }
}
