/** Two drivers with different bit periods, and messages sent without a pause. */
module UartStream {
  import opened MachineInts
  import opened Uart
  import opened UartTransmit
  import opened UartReceive
  import opened UartDrift

  /** The ticks from one frame to the next, while bytes are waiting. */
  function FrameTicks(sent: nat): nat {
    10 * sent + 1
  }

  /** The line of a message: its frames one after another, high afterwards. */
  predicate MessageLine(msg: seq<bv8>, sent: nat, t: nat)
    requires sent >= 1
  {
    Quotient(t, FrameTicks(sent));
    t / FrameTicks(sent) < |msg| ==> Wave(msg[t / FrameTicks(sent)], sent, t % FrameTicks(sent))
  }

  /** An idle receiver on that line. */
  ghost predicate HearsMessage(s: Session, received: u64, sent: nat, msg: seq<bv8>)
    requires sent >= 1
  {
    && s.Valid() && s.period == received && s.Idle(0) && s.state(0).prev
    && forall t: nat :: s.line(t) == MessageLine(msg, sent, t)
  }

  function Values(log: seq<(nat, bv8)>): seq<bv8> {
    if log == [] then [] else [log[0].1] + Values(log[1..])
  }

  /** In the end the message, the whole message and nothing but the message has been delivered. */
  ghost predicate Receives(s: Session, msg: seq<bv8>) {
    exists t0: nat :: DeliveredFrom(s, msg, t0)
  }

  ghost predicate DeliveredFrom(s: Session, msg: seq<bv8>, t0: nat) {
    forall t: nat | t >= t0 :: Values(s.Log(0, t)) == msg
  }

  // The line, frame by frame.

  /** Where frame m begins. */
  function FrameStart(sent: nat, m: nat): nat {
    if m == 0 then 0 else FrameStart(sent, m - 1) + FrameTicks(sent)
  }

  lemma {:induction false} FrameStartIs(sent: nat, m: nat)
    ensures FrameStart(sent, m) == m * FrameTicks(sent)
  {
    if m == 0 {
    } else {
      FrameStartIs(sent, m - 1);
      assert m * FrameTicks(sent) == (m - 1) * FrameTicks(sent) + FrameTicks(sent);
    }
  }

  lemma InsideFrame(msg: seq<bv8>, sent: nat, m: nat, d: nat)
    requires sent >= 1 && d < FrameTicks(sent)
    ensures MessageLine(msg, sent, FrameStart(sent, m) + d) == if m < |msg| then Wave(msg[m], sent, d) else true
  {
    FrameStartIs(sent, m);
    ModUnique(FrameStart(sent, m) + d, m, d, FrameTicks(sent));
  }

  lemma WaveStarts(b: bv8, sent: nat)
    requires sent >= 1
    ensures !Wave(b, sent, 0) && Wave(b, sent, 10 * sent)
  {
    ModUnique(10 * sent, 10, 0, sent);
  }

  lemma WaveEndsHigh(b: bv8, sent: nat, d: nat)
    requires sent >= 1 && d >= 9 * sent
    ensures Wave(b, sent, d)
  {
    QuotientAtLeast(d, sent, 9);
  }

  // Periods in tolerance, the receiver's no longer than the sender's: frame by frame.

  predicate KeepsUp(received: u64, sent: nat) {
    received >= 2 && sent >= 1 && InTolerance(received, sent) && received <= sent
  }

  /** Between frames: idle, the line high at the tick before. */
  ghost predicate Ready(s: Session, sent: nat, m: nat) {
    s.Idle(FrameStart(sent, m)) && (if m == 0 then s.state(0).prev else s.line(FrameStart(sent, m) - 1))
  }

  /** How far into the frame the middle of slot k is. */
  lemma MiddleOffset(received: nat, sent: nat, k: nat) returns (d: nat)
    requires k <= 9 && 2 <= received <= sent
    ensures d == k * received + received / 2 < FrameTicks(sent)
  {
    MulNonNegative(k, received);
    d := k * received + received / 2;
    assert (9 - k) * received == 9 * received - k * received;
    MulNonNegative(9 - k, received);
  }

  lemma MiddleInFrame(s: Session, received: u64, sent: nat, msg: seq<bv8>, m: nat, k: nat)
    requires KeepsUp(received, sent) && HearsMessage(s, received, sent, msg) && m < |msg| && k <= 9
    ensures s.line(s.Middle(FrameStart(sent, m), k)) == FrameBit(msg[m], Element(received, sent, k))
  {
    var t0 := FrameStart(sent, m);
    var d := MiddleOffset(received, sent, k);
    StartIs(t0, received, k);
    InsideFrame(msg, sent, m, d);
    assert s.line(t0 + d) == MessageLine(msg, sent, t0 + d);
  }

  lemma GoodFrame(s: Session, received: u64, sent: nat, msg: seq<bv8>, m: nat)
    requires KeepsUp(received, sent) && HearsMessage(s, received, sent, msg) && m < |msg| && Ready(s, sent, m)
    ensures s.Frame(FrameStart(sent, m))
    ensures s.Gathered(FrameStart(sent, m), 8) == msg[m]
  {
    var t0 := FrameStart(sent, m);
    LineFalls(s, received, sent, msg, m);
    ElementIs(received, sent, 0);
    ElementIs(received, sent, 9);
    MiddleInFrame(s, received, sent, msg, m, 0);
    MiddleInFrame(s, received, sent, msg, m, 9);
    GatheredRight(s, received, sent, msg, m);
  }

  lemma LineFalls(s: Session, received: u64, sent: nat, msg: seq<bv8>, m: nat)
    requires sent >= 1 && HearsMessage(s, received, sent, msg) && m < |msg| && Ready(s, sent, m)
    ensures s.Falls(FrameStart(sent, m))
  {
    var t0 := FrameStart(sent, m);
    InsideFrame(msg, sent, m, 0);
    WaveStarts(msg[m], sent);
    assert s.line(t0) == MessageLine(msg, sent, t0);
    if m > 0 {
      assert t0 > 0;
    }
  }

  lemma GatheredRight(s: Session, received: u64, sent: nat, msg: seq<bv8>, m: nat)
    requires KeepsUp(received, sent) && HearsMessage(s, received, sent, msg) && m < |msg|
    ensures s.Gathered(FrameStart(sent, m), 8) == msg[m]
  {
    var got := s.Gathered(FrameStart(sent, m), 8);
    forall j: nat | j < 8
      ensures GetBit(got, j) == GetBit(msg[m], j)
    {
      s.GatheredBits(FrameStart(sent, m), 8, j);
      MiddleInFrame(s, received, sent, msg, m, j + 1);
      assert (j + 1) * sent <= (j + 1) * received + received / 2 < (j + 1 + 1) * sent;
      ElementIs(received, sent, j + 1);
    }
    SameBits(got, msg[m]);
  }

  /** A receiver that is idle stays so and delivers nothing as long as the line is high. */
  lemma {:induction false} HighLine(s: Session, i: nat, j: nat)
    requires s.Valid() && s.period >= 2 && i <= j && s.Idle(i) && forall t: nat | i <= t < j :: s.line(t)
    ensures s.Idle(j) && s.Quiet(i, j)
  {
    if i == j {
    } else {
      HighLine(s, i, j - 1);
      s.IdleSilent(j - 1);
    }
  }

  /** From the end of one frame's reception to the next frame. */
  lemma HighUntilNext(s: Session, received: u64, sent: nat, msg: seq<bv8>, m: nat)
    requires KeepsUp(received, sent) && HearsMessage(s, received, sent, msg) && m < |msg|
    ensures forall t: nat | FrameStart(sent, m) + 10 * received <= t < FrameStart(sent, m + 1) :: s.line(t)
  {
    var t0 := FrameStart(sent, m);
    forall t: nat | t0 + 10 * received <= t < FrameStart(sent, m + 1)
      ensures s.line(t)
    {
      InsideFrame(msg, sent, m, t - t0);
      WaveEndsHigh(msg[m], sent, t - t0);
      assert s.line(t) == MessageLine(msg, sent, t);
    }
  }

  lemma NextFrame(s: Session, received: u64, sent: nat, msg: seq<bv8>, m: nat)
    requires KeepsUp(received, sent) && HearsMessage(s, received, sent, msg) && m < |msg| && Ready(s, sent, m)
    ensures Ready(s, sent, m + 1)
    ensures var end := FrameStart(sent, m) + 10 * received;
            && s.Quiet(FrameStart(sent, m), end) && s.out(end) == Some(msg[m])
            && s.Quiet(end + 1, FrameStart(sent, m + 1))
  {
    var t0 := FrameStart(sent, m);
    GoodFrame(s, received, sent, msg, m);
    s.FrameDelivers(t0);
    HighUntilNext(s, received, sent, msg, m);
    HighLine(s, t0 + 10 * received + 1, FrameStart(sent, m + 1));
  }

  lemma {:induction false} LogSplit(s: Session, i: nat, j: nat, n: nat)
    requires i <= j <= n
    ensures s.Log(i, n) == s.Log(i, j) + s.Log(j, n)
    decreases j - i
  {
    if i == j {
    } else {
      LogSplit(s, i + 1, j, n);
    }
  }

  lemma {:induction false} ValuesSplit(a: seq<(nat, bv8)>, b: seq<(nat, bv8)>)
    ensures Values(a + b) == Values(a) + Values(b)
  {
    if a == [] {
      assert a + b == b;
    } else {
      ValuesSplit(a[1..], b);
      assert (a + b)[1..] == a[1..] + b;
    }
  }

  /** One frame adds its byte to the log. */
  lemma FrameLogged(s: Session, t0: nat, end: nat, t1: nat, b: bv8)
    requires t0 <= end < t1 && s.Quiet(t0, end) && s.out(end) == Some(b) && s.Quiet(end + 1, t1)
    ensures Values(s.Log(t0, t1)) == [b]
  {
    s.QuietLog(t0, end, t1);
    s.QuietLog(end + 1, t1, t1);
    assert s.Log(end, t1) == [(end, b)] + s.Log(end + 1, t1);
    assert s.Log(t0, t1) == [(end, b)];
  }

  lemma {:induction false} AlwaysReady(s: Session, received: u64, sent: nat, msg: seq<bv8>, m: nat)
    requires KeepsUp(received, sent) && HearsMessage(s, received, sent, msg) && m <= |msg|
    ensures Ready(s, sent, m)
  {
    if m == 0 {
    } else {
      AlwaysReady(s, received, sent, msg, m - 1);
      NextFrame(s, received, sent, msg, m - 1);
    }
  }

  lemma {:induction false} Prefixes(s: Session, received: u64, sent: nat, msg: seq<bv8>, m: nat)
    requires KeepsUp(received, sent) && HearsMessage(s, received, sent, msg) && m <= |msg|
    ensures Values(s.Log(0, FrameStart(sent, m))) == msg[..m]
  {
    if m == 0 {
    } else {
      Prefixes(s, received, sent, msg, m - 1);
      AlwaysReady(s, received, sent, msg, m - 1);
      NextFrame(s, received, sent, msg, m - 1);
      var t0 := FrameStart(sent, m - 1);
      OneMore(s, t0, t0 + 10 * received, FrameStart(sent, m), msg[..m - 1], msg[m - 1]);
      assert msg[..m] == msg[..m - 1] + [msg[m - 1]];
    }
  }

  lemma OneMore(s: Session, t0: nat, end: nat, t1: nat, done: seq<bv8>, b: bv8)
    requires t0 <= end < t1 && s.Quiet(t0, end) && s.out(end) == Some(b) && s.Quiet(end + 1, t1)
    requires Values(s.Log(0, t0)) == done
    ensures Values(s.Log(0, t1)) == done + [b]
  {
    FrameLogged(s, t0, end, t1, b);
    LogSplit(s, 0, t0, t1);
    ValuesSplit(s.Log(0, t0), s.Log(t0, t1));
  }

  /** After the last frame the line is high for good. */
  lemma HighForGood(msg: seq<bv8>, sent: nat, t: nat)
    requires sent >= 1 && t >= FrameStart(sent, |msg|)
    ensures MessageLine(msg, sent, t)
  {
    FrameStartIs(sent, |msg|);
    QuotientAtLeast(t, FrameTicks(sent), |msg|);
  }

  lemma KeepsUpReceives(s: Session, received: u64, sent: nat, msg: seq<bv8>)
    requires KeepsUp(received, sent) && HearsMessage(s, received, sent, msg)
    ensures Receives(s, msg)
  {
    var last := FrameStart(sent, |msg|);
    Prefixes(s, received, sent, msg, |msg|);
    AlwaysReady(s, received, sent, msg, |msg|);
    assert msg[..|msg|] == msg;
    forall t: nat | t >= last
      ensures Values(s.Log(0, t)) == msg
    {
      forall u: nat | last <= u < t
        ensures s.line(u)
      {
        HighForGood(msg, sent, u);
        assert s.line(u) == MessageLine(msg, sent, u);
      }
      HighLine(s, last, t);
      s.QuietLog(last, t, t);
      LogSplit(s, 0, last, t);
      assert s.Log(0, t) == s.Log(0, last);
    }
    assert DeliveredFrom(s, msg, last);
  }

  // Other periods: messages of one and of two bytes.

  /** One receiver for each message. */
  ghost predicate MessageFamily(sessions: seq<bv8> -> Session, received: u64, sent: nat)
    requires sent >= 1
  {
    forall msg: seq<bv8> :: HearsMessage(sessions(msg), received, sent, msg)
  }

  ghost predicate ReceivesAll(sessions: seq<bv8> -> Session) {
    forall msg: seq<bv8> :: Receives(sessions(msg), msg)
  }

  /** A message of one byte is one frame. */
  lemma SingleHears(s: Session, received: u64, sent: nat, b: bv8)
    requires sent >= 1 && HearsMessage(s, received, sent, [b])
    ensures Hears(s, received, sent, b)
  {
    forall t: nat
      ensures s.line(t) == Wave(b, sent, t)
    {
      assert s.line(t) == MessageLine([b], sent, t);
      if t < FrameTicks(sent) {
        InsideFrame([b], sent, 0, t);
      } else {
        HighForGood([b], sent, t);
        WaveEndsHigh(b, sent, t);
      }
    }
  }

  lemma {:induction false} Loud(s: Session, i: nat, n: nat) returns (t: nat)
    requires Values(s.Log(i, n)) != []
    ensures i <= t < n && s.out(t).Some?
    decreases n - i
  {
    if s.out(i).Some? {
      t := i;
    } else {
      t := Loud(s, i + 1, n);
    }
  }

  lemma {:induction false} TwiceLoud(s: Session, i: nat, n: nat) returns (t: nat, u: nat)
    requires |Values(s.Log(i, n))| >= 2
    ensures i <= t < u < n && s.out(t).Some? && s.out(u).Some?
    decreases n - i
  {
    if s.out(i).Some? {
      t := i;
      assert s.Log(i, n)[1..] == s.Log(i + 1, n);
      u := Loud(s, i + 1, n);
    } else {
      t, u := TwiceLoud(s, i + 1, n);
    }
  }

  lemma QuotientGrows(d: nat, m: nat)
    requires m > 0 && d > 0
    ensures (d - 1) / m <= d / m
  {
    Quotient(d - 1, m);
    QuotientAtLeast(d, m, (d - 1) / m);
  }

  /** The line of a frame of equal bits rises once. */
  lemma NeverFallsAgain(b: bv8, sent: nat, t: nat)
    requires sent >= 1 && (b == 0 || b == 0xFF) && t > 0 && Wave(b, sent, t - 1)
    ensures Wave(b, sent, t)
  {
    QuotientGrows(t, sent);
  }

  /** A single byte of equal bits, once received, was received from tick 0 on. */
  lemma EqualBitsRead(s: Session, received: u64, sent: nat, b: bv8)
    requires received >= 2 && sent >= 1 && (b == 0 || b == 0xFF)
    requires Hears(s, received, sent, b) && Receives(s, [b])
    ensures s.Frame(0)
  {
    var t0: nat :| DeliveredFrom(s, [b], t0);
    assert Values(s.Log(0, t0)) == [b];
    var t := Loud(s, 0, t0);
    s.Delivered(t);
    OnlyFall(s, received, sent, b, t - 10 * received);
  }

  lemma OnlyFall(s: Session, received: u64, sent: nat, b: bv8, f: nat)
    requires sent >= 1 && (b == 0 || b == 0xFF) && Hears(s, received, sent, b) && s.Falls(f)
    ensures f == 0
  {
    if f > 0 {
      assert s.line(f - 1) == Wave(b, sent, f - 1) && s.line(f) == Wave(b, sent, f);
      NeverFallsAgain(b, sent, f);
    }
  }

  /** What comes first is the first byte. */
  lemma FirstValue(s: Session, b: bv8, end: nat, v: bv8)
    requires Receives(s, [b]) && s.Quiet(0, end) && s.out(end) == Some(v)
    ensures v == b
  {
    var t0: nat :| DeliveredFrom(s, [b], t0);
    var t := if t0 > end then t0 else end + 1;
    assert Values(s.Log(0, t)) == [b];
    s.QuietLog(0, end, t);
    assert s.Log(end, t)[0] == (end, v);
    assert Values(s.Log(end, t))[0] == v;
  }

  lemma ByteReads(s: Session, received: u64, sent: nat, b: bv8, k: nat)
    requires received >= 2 && sent >= 1 && k <= 9
    requires Hears(s, received, sent, b) && Receives(s, [b]) && s.Frame(0)
    ensures ReadsRight(received, sent, b, k)
  {
    s.FrameDelivers(0);
    FirstValue(s, b, 10 * received, s.Gathered(0, 8));
    MiddleLevel(s, received, sent, b, k);
    if 1 <= k <= 8 {
      s.GatheredBits(0, 8, k - 1);
    }
  }

  lemma AllReads(sessions: seq<bv8> -> Session, received: u64, sent: nat, b: bv8, k: nat)
    requires received >= 2 && sent >= 1 && MessageFamily(sessions, received, sent) && ReceivesAll(sessions)
    requires k <= 9
    ensures ReadsRight(received, sent, b, k)
  {
    assert Receives(sessions([b]), [b]) && HearsMessage(sessions([b]), received, sent, [b]);
    SingleHears(sessions([b]), received, sent, b);
    FrameAtZero(sessions, received, sent, b);
    ByteReads(sessions([b]), received, sent, b, k);
  }

  lemma EqualBits(k: nat)
    requires k < 8
    ensures GetBit(0xFF, k) && !GetBit(0, k)
  {
    if k == 0 {} else if k == 1 {} else if k == 2 {} else if k == 3 {}
    else if k == 4 {} else if k == 5 {} else if k == 6 {} else {}
  }

  lemma EqualBitsFrame(k: nat)
    ensures FrameBit(0, k) <==> k >= 9
    ensures FrameBit(0xFF, k) <==> k >= 1
  {
    if 1 <= k <= 8 {
      EqualBits(k - 1);
    }
  }

  /** The start bit and the stop bit are read where bytes of equal bits show them to be. */
  lemma FrameAtZero(sessions: seq<bv8> -> Session, received: u64, sent: nat, b: bv8)
    requires received >= 2 && sent >= 1 && MessageFamily(sessions, received, sent) && ReceivesAll(sessions)
    requires Hears(sessions([b]), received, sent, b)
    ensures sessions([b]).Frame(0)
  {
    EqualBitsAtZero(sessions, received, sent, 0);
    EqualBitsAtZero(sessions, received, sent, 0xFF);
    var first, last := Element(received, sent, 0), Element(received, sent, 9);
    EqualBitsFrame(first);
    EqualBitsFrame(last);
    var s := sessions([b]);
    MiddleLevel(s, received, sent, b, 0);
    MiddleLevel(s, received, sent, b, 9);
    WaveStarts(b, sent);
    assert s.line(0) == Wave(b, sent, 0);
  }

  lemma EqualBitsAtZero(sessions: seq<bv8> -> Session, received: u64, sent: nat, b: bv8)
    requires received >= 2 && sent >= 1 && MessageFamily(sessions, received, sent) && ReceivesAll(sessions)
    requires b == 0 || b == 0xFF
    ensures !FrameBit(b, Element(received, sent, 0)) && FrameBit(b, Element(received, sent, 9))
  {
    var s := sessions([b]);
    assert Receives(s, [b]) && HearsMessage(s, received, sent, [b]);
    SingleHears(s, received, sent, b);
    EqualBitsRead(s, received, sent, b);
    MiddleLevel(s, received, sent, b, 0);
    MiddleLevel(s, received, sent, b, 9);
  }

  /** The line of two bytes of ones falls where their frames begin. */
  lemma TwoFalls(s: Session, received: u64, sent: nat, f: nat)
    requires sent >= 1 && HearsMessage(s, received, sent, [0xFF, 0xFF]) && s.Falls(f)
    ensures f == 0 || f == FrameTicks(sent)
  {
    var msg: seq<bv8>, frame := [0xFF, 0xFF], FrameTicks(sent);
    assert s.line(f) == MessageLine(msg, sent, f);
    var m := if f < frame then 0 else 1;
    assert FrameStart(sent, 1) == frame && FrameStart(sent, 2) == 2 * frame;
    if f >= 2 * frame {
      HighForGood(msg, sent, f);
    }
    var d := f - FrameStart(sent, m);
    InsideFrame(msg, sent, m, d);
    if d > 0 {
      assert s.line(f - 1) == MessageLine(msg, sent, f - 1);
      InsideFrame(msg, sent, m, d - 1);
      NeverFallsAgain(0xFF, sent, d);
    }
  }

  /** While a frame is being received the receiver is not idle. */
  lemma Busy(s: Session, t: nat)
    requires s.Valid() && s.period >= 2 && s.Idle(0) && s.Frame(0) && 0 < t <= 10 * s.period
    ensures !s.Idle(t)
  {
    var k, e := SlotOf(0, s.period, t - 1);
    s.InFrame(0, k, e, t - 1);
  }

  /** A receiver with the longer period misses the start of the second byte. */
  lemma SlowReceiver(s: Session, received: u64, sent: nat)
    requires received >= 2 && sent >= 1 && received > sent
    requires HearsMessage(s, received, sent, [0xFF, 0xFF])
    ensures !Receives(s, [0xFF, 0xFF])
  {
    if Receives(s, [0xFF, 0xFF]) {
      var t0: nat :| DeliveredFrom(s, [0xFF, 0xFF], t0);
      assert Values(s.Log(0, t0)) == [0xFF, 0xFF];
      var t, u := TwiceLoud(s, 0, t0);
      s.Delivered(t);
      s.Delivered(u);
      TwoFalls(s, received, sent, t - 10 * received);
      TwoFalls(s, received, sent, u - 10 * received);
      Busy(s, FrameTicks(sent));
      assert false;
    }
  }

  lemma StreamNeeded(sessions: seq<bv8> -> Session, received: u64, sent: nat)
    requires received >= 2 && sent >= 1 && MessageFamily(sessions, received, sent) && ReceivesAll(sessions)
    ensures KeepsUp(received, sent)
  {
    forall b: bv8, k: nat | k <= 9
      ensures ReadsRight(received, sent, b, k)
    {
      AllReads(sessions, received, sent, b, k);
    }
    ReadsDecide(received, sent);
    if received > sent {
      var msg: seq<bv8> := [0xFF, 0xFF];
      assert HearsMessage(sessions(msg), received, sent, msg) && Receives(sessions(msg), msg);
      SlowReceiver(sessions(msg), received, sent);
      assert false;
    }
  }

  /** A receiver gets every message sent without a pause exactly when the periods are in tolerance
      and its own is not the longer one. */
  lemma StreamTolerance(sessions: seq<bv8> -> Session, received: u64, sent: nat)
    requires received >= 2 && sent >= 1 && MessageFamily(sessions, received, sent)
    ensures ReceivesAll(sessions) <==> InTolerance(received, sent) && received <= sent
  {
    if ReceivesAll(sessions) {
      StreamNeeded(sessions, received, sent);
    }
    if KeepsUp(received, sent) {
      forall msg: seq<bv8>
        ensures Receives(sessions(msg), msg)
      {
        assert HearsMessage(sessions(msg), received, sent, msg);
        KeepsUpReceives(sessions(msg), received, sent, msg);
      }
    }
  }

  /** There are such receivers. */
  lemma MessageFamilyExists(now: int, received: u64, sent: nat) returns (sessions: seq<bv8> -> Session)
    requires sent >= 1
    ensures MessageFamily(sessions, received, sent)
  {
    sessions := (msg: seq<bv8>) =>
      Listen(Rx(-1, 0, 0, true), now, received, (t: nat) => MessageLine(msg, sent, t));
    forall msg: seq<bv8>
      ensures HearsMessage(sessions(msg), received, sent, msg)
    {
      ListenValid(Rx(-1, 0, 0, true), now, received, (t: nat) => MessageLine(msg, sent, t));
    }
  }
}
