/** The serial path: a queue that feeds the bit driver, whose line is looped back. What is accepted arrives,
    and when. */
module HostSerial {
  import opened MachineInts
  import opened Uart
  import opened UartLoopback
  import opened HostFeed

  datatype Desk = Desk(link: Link, queue: seq<bv8>)

  /** One pass: store the host byte, hand the head of the queue to an idle transmitter, run the
      two halves of the driver. */
  function SerialPass(d: Desk, period: u64, host: Option<bv8>): (Desk, Option<bv8>) {
    var queue := Store(Feed(d.queue, None), host).queue;
    var offer := if queue == [] then None else Some(queue[0]);
    var (link, out) := Pass(d.link, period, offer);
    (Desk(link, if offer.Some? && d.link.tx.index == -1 then queue[1..] else queue), out)
  }

  lemma Splice(flying: seq<bv8>, queued: seq<bv8>, stored: seq<bv8>, taken: seq<bv8>, rest: seq<bv8>,
               out: seq<bv8>, flying': seq<bv8>)
    requires queued + stored == taken + rest && flying + taken == out + flying'
    ensures flying + queued + stored == out + (flying' + rest)
  {
    assert flying + queued + stored == flying + (queued + stored);
    assert flying + (taken + rest) == flying + taken + rest;
  }

  lemma SerialPassConserves(d: Desk, period: u64, host: Option<bv8>)
    requires period >= 2 && Lockstep(d.link, period)
    ensures var (d', out) := SerialPass(d, period, host);
            && Lockstep(d'.link, period)
            && InFlight(d.link) + d.queue + (if Accepts(Feed(d.queue, None), host) then [host.value] else [])
               == (if out.Some? then [out.value] else []) + (InFlight(d'.link) + d'.queue)
  {
    var (d', out) := SerialPass(d, period, host);
    var queue := Store(Feed(d.queue, None), host).queue;
    var offer := if queue == [] then None else Some(queue[0]);
    var taken := if offer.Some? && d.link.tx.index == -1 then [queue[0]] else [];
    PassKeepsLockstep(d.link, period, offer);
    Splice(InFlight(d.link), d.queue, if Accepts(Feed(d.queue, None), host) then [host.value] else [],
           taken, d'.queue, if out.Some? then [out.value] else [], InFlight(d'.link));
  }

  /** The ring once the host byte of a pass is stored. */
  function Filled(queue: seq<bv8>, host: Option<bv8>): seq<bv8> {
    queue + if host.Some? && |queue| < 255 then [host.value] else []
  }

  /** An idle transmitter takes the byte at the head of the ring in the very pass, the one just stored
      included; a busy one leaves the ring. */
  lemma SerialStarts(d: Desk, period: u64, host: Option<bv8>)
    ensures var queue, d' := Filled(d.queue, host), SerialPass(d, period, host).0;
            if queue != [] && d.link.tx.index == -1 then d'.queue == queue[1..] && InFlight(d'.link) == [queue[0]]
            else d'.queue == queue
  {
  }

  /** What is left when the first of the bytes held has been received. */
  lemma Rest(received: seq<bv8>, b: bv8, held: seq<bv8>, held': seq<bv8>)
    requires held != [] && b == held[0] && received + held == received + [b] + held'
    ensures held' == held[1..]
  {
    assert received + held == received + ([b] + held');
    assert (received + held)[|received|..] == held;
    assert (received + ([b] + held'))[|received|..] == [b] + held';
  }

  lemma SlotsLeft(k: nat, period: nat)
    requires k < 10
    ensures 0 <= (9 - k) * period <= 9 * period
  {
    MulNonNegative(9 - k, period);
    MulNonNegative(k, period);
    assert (9 - k) * period == 9 * period - k * period;
  }

  // Runs without an end.

  /** A run in serial mode: host(t) is the byte that arrives in pass t, if any, desk(t) the state before
      that pass, out(t) the byte received in it. */
  datatype SerialRun = SerialRun(period: u64, host: nat -> Option<bv8>, desk: nat -> Desk, out: nat -> Option<bv8>) {

    predicate Follows(t: nat) {
      (desk(t + 1), out(t)) == SerialPass(desk(t), period, host(t))
    }

    ghost predicate Valid() {
      forall t: nat :: Follows(t)
    }

    /** Nothing on the line and nothing in the ring before the first pass. */
    ghost predicate Starts() {
      Valid() && period >= 2 && Resting(desk(0).link) && desk(0).queue == []
    }

    /** The head of the ring once the host byte is stored. */
    function Offer(t: nat): Option<bv8> {
      var queue := Filled(desk(t).queue, host(t));
      if queue == [] then None else Some(queue[0])
    }

    /** The run of the link underneath. */
    function Line(): Run {
      Run(period, (t: nat) => Offer(t), (t: nat) => desk(t).link, out)
    }

    lemma LineFollows(t: nat)
      requires Follows(t)
      ensures Line().Follows(t)
    {
    }

    lemma LineValid()
      requires Valid()
      ensures Line().Valid()
    {
      forall t: nat
        ensures Line().Follows(t)
      {
        assert Follows(t);
        LineFollows(t);
      }
    }

    /** The bytes sample_rx returned before pass t. */
    function Received(t: nat): seq<bv8> {
      Line().Delivered(t)
    }

    /** What pass t puts in the ring. */
    function Stored(t: nat): seq<bv8> {
      if Accepts(Feed(desk(t).queue, None), host(t)) then [host(t).value] else []
    }

    /** The host bytes put in the ring before pass t. */
    function Accepted(t: nat): seq<bv8> {
      if t == 0 then [] else Accepted(t - 1) + Stored(t - 1)
    }

    lemma {:induction false} RingBounded(t: nat)
      requires Starts()
      ensures |desk(t).queue| <= 255
    {
      if t == 0 {
      } else {
        RingBounded(t - 1);
        assert Follows(t - 1);
        SerialStarts(desk(t - 1), period, host(t - 1));
      }
    }

    /** A host byte is refused exactly when 255 bytes are waiting: accepted before, and neither received nor
        on the line. */
    lemma RefusedExactly(t: nat)
      requires Starts() && host(t).Some?
      ensures var waiting := |Accepted(t)| - |Received(t)| - |InFlight(desk(t).link)|;
              && 0 <= waiting <= 255
              && Accepted(t + 1) == Accepted(t) + if waiting == 255 then [] else [host(t).value]
    {
      Conserved(t);
      RingBounded(t);
    }

    /** Whatever arrives and whenever, the bytes accepted are the bytes received, in order, then the one on
        the line, then those in the ring. */
    lemma {:induction false} Conserved(t: nat)
      requires Starts()
      ensures Lockstep(desk(t).link, period)
      ensures Accepted(t) == Received(t) + (InFlight(desk(t).link) + desk(t).queue)
    {
      if t == 0 {
      } else {
        Conserved(t - 1);
        assert Follows(t - 1);
        SerialPassConserves(desk(t - 1), period, host(t - 1));
        Regroup(Received(t - 1), InFlight(desk(t - 1).link) + desk(t - 1).queue, Stored(t - 1),
                if out(t - 1).Some? then [out(t - 1).value] else [], InFlight(desk(t).link) + desk(t).queue);
      }
    }

    /** No host byte arrives in the passes from m to n. */
    predicate Quiet(m: nat, n: nat) {
      forall t: nat | m <= t < n :: host(t) == None
    }

    lemma {:induction false} QuietAccepts(m: nat, n: nat)
      requires m <= n && Quiet(m, n)
      ensures Accepted(n) == Accepted(m)
    {
      if m == n {
      } else {
        QuietAccepts(m, n - 1);
      }
    }

    // From rest.

    /** From rest a byte that is there once the host byte is stored arrives in 10 * period passes. */
    lemma Arrives(n: nat, b: bv8, t': nat)
      requires Starts() && Resting(desk(n).link) && Offer(n) == Some(b) && t' == n + 10 * period + 1
      ensures Resting(desk(t').link) && out(t' - 1) == Some(b)
      ensures Received(t') == Received(n) + [b] && Received(t' - 1) == Received(n)
    {
      LineValid();
      Line().FrameEnd(n, b, t');
      assert Received(t') == Received(t' - 1) + [b];
      assert Received(t')[..|Received(t')| - 1] == Received(n);
    }

    /** A byte that arrives in pass n, with nothing on the line and nothing in the ring, is received in pass
        n + 10 * period, and nothing between, whatever arrives behind it. */
    lemma ByteArrives(n: nat, b: bv8)
      requires Starts() && Resting(desk(n).link) && desk(n).queue == [] && host(n) == Some(b)
      ensures out(n + 10 * period) == Some(b)
      ensures Received(n + 10 * period) == Received(n)
      ensures Received(n + 10 * period + 1) == Received(n) + [b]
    {
      Arrives(n, b, n + 10 * period + 1);
    }

    /** One frame later the next byte of the ring is at its head. */
    lemma AfterFrame(n: nat, m: nat)
      requires Starts() && Resting(desk(n).link) && desk(n).queue != []
      requires m == n + 10 * period + 1 && Quiet(n, m)
      ensures Resting(desk(m).link) && desk(m).queue == desk(n).queue[1..] && Accepted(m) == Accepted(n)
    {
      var b, held, held' := desk(n).queue[0], desk(n).queue, desk(m).queue;
      assert host(n) == None;
      Arrives(n, b, m);
      QuietAccepts(n, m);
      Conserved(n);
      Conserved(m);
      assert InFlight(desk(n).link) + held == held && InFlight(desk(m).link) + held' == held';
      Rest(Received(n), b, held, held');
    }

    /** From rest, with h bytes in the ring and no new ones, h frames deliver them all. */
    lemma {:induction false} DrainsFromRest(n: nat, h: nat, t': nat)
      requires Starts() && Resting(desk(n).link) && |desk(n).queue| == h
      requires t' == n + h * (10 * period + 1) && Quiet(n, t')
      ensures Received(t') == Accepted(n)
      decreases h
    {
      Conserved(n);
      if h == 0 {
      } else {
        var frame := 10 * period + 1;
        var m := n + frame;
        assert t' == m + (h - 1) * frame;
        MulNonNegative(h - 1, frame);
        assert Quiet(n, m) && Quiet(m, t');
        AfterFrame(n, m);
        DrainsFromRest(m, h - 1, t');
      }
    }

    lemma FrameStep(n: nat, b: bv8, k: nat, e: nat)
      requires Starts() && Sending(desk(n).link, period, b, k, e)
      ensures if e + 1 < period then Sending(desk(n + 1).link, period, b, k, e + 1)
              else if k < 9 then Sending(desk(n + 1).link, period, b, k + 1, 0)
              else Resting(desk(n + 1).link)
      ensures desk(n + 1).queue == Filled(desk(n).queue, host(n))
    {
      assert Follows(n);
      SerialStarts(desk(n), period, host(n));
      LineValid();
      assert Line().InSlot(n, b, k, e, Received(n));
      if e + 1 < period {
        Line().SlotTick(n, b, k, e, Received(n));
      } else if k < 9 {
        Line().SlotEnd(n, b, k, Received(n));
      } else {
        Line().LastTick(n, b);
      }
    }

    /** A frame in progress ends, and then nothing is on the line. */
    lemma {:induction false} FinishFrame(n: nat, b: bv8, k: nat, e: nat, slots: nat, left: nat)
      requires Starts() && Sending(desk(n).link, period, b, k, e)
      requires slots == (9 - k) * period && left == slots + period - e && left >= 0 && Quiet(n, n + left)
      ensures Resting(desk(n + left).link) && desk(n + left).queue == desk(n).queue
      decreases left
    {
      FrameStep(n, b, k, e);
      assert host(n) == None && desk(n + 1).queue == desk(n).queue;
      if e + 1 < period {
        FinishFrame(n + 1, b, k, e + 1, slots, left - 1);
      } else if k < 9 {
        assert (9 - (k + 1)) * period == slots - period;
        MulNonNegative(9 - (k + 1), period);
        FinishFrame(n + 1, b, k + 1, 0, slots - period, left - 1);
      } else {
        assert slots == 0;
      }
    }

    /** The passes a frame in progress still takes. */
    lemma FrameLeft(n: nat, t: nat) returns (left: nat)
      requires Starts() && Quiet(n, t) && t >= n + 10 * period
      ensures Resting(desk(n + left).link) && desk(n + left).queue == desk(n).queue && left <= 10 * period
      ensures left == 0 || |InFlight(desk(n).link)| == 1
    {
      Conserved(n);
      if Resting(desk(n).link) {
        left := 0;
      } else {
        var k: nat, e: nat :| Sending(desk(n).link, period, desk(n).link.tx.byte, k, e);
        SlotsLeft(k, period);
        left := (9 - k) * period + (period - e);
        FinishFrame(n, desk(n).link.tx.byte, k, e, (9 - k) * period, left);
      }
    }

    /** With h bytes held, on the line and in the ring, and no new ones, h frames deliver them all,
        wherever in a frame the line is at first. */
    lemma Drains(n: nat, h: nat, t': nat)
      requires Starts() && |InFlight(desk(n).link)| + |desk(n).queue| == h
      requires t' == n + h * (10 * period + 1) && Quiet(n, t')
      ensures Received(t') == Accepted(n) == Accepted(t')
    {
      if Resting(desk(n).link) {
        DrainsFromRest(n, h, t');
        QuietAccepts(n, t');
      } else {
        DrainsMidFrame(n, h, t');
      }
    }

    lemma DrainsMidFrame(n: nat, h: nat, t': nat)
      requires Starts() && |InFlight(desk(n).link)| + |desk(n).queue| == h && !Resting(desk(n).link)
      requires t' == n + h * (10 * period + 1) && Quiet(n, t')
      ensures Received(t') == Accepted(n) == Accepted(t')
    {
      var frame := 10 * period + 1;
      Conserved(n);
      assert h >= 1 && h * frame == frame + (h - 1) * frame;
      MulNonNegative(h - 1, frame);
      var left := FrameLeft(n, t');
      var m := n + left;
      var t := m + (h - 1) * frame;
      assert Quiet(n, m) && Quiet(m, t);
      QuietAccepts(n, m);
      QuietAccepts(n, t');
      DrainsFromRest(m, h - 1, t);
      DeliveredGrows(Line(), t, t');
      Conserved(t');
    }
  }

  // The run of a list of inputs.

  function HostAt(inputs: seq<Input>, t: nat): Option<bv8> {
    if t < |inputs| then inputs[t].host else None
  }

  function RunOf(start: Link, period: u64, inputs: seq<Input>): SerialRun {
    var step := (d: Desk, t: nat) => SerialPass(d, period, HostAt(inputs, t)).0;
    SerialRun(period, (t: nat) => HostAt(inputs, t), (t: nat) => Iterate(step, Desk(start, []), t),
              (t: nat) => SerialPass(Iterate(step, Desk(start, []), t), period, HostAt(inputs, t)).1)
  }

  lemma RunOfFollows(start: Link, period: u64, inputs: seq<Input>, t: nat)
    ensures RunOf(start, period, inputs).Follows(t)
  {
    IterateNext((d: Desk, t: nat) => SerialPass(d, period, HostAt(inputs, t)).0, Desk(start, []), t);
  }

  /** A run of the loop with these inputs, and nothing after them. */
  predicate Repeats(r: SerialRun, start: Link, period: u64, inputs: seq<Input>) {
    && r.period == period && r.desk(0) == Desk(start, [])
    && forall t: nat | t < |inputs| :: r.host(t) == inputs[t].host
  }

  lemma SerialRunExists(start: Link, period: u64, inputs: seq<Input>) returns (r: SerialRun)
    ensures r.Valid() && Repeats(r, start, period, inputs)
  {
    r := RunOf(start, period, inputs);
    forall t: nat
      ensures r.Follows(t)
    {
      RunOfFollows(start, period, inputs, t);
    }
  }
}
