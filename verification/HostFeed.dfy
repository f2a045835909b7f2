/** What the main loop does with bytes in parallel mode: a bounded queue and the valid/ack handshake. */
module HostFeed {
  import opened MachineInts
  import opened UartLoopback

  const CTRL_D: bv8 := 4
  const SLOTS: nat := 256

  /** A queue of at most 255 bytes, and the byte presented to the device. */
  datatype Feed = Feed(queue: seq<bv8>, presented: Option<bv8>)

  /** One pass of the loop sees a host byte, if any, and the level of the device's ack. */
  datatype Input = Input(host: Option<bv8>, ack: bool)

  predicate Accepts(f: Feed, host: Option<bv8>) {
    host.Some? && |f.queue| < SLOTS - 1
  }

  function Store(f: Feed, host: Option<bv8>): Feed {
    if Accepts(f, host) then f.(queue := f.queue + [host.value]) else f
  }

  function Handshake(f: Feed, ack: bool): Feed {
    var presented := if ack then None else f.presented;
    if presented.None? && f.queue != [] then Feed(f.queue[1..], Some(f.queue[0]))
    else f.(presented := presented)
  }

  function Held(f: Feed): seq<bv8> {
    (if f.presented.Some? then [f.presented.value] else []) + f.queue
  }

  /** The first pass from n on that reads Ctrl+D, which ends the loop. */
  function LiveFrom(inputs: seq<Input>, n: nat): (r: nat)
    requires n <= |inputs|
    ensures n <= r <= |inputs|
    ensures r < |inputs| ==> inputs[r].host == Some(0x04)
    ensures forall i | n <= i < r :: inputs[i].host != Some(0x04)
    decreases |inputs| - n
  {
    if n == |inputs| || inputs[n].host == Some(CTRL_D) then n else LiveFrom(inputs, n + 1)
  }

  /** The number of whole passes of the loop. */
  function Live(inputs: seq<Input>): (r: nat)
    ensures r <= |inputs|
  {
    LiveFrom(inputs, 0)
  }

  function FeedAt(inputs: seq<Input>, n: nat): Feed
    requires n <= |inputs|
  {
    if n == 0 then Feed([], None)
    else Handshake(Store(FeedAt(inputs, n - 1), inputs[n - 1].host), inputs[n - 1].ack)
  }

  /** The host bytes put in the ring by the first n passes. */
  function Accepted(inputs: seq<Input>, n: nat): seq<bv8>
    requires n <= |inputs|
  {
    if n == 0 then []
    else Accepted(inputs, n - 1) +
         if Accepts(FeedAt(inputs, n - 1), inputs[n - 1].host) then [inputs[n - 1].host.value] else []
  }

  /** The bytes the device acknowledged in the first n passes: those presented when it did. */
  function Acknowledged(inputs: seq<Input>, n: nat): seq<bv8>
    requires n <= |inputs|
  {
    if n == 0 then []
    else Acknowledged(inputs, n - 1) +
         if inputs[n - 1].ack && FeedAt(inputs, n - 1).presented.Some?
         then [FeedAt(inputs, n - 1).presented.value] else []
  }

  lemma StoreHolds(f: Feed, host: Option<bv8>)
    ensures Held(Store(f, host)) == Held(f) + if Accepts(f, host) then [host.value] else []
  {
  }

  lemma HandshakeHolds(f: Feed, ack: bool)
    ensures Held(f) == (if ack && f.presented.Some? then [f.presented.value] else []) + Held(Handshake(f, ack))
  {
  }

  /** One pass loses and invents no byte, and keeps the ring within its slots. */
  lemma PassHolds(f: Feed, host: Option<bv8>, ack: bool)
    requires |f.queue| < SLOTS
    ensures var f' := Handshake(Store(f, host), ack);
            && Held(f) + (if Accepts(f, host) then [host.value] else [])
               == (if ack && f.presented.Some? then [f.presented.value] else []) + Held(f')
            && |f'.queue| < SLOTS && (f'.presented.None? ==> f'.queue == [])
  {
    StoreHolds(f, host);
    HandshakeHolds(Store(f, host), ack);
  }

  /** Accepted bytes are the acknowledged ones, then the one presented, then the queued ones. */
  lemma {:induction false} Conservation(inputs: seq<Input>, n: nat)
    requires n <= |inputs|
    ensures Accepted(inputs, n) == Acknowledged(inputs, n) + Held(FeedAt(inputs, n))
    ensures |FeedAt(inputs, n).queue| < SLOTS
    ensures FeedAt(inputs, n).presented.None? ==> FeedAt(inputs, n).queue == []
  {
    if n == 0 {
    } else {
      Conservation(inputs, n - 1);
      var f, i := FeedAt(inputs, n - 1), inputs[n - 1];
      PassHolds(f, i.host, i.ack);
      Regroup(Acknowledged(inputs, n - 1), Held(f),
              if Accepts(f, i.host) then [i.host.value] else [],
              if i.ack && f.presented.Some? then [f.presented.value] else [], Held(FeedAt(inputs, n)));
    }
  }

  /** A presented byte stays until the device acknowledges it. */
  lemma {:induction false} Stable(inputs: seq<Input>, i: nat, n: nat)
    requires i <= n <= |inputs| && FeedAt(inputs, i).presented.Some?
    requires forall j: nat | i <= j < n :: !inputs[j].ack
    ensures FeedAt(inputs, n).presented == FeedAt(inputs, i).presented
  {
    if i == n {
    } else {
      Stable(inputs, i, n - 1);
    }
  }

  /** In parallel mode a host byte is refused exactly when 255 bytes are waiting: accepted before, and
      neither acknowledged nor presented to the device. */
  lemma RefusedExactly(inputs: seq<Input>, n: nat)
    requires n < |inputs| && inputs[n].host.Some?
    ensures var waiting := |Accepted(inputs, n)| - |Acknowledged(inputs, n)|
                           - if FeedAt(inputs, n).presented.Some? then 1 else 0;
            && 0 <= waiting <= 255
            && Accepted(inputs, n + 1) == Accepted(inputs, n) + if waiting == 255 then [] else [inputs[n].host.value]
  {
    Conservation(inputs, n);
  }
}
