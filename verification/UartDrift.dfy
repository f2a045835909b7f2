/** Two drivers with different bit periods: which periods a receiver tolerates. */
module UartDrift {
  import opened MachineInts
  import opened Uart
  import opened UartTransmit
  import opened UartReceive

  /** An idle receiver whose line carries one frame sent with period sent, high afterwards. */
  ghost predicate Hears(s: Session, received: u64, sent: nat, b: bv8)
    requires sent >= 1
  {
    && s.Valid() && s.period == received && s.Idle(0) && s.state(0).prev
    && forall t: nat :: s.line(t) == Wave(b, sent, t)
  }

  /** The byte arrives, as the first and only output of ten receiver periods. */
  predicate Decodes(s: Session, b: bv8) {
    s.Quiet(0, 10 * s.period) && s.out(10 * s.period) == Some(b)
  }

  /** The element of the sender's frame that is on the line in the middle of receiver slot k. */
  function Element(received: u64, sent: nat, k: nat): nat
    requires sent >= 1
  {
    MulNonNegative(k, received);
    (k * received + received / 2) / sent
  }

  /** The middle of receiver slot k lies in sender slot k; the stop bit may be read late, since
      the line stays high. */
  predicate InTolerance(received: u64, sent: nat) {
    && (forall k: nat | k <= 8 :: k * sent <= k * received + received / 2 < (k + 1) * sent)
    && 9 * sent <= 9 * received + received / 2
  }

  lemma ElementIs(received: u64, sent: nat, k: nat)
    requires sent >= 1
    ensures Element(received, sent, k) == k <==>
              k * sent <= k * received + received / 2 < (k + 1) * sent
    ensures Element(received, sent, k) >= k <==> k * sent <= k * received + received / 2
  {
    MulNonNegative(k, received);
    var s := k * received + received / 2;
    var q := s / sent;
    assert s == q * sent + s % sent;
    assert (k + 1) * sent == k * sent + sent;
    assert sent * (q - k) == q * sent - k * sent;
    if q > k {
      MulAtLeast(sent, q - k);
    } else if q < k {
      MulAtLeast(sent, k - q);
      assert sent * (k - q) == -(sent * (q - k));
    }
  }

  lemma MiddleLevel(s: Session, received: u64, sent: nat, b: bv8, k: nat)
    requires sent >= 1 && Hears(s, received, sent, b)
    ensures s.line(s.Middle(0, k)) == FrameBit(b, Element(received, sent, k))
  {
    StartIs(0, received, k);
  }

  lemma Tolerated(s: Session, received: u64, sent: nat, b: bv8)
    requires received >= 2 && sent >= 1 && Hears(s, received, sent, b) && InTolerance(received, sent)
    ensures Decodes(s, b)
  {
    HeardFrame(s, received, sent, b);
    s.FrameDelivers(0);
    var got := s.Gathered(0, 8);
    forall j: nat | j < 8
      ensures GetBit(got, j) == GetBit(b, j)
    {
      s.GatheredBits(0, 8, j);
      MiddleLevel(s, received, sent, b, j + 1);
      assert (j + 1) * sent <= (j + 1) * received + received / 2 < (j + 1 + 1) * sent;
      ElementIs(received, sent, j + 1);
    }
    SameBits(got, b);
  }

  lemma HeardFrame(s: Session, received: u64, sent: nat, b: bv8)
    requires received >= 2 && sent >= 1 && Hears(s, received, sent, b) && InTolerance(received, sent)
    ensures s.Frame(0)
  {
    ElementIs(received, sent, 0);
    ElementIs(received, sent, 9);
    MiddleLevel(s, received, sent, b, 0);
    MiddleLevel(s, received, sent, b, 9);
    assert s.line(0) == Wave(b, sent, 0);
  }

  /** What a correct decode of b says about the elements read. */
  lemma DecodeReads(s: Session, received: u64, sent: nat, b: bv8, k: nat)
    requires received >= 2 && sent >= 1 && Hears(s, received, sent, b) && Decodes(s, b) && k <= 9
    ensures FrameBit(b, Element(received, sent, k)) == FrameBit(b, k)
  {
    s.Delivered(10 * received);
    MiddleLevel(s, received, sent, b, k);
    if 1 <= k <= 8 {
      assert GetBit(b, k - 1) == s.line(s.Middle(0, k - 1 + 1));
    }
  }

  lemma OneBit(k: nat, j: nat)
    requires 1 <= k <= 8 && FrameBit(SetBit(0, k - 1), j)
    ensures j == k || j >= 9
  {
  }

  /** One session for each byte. */
  ghost predicate Family(sessions: bv8 -> Session, received: u64, sent: nat)
    requires sent >= 1
  {
    forall b: bv8 :: Hears(sessions(b), received, sent, b)
  }

  /** In every slot the element read has the level of the element meant, for all bytes. */
  predicate ReadsRight(received: u64, sent: nat, b: bv8, k: nat)
    requires sent >= 1
  {
    FrameBit(b, Element(received, sent, k)) == FrameBit(b, k)
  }

  /** One-bit bytes expose each slot read wrongly. */
  lemma ReadsDecide(received: u64, sent: nat)
    requires sent >= 1 && forall b: bv8, k: nat | k <= 9 :: ReadsRight(received, sent, b, k)
    ensures InTolerance(received, sent)
  {
    forall k: nat | k <= 8
      ensures k * sent <= k * received + received / 2 < (k + 1) * sent
    {
      assert ReadsRight(received, sent, 0, k);
      if k == 0 {
        assert ReadsRight(received, sent, 0xFF, 0);
      } else {
        assert ReadsRight(received, sent, SetBit(0, k - 1), k);
        SetBitGet(0, k - 1);
        OneBit(k, Element(received, sent, k));
      }
      ElementIs(received, sent, k);
    }
    assert ReadsRight(received, sent, 0, 9);
    ElementIs(received, sent, 9);
  }

  lemma Needed(sessions: bv8 -> Session, received: u64, sent: nat)
    requires received >= 2 && sent >= 1 && Family(sessions, received, sent)
    requires forall b: bv8 :: Decodes(sessions(b), b)
    ensures InTolerance(received, sent)
  {
    forall b: bv8, k: nat | k <= 9
      ensures ReadsRight(received, sent, b, k)
    {
      assert Decodes(sessions(b), b);
      DecodeReads(sessions(b), received, sent, b, k);
    }
    ReadsDecide(received, sent);
  }

  /** A receiver decodes every byte of a sender exactly when their periods are in tolerance. */
  lemma DriftTolerance(sessions: bv8 -> Session, received: u64, sent: nat)
    requires received >= 2 && sent >= 1 && Family(sessions, received, sent)
    ensures (forall b: bv8 :: Decodes(sessions(b), b)) <==> InTolerance(received, sent)
  {
    if forall b: bv8 :: Decodes(sessions(b), b) {
      Needed(sessions, received, sent);
    }
    if InTolerance(received, sent) {
      forall b: bv8
        ensures Decodes(sessions(b), b)
      {
        Tolerated(sessions(b), received, sent, b);
      }
    }
  }

  /** There are such receivers, from any counter value on. */
  lemma FamilyExists(now: int, received: u64, sent: nat) returns (sessions: bv8 -> Session)
    requires sent >= 1
    ensures Family(sessions, received, sent)
  {
    sessions := (b: bv8) => Listen(Rx(-1, 0, 0, true), now, received, (t: nat) => Wave(b, sent, t));
    forall b: bv8
      ensures Hears(sessions(b), received, sent, b)
    {
      ListenValid(Rx(-1, 0, 0, true), now, received, (t: nat) => Wave(b, sent, t));
    }
  }
}
