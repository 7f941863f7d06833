/** A sender who delivers one packet per tick is heard again, whatever came before. */
module PlaybackRecovery {
  import opened Basics
  import opened JitterBuffering
  import opened PeerPlayback

  /** The packets a sender delivers: number a + n with this payload at round n. */
  type Stream = nat -> Payload

  ghost predicate Usable(f: Stream) {
    forall n :: 0 < |f(n)| <= MAX_PACKET_SIZE
  }

  /** One round: a packet arrives, then a tick. */
  ghost function Round(st: State, s: Sequence, payload: Payload): (st': State)
    requires ValidState(st)
    ensures ValidState(st')
  {
    Next(Arrived(st, s, payload), Tick(true))
  }

  ghost function Arrived(st: State, s: Sequence, payload: Payload): (st': State)
    requires ValidState(st)
    ensures ValidState(st') && st'.peer.Some?
  {
    Next(st, Push(s, payload, true))
  }

  /** The state when round m of the stream begins, given the state when round n began. */
  ghost function Before(st: State, a: Sequence, f: Stream, n: nat, m: nat): (st': State)
    requires ValidState(st) && n <= m && a + m <= WORD
    ensures ValidState(st')
    decreases m - n
  {
    if n == m then st else Before(Round(st, a + n, f(n)), a, f, n + 1, m)
  }

  /** A round that starts in this state plays one of the packets the sender delivered in
      rounds 0..n. */
  ghost predicate PlaysOwn(st: State, a: Sequence, n: nat, payload: Payload)
    requires ValidState(st) && a + n < WORD
  {
    var outcome := TickOutcome(Arrived(st, a + n, payload).peer.value, true);
    outcome.Heard? && a <= outcome.number <= a + n
  }

  /** The sender is heard in round m of the stream, if round n begins in this state. */
  ghost predicate OwnHeard(st: State, a: Sequence, f: Stream, n: nat, m: nat)
    requires ValidState(st)
  {
    n <= m && a + m < WORD && PlaysOwn(Before(st, a, f, n, m), a, m, f(m))
  }

  lemma HeardNow(st: State, a: Sequence, f: Stream, n: nat)
    requires ValidState(st) && a + n < WORD
    ensures OwnHeard(st, a, f, n, n) <==> PlaysOwn(st, a, n, f(n))
  {}

  lemma HeardLater(st: State, st': State, a: Sequence, f: Stream, n: nat, m: nat)
    requires ValidState(st) && a + n < WORD && n < m && st' == Round(st, a + n, f(n))
    ensures OwnHeard(st, a, f, n, m) <==> OwnHeard(st', a, f, n + 1, m)
  {}

  // ---- How long it can take ---------------------------------------------------

  /** Numbers pending in the ring that are not among the first n of the stream. */
  ghost function Leftovers(p: Peer, a: Sequence, n: nat): set<int>
    requires ValidPeer(p)
  {
    set x: int | 0 < x < WORD && p.ring.numbers[x % CAPACITY] == x && !(a <= x < a + n)
  }

  /** Rounds still possible before the sender is heard: 100 for the eviction counter and 99
      for each leftover that may restart it. The first one may restart it a tick later than
      the others: two in a row are not 100 apart, since they would share a slot. */
  ghost function Patience(p: Peer, a: Sequence, n: nat, spaced: bool): int
    requires ValidPeer(p)
  {
    var k := |Leftovers(p, a, n)|;
    (STALE_TIMEOUT_FRAMES - 1) * k + (if k > 0 && !spaced then 1 else 0) + STALE_TIMEOUT_FRAMES - p.timeout
  }

  ghost function PatienceOf(st: State, a: Sequence, n: nat, spaced: bool): int
    requires ValidState(st)
  {
    if st.peer.None? then 0 else Patience(st.peer.value, a, n, spaced)
  }

  /** The last packet played was one of the stream's rounds' leftovers: none of the rest has
      its residue. */
  ghost predicate Spaced(p: Peer, a: Sequence, n: nat)
    requires ValidPeer(p)
  {
    forall x <- Leftovers(p, a, n) :: (x - (p.lastPlayed - p.timeout)) % CAPACITY != 0
  }

  lemma ReceiveAddsNoLeftover(p: Peer, a: Sequence, n: nat, payload: Payload)
    requires ValidPeer(p) && a + n < WORD
    ensures Leftovers(Receive(p, a + n, payload), a, n + 1) <= Leftovers(p, a, n)
  {}

  /** A new sender, or one just evicted, is heard at once. */
  lemma NewcomerIsHeard(st: State, s: Sequence, payload: Payload)
    requires ValidState(st) && st.peer.None? && 0 < s < WORD - 1 && 0 < |payload| <= MAX_PACKET_SIZE
    ensures TickOutcome(Arrived(st, s, payload).peer.value, true) == Heard(s, payload)
  {
    var p := Receive(NewPeer(s), s, payload);
    assert Holds(p.ring, p.lastPlayed + 1);
    HitTick(p, true);
  }

  /** A tick that decodes a leftover spaces out the others. */
  lemma LeftoverHeard(p: Peer, a: Sequence, n: nat)
    requires ValidPeer(p) && p.lastPlayed + 1 < WORD && Holds(p.ring, p.lastPlayed + 1)
    requires p.lastPlayed + 1 in Leftovers(p, a, n)
    ensures var q := Ticked(p, true);
            && q.timeout == 0 && q.lastPlayed == p.lastPlayed + 1
            && |Leftovers(q, a, n)| < |Leftovers(p, a, n)| && Spaced(q, a, n)
  {
    var next := p.lastPlayed + 1;
    HitTick(p, true);
    var q := Ticked(p, true);
    assert Leftovers(q, a, n) <= Leftovers(p, a, n) - {next};
    SubsetSize(Leftovers(q, a, n), Leftovers(p, a, n) - {next});
    forall x <- Leftovers(q, a, n) ensures (x - next) % CAPACITY != 0 {
      OtherSlot(p, x);
    }
  }

  /** Two pending numbers have different residues. */
  lemma OtherSlot(p: Peer, x: int)
    requires ValidPeer(p) && p.lastPlayed + 1 < WORD && Holds(p.ring, p.lastPlayed + 1)
    requires 0 < x < WORD && p.ring.numbers[x % CAPACITY] == x && x != p.lastPlayed + 1
    ensures (x - (p.lastPlayed + 1)) % CAPACITY != 0
  {}

  lemma LeftoverCostsPatience(p: Peer, a: Sequence, n: nat, spaced: bool)
    requires ValidPeer(p) && p.lastPlayed + 1 < WORD && p.timeout < STALE_TIMEOUT_FRAMES
    requires Holds(p.ring, p.lastPlayed + 1) && p.lastPlayed + 1 in Leftovers(p, a, n)
    requires spaced ==> Spaced(p, a, n)
    ensures Spaced(Ticked(p, true), a, n)
    ensures Patience(Ticked(p, true), a, n, true) < Patience(p, a, n, spaced)
  {
    LeftoverHeard(p, a, n);
    assert spaced ==> p.timeout != STALE_TIMEOUT_FRAMES - 1;
    var k, k' := |Leftovers(p, a, n)|, |Leftovers(Ticked(p, true), a, n)|;
    assert (STALE_TIMEOUT_FRAMES - 1) * k' <= (STALE_TIMEOUT_FRAMES - 1) * (k - 1);
  }

  lemma SilenceCostsPatience(p: Peer, a: Sequence, n: nat, spaced: bool)
    requires ValidPeer(p) && p.lastPlayed + 1 < WORD && !Holds(p.ring, p.lastPlayed + 1)
    requires spaced ==> Spaced(p, a, n)
    ensures spaced ==> Spaced(Ticked(p, true), a, n)
    ensures Patience(Ticked(p, true), a, n, spaced) < Patience(p, a, n, spaced)
  {
    MissedTick(p, true);
    assert Leftovers(Ticked(p, true), a, n) == Leftovers(p, a, n);
  }

  /** A round that plays nothing of the sender's uses up patience. */
  lemma RoundCostsPatience(p: Peer, a: Sequence, n: nat, spaced: bool) returns (spaced': bool)
    requires ValidPeer(p) && p.lastPlayed + 1 < WORD && p.timeout < STALE_TIMEOUT_FRAMES
    requires !(TickOutcome(p, true).Heard? && a <= TickOutcome(p, true).number < a + n)
    requires spaced ==> Spaced(p, a, n)
    ensures spaced' ==> Spaced(Ticked(p, true), a, n)
    ensures Patience(Ticked(p, true), a, n, spaced') < Patience(p, a, n, spaced)
  {
    if Holds(p.ring, p.lastPlayed + 1) {
      HitTick(p, true);
      LeftoverCostsPatience(p, a, n, spaced);
      spaced' := true;
    } else {
      SilenceCostsPatience(p, a, n, spaced);
      spaced' := spaced;
    }
  }

  /** What arrives costs no patience. */
  lemma ArrivalCostsNothing(p: Peer, a: Sequence, n: nat, payload: Payload, spaced: bool)
    requires ValidPeer(p) && a + n < WORD && (spaced ==> Spaced(p, a, n))
    ensures var q := Receive(p, a + n, payload);
            && Patience(q, a, n + 1, spaced) <= Patience(p, a, n, spaced)
            && (spaced ==> Spaced(q, a, n + 1))
            && q.lastPlayed == p.lastPlayed && q.timeout == p.timeout
  {
    var q := Receive(p, a + n, payload);
    ReceiveAddsNoLeftover(p, a, n, payload);
    SubsetSize(Leftovers(q, a, n + 1), Leftovers(p, a, n));
    var k, k' := |Leftovers(p, a, n)|, |Leftovers(q, a, n + 1)|;
    assert (STALE_TIMEOUT_FRAMES - 1) * k' <= (STALE_TIMEOUT_FRAMES - 1) * k;
  }

  /** Round n of the stream begins, with this much patience left. */
  ghost predicate Waits(st: State, a: Sequence, n: nat, spaced: bool, patience: nat)
    requires ValidState(st)
  {
    && PatienceOf(st, a, n, spaced) <= patience
    && (spaced && st.peer.Some? ==> Spaced(st.peer.value, a, n))
  }

  lemma LiveRound(st: State, p: Peer, a: Sequence, n: nat, payload: Payload, spaced: bool, patience: nat)
    returns (spaced': bool)
    requires st.peer == Some(p) && ValidPeer(p) && a + n < WORD
    requires p.lastPlayed + 1 < WORD && p.timeout < STALE_TIMEOUT_FRAMES && !PlaysOwn(st, a, n, payload)
    requires Waits(st, a, n, spaced, patience)
    ensures 0 < patience && Waits(Round(st, a + n, payload), a, n + 1, spaced', patience - 1)
  {
    ArrivalCostsNothing(p, a, n, payload, spaced);
    spaced' := RoundCostsPatience(Receive(p, a + n, payload), a, n + 1, spaced);
  }

  ghost predicate Live(st: State) {
    st.peer.Some? ==> st.peer.value.lastPlayed + 1 < WORD && st.peer.value.timeout < STALE_TIMEOUT_FRAMES
  }

  lemma RunsAreLive(es: seq<Event>, max: int)
    requires NumberedUpTo(es, max) && max + STALE_TIMEOUT_FRAMES < WORD
    ensures Live(Run(es))
  {
    RunKeepsInv(es, max);
  }

  /** One unsuccessful round uses up patience; a state without patience has no peer, and
      the next packet opens one and is heard. */
  lemma UnsuccessfulRound(st: State, st': State, a: Sequence, n: nat, payload: Payload,
                          spaced: bool, patience: nat) returns (spaced': bool)
    requires ValidState(st) && Live(st)
    requires 1 <= a && a + n < WORD - 1 && 0 < |payload| <= MAX_PACKET_SIZE
    requires !PlaysOwn(st, a, n, payload) && st' == Round(st, a + n, payload)
    requires Waits(st, a, n, spaced, patience)
    ensures 0 < patience && Waits(st', a, n + 1, spaced', patience - 1)
  {
    if st.peer.Some? {
      spaced' := LiveRound(st, st.peer.value, a, n, payload, spaced, patience);
    } else {
      NewcomerIsHeard(st, a + n, payload);
    }
  }

  lemma RoundExtendsRun(es: seq<Event>, s: Sequence, payload: Payload, max: int) returns (es': seq<Event>)
    requires NumberedUpTo(es, max) && 1 <= s <= max
    ensures Run(es') == Round(Run(es), s, payload) && NumberedUpTo(es', max)
  {
    es' := es + [Push(s, payload, true)] + [Tick(true)];
    RunSnoc(START, es, Push(s, payload, true));
    RunSnoc(START, es + [Push(s, payload, true)], Tick(true));
  }

  lemma NextRound(es: seq<Event>, st: State, a: Sequence, n: nat, payload: Payload, spaced: bool, patience: nat,
                  max: int) returns (es': seq<Event>, st': State, spaced': bool)
    requires NumberedUpTo(es, max) && max + STALE_TIMEOUT_FRAMES < WORD && st == Run(es)
    requires 1 <= a && a + n <= max && 0 < |payload| <= MAX_PACKET_SIZE
    requires !PlaysOwn(st, a, n, payload) && Waits(st, a, n, spaced, patience)
    ensures NumberedUpTo(es', max) && st' == Run(es') == Round(st, a + n, payload)
    ensures 0 < patience && Waits(st', a, n + 1, spaced', patience - 1)
  {
    st' := Round(st, a + n, payload);
    RunsAreLive(es, max);
    spaced' := UnsuccessfulRound(st, st', a, n, payload, spaced, patience);
    es' := RoundExtendsRun(es, a + n, payload, max);
  }

  lemma {:induction false} HeardFrom(es: seq<Event>, st: State, a: Sequence, f: Stream, n: nat,
                                     spaced: bool, patience: nat, max: int) returns (m: nat)
    requires NumberedUpTo(es, max) && max + STALE_TIMEOUT_FRAMES < WORD && Usable(f) && st == Run(es)
    requires 1 <= a && a + n + patience <= max && Waits(st, a, n, spaced, patience)
    ensures n <= m <= n + patience && OwnHeard(st, a, f, n, m)
    decreases patience
  {
    if PlaysOwn(st, a, n, f(n)) {
      m := n;
      HeardNow(st, a, f, n);
    } else {
      var es', st', spaced' := NextRound(es, st, a, n, f(n), spaced, patience, max);
      m := HeardFrom(es', st', a, f, n + 1, spaced', patience - 1, max);
      HeardLater(st, st', a, f, n, m);
    }
  }

  /** The bound in numbers: 100 ticks for the counter, less the quiet ones so far, 99 more for
      each packet still pending, and one more if there is any. */
  ghost function LongestWait(st: State): (rounds: int)
    requires ValidState(st)
  {
    if st.peer.None? then 0
    else
      var k := |Leftovers(st.peer.value, 1, 0)|;
      STALE_TIMEOUT_FRAMES - st.peer.value.timeout + (if k == 0 then 0 else (STALE_TIMEOUT_FRAMES - 1) * k + 1)
  }

  /** From any reachable state, a sender that delivers one packet per tick has one of its
      own packets played within the longest wait, whether its numbers restart at 1, jump
      ahead or fall behind. */
  lemma SenderIsHeard(es: seq<Event>, a: Sequence, f: Stream, max: int) returns (m: nat)
    requires Usable(f) && NumberedUpTo(es, max) && max + STALE_TIMEOUT_FRAMES < WORD
    requires 1 <= a && a + LongestWait(Run(es)) <= max
    ensures OwnHeard(Run(es), a, f, 0, m)
    ensures m <= LongestWait(Run(es))
  {
    RunKeepsInv(es, max);
    var st := Run(es);
    assert st.peer.Some? ==> Leftovers(st.peer.value, 1, 0) == Leftovers(st.peer.value, a, 0);
    m := HeardFrom(es, st, a, f, 0, false, LongestWait(st), max);
  }
}
