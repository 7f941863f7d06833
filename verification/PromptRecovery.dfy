/** Exactly when a sender that delivers one packet per tick is heard within 101 ticks. */
module PromptRecovery {
  import opened Basics
  import opened JitterBuffering
  import opened PeerPlayback
  import opened PlaybackRecovery

  ghost predicate HeardInTime(st: State, a: Sequence, f: Stream)
    requires ValidState(st)
  {
    exists m: nat :: m <= 100 && OwnHeard(st, a, f, 0, m)
  }

  ghost predicate Pending(p: Peer, x: int)
    requires ValidPeer(p)
  {
    0 < x < WORD && p.ring.numbers[x % CAPACITY] == x
  }

  /** How far ahead of playback an old packet can still be decoded when the sender's next
      number is s: everywhere when the sender is behind, nowhere that matters when it is
      inside the window, and up to its residue when it is beyond the window, where its own
      packets overwrite the old ones. */
  function Reach(lastPlayed: Sequence, s: int): (reach: nat) {
    if s <= lastPlayed then STALE_TIMEOUT_FRAMES
    else if s <= lastPlayed + CAPACITY then 0
    else (s - lastPlayed - 1) % CAPACITY
  }

  /** An old packet that will be decoded, and restart the eviction counter, before the
      peer is evicted. */
  ghost predicate Delays(p: Peer, s: int, x: int)
    requires ValidPeer(p)
  {
    && Pending(p, x)
    && p.lastPlayed < x <= p.lastPlayed + Min(Reach(p.lastPlayed, s), STALE_TIMEOUT_FRAMES - p.timeout)
  }

  ghost predicate Delayed(st: State, s: int)
    requires ValidState(st)
  {
    st.peer.Some? && exists x :: Delays(st.peer.value, s, x)
  }

  // ---- One round --------------------------------------------------------------

  /** Packet s is neither already played nor below the read head. */
  predicate Enters(p: Peer, s: Sequence) {
    p.lastPlayed < s && p.ring.readHead <= s
  }

  /** The number x is in the ring once s has arrived. */
  ghost predicate PendingWith(p: Peer, s: Sequence, x: int)
    requires ValidPeer(p)
  {
    if Enters(p, s) && s % CAPACITY == x % CAPACITY then x == s else Pending(p, x)
  }

  ghost function After(p: Peer, s: Sequence, payload: Payload): (p': Peer)
    requires ValidPeer(p)
    ensures ValidPeer(p')
  {
    Ticked(Receive(p, s, payload), true)
  }

  ghost predicate Fair(p: Peer, s: Sequence, payload: Payload) {
    ValidPeer(p) && p.lastPlayed + 1 < WORD && 0 < s && 0 < |payload| <= MAX_PACKET_SIZE
  }

  lemma ArrivalPending(p: Peer, s: Sequence, payload: Payload, x: int)
    requires Fair(p, s, payload)
    ensures 0 < x < WORD ==> (Pending(Receive(p, s, payload), x) <==> PendingWith(p, s, x))
    ensures Receive(p, s, payload).lastPlayed == p.lastPlayed
    ensures Receive(p, s, payload).timeout == p.timeout
  {}

  lemma TickPending(p: Peer, x: int)
    requires ValidPeer(p) && p.lastPlayed + 1 < WORD
    ensures Pending(Ticked(p, true), x) <==> x != p.lastPlayed + 1 && Pending(p, x)
  {}

  lemma TickCounts(p: Peer)
    requires ValidPeer(p) && p.lastPlayed + 1 < WORD
    ensures Ticked(p, true).lastPlayed == p.lastPlayed + 1
    ensures Ticked(p, true).timeout == if Pending(p, p.lastPlayed + 1) then 0 else p.timeout + 1
    ensures TickOutcome(p, true).Heard? <==> Pending(p, p.lastPlayed + 1)
    ensures TickOutcome(p, true).Heard? ==> TickOutcome(p, true).number == p.lastPlayed + 1
  {}

  /** A round moves playback on by one, keeps every pending number but the one whose turn
      it is, and counts the round unless that number was there. */
  lemma RoundCounts(p: Peer, s: Sequence, payload: Payload)
    requires Fair(p, s, payload)
    ensures var p' := After(p, s, payload);
            && p'.lastPlayed == p.lastPlayed + 1
            && p'.timeout == if PendingWith(p, s, p.lastPlayed + 1) then 0 else p.timeout + 1
    ensures var outcome := TickOutcome(Receive(p, s, payload), true);
            && (outcome.Heard? <==> PendingWith(p, s, p.lastPlayed + 1))
            && (outcome.Heard? ==> outcome.number == p.lastPlayed + 1)
  {
    ArrivalPending(p, s, payload, p.lastPlayed + 1);
    TickCounts(Receive(p, s, payload));
  }

  lemma RoundPending(p: Peer, s: Sequence, payload: Payload, x: int)
    requires Fair(p, s, payload) && 0 < x < WORD
    ensures Pending(After(p, s, payload), x) <==> x != p.lastPlayed + 1 && PendingWith(p, s, x)
  {
    ArrivalPending(p, s, payload, x);
    TickPending(Receive(p, s, payload), x);
  }

  lemma OwnExactly(st: State, p: Peer, a: Sequence, n: nat, payload: Payload)
    requires st.peer == Some(p) && a + n < WORD && Fair(p, a + n, payload)
    ensures PlaysOwn(st, a, n, payload) <==> PendingWith(p, a + n, p.lastPlayed + 1) && a <= p.lastPlayed + 1 <= a + n
    ensures Round(st, a + n, payload).peer ==
            if After(p, a + n, payload).timeout >= STALE_TIMEOUT_FRAMES then None else Some(After(p, a + n, payload))
  {
    RoundCounts(p, a + n, payload);
  }

  // ---- Reachable states -------------------------------------------------------

  /** A packet that fails to decode leaves the read head one past the next number. */
  ghost predicate ReadHeadNear(st: State) {
    st.peer.Some? ==> st.peer.value.ring.readHead <= st.peer.value.lastPlayed + 2
  }

  ghost predicate Sound(st: State, max: int)
    requires ValidState(st)
  {
    Inv(st, max) && ReadHeadNear(st) && max + STALE_TIMEOUT_FRAMES < WORD
  }

  lemma StepKeepsSound(st: State, e: Event, max: int)
    requires ValidState(st) && Sound(st, max) && (e.Push? ==> 1 <= e.number <= max)
    ensures Sound(Next(st, e), max)
  {
    StepKeepsInv(st, e, max);
  }

  lemma {:induction false} RunIsSound(es: seq<Event>, max: int)
    requires NumberedUpTo(es, max) && max + STALE_TIMEOUT_FRAMES < WORD
    ensures Sound(Run(es), max)
  {
    if es != [] {
      RunIsSound(es[..|es| - 1], max);
      StepKeepsSound(Run(es[..|es| - 1]), es[|es| - 1], max);
    }
  }

  lemma RoundKeepsSound(st: State, s: Sequence, payload: Payload, max: int)
    requires ValidState(st) && Sound(st, max) && 1 <= s <= max
    ensures Sound(Round(st, s, payload), max)
  {
    StepKeepsSound(st, Push(s, payload, true), max);
    StepKeepsSound(Arrived(st, s, payload), Tick(true), max);
  }

  lemma PeerIsFair(st: State, p: Peer, s: Sequence, payload: Payload, max: int)
    requires ValidState(st) && Sound(st, max) && st.peer == Some(p)
    requires 0 < s && 0 < |payload| <= MAX_PACKET_SIZE
    ensures Fair(p, s, payload) && p.timeout < STALE_TIMEOUT_FRAMES
    ensures p.ring.readHead <= p.lastPlayed + 2
    ensures forall x :: Pending(p, x) ==> p.lastPlayed < x
  {}

  // ---- Nothing in the way: evicted in time ------------------------------------

  /** No packet from before the stream will be decoded. */
  ghost predicate Unhindered(p: Peer, a: Sequence, n: nat)
    requires ValidPeer(p)
  {
    var s := a + n;
    forall x :: Delays(p, s, x) ==> a <= x < s
  }

  ghost predicate OutsideWindow(p: Peer, s: int) {
    s <= p.lastPlayed || s > p.lastPlayed + CAPACITY
  }

  lemma ReachStays(lastPlayed: Sequence, s: int)
    requires lastPlayed + 1 < WORD
    ensures Reach(lastPlayed + 1, s + 1) == Reach(lastPlayed, s)
  {}

  /** Beyond the window the first number past the reach shares the arriving packet's slot. */
  lemma ReachEndsAtOwnSlot(lastPlayed: Sequence, s: int)
    requires lastPlayed + CAPACITY < s
    ensures (lastPlayed + 1 + Reach(lastPlayed, s)) % CAPACITY == s % CAPACITY
  {}

  lemma NothingDue(p: Peer, a: Sequence, n: nat)
    requires ValidPeer(p) && a + n < WORD && p.lastPlayed + 1 < WORD && p.timeout < STALE_TIMEOUT_FRAMES
    requires p.ring.readHead <= p.lastPlayed + 2
    requires OutsideWindow(p, a + n) && Unhindered(p, a, n)
    requires PendingWith(p, a + n, p.lastPlayed + 1)
    ensures a <= p.lastPlayed + 1 < a + n
  {
    if a + n > p.lastPlayed {
      ReachEndsAtOwnSlot(p.lastPlayed, a + n);
    }
    assert Delays(p, a + n, p.lastPlayed + 1);
  }

  /** What delays the sender after a round without a hit did so before it. */
  lemma DelayedBefore(p: Peer, p': Peer, s: Sequence, x: int)
    requires ValidPeer(p) && ValidPeer(p') && s + 1 < WORD && p.lastPlayed + 1 < WORD
    requires p.ring.readHead <= p.lastPlayed + 2 && OutsideWindow(p, s)
    requires p'.lastPlayed == p.lastPlayed + 1 && p'.timeout == p.timeout + 1
    requires PendingWith(p, s, x) && x != s && Delays(p', s + 1, x)
    ensures Delays(p, s, x)
  {
    ReachStays(p.lastPlayed, s);
    if s > p.lastPlayed {
      ReachEndsAtOwnSlot(p.lastPlayed, s);
    }
  }

  lemma StaysUnhindered(p: Peer, p': Peer, a: Sequence, n: nat, payload: Payload)
    requires a + n + 1 < WORD && Fair(p, a + n, payload) && p' == After(p, a + n, payload)
    requires p.ring.readHead <= p.lastPlayed + 2
    requires OutsideWindow(p, a + n) && Unhindered(p, a, n)
    requires p'.lastPlayed == p.lastPlayed + 1 && p'.timeout == p.timeout + 1
    ensures Unhindered(p', a, n + 1)
  {
    var s: Sequence := a + n;
    var s' := s + 1;
    forall x | Delays(p', s', x) ensures a <= x < s + 1 {
      RoundPending(p, s, payload, x);
      if x != s {
        DelayedBefore(p, p', s, x);
      }
    }
  }

  /** Round n of the stream begins unhindered, after at least n quiet ticks. */
  ghost predicate NothingOld(st: State, a: Sequence, n: nat)
    requires ValidState(st)
  {
    st.peer.Some? ==>
      var p := st.peer.value;
      n <= p.timeout && OutsideWindow(p, a + n) && Unhindered(p, a, n)
  }

  lemma UnhinderedRound(st: State, p: Peer, a: Sequence, n: nat, payload: Payload, max: int)
    requires ValidState(st) && Sound(st, max) && st.peer == Some(p)
    requires 1 <= a && a + n <= max && 0 < |payload| <= MAX_PACKET_SIZE
    requires NothingOld(st, a, n) && !PlaysOwn(st, a, n, payload)
    ensures p.timeout < 100 && NothingOld(Round(st, a + n, payload), a, n + 1)
  {
    PeerIsFair(st, p, a + n, payload, max);
    OwnExactly(st, p, a, n, payload);
    RoundCounts(p, a + n, payload);
    if PendingWith(p, a + n, p.lastPlayed + 1) {
      NothingDue(p, a, n);
    } else {
      StaysUnhindered(p, After(p, a + n, payload), a, n, payload);
    }
  }

  lemma SilentRound(st: State, st': State, a: Sequence, n: nat, payload: Payload, max: int)
    requires ValidState(st) && Sound(st, max)
    requires 1 <= a && a + n <= max && 0 < |payload| <= MAX_PACKET_SIZE
    requires NothingOld(st, a, n) && !PlaysOwn(st, a, n, payload) && st' == Round(st, a + n, payload)
    ensures Sound(st', max) && n < 100 && NothingOld(st', a, n + 1)
  {
    if st.peer.None? {
      NewcomerIsHeard(st, a + n, payload);
    } else {
      UnhinderedRound(st, st.peer.value, a, n, payload, max);
      RoundKeepsSound(st, a + n, payload, max);
    }
  }

  /** Unhindered, the sender is evicted when the counter reaches 100, if not heard before,
      and then heard as a newcomer. */
  lemma {:induction false} HeardUnhindered(st: State, a: Sequence, f: Stream, n: nat, max: int) returns (m: nat)
    requires ValidState(st) && Sound(st, max) && Usable(f) && 1 <= a && a + 100 <= max
    requires n <= 100 && NothingOld(st, a, n)
    ensures n <= m <= 100 && OwnHeard(st, a, f, n, m)
    decreases 100 - n
  {
    if PlaysOwn(st, a, n, f(n)) {
      m := n;
      HeardNow(st, a, f, n);
    } else {
      var st' := Round(st, a + n, f(n));
      SilentRound(st, st', a, n, f(n), max);
      m := HeardUnhindered(st', a, f, n + 1, max);
      HeardLater(st, st', a, f, n, m);
    }
  }

  // ---- Inside the window: heard in its turn -----------------------------------

  /** The stream's first packet is `ahead` ticks from its turn and, once sent, waits. */
  ghost predicate Awaited(p: Peer, a: Sequence, n: nat, ahead: nat)
    requires ValidPeer(p)
  {
    && a == p.lastPlayed + 1 + ahead && n + ahead < CAPACITY
    && (if n == 0 then p.ring.readHead <= a else Pending(p, a))
  }

  lemma StaysAwaited(p: Peer, a: Sequence, n: nat, ahead: nat, payload: Payload)
    requires a + n < WORD && Fair(p, a + n, payload) && 0 < ahead && Awaited(p, a, n, ahead)
    ensures Awaited(After(p, a + n, payload), a, n + 1, ahead - 1)
  {
    assert PendingWith(p, a + n, a);
    RoundPending(p, a + n, payload, a);
    RoundCounts(p, a + n, payload);
  }

  lemma AwaitedRound(st: State, p: Peer, a: Sequence, n: nat, ahead: nat, payload: Payload, max: int)
    requires ValidState(st) && Sound(st, max) && st.peer == Some(p)
    requires 1 <= a && a + n <= max && 0 < |payload| <= MAX_PACKET_SIZE
    requires Awaited(p, a, n, ahead)
    ensures ahead == 0 ==> PlaysOwn(st, a, n, payload)
    ensures var st' := Round(st, a + n, payload);
            0 < ahead ==> st'.peer.None? || Awaited(st'.peer.value, a, n + 1, ahead - 1)
  {
    PeerIsFair(st, p, a + n, payload, max);
    OwnExactly(st, p, a, n, payload);
    if ahead == 0 {
      assert PendingWith(p, a + n, a);
    } else {
      StaysAwaited(p, a, n, ahead, payload);
    }
  }

  ghost predicate InTurn(st: State, a: Sequence, n: nat, ahead: nat)
    requires ValidState(st)
  {
    st.peer.Some? ==> Awaited(st.peer.value, a, n, ahead)
  }

  lemma TurnCloser(st: State, st': State, a: Sequence, n: nat, ahead: nat, payload: Payload, max: int)
    requires ValidState(st) && Sound(st, max)
    requires 1 <= a && a + n <= max && 0 < |payload| <= MAX_PACKET_SIZE
    requires InTurn(st, a, n, ahead) && !PlaysOwn(st, a, n, payload) && st' == Round(st, a + n, payload)
    ensures 0 < ahead && Sound(st', max) && InTurn(st', a, n + 1, ahead - 1)
  {
    if st.peer.None? {
      NewcomerIsHeard(st, a + n, payload);
    } else {
      AwaitedRound(st, st.peer.value, a, n, ahead, payload, max);
      RoundKeepsSound(st, a + n, payload, max);
    }
  }

  lemma {:induction false} HeardInTurn(st: State, a: Sequence, f: Stream, n: nat, ahead: nat, max: int) returns (m: nat)
    requires ValidState(st) && Sound(st, max) && Usable(f) && 1 <= a && a + 100 <= max
    requires n + ahead <= CAPACITY && InTurn(st, a, n, ahead)
    ensures n <= m <= n + ahead && OwnHeard(st, a, f, n, m)
    decreases ahead
  {
    if PlaysOwn(st, a, n, f(n)) {
      m := n;
      HeardNow(st, a, f, n);
    } else {
      var st' := Round(st, a + n, f(n));
      TurnCloser(st, st', a, n, ahead, f(n), max);
      m := HeardInTurn(st', a, f, n + 1, ahead - 1, max);
      HeardLater(st, st', a, f, n, m);
    }
  }

  /** After a packet failed to decode, the sender's next copy of that number is refused;
      the one after is heard. */
  lemma SecondCopyPlays(st: State, st': State, p: Peer, a: Sequence, first: Payload, second: Payload, max: int)
    requires ValidState(st) && Sound(st, max) && 1 <= a && a + 1 <= max
    requires 0 < |first| <= MAX_PACKET_SIZE && 0 < |second| <= MAX_PACKET_SIZE
    requires st.peer == Some(p) && a == p.lastPlayed + 1 && p.ring.readHead > a
    requires st' == Round(st, a, first)
    ensures PlaysOwn(st', a, 1, second)
  {
    PeerIsFair(st, p, a, first, max);
    RoundKeepsSound(st, a, first, max);
    RoundCounts(p, a, first);
    OwnExactly(st, p, a, 0, first);
    if st'.peer.None? {
      NewcomerIsHeard(st', a + 1, second);
    } else {
      PeerIsFair(st', st'.peer.value, a + 1, second, max);
      OwnExactly(st', st'.peer.value, a, 1, second);
    }
  }

  lemma HeardAfterGarbled(st: State, p: Peer, a: Sequence, f: Stream, max: int)
    requires ValidState(st) && Sound(st, max) && Usable(f) && 1 <= a && a + 100 <= max
    requires st.peer == Some(p) && a == p.lastPlayed + 1 && p.ring.readHead > a
    ensures OwnHeard(st, a, f, 0, 1)
  {
    var st' := Round(st, a, f(0));
    SecondCopyPlays(st, st', p, a, f(0), f(1), max);
    HeardNow(st', a, f, 1);
    HeardLater(st, st', a, f, 0, 1);
  }

  // ---- Something in the way: not heard ----------------------------------------

  /** The sender is behind playback, or so far ahead that every packet of its own has been
      overwritten before its turn. */
  ghost predicate OutOfTouch(p: Peer, a: Sequence, n: nat)
    requires ValidPeer(p)
  {
    && OutsideWindow(p, a + n)
    && forall x :: Pending(p, x) && a <= x < a + n ==> a + n <= x + CAPACITY
  }

  lemma NoneOfItsOwnIsDue(p: Peer, a: Sequence, n: nat)
    requires ValidPeer(p) && a + n < WORD && p.lastPlayed + 1 < WORD && p.ring.readHead <= p.lastPlayed + 2
    requires OutOfTouch(p, a, n) && PendingWith(p, a + n, p.lastPlayed + 1)
    ensures !(a <= p.lastPlayed + 1 <= a + n)
  {}

  lemma OwnIsOverwritten(p: Peer, a: Sequence, n: nat, x: int)
    requires ValidPeer(p) && a + n < WORD && p.ring.readHead <= p.lastPlayed + 2
    requires OutOfTouch(p, a, n) && PendingWith(p, a + n, x) && p.lastPlayed < x && a <= x < a + n + 1
    ensures a + n + 1 <= x + CAPACITY
  {}

  lemma StaysOutOfTouch(p: Peer, a: Sequence, n: nat, payload: Payload)
    requires a + n < WORD && Fair(p, a + n, payload) && p.ring.readHead <= p.lastPlayed + 2
    requires OutOfTouch(p, a, n) && forall x :: Pending(p, x) ==> p.lastPlayed < x
    ensures OutOfTouch(After(p, a + n, payload), a, n + 1)
  {
    var p' := After(p, a + n, payload);
    RoundCounts(p, a + n, payload);
    forall x | Pending(p', x) && a <= x < a + n + 1 ensures a + n + 1 <= x + CAPACITY {
      RoundPending(p, a + n, payload, x);
      OwnIsOverwritten(p, a, n, x);
    }
  }

  /** An old packet on its way to being decoded. */
  lemma StillOnItsWay(p: Peer, s: Sequence, payload: Payload, x: int)
    requires Fair(p, s, payload) && s + 1 < WORD && OutsideWindow(p, s) && Delays(p, s, x)
    ensures PendingWith(p, s, x)
    ensures var p' := After(p, s, payload);
            if x == p.lastPlayed + 1 then p'.timeout == 0 else Delays(p', s + 1, x)
  {
    ReachStays(p.lastPlayed, s);
    if s > p.lastPlayed {
      OldSlotIsSafe(p.lastPlayed, s, x);
    }
    RoundPending(p, s, payload, x);
    RoundCounts(p, s, payload);
  }

  lemma OldSlotIsSafe(lastPlayed: Sequence, s: Sequence, x: int)
    requires lastPlayed + CAPACITY < s && lastPlayed < x <= lastPlayed + Reach(lastPlayed, s)
    ensures s % CAPACITY != x % CAPACITY
  {}

  /** Either an old packet is on its way, or one was decoded in an earlier round, so the
      peer will not be evicted before round 100. */
  ghost predicate Starved(st: State, a: Sequence, n: nat, x: int)
    requires ValidState(st)
  {
    && st.peer.Some? && OutOfTouch(st.peer.value, a, n)
    && (st.peer.value.timeout < n || Delays(st.peer.value, a + n, x))
  }

  lemma StarvedRound(st: State, p: Peer, a: Sequence, n: nat, x: int, payload: Payload, max: int)
    requires ValidState(st) && Sound(st, max) && st.peer == Some(p)
    requires 1 <= a && a + n <= max && 0 < |payload| <= MAX_PACKET_SIZE
    requires Starved(st, a, n, x)
    ensures !PlaysOwn(st, a, n, payload)
    ensures n < 100 ==> Starved(Round(st, a + n, payload), a, n + 1, x)
  {
    PeerIsFair(st, p, a + n, payload, max);
    OwnExactly(st, p, a, n, payload);
    if PlaysOwn(st, a, n, payload) {
      NoneOfItsOwnIsDue(p, a, n);
    }
    StaysOutOfTouch(p, a, n, payload);
    if p.timeout < n {
      RoundCounts(p, a + n, payload);
    } else {
      StillOnItsWay(p, a + n, payload, x);
    }
  }

  lemma StaysStarved(st: State, st': State, a: Sequence, n: nat, x: int, payload: Payload, max: int)
    requires ValidState(st) && Sound(st, max)
    requires 1 <= a && a + n <= max && 0 < |payload| <= MAX_PACKET_SIZE
    requires Starved(st, a, n, x) && n < 100 && st' == Round(st, a + n, payload)
    ensures Sound(st', max) && Starved(st', a, n + 1, x)
  {
    StarvedRound(st, st.peer.value, a, n, x, payload, max);
    RoundKeepsSound(st, a + n, payload, max);
  }

  lemma NotHeardNow(st: State, a: Sequence, f: Stream, n: nat, x: int, max: int)
    requires ValidState(st) && Sound(st, max) && Usable(f) && 1 <= a && a + n <= max
    requires Starved(st, a, n, x)
    ensures !OwnHeard(st, a, f, n, n)
  {
    StarvedRound(st, st.peer.value, a, n, x, f(n), max);
    HeardNow(st, a, f, n);
  }

  lemma {:induction false} NotHeardStarved(st: State, a: Sequence, f: Stream, n: nat, m: nat, x: int, max: int)
    requires ValidState(st) && Sound(st, max) && Usable(f) && 1 <= a && a + 100 <= max
    requires n <= m <= 100 && Starved(st, a, n, x)
    ensures !OwnHeard(st, a, f, n, m)
    decreases m - n
  {
    if n == m {
      NotHeardNow(st, a, f, n, x, max);
    } else {
      var st' := Round(st, a + n, f(n));
      StaysStarved(st, st', a, n, x, f(n), max);
      NotHeardStarved(st', a, f, n + 1, m, x, max);
      HeardLater(st, st', a, f, n, m);
    }
  }

  // ---- The exact condition ----------------------------------------------------

  lemma HeardUnlessDelayed(st: State, a: Sequence, f: Stream, max: int) returns (m: nat)
    requires ValidState(st) && Sound(st, max) && Usable(f) && 1 <= a && a + 100 <= max
    requires !Delayed(st, a)
    ensures m <= 100 && OwnHeard(st, a, f, 0, m)
  {
    if st.peer.None? || OutsideWindow(st.peer.value, a) {
      m := HeardUnhindered(st, a, f, 0, max);
    } else if st.peer.value.ring.readHead > a {
      HeardAfterGarbled(st, st.peer.value, a, f, max);
      m := 1;
    } else {
      m := HeardInTurn(st, a, f, 0, a - st.peer.value.lastPlayed - 1, max);
    }
  }

  /** From any reachable state, a sender that delivers one packet per tick has one of its
      own packets played within 101 ticks exactly when no packet from before stands in its
      way. */
  lemma HeardWithin101TicksExactly(es: seq<Event>, a: Sequence, f: Stream, max: int)
    requires Usable(f) && NumberedUpTo(es, max) && max + STALE_TIMEOUT_FRAMES < WORD
    requires 1 <= a && a + 100 <= max
    ensures HeardInTime(Run(es), a, f) <==> !Delayed(Run(es), a)
  {
    var st := Run(es);
    RunIsSound(es, max);
    if Delayed(st, a) {
      var x :| Delays(st.peer.value, a, x);
      forall m: nat | m <= 100 ensures !OwnHeard(st, a, f, 0, m) {
        NotHeardStarved(st, a, f, 0, m, x, max);
      }
    } else {
      var m := HeardUnlessDelayed(st, a, f, max);
    }
  }

  lemma OldPacketStaysPending()
    ensures Delayed(Run([Push(7, [0], true), Push(8, [0], true), Tick(true)]), 1)
  {
    var e1, e2, e3 := Push(7, [0], true), Push(8, [0], true), Tick(true);
    RunTwo(e1, e2);
    assert [e1, e2] + [e3] == [e1, e2, e3];
    RunSnoc(START, [e1, e2], e3);
    var p := Receive(Receive(NewPeer(7), 7, [0]), 8, [0]);
    assert Run([e1, e2]).peer == Some(p);
    assert Pending(p, 7) && Pending(p, 8);
    TickPending(p, 8);
    TickCounts(p);
    assert Delays(Ticked(p, true), 1, 8);
  }

  /** A sender that restarts at 1 while one of its old packets is still pending is not
      heard within 101 ticks. */
  lemma RestartIsDelayed(f: Stream)
    requires Usable(f)
    ensures !HeardInTime(Run([Push(7, [0], true), Push(8, [0], true), Tick(true)]), 1, f)
  {
    OldPacketStaysPending();
    HeardWithin101TicksExactly([Push(7, [0], true), Push(8, [0], true), Tick(true)], 1, f, 200);
  }

  // ---- Never silent for long --------------------------------------------------

  /** A round that starts in this state plays some packet, new or old. */
  ghost predicate PlaysSomething(st: State, a: Sequence, n: nat, payload: Payload)
    requires ValidState(st) && a + n < WORD
  {
    TickOutcome(Arrived(st, a + n, payload).peer.value, true).Heard?
  }

  ghost predicate QuietFor(st: State, quiet: nat) {
    quiet <= 100 && (st.peer.Some? ==> quiet <= st.peer.value.timeout)
  }

  lemma QuietRound(st: State, st': State, a: Sequence, n: nat, payload: Payload, quiet: nat, max: int)
    requires ValidState(st) && Sound(st, max) && 1 <= a && a + n <= max && 0 < |payload| <= MAX_PACKET_SIZE
    requires QuietFor(st, quiet) && !PlaysSomething(st, a, n, payload) && st' == Round(st, a + n, payload)
    ensures Sound(st', max) && quiet < 100 && QuietFor(st', quiet + 1)
  {
    if st.peer.None? {
      NewcomerIsHeard(st, a + n, payload);
    } else {
      PeerIsFair(st, st.peer.value, a + n, payload, max);
      RoundCounts(st.peer.value, a + n, payload);
      RoundKeepsSound(st, a + n, payload, max);
    }
  }

  /** Some packet is played in round m of the stream, if round n begins in this state. */
  ghost predicate SomethingHeard(st: State, a: Sequence, f: Stream, n: nat, m: nat)
    requires ValidState(st)
  {
    n <= m && a + m < WORD && PlaysSomething(Before(st, a, f, n, m), a, m, f(m))
  }

  lemma SomethingNow(st: State, a: Sequence, f: Stream, n: nat)
    requires ValidState(st) && a + n < WORD
    ensures SomethingHeard(st, a, f, n, n) <==> PlaysSomething(st, a, n, f(n))
  {}

  lemma SomethingLater(st: State, st': State, a: Sequence, f: Stream, n: nat, m: nat)
    requires ValidState(st) && a + n < WORD && n < m && st' == Round(st, a + n, f(n))
    ensures SomethingHeard(st, a, f, n, m) <==> SomethingHeard(st', a, f, n + 1, m)
  {}

  lemma {:induction false} SomethingHeardFrom(st: State, a: Sequence, f: Stream, n: nat, quiet: nat, max: int)
    returns (m: nat)
    requires ValidState(st) && Sound(st, max) && Usable(f) && 1 <= a && a + n + 100 - quiet <= max
    requires QuietFor(st, quiet)
    ensures n <= m <= n + 100 - quiet && SomethingHeard(st, a, f, n, m)
    decreases 100 - quiet
  {
    if PlaysSomething(st, a, n, f(n)) {
      m := n;
      SomethingNow(st, a, f, n);
    } else {
      var st' := Round(st, a + n, f(n));
      QuietRound(st, st', a, n, f(n), quiet, max);
      m := SomethingHeardFrom(st', a, f, n + 1, quiet + 1, max);
      SomethingLater(st, st', a, f, n, m);
    }
  }

  /** From any reachable state some packet, the sender's own or one left from before, is
      played within 101 ticks less the quiet ones so far. */
  lemma SomethingHeardWithin101Ticks(es: seq<Event>, a: Sequence, f: Stream, max: int) returns (m: nat)
    requires Usable(f) && NumberedUpTo(es, max) && max + STALE_TIMEOUT_FRAMES < WORD
    requires 1 <= a && a + 100 <= max
    ensures m <= 100 && SomethingHeard(Run(es), a, f, 0, m)
    ensures Run(es).peer.Some? ==> m <= 100 - Run(es).quiet
  {
    RunIsSound(es, max);
    m := SomethingHeardFrom(Run(es), a, f, 0, if Run(es).peer.Some? then Run(es).quiet else 0, max);
  }
}
