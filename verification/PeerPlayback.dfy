/** One voice peer's life: packets pushed from the network, one playback tick per audio
    frame, eviction after 100 ticks without a played packet (src/Audio/PeerMixer.cpp). */
module PeerPlayback {
  import opened Basics
  import opened JitterBuffering

  const STALE_TIMEOUT_FRAMES := 100

  datatype Peer = Peer(ring: Ring, lastPlayed: Sequence, timeout: nat)

  ghost predicate ValidPeer(p: Peer) { WellFormed(p.ring) }

  /** Opening a decoder for an unknown sender: the ring is empty. */
  ghost predicate IsNewPeer(p: Peer, s: Sequence) {
    IsEmpty(p.ring) && p.lastPlayed == Pred(s) && p.timeout == 0
  }

  function NewPeer(s: Sequence): (p: Peer)
    ensures IsNewPeer(p, s)
  {
    Peer(NewRing(), Pred(s), 0)
  }

  function Receive(p: Peer, s: Sequence, payload: Payload): (p': Peer)
    requires ValidPeer(p)
    ensures ValidPeer(p')
  {
    if s <= p.lastPlayed then p else p.(ring := Put(p.ring, s, payload))
  }

  /** What one tick gave the decoder: a real packet (decoded or not), or nothing. */
  datatype Outcome =
    | Heard(number: Sequence, payload: Payload)
    | Garbled(number: Sequence, payload: Payload)
    | Concealed

  ghost function TickOutcome(p: Peer, decodes: bool): Outcome
    requires ValidPeer(p)
  {
    var expected := Succ(p.lastPlayed);
    if !Holds(p.ring, expected) then Concealed
    else
      var payload := p.ring.payloads[expected % CAPACITY];
      if decodes then Heard(expected, payload) else Garbled(expected, payload)
  }

  /** The peer after the tick, before the eviction test. A packet that fails to decode
      does not advance playback; a missing one does. */
  ghost function Ticked(p: Peer, decodes: bool): (p': Peer)
    requires ValidPeer(p)
    ensures ValidPeer(p')
  {
    var expected := Succ(p.lastPlayed);
    if !Holds(p.ring, expected) then Peer(p.ring, expected, p.timeout + 1)
    else if decodes then Peer(Take(p.ring, expected), expected, 0)
    else Peer(Take(p.ring, expected), p.lastPlayed, p.timeout + 1)
  }

  ghost predicate Evicted(p: Peer, decodes: bool)
    requires ValidPeer(p)
  {
    Ticked(p, decodes).timeout >= STALE_TIMEOUT_FRAMES
  }

  lemma MissedTick(p: Peer, decodes: bool)
    requires ValidPeer(p) && p.lastPlayed + 1 < WORD && !Holds(p.ring, p.lastPlayed + 1)
    ensures TickOutcome(p, decodes) == Concealed
    ensures Ticked(p, decodes) == Peer(p.ring, p.lastPlayed + 1, p.timeout + 1)
  {}

  lemma HitTick(p: Peer, decodes: bool)
    requires ValidPeer(p) && p.lastPlayed + 1 < WORD && Holds(p.ring, p.lastPlayed + 1)
    ensures var s := p.lastPlayed + 1;
            var payload := p.ring.payloads[s % CAPACITY];
            && TickOutcome(p, decodes) == (if decodes then Heard(s, payload) else Garbled(s, payload))
            && Ticked(p, decodes) == (if decodes then Peer(Take(p.ring, s), s, 0)
                                      else Peer(Take(p.ring, s), p.lastPlayed, p.timeout + 1))
  {}

  // ---- Runs of one sender -----------------------------------------------------

  /** `ready` says whether a decoder could be opened, `decodes` whether the decoder
      accepted what it was given. */
  datatype Event =
    | Push(number: Sequence, payload: Payload, ready: bool)
    | Tick(decodes: bool)
    | Clear

  /** `handed` lists the real packets handed to the current decoder since it was opened,
      `quiet` counts the ticks since then or since the last one it played. */
  datatype State = State(peer: Option<Peer>, handed: seq<Sequence>, quiet: nat)

  const START := State(None, [], 0)

  ghost predicate ValidState(st: State) {
    st.peer.Some? ==> ValidPeer(st.peer.value)
  }

  ghost function Next(st: State, e: Event): (st': State)
    requires ValidState(st)
    ensures ValidState(st')
  {
    match e
    case Push(s, payload, ready) =>
      if st.peer.Some? then st.(peer := Some(Receive(st.peer.value, s, payload)))
      else if !ready then st
      else State(Some(Receive(NewPeer(s), s, payload)), [], 0)
    case Tick(decodes) =>
      if st.peer.None? then st
      else
        var p := st.peer.value;
        State(if Evicted(p, decodes) then None else Some(Ticked(p, decodes)),
              if TickOutcome(p, decodes).Concealed? then st.handed else st.handed + [Succ(p.lastPlayed)],
              if TickOutcome(p, decodes).Heard? then 0 else st.quiet + 1)
    case Clear => st.(peer := None)
  }

  ghost function RunFrom(st: State, es: seq<Event>): (st': State)
    requires ValidState(st)
    ensures ValidState(st')
  {
    if es == [] then st else Next(RunFrom(st, es[..|es| - 1]), es[|es| - 1])
  }

  ghost function Run(es: seq<Event>): State { RunFrom(START, es) }

  /** Every number a sender uses lies in 1..max. */
  predicate NumberedUpTo(es: seq<Event>, max: int) {
    forall e <- es :: e.Push? ==> 1 <= e.number <= max
  }

  function Last(ns: seq<Sequence>): int
    requires ns != []
  {
    ns[|ns| - 1]
  }

  predicate Increasing(ns: seq<Sequence>) {
    forall i :: 0 < i < |ns| ==> ns[i - 1] < ns[i]
  }

  lemma RunSnoc(st: State, es: seq<Event>, e: Event)
    requires ValidState(st)
    ensures RunFrom(st, es + [e]) == Next(RunFrom(st, es), e)
  {
    assert (es + [e])[..|es + [e]| - 1] == es;
  }

  // ---- What every step keeps --------------------------------------------------

  ghost predicate SlotsInOrder(r: Ring, lastPlayed: Sequence, max: int)
    requires WellFormed(r)
  {
    forall i :: 0 <= i < CAPACITY && r.numbers[i] != 0 ==>
      r.numbers[i] % CAPACITY == i && lastPlayed < r.numbers[i] <= max && r.readHead <= r.numbers[i]
  }

  /** Occupied slot i holds a number congruent to i, not yet played and not below the
      read head; the counter equals the quiet ticks and stays below 100. */
  ghost predicate Inv(st: State, max: int)
    requires ValidState(st)
  {
    && Increasing(st.handed)
    && (st.peer.Some? ==>
          var p := st.peer.value;
          && SlotsInOrder(p.ring, p.lastPlayed, max)
          && p.timeout == st.quiet < STALE_TIMEOUT_FRAMES
          && p.lastPlayed <= max + p.timeout
          && (st.handed == [] ==> p.ring.readHead == 0)
          && (st.handed != [] ==> p.ring.readHead == Last(st.handed) + 1))
  }

  lemma PutKeepsOrder(r: Ring, s: Sequence, payload: Payload, lastPlayed: Sequence, max: int)
    requires WellFormed(r) && SlotsInOrder(r, lastPlayed, max) && lastPlayed < s <= max
    ensures SlotsInOrder(Put(r, s, payload), lastPlayed, max)
  {}

  lemma PushKeepsInv(st: State, e: Event, max: int)
    requires ValidState(st) && Inv(st, max) && e.Push? && 1 <= e.number <= max < WORD
    ensures Inv(Next(st, e), max)
  {
    if st.peer.Some? {
      var p := st.peer.value;
      if e.number > p.lastPlayed {
        PutKeepsOrder(p.ring, e.number, e.payload, p.lastPlayed, max);
      }
    } else {
      var p := NewPeer(e.number);
      PutKeepsOrder(p.ring, e.number, e.payload, p.lastPlayed, max);
    }
  }

  /** The number taken is above everything handed out before, and below what is left. */
  lemma TakeKeepsOrder(r: Ring, expected: Sequence, max: int)
    requires WellFormed(r) && 0 < expected < WORD - 1 && SlotsInOrder(r, expected - 1, max)
    requires Holds(r, expected)
    ensures SlotsInOrder(Take(r, expected), expected, max)
    ensures r.readHead <= expected && Take(r, expected).readHead == expected + 1
  {}

  lemma MissKeepsOrder(r: Ring, lastPlayed: Sequence, max: int)
    requires WellFormed(r) && lastPlayed + 1 < WORD && SlotsInOrder(r, lastPlayed, max)
    requires !Holds(r, lastPlayed + 1)
    ensures SlotsInOrder(r, lastPlayed + 1, max)
  {
    forall i | 0 <= i < CAPACITY && r.numbers[i] != 0 ensures r.numbers[i] != lastPlayed + 1 {
      assert r.numbers[i] % CAPACITY == i;
    }
  }

  lemma HitKeepsInv(st: State, p: Peer, decodes: bool, max: int)
    requires st.peer == Some(p) && ValidPeer(p) && Inv(st, max) && max + STALE_TIMEOUT_FRAMES < WORD
    requires p.lastPlayed + 1 < WORD && Holds(p.ring, p.lastPlayed + 1)
    ensures Inv(Next(st, Tick(decodes)), max)
  {
    var expected := p.lastPlayed + 1;
    assert p.ring.numbers[expected % CAPACITY] == expected <= max;
    TakeKeepsOrder(p.ring, expected, max);
    HitTick(p, decodes);
  }

  lemma MissKeepsInv(st: State, p: Peer, decodes: bool, max: int)
    requires st.peer == Some(p) && ValidPeer(p) && Inv(st, max) && max + STALE_TIMEOUT_FRAMES < WORD
    requires p.lastPlayed + 1 < WORD && !Holds(p.ring, p.lastPlayed + 1)
    ensures Inv(Next(st, Tick(decodes)), max)
  {
    MissKeepsOrder(p.ring, p.lastPlayed, max);
    MissedTick(p, decodes);
  }

  lemma TickKeepsInv(st: State, e: Event, max: int)
    requires ValidState(st) && Inv(st, max) && e.Tick?
    requires max + STALE_TIMEOUT_FRAMES < WORD
    ensures Inv(Next(st, e), max)
  {
    if st.peer.Some? {
      var p := st.peer.value;
      if Holds(p.ring, p.lastPlayed + 1) {
        HitKeepsInv(st, p, e.decodes, max);
      } else {
        MissKeepsInv(st, p, e.decodes, max);
      }
    }
  }

  lemma StepKeepsInv(st: State, e: Event, max: int)
    requires ValidState(st) && Inv(st, max) && (e.Push? ==> 1 <= e.number <= max)
    requires max + STALE_TIMEOUT_FRAMES < WORD
    ensures Inv(Next(st, e), max)
  {
    match e
    case Push(_, _, _) => PushKeepsInv(st, e, max);
    case Tick(_) => TickKeepsInv(st, e, max);
    case Clear =>
  }

  lemma {:induction false} RunKeepsInv(es: seq<Event>, max: int)
    requires NumberedUpTo(es, max) && max + STALE_TIMEOUT_FRAMES < WORD
    ensures Inv(Run(es), max)
  {
    if es != [] {
      RunKeepsInv(es[..|es| - 1], max);
      StepKeepsInv(Run(es[..|es| - 1]), es[|es| - 1], max);
    }
  }

  /** The counter is the number of ticks since the decoder was opened or last played a
      packet, never reaches 100, and a tick evicts exactly when it would. */
  lemma EvictsAtExactlyOneHundred(es: seq<Event>, max: int, decodes: bool)
    requires NumberedUpTo(es, max) && max + STALE_TIMEOUT_FRAMES < WORD
    requires Run(es).peer.Some?
    ensures Run(es).peer.value.timeout == Run(es).quiet <= 99
    ensures Run(es + [Tick(decodes)]).peer.None? <==> Run(es + [Tick(decodes)]).quiet == 100
  {
    RunKeepsInv(es, max);
    RunSnoc(START, es, Tick(decodes));
  }

  // ---- Order ------------------------------------------------------------------

  /** With duplicates, reordering, far-ahead packets and decode failures, one decoder is
      handed strictly increasing numbers. */
  lemma HandedNumbersIncrease(es: seq<Event>, max: int)
    requires NumberedUpTo(es, max) && max + STALE_TIMEOUT_FRAMES < WORD
    ensures Increasing(Run(es).handed)
  {
    RunKeepsInv(es, max);
  }

  /** After the packet numbered WORD - 100 and then silence, playback counts on to the
      number 0, which the ring uses as its empty marker. */
  ghost function Silence(n: nat): (es: seq<Event>)
    ensures NumberedUpTo(es, WORD - 100)
  {
    if n == 0 then [Push(WORD - 100, [0], true), Tick(true)] else Silence(n - 1) + [Tick(true)]
  }

  ghost predicate QuietSince(st: State, s: Sequence, n: nat) {
    && st.handed == [s]
    && st.peer.Some? && ValidPeer(st.peer.value)
    && st.peer.value.lastPlayed == s + n
    && st.peer.value.timeout == n
    && (forall i :: 0 <= i < CAPACITY ==> st.peer.value.ring.numbers[i] == 0)
  }

  lemma FirstPacketPlayed(s: Sequence)
    requires 1 <= s < WORD - 1
    ensures QuietSince(Next(Next(START, Push(s, [0], true)), Tick(true)), s, 0)
  {
    var p := Receive(NewPeer(s), s, [0]);
    assert Next(START, Push(s, [0], true)) == State(Some(p), [], 0);
    assert Holds(p.ring, p.lastPlayed + 1);
    HitTick(p, true);
  }

  lemma StaysQuiet(st: State, s: Sequence, n: nat)
    requires ValidState(st) && QuietSince(st, s, n) && s + n + 1 < WORD && n + 1 < STALE_TIMEOUT_FRAMES
    ensures QuietSince(Next(st, Tick(true)), s, n + 1)
  {
    assert st.peer.value.ring.numbers[(s + n + 1) % CAPACITY] == 0;
    MissedTick(st.peer.value, true);
  }

  lemma RunTwo(e: Event, f: Event)
    ensures Run([e, f]) == Next(Next(START, e), f)
  {
    assert [e, f][..1] == [e] && [e][..0] == [];
    assert RunFrom(START, [e]) == Next(RunFrom(START, []), e);
  }

  lemma {:induction false} SilenceState(n: nat)
    requires n <= 99
    ensures QuietSince(Run(Silence(n)), WORD - 100, n)
  {
    if n == 0 {
      FirstPacketPlayed(WORD - 100);
      RunTwo(Push(WORD - 100, [0], true), Tick(true));
    } else {
      SilenceState(n - 1);
      RunSnoc(START, Silence(n - 1), Tick(true));
      StaysQuiet(Run(Silence(n - 1)), WORD - 100, n - 1);
    }
  }

  /** The empty marker was handed over as packet 0, n ticks after the last real one, and
      nothing since. */
  ghost predicate ZeroPlayed(st: State, s: Sequence, n: nat) {
    && st.handed == [s, 0]
    && (st.peer.Some? ==>
          var p := st.peer.value;
          && ValidPeer(p) && p.lastPlayed == p.timeout == n - STALE_TIMEOUT_FRAMES
          && (forall i :: 0 <= i < CAPACITY ==> p.ring.numbers[i] == 0))
  }

  lemma TakesTheMarker(st: State, s: Sequence)
    requires QuietSince(st, s, STALE_TIMEOUT_FRAMES - 1) && s == WORD - STALE_TIMEOUT_FRAMES
    ensures ZeroPlayed(Next(st, Tick(true)), s, STALE_TIMEOUT_FRAMES)
  {
    assert Succ(st.peer.value.lastPlayed) == 0 && Holds(st.peer.value.ring, 0);
  }

  lemma StaysSilent(st: State, s: Sequence, n: nat)
    requires ValidState(st) && ZeroPlayed(st, s, n) && n >= STALE_TIMEOUT_FRAMES
    requires st.peer.Some? ==> n - STALE_TIMEOUT_FRAMES < STALE_TIMEOUT_FRAMES
    ensures ZeroPlayed(Next(st, Tick(true)), s, n + 1)
    ensures Next(st, Tick(true)).peer.Some? ==> n + 1 - STALE_TIMEOUT_FRAMES < STALE_TIMEOUT_FRAMES
  {
    if st.peer.Some? {
      var expected := n - STALE_TIMEOUT_FRAMES + 1;
      assert st.peer.value.ring.numbers[expected % CAPACITY] == 0;
      MissedTick(st.peer.value, true);
    }
  }

  /** From the hundredth silent tick on, the empty marker counts as packet number 0. */
  lemma {:induction false} ZeroIsHandedOver(n: nat)
    requires n >= STALE_TIMEOUT_FRAMES
    ensures ZeroPlayed(Run(Silence(n)), WORD - 100, n)
    ensures Run(Silence(n)).peer.Some? ==> n - STALE_TIMEOUT_FRAMES < STALE_TIMEOUT_FRAMES
  {
    var st := Run(Silence(n - 1));
    RunSnoc(START, Silence(n - 1), Tick(true));
    if n == STALE_TIMEOUT_FRAMES {
      SilenceState(n - 1);
      TakesTheMarker(st, WORD - 100);
    } else {
      ZeroIsHandedOver(n - 1);
      StaysSilent(st, WORD - 100, n - 1);
    }
  }

  ghost predicate AlwaysIncreasing(max: int) {
    forall es: seq<Event> :: NumberedUpTo(es, max) ==> Increasing(Run(es).handed)
  }

  /** Order is guaranteed exactly for senders that stay 100 numbers short of the wrap. */
  lemma OrderExactlyBelowTheWrap(max: int)
    ensures AlwaysIncreasing(max) <==> max + STALE_TIMEOUT_FRAMES < WORD
  {
    if max + STALE_TIMEOUT_FRAMES < WORD {
      forall es: seq<Event> | NumberedUpTo(es, max) ensures Increasing(Run(es).handed) {
        HandedNumbersIncrease(es, max);
      }
    } else {
      var n: nat := 100;
      ZeroIsHandedOver(n);
      assert NumberedUpTo(Silence(n), max);
      var handed := Run(Silence(n)).handed;
      assert handed[1] <= handed[0];
    }
  }
}
