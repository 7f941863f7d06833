/** Inside the 50-packet window the ring is an unbounded map, and a packet is played on
    time. */
module PlaybackWindow {
  import opened Basics
  import opened JitterBuffering
  import opened PeerPlayback

  // ---- The ring as a map ------------------------------------------------------

  /** What the ring holds, as a map from sequence number to payload. */
  ghost function Pending(r: Ring): map<int, Payload>
    requires WellFormed(r)
  {
    map s: int | 0 < s < WORD && r.numbers[s % CAPACITY] == s :: r.payloads[s % CAPACITY]
  }

  /** The reference playback: an unbounded map, no slots, no residues. */
  datatype MapPeer = MapPeer(pending: map<int, Payload>, readHead: int, lastPlayed: int, timeout: nat)

  ghost function Abstract(p: Peer): MapPeer
    requires ValidPeer(p)
  {
    MapPeer(Pending(p.ring), p.ring.readHead, p.lastPlayed, p.timeout)
  }

  ghost function MapReceive(m: MapPeer, s: int, payload: Payload): MapPeer {
    if s <= m.lastPlayed || s < m.readHead || payload == [] || |payload| > MAX_PACKET_SIZE then m
    else m.(pending := m.pending[s := payload])
  }

  ghost function MapOutcome(m: MapPeer, decodes: bool): Outcome {
    var next := m.lastPlayed + 1;
    if next !in m.pending || !(0 <= next < WORD) then Concealed
    else if decodes then Heard(next, m.pending[next]) else Garbled(next, m.pending[next])
  }

  ghost function MapTicked(m: MapPeer, decodes: bool): MapPeer {
    var next := m.lastPlayed + 1;
    match MapOutcome(m, decodes)
    case Heard(_, _) => MapPeer(m.pending - {next}, next + 1, next, 0)
    case Garbled(_, _) => MapPeer(m.pending - {next}, next + 1, m.lastPlayed, m.timeout + 1)
    case Concealed => m.(lastPlayed := next, timeout := m.timeout + 1)
  }

  ghost function MapNext(m: Option<MapPeer>, e: Event): Option<MapPeer> {
    match e
    case Push(s, payload, ready) =>
      if m.Some? then Some(MapReceive(m.value, s, payload))
      else if ready then Some(MapReceive(MapPeer(map[], 0, s - 1, 0), s, payload))
      else None
    case Tick(decodes) =>
      if m.None? || MapTicked(m.value, decodes).timeout >= STALE_TIMEOUT_FRAMES then None
      else Some(MapTicked(m.value, decodes))
    case Clear => None
  }

  ghost function MapRun(es: seq<Event>): Option<MapPeer> {
    if es == [] then None else MapNext(MapRun(es[..|es| - 1]), es[|es| - 1])
  }

  // ---- The window -------------------------------------------------------------

  /** Whether the peer takes the packet in. */
  ghost predicate Accepts(p: Peer, s: Sequence, payload: Payload) {
    s > p.lastPlayed && Acceptable(p.ring, s, payload)
  }

  ghost predicate StepInWindow(st: State, e: Event) {
    st.peer.Some? && e.Push? && Accepts(st.peer.value, e.number, e.payload) ==>
      e.number <= st.peer.value.lastPlayed + CAPACITY
  }

  ghost predicate InWindow(es: seq<Event>) {
    es == [] || (InWindow(es[..|es| - 1]) && StepInWindow(Run(es[..|es| - 1]), es[|es| - 1]))
  }

  ghost predicate Windowed(p: Peer) {
    ValidPeer(p) && SlotsInOrder(p.ring, p.lastPlayed, p.lastPlayed + CAPACITY)
  }

  /** Without the window condition, a packet overwrites whatever shares its residue. */
  lemma PutOverwritesResidue(r: Ring, s: Sequence, payload: Payload)
    requires WellFormed(r) && s > 0 && Acceptable(r, s, payload)
    ensures var old' := Pending(r);
            Pending(Put(r, s, payload)) == (map t | t in old' && t % CAPACITY != s % CAPACITY :: old'[t])[s := payload]
  {}

  lemma SameResidue(t: int, s: int, base: int)
    requires base < t <= base + CAPACITY && base < s <= base + CAPACITY
    ensures t % CAPACITY == s % CAPACITY ==> t == s
  {}

  lemma PutAddsEntry(r: Ring, s: Sequence, payload: Payload, lastPlayed: Sequence)
    requires WellFormed(r) && SlotsInOrder(r, lastPlayed, lastPlayed + CAPACITY) && Acceptable(r, s, payload)
    requires lastPlayed < s <= lastPlayed + CAPACITY
    ensures Pending(Put(r, s, payload)) == Pending(r)[s := payload]
  {
    PutOverwritesResidue(r, s, payload);
    forall t <- Pending(r) ensures t % CAPACITY == s % CAPACITY ==> t == s {
      assert r.numbers[t % CAPACITY] == t;
      SameResidue(t, s, lastPlayed);
    }
  }

  lemma ReceiveRefines(p: Peer, s: Sequence, payload: Payload)
    requires Windowed(p) && s > 0
    requires Accepts(p, s, payload) ==> s <= p.lastPlayed + CAPACITY
    ensures Windowed(Receive(p, s, payload))
    ensures Abstract(Receive(p, s, payload)) == MapReceive(Abstract(p), s, payload)
  {
    if Accepts(p, s, payload) {
      PutAddsEntry(p.ring, s, payload, p.lastPlayed);
      PutKeepsOrder(p.ring, s, payload, p.lastPlayed, p.lastPlayed + CAPACITY);
    }
  }

  lemma TakeRemoves(r: Ring, s: Sequence)
    requires WellFormed(r) && s > 0 && Holds(r, s)
    ensures Pending(Take(r, s)) == Pending(r) - {s as int}
  {}

  /** A tick that finds its packet does the same on the ring and on the map, window or not. */
  lemma HitAgrees(p: Peer, decodes: bool)
    requires ValidPeer(p) && p.lastPlayed + 2 < WORD && Holds(p.ring, p.lastPlayed + 1)
    ensures TickOutcome(p, decodes) == MapOutcome(Abstract(p), decodes)
    ensures Abstract(Ticked(p, decodes)) == MapTicked(Abstract(p), decodes)
  {
    TakeRemoves(p.ring, p.lastPlayed + 1);
    assert p.lastPlayed + 1 in Pending(p.ring);
    HitTick(p, decodes);
  }

  lemma MissAgrees(p: Peer, decodes: bool)
    requires ValidPeer(p) && p.lastPlayed + 1 < WORD && !Holds(p.ring, p.lastPlayed + 1)
    ensures TickOutcome(p, decodes) == MapOutcome(Abstract(p), decodes)
    ensures Abstract(Ticked(p, decodes)) == MapTicked(Abstract(p), decodes)
  {
    assert p.lastPlayed + 1 !in Pending(p.ring);
    MissedTick(p, decodes);
  }

  lemma TickAgrees(p: Peer, decodes: bool)
    requires ValidPeer(p) && p.lastPlayed + 1 < WORD && !Holds(p.ring, WORD - 1)
    ensures TickOutcome(p, decodes) == MapOutcome(Abstract(p), decodes)
    ensures Abstract(Ticked(p, decodes)) == MapTicked(Abstract(p), decodes)
  {
    if Holds(p.ring, p.lastPlayed + 1) {
      HitAgrees(p, decodes);
    } else {
      MissAgrees(p, decodes);
    }
  }

  lemma HitRefines(p: Peer, decodes: bool)
    requires Windowed(p) && p.lastPlayed + 2 < WORD && Holds(p.ring, p.lastPlayed + 1)
    ensures Windowed(Ticked(p, decodes))
  {
    TakeKeepsOrder(p.ring, p.lastPlayed + 1, p.lastPlayed + CAPACITY);
    HitTick(p, decodes);
  }

  lemma MissRefines(p: Peer, decodes: bool)
    requires Windowed(p) && p.lastPlayed + 1 < WORD && !Holds(p.ring, p.lastPlayed + 1)
    ensures Windowed(Ticked(p, decodes))
  {
    MissedTick(p, decodes);
    MissKeepsOrder(p.ring, p.lastPlayed, p.lastPlayed + CAPACITY);
  }

  lemma TickRefines(p: Peer, decodes: bool)
    requires Windowed(p) && p.lastPlayed + 1 < WORD && !Holds(p.ring, WORD - 1)
    ensures TickOutcome(p, decodes) == MapOutcome(Abstract(p), decodes)
    ensures Windowed(Ticked(p, decodes))
    ensures Abstract(Ticked(p, decodes)) == MapTicked(Abstract(p), decodes)
  {
    TickAgrees(p, decodes);
    if Holds(p.ring, p.lastPlayed + 1) {
      HitRefines(p, decodes);
    } else {
      MissRefines(p, decodes);
    }
  }

  lemma TopIsFree(st: State, max: int)
    requires ValidState(st) && Inv(st, max) && max + STALE_TIMEOUT_FRAMES < WORD && st.peer.Some?
    ensures st.peer.value.lastPlayed + 1 < WORD && !Holds(st.peer.value.ring, WORD - 1)
  {}

  ghost function AbstractState(st: State): Option<MapPeer>
    requires ValidState(st)
  {
    if st.peer.None? then None else Some(Abstract(st.peer.value))
  }

  /** While every accepted packet is at most 50 ahead of playback, the ring and an
      unbounded map go through the same states and give the decoder the same packets. */
  lemma {:induction false} RingRefinesMap(es: seq<Event>, max: int)
    requires NumberedUpTo(es, max) && max + STALE_TIMEOUT_FRAMES < WORD
    requires InWindow(es)
    ensures AbstractState(Run(es)) == MapRun(es)
    ensures Run(es).peer.Some? ==>
              && Windowed(Run(es).peer.value)
              && (forall decodes :: TickOutcome(Run(es).peer.value, decodes) == MapOutcome(MapRun(es).value, decodes))
  {
    RunKeepsInv(es, max);
    if es != [] {
      var before, e := es[..|es| - 1], es[|es| - 1];
      RingRefinesMap(before, max);
      RunKeepsInv(before, max);
      StepRefines(Run(before), e, max);
    }
    if Run(es).peer.Some? {
      TopIsFree(Run(es), max);
      forall decodes: bool ensures TickOutcome(Run(es).peer.value, decodes) == MapOutcome(MapRun(es).value, decodes) {
        TickRefines(Run(es).peer.value, decodes);
      }
    }
  }

  lemma StepRefines(st: State, e: Event, max: int)
    requires ValidState(st) && Inv(st, max) && max + STALE_TIMEOUT_FRAMES < WORD
    requires e.Push? ==> 1 <= e.number <= max
    requires st.peer.Some? ==> Windowed(st.peer.value)
    requires StepInWindow(st, e)
    ensures AbstractState(Next(st, e)) == MapNext(AbstractState(st), e)
    ensures Next(st, e).peer.Some? ==> Windowed(Next(st, e).peer.value)
  {
    match e
    case Push(s, payload, ready) =>
      if st.peer.Some? {
        ReceiveRefines(st.peer.value, s, payload);
      } else {
        var p := NewPeer(s);
        assert Pending(p.ring) == map[];
        ReceiveRefines(p, s, payload);
      }
    case Tick(decodes) =>
      if st.peer.Some? {
        TopIsFree(st, max);
        TickRefines(st.peer.value, decodes);
      }
    case Clear =>
  }

  // ---- Exactly when the ring is a map ---------------------------------------------

  /** Another pending packet sits in the slot that s goes to. */
  ghost predicate Collides(r: Ring, s: Sequence)
    requires WellFormed(r)
  {
    exists t :: t in Pending(r) && t != s && t % CAPACITY == s % CAPACITY
  }

  lemma PutAddsExactly(r: Ring, s: Sequence, payload: Payload)
    requires WellFormed(r) && s > 0 && Acceptable(r, s, payload)
    ensures Pending(Put(r, s, payload)) == Pending(r)[s as int := payload] <==> !Collides(r, s)
  {
    PutOverwritesResidue(r, s, payload);
    if Collides(r, s) {
      var t :| t in Pending(r) && t != s && t % CAPACITY == s % CAPACITY;
      assert t !in Pending(Put(r, s, payload));
    } else {
      assert Pending(Put(r, s, payload)) == Pending(r)[s as int := payload];
    }
  }

  ghost predicate StepCollides(st: State, e: Event)
    requires ValidState(st)
  {
    && st.peer.Some? && e.Push? && Accepts(st.peer.value, e.number, e.payload)
    && Collides(st.peer.value.ring, e.number)
  }

  lemma StepAgreesExactly(st: State, e: Event, max: int)
    requires ValidState(st) && Inv(st, max) && max + STALE_TIMEOUT_FRAMES < WORD
    requires e.Push? ==> 1 <= e.number <= max
    ensures AbstractState(Next(st, e)) == MapNext(AbstractState(st), e) <==> !StepCollides(st, e)
  {
    match e
    case Push(s, payload, ready) =>
      if st.peer.Some? {
        ReceiveAgreesExactly(st.peer.value, s, payload);
      } else {
        var p := NewPeer(s);
        assert Pending(p.ring) == map[];
        ReceiveAgreesExactly(p, s, payload);
      }
    case Tick(decodes) =>
      if st.peer.Some? {
        TopIsFree(st, max);
        TickAgrees(st.peer.value, decodes);
      }
    case Clear =>
  }

  lemma ReceiveAgreesExactly(p: Peer, s: Sequence, payload: Payload)
    requires ValidPeer(p) && s > 0
    ensures Abstract(Receive(p, s, payload)) == MapReceive(Abstract(p), s, payload)
            <==> !(Accepts(p, s, payload) && Collides(p.ring, s))
  {
    if Accepts(p, s, payload) {
      PutAddsExactly(p.ring, s, payload);
    }
  }

  ghost predicate AlwaysAgrees(es: seq<Event>) {
    AbstractState(Run(es)) == MapRun(es) && (es != [] ==> AlwaysAgrees(es[..|es| - 1]))
  }

  ghost predicate NeverCollides(es: seq<Event>) {
    es == [] || (NeverCollides(es[..|es| - 1]) && !StepCollides(Run(es[..|es| - 1]), es[|es| - 1]))
  }

  /** The ring goes through the states of the unbounded map exactly when no accepted packet
      meets another pending one of its residue. */
  lemma {:induction false} RingIsMapExactly(es: seq<Event>, max: int)
    requires NumberedUpTo(es, max) && max + STALE_TIMEOUT_FRAMES < WORD
    ensures AlwaysAgrees(es) <==> NeverCollides(es)
  {
    if es != [] {
      var before, e := es[..|es| - 1], es[|es| - 1];
      RingIsMapExactly(before, max);
      RunKeepsInv(before, max);
      StepAgreesExactly(Run(before), e, max);
    }
  }

  // ---- Playing on time --------------------------------------------------------

  function Ticks(es: seq<Event>): nat {
    if es == [] then 0 else Ticks(es[..|es| - 1]) + (if es[|es| - 1].Tick? then 1 else 0)
  }

  /** The last usable payload pushed under number s, or the one given. */
  function Latest(es: seq<Event>, s: Sequence, payload: Payload): Payload {
    if es == [] then payload
    else
      var e := es[|es| - 1];
      if e.Push? && e.number == s && 0 < |e.payload| <= MAX_PACKET_SIZE then e.payload
      else Latest(es[..|es| - 1], s, payload)
  }

  /** Nothing is cleared, and every packet is in the window and decodes. */
  ghost predicate Continues(st: State, es: seq<Event>)
    requires ValidState(st)
  {
    es != [] ==>
      var before, e := es[..|es| - 1], es[|es| - 1];
      && Continues(st, before)
      && StepInWindow(RunFrom(st, before), e)
      && (e.Push? ==> e.number > 0)
      && (e.Tick? ==> e.decodes)
      && !e.Clear?
  }

  ghost predicate Waiting(p: Peer, s: Sequence, payload: Payload) {
    && Windowed(p)
    && Taken(p.ring, s) == Some(payload)
    && p.lastPlayed < s < WORD - 1
  }

  lemma PushKeepsWaiting(p: Peer, s: Sequence, payload: Payload, t: Sequence, other: Payload)
    requires Waiting(p, s, payload) && t > 0
    requires Accepts(p, t, other) ==> t <= p.lastPlayed + CAPACITY
    ensures Waiting(Receive(p, t, other), s, if t == s && 0 < |other| <= MAX_PACKET_SIZE then other else payload)
  {
    ReceiveRefines(p, t, other);
    assert p.ring.numbers[s % CAPACITY] == s;
  }

  lemma OtherSlotStays(r: Ring, expected: Sequence, s: Sequence)
    requires WellFormed(r) && Holds(r, s) && expected < s <= expected + CAPACITY - 1
    ensures Holds(Take(r, expected), s) && Taken(Take(r, expected), s) == Taken(r, s)
  {
    assert s % CAPACITY != expected % CAPACITY;
  }

  lemma TickKeepsWaiting(p: Peer, s: Sequence, payload: Payload)
    requires Waiting(p, s, payload) && p.lastPlayed + 1 < s
    ensures Waiting(Ticked(p, true), s, payload)
    ensures Ticked(p, true).lastPlayed == p.lastPlayed + 1
  {
    assert p.ring.numbers[s % CAPACITY] == s;
    if Holds(p.ring, p.lastPlayed + 1) {
      HitRefines(p, true);
      OtherSlotStays(p.ring, p.lastPlayed + 1, s);
    } else {
      MissRefines(p, true);
    }
  }

  // ---- Living long enough -----------------------------------------------------

  /** Some packet up to s will be decoded before the eviction counter runs out. */
  ghost predicate Sustained(p: Peer, s: Sequence)
    requires ValidPeer(p)
  {
    exists x :: x in Pending(p.ring) && Sustains(p, s, x)
  }

  predicate Sustains(p: Peer, s: Sequence, x: int) {
    p.lastPlayed < x <= s && x - p.lastPlayed <= STALE_TIMEOUT_FRAMES - p.timeout
  }

  lemma WaitingIsPending(p: Peer, s: Sequence, payload: Payload)
    requires Waiting(p, s, payload)
    ensures s in Pending(p.ring) && p.lastPlayed < s <= p.lastPlayed + CAPACITY
  {
    assert p.ring.numbers[s % CAPACITY] == s;
  }

  lemma PushKeepsSustained(p: Peer, s: Sequence, t: Sequence, other: Payload)
    requires Windowed(p) && Sustained(p, s) && t > 0
    requires Accepts(p, t, other) ==> t <= p.lastPlayed + CAPACITY
    ensures Sustained(Receive(p, t, other), s)
  {
    var x :| x in Pending(p.ring) && Sustains(p, s, x);
    ReceiveRefines(p, t, other);
    var q := Receive(p, t, other);
    assert Abstract(q).pending.Keys >= Pending(p.ring).Keys;
    assert Pending(q.ring) == Abstract(q).pending;
    assert x in Pending(q.ring) && Sustains(q, s, x);
  }

  /** A tick that plays a packet makes the waiting one sustain itself; any other tick
      leaves the sustaining packet where it is. */
  lemma TickKeepsSustained(p: Peer, s: Sequence, payload: Payload)
    requires Waiting(p, s, payload) && Sustained(p, s) && p.lastPlayed + 1 < s
    ensures Sustained(Ticked(p, true), s)
    ensures Ticked(p, true).timeout < STALE_TIMEOUT_FRAMES
  {
    TickKeepsWaiting(p, s, payload);
    WaitingIsPending(Ticked(p, true), s, payload);
    if Holds(p.ring, p.lastPlayed + 1) {
      HitTick(p, true);
      assert Sustains(Ticked(p, true), s, s);
    } else {
      var x :| x in Pending(p.ring) && Sustains(p, s, x);
      MissedTick(p, true);
      assert x != p.lastPlayed + 1;
      assert x in Pending(Ticked(p, true).ring) && Sustains(Ticked(p, true), s, x);
    }
  }

  /** The packet s waits with this payload in a peer that will not be evicted before. */
  ghost predicate Secure(st: State, s: Sequence, payload: Payload)
    requires ValidState(st)
  {
    st.peer.Some? && Waiting(st.peer.value, s, payload) && Sustained(st.peer.value, s)
  }

  lemma StepKeepsSecure(st: State, e: Event, s: Sequence, payload: Payload)
    requires ValidState(st) && Secure(st, s, payload)
    requires StepInWindow(st, e) && !e.Clear?
    requires e.Push? ==> e.number > 0
    requires e.Tick? ==> e.decodes && st.peer.value.lastPlayed + 1 < s
    ensures Secure(Next(st, e), s, Latest([e], s, payload))
    ensures Next(st, e).peer.value.lastPlayed == st.peer.value.lastPlayed + (if e.Tick? then 1 else 0)
  {
    assert [e][..0] == [];
    match e
    case Push(t, other, _) =>
      PushKeepsWaiting(st.peer.value, s, payload, t, other);
      PushKeepsSustained(st.peer.value, s, t, other);
    case Tick(_) =>
      TickKeepsWaiting(st.peer.value, s, payload);
      TickKeepsSustained(st.peer.value, s, payload);
  }

  lemma LatestSnoc(es: seq<Event>, s: Sequence, payload: Payload)
    requires es != []
    ensures Latest(es, s, payload) == Latest([es[|es| - 1]], s, Latest(es[..|es| - 1], s, payload))
  {
    assert [es[|es| - 1]][..0] == [];
  }

  /** Until its turn the packet keeps its slot, with the latest payload sent under its
      number, and its peer lives. */
  lemma {:induction false} WaitsItsTurn(st: State, es: seq<Event>, s: Sequence, payload: Payload)
    requires ValidState(st) && Secure(st, s, payload)
    requires Continues(st, es) && st.peer.value.lastPlayed + Ticks(es) < s
    ensures Secure(RunFrom(st, es), s, Latest(es, s, payload))
    ensures RunFrom(st, es).peer.value.lastPlayed == st.peer.value.lastPlayed + Ticks(es)
  {
    if es != [] {
      var before, e := es[..|es| - 1], es[|es| - 1];
      WaitsItsTurn(st, before, s, payload);
      LatestSnoc(es, s, payload);
      StepKeepsSecure(RunFrom(st, before), e, s, Latest(before, s, payload));
    }
  }

  lemma PushWaits(p: Peer, s: Sequence, payload: Payload)
    requires Windowed(p) && Accepts(p, s, payload) && s <= p.lastPlayed + CAPACITY && s < WORD - 1
    ensures Waiting(Receive(p, s, payload), s, payload)
    ensures Pending(Receive(p, s, payload).ring) == Pending(p.ring)[s as int := payload]
  {
    ReceiveRefines(p, s, payload);
    assert Abstract(Receive(p, s, payload)).pending == Pending(p.ring)[s as int := payload];
  }

  lemma WaitingIsHeard(p: Peer, s: Sequence, payload: Payload)
    requires Waiting(p, s, payload) && p.lastPlayed + 1 == s
    ensures TickOutcome(p, true) == Heard(s, payload)
  {}

  /** Whether a packet with number s, taken in now, will find its peer alive at its turn:
      the packet itself or one pending before it is due before the counter runs out. */
  ghost predicate InTime(p: Peer, s: Sequence)
    requires ValidPeer(p)
  {
    Sustains(p, s, s) || Sustained(p, s)
  }

  /** What a push of s into this state leads to. */
  ghost function Pushed(st: State, s: Sequence, payload: Payload): (st': State)
    requires ValidState(st)
    ensures ValidState(st')
  {
    Next(st, Push(s, payload, true))
  }

  /** The next tick decodes the packet. */
  ghost predicate HeardNext(st: State, s: Sequence, payload: Payload)
    requires ValidState(st)
  {
    st.peer.Some? && TickOutcome(st.peer.value, true) == Heard(s, payload)
  }

  lemma PushedIsSustained(p: Peer, s: Sequence, payload: Payload)
    requires Windowed(p) && Accepts(p, s, payload) && s <= p.lastPlayed + CAPACITY && s < WORD - 1
    ensures Sustained(Receive(p, s, payload), s) <==> InTime(p, s)
  {
    PushWaits(p, s, payload);
    var q := Receive(p, s, payload);
    assert s in Pending(q.ring);
    assert forall x :: Sustains(q, s, x) <==> Sustains(p, s, x);
    if Sustained(q, s) {
      var x :| x in Pending(q.ring) && Sustains(q, s, x);
      assert x == s || x in Pending(p.ring);
    }
    if Sustained(p, s) {
      var x :| x in Pending(p.ring) && Sustains(p, s, x);
      assert x in Pending(q.ring);
    }
  }

  /** A packet taken in in time at distance d from playback is the one decoded at the d-th
      tick that follows, with the latest payload sent under its number. */
  lemma PlayedAtItsTick(st: State, p: Peer, s: Sequence, payload: Payload, es: seq<Event>)
    requires ValidState(st) && st.peer == Some(p) && Windowed(p)
    requires Accepts(p, s, payload) && s <= p.lastPlayed + CAPACITY && s < WORD - 1
    requires InTime(p, s)
    requires Continues(Pushed(st, s, payload), es) && Ticks(es) + 1 == s - p.lastPlayed
    ensures HeardNext(RunFrom(Pushed(st, s, payload), es), s, Latest(es, s, payload))
  {
    var pushed := Pushed(st, s, payload);
    assert pushed.peer == Some(Receive(p, s, payload));
    PushWaits(p, s, payload);
    PushedIsSustained(p, s, payload);
    WaitsItsTurn(pushed, es, s, payload);
    WaitingIsHeard(RunFrom(pushed, es).peer.value, s, Latest(es, s, payload));
  }

  // ---- Too late ---------------------------------------------------------------

  /** n ticks with nothing arriving. */
  function Quiet(n: nat): seq<Event> {
    if n == 0 then [] else Quiet(n - 1) + [Tick(true)]
  }

  ghost function AfterQuiet(p: Peer, n: nat): Option<Peer> {
    if p.timeout + n < STALE_TIMEOUT_FRAMES && p.lastPlayed + n < WORD
    then Some(Peer(p.ring, p.lastPlayed + n, p.timeout + n)) else None
  }

  lemma QuietStep(p: Peer, st: State, n: nat, s: Sequence)
    requires ValidPeer(p) && st.peer == AfterQuiet(p, n) && !Sustained(p, s) && p.lastPlayed + n + 1 <= s
    ensures Next(st, Tick(true)).peer == AfterQuiet(p, n + 1)
  {
    if st.peer.Some? {
      var next := p.lastPlayed + n + 1;
      assert Sustains(p, s, next);
      assert next !in Pending(p.ring);
      MissedTick(st.peer.value, true);
    }
  }

  lemma QuietTick(st: State, es: seq<Event>, more: seq<Event>, p: Peer, n: nat, s: Sequence)
    requires ValidState(st) && more == es + [Tick(true)] && RunFrom(st, es).peer == AfterQuiet(p, n)
    requires ValidPeer(p) && !Sustained(p, s) && p.lastPlayed + n + 1 <= s
    ensures RunFrom(st, more).peer == AfterQuiet(p, n + 1)
  {
    RunSnoc(st, es, Tick(true));
    QuietStep(p, RunFrom(st, es), n, s);
  }

  lemma {:induction false} QuietContinues(st: State, n: nat)
    requires ValidState(st)
    ensures Continues(st, Quiet(n)) && Ticks(Quiet(n)) == n
  {
    if n > 0 {
      QuietContinues(st, n - 1);
      assert Quiet(n)[..|Quiet(n)| - 1] == Quiet(n - 1);
    }
  }

  /** With nothing arriving and nothing due in time, the peer counts down to its eviction. */
  lemma {:induction false} QuietRun(st: State, p: Peer, n: nat, s: Sequence)
    requires ValidPeer(p) && st.peer == Some(p) && p.timeout < STALE_TIMEOUT_FRAMES
    requires !Sustained(p, s) && p.lastPlayed + n <= s
    ensures RunFrom(st, Quiet(n)).peer == AfterQuiet(p, n)
  {
    if n > 0 {
      QuietRun(st, p, n - 1, s);
      QuietTick(st, Quiet(n - 1), Quiet(n), p, n - 1, s);
    }
  }

  lemma EvictedBeforeItsTurn(p: Peer, s: Sequence, payload: Payload)
    requires Waiting(p, s, payload) && p.timeout < STALE_TIMEOUT_FRAMES && !Sustained(p, s)
    ensures AfterQuiet(p, s - p.lastPlayed - 1) == None
  {
    WaitingIsPending(p, s, payload);
    assert !Sustains(p, s, s);
  }

  /** Whatever in-window packets follow, the packet is heard when its turn comes. */
  ghost predicate SureToBeHeard(st: State, p: Peer, s: Sequence, payload: Payload)
    requires ValidState(st)
  {
    forall es :: Continues(Pushed(st, s, payload), es) && Ticks(es) + 1 == s - p.lastPlayed ==>
                   HeardNext(RunFrom(Pushed(st, s, payload), es), s, Latest(es, s, payload))
  }

  /** A packet at distance d from playback is sure to be decoded at the d-th tick exactly
      when the packet itself, or one pending before it, is due before the eviction. */
  lemma PlayedAtItsTickExactly(st: State, p: Peer, s: Sequence, payload: Payload)
    requires ValidState(st) && st.peer == Some(p) && Windowed(p) && p.timeout < STALE_TIMEOUT_FRAMES
    requires Accepts(p, s, payload) && s <= p.lastPlayed + CAPACITY && s < WORD - 1
    ensures SureToBeHeard(st, p, s, payload) <==> InTime(p, s)
  {
    var pushed, q := Pushed(st, s, payload), Receive(p, s, payload);
    assert pushed.peer == Some(q);
    if InTime(p, s) {
      forall es | Continues(pushed, es) && Ticks(es) + 1 == s - p.lastPlayed
        ensures HeardNext(RunFrom(pushed, es), s, Latest(es, s, payload))
      {
        PlayedAtItsTick(st, p, s, payload, es);
      }
    } else {
      var n := s - p.lastPlayed - 1;
      PushWaits(p, s, payload);
      PushedIsSustained(p, s, payload);
      QuietContinues(pushed, n);
      QuietRun(pushed, q, n, s);
      EvictedBeforeItsTurn(q, s, payload);
      assert !HeardNext(RunFrom(pushed, Quiet(n)), s, Latest(Quiet(n), s, payload));
    }
  }
}
