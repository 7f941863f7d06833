/** The longest wait of a restarted sender does occur. */
module RecoveryBound {
  import opened Basics
  import opened JitterBuffering
  import opened PeerPlayback
  import opened PlaybackRecovery

  /** Packet 7 is played; then packets come in that each restart the eviction counter in the
      last tick, as far apart as different slots allow. */
  function Mark(i: nat): int {
    if i == 0 then 7 else 8 + 99 * i
  }

  function Marks(from: nat, upTo: nat): set<int> {
    set i: nat | from < i <= upTo :: Mark(i)
  }

  function FarAhead(n: nat): (es: seq<Event>)
    requires n <= CAPACITY
    ensures NumberedUpTo(es, Mark(CAPACITY))
  {
    if n == 0 then [] + [Push(7, [0], true)] + [Tick(true)]
    else FarAhead(n - 1) + [Push(Mark(n), [0], true)]
  }

  /** The peer has heard the c-th mark, n - c more are pending, and nothing else is. */
  ghost predicate Between(p: Peer, c: nat, n: nat) {
    && ValidPeer(p) && c <= n <= CAPACITY
    && Mark(c) <= p.lastPlayed && p.timeout == p.lastPlayed - Mark(c)
    && p.lastPlayed < (if c < n then Mark(c + 1) else Mark(n) + STALE_TIMEOUT_FRAMES)
    && Leftovers(p, 1, 0) == Marks(c, n)
  }

  lemma ResidueOf(q: int, r: int)
    requires 0 <= r < CAPACITY
    ensures (CAPACITY * q + r) % CAPACITY == r
  {}

  lemma MarkResidue(i: nat)
    requires 0 < i <= CAPACITY
    ensures Mark(i) % CAPACITY == if i <= 8 then 8 - i else 58 - i
  {
    if i <= 8 {
      ResidueOf(2 * i, 8 - i);
      assert Mark(i) == CAPACITY * (2 * i) + (8 - i);
    } else {
      ResidueOf(2 * i - 1, 58 - i);
      assert Mark(i) == CAPACITY * (2 * i - 1) + (58 - i);
    }
  }

  lemma MarksUseDifferentSlots(i: nat, j: nat)
    requires 0 < i < j <= CAPACITY
    ensures Mark(i) % CAPACITY != Mark(j) % CAPACITY
  {
    MarkResidue(i);
    MarkResidue(j);
  }

  lemma MoreMarks(n: nat)
    ensures Marks(0, n + 1) == Marks(0, n) + {Mark(n + 1)}
  {
    assert Mark(n + 1) in Marks(0, n + 1);
  }

  lemma {:induction false} MarksCount(n: nat)
    ensures |Marks(0, n)| == n
  {
    if n > 0 {
      MarksCount(n - 1);
      MoreMarks(n - 1);
      assert Mark(n) !in Marks(0, n - 1);
    } else {
      assert Marks(0, 0) == {};
    }
  }

  /** Number 7 was just played, and n marks are pending. */
  ghost predicate Ahead(st: State, n: nat) {
    && st.peer.Some? && Between(st.peer.value, 0, n)
    && st.peer.value.lastPlayed == 7 && st.peer.value.ring.readHead == 8
  }

  lemma FirstMark()
    ensures Ahead(Run(FarAhead(0)), 0)
  {
    RunTwo(Push(7, [0], true), Tick(true));
    assert FarAhead(0) == [Push(7, [0], true), Tick(true)];
    FirstPacketPlayed(7);
    var p := Receive(NewPeer(7), 7, [0]);
    assert Holds(p.ring, p.lastPlayed + 1);
    HitTick(p, true);
    assert Marks(0, 0) == {};
  }

  lemma MarkArrives(st: State, p: Peer, n: nat)
    requires n < CAPACITY && Ahead(st, n) && st.peer == Some(p)
    ensures Ahead(Next(st, Push(Mark(n + 1), [0], true)), n + 1)
  {
    var q := Receive(p, Mark(n + 1), [0]);
    forall x ensures x in Leftovers(q, 1, 0) <==> x in Marks(0, n) || x == Mark(n + 1) {
      if x in Marks(0, n) {
        var i: nat :| 0 < i <= n && x == Mark(i);
        MarksUseDifferentSlots(i, n + 1);
        assert x in Leftovers(p, 1, 0);
      }
    }
    MoreMarks(n);
  }

  lemma {:induction false} FarAheadState(n: nat)
    requires n <= CAPACITY
    ensures Ahead(Run(FarAhead(n)), n)
  {
    if n == 0 {
      FirstMark();
    } else {
      FarAheadState(n - 1);
      var st := Run(FarAhead(n - 1));
      MarkArrives(st, st.peer.value, n - 1);
      RunSnoc(START, FarAhead(n - 1), Push(Mark(n), [0], true));
    }
  }

  // ---- Waiting ----------------------------------------------------------------

  lemma TickBetween(p: Peer, c: nat, n: nat)
    requires Between(p, c, n) && p.lastPlayed + 1 < Mark(n) + STALE_TIMEOUT_FRAMES
    ensures Between(Ticked(p, true), if c < n && p.lastPlayed + 1 == Mark(c + 1) then c + 1 else c, n)
    ensures Ticked(p, true).lastPlayed == p.lastPlayed + 1 && Ticked(p, true).timeout < STALE_TIMEOUT_FRAMES
  {
    var next := p.lastPlayed + 1;
    assert Holds(p.ring, next) <==> next in Leftovers(p, 1, 0);
    assert next in Marks(c, n) <==> c < n && next == Mark(c + 1);
    if Holds(p.ring, next) {
      HitTick(p, true);
      assert Leftovers(Ticked(p, true), 1, 0) == Leftovers(p, 1, 0) - {next};
      assert Marks(c, n) - {next} == Marks(c + 1, n);
    } else {
      MissedTick(p, true);
      assert Leftovers(Ticked(p, true), 1, 0) == Leftovers(p, 1, 0);
    }
  }

  /** The sender restarts at 1; when its round j begins playback is six numbers ahead. */
  ghost predicate Unheard(st: State, c: nat, n: nat, j: nat) {
    st.peer.Some? && Between(st.peer.value, c, n) && st.peer.value.lastPlayed == 7 + j
  }

  lemma UnheardRound(st: State, c: nat, n: nat, j: nat, payload: Payload) returns (c': nat)
    requires Unheard(st, c, n, j) && j <= 99 * n + 100 && n >= 1
    ensures !PlaysOwn(st, 1, j, payload)
    ensures j < 99 * n + 100 ==> Unheard(Round(st, 1 + j, payload), c', n, j + 1)
  {
    var p := st.peer.value;
    assert Receive(p, 1 + j, payload) == p;
    c' := if c < n && p.lastPlayed + 1 == Mark(c + 1) then c + 1 else c;
    if j < 99 * n + 100 {
      TickBetween(p, c, n);
    }
  }

  lemma {:induction false} StaysUnheard(st: State, f: Stream, c: nat, n: nat, j: nat, m: nat)
    requires ValidState(st) && Unheard(st, c, n, j) && j <= m <= 99 * n + 100 && 1 <= n <= CAPACITY
    ensures !OwnHeard(st, 1, f, j, m)
    decreases m - j
  {
    var c' := UnheardRound(st, c, n, j, f(j));
    if j == m {
      HeardNow(st, 1, f, j);
    } else {
      var st' := Round(st, 1 + j, f(j));
      StaysUnheard(st', f, c', n, j + 1, m);
      HeardLater(st, st', 1, f, j, m);
    }
  }

  /** With any number of packets pending, up to a full ring, the longest wait is needed: a
      sender that restarts at 1 is not heard in any earlier round. */
  lemma LongestWaitOccurs(n: nat, f: Stream, m: nat)
    requires 1 <= n <= CAPACITY && m < LongestWait(Run(FarAhead(n)))
    ensures LongestWait(Run(FarAhead(n))) == 99 * n + 101
    ensures !OwnHeard(Run(FarAhead(n)), 1, f, 0, m)
  {
    FarAheadState(n);
    MarksCount(n);
    StaysUnheard(Run(FarAhead(n)), f, 0, n, 0, m);
  }
}
