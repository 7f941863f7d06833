/** How long lockouts can get in a disciplined run. */
module LockoutBound {
  import opened Basics
  import opened RateLimiting
  import opened LimiterRuns

  const WINDOW_TICKS := (FAILURE_WINDOW + 1) * TICKS   // the window lapses at 601 s, not 600

  lemma WindowLapses(r: AttemptRecord, now: Time)
    ensures WindowExpired(r, now) <==> now >= r.windowStart + WINDOW_TICKS
    ensures WINDOW_TICKS == 601 * TICKS
  {}

  lemma Pow2Values()
    ensures Pow2(5) == 32 && Pow2(8) == 256 && Pow2(9) == 512 && Pow2(10) == 1024
  {
    assert Pow2(5) == 32 && Pow2(8) == 8 * Pow2(5);
    assert Pow2(9) == 2 * Pow2(8) && Pow2(10) == 2 * Pow2(9);
  }

  lemma {:induction false} Pow2Monotone(m: nat, n: nat)
    requires m <= n
    ensures Pow2(m) <= Pow2(n)
    decreases n
  {
    if m < n {
      Pow2Monotone(m, n - 1);
    }
  }

  /** A record after m over-budget failures was last locked no earlier than
      windowStart + (2^(m-1) - 1) s for 2^(m-1) s, unless its window has lapsed. */
  predicate Tame(r: AttemptRecord, now: Time) {
    && 0 <= r.windowStart <= now
    && 0 <= r.lockedUntil <= now + 512 * TICKS
    && r.failureCount <= 15
    && (r.failureCount > MAX_FAILURES_PER_WINDOW ==>
          || r.lockedUntil >= r.windowStart + WINDOW_TICKS
          || r.lockedUntil >= r.windowStart + (Pow2(r.failureCount - MAX_FAILURES_PER_WINDOW) - 1) * TICKS)
    && Min(r.lockedUntil, r.windowStart + WINDOW_TICKS) <= now + 256 * TICKS
  }

  predicate AllTame(w: World) {
    && w.now >= 0
    && (forall k <- w.limiter.records ::
          && Tame(w.limiter.records[k], w.now)
          && (k in w.mayFail ==> w.limiter.records[k].lockedUntil <= w.now))
  }

  lemma TameLater(r: AttemptRecord, now: Time, later: Time)
    requires Tame(r, now) && now <= later
    ensures Tame(r, later) && Tame(DropExpired(r, later), later)
  {
    WindowLapses(r, later);
  }

  /** The heart of the bound: an eleventh over-budget failure would need the ten
      lockouts before it to have run out inside one 601 s window. */
  lemma FailedIsTame(r: AttemptRecord, now: Time)
    requires Tame(r, now) && r.lockedUntil <= now
    ensures Tame(Failed(r, now), now)
    ensures var f := Failed(r, now);
            if f.failureCount <= MAX_FAILURES_PER_WINDOW then f.lockedUntil <= now
            else && f.lockedUntil == now + Pow2(f.failureCount - MAX_FAILURES_PER_WINDOW - 1) * TICKS
                 && now >= f.windowStart + (Pow2(f.failureCount - MAX_FAILURES_PER_WINDOW - 1) - 1) * TICKS
  {
    WindowLapses(r, now);
    Pow2Values();
    var f := Failed(r, now);
    if f.failureCount > MAX_FAILURES_PER_WINDOW {
      var m := f.failureCount - MAX_FAILURES_PER_WINDOW;
      assert m > 1 ==> now >= r.windowStart + (Pow2(m - 1) - 1) * TICKS;
      if m > 10 {
        Pow2Monotone(10, m - 1);
      }
      Pow2Monotone(m - 1, 9);
      if m <= 9 {
        Pow2Monotone(m - 1, 8);
      }
      assert Pow2(m) == 2 * Pow2(m - 1);
    }
  }

  lemma SweepIsTame(w: World, now: Time)
    requires AllTame(w) && now >= w.now
    ensures var s := Sweep(w.limiter, now);
            forall k <- s.records ::
              && Tame(s.records[k], now)
              && (k in w.mayFail ==> s.records[k].lockedUntil <= now)
  {
    forall k <- w.limiter.records {
      TameLater(w.limiter.records[k], w.now, now);
    }
  }

  lemma CheckIsTame(w: World, k: Key, now: Time)
    requires AllTame(w) && now >= w.now
    ensures AllTame(Next(w, Event(SecondsUntilAllowed(k), now), true))
  {
    SweepIsTame(w, now);
    var l := Sweep(w.limiter, now);
    if k in l.records {
      TameLater(l.records[k], now, now);
    }
  }

  /** The record a failure leaves, and what it replies. */
  lemma FailureEffect(w: World, k: Key, now: Time)
    ensures var e, r := Event(RecordFailure(k), now), Failed(RecordOf(Sweep(w.limiter, now), k), now);
            && Next(w, e, true).limiter.records == Sweep(w.limiter, now).records[k := r]
            && EventReply(w, e, true) ==
               Seconds(if r.failureCount <= MAX_FAILURES_PER_WINDOW then 0 else WholeSeconds(r.lockedUntil - now))
  {}

  lemma FailureIsTame(w: World, k: Key, now: Time)
    requires AllTame(w) && now >= w.now && k in w.mayFail
    ensures AllTame(Next(w, Event(RecordFailure(k), now), true))
  {
    SweepIsTame(w, now);
    FailedIsTame(RecordOf(Sweep(w.limiter, now), k), now);
    FailureEffect(w, k, now);
  }

  lemma StepIsTame(w: World, e: Event)
    requires AllTame(w) && Legal(w, e)
    ensures AllTame(Next(w, e, true))
  {
    match e.call
    case SecondsUntilAllowed(k) => CheckIsTame(w, k, e.now);
    case RecordFailure(k) => FailureIsTame(w, k, e.now);
    case _ =>
      forall k <- w.limiter.records ensures Tame(w.limiter.records[k], e.now) {
        TameLater(w.limiter.records[k], w.now, e.now);
      }
  }

  lemma {:induction false} RunIsTame(es: seq<Event>)
    requires Disciplined(es, true)
    ensures AllTame(Run(es, true))
  {
    if es != [] {
      RunIsTame(es[..|es| - 1]);
      StepIsTame(Run(es[..|es| - 1], true), es[|es| - 1]);
    }
  }

  // ---- The bounds -----------------------------------------------------------

  /** No key ever counts more than 15 failures or is locked for more than 512 s ahead,
      so neither the 900 s cap nor the ten-doubling cap is ever what limits a lockout. */
  lemma FailuresAndLockoutsBounded(es: seq<Event>, k: Key)
    requires Disciplined(es, true)
    requires k in Run(es, true).limiter.records
    ensures var r := Run(es, true).limiter.records[k];
            && r.failureCount <= 15
            && r.lockedUntil <= Run(es, true).now + 512 * TICKS
            && (r.failureCount > MAX_FAILURES_PER_WINDOW ==>
                  Lockout(r.failureCount) == Pow2(r.failureCount - MAX_FAILURES_PER_WINDOW - 1) <= 512)
  {
    RunIsTame(es);
    Pow2Values();
    var r := Run(es, true).limiter.records[k];
    if r.failureCount > MAX_FAILURES_PER_WINDOW {
      Pow2Monotone(r.failureCount - MAX_FAILURES_PER_WINDOW - 1, 9);
    }
  }

  /** The reply that goes with the record a failure leaves. */
  predicate ProperReply(r: AttemptRecord, reply: Reply, now: Time) {
    && 1 <= r.failureCount <= 15
    && (r.failureCount <= 5 ==> reply == Seconds(0))
    && (r.failureCount > 5 ==>
          && reply == Seconds(Pow2(r.failureCount - 6))
          && r.lockedUntil == now + Pow2(r.failureCount - 6) * TICKS
          && now >= r.windowStart + (Pow2(r.failureCount - 6) - 1) * TICKS)
  }

  lemma FailureReplyAt(w: World, k: Key, now: Time)
    requires AllTame(w) && now >= w.now && k in w.mayFail
    ensures var e := Event(RecordFailure(k), now);
            ProperReply(RecordOf(Next(w, e, true).limiter, k), EventReply(w, e, true), now)
  {
    var before := RecordOf(Sweep(w.limiter, now), k);
    SweepIsTame(w, now);
    FailedIsTame(before, now);
    FailureEffect(w, k, now);
    assert RecordOf(Next(w, Event(RecordFailure(k), now), true).limiter, k) == Failed(before, now);
  }

  /** What recordFailure replies: nothing for the first five, then exactly 1, 2, 4, ...,
      512 s, and the m-th over-budget failure comes at least 2^(m-1) - 1 s into its window. */
  lemma FailureReply(es: seq<Event>, k: Key, now: Time)
    requires Disciplined(es, true) && Legal(Run(es, true), Event(RecordFailure(k), now))
    ensures var e := Event(RecordFailure(k), now);
            ProperReply(RecordOf(Run(es + [e], true).limiter, k), EventReply(Run(es, true), e, true), now)
  {
    RunIsTame(es);
    RunSnoc(es, Event(RecordFailure(k), now), true);
    FailureReplyAt(Run(es, true), k, now);
  }

  /** When a check refuses: until the lockout ends or the window lapses, whichever is
      first. The sweep makes no difference to it. */
  lemma RefusedExactly(l: Limiter, k: Key, now: Time)
    ensures ReplyTo(l, SecondsUntilAllowed(k), now, true) != Seconds(0) <==>
            && k in l.records
            && now < l.records[k].lockedUntil
            && now < l.records[k].windowStart + WINDOW_TICKS
    ensures ReplyTo(l, SecondsUntilAllowed(k), now, true) == ReplyTo(l, SecondsUntilAllowed(k), now, false)
  {
    if k in l.records {
      WindowLapses(l.records[k], now);
    }
  }

  /** The record after a failure, read off the record before it, swept or not. */
  lemma FailedFromStored(l: Limiter, k: Key, now: Time)
    ensures var r, f := RecordOf(l, k), Failed(RecordOf(Sweep(l, now), k), now);
            if WindowExpired(r, now) then f.failureCount == 1
            else f.failureCount == r.failureCount + 1 && f.windowStart == r.windowStart
  {}

  /** The next lockout of this record ends before its failure window lapses, or there is
      none. */
  predicate LockoutFits(r: AttemptRecord, now: Time) {
    || WindowExpired(r, now)
    || r.failureCount < MAX_FAILURES_PER_WINDOW
    || now + Pow2(r.failureCount - MAX_FAILURES_PER_WINDOW) * TICKS <= r.windowStart + WINDOW_TICKS
  }

  /** The key is refused at every moment of the lockout that was announced. */
  ghost predicate Honoured(w: World, k: Key, now: Time, seconds: int) {
    forall u :: now <= u < now + seconds * TICKS ==> EventReply(w, Event(SecondsUntilAllowed(k), u), true) != Seconds(0)
  }

  lemma HonouredExactly(w: World, k: Key, now: Time, seconds: int)
    requires k in w.limiter.records && seconds > 0
    requires w.limiter.records[k].lockedUntil == now + seconds * TICKS
    requires now < w.limiter.records[k].windowStart + WINDOW_TICKS
    ensures Honoured(w, k, now, seconds) <==> now + seconds * TICKS <= w.limiter.records[k].windowStart + WINDOW_TICKS
  {
    var r := w.limiter.records[k];
    forall u ensures EventReply(w, Event(SecondsUntilAllowed(k), u), true) != Seconds(0) <==>
                     u < r.lockedUntil && u < r.windowStart + WINDOW_TICKS {
      RefusedExactly(w.limiter, k, u);
    }
    if now + seconds * TICKS > r.windowStart + WINDOW_TICKS {
      assert EventReply(w, Event(SecondsUntilAllowed(k), r.windowStart + WINDOW_TICKS), true) == Seconds(0);
    }
  }

  /** As long as no other call comes, the announced lockout is honoured exactly when it fits
      into the window of the record before the call. */
  lemma HonouredUndisturbed(es: seq<Event>, k: Key, now: Time)
    requires Disciplined(es, true) && Legal(Run(es, true), Event(RecordFailure(k), now))
    ensures var e := Event(RecordFailure(k), now);
            Honoured(Run(es + [e], true), k, now, EventReply(Run(es, true), e, true).seconds)
            <==> LockoutFits(RecordOf(Run(es, true).limiter, k), now)
  {
    RunIsTame(es);
    RunSnoc(es, Event(RecordFailure(k), now), true);
    HonouredStep(Run(es, true), k, now);
  }

  lemma HonouredStep(w: World, k: Key, now: Time)
    requires AllTame(w) && now >= w.now && k in w.mayFail
    ensures var e := Event(RecordFailure(k), now);
            Honoured(Next(w, e, true), k, now, EventReply(w, e, true).seconds)
            <==> LockoutFits(RecordOf(w.limiter, k), now)
  {
    var e := Event(RecordFailure(k), now);
    FailureReplyAt(w, k, now);
    FailedFromStored(w.limiter, k, now);
    FailureEffect(w, k, now);
    var r := Failed(RecordOf(Sweep(w.limiter, now), k), now);
    if r.failureCount > MAX_FAILURES_PER_WINDOW {
      WindowLapses(RecordOf(w.limiter, k), now);
      HonouredExactly(Next(w, e, true), k, now, Pow2(r.failureCount - 6));
    }
  }

  /** A refused check changes nothing about the key. */
  lemma StaysOnRecord(l: Limiter, k: Key, now: Time)
    requires k in l.records && now < l.records[k].lockedUntil && now < l.records[k].windowStart + WINDOW_TICKS
    ensures var after := NextLimiter(l, SecondsUntilAllowed(k), now, true);
            k in after.records && after.records[k] == l.records[k]
    ensures ReplyTo(l, SecondsUntilAllowed(k), now, true) == Seconds(Announced(l.records[k].lockedUntil - now))
  {
    WindowLapses(l.records[k], now);
  }

  /** The seconds announced for a remaining lockout. */
  function Announced(left: int): (seconds: int)
    requires left > 0
    ensures (seconds - 1) * TICKS < left
    ensures seconds * TICKS >= left <==> left % TICKS == 0 || left < TICKS
  {
    if left < TICKS then 1 else left / TICKS
  }

  ghost predicate StillRefused(l: Limiter, k: Key, u: Time) {
    ReplyTo(l, SecondsUntilAllowed(k), u, true) != Seconds(0)
  }

  predicate Refuses(r: AttemptRecord, u: Time) {
    u < r.lockedUntil && u < r.windowStart + WINDOW_TICKS
  }

  lemma StillRefusedExactly(l: Limiter, k: Key, r: AttemptRecord, u: Time)
    requires k in l.records && l.records[k] == r
    ensures StillRefused(l, k, u) <==> Refuses(r, u)
  {
    RefusedExactly(l, k, u);
  }

  /** Truncation takes nothing off the reply, or the window lapses while it is waited. */
  predicate WaitSuffices(r: AttemptRecord, now: Time, seconds: int) {
    || (r.lockedUntil - now) % TICKS == 0
    || r.lockedUntil - now < TICKS
    || now + seconds * TICKS >= r.windowStart + WINDOW_TICKS
  }

  /** What a refused check replies, and when the next one is refused, undisturbed. */
  lemma RefusedUndisturbed(l: Limiter, k: Key, now: Time, seconds: int, after: Limiter, u: Time)
    requires ReplyTo(l, SecondsUntilAllowed(k), now, true) == Seconds(seconds) && seconds != 0
    requires after == NextLimiter(l, SecondsUntilAllowed(k), now, true)
    ensures k in l.records && IsAnnounced(l.records[k], now, seconds)
    ensures StillRefused(after, k, u) <==> Refuses(l.records[k], u)
  {
    RefusedExactly(l, k, now);
    StaysOnRecord(l, k, now);
    StillRefusedExactly(after, k, l.records[k], u);
  }

  predicate IsAnnounced(r: AttemptRecord, now: Time, seconds: int) {
    now < r.lockedUntil && seconds == Announced(r.lockedUntil - now)
  }

  lemma RefusedAfterWaiting(r: AttemptRecord, now: Time, seconds: int)
    requires IsAnnounced(r, now, seconds)
    ensures Refuses(r, now + seconds * TICKS) <==> !WaitSuffices(r, now, seconds)
    ensures Refuses(r, now + (seconds - 1) * TICKS) <==> now + (seconds - 1) * TICKS < r.windowStart + WINDOW_TICKS
  {}

  // ---- The bounds are attained ----------------------------------------------

  /** When the n-th failure of the fastest attacker is recorded: each one the moment
      the previous lockout ends. */
  function FailureTime(n: nat): Time {
    WINDOW_TICKS + (if n <= 6 then 0 else (Pow2(n - 6) - 1) * TICKS)
  }

  function FastestAttack(k: Key, n: nat): (es: seq<Event>)
    ensures |es| == 2 * n
  {
    if n == 0 then []
    else (FastestAttack(k, n - 1) + [Event(SecondsUntilAllowed(k), FailureTime(n))])
         + [Event(RecordFailure(k), FailureTime(n))]
  }

  lemma SweepKeepsLiveRecords(l: Limiter, now: Time)
    requires forall k <- l.records :: now < l.records[k].windowStart + WINDOW_TICKS
    ensures Sweep(l, now).records == l.records
  {
    forall k <- l.records ensures !WindowExpired(l.records[k], now) {
      WindowLapses(l.records[k], now);
    }
  }

  /** A check followed at once by a failure, on a key not locked and in its window. */
  lemma OneRound(es: seq<Event>, k: Key, r: AttemptRecord, now: Time)
    requires Disciplined(es, true) && now >= Run(es, true).now
    requires Run(es, true).limiter.records == map[k := r]
    requires r.lockedUntil <= now < r.windowStart + WINDOW_TICKS
    ensures var round := (es + [Event(SecondsUntilAllowed(k), now)]) + [Event(RecordFailure(k), now)];
            && Disciplined(round, true)
            && Run(round, true).now == now
            && Run(round, true).limiter.records == map[k := Failed(r, now)]
  {
    var check := Event(SecondsUntilAllowed(k), now);
    RunSnoc(es, check, true);
    CheckAllows(Run(es, true), k, r, now);
    RunSnoc(es + [check], Event(RecordFailure(k), now), true);
    FailureEffect(Run(es + [check], true), k, now);
    SweepKeepsLiveRecords(Run(es + [check], true).limiter, now);
  }

  lemma CheckAllows(w: World, k: Key, r: AttemptRecord, now: Time)
    requires now >= w.now && w.limiter.records == map[k := r]
    requires r.lockedUntil <= now < r.windowStart + WINDOW_TICKS
    ensures var x := Next(w, Event(SecondsUntilAllowed(k), now), true);
            x.limiter.records == map[k := r] && k in x.mayFail && x.now == now
  {
    WindowLapses(r, now);
    SweepKeepsLiveRecords(w.limiter, now);
  }

  lemma FirstRound(k: Key)
    ensures var w := Run(FastestAttack(k, 1), true);
            && Disciplined(FastestAttack(k, 1), true)
            && w.now == WINDOW_TICKS
            && w.limiter.records == map[k := AttemptRecord(1, WINDOW_TICKS, 0)]
  {
    var check := Event(SecondsUntilAllowed(k), WINDOW_TICKS);
    assert FastestAttack(k, 1) == ([] + [check]) + [Event(RecordFailure(k), WINDOW_TICKS)];
    RunSnoc([], check, true);
    assert Run([], true) == START;
    assert Sweep(NEW_LIMITER, WINDOW_TICKS).records == map[];
    var x := Run([] + [check], true);
    assert x.limiter.records == map[] && k in x.mayFail;
    RunSnoc([] + [check], Event(RecordFailure(k), WINDOW_TICKS), true);
    SweepKeepsLiveRecords(x.limiter, WINDOW_TICKS);
  }

  function AttackRecord(n: nat): AttemptRecord {
    AttemptRecord(n, WINDOW_TICKS, if n <= 5 then 0 else FailureTime(n) + Pow2(n - 6) * TICKS)
  }

  lemma AttackStep(n: nat)
    requires 2 <= n <= 15
    ensures FailureTime(n - 1) <= FailureTime(n)
    ensures AttackRecord(n - 1).lockedUntil <= FailureTime(n) < 2 * WINDOW_TICKS
    ensures Failed(AttackRecord(n - 1), FailureTime(n)) == AttackRecord(n)
  {
    Pow2Values();
    if n > 6 {
      Pow2Monotone(n - 6, 9);
      assert n > 7 ==> Pow2(n - 6) == 2 * Pow2(n - 7);
    }
    WindowLapses(AttackRecord(n - 1), FailureTime(n));
  }

  lemma {:induction false} FastestAttackState(k: Key, n: nat)
    requires 1 <= n <= 15
    ensures Disciplined(FastestAttack(k, n), true)
    ensures Run(FastestAttack(k, n), true).now == FailureTime(n)
    ensures Run(FastestAttack(k, n), true).limiter.records == map[k := AttackRecord(n)]
  {
    if n == 1 {
      FirstRound(k);
    } else {
      FastestAttackState(k, n - 1);
      AttackStep(n);
      OneRound(FastestAttack(k, n - 1), k, AttackRecord(n - 1), FailureTime(n));
    }
  }

  /** When the lockout after the n-th failure of the attack is over. */
  function LockoutEnd(n: nat): Time
    requires n >= 6
  {
    Min(FailureTime(n) + Pow2(n - 6) * TICKS, 2 * WINDOW_TICKS)
  }

  /** The lockout of 512 s is cut where the window lapses. */
  lemma LastLockoutIsCut(n: nat)
    requires 6 <= n <= 15
    ensures n == 15 ==> Pow2(n - 6) == 512 && LockoutEnd(n) == FailureTime(n) + 90 * TICKS
  {
    Pow2Values();
  }

  lemma AttackIsRefused(l: Limiter, k: Key, n: nat)
    requires n >= 6 && l.records == map[k := AttackRecord(n)]
    ensures StillRefused(l, k, LockoutEnd(n) - 1) && !StillRefused(l, k, LockoutEnd(n))
  {
    StillRefusedExactly(l, k, AttackRecord(n), LockoutEnd(n) - 1);
    StillRefusedExactly(l, k, AttackRecord(n), LockoutEnd(n));
  }

  /** Every count up to fifteen and every lockout up to 512 s does happen, and each lasts
      until its end or the lapse of the window, the last one for 90 s. */
  lemma BoundsAreAttained(k: Key, n: nat)
    requires 6 <= n <= 15
    ensures Disciplined(FastestAttack(k, n), true)
    ensures Replies(FastestAttack(k, n), true)[2 * n - 1] == Seconds(Pow2(n - 6))
    ensures var w := Run(FastestAttack(k, n), true);
            && w.limiter.records == map[k := AttackRecord(n)]
            && StillRefused(w.limiter, k, LockoutEnd(n) - 1) && !StillRefused(w.limiter, k, LockoutEnd(n))
    ensures n == 15 ==> Pow2(n - 6) == 512 && LockoutEnd(n) == Run(FastestAttack(k, n), true).now + 90 * TICKS
  {
    FastestAttackState(k, n);
    LastLockoutIsCut(n);
    AttackIsRefused(Run(FastestAttack(k, n), true).limiter, k, n);
    var before := FastestAttack(k, n - 1) + [Event(SecondsUntilAllowed(k), FailureTime(n))];
    assert FastestAttack(k, n) == before + [Event(RecordFailure(k), FailureTime(n))];
    AttackReply(before, k, n);
  }

  lemma AttackReply(before: seq<Event>, k: Key, n: nat)
    requires 6 <= n <= 15 && |before| == 2 * n - 1
    requires Disciplined(before + [Event(RecordFailure(k), FailureTime(n))], true)
    requires Run(before + [Event(RecordFailure(k), FailureTime(n))], true).limiter.records == map[k := AttackRecord(n)]
    ensures Replies(before + [Event(RecordFailure(k), FailureTime(n))], true)[2 * n - 1] == Seconds(Pow2(n - 6))
  {
    RunSnoc(before, Event(RecordFailure(k), FailureTime(n)), true);
    FailureReply(before, k, FailureTime(n));
  }
}
