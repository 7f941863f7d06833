/** The periodic sweep cannot be told from its absence, and the registration budget. */
module SweepInvisible {
  import opened RateLimiting
  import opened LimiterRuns
  import opened LockoutBound

  // ---- Pruning --------------------------------------------------------------

  const REGISTRATION_TICKS := (REGISTRATION_WINDOW + 1) * TICKS

  /** Pruning earlier does not change what a later pruning leaves. */
  lemma {:induction false} PruneTwice(ts: seq<Time>, earlier: Time, later: Time)
    requires earlier <= later
    ensures Prune(Prune(ts, earlier), later) == Prune(ts, later)
  {
    if ts != [] {
      PruneTwice(ts[1..], earlier, later);
      var kept := Prune(ts[1..], earlier);
      assert ([ts[0]] + kept)[1..] == kept;
    }
  }

  lemma PruneCons(t: Time, ts: seq<Time>, now: Time)
    ensures Prune([t] + ts, now) ==
            (if WholeSeconds(now - t) > REGISTRATION_WINDOW then [] else [t]) + Prune(ts, now)
  {
    assert ([t] + ts)[1..] == ts;
  }

  lemma PruneConcatCons(t: Time, rest: seq<Time>, b: seq<Time>, now: Time)
    requires Prune(rest + b, now) == Prune(rest, now) + Prune(b, now)
    ensures Prune([t] + (rest + b), now) == Prune([t] + rest, now) + Prune(b, now)
  {
    PruneCons(t, rest + b, now);
    PruneCons(t, rest, now);
  }

  lemma {:induction false} PruneConcat(a: seq<Time>, b: seq<Time>, now: Time)
    ensures Prune(a + b, now) == Prune(a, now) + Prune(b, now)
  {
    if a == [] {
      assert a + b == b;
    } else {
      PruneConcat(a[1..], b, now);
      PruneConcatCons(a[0], a[1..], b, now);
      assert a == [a[0]] + a[1..] && a + b == [a[0]] + (a[1..] + b);
    }
  }

  // ---- The two limiters side by side -----------------------------------------

  /** `s` swept, `n` did not. They agree on counts and windows; their lockouts agree or
      are both over; what only `n` still holds has a lapsed window. */
  predicate SameRecord(s: AttemptRecord, n: AttemptRecord, now: Time) {
    && s.failureCount == n.failureCount
    && s.windowStart == n.windowStart
    && (s.lockedUntil == n.lockedUntil || (s.lockedUntil <= now && n.lockedUntil <= now))
  }

  predicate SameRecords(s: map<Key, AttemptRecord>, n: map<Key, AttemptRecord>, now: Time) {
    && (forall k <- s :: k in n && SameRecord(s[k], n[k], now))
    && (forall k <- n :: 0 <= n[k].windowStart && (k !in s ==> WindowExpired(n[k], now)))
  }

  ghost predicate SameRegistrations(s: Limiter, n: Limiter, now: Time) {
    forall k: Key :: Prune(RegistrationsOf(s, k), now) == Prune(RegistrationsOf(n, k), now)
  }

  ghost predicate SameWorld(s: World, n: World) {
    && s.now == n.now >= 0
    && s.mayFail == n.mayFail && s.mayRegister == n.mayRegister
    && SameRecords(s.limiter.records, n.limiter.records, s.now)
    && SameRegistrations(s.limiter, n.limiter, s.now)
    && (forall k <- n.mayFail ::
          RecordOf(s.limiter, k).lockedUntil <= s.now && RecordOf(n.limiter, k).lockedUntil <= s.now)
  }

  lemma LapsedStaysLapsed(records: map<Key, AttemptRecord>, now: Time, later: Time)
    requires now <= later
    ensures forall k <- records :: WindowExpired(records[k], now) ==> WindowExpired(records[k], later)
  {
    forall k <- records ensures WindowExpired(records[k], now) ==> WindowExpired(records[k], later) {
      WindowLapses(records[k], now);
      WindowLapses(records[k], later);
    }
  }

  lemma SweepKeepsRecords(s: Limiter, n: Limiter, now: Time, later: Time)
    requires SameRecords(s.records, n.records, now) && now <= later
    ensures SameRecords(Sweep(s, later).records, n.records, later)
  {
    LapsedStaysLapsed(n.records, now, later);
  }

  lemma SweepKeepsRegistrations(s: Limiter, n: Limiter, now: Time, later: Time)
    requires SameRegistrations(s, n, now) && now <= later
    ensures SameRegistrations(Sweep(s, later), n, later)
    ensures SameRegistrations(s, n, later)
  {
    forall k: Key
      ensures Prune(RegistrationsOf(s, k), later) == Prune(RegistrationsOf(n, k), later)
      ensures Prune(RegistrationsOf(Sweep(s, later), k), later) == Prune(RegistrationsOf(n, k), later)
    {
      PruneTwice(RegistrationsOf(s, k), now, later);
      PruneTwice(RegistrationsOf(n, k), now, later);
      PruneTwice(RegistrationsOf(s, k), later, later);
    }
  }

  /** A failure on matching records, or on one that only the unswept limiter still has. */
  lemma SameFailure(s: Limiter, n: Limiter, k: Key, now: Time)
    requires now >= 0 && SameRecords(s.records, n.records, now)
    requires RecordOf(s, k).lockedUntil <= now && RecordOf(n, k).lockedUntil <= now
    ensures SameRecord(Failed(RecordOf(s, k), now), Failed(RecordOf(n, k), now), now)
    ensures Answer(s, RecordFailure(k), now) == Answer(n, RecordFailure(k), now)
  {
    WindowLapses(RecordOf(s, k), now);
    WindowLapses(RecordOf(n, k), now);
  }

  lemma SameEffectOfFailure(s: Limiter, n: Limiter, k: Key, now: Time)
    requires now >= 0 && SameRecords(s.records, n.records, now)
    requires RecordOf(s, k).lockedUntil <= now && RecordOf(n, k).lockedUntil <= now
    ensures SameRecords(Effect(s, RecordFailure(k), now).records, Effect(n, RecordFailure(k), now).records, now)
  {
    SameFailure(s, n, k, now);
    WindowLapses(RecordOf(n, k), now);
  }

  lemma SameEffectOfCheck(s: Limiter, n: Limiter, k: Key, now: Time)
    requires now >= 0 && SameRecords(s.records, n.records, now)
    ensures SameRecords(Effect(s, SecondsUntilAllowed(k), now).records,
                        Effect(n, SecondsUntilAllowed(k), now).records, now)
    ensures Answer(s, SecondsUntilAllowed(k), now) == Answer(n, SecondsUntilAllowed(k), now)
  {
    if k in n.records {
      WindowLapses(n.records[k], now);
    }
  }

  lemma SameEffectOnRecords(s: Limiter, n: Limiter, call: Call, now: Time)
    requires now >= 0 && SameRecords(s.records, n.records, now)
    requires call.RecordFailure? ==>
               RecordOf(s, call.key).lockedUntil <= now && RecordOf(n, call.key).lockedUntil <= now
    ensures SameRecords(Effect(s, call, now).records, Effect(n, call, now).records, now)
    ensures !call.IsAllowedToRegister? ==> Answer(s, call, now) == Answer(n, call, now)
  {
    match call
    case RecordFailure(k) =>
      SameFailure(s, n, k, now);
      SameEffectOfFailure(s, n, k, now);
    case SecondsUntilAllowed(k) => SameEffectOfCheck(s, n, k, now);
    case _ =>
  }

  lemma SameEffectOnRegistrations(s: Limiter, n: Limiter, call: Call, now: Time)
    requires SameRegistrations(s, n, now)
    ensures SameRegistrations(Effect(s, call, now), Effect(n, call, now), now)
    ensures call.IsAllowedToRegister? ==> Answer(s, call, now) == Answer(n, call, now)
  {
    var s', n' := Effect(s, call, now), Effect(n, call, now);
    forall k: Key ensures Prune(RegistrationsOf(s', k), now) == Prune(RegistrationsOf(n', k), now) {
      PruneTwice(RegistrationsOf(s, k), now, now);
      PruneTwice(RegistrationsOf(n, k), now, now);
      PruneConcat(RegistrationsOf(s, k), [now], now);
      PruneConcat(RegistrationsOf(n, k), [now], now);
    }
  }

  lemma SameStep(s: World, n: World, e: Event)
    requires SameWorld(s, n) && Legal(s, e)
    ensures SameWorld(Next(s, e, true), Next(n, e, false))
    ensures EventReply(s, e, true) == EventReply(n, e, false)
  {
    var l := Swept(s.limiter, e.call, e.now, true);
    assert SameRecords(l.records, n.limiter.records, e.now) by {
      SweepKeepsRecords(s.limiter, n.limiter, s.now, e.now);
      LapsedStaysLapsed(n.limiter.records, s.now, e.now);
    }
    SweepKeepsRegistrations(s.limiter, n.limiter, s.now, e.now);
    SameEffectOnRegistrations(l, n.limiter, e.call, e.now);
    assert forall k <- n.mayFail :: RecordOf(l, k).lockedUntil <= e.now;
    SameEffectOnRecords(l, n.limiter, e.call, e.now);
    PermissionsHold(l, n.limiter, n.mayFail, e.call, e.now);
  }

  /** A check that answers 0 leaves no pending lockout, and only a failure adds one. */
  lemma PermissionsHold(s: Limiter, n: Limiter, mayFail: set<Key>, call: Call, now: Time)
    requires now >= 0 && SameRecords(s.records, n.records, now)
    requires forall k <- mayFail :: RecordOf(s, k).lockedUntil <= now && RecordOf(n, k).lockedUntil <= now
    ensures forall k <- mayFail - (if call.RecordFailure? then {call.key} else {}) ::
              && RecordOf(Effect(s, call, now), k).lockedUntil <= now
              && RecordOf(Effect(n, call, now), k).lockedUntil <= now
    ensures call.SecondsUntilAllowed? && Answer(s, call, now) == Answer(n, call, now) == Seconds(0) ==>
              && RecordOf(Effect(s, call, now), call.key).lockedUntil <= now
              && RecordOf(Effect(n, call, now), call.key).lockedUntil <= now
  {}

  lemma {:induction false} SameRun(es: seq<Event>)
    requires Disciplined(es, true)
    ensures SameWorld(Run(es, true), Run(es, false))
    ensures Disciplined(es, false)
    ensures Replies(es, true) == Replies(es, false)
  {
    if es != [] {
      SameRun(es[..|es| - 1]);
      SameStep(Run(es[..|es| - 1], true), Run(es[..|es| - 1], false), es[|es| - 1]);
    }
  }

  /** The sweep is invisible: with it or without it, the same runs are disciplined and
      every call in them gets the same reply. */
  lemma {:induction false} SweepIsInvisible(es: seq<Event>)
    ensures Disciplined(es, true) <==> Disciplined(es, false)
    ensures Disciplined(es, true) ==> Replies(es, true) == Replies(es, false)
  {
    if es != [] {
      SweepIsInvisible(es[..|es| - 1]);
      if Disciplined(es[..|es| - 1], false) {
        SameRun(es[..|es| - 1]);
      }
    }
    if Disciplined(es, true) {
      SameRun(es);
    }
  }

  // ---- What the sweep is for ---------------------------------------------------

  /** A sweep that is due forgets exactly the records whose window has lapsed, and leaves no
      registration older than the budget's window. */
  lemma SweepForgetsLapsed(l: Limiter, now: Time)
    requires now - l.lastSweep >= 60 * TICKS
    ensures forall k :: k in Sweep(l, now).records <==> k in l.records && now < l.records[k].windowStart + 601 * TICKS
    ensures forall k <- Sweep(l, now).records :: Sweep(l, now).records[k] == l.records[k]
    ensures Sweep(l, now).lastSweep == now
    ensures forall k :: RegistrationsOf(Sweep(l, now), k) == Prune(RegistrationsOf(l, k), now)
    ensures forall k <- Sweep(l, now).registrations :: Sweep(l, now).registrations[k] != []
  {
    forall k <- l.records ensures WindowExpired(l.records[k], now) <==> now >= l.records[k].windowStart + 601 * TICKS {
      WindowLapses(l.records[k], now);
    }
  }

  /** Every stored window was still open at the last sweep. */
  predicate OpenAtSweep(l: Limiter) {
    forall k <- l.records :: l.lastSweep < l.records[k].windowStart + WINDOW_TICKS
  }

  lemma SweepKeepsOpen(l: Limiter, now: Time)
    requires OpenAtSweep(l) && l.lastSweep <= now
    ensures OpenAtSweep(Sweep(l, now)) && l.lastSweep <= Sweep(l, now).lastSweep <= now
    ensures now < Sweep(l, now).lastSweep + 60 * TICKS
  {
    if now - l.lastSweep >= 60 * TICKS {
      SweepForgetsLapsed(l, now);
    }
  }

  lemma EffectKeepsOpen(l: Limiter, call: Call, now: Time)
    requires OpenAtSweep(l) && l.lastSweep <= now
    ensures OpenAtSweep(Effect(l, call, now)) && Effect(l, call, now).lastSweep == l.lastSweep
  {
    if call.RecordFailure? {
      WindowLapses(RecordOf(l, call.key), now);
    }
  }

  lemma {:induction false} RunKeepsOpen(es: seq<Event>)
    requires Disciplined(es, true)
    ensures OpenAtSweep(Run(es, true).limiter) && Run(es, true).limiter.lastSweep <= Run(es, true).now
  {
    if es != [] {
      var w, e := Run(es[..|es| - 1], true), es[|es| - 1];
      RunKeepsOpen(es[..|es| - 1]);
      SweepKeepsOpen(w.limiter, e.now);
      EffectKeepsOpen(Swept(w.limiter, e.call, e.now, true), e.call, e.now);
    }
  }

  /** The table does not grow without bound: after every check or failure it holds only keys
      whose failure window was open less than a minute ago. */
  lemma TableHoldsRecentKeys(es: seq<Event>, e: Event, k: Key)
    requires Disciplined(es, true) && Legal(Run(es, true), e)
    requires e.call.SecondsUntilAllowed? || e.call.RecordFailure?
    ensures k in Run(es + [e], true).limiter.records ==>
              e.now < Run(es + [e], true).limiter.records[k].windowStart + 601 * TICKS + 60 * TICKS
  {
    RunSnoc(es, e, true);
    RunKeepsOpen(es);
    SweepKeepsOpen(Run(es, true).limiter, e.now);
    EffectKeepsOpen(Sweep(Run(es, true).limiter, e.now), e.call, e.now);
  }

  // ---- The registration budget -----------------------------------------------

  /** When the key's registrations in the run were recorded. */
  function Registrations(es: seq<Event>, k: Key): seq<Time> {
    if es == [] then []
    else
      var before, last := Registrations(es[..|es| - 1], k), es[|es| - 1];
      if last.call == RecordRegistration(k) then before + [last.now] else before
  }

  function CountWithin(ts: seq<Time>, from: Time, until: Time): nat {
    if ts == [] then 0
    else CountWithin(ts[..|ts| - 1], from, until) + (if from <= ts[|ts| - 1] < until then 1 else 0)
  }

  /** Recent entries survive pruning. */
  lemma {:induction false} PruneKeepsRecent(ts: seq<Time>, now: Time, from: Time, until: Time)
    requires from > now - REGISTRATION_TICKS
    ensures CountWithin(ts, from, until) <= |Prune(ts, now)|
  {
    if ts != [] {
      var front, last := ts[..|ts| - 1], ts[|ts| - 1];
      PruneKeepsRecent(front, now, from, until);
      PruneConcat(front, [last], now);
      assert front + [last] == ts;
      assert Prune([last], now) == if WholeSeconds(now - last) > REGISTRATION_WINDOW then [] else [last];
    }
  }

  lemma {:induction false} PruneShrinks(ts: seq<Time>, now: Time, later: Time)
    requires now <= later
    ensures |Prune(ts, later)| <= |Prune(ts, now)|
  {
    if ts != [] {
      PruneShrinks(ts[1..], now, later);
    }
  }

  lemma HistoryStep(l: Limiter, call: Call, k: Key, all: seq<Time>, now: Time, later: Time)
    requires now <= later && Prune(RegistrationsOf(l, k), now) == Prune(all, now)
    ensures Prune(RegistrationsOf(Effect(l, call, later), k), later) ==
            Prune(if call == RecordRegistration(k) then all + [later] else all, later)
    ensures call == IsAllowedToRegister(k) ==>
              Answer(l, call, later) == Allowed(|Prune(all, later)| < MAX_REGISTRATIONS_PER_WINDOW)
  {
    var held := RegistrationsOf(l, k);
    PruneTwice(held, now, later);
    PruneTwice(all, now, later);
    PruneTwice(held, later, later);
    PruneConcat(held, [later], later);
    PruneConcat(all, [later], later);
  }

  /** The limiter's pruned list stands for the whole history of the key, and permission
      to register means fewer than three recent entries in it. */
  lemma {:induction false} ListStandsForHistory(es: seq<Event>, k: Key)
    requires Disciplined(es, false)
    ensures var w := Run(es, false);
            && Prune(RegistrationsOf(w.limiter, k), w.now) == Prune(Registrations(es, k), w.now)
            && (k in w.mayRegister ==> |Prune(Registrations(es, k), w.now)| < MAX_REGISTRATIONS_PER_WINDOW)
  {
    if es != [] {
      var before, last := es[..|es| - 1], es[|es| - 1];
      var w := Run(before, false);
      ListStandsForHistory(before, k);
      HistoryStep(w.limiter, last.call, k, Registrations(before, k), w.now, last.now);
      PruneShrinks(Registrations(before, k), w.now, last.now);
    }
  }

  /** A permitted registration is at most the third in any stretch it falls into. */
  lemma AtMostTheThird(all: seq<Time>, earlier: Time, now: Time, from: Time)
    requires earlier <= now && |Prune(all, earlier)| < MAX_REGISTRATIONS_PER_WINDOW
    requires now < from + REGISTRATION_TICKS
    ensures CountWithin(all + [now], from, from + REGISTRATION_TICKS) <= MAX_REGISTRATIONS_PER_WINDOW
  {
    assert (all + [now])[..|all|] == all;
    PruneShrinks(all, earlier, now);
    PruneKeepsRecent(all, now, from, from + REGISTRATION_TICKS);
  }

  /** No stretch of 3600 s, wherever it starts, holds more than three registrations of a
      key; in fact the stretch may be any half-open one of 3601 s. */
  lemma {:induction false} RegistrationBudget(es: seq<Event>, k: Key, from: Time)
    requires Disciplined(es, true)
    ensures CountWithin(Registrations(es, k), from, from + REGISTRATION_TICKS) <= MAX_REGISTRATIONS_PER_WINDOW
  {
    if es != [] {
      var before, last := es[..|es| - 1], es[|es| - 1];
      RegistrationBudget(before, k, from);
      if last.call == RecordRegistration(k) {
        SameRun(before);
        ListStandsForHistory(before, k);
        BudgetStep(Registrations(before, k), Run(before, false).now, last.now, from);
      }
    }
  }

  lemma BudgetStep(all: seq<Time>, earlier: Time, now: Time, from: Time)
    requires earlier <= now && |Prune(all, earlier)| < MAX_REGISTRATIONS_PER_WINDOW
    requires CountWithin(all, from, from + REGISTRATION_TICKS) <= MAX_REGISTRATIONS_PER_WINDOW
    ensures CountWithin(all + [now], from, from + REGISTRATION_TICKS) <= MAX_REGISTRATIONS_PER_WINDOW
  {
    if now < from + REGISTRATION_TICKS {
      AtMostTheThird(all, earlier, now, from);
    } else {
      assert (all + [now])[..|all|] == all;
    }
  }

  // ---- The budget is exact -----------------------------------------------------

  /** Asks for permission and registers. */
  function Registers(es: seq<Event>, k: Key, now: Time): seq<Event> {
    es + [Event(IsAllowedToRegister(k), now)] + [Event(RecordRegistration(k), now)]
  }

  /** The run holds these timestamps for the key, and recorded these registrations. */
  ghost predicate Holds(es: seq<Event>, k: Key, now: Time, held: seq<Time>, recorded: seq<Time>) {
    && Disciplined(es, true) && Run(es, true).now <= now
    && RegistrationsOf(Run(es, true).limiter, k) == held && Registrations(es, k) == recorded
  }

  lemma AsksFirst(es: seq<Event>, k: Key, now: Time, held: seq<Time>, recorded: seq<Time>)
    requires Holds(es, k, now, held, recorded) && |Prune(held, now)| < MAX_REGISTRATIONS_PER_WINDOW
    ensures var asked := es + [Event(IsAllowedToRegister(k), now)];
            Holds(asked, k, now, Prune(held, now), recorded) && k in Run(asked, true).mayRegister
  {
    var e := Event(IsAllowedToRegister(k), now);
    RunSnoc(es, e, true);
    assert (es + [e])[..|es|] == es;
  }

  lemma RegistersOnce(es: seq<Event>, k: Key, now: Time, held: seq<Time>, recorded: seq<Time>)
    requires Holds(es, k, now, held, recorded) && |Prune(held, now)| < MAX_REGISTRATIONS_PER_WINDOW
    ensures Holds(Registers(es, k, now), k, now, Prune(held, now) + [now], recorded + [now])
  {
    var asked, e := es + [Event(IsAllowedToRegister(k), now)], Event(RecordRegistration(k), now);
    AsksFirst(es, k, now, held, recorded);
    RunSnoc(asked, e, true);
    assert (asked + [e])[..|asked|] == asked;
  }

  /** Three registrations at once, and a fourth as soon as the first three are forgotten. */
  lemma FourRegistrations(k: Key) returns (es: seq<Event>)
    ensures Disciplined(es, true) && Registrations(es, k) == [0, 0, 0, REGISTRATION_TICKS]
  {
    PruneValues();
    RegistersOnce([], k, 0, [], []);
    es := Registers([], k, 0);
    RegistersOnce(es, k, 0, [0], [0]);
    es := Registers(es, k, 0);
    RegistersOnce(es, k, 0, [0, 0], [0, 0]);
    es := Registers(es, k, 0);
    RegistersOnce(es, k, REGISTRATION_TICKS, [0, 0, 0], [0, 0, 0]);
    es := Registers(es, k, REGISTRATION_TICKS);
    assert [0, 0, 0] + [REGISTRATION_TICKS] == [0, 0, 0, REGISTRATION_TICKS];
  }

  lemma PruneValues()
    ensures Prune([], 0) == [] && Prune([0], 0) == [0] && Prune([0, 0], 0) == [0, 0]
    ensures Prune([0, 0, 0], REGISTRATION_TICKS) == []
  {
    PruneCons(0, [], 0);
    PruneCons(0, [0], 0);
    assert [0] + [0] == [0, 0] && [0] + [0, 0] == [0, 0, 0];
    PruneCons(0, [], REGISTRATION_TICKS);
    PruneCons(0, [0], REGISTRATION_TICKS);
    PruneCons(0, [0, 0], REGISTRATION_TICKS);
  }

  predicate AtMostThree(es: seq<Event>, k: Key, from: Time, ticks: int) {
    CountWithin(Registrations(es, k), from, from + ticks) <= 3
  }

  ghost predicate AtMostThreeWithin(ticks: int) {
    forall es, k, from :: Disciplined(es, true) ==> AtMostThree(es, k, from, ticks)
  }

  lemma {:induction false} CountGrows(ts: seq<Time>, from: Time, until: Time, later: Time)
    requires until <= later
    ensures CountWithin(ts, from, until) <= CountWithin(ts, from, later)
  {
    if ts != [] {
      CountGrows(ts[..|ts| - 1], from, until, later);
    }
  }

  lemma CountSnoc(ts: seq<Time>, t: Time, from: Time, until: Time)
    ensures CountWithin(ts + [t], from, until) == CountWithin(ts, from, until) + (if from <= t < until then 1 else 0)
  {
    assert (ts + [t])[..|ts|] == ts;
  }

  lemma FourWithin(ticks: int)
    requires ticks > REGISTRATION_TICKS
    ensures CountWithin([0, 0, 0, REGISTRATION_TICKS], 0, 0 + ticks) == 4
  {
    CountSnoc([], 0, 0, ticks);
    CountSnoc([0], 0, 0, ticks);
    CountSnoc([0, 0], 0, 0, ticks);
    CountSnoc([0, 0, 0], REGISTRATION_TICKS, 0, ticks);
    assert [] + [0] == [0] && [0] + [0] == [0, 0] && [0, 0] + [0] == [0, 0, 0];
    assert [0, 0, 0] + [REGISTRATION_TICKS] == [0, 0, 0, REGISTRATION_TICKS];
  }

  /** Every stretch of a length holds at most three registrations exactly up to 3601 s, the
      upper end left out. */
  lemma BudgetExactlyFor3601Seconds(ticks: int)
    ensures AtMostThreeWithin(ticks) <==> ticks <= 3601 * TICKS
  {
    if ticks <= REGISTRATION_TICKS {
      forall es, k, from | Disciplined(es, true) ensures AtMostThree(es, k, from, ticks) {
        RegistrationBudget(es, k, from);
        CountGrows(Registrations(es, k), from, from + ticks, from + REGISTRATION_TICKS);
      }
    } else {
      var k: Key := "";
      var es := FourRegistrations(k);
      FourWithin(ticks);
      assert !AtMostThree(es, k, 0, ticks);
    }
  }
}
