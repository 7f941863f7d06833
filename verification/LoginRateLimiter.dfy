/** Login throttling and the new-account budget (src/Security/LoginRateLimiter.cpp).

    The value type `Limiter` and the functions on it say what every public call
    replies and how it changes the tables; the class `LoginRateLimiter` performs
    the same calls by updating its fields in place and is proved against them. */
module RateLimiting {
  import opened Basics

  // The steady clock counts nanoseconds from its epoch.
  const TICKS := 1_000_000_000

  const MAX_FAILURES_PER_WINDOW := 5
  const FAILURE_WINDOW := 600
  const INITIAL_LOCKOUT := 1
  const MAX_LOCKOUT := 900
  const MAX_DOUBLINGS := 10
  const MAX_REGISTRATIONS_PER_WINDOW := 3
  const REGISTRATION_WINDOW := 3600
  const SWEEP_INTERVAL := 60

  type Key = string
  type Time = int

  datatype AttemptRecord = AttemptRecord(failureCount: nat, windowStart: Time, lockedUntil: Time)

  datatype Limiter = Limiter(
    records: map<Key, AttemptRecord>,
    registrations: map<Key, seq<Time>>,
    lastSweep: Time)

  const NEW_RECORD := AttemptRecord(0, 0, 0)
  const NEW_LIMITER := Limiter(map[], map[], 0)

  function Pow2(n: nat): (p: int)
    ensures p >= n + 1
  {
    if n == 0 then 1 else 2 * Pow2(n - 1)
  }

  /** duration_cast<seconds>: truncates toward zero. */
  function WholeSeconds(ticks: int): int {
    if ticks >= 0 then ticks / TICKS else -(-ticks / TICKS)
  }

  // ---- What one record does -------------------------------------------------

  predicate WindowExpired(r: AttemptRecord, now: Time) {
    WholeSeconds(now - r.windowStart) > FAILURE_WINDOW
  }

  /** A fully elapsed failure window voids a lockout that is still pending. */
  function DropExpired(r: AttemptRecord, now: Time): AttemptRecord {
    if WindowExpired(r, now) then r.(lockedUntil := Min(r.lockedUntil, now)) else r
  }

  /** Seconds of lockout the given over-budget failure count earns. */
  function Lockout(failureCount: nat): int
    requires failureCount > MAX_FAILURES_PER_WINDOW
  {
    Min(INITIAL_LOCKOUT * Pow2(Min(MAX_DOUBLINGS, failureCount - MAX_FAILURES_PER_WINDOW - 1)), MAX_LOCKOUT)
  }

  /** One more failure, in a new window when the old one has lapsed. */
  function Counted(r: AttemptRecord, now: Time): AttemptRecord {
    if WindowExpired(r, now) then r.(windowStart := now, failureCount := 1)
    else r.(failureCount := r.failureCount + 1)
  }

  function Failed(r: AttemptRecord, now: Time): AttemptRecord {
    var counted := Counted(r, now);
    if counted.failureCount <= MAX_FAILURES_PER_WINDOW then counted
    else
      var lockout := Lockout(counted.failureCount) * TICKS;
      counted.(lockedUntil := if counted.lockedUntil > now then counted.lockedUntil + lockout else now + lockout)
  }

  /** The timestamps still inside the registration window. */
  function Prune(timestamps: seq<Time>, now: Time): (kept: seq<Time>) {
    if timestamps == [] then []
    else if WholeSeconds(now - timestamps[0]) > REGISTRATION_WINDOW then Prune(timestamps[1..], now)
    else [timestamps[0]] + Prune(timestamps[1..], now)
  }

  // ---- The periodic sweep ---------------------------------------------------

  predicate SweptAway(r: AttemptRecord, now: Time) {
    WindowExpired(r, now) && DropExpired(r, now).lockedUntil <= now
  }

  function SweptRecords(records: map<Key, AttemptRecord>, now: Time): map<Key, AttemptRecord> {
    map k | k in records && !SweptAway(records[k], now) :: DropExpired(records[k], now)
  }

  function SweptRegistrations(registrations: map<Key, seq<Time>>, now: Time): map<Key, seq<Time>> {
    map k | k in registrations && Prune(registrations[k], now) != [] :: Prune(registrations[k], now)
  }

  function Sweep(l: Limiter, now: Time): Limiter {
    if WholeSeconds(now - l.lastSweep) < SWEEP_INTERVAL then l
    else Limiter(SweptRecords(l.records, now), SweptRegistrations(l.registrations, now), now)
  }

  // ---- The five public calls ------------------------------------------------

  datatype Call =
    | SecondsUntilAllowed(key: Key)
    | RecordFailure(key: Key)
    | RecordSuccess(key: Key)
    | IsAllowedToRegister(key: Key)
    | RecordRegistration(key: Key)

  datatype Reply = Seconds(seconds: int) | Allowed(allowed: bool) | Done

  function RecordOf(l: Limiter, k: Key): AttemptRecord {
    if k in l.records then l.records[k] else NEW_RECORD
  }

  function RegistrationsOf(l: Limiter, k: Key): seq<Time> {
    if k in l.registrations then l.registrations[k] else []
  }

  /** The limiter as the call finds it: only the first two calls sweep. `sweeping`
      false describes a limiter whose sweep has been removed. */
  function Swept(l: Limiter, call: Call, now: Time, sweeping: bool): Limiter {
    if sweeping && (call.SecondsUntilAllowed? || call.RecordFailure?) then Sweep(l, now) else l
  }

  function Effect(l: Limiter, call: Call, now: Time): Limiter {
    match call
    case SecondsUntilAllowed(k) =>
      if k in l.records then l.(records := l.records[k := DropExpired(l.records[k], now)]) else l
    case RecordFailure(k) =>
      l.(records := l.records[k := Failed(RecordOf(l, k), now)])
    case RecordSuccess(k) =>
      l.(records := l.records - {k})
    case IsAllowedToRegister(k) =>
      if k in l.registrations then l.(registrations := l.registrations[k := Prune(l.registrations[k], now)]) else l
    case RecordRegistration(k) =>
      l.(registrations := l.registrations[k := RegistrationsOf(l, k) + [now]])
  }

  function Answer(l: Limiter, call: Call, now: Time): Reply {
    match call
    case SecondsUntilAllowed(k) =>
      if k !in l.records then Seconds(0)
      else
        var locked := DropExpired(l.records[k], now).lockedUntil;
        if locked > now then Seconds(if WholeSeconds(locked - now) < 1 then 1 else WholeSeconds(locked - now))
        else Seconds(0)
    case RecordFailure(k) =>
      var r := Failed(RecordOf(l, k), now);
      Seconds(if r.failureCount <= MAX_FAILURES_PER_WINDOW then 0 else WholeSeconds(r.lockedUntil - now))
    case RecordSuccess(k) => Done
    case IsAllowedToRegister(k) => Allowed(|Prune(RegistrationsOf(l, k), now)| < MAX_REGISTRATIONS_PER_WINDOW)
    case RecordRegistration(k) => Done
  }

  function NextLimiter(l: Limiter, call: Call, now: Time, sweeping: bool): Limiter {
    Effect(Swept(l, call, now, sweeping), call, now)
  }

  function ReplyTo(l: Limiter, call: Call, now: Time, sweeping: bool): Reply {
    Answer(Swept(l, call, now, sweeping), call, now)
  }

  // ---- The limiter as the program holds it ----------------------------------

  class LoginRateLimiter {
    var attemptRecords: map<Key, AttemptRecord>
    var registrationTimestamps: map<Key, seq<Time>>
    var lastSweepTime: Time

    ghost function State(): Limiter
      reads this
    {
      Limiter(attemptRecords, registrationTimestamps, lastSweepTime)
    }

    constructor ()
      ensures State() == NEW_LIMITER
    {
      attemptRecords, registrationTimestamps, lastSweepTime := map[], map[], 0;
    }

    method SecondsUntilAllowed(identityKey: Key, now: Time) returns (seconds: int)
      modifies this
      ensures State() == NextLimiter(old(State()), Call.SecondsUntilAllowed(identityKey), now, true)
      ensures Seconds(seconds) == ReplyTo(old(State()), Call.SecondsUntilAllowed(identityKey), now, true)
    {
      SweepStaleEntries(now);
      if identityKey !in attemptRecords {
        return 0;
      }
      attemptRecords := attemptRecords[identityKey := DropExpired(attemptRecords[identityKey], now)];
      var record := attemptRecords[identityKey];
      if record.lockedUntil > now {
        var remaining := WholeSeconds(record.lockedUntil - now);
        return if remaining < 1 then 1 else remaining;
      }
      return 0;
    }

    method RecordFailure(identityKey: Key, now: Time) returns (seconds: int)
      modifies this
      ensures State() == NextLimiter(old(State()), Call.RecordFailure(identityKey), now, true)
      ensures Seconds(seconds) == ReplyTo(old(State()), Call.RecordFailure(identityKey), now, true)
    {
      SweepStaleEntries(now);
      ghost var swept := State();
      var record := if identityKey in attemptRecords then attemptRecords[identityKey] else NEW_RECORD;
      if WholeSeconds(now - record.windowStart) > FAILURE_WINDOW {
        record := record.(windowStart := now, failureCount := 0);
      }
      record := record.(failureCount := record.failureCount + 1);
      assert record == Counted(RecordOf(swept, identityKey), now);
      if record.failureCount <= MAX_FAILURES_PER_WINDOW {
        attemptRecords := attemptRecords[identityKey := record];
        return 0;
      }
      var doublings := Min(MAX_DOUBLINGS, record.failureCount - MAX_FAILURES_PER_WINDOW - 1);
      var lockout := Min(INITIAL_LOCKOUT * Pow2(doublings), MAX_LOCKOUT) * TICKS;
      record := record.(lockedUntil :=
                          if record.lockedUntil > now then record.lockedUntil + lockout else now + lockout);
      attemptRecords := attemptRecords[identityKey := record];
      return WholeSeconds(record.lockedUntil - now);
    }

    method RecordSuccess(identityKey: Key, now: Time)
      modifies this
      ensures State() == NextLimiter(old(State()), Call.RecordSuccess(identityKey), now, true)
    {
      attemptRecords := attemptRecords - {identityKey};
    }

    method IsAllowedToRegister(identityKey: Key, now: Time) returns (allowed: bool)
      modifies this
      ensures State() == NextLimiter(old(State()), Call.IsAllowedToRegister(identityKey), now, true)
      ensures Allowed(allowed) == ReplyTo(old(State()), Call.IsAllowedToRegister(identityKey), now, true)
    {
      if identityKey !in registrationTimestamps {
        return true;
      }
      var timestamps := RemoveExpired(registrationTimestamps[identityKey], now);
      registrationTimestamps := registrationTimestamps[identityKey := timestamps];
      return |timestamps| < MAX_REGISTRATIONS_PER_WINDOW;
    }

    method RecordRegistration(identityKey: Key, now: Time)
      modifies this
      ensures State() == NextLimiter(old(State()), Call.RecordRegistration(identityKey), now, true)
    {
      var timestamps := if identityKey in registrationTimestamps then registrationTimestamps[identityKey] else [];
      registrationTimestamps := registrationTimestamps[identityKey := timestamps + [now]];
    }

    method SweepStaleEntries(now: Time)
      modifies this
      ensures State() == Sweep(old(State()), now)
    {
      if WholeSeconds(now - lastSweepTime) < SWEEP_INTERVAL {
        return;
      }
      lastSweepTime := now;
      SweepAttempts(now);
      SweepRegistrations(now);
    }

    /** Walks the attempt table, erasing entries on the way. */
    method SweepAttempts(now: Time)
      modifies this`attemptRecords
      ensures attemptRecords == SweptRecords(old(attemptRecords), now)
    {
      ghost var before := attemptRecords;
      var pending := attemptRecords.Keys;
      while pending != {}
        invariant pending <= attemptRecords.Keys
        invariant attemptRecords == WalkedRecords(before, pending, now)
        decreases pending
      {
        var k :| k in pending;
        var record := DropExpired(attemptRecords[k], now);
        pending := pending - {k};
        if WindowExpired(record, now) && record.lockedUntil <= now {
          attemptRecords := attemptRecords - {k};
        } else {
          attemptRecords := attemptRecords[k := record];
        }
      }
    }

    /** Walks the registration table, erasing entries on the way. */
    method SweepRegistrations(now: Time)
      modifies this`registrationTimestamps
      ensures registrationTimestamps == SweptRegistrations(old(registrationTimestamps), now)
    {
      ghost var before := registrationTimestamps;
      var pending := registrationTimestamps.Keys;
      while pending != {}
        invariant pending <= registrationTimestamps.Keys && pending <= before.Keys
        invariant registrationTimestamps == WalkedRegistrations(before, pending, now)
        decreases pending
      {
        var k :| k in pending;
        var timestamps := RemoveExpired(registrationTimestamps[k], now);
        RegistrationWalked(before, pending, k, now);
        pending := pending - {k};
        if timestamps == [] {
          registrationTimestamps := registrationTimestamps - {k};
        } else {
          registrationTimestamps := registrationTimestamps[k := timestamps];
        }
      }
    }
  }

  /** The attempt table when the sweep still has `pending` to visit. */
  ghost function WalkedRecords(records: map<Key, AttemptRecord>, pending: set<Key>, now: Time)
    : map<Key, AttemptRecord>
  {
    map k | k in records && (k in pending || !SweptAway(records[k], now)) ::
      if k in pending then records[k] else DropExpired(records[k], now)
  }

  ghost function WalkedRegistrations(registrations: map<Key, seq<Time>>, pending: set<Key>, now: Time)
    : map<Key, seq<Time>>
  {
    map k | k in registrations && (k in pending || Prune(registrations[k], now) != []) ::
      if k in pending then registrations[k] else Prune(registrations[k], now)
  }

  lemma RegistrationWalked(registrations: map<Key, seq<Time>>, pending: set<Key>, k: Key, now: Time)
    requires k in pending && pending <= registrations.Keys
    ensures var walked := WalkedRegistrations(registrations, pending, now);
            && k in walked && walked[k] == registrations[k]
            && WalkedRegistrations(registrations, pending - {k}, now) ==
               if Prune(registrations[k], now) == [] then walked - {k} else walked[k := Prune(registrations[k], now)]
  {}

  /** The erase/remove_if pass over one key's timestamps. */
  method RemoveExpired(timestamps: seq<Time>, now: Time) returns (kept: seq<Time>)
    ensures kept == Prune(timestamps, now)
    ensures forall t :: t in kept <==> t in timestamps && WholeSeconds(now - t) <= REGISTRATION_WINDOW
  {
    kept := [];
    for i := 0 to |timestamps|
      invariant kept + Prune(timestamps[i..], now) == Prune(timestamps, now)
      invariant forall t :: t in kept <==> t in timestamps[..i] && WholeSeconds(now - t) <= REGISTRATION_WINDOW
    {
      assert timestamps[i..][1..] == timestamps[i + 1..];
      assert timestamps[..i + 1] == timestamps[..i] + [timestamps[i]];
      if WholeSeconds(now - timestamps[i]) <= REGISTRATION_WINDOW {
        kept := kept + [timestamps[i]];
      }
    }
    assert timestamps[..|timestamps|] == timestamps;
  }
}
