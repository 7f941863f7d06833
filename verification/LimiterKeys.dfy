/** Every throttle key is on its own: what other keys do changes none of its replies. The
    bounds on waiting therefore hold on a busy server. */
module LimiterKeys {
  import opened Basics
  import opened RateLimiting
  import opened LimiterRuns
  import opened LockoutBound
  import opened SweepInvisible

  /** The calls of a run that name the key. */
  function OfKey(es: seq<Event>, k: Key): seq<Event> {
    if es == [] then []
    else
      var before, last := OfKey(es[..|es| - 1], k), es[|es| - 1];
      if last.call.key == k then before + [last] else before
  }

  /** The two worlds hold the same about the key; the clock may have run on in the second. */
  predicate SameKey(s: World, w: World, k: Key) {
    && s.now <= w.now
    && (k in s.limiter.records <==> k in w.limiter.records)
    && RecordOf(s.limiter, k) == RecordOf(w.limiter, k)
    && (k in s.limiter.registrations <==> k in w.limiter.registrations)
    && RegistrationsOf(s.limiter, k) == RegistrationsOf(w.limiter, k)
    && (k in s.mayFail <==> k in w.mayFail)
    && (k in s.mayRegister <==> k in w.mayRegister)
  }

  lemma OwnCall(s: World, w: World, e: Event)
    requires SameKey(s, w, e.call.key) && Legal(w, e)
    ensures SameKey(Next(s, e, false), Next(w, e, false), e.call.key)
    ensures EventReply(s, e, false) == EventReply(w, e, false) && Legal(s, e)
  {}

  lemma OtherCall(s: World, w: World, e: Event, k: Key)
    requires SameKey(s, w, k) && Legal(w, e) && e.call.key != k
    ensures SameKey(s, Next(w, e, false), k)
  {}

  lemma {:induction false} OwnRun(es: seq<Event>, k: Key)
    requires Disciplined(es, false)
    ensures Disciplined(OfKey(es, k), false)
    ensures SameKey(Run(OfKey(es, k), false), Run(es, false), k)
  {
    if es != [] {
      var before, e := es[..|es| - 1], es[|es| - 1];
      OwnRun(before, k);
      if e.call.key == k {
        OwnCall(Run(OfKey(before, k), false), Run(before, false), e);
        RunSnoc(OfKey(before, k), e, false);
      } else {
        OtherCall(Run(OfKey(before, k), false), Run(before, false), e, k);
      }
    }
  }

  /** The sweep does not change the reply to one more legal call. */
  lemma SameReply(es: seq<Event>, e: Event)
    requires Disciplined(es, true) && Legal(Run(es, true), e)
    ensures Disciplined(es, false) && Legal(Run(es, false), e)
    ensures EventReply(Run(es, true), e, true) == EventReply(Run(es, false), e, false)
  {
    SameRun(es);
    SameStep(Run(es, true), Run(es, false), e);
  }

  /** In every run of the server each call is answered as if its key were the only one:
      the key's own calls by themselves are a disciplined run with the same replies. */
  lemma KeysAreIndependent(es: seq<Event>, e: Event)
    requires Disciplined(es, true) && Legal(Run(es, true), e)
    ensures Disciplined(OfKey(es, e.call.key), true) && Legal(Run(OfKey(es, e.call.key), true), e)
    ensures EventReply(Run(es, true), e, true) == EventReply(Run(OfKey(es, e.call.key), true), e, true)
  {
    var own := OfKey(es, e.call.key);
    SameReply(es, e);
    OwnRun(es, e.call.key);
    OwnCall(Run(own, false), Run(es, false), e);
    SweepIsInvisible(own);
    SameRun(own);
    SameStep(Run(own, true), Run(own, false), e);
  }

  // ---- Waiting on a busy server -----------------------------------------------

  /** Calls that follow the run and leave the key in peace: those of other keys, and checks
      of the key itself that are refused. */
  predicate Harmless(es: seq<Event>, more: seq<Event>, k: Key) {
    more == [] ||
    (var before, e := more[..|more| - 1], more[|more| - 1];
     && Harmless(es, before, k)
     && (e.call.key == k ==>
           e.call.SecondsUntilAllowed? && EventReply(Run(es + before, true), e, true) != Seconds(0)))
  }

  predicate SameRecordOf(s: World, w: World, k: Key) {
    (k in s.limiter.records <==> k in w.limiter.records) && RecordOf(s.limiter, k) == RecordOf(w.limiter, k)
  }

  lemma HarmlessCall(s: World, w: World, e: Event, k: Key)
    requires SameRecordOf(s, w, k)
    requires e.call.key == k ==> e.call.SecondsUntilAllowed? && EventReply(w, e, false) != Seconds(0)
    ensures SameRecordOf(s, Next(w, e, false), k)
  {}

  lemma SnocStep(es: seq<Event>, more: seq<Event>)
    requires more != []
    ensures es + more == (es + more[..|more| - 1]) + [more[|more| - 1]]
  {}

  lemma {:induction false} DisciplinedSoFar(es: seq<Event>, more: seq<Event>)
    requires Disciplined(es + more, true)
    ensures Disciplined(es, true) && Run(es, true).now <= Run(es + more, true).now
  {
    if more == [] {
      assert es + more == es;
    } else {
      SnocStep(es, more);
      RunSnoc(es + more[..|more| - 1], more[|more| - 1], true);
      DisciplinedSoFar(es, more[..|more| - 1]);
    }
  }

  lemma HarmlessStep(es: seq<Event>, before: seq<Event>, e: Event, k: Key)
    requires Disciplined(es + before, true) && Legal(Run(es + before, true), e)
    requires SameRecordOf(Run(es, false), Run(es + before, false), k)
    requires e.call.key == k ==>
               e.call.SecondsUntilAllowed? && EventReply(Run(es + before, true), e, true) != Seconds(0)
    ensures SameRecordOf(Run(es, false), Run((es + before) + [e], false), k)
  {
    SameReply(es + before, e);
    RunSnoc(es + before, e, false);
    HarmlessCall(Run(es, false), Run(es + before, false), e, k);
  }

  lemma {:induction false} RecordStays(es: seq<Event>, more: seq<Event>, k: Key)
    requires Disciplined(es + more, true) && Harmless(es, more, k)
    ensures SameRecordOf(Run(es, false), Run(es + more, false), k)
  {
    if more == [] {
      assert es + more == es;
    } else {
      var before, e := more[..|more| - 1], more[|more| - 1];
      SnocStep(es, more);
      RunSnoc(es + before, e, true);
      RecordStays(es, before, k);
      HarmlessStep(es, before, e, k);
    }
  }

  lemma CheckReadsRecord(s: World, w: World, k: Key, u: Time)
    requires SameRecordOf(s, w, k)
    ensures EventReply(s, Event(SecondsUntilAllowed(k), u), false) ==
            EventReply(w, Event(SecondsUntilAllowed(k), u), false)
  {}

  /** A check of the key is answered as if the harmless calls had not been made. */
  lemma HarmlessCallsDoNotMatter(es: seq<Event>, more: seq<Event>, k: Key, u: Time)
    requires Disciplined(es + more, true) && Harmless(es, more, k) && u >= Run(es + more, true).now
    ensures Disciplined(es, true) && u >= Run(es, true).now
    ensures EventReply(Run(es + more, true), Event(SecondsUntilAllowed(k), u), true) ==
            EventReply(Run(es, true), Event(SecondsUntilAllowed(k), u), true)
  {
    DisciplinedSoFar(es, more);
    RecordStays(es, more, k);
    CheckReadsRecord(Run(es, false), Run(es + more, false), k, u);
    SameReply(es + more, Event(SecondsUntilAllowed(k), u));
    SameReply(es, Event(SecondsUntilAllowed(k), u));
  }

  /** No call but a failure of the key itself moves the end of its refusals to a later time. */
  lemma OnlyFailuresRefuse(w: World, e: Event, k: Key)
    requires e.call != RecordFailure(k) && k in Next(w, e, true).limiter.records
    ensures k in w.limiter.records
    ensures var r, r' := w.limiter.records[k], Next(w, e, true).limiter.records[k];
            r'.windowStart == r.windowStart && r'.lockedUntil <= r.lockedUntil
  {}

  ghost predicate ReleasedBy(w: World, k: Key, end: Time) {
    k in w.limiter.records ==>
      Min(w.limiter.records[k].lockedUntil, w.limiter.records[k].windowStart + WINDOW_TICKS) <= end
  }

  lemma StaysReleased(w: World, e: Event, k: Key, end: Time)
    requires e.call != RecordFailure(k) && ReleasedBy(w, k, end)
    ensures ReleasedBy(Next(w, e, true), k, end)
  {
    if k in Next(w, e, true).limiter.records {
      OnlyFailuresRefuse(w, e, k);
    }
  }

  lemma {:induction false} LastFailureDecides(es: seq<Event>, k: Key, last: Time)
    requires Disciplined(es, true)
    requires forall e <- es :: e.call == RecordFailure(k) ==> e.now <= last
    ensures ReleasedBy(Run(es, true), k, last + 256 * TICKS)
  {
    if es != [] {
      var before, e := es[..|es| - 1], es[|es| - 1];
      LastFailureDecides(before, k, last);
      assert es == before + [e];
      RunSnoc(before, e, true);
      if e.call == RecordFailure(k) {
        RunIsTame(es);
      } else {
        StaysReleased(Run(before, true), e, k, last + 256 * TICKS);
      }
    }
  }

  /** Whatever happened before, a key for which no failure is recorded for 256 s may
      authenticate again, however often it asked meanwhile and however busy the server is
      with others; the 512 s lockout is never served in full. */
  lemma NoOneWaitsLongerThan256Seconds(es: seq<Event>, k: Key, last: Time, now: Time)
    requires Disciplined(es, true) && now >= Run(es, true).now
    requires forall e <- es :: e.call == RecordFailure(k) ==> e.now <= last
    requires now >= last + 256 * TICKS
    ensures EventReply(Run(es, true), Event(SecondsUntilAllowed(k), now), true) == Seconds(0)
  {
    LastFailureDecides(es, k, last);
    RefusedExactly(Run(es, true).limiter, k, now);
  }

  /** The key is refused at every moment of the announced lockout, whatever other keys do and
      however often it asks meanwhile. */
  ghost predicate HonouredThroughout(es: seq<Event>, k: Key, now: Time, seconds: int) {
    forall more, u ::
      && Harmless(es, more, k) && Disciplined(es + more, true) && Run(es + more, true).now <= u
      && now <= u < now + seconds * TICKS ==>
        EventReply(Run(es + more, true), Event(SecondsUntilAllowed(k), u), true) != Seconds(0)
  }

  lemma HonouredAmongOthers(es: seq<Event>, k: Key, now: Time, seconds: int)
    requires Disciplined(es, true) && Run(es, true).now <= now
    ensures HonouredThroughout(es, k, now, seconds) <==> Honoured(Run(es, true), k, now, seconds)
  {
    if Honoured(Run(es, true), k, now, seconds) {
      forall more, u | && Harmless(es, more, k) && Disciplined(es + more, true) && Run(es + more, true).now <= u
                       && now <= u < now + seconds * TICKS
        ensures EventReply(Run(es + more, true), Event(SecondsUntilAllowed(k), u), true) != Seconds(0)
      {
        HarmlessCallsDoNotMatter(es, more, k, u);
      }
    }
    assert Harmless(es, [], k) && es + [] == es;
  }

  /** The reply of recordFailure is documented as the lockout that now applies. Whether it
      will, whatever other keys do, can be told from the record before the call: exactly
      when the lockout to come ends before the failure window lapses. */
  lemma ReplyIsHonouredExactly(es: seq<Event>, k: Key, now: Time)
    requires Disciplined(es, true) && Legal(Run(es, true), Event(RecordFailure(k), now))
    ensures var e := Event(RecordFailure(k), now);
            HonouredThroughout(es + [e], k, now, EventReply(Run(es, true), e, true).seconds)
            <==> LockoutFits(RecordOf(Run(es, true).limiter, k), now)
  {
    var e := Event(RecordFailure(k), now);
    HonouredUndisturbed(es, k, now);
    RunSnoc(es, e, true);
    HonouredAmongOthers(es + [e], k, now, EventReply(Run(es, true), e, true).seconds);
  }

  /** After the run `es` a check is refused with `seconds`; then harmless calls follow. */
  ghost predicate Waits(es: seq<Event>, k: Key, now: Time, seconds: int, more: seq<Event>) {
    && Disciplined(es, true) && Run(es, true).now <= now
    && ReplyTo(Run(es, true).limiter, SecondsUntilAllowed(k), now, true) == Seconds(seconds)
    && seconds != 0
    && Disciplined(es + [Event(SecondsUntilAllowed(k), now)] + more, true)
    && Harmless(es + [Event(SecondsUntilAllowed(k), now)], more, k)
  }

  ghost function Busy(es: seq<Event>, k: Key, now: Time, more: seq<Event>): World {
    Run(es + [Event(SecondsUntilAllowed(k), now)] + more, true)
  }

  lemma OnlyTheCheckMatters(es: seq<Event>, k: Key, now: Time, more: seq<Event>, u: Time)
    requires Disciplined(es + [Event(SecondsUntilAllowed(k), now)] + more, true)
    requires Harmless(es + [Event(SecondsUntilAllowed(k), now)], more, k)
    requires Busy(es, k, now, more).now <= u
    ensures var after := NextLimiter(Run(es, true).limiter, SecondsUntilAllowed(k), now, true);
            StillRefused(Busy(es, k, now, more).limiter, k, u) <==> StillRefused(after, k, u)
  {
    RunSnoc(es, Event(SecondsUntilAllowed(k), now), true);
    HarmlessCallsDoNotMatter(es + [Event(SecondsUntilAllowed(k), now)], more, k, u);
  }

  lemma WaitingAmongOthers(es: seq<Event>, k: Key, now: Time, seconds: int, more: seq<Event>, u: Time)
    requires Waits(es, k, now, seconds, more) && Busy(es, k, now, more).now <= u
    ensures var records := Run(es, true).limiter.records;
            && k in records && IsAnnounced(records[k], now, seconds)
            && (StillRefused(Busy(es, k, now, more).limiter, k, u) <==> Refuses(records[k], u))
  {
    var l := Run(es, true).limiter;
    OnlyTheCheckMatters(es, k, now, more, u);
    RefusedUndisturbed(l, k, now, seconds, NextLimiter(l, SecondsUntilAllowed(k), now, true), u);
  }

  /** The reply of a check is documented as the seconds until the key may authenticate.
      Waiting that long, whatever harmless calls are made meanwhile, is enough exactly when
      truncation took nothing off it or the window lapses by then. */
  lemma WaitingTheReplyIsEnough(es: seq<Event>, k: Key, now: Time, seconds: int, more: seq<Event>, u: Time)
    requires Waits(es, k, now, seconds, more) && Busy(es, k, now, more).now <= u == now + seconds * TICKS
    ensures k in Run(es, true).limiter.records
    ensures !StillRefused(Busy(es, k, now, more).limiter, k, u) <==>
              WaitSuffices(Run(es, true).limiter.records[k], now, seconds)
  {
    WaitingAmongOthers(es, k, now, seconds, more, u);
    RefusedAfterWaiting(Run(es, true).limiter.records[k], now, seconds);
  }

  /** Waiting a second less than the reply is too short exactly when the window lasts until
      then; otherwise the reply asks for more than is needed. */
  lemma WaitingLessIsTooShort(es: seq<Event>, k: Key, now: Time, seconds: int, more: seq<Event>, u: Time)
    requires Waits(es, k, now, seconds, more) && Busy(es, k, now, more).now <= u == now + (seconds - 1) * TICKS
    ensures k in Run(es, true).limiter.records
    ensures StillRefused(Busy(es, k, now, more).limiter, k, u) <==>
              u < Run(es, true).limiter.records[k].windowStart + WINDOW_TICKS
  {
    WaitingAmongOthers(es, k, now, seconds, more, u);
    RefusedAfterWaiting(Run(es, true).limiter.records[k], now, seconds);
  }
}
