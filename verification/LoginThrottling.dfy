/** What the message handlers make of wrong and right passwords: which failures they record
    and which they forgive, and that guessing is throttled. */
module LoginThrottling {
  import opened Basics
  import opened RateLimiting
  import opened LimiterRuns
  import opened LockoutBound
  import opened SweepInvisible
  import opened LimiterKeys

  // ---- Counting the calls of a key ---------------------------------------------

  /** Failures since the last forgiveness, and since the window they fall into began. */
  datatype Score = Score(count: nat, start: Time)

  const CLEAN := Score(0, 0)

  function Strike(s: Score, now: Time): Score {
    if now >= s.start + WINDOW_TICKS then Score(1, now) else Score(s.count + 1, s.start)
  }

  function ScoreOf(es: seq<Event>, k: Key): Score {
    if es == [] then CLEAN
    else
      var before, e := ScoreOf(es[..|es| - 1], k), es[|es| - 1];
      if e.call == RecordFailure(k) then Strike(before, e.now)
      else if e.call == RecordSuccess(k) then CLEAN
      else before
  }

  lemma ScoreSnoc(es: seq<Event>, e: Event, k: Key)
    ensures ScoreOf(es + [e], k) ==
            if e.call == RecordFailure(k) then Strike(ScoreOf(es, k), e.now)
            else if e.call == RecordSuccess(k) then CLEAN
            else ScoreOf(es, k)
  {
    assert (es + [e])[..|es|] == es;
  }

  ghost predicate Keeps(w: World, k: Key, s: Score) {
    && RecordOf(w.limiter, k).failureCount == s.count && RecordOf(w.limiter, k).windowStart == s.start
    && (k in w.limiter.records <==> s.count > 0)
  }

  lemma CallKeepsScore(w: World, e: Event, k: Key, s: Score)
    requires Keeps(w, k, s)
    ensures Keeps(Next(w, e, false), k,
                  if e.call == RecordFailure(k) then Strike(s, e.now)
                  else if e.call == RecordSuccess(k) then CLEAN else s)
  {
    WindowLapses(RecordOf(w.limiter, k), e.now);
  }

  lemma {:induction false} UnsweptKeepsScore(es: seq<Event>, k: Key)
    ensures Keeps(Run(es, false), k, ScoreOf(es, k))
  {
    if es != [] {
      UnsweptKeepsScore(es[..|es| - 1], k);
      CallKeepsScore(Run(es[..|es| - 1], false), es[|es| - 1], k, ScoreOf(es[..|es| - 1], k));
    }
  }

  /** In every disciplined run a key's record holds its score; a record that is missing had
      nothing to count any more. */
  lemma RecordHoldsScore(es: seq<Event>, k: Key)
    requires Disciplined(es, true)
    ensures var w, s := Run(es, true), ScoreOf(es, k);
            && (k in w.limiter.records ==> s.count > 0 && w.limiter.records[k].failureCount == s.count
                                           && w.limiter.records[k].windowStart == s.start)
            && (k !in w.limiter.records ==> s.count == 0 || w.now >= s.start + WINDOW_TICKS)
  {
    SameRun(es);
    UnsweptKeepsScore(es, k);
    WindowLapses(RecordOf(Run(es, false).limiter, k), Run(es, true).now);
  }

  /** Right after a failure that is one too many the key is refused. */
  lemma SixthStrikeRefuses(es: seq<Event>, k: Key, now: Time, u: Time)
    requires var e := Event(RecordFailure(k), now); Disciplined(es + [e], true) && ScoreOf(es + [e], k).count > 5
    requires now <= u < now + TICKS && u < ScoreOf(es + [Event(RecordFailure(k), now)], k).start + WINDOW_TICKS
    ensures EventReply(Run(es + [Event(RecordFailure(k), now)], true), Event(SecondsUntilAllowed(k), u), true)
            != Seconds(0)
  {
    var e := Event(RecordFailure(k), now);
    RunSnoc(es, e, true);
    RecordHoldsScore(es + [e], k);
    FailureReply(es, k, now);
    RefusedExactly(Run(es + [e], true).limiter, k, u);
  }

  // ---- What a message means for a key -----------------------------------------------

  datatype Ruling = Struck(at: Time) | Forgiven | Untouched

  /** Whether the message gets past its lockout checks. */
  predicate Admitted(es: seq<Event>, r: Request, ts: seq<Time>)
    requires |ts| == 5
  {
    if r.ChangePassword? then Asks(es, SecondsUntilAllowed(AccountKey(r.user)), ts[0]) == Seconds(0)
    else LockoutChecksPass(es, SourceIp(r.incomingIp), AccountKey(r.user), ts)
  }

  /** Whether the budget check of a registration said yes. */
  predicate Granted(es: seq<Event>, r: Request, ts: seq<Time>)
    requires |ts| == 5 && !r.ChangePassword?
  {
    var ip := SourceIp(r.incomingIp);
    MayRegister(LockoutChecks(es, ip, AccountKey(r.user), ts), ip, ts)
  }

  predicate MayRegister(checked: seq<Event>, ip: Key, ts: seq<Time>)
    requires |ts| == 5
  {
    Asks(checked, IsAllowedToRegister(ip), ts[2]) == Allowed(true)
  }

  /** A wrong password strikes the address and the account, a right one forgives both. A bad
      name or reset token strikes the address only, so that nobody can lock out an account
      that is not theirs, and a wrong current password strikes the account. */
  function Verdict(r: Request, ip: Key, account: Key, granted: bool, ts: seq<Time>, k: Key): Ruling
    requires |ts| == 5
  {
    match r
    case Login(_, _, valid) =>
      if k == ip then (if valid then Forgiven else Struck(ts[2]))
      else if k == account then (if valid then Forgiven else Struck(ts[3]))
      else Untouched
    case Register(_, _, nameValid, nameFree, created) =>
      if k != ip then Untouched
      else if !(nameValid && nameFree) then Struck(ts[2])
      else if granted && created then Forgiven
      else Untouched
    case ResetPassword(_, _, wellFormed, tokenValid, updated) =>
      if !(wellFormed && tokenValid) then (if k == ip then Struck(ts[2]) else Untouched)
      else if updated && (k == ip || k == account) then Forgiven
      else Untouched
    case ChangePassword(_, wellFormed, found, valid, updated) =>
      if k != account || !wellFormed || !found then Untouched
      else if !valid then Struck(ts[1])
      else if updated then Forgiven
      else Untouched
  }

  function Judged(es: seq<Event>, r: Request, ts: seq<Time>, k: Key): Ruling
    requires |ts| == 5
  {
    if !Admitted(es, r, ts) then Untouched
    else if r.ChangePassword? then Verdict(r, "", AccountKey(r.user), false, ts, k)
    else Verdict(r, SourceIp(r.incomingIp), AccountKey(r.user), Granted(es, r, ts), ts, k)
  }

  function Sentence(s: Score, v: Ruling): Score {
    match v
    case Struck(at) => Strike(s, at)
    case Forgiven => CLEAN
    case Untouched => s
  }

  lemma ChecksKeepScore(es: seq<Event>, ip: Key, account: Key, ts: seq<Time>, k: Key)
    requires |ts| == 5
    ensures ScoreOf(LockoutChecks(es, ip, account, ts), k) == ScoreOf(es, k)
  {
    var first := Event(SecondsUntilAllowed(ip), ts[0]);
    ScoreSnoc(es, first, k);
    ScoreSnoc(es + [first], Event(SecondsUntilAllowed(account), ts[1]), k);
  }

  lemma TwoCalls(es: seq<Event>, e: Event, f: Event, k: Key)
    requires (e.call.RecordFailure? && f.call.RecordFailure?) || (e.call.RecordSuccess? && f.call.RecordSuccess?)
             || (e.call.RecordRegistration? && f.call.RecordSuccess?)
    requires e.call.RecordRegistration? || e.call.key != f.call.key
    ensures ScoreOf(es + [e] + [f], k) ==
            if k == f.call.key then (if f.call.RecordFailure? then Strike(ScoreOf(es, k), f.now) else CLEAN)
            else if k == e.call.key && e.call.RecordFailure? then Strike(ScoreOf(es, k), e.now)
            else if k == e.call.key && e.call.RecordSuccess? then CLEAN
            else ScoreOf(es, k)
  {
    ScoreSnoc(es, e, k);
    ScoreSnoc(es + [e], f, k);
  }

  lemma ScoreAfterLogin(checked: seq<Event>, ip: Key, account: Key, valid: bool, ts: seq<Time>, k: Key)
    requires |ts| == 5 && ip != account
    ensures ScoreOf(AfterLogin(checked, ip, account, valid, ts), k) ==
            if k == ip then (if valid then CLEAN else Strike(ScoreOf(checked, k), ts[2]))
            else if k == account then (if valid then CLEAN else Strike(ScoreOf(checked, k), ts[3]))
            else ScoreOf(checked, k)
  {
    if valid {
      TwoCalls(checked, Event(RecordSuccess(ip), ts[2]), Event(RecordSuccess(account), ts[3]), k);
    } else {
      TwoCalls(checked, Event(RecordFailure(ip), ts[2]), Event(RecordFailure(account), ts[3]), k);
    }
  }

  lemma ScoreAfterRegister(checked: seq<Event>, ip: Key, nameUsable: bool, created: bool, ts: seq<Time>, k: Key)
    requires |ts| == 5
    ensures ScoreOf(AfterRegister(checked, ip, nameUsable, created, ts), k) ==
            if k != ip then ScoreOf(checked, k)
            else if !nameUsable then Strike(ScoreOf(checked, k), ts[2])
            else if created && MayRegister(checked, ip, ts) then CLEAN
            else ScoreOf(checked, k)
  {
    ScoreSnoc(checked, Event(RecordFailure(ip), ts[2]), k);
    var asked := checked + [Event(IsAllowedToRegister(ip), ts[2])];
    ScoreSnoc(checked, Event(IsAllowedToRegister(ip), ts[2]), k);
    TwoCalls(asked, Event(RecordRegistration(ip), ts[3]), Event(RecordSuccess(ip), ts[4]), k);
  }

  lemma ScoreAfterReset(checked: seq<Event>, ip: Key, account: Key, accepted: bool, updated: bool, ts: seq<Time>,
                        k: Key)
    requires |ts| == 5 && ip != account
    ensures ScoreOf(AfterReset(checked, ip, account, accepted, updated, ts), k) ==
            if !accepted then (if k == ip then Strike(ScoreOf(checked, k), ts[2]) else ScoreOf(checked, k))
            else if updated && (k == ip || k == account) then CLEAN
            else ScoreOf(checked, k)
  {
    ScoreSnoc(checked, Event(RecordFailure(ip), ts[2]), k);
    TwoCalls(checked, Event(RecordSuccess(ip), ts[2]), Event(RecordSuccess(account), ts[3]), k);
  }

  lemma ScoreAfterChange(checked: seq<Event>, account: Key, valid: bool, updated: bool, ts: seq<Time>, k: Key)
    requires |ts| == 5
    ensures ScoreOf(AfterChange(checked, account, valid, updated, ts), k) ==
            if k != account then ScoreOf(checked, k)
            else if !valid then Strike(ScoreOf(checked, k), ts[1])
            else if updated then CLEAN
            else ScoreOf(checked, k)
  {
    ScoreSnoc(checked, Event(RecordFailure(account), ts[1]), k);
    ScoreSnoc(checked, Event(RecordSuccess(account), ts[1]), k);
  }

  lemma ScoreAfterChecks(checked: seq<Event>, r: Request, ip: Key, account: Key, ts: seq<Time>, k: Key)
    requires |ts| == 5 && !r.ChangePassword? && ip != account
    ensures ScoreOf(AfterChecks(checked, r, ip, account, ts), k) ==
            Sentence(ScoreOf(checked, k), Verdict(r, ip, account, MayRegister(checked, ip, ts), ts, k))
  {
    match r
    case Login(_, _, valid) => ScoreAfterLogin(checked, ip, account, valid, ts, k);
    case Register(_, _, nameValid, nameFree, created) =>
      ScoreAfterRegister(checked, ip, nameValid && nameFree, created, ts, k);
    case ResetPassword(_, _, wellFormed, tokenValid, updated) =>
      ScoreAfterReset(checked, ip, account, wellFormed && tokenValid, updated, ts, k);
  }

  lemma ScoreOfChange(es: seq<Event>, r: Request, ts: seq<Time>, k: Key)
    requires |ts| == 5 && r.ChangePassword?
    ensures ScoreOf(Serve(es, r, ts), k) == Sentence(ScoreOf(es, k), Judged(es, r, ts, k))
  {
    var check := Event(SecondsUntilAllowed(AccountKey(r.user)), ts[0]);
    ScoreSnoc(es, check, k);
    ScoreAfterChange(es + [check], AccountKey(r.user), r.valid, r.updated, ts, k);
  }

  /** Every message does to every key what it is judged to. */
  lemma ServedAsJudged(es: seq<Event>, r: Request, ts: seq<Time>, k: Key)
    requires |ts| == 5
    ensures ScoreOf(Serve(es, r, ts), k) == Sentence(ScoreOf(es, k), Judged(es, r, ts, k))
  {
    if r.ChangePassword? {
      ScoreOfChange(es, r, ts, k);
    } else {
      var ip, account := SourceIp(r.incomingIp), AccountKey(r.user);
      KeysDiffer(ip, r.user);
      ChecksKeepScore(es, ip, account, ts, k);
      if Admitted(es, r, ts) {
        ScoreAfterChecks(LockoutChecks(es, ip, account, ts), r, ip, account, ts, k);
      }
    }
  }

  // ---- In terms of the records ---------------------------------------------------------

  /** A right password leaves no record of either key. */
  lemma RightLoginForgives(es: seq<Event>, incomingIp: string, user: string, ts: seq<Time>, k: Key)
    requires |ts| == 5 && Disciplined(es, true) && Ascending(Run(es, true).now, ts)
    requires k == SourceIp(incomingIp) || k == AccountKey(user)
    ensures Admitted(es, Login(incomingIp, user, true), ts) ==>
              k !in Run(Serve(es, Login(incomingIp, user, true), ts), true).limiter.records
  {
    var r := Login(incomingIp, user, true);
    if Admitted(es, r, ts) {
      ServedAsJudged(es, r, ts, k);
      HandlersAreDisciplined(es, r, ts);
      RecordHoldsScore(Serve(es, r, ts), k);
    }
  }

  lemma WrongLoginStrikes(es: seq<Event>, incomingIp: string, user: string, ts: seq<Time>, k: Key, at: Time)
    requires |ts| == 5 && Admitted(es, Login(incomingIp, user, false), ts)
    requires k == SourceIp(incomingIp) || k == AccountKey(user)
    requires at == if k == SourceIp(incomingIp) then ts[2] else ts[3]
    ensures ScoreOf(Serve(es, Login(incomingIp, user, false), ts), k) == Strike(ScoreOf(es, k), at)
  {
    KeysDiffer(SourceIp(incomingIp), user);
    ServedAsJudged(es, Login(incomingIp, user, false), ts, k);
  }

  /** A wrong one counts one more failure of both keys, in a window that has lapsed the first. */
  lemma WrongLoginCounts(es: seq<Event>, incomingIp: string, user: string, ts: seq<Time>, k: Key, at: Time)
    requires |ts| == 5 && Disciplined(es, true) && Ascending(Run(es, true).now, ts)
    requires k == SourceIp(incomingIp) || k == AccountKey(user)
    requires at == if k == SourceIp(incomingIp) then ts[2] else ts[3]
    ensures Admitted(es, Login(incomingIp, user, false), ts) ==>
              var after, s := Run(Serve(es, Login(incomingIp, user, false), ts), true), ScoreOf(es, k);
              && (k in after.limiter.records ==>
                    after.limiter.records[k].failureCount == if at >= s.start + WINDOW_TICKS then 1 else s.count + 1)
              && (after.now < Strike(s, at).start + WINDOW_TICKS ==> k in after.limiter.records)
  {
    var r := Login(incomingIp, user, false);
    if Admitted(es, r, ts) {
      WrongLoginStrikes(es, incomingIp, user, ts, k, at);
      HandlersAreDisciplined(es, r, ts);
      RecordHoldsScore(Serve(es, r, ts), k);
    }
  }

  // ---- Registrations --------------------------------------------------------------------

  lemma RegistrationsSnoc(es: seq<Event>, e: Event, k: Key)
    ensures Registrations(es + [e], k) ==
            Registrations(es, k) + (if e.call == RecordRegistration(k) then [e.now] else [])
  {
    assert (es + [e])[..|es|] == es;
  }

  /** Calls of which none is a registration. */
  predicate NoneRegisters(calls: seq<Event>) {
    forall e <- calls :: !e.call.RecordRegistration?
  }

  lemma {:induction false} NothingRegistered(es: seq<Event>, calls: seq<Event>, k: Key)
    requires NoneRegisters(calls)
    ensures Registrations(es + calls, k) == Registrations(es, k)
  {
    if calls == [] {
      assert es + calls == es;
    } else {
      NothingRegistered(es, calls[..|calls| - 1], k);
      assert es + calls == (es + calls[..|calls| - 1]) + [calls[|calls| - 1]];
      RegistrationsSnoc(es + calls[..|calls| - 1], calls[|calls| - 1], k);
    }
  }

  /** A created account is recorded against the budget of the address it came from. */
  lemma RegisterIsRecorded(checked: seq<Event>, ip: Key, nameUsable: bool, created: bool, ts: seq<Time>, k: Key)
    requires |ts| == 5
    ensures Registrations(AfterRegister(checked, ip, nameUsable, created, ts), k) == Registrations(checked, k) +
            (if k == ip && nameUsable && created && MayRegister(checked, ip, ts) then [ts[3]] else [])
  {
    var asked := checked + [Event(IsAllowedToRegister(ip), ts[2])];
    RegistrationsSnoc(checked, Event(RecordFailure(ip), ts[2]), k);
    RegistrationsSnoc(checked, Event(IsAllowedToRegister(ip), ts[2]), k);
    RegistrationsSnoc(asked, Event(RecordRegistration(ip), ts[3]), k);
    RegistrationsSnoc(asked + [Event(RecordRegistration(ip), ts[3])], Event(RecordSuccess(ip), ts[4]), k);
  }

  lemma ChecksRegisterNothing(es: seq<Event>, ip: Key, account: Key, ts: seq<Time>, k: Key)
    requires |ts| == 5
    ensures Registrations(LockoutChecks(es, ip, account, ts), k) == Registrations(es, k)
  {
    var first := Event(SecondsUntilAllowed(ip), ts[0]);
    RegistrationsSnoc(es, first, k);
    RegistrationsSnoc(es + [first], Event(SecondsUntilAllowed(account), ts[1]), k);
  }

  lemma OthersRegisterNothing(checked: seq<Event>, r: Request, ip: Key, account: Key, ts: seq<Time>, k: Key)
    requires |ts| == 5 && (r.Login? || r.ResetPassword?)
    ensures Registrations(AfterChecks(checked, r, ip, account, ts), k) == Registrations(checked, k)
  {
    var calls := AfterChecks(checked, r, ip, account, ts)[|checked|..];
    assert AfterChecks(checked, r, ip, account, ts) == checked + calls;
    NothingRegistered(checked, calls, k);
  }

  lemma ChangeRegistersNothing(es: seq<Event>, r: Request, ts: seq<Time>, k: Key)
    requires |ts| == 5 && r.ChangePassword?
    ensures Registrations(Serve(es, r, ts), k) == Registrations(es, k)
  {
    var calls := Serve(es, r, ts)[|es|..];
    assert Serve(es, r, ts) == es + calls;
    NothingRegistered(es, calls, k);
  }

  /** Every message records a registration exactly when it created an account. */
  lemma ServedRegistrations(es: seq<Event>, r: Request, ts: seq<Time>, k: Key)
    requires |ts| == 5
    ensures Registrations(Serve(es, r, ts), k) == Registrations(es, k) +
            (if r.Register? && k == SourceIp(r.incomingIp) && Admitted(es, r, ts) && Granted(es, r, ts)
                && r.nameValid && r.nameFree && r.created then [ts[3]] else [])
  {
    if r.ChangePassword? {
      ChangeRegistersNothing(es, r, ts, k);
    } else {
      var ip, account := SourceIp(r.incomingIp), AccountKey(r.user);
      var checked := LockoutChecks(es, ip, account, ts);
      ChecksRegisterNothing(es, ip, account, ts, k);
      if r.Register? {
        RegisterIsRecorded(checked, ip, r.nameValid && r.nameFree, r.created, ts, k);
      } else {
        OthersRegisterNothing(checked, r, ip, account, ts, k);
      }
    }
  }

  // ---- Guessing is throttled -----------------------------------------------------------

  /** The account check of any message that names this user, made at u. */
  lemma CheckRefused(es: seq<Event>, r: Request, ts: seq<Time>)
    requires |ts| == 5 && Disciplined(es, true) && Ascending(Run(es, true).now, ts)
    requires forall u :: ts[0] <= u <= ts[1] ==>
               EventReply(Run(es, true), Event(SecondsUntilAllowed(AccountKey(r.user)), u), true) != Seconds(0)
    ensures !Admitted(es, r, ts)
  {
    if !r.ChangePassword? {
      AddressCheckIsHarmless(es, SourceIp(r.incomingIp), AccountKey(r.user), r, ts);
    }
  }

  lemma AddressCheckIsHarmless(es: seq<Event>, ip: Key, account: Key, r: Request, ts: seq<Time>)
    requires |ts| == 5 && Disciplined(es, true) && Ascending(Run(es, true).now, ts) && !r.ChangePassword?
    requires ip == SourceIp(r.incomingIp) && account == AccountKey(r.user)
    requires EventReply(Run(es, true), Event(SecondsUntilAllowed(account), ts[1]), true) != Seconds(0)
    ensures !LockoutChecksPass(es, ip, account, ts)
  {
    var check := Event(SecondsUntilAllowed(ip), ts[0]);
    KeysDiffer(ip, r.user);
    ExtendByCheck(es, check);
    assert [check][..0] == [];
    assert Harmless(es, [check], account);
    HarmlessCallsDoNotMatter(es, [check], account, ts[1]);
  }

  /** The account's failure is the last call a wrong LOGIN makes. */
  lemma WrongLoginEndsWithFailure(es: seq<Event>, incomingIp: string, user: string, ts: seq<Time>)
    returns (rest: seq<Event>)
    requires |ts| == 5 && Admitted(es, Login(incomingIp, user, false), ts)
    ensures Serve(es, Login(incomingIp, user, false), ts) == rest + [Event(RecordFailure(AccountKey(user)), ts[3])]
  {
    var ip := SourceIp(incomingIp);
    rest := LockoutChecks(es, ip, AccountKey(user), ts) + [Event(RecordFailure(ip), ts[2])];
  }

  /** When a failure is the sixth of its account, no message that names the account is admitted
      for the next second, as long as the window lasts. */
  lemma SixthFailureRefuses(es: seq<Event>, now: Time, r: Request, ts: seq<Time>)
    requires |ts| == 5 && Ascending(now, ts) && ts[1] < now + TICKS
    requires var served := es + [Event(RecordFailure(AccountKey(r.user)), now)];
             Disciplined(served, true) && ScoreOf(served, AccountKey(r.user)).count > 5
             && ts[1] < ScoreOf(served, AccountKey(r.user)).start + WINDOW_TICKS
    ensures !Admitted(es + [Event(RecordFailure(AccountKey(r.user)), now)], r, ts)
  {
    var e := Event(RecordFailure(AccountKey(r.user)), now);
    RunSnoc(es, e, true);
    forall u | ts[0] <= u <= ts[1]
      ensures EventReply(Run(es + [e], true), Event(SecondsUntilAllowed(AccountKey(r.user)), u), true) != Seconds(0)
    {
      SixthStrikeRefuses(es, AccountKey(r.user), now, u);
    }
    CheckRefused(es + [e], r, ts);
  }

  predicate FiveTimes(ms: seq<Message>) {
    forall m <- ms :: |m.times| == 5
  }

  /** What each message served means for the key. */
  function Rulings(ms: seq<Message>, k: Key): (rs: seq<Ruling>)
    requires FiveTimes(ms)
    ensures |rs| == |ms|
  {
    if ms == [] then []
    else
      var before, last := ms[..|ms| - 1], ms[|ms| - 1];
      Rulings(before, k) + [Judged(Served(before), last.request, last.times, k)]
  }

  function Total(rs: seq<Ruling>): Score {
    if rs == [] then CLEAN else Sentence(Total(rs[..|rs| - 1]), rs[|rs| - 1])
  }

  lemma TotalSnoc(rs: seq<Ruling>, r: Ruling)
    ensures Total(rs + [r]) == Sentence(Total(rs), r)
  {
    assert (rs + [r])[..|rs|] == rs;
  }

  /** The key's score is what the rulings on it add up to. */
  lemma {:induction false} RulingsAddUp(ms: seq<Message>, k: Key)
    requires FiveTimes(ms)
    ensures ScoreOf(Served(ms), k) == Total(Rulings(ms, k))
  {
    if ms != [] {
      var before, last := ms[..|ms| - 1], ms[|ms| - 1];
      RulingsAddUp(before, k);
      ServedAsJudged(Served(before), last.request, last.times, k);
      TotalSnoc(Rulings(before, k), Judged(Served(before), last.request, last.times, k));
    }
  }

  /** Strikes among the rulings from the n-th on. */
  function Strikes(rs: seq<Ruling>, n: nat): nat {
    if |rs| <= n then 0 else Strikes(rs[..|rs| - 1], n) + (if rs[|rs| - 1].Struck? then 1 else 0)
  }

  /** From the n-th ruling on nothing is forgiven, and the strikes come before this time. */
  predicate OnlyStrikes(rs: seq<Ruling>, n: nat, until: Time) {
    forall i :: n <= i < |rs| ==> !rs[i].Forgiven? && (rs[i].Struck? ==> rs[i].at < until)
  }

  lemma {:induction false} StrikesAddUp(rs: seq<Ruling>, n: nat)
    requires n <= |rs| && OnlyStrikes(rs, n, Total(rs[..n]).start + WINDOW_TICKS)
    ensures Total(rs) == Score(Total(rs[..n]).count + Strikes(rs, n), Total(rs[..n]).start)
  {
    if |rs| == n {
      assert rs[..n] == rs;
    } else {
      assert rs[..|rs| - 1][..n] == rs[..n];
      StrikesAddUp(rs[..|rs| - 1], n);
    }
  }

  /** The last message of a run is a wrong LOGIN that got past its lockout checks. */
  predicate EndsWithWrongLogin(ms: seq<Message>, user: string)
    requires FiveTimes(ms)
  {
    && ms != []
    && var before, last := ms[..|ms| - 1], ms[|ms| - 1];
       && last.request.Login? && last.request.user == user && !last.request.valid
       && Admitted(Served(before), last.request, last.times)
  }

  lemma WrongLoginScores(ms: seq<Message>, user: string)
    requires FiveTimes(ms)
    ensures EndsWithWrongLogin(ms, user) ==>
              var rs := Rulings(ms, AccountKey(user)); rs[|rs| - 1] == Struck(ms[|ms| - 1].times[3])
  {
    if EndsWithWrongLogin(ms, user) {
      KeysDiffer(SourceIp(ms[|ms| - 1].request.incomingIp), user);
    }
  }

  lemma LastLoginRefuses(ms: seq<Message>, user: string, next: Request, later: seq<Time>, s: Score)
    requires FiveTimes(ms) && next.user == user && |later| == 5 && s.count > 5
    ensures Timely(ms) && EndsWithWrongLogin(ms, user) && s == ScoreOf(Served(ms), AccountKey(user))
            && Ascending(ms[|ms| - 1].times[3], later)
            && later[1] == ms[|ms| - 1].times[3] < s.start + WINDOW_TICKS ==>
              !Admitted(Served(ms), next, later)
  {
    if Timely(ms) && EndsWithWrongLogin(ms, user) && s == ScoreOf(Served(ms), AccountKey(user))
       && Ascending(ms[|ms| - 1].times[3], later)
       && later[1] == ms[|ms| - 1].times[3] < s.start + WINDOW_TICKS {
      var before, last := ms[..|ms| - 1], ms[|ms| - 1];
      ServerRunsAreDisciplined(before);
      assert last.request == Login(last.request.incomingIp, user, false);
      HandlersAreDisciplined(Served(before), last.request, last.times);
      var rest := WrongLoginEndsWithFailure(Served(before), last.request.incomingIp, user, last.times);
      SixthFailureRefuses(rest, last.times[3], next, later);
    }
  }

  /** Six wrong LOGINs on the account in one window, with no right one between: the first n
      messages end with the first of them, the last message is the last, and the messages
      between strike the account at least four times and never forgive it. */
  predicate SixWrongLogins(ms: seq<Message>, n: nat, user: string)
    requires FiveTimes(ms)
  {
    && 1 <= n < |ms|
    && EndsWithWrongLogin(ms[..n], user) && EndsWithWrongLogin(ms, user)
    && var rs := Rulings(ms, AccountKey(user));
       OnlyStrikes(rs, n, Total(rs[..n]).start + WINDOW_TICKS) && Strikes(rs, n) >= 5
  }

  /** From the n-th ruling on there are only strikes, five or more, before the window of the
      strike in front of them lapses. */
  predicate SixStrikes(rs: seq<Ruling>, n: nat, last: Time) {
    && 1 <= n < |rs| && rs[n - 1].Struck? && rs[|rs| - 1] == Struck(last)
    && OnlyStrikes(rs, n, Total(rs[..n]).start + WINDOW_TICKS) && Strikes(rs, n) >= 5
  }

  lemma SixStrikesScore(rs: seq<Ruling>, n: nat, last: Time)
    requires SixStrikes(rs, n, last)
    ensures Total(rs).count > 5 && last < Total(rs).start + WINDOW_TICKS
  {
    StrikesAddUp(rs, n);
    assert rs[..n][..n - 1] == rs[..n - 1] && rs[..n][n - 1] == rs[n - 1];
  }

  lemma FirstStrike(ms: seq<Message>, n: nat, user: string)
    requires FiveTimes(ms) && 1 <= n <= |ms|
    ensures EndsWithWrongLogin(ms[..n], user) ==> Rulings(ms, AccountKey(user))[n - 1].Struck?
  {
    RulingsPrefix(ms, n, AccountKey(user));
    WrongLoginScores(ms[..n], user);
  }

  lemma SixWrongLoginsStrike(ms: seq<Message>, n: nat, user: string)
    requires FiveTimes(ms)
    ensures SixWrongLogins(ms, n, user) ==> SixStrikes(Rulings(ms, AccountKey(user)), n, ms[|ms| - 1].times[3])
  {
    if SixWrongLogins(ms, n, user) {
      FirstStrike(ms, n, user);
      WrongLoginScores(ms, user);
    }
  }

  lemma SixWrongLoginsScore(ms: seq<Message>, n: nat, user: string, last: Time)
    requires FiveTimes(ms) && SixStrikes(Rulings(ms, AccountKey(user)), n, last)
    ensures var s := ScoreOf(Served(ms), AccountKey(user)); s.count > 5 && last < s.start + WINDOW_TICKS
  {
    SixStrikesScore(Rulings(ms, AccountKey(user)), n, last);
    RulingsAddUp(ms, AccountKey(user));
  }

  /** After them, whatever else the server did meanwhile, every message that names the account
      is refused at that moment. */
  lemma SixWrongLoginsRefuse(ms: seq<Message>, n: nat, user: string, next: Request, later: seq<Time>)
    requires FiveTimes(ms) && |later| == 5 && next.user == user
    ensures Timely(ms) && SixWrongLogins(ms, n, user)
            && Ascending(ms[|ms| - 1].times[3], later) && later[1] == ms[|ms| - 1].times[3] ==>
              !Admitted(Served(ms), next, later)
  {
    if Timely(ms) && SixWrongLogins(ms, n, user)
       && Ascending(ms[|ms| - 1].times[3], later) && later[1] == ms[|ms| - 1].times[3] {
      SixWrongLoginsStrike(ms, n, user);
      SixWrongLoginsScore(ms, n, user, ms[|ms| - 1].times[3]);
      LastLoginRefuses(ms, user, next, later, ScoreOf(Served(ms), AccountKey(user)));
    }
  }

  lemma {:induction false} RulingsPrefix(ms: seq<Message>, n: nat, k: Key)
    requires FiveTimes(ms) && n <= |ms|
    ensures Rulings(ms, k)[..n] == Rulings(ms[..n], k)
  {
    if n == |ms| {
      assert ms[..n] == ms;
    } else {
      RulingsPrefix(ms[..|ms| - 1], n, k);
      assert ms[..|ms| - 1][..n] == ms[..n];
    }
  }
}
