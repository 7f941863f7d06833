/** Whole runs of the limiter, and what the message handlers do to it. */
module LimiterRuns {
  import opened RateLimiting

  datatype Event = Event(call: Call, now: Time)

  /** The limiter after a run, together with the clock and the permissions the
      replies have handed out: `mayFail` holds the keys whose lockout check said 0
      since their last recorded failure, `mayRegister` those whose budget check said
      yes since their last recorded registration. */
  datatype World = World(limiter: Limiter, now: Time, mayFail: set<Key>, mayRegister: set<Key>)

  const START := World(NEW_LIMITER, 0, {}, {})

  function EventReply(w: World, e: Event, sweeping: bool): Reply {
    ReplyTo(w.limiter, e.call, e.now, sweeping)
  }

  function Next(w: World, e: Event, sweeping: bool): World {
    var limiter := NextLimiter(w.limiter, e.call, e.now, sweeping);
    var reply := EventReply(w, e, sweeping);
    match e.call
    case SecondsUntilAllowed(k) =>
      World(limiter, e.now, if reply == Seconds(0) then w.mayFail + {k} else w.mayFail, w.mayRegister)
    case RecordFailure(k) => World(limiter, e.now, w.mayFail - {k}, w.mayRegister)
    case RecordSuccess(_) => World(limiter, e.now, w.mayFail, w.mayRegister)
    case IsAllowedToRegister(k) =>
      World(limiter, e.now, w.mayFail, if reply == Allowed(true) then w.mayRegister + {k} else w.mayRegister)
    case RecordRegistration(k) => World(limiter, e.now, w.mayFail, w.mayRegister - {k})
  }

  /** Time does not go back, and a failure or registration is recorded only after
      its check allowed it. */
  predicate Legal(w: World, e: Event) {
    && e.now >= w.now
    && (e.call.RecordFailure? ==> e.call.key in w.mayFail)
    && (e.call.RecordRegistration? ==> e.call.key in w.mayRegister)
  }

  function Run(es: seq<Event>, sweeping: bool): World {
    if es == [] then START
    else Next(Run(es[..|es| - 1], sweeping), es[|es| - 1], sweeping)
  }

  predicate Disciplined(es: seq<Event>, sweeping: bool) {
    es == [] || (Disciplined(es[..|es| - 1], sweeping) && Legal(Run(es[..|es| - 1], sweeping), es[|es| - 1]))
  }

  function Replies(es: seq<Event>, sweeping: bool): (replies: seq<Reply>)
    ensures |replies| == |es|
  {
    if es == [] then []
    else Replies(es[..|es| - 1], sweeping) + [EventReply(Run(es[..|es| - 1], sweeping), es[|es| - 1], sweeping)]
  }

  lemma RunSnoc(es: seq<Event>, e: Event, sweeping: bool)
    ensures Run(es + [e], sweeping) == Next(Run(es, sweeping), e, sweeping)
    ensures Disciplined(es + [e], sweeping) <==> Disciplined(es, sweeping) && Legal(Run(es, sweeping), e)
    ensures Replies(es + [e], sweeping) == Replies(es, sweeping) + [EventReply(Run(es, sweeping), e, sweeping)]
  {
    assert (es + [e])[..|es + [e]| - 1] == es;
  }

  // ---- The handlers ---------------------------------------------------------

  /** One authentication message as far as the limiter can see it: where it came from,
      the account it names, and how the checks that do not involve the limiter came out. */
  datatype Request =
    | Login(incomingIp: string, user: string, valid: bool)
    | Register(incomingIp: string, user: string, nameValid: bool, nameFree: bool, created: bool)
    | ResetPassword(incomingIp: string, user: string, wellFormed: bool, tokenValid: bool, updated: bool)
    | ChangePassword(user: string, wellFormed: bool, found: bool, valid: bool, updated: bool)

  /** The address without its port: everything up to the first colon. */
  function SourceIp(incomingIp: string): (ip: Key)
    ensures ':' !in ip && ip <= incomingIp
  {
    if incomingIp == [] || incomingIp[0] == ':' then []
    else
      var rest := SourceIp(incomingIp[1..]);
      assert [incomingIp[0]] + incomingIp[1..] == incomingIp;
      [incomingIp[0]] + rest
  }

  /** Account keys carry a prefix and at most 64 characters of the name. */
  function AccountKey(user: string): Key {
    "account:" + (if |user| <= 64 then user else user[..64])
  }

  function Asks(es: seq<Event>, call: Call, now: Time): Reply {
    EventReply(Run(es, true), Event(call, now), true)
  }

  /** The two lockout checks; the second is skipped when the first refuses. */
  function LockoutChecks(es: seq<Event>, ip: Key, account: Key, ts: seq<Time>): seq<Event>
    requires |ts| == 5
  {
    var first := es + [Event(SecondsUntilAllowed(ip), ts[0])];
    if Asks(es, SecondsUntilAllowed(ip), ts[0]) != Seconds(0) then first
    else first + [Event(SecondsUntilAllowed(account), ts[1])]
  }

  predicate LockoutChecksPass(es: seq<Event>, ip: Key, account: Key, ts: seq<Time>)
    requires |ts| == 5
  {
    var first := es + [Event(SecondsUntilAllowed(ip), ts[0])];
    && Asks(es, SecondsUntilAllowed(ip), ts[0]) == Seconds(0)
    && Asks(first, SecondsUntilAllowed(account), ts[1]) == Seconds(0)
  }

  /** What each handler does once its lockout checks have passed. */
  function AfterLogin(checked: seq<Event>, ip: Key, account: Key, valid: bool, ts: seq<Time>): seq<Event>
    requires |ts| == 5
  {
    if valid then checked + [Event(RecordSuccess(ip), ts[2])] + [Event(RecordSuccess(account), ts[3])]
    else checked + [Event(RecordFailure(ip), ts[2])] + [Event(RecordFailure(account), ts[3])]
  }

  function AfterRegister(checked: seq<Event>, ip: Key, nameUsable: bool, created: bool, ts: seq<Time>): seq<Event>
    requires |ts| == 5
  {
    if !nameUsable then checked + [Event(RecordFailure(ip), ts[2])]
    else
      var asked := checked + [Event(IsAllowedToRegister(ip), ts[2])];
      if Asks(checked, IsAllowedToRegister(ip), ts[2]) != Allowed(true) || !created then asked
      else asked + [Event(RecordRegistration(ip), ts[3])] + [Event(RecordSuccess(ip), ts[4])]
  }

  function AfterReset(checked: seq<Event>, ip: Key, account: Key, tokenAccepted: bool, updated: bool, ts: seq<Time>)
    : seq<Event>
    requires |ts| == 5
  {
    if !tokenAccepted then checked + [Event(RecordFailure(ip), ts[2])]
    else if !updated then checked
    else checked + [Event(RecordSuccess(ip), ts[2])] + [Event(RecordSuccess(account), ts[3])]
  }

  function AfterChange(checked: seq<Event>, account: Key, valid: bool, updated: bool, ts: seq<Time>): seq<Event>
    requires |ts| == 5
  {
    if !valid then checked + [Event(RecordFailure(account), ts[1])]
    else if !updated then checked
    else checked + [Event(RecordSuccess(account), ts[1])]
  }

  /** The run extended by the calls one handler makes, each at its own time. */
  function Serve(es: seq<Event>, r: Request, ts: seq<Time>): seq<Event>
    requires |ts| == 5
  {
    var account := AccountKey(r.user);
    match r
    case ChangePassword(_, wellFormed, found, valid, updated) =>
      var checked := es + [Event(SecondsUntilAllowed(account), ts[0])];
      if Asks(es, SecondsUntilAllowed(account), ts[0]) != Seconds(0) || !wellFormed || !found then checked
      else AfterChange(checked, account, valid, updated, ts)
    case _ =>
      var ip := SourceIp(r.incomingIp);
      ServeChecked(es, ip, account, ts, checked => AfterChecks(checked, r, ip, account, ts))
  }

  /** `proceed` is what the handler does when both checks pass. */
  function ServeChecked(es: seq<Event>, ip: Key, account: Key, ts: seq<Time>, proceed: seq<Event> -> seq<Event>)
    : seq<Event>
    requires |ts| == 5
  {
    var checked := LockoutChecks(es, ip, account, ts);
    if LockoutChecksPass(es, ip, account, ts) then proceed(checked) else checked
  }

  function AfterChecks(checked: seq<Event>, r: Request, ip: Key, account: Key, ts: seq<Time>): seq<Event>
    requires |ts| == 5 && !r.ChangePassword?
  {
    match r
    case Login(_, _, valid) => AfterLogin(checked, ip, account, valid, ts)
    case Register(_, _, nameValid, nameFree, created) => AfterRegister(checked, ip, nameValid && nameFree, created, ts)
    case ResetPassword(_, _, wellFormed, tokenValid, updated) =>
      AfterReset(checked, ip, account, wellFormed && tokenValid, updated, ts)
  }

  predicate Ascending(now: Time, ts: seq<Time>) {
    && (|ts| > 0 ==> now <= ts[0])
    && (forall i, j :: 0 <= i < j < |ts| ==> ts[i] <= ts[j])
  }

  /** The address is all that stands before the first colon. */
  lemma {:induction false} SourceIpCuts(address: string, rest: string)
    requires ':' !in address
    ensures SourceIp(address) == address && SourceIp(address + ":" + rest) == address
  {
    if address == [] {
      assert (address + ":" + rest)[0] == ':';
    } else {
      SourceIpCuts(address[1..], rest);
      assert (address + ":" + rest)[1..] == address[1..] + ":" + rest;
      assert [address[0]] + address[1..] == address;
    }
  }

  /** Two accounts share a throttle key exactly when their names agree in the first 64
      characters. */
  lemma AccountKeysAgree(u: string, v: string)
    ensures AccountKey(u) == AccountKey(v) <==>
              (if |u| <= 64 then u else u[..64]) == (if |v| <= 64 then v else v[..64])
  {
    assert AccountKey(u)[8..] == if |u| <= 64 then u else u[..64];
    assert AccountKey(v)[8..] == if |v| <= 64 then v else v[..64];
  }

  lemma KeysDiffer(ip: Key, user: string)
    requires ':' !in ip
    ensures ip != AccountKey(user)
  {
    assert AccountKey(user)[7] == ':';
  }

  /** Adding one event whose permission is at hand. */
  lemma Extend(es: seq<Event>, e: Event)
    requires Disciplined(es, true) && Legal(Run(es, true), e)
    ensures Disciplined(es + [e], true) && Run(es + [e], true).now == e.now
    ensures Run(es + [e], true).mayFail >= Run(es, true).mayFail - {e.call.key}
    ensures Run(es + [e], true).mayRegister >= Run(es, true).mayRegister - {e.call.key}
  {
    RunSnoc(es, e, true);
  }

  /** A check that says yes hands out its permission and takes none away. */
  lemma ExtendByCheck(es: seq<Event>, e: Event)
    requires Disciplined(es, true) && e.now >= Run(es, true).now
    requires e.call.SecondsUntilAllowed? || e.call.IsAllowedToRegister?
    ensures Disciplined(es + [e], true) && Run(es + [e], true).now == e.now
    ensures Run(es + [e], true).mayFail >= Run(es, true).mayFail
    ensures Asks(es, e.call, e.now) == Seconds(0) ==> e.call.key in Run(es + [e], true).mayFail
    ensures Asks(es, e.call, e.now) == Allowed(true) ==> e.call.key in Run(es + [e], true).mayRegister
  {
    RunSnoc(es, e, true);
  }

  /** Two events in a row that need no permission, or bring their own. */
  lemma ExtendTwice(es: seq<Event>, e: Event, f: Event)
    requires Disciplined(es, true) && Legal(Run(es, true), e) && e.now <= f.now
    requires f.call.RecordSuccess? || (f.call.RecordFailure? && f.call.key in Run(es, true).mayFail - {e.call.key})
    ensures Disciplined(es + [e] + [f], true)
  {
    Extend(es, e);
    Extend(es + [e], f);
  }

  lemma LockoutChecksAreDisciplined(es: seq<Event>, ip: Key, account: Key, ts: seq<Time>)
    requires |ts| == 5 && Ascending(Run(es, true).now, ts)
    requires Disciplined(es, true)
    ensures Disciplined(LockoutChecks(es, ip, account, ts), true)
    ensures Run(LockoutChecks(es, ip, account, ts), true).now <= ts[1]
    ensures LockoutChecksPass(es, ip, account, ts) ==>
              {ip, account} <= Run(LockoutChecks(es, ip, account, ts), true).mayFail
  {
    var e := Event(SecondsUntilAllowed(ip), ts[0]);
    ExtendByCheck(es, e);
    if Asks(es, e.call, ts[0]) == Seconds(0) {
      ExtendByCheck(es + [e], Event(SecondsUntilAllowed(account), ts[1]));
    }
  }

  lemma LoginIsDisciplined(checked: seq<Event>, ip: Key, account: Key, valid: bool, ts: seq<Time>)
    requires |ts| == 5 && Ascending(Run(checked, true).now, ts[2..]) && ip != account
    requires Disciplined(checked, true) && {ip, account} <= Run(checked, true).mayFail
    ensures Disciplined(AfterLogin(checked, ip, account, valid, ts), true)
  {
    assert ts[2..][0] == ts[2] && ts[2..][1] == ts[3];
    var e := Event(if valid then RecordSuccess(ip) else RecordFailure(ip), ts[2]);
    var f := Event(if valid then RecordSuccess(account) else RecordFailure(account), ts[3]);
    ExtendTwice(checked, e, f);
  }

  lemma RegisterIsDisciplined(checked: seq<Event>, ip: Key, nameUsable: bool, created: bool, ts: seq<Time>)
    requires |ts| == 5 && Ascending(Run(checked, true).now, ts[2..])
    requires Disciplined(checked, true) && ip in Run(checked, true).mayFail
    ensures Disciplined(AfterRegister(checked, ip, nameUsable, created, ts), true)
  {
    assert ts[2..][0] == ts[2] && ts[2..][1] == ts[3] && ts[2..][2] == ts[4];
    if nameUsable {
      var e := Event(IsAllowedToRegister(ip), ts[2]);
      ExtendByCheck(checked, e);
      if Asks(checked, e.call, ts[2]) == Allowed(true) {
        RegistrationIsDisciplined(checked + [e], ip, ts);
      }
    } else {
      Extend(checked, Event(RecordFailure(ip), ts[2]));
    }
  }

  lemma RegistrationIsDisciplined(asked: seq<Event>, ip: Key, ts: seq<Time>)
    requires |ts| == 5 && Run(asked, true).now <= ts[3] <= ts[4]
    requires Disciplined(asked, true) && ip in Run(asked, true).mayRegister
    ensures Disciplined(asked + [Event(RecordRegistration(ip), ts[3])] + [Event(RecordSuccess(ip), ts[4])], true)
  {
    var e, f := Event(RecordRegistration(ip), ts[3]), Event(RecordSuccess(ip), ts[4]);
    ExtendTwice(asked, e, f);
  }

  lemma ResetPasswordIsDisciplined(checked: seq<Event>, ip: Key, account: Key, tokenAccepted: bool, updated: bool,
                                   ts: seq<Time>)
    requires |ts| == 5 && Ascending(Run(checked, true).now, ts[2..])
    requires Disciplined(checked, true) && ip in Run(checked, true).mayFail
    ensures Disciplined(AfterReset(checked, ip, account, tokenAccepted, updated, ts), true)
  {
    assert ts[2..][0] == ts[2] && ts[2..][1] == ts[3];
    if !tokenAccepted {
      Extend(checked, Event(RecordFailure(ip), ts[2]));
    } else if updated {
      var e, f := Event(RecordSuccess(ip), ts[2]), Event(RecordSuccess(account), ts[3]);
      ExtendTwice(checked, e, f);
    }
  }

  lemma ChangePasswordIsDisciplined(checked: seq<Event>, account: Key, valid: bool, updated: bool, ts: seq<Time>)
    requires |ts| == 5 && Run(checked, true).now <= ts[1]
    requires Disciplined(checked, true) && account in Run(checked, true).mayFail
    ensures Disciplined(AfterChange(checked, account, valid, updated, ts), true)
  {
    if !valid || updated {
      Extend(checked, Event(if valid then RecordSuccess(account) else RecordFailure(account), ts[1]));
    }
  }

  lemma AfterChecksIsDisciplined(checked: seq<Event>, r: Request, ip: Key, account: Key, ts: seq<Time>)
    requires |ts| == 5 && Ascending(ts[1], ts[2..]) && ip != account && !r.ChangePassword?
    requires Cleared(checked, ip, account, ts[1])
    ensures Disciplined(AfterChecks(checked, r, ip, account, ts), true)
  {
    match r
    case Login(_, _, valid) => LoginIsDisciplined(checked, ip, account, valid, ts);
    case Register(_, _, nameValid, nameFree, created) =>
      RegisterIsDisciplined(checked, ip, nameValid && nameFree, created, ts);
    case ResetPassword(_, _, wellFormed, tokenValid, updated) =>
      ResetPasswordIsDisciplined(checked, ip, account, wellFormed && tokenValid, updated, ts);
  }

  /** When the lockout checks pass, the run so far has both permissions. */
  ghost predicate Cleared(checked: seq<Event>, ip: Key, account: Key, now: Time) {
    Disciplined(checked, true) && {ip, account} <= Run(checked, true).mayFail && Run(checked, true).now <= now
  }

  lemma CheckedHandlerIsDisciplined(es: seq<Event>, ip: Key, account: Key, ts: seq<Time>,
                                    proceed: seq<Event> -> seq<Event>)
    requires |ts| == 5 && Ascending(Run(es, true).now, ts) && Disciplined(es, true)
    requires forall checked :: Cleared(checked, ip, account, ts[1]) ==> Disciplined(proceed(checked), true)
    ensures Disciplined(ServeChecked(es, ip, account, ts, proceed), true)
  {
    LockoutChecksAreDisciplined(es, ip, account, ts);
    if LockoutChecksPass(es, ip, account, ts) {
      assert Cleared(LockoutChecks(es, ip, account, ts), ip, account, ts[1]);
    }
  }

  /** Every message handler keeps the run disciplined, so what is proved of disciplined
      runs holds of the server whatever messages arrive. */
  lemma HandlersAreDisciplined(es: seq<Event>, r: Request, ts: seq<Time>)
    requires |ts| == 5 && Ascending(Run(es, true).now, ts)
    requires Disciplined(es, true)
    ensures Disciplined(Serve(es, r, ts), true)
  {
    var account := AccountKey(r.user);
    if r.ChangePassword? {
      ChangeHandlerIsDisciplined(es, r, account, ts);
    } else {
      var ip := SourceIp(r.incomingIp);
      KeysDiffer(ip, r.user);
      forall checked | Cleared(checked, ip, account, ts[1])
        ensures Disciplined(AfterChecks(checked, r, ip, account, ts), true)
      {
        AfterChecksIsDisciplined(checked, r, ip, account, ts);
      }
      CheckedHandlerIsDisciplined(es, ip, account, ts, checked => AfterChecks(checked, r, ip, account, ts));
    }
  }

  lemma ChangeHandlerIsDisciplined(es: seq<Event>, r: Request, account: Key, ts: seq<Time>)
    requires |ts| == 5 && Ascending(Run(es, true).now, ts)
    requires Disciplined(es, true) && r.ChangePassword? && account == AccountKey(r.user)
    ensures Disciplined(Serve(es, r, ts), true)
  {
    var e := Event(SecondsUntilAllowed(account), ts[0]);
    ExtendByCheck(es, e);
    if Asks(es, e.call, ts[0]) == Seconds(0) {
      ChangePasswordIsDisciplined(es + [e], account, r.valid, r.updated, ts);
    }
  }

  // ---- A server serving any messages ----------------------------------------

  datatype Message = Message(request: Request, times: seq<Time>)

  function Served(ms: seq<Message>): seq<Event>
    requires forall m <- ms :: |m.times| == 5
  {
    if ms == [] then []
    else Serve(Served(ms[..|ms| - 1]), ms[|ms| - 1].request, ms[|ms| - 1].times)
  }

  /** The clock never goes back from one message to the next, nor inside one. */
  predicate Timely(ms: seq<Message>)
    requires forall m <- ms :: |m.times| == 5
  {
    ms == [] ||
    (var before, last := ms[..|ms| - 1], ms[|ms| - 1];
     Timely(before) && Ascending(Run(Served(before), true).now, last.times))
  }

  lemma {:induction false} ServerRunsAreDisciplined(ms: seq<Message>)
    requires forall m <- ms :: |m.times| == 5
    requires Timely(ms)
    ensures Disciplined(Served(ms), true)
  {
    if ms != [] {
      ServerRunsAreDisciplined(ms[..|ms| - 1]);
      HandlersAreDisciplined(Served(ms[..|ms| - 1]), ms[|ms| - 1].request, ms[|ms| - 1].times);
    }
  }
}
