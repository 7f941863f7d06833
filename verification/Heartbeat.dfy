/** Heartbeat timing: the client's sending loop (src/Core/Application.cpp) against the
    server's two-strike timer (src/Network/TcpSession.cpp). */
module Heartbeat {
  import opened Basics

  // Time is in microseconds; the client measures it in whole milliseconds.
  const MS := 1000
  const SERVER_TIMEOUT := 45_000
  const HEARTBEAT_INTERVAL := SERVER_TIMEOUT - 3750
  const MAX_SLEEP := 2000
  const MIN_WAIT := 10
  const LATEST := 41_260   // no two sends are this far apart

  type Time = int

  /** duration_cast<milliseconds> of a non-negative duration. */
  function WholeMs(duration: int): int { duration / MS }

  // ---- The server's timer -----------------------------------------------------------

  /** `heard` is ghost information: when the last message arrived. */
  datatype Timer = Timer(deadline: Time, hasReceived: bool, dead: bool, heard: Time)

  function Started(now: Time): Timer { Timer(now + SERVER_TIMEOUT * MS, true, false, now) }

  function Arrive(t: Timer, now: Time): Timer {
    if t.dead then t else t.(hasReceived := true, heard := now)
  }

  /** Without a message since the last expiry the session is closed. */
  function Expire(t: Timer): Timer {
    if t.dead then t
    else if !t.hasReceived then t.(dead := true)
    else t.(hasReceived := false, deadline := t.deadline + SERVER_TIMEOUT * MS)
  }

  /** While the flag is off nothing arrived in the current period, but something did in the
      one before. */
  predicate TimerInv(t: Timer, now: Time) {
    && t.heard <= now
    && (!t.dead ==>
          && t.deadline - SERVER_TIMEOUT * MS <= now <= t.deadline
          && (t.hasReceived ==> t.deadline - SERVER_TIMEOUT * MS <= t.heard)
          && (!t.hasReceived ==> t.deadline - 2 * SERVER_TIMEOUT * MS <= t.heard <= t.deadline - SERVER_TIMEOUT * MS))
  }

  lemma TimerSteps(t: Timer, now: Time, later: Time)
    requires TimerInv(t, now) && now <= later && (t.dead || later <= t.deadline)
    ensures TimerInv(t, later) && TimerInv(Arrive(t, later), later)
    ensures later == t.deadline ==> TimerInv(Expire(t), later)
  {}

  /** What happens to one timer: a message is read, or the timer expires. */
  datatype TimerEvent = MessageRead(time: Time) | Expiry

  /** The timer and the time of the last thing that happened to it. */
  datatype Watch = Watch(timer: Timer, now: Time)

  function WatchNext(w: Watch, e: TimerEvent): Watch {
    match e
    case MessageRead(time) => Watch(Arrive(w.timer, time), time)
    case Expiry => Watch(Expire(w.timer), w.timer.deadline)
  }

  function WatchRun(start: Time, es: seq<TimerEvent>): Watch {
    if es == [] then Watch(Started(start), start) else WatchNext(WatchRun(start, es[..|es| - 1]), es[|es| - 1])
  }

  /** Time does not go back and does not pass the deadline of a live timer. */
  predicate Reaches(w: Watch, time: Time) {
    w.now <= time && (w.timer.dead || time <= w.timer.deadline)
  }

  predicate OnTime(w: Watch, e: TimerEvent) {
    if e.Expiry? then !w.timer.dead else Reaches(w, e.time)
  }

  predicate LegalWatch(start: Time, es: seq<TimerEvent>) {
    es == [] || (LegalWatch(start, es[..|es| - 1]) && OnTime(WatchRun(start, es[..|es| - 1]), es[|es| - 1]))
  }

  lemma {:induction false} WatchKeepsInv(start: Time, es: seq<TimerEvent>)
    requires LegalWatch(start, es)
    ensures TimerInv(WatchRun(start, es).timer, WatchRun(start, es).now)
  {
    if es != [] {
      var w, e := WatchRun(start, es[..|es| - 1]), es[|es| - 1];
      WatchKeepsInv(start, es[..|es| - 1]);
      TimerSteps(w.timer, w.now, if e.Expiry? then w.timer.deadline else e.time);
    }
  }

  /** In every run, a session silent since t is closed by t + 90 s: at whatever later
      moment it is found open, less silence than that lies behind it. */
  lemma SilentSessionIsClosed(start: Time, es: seq<TimerEvent>, time: Time)
    requires LegalWatch(start, es) && Reaches(WatchRun(start, es), time)
    ensures var t := WatchRun(start, es).timer;
            !t.dead ==> time <= t.heard + 90_000 * MS
  {
    WatchKeepsInv(start, es);
  }

  /** In every run, the expiry that closes a session comes after 45 to 90 s of silence. */
  lemma ClosedBetween45And90Seconds(start: Time, es: seq<TimerEvent>)
    requires LegalWatch(start, es + [Expiry])
    ensures var w := WatchRun(start, es + [Expiry]);
            w.timer.dead ==> 45_000 * MS <= w.now - w.timer.heard <= 90_000 * MS
  {
    assert (es + [Expiry])[..|es|] == es;
    WatchKeepsInv(start, es);
  }

  lemma WatchSnoc(start: Time, es: seq<TimerEvent>, e: TimerEvent)
    ensures WatchRun(start, es + [e]) == WatchNext(WatchRun(start, es), e)
    ensures LegalWatch(start, es + [e]) <==> LegalWatch(start, es) && OnTime(WatchRun(start, es), e)
  {
    assert (es + [e])[..|es|] == es;
  }

  /** Both ends occur: a client that never speaks has 90 s, and one whose last message
      comes just before an expiry has 45 s. */
  lemma BothEndsAreAttained(start: Time)
    ensures var w := WatchRun(start, [] + [Expiry] + [Expiry]);
            && LegalWatch(start, [] + [Expiry] + [Expiry])
            && w.timer.dead && w.now - w.timer.heard == 2 * SERVER_TIMEOUT * MS
    ensures var late := MessageRead(start + SERVER_TIMEOUT * MS);
            var w := WatchRun(start, [] + [late] + [Expiry] + [Expiry]);
            && LegalWatch(start, [] + [late] + [Expiry] + [Expiry])
            && w.timer.dead && w.now - w.timer.heard == SERVER_TIMEOUT * MS
  {
    var late := MessageRead(start + SERVER_TIMEOUT * MS);
    WatchSnoc(start, [], Expiry);
    WatchSnoc(start, [] + [Expiry], Expiry);
    WatchSnoc(start, [], late);
    WatchSnoc(start, [] + [late], Expiry);
    WatchSnoc(start, [] + [late] + [Expiry], Expiry);
  }

  // ---- The client's loop ------------------------------------------------------------

  /** `last` is lastHeartbeatTime, `wakeBy` the end of the current sleep, `sent` when the
      client last sent something because it was logged in. */
  datatype Client = Client(last: Time, wakeBy: Time, sent: Time)

  /** How long one iteration at time now decides to sleep, in ms. */
  function Sleep(last: Time, now: Time): int {
    Min(Max(MIN_WAIT, HEARTBEAT_INTERVAL - WholeMs(now - last)), MAX_SLEEP)
  }

  predicate HeartbeatDue(c: Client, now: Time) {
    WholeMs(now - c.last) >= HEARTBEAT_INTERVAL
  }

  /** One logged-in iteration, after a full sleep or an early wake-up. */
  function Iterate(c: Client, now: Time): Client {
    if HeartbeatDue(c, now) then Client(now, now + Sleep(now, now) * MS, now)
    else Client(c.last, now + Sleep(c.last, now) * MS, c.sent)
  }

  /** The sleep in progress ends less than 41260 ms after the last send. */
  predicate ClientInv(c: Client, now: Time, slack: nat) {
    && c.last <= c.sent <= now <= c.wakeBy + slack
    && c.wakeBy < c.sent + LATEST * MS
  }

  /** Early wake-ups cannot stretch the gap; `slack` is how far an iteration may be late. */
  lemma IterationKeepsGap(c: Client, before: Time, now: Time, slack: nat)
    requires ClientInv(c, before, slack) && before <= now <= c.wakeBy + slack
    ensures ClientInv(Iterate(c, now), now, slack)
    ensures HeartbeatDue(c, now) ==> now - c.sent < LATEST * MS + slack
  {}

  /** The bound is sharp: an iteration just short of 41250 ms sleeps another 10 ms. */
  lemma GapIsAttained(start: Time)
    ensures var c := Client(start, start + 41_249_999, start);
            && !HeartbeatDue(c, start + 41_249_999)
            && Iterate(c, start + 41_249_999).wakeBy == start + LATEST * MS - 1
            && HeartbeatDue(Iterate(c, start + 41_249_999), start + LATEST * MS - 1)
  {}

  /** Logging in between two iterations: the sleep in progress is at most 2 s long,
      however stale lastHeartbeatTime is. */
  lemma LoginStartsGap(last: Time, iteration: Time, now: Time, slack: nat)
    requires last <= iteration <= now <= iteration + Sleep(last, iteration) * MS + slack
    ensures ClientInv(Client(last, iteration + Sleep(last, iteration) * MS, now), now, slack)
  {}

  // ---- Client, network and server together --------------------------------------------

  /** `transit` holds the send times of the messages on their way, oldest first, and
      `arrived` the send time of the last one that got through. */
  datatype System = System(client: Client, transit: seq<Time>, arrived: Time, timer: Timer, now: Time)

  datatype Event =
    | Wake(time: Time)       // the client loop runs
    | Deliver(time: Time)    // the oldest message reaches the server
    | Extra(time: Time)      // any other message of the client reaches the server
    | TimerFires

  /** Nothing is overdue: iterations run at most `slack` late, messages take at most
      `delay`, and the timer fires on time. */
  predicate Legal(y: System, e: Event, slack: nat, delay: nat) {
    var t := if e.TimerFires? then y.timer.deadline else e.time;
    && y.now <= t <= y.client.wakeBy + slack
    && (y.transit != [] ==> t <= y.transit[0] + delay)
    && (y.timer.dead || t <= y.timer.deadline)
    && (e.Deliver? ==> y.transit != [] && y.transit[0] <= t)
  }

  function Next(y: System, e: Event): System {
    match e
    case Wake(t) =>
      var c := Iterate(y.client, t);
      y.(client := c, now := t, transit := if HeartbeatDue(y.client, t) then y.transit + [t] else y.transit)
    case Deliver(t) =>
      if y.transit == [] then y
      else y.(now := t, transit := y.transit[1..], arrived := y.transit[0], timer := Arrive(y.timer, t))
    case Extra(t) => y.(now := t, timer := Arrive(y.timer, t))
    case TimerFires => y.(now := y.timer.deadline, timer := Expire(y.timer))
  }

  /** The moment the client handles AUTH_SUCCESS and sends its first request: the server
      heard the login at most `delay` ago. */
  predicate LoggedIn(y: System, slack: nat, delay: nat) {
    && ClientInv(y.client, y.now, slack) && TimerInv(y.timer, y.now) && !y.timer.dead
    && y.client.sent == y.now && y.transit == [y.now]
    && y.now - delay <= y.timer.heard && y.arrived == y.timer.heard
  }

  /** From the last arrival through the messages in transit to the last send, no two
      successive sends are `gap` apart. */
  predicate GapsBelow(from: Time, transit: seq<Time>, sent: Time, gap: int)
    decreases transit
  {
    if transit == [] then from == sent
    else from <= transit[0] < from + gap && GapsBelow(transit[0], transit[1..], sent, gap)
  }

  predicate Inv(y: System, slack: nat, delay: nat) {
    && ClientInv(y.client, y.now, slack) && TimerInv(y.timer, y.now) && !y.timer.dead
    && y.arrived <= y.timer.heard
    && GapsBelow(y.arrived, y.transit, y.client.sent, LATEST * MS + slack)
    && (y.transit != [] ==> y.now <= y.transit[0] + delay)
  }

  lemma {:induction false} GapsBelowSnoc(from: Time, transit: seq<Time>, sent: Time, next: Time, gap: int)
    requires GapsBelow(from, transit, sent, gap) && sent <= next < sent + gap
    ensures GapsBelow(from, transit + [next], next, gap)
    ensures transit != [] ==> (transit + [next])[0] == transit[0]
    decreases transit
  {
    if transit == [] {
      assert [next][1..] == [] && transit + [next] == [next];
    } else {
      GapsBelowSnoc(transit[0], transit[1..], sent, next, gap);
      assert (transit + [next])[1..] == transit[1..] + [next];
    }
  }

  /** The message that must arrive next does so before 45 s of silence are over. */
  lemma SilenceIsShort(y: System, t: Time, slack: nat, delay: nat)
    requires Inv(y, slack, delay) && slack + delay <= (SERVER_TIMEOUT - LATEST) * MS
    requires t <= y.client.wakeBy + slack && (y.transit != [] ==> t <= y.transit[0] + delay)
    ensures t < y.timer.heard + SERVER_TIMEOUT * MS
  {}

  lemma StepKeepsAlive(y: System, e: Event, slack: nat, delay: nat)
    requires Inv(y, slack, delay) && slack + delay <= (SERVER_TIMEOUT - LATEST) * MS
    requires Legal(y, e, slack, delay)
    ensures Inv(Next(y, e), slack, delay)
  {
    match e
    case Wake(t) =>
      IterationKeepsGap(y.client, y.now, t, slack);
      TimerSteps(y.timer, y.now, t);
      if HeartbeatDue(y.client, t) {
        GapsBelowSnoc(y.arrived, y.transit, y.client.sent, t, LATEST * MS + slack);
      }
    case Deliver(t) => DeliverKeepsAlive(y, t, slack, delay);
    case Extra(t) => TimerSteps(y.timer, y.now, t);
    case TimerFires =>
      SilenceIsShort(y, y.timer.deadline, slack, delay);
      TimerSteps(y.timer, y.now, y.timer.deadline);
  }

  lemma DeliverKeepsAlive(y: System, t: Time, slack: nat, delay: nat)
    requires Inv(y, slack, delay) && Legal(y, Deliver(t), slack, delay)
    ensures Inv(Next(y, Deliver(t)), slack, delay)
  {
    TimerSteps(y.timer, y.now, t);
    var rest := y.transit[1..];
    assert GapsBelow(y.transit[0], rest, y.client.sent, LATEST * MS + slack);
  }

  function Run(y: System, es: seq<Event>): System {
    if es == [] then y else Next(Run(y, es[..|es| - 1]), es[|es| - 1])
  }

  predicate LegalRun(y: System, es: seq<Event>, slack: nat, delay: nat) {
    es == [] || (LegalRun(y, es[..|es| - 1], slack, delay) && Legal(Run(y, es[..|es| - 1]), es[|es| - 1], slack, delay))
  }

  /** As long as late iterations and network delay together stay within 3740 ms, the
      server never times a logged-in client out, whatever early wake-ups occur. */
  lemma {:induction false} LoggedInSessionNeverTimesOut(y: System, es: seq<Event>, slack: nat, delay: nat)
    requires LoggedIn(y, slack, delay) && slack + delay <= (SERVER_TIMEOUT - LATEST) * MS
    requires LegalRun(y, es, slack, delay)
    ensures !Run(y, es).timer.dead && Inv(Run(y, es), slack, delay)
  {
    if es == [] {
      assert y.transit[1..] == [];
    } else {
      LoggedInSessionNeverTimesOut(y, es[..|es| - 1], slack, delay);
      StepKeepsAlive(Run(y, es[..|es| - 1]), es[|es| - 1], slack, delay);
    }
  }

  // ---- The bound is sharp -------------------------------------------------------------

  lemma RunSnoc(y: System, es: seq<Event>, e: Event, slack: nat, delay: nat)
    ensures Run(y, es + [e]) == Next(Run(y, es), e)
    ensures LegalRun(y, es + [e], slack, delay) <==>
              LegalRun(y, es, slack, delay) && Legal(Run(y, es), e, slack, delay)
  {
    assert (es + [e])[..|es|] == es;
  }

  /** A login at time 0, at the very moment the server's timer expires. */
  const LOGIN := System(Client(0, MAX_SLEEP * MS, 0), [0], 0, Timer(0, true, false, 0), 0)

  /** The first request arrives at once, the timer expires, and the loop wakes n times at
      the end of its 2 s sleep. */
  function Waking(n: nat): seq<Event> {
    if n == 0 then [] + [Deliver(0)] + [TimerFires] else Waking(n - 1) + [Wake(n * MAX_SLEEP * MS)]
  }

  function Woken(n: nat): System {
    var wakeBy := if n == 20 then HEARTBEAT_INTERVAL * MS else (n + 1) * MAX_SLEEP * MS;
    System(Client(0, wakeBy, 0), [], 0, Timer(SERVER_TIMEOUT * MS, false, false, 0), n * MAX_SLEEP * MS)
  }

  lemma FirstExpiry(slack: nat, delay: nat)
    ensures Run(LOGIN, Waking(0)) == Woken(0) && LegalRun(LOGIN, Waking(0), slack, delay)
  {
    RunSnoc(LOGIN, [], Deliver(0), slack, delay);
    RunSnoc(LOGIN, [] + [Deliver(0)], TimerFires, slack, delay);
  }

  lemma FullSleep(n: nat, slack: nat, delay: nat)
    requires 1 <= n <= 20
    ensures Legal(Woken(n - 1), Wake(n * MAX_SLEEP * MS), slack, delay)
    ensures Next(Woken(n - 1), Wake(n * MAX_SLEEP * MS)) == Woken(n)
  {
    assert WholeMs(n * MAX_SLEEP * MS) == n * MAX_SLEEP;
  }

  lemma {:induction false} WakingRun(n: nat, slack: nat, delay: nat)
    requires n <= 20
    ensures Run(LOGIN, Waking(n)) == Woken(n) && LegalRun(LOGIN, Waking(n), slack, delay)
  {
    if n == 0 {
      FirstExpiry(slack, delay);
    } else {
      WakingRun(n - 1, slack, delay);
      FullSleep(n, slack, delay);
      RunSnoc(LOGIN, Waking(n - 1), Wake(n * MAX_SLEEP * MS), slack, delay);
    }
  }

  /** An early wake-up just before the heartbeat is due, the heartbeat `late` after that
      sleep, one more iteration, and the timer expires before the heartbeat arrives. */
  function TooLate(late: nat): seq<Event> {
    var sent := LATEST * MS - 1 + late;
    Waking(20) + [Wake(HEARTBEAT_INTERVAL * MS - 1)] + [Wake(sent)]
      + [Wake(Min(sent + MAX_SLEEP * MS, SERVER_TIMEOUT * MS))] + [TimerFires]
  }

  /** A system whose timer has not heard anything since time 0. */
  function Unheard(client: Client, transit: seq<Time>, now: Time): System {
    System(client, transit, 0, Timer(SERVER_TIMEOUT * MS, false, false, 0), now)
  }

  lemma EarlyWake(slack: nat, delay: nat)
    ensures Legal(Woken(20), Wake(HEARTBEAT_INTERVAL * MS - 1), slack, delay)
    ensures Next(Woken(20), Wake(HEARTBEAT_INTERVAL * MS - 1)) ==
            Unheard(Client(0, LATEST * MS - 1, 0), [], HEARTBEAT_INTERVAL * MS - 1)
  {}

  lemma LateWake(sent: Time, slack: nat, delay: nat)
    requires LATEST * MS - 1 <= sent <= LATEST * MS - 1 + slack && sent <= SERVER_TIMEOUT * MS
    ensures var y := Unheard(Client(0, LATEST * MS - 1, 0), [], HEARTBEAT_INTERVAL * MS - 1);
            && Legal(y, Wake(sent), slack, delay)
            && Next(y, Wake(sent)) == Unheard(Client(sent, sent + MAX_SLEEP * MS, sent), [sent], sent)
  {}

  lemma LastWake(sent: Time, again: Time, slack: nat, delay: nat)
    requires again == Min(sent + MAX_SLEEP * MS, SERVER_TIMEOUT * MS)
    requires LATEST * MS - 1 <= sent <= SERVER_TIMEOUT * MS <= sent + delay
    ensures var y := Unheard(Client(sent, sent + MAX_SLEEP * MS, sent), [sent], sent);
            && Legal(y, Wake(again), slack, delay)
            && Next(y, Wake(again)) == Unheard(Client(sent, again + MAX_SLEEP * MS, sent), [sent], again)
  {}

  lemma FatalExpiry(sent: Time, again: Time, slack: nat, delay: nat)
    requires again == Min(sent + MAX_SLEEP * MS, SERVER_TIMEOUT * MS)
    requires LATEST * MS - 1 <= sent <= SERVER_TIMEOUT * MS <= sent + delay
    ensures var y := Unheard(Client(sent, again + MAX_SLEEP * MS, sent), [sent], again);
            Legal(y, TimerFires, slack, delay) && Next(y, TimerFires).timer.dead
  {}

  lemma TooLateRun(late: nat, slack: nat, delay: nat)
    requires late <= slack && late <= 3740 * MS + 1 && late + delay > 3740 * MS
    ensures LegalRun(LOGIN, TooLate(late), slack, delay) && Run(LOGIN, TooLate(late)).timer.dead
  {
    var sent := LATEST * MS - 1 + late;
    var again := Min(sent + MAX_SLEEP * MS, SERVER_TIMEOUT * MS);
    var es := Waking(20);
    WakingRun(20, slack, delay);
    EarlyWake(slack, delay);
    RunSnoc(LOGIN, es, Wake(HEARTBEAT_INTERVAL * MS - 1), slack, delay);
    es := es + [Wake(HEARTBEAT_INTERVAL * MS - 1)];
    LateWake(sent, slack, delay);
    RunSnoc(LOGIN, es, Wake(sent), slack, delay);
    es := es + [Wake(sent)];
    LastWake(sent, again, slack, delay);
    RunSnoc(LOGIN, es, Wake(again), slack, delay);
    es := es + [Wake(again)];
    FatalExpiry(sent, again, slack, delay);
    RunSnoc(LOGIN, es, TimerFires, slack, delay);
  }

  ghost predicate NeverTimesOut(slack: nat, delay: nat) {
    forall y, es :: LoggedIn(y, slack, delay) && LegalRun(y, es, slack, delay) ==> !Run(y, es).timer.dead
  }

  /** No logged-in client is ever timed out exactly when lateness and delay together stay
      within 3740 ms. */
  lemma SafeExactlyWithin3740Ms(slack: nat, delay: nat)
    ensures NeverTimesOut(slack, delay) <==> slack + delay <= 3740 * MS
  {
    if slack + delay <= 3740 * MS {
      forall y, es | LoggedIn(y, slack, delay) && LegalRun(y, es, slack, delay) ensures !Run(y, es).timer.dead {
        LoggedInSessionNeverTimesOut(y, es, slack, delay);
      }
    } else {
      var late := Min(slack, 3740 * MS + 1);
      TooLateRun(late, slack, delay);
      assert LoggedIn(LOGIN, slack, delay);
    }
  }
}
