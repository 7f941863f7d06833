/** The UDP routing table as a cache of the signed-in clients, fed through the bounded
    update queue (src/Core/Application.cpp). */
module VoiceRouting {
  import opened Basics
  import opened LockFreeQueues

  const QUEUE_CAPACITY := 256
  const NO_CHANNEL := -1

  type Uuid = string
  type Endpoint = string

  datatype PeerRoutingState = PeerRoutingState(uuid: Uuid, activeChannelId: int)
  datatype RouterPeerState = RouterPeerState(endpoint: Endpoint, hasValidEndpoint: bool, activeChannelId: int)

  type Routers = map<Uuid, RouterPeerState>

  /** What the drain loop does with one update. */
  function Apply(routers: Routers, update: PeerRoutingState): Routers {
    if update.uuid !in routers
    then routers[update.uuid := RouterPeerState("", false, update.activeChannelId)]
    else routers[update.uuid := routers[update.uuid].(activeChannelId := update.activeChannelId)]
  }

  function ApplyAll(routers: Routers, updates: seq<PeerRoutingState>): Routers
    decreases updates
  {
    if updates == [] then routers else ApplyAll(Apply(routers, updates[0]), updates[1..])
  }

  // ---- The server as a state machine ------------------------------------------

  /** `clients` gives each signed-in client's channel. `lost` is ghost information: the
      clients whose latest update was pushed out of the queue before it was applied. */
  datatype Server = Server(clients: map<Uuid, int>, queue: seq<PeerRoutingState>, routers: Routers, lost: set<Uuid>)

  const START := Server(map[], [], map[], {})

  /** The two threads' steps: messages on one, single pops of the drain and the relay of
      a packet on the other, in any interleaving. */
  datatype Event =
    | Authenticate(uuid: Uuid)
    | SetState(uuid: Uuid, channel: int)
    | Logout(uuid: Uuid)
    | PopUpdate
    | Relay(uuid: Uuid, sender: Endpoint)

  predicate Mentions(updates: seq<PeerRoutingState>, u: Uuid) {
    exists i :: 0 <= i < |updates| && updates[i].uuid == u
  }

  function Enqueue(s: Server, update: PeerRoutingState): Server {
    var all := s.queue + [update];
    var dropped := |all| > QUEUE_CAPACITY - 1 && !Mentions(all[1..], all[0].uuid);
    s.(queue := Newest(all, QUEUE_CAPACITY - 1),
       lost := (if dropped then s.lost + {all[0].uuid} else s.lost) - {update.uuid})
  }

  function Learn(routers: Routers, u: Uuid, sender: Endpoint): Routers {
    if u in routers && routers[u].activeChannelId != NO_CHANNEL
    then routers[u := routers[u].(endpoint := sender, hasValidEndpoint := true)]
    else routers
  }

  function Next(s: Server, e: Event): Server {
    match e
    case Authenticate(u) => Enqueue(s.(clients := s.clients[u := NO_CHANNEL]), PeerRoutingState(u, NO_CHANNEL))
    case SetState(u, channel) =>
      if u in s.clients then Enqueue(s.(clients := s.clients[u := channel]), PeerRoutingState(u, channel)) else s
    case Logout(u) => s.(clients := s.clients - {u})
    case PopUpdate =>
      if s.queue == [] then s else s.(routers := Apply(s.routers, s.queue[0]), queue := s.queue[1..])
    case Relay(u, sender) => s.(routers := Learn(s.routers, u, sender))
  }

  function Run(es: seq<Event>): Server {
    if es == [] then START else Next(Run(es[..|es| - 1]), es[|es| - 1])
  }

  // ---- Agreement --------------------------------------------------------------

  /** The channel u will be routed to once the queue has been applied. */
  function Upcoming(s: Server, u: Uuid): Option<int> {
    var routers := ApplyAll(s.routers, s.queue);
    if u in routers then Some(routers[u].activeChannelId) else None
  }

  predicate Agrees(s: Server) {
    forall u <- s.clients :: u !in s.lost ==> Upcoming(s, u) == Some(s.clients[u])
  }

  lemma {:induction false} ApplyAllSnoc(routers: Routers, updates: seq<PeerRoutingState>, last: PeerRoutingState)
    ensures ApplyAll(routers, updates + [last]) == Apply(ApplyAll(routers, updates), last)
    decreases updates
  {
    if updates == [] {
      assert updates + [last] == [last];
    } else {
      ApplyAllSnoc(Apply(routers, updates[0]), updates[1..], last);
      assert (updates + [last])[1..] == updates[1..] + [last];
    }
  }

  lemma ApplyFirst(routers: Routers, update: PeerRoutingState, rest: seq<PeerRoutingState>)
    ensures ApplyAll(routers, [update] + rest) == ApplyAll(Apply(routers, update), rest)
  {
    assert ([update] + rest)[1..] == rest;
  }

  predicate SameChannel(a: Routers, b: Routers, u: Uuid) {
    (u in a <==> u in b) && (u in a ==> a[u].activeChannelId == b[u].activeChannelId)
  }

  /** Only the channels, and only the updates that name u, matter for u's channel. */
  lemma {:induction false} ApplyAllSame(a: Routers, b: Routers, updates: seq<PeerRoutingState>, u: Uuid)
    requires SameChannel(a, b, u) || Mentions(updates, u)
    ensures SameChannel(ApplyAll(a, updates), ApplyAll(b, updates), u)
    decreases updates
  {
    if updates != [] {
      if updates[0].uuid != u && Mentions(updates, u) {
        var i :| 0 <= i < |updates| && updates[i].uuid == u;
        assert updates[1..][i - 1].uuid == u;
      }
      ApplyAllSame(Apply(a, updates[0]), Apply(b, updates[0]), updates[1..], u);
    }
  }

  /** Queueing an update decides its client's channel and nobody else's; dropping the
      oldest one affects only a client that ends up lost. */
  lemma EnqueueKeeps(s: Server, update: PeerRoutingState, u: Uuid)
    requires |s.queue| <= QUEUE_CAPACITY - 1 && u !in Enqueue(s, update).lost
    ensures u == update.uuid ==> Upcoming(Enqueue(s, update), u) == Some(update.activeChannelId)
    ensures u != update.uuid ==> u !in s.lost && Upcoming(Enqueue(s, update), u) == Upcoming(s, u)
  {
    var all := s.queue + [update];
    ApplyAllSnoc(s.routers, s.queue, update);
    if |all| > QUEUE_CAPACITY - 1 {
      assert Enqueue(s, update).queue == all[1..];
      assert all[1..][|all| - 2] == update;
      ApplyAllSame(s.routers, Apply(s.routers, all[0]), all[1..], u);
    }
  }

  lemma EnqueueAgrees(s: Server, update: PeerRoutingState)
    requires |s.queue| <= QUEUE_CAPACITY - 1
    requires forall u <- s.clients :: u !in s.lost && u != update.uuid ==> Upcoming(s, u) == Some(s.clients[u])
    requires update.uuid in s.clients && s.clients[update.uuid] == update.activeChannelId
    ensures Agrees(Enqueue(s, update)) && |Enqueue(s, update).queue| <= QUEUE_CAPACITY - 1
  {
    var s' := Enqueue(s, update);
    forall u <- s'.clients | u !in s'.lost ensures Upcoming(s', u) == Some(s'.clients[u]) {
      EnqueueKeeps(s, update, u);
    }
  }

  lemma StepAgrees(s: Server, e: Event)
    requires Agrees(s) && |s.queue| <= QUEUE_CAPACITY - 1
    ensures Agrees(Next(s, e)) && |Next(s, e).queue| <= QUEUE_CAPACITY - 1
  {
    match e
    case Authenticate(u) => EnqueueAgrees(s.(clients := s.clients[u := NO_CHANNEL]), PeerRoutingState(u, NO_CHANNEL));
    case SetState(u, channel) =>
      if u in s.clients {
        EnqueueAgrees(s.(clients := s.clients[u := channel]), PeerRoutingState(u, channel));
      }
    case Logout(_) =>
    case PopUpdate =>
    case Relay(v, sender) =>
      forall u ensures Upcoming(Next(s, e), u) == Upcoming(s, u) {
        ApplyAllSame(s.routers, Learn(s.routers, v, sender), s.queue, u);
      }
  }

  lemma {:induction false} RunAgrees(es: seq<Event>)
    ensures Agrees(Run(es)) && |Run(es).queue| <= QUEUE_CAPACITY - 1
  {
    if es != [] {
      RunAgrees(es[..|es| - 1]);
      StepAgrees(Run(es[..|es| - 1]), es[|es| - 1]);
    }
  }

  /** Whenever the queue has been drained, however the threads interleaved, every client
      still signed in is routed to its own channel, unless its latest update was dropped. */
  lemma DrainedTableAgrees(es: seq<Event>, u: Uuid)
    requires Run(es).queue == [] && u in Run(es).clients && u !in Run(es).lost
    ensures u in Run(es).routers && Run(es).routers[u].activeChannelId == Run(es).clients[u]
  {
    RunAgrees(es);
    assert Upcoming(Run(es), u) == Some(Run(es).clients[u]);
  }

  // ---- No more than 255 updates between drains ---------------------------------

  predicate Pushes(s: Server, e: Event) {
    e.Authenticate? || (e.SetState? && e.uuid in s.clients)
  }

  /** Updates queued since the queue was last empty. */
  function SinceDrained(es: seq<Event>): nat {
    if es == [] then 0
    else
      var before, e := es[..|es| - 1], es[|es| - 1];
      if Run(es).queue == [] then 0
      else SinceDrained(before) + (if Pushes(Run(before), e) then 1 else 0)
  }

  /** At most n updates are queued before the queue is empty again. */
  predicate Paced(es: seq<Event>, n: nat) {
    es == [] || (Paced(es[..|es| - 1], n) && SinceDrained(es) <= n)
  }

  lemma StepWithinBudget(s: Server, e: Event)
    requires s.lost == {} && |s.queue| + (if Pushes(s, e) then 1 else 0) <= QUEUE_CAPACITY - 1
    ensures Next(s, e).lost == {}
    ensures |Next(s, e).queue| <= |s.queue| + (if Pushes(s, e) then 1 else 0)
  {}

  lemma {:induction false} PacedRunsLoseNothing(es: seq<Event>, n: nat)
    requires Paced(es, n) && n <= QUEUE_CAPACITY - 1
    ensures Run(es).lost == {} && |Run(es).queue| <= SinceDrained(es)
  {
    if es != [] {
      var before, e := es[..|es| - 1], es[|es| - 1];
      PacedRunsLoseNothing(before, n);
      StepWithinBudget(Run(before), e);
    }
  }

  /** With at most 255 updates between drains the drained table agrees for everyone. */
  lemma PacedTableAgrees(es: seq<Event>, n: nat, u: Uuid)
    requires Paced(es, n) && n <= QUEUE_CAPACITY - 1 && Run(es).queue == [] && u in Run(es).clients
    ensures u in Run(es).routers && Run(es).routers[u].activeChannelId == Run(es).clients[u]
  {
    PacedRunsLoseNothing(es, n);
    DrainedTableAgrees(es, u);
  }

  /** 255 is the most the queue allows: one client signs in, then n updates of another. */
  function Flood(u: Uuid, v: Uuid, n: nat): seq<Event> {
    if n == 0 then [Authenticate(u)] else Flood(u, v, n - 1) + [Authenticate(v)]
  }

  lemma {:induction false} FloodState(u: Uuid, v: Uuid, n: nat)
    requires u != v && n <= 254
    ensures var s := Run(Flood(u, v, n));
            && u in s.clients && s.routers == map[] && s.lost == {}
            && |s.queue| == n + 1 && s.queue[0] == PeerRoutingState(u, NO_CHANNEL)
            && (forall i :: 0 < i <= n ==> s.queue[i].uuid == v)
  {
    if n == 0 {
      assert Flood(u, v, 0)[..0] == [];
    } else {
      FloodState(u, v, n - 1);
      assert Flood(u, v, n)[..|Flood(u, v, n)| - 1] == Flood(u, v, n - 1);
    }
  }

  lemma RunSnoc(es: seq<Event>, e: Event)
    ensures Run(es + [e]) == Next(Run(es), e)
  {
    assert (es + [e])[..|es|] == es;
  }

  /** The queue is full of v's updates; u is signed in, but its update is gone. */
  predicate Flooded(s: Server, u: Uuid, v: Uuid) {
    && u in s.clients && s.lost == {u} && s.routers == map[]
    && |s.queue| == QUEUE_CAPACITY - 1
    && (forall i :: 0 <= i < |s.queue| ==> s.queue[i].uuid == v)
  }

  lemma FloodStep(s: Server, u: Uuid, v: Uuid)
    requires u != v && |s.queue| == QUEUE_CAPACITY - 1 && u in s.clients && s.routers == map[]
    requires forall i :: 0 < i < |s.queue| ==> s.queue[i].uuid == v
    requires (s.queue[0].uuid == u && s.lost == {}) || (s.queue[0].uuid == v && s.lost == {u})
    ensures Flooded(Next(s, Authenticate(v)), u, v)
  {
    var all := s.queue + [PeerRoutingState(v, NO_CHANNEL)];
    assert all[1..][|all| - 2].uuid == v;
    assert !Mentions(all[1..], u);
  }

  /** The 256th undrained update drops the first, and its client is never routed, however
      many more of the other's follow. */
  lemma {:induction false} FloodLosesTheFirst(u: Uuid, v: Uuid, n: nat)
    requires u != v && n >= QUEUE_CAPACITY - 1
    ensures Flooded(Run(Flood(u, v, n)), u, v)
  {
    if n == QUEUE_CAPACITY - 1 {
      FloodState(u, v, n - 1);
    } else {
      FloodLosesTheFirst(u, v, n - 1);
    }
    var s := Run(Flood(u, v, n - 1));
    FloodStep(s, u, v);
    RunSnoc(Flood(u, v, n - 1), Authenticate(v));
  }

  lemma {:induction false} OthersOnly(routers: Routers, updates: seq<PeerRoutingState>, u: Uuid)
    requires u !in routers && !Mentions(updates, u)
    ensures u !in ApplyAll(routers, updates)
    decreases updates
  {
    if updates != [] {
      assert updates[0].uuid != u;
      assert forall i :: 0 <= i < |updates[1..]| ==> updates[1..][i] == updates[i + 1];
      OthersOnly(Apply(routers, updates[0]), updates[1..], u);
    }
  }

  lemma FloodedIsUnrouted(s: Server, u: Uuid, v: Uuid)
    requires u != v && Flooded(s, u, v)
    ensures Upcoming(s, u) == None
  {
    OthersOnly(s.routers, s.queue, u);
  }

  lemma PacedStep(es: seq<Event>, e: Event, more: seq<Event>, n: nat, limit: nat)
    requires Paced(es, limit) && SinceDrained(es) <= n <= limit && more == es + [e]
    requires n < limit || !Pushes(Run(es), e)
    ensures Paced(more, limit) && SinceDrained(more) <= (if Pushes(Run(es), e) then n + 1 else n)
  {
    assert more[..|es|] == es;
  }

  lemma {:induction false} FloodIsPaced(u: Uuid, v: Uuid, n: nat, limit: nat)
    requires n < limit
    ensures Paced(Flood(u, v, n), limit) && SinceDrained(Flood(u, v, n)) <= n + 1
  {
    if n == 0 {
      PacedStep([], Authenticate(u), Flood(u, v, n), 0, limit);
    } else {
      FloodIsPaced(u, v, n - 1, limit);
      PacedStep(Flood(u, v, n - 1), Authenticate(v), Flood(u, v, n), n, limit);
    }
  }

  /** A state with the same clients and routes to come, n updates closer to empty. */
  predicate PoppedFrom(s: Server, s': Server, n: nat, u: Uuid) {
    && s'.clients == s.clients && Upcoming(s', u) == Upcoming(s, u)
    && |s'.queue| == (if |s.queue| <= n then 0 else |s.queue| - n)
  }

  lemma PopStep(s: Server, before: seq<Event>, more: seq<Event>, n: nat, limit: nat, u: Uuid)
    requires PoppedFrom(s, Run(before), n, u) && more == before + [PopUpdate]
    requires Paced(before, limit) && SinceDrained(before) <= limit
    ensures PoppedFrom(s, Run(more), n + 1, u)
    ensures Paced(more, limit) && SinceDrained(more) <= limit
  {
    PacedStep(before, PopUpdate, more, limit, limit);
    RunSnoc(before, PopUpdate);
  }

  /** Popping changes neither the clients nor the channels they will be routed to. */
  lemma {:induction false} PopsDrain(es: seq<Event>, n: nat, limit: nat, u: Uuid) returns (more: seq<Event>)
    requires Paced(es, limit) && SinceDrained(es) <= limit
    ensures PoppedFrom(Run(es), Run(more), n, u)
    ensures Paced(more, limit) && SinceDrained(more) <= limit
  {
    if n == 0 {
      more := es;
    } else {
      var before := PopsDrain(es, n - 1, limit, u);
      more := before + [PopUpdate];
      PopStep(Run(es), before, more, n - 1, limit, u);
    }
  }

  ghost predicate AgreesWhenPaced(n: nat) {
    forall es, u :: Paced(es, n) && Run(es).queue == [] && u in Run(es).clients ==>
                      u in Run(es).routers && Run(es).routers[u].activeChannelId == Run(es).clients[u]
  }

  /** The drained table always agrees exactly when at most 255 updates are queued between
      drains. */
  lemma AgreesExactlyUpTo255(n: nat)
    ensures AgreesWhenPaced(n) <==> n <= 255
  {
    if n <= QUEUE_CAPACITY - 1 {
      forall es, u | Paced(es, n) && Run(es).queue == [] && u in Run(es).clients
        ensures u in Run(es).routers && Run(es).routers[u].activeChannelId == Run(es).clients[u]
      {
        PacedTableAgrees(es, n, u);
      }
    } else {
      var u, v := "u", "v";
      assert u[0] != v[0];
      var es := Flood(u, v, n - 1);
      FloodLosesTheFirst(u, v, n - 1);
      FloodedIsUnrouted(Run(es), u, v);
      FloodIsPaced(u, v, n - 1, n);
      var more := PopsDrain(es, n, n, u);
      var drained := Run(more);
      assert drained.queue == [] && u in drained.clients && u !in drained.routers;
    }
  }

  // ---- Signing out --------------------------------------------------------------

  /** The channel u was in when it last signed out. */
  function LeftFrom(es: seq<Event>, u: Uuid): Option<int> {
    if es == [] then None
    else
      var before := es[..|es| - 1];
      if es[|es| - 1] == Logout(u) && u in Run(before).clients then Some(Run(before).clients[u])
      else LeftFrom(before, u)
  }

  /** One step as u's route sees it. */
  lemma StepKeepsRoute(s: Server, e: Event, u: Uuid)
    requires |s.queue| <= QUEUE_CAPACITY - 1 && u !in Next(s, e).lost
    ensures if Pushes(s, e) && e.uuid == u
            then u in Next(s, e).clients && Upcoming(Next(s, e), u) == Some(Next(s, e).clients[u])
            else u !in s.lost && Upcoming(Next(s, e), u) == Upcoming(s, u)
  {
    match e
    case Authenticate(v) => EnqueueKeeps(s.(clients := s.clients[v := NO_CHANNEL]), PeerRoutingState(v, NO_CHANNEL), u);
    case SetState(v, channel) =>
      if v in s.clients {
        EnqueueKeeps(s.(clients := s.clients[v := channel]), PeerRoutingState(v, channel), u);
      }
    case Logout(_) =>
    case PopUpdate =>
    case Relay(v, sender) => ApplyAllSame(s.routers, Learn(s.routers, v, sender), s.queue, u);
  }

  /** Everyone whose latest update was not dropped will be routed to its own channel while
      signed in, and to the one it left from after that. */
  lemma {:induction false} RoutedWhereLastSeen(es: seq<Event>, u: Uuid)
    requires u !in Run(es).lost
    ensures Upcoming(Run(es), u) == if u in Run(es).clients then Some(Run(es).clients[u]) else LeftFrom(es, u)
  {
    if es != [] {
      var before, e := es[..|es| - 1], es[|es| - 1];
      RunAgrees(before);
      StepKeepsRoute(Run(before), e, u);
      if !(Pushes(Run(before), e) && e.uuid == u) {
        RoutedWhereLastSeen(before, u);
      }
    }
  }

  /** LOGOUT sends no update: after a drain a signed-out client is routed into a channel
      exactly when it left from that channel. */
  lemma LogoutKeepsRoutes(es: seq<Event>, u: Uuid, channel: int)
    requires Run(es).queue == [] && u !in Run(es).clients && u !in Run(es).lost
    ensures u in Run(es).routers && Run(es).routers[u].activeChannelId == channel <==> LeftFrom(es, u) == Some(channel)
  {
    RoutedWhereLastSeen(es, u);
  }

  /** An update that is applied before the next one is queued. */
  lemma AppliedAtOnce(es: seq<Event>, s: Server, e: Event) returns (more: seq<Event>)
    requires Run(es) == s && s.queue == [] && s.lost == {} && Pushes(s, e)
    ensures var channel := if e.Authenticate? then NO_CHANNEL else e.channel;
            Run(more) ==
            Server(s.clients[e.uuid := channel], [], Apply(s.routers, PeerRoutingState(e.uuid, channel)), {})
  {
    more := es + [e] + [PopUpdate];
    RunSnoc(es, e);
    RunSnoc(es + [e], PopUpdate);
  }

  /** A client signs in and enters a channel, each update being applied at once. */
  lemma JoinsChannel(es: seq<Event>, s: Server, u: Uuid, channel: int) returns (more: seq<Event>)
    requires Run(es) == s && s.queue == [] && s.lost == {}
    ensures Run(more) == Server(s.clients[u := channel], [], Apply(s.routers, PeerRoutingState(u, channel)), {})
  {
    var there := Server(s.clients[u := NO_CHANNEL], [], Apply(s.routers, PeerRoutingState(u, NO_CHANNEL)), {});
    var signedIn := AppliedAtOnce(es, s, Authenticate(u));
    more := AppliedAtOnce(signedIn, there, SetState(u, channel));
  }

  /** A client that talked in a channel and signed out is still sent what is said there. */
  lemma SignedOutStillHears(u: Uuid, v: Uuid, channel: int, at: Endpoint) returns (es: seq<Event>)
    requires u != v && channel != NO_CHANNEL
    ensures var s := Run(es + [Logout(u)]);
            && u in Run(es).clients
            && s.queue == [] && u !in s.clients && v in s.clients
            && Receives(s.routers, v, u) && s.routers[u].endpoint == at
  {
    var joined := JoinsChannel([], START, u, channel);
    RunSnoc(joined, Relay(u, at));
    var talked := joined + [Relay(u, at)];
    es := JoinsChannel(talked, Run(talked), v, channel);
    RunSnoc(es, Logout(u));
  }

  // ---- Endpoints and channels over runs -------------------------------------------

  /** Where the last packet of u came from that was taken while u was routed into a channel. */
  function LastHeard(es: seq<Event>, u: Uuid): Option<Endpoint> {
    if es == [] then None
    else
      var before, e := es[..|es| - 1], es[|es| - 1];
      if e.Relay? && e.uuid == u && RoutedInto(Run(before).routers, u) then Some(e.sender)
      else LastHeard(before, u)
  }

  predicate RoutedInto(routers: Routers, u: Uuid) {
    u in routers && routers[u].activeChannelId != NO_CHANNEL
  }

  /** The routing table knows of u what was last heard from it. */
  predicate Known(routers: Routers, u: Uuid, heard: Option<Endpoint>) {
    if u !in routers then heard == None
    else if routers[u].hasValidEndpoint then heard == Some(routers[u].endpoint)
    else heard == None
  }

  lemma StepKeepsKnown(s: Server, e: Event, u: Uuid, heard: Option<Endpoint>)
    requires Known(s.routers, u, heard)
    ensures Known(Next(s, e).routers, u,
                  if e.Relay? && e.uuid == u && RoutedInto(s.routers, u) then Some(e.sender) else heard)
  {}

  /** Over every run a client's endpoint is the one it was last heard from: updates of its
      channel keep it, and nothing else is ever sent to. */
  lemma {:induction false} EndpointIsLastHeard(es: seq<Event>, u: Uuid)
    ensures Known(Run(es).routers, u, LastHeard(es, u))
  {
    if es != [] {
      var before, e := es[..|es| - 1], es[|es| - 1];
      EndpointIsLastHeard(before, u);
      StepKeepsKnown(Run(before), e, u, LastHeard(before, u));
    }
  }

  /** A packet of v goes exactly to those who share the channel v is routed into and have been
      heard from, other than v. */
  lemma ReceiversExactly(es: seq<Event>, u: Uuid, v: Uuid)
    ensures Receives(Run(es).routers, v, u) <==>
              && u != v && RoutedInto(Run(es).routers, v) && u in Run(es).routers
              && Run(es).routers[u].activeChannelId == Run(es).routers[v].activeChannelId
              && LastHeard(es, u).Some?
    ensures Receives(Run(es).routers, v, u) ==> LastHeard(es, u) == Some(Run(es).routers[u].endpoint)
  {
    EndpointIsLastHeard(es, u);
  }

  /** The channel of a signed-in client: the last one it asked for since it signed in, none
      before that. */
  function ChannelOf(es: seq<Event>, u: Uuid): Option<int> {
    if es == [] then None
    else
      var before := ChannelOf(es[..|es| - 1], u);
      match es[|es| - 1]
      case Authenticate(v) => if v == u then Some(-1) else before
      case SetState(v, channel) => if v == u && before.Some? then Some(channel) else before
      case Logout(v) => if v == u then None else before
      case _ => before
  }

  lemma {:induction false} ClientsAreSignedIn(es: seq<Event>, u: Uuid)
    ensures u in Run(es).clients <==> ChannelOf(es, u).Some?
    ensures u in Run(es).clients ==> ChannelOf(es, u) == Some(Run(es).clients[u])
  {
    if es != [] {
      ClientsAreSignedIn(es[..|es| - 1], u);
    }
  }

  /** Talking in a channel and then sending an update of it, as a mute does, keeps the client
      reachable there. */
  lemma UpdatesKeepEndpoint(es: seq<Event>, u: Uuid, v: Uuid)
    requires u != v && LastHeard(es, u).Some? && RoutedInto(Run(es).routers, v) && u in Run(es).routers
    requires Run(es).routers[u].activeChannelId == Run(es).routers[v].activeChannelId
    ensures Receives(Run(es).routers, v, u) && Run(es).routers[u].endpoint == LastHeard(es, u).value
  {
    EndpointIsLastHeard(es, u);
  }

  // ---- The server as the program holds it --------------------------------------

  /** Who the packet goes to: everyone else in the sender's channel whose endpoint has
      been learned. */
  ghost predicate Receives(routers: Routers, sender: Uuid, u: Uuid)
  {
    && sender in routers && routers[sender].activeChannelId != NO_CHANNEL
    && u in routers && u != sender
    && routers[u].activeChannelId == routers[sender].activeChannelId
    && routers[u].hasValidEndpoint
  }

  datatype Sent = Sent(to: Uuid, endpoint: Endpoint)

  class VoiceServer {
    const routingQueue: LockFreeQueue<PeerRoutingState>
    var clientMap: map<Uuid, int>
    var activeRouters: Routers
    ghost var lost: set<Uuid>

    ghost const Repr: set<object>

    ghost predicate Valid()
      reads this, Repr
    {
      && Repr == {this, routingQueue, routingQueue.buffer}
      && routingQueue.Valid() && routingQueue.buffer.Length == QUEUE_CAPACITY
    }

    ghost function State(): Server
      requires Valid()
      reads this, Repr
    {
      Server(clientMap, routingQueue.Contents(), activeRouters, lost)
    }

    constructor ()
      ensures Valid() && fresh(Repr) && State() == START
    {
      var queue := new LockFreeQueue<PeerRoutingState>(QUEUE_CAPACITY);
      routingQueue := queue;
      clientMap, activeRouters, lost := map[], map[], {};
      Repr := {this, queue, queue.buffer};
    }

    method ForcePush(update: PeerRoutingState)
      requires Valid()
      modifies Repr
      ensures Valid() && State() == Enqueue(old(State()), update)
    {
      lost := Enqueue(State(), update).lost;
      routingQueue.ForcePush(update);
    }

    method CompleteAuthentication(accountUuid: Uuid)
      requires Valid()
      modifies Repr
      ensures Valid() && State() == Next(old(State()), Authenticate(accountUuid))
    {
      clientMap := clientMap[accountUuid := NO_CHANNEL];
      ForcePush(PeerRoutingState(accountUuid, NO_CHANNEL));
    }

    method OnState(senderUuid: Uuid, channelId: int)
      requires Valid()
      modifies Repr
      ensures Valid() && State() == Next(old(State()), SetState(senderUuid, channelId))
    {
      if senderUuid in clientMap {
        clientMap := clientMap[senderUuid := channelId];
        ForcePush(PeerRoutingState(senderUuid, channelId));
      }
    }

    method OnLogout(senderUuid: Uuid)
      requires Valid()
      modifies Repr
      ensures Valid() && State() == Next(old(State()), Logout(senderUuid))
    {
      clientMap := clientMap - {senderUuid};
    }

    /** The drain loop at the head of every received packet. */
    method DrainRoutingQueue()
      requires Valid()
      modifies Repr
      ensures Valid()
      ensures State() == old(State()).(queue := [], routers := ApplyAll(old(State()).routers, old(State()).queue))
    {
      var update := routingQueue.Pop();
      while update.Some?
        invariant Valid() && clientMap == old(clientMap) && lost == old(lost)
        invariant update.None? ==> routingQueue.Contents() == []
        invariant ApplyAll(activeRouters, (if update.Some? then [update.value] else []) + routingQueue.Contents())
                  == ApplyAll(old(State()).routers, old(State()).queue)
        decreases update.Some?, |routingQueue.Contents()|
      {
        ghost var rest := routingQueue.Contents();
        ApplyFirst(activeRouters, update.value, rest);
        activeRouters := Apply(activeRouters, update.value);
        update := routingQueue.Pop();
        assert (if update.Some? then [update.value] else []) + routingQueue.Contents() == rest;
      }
    }

    /** A packet, `sender` absent when it is too short to carry a uuid. Everyone entitled
        to it gets it exactly once, at the endpoint on record; the sender never does. */
    method OnServerUdpPacket(senderEndpoint: Endpoint, sender: Option<Uuid>) returns (sent: seq<Sent>)
      requires Valid()
      modifies Repr
      ensures Valid() && clientMap == old(clientMap) && routingQueue.Contents() == []
      ensures var drained := ApplyAll(old(State()).routers, old(State()).queue);
              activeRouters == if sender.Some? then Learn(drained, sender.value, senderEndpoint) else drained
      ensures forall i, j :: 0 <= i < j < |sent| ==> sent[i].to != sent[j].to
      ensures forall m :: m in sent <==>
                && sender.Some? && Receives(activeRouters, sender.value, m.to)
                && m.endpoint == activeRouters[m.to].endpoint
      ensures forall m <- sent ::
                && sender.Some? && m.to != sender.value && sender.value in activeRouters && m.to in activeRouters
                && activeRouters[m.to].activeChannelId == activeRouters[sender.value].activeChannelId != -1
    {
      DrainRoutingQueue();
      sent := [];
      if sender.None? || sender.value !in activeRouters {
        return;
      }
      var senderChannel := activeRouters[sender.value].activeChannelId;
      if senderChannel == NO_CHANNEL {
        return;
      }
      activeRouters := Learn(activeRouters, sender.value, senderEndpoint);
      sent := RelayTo(activeRouters, sender.value);
    }
  }

  /** The relay loop over the table. */
  method RelayTo(routers: Routers, sender: Uuid) returns (sent: seq<Sent>)
    requires sender in routers && routers[sender].activeChannelId != NO_CHANNEL
    ensures forall i, j :: 0 <= i < j < |sent| ==> sent[i].to != sent[j].to
    ensures forall m :: m in sent <==> Receives(routers, sender, m.to) && m.endpoint == routers[m.to].endpoint
  {
    sent := [];
    var pending := routers.Keys;
    while pending != {}
      invariant pending <= routers.Keys
      invariant forall i, j :: 0 <= i < j < |sent| ==> sent[i].to != sent[j].to
      invariant forall m :: m in sent <==>
                  Receives(routers, sender, m.to) && m.to !in pending && m.endpoint == routers[m.to].endpoint
      decreases pending
    {
      var u :| u in pending;
      pending := pending - {u};
      if u != sender && routers[u].activeChannelId == routers[sender].activeChannelId && routers[u].hasValidEndpoint {
        assert forall i :: 0 <= i < |sent| ==> sent[i] in sent;
        sent := sent + [Sent(u, routers[u].endpoint)];
      }
    }
  }
}
