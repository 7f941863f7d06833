/** Which session speaks for which client: the map from client uuid to session, with
    ghost takeover (src/Network/TailscaleNetwork.cpp). */
module SessionMap {
  import opened Basics

  type Uuid = string

  // ---- The map as a state machine ---------------------------------------------------

  /** `uuids` is each session's client uuid ("" before it authenticates), `closing` the
      sessions told to close, `gone` those whose disconnect has run. */
  datatype State<S(==)> = State(active: map<Uuid, S>, uuids: map<S, Uuid>, closing: set<S>, gone: set<S>)

  datatype Event<S> =
    | Authenticated(session: S, uuid: Uuid)
    | Disconnected(session: S)

  function UuidOf<S>(s: State<S>, session: S): Uuid {
    if session in s.uuids then s.uuids[session] else ""
  }

  /** The old entry goes (whoever holds it), a different holder of the new uuid is told to
      close, and the session takes the uuid over. */
  function Authenticate<S>(s: State<S>, session: S, uuid: Uuid): State<S> {
    var old' := UuidOf(s, session);
    var cleared := if old' != "" then s.active - {old'} else s.active;
    var ghosts := if uuid in cleared && cleared[uuid] != session then {cleared[uuid]} else {};
    State(cleared[uuid := session], s.uuids[session := uuid], s.closing + ghosts, s.gone)
  }

  /** Only an entry that is still this session's is erased. */
  function Disconnect<S>(s: State<S>, session: S): State<S> {
    var uuid := UuidOf(s, session);
    var tracked := uuid != "" && uuid in s.active && s.active[uuid] == session;
    s.(active := if tracked then s.active - {uuid} else s.active, gone := s.gone + {session})
  }

  function Next<S>(s: State<S>, e: Event<S>): State<S> {
    match e
    case Authenticated(session, uuid) => Authenticate(s, session, uuid)
    case Disconnected(session) => Disconnect(s, session)
  }

  /** Accounts have a uuid, and a session that has disconnected reads no more messages. */
  predicate Legal<S>(s: State<S>, e: Event<S>) {
    e.Authenticated? ==> e.uuid != "" && e.session !in s.gone
  }

  function Run<S>(es: seq<Event<S>>): State<S> {
    if es == [] then State(map[], map[], {}, {}) else Next(Run(es[..|es| - 1]), es[|es| - 1])
  }

  predicate LegalRun<S(==)>(es: seq<Event<S>>) {
    es == [] || (LegalRun(es[..|es| - 1]) && Legal(Run(es[..|es| - 1]), es[|es| - 1]))
  }

  // ---- What every run keeps -----------------------------------------------------------

  predicate Inv<S>(s: State<S>) {
    forall u <- s.active ::
      && u != ""
      && s.active[u] in s.uuids && s.uuids[s.active[u]] == u
      && s.active[u] !in s.gone
  }

  lemma StepKeepsInv<S>(s: State<S>, e: Event<S>)
    requires Inv(s) && Legal(s, e)
    ensures Inv(Next(s, e))
  {}

  lemma {:induction false} RunKeepsInv<S>(es: seq<Event<S>>)
    requires LegalRun(es)
    ensures Inv(Run(es))
  {
    if es != [] {
      RunKeepsInv(es[..|es| - 1]);
      StepKeepsInv(Run(es[..|es| - 1]), es[|es| - 1]);
    }
  }

  /** In every run a session mapped under a uuid has that uuid and is still connected, so
      no session is mapped twice and a broadcast reaches each at most once. */
  lemma MapIsInjectiveAndLive<S>(es: seq<Event<S>>, u: Uuid, v: Uuid)
    requires LegalRun(es) && u in Run(es).active && v in Run(es).active
    ensures UuidOf(Run(es), Run(es).active[u]) == u
    ensures Run(es).active[u] !in Run(es).gone
    ensures Run(es).active[u] == Run(es).active[v] ==> u == v
  {
    RunKeepsInv(es);
  }

  /** A disconnect removes no entry but the session's own: a superseded session cannot
      take its replacement with it. */
  lemma DisconnectRemovesOnlyItself<S>(es: seq<Event<S>>, session: S, u: Uuid)
    requires LegalRun(es)
    ensures var before, after := Run(es).active, Next(Run(es), Disconnected(session)).active;
            && (u in after ==> u in before && after[u] == before[u])
            && (u in before ==> (u !in after <==> before[u] == session))
  {
    RunKeepsInv(es);
  }

  /** A session that authenticates leaves every other session's entry alone, apart from the
      one it takes over, exactly when its own old uuid is unmapped, its own, or the new one:
      the entry of the old uuid is erased without asking whose it is. */
  lemma AuthenticationDisplacesExactly<S>(s: State<S>, session: S, uuid: Uuid)
    requires Inv(s) && Legal(s, Authenticated(session, uuid))
    ensures var old' := UuidOf(s, session);
            (forall u <- s.active :: u != uuid && s.active[u] != session ==>
               u in Authenticate(s, session, uuid).active && Authenticate(s, session, uuid).active[u] == s.active[u])
            <==> (old' !in s.active || s.active[old'] == session || old' == uuid)
  {
    var old' := UuidOf(s, session);
    if old' in s.active && s.active[old'] != session && old' != uuid {
      assert old' !in Authenticate(s, session, uuid).active;
    }
  }

  /** It happens: session a is superseded by session b under u, and before it notices signs
      in as v; session b, connected and authenticated, is no longer mapped. */
  lemma SupersededSessionUnmapsItsSuccessor<S>(a: S, b: S, u: Uuid, v: Uuid)
    requires a != b && u != "" && v != "" && u != v
    ensures var es := [Authenticated(a, u), Authenticated(b, u), Authenticated(a, v)];
            && LegalRun(es)
            && UuidOf(Run(es), b) == u && b !in Run(es).gone && b !in Run(es).closing
            && u !in Run(es).active
  {
    var es := [Authenticated(a, u), Authenticated(b, u), Authenticated(a, v)];
    assert es[..2] == [Authenticated(a, u), Authenticated(b, u)];
    assert es[..2][..1] == [Authenticated(a, u)];
    assert LegalRun([Authenticated(a, u)]) && LegalRun(es[..2]);
  }

  // ---- Who should be mapped -------------------------------------------------------------

  /** The session that last signed in as u, while it stays connected and does not sign in as
      someone else. */
  function Holder<S(==)>(es: seq<Event<S>>, u: Uuid): Option<S> {
    if es == [] then None
    else
      var before := Holder(es[..|es| - 1], u);
      match es[|es| - 1]
      case Authenticated(session, uuid) =>
        if uuid == u then Some(session) else if before == Some(session) then None else before
      case Disconnected(session) => if before == Some(session) then None else before
  }

  function Mapped<S(==)>(s: State<S>, u: Uuid): Option<S> {
    if u in s.active then Some(s.active[u]) else None
  }

  ghost predicate HoldersMapped<S(!new)>(es: seq<Event<S>>) {
    forall u :: Mapped(Run(es), u) == Holder(es, u)
  }

  /** A session signs in as someone else while its old uuid is mapped to another session. */
  predicate Displaces<S(==)>(s: State<S>, e: Event<S>) {
    && e.Authenticated?
    && UuidOf(s, e.session) in s.active && s.active[UuidOf(s, e.session)] != e.session
    && UuidOf(s, e.session) != e.uuid
  }

  lemma {:induction false} OnlyHoldersAreMapped<S>(es: seq<Event<S>>, u: Uuid)
    requires LegalRun(es)
    ensures Mapped(Run(es), u).Some? ==> Mapped(Run(es), u) == Holder(es, u)
  {
    if es != [] {
      OnlyHoldersAreMapped(es[..|es| - 1], u);
      RunKeepsInv(es[..|es| - 1]);
    }
  }

  lemma StepMapsHolders<S(!new)>(before: seq<Event<S>>, e: Event<S>)
    requires LegalRun(before) && HoldersMapped(before) && Legal(Run(before), e)
    ensures HoldersMapped(before + [e]) <==> !Displaces(Run(before), e)
  {
    var s := Run(before);
    assert (before + [e])[..|before|] == before;
    RunKeepsInv(before);
    if Displaces(s, e) {
      var old' := UuidOf(s, e.session);
      assert Mapped(s, old') == Holder(before, old');
      assert Mapped(Run(before + [e]), old') != Holder(before + [e], old');
    } else {
      forall u ensures Mapped(Run(before + [e]), u) == Holder(before + [e], u) {
        assert Mapped(s, u) == Holder(before, u);
      }
    }
  }

  ghost predicate AlwaysMapped<S(!new)>(es: seq<Event<S>>) {
    HoldersMapped(es) && (es != [] ==> AlwaysMapped(es[..|es| - 1]))
  }

  predicate NeverDisplaces<S(==)>(es: seq<Event<S>>) {
    es == [] || (NeverDisplaces(es[..|es| - 1]) && !Displaces(Run(es[..|es| - 1]), es[|es| - 1]))
  }

  /** Every connected session that is signed in and not superseded stays mapped throughout a
      run exactly when no session signs in as someone else while its old uuid is another
      session's. */
  lemma {:induction false} AlwaysMappedExactly<S(!new)>(es: seq<Event<S>>)
    requires LegalRun(es)
    ensures AlwaysMapped(es) <==> NeverDisplaces(es)
  {
    if es != [] {
      var before := es[..|es| - 1];
      AlwaysMappedExactly(before);
      assert es == before + [es[|es| - 1]];
      if AlwaysMapped(before) {
        StepMapsHolders(before, es[|es| - 1]);
      }
    }
  }

  // ---- Who is told to close ---------------------------------------------------------------

  /** Another session signs in as the one t holds. */
  predicate Supersedes<S(==)>(es: seq<Event<S>>, e: Event<S>, t: S) {
    e.Authenticated? && e.session != t && Holder(es, e.uuid) == Some(t)
  }

  predicate Superseded<S(==)>(es: seq<Event<S>>, t: S) {
    es != [] && (Superseded(es[..|es| - 1], t) || Supersedes(es[..|es| - 1], es[|es| - 1], t))
  }

  /** A session that was superseded signs in again as the same: the entry of its successor is
      erased as its own old one, before anyone looks at who holds it. */
  predicate Reclaims<S(==)>(s: State<S>, e: Event<S>) {
    && e.Authenticated? && UuidOf(s, e.session) == e.uuid
    && e.uuid in s.active && s.active[e.uuid] != e.session
  }

  predicate NeverReclaims<S(==)>(es: seq<Event<S>>) {
    es == [] || (NeverReclaims(es[..|es| - 1]) && !Reclaims(Run(es[..|es| - 1]), es[|es| - 1]))
  }

  /** A step tells a session to close only if it is superseded by it. */
  lemma {:induction false} OnlySupersededAreClosed<S>(es: seq<Event<S>>, t: S)
    requires LegalRun(es)
    ensures t in Run(es).closing ==> Superseded(es, t)
  {
    if es != [] {
      var before, e := es[..|es| - 1], es[|es| - 1];
      OnlySupersededAreClosed(before, t);
      if e.Authenticated? {
        OnlyHoldersAreMapped(before, e.uuid);
      }
    }
  }

  /** While nobody displaces or reclaims an entry, exactly the superseded sessions are told to
      close. */
  lemma {:induction false} SupersededAreClosed<S(!new)>(es: seq<Event<S>>, t: S)
    requires LegalRun(es) && NeverDisplaces(es) && NeverReclaims(es)
    ensures t in Run(es).closing <==> Superseded(es, t)
  {
    OnlySupersededAreClosed(es, t);
    if es != [] {
      var before, e := es[..|es| - 1], es[|es| - 1];
      SupersededAreClosed(before, t);
      AlwaysMappedExactly(before);
      if Supersedes(before, e, t) {
        assert Mapped(Run(before), e.uuid) == Holder(before, e.uuid);
        RunKeepsInv(before);
      }
    }
  }

  /** It is missed otherwise: session a, superseded by b under u, signs in as u once more; b is
      superseded in turn and not told. */
  lemma ReclaimedIsNotClosed<S>(a: S, b: S, u: Uuid)
    requires a != b && u != ""
    ensures var es := [] + [Authenticated(a, u)] + [Authenticated(b, u)] + [Authenticated(a, u)];
            LegalRun(es) && Superseded(es, b) && b !in Run(es).closing && Mapped(Run(es), u) == Some(a)
  {
    Snoc([], Authenticated(a, u), u);
    var es := [] + [Authenticated(a, u)];
    Snoc(es, Authenticated(b, u), u);
    es := es + [Authenticated(b, u)];
    Snoc(es, Authenticated(a, u), u);
    assert (es + [Authenticated(a, u)])[..|es|] == es;
  }

  lemma Snoc<S>(es: seq<Event<S>>, e: Event<S>, u: Uuid)
    ensures Run(es + [e]) == Next(Run(es), e)
    ensures LegalRun(es + [e]) <==> LegalRun(es) && Legal(Run(es), e)
    ensures e.Authenticated? && e.uuid == u ==> Holder(es + [e], u) == Some(e.session)
  {
    assert (es + [e])[..|es|] == es;
  }

  // ---- The map as the program holds it --------------------------------------------------

  /** The map together with what one session knows about itself. */
  function SeenFrom<S>(session: S, clientUuid: Uuid, active: map<Uuid, S>): State<S> {
    State(active, map[session := clientUuid], {}, {})
  }

  /** What the map knows of a session. */
  class ActiveSession {
    var clientUuid: Uuid
    var closePosted: bool

    constructor ()
      ensures clientUuid == "" && !closePosted
    {
      clientUuid, closePosted := "", false;
    }

    method CloseSession()
      modifies this`closePosted
      ensures closePosted
    {
      closePosted := true;
    }
  }

  class TailscaleNetwork {
    var activeSessions: map<Uuid, ActiveSession>

    constructor ()
      ensures activeSessions == map[]
    {
      activeSessions := map[];
    }

    /** The mapping done when a handler answered AUTH_SUCCESS. A session that holds the
        uuid is told to close, and no other is. */
    method OnAuthenticated(activeSession: ActiveSession, assignedUuid: Uuid)
      modifies this, activeSession`clientUuid, activeSessions.Values`closePosted
      ensures activeSession.clientUuid == assignedUuid
      ensures activeSessions ==
              Authenticate(SeenFrom(activeSession, old(activeSession.clientUuid), old(activeSessions)),
                           activeSession, assignedUuid).active
      ensures forall t <- old(activeSessions.Values) ::
                t.closePosted <==>
                  || old(t.closePosted)
                  || t in Authenticate(SeenFrom(activeSession, old(activeSession.clientUuid), old(activeSessions)),
                                       activeSession, assignedUuid).closing
    {
      var oldUuid := activeSession.clientUuid;
      if oldUuid != "" && oldUuid in activeSessions {
        activeSessions := activeSessions - {oldUuid};
      }
      if assignedUuid in activeSessions && activeSessions[assignedUuid] != activeSession {
        activeSessions[assignedUuid].CloseSession();
      }
      activeSession.clientUuid := assignedUuid;
      activeSessions := activeSessions[assignedUuid := activeSession];
    }

    method OnDisconnect(disconnected: ActiveSession)
      modifies this
      ensures activeSessions ==
              Disconnect(SeenFrom(disconnected, disconnected.clientUuid, old(activeSessions)), disconnected).active
    {
      var clientUuid := disconnected.clientUuid;
      var isTracked := clientUuid != "" && clientUuid in activeSessions && activeSessions[clientUuid] == disconnected;
      if !isTracked {
        return;
      }
      activeSessions := activeSessions - {clientUuid};
    }

    /** The loop over the map, one send an entry: every mapped session gets the broadcast,
        each once while the map is injective. */
    method BroadcastTcp() returns (sentTo: seq<ActiveSession>)
      ensures forall t: ActiveSession :: t in sentTo <==> t in activeSessions.Values
      ensures (forall u <- activeSessions, v <- activeSessions :: activeSessions[u] == activeSessions[v] ==> u == v) ==>
                forall i, j :: 0 <= i < j < |sentTo| ==> sentTo[i] != sentTo[j]
    {
      sentTo := [];
      ghost var visited: seq<Uuid> := [];
      var pending := activeSessions.Keys;
      while pending != {}
        invariant pending <= activeSessions.Keys && |visited| == |sentTo|
        invariant forall i :: 0 <= i < |visited| ==>
                    visited[i] in activeSessions.Keys - pending && sentTo[i] == activeSessions[visited[i]]
        invariant forall i, j :: 0 <= i < j < |visited| ==> visited[i] != visited[j]
        invariant forall u <- activeSessions.Keys - pending :: activeSessions[u] in sentTo
        decreases pending
      {
        var u :| u in pending;
        pending := pending - {u};
        visited := visited + [u];
        sentTo := sentTo + [activeSessions[u]];
      }
    }
  }
}
