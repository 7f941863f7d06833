/** One TCP session: length-prefixed frames, the single-writer outbox and the heartbeat
    flag (src/Network/TcpSession.cpp), as handlers run one at a time on the strand. */
module TcpSessions {
  import opened Basics

  type Bytes = seq<byte>

  const HEADER_SIZE := 4
  const BODY_LIMIT := 1_048_576   // bodies are shorter than this

  // ---- Frames -----------------------------------------------------------------------

  /** A uint32_t as it lies in memory on a little-endian host; longer sizes wrap. */
  function Header(size: nat): (h: Bytes)
    ensures |h| == HEADER_SIZE
  {
    [(size % 256) as byte, (size / 256 % 256) as byte, (size / 65536 % 256) as byte, (size / 16777216 % 256) as byte]
  }

  function SizeIn(h: Bytes): nat
    requires |h| == HEADER_SIZE
  {
    h[0] as nat + 256 * h[1] as nat + 65536 * h[2] as nat + 16777216 * h[3] as nat
  }

  lemma HeaderRoundTrip(size: nat)
    requires size < 0x1_0000_0000
    ensures SizeIn(Header(size)) == size
  {
    var a := size / 256;
    var b := a / 256;
    assert size / 65536 == b && size / 16777216 == b / 256;
    assert b / 256 < 256;
  }

  function Frame(message: Bytes): Bytes { Header(|message|) + message }

  function Frames(messages: seq<Bytes>): Bytes {
    if messages == [] then [] else Frame(messages[0]) + Frames(messages[1..])
  }

  lemma {:induction false} FramesSnoc(messages: seq<Bytes>, m: Bytes)
    ensures Frames(messages + [m]) == Frames(messages) + Frame(m)
  {
    if messages == [] {
      assert messages + [m] == [m] && [m][1..] == [];
    } else {
      FramesSnoc(messages[1..], m);
      assert (messages + [m])[1..] == messages[1..] + [m];
    }
  }

  // ---- The receiver -------------------------------------------------------------------

  predicate LegalSize(size: nat) { 0 < size < BODY_LIMIT }

  /** What the reading side makes of a byte stream: the messages it delivers, and whether
      a header made it close. */
  datatype Reception = Reception(messages: seq<Bytes>, closed: bool)

  function Receive(bytes: Bytes): Reception {
    if |bytes| < HEADER_SIZE then Reception([], false)
    else
      var size := SizeIn(bytes[..HEADER_SIZE]);
      if !LegalSize(size) then Reception([], true)
      else if |bytes| < HEADER_SIZE + size then Reception([], false)
      else
        var rest := Receive(bytes[HEADER_SIZE + size..]);
        Reception([bytes[HEADER_SIZE..HEADER_SIZE + size]] + rest.messages, rest.closed)
  }

  lemma ReceiveFrame(m: Bytes, rest: Bytes)
    requires |m| < 0x1_0000_0000
    ensures Receive(Frame(m) + rest) ==
            if LegalSize(|m|) then Reception([m] + Receive(rest).messages, Receive(rest).closed)
            else Reception([], true)
  {
    HeaderRoundTrip(|m|);
    var bytes := Frame(m) + rest;
    assert bytes[..HEADER_SIZE] == Header(|m|);
    assert bytes[HEADER_SIZE..HEADER_SIZE + |m|] == m && bytes[HEADER_SIZE + |m|..] == rest;
  }

  /** The messages before the first whose size the receiver refuses. */
  function Acceptable(messages: seq<Bytes>): seq<Bytes> {
    if messages == [] || !LegalSize(|messages[0]|) then [] else [messages[0]] + Acceptable(messages[1..])
  }

  /** Decoding what was framed gives the messages back, and stops at the first whose size
      is 0 or a megabyte and more. */
  lemma {:induction false} FramesRoundTrip(messages: seq<Bytes>)
    requires forall m <- messages :: |m| < 0x1_0000_0000
    ensures Receive(Frames(messages)) == Reception(Acceptable(messages), Acceptable(messages) != messages)
  {
    if messages != [] {
      ReceiveFrame(messages[0], Frames(messages[1..]));
      FramesRoundTrip(messages[1..]);
      assert messages == [messages[0]] + messages[1..];
    }
  }

  lemma {:induction false} AllArriveExactlyWhenLegal(messages: seq<Bytes>)
    ensures Acceptable(messages) == messages <==> forall m <- messages :: LegalSize(|m|)
    ensures Acceptable(messages) <= messages
  {
    if messages != [] {
      AllArriveExactlyWhenLegal(messages[1..]);
      assert messages == [messages[0]] + messages[1..];
    }
  }

  /** Fewer bytes never mean other messages. */
  lemma {:induction false} ReceivePrefix(part: Bytes, whole: Bytes)
    requires part <= whole
    ensures Receive(part).messages <= Receive(whole).messages
    ensures Receive(part).closed ==> Receive(whole).closed
    decreases |whole|
  {
    if |part| >= HEADER_SIZE {
      assert part[..HEADER_SIZE] == whole[..HEADER_SIZE];
      var end := HEADER_SIZE + SizeIn(part[..HEADER_SIZE]);
      if LegalSize(SizeIn(part[..HEADER_SIZE])) && |part| >= end {
        assert part[HEADER_SIZE..end] == whole[HEADER_SIZE..end];
        ReceivePrefix(part[end..], whole[end..]);
      }
    }
  }

  // ---- The sender as a state machine ----------------------------------------------------

  /** `writes` are the socket writes still outstanding, `wire` the bytes written so far,
      `sent` the messages the session took in. */
  datatype Session = Session(
    outbox: seq<Bytes>, writing: bool, dead: bool, failed: bool, writes: seq<Bytes>, wire: Bytes, sent: seq<Bytes>)

  const OPEN := Session([], false, false, false, [], [], [])

  datatype Event =
    | Send(message: Bytes)
    | WriteDone                       // the oldest outstanding write finished
    | WriteFailed(written: nat)       // or stopped after so many bytes
    | Close

  function WriteNext(s: Session): Session
    requires s.outbox != []
  {
    s.(writing := true, writes := s.writes + [s.outbox[0]])
  }

  function Next(s: Session, e: Event): Session {
    match e
    case Send(m) =>
      if s.dead then s
      else
        var queued := s.(outbox := s.outbox + [Frame(m)], sent := s.sent + [m]);
        if s.writing then queued else WriteNext(queued)
    case WriteDone =>
      if s.writes == [] then s
      else
        var done := s.(writes := s.writes[1..], wire := s.wire + s.writes[0]);
        if s.dead || s.outbox == [] then done
        else
          var popped := done.(outbox := s.outbox[1..]);
          if popped.outbox != [] then WriteNext(popped) else popped.(writing := false)
    case WriteFailed(written) =>
      if s.writes == [] then s
      else
        var count := if written <= |s.writes[0]| then written else |s.writes[0]|;
        s.(writes := s.writes[1..], wire := s.wire + s.writes[0][..count], failed := true)
    case Close => s.(dead := true)
  }

  function Run(es: seq<Event>): Session {
    if es == [] then OPEN else Next(Run(es[..|es| - 1]), es[|es| - 1])
  }

  function Concat(frames: seq<Bytes>): Bytes {
    if frames == [] then [] else frames[0] + Concat(frames[1..])
  }

  lemma {:induction false} ConcatSnoc(frames: seq<Bytes>, last: Bytes)
    ensures Concat(frames + [last]) == Concat(frames) + last
  {
    if frames == [] {
      assert frames + [last] == [last] && [last][1..] == [];
    } else {
      ConcatSnoc(frames[1..], last);
      assert (frames + [last])[1..] == frames[1..] + [last];
    }
  }

  /** At most one write is outstanding and it is the outbox front; the flag is on exactly
      while the outbox holds something; what is written and what is queued make up exactly
      the frames of the messages sent. */
  predicate Inv(s: Session) {
    && |s.writes| <= 1
    && (s.writing <==> s.outbox != [])
    && (s.failed ==> s.writing)
    && (s.writes != [] ==> s.outbox != [] && s.writes == [s.outbox[0]] && !s.failed)
    && (!s.dead && !s.failed ==> (s.writing <==> s.writes != []))
    && (!s.failed && (s.writes != [] || !s.dead) ==> s.wire + Concat(s.outbox) == Frames(s.sent))
    && s.wire <= Frames(s.sent)
  }

  lemma SendKeepsInv(s: Session, m: Bytes)
    requires Inv(s)
    ensures Inv(Next(s, Send(m)))
  {
    FramesSnoc(s.sent, m);
    ConcatSnoc(s.outbox, Frame(m));
    assert s.wire + (Concat(s.outbox) + Frame(m)) == s.wire + Concat(s.outbox) + Frame(m);
  }

  lemma WriteDoneKeepsInv(s: Session)
    requires Inv(s)
    ensures Inv(Next(s, WriteDone))
  {
    if s.writes != [] {
      var front, rest := s.outbox[0], Concat(s.outbox[1..]);
      assert s.wire + (front + rest) == s.wire + front + rest;
    }
  }

  lemma WriteFailedKeepsInv(s: Session, written: nat)
    requires Inv(s)
    ensures Inv(Next(s, WriteFailed(written)))
  {
    if s.writes != [] {
      var front, rest := s.outbox[0], Concat(s.outbox[1..]);
      var part := front[..if written <= |front| then written else |front|];
      assert s.wire + (front + rest) == s.wire + part + (front[|part|..] + rest);
    }
  }

  lemma {:induction false} RunKeepsInv(es: seq<Event>)
    ensures Inv(Run(es))
  {
    if es != [] {
      var s := Run(es[..|es| - 1]);
      RunKeepsInv(es[..|es| - 1]);
      match es[|es| - 1]
      case Send(m) => SendKeepsInv(s, m);
      case WriteDone => WriteDoneKeepsInv(s);
      case WriteFailed(written) => WriteFailedKeepsInv(s, written);
      case Close =>
    }
  }

  lemma WrittenIsPrefix(s: Session, partial: Bytes)
    requires Inv(s) && (partial == [] || (s.writes != [] && partial <= s.writes[0]))
    ensures s.wire + partial <= Frames(s.sent)
  {
    if partial == [] {
      assert s.wire + partial == s.wire;
    } else {
      var front, rest := s.outbox[0], Concat(s.outbox[1..]);
      assert front == partial + front[|partial|..];
      assert Frames(s.sent) == s.wire + partial + (front[|partial|..] + rest);
    }
  }

  /** In every interleaving of sends, completions, failures and closing, what the other
      side has decoded, even in the middle of a write, is a prefix of what was sent. */
  lemma PeerSeesPrefixOfSent(es: seq<Event>, partial: Bytes)
    requires forall m <- Run(es).sent :: |m| < 0x1_0000_0000
    requires partial == [] || (Run(es).writes != [] && partial <= Run(es).writes[0])
    ensures Receive(Run(es).wire + partial).messages <= Run(es).sent
    ensures (forall m <- Run(es).sent :: LegalSize(|m|)) ==> !Receive(Run(es).wire + partial).closed
  {
    var s := Run(es);
    RunKeepsInv(es);
    WrittenIsPrefix(s, partial);
    ReceivePrefix(s.wire + partial, Frames(s.sent));
    FramesRoundTrip(s.sent);
    AllArriveExactlyWhenLegal(s.sent);
  }

  /** Once the outbox of a healthy session has run empty, everything sent has arrived. */
  lemma QuietSessionHasDelivered(es: seq<Event>)
    requires forall m <- Run(es).sent :: LegalSize(|m|)
    requires !Run(es).dead && !Run(es).failed && !Run(es).writing
    ensures Receive(Run(es).wire) == Reception(Run(es).sent, false)
  {
    var s := Run(es);
    RunKeepsInv(es);
    assert s.wire + Concat([]) == s.wire;
    FramesRoundTrip(s.sent);
    AllArriveExactlyWhenLegal(s.sent);
  }

  // ---- Closing ----------------------------------------------------------------------------

  predicate Closed(es: seq<Event>) {
    Close in es
  }

  /** The messages handed to the session before it was closed. */
  function SentBeforeClose(es: seq<Event>): seq<Bytes> {
    if es == [] then []
    else
      var before, e := es[..|es| - 1], es[|es| - 1];
      SentBeforeClose(before) + (if e.Send? && !Closed(before) then [e.message] else [])
  }

  /** How often the disconnect callback runs. */
  function Disconnects(es: seq<Event>): nat {
    if es == [] then 0
    else
      var before, e := es[..|es| - 1], es[|es| - 1];
      Disconnects(before) + (if e.Close? && !Run(before).dead then 1 else 0)
  }

  lemma StepTakesIn(s: Session, e: Event)
    ensures Next(s, e).dead <==> s.dead || e.Close?
    ensures Next(s, e).sent == s.sent + (if e.Send? && !s.dead then [e.message] else [])
  {}

  lemma {:induction false} DeadOnceClosed(es: seq<Event>)
    ensures Run(es).dead <==> Closed(es)
  {
    if es != [] {
      var before, e := es[..|es| - 1], es[|es| - 1];
      DeadOnceClosed(before);
      StepTakesIn(Run(before), e);
      assert es == before + [e];
    }
  }

  lemma {:induction false} TakesInUntilClosed(es: seq<Event>)
    ensures Run(es).sent == SentBeforeClose(es)
  {
    if es != [] {
      var before, e := es[..|es| - 1], es[|es| - 1];
      TakesInUntilClosed(before);
      DeadOnceClosed(before);
      StepTakesIn(Run(before), e);
    }
  }

  lemma {:induction false} DisconnectsOnce(es: seq<Event>)
    ensures Disconnects(es) == if Run(es).dead then 1 else 0
  {
    if es != [] {
      DisconnectsOnce(es[..|es| - 1]);
      StepTakesIn(Run(es[..|es| - 1]), es[|es| - 1]);
    }
  }

  /** A session takes in exactly what is sent before it is closed, is dead exactly from then on,
      and reports its disconnect exactly once. */
  lemma ClosingTakesEffectOnce(es: seq<Event>)
    ensures Run(es).dead <==> Closed(es)
    ensures Run(es).sent == SentBeforeClose(es)
    ensures Disconnects(es) == if Closed(es) then 1 else 0
  {
    DeadOnceClosed(es);
    TakesInUntilClosed(es);
    DisconnectsOnce(es);
  }

  predicate IsSuffix(a: seq<Bytes>, b: seq<Bytes>) {
    |a| <= |b| && a == b[|b| - |a|..]
  }

  /** The session s' has done nothing since s but finish writes. */
  predicate WoundDown(s: Session, s': Session) {
    s'.dead && s'.outbox == s.outbox && s'.sent == s.sent && IsSuffix(s'.writes, s.writes)
  }

  lemma DeadStep(s: Session, s': Session, e: Event)
    requires WoundDown(s, s')
    ensures WoundDown(s, Next(s', e))
  {
    if s'.writes != [] && (e.WriteDone? || e.WriteFailed?) {
      assert s'.writes[1..] == s.writes[|s.writes| - |s'.writes| + 1..];
    }
  }

  lemma RunSnoc(es: seq<Event>, e: Event)
    ensures Run(es + [e]) == Next(Run(es), e)
  {
    assert (es + [e])[..|es|] == es;
  }

  /** Nothing is queued or written any more once the session is closed: the writes under way
      may finish, and that is all. */
  lemma {:induction false} ClosedForGood(es: seq<Event>, more: seq<Event>)
    ensures WoundDown(Run(es), Run(es + [Close] + more))
  {
    if more == [] {
      assert es + [Close] + more == es + [Close];
      RunSnoc(es, Close);
    } else {
      var before, e := es + [Close] + more[..|more| - 1], more[|more| - 1];
      ClosedForGood(es, more[..|more| - 1]);
      assert es + [Close] + more == before + [e];
      RunSnoc(before, e);
      DeadStep(Run(es), Run(before), e);
    }
  }

  /** Messages of 1 to 1048575 bytes arrive, and no others. */
  lemma LegalFrom1To1048575(message: Bytes)
    requires |message| < 0x1_0000_0000
    ensures Receive(Frame(message)) ==
            if 1 <= |message| <= 1_048_575 then Reception([message], false) else Reception([], true)
  {
    FramesRoundTrip([message]);
    assert Frames([message]) == Frame(message) + Frames([message][1..]);
    assert [message][1..] == [] && Frame(message) + [] == Frame(message);
  }

  // ---- The session as the program holds it ------------------------------------------------

  class TcpSession {
    var outboxQueue: seq<Bytes>
    var isWritingActive: bool
    var isDead: bool
    ghost var failed: bool
    ghost var writes: seq<Bytes>
    ghost var wire: Bytes
    ghost var sent: seq<Bytes>

    ghost function State(): Session
      reads this
    {
      Session(outboxQueue, isWritingActive, isDead, failed, writes, wire, sent)
    }

    ghost predicate Valid()
      reads this
    {
      Inv(State())
    }

    constructor ()
      ensures Valid() && State() == OPEN
    {
      outboxQueue, isWritingActive, isDead := [], false, false;
      failed, writes, wire, sent := false, [], [], [];
    }

    method SendData(message: Bytes)
      requires Valid()
      modifies this
      ensures Valid() && State() == Next(old(State()), Send(message))
    {
      SendKeepsInv(State(), message);
      if isDead {
        return;
      }
      var writeInProgress := isWritingActive;
      outboxQueue := outboxQueue + [Header(|message|) + message];
      sent := sent + [message];
      if !writeInProgress {
        StartWrite();
      }
    }

    /** async_write of the outbox front. */
    method StartWrite()
      requires outboxQueue != []
      modifies this`isWritingActive, this`writes
      ensures State() == WriteNext(old(State()))
    {
      isWritingActive := true;
      writes := writes + [outboxQueue[0]];
    }

    method OnWriteDone()
      requires Valid() && writes != []
      modifies this
      ensures Valid() && State() == Next(old(State()), WriteDone)
    {
      WriteDoneKeepsInv(State());
      wire, writes := wire + writes[0], writes[1..];
      if !isDead {
        outboxQueue := outboxQueue[1..];
        if outboxQueue != [] {
          StartWrite();
        } else {
          isWritingActive := false;
        }
      }
    }

    /** The error branch only posts closeSession. */
    method OnWriteFailed(ghost written: nat) returns (closePosted: bool)
      requires Valid() && writes != []
      modifies this`wire, this`writes, this`failed
      ensures Valid() && State() == Next(old(State()), WriteFailed(written)) && closePosted
    {
      WriteFailedKeepsInv(State(), written);
      wire := Next(State(), WriteFailed(written)).wire;
      writes, failed := writes[1..], true;
      closePosted := true;
    }

    method OnClose() returns (disconnected: bool)
      requires Valid()
      modifies this`isDead
      ensures Valid() && State() == Next(old(State()), Close)
      ensures disconnected <==> !old(isDead)
    {
      disconnected := !isDead;
      isDead := true;
    }
  }

  /** The reading side: header, size check, body, message, and again. */
  method ReadLoop(bytes: Bytes) returns (messages: seq<Bytes>, closed: bool)
    ensures Reception(messages, closed) == Receive(bytes)
  {
    messages, closed := [], false;
    var inbound := bytes;
    while |inbound| >= HEADER_SIZE
      invariant Receive(bytes) == Reception(messages + Receive(inbound).messages, Receive(inbound).closed)
      decreases |inbound|
    {
      var inboundHeaderSize := SizeIn(inbound[..HEADER_SIZE]);
      if !LegalSize(inboundHeaderSize) {
        return messages, true;
      }
      if |inbound| < HEADER_SIZE + inboundHeaderSize {
        return;
      }
      messages := messages + [inbound[HEADER_SIZE..HEADER_SIZE + inboundHeaderSize]];
      inbound := inbound[HEADER_SIZE + inboundHeaderSize..];
    }
  }
}
