/** Mixing every peer's audio into one output frame (src/Audio/PeerMixer.cpp). */
module PeerMixing {
  import opened Basics
  import opened JitterBuffering
  import opened PeerPlayback

  type Sample = x: int | -32768 <= x < 32768
  newtype int32 = x: int | -0x8000_0000 <= x < 0x8000_0000
  type Frame = seq<Sample>

  /** opus_decode for each peer: given the packet, or nothing to conceal a loss, it fails
      or fills a whole frame. A new one may be supplied for every call. */
  type Decoder = (string, Option<Payload>) -> Option<Frame>

  ghost predicate FillsFrames(decoder: Decoder, samples: nat) {
    forall uuid, packet :: decoder(uuid, packet).Some? ==> |decoder(uuid, packet).value| == samples
  }

  // ---- What one call does -----------------------------------------------------

  type Peers = map<string, Peer>

  ghost predicate ValidPeers(ps: Peers) { forall k <- ps :: ValidPeer(ps[k]) }

  ghost function Decoded(ps: Peers, decoder: Decoder, k: string): Option<Frame>
    requires ValidPeers(ps) && k in ps
  {
    decoder(k, Taken(ps[k].ring, Succ(ps[k].lastPlayed)))
  }

  /** The decoder is handed the packet whose turn it is, or nothing. */
  lemma DecoderGetsItsTurn(ps: Peers, decoder: Decoder, k: string)
    requires ValidPeers(ps) && k in ps
    ensures match TickOutcome(ps[k], Decoded(ps, decoder, k).Some?)
            case Heard(_, payload) => Decoded(ps, decoder, k) == decoder(k, Some(payload)) != None
            case Garbled(_, payload) => Decoded(ps, decoder, k) == decoder(k, Some(payload)) == None
            case Concealed => Decoded(ps, decoder, k) == decoder(k, None)
  {}

  ghost function Pushed(ps: Peers, k: string, s: Sequence, payload: Payload, ready: bool): Peers
    requires ValidPeers(ps)
  {
    if k in ps then ps[k := Receive(ps[k], s, payload)]
    else if ready then ps[k := Receive(NewPeer(s), s, payload)]
    else ps
  }

  lemma PushedAfterAdding(ps: Peers, added: Peers, k: string, s: Sequence, payload: Payload, ready: bool)
    requires ValidPeers(ps) && (k in ps || ready)
    requires added == if k in ps then ps else ps[k := NewPeer(s)]
    ensures k in added && ValidPeer(added[k])
    ensures added[k := Receive(added[k], s, payload)] == Pushed(ps, k, s, payload, ready)
  {}

  ghost function Mixed(ps: Peers, decoder: Decoder): Peers
    requires ValidPeers(ps)
  {
    map k | k in ps && !Evicted(ps[k], Decoded(ps, decoder, k).Some?) :: Ticked(ps[k], Decoded(ps, decoder, k).Some?)
  }

  /** What each of the given peers adds to sample i of the frame. */
  ghost function Contributions(ps: Peers, keys: set<string>, decoder: Decoder, i: nat): map<string, int>
    requires ValidPeers(ps) && keys <= ps.Keys
  {
    map k | k in keys ::
      if Decoded(ps, decoder, k).Some? && i < |Decoded(ps, decoder, k).value|
      then Decoded(ps, decoder, k).value[i] else 0
  }

  ghost function Sum(terms: map<string, int>): int {
    if terms == map[] then 0
    else
      var k :| k in terms;
      terms[k] + Sum(terms - {k})
  }

  /** The sum does not depend on the order in which the peers are visited. */
  lemma {:induction false} SumTakesAnyFirst(terms: map<string, int>, k: string)
    requires k in terms
    ensures Sum(terms) == terms[k] + Sum(terms - {k})
    decreases terms
  {
    var first :| first in terms && Sum(terms) == terms[first] + Sum(terms - {first});
    if first != k {
      SumTakesAnyFirst(terms - {first}, k);
      SumTakesAnyFirst(terms - {k}, first);
      assert terms - {first} - {k} == terms - {k} - {first};
    }
  }

  ghost predicate AreSamples(terms: map<string, int>) {
    forall k <- terms :: -32768 <= terms[k] <= 32767
  }

  lemma {:induction false} SumIsBounded(terms: map<string, int>)
    requires AreSamples(terms)
    ensures -32768 * |terms| <= Sum(terms) <= 32767 * |terms|
    decreases terms
  {
    if terms != map[] {
      var k :| k in terms && Sum(terms) == terms[k] + Sum(terms - {k});
      assert (terms - {k}).Keys == terms.Keys - {k};
      SumIsBounded(terms - {k});
    }
  }

  const MAX_PEERS := 65536

  ghost predicate FitsInt32(x: int) { -0x8000_0000 <= x < 0x8000_0000 }

  /** A 32-bit accumulator is wide enough exactly up to 65536 peers. */
  lemma AccumulatorFitsExactly(n: nat)
    ensures (forall terms :: AreSamples(terms) && |terms| <= n ==> FitsInt32(Sum(terms))) <==> n <= 65536
  {
    if n <= MAX_PEERS {
      forall terms | AreSamples(terms) && |terms| <= n ensures FitsInt32(Sum(terms)) {
        SumIsBounded(terms);
      }
    } else {
      var terms := LoudPeers(n);
      assert AreSamples(terms) && !FitsInt32(Sum(terms));
    }
  }

  /** n peers at full negative amplitude. */
  ghost function LoudPeers(n: nat): (terms: map<string, int>)
    ensures |terms| == n && AreSamples(terms) && Sum(terms) == -32768 * n
    ensures forall k <- terms :: |k| < n
  {
    if n == 0 then map[]
    else
      var rest, k := LoudPeers(n - 1), seq(n - 1, _ => 'x');
      var terms := rest[k := -32768];
      SumTakesAnyFirst(terms, k);
      assert terms - {k} == rest;
      terms
  }

  // ---- Every peer runs on its own ----------------------------------------------

  datatype Call =
    | PushCall(uuid: string, number: Sequence, payload: Payload, ready: bool)
    | MixCall(decoder: Decoder)
    | ResetCall

  ghost function MixerRun(calls: seq<Call>): (ps: Peers)
    ensures ValidPeers(ps)
  {
    if calls == [] then map[]
    else
      var before := MixerRun(calls[..|calls| - 1]);
      match calls[|calls| - 1]
      case PushCall(k, s, payload, ready) => Pushed(before, k, s, payload, ready)
      case MixCall(decoder) => Mixed(before, decoder)
      case ResetCall => map[]
  }

  /** The calls as peer k experiences them. */
  ghost function Trace(calls: seq<Call>, k: string): seq<Event> {
    if calls == [] then []
    else
      var before, rest := MixerRun(calls[..|calls| - 1]), Trace(calls[..|calls| - 1], k);
      match calls[|calls| - 1]
      case PushCall(uuid, s, payload, ready) => if uuid == k then rest + [Push(s, payload, ready)] else rest
      case MixCall(decoder) => rest + [Tick(k in before && Decoded(before, decoder, k).Some?)]
      case ResetCall => rest + [Clear]
  }

  ghost function Lookup(ps: Peers, k: string): Option<Peer> {
    if k in ps then Some(ps[k]) else None
  }

  /** Peers do not disturb each other: in every run of the mixer each peer goes through
      the states of its own calls alone, so what holds of one sender's runs holds here. */
  lemma {:induction false} PeersAreIndependent(calls: seq<Call>, k: string)
    ensures Lookup(MixerRun(calls), k) == Run(Trace(calls, k)).peer
  {
    if calls != [] {
      PeersAreIndependent(calls[..|calls| - 1], k);
      var before, rest := MixerRun(calls[..|calls| - 1]), Trace(calls[..|calls| - 1], k);
      match calls[|calls| - 1]
      case PushCall(uuid, s, payload, ready) => RunSnoc(START, rest, Push(s, payload, ready));
      case MixCall(decoder) => RunSnoc(START, rest, Tick(k in before && Decoded(before, decoder, k).Some?));
      case ResetCall => RunSnoc(START, rest, Clear);
    }
  }

  function Clamp(x: int): Sample {
    if x > 32767 then 32767 else if x < -32768 then -32768 else x
  }

  function Distance(a: int, b: int): nat { if a >= b then a - b else b - a }

  /** Clamping takes the nearest 16-bit sample, so what fits is not changed. */
  lemma ClampIsNearest(x: int, s: Sample)
    ensures -32768 <= x <= 32767 ==> Clamp(x) == x
    ensures Distance(x, Clamp(x)) <= Distance(x, s)
  {}

  /** A peer on its own is heard as decoded, and nothing is heard of one that fails. */
  lemma OnePeerIsHeardAsDecoded(ps: Peers, k: string, decoder: Decoder, i: nat)
    requires ValidPeers(ps) && ps.Keys == {k}
    requires Decoded(ps, decoder, k).Some? ==> i < |Decoded(ps, decoder, k).value|
    ensures Clamp(Sum(Contributions(ps, ps.Keys, decoder, i))) ==
            if Decoded(ps, decoder, k).Some? then Decoded(ps, decoder, k).value[i] else 0
  {
    var terms := Contributions(ps, ps.Keys, decoder, i);
    assert terms - {k} == map[];
    SumTakesAnyFirst(terms, k);
  }

  // ---- One peer's state -------------------------------------------------------

  /** The jitter buffer is a member held by value, so here it is the ring itself. */
  class PeerAudioState {
    var jitterBuffer: Ring
    var lastPlayedSequence: Sequence
    var timeoutCounter: nat
    var isBuffering: bool

    ghost predicate Valid()
      reads this
    {
      WellFormed(jitterBuffer) && !isBuffering
    }

    ghost function Model(): Peer
      reads this
    {
      Peer(jitterBuffer, lastPlayedSequence, timeoutCounter)
    }

    constructor (firstSequence: Sequence)
      ensures Valid() && Model() == NewPeer(firstSequence)
    {
      jitterBuffer := NewRing();
      lastPlayedSequence, timeoutCounter, isBuffering := Pred(firstSequence), 0, false;
    }

    /** Packets already played are dropped before they reach the ring. */
    method Accept(sequenceNumber: Sequence, payload: Payload)
      requires Valid()
      modifies this
      ensures Valid() && Model() == Receive(old(Model()), sequenceNumber, payload)
    {
      if !isBuffering && sequenceNumber <= lastPlayedSequence {
        return;
      }
      jitterBuffer := Put(jitterBuffer, sequenceNumber, payload);
    }

    /** The playback of one frame; the eviction test is the caller's. */
    method PlayFrame(uuid: string, decoder: Decoder) returns (frame: Option<Frame>)
      requires Valid()
      modifies this
      ensures Valid()
      ensures frame == decoder(uuid, Taken(old(jitterBuffer), Succ(old(lastPlayedSequence))))
      ensures Model() == Ticked(old(Model()), frame.Some?)
    {
      var expectedSequence := Succ(lastPlayedSequence);
      var packet := Taken(jitterBuffer, expectedSequence);
      jitterBuffer := Take(jitterBuffer, expectedSequence);
      frame := decoder(uuid, packet);
      if packet.Some? {
        if frame.Some? {
          timeoutCounter := 0;
          lastPlayedSequence := expectedSequence;
        } else {
          timeoutCounter := timeoutCounter + 1;
        }
      } else {
        timeoutCounter := timeoutCounter + 1;
        lastPlayedSequence := expectedSequence;
      }
    }
  }

  // ---- The mixer --------------------------------------------------------------

  class PeerMixer {
    var peerMap: map<string, PeerAudioState>
    ghost var peers: Peers   // the abstract state of every entry
    ghost var Repr: set<PeerAudioState>

    /** No two names share a state. */
    ghost predicate Valid()
      reads this, Repr
    {
      && peers.Keys == peerMap.Keys && ValidPeers(peers)
      && (forall k <- peerMap :: peerMap[k] in Repr && peerMap[k].Valid() && peerMap[k].Model() == peers[k])
      && (forall j <- peerMap, k <- peerMap :: j != k ==> peerMap[j] != peerMap[k])
    }

    constructor ()
      ensures Valid() && Repr == {} && peers == map[]
    {
      peerMap, peers, Repr := map[], map[], {};
    }

    method PushPacket(uuid: string, sequenceNumber: Sequence, payload: Payload, ready: bool)
      requires Valid()
      modifies this, Repr
      ensures Valid() && fresh(Repr - old(Repr))
      ensures peers == Pushed(old(peers), uuid, sequenceNumber, payload, ready)
    {
      if uuid !in peerMap {
        if !ready {
          return;
        }
        AddPeer(uuid, sequenceNumber);
      }
      PushedAfterAdding(old(peers), peers, uuid, sequenceNumber, payload, ready);
      Deliver(uuid, sequenceNumber, payload);
    }

    method Deliver(uuid: string, sequenceNumber: Sequence, payload: Payload)
      requires Valid() && uuid in peerMap
      modifies Repr, this`peers
      ensures Valid()
      ensures peers == old(peers)[uuid := Receive(old(peers)[uuid], sequenceNumber, payload)]
    {
      peerMap[uuid].Accept(sequenceNumber, payload);
      peers := peers[uuid := Receive(peers[uuid], sequenceNumber, payload)];
    }

    method AddPeer(uuid: string, sequenceNumber: Sequence)
      requires Valid() && uuid !in peerMap
      modifies this
      ensures Valid() && Repr >= old(Repr) && fresh(Repr - old(Repr))
      ensures peers == old(peers)[uuid := NewPeer(sequenceNumber)]
    {
      var newState := new PeerAudioState(sequenceNumber);
      peerMap := peerMap[uuid := newState];
      Repr := Repr + {newState};
      peers := peers[uuid := NewPeer(sequenceNumber)];
    }

    method Reset()
      requires Valid()
      modifies this
      ensures Valid() && peers == map[]
    {
      peerMap, peers := map[], map[];
    }

    method MixAudio(outputBuffer: array<Sample>, decoder: Decoder)
      requires Valid() && |peerMap| <= MAX_PEERS
      requires FillsFrames(decoder, outputBuffer.Length)
      modifies this, Repr, outputBuffer
      ensures Valid() && Repr == old(Repr)
      ensures peers == Mixed(old(peers), decoder)
      ensures forall i :: 0 <= i < outputBuffer.Length ==>
                outputBuffer[i] == Clamp(Sum(Contributions(old(peers), old(peers).Keys, decoder, i)))
    {
      var mixBuffer := new int32[outputBuffer.Length](_ => 0);
      assert Accumulated(mixBuffer, peers, {}, decoder);
      MixPeers(mixBuffer, decoder);
      Saturate(mixBuffer, outputBuffer);
    }

    /** The loop over the peers, erasing entries on the way. */
    method MixPeers(mixBuffer: array<int32>, decoder: Decoder)
      requires Valid() && |peerMap| <= MAX_PEERS
      requires FillsFrames(decoder, mixBuffer.Length) && Accumulated(mixBuffer, peers, {}, decoder)
      modifies this, Repr, mixBuffer
      ensures Valid() && Repr == old(Repr)
      ensures peers == Mixed(old(peers), decoder)
      ensures Accumulated(mixBuffer, old(peers), old(peers).Keys, decoder)
    {
      ghost var ps := peers;
      var pending := peerMap.Keys;
      PartlyMixedEnds(ps, decoder);
      assert ps.Keys - pending == {};
      while pending != {}
        invariant MixedSoFar(mixBuffer, ps, pending, decoder) && Repr == old(Repr)
        decreases pending
      {
        var k :| k in pending;
        MixPeer(k, mixBuffer, decoder, ps, pending);
        pending := pending - {k};
      }
      assert ps.Keys - {} == ps.Keys;
    }

    /** The loop's state when `pending` is still to be visited. */
    ghost predicate MixedSoFar(mixBuffer: array<int32>, ps: Peers, pending: set<string>, decoder: Decoder)
      reads this, Repr, mixBuffer
    {
      && Valid() && ValidPeers(ps)
      && pending <= ps.Keys && peers == PartlyMixed(ps, decoder, pending)
      && Accumulated(mixBuffer, ps, ps.Keys - pending, decoder)
    }

    method MixPeer(k: string, mixBuffer: array<int32>, decoder: Decoder, ghost ps: Peers, ghost pending: set<string>)
      requires MixedSoFar(mixBuffer, ps, pending, decoder) && k in pending
      requires FillsFrames(decoder, mixBuffer.Length) && |ps| <= MAX_PEERS
      modifies this, Repr, mixBuffer
      ensures MixedSoFar(mixBuffer, ps, pending - {k}, decoder) && Repr == old(Repr)
    {
      VisitAdvances(ps, decoder, pending, k);
      var frame := VisitPeer(k, decoder);
      AddPeerFrame(mixBuffer, frame, ps, ps.Keys - pending, decoder, k);
      assert ps.Keys - (pending - {k}) == ps.Keys - pending + {k};
    }

    /** One turn of the loop over the peers. */
    method VisitPeer(k: string, decoder: Decoder) returns (frame: Option<Frame>)
      requires Valid() && k in peerMap
      modifies this, Repr
      ensures Valid() && Repr == old(Repr)
      ensures frame == Decoded(old(peers), decoder, k)
      ensures peers == Visit(old(peers), k, frame.Some?)
    {
      var peerState := peerMap[k];
      frame := peerState.PlayFrame(k, decoder);
      if peerState.timeoutCounter >= STALE_TIMEOUT_FRAMES {
        peerMap := peerMap - {k};
        peers := peers - {k};
      } else {
        peers := peers[k := Ticked(peers[k], frame.Some?)];
      }
    }
  }

  ghost function Visit(ps: Peers, k: string, decodes: bool): Peers
    requires ValidPeers(ps) && k in ps
  {
    if Evicted(ps[k], decodes) then ps - {k} else ps[k := Ticked(ps[k], decodes)]
  }

  /** The peers when the loop still has `pending` to visit. */
  ghost function PartlyMixed(ps: Peers, decoder: Decoder, pending: set<string>): Peers
    requires ValidPeers(ps)
  {
    map k | k in ps && (k in pending || !Evicted(ps[k], Decoded(ps, decoder, k).Some?)) ::
      if k in pending then ps[k] else Ticked(ps[k], Decoded(ps, decoder, k).Some?)
  }

  lemma PartlyMixedEnds(ps: Peers, decoder: Decoder)
    requires ValidPeers(ps)
    ensures PartlyMixed(ps, decoder, ps.Keys) == ps
    ensures PartlyMixed(ps, decoder, {}) == Mixed(ps, decoder)
  {}

  lemma VisitAdvances(ps: Peers, decoder: Decoder, pending: set<string>, k: string)
    requires ValidPeers(ps) && k in pending && pending <= ps.Keys
    ensures var now := PartlyMixed(ps, decoder, pending);
            && k in now && Decoded(now, decoder, k) == Decoded(ps, decoder, k)
            && Visit(now, k, Decoded(ps, decoder, k).Some?) == PartlyMixed(ps, decoder, pending - {k})
  {}

  /** The mix buffer holds the exact sums over the visited peers. */
  ghost predicate Accumulated(mixBuffer: array<int32>, ps: Peers, visited: set<string>, decoder: Decoder)
    requires ValidPeers(ps) && visited <= ps.Keys
    reads mixBuffer
  {
    forall i :: 0 <= i < mixBuffer.Length ==> mixBuffer[i] as int == Sum(Contributions(ps, visited, decoder, i))
  }

  method AddPeerFrame(mixBuffer: array<int32>, frame: Option<Frame>,
                      ghost ps: Peers, ghost visited: set<string>, ghost decoder: Decoder, ghost k: string)
    requires ValidPeers(ps) && visited <= ps.Keys && k in ps.Keys - visited && |ps| <= MAX_PEERS
    requires FillsFrames(decoder, mixBuffer.Length) && frame == Decoded(ps, decoder, k)
    requires Accumulated(mixBuffer, ps, visited, decoder)
    modifies mixBuffer
    ensures Accumulated(mixBuffer, ps, visited + {k}, decoder)
  {
    AddVisited(ps, visited, decoder, k, mixBuffer.Length);
    if frame.Some? {
      AddFrame(mixBuffer, frame.value);
    }
  }

  method Saturate(mixBuffer: array<int32>, outputBuffer: array<Sample>)
    requires mixBuffer.Length == outputBuffer.Length && mixBuffer as object != outputBuffer
    modifies outputBuffer
    ensures forall i :: 0 <= i < outputBuffer.Length ==> outputBuffer[i] == Clamp(mixBuffer[i] as int)
  {
    for i := 0 to outputBuffer.Length
      invariant forall j :: 0 <= j < i ==> outputBuffer[j] == Clamp(mixBuffer[j] as int)
    {
      if mixBuffer[i] > 32767 {
        outputBuffer[i] := 32767;
      } else if mixBuffer[i] < -32768 {
        outputBuffer[i] := -32768;
      } else {
        outputBuffer[i] := mixBuffer[i] as int;
      }
    }
  }

  /** Visiting one more peer adds its sample to every sum, and the sums still fit. */
  lemma AddVisited(ps: Peers, visited: set<string>, decoder: Decoder, k: string, samples: nat)
    requires ValidPeers(ps) && visited <= ps.Keys && k in ps.Keys - visited && |ps| <= MAX_PEERS
    requires FillsFrames(decoder, samples)
    ensures forall i :: 0 <= i < samples ==>
              var frame := Decoded(ps, decoder, k);
              var sum := Sum(Contributions(ps, visited + {k}, decoder, i));
              && sum == Sum(Contributions(ps, visited, decoder, i)) + (if frame.Some? then frame.value[i] else 0)
              && FitsInt32(sum)
  {
    forall i | 0 <= i < samples
      ensures var frame := Decoded(ps, decoder, k);
              var sum := Sum(Contributions(ps, visited + {k}, decoder, i));
              && sum == Sum(Contributions(ps, visited, decoder, i)) + (if frame.Some? then frame.value[i] else 0)
              && FitsInt32(sum)
    {
      var terms := Contributions(ps, visited + {k}, decoder, i);
      SumTakesAnyFirst(terms, k);
      assert terms - {k} == Contributions(ps, visited, decoder, i);
      SubsetSize(terms.Keys, ps.Keys);
      SumIsBounded(terms);
    }
  }

  /** The accumulation loop; it cannot overflow where the sums fit. */
  method AddFrame(mixBuffer: array<int32>, frame: Frame)
    requires |frame| == mixBuffer.Length
    requires forall i :: 0 <= i < |frame| ==> -0x8000_0000 <= mixBuffer[i] as int + frame[i] < 0x8000_0000
    modifies mixBuffer
    ensures forall i :: 0 <= i < |frame| ==> mixBuffer[i] as int == old(mixBuffer[i]) as int + frame[i]
  {
    for i := 0 to |frame|
      invariant forall j :: 0 <= j < i ==> mixBuffer[j] as int == old(mixBuffer[j]) as int + frame[j]
      invariant forall j :: i <= j < |frame| ==> mixBuffer[j] == old(mixBuffer[j])
    {
      mixBuffer[i] := mixBuffer[i] + frame[i] as int32;
    }
  }
}
