/** The 50-slot packet ring of one voice peer (include/Utils/JitterBuffer.hpp, as
    instantiated in include/Audio/PeerMixer.hpp). */
module JitterBuffering {
  import opened Basics

  const CAPACITY := 50
  const MAX_PACKET_SIZE := 4000
  const WORD := 0x1_0000_0000

  type Sequence = x: int | 0 <= x < WORD
  type Payload = seq<byte>

  /** uint32_t arithmetic wraps. */
  function Succ(s: Sequence): Sequence { if s == WORD - 1 then 0 else s + 1 }
  function Pred(s: Sequence): Sequence { if s == 0 then WORD - 1 else s - 1 }

  /** Slot i holds sequence number numbers[i] with bytes payloads[i]; number 0 marks the
      slot empty, and read head 0 means nothing was ever taken. */
  datatype Ring = Ring(numbers: seq<Sequence>, payloads: seq<Payload>, readHead: Sequence)

  ghost predicate WellFormed(r: Ring) {
    |r.numbers| == |r.payloads| == CAPACITY
  }

  function NewRing(): Ring { Ring(seq(CAPACITY, _ => 0), seq(CAPACITY, _ => []), 0) }

  ghost predicate IsEmpty(r: Ring) {
    && WellFormed(r) && r.readHead == 0
    && (forall i :: 0 <= i < CAPACITY ==> r.numbers[i] == 0)
  }

  /** Numbers share a slot exactly when they are a multiple of 50 apart. */
  lemma SlotsAre50Apart(s: Sequence, t: Sequence)
    ensures s % CAPACITY == t % CAPACITY <==> (s - t) % 50 == 0
  {}

  predicate Acceptable(r: Ring, s: Sequence, payload: Payload) {
    && 0 < |payload| <= MAX_PACKET_SIZE
    && !(r.readHead > 0 && s < r.readHead)
  }

  function Put(r: Ring, s: Sequence, payload: Payload): (r': Ring)
    requires WellFormed(r)
    ensures WellFormed(r')
  {
    if Acceptable(r, s, payload)
    then r.(numbers := r.numbers[s % CAPACITY := s], payloads := r.payloads[s % CAPACITY := payload])
    else r
  }

  predicate Holds(r: Ring, expected: Sequence)
    requires WellFormed(r)
  {
    r.numbers[expected % CAPACITY] == expected
  }

  function Take(r: Ring, expected: Sequence): (r': Ring)
    requires WellFormed(r)
    ensures WellFormed(r')
  {
    if Holds(r, expected)
    then r.(numbers := r.numbers[expected % CAPACITY := 0], readHead := Succ(expected))
    else r
  }

  function Taken(r: Ring, expected: Sequence): Option<Payload>
    requires WellFormed(r)
  {
    if Holds(r, expected) then Some(r.payloads[expected % CAPACITY]) else None
  }

  /** A packet of 1 to 4000 bytes whose number is not below the read head is stored; any other
      leaves its slot as it was. */
  lemma StoredFrom1To4000Bytes(r: Ring, s: Sequence, payload: Payload)
    requires WellFormed(r)
    ensures Taken(Put(r, s, payload), s) ==
            if 1 <= |payload| <= 4000 && s >= r.readHead then Some(payload) else Taken(r, s)
  {}

  class JitterBuffer {
    const buffer: array2<byte>
    const sequenceTracker: array<Sequence>
    const packetSizes: array<nat>
    var readHead: Sequence

    ghost var contents: Ring
    ghost const Repr: set<object>

    ghost predicate Valid()
      reads this, Repr
    {
      && Repr == {this, buffer, sequenceTracker, packetSizes}
      && sequenceTracker as object != packetSizes
      && buffer.Length0 == sequenceTracker.Length == packetSizes.Length == CAPACITY
      && buffer.Length1 == MAX_PACKET_SIZE
      && WellFormed(contents)
      && contents.numbers == sequenceTracker[..] && contents.readHead == readHead
      && (forall i :: 0 <= i < CAPACITY ==> |contents.payloads[i]| == packetSizes[i] <= MAX_PACKET_SIZE)
      && (forall i, j :: 0 <= i < CAPACITY && 0 <= j < packetSizes[i] ==> contents.payloads[i][j] == buffer[i, j])
    }

    constructor ()
      ensures Valid() && fresh(Repr)
      ensures contents == NewRing()
    {
      buffer := new byte[CAPACITY, MAX_PACKET_SIZE];
      sequenceTracker := new Sequence[CAPACITY](_ => 0);
      packetSizes := new nat[CAPACITY](_ => 0);
      readHead := 0;
      contents := NewRing();
      Repr := {this, buffer, sequenceTracker, packetSizes};
    }

    method Push(sequence: Sequence, payload: Payload)
      requires Valid()
      modifies Repr
      ensures Valid() && contents == Put(old(contents), sequence, payload)
    {
      if |payload| > MAX_PACKET_SIZE || |payload| == 0 {
        return;
      }
      var currentReadHead := readHead;
      if currentReadHead > 0 && sequence < currentReadHead {
        return;
      }
      var slotIndex := sequence % CAPACITY;
      forall j | 0 <= j < |payload| {
        buffer[slotIndex, j] := payload[j];
      }
      packetSizes[slotIndex] := |payload|;
      sequenceTracker[slotIndex] := sequence;
      contents := Put(contents, sequence, payload);
    }

    method Pop(expectedSequence: Sequence) returns (outPayload: Option<Payload>)
      requires Valid()
      modifies Repr
      ensures Valid() && contents == Take(old(contents), expectedSequence)
      ensures outPayload == Taken(old(contents), expectedSequence)
    {
      var slotIndex := expectedSequence % CAPACITY;
      var storedSequence := sequenceTracker[slotIndex];
      if storedSequence == expectedSequence {
        var bytes := [];
        for j := 0 to packetSizes[slotIndex]
          invariant bytes == contents.payloads[slotIndex][..j]
        {
          bytes := bytes + [buffer[slotIndex, j]];
        }
        assert bytes == contents.payloads[slotIndex];
        outPayload := Some(bytes);
        sequenceTracker[slotIndex] := 0;
        readHead := Succ(expectedSequence);
        contents := Take(contents, expectedSequence);
      } else {
        outPayload := None;
      }
    }

    method Reset()
      requires Valid()
      modifies Repr
      ensures Valid() && IsEmpty(contents) && contents.payloads == old(contents).payloads
    {
      readHead := 0;
      contents := contents.(readHead := 0);
      for index := 0 to CAPACITY
        invariant Valid() && readHead == 0 && contents.payloads == old(contents).payloads
        invariant forall i :: 0 <= i < index ==> contents.numbers[i] == 0
      {
        sequenceTracker[index] := 0;
        contents := contents.(numbers := contents.numbers[index := 0]);
      }
    }
  }
}
