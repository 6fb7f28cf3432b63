/** What the two reassembly buffers keep of any arrivals, also of contradictory ones (protocol/voice_transport.py, native/include/voice_chunker.h). */
module Receptions {
  import opened Bytes
  import opened Voice
  import opened VoiceReassembly
  import opened NativeVoice
  import opened NativeReassembly
  import VoiceOctets

  // ----- The Python buffer -----

  predicate IsOwn(arrivals: seq<Arrival>, messageId: int, i: nat)
    requires i < |arrivals|
  {
    arrivals[i].chunk.messageId == messageId
  }

  predicate MarksEnd(arrivals: seq<Arrival>, messageId: int, i: nat)
    requires i < |arrivals|
  {
    IsOwn(arrivals, messageId, i) && arrivals[i].chunk.flags & 2 != 0
  }

  predicate HasNumber(arrivals: seq<Arrival>, messageId: int, i: nat, k: nat)
    requires i < |arrivals|
  {
    IsOwn(arrivals, messageId, i) && arrivals[i].chunk.sequence == k
  }

  lemma {:induction false} OthersAreIgnored(arrivals: seq<Arrival>, messageId: int)
    requires forall i | 0 <= i < |arrivals| :: !IsOwn(arrivals, messageId, i)
    ensures Receive(Empty(messageId), arrivals) == Empty(messageId)
    decreases arrivals
  {
    if arrivals != [] {
      var n := |arrivals| - 1;
      assert !IsOwn(arrivals, messageId, n);
      assert forall i | 0 <= i < n :: IsOwn(arrivals[..n], messageId, i) == IsOwn(arrivals, messageId, i);
      OthersAreIgnored(arrivals[..n], messageId);
    }
  }

  lemma {:induction false} KeepsNumber(arrivals: seq<Arrival>, messageId: int)
    ensures Receive(Empty(messageId), arrivals).messageId == messageId
    decreases arrivals
  {
    if arrivals != [] {
      KeepsNumber(arrivals[..|arrivals| - 1], messageId);
    }
  }

  /** Of two chunks with one number the later stays, and so does the later mark and the later mode; the first arrival gives the first time. */
  lemma {:induction false} LatestStays(arrivals: seq<Arrival>, messageId: int, i: nat)
    requires i < |arrivals| && IsOwn(arrivals, messageId, i)
    ensures var b, a := Receive(Empty(messageId), arrivals), arrivals[i];
      && ((forall j | i < j < |arrivals| :: !HasNumber(arrivals, messageId, j, a.chunk.sequence)) ==>
            a.chunk.sequence in b.chunks && b.chunks[a.chunk.sequence] == a.chunk)
      && (MarksEnd(arrivals, messageId, i) && (forall j | i < j < |arrivals| :: !MarksEnd(arrivals, messageId, j)) ==>
            b.expectedTotal == Some(a.chunk.sequence + 1))
      && ((forall j | i < j < |arrivals| :: !IsOwn(arrivals, messageId, j)) ==> b.mode == Some(a.chunk.mode) && b.lastReceivedAt == a.at)
      && ((forall j | 0 <= j < i :: !IsOwn(arrivals, messageId, j)) && a.at != 0.0 ==> b.firstReceivedAt == a.at)
    decreases arrivals
  {
    var n := |arrivals| - 1;
    var earlier := arrivals[..n];
    KeepsNumber(earlier, messageId);
    assert forall j | 0 <= j < n :: IsOwn(earlier, messageId, j) == IsOwn(arrivals, messageId, j);
    assert forall j | 0 <= j < n :: MarksEnd(earlier, messageId, j) == MarksEnd(arrivals, messageId, j);
    assert forall j | 0 <= j < n :: HasNumber(earlier, messageId, j, arrivals[i].chunk.sequence) == HasNumber(arrivals, messageId, j, arrivals[i].chunk.sequence);
    if i < n {
      LatestStays(earlier, messageId, i);
      assert IsOwn(arrivals, messageId, n) == (arrivals[n].chunk.messageId == messageId);
      assert MarksEnd(arrivals, messageId, n) || !IsOwn(arrivals, messageId, n) || !arrivals[n].chunk.IsLast();
      assert HasNumber(arrivals, messageId, n, arrivals[i].chunk.sequence) || !IsOwn(arrivals, messageId, n) || arrivals[n].chunk.sequence != arrivals[i].chunk.sequence;
    } else if forall j | 0 <= j < i :: !IsOwn(arrivals, messageId, j) {
      OthersAreIgnored(earlier, messageId);
    }
  }

  // ----- The C buffer -----

  /** A voice datagram of this message, short enough and numbered below 128. */
  predicate Taken(datagrams: seq<Datagram>, messageId: nat, i: nat)
    requires i < |datagrams|
  {
    var data := datagrams[i].data;
    && 10 <= |data| <= 80 && data[0] == 0x56 && data[1] == 0x4D
    && Be32Value(data[2..6]) == messageId && Be16Value(data[6..8]) < 128
  }

  function NumberAt(datagrams: seq<Datagram>, i: nat): nat
    requires i < |datagrams| && |datagrams[i].data| >= 8
  {
    Be16Value(datagrams[i].data[6..8])
  }

  /** Brings a number that none before it brought. */
  predicate IsNew(datagrams: seq<Datagram>, messageId: nat, i: nat)
    requires i < |datagrams|
  {
    Taken(datagrams, messageId, i) && forall j | 0 <= j < i && Taken(datagrams, messageId, j) :: NumberAt(datagrams, j) != NumberAt(datagrams, i)
  }

  lemma TakenIff(datagrams: seq<Datagram>, messageId: nat, i: nat)
    requires i < |datagrams|
    ensures Taken(datagrams, messageId, i) <==> !Refused(datagrams[i].data, messageId)
  {
    var data := datagrams[i].data;
    hide Be16Value, Be32Value;
    if |data| >= 10 { VoiceOctets.Magic(data); }
  }

  lemma {:induction false} NativeNumber(datagrams: seq<Datagram>, messageId: nat)
    ensures NativeReceive(EmptyNative(messageId), datagrams).messageId == messageId
    decreases datagrams
  {
    if datagrams != [] {
      NativeNumber(datagrams[..|datagrams| - 1], messageId);
    }
  }

  /** Only what arrived is stored. */
  lemma {:induction false} StoredArrived(datagrams: seq<Datagram>, messageId: nat, k: nat)
    requires forall i | 0 <= i < |datagrams| && Taken(datagrams, messageId, i) :: NumberAt(datagrams, i) != k
    ensures k !in NativeReceive(EmptyNative(messageId), datagrams).stored
    decreases datagrams
  {
    if datagrams != [] {
      var n := |datagrams| - 1;
      NativeNumber(datagrams[..n], messageId);
      TakenIff(datagrams, messageId, n);
      assert forall i | 0 <= i < n :: Taken(datagrams[..n], messageId, i) == Taken(datagrams, messageId, i);
      assert forall i | 0 <= i < n && Taken(datagrams, messageId, i) :: NumberAt(datagrams[..n], i) == NumberAt(datagrams, i);
      StoredArrived(datagrams[..n], messageId, k);
      hide Refused;
    }
  }

  /** Of two datagrams with one number the earlier stays. */
  lemma {:induction false} FirstStays(datagrams: seq<Datagram>, messageId: nat, i: nat)
    requires i < |datagrams| && IsNew(datagrams, messageId, i)
    ensures var b, k := NativeReceive(EmptyNative(messageId), datagrams), NumberAt(datagrams, i);
      k in b.stored && b.stored[k] == datagrams[i].data[10..]
    decreases datagrams
  {
    var n := |datagrams| - 1;
    NativeNumber(datagrams[..n], messageId);
    TakenIff(datagrams, messageId, n);
    assert forall j | 0 <= j < n :: Taken(datagrams[..n], messageId, j) == Taken(datagrams, messageId, j);
    assert forall j | 0 <= j < n && Taken(datagrams, messageId, j) :: NumberAt(datagrams[..n], j) == NumberAt(datagrams, j);
    if i < n {
      FirstStays(datagrams[..n], messageId, i);
    } else {
      StoredArrived(datagrams[..n], messageId, NumberAt(datagrams, i));
    }
    hide Refused, Taken;
  }

  /** What was taken is stored from then on. */
  lemma {:induction false} TakenIsStored(datagrams: seq<Datagram>, messageId: nat, i: nat)
    requires i < |datagrams| && Taken(datagrams, messageId, i)
    ensures NumberAt(datagrams, i) in NativeReceive(EmptyNative(messageId), datagrams).stored
    decreases datagrams
  {
    var n := |datagrams| - 1;
    NativeNumber(datagrams[..n], messageId);
    TakenIff(datagrams, messageId, n);
    if i < n {
      assert Taken(datagrams[..n], messageId, i) && NumberAt(datagrams[..n], i) == NumberAt(datagrams, i);
      TakenIsStored(datagrams[..n], messageId, i);
    }
    hide Refused, Taken;
  }

  lemma NewInPrefix(datagrams: seq<Datagram>, messageId: nat, n: nat)
    requires n <= |datagrams|
    ensures forall i | 0 <= i < n :: IsNew(datagrams[..n], messageId, i) == IsNew(datagrams, messageId, i)
  {
    assert forall j | 0 <= j < n :: Taken(datagrams[..n], messageId, j) == Taken(datagrams, messageId, j);
    assert forall j | 0 <= j < n && Taken(datagrams, messageId, j) :: NumberAt(datagrams[..n], j) == NumberAt(datagrams, j);
    hide Taken;
  }

  /** A datagram that brings nothing new changes neither times nor mode. */
  lemma OldChangesNothing(datagrams: seq<Datagram>, messageId: nat)
    requires datagrams != [] && !IsNew(datagrams, messageId, |datagrams| - 1)
    ensures var b, earlier := NativeReceive(EmptyNative(messageId), datagrams), NativeReceive(EmptyNative(messageId), datagrams[..|datagrams| - 1]);
      b.mode == earlier.mode && b.firstMs == earlier.firstMs && b.lastMs == earlier.lastMs
  {
    var n := |datagrams| - 1;
    NativeNumber(datagrams[..n], messageId);
    TakenIff(datagrams, messageId, n);
    if Taken(datagrams, messageId, n) {
      var j :| 0 <= j < n && Taken(datagrams, messageId, j) && NumberAt(datagrams, j) == NumberAt(datagrams, n);
      assert Taken(datagrams[..n], messageId, j) && NumberAt(datagrams[..n], j) == NumberAt(datagrams, j);
      TakenIsStored(datagrams[..n], messageId, j);
    }
    hide Refused, Taken;
  }

  /** The last datagram with something new gives mode and last time, and the first taken at all the first time. */
  lemma {:induction false} NewGivesTimes(datagrams: seq<Datagram>, messageId: nat, i: nat)
    requires i < |datagrams| && IsNew(datagrams, messageId, i)
    ensures var b := NativeReceive(EmptyNative(messageId), datagrams);
      && ((forall j | i < j < |datagrams| :: !IsNew(datagrams, messageId, j)) ==>
            b.mode == datagrams[i].data[9] && b.lastMs == Milliseconds(datagrams[i].at))
      && ((forall j | 0 <= j < i :: !IsNew(datagrams, messageId, j)) && Milliseconds(datagrams[i].at) != 0 ==>
            b.firstMs == Milliseconds(datagrams[i].at))
    decreases datagrams
  {
    var n := |datagrams| - 1;
    NewInPrefix(datagrams, messageId, n);
    NativeNumber(datagrams[..n], messageId);
    TakenIff(datagrams, messageId, n);
    if i < n {
      NewGivesTimes(datagrams[..n], messageId, i);
      if IsNew(datagrams, messageId, n) {
        FirstTimeStays(NativeReceive(EmptyNative(messageId), datagrams[..n]), datagrams[n]);
      } else {
        OldChangesNothing(datagrams, messageId);
      }
    } else {
      assert forall j | 0 <= j < n && Taken(datagrams, messageId, j) ::
        Taken(datagrams[..n], messageId, j) && NumberAt(datagrams[..n], j) == NumberAt(datagrams, j);
      StoredArrived(datagrams[..n], messageId, NumberAt(datagrams, n));
      if forall j | 0 <= j < i :: !IsNew(datagrams, messageId, j) {
        NothingNew(datagrams[..n], messageId);
      }
    }
    hide Refused, Taken, IsNew;
  }

  lemma FirstTimeStays(b: NativeBuffer, d: Datagram)
    ensures b.firstMs != 0 ==> NativeAdded(b, d.data, Milliseconds(d.at)).firstMs == b.firstMs
  {
    hide Refused;
  }

  lemma {:induction false} NothingNew(datagrams: seq<Datagram>, messageId: nat)
    requires forall j | 0 <= j < |datagrams| :: !IsNew(datagrams, messageId, j)
    ensures NativeReceive(EmptyNative(messageId), datagrams).firstMs == 0
    decreases datagrams
  {
    if datagrams != [] {
      var n := |datagrams| - 1;
      NewInPrefix(datagrams, messageId, n);
      hide IsNew;
      NothingNew(datagrams[..n], messageId);
      OldChangesNothing(datagrams, messageId);
    }
  }
}
