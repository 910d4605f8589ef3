/** What a node reassembles over a whole run of interleaved fragments. */
module ReassemblyStreams {
  import opened Sequences
  import opened Packets
  import opened Reassembly

  /** The bytes held for each slot, and the headers queued so far, each with the uid it came in. */
  datatype Stream = Stream(residue: map<Slot, seq<Byte>>, queued: seq<(nat, Header)>)

  function Tagged(uid: nat, headers: seq<Header>): seq<(nat, Header)> {
    if headers == [] then [] else Tagged(uid, headers[..|headers| - 1]) + [(uid, headers[|headers| - 1])]
  }

  /** One arrival: EnqueuePacket is proved against the same two functions. */
  function Arrive(s: Stream, f: Fragment): Stream
    requires f.Valid()
  {
    Stream(Stored(s.residue, f.uid, f.Chunk()), s.queued + Tagged(f.uid, Completed(s.residue, f.uid, f.Chunk())))
  }

  function ArriveAll(fs: seq<Fragment>): Stream
    requires forall f :: f in fs ==> f.Valid()
  {
    if fs == [] then Stream(map[], []) else Arrive(ArriveAll(fs[..|fs| - 1]), fs[|fs| - 1])
  }

  /** The headers queued for one uid, in queue order. */
  function QueuedFor(queued: seq<(nat, Header)>, uid: nat): seq<Header> {
    if queued == [] then []
    else
      var (from, header) := queued[|queued| - 1];
      QueuedFor(queued[..|queued| - 1], uid) + (if from == uid then [header] else [])
  }

  /** The bytes that arrived for one uid, in order of arrival. */
  function BytesFor(fs: seq<Fragment>, uid: nat): seq<Byte>
    requires forall f :: f in fs ==> f.Valid()
  {
    if fs == [] then []
    else
      var f := fs[|fs| - 1];
      BytesFor(fs[..|fs| - 1], uid) + (if f.uid == uid then f.Chunk() else [])
  }

  lemma QueuedForSnoc(queued: seq<(nat, Header)>, item: (nat, Header), uid: nat)
    ensures QueuedFor(queued + [item], uid) == QueuedFor(queued, uid) + (if item.0 == uid then [item.1] else [])
  {
    assert (queued + [item])[..|queued|] == queued;
  }

  lemma {:induction false} QueuedForTagged(queued: seq<(nat, Header)>, from: nat, headers: seq<Header>, uid: nat)
    ensures QueuedFor(queued + Tagged(from, headers), uid)
      == QueuedFor(queued, uid) + (if from == uid then headers else [])
  {
    var n := |headers|;
    if n == 0 {
      assert queued + Tagged(from, headers) == queued;
    } else {
      var shorter, last := headers[..n - 1], headers[n - 1];
      QueuedForTagged(queued, from, shorter, uid);
      Associative(queued, Tagged(from, shorter), [(from, last)]);
      QueuedForSnoc(queued + Tagged(from, shorter), (from, last), uid);
      if from == uid {
        Associative(QueuedFor(queued, uid), shorter, [last]);
        assert headers == shorter + [last];
      }
    }
  }

  /** One arrival keeps what a uid has queued and holds in step with its bytes, if no other uid has its slot. */
  lemma ArriveKeepsUp(s: Stream, f: Fragment, uid: nat, bytes: seq<Byte>)
    requires f.Valid() && uid < KEY_RANGE && (SlotOf(f.uid) == SlotOf(uid) ==> f.uid == uid)
    requires QueuedFor(s.queued, uid) == Headers(bytes) && Held(s.residue, uid) == Residue(bytes)
    ensures var all := if f.uid == uid then bytes + f.Chunk() else bytes;
      QueuedFor(Arrive(s, f).queued, uid) == Headers(all) && Held(Arrive(s, f).residue, uid) == Residue(all)
  {
    var done := Completed(s.residue, f.uid, f.Chunk());
    QueuedForTagged(s.queued, f.uid, done, uid);
    if f.uid == uid {
      SplitResumes(bytes, f.Chunk());
      assert done == Headers(Residue(bytes) + f.Chunk());
    } else {
      assert SlotOf(f.uid) != SlotOf(uid);
    }
  }

  /** The uid fits the table's keys, and no other uid that arrives has its slot. */
  predicate Alone(fs: seq<Fragment>, uid: nat) {
    uid < KEY_RANGE && forall f :: f in fs && SlotOf(f.uid) == SlotOf(uid) ==> f.uid == uid
  }

  /**
   * At every moment of every run, whatever the interleaving and whatever uids share a bucket, a uid that is alone in
   * its slot has queued exactly the whole records among its own bytes and holds exactly the rest.
   */
  lemma {:induction false} StreamsAreIndependent(fs: seq<Fragment>, uid: nat)
    requires (forall f :: f in fs ==> f.Valid()) && Alone(fs, uid)
    ensures QueuedFor(ArriveAll(fs).queued, uid) == Headers(BytesFor(fs, uid))
    ensures Held(ArriveAll(fs).residue, uid) == Residue(BytesFor(fs, uid))
  {
    if fs != [] {
      var before, f := fs[..|fs| - 1], fs[|fs| - 1];
      assert f in fs;
      StreamsAreIndependent(before, uid);
      ArriveKeepsUp(ArriveAll(before), f, uid, BytesFor(before, uid));
      assert ArriveAll(fs) == Arrive(ArriveAll(before), f);
      assert BytesFor(fs, uid) == if f.uid == uid then BytesFor(before, uid) + f.Chunk() else BytesFor(before, uid);
    }
  }

  /** The fragments of one packet: a UDP header and the serialized records, cut at arbitrary points. */
  ghost predicate IsCutOf(fs: seq<Fragment>, bytes: seq<Byte>) {
    && fs != [] && fs[0].offset == 0 && |fs[0].data| >= 8
    && (forall i :: 0 < i < |fs| ==> fs[i].offset != 0)
    && Flatten(Data(fs)) == fs[0].data[..8] + bytes
  }

  function Data(fs: seq<Fragment>): seq<seq<Byte>> {
    seq(|fs|, i requires 0 <= i < |fs| => fs[i].data)
  }

  function Of(fs: seq<Fragment>, uid: nat): seq<Fragment> {
    Filter(fs, (f: Fragment) => f.uid == uid)
  }

  /** Without the UDP header, the bytes of a uid are its fragments put together. */
  lemma {:induction false} BytesForLater(fs: seq<Fragment>, uid: nat)
    requires forall f :: f in fs ==> f.Valid()
    requires forall f :: f in Of(fs, uid) ==> f.offset != 0
    ensures BytesFor(fs, uid) == Flatten(Data(Of(fs, uid)))
  {
    if fs != [] {
      var before, f := fs[..|fs| - 1], fs[|fs| - 1];
      OfSnoc(before, f, uid);
      assert fs == before + [f];
      BytesForLater(before, uid);
    }
  }

  lemma OfSnoc(before: seq<Fragment>, f: Fragment, uid: nat)
    ensures Of(before + [f], uid) == Of(before, uid) + (if f.uid == uid then [f] else [])
    ensures Flatten(Data(Of(before + [f], uid)))
      == Flatten(Data(Of(before, uid))) + (if f.uid == uid then f.data else [])
  {
    FilterAppend(before, [f], (g: Fragment) => g.uid == uid);
    assert Filter([f], (g: Fragment) => g.uid == uid) == if f.uid == uid then [f] else [];
    if f.uid == uid {
      assert Data(Of(before, uid) + [f]) == Data(Of(before, uid)) + [f.data];
      FlattenAppend(Data(Of(before, uid)), [f.data]);
      assert Flatten([f.data]) == f.data;
    } else {
      assert Of(before + [f], uid) == Of(before, uid);
    }
  }

  lemma {:induction false} BytesForCut(fs: seq<Fragment>, uid: nat, bytes: seq<Byte>)
    requires forall f :: f in fs ==> f.Valid()
    requires IsCutOf(Of(fs, uid), bytes)
    ensures BytesFor(fs, uid) == bytes
  {
    var before, f := fs[..|fs| - 1], fs[|fs| - 1];
    assert fs == before + [f];
    OfSnoc(before, f, uid);
    var mine := Of(before, uid);
    if f.uid != uid {
      assert mine == Of(fs, uid);
      BytesForCut(before, uid, bytes);
    } else if mine == [] {
      BytesForLater(before, uid);
      assert Of(fs, uid) == [f] && Flatten(Data(Of(fs, uid))) == f.data;
      assert bytes == f.data[UDP_HEADER_SIZE..];
    } else {
      assert Of(fs, uid) == mine + [f];
      var shorter := CutShortens(mine, f, bytes);
      BytesForCut(before, uid, shorter);
    }
  }

  lemma CutShortens(mine: seq<Fragment>, f: Fragment, bytes: seq<Byte>) returns (shorter: seq<Byte>)
    requires mine != [] && IsCutOf(mine + [f], bytes)
    ensures f.offset != 0 && IsCutOf(mine, shorter) && bytes == shorter + f.data
  {
    var all := mine + [f];
    assert f == all[|mine|] && mine[0] == all[0];
    assert forall i :: 0 < i < |mine| ==> mine[i] == all[i];
    assert Data(all) == Data(mine) + [f.data];
    FlattenAppend(Data(mine), [f.data]);
    assert Flatten([f.data]) == f.data;
    assert Flatten(Data(mine)) == mine[0].data + Flatten(Data(mine)[1..]);
    shorter := Flatten(Data(mine))[UDP_HEADER_SIZE..];
    assert bytes == Flatten(Data(all))[UDP_HEADER_SIZE..];
  }

  /** The records queued for a uid carry exactly the headers of the given ones, in order, and nothing is left over. */
  predicate Reassembled(fs: seq<Fragment>, uid: nat, records: seq<Record>)
    requires forall f :: f in fs ==> f.Valid()
  {
    QueuedFor(ArriveAll(fs).queued, uid) == HeadersOf(records) && Held(ArriveAll(fs).residue, uid) == []
  }

  /** Among the fragments that arrive are those of one packet, which carries the given records. */
  ghost predicate Carries(fs: seq<Fragment>, uid: nat, records: seq<Record>) {
    && (forall f :: f in fs ==> f.Valid())
    && (forall r :: r in records ==> r.Valid())
    && IsCutOf(Of(fs, uid), Serialize(records))
  }

  /**
   * The reassembly round trip. Take any packets whose distinct uids fit the keys, each the serialization of some
   * records. However each is cut into fragments, and however the fragments of different packets interleave, the
   * records queued for each uid carry exactly that packet's headers, in order, and nothing of it is left over.
   */
  lemma ReassemblyRoundTrip(fs: seq<Fragment>, sent: map<nat, seq<Record>>)
    requires forall f :: f in fs ==> f.Valid() && f.uid < KEY_RANGE
    requires forall u :: u in sent ==> u < KEY_RANGE && Carries(fs, u, sent[u])
    ensures forall u :: u in sent ==> Reassembled(fs, u, sent[u])
  {
    forall u | u in sent ensures Reassembled(fs, u, sent[u]) {
      NarrowIsAlone(fs, u);
      AloneReassembled(fs, u, sent[u]);
    }
  }

  lemma NarrowIsAlone(fs: seq<Fragment>, uid: nat)
    requires uid < KEY_RANGE && forall f :: f in fs ==> f.uid < KEY_RANGE
    ensures Alone(fs, uid)
  {
    forall f | f in fs && SlotOf(f.uid) == SlotOf(uid) ensures f.uid == uid {
      NarrowKey(f.uid);
      NarrowKey(uid);
    }
  }

  lemma AloneReassembled(fs: seq<Fragment>, uid: nat, records: seq<Record>)
    requires Carries(fs, uid, records) && Alone(fs, uid)
    ensures Reassembled(fs, uid, records)
  {
    BytesForCut(fs, uid, Serialize(records));
    StreamsAreIndependent(fs, uid);
    SerializeSplits(records);
  }

  // ---- Which packets are reassembled ----

  /** A packet of uid is reassembled in every run in which all other uids are among the allowed ones. */
  ghost predicate AlwaysReassembled(uid: nat, allowed: nat -> bool) {
    forall fs, records :: Carries(fs, uid, records) && Among(fs, uid, allowed) ==> Reassembled(fs, uid, records)
  }

  predicate Among(fs: seq<Fragment>, uid: nat, allowed: nat -> bool) {
    forall f :: f in fs && f.uid != uid ==> allowed(f.uid)
  }

  /** No other allowed uid has the slot of uid. */
  ghost predicate NoneShares(uid: nat, allowed: nat -> bool) {
    forall v: nat :: allowed(v) && v % 1021 == uid % 1021 && v % 0x1_0000_0000 == uid % 0x1_0000_0000 ==> v == uid
  }

  /**
   * Exactly when reassembly works: a packet is reassembled in every run with the allowed uids if and only if its own
   * uid fits the 32-bit keys and no other allowed uid has its bucket and its key.
   */
  lemma ReassembledIff(uid: nat, allowed: nat -> bool)
    ensures AlwaysReassembled(uid, allowed) <==> uid < 0x1_0000_0000 && NoneShares(uid, allowed)
  {
    if uid >= KEY_RANGE {
      var fs, records := WideLoses(uid);
      assert Among(fs, uid, allowed);
    } else if !NoneShares(uid, allowed) {
      var v :| allowed(v) && SlotOf(v) == SlotOf(uid) && v != uid;
      var fs, records := SharedSlotMixes(uid, v);
      assert Among(fs, uid, allowed);
    } else {
      forall fs, records | Carries(fs, uid, records) && Among(fs, uid, allowed)
        ensures Reassembled(fs, uid, records)
      {
        AloneReassembled(fs, uid, records);
      }
    }
  }

  function Below(bound: nat): nat -> bool {
    (v: nat) => v < bound
  }

  ghost predicate AllReassembledBelow(bound: nat) {
    forall uid: nat :: uid < bound ==> AlwaysReassembled(uid, Below(bound))
  }

  lemma NarrowSlots(uid: nat, bound: nat)
    requires uid < bound <= KEY_RANGE
    ensures NoneShares(uid, Below(bound))
  {
    forall v: nat | Below(bound)(v) && SlotOf(v) == SlotOf(uid) ensures v == uid {
      NarrowKey(uid);
      NarrowKey(v);
    }
  }

  /** With all uids below a bound, every packet is reassembled in every run if and only if the bound fits the keys. */
  lemma ReassembledBelowIff(bound: nat)
    ensures AllReassembledBelow(bound) <==> bound <= 0x1_0000_0000
  {
    if bound > KEY_RANGE {
      ReassembledIff(KEY_RANGE, Below(bound));
    } else {
      forall uid: nat | uid < bound ensures AlwaysReassembled(uid, Below(bound)) {
        NarrowSlots(uid, bound);
        ReassembledIff(uid, Below(bound));
      }
    }
  }

  function Bytes(n: nat, b: Byte): (s: seq<Byte>)
    ensures |s| == n
  {
    seq(n, _ => b)
  }

  /** A record whose header is all ones. */
  const ONES := Record(Bytes(HEADER_SIZE, 1), Bytes(PAYLOAD_SIZE, 1))

  lemma OnesAlone()
    ensures Serialize([ONES]) == ONES.header + ONES.payload && HeadersOf([ONES]) == [ONES.header]
    ensures |Serialize([ONES])| == RECORD_SIZE
  {
    assert [ONES][1..] == [];
  }

  /** The second half of a packet never finds the first one if the uid does not fit the key. */
  lemma WideLoses(uid: nat) returns (fs: seq<Fragment>, records: seq<Record>)
    requires uid >= KEY_RANGE
    ensures Carries(fs, uid, records) && !Reassembled(fs, uid, records) && forall f :: f in fs ==> f.uid == uid
  {
    OnesAlone();
    records := [ONES];
    var bytes, udp, half := Serialize(records), Bytes(UDP_HEADER_SIZE, 0), 24;
    var f1, f2 := Fragment(uid, 0, udp + bytes[..half]), Fragment(uid, UDP_HEADER_SIZE + half, bytes[half..]);
    fs := [f1, f2];
    TwoOfUid(f1, f2);
    assert IsCutOf(fs, bytes) by {
      assert f1.data + f2.data == udp + bytes;
      assert f1.data[..UDP_HEADER_SIZE] == udp;
    }
    TwoArrive(f1, f2);
    QueuesNothing(Stream(map[], []), f1);
    QueuesNothing(ArriveAll([f1]), f2);
  }

  lemma TwoArrive(f1: Fragment, f2: Fragment)
    requires f1.Valid() && f2.Valid()
    ensures ArriveAll([f1]) == Arrive(Stream(map[], []), f1)
    ensures ArriveAll([f1, f2]) == Arrive(ArriveAll([f1]), f2)
  {
    assert [f1][..0] == [] && [f1, f2][..1] == [f1];
  }

  lemma QueuesNothing(s: Stream, f: Fragment)
    requires f.Valid() && f.uid >= KEY_RANGE && |f.Chunk()| < RECORD_SIZE
    ensures Arrive(s, f).queued == s.queued
  {
    assert Held(s.residue, f.uid) + f.Chunk() == f.Chunk();
  }

  lemma TwoOfUid(f1: Fragment, f2: Fragment)
    ensures Of([f1, f2], f2.uid) == if f1.uid == f2.uid then [f1, f2] else [f2]
    ensures Flatten(Data([f1, f2])) == f1.data + f2.data && Flatten(Data([f2])) == f2.data
  {
    var mine := (f: Fragment) => f.uid == f2.uid;
    assert [f1, f2] == [f1] + [f2];
    FilterFirst(f1, [f2], mine);
    FilterOne(f2, mine);
    assert Data([f1, f2]) == [f1.data] + [f2.data] && Data([f2]) == [f2.data];
    FlattenAppend([f1.data], [f2.data]);
    FlattenOne(f1.data);
    FlattenOne(f2.data);
  }

  /** Eight bytes, the least that a fragment other than the last can leave over. */
  const REST := Bytes(8, 0)

  /** What is left of a packet with another uid in the slot stands in front of a packet that finds it. */
  lemma SharedSlotMixes(uid: nat, other: nat) returns (fs: seq<Fragment>, records: seq<Record>)
    requires uid < KEY_RANGE && other != uid && SlotOf(other) == SlotOf(uid)
    ensures Carries(fs, uid, records) && !Reassembled(fs, uid, records)
    ensures forall f :: f in fs ==> f.uid == uid || f.uid == other
  {
    var f2 := WholeFragment(uid);
    var f1 := Fragment(other, 0, Bytes(UDP_HEADER_SIZE, 0) + REST);
    assert f1.Chunk() == REST;
    fs, records := [f1, f2], [ONES];
    TwoOfUid(f1, f2);
    BehindRest(f1, f2);
  }

  /** With a rest of zeros in front, the header that is queued is not the one that was sent. */
  lemma BehindRest(f1: Fragment, f2: Fragment)
    requires f1.Valid() && f2.Valid() && f2.uid < KEY_RANGE && SlotOf(f1.uid) == SlotOf(f2.uid) && f1.uid != f2.uid
    requires f1.Chunk() == REST && |f2.Chunk()| == RECORD_SIZE
    ensures QueuedFor(ArriveAll([f1, f2]).queued, f2.uid) != [ONES.header]
  {
    OnlyOther(f2.uid, f1);
    var h := (REST + f2.Chunk())[..HEADER_SIZE];
    MixedQueue(f2.uid, ArriveAll([f1]), f2, h);
    assert h[0] != ONES.header[0];
    TwoArrive(f1, f2);
  }

  lemma WholeFragment(uid: nat) returns (f: Fragment)
    ensures f.Valid() && f.uid == uid && IsCutOf([f], Serialize([ONES]))
    ensures |f.Chunk()| == RECORD_SIZE && ONES.Valid() && HeadersOf([ONES]) == [ONES.header]
  {
    OnesAlone();
    f := Fragment(uid, 0, Bytes(UDP_HEADER_SIZE, 0) + Serialize([ONES]));
    FlattenOne(f.data);
    assert f.data[..UDP_HEADER_SIZE] == Bytes(UDP_HEADER_SIZE, 0) && Data([f]) == [f.data];
  }

  lemma OnlyOther(uid: nat, f: Fragment)
    requires uid < KEY_RANGE && SlotOf(f.uid) == SlotOf(uid) && f.Valid() && f.Chunk() == REST
    ensures ArriveAll([f]) == Stream(map[SlotOf(uid) := REST], [])
  {
    assert [f][..0] == [] && Held(map[], f.uid) + REST == REST;
    assert ArriveAll([f]) == Arrive(ArriveAll([]), f);
    assert Headers(REST) == [] && Residue(REST) == REST;
  }

  lemma MixedQueue(uid: nat, s: Stream, f: Fragment, h: Header)
    requires f.Valid() && f.uid == uid < KEY_RANGE && s == Stream(map[SlotOf(uid) := REST], [])
    requires |f.Chunk()| == RECORD_SIZE && h == (REST + f.Chunk())[..HEADER_SIZE]
    ensures QueuedFor(Arrive(s, f).queued, uid) == [h]
  {
    var all := REST + f.Chunk();
    assert Headers(all) == [h] by { assert |all[RECORD_SIZE..]| == 8; }
    QueuedForTagged([], uid, [h], uid);
    assert [] + Tagged(uid, [h]) == Tagged(uid, [h]) && QueuedFor([], uid) == [];
  }
}
