/**
 * What a node queues of a packet that arrives with gaps, because fragments of it were discarded on the way: exactly
 * when everything it queues is still the header of one of the packet's records.
 */
module Gaps {
  import opened Sequences
  import opened Packets
  import opened Reassembly
  import opened ReassemblyStreams

  // ---- Bytes with gaps ----

  predicate AreBelow(at: seq<nat>, size: nat) {
    forall i :: 0 <= i < |at| ==> at[i] < size
  }

  predicate AreIncreasing(at: seq<nat>) {
    forall i, j :: 0 <= i < j < |at| ==> at[i] < at[j]
  }

  /** The bytes at some positions, in order. */
  function Pick(bytes: seq<Byte>, at: seq<nat>): (s: seq<Byte>)
    requires AreBelow(at, |bytes|)
    ensures |s| == |at| && forall i :: 0 <= i < |s| ==> s[i] == bytes[at[i]]
  {
    if at == [] then [] else Pick(bytes, at[..|at| - 1]) + [bytes[at[|at| - 1]]]
  }

  /** The first forty positions are those of a record's header. */
  predicate StartsWithHeader(at: seq<nat>)
    requires |at| >= RECORD_SIZE
  {
    at[0] % RECORD_SIZE == 0 && at[HEADER_SIZE - 1] == at[0] + HEADER_SIZE - 1
  }

  /** Every record's worth of positions, while they last, starts with a header in one piece. */
  predicate HeadersInOnePiece(at: seq<nat>) {
    |at| >= RECORD_SIZE ==> StartsWithHeader(at) && HeadersInOnePiece(at[RECORD_SIZE..])
  }

  /** The records to which the first positions of each record's worth belong. */
  function RecordsAt(at: seq<nat>): seq<nat> {
    if |at| < RECORD_SIZE then [] else [at[0] / RECORD_SIZE] + RecordsAt(at[RECORD_SIZE..])
  }

  /** The headers of some of the records. */
  function HeadersOfSome(records: seq<Record>, some: seq<nat>): seq<Header>
    requires AreBelow(some, |records|)
  {
    if some == [] then [] else [records[some[0]].header] + HeadersOfSome(records, some[1..])
  }

  predicate AreValid(records: seq<Record>) {
    forall i :: 0 <= i < |records| ==> records[i].Valid()
  }

  lemma {:induction false} SerializeSize(records: seq<Record>)
    requires AreValid(records)
    ensures |Serialize(records)| == |records| * RECORD_SIZE
  {
    if records != [] {
      SerializeSize(records[1..]);
    }
  }

  /** Where the bytes of a packet come from. */
  lemma {:induction false} SerializeAt(records: seq<Record>, m: nat, x: nat)
    requires AreValid(records) && m < |records| && x < RECORD_SIZE
    ensures m * RECORD_SIZE + x < |Serialize(records)|
    ensures var r := records[m];
      Serialize(records)[m * RECORD_SIZE + x] == if x < HEADER_SIZE then r.header[x] else r.payload[x - HEADER_SIZE]
  {
    var front, rest := records[0].header + records[0].payload, records[1..];
    assert Serialize(records) == front + Serialize(rest);
    if m > 0 {
      SerializeAt(rest, m - 1, x);
      assert rest[m - 1] == records[m];
      AfterFront(front, Serialize(rest), (m - 1) * RECORD_SIZE + x);
    } else {
      assert Serialize(records)[x] == front[x];
    }
  }

  lemma AfterFront(front: seq<Byte>, rest: seq<Byte>, p: nat)
    requires |front| == RECORD_SIZE && p < |rest|
    ensures (front + rest)[RECORD_SIZE + p] == rest[p]
  {
  }

  lemma {:induction false} Spread(at: seq<nat>, i: nat, j: nat)
    requires AreIncreasing(at) && i <= j < |at|
    ensures at[j] - at[i] >= j - i
    decreases j
  {
    if i < j {
      Spread(at, i, j - 1);
    }
  }

  lemma OnePiece(at: seq<nat>) returns (m: nat)
    requires |at| >= RECORD_SIZE && AreIncreasing(at) && StartsWithHeader(at)
    ensures m == at[0] / RECORD_SIZE && forall x :: 0 <= x < HEADER_SIZE ==> at[x] == m * RECORD_SIZE + x
  {
    m := at[0] / RECORD_SIZE;
    forall x | 0 <= x < HEADER_SIZE ensures at[x] == at[0] + x {
      Spread(at, 0, x);
      Spread(at, x, HEADER_SIZE - 1);
    }
  }

  lemma HeaderPicked(records: seq<Record>, at: seq<nat>, m: nat)
    requires AreValid(records) && AreBelow(at, |Serialize(records)|) && m < |records|
    requires |at| >= HEADER_SIZE && forall x :: 0 <= x < HEADER_SIZE ==> at[x] == m * RECORD_SIZE + x
    ensures Pick(Serialize(records), at)[..HEADER_SIZE] == records[m].header
  {
    var picked := Pick(Serialize(records), at);
    assert records[m].Valid();
    forall x | 0 <= x < HEADER_SIZE ensures picked[x] == records[m].header[x] {
      SerializeAt(records, m, x);
      assert picked[x] == Serialize(records)[at[x]];
    }
  }

  lemma PickRest(bytes: seq<Byte>, at: seq<nat>)
    requires AreBelow(at, |bytes|) && |at| >= RECORD_SIZE
    ensures Headers(Pick(bytes, at)) == [Pick(bytes, at)[..HEADER_SIZE]] + Headers(Pick(bytes, at[RECORD_SIZE..]))
  {
    assert Pick(bytes, at)[RECORD_SIZE..] == Pick(bytes, at[RECORD_SIZE..]);
  }

  lemma RecordExists(p: nat, n: nat)
    requires p < n * RECORD_SIZE
    ensures p / RECORD_SIZE < n
  {
  }

  lemma ConsIncreasing(a: nat, s: seq<nat>)
    requires AreIncreasing(s) && (s != [] ==> a < s[0])
    ensures AreIncreasing([a] + s)
  {
  }

  lemma ConsHeaders(records: seq<Record>, m: nat, some: seq<nat>)
    requires m < |records| && AreBelow(some, |records|)
    ensures HeadersOfSome(records, [m] + some) == [records[m].header] + HeadersOfSome(records, some)
  {
    assert ([m] + some)[1..] == some;
  }

  /** The next record's worth of positions belongs to a later record. */
  lemma NextIsLater(at: seq<nat>)
    requires AreIncreasing(at) && |at| >= RECORD_SIZE && StartsWithHeader(at)
    ensures var some := RecordsAt(at[RECORD_SIZE..]); some != [] ==> at[0] / RECORD_SIZE < some[0]
  {
    if |at| >= 2 * RECORD_SIZE {
      Spread(at, 0, RECORD_SIZE);
      assert at[RECORD_SIZE..][0] == at[RECORD_SIZE];
    }
  }

  /** If every header comes in one piece, they are headers of the records, in their order and each at most once. */
  lemma {:induction false} PiecesAreHeaders(records: seq<Record>, at: seq<nat>)
    requires AreValid(records) && AreBelow(at, |Serialize(records)|) && AreIncreasing(at) && HeadersInOnePiece(at)
    ensures AreBelow(RecordsAt(at), |records|) && AreIncreasing(RecordsAt(at))
    ensures Headers(Pick(Serialize(records), at)) == HeadersOfSome(records, RecordsAt(at))
    decreases |at|
  {
    if |at| >= RECORD_SIZE {
      var some := RecordsAt(at[RECORD_SIZE..]);
      var m := OnePiece(at);
      SerializeSize(records);
      PickRest(Serialize(records), at);
      PiecesAreHeaders(records, at[RECORD_SIZE..]);
      RecordExists(at[0], |records|);
      HeaderPicked(records, at, m);
      NextIsLater(at);
      ConsIncreasing(m, some);
      ConsHeaders(records, m, some);
      assert RecordsAt(at) == [m] + some;
    }
  }

  lemma {:induction false} SomeAreHeaders(records: seq<Record>, some: seq<nat>)
    requires AreBelow(some, |records|)
    ensures forall h :: h in HeadersOfSome(records, some) ==> h in HeadersOf(records)
  {
    if some != [] {
      SomeAreHeaders(records, some[1..]);
      HeaderIsIn(records, some[0]);
    }
  }

  lemma {:induction false} HeaderIsIn(records: seq<Record>, i: nat)
    requires i < |records|
    ensures records[i].header in HeadersOf(records)
  {
    if i > 0 {
      HeaderIsIn(records[1..], i - 1);
    }
  }

  // ---- A header in pieces ----

  /** Records whose headers are ones up to the m-th and twos from there on, with zeros between them. */
  function Marked(n: nat, m: int): (records: seq<Record>)
    ensures |records| == n && AreValid(records)
    ensures forall i :: 0 <= i < n ==> records[i] == MarkedRecord(i <= m)
  {
    if n == 0 then [] else Marked(n - 1, m) + [MarkedRecord(n - 1 <= m)]
  }

  function MarkedRecord(early: bool): (r: Record)
    ensures r.Valid()
  {
    Record(Bytes(HEADER_SIZE, if early then 1 else 2), Bytes(PAYLOAD_SIZE, 0))
  }

  lemma MarkedAt(n: nat, m: nat, p: nat)
    requires p < n * RECORD_SIZE
    ensures |Serialize(Marked(n, m))| == n * RECORD_SIZE
    ensures Serialize(Marked(n, m))[p]
      == if p % RECORD_SIZE >= HEADER_SIZE then 0 else if p / RECORD_SIZE <= m then 1 else 2
  {
    SerializeSize(Marked(n, m));
    SerializeAt(Marked(n, m), p / RECORD_SIZE, p % RECORD_SIZE);
  }

  lemma {:induction false} HeadersAreUniform(records: seq<Record>, h: Header)
    requires (forall i :: 0 <= i < |records| ==> records[i] == MarkedRecord(true) || records[i] == MarkedRecord(false))
    requires h in HeadersOf(records)
    ensures |h| == HEADER_SIZE && h[0] != 0 && forall x :: 0 <= x < HEADER_SIZE ==> h[x] == h[0]
  {
    if h != records[0].header {
      HeadersAreUniform(records[1..], h);
    }
  }

  /** A header that starts in record m and ends in the header of that record or an earlier one is in one piece. */
  lemma OnesInOnePiece(at: seq<nat>, m: nat)
    requires AreIncreasing(at) && |at| >= RECORD_SIZE && at[0] / RECORD_SIZE == m
    requires var last := at[HEADER_SIZE - 1]; last / RECORD_SIZE <= m && last % RECORD_SIZE < HEADER_SIZE
    ensures StartsWithHeader(at)
  {
    Spread(at, 0, HEADER_SIZE - 1);
  }

  /** A first header in pieces is none of the marked ones, if the mark is at the record of its first byte. */
  lemma PiecesMix(n: nat, at: seq<nat>, m: nat)
    requires AreBelow(at, n * RECORD_SIZE) && AreIncreasing(at) && |at| >= RECORD_SIZE && !StartsWithHeader(at)
    requires m == at[0] / RECORD_SIZE
    ensures |Serialize(Marked(n, m))| == n * RECORD_SIZE
    ensures Pick(Serialize(Marked(n, m)), at)[..HEADER_SIZE] !in HeadersOf(Marked(n, m))
  {
    MarkedAt(n, m, at[0]);
    MarkedAt(n, m, at[HEADER_SIZE - 1]);
    var picked := Pick(Serialize(Marked(n, m)), at);
    assert picked[0] <= 1;
    if picked[..HEADER_SIZE] in HeadersOf(Marked(n, m)) {
      HeadersAreUniform(Marked(n, m), picked[..HEADER_SIZE]);
      assert picked[..HEADER_SIZE][HEADER_SIZE - 1] == 1;
      OnesInOnePiece(at, m);
      assert false;
    }
  }

  /** A header in pieces anywhere shows as one that no record has, for some records. */
  lemma {:induction false} ForeignHeader(n: nat, at: seq<nat>) returns (m: nat, h: Header)
    requires AreBelow(at, n * RECORD_SIZE) && AreIncreasing(at) && !HeadersInOnePiece(at)
    ensures |Serialize(Marked(n, m))| == n * RECORD_SIZE
    ensures h in Headers(Pick(Serialize(Marked(n, m)), at)) && h !in HeadersOf(Marked(n, m))
    decreases |at|
  {
    if StartsWithHeader(at) {
      m, h := ForeignHeader(n, at[RECORD_SIZE..]);
    } else {
      m := at[0] / RECORD_SIZE;
      PiecesMix(n, at, m);
      h := Pick(Serialize(Marked(n, m)), at)[..HEADER_SIZE];
    }
    PickRest(Serialize(Marked(n, m)), at);
  }

  // ---- Packets with gaps ----

  /** A part of a packet's records, as one fragment carries it; it arrives, or is discarded on the way. */
  datatype Part = Part(size: nat, kept: bool)

  function Size(parts: seq<Part>): nat {
    if parts == [] then 0 else Size(parts[..|parts| - 1]) + parts[|parts| - 1].size
  }

  function Range(lo: nat, n: nat): (s: seq<nat>)
    ensures |s| == n && forall i :: 0 <= i < n ==> s[i] == lo + i
  {
    seq(n, i requires 0 <= i => lo + i)
  }

  /** The positions of the bytes that arrive. */
  function Kept(parts: seq<Part>): seq<nat> {
    if parts == [] then []
    else
      var front, last := parts[..|parts| - 1], parts[|parts| - 1];
      Kept(front) + (if last.kept then Range(Size(front), last.size) else [])
  }

  lemma {:induction false} KeptArePositions(parts: seq<Part>)
    ensures AreBelow(Kept(parts), Size(parts)) && AreIncreasing(Kept(parts))
  {
    if parts != [] {
      var front, last := parts[..|parts| - 1], parts[|parts| - 1];
      KeptArePositions(front);
      if last.kept {
        AppendRange(Kept(front), Size(front), last.size);
      }
    }
  }

  lemma AppendRange(at: seq<nat>, lo: nat, n: nat)
    requires AreBelow(at, lo) && AreIncreasing(at)
    ensures AreBelow(at + Range(lo, n), lo + n) && AreIncreasing(at + Range(lo, n))
  {
  }

  /** The fragment behind the parts in front. The first one starts with the UDP header. */
  function FragmentFor(uid: nat, udp: seq<Byte>, bytes: seq<Byte>, front: seq<Part>, size: nat): Fragment
    requires Size(front) + size <= |bytes|
  {
    var data := bytes[Size(front)..Size(front) + size];
    if front == [] then Fragment(uid, 0, udp + data) else Fragment(uid, UDP_HEADER_SIZE + Size(front), data)
  }

  /** The fragments of a packet that arrive. */
  function Arriving(uid: nat, udp: seq<Byte>, bytes: seq<Byte>, parts: seq<Part>): seq<Fragment>
    requires Size(parts) <= |bytes|
  {
    if parts == [] then []
    else
      var front, last := parts[..|parts| - 1], parts[|parts| - 1];
      Arriving(uid, udp, bytes, front) + (if last.kept then [FragmentFor(uid, udp, bytes, front, last.size)] else [])
  }

  lemma {:induction false} PickConcat(bytes: seq<Byte>, a: seq<nat>, b: seq<nat>)
    requires AreBelow(a, |bytes|) && AreBelow(b, |bytes|)
    ensures AreBelow(a + b, |bytes|) && Pick(bytes, a + b) == Pick(bytes, a) + Pick(bytes, b)
  {
    if b == [] {
      assert a + b == a;
    } else {
      var front, p := b[..|b| - 1], b[|b| - 1];
      assert (a + b)[..|a + b| - 1] == a + front && (a + b)[|a + b| - 1] == p;
      PickConcat(bytes, a, front);
      Associative(Pick(bytes, a), Pick(bytes, front), [bytes[p]]);
    }
  }

  lemma PickRange(bytes: seq<Byte>, lo: nat, n: nat)
    requires lo + n <= |bytes|
    ensures Pick(bytes, Range(lo, n)) == bytes[lo..lo + n]
  {
  }

  lemma OnePartMore(fs: seq<Fragment>, f: Fragment, bytes: seq<Byte>, at: seq<nat>, lo: nat, n: nat)
    requires f.Valid() && (forall g :: g in fs ==> g.Valid())
    requires AreBelow(at, |bytes|) && lo + n <= |bytes|
    requires BytesFor(fs, f.uid) == Pick(bytes, at) && f.Chunk() == bytes[lo..lo + n]
    ensures AreBelow(at + Range(lo, n), |bytes|)
    ensures BytesFor(fs + [f], f.uid) == Pick(bytes, at + Range(lo, n))
  {
    BytesForSnoc(fs, f, f.uid);
    PickConcat(bytes, at, Range(lo, n));
    PickRange(bytes, lo, n);
  }

  lemma {:induction false} ArrivingBytes(uid: nat, udp: seq<Byte>, bytes: seq<Byte>, parts: seq<Part>)
    requires Size(parts) <= |bytes| && |udp| == UDP_HEADER_SIZE
    ensures forall f :: f in Arriving(uid, udp, bytes, parts) ==> f.Valid() && f.uid == uid
    ensures AreBelow(Kept(parts), |bytes|) && AreIncreasing(Kept(parts))
    ensures BytesFor(Arriving(uid, udp, bytes, parts), uid) == Pick(bytes, Kept(parts))
  {
    KeptArePositions(parts);
    if parts != [] {
      var front, last := parts[..|parts| - 1], parts[|parts| - 1];
      ArrivingBytes(uid, udp, bytes, front);
      if last.kept {
        var f := FragmentFor(uid, udp, bytes, front, last.size);
        ChunkFor(uid, udp, bytes, front, last.size);
        OnePartMore(Arriving(uid, udp, bytes, front), f, bytes, Kept(front), Size(front), last.size);
        assert Kept(parts) == Kept(front) + Range(Size(front), last.size);
        assert Arriving(uid, udp, bytes, parts) == Arriving(uid, udp, bytes, front) + [f];
      } else {
        assert Kept(parts) == Kept(front);
        assert Arriving(uid, udp, bytes, parts) == Arriving(uid, udp, bytes, front);
      }
    }
  }

  lemma ChunkFor(uid: nat, udp: seq<Byte>, bytes: seq<Byte>, front: seq<Part>, size: nat)
    requires Size(front) + size <= |bytes| && |udp| == UDP_HEADER_SIZE
    ensures var f := FragmentFor(uid, udp, bytes, front, size);
      f.Valid() && f.uid == uid && f.Chunk() == bytes[Size(front)..Size(front) + size]
  {
  }

  lemma BytesForSnoc(fs: seq<Fragment>, f: Fragment, uid: nat)
    requires f.Valid() && f.uid == uid && forall g :: g in fs ==> g.Valid()
    ensures BytesFor(fs + [f], uid) == BytesFor(fs, uid) + f.Chunk()
  {
    assert (fs + [f])[..|fs|] == fs;
  }

  /** The bytes of a uid are those of its own fragments. */
  lemma {:induction false} BytesForOwn(fs: seq<Fragment>, uid: nat)
    requires forall f :: f in fs ==> f.Valid()
    ensures (forall f :: f in Of(fs, uid) ==> f.Valid()) && BytesFor(Of(fs, uid), uid) == BytesFor(fs, uid)
  {
    FilterAll(fs, (f: Fragment) => f.uid == uid);
    if fs != [] {
      var before, f := fs[..|fs| - 1], fs[|fs| - 1];
      BytesForOwn(before, uid);
      assert fs == before + [f];
      OfSnoc(before, f, uid);
      if f.uid == uid {
        BytesForSnoc(Of(before, uid), f, uid);
      } else {
        assert Of(fs, uid) == Of(before, uid);
      }
    }
  }

  /** Of the packet with these records and this cut arrives what is kept, among fragments of other packets. */
  ghost predicate ArrivesWithGaps(
    fs: seq<Fragment>, uid: nat, udp: seq<Byte>, records: seq<Record>, parts: seq<Part>)
  {
    && AreValid(records) && |Serialize(records)| == Size(parts) && |udp| == UDP_HEADER_SIZE
    && (forall f :: f in fs ==> f.Valid()) && Alone(fs, uid)
    && Of(fs, uid) == Arriving(uid, udp, Serialize(records), parts)
  }

  lemma GapsQueue(fs: seq<Fragment>, uid: nat, udp: seq<Byte>, records: seq<Record>, parts: seq<Part>)
    requires ArrivesWithGaps(fs, uid, udp, records, parts)
    ensures AreBelow(Kept(parts), |Serialize(records)|) && AreIncreasing(Kept(parts))
    ensures QueuedFor(ArriveAll(fs).queued, uid) == Headers(Pick(Serialize(records), Kept(parts)))
  {
    ArrivingBytes(uid, udp, Serialize(records), parts);
    BytesForOwn(fs, uid);
    StreamsAreIndependent(fs, uid);
  }

  /**
   * If every header arrives in one piece, what is queued are headers of the packet's records, in their order and each
   * at most once.
   */
  lemma GapsKeepOrder(fs: seq<Fragment>, uid: nat, udp: seq<Byte>, records: seq<Record>, parts: seq<Part>)
    requires ArrivesWithGaps(fs, uid, udp, records, parts) && HeadersInOnePiece(Kept(parts))
    ensures var some := RecordsAt(Kept(parts));
      && AreBelow(some, |records|) && AreIncreasing(some)
      && QueuedFor(ArriveAll(fs).queued, uid) == HeadersOfSome(records, some)
  {
    GapsQueue(fs, uid, udp, records, parts);
    PiecesAreHeaders(records, Kept(parts));
  }

  predicate OnlyHeaders(queued: seq<Header>, records: seq<Record>) {
    forall h :: h in queued ==> h in HeadersOf(records)
  }

  /** Whatever the records, the other packets and the interleaving, only headers of the packet's records are queued. */
  ghost predicate OnlyHeadersQueued(uid: nat, parts: seq<Part>) {
    forall fs, udp, records :: ArrivesWithGaps(fs, uid, udp, records, parts) ==>
      OnlyHeaders(QueuedFor(ArriveAll(fs).queued, uid), records)
  }

  /**
   * Exactly when gaps do no harm: of a packet of n records cut into these parts, whatever the records are, only their
   * headers are ever queued if and only if each record's worth of arriving bytes starts with a header in one piece.
   */
  lemma GapsHarmlessIff(uid: nat, n: nat, parts: seq<Part>)
    requires uid < KEY_RANGE && Size(parts) == n * RECORD_SIZE
    ensures OnlyHeadersQueued(uid, parts) <==> HeadersInOnePiece(Kept(parts))
  {
    if HeadersInOnePiece(Kept(parts)) {
      forall fs, udp, records | ArrivesWithGaps(fs, uid, udp, records, parts)
        ensures OnlyHeaders(QueuedFor(ArriveAll(fs).queued, uid), records)
      {
        GapsKeepOrder(fs, uid, udp, records, parts);
        SomeAreHeaders(records, RecordsAt(Kept(parts)));
      }
    } else {
      var fs, udp, records := GapsMayHarm(uid, n, parts);
    }
  }

  lemma GapsMayHarm(uid: nat, n: nat, parts: seq<Part>)
      returns (fs: seq<Fragment>, udp: seq<Byte>, records: seq<Record>)
    requires uid < KEY_RANGE && Size(parts) == n * RECORD_SIZE && !HeadersInOnePiece(Kept(parts))
    ensures ArrivesWithGaps(fs, uid, udp, records, parts)
    ensures !OnlyHeaders(QueuedFor(ArriveAll(fs).queued, uid), records)
  {
    KeptArePositions(parts);
    var m, h := ForeignHeader(n, Kept(parts));
    records, udp := Marked(n, m), Bytes(UDP_HEADER_SIZE, 0);
    fs := Arriving(uid, udp, Serialize(records), parts);
    ArrivingBytes(uid, udp, Serialize(records), parts);
    FilterAll(fs, (f: Fragment) => f.uid == uid);
    GapsQueue(fs, uid, udp, records, parts);
  }
}
