/** The XOR metric and the routing table of sections 2.1 and 2.2 of the Kademlia paper (Maymounkov and Mazieres). */
module Kademlia {
  import opened Bytes

  // ----- exclusive or

  /** Exclusive or on naturals, bit by bit: the reference the byte loop is measured against. */
  function Xor(x: nat, y: nat): nat
    decreases x + y
  {
    if x == 0 && y == 0 then 0 else 2 * Xor(x / 2, y / 2) + if x % 2 == y % 2 then 0 else 1
  }

  lemma {:induction false} XorZero(x: nat, y: nat)
    ensures Xor(x, y) == 0 <==> x == y
    decreases x + y
  {
    if x != 0 || y != 0 { XorZero(x / 2, y / 2); }
  }

  lemma {:induction false} XorSymmetric(x: nat, y: nat)
    ensures Xor(x, y) == Xor(y, x)
    decreases x + y
  {
    if x != 0 || y != 0 { XorSymmetric(x / 2, y / 2); }
  }

  lemma {:induction false} XorTriangle(x: nat, y: nat, z: nat)
    ensures Xor(x, z) <= Xor(x, y) + Xor(y, z)
    decreases x + y + z
  {
    if x != 0 || y != 0 || z != 0 { XorTriangle(x / 2, y / 2, z / 2); }
  }

  lemma {:induction false} XorCancels(x: nat, y: nat, z: nat)
    requires Xor(x, y) == Xor(x, z)
    ensures y == z
    decreases x + y + z
  {
    if x != 0 || y != 0 || z != 0 { XorCancels(x / 2, y / 2, z / 2); }
  }

  function Shift(x: nat, k: nat): nat {
    if k == 0 then x else 2 * Shift(x, k - 1)
  }

  lemma {:induction false} XorConcat(x: nat, y: nat, k: nat, p: nat, q: nat)
    requires p < Pow2(k) && q < Pow2(k)
    ensures Xor(Shift(x, k) + p, Shift(y, k) + q) == Shift(Xor(x, y), k) + Xor(p, q)
    decreases k
  {
    if k > 0 {
      XorConcat(x, y, k - 1, p / 2, q / 2);
      XorHalve(Shift(x, k) + p, Shift(y, k) + q);
      XorHalve(p, q);
      assert (Shift(x, k) + p) / 2 == Shift(x, k - 1) + p / 2 && (Shift(x, k) + p) % 2 == p % 2;
      assert (Shift(y, k) + q) / 2 == Shift(y, k - 1) + q / 2 && (Shift(y, k) + q) % 2 == q % 2;
    }
  }

  lemma XorHalve(x: nat, y: nat)
    ensures Xor(x, y) == 2 * Xor(x / 2, y / 2) + if x % 2 == y % 2 then 0 else 1
  {
  }

  lemma LowBit(x: byte, y: byte)
    ensures ((x ^ y) & 1) as int == if x as int % 2 == y as int % 2 then 0 else 1
  {
    assert (x ^ y) & 1 == if x & 1 == y & 1 then 0 else 1;
    assert (x & 1) as int == x as int % 2 && (y & 1) as int == y as int % 2;
  }

  lemma Parts(x: byte)
    ensures x as int == 2 * ((x >> 1) as int) + (x & 1) as int && (x >> 1) as int == x as int / 2
  {
  }

  lemma HalfXor(x: byte, y: byte)
    ensures (x ^ y) >> 1 == (x >> 1) ^ (y >> 1)
  {
  }

  lemma HalveBytes(x: byte, y: byte) returns (p: byte, q: byte)
    ensures p as int == x as int / 2 && q as int == y as int / 2
    ensures (x ^ y) as int == 2 * ((p ^ q) as int) + if x as int % 2 == y as int % 2 then 0 else 1
  {
    p, q := x >> 1, y >> 1;
    var r := x ^ y;
    assert p as int == x as int / 2 by { Parts(x); }
    assert q as int == y as int / 2 by { Parts(y); }
    assert r >> 1 == p ^ q by { HalfXor(x, y); }
    assert (r & 1) as int == if x as int % 2 == y as int % 2 then 0 else 1 by { LowBit(x, y); }
    Parts(r);
  }

  lemma HalveInts(x: byte, y: byte, m: nat, n: nat, r: nat) returns (p: byte, q: byte, half: nat)
    requires m == x as int && n == y as int && r == (x ^ y) as int
    ensures p as int == m / 2 && q as int == n / 2 && half == (p ^ q) as int
    ensures r == 2 * half + if m % 2 == n % 2 then 0 else 1
  {
    p, q := HalveBytes(x, y);
    half := (p ^ q) as int;
  }

  lemma ZeroBytes(x: byte, y: byte)
    requires x as int == 0 && y as int == 0
    ensures (x ^ y) as int == 0
  {
  }

  lemma DoubleXor(x: nat, y: nat, half: nat, r: nat)
    requires half == Xor(x / 2, y / 2)
    requires r == 2 * half + if x % 2 == y % 2 then 0 else 1
    ensures r == Xor(x, y)
  {
  }

  lemma {:induction false} ByteXorAt(x: byte, y: byte, m: nat, n: nat, r: nat)
    requires m == x as int && n == y as int && r == (x ^ y) as int
    ensures r == Xor(m, n)
    decreases m + n
  {
    if m == 0 && n == 0 {
      ZeroBytes(x, y);
    } else {
      var p, q, half := HalveInts(x, y, m, n, r);
      ByteXorAt(p, q, m / 2, n / 2, half);
      DoubleXor(m, n, half, r);
    }
  }

  /** The machine's exclusive or of two bytes is the arithmetic one. */
  lemma ByteXor(x: byte, y: byte)
    ensures (x ^ y) as int == Xor(x as int, y as int)
  {
    ByteXorAt(x, y, x as int, y as int, (x ^ y) as int);
  }

  // ----- distance

  function XorByte(x: byte, y: byte): byte {
    x ^ y
  }

  function XorBytes(a: Bytes, b: Bytes): (r: Bytes)
    requires |a| == |b|
    ensures |r| == |a|
  {
    seq(|a|, i requires 0 <= i < |a| => XorByte(a[i], b[i]))
  }

  /** The number whose big-endian bytes these are, as `big.Int.SetBytes` reads them. */
  function BigEndian(s: Bytes): nat {
    if s == [] then 0 else 256 * BigEndian(s[..|s| - 1]) + s[|s| - 1] as int
  }

  lemma ShiftByte(x: nat)
    ensures Shift(x, 8) == 256 * x && Pow2(8) == 256
  {
    assert Shift(x, 1) == 2 * x && Shift(x, 2) == 2 * Shift(x, 1) && Shift(x, 3) == 2 * Shift(x, 2);
    assert Shift(x, 4) == 2 * Shift(x, 3);
    assert Shift(x, 6) == 4 * Shift(x, 4) && Shift(x, 8) == 4 * Shift(x, 6);
    Pow2Byte(0);
  }

  lemma XorBytesLast(a: Bytes, b: Bytes, n: nat)
    requires |a| == |b| == n + 1
    ensures XorBytes(a, b)[..n] == XorBytes(a[..n], b[..n])
    ensures XorBytes(a, b)[n] == XorByte(a[n], b[n])
  {
  }

  /** The byte loop computes the exclusive or of the two numbers. */
  lemma {:induction false} XorBytesIsXor(a: Bytes, b: Bytes)
    requires |a| == |b|
    ensures BigEndian(XorBytes(a, b)) == Xor(BigEndian(a), BigEndian(b))
  {
    if a != [] {
      var n := |a| - 1;
      XorBytesLast(a, b, n);
      XorBytesIsXor(a[..n], b[..n]);
      LastByte(BigEndian(a[..n]), BigEndian(b[..n]), a[n], b[n]);
    }
  }

  lemma LastByte(x: nat, y: nat, p: byte, q: byte)
    ensures Xor(256 * x + p as int, 256 * y + q as int) == 256 * Xor(x, y) + XorByte(p, q) as int
  {
    ShiftByte(x);
    ShiftByte(y);
    ShiftByte(Xor(x, y));
    XorConcat(x, y, 8, p as int, q as int);
    ByteXor(p, q);
  }

  lemma {:induction false} BigEndianInjective(a: Bytes, b: Bytes)
    requires |a| == |b| && BigEndian(a) == BigEndian(b)
    ensures a == b
  {
    if a != [] {
      var n := |a| - 1;
      LastDigit(BigEndian(a[..n]), BigEndian(b[..n]), a[n], b[n]);
      BigEndianInjective(a[..n], b[..n]);
      assert a == a[..n] + [a[n]] && b == b[..n] + [b[n]];
    }
  }

  lemma LastDigit(x: nat, y: nat, p: byte, q: byte)
    requires 256 * x + p as int == 256 * y + q as int
    ensures x == y && p == q
  {
  }

  lemma {:induction false} BigEndianBound(s: Bytes)
    ensures BigEndian(s) < Pow2(8 * |s|)
  {
    if s != [] {
      var n := |s| - 1;
      BigEndianBound(s[..n]);
      Pow2Byte(8 * n);
    }
  }

  lemma Pow2Byte(n: nat)
    ensures Pow2(n + 8) == 256 * Pow2(n)
  {
    assert Pow2(n + 2) == 4 * Pow2(n) && Pow2(n + 4) == 4 * Pow2(n + 2);
    assert Pow2(n + 6) == 4 * Pow2(n + 4) && Pow2(n + 8) == 4 * Pow2(n + 6);
  }

  /** The distance from one node to another id, over the digests of both. */
  function Distance(hash: Hash, id: Bytes, target: Bytes): nat {
    BigEndian(XorBytes(hash(id), hash(target)))
  }

  method CalculateXORDistance(hash: Hash, localNodeID: Bytes, targetID: Bytes) returns (distance: nat)
    ensures distance == Distance(hash, localNodeID, targetID)
  {
    var h1: Bytes, h2: Bytes := hash(localNodeID), hash(targetID);
    var res := new byte[32](_ => 0);
    for i := 0 to 32
      invariant forall j :: 0 <= j < i ==> res[j] == XorByte(h1[j], h2[j])
    {
      res[i] := XorByte(h1[i], h2[i]);
    }
    assert res[..] == XorBytes(h1, h2);
    distance := SetBytes(res);
  }

  method SetBytes(buf: array<byte>) returns (value: nat)
    ensures value == BigEndian(buf[..])
  {
    value := 0;
    for i := 0 to buf.Length
      invariant value == BigEndian(buf[..i])
    {
      assert buf[..i + 1][..i] == buf[..i];
      value := 256 * value + buf[i] as int;
    }
    assert buf[..buf.Length] == buf[..];
  }

  /** The distance is the exclusive or of two 256-bit numbers. */
  lemma DistanceIsXor(hash: Hash, x: Bytes, y: Bytes)
    ensures Distance(hash, x, y) == Xor(BigEndian(hash(x)), BigEndian(hash(y)))
    ensures Distance(hash, x, y) < Pow2(256)
  {
    XorBytesIsXor(hash(x), hash(y));
    BigEndianBound(XorBytes(hash(x), hash(y)));
  }

  /**
   A metric on id digests: symmetric between the two nodes that compute it, zero exactly when the digests agree, subject
   to the triangle inequality, and unidirectional: at each distance from x there is one digest.
  */
  lemma DistanceIsMetric(hash: Hash, x: Bytes, y: Bytes, z: Bytes)
    ensures Distance(hash, x, y) == Distance(hash, y, x)
    ensures Distance(hash, x, y) == 0 <==> hash(x) == hash(y)
    ensures Distance(hash, x, z) <= Distance(hash, x, y) + Distance(hash, y, z)
    ensures Distance(hash, x, y) == Distance(hash, x, z) ==> hash(y) == hash(z)
  {
    DistanceIsXor(hash, x, y);
    DistanceIsXor(hash, y, x);
    DistanceIsXor(hash, x, z);
    DistanceIsXor(hash, y, z);
    var a, b, c := BigEndian(hash(x)), BigEndian(hash(y)), BigEndian(hash(z));
    XorSymmetric(a, b);
    XorZero(a, b);
    XorTriangle(a, b, c);
    if a == b { BigEndianInjective(hash(x), hash(y)); }
    if Xor(a, b) == Xor(a, c) {
      XorCancels(a, b, c);
      BigEndianInjective(hash(y), hash(z));
    }
  }

  // ----- buckets

  function BitLen(n: nat): nat {
    if n == 0 then 0 else 1 + BitLen(n / 2)
  }

  lemma {:induction false} BitLenBounds(n: nat)
    ensures n < Pow2(BitLen(n)) && (n > 0 ==> Pow2(BitLen(n) - 1) <= n)
  {
    if n > 0 { BitLenBounds(n / 2); }
  }

  lemma {:induction false} BitLenAtMost(n: nat, k: nat)
    requires n < Pow2(k)
    ensures BitLen(n) <= k
    decreases k
  {
    if n > 0 { BitLenAtMost(n / 2, k - 1); }
  }

  /** The bucket for a distance, clamped at both ends. */
  function BucketFor(distance: nat): int {
    var i := BitLen(distance) - 1;
    if i < 0 then 0 else if i >= 256 then 255 else i
  }

  /** Bucket i holds the distances from 2^i to below 2^(i+1), and bucket 0 also distance 0; the upper clamp is idle. */
  lemma BucketRange(hash: Hash, local: Bytes, id: Bytes)
    ensures var d := Distance(hash, local, id);
            var i := BucketFor(d);
            && BitLen(d) - 1 < 256
            && 0 <= i < 256 && d < Pow2(i + 1) && (i > 0 ==> Pow2(i) <= d)
  {
    var d := Distance(hash, local, id);
    DistanceIsXor(hash, local, id);
    BitLenAtMost(d, 256);
    BitLenBounds(d);
  }

  // ----- the table

  datatype PeerInfo = PeerInfo(id: Bytes, address: Bytes, score: int, lastSeen: int, latencyMs: int)

  const BUCKETS: nat := 256
  const BUCKET_SIZE: nat := 20

  datatype Table = Table(buckets: seq<seq<PeerInfo>>, scores: map<Bytes, int>)

  /** The position of the first peer with this id, or the length. */
  function Position(peers: seq<PeerInfo>, id: Bytes): (k: nat)
    ensures k <= |peers| && (k < |peers| ==> peers[k].id == id)
    ensures forall j :: 0 <= j < k ==> peers[j].id != id
  {
    if peers == [] then 0
    else if peers[0].id == id then 0
    else 1 + Position(peers[1..], id)
  }

  /** A known peer is overwritten and its score kept; a new one is added if there is room, and scored in any case. */
  function AddPeer(hash: Hash, local: Bytes, t: Table, peer: PeerInfo): Table
    requires |t.buckets| == BUCKETS
  {
    BucketRange(hash, local, peer.id);
    var i := BucketFor(Distance(hash, local, peer.id));
    var peers := t.buckets[i];
    var k := Position(peers, peer.id);
    if k < |peers| then t.(buckets := t.buckets[i := peers[k := peer]])
    else Table(if |peers| < BUCKET_SIZE then t.buckets[i := peers + [peer]] else t.buckets,
               t.scores[peer.id := peer.score])
  }

  function ScoreOf(t: Table, id: Bytes): int {
    if id in t.scores then t.scores[id] else 0
  }

  function AdjustScore(t: Table, id: Bytes, delta: int): Table {
    t.(scores := t.scores[id := ScoreOf(t, id) + delta])
  }

  class KademliaDHT {
    const hash: Hash
    const localNodeID: Bytes
    const buckets: array<seq<PeerInfo>>
    var peerScores: map<Bytes, int>

    ghost predicate Valid()
      reads this
    {
      buckets.Length == BUCKETS
    }

    ghost function View(): Table
      reads this, buckets
    {
      Table(buckets[..], peerScores)
    }

    constructor (hash: Hash, nodeID: Bytes)
      ensures Valid() && fresh(buckets) && this.hash == hash && localNodeID == nodeID
      ensures View() == EmptyTable()
    {
      this.hash, localNodeID := hash, nodeID;
      buckets := new seq<PeerInfo>[256](_ => []);
      peerScores := map[];
      new;
      assert buckets[..] == EmptyTable().buckets;
    }

    method InsertPeer(peer: PeerInfo)
      requires Valid()
      modifies this`peerScores, buckets
      ensures Valid() && View() == AddPeer(hash, localNodeID, old(View()), peer)
    {
      var dist := CalculateXORDistance(hash, localNodeID, peer.id);
      BucketRange(hash, localNodeID, peer.id);
      var bucketIdx: int := BitLen(dist) - 1;
      if bucketIdx < 0 { bucketIdx := 0; }
      if bucketIdx >= 256 { bucketIdx := 255; }
      var peers := buckets[bucketIdx];
      for i := 0 to |peers|
        invariant forall j :: 0 <= j < i ==> peers[j].id != peer.id
        invariant buckets[..] == old(buckets[..]) && peerScores == old(peerScores)
      {
        if peers[i].id == peer.id {
          buckets[bucketIdx] := peers[i := peer];
          assert i == Position(peers, peer.id);
          assert buckets[..] == old(buckets[..])[bucketIdx := peers[i := peer]];
          return;
        }
      }
      if |peers| < 20 {
        buckets[bucketIdx] := peers + [peer];
      }
      peerScores := peerScores[peer.id := peer.score];
      assert buckets[..] == AddPeer(hash, localNodeID, old(View()), peer).buckets;
    }

    method AdjustPeerScore(peerID: Bytes, delta: int)
      modifies this`peerScores
      ensures View() == AdjustScore(old(View()), peerID, delta)
    {
      var score := GetPeerScore(peerID);
      peerScores := peerScores[peerID := score + delta];
    }

    method GetPeerScore(peerID: Bytes) returns (score: int)
      ensures score == ScoreOf(View(), peerID)
    {
      if peerID in peerScores { return peerScores[peerID]; }
      return 0;
    }
  }

  function EmptyTable(): Table {
    Table(seq(BUCKETS, _ => []), map[])
  }

  // ----- the table over a run

  datatype Event = Add(peer: PeerInfo) | Adjust(id: Bytes, delta: int)

  function Step(hash: Hash, local: Bytes, t: Table, e: Event): (r: Table)
    requires |t.buckets| == BUCKETS
    ensures |r.buckets| == BUCKETS
  {
    match e
    case Add(p) => AddPeer(hash, local, t, p)
    case Adjust(id, delta) => AdjustScore(t, id, delta)
  }

  function Exec(hash: Hash, local: Bytes, events: seq<Event>): (t: Table)
    ensures |t.buckets| == BUCKETS
  {
    if events == [] then EmptyTable() else
      Step(hash, local, Exec(hash, local, events[..|events| - 1]), events[|events| - 1])
  }

  /** Every stored peer sits in the bucket of its distance, once, and has a score. */
  ghost predicate BucketOk(hash: Hash, local: Bytes, peers: seq<PeerInfo>, i: nat, scores: map<Bytes, int>) {
    && |peers| <= BUCKET_SIZE
    && (forall k :: 0 <= k < |peers| ==>
          BucketFor(Distance(hash, local, peers[k].id)) == i && peers[k].id in scores)
    && (forall k, l :: 0 <= k < l < |peers| ==> peers[k].id != peers[l].id)
  }

  ghost predicate TableOk(hash: Hash, local: Bytes, t: Table) {
    |t.buckets| == BUCKETS && forall i :: 0 <= i < BUCKETS ==> BucketOk(hash, local, t.buckets[i], i, t.scores)
  }

  lemma AddKeepsTable(hash: Hash, local: Bytes, t: Table, peer: PeerInfo)
    requires TableOk(hash, local, t)
    ensures TableOk(hash, local, AddPeer(hash, local, t, peer))
  {
    var r := AddPeer(hash, local, t, peer);
    forall i | 0 <= i < BUCKETS
      ensures BucketOk(hash, local, r.buckets[i], i, r.scores)
    {
      assert BucketOk(hash, local, t.buckets[i], i, t.scores);
    }
  }

  lemma AdjustKeepsTable(hash: Hash, local: Bytes, t: Table, id: Bytes, delta: int)
    requires TableOk(hash, local, t)
    ensures TableOk(hash, local, AdjustScore(t, id, delta))
  {
  }

  lemma {:induction false} RunKeepsTable(hash: Hash, local: Bytes, events: seq<Event>)
    ensures TableOk(hash, local, Exec(hash, local, events))
  {
    if events != [] {
      var before := Exec(hash, local, events[..|events| - 1]);
      RunKeepsTable(hash, local, events[..|events| - 1]);
      match events[|events| - 1]
      case Add(p) => AddKeepsTable(hash, local, before, p);
      case Adjust(id, delta) => AdjustKeepsTable(hash, local, before, id, delta);
    }
  }

  ghost predicate StoredAt(t: Table, i: int, k: int, id: Bytes) {
    0 <= i < |t.buckets| && 0 <= k < |t.buckets[i]| && t.buckets[i][k].id == id
  }

  /** In every reachable table a stored peer's distance lies in its bucket's range, and it is stored nowhere else. */
  lemma PlacedOnce(hash: Hash, local: Bytes, events: seq<Event>, id: Bytes, i: int, k: int, j: int, l: int)
    requires var t := Exec(hash, local, events);
             StoredAt(t, i, k, id) && StoredAt(t, j, l, id)
    ensures i == j && k == l
    ensures 0 <= i < 256 && |Exec(hash, local, events).buckets[i]| <= 20
    ensures var d := Distance(hash, local, id);
            d < Pow2(i + 1) && (i > 0 ==> Pow2(i) <= d)
  {
    var t := Exec(hash, local, events);
    RunKeepsTable(hash, local, events);
    assert BucketOk(hash, local, t.buckets[i], i, t.scores) && BucketOk(hash, local, t.buckets[j], j, t.scores);
    BucketRange(hash, local, id);
  }

  ghost predicate InTable(t: Table, p: PeerInfo) {
    exists i, k :: 0 <= i < |t.buckets| && 0 <= k < |t.buckets[i]| && t.buckets[i][k] == p
  }

  lemma PositionFinds(peers: seq<PeerInfo>, id: Bytes, k: nat)
    requires k < |peers| && peers[k].id == id
    ensures Position(peers, id) < |peers|
  {
  }

  /** Every record in the new table is the added one or was in the old, and every old record of another id survives. */
  lemma AddKeepsOthers(hash: Hash, local: Bytes, t: Table, peer: PeerInfo, p: PeerInfo)
    requires TableOk(hash, local, t) && p.id != peer.id
    ensures InTable(AddPeer(hash, local, t, peer), p) <==> InTable(t, p)
  {
    var r := AddPeer(hash, local, t, peer);
    if i, k :| 0 <= i < |t.buckets| && 0 <= k < |t.buckets[i]| && t.buckets[i][k] == p {
      assert r.buckets[i][k] == p;
    }
    if i, k :| 0 <= i < |r.buckets| && 0 <= k < |r.buckets[i]| && r.buckets[i][k] == p {
      assert t.buckets[i][k] == p;
    }
  }

  /** The added peer's new record is in the table exactly when its id was known or its bucket had room. */
  lemma AddStoresIff(hash: Hash, local: Bytes, t: Table, peer: PeerInfo)
    requires TableOk(hash, local, t)
    ensures InTable(AddPeer(hash, local, t, peer), peer)
            <==> IsStored(t, peer.id) || |t.buckets[BucketFor(Distance(hash, local, peer.id))]| < 20
  {
    var i := BucketFor(Distance(hash, local, peer.id));
    BucketRange(hash, local, peer.id);
    var peers := t.buckets[i];
    var k := Position(peers, peer.id);
    var r := AddPeer(hash, local, t, peer);
    if j, l :| StoredAt(t, j, l, peer.id) {
      assert BucketOk(hash, local, t.buckets[j], j, t.scores);
      PositionFinds(peers, peer.id, l);
      assert r.buckets[i][k] == peer;
    } else if |peers| < BUCKET_SIZE {
      assert k < |peers| ==> StoredAt(t, i, k, peer.id);
      assert r.buckets[i][|peers|] == peer;
    } else {
      assert k < |peers| ==> StoredAt(t, i, k, peer.id);
      assert r.buckets == t.buckets;
      if j, l :| 0 <= j < |r.buckets| && 0 <= l < |r.buckets[j]| && r.buckets[j][l] == peer {
        assert StoredAt(t, j, l, peer.id);
      }
    }
  }

  // ----- scores

  ghost predicate IsStored(t: Table, id: Bytes) {
    exists i, k :: StoredAt(t, i, k, id)
  }

  ghost function Deltas(id: Bytes, events: seq<Event>): int {
    if events == [] then 0 else
      var e := events[|events| - 1];
      Deltas(id, events[..|events| - 1]) + if e.Adjust? && e.id == id then e.delta else 0
  }

  /** The event at j put the id into the table. */
  ghost predicate InsertedAt(hash: Hash, local: Bytes, events: seq<Event>, id: Bytes, j: int) {
    && 0 <= j < |events| && events[j].Add? && events[j].peer.id == id
    && !IsStored(Exec(hash, local, events[..j]), id) && IsStored(Exec(hash, local, events[..j + 1]), id)
  }

  lemma AddOther(hash: Hash, local: Bytes, t: Table, peer: PeerInfo, id: Bytes)
    requires |t.buckets| == BUCKETS && id != peer.id
    ensures ScoreOf(AddPeer(hash, local, t, peer), id) == ScoreOf(t, id)
    ensures IsStored(AddPeer(hash, local, t, peer), id) ==> IsStored(t, id)
  {
    var r := AddPeer(hash, local, t, peer);
    if i, k :| StoredAt(r, i, k, id) {
      assert StoredAt(t, i, k, id);
    }
  }

  lemma AddNew(hash: Hash, local: Bytes, t: Table, peer: PeerInfo)
    requires |t.buckets| == BUCKETS && !IsStored(t, peer.id)
    ensures ScoreOf(AddPeer(hash, local, t, peer), peer.id) == peer.score
  {
    var i := BucketFor(Distance(hash, local, peer.id));
    BucketRange(hash, local, peer.id);
    var k := Position(t.buckets[i], peer.id);
    assert k < |t.buckets[i]| ==> StoredAt(t, i, k, peer.id);
  }

  /** The score is that of the insertion at j plus every adjustment since. */
  ghost predicate ScoredFrom(hash: Hash, local: Bytes, events: seq<Event>, id: Bytes, j: int) {
    && InsertedAt(hash, local, events, id, j)
    && ScoreOf(Exec(hash, local, events), id) == events[j].peer.score + Deltas(id, events[j + 1..])
  }

  lemma StepKeepsScore(hash: Hash, local: Bytes, t: Table, e: Event, id: Bytes)
    requires TableOk(hash, local, t) && IsStored(t, id)
    ensures ScoreOf(Step(hash, local, t, e), id) == ScoreOf(t, id) + if e.Adjust? && e.id == id then e.delta else 0
  {
  }

  lemma ScoreCarries(hash: Hash, local: Bytes, before: seq<Event>, e: Event, id: Bytes, j: int)
    requires IsStored(Exec(hash, local, before), id) && ScoredFrom(hash, local, before, id, j)
    ensures ScoredFrom(hash, local, before + [e], id, j)
  {
    var events := before + [e];
    assert events[..|events| - 1] == before;
    assert before[..j] == events[..j] && before[..j + 1] == events[..j + 1];
    RunKeepsTable(hash, local, before);
    StepKeepsScore(hash, local, Exec(hash, local, before), e, id);
    var since := events[j + 1..];
    assert since[..|since| - 1] == before[j + 1..] && since[|since| - 1] == e;
  }

  lemma OnlyAddStores(hash: Hash, local: Bytes, t: Table, e: Event, id: Bytes)
    requires |t.buckets| == BUCKETS && !IsStored(t, id) && IsStored(Step(hash, local, t, e), id)
    ensures e.Add? && e.peer.id == id && ScoreOf(Step(hash, local, t, e), id) == e.peer.score
  {
    if e.Add? {
      if e.peer.id == id { AddNew(hash, local, t, e.peer); } else { AddOther(hash, local, t, e.peer, id); }
    } else {
      StoredUnchanged(t, Step(hash, local, t, e), id);
    }
  }

  lemma ScoreStarts(hash: Hash, local: Bytes, before: seq<Event>, e: Event, id: Bytes)
    requires !IsStored(Exec(hash, local, before), id) && IsStored(Exec(hash, local, before + [e]), id)
    ensures ScoredFrom(hash, local, before + [e], id, |before|)
  {
    var events := before + [e];
    assert events[..|before|] == before && events[..|before| + 1] == events && events[|before| + 1..] == [];
    OnlyAddStores(hash, local, Exec(hash, local, before), e, id);
  }

  lemma NothingStored(id: Bytes)
    ensures !IsStored(EmptyTable(), id)
  {
  }

  /** A stored peer's score is the one it was inserted with plus every adjustment since; re-adding changes nothing. */
  lemma {:induction false} ScoreIsSum(hash: Hash, local: Bytes, events: seq<Event>, id: Bytes)
    requires IsStored(Exec(hash, local, events), id)
    ensures exists j :: ScoredFrom(hash, local, events, id, j)
    decreases |events|
  {
    NothingStored(id);
    var before, e := events[..|events| - 1], events[|events| - 1];
    assert events == before + [e];
    if IsStored(Exec(hash, local, before), id) {
      ScoreIsSum(hash, local, before, id);
      var j :| ScoredFrom(hash, local, before, id, j);
      ScoreCarries(hash, local, before, e, id, j);
    } else {
      ScoreStarts(hash, local, before, e, id);
    }
  }

  lemma StoredUnchanged(t: Table, r: Table, id: Bytes)
    requires r.buckets == t.buckets
    ensures IsStored(r, id) <==> IsStored(t, id)
  {
    if i, k :| StoredAt(r, i, k, id) { assert StoredAt(t, i, k, id); }
    if i, k :| StoredAt(t, i, k, id) { assert StoredAt(r, i, k, id); }
  }

  /** The event at j scored an id that was not in the table, whether or not it then found room. */
  ghost predicate ScoredAt(hash: Hash, local: Bytes, events: seq<Event>, id: Bytes, j: int) {
    && 0 <= j < |events| && events[j].Add? && events[j].peer.id == id
    && !IsStored(Exec(hash, local, events[..j]), id)
  }

  lemma ScoredAtPrefix(hash: Hash, local: Bytes, before: seq<Event>, e: Event, id: Bytes, j: int)
    ensures j < |before| ==> (ScoredAt(hash, local, before, id, j) <==> ScoredAt(hash, local, before + [e], id, j))
    ensures ScoredAt(hash, local, before + [e], id, |before|)
            <==> e.Add? && e.peer.id == id && !IsStored(Exec(hash, local, before), id)
  {
    if 0 <= j < |before| { assert before[..j] == (before + [e])[..j]; }
    assert (before + [e])[..|before|] == before;
  }

  /** What the score of an id goes back to: the last time it was scored anew, if ever. */
  ghost predicate ScoredSince(hash: Hash, local: Bytes, events: seq<Event>, id: Bytes, j: int) {
    && (j >= 0 ==> ScoredAt(hash, local, events, id, j))
    && forall k :: ScoredAt(hash, local, events, id, k) ==> k <= j
  }

  lemma StepScore(hash: Hash, local: Bytes, t: Table, e: Event, id: Bytes)
    requires TableOk(hash, local, t)
    ensures ScoreOf(Step(hash, local, t, e), id)
            == if e.Add? && e.peer.id == id && !IsStored(t, id) then e.peer.score
               else ScoreOf(t, id) + if e.Adjust? && e.id == id then e.delta else 0
  {
    if e.Add? {
      if e.peer.id != id { AddOther(hash, local, t, e.peer, id); }
      else if IsStored(t, id) { StepKeepsScore(hash, local, t, e, id); }
      else { AddNew(hash, local, t, e.peer); }
    }
  }

  lemma DeltasAppend(id: Bytes, events: seq<Event>, e: Event)
    ensures Deltas(id, events + [e]) == Deltas(id, events) + if e.Adjust? && e.id == id then e.delta else 0
  {
    assert (events + [e])[..|events|] == events;
  }

  /** The score of any id, stored or not: what it was last scored anew, or 0 if it never was, plus what followed. */
  ghost function ScoreSince(events: seq<Event>, id: Bytes, j: int): int
    requires -1 <= j < |events| && (j >= 0 ==> events[j].Add?)
  {
    (if j >= 0 then events[j].peer.score else 0) + Deltas(id, events[j + 1..])
  }

  lemma SinceNew(hash: Hash, local: Bytes, before: seq<Event>, e: Event, id: Bytes)
    requires e.Add? && e.peer.id == id && !IsStored(Exec(hash, local, before), id)
    ensures ScoredSince(hash, local, before + [e], id, |before|)
    ensures ScoreSince(before + [e], id, |before|) == e.peer.score
  {
    ScoredAtPrefix(hash, local, before, e, id, |before|);
    assert (before + [e])[|before| + 1..] == [];
  }

  lemma ScoreSinceAppend(before: seq<Event>, e: Event, id: Bytes, j: int)
    requires -1 <= j < |before| && (j >= 0 ==> before[j].Add?)
    ensures ScoreSince(before + [e], id, j)
            == ScoreSince(before, id, j) + if e.Adjust? && e.id == id then e.delta else 0
  {
    assert (before + [e])[j + 1..] == before[j + 1..] + [e];
    DeltasAppend(id, before[j + 1..], e);
  }

  lemma ScoredBefore(hash: Hash, local: Bytes, before: seq<Event>, e: Event, id: Bytes, k: int)
    requires !(e.Add? && e.peer.id == id && !IsStored(Exec(hash, local, before), id))
    requires ScoredAt(hash, local, before + [e], id, k)
    ensures ScoredAt(hash, local, before, id, k)
  {
    ScoredAtPrefix(hash, local, before, e, id, k);
  }

  lemma SinceOld(hash: Hash, local: Bytes, before: seq<Event>, e: Event, id: Bytes, j: int)
    requires -1 <= j < |before| && ScoredSince(hash, local, before, id, j)
    requires !(e.Add? && e.peer.id == id && !IsStored(Exec(hash, local, before), id))
    ensures ScoredSince(hash, local, before + [e], id, j)
  {
    ScoredAtPrefix(hash, local, before, e, id, j);
    forall k | ScoredAt(hash, local, before + [e], id, k)
      ensures k <= j
    {
      ScoredBefore(hash, local, before, e, id, k);
    }
  }

  lemma {:induction false} ScoreOfAny(hash: Hash, local: Bytes, events: seq<Event>, id: Bytes) returns (j: int)
    ensures -1 <= j < |events| && ScoredSince(hash, local, events, id, j)
    ensures ScoreOf(Exec(hash, local, events), id) == ScoreSince(events, id, j)
    decreases |events|
  {
    if events == [] {
      j := -1;
    } else {
      var before, e := events[..|events| - 1], events[|events| - 1];
      assert events == before + [e];
      RunKeepsTable(hash, local, before);
      StepScore(hash, local, Exec(hash, local, before), e, id);
      if e.Add? && e.peer.id == id && !IsStored(Exec(hash, local, before), id) {
        j := |before|;
        SinceNew(hash, local, before, e, id);
      } else {
        j := ScoreOfAny(hash, local, before, id);
        SinceOld(hash, local, before, e, id, j);
        ScoreSinceAppend(before, e, id, j);
      }
    }
  }

  // ----- who keeps a place

  function Ids(peers: seq<PeerInfo>): seq<Bytes> {
    seq(|peers|, k requires 0 <= k < |peers| => peers[k].id)
  }

  /** A step leaves every id of a bucket in its place, and adds at most one, behind the others. */
  lemma StepKeepsPlaces(hash: Hash, local: Bytes, t: Table, e: Event, i: nat)
    requires |t.buckets| == BUCKETS && i < BUCKETS
    ensures var (before, after) := (Ids(t.buckets[i]), Ids(Step(hash, local, t, e).buckets[i]));
            before <= after && |after| <= |before| + 1
  {
  }

  lemma {:induction false} RunKeepsPlaces(hash: Hash, local: Bytes, events: seq<Event>, j: nat, i: nat)
    requires j <= |events| && i < BUCKETS
    ensures Ids(Exec(hash, local, events[..j]).buckets[i]) <= Ids(Exec(hash, local, events).buckets[i])
    decreases |events|
  {
    if j == |events| {
      assert events[..j] == events;
    } else {
      var before := events[..|events| - 1];
      assert before[..j] == events[..j];
      RunKeepsPlaces(hash, local, before, j, i);
      StepKeepsPlaces(hash, local, Exec(hash, local, before), events[|events| - 1], i);
    }
  }

  lemma SamePlace(early: Table, late: Table, i: int, k: int, id: Bytes)
    requires |early.buckets| == |late.buckets| && 0 <= i < |early.buckets| && 0 <= k < |early.buckets[i]|
    requires Ids(early.buckets[i]) <= Ids(late.buckets[i])
    ensures StoredAt(early, i, k, id) <==> StoredAt(late, i, k, id)
  {
    assert Ids(early.buckets[i])[k] == Ids(late.buckets[i])[k];
  }

  lemma PlaceKept(hash: Hash, local: Bytes, events: seq<Event>, j: nat, i: int, k: int, id: Bytes)
    requires j <= |events| && 0 <= i < BUCKETS && 0 <= k < |Exec(hash, local, events[..j]).buckets[i]|
    ensures StoredAt(Exec(hash, local, events[..j]), i, k, id) <==> StoredAt(Exec(hash, local, events), i, k, id)
  {
    RunKeepsPlaces(hash, local, events, j, i);
    SamePlace(Exec(hash, local, events[..j]), Exec(hash, local, events), i, k, id);
  }

  /** A peer once stored stays stored. */
  lemma StaysStored(hash: Hash, local: Bytes, events: seq<Event>, j: nat, id: Bytes)
    requires j <= |events| && IsStored(Exec(hash, local, events[..j]), id)
    ensures IsStored(Exec(hash, local, events), id)
  {
    var i, k :| StoredAt(Exec(hash, local, events[..j]), i, k, id);
    PlaceKept(hash, local, events, j, i, k, id);
  }

  lemma NotYet(hash: Hash, local: Bytes, events: seq<Event>, id: Bytes, j: int, m: nat)
    requires InsertedAt(hash, local, events, id, j) && m <= |events| && IsStored(Exec(hash, local, events[..m]), id)
    ensures j < m
  {
    if m <= j {
      assert events[..j][..m] == events[..m];
      StaysStored(hash, local, events[..j], m, id);
    }
  }

  lemma SizeBefore(hash: Hash, local: Bytes, events: seq<Event>, m: nat, i: nat)
    requires m < |events| && i < BUCKETS
    ensures |Exec(hash, local, events[..m + 1]).buckets[i]| <= |Exec(hash, local, events[..m]).buckets[i]| + 1
  {
    assert events[..m + 1][..m] == events[..m];
    StepKeepsPlaces(hash, local, Exec(hash, local, events[..m]), events[m], i);
  }

  /** When it is inserted, the places before its own are taken. */
  lemma NewPlace(hash: Hash, local: Bytes, events: seq<Event>, id: Bytes, m: int, i: int, l: int)
    requires InsertedAt(hash, local, events, id, m) && StoredAt(Exec(hash, local, events), i, l, id)
    ensures 0 <= i < BUCKETS && |Exec(hash, local, events[..m]).buckets[i]| >= l
  {
    var i', l' :| StoredAt(Exec(hash, local, events[..m + 1]), i', l', id);
    PlaceKept(hash, local, events, m + 1, i', l', id);
    PlacedOnce(hash, local, events, id, i, l, i', l');
    SizeBefore(hash, local, events, m, i);
  }

  /** And in every bucket the peers stand in the order in which they were inserted. */
  lemma FirstComeFirstKept(hash: Hash, local: Bytes, events: seq<Event>, p: Bytes, q: Bytes, i: int, k: int, l: int,
                           j: int, m: int)
    requires var t := Exec(hash, local, events);
             StoredAt(t, i, k, p) && StoredAt(t, i, l, q) && k < l
    requires InsertedAt(hash, local, events, p, j) && InsertedAt(hash, local, events, q, m)
    ensures j < m
  {
    NewPlace(hash, local, events, q, m, i, l);
    PlaceKept(hash, local, events, m, i, k, p);
    NotYet(hash, local, events, p, j, m);
  }
}
