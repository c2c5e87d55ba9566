/** The key-value state whose batch of changes is summed up in one Merkle root. */
module MerkleState {
  import opened Bytes
  import opened KeyOrder
  import opened Merkle

  /** What is hashed for the leaves: each key followed by its value. */
  ghost function LeafInputs(keys: seq<Bytes>, values: map<Bytes, Bytes>): seq<Bytes>
    requires forall i :: 0 <= i < |keys| ==> keys[i] in values
  {
    seq(|keys|, i requires 0 <= i < |keys| => keys[i] + values[keys[i]])
  }

  ghost function BatchLeafInputs(changes: map<Bytes, Bytes>): (r: seq<Bytes>)
    ensures |r| == |changes|
  {
    OrderedKeys(changes.Keys);
    assert |InOrder(changes.Keys)| == |multiset(InOrder(changes.Keys))| == |multiset(changes.Keys)| == |changes.Keys|;
    assert |changes.Keys| == |changes|;
    LeafInputs(InOrder(changes.Keys), changes)
  }

  /** The root of a batch: over its own keys in order. */
  ghost function BatchRoot(hash: Hash, changes: map<Bytes, Bytes>): Digest {
    Root(hash, BatchLeaves(hash, changes))
  }

  /** Everything hashed for a batch. */
  ghost function BatchInputs(hash: Hash, changes: map<Bytes, Bytes>): set<Bytes> {
    (set x | x in BatchLeafInputs(changes)) + Inputs(hash, BatchLeaves(hash, changes))
  }

  ghost function BatchLeaves(hash: Hash, changes: map<Bytes, Bytes>): Digests {
    Hashes(hash, BatchLeafInputs(changes))
  }

  /** The leaves of a batch: for its keys in order, however that came about, the digest of each key and its value. */
  lemma LeavesInKeyOrder(hash: Hash, changes: map<Bytes, Bytes>, keys: seq<Bytes>)
    requires ListsInOrder(keys, changes.Keys)
    ensures |BatchLeaves(hash, changes)| == |keys|
    ensures forall i :: 0 <= i < |keys| ==>
              keys[i] in changes && BatchLeaves(hash, changes)[i] == hash(keys[i] + changes[keys[i]])
  {
    SortedUnique(keys, InOrder(changes.Keys));
    OrderedKeys(changes.Keys);
  }

  /**
   So the root of a batch that is not empty is the top-down root of a perfect tree over those digests, padded by
   repeating the last subtree.
  */
  lemma BatchIsPerfectTree(hash: Hash, changes: map<Bytes, Bytes>, keys: seq<Bytes>, leaves: Digests)
    requires ListsInOrder(keys, changes.Keys) && keys != [] && |leaves| == |keys|
    requires forall i :: 0 <= i < |keys| ==> keys[i] in changes && leaves[i] == hash(keys[i] + changes[keys[i]])
    ensures exists t: Tree ::
              t.PerfectOf(Height(|keys|)) && t.Leaves() == Pad(leaves) && t.TreeRoot(hash) == BatchRoot(hash, changes)
  {
    LeavesInKeyOrder(hash, changes, keys);
    assert leaves == BatchLeaves(hash, changes);
    RootIsPerfectTree(hash, leaves);
  }

  /** Collisions apart, any two batches have one root if and only if their leaf digests are alike. */
  lemma BatchRootBindsIff(hash: Hash, p: map<Bytes, Bytes>, q: map<Bytes, Bytes>)
    ensures Alike(hash, BatchLeaves(hash, p), BatchLeaves(hash, q)) ==> BatchRoot(hash, p) == BatchRoot(hash, q)
    ensures BatchRoot(hash, p) == BatchRoot(hash, q) ==>
              Alike(hash, BatchLeaves(hash, p), BatchLeaves(hash, q))
              || Collide(hash, BatchInputs(hash, p), BatchInputs(hash, q))
  {
    var a, b := BatchLeaves(hash, p), BatchLeaves(hash, q);
    RootBindsIff(hash, a, b);
    if BatchRoot(hash, p) == BatchRoot(hash, q) && !Alike(hash, a, b) {
      var x, y :| x in Inputs(hash, a) && y in Inputs(hash, b) && Collision(hash, x, y);
      assert x in BatchInputs(hash, p) && y in BatchInputs(hash, q);
    }
  }

  /** And if they are of one size, if and only if the same bytes are hashed for their leaves. */
  lemma BatchRootBinds(hash: Hash, p: map<Bytes, Bytes>, q: map<Bytes, Bytes>)
    requires |p| == |q|
    ensures BatchLeafInputs(p) == BatchLeafInputs(q) ==> BatchRoot(hash, p) == BatchRoot(hash, q)
    ensures BatchRoot(hash, p) == BatchRoot(hash, q) ==>
              BatchLeafInputs(p) == BatchLeafInputs(q) || Collide(hash, BatchInputs(hash, p), BatchInputs(hash, q))
  {
    var x, y := BatchLeafInputs(p), BatchLeafInputs(q);
    var a, b := Hashes(hash, x), Hashes(hash, y);
    if BatchRoot(hash, p) == BatchRoot(hash, q) && x != y {
      RootBinds(hash, a, b);
      if a == b {
        var i :| 0 <= i < |x| && x[i] != y[i];
        assert a[i] == hash(x[i]) && b[i] == hash(y[i]);
        assert x[i] in BatchInputs(hash, p) && y[i] in BatchInputs(hash, q) && Collision(hash, x[i], y[i]);
      } else {
        var u, v :| u in Inputs(hash, a) && v in Inputs(hash, b) && Collision(hash, u, v);
        assert u in BatchInputs(hash, p) && v in BatchInputs(hash, q);
      }
    }
  }

  /** The empty batch has the root of the batch that puts nothing under the key "empty_state". */
  lemma EmptyBatch(hash: Hash)
    ensures BatchRoot(hash, map[]) == hash(Ascii("empty_state"))
    ensures BatchRoot(hash, map[]) == BatchRoot(hash, map[EMPTY_STATE := []])
    ensures BatchLeafInputs(map[]) != BatchLeafInputs(map[EMPTY_STATE := []])
  {
    var one: map<Bytes, Bytes> := map[EMPTY_STATE := []];
    InOrderOne(EMPTY_STATE);
    assert one.Keys == {EMPTY_STATE};
    assert BatchLeafInputs(one) == [EMPTY_STATE + []] && EMPTY_STATE + [] == EMPTY_STATE;
    assert BatchLeaves(hash, one) == [hash(EMPTY_STATE)] && BatchLeaves(hash, map[]) == [];
    BatchRootBindsIff(hash, map[], one);
  }

  /** A batch with the one key h1 + h2 and no value has the root of any batch whose two leaves are h1 and h2. */
  lemma BatchOfInnerNode(hash: Hash, inner: map<Bytes, Bytes>, pair: map<Bytes, Bytes>, h1: Digest, h2: Digest)
    requires inner == map[Concat(h1, h2) := []] && BatchLeaves(hash, pair) == [h1, h2]
    ensures BatchRoot(hash, inner) == BatchRoot(hash, pair)
  {
    var key := Concat(h1, h2);
    InOrderOne(key);
    assert inner.Keys == {key};
    assert BatchLeafInputs(inner) == [key + []];
    assert Concat(h1, h2) + [] == Concat(h1, h2);
    assert Hashes(hash, BatchLeafInputs(inner)) == [hash(Concat(h1, h2))];
    InnerNodeAsLeaf(hash, h1, h2);
  }

  /** What has been moved and what is left make up the whole. */
  ghost predicate Moving(moved: map<Bytes, Bytes>, rest: map<Bytes, Bytes>, all: map<Bytes, Bytes>) {
    moved + rest == all
  }

  lemma MoveOne(m: map<Bytes, Bytes>, m': map<Bytes, Bytes>, rest: map<Bytes, Bytes>, rest': map<Bytes, Bytes>,
                k: Bytes, all: map<Bytes, Bytes>)
    requires k in rest && m' == m[k := rest[k]] && rest' == rest - {k} && Moving(m, rest, all)
    ensures Moving(m', rest', all) && rest'.Keys < rest.Keys
  {
    assert k in rest.Keys && k !in rest'.Keys;
  }

  lemma AllMoved(m: map<Bytes, Bytes>, all: map<Bytes, Bytes>)
    requires Moving(m, map[], all)
    ensures m == all
  {
  }

  class MerkleState {
    var kvState: map<Bytes, Bytes>
    var storage: map<Bytes, Bytes>

    constructor ()
      ensures kvState == storage == map[]
    {
      kvState, storage := map[], map[];
    }

    method Store(changes: map<Bytes, Bytes>)
      modifies this
      ensures kvState == old(kvState) + changes && storage == old(storage) + changes
    {
      var rest := changes;
      ghost var all, stored := kvState + changes, storage + changes;
      while rest != map[]
        invariant Moving(kvState, rest, all) && Moving(storage, rest, stored)
        decreases rest.Keys
      {
        var k :| k in rest;
        ghost var kv, st := kvState, storage;
        kvState, storage := kvState[k := rest[k]], storage[k := rest[k]];
        MoveOne(kv, kvState, rest, rest - {k}, k, all);
        MoveOne(st, storage, rest, rest - {k}, k, stored);
        rest := rest - {k};
      }
      AllMoved(kvState, all);
      AllMoved(storage, stored);
    }

    method HashLeaves(hash: Hash, keys: seq<Bytes>) returns (leafHashes: Digests)
      requires forall i :: 0 <= i < |keys| ==> keys[i] in kvState
      ensures leafHashes == Hashes(hash, LeafInputs(keys, kvState))
    {
      leafHashes := [];
      for i := 0 to |keys|
        invariant |leafHashes| == i
        invariant forall j :: 0 <= j < i ==> leafHashes[j] == hash(keys[j] + kvState[keys[j]])
      {
        leafHashes := leafHashes + [hash(keys[i] + kvState[keys[i]])];
      }
    }

    /** The root sums up this batch, in whatever order the map of changes is ranged over, and nothing applied before. */
    method ApplyChanges(hash: Hash, changes: map<Bytes, Bytes>) returns (root: Digest)
      modifies this
      ensures kvState == old(kvState) + changes && storage == old(storage) + changes
      ensures root == BatchRoot(hash, changes)
    {
      Store(changes);
      var keys := SortedKeys(changes.Keys);
      OrderedKeys(changes.Keys);
      var leafHashes := HashLeaves(hash, keys);
      assert LeafInputs(keys, kvState) == BatchLeafInputs(changes);
      root := ComputeMerkleRoot(hash, leafHashes);
    }
  }
}
