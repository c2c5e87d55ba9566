/** Roots over lists of leaf digests, computed level by level with the last node of an odd level paired with itself. */
module Merkle {
  import opened Bytes

  type Digests = seq<Digest>

  // ----- the computation

  function Concat(a: Digest, b: Digest): Bytes {
    var left: Bytes := a;
    left + b
  }

  /** The right neighbour of position i, which is itself at the end of an odd level. */
  function Mate(i: nat, n: nat): nat {
    if i + 1 < n then i + 1 else i
  }

  /** What one level hashes. */
  function Concats(s: Digests): seq<Bytes> {
    seq((|s| + 1) / 2, i requires 0 <= i < (|s| + 1) / 2 => Concat(s[2 * i], s[Mate(2 * i, |s|)]))
  }

  function Hashes(hash: Hash, inputs: seq<Bytes>): Digests {
    seq(|inputs|, i requires 0 <= i < |inputs| => hash(inputs[i]))
  }

  function Level(hash: Hash, s: Digests): Digests {
    Hashes(hash, Concats(s))
  }

  /** What is hashed for the root of the empty list. */
  const EMPTY_STATE := Ascii("empty_state")

  function Root(hash: Hash, s: Digests): Digest
    decreases |s|
  {
    if |s| == 0 then hash(EMPTY_STATE)
    else if |s| == 1 then s[0]
    else Root(hash, Level(hash, s))
  }

  ghost function LevelInputs(s: Digests): set<Bytes> {
    set x | x in Concats(s)
  }

  /** Everything hashed on the way to the root. */
  ghost function Inputs(hash: Hash, s: Digests): set<Bytes>
    decreases |s|
  {
    if |s| == 0 then {EMPTY_STATE} else if |s| == 1 then {} else LevelInputs(s) + Inputs(hash, Level(hash, s))
  }

  /** The loop over one level, and the recursion on the level it built. */
  method ComputeMerkleRoot(hash: Hash, hashes: Digests) returns (root: Digest)
    ensures root == Root(hash, hashes)
    decreases |hashes|
  {
    if |hashes| == 0 { return hash(EMPTY_STATE); }
    if |hashes| == 1 { return hashes[0]; }
    var nextLevel: Digests := [];
    var i := 0;
    while i < |hashes|
      invariant i == 2 * |nextLevel| && |nextLevel| <= (|hashes| + 1) / 2
      invariant forall j :: 0 <= j < |nextLevel| ==> nextLevel[j] == Level(hash, hashes)[j]
    {
      if i + 1 < |hashes| {
        nextLevel := nextLevel + [hash(Concat(hashes[i], hashes[i + 1]))];
      } else {
        nextLevel := nextLevel + [hash(Concat(hashes[i], hashes[i]))];
      }
      i := i + 2;
    }
    assert nextLevel == Level(hash, hashes);
    root := ComputeMerkleRoot(hash, nextLevel);
  }

  // ----- the perfect tree it stands for

  /** The number of levels above n leaves. */
  function Height(n: nat): nat
    requires n > 0
  {
    if n == 1 then 0 else 1 + Height((n + 1) / 2)
  }

  /** The height is the binary logarithm rounded up. */
  lemma {:induction false} HeightIsLog(n: nat)
    requires n > 0
    ensures n <= Pow2(Height(n)) && (n > 1 ==> Pow2(Height(n) - 1) < n)
  {
    if n > 1 {
      HeightIsLog((n + 1) / 2);
    }
  }

  datatype Tree = Leaf(digest: Digest) | Node(left: Tree, right: Tree) {
    function Leaves(): Digests {
      match this
      case Leaf(d) => [d]
      case Node(l, r) => l.Leaves() + r.Leaves()
    }

    /** The root hashed from the top down. */
    function TreeRoot(hash: Hash): Digest {
      match this
      case Leaf(d) => d
      case Node(l, r) =>
        var left: Bytes := l.TreeRoot(hash);
        hash(left + r.TreeRoot(hash))
    }

    /** Every leaf is at depth h. */
    ghost predicate PerfectOf(h: nat) {
      match this
      case Leaf(_) => h == 0
      case Node(l, r) => h > 0 && l.PerfectOf(h - 1) && r.PerfectOf(h - 1)
    }
  }

  function Singles<T>(s: seq<T>): seq<seq<T>> {
    seq(|s|, i requires 0 <= i < |s| => [s[i]])
  }

  function PairBlocks<T>(blocks: seq<seq<T>>): seq<seq<T>> {
    seq((|blocks| + 1) / 2, i requires 0 <= i < (|blocks| + 1) / 2 => blocks[2 * i] + blocks[Mate(2 * i, |blocks|)])
  }

  function PadBlocks<T>(blocks: seq<seq<T>>): seq<T>
    requires |blocks| > 0
    decreases |blocks|
  {
    if |blocks| == 1 then blocks[0] else PadBlocks(PairBlocks(blocks))
  }

  /** The leaves padded to a power of two: at each odd level, the last subtree's leaves are repeated. */
  function Pad<T>(s: seq<T>): seq<T>
    requires |s| > 0
  {
    PadBlocks(Singles(s))
  }

  lemma {:induction false} PadBlocksSize<T>(blocks: seq<seq<T>>, size: nat)
    requires |blocks| > 0 && forall i :: 0 <= i < |blocks| ==> |blocks[i]| == size
    ensures |PadBlocks(blocks)| == size * Pow2(Height(|blocks|))
    decreases |blocks|
  {
    if |blocks| > 1 {
      var pairs := PairBlocks(blocks);
      forall i | 0 <= i < |pairs|
        ensures |pairs[i]| == 2 * size
      {
        assert pairs[i] == blocks[2 * i] + blocks[Mate(2 * i, |blocks|)];
      }
      PadBlocksSize(pairs, 2 * size);
      DoubleShift(size, Pow2(Height(|pairs|)));
    } else {
      assert Pow2(Height(|blocks|)) == 1;
    }
  }

  lemma DoubleShift(a: int, b: int)
    ensures (2 * a) * b == a * (2 * b)
  {
  }

  lemma PadSize<T>(s: seq<T>)
    requires |s| > 0
    ensures |Pad(s)| == Pow2(Height(|s|))
  {
    PadBlocksSize(Singles(s), 1);
  }

  /** Padding neither loses nor invents an element. */
  lemma {:induction false} PadBlocksElements<T>(blocks: seq<seq<T>>, x: T)
    requires |blocks| > 0
    ensures x in PadBlocks(blocks) <==> exists i :: 0 <= i < |blocks| && x in blocks[i]
    decreases |blocks|
  {
    if |blocks| > 1 {
      var pairs := PairBlocks(blocks);
      PadBlocksElements(pairs, x);
      if j :| 0 <= j < |pairs| && x in pairs[j] {
        assert pairs[j] == blocks[2 * j] + blocks[Mate(2 * j, |blocks|)];
        assert x in blocks[2 * j] || x in blocks[Mate(2 * j, |blocks|)];
      }
      if i :| 0 <= i < |blocks| && x in blocks[i] {
        assert x in pairs[i / 2];
      }
    }
  }

  lemma PadElements<T>(s: seq<T>, x: T)
    requires |s| > 0
    ensures x in Pad(s) <==> x in s
  {
    PadBlocksElements(Singles(s), x);
    if x in s {
      var i :| 0 <= i < |s| && s[i] == x;
      assert x in Singles(s)[i];
    }
  }

  // ----- padding commutes with going up a level

  lemma ConcatsAppend(a: Digests, b: Digests)
    requires |a| % 2 == 0
    ensures Concats(a + b) == Concats(a) + Concats(b)
  {
  }

  lemma {:induction false} PadBlocksConcats(blocks: seq<Digests>, above: seq<seq<Bytes>>)
    requires |blocks| == |above| > 0
    requires forall i :: 0 <= i < |blocks| ==> |blocks[i]| % 2 == 0 && above[i] == Concats(blocks[i])
    ensures Concats(PadBlocks(blocks)) == PadBlocks(above)
    decreases |blocks|
  {
    if |blocks| > 1 {
      var b, c := PairBlocks(blocks), PairBlocks(above);
      forall i | 0 <= i < |b|
        ensures |b[i]| % 2 == 0 && c[i] == Concats(b[i])
      {
        ConcatsAppend(blocks[2 * i], blocks[Mate(2 * i, |blocks|)]);
      }
      PadBlocksConcats(b, c);
    }
  }

  lemma {:induction false} PadBlocksHashes(hash: Hash, blocks: seq<seq<Bytes>>, above: seq<Digests>)
    requires |blocks| == |above| > 0
    requires forall i :: 0 <= i < |blocks| ==> above[i] == Hashes(hash, blocks[i])
    ensures Hashes(hash, PadBlocks(blocks)) == PadBlocks(above)
    decreases |blocks|
  {
    if |blocks| > 1 {
      var b, c := PairBlocks(blocks), PairBlocks(above);
      forall i | 0 <= i < |b|
        ensures c[i] == Hashes(hash, b[i])
      {
        assert c[i] == above[2 * i] + above[Mate(2 * i, |above|)];
      }
      PadBlocksHashes(hash, b, c);
    }
  }

  lemma PadConcats(s: Digests)
    requires |s| > 1
    ensures Concats(Pad(s)) == Pad(Concats(s))
  {
    var pairs, above := PairBlocks(Singles(s)), Singles(Concats(s));
    forall i | 0 <= i < |pairs|
      ensures |pairs[i]| % 2 == 0 && above[i] == Concats(pairs[i])
    {
      assert pairs[i] == [s[2 * i], s[Mate(2 * i, |s|)]];
      assert above[i] == [Concat(s[2 * i], s[Mate(2 * i, |s|)])];
      assert Concats(pairs[i])[0] == above[i][0];
    }
    PadBlocksConcats(pairs, above);
  }

  lemma PadLevel(hash: Hash, s: Digests)
    requires |s| > 1
    ensures Level(hash, Pad(s)) == Pad(Level(hash, s))
  {
    PadConcats(s);
    var blocks, above := Singles(Concats(s)), Singles(Level(hash, s));
    forall i | 0 <= i < |blocks|
      ensures above[i] == Hashes(hash, blocks[i])
    {
      assert above[i] == [hash(Concats(s)[i])];
    }
    PadBlocksHashes(hash, blocks, above);
  }

  /** The padded list has the same root, and hashes the same inputs on the way. */
  lemma {:induction false} PadKeepsRoot(hash: Hash, s: Digests)
    requires |s| > 0
    ensures Root(hash, Pad(s)) == Root(hash, s)
    ensures Inputs(hash, Pad(s)) == Inputs(hash, s)
    decreases |s|
  {
    if |s| == 1 {
      assert Pad(s) == s;
    } else {
      var up := Level(hash, s);
      PadLevel(hash, s);
      PadConcats(s);
      PadKeepsRoot(hash, up);
      PadSize(s);
      HeightIsLog(|s|);
      forall x: Bytes
        ensures x in Concats(Pad(s)) <==> x in Concats(s)
      {
        PadElements(Concats(s), x);
      }
    }
  }

  // ----- the root is that of a perfect tree

  function Pairs(trees: seq<Tree>): seq<Tree> {
    seq((|trees| + 1) / 2, i requires 0 <= i < (|trees| + 1) / 2 => Node(trees[2 * i], trees[Mate(2 * i, |trees|)]))
  }

  function Build(trees: seq<Tree>): Tree
    requires |trees| > 0
    decreases |trees|
  {
    if |trees| == 1 then trees[0] else Build(Pairs(trees))
  }

  lemma {:induction false} BuildIsPerfect(trees: seq<Tree>, h: nat)
    requires |trees| > 0 && forall i :: 0 <= i < |trees| ==> trees[i].PerfectOf(h)
    ensures Build(trees).PerfectOf(h + Height(|trees|))
    decreases |trees|
  {
    if |trees| > 1 {
      BuildIsPerfect(Pairs(trees), h + 1);
    }
  }

  lemma {:induction false} BuildLeaves(trees: seq<Tree>, blocks: seq<Digests>)
    requires |trees| == |blocks| > 0 && forall i :: 0 <= i < |trees| ==> blocks[i] == trees[i].Leaves()
    ensures Build(trees).Leaves() == PadBlocks(blocks)
    decreases |trees|
  {
    if |trees| > 1 {
      BuildLeaves(Pairs(trees), PairBlocks(blocks));
    }
  }

  lemma {:induction false} BuildRoot(hash: Hash, trees: seq<Tree>, s: Digests)
    requires |trees| == |s| > 0 && forall i :: 0 <= i < |trees| ==> s[i] == trees[i].TreeRoot(hash)
    ensures Build(trees).TreeRoot(hash) == Root(hash, s)
    decreases |trees|
  {
    if |trees| > 1 {
      var pairs, up := Pairs(trees), Level(hash, s);
      forall i | 0 <= i < |pairs|
        ensures up[i] == pairs[i].TreeRoot(hash)
      {
        assert up[i] == hash(Concats(s)[i]);
      }
      BuildRoot(hash, pairs, up);
    }
  }

  /** The level-by-level root is the top-down root of the perfect tree of logarithmic height over the padded leaves. */
  lemma RootIsPerfectTree(hash: Hash, s: Digests)
    requires |s| > 0
    ensures exists t: Tree :: t.PerfectOf(Height(|s|)) && t.Leaves() == Pad(s) && t.TreeRoot(hash) == Root(hash, s)
  {
    var leaves := seq(|s|, i requires 0 <= i < |s| => Leaf(s[i]));
    BuildIsPerfect(leaves, 0);
    BuildLeaves(leaves, Singles(s));
    BuildRoot(hash, leaves, s);
  }

  // ----- binding

  lemma ConcatBinds(a: Digest, b: Digest, c: Digest, d: Digest)
    requires Concat(a, b) == Concat(c, d)
    ensures a == c && b == d
  {
    assert a == Concat(a, b)[..32] && b == Concat(a, b)[32..];
    assert c == Concat(c, d)[..32] && d == Concat(c, d)[32..];
  }

  lemma ConcatsBind(a: Digests, b: Digests, k: nat)
    requires |a| == |b| && k < |a| && a[k] != b[k]
    ensures Concats(a)[k / 2] != Concats(b)[k / 2]
  {
    var i := k / 2;
    assert k == 2 * i || k == Mate(2 * i, |a|);
    if Concats(a)[i] == Concats(b)[i] {
      ConcatBinds(a[2 * i], a[Mate(2 * i, |a|)], b[2 * i], b[Mate(2 * i, |b|)]);
    }
  }

  lemma LevelBinds(hash: Hash, a: Digests, b: Digests)
    requires |a| == |b| > 1 && Level(hash, a) == Level(hash, b) && a != b
    ensures Collide(hash, Inputs(hash, a), Inputs(hash, b))
  {
    var k :| 0 <= k < |a| && a[k] != b[k];
    var x, y := Concats(a)[k / 2], Concats(b)[k / 2];
    ConcatsBind(a, b, k);
    assert Level(hash, a)[k / 2] == hash(x) && Level(hash, b)[k / 2] == hash(y);
    assert x in Inputs(hash, a) && y in Inputs(hash, b) && Collision(hash, x, y);
  }

  /** Lists of one length with one root are the same list, unless two of the hashed inputs collide. */
  lemma {:induction false} RootBinds(hash: Hash, a: Digests, b: Digests)
    requires |a| == |b| > 0 && Root(hash, a) == Root(hash, b)
    ensures a == b || Collide(hash, Inputs(hash, a), Inputs(hash, b))
    decreases |a|
  {
    if |a| > 1 {
      var p, q := Level(hash, a), Level(hash, b);
      RootBinds(hash, p, q);
      if p != q {
        var x, y :| x in Inputs(hash, p) && y in Inputs(hash, q) && Collision(hash, x, y);
        assert x in Inputs(hash, a) && y in Inputs(hash, b);
      } else if a != b {
        LevelBinds(hash, a, b);
      }
    }
  }

  /** The k-th level above the list. */
  function Up(hash: Hash, s: Digests, k: nat): (r: Digests)
    requires |s| > 0
    ensures |r| > 0
  {
    if k == 0 then s else
      var below := Up(hash, s, k - 1);
      if |below| == 1 then below else Level(hash, below)
  }

  lemma {:induction false} UpHeight(hash: Hash, s: Digests, k: nat)
    requires |s| > 0 && k <= Height(|s|)
    ensures Height(|Up(hash, s, k)|) == Height(|s|) - k
  {
    if k > 0 { UpHeight(hash, s, k - 1); }
  }

  lemma {:induction false} UpRoot(hash: Hash, s: Digests, k: nat)
    requires |s| > 0
    ensures Root(hash, Up(hash, s, k)) == Root(hash, s)
  {
    if k > 0 { UpRoot(hash, s, k - 1); }
  }

  ghost predicate Within(p: set<Bytes>, q: set<Bytes>) {
    p <= q
  }

  lemma LevelShrinks(hash: Hash, s: Digests, up: Digests, all: set<Bytes>)
    requires up == s || (|s| > 1 && up == Level(hash, s))
    requires Within(Inputs(hash, s), all)
    ensures Within(Inputs(hash, up), all)
  {
  }

  lemma {:induction false} UpInputs(hash: Hash, s: Digests, k: nat, up: Digests)
    requires |s| > 0 && up == Up(hash, s, k)
    ensures Within(Inputs(hash, up), Inputs(hash, s))
    decreases k
  {
    if k > 0 {
      var below := Up(hash, s, k - 1);
      UpInputs(hash, s, k - 1, below);
      LevelShrinks(hash, below, up, Inputs(hash, s));
    }
  }

  /** Any level of a list has its root, is that much less high, and hashes part of what the list hashes. */
  lemma UpIsLevel(hash: Hash, s: Digests, k: nat, up: Digests)
    requires |s| > 0 && k <= Height(|s|) && up == Up(hash, s, k)
    ensures Height(|up|) == Height(|s|) - k
    ensures Root(hash, up) == Root(hash, s) && Inputs(hash, up) <= Inputs(hash, s)
  {
    UpHeight(hash, s, k);
    UpRoot(hash, s, k);
    UpInputs(hash, s, k, up);
  }

  /** How many levels a tree over m leaves has above one over n. */
  function Excess(m: nat, n: nat): nat
    requires m > 0 && n > 0
  {
    if Height(m) > Height(n) then Height(m) - Height(n) else 0
  }

  /** The list brought down to the height of the other, if it is higher. */
  function Aligned(hash: Hash, s: Digests, other: Digests): (r: Digests)
    requires |s| > 0 && |other| > 0
    ensures |r| > 0
  {
    Up(hash, s, Excess(|s|, |other|))
  }

  lemma SameHeightBinds(hash: Hash, a: Digests, b: Digests)
    requires |a| > 0 && |b| > 0 && Height(|a|) == Height(|b|)
    ensures Pad(a) == Pad(b) ==> Root(hash, a) == Root(hash, b)
    ensures Root(hash, a) == Root(hash, b) ==> Pad(a) == Pad(b) || Collide(hash, Inputs(hash, a), Inputs(hash, b))
  {
    PadKeepsRoot(hash, a);
    PadKeepsRoot(hash, b);
    if Root(hash, a) == Root(hash, b) {
      var p, q := Pad(a), Pad(b);
      assert |p| == |q| > 0 by {
        PadSize(a);
        PadSize(b);
        HeightIsLog(|a|);
      }
      RootBinds(hash, p, q);
    }
  }

  lemma AlignedBinds(hash: Hash, a: Digests, b: Digests)
    requires |a| > 0 && |b| > 0
    ensures Pad(Aligned(hash, a, b)) == Pad(Aligned(hash, b, a)) ==> Root(hash, a) == Root(hash, b)
    ensures Root(hash, a) == Root(hash, b) ==>
              Pad(Aligned(hash, a, b)) == Pad(Aligned(hash, b, a))
              || Collide(hash, Inputs(hash, a), Inputs(hash, b))
  {
    UpIsLevel(hash, a, Excess(|a|, |b|), Aligned(hash, a, b));
    UpIsLevel(hash, b, Excess(|b|, |a|), Aligned(hash, b, a));
    SameHeightBinds(hash, Aligned(hash, a, b), Aligned(hash, b, a));
  }

  /** A root over two or more leaves is the digest of two digests, and so of no other length. */
  lemma {:induction false} RootOfTwo(hash: Hash, s: Digests) returns (x: Bytes)
    requires |s| > 1
    ensures |x| == 64 && x in Inputs(hash, s) && Root(hash, s) == hash(x)
    decreases |s|
  {
    if |s| == 2 {
      x := Concats(s)[0];
      assert Level(hash, s)[0] == hash(x);
    } else {
      x := RootOfTwo(hash, Level(hash, s));
    }
  }

  /** The one non-empty list with the root of the empty one, collisions apart. */
  lemma EmptyBinds(hash: Hash, s: Digests)
    requires |s| > 0
    ensures s == [hash(EMPTY_STATE)] ==> Root(hash, s) == Root(hash, [])
    ensures Root(hash, s) == Root(hash, []) ==>
              s == [hash(EMPTY_STATE)]
              || (Collide(hash, Inputs(hash, s), Inputs(hash, [])) && Collide(hash, Inputs(hash, []), Inputs(hash, s)))
  {
    if |s| > 1 && Root(hash, s) == Root(hash, []) {
      var x := RootOfTwo(hash, s);
      assert EMPTY_STATE in Inputs(hash, []);
      assert Collision(hash, x, EMPTY_STATE) && Collision(hash, EMPTY_STATE, x);
    }
  }

  /**
   What the root does not tell apart: lists that are equal once padded, the higher one taken at the level where it is as
   high as the other, and the empty list and the one leaf that is its root.
  */
  ghost predicate Alike(hash: Hash, a: Digests, b: Digests) {
    if a == b then true
    else if a == [] then b == [hash(EMPTY_STATE)]
    else if b == [] then a == [hash(EMPTY_STATE)]
    else Pad(Aligned(hash, a, b)) == Pad(Aligned(hash, b, a))
  }

  /** What a root says about its list: collisions apart, any two lists have one root if and only if they are alike. */
  lemma RootBindsIff(hash: Hash, a: Digests, b: Digests)
    ensures Alike(hash, a, b) ==> Root(hash, a) == Root(hash, b)
    ensures Root(hash, a) == Root(hash, b) ==>
              Alike(hash, a, b) || Collide(hash, Inputs(hash, a), Inputs(hash, b))
  {
    if a == b {
    } else if a == [] {
      EmptyBinds(hash, b);
    } else if b == [] {
      EmptyBinds(hash, a);
    } else {
      AlignedBinds(hash, a, b);
    }
  }

  /**
   So neither the shape is bound: nothing tells an inner node from a leaf, and the one digest over two leaves is itself
   a list with the root of the two, with nothing hashed for it that could collide.
  */
  lemma InnerNodeAsLeaf(hash: Hash, x: Digest, y: Digest)
    ensures var inner := [hash(Concat(x, y))];
            && Root(hash, inner) == Root(hash, [x, y])
            && Pad(inner) != Pad([x, y])
            && Inputs(hash, inner) == {}
  {
    var pair := [x, y];
    assert Concats(pair) == [Concat(x, y)];
    assert Level(hash, pair) == [hash(Concat(x, y))];
    PadSize(pair);
    PadSize([hash(Concat(x, y))]);
  }

  lemma OddConcats(s: Digests, t: Digests)
    requires |s| > 1 && |s| % 2 == 1 && t == s + [s[|s| - 1]]
    ensures Concats(s) == Concats(t)
  {
  }

  /** Nor the length: a list of odd length and the same list with its last leaf repeated share their root. */
  lemma OddListRepeated(hash: Hash, s: Digests)
    requires |s| > 1 && |s| % 2 == 1
    ensures Root(hash, s + [s[|s| - 1]]) == Root(hash, s)
  {
    OddConcats(s, s + [s[|s| - 1]]);
  }
}
