/** Byte strings, digests and the small result types shared by every component. */
module Bytes {
  type byte = bv8

  /** A Go `[]byte` or `string`: both are byte strings. */
  type Bytes = seq<byte>

  /** A SHA-256 digest: 32 bytes. The hash itself is always a parameter of type `Hash`, never assumed injective. */
  type Digest = d: Bytes | |d| == 32 witness seq(32, _ => 0)

  type Hash = Bytes -> Digest

  datatype Option<+T> = None | Some(value: T)

  /** The bytes of an ASCII literal. */
  function Ascii(s: string): (r: Bytes)
    ensures |r| == |s|
  {
    seq(|s|, i requires 0 <= i < |s| => (s[i] as int % 256) as byte)
  }

  /** Two distinct inputs with the same digest. */
  ghost predicate Collision(hash: Hash, x: Bytes, y: Bytes) {
    x != y && hash(x) == hash(y)
  }

  /** An input from one set and a different one from the other have the same digest. */
  ghost predicate Collide(hash: Hash, p: set<Bytes>, q: set<Bytes>) {
    exists x, y :: x in p && y in q && Collision(hash, x, y)
  }

  function Pow2(n: nat): nat {
    if n == 0 then 1 else 2 * Pow2(n - 1)
  }
}
