/**
 The key-value application. The root it recalculates is a function of its contents alone; the root it keeps is the one
 of its last success, which need not be that of its contents now.
*/
module KVStore {
  import opened Bytes
  import opened HexText
  import opened KeyOrder

  datatype Operation = Put | Delete | Unsupported

  datatype Payload = Payload(op: Operation, key: Bytes, value: Bytes)

  /** What the JSON decoder makes of a command: a payload, or an error. */
  type Decoder = Bytes -> Option<Payload>

  datatype KV = KV(inMemory: map<Bytes, Bytes>, stateRoot: Bytes)

  function Genesis(): KV {
    KV(map[], Ascii("kv_genesis_root"))
  }

  // ----- the root

  /** What is written to the hash: each key followed by its value. */
  ghost function Written(keys: seq<Bytes>, values: map<Bytes, Bytes>): Bytes
    requires forall i :: 0 <= i < |keys| ==> keys[i] in values
  {
    if keys == [] then [] else
      Written(keys[..|keys| - 1], values) + keys[|keys| - 1] + values[keys[|keys| - 1]]
  }

  ghost function RootOf(hash: Hash, values: map<Bytes, Bytes>): (r: Bytes)
    ensures r != []
  {
    Hex(hash(Contents(values)))
  }

  /** What is written to the hash for these contents: the keys in order, each followed by its value. */
  ghost function Contents(values: map<Bytes, Bytes>): Bytes {
    OrderedKeys(values.Keys);
    Written(InOrder(values.Keys), values)
  }

  /** Collisions apart, roots are equal if and only if the bytes written for the contents are. */
  lemma RootBindsContents(hash: Hash, p: map<Bytes, Bytes>, q: map<Bytes, Bytes>)
    ensures Contents(p) == Contents(q) ==> RootOf(hash, p) == RootOf(hash, q)
    ensures RootOf(hash, p) == RootOf(hash, q) ==>
              Contents(p) == Contents(q) || Collision(hash, Contents(p), Contents(q))
  {
    if RootOf(hash, p) == RootOf(hash, q) {
      HexInjective(hash(Contents(p)), hash(Contents(q)));
    }
  }

  /** Which is less than the contents: where a key ends and its value begins is not written. */
  lemma KeyBoundaryNotBound(hash: Hash, key: Bytes, c: byte, value: Bytes)
    ensures Contents(map[key := [c] + value]) == Contents(map[key + [c] := value])
    ensures RootOf(hash, map[key := [c] + value]) == RootOf(hash, map[key + [c] := value])
    ensures map[key := [c] + value] != map[key + [c] := value]
  {
    OneKey(map[key := [c] + value], key);
    OneKey(map[key + [c] := value], key + [c]);
    assert key + ([c] + value) == key + [c] + value;
    assert |key + [c]| == |key| + 1;
    assert key !in map[key + [c] := value];
  }

  lemma OneKey(values: map<Bytes, Bytes>, key: Bytes)
    requires values.Keys == {key}
    ensures Contents(values) == key + values[key]
  {
    InOrderOne(key);
    OrderedKeys(values.Keys);
    assert [key][..0] == [];
    assert Written([], values) == [];
  }

  lemma {:induction false} WrittenIn(keys: seq<Bytes>, p: map<Bytes, Bytes>, q: map<Bytes, Bytes>)
    requires forall i :: 0 <= i < |keys| ==> keys[i] in p && keys[i] in q && p[keys[i]] == q[keys[i]]
    ensures Written(keys, p) == Written(keys, q)
  {
    if keys != [] { WrittenIn(keys[..|keys| - 1], p, q); }
  }

  lemma KeysBelow(values: map<Bytes, Bytes>, key: Bytes)
    requires forall k :: k in values ==> k != key && AtMost(k, key)
    ensures InOrder(values.Keys + {key}) == InOrder(values.Keys) + [key]
  {
    var keys := InOrder(values.Keys);
    OrderedKeys(values.Keys);
    assert multiset(values.Keys + {key}) == multiset(values.Keys) + multiset{key};
    SortedUnique(InOrder(values.Keys + {key}), keys + [key]);
  }

  /**
   What is written, key by key: nothing for nothing, and one more key that is above all others, as Go compares strings,
   adds itself and its value at the end.
  */
  lemma ContentsExtend(values: map<Bytes, Bytes>, key: Bytes, value: Bytes)
    requires forall k :: k in values ==> k != key && AtMost(k, key)
    ensures Contents(map[]) == []
    ensures Contents(values[key := value]) == Contents(values) + key + value
  {
    var more := values[key := value];
    KeysBelow(values, key);
    assert more.Keys == values.Keys + {key};
    OrderedKeys(values.Keys);
    OrderedKeys(more.Keys);
    var keys := InOrder(values.Keys);
    assert InOrder(more.Keys)[..|keys|] == keys;
    WrittenIn(keys, values, more);
    var none: map<Bytes, Bytes> := map[];
    assert none.Keys == {};
    assert |InOrder(none.Keys)| == |multiset(InOrder(none.Keys))| == |multiset(none.Keys)| == 0;
  }

  // ----- commands

  /** The contents after a supported operation. */
  function Change(values: map<Bytes, Bytes>, p: Payload): map<Bytes, Bytes> {
    if p.op.Put? then values[p.key := p.value] else values - {p.key}
  }

  /** Applies a command; `stored` is whether storage accepted the write. A failed write has already changed memory. */
  ghost function Apply(hash: Hash, decode: Decoder, kv: KV, command: Bytes, stored: bool): (KV, Option<Bytes>) {
    match decode(command)
    case None => (kv, None)
    case Some(p) =>
      if p.op.Unsupported? then (kv, None) else
        var values := Change(kv.inMemory, p);
        if !stored then (kv.(inMemory := values), None)
        else (KV(values, RootOf(hash, values)), Some(RootOf(hash, values)))
  }

  // ----- runs in which commands fail

  /** A command, and whether storage accepts its write. */
  datatype Attempt = Attempt(command: Bytes, stored: bool)

  ghost predicate Supported(decode: Decoder, a: Attempt) {
    decode(a.command).Some? && !decode(a.command).value.op.Unsupported?
  }

  /** Only such an attempt succeeds and is recorded. */
  ghost predicate Recordable(decode: Decoder, a: Attempt) {
    Supported(decode, a) && a.stored
  }

  /** The contents of memory after an attempt: a refused write has changed them too. */
  ghost function Touched(decode: Decoder, values: map<Bytes, Bytes>, a: Attempt): map<Bytes, Bytes> {
    if Supported(decode, a) then Change(values, decode(a.command).value) else values
  }

  lemma AttemptApplies(hash: Hash, decode: Decoder, kv: KV, a: Attempt)
    ensures var (next, root) := Apply(hash, decode, kv, a.command, a.stored);
            && next.inMemory == Touched(decode, kv.inMemory, a)
            && root == if Recordable(decode, a) then Some(RootOf(hash, next.inMemory)) else None
  {
  }

  /** No write was refused. */
  ghost predicate NoRefusal(decode: Decoder, attempts: seq<Attempt>) {
    forall a :: a in attempts && Supported(decode, a) ==> a.stored
  }

  /** The contents of memory after a run of attempts. */
  ghost function Reached(decode: Decoder, values: map<Bytes, Bytes>, attempts: seq<Attempt>): map<Bytes, Bytes>
    decreases attempts
  {
    if attempts == [] then values else Reached(decode, Touched(decode, values, attempts[0]), attempts[1..])
  }

  /** What a run of attempts leaves under a key: that of the last supported one that names it, or `start`. */
  ghost function Held(decode: Decoder, attempts: seq<Attempt>, key: Bytes, start: Option<Bytes>): Option<Bytes> {
    if attempts == [] then start else
      var command := decode(attempts[|attempts| - 1].command);
      if command.Some? && command.value.key == key && command.value.op.Put? then Some(command.value.value)
      else if command.Some? && command.value.key == key && command.value.op.Delete? then None
      else Held(decode, attempts[..|attempts| - 1], key, start)
  }

  function Lookup(values: map<Bytes, Bytes>, key: Bytes): Option<Bytes> {
    if key in values then Some(values[key]) else None
  }

  lemma {:induction false} HeldCons(decode: Decoder, a: Attempt, rest: seq<Attempt>, key: Bytes, start: Option<Bytes>)
    ensures Held(decode, [a] + rest, key, start) == Held(decode, rest, key, Held(decode, [a], key, start))
    decreases |rest|
  {
    if rest == [] {
      assert [a] + rest == [a];
    } else {
      var init := rest[..|rest| - 1];
      assert ([a] + rest)[..|rest|] == [a] + init;
      HeldCons(decode, a, init, key, start);
    }
  }

  /**
   After any run of attempts, from any state, memory holds under each key the value of the last PUT of it, unless a
   later DELETE names it, whether or not storage took them; and what it held before, if neither does.
  */
  lemma {:induction false} HoldsLast(hash: Hash, decode: Decoder, kv: KV, attempts: seq<Attempt>, key: Bytes)
    ensures Lookup(Tried(hash, decode, kv, attempts).inMemory, key)
            == Held(decode, attempts, key, Lookup(kv.inMemory, key))
    decreases attempts
  {
    if attempts != [] {
      var a, rest := attempts[0], attempts[1..];
      var next := Apply(hash, decode, kv, a.command, a.stored).0;
      HoldsLast(hash, decode, next, rest, key);
      assert attempts == [a] + rest;
      HeldCons(decode, a, rest, key, Lookup(kv.inMemory, key));
      assert [a][..0] == [];
      assert Held(decode, [a][..0], key, Lookup(kv.inMemory, key)) == Lookup(kv.inMemory, key);
    }
  }

  ghost function Tried(hash: Hash, decode: Decoder, kv: KV, attempts: seq<Attempt>): KV
    decreases attempts
  {
    if attempts == [] then kv else
      Tried(hash, decode, Apply(hash, decode, kv, attempts[0].command, attempts[0].stored).0, attempts[1..])
  }

  /** The contents at the last success of a run, or `last` if there was none. */
  ghost function AtSuccess(decode: Decoder, values: map<Bytes, Bytes>, attempts: seq<Attempt>,
                           last: Option<map<Bytes, Bytes>>): Option<map<Bytes, Bytes>>
    decreases attempts
  {
    if attempts == [] then last else
      var next := Touched(decode, values, attempts[0]);
      AtSuccess(decode, next, attempts[1..], if Recordable(decode, attempts[0]) then Some(next) else last)
  }

  /** The root kept for contents `last` at the last success. */
  ghost function RootSince(hash: Hash, last: Option<map<Bytes, Bytes>>): Bytes {
    if last.None? then Genesis().stateRoot else RootOf(hash, last.value)
  }

  lemma {:induction false} TriedFrom(hash: Hash, decode: Decoder, kv: KV, attempts: seq<Attempt>,
                                     last: Option<map<Bytes, Bytes>>)
    requires kv.stateRoot == RootSince(hash, last)
    ensures Tried(hash, decode, kv, attempts)
            == KV(Reached(decode, kv.inMemory, attempts),
                  RootSince(hash, AtSuccess(decode, kv.inMemory, attempts, last)))
    decreases attempts
  {
    if attempts != [] {
      var a := attempts[0];
      var next := Apply(hash, decode, kv, a.command, a.stored).0;
      AttemptApplies(hash, decode, kv, a);
      TriedFrom(hash, decode, next, attempts[1..], if Recordable(decode, a) then Some(next.inMemory) else last);
    }
  }

  /** The root a store has kept is that of the contents it has now. */
  ghost predicate RootCurrent(hash: Hash, kv: KV) {
    kv.stateRoot == RootOf(hash, kv.inMemory)
  }

  /**
   After any run of attempts on a fresh store, collisions apart, the root kept is the contents' own if and only if some
   attempt succeeded and the bytes written for the contents are those written at the last success.
  */
  lemma RootCurrentIff(hash: Hash, decode: Decoder, attempts: seq<Attempt>)
    ensures var kv, last := Tried(hash, decode, Genesis(), attempts), AtSuccess(decode, map[], attempts, None);
            && (last.Some? && Contents(last.value) == Contents(kv.inMemory) ==> RootCurrent(hash, kv))
            && (RootCurrent(hash, kv) ==>
                  && last.Some?
                  && (Contents(last.value) == Contents(kv.inMemory)
                      || Collision(hash, Contents(last.value), Contents(kv.inMemory))))
  {
    TriedFrom(hash, decode, Genesis(), attempts, None);
    var kv, last := Tried(hash, decode, Genesis(), attempts), AtSuccess(decode, map[], attempts, None);
    if last.Some? { RootBindsContents(hash, last.value, kv.inMemory); }
    assert |Genesis().stateRoot| == 15 && |RootOf(hash, kv.inMemory)| == 64;
  }

  lemma {:induction false} NoRefusalSuccess(decode: Decoder, values: map<Bytes, Bytes>, attempts: seq<Attempt>,
                                            last: Option<map<Bytes, Bytes>>)
    requires NoRefusal(decode, attempts) && (last.Some? ==> last.value == values)
    ensures var end := AtSuccess(decode, values, attempts, last);
            && (end.Some? ==> end.value == Reached(decode, values, attempts))
            && (end.Some? <==> last.Some? || exists a :: a in attempts && Recordable(decode, a))
    decreases attempts
  {
    if attempts != [] {
      var a, next := attempts[0], Touched(decode, values, attempts[0]);
      assert attempts == [a] + attempts[1..];
      NoRefusalSuccess(decode, next, attempts[1..], if Recordable(decode, a) then Some(next) else last);
    }
  }

  /** If no write was refused, it is if and only if some attempt succeeded. */
  lemma RootCurrentUnrefusedIff(hash: Hash, decode: Decoder, attempts: seq<Attempt>)
    requires NoRefusal(decode, attempts)
    ensures RootCurrent(hash, Tried(hash, decode, Genesis(), attempts))
            <==> exists a :: a in attempts && Recordable(decode, a)
  {
    RootCurrentIff(hash, decode, attempts);
    TriedFrom(hash, decode, Genesis(), attempts, None);
    NoRefusalSuccess(decode, map[], attempts, None);
  }

  /** So the root kept is no function of the contents: a key put and deleted again leaves a fresh store with another. */
  lemma EmptiedAgain(hash: Hash, decode: Decoder, put: Attempt, delete: Attempt)
    requires Recordable(decode, put) && decode(put.command).value.op.Put?
    requires Recordable(decode, delete) && decode(delete.command).value.op.Delete?
    requires decode(put.command).value.key == decode(delete.command).value.key
    ensures Tried(hash, decode, Genesis(), [put, delete]).inMemory == Genesis().inMemory
    ensures Tried(hash, decode, Genesis(), [put, delete]).stateRoot != Genesis().stateRoot
  {
    var all := [put, delete];
    assert put in all;
    RootCurrentUnrefusedIff(hash, decode, all);
    TriedFrom(hash, decode, Genesis(), all, None);
    assert all[1..] == [delete] && [delete][1..] == [];
    assert Reached(decode, map[], all) == Reached(decode, Touched(decode, map[], put), [delete]);
    assert |Genesis().stateRoot| == 15 && |RootOf(hash, map[])| == 64;
  }

  class KVState {
    const hash: Hash
    const decode: Decoder
    var inMemory: map<Bytes, Bytes>
    var stateRoot: Bytes

    ghost function View(): KV
      reads this
    {
      KV(inMemory, stateRoot)
    }

    constructor (hash: Hash, decode: Decoder)
      ensures this.hash == hash && this.decode == decode && View() == Genesis()
      ensures inMemory == map[] && stateRoot == Ascii("kv_genesis_root")
    {
      this.hash, this.decode := hash, decode;
      inMemory, stateRoot := map[], Ascii("kv_genesis_root");
    }

    method RunCommand(command: Bytes, stored: bool) returns (root: Option<Bytes>)
      modifies this
      ensures (View(), root) == Apply(hash, decode, old(View()), command, stored)
    {
      match decode(command) {
        case None => return None;
        case Some(p) =>
          match p.op {
            case Put => inMemory := inMemory[p.key := p.value];
            case Delete => inMemory := inMemory - {p.key};
            case Unsupported => return None;
          }
          if !stored { return None; }
          RecalculateRoot();
          return Some(stateRoot);
      }
    }

    /** Ranges over the map in an order the map chooses. */
    method RecalculateRoot()
      modifies this`stateRoot
      ensures stateRoot == RootOf(hash, inMemory)
    {
      var keys := SortedKeys(inMemory.Keys);
      OrderedKeys(inMemory.Keys);
      var written: Bytes := [];
      for i := 0 to |keys|
        invariant written == Written(keys[..i], inMemory)
      {
        assert keys[..i + 1][..i] == keys[..i];
        written := written + keys[i] + inMemory[keys[i]];
      }
      assert keys[..|keys|] == keys;
      stateRoot := Hex(hash(written));
    }
  }
}
