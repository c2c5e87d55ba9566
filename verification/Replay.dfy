/** Recording a run of the key-value application with its roots, and replaying it on a fresh one. */
module Replay {
  import opened Bytes
  import opened KVStore

  /** Time stamps are left out. */
  datatype Entry = Entry(sequence: nat, payload: Bytes, stateRoot: Bytes)

  /** Why a replay stopped, and the sequence number it names. */
  datatype Outcome = Finished(root: Bytes) | ApplyFailed(sequence: nat) | RootDiffers(sequence: nat)

  /** A deterministic state machine: from a state and a command, the next state and the root, or an error. */
  type Machine<!S> = (S, Bytes) -> (S, Option<Bytes>)

  /** The key-value application over storage that accepts every write. */
  ghost function KVMachine(hash: Hash, decode: Decoder): Machine<KV> {
    (kv: KV, command: Bytes) => Apply(hash, decode, kv, command, true)
  }

  /** Replays the entries from state `s`; `last` is the root so far. */
  ghost function ReplayFrom<S>(apply: Machine<S>, s: S, entries: seq<Entry>, last: Bytes): Outcome
    decreases entries
  {
    if entries == [] then Finished(last) else
      var e := entries[0];
      var (next, root) := apply(s, e.payload);
      match root
      case None => ApplyFailed(e.sequence)
      case Some(r) =>
        if e.stateRoot != [] && r != e.stateRoot then RootDiffers(e.sequence)
        else ReplayFrom(apply, next, entries[1..], r)
  }

  ghost function Replayed<S>(apply: Machine<S>, s: S, entries: seq<Entry>): Outcome {
    ReplayFrom(apply, s, entries, [])
  }

  class ReplayLog {
    var entries: seq<Entry>

    constructor ()
      ensures entries == []
    {
      entries := [];
    }

    method Record(payload: Bytes, stateRoot: Bytes)
      modifies this
      ensures entries == old(entries) + [Entry(|old(entries)| + 1, payload, stateRoot)]
    {
      entries := entries + [Entry(|entries| + 1, payload, stateRoot)];
    }
  }

  /** The replay loop, driving a stateful machine. */
  method ReplayOn(kv: KVState, entries: seq<Entry>) returns (outcome: Outcome)
    modifies kv
    ensures outcome == Replayed(KVMachine(kv.hash, kv.decode), old(kv.View()), entries)
  {
    var finalRoot: Bytes := [];
    for i := 0 to |entries|
      invariant ReplayFrom(KVMachine(kv.hash, kv.decode), kv.View(), entries[i..], finalRoot)
                == ReplayFrom(KVMachine(kv.hash, kv.decode), old(kv.View()), entries, [])
    {
      var e := entries[i];
      assert entries[i..][0] == e && entries[i..][1..] == entries[i + 1..];
      var root := kv.RunCommand(e.payload, true);
      match root {
        case None => return ApplyFailed(e.sequence);
        case Some(r) =>
          finalRoot := r;
          if e.stateRoot != [] && finalRoot != e.stateRoot { return RootDiffers(e.sequence); }
      }
    }
    return Finished(finalRoot);
  }

  // ----- recording

  /** The payloads of a run all of whose commands succeed, as they are recorded from sequence number `from`. */
  ghost predicate Succeeds<S>(apply: Machine<S>, s: S, payloads: seq<Bytes>)
    decreases payloads
  {
    payloads == [] ||
    (var (next, root) := apply(s, payloads[0]);
     root.Some? && Succeeds(apply, next, payloads[1..]))
  }

  ghost function Recorded<S>(apply: Machine<S>, s: S, payloads: seq<Bytes>, from: nat): seq<Entry>
    requires Succeeds(apply, s, payloads)
    decreases payloads
  {
    if payloads == [] then [] else
      var (next, root) := apply(s, payloads[0]);
      [Entry(from, payloads[0], root.value)] + Recorded(apply, next, payloads[1..], from + 1)
  }

  ghost function After<S>(apply: Machine<S>, s: S, payloads: seq<Bytes>): S
    decreases payloads
  {
    if payloads == [] then s else
      After(apply, apply(s, payloads[0]).0, payloads[1..])
  }

  /** One more command after a run adds to the recording just what `Record` appends for it. */
  lemma {:induction false} RecordExtends<S>(apply: Machine<S>, s: S, payloads: seq<Bytes>, last: Bytes,
                                         from: nat)
    requires Succeeds(apply, s, payloads)
    requires apply(After(apply, s, payloads), last).1.Some?
    ensures Succeeds(apply, s, payloads + [last])
    ensures var root := apply(After(apply, s, payloads), last).1.value;
            Recorded(apply, s, payloads + [last], from)
            == Recorded(apply, s, payloads, from) + [Entry(from + |payloads|, last, root)]
    decreases payloads
  {
    var all := payloads + [last];
    if payloads == [] {
      assert all == [last] && all[1..] == [];
      RecordedCons(apply, s, all, [], from);
    } else {
      var (next, root) := apply(s, payloads[0]);
      var tail := payloads[1..];
      assert all[0] == payloads[0] && all[1..] == tail + [last];
      assert After(apply, s, payloads) == After(apply, next, tail);
      RecordExtends(apply, next, tail, last, from + 1);
      RecordedCons(apply, s, all, tail + [last], from);
      RecordedCons(apply, s, payloads, tail, from);
      var e, r := Entry(from, payloads[0], root.value), Recorded(apply, next, tail, from + 1);
      var l := Entry(from + |payloads|, last, apply(After(apply, next, tail), last).1.value);
      assert [e] + (r + [l]) == ([e] + r) + [l];
    }
  }

  lemma RecordedCons<S>(apply: Machine<S>, s: S, payloads: seq<Bytes>, rest: seq<Bytes>, from: nat)
    requires payloads != [] && rest == payloads[1..]
    requires var (next, root) := apply(s, payloads[0]);
             root.Some? && Succeeds(apply, next, rest)
    ensures Succeeds(apply, s, payloads)
    ensures var (next, root) := apply(s, payloads[0]);
            Recorded(apply, s, payloads, from)
            == [Entry(from, payloads[0], root.value)] + Recorded(apply, next, rest, from + 1)
  {
  }

  // ----- what a replay says

  /** The recorded root is empty, which the check skips, or true. */
  ghost predicate Honest(recorded: Entry, claimed: Entry) {
    claimed.stateRoot == [] || claimed.stateRoot == recorded.stateRoot
  }

  /** The same run with whatever roots someone wrote into it. */
  ghost predicate SameRun(recorded: seq<Entry>, claimed: seq<Entry>) {
    |recorded| == |claimed| &&
    forall i :: 0 <= i < |recorded| ==>
      claimed[i].payload == recorded[i].payload && claimed[i].sequence == recorded[i].sequence
  }

  ghost predicate FirstAltered(recorded: seq<Entry>, claimed: seq<Entry>, k: int)
    requires SameRun(recorded, claimed)
  {
    0 <= k < |recorded| && !Honest(recorded[k], claimed[k])
    && forall i :: 0 <= i < k ==> Honest(recorded[i], claimed[i])
  }

  ghost predicate AllHonest(recorded: seq<Entry>, claimed: seq<Entry>)
    requires SameRun(recorded, claimed)
  {
    forall i :: 0 <= i < |recorded| ==> Honest(recorded[i], claimed[i])
  }

  /** The last recorded root, or `last` if nothing was recorded. */
  ghost function FinalRoot(recorded: seq<Entry>, last: Bytes): Bytes {
    if recorded == [] then last else recorded[|recorded| - 1].stateRoot
  }

  lemma {:induction false} HonestReplay<S>(apply: Machine<S>, s: S, payloads: seq<Bytes>, from: nat,
                                        claimed: seq<Entry>, last: Bytes)
    requires Succeeds(apply, s, payloads)
    requires SameRun(Recorded(apply, s, payloads, from), claimed)
    requires AllHonest(Recorded(apply, s, payloads, from), claimed)
    ensures ReplayFrom(apply, s, claimed, last)
            == Finished(FinalRoot(Recorded(apply, s, payloads, from), last))
    decreases payloads
  {
    var recorded := Recorded(apply, s, payloads, from);
    if payloads != [] {
      var (next, root) := apply(s, payloads[0]);
      var rest := Recorded(apply, next, payloads[1..], from + 1);
      assert recorded == [Entry(from, payloads[0], root.value)] + rest;
      assert Honest(recorded[0], claimed[0]);
      TailRun(recorded, claimed, rest);
      HonestReplay(apply, next, payloads[1..], from + 1, claimed[1..], root.value);
    }
  }

  lemma TailRun(recorded: seq<Entry>, claimed: seq<Entry>, rest: seq<Entry>)
    requires recorded != [] && SameRun(recorded, claimed) && rest == recorded[1..]
    ensures SameRun(rest, claimed[1..])
    ensures AllHonest(recorded, claimed) ==> AllHonest(rest, claimed[1..])
    ensures forall k :: FirstAltered(recorded, claimed, k) && k > 0 ==> FirstAltered(rest, claimed[1..], k - 1)
  {
  }

  lemma {:induction false} AlteredReplay<S>(apply: Machine<S>, s: S, payloads: seq<Bytes>, from: nat,
                                         claimed: seq<Entry>, last: Bytes, k: nat)
    requires Succeeds(apply, s, payloads)
    requires SameRun(Recorded(apply, s, payloads, from), claimed)
    requires FirstAltered(Recorded(apply, s, payloads, from), claimed, k)
    ensures ReplayFrom(apply, s, claimed, last) == RootDiffers(from + k)
    decreases payloads
  {
    var recorded := Recorded(apply, s, payloads, from);
    var (next, root) := apply(s, payloads[0]);
    var rest := Recorded(apply, next, payloads[1..], from + 1);
    assert recorded == [Entry(from, payloads[0], root.value)] + rest;
    if k > 0 {
      assert Honest(recorded[0], claimed[0]);
      TailRun(recorded, claimed, rest);
      AlteredReplay(apply, next, payloads[1..], from + 1, claimed[1..], root.value, k - 1);
    }
  }

  /** Replaying what was recorded ends, without a complaint, at the last recorded root; nothing recorded gives "". */
  lemma ReplayUndoesRecord<S>(apply: Machine<S>, s: S, payloads: seq<Bytes>)
    requires Succeeds(apply, s, payloads)
    ensures var recorded := Recorded(apply, s, payloads, 1);
            Replayed(apply, s, recorded) == Finished(FinalRoot(recorded, []))
  {
    HonestReplay(apply, s, payloads, 1, Recorded(apply, s, payloads, 1), []);
  }

  lemma SomeFirstAltered(recorded: seq<Entry>, claimed: seq<Entry>, k: nat) returns (j: nat)
    requires SameRun(recorded, claimed) && k < |recorded| && !Honest(recorded[k], claimed[k])
    ensures FirstAltered(recorded, claimed, j)
  {
    j := 0;
    while Honest(recorded[j], claimed[j])
      invariant j <= k && forall i :: 0 <= i < j ==> Honest(recorded[i], claimed[i])
      decreases k - j
    {
      j := j + 1;
    }
  }

  /** A replay of the run with rewritten roots finishes exactly when no root was changed to another non-empty one. */
  lemma ReplayFinishesIff<S>(apply: Machine<S>, s: S, payloads: seq<Bytes>, claimed: seq<Entry>)
    requires Succeeds(apply, s, payloads)
    requires SameRun(Recorded(apply, s, payloads, 1), claimed)
    ensures Replayed(apply, s, claimed).Finished?
            <==> AllHonest(Recorded(apply, s, payloads, 1), claimed)
  {
    var recorded := Recorded(apply, s, payloads, 1);
    if k :| 0 <= k < |recorded| && !Honest(recorded[k], claimed[k]) {
      var j := SomeFirstAltered(recorded, claimed, k);
      AlteredReplay(apply, s, payloads, 1, claimed, [], j);
    } else {
      HonestReplay(apply, s, payloads, 1, claimed, []);
    }
  }

  /** Otherwise it stops at the first changed one and names it. */
  lemma ReplayNamesFirstAltered<S>(apply: Machine<S>, s: S, payloads: seq<Bytes>, claimed: seq<Entry>, k: nat)
    requires Succeeds(apply, s, payloads)
    requires SameRun(Recorded(apply, s, payloads, 1), claimed)
    requires FirstAltered(Recorded(apply, s, payloads, 1), claimed, k)
    ensures Replayed(apply, s, claimed) == RootDiffers(k + 1)
  {
    AlteredReplay(apply, s, payloads, 1, claimed, [], k);
  }

  // ----- what any replay says, whatever it is given

  ghost function Payloads(entries: seq<Entry>): seq<Bytes> {
    seq(|entries|, i requires 0 <= i < |entries| => entries[i].payload)
  }

  /** What the machine answers to the k-th entry, once it has been given those before it. */
  ghost function AnswerAt<S>(apply: Machine<S>, s: S, entries: seq<Entry>, k: nat): Option<Bytes>
    requires k < |entries|
  {
    apply(After(apply, s, Payloads(entries[..k])), entries[k].payload).1
  }

  ghost predicate FailsAt<S>(apply: Machine<S>, s: S, entries: seq<Entry>, k: nat) {
    k < |entries| && AnswerAt(apply, s, entries, k) == None
  }

  /** The command succeeds, with another root than the one that is written down. */
  ghost predicate DiffersAt<S>(apply: Machine<S>, s: S, entries: seq<Entry>, k: nat) {
    && k < |entries| && entries[k].stateRoot != []
    && AnswerAt(apply, s, entries, k).Some? && AnswerAt(apply, s, entries, k).value != entries[k].stateRoot
  }

  ghost predicate AtFault<S>(apply: Machine<S>, s: S, entries: seq<Entry>, k: nat) {
    FailsAt(apply, s, entries, k) || DiffersAt(apply, s, entries, k)
  }

  ghost predicate IsFirstFault<S>(apply: Machine<S>, s: S, entries: seq<Entry>, k: nat) {
    AtFault(apply, s, entries, k) && forall j: nat :: j < k ==> !AtFault(apply, s, entries, j)
  }

  lemma LaterEntry<S>(apply: Machine<S>, s: S, entries: seq<Entry>, k: nat)
    requires k + 1 < |entries|
    ensures AnswerAt(apply, s, entries, k + 1)
            == AnswerAt(apply, apply(s, entries[0].payload).0, entries[1..], k)
  {
    var first := Payloads(entries[..k + 1]);
    assert entries[..k + 1][1..] == entries[1..][..k];
    assert first != [] && first[0] == entries[0].payload && first[1..] == Payloads(entries[1..][..k]);
  }

  lemma LaterFault<S>(apply: Machine<S>, s: S, entries: seq<Entry>, k: nat)
    requires entries != []
    ensures FailsAt(apply, s, entries, k + 1) <==> FailsAt(apply, apply(s, entries[0].payload).0, entries[1..], k)
    ensures DiffersAt(apply, s, entries, k + 1) <==> DiffersAt(apply, apply(s, entries[0].payload).0, entries[1..], k)
  {
    if k + 1 < |entries| { LaterEntry(apply, s, entries, k); }
  }

  lemma FirstEntry<S>(apply: Machine<S>, s: S, entries: seq<Entry>)
    requires entries != []
    ensures AnswerAt(apply, s, entries, 0) == apply(s, entries[0].payload).1
  {
    assert Payloads(entries[..0]) == [];
  }

  /** A replay of no fault from here on ends at the last root the machine gave. */
  lemma {:induction false} FaultlessReplay<S>(apply: Machine<S>, s: S, entries: seq<Entry>, last: Bytes)
    requires forall k: nat :: !AtFault(apply, s, entries, k)
    ensures forall k: nat :: k < |entries| ==> AnswerAt(apply, s, entries, k).Some?
    ensures ReplayFrom(apply, s, entries, last)
            == Finished(if entries == [] then last else AnswerAt(apply, s, entries, |entries| - 1).value)
    decreases entries
  {
    forall k: nat | k < |entries|
      ensures AnswerAt(apply, s, entries, k).Some?
    {
      assert !AtFault(apply, s, entries, k);
    }
    if entries != [] {
      var (next, root) := apply(s, entries[0].payload);
      FirstEntry(apply, s, entries);
      assert !AtFault(apply, s, entries, 0);
      forall k: nat
        ensures !AtFault(apply, next, entries[1..], k)
      {
        assert !AtFault(apply, s, entries, k + 1);
        LaterFault(apply, s, entries, k);
      }
      FaultlessReplay(apply, next, entries[1..], root.value);
      if entries[1..] != [] { LaterEntry(apply, s, entries, |entries| - 2); }
    }
  }

  lemma {:induction false} FaultyReplay<S>(apply: Machine<S>, s: S, entries: seq<Entry>, k: nat, last: Bytes)
    requires IsFirstFault(apply, s, entries, k)
    ensures ReplayFrom(apply, s, entries, last)
            == if FailsAt(apply, s, entries, k) then ApplyFailed(entries[k].sequence)
               else RootDiffers(entries[k].sequence)
    decreases k
  {
    FirstEntry(apply, s, entries);
    if k > 0 {
      var (next, root) := apply(s, entries[0].payload);
      assert !AtFault(apply, s, entries, 0);
      forall j: nat | j < k - 1
        ensures !AtFault(apply, next, entries[1..], j)
      {
        assert !AtFault(apply, s, entries, j + 1);
        LaterFault(apply, s, entries, j);
      }
      LaterFault(apply, s, entries, k - 1);
      FaultyReplay(apply, next, entries[1..], k - 1, root.value);
    }
  }

  lemma FirstFault<S>(apply: Machine<S>, s: S, entries: seq<Entry>, k: nat) returns (j: nat)
    requires AtFault(apply, s, entries, k)
    ensures IsFirstFault(apply, s, entries, j)
    decreases k
  {
    if i: nat :| i < k && AtFault(apply, s, entries, i) {
      j := FirstFault(apply, s, entries, i);
    } else {
      j := k;
    }
  }

  /**
   For any machine and any entries, recorded or made up: the replay finishes if and only if every command succeeds and
   no root that is written down differs, with the last root the machine gave. Otherwise it names the first entry at
   fault and which of the two faults it was.
  */
  lemma ReplayOutcome<S>(apply: Machine<S>, s: S, entries: seq<Entry>)
    ensures Replayed(apply, s, entries).Finished? <==> forall k: nat :: !AtFault(apply, s, entries, k)
    ensures Replayed(apply, s, entries).Finished? ==>
              Replayed(apply, s, entries).root
              == if entries == [] then [] else OrNothing(AnswerAt(apply, s, entries, |entries| - 1))
    ensures forall k: nat :: IsFirstFault(apply, s, entries, k) ==>
              Replayed(apply, s, entries) == if FailsAt(apply, s, entries, k) then ApplyFailed(entries[k].sequence)
                                             else RootDiffers(entries[k].sequence)
  {
    if k: nat :| AtFault(apply, s, entries, k) {
      var j := FirstFault(apply, s, entries, k);
      FaultyReplay(apply, s, entries, j, []);
    } else {
      FaultlessReplay(apply, s, entries, []);
    }
    forall k: nat | IsFirstFault(apply, s, entries, k)
      ensures Replayed(apply, s, entries) == if FailsAt(apply, s, entries, k) then ApplyFailed(entries[k].sequence)
                                             else RootDiffers(entries[k].sequence)
    {
      FaultyReplay(apply, s, entries, k, []);
    }
  }

  function OrNothing(root: Option<Bytes>): Bytes {
    if root.Some? then root.value else []
  }

  // ----- the key-value application

  /** The last recorded root is the root of the contents the run ended with, whatever order the map was ranged over. */
  lemma {:induction false} KVFinalRoot(hash: Hash, decode: Decoder, kv: KV, payloads: seq<Bytes>, from: nat,
                                       last: Bytes)
    requires Succeeds(KVMachine(hash, decode), kv, payloads) && payloads != []
    ensures var end := After(KVMachine(hash, decode), kv, payloads);
            && FinalRoot(Recorded(KVMachine(hash, decode), kv, payloads, from), last) == end.stateRoot
            && end.stateRoot == RootOf(hash, end.inMemory)
    decreases payloads
  {
    var apply := KVMachine(hash, decode);
    var (next, root) := apply(kv, payloads[0]);
    var rest := Recorded(apply, next, payloads[1..], from + 1);
    RecordedCons(apply, kv, payloads, payloads[1..], from);
    if payloads[1..] == [] {
      assert rest == [];
    } else {
      KVFinalRoot(hash, decode, next, payloads[1..], from + 1, last);
      assert rest != [];
    }
  }

  /** Replaying a recorded run on a fresh store returns the root of the contents the run ended with. */
  lemma KVReplay(hash: Hash, decode: Decoder, payloads: seq<Bytes>)
    requires Succeeds(KVMachine(hash, decode), Genesis(), payloads) && payloads != []
    ensures var apply := KVMachine(hash, decode);
            Replayed(apply, Genesis(), Recorded(apply, Genesis(), payloads, 1))
            == Finished(RootOf(hash, After(apply, Genesis(), payloads).inMemory))
  {
    ReplayUndoesRecord(KVMachine(hash, decode), Genesis(), payloads);
    KVFinalRoot(hash, decode, Genesis(), payloads, 1, []);
  }

  // ----- runs in which commands fail

  /** What is recorded of a run of attempts: the successful commands, with the roots the application gave. */
  ghost function Kept(hash: Hash, decode: Decoder, values: map<Bytes, Bytes>, attempts: seq<Attempt>,
                      from: nat): seq<Entry>
    decreases attempts
  {
    if attempts == [] then [] else
      var a, next := attempts[0], Touched(decode, values, attempts[0]);
      if Recordable(decode, a)
      then [Entry(from, a.command, RootOf(hash, next))] + Kept(hash, decode, next, attempts[1..], from + 1)
      else Kept(hash, decode, next, attempts[1..], from)
  }

  /**
   At every success the contents have the root they would have had, had no attempt but the successful ones been made;
   `shadow` is what the contents would then be.
  */
  ghost predicate RootsKept(hash: Hash, decode: Decoder, values: map<Bytes, Bytes>, shadow: map<Bytes, Bytes>,
                            attempts: seq<Attempt>)
    decreases attempts
  {
    attempts == [] ||
    var a, next := attempts[0], Touched(decode, values, attempts[0]);
    if Recordable(decode, a)
    then RootOf(hash, next) == RootOf(hash, Touched(decode, shadow, a))
         && RootsKept(hash, decode, next, Touched(decode, shadow, a), attempts[1..])
    else RootsKept(hash, decode, next, shadow, attempts[1..])
  }

  /** The same of the bytes written for the contents: the refused writes leave no trace in them at any success. */
  ghost predicate ContentsKept(decode: Decoder, values: map<Bytes, Bytes>, shadow: map<Bytes, Bytes>,
                               attempts: seq<Attempt>)
    decreases attempts
  {
    attempts == [] ||
    var a, next := attempts[0], Touched(decode, values, attempts[0]);
    if Recordable(decode, a)
    then Contents(next) == Contents(Touched(decode, shadow, a))
         && ContentsKept(decode, next, Touched(decode, shadow, a), attempts[1..])
    else ContentsKept(decode, next, shadow, attempts[1..])
  }

  /** At some success the bytes written collide with those there would have been. */
  ghost predicate KeptCollide(hash: Hash, decode: Decoder, values: map<Bytes, Bytes>, shadow: map<Bytes, Bytes>,
                              attempts: seq<Attempt>)
    decreases attempts
  {
    attempts != [] &&
    var a, next := attempts[0], Touched(decode, values, attempts[0]);
    if Recordable(decode, a)
    then Collision(hash, Contents(next), Contents(Touched(decode, shadow, a)))
         || KeptCollide(hash, decode, next, Touched(decode, shadow, a), attempts[1..])
    else KeptCollide(hash, decode, next, shadow, attempts[1..])
  }

  lemma {:induction false} RootsKeptIff(hash: Hash, decode: Decoder, values: map<Bytes, Bytes>,
                                        shadow: map<Bytes, Bytes>, attempts: seq<Attempt>)
    ensures ContentsKept(decode, values, shadow, attempts) ==> RootsKept(hash, decode, values, shadow, attempts)
    ensures RootsKept(hash, decode, values, shadow, attempts) ==>
              ContentsKept(decode, values, shadow, attempts) || KeptCollide(hash, decode, values, shadow, attempts)
    decreases attempts
  {
    if attempts != [] {
      var a, next := attempts[0], Touched(decode, values, attempts[0]);
      if Recordable(decode, a) {
        RootBindsContents(hash, next, Touched(decode, shadow, a));
        RootsKeptIff(hash, decode, next, Touched(decode, shadow, a), attempts[1..]);
      } else {
        RootsKeptIff(hash, decode, next, shadow, attempts[1..]);
      }
    }
  }

  lemma ReplayCons(hash: Hash, decode: Decoder, kv: KV, a: Attempt, e: Entry, rest: seq<Entry>, last: Bytes, next: KV)
    requires Recordable(decode, a) && e.payload == a.command && e.stateRoot != []
    requires next == Apply(hash, decode, kv, a.command, true).0
    ensures next.inMemory == Touched(decode, kv.inMemory, a)
    ensures ReplayFrom(KVMachine(hash, decode), kv, [e] + rest, last)
            == if e.stateRoot == RootOf(hash, next.inMemory)
               then ReplayFrom(KVMachine(hash, decode), next, rest, e.stateRoot) else RootDiffers(e.sequence)
  {
    AttemptApplies(hash, decode, kv, a);
    assert ([e] + rest)[1..] == rest;
  }

  lemma {:induction false} KeptReplaysFrom(hash: Hash, decode: Decoder, values: map<Bytes, Bytes>, kv: KV,
                                           attempts: seq<Attempt>, from: nat, last: Bytes)
    ensures ReplayFrom(KVMachine(hash, decode), kv, Kept(hash, decode, values, attempts, from), last).Finished?
            <==> RootsKept(hash, decode, values, kv.inMemory, attempts)
    decreases attempts
  {
    if attempts != [] {
      var a, rest := attempts[0], attempts[1..];
      var next := Touched(decode, values, a);
      if Recordable(decode, a) {
        var e, kv' := Entry(from, a.command, RootOf(hash, next)), Apply(hash, decode, kv, a.command, true).0;
        ReplayCons(hash, decode, kv, a, e, Kept(hash, decode, next, rest, from + 1), last, kv');
        KeptReplaysFrom(hash, decode, next, kv', rest, from + 1, e.stateRoot);
      } else {
        KeptReplaysFrom(hash, decode, next, kv, rest, from, last);
      }
    }
  }

  /** What is recorded of a run of attempts on a fresh store, replayed on another. */
  ghost function KeptReplay(hash: Hash, decode: Decoder, attempts: seq<Attempt>): Outcome {
    Replayed(KVMachine(hash, decode), Genesis(), Kept(hash, decode, Genesis().inMemory, attempts, 1))
  }

  /**
   The recording of the successes of any run of attempts replays, collisions apart, if and only if at every success the
   bytes written for the contents are those there would have been without the failures.
  */
  lemma KeptReplaysIff(hash: Hash, decode: Decoder, attempts: seq<Attempt>)
    ensures ContentsKept(decode, Genesis().inMemory, Genesis().inMemory, attempts) ==>
              KeptReplay(hash, decode, attempts).Finished?
    ensures KeptReplay(hash, decode, attempts).Finished? ==>
              ContentsKept(decode, Genesis().inMemory, Genesis().inMemory, attempts)
              || KeptCollide(hash, decode, Genesis().inMemory, Genesis().inMemory, attempts)
  {
    KeptReplaysFrom(hash, decode, Genesis().inMemory, Genesis(), attempts, 1, []);
    RootsKeptIff(hash, decode, Genesis().inMemory, Genesis().inMemory, attempts);
  }

  lemma {:induction false} NoRefusalKeeps(decode: Decoder, values: map<Bytes, Bytes>, prefix: seq<Attempt>,
                                          rest: seq<Attempt>)
    requires NoRefusal(decode, prefix)
    ensures ContentsKept(decode, values, values, prefix + rest)
            <==> ContentsKept(decode, Reached(decode, values, prefix), Reached(decode, values, prefix), rest)
    decreases prefix
  {
    if prefix == [] {
      assert [] + rest == rest;
    } else {
      var all := prefix + rest;
      assert all[0] == prefix[0] && all[1..] == prefix[1..] + rest;
      NoRefusalKeeps(decode, Touched(decode, values, prefix[0]), prefix[1..], rest);
    }
  }

  lemma {:induction false} NoRefusalCollides(hash: Hash, decode: Decoder, values: map<Bytes, Bytes>,
                                             prefix: seq<Attempt>, rest: seq<Attempt>)
    requires NoRefusal(decode, prefix)
    ensures KeptCollide(hash, decode, values, values, prefix + rest)
            <==> KeptCollide(hash, decode, Reached(decode, values, prefix), Reached(decode, values, prefix), rest)
    decreases prefix
  {
    if prefix == [] {
      assert [] + rest == rest;
    } else {
      var all := prefix + rest;
      assert all[0] == prefix[0] && all[1..] == prefix[1..] + rest;
      NoRefusalCollides(hash, decode, Touched(decode, values, prefix[0]), prefix[1..], rest);
    }
  }

  /** So commands that do not decode or are not supported do no harm; only a write that storage refused can. */
  lemma FailuresWithoutRefusalReplay(hash: Hash, decode: Decoder, attempts: seq<Attempt>)
    requires NoRefusal(decode, attempts)
    ensures KeptReplay(hash, decode, attempts).Finished?
  {
    assert attempts + [] == attempts;
    NoRefusalKeeps(decode, Genesis().inMemory, attempts, []);
    KeptReplaysIff(hash, decode, attempts);
  }

  lemma KeptTwo(hash: Hash, decode: Decoder, values: map<Bytes, Bytes>, refused: Attempt, next: Attempt)
    requires !refused.stored && Recordable(decode, next)
    ensures var with := Contents(Touched(decode, Touched(decode, values, refused), next));
            var without := Contents(Touched(decode, values, next));
            && (ContentsKept(decode, values, values, [refused, next]) <==> with == without)
            && (KeptCollide(hash, decode, values, values, [refused, next]) <==> Collision(hash, with, without))
  {
    var touched := Touched(decode, values, refused);
    assert [refused, next][1..] == [next] && [next][1..] == [];
    assert ContentsKept(decode, values, values, [refused, next]) <==> ContentsKept(decode, touched, values, [next]);
    assert KeptCollide(hash, decode, values, values, [refused, next])
           <==> KeptCollide(hash, decode, touched, values, [next]);
    assert !KeptCollide(hash, decode, Touched(decode, touched, next), Touched(decode, values, next), []);
  }

  /**
   After any run without a refusal, a refused write does harm with the next success, collisions apart, unless the same
   bytes are written for the contents with and without its change.
  */
  lemma RefusedWriteIff(hash: Hash, decode: Decoder, prefix: seq<Attempt>, refused: Attempt, next: Attempt)
    requires NoRefusal(decode, prefix)
    requires Supported(decode, refused) && !refused.stored && Recordable(decode, next)
    ensures var values := Reached(decode, Genesis().inMemory, prefix);
            var with := Contents(Touched(decode, Touched(decode, values, refused), next));
            var without := Contents(Touched(decode, values, next));
            var replay := KeptReplay(hash, decode, prefix + [refused, next]);
            && (with == without ==> replay.Finished?)
            && (replay.Finished? ==> with == without || Collision(hash, with, without))
  {
    var empty, values := Genesis().inMemory, Reached(decode, Genesis().inMemory, prefix);
    KeptReplaysIff(hash, decode, prefix + [refused, next]);
    NoRefusalKeeps(decode, empty, prefix, [refused, next]);
    NoRefusalCollides(hash, decode, empty, prefix, [refused, next]);
    KeptTwo(hash, decode, values, refused, next);
  }
}
