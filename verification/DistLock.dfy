/** Leases on named resources, granted, renewed and released by commands applied at given times (in nanoseconds). */
module DistLock {
  import opened Bytes
  import opened HexText
  import opened KeyOrder

  datatype Action = Acquire | Release | UnsupportedAction

  datatype Payload = Payload(action: Action, resource: Bytes, holder: Bytes, ttlMs: int)

  datatype LockInfo = LockInfo(holder: Bytes, expiresAt: int)

  type Table = map<Bytes, LockInfo>

  /** Two's-complement wrap-around to 64 bits. */
  function Wrap64(x: int): int {
    (x + 0x8000_0000_0000_0000) % 0x1_0000_0000_0000_0000 - 0x8000_0000_0000_0000
  }

  /** A Go duration of so many milliseconds; the multiplication is done in 64 bits. */
  function Milliseconds(ms: int): int {
    Wrap64(ms * 1_000_000)
  }

  // ----- one command

  /** The command, or `None` if it does not decode, at time `now`. */
  datatype Event = Event(now: int, command: Option<Payload>)

  predicate Grants(locks: Table, e: Event) {
    e.command.Some? &&
    var p := e.command.value;
    && p.action.Acquire?
    && !(p.resource in locks && e.now < locks[p.resource].expiresAt && locks[p.resource].holder != p.holder)
  }

  predicate Releases(locks: Table, e: Event) {
    e.command.Some? &&
    var p := e.command.value;
    p.action.Release? && p.resource in locks && locks[p.resource].holder == p.holder
  }

  function Expiry(e: Event): int
    requires e.command.Some?
  {
    e.now + Milliseconds(e.command.value.ttlMs)
  }

  function Apply(locks: Table, e: Event): (Table, bool) {
    if Grants(locks, e) then
      (locks[e.command.value.resource := LockInfo(e.command.value.holder, Expiry(e))], true)
    else if Releases(locks, e) then (locks - {e.command.value.resource}, true)
    else (locks, false)
  }

  // ----- the state root

  /** What is written to the hash when the table is ranged over in this order. */
  function Written(order: seq<Bytes>, locks: Table): Bytes
    requires forall i :: 0 <= i < |order| ==> order[i] in locks
  {
    if order == [] then [] else
      Written(order[..|order| - 1], locks) + order[|order| - 1] + locks[order[|order| - 1]].holder
  }

  /** The order names each key of the table once. */
  ghost predicate RangesOver(order: seq<Bytes>, locks: Table) {
    multiset(order) == multiset(locks.Keys)
  }

  lemma OrderInTable(order: seq<Bytes>, locks: Table)
    requires RangesOver(order, locks)
    ensures forall i :: 0 <= i < |order| ==> order[i] in locks
  {
    forall i | 0 <= i < |order|
      ensures order[i] in locks
    {
      assert order[i] in multiset(order);
    }
  }

  ghost predicate WrittenIn(bytes: Bytes, order: seq<Bytes>, locks: Table) {
    RangesOver(order, locks) && (OrderInTable(order, locks); bytes == Written(order, locks))
  }

  /** What may be written for the table, which depends on the order the map is ranged over. */
  ghost predicate MayWrite(locks: Table, bytes: Bytes) {
    exists order :: WrittenIn(bytes, order, locks)
  }

  /** One of the roots the table can get. */
  ghost predicate IsRoot(hash: Hash, root: Bytes, locks: Table) {
    exists bytes :: MayWrite(locks, bytes) && root == Hex(hash(bytes))
  }

  lemma WrittenIsRoot(hash: Hash, bytes: Bytes, order: seq<Bytes>, locks: Table)
    requires RangesOver(order, locks) && (OrderInTable(order, locks); bytes == Written(order, locks))
    ensures IsRoot(hash, Hex(hash(bytes)), locks)
  {
    assert WrittenIn(bytes, order, locks);
  }

  /** What one lock adds. */
  function Part(locks: Table, resource: Bytes): Bytes
    requires resource in locks
  {
    resource + locks[resource].holder
  }

  /** Any two locks add the same bytes in either order. */
  ghost predicate Commuting(locks: Table) {
    forall r, s :: r in locks && s in locks ==> Part(locks, r) + Part(locks, s) == Part(locks, s) + Part(locks, r)
  }

  lemma WrittenLast(init: seq<Bytes>, last: Bytes, locks: Table)
    requires last in locks && forall i :: 0 <= i < |init| ==> init[i] in locks
    ensures Written(init + [last], locks) == Written(init, locks) + Part(locks, last)
  {
    assert (init + [last])[..|init|] == init;
  }

  lemma SwapLast(w: Bytes, p: Bytes, q: Bytes)
    ensures (w + p) + q == (w + q) + p <==> p + q == q + p
  {
    assert (w + p) + q == w + (p + q) && (w + q) + p == w + (q + p);
    assert (w + (p + q))[|w|..] == p + q && (w + (q + p))[|w|..] == q + p;
  }

  /** If they commute, any name of an order can be the last. */
  lemma {:induction false} MoveLast(locks: Table, order: seq<Bytes>, i: nat)
    requires Commuting(locks) && i < |order| && forall j :: 0 <= j < |order| ==> order[j] in locks
    ensures Written(order, locks) == Written(order[..i] + order[i + 1..], locks) + Part(locks, order[i])
    decreases |order|
  {
    var init, last := order[..|order| - 1], order[|order| - 1];
    assert order == init + [last];
    WrittenLast(init, last, locks);
    if i < |init| {
      var rest := init[..i] + init[i + 1..];
      assert order[..i] + order[i + 1..] == rest + [last];
      MoveLast(locks, init, i);
      WrittenLast(rest, last, locks);
      SwapLast(Written(rest, locks), Part(locks, order[i]), Part(locks, last));
    } else {
      assert order[..i] + order[i + 1..] == init;
    }
  }

  lemma TakeOut(q: seq<Bytes>, i: nat)
    requires i < |q|
    ensures multiset(q[..i] + q[i + 1..]) == multiset(q) - multiset{q[i]}
  {
    assert q == q[..i] + [q[i]] + q[i + 1..];
  }

  lemma SameLast(p: seq<Bytes>, q: seq<Bytes>) returns (i: nat)
    requires p != [] && multiset(p) == multiset(q)
    ensures i < |q| && q[i] == p[|p| - 1]
    ensures multiset(p[..|p| - 1]) == multiset(q[..i] + q[i + 1..])
  {
    var last := p[|p| - 1];
    assert last in multiset(p) && last in multiset(q);
    i :| i < |q| && q[i] == last;
    assert p[..|p| - 1] + p[|p|..] == p[..|p| - 1];
    TakeOut(p, |p| - 1);
    TakeOut(q, i);
  }

  ghost predicate AllIn(order: seq<Bytes>, locks: Table) {
    forall i :: 0 <= i < |order| ==> order[i] in locks
  }

  lemma TakeOutIn(locks: Table, q: seq<Bytes>, i: nat)
    requires i < |q| && AllIn(q, locks)
    ensures AllIn(q[..i] + q[i + 1..], locks)
  {
  }

  lemma {:induction false} OrdersWriteAlike(locks: Table, p: seq<Bytes>, q: seq<Bytes>)
    requires Commuting(locks) && multiset(p) == multiset(q) && AllIn(p, locks) && AllIn(q, locks)
    ensures Written(p, locks) == Written(q, locks)
    decreases |p|
  {
    if p == [] {
      assert |q| == |multiset(q)|;
    } else {
      var i := SameLast(p, q);
      TakeOutIn(locks, q, i);
      OrdersWriteAlike(locks, p[..|p| - 1], q[..i] + q[i + 1..]);
      WrittenLast(p[..|p| - 1], p[|p| - 1], locks);
      assert p == p[..|p| - 1] + [p[|p| - 1]];
      MoveLast(locks, q, i);
    }
  }

  /** Two orders of the same table that end in `r`, `s` and in `s`, `r`. */
  lemma EndIn(locks: Table, r: Bytes, s: Bytes) returns (rest: seq<Bytes>)
    requires r in locks && s in locks && r != s
    ensures RangesOver(rest + [r] + [s], locks) && RangesOver(rest + [s] + [r], locks)
  {
    rest := SomeOrder(locks.Keys - {r, s});
    assert locks.Keys == (locks.Keys - {r, s}) + {r, s};
    assert multiset(locks.Keys) == multiset(locks.Keys - {r, s}) + multiset{r, s};
  }

  lemma WrittenEnd(locks: Table, rest: seq<Bytes>, r: Bytes, s: Bytes)
    requires RangesOver(rest + [r] + [s], locks) && RangesOver(rest + [s] + [r], locks)
    ensures forall i :: 0 <= i < |rest| ==> rest[i] in locks
    ensures r in locks && s in locks
    ensures WrittenIn(Written(rest, locks) + Part(locks, r) + Part(locks, s), rest + [r] + [s], locks)
  {
    var order := rest + [r] + [s];
    OrderInTable(order, locks);
    assert order[|rest|] == r && order[|rest| + 1] == s;
    assert forall i :: 0 <= i < |rest| ==> rest[i] == order[i];
    WrittenLast(rest, r, locks);
    WrittenLast(rest + [r], s, locks);
  }

  lemma DifferentlyWritten(locks: Table) returns (p: Bytes, q: Bytes)
    requires !Commuting(locks)
    ensures MayWrite(locks, p) && MayWrite(locks, q) && p != q
  {
    var r, s :| r in locks && s in locks && Part(locks, r) + Part(locks, s) != Part(locks, s) + Part(locks, r);
    var rest := EndIn(locks, r, s);
    WrittenEnd(locks, rest, r, s);
    WrittenEnd(locks, rest, s, r);
    SwapLast(Written(rest, locks), Part(locks, r), Part(locks, s));
    p := Written(rest, locks) + Part(locks, r) + Part(locks, s);
    q := Written(rest, locks) + Part(locks, s) + Part(locks, r);
  }

  /** A table is written the same in every order if and only if any two of its locks are. */
  lemma WrittenAlikeIff(locks: Table)
    ensures (forall p, q :: MayWrite(locks, p) && MayWrite(locks, q) ==> p == q) <==> Commuting(locks)
  {
    if Commuting(locks) {
      forall p, q | MayWrite(locks, p) && MayWrite(locks, q)
        ensures p == q
      {
        var a :| WrittenIn(p, a, locks);
        var b :| WrittenIn(q, b, locks);
        OrderInTable(a, locks);
        OrderInTable(b, locks);
        OrdersWriteAlike(locks, a, b);
      }
    } else {
      var p, q := DifferentlyWritten(locks);
    }
  }

  ghost predicate OneRoot(hash: Hash, locks: Table) {
    forall x, y :: IsRoot(hash, x, locks) && IsRoot(hash, y, locks) ==> x == y
  }

  /** So, collisions among what may be written for it apart, a table has one root if and only if its locks commute. */
  lemma OneRootIff(hash: Hash, locks: Table)
    ensures Commuting(locks) ==> OneRoot(hash, locks)
    ensures OneRoot(hash, locks) ==>
              Commuting(locks) || exists p, q :: MayWrite(locks, p) && MayWrite(locks, q) && Collision(hash, p, q)
  {
    WrittenAlikeIff(locks);
    if OneRoot(hash, locks) && !Commuting(locks) {
      var p, q := DifferentlyWritten(locks);
      assert IsRoot(hash, Hex(hash(p)), locks) && IsRoot(hash, Hex(hash(q)), locks);
      HexInjective(hash(p), hash(q));
      assert Collision(hash, p, q);
    }
  }

  /** A table of two locks has two roots, collisions apart, unless the same bytes are written in either order. */
  lemma TwoRoots(hash: Hash, locks: Table, r: Bytes, s: Bytes)
    requires locks.Keys == {r, s} && r != s
    ensures var (p, q) := (r + locks[r].holder + s + locks[s].holder, s + locks[s].holder + r + locks[r].holder);
            && IsRoot(hash, Hex(hash(p)), locks) && IsRoot(hash, Hex(hash(q)), locks)
            && (Hex(hash(p)) == Hex(hash(q)) ==> p == q || Collision(hash, p, q))
  {
    var p, q := r + locks[r].holder + s + locks[s].holder, s + locks[s].holder + r + locks[r].holder;
    WrittenTwo(locks, r, s);
    WrittenTwo(locks, s, r);
    assert WrittenIn(p, [r, s], locks) && WrittenIn(q, [s, r], locks);
    if Hex(hash(p)) == Hex(hash(q)) { HexInjective(hash(p), hash(q)); }
  }

  lemma WrittenTwo(locks: Table, r: Bytes, s: Bytes)
    requires locks.Keys == {r, s} && r != s
    ensures RangesOver([r, s], locks)
    ensures Written([r, s], locks) == r + locks[r].holder + s + locks[s].holder
  {
    assert multiset([r, s]) == multiset({r, s});
    assert [r, s][..1] == [r] && [r][..0] == [];
    assert Written([r], locks) == [] + r + locks[r].holder;
    assert [] + r == r;
  }

  /** Part of the table has been ranged over in this order and written. */
  ghost predicate Ranging(locks: Table, order: seq<Bytes>, rest: set<Bytes>, written: Bytes) {
    rest <= locks.Keys && multiset(order) == multiset(locks.Keys - rest) && AllIn(order, locks)
    && written == Written(order, locks)
  }

  lemma RangeOne(locks: Table, order: seq<Bytes>, rest: set<Bytes>, written: Bytes, k: Bytes)
    requires Ranging(locks, order, rest, written) && k in rest
    ensures k in locks && Ranging(locks, order + [k], rest - {k}, written + k + locks[k].holder)
  {
    RangeOn(locks.Keys, rest, order, k);
    WrittenLast(order, k, locks);
    assert written + k + locks[k].holder == written + (k + locks[k].holder);
  }

  class LockState {
    const hash: Hash
    var locks: Table
    var stateRoot: Bytes

    constructor (hash: Hash)
      ensures this.hash == hash && locks == map[] && stateRoot == Ascii("lock_genesis_root")
    {
      this.hash, locks, stateRoot := hash, map[], Ascii("lock_genesis_root");
    }

    method RunCommand(now: int, command: Option<Payload>) returns (root: Option<Bytes>)
      modifies this
      ensures (locks, root.Some?) == Apply(old(locks), Event(now, command))
      ensures root.Some? ==> root.value == stateRoot && IsRoot(hash, stateRoot, locks)
      ensures root.None? ==> stateRoot == old(stateRoot)
    {
      match command {
        case None => return None;
        case Some(p) =>
          match p.action {
            case Acquire =>
              if p.resource in locks {
                var current := locks[p.resource];
                if now < current.expiresAt && current.holder != p.holder { return None; }
              }
              locks := locks[p.resource := LockInfo(p.holder, now + Milliseconds(p.ttlMs))];
            case Release =>
              if p.resource !in locks { return None; }
              if locks[p.resource].holder != p.holder { return None; }
              locks := locks - {p.resource};
            case UnsupportedAction => return None;
          }
          RecalculateRoot();
          return Some(stateRoot);
      }
    }

    /** Ranges over the map in an order the map chooses. */
    method RecalculateRoot()
      modifies this`stateRoot
      ensures IsRoot(hash, stateRoot, locks)
    {
      var written: Bytes, rest := [], locks.Keys;
      ghost var order := [];
      while rest != {}
        invariant Ranging(locks, order, rest, written)
        decreases rest
      {
        var k :| k in rest;
        RangeOne(locks, order, rest, written, k);
        written := written + k + locks[k].holder;
        order := order + [k];
        rest := rest - {k};
      }
      assert locks.Keys - {} == locks.Keys;
      WrittenIsRoot(hash, written, order, locks);
      stateRoot := Hex(hash(written));
    }

    method IsLocked(now: int, resource: Bytes) returns (locked: bool)
      ensures locked == Locked(locks, resource, now)
    {
      if resource !in locks { return false; }
      return now < locks[resource].expiresAt;
    }
  }

  predicate Locked(locks: Table, resource: Bytes, now: int) {
    resource in locks && now < locks[resource].expiresAt
  }

  // ----- the leases of a run

  /** A grant to a holder from `start` on, up to but not including `end`. */
  datatype Lease = Lease(resource: Bytes, holder: Bytes, start: int, end: int)

  ghost predicate Covers(l: Lease, t: int) {
    l.start <= t < l.end
  }

  /** A holder's own renewal or release ends its lease; nobody else's command touches it. */
  function EndOwn(leases: seq<Lease>, p: Payload, now: int): seq<Lease> {
    seq(|leases|, i requires 0 <= i < |leases| =>
      var l := leases[i];
      if l.resource == p.resource && l.holder == p.holder && l.end > now then l.(end := now) else l)
  }

  /** The leases granted so far, each with the end it has so far: expiry, or an earlier renewal or release. */
  function Granted(locks: Table, leases: seq<Lease>, e: Event): seq<Lease> {
    if Grants(locks, e) then
      EndOwn(leases, e.command.value, e.now)
      + [Lease(e.command.value.resource, e.command.value.holder, e.now, Expiry(e))]
    else if Releases(locks, e) then EndOwn(leases, e.command.value, e.now)
    else leases
  }

  function Exec(locks: Table, events: seq<Event>): Table
    decreases events
  {
    if events == [] then locks else Exec(Apply(locks, events[0]).0, events[1..])
  }

  function Leases(locks: Table, leases: seq<Lease>, events: seq<Event>): seq<Lease>
    decreases events
  {
    if events == [] then leases else
      Leases(Apply(locks, events[0]).0, Granted(locks, leases, events[0]), events[1..])
  }

  ghost predicate ClockRuns(from: int, events: seq<Event>)
    decreases events
  {
    events == [] || (from <= events[0].now && ClockRuns(events[0].now, events[1..]))
  }

  function LastTime(from: int, events: seq<Event>): int {
    if events == [] then from else events[|events| - 1].now
  }

  // ----- exclusion

  /** The table's entry is backed by a lease, and a lease that has not ended is in the table. */
  ghost predicate Ledger(locks: Table, leases: seq<Lease>, clock: int) {
    && (forall i :: 0 <= i < |leases| ==> leases[i].start <= clock)
    && (forall i :: 0 <= i < |leases| && leases[i].end > clock ==>
          leases[i].resource in locks && locks[leases[i].resource] == LockInfo(leases[i].holder, leases[i].end))
    && (forall r :: r in locks ==> Backed(leases, r, locks[r], clock))
  }

  ghost predicate Backed(leases: seq<Lease>, resource: Bytes, info: LockInfo, clock: int) {
    info.expiresAt > clock ==>
      exists i :: 0 <= i < |leases| && leases[i].resource == resource
                  && leases[i].holder == info.holder && leases[i].end == info.expiresAt
  }

  /** Of two leases on a resource the earlier has ended when the later starts. */
  ghost predicate Exclusive(leases: seq<Lease>) {
    forall i, j :: (0 <= i < j < |leases| && leases[i].resource == leases[j].resource) ==>
                       leases[i].end <= leases[j].start
  }

  lemma LedgerLater(locks: Table, leases: seq<Lease>, clock: int, now: int)
    requires Ledger(locks, leases, clock) && clock <= now
    ensures Ledger(locks, leases, now)
  {
  }

  lemma StepKeepsBacking(locks: Table, leases: seq<Lease>, e: Event, r: Bytes)
    requires Ledger(locks, leases, e.now) && r in Apply(locks, e).0
    ensures Backed(Granted(locks, leases, e), r, Apply(locks, e).0[r], e.now)
  {
    var leases' := Granted(locks, leases, e);
    if Grants(locks, e) && r == e.command.value.resource {
      assert leases'[|leases|] == Lease(r, e.command.value.holder, e.now, Expiry(e));
    } else {
      assert Backed(leases, r, locks[r], e.now);
      if i :| 0 <= i < |leases| && leases[i].resource == r
              && leases[i].holder == locks[r].holder && leases[i].end == locks[r].expiresAt {
        assert leases'[i] == leases[i];
      }
    }
  }

  lemma StepKeepsExclusive(locks: Table, leases: seq<Lease>, e: Event)
    requires Ledger(locks, leases, e.now) && Exclusive(leases)
    ensures Exclusive(Granted(locks, leases, e))
  {
  }

  lemma StepKeepsLedger(locks: Table, leases: seq<Lease>, clock: int, e: Event)
    requires Ledger(locks, leases, clock) && Exclusive(leases) && clock <= e.now
    ensures Ledger(Apply(locks, e).0, Granted(locks, leases, e), e.now) && Exclusive(Granted(locks, leases, e))
  {
    LedgerLater(locks, leases, clock, e.now);
    var locks' := Apply(locks, e).0;
    StepKeepsExclusive(locks, leases, e);
    forall r | r in locks'
      ensures Backed(Granted(locks, leases, e), r, locks'[r], e.now)
    {
      StepKeepsBacking(locks, leases, e, r);
    }
  }

  lemma {:induction false} RunKeepsLedger(locks: Table, leases: seq<Lease>, clock: int, events: seq<Event>)
    requires Ledger(locks, leases, clock) && Exclusive(leases) && ClockRuns(clock, events)
    ensures Ledger(Exec(locks, events), Leases(locks, leases, events), LastTime(clock, events))
    ensures Exclusive(Leases(locks, leases, events))
    decreases events
  {
    if events != [] {
      StepKeepsLedger(locks, leases, clock, events[0]);
      RunKeepsLedger(Apply(locks, events[0]).0, Granted(locks, leases, events[0]), events[0].now, events[1..]);
    }
  }

  /** Under a clock that never runs back, no instant is covered by two leases on one resource. */
  lemma LeasesExclude(events: seq<Event>, start: int, i: nat, j: nat, t: int)
    requires ClockRuns(start, events)
    requires i < |Leases(map[], [], events)| && j < |Leases(map[], [], events)| && i != j
    ensures var leases := Leases(map[], [], events);
            leases[i].resource == leases[j].resource ==> !(Covers(leases[i], t) && Covers(leases[j], t))
  {
    RunKeepsLedger(map[], [], start, events);
  }

  ghost predicate Covered(leases: seq<Lease>, resource: Bytes, t: int) {
    exists i :: 0 <= i < |leases| && leases[i].resource == resource && Covers(leases[i], t)
  }

  /** And a resource is reported locked, now or later, exactly when a granted lease covers that time. */
  lemma LockedIffCovered(events: seq<Event>, start: int, resource: Bytes, t: int)
    requires ClockRuns(start, events) && t >= LastTime(start, events)
    ensures Locked(Exec(map[], events), resource, t) <==> Covered(Leases(map[], [], events), resource, t)
  {
    RunKeepsLedger(map[], [], start, events);
    var locks, leases := Exec(map[], events), Leases(map[], [], events);
    if Locked(locks, resource, t) {
      assert Backed(leases, resource, locks[resource], LastTime(start, events));
      var i :| 0 <= i < |leases| && leases[i].resource == resource
               && leases[i].holder == locks[resource].holder && leases[i].end == locks[resource].expiresAt;
      assert leases[i].start <= LastTime(start, events);
      assert Covers(leases[i], t);
    }
  }

  // ----- who is refused, who may release, and for how long a lease runs

  /** Another holder's lease on the resource covers this time. */
  ghost predicate CoveredByOther(leases: seq<Lease>, resource: Bytes, holder: Bytes, t: int) {
    exists i :: 0 <= i < |leases| && leases[i].resource == resource
                && leases[i].holder != holder && Covers(leases[i], t)
  }

  /**
   Under a clock that never runs back, a request for a lock is refused if and only if a lease of another holder covers
   its time: a holder can always renew its own.
  */
  lemma AcquireRefusedIff(events: seq<Event>, start: int, e: Event)
    requires ClockRuns(start, events) && e.now >= LastTime(start, events)
    requires e.command.Some? && e.command.value.action.Acquire?
    ensures !Apply(Exec(map[], events), e).1
            <==> CoveredByOther(Leases(map[], [], events), e.command.value.resource, e.command.value.holder, e.now)
  {
    RunKeepsLedger(map[], [], start, events);
    var locks, leases, r := Exec(map[], events), Leases(map[], [], events), e.command.value.resource;
    if r in locks && e.now < locks[r].expiresAt {
      assert Backed(leases, r, locks[r], LastTime(start, events));
      var i :| 0 <= i < |leases| && leases[i].resource == r
               && leases[i].holder == locks[r].holder && leases[i].end == locks[r].expiresAt;
      assert leases[i].start <= LastTime(start, events);
      assert Covers(leases[i], e.now);
    }
  }

  /** The answers to a run of commands. */
  function Answers(locks: Table, events: seq<Event>): seq<bool>
    decreases events
  {
    if events == [] then [] else [Apply(locks, events[0]).1] + Answers(Apply(locks, events[0]).0, events[1..])
  }

  /** Who was last granted the resource and has not released it since, going by the commands and the answers to them. */
  ghost function HolderAfter(events: seq<Event>, answers: seq<bool>, resource: Bytes,
                             start: Option<Bytes>): Option<Bytes>
    requires |events| == |answers|
    decreases events
  {
    if events == [] then start else
      var command := events[0].command;
      HolderAfter(events[1..], answers[1..], resource,
                  if !answers[0] || command.None? || command.value.resource != resource then start
                  else if command.value.action.Acquire? then Some(command.value.holder)
                  else if command.value.action.Release? then None
                  else start)
  }

  function HolderIn(locks: Table, resource: Bytes): Option<Bytes> {
    if resource in locks then Some(locks[resource].holder) else None
  }

  lemma {:induction false} TableNamesHolder(locks: Table, events: seq<Event>, resource: Bytes)
    ensures |Answers(locks, events)| == |events|
    ensures HolderIn(Exec(locks, events), resource)
            == HolderAfter(events, Answers(locks, events), resource, HolderIn(locks, resource))
    decreases events
  {
    if events != [] {
      var (next, ok) := Apply(locks, events[0]);
      TableNamesHolder(next, events[1..], resource);
      assert Answers(locks, events)[1..] == Answers(next, events[1..]);
    }
  }

  /** A release succeeds if and only if the last grant of the resource, however old, was to that holder and stands. */
  lemma ReleaseSucceedsIff(events: seq<Event>, e: Event)
    requires e.command.Some? && e.command.value.action.Release?
    ensures |Answers(map[], events)| == |events|
    ensures var p := e.command.value;
            Apply(Exec(map[], events), e).1
            <==> HolderAfter(events, Answers(map[], events), p.resource, None) == Some(p.holder)
  {
    TableNamesHolder(map[], events, e.command.value.resource);
  }

  /** Nothing but those two kinds of command succeeds. */
  lemma OthersFail(locks: Table, e: Event)
    requires e.command.None? || e.command.value.action.UnsupportedAction?
    ensures Apply(locks, e) == (locks, false)
  {
  }

  lemma WrapsOnce(x: int)
    ensures -0x8000_0000_0000_0000 <= Wrap64(x) < 0x8000_0000_0000_0000
    ensures exists k :: Wrap64(x) == x + k * 0x1_0000_0000_0000_0000
    ensures -0x8000_0000_0000_0000 <= x < 0x8000_0000_0000_0000 ==> Wrap64(x) == x
  {
    var y := x + 0x8000_0000_0000_0000;
    assert Wrap64(x) == x + (-(y / 0x1_0000_0000_0000_0000)) * 0x1_0000_0000_0000_0000;
  }

  /**
   A granted command adds a lease that starts at once and runs for its time to live, a million nanoseconds for each
   millisecond, as long as that fits into 64 bits; otherwise its length is off by a multiple of 2^64.
  */
  lemma LeaseRunsForTtl(events: seq<Event>, e: Event)
    requires e.command.Some? && e.command.value.action.Acquire? && Apply(Exec(map[], events), e).1
    ensures var p := e.command.value;
            var leases := Leases(map[], [], events + [e]);
            && leases != []
            && var l := leases[|leases| - 1];
            && l.resource == p.resource && l.holder == p.holder && l.start == e.now
            && (-0x8000_0000_0000_0000 <= p.ttlMs * 1_000_000 < 0x8000_0000_0000_0000 ==>
                  l.end == e.now + p.ttlMs * 1_000_000)
            && (exists k :: l.end - l.start == p.ttlMs * 1_000_000 + k * 0x1_0000_0000_0000_0000)
            && -0x8000_0000_0000_0000 <= l.end - l.start < 0x8000_0000_0000_0000
  {
    LeasesAppend(map[], [], events, e);
    WrapsOnce(e.command.value.ttlMs * 1_000_000);
  }

  lemma {:induction false} LeasesAppend(locks: Table, leases: seq<Lease>, events: seq<Event>, e: Event)
    ensures Leases(locks, leases, events + [e]) == Granted(Exec(locks, events), Leases(locks, leases, events), e)
    decreases events
  {
    if events == [] {
      assert events + [e] == [e] && [e][1..] == [];
    } else {
      assert (events + [e])[1..] == events[1..] + [e];
      LeasesAppend(Apply(locks, events[0]).0, Granted(locks, leases, events[0]), events[1..], e);
    }
  }
}
