/** Which entries a following node hands to its delivery channel, and what the reader of the channel gets. */
module RaftDelivery {
  import opened Bytes
  import opened RaftNode
  import opened RaftInvariant
  import opened RaftCompaction

  // ----- the log as if nothing had been compacted

  /** Splices an accepted message into the full log, whose first element sits at index `first`. */
  ghost function Extend(n: Node, full: seq<LogEntry>, first: int, e: Event): seq<LogEntry> {
    if e.AppendRequest? && Accepts(n, e.append) && 0 <= e.append.prevLogIndex - first < |full|
    then full[..e.append.prevLogIndex - first + 1] + e.append.entries
    else full
  }

  ghost function FullLog(n: Node, full: seq<LogEntry>, first: int, events: seq<Event>): seq<LogEntry>
    decreases events
  {
    if events == [] then full else
      FullLog(Step(n, events[0]).0, Extend(n, full, first, events[0]), first, events[1..])
  }

  /** The non-empty data of positions j + 1 to k; position 0 holds no entry. */
  function Payload(log: seq<LogEntry>, j: int, k: int): (r: seq<Bytes>)
    requires k < |log|
    decreases k
  {
    if k <= 0 || k <= j then [] else Payload(log, j, k - 1) + if |log[k].data| > 0 then [log[k].data] else []
  }

  lemma {:induction false} PayloadAgrees(log: seq<LogEntry>, log': seq<LogEntry>, j: int, k: int)
    requires k < |log| && k < |log'|
    requires forall i :: 1 <= i <= k && j < i ==> log[i] == log'[i]
    ensures Payload(log, j, k) == Payload(log', j, k)
    decreases k
  {
    if k > 0 && k > j { PayloadAgrees(log, log', j, k - 1); }
  }

  lemma {:induction false} PayloadSplit(log: seq<LogEntry>, j: int, m: int, k: int)
    requires j <= m <= k < |log|
    ensures Payload(log, j, k) == Payload(log, j, m) + Payload(log, m, k)
    decreases k
  {
    if k > 0 && k > m { PayloadSplit(log, j, m, k - 1); }
  }

  /** The tail of a log has the payload the log has there. */
  lemma {:induction false} PayloadShift(log: seq<LogEntry>, snap: Snapshot, full: seq<LogEntry>, first: Snapshot,
                                        j: int, k: int)
    requires Tail(log, snap, full, first) && k < |log| && (j >= 0 || snap == first)
    ensures var lead := snap.lastIncludedIndex - first.lastIncludedIndex;
            Payload(log, j, k) == Payload(full, lead + j, lead + k)
    decreases k
  {
    if k > 0 && k > j { PayloadShift(log, snap, full, first, j, k - 1); }
  }

  lemma {:induction false} PayloadEmptyIff(log: seq<LogEntry>, j: int, k: int)
    requires k < |log|
    ensures Payload(log, j, k) == [] <==> forall i :: 1 <= i <= k && j < i ==> log[i].data == []
    decreases k
  {
    if k > 0 && k > j { PayloadEmptyIff(log, j, k - 1); }
  }

  /** Nothing in a payload is empty. */
  lemma {:induction false} PayloadNonEmpty(log: seq<LogEntry>, j: int, k: int)
    requires k < |log|
    ensures [] !in Payload(log, j, k)
    decreases k
  {
    if k > 0 && k > j { PayloadNonEmpty(log, j, k - 1); }
  }

  // ----- one step

  /** What the node has offered is the payload of the full log up to its last applied index. */
  ghost predicate OfferedSoFar(n: Node, full: seq<LogEntry>, first: int) {
    n.lastApplied - first < |full| && n.chan.offered == Payload(full, 0, n.lastApplied - first)
  }

  /** The stored log is the tail of the full one, all that is committed is applied, and the snapshot took no more. */
  ghost predicate Tracking(n: Node, full: seq<LogEntry>, first: Snapshot) {
    && Tail(n.log, n.snapshot, full, first)
    && n.lastApplied == n.commitIndex && 0 <= n.commitIndex <= LastLogIndex(n)
    && (n.snapshot.lastIncludedIndex == first.lastIncludedIndex || n.snapshot.lastIncludedIndex <= n.commitIndex)
  }

  ghost predicate Delivering(n: Node, full: seq<LogEntry>, first: Snapshot) {
    !n.role.Leader? && Tracking(n, full, first) && OfferedSoFar(n, full, first.lastIncludedIndex)
  }

  lemma TailEnds(n: Node, full: seq<LogEntry>, first: Snapshot)
    requires Tail(n.log, n.snapshot, full, first)
    ensures LastLogIndex(n) - first.lastIncludedIndex == |full| - 1
  {
  }

  /** What a position holds for the reader. */
  function DataAt(log: seq<LogEntry>, k: int): seq<Bytes> {
    if 0 <= k < |log| && |log[k].data| > 0 then [log[k].data] else []
  }

  /** The entry applied next, as the stored log and the full log show it. */
  lemma NextEntry(n: Node, full: seq<LogEntry>, first: Snapshot, k: int, rel: int)
    requires Tail(n.log, n.snapshot, full, first)
    requires n.lastApplied < n.commitIndex <= LastLogIndex(n)
    requires n.snapshot.lastIncludedIndex == first.lastIncludedIndex || n.snapshot.lastIncludedIndex <= n.lastApplied
    requires k == n.lastApplied + 1 - first.lastIncludedIndex && rel == n.lastApplied + 1 - n.snapshot.lastIncludedIndex
    ensures k < |full| && DataAt(full, k) == DataAt(n.log, rel) && DataAt(full, 0) == []
  {
    TailEnds(n, full, first);
    if k > 0 {
      assert rel > 0 && full[k] == n.log[rel];
    }
  }

  lemma ApplyOneFrame(n: Node)
    ensures ApplyOne(n).chan.offered == n.chan.offered + DataAt(n.log, n.lastApplied + 1 - n.snapshot.lastIncludedIndex)
  {
  }

  /** The data of the positions after j, up to k, from the first on. */
  function Ahead(log: seq<LogEntry>, j: int, k: int): seq<Bytes>
    decreases k - j
  {
    if j >= k then [] else DataAt(log, j + 1) + Ahead(log, j + 1, k)
  }

  lemma {:induction false} AheadLast(log: seq<LogEntry>, j: int, k: int)
    requires j < k
    ensures Ahead(log, j, k) == Ahead(log, j, k - 1) + DataAt(log, k)
    decreases k - j
  {
    if j + 1 < k {
      AheadLast(log, j + 1, k);
      assert DataAt(log, j + 1) + (Ahead(log, j + 1, k - 1) + DataAt(log, k))
             == (DataAt(log, j + 1) + Ahead(log, j + 1, k - 1)) + DataAt(log, k);
    }
  }

  /** Which is the payload, as the first element of a log holds no data. */
  lemma {:induction false} AheadIsPayload(log: seq<LogEntry>, j: int, k: int)
    requires k < |log| && DataAt(log, 0) == []
    ensures Ahead(log, j, k) == Payload(log, j, k)
    decreases k - j
  {
    if j < k {
      AheadLast(log, j, k);
      AheadIsPayload(log, j, k - 1);
      if k <= 0 { assert Payload(log, j, k - 1) == []; }
    }
  }

  lemma AheadStep(log: seq<LogEntry>, j: int, k: int, offered: seq<Bytes>, next: seq<Bytes>, all: seq<Bytes>)
    requires j < k && next == offered + DataAt(log, j + 1) && all == next + Ahead(log, j + 1, k)
    ensures all == offered + Ahead(log, j, k)
  {
    assert (offered + DataAt(log, j + 1)) + Ahead(log, j + 1, k)
           == offered + (DataAt(log, j + 1) + Ahead(log, j + 1, k));
  }

  /** The loop's next turn, as the full log shows it. */
  lemma ApplyOneAhead(n: Node, full: seq<LogEntry>, first: Snapshot, j: int, m: Node)
    requires Tail(n.log, n.snapshot, full, first)
    requires n.lastApplied < n.commitIndex <= LastLogIndex(n)
    requires n.snapshot.lastIncludedIndex == first.lastIncludedIndex || n.snapshot.lastIncludedIndex <= n.lastApplied
    requires j == n.lastApplied - first.lastIncludedIndex && m == ApplyOne(n)
    ensures m == n.(lastApplied := n.lastApplied + 1, chan := m.chan)
    ensures m.chan.offered == n.chan.offered + DataAt(full, j + 1)
    ensures ApplyCommitted(n) == ApplyCommitted(m)
  {
    NextEntry(n, full, first, j + 1, n.lastApplied + 1 - n.snapshot.lastIncludedIndex);
    ApplyOneFrame(n);
  }

  lemma {:induction false} ApplyAhead(n: Node, full: seq<LogEntry>, first: Snapshot, j: int, k: int)
    requires Tail(n.log, n.snapshot, full, first)
    requires n.lastApplied <= n.commitIndex <= LastLogIndex(n)
    requires n.snapshot.lastIncludedIndex == first.lastIncludedIndex || n.snapshot.lastIncludedIndex <= n.lastApplied
    requires j == n.lastApplied - first.lastIncludedIndex && k == n.commitIndex - first.lastIncludedIndex
    ensures ApplyCommitted(n).chan.offered == n.chan.offered + Ahead(full, j, k)
    decreases n.commitIndex - n.lastApplied
  {
    if n.lastApplied < n.commitIndex {
      var m := ApplyOne(n);
      ApplyOneAhead(n, full, first, j, m);
      ApplyAhead(m, full, first, j + 1, k);
      AheadStep(full, j, k, n.chan.offered, m.chan.offered, ApplyCommitted(n).chan.offered);
    }
  }

  /** The apply loop offers the payload between the last applied and the commit index, whatever was offered before. */
  lemma ApplyOffers(n: Node, full: seq<LogEntry>, first: Snapshot, j: int, k: int)
    requires Tail(n.log, n.snapshot, full, first)
    requires n.lastApplied <= n.commitIndex <= LastLogIndex(n)
    requires n.snapshot.lastIncludedIndex == first.lastIncludedIndex || n.snapshot.lastIncludedIndex <= n.lastApplied
    requires j == n.lastApplied - first.lastIncludedIndex && k == n.commitIndex - first.lastIncludedIndex
    ensures k < |full| && ApplyCommitted(n).chan.offered == n.chan.offered + Payload(full, j, k)
  {
    TailEnds(n, full, first);
    ApplyAhead(n, full, first, j, k);
    AheadIsPayload(full, j, k);
  }

  /** Two logs have the same payload from position `at` to k, if both reach there. */
  ghost predicate SamePayload(log: seq<LogEntry>, log': seq<LogEntry>, at: int, k: int) {
    k < |log| && k < |log'| ==> Payload(log', at, k) == Payload(log, at, k)
  }

  /** Up to the last applied index, the message carries the payload that the node has there. */
  ghost predicate Agrees(n: Node, a: AppendEntriesArgs)
    requires Accepts(n, a) && Reaches(n, a)
  {
    SamePayload(n.log, Splice(n, a), a.prevLogIndex - n.snapshot.lastIncludedIndex,
                n.lastApplied - n.snapshot.lastIncludedIndex)
  }

  ghost predicate Faithful(n: Node, e: Event) {
    && !e.Restart? && !e.TallyDoneIn?
    && (e.AppendRequest? && Accepts(n, e.append) ==>
          Consecutive(e.append) && Reaches(n, e.append) && Agrees(n, e.append))
  }

  lemma SpliceKeepsTail(n: Node, full: seq<LogEntry>, first: Snapshot, a: AppendEntriesArgs)
    requires Tail(n.log, n.snapshot, full, first) && Accepts(n, a) && Consecutive(a)
    ensures Tail(Splice(n, a), n.snapshot, Extend(n, full, first.lastIncludedIndex, AppendRequest(a)), first)
  {
  }

  lemma SpliceReachesCommit(n: Node, a: AppendEntriesArgs, p: Node)
    requires WellIndexed(n) && Accepts(n, a) && Consecutive(a) && Reaches(n, a)
    requires p.log == Splice(n, a) && p.snapshot == n.snapshot
    ensures LastLogIndex(p) >= n.commitIndex
  {
  }

  /** The state an accepted message leaves before the commit index moves. */
  ghost function Accepted(n: Node, a: AppendEntriesArgs): Node
    requires Accepts(n, a)
  {
    Persist(StepDown(n, a.term).(log := Splice(n, a)))
  }

  lemma AcceptedFields(n: Node, a: AppendEntriesArgs)
    requires Accepts(n, a)
    ensures AppendEntries(n, a).0 == AdvanceCommit(Accepted(n, a), a.leaderCommit)
    ensures var p := Accepted(n, a);
            && p.log == Splice(n, a) && p.snapshot == n.snapshot && p.chan == n.chan
            && p.commitIndex == n.commitIndex && p.lastApplied == n.lastApplied
            && (p.role.Leader? ==> n.role.Leader?)
  {
  }

  lemma AcceptedTracks(n: Node, full: seq<LogEntry>, first: Snapshot, a: AppendEntriesArgs)
    requires Tracking(n, full, first) && Accepts(n, a) && Consecutive(a) && Reaches(n, a)
    ensures Tracking(Accepted(n, a), Extend(n, full, first.lastIncludedIndex, AppendRequest(a)), first)
  {
    AcceptedFields(n, a);
    SpliceKeepsTail(n, full, first, a);
    SpliceReachesCommit(n, a, Accepted(n, a));
  }

  /** Splicing keeps the payload up to position k exactly if it keeps it behind the splice point p. */
  lemma SplicedPayloadIff(full: seq<LogEntry>, full': seq<LogEntry>, p: nat, k: int)
    requires p < |full| && p < |full'| && full[..p + 1] == full'[..p + 1] && k < |full| && k < |full'|
    ensures Payload(full', 0, k) == Payload(full, 0, k) <==> Payload(full', p, k) == Payload(full, p, k)
  {
    forall i | 1 <= i <= p
      ensures full[i] == full'[i]
    {
      assert full[..p + 1][i] == full'[..p + 1][i];
    }
    if k <= p {
      PayloadAgrees(full, full', 0, k);
    } else {
      PayloadAgrees(full, full', 0, p);
      PayloadSplit(full, 0, p, k);
      PayloadSplit(full', 0, p, k);
      Cancel(Payload(full, 0, p), Payload(full, p, k), Payload(full', p, k));
    }
  }

  lemma Cancel(a: seq<Bytes>, b: seq<Bytes>, c: seq<Bytes>)
    ensures a + b == a + c <==> b == c
    ensures b + a == c + a <==> b == c
  {
    if a + b == a + c {
      assert b == (a + b)[|a|..] && c == (a + c)[|a|..];
    }
    if b + a == c + a {
      assert |b + a| == |c + a|;
      assert b == (b + a)[..|b|] && c == (c + a)[..|c|];
    }
  }

  lemma SplicePrefix(full: seq<LogEntry>, p: nat, entries: seq<LogEntry>, full': seq<LogEntry>)
    requires p < |full| && full' == full[..p + 1] + entries
    ensures p < |full'| && full[..p + 1] == full'[..p + 1]
  {
  }

  lemma SpliceAt(n: Node, full: seq<LogEntry>, first: Snapshot, a: AppendEntriesArgs, full': seq<LogEntry>, p: int)
    requires Tail(n.log, n.snapshot, full, first) && Accepts(n, a) && p == a.prevLogIndex - first.lastIncludedIndex
    requires full' == Extend(n, full, first.lastIncludedIndex, AppendRequest(a))
    ensures 0 <= p < |full| && full' == full[..p + 1] + a.entries
  {
  }

  /** Where a message is spliced in, and that the applied entries are in the log before and after. */
  lemma SplicePoint(n: Node, full: seq<LogEntry>, first: Snapshot, a: AppendEntriesArgs, full': seq<LogEntry>, p: int,
                    k: int)
    requires Tracking(n, full, first) && Accepts(n, a) && Consecutive(a) && Reaches(n, a)
    requires full' == Extend(n, full, first.lastIncludedIndex, AppendRequest(a))
    requires p == a.prevLogIndex - first.lastIncludedIndex && k == n.lastApplied - first.lastIncludedIndex
    ensures 0 <= p < |full| && p < |full'| && full[..p + 1] == full'[..p + 1] && k < |full| && k < |full'|
  {
    SpliceAt(n, full, first, a, full', p);
    SplicePrefix(full, p, a.entries, full');
    TailEnds(n, full, first);
  }

  lemma AppliedInSplice(n: Node, full: seq<LogEntry>, first: Snapshot, a: AppendEntriesArgs, log': seq<LogEntry>,
                        rel: int)
    requires Tracking(n, full, first) && Accepts(n, a) && Reaches(n, a) && log' == Splice(n, a)
    requires rel == n.lastApplied - n.snapshot.lastIncludedIndex
    ensures rel < |n.log| && rel < |log'|
  {
  }

  lemma PayloadAt(log: seq<LogEntry>, snap: Snapshot, full: seq<LogEntry>, first: Snapshot, at: nat, rel: int, p: int,
                  k: int)
    requires Tail(log, snap, full, first) && rel < |log|
    requires p - at == k - rel == snap.lastIncludedIndex - first.lastIncludedIndex
    ensures k < |full| && Payload(log, at, rel) == Payload(full, p, k)
  {
    PayloadShift(log, snap, full, first, at, rel);
  }

  /** Two logs behind one snapshot have one payload there exactly if the full logs they are the tails of do. */
  lemma TailPayloadIff(log: seq<LogEntry>, log': seq<LogEntry>, snap: Snapshot, full: seq<LogEntry>,
                       full': seq<LogEntry>, first: Snapshot, at: nat, rel: int, p: int, k: int)
    requires Tail(log, snap, full, first) && Tail(log', snap, full', first) && rel < |log| && rel < |log'|
    requires p - at == k - rel == snap.lastIncludedIndex - first.lastIncludedIndex
    ensures k < |full| && k < |full'|
    ensures Payload(log', at, rel) == Payload(log, at, rel) <==> Payload(full', p, k) == Payload(full, p, k)
  {
    PayloadAt(log, snap, full, first, at, rel, p, k);
    PayloadAt(log', snap, full', first, at, rel, p, k);
  }

  lemma TailSplicedIff(log: seq<LogEntry>, log': seq<LogEntry>, snap: Snapshot, full: seq<LogEntry>,
                       full': seq<LogEntry>, first: Snapshot, at: nat, rel: int, p: nat, k: int)
    requires Tail(log, snap, full, first) && Tail(log', snap, full', first) && rel < |log| && rel < |log'|
    requires p - at == k - rel == snap.lastIncludedIndex - first.lastIncludedIndex
    requires p < |full| && p < |full'| && full[..p + 1] == full'[..p + 1]
    ensures k < |full| && k < |full'|
    ensures Payload(log', at, rel) == Payload(log, at, rel) <==> Payload(full', 0, k) == Payload(full, 0, k)
  {
    TailPayloadIff(log, log', snap, full, full', first, at, rel, p, k);
    SplicedPayloadIff(full, full', p, k);
  }

  lemma OfferedAfterSpliceIff(offered: seq<Bytes>, agrees: bool, log: seq<LogEntry>, log': seq<LogEntry>,
                              snap: Snapshot, full: seq<LogEntry>, full': seq<LogEntry>, first: Snapshot, at: nat,
                              rel: int, p: nat, k: int)
    requires Tail(log, snap, full, first) && Tail(log', snap, full', first) && rel < |log| && rel < |log'|
    requires p - at == k - rel == snap.lastIncludedIndex - first.lastIncludedIndex
    requires p < |full| && p < |full'| && full[..p + 1] == full'[..p + 1] && k < |full|
    requires offered == Payload(full, 0, k) && agrees == SamePayload(log, log', at, rel)
    ensures k < |full'| && (offered == Payload(full', 0, k) <==> agrees)
  {
    TailSplicedIff(log, log', snap, full, full', first, at, rel, p, k);
  }

  lemma AgreesIff(n: Node, a: AppendEntriesArgs, log': seq<LogEntry>, at: int, rel: int)
    requires Accepts(n, a) && Reaches(n, a) && log' == Splice(n, a)
    requires at == a.prevLogIndex - n.snapshot.lastIncludedIndex && rel == n.lastApplied - n.snapshot.lastIncludedIndex
    ensures Agrees(n, a) == SamePayload(n.log, log', at, rel)
  {
  }

  lemma OfferedIff(n: Node, full: seq<LogEntry>, first: Snapshot, a: AppendEntriesArgs, full': seq<LogEntry>,
                   log': seq<LogEntry>, at: nat, rel: int, p: nat, k: int)
    requires Accepts(n, a) && Reaches(n, a) && log' == Splice(n, a) && rel < |n.log| && rel < |log'|
    requires Tail(n.log, n.snapshot, full, first) && Tail(log', n.snapshot, full', first)
    requires at == a.prevLogIndex - n.snapshot.lastIncludedIndex && rel == n.lastApplied - n.snapshot.lastIncludedIndex
    requires p - at == k - rel == n.snapshot.lastIncludedIndex - first.lastIncludedIndex
    requires p < |full| && p < |full'| && full[..p + 1] == full'[..p + 1] && k < |full|
    requires n.chan.offered == Payload(full, 0, k)
    ensures k < |full'| && (n.chan.offered == Payload(full', 0, k) <==> Agrees(n, a))
  {
    AgreesIff(n, a, log', at, rel);
    OfferedAfterSpliceIff(n.chan.offered, Agrees(n, a), n.log, log', n.snapshot, full, full', first, at, rel, p, k);
  }

  /** The payload offered so far is still that of the spliced full log exactly if the message agrees. */
  lemma AcceptedOfferedIff(n: Node, full: seq<LogEntry>, first: Snapshot, a: AppendEntriesArgs, full': seq<LogEntry>)
    requires Tracking(n, full, first) && OfferedSoFar(n, full, first.lastIncludedIndex)
    requires Accepts(n, a) && Consecutive(a) && Reaches(n, a)
    requires full' == Extend(n, full, first.lastIncludedIndex, AppendRequest(a))
    ensures n.lastApplied - first.lastIncludedIndex < |full'|
    ensures n.chan.offered == Payload(full', 0, n.lastApplied - first.lastIncludedIndex) <==> Agrees(n, a)
  {
    var log', at := Splice(n, a), a.prevLogIndex - n.snapshot.lastIncludedIndex;
    var rel := n.lastApplied - n.snapshot.lastIncludedIndex;
    var lead := n.snapshot.lastIncludedIndex - first.lastIncludedIndex;
    SplicePoint(n, full, first, a, full', lead + at, lead + rel);
    SpliceKeepsTail(n, full, first, a);
    AppliedInSplice(n, full, first, a, log', rel);
    OfferedIff(n, full, first, a, full', log', at, rel, lead + at, lead + rel);
  }

  lemma AdvanceTracks(n: Node, full: seq<LogEntry>, first: Snapshot, leaderCommit: int)
    requires Tracking(n, full, first)
    ensures Tracking(AdvanceCommit(n, leaderCommit), full, first)
    ensures AdvanceCommit(n, leaderCommit).role == n.role
  {
    AdvanceFrame(n, leaderCommit);
  }

  lemma AdvanceOffers(n: Node, full: seq<LogEntry>, first: Snapshot, leaderCommit: int, m: Node, j: int, k: int)
    requires Tracking(n, full, first) && leaderCommit > n.commitIndex && m == AdvanceCommit(n, leaderCommit)
    requires j == n.lastApplied - first.lastIncludedIndex && k == m.lastApplied - first.lastIncludedIndex
    ensures j <= k < |full| && m.chan.offered == n.chan.offered + Payload(full, j, k)
  {
    var target := n.(commitIndex := Min(leaderCommit, LastLogIndex(n)));
    ApplyFrame(target);
    ApplyOffers(target, full, first, j, k);
  }

  lemma AdvanceOfferedIff(n: Node, full: seq<LogEntry>, first: Snapshot, leaderCommit: int)
    requires Tracking(n, full, first)
    ensures OfferedSoFar(AdvanceCommit(n, leaderCommit), full, first.lastIncludedIndex)
            <==> OfferedSoFar(n, full, first.lastIncludedIndex)
  {
    if leaderCommit > n.commitIndex {
      var m := AdvanceCommit(n, leaderCommit);
      var j, k := n.lastApplied - first.lastIncludedIndex, m.lastApplied - first.lastIncludedIndex;
      AdvanceOffers(n, full, first, leaderCommit, m, j, k);
      PayloadOnward(full, j, k, n.chan.offered);
    }
  }

  /** The payload up to j and then on to k. */
  lemma PayloadOnward(full: seq<LogEntry>, j: int, k: int, offered: seq<Bytes>)
    requires j <= k < |full|
    ensures offered + Payload(full, j, k) == Payload(full, 0, k) <==> offered == Payload(full, 0, j)
  {
    if j >= 0 {
      PayloadSplit(full, 0, j, k);
    } else {
      EmptyBelow(full, j, k);
      EmptyBelow(full, j, j);
    }
    assert Payload(full, 0, k) == Payload(full, 0, j) + Payload(full, j, k);
    Cancel(Payload(full, j, k), offered, Payload(full, 0, j));
  }

  lemma {:induction false} EmptyBelow(log: seq<LogEntry>, j: int, k: int)
    requires j <= 0 && k < |log|
    ensures Payload(log, j, k) == Payload(log, 0, k) && (k <= 0 ==> Payload(log, 0, k) == [])
    decreases k
  {
    if k > 0 { EmptyBelow(log, j, k - 1); }
  }

  lemma AcceptedKeepsIff(n: Node, full: seq<LogEntry>, first: Snapshot, a: AppendEntriesArgs, full': seq<LogEntry>,
                         p: Node)
    requires Tracking(n, full, first) && OfferedSoFar(n, full, first.lastIncludedIndex)
    requires Accepts(n, a) && Consecutive(a) && Reaches(n, a)
    requires full' == Extend(n, full, first.lastIncludedIndex, AppendRequest(a)) && p == Accepted(n, a)
    ensures OfferedSoFar(p, full', first.lastIncludedIndex) <==> Agrees(n, a)
  {
    AcceptedFields(n, a);
    AcceptedOfferedIff(n, full, first, a, full');
  }

  /**
   An accepted message keeps what was offered equal to the payload up to the last applied index if and only if it
   carries, up to there, the payload it replaces.
  */
  lemma AppendOfferedIff(n: Node, full: seq<LogEntry>, first: Snapshot, a: AppendEntriesArgs, full': seq<LogEntry>)
    requires Tracking(n, full, first) && OfferedSoFar(n, full, first.lastIncludedIndex)
    requires Accepts(n, a) && Consecutive(a) && Reaches(n, a)
    requires full' == Extend(n, full, first.lastIncludedIndex, AppendRequest(a))
    ensures Tracking(AppendEntries(n, a).0, full', first)
    ensures OfferedSoFar(AppendEntries(n, a).0, full', first.lastIncludedIndex) <==> Agrees(n, a)
  {
    AcceptedFields(n, a);
    AcceptedTracks(n, full, first, a);
    AcceptedKeepsIff(n, full, first, a, full', Accepted(n, a));
    AdvanceTracks(Accepted(n, a), full', first, a.leaderCommit);
    AdvanceOfferedIff(Accepted(n, a), full', first, a.leaderCommit);
  }

  lemma AppendDelivers(n: Node, full: seq<LogEntry>, first: Snapshot, a: AppendEntriesArgs)
    requires Delivering(n, full, first) && Accepts(n, a) && Faithful(n, AppendRequest(a))
    ensures Delivering(AppendEntries(n, a).0, Extend(n, full, first.lastIncludedIndex, AppendRequest(a)), first)
  {
    AppendOfferedIff(n, full, first, a, Extend(n, full, first.lastIncludedIndex, AppendRequest(a)));
    AppendFrame(n, a);
  }

  lemma ProposeFrame(n: Node, data: Bytes)
    requires n.role.Leader?
    ensures var m := Propose(n, data).0;
            && m.log == n.log + [LogEntry(LastLogIndex(n) + 1, n.term, data)] && m.snapshot == n.snapshot
            && m.commitIndex == m.lastApplied == LastLogIndex(n) + 1
            && m.chan.offered == n.chan.offered + [data]
  {
  }

  lemma ProposalTracks(n: Node, full: seq<LogEntry>, first: Snapshot, data: Bytes)
    requires Tracking(n, full, first) && n.role.Leader?
    ensures Tracking(Propose(n, data).0, full + [LogEntry(LastLogIndex(n) + 1, n.term, data)], first)
  {
    ProposeFrame(n, data);
  }

  lemma ProposedPayload(full: seq<LogEntry>, full': seq<LogEntry>, e: LogEntry, k: int)
    requires full != [] && full' == full + [e] && k < |full|
    ensures var last := |full| - 1;
            Payload(full', 0, last + 1)
            == Payload(full, 0, k) + Payload(full, k, last) + if |e.data| > 0 then [e.data] else []
  {
    var last := |full| - 1;
    PayloadAgrees(full, full', 0, last);
    SkippedPayload(full, k, last);
  }

  lemma ProposedOfferedIff(offered: seq<Bytes>, full: seq<LogEntry>, e: LogEntry, k: int)
    requires full != [] && k < |full| && offered == Payload(full, 0, k)
    ensures offered + [e.data] == Payload(full + [e], 0, |full|)
            <==> e.data != [] && forall i :: 1 <= i < |full| && k < i ==> full[i].data == []
  {
    var last := |full| - 1;
    ProposedPayload(full, full + [e], e, k);
    PayloadEmptyIff(full, k, last);
    PayloadNonEmpty(full, k, last);
    ProposedIff(offered, Payload(full, k, last), e.data);
  }

  /**
   A leader's proposal keeps it if and only if the proposal is not empty and every entry it jumps over is: those are
   marked applied without being offered, and an empty proposal is offered although it is no payload.
  */
  lemma ProposalOfferedIff(n: Node, full: seq<LogEntry>, first: Snapshot, data: Bytes)
    requires Tracking(n, full, first) && OfferedSoFar(n, full, first.lastIncludedIndex) && n.role.Leader?
    ensures var full' := full + [LogEntry(LastLogIndex(n) + 1, n.term, data)];
            && Tracking(Propose(n, data).0, full', first)
            && (OfferedSoFar(Propose(n, data).0, full', first.lastIncludedIndex) <==>
                  data != [] &&
                  forall i :: 1 <= i < |full| && n.lastApplied - first.lastIncludedIndex < i ==> full[i].data == [])
  {
    var e := LogEntry(LastLogIndex(n) + 1, n.term, data);
    TailEnds(n, full, first);
    ProposeFrame(n, data);
    ProposalTracks(n, full, first, data);
    ProposedOfferedIff(n.chan.offered, full, e, n.lastApplied - first.lastIncludedIndex);
  }

  lemma SkippedPayload(full: seq<LogEntry>, k: int, last: int)
    requires k <= last < |full| && last >= 0
    ensures Payload(full, 0, last) == Payload(full, 0, k) + Payload(full, k, last)
  {
    if k >= 0 { PayloadSplit(full, 0, k, last); } else { EmptyBelow(full, k, last); EmptyBelow(full, k, k); }
  }

  lemma ProposedIff(offered: seq<Bytes>, skipped: seq<Bytes>, data: Bytes)
    requires [] !in skipped
    ensures offered + [data] == offered + skipped + (if |data| > 0 then [data] else []) <==> data != [] && skipped == []
  {
    var own := if |data| > 0 then [data] else [];
    assert offered + skipped + own == offered + (skipped + own);
    Cancel(offered, [data], skipped + own);
    assert data == [] ==> skipped + own == skipped && data in [data];
    Cancel([data], [], skipped);
    assert [] + [data] == [data];
  }

  lemma CompactDelivers(n: Node, full: seq<LogEntry>, first: Snapshot, index: int, data: Bytes)
    requires Delivering(n, full, first)
    ensures Delivering(CompactLog(n, index, data).0, full, first)
  {
    CompactTail(n, full, first, index, data);
    TailEnds(n, full, first);
    TailEnds(CompactLog(n, index, data).0, full, first);
  }

  /** Every other step leaves alone all that delivery depends on. */
  lemma OtherFields(n: Node, e: Event)
    requires !n.role.Leader? && !e.Restart? && !e.TallyDoneIn? && !e.AppendRequest? && !e.Compaction?
    ensures var m := Step(n, e).0;
            && m.log == n.log && m.snapshot == n.snapshot && m.chan.offered == n.chan.offered
            && m.commitIndex == n.commitIndex && m.lastApplied == n.lastApplied && !m.role.Leader?
  {
  }

  lemma OtherDelivers(n: Node, full: seq<LogEntry>, first: Snapshot, e: Event)
    requires Delivering(n, full, first) && Faithful(n, e) && !e.AppendRequest? && !e.Compaction?
    ensures Delivering(Step(n, e).0, full, first)
  {
    OtherFields(n, e);
  }

  lemma StepDelivers(n: Node, full: seq<LogEntry>, first: Snapshot, e: Event)
    requires Delivering(n, full, first) && Faithful(n, e)
    ensures Delivering(Step(n, e).0, Extend(n, full, first.lastIncludedIndex, e), first)
  {
    match e
    case AppendRequest(a) =>
      if Accepts(n, a) {
        AppendDelivers(n, full, first, a);
      } else {
        RejectFrame(n, a);
      }
    case Compaction(i, d) => CompactDelivers(n, full, first, i, d);
    case _ => OtherDelivers(n, full, first, e);
  }

  // ----- runs

  ghost predicate FaithfulRun(n: Node, events: seq<Event>)
    decreases events
  {
    events == [] || (Faithful(n, events[0]) && FaithfulRun(Step(n, events[0]).0, events[1..]))
  }

  lemma {:induction false} RunDelivers(n: Node, full: seq<LogEntry>, first: Snapshot, events: seq<Event>)
    requires Delivering(n, full, first) && FaithfulRun(n, events)
    ensures Delivering(Exec(n, events), FullLog(n, full, first.lastIncludedIndex, events), first)
    decreases events
  {
    if events != [] {
      StepDelivers(n, full, first, events[0]);
      RunDelivers(Step(n, events[0]).0, Extend(n, full, first.lastIncludedIndex, events[0]), first, events[1..]);
    }
  }

  lemma StartDelivers(n: Node)
    requires WellIndexed(n) && n == Start(n.id, n.peers, n.disk)
    ensures Delivering(n, n.log, n.snapshot)
  {
  }

  /**
   A node started from any disk, with snapshot index s, that only follows: after any faithful run it has offered
   exactly the non-empty data of indices s + 1 to commitIndex, in order and once each, whatever it compacted meanwhile.
   Nothing at or below s, which the snapshot covers, is ever offered.
  */
  lemma DeliversCommittedOnce(id: string, peers: seq<string>, disk: Disk, events: seq<Event>)
    requires WellIndexed(Start(id, peers, disk)) && FaithfulRun(Start(id, peers, disk), events)
    ensures var n := Start(id, peers, disk);
            var s := n.snapshot.lastIncludedIndex;
            var m := Exec(n, events);
            var full := FullLog(n, n.log, s, events);
            && m.lastApplied == m.commitIndex
            && OfferedSoFar(m, full, s)
            && Tail(m.log, m.snapshot, full, n.snapshot)
  {
    var n := Start(id, peers, disk);
    StartDelivers(n);
    RunDelivers(n, n.log, n.snapshot, events);
  }

  // ----- the bounded channel

  /** `a` is `b` with some elements left out. */
  ghost predicate Subsequence(a: seq<Bytes>, b: seq<Bytes>)
    decreases |b|
  {
    a == [] ||
    (b != [] &&
     (Subsequence(a, b[..|b| - 1]) || (a[|a| - 1] == b[|b| - 1] && Subsequence(a[..|a| - 1], b[..|b| - 1]))))
  }

  ghost predicate ChanInv(c: CommitChan) {
    && |c.queue| <= CHAN_CAPACITY
    && |c.received + c.queue| + c.dropped == |c.offered|
    && Subsequence(c.received + c.queue, c.offered)
  }

  lemma OfferKeepsChan(c: CommitChan, data: Bytes)
    requires ChanInv(c)
    ensures ChanInv(c.Offer(data))
  {
    var d := c.Offer(data);
    assert d.offered[..|d.offered| - 1] == c.offered;
    if |c.queue| < CHAN_CAPACITY {
      var out := d.received + d.queue;
      assert out[..|out| - 1] == c.received + c.queue;
    }
  }

  lemma {:induction false} ApplyKeepsChan(n: Node)
    requires ChanInv(n.chan)
    ensures ChanInv(ApplyCommitted(n).chan)
    decreases n.commitIndex - n.lastApplied
  {
    if n.lastApplied < n.commitIndex {
      var rel := n.lastApplied + 1 - n.snapshot.lastIncludedIndex;
      if 0 <= rel < |n.log| {
        OfferKeepsChan(n.chan, n.log[rel].data);
      }
      ApplyKeepsChan(ApplyOne(n));
    }
  }

  lemma AppendKeepsChan(n: Node, a: AppendEntriesArgs)
    requires ChanInv(n.chan)
    ensures ChanInv(AppendEntries(n, a).0.chan)
  {
    if Accepts(n, a) && a.leaderCommit > n.commitIndex {
      var p := Accepted(n, a);
      ApplyKeepsChan(p.(commitIndex := Min(a.leaderCommit, LastLogIndex(p))));
    }
  }

  lemma ReceiveKeepsChan(c: CommitChan)
    requires ChanInv(c)
    ensures ChanInv(c.Receive())
  {
    assert c.queue != [] ==> c.Receive().received + c.Receive().queue == c.received + c.queue;
  }

  lemma StepKeepsChan(n: Node, e: Event)
    requires ChanInv(n.chan)
    ensures ChanInv(Step(n, e).0.chan)
  {
    match e
    case AppendRequest(a) => AppendKeepsChan(n, a);
    case Proposal(d) => OfferKeepsChan(n.chan, d);
    case Receive => ReceiveKeepsChan(n.chan);
    case _ =>
  }

  lemma {:induction false} RunKeepsChan(n: Node, events: seq<Event>)
    requires ChanInv(n.chan)
    ensures ChanInv(Exec(n, events).chan)
    decreases events
  {
    if events != [] {
      StepKeepsChan(n, events[0]);
      RunKeepsChan(Step(n, events[0]).0, events[1..]);
    }
  }

  lemma {:induction false} FullSubsequence(a: seq<Bytes>, b: seq<Bytes>)
    requires Subsequence(a, b)
    ensures |a| <= |b| && (|a| == |b| ==> a == b)
    decreases |b|
  {
    if a != [] {
      var a', b' := a[..|a| - 1], b[..|b| - 1];
      assert a == a' + [a[|a| - 1]] && b == b' + [b[|b| - 1]];
      if Subsequence(a, b') {
        FullSubsequence(a, b');
      } else {
        FullSubsequence(a', b');
      }
    }
  }

  /** In any run the reader gets the offered values in order; it gets all of them exactly when none was dropped. */
  lemma ReaderGetsOffered(id: string, peers: seq<string>, disk: Disk, events: seq<Event>)
    ensures var c := Exec(Start(id, peers, disk), events).chan;
            && Subsequence(c.received + c.queue, c.offered)
            && |c.queue| <= 1000
            && |c.received + c.queue| + c.dropped == |c.offered|
            && (c.received + c.queue == c.offered <==> c.dropped == 0)
  {
    RunKeepsChan(Start(id, peers, disk), events);
    var c := Exec(Start(id, peers, disk), events).chan;
    FullSubsequence(c.received + c.queue, c.offered);
  }

  // ----- what the channel takes, and when it loses anything

  /**
   Handing on these values at a time when nothing is received: the first that fit into 1000 places are queued, in order
   behind those that wait, and the others are lost.
  */
  ghost predicate HandsOn(c: CommitChan, values: seq<Bytes>, d: CommitChan) {
    var room := 1000 - |c.queue|;
    && d.offered == c.offered + values && d.received == c.received
    && (|values| <= room ==> d.queue == c.queue + values && d.dropped == c.dropped)
    && (|values| > room >= 0 ==> d.queue == c.queue + values[..room] && d.dropped == c.dropped + |values| - room)
  }

  lemma HandsOnOne(c: CommitChan, data: Bytes)
    requires |c.queue| <= 1000
    ensures HandsOn(c, [data], c.Offer(data))
  {
    assert c.queue + [data][..0] == c.queue;
  }

  lemma HandsOnMore(c: CommitChan, x: seq<Bytes>, d: CommitChan, y: seq<Bytes>, e: CommitChan)
    requires |c.queue| <= 1000 && HandsOn(c, x, d) && HandsOn(d, y, e)
    ensures HandsOn(c, x + y, e)
  {
    var room := 1000 - |c.queue|;
    assert (c.offered + x) + y == c.offered + (x + y);
    if |x| <= room {
      assert (c.queue + x) + y == c.queue + (x + y);
      if |x + y| > room {
        assert (x + y)[..room] == x + y[..room - |x|];
        assert (c.queue + x) + y[..room - |x|] == c.queue + (x + y[..room - |x|]);
      }
    } else {
      assert (x + y)[..room] == x[..room];
      assert |y| > 0 ==> d.queue + y[..0] == d.queue;
      assert |y| == 0 ==> y == [] && d.queue + y == d.queue;
    }
  }

  lemma HandsOnNothing(c: CommitChan)
    ensures HandsOn(c, [], c)
  {
  }

  lemma ApplyOneHandsOn(n: Node) returns (values: seq<Bytes>)
    requires |n.chan.queue| <= 1000
    ensures HandsOn(n.chan, values, ApplyOne(n).chan)
  {
    var rel := n.lastApplied + 1 - n.snapshot.lastIncludedIndex;
    if 0 <= rel < |n.log| && |n.log[rel].data| > 0 {
      values := [n.log[rel].data];
      HandsOnOne(n.chan, n.log[rel].data);
    } else {
      values := [];
      HandsOnNothing(n.chan);
    }
  }

  lemma {:induction false} ApplyHandsOn(n: Node) returns (values: seq<Bytes>)
    requires |n.chan.queue| <= 1000
    ensures HandsOn(n.chan, values, ApplyCommitted(n).chan)
    decreases n.commitIndex - n.lastApplied
  {
    if n.lastApplied < n.commitIndex {
      var first := ApplyOneHandsOn(n);
      var rest := ApplyHandsOn(ApplyOne(n));
      HandsOnMore(n.chan, first, ApplyOne(n).chan, rest, ApplyCommitted(n).chan);
      values := first + rest;
    } else {
      values := [];
      HandsOnNothing(n.chan);
    }
  }

  lemma AppendHandsOn(n: Node, a: AppendEntriesArgs) returns (values: seq<Bytes>)
    requires |n.chan.queue| <= 1000
    ensures HandsOn(n.chan, values, AppendEntries(n, a).0.chan)
  {
    if Accepts(n, a) && a.leaderCommit > n.commitIndex {
      var p := Accepted(n, a);
      values := ApplyHandsOn(p.(commitIndex := Min(a.leaderCommit, LastLogIndex(p))));
    } else {
      values := [];
      HandsOnNothing(n.chan);
    }
  }

  /** Every step but a crash or a receive hands on some values, and loses none but those that find 1000 waiting. */
  lemma StepHandsOn(n: Node, e: Event)
    requires |n.chan.queue| <= 1000 && !e.Restart? && !e.Receive?
    ensures exists values :: HandsOn(n.chan, values, Step(n, e).0.chan)
  {
    var values := [];
    HandsOnNothing(n.chan);
    if e.AppendRequest? {
      values := AppendHandsOn(n, e.append);
    } else if e.Proposal? && n.role.Leader? {
      HandsOnOne(n.chan, e.data);
      values := [e.data];
    }
    assert HandsOn(n.chan, values, Step(n, e).0.chan);
  }

  /** At no point of the run has the reader more than 1000 of the values offered still to come. */
  ghost predicate NeverBehind(n: Node, events: seq<Event>)
    decreases events
  {
    && |n.chan.offered| - |n.chan.received| <= 1000
    && (events == [] || NeverBehind(Step(n, events[0]).0, events[1..]))
  }

  ghost predicate NeverDrops(n: Node, events: seq<Event>)
    decreases events
  {
    n.chan.dropped == 0 && (events == [] || NeverDrops(Step(n, events[0]).0, events[1..]))
  }

  lemma StepDropsIff(n: Node, e: Event)
    requires ChanInv(n.chan) && n.chan.dropped == 0
    ensures var c := Step(n, e).0.chan;
            c.dropped == 0 <==> |c.offered| - |c.received| <= 1000
  {
    if !e.Restart? && !e.Receive? {
      StepHandsOn(n, e);
      var values :| HandsOn(n.chan, values, Step(n, e).0.chan);
    }
  }

  lemma {:induction false} NeverDropsFrom(n: Node, events: seq<Event>)
    requires ChanInv(n.chan) && n.chan.dropped == 0
    ensures NeverBehind(n, events) <==> NeverDrops(n, events)
    ensures NeverDrops(n, events) ==> Exec(n, events).chan.dropped == 0
    decreases events
  {
    if events != [] {
      StepDropsIff(n, events[0]);
      StepKeepsChan(n, events[0]);
      var m := Step(n, events[0]).0;
      if m.chan.dropped == 0 { NeverDropsFrom(m, events[1..]); }
    }
  }

  /** Nothing is ever lost if and only if the reader is never more than 1000 values behind; it then gets them all. */
  lemma NothingDroppedIff(id: string, peers: seq<string>, disk: Disk, events: seq<Event>)
    ensures var n := Start(id, peers, disk);
            && (NeverBehind(n, events) <==> NeverDrops(n, events))
            && (NeverBehind(n, events) ==>
                  var c := Exec(n, events).chan;
                  c.dropped == 0 && c.received + c.queue == c.offered)
  {
    NeverDropsFrom(Start(id, peers, disk), events);
    ReaderGetsOffered(id, peers, disk, events);
  }

  ghost function Receives(k: nat): seq<Event> {
    seq(k, _ => Receive)
  }

  /** Receiving k times gets the k values that have waited longest. */
  lemma {:induction false} ReceivesInOrder(n: Node, k: nat)
    requires k <= |n.chan.queue|
    ensures var c := Exec(n, Receives(k)).chan;
            && c.received == n.chan.received + n.chan.queue[..k] && c.queue == n.chan.queue[k..]
            && c.offered == n.chan.offered && c.dropped == n.chan.dropped
    decreases k
  {
    if k > 0 {
      var m := Step(n, Receive).0;
      assert Receives(k)[1..] == Receives(k - 1);
      ReceivesInOrder(m, k - 1);
      assert n.chan.queue[..k] == [n.chan.queue[0]] + n.chan.queue[1..][..k - 1];
      assert n.chan.received + [n.chan.queue[0]] + n.chan.queue[1..][..k - 1] == n.chan.received + n.chan.queue[..k];
    }
  }

  /** So a reader that was never too far behind and empties the channel has received exactly what was offered. */
  lemma ReaderCatchesUp(id: string, peers: seq<string>, disk: Disk, events: seq<Event>)
    requires NeverBehind(Start(id, peers, disk), events)
    ensures var m := Exec(Start(id, peers, disk), events);
            var c := Exec(m, Receives(|m.chan.queue|)).chan;
            c.received == m.chan.offered && c.queue == []
  {
    var m := Exec(Start(id, peers, disk), events);
    NothingDroppedIff(id, peers, disk, events);
    ReceivesInOrder(m, |m.chan.queue|);
    assert m.chan.queue[..|m.chan.queue|] == m.chan.queue;
  }
}
