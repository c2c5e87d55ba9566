/** What every handler keeps: log indexing, the commit index, and the copy on disk. */
module RaftInvariant {
  import opened Bytes
  import opened RaftNode

  function Max(a: int, b: int): int {
    if a < b then b else a
  }

  // ----- the apply loop

  /** The loop moves only `lastApplied` and the channel. */
  lemma {:induction false} ApplyFrame(n: Node)
    ensures var m := ApplyCommitted(n);
            m == n.(lastApplied := Max(n.lastApplied, n.commitIndex), chan := m.chan)
    decreases n.commitIndex - n.lastApplied
  {
    if n.lastApplied < n.commitIndex {
      ApplyFrame(ApplyOne(n));
    }
  }

  lemma AdvanceFrame(n: Node, leaderCommit: int)
    ensures var m := AdvanceCommit(n, leaderCommit);
            var commit := if leaderCommit > n.commitIndex then Min(leaderCommit, LastLogIndex(n)) else n.commitIndex;
            m == n.(commitIndex := commit, chan := m.chan,
                    lastApplied := if leaderCommit > n.commitIndex then Max(n.lastApplied, commit) else n.lastApplied)
  {
    if leaderCommit > n.commitIndex {
      ApplyFrame(n.(commitIndex := Min(leaderCommit, LastLogIndex(n))));
    }
  }

  /** Everything an accepted message does, the channel aside. */
  lemma AppendFrame(n: Node, a: AppendEntriesArgs)
    requires Accepts(n, a)
    ensures var p := Persist(StepDown(n, a.term).(log := Splice(n, a)));
            var m := AppendEntries(n, a).0;
            && m.term == a.term && m.snapshot == n.snapshot && m.log == p.log == Splice(n, a)
            && m == p.(commitIndex := m.commitIndex, lastApplied := m.lastApplied, chan := m.chan)
            && m.commitIndex == (if a.leaderCommit > n.commitIndex then Min(a.leaderCommit, LastLogIndex(p))
                                 else n.commitIndex)
            && m.lastApplied == (if a.leaderCommit > n.commitIndex then Max(n.lastApplied, m.commitIndex)
                                 else n.lastApplied)
            && AppendEntries(n, a).1.success
  {
    AdvanceFrame(Persist(StepDown(n, a.term).(log := Splice(n, a))), a.leaderCommit);
  }

  lemma RejectFrame(n: Node, a: AppendEntriesArgs)
    requires !Accepts(n, a)
    ensures AppendEntries(n, a) == (if a.term < n.term then n else StepDown(n, a.term), AppendReply(n.term, false))
  {
  }

  // ----- the representation invariant

  /** `log` behind snapshot `snap` is well indexed. */
  ghost predicate Indexed(log: seq<LogEntry>, snap: Snapshot) {
    && |log| > 0 && snap.lastIncludedIndex >= 0
    && (forall i :: 0 <= i < |log| ==> log[i].index == snap.lastIncludedIndex + i)
    && log[0].term == snap.lastIncludedTerm && log[0].data == []
  }

  ghost predicate WellIndexed(n: Node) {
    Indexed(n.log, n.snapshot)
  }

  ghost predicate RepInv(n: Node) {
    && WellIndexed(n)
    && 0 <= n.commitIndex <= LastLogIndex(n)
    && n.lastApplied == n.commitIndex
  }

  ghost predicate Consecutive(a: AppendEntriesArgs) {
    forall i :: 0 <= i < |a.entries| ==> a.entries[i].index == a.prevLogIndex + 1 + i
  }

  /** The message leaves no committed index without an entry. */
  ghost predicate Reaches(n: Node, a: AppendEntriesArgs) {
    a.prevLogIndex + |a.entries| >= n.commitIndex
  }

  lemma SpliceIndexedIff(n: Node, a: AppendEntriesArgs, m: Node)
    requires WellIndexed(n) && Accepts(n, a)
    requires m.log == Splice(n, a) && m.snapshot == n.snapshot
    ensures WellIndexed(m) <==> Consecutive(a)
    ensures WellIndexed(m) ==> LastLogIndex(m) == a.prevLogIndex + |a.entries|
  {
    var at := a.prevLogIndex - n.snapshot.lastIncludedIndex + 1;
    if Consecutive(a) {
      forall i | 0 <= i < |m.log|
        ensures m.log[i].index == m.snapshot.lastIncludedIndex + i
      {
        assert m.log[i] == if i < at then n.log[i] else a.entries[i - at];
      }
    } else {
      var i :| 0 <= i < |a.entries| && a.entries[i].index != a.prevLogIndex + 1 + i;
      assert m.log[at + i] == a.entries[i];
    }
  }

  /** A message keeps the invariant exactly when it is rejected, or consecutive and long enough. */
  lemma AppendKeepsInvariantIff(n: Node, a: AppendEntriesArgs)
    requires RepInv(n)
    ensures RepInv(AppendEntries(n, a).0) <==> (Accepts(n, a) ==> Consecutive(a) && Reaches(n, a))
  {
    if Accepts(n, a) {
      AppendFrame(n, a);
      SpliceIndexedIff(n, a, AppendEntries(n, a).0);
    } else {
      RejectFrame(n, a);
    }
  }

  /** The index the last entry of a spliced message claims. */
  function ClaimedEnd(a: AppendEntriesArgs): int {
    if a.entries == [] then a.prevLogIndex else a.entries[|a.entries| - 1].index
  }

  /** The commit index after an accepted message. */
  function CommitAfter(n: Node, a: AppendEntriesArgs): int {
    if a.leaderCommit > n.commitIndex then Min(a.leaderCommit, ClaimedEnd(a)) else n.commitIndex
  }

  lemma AcceptedCommit(n: Node, a: AppendEntriesArgs)
    requires WellIndexed(n) && Accepts(n, a)
    ensures var m := AppendEntries(n, a).0;
            && LastLogIndex(m) == ClaimedEnd(a) && m.commitIndex == CommitAfter(n, a) && m.snapshot == n.snapshot
            && |m.log| == a.prevLogIndex + |a.entries| + 1 - n.snapshot.lastIncludedIndex
  {
    AppendFrame(n, a);
  }

  /**
   After an accepted message some compaction runs off the log exactly when the message leaves the commit index past its
   last entry: it stops short of what is committed, or its entries claim indices past their positions.
  */
  lemma CompactPanicsIff(n: Node, a: AppendEntriesArgs)
    requires WellIndexed(n) && Accepts(n, a)
    ensures (exists i :: CompactLog(AppendEntries(n, a).0, i, []).1.Panicked?)
            <==> CommitAfter(n, a) > a.prevLogIndex + |a.entries|
  {
    var m := AppendEntries(n, a).0;
    AcceptedCommit(n, a);
    if m.commitIndex > a.prevLogIndex + |a.entries| {
      assert CompactLog(m, m.commitIndex, []).1.Panicked?;
    }
  }

  /** The second way, in any state with nothing wrong yet: one misnumbered entry, committed by the message itself. */
  lemma MisnumberedPanics(n: Node, d: Bytes)
    requires RepInv(n)
    ensures var last := LastLogIndex(n);
            var a := AppendEntriesArgs(n.term, "", last, LastLogTerm(n), [LogEntry(last + 2, n.term, d)], last + 2);
            && Accepts(n, a) && Reaches(n, a)
            && exists i :: CompactLog(AppendEntries(n, a).0, i, []).1.Panicked?
  {
    var last := LastLogIndex(n);
    var a := AppendEntriesArgs(n.term, "", last, LastLogTerm(n), [LogEntry(last + 2, n.term, d)], last + 2);
    CompactPanicsIff(n, a);
  }

  /** The exact condition above, asked of every message of a run. */
  ghost predicate WellBehaved(n: Node, events: seq<Event>)
    decreases events
  {
    events == [] ||
    (&& (events[0].AppendRequest? && Accepts(n, events[0].append) ==>
           Consecutive(events[0].append) && Reaches(n, events[0].append))
     && WellBehaved(Step(n, events[0]).0, events[1..]))
  }

  lemma CompactKeepsInvariant(n: Node, index: int, data: Bytes)
    requires RepInv(n)
    ensures RepInv(CompactLog(n, index, data).0)
    ensures !CompactLog(n, index, data).1.Panicked?
  {
  }

  /**
   A compaction is accepted if and only if it is past the snapshot and what is there is committed; it then takes the
   state it was given and the term of the entry it was cut at, and keeps what follows. Otherwise nothing changes.
  */
  lemma CompactedIff(n: Node, index: int, data: Bytes)
    requires RepInv(n)
    ensures var (m, r) := CompactLog(n, index, data);
            var s := n.snapshot.lastIncludedIndex;
            && (r == Compacted <==> s < index <= n.commitIndex)
            && (r != Compacted ==> r == Refused && m == n)
            && (r == Compacted ==>
                  && m.snapshot == Snapshot(index, n.log[index - s].term, data)
                  && |m.log| == |n.log| - (index - s) && m.log[1..] == n.log[index - s + 1..])
            && m == n.(snapshot := m.snapshot, log := m.log, disk := m.disk)
  {
  }

  /** The commit index a message leaves: as far as the leader says, but no further than the log, and never back. */
  lemma CommitIsGreatest(n: Node, a: AppendEntriesArgs)
    requires Accepts(n, a)
    ensures var m := AppendEntries(n, a).0;
            var last := LastLogIndex(m);
            && (a.leaderCommit <= n.commitIndex ==> m.commitIndex == n.commitIndex)
            && (a.leaderCommit > n.commitIndex ==>
                  && m.commitIndex <= a.leaderCommit && m.commitIndex <= last
                  && (m.commitIndex == a.leaderCommit || m.commitIndex == last))
  {
    AppendFrame(n, a);
  }

  lemma ProposeKeepsInvariant(n: Node, data: Bytes)
    requires RepInv(n)
    ensures RepInv(Propose(n, data).0)
  {
  }

  lemma LocalStepsKeepInvariant(n: Node, e: Event)
    requires RepInv(n) && Synced(n) && !e.AppendRequest?
    ensures RepInv(Step(n, e).0)
    ensures e.Compaction? ==> !Step(n, e).1.result.Panicked?
  {
    match e
    case Compaction(i, d) => CompactKeepsInvariant(n, i, d);
    case Proposal(d) => ProposeKeepsInvariant(n, d);
    case _ =>
  }

  /** Between restarts, term, commit index and snapshot index only grow. */
  ghost predicate Grows(n: Node, m: Node) {
    && n.term <= m.term
    && n.commitIndex <= m.commitIndex
    && n.snapshot.lastIncludedIndex <= m.snapshot.lastIncludedIndex
  }

  lemma StepKeepsInvariant(n: Node, e: Event)
    requires RepInv(n) && Synced(n) && WellBehaved(n, [e])
    ensures RepInv(Step(n, e).0) && Synced(Step(n, e).0)
    ensures e.Compaction? ==> !Step(n, e).1.result.Panicked?
    ensures !e.Restart? ==> Grows(n, Step(n, e).0)
  {
    SyncedStep(n, e);
    if e.AppendRequest? {
      AppendKeepsInvariantIff(n, e.append);
      if Accepts(n, e.append) {
        AppendFrame(n, e.append);
      }
    } else {
      LocalStepsKeepInvariant(n, e);
    }
  }

  /** The invariant over whole runs, crashes included: no compaction panics, and nothing shrinks without a crash. */
  lemma {:induction false} RunKeepsInvariant(n: Node, events: seq<Event>)
    requires RepInv(n) && Synced(n) && WellBehaved(n, events)
    ensures RepInv(Exec(n, events)) && Synced(Exec(n, events))
    ensures OfCompaction(Panicked) !in Replies(n, events)
    ensures (forall e :: e in events ==> !e.Restart?) ==> Grows(n, Exec(n, events))
    decreases events
  {
    if events != [] {
      StepKeepsInvariant(n, events[0]);
      RunKeepsInvariant(Step(n, events[0]).0, events[1..]);
    }
  }

  /**
   What a read index means: the one given right after a proposal is the proposal's, greater than any given before, and
   every one given later in the process, in whatever term, still covers the proposal and lies within the log.
  */
  lemma ReadIndexCoversProposals(n: Node, data: Bytes, events: seq<Event>)
    requires RepInv(n) && Synced(n) && n.role.Leader?
    requires WellBehaved(Propose(n, data).0, events) && forall e :: e in events ==> !e.Restart?
    ensures Propose(n, data).1
    ensures var p := Propose(n, data).0;
            var q := Exec(p, events);
            && ReadIndex(p) == Some((LastLogIndex(n) + 1, n.term))
            && p.log[|p.log| - 1] == LogEntry(LastLogIndex(n) + 1, n.term, data)
            && (ReadIndex(n).Some? ==> ReadIndex(p).value.0 > ReadIndex(n).value.0)
            && (ReadIndex(q).Some? ==>
                  && LastLogIndex(n) + 1 <= ReadIndex(q).value.0 <= LastLogIndex(q)
                  && n.term <= ReadIndex(q).value.1)
  {
    StepKeepsInvariant(n, Proposal(data));
    RunKeepsInvariant(Propose(n, data).0, events);
  }

  /** Between two reads of one process neither the index nor the term falls. */
  lemma ReadIndexGrows(n: Node, events: seq<Event>)
    requires RepInv(n) && Synced(n) && WellBehaved(n, events) && forall e :: e in events ==> !e.Restart?
    requires ReadIndex(n).Some? && ReadIndex(Exec(n, events)).Some?
    ensures ReadIndex(n).value.0 <= ReadIndex(Exec(n, events)).value.0
    ensures ReadIndex(n).value.1 <= ReadIndex(Exec(n, events)).value.1
  {
    RunKeepsInvariant(n, events);
  }

  /** In particular over the whole life of a node set up fresh, with storage or without. */
  lemma FreshLifetime(id: string, peers: seq<string>, disk: Disk, events: seq<Event>)
    requires !disk.Stored? && WellBehaved(Start(id, peers, disk), events)
    ensures RepInv(Exec(Start(id, peers, disk), events))
    ensures OfCompaction(Panicked) !in Replies(Start(id, peers, disk), events)
  {
    RunKeepsInvariant(Start(id, peers, disk), events);
  }

  // ----- storage

  /** The stored log and snapshot are the ones in memory; the stored term may lag. */
  ghost predicate Synced(n: Node) {
    n.disk.NoStorage? ||
    (OnDisk(n.disk).log == n.log && OnDisk(n.disk).snapshot == n.snapshot && OnDisk(n.disk).term <= n.term)
  }

  /** A crash now would lose nothing durable. */
  ghost predicate Current(n: Node) {
    OnDisk(n.disk) == InMemory(n)
  }

  lemma SyncedStep(n: Node, e: Event)
    requires Synced(n)
    ensures Synced(Step(n, e).0)
  {
    if e.AppendRequest? && Accepts(n, e.append) {
      AppendFrame(n, e.append);
    }
  }

  /** The one branch that changes the term or the vote and returns without writing. */
  ghost predicate UnwrittenMismatch(n: Node, e: Event) {
    && e.AppendRequest?
    && e.append.term >= n.term
    && !Matches(n, e.append.prevLogIndex, e.append.prevLogTerm)
    && (e.append.term > n.term || (n.role.Candidate? && n.votedFor != ""))
  }

  /** From a state the disk knows in full, a step leaves such a state exactly unless it takes that branch. */
  lemma CurrentIff(n: Node, e: Event)
    requires Current(n) && !n.disk.NoStorage?
    ensures Current(Step(n, e).0) <==> !UnwrittenMismatch(n, e)
  {
    if e.AppendRequest? && Accepts(n, e.append) {
      AppendFrame(n, e.append);
    }
  }

  /**
   No vote, no acknowledgement and no accepted proposal, compaction or membership change leaves the node before its
   term, vote, log and snapshot are stored; nor does a vote denied for any other reason than a stale term.
  */
  lemma StoredBeforeReply(n: Node, e: Event)
    requires !n.disk.NoStorage?
    ensures var (m, r) := Step(n, e);
            && (r.OfVote? && r.vote.voteGranted ==>
                  Current(m) && m.term == e.vote.term && m.votedFor == e.vote.candidateID)
            && (r.OfVote? && e.vote.term >= n.term ==> Current(m))
            && (r.OfAppend? && r.append.success ==>
                  Current(m) && m.term == e.append.term && Accepts(n, e.append) && m.log == Splice(n, e.append))
            && (r == OfProposal(true) || r == OfCompaction(Compacted) || r == OfMembership(true) ==> Current(m))
  {
    if e.AppendRequest? && Accepts(n, e.append) {
      AppendFrame(n, e.append);
    }
  }

  /** Crash at the end of any run: the log and snapshot come back, and the term and vote too unless unwritten. */
  lemma {:induction false} RestartRoundTrip(n: Node, events: seq<Event>, peers: seq<string>)
    requires Synced(n) && !n.disk.NoStorage?
    ensures var m := Exec(n, events);
            var back := Step(m, Restart(peers)).0;
            && back.log == m.log && back.snapshot == m.snapshot && back.term <= m.term
            && back.role == Follower && back.commitIndex == back.lastApplied == 0
            && back.id == n.id && back.peers == peers && back.chan == EMPTY_CHAN
            && Current(back)
            && (Current(m) ==> back.term == m.term && back.votedFor == m.votedFor)
            && Step(back, Restart(peers)).0 == back
    decreases events
  {
    if events != [] {
      SyncedStep(n, events[0]);
      var m := Step(n, events[0]).0;
      if events[0].AppendRequest? && Accepts(n, events[0].append) {
        AppendFrame(n, events[0].append);
      }
      RestartRoundTrip(m, events[1..], peers);
    }
  }

  /** Index and state of the last compaction answered as done; a crash without storage goes back to a fresh node's. */
  ghost function LastSnapshot(noStorage: bool, events: seq<Event>, replies: seq<Reply>,
                              start: (int, Bytes)): (int, Bytes)
    requires |events| == |replies|
    decreases events
  {
    if events == [] then start else
      var e := events[0];
      LastSnapshot(noStorage, events[1..], replies[1..],
                   if e.Compaction? && replies[0] == OfCompaction(Compacted) then (e.index, e.state)
                   else if e.Restart? && noStorage then (0, []) else start)
  }

  lemma StepSnapshot(n: Node, e: Event)
    requires Synced(n)
    ensures var (m, r) := Step(n, e);
            && (m.disk.NoStorage? <==> n.disk.NoStorage?)
            && (m.snapshot.lastIncludedIndex, m.snapshot.data)
               == LastSnapshot(n.disk.NoStorage?, [e], [r], (n.snapshot.lastIncludedIndex, n.snapshot.data))
  {
    assert [e][1..] == [] && [Step(n, e).1][1..] == [];
    if e.AppendRequest? {
      if Accepts(n, e.append) { AppendFrame(n, e.append); } else { RejectFrame(n, e.append); }
    }
  }

  /**
   Over any run with crashes the node holds the state given to the last compaction done, at its index, or the one it had
   at the start.
  */
  lemma {:induction false} SnapshotIsLastCompaction(n: Node, events: seq<Event>)
    requires Synced(n)
    ensures |Replies(n, events)| == |events|
    ensures var snap := Exec(n, events).snapshot;
            (snap.lastIncludedIndex, snap.data)
            == LastSnapshot(n.disk.NoStorage?, events, Replies(n, events),
                            (n.snapshot.lastIncludedIndex, n.snapshot.data))
    decreases events
  {
    if events != [] {
      var e, rest := events[0], events[1..];
      var (m, r) := Step(n, e);
      SyncedStep(n, e);
      StepSnapshot(n, e);
      SnapshotIsLastCompaction(m, rest);
      assert [e][1..] == [] && [r][1..] == [];
      assert Replies(n, events) == [r] + Replies(m, rest) && Replies(n, events)[1..] == Replies(m, rest);
    }
  }

  /** In particular from a start on any storage: the state survives every crash, what was stored before the run too. */
  lemma SnapshotSurvives(id: string, peers: seq<string>, disk: Disk, events: seq<Event>, peers': seq<string>)
    requires !disk.NoStorage?
    ensures |Replies(Start(id, peers, disk), events)| == |events|
    ensures var n := Start(id, peers, disk);
            var m := Exec(n, events);
            && (m.snapshot.lastIncludedIndex, m.snapshot.data)
               == LastSnapshot(false, events, Replies(n, events),
                               (OnDisk(disk).snapshot.lastIncludedIndex, OnDisk(disk).snapshot.data))
            && Step(m, Restart(peers')).0.snapshot == m.snapshot
  {
    SnapshotIsLastCompaction(Start(id, peers, disk), events);
    RestartRoundTrip(Start(id, peers, disk), events, peers');
  }

  /** A reply carries the term from before the request, out of date exactly when the request had a later one. */
  lemma ReplyTermStaleIff(n: Node, v: RequestVoteArgs, a: AppendEntriesArgs)
    ensures RequestVote(n, v).1.term != RequestVote(n, v).0.term <==> v.term > n.term
    ensures AppendEntries(n, a).1.term != AppendEntries(n, a).0.term <==> a.term > n.term
  {
    if Accepts(n, a) { AppendFrame(n, a); } else { RejectFrame(n, a); }
  }

  // ----- redelivery

  /** Advancing the commit index again to the same bound changes nothing. */
  lemma AdvanceTwice(n: Node, leaderCommit: int)
    ensures AdvanceCommit(AdvanceCommit(n, leaderCommit), leaderCommit) == AdvanceCommit(n, leaderCommit)
  {
    AdvanceFrame(n, leaderCommit);
    var m := AdvanceCommit(n, leaderCommit);
    if leaderCommit > m.commitIndex {
      ApplyNothing(m);
    }
  }

  /** Once a message is accepted, splicing it in and persisting again changes nothing. */
  lemma SpliceTwice(n: Node, a: AppendEntriesArgs)
    requires Accepts(n, a)
    ensures var once := AppendEntries(n, a).0;
            && Accepts(once, a) && StepDown(once, a.term) == once
            && Persist(once.(log := Splice(once, a))) == once
  {
    AppendFrame(n, a);
    var once := AppendEntries(n, a).0;
    assert Splice(once, a) == once.log;
  }

  /** Redelivering a message at once changes nothing, in any state whatever, and repeats the verdict. */
  lemma AppendIdempotent(n: Node, a: AppendEntriesArgs)
    ensures var (once, first) := AppendEntries(n, a);
            var (twice, second) := AppendEntries(once, a);
            twice == once && second.success == first.success
  {
    if Accepts(n, a) {
      SpliceTwice(n, a);
      AdvanceTwice(Persist(StepDown(n, a.term).(log := Splice(n, a))), a.leaderCommit);
    }
  }

  lemma ApplyNothing(n: Node)
    requires n.commitIndex <= n.lastApplied
    ensures ApplyCommitted(n) == n
  {
  }
}
