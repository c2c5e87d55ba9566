/**
 A node that compacts its log answers, commits and delivers like one that never does, over runs without a crash in which
 no fresh message reaches back behind the snapshot or carries misnumbered entries.
*/
module RaftCompaction {
  import opened Bytes
  import opened RaftNode
  import opened RaftInvariant

  /** How far the compacting node's snapshot is ahead of its twin's. */
  function Lead(c: Node, u: Node): int {
    c.snapshot.lastIncludedIndex - u.snapshot.lastIncludedIndex
  }

  /** The compacted log is the tail of the full one, headed by the entry it was cut at. */
  ghost predicate Tail(log: seq<LogEntry>, snap: Snapshot, full: seq<LogEntry>, first: Snapshot) {
    && Indexed(log, snap) && Indexed(full, first)
    && var lead := snap.lastIncludedIndex - first.lastIncludedIndex;
    && 0 <= lead < |full| && |log| == |full| - lead
    && log[0].term == full[lead].term
    && (forall i :: 1 <= i < |log| ==> log[i] == full[lead + i])
  }

  /** Whatever the snapshot swallowed has been applied. */
  ghost predicate SwallowedApplied(snap: int, first: int, commitIndex: int, lastApplied: int) {
    commitIndex <= lastApplied && (snap == first || snap <= lastApplied)
  }

  /** The two agree on everything but storage and snapshot, and their logs on all that is left. */
  ghost predicate Refines(c: Node, u: Node) {
    && c == u.(log := c.log, snapshot := c.snapshot, disk := c.disk)
    && Tail(c.log, c.snapshot, u.log, u.snapshot)
    && SwallowedApplied(c.snapshot.lastIncludedIndex, u.snapshot.lastIncludedIndex, c.commitIndex, c.lastApplied)
  }

  // ----- one step at a time

  /** The apply loop offers the same entries from either log. */
  lemma {:induction false} ApplyRefines(c: Node, u: Node)
    requires c == u.(log := c.log, snapshot := c.snapshot, disk := c.disk)
    requires Tail(c.log, c.snapshot, u.log, u.snapshot)
    requires Lead(c, u) == 0 || c.snapshot.lastIncludedIndex <= c.lastApplied
    ensures ApplyCommitted(c).chan == ApplyCommitted(u).chan
    decreases c.commitIndex - c.lastApplied
  {
    if c.lastApplied < c.commitIndex {
      ApplyRefines(ApplyOne(c), ApplyOne(u));
    }
  }

  lemma LastAgrees(c: Node, u: Node)
    requires Refines(c, u)
    ensures LastLogIndex(c) == LastLogIndex(u) && LastLogTerm(c) == LastLogTerm(u)
  {
  }

  lemma SpliceTail(c: Node, u: Node, a: AppendEntriesArgs)
    requires Tail(c.log, c.snapshot, u.log, u.snapshot) && a.prevLogIndex >= c.snapshot.lastIncludedIndex
    ensures Matches(c, a.prevLogIndex, a.prevLogTerm) == Matches(u, a.prevLogIndex, a.prevLogTerm)
    ensures Matches(c, a.prevLogIndex, a.prevLogTerm) && Consecutive(a) ==>
              Tail(Splice(c, a), c.snapshot, Splice(u, a), u.snapshot)
  {
  }

  lemma AdvanceRefines(c: Node, u: Node, leaderCommit: int)
    requires Refines(c, u)
    ensures Refines(AdvanceCommit(c, leaderCommit), AdvanceCommit(u, leaderCommit))
  {
    AdvanceFrame(c, leaderCommit);
    AdvanceFrame(u, leaderCommit);
    LastAgrees(c, u);
    if leaderCommit > c.commitIndex {
      var commit := Min(leaderCommit, LastLogIndex(c));
      ApplyRefines(c.(commitIndex := commit), u.(commitIndex := commit));
    }
  }

  lemma StepDownRefines(c: Node, u: Node, term: int)
    requires Refines(c, u)
    ensures Refines(StepDown(c, term), StepDown(u, term))
  {
  }

  lemma PersistRefines(c: Node, u: Node)
    requires Refines(c, u)
    ensures Refines(Persist(c), Persist(u))
  {
  }

  lemma AcceptRefines(c: Node, u: Node, a: AppendEntriesArgs)
    requires Refines(c, u) && a.prevLogIndex >= c.snapshot.lastIncludedIndex && Consecutive(a)
    requires Matches(c, a.prevLogIndex, a.prevLogTerm) && Matches(u, a.prevLogIndex, a.prevLogTerm)
    ensures Refines(AdvanceCommit(Persist(c.(log := Splice(c, a))), a.leaderCommit),
                    AdvanceCommit(Persist(u.(log := Splice(u, a))), a.leaderCommit))
  {
    SpliceTail(c, u, a);
    var c', u' := c.(log := Splice(c, a)), u.(log := Splice(u, a));
    PersistRefines(c', u');
    AdvanceRefines(Persist(c'), Persist(u'), a.leaderCommit);
  }

  /** The message does not reach back behind the snapshot, and is numbered consecutively if it matches. */
  ghost predicate InReach(c: Node, a: AppendEntriesArgs) {
    a.prevLogIndex >= c.snapshot.lastIncludedIndex && (Matches(c, a.prevLogIndex, a.prevLogTerm) ==> Consecutive(a))
  }

  lemma AppendRefines(c: Node, u: Node, a: AppendEntriesArgs)
    requires Refines(c, u) && (a.term >= c.term ==> InReach(c, a))
    ensures AppendEntries(c, a).1 == AppendEntries(u, a).1
    ensures Refines(AppendEntries(c, a).0, AppendEntries(u, a).0)
  {
    if a.term >= c.term {
      var c', u' := StepDown(c, a.term), StepDown(u, a.term);
      StepDownRefines(c, u, a.term);
      SpliceTail(c', u', a);
      if Matches(c', a.prevLogIndex, a.prevLogTerm) {
        AcceptRefines(c', u', a);
      }
    }
  }

  lemma CompactTail(n: Node, full: seq<LogEntry>, first: Snapshot, index: int, data: Bytes)
    requires Tail(n.log, n.snapshot, full, first)
    ensures var m := CompactLog(n, index, data).0;
            Tail(m.log, m.snapshot, full, first)
  {
  }

  lemma CompactRefines(c: Node, u: Node, index: int, data: Bytes)
    requires Refines(c, u)
    ensures Refines(CompactLog(c, index, data).0, u)
  {
  }

  lemma ProposeRefines(c: Node, u: Node, data: Bytes)
    requires Refines(c, u)
    ensures Propose(c, data).1 == Propose(u, data).1
    ensures Refines(Propose(c, data).0, Propose(u, data).0)
  {
    LastAgrees(c, u);
  }

  // ----- runs

  /** A run without crashes whose fresh messages never reach behind the snapshot and are numbered consecutively. */
  ghost predicate Admissible(c: Node, events: seq<Event>)
    decreases events
  {
    events == [] ||
    (&& AdmissibleEvent(c, events[0])
     && Admissible(Step(c, events[0]).0, events[1..]))
  }

  ghost predicate AdmissibleEvent(c: Node, e: Event) {
    && !e.Restart?
    && (e.AppendRequest? && e.append.term >= c.term ==> InReach(c, e.append))
  }

  lemma VoteRefines(c: Node, u: Node, a: RequestVoteArgs)
    requires Refines(c, u)
    ensures RequestVote(c, a).1 == RequestVote(u, a).1
    ensures Refines(RequestVote(c, a).0, RequestVote(u, a).0)
  {
    LastAgrees(c, u);
  }

  lemma StepRefines(c: Node, u: Node, e: Event)
    requires Refines(c, u) && AdmissibleEvent(c, e)
    ensures e.Compaction? <==> Step(c, e).1.OfCompaction?
    ensures e.Compaction? ==> Refines(Step(c, e).0, u)
    ensures !e.Compaction? ==> Step(c, e).1 == Step(u, e).1 && Refines(Step(c, e).0, Step(u, e).0)
  {
    match e
    case AppendRequest(a) => AppendRefines(c, u, a);
    case Compaction(i, d) => CompactRefines(c, u, i, d);
    case Proposal(d) => ProposeRefines(c, u, d);
    case VoteRequest(a) => VoteRefines(c, u, a);
    case _ =>
  }

  function WithoutCompaction(events: seq<Event>): seq<Event> {
    if events == [] then [] else
      (if events[0].Compaction? then [] else [events[0]]) + WithoutCompaction(events[1..])
  }

  function WithoutCompactionReplies(replies: seq<Reply>): seq<Reply> {
    if replies == [] then [] else
      (if replies[0].OfCompaction? then [] else [replies[0]]) + WithoutCompactionReplies(replies[1..])
  }

  lemma WithoutCons(e: Event, events: seq<Event>, r: Reply, replies: seq<Reply>)
    ensures e.Compaction? ==> WithoutCompaction([e] + events) == WithoutCompaction(events)
    ensures !e.Compaction? ==> WithoutCompaction([e] + events) == [e] + WithoutCompaction(events)
    ensures r.OfCompaction? ==>
              WithoutCompactionReplies([r] + replies) == WithoutCompactionReplies(replies)
    ensures !r.OfCompaction? ==>
              WithoutCompactionReplies([r] + replies) == [r] + WithoutCompactionReplies(replies)
  {
  }

  lemma ExecCons(n: Node, e: Event, events: seq<Event>)
    ensures Exec(n, [e] + events) == Exec(Step(n, e).0, events)
    ensures Replies(n, [e] + events) == [Step(n, e).1] + Replies(Step(n, e).0, events)
  {
  }

  /** The run with its compactions and the run without them give the same answers and end in related states. */
  lemma {:induction false} RunRefines(c: Node, u: Node, events: seq<Event>)
    requires Refines(c, u) && Admissible(c, events)
    ensures Refines(Exec(c, events), Exec(u, WithoutCompaction(events)))
    ensures WithoutCompactionReplies(Replies(c, events)) == Replies(u, WithoutCompaction(events))
    decreases events
  {
    if events != [] {
      var e, rest := events[0], events[1..];
      var (m, r) := Step(c, e);
      assert events == [e] + rest;
      StepRefines(c, u, e);
      ExecCons(c, e, rest);
      WithoutCons(e, rest, r, Replies(m, rest));
      if e.Compaction? {
        RunRefines(m, u, rest);
      } else {
        RunRefines(m, Step(u, e).0, rest);
        ExecCons(u, e, WithoutCompaction(rest));
      }
    }
  }

  /** What a caller sees of a node, and the log it stands for from `from` on, are the same in both. */
  lemma RunLooksAlike(n: Node, events: seq<Event>)
    requires WellIndexed(n) && n.commitIndex <= n.lastApplied && Admissible(n, events)
    ensures var c := Exec(n, events);
            var u := Exec(n, WithoutCompaction(events));
            && c.commitIndex == u.commitIndex && c.lastApplied == u.lastApplied && c.chan == u.chan
            && c.term == u.term && c.votedFor == u.votedFor && c.role == u.role
            && LastLogIndex(c) == LastLogIndex(u) && LastLogTerm(c) == LastLogTerm(u)
            && |c.log| > 0 && 0 <= Lead(c, u) < |u.log| && c.log[1..] == u.log[Lead(c, u) + 1..]
    ensures WithoutCompactionReplies(Replies(n, events)) == Replies(n, WithoutCompaction(events))
  {
    assert Tail(n.log, n.snapshot, n.log, n.snapshot);
    RunRefines(n, n, events);
    LastAgrees(Exec(n, events), Exec(n, WithoutCompaction(events)));
  }

  /** Compacting twice leaves what compacting once at the later index leaves, on disk too. */
  lemma CompactTwice(n: Node, a: int, b: int, first: Bytes, second: Bytes)
    requires RepInv(n) && n.snapshot.lastIncludedIndex < a < b <= n.commitIndex
    ensures CompactLog(n, a, first).1 == Compacted
    ensures CompactLog(CompactLog(n, a, first).0, b, second) == CompactLog(n, b, second)
    ensures CompactLog(n, b, second).1 == Compacted
  {
    var m := CompactLog(n, a, first).0;
    var s := n.snapshot.lastIncludedIndex;
    assert m.log[b - a] == n.log[b - s];
    assert m.log[b - a + 1..] == n.log[b - s + 1..];
  }

  // ----- where the two part

  /**
   A message reaching back behind the snapshot is where the two can differ: the compacting node rejects it, so the
   answers differ exactly when it is fresh and the full log still has the entry it starts from.
  */
  lemma BehindSnapshotIff(c: Node, u: Node, a: AppendEntriesArgs)
    requires Refines(c, u) && a.prevLogIndex < c.snapshot.lastIncludedIndex
    ensures AppendEntries(c, a).1 != AppendEntries(u, a).1 <==>
              a.term >= u.term && u.snapshot.lastIncludedIndex <= a.prevLogIndex &&
              u.log[a.prevLogIndex - u.snapshot.lastIncludedIndex].term == a.prevLogTerm
  {
  }

  /**
   Consecutive numbering is needed: compacting at the last position keeps the last log index, which decides votes and
   the next proposal's index, exactly when the entry there carries its own position.
  */
  lemma MisnumberedIff(n: Node, a: AppendEntriesArgs, data: Bytes)
    requires WellIndexed(n) && Accepts(n, a) && |a.entries| > 0
    requires CompactLog(AppendEntries(n, a).0, a.prevLogIndex + |a.entries|, data).1.Compacted?
    ensures var m := AppendEntries(n, a).0;
            var last := a.prevLogIndex + |a.entries|;
            LastLogIndex(CompactLog(m, last, data).0) == LastLogIndex(m) <==> a.entries[|a.entries| - 1].index == last
  {
    AppendFrame(n, a);
  }
}
