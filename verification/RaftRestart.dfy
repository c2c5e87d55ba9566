/**
 Compaction across crashes. A crash resets the applied index, so a node that compacted before it offers less
 afterwards than its twin that did not; and a compaction writes the node's term and vote, which the twin may not have
 on disk. Apart from the channel the two stay alike, as long as compactions are not the ones to store a term or a
 vote.
*/
module RaftRestart {
  import opened RaftNode
  import opened RaftInvariant
  import opened RaftCompaction
  import opened RaftDelivery

  /** After a crash now the two would be back in one term with one vote. */
  ghost predicate DisksAlike(c: Node, u: Node) {
    && (c.disk.NoStorage? <==> u.disk.NoStorage?) && Synced(c) && Synced(u)
    && OnDisk(c.disk).term == OnDisk(u.disk).term && OnDisk(c.disk).votedFor == OnDisk(u.disk).votedFor
  }

  /** The two agree on all but storage, channel and snapshot, and their logs on all that is left. */
  ghost predicate Alike(c: Node, u: Node) {
    && c == u.(log := c.log, snapshot := c.snapshot, disk := c.disk, chan := c.chan)
    && Tail(c.log, c.snapshot, u.log, u.snapshot)
    && DisksAlike(c, u)
  }

  // ----- one step

  lemma EndsAlike(c: Node, u: Node)
    requires Tail(c.log, c.snapshot, u.log, u.snapshot)
    ensures LastLogIndex(c) == LastLogIndex(u) && LastLogTerm(c) == LastLogTerm(u)
  {
  }

  lemma VoteAlike(c: Node, u: Node, a: RequestVoteArgs)
    requires Alike(c, u)
    ensures RequestVote(c, a).1 == RequestVote(u, a).1 && Alike(RequestVote(c, a).0, RequestVote(u, a).0)
  {
    EndsAlike(c, u);
  }

  lemma ProposeAlike(c: Node, u: Node, e: Event)
    requires Alike(c, u) && e.Proposal?
    ensures Step(c, e).1 == Step(u, e).1 && Alike(Step(c, e).0, Step(u, e).0)
  {
    EndsAlike(c, u);
  }

  lemma AcceptAlike(c: Node, u: Node, a: AppendEntriesArgs)
    requires Alike(c, u) && Accepts(c, a) && Accepts(u, a) && Consecutive(a)
    requires a.prevLogIndex >= c.snapshot.lastIncludedIndex
    ensures Alike(AppendEntries(c, a).0, AppendEntries(u, a).0)
  {
    SpliceTail(c, u, a);
    AppendFrame(c, a);
    AppendFrame(u, a);
    EndsAlike(Accepted(c, a), Accepted(u, a));
  }

  lemma AppendAlike(c: Node, u: Node, a: AppendEntriesArgs)
    requires Alike(c, u) && (a.term >= c.term ==> InReach(c, a))
    ensures AppendEntries(c, a).1 == AppendEntries(u, a).1 && Alike(AppendEntries(c, a).0, AppendEntries(u, a).0)
    ensures Accepts(c, a) <==> Accepts(u, a)
  {
    if a.term >= c.term {
      SpliceTail(c, u, a);
    }
    if Accepts(c, a) {
      AcceptAlike(c, u, a);
      AppendFrame(c, a);
      AppendFrame(u, a);
    } else {
      RejectFrame(c, a);
      RejectFrame(u, a);
    }
  }

  /** Whether a compaction leaves the disks alike: exactly when the disk already has the node's term and vote. */
  lemma CompactionKeepsDisksIff(c: Node, u: Node, e: Event)
    requires Alike(c, u) && !c.disk.NoStorage? && e.Compaction? && Step(c, e).1 == OfCompaction(Compacted)
    ensures DisksAlike(Step(c, e).0, u) <==> Current(c)
  {
  }

  lemma CompactAlike(c: Node, u: Node, e: Event)
    requires Alike(c, u) && e.Compaction?
    requires Step(c, e).1 == OfCompaction(Compacted) ==> c.disk.NoStorage? || Current(c)
    ensures Alike(Step(c, e).0, u)
  {
    CompactTail(c, u.log, u.snapshot, e.index, e.state);
  }

  /** Messages as in a run without crashes, and no compaction that is the first to store a term or a vote. */
  ghost predicate AdmissibleAcross(c: Node, e: Event) {
    && (e.AppendRequest? && e.append.term >= c.term ==> InReach(c, e.append))
    && (e.Compaction? && Step(c, e).1 == OfCompaction(Compacted) ==> c.disk.NoStorage? || Current(c))
  }

  lemma RestartAlike(c: Node, u: Node, e: Event)
    requires Alike(c, u) && e.Restart?
    ensures Step(c, e).1 == Step(u, e).1 == NoReply && Alike(Step(c, e).0, Step(u, e).0)
  {
  }

  lemma OtherAlike(c: Node, u: Node, e: Event)
    requires Alike(c, u) && (e.ElectionTimeout? || e.TallyDoneIn? || e.Membership? || e.Receive?)
    ensures Step(c, e).1 == Step(u, e).1 && !Step(c, e).1.OfCompaction?
    ensures Alike(Step(c, e).0, Step(u, e).0)
  {
  }

  lemma StepAlike(c: Node, u: Node, e: Event)
    requires Alike(c, u) && AdmissibleAcross(c, e)
    ensures e.Compaction? <==> Step(c, e).1.OfCompaction?
    ensures e.Compaction? ==> Alike(Step(c, e).0, u)
    ensures !e.Compaction? ==> Step(c, e).1 == Step(u, e).1 && Alike(Step(c, e).0, Step(u, e).0)
  {
    match e
    case AppendRequest(a) => AppendAlike(c, u, a);
    case Compaction(_, _) => CompactAlike(c, u, e);
    case Proposal(_) => ProposeAlike(c, u, e);
    case VoteRequest(a) => VoteAlike(c, u, a);
    case Restart(_) => RestartAlike(c, u, e);
    case _ => OtherAlike(c, u, e);
  }

  // ----- runs

  ghost predicate AdmissibleRunAcross(c: Node, events: seq<Event>)
    decreases events
  {
    events == [] || (AdmissibleAcross(c, events[0]) && AdmissibleRunAcross(Step(c, events[0]).0, events[1..]))
  }

  lemma {:induction false} RunAlike(c: Node, u: Node, events: seq<Event>)
    requires Alike(c, u) && AdmissibleRunAcross(c, events)
    ensures Alike(Exec(c, events), Exec(u, WithoutCompaction(events)))
    ensures WithoutCompactionReplies(Replies(c, events)) == Replies(u, WithoutCompaction(events))
    decreases events
  {
    if events != [] {
      var e, rest := events[0], events[1..];
      var (m, r) := Step(c, e);
      assert events == [e] + rest;
      StepAlike(c, u, e);
      ExecCons(c, e, rest);
      WithoutCons(e, rest, r, Replies(m, rest));
      if e.Compaction? {
        RunAlike(m, u, rest);
      } else {
        RunAlike(m, Step(u, e).0, rest);
        ExecCons(u, e, WithoutCompaction(rest));
      }
    }
  }

  /**
   With crashes anywhere in the run, the run and the same run without its compactions still give the same replies, and
   agree on term, vote, role, peers, commit and applied index, log ends and remaining entries; not on the channel.
  */
  lemma RunLooksAlikeAcross(n: Node, events: seq<Event>)
    requires WellIndexed(n) && Synced(n) && AdmissibleRunAcross(n, events)
    ensures var c := Exec(n, events);
            var u := Exec(n, WithoutCompaction(events));
            && c.term == u.term && c.votedFor == u.votedFor && c.role == u.role && c.peers == u.peers
            && c.commitIndex == u.commitIndex && c.lastApplied == u.lastApplied
            && LastLogIndex(c) == LastLogIndex(u) && LastLogTerm(c) == LastLogTerm(u)
            && |c.log| > 0 && 0 <= Lead(c, u) < |u.log| && c.log[1..] == u.log[Lead(c, u) + 1..]
    ensures WithoutCompactionReplies(Replies(n, events)) == Replies(n, WithoutCompaction(events))
  {
    RunAlike(n, n, events);
    EndsAlike(Exec(n, events), Exec(n, WithoutCompaction(events)));
  }

  // ----- what each offers after the crash

  /** Two nodes alike, with what each has offered since its start; `full` is the log of the first since then. */
  ghost predicate Offering(c: Node, full: seq<LogEntry>, first: Snapshot, u: Node) {
    && Alike(c, u)
    && Delivering(c, full, first) && Delivering(u, u.log, u.snapshot)
    && Tail(full, first, u.log, u.snapshot)
  }

  lemma AppliedCovered(c: Node, a: AppendEntriesArgs)
    requires WellIndexed(c) && Accepts(c, a) && Consecutive(a) && Reaches(c, a)
    requires c.lastApplied == c.commitIndex <= LastLogIndex(c)
    ensures c.lastApplied - c.snapshot.lastIncludedIndex < |c.log|
    ensures c.lastApplied - c.snapshot.lastIncludedIndex < |Splice(c, a)|
  {
  }

  lemma AgreesAlike(c: Node, u: Node, a: AppendEntriesArgs)
    requires Alike(c, u) && Accepts(c, a) && Accepts(u, a) && Reaches(c, a) && Agrees(c, a)
    requires Tail(Splice(c, a), c.snapshot, Splice(u, a), u.snapshot)
    requires c.lastApplied - c.snapshot.lastIncludedIndex < |c.log|
    requires c.lastApplied - c.snapshot.lastIncludedIndex < |Splice(c, a)|
    ensures Agrees(u, a)
  {
    TailPayloadIff(c.log, Splice(c, a), c.snapshot, u.log, Splice(u, a), u.snapshot,
                   a.prevLogIndex - c.snapshot.lastIncludedIndex,
                   c.lastApplied - c.snapshot.lastIncludedIndex, a.prevLogIndex - u.snapshot.lastIncludedIndex,
                   u.lastApplied - u.snapshot.lastIncludedIndex);
  }

  lemma FaithfulAlike(c: Node, u: Node, a: AppendEntriesArgs)
    requires Alike(c, u) && Accepts(c, a) && Accepts(u, a) && Faithful(c, AppendRequest(a)) && InReach(c, a)
    requires c.lastApplied == c.commitIndex <= LastLogIndex(c)
    ensures Faithful(u, AppendRequest(a))
  {
    AppliedCovered(c, a);
    SpliceTail(c, u, a);
    AgreesAlike(c, u, a);
  }

  lemma FullAlike(c: Node, full: seq<LogEntry>, first: Snapshot, u: Node, a: AppendEntriesArgs)
    requires Tail(c.log, c.snapshot, full, first) && Tail(full, first, u.log, u.snapshot)
    requires Accepts(c, a) && Accepts(u, a) && Consecutive(a) && InReach(c, a)
    ensures Tail(Extend(c, full, first.lastIncludedIndex, AppendRequest(a)), first, Splice(u, a), u.snapshot)
  {
    var m := c.(log := full, snapshot := first);
    SpliceTail(m, u, a);
    assert Extend(c, full, first.lastIncludedIndex, AppendRequest(a)) == Splice(m, a);
  }

  lemma AcceptOffering(c: Node, full: seq<LogEntry>, first: Snapshot, u: Node, a: AppendEntriesArgs)
    requires Offering(c, full, first, u) && Faithful(c, AppendRequest(a)) && InReach(c, a)
    requires Accepts(c, a) && Accepts(u, a)
    ensures var t := AppendEntries(u, a).0;
            && Delivering(t, t.log, t.snapshot)
            && Tail(Extend(c, full, first.lastIncludedIndex, AppendRequest(a)), first, t.log, t.snapshot)
  {
    FaithfulAlike(c, u, a);
    AppendDelivers(u, u.log, u.snapshot, a);
    AppendFrame(u, a);
    assert Extend(u, u.log, u.snapshot.lastIncludedIndex, AppendRequest(a)) == Splice(u, a);
    FullAlike(c, full, first, u, a);
  }

  lemma RejectOffering(c: Node, full: seq<LogEntry>, first: Snapshot, u: Node, a: AppendEntriesArgs)
    requires Offering(c, full, first, u) && !Accepts(c, a) && !Accepts(u, a)
    ensures var t := AppendEntries(u, a).0;
            && Delivering(t, t.log, t.snapshot)
            && Tail(Extend(c, full, first.lastIncludedIndex, AppendRequest(a)), first, t.log, t.snapshot)
  {
    RejectFrame(u, a);
  }

  lemma AppendOffering(c: Node, full: seq<LogEntry>, first: Snapshot, u: Node, a: AppendEntriesArgs)
    requires Offering(c, full, first, u) && Faithful(c, AppendRequest(a)) && AdmissibleAcross(c, AppendRequest(a))
    ensures Offering(AppendEntries(c, a).0, Extend(c, full, first.lastIncludedIndex, AppendRequest(a)), first,
                     AppendEntries(u, a).0)
  {
    AppendAlike(c, u, a);
    StepDelivers(c, full, first, AppendRequest(a));
    if Accepts(c, a) {
      AcceptOffering(c, full, first, u, a);
    } else {
      RejectOffering(c, full, first, u, a);
    }
  }

  lemma StepOffering(c: Node, full: seq<LogEntry>, first: Snapshot, u: Node, e: Event)
    requires Offering(c, full, first, u) && Faithful(c, e) && AdmissibleAcross(c, e)
    ensures Offering(Step(c, e).0, Extend(c, full, first.lastIncludedIndex, e), first,
                     if e.Compaction? then u else Step(u, e).0)
  {
    if e.AppendRequest? {
      AppendOffering(c, full, first, u, e.append);
    } else {
      StepAlike(c, u, e);
      StepDelivers(c, full, first, e);
      if !e.Compaction? {
        StepDelivers(u, u.log, u.snapshot, e);
        OtherFields(u, e);
      }
    }
  }

  lemma {:induction false} RunOffering(c: Node, full: seq<LogEntry>, first: Snapshot, u: Node, events: seq<Event>)
    requires Offering(c, full, first, u) && FaithfulRun(c, events) && AdmissibleRunAcross(c, events)
    ensures Offering(Exec(c, events), FullLog(c, full, first.lastIncludedIndex, events), first,
                     Exec(u, WithoutCompaction(events)))
    decreases events
  {
    if events != [] {
      var e, rest := events[0], events[1..];
      assert events == [e] + rest;
      StepOffering(c, full, first, u, e);
      WithoutCons(e, rest, NoReply, []);
      RunOffering(Step(c, e).0, Extend(c, full, first.lastIncludedIndex, e), first,
                  if e.Compaction? then u else Step(u, e).0, rest);
      ExecCons(u, e, WithoutCompaction(rest));
    }
  }

  /** The twin has offered the committed payload up to index `first`, and then what the compacting node has. */
  ghost predicate OffersAfter(c: Node, u: Node, first: int) {
    var swallowed := Min(first, u.commitIndex) - u.snapshot.lastIncludedIndex;
    swallowed < |u.log| && u.chan.offered == Payload(u.log, 0, swallowed) + c.chan.offered
  }

  lemma SwallowedPayload(c: Node, full: seq<LogEntry>, first: Snapshot, u: Node)
    requires Offering(c, full, first, u)
    ensures OffersAfter(c, u, first.lastIncludedIndex)
  {
    var s, lead := u.snapshot.lastIncludedIndex, first.lastIncludedIndex - u.snapshot.lastIncludedIndex;
    var k := c.lastApplied - first.lastIncludedIndex;
    PayloadShift(full, first, u.log, u.snapshot, 0, k);
    if k >= 0 {
      PayloadSplit(u.log, 0, lead, lead + k);
    }
  }

  lemma RestartOffering(c: Node, u: Node, peers: seq<string>, c': Node, u': Node)
    requires Alike(c, u) && c' == Step(c, Restart(peers)).0 && u' == Step(u, Restart(peers)).0
    ensures Offering(c', c'.log, c'.snapshot, u')
  {
    RestartAlike(c, u, Restart(peers));
    StartDelivers(c');
    StartDelivers(u');
  }

  /**
   Two nodes alike restart, one of them with the later snapshot, and follow the same faithful run. The twin has then
   offered just the payload of the entries the snapshot had swallowed, as far as they are committed again, and after it
   all that the compacting node has.
  */
  lemma RestartedOffers(c: Node, u: Node, peers: seq<string>, c': Node, u': Node, events: seq<Event>)
    requires Alike(c, u) && c' == Step(c, Restart(peers)).0 && u' == Step(u, Restart(peers)).0
    requires FaithfulRun(c', events) && AdmissibleRunAcross(c', events)
    ensures OffersAfter(Exec(c', events), Exec(u', WithoutCompaction(events)), c'.snapshot.lastIncludedIndex)
  {
    RestartOffering(c, u, peers, c', u');
    RunOffering(c', c'.log, c'.snapshot, u', events);
    SwallowedPayload(Exec(c', events), FullLog(c', c'.log, c'.snapshot.lastIncludedIndex, events), c'.snapshot,
                     Exec(u', WithoutCompaction(events)));
  }
}
