/**
 The Raft node as the mutable object it is: handlers update the fields in place and write the state to a storage
 object that outlives the node. Every method is proved to take the object from `View()` to what the handler
 function of `RaftNode` says, and so inherits whatever is proved about those functions.
*/
module RaftEngine {
  import opened Bytes
  import opened RaftNode

  /** The storage key the node writes to. It belongs to one node at a time and survives its restarts. */
  class Storage {
    var cell: Option<Durable>

    constructor ()
      ensures cell == None
    {
      cell := None;
    }
  }

  class RaftEngine {
    const nodeID: string
    const storage: Storage?
    var peers: seq<string>
    var currentTerm: int
    var votedFor: string
    var log: seq<LogEntry>
    var snapshot: Snapshot
    var commitIndex: int
    var lastApplied: int
    var role: Role
    var commitChan: seq<Bytes>

    // The history of the delivery channel.
    ghost var offered: seq<Bytes>
    ghost var received: seq<Bytes>
    ghost var dropped: nat

    static ghost function DiskOf(store: Storage?): Disk
      reads store
    {
      if store == null then NoStorage else
        match store.cell
        case None => Empty
        case Some(d) => Stored(d)
    }

    ghost function View(): Node
      reads this, storage
    {
      Node(nodeID, peers, currentTerm, votedFor, log, snapshot, commitIndex, lastApplied, role, DiskOf(storage),
           CommitChan(offered, commitChan, received, dropped))
    }

    constructor (nodeID: string, peers: seq<string>, store: Storage?)
      ensures storage == store
      ensures View() == Start(nodeID, peers, old(DiskOf(store)))
    {
      this.nodeID := nodeID;
      this.peers := peers;
      storage := store;
      currentTerm, votedFor := 0, "";
      log := [LogEntry(0, 0, [])];
      snapshot := Snapshot(0, 0, []);
      commitIndex, lastApplied := 0, 0;
      role := Follower;
      commitChan, offered, received, dropped := [], [], [], 0;
      new;
      LoadState();
    }

    method LoadState()
      modifies this
      ensures View() == old(View()).(term := currentTerm, votedFor := votedFor, log := log, snapshot := snapshot)
      ensures InMemory(View()) == if DiskOf(storage).Stored? then DiskOf(storage).state else old(InMemory(View()))
    {
      if storage == null { return; }
      match storage.cell {
        case None =>
        case Some(d) =>
          currentTerm, votedFor, log, snapshot := d.term, d.votedFor, d.log, d.snapshot;
      }
    }

    method PersistState()
      modifies storage
      ensures View() == Persist(old(View()))
    {
      if storage == null { return; }
      storage.cell := Some(Durable(currentTerm, votedFor, log, snapshot));
    }

    /** A non-blocking send. */
    method Offer(data: Bytes)
      modifies this`commitChan, this`offered, this`dropped
      ensures View() == old(View()).(chan := old(View()).chan.Offer(data))
    {
      offered := offered + [data];
      if |commitChan| < CHAN_CAPACITY {
        commitChan := commitChan + [data];
      } else {
        dropped := dropped + 1;
      }
    }

    method GetLastLogIndex() returns (index: int)
      ensures index == LastLogIndex(View())
    {
      if |log| == 0 { return snapshot.lastIncludedIndex; }
      return log[|log| - 1].index;
    }

    method GetLastLogTerm() returns (term: int)
      ensures term == LastLogTerm(View())
    {
      if |log| == 0 { return snapshot.lastIncludedTerm; }
      return log[|log| - 1].term;
    }

    /** The locked part of an election start; its results go into the vote requests. */
    method StartElection() returns (term: int, lastLogIndex: int, lastLogTerm: int)
      modifies this, storage
      ensures View() == Elect(old(View()))
      ensures term == old(currentTerm) + 1
      ensures lastLogIndex == LastLogIndex(old(View())) && lastLogTerm == LastLogTerm(old(View()))
    {
      role := Candidate;
      currentTerm := currentTerm + 1;
      votedFor := nodeID;
      PersistState();
      term := currentTerm;
      lastLogIndex := GetLastLogIndex();
      lastLogTerm := GetLastLogTerm();
    }

    method FinishTally(electionTerm: int)
      modifies this
      ensures View() == TallyDone(old(View()), electionTerm)
    {
      if role == Candidate && currentTerm == electionTerm {
        role := Leader;
      }
    }

    method HandlePropose(data: Bytes) returns (ok: bool)
      modifies this, storage
      ensures (View(), ok) == Propose(old(View()), data)
    {
      if role != Leader { return false; }
      var last := GetLastLogIndex();
      var newIndex := last + 1;
      log := log + [LogEntry(newIndex, currentTerm, data)];
      PersistState();
      commitIndex := newIndex;
      lastApplied := newIndex;
      Offer(data);
      return true;
    }

    method Compact(snapshotIndex: int, stateData: Bytes) returns (result: CompactResult)
      modifies this, storage
      ensures (View(), result) == CompactLog(old(View()), snapshotIndex, stateData)
    {
      if snapshotIndex <= snapshot.lastIncludedIndex || snapshotIndex > commitIndex { return Refused; }
      var relativeIndex := snapshotIndex - snapshot.lastIncludedIndex;
      if relativeIndex >= |log| { return Panicked; }
      var snapshotTerm := log[relativeIndex].term;
      snapshot := Snapshot(snapshotIndex, snapshotTerm, stateData);
      log := [LogEntry(snapshotIndex, snapshotTerm, [])] + log[relativeIndex + 1..];
      PersistState();
      return Compacted;
    }

    method HandleRequestVote(args: RequestVoteArgs) returns (reply: VoteReply)
      modifies this, storage
      ensures (View(), reply) == RequestVote(old(View()), args)
    {
      reply := VoteReply(currentTerm, false);
      if args.term < currentTerm { return; }
      if args.term > currentTerm {
        currentTerm := args.term;
        role := Follower;
        votedFor := "";
      }
      var lastIndex := GetLastLogIndex();
      if (votedFor == "" || votedFor == args.candidateID) && args.lastLogIndex >= lastIndex {
        votedFor := args.candidateID;
        reply := reply.(voteGranted := true);
      }
      PersistState();
    }

    method HandleAppendEntries(args: AppendEntriesArgs) returns (reply: AppendReply)
      modifies this, storage
      ensures (View(), reply) == AppendEntries(old(View()), args)
    {
      reply := AppendReply(currentTerm, false);
      if args.term < currentTerm { return; }
      if args.term > currentTerm || role == Candidate {
        currentTerm := args.term;
        role := Follower;
        votedFor := "";
      }
      var relativePrevIndex := args.prevLogIndex - snapshot.lastIncludedIndex;
      if relativePrevIndex < 0 || relativePrevIndex >= |log| || log[relativePrevIndex].term != args.prevLogTerm {
        return;
      }
      log := log[..relativePrevIndex + 1];
      log := log + args.entries;
      PersistState();
      CommitUpTo(args.leaderCommit);
      reply := reply.(success := true);
    }

    /** The commit block of the handler above, with its apply loop. */
    method CommitUpTo(leaderCommit: int)
      modifies this
      ensures View() == AdvanceCommit(old(View()), leaderCommit)
    {
      if leaderCommit <= commitIndex { return; }
      commitIndex := leaderCommit;
      var maxIndex := GetLastLogIndex();
      if commitIndex > maxIndex {
        commitIndex := maxIndex;
      }
      ghost var target := View();
      while lastApplied < commitIndex
        invariant ApplyCommitted(View()) == ApplyCommitted(target)
        invariant commitIndex == target.commitIndex
        decreases commitIndex - lastApplied
      {
        ghost var before := View();
        lastApplied := lastApplied + 1;
        var relAppIndex := lastApplied - snapshot.lastIncludedIndex;
        if 0 <= relAppIndex < |log| {
          var entryData := log[relAppIndex].data;
          if |entryData| > 0 {
            Offer(entryData);
          }
        }
        assert View() == ApplyOne(before);
      }
    }

    method ReceiveCommit() returns (data: Option<Bytes>)
      modifies this
      ensures View() == old(View()).(chan := old(View()).chan.Receive())
      ensures data == if old(commitChan) == [] then None else Some(old(commitChan)[0])
    {
      if commitChan == [] { return None; }
      data := Some(commitChan[0]);
      received := received + [commitChan[0]];
      commitChan := commitChan[1..];
    }

    method ProposeMembershipChange(change: MembershipChange) returns (ok: bool)
      modifies this, storage
      ensures (View(), ok) == ChangeMembership(old(View()), change)
    {
      if role != Leader { return false; }
      match change.changeType {
        case AddNode =>
          for i := 0 to |peers|
            invariant change.nodeID !in peers[..i]
          {
            if peers[i] == change.nodeID { return false; }
          }
          peers := peers + [change.nodeID];
        case RemoveNode =>
          var updatedPeers, found := [], false;
          for i := 0 to |peers|
            invariant updatedPeers == Without(peers[..i], change.nodeID)
            invariant found == (change.nodeID in peers[..i])
          {
            assert peers[..i + 1][..i] == peers[..i];
            if peers[i] != change.nodeID {
              updatedPeers := updatedPeers + [peers[i]];
            } else {
              found := true;
            }
          }
          assert peers[..|peers|] == peers;
          if !found { return false; }
          peers := updatedPeers;
        case UnknownChange =>
      }
      PersistState();
      return true;
    }

    /** The read index and term, for a leader only. */
    method GetReadIndex() returns (answer: Option<(int, int)>)
      ensures answer == ReadIndex(View())
    {
      if role != Leader { return None; }
      return Some((commitIndex, currentTerm));
    }
  }
}
