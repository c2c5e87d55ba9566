/**
 The state of one Raft node as a value, and each handler of the engine as a function on that value.
 `RaftEngine` holds the same state in a mutable object and is proved to compute these functions.
 Terms and indices are Go `int`s, taken as unbounded; they may be negative in messages.
*/
module RaftNode {
  import opened Bytes

  datatype Role = Follower | Candidate | Leader

  datatype LogEntry = LogEntry(index: int, term: int, data: Bytes)

  datatype Snapshot = Snapshot(lastIncludedIndex: int, lastIncludedTerm: int, data: Bytes)

  datatype RequestVoteArgs = RequestVoteArgs(term: int, candidateID: string, lastLogIndex: int, lastLogTerm: int)

  datatype AppendEntriesArgs = AppendEntriesArgs(
    term: int, leaderID: string, prevLogIndex: int, prevLogTerm: int, entries: seq<LogEntry>, leaderCommit: int)

  /** What one write of the node's state to storage contains. */
  datatype Durable = Durable(term: int, votedFor: string, log: seq<LogEntry>, snapshot: Snapshot)

  /** The node may run without storage; otherwise storage is empty until the first write. */
  datatype Disk = NoStorage | Empty | Stored(state: Durable)

  const CHAN_CAPACITY: nat := 1000

  /** The bounded delivery channel: `queue` is its buffer, the rest is the history of sends and receives. */
  datatype CommitChan = CommitChan(offered: seq<Bytes>, queue: seq<Bytes>, received: seq<Bytes>, dropped: nat) {
    /** A non-blocking send: the value is lost when the buffer is full. */
    function Offer(data: Bytes): CommitChan {
      if |queue| < CHAN_CAPACITY
      then this.(offered := offered + [data], queue := queue + [data])
      else this.(offered := offered + [data], dropped := dropped + 1)
    }

    function Receive(): CommitChan {
      if queue == [] then this else this.(received := received + [queue[0]], queue := queue[1..])
    }
  }

  const EMPTY_CHAN := CommitChan([], [], [], 0)

  datatype Node = Node(
    id: string, peers: seq<string>,
    term: int, votedFor: string, log: seq<LogEntry>, snapshot: Snapshot,
    commitIndex: int, lastApplied: int, role: Role,
    disk: Disk, chan: CommitChan)

  const GENESIS := LogEntry(0, 0, [])
  const FRESH_STATE := Durable(0, "", [GENESIS], Snapshot(0, 0, []))

  // ----- start and storage

  /** What a node started on this disk reads back; a disk never written to reads as the fresh state. */
  function OnDisk(disk: Disk): Durable {
    match disk
    case Stored(d) => d
    case _ => FRESH_STATE
  }

  function Start(id: string, peers: seq<string>, disk: Disk): Node {
    var d := OnDisk(disk);
    Node(id, peers, d.term, d.votedFor, d.log, d.snapshot, 0, 0, Follower, disk, EMPTY_CHAN)
  }

  function InMemory(n: Node): Durable {
    Durable(n.term, n.votedFor, n.log, n.snapshot)
  }

  function Persist(n: Node): Node {
    if n.disk.NoStorage? then n else n.(disk := Stored(InMemory(n)))
  }

  // ----- log ends

  function LastLogIndex(n: Node): int {
    if |n.log| == 0 then n.snapshot.lastIncludedIndex else n.log[|n.log| - 1].index
  }

  function LastLogTerm(n: Node): int {
    if |n.log| == 0 then n.snapshot.lastIncludedTerm else n.log[|n.log| - 1].term
  }

  // ----- elections

  /** The locked part of an election start. */
  function Elect(n: Node): Node {
    Persist(n.(role := Candidate, term := n.term + 1, votedFor := n.id))
  }

  /** What a tally that reached its threshold does once it holds the lock. */
  function TallyDone(n: Node, electionTerm: int): Node {
    if n.role.Candidate? && n.term == electionTerm then n.(role := Leader) else n
  }

  datatype VoteReply = VoteReply(term: int, voteGranted: bool)

  function RequestVote(n: Node, a: RequestVoteArgs): (Node, VoteReply) {
    if a.term < n.term then (n, VoteReply(n.term, false)) else
      var m := if a.term > n.term then n.(term := a.term, role := Follower, votedFor := "") else n;
      var grant := (m.votedFor == "" || m.votedFor == a.candidateID) && a.lastLogIndex >= LastLogIndex(m);
      (Persist(if grant then m.(votedFor := a.candidateID) else m), VoteReply(n.term, grant))
  }

  // ----- replication

  datatype AppendReply = AppendReply(term: int, success: bool)

  /** Adopts the message's term; a candidate steps down, and forgets its vote, even in its own term. */
  function StepDown(n: Node, term: int): Node {
    if term > n.term || n.role.Candidate? then n.(term := term, role := Follower, votedFor := "") else n
  }

  /** The log holds an entry of term `prevLogTerm` at absolute index `prevLogIndex`. */
  predicate Matches(n: Node, prevLogIndex: int, prevLogTerm: int) {
    var rel := prevLogIndex - n.snapshot.lastIncludedIndex;
    0 <= rel < |n.log| && n.log[rel].term == prevLogTerm
  }

  /** The message is neither stale nor mismatched, so the node answers with success. */
  predicate Accepts(n: Node, a: AppendEntriesArgs) {
    a.term >= n.term && Matches(n, a.prevLogIndex, a.prevLogTerm)
  }

  /** Truncates to the previous index, whatever follows it, and appends. */
  function Splice(n: Node, a: AppendEntriesArgs): seq<LogEntry>
    requires Matches(n, a.prevLogIndex, a.prevLogTerm)
  {
    n.log[..a.prevLogIndex - n.snapshot.lastIncludedIndex + 1] + a.entries
  }

  function ApplyOne(n: Node): Node {
    var m := n.(lastApplied := n.lastApplied + 1);
    var rel := m.lastApplied - m.snapshot.lastIncludedIndex;
    if 0 <= rel < |m.log| && |m.log[rel].data| > 0 then m.(chan := m.chan.Offer(m.log[rel].data)) else m
  }

  function ApplyCommitted(n: Node): Node
    decreases n.commitIndex - n.lastApplied
  {
    if n.lastApplied < n.commitIndex then ApplyCommitted(ApplyOne(n)) else n
  }

  function Min(a: int, b: int): int {
    if a < b then a else b
  }

  function AdvanceCommit(n: Node, leaderCommit: int): Node {
    if leaderCommit > n.commitIndex
    then ApplyCommitted(n.(commitIndex := Min(leaderCommit, LastLogIndex(n))))
    else n
  }

  function AppendEntries(n: Node, a: AppendEntriesArgs): (Node, AppendReply) {
    if a.term < n.term then (n, AppendReply(n.term, false)) else
      var m := StepDown(n, a.term);
      if !Matches(m, a.prevLogIndex, a.prevLogTerm) then (m, AppendReply(n.term, false)) else
        var p := Persist(m.(log := Splice(m, a)));
        (AdvanceCommit(p, a.leaderCommit), AppendReply(n.term, true))
  }

  /** A leader appends, commits and offers its own proposal at once. */
  function Propose(n: Node, data: Bytes): (Node, bool) {
    if !n.role.Leader? then (n, false) else
      var index := LastLogIndex(n) + 1;
      var p := Persist(n.(log := n.log + [LogEntry(index, n.term, data)]));
      (p.(commitIndex := index, lastApplied := index, chan := p.chan.Offer(data)), true)
  }

  // ----- compaction

  /** `Panicked`: the log is shorter than the commit index promised and the index expression is out of range. */
  datatype CompactResult = Compacted | Refused | Panicked

  function CompactLog(n: Node, index: int, data: Bytes): (Node, CompactResult) {
    var s := n.snapshot.lastIncludedIndex;
    if index <= s || index > n.commitIndex then (n, Refused)
    else if index - s >= |n.log| then (n, Panicked)
    else
      var term := n.log[index - s].term;
      (Persist(n.(snapshot := Snapshot(index, term, data),
                  log := [LogEntry(index, term, [])] + n.log[index - s + 1..])), Compacted)
  }

  // ----- reads

  /** The index a reader may read at, and the term it was given in; only a leader gives one. */
  function ReadIndex(n: Node): Option<(int, int)> {
    if n.role.Leader? then Some((n.commitIndex, n.term)) else None
  }

  // ----- membership

  datatype ChangeType = AddNode | RemoveNode | UnknownChange

  datatype MembershipChange = MembershipChange(changeType: ChangeType, nodeID: string)

  function Without(peers: seq<string>, id: string): seq<string> {
    if peers == [] then [] else
      var rest := Without(peers[..|peers| - 1], id);
      if peers[|peers| - 1] == id then rest else rest + [peers[|peers| - 1]]
  }

  /** A change of unknown type falls through the switch: nothing changes, and it is reported as done. */
  function ChangeMembership(n: Node, change: MembershipChange): (Node, bool) {
    if !n.role.Leader? then (n, false) else
      match change.changeType
      case AddNode =>
        if change.nodeID in n.peers then (n, false)
        else (Persist(n.(peers := n.peers + [change.nodeID])), true)
      case RemoveNode =>
        if change.nodeID !in n.peers then (n, false)
        else (Persist(n.(peers := Without(n.peers, change.nodeID))), true)
      case UnknownChange => (Persist(n), true)
  }

  // ----- runs

  datatype Event =
    | ElectionTimeout
    | TallyDoneIn(electionTerm: int)
    | VoteRequest(vote: RequestVoteArgs)
    | AppendRequest(append: AppendEntriesArgs)
    | Proposal(data: Bytes)
    | Compaction(index: int, state: Bytes)
    | Membership(change: MembershipChange)
    | Receive
    | Restart(configuredPeers: seq<string>)

  datatype Reply =
    | NoReply
    | OfVote(vote: VoteReply)
    | OfAppend(append: AppendReply)
    | OfProposal(ok: bool)
    | OfCompaction(result: CompactResult)
    | OfMembership(ok: bool)

  function Step(n: Node, e: Event): (Node, Reply) {
    match e
    case ElectionTimeout => (Elect(n), NoReply)
    case TallyDoneIn(t) => (TallyDone(n, t), NoReply)
    case VoteRequest(a) => var (m, r) := RequestVote(n, a); (m, OfVote(r))
    case AppendRequest(a) => var (m, r) := AppendEntries(n, a); (m, OfAppend(r))
    case Proposal(d) => var (m, ok) := Propose(n, d); (m, OfProposal(ok))
    case Compaction(i, d) => var (m, r) := CompactLog(n, i, d); (m, OfCompaction(r))
    case Membership(c) => var (m, ok) := ChangeMembership(n, c); (m, OfMembership(ok))
    case Receive => (n.(chan := n.chan.Receive()), NoReply)
    case Restart(peers) => (Start(n.id, peers, n.disk), NoReply)
  }

  function Exec(n: Node, events: seq<Event>): Node
    decreases events
  {
    if events == [] then n else Exec(Step(n, events[0]).0, events[1..])
  }

  function Replies(n: Node, events: seq<Event>): seq<Reply>
    decreases events
  {
    if events == [] then [] else
      var (m, r) := Step(n, events[0]);
      [r] + Replies(m, events[1..])
  }
}
