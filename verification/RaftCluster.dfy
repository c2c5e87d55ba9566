/**
 A cluster of these nodes over a network that loses, delays, duplicates and reorders messages, with crashes and
 compactions anywhere. The theorem is the Log Matching Property of section 5.3 of the Raft paper ("In Search of an
 Understandable Consensus Algorithm (Extended Version)").

 Two things the nodes do not ensure are conditions on the run: a term has at most one node that proposes or sends as
 its leader, and no leader accepts a message of its own, in the term it leads, that cuts an entry of that term out of
 its log while another node or a message in flight has the entry.
*/
module RaftCluster {
  import opened Bytes
  import opened RaftNode
  import opened RaftInvariant
  import opened RaftCompaction

  /** An AppendEntries in flight, with the sender's full log up to the last entry it carries. */
  datatype Message = Message(args: AppendEntriesArgs, basis: seq<LogEntry>)

  /**
   `full` is each node's log with nothing compacted away, index 0 first. `owner` is the node that leads a term, from
   the first time it proposes or sends in it, and `led` the full log it had when it last did so, or took a message of
   its own.
  */
  datatype Cluster = Cluster(
    nodes: map<string, Node>,
    pool: set<Message>,
    full: map<string, seq<LogEntry>>,
    owner: map<int, string>,
    led: map<int, seq<LogEntry>>)

  datatype Move =
    | Local(node: string, event: Event)
    | ProposeAt(node: string, data: Bytes)
    | Send(node: string, prevLogIndex: int, count: nat, leaderCommit: int)
    | Deliver(node: string, message: Message)

  /** The node may act as the leader of its term: it is in that role and nobody else has acted as such. */
  ghost predicate MayLead(c: Cluster, i: string)
    requires i in c.nodes
  {
    c.nodes[i].role.Leader? && (c.nodes[i].term in c.owner ==> c.owner[c.nodes[i].term] == i)
  }

  /** When a move can happen. The last conjunct about sending always holds, by `StoredLiesWithinFull`. */
  ghost predicate Possible(c: Cluster, m: Move) {
    && m.node in c.nodes
    && m.node in c.full
    && match m
       case Local(_, e) => !e.AppendRequest? && !e.Proposal?
       case ProposeAt(i, _) => MayLead(c, i)
       case Send(i, prev, count, _) =>
         var n := c.nodes[i];
         && MayLead(c, i)
         && 0 <= prev - n.snapshot.lastIncludedIndex
         && prev - n.snapshot.lastIncludedIndex + 1 + count <= |n.log|
         && 0 <= prev && prev + 1 + count <= |c.full[i]|
       case Deliver(i, msg) => msg in c.pool
  }

  /** A leader accepts a message it sent itself in this term, and so has the log the message was cut from. */
  ghost predicate TakesOwn(c: Cluster, m: Move)
    requires m.node in c.nodes
  {
    m.Deliver? &&
    var n, a := c.nodes[m.node], m.message.args;
    a.leaderID == m.node && n.role.Leader? && n.term == a.term && Accepts(n, a)
  }

  /** Where the log has an entry of term t, so has the other. */
  ghost predicate Covered(log: seq<LogEntry>, t: int, other: seq<LogEntry>) {
    forall k :: 0 <= k < |log| && log[k].term == t ==> k < |other| && other[k].term == t
  }

  /** The move does not make a leader lose an entry of its term that another node or a message in flight has. */
  ghost predicate Harmless(c: Cluster, m: Move)
    requires Possible(c, m)
  {
    TakesOwn(c, m) ==>
      && (forall j :: j in c.full && j != m.node ==> Covered(c.full[j], m.message.args.term, m.message.basis))
      && (forall msg :: msg in c.pool ==> Covered(msg.basis, m.message.args.term, m.message.basis))
  }

  /** A contiguous slice of the sender's stored log. */
  ghost function Slice(n: Node, prev: int, count: nat, leaderCommit: int): AppendEntriesArgs
    requires 0 <= prev - n.snapshot.lastIncludedIndex
    requires prev - n.snapshot.lastIncludedIndex + 1 + count <= |n.log|
  {
    var rel := prev - n.snapshot.lastIncludedIndex;
    AppendEntriesArgs(n.term, n.id, prev, n.log[rel].term, n.log[rel + 1..rel + 1 + count], leaderCommit)
  }

  ghost function Next(c: Cluster, m: Move): Cluster
    requires Possible(c, m)
  {
    var i := m.node;
    var n := c.nodes[i];
    match m
    case Local(_, e) => c.(nodes := c.nodes[i := Step(n, e).0])
    case ProposeAt(_, data) =>
      var full := c.full[i] + [LogEntry(LastLogIndex(n) + 1, n.term, data)];
      c.(nodes := c.nodes[i := Propose(n, data).0], full := c.full[i := full],
         owner := c.owner[n.term := i], led := c.led[n.term := full])
    case Send(_, prev, count, commit) =>
      c.(pool := c.pool + {Message(Slice(n, prev, count, commit), c.full[i][..prev + 1 + count])},
         owner := c.owner[n.term := i], led := c.led[n.term := c.full[i]])
    case Deliver(_, msg) =>
      c.(nodes := c.nodes[i := AppendEntries(n, msg.args).0],
         full := if Accepts(n, msg.args) && 0 <= msg.args.prevLogIndex < |c.full[i]|
                 then c.full[i := c.full[i][..msg.args.prevLogIndex + 1] + msg.args.entries] else c.full,
         led := if TakesOwn(c, m) then c.led[msg.args.term := msg.basis] else c.led)
  }

  /** A cluster just set up: fresh nodes with empty storage, nothing sent. */
  ghost predicate Fresh(c: Cluster) {
    && (forall i :: i in c.nodes ==> c.nodes[i] == Start(i, c.nodes[i].peers, Empty))
    && c.full == (map i | i in c.nodes :: [GENESIS])
    && c.pool == {} && c.owner == map[] && c.led == map[0 := [GENESIS]]
  }

  ghost predicate Run(c: Cluster, moves: seq<Move>)
    decreases moves
  {
    moves == [] || (Possible(c, moves[0]) && Run(Next(c, moves[0]), moves[1..]))
  }

  ghost predicate HarmlessRun(c: Cluster, moves: seq<Move>)
    requires Run(c, moves)
    decreases moves
  {
    moves == [] || (Harmless(c, moves[0]) && HarmlessRun(Next(c, moves[0]), moves[1..]))
  }

  ghost function After(c: Cluster, moves: seq<Move>): Cluster
    requires Run(c, moves)
    decreases moves
  {
    if moves == [] then c else After(Next(c, moves[0]), moves[1..])
  }

  // ----- the invariant

  const ORIGIN := Snapshot(0, 0, [])

  /** The k-th entry, and all before it, were copied from the log that the leader of its term had. */
  ghost predicate TracedAt(log: seq<LogEntry>, led: map<int, seq<LogEntry>>, k: int)
    requires 0 <= k < |log|
  {
    log[k].term in led && k < |led[log[k].term]| && log[..k + 1] == led[log[k].term][..k + 1]
  }

  ghost predicate Traced(log: seq<LogEntry>, led: map<int, seq<LogEntry>>) {
    forall k :: 0 <= k < |log| ==> TracedAt(log, led, k)
  }

  /** A node has kept on disk that it was in a term it stood for, and its log is the tail of its full log. */
  ghost predicate NodeOk(n: Node, i: string, full: seq<LogEntry>) {
    && n.id == i && !n.disk.NoStorage? && Synced(n) && OnDisk(n.disk).term >= 0
    && (n.role != Follower ==> OnDisk(n.disk).term == n.term > 0)
    && Tail(n.log, n.snapshot, full, ORIGIN)
  }

  /** The leader of a term can never stand in it again, and while it leads its log is the one on record. */
  ghost predicate OwnerOk(c: Cluster, t: int) {
    t in c.owner ==>
      && t > 0 && t in c.led && c.owner[t] in c.nodes && c.owner[t] in c.full
      && var n := c.nodes[c.owner[t]];
      && OnDisk(n.disk).term >= t
      && !(n.term == t && n.role.Candidate?)
      && (n.term == t && n.role.Leader? ==> c.full[c.owner[t]] == c.led[t])
  }

  /** The message is a slice of its basis. */
  ghost predicate Cut(msg: Message) {
    var a := msg.args;
    && 0 <= a.prevLogIndex && |msg.basis| == a.prevLogIndex + 1 + |a.entries|
    && a.entries == msg.basis[a.prevLogIndex + 1..]
    && a.prevLogTerm == msg.basis[a.prevLogIndex].term
    && (forall k :: 0 <= k < |msg.basis| ==> msg.basis[k].index == k)
  }

  ghost predicate MessageOk(msg: Message, c: Cluster) {
    && msg.args.term in c.owner && msg.args.leaderID == c.owner[msg.args.term]
    && Cut(msg) && Traced(msg.basis, c.led)
  }

  ghost predicate NodesOk(c: Cluster) {
    && c.nodes.Keys == c.full.Keys
    && forall i :: i in c.nodes ==> NodeOk(c.nodes[i], i, c.full[i]) && Traced(c.full[i], c.led)
  }

  ghost predicate OwnersOk(c: Cluster) {
    && (forall t :: t in c.led ==> t == 0 || t in c.owner)
    && (forall t :: t in c.owner ==> OwnerOk(c, t))
  }

  ghost predicate PoolOk(c: Cluster) {
    forall msg :: msg in c.pool ==> MessageOk(msg, c)
  }

  ghost predicate ClusterInv(c: Cluster) {
    NodesOk(c) && OwnersOk(c) && PoolOk(c)
  }

  // ----- logs and their record

  lemma TracedPrefix(log: seq<LogEntry>, led: map<int, seq<LogEntry>>, k: nat)
    requires Traced(log, led) && k <= |log|
    ensures Traced(log[..k], led)
  {
    forall j | 0 <= j < k
      ensures TracedAt(log[..k], led, j)
    {
      assert TracedAt(log, led, j);
      assert log[..k][..j + 1] == log[..j + 1];
    }
  }

  lemma TracedGrows(log: seq<LogEntry>, led: map<int, seq<LogEntry>>, t: int, longer: seq<LogEntry>)
    requires Traced(log, led) && (t in led ==> led[t] <= longer)
    ensures Traced(log, led[t := longer])
  {
    var led' := led[t := longer];
    forall k | 0 <= k < |log|
      ensures TracedAt(log, led', k)
    {
      assert TracedAt(log, led, k);
      if log[k].term == t {
        assert led[t][..k + 1] == longer[..k + 1];
      }
    }
  }

  lemma TracedAppend(log: seq<LogEntry>, led: map<int, seq<LogEntry>>, e: LogEntry)
    requires Traced(log, led) && e.term in led && led[e.term] == log + [e]
    ensures Traced(log + [e], led)
  {
    var more := log + [e];
    forall k | 0 <= k < |more|
      ensures TracedAt(more, led, k)
    {
      if k < |log| {
        assert TracedAt(log, led, k);
        assert more[..k + 1] == log[..k + 1];
      }
    }
  }

  /** Two traced logs with the same term at an index are the same up to it. */
  lemma TracedMatch(a: seq<LogEntry>, b: seq<LogEntry>, led: map<int, seq<LogEntry>>, k: nat)
    requires Traced(a, led) && Traced(b, led) && k < |a| && k < |b| && a[k].term == b[k].term
    ensures a[..k + 1] == b[..k + 1]
  {
    assert TracedAt(a, led, k) && TracedAt(b, led, k);
  }

  // ----- one node

  lemma LocalKeepsNode(n: Node, i: string, full: seq<LogEntry>, e: Event)
    requires NodeOk(n, i, full) && !e.AppendRequest? && !e.Proposal?
    ensures NodeOk(Step(n, e).0, i, full)
  {
    SyncedStep(n, e);
    if e.Compaction? { CompactTail(n, full, ORIGIN, e.index, e.state); }
  }

  /** A local step neither forgets a term the disk has seen nor leads one anew without standing for it. */
  lemma LocalKeepsOwner(n: Node, i: string, full: seq<LogEntry>, e: Event, t: int)
    requires NodeOk(n, i, full) && !e.AppendRequest? && !e.Proposal?
    requires OnDisk(n.disk).term >= t && !(n.term == t && n.role.Candidate?)
    ensures var m := Step(n, e).0;
            && OnDisk(m.disk).term >= t && !(m.term == t && m.role.Candidate?)
            && (m.term == t && m.role.Leader? ==> n.term == t && n.role.Leader?)
  {
  }

  lemma ProposeKeepsNode(n: Node, i: string, full: seq<LogEntry>, data: Bytes)
    requires NodeOk(n, i, full) && n.role.Leader?
    ensures LastLogIndex(n) + 1 == |full|
    ensures NodeOk(Propose(n, data).0, i, full + [LogEntry(LastLogIndex(n) + 1, n.term, data)])
  {
  }

  /** A match at the previous index makes the receiver's full log, spliced, the one the message was cut from. */
  lemma MatchSplices(n: Node, i: string, full: seq<LogEntry>, msg: Message, led: map<int, seq<LogEntry>>)
    requires NodeOk(n, i, full) && Traced(full, led) && Traced(msg.basis, led)
    requires Cut(msg) && Accepts(n, msg.args)
    ensures 0 <= msg.args.prevLogIndex < |full|
    ensures full[..msg.args.prevLogIndex + 1] + msg.args.entries == msg.basis
  {
    var prev := msg.args.prevLogIndex;
    assert full[prev].term == msg.basis[prev].term;
    TracedMatch(full, msg.basis, led, prev);
  }

  lemma SpliceIsTail(n: Node, i: string, full: seq<LogEntry>, msg: Message)
    requires NodeOk(n, i, full) && Cut(msg) && Accepts(n, msg.args)
    requires 0 <= msg.args.prevLogIndex < |full|
    requires full[..msg.args.prevLogIndex + 1] + msg.args.entries == msg.basis
    ensures Tail(Splice(n, msg.args), n.snapshot, msg.basis, ORIGIN)
  {
    var a := msg.args;
    var u := n.(log := full, snapshot := ORIGIN);
    assert Consecutive(a) by {
      forall k | 0 <= k < |a.entries|
        ensures a.entries[k].index == a.prevLogIndex + 1 + k
      {
        assert a.entries[k] == msg.basis[a.prevLogIndex + 1 + k];
      }
    }
    SpliceTail(n, u, a);
    assert Splice(u, a) == msg.basis;
  }

  lemma DeliverSplices(c: Cluster, i: string, msg: Message)
    requires ClusterInv(c) && i in c.nodes && msg in c.pool && Accepts(c.nodes[i], msg.args)
    ensures 0 <= msg.args.prevLogIndex < |c.full[i]|
    ensures c.full[i][..msg.args.prevLogIndex + 1] + msg.args.entries == msg.basis
    ensures Tail(Splice(c.nodes[i], msg.args), c.nodes[i].snapshot, msg.basis, ORIGIN)
  {
    assert MessageOk(msg, c);
    MatchSplices(c.nodes[i], i, c.full[i], msg, c.led);
    SpliceIsTail(c.nodes[i], i, c.full[i], msg);
  }

  lemma AcceptKeepsNode(n: Node, i: string, full: seq<LogEntry>, a: AppendEntriesArgs, full': seq<LogEntry>)
    requires NodeOk(n, i, full) && Accepts(n, a) && Tail(Splice(n, a), n.snapshot, full', ORIGIN)
    ensures NodeOk(AppendEntries(n, a).0, i, full')
  {
    AppendFrame(n, a);
  }

  lemma RejectKeepsNode(n: Node, i: string, full: seq<LogEntry>, a: AppendEntriesArgs)
    requires NodeOk(n, i, full) && !Accepts(n, a)
    ensures NodeOk(AppendEntries(n, a).0, i, full)
  {
  }

  lemma DeliverKeepsOwner(n: Node, i: string, full: seq<LogEntry>, a: AppendEntriesArgs, t: int)
    requires NodeOk(n, i, full) && a.term != t
    requires OnDisk(n.disk).term >= t && !(n.term == t && n.role.Candidate?)
    ensures var m := AppendEntries(n, a).0;
            && OnDisk(m.disk).term >= t && !(m.term == t && m.role.Candidate?)
            && (m.term == t && m.role.Leader? ==> n == m && a.term < n.term)
  {
    if Accepts(n, a) { AppendFrame(n, a); } else { RejectFrame(n, a); }
  }

  // ----- one move

  lemma LocalKeepsInv(c: Cluster, m: Move)
    requires ClusterInv(c) && Possible(c, m) && m.Local?
    ensures ClusterInv(Next(c, m))
  {
    var i, c' := m.node, Next(c, m);
    LocalKeepsNode(c.nodes[i], i, c.full[i], m.event);
    forall t | t in c.owner
      ensures OwnerOk(c', t)
    {
      assert OwnerOk(c, t);
      if c.owner[t] == i { LocalKeepsOwner(c.nodes[i], i, c.full[i], m.event, t); }
    }
    forall msg | msg in c.pool
      ensures MessageOk(msg, c')
    {
      assert MessageOk(msg, c);
    }
  }

  lemma AcceptedNext(c: Cluster, m: Move, full: seq<LogEntry>, c': Cluster)
    requires Possible(c, m) && m.Deliver? && Accepts(c.nodes[m.node], m.message.args) && c' == Next(c, m)
    requires 0 <= m.message.args.prevLogIndex < |c.full[m.node]|
    requires full == c.full[m.node][..m.message.args.prevLogIndex + 1] + m.message.args.entries
    ensures c'.full == c.full[m.node := full] && c'.pool == c.pool && c'.owner == c.owner
    ensures c'.nodes == c.nodes[m.node := AppendEntries(c.nodes[m.node], m.message.args).0]
  {
  }

  lemma AcceptEffect(c: Cluster, m: Move)
    requires ClusterInv(c) && Possible(c, m) && m.Deliver? && Accepts(c.nodes[m.node], m.message.args)
    ensures var c' := Next(c, m);
            c'.full == c.full[m.node := m.message.basis] && NodeOk(c'.nodes[m.node], m.node, m.message.basis)
  {
    DeliverSplices(c, m.node, m.message);
    AcceptKeepsNode(c.nodes[m.node], m.node, c.full[m.node], m.message.args, m.message.basis);
    AcceptedNext(c, m, m.message.basis, Next(c, m));
  }

  /** What a delivery does to the receiver and its full log. */
  lemma DeliverEffect(c: Cluster, m: Move)
    requires ClusterInv(c) && Possible(c, m) && m.Deliver?
    ensures var c' := Next(c, m);
            && NodeOk(c'.nodes[m.node], m.node, c'.full[m.node]) && Traced(c'.full[m.node], c.led)
            && c'.full == c.full[m.node := c'.full[m.node]]
            && (!Accepts(c.nodes[m.node], m.message.args) ==> c'.full == c.full)
  {
    if Accepts(c.nodes[m.node], m.message.args) {
      AcceptEffect(c, m);
      assert MessageOk(m.message, c);
    } else {
      RejectKeepsNode(c.nodes[m.node], m.node, c.full[m.node], m.message.args);
    }
  }

  /** A log whose entries of term t the new record covers is traced to it as it was to the old one. */
  lemma Retraced(log: seq<LogEntry>, led: map<int, seq<LogEntry>>, t: int, basis: seq<LogEntry>)
    requires Traced(log, led) && Traced(basis, led) && Covered(log, t, basis)
    ensures Traced(log, led[t := basis])
  {
    var led' := led[t := basis];
    forall k | 0 <= k < |log|
      ensures TracedAt(log, led', k)
    {
      assert TracedAt(log, led, k);
      if log[k].term == t {
        assert TracedAt(basis, led, k);
      }
    }
  }

  lemma OwnDeliveryRetraces(c: Cluster, m: Move, log: seq<LogEntry>)
    requires ClusterInv(c) && Possible(c, m) && TakesOwn(c, m) && Traced(log, c.led)
    requires Covered(log, m.message.args.term, m.message.basis)
    ensures Traced(log, Next(c, m).led)
  {
    assert MessageOk(m.message, c);
    Retraced(log, c.led, m.message.args.term, m.message.basis);
  }

  lemma DeliverKeepsNodes(c: Cluster, m: Move)
    requires ClusterInv(c) && Possible(c, m) && m.Deliver? && Harmless(c, m)
    ensures NodesOk(Next(c, m))
  {
    var c' := Next(c, m);
    DeliverEffect(c, m);
    if TakesOwn(c, m) { AcceptEffect(c, m); }
    forall j | j in c'.nodes
      ensures Traced(c'.full[j], c'.led)
    {
      if TakesOwn(c, m) { OwnDeliveryRetraces(c, m, c'.full[j]); }
    }
  }

  lemma DeliverKeepsPool(c: Cluster, m: Move)
    requires ClusterInv(c) && Possible(c, m) && m.Deliver? && Harmless(c, m)
    ensures PoolOk(Next(c, m))
  {
    forall msg | msg in c.pool
      ensures MessageOk(msg, Next(c, m))
    {
      assert MessageOk(msg, c);
      if TakesOwn(c, m) { OwnDeliveryRetraces(c, m, msg.basis); }
    }
  }

  lemma OwnDeliveryKeepsOwner(c: Cluster, m: Move)
    requires ClusterInv(c) && Possible(c, m) && m.Deliver? && m.message.args.leaderID == m.node
    ensures OwnerOk(Next(c, m), m.message.args.term)
  {
    var n, a := c.nodes[m.node], m.message.args;
    assert MessageOk(m.message, c) && OwnerOk(c, a.term) && NodeOk(n, m.node, c.full[m.node]);
    if Accepts(n, a) {
      AppendFrame(n, a);
      AcceptEffect(c, m);
    } else {
      RejectFrame(n, a);
    }
  }

  lemma DeliverKeepsOwners(c: Cluster, m: Move, t: int)
    requires ClusterInv(c) && Possible(c, m) && m.Deliver? && t in c.owner
    ensures OwnerOk(Next(c, m), t)
  {
    DeliverEffect(c, m);
    assert OwnerOk(c, t);
    assert MessageOk(m.message, c);
    if t == m.message.args.term {
      if c.owner[t] == m.node { OwnDeliveryKeepsOwner(c, m); }
    } else if c.owner[t] == m.node {
      DeliverKeepsOwner(c.nodes[m.node], m.node, c.full[m.node], m.message.args, t);
    }
  }

  lemma DeliverKeepsInv(c: Cluster, m: Move)
    requires ClusterInv(c) && Possible(c, m) && m.Deliver? && Harmless(c, m)
    ensures ClusterInv(Next(c, m))
  {
    DeliverKeepsNodes(c, m);
    DeliverKeepsPool(c, m);
    assert MessageOk(m.message, c);
    forall t | t in c.owner
      ensures OwnerOk(Next(c, m), t)
    {
      DeliverKeepsOwners(c, m, t);
    }
  }

  /** Acting as leader: the record of the term is set to a log that extends what was on record. */
  lemma LeaderExtendsRecord(c: Cluster, i: string)
    requires ClusterInv(c) && i in c.nodes && MayLead(c, i)
    ensures c.nodes[i].term > 0
    ensures c.nodes[i].term in c.led ==> c.led[c.nodes[i].term] == c.full[i]
  {
  }

  lemma RecordKeepsMessages(c: Cluster, c': Cluster, t: int, longer: seq<LogEntry>, i: string)
    requires ClusterInv(c) && c'.led == c.led[t := longer] && c'.owner == c.owner[t := i]
    requires (t in c.led ==> c.led[t] <= longer) && (t in c.owner ==> c.owner[t] == i)
    ensures forall msg :: msg in c.pool ==> MessageOk(msg, c')
    ensures forall j :: j in c.full ==> Traced(c.full[j], c'.led)
  {
    forall msg | msg in c.pool
      ensures MessageOk(msg, c')
    {
      assert MessageOk(msg, c);
      TracedGrows(msg.basis, c.led, t, longer);
    }
    forall j | j in c.full
      ensures Traced(c.full[j], c'.led)
    {
      TracedGrows(c.full[j], c.led, t, longer);
    }
  }

  lemma ProposeKeepsOwners(c: Cluster, m: Move, t: int)
    requires ClusterInv(c) && Possible(c, m) && m.ProposeAt? && t in Next(c, m).owner
    requires NodeOk(Next(c, m).nodes[m.node], m.node, Next(c, m).full[m.node])
    requires c.nodes[m.node].term > 0
    ensures OwnerOk(Next(c, m), t)
  {
    assert NodeOk(c.nodes[m.node], m.node, c.full[m.node]);
    if t != c.nodes[m.node].term {
      assert OwnerOk(c, t);
    }
  }

  lemma ProposeEffect(c: Cluster, m: Move, full: seq<LogEntry>, e: LogEntry, c': Cluster)
    requires Possible(c, m) && m.ProposeAt? && c' == Next(c, m) && full == c.full[m.node]
    requires e == LogEntry(LastLogIndex(c.nodes[m.node]) + 1, c.nodes[m.node].term, m.data)
    ensures c'.nodes == c.nodes[m.node := Propose(c.nodes[m.node], m.data).0] && c'.pool == c.pool
    ensures c'.full == c.full[m.node := full + [e]]
    ensures c'.led == c.led[e.term := full + [e]] && c'.owner == c.owner[e.term := m.node]
  {
  }

  lemma ProposeKeepsLogs(c: Cluster, m: Move, full: seq<LogEntry>, e: LogEntry, c': Cluster)
    requires ClusterInv(c) && Possible(c, m) && m.ProposeAt? && c' == Next(c, m) && full == c.full[m.node]
    requires e == LogEntry(LastLogIndex(c.nodes[m.node]) + 1, c.nodes[m.node].term, m.data)
    requires e.term in c.led ==> c.led[e.term] == full
    ensures PoolOk(c') && forall j :: j in c'.full ==> Traced(c'.full[j], c'.led)
  {
    ProposeEffect(c, m, full, e, c');
    RecordKeepsMessages(c, c', e.term, full + [e], m.node);
    TracedAppend(full, c'.led, e);
  }

  lemma ProposeKeepsAllOwners(c: Cluster, m: Move)
    requires ClusterInv(c) && Possible(c, m) && m.ProposeAt?
    requires NodeOk(Next(c, m).nodes[m.node], m.node, Next(c, m).full[m.node]) && c.nodes[m.node].term > 0
    ensures OwnersOk(Next(c, m))
  {
    forall t | t in Next(c, m).owner
      ensures OwnerOk(Next(c, m), t)
    {
      ProposeKeepsOwners(c, m, t);
    }
  }

  lemma ProposeKeepsNodes(c: Cluster, m: Move)
    requires ClusterInv(c) && Possible(c, m) && m.ProposeAt?
    ensures NodesOk(Next(c, m)) && PoolOk(Next(c, m))
  {
    var n, full := c.nodes[m.node], c.full[m.node];
    var e := LogEntry(LastLogIndex(n) + 1, n.term, m.data);
    LeaderExtendsRecord(c, m.node);
    ProposeEffect(c, m, full, e, Next(c, m));
    ProposeKeepsNode(n, m.node, full, m.data);
    ProposeKeepsLogs(c, m, full, e, Next(c, m));
  }

  lemma ProposeKeepsInv(c: Cluster, m: Move)
    requires ClusterInv(c) && Possible(c, m) && m.ProposeAt?
    ensures ClusterInv(Next(c, m))
  {
    LeaderExtendsRecord(c, m.node);
    ProposeKeepsNodes(c, m);
    ProposeKeepsAllOwners(c, m);
  }

  lemma SendKeepsOwners(c: Cluster, m: Move, t: int)
    requires ClusterInv(c) && Possible(c, m) && m.Send? && t in Next(c, m).owner
    requires c.nodes[m.node].term > 0
    ensures OwnerOk(Next(c, m), t)
  {
    assert NodeOk(c.nodes[m.node], m.node, c.full[m.node]);
    if t != c.nodes[m.node].term {
      assert OwnerOk(c, t);
    }
  }

  lemma SendKeepsPool(c: Cluster, m: Move)
    requires ClusterInv(c) && Possible(c, m) && m.Send?
    ensures forall msg :: msg in Next(c, m).pool ==> MessageOk(msg, Next(c, m))
    ensures forall j :: j in c.full ==> Traced(c.full[j], Next(c, m).led)
  {
    var i, c' := m.node, Next(c, m);
    var n, full := c.nodes[i], c.full[i];
    LeaderExtendsRecord(c, i);
    RecordKeepsMessages(c, c', n.term, full, i);
    SentIsOk(c', n, i, full, m.prevLogIndex, m.count, m.leaderCommit);
  }

  lemma SendKeepsInv(c: Cluster, m: Move)
    requires ClusterInv(c) && Possible(c, m) && m.Send?
    ensures ClusterInv(Next(c, m))
  {
    LeaderExtendsRecord(c, m.node);
    SendKeepsPool(c, m);
    forall t | t in Next(c, m).owner
      ensures OwnerOk(Next(c, m), t)
    {
      SendKeepsOwners(c, m, t);
    }
  }

  lemma SliceIsCut(n: Node, i: string, full: seq<LogEntry>, prev: int, count: nat, leaderCommit: int)
    requires NodeOk(n, i, full) && 0 <= prev && 0 <= prev - n.snapshot.lastIncludedIndex
    requires prev - n.snapshot.lastIncludedIndex + 1 + count <= |n.log| && prev + 1 + count <= |full|
    ensures Cut(Message(Slice(n, prev, count, leaderCommit), full[..prev + 1 + count]))
  {
  }

  lemma SentIsOk(c: Cluster, n: Node, i: string, full: seq<LogEntry>, prev: int, count: nat, leaderCommit: int)
    requires NodeOk(n, i, full) && Traced(full, c.led) && n.term in c.owner && c.owner[n.term] == i
    requires 0 <= prev && 0 <= prev - n.snapshot.lastIncludedIndex
    requires prev - n.snapshot.lastIncludedIndex + 1 + count <= |n.log| && prev + 1 + count <= |full|
    ensures MessageOk(Message(Slice(n, prev, count, leaderCommit), full[..prev + 1 + count]), c)
  {
    TracedPrefix(full, c.led, prev + 1 + count);
    SliceIsCut(n, i, full, prev, count, leaderCommit);
  }

  lemma MoveKeepsInv(c: Cluster, m: Move)
    requires ClusterInv(c) && Possible(c, m) && Harmless(c, m)
    ensures ClusterInv(Next(c, m))
  {
    match m
    case Local(_, _) => LocalKeepsInv(c, m);
    case ProposeAt(_, _) => ProposeKeepsInv(c, m);
    case Send(_, _, _, _) => SendKeepsInv(c, m);
    case Deliver(_, _) => DeliverKeepsInv(c, m);
  }

  lemma FreshInv(c: Cluster)
    requires Fresh(c)
    ensures ClusterInv(c)
  {
    assert [GENESIS][..1] == [GENESIS];
  }

  lemma {:induction false} RunKeepsInv(c: Cluster, moves: seq<Move>)
    requires ClusterInv(c) && Run(c, moves) && HarmlessRun(c, moves)
    ensures ClusterInv(After(c, moves))
    decreases moves
  {
    if moves != [] {
      MoveKeepsInv(c, moves[0]);
      RunKeepsInv(Next(c, moves[0]), moves[1..]);
    }
  }

  /** A leader's stored log always lies within its full log. */
  lemma StoredLiesWithinFull(c: Cluster, i: string, prev: int, count: nat)
    requires ClusterInv(c) && i in c.nodes
    requires var n := c.nodes[i];
             0 <= prev - n.snapshot.lastIncludedIndex && prev - n.snapshot.lastIncludedIndex + 1 + count <= |n.log|
    ensures 0 <= prev && prev + 1 + count <= |c.full[i]|
  {
    assert NodeOk(c.nodes[i], i, c.full[i]);
  }

  // ----- the theorem

  /** Log Matching over full logs: the same term at the same index means the same entries up to it. */
  lemma LogMatching(c: Cluster, moves: seq<Move>, i: string, j: string, k: nat)
    requires Fresh(c) && Run(c, moves) && HarmlessRun(c, moves)
    ensures var d := After(c, moves);
            i in d.full && j in d.full && k < |d.full[i]| && k < |d.full[j]|
            && d.full[i][k].term == d.full[j][k].term ==>
              d.full[i][..k + 1] == d.full[j][..k + 1]
  {
    FreshInv(c);
    RunKeepsInv(c, moves);
    var d := After(c, moves);
    if i in d.full && j in d.full && k < |d.full[i]| && k < |d.full[j]|
       && d.full[i][k].term == d.full[j][k].term {
      TracedMatch(d.full[i], d.full[j], d.led, k);
    }
  }

  /** The entry a node stores at an absolute index it has not compacted away. */
  ghost predicate Stores(n: Node, index: int, e: LogEntry) {
    n.snapshot.lastIncludedIndex < index && index - n.snapshot.lastIncludedIndex < |n.log|
    && n.log[index - n.snapshot.lastIncludedIndex] == e
  }

  /** Log Matching between two nodes, over what they store. */
  ghost predicate StoredMatch(n: Node, m: Node) {
    forall index, e, f, earlier, g, h ::
      (Stores(n, index, e) && Stores(m, index, f) && e.term == f.term &&
       earlier <= index && Stores(n, earlier, g) && Stores(m, earlier, h)) ==> e == f && g == h
  }

  lemma StoredIsFull(n: Node, i: string, full: seq<LogEntry>, index: int, e: LogEntry)
    requires NodeOk(n, i, full) && Stores(n, index, e)
    ensures 0 <= index < |full| && full[index] == e
  {
  }

  lemma TracedStoredMatch(n: Node, i: string, p: seq<LogEntry>, m: Node, j: string, q: seq<LogEntry>,
                          led: map<int, seq<LogEntry>>)
    requires NodeOk(n, i, p) && NodeOk(m, j, q) && Traced(p, led) && Traced(q, led)
    ensures StoredMatch(n, m)
  {
    forall index, e, f, earlier, g, h |
      Stores(n, index, e) && Stores(m, index, f) && e.term == f.term &&
      earlier <= index && Stores(n, earlier, g) && Stores(m, earlier, h)
      ensures e == f && g == h
    {
      StoredIsFull(n, i, p, index, e);
      StoredIsFull(m, j, q, index, f);
      StoredIsFull(n, i, p, earlier, g);
      StoredIsFull(m, j, q, earlier, h);
      TracedMatch(p, q, led, index);
      assert p[..index + 1][earlier] == q[..index + 1][earlier] && p[..index + 1][index] == q[..index + 1][index];
    }
  }

  /** The same over what the nodes actually store, snapshots and restarts notwithstanding. */
  lemma StoredLogMatching(c: Cluster, moves: seq<Move>, i: string, j: string)
    requires Fresh(c) && Run(c, moves) && HarmlessRun(c, moves)
    ensures var d := After(c, moves);
            i in d.nodes && j in d.nodes ==> StoredMatch(d.nodes[i], d.nodes[j])
  {
    FreshInv(c);
    RunKeepsInv(c, moves);
    var d := After(c, moves);
    if i in d.nodes && j in d.nodes {
      TracedStoredMatch(d.nodes[i], i, d.full[i], d.nodes[j], j, d.full[j], d.led);
    }
  }

  // ----- what a leader's own message does

  /**
   A leader that accepts a message of its own term stays leader with the log cut to the message, so its next proposal
   takes an index it has already used in that term exactly when the message ends before its log does.
  */
  lemma OwnMessageIff(n: Node, a: AppendEntriesArgs, data: Bytes)
    requires WellIndexed(n) && n.role.Leader? && a.term == n.term && Accepts(n, a) && Consecutive(a)
    ensures var m := Propose(AppendEntries(n, a).0, data).0;
            && m.role.Leader? && m.term == n.term && m.log[|m.log| - 1].term == n.term
            && LastLogIndex(m) == a.prevLogIndex + |a.entries| + 1
            && (LastLogIndex(m) <= LastLogIndex(n) <==> a.prevLogIndex + |a.entries| < LastLogIndex(n))
  {
    AppendFrame(n, a);
    SpliceIndexedIff(n, a, AppendEntries(n, a).0);
  }

  /** The log has an entry of term t at or behind this position. */
  ghost predicate Beyond(log: seq<LogEntry>, t: int, from: nat) {
    exists k :: from <= k < |log| && log[k].term == t
  }

  lemma CoveredIff(log: seq<LogEntry>, led: map<int, seq<LogEntry>>, t: int, basis: seq<LogEntry>)
    requires Traced(log, led) && (t in led ==> basis <= led[t])
    ensures Covered(log, t, basis) <==> !Beyond(log, t, |basis|)
  {
    forall k | 0 <= k < |log| && log[k].term == t && k < |basis|
      ensures basis[k].term == t
    {
      assert TracedAt(log, led, k);
      assert log[..k + 1][k] == led[t][..k + 1][k] && led[t][k] == basis[k];
    }
  }

  /** A leader's own message that cuts its log does harm exactly if someone has an entry of the term behind the cut. */
  lemma HarmlessCutIff(c: Cluster, m: Move)
    requires ClusterInv(c) && Possible(c, m) && TakesOwn(c, m) && m.message.basis <= c.full[m.node]
    ensures var (t, cut) := (m.message.args.term, |m.message.basis|);
            !Harmless(c, m) <==>
              || (exists j :: j in c.full && j != m.node && Beyond(c.full[j], t, cut))
              || (exists msg :: msg in c.pool && Beyond(msg.basis, t, cut))
  {
    var t, basis := m.message.args.term, m.message.basis;
    assert MessageOk(m.message, c) && OwnerOk(c, t);
    forall j | j in c.full
      ensures Covered(c.full[j], t, basis) <==> !Beyond(c.full[j], t, |basis|)
    {
      CoveredIff(c.full[j], c.led, t, basis);
    }
    forall msg | msg in c.pool
      ensures Covered(msg.basis, t, basis) <==> !Beyond(msg.basis, t, |basis|)
    {
      assert MessageOk(msg, c);
      CoveredIff(msg.basis, c.led, t, basis);
    }
  }

  /** The node may act as the leader of term t, with this full log. */
  ghost predicate LeadsWith(c: Cluster, i: string, t: int, full: seq<LogEntry>) {
    && i in c.nodes && i in c.full && MayLead(c, i) && c.nodes[i].term == t
    && c.full[i] == full && NodeOk(c.nodes[i], i, full)
  }

  /** Taking its own message leaves the leader leading its term, with the log the message was cut from. */
  lemma LeadsOnAfterOwn(c: Cluster, m: Move, d: Cluster)
    requires ClusterInv(c) && Possible(c, m) && TakesOwn(c, m) && MayLead(c, m.node) && d == Next(c, m)
    ensures LeadsWith(d, m.node, m.message.args.term, m.message.basis)
    ensures d.full == c.full[m.node := m.message.basis]
  {
    AcceptEffect(c, m);
    AppendFrame(c.nodes[m.node], m.message.args);
  }

  /** The log after these proposals in term t. */
  ghost function Grown(full: seq<LogEntry>, t: int, proposals: seq<Bytes>): seq<LogEntry>
    decreases proposals
  {
    if proposals == [] then full else Grown(full + [LogEntry(|full|, t, proposals[0])], t, proposals[1..])
  }

  /** The log begins with `full` and goes on with one entry for each proposal, the last of them in term t. */
  ghost predicate Continues(log: seq<LogEntry>, full: seq<LogEntry>, t: int, proposals: seq<Bytes>) {
    && |log| == |full| + |proposals| && log[..|full|] == full
    && (proposals != [] ==> log[|full|].data == proposals[0] && log[|log| - 1].term == t)
  }

  lemma {:induction false} GrownContinues(full: seq<LogEntry>, t: int, proposals: seq<Bytes>)
    ensures Continues(Grown(full, t, proposals), full, t, proposals)
    decreases proposals
  {
    if proposals != [] {
      var more, rest := full + [LogEntry(|full|, t, proposals[0])], proposals[1..];
      GrownContinues(more, t, rest);
      assert Grown(more, t, rest)[..|more|][..|full|] == full;
      assert Grown(more, t, rest)[..|more|][|full|] == more[|full|];
    }
  }

  ghost function Proposals(i: string, proposals: seq<Bytes>): seq<Move> {
    seq(|proposals|, k requires 0 <= k < |proposals| => ProposeAt(i, proposals[k]))
  }

  lemma ProposeLeadsOn(c: Cluster, i: string, t: int, full: seq<LogEntry>, data: Bytes, d: Cluster)
    requires LeadsWith(c, i, t, full) && Possible(c, ProposeAt(i, data)) && d == Next(c, ProposeAt(i, data))
    ensures LeadsWith(d, i, t, full + [LogEntry(|full|, t, data)])
    ensures d.full == c.full[i := full + [LogEntry(|full|, t, data)]]
  {
    ProposeKeepsNode(c.nodes[i], i, full, data);
  }

  lemma {:induction false} ProposalsLeadOn(c: Cluster, i: string, t: int, full: seq<LogEntry>, proposals: seq<Bytes>)
    requires LeadsWith(c, i, t, full)
    ensures Run(c, Proposals(i, proposals))
    ensures After(c, Proposals(i, proposals)).full == c.full[i := Grown(full, t, proposals)]
    decreases proposals
  {
    if proposals != [] {
      var p, rest := ProposeAt(i, proposals[0]), proposals[1..];
      var d := Next(c, p);
      ProposeLeadsOn(c, i, t, full, proposals[0], d);
      ProposalsLeadOn(d, i, t, full + [LogEntry(|full|, t, proposals[0])], rest);
      assert Proposals(i, proposals)[1..] == Proposals(i, rest);
    }
  }

  /** The property fails between these two nodes: one term at one index, and the logs differ up to it. */
  ghost predicate Mismatch(c: Cluster, i: string, j: string, k: nat) {
    && i in c.full && j in c.full && k < |c.full[i]| && k < |c.full[j]|
    && c.full[i][k].term == c.full[j][k].term && c.full[i][..k + 1] != c.full[j][..k + 1]
  }

  lemma ContinuedMismatch(d: Cluster, i: string, j: string, t: int, basis: seq<LogEntry>, proposals: seq<Bytes>, k: nat)
    requires i in d.full && j in d.full && Continues(d.full[i], basis, t, proposals)
    requires |basis| <= k < |d.full[j]| && d.full[j][k].term == t && |proposals| == k + 1 - |basis|
    requires proposals[0] != d.full[j][|basis|].data
    ensures Mismatch(d, i, j, k)
  {
    assert d.full[i][..k + 1][|basis|] != d.full[j][..k + 1][|basis|];
  }

  /**
   From any state the invariant allows: once a leader takes a message of its own, while another node has an entry of the
   term behind the message's end, its proposals up to there break the property, if the first is another than the entry
   the other node has in its place.
  */
  lemma HarmBreaksMatching(c: Cluster, m: Move, j: string, k: nat, proposals: seq<Bytes>)
    requires ClusterInv(c) && Possible(c, m) && TakesOwn(c, m) && MayLead(c, m.node)
    requires j in c.full && j != m.node && |m.message.basis| <= k < |c.full[j]|
    requires c.full[j][k].term == m.message.args.term
    requires |proposals| == k + 1 - |m.message.basis| && proposals[0] != c.full[j][|m.message.basis|].data
    ensures var moves := [m] + Proposals(m.node, proposals);
            Run(c, moves) && Mismatch(After(c, moves), m.node, j, k)
  {
    var d, rest := Next(c, m), Proposals(m.node, proposals);
    var moves := [m] + rest;
    assert moves[0] == m && moves[1..] == rest;
    LeadsOnAfterOwn(c, m, d);
    ProposalsLeadOn(d, m.node, m.message.args.term, m.message.basis, proposals);
    GrownContinues(m.message.basis, m.message.args.term, proposals);
    ContinuedMismatch(After(d, rest), m.node, j, m.message.args.term, m.message.basis, proposals, k);
  }

  /** Delivering to one node leaves what another may do. */
  lemma StillTakesOwn(c: Cluster, m: Move, j: string, msg: Message, d: Cluster)
    requires ClusterInv(c) && Possible(c, m) && TakesOwn(c, m) && MayLead(c, m.node) && j != m.node
    requires Possible(c, Deliver(j, msg)) && d == Next(c, Deliver(j, msg)) && Accepts(c.nodes[j], msg.args)
    ensures Possible(d, m) && TakesOwn(d, m) && MayLead(d, m.node)
    ensures j in d.full && d.full[j] == msg.basis
  {
    AcceptEffect(c, Deliver(j, msg));
  }

  /** The same of an entry that is only in flight, as long as some node would accept the message that carries it. */
  lemma HarmInFlightBreaksMatching(c: Cluster, m: Move, j: string, msg: Message, k: nat, proposals: seq<Bytes>)
    requires ClusterInv(c) && Possible(c, m) && TakesOwn(c, m) && MayLead(c, m.node)
    requires msg in c.pool && j in c.nodes && j in c.full && j != m.node && Accepts(c.nodes[j], msg.args)
    requires Harmless(c, Deliver(j, msg))
    requires |m.message.basis| <= k < |msg.basis| && msg.basis[k].term == m.message.args.term
    requires |proposals| == k + 1 - |m.message.basis| && proposals[0] != msg.basis[|m.message.basis|].data
    ensures var moves := [Deliver(j, msg)] + ([m] + Proposals(m.node, proposals));
            Run(c, moves) && Mismatch(After(c, moves), m.node, j, k)
  {
    var first, rest := Deliver(j, msg), [m] + Proposals(m.node, proposals);
    var d := Next(c, first);
    assert ([first] + rest)[0] == first && ([first] + rest)[1..] == rest;
    MoveKeepsInv(c, first);
    StillTakesOwn(c, m, j, msg, d);
    HarmBreaksMatching(d, m, j, k, proposals);
  }

  // ----- a run that breaks it

  /** Two fresh nodes. */
  ghost function Pair(): Cluster {
    var peers := ["a", "b"];
    Cluster(map["a" := Start("a", peers, Empty), "b" := Start("b", peers, Empty)], {},
            map["a" := [GENESIS], "b" := [GENESIS]], map[], map[0 := [GENESIS]])
  }

  const HEARTBEAT := Message(AppendEntriesArgs(1, "a", 0, 0, [], 0), [GENESIS])

  function Carrying(data: Bytes): Message {
    Message(AppendEntriesArgs(1, "a", 0, 0, [LogEntry(1, 1, data)], 0), [GENESIS, LogEntry(1, 1, data)])
  }

  /** `a` leads term 1 with this log, `b` is untouched and these messages are in flight. */
  ghost predicate Leading(c: Cluster, log: seq<LogEntry>, pool: set<Message>) {
    && c.nodes.Keys == c.full.Keys == {"a", "b"} && c.pool == pool
    && (1 in c.owner ==> c.owner[1] == "a")
    && c.full["a"] == log && c.full["b"] == [GENESIS]
    && c.nodes["b"].term == 0 && c.nodes["b"].snapshot == ORIGIN && c.nodes["b"].log == [GENESIS]
    && var n := c.nodes["a"];
       n.id == "a" && n.role.Leader? && n.term == 1 && n.snapshot == ORIGIN && n.log == log
  }

  lemma Elects(c: Cluster, d: Cluster)
    requires c == Pair() && Possible(c, Local("a", ElectionTimeout))
    requires d == Next(c, Local("a", ElectionTimeout))
    ensures Possible(d, Local("a", TallyDoneIn(1)))
    ensures Leading(Next(d, Local("a", TallyDoneIn(1))), [GENESIS], {})
  {
  }

  lemma Sends(c: Cluster, log: seq<LogEntry>, pool: set<Message>, count: nat, msg: Message)
    requires Leading(c, log, pool) && count < |log| && log[0] == GENESIS
    requires msg == Message(AppendEntriesArgs(1, "a", 0, 0, log[1..1 + count], 0), log[..1 + count])
    ensures Possible(c, Send("a", 0, count, 0))
    ensures Leading(Next(c, Send("a", 0, count, 0)), log, pool + {msg})
  {
    assert Slice(c.nodes["a"], 0, count, 0) == msg.args;
  }

  lemma Proposes(c: Cluster, log: seq<LogEntry>, pool: set<Message>, data: Bytes)
    requires Leading(c, log, pool) && log != [] && log[|log| - 1].index == |log| - 1
    ensures Possible(c, ProposeAt("a", data))
    ensures Leading(Next(c, ProposeAt("a", data)), log + [LogEntry(|log|, 1, data)], pool)
  {
  }

  /** The moves take the two fresh nodes to this state. */
  ghost predicate Reached(moves: seq<Move>, d: Cluster) {
    Run(Pair(), moves) && After(Pair(), moves) == d
  }

  lemma ReachedNext(moves: seq<Move>, d: Cluster, m: Move)
    requires Reached(moves, d) && Possible(d, m)
    ensures Reached(moves + [m], Next(d, m))
  {
    assert [m][1..] == [];
    RunAppend(Pair(), moves, [m]);
  }

  lemma {:induction false} RunAppend(c: Cluster, first: seq<Move>, second: seq<Move>)
    requires Run(c, first) && Run(After(c, first), second)
    ensures Run(c, first + second) && After(c, first + second) == After(After(c, first), second)
    decreases first
  {
    if first == [] {
      assert [] + second == second;
    } else {
      assert (first + second)[1..] == first[1..] + second;
      RunAppend(Next(c, first[0]), first[1..], second);
    }
  }

  lemma ElectionReached() returns (moves: seq<Move>, c: Cluster)
    ensures Reached(moves, c) && Leading(c, [GENESIS], {})
  {
    var first, second := Local("a", ElectionTimeout), Local("a", TallyDoneIn(1));
    assert Reached([], Pair());
    ReachedNext([], Pair(), first);
    Elects(Pair(), Next(Pair(), first));
    ReachedNext([] + [first], Next(Pair(), first), second);
    moves, c := [] + [first] + [second], Next(Next(Pair(), first), second);
  }

  lemma HeartbeatReached() returns (moves: seq<Move>, c: Cluster)
    ensures Reached(moves, c) && Leading(c, [GENESIS], {HEARTBEAT})
  {
    var before, d := ElectionReached();
    Sends(d, [GENESIS], {}, 0, HEARTBEAT);
    ReachedNext(before, d, Send("a", 0, 0, 0));
    moves, c := before + [Send("a", 0, 0, 0)], Next(d, Send("a", 0, 0, 0));
    assert {} + {HEARTBEAT} == {HEARTBEAT};
  }

  lemma ProposalReached(data: Bytes) returns (moves: seq<Move>, c: Cluster)
    ensures Reached(moves, c) && Leading(c, Carrying(data).basis, {HEARTBEAT})
  {
    var before, d := HeartbeatReached();
    Proposes(d, [GENESIS], {HEARTBEAT}, data);
    ReachedNext(before, d, ProposeAt("a", data));
    moves, c := before + [ProposeAt("a", data)], Next(d, ProposeAt("a", data));
    assert [GENESIS] + [LogEntry(1, 1, data)] == Carrying(data).basis;
  }

  lemma SendReached(data: Bytes) returns (moves: seq<Move>, c: Cluster)
    ensures Reached(moves, c) && Leading(c, Carrying(data).basis, {HEARTBEAT} + {Carrying(data)})
  {
    var before, d := ProposalReached(data);
    Sends(d, Carrying(data).basis, {HEARTBEAT}, 1, Carrying(data));
    ReachedNext(before, d, Send("a", 0, 1, 0));
    moves, c := before + [Send("a", 0, 1, 0)], Next(d, Send("a", 0, 1, 0));
  }

  lemma TakesEntry(n: Node, data: Bytes)
    requires n.term == 0 && n.snapshot == ORIGIN && n.log == [GENESIS]
    ensures Accepts(n, Carrying(data).args)
  {
  }

  /** `b` has the entry, and `a` still has it too. */
  ghost predicate Replicated(c: Cluster, data: Bytes) {
    && c.nodes.Keys == c.full.Keys == {"a", "b"} && HEARTBEAT in c.pool
    && (1 in c.owner ==> c.owner[1] == "a")
    && c.full["a"] == c.full["b"] == Carrying(data).basis
    && var n := c.nodes["a"];
       n.id == "a" && n.role.Leader? && n.term == 1 && n.snapshot == ORIGIN && n.log == Carrying(data).basis
  }

  lemma DeliverFrame(c: Cluster, i: string, msg: Message, d: Cluster)
    requires Possible(c, Deliver(i, msg)) && d == Next(c, Deliver(i, msg))
    requires Accepts(c.nodes[i], msg.args) && 0 <= msg.args.prevLogIndex < |c.full[i]|
    ensures d.nodes.Keys == c.nodes.Keys && d.pool == c.pool && d.owner == c.owner
    ensures forall j :: j in c.nodes && j != i ==> d.nodes[j] == c.nodes[j]
    ensures d.full == c.full[i := c.full[i][..msg.args.prevLogIndex + 1] + msg.args.entries]
  {
  }

  lemma ReplicatedFrom(c: Cluster, d: Cluster, data: Bytes)
    requires Leading(c, Carrying(data).basis, {HEARTBEAT} + {Carrying(data)})
    requires d.nodes.Keys == c.nodes.Keys && d.pool == c.pool && d.owner == c.owner
    requires d.nodes["a"] == c.nodes["a"] && d.full == c.full["b" := Carrying(data).basis]
    ensures Replicated(d, data)
  {
  }

  lemma Replicates(c: Cluster, data: Bytes, m: Move, d: Cluster)
    requires Leading(c, Carrying(data).basis, {HEARTBEAT} + {Carrying(data)}) && m == Deliver("b", Carrying(data))
    requires Possible(c, m) && d == Next(c, m)
    ensures Replicated(d, data)
  {
    TakesEntry(c.nodes["b"], data);
    assert [GENESIS][..1] + Carrying(data).args.entries == Carrying(data).basis;
    DeliverFrame(c, "b", Carrying(data), d);
    ReplicatedFrom(c, d, data);
  }

  lemma ReplicationReached(data: Bytes) returns (moves: seq<Move>, c: Cluster)
    ensures Reached(moves, c) && Replicated(c, data)
  {
    var before, d := SendReached(data);
    var m := Deliver("b", Carrying(data));
    Replicates(d, data, m, Next(d, m));
    ReachedNext(before, d, m);
    moves, c := before + [m], Next(d, m);
  }

  lemma CutsBack(n: Node, data: Bytes)
    requires n.role.Leader? && n.term == 1 && n.snapshot == ORIGIN && n.log == Carrying(data).basis
    ensures Accepts(n, HEARTBEAT.args)
    ensures var m := AppendEntries(n, HEARTBEAT.args).0;
            m.id == n.id && m.role.Leader? && m.term == 1 && m.log == [GENESIS]
  {
    AppendFrame(n, HEARTBEAT.args);
  }

  /** `a` has lost the entry to its own heartbeat, and still leads. */
  ghost predicate CutBack(c: Cluster, data: Bytes) {
    && c.nodes.Keys == c.full.Keys == {"a", "b"}
    && (1 in c.owner ==> c.owner[1] == "a")
    && c.full["a"] == [GENESIS] && c.full["b"] == Carrying(data).basis
    && var n := c.nodes["a"];
       n.id == "a" && n.role.Leader? && n.term == 1 && n.log == [GENESIS]
  }

  lemma CutReached(data: Bytes) returns (moves: seq<Move>, c: Cluster)
    ensures Reached(moves, c) && CutBack(c, data)
  {
    var before, d := ReplicationReached(data);
    CutsBack(d.nodes["a"], data);
    ReachedNext(before, d, Deliver("a", HEARTBEAT));
    moves, c := before + [Deliver("a", HEARTBEAT)], Next(d, Deliver("a", HEARTBEAT));
    assert Carrying(data).basis[..1] + [] == [GENESIS];
  }

  lemma CutMismatch(c: Cluster, data: Bytes, other: Bytes, d: Cluster)
    requires CutBack(c, data) && data != other && Possible(c, ProposeAt("a", other))
    requires d == Next(c, ProposeAt("a", other))
    ensures Mismatch(d, "a", "b", 1)
  {
    assert d.full["a"] == [GENESIS] + [LogEntry(1, 1, other)];
    assert d.full["a"][..2][1] != d.full["b"][..2][1];
  }

  lemma PairIsFresh()
    ensures Fresh(Pair())
  {
    assert Pair().full == map i | i in Pair().nodes :: [GENESIS];
  }

  /**
   Without the condition the property fails in a run of two fresh nodes: the leader's own heartbeat, delivered to it
   after it has replicated an entry, takes the entry away, and its next proposal gets the same index and term.
  */
  lemma OwnHeartbeatBreaksMatching(data: Bytes, other: Bytes)
    requires data != other
    ensures Fresh(Pair())
    ensures exists moves :: Run(Pair(), moves) && Mismatch(After(Pair(), moves), "a", "b", 1)
  {
    PairIsFresh();
    var before, d := CutReached(data);
    var m := ProposeAt("a", other);
    ReachedNext(before, d, m);
    CutMismatch(d, data, other, Next(d, m));
  }
}
