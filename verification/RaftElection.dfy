/**
 Elections under every interleaving: each election start spawns one tally goroutine per peer, the goroutines of one
 election share a vote counter and a lock, and each takes the node's lock on its own to promote. Membership changes
 and the majorities they move between are here too, since promotion counts against the peer list.
*/
module RaftElection {
  import opened Bytes
  import opened RaftNode
  import opened RaftInvariant

  // ----- majorities

  ghost predicate Distinct(s: seq<string>) {
    forall i, j :: 0 <= i < j < |s| ==> s[i] != s[j]
  }

  ghost function Members(s: seq<string>): set<string> {
    set p | p in s
  }

  /** A set of peers that passes the promotion threshold. */
  ghost predicate Majority(votes: set<string>, peers: seq<string>) {
    votes <= Members(peers) && |votes| > |peers| / 2
  }

  lemma {:induction false} MembersSize(s: seq<string>)
    ensures |Members(s)| <= |s|
    ensures Distinct(s) ==> |Members(s)| == |s|
  {
    if s == [] {
    } else {
      var init, last := s[..|s| - 1], s[|s| - 1];
      assert s == init + [last];
      assert Members(s) == Members(init) + {last};
      MembersSize(init);
      if Distinct(s) {
        assert last !in Members(init);
      }
    }
  }

  lemma SubsetSize(a: set<string>, b: set<string>)
    requires a <= b
    ensures |a| <= |b|
  {
    assert b == a + (b - a);
  }

  lemma {:induction false} WithoutMembers(peers: seq<string>, id: string)
    ensures Members(Without(peers, id)) == Members(peers) - {id}
  {
    if peers != [] {
      var init, last := peers[..|peers| - 1], peers[|peers| - 1];
      assert peers == init + [last];
      WithoutMembers(init, id);
      assert Members(peers) == Members(init) + {last};
      assert Members(Without(init, id) + [last]) == Members(Without(init, id)) + {last};
    }
  }

  lemma {:induction false} WithoutDistinct(peers: seq<string>, id: string)
    requires Distinct(peers)
    ensures Distinct(Without(peers, id))
  {
    if peers != [] {
      var init, last := peers[..|peers| - 1], peers[|peers| - 1];
      WithoutDistinct(init, id);
      WithoutMembers(init, id);
      var rest := Without(init, id);
      forall i | 0 <= i < |rest|
        ensures rest[i] != last
      {
        assert rest[i] in Members(rest);
      }
    }
  }

  lemma WithoutFilters(peers: seq<string>, id: string)
    ensures Members(Without(peers, id)) == Members(peers) - {id}
    ensures Distinct(peers) ==> Distinct(Without(peers, id))
    ensures Distinct(peers) ==> |Without(peers, id)| == |peers| - if id in peers then 1 else 0
  {
    WithoutMembers(peers, id);
    if Distinct(peers) {
      WithoutDistinct(peers, id);
      MembersSize(peers);
      MembersSize(Without(peers, id));
    }
  }

  /** What removal leaves, list by list: every other peer, as often as before and in the same order. */
  lemma {:induction false} WithoutAppend(p: seq<string>, q: seq<string>, id: string)
    ensures Without(p + q, id) == Without(p, id) + Without(q, id)
    ensures |p| == 1 ==> Without(p, id) == if p[0] == id then [] else p
    decreases |q|
  {
    if q == [] {
      assert p + q == p;
    } else {
      var init := q[..|q| - 1];
      assert (p + q)[..|p + q| - 1] == p + init;
      WithoutAppend(p, init, id);
    }
    if |p| == 1 { assert p[..0] == []; }
  }

  /** Peers never appear twice, if they did not at the start. */
  lemma ChangeKeepsDistinct(n: Node, change: MembershipChange)
    requires Distinct(n.peers)
    ensures Distinct(ChangeMembership(n, change).0.peers)
  {
    WithoutFilters(n.peers, change.nodeID);
  }

  /** What an accepted change does to the set of members: exactly one joins or leaves. */
  lemma ChangeMembers(n: Node, change: MembershipChange)
    ensures var (m, ok) := ChangeMembership(n, change);
            && (ok <==> n.role.Leader? && match change.changeType
                                          case AddNode => change.nodeID !in n.peers
                                          case RemoveNode => change.nodeID in n.peers
                                          case UnknownChange => true)
            && Members(m.peers) == (if ok && change.changeType.AddNode? then Members(n.peers) + {change.nodeID}
                                    else if ok && change.changeType.RemoveNode? then Members(n.peers) - {change.nodeID}
                                    else Members(n.peers))
            && (ok && change.changeType.AddNode? ==> m.peers == n.peers + [change.nodeID])
            && (ok && change.changeType.UnknownChange? ==> m.peers == n.peers)
            && m == n.(peers := m.peers, disk := m.disk)
  {
    WithoutFilters(n.peers, change.nodeID);
    var added := n.peers + [change.nodeID];
    assert Members(added) == Members(n.peers) + {change.nodeID};
  }

  lemma MajoritiesMeet(a: set<string>, b: set<string>, all: set<string>)
    requires a <= all && b <= all && |a| + |b| > |all|
    ensures a * b != {}
  {
    if a * b == {} {
      assert |a + b| == |a| + |b|;
      SubsetSize(a + b, all);
    }
  }

  /** A majority before one membership change and a majority after it always share a member. */
  lemma QuorumsOverlap(n: Node, change: MembershipChange, before: set<string>, after: set<string>)
    requires Distinct(n.peers)
    requires Majority(before, n.peers) && Majority(after, ChangeMembership(n, change).0.peers)
    ensures before * after != {}
  {
    var peers' := ChangeMembership(n, change).0.peers;
    ChangeKeepsDistinct(n, change);
    ChangeMembers(n, change);
    WithoutFilters(n.peers, change.nodeID);
    MembersSize(n.peers);
    MembersSize(peers');
    var all := if |peers'| > |n.peers| then peers' else n.peers;
    MajoritiesMeet(before, after, Members(all));
  }

  lemma {:induction false} SubsetOfSize(s: set<string>, k: nat) returns (t: set<string>)
    requires k <= |s|
    ensures t <= s && |t| == k
    decreases k
  {
    if k == 0 {
      t := {};
    } else {
      var x :| x in s;
      t := SubsetOfSize(s - {x}, k - 1);
      t := t + {x};
    }
  }

  /** How many members a smallest majority of one list must take from those it shares with the other. */
  ghost function Borrows(peers: seq<string>, other: seq<string>): nat {
    Max(0, |peers| / 2 + 1 - |Members(peers) - Members(other)|)
  }

  lemma MajorityBorrows(votes: set<string>, peers: seq<string>, other: seq<string>)
    requires Majority(votes, peers)
    ensures |votes * Members(other)| >= Borrows(peers, other)
  {
    assert votes == (votes - Members(other)) + votes * Members(other);
    SubsetSize(votes - Members(other), Members(peers) - Members(other));
  }

  /** A majority that takes no more of the shared members than it must, out of these. */
  lemma FrugalMajority(peers: seq<string>, other: seq<string>, shared: set<string>) returns (votes: set<string>)
    requires shared <= Members(peers) * Members(other) && |shared| == Borrows(peers, other)
    ensures Majority(votes, peers) && votes * Members(other) <= shared
  {
    var own := Members(peers) - Members(other);
    if |own| > |peers| / 2 {
      votes := own;
    } else {
      votes := own + shared;
      assert own * shared == {};
      assert |votes| == |own| + |shared|;
    }
  }

  /**
   For any two lists, whatever changes lie between them: every majority of one meets every majority of the other if and
   only if together they must borrow more of the shared members than there are.
  */
  lemma QuorumsOverlapIff(p: seq<string>, q: seq<string>)
    ensures (forall x, y :: Majority(x, p) && Majority(y, q) ==> x * y != {})
            <==> Borrows(p, q) + Borrows(q, p) > |Members(p) * Members(q)|
  {
    var both := Members(p) * Members(q);
    if Borrows(p, q) + Borrows(q, p) > |both| {
      forall x, y | Majority(x, p) && Majority(y, q)
        ensures x * y != {}
      {
        MajorityBorrows(x, p, q);
        MajorityBorrows(y, q, p);
        MajoritiesMeet(x * Members(q), y * Members(p), both);
        assert (x * Members(q)) * (y * Members(p)) == x * y;
      }
    } else {
      var first := SubsetOfSize(both, Borrows(p, q));
      var second := SubsetOfSize(both - first, Borrows(q, p));
      var x := FrugalMajority(p, q, first);
      var y := FrugalMajority(q, p, second);
      assert x * y <= first * second;
      assert Majority(x, p) && Majority(y, q) && x * y == {};
    }
  }

  /** Two changes in a row are one too many: from a single peer to three, the majorities can be disjoint. */
  lemma TwoChangesSplit(n: Node, a: string, b: string, c: string)
    requires n.role == Leader && n.peers == [a] && a != b && b != c && a != c
    ensures var m := ChangeMembership(ChangeMembership(n, MembershipChange(AddNode, b)).0,
                                      MembershipChange(AddNode, c)).0;
            Majority({a}, n.peers) && Majority({b, c}, m.peers) && {a} * {b, c} == {}
  {
  }

  // ----- the process: a node and its tally goroutines

  /**
   One election. `peers` is the peer list its loop ranged over, once it got there; `counted` holds the positions whose
   goroutine has counted its vote. A goroutine that saw the threshold passed, against the list `quorum`, keeps the
   election's lock while it waits for the node's.
  */
  datatype Tally = Tally(
    term: int, peers: Option<seq<string>>, votes: int, counted: set<nat>, quorum: Option<seq<string>>)

  datatype Process = Process(node: Node, tallies: seq<Tally>)

  datatype Action =
    | Handle(event: Event)
    | Spawn(election: nat)
    | Count(election: nat, peer: nat)
    | Promote(election: nat)

  /** Actions of one process lifetime: no restart, and promotion only through the tallies. */
  ghost predicate Enabled(p: Process, a: Action) {
    match a
    case Handle(e) => !e.Restart? && !e.TallyDoneIn?
    case Spawn(k) => k < |p.tallies| && p.tallies[k].peers.None?
    case Count(k, i) =>
      && k < |p.tallies| && p.tallies[k].peers.Some? && p.tallies[k].quorum.None?
      && i < |p.tallies[k].peers.value| && p.tallies[k].peers.value[i] != p.node.id && i !in p.tallies[k].counted
    case Promote(k) => k < |p.tallies| && p.tallies[k].quorum.Some?
  }

  function CountVote(t: Tally, peer: nat, peers: seq<string>): Tally {
    var votes := t.votes + 1;
    t.(votes := votes, counted := t.counted + {peer}, quorum := if votes > |peers| / 2 then Some(peers) else None)
  }

  ghost function Act(p: Process, a: Action): Process
    requires Enabled(p, a)
  {
    match a
    case Handle(e) =>
      var node := Step(p.node, e).0;
      Process(node, if e.ElectionTimeout? then p.tallies + [Tally(node.term, None, 1, {}, None)] else p.tallies)
    case Spawn(k) => p.(tallies := p.tallies[k := p.tallies[k].(peers := Some(p.node.peers))])
    case Count(k, i) => p.(tallies := p.tallies[k := CountVote(p.tallies[k], i, p.node.peers)])
    case Promote(k) =>
      Process(TallyDone(p.node, p.tallies[k].term), p.tallies[k := p.tallies[k].(quorum := None)])
  }

  ghost predicate Run(p: Process, actions: seq<Action>)
    decreases actions
  {
    actions == [] || (Enabled(p, actions[0]) && Run(Act(p, actions[0]), actions[1..]))
  }

  ghost function After(p: Process, actions: seq<Action>): Process
    requires Run(p, actions)
    decreases actions
  {
    if actions == [] then p else After(Act(p, actions[0]), actions[1..])
  }

  // ----- roles

  /** Within a term only a candidate's role moves. */
  ghost predicate RoleMove(before: Role, after: Role) {
    before == after || before.Candidate?
  }

  lemma ActMovesRole(p: Process, a: Action)
    requires Enabled(p, a)
    ensures var (n, m) := (p.node, Act(p, a).node);
            && n.term <= m.term
            && (n.term == m.term ==> RoleMove(n.role, m.role))
            && (a.Handle? && n.term == m.term && n.role != m.role ==> m.role.Follower?)
            && (a.Handle? && !n.role.Leader? ==> !m.role.Leader?)
            && (n.term != m.term ==> !m.role.Leader?)
  {
    if a.Handle? && a.event.AppendRequest? {
      if Accepts(p.node, a.event.append) { AppendFrame(p.node, a.event.append); }
      else { RejectFrame(p.node, a.event.append); }
    }
  }

  /**
   Over any stretch of any run: if the term is the same at both ends, the role is too unless it was Candidate. So a
   leader stays leader, and a node that stepped down is never promoted, for as long as the term lasts.
  */
  lemma {:induction false} RoleMachine(p: Process, actions: seq<Action>)
    requires Run(p, actions)
    ensures var (n, m) := (p.node, After(p, actions).node);
            n.term <= m.term && (n.term == m.term ==> RoleMove(n.role, m.role))
    decreases actions
  {
    if actions != [] {
      ActMovesRole(p, actions[0]);
      RoleMachine(Act(p, actions[0]), actions[1..]);
    }
  }

  // ----- promotion

  /** The peers whose goroutines have counted, and the node itself. */
  ghost function Voters(t: Tally, id: string): set<string> {
    {id} + if t.peers.Some? then set i | i in t.counted && i < |t.peers.value| :: t.peers.value[i] else {}
  }

  /** While the node is a candidate in the tally's term, no membership change can have happened since it started. */
  ghost predicate Honest(t: Tally, n: Node) {
    && t.term <= n.term
    && (t.peers.None? ==> t.counted == {})
    && t.votes == 1 + |t.counted|
    && (t.peers.Some? ==> forall i :: i in t.counted ==> i < |t.peers.value| && t.peers.value[i] != n.id)
    && (t.quorum.Some? ==> t.votes > |t.quorum.value| / 2 && t.counted != {})
    && (t.term == n.term && n.role.Candidate? ==>
          && (t.peers.Some? ==> t.peers.value == n.peers)
          && (t.quorum.Some? ==> t.quorum.value == n.peers && |t.counted| <= Max(1, |n.peers| / 2))
          && (t.quorum.None? ==> t.counted == {} || t.votes <= |n.peers| / 2))
  }

  ghost predicate Elections(p: Process) {
    Distinct(p.node.peers) && forall k :: 0 <= k < |p.tallies| ==> Honest(p.tallies[k], p.node)
  }

  /** Only a leader's peers change, so a candidate still has the peers it started with. */
  lemma StepFrame(n: Node, e: Event)
    requires !e.Restart? && !e.TallyDoneIn?
    ensures var m := Step(n, e).0;
            && m.id == n.id && n.term <= m.term
            && (m.peers != n.peers ==> n.role.Leader? && m.role.Leader? && e.Membership?)
            && (m.role.Candidate? && m.term == n.term ==> n.role.Candidate?)
            && (e.ElectionTimeout? ==> m.term == n.term + 1)
  {
    if e.AppendRequest? {
      if Accepts(n, e.append) { AppendFrame(n, e.append); } else { RejectFrame(n, e.append); }
    }
  }

  lemma HandleKeepsHonest(t: Tally, n: Node, e: Event)
    requires Honest(t, n) && !e.Restart? && !e.TallyDoneIn?
    ensures Honest(t, Step(n, e).0)
  {
    StepFrame(n, e);
  }

  lemma CountKeepsHonest(t: Tally, n: Node, i: nat)
    requires Honest(t, n) && t.peers.Some? && t.quorum.None?
    requires i < |t.peers.value| && t.peers.value[i] != n.id && i !in t.counted
    ensures Honest(CountVote(t, i, n.peers), n)
  {
    assert |t.counted + {i}| == |t.counted| + 1;
  }

  lemma HandleKeepsElections(p: Process, e: Event)
    requires Elections(p) && Enabled(p, Handle(e))
    ensures Elections(Act(p, Handle(e)))
  {
    var q := Act(p, Handle(e));
    StepFrame(p.node, e);
    if e.Membership? { ChangeKeepsDistinct(p.node, e.change); }
    forall k | 0 <= k < |q.tallies|
      ensures Honest(q.tallies[k], q.node)
    {
      if k < |p.tallies| { HandleKeepsHonest(p.tallies[k], p.node, e); }
    }
  }

  lemma ActKeepsElections(p: Process, a: Action)
    requires Elections(p) && Enabled(p, a)
    ensures Elections(Act(p, a))
  {
    match a
    case Handle(e) => HandleKeepsElections(p, e);
    case Count(k, i) => CountKeepsHonest(p.tallies[k], p.node, i);
    case _ =>
  }

  lemma {:induction false} RunKeepsElections(p: Process, actions: seq<Action>)
    requires Elections(p) && Run(p, actions)
    ensures Elections(After(p, actions))
    decreases actions
  {
    if actions != [] {
      ActKeepsElections(p, actions[0]);
      RunKeepsElections(Act(p, actions[0]), actions[1..]);
    }
  }

  lemma {:induction false} PositionsToNames(peers: seq<string>, positions: set<nat>)
    requires Distinct(peers) && forall i :: i in positions ==> i < |peers|
    ensures |set i | i in positions :: peers[i]| == |positions|
  {
    if positions != {} {
      var i :| i in positions;
      var rest := positions - {i};
      PositionsToNames(peers, rest);
      assert (set j | j in positions :: peers[j]) == (set j | j in rest :: peers[j]) + {peers[i]};
      assert peers[i] !in (set j | j in rest :: peers[j]);
    }
  }

  /** The peers counted for a candidate, itself included if it is one of them. */
  ghost function Backers(t: Tally, n: Node): set<string> {
    Voters(t, n.id) * Members(n.peers)
  }

  lemma BackersSize(t: Tally, n: Node)
    requires Distinct(n.peers) && t.peers == Some(n.peers)
    requires forall i :: i in t.counted ==> i < |n.peers| && n.peers[i] != n.id
    ensures |Backers(t, n)| == |t.counted| + if n.id in n.peers then 1 else 0
  {
    var names := set i | i in t.counted :: n.peers[i];
    PositionsToNames(n.peers, t.counted);
    BackersNames(t, n, names);
  }

  lemma BackersNames(t: Tally, n: Node, names: set<string>)
    requires t.peers == Some(n.peers) && names == set i | i in t.counted && i < |n.peers| :: n.peers[i]
    ensures Backers(t, n) == if n.id in n.peers then {n.id} + names else names
  {
    assert names <= Members(n.peers);
  }

  lemma CountedSize(t: Tally, n: Node)
    requires Distinct(n.peers) && t.peers == Some(n.peers)
    requires forall i :: i in t.counted ==> i < |n.peers| && n.peers[i] != n.id
    ensures |t.counted| <= |n.peers|
  {
    var names := set i | i in t.counted :: n.peers[i];
    PositionsToNames(n.peers, t.counted);
    SubsetSize(names, Members(n.peers));
    MembersSize(n.peers);
  }

  lemma BackersAreMajorityIff(t: Tally, n: Node)
    requires Honest(t, n) && Distinct(n.peers) && n.role.Candidate? && t.term == n.term && t.quorum.Some?
    ensures Majority(Backers(t, n), n.peers) <==> n.id in n.peers || |t.counted| > |n.peers| / 2
    ensures Majority(Backers(t, n), n.peers) <==> n.id in n.peers || |n.peers| == 1
  {
    BackersSize(t, n);
    CountedSize(t, n);
  }

  /**
   Promotion, in any run of any process: it happens only in the tally's own term, to a candidate. The peers counted,
   each once, are a true majority of the peers it has at that moment if and only if it is one of them itself, or there
   is just one: the tally starts with a vote for the node whether or not that vote is any peer's.
  */
  lemma PromotionHasMajorityIff(p: Process, actions: seq<Action>, k: nat)
    requires Elections(p) && Run(p, actions) && Enabled(After(p, actions), Promote(k))
    ensures var q := After(p, actions);
            var (n, t) := (q.node, q.tallies[k]);
            Act(q, Promote(k)).node.role.Leader? && !n.role.Leader? ==>
              && t.term == n.term == Act(q, Promote(k)).node.term && n.role.Candidate?
              && (Majority(Backers(t, n), n.peers) <==> n.id in n.peers || |n.peers| == 1)
              && (Majority(Backers(t, n), n.peers) <==> n.id in n.peers || |t.counted| > |n.peers| / 2)
  {
    RunKeepsElections(p, actions);
    var q := After(p, actions);
    if q.node.role.Candidate? && q.tallies[k].term == q.node.term {
      BackersAreMajorityIff(q.tallies[k], q.node);
    }
  }

  /** In particular for a process just started on any storage with a list of distinct peers. */
  lemma PromotionSinceStart(id: string, peers: seq<string>, disk: Disk, actions: seq<Action>, k: nat)
    requires Distinct(peers) && Run(Process(Start(id, peers, disk), []), actions)
    requires Enabled(After(Process(Start(id, peers, disk), []), actions), Promote(k))
    ensures var q := After(Process(Start(id, peers, disk), []), actions);
            Act(q, Promote(k)).node.role.Leader? && !q.node.role.Leader? ==>
              && q.node.id == id
              && (Majority(Backers(q.tallies[k], q.node), q.node.peers) <==> id in q.node.peers || |q.node.peers| == 1)
  {
    PromotionHasMajorityIff(Process(Start(id, peers, disk), []), actions, k);
    RunKeepsId(Process(Start(id, peers, disk), []), actions);
  }

  lemma {:induction false} RunKeepsId(p: Process, actions: seq<Action>)
    requires Run(p, actions)
    ensures After(p, actions).node.id == p.node.id
    decreases actions
  {
    if actions != [] {
      if actions[0].Handle? { StepFrame(p.node, actions[0].event); }
      RunKeepsId(Act(p, actions[0]), actions[1..]);
    }
  }

  // ----- who can lead, and that nobody need be asked

  /** The positions of a list that name someone else. */
  ghost function Others(peers: seq<string>, id: string): set<nat> {
    set i: nat | i < |peers| && peers[i] != id
  }

  /** Counting everybody else passes the threshold. */
  ghost predicate CanLead(peers: seq<string>, id: string) {
    Others(peers, id) != {} && 1 + |Others(peers, id)| > |peers| / 2
  }

  lemma PositionsSubset(a: set<nat>, b: set<nat>)
    requires a <= b
    ensures |a| <= |b| && (|a| == |b| ==> a == b)
  {
    assert b == a + (b - a);
  }

  ghost predicate Hopeless(t: Tally, n: Node) {
    && t.quorum.None? && t.votes == 1 + |t.counted| && t.counted <= Others(n.peers, n.id)
    && (t.peers.Some? ==> t.peers.value == n.peers)
  }

  /** A count that a list cannot carry past the threshold never makes a leader, in any run. */
  lemma {:induction false} NeverLeads(p: Process, actions: seq<Action>)
    requires Run(p, actions) && !p.node.role.Leader? && !CanLead(p.node.peers, p.node.id)
    requires forall k :: 0 <= k < |p.tallies| ==> Hopeless(p.tallies[k], p.node)
    ensures !After(p, actions).node.role.Leader?
    decreases actions
  {
    if actions != [] {
      var a := actions[0];
      match a {
        case Handle(e) => StepFrame(p.node, e); ActMovesRole(p, a);
        case Count(k, i) =>
          assert |p.tallies[k].counted + {i}| == |p.tallies[k].counted| + 1;
          PositionsSubset(p.tallies[k].counted + {i}, Others(p.node.peers, p.node.id));
        case _ =>
      }
      NeverLeads(Act(p, a), actions[1..]);
    }
  }

  /** Nobody else is counted for a node whose only peer is itself, so it never becomes leader. */
  lemma {:induction false} SoleNodeNeverLeads(p: Process, actions: seq<Action>)
    requires Run(p, actions) && !p.node.role.Leader?
    requires forall i :: 0 <= i < |p.node.peers| ==> p.node.peers[i] == p.node.id
    requires forall k :: 0 <= k < |p.tallies| ==>
               && p.tallies[k].quorum.None?
               && (p.tallies[k].peers.Some? ==> p.tallies[k].peers.value == p.node.peers)
    ensures !After(p, actions).node.role.Leader?
    decreases actions
  {
    if actions != [] {
      var a := actions[0];
      match a {
        case Handle(e) => StepFrame(p.node, e); ActMovesRole(p, a);
        case _ =>
      }
      SoleNodeNeverLeads(Act(p, a), actions[1..]);
    }
  }

  /** An action of the process alone: no message is received. */
  ghost predicate Unprompted(a: Action) {
    a.Handle? ==> a.event.ElectionTimeout?
  }

  ghost predicate UnpromptedRun(p: Process, actions: seq<Action>) {
    Run(p, actions) && forall a :: a in actions ==> Unprompted(a)
  }

  lemma RunCons(p: Process, a: Action, rest: seq<Action>)
    requires Enabled(p, a) && Unprompted(a) && UnpromptedRun(Act(p, a), rest)
    ensures UnpromptedRun(p, [a] + rest) && After(p, [a] + rest) == After(Act(p, a), rest)
  {
    assert ([a] + rest)[1..] == rest;
  }

  lemma {:induction false} RunAppend(p: Process, first: seq<Action>, second: seq<Action>)
    requires Run(p, first) && Run(After(p, first), second)
    ensures Run(p, first + second) && After(p, first + second) == After(After(p, first), second)
    decreases first
  {
    if first == [] {
      assert [] + second == second;
    } else {
      assert (first + second)[1..] == first[1..] + second;
      RunAppend(Act(p, first[0]), first[1..], second);
    }
  }

  /** The candidate's election k is under way, and counting everybody passes the threshold. */
  ghost predicate Counting(p: Process, k: nat) {
    && p.node.role.Candidate? && k < |p.tallies| && CanLead(p.node.peers, p.node.id)
    && var t := p.tallies[k];
    && t.term == p.node.term && t.peers == Some(p.node.peers) && t.votes == 1 + |t.counted| && t.quorum.None?
    && t.counted < Others(p.node.peers, p.node.id)
  }

  /** A tally about to promote its candidate. */
  ghost predicate AboutToLead(p: Process, k: nat) {
    Enabled(p, Promote(k)) && p.node.role.Candidate? && p.tallies[k].term == p.node.term
  }

  /** Counting on reaches the threshold before the peers run out. */
  lemma {:induction false} CountsUp(p: Process, k: nat) returns (actions: seq<Action>)
    requires Counting(p, k)
    ensures UnpromptedRun(p, actions) && After(p, actions).node == p.node && AboutToLead(After(p, actions), k)
    decreases |Others(p.node.peers, p.node.id) - p.tallies[k].counted|
  {
    var all, t := Others(p.node.peers, p.node.id), p.tallies[k];
    assert all - t.counted != {} by {
      assert exists i :: i in all && i !in t.counted;
    }
    var i :| i in all - t.counted;
    var q := Act(p, Count(k, i));
    assert |t.counted + {i}| == |t.counted| + 1;
    assert all - (t.counted + {i}) == (all - t.counted) - {i};
    var rest := [];
    if q.tallies[k].quorum.None? {
      rest := CountsUp(q, k);
    }
    RunCons(p, Count(k, i), rest);
    actions := [Count(k, i)] + rest;
  }

  /** A process whose list can carry it comes to the point of leading its next term with no message received at all. */
  lemma StandsUnprompted(p: Process) returns (actions: seq<Action>, k: nat)
    requires CanLead(p.node.peers, p.node.id)
    ensures UnpromptedRun(p, actions) && AboutToLead(After(p, actions), k)
    ensures After(p, actions).node == Elect(p.node)
  {
    k := |p.tallies|;
    var timeout := Handle(ElectionTimeout);
    var q := Act(p, timeout);
    var r := Act(q, Spawn(k));
    var rest := CountsUp(r, k);
    RunCons(q, Spawn(k), rest);
    RunCons(p, timeout, [Spawn(k)] + rest);
    actions := [timeout] + ([Spawn(k)] + rest);
  }

  lemma LeadsUnprompted(p: Process) returns (actions: seq<Action>)
    requires CanLead(p.node.peers, p.node.id)
    ensures UnpromptedRun(p, actions)
    ensures After(p, actions).node.role.Leader? && After(p, actions).node.term == p.node.term + 1
    ensures After(p, actions).node.peers == p.node.peers && After(p, actions).node.id == p.node.id
  {
    var before, k := StandsUnprompted(p);
    assert [Promote(k)][1..] == [];
    RunAppend(p, before, [Promote(k)]);
    actions := before + [Promote(k)];
  }

  /**
   A process just started can become leader, in whatever run, if and only if its list can carry it; and then it can
   without receiving a message.
  */
  lemma CanLeadIff(id: string, peers: seq<string>, disk: Disk)
    ensures var p := Process(Start(id, peers, disk), []);
            && (CanLead(peers, id) ==>
                  exists actions :: UnpromptedRun(p, actions) && After(p, actions).node.role.Leader?)
            && ((exists actions :: Run(p, actions) && After(p, actions).node.role.Leader?) ==> CanLead(peers, id))
    ensures Distinct(peers) ==> (CanLead(peers, id) <==> exists peer :: peer in peers && peer != id)
  {
    var p := Process(Start(id, peers, disk), []);
    if CanLead(peers, id) {
      var actions := LeadsUnprompted(p);
    } else {
      forall actions | Run(p, actions)
        ensures !After(p, actions).node.role.Leader?
      {
        NeverLeads(p, actions);
      }
    }
    if Distinct(peers) { DistinctCanLead(peers, id); }
  }

  lemma DistinctCanLead(peers: seq<string>, id: string)
    requires Distinct(peers)
    ensures CanLead(peers, id) <==> exists peer :: peer in peers && peer != id
  {
    OthersSize(peers, id);
    if peer :| peer in peers && peer != id {
      var i: nat :| i < |peers| && peers[i] == peer;
      assert i in Others(peers, id);
    }
    if CanLead(peers, id) {
      var i :| i in Others(peers, id);
      assert peers[i] in peers;
    }
  }

  lemma OthersLast(init: seq<string>, last: string, id: string)
    ensures Others(init + [last], id) == Others(init, id) + if last != id then {|init|} else {}
    ensures |Others(init + [last], id)| == |Others(init, id)| + if last != id then 1 else 0
  {
    assert |init| !in Others(init, id);
    assert Others(init + [last], id) == Others(init, id) + if last != id then {|init|} else {};
  }

  lemma {:induction false} OthersSize(peers: seq<string>, id: string)
    requires Distinct(peers)
    ensures |Others(peers, id)| == |peers| - if id in peers then 1 else 0
  {
    if peers != [] {
      var init, last := peers[..|peers| - 1], peers[|peers| - 1];
      assert peers == init + [last];
      OthersSize(init, id);
      OthersLast(init, last, id);
    }
  }

  // ----- who gives a read index, and whose proposals are accepted

  /** Some promotion of the run made the node leader of this term. */
  ghost predicate MadeLeader(p: Process, actions: seq<Action>, term: int)
    requires Run(p, actions)
    decreases actions
  {
    actions != [] &&
    ((actions[0].Promote? && p.node.role.Candidate? && p.node.term == p.tallies[actions[0].election].term == term)
     || MadeLeader(Act(p, actions[0]), actions[1..], term))
  }

  lemma LeadsNext(p: Process, a: Action, term: int)
    requires Enabled(p, a) && Act(p, a).node.term <= term
    ensures Act(p, a).node.role.Leader? && Act(p, a).node.term == term
            <==> || (p.node.role.Leader? && p.node.term == term)
                 || (a.Promote? && p.node.role.Candidate? && p.node.term == p.tallies[a.election].term == term)
  {
    ActMovesRole(p, a);
  }

  lemma {:induction false} LeadsIff(p: Process, actions: seq<Action>)
    requires Run(p, actions)
    ensures var n := After(p, actions).node;
            n.role.Leader? <==> (p.node.role.Leader? && p.node.term == n.term) || MadeLeader(p, actions, n.term)
    decreases actions
  {
    if actions != [] {
      var q := Act(p, actions[0]);
      RoleMachine(q, actions[1..]);
      LeadsNext(p, actions[0], After(p, actions).node.term);
      LeadsIff(q, actions[1..]);
    }
  }

  /**
   In any run of a process that does not start as a leader, it gives a read index, and accepts proposals and membership
   changes, if and only if a promotion in the run made it leader of the term it is in.
  */
  lemma ServesIff(p: Process, actions: seq<Action>, data: Bytes, id: string)
    requires Run(p, actions) && !p.node.role.Leader?
    ensures var n := After(p, actions).node;
            && (ReadIndex(n).Some? <==> MadeLeader(p, actions, n.term))
            && (ReadIndex(n).Some? ==> ReadIndex(n).value == (n.commitIndex, n.term))
            && (Propose(n, data).1 <==> MadeLeader(p, actions, n.term))
            && (ChangeMembership(n, MembershipChange(UnknownChange, id)).1 <==> MadeLeader(p, actions, n.term))
  {
    LeadsIff(p, actions);
  }

  /** Started with a list that cannot carry it, a process never gives a read index and never accepts a proposal. */
  lemma NeverServes(id: string, peers: seq<string>, disk: Disk, actions: seq<Action>, data: Bytes)
    requires !CanLead(peers, id) && Run(Process(Start(id, peers, disk), []), actions)
    ensures var n := After(Process(Start(id, peers, disk), []), actions).node;
            ReadIndex(n) == None && Propose(n, data) == (n, false)
  {
    NeverLeads(Process(Start(id, peers, disk), []), actions);
  }

  /** A request of a later term. */
  ghost predicate OfLaterTerm(a: Action, term: int) {
    && a.Handle?
    && (a.event.VoteRequest? || a.event.AppendRequest?)
    && term < if a.event.VoteRequest? then a.event.vote.term else a.event.append.term
  }

  /** After a request of a later term it gives none, and goes on to give none until it is promoted again. */
  lemma LaterTermEndsService(p: Process, a: Action, rest: seq<Action>)
    requires Enabled(p, a) && OfLaterTerm(a, p.node.term) && Run(Act(p, a), rest)
    ensures ReadIndex(Act(p, a).node) == None
    ensures var n := After(Act(p, a), rest).node;
            ReadIndex(n).Some? <==> MadeLeader(Act(p, a), rest, n.term)
  {
    if a.event.AppendRequest? {
      if Accepts(p.node, a.event.append) { AppendFrame(p.node, a.event.append); }
      else { RejectFrame(p.node, a.event.append); }
    }
    LeadsIff(Act(p, a), rest);
  }

  // ----- what that costs

  /** Any two fresh nodes of a cluster can both lead term 1, neither having heard from anyone. */
  lemma TwoLeadersOneTerm(peers: seq<string>, a: string, b: string)
    requires Distinct(peers) && a in peers && b in peers && a != b
    ensures exists p, q ::
              && UnpromptedRun(Process(Start(a, peers, Empty), []), p)
              && UnpromptedRun(Process(Start(b, peers, Empty), []), q)
              && var (n, m) := (After(Process(Start(a, peers, Empty), []), p).node,
                                After(Process(Start(b, peers, Empty), []), q).node);
              && n.role.Leader? && m.role.Leader? && n.term == m.term == 1
  {
    DistinctCanLead(peers, a);
    DistinctCanLead(peers, b);
    var p := LeadsUnprompted(Process(Start(a, peers, Empty), []));
    var q := LeadsUnprompted(Process(Start(b, peers, Empty), []));
  }

  /** This run ends in a promotion without a majority. */
  ghost predicate PromotesMinority(p: Process, actions: seq<Action>, k: nat) {
    && Run(p, actions) && Enabled(After(p, actions), Promote(k))
    && var q := After(p, actions);
    && Act(q, Promote(k)).node.role.Leader? && !q.node.role.Leader?
    && !Majority(Backers(q.tallies[k], q.node), q.node.peers)
  }

  lemma MinorityLeads(p: Process) returns (actions: seq<Action>, k: nat)
    requires Elections(p) && p.node.id !in p.node.peers && |p.node.peers| >= 2
    ensures PromotesMinority(p, actions, k)
  {
    assert p.node.peers[0] in p.node.peers;
    DistinctCanLead(p.node.peers, p.node.id);
    actions, k := StandsUnprompted(p);
    PromotionHasMajorityIff(p, actions, k);
  }

  /** A node started outside its own list, over two or more peers, can be promoted without a majority. */
  lemma OutsiderLeads(id: string, peers: seq<string>, disk: Disk)
    requires Distinct(peers) && id !in peers && |peers| >= 2
    ensures exists actions, k :: PromotesMinority(Process(Start(id, peers, disk), []), actions, k)
  {
    var actions, k := MinorityLeads(Process(Start(id, peers, disk), []));
  }

  /** A leader takes itself off the list and steps down for a candidate of a later term. */
  ghost function Leave(n: Node): seq<Action> {
    [Handle(Membership(MembershipChange(RemoveNode, n.id))),
     Handle(VoteRequest(RequestVoteArgs(n.term + 1, "", 0, 0)))]
  }

  lemma RunTwo(p: Process, a: Action, b: Action)
    requires Enabled(p, a) && Enabled(Act(p, a), b)
    ensures Run(p, [a, b]) && After(p, [a, b]) == Act(Act(p, a), b)
  {
    assert [a, b][1..] == [b] && [b][1..] == [];
    assert After(Act(p, a), [b]) == Act(Act(p, a), b);
  }

  lemma LeaverIsOutside(p: Process)
    requires Elections(p) && p.node.role.Leader? && p.node.id in p.node.peers && |p.node.peers| >= 3
    ensures Run(p, Leave(p.node)) && Elections(After(p, Leave(p.node)))
    ensures var n := After(p, Leave(p.node)).node;
            n.role.Follower? && n.id !in n.peers && |n.peers| >= 2
  {
    var leave, later := Leave(p.node)[0], Leave(p.node)[1];
    var q := Act(p, leave);
    WithoutFilters(p.node.peers, p.node.id);
    assert p.node.id !in q.node.peers by {
      assert p.node.id !in Members(q.node.peers);
    }
    RunTwo(p, leave, later);
    RunKeepsElections(p, Leave(p.node));
  }

  /** And so can a node of any list of three or more, once it has led, taken itself off the list and stepped down. */
  lemma RemovedLeaderLeads(id: string, peers: seq<string>, disk: Disk)
    requires Distinct(peers) && id in peers && |peers| >= 3
    ensures exists actions, k :: PromotesMinority(Process(Start(id, peers, disk), []), actions, k)
  {
    var p := Process(Start(id, peers, disk), []);
    assert peers[0] in peers && peers[1] in peers;
    DistinctCanLead(peers, id);
    var first := LeadsUnprompted(p);
    RunKeepsElections(p, first);
    var q := After(p, first);
    LeaverIsOutside(q);
    var r := After(q, Leave(q.node));
    var last, k := MinorityLeads(r);
    RunAppend(q, Leave(q.node), last);
    RunAppend(p, first, Leave(q.node) + last);
    assert PromotesMinority(p, first + (Leave(q.node) + last), k);
  }
}
