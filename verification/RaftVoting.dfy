/** Votes per term, over runs with crashes. */
module RaftVoting {
  import opened RaftNode
  import opened RaftInvariant

  datatype Ballot = Ballot(term: int, candidate: string)

  /** The vote a step casts: a granted request, or the node's own vote when it starts an election. */
  function Cast(n: Node, e: Event): seq<Ballot> {
    match e
    case ElectionTimeout => [Ballot(Elect(n).term, n.id)]
    case VoteRequest(a) => if RequestVote(n, a).1.voteGranted then [Ballot(a.term, a.candidateID)] else []
    case _ => []
  }

  function Ballots(n: Node, events: seq<Event>): seq<Ballot>
    decreases events
  {
    if events == [] then [] else Cast(n, events[0]) + Ballots(Step(n, events[0]).0, events[1..])
  }

  ghost predicate NamedCandidates(events: seq<Event>) {
    forall e :: e in events && e.VoteRequest? ==> e.vote.candidateID != ""
  }

  /** A candidate hears an AppendEntries of its own term, which makes it forget that it voted for itself. */
  ghost predicate ForgetsOwnVote(n: Node, e: Event) {
    e.AppendRequest? && n.role.Candidate? && e.append.term == n.term
  }

  ghost predicate NeverForgets(n: Node, events: seq<Event>)
    decreases events
  {
    events == [] || (!ForgetsOwnVote(n, events[0]) && NeverForgets(Step(n, events[0]).0, events[1..]))
  }

  // ----- what the node and its disk remember

  ghost predicate Voter(n: Node) {
    && n.id != "" && !n.disk.NoStorage?
    && OnDisk(n.disk).term <= n.term
    && (n.role != Follower ==> n.votedFor == n.id)
  }

  /** The ballot is still remembered wherever its term is current, and no disk is older than it. */
  ghost predicate Remembers(n: Node, b: Ballot) {
    && b.term <= OnDisk(n.disk).term
    && (b.term == OnDisk(n.disk).term ==> OnDisk(n.disk).votedFor == b.candidate)
    && (b.term == n.term ==> n.votedFor == b.candidate)
  }

  lemma StepKeepsVoter(n: Node, e: Event)
    requires Voter(n)
    ensures Voter(Step(n, e).0) && Step(n, e).0.id == n.id
  {
    if e.AppendRequest? {
      if Accepts(n, e.append) { AppendFrame(n, e.append); } else { RejectFrame(n, e.append); }
    }
  }

  lemma StepKeepsMemory(n: Node, e: Event, b: Ballot)
    requires Voter(n) && Remembers(n, b) && b.candidate != ""
    requires b.candidate != n.id || !ForgetsOwnVote(n, e)
    ensures Remembers(Step(n, e).0, b)
  {
    if e.AppendRequest? {
      if Accepts(n, e.append) { AppendFrame(n, e.append); } else { RejectFrame(n, e.append); }
    }
  }

  lemma CastIsRemembered(n: Node, e: Event, b: Ballot)
    requires Voter(n) && b in Cast(n, e)
    ensures Remembers(Step(n, e).0, b)
  {
  }

  lemma CastAgrees(n: Node, e: Event, b: Ballot, earlier: Ballot)
    requires Voter(n) && Remembers(n, earlier) && earlier.candidate != ""
    requires b in Cast(n, e) && b.term == earlier.term
    ensures b.candidate == earlier.candidate
  {
  }

  // ----- runs

  /** Ballots that count: all of them, or only those for others. */
  ghost predicate Counts(b: Ballot, id: string, own: bool) {
    own || b.candidate != id
  }

  ghost predicate OnePerTerm(ballots: seq<Ballot>, id: string, own: bool) {
    forall i, j :: (0 <= i < j < |ballots| && Counts(ballots[i], id, own) && Counts(ballots[j], id, own)
                    && ballots[i].term == ballots[j].term) ==> ballots[i].candidate == ballots[j].candidate
  }

  ghost predicate RemembersAll(n: Node, past: seq<Ballot>, own: bool) {
    forall b :: b in past && Counts(b, n.id, own) ==> b.candidate != "" && Remembers(n, b)
  }

  lemma StepKeepsOnePerTerm(n: Node, e: Event, past: seq<Ballot>, own: bool)
    requires Voter(n) && NamedCandidates([e]) && (own ==> !ForgetsOwnVote(n, e))
    requires RemembersAll(n, past, own) && OnePerTerm(past, n.id, own)
    ensures RemembersAll(Step(n, e).0, past + Cast(n, e), own)
    ensures OnePerTerm(past + Cast(n, e), n.id, own)
  {
    var now := past + Cast(n, e);
    StepKeepsVoter(n, e);
    assert e in [e];
    forall b | b in now && Counts(b, n.id, own)
      ensures b.candidate != "" && Remembers(Step(n, e).0, b)
    {
      if b in past {
        StepKeepsMemory(n, e, b);
      } else {
        CastIsRemembered(n, e, b);
      }
    }
    forall i, j | 0 <= i < j < |now| && Counts(now[i], n.id, own) && Counts(now[j], n.id, own)
                  && now[i].term == now[j].term
      ensures now[i].candidate == now[j].candidate
    {
      if j >= |past| {
        assert now[j] in Cast(n, e);
        assert i < |past| ==> now[i] in past;
        if i < |past| { CastAgrees(n, e, now[j], now[i]); }
      }
    }
  }

  lemma {:induction false} RunVotesOnce(n: Node, past: seq<Ballot>, events: seq<Event>, own: bool)
    requires Voter(n) && NamedCandidates(events) && (own ==> NeverForgets(n, events))
    requires RemembersAll(n, past, own) && OnePerTerm(past, n.id, own)
    ensures OnePerTerm(past + Ballots(n, events), n.id, own)
    decreases events
  {
    if events == [] {
      assert past + [] == past;
    } else {
      var e, m := events[0], Step(n, events[0]).0;
      StepKeepsVoter(n, e);
      StepKeepsOnePerTerm(n, e, past, own);
      RunVotesOnce(m, past + Cast(n, e), events[1..], own);
      assert past + Ballots(n, events) == past + Cast(n, e) + Ballots(m, events[1..]);
    }
  }

  /** Across elections, requests and crashes, a node votes for at most one candidate other than itself per term. */
  lemma OneVoteForOthers(id: string, peers: seq<string>, disk: Disk, events: seq<Event>)
    requires id != "" && !disk.NoStorage? && NamedCandidates(events)
    ensures OnePerTerm(Ballots(Start(id, peers, disk), events), id, false)
  {
    var n := Start(id, peers, disk);
    RunVotesOnce(n, [], events, false);
    assert [] + Ballots(n, events) == Ballots(n, events);
  }

  /** Counting its own votes too, it votes once per term in every run where no candidate hears from its own term. */
  lemma OneVoteCountingOwn(id: string, peers: seq<string>, disk: Disk, events: seq<Event>)
    requires id != "" && !disk.NoStorage? && NamedCandidates(events)
    requires NeverForgets(Start(id, peers, disk), events)
    ensures OnePerTerm(Ballots(Start(id, peers, disk), events), id, true)
  {
    var n := Start(id, peers, disk);
    RunVotesOnce(n, [], events, true);
    assert [] + Ballots(n, events) == Ballots(n, events);
  }

  /** And that condition is exact: after such a message, and no other, someone can collect a second vote. */
  lemma SecondVoteIff(n: Node, a: AppendEntriesArgs)
    requires Voter(n) && n.role.Candidate?
    ensures (exists v: RequestVoteArgs ::
               v.term == n.term && v.candidateID != "" && v.candidateID != n.id
               && RequestVote(AppendEntries(n, a).0, v).1.voteGranted)
            <==> ForgetsOwnVote(n, AppendRequest(a))
  {
    if Accepts(n, a) { AppendFrame(n, a); } else { RejectFrame(n, a); }
    if a.term == n.term {
      var m := AppendEntries(n, a).0;
      var other := n.id + "'";
      assert |other| == |n.id| + 1;
      var v := RequestVoteArgs(n.term, other, LastLogIndex(m), 0);
      assert RequestVote(m, v).1.voteGranted;
    }
  }

  // ----- who gets a vote

  /** The candidate's log ends nowhere before what the node holds. */
  ghost predicate UpToDate(n: Node, lastLogIndex: int) {
    && (forall e :: e in n.log ==> e.index <= lastLogIndex)
    && (n.log == [] ==> n.snapshot.lastIncludedIndex <= lastLogIndex)
  }

  lemma UpToDateIff(n: Node, lastLogIndex: int)
    requires WellIndexed(n) || n.log == []
    ensures UpToDate(n, lastLogIndex) <==> LastLogIndex(n) <= lastLogIndex
  {
    if n.log != [] {
      assert n.log[|n.log| - 1] in n.log;
      forall e | e in n.log && LastLogIndex(n) <= lastLogIndex
        ensures e.index <= lastLogIndex
      {
        var i :| 0 <= i < |n.log| && n.log[i] == e;
      }
    }
  }

  /**
   A vote is granted if and only if the request is not stale, no vote of that term for someone else bars it, and every
   entry the node holds is covered; the term of the candidate's last entry is never looked at.
  */
  lemma VoteGrantedIff(n: Node, a: RequestVoteArgs)
    requires WellIndexed(n) || n.log == []
    ensures RequestVote(n, a).1.voteGranted
            <==> && a.term >= n.term
                 && !(a.term == n.term && n.votedFor != "" && n.votedFor != a.candidateID)
                 && UpToDate(n, a.lastLogIndex)
  {
    UpToDateIff(n, a.lastLogIndex);
  }

  /** What a vote request leaves behind, and that it touches nothing else but storage. */
  lemma VoteRequestFrame(n: Node, a: RequestVoteArgs)
    ensures var (m, r) := RequestVote(n, a);
            && m == n.(term := m.term, votedFor := m.votedFor, role := m.role, disk := m.disk)
            && m.term == Max(n.term, a.term) && r.term == n.term
            && m.role == (if a.term > n.term then Follower else n.role)
            && (r.voteGranted ==> m.votedFor == a.candidateID)
            && (!r.voteGranted ==> m.votedFor == if a.term > n.term then "" else n.votedFor)
  {
  }

  /**
   After any run that keeps the log invariant: who gets the vote has a log as long as all that is committed, and who
   comes with a later term and a log as long as the node's always gets it.
  */
  lemma VoteCoversCommitted(n: Node, events: seq<Event>, a: RequestVoteArgs)
    requires RepInv(n) && Synced(n) && WellBehaved(n, events)
    ensures var m := Exec(n, events);
            && (RequestVote(m, a).1.voteGranted ==> m.commitIndex <= a.lastLogIndex && UpToDate(m, a.lastLogIndex))
            && (a.term > m.term && UpToDate(m, a.lastLogIndex) ==> RequestVote(m, a).1.voteGranted)
  {
    RunKeepsInvariant(n, events);
    VoteGrantedIff(Exec(n, events), a);
    UpToDateIff(Exec(n, events), a.lastLogIndex);
  }

  /** The vote in memory, and the one on disk, are votes cast. */
  ghost predicate CastBefore(n: Node, past: seq<Ballot>) {
    && (n.votedFor != "" ==> Ballot(n.term, n.votedFor) in past)
    && (OnDisk(n.disk).votedFor != "" ==> Ballot(OnDisk(n.disk).term, OnDisk(n.disk).votedFor) in past)
  }

  lemma StepKeepsCast(n: Node, e: Event, past: seq<Ballot>)
    requires CastBefore(n, past)
    ensures CastBefore(Step(n, e).0, past + Cast(n, e))
  {
    if e.AppendRequest? {
      if Accepts(n, e.append) { AppendFrame(n, e.append); } else { RejectFrame(n, e.append); }
    }
  }

  lemma {:induction false} RunKeepsCast(n: Node, past: seq<Ballot>, events: seq<Event>)
    requires CastBefore(n, past)
    ensures CastBefore(Exec(n, events), past + Ballots(n, events))
    decreases events
  {
    if events == [] {
      assert past + [] == past;
    } else {
      var m := Step(n, events[0]).0;
      StepKeepsCast(n, events[0], past);
      RunKeepsCast(m, past + Cast(n, events[0]), events[1..]);
      assert past + Ballots(n, events) == past + Cast(n, events[0]) + Ballots(m, events[1..]);
    }
  }

  lemma StepRemembersAll(n: Node, e: Event, past: seq<Ballot>)
    requires Voter(n) && NamedCandidates([e]) && !ForgetsOwnVote(n, e) && RemembersAll(n, past, true)
    ensures Voter(Step(n, e).0) && RemembersAll(Step(n, e).0, past + Cast(n, e), true)
  {
    StepKeepsVoter(n, e);
    assert e in [e];
    forall b | b in past + Cast(n, e)
      ensures b.candidate != "" && Remembers(Step(n, e).0, b)
    {
      if b in past { StepKeepsMemory(n, e, b); } else { CastIsRemembered(n, e, b); }
    }
  }

  lemma NamedSplit(events: seq<Event>)
    requires events != [] && NamedCandidates(events)
    ensures NamedCandidates([events[0]]) && NamedCandidates(events[1..])
  {
  }

  lemma {:induction false} RunRemembersAll(n: Node, past: seq<Ballot>, events: seq<Event>)
    requires Voter(n) && NamedCandidates(events) && NeverForgets(n, events) && RemembersAll(n, past, true)
    ensures Voter(Exec(n, events)) && RemembersAll(Exec(n, events), past + Ballots(n, events), true)
    decreases events
  {
    if events == [] {
      assert past + [] == past;
    } else {
      var m := Step(n, events[0]).0;
      NamedSplit(events);
      StepRemembersAll(n, events[0], past);
      assert past + Ballots(n, events) == past + Cast(n, events[0]) + Ballots(m, events[1..]);
      RunRemembersAll(m, past + Cast(n, events[0]), events[1..]);
    }
  }

  /**
   Why a request that is neither stale nor behind is denied, after any run on storage never written to: a ballot of its
   term for someone else, cast earlier in the run. Unless the node forgot its own vote, such a ballot always bars.
  */
  lemma VoteDeniedIff(id: string, peers: seq<string>, events: seq<Event>, a: RequestVoteArgs)
    requires var m := Exec(Start(id, peers, Empty), events);
             a.term >= m.term && a.lastLogIndex >= LastLogIndex(m)
    ensures var n := Start(id, peers, Empty);
            var denied := !RequestVote(Exec(n, events), a).1.voteGranted;
            var barring := exists b :: b in Ballots(n, events) && b.term == a.term && b.candidate != a.candidateID;
            && (denied ==> barring)
            && (id != "" && NamedCandidates(events) && NeverForgets(n, events) && barring ==> denied)
  {
    var n := Start(id, peers, Empty);
    var m := Exec(n, events);
    RunKeepsCast(n, [], events);
    assert [] + Ballots(n, events) == Ballots(n, events);
    if !RequestVote(m, a).1.voteGranted {
      assert Ballot(m.term, m.votedFor) in Ballots(n, events);
    }
    if id != "" && NamedCandidates(events) && NeverForgets(n, events) {
      RunRemembersAll(n, [], events);
    }
  }
}
