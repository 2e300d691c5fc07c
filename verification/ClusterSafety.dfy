/** Every event keeps commitment sound while leaders count answers of their own term, and then no node panics. */
module ClusterSafety {
  import opened RaftTypes
  import opened RaftStep
  import opened Cluster
  import opened ClusterInv
  import opened ClusterLogs
  import opened ClusterSteps
  import opened ClusterCommit

  /** A positive answer to an append. */
  predicate IsAnswer(m: Message) {
    m.AppendResponse? && !m.reject
  }

  /** The step of a node seen as a whole: both states are sound and only `at` has moved. */
  ghost predicate Steps(c: System, at: Id, used: multiset<Message>, o: Outcome) {
    && Inv(c) && CommitInv(c) && at in c.nodes && o.Stepped?
    && Inv(Move(c, at, used, o))
    && Advances(c, Move(c, at, used, o))
  }

  lemma QuietCommit(c: System, at: Id, used: multiset<Message>, o: Outcome)
    requires Steps(c, at, used, o) && o.node.log == c.nodes[at].log
    requires forall m :: m in o.out && (m.Append? || m.CommitUpdate?) ==> o.node.role == Leader && ShipsTail(o.node, m)
    ensures CommitInv(Move(c, at, used, o))
  {
    CommitQuiet(c, Move(c, at, used, o), at);
  }

  lemma ExtendCommit(c: System, at: Id, used: multiset<Message>, o: Outcome)
    requires Steps(c, at, used, o) && o.node.role == Leader
    requires c.nodes[at].log.entries <= o.node.log.entries
    requires o.node.log.committed == c.nodes[at].log.committed ||
             (c.nodes.Keys == {at} && o.node.log.committed == |o.node.log.entries|)
    requires forall m :: m in o.out ==> ShipsTail(o.node, m)
    ensures CommitInv(Move(c, at, used, o))
  {
    CommitExtend(c, Move(c, at, used, o), at);
  }

  /** Proposing changes the commit index only in a cluster of one. */
  lemma ProposeCommit(n: Node, es: seq<Entry>)
    requires n.log.snapIndex == 0
    ensures var n' := Propose(n, es);
            n'.log.committed == (if |n.peers| == 1 then |n'.log.entries| else n.log.committed)
  {
    ProposeKeeps(n, es);
  }

  lemma ProposalCommit(c: System, at: Id, es: seq<Entry>, o: Outcome)
    requires Steps(c, at, multiset{}, o) && c.nodes[at].role == Leader && c.nodes[at].WellFormed()
    requires o == HandlePropose(c.nodes[at], es)
    ensures CommitInv(Move(c, at, multiset{}, o))
  {
    ProposalPolite(c, at, es, o);
    assert Uncompacted(c, at);
    assert c.nodes[at].id == at && c.nodes[at].peers == c.peers by { assert NodeShape(c, at); }
    ProposeCommit(c.nodes[at], es);
    if |c.peers| == 1 { OnlyPeer(c, at); }
    ExtendCommit(c, at, multiset{}, o);
  }

  lemma ResendCommit(c: System, at: Id, to: Id, o: Outcome)
    requires Steps(c, at, multiset{}, o) && c.nodes[at].role == Leader && c.nodes[at].WellFormed()
    requires to in c.nodes[at].prs && o == Stepped(c.nodes[at], SendAppend(c.nodes[at], to))
    ensures CommitInv(Move(c, at, multiset{}, o))
  {
    assert Uncompacted(c, at);
    forall m | m in o.out ensures ShipsTail(o.node, m) {
      SendAppendShipsTail(o.node, to, m);
    }
    QuietCommit(c, at, multiset{}, o);
  }

  lemma SoloCommit(c: System, at: Id, o: Outcome)
    requires Steps(c, at, multiset{}, o) && |c.peers| == 1 && o == Campaign(c.nodes[at])
    ensures CommitInv(Move(c, at, multiset{}, o))
  {
    OnlyPeer(c, at);
    SoloOutcome(c.nodes[at]);
    assert Uncompacted(c, at);
    var s := Standing(c.nodes[at]);
    BecomeLeaderFacts(s);
    ProposeCommit(s.(role := Leader, lead := s.id), [NOOP]);
    ExtendCommit(c, at, multiset{}, o);
  }

  lemma CampaignCommit(c: System, at: Id, o: Outcome)
    requires Steps(c, at, multiset{}, o) && |c.peers| != 1 && o == Campaign(c.nodes[at])
    ensures CommitInv(Move(c, at, multiset{}, o))
  {
    assert c.nodes[at].peers == c.peers by { assert NodeShape(c, at); }
    CampaignPolite(c, at, o);
    QuietCommit(c, at, multiset{}, o);
  }

  lemma WonNode(n: Node, m: Message, o: Outcome)
    requires n.WellFormed() && n.log.snapIndex == 0 && m.VoteResponse? && o == HandleVoteResponse(n, m)
    requires m.term == n.term && !m.reject && n.voteReceived + 1 > |n.peers| / 2
    ensures o.node.log.committed == (if |n.peers| == 1 then |o.node.log.entries| else n.log.committed)
  {
    var n1 := n.(voteTotal := n.voteTotal + 1, voteReceived := n.voteReceived + 1);
    ProposeCommit(n1.(role := Leader, lead := n1.id), [NOOP]);
  }

  lemma WonCommit(c: System, m: Message, o: Outcome)
    requires Steps(c, m.to, multiset{m}, o) && m in c.net && m.VoteResponse? && c.nodes[m.to].WellFormed()
    requires m.term == c.nodes[m.to].term && !m.reject && c.nodes[m.to].voteReceived + 1 > |c.peers| / 2
    requires o == HandleVoteResponse(c.nodes[m.to], m)
    ensures CommitInv(Move(c, m.to, multiset{m}, o))
  {
    WonPolite(c, m, o);
    assert Uncompacted(c, m.to);
    assert c.nodes[m.to].id == m.to && c.nodes[m.to].peers == c.peers by { assert NodeShape(c, m.to); }
    WonNode(c.nodes[m.to], m, o);
    if |c.peers| == 1 { OnlyPeer(c, m.to); }
    ExtendCommit(c, m.to, multiset{m}, o);
  }

  lemma ElectionCommit(c: System, m: Message, o: Outcome)
    requires Steps(c, m.to, multiset{m}, o) && m in c.net && c.nodes[m.to].WellFormed()
    requires (m.RequestVote? && o == HandleRequestVote(c.nodes[m.to], m)) ||
             (m.VoteResponse? && o == HandleVoteResponse(c.nodes[m.to], m) &&
              !(m.term == c.nodes[m.to].term && !m.reject &&
                c.nodes[m.to].voteReceived + 1 > |c.nodes[m.to].peers| / 2))
    ensures CommitInv(Move(c, m.to, multiset{m}, o))
  {
    QuietCommit(c, m.to, multiset{m}, o);
  }

  lemma AppendCommit(c: System, m: Message, o: Outcome)
    requires Steps(c, m.to, multiset{m}, o) && m in c.net && m.Append? && o == HandleAppend(c.nodes[m.to], m)
    ensures CommitInv(Move(c, m.to, multiset{m}, o))
  {
    if m.term < c.nodes[m.to].term || KeptPrefix(c.nodes[m.to].log, m.index, m.logTerm).None? {
      QuietCommit(c, m.to, multiset{m}, o);
    } else {
      AcceptedLog(c, m);
      AcceptOutcome(c.nodes[m.to], m, m.index, o);
      CommitAccept(c, Move(c, m.to, multiset{m}, o), m, o);
    }
  }

  lemma ResponseCommit(c: System, m: Message, o: Outcome)
    requires Steps(c, m.to, multiset{m}, o) && m in c.net && m.AppendResponse? && (!m.reject ==> TellsAckers(c, m))
    requires c.nodes[m.to].role == Leader && c.nodes[m.to].WellFormed() && o == HandleAppendResponse(c.nodes[m.to], m)
    ensures CommitInv(Move(c, m.to, multiset{m}, o))
  {
    if m.reject { CommitRefused(c, Move(c, m.to, multiset{m}, o), m, o); }
    else { CommitAcked(c, Move(c, m.to, multiset{m}, o), m, o); }
  }

  lemma DeliverCommit(c: System, m: Message, o: Outcome)
    requires Steps(c, m.to, multiset{m}, o) && m in c.net && c.nodes[m.to].WellFormed()
    requires o == Receive(c.nodes[m.to], m) && (IsAnswer(m) ==> TellsAckers(c, m))
    ensures CommitInv(Move(c, m.to, multiset{m}, o))
  {
    var n := c.nodes[m.to];
    assert n.peers == c.peers by { assert NodeShape(c, m.to); }
    match m {
      case RequestVote(_, _, _, _, _) => ElectionCommit(c, m, o);
      case VoteResponse(_, _, _, _) =>
        if n.role != Candidate { QuietCommit(c, m.to, multiset{m}, o); }
        else if m.term == n.term && !m.reject && n.voteReceived + 1 > |n.peers| / 2 { WonCommit(c, m, o); }
        else { ElectionCommit(c, m, o); }
      case Append(_, _, _, _, _, _, _) => AppendCommit(c, m, o);
      case CommitUpdate(_, _, _, _) => CommitUpdated(c, Move(c, m.to, multiset{m}, o), m);
      case AppendResponse(_, _, _, _, _, _) =>
        if n.role == Leader { ResponseCommit(c, m, o); } else { QuietCommit(c, m.to, multiset{m}, o); }
    }
  }

  lemma NetworkCommit(c: System, d: System)
    requires CommitInv(c) && Advances(c, d) && d == c.(net := d.net)
    ensures CommitInv(d)
  {
    forall n ensures NodeCommitOk(d, n) {
      assert NodeCommitOk(c, n);
      if n in c.nodes {
        var l := c.nodes[n].log;
        CommittedAdvances(c, d, l.entries, l.entries, l.committed, c.nodes[n].term, c.nodes[n].term);
      }
    }
    forall m ensures MessageCommitOk(d, m) {
      assert MessageCommitOk(c, m);
      if m in c.hist.sent && (m.Append? || m.CommitUpdate?) {
        CommittedAdvances(c, d, c.hist.logs[m.term], c.hist.logs[m.term], m.commit, m.term, m.term);
      }
    }
  }

  /** Every event keeps commitment sound, if whoever an answer makes a leader tell has acknowledged the index. */
  lemma StepKeepsCommit(c: System, e: Event)
    requires Inv(c) && CommitInv(c) && Enabled(c, e)
    requires e.Deliver? && IsAnswer(e.msg) ==> TellsAckers(c, e.msg)
    ensures CommitInv(Apply(c, e))
  {
    StepKeepsInv(c, e);
    match e {
      case Timeout(at) =>
        if |c.peers| == 1 { SoloCommit(c, at, Reaction(c, e)); } else { CampaignCommit(c, at, Reaction(c, e)); }
      case Proposal(at, es) =>
        assert NodeShape(c, at);
        ProposalCommit(c, at, es, Reaction(c, e));
      case Resend(at, to) =>
        assert NodeShape(c, at);
        ResendCommit(c, at, to, Reaction(c, e));
      case Beat(at, _, _) => QuietCommit(c, at, multiset{}, Reaction(c, e));
      case Deliver(m) =>
        assert NodeShape(c, m.to);
        DeliverCommit(c, m, Reaction(c, e));
      case Drop(m) => NetworkCommit(c, Apply(c, e));
      case Duplicate(m) => NetworkCommit(c, Apply(c, e));
    }
  }

  lemma InitCommit(c: System)
    requires Init(c)
    ensures CommitInv(c)
  {
  }

  // ---------------------------------------------------------------- no panic

  lemma AppendDoesNotPanic(c: System, m: Message)
    requires Inv(c) && CommitInv(c) && m in c.net && m.Append? && m.to in c.nodes
    ensures HandleAppend(c.nodes[m.to], m).Stepped?
  {
    var n := c.nodes[m.to];
    if m.term >= n.term && KeptPrefix(n.log, m.index, m.logTerm).Some? {
      AcceptedLog(c, m);
      AcceptKeepsCommitted(c, m, Install(n.log, m.index, m.entries).entries);
    }
  }

  /** The answer claims more than its receiver, a leader, has in its log or on record for the sender. */
  ghost predicate Overshoots(c: System, m: Message) {
    && IsAnswer(m) && m.to in c.nodes && c.nodes[m.to].role == Leader
    && m.index > |c.nodes[m.to].log.entries|
    && (m.from in c.nodes[m.to].prs ==> m.index > c.nodes[m.to].prs[m.from].matched)
  }

  lemma AnswerPanicsIff(n: Node, m: Message)
    requires n.WellFormed() && IsAnswer(m) && m.from in n.prs
    requires n.log.snapIndex == 0 && m.index >= 1 && n.log.committed <= |n.log.entries|
    ensures HandleAppendResponse(n, m).Stepped? <==> m.index <= |n.log.entries| || m.index <= n.prs[m.from].matched
  {
  }

  /** A message in flight makes its receiver panic exactly when it is an answer that claims too much. */
  lemma PanicsIff(c: System, m: Message)
    requires Inv(c) && CommitInv(c) && m in c.net
    ensures m.to in c.nodes && c.nodes[m.to].WellFormed()
    ensures Receive(c.nodes[m.to], m).Stepped? <==> !Overshoots(c, m)
  {
    assert Addressed(c, m);
    var n := c.nodes[m.to];
    assert NodeShape(c, m.to) && Uncompacted(c, m.to) && NodeCommitOk(c, m.to);
    CommittedIsInside(c, n.log.entries, n.log.committed, n.term);
    if m.Append? { AppendDoesNotPanic(c, m); }
    if m.CommitUpdate? { UpdateIsHeld(c, m); }
    if IsAnswer(m) && n.role == Leader {
      assert ResponseOk(c.hist, m);
      AnswerPanicsIff(n, m);
    }
  }
}
