/** Every event that can happen keeps the invariant of the cluster. */
module ClusterSteps {
  import opened Common
  import opened RaftTypes
  import opened RaftStep
  import opened Cluster
  import opened ClusterInv
  import opened ClusterVotes
  import opened ClusterLogs
  import opened ClusterAcks

  // ---------------------------------------------------------------- the shape of a step

  ghost predicate Sends(c: System, at: Id, out: seq<Message>) {
    forall m :: m in out ==> m.from == at && m.to in c.nodes && m.to != at
  }

  ghost predicate Polite(c: System, at: Id, o: Outcome) {
    && at in c.nodes
    && o.Stepped?
    && o.node.id == at
    && o.node.peers == c.peers
    && o.node.WellFormed()
    && o.node.log.snapIndex == 0
    && o.node.log.snapTerm == 0
    && Sends(c, at, o.out)
  }

  lemma BasicMove(c: System, at: Id, used: multiset<Message>, o: Outcome)
    requires Basic(c) && Polite(c, at, o)
    ensures Basic(Move(c, at, used, o))
  {
    var d := Move(c, at, used, o);
    assert d.nodes.Keys == c.nodes.Keys;
    forall n ensures NodeShape(d, n) {
      assert NodeShape(c, n);
    }
    forall n ensures Uncompacted(d, n) {
      assert Uncompacted(c, n);
    }
    forall m ensures Addressed(d, m) {
      assert Addressed(c, m);
      if m in d.net && m !in c.net { assert m in o.out; }
    }
  }

  // ---------------------------------------------------------------- steps that change no log and win no election

  ghost predicate QuietOutcome(c: System, at: Id, used: multiset<Message>, o: Outcome) {
    && Polite(c, at, o)
    && NoBallots(o.out)
    && (var n, n' := c.nodes[at], o.node;
        && n'.log.entries == n.log.entries
        && n'.term >= n.term
        && (n'.role != Follower ==> n'.role == n.role && n'.term == n.term)
        && (n'.term == n.term && n.role == Leader ==> n'.role == Leader)
        && (forall a: Id {:trigger Granted(c.hist, at, a, n'.term)} ::
              Granted(c.hist, at, a, n'.term) && n'.term == n.term ==> n'.role == Follower && n'.vote == a)
        && (n'.role == Candidate ==> n'.voteReceived <= 1 + |Counted(Move(c, at, used, o), at, n'.term)|)
        && (forall m :: m in o.out && m.AppendResponse? ==> m.reject)
        && (forall m :: m in o.out && m.Append? ==> n'.role == Leader && ShipsTail(n', m)))
  }

  lemma QuietHistory(c: System, at: Id, used: multiset<Message>, o: Outcome)
    requires Inv(c) && QuietOutcome(c, at, used, o)
    ensures Move(c, at, used, o).hist == c.hist.(sent := c.hist.sent + Elements(o.out))
  {
    assert NodeShape(c, at) && LeaderOk(c, at) && NodeLogOk(c, at);
    if o.node.role == Leader {
      var t := o.node.term;
      assert ElectedOk(c, t) && ExtendsCampaign(c.hist, t);
      assert c.hist.elected[t := at] == c.hist.elected;
      assert c.hist.logs[t := o.node.log.entries] == c.hist.logs;
      assert c.hist.acks[(t, at) := |o.node.log.entries|] == c.hist.acks;
    }
  }

  lemma QuietAcks(c: System, d: System, at: Id)
    requires VoteInv(c) && LogInv(c) && AckInv(c) && VoteInv(d) && KeepsLogs(c, d, at)
    requires forall v, a, t {:trigger GrantKept(c, d, at, v, a, t)} :: GrantKept(c, d, at, v, a, t)
    requires d.hist == c.hist.(sent := d.hist.sent) && c.hist.sent <= d.hist.sent
    requires forall m :: m in d.hist.sent && m.AppendResponse? && !m.reject ==> m in c.hist.sent
    ensures AckInv(d) && Advances(c, d)
  {
    forall t, n ensures AckKept(c, d, at, t, n) {
      assert AckOk(c, t, n);
    }
    forall t, a ensures CampaignKept(c, d, at, t, a) {
    }
    forall m ensures ResponseKept(c, d, at, m) {
    }
    forall t ensures LeadershipKept(c, d, at, t) {
      assert ExtendsCampaign(c.hist, t);
    }
    AckStep(c, d, at);
  }

  lemma QuietStep(c: System, at: Id, used: multiset<Message>, o: Outcome)
    requires Inv(c) && QuietOutcome(c, at, used, o)
    ensures Inv(Move(c, at, used, o)) && Advances(c, Move(c, at, used, o))
  {
    var d := Move(c, at, used, o);
    BasicMove(c, at, used, o);
    QuietHistory(c, at, used, o);
    MoveBallots(c, at, used, o);
    VoteQuiet(c, d, at);
    forall m ensures OldOrTail(c, d, at, m) {
    }
    LogQuiet(c, d, at);
    forall v, a, t ensures GrantKept(c, d, at, v, a, t) {
      SameGrants(c, d, v, a, t);
    }
    QuietAcks(c, d, at);
  }

  // ---------------------------------------------------------------- voting

  lemma RequestVotePolite(c: System, m: Message)
    requires Basic(c) && m in c.net && m.RequestVote? && m.to in c.nodes
    ensures Polite(c, m.to, HandleRequestVote(c.nodes[m.to], m))
    ensures m.from in c.nodes && m in c.hist.sent && c.nodes[m.to].id == m.to && NOBODY !in c.nodes
  {
    assert NodeShape(c, m.to) && Uncompacted(c, m.to) && Addressed(c, m);
  }

  /** A granted request was up to date, and its answer is not yet in the network. */
  lemma GrantShape(c: System, d: System, m: Message, o: Outcome)
    requires Basic(c) && VoteInv(c) && m in c.net && m.RequestVote? && m.to in c.nodes
    requires o == HandleRequestVote(c.nodes[m.to], m) && o.out == [VoteResponse(m.to, m.from, m.term, false)]
    requires d == Move(c, m.to, multiset{m}, o)
    ensures Grants(c, d, m)
    ensures AtLeast(Recency(m.logTerm, m.index), RecencyOf(c.nodes[m.to].log.entries))
    ensures d.nodes[m.to].log == c.nodes[m.to].log && d.nodes[m.to].id == m.to
  {
    var g := VoteResponse(m.to, m.from, m.term, false);
    assert NodeShape(c, m.to) && Uncompacted(c, m.to) && Addressed(c, m) && Addressed(c, g) && RequestOk(c, m);
    assert d.hist == c.hist.(sent := c.hist.sent + {g});
  }

  lemma GrantLogs(c: System, d: System, m: Message)
    requires VoteInv(c) && LogInv(c) && Grants(c, d, m)
    requires d.nodes[m.to].log == c.nodes[m.to].log && d.nodes[m.to].id == m.to
    ensures KeepsLogs(c, d, m.to) && LogInv(d)
  {
    forall x ensures OldOrTail(c, d, m.to, x) {
    }
    LogQuiet(c, d, m.to);
  }

  lemma GrantAcks(c: System, d: System, m: Message)
    requires VoteInv(c) && LogInv(c) && AckInv(c) && VoteInv(d) && Grants(c, d, m) && KeepsLogs(c, d, m.to)
    requires m in c.hist.sent && AtLeast(Recency(m.logTerm, m.index), RecencyOf(c.nodes[m.to].log.entries))
    ensures AckInv(d) && Advances(c, d)
  {
    assert RequestOk(c, m);
    forall v, a, t ensures GrantKept(c, d, m.to, v, a, t) {
    }
    QuietAcks(c, d, m.to);
  }

  lemma StepGrant(c: System, m: Message, o: Outcome)
    requires Inv(c) && m in c.net && m.RequestVote? && m.to in c.nodes && o == HandleRequestVote(c.nodes[m.to], m)
    requires o.out == [VoteResponse(m.to, m.from, m.term, false)]
    ensures Inv(Move(c, m.to, multiset{m}, o)) && Advances(c, Move(c, m.to, multiset{m}, o))
  {
    var d := Move(c, m.to, multiset{m}, o);
    RequestVotePolite(c, m);
    BasicMove(c, m.to, multiset{m}, o);
    GrantShape(c, d, m, o);
    VoteGrant(c, d, m);
    GrantLogs(c, d, m);
    GrantAcks(c, d, m);
  }

  /** A refusal forgets at most a vote that was never sent. */
  lemma RefusalBinds(c: System, m: Message, o: Outcome, a: Id)
    requires VoteInv(c) && m in c.net && m.RequestVote? && m.to in c.nodes && o == HandleRequestVote(c.nodes[m.to], m)
    requires o.out != [VoteResponse(c.nodes[m.to].id, m.from, m.term, false)] && m.from != NOBODY
    requires o.node.term == c.nodes[m.to].term && Granted(c.hist, m.to, a, o.node.term)
    ensures o.node.role == Follower && o.node.vote == a
  {
    assert GrantOk(c, m.to, a, o.node.term) && RequestOk(c, m);
  }

  lemma StepRefuse(c: System, m: Message, o: Outcome)
    requires Inv(c) && m in c.net && m.RequestVote? && m.to in c.nodes && o == HandleRequestVote(c.nodes[m.to], m)
    requires o.out != [VoteResponse(m.to, m.from, m.term, false)]
    ensures Inv(Move(c, m.to, multiset{m}, o)) && Advances(c, Move(c, m.to, multiset{m}, o))
  {
    var at, n := m.to, c.nodes[m.to];
    RequestVotePolite(c, m);
    assert NoBallots(o.out);
    MoveBallots(c, at, multiset{m}, o);
    if n.role == Candidate { TallyKept(c, Move(c, at, multiset{m}, o), at); }
    forall a: Id | Granted(c.hist, at, a, o.node.term) && o.node.term == n.term
      ensures o.node.role == Follower && o.node.vote == a
    {
      RefusalBinds(c, m, o, a);
    }
    QuietStep(c, at, multiset{m}, o);
  }

  // ---------------------------------------------------------------- campaigning

  lemma {:induction false} RequestsSent(n: Node, to: seq<Id>, m: Message)
    ensures m in RequestVotesTo(n, to) ==>
              && m == RequestVote(n.id, m.to, n.term, n.log.LastTerm(), n.log.LastIndex())
              && m.to in to && m.to != n.id
    ensures Distinct(to) ==> multiset(RequestVotesTo(n, to))[m] <= 1
  {
    if to != [] {
      RequestsSent(n, to[..|to| - 1], m);
      assert to == to[..|to| - 1] + [to[|to| - 1]];
    }
  }

  ghost predicate StartsCampaign(c: System, d: System, at: Id) {
    && Campaigns(c, d, at)
    && d.nodes[at].id == at
    && d.hist.logs == c.hist.logs
    && d.hist.acks == c.hist.acks
    && (forall m :: m in d.hist.sent && m !in c.hist.sent ==> m.RequestVote?)
    && c.hist.sent <= d.hist.sent
  }

  lemma CampaignStep(c: System, d: System, at: Id)
    requires Inv(c) && Basic(d) && StartsCampaign(c, d, at)
    ensures Inv(d) && Advances(c, d)
  {
    VoteCampaign(c, d, at);
    forall m ensures OldOrTail(c, d, at, m) {
    }
    LogQuiet(c, d, at);
    forall t, n ensures AckKept(c, d, at, t, n) {
      assert AckOk(c, t, n);
    }
    forall t, a ensures CampaignKept(c, d, at, t, a) {
      assert CampaignOk(c, t, a);
    }
    forall v, a, t ensures GrantKept(c, d, at, v, a, t) {
      CampaignGrants(c, d, at, v, a, t);
    }
    forall m ensures ResponseKept(c, d, at, m) {
    }
    forall t ensures LeadershipKept(c, d, at, t) {
      assert ExtendsCampaign(c.hist, t) && ElectedOk(c, t);
      if t in c.hist.elected { assert CampaignOk(c, t, c.hist.elected[t]); }
    }
    AckStep(c, d, at);
  }

  lemma CampaignPolite(c: System, at: Id, o: Outcome)
    requires Basic(c) && at in c.nodes && |c.peers| != 1 && o == Campaign(c.nodes[at])
    ensures Polite(c, at, o)
    ensures forall m :: m in o.out ==> m.RequestVote? && m.term == c.nodes[at].term + 1 &&
                                       Recency(m.logTerm, m.index) == RecencyOf(c.nodes[at].log.entries)
    ensures forall m :: multiset(o.out)[m] <= 1
  {
    assert NodeShape(c, at) && Uncompacted(c, at);
    forall m ensures multiset(o.out)[m] <= 1
      ensures m in o.out ==> m == RequestVote(at, m.to, o.node.term, o.node.log.LastTerm(), o.node.log.LastIndex())
      ensures m in o.out ==> m.to in c.nodes && m.to != at
    {
      RequestsSent(o.node, c.peers, m);
    }
  }

  lemma CampaignShape(c: System, at: Id, o: Outcome)
    requires Polite(c, at, o) && c.nodes[at].role != Leader
    requires o.node.term == c.nodes[at].term + 1 && o.node.role == Candidate && o.node.voteReceived == 1
    requires o.node.log == c.nodes[at].log
    requires forall m :: m in o.out ==> m.RequestVote? && m.term == c.nodes[at].term + 1 &&
                                        Recency(m.logTerm, m.index) == RecencyOf(c.nodes[at].log.entries)
    requires forall m :: multiset(o.out)[m] <= 1
    ensures StartsCampaign(c, Move(c, at, multiset{}, o), at)
  {
    forall m ensures CallOrStay(c, Move(c, at, multiset{}, o), at, m) {
    }
  }

  lemma StepCampaign(c: System, at: Id, o: Outcome)
    requires Inv(c) && at in c.nodes && c.nodes[at].role != Leader && |c.peers| != 1 && o == Campaign(c.nodes[at])
    ensures Inv(Move(c, at, multiset{}, o)) && Advances(c, Move(c, at, multiset{}, o))
  {
    assert c.nodes[at].peers == c.peers by { assert NodeShape(c, at); }
    CampaignPolite(c, at, o);
    BasicMove(c, at, multiset{}, o);
    CampaignShape(c, at, o);
    CampaignStep(c, Move(c, at, multiset{}, o), at);
  }

  // ---------------------------------------------------------------- leading

  lemma NoopAppended(n: Node)
    ensures |BecomeLeader(n).log.entries| == |n.log.entries| + 1
  {
    var l := n.(role := Leader, lead := n.id);
    assert ProposeAll(l, []) == l;
    assert [NOOP][..0] == [];
    assert ProposeAll(l, [NOOP]) == ProposeOne(l, NOOP);
  }

  ghost predicate AppendsOnly(c: System, d: System) {
    && c.hist.sent <= d.hist.sent
    && forall m :: m in d.hist.sent && m !in c.hist.sent ==> m.Append?
  }

  /** The leader's log is its campaign log and then entries of its term: none of the former are of its term. */
  lemma LeaderExtendsCampaign(c: System, d: System, at: Id)
    requires VoteInv(c) && LogInv(c) && AckInv(c) && Extends(c, d, at)
    requires c.nodes[at].role != Leader ==> c.nodes[at].role == Candidate
    requires d.hist.campaigns == c.hist.campaigns
    requires d.hist.acks == c.hist.acks[(d.nodes[at].term, at) := |d.nodes[at].log.entries|]
    ensures ExtendsCampaign(d.hist, d.nodes[at].term)
  {
    var t0, es := c.nodes[at].term, c.nodes[at].log.entries;
    assert LeaderOk(c, at) && ElectedOk(c, t0) && ExtendsCampaign(c.hist, t0) && NodeLogOk(c, at);
    if c.nodes[at].role == Candidate {
      assert CandidateOk(c, at);
      if es != [] { assert CoherentAt(es, |es| - 1, c.hist.logs); }
    }
  }

  lemma LeaderAckOk(c: System, d: System, at: Id)
    requires LogInv(d) && Extends(c, d, at)
    requires d.hist.acks == c.hist.acks[(d.nodes[at].term, at) := |d.nodes[at].log.entries|]
    ensures AckOk(d, d.nodes[at].term, at)
  {
    assert NodeLogOk(d, at) && LeaderLogOk(d.hist, d.nodes[at].term);
  }

  lemma LeaderAges(c: System, d: System, at: Id)
    requires LogInv(c) && LogInv(d) && Extends(c, d, at) && Grows(c.hist.logs, d.hist.logs)
    ensures Ages(c, d, at)
  {
    assert NodeLogOk(c, at) && NodeLogOk(d, at);
  }

  lemma LeaderAcks(c: System, d: System, at: Id)
    requires VoteInv(c) && LogInv(c) && AckInv(c) && VoteInv(d) && LogInv(d)
    requires NoNewBallots(c, d) && Extends(c, d, at) && AppendsOnly(c, d) && Grows(c.hist.logs, d.hist.logs)
    requires c.nodes[at].role != Leader ==> c.nodes[at].role == Candidate
    requires d.hist.campaigns == c.hist.campaigns
    requires d.hist.acks == c.hist.acks[(d.nodes[at].term, at) := |d.nodes[at].log.entries|]
    ensures AckInv(d) && Advances(c, d)
  {
    var t0 := d.nodes[at].term;
    LeaderExtendsCampaign(c, d, at);
    LeaderAckOk(c, d, at);
    LeaderAges(c, d, at);
    assert LeaderOk(c, at) && LeaderOk(d, at) && AckOk(c, t0, at) && ExtendsCampaign(c.hist, t0) && ElectedOk(c, t0);
    forall t, n ensures AckKept(c, d, at, t, n) {
    }
    forall t, a ensures CampaignKept(c, d, at, t, a) {
    }
    forall v, a, t ensures GrantKept(c, d, at, v, a, t) {
      SameGrants(c, d, v, a, t);
    }
    forall m ensures ResponseKept(c, d, at, m) {
    }
    forall t ensures LeadershipKept(c, d, at, t) {
      assert LeaderLogOk(c.hist, t);
    }
    AckStep(c, d, at);
  }

  /** A candidate wins: its term had no leader, so its log starts the term's log. */
  lemma ElectStep(c: System, d: System, at: Id)
    requires Inv(c) && Basic(d) && NoNewBallots(c, d) && Wins(c, d, at)
    requires d.nodes[at].id == at && OnlyShips(c, d, at) && AppendsOnly(c, d)
    requires c.nodes[at].log.entries < d.nodes[at].log.entries && NumberedFrom(d.nodes[at].log.entries, 1)
    requires forall k :: |c.nodes[at].log.entries| <= k < |d.nodes[at].log.entries| ==>
                           d.nodes[at].log.entries[k].term == d.nodes[at].term
    requires d.hist.logs == c.hist.logs[d.nodes[at].term := d.nodes[at].log.entries]
    requires d.hist.acks == c.hist.acks[(d.nodes[at].term, at) := |d.nodes[at].log.entries|]
    ensures Inv(d) && Advances(c, d)
  {
    var t := c.nodes[at].term;
    WinnersTermIsFresh(c, d, at);
    assert LeaderLogOk(c.hist, t) && CandidateOk(c, at) && CampaignOk(c, t, at);
    VoteElect(c, d, at);
    assert LeaderOk(d, at);
    LogExtend(c, d, at);
    LeaderAcks(c, d, at);
  }

  lemma BecomeLeaderFacts(n: Node)
    requires n.WellFormed() && n.log.snapIndex == 0 && n.log.snapTerm == 0
    ensures var l := BecomeLeader(n);
            && l.WellFormed()
            && l.id == n.id && l.peers == n.peers && l.term == n.term && l.role == Leader
            && l.log.snapIndex == 0 && l.log.snapTerm == 0
            && n.log.entries < l.log.entries
            && (forall k :: |n.log.entries| <= k < |l.log.entries| ==> l.log.entries[k].term == n.term)
  {
    ProposeFacts(n.(role := Leader, lead := n.id), [NOOP]);
    NoopAppended(n);
  }

  lemma BroadcastSends(c: System, l: Node)
    requires AllWellFormed(c) && l.WellFormed() && l.peers == c.peers && l.log.snapIndex == 0 && l.log.snapTerm == 0
    ensures Sends(c, l.id, Broadcast(l)) && NoBallots(Broadcast(l))
    ensures forall m :: m in Broadcast(l) ==> ShipsTail(l, m)
  {
    forall m | m in Broadcast(l) ensures ShipsTail(l, m) && m.to in c.peers && m.to != l.id {
      BroadcastShipsTail(l, l.peers, m);
    }
  }

  /** A step whose node is leader afterwards, as the history records it. */
  lemma LeaderHistory(c: System, at: Id, used: multiset<Message>, o: Outcome)
    requires at in c.nodes && o.Stepped? && o.node.id == at && o.node.role == Leader && o.node.term == c.nodes[at].term
    ensures var h := Move(c, at, used, o).hist;
            h == History(c.hist.sent + Elements(o.out), c.hist.campaigns, c.hist.elected[o.node.term := at],
                         c.hist.logs[o.node.term := o.node.log.entries],
                         c.hist.acks[(o.node.term, at) := |o.node.log.entries|])
  {
  }

  /** The vote that decides: the candidate becomes leader and ships its log. */
  lemma WonOutcome(n: Node, m: Message, n1: Node)
    requires n.WellFormed() && m.VoteResponse? && m.term == n.term && !m.reject && n.voteReceived + 1 > |n.peers| / 2
    requires n1 == n.(voteTotal := n.voteTotal + 1, voteReceived := n.voteReceived + 1)
    ensures BecomeLeader(n1).WellFormed()
    ensures HandleVoteResponse(n, m) == Stepped(BecomeLeader(n1), Broadcast(BecomeLeader(n1)))
  {
    ProposeFacts(n1.(role := Leader, lead := n1.id), [NOOP]);
  }

  lemma LeaderPolite(c: System, at: Id, l: Node, o: Outcome)
    requires Basic(c) && at in c.nodes && l.WellFormed() && l.id == at && l.peers == c.peers
    requires l.log.snapIndex == 0 && l.log.snapTerm == 0 && o == Stepped(l, Broadcast(l))
    ensures Polite(c, at, o) && NoBallots(o.out) && NumberedFrom(l.log.entries, 1)
    ensures forall x :: x in o.out ==> ShipsTail(l, x)
  {
    BroadcastSends(c, l);
  }

  lemma WonPolite(c: System, m: Message, o: Outcome)
    requires Basic(c) && m.VoteResponse? && m.to in c.nodes && c.nodes[m.to].WellFormed()
    requires m.term == c.nodes[m.to].term && !m.reject && c.nodes[m.to].voteReceived + 1 > |c.peers| / 2
    requires o == HandleVoteResponse(c.nodes[m.to], m)
    ensures Polite(c, m.to, o) && NoBallots(o.out) && o.node.role == Leader && o.node.term == m.term
    ensures c.nodes[m.to].log.entries < o.node.log.entries && NumberedFrom(o.node.log.entries, 1)
    ensures forall k :: |c.nodes[m.to].log.entries| <= k < |o.node.log.entries| ==> o.node.log.entries[k].term == m.term
    ensures forall x :: x in o.out ==> ShipsTail(o.node, x)
  {
    var n := c.nodes[m.to];
    assert n.id == m.to && n.peers == c.peers && n.log.snapIndex == 0 && n.log.snapTerm == 0 by {
      assert NodeShape(c, m.to) && Uncompacted(c, m.to);
    }
    var n1 := n.(voteTotal := n.voteTotal + 1, voteReceived := n.voteReceived + 1);
    WonOutcome(n, m, n1);
    BecomeLeaderFacts(n1);
    LeaderPolite(c, m.to, BecomeLeader(n1), o);
  }

  /** With the vote just delivered, the counted votes make a majority. */
  lemma WonMajority(c: System, m: Message, o: Outcome)
    requires Inv(c) && m in c.net && m.VoteResponse? && m.to in c.nodes
    requires c.nodes[m.to].role == Candidate && m.term == c.nodes[m.to].term && !m.reject
    requires c.nodes[m.to].voteReceived + 1 > |c.peers| / 2
    requires o.Stepped? && NoBallots(o.out) && o.node.id == m.to && o.node.role == Leader && o.node.term == m.term
    ensures Wins(c, Move(c, m.to, multiset{m}, o), m.to)
    ensures NoNewBallots(c, Move(c, m.to, multiset{m}, o))
  {
    var at := m.to;
    var d := Move(c, at, multiset{m}, o);
    LeaderHistory(c, at, multiset{m}, o);
    MoveBallots(c, at, multiset{m}, o);
    DistinctCardinality(c.peers);
    var e := c.(net := c.net - multiset{m});
    forall x ensures BallotStays(c, e, x) {
    }
    Tally(c, e, at, m);
    forall x ensures BallotStays(e, d, x) {
      assert BallotStays(c, d, x);
      assert multiset(o.out)[x] == 0 || x in o.out;
    }
    CountedGrows(e, d, at, m.term);
  }

  lemma WonStep(c: System, m: Message, o: Outcome)
    requires Inv(c) && m in c.net && m.VoteResponse? && Polite(c, m.to, o) && NoBallots(o.out)
    requires c.nodes[m.to].role == Candidate && m.term == c.nodes[m.to].term && !m.reject
    requires c.nodes[m.to].voteReceived + 1 > |c.peers| / 2
    requires o.node.role == Leader && o.node.term == m.term
    requires c.nodes[m.to].log.entries < o.node.log.entries && NumberedFrom(o.node.log.entries, 1)
    requires forall k :: |c.nodes[m.to].log.entries| <= k < |o.node.log.entries| ==>
                           o.node.log.entries[k].term == m.term
    requires forall x :: x in o.out ==> ShipsTail(o.node, x)
    ensures Inv(Move(c, m.to, multiset{m}, o)) && Advances(c, Move(c, m.to, multiset{m}, o))
  {
    BasicMove(c, m.to, multiset{m}, o);
    LeaderHistory(c, m.to, multiset{m}, o);
    WonMajority(c, m, o);
    LeaderSends(c, m.to, multiset{m}, o);
    ElectStep(c, Move(c, m.to, multiset{m}, o), m.to);
  }

  lemma StepWon(c: System, m: Message, o: Outcome)
    requires Inv(c) && m in c.net && m.VoteResponse? && m.to in c.nodes && c.nodes[m.to].WellFormed()
    requires c.nodes[m.to].role == Candidate && m.term == c.nodes[m.to].term && !m.reject
    requires c.nodes[m.to].voteReceived + 1 > |c.peers| / 2
    requires o == HandleVoteResponse(c.nodes[m.to], m)
    ensures Inv(Move(c, m.to, multiset{m}, o)) && Advances(c, Move(c, m.to, multiset{m}, o))
  {
    WonPolite(c, m, o);
    WonStep(c, m, o);
  }

  /** A vote response that does not make the candidate leader leaves no more votes counted than were given. */
  lemma TalliedVotes(c: System, m: Message, o: Outcome)
    requires Inv(c) && m in c.net && m.VoteResponse? && m.to in c.nodes && c.nodes[m.to].role == Candidate
    requires o.Stepped? && o.out == [] && o.node.voteReceived <= c.nodes[m.to].voteReceived + 1
    requires o.node.voteReceived != c.nodes[m.to].voteReceived ==> m.term == c.nodes[m.to].term && !m.reject
    ensures o.node.voteReceived <= 1 + |Counted(Move(c, m.to, multiset{m}, o), m.to, c.nodes[m.to].term)|
  {
    var d := Move(c, m.to, multiset{m}, o);
    MoveBallots(c, m.to, multiset{m}, o);
    TallyKept(c, d, m.to);
    if m.term == c.nodes[m.to].term && !m.reject { Tally(c, d, m.to, m); }
  }

  lemma StepTallied(c: System, m: Message, o: Outcome)
    requires Inv(c) && m in c.net && m.VoteResponse? && m.to in c.nodes && c.nodes[m.to].WellFormed()
    requires c.nodes[m.to].role == Candidate && o == HandleVoteResponse(c.nodes[m.to], m)
    requires !(m.term == c.nodes[m.to].term && !m.reject && c.nodes[m.to].voteReceived + 1 > |c.nodes[m.to].peers| / 2)
    ensures Inv(Move(c, m.to, multiset{m}, o)) && Advances(c, Move(c, m.to, multiset{m}, o))
  {
    var at, n := m.to, c.nodes[m.to];
    assert Polite(c, at, o) by { assert NodeShape(c, at) && Uncompacted(c, at); }
    TalliedVotes(c, m, o);
    forall a: Id | Granted(c.hist, at, a, n.term) ensures false {
      VoterFollows(c, at, a);
    }
    QuietStep(c, at, multiset{m}, o);
  }

  // ---------------------------------------------------------------- a cluster of one

  function Standing(n: Node): Node {
    n.(term := n.term + 1, voteReceived := 1, voteTotal := 1, vote := n.id, role := Candidate)
  }

  lemma SoloOutcome(n: Node)
    requires n.peers == [n.id]
    ensures Campaign(n) == Stepped(BecomeLeader(Standing(n)), [])
  {
    var l := BecomeLeader(Standing(n));
    ProposeKeeps(Standing(n).(role := Leader, lead := n.id), [NOOP]);
    assert RequestVotesTo(l, [n.id][..0]) == [];
  }

  lemma OnlyPeer(c: System, at: Id)
    requires AllWellFormed(c) && at in c.nodes && |c.peers| == 1
    ensures c.peers == [at] && c.nodes.Keys == {at} && c.nodes[at].id == at && c.nodes[at].peers == c.peers
    ensures c.nodes[at].WellFormed()
  {
    assert NodeShape(c, at);
    assert at in c.peers;
  }

  /** The candidate that a lone node is for an instant before it leads. */
  lemma SoloStands(c: System, at: Id)
    requires Inv(c) && at in c.nodes && c.nodes[at].role != Leader && c.nodes[at].WellFormed()
    requires c.nodes[at].id == at && c.nodes[at].peers == c.peers
    ensures var e := Move(c, at, multiset{}, Stepped(Standing(c.nodes[at]), []));
            Inv(e) && Advances(c, e) && e.nodes[at].log.snapIndex == 0 && e.nodes[at].log.snapTerm == 0
  {
    var o := Stepped(Standing(c.nodes[at]), []);
    var e := Move(c, at, multiset{}, o);
    assert Uncompacted(c, at);
    BasicMove(c, at, multiset{}, o);
    forall m ensures CallOrStay(c, e, at, m) {
    }
    CampaignStep(c, e, at);
  }

  lemma SoloLeads(e: System, d: System, at: Id, l: Node)
    requires Inv(e) && e.nodes.Keys == {at} && e.nodes[at].role == Candidate && e.nodes[at].id == at
    requires Basic(d) && d.net == e.net && d.nodes == e.nodes[at := l] && l == BecomeLeader(e.nodes[at])
    requires e.nodes[at].WellFormed() && e.nodes[at].log.snapIndex == 0 && e.nodes[at].log.snapTerm == 0
    requires d.hist == History(e.hist.sent, e.hist.campaigns, e.hist.elected[l.term := at],
                               e.hist.logs[l.term := l.log.entries], e.hist.acks[(l.term, at) := |l.log.entries|])
    ensures Inv(d) && Advances(e, d)
  {
    BecomeLeaderFacts(e.nodes[at]);
    forall x ensures BallotStays(e, d, x) {
    }
    forall x ensures OldOrTail(e, d, at, x) {
    }
    ElectStep(e, d, at);
  }

  /** Winning at once is standing and then winning. */
  lemma SoloMoves(c: System, at: Id, l: Node)
    requires at in c.nodes && c.nodes[at].id == at && l == BecomeLeader(Standing(c.nodes[at])) && l.id == at
    requires l.term == c.nodes[at].term + 1 && l.role == Leader
    ensures var e := Move(c, at, multiset{}, Stepped(Standing(c.nodes[at]), []));
            var d := Move(c, at, multiset{}, Stepped(l, []));
            && d.net == e.net && d.nodes == e.nodes[at := l]
            && d.hist == History(e.hist.sent, e.hist.campaigns, e.hist.elected[l.term := at],
                                 e.hist.logs[l.term := l.log.entries], e.hist.acks[(l.term, at) := |l.log.entries|])
  {
  }

  lemma SoloElects(c: System, at: Id, o: Outcome)
    requires Inv(c) && at in c.nodes && c.nodes[at].role != Leader && |c.peers| == 1 && o == Campaign(c.nodes[at])
    ensures Inv(Move(c, at, multiset{}, o)) && Advances(c, Move(c, at, multiset{}, o))
  {
    OnlyPeer(c, at);
    SoloOutcome(c.nodes[at]);
    SoloStands(c, at);
    var cand := Standing(c.nodes[at]);
    BecomeLeaderFacts(cand);
    BasicMove(c, at, multiset{}, o);
    SoloMoves(c, at, o.node);
    var e, d := Move(c, at, multiset{}, Stepped(cand, [])), Move(c, at, multiset{}, o);
    SoloLeads(e, d, at, o.node);
    AdvancesTransitive(c, e, d);
  }

  // ---------------------------------------------------------------- proposing and resending

  lemma ProposalPolite(c: System, at: Id, es: seq<Entry>, o: Outcome)
    requires Basic(c) && at in c.nodes && c.nodes[at].WellFormed() && o == HandlePropose(c.nodes[at], es)
    ensures Polite(c, at, o) && NoBallots(o.out) && o.node.role == c.nodes[at].role && o.node.term == c.nodes[at].term
    ensures o.node.vote == c.nodes[at].vote && o.node.voteReceived == c.nodes[at].voteReceived
    ensures c.nodes[at].log.entries <= o.node.log.entries && NumberedFrom(o.node.log.entries, 1)
    ensures forall k :: |c.nodes[at].log.entries| <= k < |o.node.log.entries| ==>
                          o.node.log.entries[k].term == o.node.term
    ensures forall x :: x in o.out ==> ShipsTail(o.node, x)
  {
    assert NodeShape(c, at) && Uncompacted(c, at);
    ProposeFacts(c.nodes[at], es);
    BroadcastSends(c, o.node);
  }

  /** The leader's log grew; nothing about elections changed. */
  lemma ProposeStep(c: System, d: System, at: Id)
    requires Inv(c) && Basic(d) && NoNewBallots(c, d) && OnlyShips(c, d, at) && AppendsOnly(c, d)
    requires at in c.nodes && c.nodes[at].role == Leader && Extends(c, d, at)
    requires d.hist.campaigns == c.hist.campaigns
    requires d.hist.acks == c.hist.acks[(d.nodes[at].term, at) := |d.nodes[at].log.entries|]
    ensures Inv(d) && Advances(c, d)
  {
    var t := d.nodes[at].term;
    assert LeaderOk(c, at);
    assert c.hist.elected[t := at] == c.hist.elected;
    forall a: Id | Granted(c.hist, at, a, t) ensures false {
      VoterFollows(c, at, a);
    }
    VoteQuiet(c, d, at);
    assert LeaderOk(d, at);
    LogExtend(c, d, at);
    LeaderAcks(c, d, at);
  }

  lemma LeaderMove(c: System, at: Id, used: multiset<Message>, o: Outcome)
    requires at in c.nodes && o.Stepped? && o.node.id == at && o.node.role == Leader && c.nodes[at].role == Leader
    requires o.node.term == c.nodes[at].term >= 1
    requires c.nodes[at].log.entries <= o.node.log.entries && NumberedFrom(o.node.log.entries, 1)
    requires forall k :: |c.nodes[at].log.entries| <= k < |o.node.log.entries| ==>
                           o.node.log.entries[k].term == o.node.term
    ensures Extends(c, Move(c, at, used, o), at)
  {
  }

  lemma LeaderSends(c: System, at: Id, used: multiset<Message>, o: Outcome)
    requires at in c.nodes && o.Stepped? && o.node.role == Leader
    requires forall x :: x in o.out ==> ShipsTail(o.node, x)
    ensures OnlyShips(c, Move(c, at, used, o), at) && AppendsOnly(c, Move(c, at, used, o))
  {
    forall x ensures OldOrTail(c, Move(c, at, used, o), at, x) {
    }
  }

  lemma StepProposal(c: System, at: Id, es: seq<Entry>, o: Outcome)
    requires Inv(c) && at in c.nodes && c.nodes[at].role == Leader && c.nodes[at].WellFormed()
    requires o == HandlePropose(c.nodes[at], es)
    ensures Inv(Move(c, at, multiset{}, o)) && Advances(c, Move(c, at, multiset{}, o))
  {
    ProposalPolite(c, at, es, o);
    BasicMove(c, at, multiset{}, o);
    LeaderHistory(c, at, multiset{}, o);
    MoveBallots(c, at, multiset{}, o);
    assert o.node.term >= 1 by {
      assert LeaderOk(c, at) && ElectedOk(c, o.node.term) && CampaignOk(c, o.node.term, at);
    }
    LeaderMove(c, at, multiset{}, o);
    LeaderSends(c, at, multiset{}, o);
    ProposeStep(c, Move(c, at, multiset{}, o), at);
  }

  lemma StepResend(c: System, at: Id, to: Id, o: Outcome)
    requires Inv(c) && at in c.nodes && to in c.nodes && at != to && c.nodes[at].role == Leader
    requires c.nodes[at].WellFormed() && to in c.nodes[at].prs && o == Stepped(c.nodes[at], SendAppend(c.nodes[at], to))
    ensures Inv(Move(c, at, multiset{}, o)) && Advances(c, Move(c, at, multiset{}, o))
  {
    assert NodeShape(c, at) && Uncompacted(c, at);
    forall m | m in o.out ensures ShipsTail(o.node, m) && m.to == to {
      SendAppendShipsTail(o.node, to, m);
    }
    forall a: Id | Granted(c.hist, at, a, o.node.term) ensures false {
      VoterFollows(c, at, a);
    }
    QuietStep(c, at, multiset{}, o);
  }

  // ---------------------------------------------------------------- receiving appends

  /** No leader hears an append of its own term, and a vote given in the term is kept. */
  lemma AppendStanding(c: System, m: Message, o: Outcome)
    requires Inv(c) && m in c.net && m.Append? && m.to in c.nodes && o == HandleAppend(c.nodes[m.to], m) && o.Stepped?
    ensures o.node.term >= c.nodes[m.to].term
    ensures o.node.role != Follower ==> o.node.role == c.nodes[m.to].role && o.node.term == c.nodes[m.to].term
    ensures o.node.term == c.nodes[m.to].term && c.nodes[m.to].role == Leader ==> o.node.role == Leader
    ensures forall a: Id :: Granted(c.hist, m.to, a, o.node.term) && o.node.term == c.nodes[m.to].term ==>
                              o.node.role == Follower && o.node.vote == a
    ensures m.from in c.nodes && m.from != m.to && m in c.hist.sent
  {
    assert Addressed(c, m) && ShipmentOk(c.hist, m) && LeaderOk(c, m.to);
    forall a: Id | Granted(c.hist, m.to, a, o.node.term) && o.node.term == c.nodes[m.to].term
      ensures o.node.role == Follower && o.node.vote == a
    {
      assert GrantOk(c, m.to, a, o.node.term);
    }
  }

  lemma StepAppendRefused(c: System, m: Message, o: Outcome)
    requires Inv(c) && m in c.net && m.Append? && m.to in c.nodes && o == HandleAppend(c.nodes[m.to], m) && o.Stepped?
    requires m.term < c.nodes[m.to].term || KeptPrefix(c.nodes[m.to].log, m.index, m.logTerm).None?
    ensures Inv(Move(c, m.to, multiset{m}, o)) && Advances(c, Move(c, m.to, multiset{m}, o))
  {
    var at, n := m.to, c.nodes[m.to];
    AppendStanding(c, m, o);
    assert Polite(c, at, o) by { assert NodeShape(c, at) && Uncompacted(c, at); }
    MoveBallots(c, at, multiset{m}, o);
    if n.role == Candidate { TallyKept(c, Move(c, at, multiset{m}, o), at); }
    QuietStep(c, at, multiset{m}, o);
  }

  /** What an accepted append leaves: a piece of the leader's log, acknowledged through its end. */
  ghost predicate AcceptShape(c: System, m: Message, o: Outcome)
    requires m.Append? && m.to in c.nodes
  {
    && o.Stepped?
    && o.node.term == m.term && o.node.role == Follower && m.term in c.hist.logs
    && (var es := o.node.log.entries;
        && 1 <= |es| <= |c.hist.logs[m.term]|
        && es == c.hist.logs[m.term][..|es|]
        && es[|es| - 1].term == m.term
        && AtLeast(RecencyOf(es), RecencyOf(c.nodes[m.to].log.entries))
        && o.out == [AppendResponse(m.to, m.from, m.term, false, |es|, 0)])
  }

  lemma AcceptOutcome(n: Node, m: Message, kept: nat, o: Outcome)
    requires m.Append? && m.term >= n.term && KeptPrefix(n.log, m.index, m.logTerm) == Some(kept)
    requires o == HandleAppend(n, m) && o.Stepped?
    ensures o.node.term == m.term && o.node.role == Follower
    ensures kept <= |n.log.entries| && o.node.log.entries == Install(n.log, kept, m.entries).entries
    ensures o.out == [AppendResponse(n.id, m.from, m.term, false, n.log.snapIndex + |o.node.log.entries|, 0)]
  {
  }

  /** An append in flight ships a piece of its leader's log, which ends in the leader's term. */
  lemma ShippedPiece(c: System, m: Message)
    requires Inv(c) && m in c.net && m.Append?
    ensures var h := c.hist;
            && AllLeaderLogsOk(h) && m.term in h.logs && |m.entries| >= 1 && m.index + |m.entries| <= |h.logs[m.term]|
            && m.entries == h.logs[m.term][m.index..m.index + |m.entries|]
            && m.entries[|m.entries| - 1].term == m.term && m.logTerm == TermOf(h.logs[m.term], m.index)
  {
    assert m in c.hist.sent by { assert Addressed(c, m); }
    assert ShipmentOk(c.hist, m);
  }

  lemma ReceiverShape(c: System, n: Id)
    requires Inv(c) && n in c.nodes
    ensures c.nodes[n].id == n && c.nodes[n].log.snapIndex == 0 && c.nodes[n].log.snapTerm == 0
    ensures TermsUpTo(c.nodes[n].log.entries, c.nodes[n].term) && Coherent(c.nodes[n].log.entries, c.hist.logs)
  {
    assert NodeShape(c, n) && Uncompacted(c, n) && NodeLogOk(c, n);
  }

  lemma AcceptedLog(c: System, m: Message)
    requires Inv(c) && m in c.net && m.Append? && m.to in c.nodes && m.term >= c.nodes[m.to].term
    requires KeptPrefix(c.nodes[m.to].log, m.index, m.logTerm).Some?
    ensures KeptPrefix(c.nodes[m.to].log, m.index, m.logTerm) == Some(m.index)
    ensures m.index <= |c.nodes[m.to].log.entries|
    ensures m.term in c.hist.logs && c.nodes[m.to].id == m.to && c.nodes[m.to].log.snapIndex == 0
    ensures var es := Install(c.nodes[m.to].log, m.index, m.entries).entries;
            && m.index + |m.entries| <= |es| <= |c.hist.logs[m.term]|
            && 1 <= |es|
            && es == c.hist.logs[m.term][..|es|]
            && es[|es| - 1].term == m.term
            && AtLeast(RecencyOf(es), RecencyOf(c.nodes[m.to].log.entries))
  {
    var l := c.nodes[m.to].log;
    ShippedPiece(c, m);
    ReceiverShape(c, m.to);
    KeptAgrees(c.hist, l, m.term, m.index, m.logTerm);
    AcceptedIsLeaderPrefix(c.hist, l, m.term, m.index, m.entries);
  }

  lemma Accepted(c: System, m: Message, o: Outcome)
    requires Inv(c) && m in c.net && m.Append? && m.to in c.nodes && o == HandleAppend(c.nodes[m.to], m) && o.Stepped?
    requires m.term >= c.nodes[m.to].term && KeptPrefix(c.nodes[m.to].log, m.index, m.logTerm).Some?
    ensures AcceptShape(c, m, o)
  {
    AcceptedLog(c, m);
    AcceptOutcome(c.nodes[m.to], m, m.index, o);
  }

  lemma AcceptPolite(c: System, m: Message, o: Outcome)
    requires Inv(c) && m in c.net && m.Append? && m.to in c.nodes && o == HandleAppend(c.nodes[m.to], m)
    requires m.term >= c.nodes[m.to].term && AcceptShape(c, m, o)
    ensures Polite(c, m.to, o)
  {
    assert NodeShape(c, m.to) && Uncompacted(c, m.to) && Addressed(c, m) && LeaderLogOk(c.hist, m.term);
  }

  lemma AcceptAcks(c: System, d: System, at: Id, m: Message)
    requires VoteInv(c) && LogInv(c) && AckInv(c) && VoteInv(d) && NoNewBallots(c, d) && Adopts(c, d, at, m.term)
    requires m.Append? && m in c.hist.sent && d.nodes[at].term >= c.nodes[at].term
    requires AtLeast(RecencyOf(d.nodes[at].log.entries), RecencyOf(c.nodes[at].log.entries))
    requires d.hist.campaigns == c.hist.campaigns
    requires d.hist.acks == c.hist.acks[(m.term, at) := |d.nodes[at].log.entries|]
    requires d.hist.sent == c.hist.sent + {AppendResponse(at, m.from, m.term, false, |d.nodes[at].log.entries|, 0)}
    requires c.nodes[at].term == m.term ==> c.nodes[at].role != Leader
    ensures AckInv(d) && Advances(c, d)
  {
    assert ShipmentOk(c.hist, m) && AckOk(c, m.term, at) && LeaderLogOk(c.hist, m.term);
    forall t, n ensures AckKept(c, d, at, t, n) {
    }
    forall t, a ensures CampaignKept(c, d, at, t, a) {
    }
    forall v, a, t ensures GrantKept(c, d, at, v, a, t) {
      SameGrants(c, d, v, a, t);
    }
    forall x ensures ResponseKept(c, d, at, x) {
    }
    forall t ensures LeadershipKept(c, d, at, t) {
      assert ExtendsCampaign(c.hist, t) && ElectedOk(c, t);
      if t in c.hist.elected && c.hist.elected[t] == at { assert CampaignOk(c, t, at); }
    }
    AckStep(c, d, at);
  }

  lemma AcceptHistory(c: System, m: Message, o: Outcome)
    requires m.Append? && m.to in c.nodes && AcceptShape(c, m, o) && o.node.id == m.to
    ensures var d := Move(c, m.to, multiset{m}, o);
            && NoBallots(o.out)
            && d.hist == History(c.hist.sent + {AppendResponse(m.to, m.from, m.term, false, |o.node.log.entries|, 0)},
                                 c.hist.campaigns, c.hist.elected, c.hist.logs,
                                 c.hist.acks[(m.term, m.to) := |o.node.log.entries|])
  {
  }

  /** The receiver has taken and answered the append; it did not lead the append's term, and keeps its vote there. */
  ghost predicate Takes(c: System, d: System, m: Message) {
    && m.Append? && m in c.hist.sent
    && Adopts(c, d, m.to, m.term)
    && (var es := d.nodes[m.to].log.entries;
        && AtLeast(RecencyOf(es), RecencyOf(c.nodes[m.to].log.entries))
        && d.hist == c.hist.(sent := c.hist.sent + {AppendResponse(m.to, m.from, m.term, false, |es|, 0)},
                             acks := c.hist.acks[(m.term, m.to) := |es|]))
    && m.term >= c.nodes[m.to].term
    && (c.nodes[m.to].term == m.term ==> c.nodes[m.to].role != Leader)
    && (forall a: Id :: Granted(c.hist, m.to, a, m.term) && c.nodes[m.to].term == m.term ==> d.nodes[m.to].vote == a)
  }

  lemma TakesInv(c: System, d: System, m: Message)
    requires VoteInv(c) && LogInv(c) && AckInv(c) && NoNewBallots(c, d) && Takes(c, d, m)
    ensures VoteInv(d) && LogInv(d) && AckInv(d) && Advances(c, d)
  {
    VoteQuiet(c, d, m.to);
    LogAccept(c, d, m.to, m.term);
    AcceptAcks(c, d, m.to, m);
  }

  lemma AcceptStep(c: System, m: Message, o: Outcome)
    requires Inv(c) && m.Append? && m in c.hist.sent && Polite(c, m.to, o) && AcceptShape(c, m, o)
    requires o.node.term >= c.nodes[m.to].term
    requires o.node.term == c.nodes[m.to].term ==> c.nodes[m.to].role != Leader
    requires forall a: Id :: Granted(c.hist, m.to, a, o.node.term) && o.node.term == c.nodes[m.to].term ==>
                               o.node.vote == a
    ensures Inv(Move(c, m.to, multiset{m}, o)) && Advances(c, Move(c, m.to, multiset{m}, o))
  {
    var d := Move(c, m.to, multiset{m}, o);
    BasicMove(c, m.to, multiset{m}, o);
    AcceptHistory(c, m, o);
    MoveBallots(c, m.to, multiset{m}, o);
    TakesInv(c, d, m);
  }

  lemma StepAppendAccepted(c: System, m: Message, o: Outcome)
    requires Inv(c) && m in c.net && m.Append? && m.to in c.nodes && o == HandleAppend(c.nodes[m.to], m) && o.Stepped?
    requires m.term >= c.nodes[m.to].term && KeptPrefix(c.nodes[m.to].log, m.index, m.logTerm).Some?
    ensures Inv(Move(c, m.to, multiset{m}, o)) && Advances(c, Move(c, m.to, multiset{m}, o))
  {
    Accepted(c, m, o);
    AcceptPolite(c, m, o);
    AppendStanding(c, m, o);
    AcceptStep(c, m, o);
  }

  // ---------------------------------------------------------------- commit indices and responses

  lemma StepCommitUpdate(c: System, m: Message, o: Outcome)
    requires Inv(c) && m in c.net && m.CommitUpdate? && m.to in c.nodes
    requires o == HandleCommitUpdate(c.nodes[m.to], m) && o.Stepped?
    ensures Inv(Move(c, m.to, multiset{m}, o)) && Advances(c, Move(c, m.to, multiset{m}, o))
  {
    var at, n := m.to, c.nodes[m.to];
    assert Polite(c, at, o) by { assert NodeShape(c, at) && Uncompacted(c, at); }
    MoveBallots(c, at, multiset{m}, o);
    if n.role == Candidate { TallyKept(c, Move(c, at, multiset{m}, o), at); }
    forall a: Id | Granted(c.hist, at, a, n.term) ensures n.role == Follower && n.vote == a {
      assert GrantOk(c, at, a, n.term);
    }
    QuietStep(c, at, multiset{m}, o);
  }

  lemma RefusalPolite(c: System, m: Message, o: Outcome)
    requires Basic(c) && m in c.net && m.AppendResponse? && m.reject && m.to in c.nodes && c.nodes[m.to].WellFormed()
    requires o == HandleAppendResponse(c.nodes[m.to], m) && o.Stepped?
    ensures Polite(c, m.to, o)
    ensures forall x :: x in o.out ==> x.Append? && ShipsTail(o.node, x)
  {
    assert NodeShape(c, m.to) && Uncompacted(c, m.to) && Addressed(c, m);
    AfterLastOfTermPositive(c.nodes[m.to].log.entries, m.conflictTerm);
    forall x | x in o.out ensures ShipsTail(o.node, x) && x.to == m.from {
      SendAppendShipsTail(o.node, m.from, x);
    }
  }

  /** What the leader does with a positive response, short of the messages it sends. */
  lemma AckOutcome(n: Node, m: Message, o: Outcome)
    requires n.WellFormed() && m.AppendResponse? && !m.reject && o == HandleAppendResponse(n, m) && o.Stepped?
    ensures m.from in n.prs && o.node.prs.Keys == n.prs.Keys && o.node.WellFormed()
    ensures o.node == n.(prs := o.node.prs, log := n.log.(committed := o.node.log.committed))
    ensures forall x :: x in o.out ==>
                          x.CommitUpdate? && x.from == n.id && x.to in n.peers && (x.to == m.from || x.to != n.id)
  {
    if m.index > n.prs[m.from].matched {
      var n1 := n.(prs := n.prs[m.from := Progress(m.index, m.index + 1)]);
      assert n1.prs.Keys == n.prs.Keys;
      ToldArePeers(n1, m.from, m.index);
    }
  }

  lemma ToldArePeers(n: Node, sender: Id, index: nat)
    requires n.WellFormed() && sender in n.prs
    ensures forall x :: x in CommitUpdates(n, [sender], index) ==> x.CommitUpdate? && x.from == n.id && x.to == sender
    ensures forall x :: x in CommitUpdates(n, [sender] + ReachedBy(n, n.peers, sender, index), index) ==>
                          x.CommitUpdate? && x.from == n.id && x.to in n.peers && (x.to == sender || x.to != n.id)
    ensures sender in n.peers
  {
    assert sender in n.peers;
    ReachedByFacts(n, n.peers, sender, index);
    UpdatesGoTo(n, [sender], index);
    UpdatesGoTo(n, [sender] + ReachedBy(n, n.peers, sender, index), index);
  }

  lemma UpdatesGoTo(n: Node, to: seq<Id>, commit: nat)
    ensures forall x :: x in CommitUpdates(n, to, commit) ==> x.CommitUpdate? && x.from == n.id && x.to in to
  {
  }

  lemma AckPolite(c: System, m: Message, o: Outcome)
    requires Basic(c) && m in c.net && m.AppendResponse? && !m.reject && m.to in c.nodes && c.nodes[m.to].WellFormed()
    requires o == HandleAppendResponse(c.nodes[m.to], m) && o.Stepped?
    ensures Polite(c, m.to, o)
    ensures forall x :: x in o.out ==> x.CommitUpdate?
  {
    assert NodeShape(c, m.to) && Uncompacted(c, m.to) && Addressed(c, m);
    AckOutcome(c.nodes[m.to], m, o);
  }

  lemma StepAppendResponse(c: System, m: Message, o: Outcome)
    requires Inv(c) && m in c.net && m.AppendResponse? && m.to in c.nodes && c.nodes[m.to].WellFormed()
    requires c.nodes[m.to].role == Leader && o == HandleAppendResponse(c.nodes[m.to], m) && o.Stepped?
    ensures Inv(Move(c, m.to, multiset{m}, o)) && Advances(c, Move(c, m.to, multiset{m}, o))
  {
    var at := m.to;
    if m.reject { RefusalPolite(c, m, o); } else { AckPolite(c, m, o); }
    forall a: Id | Granted(c.hist, at, a, o.node.term) ensures false {
      VoterFollows(c, at, a);
    }
    QuietStep(c, at, multiset{m}, o);
  }

  /** A response that the node's role makes it ignore. */
  lemma StepIgnored(c: System, m: Message)
    requires Inv(c) && m in c.net && m.to in c.nodes
    ensures var d := Move(c, m.to, multiset{m}, Stepped(c.nodes[m.to], [])); Inv(d) && Advances(c, d)
  {
    var at, n := m.to, c.nodes[m.to];
    var o := Stepped(n, []);
    assert Polite(c, at, o) by { assert NodeShape(c, at) && Uncompacted(c, at); }
    MoveBallots(c, at, multiset{m}, o);
    if n.role == Candidate { TallyKept(c, Move(c, at, multiset{m}, o), at); }
    forall a: Id | Granted(c.hist, at, a, n.term) ensures n.role == Follower && n.vote == a {
      assert GrantOk(c, at, a, n.term);
    }
    QuietStep(c, at, multiset{m}, o);
  }

  /** A heartbeat that takes no vote of its own term away changes nothing but standing. */
  lemma StepBeat(c: System, at: Id, from: Id, term: nat, o: Outcome)
    requires Inv(c) && Enabled(c, Beat(at, from, term)) && o == Stepped(HandleHeartbeat(c.nodes[at], from, term), [])
    ensures Inv(Move(c, at, multiset{}, o)) && Advances(c, Move(c, at, multiset{}, o))
  {
    var n := c.nodes[at];
    assert Polite(c, at, o) by { assert NodeShape(c, at) && Uncompacted(c, at); }
    assert LeaderOk(c, at);
    MoveBallots(c, at, multiset{}, o);
    if n.role == Candidate { TallyKept(c, Move(c, at, multiset{}, o), at); }
    forall a: Id | Granted(c.hist, at, a, o.node.term) && o.node.term == n.term
      ensures o.node.role == Follower && o.node.vote == a
    {
      assert GrantOk(c, at, a, n.term);
    }
    QuietStep(c, at, multiset{}, o);
  }

  // ---------------------------------------------------------------- every event

  lemma StepNetwork(c: System, d: System)
    requires Inv(c) && d == c.(net := d.net)
    requires forall m :: m in d.net ==> m in c.net
    requires forall m :: m in d.net && IsElectionMessage(m) ==> d.net[m] <= c.net[m]
    ensures Inv(d) && Advances(c, d)
  {
    forall n ensures NodeShape(d, n) { assert NodeShape(c, n); }
    forall n ensures Uncompacted(d, n) { assert Uncompacted(c, n); }
    forall m ensures Addressed(d, m) { assert Addressed(c, m); }
    forall m ensures BallotStays(c, d, m) { }
    forall n ensures NodeLogOk(d, n) { assert NodeLogOk(c, n); }
    forall t, n ensures AckOk(d, t, n) { assert AckOk(c, t, n); }
    forall n ensures NodeAges(c, d, n) { }
    if at :| at in c.nodes {
      if c.nodes[at].role == Candidate { TallyKept(c, d, at); }
      forall a: Id | Granted(c.hist, at, a, c.nodes[at].term)
        ensures c.nodes[at].role == Follower && c.nodes[at].vote == a
      {
        assert GrantOk(c, at, a, c.nodes[at].term);
      }
      VoteQuiet(c, d, at);
    } else {
      VoteQuiet(c, d, NOBODY);
    }
  }

  lemma StepDeliver(c: System, m: Message, o: Outcome)
    requires Inv(c) && m in c.net && m.to in c.nodes && c.nodes[m.to].WellFormed()
    requires o == Receive(c.nodes[m.to], m) && o.Stepped?
    ensures Inv(Move(c, m.to, multiset{m}, o)) && Advances(c, Move(c, m.to, multiset{m}, o))
  {
    var n := c.nodes[m.to];
    assert n.peers == c.peers by { assert NodeShape(c, m.to); }
    match m {
      case RequestVote(_, _, _, _, _) =>
        if o.out == [VoteResponse(m.to, m.from, m.term, false)] { StepGrant(c, m, o); } else { StepRefuse(c, m, o); }
      case VoteResponse(_, _, _, _) =>
        if n.role != Candidate { StepIgnored(c, m); }
        else if m.term == n.term && !m.reject && n.voteReceived + 1 > |n.peers| / 2 { StepWon(c, m, o); }
        else { StepTallied(c, m, o); }
      case Append(_, _, _, _, _, _, _) =>
        if m.term < n.term || KeptPrefix(n.log, m.index, m.logTerm).None? { StepAppendRefused(c, m, o); }
        else { StepAppendAccepted(c, m, o); }
      case CommitUpdate(_, _, _, _) => StepCommitUpdate(c, m, o);
      case AppendResponse(_, _, _, _, _, _) =>
        if n.role == Leader { StepAppendResponse(c, m, o); } else { StepIgnored(c, m); }
    }
  }

  /** Every event that can happen keeps the invariant. */
  lemma StepKeepsInv(c: System, e: Event)
    requires Inv(c) && Enabled(c, e)
    ensures Inv(Apply(c, e)) && Advances(c, Apply(c, e))
  {
    match e {
      case Timeout(at) =>
        if |c.peers| == 1 { SoloElects(c, at, Campaign(c.nodes[at])); }
        else { StepCampaign(c, at, Campaign(c.nodes[at])); }
      case Proposal(at, es) =>
        assert NodeShape(c, at);
        StepProposal(c, at, es, HandlePropose(c.nodes[at], es));
      case Resend(at, to) =>
        assert NodeShape(c, at);
        StepResend(c, at, to, Reaction(c, e));
      case Beat(at, from, term) => StepBeat(c, at, from, term, Reaction(c, e));
      case Deliver(m) =>
        assert NodeShape(c, m.to);
        StepDeliver(c, m, Receive(c.nodes[m.to], m));
      case Drop(m) => StepNetwork(c, Apply(c, e));
      case Duplicate(m) => StepNetwork(c, Apply(c, e));
    }
  }

  lemma InitInv(c: System)
    requires Init(c)
    ensures Inv(c)
  {
    assert c.nodes.Keys == Elements(c.peers);
    forall n ensures NodeShape(c, n) && CandidateOk(c, n) && LeaderOk(c, n) && NodeLogOk(c, n) {
      if n in c.nodes { assert Coherent([], c.hist.logs); }
    }
  }
}
