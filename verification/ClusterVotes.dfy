/** Elections: every kind of step keeps what is known about campaigns, votes and leaders. */
module ClusterVotes {
  import opened Common
  import opened RaftTypes
  import opened Cluster
  import opened ClusterInv

  ghost predicate IsGrant(m: Message) {
    m.VoteResponse? && !m.reject
  }

  /** The step sends neither a vote nor a request for one. */
  ghost predicate NoBallots(out: seq<Message>) {
    forall m :: m in out ==> !m.RequestVote? && !IsGrant(m)
  }

  /** No ballot was sent between the two states, though some may have left the network. */
  ghost predicate BallotStays(c: System, d: System, m: Message) {
    m.RequestVote? || IsGrant(m) ==> (m in d.hist.sent <==> m in c.hist.sent) && d.net[m] <= c.net[m]
  }

  ghost predicate NoNewBallots(c: System, d: System) {
    && d.nodes.Keys == c.nodes.Keys
    && forall m {:trigger BallotStays(c, d, m)} :: BallotStays(c, d, m)
  }

  lemma MoveBallots(c: System, at: Id, used: multiset<Message>, o: Outcome)
    requires at in c.nodes && o.Stepped? && NoBallots(o.out)
    ensures NoNewBallots(c, Move(c, at, used, o))
  {
    var d := Move(c, at, used, o);
    forall m: Message | m.RequestVote? || IsGrant(m) ensures BallotStays(c, d, m) {
      assert m !in o.out;
      assert multiset(o.out)[m] == 0;
    }
  }

  lemma SameGrants(c: System, d: System, v: Id, a: Id, t: nat)
    requires NoNewBallots(c, d)
    ensures Granted(d.hist, v, a, t) == Granted(c.hist, v, a, t)
    ensures d.net[VoteResponse(v, a, t, false)] <= c.net[VoteResponse(v, a, t, false)]
  {
    assert BallotStays(c, d, VoteResponse(v, a, t, false));
  }

  lemma CountedGrows(c: System, d: System, n: Id, t: nat)
    requires NoNewBallots(c, d)
    ensures |Counted(c, n, t)| <= |Counted(d, n, t)|
  {
    forall v | v in Counted(c, n, t) ensures v in Counted(d, n, t) {
      SameGrants(c, d, v, n, t);
    }
    SubsetCardinality(Counted(c, n, t), Counted(d, n, t));
  }

  lemma SameVoters(c: System, d: System, t: nat, a: Id)
    requires NoNewBallots(c, d)
    ensures Voters(d, t, a) == Voters(c, t, a)
  {
    forall v: Id ensures Granted(d.hist, v, a, t) == Granted(c.hist, v, a, t) {
      SameGrants(c, d, v, a, t);
    }
  }

  /**
   A step of node `at` (or of the network alone) in which no ballot is sent, no election is won and no
   campaign starts: the node keeps its standing in the term, or falls back to follower.
   */
  ghost predicate KeepsStanding(c: System, d: System, at: Id) {
    && d.nodes.Keys == c.nodes.Keys
    && d.hist.campaigns == c.hist.campaigns
    && d.hist.elected == c.hist.elected
    && (forall n :: n in c.nodes && n != at ==> d.nodes[n] == c.nodes[n])
    && (at in c.nodes ==>
          var n, n' := c.nodes[at], d.nodes[at];
          && n.term <= n'.term
          && (n'.role != Follower ==>
                && n'.role == n.role && n'.term == n.term
                && (n.role == Candidate ==>
                      n'.log.entries == n.log.entries && n'.voteReceived <= 1 + |Counted(d, at, n'.term)|))
          && (n'.term == n.term && n.role == Leader ==> n'.role == Leader)
          && (forall a: Id {:trigger Granted(c.hist, at, a, n'.term)} ::
                Granted(c.hist, at, a, n'.term) && n'.term == n.term ==> n'.role == Follower && n'.vote == a))
  }

  lemma VoteQuiet(c: System, d: System, at: Id)
    requires VoteInv(c) && NoNewBallots(c, d) && KeepsStanding(c, d, at)
    ensures VoteInv(d)
  {
    forall m ensures RequestOk(d, m) {
      assert RequestOk(c, m) && BallotStays(c, d, m);
      if m.RequestVote? { SameGrants(c, d, m.to, m.from, m.term); }
    }
    forall v, a, t ensures GrantOk(d, v, a, t) {
      assert GrantOk(c, v, a, t);
      SameGrants(c, d, v, a, t);
    }
    forall v, a, b, t ensures OneVote(d, v, a, b, t) {
      assert OneVote(c, v, a, b, t);
      SameGrants(c, d, v, a, t);
      SameGrants(c, d, v, b, t);
    }
    forall t, a ensures CampaignOk(d, t, a) {
      assert CampaignOk(c, t, a);
    }
    forall n ensures CandidateOk(d, n) && LeaderOk(d, n) {
      assert CandidateOk(c, n) && LeaderOk(c, n);
      if n in c.nodes { CountedGrows(c, d, n, c.nodes[n].term); }
    }
    forall t ensures ElectedOk(d, t) {
      assert ElectedOk(c, t);
      if t in c.hist.elected {
        SameVoters(c, d, t, c.hist.elected[t]);
        assert CampaignOk(c, t, c.hist.elected[t]);
      }
    }
    forall t, a ensures LeaderVotedSelf(d, t, a) {
      assert LeaderVotedSelf(c, t, a);
      if t in c.hist.elected { SameGrants(c, d, c.hist.elected[t], a, t); }
    }
  }

  /** A voter takes a request from the network and grants it, which it may do only if its vote is free. */
  ghost predicate Grants(c: System, d: System, m: Message) {
    && m.RequestVote? && m in c.net && m.to in c.nodes && m.from != NOBODY
    && (var n, g := c.nodes[m.to], VoteResponse(m.to, m.from, m.term, false);
        && g !in c.net
        && (m.term > n.term || (m.term == n.term && n.role == Follower && (n.vote == NOBODY || n.vote == m.from)))
        && d.net == c.net - multiset{m} + multiset{g}
        && d.hist == c.hist.(sent := c.hist.sent + {g}))
    && d.nodes.Keys == c.nodes.Keys
    && (forall n :: n in c.nodes && n != m.to ==> d.nodes[n] == c.nodes[n])
    && d.nodes[m.to].term == m.term
    && d.nodes[m.to].role == Follower
    && d.nodes[m.to].vote == m.from
  }

  lemma VoteGrant(c: System, d: System, m: Message)
    requires Mail(c) && VoteInv(c) && Grants(c, d, m)
    ensures VoteInv(d)
  {
    var v := m.to;
    assert RequestOk(c, m) && Addressed(c, m);
    assert forall w: Id, a: Id, t: nat :: Granted(d.hist, w, a, t) <==>
      Granted(c.hist, w, a, t) || (w == v && a == m.from && t == m.term);
    forall x ensures RequestOk(d, x) {
      assert RequestOk(c, x) && Addressed(c, x);
    }
    forall w, a, t ensures GrantOk(d, w, a, t) {
      assert GrantOk(c, w, a, t);
    }
    forall w, a, b, t ensures OneVote(d, w, a, b, t) {
      assert OneVote(c, w, a, b, t) && GrantOk(c, w, a, t) && GrantOk(c, w, b, t);
    }
    forall t, a ensures CampaignOk(d, t, a) {
      assert CampaignOk(c, t, a);
    }
    forall x ensures CandidateOk(d, x) && LeaderOk(d, x) {
      assert CandidateOk(c, x) && LeaderOk(c, x);
      if x in c.nodes {
        var t := c.nodes[x].term;
        assert Counted(c, x, t) <= Counted(d, x, t);
        SubsetCardinality(Counted(c, x, t), Counted(d, x, t));
      }
    }
    forall t ensures ElectedOk(d, t) {
      assert ElectedOk(c, t);
      if t in c.hist.elected {
        var l := c.hist.elected[t];
        assert CampaignOk(c, t, l);
        assert Voters(c, t, l) <= Voters(d, t, l);
        SubsetCardinality(Voters(c, t, l), Voters(d, t, l));
      }
    }
    forall t, a ensures LeaderVotedSelf(d, t, a) {
      assert ElectedOk(c, t) && LeaderVotedSelf(c, t, a);
      if t in c.hist.elected { assert CampaignOk(c, t, c.hist.elected[t]); }
    }
  }

  /** A node starts a campaign in a term it has never been in. */
  ghost predicate Campaigns(c: System, d: System, at: Id) {
    && at in c.nodes && c.nodes[at].role != Leader
    && d.nodes.Keys == c.nodes.Keys
    && (forall n :: n in c.nodes && n != at ==> d.nodes[n] == c.nodes[n])
    && (var n, n' := c.nodes[at], d.nodes[at];
        && n'.term == n.term + 1
        && n'.role == Candidate
        && n'.voteReceived == 1
        && n'.log.entries == n.log.entries
        && d.hist.elected == c.hist.elected
        && d.hist.campaigns == c.hist.campaigns[(n'.term, at) := RecencyOf(n.log.entries)]
        && (forall m {:trigger CallOrStay(c, d, at, m)} :: CallOrStay(c, d, at, m)))
  }

  /** The only new ballots are the campaign's own requests, each sent once. */
  ghost predicate CallOrStay(c: System, d: System, at: Id, m: Message)
    requires at in c.nodes
  {
    if m.RequestVote? && m.from == at && m.term == c.nodes[at].term + 1 then
      && d.net[m] <= c.net[m] + 1
      && (m in d.hist.sent && m !in c.hist.sent ==>
            Recency(m.logTerm, m.index) == RecencyOf(c.nodes[at].log.entries))
    else BallotStays(c, d, m)
  }

  lemma CampaignGrants(c: System, d: System, at: Id, v: Id, a: Id, t: nat)
    requires Campaigns(c, d, at)
    ensures Granted(d.hist, v, a, t) == Granted(c.hist, v, a, t)
    ensures d.net[VoteResponse(v, a, t, false)] <= c.net[VoteResponse(v, a, t, false)]
  {
    assert CallOrStay(c, d, at, VoteResponse(v, a, t, false));
  }

  lemma VoteCampaign(c: System, d: System, at: Id)
    requires Mail(c) && VoteInv(c) && Campaigns(c, d, at)
    ensures VoteInv(d)
  {
    var t0 := d.nodes[at].term;
    assert CampaignOk(c, t0, at);
    forall m ensures RequestOk(d, m) {
      assert RequestOk(c, m) && Addressed(c, m) && CallOrStay(c, d, at, m);
      if m.RequestVote? {
        CampaignGrants(c, d, at, m.to, m.from, m.term);
        assert GrantOk(c, m.to, m.from, m.term);
      }
    }
    forall v, a, t ensures GrantOk(d, v, a, t) {
      assert GrantOk(c, v, a, t);
      CampaignGrants(c, d, at, v, a, t);
    }
    forall v, a, b, t ensures OneVote(d, v, a, b, t) {
      assert OneVote(c, v, a, b, t);
      CampaignGrants(c, d, at, v, a, t);
      CampaignGrants(c, d, at, v, b, t);
    }
    forall t, a ensures CampaignOk(d, t, a) {
      assert CampaignOk(c, t, a);
    }
    forall n ensures CandidateOk(d, n) && LeaderOk(d, n) {
      assert CandidateOk(c, n) && LeaderOk(c, n);
      if n in c.nodes {
        var t := c.nodes[n].term;
        forall v | v in Counted(c, n, t) ensures v in Counted(d, n, t) {
          CampaignGrants(c, d, at, v, n, t);
        }
        SubsetCardinality(Counted(c, n, t), Counted(d, n, t));
      }
    }
    forall t, a ensures LeaderVotedSelf(d, t, a) {
      assert LeaderVotedSelf(c, t, a);
      if t in c.hist.elected { CampaignGrants(c, d, at, c.hist.elected[t], a, t); }
    }
    forall t ensures ElectedOk(d, t) {
      assert ElectedOk(c, t);
      if t in c.hist.elected {
        var l := c.hist.elected[t];
        assert CampaignOk(c, t, l);
        forall v: Id ensures Granted(d.hist, v, l, t) == Granted(c.hist, v, l, t) {
          CampaignGrants(c, d, at, v, l, t);
        }
        assert Voters(d, t, l) == Voters(c, t, l);
      }
    }
  }

  /** A candidate that takes a vote from the network may count it. */
  lemma Tally(c: System, d: System, at: Id, m: Message)
    requires Mail(c) && VoteInv(c) && NoNewBallots(c, d) && m in c.net && IsGrant(m) && m.to == at
    requires at in c.nodes && c.nodes[at].role == Candidate && m.term == c.nodes[at].term
    requires d.net == c.net - multiset{m}
    ensures c.nodes[at].voteReceived + 1 <= 1 + |Counted(d, at, m.term)|
  {
    assert Addressed(c, m) && GrantOk(c, m.from, at, m.term) && CandidateOk(c, at);
    var before, after := Counted(c, at, m.term), Counted(d, at, m.term);
    forall v | v in before + {m.from} ensures v in after {
      SameGrants(c, d, v, at, m.term);
    }
    SubsetCardinality(before + {m.from}, after);
  }

  /** A candidate's tally is still covered after a step without new ballots. */
  lemma TallyKept(c: System, d: System, at: Id)
    requires VoteInv(c) && NoNewBallots(c, d) && at in c.nodes && c.nodes[at].role == Candidate
    ensures c.nodes[at].voteReceived <= 1 + |Counted(d, at, c.nodes[at].term)|
  {
    assert CandidateOk(c, at);
    CountedGrows(c, d, at, c.nodes[at].term);
  }

  /** A candidate whose counted votes make a majority becomes leader of its term. */
  ghost predicate Wins(c: System, d: System, at: Id) {
    && at in c.nodes && c.nodes[at].role == Candidate
    && d.nodes.Keys == c.nodes.Keys
    && (forall n :: n in c.nodes && n != at ==> d.nodes[n] == c.nodes[n])
    && d.nodes[at].role == Leader
    && d.nodes[at].term == c.nodes[at].term
    && d.hist.campaigns == c.hist.campaigns
    && d.hist.elected == c.hist.elected[c.nodes[at].term := at]
    && 1 + |Counted(d, at, c.nodes[at].term)| > |c.nodes.Keys| / 2
  }

  lemma WinnersVoters(c: System, d: System, at: Id)
    requires VoteInv(c) && NoNewBallots(c, d) && Wins(c, d, at)
    ensures Majority(Voters(d, c.nodes[at].term, at), c.nodes.Keys)
    ensures Voters(c, c.nodes[at].term, at) == Voters(d, c.nodes[at].term, at)
  {
    var t := c.nodes[at].term;
    SameVoters(c, d, t, at);
    var counted := Counted(d, at, t);
    SameGrants(c, d, at, at, t);
    assert GrantOk(c, at, at, t);
    assert at !in counted;
    assert counted + {at} <= Voters(d, t, at);
    SubsetCardinality(counted + {at}, Voters(d, t, at));
  }

  lemma OneVoteEach(c: System, v: Id, a: Id, b: Id, t: nat)
    requires VoteInv(c) && Granted(c.hist, v, a, t) && Granted(c.hist, v, b, t)
    ensures a == b
  {
    assert OneVote(c, v, a, b, t);
  }

  lemma VoterFollows(c: System, v: Id, a: Id)
    requires VoteInv(c) && v in c.nodes && Granted(c.hist, v, a, c.nodes[v].term)
    ensures c.nodes[v].role == Follower
  {
    assert GrantOk(c, v, a, c.nodes[v].term);
  }

  /** The heart of election safety: the winner's term had no leader yet. */
  lemma WinnersTermIsFresh(c: System, d: System, at: Id)
    requires VoteInv(c) && NoNewBallots(c, d) && Wins(c, d, at)
    ensures c.nodes[at].term !in c.hist.elected
  {
    var t := c.nodes[at].term;
    if t in c.hist.elected {
      var l := c.hist.elected[t];
      assert ElectedOk(c, t) && LeaderVotedSelf(c, t, at);
      WinnersVoters(c, d, at);
      var x := MajoritiesMeet(Voters(c, t, at), Voters(c, t, l), c.nodes.Keys);
      if x == at {
        VoterFollows(c, at, l);
      } else if x != l {
        OneVoteEach(c, x, at, l, t);
      }
    }
  }

  lemma VoteElect(c: System, d: System, at: Id)
    requires VoteInv(c) && NoNewBallots(c, d) && Wins(c, d, at)
    ensures VoteInv(d)
  {
    var t0 := c.nodes[at].term;
    WinnersTermIsFresh(c, d, at);
    WinnersVoters(c, d, at);
    assert CandidateOk(c, at) && CampaignOk(c, t0, at);
    forall m ensures RequestOk(d, m) {
      assert RequestOk(c, m) && BallotStays(c, d, m);
      if m.RequestVote? { SameGrants(c, d, m.to, m.from, m.term); }
    }
    forall v, a, t ensures GrantOk(d, v, a, t) {
      assert GrantOk(c, v, a, t);
      SameGrants(c, d, v, a, t);
    }
    forall v, a, b, t ensures OneVote(d, v, a, b, t) {
      assert OneVote(c, v, a, b, t);
      SameGrants(c, d, v, a, t);
      SameGrants(c, d, v, b, t);
    }
    forall t, a ensures CampaignOk(d, t, a) {
      assert CampaignOk(c, t, a);
    }
    forall n ensures CandidateOk(d, n) && LeaderOk(d, n) {
      assert CandidateOk(c, n) && LeaderOk(c, n);
      if n in c.nodes { CountedGrows(c, d, n, c.nodes[n].term); }
    }
    forall t ensures ElectedOk(d, t) {
      assert ElectedOk(c, t);
      if t in c.hist.elected { SameVoters(c, d, t, c.hist.elected[t]); }
    }
    forall t, a ensures LeaderVotedSelf(d, t, a) {
      assert LeaderVotedSelf(c, t, a) && GrantOk(c, at, a, t0);
      if t in d.hist.elected { SameGrants(c, d, d.hist.elected[t], a, t); }
    }
  }
}
