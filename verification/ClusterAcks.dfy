/** Acknowledgements: logs only become more recent, and voters respect what they acknowledged. */
module ClusterAcks {
  import opened RaftTypes
  import opened Cluster
  import opened ClusterInv

  /** The step of `at`, seen from the nodes: the term and the recency of its log never go back. */
  ghost predicate Ages(c: System, d: System, at: Id) {
    && d.nodes.Keys == c.nodes.Keys
    && at in c.nodes
    && (forall n :: n in c.nodes && n != at ==> d.nodes[n] == c.nodes[n])
    && d.nodes[at].term >= c.nodes[at].term
    && AtLeast(RecencyOf(d.nodes[at].log.entries), RecencyOf(c.nodes[at].log.entries))
    && Grows(c.hist.logs, d.hist.logs)
  }

  /** Only the acknowledgement of `at` in its new term may be new. */
  ghost predicate AckKept(c: System, d: System, at: Id, t: nat, n: Id)
    requires at in d.nodes
  {
    if n == at && t == d.nodes[at].term then
      && ((t, n) in c.hist.acks ==> (t, n) in d.hist.acks && d.hist.acks[(t, n)] >= c.hist.acks[(t, n)])
      && AckOk(d, t, n)
    else ((t, n) in d.hist.acks <==> (t, n) in c.hist.acks) &&
         ((t, n) in c.hist.acks ==> d.hist.acks[(t, n)] == c.hist.acks[(t, n)])
  }

  /** A campaign of `at` in its new term carries its log; other campaigns are old. */
  ghost predicate CampaignKept(c: System, d: System, at: Id, t: nat, a: Id)
    requires at in d.nodes && at in c.nodes
  {
    && ((t, a) in c.hist.campaigns ==>
          (t, a) in d.hist.campaigns && d.hist.campaigns[(t, a)] == c.hist.campaigns[(t, a)])
    && ((t, a) in d.hist.campaigns && (t, a) !in c.hist.campaigns ==>
          && a == at && t == d.nodes[at].term
          && d.hist.campaigns[(t, a)] == RecencyOf(c.nodes[at].log.entries))
  }

  /** A new vote comes from `at` and goes to a log at least as recent as its own. */
  ghost predicate GrantKept(c: System, d: System, at: Id, v: Id, a: Id, t: nat)
    requires at in c.nodes
  {
    && (Granted(c.hist, v, a, t) ==> Granted(d.hist, v, a, t))
    && (Granted(d.hist, v, a, t) && !Granted(c.hist, v, a, t) ==>
          && v == at
          && ((t, a) in d.hist.campaigns ==>
                AtLeast(d.hist.campaigns[(t, a)], RecencyOf(c.nodes[at].log.entries))))
  }

  /** A new positive response reports exactly what `at` has just acknowledged. */
  ghost predicate ResponseKept(c: System, d: System, at: Id, m: Message)
    requires at in d.nodes
  {
    m in d.hist.sent && m !in c.hist.sent && m.AppendResponse? && !m.reject ==>
      && m.from == at
      && m.term == d.nodes[at].term
      && (m.term, at) in d.hist.acks
      && 1 <= m.index <= d.hist.acks[(m.term, at)]
      && m.term in d.hist.elected
      && d.hist.elected[m.term] == m.to
  }

  /** A leader's log and what it acknowledges change together, and only for `at` in its new term. */
  ghost predicate LeadershipKept(c: System, d: System, at: Id, t: nat)
    requires at in d.nodes
  {
    && (t in c.hist.elected ==> t in d.hist.elected && d.hist.elected[t] == c.hist.elected[t])
    && ((t in d.hist.elected && t !in c.hist.elected) ||
        (t in d.hist.logs && !(t in c.hist.logs && d.hist.logs[t] == c.hist.logs[t])) ==>
          ExtendsCampaign(d.hist, t))
    && (t in c.hist.elected && c.hist.elected[t] == at && t == d.nodes[at].term && t in d.hist.logs ==>
          ExtendsCampaign(d.hist, t))
  }

  ghost predicate Acknowledges(c: System, d: System, at: Id) {
    && Ages(c, d, at)
    && (forall t, n {:trigger AckKept(c, d, at, t, n)} :: AckKept(c, d, at, t, n))
    && (forall t, a {:trigger CampaignKept(c, d, at, t, a)} :: CampaignKept(c, d, at, t, a))
    && (forall v, a, t {:trigger GrantKept(c, d, at, v, a, t)} :: GrantKept(c, d, at, v, a, t))
    && (forall m {:trigger ResponseKept(c, d, at, m)} :: ResponseKept(c, d, at, m))
    && (forall t {:trigger LeadershipKept(c, d, at, t)} :: LeadershipKept(c, d, at, t))
  }

  lemma VoteRespectsKept(c: System, d: System, at: Id, t: nat, v: Id, t': nat, a: Id)
    requires VoteInv(c) && VoteInv(d) && AckInv(c) && Acknowledges(c, d, at)
    ensures VoteRespectsAck(d.hist, t, v, t', a)
  {
    assert VoteRespectsAck(c.hist, t, v, t', a) && AckOk(c, t, v) && GrantOk(c, v, a, t');
    assert GrantOk(d, v, a, t') && CampaignOk(d, t', a);
    assert AckKept(c, d, at, t, v) && CampaignKept(c, d, at, t', a) && GrantKept(c, d, at, v, a, t');
  }

  lemma AcknowledgesAdvances(c: System, d: System, at: Id)
    requires Acknowledges(c, d, at) && c.hist.sent <= d.hist.sent
    ensures Advances(c, d)
  {
    forall n ensures NodeAges(c, d, n) {
    }
    forall k | k in c.hist.acks ensures k in d.hist.acks && d.hist.acks[k] >= c.hist.acks[k] {
      assert AckKept(c, d, at, k.0, k.1);
    }
    forall t | t in c.hist.elected ensures t in d.hist.elected && d.hist.elected[t] == c.hist.elected[t] {
      assert LeadershipKept(c, d, at, t);
    }
  }

  lemma AckStep(c: System, d: System, at: Id)
    requires VoteInv(c) && VoteInv(d) && LogInv(c) && AckInv(c) && Acknowledges(c, d, at)
    requires c.hist.sent <= d.hist.sent
    ensures AckInv(d) && Advances(c, d)
  {
    AcknowledgesAdvances(c, d, at);
    forall t, n ensures AckOk(d, t, n) {
      assert AckOk(c, t, n) && AckKept(c, d, at, t, n);
    }
    forall m ensures ResponseOk(d.hist, m) {
      assert ResponseOk(c.hist, m) && ResponseKept(c, d, at, m);
      if m.AppendResponse? {
        assert AckKept(c, d, at, m.term, m.from) && LeadershipKept(c, d, at, m.term);
      }
    }
    forall t, v, t', a ensures VoteRespectsAck(d.hist, t, v, t', a) {
      VoteRespectsKept(c, d, at, t, v, t', a);
    }
    forall t ensures ExtendsCampaign(d.hist, t) {
      assert ExtendsCampaign(c.hist, t) && LeadershipKept(c, d, at, t) && ElectedOk(c, t) && LeaderLogOk(c.hist, t);
      if t in c.hist.elected {
        assert CampaignKept(c, d, at, t, c.hist.elected[t]) && AckKept(c, d, at, t, c.hist.elected[t]);
      }
    }
  }
}
