/**
 Commitment. An entry acknowledged by a majority in its leader's term is in the log of every later leader,
 whatever the nodes have led before. What a leader reports as committed is such an entry as long as it counts
 acknowledgements of its own term only: the source keeps a peer's match index from one leadership to the next and
 does not look at the term of an answer.
 */
module ClusterCommit {
  import opened Common
  import opened RaftTypes
  import opened RaftStep
  import opened Cluster
  import opened ClusterInv
  import opened ClusterLogs
  import opened ClusterSteps

  // ---------------------------------------------------------------- leader completeness

  ghost predicate AckedThrough(h: History, t: nat, n: Id, k: nat) {
    (t, n) in h.acks && h.acks[(t, n)] >= k
  }

  ghost function Ackers(c: System, t: nat, k: nat): set<Id> {
    set n | n in c.nodes.Keys && AckedThrough(c.hist, t, n, k)
  }

  /** Index `k` holds an entry of term `t` that a majority acknowledged in that term. */
  ghost predicate Durable(c: System, t: nat, k: nat) {
    && t in c.hist.logs
    && 1 <= k <= |c.hist.logs[t]|
    && c.hist.logs[t][k - 1].term == t
    && Majority(Ackers(c, t, k), c.nodes.Keys)
  }

  lemma DurableAdvances(c: System, d: System, t: nat, k: nat)
    requires Advances(c, d) && Durable(c, t, k)
    ensures Durable(d, t, k)
    ensures d.hist.logs[t][..k] == c.hist.logs[t][..k]
  {
    forall n | n in Ackers(c, t, k) ensures n in Ackers(d, t, k) {
      assert (t, n) in c.hist.acks;
    }
    SubsetCardinality(Ackers(c, t, k), Ackers(d, t, k));
  }

  /** A leader elected after an entry was acknowledged by a majority campaigned with a log at least as recent. */
  lemma WinnerIsRecent(c: System, t: nat, k: nat, t': nat)
    requires Inv(c) && Durable(c, t, k) && t' in c.hist.logs && t < t'
    ensures t' in c.hist.elected && (t', c.hist.elected[t']) in c.hist.campaigns
    ensures AtLeast(c.hist.campaigns[(t', c.hist.elected[t'])], Recency(t, k))
  {
    assert LeaderLogOk(c.hist, t') && ElectedOk(c, t');
    var l := c.hist.elected[t'];
    var v := MajoritiesMeet(Ackers(c, t, k), Voters(c, t', l), c.nodes.Keys);
    assert VoteRespectsAck(c.hist, t, v, t', l);
  }

  /** Leader completeness: the log of every later leader starts with everything acknowledged by a majority. */
  lemma {:induction false} LaterLeadersHave(c: System, t: nat, k: nat, t': nat)
    requires Inv(c) && Durable(c, t, k) && t' in c.hist.logs && t <= t'
    ensures k <= |c.hist.logs[t']| && c.hist.logs[t'][..k] == c.hist.logs[t][..k]
    decreases t'
  {
    if t < t' {
      WinnerIsRecent(c, t, k, t');
      assert ExtendsCampaign(c.hist, t') && LeaderLogOk(c.hist, t');
      var r := c.hist.campaigns[(t', c.hist.elected[t'])];
      var es, x := c.hist.logs[t'], r.index - 1;
      assert CoherentAt(es, x, c.hist.logs);
      var u := es[x].term;
      LaterLeadersHave(c, t, k, u);
      EntryBeyond(c, t, k, u, x);
      assert es[..k] == es[..x + 1][..k] == c.hist.logs[u][..x + 1][..k];
    }
  }

  /** An entry of a term after `t` lies beyond the entries of term `t` that its log starts with. */
  lemma EntryBeyond(c: System, t: nat, k: nat, u: nat, x: nat)
    requires LogInv(c) && t <= u && u in c.hist.logs && t in c.hist.logs && 1 <= k <= |c.hist.logs[t]|
    requires c.hist.logs[t][k - 1].term == t && k <= |c.hist.logs[u]| && c.hist.logs[u][..k] == c.hist.logs[t][..k]
    requires x < |c.hist.logs[u]| && c.hist.logs[u][x].term == u && (u == t ==> x + 1 >= k)
    ensures k <= x + 1
  {
    assert LeaderLogOk(c.hist, u);
    assert c.hist.logs[u][..k][k - 1].term == t;
  }

  /** A log at least as recent as an acknowledged index holds everything a majority acknowledged up to it. */
  lemma RecentHas(c: System, es: seq<Entry>, t: nat, j: nat, k: nat)
    requires Inv(c) && Durable(c, t, j) && Coherent(es, c.hist.logs) && 1 <= k <= j
    requires AtLeast(RecencyOf(es), Recency(t, k))
    ensures k <= |es| && es[..k] == c.hist.logs[t][..k]
  {
    assert LeaderLogOk(c.hist, t);
    var x := |es| - 1;
    assert CoherentAt(es, x, c.hist.logs);
    var u := es[x].term;
    LaterLeadersHave(c, t, j, u);
    if u > t { EntryBeyond(c, t, j, u, x); }
    assert es[..k] == es[..x + 1][..k] == c.hist.logs[u][..x + 1][..k] == c.hist.logs[u][..j][..k];
  }

  // ---------------------------------------------------------------- what is committed

  /** The first `k` entries are those of an index acknowledged by a majority in term `t`. */
  ghost predicate BackedBy(c: System, es: seq<Entry>, k: nat, t: nat, j: nat) {
    k <= j && k <= |es| && Durable(c, t, j) && es[..k] == c.hist.logs[t][..k]
  }

  /** Everything up to `k` was acknowledged by a majority in some term up to `bound`. */
  ghost predicate Committed(c: System, es: seq<Entry>, k: nat, bound: nat) {
    k == 0 || exists t: nat, j: nat :: t <= bound && BackedBy(c, es, k, t, j)
  }

  ghost predicate NodeCommitOk(c: System, n: Id) {
    n in c.nodes ==> Committed(c, c.nodes[n].log.entries, c.nodes[n].log.committed, c.nodes[n].term)
  }

  ghost predicate MessageCommitOk(c: System, m: Message) {
    m in c.hist.sent && (m.Append? || m.CommitUpdate?) ==>
      && m.term in c.hist.logs
      && Committed(c, c.hist.logs[m.term], m.commit, m.term)
      && (m.CommitUpdate? ==> m.commit >= 1 && AckedThrough(c.hist, m.term, m.to, m.commit))
  }

  /** A match index is an acknowledgement made in some leadership of the node. */
  ghost predicate ProgressOk(c: System, n: Id, p: Id) {
    n in c.nodes && p in c.nodes[n].prs && p != n && c.nodes[n].prs[p].matched > 0 ==>
      exists t :: AckedAsLeader(c.hist, n, t, p, c.nodes[n].prs[p].matched)
  }

  ghost predicate AckedAsLeader(h: History, n: Id, t: nat, p: Id, k: nat) {
    t in h.elected && h.elected[t] == n && AckedThrough(h, t, p, k)
  }

  /** The answer makes the leader tell `p` to commit through the index it reports. */
  ghost predicate Tells(n: Node, m: Message, p: Id) {
    && n.WellFormed() && n.role == Leader && m.AppendResponse?
    && HandleAppendResponse(n, m).Stepped?
    && CommitUpdate(n.id, p, n.term, m.index) in HandleAppendResponse(n, m).out
  }

  /** Whoever the answer makes a leader tell to commit has acknowledged the index in the leader's term. */
  ghost predicate TellsAckers(c: System, m: Message) {
    m.to in c.nodes ==>
      forall p :: Tells(c.nodes[m.to], m, p) ==> AckedThrough(c.hist, c.nodes[m.to].term, p, m.index)
  }

  ghost predicate ProgressInv(c: System) {
    forall n, p {:trigger ProgressOk(c, n, p)} :: ProgressOk(c, n, p)
  }

  ghost predicate CommitInv(c: System) {
    && (forall n {:trigger NodeCommitOk(c, n)} :: NodeCommitOk(c, n))
    && (forall m {:trigger MessageCommitOk(c, m)} :: MessageCommitOk(c, m))
  }

  lemma CommittedAdvances(c: System, d: System, es: seq<Entry>, es': seq<Entry>, k: nat, bound: nat, bound': nat)
    requires Advances(c, d) && Committed(c, es, k, bound) && bound <= bound'
    requires k <= |es| ==> k <= |es'| && es'[..k] == es[..k]
    ensures Committed(d, es', k, bound')
  {
    if k > 0 {
      var t: nat, j: nat :| t <= bound && BackedBy(c, es, k, t, j);
      DurableAdvances(c, d, t, j);
      assert d.hist.logs[t][..k] == d.hist.logs[t][..j][..k] == c.hist.logs[t][..j][..k];
      assert BackedBy(d, es', k, t, j);
    }
  }

  lemma CommittedLess(c: System, es: seq<Entry>, k: nat, k': nat, bound: nat)
    requires Committed(c, es, k, bound) && k' <= k
    ensures Committed(c, es, k', bound)
  {
    if k' > 0 {
      var t: nat, j: nat :| t <= bound && BackedBy(c, es, k, t, j);
      assert es[..k'] == es[..k][..k'] && c.hist.logs[t][..k'] == c.hist.logs[t][..k][..k'];
      assert BackedBy(c, es, k', t, j);
    }
  }

  lemma CommittedIsInside(c: System, es: seq<Entry>, k: nat, bound: nat)
    requires Committed(c, es, k, bound)
    ensures k <= |es|
  {
  }

  /** Two committed prefixes agree where both reach. */
  lemma CommittedAgree(c: System, a: seq<Entry>, b: seq<Entry>, ka: nat, kb: nat, k: nat, ba: nat, bb: nat)
    requires Inv(c) && Committed(c, a, ka, ba) && Committed(c, b, kb, bb) && k <= ka && k <= kb
    ensures k <= |a| && k <= |b| && a[..k] == b[..k]
  {
    if k > 0 {
      var ta: nat, ja: nat :| ta <= ba && BackedBy(c, a, ka, ta, ja);
      var tb: nat, jb: nat :| tb <= bb && BackedBy(c, b, kb, tb, jb);
      if ta <= tb { LaterLeadersHave(c, ta, ja, tb); } else { LaterLeadersHave(c, tb, jb, ta); }
      assert a[..k] == a[..ka][..k] && b[..k] == b[..kb][..k];
      assert c.hist.logs[ta][..ka][..k] == c.hist.logs[ta][..k] && c.hist.logs[tb][..kb][..k] == c.hist.logs[tb][..k];
      assert c.hist.logs[ta][..ja][..k] == c.hist.logs[ta][..k] && c.hist.logs[tb][..jb][..k] == c.hist.logs[tb][..k];
    }
  }

  // ---------------------------------------------------------------- steps keep commitment sound

  ghost predicate NewCommitOk(c: System, d: System, m: Message) {
    m in d.hist.sent && m !in c.hist.sent ==> MessageCommitOk(d, m)
  }

  /** It is enough to look at the stepping node and at what it sends. */
  lemma CommitMove(c: System, d: System, at: Id)
    requires Advances(c, d) && CommitInv(c)
    requires forall n :: n in c.nodes && n != at ==> d.nodes[n] == c.nodes[n]
    requires NodeCommitOk(d, at)
    requires forall m {:trigger NewCommitOk(c, d, m)} :: NewCommitOk(c, d, m)
    ensures CommitInv(d)
  {
    forall n ensures NodeCommitOk(d, n) {
      assert NodeCommitOk(c, n);
      if n in c.nodes && n != at {
        var l := c.nodes[n].log;
        CommittedAdvances(c, d, l.entries, l.entries, l.committed, c.nodes[n].term, c.nodes[n].term);
      }
    }
    forall m ensures MessageCommitOk(d, m) {
      assert MessageCommitOk(c, m) && NewCommitOk(c, d, m);
      if m in c.hist.sent && (m.Append? || m.CommitUpdate?) {
        CommittedIsInside(c, c.hist.logs[m.term], m.commit, m.term);
        CommittedAdvances(c, d, c.hist.logs[m.term], d.hist.logs[m.term], m.commit, m.term, m.term);
      }
    }
  }

  /** A message that ships the leader's log carries the leader's commit index. */
  lemma ShipsCommit(c: System, d: System, at: Id, m: Message)
    requires Inv(d) && NodeCommitOk(d, at) && at in d.nodes && d.nodes[at].role == Leader && ShipsTail(d.nodes[at], m)
    ensures NewCommitOk(c, d, m)
  {
    assert NodeLogOk(d, at);
  }

  /** A step that leaves the log and the commit index of the node alone. */
  lemma CommitQuiet(c: System, d: System, at: Id)
    requires Inv(c) && Inv(d) && Advances(c, d) && CommitInv(c) && at in c.nodes
    requires forall n :: n in c.nodes && n != at ==> d.nodes[n] == c.nodes[n]
    requires d.nodes[at].log == c.nodes[at].log
    requires forall m :: m in d.hist.sent && m !in c.hist.sent && (m.Append? || m.CommitUpdate?) ==>
                           d.nodes[at].role == Leader && ShipsTail(d.nodes[at], m)
    ensures CommitInv(d)
  {
    assert NodeCommitOk(c, at) && NodeAges(c, d, at);
    var l := c.nodes[at].log;
    CommittedAdvances(c, d, l.entries, l.entries, l.committed, c.nodes[at].term, d.nodes[at].term);
    forall m ensures NewCommitOk(c, d, m) {
      if m in d.hist.sent && m !in c.hist.sent && (m.Append? || m.CommitUpdate?) { ShipsCommit(c, d, at, m); }
    }
    CommitMove(c, d, at);
  }

  /** In a cluster of one the leader's own acknowledgement is a majority. */
  lemma SoloDurable(d: System, at: Id)
    requires Inv(d) && d.nodes.Keys == {at} && d.nodes[at].role == Leader
    ensures Durable(d, d.nodes[at].term, |d.nodes[at].log.entries|)
    ensures d.hist.logs[d.nodes[at].term] == d.nodes[at].log.entries
  {
    var t := d.nodes[at].term;
    assert LeaderOk(d, at) && NodeLogOk(d, at) && LeaderLogOk(d.hist, t);
    assert ElectedOk(d, t) && ExtendsCampaign(d.hist, t);
    assert Ackers(d, t, |d.nodes[at].log.entries|) == {at};
  }

  /** The leader appended to its log; alone, it also commits all of it. */
  ghost predicate Extended(c: System, d: System, at: Id) {
    && at in c.nodes && at in d.nodes && d.nodes[at].role == Leader
    && c.nodes[at].log.entries <= d.nodes[at].log.entries
    && (d.nodes[at].log.committed == c.nodes[at].log.committed ||
        (d.nodes.Keys == {at} && d.nodes[at].log.committed == |d.nodes[at].log.entries|))
  }

  lemma ExtendedCommit(c: System, d: System, at: Id)
    requires NodeCommitOk(c, at) && Advances(c, d) && Extended(c, d, at)
    requires d.nodes.Keys == {at} ==> Durable(d, d.nodes[at].term, |d.nodes[at].log.entries|) &&
                                      d.hist.logs[d.nodes[at].term] == d.nodes[at].log.entries
    ensures NodeCommitOk(d, at)
  {
    var l, l' := c.nodes[at].log, d.nodes[at].log;
    assert NodeAges(c, d, at);
    CommittedIsInside(c, l.entries, l.committed, c.nodes[at].term);
    CommittedAdvances(c, d, l.entries, l'.entries, l.committed, c.nodes[at].term, d.nodes[at].term);
    if l'.committed != l.committed {
      assert BackedBy(d, l'.entries, |l'.entries|, d.nodes[at].term, |l'.entries|);
    }
  }

  lemma CommitExtend(c: System, d: System, at: Id)
    requires Inv(d) && Advances(c, d) && CommitInv(c) && Extended(c, d, at)
    requires forall n :: n in c.nodes && n != at ==> d.nodes[n] == c.nodes[n]
    requires forall m :: m in d.hist.sent && m !in c.hist.sent ==> m.Append? && ShipsTail(d.nodes[at], m)
    ensures CommitInv(d)
  {
    assert NodeCommitOk(c, at);
    if d.nodes.Keys == {at} { SoloDurable(d, at); }
    ExtendedCommit(c, d, at);
    forall m ensures NewCommitOk(c, d, m) {
      if m in d.hist.sent && m !in c.hist.sent { ShipsCommit(c, d, at, m); }
    }
    CommitMove(c, d, at);
  }

  // ---------------------------------------------------------------- accepting an append

  /** The log an append leaves still holds everything the node had committed. */
  lemma AcceptKeepsCommitted(c: System, m: Message, es': seq<Entry>)
    requires Inv(c) && CommitInv(c) && m.Append? && m.to in c.nodes && m.term >= c.nodes[m.to].term
    requires m.term in c.hist.logs && 1 <= |es'| <= |c.hist.logs[m.term]| && es' == c.hist.logs[m.term][..|es'|]
    requires es'[|es'| - 1].term == m.term
    requires AtLeast(RecencyOf(es'), RecencyOf(c.nodes[m.to].log.entries))
    ensures var l := c.nodes[m.to].log; l.committed <= |l.entries| && l.committed <= |es'| &&
                                        es'[..l.committed] == l.entries[..l.committed]
  {
    var n := c.nodes[m.to];
    var es, k := n.log.entries, n.log.committed;
    assert NodeCommitOk(c, m.to) && NodeLogOk(c, m.to) && LeaderLogOk(c.hist, m.term);
    CommittedIsInside(c, es, k, n.term);
    if k > 0 {
      var t: nat, j: nat :| t <= n.term && BackedBy(c, es, k, t, j);
      CoherentPrefix(c.hist.logs[m.term], |es'|, c.hist.logs);
      assert es[k - 1] == es[..k][k - 1] == c.hist.logs[t][..k][k - 1];
      RecentHas(c, es', t, j, k);
    }
  }

  lemma LearnedCommit(c: System, d: System, m: Message, es': seq<Entry>, before: nat, committed: nat)
    requires Inv(c) && CommitInv(c) && Advances(c, d) && m.Append? && m in c.hist.sent
    requires m.term in c.hist.logs && m.index + |m.entries| <= |es'| <= |c.hist.logs[m.term]|
    requires es' == c.hist.logs[m.term][..|es'|]
    requires Committed(d, es', before, m.term)
    requires committed == before || committed == Min(m.commit, LastShipped(m))
    ensures Committed(d, es', committed, m.term)
  {
    if committed != before {
      assert MessageCommitOk(c, m);
      CommittedLess(c, c.hist.logs[m.term], m.commit, committed, m.term);
      CommittedAdvances(c, d, c.hist.logs[m.term], es', committed, m.term, m.term);
    }
  }

  ghost predicate Alone(c: System, d: System, at: Id) {
    && at in c.nodes
    && at in d.nodes
    && forall n :: n in c.nodes && n != at ==> n in d.nodes && d.nodes[n] == c.nodes[n]
  }

  lemma AcceptedCommit(n: Node, m: Message, o: Outcome)
    requires m.Append? && m.term >= n.term && KeptPrefix(n.log, m.index, m.logTerm) == Some(m.index)
    requires m.index <= |n.log.entries| && o == HandleAppend(n, m) && o.Stepped?
    ensures o.node.log.committed == n.log.committed || o.node.log.committed == Min(m.commit, LastShipped(m))
  {
  }

  /** The log `es` that an append leaves, of which `k` entries are now committed. */
  ghost predicate AcceptedAs(c: System, m: Message, es: seq<Entry>, k: nat)
    requires m.Append? && m.to in c.nodes
  {
    && m.term in c.hist.logs && m.index + |m.entries| <= |es| <= |c.hist.logs[m.term]| && 1 <= |es|
    && es == c.hist.logs[m.term][..|es|] && es[|es| - 1].term == m.term
    && AtLeast(RecencyOf(es), RecencyOf(c.nodes[m.to].log.entries))
    && (k == c.nodes[m.to].log.committed || k == Min(m.commit, LastShipped(m)))
  }

  lemma AcceptedFacts(c: System, m: Message, o: Outcome)
    requires Inv(c) && m in c.net && m.Append? && m.to in c.nodes
    requires m.term >= c.nodes[m.to].term && KeptPrefix(c.nodes[m.to].log, m.index, m.logTerm).Some?
    requires o == HandleAppend(c.nodes[m.to], m) && o.Stepped?
    ensures o.node.term == m.term && AcceptedAs(c, m, o.node.log.entries, o.node.log.committed)
  {
    AcceptedLog(c, m);
    AcceptOutcome(c.nodes[m.to], m, m.index, o);
    AcceptedCommit(c.nodes[m.to], m, o);
  }

  lemma AcceptedNodeCommit(c: System, d: System, m: Message, es: seq<Entry>, k: nat)
    requires Inv(c) && CommitInv(c) && Advances(c, d) && m in c.net && m.Append? && m.to in c.nodes
    requires m.term >= c.nodes[m.to].term && AcceptedAs(c, m, es, k)
    ensures Committed(d, es, k, m.term)
  {
    var at, l := m.to, c.nodes[m.to].log;
    AcceptKeepsCommitted(c, m, es);
    assert NodeCommitOk(c, at) && Addressed(c, m);
    CommittedAdvances(c, d, l.entries, es, l.committed, c.nodes[at].term, m.term);
    LearnedCommit(c, d, m, es, l.committed, k);
  }

  lemma CommitAccept(c: System, d: System, m: Message, o: Outcome)
    requires Inv(c) && CommitInv(c) && Advances(c, d) && Alone(c, d, m.to)
    requires m in c.net && m.Append? && o.Stepped? && d.nodes[m.to] == o.node
    requires m.term >= c.nodes[m.to].term && KeptPrefix(c.nodes[m.to].log, m.index, m.logTerm).Some?
    requires o == HandleAppend(c.nodes[m.to], m)
    requires forall x :: x in d.hist.sent && x !in c.hist.sent ==> x.AppendResponse?
    ensures CommitInv(d)
  {
    AcceptedFacts(c, m, o);
    AcceptedNodeCommit(c, d, m, o.node.log.entries, o.node.log.committed);
    assert NodeCommitOk(d, m.to);
    forall x ensures NewCommitOk(c, d, x) {
    }
    CommitMove(c, d, m.to);
  }

  // ---------------------------------------------------------------- a commit index sent on its own

  /** The receiver of a commit index has acknowledged it, so it still has everything up to it. */
  lemma UpdateIsHeld(c: System, m: Message)
    requires Inv(c) && CommitInv(c) && m in c.net && m.CommitUpdate? && m.to in c.nodes
    ensures m.commit <= |c.nodes[m.to].log.entries|
    ensures Committed(c, c.nodes[m.to].log.entries, m.commit, c.nodes[m.to].term)
  {
    assert Addressed(c, m) && MessageCommitOk(c, m) && AckOk(c, m.term, m.to) && NodeLogOk(c, m.to);
    var es := c.nodes[m.to].log.entries;
    var t: nat, j: nat :| t <= m.term && BackedBy(c, c.hist.logs[m.term], m.commit, t, j);
    RecentHas(c, es, t, j, m.commit);
    assert BackedBy(c, es, m.commit, t, j);
  }

  lemma CommitUpdated(c: System, d: System, m: Message)
    requires Inv(c) && CommitInv(c) && Inv(d) && Advances(c, d) && Alone(c, d, m.to)
    requires m in c.net && m.CommitUpdate? && d.hist.sent == c.hist.sent
    requires d.nodes[m.to].log == c.nodes[m.to].log.(committed := Max(c.nodes[m.to].log.committed, m.commit))
    ensures CommitInv(d)
  {
    var at, l := m.to, d.nodes[m.to].log;
    UpdateIsHeld(c, m);
    assert NodeCommitOk(c, at) && NodeAges(c, d, at);
    CommittedAdvances(c, d, l.entries, l.entries, l.committed, c.nodes[at].term, d.nodes[at].term);
    forall x ensures NewCommitOk(c, d, x) {
    }
    CommitMove(c, d, at);
  }

  // ---------------------------------------------------------------- the leader counts acknowledgements

  /** What a positive response does to the leader, case by case: whom it tells, and when it commits. */
  lemma AckCases(n: Node, m: Message, o: Outcome) returns (told: seq<Id>, others: seq<Id>)
    requires n.WellFormed() && Distinct(n.peers) && m.AppendResponse? && !m.reject && m.from != n.id
    requires o == HandleAppendResponse(n, m) && o.Stepped?
    ensures o.out == CommitUpdates(n, told, m.index)
    ensures told != [] ==> o.node.log.committed >= m.index
    ensures o.node.log == n.log.(committed := o.node.log.committed)
    ensures o.node.log.committed != n.log.committed ==>
              && o.node.log.committed == m.index > n.log.committed
              && n.log.snapIndex < m.index <= n.log.LastIndex() && n.log.TermAt(m.index) >= n.term
              && 2 + |others| > |n.peers| / 2
              && told == [m.from] + others && Distinct(others)
              && (forall p :: p in others ==> p in n.peers && p != m.from && p != n.id)
  {
    told, others := [], [];
    if m.index > n.prs[m.from].matched {
      var n1 := n.(prs := n.prs[m.from := Progress(m.index, m.index + 1)]);
      if m.index <= n.log.committed {
        told := [m.from];
      } else if n.log.TermAt(m.index) >= n.term {
        others := ReachedBy(n1, n1.peers, m.from, m.index);
        ReachedByFacts(n1, n1.peers, m.from, m.index);
        if 2 + |others| > |n.peers| / 2 { told := [m.from] + others; }
      }
    }
  }

  lemma ToldAreAckers(c: System, m: Message, told: seq<Id>)
    requires TellsAckers(c, m) && m.AppendResponse? && m.to in c.nodes && c.nodes[m.to].WellFormed()
    requires c.nodes[m.to].role == Leader && HandleAppendResponse(c.nodes[m.to], m).Stepped?
    requires HandleAppendResponse(c.nodes[m.to], m).out == CommitUpdates(c.nodes[m.to], told, m.index)
    ensures forall p :: p in told ==> AckedThrough(c.hist, c.nodes[m.to].term, p, m.index)
  {
    var n := c.nodes[m.to];
    forall p | p in told ensures AckedThrough(c.hist, n.term, p, m.index) {
      var i :| 0 <= i < |told| && told[i] == p;
      assert CommitUpdates(n, told, m.index)[i] == CommitUpdate(n.id, p, n.term, m.index);
      assert Tells(n, m, p);
    }
  }

  /** What a leader has of its own term or a later one is of its own term, and its log is the recorded one. */
  lemma LeaderHasOwnEntry(c: System, n: Id, k: nat)
    requires Inv(c) && n in c.nodes && c.nodes[n].role == Leader && c.nodes[n].log.snapIndex < k
    requires k <= c.nodes[n].log.LastIndex() && c.nodes[n].log.TermAt(k) >= c.nodes[n].term
    ensures c.nodes[n].term in c.hist.logs && c.hist.logs[c.nodes[n].term] == c.nodes[n].log.entries
    ensures k <= |c.nodes[n].log.entries| && c.nodes[n].log.entries[k - 1].term == c.nodes[n].term
  {
    assert NodeLogOk(c, n) && LeaderOk(c, n) && Uncompacted(c, n);
  }

  lemma PeersAreNodes(c: System)
    requires Inv(c)
    ensures |c.nodes.Keys| == |c.peers|
  {
    DistinctCardinality(c.peers);
  }

  /** A leader has acknowledged its whole log in its term. */
  lemma LeaderIsAcker(c: System, n: Id, k: nat)
    requires Inv(c) && n in c.nodes && c.nodes[n].role == Leader && k <= |c.nodes[n].log.entries|
    ensures n in Ackers(c, c.nodes[n].term, k)
  {
    var t := c.nodes[n].term;
    assert LeaderOk(c, n) && NodeLogOk(c, n) && ElectedOk(c, t) && ExtendsCampaign(c.hist, t);
  }

  lemma CountedAckers(c: System, t: nat, k: nat, sender: Id, n: Id, others: seq<Id>)
    requires {sender, n} <= Ackers(c, t, k) && sender != n && Distinct(others)
    requires forall p :: p in others ==> p in Ackers(c, t, k) && p != sender && p != n
    ensures |Ackers(c, t, k)| >= 2 + |others|
  {
    DistinctCardinality(others);
    assert |Elements(others) + {sender, n}| == |others| + 2;
    SubsetCardinality(Elements(others) + {sender, n}, Ackers(c, t, k));
  }

  /**
   Quorum-backed commit: when an answer makes a leader advance its commit index, and whoever it tells has acknowledged
   that index in its term, a majority has, itself included, and the entry there is of its term.
   */
  lemma CommitHasQuorum(c: System, m: Message, o: Outcome)
    requires Inv(c) && TellsAckers(c, m) && m in c.net && m.AppendResponse? && !m.reject
    requires m.to in c.nodes && c.nodes[m.to].role == Leader && c.nodes[m.to].WellFormed()
    requires o == HandleAppendResponse(c.nodes[m.to], m) && o.Stepped?
    requires o.node.log.committed != c.nodes[m.to].log.committed
    ensures o.node.log.committed == m.index > c.nodes[m.to].log.committed
    ensures Durable(c, c.nodes[m.to].term, m.index)
    ensures m.to in Ackers(c, c.nodes[m.to].term, m.index)
    ensures c.hist.logs[c.nodes[m.to].term] == c.nodes[m.to].log.entries
  {
    var n := c.nodes[m.to];
    assert n.id == m.to && n.peers == c.peers && Distinct(c.peers) by { assert NodeShape(c, m.to); }
    assert m.from != m.to && m.from in c.nodes by { assert Addressed(c, m); }
    var told, others := AckCases(n, m, o);
    ToldAreAckers(c, m, told);
    LeaderHasOwnEntry(c, m.to, m.index);
    LeaderIsAcker(c, m.to, m.index);
    PeersAreNodes(c);
    assert m.from in told && forall p :: p in others ==> p in told;
    CountedAckers(c, n.term, m.index, m.from, m.to, others);
  }

  lemma LeaderCommitOk(c: System, m: Message, o: Outcome)
    requires Inv(c) && CommitInv(c) && TellsAckers(c, m) && m in c.net && m.AppendResponse? && !m.reject
    requires m.to in c.nodes && c.nodes[m.to].role == Leader && c.nodes[m.to].WellFormed()
    requires o == HandleAppendResponse(c.nodes[m.to], m) && o.Stepped?
    ensures Committed(c, c.nodes[m.to].log.entries, o.node.log.committed, c.nodes[m.to].term)
  {
    var n := c.nodes[m.to];
    if o.node.log.committed != n.log.committed {
      CommitHasQuorum(c, m, o);
      assert BackedBy(c, n.log.entries, m.index, n.term, m.index);
    } else {
      assert NodeCommitOk(c, m.to);
    }
  }

  /** A commit index is sent only to peers that have acknowledged it. */
  lemma ToldCommitOk(d: System, n: Node, told: seq<Id>, index: nat, k: nat, x: Message)
    requires forall p :: p in told ==> AckedThrough(d.hist, n.term, p, index)
    requires x in CommitUpdates(n, told, index) && 1 <= index <= k
    requires n.term in d.hist.logs && Committed(d, d.hist.logs[n.term], k, n.term)
    ensures MessageCommitOk(d, x)
  {
    var i :| 0 <= i < |told| && x == CommitUpdate(n.id, told[i], n.term, index);
    assert told[i] in told;
    CommittedLess(d, d.hist.logs[n.term], k, index, n.term);
  }

  lemma CommitAckedStep(c: System, d: System, at: Id, told: seq<Id>, index: nat)
    requires CommitInv(c) && Inv(d) && Advances(c, d) && Alone(c, d, at)
    requires d.nodes[at].term == c.nodes[at].term && d.nodes[at].role == Leader
    requires d.nodes[at].log == c.nodes[at].log.(committed := d.nodes[at].log.committed)
    requires Committed(c, c.nodes[at].log.entries, d.nodes[at].log.committed, c.nodes[at].term)
    requires forall p :: p in told ==> AckedThrough(c.hist, c.nodes[at].term, p, index)
    requires index >= 1 && (told != [] ==> d.nodes[at].log.committed >= index)
    requires d.hist.sent == c.hist.sent + Elements(CommitUpdates(c.nodes[at], told, index))
    ensures CommitInv(d)
  {
    var n, k := c.nodes[at], d.nodes[at].log.committed;
    CommittedAdvances(c, d, n.log.entries, n.log.entries, k, n.term, n.term);
    assert NodeLogOk(d, at);
    forall x ensures NewCommitOk(c, d, x) {
      if x in CommitUpdates(n, told, index) { ToldCommitOk(d, n, told, index, k, x); }
    }
    CommitMove(c, d, at);
  }

  lemma CommitAcked(c: System, d: System, m: Message, o: Outcome)
    requires Inv(c) && CommitInv(c) && TellsAckers(c, m) && Inv(d) && Advances(c, d) && Alone(c, d, m.to)
    requires m in c.net && m.AppendResponse? && !m.reject && c.nodes[m.to].role == Leader && c.nodes[m.to].WellFormed()
    requires o == HandleAppendResponse(c.nodes[m.to], m) && o.Stepped? && d.nodes[m.to] == o.node
    requires d.hist.sent == c.hist.sent + Elements(o.out)
    ensures CommitInv(d)
  {
    assert c.nodes[m.to].id == m.to && c.nodes[m.to].peers == c.peers by { assert NodeShape(c, m.to); }
    assert m.from != m.to && m.index >= 1 by { assert Addressed(c, m) && ResponseOk(c.hist, m); }
    AckOutcome(c.nodes[m.to], m, o);
    var told, _ := AckCases(c.nodes[m.to], m, o);
    ToldAreAckers(c, m, told);
    LeaderCommitOk(c, m, o);
    CommitAckedStep(c, d, m.to, told, m.index);
  }

  /** A refusal only moves the next index. */
  lemma CommitRefused(c: System, d: System, m: Message, o: Outcome)
    requires Inv(c) && CommitInv(c) && Inv(d) && Advances(c, d) && Alone(c, d, m.to)
    requires m in c.net && m.AppendResponse? && m.reject && c.nodes[m.to].role == Leader && c.nodes[m.to].WellFormed()
    requires o == HandleAppendResponse(c.nodes[m.to], m) && o.Stepped? && d.nodes[m.to] == o.node
    requires d.hist.sent == c.hist.sent + Elements(o.out)
    ensures CommitInv(d)
  {
    var at, l := m.to, c.nodes[m.to].log;
    RefusalPolite(c, m, o);
    assert NodeCommitOk(c, at);
    CommittedAdvances(c, d, l.entries, l.entries, l.committed, c.nodes[at].term, o.node.term);
    forall x ensures NewCommitOk(c, d, x) {
      if x in o.out { ShipsCommit(c, d, at, x); }
    }
    CommitMove(c, d, at);
  }

  // ---------------------------------------------------------------- match indexes, whoever leads how often

  /** A match index of the node after a step is an old one, or one acknowledged to the node in a term it led. */
  ghost predicate MatchKept(c: System, n: Node, at: Id, p: Id) {
    p in n.prs && p != at && n.prs[p].matched > 0 ==>
      || (at in c.nodes && p in c.nodes[at].prs && c.nodes[at].prs[p].matched == n.prs[p].matched)
      || (exists t :: AckedAsLeader(c.hist, at, t, p, n.prs[p].matched))
  }

  lemma ProgressMove(c: System, d: System, at: Id)
    requires ProgressInv(c) && Advances(c, d) && at in c.nodes
    requires forall n :: n in c.nodes && n != at ==> d.nodes[n] == c.nodes[n]
    requires forall p {:trigger MatchKept(c, d.nodes[at], at, p)} :: MatchKept(c, d.nodes[at], at, p)
    ensures ProgressInv(d)
  {
    forall n, p ensures ProgressOk(d, n, p) {
      assert ProgressOk(c, n, p);
      if n in d.nodes && p in d.nodes[n].prs && p != n && d.nodes[n].prs[p].matched > 0 {
        var k := d.nodes[n].prs[p].matched;
        if n == at { assert MatchKept(c, d.nodes[at], at, p); }
        var t :| AckedAsLeader(c.hist, n, t, p, k);
        assert AckedAsLeader(d.hist, n, t, p, k);
      }
    }
  }

  /** The node's own entry aside, a step leaves every match index alone. */
  ghost predicate SameMatches(n: Node, n': Node) {
    forall p :: p in n'.prs && p != n.id ==> p in n.prs && n'.prs[p].matched == n.prs[p].matched
  }

  lemma ProposeMatches(n: Node, es: seq<Entry>)
    ensures SameMatches(n, Propose(n, es))
  {
    ProposeKeeps(n, es);
  }

  /** What a message does to the match indexes: only a positive response sets one, the sender's. */
  lemma ReceiveMatches(n: Node, m: Message)
    requires n.WellFormed() && Receive(n, m).Stepped?
    ensures !(m.AppendResponse? && !m.reject && n.role == Leader) ==> SameMatches(n, Receive(n, m).node)
    ensures m.AppendResponse? && !m.reject && n.role == Leader ==>
              m.from in n.prs && (Receive(n, m).node.prs == n.prs ||
                                  Receive(n, m).node.prs == n.prs[m.from := Progress(m.index, m.index + 1)])
  {
    if m.VoteResponse? && n.role == Candidate {
      var n1 := n.(voteTotal := n.voteTotal + 1, voteReceived := n.voteReceived + 1, role := Leader, lead := n.id);
      ProposeMatches(n1, [NOOP]);
    }
  }

  lemma StepMatches(c: System, e: Event)
    requires AllWellFormed(c) && Enabled(c, e) && IsStep(e)
    requires !(e.Deliver? && e.msg.AppendResponse? && !e.msg.reject && c.nodes[e.msg.to].role == Leader)
    ensures SameMatches(c.nodes[Actor(e)], Reaction(c, e).node)
  {
    var n := c.nodes[Actor(e)];
    assert NodeShape(c, Actor(e));
    match e {
      case Timeout(_) => ProposeMatches(Standing(n).(role := Leader, lead := n.id), [NOOP]);
      case Proposal(_, es) => ProposeMatches(n, es);
      case Deliver(m) => ReceiveMatches(n, m);
      case _ =>
    }
  }

  lemma AnswerMatches(c: System, m: Message, p: Id)
    requires Inv(c) && m in c.net && m.to in c.nodes && m.AppendResponse? && !m.reject && c.nodes[m.to].role == Leader
    requires c.nodes[m.to].WellFormed() && Receive(c.nodes[m.to], m).Stepped?
    ensures MatchKept(c, Receive(c.nodes[m.to], m).node, m.to, p)
  {
    ReceiveMatches(c.nodes[m.to], m);
    assert Addressed(c, m) && ResponseOk(c.hist, m);
    assert AckedAsLeader(c.hist, m.to, m.term, m.from, m.index);
  }

  lemma StepMatchKept(c: System, e: Event, p: Id)
    requires Inv(c) && AllWellFormed(c) && Enabled(c, e) && IsStep(e)
    ensures MatchKept(c, Reaction(c, e).node, Actor(e), p)
  {
    var at := Actor(e);
    assert NodeShape(c, at);
    if e.Deliver? && e.msg.AppendResponse? && !e.msg.reject && c.nodes[at].role == Leader {
      AnswerMatches(c, e.msg, p);
    } else {
      StepMatches(c, e);
    }
  }

  lemma NetworkProgress(c: System, d: System)
    requires ProgressInv(c) && d.nodes == c.nodes && d.hist == c.hist
    ensures ProgressInv(d)
  {
    forall n, p ensures ProgressOk(d, n, p) {
      assert ProgressOk(c, n, p);
    }
  }

  /** Every event keeps each match index an acknowledgement made in some leadership of the node. */
  lemma StepKeepsProgress(c: System, e: Event)
    requires Inv(c) && ProgressInv(c) && AllWellFormed(c) && Enabled(c, e)
    ensures ProgressInv(Apply(c, e))
  {
    var d := Apply(c, e);
    if IsStep(e) {
      StepKeepsInv(c, e);
      StepIsMove(c, e);
      forall p ensures MatchKept(c, d.nodes[Actor(e)], Actor(e), p) {
        StepMatchKept(c, e, p);
      }
      ProgressMove(c, d, Actor(e));
    } else {
      NetworkProgress(c, d);
    }
  }

  lemma InitProgress(c: System)
    requires Init(c)
    ensures ProgressInv(c)
  {
  }
}
