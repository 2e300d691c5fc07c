/** What the life of a node's log takes for granted about messages holds in every run of the cluster. */
module LifeInCluster {
  import opened Common
  import opened RaftTypes
  import opened RaftStep
  import opened RaftMeaning
  import opened Cluster
  import opened ClusterInv
  import opened ClusterSteps
  import opened ClusterCommit
  import opened ClusterTheorems
  import LogLife

  lemma ShippedIsShared(log: seq<Entry>, leader: seq<Entry>, committed: nat, from: nat, es: seq<Entry>, k: nat)
    requires NumberedFrom(leader, 1) && from + |es| <= |leader| && es == leader[from..from + |es|] && k < |es|
    requires committed <= |log| && committed <= |leader| && log[..committed] == leader[..committed]
    ensures es[k].index == from + 1 + k
    ensures es[k].index <= committed ==> log[es[k].index - 1] == es[k]
  {
    assert es[k] == leader[from + k];
    if from + k < committed { assert log[..committed][from + k] == leader[..committed][from + k]; }
  }

  /** Entries shipped out of a log that shares the committed entries respect them. */
  lemma SharedMeansRespected(l: RaftLog, leader: seq<Entry>, m: Message)
    requires m.Append? && l.Numbered() && l.snapIndex == 0 && NumberedFrom(leader, 1)
    requires m.index + |m.entries| <= |leader| && m.entries == leader[m.index..m.index + |m.entries|]
    requires l.committed <= |l.entries| && l.committed <= |leader| && l.entries[..l.committed] == leader[..l.committed]
    ensures NumberedFrom(m.entries, m.index + 1) && LogLife.RespectsCommitted(l, m.entries)
    ensures LogLife.SharesCommitted(l, m.entries)
  {
    forall k | 0 <= k < |m.entries|
      ensures m.entries[k].index == m.index + 1 + k
      ensures 0 < m.entries[k].index <= l.committed ==> l.entries[m.entries[k].index - 1] == m.entries[k]
    {
      ShippedIsShared(l.entries, leader, l.committed, m.index, m.entries, k);
    }
  }

  /** What is committed at the receiver of an append it takes is in the leader's log too. */
  lemma CommittedIsLeaders(c: System, m: Message)
    requires Inv(c) && CommitInv(c) && m in c.net && m.Append? && m.to in c.nodes && m.term >= c.nodes[m.to].term
    requires KeptPrefix(c.nodes[m.to].log, m.index, m.logTerm).Some?
    ensures var l := c.nodes[m.to].log;
            && m.term in c.hist.logs && l.committed <= |l.entries| && l.committed <= |c.hist.logs[m.term]|
            && l.entries[..l.committed] == c.hist.logs[m.term][..l.committed]
  {
    AcceptedLog(c, m);
    var l := c.nodes[m.to].log;
    var es := Install(l, m.index, m.entries).entries;
    AcceptKeepsCommitted(c, m, es);
    assert es[..l.committed] == c.hist.logs[m.term][..|es|][..l.committed];
  }

  lemma ShipmentShape(c: System, m: Message)
    requires Inv(c) && m in c.net && m.Append?
    ensures m.to in c.nodes && c.nodes[m.to].log.Numbered() && c.nodes[m.to].log.snapIndex == 0
    ensures m.term in c.hist.logs && NumberedFrom(c.hist.logs[m.term], 1)
    ensures m.index + |m.entries| <= |c.hist.logs[m.term]|
    ensures m.entries == c.hist.logs[m.term][m.index..m.index + |m.entries|]
  {
    assert Addressed(c, m);
    assert NodeShape(c, m.to) && Uncompacted(c, m.to) && ShipmentOk(c.hist, m) && LeaderLogOk(c.hist, m.term);
  }

  /** If the receiver takes the append, what it ships of the committed entries is what the receiver holds. */
  ghost predicate ShipsShared(l: RaftLog, m: Message) {
    m.Append? && (KeptPrefix(l, m.index, m.logTerm).Some? ==> LogLife.SharesCommitted(l, m.entries))
  }

  /** An append in flight that is not stale, if its receiver takes it, replaces nothing that is committed there. */
  lemma ShipmentsFit(run: seq<System>, events: seq<Event>, i: nat, m: Message)
    requires IsRun(run, events) && i < |run| && TellsOnlyAnswered(run, events, i) && m in run[i].net && m.Append?
    ensures m.to in run[i].nodes
    ensures m.term >= run[i].nodes[m.to].term ==>
              LogLife.ShipmentFits(run[i].nodes[m.to].log, m) && ShipsShared(run[i].nodes[m.to].log, m)
  {
    var c := run[i];
    RunInv(run, events, i);
    RunCommit(run, events, i);
    ShipmentShape(c, m);
    StepFits(c, m);
  }

  lemma StepFits(c: System, m: Message)
    requires Inv(c) && CommitInv(c) && m in c.net && m.Append? && m.to in c.nodes
    ensures m.term >= c.nodes[m.to].term ==>
              LogLife.ShipmentFits(c.nodes[m.to].log, m) && ShipsShared(c.nodes[m.to].log, m)
  {
    ShipmentShape(c, m);
    assert NumberedFrom(m.entries, m.index + 1);
    if m.term >= c.nodes[m.to].term && KeptPrefix(c.nodes[m.to].log, m.index, m.logTerm).Some? {
      CommittedIsLeaders(c, m);
      SharedMeansRespected(c.nodes[m.to].log, c.hist.logs[m.term], m);
    }
  }

  /** A commit index in flight lies within the log of the node it is sent to. */
  lemma UpdatesFit(run: seq<System>, events: seq<Event>, i: nat, m: Message)
    requires IsRun(run, events) && i < |run| && TellsOnlyAnswered(run, events, i) && m in run[i].net && m.CommitUpdate?
    ensures m.to in run[i].nodes && m.commit <= run[i].nodes[m.to].log.LastIndex()
  {
    RunPanicsIff(run, events, i, m);
  }

  // ---------------------------------------------------------------- the handlers drive the log's life

  /** A commit index sent on its own is what the log's life calls being told, panics included. */
  lemma CommitUpdateIsTold(x: LogLife.Life, n: Node, m: Message)
    requires x.phase.Idle? && x.log == n.log && n.WellFormed() && m.CommitUpdate?
    ensures Receive(n, m).Stepped? <==> LogLife.Enabled(x, LogLife.Told(m.commit))
    ensures Receive(n, m).Stepped? ==>
              LogLife.Next(x, LogLife.Told(m.commit)) == Some(x.(log := Receive(n, m).node.log))
  {
  }

  /** A leader that finds a majority counts; otherwise an answer leaves its log alone. */
  lemma AnswerIsCounted(x: LogLife.Life, n: Node, m: Message)
    requires x.phase.Idle? && x.log == n.log && n.WellFormed() && Distinct(n.peers) && n.role == Leader
    requires m.AppendResponse? && !m.reject && m.from in n.prs && m.from != n.id && Receive(n, m).Stepped?
    ensures var l := Receive(n, m).node.log;
            if Wins(n, m)
            then && LogLife.Enabled(x, LogLife.Counted(m.index))
                 && LogLife.Next(x, LogLife.Counted(m.index)) == Some(x.(log := l))
            else l == n.log
  {
    AnswerMeans(n, m);
  }

  /** A proposal appends what is let in. */
  lemma ProposalIsProposed(x: LogLife.Life, n: Node, es: seq<Entry>) returns (at: seq<nat>, added: seq<Entry>)
    requires x.phase.Idle? && x.log == n.log && |n.peers| != 1
    ensures Lets(n.pendingConf, es, at) && Stamps(n, es, at, added)
    ensures LogLife.Enabled(x, LogLife.Proposed(added))
    ensures LogLife.Next(x, LogLife.Proposed(added)) == Some(x.(log := Propose(n, es).log))
  {
    at, added := ProposeMeans(n, es);
  }
}
