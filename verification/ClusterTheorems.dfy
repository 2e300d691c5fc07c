/** The safety properties of section 5 of the Raft paper, for every run of the cluster. */
module ClusterTheorems {
  import opened Common
  import opened RaftTypes
  import opened RaftStep
  import opened Cluster
  import opened ClusterInv
  import opened ClusterLogs
  import opened ClusterSteps
  import opened ClusterCommit
  import opened ClusterSafety

  /** A run: a state before each event and one after the last. */
  ghost predicate IsRun(run: seq<System>, events: seq<Event>) {
    && |run| == |events| + 1
    && Init(run[0])
    && forall i :: 0 <= i < |events| ==> Happens(run[i], events[i], run[i + 1])
  }

  ghost predicate Happens(c: System, e: Event, d: System) {
    AllWellFormed(c) && Enabled(c, e) && d == Apply(c, e)
  }

  ghost predicate Leads(c: System, n: Id, term: nat) {
    n in c.nodes && c.nodes[n].role == Leader && c.nodes[n].term == term
  }

  function LogOf(c: System, n: Id): seq<Entry>
    requires n in c.nodes
  {
    c.nodes[n].log.entries
  }

  lemma {:induction false} RunInv(run: seq<System>, events: seq<Event>, i: nat)
    requires IsRun(run, events) && i < |run|
    ensures Inv(run[i])
  {
    if i == 0 {
      InitInv(run[0]);
    } else {
      RunInv(run, events, i - 1);
      assert Happens(run[i - 1], events[i - 1], run[i]);
      StepKeepsInv(run[i - 1], events[i - 1]);
    }
  }

  lemma {:induction false} RunAdvances(run: seq<System>, events: seq<Event>, i: nat, j: nat)
    requires IsRun(run, events) && i <= j < |run|
    ensures Advances(run[i], run[j])
    decreases j
  {
    if i == j {
      forall n ensures NodeAges(run[i], run[j], n) {
      }
    } else {
      RunAdvances(run, events, i, j - 1);
      RunInv(run, events, j - 1);
      assert Happens(run[j - 1], events[j - 1], run[j]);
      StepKeepsInv(run[j - 1], events[j - 1]);
      AdvancesTransitive(run[i], run[j - 1], run[j]);
    }
  }

  // ---------------------------------------------------------------- elections

  /** Election Safety: over the whole run, a term has at most one leader. */
  lemma ElectionSafety(run: seq<System>, events: seq<Event>, i: nat, j: nat, a: Id, b: Id, term: nat)
    requires IsRun(run, events) && i < |run| && j < |run|
    requires Leads(run[i], a, term) && Leads(run[j], b, term)
    ensures a == b
  {
    RunInv(run, events, i);
    RunInv(run, events, j);
    assert LeaderOk(run[i], a) && LeaderOk(run[j], b);
    if i <= j { RunAdvances(run, events, i, j); } else { RunAdvances(run, events, j, i); }
  }

  /** Leader Append-Only: while a node leads a term its log is only extended. */
  lemma LeaderAppendOnly(run: seq<System>, events: seq<Event>, i: nat, j: nat, n: Id, term: nat)
    requires IsRun(run, events) && i <= j < |run|
    requires Leads(run[i], n, term) && Leads(run[j], n, term)
    ensures LogOf(run[i], n) <= LogOf(run[j], n)
  {
    RunInv(run, events, i);
    RunInv(run, events, j);
    RunAdvances(run, events, i, j);
    assert NodeLogOk(run[i], n) && NodeLogOk(run[j], n);
  }

  /** Terms never go back, and no log ever becomes less recent in the order in which votes compare logs. */
  lemma RecencyNeverDecreases(run: seq<System>, events: seq<Event>, i: nat, j: nat, n: Id)
    requires IsRun(run, events) && i <= j < |run| && n in run[i].nodes
    ensures n in run[j].nodes && run[i].nodes[n].term <= run[j].nodes[n].term
    ensures AtLeast(RecencyOf(LogOf(run[j], n)), RecencyOf(LogOf(run[i], n)))
  {
    RunAdvances(run, events, i, j);
    assert NodeAges(run[i], run[j], n);
  }

  // ---------------------------------------------------------------- logs

  lemma CoherentLater(run: seq<System>, events: seq<Event>, i: nat, j: nat, es: seq<Entry>)
    requires IsRun(run, events) && i <= j < |run| && Coherent(es, run[i].hist.logs)
    ensures Coherent(es, run[j].hist.logs)
  {
    RunAdvances(run, events, i, j);
    CoherentGrows(es, run[i].hist.logs, run[j].hist.logs);
  }

  /** Log Matching: two logs of the run that agree on the term at an index are identical through that index. */
  lemma LogMatching(run: seq<System>, events: seq<Event>, i: nat, j: nat, a: Id, b: Id, k: nat)
    requires IsRun(run, events) && i < |run| && j < |run| && a in run[i].nodes && b in run[j].nodes
    requires k < |LogOf(run[i], a)| && k < |LogOf(run[j], b)|
    requires LogOf(run[i], a)[k].term == LogOf(run[j], b)[k].term
    ensures LogOf(run[i], a)[..k + 1] == LogOf(run[j], b)[..k + 1]
  {
    RunInv(run, events, i);
    RunInv(run, events, j);
    assert NodeLogOk(run[i], a) && NodeLogOk(run[j], b);
    var last := if i <= j then j else i;
    CoherentLater(run, events, i, last, LogOf(run[i], a));
    CoherentLater(run, events, j, last, LogOf(run[j], b));
    CoherentMatch(LogOf(run[i], a), LogOf(run[j], b), run[last].hist.logs, k);
  }

  /** Log Matching for an append in flight: a log that holds one of its entries holds all the ones before it. */
  lemma ShipmentMatching(run: seq<System>, events: seq<Event>, i: nat, j: nat, m: Message, b: Id, q: nat)
    requires IsRun(run, events) && i < |run| && j < |run| && m in run[i].net && m.Append? && b in run[j].nodes
    requires q < |m.entries| && m.index + q < |LogOf(run[j], b)|
    requires LogOf(run[j], b)[m.index + q].term == m.entries[q].term
    ensures LogOf(run[j], b)[m.index..m.index + q + 1] == m.entries[..q + 1]
    ensures m.logTerm == TermOf(LogOf(run[j], b), m.index)
  {
    RunInv(run, events, i);
    RunInv(run, events, j);
    var c := run[i];
    assert Addressed(c, m) && ShipmentOk(c.hist, m) && LeaderLogOk(c.hist, m.term) && NodeLogOk(run[j], b);
    var last := if i <= j then j else i;
    var es, log := c.hist.logs[m.term], LogOf(run[j], b);
    CoherentLater(run, events, i, last, es);
    CoherentLater(run, events, j, last, log);
    CoherentMatch(es, log, run[last].hist.logs, m.index + q);
    ShippedSlice(log, es, m.entries, m.index, q);
  }

  /** Logs that agree through a shipped entry agree on the shipment up to it, and on the entry before. */
  lemma ShippedSlice(log: seq<Entry>, es: seq<Entry>, shipped: seq<Entry>, index: nat, q: nat)
    requires index + |shipped| <= |es| && shipped == es[index..index + |shipped|] && q < |shipped|
    requires index + q < |log| && log[..index + q + 1] == es[..index + q + 1]
    ensures log[index..index + q + 1] == shipped[..q + 1] && TermOf(log, index) == TermOf(es, index)
  {
    var both := es[..index + q + 1];
    assert log[index..index + q + 1] == both[index..] == shipped[..q + 1];
    if index > 0 { assert both[index - 1] == log[index - 1]; }
  }

  // ---------------------------------------------------------------- the history is what happened

  lemma ObservedLog(h: History, before: Node, after: Node, out: seq<Message>, term: nat)
    requires term in Observe(h, before, after, out).logs
    requires !(term in h.logs && h.logs[term] == Observe(h, before, after, out).logs[term])
    ensures after.role == Leader && term == after.term && Observe(h, before, after, out).logs[term] == after.log.entries
    ensures term in Observe(h, before, after, out).elected && Observe(h, before, after, out).elected[term] == after.id
  {
  }

  /** A log newly recorded by a step is the log of the node that leads after it. */
  lemma NewLogIsHeld(c: System, e: Event, d: System, term: nat)
    requires Happens(c, e, d) && Inv(d) && term in d.hist.logs
    requires !(term in c.hist.logs && c.hist.logs[term] == d.hist.logs[term])
    ensures term in d.hist.elected && Leads(d, d.hist.elected[term], term)
    ensures LogOf(d, d.hist.elected[term]) == d.hist.logs[term]
  {
    StepIsMove(c, e);
    var o, at := Reaction(c, e), Actor(e);
    ObservedLog(c.hist, c.nodes[at], o.node, o.out, term);
    assert o.node.id == at by { assert NodeShape(d, at); }
  }

  /** The log recorded for a term is one its leader really had. */
  lemma {:induction false} RecordedLogWasHeld(run: seq<System>, events: seq<Event>, i: nat, term: nat) returns (j: nat)
    requires IsRun(run, events) && i < |run| && term in run[i].hist.logs
    ensures j <= i && term in run[i].hist.elected && Leads(run[j], run[i].hist.elected[term], term)
    ensures LogOf(run[j], run[i].hist.elected[term]) == run[i].hist.logs[term]
  {
    RunInv(run, events, i);
    assert LeaderLogOk(run[i].hist, term);
    var c, d := run[i - 1], run[i];
    assert Happens(c, events[i - 1], d);
    RunInv(run, events, i - 1);
    if term in c.hist.logs && d.hist.logs[term] == c.hist.logs[term] {
      RunAdvances(run, events, i - 1, i);
      j := RecordedLogWasHeld(run, events, i - 1, term);
    } else {
      NewLogIsHeld(c, events[i - 1], d, term);
      j := i;
    }
  }

  /** Only an accepted append is acknowledged. */
  lemma OnlyAppendsAcked(c: System, e: Event, o: Outcome, m: Message)
    requires Inv(c) && Enabled(c, e) && IsStep(e) && o == Reaction(c, e) && o.Stepped?
    requires m in o.out && m.AppendResponse? && !m.reject
    ensures e.Deliver? && e.msg.Append? && e.msg.term >= c.nodes[e.msg.to].term
    ensures KeptPrefix(c.nodes[e.msg.to].log, e.msg.index, e.msg.logTerm).Some?
  {
    var n := c.nodes[Actor(e)];
    assert NodeShape(c, Actor(e)) && Uncompacted(c, Actor(e));
    match e {
      case Timeout(at) => RequestsSent(o.node, o.node.peers, m);
      case Proposal(at, es) => ProposalPolite(c, at, es, o);
      case Resend(_, _) =>
      case Beat(_, _, _) =>
      case Deliver(x) =>
        if x.VoteResponse? && n.role == Candidate && x.term == n.term && !x.reject &&
           n.voteReceived + 1 > |n.peers| / 2 {
          WonPolite(c, x, o);
        }
        if x.AppendResponse? && n.role == Leader {
          if x.reject { RefusalPolite(c, x, o); } else { AckOutcome(n, x, o); }
        }
    }
  }

  /** An acknowledgement newly recorded by a step is the whole log of the node that made it. */
  ghost predicate AckIsLog(d: System, t: nat, n: Id)
    requires (t, n) in d.hist.acks
  {
    && n in d.nodes && d.nodes[n].term == t && t in d.hist.logs
    && d.hist.acks[(t, n)] == |LogOf(d, n)| <= |d.hist.logs[t]|
    && LogOf(d, n) == d.hist.logs[t][..|LogOf(d, n)|]
  }

  lemma ObservedAck(h: History, before: Node, after: Node, out: seq<Message>, t: nat, n: Id)
    requires (t, n) in Observe(h, before, after, out).acks
    requires !((t, n) in h.acks && h.acks[(t, n)] == Observe(h, before, after, out).acks[(t, n)])
    ensures n == after.id
    ensures var k := Observe(h, before, after, out).acks[(t, n)];
            if after.role == Leader then t == after.term && k == |after.log.entries|
            else |out| == 1 && out[0].AppendResponse? && !out[0].reject && t == out[0].term && k == out[0].index
  {
  }

  lemma AcceptedAckIsLog(c: System, e: Event, o: Outcome)
    requires Inv(c) && Enabled(c, e) && IsStep(e) && o == Reaction(c, e) && o.Stepped?
    requires |o.out| == 1 && o.out[0].AppendResponse? && !o.out[0].reject && o.node.role != Leader
    ensures o.out[0].term == o.node.term && o.node.term in c.hist.logs
    ensures o.out[0].index == |o.node.log.entries| <= |c.hist.logs[o.node.term]|
    ensures o.node.log.entries == c.hist.logs[o.node.term][..|o.node.log.entries|]
  {
    OnlyAppendsAcked(c, e, o, o.out[0]);
    Accepted(c, e.msg, o);
  }

  lemma LeaderAckIsLog(d: System, at: Id, t: nat)
    requires LogInv(d) && Leads(d, at, t) && (t, at) in d.hist.acks && d.hist.acks[(t, at)] == |LogOf(d, at)|
    ensures AckIsLog(d, t, at)
  {
    assert NodeLogOk(d, at);
  }

  lemma FollowerAckIsLog(c: System, e: Event, d: System, o: Outcome, t: nat)
    requires Inv(c) && Enabled(c, e) && IsStep(e) && o == Reaction(c, e) && o.Stepped? && o.node.role != Leader
    requires |o.out| == 1 && o.out[0].AppendResponse? && !o.out[0].reject && t == o.out[0].term
    requires Actor(e) in d.nodes && d.nodes[Actor(e)] == o.node && d.hist.logs == c.hist.logs
    requires (t, Actor(e)) in d.hist.acks && d.hist.acks[(t, Actor(e))] == o.out[0].index
    ensures AckIsLog(d, t, Actor(e))
  {
    AcceptedAckIsLog(c, e, o);
  }

  lemma NewAckIsLog(c: System, e: Event, d: System, t: nat, n: Id)
    requires Inv(c) && Happens(c, e, d) && Inv(d) && (t, n) in d.hist.acks
    requires !((t, n) in c.hist.acks && c.hist.acks[(t, n)] == d.hist.acks[(t, n)])
    ensures AckIsLog(d, t, n)
  {
    StepIsMove(c, e);
    var o, at := Reaction(c, e), Actor(e);
    ObservedAck(c.hist, c.nodes[at], o.node, o.out, t, n);
    assert o.node.id == at by { assert NodeShape(d, at); }
    if o.node.role == Leader {
      LeaderAckIsLog(d, at, t);
    } else {
      FollowerAckIsLog(c, e, d, o, t);
    }
  }

  /** An acknowledgement that was there before a step is about the same log after it. */
  lemma OldAckStays(run: seq<System>, events: seq<Event>, i: nat, t: nat, k: nat)
    requires IsRun(run, events) && 0 < i < |run| && t in run[i - 1].hist.logs && k <= |run[i - 1].hist.logs[t]|
    ensures t in run[i].hist.logs && k <= |run[i].hist.logs[t]|
    ensures run[i].hist.logs[t][..k] == run[i - 1].hist.logs[t][..k]
  {
    RunAdvances(run, events, i - 1, i);
    assert run[i].hist.logs[t][..k] == run[i].hist.logs[t][..|run[i - 1].hist.logs[t]|][..k];
  }

  lemma {:induction false} RecordedAckWasMade(run: seq<System>, events: seq<Event>, i: nat, t: nat, n: Id)
    returns (j: nat)
    requires IsRun(run, events) && i < |run| && (t, n) in run[i].hist.acks
    ensures j <= i && n in run[j].nodes && run[j].nodes[n].term == t
    ensures t in run[i].hist.logs && run[i].hist.acks[(t, n)] == |LogOf(run[j], n)| <= |run[i].hist.logs[t]|
    ensures LogOf(run[j], n) == run[i].hist.logs[t][..|LogOf(run[j], n)|]
  {
    var c, d := run[i - 1], run[i];
    assert Happens(c, events[i - 1], d);
    if (t, n) in c.hist.acks && c.hist.acks[(t, n)] == d.hist.acks[(t, n)] {
      j := RecordedAckWasMade(run, events, i - 1, t, n);
      OldAckStays(run, events, i, t, |LogOf(run[j], n)|);
    } else {
      RunInv(run, events, i - 1);
      RunInv(run, events, i);
      NewAckIsLog(c, events[i - 1], d, t, n);
      j := i;
    }
  }

  // ---------------------------------------------------------------- acknowledgements

  /**
   Acknowledgement soundness: when a node answers an append of a term positively with an index, its whole log
   is that long and is the beginning of a log the leader of the term has had, although the index reported is
   that of the node's last entry and not of the last entry shipped.
   */
  lemma AcknowledgementSound(run: seq<System>, events: seq<Event>, i: nat, reply: Message) returns (j: nat)
    requires IsRun(run, events) && i < |events| && IsStep(events[i])
    requires Happens(run[i], events[i], run[i + 1])
    requires reply in Reaction(run[i], events[i]).out && reply.AppendResponse? && !reply.reject
    ensures j <= i && Leads(run[j], reply.to, reply.term)
    ensures Actor(events[i]) in run[i + 1].nodes && run[i + 1].nodes[Actor(events[i])].term == reply.term
    ensures |LogOf(run[i + 1], Actor(events[i]))| == reply.index <= |LogOf(run[j], reply.to)|
    ensures LogOf(run[i + 1], Actor(events[i])) == LogOf(run[j], reply.to)[..reply.index]
  {
    var c, e := run[i], events[i];
    var o := Reaction(c, e);
    RunInv(run, events, i);
    OnlyAppendsAcked(c, e, o, reply);
    Accepted(c, e.msg, o);
    assert Addressed(c, e.msg) && ShipmentOk(c.hist, e.msg);
    j := RecordedLogWasHeld(run, events, i, reply.term);
  }

  // ---------------------------------------------------------------- match indexes

  lemma {:induction false} RunProgress(run: seq<System>, events: seq<Event>, i: nat)
    requires IsRun(run, events) && i < |run|
    ensures ProgressInv(run[i])
  {
    if i == 0 {
      InitProgress(run[0]);
    } else {
      RunProgress(run, events, i - 1);
      RunInv(run, events, i - 1);
      assert Happens(run[i - 1], events[i - 1], run[i]);
      StepKeepsProgress(run[i - 1], events[i - 1]);
    }
  }

  // ---------------------------------------------------------------- who is told to commit

  /** The event hands a leader a positive answer. */
  ghost predicate AnswersLeader(c: System, e: Event) {
    e.Deliver? && IsAnswer(e.msg) && e.msg.to in c.nodes && c.nodes[e.msg.to].role == Leader
  }

  ghost predicate Answers(c: System, e: Event, n: Id) {
    AnswersLeader(c, e) && e.msg.to == n
  }

  /** The event hands `n` an answer of term `t` in which `p` reports index `k` or a later one. */
  predicate AnswerOf(e: Event, n: Id, p: Id, t: nat, k: nat) {
    && e.Deliver? && IsAnswer(e.msg)
    && e.msg.to == n && e.msg.from == p && e.msg.term == t && e.msg.index >= k
  }

  ghost predicate Answered(events: seq<Event>, i: nat, n: Id, p: Id, t: nat, k: nat) {
    exists j: nat {:trigger AnswerOf(events[j], n, p, t, k)} ::
      j < i && j < |events| && AnswerOf(events[j], n, p, t, k)
  }

  /**
   Whoever the `i`th event makes a leader tell to commit through an index has by then given that leader an answer of
   its own term that reaches the index. The leader itself is told by nobody; the peers it counts are all told.
   */
  ghost predicate TellsAnswered(run: seq<System>, events: seq<Event>, i: nat)
    requires i < |events| && |run| == |events| + 1
  {
    AnswersLeader(run[i], events[i]) ==>
      var m := events[i].msg;
      var n := run[i].nodes[m.to];
      forall p :: Tells(n, m, p) ==> Answered(events, i + 1, m.to, p, n.term, m.index)
  }

  /** The first `k` events make leaders tell only peers that have answered them in their terms. */
  ghost predicate TellsOnlyAnswered(run: seq<System>, events: seq<Event>, k: nat)
    requires k <= |events| && |run| == |events| + 1
  {
    forall i: nat {:trigger TellsAnswered(run, events, i)} :: i < k ==> TellsAnswered(run, events, i)
  }

  /** What has been answered in a term has been acknowledged in it. */
  lemma AnsweredIsAcked(run: seq<System>, events: seq<Event>, i: nat, n: Id, p: Id, t: nat, k: nat)
    requires IsRun(run, events) && i < |events| && Answered(events, i + 1, n, p, t, k)
    ensures AckedThrough(run[i].hist, t, p, k)
  {
    var j: nat :| j < i + 1 && AnswerOf(events[j], n, p, t, k);
    RunInv(run, events, j);
    RunAdvances(run, events, j, i);
    assert Happens(run[j], events[j], run[j + 1]);
    assert Addressed(run[j], events[j].msg) && ResponseOk(run[j].hist, events[j].msg);
  }

  lemma TellsAnsweredMeansAcked(run: seq<System>, events: seq<Event>, i: nat)
    requires IsRun(run, events) && i < |events| && AnswersLeader(run[i], events[i]) && TellsAnswered(run, events, i)
    ensures TellsAckers(run[i], events[i].msg)
  {
    var m := events[i].msg;
    var t := run[i].nodes[m.to].term;
    forall p | Tells(run[i].nodes[m.to], m, p) ensures AckedThrough(run[i].hist, t, p, m.index) {
      AnsweredIsAcked(run, events, i, m.to, p, t, m.index);
    }
  }

  // ---------------------------------------------------------------- clean leaderships

  /** The index is beyond the entries of terms before the node's own. */
  ghost predicate Reaches(n: Node, k: nat) {
    k > 0 && (k <= |n.log.entries| ==> n.log.entries[k - 1].term >= n.term)
  }

  /** No match index of another peer reaches an entry of the node's term. */
  ghost predicate NoneReaches(c: System, n: Id) {
    n in c.nodes &&
    forall p :: p in c.nodes[n].prs && p != n ==> !Reaches(c.nodes[n], c.nodes[n].prs[p].matched)
  }

  /** The answer makes a leader count nothing and tell nobody: it brings no news, or news of an earlier term's entry. */
  ghost predicate Unheeded(n: Node, m: Message) {
    && IsAnswer(m) && m.from in n.prs
    && (m.index <= n.prs[m.from].matched || (n.log.committed < m.index && !Reaches(n, m.index)))
  }

  ghost predicate Begins(run: seq<System>, j: nat, n: Id, t: nat) {
    j < |run| && Leads(run[j], n, t) && (j > 0 ==> !Leads(run[j - 1], n, t))
  }

  /**
   The leadership the node is in at the `i`th state began with no match index of another peer that reaches an entry of
   its term, and every answer the node has been given in it is of its term or unheeded. The node can see both.
   */
  ghost predicate CleanLeadership(run: seq<System>, events: seq<Event>, i: nat, n: Id)
    requires i <= |events| && |run| == |events| + 1
  {
    && n in run[i].nodes
    && var t := run[i].nodes[n].term;
       && (forall j: nat {:trigger Begins(run, j, n, t)} :: j <= i && Begins(run, j, n, t) ==> NoneReaches(run[j], n))
       && (forall j: nat :: j < i && Leads(run[j], n, t) && Answers(run[j], events[j], n) ==>
                              CleanFor(run[j].nodes[n], events[j].msg))
  }

  ghost predicate CleanFor(n: Node, m: Message) {
    IsAnswer(m) && (m.term == n.term || Unheeded(n, m))
  }

  /** The peer has answered the node in its term through its match index, if that reaches an entry of the term. */
  ghost predicate MatchAnswered(c: System, events: seq<Event>, i: nat, n: Id, p: Id) {
    n in c.nodes && p in c.nodes[n].prs && p != n && Reaches(c.nodes[n], c.nodes[n].prs[p].matched) ==>
      Answered(events, i, n, p, c.nodes[n].term, c.nodes[n].prs[p].matched)
  }

  lemma AnswerSets(n: Node, m: Message, o: Outcome)
    requires n.WellFormed() && IsAnswer(m) && o == HandleAppendResponse(n, m) && o.Stepped? && m.from in n.prs
    ensures o.node.prs == if m.index <= n.prs[m.from].matched then n.prs
                          else n.prs[m.from := Progress(m.index, m.index + 1)]
  {
  }

  lemma StepNode(c: System, e: Event, d: System, n: Id)
    requires Happens(c, e, d) && n in c.nodes
    ensures n in d.nodes
    ensures d.nodes[n] == if IsStep(e) && Actor(e) == n then Reaction(c, e).node else c.nodes[n]
  {
    if IsStep(e) { StepIsMove(c, e); }
  }

  /** Any step of the node but an answer leaves its match indexes alone. */
  lemma OtherStepsSame(c: System, e: Event, d: System, n: Id)
    requires Happens(c, e, d) && n in c.nodes && !Answers(c, e, n)
    ensures n in d.nodes && SameMatches(c.nodes[n], d.nodes[n])
  {
    StepNode(c, e, d, n);
    if IsStep(e) && Actor(e) == n { StepMatches(c, e); }
  }

  lemma LeaderExtends(c: System, d: System, n: Id, t: nat)
    requires Inv(c) && Inv(d) && Advances(c, d) && Leads(c, n, t) && Leads(d, n, t)
    ensures c.nodes[n].log.entries <= d.nodes[n].log.entries
  {
    assert NodeLogOk(c, n) && NodeLogOk(d, n);
  }

  lemma AnsweredLater(events: seq<Event>, i: nat, n: Id, p: Id, t: nat, k: nat)
    requires Answered(events, i, n, p, t, k)
    ensures Answered(events, i + 1, n, p, t, k)
  {
    var j: nat :| j < i && j < |events| && AnswerOf(events[j], n, p, t, k);
  }

  lemma AnsweredNow(events: seq<Event>, i: nat, n: Id, p: Id, t: nat, k: nat)
    requires i < |events| && AnswerOf(events[i], n, p, t, k)
    ensures Answered(events, i + 1, n, p, t, k)
  {
  }

  lemma AnswerKeepsMatch(c: System, d: System, events: seq<Event>, i: nat, n: Id, p: Id, m: Message)
    requires i < |events| && events[i] == Deliver(m) && IsAnswer(m) && m.to == n && n in c.nodes && n in d.nodes
    requires CleanFor(c.nodes[n], m) && MatchAnswered(c, events, i, n, p) && m.from in c.nodes[n].prs
    requires d.nodes[n].prs == if m.index <= c.nodes[n].prs[m.from].matched then c.nodes[n].prs
                               else c.nodes[n].prs[m.from := Progress(m.index, m.index + 1)]
    requires d.nodes[n].term == c.nodes[n].term && d.nodes[n].log.entries == c.nodes[n].log.entries
    ensures MatchAnswered(d, events, i + 1, n, p)
  {
    if p in d.nodes[n].prs && p != n && Reaches(d.nodes[n], d.nodes[n].prs[p].matched) {
      var t, k := d.nodes[n].term, d.nodes[n].prs[p].matched;
      if d.nodes[n].prs[p] == c.nodes[n].prs[p] {
        AnsweredLater(events, i, n, p, t, k);
      } else {
        AnsweredNow(events, i, n, p, t, k);
      }
    }
  }

  lemma SameKeepsMatch(c: System, d: System, events: seq<Event>, i: nat, n: Id, p: Id)
    requires n in c.nodes && n in d.nodes && c.nodes[n].id == n && MatchAnswered(c, events, i, n, p)
    requires SameMatches(c.nodes[n], d.nodes[n]) && d.nodes[n].term == c.nodes[n].term
    requires c.nodes[n].log.entries <= d.nodes[n].log.entries
    ensures MatchAnswered(d, events, i + 1, n, p)
  {
    if p in d.nodes[n].prs && p != n && Reaches(d.nodes[n], d.nodes[n].prs[p].matched) {
      AnsweredLater(events, i, n, p, d.nodes[n].term, d.nodes[n].prs[p].matched);
    }
  }

  /** A step of a run with the invariants on both sides of it. */
  ghost predicate SoundStep(c: System, e: Event, d: System) {
    Inv(c) && Inv(d) && Advances(c, d) && Happens(c, e, d)
  }

  lemma RunSteps(run: seq<System>, events: seq<Event>, i: nat)
    requires IsRun(run, events) && i < |events|
    ensures SoundStep(run[i], events[i], run[i + 1])
  {
    RunInv(run, events, i);
    RunInv(run, events, i + 1);
    RunAdvances(run, events, i, i + 1);
  }

  lemma AnswerStep(c: System, e: Event, d: System, n: Id)
    requires Inv(c) && Happens(c, e, d) && Answers(c, e, n)
    ensures n in d.nodes && d.nodes[n].role == Leader
    ensures d.nodes[n].term == c.nodes[n].term && d.nodes[n].log.entries == c.nodes[n].log.entries
    ensures e.msg.from in c.nodes[n].prs
    ensures d.nodes[n].prs == if e.msg.index <= c.nodes[n].prs[e.msg.from].matched then c.nodes[n].prs
                              else c.nodes[n].prs[e.msg.from := Progress(e.msg.index, e.msg.index + 1)]
  {
    StepNode(c, e, d, n);
    assert c.nodes[n].WellFormed() by { assert NodeShape(c, n); }
    AckOutcome(c.nodes[n], e.msg, Reaction(c, e));
    AnswerSets(c.nodes[n], e.msg, Reaction(c, e));
  }

  lemma AnswerMatch(c: System, d: System, events: seq<Event>, i: nat, n: Id, p: Id)
    requires i < |events| && Inv(c) && Happens(c, events[i], d) && Answers(c, events[i], n)
    requires MatchAnswered(c, events, i, n, p) && CleanFor(c.nodes[n], events[i].msg)
    ensures MatchAnswered(d, events, i + 1, n, p)
  {
    AnswerStep(c, events[i], d, n);
    AnswerKeepsMatch(c, d, events, i, n, p, events[i].msg);
  }

  lemma OtherMatch(c: System, d: System, events: seq<Event>, i: nat, n: Id, t: nat, p: Id)
    requires i < |events| && Inv(c) && Inv(d) && Advances(c, d) && Happens(c, events[i], d)
    requires Leads(c, n, t) && Leads(d, n, t) && !Answers(c, events[i], n) && MatchAnswered(c, events, i, n, p)
    ensures MatchAnswered(d, events, i + 1, n, p)
  {
    assert c.nodes[n].id == n by { assert NodeShape(c, n); }
    OtherStepsSame(c, events[i], d, n);
    LeaderExtends(c, d, n, t);
    SameKeepsMatch(c, d, events, i, n, p);
  }

  lemma MatchStep(c: System, d: System, events: seq<Event>, i: nat, n: Id, p: Id)
    requires i < |events| && SoundStep(c, events[i], d) && n in c.nodes && MatchAnswered(c, events, i, n, p)
    requires Leads(c, n, c.nodes[n].term) && Leads(d, n, c.nodes[n].term)
    requires Answers(c, events[i], n) ==> CleanFor(c.nodes[n], events[i].msg)
    ensures MatchAnswered(d, events, i + 1, n, p)
  {
    if Answers(c, events[i], n) {
      AnswerMatch(c, d, events, i, n, p);
    } else {
      OtherMatch(c, d, events, i, n, c.nodes[n].term, p);
    }
  }

  /** A leadership that is clean now was clean a step ago. */
  lemma CleanBefore(run: seq<System>, events: seq<Event>, i: nat, n: Id)
    requires |run| == |events| + 1 && i < |events| && CleanLeadership(run, events, i + 1, n)
    requires Leads(run[i], n, run[i + 1].nodes[n].term)
    ensures CleanLeadership(run, events, i, n)
  {
  }

  lemma {:induction false} CleanMatches(run: seq<System>, events: seq<Event>, i: nat, n: Id, p: Id)
    requires IsRun(run, events) && i < |run| && CleanLeadership(run, events, i, n)
    requires Leads(run[i], n, run[i].nodes[n].term)
    ensures MatchAnswered(run[i], events, i, n, p)
  {
    var t := run[i].nodes[n].term;
    if Begins(run, i, n, t) {
      assert NoneReaches(run[i], n);
    } else {
      CleanBefore(run, events, i - 1, n);
      CleanMatches(run, events, i - 1, n, p);
      RunSteps(run, events, i - 1);
      MatchStep(run[i - 1], run[i], events, i - 1, n, p);
    }
  }

  /** Whom a leader tells: the sender of an answer it heeds, and the peers whose match index reaches that far. */
  lemma ToldReach(n: Node, m: Message, p: Id)
    requires n.WellFormed() && Distinct(n.peers) && IsAnswer(m) && m.from in n.prs && Tells(n, m, p)
    requires n.log.snapIndex == 0 && m.index >= 1 && TermsUpTo(n.log.entries, n.term)
    ensures !Unheeded(n, m)
    ensures p != m.from ==> p in n.prs && p != n.id && n.prs[p].matched >= m.index && Reaches(n, n.prs[p].matched)
  {
    var n1 := n.(prs := n.prs[m.from := Progress(m.index, m.index + 1)]);
    assert m.index > n.prs[m.from].matched;
    if m.index > n.log.committed {
      var others := ReachedBy(n1, n1.peers, m.from, m.index);
      ReachedByFacts(n1, n1.peers, m.from, m.index);
      assert p in [m.from] + others;
    }
  }

  lemma AnsweredLess(events: seq<Event>, i: nat, n: Id, p: Id, t: nat, k: nat, k': nat)
    requires Answered(events, i, n, p, t, k) && k' <= k
    ensures Answered(events, i, n, p, t, k')
  {
    var j: nat :| j < i && j < |events| && AnswerOf(events[j], n, p, t, k);
    assert AnswerOf(events[j], n, p, t, k');
  }

  /** In a clean leadership, an answer of the term or an unheeded one makes the leader tell only who has answered. */
  lemma CleanTellsAnswered(run: seq<System>, events: seq<Event>, i: nat)
    requires IsRun(run, events) && i < |events| && AnswersLeader(run[i], events[i])
    requires CleanLeadership(run, events, i, events[i].msg.to)
    requires CleanFor(run[i].nodes[events[i].msg.to], events[i].msg)
    ensures TellsAnswered(run, events, i)
  {
    var m := events[i].msg;
    var n := run[i].nodes[m.to];
    RunInv(run, events, i);
    assert Happens(run[i], events[i], run[i + 1]);
    assert Addressed(run[i], m) && ResponseOk(run[i].hist, m);
    assert NodeShape(run[i], m.to) && NodeLogOk(run[i], m.to) && Uncompacted(run[i], m.to);
    forall p | Tells(n, m, p) ensures Answered(events, i + 1, m.to, p, n.term, m.index) {
      ToldReach(n, m, p);
      if p == m.from {
        AnsweredNow(events, i, m.to, p, n.term, m.index);
      } else {
        CleanMatches(run, events, i, m.to, p);
        AnsweredLater(events, i, m.to, p, n.term, n.prs[p].matched);
        AnsweredLess(events, i + 1, m.to, p, n.term, n.prs[p].matched, m.index);
      }
    }
  }

  // ---------------------------------------------------------------- first leaderships are clean

  /** Up to the `i`th state the node has led in no term but the one it is in there. */
  ghost predicate FirstLeadership(run: seq<System>, i: nat, n: Id)
    requires i < |run|
  {
    n in run[i].nodes && forall j: nat, t: nat :: j <= i && Leads(run[j], n, t) ==> t == run[i].nodes[n].term
  }

  /** Every term recorded for the node up to the `i`th state is one it led by then. */
  lemma RecordedTermWasLed(run: seq<System>, events: seq<Event>, i: nat, n: Id, t: nat) returns (j: nat)
    requires IsRun(run, events) && i < |run| && t in run[i].hist.elected && run[i].hist.elected[t] == n
    ensures j <= i && Leads(run[j], n, t)
  {
    assert t in run[i].hist.logs by {
      RunInv(run, events, i);
      assert LeaderLogOk(run[i].hist, t);
    }
    j := RecordedLogWasHeld(run, events, i, t);
  }

  /** Nobody leads a term in which they led before, and then did not. */
  lemma NewLeadersTermIsFresh(c: System, d: System, n: Id, t: nat)
    requires Inv(c) && Inv(d) && Advances(c, d) && !Leads(c, n, t) && Leads(d, n, t) && n in c.nodes
    ensures t !in c.hist.elected
  {
    assert ElectedOk(c, t) && LeaderOk(d, n) && NodeAges(c, d, n) && CampaignOk(c, t, n);
  }

  lemma LeaderlessUnacked(c: System, t: nat, p: Id)
    requires Inv(c) && t !in c.hist.elected
    ensures (t, p) !in c.hist.acks
  {
    assert AckOk(c, t, p) && LeaderLogOk(c.hist, t);
  }

  /** A step adds an acknowledgement of its own node only. */
  lemma NewAckIsOwn(c: System, e: Event, d: System, t: nat, p: Id)
    requires Happens(c, e, d) && AllWellFormed(d) && (t, p) in d.hist.acks && (t, p) !in c.hist.acks
    ensures IsStep(e) && Actor(e) == p
  {
    StepIsMove(c, e);
    var o, at := Reaction(c, e), Actor(e);
    assert NodeShape(d, at);
    ObservedAck(c.hist, c.nodes[at], o.node, o.out, t, p);
  }

  lemma WinnerIsActor(c: System, e: Event, d: System, n: Id, t: nat)
    requires Happens(c, e, d) && !Leads(c, n, t) && Leads(d, n, t)
    ensures IsStep(e) && Actor(e) == n
  {
    if IsStep(e) { StepIsMove(c, e); }
  }

  /** When a leadership begins, nobody else has acknowledged anything in its term. */
  lemma StartUnacked(c: System, e: Event, d: System, n: Id, t: nat, p: Id)
    requires Inv(c) && Inv(d) && Advances(c, d) && Happens(c, e, d)
    requires n in c.nodes && !Leads(c, n, t) && Leads(d, n, t) && p != n
    ensures (t, p) !in d.hist.acks
  {
    NewLeadersTermIsFresh(c, d, n, t);
    LeaderlessUnacked(c, t, p);
    WinnerIsActor(c, e, d, n, t);
    if (t, p) in d.hist.acks { NewAckIsOwn(c, e, d, t, p); }
  }

  /** The leader would count the peer for the index, which holds an entry of its term. */
  ghost predicate Counts(n: Node, p: Id, k: nat) {
    p in n.prs && 1 <= k <= |n.log.entries| && n.log.entries[k - 1].term == n.term && n.prs[p].matched >= k
  }

  /** Every other peer the node would count for an index has acknowledged it in the node's term. */
  ghost predicate CountsAckers(c: System, n: Id) {
    n in c.nodes &&
    forall p, k: nat {:trigger Counts(c.nodes[n], p, k)} ::
      p != n && Counts(c.nodes[n], p, k) ==> AckedThrough(c.hist, c.nodes[n].term, p, k)
  }

  /** A leader's log ends in an entry of its term, and none of its entries is of a later one. */
  ghost predicate EndsInOwnTerm(n: Node) {
    n.log.entries != [] && n.log.entries[|n.log.entries| - 1].term == n.term && TermsUpTo(n.log.entries, n.term)
  }

  lemma LeaderEndsInOwnTerm(c: System, n: Id)
    requires Inv(c) && n in c.nodes && c.nodes[n].role == Leader
    ensures EndsInOwnTerm(c.nodes[n])
  {
    assert NodeLogOk(c, n) && LeaderLogOk(c.hist, c.nodes[n].term);
  }

  /** A match index reaches an entry of the term exactly when the peer would be counted for one. */
  lemma ReachesIff(n: Node, p: Id)
    requires EndsInOwnTerm(n) && p in n.prs
    ensures Reaches(n, n.prs[p].matched) <==> exists k: nat :: Counts(n, p, k)
    ensures Reaches(n, n.prs[p].matched) ==> Counts(n, p, Min(n.prs[p].matched, |n.log.entries|))
  {
    var k := n.prs[p].matched;
    if Reaches(n, k) { assert Counts(n, p, Min(k, |n.log.entries|)); }
  }

  lemma UnackedIff(d: System, n: Id)
    requires n in d.nodes && EndsInOwnTerm(d.nodes[n]) && forall p :: p != n ==> (d.nodes[n].term, p) !in d.hist.acks
    ensures CountsAckers(d, n) <==> NoneReaches(d, n)
  {
    forall p | p in d.nodes[n].prs && p != n
      ensures Reaches(d.nodes[n], d.nodes[n].prs[p].matched) <==> exists k: nat :: Counts(d.nodes[n], p, k)
    {
      ReachesIff(d.nodes[n], p);
    }
  }

  lemma StartCurrentIff(c: System, e: Event, d: System, n: Id, t: nat)
    requires SoundStep(c, e, d) && n in c.nodes && !Leads(c, n, t) && Leads(d, n, t)
    ensures CountsAckers(d, n) <==> NoneReaches(d, n)
  {
    forall p | p != n ensures (t, p) !in d.hist.acks {
      StartUnacked(c, e, d, n, t, p);
    }
    LeaderEndsInOwnTerm(d, n);
    UnackedIff(d, n);
  }

  /**
   When a leadership begins, whoever the leader would count for an entry of its term has acknowledged it in the term
   exactly when no match index left over from an earlier leadership reaches such an entry.
   */
  lemma BeginsCurrentIff(run: seq<System>, events: seq<Event>, i: nat, n: Id, t: nat)
    requires IsRun(run, events) && i < |events| && n in run[i].nodes
    requires !Leads(run[i], n, t) && Leads(run[i + 1], n, t)
    ensures CountsAckers(run[i + 1], n) <==> NoneReaches(run[i + 1], n)
  {
    RunSteps(run, events, i);
    StartCurrentIff(run[i], events[i], run[i + 1], n, t);
  }

  /**
   An answer keeps it so exactly when it brings no news, or news of an earlier term's entry, or its sender has
   acknowledged in the term what it reports of the leader's log.
   */
  lemma AnswerCurrentIff(c: System, e: Event, d: System, m: Message)
    requires Inv(c) && Happens(c, e, d) && e == Deliver(m) && AnswersLeader(c, e) && CountsAckers(c, m.to)
    ensures m.from in c.nodes[m.to].prs
    ensures var n := c.nodes[m.to];
            CountsAckers(d, m.to) <==>
            || m.index <= n.prs[m.from].matched
            || !Reaches(n, m.index)
            || AckedThrough(c.hist, n.term, m.from, Min(m.index, |n.log.entries|))
  {
    AnswerStep(c, e, d, m.to);
    LeaderEndsInOwnTerm(c, m.to);
    assert m.from != m.to by { assert Addressed(c, m); }
    AnswerAcks(c, e, d, m);
    RaisedIff(c, d, m.to, m.from, m.index);
  }

  /** Of the acknowledgements of others, nothing has changed. */
  ghost predicate SameAcks(c: System, d: System, n: Id, p: Id) {
    p != n && n in c.nodes ==>
      var a := (c.nodes[n].term, p);
      (a in d.hist.acks <==> a in c.hist.acks) && (a in c.hist.acks ==> d.hist.acks[a] == c.hist.acks[a])
  }

  lemma AnswerAcks(c: System, e: Event, d: System, m: Message)
    requires Inv(c) && Happens(c, e, d) && e == Deliver(m) && AnswersLeader(c, e)
    ensures forall p {:trigger SameAcks(c, d, m.to, p)} :: SameAcks(c, d, m.to, p)
  {
    StepIsMove(c, e);
    assert NodeShape(c, m.to);
    AckOutcome(c.nodes[m.to], m, Reaction(c, e));
  }

  /** The part of the peer whose match index is set to `k`. */
  lemma RaisedPeer(c: System, d: System, n: Id, p: Id, k: nat)
    requires n in c.nodes && n in d.nodes && p in d.nodes[n].prs && p != n && d.nodes[n].prs[p].matched == k
    requires EndsInOwnTerm(c.nodes[n]) && SameAcks(c, d, n, p)
    requires d.nodes[n].term == c.nodes[n].term && d.nodes[n].log.entries == c.nodes[n].log.entries
    ensures (forall x: nat {:trigger Counts(d.nodes[n], p, x)} ::
               Counts(d.nodes[n], p, x) ==> AckedThrough(d.hist, d.nodes[n].term, p, x)) <==>
            !Reaches(c.nodes[n], k) ||
            AckedThrough(c.hist, c.nodes[n].term, p, Min(k, |c.nodes[n].log.entries|))
  {
    ReachesIff(d.nodes[n], p);
  }

  lemma RaisedIff(c: System, d: System, n: Id, p: Id, k: nat)
    requires CountsAckers(c, n) && n in d.nodes && p in c.nodes[n].prs && p != n && EndsInOwnTerm(c.nodes[n])
    requires d.nodes[n].term == c.nodes[n].term && d.nodes[n].log.entries == c.nodes[n].log.entries
    requires d.nodes[n].prs == if k <= c.nodes[n].prs[p].matched then c.nodes[n].prs
                               else c.nodes[n].prs[p := Progress(k, k + 1)]
    requires forall q {:trigger SameAcks(c, d, n, q)} :: SameAcks(c, d, n, q)
    ensures CountsAckers(d, n) <==>
            || k <= c.nodes[n].prs[p].matched
            || !Reaches(c.nodes[n], k)
            || AckedThrough(c.hist, c.nodes[n].term, p, Min(k, |c.nodes[n].log.entries|))
  {
    forall q, x: nat | q != n && Counts(d.nodes[n], q, x) && d.nodes[n].prs[q] == c.nodes[n].prs[q]
      ensures AckedThrough(d.hist, d.nodes[n].term, q, x)
    {
      assert SameAcks(c, d, n, q) && Counts(c.nodes[n], q, x);
    }
    if k > c.nodes[n].prs[p].matched {
      assert SameAcks(c, d, n, p);
      RaisedPeer(c, d, n, p, k);
    }
  }

  lemma WinningKeepsMatches(c: System, e: Event, d: System, n: Id, t: nat)
    requires Inv(c) && Happens(c, e, d) && n in c.nodes && !Leads(c, n, t) && Leads(d, n, t)
    ensures c.nodes[n].id == n && SameMatches(c.nodes[n], d.nodes[n])
  {
    assert NodeShape(c, n);
    if Answers(c, e, n) {
      StepNode(c, e, d, n);
      AckOutcome(c.nodes[n], e.msg, Reaction(c, e));
    } else {
      OtherStepsSame(c, e, d, n);
    }
  }

  ghost predicate NoMatches(c: System, n: Id) {
    n in c.nodes && forall p :: p in c.nodes[n].prs && p != n ==> c.nodes[n].prs[p].matched == 0
  }

  ghost predicate NeverElected(c: System, n: Id) {
    forall t :: t in c.hist.elected ==> c.hist.elected[t] != n
  }

  /** A node that has led no term yet has no match index of another peer. */
  lemma NeverLedHasNoMatches(c: System, n: Id)
    requires ProgressInv(c) && n in c.nodes && NeverElected(c, n)
    ensures NoMatches(c, n)
  {
    forall p | p in c.nodes[n].prs && p != n ensures c.nodes[n].prs[p].matched == 0 {
      assert ProgressOk(c, n, p);
    }
  }

  lemma FreshTerm(run: seq<System>, events: seq<Event>, i: nat, n: Id, t: nat)
    requires IsRun(run, events) && i < |events| && n in run[i].nodes
    requires !Leads(run[i], n, t) && Leads(run[i + 1], n, t)
    ensures t !in run[i].hist.elected
  {
    RunSteps(run, events, i);
    NewLeadersTermIsFresh(run[i], run[i + 1], n, t);
  }

  lemma FirstBegins(run: seq<System>, events: seq<Event>, i: nat, n: Id, j: nat)
    requires IsRun(run, events) && 0 < j <= i < |run| && FirstLeadership(run, i, n)
    requires Begins(run, j, n, run[i].nodes[n].term) && n in run[j - 1].nodes
    ensures NeverElected(run[j - 1], n)
  {
    var c := run[j - 1];
    FreshTerm(run, events, j - 1, n, run[i].nodes[n].term);
    forall t | t in c.hist.elected ensures c.hist.elected[t] != n {
      if c.hist.elected[t] == n { var _ := RecordedTermWasLed(run, events, j - 1, n, t); }
    }
  }

  lemma FirstBeginsEmpty(run: seq<System>, events: seq<Event>, i: nat, n: Id, j: nat)
    requires IsRun(run, events) && j <= i < |run| && FirstLeadership(run, i, n)
    requires Begins(run, j, n, run[i].nodes[n].term)
    ensures NoMatches(run[j], n)
  {
    if j > 0 {
      RunInv(run, events, j - 1);
      RunProgress(run, events, j - 1);
      RunAdvances(run, events, j - 1, j);
      FirstBegins(run, events, i, n, j);
      NeverLedHasNoMatches(run[j - 1], n);
      assert Happens(run[j - 1], events[j - 1], run[j]);
      WinningKeepsMatches(run[j - 1], events[j - 1], run[j], n, run[i].nodes[n].term);
    }
  }

  /** In its first leadership a node is given answers of its term only, so the leadership is clean. */
  lemma FirstLeadershipIsClean(run: seq<System>, events: seq<Event>, i: nat, n: Id)
    requires IsRun(run, events) && i < |run| && FirstLeadership(run, i, n)
    ensures CleanLeadership(run, events, i, n)
    ensures forall m :: m in run[i].net && IsAnswer(m) && m.to == n ==> m.term == run[i].nodes[n].term
  {
    var t := run[i].nodes[n].term;
    forall j: nat | j <= i && Begins(run, j, n, t) ensures NoneReaches(run[j], n) {
      FirstBeginsEmpty(run, events, i, n, j);
    }
    forall j: nat | j < i && Leads(run[j], n, t) && Answers(run[j], events[j], n)
      ensures CleanFor(run[j].nodes[n], events[j].msg)
    {
      assert Happens(run[j], events[j], run[j + 1]);
      AnswerIsOfLedTerm(run, events, i, n, j, events[j].msg);
    }
    forall m | m in run[i].net && IsAnswer(m) && m.to == n ensures m.term == t {
      AnswerIsOfLedTerm(run, events, i, n, i, m);
    }
  }

  lemma AnswerIsOfLedTerm(run: seq<System>, events: seq<Event>, i: nat, n: Id, j: nat, m: Message)
    requires IsRun(run, events) && j <= i < |run| && FirstLeadership(run, i, n)
    requires m in run[j].net && IsAnswer(m) && m.to == n
    ensures m.term == run[i].nodes[n].term
  {
    assert m.term in run[j].hist.elected && run[j].hist.elected[m.term] == n by {
      RunInv(run, events, j);
      assert Addressed(run[j], m) && ResponseOk(run[j].hist, m);
    }
    var k := RecordedTermWasLed(run, events, j, n, m.term);
  }

  // ---------------------------------------------------------------- commitment

  lemma CommitStep(c: System, e: Event, d: System)
    requires Inv(c) && CommitInv(c) && Happens(c, e, d)
    requires AnswersLeader(c, e) ==> TellsAckers(c, e.msg)
    ensures CommitInv(d)
  {
    StepKeepsCommit(c, e);
  }

  lemma ToldIsAcker(c: System, e: Event, d: System, m: Message, p: Id)
    requires Inv(c) && Happens(c, e, d) && e == Deliver(m) && AnswersLeader(c, e) && CommitInv(d)
    requires Tells(c.nodes[m.to], m, p)
    ensures AckedThrough(c.hist, c.nodes[m.to].term, p, m.index)
  {
    var n := c.nodes[m.to];
    var x := CommitUpdate(n.id, p, n.term, m.index);
    assert m.from != m.to && n.id == m.to by { assert Addressed(c, m) && NodeShape(c, m.to); }
    AckOutcome(n, m, HandleAppendResponse(n, m));
    AnswerAcks(c, e, d, m);
    StepIsMove(c, e);
    assert x in d.hist.sent && MessageCommitOk(d, x) && SameAcks(c, d, m.to, p);
  }

  /** An answer keeps commitment sound exactly when whoever it makes the leader tell has acknowledged the index. */
  lemma AnswerCommitIff(c: System, e: Event, d: System, m: Message)
    requires Inv(c) && CommitInv(c) && Happens(c, e, d) && e == Deliver(m) && AnswersLeader(c, e)
    ensures CommitInv(d) <==> TellsAckers(c, m)
  {
    if TellsAckers(c, m) { CommitStep(c, e, d); }
    if CommitInv(d) {
      forall p | Tells(c.nodes[m.to], m, p) ensures AckedThrough(c.hist, c.nodes[m.to].term, p, m.index) {
        ToldIsAcker(c, e, d, m, p);
      }
    }
  }

  /** The `i`th event, if it hands a leader an answer, makes it tell only peers that have acknowledged the index. */
  ghost predicate Sound(run: seq<System>, events: seq<Event>, i: nat)
    requires i < |events| && |run| == |events| + 1
  {
    AnswersLeader(run[i], events[i]) ==> TellsAckers(run[i], events[i].msg)
  }

  lemma SoundIff(run: seq<System>, events: seq<Event>, i: nat)
    requires IsRun(run, events) && i < |events| && CommitInv(run[i])
    ensures CommitInv(run[i + 1]) <==> Sound(run, events, i)
  {
    RunInv(run, events, i);
    assert Happens(run[i], events[i], run[i + 1]);
    if AnswersLeader(run[i], events[i]) {
      AnswerCommitIff(run[i], events[i], run[i + 1], events[i].msg);
    } else {
      CommitStep(run[i], events[i], run[i + 1]);
    }
  }

  lemma {:induction false} SoundKeepsCommit(run: seq<System>, events: seq<Event>, i: nat)
    requires IsRun(run, events) && i < |run| && forall j: nat {:trigger Sound(run, events, j)} ::
                                                  j < i ==> Sound(run, events, j)
    ensures CommitInv(run[i])
  {
    if i == 0 {
      InitCommit(run[0]);
    } else {
      SoundKeepsCommit(run, events, i - 1);
      assert Sound(run, events, i - 1);
      SoundIff(run, events, i - 1);
    }
  }

  /** Commitment is sound through the `i`th state exactly when leaders have told only peers that had acknowledged. */
  lemma RunCommitIff(run: seq<System>, events: seq<Event>, i: nat)
    requires IsRun(run, events) && i < |run|
    ensures (forall j: nat :: j <= i ==> CommitInv(run[j])) <==>
            (forall j: nat {:trigger Sound(run, events, j)} :: j < i ==> Sound(run, events, j))
  {
    if forall j: nat {:trigger Sound(run, events, j)} :: j < i ==> Sound(run, events, j) {
      forall j: nat | j <= i ensures CommitInv(run[j]) {
        SoundKeepsCommit(run, events, j);
      }
    }
    if forall j: nat :: j <= i ==> CommitInv(run[j]) {
      forall j: nat | j < i ensures Sound(run, events, j) {
        SoundIff(run, events, j);
      }
    }
  }

  lemma RunCommit(run: seq<System>, events: seq<Event>, i: nat)
    requires IsRun(run, events) && i < |run| && TellsOnlyAnswered(run, events, i)
    ensures CommitInv(run[i])
  {
    forall j: nat | j < i ensures Sound(run, events, j) {
      assert TellsAnswered(run, events, j);
      if AnswersLeader(run[j], events[j]) { TellsAnsweredMeansAcked(run, events, j); }
    }
    SoundKeepsCommit(run, events, i);
  }

  /** At some point of the run so far, `p` was in the term and had the first `k` entries of `es`. */
  ghost predicate AgreedBefore(run: seq<System>, i: nat, p: Id, term: nat, k: nat, es: seq<Entry>)
    requires i < |run| && k <= |es|
  {
    exists j: nat :: j <= i && p in run[j].nodes && run[j].nodes[p].term == term &&
                     k <= |LogOf(run[j], p)| && LogOf(run[j], p)[..k] == es[..k]
  }

  /** Whoever acknowledged through an index in a term had the log of that term's leader through it. */
  lemma AckersAgreed(run: seq<System>, events: seq<Event>, i: nat, t: nat, k: nat)
    requires IsRun(run, events) && i < |run| && t in run[i].hist.logs && k <= |run[i].hist.logs[t]|
    ensures forall p :: p in Ackers(run[i], t, k) ==> AgreedBefore(run, i, p, t, k, run[i].hist.logs[t])
  {
    forall p | p in Ackers(run[i], t, k) ensures AgreedBefore(run, i, p, t, k, run[i].hist.logs[t]) {
      var j := RecordedAckWasMade(run, events, i, t, p);
      assert LogOf(run[j], p)[..k] == run[i].hist.logs[t][..k];
    }
  }

  lemma CommitStepIsAnswered(c: System, d: System, m: Message)
    requires Inv(c) && Happens(c, Deliver(m), d) && m.AppendResponse? && m.to in c.nodes && m.to in d.nodes
    requires c.nodes[m.to].role == Leader && d.nodes[m.to].log.committed != c.nodes[m.to].log.committed
    ensures IsAnswer(m) && c.nodes[m.to].WellFormed() && HandleAppendResponse(c.nodes[m.to], m).Stepped?
    ensures d.nodes[m.to] == HandleAppendResponse(c.nodes[m.to], m).node
  {
    StepNode(c, Deliver(m), d, m.to);
    assert NodeShape(c, m.to);
  }

  lemma QuorumAt(run: seq<System>, events: seq<Event>, i: nat, m: Message)
    requires IsRun(run, events) && i < |events| && events[i] == Deliver(m) && m.AppendResponse?
    requires m.to in run[i].nodes && m.to in run[i + 1].nodes && run[i].nodes[m.to].role == Leader
    requires TellsAnswered(run, events, i)
    requires run[i + 1].nodes[m.to].log.committed != run[i].nodes[m.to].log.committed
    ensures var l, k := run[i].nodes[m.to], run[i + 1].nodes[m.to].log.committed;
            && l.log.committed < k <= |l.log.entries| && l.log.entries[k - 1].term == l.term
            && Majority(Ackers(run[i], l.term, k), run[i].nodes.Keys) && m.to in Ackers(run[i], l.term, k)
            && l.term in run[i].hist.logs && run[i].hist.logs[l.term] == l.log.entries
  {
    var c := run[i];
    RunInv(run, events, i);
    CommitStepIsAnswered(c, run[i + 1], m);
    TellsAnsweredMeansAcked(run, events, i);
    CommitHasQuorum(c, m, HandleAppendResponse(c.nodes[m.to], m));
  }

  /**
   Quorum-backed commit: whenever an answer makes a leader advance its commit index, and those it then tells have
   answered it in its term, the entry there is of the leader's term and a majority of the peers, the leader among
   them, has had the leader's log through that index while in the term. How other leaders count does not matter.
   */
  lemma QuorumBackedCommit(run: seq<System>, events: seq<Event>, i: nat, m: Message) returns (quorum: set<Id>)
    requires IsRun(run, events) && i < |events| && events[i] == Deliver(m) && m.AppendResponse?
    requires m.to in run[i].nodes && m.to in run[i + 1].nodes && run[i].nodes[m.to].role == Leader
    requires TellsAnswered(run, events, i)
    requires run[i + 1].nodes[m.to].log.committed != run[i].nodes[m.to].log.committed
    ensures var l, k := run[i].nodes[m.to], run[i + 1].nodes[m.to].log.committed;
            && l.log.committed < k <= |l.log.entries|
            && l.log.entries[k - 1].term == l.term
            && Majority(quorum, run[i].nodes.Keys) && m.to in quorum
            && forall p :: p in quorum ==> AgreedBefore(run, i, p, l.term, k, l.log.entries)
  {
    QuorumAt(run, events, i, m);
    var t, k := run[i].nodes[m.to].term, run[i + 1].nodes[m.to].log.committed;
    quorum := Ackers(run[i], t, k);
    AckersAgreed(run, events, i, t, k);
  }

  /**
   Leader Completeness for what a majority acknowledged: once a majority has acknowledged an entry of a term in that
   term, every leader of that or a later term has the log through it. This needs no condition on repeated leaderships.
   */
  lemma AcknowledgedByMajorityStays(run: seq<System>, events: seq<Event>, i: nat, j: nat, t: nat, k: nat, l: Id,
                                    term: nat)
    requires IsRun(run, events) && i <= j < |run| && Durable(run[i], t, k) && Leads(run[j], l, term) && t <= term
    ensures k <= |run[i].hist.logs[t]| && k <= |LogOf(run[j], l)|
    ensures LogOf(run[j], l)[..k] == run[i].hist.logs[t][..k]
  {
    RunInv(run, events, j);
    RunAdvances(run, events, i, j);
    DurableAdvances(run[i], run[j], t, k);
    assert NodeLogOk(run[j], l) && LeaderOk(run[j], l) && LeaderLogOk(run[j].hist, term);
    LaterLeadersHave(run[j], t, k, term);
  }

  /** What is committed is in the log of a leader whose term is not before that of the commit. */
  lemma LeaderHasCommitted(d: System, es: seq<Entry>, k: nat, bound: nat, l: Id)
    requires Inv(d) && Committed(d, es, k, bound)
    requires l in d.nodes && d.nodes[l].role == Leader && d.nodes[l].term >= bound
    ensures k <= |es| && k <= |LogOf(d, l)| && LogOf(d, l)[..k] == es[..k]
  {
    assert NodeLogOk(d, l);
    if k > 0 {
      var t: nat, x: nat :| t <= bound && BackedBy(d, es, k, t, x);
      var logs, term := d.hist.logs, d.nodes[l].term;
      LaterLeadersHave(d, t, x, term);
      assert logs[term][..k] == logs[term][..x][..k] == logs[t][..x][..k] == logs[t][..k];
    }
  }

  /** Leader Completeness: what a node has committed is in the log of every leader of a later term. */
  lemma LeaderCompleteness(run: seq<System>, events: seq<Event>, i: nat, j: nat, n: Id, l: Id, k: nat, term: nat)
    requires IsRun(run, events) && i <= j < |run| && TellsOnlyAnswered(run, events, i) && n in run[i].nodes
    requires k <= run[i].nodes[n].log.committed && Leads(run[j], l, term) && term >= run[i].nodes[n].term
    ensures k <= |LogOf(run[i], n)| && k <= |LogOf(run[j], l)|
    ensures LogOf(run[j], l)[..k] == LogOf(run[i], n)[..k]
  {
    RunInv(run, events, j);
    RunCommit(run, events, i);
    RunAdvances(run, events, i, j);
    assert NodeCommitOk(run[i], n);
    var es, bound := LogOf(run[i], n), run[i].nodes[n].term;
    CommittedLess(run[i], es, run[i].nodes[n].log.committed, k, bound);
    CommittedAdvances(run[i], run[j], es, es, k, bound, bound);
    LeaderHasCommitted(run[j], es, k, bound, l);
  }

  /** State Machine Safety: whatever any two nodes have committed, at any two moments, agrees where both reach. */
  lemma StateMachineSafety(run: seq<System>, events: seq<Event>, i: nat, j: nat, a: Id, b: Id, k: nat)
    requires IsRun(run, events) && i <= j < |run| && TellsOnlyAnswered(run, events, j)
    requires a in run[i].nodes && b in run[j].nodes
    requires k <= run[i].nodes[a].log.committed && k <= run[j].nodes[b].log.committed
    ensures k <= |LogOf(run[i], a)| && k <= |LogOf(run[j], b)|
    ensures LogOf(run[i], a)[..k] == LogOf(run[j], b)[..k]
  {
    RunInv(run, events, j);
    RunCommit(run, events, i);
    RunCommit(run, events, j);
    RunAdvances(run, events, i, j);
    assert NodeCommitOk(run[i], a) && NodeCommitOk(run[j], b);
    var ea, ka, ta := LogOf(run[i], a), run[i].nodes[a].log.committed, run[i].nodes[a].term;
    CommittedAdvances(run[i], run[j], ea, ea, ka, ta, ta);
    CommittedAgree(run[j], ea, LogOf(run[j], b), ka, run[j].nodes[b].log.committed, k, ta, run[j].nodes[b].term);
  }

  lemma ReceiveCommitGrows(n: Node, m: Message)
    requires n.WellFormed() && n.log.snapIndex == 0 && n.log.committed <= |n.log.entries| && Receive(n, m).Stepped?
    ensures Receive(n, m).node.log.committed >= n.log.committed
  {
    if m.VoteResponse? && n.role == Candidate && m.term == n.term && !m.reject && n.voteReceived + 1 > |n.peers| / 2 {
      var n1 := n.(voteTotal := n.voteTotal + 1, voteReceived := n.voteReceived + 1, role := Leader, lead := n.id);
      WonNode(n, m, HandleVoteResponse(n, m));
      ProposeFacts(n1, [NOOP]);
    }
  }

  lemma LocalCommitGrows(n: Node, es: seq<Entry>)
    requires n.WellFormed() && n.log.snapIndex == 0 && n.log.committed <= |n.log.entries|
    ensures HandlePropose(n, es).node.log.committed >= n.log.committed
    ensures Campaign(n).node.log.committed >= n.log.committed
  {
    var s := Standing(n).(role := Leader, lead := n.id);
    ProposeCommit(s, [NOOP]);
    ProposeFacts(s, [NOOP]);
    ProposeCommit(n, es);
    ProposeFacts(n, es);
  }

  lemma ReactionCommitGrows(c: System, e: Event)
    requires AllWellFormed(c) && Enabled(c, e) && IsStep(e) && c.nodes[Actor(e)].log.snapIndex == 0
    requires c.nodes[Actor(e)].log.committed <= |c.nodes[Actor(e)].log.entries|
    ensures Reaction(c, e).node.log.committed >= c.nodes[Actor(e)].log.committed
  {
    var x := c.nodes[Actor(e)];
    assert NodeShape(c, Actor(e));
    match e {
      case Timeout(_) => LocalCommitGrows(x, []);
      case Proposal(_, es) => LocalCommitGrows(x, es);
      case Deliver(m) => ReceiveCommitGrows(x, m);
      case _ =>
    }
  }

  lemma StepCommitGrows(c: System, e: Event, d: System, n: Id)
    requires Inv(c) && CommitInv(c) && Happens(c, e, d) && n in c.nodes
    ensures n in d.nodes && d.nodes[n].log.committed >= c.nodes[n].log.committed
  {
    if IsStep(e) && Actor(e) == n {
      var x := c.nodes[n];
      assert Uncompacted(c, n) && NodeCommitOk(c, n);
      CommittedIsInside(c, x.log.entries, x.log.committed, x.term);
      ReactionCommitGrows(c, e);
    }
  }

  lemma CommitGrowsAt(run: seq<System>, events: seq<Event>, i: nat, n: Id)
    requires IsRun(run, events) && i < |events| && TellsOnlyAnswered(run, events, i) && n in run[i].nodes
    ensures n in run[i + 1].nodes && run[i].nodes[n].log.committed <= run[i + 1].nodes[n].log.committed
  {
    RunInv(run, events, i);
    RunCommit(run, events, i);
    assert Happens(run[i], events[i], run[i + 1]);
    StepCommitGrows(run[i], events[i], run[i + 1], n);
  }

  lemma {:induction false} CommitIndexGrows(run: seq<System>, events: seq<Event>, i: nat, j: nat, n: Id)
    requires IsRun(run, events) && i <= j < |run| && TellsOnlyAnswered(run, events, j) && n in run[i].nodes
    ensures n in run[j].nodes && run[i].nodes[n].log.committed <= run[j].nodes[n].log.committed
    decreases j
  {
    if i < j {
      CommitIndexGrows(run, events, i, j - 1, n);
      CommitGrowsAt(run, events, j - 1, n);
    }
  }

  /** A node's commit index never goes back, and no committed entry of a node is ever replaced. */
  lemma CommittedStays(run: seq<System>, events: seq<Event>, i: nat, j: nat, n: Id)
    requires IsRun(run, events) && i <= j < |run| && TellsOnlyAnswered(run, events, j) && n in run[i].nodes
    ensures n in run[j].nodes
    ensures var k := run[i].nodes[n].log.committed;
            && k <= run[j].nodes[n].log.committed
            && k <= |LogOf(run[i], n)| && k <= |LogOf(run[j], n)|
            && LogOf(run[j], n)[..k] == LogOf(run[i], n)[..k]
  {
    CommitIndexGrows(run, events, i, j, n);
    StateMachineSafety(run, events, i, j, n, n, run[i].nodes[n].log.committed);
  }

  /**
   A message in flight makes the node it reaches panic exactly when it is an answer to a leader that claims more than
   the leader's log and its record of the sender hold. No answer of the leader's own term does.
   */
  lemma RunPanicsIff(run: seq<System>, events: seq<Event>, i: nat, m: Message)
    requires IsRun(run, events) && i < |run| && TellsOnlyAnswered(run, events, i) && m in run[i].net
    ensures m.to in run[i].nodes && run[i].nodes[m.to].WellFormed()
    ensures Receive(run[i].nodes[m.to], m).Stepped? <==> !Overshoots(run[i], m)
    ensures Overshoots(run[i], m) ==> m.term != run[i].nodes[m.to].term
  {
    RunInv(run, events, i);
    RunCommit(run, events, i);
    PanicsIff(run[i], m);
    if IsAnswer(m) {
      assert Addressed(run[i], m) && ResponseOk(run[i].hist, m);
      assert AckOk(run[i], m.term, m.from) && NodeLogOk(run[i], m.to);
    }
  }
}
