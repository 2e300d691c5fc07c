/**
 A cluster of Raft nodes with a fixed set of peers and the messages in flight between them.
 The network may drop, delay and reorder every message, and may duplicate any message that is
 not part of an election. Beside the nodes the state carries a history of what has been seen:
 it is computed from each step and read by no handler.

 A heartbeat may arrive at any time from whoever has led its term, unless it is of the receiver's own
 term and the receiver has voted: module Heartbeat shows what goes wrong then.
 */
module Cluster {
  import opened Common
  import opened RaftTypes
  import opened RaftStep

  /** How recent a log is: the term of its last entry, then its length. */
  datatype Recency = Recency(term: nat, index: nat)

  ghost predicate AtLeast(a: Recency, b: Recency) {
    a.term > b.term || (a.term == b.term && a.index >= b.index)
  }

  function TermOf(es: seq<Entry>, i: nat): nat
    requires i <= |es|
  {
    if i == 0 then 0 else es[i - 1].term
  }

  function RecencyOf(es: seq<Entry>): Recency {
    Recency(TermOf(es, |es|), |es|)
  }

  datatype History = History(
    sent: set<Message>,                     // every message ever sent
    campaigns: map<(nat, Id), Recency>,     // (term, candidate): its log when it campaigned
    elected: map<nat, Id>,                  // term: its leader
    logs: map<nat, seq<Entry>>,             // term: the longest log of its leader
    acks: map<(nat, Id), nat>)              // (term, node): the last index it acknowledged in the term

  datatype System = System(peers: seq<Id>, nodes: map<Id, Node>, net: multiset<Message>, hist: History)

  datatype Event =
    | Timeout(at: Id)
    | Proposal(at: Id, entries: seq<Entry>)
    | Resend(at: Id, to: Id)
    | Beat(at: Id, from: Id, term: nat)
    | Deliver(msg: Message)
    | Drop(msg: Message)
    | Duplicate(msg: Message)

  // ---------------------------------------------------------------- the initial state

  function FreshNode(id: Id, peers: seq<Id>): Node {
    Node(id, peers, 0, NOBODY, 0, 0, Follower, NOBODY,
         map p | p in peers :: Progress(0, 1), RaftLog(0, 0, [], 0, 0, 0), 0)
  }

  ghost predicate Init(c: System) {
    && Distinct(c.peers)
    && NOBODY !in c.peers
    && c.nodes == (map p | p in c.peers :: FreshNode(p, c.peers))
    && c.net == multiset{}
    && c.hist == History({}, map[], map[], map[], map[])
  }

  // ---------------------------------------------------------------- one step

  /** What a step of node `n` adds to the history. */
  function Observe(h: History, before: Node, after: Node, out: seq<Message>): History {
    var campaigned := before.term < after.term && after.role != Follower;
    var acked := |out| == 1 && out[0].AppendResponse? && !out[0].reject;
    History(
      h.sent + Elements(out),
      if campaigned then h.campaigns[(after.term, after.id) := RecencyOf(before.log.entries)] else h.campaigns,
      if after.role == Leader then h.elected[after.term := after.id] else h.elected,
      if after.role == Leader then h.logs[after.term := after.log.entries] else h.logs,
      if after.role == Leader then h.acks[(after.term, after.id) := |after.log.entries|]
      else if acked then h.acks[(out[0].term, after.id) := out[0].index]
      else h.acks)
  }

  /** Node `at` moves to the outcome's state, having consumed `used` from the network. */
  function Move(c: System, at: Id, used: multiset<Message>, o: Outcome): System
    requires at in c.nodes && o.Stepped?
  {
    c.(nodes := c.nodes[at := o.node],
       net := (c.net - used) + multiset(o.out),
       hist := Observe(c.hist, c.nodes[at], o.node, o.out))
  }

  predicate IsElectionMessage(m: Message) {
    m.RequestVote? || m.VoteResponse?
  }

  ghost predicate NodeShape(c: System, n: Id) {
    n in c.nodes ==> c.nodes[n].id == n && c.nodes[n].peers == c.peers && c.nodes[n].WellFormed()
  }

  ghost predicate AllWellFormed(c: System) {
    && Distinct(c.peers)
    && NOBODY !in c.nodes
    && c.nodes.Keys == Elements(c.peers)
    && forall n {:trigger NodeShape(c, n)} :: NodeShape(c, n)
  }

  /** The event is a step of a node, not one of the network alone. */
  predicate IsStep(e: Event) {
    !e.Drop? && !e.Duplicate?
  }

  /** The node that takes the step, and what it does. */
  function Reaction(c: System, e: Event): Outcome
    requires AllWellFormed(c)
    requires IsStep(e)
    requires Actor(e) in c.nodes && (e.Resend? ==> e.to in c.nodes)
  {
    var n := c.nodes[Actor(e)];
    assert NodeShape(c, Actor(e));
    match e
    case Timeout(_) => Campaign(n)
    case Proposal(_, es) => HandlePropose(n, es)
    case Resend(_, to) => Stepped(n, SendAppend(n, to))
    case Beat(_, from, term) => Stepped(HandleHeartbeat(n, from, term), [])
    case Deliver(m) => Receive(n, m)
  }

  function Actor(e: Event): Id
    requires IsStep(e)
  {
    if e.Deliver? then e.msg.to else e.at
  }

  /** The event can happen and no node panics on it. */
  ghost predicate Enabled(c: System, e: Event)
    requires AllWellFormed(c)
  {
    match e
    case Timeout(at) => at in c.nodes && c.nodes[at].role != Leader
    case Proposal(at, _) => at in c.nodes && c.nodes[at].role == Leader
    case Resend(at, to) => at in c.nodes && to in c.nodes && at != to && c.nodes[at].role == Leader
    case Beat(at, from, term) =>
      && at in c.nodes && at != from && term in c.hist.elected && c.hist.elected[term] == from
      && (term == c.nodes[at].term ==> c.nodes[at].vote == NOBODY)
    case Deliver(m) => m in c.net && m.to in c.nodes && Reaction(c, e).Stepped?
    case Drop(m) => m in c.net
    case Duplicate(m) => m in c.net && !IsElectionMessage(m)
  }

  function Apply(c: System, e: Event): System
    requires AllWellFormed(c) && Enabled(c, e)
  {
    match e
    case Drop(m) => c.(net := c.net - multiset{m})
    case Duplicate(m) => c.(net := c.net + multiset{m})
    case Deliver(m) => Move(c, m.to, multiset{m}, Reaction(c, e))
    case _ => Move(c, Actor(e), multiset{}, Reaction(c, e))
  }

  /** What a step takes out of the network. */
  function Used(e: Event): multiset<Message> {
    if e.Deliver? then multiset{e.msg} else multiset{}
  }

  lemma StepIsMove(c: System, e: Event)
    requires AllWellFormed(c) && Enabled(c, e) && IsStep(e)
    ensures Actor(e) in c.nodes && Reaction(c, e).Stepped?
    ensures Apply(c, e) == Move(c, Actor(e), Used(e), Reaction(c, e))
  {
  }
}
