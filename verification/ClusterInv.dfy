/**
 What every reachable state of the cluster satisfies. Each conjunct is a predicate about one node,
 message or term; the quantifiers are instantiated through these predicates only.
 */
module ClusterInv {
  import opened Common
  import opened RaftTypes
  import opened Cluster

  // ---------------------------------------------------------------- well-formedness

  /** No log has been compacted: snapshots are outside the cluster model. */
  ghost predicate Uncompacted(c: System, n: Id) {
    n in c.nodes ==> c.nodes[n].log.snapIndex == 0 && c.nodes[n].log.snapTerm == 0
  }

  ghost predicate Addressed(c: System, m: Message) {
    && (m in c.net ==> m in c.hist.sent)
    && (m in c.hist.sent ==> m.from in c.nodes && m.to in c.nodes && m.from != m.to)
  }

  ghost predicate Mail(c: System) {
    forall m {:trigger Addressed(c, m)} :: Addressed(c, m)
  }

  ghost predicate Basic(c: System) {
    && AllWellFormed(c)
    && (forall n {:trigger Uncompacted(c, n)} :: Uncompacted(c, n))
    && Mail(c)
  }

  // ---------------------------------------------------------------- elections

  ghost predicate Granted(h: History, voter: Id, candidate: Id, term: nat) {
    VoteResponse(voter, candidate, term, false) in h.sent
  }

  /** The peers that voted for the candidate in the term, the candidate included. */
  ghost function Voters(c: System, term: nat, candidate: Id): set<Id> {
    set v | v in c.nodes.Keys && (v == candidate || Granted(c.hist, v, candidate, term))
  }

  /** Votes for candidate `n` in a term that have left the network. */
  ghost function Counted(c: System, n: Id, term: nat): set<Id> {
    set v | v in c.nodes.Keys && Granted(c.hist, v, n, term) && VoteResponse(v, n, term, false) !in c.net
  }

  /** A vote request carries the log its sender campaigned with, and is answered at most once. */
  ghost predicate RequestOk(c: System, m: Message) {
    m.RequestVote? ==>
      && (m in c.hist.sent ==>
            (m.term, m.from) in c.hist.campaigns && c.hist.campaigns[(m.term, m.from)] == Recency(m.logTerm, m.index))
      && (m in c.net ==> c.net[m] == 1 && !Granted(c.hist, m.to, m.from, m.term))
  }

  /** A vote is for a real campaign, and binds the voter for as long as it stays in the term. */
  ghost predicate GrantOk(c: System, v: Id, a: Id, t: nat) {
    Granted(c.hist, v, a, t) ==>
      && v in c.nodes
      && a != NOBODY
      && c.net[VoteResponse(v, a, t, false)] <= 1
      && (t, a) in c.hist.campaigns
      && t <= c.nodes[v].term
      && (t == c.nodes[v].term ==> c.nodes[v].role == Follower && c.nodes[v].vote == a)
  }

  ghost predicate OneVote(c: System, v: Id, a: Id, b: Id, t: nat) {
    Granted(c.hist, v, a, t) && Granted(c.hist, v, b, t) ==> a == b
  }

  ghost predicate CampaignOk(c: System, t: nat, a: Id) {
    (t, a) in c.hist.campaigns ==> a in c.nodes && 1 <= t <= c.nodes[a].term
  }

  /** A candidate still has the log it campaigned with, and has counted only votes that reached it. */
  ghost predicate CandidateOk(c: System, n: Id) {
    n in c.nodes && c.nodes[n].role == Candidate ==>
      && (c.nodes[n].term, n) in c.hist.campaigns
      && c.hist.campaigns[(c.nodes[n].term, n)] == RecencyOf(c.nodes[n].log.entries)
      && c.nodes[n].voteReceived <= 1 + |Counted(c, n, c.nodes[n].term)|
  }

  /** A recorded leader won a majority, and leads until it leaves the term. */
  ghost predicate ElectedOk(c: System, t: nat) {
    t in c.hist.elected ==>
      var l := c.hist.elected[t];
      && l in c.nodes
      && (t, l) in c.hist.campaigns
      && Majority(Voters(c, t, l), c.nodes.Keys)
      && (t == c.nodes[l].term ==> c.nodes[l].role == Leader)
  }

  /** A recorded leader voted for nobody else in its term. */
  ghost predicate LeaderVotedSelf(c: System, t: nat, a: Id) {
    t in c.hist.elected ==> !Granted(c.hist, c.hist.elected[t], a, t)
  }

  ghost predicate LeaderOk(c: System, n: Id) {
    n in c.nodes && c.nodes[n].role == Leader ==>
      c.nodes[n].term in c.hist.elected && c.hist.elected[c.nodes[n].term] == n
  }

  ghost predicate VoteInv(c: System) {
    && (forall m {:trigger RequestOk(c, m)} :: RequestOk(c, m))
    && (forall v, a, t {:trigger GrantOk(c, v, a, t)} :: GrantOk(c, v, a, t))
    && (forall v, a, b, t {:trigger OneVote(c, v, a, b, t)} :: OneVote(c, v, a, b, t))
    && (forall t, a {:trigger CampaignOk(c, t, a)} :: CampaignOk(c, t, a))
    && (forall n {:trigger CandidateOk(c, n)} :: CandidateOk(c, n))
    && (forall t {:trigger ElectedOk(c, t)} :: ElectedOk(c, t))
    && (forall t, a {:trigger LeaderVotedSelf(c, t, a)} :: LeaderVotedSelf(c, t, a))
    && (forall n {:trigger LeaderOk(c, n)} :: LeaderOk(c, n))
  }

  // ---------------------------------------------------------------- logs

  ghost predicate TermsUpTo(es: seq<Entry>, term: nat) {
    && (forall i :: 0 <= i < |es| ==> 1 <= es[i].term <= term)
    && (forall i, j :: 0 <= i <= j < |es| ==> es[i].term <= es[j].term)
  }

  /** Up to position `k`, the log is the log of the leader of the entry found there. */
  ghost predicate CoherentAt(es: seq<Entry>, k: nat, logs: map<nat, seq<Entry>>) {
    k < |es| ==>
      && es[k].term in logs
      && k < |logs[es[k].term]|
      && es[..k + 1] == logs[es[k].term][..k + 1]
  }

  ghost predicate Coherent(es: seq<Entry>, logs: map<nat, seq<Entry>>) {
    forall k {:trigger CoherentAt(es, k, logs)} :: CoherentAt(es, k, logs)
  }

  /** The log recorded for a term ends with an entry of the term and is coherent like any other. */
  ghost predicate LeaderLogOk(h: History, t: nat) {
    && (t in h.logs <==> t in h.elected)
    && (t in h.logs ==>
          var es := h.logs[t];
          && |es| >= 1
          && es[|es| - 1].term == t
          && NumberedFrom(es, 1)
          && TermsUpTo(es, t)
          && Coherent(es, h.logs))
  }

  ghost predicate NodeLogOk(c: System, n: Id) {
    n in c.nodes ==>
      && TermsUpTo(c.nodes[n].log.entries, c.nodes[n].term)
      && Coherent(c.nodes[n].log.entries, c.hist.logs)
      && (c.nodes[n].role == Leader ==>
            c.nodes[n].term in c.hist.logs && c.hist.logs[c.nodes[n].term] == c.nodes[n].log.entries)
  }

  /** An append ships a piece of its leader's log that ends with an entry of the leader's term. */
  ghost predicate ShipmentOk(h: History, m: Message) {
    m in h.sent && m.Append? ==>
      && m.term in h.logs
      && m.term in h.elected
      && h.elected[m.term] == m.from
      && |m.entries| >= 1
      && m.index + |m.entries| <= |h.logs[m.term]|
      && m.entries == h.logs[m.term][m.index..m.index + |m.entries|]
      && m.logTerm == TermOf(h.logs[m.term], m.index)
      && m.entries[|m.entries| - 1].term == m.term
  }

  ghost predicate LogInv(c: System) {
    && (forall t {:trigger LeaderLogOk(c.hist, t)} :: LeaderLogOk(c.hist, t))
    && (forall n {:trigger NodeLogOk(c, n)} :: NodeLogOk(c, n))
    && (forall m {:trigger ShipmentOk(c.hist, m)} :: ShipmentOk(c.hist, m))
  }

  // ---------------------------------------------------------------- acknowledgements

  /** An acknowledged index is in the leader's log, and the node's log has only become more recent since. */
  ghost predicate AckOk(c: System, t: nat, n: Id) {
    (t, n) in c.hist.acks ==>
      var k := c.hist.acks[(t, n)];
      && n in c.nodes
      && t in c.hist.logs
      && 1 <= k <= |c.hist.logs[t]|
      && c.hist.logs[t][k - 1].term == t
      && t <= c.nodes[n].term
      && AtLeast(RecencyOf(c.nodes[n].log.entries), Recency(t, k))
  }

  ghost predicate ResponseOk(h: History, m: Message) {
    m in h.sent && m.AppendResponse? && !m.reject ==>
      && (m.term, m.from) in h.acks
      && 1 <= m.index <= h.acks[(m.term, m.from)]
      && m.term in h.elected
      && h.elected[m.term] == m.to
  }

  /** Whoever acknowledged entries in an earlier term votes only for logs at least that recent. */
  ghost predicate VoteRespectsAck(h: History, t: nat, v: Id, t': nat, a: Id) {
    (t, v) in h.acks && (t', a) in h.campaigns && t < t' && (v == a || Granted(h, v, a, t'))
    ==> AtLeast(h.campaigns[(t', a)], Recency(t, h.acks[(t, v)]))
  }

  /** A leader's log is what it campaigned with, followed by entries of its own term; it acknowledges all of it. */
  ghost predicate ExtendsCampaign(h: History, t: nat) {
    t in h.elected && t in h.logs && (t, h.elected[t]) in h.campaigns ==>
      var r := h.campaigns[(t, h.elected[t])];
      && r.index < |h.logs[t]|
      && r.term == TermOf(h.logs[t], r.index)
      && r.term < t
      && (t, h.elected[t]) in h.acks
      && h.acks[(t, h.elected[t])] == |h.logs[t]|
  }

  ghost predicate AckInv(c: System) {
    && (forall t, n {:trigger AckOk(c, t, n)} :: AckOk(c, t, n))
    && (forall m {:trigger ResponseOk(c.hist, m)} :: ResponseOk(c.hist, m))
    && (forall t, v, t', a {:trigger VoteRespectsAck(c.hist, t, v, t', a)} :: VoteRespectsAck(c.hist, t, v, t', a))
    && (forall t {:trigger ExtendsCampaign(c.hist, t)} :: ExtendsCampaign(c.hist, t))
  }

  ghost predicate Inv(c: System) {
    Basic(c) && VoteInv(c) && LogInv(c) && AckInv(c)
  }

  // ---------------------------------------------------------------- what never goes back

  ghost predicate Grows(logs: map<nat, seq<Entry>>, logs': map<nat, seq<Entry>>) {
    forall t :: t in logs ==> t in logs' && logs[t] <= logs'[t]
  }

  ghost predicate Evolves(h: History, h': History) {
    && h.sent <= h'.sent
    && Grows(h.logs, h'.logs)
    && (forall t :: t in h.elected ==> t in h'.elected && h'.elected[t] == h.elected[t])
    && (forall k :: k in h.acks ==> k in h'.acks && h'.acks[k] >= h.acks[k])
  }

  ghost predicate NodeAges(c: System, d: System, n: Id) {
    n in c.nodes ==>
      && n in d.nodes
      && d.nodes[n].term >= c.nodes[n].term
      && AtLeast(RecencyOf(d.nodes[n].log.entries), RecencyOf(c.nodes[n].log.entries))
  }

  /** Terms grow, logs become more recent, leaders' logs are only extended and nothing is forgotten. */
  ghost predicate Advances(c: System, d: System) {
    && d.nodes.Keys == c.nodes.Keys
    && Evolves(c.hist, d.hist)
    && forall n {:trigger NodeAges(c, d, n)} :: NodeAges(c, d, n)
  }

  lemma AdvancesTransitive(c: System, d: System, e: System)
    requires Advances(c, d) && Advances(d, e)
    ensures Advances(c, e)
  {
    forall n ensures NodeAges(c, e, n) {
      assert NodeAges(c, d, n) && NodeAges(d, e, n);
    }
  }
}
