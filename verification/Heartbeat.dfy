/** Why the cluster lets in only some heartbeats: one of the receiver's own term clears a vote given in it. */
module Heartbeat {
  import opened RaftTypes
  import opened RaftStep
  import opened Cluster
  import opened ClusterInv
  import opened ClusterTheorems
  import opened RepeatedLeadership

  ghost predicate Grants(o: Outcome, m: Message)
    requires m.RequestVote?
  {
    o.Stepped? && exists id, term :: o.out == [VoteResponse(id, m.from, term, false)]
  }

  /**
   A follower that has voted in its term refuses another candidate of that term. With a heartbeat between, it votes
   again exactly when the heartbeat is of that same term.
   */
  lemma SecondVoteIff(n: Node, m: Message, from: Id, term: nat)
    requires m.RequestVote? && n.role == Follower && n.vote != NOBODY && n.vote != m.from
    requires m.term == n.term && AtLeast(Recency(m.logTerm, m.index), Recency(n.log.LastTerm(), n.log.LastIndex()))
    ensures !Grants(HandleRequestVote(n, m), m)
    ensures Grants(HandleRequestVote(HandleHeartbeat(n, from, term), m), m) <==> term == n.term
  {
    var h := HandleHeartbeat(n, from, term);
    assert HandleRequestVote(n, m).out == [VoteResponse(n.id, m.from, n.term, true)];
    if term == n.term {
      assert HandleRequestVote(h, m).out == [VoteResponse(n.id, m.from, m.term, false)];
    } else {
      assert HandleRequestVote(h, m).out == [VoteResponse(n.id, m.from, h.term, true)];
    }
  }

  // ---------------------------------------------------------------- runs that let every heartbeat in

  /** An event of the cluster, or a heartbeat from whoever has led its term, however its receiver has voted. */
  ghost predicate HappensLoosely(c: System, e: Event, d: System) {
    || Happens(c, e, d)
    || (&& AllWellFormed(c) && e.Beat? && e.at in c.nodes && e.at != e.from
        && e.term in c.hist.elected && c.hist.elected[e.term] == e.from
        && d == Move(c, e.at, multiset{}, Stepped(HandleHeartbeat(c.nodes[e.at], e.from, e.term), [])))
  }

  ghost predicate IsLooseRun(run: seq<System>, events: seq<Event>) {
    && |run| == |events| + 1
    && Init(run[0])
    && forall i :: 0 <= i < |events| ==> HappensLoosely(run[i], events[i], run[i + 1])
  }

  ghost predicate EndsLoosely(run: seq<System>, events: seq<Event>, c: System) {
    IsLooseRun(run, events) && run[|events|] == c
  }

  /** Some such run of five nodes ends in the state. */
  ghost predicate Loose(c: System) {
    AllWellFormed(c) && |c.peers| == 5 && exists run, events :: EndsLoosely(run, events, c)
  }

  lemma LiveIsLoose(c: System)
    requires Live(c, true)
    ensures Loose(c)
  {
    ReachedInv(c, true);
    var run, events :| EndsIn(run, events, c, true);
    forall i | 0 <= i < |events| ensures HappensLoosely(run[i], events[i], run[i + 1]) {
      assert Happens(run[i], events[i], run[i + 1]);
    }
    assert EndsLoosely(run, events, c);
  }

  lemma Longer(c: System, e: Event, d: System)
    requires Loose(c) && HappensLoosely(c, e, d) && AllWellFormed(d) && d.peers == c.peers
    ensures Loose(d)
  {
    var run, events :| EndsLoosely(run, events, c);
    var run', events' := run + [d], events + [e];
    forall i | 0 <= i < |events'| ensures HappensLoosely(run'[i], events'[i], run'[i + 1]) {
      if i < |events| { assert HappensLoosely(run[i], events[i], run[i + 1]); }
    }
    assert EndsLoosely(run', events', d);
  }

  /** The node has kept what makes it a peer. */
  ghost predicate SamePeer(n: Node, n': Node) {
    n'.id == n.id && n'.peers == n.peers && n'.WellFormed()
  }

  lemma StaysWellFormed(c: System, d: System, at: Id, n: Node)
    requires AllWellFormed(c) && at in c.nodes && SamePeer(c.nodes[at], n)
    requires d.nodes == c.nodes[at := n] && d.peers == c.peers
    ensures AllWellFormed(d)
  {
    forall p ensures NodeShape(d, p) {
      assert NodeShape(c, p);
    }
  }

  /** The node hears a heartbeat of the leader of its own term, and has no vote any more. */
  lemma Beats(c: System, at: Id, from: Id, es: seq<Entry>) returns (d: System)
    requires Loose(c) && at != from && Is(c, at, Follower, 1, es)
    requires 1 in c.hist.elected && c.hist.elected[1] == from
    ensures Loose(d) && Only(c, d, {at}) && Is(d, at, Follower, 1, es) && d.nodes[at].vote == NOBODY
    ensures d.net == c.net && d.hist.elected == c.hist.elected
  {
    assert c.nodes[at].WellFormed() by { assert NodeShape(c, at); }
    var n := HandleHeartbeat(c.nodes[at], from, 1);
    d := Move(c, at, multiset{}, Stepped(n, []));
    StaysWellFormed(c, d, at, n);
    Longer(c, Beat(at, from, 1), d);
  }

  lemma Hands(c: System, m: Message, n: Node, out: seq<Message>) returns (d: System)
    requires Loose(c) && m in c.net && m.to in c.nodes && c.nodes[m.to].WellFormed()
    requires Receive(c.nodes[m.to], m) == Stepped(n, out) && SamePeer(c.nodes[m.to], n)
    ensures Loose(d) && Leaves(c, multiset{m}, m.to, n, out, d)
  {
    d := Move(c, m.to, multiset{m}, Stepped(n, out));
    StaysWellFormed(c, d, m.to, n);
    Longer(c, Deliver(m), d);
  }

  /** Without a vote, the node grants a request of its own term. */
  lemma VotesAgain(c: System, v: Id, a: Id) returns (d: System)
    requires Loose(c) && Is(c, v, Follower, 1, []) && c.nodes[v].vote == NOBODY
    requires RequestVote(a, v, 1, 0, 0) in c.net
    ensures Loose(d) && Only(c, d, {v}) && VoteResponse(v, a, 1, false) in d.net
    ensures forall x {:trigger d.net[x]} :: x in c.net && x != RequestVote(a, v, 1, 0, 0) ==> x in d.net
  {
    assert c.nodes[v].id == v && c.nodes[v].WellFormed() by { assert NodeShape(c, v); }
    var n, g := BecomeFollower(c.nodes[v], 1, NOBODY).(vote := a), VoteResponse(v, a, 1, false);
    d := Hands(c, RequestVote(a, v, 1, 0, 0), n, [g]);
    assert g in [g];
  }

  // ---------------------------------------------------------------- two leaders in one term

  /** Node 1 leads term 1 with the votes of 2 and 3; node 4 stands in it, too. */
  ghost predicate Contested(c: System) {
    && Loose(c) && Leads(c, 1, 1) && 1 in c.hist.elected && c.hist.elected[1] == 1
    && Is(c, 2, Follower, 1, []) && Is(c, 3, Follower, 1, []) && Is(c, 4, Candidate, 1, [])
    && c.nodes[4].voteReceived == 1 == c.nodes[4].voteTotal
    && RequestVote(4, 2, 1, 0, 0) in c.net && RequestVote(4, 3, 1, 0, 0) in c.net
  }

  lemma Contests() returns (d: System)
    ensures Contested(d)
  {
    var c := FirstElection();
    d := Stands(c, true, 4, Follower, 0, [], 2, 3);
    ReachedInv(d, true);
    LiveIsLoose(d);
    assert LeaderOk(d, 1);
  }

  /** A follower of term 1 that has no vote, and a request of node 4 to it. */
  ghost predicate Asked(c: System, v: Id) {
    Is(c, v, Follower, 1, []) && c.nodes[v].vote == NOBODY && RequestVote(4, v, 1, 0, 0) in c.net
  }

  /** Heartbeats of node 1 clear the votes of 2 and 3. */
  lemma VotesGo(c: System) returns (d: System)
    requires Contested(c)
    ensures Loose(d) && Only(c, d, {2, 3}) && Asked(d, 2) && Asked(d, 3)
  {
    var c1 := Beats(c, 2, 1, []);
    d := Beats(c1, 3, 1, []);
  }

  /** Both vote for node 4. */
  lemma VotesMove(c: System) returns (d: System)
    requires Loose(c) && Asked(c, 2) && Asked(c, 3)
    ensures Loose(d) && Only(c, d, {2, 3})
    ensures VoteResponse(2, 4, 1, false) in d.net && VoteResponse(3, 4, 1, false) in d.net
  {
    var c1 := VotesAgain(c, 2, 4);
    d := VotesAgain(c1, 3, 4);
  }

  lemma WinnerIsPeer(n: Node)
    requires n.WellFormed() && n.log == Log(n.log.entries)
    ensures SamePeer(n, Winner(n))
  {
  }

  lemma WinsToo(c: System) returns (d: System)
    requires Loose(c) && Is(c, 4, Candidate, 1, []) && c.nodes[4].voteReceived == 1 == c.nodes[4].voteTotal
    requires VoteResponse(2, 4, 1, false) in c.net && VoteResponse(3, 4, 1, false) in c.net
    ensures Loose(d) && Only(c, d, {4}) && Leads(d, 4, 1)
  {
    var n := c.nodes[4];
    assert n.id == 4 && n.peers == c.peers && n.WellFormed() by { assert NodeShape(c, 4); }
    TwoVotes(n, 2, 3);
    WinnerIsPeer(n);
    var c1 := Hands(c, VoteResponse(2, 4, 1, false), n.(voteReceived := 2, voteTotal := 2), []);
    d := Hands(c1, VoteResponse(3, 4, 1, false), Winner(n), Broadcast(Winner(n)));
  }

  /** If every heartbeat is let in, a run reaches two leaders in one term. */
  lemma HeartbeatsBreakElectionSafety() returns (run: seq<System>, events: seq<Event>)
    ensures IsLooseRun(run, events) && Leads(run[|events|], 1, 1) && Leads(run[|events|], 4, 1)
  {
    var c := Contests();
    var c1 := VotesGo(c);
    var c2 := VotesMove(c1);
    var d := WinsToo(c2);
    var r, es :| EndsLoosely(r, es, d);
    run, events := r, es;
  }
}
