/**
 Why the theorems on commitment ask in which term the peers that a leader tells have answered it. A run of five nodes
 is built event by event in which a second leadership counts an answer of the first one. It commits an entry that only
 two nodes hold, and another leader then commits another entry at the same index.
 */
module RepeatedLeadership {
  import opened Common
  import opened RaftTypes
  import opened RaftStep
  import opened RaftMeaning
  import opened Cluster
  import opened ClusterInv
  import opened ClusterCommit
  import opened ClusterSafety
  import opened ClusterSteps
  import opened ClusterTheorems

  // ---------------------------------------------------------------- building a run

  ghost predicate Uncommitted(c: System) {
    forall n :: n in c.nodes ==> c.nodes[n].log.committed == 0
  }

  ghost predicate NothingCommitted(run: seq<System>) {
    forall i {:trigger Uncommitted(run[i])} :: 0 <= i < |run| ==> Uncommitted(run[i])
  }

  /** An answer of node 2 in term 3. */
  predicate Telling(e: Event) {
    e.Deliver? && e.msg.AppendResponse? && e.msg.from == 2 && e.msg.term == 3
  }

  ghost predicate NothingTold(events: seq<Event>) {
    forall i {:trigger Telling(events[i])} :: 0 <= i < |events| ==> !Telling(events[i])
  }

  ghost predicate EndsIn(run: seq<System>, events: seq<Event>, c: System, quiet: bool) {
    IsRun(run, events) && run[|events|] == c && (quiet ==> NothingCommitted(run) && NothingTold(events))
  }

  /**
   Some run ends in the state; a quiet one, if asked for, in which no node has committed anything and nobody has been
   given an answer of node 2 in term 3.
   */
  ghost predicate Reached(c: System, quiet: bool) {
    exists run, events :: EndsIn(run, events, c, quiet)
  }

  ghost predicate Live(c: System, quiet: bool) {
    |c.peers| == 5 && c.nodes.Keys == {1, 2, 3, 4, 5} && Reached(c, quiet)
  }

  /** A step of a node, which leaves it as `n` and sends `out`. */
  ghost predicate StepsTo(c: System, e: Event, n: Node, out: seq<Message>, d: System) {
    && IsStep(e)
    && d.nodes == c.nodes[Actor(e) := n]
    && d.net == c.net - Used(e) + multiset(out)
  }

  lemma Longer(run: seq<System>, events: seq<Event>, quiet: bool, e: Event, d: System)
    returns (run': seq<System>, events': seq<Event>)
    requires IsRun(run, events) && Happens(run[|events|], e, d)
    requires quiet ==> NothingCommitted(run) && Uncommitted(d) && NothingTold(events) && !Telling(e)
    ensures EndsIn(run', events', d, quiet) && run' == run + [d] && events' == events + [e]
  {
    run', events' := run + [d], events + [e];
    forall i | 0 <= i < |events'| ensures Happens(run'[i], events'[i], run'[i + 1]) {
      if i < |events| { assert Happens(run[i], events[i], run[i + 1]); }
    }
    if quiet {
      forall i | 0 <= i < |run'| ensures Uncommitted(run'[i]) {
        if i < |run| { assert Uncommitted(run[i]); }
      }
      forall i | 0 <= i < |events'| ensures !Telling(events'[i]) {
        if i < |events| { assert !Telling(events[i]); }
      }
    }
  }

  lemma QuietNow(c: System)
    requires Reached(c, true)
    ensures Uncommitted(c)
  {
    var run, events :| EndsIn(run, events, c, true);
    assert Uncommitted(run[|events|]);
  }

  lemma ReachedInv(c: System, quiet: bool)
    requires Reached(c, quiet)
    ensures Inv(c)
  {
    var run, events :| EndsIn(run, events, c, quiet);
    RunInv(run, events, |events|);
  }

  lemma StepShape(c: System, quiet: bool, e: Event, n: Node, out: seq<Message>, d: System)
    requires Live(c, quiet) && AllWellFormed(c) && Enabled(c, e) && IsStep(e) && Reaction(c, e) == Stepped(n, out)
    requires d == Apply(c, e)
    ensures StepsTo(c, e, n, out, d) && d.nodes.Keys == c.nodes.Keys && d.peers == c.peers
  {
    StepIsMove(c, e);
    ReachedInv(c, quiet);
    StepKeepsInv(c, e);
  }

  lemma QuietThen(c: System, at: Id, n: Node, d: System)
    requires Reached(c, true) && n.log.committed == 0 && d.nodes == c.nodes[at := n]
    ensures Uncommitted(d)
  {
    QuietNow(c);
  }

  /** The run behind a state, made longer by one step. */
  lemma Last(c: System, quiet: bool, e: Event, n: Node, out: seq<Message>)
    returns (run: seq<System>, events: seq<Event>)
    requires Live(c, quiet) && AllWellFormed(c) && Enabled(c, e) && IsStep(e) && Reaction(c, e) == Stepped(n, out)
    requires quiet ==> n.log.committed == 0 && !Telling(e)
    ensures |events| > 0 && |run| == |events| + 1 && EndsIn(run, events, run[|events|], quiet)
    ensures run[|events| - 1] == c && events[|events| - 1] == e && StepsTo(c, e, n, out, run[|events|])
    ensures run[|events|].nodes.Keys == c.nodes.Keys && run[|events|].peers == c.peers
  {
    var d := Apply(c, e);
    StepShape(c, quiet, e, n, out, d);
    if quiet { QuietThen(c, Actor(e), n, d); }
    var r, es :| EndsIn(r, es, c, quiet);
    run, events := Longer(r, es, quiet, e, d);
  }

  lemma Go(c: System, quiet: bool, e: Event, n: Node, out: seq<Message>) returns (d: System)
    requires Live(c, quiet) && AllWellFormed(c) && Enabled(c, e) && IsStep(e) && Reaction(c, e) == Stepped(n, out)
    requires quiet ==> n.log.committed == 0 && !Telling(e)
    ensures Live(d, quiet) && StepsTo(c, e, n, out, d)
  {
    var run, events := Last(c, quiet, e, n, out);
    d := run[|events|];
  }

  lemma Shape(c: System, quiet: bool, p: Id)
    requires Live(c, quiet) && p in c.nodes
    ensures var n := c.nodes[p];
            && n.id == p && |n.peers| == 5 && Distinct(n.peers) && n.WellFormed()
            && Elements(n.peers) == c.nodes.Keys == n.prs.Keys
  {
    ReachedInv(c, quiet);
    assert NodeShape(c, p);
  }

  /** All nodes but these are as they were. */
  ghost predicate Only(c: System, d: System, changed: set<Id>) {
    && d.nodes.Keys == c.nodes.Keys
    && (forall p :: p in c.nodes && p !in changed ==> d.nodes[p] == c.nodes[p])
  }

  /** The node is left as `n`, what it sent is under way, and so is everything else but `used`. */
  ghost predicate Leaves(c: System, used: multiset<Message>, at: Id, n: Node, out: seq<Message>, d: System) {
    && Only(c, d, {at}) && at in d.nodes && d.nodes[at] == n
    && (forall x :: x in out ==> x in d.net)
    && (forall x {:trigger d.net[x]} :: x in c.net && x !in used ==> x in d.net)
  }

  lemma StepLeaves(c: System, e: Event, n: Node, out: seq<Message>, d: System)
    requires StepsTo(c, e, n, out, d) && Actor(e) in c.nodes
    ensures Leaves(c, Used(e), Actor(e), n, out, d)
  {
  }

  lemma Told(c: System, quiet: bool, m: Message, n: Node, out: seq<Message>) returns (d: System)
    requires Live(c, quiet) && m in c.net && m.to in c.nodes && c.nodes[m.to].WellFormed()
    requires Receive(c.nodes[m.to], m) == Stepped(n, out)
    requires quiet ==> n.log.committed == 0 && !Telling(Deliver(m))
    ensures Live(d, quiet) && Leaves(c, multiset{m}, m.to, n, out, d)
  {
    ReachedInv(c, quiet);
    d := Go(c, quiet, Deliver(m), n, out);
    StepLeaves(c, Deliver(m), n, out, d);
  }

  lemma TimesOut(c: System, quiet: bool, at: Id, n: Node, out: seq<Message>) returns (d: System)
    requires Live(c, quiet) && at in c.nodes && c.nodes[at].role != Leader
    requires Campaign(c.nodes[at]) == Stepped(n, out) && (quiet ==> n.log.committed == 0)
    ensures Live(d, quiet) && Leaves(c, multiset{}, at, n, out, d)
  {
    ReachedInv(c, quiet);
    d := Go(c, quiet, Timeout(at), n, out);
    StepLeaves(c, Timeout(at), n, out, d);
  }

  lemma Proposes(c: System, quiet: bool, at: Id, n: Node, out: seq<Message>) returns (d: System)
    requires Live(c, quiet) && at in c.nodes && c.nodes[at].role == Leader && c.nodes[at].WellFormed()
    requires HandlePropose(c.nodes[at], [NOOP]) == Stepped(n, out) && (quiet ==> n.log.committed == 0)
    ensures Live(d, quiet) && Leaves(c, multiset{}, at, n, out, d)
  {
    ReachedInv(c, quiet);
    d := Go(c, quiet, Proposal(at, [NOOP]), n, out);
    StepLeaves(c, Proposal(at, [NOOP]), n, out, d);
  }

  // ---------------------------------------------------------------- what is known of a state

  function Log(entries: seq<Entry>): RaftLog {
    RaftLog(0, 0, entries, 0, 0, 0)
  }

  ghost predicate Is(c: System, p: Id, role: Role, term: nat, es: seq<Entry>) {
    p in c.nodes && c.nodes[p].role == role && c.nodes[p].term == term && c.nodes[p].log == Log(es)
  }

  /** The peers from which the node counts an acknowledgement of index 2; it knows nothing of the others. */
  ghost predicate Knows(n: Node, who: set<Id>) {
    forall p :: p in n.prs && p != n.id ==> n.prs[p] == if p in who then Progress(2, 3) else Progress(0, 1)
  }

  ghost predicate Hears(c: System, p: Id, who: set<Id>) {
    p in c.nodes && Knows(c.nodes[p], who)
  }

  /** Everything but `used` and the messages of elections is still under way. */
  ghost predicate Keeps(c: System, d: System, used: multiset<Message>) {
    forall x {:trigger d.net[x]} :: x in c.net && x !in used && !IsElectionMessage(x) ==> x in d.net
  }

  // ---------------------------------------------------------------- an election

  lemma {:induction false} AsksAll(n: Node, to: seq<Id>, p: Id)
    requires p in to && p != n.id
    ensures RequestVote(n.id, p, n.term, n.log.LastTerm(), n.log.LastIndex()) in RequestVotesTo(n, to)
  {
    assert to == to[..|to| - 1] + [to[|to| - 1]];
    if p != to[|to| - 1] { AsksAll(n, to[..|to| - 1], p); }
  }

  lemma {:induction false} ShipsAll(n: Node, to: seq<Id>, p: Id)
    requires p in to && p != n.id && (forall q :: q in to ==> q in n.prs)
    requires n.log == Log(n.log.entries) && n.prs[p].next == 1 && n.log.entries != []
    ensures Append(n.id, p, n.term, 0, 0, 0, n.log.entries) in BroadcastTo(n, to)
  {
    assert to == to[..|to| - 1] + [to[|to| - 1]];
    if p == to[|to| - 1] {
      assert n.log.entries[0..] == n.log.entries;
    } else {
      ShipsAll(n, to[..|to| - 1], p);
    }
  }

  function Extended(es: seq<Entry>, term: nat): seq<Entry> {
    es + [Entry(0, term, |es| + 1, [])]
  }

  lemma Stands(c: System, quiet: bool, n: Id, role: Role, term: nat, es: seq<Entry>, a: Id, b: Id) returns (d: System)
    requires Live(c, quiet) && Is(c, n, role, term, es) && role != Leader
    requires n != a && n != b && a in c.nodes && b in c.nodes
    ensures Live(d, quiet) && Only(c, d, {n}) && Is(d, n, Candidate, term + 1, es)
    ensures d.nodes[n].prs == c.nodes[n].prs && d.nodes[n].id == n
    ensures d.nodes[n].voteReceived == 1 == d.nodes[n].voteTotal
    ensures RequestVote(n, a, term + 1, Log(es).LastTerm(), Log(es).LastIndex()) in d.net
    ensures RequestVote(n, b, term + 1, Log(es).LastTerm(), Log(es).LastIndex()) in d.net
    ensures Keeps(c, d, multiset{})
  {
    Shape(c, quiet, n);
    var n1 := BecomeCandidate(c.nodes[n]);
    assert a in n1.peers && b in n1.peers;
    AsksAll(n1, n1.peers, a);
    AsksAll(n1, n1.peers, b);
    d := TimesOut(c, quiet, n, n1, RequestVotesTo(n1, n1.peers));
  }

  lemma LogRecency(es: seq<Entry>)
    ensures Recency(Log(es).LastTerm(), Log(es).LastIndex()) == RecencyOf(es)
  {
  }

  /** A request from a log that is not behind, in a later term, is granted. */
  lemma Votes(c: System, quiet: bool, v: Id, role: Role, vt: nat, es: seq<Entry>, m: Message) returns (d: System)
    requires Live(c, quiet) && Is(c, v, role, vt, es) && m in c.net && m.RequestVote? && m.to == v
    requires vt < m.term && AtLeast(Recency(m.logTerm, m.index), RecencyOf(es))
    ensures Live(d, quiet) && Only(c, d, {v}) && Is(d, v, Follower, m.term, es)
    ensures d.nodes[v].id == c.nodes[v].id && d.nodes[v].prs == c.nodes[v].prs
    ensures VoteResponse(v, m.from, m.term, false) in d.net
    ensures forall x {:trigger d.net[x]} :: x in c.net && x != m ==> x in d.net
  {
    Shape(c, quiet, v);
    LogRecency(es);
    VoteRequestMeans(c.nodes[v], m);
    var n, g := BecomeFollower(c.nodes[v], m.term, NOBODY).(vote := m.from), VoteResponse(v, m.from, m.term, false);
    d := Told(c, quiet, m, n, [g]);
    assert g in [g];
  }

  function Winner(n: Node): Node {
    var es := Extended(n.log.entries, n.term);
    n.(voteReceived := 3, voteTotal := 3, role := Leader, lead := n.id, log := Log(es),
       prs := n.prs[n.id := Progress(|es|, |es| + 1)])
  }

  lemma WinnerLeads(n: Node)
    requires |n.peers| == 5 && n.log == Log(n.log.entries)
    ensures BecomeLeader(n.(voteReceived := 3, voteTotal := 3)) == Winner(n)
  {
    var l := n.(voteReceived := 3, voteTotal := 3, role := Leader, lead := n.id);
    assert [NOOP][..0] == [];
    assert ProposeAll(l, [NOOP]) == ProposeOne(ProposeAll(l, []), NOOP);
  }

  /** The first vote beside its own does not make a candidate of five the leader, the second does. */
  lemma TwoVotes(n: Node, a: Id, b: Id)
    requires n.WellFormed() && |n.peers| == 5 && n.role == Candidate && n.log == Log(n.log.entries)
    requires n.voteReceived == 1 == n.voteTotal
    ensures var n1 := n.(voteReceived := 2, voteTotal := 2);
            && n1.WellFormed() && (forall p :: p in n.peers ==> p in Winner(n).prs)
            && Receive(n, VoteResponse(a, n.id, n.term, false)) == Stepped(n1, [])
            && Receive(n1, VoteResponse(b, n.id, n.term, false)) == Stepped(Winner(n), Broadcast(Winner(n)))
  {
    WinnerLeads(n);
    ProposeKeeps(n.(voteReceived := 3, voteTotal := 3, role := Leader, lead := n.id), [NOOP]);
  }

  /** The whole log goes out to everyone. */
  ghost predicate Ships(c: System, n: Id, term: nat, es: seq<Entry>) {
    forall p :: p in c.nodes && p != n ==> Append(n, p, term, 0, 0, 0, es) in c.net
  }

  ghost predicate ToAll(n: Node, es: seq<Entry>, out: seq<Message>) {
    forall p :: p in n.peers && p != n.id ==> Append(n.id, p, n.term, 0, 0, 0, es) in out
  }

  lemma WinnerShips(n: Node)
    requires n.WellFormed() && Knows(n, {}) && forall p :: p in n.peers ==> p in Winner(n).prs
    ensures ToAll(n, Extended(n.log.entries, n.term), Broadcast(Winner(n)))
  {
    forall p | p in n.peers && p != n.id
      ensures Append(n.id, p, n.term, 0, 0, 0, Extended(n.log.entries, n.term)) in Broadcast(Winner(n))
    {
      ShipsAll(Winner(n), n.peers, p);
    }
  }

  /** The node as it is after one vote beside its own. */
  ghost predicate HalfWay(c: System, n: Id, was: Node) {
    n in c.nodes && c.nodes[n] == was.(voteReceived := 2, voteTotal := 2)
  }

  lemma FirstVote(c: System, quiet: bool, n: Id, a: Id, b: Id, term: nat, es: seq<Entry>) returns (d: System)
    requires Live(c, quiet) && Is(c, n, Candidate, term, es) && a != b
    requires c.nodes[n].voteReceived == 1 == c.nodes[n].voteTotal
    requires VoteResponse(a, n, term, false) in c.net && VoteResponse(b, n, term, false) in c.net
    ensures Live(d, quiet) && Only(c, d, {n}) && HalfWay(d, n, c.nodes[n])
    ensures VoteResponse(b, n, term, false) in d.net && Keeps(c, d, multiset{})
  {
    Shape(c, quiet, n);
    var n0 := c.nodes[n];
    TwoVotes(n0, a, b);
    d := Told(c, quiet, VoteResponse(a, n, term, false), n0.(voteReceived := 2, voteTotal := 2), []);
  }

  lemma WinningVote(c: System, quiet: bool, n: Id, b: Id, was: Node) returns (d: System, out: seq<Message>)
    requires Live(c, quiet) && HalfWay(c, n, was) && Knows(was, {}) && VoteResponse(b, n, was.term, false) in c.net
    requires was.WellFormed() && was.id == n && |was.peers| == 5 && was.log == Log(was.log.entries)
    requires was.role == Candidate && was.voteReceived == 1 == was.voteTotal
    ensures Live(d, quiet) && Leaves(c, multiset{VoteResponse(b, n, was.term, false)}, n, Winner(was), out, d)
    ensures ToAll(was, Extended(was.log.entries, was.term), out)
  {
    TwoVotes(was, b, b);
    WinnerShips(was);
    out := Broadcast(Winner(was));
    d := Told(c, quiet, VoteResponse(b, n, was.term, false), Winner(was), out);
  }

  lemma SecondVote(c: System, quiet: bool, n: Id, b: Id, was: Node, term: nat, es: seq<Entry>) returns (d: System)
    requires Live(c, quiet) && HalfWay(c, n, was) && Knows(was, {}) && VoteResponse(b, n, term, false) in c.net
    requires was.role == Candidate && was.voteReceived == 1 == was.voteTotal && was.term == term && was.log == Log(es)
    ensures Live(d, quiet) && Only(c, d, {n}) && Is(d, n, Leader, term, Extended(es, term)) && Hears(d, n, {})
    ensures Ships(d, n, term, Extended(es, term)) && Keeps(c, d, multiset{})
  {
    Shape(c, quiet, n);
    var out;
    d, out := WinningVote(c, quiet, n, b, was);
    forall p | p in d.nodes && p != n ensures Append(n, p, term, 0, 0, 0, Extended(es, term)) in d.net {
      assert p in was.peers;
    }
  }

  /** The node stands, and both requests are granted. */
  lemma Granted(c: System, quiet: bool, n: Id, role: Role, term: nat, es: seq<Entry>,
                a: Id, ra: Role, ta: nat, ea: seq<Entry>, b: Id, rb: Role, tb: nat, eb: seq<Entry>)
    returns (d: System)
    requires Live(c, quiet) && Is(c, n, role, term, es) && role != Leader && n != a && n != b && a != b
    requires Is(c, a, ra, ta, ea) && ta <= term && AtLeast(RecencyOf(es), RecencyOf(ea))
    requires Is(c, b, rb, tb, eb) && tb <= term && AtLeast(RecencyOf(es), RecencyOf(eb))
    ensures Live(d, quiet) && Only(c, d, {n, a, b}) && Is(d, n, Candidate, term + 1, es)
    ensures d.nodes[n].prs == c.nodes[n].prs && d.nodes[n].id == n
    ensures d.nodes[n].voteReceived == 1 == d.nodes[n].voteTotal
    ensures Is(d, a, Follower, term + 1, ea) && d.nodes[a].id == c.nodes[a].id && d.nodes[a].prs == c.nodes[a].prs
    ensures Is(d, b, Follower, term + 1, eb) && d.nodes[b].id == c.nodes[b].id && d.nodes[b].prs == c.nodes[b].prs
    ensures VoteResponse(a, n, term + 1, false) in d.net && VoteResponse(b, n, term + 1, false) in d.net
    ensures Keeps(c, d, multiset{})
  {
    LogRecency(es);
    var c1 := Stands(c, quiet, n, role, term, es, a, b);
    var c2 := Votes(c1, quiet, a, ra, ta, ea, RequestVote(n, a, term + 1, Log(es).LastTerm(), Log(es).LastIndex()));
    d := Votes(c2, quiet, b, rb, tb, eb, RequestVote(n, b, term + 1, Log(es).LastTerm(), Log(es).LastIndex()));
  }

  /** The node times out, asks `a` and `b` for their votes, and wins with them. */
  lemma Elects(c: System, quiet: bool, n: Id, role: Role, term: nat, es: seq<Entry>,
               a: Id, ra: Role, ta: nat, ea: seq<Entry>, b: Id, rb: Role, tb: nat, eb: seq<Entry>)
    returns (d: System)
    requires Live(c, quiet) && Is(c, n, role, term, es) && role != Leader && Hears(c, n, {})
    requires n != a && n != b && a != b
    requires Is(c, a, ra, ta, ea) && ta <= term && AtLeast(RecencyOf(es), RecencyOf(ea))
    requires Is(c, b, rb, tb, eb) && tb <= term && AtLeast(RecencyOf(es), RecencyOf(eb))
    ensures Live(d, quiet) && Only(c, d, {n, a, b})
    ensures Is(d, n, Leader, term + 1, Extended(es, term + 1)) && Hears(d, n, {})
    ensures Is(d, a, Follower, term + 1, ea) && (Hears(c, a, {}) ==> Hears(d, a, {}))
    ensures Is(d, b, Follower, term + 1, eb) && (Hears(c, b, {}) ==> Hears(d, b, {}))
    ensures Ships(d, n, term + 1, Extended(es, term + 1)) && Keeps(c, d, multiset{})
  {
    assert c.nodes[n].id == n by { Shape(c, quiet, n); }
    var c1 := Granted(c, quiet, n, role, term, es, a, ra, ta, ea, b, rb, tb, eb);
    var c2 := FirstVote(c1, quiet, n, a, b, term + 1, es);
    d := SecondVote(c2, quiet, n, b, c1.nodes[n], term + 1, es);
  }

  // ---------------------------------------------------------------- shipping a whole log

  lemma Overwrites(was: seq<Entry>, es: seq<Entry>)
    requires es != [] && (was == [] || !SameSlot(was[0], es[0]))
    ensures Install(Log(was), 0, es) == Log(es)
  {
    assert was[0..] == was && was[..0] + es == es;
  }

  /** The append of a whole log that shares nothing with the receiver's replaces it and is acknowledged. */
  lemma Takes(c: System, quiet: bool, p: Id, role: Role, tp: nat, was: seq<Entry>, from: Id, term: nat, es: seq<Entry>)
    returns (d: System)
    requires Live(c, quiet) && Is(c, p, role, tp, was) && tp <= term && Append(from, p, term, 0, 0, 0, es) in c.net
    requires es != [] && (was == [] || !SameSlot(was[0], es[0]))
    ensures Live(d, quiet) && Only(c, d, {p}) && Is(d, p, Follower, term, es) && (Hears(c, p, {}) ==> Hears(d, p, {}))
    ensures AppendResponse(p, from, term, false, |es|, 0) in d.net
    ensures Keeps(c, d, multiset{Append(from, p, term, 0, 0, 0, es)})
  {
    Shape(c, quiet, p);
    Overwrites(was, es);
    var n := c.nodes[p];
    var n1 := if role != Follower then BecomeFollower(n, term, from) else n.(term := term, lead := from);
    var r := AppendResponse(p, from, term, false, |es|, 0);
    d := Told(c, quiet, Append(from, p, term, 0, 0, 0, es), n1.(log := Log(es)), [r]);
    assert r in [r];
  }

  // ---------------------------------------------------------------- counting answers

  function Counting(l: Node, p: Id): Node {
    l.(prs := l.prs[p := Progress(2, 3)])
  }

  lemma NoneReached(l: Node, p: Id)
    requires l.WellFormed() && Distinct(l.peers) && Knows(l, {p}) && p in l.prs
    ensures ReachedBy(l, l.peers, p, 2) == []
  {
    ReachedByFacts(l, l.peers, p, 2);
    DistinctCardinality(ReachedBy(l, l.peers, p, 2));
    assert Elements(ReachedBy(l, l.peers, p, 2)) == {};
  }

  lemma OneReached(l: Node, p: Id, q: Id)
    requires l.WellFormed() && Distinct(l.peers) && Knows(l, {p, q}) && p in l.prs && q in l.prs && p != q && q != l.id
    ensures ReachedBy(l, l.peers, p, 2) == [q]
  {
    ReachedByFacts(l, l.peers, p, 2);
    var s := ReachedBy(l, l.peers, p, 2);
    DistinctCardinality(s);
    assert Elements(s) == {q};
    assert s[0] in s;
  }

  /** The first answer counted is not enough. */
  lemma FirstCount(l: Node, p: Id, at: nat)
    requires l.WellFormed() && |l.peers| == 5 && l.role == Leader && l.log == Log(l.log.entries) && |l.log.entries| == 2
    requires Distinct(l.peers) && Knows(l, {}) && p in l.prs && p != l.id
    ensures Receive(l, AppendResponse(p, l.id, at, false, 2, 0)) == Stepped(Counting(l, p), [])
    ensures Knows(Counting(l, p), {p})
  {
    NoneReached(Counting(l, p), p);
  }

  lemma FirstAnswer(c: System, quiet: bool, n: Id, p: Id, term: nat, es: seq<Entry>, at: nat) returns (d: System)
    requires Live(c, quiet) && Is(c, n, Leader, term, es) && |es| == 2 && Hears(c, n, {})
    requires AppendResponse(p, n, at, false, 2, 0) in c.net && p in c.nodes && p != n && (quiet ==> p != 2)
    ensures Live(d, quiet) && Only(c, d, {n}) && Is(d, n, Leader, term, es) && Hears(d, n, {p})
    ensures Keeps(c, d, multiset{AppendResponse(p, n, at, false, 2, 0)})
  {
    Shape(c, quiet, n);
    FirstCount(c.nodes[n], p, at);
    d := Told(c, quiet, AppendResponse(p, n, at, false, 2, 0), Counting(c.nodes[n], p), []);
  }

  /** The second answer, of whatever term, makes the majority: index 2 is committed. */
  lemma SecondCount(l: Node, q: Id, p: Id, at: nat)
    requires l.WellFormed() && |l.peers| == 5 && l.role == Leader && l.log == Log(l.log.entries) && |l.log.entries| == 2
    requires Distinct(l.peers) && l.log.entries[1].term == l.term && Knows(l, {q})
    requires p in l.prs && p != l.id && q in l.prs && q != l.id && p != q
    ensures Receive(l, AppendResponse(p, l.id, at, false, 2, 0)) ==
            Stepped(Counting(l, p).(log := l.log.(committed := 2)), CommitUpdates(Counting(l, p), [p] + [q], 2))
  {
    OneReached(Counting(l, p), p, q);
  }

  lemma SecondAnswer(c: System, n: Id, q: Id, p: Id, term: nat, es: seq<Entry>, at: nat) returns (d: System)
    requires Live(c, false) && Is(c, n, Leader, term, es) && |es| == 2 && es[1].term == term && Hears(c, n, {q})
    requires AppendResponse(p, n, at, false, 2, 0) in c.net
    requires p in c.nodes && q in c.nodes && p != n && q != n && p != q
    ensures Live(d, false) && Only(c, d, {n}) && n in d.nodes && d.nodes[n].role == Leader && d.nodes[n].term == term
    ensures d.nodes[n].log == Log(es).(committed := 2)
  {
    Shape(c, false, n);
    var l := Counting(c.nodes[n], p);
    SecondCount(c.nodes[n], q, p, at);
    d := Told(c, false, AppendResponse(p, n, at, false, 2, 0), l.(log := l.log.(committed := 2)),
              CommitUpdates(l, [p] + [q], 2));
  }

  // ---------------------------------------------------------------- the start

  lemma FiveIds(peers: seq<Id>)
    requires peers == [1, 2, 3, 4, 5]
    ensures Elements(peers) == {1, 2, 3, 4, 5} && Distinct(peers) && NOBODY !in peers
  {
  }

  lemma Begin(peers: seq<Id>) returns (c: System)
    requires |peers| == 5 && Elements(peers) == {1, 2, 3, 4, 5} && Distinct(peers) && NOBODY !in peers
    ensures Live(c, true) && (forall p :: p in c.nodes ==> Is(c, p, Follower, 0, []) && Hears(c, p, {}))
  {
    c := System(peers, map p | p in peers :: FreshNode(p, peers), multiset{}, History({}, map[], map[], map[], map[]));
    assert c.nodes.Keys == Elements(peers);
    assert EndsIn([c], [], c, true);
  }

  // ---------------------------------------------------------------- term 1: node 1 leads, node 2 acknowledges

  const FIRST := Entry(0, 1, 1, [])
  const PROPOSED := Entry(0, 1, 2, [])
  const SECOND := Entry(0, 2, 1, [])
  const THIRD := Entry(0, 3, 2, [])
  const FOURTH := Entry(0, 4, 2, [])

  /** The answer of node 2 in term 1 that is still under way in term 3. */
  const LATE := AppendResponse(2, 1, 1, false, 2, 0)

  /** Nodes 2 and 3 elect node 1. */
  lemma FirstElection() returns (d: System)
    ensures Live(d, true) && Is(d, 1, Leader, 1, [FIRST]) && Hears(d, 1, {})
    ensures Is(d, 2, Follower, 1, []) && Is(d, 3, Follower, 1, []) && Hears(d, 3, {})
    ensures Is(d, 4, Follower, 0, []) && Is(d, 5, Follower, 0, [])
  {
    var peers: seq<Id> := [1, 2, 3, 4, 5];
    FiveIds(peers);
    var c := Begin(peers);
    assert Is(c, 1, Follower, 0, []) && Is(c, 2, Follower, 0, []) && Is(c, 3, Follower, 0, []);
    d := Elects(c, true, 1, Follower, 0, [], 2, Follower, 0, [], 3, Follower, 0, []);
    assert Extended([], 1) == [FIRST];
    assert Is(c, 4, Follower, 0, []) && Is(c, 5, Follower, 0, []);
  }

  function Appended(n: Node): Node {
    var es := Extended(n.log.entries, n.term);
    n.(log := Log(es), prs := n.prs[n.id := Progress(|es|, |es| + 1)])
  }

  lemma AppendedNode(n: Node)
    requires n.WellFormed() && |n.peers| == 5 && n.role == Leader && n.log == Log(n.log.entries)
    ensures (forall p :: p in n.peers ==> p in Appended(n).prs)
    ensures HandlePropose(n, [NOOP]) == Stepped(Appended(n), Broadcast(Appended(n)))
  {
    assert [NOOP][..0] == [];
    assert ProposeAll(n, [NOOP]) == ProposeOne(ProposeAll(n, []), NOOP);
  }

  /** Node 1 proposes another entry. */
  lemma FirstProposal(c: System, es: seq<Entry>) returns (d: System)
    requires Live(c, true) && Is(c, 1, Leader, 1, es) && Hears(c, 1, {})
    ensures Live(d, true) && Only(c, d, {1}) && Is(d, 1, Leader, 1, Extended(es, 1)) && Hears(d, 1, {})
    ensures Append(1, 2, 1, 0, 0, 0, Extended(es, 1)) in d.net
  {
    Shape(c, true, 1);
    var l := Appended(c.nodes[1]);
    AppendedNode(c.nodes[1]);
    d := Proposes(c, true, 1, l, Broadcast(l));
    assert 2 in l.peers;
    ShipsAll(l, l.peers, 2);
  }

  /** The end of term 1: node 2 has acknowledged all entries of node 1, and the answer is under way. */
  ghost predicate FirstTerm(c: System, es: seq<Entry>) {
    && Live(c, true) && AppendResponse(2, 1, 1, false, |es|, 0) in c.net && es != [] && es[0] == FIRST
    && Is(c, 1, Leader, 1, es) && Hears(c, 1, {})
    && Is(c, 2, Follower, 1, es)
    && Is(c, 3, Follower, 1, []) && Hears(c, 3, {})
    && Is(c, 4, Follower, 0, []) && Is(c, 5, Follower, 0, [])
  }

  lemma FirstTermRuns() returns (d: System)
    ensures FirstTerm(d, [FIRST, PROPOSED])
  {
    var c := FirstElection();
    var c1 := FirstProposal(c, [FIRST]);
    assert Extended([FIRST], 1) == [FIRST, PROPOSED];
    d := Takes(c1, true, 2, Follower, 1, [], 1, 1, [FIRST, PROPOSED]);
  }

  // ---------------------------------------------------------------- term 2: node 3 leads and overwrites node 1

  ghost predicate SecondTerm(c: System, es: seq<Entry>) {
    && Live(c, true) && AppendResponse(2, 1, 1, false, |es|, 0) in c.net
    && Is(c, 1, Follower, 2, [SECOND]) && Hears(c, 1, {})
    && Is(c, 2, Follower, 1, es)
    && Is(c, 3, Leader, 2, [SECOND]) && Hears(c, 3, {})
    && Is(c, 4, Follower, 2, []) && Is(c, 5, Follower, 2, [])
  }

  /** Nodes 4 and 5 elect node 3. */
  lemma SecondElection(c: System, es: seq<Entry>) returns (d: System)
    requires FirstTerm(c, es)
    ensures Live(d, true) && Append(3, 1, 2, 0, 0, 0, [SECOND]) in d.net
    ensures AppendResponse(2, 1, 1, false, |es|, 0) in d.net
    ensures Is(d, 1, Leader, 1, es) && Hears(d, 1, {}) && Is(d, 2, Follower, 1, es)
    ensures Is(d, 3, Leader, 2, [SECOND]) && Hears(d, 3, {})
    ensures Is(d, 4, Follower, 2, []) && Is(d, 5, Follower, 2, [])
  {
    d := Elects(c, true, 3, Follower, 1, [], 4, Follower, 0, [], 5, Follower, 0, []);
    assert Extended([], 2) == [SECOND];
  }

  /** The append of node 3 replaces the log of node 1. */
  lemma SecondTermRuns(c: System, es: seq<Entry>) returns (d: System)
    requires FirstTerm(c, es)
    ensures SecondTerm(d, es)
  {
    var c1 := SecondElection(c, es);
    d := Takes(c1, true, 1, Leader, 1, es, 3, 2, [SECOND]);
  }

  // ---------------------------------------------------------------- term 3: node 1 leads again

  /** Node 4 has taken the log of node 1; `heard` says from whom node 1 has had an answer. */
  ghost predicate ThirdTerm(c: System, heard: set<Id>) {
    && Live(c, true) && LATE in c.net
    && Is(c, 1, Leader, 3, [SECOND, THIRD]) && Hears(c, 1, heard)
    && Is(c, 2, Follower, 1, [FIRST, PROPOSED])
    && Is(c, 3, Follower, 3, [SECOND]) && Hears(c, 3, {})
    && Is(c, 4, Follower, 3, [SECOND, THIRD]) && Is(c, 5, Follower, 3, [])
  }

  /** Nodes 3 and 5 elect node 1 again. */
  lemma ThirdElection(c: System, es: seq<Entry>) returns (d: System)
    requires SecondTerm(c, es)
    ensures Live(d, true) && AppendResponse(2, 1, 1, false, |es|, 0) in d.net
    ensures Append(1, 4, 3, 0, 0, 0, [SECOND, THIRD]) in d.net
    ensures Append(1, 2, 3, 0, 0, 0, [SECOND, THIRD]) in d.net
    ensures Is(d, 1, Leader, 3, [SECOND, THIRD]) && Hears(d, 1, {}) && Is(d, 2, Follower, 1, es)
    ensures Is(d, 3, Follower, 3, [SECOND]) && Hears(d, 3, {})
    ensures Is(d, 4, Follower, 2, []) && Is(d, 5, Follower, 3, [])
  {
    d := Elects(c, true, 1, Follower, 2, [SECOND], 3, Leader, 2, [SECOND], 5, Follower, 2, []);
    assert Extended([SECOND], 3) == [SECOND, THIRD];
  }

  /** Node 4 takes the log of node 1. */
  lemma ThirdTermRuns(c: System) returns (d: System)
    requires SecondTerm(c, [FIRST, PROPOSED])
    ensures ThirdTerm(d, {}) && AppendResponse(4, 1, 3, false, 2, 0) in d.net
    ensures Append(1, 2, 3, 0, 0, 0, [SECOND, THIRD]) in d.net
  {
    var c1 := ThirdElection(c, [FIRST, PROPOSED]);
    d := Takes(c1, true, 4, Follower, 2, [], 1, 3, [SECOND, THIRD]);
  }

  /** Node 1 leads term 3, and node 4 has answered. */
  lemma LeadsAgain() returns (c: System)
    ensures ThirdTerm(c, {}) && AppendResponse(4, 1, 3, false, 2, 0) in c.net
    ensures Append(1, 2, 3, 0, 0, 0, [SECOND, THIRD]) in c.net
  {
    var c1 := FirstTermRuns();
    var c2 := SecondTermRuns(c1, [FIRST, PROPOSED]);
    c := ThirdTermRuns(c2);
  }

  lemma HearsAgain(c: System) returns (d: System)
    requires ThirdTerm(c, {}) && AppendResponse(4, 1, 3, false, 2, 0) in c.net
    ensures ThirdTerm(d, {4})
  {
    d := FirstAnswer(c, true, 1, 4, 3, [SECOND, THIRD], 3);
  }

  lemma Louder(c: System)
    requires Reached(c, true)
    ensures Reached(c, false)
  {
    var run, events :| EndsIn(run, events, c, true);
    assert EndsIn(run, events, c, false);
  }

  /** Node 1 has committed index 2 in its second leadership. */
  ghost predicate Committed(c: System) {
    && Live(c, false)
    && 1 in c.nodes && c.nodes[1].term == 3 && c.nodes[1].log == Log([SECOND, THIRD]).(committed := 2)
    && Is(c, 2, Follower, 1, [FIRST, PROPOSED])
    && Is(c, 3, Follower, 3, [SECOND]) && Hears(c, 3, {})
    && Is(c, 4, Follower, 3, [SECOND, THIRD]) && Is(c, 5, Follower, 3, [])
  }

  /** The answer of node 2 from term 1 arrives: node 1 commits index 2, which node 2 does not hold. */
  lemma LateAnswer(c: System) returns (d: System)
    requires ThirdTerm(c, {4})
    ensures Committed(d)
  {
    Louder(c);
    d := SecondAnswer(c, 1, 4, 2, 3, [SECOND, THIRD], 1);
  }

  // ---------------------------------------------------------------- term 4: node 3 commits something else

  /** Nodes 2 and 5 elect node 3, whose log lacks what node 1 has committed. */
  lemma FourthElection(c: System) returns (d: System)
    requires Committed(c)
    ensures Live(d, false) && Is(d, 3, Leader, 4, [SECOND, FOURTH]) && Hears(d, 3, {}) && d.nodes[1] == c.nodes[1]
    ensures Is(d, 2, Follower, 4, [FIRST, PROPOSED]) && Is(d, 5, Follower, 4, [])
    ensures Append(3, 2, 4, 0, 0, 0, [SECOND, FOURTH]) in d.net && Append(3, 5, 4, 0, 0, 0, [SECOND, FOURTH]) in d.net
  {
    d := Elects(c, false, 3, Follower, 3, [SECOND], 2, Follower, 1, [FIRST, PROPOSED], 5, Follower, 3, []);
    assert Extended([SECOND], 4) == [SECOND, FOURTH];
  }

  /** Nodes 2 and 5 take the log of node 3. */
  lemma FourthTerm(c: System) returns (d: System)
    requires Committed(c)
    ensures Live(d, false) && Is(d, 3, Leader, 4, [SECOND, FOURTH]) && Hears(d, 3, {})
    ensures d.nodes[1] == c.nodes[1]
    ensures AppendResponse(2, 3, 4, false, 2, 0) in d.net && AppendResponse(5, 3, 4, false, 2, 0) in d.net
  {
    var c1 := FourthElection(c);
    var c2 := Takes(c1, false, 2, Follower, 4, [FIRST, PROPOSED], 3, 4, [SECOND, FOURTH]);
    d := Takes(c2, false, 5, Follower, 4, [], 3, 4, [SECOND, FOURTH]);
  }

  lemma FourthAnswers(c: System) returns (d: System)
    requires Live(c, false) && Is(c, 3, Leader, 4, [SECOND, FOURTH]) && Hears(c, 3, {})
    requires AppendResponse(2, 3, 4, false, 2, 0) in c.net && AppendResponse(5, 3, 4, false, 2, 0) in c.net
    ensures Live(d, false) && d.nodes[1] == c.nodes[1] && Leads(d, 3, 4)
    ensures d.nodes[3].log == Log([SECOND, FOURTH]).(committed := 2)
  {
    var c1 := FirstAnswer(c, false, 3, 2, 4, [SECOND, FOURTH], 4);
    d := SecondAnswer(c1, 3, 2, 5, 4, [SECOND, FOURTH], 4);
  }

  // ---------------------------------------------------------------- what the run shows

  /** Two nodes have committed different entries at index 2. */
  ghost predicate Diverged(c: System) {
    && 1 in c.nodes && 3 in c.nodes && c.nodes[1].term == 3 && Leads(c, 3, 4)
    && c.nodes[1].log.committed == 2 == c.nodes[3].log.committed
    && |LogOf(c, 1)| == 2 == |LogOf(c, 3)| && LogOf(c, 1)[1] != LogOf(c, 3)[1]
  }

  lemma Diverges() returns (c: System)
    ensures Live(c, false) && Diverged(c)
  {
    var c0 := LeadsAgain();
    var c1 := HearsAgain(c0);
    var c2 := LateAnswer(c1);
    var c3 := FourthTerm(c2);
    c := FourthAnswers(c3);
  }

  /** State Machine Safety and Leader Completeness both fail in this run. */
  lemma SafetyNeedsAnswers() returns (run: seq<System>, events: seq<Event>)
    ensures IsRun(run, events)
    ensures var c := run[|events|];
            && 1 in c.nodes && 3 in c.nodes
            && c.nodes[1].log.committed == 2 == c.nodes[3].log.committed
            && |LogOf(c, 1)| == 2 == |LogOf(c, 3)| && LogOf(c, 1)[..2] != LogOf(c, 3)[..2]
            && Leads(c, 3, 4) && c.nodes[1].term == 3
  {
    var c := Diverges();
    assert LogOf(c, 1)[..2][1] != LogOf(c, 3)[..2][1];
    var r, e :| EndsIn(r, e, c, false);
    run, events := r, e;
  }

  // ---------------------------------------------------------------- a late answer can make a leader panic

  const LAST := Entry(0, 1, 3, [])

  /** In term 1 node 2 acknowledges three entries. */
  lemma LongFirstTerm() returns (d: System)
    ensures FirstTerm(d, [FIRST, PROPOSED, LAST])
  {
    var c := FirstElection();
    var c1 := FirstProposal(c, [FIRST]);
    assert Extended([FIRST], 1) == [FIRST, PROPOSED];
    var c2 := FirstProposal(c1, [FIRST, PROPOSED]);
    assert Extended([FIRST, PROPOSED], 1) == [FIRST, PROPOSED, LAST];
    d := Takes(c2, true, 2, Follower, 1, [], 1, 1, [FIRST, PROPOSED, LAST]);
  }

  /** Node 1 has lost them when it leads term 3. */
  lemma LeadsShorter() returns (d: System)
    ensures Live(d, true) && AppendResponse(2, 1, 1, false, 3, 0) in d.net
    ensures Is(d, 1, Leader, 3, [SECOND, THIRD]) && Hears(d, 1, {})
  {
    var c := LongFirstTerm();
    var c1 := SecondTermRuns(c, [FIRST, PROPOSED, LAST]);
    d := ThirdElection(c1, [FIRST, PROPOSED, LAST]);
  }

  /** The answer to those is under way to a leader of two entries, which panics when it gets it. */
  lemma LateAnswerPanics() returns (run: seq<System>, events: seq<Event>, m: Message)
    ensures IsRun(run, events) && m in run[|events|].net && Overshoots(run[|events|], m)
    ensures run[|events|].nodes[m.to].WellFormed() && Receive(run[|events|].nodes[m.to], m).Panicked?
  {
    var c := LeadsShorter();
    Shape(c, true, 1);
    m := AppendResponse(2, 1, 1, false, 3, 0);
    var r, es :| EndsIn(r, es, c, true);
    run, events := r, es;
  }

  // ---------------------------------------------------------------- the condition is not necessary

  /** Node 2, too, has taken the log of node 1, but its answer of term 3 is under way and that of term 1 comes first. */
  ghost predicate Caught(c: System, heard: set<Id>) {
    && Live(c, true) && LATE in c.net
    && Is(c, 1, Leader, 3, [SECOND, THIRD]) && Hears(c, 1, heard)
    && Is(c, 2, Follower, 3, [SECOND, THIRD])
    && Is(c, 4, Follower, 3, [SECOND, THIRD])
  }

  lemma CatchesUp(c: System) returns (d: System)
    requires ThirdTerm(c, {}) && AppendResponse(4, 1, 3, false, 2, 0) in c.net
    requires Append(1, 2, 3, 0, 0, 0, [SECOND, THIRD]) in c.net
    ensures Caught(d, {4})
  {
    var c1 := Takes(c, true, 2, Follower, 1, [FIRST, PROPOSED], 1, 3, [SECOND, THIRD]);
    d := FirstAnswer(c1, true, 1, 4, 3, [SECOND, THIRD], 3);
  }

  /** The run behind a quiet state, made longer by an answer. */
  lemma LastAnswer(c: System, m: Message, n: Node, out: seq<Message>)
    returns (run: seq<System>, events: seq<Event>)
    requires Live(c, true) && m in c.net && m.to in c.nodes && c.nodes[m.to].WellFormed()
    requires Receive(c.nodes[m.to], m) == Stepped(n, out) && !Telling(Deliver(m))
    ensures |events| > 0 && IsRun(run, events)
    ensures run[|events| - 1] == c && events[|events| - 1] == Deliver(m)
    ensures run[|events|].nodes == c.nodes[m.to := n]
    ensures NothingCommitted(run[..|events|]) && NothingTold(events)
  {
    ReachedInv(c, true);
    var d := Apply(c, Deliver(m));
    StepShape(c, true, Deliver(m), n, out, d);
    var r, es :| EndsIn(r, es, c, true);
    run, events := Longer(r, es, false, Deliver(m), d);
    assert run[..|events|] == r;
    forall i | 0 <= i < |events| ensures !Telling(events[i]) {
      if i < |es| { assert !Telling(es[i]); }
    }
  }

  /** Node 1 commits index 2 on the answer of term 1, and tells node 2, which has given it none of term 3. */
  lemma TellsUnanswered(run: seq<System>, events: seq<Event>, c: System)
    requires IsRun(run, events) && |events| > 0 && run[|events| - 1] == c && events[|events| - 1] == Deliver(LATE)
    requires Live(c, true) && Is(c, 1, Leader, 3, [SECOND, THIRD]) && Hears(c, 1, {4}) && NothingTold(events)
    ensures !TellsOnlyAnswered(run, events, |events|)
  {
    var i := |events| - 1;
    Shape(c, true, 1);
    SecondCount(c.nodes[1], 4, 2, 1);
    var out := CommitUpdates(Counting(c.nodes[1], 2), [2] + [4], 2);
    assert out[0] == CommitUpdate(1, 2, 3, 2);
    assert Tells(c.nodes[1], LATE, 2);
    forall j: nat | j < |events| ensures !AnswerOf(events[j], 1, 2, 3, 2) {
      assert !Telling(events[j]);
    }
    assert !TellsAnswered(run, events, i);
  }

  /** Whatever any two nodes have committed, at any two moments, agrees where both reach. */
  ghost predicate Agrees(run: seq<System>) {
    forall i, j, a, b, k: nat {:trigger run[i].nodes[a], run[j].nodes[b], LogOf(run[i], a)[..k]} ::
      0 <= i < |run| && 0 <= j < |run| && a in run[i].nodes && b in run[j].nodes &&
      k <= run[i].nodes[a].log.committed && k <= run[j].nodes[b].log.committed ==>
        k <= |LogOf(run[i], a)| && k <= |LogOf(run[j], b)| && LogOf(run[i], a)[..k] == LogOf(run[j], b)[..k]
  }

  /** The only commit is that of node 1 at the very end. */
  lemma OneCommitAgrees(run: seq<System>, last: nat)
    requires |run| == last + 1 && NothingCommitted(run[..last]) && 1 in run[last].nodes
    requires forall p :: p in run[last].nodes && p != 1 ==> run[last].nodes[p].log.committed == 0
    requires run[last].nodes[1].log.committed == 2 == |LogOf(run[last], 1)|
    ensures Agrees(run)
  {
    forall i, n | 0 <= i < last && n in run[i].nodes ensures run[i].nodes[n].log.committed == 0 {
      assert Uncommitted(run[..last][i]);
    }
  }

  /** The nodes whose log is that of `l`. */
  ghost function Holders(d: System, l: Id): set<Id>
    requires l in d.nodes
  {
    set n | n in d.nodes && LogOf(d, n) == LogOf(d, l)
  }

  lemma ThreeHolders(d: System)
    requires d.nodes.Keys == {1, 2, 3, 4, 5} && LogOf(d, 1) == LogOf(d, 2) == LogOf(d, 4)
    ensures Majority(Holders(d, 1), d.nodes.Keys)
  {
    assert |{1, 2, 3, 4, 5}| == 5 && |{1, 2, 4}| == 3;
    SubsetCardinality({1, 2, 4}, Holders(d, 1));
  }

  /** The commit of node 1 in a run that ends with the answer of term 1. */
  lemma CommitsLate(c: System) returns (run: seq<System>, events: seq<Event>)
    requires Live(c, true) && LATE in c.net && Is(c, 1, Leader, 3, [SECOND, THIRD]) && Hears(c, 1, {4})
    ensures |events| > 0 && IsRun(run, events) && NothingCommitted(run[..|events|]) && NothingTold(events)
    ensures run[|events| - 1] == c && events[|events| - 1] == Deliver(LATE) && Only(c, run[|events|], {1})
    ensures 1 in run[|events|].nodes && run[|events|].nodes[1].term == 3
    ensures run[|events|].nodes[1].log == Log([SECOND, THIRD]).(committed := 2)
  {
    Shape(c, true, 1);
    var l := Counting(c.nodes[1], 2);
    SecondCount(c.nodes[1], 4, 2, 1);
    run, events := LastAnswer(c, LATE, l.(log := l.log.(committed := 2)), CommitUpdates(l, [2] + [4], 2));
  }

  /**
   The condition is not necessary: here node 1 commits on an answer of an earlier term, but its sender has taken the
   log in the meantime, a majority holds what is committed, and no two commits in the run disagree.
   */
  lemma LateAnswerCanBeHarmless() returns (run: seq<System>, events: seq<Event>)
    ensures IsRun(run, events) && !TellsOnlyAnswered(run, events, |events|) && Agrees(run)
    ensures var d := run[|events|];
            && 1 in d.nodes && d.nodes[1].log.committed == 2
            && Majority(Holders(d, 1), d.nodes.Keys)
  {
    var c0 := LeadsAgain();
    var c := CatchesUp(c0);
    run, events := CommitsLate(c);
    QuietNow(c);
    TellsUnanswered(run, events, c);
    OneCommitAgrees(run, |events|);
    ThreeHolders(run[|events|]);
  }

  lemma TwoHolders(c: System, d: System)
    requires ThirdTerm(c, {4}) && Only(c, d, {1}) && 1 in d.nodes && d.nodes[1].log.entries == [SECOND, THIRD]
    ensures Holders(d, 1) == {1, 4} && !Majority({1, 4}, d.nodes.Keys)
  {
    assert LogOf(d, 2)[0] != LogOf(d, 1)[0];
    assert |{1, 2, 3, 4, 5}| == 5;
  }

  /**
   The commit of the second leadership has no majority behind it: node 1 holds an entry of its term at the index it
   commits, and only nodes 1 and 4 of the five hold that log.
   */
  lemma CommittedWithoutMajority() returns (run: seq<System>, events: seq<Event>)
    ensures IsRun(run, events) && |events| > 0 && AnswersLeader(run[|events| - 1], events[|events| - 1])
    ensures events[|events| - 1].msg.to == 1
    ensures var c, d := run[|events| - 1], run[|events|];
            && 1 in c.nodes && c.nodes[1].log.committed == 0
            && 1 in d.nodes && d.nodes[1].log.committed == 2 && |LogOf(d, 1)| == 2
            && LogOf(d, 1)[1].term == d.nodes[1].term
            && Holders(d, 1) == {1, 4} && !Majority({1, 4}, d.nodes.Keys)
  {
    var c0 := LeadsAgain();
    var c := HearsAgain(c0);
    run, events := CommitsLate(c);
    TwoHolders(c, run[|events|]);
  }
}
