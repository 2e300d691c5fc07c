/** What each Raft handler does, said in terms of its inputs and not of the functions it is put together from. */
module RaftMeaning {
  import opened Common
  import opened RaftTypes
  import opened RaftStep
  import opened Cluster

  // ---------------------------------------------------------------- proposing

  predicate IsConfChange(e: Entry) {
    e.entryType == CONF_CHANGE
  }

  /** Of the membership changes only the first is let in, and only if none is pending. */
  ghost predicate Admits(pendingConf: nat, es: seq<Entry>, k: nat)
    requires k < |es|
  {
    IsConfChange(es[k]) ==> pendingConf == 0 && forall j :: 0 <= j < k ==> !IsConfChange(es[j])
  }

  ghost predicate Increasing(at: seq<nat>) {
    forall i, j :: 0 <= i < j < |at| ==> at[i] < at[j]
  }

  /** `at` lists the positions of the entries that are let in, in order. */
  ghost predicate Lets(pendingConf: nat, es: seq<Entry>, at: seq<nat>) {
    && Increasing(at)
    && (forall i :: 0 <= i < |at| ==> at[i] < |es| && Admits(pendingConf, es, at[i]))
    && (forall k: nat :: k < |es| && Admits(pendingConf, es, k) ==> k in at)
  }

  /** The entries at these positions, stamped with the term and numbered behind the log. */
  ghost predicate Stamps(n: Node, es: seq<Entry>, at: seq<nat>, added: seq<Entry>) {
    |added| == |at| &&
    forall i :: 0 <= i < |at| ==> at[i] < |es| && added[i] == Entry(es[at[i]].entryType, n.term,
                                                                  n.log.LastIndex() + 1 + i, es[at[i]].data)
  }

  /** A membership change is pending once one was before or one has been proposed. */
  ghost predicate AnyConfChange(es: seq<Entry>) {
    exists k :: 0 <= k < |es| && IsConfChange(es[k])
  }

  lemma AdmitsMore(pendingConf: nat, es: seq<Entry>, e: Entry)
    ensures forall k: nat :: k < |es| ==> (Admits(pendingConf, es + [e], k) <==> Admits(pendingConf, es, k))
    ensures Admits(pendingConf, es + [e], |es|) <==> (IsConfChange(e) ==> pendingConf == 0 && !AnyConfChange(es))
  {
    var es' := es + [e];
    forall k: nat | k < |es| ensures Admits(pendingConf, es', k) <==> Admits(pendingConf, es, k) {
      assert es'[k] == es[k] && forall j :: 0 <= j < k ==> es'[j] == es[j];
    }
    assert es'[|es|] == e && forall j :: 0 <= j < |es| ==> es'[j] == es[j];
  }

  lemma LetsMore(pendingConf: nat, es: seq<Entry>, at: seq<nat>, e: Entry)
    requires Lets(pendingConf, es, at)
    ensures if Admits(pendingConf, es + [e], |es|) then Lets(pendingConf, es + [e], at + [|es|])
            else Lets(pendingConf, es + [e], at)
  {
    AdmitsMore(pendingConf, es, e);
    var at' := at + [|es|];
    forall k: nat | k < |es| && Admits(pendingConf, es + [e], k) ensures k in at && k in at' {
      assert Admits(pendingConf, es, k);
    }
    assert |es| in at' by { assert at'[|at|] == |es|; }
  }

  lemma StampsMore(n: Node, es: seq<Entry>, at: seq<nat>, added: seq<Entry>, e: Entry)
    requires Stamps(n, es, at, added)
    ensures Stamps(n, es + [e], at, added)
    ensures Stamps(n, es + [e], at + [|es|],
                   added + [Entry(e.entryType, n.term, n.log.LastIndex() + 1 + |added|, e.data)])
  {
    assert forall i :: 0 <= i < |at| ==> (es + [e])[at[i]] == es[at[i]];
  }

  lemma ProposeOneMeans(n: Node, e: Entry)
    ensures ProposeOne(n, e).log.entries ==
            if IsConfChange(e) && n.pendingConf != 0 then n.log.entries
            else n.log.entries + [Entry(e.entryType, n.term, n.log.LastIndex() + 1, e.data)]
    ensures ProposeOne(n, e).pendingConf != 0 <==> n.pendingConf != 0 || IsConfChange(e)
  {
  }

  lemma AnyMore(es: seq<Entry>, e: Entry)
    ensures AnyConfChange(es + [e]) <==> AnyConfChange(es) || IsConfChange(e)
  {
    var es' := es + [e];
    if AnyConfChange(es) {
      var k :| 0 <= k < |es| && IsConfChange(es[k]);
      assert IsConfChange(es'[k]);
    }
    assert es'[|es|] == e;
  }

  lemma {:induction false} ProposeAllMeans(n: Node, es: seq<Entry>) returns (at: seq<nat>, added: seq<Entry>)
    ensures Lets(n.pendingConf, es, at) && Stamps(n, es, at, added)
    ensures ProposeAll(n, es).log.entries == n.log.entries + added
    ensures ProposeAll(n, es).pendingConf != 0 <==> n.pendingConf != 0 || AnyConfChange(es)
  {
    if es == [] {
      at, added := [], [];
    } else {
      var init, e := es[..|es| - 1], es[|es| - 1];
      at, added := ProposeAllMeans(n, init);
      at, added := ProposeNext(n, init, at, added, ProposeAll(n, init), e);
      assert init + [e] == es;
    }
  }

  lemma ProposeNext(n: Node, es: seq<Entry>, at: seq<nat>, added: seq<Entry>, n1: Node, e: Entry)
    returns (at': seq<nat>, added': seq<Entry>)
    requires n1 == ProposeAll(n, es) && Lets(n.pendingConf, es, at) && Stamps(n, es, at, added)
    requires n1.log.entries == n.log.entries + added
    requires n1.pendingConf != 0 <==> n.pendingConf != 0 || AnyConfChange(es)
    ensures Lets(n.pendingConf, es + [e], at') && Stamps(n, es + [e], at', added')
    ensures ProposeOne(n1, e).log.entries == n.log.entries + added'
    ensures ProposeOne(n1, e).pendingConf != 0 <==> n.pendingConf != 0 || AnyConfChange(es + [e])
  {
    ProposeKeeps(n, es);
    ProposeOneMeans(n1, e);
    AdmitsMore(n.pendingConf, es, e);
    LetsMore(n.pendingConf, es, at, e);
    StampsMore(n, es, at, added, e);
    AnyMore(es, e);
    if IsConfChange(e) && n1.pendingConf != 0 {
      at', added' := at, added;
    } else {
      at', added' := at + [|es|], added + [Entry(e.entryType, n.term, n.log.LastIndex() + 1 + |added|, e.data)];
    }
  }

  /**
   A proposal appends exactly the entries let in, in order and with their type and data, stamped with the leader's
   term and numbered behind its log. The leader's own progress reaches the end of the log, a cluster of one commits
   it all, and nothing else changes.
   */
  lemma ProposeMeans(n: Node, es: seq<Entry>) returns (at: seq<nat>, added: seq<Entry>)
    ensures Lets(n.pendingConf, es, at) && Stamps(n, es, at, added)
    ensures var n', last := Propose(n, es), n.log.LastIndex() + |added|;
            && n'.log.entries == n.log.entries + added
            && n'.log == n.log.(entries := n'.log.entries, committed := n'.log.committed)
            && n'.log.committed == (if |n.peers| == 1 then last else n.log.committed)
            && n'.prs == n.prs[n.id := Progress(last, last + 1)]
            && (n'.pendingConf != 0 <==> n.pendingConf != 0 || AnyConfChange(es))
            && n' == n.(log := n'.log, prs := n'.prs, pendingConf := n'.pendingConf)
  {
    ProposeKeeps(n, es);
    at, added := ProposeAllMeans(n, es);
  }

  lemma {:induction false} AllPositions(at: seq<nat>, n: nat)
    requires Increasing(at) && (forall i :: 0 <= i < |at| ==> at[i] < n) && forall k: nat :: k < n ==> k in at
    ensures |at| == n && forall i :: 0 <= i < n ==> at[i] == i
  {
    assert |at| > 0 ==> at[0] < n;
    if n > 0 {
      assert n - 1 in at;
      var last := |at| - 1;
      var i :| 0 <= i < |at| && at[i] == n - 1;
      assert at[i] <= at[last] < n;
      var init := at[..last];
      forall k: nat | k < n - 1 ensures k in init {
        assert k in at;
        var j :| 0 <= j < |at| && at[j] == k;
        assert init[j] == k;
      }
      assert forall j :: 0 <= j < last ==> at[j] < at[last];
      AllPositions(init, n - 1);
    }
  }

  /** Without membership changes every entry of the proposal arrives. */
  lemma ProposesAll(n: Node, es: seq<Entry>)
    requires !AnyConfChange(es)
    ensures var log := Propose(n, es).log.entries;
            && |log| == |n.log.entries| + |es| && n.log.entries <= log
            && forall k :: 0 <= k < |es| ==>
                 log[|n.log.entries| + k] == Entry(es[k].entryType, n.term, n.log.LastIndex() + 1 + k, es[k].data)
  {
    var at, added := ProposeMeans(n, es);
    forall k: nat | k < |es| ensures k in at {
      assert Admits(n.pendingConf, es, k);
    }
    AllPositions(at, |es|);
  }

  // ---------------------------------------------------------------- shipping

  /** The message ships the log from its receiver's next index through the end, with the leader's commit index. */
  ghost predicate IsShipment(n: Node, m: Message) {
    && m.Append? && m.from == n.id && m.term == n.term && m.to in n.prs
    && var next := n.prs[m.to].next;
       && n.log.snapIndex < next <= n.log.LastIndex()
       && m.index == next - 1 && m.logTerm == n.log.TermAt(next - 1) && m.commit == n.log.committed
       && m.index + |m.entries| == n.log.LastIndex()
       && forall k :: 0 <= k < |m.entries| ==> m.entries[k] == n.log.entries[next - n.log.snapIndex - 1 + k]
  }

  /** A peer is sent an append exactly when its next index is in the log, and then just this one. */
  lemma SendAppendMeans(n: Node, to: Id, m: Message)
    requires to in n.prs
    ensures m in SendAppend(n, to) <==> IsShipment(n, m) && m.to == to
    ensures |SendAppend(n, to)| ==
            if n.log.snapIndex < n.prs[to].next <= n.log.LastIndex() then 1 else 0
  {
    if IsShipment(n, m) && m.to == to {
      assert m.entries == n.log.entries[n.prs[to].next - n.log.snapIndex - 1..];
      assert SendAppend(n, to)[0] == m;
    }
  }

  lemma {:induction false} BroadcastToMeans(n: Node, to: seq<Id>, m: Message)
    requires forall p :: p in to ==> p in n.prs
    ensures m in BroadcastTo(n, to) <==> IsShipment(n, m) && m.to in to && m.to != n.id
  {
    if to != [] {
      var init, last := to[..|to| - 1], to[|to| - 1];
      BroadcastToMeans(n, init, m);
      if last != n.id { SendAppendMeans(n, last, m); }
      assert to == init + [last];
    }
  }

  /** After a proposal, and after winning, every other peer is sent what it lacks. */
  lemma BroadcastMeans(n: Node, m: Message)
    requires forall p :: p in n.peers ==> p in n.prs
    ensures m in Broadcast(n) <==> IsShipment(n, m) && m.to in n.peers && m.to != n.id
  {
    BroadcastToMeans(n, n.peers, m);
  }

  /** A leader that is handed a proposal appends it and sends every other peer what it lacks. */
  lemma HandleProposeMeans(n: Node, es: seq<Entry>, x: Message)
    requires n.WellFormed()
    ensures HandlePropose(n, es).Stepped? && HandlePropose(n, es).node == Propose(n, es)
    ensures x in HandlePropose(n, es).out <==> IsShipment(Propose(n, es), x) && x.to in n.peers && x.to != n.id
  {
    ProposeKeeps(n, es);
    BroadcastMeans(Propose(n, es), x);
  }

  // ---------------------------------------------------------------- elections

  /** A node that leads has appended one empty entry of its term. */
  lemma BecomeLeaderMeans(n: Node)
    ensures var l, last := BecomeLeader(n), n.log.LastIndex() + 1;
            && l.role == Leader && l.lead == n.id && l.term == n.term && l.id == n.id && l.vote == n.vote
            && l.log.entries == n.log.entries + [Entry(0, n.term, last, [])]
            && l.log.committed == (if |n.peers| == 1 then last else n.log.committed)
            && l.prs == n.prs[n.id := Progress(last, last + 1)]
  {
    var n1 := n.(role := Leader, lead := n.id);
    assert !AnyConfChange([NOOP]);
    ProposesAll(n1, [NOOP]);
    var _, _ := ProposeMeans(n1, [NOOP]);
  }

  lemma {:induction false} RequestVotesToMeans(n: Node, to: seq<Id>, m: Message)
    ensures m in RequestVotesTo(n, to) <==>
            && m.RequestVote? && m.from == n.id && m.to in to && m.to != n.id
            && m.term == n.term && Recency(m.logTerm, m.index) == Recency(n.log.LastTerm(), n.log.LastIndex())
  {
    if to != [] {
      var init, last := to[..|to| - 1], to[|to| - 1];
      RequestVotesToMeans(n, init, m);
      assert to == init + [last];
    }
  }

  /** A candidacy: a new term, its own vote, and a request with its last index and term to every other peer. */
  lemma CampaignMeans(n: Node, m: Message)
    requires |n.peers| != 1
    ensures Campaign(n).node == n.(term := n.term + 1, vote := n.id, role := Candidate,
                                   voteReceived := 1, voteTotal := 1)
    ensures m in Campaign(n).out <==>
            && m.RequestVote? && m.from == n.id && m.to in n.peers && m.to != n.id
            && m.term == n.term + 1 && m.logTerm == n.log.LastTerm() && m.index == n.log.LastIndex()
  {
    RequestVotesToMeans(BecomeCandidate(n), n.peers, m);
  }

  /** In a cluster of one a candidate leads at once and has nobody to ask. */
  lemma LoneCampaignMeans(n: Node)
    requires n.peers == [n.id]
    ensures var l := Campaign(n).node;
            && l.role == Leader && l.term == n.term + 1 && l.vote == n.id && Campaign(n).out == []
            && l.log.entries == n.log.entries + [Entry(0, n.term + 1, n.log.LastIndex() + 1, [])]
            && l.log.committed == l.log.LastIndex()
  {
    var n1 := n.(term := n.term + 1, voteReceived := 1, voteTotal := 1, vote := n.id, role := Candidate);
    BecomeLeaderMeans(n1);
    ProposeKeeps(n1.(role := Leader, lead := n1.id), [NOOP]);
    var l := Campaign(n).node;
    assert l.peers == [n.id] && l.id == n.id;
    assert [n.id][..0] == [];
    assert RequestVotesTo(l, [n.id]) == [];
  }

  ghost predicate Grants(o: Outcome, from: Id, to: Id, term: nat) {
    o.Stepped? && o.out == [VoteResponse(from, to, term, false)]
  }

  ghost predicate Refuses(o: Outcome, from: Id, to: Id, term: nat) {
    o.Stepped? && o.out == [VoteResponse(from, to, term, true)]
  }

  /** The node may still vote for the sender in the term of the request. */
  ghost predicate MayVoteFor(n: Node, m: Message)
    requires m.RequestVote?
  {
    m.term > n.term || (m.term == n.term && n.role == Follower && n.vote in {NOBODY, m.from})
  }

  /** A vote is granted exactly to whom it may still go and whose log is at least as recent. */
  lemma VoteRequestMeans(n: Node, m: Message)
    requires m.RequestVote? && n.WellFormed()
    ensures var o, term := Receive(n, m), Max(n.term, m.term);
            var grant := MayVoteFor(n, m) &&
                         AtLeast(Recency(m.logTerm, m.index), Recency(n.log.LastTerm(), n.log.LastIndex()));
            && (if grant then Grants(o, n.id, m.from, term) else Refuses(o, n.id, m.from, term))
            && o.node.term == term
            && (grant ==> o.node.vote == m.from && o.node.role == Follower)
            && (!grant && MayVoteFor(n, m) ==> o.node.vote == NOBODY && o.node.role == Follower)
            && (!MayVoteFor(n, m) ==> o.node == n)
            && o.node == n.(term := term, vote := o.node.vote, role := o.node.role, lead := o.node.lead)
  {
  }

  /** A majority of the votes makes a candidate the leader; a full count without one ends the candidacy. */
  lemma VoteResponseMeans(n: Node, m: Message)
    requires m.VoteResponse? && n.WellFormed()
    ensures n.role != Candidate ==> Receive(n, m) == Stepped(n, [])
    ensures n.role == Candidate ==>
            var o := Receive(n, m);
            var received := if m.reject then n.voteReceived else n.voteReceived + 1;
            && o.Stepped?
            && (o.node.role == Leader <==> m.term == n.term && !m.reject && 2 * received > |n.peers|)
            && (o.node.role == Follower <==>
                  m.term > n.term ||
                  (m.term == n.term && (m.reject || 2 * received <= |n.peers|) && n.voteTotal + 1 == |n.peers|))
            && (m.term == n.term ==> o.node.voteReceived == received && o.node.voteTotal == n.voteTotal + 1)
            && (m.term < n.term ==> o.node == n)
            && o.node.term == Max(n.term, m.term)
            && (o.node.role != Leader ==> o.out == [] && o.node.log == n.log)
  {
    ProposeKeeps(n.(voteTotal := n.voteTotal + 1, voteReceived := n.voteReceived + 1, role := Leader, lead := n.id),
                 [NOOP]);
  }

  lemma WinningOutcome(n: Node, m: Message, n1: Node)
    requires m.VoteResponse? && n.WellFormed() && n.role == Candidate
    requires n1 == n.(voteTotal := n.voteTotal + 1, voteReceived := n.voteReceived + 1)
    requires Receive(n, m).Stepped? && Receive(n, m).node.role == Leader
    ensures BecomeLeader(n1).peers == n.peers && BecomeLeader(n1).id == n.id
    ensures forall p :: p in n.peers ==> p in BecomeLeader(n1).prs
    ensures Receive(n, m) == Stepped(BecomeLeader(n1), Broadcast(BecomeLeader(n1)))
  {
    ProposeKeeps(n1.(role := Leader, lead := n1.id), [NOOP]);
  }

  /** The new leader has appended one empty entry of its term and sends every other peer what it lacks. */
  lemma WinningMeans(n: Node, m: Message, x: Message)
    requires m.VoteResponse? && n.WellFormed() && n.role == Candidate
    requires Receive(n, m).Stepped? && Receive(n, m).node.role == Leader
    ensures var l := Receive(n, m).node;
            && l.lead == n.id && l.log.entries == n.log.entries + [Entry(0, n.term, n.log.LastIndex() + 1, [])]
            && (x in Receive(n, m).out <==> IsShipment(l, x) && x.to in n.peers && x.to != n.id)
  {
    var n1 := n.(voteTotal := n.voteTotal + 1, voteReceived := n.voteReceived + 1);
    WinningOutcome(n, m, n1);
    BecomeLeaderMeans(n1);
    BroadcastMeans(BecomeLeader(n1), x);
  }

  /** A heartbeat of an earlier term changes nothing; any other is followed and takes the vote away. */
  lemma HeartbeatMeans(n: Node, from: Id, term: nat)
    ensures var h := HandleHeartbeat(n, from, term);
            && h.term == Max(n.term, term)
            && (term < n.term ==> h == n)
            && (term >= n.term ==> h.lead == from && h.role == Follower && h.vote == NOBODY)
            && h == n.(term := h.term, lead := h.lead, role := h.role, vote := h.vote)
  {
  }

  // ---------------------------------------------------------------- the receiver of an append

  /** The log has an entry, or its cut, at the index with the term. */
  ghost predicate HasAt(l: RaftLog, index: nat, term: nat) {
    l.snapIndex <= index <= l.LastIndex() && l.TermAt(index) == term
  }

  lemma KeptPrefixMeans(l: RaftLog, index: nat, term: nat)
    ensures KeptPrefix(l, index, term) == if HasAt(l, index, term) then Some(index - l.snapIndex) else None
  {
  }

  /**
   A stale append is refused and changes nothing. Any other makes its sender the leader followed, and is taken exactly
   when the log has the entry before the shipped ones.
   */
  lemma AppendMeans(n: Node, m: Message)
    requires m.Append? && n.WellFormed() && Receive(n, m).Stepped?
    ensures var o := Receive(n, m);
            && (m.term < n.term ==> o == Stepped(n, [AppendResponse(n.id, m.from, n.term, true, 0, 0)]))
            && (m.term >= n.term ==>
                  && o.node.term == m.term && o.node.lead == m.from && o.node.role == Follower
                  && o.node.vote == (if n.role == Follower then n.vote else NOBODY)
                  && o.node == n.(term := m.term, lead := m.from, role := Follower, vote := o.node.vote,
                                  log := o.node.log)
                  && |o.out| == 1 && o.out[0].AppendResponse?
                  && o.out[0].from == n.id && o.out[0].to == m.from && o.out[0].term == m.term
                  && (!o.out[0].reject <==> HasAt(n.log, m.index, m.logTerm))
                  && (o.out[0].reject ==> o.node.log == n.log)
                  && (!o.out[0].reject ==> o.out[0].index == o.node.log.LastIndex()))
  {
    KeptPrefixMeans(n.log, m.index, m.logTerm);
  }

  ghost predicate Takes(n: Node, m: Message) {
    m.Append? && m.term >= n.term && HasAt(n.log, m.index, m.logTerm)
  }

  /** What an append that is taken teaches: the leader's commit index as far as the append itself reaches. */
  lemma AppendLearns(n: Node, m: Message, k: nat)
    requires Takes(n, m) && n.WellFormed() && Receive(n, m).Stepped?
    ensures k <= Receive(n, m).node.log.committed <==>
            k <= n.log.committed || (k <= m.commit && k <= m.index + |m.entries|)
  {
    KeptPrefixMeans(n.log, m.index, m.logTerm);
  }

  /** Taking a commit index sent on its own: a panic beyond the log. */
  lemma CommitUpdateMeans(n: Node, m: Message, k: nat)
    requires m.CommitUpdate? && n.WellFormed()
    ensures Receive(n, m).Stepped? <==> m.commit <= n.log.LastIndex()
    ensures Receive(n, m).Stepped? ==>
              var o := Receive(n, m);
              && (k <= o.node.log.committed <==> k <= n.log.committed || k <= m.commit)
              && o.node == n.(log := n.log.(committed := o.node.log.committed)) && o.out == []
  {
  }

  // ---------------------------------------------------------------- refusals

  /** Terms never fall along the log. */
  ghost predicate TermsAscend(es: seq<Entry>) {
    forall i, j :: 0 <= i <= j < |es| ==> es[i].term <= es[j].term
  }

  /** The scan finds the last entry of the term and gives the index after it; `None` if there is none. */
  lemma {:induction false} AfterLastOfTermMeans(es: seq<Entry>, term: nat) returns (last: int)
    requires TermsAscend(es)
    ensures -1 <= last < |es| && (forall i :: last < i < |es| ==> es[i].term != term)
    ensures last == -1 ==> AfterLastOfTerm(es, term) == None
    ensures last >= 0 ==> es[last].term == term && AfterLastOfTerm(es, term) == Some(es[last].index + 1)
  {
    if es == [] {
      last := -1;
    } else if es[0].term > term {
      assert forall i :: 0 <= i < |es| ==> es[0].term <= es[i].term;
      last := -1;
    } else {
      var rest := AfterLastOfTermMeans(es[1..], term);
      assert forall i :: 0 < i < |es| ==> es[i] == es[1..][i - 1];
      last := if rest >= 0 then rest + 1 else if es[0].term == term then 0 else -1;
    }
  }

  /** The scan finds the first entry of the term and gives the index before it; 0 if there is none. */
  lemma {:induction false} BeforeFirstOfTermMeans(es: seq<Entry>, term: nat) returns (first: nat)
    requires forall i :: 0 <= i < |es| ==> es[i].index >= 1
    ensures first <= |es| && forall i :: 0 <= i < first ==> es[i].term != term
    ensures first == |es| ==> BeforeFirstOfTerm(es, term) == 0
    ensures first < |es| ==> es[first].term == term && BeforeFirstOfTerm(es, term) == es[first].index - 1
  {
    if es == [] || es[0].term == term {
      first := 0;
    } else {
      var rest := BeforeFirstOfTermMeans(es[1..], term);
      assert forall i :: 0 < i < |es| ==> es[i] == es[1..][i - 1];
      first := rest + 1;
    }
  }

  /** The term put in a refusal is that of the entry at the index exactly beyond twice the cut. */
  lemma RefusalMeans(l: RaftLog, index: nat)
    ensures index > l.LastIndex() ==> Refusal(l, index) == (l.LastIndex(), 0)
    ensures index <= l.LastIndex() && l.entries != [] ==>
              (Refusal(l, index).1 == l.TermAt(index) <==>
               index > 2 * l.snapIndex + 1 || l.TermAt(index) == l.snapTerm)
    ensures index <= l.LastIndex() && l.entries != [] && index <= 2 * l.snapIndex + 1 ==>
              Refusal(l, index).1 == l.snapTerm
    ensures index <= l.LastIndex() && l.entries != [] ==>
              Refusal(l, index).0 == BeforeFirstOfTerm(l.entries, Refusal(l, index).1)
    ensures l.entries == [] && index <= l.LastIndex() ==> Refusal(l, index) == (0, l.snapTerm)
  {
  }

  // ---------------------------------------------------------------- the leader hears back

  /** Whom a leader counts for an index: itself, the sender, and everyone on record for the index. */
  ghost function Counted(n: Node, sender: Id, index: nat): set<Id> {
    {n.id, sender} + set p | p in n.prs && n.prs[p].matched >= index
  }

  lemma TwoMore(s: set<Id>, a: Id, b: Id)
    requires a != b && a !in s && b !in s
    ensures |s + {a, b}| == |s| + 2 && |s + {a, b} - {a}| == |s| + 1
  {
    assert s + {a, b} - {a} == s + {b};
  }

  lemma CountedAre(n: Node, n1: Node, sender: Id, index: nat)
    requires n.WellFormed() && sender in n.prs
    requires n1 == n.(prs := n.prs[sender := Progress(index, index + 1)])
    ensures forall p :: p in n1.peers ==> p in n1.prs
    ensures var others := ReachedBy(n1, n1.peers, sender, index);
            && Counted(n, sender, index) == Elements(others) + {n.id, sender}
            && n.id !in others && sender !in others
  {
    ReachedByFacts(n1, n1.peers, sender, index);
    var others := ReachedBy(n1, n1.peers, sender, index);
    forall p ensures p in Counted(n, sender, index) <==> p in Elements(others) + {n.id, sender} {
    }
  }

  lemma CountedSize(n: Node, n1: Node, sender: Id, index: nat)
    requires n.WellFormed() && Distinct(n.peers) && sender in n.prs && sender != n.id
    requires n1 == n.(prs := n.prs[sender := Progress(index, index + 1)])
    ensures forall p :: p in n1.peers ==> p in n1.prs
    ensures var others := ReachedBy(n1, n1.peers, sender, index);
            && Counted(n, sender, index) == Elements(others) + {n.id, sender} && n.id !in others
            && |Counted(n, sender, index)| == 2 + |others| && |Counted(n, sender, index) - {n.id}| == 1 + |others|
            && |Elements(n.peers)| == |n.peers| && Counted(n, sender, index) <= Elements(n.peers)
  {
    CountedAre(n, n1, sender, index);
    ReachedByFacts(n1, n1.peers, sender, index);
    var others := ReachedBy(n1, n1.peers, sender, index);
    DistinctCardinality(others);
    DistinctCardinality(n.peers);
    TwoMore(Elements(others), n.id, sender);
  }

  /** The answer reports something new beyond the commit index, at an entry of the leader's term. */
  ghost predicate Countable(n: Node, m: Message) {
    && m.AppendResponse? && !m.reject && m.from in n.prs && m.index > n.prs[m.from].matched
    && m.index > n.log.committed
    && n.log.snapIndex < m.index <= n.log.LastIndex() && n.log.TermAt(m.index) >= n.term
  }

  /** Whom the answer makes the leader tell. */
  ghost function Told(n: Node, m: Message): set<Id> {
    if !m.AppendResponse? || m.reject || m.from !in n.prs || m.index <= n.prs[m.from].matched then {}
    else if m.index <= n.log.committed then {m.from}
    else if Wins(n, m) then Counted(n, m.from, m.index) - {n.id}
    else {}
  }

  ghost predicate IsUpdate(n: Node, to: Id, commit: nat, x: Message) {
    x == CommitUpdate(n.id, to, n.term, commit)
  }

  lemma UpdatesMean(n: Node, to: seq<Id>, commit: nat, p: Id, x: Message)
    requires IsUpdate(n, p, commit, x)
    ensures x in CommitUpdates(n, to, commit) <==> p in to
  {
    if p in to {
      var i :| 0 <= i < |to| && to[i] == p;
      assert CommitUpdates(n, to, commit)[i] == x;
    }
  }

  /** The answer finds its majority. */
  ghost predicate Wins(n: Node, m: Message) {
    Countable(n, m) && Majority(Counted(n, m.from, m.index), Elements(n.peers))
  }

  lemma WinsIff(n: Node, n1: Node, m: Message)
    requires n.WellFormed() && Distinct(n.peers) && m.AppendResponse? && m.from in n.prs && m.from != n.id
    requires n1 == n.(prs := n.prs[m.from := Progress(m.index, m.index + 1)])
    ensures forall p :: p in n1.peers ==> p in n1.prs
    ensures Wins(n, m) <==> Countable(n, m) && 2 + |ReachedBy(n1, n1.peers, m.from, m.index)| > |n.peers| / 2
  {
    CountedSize(n, n1, m.from, m.index);
  }

  /**
   The leader commits what a positive answer reports exactly when the peers it counts are a majority. The sender's
   progress moves up to what it reports, and an index beyond the log is a panic.
   */
  lemma AnswerMeans(n: Node, m: Message)
    requires n.WellFormed() && Distinct(n.peers)
    requires m.AppendResponse? && !m.reject && m.from in n.prs && m.from != n.id
    ensures n.role != Leader ==> Receive(n, m) == Stepped(n, [])
    ensures n.role == Leader ==>
            var o := Receive(n, m);
            && (o.Panicked? <==> m.index > n.prs[m.from].matched && m.index > n.log.committed &&
                                 !(n.log.snapIndex < m.index <= n.log.LastIndex()))
            && (o.Stepped? ==>
                  && o.node.log.committed == (if Wins(n, m) then m.index else n.log.committed)
                  && o.node.prs == (if m.index <= n.prs[m.from].matched then n.prs
                                    else n.prs[m.from := Progress(m.index, m.index + 1)])
                  && o.node == n.(prs := o.node.prs, log := n.log.(committed := o.node.log.committed)))
  {
    if m.index > n.prs[m.from].matched {
      WinsIff(n, n.(prs := n.prs[m.from := Progress(m.index, m.index + 1)]), m);
    }
  }

  /** Whom the code puts together for an answer, in order. */
  ghost function ToldInOrder(n: Node, n1: Node, m: Message): seq<Id>
    requires m.AppendResponse? && m.from in n.prs && forall p :: p in n1.peers ==> p in n1.prs
  {
    var others := ReachedBy(n1, n1.peers, m.from, m.index);
    if m.index <= n.prs[m.from].matched then []
    else if m.index <= n.log.committed then [m.from]
    else if Countable(n, m) && 2 + |others| > |n.peers| / 2 then [m.from] + others
    else []
  }

  lemma OutInOrder(n: Node, n1: Node, m: Message)
    requires n.WellFormed() && n.role == Leader && m.AppendResponse? && !m.reject && m.from in n.prs
    requires n1 == n.(prs := n.prs[m.from := Progress(m.index, m.index + 1)]) && Receive(n, m).Stepped?
    requires forall p :: p in n1.peers ==> p in n1.prs
    ensures Receive(n, m).out == CommitUpdates(n1, ToldInOrder(n, n1, m), m.index)
  {
  }

  lemma ToldMembers(n: Node, n1: Node, m: Message, p: Id)
    requires n.WellFormed() && Distinct(n.peers) && m.AppendResponse? && !m.reject && m.from in n.prs && m.from != n.id
    requires n1 == n.(prs := n.prs[m.from := Progress(m.index, m.index + 1)])
    ensures forall q :: q in n1.peers ==> q in n1.prs
    ensures p in ToldInOrder(n, n1, m) <==> p in Told(n, m)
  {
    WinsIff(n, n1, m);
    CountedSize(n, n1, m.from, m.index);
  }

  /** It tells exactly the peers it counted, if they are a majority; a peer that was behind is told alone. */
  lemma AnswerTells(n: Node, m: Message, p: Id)
    requires n.WellFormed() && Distinct(n.peers) && n.role == Leader
    requires m.AppendResponse? && !m.reject && m.from in n.prs && m.from != n.id
    requires Receive(n, m).Stepped?
    ensures CommitUpdate(n.id, p, n.term, m.index) in Receive(n, m).out <==> p in Told(n, m)
  {
    var n1 := n.(prs := n.prs[m.from := Progress(m.index, m.index + 1)]);
    ToldMembers(n, n1, m, p);
    OutInOrder(n, n1, m);
    UpdatesMean(n1, ToldInOrder(n, n1, m), m.index, p, CommitUpdate(n.id, p, n.term, m.index));
  }

  lemma ToldOnce(n: Node, n1: Node, m: Message)
    requires n.WellFormed() && Distinct(n.peers) && m.AppendResponse? && !m.reject && m.from in n.prs && m.from != n.id
    requires n1 == n.(prs := n.prs[m.from := Progress(m.index, m.index + 1)])
    ensures forall q :: q in n1.peers ==> q in n1.prs
    ensures |ToldInOrder(n, n1, m)| == |Told(n, m)|
  {
    WinsIff(n, n1, m);
    CountedSize(n, n1, m.from, m.index);
  }

  /** Nobody is told twice, and nothing else is sent. */
  lemma AnswerTellsOnce(n: Node, m: Message)
    requires n.WellFormed() && Distinct(n.peers) && n.role == Leader
    requires m.AppendResponse? && !m.reject && m.from in n.prs && m.from != n.id
    requires Receive(n, m).Stepped?
    ensures |Receive(n, m).out| == |Told(n, m)|
    ensures forall x :: x in Receive(n, m).out ==> x.CommitUpdate? && x == CommitUpdate(n.id, x.to, n.term, m.index)
  {
    var n1 := n.(prs := n.prs[m.from := Progress(m.index, m.index + 1)]);
    ToldOnce(n, n1, m);
    OutInOrder(n, n1, m);
  }

  /**
   A refusal moves only the sender's next index, and the leader ships from there: behind the last entry of the term
   that the refusal names, or behind the index it names if there is none.
   */
  lemma RefusalAnswerMeans(n: Node, m: Message, x: Message) returns (last: int)
    requires n.WellFormed() && n.role == Leader && TermsAscend(n.log.entries)
    requires m.AppendResponse? && m.reject && m.from in n.prs
    ensures var o := Receive(n, m);
            && o.Stepped?
            && -1 <= last < |n.log.entries|
            && (forall i :: last < i < |n.log.entries| ==> n.log.entries[i].term != m.conflictTerm)
            && (last >= 0 ==> n.log.entries[last].term == m.conflictTerm)
            && o.node == n.(prs := n.prs[m.from := o.node.prs[m.from]])
            && o.node.prs[m.from].matched == n.prs[m.from].matched
            && o.node.prs[m.from].next ==
               (if m.conflictTerm == 0 then Max(m.index, n.prs[m.from].matched) + 1
                else if last >= 0 then n.log.entries[last].index + 1
                else m.index + 1)
            && (x in o.out <==> IsShipment(o.node, x) && x.to == m.from)
  {
    last := AfterLastOfTermMeans(n.log.entries, m.conflictTerm);
    var o := Receive(n, m);
    SendAppendMeans(o.node, m.from, x);
  }
}
