/** What each Raft handler computes, as functions from a node state to a node state and outgoing messages. */
module RaftStep {
  import opened Common
  import opened RaftTypes

  function BecomeFollower(n: Node, term: nat, lead: Id): Node {
    n.(term := term, lead := lead, role := Follower, vote := NOBODY)
  }

  /** The node after a heartbeat from the leader of a term; a stale one is refused. */
  function HandleHeartbeat(n: Node, from: Id, term: nat): Node {
    if term < n.term then n else BecomeFollower(n, term, from)
  }

  // ---------------------------------------------------------------- proposing and shipping entries

  /** One proposed entry: stamped and appended, unless it is a second pending membership change. */
  function ProposeOne(n: Node, e: Entry): Node {
    var stamped := e.(term := n.term, index := n.log.LastIndex() + 1);
    if e.entryType == CONF_CHANGE && n.pendingConf != 0 then n
    else n.(log := n.log.(entries := n.log.entries + [stamped]),
            pendingConf := if e.entryType == CONF_CHANGE then stamped.index else n.pendingConf)
  }

  function ProposeAll(n: Node, es: seq<Entry>): Node {
    if es == [] then n else ProposeOne(ProposeAll(n, es[..|es| - 1]), es[|es| - 1])
  }

  function Propose(n: Node, es: seq<Entry>): Node {
    var n1 := ProposeAll(n, es);
    var last := n1.log.LastIndex();
    n1.(prs := n1.prs[n1.id := Progress(last, last + 1)],
        log := if |n1.peers| == 1 then n1.log.(committed := last) else n1.log)
  }

  /** The append sent to one peer: from its next index through the end of the log. */
  function SendAppend(n: Node, to: Id): seq<Message>
    requires to in n.prs
  {
    var next := n.prs[to].next;
    if next <= n.log.snapIndex || next > n.log.LastIndex() then []
    else [Append(n.id, to, n.term, n.log.TermAt(next - 1), next - 1, n.log.committed,
                 n.log.entries[next - n.log.snapIndex - 1..])]
  }

  function BroadcastTo(n: Node, to: seq<Id>): seq<Message>
    requires forall p :: p in to ==> p in n.prs
  {
    if to == [] then []
    else BroadcastTo(n, to[..|to| - 1]) +
         if to[|to| - 1] == n.id then [] else SendAppend(n, to[|to| - 1])
  }

  function Broadcast(n: Node): seq<Message>
    requires forall p :: p in n.peers ==> p in n.prs
  {
    BroadcastTo(n, n.peers)
  }

  // ---------------------------------------------------------------- elections

  const NOOP := Entry(0, 0, 0, [])

  function BecomeLeader(n: Node): Node {
    Propose(n.(role := Leader, lead := n.id), [NOOP])
  }

  lemma ProposeKeeps(n: Node, es: seq<Entry>)
    ensures var n1 := ProposeAll(n, es);
            n1 == n.(log := n.log.(entries := n1.log.entries), pendingConf := n1.pendingConf)
  {
    if es != [] {
      ProposeKeeps(n, es[..|es| - 1]);
    }
  }

  lemma {:induction false} ProposeAllFacts(n: Node, es: seq<Entry>)
    requires n.log.Numbered()
    ensures var l, l' := n.log, ProposeAll(n, es).log;
            && l.entries <= l'.entries
            && l' == l.(entries := l'.entries)
            && l'.Numbered()
            && (forall k :: |l.entries| <= k < |l'.entries| ==> l'.entries[k].term == n.term)
  {
    ProposeKeeps(n, es);
    if es != [] {
      ProposeAllFacts(n, es[..|es| - 1]);
      ProposeKeeps(n, es[..|es| - 1]);
    }
  }

  /** The new leader, or the leader with a proposal: only the log, its own progress and the commit index move. */
  lemma ProposeFacts(n: Node, es: seq<Entry>)
    requires n.WellFormed()
    ensures var n' := Propose(n, es);
            && n'.WellFormed()
            && n'.id == n.id && n'.peers == n.peers && n'.term == n.term && n'.role == n.role
            && n'.vote == n.vote && n'.voteReceived == n.voteReceived
            && n'.log.snapIndex == n.log.snapIndex && n'.log.snapTerm == n.log.snapTerm
            && n.log.entries <= n'.log.entries
            && (forall k :: |n.log.entries| <= k < |n'.log.entries| ==> n'.log.entries[k].term == n.term)
  {
    ProposeKeeps(n, es);
    ProposeAllFacts(n, es);
  }

  function RequestVotesTo(n: Node, to: seq<Id>): seq<Message> {
    if to == [] then []
    else RequestVotesTo(n, to[..|to| - 1]) +
         if to[|to| - 1] == n.id then []
         else [RequestVote(n.id, to[|to| - 1], n.term, n.log.LastTerm(), n.log.LastIndex())]
  }

  function BecomeCandidate(n: Node): Node {
    var n1 := n.(term := n.term + 1, voteReceived := 1, voteTotal := 1, vote := n.id, role := Candidate);
    if |n.peers| == 1 then BecomeLeader(n1) else n1
  }

  /** Start an election: from a timeout, a MsgHup or a MsgTimeoutNow. */
  function Campaign(n: Node): Outcome {
    var n1 := BecomeCandidate(n);
    Stepped(n1, RequestVotesTo(n1, n1.peers))
  }

  predicate UpToDate(logTerm: nat, index: nat, l: RaftLog) {
    logTerm > l.LastTerm() || (logTerm == l.LastTerm() && index >= l.LastIndex())
  }

  function HandleRequestVote(n: Node, m: Message): Outcome
    requires m.RequestVote?
  {
    if (n.term == m.term && n.role == Follower && (n.vote == NOBODY || n.vote == m.from)) || m.term > n.term then
      var f := BecomeFollower(n, m.term, NOBODY);
      if UpToDate(m.logTerm, m.index, n.log) then
        Stepped(f.(vote := m.from), [VoteResponse(n.id, m.from, m.term, false)])
      else
        Stepped(f, [VoteResponse(n.id, m.from, m.term, true)])
    else
      Stepped(n, [VoteResponse(n.id, m.from, n.term, true)])
  }

  function HandleVoteResponse(n: Node, m: Message): Outcome
    requires m.VoteResponse? && n.WellFormed()
  {
    if m.term == n.term then
      var n1 := n.(voteTotal := n.voteTotal + 1,
                   voteReceived := if m.reject then n.voteReceived else n.voteReceived + 1);
      if !m.reject && n1.voteReceived > |n.peers| / 2 then
        var l := BecomeLeader(n1);
        ProposeKeeps(n1.(role := Leader, lead := n1.id), [NOOP]);
        Stepped(l, Broadcast(l))
      else if n1.voteTotal == |n.peers| then
        Stepped(BecomeFollower(n1, n1.term, NOBODY), [])
      else
        Stepped(n1, [])
    else if m.term > n.term then
      Stepped(BecomeFollower(n, m.term, NOBODY), [])
    else
      Stepped(n, [])
  }

  function HandlePropose(n: Node, es: seq<Entry>): Outcome
    requires n.WellFormed()
  {
    var l := Propose(n, es);
    ProposeKeeps(n, es);
    Stepped(l, Broadcast(l))
  }

  // ---------------------------------------------------------------- the receiver of an append

  /** How many retained entries precede the shipped ones, if the log holds the message's previous entry. */
  function KeptPrefix(l: RaftLog, index: nat, logTerm: nat): Option<nat> {
    if index == l.snapIndex && logTerm == l.snapTerm then Some(0)
    else if l.snapIndex < index <= l.LastIndex() && l.entries[index - l.snapIndex - 1].term == logTerm
    then Some(index - l.snapIndex)
    else None
  }

  predicate SameSlot(a: Entry, b: Entry) {
    a.index == b.index && a.term == b.term
  }

  /** The first position at which two runs of entries differ in index or term; the shorter length if none. */
  function FirstConflict(a: seq<Entry>, b: seq<Entry>): (k: nat)
    ensures k <= |a| && k <= |b|
    ensures forall i :: 0 <= i < k ==> SameSlot(a[i], b[i])
    ensures k < |a| && k < |b| ==> !SameSlot(a[k], b[k])
  {
    if a == [] || b == [] || !SameSlot(a[0], b[0]) then 0
    else 1 + FirstConflict(a[1..], b[1..])
  }

  /** Keep the first `kept` entries and install the shipped ones, unless the log already goes on past them. */
  function Install(l: RaftLog, kept: nat, es: seq<Entry>): RaftLog
    requires kept <= |l.entries|
  {
    var dropped := l.entries[kept..];
    var k := FirstConflict(dropped, es);
    var conflict := k < |dropped| && k < |es|;
    if es == [] || (|dropped| > |es| && !conflict) then l
    else l.(entries := l.entries[..kept] + es,
            stabled := if conflict && dropped[k].index >= 1 then Min(l.stabled, dropped[k].index - 1) else l.stabled)
  }

  /** The index and conflict term put in a refusal. */
  function Refusal(l: RaftLog, index: nat): (nat, nat) {
    if index > l.LastIndex() then (l.LastIndex(), 0)
    else if l.entries == [] then (0, l.snapTerm)
    else
      // the source compares a slice position with the snapshot's log index here
      var pos := if index <= l.snapIndex then -1 else index - l.snapIndex - 1;
      var term := if pos <= l.snapIndex then l.snapTerm else l.entries[pos].term;
      (BeforeFirstOfTerm(l.entries, term), term)
  }

  /** The index just before the first entry of the given term, 0 if there is none. */
  function BeforeFirstOfTerm(es: seq<Entry>, term: nat): nat {
    if es == [] then 0
    else if es[0].term == term then (if es[0].index == 0 then 0 else es[0].index - 1)
    else BeforeFirstOfTerm(es[1..], term)
  }

  function LastShipped(m: Message): nat
    requires m.Append?
  {
    m.index + |m.entries|
  }

  function Learn(l: RaftLog, commit: nat, lastShipped: nat): RaftLog {
    if commit > l.committed then l.(committed := Max(Min(commit, lastShipped), l.committed)) else l
  }

  function HandleAppend(n: Node, m: Message): Outcome
    requires m.Append?
  {
    if m.term < n.term then
      Stepped(n, [AppendResponse(n.id, m.from, n.term, true, 0, 0)])
    else
      var n1 := if n.role != Follower then BecomeFollower(n, m.term, m.from)
                else n.(term := m.term, lead := m.from);
      match KeptPrefix(n.log, m.index, m.logTerm)
      case None =>
        var (index, term) := Refusal(n.log, m.index);
        Stepped(n1, [AppendResponse(n.id, m.from, m.term, true, index, term)])
      case Some(kept) =>
        var l := Install(n.log, kept, m.entries);
        var l1 := Learn(l, m.commit, LastShipped(m));
        if m.commit > l.committed && l1.committed > l1.LastIndex() then Panicked
        else Stepped(n1.(log := l1), [AppendResponse(n.id, m.from, m.term, false, l1.LastIndex(), 0)])
  }

  function HandleCommitUpdate(n: Node, m: Message): Outcome
    requires m.CommitUpdate?
  {
    if m.commit > n.log.LastIndex() then Panicked
    else Stepped(n.(log := n.log.(committed := Max(n.log.committed, m.commit))), [])
  }

  // ---------------------------------------------------------------- the leader hears back

  /** The peers other than the sender and the leader whose match index reaches `index`, in peer order. */
  function ReachedBy(n: Node, to: seq<Id>, sender: Id, index: nat): seq<Id>
    requires forall p :: p in to ==> p in n.prs
  {
    if to == [] then []
    else
      var p := to[|to| - 1];
      ReachedBy(n, to[..|to| - 1], sender, index) +
      if p == sender || p == n.id || n.prs[p].matched < index then [] else [p]
  }

  lemma {:induction false} ReachedByFacts(n: Node, to: seq<Id>, sender: Id, index: nat)
    requires forall p :: p in to ==> p in n.prs
    ensures forall p :: p in ReachedBy(n, to, sender, index) <==>
                          p in to && p != sender && p != n.id && n.prs[p].matched >= index
    ensures Distinct(to) ==> Distinct(ReachedBy(n, to, sender, index))
  {
    if to != [] {
      ReachedByFacts(n, to[..|to| - 1], sender, index);
      assert to == to[..|to| - 1] + [to[|to| - 1]];
    }
  }

  function CommitUpdates(n: Node, to: seq<Id>, commit: nat): seq<Message> {
    seq(|to|, i requires 0 <= i < |to| => CommitUpdate(n.id, to[i], n.term, commit))
  }

  /** The index after the last entry of the conflicting term, scanning until a larger term is met. */
  function AfterLastOfTerm(es: seq<Entry>, term: nat): Option<nat> {
    if es == [] || es[0].term > term then None
    else
      match AfterLastOfTerm(es[1..], term)
      case Some(next) => Some(next)
      case None => if es[0].term == term then Some(es[0].index + 1) else None
  }

  lemma {:induction false} AfterLastOfTermPositive(es: seq<Entry>, term: nat)
    ensures AfterLastOfTerm(es, term).Some? ==> AfterLastOfTerm(es, term).value >= 1
  {
    if es != [] { AfterLastOfTermPositive(es[1..], term); }
  }

  function NextAfterRefusal(n: Node, m: Message): nat
    requires m.AppendResponse? && m.from in n.prs
  {
    if m.conflictTerm != 0 then
      match AfterLastOfTerm(n.log.entries, m.conflictTerm)
      case Some(next) => next
      case None => m.index + 1
    else Max(m.index + 1, n.prs[m.from].matched + 1)
  }

  function HandleAppendResponse(n: Node, m: Message): Outcome
    requires m.AppendResponse? && n.WellFormed()
  {
    if m.from !in n.prs then Panicked
    else if m.reject then
      var n1 := n.(prs := n.prs[m.from := n.prs[m.from].(next := NextAfterRefusal(n, m))]);
      Stepped(n1, SendAppend(n1, m.from))
    else if m.index <= n.prs[m.from].matched then Stepped(n, [])
    else
      var n1 := n.(prs := n.prs[m.from := Progress(m.index, m.index + 1)]);
      if m.index <= n.log.committed then Stepped(n1, CommitUpdates(n1, [m.from], m.index))
      else if m.index <= n.log.snapIndex || m.index > n.log.LastIndex() then Panicked
      else if n.log.TermAt(m.index) < n.term then Stepped(n1, [])
      else
        var others := ReachedBy(n1, n1.peers, m.from, m.index);
        if 2 + |others| > |n.peers| / 2 then
          Stepped(n1.(log := n1.log.(committed := m.index)), CommitUpdates(n1, [m.from] + others, m.index))
        else Stepped(n1, [])
  }

  // ---------------------------------------------------------------- dispatch by role

  /** Step: which handler runs for a message, by the node's role; the rest is ignored. */
  function Receive(n: Node, m: Message): Outcome
    requires n.WellFormed()
  {
    match m
    case RequestVote(_, _, _, _, _) => HandleRequestVote(n, m)
    case VoteResponse(_, _, _, _) => if n.role == Candidate then HandleVoteResponse(n, m) else Stepped(n, [])
    case Append(_, _, _, _, _, _, _) => HandleAppend(n, m)
    case CommitUpdate(_, _, _, _) => HandleCommitUpdate(n, m)
    case AppendResponse(_, _, _, _, _, _) => if n.role == Leader then HandleAppendResponse(n, m) else Stepped(n, [])
  }
}
