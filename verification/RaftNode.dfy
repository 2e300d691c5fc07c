/**
 The Raft node as the source writes it: an object whose handlers update its fields and its log in place and
 queue messages. Every handler is proved to do what the corresponding function of RaftStep computes.
 */
module RaftNode {
  import opened Common
  import opened RaftTypes
  import opened RaftStep
  import LogLife

  // ---------------------------------------------------------------- facts about the specification functions

  lemma {:induction false} ProposeAllAppend(n: Node, es: seq<Entry>, e: Entry)
    ensures ProposeAll(n, es + [e]) == ProposeOne(ProposeAll(n, es), e)
  {
    assert (es + [e])[..|es|] == es;
  }

  lemma {:induction false} RequestVotesAppend(n: Node, to: seq<Id>, p: Id)
    ensures RequestVotesTo(n, to + [p]) == RequestVotesTo(n, to) +
              if p == n.id then [] else [RequestVote(n.id, p, n.term, n.log.LastTerm(), n.log.LastIndex())]
  {
    assert (to + [p])[..|to|] == to;
  }

  lemma {:induction false} BroadcastAppend(n: Node, to: seq<Id>, p: Id)
    requires forall q :: q in to + [p] ==> q in n.prs
    ensures p in n.prs && (forall q :: q in to ==> q in n.prs)
    ensures BroadcastTo(n, to + [p]) == BroadcastTo(n, to) + if p == n.id then [] else SendAppend(n, p)
  {
    assert p in to + [p];
    assert (to + [p])[..|to|] == to;
  }

  lemma {:induction false} ReachedByAppend(n: Node, to: seq<Id>, p: Id, sender: Id, index: nat)
    requires forall q :: q in to + [p] ==> q in n.prs
    ensures p in n.prs && (forall q :: q in to ==> q in n.prs)
    ensures ReachedBy(n, to + [p], sender, index) == ReachedBy(n, to, sender, index) +
              if p == sender || p == n.id || n.prs[p].matched < index then [] else [p]
  {
    assert p in to + [p];
    assert (to + [p])[..|to|] == to;
  }

  /** The first conflict is wherever a scan from the front first finds one. */
  lemma {:induction false} FirstConflictFound(a: seq<Entry>, b: seq<Entry>, k: nat)
    requires k <= |a| && k <= |b|
    requires forall i :: 0 <= i < k ==> SameSlot(a[i], b[i])
    requires k == |a| || k == |b| || !SameSlot(a[k], b[k])
    ensures FirstConflict(a, b) == k
  {
  }

  lemma {:induction false} BeforeFirstSkips(es: seq<Entry>, k: nat, term: nat)
    requires k <= |es| && forall i :: 0 <= i < k ==> es[i].term != term
    ensures BeforeFirstOfTerm(es, term) == BeforeFirstOfTerm(es[k..], term)
  {
    if k > 0 {
      BeforeFirstSkips(es[1..], k - 1, term);
      assert es[1..][k - 1..] == es[k..];
    }
  }

  // ---------------------------------------------------------------- the log object

  /** RaftLog: the entries after the last snapshot, with the commit, apply and stable marks. */
  class LogStore {
    var snapIndex: nat
    var snapTerm: nat
    var entries: seq<Entry>
    var committed: nat
    var applied: nat
    var stabled: nat

    constructor ()
      ensures View() == RaftLog(0, 0, [], 0, 0, 0)
    {
      snapIndex, snapTerm, entries, committed, applied, stabled := 0, 0, [], 0, 0, 0;
    }

    function View(): RaftLog
      reads this
    {
      RaftLog(snapIndex, snapTerm, entries, committed, applied, stabled)
    }

    method LastIndex() returns (last: nat)
      requires View().Numbered()
      ensures last == View().LastIndex()
    {
      if |entries| == 0 { return snapIndex; }
      return entries[|entries| - 1].index;
    }

    /** The position of a log index among the retained entries, -1 at or below the snapshot; `None` is a panic. */
    method RealIdx(logicalIdx: nat) returns (pos: Option<int>)
      ensures pos == if logicalIdx <= snapIndex then Some(-1)
                     else if logicalIdx <= View().LastIndex() then Some(logicalIdx - snapIndex - 1) else None
    {
      if logicalIdx <= snapIndex { return Some(-1); }
      var realIdx := logicalIdx - snapIndex - 1;
      if realIdx >= |entries| { return None; }
      return Some(realIdx);
    }

    /** The term at an index, the snapshot's at or below it; `None` is a panic beyond the last index. */
    method Term(i: nat) returns (term: Option<nat>)
      ensures term == if i <= View().LastIndex() then Some(View().TermAt(i)) else None
    {
      var realIdx := RealIdx(i);
      if realIdx == None { return None; }
      if realIdx.value == -1 { return Some(snapTerm); }
      return Some(entries[realIdx.value].term);
    }

    method AppendEntry(e: Entry)
      modifies this`entries
      ensures entries == old(entries) + [e]
    {
      entries := entries + [e];
    }

    method UnstableEntries() returns (ents: Option<seq<Entry>>)
      requires View().Numbered()
      ensures ents == if stabled <= View().LastIndex() then Some(LogLife.Unstable(View())) else None
    {
      var start := RealIdx(stabled);
      if start == None { return None; }
      var last := LastIndex();
      var end := RealIdx(last);
      var found := [];
      var idx := start.value + 1;
      while idx <= end.value
        invariant 0 <= start.value + 1 <= idx <= end.value + 1 == |entries|
        invariant found == entries[start.value + 1..idx]
      {
        found := found + [entries[idx]];
        idx := idx + 1;
      }
      assert entries[start.value + 1..idx] == entries[start.value + 1..];
      return Some(found);
    }

    method NextEnts() returns (ents: Option<seq<Entry>>)
      requires View().Numbered()
      ensures ents == if applied <= View().LastIndex() && committed <= View().LastIndex()
                      then Some(LogLife.NextEnts(View())) else None
    {
      var appliedIdx := RealIdx(applied);
      var commitIdx := RealIdx(committed);
      if appliedIdx == None || commitIdx == None { return None; }
      var found := [];
      for idx := appliedIdx.value + 1 to Max(appliedIdx.value + 1, commitIdx.value + 1)
        invariant appliedIdx.value < commitIdx.value ==> found == entries[appliedIdx.value + 1..idx]
        invariant appliedIdx.value >= commitIdx.value ==> found == []
      {
        found := found + [entries[idx]];
      }
      return Some(found);
    }

    /** Drop what the storage has cut off; false is a panic. */
    method MaybeCompact(storageFirstIdx: nat) returns (ok: bool)
      requires View().Numbered() && storageFirstIdx >= 1
      modifies this
      ensures ok <==> LogLife.MaybeCompact(old(View()), storageFirstIdx - 1).Some?
      ensures ok ==> Some(View()) == LogLife.MaybeCompact(old(View()), storageFirstIdx - 1) && View().Numbered()
    {
      if snapIndex >= storageFirstIdx - 1 { return true; }
      var term := Term(storageFirstIdx - 1);
      var from := RealIdx(storageFirstIdx);
      if from == None { return false; }
      snapTerm := term.value;
      entries := entries[from.value..];
      snapIndex := storageFirstIdx - 1;
      return true;
    }

    /** Whether there are unstable entries to hand out; a stable mark below the snapshot also counts. */
    method HasUnstableEnts() returns (b: bool)
      requires View().Numbered()
      ensures stabled <= View().LastIndex() ==> (b <==> LogLife.Unstable(View()) != [] || stabled < snapIndex)
      ensures stabled > View().LastIndex() ==> !b
    {
      var last := LastIndex();
      return stabled < last;
    }

    method HasNextEnts() returns (b: Option<bool>)
      ensures b == if applied <= View().LastIndex() && committed <= View().LastIndex()
                   then Some(LogLife.NextEnts(View()) != []) else None
    {
      var appliedIdx := RealIdx(applied);
      var commitIdx := RealIdx(committed);
      if appliedIdx == None || commitIdx == None { return None; }
      return Some(appliedIdx.value < commitIdx.value);
    }
  }

  // ---------------------------------------------------------------- the node object

  class Raft {
    const id: Id
    const peers: seq<Id>
    const raftLog: LogStore
    var term: nat
    var vote: Id
    var voteTotal: nat
    var voteReceived: nat
    var role: Role
    var lead: Id
    var prs: map<Id, Progress>
    var pendingConf: nat
    var msgs: seq<Message>

    constructor (id: Id, peers: seq<Id>)
      requires id in peers
      ensures Valid() && fresh(raftLog) && msgs == []
      ensures View() == Node(id, peers, 0, NOBODY, 0, 0, Follower, NOBODY,
                             map p | p in peers :: Progress(0, 1), RaftLog(0, 0, [], 0, 0, 0), 0)
    {
      this.id, this.peers := id, peers;
      raftLog := new LogStore();
      term, vote, voteTotal, voteReceived, role, lead := 0, NOBODY, 0, 0, Follower, NOBODY;
      prs := map p | p in peers :: Progress(0, 1);
      pendingConf, msgs := 0, [];
    }

    function View(): Node
      reads this, raftLog
    {
      Node(id, peers, term, vote, voteTotal, voteReceived, role, lead, prs, raftLog.View(), pendingConf)
    }

    ghost predicate Valid()
      reads this, raftLog
    {
      View().WellFormed()
    }

    // ------------------------------------------------------------ roles

    method BecomeFollower(term: nat, lead: Id)
      modifies this
      ensures View() == RaftStep.BecomeFollower(old(View()), term, lead) && msgs == old(msgs)
    {
      this.term, this.lead, role, vote := term, lead, Follower, NOBODY;
    }

    /** A heartbeat: refused if it is stale, else the sender is followed and told the last index. */
    method HandleHeartbeat(from: Id, term: nat) returns (reject: bool, replyTerm: nat, replyIndex: nat)
      requires raftLog.View().Numbered()
      modifies this
      ensures View() == RaftStep.HandleHeartbeat(old(View()), from, term) && msgs == old(msgs)
      ensures reject <==> term < old(this.term)
      ensures reject ==> View() == old(View()) && replyTerm == this.term
      ensures !reject ==> this.term == term && lead == from && replyTerm == 0 && replyIndex == View().log.LastIndex()
    {
      reject, replyTerm, replyIndex := false, 0, 0;
      if term < this.term {
        reject, replyTerm := true, this.term;
      } else {
        BecomeFollower(term, from);
        replyIndex := raftLog.LastIndex();
      }
    }

    /** Stamp an entry and append it, unless it is a second pending membership change. */
    method AppendProposal(e: Entry)
      requires raftLog.View().Numbered()
      modifies this`pendingConf, raftLog`entries
      ensures View() == ProposeOne(old(View()), e) && raftLog.View().Numbered()
    {
      var last := raftLog.LastIndex();
      var entry := e.(term := term, index := last + 1);
      if entry.entryType == CONF_CHANGE {
        if pendingConf != 0 { return; }
        pendingConf := entry.index;
      }
      raftLog.AppendEntry(entry);
    }

    method AppendProposals(es: seq<Entry>)
      requires raftLog.View().Numbered()
      modifies this`pendingConf, raftLog`entries
      ensures View() == ProposeAll(old(View()), es) && raftLog.View().Numbered()
    {
      ghost var before := View();
      for i := 0 to |es|
        invariant View() == ProposeAll(before, es[..i]) && raftLog.View().Numbered()
      {
        ProposeAllAppend(before, es[..i], es[i]);
        assert es[..i] + [es[i]] == es[..i + 1];
        AppendProposal(es[i]);
      }
      assert es[..|es|] == es;
    }

    method HandleMsgPropose(es: seq<Entry>)
      requires Valid()
      modifies this, raftLog
      ensures Valid() && View() == Propose(old(View()), es) && msgs == old(msgs)
    {
      ProposeFacts(View(), es);
      AppendProposals(es);
      var last := raftLog.LastIndex();
      prs := prs[id := Progress(last, last + 1)];
      if |peers| == 1 { raftLog.committed := last; }
    }

    method SendAppend(to: Id)
      requires Valid() && to in prs
      modifies this`msgs
      ensures msgs == old(msgs) + RaftStep.SendAppend(View(), to)
    {
      var lastIdx := raftLog.LastIndex();
      var nextIdx := prs[to].next;
      if nextIdx <= raftLog.snapIndex || nextIdx > lastIdx { return; }
      var entries := [];
      var logicalIdx := nextIdx;
      ghost var from := nextIdx - raftLog.snapIndex - 1;
      while logicalIdx <= lastIdx
        invariant nextIdx <= logicalIdx <= lastIdx + 1 && msgs == old(msgs)
        invariant entries == raftLog.entries[from..logicalIdx - raftLog.snapIndex - 1]
      {
        var pos := raftLog.RealIdx(logicalIdx);
        entries := entries + [raftLog.entries[pos.value]];
        logicalIdx := logicalIdx + 1;
      }
      assert raftLog.entries[from..|raftLog.entries|] == raftLog.entries[from..];
      var logTerm := raftLog.Term(nextIdx - 1);
      msgs := msgs + [Append(id, to, term, logTerm.value, nextIdx - 1, raftLog.committed, entries)];
    }

    method BroadCastAE()
      requires Valid()
      modifies this`msgs
      ensures msgs == old(msgs) + Broadcast(View())
    {
      ghost var n := View();
      for i := 0 to |peers|
        invariant msgs == old(msgs) + BroadcastTo(n, peers[..i])
      {
        BroadcastAppend(n, peers[..i], peers[i]);
        assert peers[..i] + [peers[i]] == peers[..i + 1];
        if peers[i] == id { continue; }
        SendAppend(peers[i]);
      }
      assert peers[..|peers|] == peers;
    }

    method BecomeLeader()
      requires Valid()
      modifies this, raftLog
      ensures Valid() && View() == RaftStep.BecomeLeader(old(View()))
      ensures msgs == old(msgs) + Broadcast(View())
    {
      role, lead := Leader, id;
      HandleMsgPropose([NOOP]);
      BroadCastAE();
    }

    method RequestVotes()
      requires Valid()
      modifies this`msgs
      ensures msgs == old(msgs) + RequestVotesTo(View(), peers)
    {
      ghost var n := View();
      for i := 0 to |peers|
        invariant msgs == old(msgs) + RequestVotesTo(n, peers[..i])
      {
        RequestVotesAppend(n, peers[..i], peers[i]);
        assert peers[..i] + [peers[i]] == peers[..i + 1];
        if peers[i] == id { continue; }
        var lastIdx := raftLog.LastIndex();
        var lastTerm := raftLog.Term(lastIdx);
        msgs := msgs + [RequestVote(id, peers[i], term, lastTerm.value, lastIdx)];
      }
      assert peers[..|peers|] == peers;
    }

    method BecomeCandidate()
      requires Valid()
      modifies this, raftLog
      ensures Valid() && View() == RaftStep.BecomeCandidate(old(View()))
      ensures msgs == old(msgs)
    {
      term, voteReceived, voteTotal, vote, role := term + 1, 1, 1, id, Candidate;
      if |peers| == 1 {
        ghost var n := View();
        BecomeLeader();
        ProposeKeeps(n.(role := Leader, lead := n.id), [NOOP]);
        NobodyToTell(View());
      }
    }

    /** An election timeout, or a MsgHup while not leading. */
    method Hup()
      requires Valid()
      modifies this, raftLog
      ensures Valid() && old(msgs) <= msgs
      ensures Stepped(View(), msgs[|old(msgs)|..]) == Campaign(old(View()))
    {
      BecomeCandidate();
      RequestVotes();
    }

    // ------------------------------------------------------------ elections

    method HandleVoteRequest(m: Message)
      requires Valid() && m.RequestVote?
      modifies this
      ensures Valid() && old(msgs) <= msgs
      ensures Stepped(View(), msgs[|old(msgs)|..]) == HandleRequestVote(old(View()), m)
    {
      var reject := true;
      if (term == m.term && role == Follower && (vote == NOBODY || vote == m.from)) || m.term > term {
        var lastIndex := raftLog.LastIndex();
        var lastTerm := raftLog.Term(lastIndex);
        BecomeFollower(m.term, NOBODY);
        if m.logTerm > lastTerm.value || (m.logTerm == lastTerm.value && m.index >= lastIndex) {
          vote := m.from;
          reject := false;
        }
      }
      msgs := msgs + [VoteResponse(id, m.from, term, reject)];
    }

    method HandleVoteResponse(m: Message)
      requires Valid() && m.VoteResponse?
      modifies this, raftLog
      ensures Valid() && old(msgs) <= msgs
      ensures Stepped(View(), msgs[|old(msgs)|..]) == RaftStep.HandleVoteResponse(old(View()), m)
    {
      if m.term == term {
        voteTotal := voteTotal + 1;
        if !m.reject {
          voteReceived := voteReceived + 1;
          if voteReceived > |peers| / 2 {
            BecomeLeader();
            return;
          }
        }
        if voteTotal == |peers| { BecomeFollower(term, NOBODY); }
      } else if m.term > term {
        term := m.term;
        BecomeFollower(term, NOBODY);
      }
    }

    // ------------------------------------------------------------ receiving appends

    /** Scan for the message's previous entry and cut the log behind it; the entries cut off are returned. */
    method CutAfter(index: nat, logTerm: nat) returns (found: bool, dropped: seq<Entry>)
      requires raftLog.View().Numbered()
      modifies raftLog`entries
      ensures found <==> KeptPrefix(old(raftLog.View()), index, logTerm).Some?
      ensures found ==> var kept := KeptPrefix(old(raftLog.View()), index, logTerm).value;
                        && kept <= |old(raftLog.entries)|
                        && raftLog.entries == old(raftLog.entries)[..kept] && dropped == old(raftLog.entries)[kept..]
      ensures !found ==> raftLog.entries == old(raftLog.entries)
    {
      found, dropped := false, [];
      if index == raftLog.snapIndex && logTerm == raftLog.snapTerm {
        dropped := raftLog.entries;
        raftLog.entries := [];
        found := true;
      } else {
        var i := 0;
        ghost var before := raftLog.entries;
        while i < |raftLog.entries|
          invariant 0 <= i <= |raftLog.entries|
          invariant !found ==> raftLog.entries == before &&
                               forall j :: 0 <= j < i ==> !(before[j].index == index && before[j].term == logTerm)
          invariant found ==> 0 < i <= |before| && before[i - 1].index == index && before[i - 1].term == logTerm &&
                              raftLog.entries == before[..i] && dropped == before[i..]
          decreases |before| - i
        {
          if raftLog.entries[i].index == index && raftLog.entries[i].term == logTerm {
            found := true;
            dropped := raftLog.entries[i + 1..];
            raftLog.entries := raftLog.entries[..i + 1];
          }
          i := i + 1;
        }
        if !found && raftLog.snapIndex < index <= raftLog.View().LastIndex() {
          assert before[index - raftLog.snapIndex - 1].index == index;
        }
      }
    }

    /** What a refusal reports. */
    method ConflictHint(index: nat) returns (replyIndex: nat, conflictTerm: nat)
      requires raftLog.View().Numbered()
      ensures (replyIndex, conflictTerm) == Refusal(raftLog.View(), index)
    {
      var last := raftLog.LastIndex();
      if index > last { return last, 0; }
      if |raftLog.entries| == 0 { return 0, raftLog.snapTerm; }
      var pos := raftLog.RealIdx(index);
      var at := if raftLog.snapIndex > pos.value then raftLog.snapIndex else pos.value;
      if at == raftLog.snapIndex { conflictTerm := raftLog.snapTerm; }
      else { conflictTerm := raftLog.entries[at].term; }
      replyIndex := 0;
      for i := 0 to |raftLog.entries|
        invariant replyIndex == 0
        invariant forall j :: 0 <= j < i ==> raftLog.entries[j].term != conflictTerm
      {
        if raftLog.entries[i].term == conflictTerm {
          BeforeFirstSkips(raftLog.entries, i, conflictTerm);
          return raftLog.entries[i].index - 1, conflictTerm;
        }
      }
      BeforeFirstSkips(raftLog.entries, |raftLog.entries|, conflictTerm);
    }

    /** The first position at which the dropped and the shipped entries differ. */
    static method FindConflict(dropped: seq<Entry>, es: seq<Entry>) returns (i: nat)
      ensures i == FirstConflict(dropped, es)
    {
      i := 0;
      while i < Min(|dropped|, |es|)
        invariant i <= Min(|dropped|, |es|)
        invariant forall j :: 0 <= j < i ==> SameSlot(dropped[j], es[j])
      {
        if dropped[i].index != es[i].index || dropped[i].term != es[i].term { break; }
        i := i + 1;
      }
      FirstConflictFound(dropped, es, i);
    }

    method AppendAll(es: seq<Entry>)
      modifies raftLog`entries
      ensures raftLog.entries == old(raftLog.entries) + es
    {
      for j := 0 to |es|
        invariant raftLog.entries == old(raftLog.entries) + es[..j]
      {
        raftLog.AppendEntry(es[j]);
      }
    }

    /** Put the shipped entries behind the kept ones, or put the dropped ones back if they already go further. */
    method InstallEntries(ghost kept: nat, dropped: seq<Entry>, es: seq<Entry>, ghost before: RaftLog)
      requires kept <= |before.entries| && raftLog.View() == before.(entries := before.entries[..kept])
      requires before.Numbered() && dropped == before.entries[kept..]
      modifies raftLog`entries, raftLog`stabled
      ensures raftLog.View() == Install(before, kept, es)
    {
      assert before.entries[..kept] + dropped == before.entries;
      if |es| > 0 {
        var subset := |dropped| > |es|;
        var i := FindConflict(dropped, es);
        if i < Min(|dropped|, |es|) {
          subset := false;
          raftLog.stabled := Min(raftLog.stabled, dropped[i].index - 1);
        }
        if subset { AppendAll(dropped); } else { AppendAll(es); }
      } else {
        AppendAll(dropped);
      }
    }

    /** Move the commit index to the leader's, no further than the last shipped entry; true is a panic. */
    method UpdateCommit(m: Message) returns (panicked: bool)
      requires m.Append? && NumberedFrom(m.entries, m.index + 1) && raftLog.View().Numbered()
      modifies raftLog`committed
      ensures raftLog.View() == Learn(old(raftLog.View()), m.commit, LastShipped(m))
      ensures panicked <==> m.commit > old(raftLog.committed) && raftLog.committed > raftLog.View().LastIndex()
    {
      panicked := false;
      var lastNewEntIndex := m.index;
      if |m.entries| > 0 { lastNewEntIndex := m.entries[|m.entries| - 1].index; }
      if m.commit > raftLog.committed {
        raftLog.committed := Max(Min(m.commit, lastNewEntIndex), raftLog.committed);
        var last := raftLog.LastIndex();
        if raftLog.committed > last { return true; }
      }
    }

    lemma InstallNumbered(l: RaftLog, kept: nat, es: seq<Entry>)
      requires l.Numbered() && kept <= |l.entries| && NumberedFrom(es, l.snapIndex + kept + 1)
      ensures Install(l, kept, es).Numbered()
    {
    }

    /** The receiver's work on the log: what it keeps, what it installs and what it reports back. */
    method MergeEntries(m: Message) returns (found: bool, panicked: bool, index: nat, conflictTerm: nat)
      requires m.Append? && NumberedFrom(m.entries, m.index + 1) && raftLog.View().Numbered()
      modifies raftLog
      ensures found <==> KeptPrefix(old(raftLog.View()), m.index, m.logTerm).Some?
      ensures !found ==> !panicked && raftLog.View() == old(raftLog.View()) &&
                         (index, conflictTerm) == Refusal(raftLog.View(), m.index)
      ensures found ==> var kept := KeptPrefix(old(raftLog.View()), m.index, m.logTerm).value;
                        && kept <= |old(raftLog.entries)|
                        && (var l := Install(old(raftLog.View()), kept, m.entries);
                            && raftLog.View() == Learn(l, m.commit, LastShipped(m))
                            && raftLog.View().Numbered()
                            && (panicked <==> m.commit > l.committed && raftLog.committed > raftLog.View().LastIndex())
                            && index == raftLog.View().LastIndex() && conflictTerm == 0)
    {
      ghost var before := raftLog.View();
      var dropped;
      found, dropped := CutAfter(m.index, m.logTerm);
      if !found {
        panicked := false;
        index, conflictTerm := ConflictHint(m.index);
        return;
      }
      ghost var kept := |raftLog.entries|;
      InstallNumbered(before, kept, m.entries);
      InstallEntries(kept, dropped, m.entries, before);
      panicked := UpdateCommit(m);
      conflictTerm := 0;
      index := raftLog.LastIndex();
    }

    method HandleAppendEntries(m: Message) returns (panicked: bool)
      requires Valid() && m.Append? && NumberedFrom(m.entries, m.index + 1)
      modifies this, raftLog
      ensures panicked <==> HandleAppend(old(View()), m).Panicked?
      ensures !panicked ==> Valid() && old(msgs) <= msgs
      ensures !panicked ==> Stepped(View(), msgs[|old(msgs)|..]) == HandleAppend(old(View()), m)
    {
      if m.term < term {
        msgs := msgs + [AppendResponse(id, m.from, term, true, 0, 0)];
        return false;
      }
      term, lead := m.term, m.from;
      if role != Follower { BecomeFollower(m.term, m.from); }
      var found, index, conflictTerm;
      found, panicked, index, conflictTerm := MergeEntries(m);
      msgs := msgs + [AppendResponse(id, m.from, m.term, !found, index, conflictTerm)];
    }

    /** An append whose CommitUse flag is set. */
    method HandleCommitUse(m: Message) returns (panicked: bool)
      requires Valid() && m.CommitUpdate?
      modifies raftLog`committed
      ensures panicked <==> HandleCommitUpdate(old(View()), m).Panicked?
      ensures !panicked ==> Valid() && Stepped(View(), []) == HandleCommitUpdate(old(View()), m)
    {
      var last := raftLog.LastIndex();
      if m.commit > last { return true; }
      raftLog.committed := Max(raftLog.committed, m.commit);
      return false;
    }

    // ------------------------------------------------------------ hearing back

    /** The peers counted with the sender of a positive response, in peer order. */
    method CountReached(sender: Id, index: nat) returns (others: seq<Id>)
      requires Valid()
      ensures others == ReachedBy(View(), peers, sender, index)
    {
      ghost var n := View();
      others := [];
      for i := 0 to |peers|
        invariant others == ReachedBy(n, peers[..i], sender, index)
      {
        ReachedByAppend(n, peers[..i], peers[i], sender, index);
        assert peers[..i] + [peers[i]] == peers[..i + 1];
        if peers[i] == sender || peers[i] == id { continue; }
        if prs[peers[i]].matched >= index { others := others + [peers[i]]; }
      }
      assert peers[..|peers|] == peers;
    }

    method TellCommit(to: seq<Id>, commit: nat)
      modifies this`msgs
      ensures msgs == old(msgs) + CommitUpdates(View(), to, commit)
    {
      for i := 0 to |to|
        invariant msgs == old(msgs) + CommitUpdates(View(), to, commit)[..i]
      {
        msgs := msgs + [CommitUpdate(id, to[i], term, commit)];
      }
    }

    /** Scan the log for the last entry of the conflicting term. */
    method SearchConflict(conflictTerm: nat) returns (next: Option<nat>)
      ensures next == AfterLastOfTerm(raftLog.entries, conflictTerm)
    {
      var es := raftLog.entries;
      var searched, nextIdx := false, 0;
      var i := 0;
      while i < |es|
        invariant 0 <= i <= |es|
        invariant AfterLastOfTerm(es, conflictTerm) ==
                    match AfterLastOfTerm(es[i..], conflictTerm)
                    case Some(x) => Some(x)
                    case None => if searched then Some(nextIdx) else None
      {
        assert es[i..][1..] == es[i + 1..];
        if es[i].term == conflictTerm { searched, nextIdx := true, es[i].index + 1; }
        if es[i].term > conflictTerm { break; }
        i := i + 1;
      }
      next := if searched then Some(nextIdx) else None;
    }

    method HandleRefusal(m: Message)
      requires Valid() && m.AppendResponse? && m.reject && m.from in prs
      modifies this
      ensures Valid() && old(msgs) <= msgs
      ensures Stepped(View(), msgs[|old(msgs)|..]) == HandleAppendResponse(old(View()), m)
    {
      var next;
      if m.conflictTerm != 0 {
        var found := SearchConflict(m.conflictTerm);
        AfterLastOfTermPositive(raftLog.entries, m.conflictTerm);
        next := if found.Some? then found.value else m.index + 1;
      } else {
        next := Max(m.index + 1, prs[m.from].matched + 1);
      }
      prs := prs[m.from := prs[m.from].(next := next)];
      SendAppend(m.from);
    }

    method HandleMsgAppendResponse(m: Message) returns (panicked: bool)
      requires Valid() && m.AppendResponse?
      modifies this, raftLog`committed
      ensures panicked <==> HandleAppendResponse(old(View()), m).Panicked?
      ensures !panicked ==> Valid() && old(msgs) <= msgs
      ensures !panicked ==> Stepped(View(), msgs[|old(msgs)|..]) == HandleAppendResponse(old(View()), m)
    {
      if m.from !in prs { return true; }
      if m.reject {
        HandleRefusal(m);
        return false;
      }
      if m.index <= prs[m.from].matched { return false; }
      prs := prs[m.from := Progress(m.index, m.index + 1)];
      if m.index <= raftLog.committed {
        TellCommit([m.from], m.index);
        return false;
      }
      var pos := raftLog.RealIdx(m.index);
      if pos == None || pos == Some(-1) { return true; }
      if raftLog.entries[pos.value].term < term { return false; }
      var others := CountReached(m.from, m.index);
      if 2 + |others| > |peers| / 2 {
        raftLog.committed := m.index;
        TellCommit([m.from] + others, m.index);
      }
      return false;
    }

    // ------------------------------------------------------------ dispatch

    /** Step: the handler for a message, by role. */
    method Step(m: Message) returns (panicked: bool)
      requires Valid() && (m.Append? ==> NumberedFrom(m.entries, m.index + 1))
      modifies this, raftLog
      ensures panicked <==> Receive(old(View()), m).Panicked?
      ensures !panicked ==> Valid() && old(msgs) <= msgs
      ensures !panicked ==> Stepped(View(), msgs[|old(msgs)|..]) == Receive(old(View()), m)
    {
      panicked := false;
      match m {
        case RequestVote(_, _, _, _, _) => HandleVoteRequest(m);
        case VoteResponse(_, _, _, _) => if role == Candidate { HandleVoteResponse(m); }
        case Append(_, _, _, _, _, _, _) => panicked := HandleAppendEntries(m);
        case CommitUpdate(_, _, _, _) => panicked := HandleCommitUse(m);
        case AppendResponse(_, _, _, _, _, _) => if role == Leader { panicked := HandleMsgAppendResponse(m); }
      }
    }
  }

  /** In a cluster of one there is nobody to send entries to. */
  lemma NobodyToTell(n: Node)
    requires n.WellFormed() && |n.peers| == 1
    ensures Broadcast(n) == []
  {
    assert n.peers == [n.id];
    assert BroadcastTo(n, [n.id][..0]) == [];
  }
}
