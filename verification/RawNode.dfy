/** The wrapper around a node that hands out what has to be saved, sent and applied. */
module RawNodes {
  import opened Common
  import opened RaftTypes
  import opened RaftNode
  import opened LogLife

  datatype SoftState = SoftState(lead: Id, role: Role)

  datatype HardState = HardState(term: nat, vote: Id, commit: nat)

  const EMPTY := HardState(0, NOBODY, 0)

  /** Everything Ready hands out: the log's part, the messages, and the states if they changed. */
  datatype Handout = Handout(log: Ready, messages: seq<Message>, soft: Option<SoftState>, hard: HardState)

  /** Nothing to save, send or apply. */
  predicate IsIdle(h: Handout) {
    && h.log == Ready([], None, [])
    && h.messages == [] && h.soft == None && h.hard == EMPTY
  }

  function SoftStateOf(n: Node): SoftState {
    SoftState(n.lead, n.role)
  }

  function HardStateOf(n: Node): HardState {
    HardState(n.term, n.vote, n.log.committed)
  }

  class RawNode {
    const raft: Raft
    // the source keeps the pending snapshot in the log object
    var pendingSnapshot: Option<Snapshot>
    var prevSoftState: SoftState
    var prevHardState: HardState

    constructor (raft: Raft)
      requires raft.Valid()
      ensures this.raft == raft && Valid() && pendingSnapshot == None
      ensures prevSoftState == SoftStateOf(raft.View()) && prevHardState == HardStateOf(raft.View())
    {
      this.raft := raft;
      pendingSnapshot := None;
      prevSoftState := SoftState(raft.lead, raft.role);
      prevHardState := HardState(raft.term, raft.vote, raft.raftLog.committed);
    }

    ghost predicate Valid()
      reads this, raft, raft.raftLog
    {
      raft.Valid() && (pendingSnapshot.Some? ==> pendingSnapshot.value.index > 0)
    }

    /** What a call of Ready hands out now. */
    function Upcoming(): Option<Handout>
      reads this, raft, raft.raftLog
    {
      var n := raft.View();
      match ReadyOf(n.log, pendingSnapshot)
      case None => None
      case Some(log) =>
        Some(Handout(log, raft.msgs,
                     if prevSoftState == SoftStateOf(n) then None else Some(SoftStateOf(n)),
                     if prevHardState == HardStateOf(n) then EMPTY else HardStateOf(n)))
    }

    /** The term, vote and commit index are handed out if one of them is news, and so are leader and role. */
    ghost predicate StatesHanded(soft: SoftState, hard: HardState, h: Handout)
      reads this, raft, raft.raftLog
    {
      && (if hard.term != raft.term || hard.vote != raft.vote || hard.commit != raft.raftLog.committed
          then h.hard.term == raft.term && h.hard.vote == raft.vote && h.hard.commit == raft.raftLog.committed
          else h.hard == EMPTY)
      && (if soft.lead != raft.lead || soft.role != raft.role
          then h.soft.Some? && h.soft.value.lead == raft.lead && h.soft.value.role == raft.role
          else h.soft == None)
      && prevHardState.term == raft.term && prevHardState.vote == raft.vote
      && prevHardState.commit == raft.raftLog.committed
      && prevSoftState.lead == raft.lead && prevSoftState.role == raft.role
    }

    /** Hand out the news; a second call then has only the log's part to repeat. `None` is a panic. */
    method Ready() returns (rd: Option<Handout>)
      requires Valid()
      modifies this, raft`msgs
      ensures rd == old(Upcoming()) && raft.View() == old(raft.View()) && Valid()
      ensures rd.Some? ==> pendingSnapshot == None && raft.msgs == []
      ensures rd.Some? ==> rd.value.messages == old(raft.msgs) && rd.value.log.snapshot == old(pendingSnapshot)
      ensures rd.Some? ==> StatesHanded(old(prevSoftState), old(prevHardState), rd.value)
      ensures rd.Some? ==> Upcoming() == Some(Handout(rd.value.log.(snapshot := None), [], None, EMPTY))
    {
      var unstable := raft.raftLog.UnstableEntries();
      var next := raft.raftLog.NextEnts();
      if unstable == None || next == None { return None; }
      var log := LogLife.Ready(unstable.value, None, next.value);
      var h := Handout(log, [], None, EMPTY);
      if |raft.msgs| > 0 {
        h := h.(messages := raft.msgs);
        raft.msgs := [];
      }
      var soft := SoftState(raft.lead, raft.role);
      if prevSoftState != soft {
        h := h.(soft := Some(soft));
        prevSoftState := soft;
      }
      var hard := HardState(raft.term, raft.vote, raft.raftLog.committed);
      if prevHardState != hard {
        h := h.(hard := hard);
        prevHardState := hard;
      }
      if pendingSnapshot.Some? {
        h := h.(log := h.log.(snapshot := pendingSnapshot));
        pendingSnapshot := None;
      }
      return Some(h);
    }

    /** HasReady answers whether Ready would hand out anything. */
    method HasReady() returns (b: bool)
      requires Valid() && Marks(raft.View().log)
      ensures Upcoming().Some? && (b <==> !IsIdle(Upcoming().value))
    {
      if SoftState(raft.lead, raft.role) != prevSoftState { return true; }
      var hard := HardState(raft.term, raft.vote, raft.raftLog.committed);
      if hard != EMPTY && hard != prevHardState { return true; }
      if pendingSnapshot.Some? { return true; }
      var unstable := raft.raftLog.HasUnstableEnts();
      var next := raft.raftLog.HasNextEnts();
      return |raft.msgs| > 0 || unstable || next.value;
    }

    /** The log's part of a snapshot message. */
    method HandleSnapshot(s: Snapshot)
      requires Valid()
      modifies this`pendingSnapshot, raft.raftLog
      ensures Valid() && raft.View() == old(raft.View()).(log := Restore(old(raft.View()).log, s))
      ensures pendingSnapshot == if s.index <= old(raft.View()).log.LastIndex() then old(pendingSnapshot) else Some(s)
    {
      var last := raft.raftLog.LastIndex();
      if s.index <= last { return; }
      var l := raft.raftLog;
      l.snapIndex, l.snapTerm := s.index, s.term;
      l.committed, l.applied, l.stabled := s.index, s.index, s.index;
      pendingSnapshot := Some(s);
      l.entries := [];
    }

    /** Move the marks and follow the storage's cut; false is a panic. */
    method Advance(rd: Ready, storageFirstIdx: nat) returns (ok: bool)
      requires Valid() && storageFirstIdx >= 1
      modifies raft.raftLog
      ensures ok <==> LogLife.MaybeCompact(Marked(old(raft.View()).log, rd), storageFirstIdx - 1).Some?
      ensures ok ==> Valid()
      ensures ok ==>
                var was := old(raft.View());
                raft.View() == was.(log := LogLife.MaybeCompact(Marked(was.log, rd), storageFirstIdx - 1).value)
    {
      if |rd.entries| > 0 {
        raft.raftLog.stabled := rd.entries[|rd.entries| - 1].index;
      }
      if |rd.committed| > 0 {
        raft.raftLog.applied := rd.committed[|rd.committed| - 1].index;
      }
      ok := raft.raftLog.MaybeCompact(storageFirstIdx);
    }
  }
}
