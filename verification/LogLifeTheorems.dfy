/** What every run of one node's log keeps. */
module LogLifeTheorems {
  import opened Common
  import opened RaftTypes
  import opened RaftStep
  import opened LogLife

  ghost predicate IsRun(run: seq<Life>, events: seq<Event>) {
    && |run| == |events| + 1
    && Start(run[0])
    && forall i :: 0 <= i < |events| ==> Happens(run[i], events[i], run[i + 1])
  }

  ghost predicate Happens(x: Life, e: Event, y: Life) {
    Enabled(x, e) && Next(x, e) == Some(y)
  }

  lemma EventKeeps(x: Life, e: Event)
    requires LifeInv(x) && Enabled(x, e)
    ensures Keeps(x, e)
  {
    match e {
      case Shipment(_) => ShipmentKeeps(x, e);
      case CutStable(_) => CutKeeps(x, e);
      case TakeReady => TakeKeeps(x, e);
      case SaveReady => SaveKeeps(x, e);
      case Advance => AdvanceKeeps(x, e);
      case Proposed(_) => ProposedKeeps(x, e);
      case Restored(_) => RestoredKeeps(x, e);
      case _ => CommitKeeps(x, e);
    }
  }

  lemma StepKeeps(x: Life, e: Event, y: Life)
    requires LifeInv(x) && Happens(x, e, y)
    ensures LifeInv(y) && x.log.committed <= y.log.committed
  {
    EventKeeps(x, e);
  }

  lemma RunStepKeeps(run: seq<Life>, events: seq<Event>, i: nat)
    requires IsRun(run, events) && i < |events| && LifeInv(run[i])
    ensures LifeInv(run[i + 1]) && run[i].log.committed <= run[i + 1].log.committed
  {
    StepKeeps(run[i], events[i], run[i + 1]);
  }

  lemma {:induction false} RunKeeps(run: seq<Life>, events: seq<Event>, i: nat)
    requires IsRun(run, events) && i < |run|
    ensures LifeInv(run[i])
  {
    if i == 0 {
      StartInv(run[0]);
    } else {
      RunKeeps(run, events, i - 1);
      RunStepKeeps(run, events, i - 1);
    }
  }

  /** The marks stay ordered along every run. */
  lemma MarksOrdered(run: seq<Life>, events: seq<Event>, i: nat)
    requires IsRun(run, events) && i < |run|
    ensures var l := run[i].log;
            && l.snapIndex <= l.applied <= l.committed <= l.LastIndex()
            && l.applied <= l.stabled <= l.LastIndex()
  {
    RunKeeps(run, events, i);
  }

  lemma RunStep(run: seq<Life>, events: seq<Event>, i: nat)
    requires IsRun(run, events) && i < |events|
    ensures run[i].log.committed <= run[i + 1].log.committed
  {
    RunKeeps(run, events, i);
    RunStepKeeps(run, events, i);
  }

  /** The commit index never decreases. */
  lemma {:induction false} CommitNeverDecreases(run: seq<Life>, events: seq<Event>, i: nat, j: nat)
    requires IsRun(run, events) && i <= j < |run|
    ensures run[i].log.committed <= run[j].log.committed
    decreases j
  {
    if i < j {
      CommitNeverDecreases(run, events, i, j - 1);
      RunStep(run, events, j - 1);
    }
  }

  /** Whatever the environment does within its promises, the code does not panic. */
  lemma NeverPanics(run: seq<Life>, events: seq<Event>, i: nat, e: Event)
    requires IsRun(run, events) && i < |run| && Enabled(run[i], e)
    ensures Next(run[i], e).Some?
  {
    RunKeeps(run, events, i);
    EventKeeps(run[i], e);
  }

  /** A snapshot has been received and not been saved yet. */
  predicate SnapshotWaits(x: Life) {
    x.pending.Some? || (x.phase.Taken? && x.phase.rd.snapshot.Some?)
  }

  /** Every retained index at or below the stable mark has the same term in memory and in storage. */
  lemma StableMeansSaved(run: seq<Life>, events: seq<Event>, i: nat, index: nat)
    requires IsRun(run, events) && i < |run| && !SnapshotWaits(run[i])
    requires run[i].stable.index <= index <= run[i].log.stabled
    ensures index <= run[i].stable.Last() && index <= run[i].log.LastIndex()
    ensures run[i].log.snapIndex <= run[i].stable.index
    ensures run[i].stable.TermAt(index) == run[i].log.TermAt(index)
    ensures index > run[i].stable.index ==>
              SameSlot(run[i].stable.At(index), run[i].log.entries[index - run[i].log.snapIndex - 1])
  {
    RunKeeps(run, events, i);
  }

  /** While a snapshot waits, it is the base of the log in memory and nothing behind it counts as stable. */
  lemma WaitingSnapshotIsBase(run: seq<Life>, events: seq<Event>, i: nat)
    requires IsRun(run, events) && i < |run| && SnapshotWaits(run[i])
    ensures var snap := if run[i].pending.Some? then run[i].pending.value else run[i].phase.rd.snapshot.value;
            && snap.index == run[i].log.snapIndex && snap.term == run[i].log.snapTerm
            && run[i].log.stabled == snap.index
  {
    RunKeeps(run, events, i);
  }

  /** After every Advance memory and storage hold the same log. */
  lemma AdvanceAgrees(run: seq<Life>, events: seq<Event>, i: nat)
    requires IsRun(run, events) && i < |events| && events[i].Advance?
    ensures Mirrors(run[i + 1].log, run[i + 1].stable)
    ensures run[i + 1].log.stabled == run[i + 1].log.LastIndex()
    ensures run[i + 1].log.applied == run[i + 1].log.committed
  {
    RunKeeps(run, events, i);
    assert Happens(run[i], events[i], run[i + 1]);
    AdvanceKeeps(run[i], events[i]);
  }

  // ---------------------------------------------------------------- delivery

  ghost predicate HandedAt(handed: seq<Handed>, a: nat, k: nat, index: nat) {
    a < |handed| && handed[a].HandedEntries? && k < |handed[a].entries| && handed[a].entries[k].index == index
  }

  /** Entry `k` of handout `a` comes before entry `n` of handout `b`. */
  predicate Earlier(a: nat, k: nat, b: nat, n: nat) {
    a < b || (a == b && k < n)
  }

  ghost predicate Covered(handed: seq<Handed>, a: nat, index: nat) {
    a < |handed| && handed[a].HandedSnapshot? && index <= handed[a].index
  }

  /** The index was handed out, or a snapshot that covers it was. */
  ghost predicate Accounted(handed: seq<Handed>, index: nat) {
    || (exists a: nat, k: nat :: HandedAt(handed, a, k, index))
    || (exists a: nat :: Covered(handed, a, index))
  }

  lemma {:induction false} CursorCovers(handed: seq<Handed>, a: nat, k: nat, index: nat)
    requires InOrder(handed) && HandedAt(handed, a, k, index)
    ensures 1 <= index <= Cursor(handed)
  {
    var before := handed[..|handed| - 1];
    if a < |handed| - 1 {
      assert HandedAt(before, a, k, index);
      CursorCovers(before, a, k, index);
    }
  }

  /** What is handed out later has a larger index: no index is handed out twice. */
  lemma {:induction false} LaterIsLarger(handed: seq<Handed>, a: nat, k: nat, index: nat, b: nat, n: nat, later: nat)
    requires InOrder(handed) && HandedAt(handed, a, k, index) && HandedAt(handed, b, n, later)
    requires Earlier(a, k, b, n)
    ensures index < later
  {
    var before := handed[..|handed| - 1];
    if b < |handed| - 1 {
      assert HandedAt(before, a, k, index) && HandedAt(before, b, n, later);
      LaterIsLarger(before, a, k, index, b, n, later);
    } else if a < b {
      assert HandedAt(before, a, k, index);
      CursorCovers(before, a, k, index);
    }
  }

  /** Every index up to the cursor is accounted for. */
  lemma {:induction false} NoGap(handed: seq<Handed>, index: nat)
    requires InOrder(handed) && 1 <= index <= Cursor(handed)
    ensures Accounted(handed, index)
  {
    var last := |handed| - 1;
    var before := handed[..last];
    if handed[last].HandedSnapshot? {
      assert Covered(handed, last, index);
    } else if index > Cursor(before) {
      assert HandedAt(handed, last, index - Cursor(before) - 1, index);
    } else {
      NoGap(before, index);
      if a: nat, k: nat :| HandedAt(before, a, k, index) {
        assert HandedAt(handed, a, k, index);
      } else {
        var a: nat :| Covered(before, a, index);
        assert Covered(handed, a, index);
      }
    }
  }

  /** Along every run, committed entries are handed out once and in order, with no gap but for snapshots. */
  lemma DeliveredInOrder(run: seq<Life>, events: seq<Event>, i: nat)
    requires IsRun(run, events) && i < |run|
    ensures forall a, k, index, b, n, later ::
              HandedAt(run[i].handed, a, k, index) && HandedAt(run[i].handed, b, n, later) && Earlier(a, k, b, n) ==>
                index < later
    ensures forall index: nat :: 1 <= index <= Cursor(run[i].handed) ==>
              Accounted(run[i].handed, index)
    ensures Cursor(run[i].handed) <= run[i].log.committed
  {
    RunKeeps(run, events, i);
    var handed := run[i].handed;
    forall a, k, index, b, n, later |
      HandedAt(handed, a, k, index) && HandedAt(handed, b, n, later) && Earlier(a, k, b, n)
      ensures index < later
    {
      LaterIsLarger(handed, a, k, index, b, n, later);
    }
    forall index: nat | 1 <= index <= Cursor(handed)
      ensures Accounted(handed, index)
    {
      NoGap(handed, index);
    }
  }

  // ---------------------------------------------------------------- what was handed out stays

  /** The same index and term; the same entry, if asked for. */
  ghost predicate Same(a: Entry, b: Entry, exact: bool) {
    SameSlot(a, b) && (exact ==> a == b)
  }

  /** If the log retains the entry's index, it has the entry there. */
  ghost predicate HeldAs(l: RaftLog, e: Entry, exact: bool) {
    l.snapIndex < e.index <= l.LastIndex() ==> Same(l.entries[e.index - l.snapIndex - 1], e, exact)
  }

  ghost predicate AllHeld(x: Life, exact: bool) {
    forall a: nat, k: nat, index: nat {:trigger HandedAt(x.handed, a, k, index)} ::
      HandedAt(x.handed, a, k, index) ==> HeldAs(x.log, x.handed[a].entries[k], exact)
  }

  /** If the second log retains the index, and it was committed in the first, that had the entry there. */
  ghost predicate Preserves(l: RaftLog, r: RaftLog, i: nat, exact: bool) {
    r.snapIndex < i <= r.LastIndex() && i <= l.committed ==>
      && l.snapIndex < i <= l.LastIndex()
      && Same(r.entries[i - r.snapIndex - 1], l.entries[i - l.snapIndex - 1], exact)
  }

  lemma InstallShape(l: RaftLog, kept: nat, es: seq<Entry>)
    requires kept <= |l.entries|
    ensures var r := Install(l, kept, es);
            r.snapIndex == l.snapIndex && (r.entries == l.entries || r.entries == l.entries[..kept] + es)
  {
  }

  lemma ReplacedPreserves(l: RaftLog, r: RaftLog, kept: nat, es: seq<Entry>, i: nat, exact: bool)
    requires l.committed <= l.LastIndex() && kept <= |l.entries| && NumberedFrom(es, l.snapIndex + kept + 1)
    requires l.Numbered() && RespectsCommitted(l, es) && (exact ==> SharesCommitted(l, es))
    requires r.snapIndex == l.snapIndex && r.entries == l.entries[..kept] + es
    ensures Preserves(l, r, i, exact)
  {
    var pos := i - l.snapIndex - 1;
    if l.snapIndex < i <= r.LastIndex() && i <= l.committed && pos >= kept {
      assert es[pos - kept].index == i;
    }
  }

  lemma InstallPreserves(l: RaftLog, kept: nat, es: seq<Entry>, i: nat, exact: bool)
    requires Marks(l) && kept <= |l.entries| && NumberedFrom(es, l.snapIndex + kept + 1)
    requires RespectsCommitted(l, es) && (exact ==> SharesCommitted(l, es))
    ensures Preserves(l, Install(l, kept, es), i, exact)
  {
    var r := Install(l, kept, es);
    InstallShape(l, kept, es);
    if r.entries != l.entries { ReplacedPreserves(l, r, kept, es, i, exact); }
  }

  /** A shipment that is taken carries, of what is committed, the retained entries themselves. */
  ghost predicate Carries(x: Life, e: Event) {
    e.Shipment? && e.m.Append? && KeptPrefix(x.log, e.m.index, e.m.logTerm).Some? ==>
      SharesCommitted(x.log, e.m.entries)
  }

  lemma ShipmentPreserves(l: RaftLog, m: Message, i: nat, exact: bool)
    requires Marks(l) && ShipmentFits(l, m) && TakeShipment(l, m).Some?
    requires exact && KeptPrefix(l, m.index, m.logTerm).Some? ==> SharesCommitted(l, m.entries)
    ensures Preserves(l, TakeShipment(l, m).value, i, exact)
  {
    match KeptPrefix(l, m.index, m.logTerm)
    case None =>
    case Some(kept) =>
      KeptFits(l, m, kept);
      assert RespectsCommitted(l, m.entries);
      InstallPreserves(l, kept, m.entries, i, exact);
  }

  lemma CompactPreserves(l: RaftLog, cut: nat, i: nat, exact: bool)
    requires l.committed <= l.LastIndex() && MaybeCompact(l, cut).Some?
    ensures Preserves(l, MaybeCompact(l, cut).value, i, exact)
  {
  }

  lemma RestorePreserves(l: RaftLog, s: Snapshot, i: nat, exact: bool)
    requires l.committed <= l.LastIndex()
    ensures Preserves(l, Restore(l, s), i, exact)
  {
  }

  lemma GrownPreserves(l: RaftLog, r: RaftLog, i: nat, exact: bool)
    requires l.committed <= l.LastIndex() && r.snapIndex == l.snapIndex && l.entries <= r.entries
    ensures Preserves(l, r, i, exact)
  {
  }

  lemma TakenPreserves(x: Life, m: Message, y: Life, i: nat, exact: bool)
    requires Marks(x.log) && Happens(x, Shipment(m), y) && (exact ==> Carries(x, Shipment(m)))
    ensures Preserves(x.log, y.log, i, exact)
  {
    ShipmentPreserves(x.log, m, i, exact);
  }

  lemma AdvancePreserves(x: Life, y: Life, i: nat, exact: bool)
    requires Marks(x.log) && Happens(x, Advance, y)
    ensures Preserves(x.log, y.log, i, exact)
  {
    CompactPreserves(Marked(x.log, x.phase.rd), x.stable.index, i, exact);
  }

  lemma EventPreserves(x: Life, e: Event, y: Life, i: nat, exact: bool)
    requires Marks(x.log) && Happens(x, e, y) && (exact ==> Carries(x, e))
    ensures Preserves(x.log, y.log, i, exact)
  {
    match e {
      case Shipment(m) => TakenPreserves(x, m, y, i, exact);
      case Restored(s) => RestorePreserves(x.log, s, i, exact);
      case Advance => AdvancePreserves(x, y, i, exact);
      case _ => GrownPreserves(x.log, y.log, i, exact);
    }
  }

  /** What a Ready hands out is taken from the log. */
  lemma NextEntsHeld(l: RaftLog, k: nat, exact: bool)
    requires Marks(l) && k < |NextEnts(l)|
    ensures HeldAs(l, NextEnts(l)[k], exact)
  {
  }

  lemma CursorIsCommitted(x: Life)
    requires LifeInv(x)
    ensures Cursor(x.handed) <= x.log.committed
  {
  }

  lemma TakingHolds(x: Life, y: Life, exact: bool)
    requires Marks(x.log) && Happens(x, TakeReady, y) && AllHeld(x, exact)
    ensures AllHeld(y, exact)
  {
    forall a: nat, k: nat, index: nat | HandedAt(y.handed, a, k, index)
      ensures HeldAs(y.log, y.handed[a].entries[k], exact)
    {
      if a < |x.handed| {
        assert HandedAt(x.handed, a, k, index);
      } else {
        NextEntsHeld(x.log, k, exact);
      }
    }
  }

  lemma StillHeld(l: RaftLog, r: RaftLog, e: Entry, exact: bool)
    requires HeldAs(l, e, exact) && e.index <= l.committed && Preserves(l, r, e.index, exact)
    ensures HeldAs(r, e, exact)
  {
  }

  lemma OtherHolds(x: Life, e: Event, y: Life, exact: bool)
    requires LifeInv(x) && Happens(x, e, y) && (exact ==> Carries(x, e)) && AllHeld(x, exact) && y.handed == x.handed
    ensures AllHeld(y, exact)
  {
    CursorIsCommitted(x);
    forall a: nat, k: nat, index: nat | HandedAt(y.handed, a, k, index)
      ensures HeldAs(y.log, y.handed[a].entries[k], exact)
    {
      assert HandedAt(x.handed, a, k, index);
      CursorCovers(x.handed, a, k, index);
      EventPreserves(x, e, y, index, exact);
      StillHeld(x.log, y.log, x.handed[a].entries[k], exact);
    }
  }

  lemma StepHolds(x: Life, e: Event, y: Life, exact: bool)
    requires LifeInv(x) && Happens(x, e, y) && (exact ==> Carries(x, e)) && AllHeld(x, exact)
    ensures AllHeld(y, exact)
  {
    if e.TakeReady? {
      TakingHolds(x, y, exact);
    } else {
      OtherHolds(x, e, y, exact);
    }
  }

  lemma {:induction false} HandedIsHeld(run: seq<Life>, events: seq<Event>, i: nat, exact: bool)
    requires IsRun(run, events) && i < |run|
    requires exact ==> forall j :: 0 <= j < i ==> Carries(run[j], events[j])
    ensures AllHeld(run[i], exact)
  {
    if i > 0 {
      HandedIsHeld(run, events, i - 1, exact);
      RunKeeps(run, events, i - 1);
      StepHolds(run[i - 1], events[i - 1], run[i], exact);
    }
  }

  lemma {:induction false} HandedGrows(run: seq<Life>, events: seq<Event>, i: nat, j: nat)
    requires IsRun(run, events) && i <= j < |run|
    ensures run[i].handed <= run[j].handed
    decreases j
  {
    if i < j {
      HandedGrows(run, events, i, j - 1);
      assert Happens(run[j - 1], events[j - 1], run[j]);
    }
  }

  /**
   What was handed out as committed is what the log has at that index, then and in every later state that retains the
   index: the same term always, and the same entry if shipments carry committed entries as they are.
   */
  lemma DeliveredStays(run: seq<Life>, events: seq<Event>, i: nat, j: nat, a: nat, k: nat, index: nat, exact: bool)
    requires IsRun(run, events) && i <= j < |run| && HandedAt(run[i].handed, a, k, index)
    requires exact ==> forall n :: 0 <= n < j ==> Carries(run[n], events[n])
    requires run[j].log.snapIndex < index
    ensures index <= run[j].log.LastIndex()
    ensures Same(run[j].log.entries[index - run[j].log.snapIndex - 1], run[i].handed[a].entries[k], exact)
  {
    HandedGrows(run, events, i, j);
    HandedIsHeld(run, events, j, exact);
    RunKeeps(run, events, j);
    assert HandedAt(run[j].handed, a, k, index);
    CursorCovers(run[j].handed, a, k, index);
    CursorIsCommitted(run[j]);
  }

  /** After every Advance everything committed has been handed out. */
  lemma AllDelivered(run: seq<Life>, events: seq<Event>, i: nat)
    requires IsRun(run, events) && i < |events| && events[i].Advance?
    ensures Cursor(run[i + 1].handed) == run[i + 1].log.committed
  {
    AdvanceAgrees(run, events, i);
    RunKeeps(run, events, i);
    RunKeeps(run, events, i + 1);
    assert Happens(run[i], events[i], run[i + 1]);
  }
}
