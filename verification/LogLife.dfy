/**
 The life of one node's log: messages change it in memory, Ready hands out what is unstable and what is
 committed, the application saves it and cuts the saved log, and Advance moves the marks.
 */
module LogLife {
  import opened Common
  import opened RaftTypes
  import opened RaftStep
  import opened StableLogs
  import ReceiverRules

  datatype Snapshot = Snapshot(index: nat, term: nat)

  datatype Ready = Ready(entries: seq<Entry>, snapshot: Option<Snapshot>, committed: seq<Entry>)

  // ---------------------------------------------------------------- what the log and RawNode compute

  /** How many retained entries lie at or below an index. */
  function Retained(l: RaftLog, i: nat): (n: nat)
    requires i <= l.LastIndex()
    ensures n <= |l.entries|
  {
    if i <= l.snapIndex then 0 else i - l.snapIndex
  }

  function Unstable(l: RaftLog): seq<Entry>
    requires l.stabled <= l.LastIndex()
  {
    l.entries[Retained(l, l.stabled)..]
  }

  function NextEnts(l: RaftLog): seq<Entry>
    requires l.applied <= l.LastIndex() && l.committed <= l.LastIndex()
  {
    if Retained(l, l.applied) > Retained(l, l.committed) then []
    else l.entries[Retained(l, l.applied)..Retained(l, l.committed)]
  }

  /** What Ready hands out; a mark beyond the last index is a panic. */
  function ReadyOf(l: RaftLog, pending: Option<Snapshot>): Option<Ready> {
    if l.stabled > l.LastIndex() || l.applied > l.LastIndex() || l.committed > l.LastIndex() then None
    else Some(Ready(Unstable(l), pending, NextEnts(l)))
  }

  /** Follow the storage's cut; a cut at or beyond the last index is a panic. */
  function MaybeCompact(l: RaftLog, cut: nat): Option<RaftLog> {
    if l.snapIndex >= cut then Some(l)
    else if cut >= l.LastIndex() then None
    else Some(l.(snapIndex := cut, snapTerm := l.TermAt(cut), entries := l.entries[cut - l.snapIndex..]))
  }

  /** The marks after a Ready has been saved and applied. */
  function Marked(l: RaftLog, rd: Ready): RaftLog {
    l.(stabled := if rd.entries == [] then l.stabled else rd.entries[|rd.entries| - 1].index,
       applied := if rd.committed == [] then l.applied else rd.committed[|rd.committed| - 1].index)
  }

  /** A snapshot message: ignored unless it is ahead of the log, otherwise it replaces the log. */
  function Restore(l: RaftLog, s: Snapshot): RaftLog {
    if s.index <= l.LastIndex() then l
    else RaftLog(s.index, s.term, [], s.index, s.index, s.index)
  }

  /** An append message that is not stale: what it does to the log. */
  function TakeShipment(l: RaftLog, m: Message): Option<RaftLog>
    requires m.Append?
  {
    match KeptPrefix(l, m.index, m.logTerm)
    case None => Some(l)
    case Some(kept) =>
      var installed := Install(l, kept, m.entries);
      var learned := Learn(installed, m.commit, LastShipped(m));
      if m.commit > installed.committed && learned.committed > learned.LastIndex() then None else Some(learned)
  }

  /** That is what handling an append message does to a node's log. */
  lemma HandleAppendTakesShipment(n: Node, m: Message)
    requires m.Append? && m.term >= n.term
    ensures HandleAppend(n, m).Panicked? <==> TakeShipment(n.log, m).None?
    ensures HandleAppend(n, m).Stepped? ==> TakeShipment(n.log, m) == Some(HandleAppend(n, m).node.log)
  {
  }

  function Base(s: StableLog, rd: Ready): StableLog {
    if rd.snapshot.Some? then Reset(rd.snapshot.value.index, rd.snapshot.value.term) else s
  }

  /** Saving a Ready: the snapshot replaces the saved log, the entries overwrite its end; a gap is a panic. */
  function Save(s: StableLog, rd: Ready): Option<StableLog> {
    Write(Base(s, rd), rd.entries)
  }

  /** The log that a node starts from: what its storage holds, with the saved commit index and applied index. */
  function NewLog(s: StableLog, commit: nat, applied: nat): RaftLog {
    RaftLog(s.index, s.term, s.entries, commit, Max(applied, s.index), s.Last())
  }

  /** A node starts with what its storage holds, all of it stable, and hands out what it has not applied. */
  lemma NewLogMeans(s: StableLog, commit: nat, applied: nat)
    requires s.Numbered() && s.index <= applied <= commit <= s.Last()
    ensures var l := NewLog(s, commit, applied);
            && l.snapIndex == s.index && l.LastIndex() == s.Last() && Unstable(l) == []
            && (forall i :: s.index <= i <= s.Last() ==> l.TermAt(i) == s.TermAt(i))
            && |NextEnts(l)| == commit - applied
            && forall i :: applied < i <= commit ==> NextEnts(l)[i - applied - 1] == s.At(i)
  {
  }

  // ---------------------------------------------------------------- the state machine

  datatype Phase = Idle | Taken(rd: Ready) | Saved(rd: Ready)

  datatype Handed = HandedSnapshot(index: nat) | HandedEntries(entries: seq<Entry>)

  datatype Life = Life(log: RaftLog, pending: Option<Snapshot>, stable: StableLog, phase: Phase, handed: seq<Handed>)

  datatype Event =
    | Shipment(m: Message)               // an append message that is not stale
    | Told(commit: nat)                  // a commit index sent on its own
    | Proposed(entries: seq<Entry>)      // the leader's own entries
    | Counted(commit: nat)               // the leader counted a majority
    | Restored(snapshot: Snapshot)
    | TakeReady
    | SaveReady
    | CutStable(index: nat)
    | Advance

  /** The index up to which entries or a snapshot have been handed out. */
  function Cursor(handed: seq<Handed>): nat {
    if handed == [] then 0
    else
      match handed[|handed| - 1]
      case HandedSnapshot(i) => i
      case HandedEntries(es) => Cursor(handed[..|handed| - 1]) + |es|
  }

  /** Handed out in order: each run of entries starts right behind the cursor, each snapshot is ahead of it. */
  ghost predicate InOrder(handed: seq<Handed>) {
    handed != [] ==>
      var before := handed[..|handed| - 1];
      && InOrder(before)
      && match handed[|handed| - 1]
         case HandedSnapshot(i) => i > Cursor(before)
         case HandedEntries(es) => NumberedFrom(es, Cursor(before) + 1)
  }

  function HandOut(handed: seq<Handed>, rd: Ready): seq<Handed> {
    (if rd.snapshot.Some? then handed + [HandedSnapshot(rd.snapshot.value.index)] else handed) +
    [HandedEntries(rd.committed)]
  }

  /** A node starts or restarts; what was applied before counts as handed out. */
  ghost predicate Start(x: Life) {
    && x.stable.Numbered() && x.pending == None && x.phase == Idle
    && x.log == NewLog(x.stable, x.log.committed, x.log.applied)
    && x.stable.index <= x.log.applied <= x.log.committed <= x.stable.Last()
    && x.handed == if x.log.applied > 0 then [HandedSnapshot(x.log.applied)] else []
  }

  /** No shipped entry disagrees with a retained one at or below the commit index. */
  ghost predicate RespectsCommitted(l: RaftLog, es: seq<Entry>) {
    forall k :: 0 <= k < |es| && l.snapIndex < es[k].index <= l.committed <= l.LastIndex() ==>
                  l.TermAt(es[k].index) == es[k].term
  }

  /** A shipped entry at or below the commit index is the retained one itself. */
  ghost predicate SharesCommitted(l: RaftLog, es: seq<Entry>) {
    forall k :: 0 <= k < |es| && l.snapIndex < es[k].index <= l.committed <= l.LastIndex() ==>
                  l.entries[es[k].index - l.snapIndex - 1] == es[k]
  }

  /** An append message whose entries follow its index and, if it is taken, respect what is committed. */
  ghost predicate ShipmentFits(l: RaftLog, m: Message) {
    && m.Append? && NumberedFrom(m.entries, m.index + 1)
    && (KeptPrefix(l, m.index, m.logTerm).Some? ==> RespectsCommitted(l, m.entries))
  }

  /** How far the application has applied: during a Ready it works on the committed entries it was handed. */
  function AppliedByApp(x: Life): nat {
    if x.phase.Saved? then Cursor(x.handed) else x.log.applied
  }

  /** What the environment promises about each event. */
  ghost predicate Enabled(x: Life, e: Event) {
    match e
    case Shipment(m) => x.phase.Idle? && ShipmentFits(x.log, m)
    case Told(k) => x.phase.Idle? && k <= x.log.LastIndex()
    case Proposed(es) => x.phase.Idle? && NumberedFrom(es, x.log.LastIndex() + 1)
    case Counted(k) => x.phase.Idle? && x.log.committed < k <= x.log.LastIndex()
    case Restored(_) => x.phase.Idle?
    case TakeReady => x.phase.Idle?
    case SaveReady => x.phase.Taken?
    case CutStable(i) => x.stable.index < i <= x.stable.Last() && i < x.log.LastIndex() && i <= AppliedByApp(x)
    case Advance => x.phase.Saved?
  }

  /** The state after an event; `None` if the code panics. */
  function Next(x: Life, e: Event): Option<Life>
    requires Enabled(x, e)
  {
    match e
    case Shipment(m) =>
      (match TakeShipment(x.log, m)
       case None => None
       case Some(l) => Some(x.(log := l)))
    case Told(k) => Some(x.(log := x.log.(committed := Max(x.log.committed, k))))
    case Proposed(es) => Some(x.(log := x.log.(entries := x.log.entries + es)))
    case Counted(k) => Some(x.(log := x.log.(committed := k)))
    case Restored(s) =>
      Some(x.(log := Restore(x.log, s), pending := if s.index <= x.log.LastIndex() then x.pending else Some(s)))
    case TakeReady =>
      (match ReadyOf(x.log, x.pending)
       case None => None
       case Some(rd) => Some(x.(pending := None, phase := Taken(rd), handed := HandOut(x.handed, rd))))
    case SaveReady =>
      (match Save(x.stable, x.phase.rd)
       case None => None
       case Some(s) => Some(x.(stable := s, phase := Saved(x.phase.rd))))
    case CutStable(i) => Some(x.(stable := Cut(x.stable, i)))
    case Advance =>
      (match MaybeCompact(Marked(x.log, x.phase.rd), x.stable.index)
       case None => None
       case Some(l) => Some(x.(log := l, phase := Idle)))
  }

  // ---------------------------------------------------------------- the invariant

  ghost predicate Marks(l: RaftLog) {
    && l.Numbered()
    && l.snapIndex <= l.applied <= l.committed <= l.LastIndex()
    && l.applied <= l.stabled <= l.LastIndex()
  }

  /** The saved log agrees with memory up to an index: same index, same term. */
  ghost predicate AgreeUpTo(l: RaftLog, s: StableLog, last: nat) {
    && l.snapIndex <= s.index <= last <= s.Last() && last <= l.LastIndex()
    && forall i :: s.index <= i <= last ==> s.TermAt(i) == l.TermAt(i)
  }

  ghost predicate InStep(l: RaftLog, s: StableLog) {
    && AgreeUpTo(l, s, l.stabled)
    && s.index <= l.applied
    && (l.stabled == l.LastIndex() ==> s.Last() == l.stabled)
    && (l.snapIndex < s.index ==> s.index < l.LastIndex())
  }

  /** A snapshot that waits to be saved is the base of the log, and nothing after it has been saved. */
  ghost predicate Awaits(l: RaftLog, s: Snapshot) {
    s.index == l.snapIndex && s.term == l.snapTerm && l.stabled == l.snapIndex
  }

  ghost predicate StorageOk(l: RaftLog, s: StableLog, pending: Option<Snapshot>) {
    match pending
    case None => InStep(l, s)
    case Some(snap) => Awaits(l, snap)
  }

  /** Memory and storage hold the same log from the storage's first index on. */
  ghost predicate Synced(l: RaftLog, s: StableLog) {
    && s.Last() == l.LastIndex()
    && AgreeUpTo(l, s, l.LastIndex())
    && (l.snapIndex < s.index ==> s.index < l.LastIndex())
  }

  ghost predicate LifeInv(x: Life) {
    && Marks(x.log)
    && x.stable.Numbered()
    && InOrder(x.handed)
    && match x.phase
       case Idle =>
         && StorageOk(x.log, x.stable, x.pending)
         && (if x.pending.Some? then Cursor(x.handed) < x.log.snapIndex && x.log.applied == x.log.snapIndex
             else Cursor(x.handed) == x.log.applied)
       case Taken(rd) =>
         && x.pending == None
         && rd.entries == Unstable(x.log) && rd.committed == NextEnts(x.log)
         && StorageOk(x.log, x.stable, rd.snapshot)
         && Cursor(x.handed) == x.log.committed
       case Saved(rd) =>
         && x.pending == None
         && rd.entries == Unstable(x.log) && rd.committed == NextEnts(x.log)
         && Synced(x.log, x.stable)
         && x.stable.index <= x.log.committed
         && Cursor(x.handed) == x.log.committed
  }

  // ---------------------------------------------------------------- each event keeps it

  lemma StartInv(x: Life)
    requires Start(x)
    ensures LifeInv(x)
  {
  }

  /** Before the first conflict nothing changes its term; a conflict lies beyond what is committed. */
  lemma InstallKeeps(l: RaftLog, kept: nat, es: seq<Entry>)
    requires Marks(l) && kept <= |l.entries|
    requires NumberedFrom(es, l.snapIndex + kept + 1) && RespectsCommitted(l, es)
    ensures var r := Install(l, kept, es);
            && Marks(r) && r.snapIndex == l.snapIndex && r.snapTerm == l.snapTerm
            && r.committed == l.committed && r.applied == l.applied
            && r.stabled <= l.stabled
            && l.snapIndex + kept + |es| <= r.LastIndex()
            && (forall i :: l.snapIndex <= i <= r.stabled ==> r.TermAt(i) == l.TermAt(i))
            && (r.stabled < l.stabled ==> l.committed <= r.stabled < r.LastIndex())
            && (r.stabled == l.stabled ==> r.LastIndex() >= l.LastIndex() || r.stabled < r.LastIndex())
            && (r.LastIndex() >= l.LastIndex() || r.LastIndex() > l.committed)
  {
    var r := Install(l, kept, es);
    var k := ReceiverRules.ConflictFacts(l.entries, kept, es);
    ReceiverRules.InstallMark(l, kept, es, k);
    ReceiverRules.StableMarkIsExact(l, kept, es);
    if kept + k < |l.entries| && k < |es| { ConflictIsBeyond(l, kept, es, k); }
    forall i | l.snapIndex <= i <= r.stabled ensures r.TermAt(i) == l.TermAt(i) {
      assert i > l.snapIndex ==> ReceiverRules.SlotKept(l, r, i);
    }
  }

  lemma ConflictIsBeyond(l: RaftLog, kept: nat, es: seq<Entry>, k: nat)
    requires l.committed <= l.LastIndex() && NumberedFrom(es, l.snapIndex + kept + 1) && RespectsCommitted(l, es)
    requires k < |es| && kept + k < |l.entries| && l.entries[kept + k].term != es[k].term
    ensures l.committed <= l.snapIndex + kept + k
  {
    assert es[k].index == l.snapIndex + kept + k + 1;
  }

  /** An event keeps the invariant, does not panic and does not take a commit back. */
  ghost predicate Keeps(x: Life, e: Event)
    requires Enabled(x, e)
  {
    var y := Next(x, e);
    y.Some? && LifeInv(y.value) && y.value.log.committed >= x.log.committed
  }

  lemma KeptFits(l: RaftLog, m: Message, kept: nat)
    requires l.Numbered() && m.Append? && KeptPrefix(l, m.index, m.logTerm) == Some(kept)
    ensures kept <= |l.entries| && m.index == l.snapIndex + kept
  {
  }

  /** What a change of the unsaved end of the log leaves alone. */
  ghost predicate Overlays(l: RaftLog, r: RaftLog) {
    && Marks(l) && Marks(r) && r.snapIndex == l.snapIndex && r.snapTerm == l.snapTerm
    && r.applied == l.applied && r.committed >= l.committed && r.stabled <= l.stabled
    && (forall i :: l.snapIndex <= i <= r.stabled ==> r.TermAt(i) == l.TermAt(i))
    && (r.stabled < l.stabled ==> l.committed <= r.stabled < r.LastIndex())
    && (r.stabled == l.stabled ==> r.LastIndex() >= l.LastIndex() || r.stabled < r.LastIndex())
    && (r.LastIndex() >= l.LastIndex() || r.LastIndex() > l.committed)
  }

  lemma OverlayInStep(l: RaftLog, s: StableLog, r: RaftLog)
    requires Overlays(l, r) && InStep(l, s)
    ensures InStep(r, s)
  {
  }

  lemma LearnedOverlays(l: RaftLog, r: RaftLog, learned: RaftLog)
    requires Overlays(l, r) && learned == r.(committed := learned.committed)
    requires r.committed <= learned.committed <= r.LastIndex()
    ensures Overlays(l, learned)
  {
    assert forall i :: l.snapIndex <= i <= r.stabled ==> learned.TermAt(i) == r.TermAt(i);
  }

  lemma ShipmentOverlays(l: RaftLog, m: Message)
    requires Marks(l) && ShipmentFits(l, m)
    ensures TakeShipment(l, m).Some? && Overlays(l, TakeShipment(l, m).value)
  {
    match KeptPrefix(l, m.index, m.logTerm)
    case None =>
    case Some(kept) =>
      KeptFits(l, m, kept);
      InstallKeeps(l, kept, m.entries);
      var r := Install(l, kept, m.entries);
      LearnedOverlays(l, r, Learn(r, m.commit, LastShipped(m)));
  }

  lemma ShipmentKeeps(x: Life, e: Event)
    requires LifeInv(x) && Enabled(x, e) && e.Shipment?
    ensures Keeps(x, e)
  {
    ShipmentOverlays(x.log, e.m);
    var r := TakeShipment(x.log, e.m).value;
    if x.pending == None { OverlayInStep(x.log, x.stable, r); }
  }

  lemma CommitKeeps(x: Life, e: Event)
    requires LifeInv(x) && Enabled(x, e) && (e.Told? || e.Counted?)
    ensures Keeps(x, e)
  {
    var l := Next(x, e).value.log;
    assert forall i :: 0 <= i <= l.LastIndex() ==> l.TermAt(i) == x.log.TermAt(i);
  }

  lemma ProposedKeeps(x: Life, e: Event)
    requires LifeInv(x) && Enabled(x, e) && e.Proposed?
    ensures Keeps(x, e)
  {
    var l := Next(x, e).value.log;
    assert forall i :: 0 <= i <= x.log.LastIndex() ==> l.TermAt(i) == x.log.TermAt(i);
  }

  lemma RestoredKeeps(x: Life, e: Event)
    requires LifeInv(x) && Enabled(x, e) && e.Restored?
    ensures Keeps(x, e)
  {
  }

  lemma CutKeeps(x: Life, e: Event)
    requires LifeInv(x) && Enabled(x, e) && e.CutStable?
    ensures Keeps(x, e)
  {
    CutMeans(x.stable, e.index);
  }

  lemma HandOutInOrder(handed: seq<Handed>, rd: Ready)
    requires InOrder(handed)
    requires rd.snapshot.Some? ==> rd.snapshot.value.index > Cursor(handed)
    requires NumberedFrom(rd.committed, (if rd.snapshot.Some? then rd.snapshot.value.index else Cursor(handed)) + 1)
    ensures InOrder(HandOut(handed, rd))
    ensures Cursor(HandOut(handed, rd)) ==
            (if rd.snapshot.Some? then rd.snapshot.value.index else Cursor(handed)) + |rd.committed|
  {
    var middle := if rd.snapshot.Some? then handed + [HandedSnapshot(rd.snapshot.value.index)] else handed;
    if rd.snapshot.Some? {
      assert middle[..|middle| - 1] == handed;
    }
    var all := HandOut(handed, rd);
    assert all[..|all| - 1] == middle;
  }

  lemma TakeKeeps(x: Life, e: Event)
    requires LifeInv(x) && Enabled(x, e) && e.TakeReady?
    ensures Keeps(x, e)
  {
    var rd := ReadyOf(x.log, x.pending).value;
    HandOutInOrder(x.handed, rd);
  }

  /** The two logs are the same, index by index and term by term. */
  ghost predicate Mirrors(l: RaftLog, s: StableLog) {
    && s.index == l.snapIndex && s.term == l.snapTerm && s.Last() == l.LastIndex()
    && forall i :: 0 <= i < |l.entries| ==> SameSlot(s.entries[i], l.entries[i])
  }

  /** What Save starts from holds the log up to the stable mark. */
  lemma BaseAgrees(l: RaftLog, s: StableLog, rd: Ready)
    requires Marks(l) && s.Numbered() && StorageOk(l, s, rd.snapshot)
    ensures var base := Base(s, rd);
            && base.Numbered() && AgreeUpTo(l, base, l.stabled)
            && (l.stabled == l.LastIndex() ==> base.Last() == l.stabled)
            && (l.snapIndex < base.index ==> base.index < l.LastIndex())
            && base.index <= l.committed
  {
  }

  lemma UnstableAt(l: RaftLog, i: nat)
    requires Marks(l) && l.stabled < i <= l.LastIndex()
    ensures i - l.stabled - 1 < |Unstable(l)|
    ensures Unstable(l)[i - l.stabled - 1].index == i && Unstable(l)[i - l.stabled - 1].term == l.TermAt(i)
  {
  }

  lemma WriteFillsUp(l: RaftLog, base: StableLog)
    requires Marks(l) && base.Numbered() && base.index <= l.stabled <= base.Last()
    requires l.stabled == l.LastIndex() ==> base.Last() == l.stabled
    ensures Contiguous(Unstable(l)) && Write(base, Unstable(l)).Some?
    ensures var s := Write(base, Unstable(l)).value;
            s.Numbered() && s.index == base.index && s.term == base.term && s.Last() == l.LastIndex()
  {
    var es := Unstable(l);
    assert NumberedFrom(es, l.stabled + 1);
    WriteFits(base, es);
    WriteNumbered(base, es, Write(base, es).value);
  }

  lemma WriteSyncs(l: RaftLog, base: StableLog)
    requires Marks(l) && base.Numbered() && AgreeUpTo(l, base, l.stabled)
    requires l.stabled == l.LastIndex() ==> base.Last() == l.stabled
    ensures Write(base, Unstable(l)).Some?
    ensures var s := Write(base, Unstable(l)).value;
            s.Numbered() && s.index == base.index && AgreeUpTo(l, s, l.LastIndex()) && s.Last() == l.LastIndex()
  {
    WriteFillsUp(l, base);
    var es := Unstable(l);
    var s := Write(base, es).value;
    forall i | s.index <= i <= l.LastIndex() ensures s.TermAt(i) == l.TermAt(i) {
      WrittenTerm(l, base, Unstable(l), s, i);
    }
  }

  /** A written entry is read back with its term. */
  lemma WrittenNew(base: StableLog, es: seq<Entry>, s: StableLog, k: nat)
    requires base.Numbered() && Contiguous(es) && Write(base, es) == Some(s) && s.index == base.index
    requires k < |es| && es[k].index > base.index
    ensures es[k].index <= s.Last() && s.TermAt(es[k].index) == es[k].term
  {
    WriteHolds(base, es, s, k);
  }

  /** What comes before the written entries is read back as before. */
  lemma WrittenOld(base: StableLog, es: seq<Entry>, s: StableLog, i: nat)
    requires base.Numbered() && Contiguous(es) && Write(base, es) == Some(s)
    requires s.index == base.index && s.term == base.term
    requires s.index <= i <= s.Last() && i <= base.Last() && (es == [] || i < es[0].index)
    ensures s.TermAt(i) == base.TermAt(i)
  {
    if s.index < i { WriteKeeps(base, es, s, i); }
  }

  lemma WrittenUnstable(l: RaftLog, base: StableLog, es: seq<Entry>, s: StableLog, i: nat)
    requires Marks(l) && es == Unstable(l) && base.Numbered() && Contiguous(es) && Write(base, es) == Some(s)
    requires s.index == base.index <= l.stabled < i <= l.LastIndex()
    ensures i <= s.Last() && s.TermAt(i) == l.TermAt(i)
  {
    UnstableAt(l, i);
    WrittenNew(base, es, s, i - l.stabled - 1);
  }

  lemma UnstableBegins(l: RaftLog, es: seq<Entry>)
    requires Marks(l) && es == Unstable(l) && es != []
    ensures es[0].index == l.stabled + 1
  {
  }

  lemma WrittenTerm(l: RaftLog, base: StableLog, es: seq<Entry>, s: StableLog, i: nat)
    requires Marks(l) && es == Unstable(l) && base.Numbered() && Contiguous(es) && Write(base, es) == Some(s)
    requires s.index == base.index && s.term == base.term && base.index <= l.stabled <= base.Last()
    requires s.index <= i <= l.LastIndex() == s.Last() && (i <= l.stabled ==> base.TermAt(i) == l.TermAt(i))
    ensures s.TermAt(i) == l.TermAt(i)
  {
    if i > l.stabled {
      WrittenUnstable(l, base, es, s, i);
    } else {
      if es != [] { UnstableBegins(l, es); }
      WrittenOld(base, es, s, i);
    }
  }

  lemma SaveKeeps(x: Life, e: Event)
    requires LifeInv(x) && Enabled(x, e) && e.SaveReady?
    ensures Keeps(x, e)
  {
    BaseAgrees(x.log, x.stable, x.phase.rd);
    WriteSyncs(x.log, Base(x.stable, x.phase.rd));
  }

  lemma AdvanceMirrors(l: RaftLog, s: StableLog, rd: Ready)
    requires Marks(l) && s.Numbered() && Synced(l, s) && s.index <= l.committed
    requires rd.entries == Unstable(l) && rd.committed == NextEnts(l)
    ensures MaybeCompact(Marked(l, rd), s.index).Some?
    ensures var r := MaybeCompact(Marked(l, rd), s.index).value;
            && Marks(r) && Mirrors(r, s) && r.stabled == r.LastIndex() && r.applied == r.committed == l.committed
  {
    var r := MaybeCompact(Marked(l, rd), s.index).value;
    assert s.TermAt(s.index) == l.TermAt(s.index);
    forall i | 0 <= i < |r.entries| ensures SameSlot(s.entries[i], r.entries[i]) {
      assert s.TermAt(s.index + i + 1) == l.TermAt(s.index + i + 1);
    }
  }

  lemma MirroredIsInStep(r: RaftLog, s: StableLog)
    requires Marks(r) && s.Numbered() && Mirrors(r, s) && r.stabled == r.LastIndex()
    ensures StorageOk(r, s, None)
  {
    assert forall i :: s.index <= i <= r.stabled ==> s.TermAt(i) == r.TermAt(i);
  }

  /** After Advance memory and storage are the same log, all of it stable and all that is committed applied. */
  lemma AdvanceKeeps(x: Life, e: Event)
    requires LifeInv(x) && Enabled(x, e) && e.Advance?
    ensures Keeps(x, e)
    ensures var y := Next(x, e).value;
            && y.stable == x.stable && Mirrors(y.log, y.stable)
            && y.log.stabled == y.log.LastIndex() && y.log.applied == y.log.committed
  {
    AdvanceMirrors(x.log, x.stable, x.phase.rd);
    MirroredIsInStep(MaybeCompact(Marked(x.log, x.phase.rd), x.stable.index).value, x.stable);
  }
}
