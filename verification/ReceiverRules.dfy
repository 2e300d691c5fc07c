/**
 Receiver rules 3 and 4 of Figure 2 of "In Search of an Understandable Consensus Algorithm", taken entry by
 entry, and the proof that installing a shipment in one piece leaves the same log.
 */
module ReceiverRules {
  import opened Common
  import opened RaftTypes
  import opened RaftStep

  /** The run of entries continues the log or overlaps it: it leaves no gap. */
  ghost predicate Fits(base: nat, log: seq<Entry>, es: seq<Entry>) {
    && NumberedFrom(log, base + 1)
    && (es != [] ==> NumberedFrom(es, es[0].index) && base < es[0].index <= base + |log| + 1)
  }

  /** One entry at a time: skip it if it is there, else drop whatever is at its index and after, and append it. */
  ghost function Receive(base: nat, log: seq<Entry>, es: seq<Entry>): seq<Entry>
    requires Fits(base, log, es)
    decreases |es|
  {
    if es == [] then log
    else
      var pos := es[0].index - base - 1;
      if pos < |log| && log[pos].term == es[0].term then Receive(base, log, es[1..])
      else Receive(base, log[..pos] + [es[0]], es[1..])
  }

  ghost predicate SameSlots(a: seq<Entry>, b: seq<Entry>) {
    |a| == |b| && forall i :: 0 <= i < |a| ==> SameSlot(a[i], b[i])
  }

  lemma {:induction false} ReceiveAppends(base: nat, log: seq<Entry>, es: seq<Entry>)
    requires Fits(base, log, es) && (es != [] ==> es[0].index == base + |log| + 1)
    ensures Receive(base, log, es) == log + es
    decreases |es|
  {
    if es == [] {
      assert log + es == log;
    } else {
      ReceiveAppends(base, log[..|log|] + [es[0]], es[1..]);
      assert log[..|log|] + [es[0]] + es[1..] == log + es;
    }
  }

  /** What the rules come to, given the number of shipped entries that the log already holds. */
  ghost function Merged(log: seq<Entry>, kept: nat, es: seq<Entry>, k: nat): seq<Entry>
    requires kept <= |log| && k <= |es| && kept + k <= |log|
  {
    if k == |es| then log else log[..kept + k] + es[k..]
  }

  lemma MergedStep(log: seq<Entry>, kept: nat, es: seq<Entry>, k: nat)
    requires kept < |log| && k < |es| && kept + 1 + k <= |log|
    ensures Merged(log, kept + 1, es[1..], k) == Merged(log, kept, es, k + 1)
  {
    assert es[1..][k..] == es[k + 1..];
  }

  lemma FirstConflictStep(log: seq<Entry>, kept: nat, es: seq<Entry>)
    requires kept < |log| && es != [] && SameSlot(log[kept], es[0])
    ensures FirstConflict(log[kept..], es) == 1 + FirstConflict(log[kept + 1..], es[1..])
  {
    assert log[kept..][1..] == log[kept + 1..];
  }

  lemma ReceiveSkips(base: nat, log: seq<Entry>, kept: nat, es: seq<Entry>)
    requires kept < |log| && Fits(base, log, es) && es != [] && es[0].index == base + kept + 1
    requires log[kept].term == es[0].term
    ensures Fits(base, log, es[1..]) && Receive(base, log, es) == Receive(base, log, es[1..])
  {
  }

  lemma ReceiveReplaces(base: nat, log: seq<Entry>, kept: nat, es: seq<Entry>)
    requires kept <= |log| && Fits(base, log, es) && es != [] && es[0].index == base + kept + 1
    requires kept < |log| ==> log[kept].term != es[0].term
    ensures Receive(base, log, es) == log[..kept] + es
  {
    ReceiveAppends(base, log[..kept] + [es[0]], es[1..]);
    assert log[..kept] + [es[0]] + es[1..] == log[..kept] + es;
  }

  /** The rules keep the log up to the first conflict, and all of it if there is none and it reaches further. */
  lemma {:induction false} ReceiveMeans(base: nat, log: seq<Entry>, kept: nat, es: seq<Entry>)
    requires kept <= |log| && Fits(base, log, es) && NumberedFrom(es, base + kept + 1)
    ensures Receive(base, log, es) == Merged(log, kept, es, FirstConflict(log[kept..], es))
    decreases |es|
  {
    if es == [] {
    } else if kept < |log| && log[kept].term == es[0].term {
      FirstConflictStep(log, kept, es);
      MergedStep(log, kept, es, FirstConflict(log[kept + 1..], es[1..]));
      ReceiveSkips(base, log, kept, es);
      ReceiveMeans(base, log, kept + 1, es[1..]);
    } else {
      assert FirstConflict(log[kept..], es) == 0;
      ReceiveReplaces(base, log, kept, es);
    }
  }

  lemma SlotsOfReplaced(log: seq<Entry>, kept: nat, es: seq<Entry>, k: nat)
    requires kept + k <= |log| && k <= |es| && forall i :: 0 <= i < k ==> SameSlot(log[kept + i], es[i])
    ensures SameSlots(log[..kept] + es, log[..kept + k] + es[k..])
  {
    var a, b := log[..kept] + es, log[..kept + k] + es[k..];
    forall i | 0 <= i < |a| ensures SameSlot(a[i], b[i]) {
      if kept <= i < kept + k { assert SameSlot(log[kept + (i - kept)], es[i - kept]); }
    }
  }

  /** Installing in one piece differs from the merged log in no index and no term. */
  lemma InstalledSlots(log: seq<Entry>, kept: nat, es: seq<Entry>, k: nat)
    requires kept + k <= |log| && k <= |es| && forall i :: 0 <= i < k ==> SameSlot(log[kept + i], es[i])
    ensures SameSlots(if es == [] || (|log| - kept > |es| && k == |es|) then log else log[..kept] + es,
                      Merged(log, kept, es, k))
  {
    SlotsOfReplaced(log, kept, es, k);
    if kept + k == |log| && k == |es| { assert log[..kept + k] + es[k..] == log; }
  }

  /** Before the first conflict the log and the shipment agree; there they do not. */
  lemma ConflictFacts(log: seq<Entry>, kept: nat, es: seq<Entry>) returns (k: nat)
    requires kept <= |log|
    ensures k == FirstConflict(log[kept..], es) && kept + k <= |log| && k <= |es|
    ensures forall i :: 0 <= i < k ==> SameSlot(log[kept + i], es[i])
    ensures kept + k < |log| && k < |es| ==> !SameSlot(log[kept + k], es[k])
  {
    k := FirstConflict(log[kept..], es);
    forall i | 0 <= i < k ensures SameSlot(log[kept + i], es[i]) {
      assert log[kept..][i] == log[kept + i];
    }
  }

  /** Installing a shipment follows the receiver rules. */
  lemma InstallFollowsRules(l: RaftLog, kept: nat, es: seq<Entry>)
    requires l.Numbered() && kept <= |l.entries| && NumberedFrom(es, l.snapIndex + kept + 1)
    ensures Fits(l.snapIndex, l.entries, es)
    ensures SameSlots(Install(l, kept, es).entries, Receive(l.snapIndex, l.entries, es))
  {
    ReceiveMeans(l.snapIndex, l.entries, kept, es);
    var k := ConflictFacts(l.entries, kept, es);
    InstalledSlots(l.entries, kept, es, k);
  }

  /** A delayed shipment that the log already holds, and anything it holds beyond, is left as it is. */
  lemma DelayedShipmentKeepsSuffix(l: RaftLog, kept: nat, es: seq<Entry>)
    requires l.Numbered() && kept + |es| < |l.entries|
    requires SameSlots(l.entries[kept..kept + |es|], es)
    ensures Install(l, kept, es) == l
  {
    assert forall i :: 0 <= i < |es| ==> l.entries[kept..][i] == l.entries[kept..kept + |es|][i];
  }

  /** Index `i` is in both logs, with the same term. */
  ghost predicate SlotKept(l: RaftLog, r: RaftLog, i: nat) {
    l.snapIndex < i <= l.LastIndex() && i <= r.LastIndex() && r.snapIndex == l.snapIndex && l.TermAt(i) == r.TermAt(i)
  }

  lemma SlotsStay(l: RaftLog, r: RaftLog, kept: nat, es: seq<Entry>, k: nat, i: nat)
    requires l.Numbered() && kept <= |l.entries| && k <= |es| && kept + k <= |l.entries| && r.snapIndex == l.snapIndex
    requires forall j :: 0 <= j < k ==> SameSlot(l.entries[kept + j], es[j])
    requires r.entries == l.entries || r.entries == l.entries[..kept] + es
    requires l.snapIndex < i <= l.LastIndex() && (i <= l.snapIndex + kept + k || r.entries == l.entries)
    ensures SlotKept(l, r, i)
  {
    var pos := i - l.snapIndex - 1;
    if kept <= pos < kept + k { assert SameSlot(l.entries[kept + (pos - kept)], es[pos - kept]); }
  }

  /** The stable mark covers no changed entry, and is lowered no further than that takes. */
  lemma StableMarkIsExact(l: RaftLog, kept: nat, es: seq<Entry>)
    requires l.Numbered() && kept <= |l.entries| && NumberedFrom(es, l.snapIndex + kept + 1)
    requires l.stabled <= l.LastIndex()
    ensures var r := Install(l, kept, es);
            && r.stabled <= l.stabled
            && (forall i :: l.snapIndex < i <= r.stabled ==> SlotKept(l, r, i))
            && (r.stabled < l.stabled ==> !SlotKept(l, r, r.stabled + 1))
  {
    var r := Install(l, kept, es);
    var k := ConflictFacts(l.entries, kept, es);
    InstallMark(l, kept, es, k);
    forall i | l.snapIndex < i <= r.stabled ensures SlotKept(l, r, i) {
      SlotsStay(l, r, kept, es, k, i);
    }
  }

  /** What installing does to the entries and to the stable mark. */
  lemma InstallMark(l: RaftLog, kept: nat, es: seq<Entry>, k: nat)
    requires l.Numbered() && kept <= |l.entries| && NumberedFrom(es, l.snapIndex + kept + 1)
    requires k == FirstConflict(l.entries[kept..], es) && l.stabled <= l.LastIndex()
    ensures var r, conflict := Install(l, kept, es), k < |l.entries| - kept && k < |es|;
            && r.snapIndex == l.snapIndex && r.snapTerm == l.snapTerm
            && r.stabled == (if conflict then Min(l.stabled, l.snapIndex + kept + k) else l.stabled)
            && (if !conflict && (es == [] || |l.entries| - kept > |es|) then r.entries == l.entries
                else r.entries == l.entries[..kept] + es)
            && (conflict ==> l.entries[kept + k].term != es[k].term)
  {
    var dropped := l.entries[kept..];
    if k < |dropped| && k < |es| {
      assert dropped[k] == l.entries[kept + k];
      assert dropped[k].index == es[k].index == l.snapIndex + kept + k + 1;
    }
  }
}
