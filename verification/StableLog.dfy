/** A log that can be cut at the front and overwritten at the back: what both log storages implement. */
module StableLogs {
  import opened Common
  import opened RaftTypes

  /** Everything up to `index`, whose last term was `term`, is gone; the entries follow. */
  datatype StableLog = StableLog(index: nat, term: nat, entries: seq<Entry>)
  {
    ghost predicate Numbered() {
      NumberedFrom(entries, index + 1)
    }

    function Last(): nat {
      index + |entries|
    }

    function At(i: nat): Entry
      requires index < i <= Last()
    {
      entries[i - index - 1]
    }

    function TermAt(i: nat): nat
      requires index <= i <= Last()
    {
      if i == index then term else At(i).term
    }
  }

  /** The part of a run of entries that lies beyond the cut. */
  function Beyond(s: StableLog, es: seq<Entry>): (r: seq<Entry>)
    ensures |r| <= |es| && r == es[|es| - |r|..]
  {
    if es == [] || es[0].index > s.index then es
    else if s.index + 1 - es[0].index >= |es| then []
    else es[s.index + 1 - es[0].index..]
  }

  /** Overwrite the log from the first entry beyond the cut on; `None` if that would leave a gap. */
  function Write(s: StableLog, es: seq<Entry>): Option<StableLog> {
    var written := Beyond(s, es);
    if written == [] then Some(s)
    else if s.index < written[0].index <= s.Last() + 1 then
      Some(s.(entries := s.entries[..written[0].index - s.index - 1] + written))
    else None
  }

  ghost predicate Contiguous(es: seq<Entry>) {
    es != [] ==> NumberedFrom(es, es[0].index)
  }

  /** Writing fails exactly when the entries start behind a gap. */
  lemma WriteFits(s: StableLog, es: seq<Entry>)
    requires s.Numbered() && Contiguous(es)
    ensures Write(s, es).None? <==> es != [] && es[0].index > s.Last() + 1
  {
  }

  /** What lies beyond the cut is the end of the run, from its first index past the cut. */
  lemma BeyondMeans(s: StableLog, es: seq<Entry>) returns (from: nat)
    requires Contiguous(es)
    ensures from <= |es| && Beyond(s, es) == es[from..]
    ensures forall k :: 0 <= k < |es| ==> (es[k].index > s.index <==> from <= k)
    ensures Beyond(s, es) != [] ==> NumberedFrom(Beyond(s, es), es[from].index)
  {
    from := if es == [] || es[0].index > s.index then 0 else Min(s.index + 1 - es[0].index, |es|);
    assert es[0..] == es && es[|es|..] == [];
    assert forall k :: 0 <= k < |es| ==> es[k].index == es[0].index + k;
  }

  /** Writing replaces the log from the first entry past the cut, and the log then ends with the last one written. */
  lemma WriteShape(s: StableLog, es: seq<Entry>, r: StableLog) returns (keep: nat, from: nat)
    requires s.Numbered() && Contiguous(es) && Write(s, es) == Some(r)
    ensures from <= |es| && keep <= |s.entries|
    ensures forall k :: 0 <= k < |es| ==> (es[k].index > s.index <==> from <= k)
    ensures r == s.(entries := s.entries[..keep] + es[from..])
    ensures from < |es| ==> es[from].index == s.index + keep + 1
    ensures from == |es| ==> keep == |s.entries|
  {
    from := BeyondMeans(s, es);
    keep := if from == |es| then |s.entries| else es[from].index - s.index - 1;
  }

  lemma WriteNumbered(s: StableLog, es: seq<Entry>, r: StableLog)
    requires s.Numbered() && Contiguous(es) && Write(s, es) == Some(r)
    ensures r.Numbered() && r.index == s.index && r.term == s.term
    ensures if es != [] && es[|es| - 1].index > s.index then r.Last() == es[|es| - 1].index else r == s
  {
    var keep, from := WriteShape(s, es, r);
    assert es != [] ==> es[|es| - 1].index == es[0].index + |es| - 1;
    forall k | 0 <= k < |r.entries| ensures r.entries[k].index == s.index + 1 + k {
      if k >= keep { assert r.entries[k] == es[from + k - keep]; }
    }
  }

  /** The written log, given how much of the old one was kept and where the written part starts. */
  lemma ShapeHolds(s: StableLog, es: seq<Entry>, r: StableLog, keep: nat, from: nat, k: nat)
    requires Contiguous(es) && keep <= |s.entries| && from <= k < |es|
    requires r == s.(entries := s.entries[..keep] + es[from..]) && es[from].index == s.index + keep + 1
    ensures r.index < es[k].index <= r.Last() && r.At(es[k].index) == es[k]
  {
    assert es[k].index == es[0].index + k && es[from].index == es[0].index + from;
    assert r.entries[keep + (k - from)] == es[k];
  }

  /** A written entry that is not cut off is found at its index. */
  lemma WriteHolds(s: StableLog, es: seq<Entry>, r: StableLog, k: nat)
    requires s.Numbered() && Contiguous(es) && Write(s, es) == Some(r)
    requires k < |es| && es[k].index > s.index
    ensures es[k].index <= r.Last() && r.At(es[k].index) == es[k]
  {
    var keep, from := WriteShape(s, es, r);
    ShapeHolds(s, es, r, keep, from, k);
  }

  /** Nothing before the first entry written changes. */
  lemma WriteKeeps(s: StableLog, es: seq<Entry>, r: StableLog, i: nat)
    requires s.Numbered() && Contiguous(es) && Write(s, es) == Some(r)
    requires s.index < i <= r.Last() && (es == [] || i < es[0].index)
    ensures i <= s.Last() && r.At(i) == s.At(i)
  {
  }

  /** Entry `i` of the written log comes from the old log or from the entries written. */
  lemma WriteAt(s: StableLog, es: seq<Entry>, r: StableLog, i: nat)
    requires s.Numbered() && Contiguous(es) && Write(s, es) == Some(r) && (es != [] ==> es[0].index > s.index)
    requires r.index < i <= r.Last()
    ensures r.index == s.index
    ensures if es == [] || i < es[0].index then i <= s.Last() && r.At(i) == s.At(i)
            else i - es[0].index < |es| && r.At(i) == es[i - es[0].index]
  {
    var keep, from := WriteShape(s, es, r);
  }

  function Cut(s: StableLog, i: nat): StableLog
    requires s.index < i <= s.Last()
  {
    StableLog(i, s.TermAt(i), s.entries[i - s.index..])
  }

  /** Cutting changes no answer about the indices that remain, the index of the cut included. */
  lemma CutMeans(s: StableLog, i: nat)
    requires s.Numbered() && s.index < i <= s.Last()
    ensures var r := Cut(s, i);
            && r.Numbered() && r.index == i && r.Last() == s.Last()
            && (forall j :: i < j <= r.Last() ==> r.At(j) == s.At(j))
            && (forall j :: i <= j <= r.Last() ==> r.TermAt(j) == s.TermAt(j))
  {
  }

  function Reset(i: nat, term: nat): StableLog {
    StableLog(i, term, [])
  }

  // ---------------------------------------------------------------- looking things up

  datatype Lookup<+T> = Found(value: T) | Compacted | OutOfBounds | Panicked

  /** The entries from `lo` up to but not including `hi`. */
  ghost function SliceOf(s: StableLog, lo: nat, hi: nat): Lookup<seq<Entry>> {
    if lo <= s.index then Compacted
    else if hi > s.Last() + 1 || lo > hi then OutOfBounds
    else Found(s.entries[lo - s.index - 1..hi - s.index - 1])
  }

  ghost function TermOf(s: StableLog, i: nat): Lookup<nat> {
    if i < s.index then Compacted else if i > s.Last() then OutOfBounds else Found(s.TermAt(i))
  }

  /** A slice has exactly the entries of its indexes; what was cut off and what is beyond the end is no slice. */
  lemma SliceMeans(s: StableLog, lo: nat, hi: nat)
    requires s.Numbered()
    ensures SliceOf(s, lo, hi) == Compacted <==> lo <= s.index
    ensures SliceOf(s, lo, hi).Found? <==> s.index < lo <= hi <= s.Last() + 1
    ensures SliceOf(s, lo, hi).Found? ==>
              var es := SliceOf(s, lo, hi).value;
              |es| == hi - lo && forall i :: lo <= i < hi ==> es[i - lo] == s.At(i) && es[i - lo].index == i
  {
  }

  /** Every index from the cut through the last one has a term: its entry's, or the one noted for the cut. */
  lemma TermMeans(s: StableLog, i: nat)
    ensures TermOf(s, i).Found? <==> s.index <= i <= s.Last()
    ensures TermOf(s, i) == Compacted <==> i < s.index
    ensures TermOf(s, s.index) == Found(s.term)
    ensures s.index < i <= s.Last() ==> TermOf(s, i) == Found(s.At(i).term)
  {
  }

  /** A cut changes no answer about what remains. */
  lemma CutKeepsAnswers(s: StableLog, i: nat, lo: nat, hi: nat)
    requires s.Numbered() && s.index < i <= s.Last()
    ensures lo > i ==> SliceOf(Cut(s, i), lo, hi) == SliceOf(s, lo, hi)
    ensures lo >= i ==> TermOf(Cut(s, i), lo) == TermOf(s, lo)
  {
    CutMeans(s, i);
    if i < lo <= hi <= s.Last() + 1 {
      assert s.entries[i - s.index..][lo - i - 1..hi - i - 1] == s.entries[lo - s.index - 1..hi - s.index - 1];
    }
  }
}
