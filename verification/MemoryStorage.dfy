/** The in-memory log storage: a list of entries behind a dummy that stands for what was cut off. */
module MemoryStorages {
  import opened Common
  import opened RaftTypes
  import opened StableLogs

  class MemoryStorage {
    var ents: seq<Entry>
    var snapshotIndex: nat
    var snapshotTerm: nat

    constructor ()
      ensures Valid() && View() == StableLog(0, 0, [])
    {
      ents := [Entry(0, 0, 0, [])];
      snapshotIndex, snapshotTerm := 0, 0;
    }

    ghost predicate Valid()
      reads this
    {
      ents != [] && NumberedFrom(ents, ents[0].index)
    }

    ghost function View(): (s: StableLog)
      requires Valid()
      reads this
      ensures s.Numbered() && s.Last() == ents[0].index + |ents| - 1
    {
      StableLog(ents[0].index, ents[0].term, ents[1..])
    }

    method LastIndex() returns (last: nat)
      requires Valid()
      ensures last == View().Last()
    {
      return ents[0].index + |ents| - 1;
    }

    method FirstIndex() returns (first: nat)
      requires Valid()
      ensures first == View().index + 1
    {
      return ents[0].index + 1;
    }

    /** A range that reaches beyond the log, or is turned round, is a panic. */
    method Entries(lo: nat, hi: nat) returns (r: Lookup<seq<Entry>>)
      requires Valid()
      ensures r == if SliceOf(View(), lo, hi).OutOfBounds? then Lookup.Panicked else SliceOf(View(), lo, hi)
    {
      var offset := ents[0].index;
      if lo <= offset { return Compacted; }
      var last := LastIndex();
      if hi > last + 1 || lo > hi { return Lookup.Panicked; }
      var found := ents[lo - offset..hi - offset];
      assert forall k :: 0 <= k < hi - lo ==> found[k] == ents[1..][lo - offset - 1 + k];
      assert found == View().entries[lo - offset - 1..hi - offset - 1];
      return Found(found);
    }

    method Term(i: nat) returns (r: Lookup<nat>)
      requires Valid()
      ensures r == TermOf(View(), i)
    {
      var offset := ents[0].index;
      if i < offset { return Compacted; }
      if i - offset >= |ents| { return OutOfBounds; }
      return Found(ents[i - offset].term);
    }

    /** Put a run of entries behind what is kept; false is a panic for a missing entry. */
    method Overwrite(rest: seq<Entry>) returns (ok: bool)
      requires Valid() && rest != [] && NumberedFrom(rest, rest[0].index) && ents[0].index < rest[0].index
      modifies this`ents
      ensures Valid() && (ok <==> rest[0].index <= old(View()).Last() + 1)
      ensures var was := old(View());
              View() == if ok then was.(entries := was.entries[..rest[0].index - was.index - 1] + rest) else was
    {
      var offset := rest[0].index - ents[0].index;
      if |ents| < offset { return false; }
      ghost var kept := View().entries[..offset - 1];
      assert ents[..offset][1..] == kept;
      ents := ents[..offset] + rest;
      assert ents[1..] == kept + rest;
      return true;
    }

    /** Overwrite the end of the log, leaving alone what has been cut off; false is a panic for a missing entry. */
    method Append(entries: seq<Entry>) returns (ok: bool)
      requires Valid() && Contiguous(entries)
      modifies this`ents
      ensures Valid() && (ok <==> Write(old(View()), entries).Some?)
      ensures if ok then Some(View()) == Write(old(View()), entries) else View() == old(View())
    {
      if |entries| == 0 { return true; }
      var first := FirstIndex();
      var last := entries[0].index + |entries| - 1;
      if last < first { return true; }
      var rest := entries;
      if first > entries[0].index { rest := entries[first - entries[0].index..]; }
      assert rest == Beyond(View(), entries);
      ok := Overwrite(rest);
    }

    /** Cut the log at an index: an error if it has been cut there before, a panic beyond its end. */
    method Compact(compactIndex: nat) returns (r: Lookup<()>)
      requires Valid()
      modifies this`ents
      ensures Valid()
      ensures if compactIndex <= old(View()).index then r == Compacted && View() == old(View())
              else if compactIndex > old(View()).Last() then r == Lookup.Panicked && View() == old(View())
              else r == Found(()) && View() == Cut(old(View()), compactIndex)
    {
      var offset := ents[0].index;
      if compactIndex <= offset { return Compacted; }
      var last := LastIndex();
      if compactIndex > last { return Lookup.Panicked; }
      var i := compactIndex - offset;
      ghost var kept := View().entries[i..];
      assert kept == ents[i + 1..];
      ents := [Entry(0, ents[i].term, ents[i].index, [])] + ents[i + 1..];
      assert ents[1..] == kept;
      return Found(());
    }

    /** Replace the log by a snapshot, unless a newer snapshot is already here. */
    method ApplySnapshot(index: nat, term: nat) returns (ok: bool)
      requires Valid()
      modifies this
      ensures Valid() && (ok <==> old(snapshotIndex) < index)
      ensures if ok then View() == Reset(index, term) && snapshotIndex == index && snapshotTerm == term
              else View() == old(View()) && snapshotIndex == old(snapshotIndex) && snapshotTerm == old(snapshotTerm)
    {
      if snapshotIndex >= index { return false; }
      snapshotIndex, snapshotTerm := index, term;
      ents := [Entry(0, term, index, [])];
      return true;
    }
  }
}
