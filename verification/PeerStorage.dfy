/**
 The log storage of a region's peer: encoded entries under ordered keys in an engine that all regions share,
 with the last index and the cut kept beside it.
 */
module PeerStorages {
  import opened Common
  import opened Bytes
  import opened Keys
  import opened EntryCodec
  import opened RaftTypes
  import opened StableLogs
  import opened LogLife

  type Engine = map<Key, seq<byte>>

  // ---------------------------------------------------------------- write batches

  datatype Op = Put(key: Key, value: seq<byte>) | Delete(key: Key)

  function Do(db: Engine, op: Op): Engine {
    match op
    case Put(k, v) => db[k := v]
    case Delete(k) => db - {k}
  }

  /** The engine after a batch, operation by operation. */
  function Run(db: Engine, batch: seq<Op>): Engine {
    if batch == [] then db else Do(Run(db, batch[..|batch| - 1]), batch[|batch| - 1])
  }

  lemma {:induction false} RunConcat(db: Engine, a: seq<Op>, b: seq<Op>)
    ensures Run(db, a + b) == Run(Run(db, a), b)
  {
    if b == [] {
      assert a + b == a;
    } else {
      var init := b[..|b| - 1];
      RunConcat(db, a, init);
      assert (a + b)[..|a + b| - 1] == a + init;
    }
  }

  ghost predicate AllKnown(db: Engine) {
    forall k :: k in db ==> Known(k)
  }

  // ---------------------------------------------------------------- what the engine holds of a log

  function KeyOf(region: nat, e: Entry): Key {
    RaftLogKey(region, e.index)
  }

  /** Index `i` of the log is stored under its key. */
  ghost predicate StoredAt(db: Engine, region: nat, log: StableLog, i: nat) {
    log.index < i <= log.Last() ==>
      var e := log.At(i);
      e.index == i && EntryCodec.Fits(e) && RaftLogKey(region, i) in db && db[RaftLogKey(region, i)] == Encoding(e)
  }

  ghost predicate Holds(db: Engine, region: nat, log: StableLog) {
    forall i {:trigger StoredAt(db, region, log, i)} :: StoredAt(db, region, log, i)
  }

  /** Terms never decrease along the log. */
  ghost predicate TermsGrow(log: StableLog) {
    forall i, j :: log.index <= i <= j <= log.Last() ==> log.TermAt(i) <= log.TermAt(j)
  }

  function Puts(region: nat, es: seq<Entry>): (ops: seq<Op>)
    ensures |ops| == |es|
  {
    seq(|es|, i requires 0 <= i < |es| => Put(KeyOf(region, es[i]), Encoding(es[i])))
  }

  lemma RunLast(db: Engine, ops: seq<Op>, n: nat)
    requires n < |ops|
    ensures Run(db, ops[..n + 1]) == Do(Run(db, ops[..n]), ops[n])
  {
    assert ops[..n + 1][..n] == ops[..n];
  }

  lemma RunPutsStep(db: Engine, region: nat, es: seq<Entry>, n: nat)
    requires n < |es|
    ensures Run(db, Puts(region, es)[..n + 1]) ==
            Run(db, Puts(region, es)[..n])[KeyOf(region, es[n]) := Encoding(es[n])]
  {
    RunLast(db, Puts(region, es), n);
  }

  /** A batch of entries touches no key but theirs. */
  lemma {:induction false} RunPutsElse(db: Engine, region: nat, es: seq<Entry>, n: nat, key: Key)
    requires n <= |es| && forall k :: 0 <= k < n ==> key != KeyOf(region, es[k])
    ensures var r := Run(db, Puts(region, es)[..n]);
            (key in r <==> key in db) && (key in db ==> r[key] == db[key])
  {
    if n == 0 {
      assert Puts(region, es)[..0] == [];
    } else {
      assert key != KeyOf(region, es[n - 1]);
      RunPutsElse(db, region, es, n - 1, key);
      RunPutsStep(db, region, es, n - 1);
    }
  }

  /** A batch of entries puts each under its key. */
  lemma {:induction false} RunPutsAt(db: Engine, region: nat, es: seq<Entry>, n: nat, k: nat)
    requires k < n <= |es| && forall i :: k < i < n ==> KeyOf(region, es[k]) != KeyOf(region, es[i])
    ensures var r := Run(db, Puts(region, es)[..n]);
            KeyOf(region, es[k]) in r && r[KeyOf(region, es[k])] == Encoding(es[k])
  {
    RunPutsStep(db, region, es, n - 1);
    if k < n - 1 { RunPutsAt(db, region, es, n - 1, k); }
  }

  lemma KeyDiffers(region: nat, i: nat, e: Entry)
    requires region < U64 && i < U64 && e.index < U64 && e.index != i
    ensures RaftLogKey(region, i) != KeyOf(region, e)
  {
    if RaftLogKey(region, i) == KeyOf(region, e) { LogKeysInjective(region, i, region, e.index); }
  }

  lemma OldStaysStored(db: Engine, region: nat, e: Entry, es: seq<Entry>)
    requires region < U64 && e.index < U64 && forall k :: 0 <= k < |es| ==> es[k].index < U64 && es[k].index != e.index
    requires KeyOf(region, e) in db && db[KeyOf(region, e)] == Encoding(e)
    ensures var r := Run(db, Puts(region, es)); KeyOf(region, e) in r && r[KeyOf(region, e)] == Encoding(e)
  {
    forall k | 0 <= k < |es| ensures KeyOf(region, e) != KeyOf(region, es[k]) { KeyDiffers(region, e.index, es[k]); }
    RunPutsElse(db, region, es, |es|, KeyOf(region, e));
    assert Puts(region, es)[..|es|] == Puts(region, es);
  }

  lemma NewIsStored(db: Engine, region: nat, es: seq<Entry>, k: nat)
    requires region < U64 && Contiguous(es) && k < |es| && forall i :: 0 <= i < |es| ==> es[i].index < U64
    ensures var r := Run(db, Puts(region, es)); KeyOf(region, es[k]) in r && r[KeyOf(region, es[k])] == Encoding(es[k])
  {
    forall i | k < i < |es| ensures KeyOf(region, es[k]) != KeyOf(region, es[i]) {
      assert es[k].index == es[0].index + k && es[i].index == es[0].index + i;
      KeyDiffers(region, es[k].index, es[i]);
    }
    RunPutsAt(db, region, es, |es|, k);
    assert Puts(region, es)[..|es|] == Puts(region, es);
  }

  ghost predicate Storable(log: StableLog, es: seq<Entry>) {
    && Contiguous(es)
    && forall k :: 0 <= k < |es| ==> EntryCodec.Fits(es[k]) && es[k].index > log.index
  }

  lemma StoredFrom(db: Engine, region: nat, r: StableLog, i: nat, e: Entry)
    requires r.index < i <= r.Last() && r.At(i) == e && e.index == i && EntryCodec.Fits(e)
    requires KeyOf(region, e) in db && db[KeyOf(region, e)] == Encoding(e)
    ensures StoredAt(db, region, r, i)
  {
  }

  lemma OldStored(db: Engine, region: nat, log: StableLog, es: seq<Entry>, r: StableLog, i: nat)
    requires region < U64 && log.index < i <= log.Last() && StoredAt(db, region, log, i)
    requires r.index < i <= r.Last() && r.At(i) == log.At(i)
    requires forall k :: 0 <= k < |es| ==> es[k].index < U64 && es[k].index != i
    ensures StoredAt(Run(db, Puts(region, es)), region, r, i)
  {
    OldStaysStored(db, region, log.At(i), es);
    StoredFrom(Run(db, Puts(region, es)), region, r, i, log.At(i));
  }

  lemma NewStored(db: Engine, region: nat, es: seq<Entry>, r: StableLog, i: nat, k: nat)
    requires region < U64 && Contiguous(es) && k < |es| && forall j :: 0 <= j < |es| ==> es[j].index < U64
    requires r.index < i <= r.Last() && r.At(i) == es[k] && es[k].index == i && EntryCodec.Fits(es[k])
    ensures StoredAt(Run(db, Puts(region, es)), region, r, i)
  {
    NewIsStored(db, region, es, k);
    StoredFrom(Run(db, Puts(region, es)), region, r, i, es[k]);
  }

  lemma PutsStore(db: Engine, region: nat, log: StableLog, es: seq<Entry>, r: StableLog, i: nat)
    requires region < U64 && log.Numbered() && StoredAt(db, region, log, i)
    requires Storable(log, es) && Write(log, es) == Some(r)
    ensures StoredAt(Run(db, Puts(region, es)), region, r, i)
  {
    if r.index < i <= r.Last() {
      WriteAt(log, es, r, i);
      if es == [] || i < es[0].index {
        OldStored(db, region, log, es, r, i);
      } else {
        NewStored(db, region, es, r, i, i - es[0].index);
      }
    }
  }

  /** Writing entries into the engine writes them into the log it holds. */
  lemma PutsWrite(db: Engine, region: nat, log: StableLog, es: seq<Entry>, r: StableLog)
    requires region < U64 && log.Numbered() && Holds(db, region, log)
    requires Storable(log, es) && Write(log, es) == Some(r)
    ensures Holds(Run(db, Puts(region, es)), region, r)
  {
    forall i ensures StoredAt(Run(db, Puts(region, es)), region, r, i) {
      assert StoredAt(db, region, log, i);
      PutsStore(db, region, log, es, r, i);
    }
  }

  // ---------------------------------------------------------------- one region's part of the engine

  ghost predicate OwnKey(region: nat, key: Key) {
    key == RaftStateKey(region) || exists i :: IsLogKey(key, region, i)
  }

  ghost predicate OwnOps(region: nat, batch: seq<Op>) {
    forall i :: 0 <= i < |batch| ==> OwnKey(region, batch[i].key)
  }

  /** The engine is as before but for the keys of one region. */
  ghost predicate OthersKept(region: nat, db: Engine, after: Engine) {
    forall key :: !OwnKey(region, key) ==> (key in after <==> key in db) && (key in db ==> after[key] == db[key])
  }

  lemma {:induction false} RunOwn(db: Engine, region: nat, batch: seq<Op>)
    requires region < U64 && OwnOps(region, batch) && AllKnown(db)
    ensures OthersKept(region, db, Run(db, batch)) && AllKnown(Run(db, batch))
  {
    if batch != [] {
      RunOwn(db, region, batch[..|batch| - 1]);
      var op := batch[|batch| - 1];
      assert OwnKey(region, op.key);
      assert Known(op.key) by {
        if op.key == RaftStateKey(region) { assert IsStateKey(op.key, region); }
      }
    }
  }

  lemma PutsOwn(region: nat, es: seq<Entry>)
    requires region < U64 && forall k :: 0 <= k < |es| ==> es[k].index < U64
    ensures OwnOps(region, Puts(region, es))
  {
    forall i | 0 <= i < |es| ensures OwnKey(region, Puts(region, es)[i].key) {
      assert IsLogKey(KeyOf(region, es[i]), region, es[i].index);
    }
  }

  /** The state that may be written with the entries. */
  function StateOps(region: nat, state: Option<seq<byte>>): seq<Op> {
    if state.Some? then [Put(RaftStateKey(region), state.value)] else []
  }

  lemma RunOne(db: Engine, op: Op)
    ensures Run(db, [op]) == Do(db, op)
  {
    assert [op][..0] == [];
  }

  lemma StateKeepsLog(db: Engine, region: nat, log: StableLog, state: Option<seq<byte>>)
    requires Holds(db, region, log)
    ensures Holds(Run(db, StateOps(region, state)), region, log)
  {
    if state.Some? {
      RunOne(db, Put(RaftStateKey(region), state.value));
      forall i ensures StoredAt(Run(db, StateOps(region, state)), region, log, i) {
        assert StoredAt(db, region, log, i);
        assert RaftLogKey(region, i) != RaftStateKey(region);
      }
    }
  }

  /** A whole batch: what is cleared, the entries, the state. */
  lemma SavedHolds(db: Engine, region: nat, cleared: seq<Op>, base: StableLog, es: seq<Entry>, r: StableLog,
                   state: Option<seq<byte>>)
    requires region < U64 && Holds(Run(db, cleared), region, base)
    requires base.Numbered() && Storable(base, es) && Write(base, es) == Some(r)
    ensures Holds(Run(db, cleared + Puts(region, es) + StateOps(region, state)), region, r)
  {
    var puts, tail := Puts(region, es), StateOps(region, state);
    RunConcat(db, cleared + puts, tail);
    RunConcat(db, cleared, puts);
    PutsWrite(Run(db, cleared), region, base, es, r);
    StateKeepsLog(Run(Run(db, cleared), puts), region, r, state);
  }

  lemma SavedOwn(db: Engine, region: nat, cleared: seq<Op>, es: seq<Entry>, state: Option<seq<byte>>)
    requires region < U64 && AllKnown(db) && OwnOps(region, cleared) && forall k :: 0 <= k < |es| ==> es[k].index < U64
    ensures var after := Run(db, cleared + Puts(region, es) + StateOps(region, state));
            AllKnown(after) && OthersKept(region, db, after)
  {
    PutsOwn(region, es);
    RunOwn(db, region, cleared + Puts(region, es) + StateOps(region, state));
  }

  /** Where a written log starts and ends. */
  ghost predicate Spans(base: StableLog, es: seq<Entry>, r: StableLog) {
    && r.Numbered() && r.index == base.index && r.term == base.term
    && if es == [] then r == base
       else r.Last() == es[|es| - 1].index && r.TermAt(r.Last()) == es[|es| - 1].term
  }

  lemma WriteSpans(base: StableLog, es: seq<Entry>, r: StableLog)
    requires base.Numbered() && Storable(base, es) && Write(base, es) == Some(r)
    ensures Spans(base, es, r)
  {
    WriteNumbered(base, es, r);
    if es != [] { WriteHolds(base, es, r, |es| - 1); }
  }

  lemma SavedAll(db: Engine, region: nat, cleared: seq<Op>, base: StableLog, es: seq<Entry>, r: StableLog,
                 state: Option<seq<byte>>)
    requires region < U64 && AllKnown(db) && OwnOps(region, cleared) && Holds(Run(db, cleared), region, base)
    requires base.Numbered() && Storable(base, es) && Write(base, es) == Some(r)
    ensures Spans(base, es, r)
    ensures var after := Run(db, cleared + Puts(region, es) + StateOps(region, state));
            Holds(after, region, r) && AllKnown(after) && OthersKept(region, db, after)
  {
    SavedHolds(db, region, cleared, base, es, r, state);
    SavedOwn(db, region, cleared, es, state);
    WriteSpans(base, es, r);
  }

  // ---------------------------------------------------------------- reading the log back

  /** The least key at or above a log key that is there is that key. */
  lemma SeekHits(db: Engine, region: nat, index: nat, k: Option<Key>)
    requires RaftLogKey(region, index) in db && IsSeek(db.Keys, RaftLogKey(region, index), k)
    ensures k == Some(RaftLogKey(region, index))
  {
    var key := RaftLogKey(region, index);
    BeforeIrreflexive(key);
    if k.Some? && k.value != key { BeforeAsymmetric(key, k.value); }
  }

  /** Behind a log key comes what a search for the next index finds: nothing lies between. */
  lemma SeekNext(db: Engine, region: nat, index: nat, k: Option<Key>)
    requires AllKnown(db) && region < U64 && index + 1 < U64
    requires IsSeek(db.Keys, RaftLogKey(region, index) + [0], k)
    ensures IsSeek(db.Keys, RaftLogKey(region, index + 1), k)
  {
    var here, next := RaftLogKey(region, index), RaftLogKey(region, index + 1);
    forall key | key in db ensures AtMost(here + [0], key) <==> AtMost(next, key) {
      Successor(here, key);
      BeforeTotal(next, key);
      LogKeysOrdered(region, index, region, index + 1);
      if Before(here, key) && Before(key, next) {
        var i := LogRange(key, region, index, index + 1);
        BeforeIrreflexive(key);
      }
      if Before(next, key) { BeforeTransitive(here, next, key); }
    }
    if k == None {
      forall key | key in db ensures Before(key, next) {
        BeforeTotal(key, next);
        BeforeAsymmetric(key, here + [0]);
      }
    }
  }

  // ---------------------------------------------------------------- removing log keys

  /** The key of one of the region's log indexes from `lo` up to but not including `hi`. */
  ghost predicate InRange(region: nat, key: Key, lo: nat, hi: nat) {
    exists i: nat :: lo <= i < hi && IsLogKey(key, region, i)
  }

  /** The engine without these keys, and otherwise unchanged. */
  ghost function Without(db: Engine, region: nat, lo: nat, hi: nat): Engine {
    map key | key in db && !InRange(region, key, lo, hi) :: db[key]
  }

  /** What becomes of a key when log keys of a range, and the state if asked for, are removed: the others stay. */
  ghost predicate Fate(db: Engine, after: Engine, region: nat, lo: nat, hi: nat, state: bool, key: Key) {
    if InRange(region, key, lo, hi) || (state && key == RaftStateKey(region)) then key !in after
    else (key in after <==> key in db) && (key in db ==> after[key] == db[key])
  }

  /** Exactly the region's log keys from `lo` up to but not including `hi`, and its state if asked for, are gone. */
  ghost predicate Removes(db: Engine, after: Engine, region: nat, lo: nat, hi: nat, state: bool) {
    forall key {:trigger Fate(db, after, region, lo, hi, state, key)} :: Fate(db, after, region, lo, hi, state, key)
  }

  function Deletes(region: nat, lo: nat, hi: nat): (ops: seq<Op>)
    requires lo <= hi
    ensures |ops| == hi - lo
  {
    seq(hi - lo, i requires 0 <= i < hi - lo => Delete(RaftLogKey(region, lo + i)))
  }

  lemma DeletesGrow(region: nat, lo: nat, hi: nat)
    requires lo <= hi
    ensures Deletes(region, lo, hi + 1) == Deletes(region, lo, hi) + [Delete(RaftLogKey(region, hi))]
  {
  }

  lemma InRangeGrows(region: nat, key: Key, lo: nat, hi: nat)
    requires region < U64 && lo <= hi < U64
    ensures InRange(region, key, lo, hi + 1) <==> InRange(region, key, lo, hi) || key == RaftLogKey(region, hi)
  {
    if key == RaftLogKey(region, hi) { assert IsLogKey(key, region, hi); }
    if i: nat :| lo <= i < hi && IsLogKey(key, region, i) { assert lo <= i < hi + 1; }
  }

  lemma {:induction false} RunDeletes(db: Engine, region: nat, lo: nat, hi: nat)
    requires region < U64 && lo <= hi <= U64
    ensures Run(db, Deletes(region, lo, hi)) == Without(db, region, lo, hi)
    decreases hi
  {
    if lo < hi {
      var ops, last := Deletes(region, lo, hi), RaftLogKey(region, hi - 1);
      RunDeletes(db, region, lo, hi - 1);
      DeletesGrow(region, lo, hi - 1);
      assert ops[..|ops| - 1] == Deletes(region, lo, hi - 1);
      forall key ensures InRange(region, key, lo, hi) <==> InRange(region, key, lo, hi - 1) || key == last {
        InRangeGrows(region, key, lo, hi - 1);
      }
    }
  }

  /** A search for the region's first log key finds it, if the engine has any log key of the region. */
  lemma FirstOwn(db: Engine, region: nat, k: Option<Key>, i: nat) returns (first: nat)
    requires AllKnown(db) && region < U64 && i < U64 && RaftLogKey(region, i) in db
    requires IsSeek(db.Keys, RaftLogKey(region, 0), k)
    ensures first <= i && k == Some(RaftLogKey(region, first)) && RaftLogIndex(RaftLogKey(region, first)) == Some(first)
  {
    var key := RaftLogKey(region, i);
    assert AtMost(RaftLogKey(region, 0), key) by { LogKeysOrdered(region, 0, region, i); }
    if k == None { BeforeTotalNot(key, RaftLogKey(region, 0)); }
    first := i;
    if k.value != key { first := LogRange(k.value, region, 0, i); }
    RaftLogIndexRoundTrip(region, first);
  }

  lemma SameWithout(db: Engine, region: nat, first: nat, hi: nat)
    requires forall i: nat :: i < hi && RaftLogKey(region, i) in db ==> first <= i
    ensures Without(db, region, 0, hi) == Without(db, region, first, hi)
  {
    forall key | key in db ensures InRange(region, key, 0, hi) <==> InRange(region, key, first, hi) {
      if i: nat :| i < hi && IsLogKey(key, region, i) { assert first <= i; }
    }
  }

  /** What is removed from a found index on is what is removed from index 0 on. */
  lemma FoundCovers(db: Engine, region: nat, k: Option<Key>, first: nat, hi: nat)
    requires AllKnown(db) && region < U64 && hi <= U64 && IsSeek(db.Keys, RaftLogKey(region, 0), k)
    requires k.Some? ==> RaftLogIndex(k.value) == None || RaftLogIndex(k.value) == Some(first)
    requires k == None ==> first == hi
    ensures Without(db, region, 0, hi) == if k.Some? && RaftLogIndex(k.value) == None then db
                                          else Without(db, region, first, hi)
  {
    forall i: nat | i < hi && RaftLogKey(region, i) in db
      ensures k.Some? && RaftLogIndex(k.value).Some? && first <= i
    {
      var _ := FirstOwn(db, region, k, i);
    }
    if k == None || RaftLogIndex(k.value).Some? { SameWithout(db, region, first, hi); }
  }

  /** The index that is read from a key found before the key of index `hi`; `hi` if there is none. */
  method IndexBefore(k: Option<Key>, region: nat, hi: nat) returns (first: Option<nat>)
    requires region < U64 && hi < U64 && (k.Some? ==> Known(k.value) && AtMost(RaftLogKey(region, 0), k.value))
    ensures first.Some? && first.value <= hi
    ensures first.value < hi ==> k == Some(RaftLogKey(region, first.value))
    ensures first.value == hi ==> k == None || !Before(k.value, RaftLogKey(region, hi))
  {
    first := Some(hi);
    if k.Some? && Before(k.value, RaftLogKey(region, hi)) {
      ghost var found := LogRange(k.value, region, 0, hi);
      RaftLogIndexRoundTrip(region, found);
      first := RaftLogIndex(k.value);
    }
  }

  lemma EarlyCovers(db: Engine, region: nat, k: Option<Key>, first: nat, hi: nat, i: nat)
    requires AllKnown(db) && region < U64 && i < hi < U64 && IsSeek(db.Keys, RaftLogKey(region, 0), k)
    requires first < hi ==> k == Some(RaftLogKey(region, first))
    requires first == hi ==> k == None || !Before(k.value, RaftLogKey(region, hi))
    requires RaftLogKey(region, i) in db && first <= hi
    ensures first <= i
  {
    var f := FirstOwn(db, region, k, i);
    LogKeysOrdered(region, f, region, hi);
    if first < hi { LogKeysInjective(region, f, region, first); }
  }

  /** Where to start deleting so that no log key below `hi` is left out. */
  method FirstToClear(db: Engine, region: nat, hi: nat) returns (first: Option<nat>)
    requires AllKnown(db) && region < U64 && hi < U64
    ensures first.Some? && first.value <= hi && Without(db, region, 0, hi) == Without(db, region, first.value, hi)
  {
    var k := Seek(db.Keys, RaftLogKey(region, 0));
    first := IndexBefore(k, region, hi);
    forall i: nat | i < hi && RaftLogKey(region, i) in db ensures first.value <= i {
      EarlyCovers(db, region, k, first.value, hi, i);
    }
    SameWithout(db, region, first.value, hi);
  }

  lemma WithoutRemoves(db: Engine, region: nat, lo: nat, hi: nat)
    ensures Removes(db, Without(db, region, lo, hi), region, lo, hi, false)
    ensures Removes(db, Without(db, region, lo, hi) - {RaftStateKey(region)}, region, lo, hi, true)
  {
    var r, r' := Without(db, region, lo, hi), Without(db, region, lo, hi) - {RaftStateKey(region)};
    forall key ensures Fate(db, r, region, lo, hi, false, key) && Fate(db, r', region, lo, hi, true, key) {
    }
  }

  lemma DeletesOwn(region: nat, lo: nat, hi: nat)
    requires region < U64 && lo <= hi <= U64
    ensures OwnOps(region, Deletes(region, lo, hi) + [Delete(RaftStateKey(region))])
  {
    var all := Deletes(region, lo, hi) + [Delete(RaftStateKey(region))];
    forall i | 0 <= i < |all| ensures OwnKey(region, all[i].key) {
      if i < hi - lo { assert IsLogKey(all[i].key, region, lo + i); }
    }
  }

  /** Deleting the log keys from where they start, and then the state, clears the region. */
  lemma ClearedBy(db: Engine, region: nat, first: nat, hi: nat)
    requires region < U64 && first <= hi <= U64 && Without(db, region, 0, hi) == Without(db, region, first, hi)
    ensures var all := Deletes(region, first, hi) + [Delete(RaftStateKey(region))];
            OwnOps(region, all) && Removes(db, Run(db, all), region, 0, hi, true)
  {
    var deletes, state := Deletes(region, first, hi), RaftStateKey(region);
    DeletesOwn(region, first, hi);
    RunDeletes(db, region, first, hi);
    RunConcat(db, deletes, [Delete(state)]);
    RunOne(Run(db, deletes), Delete(state));
    WithoutRemoves(db, region, 0, hi);
  }

  lemma WithoutKeeps(db: Engine, region: nat, log: StableLog, lo: nat, hi: nat)
    requires region < U64 && Holds(db, region, log) && AllKnown(db) && hi <= log.index + 1
    ensures Holds(Without(db, region, lo, hi), region, log) && AllKnown(Without(db, region, lo, hi))
  {
    forall i: nat ensures StoredAt(Without(db, region, lo, hi), region, log, i) {
      assert StoredAt(db, region, log, i);
      if log.index < i <= log.Last() && InRange(region, RaftLogKey(region, i), lo, hi) {
        var j: nat :| lo <= j < hi && IsLogKey(RaftLogKey(region, i), region, j);
        LogKeysInjective(region, i, region, j);
      }
    }
  }

  /** Of a log that was cleared, only the indexes that are written again are stored. */
  lemma ClearedIsGone(db: Engine, region: nat, last: nat, cleared: seq<Op>, es: seq<Entry>, state: Option<seq<byte>>,
                      i: nat)
    requires region < U64 && i <= last < U64 && Removes(db, Run(db, cleared), region, 0, last + 1, true)
    requires forall k :: 0 <= k < |es| ==> es[k].index < U64 && es[k].index != i
    ensures RaftLogKey(region, i) !in Run(db, cleared + Puts(region, es) + StateOps(region, state))
  {
    var key, puts, tail := RaftLogKey(region, i), Puts(region, es), StateOps(region, state);
    RunConcat(db, cleared + puts, tail);
    RunConcat(db, cleared, puts);
    assert key !in Run(db, cleared) by {
      assert IsLogKey(key, region, i) && Fate(db, Run(db, cleared), region, 0, last + 1, true, key);
    }
    forall k | 0 <= k < |es| ensures key != KeyOf(region, es[k]) { KeyDiffers(region, i, es[k]); }
    RunPutsElse(Run(db, cleared), region, es, |es|, key);
    assert puts[..|es|] == puts;
    if state.Some? { RunOne(Run(Run(db, cleared), puts), Put(RaftStateKey(region), state.value)); }
  }

  lemma WrittenIsInside(base: StableLog, es: seq<Entry>, r: StableLog, k: nat)
    requires base.Numbered() && Contiguous(es) && Write(base, es) == Some(r) && k < |es| && es[k].index > base.index
    requires r.index == base.index
    ensures r.index < es[k].index <= r.Last()
  {
    WriteHolds(base, es, r, k);
  }

  lemma OutsideIsNotWritten(base: StableLog, es: seq<Entry>, r: StableLog, i: nat)
    requires base.Numbered() && Storable(base, es) && Write(base, es) == Some(r) && r.index == base.index
    requires !(r.index < i <= r.Last())
    ensures forall k :: 0 <= k < |es| ==> es[k].index < U64 && es[k].index != i
  {
    forall k | 0 <= k < |es| ensures es[k].index != i { WrittenIsInside(base, es, r, k); }
  }

  /** Of the indexes through `last`, only those that the log holds are stored. */
  ghost predicate NothingElse(db: Engine, region: nat, last: nat, log: StableLog) {
    forall i: nat {:trigger HasIndex(db, region, i)} :: i <= last && HasIndex(db, region, i) ==>
                                                          log.index < i <= log.Last()
  }

  ghost predicate HasIndex(db: Engine, region: nat, i: nat) {
    RaftLogKey(region, i) in db
  }

  lemma OldLogIsGone(db: Engine, region: nat, last: nat, cleared: seq<Op>, base: StableLog, es: seq<Entry>,
                     r: StableLog, state: Option<seq<byte>>)
    requires region < U64 && last < U64 && Removes(db, Run(db, cleared), region, 0, last + 1, true)
    requires base.Numbered() && Storable(base, es) && Write(base, es) == Some(r) && r.index == base.index
    ensures NothingElse(Run(db, cleared + Puts(region, es) + StateOps(region, state)), region, last, r)
  {
    forall i: nat | i <= last && !(r.index < i <= r.Last())
      ensures !HasIndex(Run(db, cleared + Puts(region, es) + StateOps(region, state)), region, i)
    {
      OutsideIsNotWritten(base, es, r, i);
      ClearedIsGone(db, region, last, cleared, es, state, i);
    }
  }

  /** All that is known of the engine once a batch has been written. */
  /** The state given with a Ready is what the engine holds for the region. */
  ghost predicate StateStored(db: Engine, region: nat, state: Option<seq<byte>>) {
    state.Some? ==> RaftStateKey(region) in db && db[RaftStateKey(region)] == state.value
  }

  lemma StateIsStored(db: Engine, region: nat, batch: seq<Op>, state: Option<seq<byte>>)
    ensures StateStored(Run(db, batch + StateOps(region, state)), region, state)
  {
    if state.Some? {
      RunConcat(db, batch, StateOps(region, state));
      RunOne(Run(db, batch), Put(RaftStateKey(region), state.value));
    }
  }

  lemma SavedWhole(db: Engine, region: nat, last: nat, clears: bool, cleared: seq<Op>, base: StableLog, es: seq<Entry>,
                   r: StableLog, state: Option<seq<byte>>)
    requires region < U64 && last < U64 && AllKnown(db) && OwnOps(region, cleared)
    requires Holds(Run(db, cleared), region, base)
    requires clears ==> Removes(db, Run(db, cleared), region, 0, last + 1, true)
    requires base.Numbered() && Storable(base, es) && Write(base, es) == Some(r)
    ensures Spans(base, es, r)
    ensures var after := Run(db, cleared + Puts(region, es) + StateOps(region, state));
            && Holds(after, region, r) && AllKnown(after) && OthersKept(region, db, after)
            && StateStored(after, region, state)
            && (clears ==> NothingElse(after, region, last, r))
  {
    StateIsStored(db, region, cleared + Puts(region, es), state);
    SavedAll(db, region, cleared, base, es, r, state);
    if clears { OldLogIsGone(db, region, last, cleared, base, es, r, state); }
  }

  /** The search from the region's first log key stops at a key that is no log key. */
  ghost predicate StopsShort(db: Engine, region: nat) {
    exists k :: IsSeek(db.Keys, RaftLogKey(region, 0), Some(k)) && |k| != RAFT_LOG_LEN
  }

  lemma OnlySeek(db: Engine, region: nat, k: Option<Key>)
    requires IsSeek(db.Keys, RaftLogKey(region, 0), k)
    ensures StopsShort(db, region) <==> k.Some? && |k.value| != RAFT_LOG_LEN
  {
    if x :| IsSeek(db.Keys, RaftLogKey(region, 0), Some(x)) && |x| != RAFT_LOG_LEN {
      SeekUnique(db.Keys, RaftLogKey(region, 0), k, Some(x));
    }
  }

  /** The index that is read from the first key at or behind the region's first log key; `None` is an error. */
  method FirstToCollect(db: Engine, region: nat, hi: nat) returns (first: Option<nat>)
    requires AllKnown(db) && region < U64 && hi <= U64
    ensures first == None <==> StopsShort(db, region)
    ensures Without(db, region, 0, hi) == if first == None then db else Without(db, region, first.value, hi)
  {
    first := Some(hi);
    var k := Seek(db.Keys, RaftLogKey(region, 0));
    OnlySeek(db, region, k);
    if k.Some? { first := RaftLogIndex(k.value); }
    FoundCovers(db, region, k, if first.Some? then first.value else 0, hi);
  }

  class PeerStorage {
    const region: nat
    var db: Engine
    // the local Raft state
    var lastIndex: nat
    var lastTerm: nat
    // the truncated state
    var truncatedIndex: nat
    var truncatedTerm: nat
    /** The log that all this stands for. */
    ghost var log: StableLog

    /** A peer that holds no entries yet. */
    constructor (region: nat, db: Engine, index: nat, term: nat)
      requires region < U64 && index + 1 < U64 && AllKnown(db)
      ensures Valid() && this.region == region && this.db == db && log == Reset(index, term)
    {
      this.region, this.db := region, db;
      lastIndex, lastTerm, truncatedIndex, truncatedTerm := index, term, index, term;
      log := Reset(index, term);
    }

    ghost predicate Valid()
      reads this
    {
      && region < U64 && lastIndex + 1 < U64
      && log.Numbered() && TermsGrow(log)
      && MarksAre(log) && Holds(db, region, log) && AllKnown(db)
    }

    method CheckRange(low: nat, high: nat) returns (r: Lookup<()>)
      requires Valid()
      ensures r == if low <= high && low <= log.index then Compacted
                   else if low > high || high > log.Last() + 1 then OutOfBounds else Found(())
    {
      if low > high { return OutOfBounds; }
      if low <= truncatedIndex { return Compacted; }
      if high > lastIndex + 1 { return OutOfBounds; }
      return Found(());
    }

    /** A scan over the ordered keys returns exactly the entries asked for, whatever else the engine holds. */
    method Entries(low: nat, high: nat) returns (r: Lookup<seq<Entry>>)
      requires Valid()
      ensures low <= high ==> r == SliceOf(log, low, high)
      ensures low > high ==> r == OutOfBounds
    {
      var range := CheckRange(low, high);
      if range.Compacted? { return Compacted; }
      if range.OutOfBounds? { return OutOfBounds; }
      if low == high {
        assert log.entries[low - log.index - 1..high - log.index - 1] == [];
        return Found([]);
      }
      r := Scan(low, high);
    }

    lemma FindsStored(index: nat, k: Option<Key>)
      requires Valid() && log.index < index <= log.Last() && IsSeek(db.Keys, RaftLogKey(region, index), k)
      ensures k == Some(RaftLogKey(region, index))
    {
      assert StoredAt(db, region, log, index);
      SeekHits(db, region, index, k);
    }

    /** The iterator stands at the entry `index`, or past the end of the range. */
    ghost predicate StandsOn(index: nat, high: nat, k: Option<Key>)
      requires region < U64
      reads this
    {
      if index < high then k == Some(RaftLogKey(region, index))
      else k.Some? ==> !Before(k.value, RaftLogKey(region, high))
    }

    lemma SeekStandsOn(index: nat, high: nat, k: Option<Key>)
      requires Valid() && log.index < index <= high <= log.Last() + 1 && IsSeek(db.Keys, RaftLogKey(region, index), k)
      ensures StandsOn(index, high, k)
    {
      if index < high {
        FindsStored(index, k);
      } else if k.Some? {
        BeforeTotalNot(k.value, RaftLogKey(region, high));
      }
    }

    method Fetch(key: Key, ghost index: nat) returns (entry: Parsed)
      requires Valid() && log.index < index <= log.Last() && key == RaftLogKey(region, index)
      ensures entry == Done(log.At(index)) && log.At(index).index == index
    {
      assert StoredAt(db, region, log, index);
      EntryRoundTrip(log.At(index));
      entry := Unmarshal(db[key]);
    }

    method Move(key: Key, ghost index: nat, ghost high: nat) returns (k: Option<Key>)
      requires Valid() && log.index < index < high <= log.Last() + 1 && key == RaftLogKey(region, index)
      ensures StandsOn(index + 1, high, k)
    {
      k := Seek(db.Keys, key + [0]);
      SeekNext(db, region, index, k);
      SeekStandsOn(index + 1, high, k);
    }

    /** Read the entry that the iterator stands at, and move on. */
    method Visit(key: Key, ghost index: nat, ghost high: nat) returns (entry: Parsed, next: Option<Key>)
      requires Valid() && log.index < index < high <= log.Last() + 1 && key == RaftLogKey(region, index)
      ensures entry == Done(log.At(index)) && log.At(index).index == index && StandsOn(index + 1, high, next)
    {
      entry := Fetch(key, index);
      next := Move(key, index, high);
    }

    /** The entries from `low` up to but not including `next`. */
    ghost function Part(low: nat, next: nat): (es: seq<Entry>)
      requires log.index < low <= next <= log.Last() + 1
      reads this
      ensures |es| == next - low
    {
      log.entries[low - log.index - 1..next - log.index - 1]
    }

    lemma PartGrows(low: nat, next: nat)
      requires log.index < low <= next <= log.Last()
      ensures Part(low, next + 1) == Part(low, next) + [log.At(next)]
    {
    }

    /** The iterator has reached the end key exactly when it stands past the range. */
    method IsPast(key: Key, endKey: Key, ghost index: nat, ghost high: nat) returns (past: bool)
      requires Valid() && index <= high <= log.Last() + 1 && StandsOn(index, high, Some(key))
      requires endKey == RaftLogKey(region, high)
      ensures past <==> index == high
    {
      LogKeysOrdered(region, index, region, high);
      past := !Before(key, endKey);
    }

    method Scan(low: nat, high: nat) returns (r: Lookup<seq<Entry>>)
      requires Valid() && log.index < low < high <= log.Last() + 1
      ensures r == SliceOf(log, low, high)
    {
      var buf := [];
      var nextIndex := low;
      var endKey := RaftLogKey(region, high);
      var k := Seek(db.Keys, RaftLogKey(region, low));
      SeekStandsOn(low, high, k);
      while k.Some?
        invariant low <= nextIndex <= high && StandsOn(nextIndex, high, k) && buf == Part(low, nextIndex)
        decreases high - nextIndex
      {
        var past := IsPast(k.value, endKey, nextIndex, high);
        if past { break; }
        PartGrows(low, nextIndex);
        var entry, next := Visit(k.value, nextIndex, high);
        if !entry.Done? { return OutOfBounds; }
        if entry.e.index != nextIndex { break; }
        k := next;
        nextIndex := nextIndex + 1;
        buf := buf + [entry.e];
      }
      if |buf| == high - low { return Found(buf); }
      return OutOfBounds;
    }

    /** Equal terms at both ends mean that every entry between has that term, so it need not be read. */
    method Term(idx: nat) returns (r: Lookup<nat>)
      requires Valid()
      ensures r == TermOf(log, idx)
    {
      if idx == truncatedIndex { return Found(truncatedTerm); }
      var range := CheckRange(idx, idx + 1);
      if range.Compacted? { return Compacted; }
      if range.OutOfBounds? { return OutOfBounds; }
      if truncatedTerm == lastTerm || idx == lastIndex {
        assert log.TermAt(log.index) <= log.TermAt(idx) <= log.TermAt(log.Last());
        return Found(lastTerm);
      }
      assert StoredAt(db, region, log, idx);
      var entry := Fetch(RaftLogKey(region, idx), idx);
      if !entry.Done? { return OutOfBounds; }
      return Found(entry.e.term);
    }

    /** Queue the entries and move the last index; entries that stay behind it are never deleted. */
    method Append(entries: seq<Entry>, batch: seq<Op>) returns (more: seq<Op>)
      modifies this`lastIndex, this`lastTerm
      ensures more == batch + Puts(region, entries)
      ensures if entries == [] then lastIndex == old(lastIndex) && lastTerm == old(lastTerm)
              else lastIndex == entries[|entries| - 1].index && lastTerm == entries[|entries| - 1].term
    {
      more := batch;
      for i := 0 to |entries|
        invariant more == batch + Puts(region, entries)[..i]
        invariant if i < |entries| || entries == [] then lastIndex == old(lastIndex) && lastTerm == old(lastTerm)
                  else lastIndex == entries[|entries| - 1].index && lastTerm == entries[|entries| - 1].term
      {
        more := more + [Put(RaftLogKey(region, entries[i].index), Encoding(entries[i]))];
        if i == |entries| - 1 { lastIndex, lastTerm := entries[i].index, entries[i].term; }
      }
    }

    /**
     Queue the deletion of the region's state and of its log through the last index; the first log key is found by
     a search. Keys of entries that an append left behind above the last index are not deleted.
     */
    method ClearMeta() returns (ok: bool, batch: seq<Op>)
      requires Valid()
      ensures ok && OwnOps(region, batch) && Removes(db, Run(db, batch), region, 0, lastIndex + 1, true)
    {
      var firstIndex := FirstToClear(db, region, lastIndex + 1);
      if firstIndex == None { return false, []; }
      batch := DeleteFrom(firstIndex.value, lastIndex + 1);
      ClearedBy(db, region, firstIndex.value, lastIndex + 1);
      batch := batch + [Delete(RaftStateKey(region))];
      ok := true;
    }

    method DeleteFrom(first: nat, end: nat) returns (batch: seq<Op>)
      requires first <= end
      ensures batch == Deletes(region, first, end)
    {
      batch := [];
      for i := first to end
        invariant batch == Deletes(region, first, i)
      {
        DeletesGrow(region, first, i);
        batch := batch + [Delete(RaftLogKey(region, i))];
      }
    }

    /** What a caller guarantees of a Ready that it saves. */
    ghost predicate Saveable(rd: Ready)
      reads this
    {
      && Storable(Base(log, rd), rd.entries) && Save(log, rd).Some?
      && Save(log, rd).value.Last() + 1 < U64 && TermsGrow(Save(log, rd).value)
    }

    /** A snapshot clears the stored log and sets the marks; without one nothing happens. */
    method ApplySnapshot(rd: Ready) returns (batch: seq<Op>)
      requires Valid()
      modifies this`lastIndex, this`lastTerm, this`truncatedIndex, this`truncatedTerm
      ensures OwnOps(region, batch) && Holds(Run(db, batch), region, Base(log, rd))
      ensures rd.snapshot.Some? ==> Removes(db, Run(db, batch), region, 0, old(lastIndex) + 1, true)
      ensures rd.snapshot.None? ==> batch == []
      ensures Base(log, rd).Numbered() && MarksAre(Base(log, rd))
    {
      batch := [];
      if rd.snapshot.Some? {
        var ok: bool;
        ok, batch := ClearMeta();
        lastIndex, lastTerm := rd.snapshot.value.index, rd.snapshot.value.term;
        truncatedIndex, truncatedTerm := rd.snapshot.value.index, rd.snapshot.value.term;
      }
      BaseHolds(rd, batch);
    }

    /**
     Saving a Ready turns the stored log into the saved one, and leaves the other regions alone. With a snapshot
     no key of the old log stays but those of the entries saved with it.
     */
    method SaveReadyState(rd: Ready, state: Option<seq<byte>>)
      requires Valid() && Saveable(rd)
      modifies this
      ensures Valid() && Some(log) == Save(old(log), rd)
      ensures OthersKept(region, old(db), db) && StateStored(db, region, state)
      ensures rd.snapshot.Some? ==> NothingElse(db, region, old(lastIndex), log)
    {
      ghost var last := lastIndex;
      var cleared := ApplySnapshot(rd);
      var batch := SaveEntries(cleared, rd);
      WriteAll(batch + StateOps(region, state), cleared, rd, state, last);
    }

    /** The last index and the cut are those of a log. */
    ghost predicate MarksAre(l: StableLog)
      reads this
    {
      && l.index == truncatedIndex && l.term == truncatedTerm
      && l.Last() == lastIndex && l.TermAt(lastIndex) == lastTerm
    }

    /** Queueing entries moves the marks to the log that they make. */
    method AppendTo(entries: seq<Entry>, cleared: seq<Op>, ghost base: StableLog, ghost saved: StableLog)
      returns (batch: seq<Op>)
      requires base.Numbered() && MarksAre(base) && Spans(base, entries, saved)
      modifies this`lastIndex, this`lastTerm
      ensures batch == cleared + Puts(region, entries) && MarksAre(saved)
    {
      batch := Append(entries, cleared);
    }

    method SaveEntries(cleared: seq<Op>, rd: Ready) returns (batch: seq<Op>)
      requires Base(log, rd).Numbered() && MarksAre(Base(log, rd)) && Saveable(rd)
      modifies this`lastIndex, this`lastTerm
      ensures batch == cleared + Puts(region, rd.entries) && MarksAre(Save(log, rd).value)
    {
      WriteSpans(Base(log, rd), rd.entries, Save(log, rd).value);
      batch := AppendTo(rd.entries, cleared, Base(log, rd), Save(log, rd).value);
    }

    /** Write the batch that saves a Ready, once the marks have been moved. */
    method WriteAll(batch: seq<Op>, ghost cleared: seq<Op>, ghost rd: Ready, ghost state: Option<seq<byte>>,
                    ghost last: nat)
      requires region < U64 && last < U64 && log.Numbered() && AllKnown(db) && Saveable(rd)
      requires batch == cleared + Puts(region, rd.entries) + StateOps(region, state)
      requires OwnOps(region, cleared) && Holds(Run(db, cleared), region, Base(log, rd))
      requires rd.snapshot.Some? ==> Removes(db, Run(db, cleared), region, 0, last + 1, true)
      requires MarksAre(Save(log, rd).value)
      modifies this`db, this`log
      ensures Valid() && Some(log) == Save(old(log), rd)
      ensures OthersKept(region, old(db), db) && StateStored(db, region, state)
      ensures rd.snapshot.Some? ==> NothingElse(db, region, last, log)
    {
      ghost var saved := Save(log, rd).value;
      SavedWhole(db, region, last, rd.snapshot.Some?, cleared, Base(log, rd), rd.entries, saved, state);
      WriteRaft(batch, saved);
    }

    /** Write a batch; what the engine then holds becomes the log. */
    method WriteRaft(batch: seq<Op>, ghost saved: StableLog)
      requires region < U64 && lastIndex + 1 < U64 && saved.Numbered() && TermsGrow(saved) && MarksAre(saved)
      requires Holds(Run(db, batch), region, saved) && AllKnown(Run(db, batch))
      modifies this`db, this`log
      ensures Valid() && log == saved && db == Run(old(db), batch)
    {
      db := Run(db, batch);
      log := saved;
    }

    lemma BaseHolds(rd: Ready, batch: seq<Op>)
      requires Holds(db, region, log) && (rd.snapshot == None ==> batch == [])
      ensures Holds(Run(db, batch), region, Base(log, rd))
    {
      forall i ensures StoredAt(Run(db, batch), region, Base(log, rd), i) {
        assert StoredAt(db, region, log, i);
      }
    }

    /** A compaction moves the cut; nothing is deleted yet. */
    method CompactLog(compactIndex: nat, compactTerm: nat)
      requires Valid() && compactIndex <= log.Last()
      requires compactIndex > log.index ==> compactTerm == log.TermAt(compactIndex)
      modifies this`truncatedIndex, this`truncatedTerm, this`log
      ensures Valid() && log == if compactIndex > old(log).index then Cut(old(log), compactIndex) else old(log)
    {
      if compactIndex > truncatedIndex {
        CutMeans(log, compactIndex);
        ghost var rest := Cut(log, compactIndex);
        forall i ensures StoredAt(db, region, rest, i) { assert StoredAt(db, region, log, i); }
        truncatedIndex, truncatedTerm := compactIndex, compactTerm;
        log := rest;
      }
    }

    /**
     Collect the keys of entries that were cut off: exactly those in the range go, and the log that is held does not
     change. The search fails exactly when it is made and finds a state key, and then there is nothing to collect.
     */
    method GcRaftLog(startIdx: nat, endIdx: nat) returns (ok: bool)
      requires Valid() && endIdx <= log.index + 1
      modifies this`db
      ensures Valid() && Removes(old(db), db, region, startIdx, endIdx, false)
      ensures !ok <==> startIdx == 0 && StopsShort(old(db), region)
    {
      WithoutKeeps(db, region, log, startIdx, endIdx);
      WithoutRemoves(db, region, startIdx, endIdx);
      var firstIdx := startIdx;
      if firstIdx == 0 {
        var found := FirstToCollect(db, region, endIdx);
        if found == None { return false; }
        firstIdx := found.value;
      }
      if firstIdx >= endIdx {
        assert Without(db, region, firstIdx, endIdx) == db;
        return true;
      }
      var batch := DeleteFrom(firstIdx, endIdx);
      RunDeletes(db, region, firstIdx, endIdx);
      db := Run(db, batch);
      return true;
    }
  }
}
