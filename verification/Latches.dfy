/** Per-key latches: a map from latched keys to wait groups, and threads that acquire, wait and release. */
module Latches {
  import opened Common
  import opened Bytes

  /** Wait groups are numbered as they are made; `counts` holds their counters. */
  datatype LatchState = LatchState(latchMap: map<Key, nat>, counts: seq<nat>)

  /** The wait group of the first key that is latched. */
  function FirstLatched(m: map<Key, nat>, keys: seq<Key>): Option<nat> {
    if keys == [] then None else if keys[0] in m then Some(m[keys[0]]) else FirstLatched(m, keys[1..])
  }

  function LatchAll(m: map<Key, nat>, keys: seq<Key>, wg: nat): map<Key, nat> {
    m + map k | k in keys :: wg
  }

  /** Either a wait group to wait on, or all keys latched with a new one. */
  function Acquire(s: LatchState, keys: seq<Key>): (LatchState, Option<nat>) {
    match FirstLatched(s.latchMap, keys)
    case Some(wg) => (s, Some(wg))
    case None => (LatchState(LatchAll(s.latchMap, keys, |s.counts|), s.counts + [1]), None)
  }

  /** Count the wait group of the first key down and drop all keys; a missing latch or a negative counter panics. */
  function Release(s: LatchState, keys: seq<Key>): Option<LatchState> {
    if keys == [] then Some(s)
    else if keys[0] !in s.latchMap then None
    else
      var wg := s.latchMap[keys[0]];
      if wg >= |s.counts| || s.counts[wg] == 0 then None
      else Some(LatchState(s.latchMap - Elements(keys), s.counts[wg := s.counts[wg] - 1]))
  }

  /** The key at position `i` is the first one that is latched. */
  ghost predicate FirstAt(m: map<Key, nat>, keys: seq<Key>, i: nat) {
    i < |keys| && keys[i] in m && forall j :: 0 <= j < i ==> keys[j] !in m
  }

  lemma {:induction false} FirstLatchedMeans(m: map<Key, nat>, keys: seq<Key>)
    ensures FirstLatched(m, keys).None? <==> forall k :: k in keys ==> k !in m
    ensures FirstLatched(m, keys).Some? ==>
              exists i: nat :: FirstAt(m, keys, i) && m[keys[i]] == FirstLatched(m, keys).value
  {
    if keys != [] {
      FirstLatchedMeans(m, keys[1..]);
      assert keys == [keys[0]] + keys[1..];
      if keys[0] in m {
        assert FirstAt(m, keys, 0);
      } else if FirstLatched(m, keys).Some? {
        var i: nat :| FirstAt(m, keys[1..], i) && m[keys[1..][i]] == FirstLatched(m, keys).value;
        assert FirstAt(m, keys, i + 1);
      }
    }
  }

  // ---------------------------------------------------------------- threads

  /** A thread wants to latch keys, waits on a wait group, holds its latches, or has released them. */
  datatype Thread =
    | Wants(keys: seq<Key>)
    | Waits(keys: seq<Key>, wg: nat)
    | Holds(keys: seq<Key>, wg: nat)
    | Released(keys: seq<Key>, wg: nat)

  datatype System = System(latches: LatchState, threads: map<nat, Thread>)

  datatype Step = Attempt(t: nat) | Wake(t: nat) | Unlatch(t: nat)

  ghost predicate Init(s: System) {
    s.latches == LatchState(map[], []) && forall t :: t in s.threads ==> s.threads[t].Wants?
  }

  predicate Enabled(s: System, e: Step) {
    match e
    case Attempt(t) => t in s.threads && s.threads[t].Wants?
    case Wake(t) => t in s.threads && s.threads[t].Waits? && s.threads[t].wg < |s.latches.counts| &&
                    s.latches.counts[s.threads[t].wg] == 0
    case Unlatch(t) => t in s.threads && s.threads[t].Holds?
  }

  /** `None` is a panic. */
  function Next(s: System, e: Step): Option<System>
    requires Enabled(s, e)
  {
    match e
    case Attempt(t) =>
      var keys := s.threads[t].keys;
      var (latches, wg) := Acquire(s.latches, keys);
      Some(System(latches, s.threads[t := if wg.None? then Holds(keys, |s.latches.counts|) else Waits(keys, wg.value)]))
    case Wake(t) => Some(s.(threads := s.threads[t := Wants(s.threads[t].keys)]))
    case Unlatch(t) =>
      match Release(s.latches, s.threads[t].keys)
      case None => None
      case Some(latches) => Some(System(latches, s.threads[t := Released(s.threads[t].keys, s.threads[t].wg)]))
  }

  // ---------------------------------------------------------------- the invariant

  ghost predicate IsHolder(s: System, t: nat) {
    t in s.threads && s.threads[t].Holds?
  }

  /** A holder's keys are latched with its own wait group, which still counts. */
  ghost predicate HolderOk(s: System, t: nat) {
    IsHolder(s, t) ==>
      var h := s.threads[t];
      && h.wg < |s.latches.counts| && s.latches.counts[h.wg] == 1
      && forall k :: k in h.keys ==> k in s.latches.latchMap && s.latches.latchMap[k] == h.wg
  }

  /** The thread made a wait group, and holds or has released its latches. */
  ghost predicate IsOwner(s: System, t: nat) {
    t in s.threads && (s.threads[t].Holds? || s.threads[t].Released?)
  }

  ghost predicate OwnGroups(s: System, t: nat, u: nat) {
    IsOwner(s, t) && IsOwner(s, u) && s.threads[t].wg == s.threads[u].wg ==> t == u
  }

  /** A released group has run down, unless it was made for no keys: then nothing ever counts it down. */
  ghost predicate ReleasedOk(s: System, t: nat) {
    t in s.threads && s.threads[t].Released? ==>
      var r := s.threads[t];
      r.wg < |s.latches.counts| && s.latches.counts[r.wg] == if r.keys == [] then 1 else 0
  }

  ghost predicate OwnerOf(s: System, t: nat, wg: nat) {
    IsOwner(s, t) && s.threads[t].wg == wg
  }

  ghost predicate GroupOk(s: System, wg: nat) {
    wg < |s.latches.counts| ==> exists t :: OwnerOf(s, t, wg)
  }

  /** Some holder has latched a key with the wait group. */
  ghost predicate HeldBy(s: System, t: nat, wg: nat) {
    IsHolder(s, t) && s.threads[t].wg == wg && s.threads[t].keys != []
  }

  ghost predicate HasHolder(s: System, wg: nat) {
    exists t :: HeldBy(s, t, wg)
  }

  ghost predicate LatchOk(s: System, k: Key) {
    k in s.latches.latchMap ==>
      exists t :: HeldBy(s, t, s.latches.latchMap[k]) && k in s.threads[t].keys
  }

  /** A wait group that a thread waits on has run down or has a holder. */
  ghost predicate WaiterOk(s: System, t: nat) {
    t in s.threads && s.threads[t].Waits? ==>
      var wg := s.threads[t].wg;
      wg < |s.latches.counts| && (s.latches.counts[wg] == 0 || HasHolder(s, wg))
  }

  ghost predicate LatchInv(s: System) {
    && (forall t {:trigger HolderOk(s, t)} :: HolderOk(s, t))
    && (forall t, u {:trigger OwnGroups(s, t, u)} :: OwnGroups(s, t, u))
    && (forall k {:trigger LatchOk(s, k)} :: LatchOk(s, k))
    && (forall t {:trigger WaiterOk(s, t)} :: WaiterOk(s, t))
    && (forall t {:trigger ReleasedOk(s, t)} :: ReleasedOk(s, t))
    && (forall wg {:trigger GroupOk(s, wg)} :: GroupOk(s, wg))
  }

  // ---------------------------------------------------------------- each step keeps it

  lemma InitInv(s: System)
    requires Init(s)
    ensures LatchInv(s)
  {
  }

  /** Holders other than the thread that moves keep what they hold. */
  lemma HolderStays(s: System, d: System, t: nat, wg: nat)
    requires HasHolder(s, wg) && !HeldBy(s, t, wg)
    requires forall u :: u != t ==> (u in d.threads <==> u in s.threads) &&
                                    (u in s.threads ==> d.threads[u] == s.threads[u])
    ensures HasHolder(d, wg)
  {
    var u :| HeldBy(s, u, wg);
    assert HeldBy(d, u, wg);
  }

  lemma OwnerStays(s: System, d: System, t: nat, wg: nat)
    requires wg < |s.latches.counts| && GroupOk(s, wg) && !OwnerOf(s, t, wg)
    requires forall u :: u != t ==> (u in d.threads <==> u in s.threads) &&
                                    (u in s.threads ==> d.threads[u] == s.threads[u])
    ensures exists u :: OwnerOf(d, u, wg)
  {
    var u :| OwnerOf(s, u, wg);
    assert OwnerOf(d, u, wg);
  }

  lemma LatchStays(s: System, d: System, t: nat, k: Key)
    requires LatchOk(s, k) && k in s.latches.latchMap && k in d.latches.latchMap
    requires d.latches.latchMap[k] == s.latches.latchMap[k]
    requires IsHolder(s, t) ==> k !in s.threads[t].keys
    requires forall u :: u != t ==> (u in d.threads <==> u in s.threads) &&
                                    (u in s.threads ==> d.threads[u] == s.threads[u])
    ensures LatchOk(d, k)
  {
    var u :| HeldBy(s, u, s.latches.latchMap[k]) && k in s.threads[u].keys;
    assert HeldBy(d, u, d.latches.latchMap[k]);
  }

  lemma BlockedKeeps(s: System, t: nat, d: System)
    requires LatchInv(s) && Enabled(s, Attempt(t)) && Next(s, Attempt(t)) == Some(d)
    requires FirstLatched(s.latches.latchMap, s.threads[t].keys).Some?
    ensures LatchInv(d)
  {
    var keys := s.threads[t].keys;
    FirstLatchedMeans(s.latches.latchMap, keys);
    var wg := FirstLatched(s.latches.latchMap, keys).value;
    var k0 :| k0 in keys && k0 in s.latches.latchMap && s.latches.latchMap[k0] == wg;
    assert LatchOk(s, k0);
    var h :| HeldBy(s, h, wg) && k0 in s.threads[h].keys;
    assert HolderOk(s, h);
    forall u ensures ReleasedOk(d, u) { assert ReleasedOk(s, u); }
    forall wg: nat ensures GroupOk(d, wg) {
      assert GroupOk(s, wg);
      if wg < |s.latches.counts| { OwnerStays(s, d, t, wg); }
    }
    forall u ensures HolderOk(d, u) { assert HolderOk(s, u); }
    forall u, v ensures OwnGroups(d, u, v) { assert OwnGroups(s, u, v); }
    forall k ensures LatchOk(d, k) {
      assert LatchOk(s, k);
      if k in d.latches.latchMap { LatchStays(s, d, t, k); }
    }
    forall u ensures WaiterOk(d, u) {
      assert WaiterOk(s, u);
      if u == t {
        HolderStays(s, d, t, wg);
      } else if u in s.threads && s.threads[u].Waits? && HasHolder(s, s.threads[u].wg) {
        HolderStays(s, d, t, s.threads[u].wg);
      }
    }
  }

  lemma LatchedKeeps(s: System, t: nat, d: System)
    requires LatchInv(s) && Enabled(s, Attempt(t)) && Next(s, Attempt(t)) == Some(d)
    requires FirstLatched(s.latches.latchMap, s.threads[t].keys).None?
    ensures LatchInv(d)
  {
    var keys, wg := s.threads[t].keys, |s.latches.counts|;
    FirstLatchedMeans(s.latches.latchMap, keys);
    forall u ensures ReleasedOk(d, u) { assert ReleasedOk(s, u); }
    forall g: nat ensures GroupOk(d, g) {
      assert GroupOk(s, g);
      if g < wg { OwnerStays(s, d, t, g); } else { assert OwnerOf(d, t, wg); }
    }
    forall u ensures HolderOk(d, u) { assert HolderOk(s, u); }
    forall u, v ensures OwnGroups(d, u, v) {
      assert OwnGroups(s, u, v) && HolderOk(s, u) && HolderOk(s, v) && ReleasedOk(s, u) && ReleasedOk(s, v);
    }
    forall k ensures LatchOk(d, k) {
      assert LatchOk(s, k);
      if k in keys {
        assert HeldBy(d, t, wg);
      } else if k in d.latches.latchMap {
        LatchStays(s, d, t, k);
      }
    }
    forall u ensures WaiterOk(d, u) {
      assert WaiterOk(s, u);
      if u in s.threads && s.threads[u].Waits? && HasHolder(s, s.threads[u].wg) {
        HolderStays(s, d, t, s.threads[u].wg);
      }
    }
  }

  lemma WakeKeeps(s: System, t: nat, d: System)
    requires LatchInv(s) && Enabled(s, Wake(t)) && Next(s, Wake(t)) == Some(d)
    ensures LatchInv(d)
  {
    forall u ensures ReleasedOk(d, u) { assert ReleasedOk(s, u); }
    forall wg: nat ensures GroupOk(d, wg) {
      assert GroupOk(s, wg);
      if wg < |s.latches.counts| { OwnerStays(s, d, t, wg); }
    }
    forall u ensures HolderOk(d, u) { assert HolderOk(s, u); }
    forall u, v ensures OwnGroups(d, u, v) { assert OwnGroups(s, u, v); }
    forall k ensures LatchOk(d, k) {
      assert LatchOk(s, k);
      if k in d.latches.latchMap { LatchStays(s, d, t, k); }
    }
    forall u ensures WaiterOk(d, u) {
      assert WaiterOk(s, u);
      if u in s.threads && s.threads[u].Waits? && HasHolder(s, s.threads[u].wg) {
        HolderStays(s, d, t, s.threads[u].wg);
      }
    }
  }

  /** A holder can release what it holds, and its wait group then runs down. */
  lemma ReleaseSucceeds(s: System, t: nat)
    requires LatchInv(s) && IsHolder(s, t)
    ensures s.threads[t].wg < |s.latches.counts|
    ensures var h, r := s.threads[t], Release(s.latches, s.threads[t].keys);
            && r.Some?
            && r.value == if h.keys == [] then s.latches
                          else LatchState(s.latches.latchMap - Elements(h.keys), s.latches.counts[h.wg := 0])
  {
    assert HolderOk(s, t);
    if s.threads[t].keys != [] { assert s.threads[t].keys[0] in s.threads[t].keys; }
  }

  lemma UnlatchKeeps(s: System, t: nat, d: System)
    requires LatchInv(s) && IsHolder(s, t) && Next(s, Unlatch(t)) == Some(d)
    ensures LatchInv(d)
  {
    ReleaseSucceeds(s, t);
    var h := s.threads[t];
    assert HolderOk(s, t);
    forall u ensures ReleasedOk(d, u) { assert ReleasedOk(s, u) && OwnGroups(s, t, u); }
    forall g: nat ensures GroupOk(d, g) {
      assert GroupOk(s, g);
      if g == h.wg {
        assert OwnerOf(d, t, g);
      } else if g < |s.latches.counts| {
        OwnerStays(s, d, t, g);
      }
    }
    forall u ensures HolderOk(d, u) {
      assert HolderOk(s, u) && OwnGroups(s, t, u);
    }
    forall u, v ensures OwnGroups(d, u, v) { assert OwnGroups(s, u, v); }
    forall k ensures LatchOk(d, k) {
      assert LatchOk(s, k);
      if k in d.latches.latchMap { LatchStays(s, d, t, k); }
    }
    forall u ensures WaiterOk(d, u) {
      assert WaiterOk(s, u);
      if u in s.threads && s.threads[u].Waits? && s.threads[u].wg != h.wg && HasHolder(s, s.threads[u].wg) {
        HolderStays(s, d, t, s.threads[u].wg);
      } else if u in s.threads && s.threads[u].Waits? && h.keys == [] && HasHolder(s, s.threads[u].wg) {
        HolderStays(s, d, t, s.threads[u].wg);
      }
    }
  }

  lemma StepKeeps(s: System, e: Step)
    requires LatchInv(s) && Enabled(s, e)
    ensures Next(s, e).Some? && LatchInv(Next(s, e).value)
  {
    match e {
      case Attempt(t) =>
        if FirstLatched(s.latches.latchMap, s.threads[t].keys).Some? {
          BlockedKeeps(s, t, Next(s, e).value);
        } else {
          LatchedKeeps(s, t, Next(s, e).value);
        }
      case Wake(t) => WakeKeeps(s, t, Next(s, e).value);
      case Unlatch(t) =>
        ReleaseSucceeds(s, t);
        UnlatchKeeps(s, t, Next(s, e).value);
    }
  }

  // ---------------------------------------------------------------- runs

  ghost predicate Happens(s: System, e: Step, d: System) {
    Enabled(s, e) && Next(s, e) == Some(d)
  }

  ghost predicate IsRun(run: seq<System>, steps: seq<Step>) {
    && |run| == |steps| + 1 && Init(run[0])
    && forall i :: 0 <= i < |steps| ==> Happens(run[i], steps[i], run[i + 1])
  }

  lemma {:induction false} RunKeeps(run: seq<System>, steps: seq<Step>, i: nat)
    requires IsRun(run, steps) && i < |run|
    ensures LatchInv(run[i])
  {
    if i == 0 {
      InitInv(run[0]);
    } else {
      RunKeeps(run, steps, i - 1);
      assert Happens(run[i - 1], steps[i - 1], run[i]);
      StepKeeps(run[i - 1], steps[i - 1]);
    }
  }

  /** In every interleaving, no key has two holders. */
  lemma OneHolder(run: seq<System>, steps: seq<Step>, i: nat, t: nat, u: nat, k: Key)
    requires IsRun(run, steps) && i < |run|
    requires IsHolder(run[i], t) && IsHolder(run[i], u) && k in run[i].threads[t].keys && k in run[i].threads[u].keys
    ensures t == u
  {
    RunKeeps(run, steps, i);
    assert HolderOk(run[i], t) && HolderOk(run[i], u) && OwnGroups(run[i], t, u);
  }

  /** A key is latched exactly when some thread holds it. */
  lemma LatchedIffHeld(run: seq<System>, steps: seq<Step>, i: nat, k: Key)
    requires IsRun(run, steps) && i < |run|
    ensures k in run[i].latches.latchMap <==> exists t :: IsHolder(run[i], t) && k in run[i].threads[t].keys
  {
    RunKeeps(run, steps, i);
    assert LatchOk(run[i], k);
    if t :| IsHolder(run[i], t) && k in run[i].threads[t].keys { assert HolderOk(run[i], t); }
    if k in run[i].latches.latchMap {
      var t :| HeldBy(run[i], t, run[i].latches.latchMap[k]) && k in run[i].threads[t].keys;
      assert IsHolder(run[i], t);
    }
  }

  /** An attempt latches all keys if none is latched, and otherwise latches none and waits for a live holder. */
  lemma AllOrNothing(run: seq<System>, steps: seq<Step>, i: nat, t: nat)
    requires IsRun(run, steps) && i < |steps| && steps[i] == Attempt(t)
    ensures var s, d := run[i], run[i + 1];
            if forall k :: k in s.threads[t].keys ==> k !in s.latches.latchMap
            then IsHolder(d, t) && d.latches.latchMap.Keys == s.latches.latchMap.Keys + Elements(s.threads[t].keys)
            else && d.latches == s.latches && d.threads[t].Waits? && HasHolder(d, d.threads[t].wg)
                 && exists n: nat :: FirstAt(s.latches.latchMap, s.threads[t].keys, n) &&
                                     d.threads[t].wg == s.latches.latchMap[s.threads[t].keys[n]]
  {
    RunKeeps(run, steps, i);
    RunKeeps(run, steps, i + 1);
    assert Happens(run[i], steps[i], run[i + 1]);
    var s, d := run[i], run[i + 1];
    FirstLatchedMeans(s.latches.latchMap, s.threads[t].keys);
    if FirstLatched(s.latches.latchMap, s.threads[t].keys).Some? {
      BlockedHasHolder(s, t, d);
    }
  }

  lemma BlockedHasHolder(s: System, t: nat, d: System)
    requires LatchInv(s) && Enabled(s, Attempt(t)) && Next(s, Attempt(t)) == Some(d)
    requires FirstLatched(s.latches.latchMap, s.threads[t].keys).Some?
    ensures d.threads[t].Waits? && HasHolder(d, d.threads[t].wg)
  {
    FirstLatchedMeans(s.latches.latchMap, s.threads[t].keys);
    var wg := FirstLatched(s.latches.latchMap, s.threads[t].keys).value;
    var i: nat :| FirstAt(s.latches.latchMap, s.threads[t].keys, i) && s.latches.latchMap[s.threads[t].keys[i]] == wg;
    var k0 := s.threads[t].keys[i];
    assert LatchOk(s, k0);
    var h :| HeldBy(s, h, wg) && k0 in s.threads[h].keys;
    HolderStays(s, d, t, wg);
  }

  /**
   A wait group counts exactly while a thread holds its latches; the one exception is a group made for no keys, which
   is never counted down and which nobody waits on.
   */
  lemma CountsWhileHeld(run: seq<System>, steps: seq<Step>, i: nat, wg: nat)
    requires IsRun(run, steps) && i < |run| && wg < |run[i].latches.counts|
    ensures run[i].latches.counts[wg] > 0 <==>
            exists t :: OwnerOf(run[i], t, wg) && (run[i].threads[t].Holds? || run[i].threads[t].keys == [])
    ensures forall t, u :: OwnerOf(run[i], t, wg) && run[i].threads[t].keys == [] && u in run[i].threads ==>
              !(run[i].threads[u].Waits? && run[i].threads[u].wg == wg)
  {
    var s := run[i];
    RunKeeps(run, steps, i);
    assert GroupOk(s, wg);
    var o :| OwnerOf(s, o, wg);
    assert HolderOk(s, o) && ReleasedOk(s, o);
    forall t | OwnerOf(s, t, wg) ensures t == o { assert OwnGroups(s, t, o); }
    forall u | s.threads[o].keys == [] && u in s.threads && s.threads[u].Waits? && s.threads[u].wg == wg ensures false {
      assert WaiterOk(s, u);
      var h :| HeldBy(s, h, wg);
      assert OwnerOf(s, h, wg);
    }
  }

  /** No lost wake-up: whoever cannot wake waits on a group that a live holder will count down. */
  lemma WaiterHasHolder(run: seq<System>, steps: seq<Step>, i: nat, t: nat)
    requires IsRun(run, steps) && i < |run| && t in run[i].threads && run[i].threads[t].Waits?
    ensures Enabled(run[i], Wake(t)) ||
            exists h :: HeldBy(run[i], h, run[i].threads[t].wg) && Enabled(run[i], Unlatch(h)) &&
                        Next(run[i], Unlatch(h)).Some? && Enabled(Next(run[i], Unlatch(h)).value, Wake(t))
  {
    RunKeeps(run, steps, i);
    assert WaiterOk(run[i], t);
    var wg := run[i].threads[t].wg;
    if !Enabled(run[i], Wake(t)) {
      var h :| HeldBy(run[i], h, wg);
      assert HolderOk(run[i], h);
      ReleaseSucceeds(run[i], h);
    }
  }

  /** With no holder left, every waiter can wake, and whoever tries gets its latches. */
  lemma NobodyStuck(run: seq<System>, steps: seq<Step>, i: nat, t: nat)
    requires IsRun(run, steps) && i < |run| && t in run[i].threads && (forall h :: !IsHolder(run[i], h))
    ensures run[i].threads[t].Waits? ==> Enabled(run[i], Wake(t))
    ensures run[i].threads[t].Wants? ==> IsHolder(Next(run[i], Attempt(t)).value, t)
  {
    RunKeeps(run, steps, i);
    if run[i].threads[t].Waits? {
      WaiterHasHolder(run, steps, i, t);
    }
    if run[i].threads[t].Wants? {
      FirstLatchedMeans(run[i].latches.latchMap, run[i].threads[t].keys);
      forall k ensures k !in run[i].latches.latchMap { assert LatchOk(run[i], k); }
    }
  }

  /** No thread that releases what it acquired makes the code panic. */
  lemma NeverPanics(run: seq<System>, steps: seq<Step>, i: nat, e: Step)
    requires IsRun(run, steps) && i < |run| && Enabled(run[i], e)
    ensures Next(run[i], e).Some?
  {
    RunKeeps(run, steps, i);
    StepKeeps(run[i], e);
  }

  // ---------------------------------------------------------------- the object

  lemma LatchOneMore(m: map<Key, nat>, keys: seq<Key>, group: nat, i: nat)
    requires i < |keys|
    ensures LatchAll(m, keys[..i + 1], group) == LatchAll(m, keys[..i], group)[keys[i] := group]
  {
    assert keys[..i + 1] == keys[..i] + [keys[i]];
  }

  class LatchTable {
    var latchMap: map<Key, nat>
    var counts: seq<nat>

    constructor ()
      ensures View() == LatchState(map[], [])
    {
      latchMap, counts := map[], [];
    }

    function View(): LatchState
      reads this
    {
      LatchState(latchMap, counts)
    }

    method FindLatched(keys: seq<Key>) returns (wg: Option<nat>)
      ensures wg == FirstLatched(latchMap, keys)
    {
      assert keys[0..] == keys;
      for i := 0 to |keys|
        invariant FirstLatched(latchMap, keys) == FirstLatched(latchMap, keys[i..])
      {
        if keys[i] in latchMap { return Some(latchMap[keys[i]]); }
        assert keys[i..][1..] == keys[i + 1..];
      }
      return None;
    }

    method LatchKeys(keys: seq<Key>, group: nat)
      modifies this`latchMap
      ensures latchMap == LatchAll(old(latchMap), keys, group)
    {
      for i := 0 to |keys|
        invariant latchMap == LatchAll(old(latchMap), keys[..i], group)
      {
        LatchOneMore(old(latchMap), keys, group, i);
        latchMap := latchMap[keys[i] := group];
      }
      assert keys[..|keys|] == keys;
    }

    /** Under the mutex: the wait group to wait on, or `None` when all keys have been latched. */
    method AcquireLatches(keys: seq<Key>) returns (wg: Option<nat>)
      modifies this
      ensures (View(), wg) == Acquire(old(View()), keys)
    {
      wg := FindLatched(keys);
      if wg.Some? { return; }
      var group := |counts|;
      counts := counts + [1];
      LatchKeys(keys, group);
    }

    /** Under the mutex: false is a panic. */
    method ReleaseLatches(keys: seq<Key>) returns (ok: bool)
      modifies this
      ensures ok <==> Release(old(View()), keys).Some?
      ensures ok ==> Some(View()) == Release(old(View()), keys)
    {
      ghost var before := View();
      for i := 0 to |keys|
        invariant i == 0 ==> View() == before
        invariant i > 0 ==> Release(before, keys).Some? && latchMap == before.latchMap - Elements(keys[..i])
        invariant i > 0 ==> counts == Release(before, keys).value.counts
      {
        if i == 0 {
          if keys[0] !in latchMap { return false; }
          var wg := latchMap[keys[0]];
          if wg >= |counts| || counts[wg] == 0 { return false; }
          counts := counts[wg := counts[wg] - 1];
        }
        latchMap := latchMap - {keys[i]};
        assert Elements(keys[..i + 1]) == Elements(keys[..i]) + {keys[i]};
      }
      assert keys[..|keys|] == keys;
      return true;
    }
  }
}
