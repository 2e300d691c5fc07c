/** The keys of the Raft engine, and searching it in key order. */
module Keys {
  import opened Common
  import opened Bytes

  const LOCAL_PREFIX: byte := 0x01
  const REGION_RAFT_PREFIX: byte := 0x02
  const RAFT_LOG_SUFFIX: byte := 0x01
  const RAFT_STATE_SUFFIX: byte := 0x02
  const RAFT_LOG_LEN: nat := 19

  function RegionPrefix(region: nat): (k: Key)
    ensures |k| == 10
  {
    [LOCAL_PREFIX, REGION_RAFT_PREFIX] + BigEndian(region, 8)
  }

  function RaftLogKey(region: nat, index: nat): (k: Key)
    ensures |k| == RAFT_LOG_LEN
  {
    RegionPrefix(region) + ([RAFT_LOG_SUFFIX] + BigEndian(index, 8))
  }

  function RaftStateKey(region: nat): (k: Key)
    ensures |k| == 11
  {
    RegionPrefix(region) + [RAFT_STATE_SUFFIX]
  }

  /** The index in a key of the length of a log key. */
  function RaftLogIndex(key: Key): Option<nat> {
    if |key| != RAFT_LOG_LEN then None else Some(FromBigEndian(key[RAFT_LOG_LEN - 8..]))
  }

  lemma RaftLogIndexRoundTrip(region: nat, index: nat)
    requires index < U64
    ensures RaftLogIndex(RaftLogKey(region, index)) == Some(index)
  {
    Pow256Eight();
    BigEndianRoundTrip(index, 8);
    assert RaftLogKey(region, index)[RAFT_LOG_LEN - 8..] == BigEndian(index, 8);
  }

  /** Keys of different regions are ordered by region; keys of one region by what follows. */
  lemma RegionOrdered(r: nat, x: Key, s: nat, y: Key)
    requires r < U64 && s < U64
    ensures Before(RegionPrefix(r) + x, RegionPrefix(s) + y) <==> if r == s then Before(x, y) else r < s
  {
    if r == s {
      BeforeUnderPrefix(RegionPrefix(r), x, y);
    } else {
      Pow256Eight();
      BeforeUnderPrefix([LOCAL_PREFIX, REGION_RAFT_PREFIX], BigEndian(r, 8), BigEndian(s, 8));
      BigEndianOrdered(r, s, 8);
      RegionPrefixInjective(r, s);
      BeforeByHead(RegionPrefix(r), RegionPrefix(s), x, y);
    }
  }

  lemma RegionPrefixInjective(r: nat, s: nat)
    requires r < U64 && s < U64
    ensures RegionPrefix(r) == RegionPrefix(s) ==> r == s
  {
    if RegionPrefix(r) == RegionPrefix(s) {
      Pow256Eight();
      assert BigEndian(r, 8) == RegionPrefix(r)[2..] && BigEndian(s, 8) == RegionPrefix(s)[2..];
      BigEndianInjective(r, s, 8);
    }
  }

  /** Log keys are ordered by region and then by index. */
  lemma LogKeysOrdered(r: nat, i: nat, s: nat, j: nat)
    requires r < U64 && s < U64 && i < U64 && j < U64
    ensures Before(RaftLogKey(r, i), RaftLogKey(s, j)) <==> r < s || (r == s && i < j)
  {
    Pow256Eight();
    var x, y := [RAFT_LOG_SUFFIX] + BigEndian(i, 8), [RAFT_LOG_SUFFIX] + BigEndian(j, 8);
    RegionOrdered(r, x, s, y);
    BeforeUnderPrefix([RAFT_LOG_SUFFIX], BigEndian(i, 8), BigEndian(j, 8));
    BigEndianOrdered(i, j, 8);
  }

  lemma LogKeysInjective(r: nat, i: nat, s: nat, j: nat)
    requires r < U64 && s < U64 && i < U64 && j < U64 && RaftLogKey(r, i) == RaftLogKey(s, j)
    ensures r == s && i == j
  {
    BeforeIrreflexive(RaftLogKey(r, i));
    LogKeysOrdered(r, i, s, j);
    LogKeysOrdered(s, j, r, i);
  }

  /** A region's state key lies behind all of its log keys and before those of later regions. */
  lemma StateKeyOrdered(r: nat, i: nat, s: nat)
    requires r < U64 && s < U64 && i < U64
    ensures Before(RaftStateKey(s), RaftLogKey(r, i)) <==> s < r
    ensures Before(RaftLogKey(r, i), RaftStateKey(s)) <==> r <= s
  {
    RegionOrdered(s, [RAFT_STATE_SUFFIX], r, [RAFT_LOG_SUFFIX] + BigEndian(i, 8));
    RegionOrdered(r, [RAFT_LOG_SUFFIX] + BigEndian(i, 8), s, [RAFT_STATE_SUFFIX]);
  }

  ghost predicate IsLogKey(k: Key, r: nat, i: nat) {
    r < U64 && i < U64 && k == RaftLogKey(r, i)
  }

  ghost predicate IsStateKey(k: Key, r: nat) {
    r < U64 && k == RaftStateKey(r)
  }

  /** What the Raft engine stores: log entries and states of regions, and the store's own two-byte keys. */
  ghost predicate Known(k: Key) {
    || (exists r, i :: IsLogKey(k, r, i))
    || (exists r :: IsStateKey(k, r))
    || k == [LOCAL_PREFIX, 0x01] || k == [LOCAL_PREFIX, 0x02]
  }

  lemma ShortKeyFirst(k: Key, r: nat, i: nat)
    requires k == [LOCAL_PREFIX, 0x01] || k == [LOCAL_PREFIX, 0x02]
    ensures Before(k, RaftLogKey(r, i)) && !AtMost(RaftLogKey(r, i), k)
  {
    var key := RaftLogKey(r, i);
    assert key[0] == LOCAL_PREFIX && key[1] == REGION_RAFT_PREFIX;
    assert k[1..] == [k[1]] && k[1..][1..] == [] && key[1..][0] == key[1];
    assert Before(k[1..][1..], key[1..][1..]);
    assert Before(k[1..], key[1..]);
    BeforeAsymmetric(k, key);
  }

  /** Between two log keys of a region the engine holds only log keys of that region. */
  lemma LogRange(k: Key, region: nat, lo: nat, hi: nat) returns (i: nat)
    requires Known(k) && region < U64 && lo < U64 && hi < U64
    requires AtMost(RaftLogKey(region, lo), k) && Before(k, RaftLogKey(region, hi))
    ensures lo <= i < hi && k == RaftLogKey(region, i)
  {
    i := 0;
    if r, n :| IsLogKey(k, r, n) {
      LogKeysOrdered(region, lo, r, n);
      LogKeysOrdered(r, n, region, hi);
      if RaftLogKey(region, lo) == k { LogKeysInjective(region, lo, r, n); }
      i := n;
    } else if r :| IsStateKey(k, r) {
      StateKeyOrdered(region, lo, r);
      StateKeyOrdered(region, hi, r);
    } else {
      ShortKeyFirst(k, region, lo);
    }
  }

  // ---------------------------------------------------------------- searching

  /** The least stored key at or above a key. */
  ghost predicate IsSeek(keys: set<Key>, from: Key, r: Option<Key>) {
    match r
    case None => forall k :: k in keys ==> Before(k, from)
    case Some(found) =>
      found in keys && AtMost(from, found) && forall k :: k in keys && AtMost(from, k) ==> AtMost(found, k)
  }

  /** The better of the best key found so far and one more. */
  function Better(from: Key, best: Option<Key>, k: Key): Option<Key> {
    if Before(k, from) then best
    else if best == None || Before(k, best.value) then Some(k) else best
  }

  method Seek(keys: set<Key>, from: Key) returns (r: Option<Key>)
    ensures IsSeek(keys, from, r)
  {
    r := None;
    var rest := keys;
    while rest != {}
      invariant rest <= keys && IsSeek(keys - rest, from, r)
      decreases |rest|
    {
      var k :| k in rest;
      BetterSeeks(keys - rest, from, r, k);
      assert keys - (rest - {k}) == (keys - rest) + {k};
      r, rest := Better(from, r, k), rest - {k};
    }
    assert keys - rest == keys;
  }

  lemma BetterSeeks(keys: set<Key>, from: Key, best: Option<Key>, k: Key)
    requires IsSeek(keys, from, best)
    ensures IsSeek(keys + {k}, from, Better(from, best, k))
  {
    BeforeTotal(k, from);
    if Before(k, from) {
      BeforeAsymmetric(k, from);
    } else if best == None {
      forall j | j in keys + {k} && AtMost(from, j) ensures AtMost(k, j) {
        if j in keys { BeforeAsymmetric(j, from); }
      }
    } else {
      BeforeTotal(k, best.value);
      if Before(k, best.value) {
        forall j | j in keys + {k} && AtMost(from, j) ensures AtMost(k, j) {
          if j != k && j != best.value { BeforeTransitive(k, best.value, j); }
        }
      }
    }
  }

  /** The least key above a key is its extension by a zero byte. */
  lemma {:induction false} Successor(a: Key, k: Key)
    ensures AtMost(a + [0], k) <==> Before(a, k)
  {
    if a == [] {
      assert a + [0] == [0] && [0][1..] == [];
      if k != [] {
        assert k == [k[0]] + k[1..];
        assert Before([0][1..], k[1..]) <==> k[1..] != [];
      }
    } else {
      assert (a + [0])[1..] == a[1..] + [0];
      if k != [] {
        Successor(a[1..], k[1..]);
        assert k == [k[0]] + k[1..] && a + [0] == [a[0]] + (a[1..] + [0]);
      }
    }
  }

  lemma SeekUnique(keys: set<Key>, from: Key, a: Option<Key>, b: Option<Key>)
    requires IsSeek(keys, from, a) && IsSeek(keys, from, b)
    ensures a == b
  {
    match (a, b)
    case (Some(x), Some(y)) =>
      if Before(x, y) { BeforeAsymmetric(x, y); }
    case (Some(x), None) => BeforeTotalNot(x, from);
    case (None, Some(y)) => BeforeTotalNot(y, from);
    case (None, None) =>
  }

  lemma BeforeTotalNot(x: Key, from: Key)
    requires AtMost(from, x)
    ensures !Before(x, from)
  {
    BeforeIrreflexive(x);
    if Before(from, x) { BeforeAsymmetric(from, x); }
  }
}
