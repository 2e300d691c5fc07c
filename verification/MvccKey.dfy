/** Keys with timestamps, newest first, and the keys at which regions are split. */
module MvccKeys {
  import opened Common
  import opened Bytes
  import opened Keys
  import opened BytesCodec

  /** The timestamp is appended with its bits flipped, so that later ones sort first. */
  function EncodeKey(user: Key, ts: nat): Key
    requires ts < U64
  {
    Encode(user) + BigEndian(U64 - 1 - ts, 8)
  }

  /** `None` is a panic. */
  function DecodeUserKey(key: Key): Option<Key> {
    match Decode(key)
    case None => None
    case Some((user, _)) => Some(user)
  }

  function DecodeTimestamp(key: Key): Option<nat> {
    match Decode(key)
    case None => None
    case Some((_, left)) =>
      if |left| < 8 then None
      else
        FromBigEndianRoundTrip(left[..8]);
        Pow256Eight();
        Some(U64 - 1 - FromBigEndian(left[..8]))
  }

  lemma KeyRoundTrip(user: Key, ts: nat)
    requires ts < U64
    ensures DecodeUserKey(EncodeKey(user, ts)) == Some(user)
    ensures DecodeTimestamp(EncodeKey(user, ts)) == Some(ts)
  {
    var left := BigEndian(U64 - 1 - ts, 8);
    DecodeEncode(user, left);
    Pow256Eight();
    BigEndianRoundTrip(U64 - 1 - ts, 8);
    assert left[..8] == left;
  }

  /** User keys ascending, then timestamps descending. */
  lemma KeysOrdered(u: Key, s: nat, v: Key, t: nat)
    requires s < U64 && t < U64
    ensures Before(EncodeKey(u, s), EncodeKey(v, t)) <==> Before(u, v) || (u == v && s > t)
  {
    var x, y := BigEndian(U64 - 1 - s, 8), BigEndian(U64 - 1 - t, 8);
    if u == v {
      Pow256Eight();
      BeforeIrreflexive(u);
      BeforeUnderPrefix(Encode(u), x, y);
      BigEndianOrdered(U64 - 1 - s, U64 - 1 - t, 8);
    } else {
      EncodeOrdered(u, v, x, y);
    }
  }

  lemma KeyInjective(u: Key, s: nat, v: Key, t: nat)
    requires s < U64 && t < U64 && EncodeKey(u, s) == EncodeKey(v, t)
    ensures u == v && s == t
  {
    KeyRoundTrip(u, s);
    KeyRoundTrip(v, t);
  }

  ghost predicate IsVersion(key: Key, user: Key, ts: nat) {
    ts < U64 && key == EncodeKey(user, ts)
  }

  /** Every stored key is some version of some user key. */
  ghost predicate AllVersions(keys: set<Key>) {
    forall k :: k in keys ==> exists u, t :: IsVersion(k, u, t)
  }

  /** A version of the user key that is not after the timestamp is stored. */
  ghost predicate Stored(keys: set<Key>, user: Key, t: nat) {
    t < U64 && EncodeKey(user, t) in keys
  }

  /**
   What a seek to (user, ts) finds: the newest version of the user key that is not after ts, if there is one,
   and otherwise a version of a larger user key or nothing.
   */
  lemma SeekFindsNewest(keys: set<Key>, user: Key, ts: nat, r: Option<Key>)
    requires AllVersions(keys) && ts < U64 && IsSeek(keys, EncodeKey(user, ts), r)
    ensures (exists t: nat :: t <= ts && Stored(keys, user, t)) <==> (r.Some? && DecodeUserKey(r.value) == Some(user))
    ensures r.Some? && DecodeUserKey(r.value) == Some(user) ==>
              exists t: nat :: t <= ts && IsVersion(r.value, user, t) &&
                               forall n: nat :: n <= ts && Stored(keys, user, n) ==> n <= t
    ensures r.Some? && DecodeUserKey(r.value) != Some(user) ==>
              DecodeUserKey(r.value).Some? && Before(user, DecodeUserKey(r.value).value)
  {
    var from := EncodeKey(user, ts);
    if r.Some? {
      var u, t :| IsVersion(r.value, u, t);
      KeyRoundTrip(u, t);
      FoundIsAtOrAfter(user, ts, u, t);
      if u == user { assert Stored(keys, user, t); }
      forall n: nat | n <= ts && Stored(keys, user, n) ensures u == user && n <= t {
        StoredIsAtOrAfter(user, ts, n);
        FoundBeats(user, n, u, t);
        FoundIsAtOrAfter(user, ts, u, t);
      }
    } else {
      forall n: nat | n <= ts && Stored(keys, user, n) ensures false {
        StoredIsAtOrAfter(user, ts, n);
        BeforeTotalNot(EncodeKey(user, n), from);
      }
    }
  }

  lemma FoundIsAtOrAfter(user: Key, ts: nat, u: Key, t: nat)
    requires ts < U64 && t < U64 && AtMost(EncodeKey(user, ts), EncodeKey(u, t))
    ensures Before(user, u) || (u == user && t <= ts)
    ensures !(Before(user, u) && u == user)
  {
    BeforeIrreflexive(user);
    KeysOrdered(user, ts, u, t);
    if EncodeKey(user, ts) == EncodeKey(u, t) { KeyInjective(user, ts, u, t); }
  }

  lemma StoredIsAtOrAfter(user: Key, ts: nat, n: nat)
    requires n <= ts < U64
    ensures AtMost(EncodeKey(user, ts), EncodeKey(user, n))
  {
    if n < ts { KeysOrdered(user, ts, user, n); }
  }

  /** The least key found is not behind a version of the user key that was asked for. */
  lemma FoundBeats(user: Key, n: nat, u: Key, t: nat)
    requires n < U64 && t < U64 && AtMost(EncodeKey(u, t), EncodeKey(user, n)) && (Before(user, u) || u == user)
    ensures u == user && n <= t
  {
    KeysOrdered(u, t, user, n);
    if EncodeKey(u, t) == EncodeKey(user, n) { KeyInjective(u, t, user, n); }
    if Before(user, u) { BeforeAsymmetric(user, u); }
  }

  // ---------------------------------------------------------------- splitting

  /** The key a region is split at: cut back to the user key, unless it is not an encoded key. */
  function SplitAt(key: Key): Key {
    match Decode(key)
    case None => key
    case Some((user, _)) => Encode(user)
  }

  lemma BoundarySplits(w: Key, user: Key, t: nat)
    requires t < U64
    ensures Before(EncodeKey(user, t), Encode(w)) <==> Before(user, w)
  {
    if user == w {
      var left := BigEndian(U64 - 1 - t, 8);
      assert Encode(w) == Encode(w) + [];
      BeforeUnderPrefix(Encode(w), left, []);
      BeforeIrreflexive(w);
    } else {
      assert Encode(w) == Encode(w) + [];
      EncodeOrdered(user, w, BigEndian(U64 - 1 - t, 8), []);
    }
  }

  /** A split never separates two versions of one user key. */
  lemma SplitKeepsVersionsTogether(key: Key, user: Key, s: nat, t: nat)
    requires Decode(key).Some? && s < U64 && t < U64
    ensures Before(EncodeKey(user, s), SplitAt(key)) <==> Before(EncodeKey(user, t), SplitAt(key))
  {
    var w := Decode(key).value.0;
    BoundarySplits(w, user, s);
    BoundarySplits(w, user, t);
  }

  /** Cutting back moves the split key only to the front of its own user key. */
  lemma SplitMovesBack(key: Key, user: Key, t: nat)
    requires Decode(key).Some? && t < U64
    ensures AtMost(SplitAt(key), key)
    ensures Before(user, Decode(key).value.0) ==> Before(EncodeKey(user, t), SplitAt(key))
    ensures Before(Decode(key).value.0, user) ==> Before(key, EncodeKey(user, t))
  {
    var (w, left) := Decode(key).value;
    DecodeAcceptsOnlyEncoded(key);
    assert Encode(w) == Encode(w) + [];
    BeforeUnderPrefix(Encode(w), [], left);
    BoundarySplits(w, user, t);
    if Before(w, user) {
      BeforeAsymmetric(w, user);
      EncodeOrdered(w, user, left, BigEndian(U64 - 1 - t, 8));
    }
  }
}
