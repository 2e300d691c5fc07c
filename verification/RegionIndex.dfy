/** The index of regions by start key, and the regions that overlap a range. */
module RegionIndex {
  import opened Bytes

  /** Keys from `start` up to but not including `end`; an empty `end` is no bound. */
  datatype Region = Region(id: nat, start: Key, end: Key)

  predicate ExceedEndKey(key: Key, end: Key) {
    end != [] && AtMost(end, key)
  }

  predicate Contains(r: Region, k: Key) {
    AtMost(r.start, k) && !ExceedEndKey(k, r.end)
  }

  ghost predicate NonEmpty(r: Region) {
    exists k :: Contains(r, k)
  }

  /** The regions share a key. */
  ghost predicate Intersect(a: Region, b: Region) {
    exists k :: Contains(a, k) && Contains(b, k)
  }

  /** What a B-tree of regions holds, in its order. */
  ghost predicate IsIndex(tree: seq<Region>) {
    && (forall i :: 0 <= i < |tree| ==> NonEmpty(tree[i]))
    && (forall i, j :: 0 <= i < j < |tree| ==> Before(tree[i].start, tree[j].start))
    && (forall i, j :: 0 <= i < j < |tree| ==> !Intersect(tree[i], tree[j]))
  }

  lemma ChainBefore(a: Key, b: Key, c: Key)
    requires AtMost(a, b) && Before(b, c)
    ensures Before(a, c) && !AtMost(c, a)
  {
    if a != b { BeforeTransitive(a, b, c); }
    BeforeAsymmetric(a, c);
  }

  lemma ChainOver(a: Key, b: Key, c: Key)
    requires Before(a, b) && AtMost(b, c)
    ensures Before(a, c)
  {
    if b != c { BeforeTransitive(a, b, c); }
  }

  lemma AtMostTransitive(a: Key, b: Key, c: Key)
    requires AtMost(a, b) && AtMost(b, c)
    ensures AtMost(a, c)
  {
    if a != b { ChainOver(a, b, c); }
  }

  lemma ExceedOrBefore(k: Key, end: Key)
    requires end != []
    ensures ExceedEndKey(k, end) <==> !Before(k, end)
  {
    BeforeTotal(k, end);
    if Before(k, end) { BeforeAsymmetric(k, end); }
  }

  /** A key between its ends cuts a region in two: every key of it is in exactly one part. */
  lemma SplitsInTwo(start: Key, mid: Key, end: Key, id: nat, k: Key)
    requires Before(start, mid) && !ExceedEndKey(mid, end)
    ensures var whole, left, right := Region(id, start, end), Region(id, start, mid), Region(id, mid, end);
            && (Contains(whole, k) <==> Contains(left, k) || Contains(right, k))
            && !(Contains(left, k) && Contains(right, k))
  {
    if AtMost(mid, k) {
      ChainOver(start, mid, k);
    } else {
      BeforeTotal(mid, k);
      if end != [] {
        ExceedOrBefore(mid, end);
        BeforeTransitive(k, mid, end);
        ExceedOrBefore(k, end);
      }
    }
  }

  /** A region that is not empty holds its start key. */
  lemma HoldsStart(r: Region)
    requires NonEmpty(r)
    ensures Contains(r, r.start)
  {
    var k :| Contains(r, k);
    if r.end != [] {
      ExceedOrBefore(k, r.end);
      ChainBefore(r.start, k, r.end);
      ExceedOrBefore(r.start, r.end);
    }
  }

  lemma StartsBeforeEnd(a: Region, b: Region, k: Key)
    requires Contains(a, k) && Contains(b, k)
    ensures !ExceedEndKey(a.start, b.end)
  {
    if b.end != [] {
      ExceedOrBefore(k, b.end);
      ChainBefore(a.start, k, b.end);
      ExceedOrBefore(a.start, b.end);
    }
  }

  /** Two regions share a key exactly when each starts before the other one ends. */
  lemma IntersectMeans(a: Region, b: Region)
    requires NonEmpty(a) && NonEmpty(b)
    ensures Intersect(a, b) <==> !ExceedEndKey(a.start, b.end) && !ExceedEndKey(b.start, a.end)
  {
    HoldsStart(a);
    HoldsStart(b);
    if k :| Contains(a, k) && Contains(b, k) {
      StartsBeforeEnd(a, b, k);
      StartsBeforeEnd(b, a, k);
    }
    BeforeTotal(a.start, b.start);
    if !ExceedEndKey(a.start, b.end) && !ExceedEndKey(b.start, a.end) {
      if AtMost(a.start, b.start) {
        assert Contains(a, b.start);
      } else {
        assert Contains(b, a.start);
      }
    }
  }

  /** In an index a region ends before the next one starts. */
  lemma EndsBeforeNext(tree: seq<Region>, i: nat, j: nat)
    requires IsIndex(tree) && i < j < |tree|
    ensures ExceedEndKey(tree[j].start, tree[i].end)
  {
    IntersectMeans(tree[i], tree[j]);
    if tree[j].end != [] && ExceedEndKey(tree[i].start, tree[j].end) {
      HoldsStart(tree[j]);
      ExceedOrBefore(tree[j].start, tree[j].end);
      ChainBefore(tree[j].end, tree[i].start, tree[j].start);
      BeforeAsymmetric(tree[j].end, tree[j].start);
    }
  }

  class StoreMeta {
    var regionRanges: seq<Region>

    constructor ()
      ensures regionRanges == []
    {
      regionRanges := [];
    }

    /** How many regions start at or before a key. */
    method DescendLessOrEqual(start: Key) returns (n: nat)
      requires IsIndex(regionRanges)
      ensures n <= |regionRanges|
      ensures n > 0 ==> AtMost(regionRanges[n - 1].start, start)
      ensures forall k :: n <= k < |regionRanges| ==> Before(start, regionRanges[k].start)
    {
      n := |regionRanges|;
      while n > 0
        invariant n <= |regionRanges|
        invariant forall k :: n <= k < |regionRanges| ==> Before(start, regionRanges[k].start)
      {
        BeforeTotal(start, regionRanges[n - 1].start);
        if AtMost(regionRanges[n - 1].start, start) { break; }
        n := n - 1;
      }
    }

    /** The regions from a start key on, up to the first that starts at or beyond the end key. */
    method Collect(from: Key, end: Key) returns (lo: nat, hi: nat, overlaps: seq<Region>)
      ensures lo <= hi <= |regionRanges| && overlaps == regionRanges[lo..hi]
      ensures forall k :: 0 <= k < lo ==> Before(regionRanges[k].start, from)
      ensures lo < |regionRanges| ==> !Before(regionRanges[lo].start, from)
      ensures forall k :: lo <= k < hi ==> !ExceedEndKey(regionRanges[k].start, end)
      ensures hi < |regionRanges| ==> ExceedEndKey(regionRanges[hi].start, end)
    {
      lo := 0;
      while lo < |regionRanges| && Before(regionRanges[lo].start, from)
        invariant lo <= |regionRanges| && forall k :: 0 <= k < lo ==> Before(regionRanges[k].start, from)
      {
        lo := lo + 1;
      }
      hi, overlaps := lo, [];
      while hi < |regionRanges|
        invariant lo <= hi <= |regionRanges| && overlaps == regionRanges[lo..hi]
        invariant forall k :: lo <= k < hi ==> !ExceedEndKey(regionRanges[k].start, end)
      {
        if ExceedEndKey(regionRanges[hi].start, end) { break; }
        overlaps := overlaps + [regionRanges[hi]];
        hi := hi + 1;
      }
    }

    /** Exactly the stored regions that share a key with the given one, in order. */
    method GetOverlapRegions(region: Region) returns (overlaps: seq<Region>)
      requires IsIndex(regionRanges) && NonEmpty(region)
      ensures forall r :: r in overlaps <==> r in regionRanges && Intersect(r, region)
      ensures exists lo, hi :: 0 <= lo <= hi <= |regionRanges| && overlaps == regionRanges[lo..hi]
    {
      var n := DescendLessOrEqual(region.start);
      var from := region.start;
      if n > 0 && !ExceedEndKey(region.start, regionRanges[n - 1].end) { from := regionRanges[n - 1].start; }
      var lo, hi;
      lo, hi, overlaps := Collect(from, region.end);
      forall k | 0 <= k < |regionRanges|
        ensures lo <= k < hi <==> Intersect(regionRanges[k], region)
      {
        InRangeIffIntersects(region, n, from, lo, hi, k);
      }
    }

    /** The region before the range counts only if the range starts inside it; the others start no earlier than it. */
    lemma InRangeIffIntersects(region: Region, n: nat, from: Key, lo: nat, hi: nat, k: nat)
      requires IsIndex(regionRanges) && NonEmpty(region) && k < |regionRanges| && n <= |regionRanges|
      requires n > 0 ==> AtMost(regionRanges[n - 1].start, region.start)
      requires forall k :: n <= k < |regionRanges| ==> Before(region.start, regionRanges[k].start)
      requires from == if n > 0 && !ExceedEndKey(region.start, regionRanges[n - 1].end)
                       then regionRanges[n - 1].start else region.start
      requires lo <= hi <= |regionRanges|
      requires forall k :: 0 <= k < lo ==> Before(regionRanges[k].start, from)
      requires lo < |regionRanges| ==> !Before(regionRanges[lo].start, from)
      requires forall k :: lo <= k < hi ==> !ExceedEndKey(regionRanges[k].start, region.end)
      requires hi < |regionRanges| ==> ExceedEndKey(regionRanges[hi].start, region.end)
      ensures lo <= k < hi <==> Intersect(regionRanges[k], region)
    {
      IntersectMeans(regionRanges[k], region);
      LowerBound(region, n, from, lo, k);
      UpperBound(region, hi, k);
    }

    lemma UpperBound(region: Region, hi: nat, k: nat)
      requires IsIndex(regionRanges) && k < |regionRanges| && hi <= |regionRanges|
      requires hi < |regionRanges| ==> ExceedEndKey(regionRanges[hi].start, region.end)
      ensures k >= hi ==> ExceedEndKey(regionRanges[k].start, region.end)
    {
      if k > hi {
        ChainBefore(region.end, regionRanges[hi].start, regionRanges[k].start);
      }
    }

    /** The collection starts at the region that holds the start key, or else right behind all that start before it. */
    lemma FirstCollected(region: Region, n: nat, from: Key, lo: nat)
      requires IsIndex(regionRanges) && n <= |regionRanges| && lo <= |regionRanges|
      requires n > 0 ==> AtMost(regionRanges[n - 1].start, region.start)
      requires forall k :: n <= k < |regionRanges| ==> Before(region.start, regionRanges[k].start)
      requires from == if n > 0 && !ExceedEndKey(region.start, regionRanges[n - 1].end)
                       then regionRanges[n - 1].start else region.start
      requires forall k :: 0 <= k < lo ==> Before(regionRanges[k].start, from)
      requires lo < |regionRanges| ==> !Before(regionRanges[lo].start, from)
      ensures lo == if n > 0 && !ExceedEndKey(region.start, regionRanges[n - 1].end) then n - 1 else n
    {
      if n > 0 && !ExceedEndKey(region.start, regionRanges[n - 1].end) {
        BeforeIrreflexive(from);
      } else {
        if lo > n {
          BeforeAsymmetric(region.start, regionRanges[n].start);
        }
        if n > 0 { LastStartsBefore(region, n); }
        if lo < n - 1 { ChainOver(regionRanges[lo].start, regionRanges[n - 1].start, region.start); }
      }
    }

    lemma LastStartsBefore(region: Region, n: nat)
      requires IsIndex(regionRanges) && 0 < n <= |regionRanges| && AtMost(regionRanges[n - 1].start, region.start)
      requires ExceedEndKey(region.start, regionRanges[n - 1].end)
      ensures Before(regionRanges[n - 1].start, region.start)
    {
      HoldsStart(regionRanges[n - 1]);
    }

    lemma LowerBound(region: Region, n: nat, from: Key, lo: nat, k: nat)
      requires IsIndex(regionRanges) && k < |regionRanges| && n <= |regionRanges| && lo <= |regionRanges|
      requires n > 0 ==> AtMost(regionRanges[n - 1].start, region.start)
      requires forall k :: n <= k < |regionRanges| ==> Before(region.start, regionRanges[k].start)
      requires from == if n > 0 && !ExceedEndKey(region.start, regionRanges[n - 1].end)
                       then regionRanges[n - 1].start else region.start
      requires forall k :: 0 <= k < lo ==> Before(regionRanges[k].start, from)
      requires lo < |regionRanges| ==> !Before(regionRanges[lo].start, from)
      ensures k >= lo <==> !ExceedEndKey(region.start, regionRanges[k].end)
    {
      FirstCollected(region, n, from, lo);
      var r := regionRanges[k];
      if k >= n {
        HoldsStart(r);
        if r.end != [] {
          ExceedOrBefore(r.start, r.end);
          BeforeTransitive(region.start, r.start, r.end);
          ExceedOrBefore(region.start, r.end);
        }
      } else if k < n - 1 {
        EndsBeforeNext(regionRanges, k, n - 1);
        AtMostTransitive(r.end, regionRanges[n - 1].start, region.start);
      }
    }
  }
}
