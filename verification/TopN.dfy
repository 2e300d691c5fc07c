/** The first N rows in an order, kept in a max-heap of at most N rows. */
module TopN {
  import opened Common

  /** A row to be ordered; comparing data items is taken as comparing their ranks. */
  datatype SortRow = SortRow(key: seq<int>, data: seq<byte>)

  // ---------------------------------------------------------------- the order

  /** Compare from item `i` on: negative, zero or positive. */
  function CompareFrom(desc: seq<bool>, a: SortRow, b: SortRow, i: nat): int
    requires i <= |desc| && |a.key| == |desc| == |b.key|
    decreases |desc| - i
  {
    if i == |desc| then 0
    else if a.key[i] == b.key[i] then CompareFrom(desc, a, b, i + 1)
    else if (a.key[i] < b.key[i]) != desc[i] then -1 else 1
  }

  /** At the first item in which the keys differ, `a` has the smaller one, or the larger one if that item descends. */
  ghost predicate Before(desc: seq<bool>, a: seq<int>, b: seq<int>) {
    exists i: nat :: i < |desc| && i < |a| && i < |b| && a[..i] == b[..i] &&
                     if desc[i] then a[i] > b[i] else a[i] < b[i]
  }

  lemma {:induction false} CompareFromMeans(desc: seq<bool>, a: SortRow, b: SortRow, i: nat)
    requires i <= |desc| && |a.key| == |desc| == |b.key| && a.key[..i] == b.key[..i]
    ensures CompareFrom(desc, a, b, i) < 0 <==> Before(desc, a.key, b.key)
    ensures CompareFrom(desc, a, b, i) == 0 <==> a.key == b.key
    decreases |desc| - i
  {
    if i == |desc| {
      assert a.key == a.key[..i] && b.key == b.key[..i];
    } else if a.key[i] == b.key[i] {
      assert a.key[..i + 1] == a.key[..i] + [a.key[i]] && b.key[..i + 1] == b.key[..i] + [b.key[i]];
      CompareFromMeans(desc, a, b, i + 1);
    } else {
      DiffersAt(desc, a.key, b.key, i);
    }
  }

  lemma DiffersAt(desc: seq<bool>, a: seq<int>, b: seq<int>, i: nat)
    requires i < |desc| == |a| == |b| && a[..i] == b[..i] && a[i] != b[i]
    ensures Before(desc, a, b) <==> if desc[i] then a[i] > b[i] else a[i] < b[i]
  {
    assert forall x :: 0 <= x < i ==> a[x] == a[..i][x] == b[..i][x] == b[x];
    if Before(desc, a, b) {
      var j: nat :| j < |desc| && a[..j] == b[..j] && (if desc[j] then a[j] > b[j] else a[j] < b[j]);
      assert forall x :: 0 <= x < j ==> a[x] == a[..j][x] == b[..j][x] == b[x];
    }
  }

  /** The comparison is the lexicographic order of the keys, each item in its own direction. */
  lemma CompareMeans(desc: seq<bool>, a: SortRow, b: SortRow)
    requires |a.key| == |desc| == |b.key|
    ensures CompareFrom(desc, a, b, 0) < 0 <==> Before(desc, a.key, b.key)
    ensures CompareFrom(desc, a, b, 0) == 0 <==> a.key == b.key
    ensures CompareFrom(desc, a, b, 0) > 0 <==> Before(desc, b.key, a.key)
  {
    CompareFromMeans(desc, a, b, 0);
    CompareFromMeans(desc, b, a, 0);
    CompareFlips(desc, a, b, 0);
  }

  ghost predicate Fits(desc: seq<bool>, r: SortRow) {
    |r.key| == |desc|
  }

  /** `a` does not come after `b`. */
  ghost predicate NotAfter(desc: seq<bool>, a: SortRow, b: SortRow) {
    Fits(desc, a) && Fits(desc, b) && CompareFrom(desc, a, b, 0) <= 0
  }

  lemma {:induction false} CompareFlips(desc: seq<bool>, a: SortRow, b: SortRow, i: nat)
    requires i <= |desc| && Fits(desc, a) && Fits(desc, b)
    ensures CompareFrom(desc, a, b, i) == -CompareFrom(desc, b, a, i)
    decreases |desc| - i
  {
    if i < |desc| { CompareFlips(desc, a, b, i + 1); }
  }

  lemma {:induction false} CompareTransitive(desc: seq<bool>, a: SortRow, b: SortRow, c: SortRow, i: nat)
    requires i <= |desc| && Fits(desc, a) && Fits(desc, b) && Fits(desc, c)
    requires CompareFrom(desc, a, b, i) <= 0 && CompareFrom(desc, b, c, i) <= 0
    ensures CompareFrom(desc, a, c, i) <= 0
    decreases |desc| - i
  {
    if i < |desc| && a.key[i] == b.key[i] == c.key[i] { CompareTransitive(desc, a, b, c, i + 1); }
  }

  lemma NotAfterTransitive(desc: seq<bool>, a: SortRow, b: SortRow, c: SortRow)
    requires NotAfter(desc, a, b) && NotAfter(desc, b, c)
    ensures NotAfter(desc, a, c)
  {
    CompareTransitive(desc, a, b, c, 0);
  }

  lemma NotAfterTotal(desc: seq<bool>, a: SortRow, b: SortRow)
    requires Fits(desc, a) && Fits(desc, b)
    ensures NotAfter(desc, a, b) || NotAfter(desc, b, a)
    ensures NotAfter(desc, b, a) <==> CompareFrom(desc, a, b, 0) >= 0
  {
    CompareFlips(desc, a, b, 0);
  }

  // ---------------------------------------------------------------- heaps

  function Parent(c: nat): nat {
    if c == 0 then 0 else (c - 1) / 2
  }

  ghost predicate IsChild(c: nat, i: nat, n: nat) {
    0 < c < n && Parent(c) == i
  }

  /** The row at `c` does not come after its parent. */
  ghost predicate Edge(desc: seq<bool>, rows: seq<SortRow>, c: nat) {
    0 < c < |rows| ==> NotAfter(desc, rows[c], rows[Parent(c)])
  }

  ghost predicate AllFit(desc: seq<bool>, rows: seq<SortRow>) {
    forall i :: 0 <= i < |rows| ==> Fits(desc, rows[i])
  }

  ghost predicate MaxHeap(desc: seq<bool>, rows: seq<SortRow>) {
    AllFit(desc, rows) && forall c {:trigger Edge(desc, rows, c)} :: Edge(desc, rows, c)
  }

  lemma {:induction false} TopIsLast(desc: seq<bool>, rows: seq<SortRow>, k: nat)
    requires MaxHeap(desc, rows) && k < |rows|
    ensures NotAfter(desc, rows[k], rows[0])
  {
    if k == 0 {
      NotAfterTotal(desc, rows[0], rows[0]);
    } else {
      assert Edge(desc, rows, k);
      TopIsLast(desc, rows, Parent(k));
      NotAfterTransitive(desc, rows[k], rows[Parent(k)], rows[0]);
    }
  }

  function Swap(rows: seq<SortRow>, i: nat, j: nat): (r: seq<SortRow>)
    requires i < |rows| && j < |rows|
    ensures |r| == |rows| && multiset(r) == multiset(rows)
  {
    rows[i := rows[j]][j := rows[i]]
  }

  /** A heap but for the row at `j`, which may come after its parent; its children do not come after that parent. */
  ghost predicate UpHeap(desc: seq<bool>, rows: seq<SortRow>, j: nat) {
    && AllFit(desc, rows) && j < |rows|
    && (forall c {:trigger Edge(desc, rows, c)} :: c != j ==> Edge(desc, rows, c))
    && (forall c: nat :: IsChild(c, j, |rows|) ==> NotAfter(desc, rows[c], rows[Parent(j)]))
  }

  /** A heap but for the row at `i`, which may come before its children; they do not come after its parent. */
  ghost predicate DownHeap(desc: seq<bool>, rows: seq<SortRow>, i: nat) {
    && AllFit(desc, rows)
    && (forall c {:trigger Edge(desc, rows, c)} :: Parent(c) != i ==> Edge(desc, rows, c))
    && (i < |rows| ==> Edge(desc, rows, i))
    && (forall c: nat :: IsChild(c, i, |rows|) && 0 < i < |rows| ==> NotAfter(desc, rows[c], rows[Parent(i)]))
  }

  lemma UpStep(desc: seq<bool>, rows: seq<SortRow>, j: nat)
    requires UpHeap(desc, rows, j) && j > 0 && NotAfter(desc, rows[Parent(j)], rows[j])
    ensures UpHeap(desc, Swap(rows, Parent(j), j), Parent(j))
  {
    var i, r := Parent(j), Swap(rows, Parent(j), j);
    forall c: nat | c != i ensures Edge(desc, r, c) {
      assert c != j ==> Edge(desc, rows, c);
      if 0 < c < |r| && c != j && Parent(c) == i {
        NotAfterTransitive(desc, rows[c], rows[i], rows[j]);
      }
    }
    forall c: nat | IsChild(c, i, |r|) ensures NotAfter(desc, r[c], r[Parent(i)]) {
      if i > 0 {
        assert Edge(desc, rows, i);
        if c != j {
          assert Edge(desc, rows, c);
          NotAfterTransitive(desc, rows[c], rows[i], rows[Parent(i)]);
        }
      } else {
        assert c != j ==> Edge(desc, rows, c);
        if c != j { NotAfterTransitive(desc, rows[c], rows[i], rows[j]); }
      }
    }
  }

  lemma UpDone(desc: seq<bool>, rows: seq<SortRow>, j: nat)
    requires UpHeap(desc, rows, j) && (j == 0 || NotAfter(desc, rows[j], rows[Parent(j)]))
    ensures MaxHeap(desc, rows)
  {
    forall c ensures Edge(desc, rows, c) {
      assert c != j ==> Edge(desc, rows, c);
    }
  }

  lemma DownStep(desc: seq<bool>, rows: seq<SortRow>, i: nat, j: nat)
    requires DownHeap(desc, rows, i) && i < |rows| && IsChild(j, i, |rows|) && NotAfter(desc, rows[i], rows[j])
    requires forall c: nat :: IsChild(c, i, |rows|) ==> NotAfter(desc, rows[c], rows[j])
    ensures DownHeap(desc, Swap(rows, i, j), j)
  {
    var r := Swap(rows, i, j);
    forall c: nat | Parent(c) != j ensures Edge(desc, r, c) {
      if c == i {
        if i > 0 { assert NotAfter(desc, rows[j], rows[Parent(i)]); }
      } else if 0 < c < |rows| && Parent(c) == i {
        assert IsChild(c, i, |rows|);
      } else {
        assert Edge(desc, rows, c);
      }
    }
    assert Edge(desc, r, j) by { assert Parent(j) == i; }
    forall c: nat | IsChild(c, j, |r|) ensures NotAfter(desc, r[c], r[Parent(j)]) {
      assert Edge(desc, rows, c);
    }
  }

  lemma DownDone(desc: seq<bool>, rows: seq<SortRow>, i: nat)
    requires DownHeap(desc, rows, i)
    requires forall c: nat :: IsChild(c, i, |rows|) && i < |rows| ==> NotAfter(desc, rows[c], rows[i])
    ensures MaxHeap(desc, rows)
  {
    forall c: nat ensures Edge(desc, rows, c) {
      if 0 < c < |rows| && Parent(c) == i {
        assert IsChild(c, i, |rows|);
      } else if c > 0 {
        assert Parent(c) != i || c >= |rows|;
        assert Parent(c) != i ==> Edge(desc, rows, c);
      }
    }
  }

  // ---------------------------------------------------------------- what is kept

  /** Of all rows seen the heap keeps N or all of them, and none of those comes after one that was left out. */
  ghost predicate KeepsFirst(desc: seq<bool>, kept: multiset<SortRow>, seen: multiset<SortRow>, n: nat) {
    && kept <= seen && |kept| == Min(n, |seen|)
    && forall h, r :: h in kept && r in seen - kept ==> NotAfter(desc, h, r)
  }

  lemma KeepsGrows(desc: seq<bool>, kept: multiset<SortRow>, seen: multiset<SortRow>, n: nat, row: SortRow)
    requires KeepsFirst(desc, kept, seen, n) && |kept| < n
    ensures KeepsFirst(desc, kept + multiset{row}, seen + multiset{row}, n)
  {
    assert |seen - kept| == |seen| - |kept| == 0;
    assert (seen + multiset{row}) - (kept + multiset{row}) == seen - kept == multiset{};
  }

  lemma KeepsRejects(desc: seq<bool>, kept: multiset<SortRow>, seen: multiset<SortRow>, n: nat, row: SortRow)
    requires KeepsFirst(desc, kept, seen, n) && |kept| == n
    requires forall h :: h in kept ==> NotAfter(desc, h, row)
    ensures KeepsFirst(desc, kept, seen + multiset{row}, n)
  {
    assert (seen + multiset{row}) - kept == (seen - kept) + multiset{row};
  }

  lemma KeepsReplaces(desc: seq<bool>, kept: multiset<SortRow>, seen: multiset<SortRow>, n: nat, top: SortRow,
                      row: SortRow)
    requires KeepsFirst(desc, kept, seen, n) && |kept| == n && top in kept
    requires (forall h :: h in kept ==> NotAfter(desc, h, top)) && NotAfter(desc, row, top)
    ensures KeepsFirst(desc, kept - multiset{top} + multiset{row}, seen + multiset{row}, n)
  {
    var after, all := kept - multiset{top} + multiset{row}, seen + multiset{row};
    assert all - after == (seen - kept) + multiset{top};
    forall h, r | h in after && r in all - after ensures NotAfter(desc, h, r) {
      if h != row { assert h in kept; }
      if r != top && h == row { NotAfterTransitive(desc, row, top, r); }
    }
  }

  // ---------------------------------------------------------------- the heap object

  class TopNHeap {
    const desc: seq<bool>
    const totalCount: nat
    var rows: seq<SortRow>
    var heapSize: nat
    /** Every row that was offered. */
    ghost var seen: multiset<SortRow>

    constructor (desc: seq<bool>, totalCount: nat)
      ensures Valid() && this.desc == desc && this.totalCount == totalCount && seen == multiset{}
    {
      this.desc, this.totalCount := desc, totalCount;
      rows, heapSize, seen := [], 0, multiset{};
    }

    ghost predicate Valid()
      reads this
    {
      heapSize == |rows| && MaxHeap(desc, rows) && KeepsFirst(desc, multiset(rows), seen, totalCount)
    }

    /** The heap's order is turned round: the row that comes last is on top. */
    method Less(i: nat, j: nat) returns (b: bool)
      requires i < |rows| && j < |rows| && AllFit(desc, rows)
      ensures b <==> CompareFrom(desc, rows[i], rows[j], 0) > 0
      ensures b <==> Before(desc, rows[j].key, rows[i].key)
    {
      CompareMeans(desc, rows[i], rows[j]);
      for index := 0 to |desc|
        invariant CompareFrom(desc, rows[i], rows[j], 0) == CompareFrom(desc, rows[i], rows[j], index)
      {
        var v1, v2 := rows[i].key[index], rows[j].key[index];
        var ret := if v1 < v2 then -1 else if v1 > v2 then 1 else 0;
        if desc[index] { ret := -ret; }
        if ret > 0 { return true; }
        if ret < 0 { return false; }
      }
      return false;
    }

    method Up(start: nat)
      requires UpHeap(desc, rows, start)
      modifies this`rows
      ensures MaxHeap(desc, rows) && multiset(rows) == old(multiset(rows)) && |rows| == |old(rows)|
    {
      var j := start;
      while true
        invariant UpHeap(desc, rows, j) && multiset(rows) == old(multiset(rows)) && |rows| == |old(rows)|
        decreases j
      {
        var i := Parent(j);
        NotAfterTotal(desc, rows[j], rows[i]);
        if i == j { break; }
        var less := Less(j, i);
        if !less { break; }
        UpStep(desc, rows, j);
        rows := Swap(rows, i, j);
        j := i;
      }
      UpDone(desc, rows, j);
    }

    /** Restore the heap of the first `n` rows below `start`. */
    method Down(start: nat, n: nat)
      requires start < n <= |rows| && AllFit(desc, rows) && DownHeap(desc, rows[..n], start)
      modifies this`rows
      ensures |rows| == |old(rows)| && rows[n..] == old(rows[n..])
      ensures MaxHeap(desc, rows[..n]) && multiset(rows[..n]) == old(multiset(rows[..n]))
    {
      var i := start;
      while true
        invariant i < n <= |rows| == |old(rows)| && AllFit(desc, rows) && DownHeap(desc, rows[..n], i)
        invariant rows[n..] == old(rows[n..]) && multiset(rows[..n]) == old(multiset(rows[..n]))
        decreases n - i
      {
        var j, ok := Pick(i, n);
        if !ok { break; }
        ghost var before := rows;
        DownStep(desc, rows[..n], i, j);
        rows := Swap(rows, i, j);
        assert rows[..n] == Swap(before[..n], i, j);
        i := j;
      }
      DownDone(desc, rows[..n], i);
    }

    /** The child to swap with, if one comes after its parent. */
    method Pick(i: nat, n: nat) returns (j: nat, ok: bool)
      requires i < n <= |rows| && AllFit(desc, rows)
      ensures ok ==> i < j && IsChild(j, i, n) && NotAfter(desc, rows[..n][i], rows[..n][j])
      ensures ok ==> forall c: nat :: IsChild(c, i, n) ==> NotAfter(desc, rows[..n][c], rows[..n][j])
      ensures !ok ==> forall c: nat :: IsChild(c, i, n) ==> NotAfter(desc, rows[..n][c], rows[..n][i])
    {
      var j1 := 2 * i + 1;
      j := j1;
      if j1 >= n { return j, false; }
      var j2 := j1 + 1;
      NotAfterTotal(desc, rows[j1], rows[j1]);
      if j2 < n {
        NotAfterTotal(desc, rows[j2], rows[j1]);
        NotAfterTotal(desc, rows[j2], rows[j2]);
        var less := Less(j2, j1);
        if less { j := j2; }
      }
      assert forall c: nat :: IsChild(c, i, n) ==> c == j1 || c == j2;
      NotAfterTotal(desc, rows[j], rows[i]);
      ok := Less(j, i);
      if !ok {
        forall c: nat | IsChild(c, i, n) ensures NotAfter(desc, rows[..n][c], rows[..n][i]) {
          NotAfterTransitive(desc, rows[c], rows[j], rows[i]);
        }
      }
    }

    method Push(row: SortRow)
      requires MaxHeap(desc, rows) && Fits(desc, row) && heapSize == |rows|
      modifies this`rows, this`heapSize
      ensures MaxHeap(desc, rows) && heapSize == |rows| == |old(rows)| + 1
      ensures multiset(rows) == old(multiset(rows)) + multiset{row}
    {
      ghost var before := rows;
      rows := rows + [row];
      heapSize := heapSize + 1;
      assert UpHeap(desc, rows, |before|) by {
        forall c: nat | c != |before| ensures Edge(desc, rows, c) { assert Edge(desc, before, c); }
      }
      Up(|rows| - 1);
    }

    /** Take the row in if it is among the first N so far. */
    method TryToAddRow(row: SortRow) returns (success: bool)
      requires Valid() && Fits(desc, row)
      modifies this
      ensures Valid() && seen == old(seen) + multiset{row}
      ensures !success ==> rows == old(rows)
      ensures success ==> row in multiset(rows)
    {
      success := false;
      ghost var kept, before := multiset(rows), seen;
      if heapSize == totalCount {
        success := Replace(row);
      } else {
        KeepsGrows(desc, kept, seen, totalCount, row);
        Push(row);
        success := true;
      }
      seen := before + multiset{row};
    }

    /** The row behind the heap takes the place of the top and sinks. */
    method SwapTop(ghost before: seq<SortRow>, ghost row: SortRow)
      requires before != [] && heapSize == |before| && rows == before + [row]
      requires MaxHeap(desc, before) && Fits(desc, row)
      modifies this`rows
      ensures |rows| == heapSize + 1
      ensures MaxHeap(desc, rows[..heapSize]) && multiset(rows[..heapSize]) == multiset(before[0 := row])
    {
      rows := Swap(rows, 0, heapSize);
      assert rows == before[0 := row] + [before[0]];
      assert rows[..heapSize] == before[0 := row];
      ReplacedIsDownHeap(before, row);
      Down(0, heapSize);
    }

    /** With N rows in the heap: the new row replaces the top if it comes before it. */
    method Replace(row: SortRow) returns (success: bool)
      requires Valid() && Fits(desc, row) && heapSize == totalCount
      modifies this`rows
      ensures heapSize == |rows| && MaxHeap(desc, rows)
      ensures KeepsFirst(desc, multiset(rows), seen + multiset{row}, totalCount)
      ensures !success ==> rows == old(rows)
      ensures success ==> row in multiset(rows)
    {
      ghost var before := rows;
      rows := rows + [row];
      success := Less(0, heapSize);
      if success {
        NotAfterTotal(desc, rows[0], rows[0]);
        ReplacedKeeps(before, row);
        SwapTop(before, row);
        rows := rows[..heapSize];
        assert before[0 := row][0] in multiset(before[0 := row]);
      } else {
        RejectedKeeps(before, row);
        rows := rows[..heapSize];
        assert rows == before;
      }
    }

    lemma ReplacedIsDownHeap(before: seq<SortRow>, row: SortRow)
      requires MaxHeap(desc, before) && Fits(desc, row) && before != []
      ensures DownHeap(desc, before[0 := row], 0)
    {
      forall c: nat | Parent(c) != 0 ensures Edge(desc, before[0 := row], c) { assert Edge(desc, before, c); }
    }

    lemma ReplacedKeeps(before: seq<SortRow>, row: SortRow)
      requires MaxHeap(desc, before) && before != [] && |before| == totalCount && Fits(desc, row)
      requires KeepsFirst(desc, multiset(before), seen, totalCount) && CompareFrom(desc, before[0], row, 0) > 0
      ensures KeepsFirst(desc, multiset(before[0 := row]), seen + multiset{row}, totalCount)
    {
      NotAfterTotal(desc, before[0], row);
      forall h | h in multiset(before) ensures NotAfter(desc, h, before[0]) {
        var k :| 0 <= k < |before| && before[k] == h;
        TopIsLast(desc, before, k);
      }
      assert multiset(before[0 := row]) == multiset(before) - multiset{before[0]} + multiset{row};
      KeepsReplaces(desc, multiset(before), seen, totalCount, before[0], row);
    }

    lemma RejectedKeeps(before: seq<SortRow>, row: SortRow)
      requires MaxHeap(desc, before) && |before| == totalCount && Fits(desc, row)
      requires KeepsFirst(desc, multiset(before), seen, totalCount)
      requires before != [] ==> CompareFrom(desc, before[0], row, 0) <= 0
      ensures KeepsFirst(desc, multiset(before), seen + multiset{row}, totalCount)
    {
      forall h | h in multiset(before) ensures NotAfter(desc, h, row) {
        var k :| 0 <= k < |before| && before[k] == h;
        TopIsLast(desc, before, k);
        NotAfterTransitive(desc, h, before[0], row);
      }
      KeepsRejects(desc, multiset(before), seen, totalCount, row);
    }

    /** The final sort puts the kept rows in order. */
    method Finish() returns (sorted: seq<SortRow>)
      requires Valid()
      ensures SortedRows(desc, sorted) && multiset(sorted) == multiset(rows)
    {
      SortMeans(desc, rows);
      sorted := SortRows(desc, rows);
    }
  }

  // ---------------------------------------------------------------- the final sort

  ghost predicate SortedRows(desc: seq<bool>, s: seq<SortRow>) {
    AllFit(desc, s) && forall i, j :: 0 <= i <= j < |s| ==> NotAfter(desc, s[i], s[j])
  }

  function InsertRow(desc: seq<bool>, r: SortRow, s: seq<SortRow>): seq<SortRow>
    requires Fits(desc, r) && AllFit(desc, s)
  {
    if s == [] || CompareFrom(desc, r, s[0], 0) <= 0 then [r] + s else [s[0]] + InsertRow(desc, r, s[1..])
  }

  /** The library sort, driven by the sorter's order. */
  function SortRows(desc: seq<bool>, s: seq<SortRow>): (r: seq<SortRow>)
    requires AllFit(desc, s)
    ensures AllFit(desc, r)
  {
    if s == [] then []
    else
      InsertMeans(desc, s[0], SortRows(desc, s[1..]));
      InsertRow(desc, s[0], SortRows(desc, s[1..]))
  }

  lemma {:induction false} InsertMeans(desc: seq<bool>, r: SortRow, s: seq<SortRow>)
    requires Fits(desc, r) && AllFit(desc, s)
    ensures AllFit(desc, InsertRow(desc, r, s)) && multiset(InsertRow(desc, r, s)) == multiset(s) + multiset{r}
  {
    if s != [] {
      assert s == [s[0]] + s[1..];
      if CompareFrom(desc, r, s[0], 0) > 0 { InsertMeans(desc, r, s[1..]); }
    }
  }

  lemma {:induction false} InsertSorts(desc: seq<bool>, r: SortRow, s: seq<SortRow>)
    requires Fits(desc, r) && SortedRows(desc, s)
    ensures SortedRows(desc, InsertRow(desc, r, s))
  {
    NotAfterTotal(desc, r, r);
    if s == [] {
    } else if CompareFrom(desc, r, s[0], 0) <= 0 {
      forall j | 0 <= j < |s| ensures NotAfter(desc, r, s[j]) { NotAfterTransitive(desc, r, s[0], s[j]); }
    } else {
      var rest := s[1..];
      InsertSorts(desc, r, rest);
      InsertMeans(desc, r, rest);
      NotAfterTotal(desc, r, s[0]);
      var t := InsertRow(desc, r, rest);
      forall j | 0 <= j < |t| ensures NotAfter(desc, s[0], t[j]) {
        assert t[j] in multiset(rest) + multiset{r};
        if t[j] != r { var k :| 0 <= k < |rest| && rest[k] == t[j]; assert rest[k] == s[k + 1]; }
      }
    }
  }

  lemma {:induction false} SortMeans(desc: seq<bool>, s: seq<SortRow>)
    requires AllFit(desc, s)
    ensures SortedRows(desc, SortRows(desc, s)) && multiset(SortRows(desc, s)) == multiset(s)
  {
    if s != [] {
      SortMeans(desc, s[1..]);
      InsertMeans(desc, s[0], SortRows(desc, s[1..]));
      InsertSorts(desc, s[0], SortRows(desc, s[1..]));
      assert s == [s[0]] + s[1..];
    }
  }

  /** Rows not after a bound fit into what is left of a whole once all rows after the bound are taken away. */
  lemma RowsWithin(desc: seq<bool>, bound: SortRow, xs: seq<SortRow>, head: seq<SortRow>, tail: multiset<SortRow>)
    requires multiset(xs) <= multiset(head) + tail
    requires forall x :: x in xs ==> NotAfter(desc, x, bound)
    requires forall x :: x in tail ==> !NotAfter(desc, x, bound)
    ensures |xs| <= |head|
  {
    forall x ensures multiset(xs)[x] <= multiset(head)[x] {
      if x in multiset(xs) { assert x in xs; }
    }
    assert multiset(xs) <= multiset(head);
    assert |multiset(head)| == |multiset(xs)| + |multiset(head) - multiset(xs)|;
  }

  /** Kept and sorted rows agree, position by position and up to ties, with a sort of everything that was seen. */
  lemma SortedPrefix(desc: seq<bool>, result: seq<SortRow>, all: seq<SortRow>, n: nat, i: nat)
    requires KeepsFirst(desc, multiset(result), multiset(all), n)
    requires SortedRows(desc, result) && SortedRows(desc, all) && i < |result|
    ensures |result| == Min(n, |all|)
    ensures NotAfter(desc, result[i], all[i]) && NotAfter(desc, all[i], result[i])
  {
    var kept, seen := multiset(result), multiset(all);
    assert |kept| == |result| && |seen| == |all|;
    NotTooFewBefore(desc, result, all, i);
    NotTooManyBefore(desc, result, all, i);
  }

  /** What is not before position `i` of the result, or was left out, does not come before that position's row. */
  lemma BehindResult(desc: seq<bool>, result: seq<SortRow>, rest: multiset<SortRow>, i: nat, x: SortRow)
    requires SortedRows(desc, result) && i < |result| && x in multiset(result[i..]) + rest
    requires forall h, r :: h in multiset(result) && r in rest ==> NotAfter(desc, h, r)
    ensures NotAfter(desc, result[i], x)
  {
    if x in multiset(result[i..]) {
      var k :| 0 <= k < |result[i..]| && result[i..][k] == x;
      assert result[i + k] == x;
    } else {
      assert result[i] in multiset(result);
    }
  }

  lemma NotTooFewBefore(desc: seq<bool>, result: seq<SortRow>, all: seq<SortRow>, i: nat)
    requires SortedRows(desc, result) && SortedRows(desc, all) && i < |result| && i < |all|
    requires multiset(result) <= multiset(all)
    requires forall h, r :: h in multiset(result) && r in multiset(all) - multiset(result) ==> NotAfter(desc, h, r)
    ensures NotAfter(desc, result[i], all[i])
  {
    if !NotAfter(desc, result[i], all[i]) {
      var rest := multiset(all) - multiset(result);
      var tail := multiset(result[i..]) + rest;
      forall x | x in tail ensures !NotAfter(desc, x, all[i]) {
        BehindResult(desc, result, rest, i, x);
        if NotAfter(desc, x, all[i]) { NotAfterTransitive(desc, result[i], x, all[i]); }
      }
      SplitBags(result, all, i);
      RowsWithin(desc, all[i], all[..i + 1], result[..i], tail);
    }
  }

  lemma SplitBags(result: seq<SortRow>, all: seq<SortRow>, i: nat)
    requires i < |result| && i < |all| && multiset(result) <= multiset(all)
    ensures multiset(all[..i + 1]) <=
            multiset(result[..i]) + (multiset(result[i..]) + (multiset(all) - multiset(result)))
  {
    assert result == result[..i] + result[i..] && all == all[..i + 1] + all[i + 1..];
  }

  lemma NotTooManyBefore(desc: seq<bool>, result: seq<SortRow>, all: seq<SortRow>, i: nat)
    requires SortedRows(desc, result) && SortedRows(desc, all) && i < |result| && i < |all|
    requires multiset(result) <= multiset(all)
    ensures NotAfter(desc, all[i], result[i])
  {
    if !NotAfter(desc, all[i], result[i]) {
      assert result == result[..i + 1] + result[i + 1..] && all == all[..i] + all[i..];
      forall x | x in multiset(all[i..]) ensures !NotAfter(desc, x, result[i]) {
        var k :| 0 <= k < |all[i..]| && all[i..][k] == x;
        assert all[i + k] == x;
        if NotAfter(desc, x, result[i]) { NotAfterTransitive(desc, all[i], x, result[i]); }
      }
      RowsWithin(desc, result[i], result[..i + 1], all[..i], multiset(all[i..]));
    }
  }
}
