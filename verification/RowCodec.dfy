/** The row format: column ids, end offsets and data, in a small and a large layout. */
module RowCodec {
  import opened Common
  import opened Bytes

  const CODEC_VER: byte := 128
  const U8: nat := 0x100
  const U16: nat := 0x1_0000
  const U32: nat := 0x1_0000_0000

  // ---------------------------------------------------------------- little-endian arrays

  function LittleEndian(n: nat, width: nat): (s: seq<byte>)
    ensures |s| == width
  {
    if width == 0 then [] else [n % 256] + LittleEndian(n / 256, width - 1)
  }

  function FromLittleEndian(s: seq<byte>): nat {
    if s == [] then 0 else s[0] + 256 * FromLittleEndian(s[1..])
  }

  lemma {:induction false} LittleEndianRoundTrip(n: nat, width: nat)
    requires n < Pow256(width)
    ensures FromLittleEndian(LittleEndian(n, width)) == n
  {
    if width > 0 {
      LittleEndianRoundTrip(n / 256, width - 1);
      assert LittleEndian(n, width)[1..] == LittleEndian(n / 256, width - 1);
    }
  }

  lemma Widths()
    ensures Pow256(1) == U8 && Pow256(2) == U16 && Pow256(4) == U32
  {
    assert Pow256(3) == 0x100_0000;
  }

  /** An array of numbers as bytes. */
  function Pack(ns: seq<nat>, width: nat): (s: seq<byte>)
    ensures |s| == width * |ns|
  {
    if ns == [] then [] else LittleEndian(ns[0], width) + Pack(ns[1..], width)
  }

  /** The first `count` numbers of a byte string. */
  function Unpack(s: seq<byte>, width: nat, count: nat): (ns: seq<nat>)
    requires width * count <= |s|
    ensures |ns| == count
  {
    if count == 0 then []
    else [FromLittleEndian(s[..width])] + Unpack(s[width..], width, count - 1)
  }

  lemma HeadAndTail(a: seq<byte>, b: seq<byte>, rest: seq<byte>)
    ensures (a + b + rest)[..|a|] == a && (a + b + rest)[|a|..] == b + rest
  {
  }

  lemma {:induction false} UnpackPack(ns: seq<nat>, width: nat, rest: seq<byte>)
    requires forall i :: 0 <= i < |ns| ==> ns[i] < Pow256(width)
    ensures Unpack(Pack(ns, width) + rest, width, |ns|) == ns
  {
    if ns != [] {
      LittleEndianRoundTrip(ns[0], width);
      HeadAndTail(LittleEndian(ns[0], width), Pack(ns[1..], width), rest);
      UnpackPack(ns[1..], width, rest);
    }
  }

  /** The number at a place of a packed array. */
  lemma {:induction false} PackedAt(ns: seq<nat>, width: nat, i: nat)
    requires i < |ns| && ns[i] < Pow256(width)
    ensures width * i + width <= |Pack(ns, width)|
    ensures FromLittleEndian(Pack(ns, width)[width * i..width * i + width]) == ns[i]
  {
    var head, rest := LittleEndian(ns[0], width), Pack(ns[1..], width);
    assert Pack(ns, width) == head + rest;
    if i == 0 {
      LittleEndianRoundTrip(ns[0], width);
      assert Pack(ns, width)[width * 0..width * 0 + width] == head;
    } else {
      PackedAt(ns[1..], width, i - 1);
      assert width * i == width + width * (i - 1);
      Shifted(head, rest, width * (i - 1), width * (i - 1) + width);
    }
  }

  lemma Shifted(head: seq<byte>, rest: seq<byte>, lo: nat, hi: nat)
    requires lo <= hi <= |rest|
    ensures (head + rest)[|head| + lo..|head| + hi] == rest[lo..hi]
  {
  }

  // ---------------------------------------------------------------- rows

  datatype Row = Row(large: bool, numNotNull: nat, numNull: nat, ids: seq<nat>, offsets: seq<nat>, data: seq<byte>)

  function IdWidth(large: bool): nat {
    if large then 4 else 1
  }

  function OffsetWidth(large: bool): nat {
    if large then 4 else 2
  }

  function Layout(r: Row): seq<byte> {
    [CODEC_VER, if r.large then 1 else 0] + LittleEndian(r.numNotNull, 2) + LittleEndian(r.numNull, 2) +
    Pack(r.ids, IdWidth(r.large)) + Pack(r.offsets, OffsetWidth(r.large)) + r.data
  }

  datatype RowResult = Parsed(row: Row) | BadVersion | Panicked

  /** The arrays behind the header, and then the data; slicing beyond the end is a panic. */
  function ReadArrays(b: seq<byte>, large: bool, numNotNull: nat, numNull: nat): RowResult
    requires |b| >= 6
  {
    var idCount := (numNotNull + numNull) % U16;
    var idsLen, offsetsLen := IdWidth(large) * idCount, OffsetWidth(large) * numNotNull;
    if |b| < 6 + idsLen + offsetsLen then Panicked
    else
      Parsed(Row(large, numNotNull, numNull,
                 Unpack(b[6..], IdWidth(large), idCount),
                 Unpack(b[6 + idsLen..], OffsetWidth(large), numNotNull),
                 b[6 + idsLen + offsetsLen..]))
  }

  function SetRowData(b: seq<byte>): RowResult {
    if |b| == 0 then Panicked
    else if b[0] != CODEC_VER then BadVersion
    else if |b| < 6 then Panicked
    else ReadArrays(b, b[1] % 2 == 1, FromLittleEndian(b[2..4]), FromLittleEndian(b[4..6]))
  }

  ghost predicate FitsWidth(ns: seq<nat>, width: nat) {
    forall i :: 0 <= i < |ns| ==> ns[i] < Pow256(width)
  }

  lemma Suffixes(head: seq<byte>, a: seq<byte>, b: seq<byte>, c: seq<byte>)
    ensures var s := head + a + b + c;
            s[|head|..] == a + (b + c) && s[|head| + |a|..] == b + c && s[|head| + |a| + |b|..] == c
  {
    var s := head + a + b + c;
    assert s[|head|..] == a + (b + c);
    assert s[|head| + |a|..] == b + c;
    assert s[|head| + |a| + |b|..] == c;
  }

  function Header(r: Row): (h: seq<byte>)
    ensures |h| == 6
  {
    [CODEC_VER, if r.large then 1 else 0] + LittleEndian(r.numNotNull, 2) + LittleEndian(r.numNull, 2)
  }

  lemma HeaderRead(r: Row, rest: seq<byte>)
    requires r.numNotNull < U16 && r.numNull < U16
    ensures var b := Header(r) + rest;
            && b[0] == CODEC_VER && (b[1] % 2 == 1 <==> r.large)
            && FromLittleEndian(b[2..4]) == r.numNotNull && FromLittleEndian(b[4..6]) == r.numNull
  {
    var b := Header(r) + rest;
    Widths();
    LittleEndianRoundTrip(r.numNotNull, 2);
    LittleEndianRoundTrip(r.numNull, 2);
    assert b[2..4] == LittleEndian(r.numNotNull, 2) && b[4..6] == LittleEndian(r.numNull, 2);
  }

  /** Reading the arrays, with their lengths in bytes given. */
  lemma ArraysAt(b: seq<byte>, large: bool, numNotNull: nat, numNull: nat, idsLen: nat, offsLen: nat)
    requires numNotNull + numNull < U16 && |b| >= 6 + idsLen + offsLen
    requires idsLen == IdWidth(large) * (numNotNull + numNull) && offsLen == OffsetWidth(large) * numNotNull
    ensures ReadArrays(b, large, numNotNull, numNull) ==
            Parsed(Row(large, numNotNull, numNull,
                       Unpack(b[6..], IdWidth(large), numNotNull + numNull),
                       Unpack(b[6 + idsLen..], OffsetWidth(large), numNotNull),
                       b[6 + idsLen + offsLen..]))
  {
    assert (numNotNull + numNull) % U16 == numNotNull + numNull;
  }

  lemma ArraysRead(r: Row, b: seq<byte>, idsLen: nat, offsLen: nat)
    requires r.numNotNull + r.numNull < U16 && |b| >= 6 + idsLen + offsLen
    requires idsLen == IdWidth(r.large) * (r.numNotNull + r.numNull) && offsLen == OffsetWidth(r.large) * r.numNotNull
    requires Unpack(b[6..], IdWidth(r.large), r.numNotNull + r.numNull) == r.ids
    requires Unpack(b[6 + idsLen..], OffsetWidth(r.large), r.numNotNull) == r.offsets
    requires b[6 + idsLen + offsLen..] == r.data
    ensures ReadArrays(b, r.large, r.numNotNull, r.numNull) == Parsed(r)
  {
    ArraysAt(b, r.large, r.numNotNull, r.numNull, idsLen, offsLen);
  }

  /** A row whose arrays have the announced lengths is read back as it was laid out. */
  lemma LayoutRoundTrip(r: Row)
    requires r.numNotNull + r.numNull < U16 && |r.ids| == r.numNotNull + r.numNull && |r.offsets| == r.numNotNull
    requires FitsWidth(r.ids, IdWidth(r.large)) && FitsWidth(r.offsets, OffsetWidth(r.large))
    ensures SetRowData(Layout(r)) == Parsed(r)
  {
    var ids, offs := Pack(r.ids, IdWidth(r.large)), Pack(r.offsets, OffsetWidth(r.large));
    assert Layout(r) == Header(r) + ids + offs + r.data == Header(r) + (ids + offs + r.data);
    HeaderRead(r, ids + offs + r.data);
    UnpackPack(r.ids, IdWidth(r.large), offs + r.data);
    UnpackPack(r.offsets, OffsetWidth(r.large), r.data);
    Suffixes(Header(r), ids, offs, r.data);
    ArraysRead(r, Layout(r), |ids|, |offs|);
  }

  lemma PieceAt(head: seq<byte>, piece: seq<byte>, tail: seq<byte>, lo: nat, hi: nat)
    requires lo <= hi <= |piece|
    ensures (head + piece + tail)[|head| + lo..|head| + hi] == piece[lo..hi]
  {
  }

  lemma HeaderPlaces(r: Row)
    requires r.numNotNull < U16 && r.numNull < U16
    ensures |Layout(r)| >= 6 && Layout(r)[0] == 128 && Layout(r)[1] == (if r.large then 1 else 0)
    ensures FromLittleEndian(Layout(r)[2..4]) == r.numNotNull && FromLittleEndian(Layout(r)[4..6]) == r.numNull
  {
    var ids, offs := Pack(r.ids, IdWidth(r.large)), Pack(r.offsets, OffsetWidth(r.large));
    assert Layout(r) == Header(r) + (ids + offs + r.data);
    HeaderRead(r, ids + offs + r.data);
  }

  /** Where the ids of a row are: behind six bytes of header, four bytes each in a large row and one in a small one. */
  lemma IdPlace(r: Row, i: nat)
    requires i < |r.ids| && FitsWidth(r.ids, IdWidth(r.large))
    ensures var w := if r.large then 4 else 1;
            && 6 + w * i + w <= |Layout(r)| && FromLittleEndian(Layout(r)[6 + w * i..6 + w * i + w]) == r.ids[i]
  {
    var w := IdWidth(r.large);
    var ids, offs := Pack(r.ids, w), Pack(r.offsets, OffsetWidth(r.large));
    PackedAt(r.ids, w, i);
    assert Layout(r) == Header(r) + ids + (offs + r.data);
    PieceAt(Header(r), ids, offs + r.data, w * i, w * i + w);
  }

  /** Where the offsets are: behind the ids, four bytes each in a large row and two in a small one. */
  lemma OffsetPlace(r: Row, i: nat)
    requires i < |r.offsets| && FitsWidth(r.offsets, OffsetWidth(r.large))
    ensures var w := if r.large then 4 else 2;
            var from := 6 + (if r.large then 4 else 1) * |r.ids|;
            && from + w * i + w <= |Layout(r)|
            && FromLittleEndian(Layout(r)[from + w * i..from + w * i + w]) == r.offsets[i]
  {
    var w := OffsetWidth(r.large);
    var ids, offs := Pack(r.ids, IdWidth(r.large)), Pack(r.offsets, w);
    PackedAt(r.offsets, w, i);
    assert Layout(r) == (Header(r) + ids) + offs + r.data;
    PieceAt(Header(r) + ids, offs, r.data, w * i, w * i + w);
  }

  /** And the data is the rest. */
  lemma DataPlace(r: Row)
    ensures var from := 6 + (if r.large then 4 else 1) * |r.ids| + (if r.large then 4 else 2) * |r.offsets|;
            from <= |Layout(r)| && Layout(r)[from..] == r.data
  {
    var ids, offs := Pack(r.ids, IdWidth(r.large)), Pack(r.offsets, OffsetWidth(r.large));
    assert Layout(r) == (Header(r) + ids + offs) + r.data;
  }

  // ---------------------------------------------------------------- columns in a row

  datatype Column = Column(id: nat, value: seq<byte>)

  function Ids(cols: seq<Column>): seq<nat> {
    seq(|cols|, i requires 0 <= i < |cols| => cols[i].id)
  }

  /** The values one after another. */
  function Data(cols: seq<Column>): seq<byte> {
    if cols == [] then [] else Data(cols[..|cols| - 1]) + cols[|cols| - 1].value
  }

  /** Where each value ends. */
  function Ends(cols: seq<Column>): seq<nat> {
    seq(|cols|, i requires 0 <= i < |cols| => |Data(cols[..i + 1])|)
  }

  lemma {:induction false} DataPrefix(cols: seq<Column>, n: nat)
    requires n <= |cols|
    ensures Data(cols[..n]) <= Data(cols)
    decreases |cols| - n
  {
    if n < |cols| {
      assert cols[..n + 1][..n] == cols[..n];
      DataPrefix(cols, n + 1);
    } else {
      assert cols[..n] == cols;
    }
  }

  /** The bytes of column `i`; offsets that do not fit the data are a panic. */
  function GetData(r: Row, i: nat): Option<seq<byte>>
    requires i < |r.offsets|
  {
    var start, end := if i > 0 then r.offsets[i - 1] else 0, r.offsets[i];
    if start <= end <= |r.data| then Some(r.data[start..end]) else None
  }

  lemma EndsAt(cols: seq<Column>, i: nat)
    requires i < |cols|
    ensures Ends(cols)[i] == |Data(cols[..i + 1])| && Data(cols[..i + 1]) == Data(cols[..i]) + cols[i].value
  {
    assert cols[..i + 1][..i] == cols[..i];
  }

  lemma SliceBehind(whole: seq<byte>, head: seq<byte>, part: seq<byte>)
    requires head + part <= whole
    ensures whole[|head|..|head| + |part|] == part
  {
    assert whole[|head|..|head| + |part|] == (head + part)[|head|..];
  }

  lemma GetDataAt(r: Row, i: nat, head: seq<byte>, value: seq<byte>)
    requires i < |r.offsets| && r.offsets[i] == |head| + |value| && head + value <= r.data
    requires if i > 0 then r.offsets[i - 1] == |head| else head == []
    ensures GetData(r, i) == Some(value)
  {
    SliceBehind(r.data, head, value);
  }

  lemma EndFacts(cols: seq<Column>, i: nat)
    requires i < |cols|
    ensures Ends(cols)[i] == |Data(cols[..i])| + |cols[i].value|
    ensures if i > 0 then Ends(cols)[i - 1] == |Data(cols[..i])| else Data(cols[..i]) == []
    ensures Data(cols[..i]) + cols[i].value <= Data(cols)
  {
    EndsAt(cols, i);
    DataPrefix(cols, i + 1);
  }

  lemma GetDataFinds(r: Row, cols: seq<Column>, i: nat)
    requires Data(cols) <= r.data && r.offsets == Ends(cols) && i < |cols|
    ensures GetData(r, i) == Some(cols[i].value)
  {
    EndFacts(cols, i);
    GetDataAt(r, i, Data(cols[..i]), cols[i].value);
  }

  /** If every value is found, then every offset is right and the data starts with the values. */
  lemma {:induction false} FoundMeansEnds(r: Row, cols: seq<Column>, n: nat)
    requires |r.offsets| == |cols| && n <= |cols|
    requires forall i :: 0 <= i < n ==> GetData(r, i) == Some(cols[i].value)
    ensures n > 0 ==> r.offsets[n - 1] == |Data(cols[..n])|
    ensures Data(cols[..n]) <= r.data
  {
    if n > 0 {
      FoundMeansEnds(r, cols, n - 1);
      EndsAt(cols, n - 1);
      assert GetData(r, n - 1) == Some(cols[n - 1].value);
      JoinsPrefix(r.data, Data(cols[..n - 1]), cols[n - 1].value);
    }
  }

  lemma JoinsPrefix(whole: seq<byte>, head: seq<byte>, part: seq<byte>)
    requires head <= whole && |head| + |part| <= |whole| && whole[|head|..|head| + |part|] == part
    ensures head + part <= whole
  {
    assert whole[..|head| + |part|] == whole[..|head|] + whole[|head|..|head| + |part|];
  }

  // ---------------------------------------------------------------- sorting

  function Insert(c: Column, cols: seq<Column>): seq<Column> {
    if cols == [] || c.id <= cols[0].id then [c] + cols else [cols[0]] + Insert(c, cols[1..])
  }

  /** The library sort that the four sorters drive, on pairs of id and value. */
  function Sort(cols: seq<Column>): seq<Column> {
    if cols == [] then [] else Insert(cols[0], Sort(cols[1..]))
  }

  /** All ids are larger than a bound. */
  ghost predicate Above(id: nat, cols: seq<Column>) {
    forall x :: x in cols ==> id < x.id
  }

  ghost predicate Absent(id: int, cols: seq<Column>) {
    forall x :: x in cols ==> x.id != id
  }

  ghost predicate Sorted(cols: seq<Column>) {
    cols == [] || (Above(cols[0].id, cols[1..]) && Sorted(cols[1..]))
  }

  ghost predicate DistinctIds(cols: seq<Column>) {
    cols == [] || (Absent(cols[0].id, cols[1..]) && DistinctIds(cols[1..]))
  }

  lemma {:induction false} InsertKeeps(c: Column, cols: seq<Column>)
    ensures |Insert(c, cols)| == |cols| + 1
    ensures forall x :: x in Insert(c, cols) <==> x == c || x in cols
  {
    if cols != [] {
      assert cols == [cols[0]] + cols[1..];
      if c.id > cols[0].id { InsertKeeps(c, cols[1..]); }
    }
  }

  lemma {:induction false} InsertSorted(c: Column, cols: seq<Column>)
    requires Sorted(cols) && Absent(c.id, cols)
    ensures Sorted(Insert(c, cols))
  {
    if cols == [] || c.id <= cols[0].id {
      assert ([c] + cols)[1..] == cols;
      if cols != [] {
        assert cols[0] in cols;
        assert cols == [cols[0]] + cols[1..];
        assert Above(c.id, cols);
      }
    } else {
      var rest := cols[1..];
      InsertSorted(c, rest);
      InsertKeeps(c, rest);
      assert ([cols[0]] + Insert(c, rest))[1..] == Insert(c, rest);
    }
  }

  lemma {:induction false} SortKeeps(cols: seq<Column>)
    ensures |Sort(cols)| == |cols|
    ensures forall x :: x in Sort(cols) <==> x in cols
  {
    if cols != [] {
      SortKeeps(cols[1..]);
      InsertKeeps(cols[0], Sort(cols[1..]));
      assert cols == [cols[0]] + cols[1..];
    }
  }

  /** Distinct ids end up in ascending order. */
  lemma {:induction false} SortSorts(cols: seq<Column>)
    requires DistinctIds(cols)
    ensures Sorted(Sort(cols))
  {
    if cols != [] {
      SortSorts(cols[1..]);
      SortKeeps(cols[1..]);
      InsertSorted(cols[0], Sort(cols[1..]));
    }
  }

  /** Two ascending lists of the same columns are one list. */
  lemma {:induction false} SortedUnique(a: seq<Column>, b: seq<Column>)
    requires Sorted(a) && Sorted(b) && forall x :: x in a <==> x in b
    ensures a == b
  {
    if a != [] {
      assert a[0] in a && b[0] in b;
      assert a == [a[0]] + a[1..] && b == [b[0]] + b[1..];
      assert a[0] == b[0];
      forall x ensures x in a[1..] <==> x in b[1..] {
        assert x in a <==> x == a[0] || x in a[1..];
        assert x in b <==> x == b[0] || x in b[1..];
      }
      SortedUnique(a[1..], b[1..]);
    }
  }

  /** Whatever sorts columns with distinct ids comes to the same list. */
  lemma SortIsForced(cols: seq<Column>, sorted: seq<Column>)
    requires DistinctIds(cols) && Sorted(sorted) && multiset(sorted) == multiset(cols)
    ensures sorted == Sort(cols)
  {
    SortKeeps(cols);
    SortSorts(cols);
    assert forall x :: x in sorted <==> x in multiset(sorted);
    assert forall x :: x in cols <==> x in multiset(cols);
    SortedUnique(sorted, Sort(cols));
  }

  ghost predicate Ascending(ids: seq<nat>) {
    forall i, j :: 0 <= i < j < |ids| ==> ids[i] < ids[j]
  }

  lemma {:induction false} SortedAscending(cols: seq<Column>)
    requires Sorted(cols)
    ensures Ascending(Ids(cols))
  {
    if cols != [] {
      var rest := cols[1..];
      SortedAscending(rest);
      forall i, j | 0 <= i < j < |cols| ensures Ids(cols)[i] < Ids(cols)[j] {
        assert rest[j - 1] == cols[j] && rest[j - 1] in rest;
        if i > 0 { assert Ids(rest)[i - 1] < Ids(rest)[j - 1]; }
      }
    }
  }
}
