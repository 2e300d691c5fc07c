/** What a row encoder lays out for given columns, and when a decoder finds them again. */
module RowRoundTrip {
  import opened Common
  import opened RowCodec

  /** A column to encode; no value means null. */
  datatype Input = Input(id: nat, value: Option<seq<byte>>)

  function NotNulls(inputs: seq<Input>): seq<Column> {
    if inputs == [] then []
    else
      var x := inputs[|inputs| - 1];
      NotNulls(inputs[..|inputs| - 1]) + if x.value.Some? then [Column(x.id, x.value.value)] else []
  }

  function Nulls(inputs: seq<Input>): seq<Column> {
    if inputs == [] then []
    else
      var x := inputs[|inputs| - 1];
      Nulls(inputs[..|inputs| - 1]) + if x.value.None? then [Column(x.id, [])] else []
  }

  predicate AnyLargeId(inputs: seq<Input>) {
    exists i :: 0 <= i < |inputs| && inputs[i].id > 255
  }

  function ModAll(ns: seq<nat>, m: nat): (r: seq<nat>)
    requires m > 0
    ensures |r| == |ns| && forall i :: 0 <= i < |r| ==> r[i] < m
  {
    seq(|ns|, i requires 0 <= i < |ns| => ns[i] % m)
  }

  lemma ModAllSmall(ns: seq<nat>, m: nat)
    requires m > 0 && forall i :: 0 <= i < |ns| ==> ns[i] < m
    ensures ModAll(ns, m) == ns
  {
    forall i | 0 <= i < |ns| ensures ModAll(ns, m)[i] == ns[i] { SmallMod(ns[i], m); }
  }

  lemma SmallMod(n: nat, m: nat)
    requires n < m
    ensures n % m == n
  {
  }

  /**
   The row that an encoder lays out whose 32-bit offsets still hold `stale` from an earlier row: the layout is large
   if an id or the data is, and data of exactly 65535 bytes turns it large without offsets. `None` is a panic.
   */
  function Assemble(inputs: seq<Input>, stale: seq<nat>): Option<Row> {
    var cols, nulls := Sort(NotNulls(inputs)), Sort(Nulls(inputs));
    var row := Row(true, |cols|, |nulls|, Ids(cols) + Ids(nulls), [], Data(cols));
    if AnyLargeId(inputs) || |row.data| > 0xFFFF then Some(row.(offsets := ModAll(Ends(cols), U32)))
    else if |row.data| == 0xFFFF then Some(row.(offsets := stale))
    else if |stale| > |cols| then None
    else Some(row.(large := false, offsets := ModAll(stale, U16) + Ends(cols)[|stale|..]))
  }

  /** A row is laid out small exactly when every id fits a byte and the data is shorter than 65535 bytes. */
  lemma SmallIff(inputs: seq<Input>, stale: seq<nat>)
    requires Assemble(inputs, stale).Some?
    ensures !Assemble(inputs, stale).value.large <==>
            (forall x :: x in inputs ==> x.id < 256) && |Assemble(inputs, stale).value.data| < 0xFFFF
  {
    if AnyLargeId(inputs) {
      var i :| 0 <= i < |inputs| && inputs[i].id > 255;
      assert inputs[i] in inputs;
    }
  }

  // ---------------------------------------------------------------- looking a column up

  datatype Cell = Value(bytes: seq<byte>) | Null | Broken

  function Find(ids: seq<nat>, id: int): Option<nat> {
    if ids == [] then None
    else if ids[0] == id then Some(0)
    else match Find(ids[1..], id) case None => None case Some(k) => Some(k + 1)
  }

  lemma {:induction false} FindMeans(ids: seq<nat>, id: int)
    ensures match Find(ids, id)
            case None => id !in ids
            case Some(h) => h < |ids| && ids[h] == id && id !in ids[..h]
  {
    if ids != [] {
      FindMeans(ids[1..], id);
      assert ids == [ids[0]] + ids[1..];
      if ids[0] != id && Find(ids[1..], id).Some? {
        var k := Find(ids[1..], id).value;
        assert ids[..k + 1] == [ids[0]] + ids[1..][..k];
      }
    }
  }

  lemma FindAscending(ids: seq<nat>, h: nat)
    requires Ascending(ids) && h < |ids|
    ensures Find(ids, ids[h]) == Some(h)
  {
    FindMeans(ids, ids[h]);
  }

  ghost predicate Shaped(r: Row) {
    |r.ids| == r.numNotNull + r.numNull && |r.offsets| == r.numNotNull
  }

  function DefaultCell(default: Option<seq<byte>>): Cell {
    if default.None? then Null else Value(default.value)
  }

  /** What the decoder answers for a column. */
  function CellOf(r: Row, id: int, default: Option<seq<byte>>): Cell
    requires Shaped(r)
  {
    FindMeans(r.ids[..r.numNotNull], id);
    match Find(r.ids[..r.numNotNull], id)
    case Some(h) => (match GetData(r, h) case None => Broken case Some(b) => Value(b))
    case None => if Find(r.ids[r.numNotNull..], id).Some? then Null else DefaultCell(default)
  }

  /** What the decoder should answer: the column's value, null for a null column, the default for an absent one. */
  function Expected(inputs: seq<Input>, id: int, default: Option<seq<byte>>): Cell {
    if inputs == [] then DefaultCell(default)
    else
      var x := inputs[|inputs| - 1];
      if x.id == id then (if x.value.Some? then Value(x.value.value) else Null)
      else Expected(inputs[..|inputs| - 1], id, default)
  }

  /** That is the value of the column with the id, if there is one column with it. */
  lemma {:induction false} ExpectedMeans(inputs: seq<Input>, id: int, default: Option<seq<byte>>)
    requires DistinctInputs(inputs)
    ensures forall x :: x in inputs && x.id == id ==>
              Expected(inputs, id, default) == match x.value case None => Null case Some(b) => Value(b)
    ensures (forall x :: x in inputs ==> x.id != id) ==>
              Expected(inputs, id, default) == match default case None => Null case Some(b) => Value(b)
  {
    if inputs != [] {
      ExpectedMeans(inputs[..|inputs| - 1], id, default);
      assert inputs == inputs[..|inputs| - 1] + [inputs[|inputs| - 1]];
    }
  }

  /** The bytes decode to the columns: every id, present, null or absent, is answered as it should be. */
  ghost predicate Decodes(out: seq<byte>, inputs: seq<Input>) {
    SetRowData(out).Parsed? && Shaped(SetRowData(out).row) &&
    forall id, default :: CellOf(SetRowData(out).row, id, default) == Expected(inputs, id, default)
  }

  // ---------------------------------------------------------------- facts about the inputs

  ghost predicate DistinctInputs(inputs: seq<Input>) {
    forall i, j :: 0 <= i < j < |inputs| ==> inputs[i].id != inputs[j].id
  }

  /** What the encoder is given: distinct 32-bit ids, and no more columns than a 16-bit count holds. */
  ghost predicate Encodable(inputs: seq<Input>) {
    DistinctInputs(inputs) && |inputs| < U16 && forall x :: x in inputs ==> x.id < U32
  }

  lemma {:induction false} MemberOf(inputs: seq<Input>, c: Column)
    ensures c in NotNulls(inputs) <==> Input(c.id, Some(c.value)) in inputs
    ensures c in Nulls(inputs) <==> c.value == [] && Input(c.id, None) in inputs
  {
    if inputs != [] {
      var init := inputs[..|inputs| - 1];
      MemberOf(init, c);
      assert inputs == init + [inputs[|inputs| - 1]];
    }
  }

  lemma {:induction false} CountOf(inputs: seq<Input>)
    ensures |NotNulls(inputs)| + |Nulls(inputs)| == |inputs|
  {
    if inputs != [] { CountOf(inputs[..|inputs| - 1]); }
  }

  /** The two lists hold the inputs with and without a value. */
  lemma MembersOf(inputs: seq<Input>)
    ensures forall c :: c in NotNulls(inputs) <==> Input(c.id, Some(c.value)) in inputs
    ensures forall c :: c in Nulls(inputs) <==> c.value == [] && Input(c.id, None) in inputs
    ensures |NotNulls(inputs)| + |Nulls(inputs)| == |inputs|
  {
    CountOf(inputs);
    forall c ensures c in NotNulls(inputs) <==> Input(c.id, Some(c.value)) in inputs { MemberOf(inputs, c); }
    forall c ensures c in Nulls(inputs) <==> c.value == [] && Input(c.id, None) in inputs { MemberOf(inputs, c); }
  }

  lemma {:induction false} DistinctAppend(cols: seq<Column>, c: Column)
    requires DistinctIds(cols) && Absent(c.id, cols)
    ensures DistinctIds(cols + [c])
  {
    if cols == [] {
      assert (cols + [c])[1..] == [];
    } else {
      var rest := cols[1..];
      assert cols == [cols[0]] + rest && cols[0] in cols;
      DistinctAppend(rest, c);
      assert (cols + [c])[1..] == rest + [c];
    }
  }

  lemma {:induction false} DistinctParts(inputs: seq<Input>)
    requires DistinctInputs(inputs)
    ensures DistinctIds(NotNulls(inputs)) && DistinctIds(Nulls(inputs))
  {
    if inputs != [] {
      var init, x := inputs[..|inputs| - 1], inputs[|inputs| - 1];
      DistinctParts(init);
      MembersOf(init);
      assert NotNulls(init) + [] == NotNulls(init) && Nulls(init) + [] == Nulls(init);
      if x.value.Some? {
        DistinctAppend(NotNulls(init), Column(x.id, x.value.value));
      } else {
        DistinctAppend(Nulls(init), Column(x.id, []));
      }
    }
  }

  lemma {:induction false} ExpectedFound(inputs: seq<Input>, i: nat, default: Option<seq<byte>>)
    requires DistinctInputs(inputs) && i < |inputs|
    ensures Expected(inputs, inputs[i].id, default) ==
            if inputs[i].value.Some? then Value(inputs[i].value.value) else Null
  {
    if i < |inputs| - 1 { ExpectedFound(inputs[..|inputs| - 1], i, default); }
  }

  lemma {:induction false} ExpectedAbsent(inputs: seq<Input>, id: int, default: Option<seq<byte>>)
    requires forall x :: x in inputs ==> x.id != id
    ensures Expected(inputs, id, default) == DefaultCell(default)
  {
    if inputs != [] { ExpectedAbsent(inputs[..|inputs| - 1], id, default); }
  }

  // ---------------------------------------------------------------- when the columns are found again

  ghost predicate HasIds(r: Row, inputs: seq<Input>) {
    var cols, nulls := Sort(NotNulls(inputs)), Sort(Nulls(inputs));
    r.numNotNull == |cols| && r.numNull == |nulls| && r.ids == Ids(cols) + Ids(nulls) && |r.offsets| == |cols|
  }

  lemma Arranged(inputs: seq<Input>)
    requires Encodable(inputs)
    ensures var cols, nulls := Sort(NotNulls(inputs)), Sort(Nulls(inputs));
            && Ascending(Ids(cols)) && Ascending(Ids(nulls)) && |cols| + |nulls| == |inputs|
            && (forall c :: c in cols <==> Input(c.id, Some(c.value)) in inputs)
            && (forall c :: c in nulls <==> c.value == [] && Input(c.id, None) in inputs)
  {
    DistinctParts(inputs);
    MembersOf(inputs);
    SortKeeps(NotNulls(inputs));
    SortKeeps(Nulls(inputs));
    SortSorts(NotNulls(inputs));
    SortSorts(Nulls(inputs));
    SortedAscending(Sort(NotNulls(inputs)));
    SortedAscending(Sort(Nulls(inputs)));
  }

  lemma IdsHas(cols: seq<Column>, id: int)
    ensures id in Ids(cols) <==> exists c :: c in cols && c.id == id
  {
    if c :| c in cols && c.id == id {
      var k :| 0 <= k < |cols| && cols[k] == c;
      assert Ids(cols)[k] == id;
    }
  }

  /** A column that is not null is looked up where its sorted position says. */
  lemma CellOfColumn(r: Row, inputs: seq<Input>, h: nat, default: Option<seq<byte>>)
    requires Encodable(inputs) && HasIds(r, inputs) && h < r.numNotNull
    ensures var c := Sort(NotNulls(inputs))[h];
            && CellOf(r, c.id, default) == (match GetData(r, h) case None => Broken case Some(b) => Value(b))
            && Expected(inputs, c.id, default) == Value(c.value)
  {
    var cols := Sort(NotNulls(inputs));
    Arranged(inputs);
    assert r.ids[..r.numNotNull] == Ids(cols);
    FindAscending(Ids(cols), h);
    assert cols[h] in cols;
    var i :| 0 <= i < |inputs| && inputs[i] == Input(cols[h].id, Some(cols[h].value));
    ExpectedFound(inputs, i, default);
  }

  /** A null column is not among the others, and is found among the nulls. */
  lemma CellOfNull(r: Row, inputs: seq<Input>, i: nat, default: Option<seq<byte>>)
    requires Encodable(inputs) && HasIds(r, inputs) && i < |inputs| && inputs[i].value == None
    ensures CellOf(r, inputs[i].id, default) == Null == Expected(inputs, inputs[i].id, default)
  {
    var cols, nulls, id := Sort(NotNulls(inputs)), Sort(Nulls(inputs)), inputs[i].id;
    Arranged(inputs);
    assert r.ids[..r.numNotNull] == Ids(cols) && r.ids[r.numNotNull..] == Ids(nulls);
    FindMeans(Ids(cols), id);
    FindMeans(Ids(nulls), id);
    IdsHas(cols, id);
    IdsHas(nulls, id);
    assert Column(id, []) in nulls;
    forall c | c in cols ensures c.id != id {
      var j :| 0 <= j < |inputs| && inputs[j] == Input(c.id, Some(c.value));
    }
    ExpectedFound(inputs, i, default);
  }

  lemma CellOfAbsent(r: Row, inputs: seq<Input>, id: int, default: Option<seq<byte>>)
    requires Encodable(inputs) && HasIds(r, inputs) && forall x :: x in inputs ==> x.id != id
    ensures CellOf(r, id, default) == DefaultCell(default) == Expected(inputs, id, default)
  {
    var cols, nulls := Sort(NotNulls(inputs)), Sort(Nulls(inputs));
    Arranged(inputs);
    assert r.ids[..r.numNotNull] == Ids(cols) && r.ids[r.numNotNull..] == Ids(nulls);
    FindMeans(Ids(cols), id);
    FindMeans(Ids(nulls), id);
    IdsHas(cols, id);
    IdsHas(nulls, id);
    ExpectedAbsent(inputs, id, default);
  }

  lemma PositionOf(inputs: seq<Input>, i: nat) returns (h: nat)
    requires Encodable(inputs) && i < |inputs| && inputs[i].value.Some?
    ensures h < |Sort(NotNulls(inputs))| && Sort(NotNulls(inputs))[h] == Column(inputs[i].id, inputs[i].value.value)
  {
    var c := Column(inputs[i].id, inputs[i].value.value);
    MemberOf(inputs, c);
    SortKeeps(NotNulls(inputs));
    assert inputs[i] in inputs && c in Sort(NotNulls(inputs));
    h :| 0 <= h < |Sort(NotNulls(inputs))| && Sort(NotNulls(inputs))[h] == c;
  }

  /** Right offsets and data give right answers for every id. */
  lemma RightOffsetsDecode(r: Row, inputs: seq<Input>, id: int, default: Option<seq<byte>>)
    requires Encodable(inputs) && HasIds(r, inputs)
    requires r.offsets == Ends(Sort(NotNulls(inputs))) && Data(Sort(NotNulls(inputs))) <= r.data
    ensures CellOf(r, id, default) == Expected(inputs, id, default)
  {
    var cols := Sort(NotNulls(inputs));
    if i :| 0 <= i < |inputs| && inputs[i].id == id {
      if inputs[i].value.None? {
        CellOfNull(r, inputs, i, default);
      } else {
        var h := PositionOf(inputs, i);
        GetDataFinds(r, cols, h);
        CellOfColumn(r, inputs, h, default);
      }
    } else {
      CellOfAbsent(r, inputs, id, default);
    }
  }

  /** Right answers need right offsets, and data that starts with the values. */
  lemma RightAnswersNeedEnds(r: Row, inputs: seq<Input>)
    requires Encodable(inputs) && HasIds(r, inputs)
    requires forall id, default :: CellOf(r, id, default) == Expected(inputs, id, default)
    ensures r.offsets == Ends(Sort(NotNulls(inputs))) && Data(Sort(NotNulls(inputs))) <= r.data
  {
    var cols := Sort(NotNulls(inputs));
    forall h | 0 <= h < |cols| ensures GetData(r, h) == Some(cols[h].value) {
      CellOfColumn(r, inputs, h, None);
      assert CellOf(r, cols[h].id, None) == Expected(inputs, cols[h].id, None);
    }
    forall h | 0 <= h < |cols| ensures r.offsets[h] == Ends(cols)[h] { FoundMeansEnds(r, cols, h + 1); }
    FoundMeansEnds(r, cols, |cols|);
    assert cols[..|cols|] == cols;
  }

  /** Bytes that are read as a row with the right ids decode exactly when its offsets and data are right too. */
  lemma DecodesIff(out: seq<byte>, r: Row, inputs: seq<Input>)
    requires Encodable(inputs) && SetRowData(out) == Parsed(r) && HasIds(r, inputs)
    ensures Decodes(out, inputs) <==>
            r.offsets == Ends(Sort(NotNulls(inputs))) && Data(Sort(NotNulls(inputs))) <= r.data
  {
    if Decodes(out, inputs) { RightAnswersNeedEnds(r, inputs); }
    if r.offsets == Ends(Sort(NotNulls(inputs))) && Data(Sort(NotNulls(inputs))) <= r.data {
      forall id, default ensures CellOf(r, id, default) == Expected(inputs, id, default) {
        RightOffsetsDecode(r, inputs, id, default);
      }
    }
  }

  // ---------------------------------------------------------------- the exact condition

  lemma {:induction false} DataConsLength(c: Column, cols: seq<Column>)
    ensures |Data([c] + cols)| == |c.value| + |Data(cols)|
  {
    var all := [c] + cols;
    if cols == [] {
      assert all == [c] && all[..0] == [];
    } else {
      assert all[..|all| - 1] == [c] + cols[..|cols| - 1];
      DataConsLength(c, cols[..|cols| - 1]);
    }
  }

  lemma {:induction false} InsertLength(c: Column, cols: seq<Column>)
    ensures |Data(Insert(c, cols))| == |c.value| + |Data(cols)|
  {
    if cols == [] || c.id <= cols[0].id {
      DataConsLength(c, cols);
    } else {
      InsertLength(c, cols[1..]);
      DataConsLength(cols[0], Insert(c, cols[1..]));
      DataConsLength(cols[0], cols[1..]);
      assert cols == [cols[0]] + cols[1..];
    }
  }

  /** Sorting does not change how much data there is. */
  lemma {:induction false} SortLength(cols: seq<Column>)
    ensures |Data(Sort(cols))| == |Data(cols)|
  {
    if cols != [] {
      SortLength(cols[1..]);
      InsertLength(cols[0], Sort(cols[1..]));
      DataConsLength(cols[0], cols[1..]);
      assert cols == [cols[0]] + cols[1..];
    }
  }

  lemma EndsBounded(cols: seq<Column>)
    ensures forall i :: 0 <= i < |cols| ==> Ends(cols)[i] <= |Data(cols)|
  {
    forall i | 0 <= i < |cols| ensures Ends(cols)[i] <= |Data(cols)| { DataPrefix(cols, i + 1); }
  }

  lemma IdsBelow(cols: seq<Column>, bound: nat)
    requires forall c :: c in cols ==> c.id < bound
    ensures forall i :: 0 <= i < |cols| ==> Ids(cols)[i] < bound
  {
    assert forall i :: 0 <= i < |cols| ==> cols[i] in cols;
  }

  lemma InputIdsBelow(inputs: seq<Input>, bound: nat)
    requires Encodable(inputs) && forall i :: 0 <= i < |inputs| ==> inputs[i].id < bound
    ensures var ids := Ids(Sort(NotNulls(inputs))) + Ids(Sort(Nulls(inputs)));
            forall i :: 0 <= i < |ids| ==> ids[i] < bound
  {
    Arranged(inputs);
    IdsBelow(Sort(NotNulls(inputs)), bound);
    IdsBelow(Sort(Nulls(inputs)), bound);
  }

  lemma IdsFit(inputs: seq<Input>)
    requires Encodable(inputs)
    ensures var ids := Ids(Sort(NotNulls(inputs))) + Ids(Sort(Nulls(inputs)));
            FitsWidth(ids, 4) && (!AnyLargeId(inputs) ==> FitsWidth(ids, 1))
  {
    Widths();
    assert forall i :: 0 <= i < |inputs| ==> inputs[i] in inputs;
    InputIdsBelow(inputs, U32);
    if !AnyLargeId(inputs) { InputIdsBelow(inputs, U8); }
  }

  lemma AssembledIds(inputs: seq<Input>, stale: seq<nat>)
    requires Encodable(inputs) && Assemble(inputs, stale).Some?
    ensures var r, cols := Assemble(inputs, stale).value, Sort(NotNulls(inputs));
            && FitsWidth(r.ids, IdWidth(r.large)) && r.numNotNull + r.numNull < U16
            && r.numNotNull == |cols| && r.numNull == |Sort(Nulls(inputs))| && r.data == Data(cols)
            && r.ids == Ids(cols) + Ids(Sort(Nulls(inputs)))
  {
    IdsFit(inputs);
    Arranged(inputs);
  }

  // ---------------------------------------------------------------- large rows

  lemma ModOfEnds(cols: seq<Column>, m: nat)
    requires m > 0
    ensures ModAll(Ends(cols), m) == Ends(cols) <==> |Data(cols)| < m
  {
    EndsBounded(cols);
    if |Data(cols)| < m {
      ModAllSmall(Ends(cols), m);
    } else {
      assert cols != [] && cols[..|cols|] == cols;
      assert Ends(cols)[|cols| - 1] == |Data(cols)|;
      assert ModAll(Ends(cols), m)[|cols| - 1] < m;
    }
  }

  /** A row that is large from its ids or its data decodes exactly when its data is shorter than 2^32 bytes. */
  lemma LargeRow(inputs: seq<Input>, stale: seq<nat>)
    requires Encodable(inputs) && (AnyLargeId(inputs) || |Data(Sort(NotNulls(inputs)))| > 0xFFFF)
    ensures Assemble(inputs, stale).Some? && SetRowData(Layout(Assemble(inputs, stale).value)).Parsed?
    ensures HasIds(SetRowData(Layout(Assemble(inputs, stale).value)).row, inputs)
    ensures Decodes(Layout(Assemble(inputs, stale).value), inputs) <==> |Data(Sort(NotNulls(inputs)))| < U32
  {
    var cols, r := Sort(NotNulls(inputs)), Assemble(inputs, stale).value;
    AssembledIds(inputs, stale);
    Widths();
    LayoutRoundTrip(r);
    DecodesIff(Layout(r), r, inputs);
    ModOfEnds(cols, U32);
  }

  // ---------------------------------------------------------------- small rows

  /** A small row decodes exactly when what is left of an earlier row is a prefix of its own offsets. */
  lemma SmallRow(inputs: seq<Input>, stale: seq<nat>)
    requires Encodable(inputs) && !AnyLargeId(inputs) && |Data(Sort(NotNulls(inputs)))| < 0xFFFF
    requires |stale| <= |Sort(NotNulls(inputs))|
    ensures Assemble(inputs, stale).Some? && SetRowData(Layout(Assemble(inputs, stale).value)).Parsed?
    ensures HasIds(SetRowData(Layout(Assemble(inputs, stale).value)).row, inputs)
    ensures Decodes(Layout(Assemble(inputs, stale).value), inputs) <==>
            ModAll(stale, U16) <= Ends(Sort(NotNulls(inputs)))
  {
    var cols, r := Sort(NotNulls(inputs)), Assemble(inputs, stale).value;
    AssembledIds(inputs, stale);
    EndsBounded(cols);
    Widths();
    LayoutRoundTrip(r);
    DecodesIff(Layout(r), r, inputs);
    assert r.offsets == ModAll(stale, U16) + Ends(cols)[|stale|..];
    if ModAll(stale, U16) <= Ends(cols) { assert r.offsets == Ends(cols); }
    if r.offsets == Ends(cols) { assert ModAll(stale, U16) == r.offsets[..|stale|]; }
  }

  // ---------------------------------------------------------------- rows of 65535 bytes

  lemma {:induction false} PackAppend(a: seq<nat>, b: seq<nat>, width: nat)
    ensures Pack(a + b, width) == Pack(a, width) + Pack(b, width)
  {
    if a == [] {
      assert a + b == b;
    } else {
      assert (a + b)[1..] == a[1..] + b;
      PackAppend(a[1..], b, width);
    }
  }

  /** The rows agree on their columns, but the second one has lost some data to what it takes for offsets. */
  ghost predicate LostData(r: Row, p: RowResult) {
    p.Panicked? ||
    (p.Parsed? && p.row.numNotNull == r.numNotNull && p.row.numNull == r.numNull && p.row.ids == r.ids &&
     |p.row.offsets| == r.numNotNull && |p.row.data| + 4 * r.numNotNull == |r.data|)
  }

  lemma TooShort(b: seq<byte>, numNotNull: nat, numNull: nat)
    requires 6 <= |b| < 6 + 4 * (numNotNull + numNull) + 4 * numNotNull && numNotNull + numNull < U16
    ensures ReadArrays(b, true, numNotNull, numNull).Panicked?
  {
    assert (numNotNull + numNull) % U16 == numNotNull + numNull;
  }

  lemma LongEnough(r: Row, b: seq<byte>, idsLen: nat, offsLen: nat)
    requires r.numNotNull + r.numNull < U16 && |b| == 6 + idsLen + |r.data| && offsLen <= |r.data|
    requires idsLen == 4 * (r.numNotNull + r.numNull) && offsLen == 4 * r.numNotNull
    requires Unpack(b[6..], 4, r.numNotNull + r.numNull) == r.ids
    ensures LostData(r, ReadArrays(b, true, r.numNotNull, r.numNull))
  {
    ArraysAt(b, true, r.numNotNull, r.numNull, idsLen, offsLen);
  }

  lemma ArraysMissing(r: Row, head: seq<byte>, ids: seq<byte>)
    requires |head| == 6 && r.numNotNull + r.numNull < U16 && |ids| == 4 * (r.numNotNull + r.numNull)
    requires Unpack(ids + r.data, 4, r.numNotNull + r.numNull) == r.ids
    ensures LostData(r, ReadArrays(head + ids + r.data, true, r.numNotNull, r.numNull))
  {
    var b := head + ids + r.data;
    assert b[6..] == ids + r.data;
    if |r.data| < 4 * r.numNotNull {
      TooShort(b, r.numNotNull, r.numNull);
    } else {
      LongEnough(r, b, |ids|, 4 * r.numNotNull);
    }
  }

  /** A large row without its offsets: what is read as offsets is taken from the data. */
  lemma MissingOffsets(r: Row)
    requires r.large && r.numNotNull + r.numNull < U16 && |r.ids| == r.numNotNull + r.numNull && r.offsets == []
    requires FitsWidth(r.ids, 4)
    ensures LostData(r, SetRowData(Layout(r)))
  {
    var ids := Pack(r.ids, 4);
    assert Layout(r) == Header(r) + ids + r.data == Header(r) + (ids + r.data);
    HeaderRead(r, ids + r.data);
    UnpackPack(r.ids, 4, r.data);
    ArraysMissing(r, Header(r), ids);
  }

  /** Left-over offsets may as well be counted as data. */
  lemma OffsetsAsData(r: Row, n: nat)
    requires r.large && n <= |r.offsets|
    ensures Layout(r) == Layout(r.(offsets := r.offsets[..n], data := Pack(r.offsets[n..], 4) + r.data))
  {
    var a, b := r.offsets[..n], r.offsets[n..];
    assert r.offsets == a + b;
    PackAppend(a, b, 4);
    var front := Header(r) + Pack(r.ids, 4);
    assert front + (Pack(a, 4) + Pack(b, 4)) + r.data == front + Pack(a, 4) + (Pack(b, 4) + r.data);
  }

  lemma FewOffsets(r: Row)
    requires r.large && r.numNotNull + r.numNull < U16 && |r.ids| == r.numNotNull + r.numNull && FitsWidth(r.ids, 4)
    requires |r.offsets| < r.numNotNull
    ensures var p := SetRowData(Layout(r));
            p.Panicked? || (p.Parsed? && p.row.numNotNull == r.numNotNull && p.row.numNull == r.numNull &&
                            p.row.ids == r.ids && |p.row.offsets| == r.numNotNull && |p.row.data| < |r.data|)
  {
    OffsetsAsData(r, 0);
    var r' := r.(offsets := r.offsets[..0], data := Pack(r.offsets[0..], 4) + r.data);
    assert r'.offsets == [];
    MissingOffsets(r');
  }

  lemma ManyOffsets(r: Row, n: nat)
    requires r.large && n == r.numNotNull && n + r.numNull < U16 && |r.ids| == n + r.numNull && FitsWidth(r.ids, 4)
    requires |r.offsets| >= n && FitsWidth(r.offsets, 4)
    ensures SetRowData(Layout(r)) == Parsed(r.(offsets := r.offsets[..n], data := Pack(r.offsets[n..], 4) + r.data))
  {
    OffsetsAsData(r, n);
    LayoutRoundTrip(r.(offsets := r.offsets[..n], data := Pack(r.offsets[n..], 4) + r.data));
  }

  /**
   A row of exactly 65535 bytes with small ids goes out large with the offsets left of an earlier row. It decodes
   exactly when those start with its own and the data can be read in front of whatever else is left.
   */
  lemma EdgeRow(inputs: seq<Input>, stale: seq<nat>)
    requires Encodable(inputs) && !AnyLargeId(inputs) && |Data(Sort(NotNulls(inputs)))| == 0xFFFF && FitsWidth(stale, 4)
    ensures Assemble(inputs, stale).Some?
    ensures var cols, out := Sort(NotNulls(inputs)), Layout(Assemble(inputs, stale).value);
            && (|stale| >= |cols| ==> SetRowData(out).Parsed? && HasIds(SetRowData(out).row, inputs))
            && (Decodes(out, inputs) <==> Ends(cols) <= stale && Data(cols) <= Pack(stale[|cols|..], 4) + Data(cols))
  {
    var cols, r := Sort(NotNulls(inputs)), Assemble(inputs, stale).value;
    AssembledIds(inputs, stale);
    if |stale| >= |cols| {
      ManyOffsets(r, |cols|);
      DecodesIff(Layout(r), SetRowData(Layout(r)).row, inputs);
    } else {
      FewOffsets(r);
      if Decodes(Layout(r), inputs) { RightAnswersNeedEnds(SetRowData(Layout(r)).row, inputs); }
    }
  }

  // ---------------------------------------------------------------- the exact condition for every row

  /** A large id or more than 65535 bytes of data make a row large. */
  predicate LargeOnItsOwn(inputs: seq<Input>) {
    AnyLargeId(inputs) || |Data(Sort(NotNulls(inputs)))| > 0xFFFF
  }

  /** What a row has to be, given the 32-bit offsets that earlier rows left in the encoder, to decode. */
  ghost predicate Unharmed(inputs: seq<Input>, stale: seq<nat>) {
    var cols := Sort(NotNulls(inputs));
    if LargeOnItsOwn(inputs) then |Data(cols)| < U32
    else if |Data(cols)| == 0xFFFF then Ends(cols) <= stale && Data(cols) <= Pack(stale[|cols|..], 4) + Data(cols)
    else ModAll(stale, U16) <= Ends(cols)
  }

  lemma ReusedRoundTrip(inputs: seq<Input>, stale: seq<nat>)
    requires Encodable(inputs) && FitsWidth(stale, 4)
    ensures Assemble(inputs, stale).Some? && Decodes(Layout(Assemble(inputs, stale).value), inputs) <==>
            Unharmed(inputs, stale)
    ensures Unharmed(inputs, stale) ==> HasIds(SetRowData(Layout(Assemble(inputs, stale).value)).row, inputs)
  {
    var cols := Sort(NotNulls(inputs));
    if LargeOnItsOwn(inputs) {
      LargeRow(inputs, stale);
    } else if |Data(cols)| == 0xFFFF {
      EdgeRow(inputs, stale);
    } else if |stale| <= |cols| {
      SmallRow(inputs, stale);
    }
  }

  /**
   A fresh encoder's row decodes to its columns exactly when the data is shorter than 2^32 bytes and not, with
   small ids, 65535 bytes long.
   */
  lemma FreshRoundTrip(inputs: seq<Input>)
    requires Encodable(inputs)
    ensures Assemble(inputs, []).Some?
    ensures var length := |Data(NotNulls(inputs))|;
            Decodes(Layout(Assemble(inputs, []).value), inputs) <==>
            length < U32 && (length != 0xFFFF || AnyLargeId(inputs))
  {
    SortLength(NotNulls(inputs));
    ReusedRoundTrip(inputs, []);
    assert ModAll([], U16) == [];
    if |Data(NotNulls(inputs))| == 0xFFFF { assert Sort(NotNulls(inputs)) != []; }
  }

  lemma SingleColumn(id: nat, value: seq<byte>)
    ensures NotNulls([Input(id, Some(value))]) == [Column(id, value)] && Data([Column(id, value)]) == value
    ensures Sort([Column(id, value)]) == [Column(id, value)] && Ends([Column(id, value)]) == [|value|]
  {
    var inputs, cols := [Input(id, Some(value))], [Column(id, value)];
    assert inputs[..0] == [] && cols[..0] == [] && cols[1..] == [] && cols[..1] == cols;
    assert NotNulls(inputs) == [] + cols && Data(cols) == [] + value;
  }

  /** One column of 65535 bytes is lost. */
  lemma LostRow(value: seq<byte>)
    requires |value| == 0xFFFF
    ensures Encodable([Input(1, Some(value))])
    ensures Assemble([Input(1, Some(value))], []).Some?
    ensures !Decodes(Layout(Assemble([Input(1, Some(value))], []).value), [Input(1, Some(value))])
  {
    SingleColumn(1, value);
    FreshRoundTrip([Input(1, Some(value))]);
  }

  // ---------------------------------------------------------------- an encoder that is used again

  /** The 32-bit offsets that an encoder holds after a row: only a row that is large on its own account sets them. */
  function Leaves(inputs: seq<Input>, stale: seq<nat>): seq<nat> {
    if LargeOnItsOwn(inputs) then ModAll(Ends(Sort(NotNulls(inputs))), U32) else stale
  }

  /** The offsets that an encoder holds after these rows, one after another. */
  function LeftBy(rows: seq<seq<Input>>): (left: seq<nat>)
    ensures FitsWidth(left, 4)
  {
    Widths();
    if rows == [] then [] else Leaves(rows[|rows| - 1], LeftBy(rows[..|rows| - 1]))
  }

  /** What is left are the offsets of the last row that was large on its own account. */
  lemma {:induction false} LeftByLastLarge(rows: seq<seq<Input>>, k: nat)
    requires k < |rows| && LargeOnItsOwn(rows[k]) && forall i :: k < i < |rows| ==> !LargeOnItsOwn(rows[i])
    ensures LeftBy(rows) == ModAll(Ends(Sort(NotNulls(rows[k]))), U32)
  {
    if k < |rows| - 1 { LeftByLastLarge(rows[..|rows| - 1], k); }
  }

  lemma {:induction false} SmallRowsLeaveNothing(rows: seq<seq<Input>>)
    requires forall i :: 0 <= i < |rows| ==> !LargeOnItsOwn(rows[i])
    ensures LeftBy(rows) == []
  {
    if rows != [] { SmallRowsLeaveNothing(rows[..|rows| - 1]); }
  }

  /** A row encoded after others decodes exactly when what they left does it no harm. */
  lemma RowAfterRows(rows: seq<seq<Input>>, inputs: seq<Input>)
    requires Encodable(inputs)
    ensures Assemble(inputs, LeftBy(rows)).Some? && Decodes(Layout(Assemble(inputs, LeftBy(rows)).value), inputs) <==>
            Unharmed(inputs, LeftBy(rows))
  {
    ReusedRoundTrip(inputs, LeftBy(rows));
  }

  lemma OneLargeId(x: byte)
    ensures var first := [Input(256, Some([x]))]; Encodable(first) && LeftBy([first]) == [1] && Unharmed(first, [])
  {
    var first := [Input(256, Some([x]))];
    SingleColumn(256, [x]);
    assert first[0].id > 255 && [first][..0] == [];
    assert ModAll([1], U32) == [1];
  }

  lemma StaleOffsetsFit(inputs: seq<Input>, stale: seq<nat>)
    requires |stale| <= |Sort(NotNulls(inputs))|
    ensures Assemble(inputs, stale).Some?
  {
  }

  /** A short row whose first offset is not the stale one is harmed. */
  lemma StaleOffsetHarms(inputs: seq<Input>, stale: nat)
    requires !LargeOnItsOwn(inputs) && |Data(Sort(NotNulls(inputs)))| != 0xFFFF
    requires |Ends(Sort(NotNulls(inputs)))| == 1 && Ends(Sort(NotNulls(inputs)))[0] != stale < U16
    ensures !Unharmed(inputs, [stale])
  {
    assert ModAll([stale], U16)[0] == stale;
  }

  lemma TwoBytesHarmed(x: byte, y: byte)
    ensures var second := [Input(1, Some([x, y]))];
            Encodable(second) && Assemble(second, [1]).Some? && !Unharmed(second, [1])
  {
    SingleColumn(1, [x, y]);
    StaleOffsetsFit([Input(1, Some([x, y]))], [1]);
    StaleOffsetHarms([Input(1, Some([x, y]))], 1);
  }

  /** A row with a large id decodes, but the small row after it is cut short. */
  lemma SecondRowIsHarmed(x: byte, y: byte)
    ensures var first, second := [Input(256, Some([x]))], [Input(1, Some([x, y]))];
            && Encodable(first) && Encodable(second)
            && Assemble(first, LeftBy([])).Some? && Decodes(Layout(Assemble(first, LeftBy([])).value), first)
            && Assemble(second, LeftBy([first])).Some?
            && !Decodes(Layout(Assemble(second, LeftBy([first])).value), second)
  {
    var first, second := [Input(256, Some([x]))], [Input(1, Some([x, y]))];
    OneLargeId(x);
    TwoBytesHarmed(x, y);
    RowAfterRows([], first);
    RowAfterRows([first], second);
  }
}
