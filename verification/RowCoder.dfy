/** The row encoder with its reused buffers, and the decoder's searches. */
module RowCoder {
  import opened Common
  import opened Bytes
  import opened RowCodec
  import opened RowRoundTrip

  function Zip(ids: seq<nat>, values: seq<Option<seq<byte>>>): (r: seq<Input>)
    requires |ids| == |values|
    ensures |r| == |ids|
  {
    seq(|ids|, i requires 0 <= i < |ids| => Input(ids[i], values[i]))
  }

  function Vals(cols: seq<Column>): seq<Option<seq<byte>>> {
    seq(|cols|, i requires 0 <= i < |cols| => Some(cols[i].value))
  }

  /** A slice of a length, reusing what a buffer holds. */
  function Resize(s: seq<nat>, n: nat): (r: seq<nat>)
    ensures |r| == n
  {
    if |s| >= n then s[..n] else seq(n, _ => 0)
  }

  /** One more input goes to one of the two lists. */
  lemma SplitStep(inputs: seq<Input>, i: nat)
    requires i < |inputs|
    ensures NotNulls(inputs[..i + 1]) == NotNulls(inputs[..i]) +
              if inputs[i].value.Some? then [Column(inputs[i].id, inputs[i].value.value)] else []
    ensures Nulls(inputs[..i + 1]) == Nulls(inputs[..i]) +
              if inputs[i].value.None? then [Column(inputs[i].id, [])] else []
  {
    assert inputs[..i + 1][..i] == inputs[..i];
  }

  lemma {:induction false} SplitGrows(inputs: seq<Input>, i: nat)
    requires i <= |inputs|
    ensures NotNulls(inputs[..i]) <= NotNulls(inputs) && Nulls(inputs[..i]) <= Nulls(inputs)
    ensures |NotNulls(inputs[..i])| + |Nulls(inputs[..i])| == i
    decreases |inputs| - i
  {
    MembersOf(inputs[..i]);
    if i < |inputs| {
      SplitStep(inputs, i);
      SplitGrows(inputs, i + 1);
    } else {
      assert inputs[..i] == inputs;
    }
  }

  lemma IdsAppend(cols: seq<Column>, c: Column)
    ensures Ids(cols + [c]) == Ids(cols) + [c.id] && Vals(cols + [c]) == Vals(cols) + [Some(c.value)]
  {
  }

  /** Pair ids with values again. */
  function Columns(ids: seq<nat>, vals: seq<Option<seq<byte>>>): seq<Column>
    requires |ids| == |vals| && forall i :: 0 <= i < |vals| ==> vals[i].Some?
  {
    seq(|ids|, i requires 0 <= i < |ids| => Column(ids[i], vals[i].value))
  }

  function NullColumns(ids: seq<nat>): seq<Column> {
    seq(|ids|, i requires 0 <= i < |ids| => Column(ids[i], []))
  }

  lemma ColumnsAgain(cols: seq<Column>, inputs: seq<Input>)
    ensures Columns(Ids(cols), Vals(cols)) == cols
    ensures NullColumns(Ids(Nulls(inputs))) == Nulls(inputs)
  {
    MembersOf(inputs);
    var qs := Nulls(inputs);
    forall i | 0 <= i < |qs| ensures NullColumns(Ids(qs))[i] == qs[i] { assert qs[i] in qs; }
  }

  /** What the buffers come to is the assembled row. */
  lemma FillAssembles(inputs: seq<Input>, filled: Row, r: Row, stale: seq<nat>)
    requires var cols, nulls := Sort(NotNulls(inputs)), Sort(Nulls(inputs));
             && filled.data == Data(cols) && filled.ids == Ids(cols) + Ids(nulls)
             && filled.numNotNull == |cols| && filled.numNull == |nulls|
             && (filled.large <==> AnyLargeId(inputs) || |Data(cols)| > 0xFFFF)
             && |filled.offsets| == |cols|
             && (forall j :: 0 <= j < |cols| ==>
                   filled.offsets[j] == if filled.large then Ends(cols)[j] % U32 else Ends(cols)[j])
    requires if filled.large then r == filled
             else if |filled.data| == 0xFFFF then r == filled.(large := true, offsets := stale)
             else |stale| <= |filled.offsets| && r == filled.(offsets := ModAll(stale, U16) + filled.offsets[|stale|..])
    ensures Assemble(inputs, stale) == Some(r)
  {
    var cols := Sort(NotNulls(inputs));
    assert filled.offsets == if filled.large then ModAll(Ends(cols), U32) else Ends(cols);
  }

  class Encoder {
    var large: bool
    var numNotNullCols: nat
    var numNullCols: nat
    var colIDs: seq<nat>
    var colIDs32: seq<nat>
    var offsets: seq<nat>
    var offsets32: seq<nat>
    var data: seq<byte>
    var tempColIDs: seq<nat>
    var values: seq<Option<seq<byte>>>

    constructor ()
      ensures offsets32 == []
    {
      large, numNotNullCols, numNullCols := false, 0, 0;
      colIDs, colIDs32, offsets, offsets32, data, tempColIDs, values := [], [], [], [], [], [], [];
    }

    /** The id array of the layout in use. */
    function Cur(): seq<nat>
      reads this
    {
      if large then colIDs32 else colIDs
    }

    method Reset()
      modifies this
      ensures !large && numNotNullCols == 0 && numNullCols == 0 && data == [] && tempColIDs == [] && values == []
      ensures offsets32 == old(offsets32)
    {
      large, numNotNullCols, numNullCols := false, 0, 0;
      data, tempColIDs, values := [], [], [];
    }

    /** The columns added so far, counted and noted as large or not. */
    ghost predicate Added(inputs: seq<Input>)
      reads this
    {
      && |tempColIDs| == |values| && Zip(tempColIDs, values) == inputs
      && (large <==> AnyLargeId(inputs))
      && numNotNullCols == |NotNulls(inputs)| && numNullCols == |Nulls(inputs)|
      && data == []
    }

    method AddColumn(colID: nat, d: Option<seq<byte>>, ghost inputs: seq<Input>)
      requires Added(inputs)
      modifies this
      ensures Added(inputs + [Input(colID, d)]) && offsets32 == old(offsets32)
    {
      ghost var more := inputs + [Input(colID, d)];
      assert more[..|inputs|] == inputs;
      assert AnyLargeId(more) <==> AnyLargeId(inputs) || colID > 255 by {
        if colID > 255 { assert more[|inputs|].id > 255; }
        if AnyLargeId(inputs) {
          var k :| 0 <= k < |inputs| && inputs[k].id > 255;
          assert more[k].id > 255;
        }
      }
      if colID > 255 { large := true; }
      if d.None? { numNullCols := numNullCols + 1; } else { numNotNullCols := numNotNullCols + 1; }
      tempColIDs := tempColIDs + [colID];
      values := values + [d];
    }

    method SetId(k: nat, id: nat)
      requires k < |Cur()|
      modifies this`colIDs, this`colIDs32
      ensures Cur() == old(Cur())[k := if large then id % U32 else id % U8]
    {
      if large { colIDs32 := colIDs32[k := id % U32]; } else { colIDs := colIDs[k := id % U8]; }
    }

    /** Size the buffers of the layout in use. */
    method InitBuffers()
      modifies this
      ensures |Cur()| == numNotNullCols + numNullCols
      ensures if large then |offsets32| == numNotNullCols
              else |offsets| == numNotNullCols && offsets32 == old(offsets32)
      ensures large == old(large) && numNotNullCols == old(numNotNullCols) && numNullCols == old(numNullCols)
      ensures data == old(data) && tempColIDs == old(tempColIDs) && values == old(values)
    {
      if large {
        colIDs32 := Resize(colIDs32, numNotNullCols + numNullCols);
        offsets32 := Resize(offsets32, numNotNullCols);
      } else {
        colIDs := Resize(colIDs, numNotNullCols + numNullCols);
        offsets := Resize(offsets, numNotNullCols);
      }
    }

    /** The first inputs have been placed: ids of not-null ones in front, of null ones behind, values in front. */
    ghost predicate Placed(ps: seq<Column>, qs: seq<Column>, notNullIdx: nat, nullIdx: nat)
      reads this
    {
      var n := numNotNullCols;
      && notNullIdx == |ps| <= n && nullIdx == n + |qs| <= n + numNullCols == |Cur()| && notNullIdx <= |values|
      && Cur()[..notNullIdx] == Ids(ps) && Cur()[n..nullIdx] == Ids(qs) && values[..notNullIdx] == Vals(ps)
    }

    method PlaceNull(id: nat, notNullIdx: nat, nullIdx: nat, ghost ps: seq<Column>, ghost qs: seq<Column>)
      requires Placed(ps, qs, notNullIdx, nullIdx) && nullIdx < |Cur()| && id < if large then U32 else U8
      modifies this`colIDs, this`colIDs32
      ensures Placed(ps, qs + [Column(id, [])], notNullIdx, nullIdx + 1)
    {
      IdsAppend(qs, Column(id, []));
      SetId(nullIdx, id);
    }

    method PlaceValue(id: nat, i: nat, notNullIdx: nat, nullIdx: nat, ghost ps: seq<Column>, ghost qs: seq<Column>)
      requires Placed(ps, qs, notNullIdx, nullIdx) && notNullIdx < numNotNullCols && id < if large then U32 else U8
      requires notNullIdx <= i < |values| && values[i].Some?
      modifies this`colIDs, this`colIDs32, this`values
      ensures Placed(ps + [Column(id, old(values)[i].value)], qs, notNullIdx + 1, nullIdx)
      ensures |values| == |old(values)| && values[i + 1..] == old(values)[i + 1..]
    {
      IdsAppend(ps, Column(id, values[i].value));
      SetId(notNullIdx, id);
      values := values[notNullIdx := values[i]];
    }

    lemma NextInput(inputs: seq<Input>, i: nat)
      requires Encodable(inputs) && i < |inputs| && (large <==> AnyLargeId(inputs))
      ensures inputs[i].id < if large then U32 else U8
      ensures i >= |NotNulls(inputs[..i])|
      ensures inputs[i].value.Some? ==> |NotNulls(inputs[..i])| < |NotNulls(inputs)|
      ensures inputs[i].value.None? ==> |Nulls(inputs[..i])| < |Nulls(inputs)|
    {
      assert inputs[i] in inputs;
      SplitStep(inputs, i);
      SplitGrows(inputs, i);
      SplitGrows(inputs, i + 1);
    }

    method PlaceInput(i: nat, notNullIdx: nat, nullIdx: nat, ghost inputs: seq<Input>) returns (nn: nat, nu: nat)
      requires Encodable(inputs) && i < |inputs| == |values| == |tempColIDs| && (large <==> AnyLargeId(inputs))
      requires numNotNullCols == |NotNulls(inputs)| && numNullCols == |Nulls(inputs)|
      requires inputs[i] == Input(tempColIDs[i], values[i])
      requires Placed(NotNulls(inputs[..i]), Nulls(inputs[..i]), notNullIdx, nullIdx)
      modifies this`colIDs, this`colIDs32, this`values
      ensures Placed(NotNulls(inputs[..i + 1]), Nulls(inputs[..i + 1]), nn, nu)
      ensures |values| == |old(values)| && values[i + 1..] == old(values)[i + 1..]
    {
      NextInput(inputs, i);
      SplitStep(inputs, i);
      nn, nu := notNullIdx, nullIdx;
      ghost var ps, qs := NotNulls(inputs[..i]), Nulls(inputs[..i]);
      if values[i].None? {
        PlaceNull(tempColIDs[i], notNullIdx, nullIdx, ps, qs);
        nu := nu + 1;
        assert NotNulls(inputs[..i + 1]) == ps + [] == ps;
      } else {
        PlaceValue(tempColIDs[i], i, notNullIdx, nullIdx, ps, qs);
        nn := nn + 1;
        assert Nulls(inputs[..i + 1]) == qs + [] == qs;
      }
    }

    lemma AllPlaced(ps: seq<Column>, qs: seq<Column>, notNullIdx: nat, nullIdx: nat)
      requires Placed(ps, qs, notNullIdx, nullIdx) && |ps| == numNotNullCols && |qs| == numNullCols
      ensures Cur() == Ids(ps) + Ids(qs) && values[..numNotNullCols] == Vals(ps)
    {
      assert Cur() == Cur()[..notNullIdx] + Cur()[notNullIdx..nullIdx];
    }

    lemma TailStep(now: seq<Option<seq<byte>>>, before: seq<Option<seq<byte>>>, i: nat)
      requires |now| == |before| && i < |now| && now[i..] == before[i..]
      ensures now[i] == before[i] && now[i + 1..] == before[i + 1..]
    {
      assert now[i] == now[i..][0] && before[i] == before[i..][0];
      assert now[i + 1..] == now[i..][1..] && before[i + 1..] == before[i..][1..];
    }

    /** Not-null ids go to the front, their values with them; null ids go behind. */
    method Separate(ghost inputs: seq<Input>)
      requires Added(inputs) && Encodable(inputs) && |Cur()| == numNotNullCols + numNullCols
      modifies this`colIDs, this`colIDs32, this`values
      ensures Cur() == Ids(NotNulls(inputs)) + Ids(Nulls(inputs))
      ensures numNotNullCols <= |values| && values[..numNotNullCols] == Vals(NotNulls(inputs))
    {
      var nullIdx, notNullIdx := numNotNullCols, 0;
      ghost var before := values;
      assert inputs[..0] == [];
      for i := 0 to |tempColIDs|
        invariant |values| == |inputs| && values[i..] == before[i..]
        invariant Placed(NotNulls(inputs[..i]), Nulls(inputs[..i]), notNullIdx, nullIdx)
      {
        TailStep(values, before, i);
        notNullIdx, nullIdx := PlaceInput(i, notNullIdx, nullIdx, inputs);
      }
      assert inputs[..|inputs|] == inputs;
      AllPlaced(NotNulls(inputs), Nulls(inputs), notNullIdx, nullIdx);
    }

    /** The four sorters: not-null ids with their values, and null ids, each by id. */
    method SortColumns(ghost inputs: seq<Input>)
      requires Cur() == Ids(NotNulls(inputs)) + Ids(Nulls(inputs)) && numNotNullCols == |NotNulls(inputs)|
      requires numNotNullCols <= |values| && values[..numNotNullCols] == Vals(NotNulls(inputs))
      modifies this`colIDs, this`colIDs32, this`values
      ensures Cur() == Ids(Sort(NotNulls(inputs))) + Ids(Sort(Nulls(inputs)))
      ensures numNotNullCols <= |values| && values[..numNotNullCols] == Vals(Sort(NotNulls(inputs)))
    {
      var n := numNotNullCols;
      ColumnsAgain(NotNulls(inputs), inputs);
      SortKeeps(NotNulls(inputs));
      var ids := Cur();
      assert ids[..n] == Ids(NotNulls(inputs)) && ids[n..] == Ids(Nulls(inputs));
      var sorted, nulls := Sort(Columns(ids[..n], values[..n])), Sort(NullColumns(ids[n..]));
      if large { colIDs32 := Ids(sorted) + Ids(nulls); } else { colIDs := Ids(sorted) + Ids(nulls); }
      values := Vals(sorted) + values[n..];
    }

    /** The first values are in the data and their ends among the offsets of the layout in use. */
    ghost predicate Filled(cols: seq<Column>, i: nat, startedLarge: bool, stale: seq<nat>)
      reads this
    {
      && numNotNullCols == |cols| && i <= |cols| && data == Data(cols[..i])
      && (large <==> startedLarge || |data| > 0xFFFF)
      && if large then |offsets32| == |cols| && forall j :: 0 <= j < i ==> offsets32[j] == Ends(cols)[j] % U32
         else |offsets| == |cols| && offsets32 == stale && forall j :: 0 <= j < i ==> offsets[j] == Ends(cols)[j]
    }

    /** Go over to the large layout: ids and the offsets so far are copied. */
    method Widen(i: nat, ghost cols: seq<Column>, ghost startedLarge: bool, ghost stale: seq<nat>)
      requires !large && numNotNullCols == |cols| && i < |cols| == |offsets|
      requires forall j :: 0 <= j < i ==> offsets[j] == Ends(cols)[j] <= 0xFFFF
      modifies this`large, this`colIDs32, this`offsets32
      ensures large && Cur() == old(Cur()) && |offsets32| == |cols|
      ensures forall j :: 0 <= j < i ==> offsets32[j] == Ends(cols)[j] % U32
    {
      colIDs32 := colIDs;
      offsets32 := Resize(offsets32, numNotNullCols);
      for j := 0 to i + 1
        invariant colIDs32 == colIDs && !large
        invariant |offsets32| == |cols| && forall k :: 0 <= k < j ==> offsets32[k] == offsets[k]
      {
        offsets32 := offsets32[j := offsets[j]];
      }
      large := true;
    }

    method AddValue(i: nat, ghost cols: seq<Column>, ghost startedLarge: bool, ghost stale: seq<nat>)
      requires Filled(cols, i, startedLarge, stale) && i < |cols| <= |values| && values[i] == Some(cols[i].value)
      modifies this`large, this`colIDs32, this`offsets, this`offsets32, this`data
      ensures Filled(cols, i + 1, startedLarge, stale) && Cur() == old(Cur())
    {
      EndsAt(cols, i);
      if !large {
        forall j | 0 <= j < i ensures Ends(cols)[j] <= 0xFFFF {
          DataPrefix(cols[..i], j + 1);
          assert cols[..i][..j + 1] == cols[..j + 1];
        }
      }
      data := data + values[i].value;
      if |data| > 0xFFFF && !large { Widen(i, cols, startedLarge, stale); }
      if large {
        offsets32 := offsets32[i := |data| % U32];
      } else {
        offsets := offsets[i := |data| % U16];
      }
    }

    method Fill(ghost cols: seq<Column>, ghost stale: seq<nat>)
      requires Filled(cols, 0, large, stale) && |cols| <= |values| && values[..|cols|] == Vals(cols)
      modifies this`large, this`colIDs32, this`offsets, this`offsets32, this`data
      ensures Filled(cols, |cols|, old(large), stale) && Cur() == old(Cur())
    {
      for i := 0 to numNotNullCols
        invariant Filled(cols, i, old(large), stale) && Cur() == old(Cur())
      {
        assert values[i] == values[..|cols|][i] == Vals(cols)[i];
        AddValue(i, cols, old(large), stale);
      }
    }

    lemma FilledLeaves(inputs: seq<Input>, cols: seq<Column>, startedLarge: bool, stale: seq<nat>)
      requires Filled(cols, |cols|, startedLarge, stale) && cols == Sort(NotNulls(inputs))
      requires startedLarge <==> AnyLargeId(inputs)
      ensures offsets32 == Leaves(inputs, stale)
    {
      assert cols[..|cols|] == cols;
      if large { assert offsets32 == ModAll(Ends(cols), U32); }
    }

    /** The row as it stands in the buffers. */
    function CurRow(): Row
      reads this
    {
      Row(large, numNotNullCols, numNullCols, Cur(), if large then offsets32 else offsets, data)
    }

    /** Offsets left in the 32-bit buffer replace the small ones; one too many is a panic. */
    method CopyBack() returns (ok: bool)
      modifies this`offsets
      ensures ok <==> |offsets32| <= |old(offsets)|
      ensures ok ==> offsets == ModAll(offsets32, U16) + old(offsets)[|offsets32|..]
    {
      for i := 0 to |offsets32|
        invariant i <= |offsets| == |old(offsets)|
        invariant forall k :: 0 <= k < i ==> offsets[k] == offsets32[k] % U16
        invariant offsets[i..] == old(offsets)[i..]
      {
        if i >= |offsets| { return false; }
        assert offsets[i..][1..] == offsets[i + 1..] && old(offsets)[i..][1..] == old(offsets)[i + 1..];
        offsets := offsets[i := offsets32[i] % U16];
      }
      assert offsets[..|offsets32|] == ModAll(offsets32, U16);
      return true;
    }

    /** Settle the layout; false is a panic. */
    method Finish(ghost cols: seq<Column>, ghost startedLarge: bool, ghost stale: seq<nat>) returns (ok: bool)
      requires Filled(cols, |cols|, startedLarge, stale)
      modifies this`large, this`colIDs32, this`offsets
      ensures ok <==> old(large) || |data| == 0xFFFF || |stale| <= |cols|
      ensures ok ==> Cur() == old(Cur())
      ensures ok && old(large) ==> CurRow() == old(CurRow())
      ensures ok && !old(large) && |data| == 0xFFFF ==> large && offsets32 == stale
      ensures ok && !old(large) && |data| != 0xFFFF ==>
                !large && offsets == ModAll(stale, U16) + old(offsets)[|stale|..]
    {
      ok := true;
      if !large {
        if |data| >= 0xFFFF {
          large := true;
          colIDs32 := colIDs;
        } else {
          ok := CopyBack();
        }
      }
    }

    /** Lay the row out as it stands. */
    method Write() returns (buf: seq<byte>)
      ensures buf == Layout(CurRow())
    {
      var flag: byte := if large then 1 else 0;
      buf := [CODEC_VER, flag] + LittleEndian(numNotNullCols, 2) + LittleEndian(numNullCols, 2);
      if large {
        buf := buf + Pack(colIDs32, 4) + Pack(offsets32, 4);
      } else {
        buf := buf + Pack(colIDs, 1) + Pack(offsets, 2);
      }
      buf := buf + data;
    }

    /** Encode a row with whatever the buffers hold from earlier ones; `None` is a panic. */
    method Encode(ids: seq<nat>, vals: seq<Option<seq<byte>>>) returns (r: Option<seq<byte>>)
      requires |ids| == |vals| && Encodable(Zip(ids, vals))
      modifies this
      ensures r == match Assemble(Zip(ids, vals), old(offsets32))
                   case None => None
                   case Some(row) => Some(Layout(row))
      ensures offsets32 == Leaves(Zip(ids, vals), old(offsets32))
    {
      Reset();
      ghost var inputs := Zip(ids, vals);
      assert inputs[..0] == [] && Zip([], []) == [];
      for i := 0 to |ids|
        invariant Added(inputs[..i]) && offsets32 == old(offsets32)
      {
        AddColumn(ids[i], vals[i], inputs[..i]);
        assert inputs[..i] + [inputs[i]] == inputs[..i + 1];
      }
      assert inputs[..|ids|] == inputs;
      r := Build(inputs);
    }

    /** Settle the layout and lay the row out; `None` is a panic. */
    method Emit(ghost inputs: seq<Input>, ghost stale: seq<nat>) returns (r: Option<seq<byte>>)
      requires Filled(Sort(NotNulls(inputs)), |Sort(NotNulls(inputs))|, AnyLargeId(inputs), stale)
      requires Cur() == Ids(Sort(NotNulls(inputs))) + Ids(Sort(Nulls(inputs))) && numNullCols == |Sort(Nulls(inputs))|
      modifies this`large, this`colIDs32, this`offsets
      ensures r == match Assemble(inputs, stale) case None => None case Some(row) => Some(Layout(row))
    {
      ghost var filled, cols := CurRow(), Sort(NotNulls(inputs));
      assert cols[..|cols|] == cols;
      var ok := Finish(cols, AnyLargeId(inputs), stale);
      if !ok { return None; }
      FillAssembles(inputs, filled, CurRow(), stale);
      var buf := Write();
      return Some(buf);
    }

    method Build(ghost inputs: seq<Input>) returns (r: Option<seq<byte>>)
      requires Added(inputs) && Encodable(inputs)
      modifies this
      ensures r == match Assemble(inputs, old(offsets32)) case None => None case Some(row) => Some(Layout(row))
      ensures offsets32 == Leaves(inputs, old(offsets32))
    {
      ghost var stale, cols := offsets32, Sort(NotNulls(inputs));
      SortKeeps(NotNulls(inputs));
      SortKeeps(Nulls(inputs));
      InitBuffers();
      Separate(inputs);
      SortColumns(inputs);
      assert cols[..0] == [];
      Fill(cols, stale);
      FilledLeaves(inputs, cols, AnyLargeId(inputs), stale);
      r := Emit(inputs, stale);
    }
  }

  // ---------------------------------------------------------------- the decoder

  /** Both parts of the ids are in ascending order, as the searches expect. */
  ghost predicate Searchable(r: Row) {
    Shaped(r) && Ascending(r.ids[..r.numNotNull]) && Ascending(r.ids[r.numNotNull..])
  }

  /** A row with the ids of encoded columns can be searched. */
  lemma EncodedSearchable(r: Row, inputs: seq<Input>)
    requires Encodable(inputs) && HasIds(r, inputs)
    ensures Searchable(r)
  {
    Arranged(inputs);
    assert r.ids[..r.numNotNull] == Ids(Sort(NotNulls(inputs))) && r.ids[r.numNotNull..] == Ids(Sort(Nulls(inputs)));
  }

  /** The answer that one of the stored columns gives. */
  function CellAt(r: Row, h: nat): Cell
    requires h < |r.offsets|
  {
    match GetData(r, h) case None => Broken case Some(b) => Value(b)
  }

  /** An id can only be found from position `a` up to position `b`. */
  ghost predicate Narrowed(part: seq<nat>, id: int, a: nat, b: nat) {
    (forall k :: 0 <= k < a && k < |part| ==> part[k] < id) && (forall k :: b <= k < |part| ==> part[k] > id)
  }

  lemma NarrowedMore(part: seq<nat>, id: int, a: nat, b: nat, h: nat)
    requires Ascending(part) && Narrowed(part, id, a, b) && a <= h < b <= |part|
    ensures part[h] < id ==> Narrowed(part, id, h + 1, b)
    ensures part[h] > id ==> Narrowed(part, id, a, h)
  {
  }

  class Decoder {
    var row: Row

    constructor (r: Row)
      ensures row == r
    {
      row := r;
    }

    /** Binary search in one part of the ids: a hit is one, and in an ascending part every id is found. */
    method Search(lo: nat, hi: nat, colID: int) returns (at: Option<nat>)
      requires lo <= hi <= |row.ids|
      ensures at.Some? ==> lo <= at.value < hi && row.ids[at.value] == colID
      ensures Ascending(row.ids[lo..hi]) ==>
                at == match Find(row.ids[lo..hi], colID) case None => None case Some(k) => Some(lo + k)
    {
      ghost var part := row.ids[lo..hi];
      FindMeans(part, colID);
      var i, j := lo, hi;
      while i < j
        invariant lo <= i <= j <= hi
        invariant Ascending(part) ==> Narrowed(part, colID, i - lo, j - lo)
      {
        var h := (i + j) / 2;
        var v := row.ids[h];
        assert v == part[h - lo];
        if Ascending(part) { NarrowedMore(part, colID, i - lo, j - lo, h - lo); }
        if v < colID {
          i := h + 1;
        } else if v > colID {
          j := h;
        } else {
          if Ascending(part) { FindAscending(part, h - lo); }
          return Some(h);
        }
      }
      return None;
    }

    method IsNull(colID: int, default: Option<seq<byte>>) returns (b: bool)
      requires Shaped(row)
      ensures default.None? ==> b
      ensures Searchable(row) ==> (b <==> Find(row.ids[row.numNotNull..], colID).Some? || default.None?)
    {
      var end := row.numNotNull + row.numNull;
      assert row.ids[row.numNotNull..end] == row.ids[row.numNotNull..];
      var at := Search(row.numNotNull, end, colID);
      return at.Some? || default.None?;
    }

    /** The answer for one requested column; rows that an encoder lays out can always be searched. */
    method DecodeColumn(colID: int, default: Option<seq<byte>>) returns (cell: Cell)
      requires Shaped(row)
      ensures Searchable(row) ==> cell == CellOf(row, colID, default)
      ensures || cell == Null || cell == DefaultCell(default)
              || exists h: nat :: h < row.numNotNull && row.ids[h] == colID && cell == CellAt(row, h)
    {
      FindMeans(row.ids[..row.numNotNull], colID);
      assert row.ids[0..row.numNotNull] == row.ids[..row.numNotNull];
      var at := Search(0, row.numNotNull, colID);
      if at.Some? {
        var colData := GetData(row, at.value);
        return if colData.None? then Broken else Value(colData.value);
      }
      var isNull := IsNull(colID, default);
      return if isNull then Null else Value(default.value);
    }

    /** Whether a column counts as null: the same as its answer being null. */
    method ColumnIsNull(colID: int, default: Option<seq<byte>>) returns (b: bool)
      requires Shaped(row)
      ensures Searchable(row) ==> (b <==> CellOf(row, colID, default) == Null)
    {
      FindMeans(row.ids[..row.numNotNull], colID);
      assert row.ids[0..row.numNotNull] == row.ids[..row.numNotNull];
      var at := Search(0, row.numNotNull, colID);
      if at.Some? { return false; }
      b := IsNull(colID, default);
    }
  }

  /**
   Encode a row and decode one of its columns: with the encoder in whatever state earlier rows left it, the answer
   is the right one if the row is unharmed. `None` stands for a row that cannot be read at all.
   */
  method EncodeAndDecode(encoder: Encoder, ids: seq<nat>, vals: seq<Option<seq<byte>>>, colID: int,
                         default: Option<seq<byte>>)
    returns (cell: Option<Cell>)
    requires |ids| == |vals| && Encodable(Zip(ids, vals)) && FitsWidth(encoder.offsets32, 4)
    modifies encoder
    ensures FitsWidth(encoder.offsets32, 4)
    ensures Unharmed(Zip(ids, vals), old(encoder.offsets32)) ==> cell == Some(Expected(Zip(ids, vals), colID, default))
  {
    ghost var inputs, stale := Zip(ids, vals), encoder.offsets32;
    ReusedRoundTrip(inputs, stale);
    Widths();
    var out := encoder.Encode(ids, vals);
    if out == None { return None; }
    var parsed := SetRowData(out.value);
    if !parsed.Parsed? || |parsed.row.ids| != parsed.row.numNotNull + parsed.row.numNull { return None; }
    var decoder := new Decoder(parsed.row);
    if Unharmed(inputs, stale) { EncodedSearchable(parsed.row, inputs); }
    var answer := decoder.DecodeColumn(colID, default);
    return Some(answer);
  }

  /** A fresh encoder and a decoder answer rightly if the row is not lost; FreshRoundTrip shows that condition exact. */
  method FreshEncodeAndDecode(ids: seq<nat>, vals: seq<Option<seq<byte>>>, colID: int, default: Option<seq<byte>>)
    returns (cell: Option<Cell>)
    requires |ids| == |vals| && Encodable(Zip(ids, vals))
    ensures var inputs := Zip(ids, vals);
            var length := |Data(NotNulls(inputs))|;
            length < U32 && (length != 0xFFFF || AnyLargeId(inputs)) ==> cell == Some(Expected(inputs, colID, default))
  {
    FreshRoundTrip(Zip(ids, vals));
    ReusedRoundTrip(Zip(ids, vals), []);
    var encoder := new Encoder();
    cell := EncodeAndDecode(encoder, ids, vals, colID, default);
  }

  // ---------------------------------------------------------------- integer values

  /** The shortest of 1, 2, 4 and 8 bytes that hold a signed number. */
  function IntWidth(i: int): nat {
    if -0x80 <= i < 0x80 then 1
    else if -0x8000 <= i < 0x8000 then 2
    else if -0x8000_0000 <= i < 0x8000_0000 then 4
    else 8
  }

  function UintWidth(u: nat): nat {
    if u < U8 then 1 else if u < U16 then 2 else if u < U32 then 4 else 8
  }

  /** Two's complement. */
  function EncodeInt(i: int): seq<byte>
    requires -0x8000_0000_0000_0000 <= i < 0x8000_0000_0000_0000
  {
    var w := IntWidth(i);
    var modulus := if w == 1 then U8 else if w == 2 then U16 else if w == 4 then U32 else U64;
    LittleEndian(if i >= 0 then i else i + modulus, w)
  }

  function EncodeUint(u: nat): seq<byte>
    requires u < U64
  {
    LittleEndian(u, UintWidth(u))
  }

  function Signed(n: nat, modulus: nat): int {
    if n < modulus / 2 then n else n - modulus
  }

  /** By the length of the value; too few bytes are a panic. */
  function DecodeInt(val: seq<byte>): Option<int> {
    if |val| == 1 then Some(Signed(FromLittleEndian(val), U8))
    else if |val| == 2 then Some(Signed(FromLittleEndian(val), U16))
    else if |val| == 4 then Some(Signed(FromLittleEndian(val), U32))
    else if |val| >= 8 then Some(Signed(FromLittleEndian(val[..8]), U64))
    else None
  }

  function DecodeUint(val: seq<byte>): Option<nat> {
    if |val| in {1, 2, 4} then Some(FromLittleEndian(val))
    else if |val| >= 8 then Some(FromLittleEndian(val[..8]))
    else None
  }

  /** A signed number of `w` bytes. */
  predicate HoldsInt(w: nat, i: int) {
    match w
    case 1 => -0x80 <= i < 0x80
    case 2 => -0x8000 <= i < 0x8000
    case 4 => -0x8000_0000 <= i < 0x8000_0000
    case 8 => -0x8000_0000_0000_0000 <= i < 0x8000_0000_0000_0000
    case _ => false
  }

  /** No shorter form of 1, 2, 4 or 8 bytes holds the number. */
  lemma IntIsShortest(i: int, w: nat)
    requires HoldsInt(8, i) && HoldsInt(w, i)
    ensures |EncodeInt(i)| <= w && HoldsInt(|EncodeInt(i)|, i)
  {
  }

  lemma UintIsShortest(u: nat, w: nat)
    requires u < U64 && w in {1, 2, 4, 8} && u < Pow256(w)
    ensures |EncodeUint(u)| in {1, 2, 4, 8} && |EncodeUint(u)| <= w && u < Pow256(|EncodeUint(u)|)
  {
    Widths();
    Pow256Eight();
  }

  lemma IntRoundTrip(i: int)
    requires -0x8000_0000_0000_0000 <= i < 0x8000_0000_0000_0000
    ensures DecodeInt(EncodeInt(i)) == Some(i)
  {
    Widths();
    Pow256Eight();
    var w := IntWidth(i);
    var n := if i >= 0 then i else i + (if w == 1 then U8 else if w == 2 then U16 else if w == 4 then U32 else U64);
    LittleEndianRoundTrip(n, w);
    assert w == 8 ==> EncodeInt(i)[..8] == EncodeInt(i);
  }

  lemma UintRoundTrip(u: nat)
    requires u < U64
    ensures DecodeUint(EncodeUint(u)) == Some(u)
  {
    Widths();
    Pow256Eight();
    LittleEndianRoundTrip(u, UintWidth(u));
    assert UintWidth(u) == 8 ==> EncodeUint(u)[..8] == EncodeUint(u);
  }
}
