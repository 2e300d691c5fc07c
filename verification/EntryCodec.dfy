/** Base 128 varints and the wire format of a log entry, in the Protocol Buffers encoding. */
module EntryCodec {
  import opened Common
  import opened Bytes
  import opened RaftTypes

  // ---------------------------------------------------------------- varints

  function Varint(v: nat): seq<byte> {
    if v < 128 then [v] else [v % 128 + 128] + Varint(v / 128)
  }

  /** Read up to the first byte below 128, at most ten bytes counted from `k`: the number and where it ends. */
  function ReadFrom(s: seq<byte>, at: nat, k: nat): (r: Option<(nat, nat)>)
    ensures r.Some? ==> at < r.value.1 <= |s|
    decreases 10 - k
  {
    if k >= 10 || at >= |s| then None
    else if s[at] < 128 then Some((s[at], at + 1))
    else
      match ReadFrom(s, at + 1, k + 1)
      case None => None
      case Some((v, next)) => Some((s[at] - 128 + 128 * v, next))
  }

  /** The number as a 64-bit word, which drops what does not fit. */
  function ReadVarint(s: seq<byte>, at: nat): (r: Option<(nat, nat)>)
    ensures r.Some? ==> at < r.value.1 <= |s| && r.value.0 < U64
  {
    match ReadFrom(s, at, 0)
    case None => None
    case Some((v, next)) => Some((v % U64, next))
  }

  /** `x` stands at position `at` of `s`. */
  predicate StandsAt(s: seq<byte>, at: nat, x: seq<byte>) {
    at + |x| <= |s| && s[at..at + |x|] == x
  }

  /** The input has a byte below 128 at `k` and none of the bytes from `at` before it is. */
  ghost predicate EndsVarint(s: seq<byte>, at: nat, k: nat) {
    at <= k < |s| && s[k] < 128 && forall i :: at <= i < k ==> s[i] >= 128
  }

  /** A varint is read exactly when it ends within the bytes that may be read, and then through its end. */
  lemma {:induction false} ReadFromEnds(s: seq<byte>, at: nat, k: nat, end: nat)
    requires EndsVarint(s, at, end)
    ensures ReadFrom(s, at, k).Some? <==> end - at < 10 - k
    ensures ReadFrom(s, at, k).Some? ==> ReadFrom(s, at, k).value.1 == end + 1
    decreases end - at
  {
    if at < end { ReadFromEnds(s, at + 1, k + 1, end); }
  }

  lemma {:induction false} ReadFromOpen(s: seq<byte>, at: nat, k: nat)
    requires forall i :: at <= i < |s| ==> s[i] >= 128
    ensures ReadFrom(s, at, k) == None
    decreases 10 - k
  {
    if k < 10 { ReadFromOpen(s, at + 1, k + 1); }
  }

  /** A number ends at the first byte below 128, which must be among ten. */
  lemma ReadVarintEnds(s: seq<byte>, at: nat, end: nat)
    requires EndsVarint(s, at, end)
    ensures ReadVarint(s, at).Some? <==> end < at + 10
    ensures ReadVarint(s, at).Some? ==> ReadVarint(s, at).value.1 == end + 1
  {
    ReadFromEnds(s, at, 0, end);
  }

  /** If there is no such byte, nothing is read. */
  lemma ReadVarintOpen(s: seq<byte>, at: nat)
    requires forall i :: at <= i < |s| ==> s[i] >= 128
    ensures ReadVarint(s, at) == None
  {
    ReadFromOpen(s, at, 0);
  }

  lemma StandsAtParts(s: seq<byte>, at: nat, x: seq<byte>, y: seq<byte>)
    requires StandsAt(s, at, x + y)
    ensures StandsAt(s, at, x) && StandsAt(s, at + |x|, y)
  {
    assert s[at..at + |x|] == s[at..at + |x + y|][..|x|] == x;
    assert s[at + |x|..at + |x| + |y|] == s[at..at + |x + y|][|x|..] == y;
  }

  function Pow128(n: nat): nat {
    if n == 0 then 1 else 128 * Pow128(n - 1)
  }

  lemma {:induction false} ReadFromVarint(s: seq<byte>, at: nat, k: nat, v: nat)
    requires k < 10 && v < Pow128(10 - k) && StandsAt(s, at, Varint(v))
    ensures ReadFrom(s, at, k) == Some((v, at + |Varint(v)|))
    decreases v
  {
    assert s[at] == Varint(v)[0] by { assert s[at] == s[at..at + |Varint(v)|][0]; }
    if v >= 128 {
      StandsAtParts(s, at, [v % 128 + 128], Varint(v / 128));
      assert Pow128(1) == 128;
      ReadFromVarint(s, at + 1, k + 1, v / 128);
    }
  }

  lemma Pow128Ten()
    ensures Pow128(10) >= U64
  {
    assert Pow128(5) == 0x8_0000_0000;
    assert Pow128(10) == 128 * (128 * (128 * (128 * (128 * Pow128(5)))));
  }

  /** Every 64-bit number is read back, wherever its varint stands. */
  lemma VarintRoundTrip(s: seq<byte>, at: nat, v: nat)
    requires v < U64 && StandsAt(s, at, Varint(v))
    ensures ReadVarint(s, at) == Some((v, at + |Varint(v)|))
  {
    Pow128Ten();
    ReadFromVarint(s, at, 0, v);
  }

  lemma {:induction false} VarintLength(v: nat, n: nat)
    requires n > 0 && v < Pow128(n)
    ensures 1 <= |Varint(v)| <= n
  {
    if v >= 128 {
      assert Pow128(1) == 128;
      VarintLength(v / 128, n - 1);
    }
  }

  /** sovEraftpb: the length of a varint. */
  method Sov(x: nat) returns (n: nat)
    ensures n == |Varint(x)|
  {
    n := 0;
    var rest := x;
    while true
      invariant n + |Varint(rest)| == |Varint(x)|
      decreases rest
    {
      n := n + 1;
      if rest / 128 == 0 { break; }
      rest := rest / 128;
    }
  }

  /** encodeVarintEraftpb: write the varint at an offset and return the offset behind it. */
  method EncodeVarint(buf: array<byte>, offset: nat, v: nat) returns (next: nat)
    requires offset + |Varint(v)| <= buf.Length
    modifies buf
    ensures next == offset + |Varint(v)|
    ensures forall i :: offset <= i < next ==> buf[i] == Varint(v)[i - offset]
    ensures forall i :: 0 <= i < offset || next <= i < buf.Length ==> buf[i] == old(buf[i])
  {
    var rest := v;
    next := offset;
    ghost var whole := Varint(v);
    while rest >= 128
      invariant offset <= next <= offset + |whole| && Varint(rest) == whole[next - offset..]
      invariant forall i :: offset <= i < next ==> buf[i] == whole[i - offset]
      invariant forall i :: 0 <= i < offset || next <= i < buf.Length ==> buf[i] == old(buf[i])
      decreases rest
    {
      assert Varint(rest)[0] == whole[next - offset] && Varint(rest)[1..] == whole[next + 1 - offset..];
      buf[next] := rest % 128 + 128;
      rest := rest / 128;
      next := next + 1;
    }
    assert Varint(rest)[0] == whole[next - offset];
    buf[next] := rest;
    next := next + 1;
  }

  /** What is read altogether, once `value` has been accumulated and the rest weighs `weight`. */
  function Resume(value: nat, weight: nat, rest: Option<(nat, nat)>): Option<(nat, nat)> {
    if rest.None? then None else Some((value + weight * rest.value.0, rest.value.1))
  }

  lemma ResumeStep(s: seq<byte>, at: nat, k: nat, value: nat, weight: nat, more: nat)
    requires k < 10 && at < |s| && more == value + weight * (s[at] % 128)
    ensures Resume(value, weight, ReadFrom(s, at, k)) ==
            if s[at] < 128 then Some((more, at + 1)) else Resume(more, weight * 128, ReadFrom(s, at + 1, k + 1))
  {
    var rest := ReadFrom(s, at + 1, k + 1);
    if s[at] >= 128 && rest.Some? {
      var digit, v := s[at] % 128, rest.value.0;
      assert weight * (digit + 128 * v) == weight * digit + (weight * 128) * v;
    }
  }

  lemma ResumeStart(rest: Option<(nat, nat)>)
    ensures Resume(0, 1, rest) == rest
  {
  }

  /** The shift-and-accumulate loop of the decoder; `weight` stands for one shifted by seven bits per byte. */
  method ReadLoop(s: seq<byte>, start: nat) returns (r: Option<(nat, nat)>)
    ensures r == ReadFrom(s, start, 0)
  {
    var value: nat, weight: nat, at: nat, k: nat := 0, 1, start, 0;
    ghost var whole := ReadFrom(s, start, 0);
    ResumeStart(whole);
    while true
      invariant k <= 10 && Resume(value, weight, ReadFrom(s, at, k)) == whole
      decreases 10 - k
    {
      if k >= 10 || at >= |s| { return None; }
      var b := s[at];
      var more: nat := value + weight * (b % 128);
      ResumeStep(s, at, k, value, weight, more);
      value, at := more, at + 1;
      if b < 128 { return Some((value, at)); }
      weight, k := weight * 128, k + 1;
    }
  }

  method DecodeVarint(s: seq<byte>, start: nat) returns (r: Option<(nat, nat)>)
    ensures r == ReadVarint(s, start)
  {
    var whole := ReadLoop(s, start);
    if whole == None { return None; }
    return Some((whole.value.0 % U64, whole.value.1));
  }

  // ---------------------------------------------------------------- entries

  const U31: nat := 0x8000_0000

  const U32: nat := 0x1_0000_0000

  const U63: nat := 0x8000_0000_0000_0000

  const ZERO_ENTRY := Entry(0, 0, 0, [])

  function NumberField(tag: byte, v: nat): seq<byte> {
    if v == 0 then [] else [tag] + Varint(v)
  }

  function DataField(data: seq<byte>): seq<byte> {
    if data == [] then [] else [0x22] + Varint(|data|) + data
  }

  /** The encoding: a tagged field for everything that is not zero or empty. */
  function Encoding(e: Entry): seq<byte> {
    NumberField(0x08, e.entryType) + NumberField(0x10, e.term) + NumberField(0x18, e.index) + DataField(e.data)
  }

  /** A field of the protobuf wire format, with its number. */
  datatype Field = Number(field: nat, v: nat) | Delimited(field: nat, bytes: seq<byte>)

  /** Its bytes: a key of field number and wire type, and then the number, or the length and the bytes. */
  function Wire(f: Field): seq<byte> {
    match f
    case Number(n, v) => Varint(8 * n) + Varint(v)
    case Delimited(n, b) => Varint(8 * n + 2) + Varint(|b|) + b
  }

  function WireAll(fs: seq<Field>): seq<byte> {
    if fs == [] then [] else WireAll(fs[..|fs| - 1]) + Wire(fs[|fs| - 1])
  }

  function NumberFields(e: Entry): seq<Field> {
    (if e.entryType == 0 then [] else [Number(1, e.entryType)]) +
    (if e.term == 0 then [] else [Number(2, e.term)]) +
    (if e.index == 0 then [] else [Number(3, e.index)])
  }

  /** The fields of an entry in the order of their numbers, without those that have their default value. */
  function FieldsOf(e: Entry): seq<Field> {
    NumberFields(e) + if e.data == [] then [] else [Delimited(4, e.data)]
  }

  lemma WireMore(fs: seq<Field>, f: Field)
    ensures WireAll(fs + [f]) == WireAll(fs) + Wire(f) && fs + [] == fs
  {
    assert (fs + [f])[..|fs|] == fs;
  }

  lemma WireNumber(fs: seq<Field>, n: nat, v: nat)
    requires 1 <= n < 16
    ensures WireAll(fs + if v == 0 then [] else [Number(n, v)]) == WireAll(fs) + NumberField((8 * n) as byte, v)
  {
    WireMore(fs, Number(n, v));
    assert Varint(8 * n) == [(8 * n) as byte];
  }

  lemma WireData(fs: seq<Field>, data: seq<byte>)
    ensures WireAll(fs + if data == [] then [] else [Delimited(4, data)]) == WireAll(fs) + DataField(data)
  {
    WireMore(fs, Delimited(4, data));
    assert Varint(34) == [0x22];
  }

  lemma NumbersAreWire(e: Entry)
    ensures WireAll(NumberFields(e)) ==
            NumberField(0x08, e.entryType) + NumberField(0x10, e.term) + NumberField(0x18, e.index)
  {
    var a := if e.entryType == 0 then [] else [Number(1, e.entryType)];
    assert [] + a == a;
    WireNumber([], 1, e.entryType);
    assert WireAll(a) == NumberField(0x08, e.entryType);
    WireNumber(a, 2, e.term);
    WireNumber(a + if e.term == 0 then [] else [Number(2, e.term)], 3, e.index);
  }

  /** The encoding of an entry is the protobuf message with these fields. */
  lemma EncodingIsWire(e: Entry)
    ensures Encoding(e) == WireAll(FieldsOf(e))
  {
    var fs := NumberFields(e);
    WireData(fs, e.data);
    assert WireAll(FieldsOf(e)) == WireAll(fs) + DataField(e.data);
    NumbersAreWire(e);
  }

  /** The longest data whose encoding, with at most 44 bytes around it, is no longer than a slice can be. */
  const MAX_DATA: nat := U63 - 45

  /** The fields hold what their machine types can. */
  predicate Fits(e: Entry) {
    e.entryType < U31 && e.term < U64 && e.index < U64 && |e.data| <= MAX_DATA
  }

  lemma EncodingLength(e: Entry)
    requires Fits(e)
    ensures |Encoding(e)| < U63
  {
    Pow128Ten();
    VarintLength(e.entryType, 10);
    VarintLength(e.term, 10);
    VarintLength(e.index, 10);
    VarintLength(|e.data|, 10);
  }

  datatype Parsed = Done(e: Entry) | Malformed | Panicked | UnknownField(at: nat)

  /** After one field: go on from a position with an entry, or stop. */
  datatype Progress = GoOn(next: nat, e: Entry) | Stop(result: Parsed)

  /**
   Put the number that was read for a field in its place; a data field takes that many bytes. A length that makes
   the end of the data overflow passes the test against the end of the input, and slicing panics.
   */
  function Store(s: seq<byte>, field: nat, v: nat, j: nat, e: Entry): (r: Progress)
    requires 1 <= field <= 4 && j <= |s|
    ensures r.GoOn? ==> j <= r.next <= |s|
  {
    if field == 1 then GoOn(j, e.(entryType := v % U32))
    else if field == 2 then GoOn(j, e.(term := v))
    else if field == 3 then GoOn(j, e.(index := v))
    else if v >= U63 then Stop(Malformed)
    else if j + v >= U63 then Stop(Parsed.Panicked)
    else if j + v > |s| then Stop(Malformed)
    else GoOn(j + v, e.(data := s[j..j + v]))
  }

  function ParseField(s: seq<byte>, at: nat, e: Entry): (r: Progress)
    requires at < |s|
    ensures r.GoOn? ==> at < r.next <= |s|
  {
    match ReadVarint(s, at)
    case None => Stop(Malformed)
    case Some((wire, i)) =>
      var field, wireType := (wire / 8) % U32, wire % 8;
      if wireType == 4 || field == 0 || field >= U31 then Stop(Malformed)
      else if field > 4 then Stop(UnknownField(at))
      else if wireType != (if field == 4 then 2 else 0) then Stop(Malformed)
      else
        match ReadVarint(s, i)
        case None => Stop(Malformed)
        case Some((v, j)) => Store(s, field, v, j, e)
  }

  /** Read the fields from a position on into an entry; later fields overwrite earlier ones. */
  function Parse(s: seq<byte>, at: nat, e: Entry): Parsed
    requires at <= |s|
    decreases |s| - at
  {
    if at == |s| then Done(e)
    else
      match ParseField(s, at, e)
      case GoOn(next, e1) => Parse(s, next, e1)
      case Stop(r) => r
  }

  /** A field with a short key that an entry cannot have: a wrong wire type, number 0, or a group's end. */
  lemma WrongFieldRejected(s: seq<byte>, at: nat, e: Entry)
    requires at < |s| && s[at] < 128
    requires s[at] < 8 || s[at] % 8 == 4 || (s[at] < 32 && s[at] % 8 != 0) || (32 <= s[at] < 40 && s[at] % 8 != 2)
    ensures Parse(s, at, e) == Malformed
  {
    TagRead(s, at, s[at]);
  }

  /** Data that is announced to reach beyond the input is refused, whatever comes before it. */
  lemma TruncatedRejected(s: seq<byte>, at: nat, e: Entry, v: nat, j: nat)
    requires at < |s| < U63 && s[at] == 0x22 && ReadVarint(s, at + 1) == Some((v, j)) && j + v > |s|
    ensures Parse(s, at, e) == if U63 - j <= v < U63 then Parsed.Panicked else Malformed
  {
    TagRead(s, at, 0x22);
  }

  /** A number that does not end is refused. */
  lemma UnendedRejected(s: seq<byte>, at: nat, e: Entry)
    requires at < |s| && ReadVarint(s, at) == None
    ensures Parse(s, at, e) == Malformed
  {
  }

  lemma TagRead(s: seq<byte>, at: nat, tag: byte)
    requires tag < 128 && StandsAt(s, at, [tag])
    ensures ReadVarint(s, at) == Some((tag as nat, at + 1))
  {
    assert s[at] == s[at..at + 1][0];
  }

  /** The tag of a field: its number and its wire type, 2 for bytes and 0 for numbers. */
  function Tag(field: nat): byte
    requires 1 <= field <= 4
  {
    8 * field + if field == 4 then 2 else 0
  }

  /** The entry with a number put into one of its first three fields. */
  function With(e: Entry, field: nat, v: nat): Entry {
    if field == 1 then e.(entryType := v) else if field == 2 then e.(term := v) else e.(index := v)
  }

  lemma FieldRead(s: seq<byte>, at: nat, e: Entry, field: nat, v: nat)
    requires 1 <= field <= 4 && v < U64 && StandsAt(s, at, [Tag(field)] + Varint(v))
    ensures ParseField(s, at, e) == Store(s, field, v, at + 1 + |Varint(v)|, e)
  {
    StandsAtParts(s, at, [Tag(field)], Varint(v));
    TagRead(s, at, Tag(field));
    VarintRoundTrip(s, at + 1, v);
  }

  /** A field that can be stored is read, and parsing goes on behind it. */
  lemma FieldParses(s: seq<byte>, at: nat, e: Entry, field: nat, v: nat, p: Progress)
    requires 1 <= field <= 4 && v < U64 && StandsAt(s, at, [Tag(field)] + Varint(v))
    requires p == Store(s, field, v, at + 1 + |Varint(v)|, e) && p.GoOn?
    ensures Parse(s, at, e) == Parse(s, p.next, p.e)
  {
    FieldRead(s, at, e, field, v);
  }

  /** A number field at the front of the rest is read into its place, or skipped over if it was left out. */
  lemma ParseNumber(s: seq<byte>, at: nat, e: Entry, field: nat, v: nat, next: nat)
    requires 1 <= field <= 3 && v < U64 && (field == 1 ==> v < U31)
    requires StandsAt(s, at, NumberField(Tag(field), v)) && With(e, field, 0) == e
    requires next == at + |NumberField(Tag(field), v)|
    ensures Parse(s, at, e) == Parse(s, next, With(e, field, v))
  {
    if v != 0 { FieldParses(s, at, e, field, v, GoOn(next, With(e, field, v))); }
  }

  lemma StoreData(s: seq<byte>, data: seq<byte>, j: nat, e: Entry)
    requires StandsAt(s, j, data) && |s| < U63
    ensures Store(s, 4, |data|, j, e) == GoOn(j + |data|, e.(data := data))
  {
  }

  lemma ParseDataAt(s: seq<byte>, at: nat, e: Entry, head: seq<byte>, data: seq<byte>)
    requires head == [Tag(4)] + Varint(|data|) && |s| < U63
    requires StandsAt(s, at, head) && StandsAt(s, at + |head|, data)
    ensures Parse(s, at, e) == Parse(s, at + |head| + |data|, e.(data := data))
  {
    StoreData(s, data, at + |head|, e);
    FieldParses(s, at, e, 4, |data|, GoOn(at + |head| + |data|, e.(data := data)));
  }

  lemma StandsAtFourParts(a: seq<byte>, b: seq<byte>, c: seq<byte>, d: seq<byte>)
    ensures var s := a + b + c + d;
            StandsAt(s, 0, a) && StandsAt(s, |a|, b) && StandsAt(s, |a| + |b|, c) && StandsAt(s, |a| + |b| + |c|, d)
  {
    var s := a + b + c + d;
    assert s[0..|s|] == s;
    StandsAtParts(s, 0, a + b + c, d);
    StandsAtParts(s, 0, a + b, c);
    StandsAtParts(s, 0, a, b);
  }

  /** The data field, or nothing for no data, stands at the end. */
  ghost predicate DataAtEnd(s: seq<byte>, at: nat, data: seq<byte>) {
    if data == [] then at == |s|
    else
      var head := [Tag(4)] + Varint(|data|);
      StandsAt(s, at, head) && StandsAt(s, at + |head|, data) && |s| == at + |head| + |data|
  }

  lemma ParseEnd(s: seq<byte>, at: nat, e: Entry)
    requires DataAtEnd(s, at, e.data) && |s| < U63
    ensures at <= |s| && Parse(s, at, e.(data := [])) == Done(e)
  {
    if e.data != [] { ParseDataAt(s, at, e.(data := []), [Tag(4)] + Varint(|e.data|), e.data); }
  }

  /** Fields that stand one after another are read one after another. */
  lemma ParseAll(s: seq<byte>, e: Entry, p1: nat, p2: nat, p3: nat)
    requires Fits(e) && |s| < U63
    requires StandsAt(s, 0, NumberField(Tag(1), e.entryType)) && p1 == |NumberField(Tag(1), e.entryType)|
    requires StandsAt(s, p1, NumberField(Tag(2), e.term)) && p2 == p1 + |NumberField(Tag(2), e.term)|
    requires StandsAt(s, p2, NumberField(Tag(3), e.index)) && p3 == p2 + |NumberField(Tag(3), e.index)|
    requires DataAtEnd(s, p3, e.data)
    ensures Parse(s, 0, ZERO_ENTRY) == Done(e)
  {
    var e1 := With(ZERO_ENTRY, 1, e.entryType);
    var e2 := With(e1, 2, e.term);
    ParseNumber(s, 0, ZERO_ENTRY, 1, e.entryType, p1);
    ParseNumber(s, p1, e1, 2, e.term, p2);
    ParseNumber(s, p2, e2, 3, e.index, p3);
    ParseEnd(s, p3, e);
  }

  lemma EndsWithData(s: seq<byte>, at: nat, data: seq<byte>)
    requires StandsAt(s, at, DataField(data)) && |s| == at + |DataField(data)|
    ensures DataAtEnd(s, at, data)
  {
    if data != [] { StandsAtParts(s, at, [Tag(4)] + Varint(|data|), data); }
  }

  /** Every entry is decoded from its encoding. */
  lemma EntryRoundTrip(e: Entry)
    requires Fits(e)
    ensures Parse(Encoding(e), 0, ZERO_ENTRY) == Done(e)
  {
    var a, b, c := NumberField(0x08, e.entryType), NumberField(0x10, e.term), NumberField(0x18, e.index);
    var d := DataField(e.data);
    EncodingLength(e);
    StandsAtFourParts(a, b, c, d);
    EndsWithData(Encoding(e), |a| + |b| + |c|, e.data);
    ParseAll(Encoding(e), e, |a|, |a| + |b|, |a| + |b| + |c|);
  }

  method Size(e: Entry) returns (n: nat)
    ensures n == |Encoding(e)|
  {
    n := 0;
    if e.entryType != 0 {
      var l := Sov(e.entryType);
      n := n + 1 + l;
    }
    if e.term != 0 {
      var l := Sov(e.term);
      n := n + 1 + l;
    }
    if e.index != 0 {
      var l := Sov(e.index);
      n := n + 1 + l;
    }
    if |e.data| > 0 {
      var l := Sov(|e.data|);
      n := n + 1 + |e.data| + l;
    }
  }

  lemma TagThenCode(out: seq<byte>, tag: byte, code: seq<byte>)
    requires |out| == 1 + |code| && out[0] == tag && forall i :: 1 <= i < |out| ==> out[i] == code[i - 1]
    ensures out == [tag] + code
  {
  }

  method PutTagged(buf: array<byte>, at: nat, tag: byte, v: nat) returns (next: nat)
    requires at + 1 + |Varint(v)| <= buf.Length
    modifies buf
    ensures next == at + 1 + |Varint(v)|
    ensures buf[at..next] == [tag] + Varint(v) && buf[..at] == old(buf[..at])
  {
    buf[at] := tag;
    next := EncodeVarint(buf, at + 1, v);
    TagThenCode(buf[at..next], tag, Varint(v));
  }

  method PutNumber(buf: array<byte>, at: nat, tag: byte, v: nat) returns (next: nat)
    requires at + |NumberField(tag, v)| <= buf.Length
    modifies buf
    ensures next == at + |NumberField(tag, v)|
    ensures buf[at..next] == NumberField(tag, v) && buf[..at] == old(buf[..at])
  {
    next := at;
    if v != 0 { next := PutTagged(buf, at, tag, v); }
  }

  method Copy(buf: array<byte>, at: nat, data: seq<byte>) returns (next: nat)
    requires at + |data| <= buf.Length
    modifies buf
    ensures next == at + |data| && buf[at..next] == data && buf[..at] == old(buf[..at])
  {
    next := at;
    while next < at + |data|
      invariant at <= next <= at + |data|
      invariant buf[at..next] == data[..next - at] && buf[..at] == old(buf[..at])
    {
      buf[next] := data[next - at];
      next := next + 1;
    }
  }

  method PutData(buf: array<byte>, at: nat, data: seq<byte>) returns (next: nat)
    requires at + |DataField(data)| <= buf.Length
    modifies buf
    ensures next == at + |DataField(data)|
    ensures buf[at..next] == DataField(data) && buf[..at] == old(buf[..at])
  {
    next := at;
    if |data| > 0 {
      ghost var tagged := [0x22] + Varint(|data|);
      var from := PutTagged(buf, next, 0x22, |data|);
      assert buf[..from][at..] == tagged;
      next := Copy(buf, from, data);
      assert buf[..at] == buf[..from][..at];
      Joined(buf[at..next], from - at, tagged, data);
    }
  }

  lemma Joined(whole: seq<byte>, mid: nat, head: seq<byte>, part: seq<byte>)
    requires mid <= |whole| && whole[..mid] == head && whole[mid..] == part
    ensures whole == head + part
  {
  }

  method PutNumbers(buf: array<byte>, e: Entry) returns (next: nat)
    requires |Encoding(e)| <= buf.Length
    modifies buf
    ensures next <= buf.Length
    ensures buf[..next] == NumberField(0x08, e.entryType) + NumberField(0x10, e.term) + NumberField(0x18, e.index)
  {
    ghost var a, b := NumberField(0x08, e.entryType), NumberField(0x10, e.term);
    var p1 := PutNumber(buf, 0, 0x08, e.entryType);
    assert buf[..p1] == a;
    var p2 := PutNumber(buf, p1, 0x10, e.term);
    Joined(buf[..p2], p1, a, b);
    next := PutNumber(buf, p2, 0x18, e.index);
    Joined(buf[..next], p2, a + b, NumberField(0x18, e.index));
  }

  /** MarshalTo writes the encoding at the front of the buffer and returns its length. */
  method MarshalTo(e: Entry, buf: array<byte>) returns (n: nat)
    requires |Encoding(e)| <= buf.Length
    modifies buf
    ensures n == |Encoding(e)| && buf[..n] == Encoding(e)
  {
    var p := PutNumbers(buf, e);
    ghost var numbers := buf[..p];
    n := PutData(buf, p, e.data);
    Joined(buf[..n], p, numbers, DataField(e.data));
  }

  /** A buffer of Size() bytes is filled exactly. */
  method Marshal(e: Entry) returns (out: seq<byte>)
    ensures out == Encoding(e)
  {
    var size := Size(e);
    var buf := new byte[size];
    var n := MarshalTo(e, buf);
    out := buf[..n];
  }

  /** One round of the decoding loop: a tag, and the field it announces. */
  method UnmarshalField(s: seq<byte>, at: nat, e: Entry) returns (p: Progress)
    requires at < |s|
    ensures p == ParseField(s, at, e)
  {
    var tag := DecodeVarint(s, at);
    if tag == None { return Stop(Malformed); }
    var (wire, i) := tag.value;
    var fieldNum, wireType := (wire / 8) % U32, wire % 8;
    if wireType == 4 || fieldNum == 0 || fieldNum >= U31 { return Stop(Malformed); }
    if fieldNum > 4 { return Stop(UnknownField(at)); }
    if wireType != if fieldNum == 4 then 2 else 0 { return Stop(Malformed); }
    var number := DecodeVarint(s, i);
    if number == None { return Stop(Malformed); }
    var (v, j) := number.value;
    p := PutField(s, fieldNum, v, j, e);
  }

  method PutField(s: seq<byte>, fieldNum: nat, v: nat, j: nat, e: Entry) returns (p: Progress)
    requires 1 <= fieldNum <= 4 && j <= |s|
    ensures p == Store(s, fieldNum, v, j, e)
  {
    if fieldNum == 1 { return GoOn(j, e.(entryType := v % U32)); }
    if fieldNum == 2 { return GoOn(j, e.(term := v)); }
    if fieldNum == 3 { return GoOn(j, e.(index := v)); }
    if v >= U63 { return Stop(Malformed); }
    if j + v >= U63 { return Stop(Parsed.Panicked); }
    if j + v > |s| { return Stop(Malformed); }
    return GoOn(j + v, e.(data := s[j..j + v]));
  }

  method Unmarshal(s: seq<byte>) returns (r: Parsed)
    ensures r == Parse(s, 0, ZERO_ENTRY)
  {
    var e, at := ZERO_ENTRY, 0;
    while at < |s|
      invariant 0 <= at <= |s| && Parse(s, at, e) == Parse(s, 0, ZERO_ENTRY)
      decreases |s| - at
    {
      var p := UnmarshalField(s, at, e);
      if p.Stop? { return p.result; }
      at, e := p.next, p.e;
    }
    return Done(e);
  }
}
