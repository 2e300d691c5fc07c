/** The memcomparable encoding: groups of eight bytes, each followed by a marker that counts its padding. */
module BytesCodec {
  import opened Common
  import opened Bytes

  const GROUP: nat := 8
  const MARKER: byte := 0xFF

  /** The first `n` bytes, padded with zeros. */
  function Pad(a: Key, n: nat): (p: Key)
    ensures |p| == n
  {
    if n == 0 then [] else if a == [] then [0] + Pad([], n - 1) else [a[0]] + Pad(a[1..], n - 1)
  }

  /** The marker of the group that a string starts with. */
  function Mark(a: Key): byte {
    if |a| >= GROUP then MARKER else MARKER - (GROUP - |a|)
  }

  function Encode(data: Key): Key {
    Pad(data, GROUP) + [Mark(data)] + if |data| >= GROUP then Encode(data[GROUP..]) else []
  }

  /** The data and what is left over. */
  function Decode(b: Key): (r: Option<(Key, Key)>) {
    if |b| < GROUP + 1 || MARKER - b[GROUP] > GROUP then None
    else
      var kept := GROUP - (MARKER - b[GROUP]);
      if kept == GROUP then
        match Decode(b[GROUP + 1..])
        case None => None
        case Some((data, left)) => Some((b[..GROUP] + data, left))
      else if forall i :: kept <= i < GROUP ==> b[i] == 0 then Some((b[..kept], b[GROUP + 1..]))
      else None
  }

  /** Padding, byte by byte. */
  lemma {:induction false} PadSteps(a: Key, n: nat)
    ensures forall i :: 0 <= i < n ==> Pad(a, n)[i] == if i < |a| then a[i] else 0
  {
    if n > 0 { PadSteps(if a == [] then [] else a[1..], n - 1); }
  }

  lemma FirstGroup(data: Key, i: nat)
    requires i < GROUP
    ensures |Encode(data)| >= 9 && Encode(data)[i] == if i < |data| then data[i] else 0
    ensures Encode(data)[8] == if 8 <= |data| then 255 else 255 - (8 - |data|)
  {
    PadSteps(data, GROUP);
    var rest := if |data| >= GROUP then Encode(data[GROUP..]) else [];
    assert Encode(data) == Pad(data, GROUP) + [Mark(data)] + rest;
  }

  lemma LaterGroups(data: Key, x: nat)
    requires |data| >= GROUP && x < |Encode(data[GROUP..])|
    ensures 9 + x < |Encode(data)| && Encode(data)[9 + x] == Encode(data[GROUP..])[x]
  {
    var group := Pad(data, GROUP) + [Mark(data)];
    assert |group| == 9 && Encode(data) == group + Encode(data[GROUP..]);
  }

  /** Group `g` of an encoding: eight bytes of the data, zeros behind its end, and 255 less the number of zeros. */
  lemma {:induction false} EncodedGroup(data: Key, g: nat, i: nat)
    requires GROUP * g <= |data| && i < GROUP
    ensures |Encode(data)| >= 9 * g + 9
    ensures Encode(data)[9 * g + i] == if 8 * g + i < |data| then data[8 * g + i] else 0
    ensures Encode(data)[9 * g + 8] == if 8 * g + 8 <= |data| then 255 else 255 - (8 * g + 8 - |data|)
  {
    if g == 0 {
      FirstGroup(data, i);
    } else {
      EncodedGroup(data[GROUP..], g - 1, i);
      LaterGroups(data, 9 * (g - 1) + i);
      LaterGroups(data, 9 * (g - 1) + 8);
    }
  }

  // ---------------------------------------------------------------- order

  /** Padded groups that differ are ordered like the strings. */
  lemma {:induction false} PadOrdered(a: Key, b: Key, n: nat)
    requires Pad(a, n) != Pad(b, n)
    ensures Before(Pad(a, n), Pad(b, n)) <==> Before(a, b)
  {
    var x, y := if a == [] then [] else a[1..], if b == [] then [] else b[1..];
    if n > 0 && Pad(a, n)[0] == Pad(b, n)[0] {
      assert Pad(a, n)[1..] == Pad(x, n - 1) && Pad(b, n)[1..] == Pad(y, n - 1);
      PadOrdered(x, y, n - 1);
    }
  }

  lemma {:induction false} PadTakes(a: Key, n: nat)
    ensures |a| >= n ==> Pad(a, n) == a[..n]
    ensures |a| < n ==> Pad(a, n)[..|a|] == a && forall i :: |a| <= i < n ==> Pad(a, n)[i] == 0
  {
    if n > 0 {
      PadTakes(if a == [] then [] else a[1..], n - 1);
      if 0 < |a| < n {
        assert Pad(a, n)[..|a|] == [a[0]] + Pad(a[1..], n - 1)[..|a| - 1];
      }
    }
  }

  /** Strings with equal groups agree on their first bytes, as far as both go. */
  lemma SameStart(a: Key, b: Key, n: nat)
    requires Pad(a, GROUP) == Pad(b, GROUP) && n == Min(Min(|a|, |b|), GROUP)
    ensures a[..n] == b[..n]
  {
    PadTakes(a, GROUP);
    PadTakes(b, GROUP);
    assert |a| < GROUP ==> Pad(a, GROUP)[..|a|][..n] == Pad(a, GROUP)[..n];
    assert |b| < GROUP ==> Pad(b, GROUP)[..|b|][..n] == Pad(b, GROUP)[..n];
  }

  lemma SplitCompare(a: Key, b: Key, n: nat)
    requires n <= |a| && n <= |b| && a[..n] == b[..n]
    ensures Before(a, b) <==> Before(a[n..], b[n..])
    ensures a == b <==> a[n..] == b[n..]
  {
    assert a == a[..n] + a[n..] && b == b[..n] + b[n..];
    BeforeUnderPrefix(a[..n], a[n..], b[n..]);
  }

  /** Equal groups: the markers decide, and where they agree too, what follows. */
  lemma SameGroup(a: Key, b: Key)
    requires Pad(a, GROUP) == Pad(b, GROUP)
    ensures Mark(a) != Mark(b) ==> (Before(a, b) <==> Mark(a) < Mark(b))
    ensures Mark(a) == Mark(b) && |a| < GROUP ==> a == b
    ensures |a| >= GROUP && |b| >= GROUP ==> (a == b <==> a[GROUP..] == b[GROUP..])
    ensures |a| >= GROUP && |b| >= GROUP ==> (Before(a, b) <==> Before(a[GROUP..], b[GROUP..]))
  {
    var n := Min(Min(|a|, |b|), GROUP);
    SameStart(a, b, n);
    SplitCompare(a, b, n);
  }

  /** Group, marker and tail are compared one after the other. */
  lemma TripleOrdered(g: Key, m: byte, t: Key, h: Key, n: byte, u: Key)
    requires |g| == |h|
    ensures Before(g + ([m] + t), h + ([n] + u)) <==>
            if g != h then Before(g, h) else if m != n then m < n else Before(t, u)
  {
    if g != h {
      BeforeByHead(g, h, [m] + t, [n] + u);
    } else {
      BeforeUnderPrefix(g, [m] + t, [n] + u);
      assert ([m] + t)[1..] == t && ([n] + u)[1..] == u;
    }
  }

  /** What follows the first group and its marker. */
  function Tail(a: Key, x: Key): Key {
    (if |a| >= GROUP then Encode(a[GROUP..]) else []) + x
  }

  lemma EncodeSplits(a: Key, x: Key)
    ensures Encode(a) + x == Pad(a, GROUP) + ([Mark(a)] + Tail(a, x))
  {
  }

  /** Whatever follows them, the encodings of different strings are ordered like the strings. */
  lemma {:induction false} EncodeOrdered(a: Key, b: Key, x: Key, y: Key)
    requires a != b
    ensures Before(Encode(a) + x, Encode(b) + y) <==> Before(a, b)
    decreases |a|
  {
    EncodeSplits(a, x);
    EncodeSplits(b, y);
    TripleOrdered(Pad(a, GROUP), Mark(a), Tail(a, x), Pad(b, GROUP), Mark(b), Tail(b, y));
    if Pad(a, GROUP) != Pad(b, GROUP) {
      PadOrdered(a, b, GROUP);
    } else {
      SameGroup(a, b);
      if Mark(a) == Mark(b) { EncodeOrdered(a[GROUP..], b[GROUP..], x, y); }
    }
  }

  /** No encoding is a prefix of another one. */
  lemma PrefixFree(a: Key, b: Key, x: Key)
    requires Encode(a) + x == Encode(b)
    ensures a == b && x == []
  {
    if a != b {
      assert Encode(b) == Encode(b) + [];
      EncodeOrdered(a, b, x, []);
      EncodeOrdered(b, a, [], x);
      BeforeTotal(a, b);
      BeforeIrreflexive(Encode(b));
    }
  }

  // ---------------------------------------------------------------- inverse

  lemma DecodeStep(a: Key, rest: Key)
    ensures var b := Pad(a, GROUP) + [Mark(a)] + rest;
            Decode(b) == if |a| < GROUP then Some((a, rest))
                         else match Decode(rest) case None => None case Some((d, left)) => Some((a[..GROUP] + d, left))
  {
    PadTakes(a, GROUP);
    var b := Pad(a, GROUP) + [Mark(a)] + rest;
    assert b[GROUP + 1..] == rest && b[..GROUP] == Pad(a, GROUP) && b[GROUP] == Mark(a);
    if |a| < GROUP {
      assert b[..|a|] == b[..GROUP][..|a|];
      assert forall i :: |a| <= i < GROUP ==> b[i] == b[..GROUP][i];
    }
  }

  /** Data and leftover are recovered from any encoding followed by anything. */
  lemma {:induction false} DecodeEncode(data: Key, left: Key)
    ensures Decode(Encode(data) + left) == Some((data, left))
    decreases |data|
  {
    var rest := (if |data| >= GROUP then Encode(data[GROUP..]) else []) + left;
    assert Encode(data) + left == Pad(data, GROUP) + [Mark(data)] + rest;
    DecodeStep(data, rest);
    if |data| >= GROUP {
      DecodeEncode(data[GROUP..], left);
      assert data[..GROUP] + data[GROUP..] == data;
    }
  }

  lemma PadIs(a: Key, p: Key)
    requires |a| < GROUP == |p| && p[..|a|] == a && forall i :: |a| <= i < GROUP ==> p[i] == 0
    ensures Pad(a, GROUP) == p
  {
    PadTakes(a, GROUP);
    assert forall i :: 0 <= i < |a| ==> Pad(a, GROUP)[i] == Pad(a, GROUP)[..|a|][i] == p[..|a|][i];
  }

  /** Only encodings followed by something are accepted. */
  lemma {:induction false} DecodeAcceptsOnlyEncoded(b: Key)
    requires Decode(b).Some?
    ensures b == Encode(Decode(b).value.0) + Decode(b).value.1
    decreases |b|
  {
    var (data, left) := Decode(b).value;
    var kept := GROUP - (MARKER - b[GROUP]);
    assert b == b[..GROUP] + [b[GROUP]] + b[GROUP + 1..];
    if kept == GROUP {
      DecodeAcceptsOnlyEncoded(b[GROUP + 1..]);
      PadTakes(data, GROUP);
      assert data[..GROUP] == b[..GROUP] && data[GROUP..] == Decode(b[GROUP + 1..]).value.0;
    } else {
      assert b[..GROUP][..kept] == data;
      PadIs(data, b[..GROUP]);
    }
  }

  // ---------------------------------------------------------------- the loops

  const PADS: Key := [0, 0, 0, 0, 0, 0, 0, 0]

  method EncodeGroup(data: Key, idx: nat) returns (group: Key)
    requires idx <= |data|
    ensures group == Pad(data[idx..], GROUP) + [Mark(data[idx..])]
  {
    ghost var rest := data[idx..];
    var remain := |data| - idx;
    var padCount := 0;
    if remain >= GROUP {
      group := data[idx..idx + GROUP];
      PadTakes(rest, GROUP);
      assert group == rest[..GROUP];
    } else {
      padCount := GROUP - remain;
      group := data[idx..] + PADS[..padCount];
      PadIs(rest, group);
    }
    group := group + [MARKER - padCount];
  }

  method EncodeBytes(data: Key) returns (result: Key)
    ensures result == Encode(data)
  {
    result := [];
    var idx := 0;
    assert data[0..] == data;
    while idx <= |data|
      invariant idx <= |data| ==> result + Encode(data[idx..]) == Encode(data)
      invariant idx > |data| ==> result == Encode(data)
      decreases |data| + GROUP - idx
    {
      var group := EncodeGroup(data, idx);
      EncodeStep(data, idx, result, group);
      result := result + group;
      idx := idx + GROUP;
    }
  }

  lemma EncodeStep(data: Key, idx: nat, result: Key, group: Key)
    requires idx <= |data| && group == Pad(data[idx..], GROUP) + [Mark(data[idx..])]
    ensures result + Encode(data[idx..]) ==
            if idx + GROUP <= |data| then result + group + Encode(data[idx + GROUP..]) else result + group
  {
    var rest := data[idx..];
    if idx + GROUP <= |data| {
      assert rest[GROUP..] == data[idx + GROUP..];
      assert Encode(rest) == group + Encode(data[idx + GROUP..]);
    } else {
      assert Encode(rest) == group + [] == group;
    }
  }

  method DecodeBytes(input: Key) returns (r: Option<(Key, Key)>)
    ensures r == Decode(input)
  {
    var data: Key, b: Key := [], input;
    assert forall d: Key :: data + d == d;
    while true
      invariant Decode(input) == match Decode(b) case None => None case Some((d, left)) => Some((data + d, left))
      decreases |b|
    {
      if |b| < GROUP + 1 { return None; }
      var group, marker := b[..GROUP], b[GROUP];
      var padCount := MARKER - marker;
      if padCount > GROUP { return None; }
      var size := GROUP - padCount;
      ghost var whole := b;
      b := b[GROUP + 1..];
      if padCount != 0 {
        var i := size;
        while i < GROUP
          invariant size <= i <= GROUP && forall j :: size <= j < i ==> whole[j] == 0
        {
          if group[i] != 0 { return None; }
          i := i + 1;
        }
        assert group[..size] == whole[..size];
        return Some((data + group[..size], b));
      }
      assert forall d: Key :: data + (group + d) == data + group[..size] + d;
      data := data + group[..size];
    }
  }
}
