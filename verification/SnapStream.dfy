/** Column-family files sent as one stream of chunks and put together again by the receiver. */
module SnapStream {
  import opened Common

  const CHUNK_LEN: nat := 1024 * 1024

  // ---------------------------------------------------------------- streams and files

  /** The first `n` pieces one after another. */
  function Concat(pieces: seq<seq<byte>>, n: nat): seq<byte>
    requires n <= |pieces|
  {
    if n == 0 then [] else Concat(pieces, n - 1) + pieces[n - 1]
  }

  function Stream(pieces: seq<seq<byte>>): seq<byte> {
    Concat(pieces, |pieces|)
  }

  /** How many bytes the first `n` files take. */
  function Total(sizes: seq<nat>, n: nat): nat
    requires n <= |sizes|
  {
    if n == 0 then 0 else Total(sizes, n - 1) + sizes[n - 1]
  }

  function Sizes(contents: seq<seq<byte>>): seq<nat> {
    seq(|contents|, i requires 0 <= i < |contents| => |contents[i]|)
  }

  lemma {:induction false} TotalGrows(sizes: seq<nat>, i: nat, j: nat)
    requires i <= j <= |sizes|
    ensures Total(sizes, i) <= Total(sizes, j)
  {
    if i < j { TotalGrows(sizes, i, j - 1); }
  }

  lemma {:induction false} ConcatLength(contents: seq<seq<byte>>, n: nat)
    requires n <= |contents|
    ensures |Concat(contents, n)| == Total(Sizes(contents), n)
  {
    if n > 0 { ConcatLength(contents, n - 1); }
  }

  lemma {:induction false} ConcatPrefix(contents: seq<seq<byte>>, i: nat, j: nat)
    requires i <= j <= |contents|
    ensures Concat(contents, i) <= Concat(contents, j)
  {
    if i < j { ConcatPrefix(contents, i, j - 1); }
  }

  /** File `i` occupies its own stretch of the stream. */
  lemma FileInStream(contents: seq<seq<byte>>, i: nat)
    requires i < |contents|
    ensures var sizes, s := Sizes(contents), Stream(contents);
            && Total(sizes, i) <= Total(sizes, i + 1) <= |s|
            && s[Total(sizes, i)..Total(sizes, i + 1)] == contents[i]
  {
    ConcatLength(contents, i);
    ConcatLength(contents, i + 1);
    ConcatPrefix(contents, i + 1, |contents|);
    var sizes, s := Sizes(contents), Stream(contents);
    assert s[..Total(sizes, i + 1)] == Concat(contents, i) + contents[i];
    assert s[Total(sizes, i)..Total(sizes, i + 1)] == s[..Total(sizes, i + 1)][Total(sizes, i)..];
  }

  /** The files after the first bytes of a stream have been spread over them, in order of their sizes. */
  function Spread(sizes: seq<nat>, bytes: seq<byte>): (files: seq<seq<byte>>)
    ensures |files| == |sizes|
  {
    seq(|sizes|, i requires 0 <= i < |sizes| => FilePart(sizes, bytes, i))
  }

  function FilePart(sizes: seq<nat>, bytes: seq<byte>, i: nat): seq<byte>
    requires i < |sizes|
  {
    bytes[Min(Total(sizes, i), |bytes|)..Min(Total(sizes, i + 1), |bytes|)]
  }

  /** The whole stream, spread over files of the right sizes, gives back their contents. */
  lemma Reassembled(contents: seq<seq<byte>>)
    ensures Spread(Sizes(contents), Stream(contents)) == contents
  {
    forall i | 0 <= i < |contents| ensures Spread(Sizes(contents), Stream(contents))[i] == contents[i] {
      FileInStream(contents, i);
    }
  }

  lemma FilePartAppend(sizes: seq<nat>, bytes: seq<byte>, d: seq<byte>, c: nat, i: nat)
    requires c < |sizes| && Total(sizes, c) <= |bytes| && |bytes| + |d| <= Total(sizes, c + 1) && i < |sizes|
    ensures FilePart(sizes, bytes + d, i) == if i == c then FilePart(sizes, bytes, i) + d else FilePart(sizes, bytes, i)
  {
    if i < c {
      TotalGrows(sizes, i + 1, c);
      assert (bytes + d)[Total(sizes, i)..Total(sizes, i + 1)] == bytes[Total(sizes, i)..Total(sizes, i + 1)];
    } else if i > c {
      TotalGrows(sizes, c + 1, i);
    } else {
      assert (bytes + d)[Total(sizes, c)..|bytes + d|] == bytes[Total(sizes, c)..] + d;
    }
  }

  /** Bytes that fit into file `c` go there and nowhere else. */
  lemma SpreadAppend(sizes: seq<nat>, bytes: seq<byte>, d: seq<byte>, c: nat)
    requires c < |sizes| && Total(sizes, c) <= |bytes| && |bytes| + |d| <= Total(sizes, c + 1)
    ensures Spread(sizes, bytes + d) == Spread(sizes, bytes)[c := Spread(sizes, bytes)[c] + d]
  {
    forall i | 0 <= i < |sizes|
      ensures Spread(sizes, bytes + d)[i] == Spread(sizes, bytes)[c := Spread(sizes, bytes)[c] + d][i]
    {
      FilePartAppend(sizes, bytes, d, c, i);
    }
  }

  // ---------------------------------------------------------------- the sender

  class Sender {
    const contents: seq<seq<byte>>
    var cfIndex: nat
    /** How far the file at the index has been read. */
    var pos: nat

    constructor (contents: seq<seq<byte>>)
      ensures this.contents == contents && Valid() && Offset() == 0
    {
      this.contents := contents;
      cfIndex, pos := 0, 0;
    }

    ghost predicate Valid()
      reads this
    {
      cfIndex <= |contents| && if cfIndex < |contents| then pos <= |contents[cfIndex]| else pos == 0
    }

    /** How much of the stream has been read. */
    ghost function Offset(): nat
      requires Valid()
      reads this
    {
      Total(Sizes(contents), cfIndex) + pos
    }

    /** Some bytes of the current file, at least one and as many as the system cares to give; none at its end. */
    method ReadFile(len: nat) returns (chunk: seq<byte>)
      requires Valid() && cfIndex < |contents| && len > 0
      modifies this`pos
      ensures Valid() && |chunk| <= len && old(pos) + |chunk| == pos <= |contents[cfIndex]|
      ensures chunk == contents[cfIndex][old(pos)..pos]
      ensures chunk == [] <==> old(pos) == |contents[cfIndex]|
    {
      var left := |contents[cfIndex]| - pos;
      if left == 0 { return []; }
      var n: nat :| 1 <= n && n <= len && n <= left;
      chunk := contents[cfIndex][pos..pos + n];
      pos := pos + n;
    }

    /** Read the next bytes of the stream; `None` is the end of it. */
    method Read(len: nat) returns (chunk: Option<seq<byte>>)
      requires Valid() && len > 0
      modifies this
      ensures Valid()
      ensures if old(Offset()) < |Stream(contents)|
              then chunk.Some? && 0 < |chunk.value| <= len &&
                   Offset() == old(Offset()) + |chunk.value| <= |Stream(contents)| &&
                   chunk.value == Stream(contents)[old(Offset())..Offset()]
              else chunk == None && Offset() == old(Offset())
    {
      ghost var start := Offset();
      ConcatLength(contents, |contents|);
      while cfIndex < |contents|
        invariant Valid() && Offset() == start
        decreases |contents| - cfIndex
      {
        FileInStream(contents, cfIndex);
        if |contents[cfIndex]| == 0 {
          cfIndex, pos := cfIndex + 1, 0;
          continue;
        }
        ghost var at := pos;
        var bytes := ReadFile(len);
        if |bytes| > 0 {
          StretchOfFile(cfIndex, at, pos);
          return Some(bytes);
        }
        cfIndex, pos := cfIndex + 1, 0;
      }
      return None;
    }

    lemma StretchOfFile(i: nat, a: nat, b: nat)
      requires i < |contents| && a <= b <= |contents[i]|
      ensures var t := Total(Sizes(contents), i);
              t + b <= |Stream(contents)| && Stream(contents)[t + a..t + b] == contents[i][a..b]
    {
      FileInStream(contents, i);
      var sizes, s := Sizes(contents), Stream(contents);
      var t := Total(sizes, i);
      assert s[t + a..t + b] == s[t..Total(sizes, i + 1)][a..b];
    }

    /** Fill a buffer; `None` if the stream ends before. */
    method ReadFull(len: nat) returns (buf: Option<seq<byte>>)
      requires Valid() && len > 0
      modifies this
      ensures Valid()
      ensures buf.Some? <==> old(Offset()) + len <= |Stream(contents)|
      ensures buf.Some? ==> Offset() == old(Offset()) + len && buf.value == Stream(contents)[old(Offset())..Offset()]
    {
      ghost var start := Offset();
      var read := [];
      while |read| < len
        invariant Valid() && |read| <= len && Offset() == start + |read|
        invariant |read| > 0 ==> Offset() <= |Stream(contents)|
        invariant |read| > 0 ==> read == Stream(contents)[start..Offset()]
        decreases len - |read|
      {
        var chunk := Read(len - |read|);
        if chunk == None { return None; }
        read := read + chunk.value;
      }
      return Some(read);
    }

    /** The chunks that are sent; reading never fails, and nothing remains. */
    method SendSnap() returns (chunks: seq<seq<byte>>, failed: bool)
      requires Valid() && Offset() == 0
      modifies this
      ensures !failed && Stream(chunks) == Stream(contents)
      ensures forall i :: 0 <= i < |chunks| ==> 0 < |chunks[i]| <= CHUNK_LEN
    {
      var remain: nat := TotalSize();
      var bufLen: nat := CHUNK_LEN;
      chunks := [];
      while remain > 0
        invariant Valid() && 0 < bufLen <= CHUNK_LEN && Offset() + remain == |Stream(contents)|
        invariant Stream(chunks) == Stream(contents)[..Offset()]
        invariant forall i :: 0 <= i < |chunks| ==> 0 < |chunks[i]| <= CHUNK_LEN
        decreases remain
      {
        if remain < bufLen { bufLen := remain; }
        ghost var before := Offset();
        var buf := ReadFull(bufLen);
        if buf == None { return chunks, true; }
        StreamAppend(chunks, buf.value);
        chunks := chunks + [buf.value];
        assert Stream(contents)[..before] + Stream(contents)[before..Offset()] == Stream(contents)[..Offset()];
        remain := remain - bufLen;
      }
      assert Stream(contents)[..|Stream(contents)|] == Stream(contents);
      failed := false;
    }

    method TotalSize() returns (total: nat)
      ensures total == |Stream(contents)|
    {
      total := 0;
      for i := 0 to |contents|
        invariant total == Total(Sizes(contents), i)
      {
        total := total + |contents[i]|;
      }
      ConcatLength(contents, |contents|);
    }
  }

  lemma {:induction false} ConcatOfPrefix(chunks: seq<seq<byte>>, more: seq<byte>, n: nat)
    requires n <= |chunks|
    ensures Concat(chunks + [more], n) == Concat(chunks, n)
  {
    if n > 0 { ConcatOfPrefix(chunks, more, n - 1); }
  }

  lemma StreamAppend(chunks: seq<seq<byte>>, more: seq<byte>)
    ensures Stream(chunks + [more]) == Stream(chunks) + more
  {
    ConcatOfPrefix(chunks, more, |chunks|);
  }

  // ---------------------------------------------------------------- the receiver

  /** Every file that is not empty has the checksum announced for it. */
  ghost predicate Matches(digest: seq<byte> -> nat, checksums: seq<nat>, files: seq<seq<byte>>)
    requires |checksums| == |files|
  {
    forall i :: 0 <= i < |files| && files[i] != [] ==> digest(files[i]) == checksums[i]
  }

  lemma TakeMore(b: seq<byte>, taken: nat, more: nat)
    requires taken + more <= |b|
    ensures b[..taken] + b[taken..][..more] == b[..taken + more] && b[taken..][more..] == b[taken + more..]
    ensures taken + more == |b| ==> b[taken..][..more] == b[taken..]
  {
  }

  class Receiver {
    const sizes: seq<nat>
    const checksums: seq<nat>
    const digest: seq<byte> -> nat
    var written: seq<seq<byte>>
    var cfIndex: nat
    /** Everything received so far. */
    ghost var received: seq<byte>

    constructor (sizes: seq<nat>, checksums: seq<nat>, digest: seq<byte> -> nat)
      requires |checksums| == |sizes|
      ensures this.sizes == sizes && this.checksums == checksums && this.digest == digest
      ensures Valid() && received == []
    {
      this.sizes, this.checksums, this.digest := sizes, checksums, digest;
      written := seq(|sizes|, _ => []);
      cfIndex, received := 0, [];
    }

    ghost predicate Valid()
      reads this
    {
      && |checksums| == |sizes| && cfIndex <= |sizes| && written == Spread(sizes, received)
      && Total(sizes, cfIndex) <= |received| <= Total(sizes, |sizes|)
      && (cfIndex < |sizes| ==> |received| <= Total(sizes, cfIndex + 1))
    }

    /** Put bytes that fit into the current file there. */
    method WriteFile(d: seq<byte>)
      requires Valid() && cfIndex < |sizes| && |received| + |d| <= Total(sizes, cfIndex + 1)
      modifies this`written, this`received
      ensures Valid() && received == old(received) + d
    {
      TotalGrows(sizes, cfIndex + 1, |sizes|);
      SpreadAppend(sizes, received, d, cfIndex);
      written := written[cfIndex := written[cfIndex] + d];
      received := received + d;
    }

    lemma LeftInFile()
      requires Valid() && cfIndex < |sizes|
      ensures |written[cfIndex]| == |received| - Total(sizes, cfIndex)
    {
    }

    /** Go on to the next file when the current one is full. */
    method NextFile()
      requires Valid() && cfIndex < |sizes| && |received| == Total(sizes, cfIndex + 1)
      modifies this`cfIndex
      ensures Valid() && cfIndex == old(cfIndex) + 1
    {
      cfIndex := cfIndex + 1;
    }

    /** Write a chunk across the files; the number of bytes taken, which is short when the files are full. */
    method Write(b: seq<byte>) returns (n: nat)
      requires Valid()
      modifies this
      ensures Valid() && n == Min(|b|, Total(sizes, |sizes|) - |old(received)|)
      ensures received == old(received) + b[..n]
    {
      if |b| == 0 { return 0; }
      var nextBuf := b;
      ghost var taken := 0;
      while cfIndex < |sizes|
        invariant Valid() && taken < |b| && nextBuf == b[taken..]
        invariant received == old(received) + b[..taken]
        decreases |sizes| - cfIndex
      {
        LeftInFile();
        var left := sizes[cfIndex] - |written[cfIndex]|;
        if left == 0 {
          NextFile();
          continue;
        }
        if |nextBuf| > left {
          TakeMore(b, taken, left);
          WriteFile(nextBuf[..left]);
          NextFile();
          nextBuf := nextBuf[left..];
          taken := taken + left;
        } else {
          TakeMore(b, taken, |nextBuf|);
          WriteFile(nextBuf);
          return |b|;
        }
      }
      return |b| - |nextBuf|;
    }

    /** Every file that is to hold something has its full size and its checksum. */
    method Save() returns (ok: bool)
      requires Valid()
      ensures ok <==> |received| == Total(sizes, |sizes|) && Matches(digest, checksums, written)
    {
      for i := 0 to |sizes|
        invariant Total(sizes, i) <= |received| && Matches(digest, checksums[..i], written[..i])
      {
        TotalGrows(sizes, i + 1, |sizes|);
        if sizes[i] != 0 {
          if |written[i]| != sizes[i] { return false; }
          if digest(written[i]) != checksums[i] { return false; }
        }
      }
      assert written[..|sizes|] == written && checksums[..|sizes|] == checksums;
      return true;
    }

    /** Take in chunks until the stream ends, then check the files. */
    method RecvSnap(chunks: seq<seq<byte>>) returns (ok: bool)
      requires Valid() && received == []
      modifies this
      ensures ok <==> && (forall i :: 0 <= i < |chunks| ==> chunks[i] != [])
                      && |Stream(chunks)| == Total(sizes, |sizes|)
                      && Matches(digest, checksums, Spread(sizes, Stream(chunks)))
      ensures ok ==> written == Spread(sizes, Stream(chunks))
    {
      assert forall i :: 0 <= i < |chunks| ==> chunks[..i + 1] == chunks[..i] + [chunks[i]];
      for i := 0 to |chunks|
        invariant Valid() && received == Stream(chunks[..i])
        invariant forall j :: 0 <= j < i ==> chunks[j] != []
      {
        var data := chunks[i];
        if |data| == 0 { return false; }
        StreamAppend(chunks[..i], data);
        StreamGrows(chunks, i + 1);
        var n := Write(data);
        if n != |data| { return false; }
        assert data[..n] == data;
      }
      assert chunks[..|chunks|] == chunks;
      ok := Save();
    }
  }

  lemma {:induction false} StreamGrows(chunks: seq<seq<byte>>, i: nat)
    requires i <= |chunks|
    ensures |Stream(chunks[..i])| <= |Stream(chunks)|
    decreases |chunks| - i
  {
    if i < |chunks| {
      assert chunks[..i + 1] == chunks[..i] + [chunks[i]];
      StreamAppend(chunks[..i], chunks[i]);
      StreamGrows(chunks, i + 1);
    } else {
      assert chunks[..i] == chunks;
    }
  }

  function Checksums(contents: seq<seq<byte>>, digest: seq<byte> -> nat): (r: seq<nat>)
    ensures |r| == |contents|
  {
    seq(|contents|, i requires 0 <= i < |contents| => digest(contents[i]))
  }

  /** A file whose bytes have another checksum than the announced one is noticed, unless it is empty. */
  lemma WrongFileNoticed(digest: seq<byte> -> nat, contents: seq<seq<byte>>, received: seq<seq<byte>>, i: nat)
    requires i < |contents| == |received| && received[i] != [] && digest(received[i]) != digest(contents[i])
    ensures !Matches(digest, Checksums(contents, digest), received)
  {
    assert Checksums(contents, digest)[i] == digest(contents[i]);
  }

  /** Any chunks that make up the sender's stream have its size and checksums, and the files are then the sender's. */
  lemma AnyChunkingReassembles(contents: seq<seq<byte>>, chunks: seq<seq<byte>>, digest: seq<byte> -> nat)
    requires Stream(chunks) == Stream(contents)
    ensures |Stream(chunks)| == Total(Sizes(contents), |contents|)
    ensures Spread(Sizes(contents), Stream(chunks)) == contents
    ensures Matches(digest, Checksums(contents, digest), Spread(Sizes(contents), Stream(chunks)))
  {
    ConcatLength(contents, |contents|);
    Reassembled(contents);
  }
}
