/** The random-access reader, without its cache: the leaves that overlap the request, each fetched whole. */
module CafsReadAt {
  import opened Chunking
  import opened Cafs
  import opened CafsReader

  /** A file as a reader sees it; its leaf buffers hold `cap` bytes. */
  datatype File = File(h: Hasher, leafSize: nat, keys: seq<Key>, blobs: Blobs, verify: bool, cap: nat) {

    /** What a buffer holds of a blob: what exceeds it is not read. */
    function Buffered(blob: seq<Byte>): (b: seq<Byte>) {
      if |blob| <= cap then blob else blob[..cap]
    }

    /** Leaf `i` can be fetched, and passes its check if that is on. */
    ghost predicate Readable(i: nat) {
      && i < |keys| && keys[i] in blobs
      && (verify ==> Verified(h, leafSize, keys, i, Buffered(blobs[keys[i]])))
    }

    ghost function Leaf(i: nat): (b: seq<Byte>)
      requires Readable(i)
    {
      Buffered(blobs[keys[i]])
    }

    ghost predicate RunReadable(index: nat, k: nat) {
      forall i: nat | index <= i < index + k :: Readable(i)
    }

    /** `k` consecutive leaves. */
    ghost function Run(index: nat, k: nat): (s: seq<Byte>)
      requires RunReadable(index, k)
    {
      if k == 0 then [] else Run(index, k - 1) + Leaf(index + k - 1)
    }
  }

  /** Reads a blob to its end, or until the buffer is full, in pieces of any size. */
  method FillBuffer(f: File, blob: seq<Byte>, mayFail: bool) returns (b: seq<Byte>, failed: bool)
    ensures !failed ==> b == f.Buffered(blob)
    ensures failed ==> mayFail
  {
    b := [];
    while true
      invariant |b| <= f.cap && |b| <= |blob| && b == blob[..|b|]
      decreases f.cap - |b|
    {
      var n, eof, fault := StoreRead(|blob| - |b|, f.cap - |b|, mayFail);
      if fault { return b, true; }
      b := b + blob[|b| .. |b| + n];
      if eof || n == 0 { return b, false; }
    }
  }

  method ReadLeaf(f: File, index: nat, mayFail: bool) returns (b: seq<Byte>, ok: bool)
    requires index < |f.keys|
    ensures ok ==> f.Readable(index) && b == f.Leaf(index)
    ensures !ok && !mayFail ==> !f.Readable(index)
  {
    var key := f.keys[index];
    if key !in f.blobs { return [], false; }
    var failed: bool;
    b, failed := FillBuffer(f, f.blobs[key], mayFail);
    if failed { return b, false; }
    if f.verify {
      var i, isLast := index + 1, false;
      if index + 1 == |f.keys| && |b| != f.leafSize { i, isLast := index, true; }
      if f.h.leaf(b, i, isLast) != key { return b, false; }
    }
    return b, true;
  }

  datatype AtOutcome = Read(n: nat) | Failed(n: nat) | OutOfRange

  /** The part of `all` from `offset` on, and no more than was asked for. */
  ghost predicate Copied(all: seq<Byte>, offset: nat, got: seq<Byte>, wanted: nat) {
    && offset <= |all|
    && |got| == (if |all| - offset < wanted then |all| - offset else wanted)
    && got == all[offset .. offset + |got|]
  }

  lemma CopyMore(all: seq<Byte>, offset: nat, got: seq<Byte>, wanted: nat, leaf: seq<Byte>, c: nat)
    requires Copied(all, offset, got, wanted) && |got| < wanted
    requires c == if |leaf| < wanted - |got| then |leaf| else wanted - |got|
    ensures Copied(all + leaf, offset, got + leaf[..c], wanted)
  {
    assert |got| == |all| - offset;
    assert (all + leaf)[offset .. offset + |got| + c] == all[offset..] + leaf[..c];
  }

  /** Copies as much as fits behind what is there. */
  method CopyInto(data: array<Byte>, from: nat, bytes: seq<Byte>) returns (c: nat)
    requires from <= data.Length
    modifies data
    ensures c == if |bytes| < data.Length - from then |bytes| else data.Length - from
    ensures data[..from + c] == old(data[..from]) + bytes[..c]
    ensures data[from + c..] == old(data[from + c..])
  {
    c := if |bytes| < data.Length - from then |bytes| else data.Length - from;
    Place(data, from, bytes[..c]);
  }

  /** `got` was copied from `k` leaves, those from `first` on. */
  ghost predicate Got(f: File, first: nat, k: nat, offset: nat, got: seq<Byte>, wanted: nat) {
    k > 0 && f.RunReadable(first, k) && Copied(f.Run(first, k), offset, got, wanted)
  }

  lemma GotFirst(f: File, first: nat, offset: nat, wanted: nat, c: nat)
    requires f.Readable(first) && offset <= |f.Leaf(first)|
    requires c == if |f.Leaf(first)| - offset < wanted then |f.Leaf(first)| - offset else wanted
    ensures Got(f, first, 1, offset, f.Leaf(first)[offset..][..c], wanted)
  {
    var leaf := f.Leaf(first);
    assert f.Run(first, 1) == f.Run(first, 0) + leaf == leaf;
    assert leaf[offset..][..c] == leaf[offset .. offset + c];
  }

  lemma GotMore(f: File, first: nat, k: nat, offset: nat, got: seq<Byte>, wanted: nat, c: nat)
    requires Got(f, first, k, offset, got, wanted) && |got| < wanted && f.Readable(first + k)
    requires c == if |f.Leaf(first + k)| < wanted - |got| then |f.Leaf(first + k)| else wanted - |got|
    ensures Got(f, first, k + 1, offset, got + f.Leaf(first + k)[..c], wanted)
  {
    CopyMore(f.Run(first, k), offset, got, wanted, f.Leaf(first + k), c);
  }

  /** Goes on until the buffer is full or the leaves are used up; `k` counts the leaves used. */
  method ReadOn(f: File, ghost first: nat, start: nat, ghost offset: nat, data: array<Byte>, filled: nat, mayFail: bool)
    returns (r: AtOutcome, ghost k: nat)
    requires first < start <= |f.keys| && filled <= data.Length
    requires Got(f, first, start - first, offset, data[..filled], data.Length)
    modifies data
    ensures first + k <= |f.keys| && !r.OutOfRange?
    ensures filled <= r.n <= data.Length && data[r.n..] == old(data[r.n..])
    ensures Got(f, first, k, offset, data[..r.n], data.Length)
    ensures r.Read? ==> r.n == data.Length || first + k == |f.keys|
    ensures r.Failed? && !mayFail ==> first + k < |f.keys| && !f.Readable(first + k)
  {
    var n, index := filled, start;
    k := start - first;
    while n != data.Length && index < |f.keys|
      invariant index == first + k <= |f.keys|
      invariant filled <= n <= data.Length && data[n..] == old(data[n..])
      invariant Got(f, first, k, offset, data[..n], data.Length)
    {
      var b, ok := ReadLeaf(f, index, mayFail);
      if !ok { return Failed(n), k; }
      ghost var got := data[..n];
      var c := CopyInto(data, n, b);
      GotMore(f, first, k, offset, got, data.Length, c);
      k := k + 1;
      n := n + c;
      index := index + 1;
    }
    return Read(n), k;
  }

  /** The offset lies in the slot of a leaf but beyond its bytes. */
  ghost predicate BeyondLeaf(f: File, off: nat)
    requires f.leafSize > 0
  {
    f.Readable(off / f.leafSize) && |f.Leaf(off / f.leafSize)| < off % f.leafSize
  }

  /** The window of `data.Length` bytes at `off`. An offset inside the last leaf's slot but beyond its end
      slices out of range; one beyond all slots reads nothing. */
  method ReadAt(f: File, data: array<Byte>, off: nat, mayFail: bool) returns (r: AtOutcome, ghost k: nat)
    requires f.leafSize > 0
    modifies data
    ensures off / f.leafSize >= |f.keys| ==> r == Read(0) && data[..] == old(data[..])
    ensures r.Read? ==> r.n <= data.Length && data[r.n..] == old(data[r.n..])
    ensures r.Read? && off / f.leafSize < |f.keys| ==> (
      && off / f.leafSize + k <= |f.keys|
      && Got(f, off / f.leafSize, k, off % f.leafSize, data[..r.n], data.Length)
      && (r.n == data.Length || off / f.leafSize + k == |f.keys|))
    ensures r.OutOfRange? ==> BeyondLeaf(f, off)
    ensures BeyondLeaf(f, off) && !mayFail ==> r.OutOfRange?
    ensures r.Failed? && !mayFail ==> exists i: nat :: i < |f.keys| && !f.Readable(i)
  {
    var index, offset := off / f.leafSize, off % f.leafSize;
    k := 0;
    if index >= |f.keys| { return Read(0), k; }
    var b, ok := ReadLeaf(f, index, mayFail);
    if !ok { return Failed(0), k; }
    if |b| < offset { return OutOfRange, k; }
    var n := CopyInto(data, 0, b[offset..]);
    GotFirst(f, index, offset, data.Length, n);
    assert data[..n] == b[offset..][..n];
    ghost var rest := data[n..];
    r, k := ReadOn(f, index, index + 1, offset, data, n, mayFail);
     assert data[r.n..] == rest[r.n - n..] == old(data[n..])[r.n - n..] == old(data[r.n..]);
  }

  // ---------------------------------------------------------------- files as they were written

  /** Where leaf `i` would start, no further than the end of the content. */
  function Bound(content: seq<Byte>, leafSize: nat, i: nat): (b: nat)
    ensures b <= |content|
  {
    if i * leafSize <= |content| then i * leafSize else |content|
  }

  lemma LeafSlice(content: seq<Byte>, leafSize: nat, i: nat)
    requires leafSize > 0 && i < |Chunks(content, leafSize)|
    ensures Bound(content, leafSize, i) == i * leafSize < Bound(content, leafSize, i + 1)
    ensures Chunks(content, leafSize)[i] == content[i * leafSize .. Bound(content, leafSize, i + 1)]
  {
    ChunkAt(content, leafSize, i);
    assert (i + 1) * leafSize == i * leafSize + leafSize;
  }

  lemma JoinSlices(s: seq<Byte>, a: nat, b: nat, c: nat)
    requires a <= b <= c <= |s|
    ensures s[a..b] + s[b..c] == s[a..c]
  {
  }

  lemma LastBound(content: seq<Byte>, leafSize: nat)
    requires leafSize > 0
    ensures Bound(content, leafSize, |Chunks(content, leafSize)|) == |content|
  {
    ChunkCount(content, leafSize);
  }

  /** The readable leaves among these are the original ones. */
  ghost predicate Original(f: File, content: seq<Byte>)
    requires f.leafSize > 0
  {
    && f.keys == LeafKeys(f.h, f.leafSize, content)
    && forall i: nat :: i < |f.keys| && f.Readable(i) ==> f.Leaf(i) == Chunks(content, f.leafSize)[i]
  }

  /** A run of leaves is a slice of the content. */
  lemma {:induction false} RunIsSlice(f: File, content: seq<Byte>, index: nat, k: nat)
    requires f.leafSize > 0 && Original(f, content)
    requires index + k <= |f.keys| && f.RunReadable(index, k) && k > 0
    ensures index * f.leafSize <= Bound(content, f.leafSize, index + k)
    ensures f.Run(index, k) == content[index * f.leafSize .. Bound(content, f.leafSize, index + k)]
    decreases k
  {
    var L := f.leafSize;
    var last := index + k - 1;
    LeafSlice(content, L, last);
    var leaf := f.Leaf(last);
    if k == 1 {
      assert f.Run(index, 1) == f.Run(index, 0) + leaf == leaf;
    } else {
      RunIsSlice(f, content, index, k - 1);
      JoinSlices(content, index * L, last * L, Bound(content, L, last + 1));
    }
  }

  lemma SliceOfSlice(s: seq<Byte>, a: nat, b: nat, offset: nat, n: nat)
    requires a <= b <= |s| && offset + n <= b - a
    ensures s[a..b][offset .. offset + n] == s[a + offset .. a + offset + n]
  {
    var t, u := s[a..b][offset .. offset + n], s[a + offset .. a + offset + n];
    forall i | 0 <= i < n ensures t[i] == u[i] {
      assert t[i] == s[a..b][offset + i];
    }
  }

  lemma WindowOfSlice(s: seq<Byte>, a: nat, b: nat, offset: nat, got: seq<Byte>, wanted: nat)
    requires a <= b <= |s| && Copied(s[a..b], offset, got, wanted)
    requires |got| == wanted || b == |s|
    ensures Copied(s, a + offset, got, wanted)
  {
    SliceOfSlice(s, a, b, offset, |got|);
  }

  lemma OffsetSplit(off: nat, leafSize: nat)
    requires leafSize > 0
    ensures off == (off / leafSize) * leafSize + off % leafSize
  {
  }

  /** What was copied out of a run is the window of the content. */
  lemma GotIsWindow(f: File, content: seq<Byte>, off: nat, k: nat, got: seq<Byte>, wanted: nat)
    requires f.leafSize > 0 && Original(f, content)
    requires off / f.leafSize + k <= |f.keys|
    requires Got(f, off / f.leafSize, k, off % f.leafSize, got, wanted)
    requires |got| == wanted || off / f.leafSize + k == |f.keys|
    ensures Copied(content, off, got, wanted)
  {
    var L, index, offset := f.leafSize, off / f.leafSize, off % f.leafSize;
    OffsetSplit(off, L);
    RunIsSlice(f, content, index, k);
    LastBound(content, L);
    WindowOfSlice(content, index * L, Bound(content, L, index + k), offset, got, wanted);
  }

  /** Offsets between the end of the content and the end of the last slot, and no others, are out of range. */
  lemma BeyondIffGap(f: File, content: seq<Byte>, off: nat)
    requires f.leafSize > 0 && Original(f, content)
    requires forall i: nat :: i < |f.keys| ==> f.Readable(i)
    ensures BeyondLeaf(f, off) <==> |content| < off < |f.keys| * f.leafSize
    ensures off / f.leafSize >= |f.keys| <==> off >= |f.keys| * f.leafSize
    ensures off >= |f.keys| * f.leafSize ==> off >= |content|
  {
    var L, index := f.leafSize, off / f.leafSize;
    OffsetSplit(off, L);
    ChunkCount(content, L);
    SlotOrder(off, L, |f.keys|);
    if index < |f.keys| {
      LeafSlice(content, L, index);
      SlotOrder(off, L, index + 1);
      assert |f.Leaf(index)| == Bound(content, L, index + 1) - index * L;
    }
  }

  lemma SlotOrder(off: nat, leafSize: nat, i: nat)
    requires leafSize > 0
    ensures off / leafSize < i <==> off < i * leafSize
  {
    var q := off / leafSize;
    OffsetSplit(off, leafSize);
    if q < i {
      assert (q + 1) * leafSize <= i * leafSize;
    } else {
      assert i * leafSize <= q * leafSize;
    }
  }

  /** Every leaf of a stored content is readable and original. */
  lemma StoredIsOriginal(f: File, content: seq<Byte>)
    requires f.leafSize > 0 && f.cap >= f.leafSize && f.keys == LeafKeys(f.h, f.leafSize, content)
    requires Stored(f.h, f.leafSize, content, f.blobs)
    ensures Original(f, content)
    ensures forall i: nat :: i < |f.keys| ==> f.Readable(i)
  {
    ChunksShape(content, f.leafSize);
    forall i: nat | i < |f.keys| ensures f.Readable(i) && f.Leaf(i) == Chunks(content, f.leafSize)[i] {
      WrittenLeafVerifies(f.h, f.leafSize, content, i);
    }
  }

  /** Reading a stored content at any offset gives exactly the window asked for, cut at the end; it goes
      out of range exactly between the end of the content and the end of its last slot. */
  method ReadAtStored(f: File, content: seq<Byte>, data: array<Byte>, off: nat) returns (r: AtOutcome)
    requires f.leafSize > 0 && f.cap >= f.leafSize && f.keys == LeafKeys(f.h, f.leafSize, content)
    requires Stored(f.h, f.leafSize, content, f.blobs)
    modifies data
    ensures r.OutOfRange? <==> |content| < off < |f.keys| * f.leafSize
    ensures !r.OutOfRange? ==> r.Read? && r.n <= data.Length && data[r.n..] == old(data[r.n..])
    ensures off <= |content| ==> Copied(content, off, data[..r.n], data.Length)
    ensures off >= |f.keys| * f.leafSize ==> r == Read(0)
  {
    StoredIsOriginal(f, content);
    BeyondIffGap(f, content, off);
    ghost var k;
    r, k := ReadAt(f, data, off, false);
    if r.Read? && off / f.leafSize < |f.keys| {
      GotIsWindow(f, content, off, k, data[..r.n], data.Length);
    }
  }

  /** With checks on, whatever the store holds, what a read at an offset returns is the original window,
      if no buffered leaf collides with the one that was written. */
  method ReadAtChecked(f: File, content: seq<Byte>, data: array<Byte>, off: nat, mayFail: bool) returns (r: AtOutcome)
    requires f.leafSize > 0 && f.verify && f.keys == LeafKeys(f.h, f.leafSize, content)
    requires forall i: nat :: i < |f.keys| && f.Readable(i) ==>
      !Collide(f.h, f.leafSize, |f.keys|, i, f.Leaf(i), Chunks(content, f.leafSize)[i])
    modifies data
    ensures r.Read? && off <= |content| ==> r.n <= data.Length && Copied(content, off, data[..r.n], data.Length)
  {
    forall i: nat | i < |f.keys| && f.Readable(i) ensures f.Leaf(i) == Chunks(content, f.leafSize)[i] {
      VerifiedIsOriginal(f.h, f.leafSize, content, i, f.Leaf(i));
    }
    ghost var k;
    r, k := ReadAt(f, data, off, mayFail);
    if r.Read? {
      if off / f.leafSize < |f.keys| {
        GotIsWindow(f, content, off, k, data[..r.n], data.Length);
      } else {
        NoLeafLeft(f, content, off);
      }
    }
  }

  lemma NoLeafLeft(f: File, content: seq<Byte>, off: nat)
    requires f.leafSize > 0 && f.keys == LeafKeys(f.h, f.leafSize, content) && off / f.leafSize >= |f.keys|
    ensures off >= |content|
  {
    ChunkCount(content, f.leafSize);
    SlotOrder(off, f.leafSize, |f.keys|);
  }
}
