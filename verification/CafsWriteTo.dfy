/** Copying a file into a destination that takes writes at offsets: one copier for each leaf, all at once. */
module CafsWriteTo {
  import opened Chunking
  import opened Cafs
  import opened CafsReader
  import opened CafsReadAt

  /** A write at an offset; a gap before it is filled with zeroes. */
  function WriteAt(dest: seq<Byte>, at: nat, bytes: seq<Byte>): (d: seq<Byte>)
    ensures |d| == if at + |bytes| < |dest| then |dest| else at + |bytes|
    ensures forall i :: at <= i < at + |bytes| ==> d[i] == bytes[i - at]
    ensures forall i :: 0 <= i < |dest| && !(at <= i < at + |bytes|) ==> d[i] == dest[i]
  {
    var head := if at <= |dest| then dest[..at] else dest + seq(at - |dest|, _ => 0);
    head + bytes + if at + |bytes| < |dest| then dest[at + |bytes|..] else []
  }

  ghost predicate PlacedByte(content: seq<Byte>, dest: seq<Byte>, x: nat) {
    x < |content| && x < |dest| && dest[x] == content[x]
  }

  /** The first `upto` bytes from `start` on are in place. */
  ghost predicate PlacedFrom(content: seq<Byte>, dest: seq<Byte>, start: nat, upto: nat) {
    forall x: nat :: start <= x < start + upto ==> PlacedByte(content, dest, x)
  }

  /** The first `done[i]` bytes of each leaf `i` are in place. */
  ghost predicate InPlace(content: seq<Byte>, leafSize: nat, dest: seq<Byte>, done: seq<nat>) {
    forall i: nat :: i < |done| ==> PlacedFrom(content, dest, i * leafSize, done[i])
  }

  /** Beyond the content the destination is as it was. */
  ghost predicate RestKept(content: seq<Byte>, before: seq<Byte>, dest: seq<Byte>) {
    && |before| <= |dest| && (|dest| <= |content| || |dest| == |before|)
    && forall x: nat :: |content| <= x < |before| ==> dest[x] == before[x]
  }

  /** Writing a slice of the content to its own place disturbs nothing. */
  lemma WriteOriginal(content: seq<Byte>, before: seq<Byte>, dest: seq<Byte>, at: nat, n: nat)
    requires at + n <= |content| && RestKept(content, before, dest)
    ensures var dest' := WriteAt(dest, at, content[at .. at + n]);
      && RestKept(content, before, dest')
      && (forall x: nat :: PlacedByte(content, dest, x) ==> PlacedByte(content, dest', x))
      && PlacedFrom(content, dest', at, n)
  {
    var bytes := content[at .. at + n];
    var dest' := WriteAt(dest, at, bytes);
    forall x: nat | x < |content| && x < |dest'| && (at <= x < at + n || PlacedByte(content, dest, x))
      ensures PlacedByte(content, dest', x)
    {
      if at <= x < at + n { assert dest'[x] == bytes[x - at]; }
    }
  }

  /** One more piece of leaf `i` goes to its place. */
  lemma PieceLands(content: seq<Byte>, leafSize: nat, before: seq<Byte>, dest: seq<Byte>, done: seq<nat>, i: nat, n: nat)
    requires leafSize > 0 && |done| == |Chunks(content, leafSize)| && i < |done|
    requires done[i] + n <= |Chunks(content, leafSize)[i]|
    requires InPlace(content, leafSize, dest, done) && RestKept(content, before, dest)
    ensures var dest' := WriteAt(dest, i * leafSize + done[i], Chunks(content, leafSize)[i][done[i] .. done[i] + n]);
      InPlace(content, leafSize, dest', done[i := done[i] + n]) && RestKept(content, before, dest')
  {
    var leaf, start := Chunks(content, leafSize)[i], i * leafSize;
    LeafSlice(content, leafSize, i);
    SliceOfSlice(content, start, start + |leaf|, done[i], n);
    var at := start + done[i];
    var dest', done' := WriteAt(dest, at, content[at .. at + n]), done[i := done[i] + n];
    WriteOriginal(content, before, dest, at, n);
    forall k: nat | k < |done'| ensures PlacedFrom(content, dest', k * leafSize, done'[k]) {
      assert PlacedFrom(content, dest, k * leafSize, done[k]);
    }
  }

  /** Once every leaf is in place, so is the content. */
  lemma AllInPlace(content: seq<Byte>, leafSize: nat, before: seq<Byte>, dest: seq<Byte>, done: seq<nat>)
    requires leafSize > 0 && |done| == |Chunks(content, leafSize)|
    requires forall i :: 0 <= i < |done| ==> done[i] == |Chunks(content, leafSize)[i]|
    requires InPlace(content, leafSize, dest, done) && RestKept(content, before, dest)
    ensures dest == content + if |content| < |before| then before[|content|..] else []
  {
    forall x: nat | x < |content| ensures PlacedByte(content, dest, x) {
      var i := LeafHolding(content, leafSize, x);
      assert PlacedFrom(content, dest, i * leafSize, done[i]);
    }
    if |content| > 0 { assert PlacedByte(content, dest, |content| - 1); }
    var want := content + if |content| < |before| then before[|content|..] else [];
    forall x: nat | x < |dest| ensures dest[x] == want[x] {
      if x < |content| { assert PlacedByte(content, dest, x); }
    }
  }

  lemma LeafHolding(content: seq<Byte>, leafSize: nat, x: nat) returns (i: nat)
    requires leafSize > 0 && x < |content|
    ensures i < |Chunks(content, leafSize)| && i * leafSize <= x < i * leafSize + |Chunks(content, leafSize)[i]|
  {
    i := x / leafSize;
    OffsetSplit(x, leafSize);
    ChunkCount(content, leafSize);
    SlotOrder(x, leafSize, |Chunks(content, leafSize)|);
    LeafSlice(content, leafSize, i);
    SlotOrder(x, leafSize, i + 1);
  }

  datatype WriteOutcome = Written(n: nat) | WriteFailed

  /** What is copied: a list of keys, and a store that lacks their blobs or holds them. `content` is what the
      blobs hold together, whether or not that is what was written under those keys. */
  datatype Source = Source(leafSize: nat, content: seq<Byte>, keys: seq<Key>, blobs: Blobs) {
    ghost predicate Ok() {
      && leafSize > 0 && |keys| == |Chunks(content, leafSize)|
      && forall i :: 0 <= i < |keys| && keys[i] in blobs ==> blobs[keys[i]] == Chunks(content, leafSize)[i]
    }
  }

  /** Copier `i` has gone as far as it can. */
  ghost predicate Ended(s: Source, done: seq<nat>, failed: bool, i: nat)
    requires s.leafSize > 0 && |done| == |s.keys| == |Chunks(s.content, s.leafSize)| && i < |done|
  {
    if s.keys[i] in s.blobs then done[i] == |Chunks(s.content, s.leafSize)[i]| else failed
  }

  ghost predicate Copying(s: Source, before: seq<Byte>, dest: seq<Byte>, done: seq<nat>, pending: set<nat>, failed: bool)
    requires s.Ok()
  {
    var cs := Chunks(s.content, s.leafSize);
    && |done| == |s.keys| && (forall i :: 0 <= i < |done| ==> done[i] <= |cs[i]|)
    && (forall i :: i in pending ==> i < |done|)
    && (forall i: nat :: i < |done| && i !in pending ==> Ended(s, done, failed, i))
    && (failed ==> Missing(s.keys, s.blobs))
    && InPlace(s.content, s.leafSize, dest, done) && RestKept(s.content, before, dest)
  }

  lemma CopyingBounded(s: Source, before: seq<Byte>, dest: seq<Byte>, done: seq<nat>, pending: set<nat>, failed: bool)
    requires s.Ok() && Copying(s, before, dest, done, pending, failed)
    ensures Sum(done) <= |s.content|
  {
    ChunksShape(s.content, s.leafSize);
    SumBounded(done, Chunks(s.content, s.leafSize));
  }

  /** A copier writes its next piece. */
  lemma CopierWrites(s: Source, before: seq<Byte>, dest: seq<Byte>, done: seq<nat>, pending: set<nat>, failed: bool, i: nat, n: nat)
    requires s.Ok() && Copying(s, before, dest, done, pending, failed)
    requires i in pending && s.keys[i] in s.blobs && done[i] + n <= |s.blobs[s.keys[i]]|
    ensures var dest' := WriteAt(dest, i * s.leafSize + done[i], s.blobs[s.keys[i]][done[i] .. done[i] + n]);
      Copying(s, before, dest', done[i := done[i] + n], pending, failed)
    ensures Sum(done[i := done[i] + n]) == Sum(done) + n
  {
    PieceLands(s.content, s.leafSize, before, dest, done, i, n);
    SumUpdate(done, i, done[i] + n);
    forall k: nat | k < |done| && k !in pending ensures Ended(s, done[i := done[i] + n], failed, k) {
      assert Ended(s, done, failed, k);
    }
  }

  /** A copier has reached the end of its leaf, or could not open it. */
  lemma CopierEnds(s: Source, before: seq<Byte>, dest: seq<Byte>, done: seq<nat>, pending: set<nat>, failed: bool, i: nat)
    requires s.Ok() && Copying(s, before, dest, done, pending, failed)
    requires i in pending && (s.keys[i] in s.blobs ==> done[i] == |s.blobs[s.keys[i]]|)
    ensures Copying(s, before, dest, done, pending - {i}, failed || s.keys[i] !in s.blobs)
  {
    var failed' := failed || s.keys[i] !in s.blobs;
    forall k: nat | k < |done| && k !in pending - {i} ensures Ended(s, done, failed', k) {
      if k !in pending { assert Ended(s, done, failed, k); }
    }
    if s.keys[i] !in s.blobs { assert s.keys[i] in s.keys; }
  }

  lemma CopyingDone(s: Source, before: seq<Byte>, dest: seq<Byte>, done: seq<nat>, failed: bool)
    requires s.Ok() && Copying(s, before, dest, done, {}, failed)
    ensures failed <==> Missing(s.keys, s.blobs)
    ensures !failed ==> Sum(done) == |s.content|
    ensures !failed ==> dest == s.content + if |s.content| < |before| then before[|s.content|..] else []
  {
    forall i: nat | i < |done| && !failed
      ensures s.keys[i] in s.blobs && done[i] == |Chunks(s.content, s.leafSize)[i]|
    {
      assert Ended(s, done, failed, i);
    }
    if !failed {
      ChunksShape(s.content, s.leafSize);
      SumBounded(done, Chunks(s.content, s.leafSize));
      AllInPlace(s.content, s.leafSize, before, dest, done);
    }
  }

  /** Any copier may be next, with a piece of any size; nothing is checked against the keys.
      The destination ends up with what the blobs hold in front, whatever the order. */
  method WriteTo(s: Source, dest: seq<Byte>) returns (r: WriteOutcome, dest': seq<Byte>)
    requires s.Ok()
    ensures r.WriteFailed? <==> Missing(s.keys, s.blobs)
    ensures r.Written? ==> r.n == |s.content|
    ensures r.Written? ==> dest' == s.content + if |s.content| < |dest| then dest[|s.content|..] else []
  {
    var done: seq<nat> := seq(|s.keys|, _ => 0);
    var pending: set<nat> := {};
    var failed, written := false, Sum(done);
    pending := Launch(|s.keys|);
    dest' := dest;
    CopyingBounded(s, dest, dest', done, pending, failed);
    while pending != {}
      invariant Copying(s, dest, dest', done, pending, failed)
      invariant written == Sum(done) <= |s.content|
      decreases |pending|, |s.content| - written
    {
      var i :| i in pending;
      var key := s.keys[i];
      if key !in s.blobs || done[i] == |s.blobs[key]| {
        CopierEnds(s, dest, dest', done, pending, failed, i);
        failed := failed || key !in s.blobs;
        pending := pending - {i};
      } else {
        var n: nat :| 0 < n <= |s.blobs[key]| - done[i];
        CopierWrites(s, dest, dest', done, pending, failed, i, n);
        dest' := WriteAt(dest', i * s.leafSize + done[i], s.blobs[key][done[i] .. done[i] + n]);
        done := done[i := done[i] + n];
        written := written + n;
        CopyingBounded(s, dest, dest', done, pending, failed);
      }
    }
    CopyingDone(s, dest, dest', done, failed);
    return if failed then WriteFailed else Written(written), dest';
  }

  /** One copier for each leaf. */
  method Launch(n: nat) returns (pending: set<nat>)
    ensures forall x: nat :: x in pending <==> x < n
  {
    pending := {};
    for i := 0 to n
      invariant forall x: nat :: x in pending <==> x < i
    {
      pending := pending + {i};
    }
  }

  // ---------------------------------------------------------------- nothing is checked

  /** The blobs stored under the keys of a content, in order; where one is missing, the leaf itself. */
  function Pieces(content: seq<Byte>, leafSize: nat, keys: seq<Key>, blobs: Blobs): (ps: seq<seq<Byte>>)
    requires leafSize > 0 && |keys| == |Chunks(content, leafSize)|
  {
    seq(|keys|, i requires 0 <= i < |keys| => if keys[i] in blobs then blobs[keys[i]] else Chunks(content, leafSize)[i])
  }

  /** Stored blobs have the sizes of the leaves. */
  ghost predicate SizesOk(content: seq<Byte>, leafSize: nat, keys: seq<Key>, blobs: Blobs)
    requires leafSize > 0 && |keys| == |Chunks(content, leafSize)|
  {
    forall i :: 0 <= i < |keys| && keys[i] in blobs ==> |blobs[keys[i]]| == |Chunks(content, leafSize)[i]|
  }

  /** Pieces that are full but for the last are the cut of what they hold together. */
  lemma CutOfPieces(ps: seq<seq<Byte>>, n: nat)
    requires n > 0 && (forall i :: 0 <= i < |ps| ==> 0 < |ps[i]| <= n) && (forall i :: 0 <= i < |ps| - 1 ==> |ps[i]| == n)
    ensures Chunks(Flatten(ps), n) == ps
  {
    if ps == [] {
    } else if |ps[|ps| - 1]| == n {
      ChunksUnique(ps, [], n);
      assert Flatten(ps) + [] == Flatten(ps) && ps + [] == ps;
    } else {
      var m := |ps| - 1;
      ChunksUnique(ps[..m], ps[m], n);
      FlattenSnoc(ps[..m], ps[m]);
      assert ps == ps[..m] + [ps[m]];
    }
  }

  lemma PiecesAreCut(content: seq<Byte>, leafSize: nat, keys: seq<Key>, blobs: Blobs)
    requires leafSize > 0 && |keys| == |Chunks(content, leafSize)| && SizesOk(content, leafSize, keys, blobs)
    ensures var ps := Pieces(content, leafSize, keys, blobs);
      Chunks(Flatten(ps), leafSize) == ps && |Flatten(ps)| == |content|
  {
    var ps, cs := Pieces(content, leafSize, keys, blobs), Chunks(content, leafSize);
    ChunksShape(content, leafSize);
    CutOfPieces(ps, leafSize);
    SameSizes(ps, cs);
  }

  lemma {:induction false} SameSizes(a: seq<seq<Byte>>, b: seq<seq<Byte>>)
    requires |a| == |b| && forall i :: 0 <= i < |a| ==> |a[i]| == |b[i]|
    ensures |Flatten(a)| == |Flatten(b)|
  {
    if a != [] { SameSizes(a[1..], b[1..]); }
  }

  /** Copying a file whose stored leaves have their sizes and may have any bytes: the destination gets those
      bytes, hence the content exactly if every leaf is the original. */
  method WriteToAny(content: seq<Byte>, leafSize: nat, keys: seq<Key>, blobs: Blobs, dest: seq<Byte>)
    returns (r: WriteOutcome, dest': seq<Byte>)
    requires leafSize > 0 && |keys| == |Chunks(content, leafSize)| && SizesOk(content, leafSize, keys, blobs)
    ensures r.WriteFailed? <==> Missing(keys, blobs)
    ensures r.Written? ==> r.n == |content| <= |dest'|
    ensures r.Written? ==> dest'[..|content|] == Flatten(Pieces(content, leafSize, keys, blobs))
    ensures r.Written? ==> dest'[|content|..] == if |content| < |dest| then dest[|content|..] else []
    ensures r.Written? ==>
      (dest'[..|content|] == content <==> forall i :: 0 <= i < |keys| ==> blobs[keys[i]] == Chunks(content, leafSize)[i])
  {
    var ps := Pieces(content, leafSize, keys, blobs);
    PiecesAreCut(content, leafSize, keys, blobs);
    r, dest' := WriteTo(Source(leafSize, Flatten(ps), keys, blobs), dest);
    if r.Written? {
      OriginalIff(content, leafSize, keys, blobs);
      assert dest'[..|content|] == Flatten(ps);
    }
  }

  lemma OriginalIff(content: seq<Byte>, leafSize: nat, keys: seq<Key>, blobs: Blobs)
    requires leafSize > 0 && |keys| == |Chunks(content, leafSize)| && SizesOk(content, leafSize, keys, blobs)
    requires !Missing(keys, blobs)
    ensures Flatten(Pieces(content, leafSize, keys, blobs)) == content <==>
      forall i :: 0 <= i < |keys| ==> blobs[keys[i]] == Chunks(content, leafSize)[i]
  {
    var ps, cs := Pieces(content, leafSize, keys, blobs), Chunks(content, leafSize);
    PiecesAreCut(content, leafSize, keys, blobs);
    ChunksShape(content, leafSize);
    assert forall i :: 0 <= i < |keys| ==> keys[i] in keys && ps[i] == blobs[keys[i]];
    if forall i :: 0 <= i < |keys| ==> blobs[keys[i]] == cs[i] { assert ps == cs; }
  }

  /** A one-leaf file whose blob was replaced by other bytes: they are copied and counted as the file. */
  method CorruptLeafIsCopied(h: Hasher, leafSize: nat, content: seq<Byte>, stored: seq<Byte>)
    returns (r: WriteOutcome, dest: seq<Byte>)
    requires 0 < |content| <= leafSize && |stored| == |content|
    ensures r == Written(|content|) && dest == stored
  {
    var keys := LeafKeys(h, leafSize, content);
    assert Chunks(content, leafSize) == [content];
    var blobs := map[keys[0] := stored];
    r, dest := WriteToAny(content, leafSize, keys, blobs, []);
    var ps := Pieces(content, leafSize, keys, blobs);
    assert ps == [stored];
    assert Flatten(ps) == stored + Flatten<Byte>([]);
    assert dest == dest[..|content|] + dest[|content|..];
  }
}
