/** Storing a file and getting it back. */
module CafsPut {
  import opened Chunking
  import opened Cafs
  import opened CafsWriter
  import opened CafsReader
  import opened CafsReadAt
  import CafsWriteTo

  // ---------------------------------------------------------------- the blob writes of one file

  function Pieces(h: Hasher, leafSize: nat, content: seq<Byte>): (ws: seq<BlobWrite>)
    requires leafSize > 0
  {
    var cs := Chunks(content, leafSize);
    seq(|cs|, i requires 0 <= i < |cs| => PieceWrite(h, leafSize, cs, i))
  }

  function RootWrite(h: Hasher, leafSize: nat, content: seq<Byte>): (w: BlobWrite)
    requires leafSize > 0
  {
    var keys := LeafKeys(h, leafSize, content);
    BlobWrite(h.root(keys), RootBlob(h, keys))
  }

  /** Each leaf, then the root blob. */
  function Writes(h: Hasher, leafSize: nat, content: seq<Byte>): (ws: seq<BlobWrite>)
    requires leafSize > 0
  {
    Pieces(h, leafSize, content) + [RootWrite(h, leafSize, content)]
  }

  /** No two blobs of the file share a key, and none is taken for another one already in the store. */
  ghost predicate Storable(h: Hasher, crc: Checksum, leafSize: nat, blobs: Blobs, content: seq<Byte>)
    requires leafSize > 0
  {
    NoClash(Writes(h, leafSize, content)) && NoForeign(crc, blobs, Writes(h, leafSize, content))
  }

  ghost predicate SameWrites(a: seq<BlobWrite>, b: seq<BlobWrite>) {
    forall w :: w in a <==> w in b
  }

  lemma SameWritesNoClash(log: seq<BlobWrite>, ws: seq<BlobWrite>)
    requires SameWrites(log, ws) && NoClash(ws)
    ensures NoClash(log)
  {
    forall i, j | 0 <= i < j < |log| && log[i].key == log[j].key ensures log[i].data == log[j].data {
      assert log[i] in log && log[j] in log;
      var a :| 0 <= a < |ws| && ws[a] == log[i];
      var b :| 0 <= b < |ws| && ws[b] == log[j];
      assert a < b || b < a || a == b;
    }
  }

  /** Whatever the order in which the blobs got there, each leaves what it would leave alone. */
  lemma AnyOrderLeaves(crc: Checksum, blobs: Blobs, log: seq<BlobWrite>, ws: seq<BlobWrite>, w: BlobWrite)
    requires SameWrites(log, ws) && NoClash(ws) && w in ws
    ensures Left(crc, blobs, w, WriteAll(crc, blobs, log))
  {
    SameWritesNoClash(log, ws);
    assert w in log;
    var i :| 0 <= i < |log| && log[i] == w;
    WriteAllLeaves(crc, blobs, log, i);
  }

  /** And they are all stored, if none is taken for another one. */
  lemma AnyOrderStores(crc: Checksum, blobs: Blobs, log: seq<BlobWrite>, ws: seq<BlobWrite>, w: BlobWrite)
    requires SameWrites(log, ws) && NoClash(ws) && NoForeign(crc, blobs, ws) && w in ws
    ensures w.key in WriteAll(crc, blobs, log) && WriteAll(crc, blobs, log)[w.key] == w.data
  {
    AnyOrderLeaves(crc, blobs, log, ws, w);
    var a :| 0 <= a < |ws| && ws[a] == w;
  }

  lemma LoggedWrites(h: Hasher, leafSize: nat, content: seq<Byte>, log: seq<BlobWrite>)
    requires leafSize > 0 && Logged(h, leafSize, log, Chunks(content, leafSize))
    ensures SameWrites(log + [RootWrite(h, leafSize, content)], Writes(h, leafSize, content))
  {
    var cs, ps, root := Chunks(content, leafSize), Pieces(h, leafSize, content), RootWrite(h, leafSize, content);
    forall w ensures w in log + [root] <==> w in ps + [root] {
      if w in log {
        var i: nat :| i < |cs| && w == PieceWrite(h, leafSize, cs, i);
        assert ps[i] == w;
      }
      if w in ps {
        var i :| 0 <= i < |ps| && ps[i] == w;
        assert PieceWrite(h, leafSize, cs, i) in log;
      }
    }
  }

  /** The leaves and the root blob of the content are in the store. */
  ghost predicate HasFile(h: Hasher, leafSize: nat, content: seq<Byte>, blobs: Blobs)
    requires leafSize > 0
  {
    var root := RootWrite(h, leafSize, content);
    Stored(h, leafSize, content, blobs) && root.key in blobs && blobs[root.key] == root.data
  }

  lemma WritesLeave(h: Hasher, crc: Checksum, leafSize: nat, blobs: Blobs, content: seq<Byte>, log: seq<BlobWrite>)
    requires leafSize > 0 && Logged(h, leafSize, log, Chunks(content, leafSize))
    ensures NoClash(Writes(h, leafSize, content)) ==> forall w :: w in Writes(h, leafSize, content) ==>
      Left(crc, blobs, w, WriteAll(crc, blobs, log + [RootWrite(h, leafSize, content)]))
  {
    LoggedWrites(h, leafSize, content, log);
    forall w | NoClash(Writes(h, leafSize, content)) && w in Writes(h, leafSize, content)
      ensures Left(crc, blobs, w, WriteAll(crc, blobs, log + [RootWrite(h, leafSize, content)]))
    {
      AnyOrderLeaves(crc, blobs, log + [RootWrite(h, leafSize, content)], Writes(h, leafSize, content), w);
    }
  }

  lemma WritesStoreFile(h: Hasher, crc: Checksum, leafSize: nat, blobs: Blobs, content: seq<Byte>, log: seq<BlobWrite>)
    requires leafSize > 0 && Logged(h, leafSize, log, Chunks(content, leafSize))
    requires Storable(h, crc, leafSize, blobs, content)
    ensures HasFile(h, leafSize, content, WriteAll(crc, blobs, log + [RootWrite(h, leafSize, content)]))
  {
    var cs, ps, root := Chunks(content, leafSize), Pieces(h, leafSize, content), RootWrite(h, leafSize, content);
    LoggedWrites(h, leafSize, content, log);
    AnyOrderStores(crc, blobs, log + [root], ps + [root], root);
    forall i: nat | i < |cs|
      ensures var k := LeafKey(h, leafSize, cs[i], i);
        k in WriteAll(crc, blobs, log + [root]) && WriteAll(crc, blobs, log + [root])[k] == cs[i]
    {
      assert ps[i] in ps;
      AnyOrderStores(crc, blobs, log + [root], ps + [root], ps[i]);
    }
  }

  // ---------------------------------------------------------------- Put and Get

  /** What one source hands to Write: pieces of a copy buffer's size, or all of its content at once. */
  type Feed = seq<seq<Byte>>

  ghost predicate Fit(leafSize: nat, pieces: Feed) { forall i :: 0 <= i < |pieces| ==> |pieces[i]| <= leafSize }

  /** Copies the source through the writer, piece by piece, while flushes complete in any order, then writes
      the root blob unless one is there and trusted. It returns exactly if every Write does, which is if no
      piece is longer than a leaf. */
  method Put(h: Hasher, crc: Checksum, leafSize: nat, blobs: Blobs, pieces: Feed)
    returns (returned: bool, root: Key, written: nat, found: bool, blobs': Blobs)
    requires leafSize > 0
    ensures returned <==> Fit(leafSize, pieces)
    ensures returned ==> PutAs(h, crc, leafSize, blobs, Flatten(pieces), root, written, found, blobs')
  {
    root, written, found, blobs' := h.root([]), 0, false, blobs;
    var w := new FsWriter(h, crc, leafSize, blobs);
    returned, written := CopyThrough(w, pieces);
    if !returned { return; }
    ghost var content := Flatten(pieces);
    var keys: seq<Byte>;
    root, keys := w.Flush();
    found := root in w.blobs;
    blobs' := WriteBlob(crc, w.blobs, root, keys + root);
    RootGoesLast(h, crc, leafSize, blobs, content, w.log);
    LogKeys(h, crc, leafSize, blobs, content, w.log, root);
    OthersStay(h, crc, leafSize, blobs, content, w.log);
    if HasFile(h, leafSize, content, blobs) { PutAgain(h, crc, leafSize, blobs, content, w.log); }
    WritesLeave(h, crc, leafSize, blobs, content, w.log);
    if Storable(h, crc, leafSize, blobs, content) {
      WritesStoreFile(h, crc, leafSize, blobs, content, w.log);
    }
  }

  /** What a Put that returns has done. */
  ghost predicate PutAs(h: Hasher, crc: Checksum, leafSize: nat, blobs: Blobs, content: seq<Byte>,
                        root: Key, written: nat, found: bool, blobs': Blobs)
    requires leafSize > 0
  {
    && written == |content| && root == h.root(LeafKeys(h, leafSize, content))
    // each blob of the file is what was there, if that was not empty and not known to differ, and else what it should be
    && (NoClash(Writes(h, leafSize, content)) ==> forall w :: w in Writes(h, leafSize, content) ==> Left(crc, blobs, w, blobs'))
    && (Storable(h, crc, leafSize, blobs, content) ==> HasFile(h, leafSize, content, blobs'))
    && (found <==> root in blobs || root in LeafKeys(h, leafSize, content))
    && Untouched(h, leafSize, content, blobs, blobs')
    && (HasFile(h, leafSize, content, blobs) ==> blobs' == blobs)
  }

  /** All blobs but those of the file are as they were. */
  ghost predicate Untouched(h: Hasher, leafSize: nat, content: seq<Byte>, blobs: Blobs, blobs': Blobs)
    requires leafSize > 0
  {
    forall k: Key :: k !in LeafKeys(h, leafSize, content) && k != RootWrite(h, leafSize, content).key ==>
      (k in blobs' <==> k in blobs) && (k in blobs ==> blobs'[k] == blobs[k])
  }

  lemma LoggedKeys(h: Hasher, leafSize: nat, content: seq<Byte>, log: seq<BlobWrite>, k: Key)
    requires leafSize > 0 && Logged(h, leafSize, log, Chunks(content, leafSize))
    ensures k in LeafKeys(h, leafSize, content) <==> exists i :: 0 <= i < |log| && log[i].key == k
  {
    var cs, keys := Chunks(content, leafSize), LeafKeys(h, leafSize, content);
    if k in keys {
      var i :| 0 <= i < |keys| && keys[i] == k;
      assert PieceWrite(h, leafSize, cs, i) in log;
    }
    if i :| 0 <= i < |log| && log[i].key == k {
      assert log[i] in log;
      var j: nat :| j < |cs| && log[i] == PieceWrite(h, leafSize, cs, j);
      assert keys[j] == k;
    }
  }

  lemma LogKeys(h: Hasher, crc: Checksum, leafSize: nat, blobs: Blobs, content: seq<Byte>, log: seq<BlobWrite>, k: Key)
    requires leafSize > 0 && Logged(h, leafSize, log, Chunks(content, leafSize))
    ensures k in WriteAll(crc, blobs, log) <==> k in blobs || k in LeafKeys(h, leafSize, content)
  {
    LoggedKeys(h, leafSize, content, log, k);
    WriteAllKeys(crc, blobs, log, k);
  }

  lemma OthersStay(h: Hasher, crc: Checksum, leafSize: nat, blobs: Blobs, content: seq<Byte>, log: seq<BlobWrite>)
    requires leafSize > 0 && Logged(h, leafSize, log, Chunks(content, leafSize))
    ensures Untouched(h, leafSize, content, blobs, WriteAll(crc, blobs, log + [RootWrite(h, leafSize, content)]))
  {
    var w := RootWrite(h, leafSize, content);
    forall k: Key | k !in LeafKeys(h, leafSize, content) && k != w.key
      ensures k in WriteAll(crc, blobs, log + [w]) <==> k in blobs
      ensures k in blobs ==> WriteAll(crc, blobs, log + [w])[k] == blobs[k]
    {
      LoggedKeys(h, leafSize, content, log, k);
      WriteAllElsewhere(crc, blobs, log + [w], k);
    }
  }

  /** Putting a file that is stored writes nothing. */
  lemma PutAgain(h: Hasher, crc: Checksum, leafSize: nat, blobs: Blobs, content: seq<Byte>, log: seq<BlobWrite>)
    requires leafSize > 0 && Logged(h, leafSize, log, Chunks(content, leafSize)) && HasFile(h, leafSize, content, blobs)
    ensures WriteAll(crc, blobs, log + [RootWrite(h, leafSize, content)]) == blobs
  {
    var cs, keys, all := Chunks(content, leafSize), LeafKeys(h, leafSize, content), log + [RootWrite(h, leafSize, content)];
    ChunksShape(content, leafSize);
    forall i | 0 <= i < |all| ensures all[i].key in blobs && all[i].data != [] && blobs[all[i].key] == all[i].data {
      if i < |log| {
        assert log[i] in log;
        var j: nat :| j < |cs| && log[i] == PieceWrite(h, leafSize, cs, j);
        assert keys[j] in blobs && blobs[keys[j]] == cs[j];
      }
    }
    DuplicatesAreNotWritten(crc, blobs, all);
  }

  lemma RootGoesLast(h: Hasher, crc: Checksum, leafSize: nat, blobs: Blobs, content: seq<Byte>, log: seq<BlobWrite>)
    requires leafSize > 0
    ensures var w := RootWrite(h, leafSize, content);
      WriteAll(crc, blobs, log + [w]) == WriteBlob(crc, WriteAll(crc, blobs, log), w.key, w.data)
  {
    var w := RootWrite(h, leafSize, content);
    assert (log + [w])[..|log|] == log;
  }

  lemma NeverReturns(leafSize: nat, len: nat, offset: nat)
    requires offset < leafSize < len
    ensures forall n: nat :: Turns(leafSize, len, Going(offset, 0), n) != Returned
  {
    WriteReturnsIff(leafSize, len, offset);
  }

  lemma OneMorePiece(leafSize: nat, pieces: Feed, i: nat)
    requires i < |pieces| && Fit(leafSize, pieces[..i]) && |pieces[i]| <= leafSize
    ensures Fit(leafSize, pieces[..i + 1]) && Flatten(pieces[..i + 1]) == Flatten(pieces[..i]) + pieces[i]
  {
    assert pieces[..i + 1] == pieces[..i] + [pieces[i]];
    FlattenSnoc(pieces[..i], pieces[i]);
  }

  /** Writes the source to the writer, until a Write does not return. */
  method CopyThrough(w: FsWriter, pieces: Feed) returns (returned: bool, written: nat)
    requires w.Valid() && w.Content() == []
    modifies w, w.buf
    ensures returned <==> Fit(w.leafSize, pieces)
    ensures returned ==> w.Valid() && w.Content() == Flatten(pieces) && written == |Flatten(pieces)|
  {
    written := 0;
    for i := 0 to |pieces|
      invariant w.Valid() && (w.buf == old(w.buf) || fresh(w.buf))
      invariant Fit(w.leafSize, pieces[..i]) && w.Content() == Flatten(pieces[..i]) && written == |Flatten(pieces[..i])|
    {
      if |pieces[i]| > w.leafSize {
        NeverReturns(w.leafSize, |pieces[i]|, w.offset);
        return false, written;
      }
      var n := WritePiece(w, pieces[i]);
      OneMorePiece(w.leafSize, pieces, i);
      written := written + n;
    }
    assert pieces[..|pieces|] == pieces;
    returned := true;
  }

  /** One write, and meanwhile the end of any number of flushes, in any order. */
  method WritePiece(w: FsWriter, piece: seq<Byte>) returns (n: nat)
    requires w.Valid() && |piece| <= w.leafSize
    modifies w, w.buf
    ensures w.Valid() && (w.buf == old(w.buf) || fresh(w.buf))
    ensures w.Content() == old(w.Content()) + piece && n == |piece|
  {
    n := w.Write(piece);
    var more: bool := *;
    while more && w.inFlight != map[]
      invariant w.Valid() && (w.buf == old(w.buf) || fresh(w.buf))
      invariant w.Content() == old(w.Content()) + piece
      decreases |w.inFlight|
    {
      var c :| c in w.inFlight;
      w.CompleteFlush(c);
      more := *;
    }
  }

  datatype Resolved = Resolved(keys: seq<Key>) | NotFound | Corrupt

  /** The leaf keys behind a root key. */
  method LeavesForHash(h: Hasher, blobs: Blobs, root: Key) returns (r: Resolved)
    ensures r.NotFound? <==> root !in blobs
    ensures r.Resolved? ==> blobs[root] == RootBlob(h, r.keys)
    ensures forall keys: seq<Key> :: root in blobs && blobs[root] == RootBlob(h, keys) ==> r == Resolved(keys)
  {
    if root !in blobs { return NotFound; }
    var loaded := VerifiedKeys(h, blobs[root]);
    match loaded {
      case Keys(keys) =>
        forall other: seq<Key> | blobs[root] == RootBlob(h, other) ensures other == keys {
          RootBlobInjective(h, keys, other);
        }
        return Resolved(keys);
      case _ => return Corrupt;
    }
  }

  lemma RootBlobInjective(h: Hasher, a: seq<Key>, b: seq<Key>)
    requires RootBlob(h, a) == RootBlob(h, b)
    ensures a == b
  {
    var x, y := KeyBytes(a), KeyBytes(b);
    assert |x| == |y|;
    assert RootBlob(h, a)[..|x|] == x && RootBlob(h, b)[..|y|] == y;
    KeyBytesInjective(a, b);
  }

  /** What the readers give of a file. Without a leaf there is no key to begin with, and Read must not be called. */
  ghost predicate GotBack(h: Hasher, leafSize: nat, content: seq<Byte>, keys: seq<Key>, read: Option<seq<Byte>>,
                          off: nat, len: nat, window: seq<Byte>, dest: seq<Byte>, copied: seq<Byte>)
    requires leafSize > 0
  {
    && keys == LeafKeys(h, leafSize, content)
    && (keys == [] <==> content == []) && read == (if content == [] then None else Some(content))
    && (off <= |content| ==> Copied(content, off, window, len))
    && copied == content + if |content| < |dest| then dest[|content|..] else []
  }

  /** A file that was put is got back: its keys from the root blob, its bytes by reading to the end or by
      copying to a destination, and any window of it by reading at an offset. */
  method PutGet(h: Hasher, crc: Checksum, leafSize: nat, cap: nat, blobs: Blobs, pieces: Feed, verify: bool,
                off: nat, len: nat, dest: seq<Byte>)
    returns (returned: bool, keys: seq<Key>, read: Option<seq<Byte>>, window: seq<Byte>, copied: seq<Byte>)
    requires leafSize > 0 && cap >= leafSize && Storable(h, crc, leafSize, blobs, Flatten(pieces))
    ensures returned <==> Fit(leafSize, pieces)
    ensures returned ==> GotBack(h, leafSize, Flatten(pieces), keys, read, off, len, window, dest, copied)
  {
    keys, read, window, copied := [], None, [], dest;
    var root, written, found, blobs';
    returned, root, written, found, blobs' := Put(h, crc, leafSize, blobs, pieces);
    if !returned { return; }
    var content := Flatten(pieces);
    var resolved := LeavesForHash(h, blobs', root);
    assert resolved == Resolved(LeafKeys(h, leafSize, content));
    keys := resolved.keys;
    ChunkCount(content, leafSize);
    if keys != [] {
      var got := ReadBack(h, leafSize, content, blobs', verify);
      read := Some(got);
    }
    var data := new Byte[len](_ => 0);
    var r := ReadAtStored(File(h, leafSize, keys, blobs', verify, cap), content, data, off);
    window := if r.Read? then data[..r.n] else [];
    var source := CafsWriteTo.Source(leafSize, content, keys, blobs');
    StoredSource(h, source);
    var outcome;
    outcome, copied := CafsWriteTo.WriteTo(source, dest);
  }

  lemma StoredSource(h: Hasher, s: CafsWriteTo.Source)
    requires s.leafSize > 0 && s.keys == LeafKeys(h, s.leafSize, s.content) && Stored(h, s.leafSize, s.content, s.blobs)
    ensures s.Ok() && !Missing(s.keys, s.blobs)
  {
  }
}
