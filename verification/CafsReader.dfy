/** The sequential reader: leaf after leaf into the caller's buffers, checking each leaf at its end. */
module CafsReader {
  import opened Chunking
  import opened Cafs

  // ---------------------------------------------------------------- verification

  /** The key the reader expects of leaf `i` out of `n`. */
  function ReaderKey(h: Hasher, leafSize: nat, n: nat, piece: seq<Byte>, i: nat): (k: Key) {
    if i + 1 == n && |piece| != leafSize then h.leaf(piece, i, true) else h.leaf(piece, i + 1, false)
  }

  predicate Verified(h: Hasher, leafSize: nat, keys: seq<Key>, i: nat, piece: seq<Byte>)
    requires i < |keys|
  {
    ReaderKey(h, leafSize, |keys|, piece, i) == keys[i]
  }

  /** Reader and writer number the leaves of a content alike. */
  lemma WrittenLeafVerifies(h: Hasher, leafSize: nat, content: seq<Byte>, i: nat)
    requires leafSize > 0 && i < |Chunks(content, leafSize)|
    ensures Verified(h, leafSize, LeafKeys(h, leafSize, content), i, Chunks(content, leafSize)[i])
  {
    ChunksShape(content, leafSize);
  }

  /** Two different pieces with the same key as leaf `i` out of `n`. */
  ghost predicate Collide(h: Hasher, leafSize: nat, n: nat, i: nat, a: seq<Byte>, b: seq<Byte>) {
    a != b && ReaderKey(h, leafSize, n, a, i) == ReaderKey(h, leafSize, n, b, i)
  }

  /** A leaf that verifies is the one that was written, unless the two collide. */
  lemma VerifiedIsOriginal(h: Hasher, leafSize: nat, content: seq<Byte>, i: nat, piece: seq<Byte>)
    requires leafSize > 0 && i < |Chunks(content, leafSize)|
    requires Verified(h, leafSize, LeafKeys(h, leafSize, content), i, piece)
    requires !Collide(h, leafSize, |Chunks(content, leafSize)|, i, piece, Chunks(content, leafSize)[i])
    ensures piece == Chunks(content, leafSize)[i]
  {
    WrittenLeafVerifies(h, leafSize, content, i);
  }

  // ---------------------------------------------------------------- reading from a store

  /** One Read of a stored blob: at most `room` bytes of what remains, possibly fewer; the end may be
      reported with the last bytes or after them. */
  method StoreRead(remaining: nat, room: nat, mayFail: bool) returns (n: nat, eof: bool, failed: bool)
    ensures n <= remaining && n <= room
    ensures eof ==> n == remaining
    ensures !eof && !failed && room > 0 ==> n > 0
    ensures failed ==> mayFail
  {
    var most := if remaining < room then remaining else room;
    n :| 0 <= n <= most && (n > 0 || most == 0);
    var early: bool := *;
    eof := n == remaining && (early || n == 0);
    var fault: bool := *;
    failed := fault && mayFail;
  }

  /** Leaf `i` is its blob, and was checked if that is on. */
  ghost predicate LeafRead(h: Hasher, leafSize: nat, keys: seq<Key>, blobs: Blobs, verify: bool, i: nat, leaf: seq<Byte>) {
    i < |keys| && keys[i] in blobs && leaf == blobs[keys[i]] && (verify ==> Verified(h, leafSize, keys, i, leaf))
  }

  /** The leaves read to their end so far. */
  ghost predicate ReadOk(h: Hasher, leafSize: nat, keys: seq<Key>, blobs: Blobs, verify: bool, leaves: seq<seq<Byte>>) {
    |leaves| <= |keys| && forall i: nat :: i < |leaves| ==> LeafRead(h, leafSize, keys, blobs, verify, i, leaves[i])
  }

  /** The leaf in progress is a prefix of its blob. */
  ghost predicate InProgress(keys: seq<Key>, blobs: Blobs, idx: nat, pos: nat, part: seq<Byte>) {
    idx < |keys| && keys[idx] in blobs && pos <= |blobs[keys[idx]]| && part == blobs[keys[idx]][..pos]
  }

  ghost predicate Missing(keys: seq<Key>, blobs: Blobs) {
    exists k :: k in keys && k !in blobs
  }

  /** The leaf after these is not what its key says. */
  ghost predicate BadNext(h: Hasher, leafSize: nat, keys: seq<Key>, blobs: Blobs, leaves: seq<seq<Byte>>) {
    && |leaves| < |keys| && keys[|leaves|] in blobs
    && !Verified(h, leafSize, keys, |leaves|, blobs[keys[|leaves|]])
  }

  /** Puts bytes into a buffer, at an offset. */
  method Place(data: array<Byte>, at: nat, bytes: seq<Byte>)
    requires at + |bytes| <= data.Length
    modifies data
    ensures data[at .. at + |bytes|] == bytes
    ensures data[..at + |bytes|] == old(data[..at]) + bytes
    ensures data[at + |bytes|..] == old(data[at + |bytes|..])
  {
    forall i | 0 <= i < |bytes| { data[at + i] := bytes[i]; }
    assert data[..at] == old(data[..at]);
  }

  lemma PrefixGrows(s: seq<Byte>, pos: nat, n: nat)
    requires pos + n <= |s|
    ensures s[..pos + n] == s[..pos] + s[pos .. pos + n]
  {
  }

  lemma AppendTwice(a: seq<Byte>, b: seq<Byte>, c: seq<Byte>)
    ensures a + (b + c) == (a + b) + c
  {
  }

  datatype Option<T> = None | Some(value: T)

  datatype Outcome = Done(n: nat) | Eof(n: nat) | Error(n: nat) | Panic

  class ChunkReader {
    const h: Hasher
    const leafSize: nat
    const keys: seq<Key>
    const blobs: Blobs
    const verify: bool
    const mayFail: bool           // whether reads of the store may fail
    var idx: nat                  // the leaf being read
    var isOpen: bool              // whether its blob is open
    var pos: nat                  // how far it was read
    var readSoFar: nat
    var lastChunk: bool
    var currLeaf: seq<Byte>
    ghost var finished: seq<seq<Byte>>
    ghost var delivered: seq<Byte>   // what earlier calls returned

    constructor (h: Hasher, leafSize: nat, keys: seq<Key>, blobs: Blobs, verify: bool, mayFail: bool)
      ensures Valid() && delivered == [] && !lastChunk
      ensures this.h == h && this.leafSize == leafSize && this.keys == keys && this.blobs == blobs
      ensures this.verify == verify && this.mayFail == mayFail
    {
      this.h, this.leafSize, this.keys, this.blobs := h, leafSize, keys, blobs;
      this.verify, this.mayFail := verify, mayFail;
      idx, isOpen, pos, readSoFar, lastChunk, currLeaf := 0, false, 0, 0, false, [];
      finished, delivered := [], [];
    }

    ghost predicate Streaming()
      reads this
    {
      && idx == |finished| && ReadOk(h, leafSize, keys, blobs, verify, finished)
      && lastChunk == (0 < idx == |keys|)
      && (isOpen ==> InProgress(keys, blobs, idx, pos, currLeaf))
      && (!isOpen && !lastChunk ==> currLeaf == [])
    }

    ghost function Received(): (s: seq<Byte>)
      reads this
    {
      Flatten(finished) + if lastChunk then [] else currLeaf
    }

    ghost predicate Valid()
      reads this
    {
      Streaming() && (!lastChunk ==> readSoFar == 0) && delivered == Received()
    }

    lemma DeliveredBounded()
      requires Valid()
      ensures |delivered| <= Size(keys, blobs)
    {
      forall i | 0 <= i < |finished| ensures keys[i] in blobs && finished[i] == blobs[keys[i]] {
        assert LeafRead(h, leafSize, keys, blobs, verify, i, finished[i]);
      }
      Bounded(keys, blobs, finished, if lastChunk then [] else currLeaf);
    }

    /** Opens the blob of the current leaf if need be. */
    method Open() returns (ok: bool)
      requires Streaming() && !lastChunk && idx < |keys|
      modifies this`isOpen, this`pos
      ensures Streaming() && (ok ==> isOpen) && Received() == old(Received())
      ensures !ok ==> Missing(keys, blobs)
    {
      if !isOpen {
        if keys[idx] !in blobs { return false; }
        isOpen, pos := true, 0;
      }
      return true;
    }

    /** Reads some more of the current leaf, behind what the call has so far. */
    method Pull(data: array<Byte>) returns (n: nat, eof: bool, failed: bool)
      requires Streaming() && !lastChunk && isOpen && readSoFar <= data.Length
      modifies this`pos, this`currLeaf, data
      ensures Streaming() && readSoFar + n <= data.Length
      ensures eof ==> currLeaf == blobs[keys[idx]]
      ensures data[..readSoFar + n] == old(data[..readSoFar]) + data[readSoFar .. readSoFar + n]
      ensures Received() == old(Received()) + data[readSoFar .. readSoFar + n]
      ensures failed ==> mayFail
      ensures !failed && !eof && readSoFar < data.Length ==> n > 0
    {
      var blob := blobs[keys[idx]];
      n, eof, failed := StoreRead(|blob| - pos, data.Length - readSoFar, mayFail);
      Place(data, readSoFar, blob[pos .. pos + n]);
      PrefixGrows(blob, pos, n);
      AppendTwice(Flatten(finished), currLeaf, blob[pos .. pos + n]);
      currLeaf := currLeaf + data[readSoFar .. readSoFar + n];
      pos := pos + n;
    }

    /** The end of a leaf: on to the next one, after checking this one. */
    method FinishLeaf() returns (ok: bool)
      requires Streaming() && !lastChunk && isOpen && currLeaf == blobs[keys[idx]]
      modifies this`idx, this`isOpen, this`lastChunk, this`currLeaf, this`finished
      ensures ok ==> Streaming() && !isOpen && idx == old(idx) + 1 && Received() == old(Received())
      ensures !ok ==> verify && BadNext(h, leafSize, keys, blobs, finished)
      ensures !ok ==> finished == old(finished)
    {
      var key := keys[idx];
      FlattenSnoc(finished, currLeaf);
      ghost var i := idx;
      idx := idx + 1;
      isOpen := false;
      lastChunk := idx == |keys|;
      if verify {
        var nodeOffset, isLastNode := idx, false;
        if lastChunk && |currLeaf| != leafSize {
          nodeOffset, isLastNode := idx - 1, true;
        }
        assert h.leaf(currLeaf, nodeOffset, isLastNode) == ReaderKey(h, leafSize, |keys|, currLeaf, i);
        if key != h.leaf(currLeaf, nodeOffset, isLastNode) { return false; }
      }
      finished := finished + [currLeaf];
      if !lastChunk { currLeaf := []; }
      return true;
    }

    /** What the turns of the Read loop keep. */
    ghost predicate Filling(data: array<Byte>, before: seq<Byte>)
      reads this, data
    {
      && Streaming() && !lastChunk && readSoFar <= data.Length
      && delivered == before && Received() == before + data[..readSoFar]
    }

    /** A leaf failed its check, once the reads got past its end. */
    ghost predicate Refused(reach: nat)
      reads this
    {
      && verify && BadNext(h, leafSize, keys, blobs, finished)
      && |Flatten(finished)| + |blobs[keys[|finished|]]| <= reach
    }

    /** What holds when the Read loop returns. */
    ghost predicate Reads(data: array<Byte>, before: seq<Byte>, r: Outcome)
      reads this, data
    {
      match r
      case Panic => keys == []
      case Error(_) => keys != [] && (mayFail || Missing(keys, blobs) || Refused(|before| + data.Length))
      case Done(n) => keys != [] && Valid() && n == data.Length && delivered == before + data[..n]
      case Eof(n) => keys != [] && Valid() && n <= data.Length && delivered == before + data[..n] && lastChunk
    }

    /** The same, in terms of everything received since the call began. */
    method PullBehind(data: array<Byte>, ghost before: seq<Byte>) returns (n: nat, eof: bool, failed: bool)
      requires Streaming() && !lastChunk && isOpen && readSoFar <= data.Length
      requires Received() == before + data[..readSoFar]
      modifies this`pos, this`currLeaf, data
      ensures Streaming() && readSoFar + n <= data.Length
      ensures eof ==> currLeaf == blobs[keys[idx]]
      ensures Received() == before + data[..readSoFar + n]
      ensures failed ==> mayFail
      ensures !failed && !eof && readSoFar < data.Length ==> n > 0
    {
      ghost var part := data[..readSoFar];
      n, eof, failed := Pull(data);
      AppendTwice(before, part, data[readSoFar .. readSoFar + n]);
    }

    /** Opens and reads: the bytes land in the buffer, behind those of earlier turns. */
    method Extend(data: array<Byte>, ghost before: seq<Byte>) returns (n: nat, eof: bool, error: bool)
      requires Filling(data, before) && idx < |keys|
      modifies this`isOpen, this`pos, this`currLeaf, this`readSoFar, data
      ensures error ==> mayFail || Missing(keys, blobs)
      ensures !error ==> Filling(data, before) && isOpen && readSoFar == old(readSoFar) + n
      ensures !error && eof ==> currLeaf == blobs[keys[idx]]
      ensures !error && !eof ==> n > 0 || readSoFar == data.Length
    {
      var found := Open();
      if !found { return readSoFar, false, true; }
      n, eof, error := PullBehind(data, before);
      readSoFar := readSoFar + n;
    }

    /** One turn of the Read loop; `None` goes round again. */
    method ReadTurn(data: array<Byte>, ghost before: seq<Byte>) returns (r: Option<Outcome>)
      requires Filling(data, before) && idx < |keys|
      modifies this, data
      ensures r.None? ==> Filling(data, before) && idx < |keys|
      ensures r.None? ==> idx > old(idx) || (idx == old(idx) && readSoFar > old(readSoFar))
      ensures r.Some? ==> Reads(data, before, r.value)
    {
      var n, eof, error := Extend(data, before);
      if error { return Some(Error(n)); }
      if eof {
        var ok := FinishLeaf();
        if !ok { return Some(Error(0)); }
        if !lastChunk { return None; }
        delivered := delivered + data[..readSoFar];
        return Some(if n == data.Length then Done(n) else Eof(readSoFar));
      }
      if readSoFar < data.Length { return None; }
      delivered := delivered + data[..readSoFar];
      readSoFar := 0;
      return Some(Done(data.Length));
    }

    /** Fills the buffer, from as many leaves as it takes. Only a reader without keys fails to index them. */
    method Read(data: array<Byte>) returns (r: Outcome)
      requires Valid()
      modifies this, data
      ensures Reads(data, old(delivered), r)
    {
      if lastChunk && !isOpen { return Eof(0); }
      if idx >= |keys| { return Panic; }
      var turn := None;
      while turn.None?
        invariant turn.None? ==> Filling(data, old(delivered)) && idx < |keys|
        invariant turn.Some? ==> Reads(data, old(delivered), turn.value)
        decreases turn.None?, |keys| - idx, data.Length - readSoFar
      {
        turn := ReadTurn(data, old(delivered));
      }
      r := turn.value;
    }
  }

  // ---------------------------------------------------------------- whole files

  /** The size of a file, as its blobs have it. */
  ghost function Size(keys: seq<Key>, blobs: Blobs): (n: nat) {
    if keys == [] then 0 else (if keys[0] in blobs then |blobs[keys[0]]| else 0) + Size(keys[1..], blobs)
  }

  lemma {:induction false} Bounded(keys: seq<Key>, blobs: Blobs, leaves: seq<seq<Byte>>, part: seq<Byte>)
    requires |leaves| <= |keys|
    requires forall i :: 0 <= i < |leaves| ==> keys[i] in blobs && leaves[i] == blobs[keys[i]]
    requires part != [] ==> |leaves| < |keys| && keys[|leaves|] in blobs && |part| <= |blobs[keys[|leaves|]]|
    ensures |Flatten(leaves) + part| <= Size(keys, blobs)
  {
    if leaves != [] {
      Bounded(keys[1..], blobs, leaves[1..], part);
    }
  }

  /** Reads to the end with buffers of any size: every leaf, in order, and nothing else. */
  method ReadAll(r: ChunkReader) returns (content: seq<Byte>, ok: bool)
    requires r.Valid() && r.keys != [] && r.delivered == []
    modifies r
    ensures ok ==> |r.finished| == |r.keys| && ReadOk(r.h, r.leafSize, r.keys, r.blobs, r.verify, r.finished)
    ensures ok ==> content == Flatten(r.finished)
    ensures !ok ==> r.mayFail || Missing(r.keys, r.blobs) || (r.verify && BadNext(r.h, r.leafSize, r.keys, r.blobs, r.finished))
  {
    content := [];
    ok := true;
    var eof := false;
    while !eof && ok
      invariant ok ==> r.Valid() && content == r.delivered && (eof ==> r.lastChunk)
      invariant ok ==> |content| <= Size(r.keys, r.blobs)
      invariant !ok ==> r.mayFail || Missing(r.keys, r.blobs) || (r.verify && BadNext(r.h, r.leafSize, r.keys, r.blobs, r.finished))
      decreases ok, !eof, Size(r.keys, r.blobs) - |content|
    {
      var size: nat :| size > 0;
      var data := new Byte[size](_ => 0);
      var one := r.Read(data);
      match one {
        case Done(n) => content := content + data[..n];
        case Eof(n) => content := content + data[..n]; eof := true;
        case _ => ok := false;
      }
      if ok { r.DeliveredBounded(); }
    }
  }

  lemma {:induction false} FlattenPrefix(a: seq<seq<Byte>>, b: seq<seq<Byte>>)
    requires |a| <= |b| && a == b[..|a|]
    ensures Flatten(a) <= Flatten(b)
  {
    FlattenAppend(a, b[|a|..]);
    assert b == a + b[|a|..];
  }

  /** No stored leaf collides with the one that was written. */
  ghost predicate CollisionFree(h: Hasher, leafSize: nat, content: seq<Byte>, blobs: Blobs)
    requires leafSize > 0
  {
    var cs, keys := Chunks(content, leafSize), LeafKeys(h, leafSize, content);
    forall i: nat :: i < |keys| && keys[i] in blobs ==> !Collide(h, leafSize, |keys|, i, blobs[keys[i]], cs[i])
  }

  /** With checks on, leaves that were read to their end are a prefix of the original, whatever the store
      holds; all of them are all of it. */
  lemma CheckedIsOriginal(h: Hasher, leafSize: nat, content: seq<Byte>, blobs: Blobs, leaves: seq<seq<Byte>>)
    requires leafSize > 0 && CollisionFree(h, leafSize, content, blobs)
    requires ReadOk(h, leafSize, LeafKeys(h, leafSize, content), blobs, true, leaves)
    ensures Flatten(leaves) <= content
    ensures |leaves| == |LeafKeys(h, leafSize, content)| ==> Flatten(leaves) == content
  {
    var cs, keys := Chunks(content, leafSize), LeafKeys(h, leafSize, content);
    forall i | 0 <= i < |leaves| ensures leaves[i] == cs[i] {
      assert LeafRead(h, leafSize, keys, blobs, true, i, leaves[i]);
      VerifiedIsOriginal(h, leafSize, content, i, leaves[i]);
    }
    ChunksShape(content, leafSize);
    FlattenPrefix(leaves, cs);
    if |leaves| == |keys| { assert leaves == cs; }
  }

  /** At any point of a read with checks on, whatever the store holds: what was delivered is a prefix of the
      original, up to the last leaf that ended, and after that only bytes of the blob of the next leaf. */
  lemma DeliveredSoFar(r: ChunkReader, content: seq<Byte>)
    requires r.Valid() && r.verify && r.leafSize > 0 && r.keys == LeafKeys(r.h, r.leafSize, content)
    requires CollisionFree(r.h, r.leafSize, content, r.blobs)
    ensures Flatten(r.finished) <= content && Flatten(r.finished) <= r.delivered
    ensures r.delivered != Flatten(r.finished) ==>
      && |r.finished| < |r.keys| && r.keys[|r.finished|] in r.blobs
      && r.delivered[|Flatten(r.finished)|..] <= r.blobs[r.keys[|r.finished|]]
  {
    CheckedIsOriginal(r.h, r.leafSize, content, r.blobs, r.finished);
    var sure, part := Flatten(r.finished), if r.lastChunk then [] else r.currLeaf;
    assert r.delivered == sure + part;
    assert r.delivered[|sure|..] == part;
  }

  /** Every leaf of the content is in the store, under its key. */
  ghost predicate Stored(h: Hasher, leafSize: nat, content: seq<Byte>, blobs: Blobs)
    requires leafSize > 0
  {
    var cs, keys := Chunks(content, leafSize), LeafKeys(h, leafSize, content);
    forall i: nat :: i < |keys| ==> keys[i] in blobs && blobs[keys[i]] == cs[i]
  }

  /** Reading back what was stored: the content, with or without checks, for any buffers and short reads. */
  method ReadBack(h: Hasher, leafSize: nat, content: seq<Byte>, blobs: Blobs, verify: bool) returns (read: seq<Byte>)
    requires leafSize > 0 && content != [] && Stored(h, leafSize, content, blobs)
    ensures read == content
  {
    var cs, keys := Chunks(content, leafSize), LeafKeys(h, leafSize, content);
    ChunksShape(content, leafSize);
    ChunkCount(content, leafSize);
    var r := new ChunkReader(h, leafSize, keys, blobs, verify, false);
    var ok: bool;
    read, ok := ReadAll(r);
    forall i: nat | i < |keys| ensures Verified(h, leafSize, keys, i, cs[i]) {
      WrittenLeafVerifies(h, leafSize, content, i);
    }
    assert ok;
    forall i | 0 <= i < |keys| ensures r.finished[i] == cs[i] {
      assert LeafRead(h, leafSize, keys, blobs, verify, i, r.finished[i]);
    }
    assert r.finished == cs;
  }

  /** With checks on and a store that never fails, reading returns the original or an error. */
  method ReadChecked(h: Hasher, leafSize: nat, content: seq<Byte>, blobs: Blobs, mayFail: bool) returns (read: seq<Byte>, ok: bool)
    requires leafSize > 0 && content != [] && CollisionFree(h, leafSize, content, blobs)
    ensures ok ==> read == content
    ensures !mayFail ==> (ok <==> Stored(h, leafSize, content, blobs))
  {
    var cs, keys := Chunks(content, leafSize), LeafKeys(h, leafSize, content);
    ChunkCount(content, leafSize);
    var r := new ChunkReader(h, leafSize, keys, blobs, true, mayFail);
    read, ok := ReadAll(r);
    if ok {
      CheckedIsOriginal(h, leafSize, content, blobs, r.finished);
      forall i: nat | i < |keys| ensures keys[i] in blobs && blobs[keys[i]] == cs[i] {
        assert LeafRead(h, leafSize, keys, blobs, true, i, r.finished[i]);
        VerifiedIsOriginal(h, leafSize, content, i, r.finished[i]);
      }
    } else if !mayFail && Stored(h, leafSize, content, blobs) {
      WrittenLeafVerifies(h, leafSize, content, |r.finished|);
      assert false;
    }
  }

  /** Bytes reach the caller before their leaf is checked: whatever a one-leaf file's blob holds,
      a buffer that ends before the leaf does is filled from it without an error. */
  method BytesBeforeTheCheck(h: Hasher, leafSize: nat, key: Key, stored: seq<Byte>, n: nat) returns (read: seq<Byte>)
    requires 0 < n < |stored|
    ensures read == stored[..n]
  {
    var r := new ChunkReader(h, leafSize, [key], map[key := stored], true, false);
    var data := new Byte[n](_ => 0);
    var one := r.Read(data);
    assert one.Done?;
    assert r.delivered == r.currLeaf;
    read := data[..];
  }
}
