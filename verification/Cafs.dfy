/** Content-addressed blobs: keys, the numbering of leaves, and when a stored blob is trusted. */
module Cafs {
  import opened Chunking

  newtype Byte = x: int | 0 <= x < 256

  const KEY_SIZE: nat := 64

  type Key = k: seq<Byte> | |k| == KEY_SIZE witness seq(KEY_SIZE, _ => 0)

  /** BLAKE2 in tree mode, as a pair of functions: leaf (data, node offset, last-node flag) and root. */
  datatype Hasher = Hasher(leaf: (seq<Byte>, nat, bool) -> Key, root: seq<Key> -> Key)

  /** The writer's numbering: a full leaf counts from one and is never flagged as the last node;
      a shorter last leaf counts from zero and is. */
  function LeafKey(h: Hasher, leafSize: nat, piece: seq<Byte>, i: nat): (k: Key) {
    if |piece| == leafSize then h.leaf(piece, i + 1, false) else h.leaf(piece, i, true)
  }

  /** The keys of a content, cut into leaves. */
  function LeafKeys(h: Hasher, leafSize: nat, content: seq<Byte>): (ks: seq<Key>)
    requires leafSize > 0
    ensures |ks| == |Chunks(content, leafSize)|
    ensures forall i :: 0 <= i < |ks| ==> ks[i] == LeafKey(h, leafSize, Chunks(content, leafSize)[i], i)
  {
    var pieces := Chunks(content, leafSize);
    seq(|pieces|, i requires 0 <= i < |pieces| => LeafKey(h, leafSize, pieces[i], i))
  }

  // ---------------------------------------------------------------- blobs and deduplication

  type Blobs = map<Key, seq<Byte>>

  /** The checksum a store reports: zero when it does not keep one. */
  type Checksum = seq<Byte> -> nat

  /** A blob that is already there is left alone unless it is empty or its checksum is known to differ. */
  predicate Trusted(crc: Checksum, stored: seq<Byte>, data: seq<Byte>) {
    |stored| > 0 && (crc(stored) == 0 || crc(stored) == crc(data))
  }

  function WriteBlob(crc: Checksum, blobs: Blobs, key: Key, data: seq<Byte>): (r: Blobs) {
    if key in blobs && Trusted(crc, blobs[key], data) then blobs else blobs[key := data]
  }

  /** The blob ends up with the data exactly if it was not there, or was empty, or had a known and different
      checksum, or was that data; otherwise the store is as it was. */
  lemma WriteBlobStores(crc: Checksum, blobs: Blobs, key: Key, data: seq<Byte>)
    ensures key in WriteBlob(crc, blobs, key, data)
    ensures WriteBlob(crc, blobs, key, data)[key] == data <==>
      key !in blobs || blobs[key] == [] || (crc(blobs[key]) != 0 && crc(blobs[key]) != crc(data)) || blobs[key] == data
    ensures key in blobs && blobs[key] != [] && (crc(blobs[key]) == 0 || crc(blobs[key]) == crc(data)) ==> WriteBlob(crc, blobs, key, data) == blobs
    ensures WriteBlob(crc, blobs, key, data) - {key} == blobs - {key}
  {
  }

  /** Data that is there already is not written again: the store is exactly as it was. */
  lemma DuplicateIsNotWritten(crc: Checksum, blobs: Blobs, key: Key, data: seq<Byte>)
    requires key in blobs && data != [] && blobs[key] == data
    ensures WriteBlob(crc, blobs, key, data) == blobs
  {
  }

  /** Blob writes in the order they reached the store. */
  datatype BlobWrite = BlobWrite(key: Key, data: seq<Byte>)

  function WriteAll(crc: Checksum, blobs: Blobs, log: seq<BlobWrite>): (r: Blobs) {
    if log == [] then blobs
    else WriteBlob(crc, WriteAll(crc, blobs, log[..|log| - 1]), log[|log| - 1].key, log[|log| - 1].data)
  }

  /** The same key is never used for different data, among the writes of this run. */
  ghost predicate NoClash(log: seq<BlobWrite>) {
    forall i, j :: 0 <= i < j < |log| && log[i].key == log[j].key ==> log[i].data == log[j].data
  }

  /** No blob of somebody else is trusted in place of one of these. */
  ghost predicate NoForeign(crc: Checksum, blobs: Blobs, log: seq<BlobWrite>) {
    forall i :: 0 <= i < |log| && log[i].key in blobs && blobs[log[i].key] != [] &&
                (crc(blobs[log[i].key]) == 0 || crc(blobs[log[i].key]) == crc(log[i].data))
      ==> blobs[log[i].key] == log[i].data
  }

  /** What a write leaves: a blob that was there, not empty and not known to differ, and otherwise its data. */
  ghost predicate Left(crc: Checksum, blobs: Blobs, w: BlobWrite, blobs': Blobs) {
    w.key in blobs' &&
    if w.key in blobs && blobs[w.key] != [] && (crc(blobs[w.key]) == 0 || crc(blobs[w.key]) == crc(w.data)) then blobs'[w.key] == blobs[w.key]
    else blobs'[w.key] == w.data
  }

  /** Keys that are not written keep their blobs. */
  lemma {:induction false} WriteAllElsewhere(crc: Checksum, blobs: Blobs, log: seq<BlobWrite>, k: Key)
    requires forall i :: 0 <= i < |log| ==> log[i].key != k
    ensures k in WriteAll(crc, blobs, log) <==> k in blobs
    ensures k in blobs ==> WriteAll(crc, blobs, log)[k] == blobs[k]
  {
    if log != [] { WriteAllElsewhere(crc, blobs, log[..|log| - 1], k); }
  }

  /** Writing only what is there leaves the store as it was. */
  lemma {:induction false} DuplicatesAreNotWritten(crc: Checksum, blobs: Blobs, log: seq<BlobWrite>)
    requires forall i :: 0 <= i < |log| ==> log[i].key in blobs && log[i].data != [] && blobs[log[i].key] == log[i].data
    ensures WriteAll(crc, blobs, log) == blobs
  {
    if log != [] {
      var n := |log| - 1;
      DuplicatesAreNotWritten(crc, blobs, log[..n]);
      DuplicateIsNotWritten(crc, blobs, log[n].key, log[n].data);
    }
  }

  /** Nothing is there but what was and what was written. */
  lemma {:induction false} WriteAllKeys(crc: Checksum, blobs: Blobs, log: seq<BlobWrite>, k: Key)
    ensures k in WriteAll(crc, blobs, log) <==> k in blobs || exists i :: 0 <= i < |log| && log[i].key == k
  {
    if log != [] {
      var n := |log| - 1;
      WriteAllKeys(crc, blobs, log[..n], k);
      assert forall i :: 0 <= i < n ==> log[..n][i] == log[i];
    }
  }

  /** Whatever the order of the writes, each leaves what it would leave alone. */
  lemma {:induction false} WriteAllLeaves(crc: Checksum, blobs: Blobs, log: seq<BlobWrite>, i: nat)
    requires NoClash(log) && i < |log|
    ensures Left(crc, blobs, log[i], WriteAll(crc, blobs, log))
    decreases |log|
  {
    var n := |log| - 1;
    var key, data := log[i].key, log[i].data;
    assert forall j :: 0 <= j < n ==> log[..n][j] == log[j];
    if j :| 0 <= j < n && log[j].key == key {
      assert data == log[j].data by { if i != j { assert i < j || j < i; } }
      WriteAllLeaves(crc, blobs, log[..n], j);
      if log[n].key == key { assert log[n].data == data by { if i != n { assert i < n; } } }
    } else {
      assert i == n;
      WriteAllElsewhere(crc, blobs, log[..n], key);
    }
  }

  /** Whatever the order of the writes, each blob ends up stored. */
  lemma WriteAllStores(crc: Checksum, blobs: Blobs, log: seq<BlobWrite>, i: nat)
    requires NoClash(log) && NoForeign(crc, blobs, log) && i < |log|
    ensures log[i].key in WriteAll(crc, blobs, log)
    ensures WriteAll(crc, blobs, log)[log[i].key] == log[i].data
  {
    WriteAllLeaves(crc, blobs, log, i);
  }

  function PieceWrite(h: Hasher, leafSize: nat, pieces: seq<seq<Byte>>, i: nat): (w: BlobWrite)
    requires i < |pieces|
  {
    BlobWrite(LeafKey(h, leafSize, pieces[i], i), pieces[i])
  }

  /** Every piece was written under its key, and nothing else was. */
  ghost predicate Logged(h: Hasher, leafSize: nat, log: seq<BlobWrite>, pieces: seq<seq<Byte>>) {
    && (forall i: nat :: i < |pieces| ==> PieceWrite(h, leafSize, pieces, i) in log)
    && (forall w :: w in log ==> exists i: nat :: i < |pieces| && w == PieceWrite(h, leafSize, pieces, i))
  }

  lemma LoggedSnoc(h: Hasher, leafSize: nat, log: seq<BlobWrite>, pieces: seq<seq<Byte>>, last: seq<Byte>)
    requires Logged(h, leafSize, log, pieces)
    ensures Logged(h, leafSize, log + [BlobWrite(LeafKey(h, leafSize, last, |pieces|), last)], pieces + [last])
  {
    var all := pieces + [last];
    var log' := log + [BlobWrite(LeafKey(h, leafSize, last, |pieces|), last)];
    forall i: nat | i < |all| ensures PieceWrite(h, leafSize, all, i) in log' {
      if i < |pieces| {
        assert PieceWrite(h, leafSize, all, i) == PieceWrite(h, leafSize, pieces, i);
      } else {
        assert log'[|log|] == PieceWrite(h, leafSize, all, i);
      }
    }
    forall w | w in log'
      ensures exists i: nat :: i < |all| && w == PieceWrite(h, leafSize, all, i)
    {
      if w in log {
        var i: nat :| i < |pieces| && w == PieceWrite(h, leafSize, pieces, i);
        assert w == PieceWrite(h, leafSize, all, i);
      } else {
        assert w == PieceWrite(h, leafSize, all, |pieces|);
      }
    }
  }

  // ---------------------------------------------------------------- the blob behind a root key

  /** `keys`, each 64 bytes, one after the other. */
  function KeyBytes(keys: seq<Key>): (b: seq<Byte>)
    ensures |b| == |keys| * KEY_SIZE
  {
    if keys == [] then [] else KeyBytes(keys[..|keys| - 1]) + keys[|keys| - 1]
  }

  /** All leaf keys, trailed by the root key itself. */
  function RootBlob(h: Hasher, keys: seq<Key>): (b: seq<Byte>) { KeyBytes(keys) + h.root(keys) }

  datatype Loaded = Keys(keys: seq<Key>) | TooShort | BadSize | BadChecksum

  /** Cuts a buffer into keys; a trailing part shorter than a key is an error. */
  method Leaves(data: seq<Byte>) returns (r: Loaded)
    ensures r.Keys? || r.BadSize?
    ensures r.Keys? <==> |data| % KEY_SIZE == 0
    ensures r.Keys? ==> KeyBytes(r.keys) == data
  {
    var keys: seq<Key> := [];
    var i := 0;
    while i < |data|
      invariant 0 <= i <= |data| && i == |keys| * KEY_SIZE && KeyBytes(keys) == data[..i]
    {
      if i + KEY_SIZE > |data| { return BadSize; }
      var key: Key := data[i .. i + KEY_SIZE];
      assert (keys + [key])[..|keys|] == keys;
      assert data[..i + KEY_SIZE] == data[..i] + key;
      keys := keys + [key];
      i := i + KEY_SIZE;
    }
    return Keys(keys);
  }

  /** The keys of a root blob, once its trailing key is found to be the root of the others. */
  method VerifiedKeys(h: Hasher, data: seq<Byte>) returns (r: Loaded)
    ensures r.Keys? ==> data == RootBlob(h, r.keys)
    ensures (exists keys: seq<Key> :: data == RootBlob(h, keys)) ==> r.Keys?
    ensures r.TooShort? <==> |data| < KEY_SIZE
    ensures r.BadSize? <==> |data| >= KEY_SIZE && |data| % KEY_SIZE != 0
  {
    if |data| < KEY_SIZE { return TooShort; }
    var verify: Key := data[|data| - KEY_SIZE..];
    var body := data[..|data| - KEY_SIZE];
    r := Leaves(body);
    if keys: seq<Key> :| data == RootBlob(h, keys) {
      assert body == KeyBytes(keys);
      assert |body| == |keys| * KEY_SIZE;
      if r.Keys? { KeyBytesInjective(keys, r.keys); }
    }
    if r.Keys? && verify != h.root(r.keys) { r := BadChecksum; }
  }

  lemma {:induction false} KeyBytesInjective(a: seq<Key>, b: seq<Key>)
    requires KeyBytes(a) == KeyBytes(b)
    ensures a == b
  {
    assert |a| * KEY_SIZE == |b| * KEY_SIZE;
    if a != [] {
      var n := |a| - 1;
      var x, y := KeyBytes(a), KeyBytes(b);
      assert x[..n * KEY_SIZE] == KeyBytes(a[..n]) && x[n * KEY_SIZE..] == a[n];
      assert y[..n * KEY_SIZE] == KeyBytes(b[..n]) && y[n * KEY_SIZE..] == b[n];
      KeyBytesInjective(a[..n], b[..n]);
      assert a == a[..n] + [a[n]] && b == b[..n] + [b[n]];
    }
  }

  /** Reloading a root blob gives back the leaf keys that were written into it. */
  method ReloadKeys(h: Hasher, keys: seq<Key>) returns (r: Loaded)
    ensures r == Keys(keys)
  {
    r := VerifiedKeys(h, RootBlob(h, keys));
    var a, b := RootBlob(h, keys), RootBlob(h, r.keys);
    assert |a| == |b|;
    assert |KeyBytes(keys)| == |KeyBytes(r.keys)|;
    assert a[..|KeyBytes(keys)|] == KeyBytes(keys) && b[..|KeyBytes(keys)|] == KeyBytes(r.keys);
    KeyBytesInjective(keys, r.keys);
  }
}
