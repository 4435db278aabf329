/** The chunking writer: fills a leaf buffer, hands full leaves to parallel flushes, and numbers them. */
module CafsWriter {
  import opened Chunking
  import opened Cafs

  // ---------------------------------------------------------------- how far one Write call gets

  datatype WriteState = Going(offset: nat, written: nat) | Returned | OutOfRange

  /** Bytes copied by one turn of the Write loop. The end of the source slice is the room left in the
      buffer, capped by the input length, and is taken from the start of the input; past it, slicing fails. */
  function CopySize(leafSize: nat, offset: nat, written: nat, len: nat): (c: int)
    requires offset < leafSize && written <= len
    ensures c <= len - written && c <= leafSize - offset
    ensures c < 0 ==> c == -1
  {
    var room := leafSize - offset;
    var writable := if len < room then len else room;
    if written > writable then -1
    else if writable - written < room then writable - written else room
  }

  function Turn(leafSize: nat, len: nat, w: WriteState): (w': WriteState)
    requires w.Going? ==> w.offset < leafSize && w.written <= len
    ensures w'.Going? ==> w'.offset < leafSize && w'.written <= len
  {
    match w
    case Going(offset, written) =>
      if written == len then Returned
      else
        var c := CopySize(leafSize, offset, written, len);
        if c < 0 then OutOfRange
        else Going(if offset + c == leafSize then 0 else offset + c, written + c)
    case _ => w
  }

  function Turns(leafSize: nat, len: nat, w: WriteState, n: nat): (w': WriteState)
    requires w.Going? ==> w.offset < leafSize && w.written <= len
    decreases n
  {
    if n == 0 then w else Turns(leafSize, len, Turn(leafSize, len, w), n - 1)
  }

  lemma {:induction false} StuckStays(leafSize: nat, len: nat, w: WriteState, n: nat)
    requires w.Going? ==> w.offset < leafSize && w.written <= len
    requires Turn(leafSize, len, w) == w
    ensures Turns(leafSize, len, w, n) == w
  {
    if n > 0 { StuckStays(leafSize, len, w, n - 1); }
  }

  lemma {:induction false} TurnsAdd(leafSize: nat, len: nat, w: WriteState, a: nat, b: nat)
    requires w.Going? ==> w.offset < leafSize && w.written <= len
    ensures var v := Turns(leafSize, len, w, a);
      (v.Going? ==> v.offset < leafSize && v.written <= len) && Turns(leafSize, len, w, a + b) == Turns(leafSize, len, v, b)
    decreases a
  {
    if a > 0 { TurnsAdd(leafSize, len, Turn(leafSize, len, w), a - 1, b); }
  }

  /** After three turns the call has returned, or will never do. */
  lemma ThreeTurns(leafSize: nat, len: nat, offset: nat)
    requires offset < leafSize
    ensures var w := Turns(leafSize, len, Going(offset, 0), 3);
      && (w.Going? ==> w.offset < leafSize && w.written <= len)
      && Turn(leafSize, len, w) == w
      && (w == Returned <==> len <= leafSize)
      && (w.Going? <==> len > leafSize && offset == 0)
  {
    var w0 := Going(offset, 0);
    var w1 := Turn(leafSize, len, w0);
    var w2 := Turn(leafSize, len, w1);
    var w3 := Turn(leafSize, len, w2);
    assert Turns(leafSize, len, w2, 1) == Turns(leafSize, len, w3, 0) == w3;
    assert Turns(leafSize, len, w1, 2) == Turns(leafSize, len, w2, 1);
    assert Turns(leafSize, len, w0, 3) == Turns(leafSize, len, w1, 2);
  }

  /** A Write call returns exactly when its input is no longer than a leaf. Beyond that it spins for ever
      when the buffer is empty, and slices out of range when it is not. */
  lemma WriteReturnsIff(leafSize: nat, len: nat, offset: nat)
    requires offset < leafSize
    ensures (exists n :: Turns(leafSize, len, Going(offset, 0), n) == Returned) <==> len <= leafSize
    ensures len > leafSize && offset > 0 ==> Turns(leafSize, len, Going(offset, 0), 3) == OutOfRange
    ensures len > leafSize && offset == 0 ==> forall n :: n >= 3 ==> Turns(leafSize, len, Going(offset, 0), n).Going?
  {
    var w0 := Going(offset, 0);
    var w3 := Turns(leafSize, len, w0, 3);
    ThreeTurns(leafSize, len, offset);
    forall n: nat
      ensures Turns(leafSize, len, w0, n) == Returned ==> w3 == Returned
      ensures n >= 3 ==> Turns(leafSize, len, w0, n) == w3
    {
      if n >= 3 {
        TurnsAdd(leafSize, len, w0, 3, n - 3);
        StuckStays(leafSize, len, w3, n - 3);
      } else {
        TurnsAdd(leafSize, len, w0, n, 3 - n);
        if Turns(leafSize, len, w0, n) == Returned { StuckStays(leafSize, len, Returned, 3 - n); }
      }
    }
  }

  lemma AppendPart(before: seq<Byte>, p: seq<Byte>, from: nat, n: nat)
    requires from + n <= |p|
    ensures before + p[..from] + p[from .. from + n] == before + p[..from + n]
  {
  }

  lemma AppendAll(a: seq<Byte>, b: seq<Byte>, c: seq<Byte>)
    ensures a + (b + c) == (a + b) + c
  {
  }

  lemma AppendNothing(a: seq<Byte>)
    ensures a + [] == a
  {
  }

  lemma CopyProgress(leafSize: nat, offset: nat, written: nat, len: nat)
    requires offset < leafSize && written < len <= leafSize
    requires written > 0 ==> offset == 0
    ensures 0 < CopySize(leafSize, offset, written, len)
    ensures var c := CopySize(leafSize, offset, written, len); written + c < len ==> offset + c == leafSize
  {
  }

  // ---------------------------------------------------------------- the writer itself

  datatype BlobFlush = BlobFlush(count: nat, key: Key)

  ghost predicate FlushOk(h: Hasher, full: seq<seq<Byte>>, inFlight: map<nat, seq<Byte>>, bf: BlobFlush) {
    && 1 <= bf.count <= |full| && bf.count !in inFlight
    && bf.key == h.leaf(full[bf.count - 1], bf.count, false)
  }

  /** Each leaf handed out is either still in flight or has completed once, under its own number. */
  ghost predicate FlushesOk(h: Hasher, leafSize: nat, full: seq<seq<Byte>>, inFlight: map<nat, seq<Byte>>,
                            flushes: seq<BlobFlush>, log: seq<BlobWrite>) {
    && (forall i :: 0 <= i < |full| ==> |full[i]| == leafSize)
    && (forall c :: c in inFlight ==> 1 <= c <= |full| && inFlight[c] == full[c - 1])
    && (forall x :: 0 <= x < |flushes| ==> FlushOk(h, full, inFlight, flushes[x]))
    && (forall x, y :: 0 <= x < y < |flushes| ==> flushes[x].count != flushes[y].count)
    && |flushes| + |inFlight| == |full|
    && |log| == |flushes|
    && (forall x :: 0 <= x < |log| ==> log[x] == BlobWrite(flushes[x].key, full[flushes[x].count - 1]))
  }

  lemma HandOut(h: Hasher, leafSize: nat, full: seq<seq<Byte>>, inFlight: map<nat, seq<Byte>>,
                flushes: seq<BlobFlush>, log: seq<BlobWrite>, piece: seq<Byte>)
    requires FlushesOk(h, leafSize, full, inFlight, flushes, log) && |piece| == leafSize
    ensures FlushesOk(h, leafSize, full + [piece], inFlight[|full| + 1 := piece], flushes, log)
  {
    var full', inFlight' := full + [piece], inFlight[|full| + 1 := piece];
    assert |full| + 1 !in inFlight;
    forall x | 0 <= x < |flushes| ensures FlushOk(h, full', inFlight', flushes[x]) {
      assert FlushOk(h, full, inFlight, flushes[x]);
    }
    forall x | 0 <= x < |log| ensures log[x] == BlobWrite(flushes[x].key, full'[flushes[x].count - 1]) {
      assert FlushOk(h, full, inFlight, flushes[x]);
    }
  }

  lemma Completed(h: Hasher, leafSize: nat, full: seq<seq<Byte>>, inFlight: map<nat, seq<Byte>>,
                  flushes: seq<BlobFlush>, log: seq<BlobWrite>, c: nat)
    requires FlushesOk(h, leafSize, full, inFlight, flushes, log) && c in inFlight
    ensures var key := h.leaf(inFlight[c], c, false);
      FlushesOk(h, leafSize, full, inFlight - {c}, flushes + [BlobFlush(c, key)], log + [BlobWrite(key, inFlight[c])])
    ensures |inFlight - {c}| == |inFlight| - 1
  {
    var key := h.leaf(inFlight[c], c, false);
    var flushes' := flushes + [BlobFlush(c, key)];
    assert (inFlight - {c}).Keys == inFlight.Keys - {c};
    forall x | 0 <= x < |flushes'| ensures FlushOk(h, full, inFlight - {c}, flushes'[x]) {
      if x < |flushes| { assert FlushOk(h, full, inFlight, flushes[x]); }
    }
    forall x, y | 0 <= x < y < |flushes'| ensures flushes'[x].count != flushes'[y].count {
      assert FlushOk(h, full, inFlight, flushes[x]);
    }
    forall x | 0 <= x < |flushes'|
      ensures (log + [BlobWrite(key, inFlight[c])])[x] == BlobWrite(flushes'[x].key, full[flushes'[x].count - 1])
    {
      if x < |flushes| { assert FlushOk(h, full, inFlight, flushes[x]); }
    }
  }

  class FsWriter {
    const h: Hasher
    const crc: Checksum
    const leafSize: nat
    var buf: array<Byte>                // the leaf being filled
    var offset: nat                     // how much of it is used
    var count: nat                      // full leaves handed out so far
    var inFlight: map<nat, seq<Byte>>   // leaves whose flush has not completed
    var blobFlushes: seq<BlobFlush>     // completed flushes, in completion order
    var blobs: Blobs
    var leaves: seq<Key>
    ghost const initial: Blobs
    ghost var full: seq<seq<Byte>>      // the leaves handed out, in order
    ghost var log: seq<BlobWrite>       // blob writes, in the order they reached the store

    ghost predicate Valid()
      reads this, buf
    {
      && leafSize > 0 && buf.Length == leafSize && offset < leafSize
      && count == |full|
      && FlushesOk(h, leafSize, full, inFlight, blobFlushes, log)
      && blobs == WriteAll(crc, initial, log)
    }

    /** Everything written so far. */
    ghost function Content(): (s: seq<Byte>)
      requires Valid()
      reads this, buf
    {
      Flatten(full) + buf[..offset]
    }

    constructor (h: Hasher, crc: Checksum, leafSize: nat, blobs: Blobs)
      requires leafSize > 0
      ensures Valid() && fresh(buf) && Content() == []
      ensures this.h == h && this.crc == crc && this.leafSize == leafSize && initial == blobs
    {
      this.h, this.crc, this.leafSize := h, crc, leafSize;
      buf := new Byte[leafSize](_ => 0);
      offset, count := 0, 0;
      inFlight, blobFlushes, leaves := map[], [], [];
      this.blobs, initial := blobs, blobs;
      full, log := [], [];
    }

    /** Copies the input into the buffer, handing out the leaf each time it is full. */
    method Write(p: seq<Byte>) returns (n: nat)
      requires Valid() && |p| <= leafSize
      modifies this, buf
      ensures Valid() && (buf == old(buf) || fresh(buf))
      ensures n == |p|
      ensures Content() == old(Content()) + p
    {
      ghost var before := Content();
      var written := 0;
      while written != |p|
        invariant Valid() && (buf == old(buf) || fresh(buf))
        invariant 0 <= written <= |p|
        invariant 0 < written < |p| ==> offset == 0
        invariant Content() == before + p[..written]
        decreases |p| - written
      {
        CopyProgress(leafSize, offset, written, |p|);
        var c := CopySize(leafSize, offset, written, |p|);
        AppendPart(before, p, written, c);
        Fill(p[written .. written + c]);
        written := written + c;
      }
      assert p[..|p|] == p;
      return written;
    }

    /** Copies bytes that fit into the buffer and hands the leaf out if that fills it. */
    method Fill(part: seq<Byte>)
      requires Valid() && offset + |part| <= leafSize
      modifies this, buf
      ensures Valid() && (buf == old(buf) || fresh(buf))
      ensures Content() == old(Content()) + part
      ensures offset == if old(offset) + |part| == leafSize then 0 else old(offset) + |part|
    {
      ghost var before := buf[..offset];
      CopyIn(part);
      AppendAll(Flatten(full), before, part);
      offset := offset + |part|;
      if offset == leafSize {
        HandOutBuffer(before + part);
      }
    }

    /** The copy itself. */
    method CopyIn(part: seq<Byte>)
      requires buf.Length == leafSize && offset + |part| <= leafSize
      modifies buf
      ensures buf[..offset + |part|] == old(buf[..offset]) + part
    {
      forall i | 0 <= i < |part| { buf[offset + i] := part[i]; }
      assert buf[..offset] == old(buf[..offset]);
      assert buf[offset .. offset + |part|] == part;
    }

    method HandOutBuffer(ghost piece: seq<Byte>)
      requires leafSize > 0 && buf.Length == leafSize && offset == leafSize && count == |full|
      requires FlushesOk(h, leafSize, full, inFlight, blobFlushes, log) && blobs == WriteAll(crc, initial, log)
      requires buf[..] == piece
      modifies this
      ensures Valid() && fresh(buf) && offset == 0
      ensures Content() == Flatten(old(full)) + piece
    {
      HandOut(h, leafSize, full, inFlight, blobFlushes, log, piece);
      FlattenSnoc(full, piece);
      AppendNothing(Flatten(full + [piece]));
      count := count + 1;
      inFlight := inFlight[count := buf[..]];
      full := full + [piece];
      buf := new Byte[leafSize](_ => 0);
      offset := 0;
      assert buf[..offset] == [];
    }

    /** One of the parallel flushes completes; any of them may be next. */
    method CompleteFlush(c: nat)
      requires Valid() && c in inFlight
      modifies this`inFlight, this`blobFlushes, this`blobs, this`log
      ensures Valid() && inFlight == old(inFlight) - {c} && |inFlight| < |old(inFlight)|
      ensures Content() == old(Content())
    {
      Completed(h, leafSize, full, inFlight, blobFlushes, log, c);
      var data := inFlight[c];
      var key := h.leaf(data, c, false);
      blobs := WriteBlob(crc, blobs, key, data);
      log := log + [BlobWrite(key, data)];
      assert log[..|log| - 1] == old(log);
      inFlight := inFlight - {c};
      blobFlushes := blobFlushes + [BlobFlush(c, key)];
    }

    /** Waits until nothing is in flight. */
    method AwaitFlushes()
      requires Valid()
      modifies this`inFlight, this`blobFlushes, this`blobs, this`log
      ensures Valid() && inFlight == map[]
      ensures Content() == old(Content())
    {
      while inFlight != map[]
        invariant Valid() && Content() == old(Content())
        decreases |inFlight|
      {
        var c :| c in inFlight;
        CompleteFlush(c);
      }
    }

    /** Waits for all flushes, orders their keys, then writes the partial last leaf and computes the root. */
    method Flush() returns (root: Key, keys: seq<Byte>)
      requires Valid()
      modifies this
      ensures leaves == LeafKeys(h, leafSize, old(Content()))
      ensures root == h.root(leaves) && keys == KeyBytes(leaves)
      ensures blobs == WriteAll(crc, initial, log)
      ensures Logged(h, leafSize, log, Chunks(old(Content()), leafSize))
    {
      AwaitFlushes();
      leaves := OrderedKeys();
      LoggedFull();
      KeysOfCut(h, leafSize, full, buf[..offset], leaves);
      if offset != 0 { FlushLast(); }
      root := h.root(leaves);
      keys := KeyBytes(leaves);
    }

    /** The partial last leaf, numbered by its index and flagged as the last node. */
    method FlushLast()
      requires buf.Length == leafSize && 0 < offset < leafSize && |leaves| == |full|
      requires Logged(h, leafSize, log, full) && blobs == WriteAll(crc, initial, log)
      modifies this`blobs, this`log, this`leaves, this`offset
      ensures leaves == old(leaves) + [LeafKey(h, leafSize, old(buf[..offset]), |full|)]
      ensures blobs == WriteAll(crc, initial, log)
      ensures Logged(h, leafSize, log, full + [old(buf[..offset])])
    {
      var last := buf[..offset];
      var leafKey := h.leaf(last, |leaves|, true);
      LoggedSnoc(h, leafSize, log, full, last);
      blobs := WriteBlob(crc, blobs, leafKey, last);
      log := log + [BlobWrite(leafKey, last)];
      assert log[..|log| - 1] == old(log);
      leaves := leaves + [leafKey];
      offset := 0;
    }

    /** Places each key by its number, whatever the completion order. */
    method OrderedKeys() returns (keys: seq<Key>)
      requires Valid() && inFlight == map[]
      ensures |keys| == count
      ensures forall i :: 0 <= i < count ==> keys[i] == h.leaf(full[i], i + 1, false)
    {
      keys := seq(|blobFlushes|, _ => seq(KEY_SIZE, _ => 0));
      assert |blobFlushes| == count;
      for x := 0 to |blobFlushes|
        invariant |keys| == count
        invariant forall y :: 0 <= y < x ==> keys[blobFlushes[y].count - 1] == blobFlushes[y].key
      {
        assert FlushOk(h, full, inFlight, blobFlushes[x]);
        keys := keys[blobFlushes[x].count - 1 := blobFlushes[x].key];
      }
      forall i | 0 <= i < count
        ensures keys[i] == h.leaf(full[i], i + 1, false)
      {
        var y := FlushOf(i + 1);
        assert FlushOk(h, full, inFlight, blobFlushes[y]);
      }
    }

    /** Once nothing is in flight, each leaf handed out has completed. */
    lemma FlushOf(c: nat) returns (y: nat)
      requires Valid() && inFlight == map[] && 1 <= c <= count
      ensures y < |blobFlushes| && blobFlushes[y].count == c
    {
      var counts := seq(|blobFlushes|, x requires 0 <= x < |blobFlushes| reads this => blobFlushes[x].count);
      assert forall x :: 0 <= x < |counts| ==> FlushOk(h, full, inFlight, blobFlushes[x]);
      NumbersCovered(counts, count, c);
      y :| 0 <= y < |counts| && counts[y] == c;
    }

    lemma LoggedFull()
      requires Valid() && inFlight == map[]
      ensures Logged(h, leafSize, log, full)
    {
      forall i: nat | i < |full| ensures PieceWrite(h, leafSize, full, i) in log {
        var y := FlushOf(i + 1);
        assert FlushOk(h, full, inFlight, blobFlushes[y]);
        assert log[y] == PieceWrite(h, leafSize, full, i);
      }
      forall w | w in log
        ensures exists i: nat :: i < |full| && w == PieceWrite(h, leafSize, full, i)
      {
        var x :| 0 <= x < |log| && log[x] == w;
        assert FlushOk(h, full, inFlight, blobFlushes[x]);
        assert w == PieceWrite(h, leafSize, full, blobFlushes[x].count - 1);
      }
    }
  }

  /** The keys of full leaves, and of the last one if any, are those of the content they cut. */
  lemma KeysOfCut(h: Hasher, leafSize: nat, full: seq<seq<Byte>>, last: seq<Byte>, keys: seq<Key>)
    requires |last| < leafSize && |keys| == |full|
    requires forall i :: 0 <= i < |full| ==> |full[i]| == leafSize
    requires forall i :: 0 <= i < |full| ==> keys[i] == h.leaf(full[i], i + 1, false)
    ensures var content := Flatten(full) + last;
      && Chunks(content, leafSize) == (if |last| == 0 then full else full + [last])
      && LeafKeys(h, leafSize, content) == if |last| == 0 then keys else keys + [LeafKey(h, leafSize, last, |full|)]
  {
    ChunksUnique(full, last, leafSize);
    assert full + [] == full;
  }

  function Numbers(n: nat): (r: set<nat>)
    ensures |r| == n && forall x :: x in r <==> 1 <= x <= n
  {
    if n == 0 then {} else Numbers(n - 1) + {n}
  }

  function Members(s: seq<nat>): (r: set<nat>)
    ensures forall x :: x in r <==> x in s
  {
    set x | x in s
  }

  lemma {:induction false} DistinctSize(s: seq<nat>)
    requires forall i, j :: 0 <= i < j < |s| ==> s[i] != s[j]
    ensures |Members(s)| == |s|
  {
    if s != [] {
      var n := |s| - 1;
      DistinctSize(s[..n]);
      assert s == s[..n] + [s[n]];
      assert s[n] !in s[..n];
      assert Members(s) == Members(s[..n]) + {s[n]};
    } else {
      assert Members(s) == {};
    }
  }

  lemma {:induction false} SubsetIsAll(a: set<nat>, b: set<nat>)
    requires a <= b && |a| == |b|
    ensures a == b
  {
    if a != {} {
      var x :| x in a;
      SubsetIsAll(a - {x}, b - {x});
    }
  }

  /** As many distinct numbers as the range they lie in cover that range. */
  lemma NumbersCovered(s: seq<nat>, n: nat, c: nat)
    requires |s| == n && 1 <= c <= n
    requires forall i :: 0 <= i < n ==> 1 <= s[i] <= n
    requires forall i, j :: 0 <= i < j < n ==> s[i] != s[j]
    ensures c in s
  {
    DistinctSize(s);
    SubsetIsAll(Members(s), Numbers(n));
    assert c in Members(s);
  }
}
