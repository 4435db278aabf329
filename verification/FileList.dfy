/** Index files: packing file entries into numbered lists and unpacking them in any download order. */
module FileList {
  import opened Chunking

  /** Fills a list until it holds `perFile` entries, writes it out and starts a new one. */
  method Pack<T>(entries: seq<T>, perFile: nat) returns (files: seq<seq<T>>, count: nat)
    requires perFile > 0
    ensures files == Chunks(entries, perFile)
    ensures count == |files|
  {
    var fileList: seq<T> := [];
    files, count := [], 0;
    for i := 0 to |entries|
      invariant count == |files|
      invariant |fileList| < perFile
      invariant forall k :: 0 <= k < |files| ==> |files[k]| == perFile
      invariant Flatten(files) + fileList == entries[..i]
    {
      fileList := fileList + [entries[i]];
      assert entries[..i + 1] == entries[..i] + [entries[i]];
      if |fileList| == perFile {
        FlattenSnoc(files, fileList);
        files := files + [fileList];
        count := count + 1;
        fileList := [];
      }
    }
    assert entries[..|entries|] == entries;
    ChunksUnique(files, fileList, perFile);
    if |fileList| != 0 {
      files := files + [fileList];
      count := count + 1;
    }
  }

  datatype Unpacked<T> = Entries(entries: seq<T>) | UnexpectedCount(got: nat)

  /** An order in which every one of the `count` numbered files arrives once. */
  ghost predicate ArrivalOrder(order: seq<nat>, count: nat) {
    && |order| == count
    && (forall k :: 0 <= k < |order| ==> order[k] < count)
    && (forall i: nat :: i < count ==> i in order)
    && (forall j, k :: 0 <= j < k < |order| ==> order[j] != order[k])
  }

  /** What the reader accepts: full lists, then a last one that may be shorter. */
  ghost predicate WellCut<T>(files: seq<seq<T>>, perFile: nat) {
    && (forall i :: 0 <= i < |files| - 1 ==> |files[i]| == perFile)
    && (|files| > 0 ==> |files[|files| - 1]| <= perFile)
  }

  /** `copy(dst[from:], src)` of a Go slice: as many items as fit. */
  function CopyInto<T>(dst: seq<T>, from: nat, src: seq<T>): (r: seq<T>)
    requires from <= |dst|
    ensures |r| == |dst|
    ensures r[..from] == dst[..from]
    ensures from + |src| <= |dst| ==> r[from .. from + |src|] == src && r[from + |src|..] == dst[from + |src|..]
  {
    var n := if |src| <= |dst| - from then |src| else |dst| - from;
    dst[..from] + src[..n] + dst[from + n..]
  }

  ghost predicate HoldsAt<T>(s: seq<T>, from: int, part: seq<T>) {
    0 <= from && from + |part| <= |s| && s[from .. from + |part|] == part
  }

  lemma CopyKeeps<T>(dst: seq<T>, from: nat, src: seq<T>, other: int, part: seq<T>)
    requires from + |src| <= |dst|
    requires HoldsAt(dst, other, part)
    requires other + |part| <= from || from + |src| <= other
    ensures HoldsAt(CopyInto(dst, from, src), other, part)
  {
    var r := CopyInto(dst, from, src);
    if other + |part| <= from {
      assert r[other .. other + |part|] == r[..from][other .. other + |part|];
      assert dst[other .. other + |part|] == dst[..from][other .. other + |part|];
    } else {
      var end := from + |src|;
      SliceOfDrop(r, end, other - end, |part|);
      SliceOfDrop(dst, end, other - end, |part|);
    }
  }

  lemma Apart(i: nat, j: nat, n: nat)
    requires i < j
    ensures i * n + n <= j * n
  {
    assert (i + 1) * n <= j * n;
  }

  lemma {:induction false} FullPrefix<T>(s: seq<T>, files: seq<seq<T>>, perFile: nat, k: nat)
    requires WellCut(files, perFile)
    requires k < |files|
    requires forall i: nat :: i < |files| ==> HoldsAt(s, Start(i, perFile), files[i])
    ensures Start(k, perFile) <= |s| && Flatten(files[..k]) == s[..Start(k, perFile)]
  {
    assert HoldsAt(s, Start(k, perFile), files[k]);
    if k == 0 {
      assert files[..0] == [];
    } else {
      FullPrefix(s, files, perFile, k - 1);
      FlattenSnoc(files[..k - 1], files[k - 1]);
      assert files[..k] == files[..k - 1] + [files[k - 1]];
      var from := Start(k - 1, perFile);
      assert HoldsAt(s, from, files[k - 1]);
      assert from + perFile == Start(k, perFile);
      assert s[..from + perFile] == s[..from] + s[from .. from + perFile];
    }
  }

  /** Lists that are all in their places make up the whole concatenation. */
  lemma Assembled<T>(s: seq<T>, files: seq<seq<T>>, perFile: nat)
    requires WellCut(files, perFile)
    requires forall i: nat :: i < |files| ==> HoldsAt(s, Start(i, perFile), files[i])
    requires |s| == if |files| == 0 then 0 else Start(|files| - 1, perFile) + |files[|files| - 1]|
    ensures s == Flatten(files)
  {
    if |files| > 0 {
      var k := |files| - 1;
      FullPrefix(s, files, perFile, k);
      FlattenSnoc(files[..k], files[k]);
      assert files == files[..k] + [files[k]];
      assert HoldsAt(s, Start(k, perFile), files[k]);
      TwoParts(s, Start(k, perFile));
    }
  }

  lemma TwoParts<T>(s: seq<T>, k: nat)
    requires k <= |s|
    ensures s == s[..k] + s[k..|s|]
  {
  }

  /** Where the `i`-th list starts in the preallocated slice. */
  function Start(i: nat, perFile: nat): (r: nat) { i * perFile }

  /** The lists `seen` so far are in their places, in a slice that was cut once the last one came. */
  ghost predicate Placed<T>(s: seq<T>, files: seq<seq<T>>, perFile: nat, seen: seq<nat>) {
    var count := |files|;
    && (forall i :: i in seen ==> i < count)
    && (forall i :: i in seen ==> HoldsAt(s, Start(i, perFile), files[i]))
    && (forall i :: i in seen && i < count - 1 ==> |files[i]| == perFile)
    && (if count > 0 && count - 1 in seen
        then |files[count - 1]| <= perFile && |s| == Start(count - 1, perFile) + |files[count - 1]|
        else |s| == Start(count, perFile))
  }

  /** One more list: copied to its place; the last one also cuts the unused tail. */
  function Arrive<T>(s: seq<T>, files: seq<seq<T>>, perFile: nat, i: nat): (r: seq<T>)
    requires i < |files| && Start(i, perFile) <= |s|
    requires i + 1 == |files| ==> |files[i]| <= perFile && perFile - |files[i]| <= |s|
  {
    var copied := CopyInto(s, Start(i, perFile), files[i]);
    if i + 1 == |files| then copied[..|copied| - (perFile - |files[i]|)] else copied
  }

  lemma RoomFor<T>(s: seq<T>, files: seq<seq<T>>, perFile: nat, seen: seq<nat>, i: nat)
    requires Placed(s, files, perFile, seen)
    requires i < |files| && i !in seen
    ensures Start(i, perFile) <= |s|
    ensures |files[i]| <= perFile ==> Start(i, perFile) + |files[i]| <= |s|
    ensures i + 1 == |files| ==> perFile <= |s|
  {
    Apart(i, |files|, perFile);
    if i < |files| - 1 { Apart(i, |files| - 1, perFile); }
  }

  lemma ArriveKeepsPlaced<T>(s: seq<T>, files: seq<seq<T>>, perFile: nat, seen: seq<nat>, i: nat)
    requires Placed(s, files, perFile, seen)
    requires i < |files| && i !in seen
    requires if i + 1 == |files| then |files[i]| <= perFile else |files[i]| == perFile
    ensures Start(i, perFile) <= |s| && (i + 1 == |files| ==> perFile - |files[i]| <= |s|)
    ensures Placed(Arrive(s, files, perFile, i), files, perFile, seen + [i])
  {
    RoomFor(s, files, perFile, seen, i);
    var from := Start(i, perFile);
    var copied := CopyInto(s, from, files[i]);
    var r := Arrive(s, files, perFile, i);
    Apart(i, |files|, perFile);
    assert i + 1 == |files| ==> from + perFile == Start(|files|, perFile);
    forall j | j in seen
      ensures HoldsAt(r, Start(j, perFile), files[j])
    {
      if j < i { Apart(j, i, perFile); } else { Apart(i, j, perFile); }
      CopyKeeps(s, from, files[i], Start(j, perFile), files[j]);
      assert i + 1 == |files| ==> j < i;
      CutKeeps(copied, |r|, Start(j, perFile), files[j]);
    }
    CutKeeps(copied, |r|, from, files[i]);
  }

  lemma CutKeeps<T>(s: seq<T>, n: nat, from: int, part: seq<T>)
    requires n <= |s| && HoldsAt(s, from, part) && from + |part| <= n
    ensures HoldsAt(s[..n], from, part)
  {
    assert s[..n][from .. from + |part|] == s[from .. from + |part|];
  }

  /** Unpacks lists as they arrive. `zero` is the value a preallocated slot holds. */
  /** The list has this many entries, which are not as many as its place demands. */
  predicate IsBad<T>(files: seq<seq<T>>, perFile: nat, i: nat, got: nat) {
    i < |files| && got == |files[i]| && if i + 1 == |files| then got > perFile else got != perFile
  }

  method Unpack<T>(files: seq<seq<T>>, perFile: nat, order: seq<nat>, zero: T)
      returns (r: Unpacked<T>)
    requires ArrivalOrder(order, |files|)
    ensures r.Entries? <==> WellCut(files, perFile)
    ensures r.Entries? ==> r.entries == Flatten(files)
    ensures r.UnexpectedCount? ==> exists i :: IsBad(files, perFile, i, r.got)
  {
    var count := |files|;
    var entries := seq(Start(count, perFile), _ => zero);
    for k := 0 to count
      invariant Placed(entries, files, perFile, order[..k])
    {
      var idx, list := order[k], files[order[k]];
      RoomFor(entries, files, perFile, order[..k], idx);
      if idx + 1 == count {
        if perFile < |list| {
          assert IsBad(files, perFile, idx, |list|);
          return UnexpectedCount(|list|);
        }
      } else if |list| != perFile {
        assert IsBad(files, perFile, idx, |list|);
        return UnexpectedCount(|list|);
      }
      ArriveKeepsPlaced(entries, files, perFile, order[..k], idx);
      assert order[..k + 1] == order[..k] + [idx];
      entries := Arrive(entries, files, perFile, idx);
    }
    assert order[..count] == order;
    Assembled(entries, files, perFile);
    return Entries(entries);
  }

  /** Unpacking what was packed gives back the same entries, in every arrival order. */
  method PackUnpack<T>(entries: seq<T>, perFile: nat, order: seq<nat>, zero: T)
      returns (back: Unpacked<T>)
    requires perFile > 0
    requires ArrivalOrder(order, |Chunks(entries, perFile)|)
    ensures back == Entries(entries)
  {
    var files, count := Pack(entries, perFile);
    ChunksShape(entries, perFile);
    back := Unpack(files, perFile, order, zero);
  }
}
