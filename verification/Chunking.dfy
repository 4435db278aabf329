/** Cutting a sequence into runs of a fixed size.

    Index files hold a fixed number of entries and blob leaves a fixed number of bytes;
    both are the same cut, so it is defined once here, with the sums and sizes that several modules use. */
module Chunking {

  /** The canonical cut: every chunk holds `n` items, except a shorter non-empty last one. */
  function Chunks<T>(s: seq<T>, n: nat): (cs: seq<seq<T>>)
    requires n > 0
    decreases |s|
  {
    if |s| == 0 then []
    else if |s| <= n then [s]
    else [s[..n]] + Chunks(s[n..], n)
  }

  function Flatten<T>(cs: seq<seq<T>>): (s: seq<T>) {
    if |cs| == 0 then [] else cs[0] + Flatten(cs[1..])
  }

  lemma {:induction false} FlattenAppend<T>(a: seq<seq<T>>, b: seq<seq<T>>)
    ensures Flatten(a + b) == Flatten(a) + Flatten(b)
  {
    if |a| == 0 {
      assert a + b == b;
    } else {
      FlattenAppend(a[1..], b);
      assert (a + b)[1..] == a[1..] + b;
      assert (a + b)[0] == a[0];
    }
  }

  lemma {:induction false} FlattenSnoc<T>(a: seq<seq<T>>, last: seq<T>)
    ensures Flatten(a + [last]) == Flatten(a) + last
  {
    FlattenAppend(a, [last]);
    assert Flatten([last]) == last + Flatten<T>([]);
  }

  /** Nothing is lost or reordered, chunks are full except the last, and none is empty. */
  lemma {:induction false} ChunksShape<T>(s: seq<T>, n: nat)
    requires n > 0
    ensures Flatten(Chunks(s, n)) == s
    ensures forall i :: 0 <= i < |Chunks(s, n)| ==> 0 < |Chunks(s, n)[i]| <= n
    ensures forall i :: 0 <= i < |Chunks(s, n)| - 1 ==> |Chunks(s, n)[i]| == n
    decreases |s|
  {
    if |s| == 0 {
    } else if |s| <= n {
      assert Flatten([s]) == s + Flatten<T>([]);
    } else {
      ChunksShape(s[n..], n);
      var rest := Chunks(s[n..], n);
      assert ([s[..n]] + rest)[1..] == rest;
      assert s == s[..n] + s[n..];
      assert |rest| > 0;
      forall i | 0 <= i < |Chunks(s, n)| - 1
        ensures |Chunks(s, n)[i]| == n
      {
        if i > 0 {
          assert Chunks(s, n)[i] == rest[i - 1];
        }
      }
    }
  }

  /** The cut is the only one with that shape, so any loop that reaches the shape computes it. */
  lemma {:induction false} ChunksUnique<T>(full: seq<seq<T>>, last: seq<T>, n: nat)
    requires n > 0
    requires forall i :: 0 <= i < |full| ==> |full[i]| == n
    requires |last| < n
    ensures Chunks(Flatten(full) + last, n) == full + (if last == [] then [] else [last])
  {
    var s := Flatten(full) + last;
    if |full| == 0 {
      assert s == last;
    } else {
      ChunksUnique(full[1..], last, n);
      assert s == full[0] + (Flatten(full[1..]) + last);
      assert s[n..] == Flatten(full[1..]) + last;
      assert s[..n] == full[0];
      if |s| <= n {
        assert |Flatten(full[1..])| == 0 && last == [];
        if |full| > 1 {
          assert false;
        }
        assert full == [full[0]];
      } else {
        assert full == [full[0]] + full[1..];
      }
    }
  }

  lemma SliceOfDrop<T>(s: seq<T>, n: nat, from: nat, len: nat)
    requires n + from + len <= |s|
    ensures s[n..][from .. from + len] == s[n + from .. n + from + len]
  {
  }

  /** Chunk `i` is the slice that starts at `i * n`. */
  lemma {:induction false} ChunkAt<T>(s: seq<T>, n: nat, i: nat)
    requires n > 0
    requires i < |Chunks(s, n)|
    ensures 0 <= i * n < |s|
    ensures |Chunks(s, n)[i]| == if i * n + n <= |s| then n else |s| - i * n
    ensures Chunks(s, n)[i] == s[i * n .. i * n + |Chunks(s, n)[i]|]
    ensures i + 1 == |Chunks(s, n)| <==> |s| <= i * n + n
    decreases |s|
  {
    if |s| <= n {
      assert Chunks(s, n)[0] == s[0 .. |s|];
      assert i == 0;
    } else {
      var rest := Chunks(s[n..], n);
      assert Chunks(s, n) == [s[..n]] + rest;
      assert |rest| > 0;
      if i == 0 {
      } else {
        ChunkAt(s[n..], n, i - 1);
        var from := (i - 1) * n;
        assert i * n == n + from;
        assert Chunks(s, n)[i] == rest[i - 1];
        SliceOfDrop(s, n, from, |rest[i - 1]|);
      }
    }
  }

  /** There are just enough chunks to hold everything: one fewer would be too short. */
  lemma {:induction false} ChunkCount<T>(s: seq<T>, n: nat)
    requires n > 0
    ensures |Chunks(s, n)| * n >= |s|
    ensures |s| > 0 ==> |Chunks(s, n)| > 0 && (|Chunks(s, n)| - 1) * n < |s|
    ensures |s| == 0 ==> |Chunks(s, n)| == 0
  {
    if |s| > 0 {
      var k := |Chunks(s, n)|;
      ChunkAt(s, n, k - 1);
      assert (k - 1) * n + n == k * n;
    }
  }

  function Sum(s: seq<nat>): (n: nat) { if s == [] then 0 else s[0] + Sum(s[1..]) }

  lemma {:induction false} SumUpdate(s: seq<nat>, i: nat, v: nat)
    requires i < |s|
    ensures Sum(s[i := v]) == Sum(s) - s[i] + v
  {
    if i > 0 {
      SumUpdate(s[1..], i - 1, v);
      assert s[i := v][1..] == s[1..][i - 1 := v];
    } else {
      assert s[i := v][1..] == s[1..];
    }
  }

  lemma {:induction false} SumMonotone(a: seq<nat>, b: seq<nat>)
    requires |a| == |b| && forall i :: 0 <= i < |a| ==> a[i] <= b[i]
    ensures Sum(a) <= Sum(b)
  {
    if a != [] { SumMonotone(a[1..], b[1..]); }
  }

  /** How many elements qualify. */
  function Count<T>(s: seq<T>, p: T -> bool): (n: nat)
    ensures n <= |s|
  {
    if s == [] then 0 else Count(s[..|s| - 1], p) + if p(s[|s| - 1]) then 1 else 0
  }

  lemma {:induction false} CountAppend<T>(a: seq<T>, b: seq<T>, p: T -> bool)
    ensures Count(a + b, p) == Count(a, p) + Count(b, p)
    decreases |b|
  {
    if b == [] {
      assert a + b == a;
    } else {
      var n := |b| - 1;
      CountAppend(a, b[..n], p);
      assert (a + b)[..|a + b| - 1] == a + b[..n];
    }
  }

  lemma {:induction false} CountMonotone<T>(s: seq<T>, p: T -> bool, q: T -> bool)
    requires forall x :: p(x) ==> q(x)
    ensures Count(s, p) <= Count(s, q)
  {
    if s != [] { CountMonotone(s[..|s| - 1], p, q); }
  }

  /** Three kinds that exclude each other and leave nothing out. */
  lemma {:induction false} CountThree<T>(s: seq<T>, p: T -> bool, q: T -> bool, r: T -> bool)
    requires forall x :: (if p(x) then 1 else 0) + (if q(x) then 1 else 0) + (if r(x) then 1 else 0) == 1
    ensures Count(s, p) + Count(s, q) + Count(s, r) == |s|
  {
    if s != [] { CountThree(s[..|s| - 1], p, q, r); }
  }

  /** Counting part by part. */
  lemma {:induction false} CountFlatten<T>(cs: seq<seq<T>>, counts: seq<nat>, p: T -> bool)
    requires |counts| == |cs| && forall i :: 0 <= i < |cs| ==> counts[i] == Count(cs[i], p)
    ensures Sum(counts) == Count(Flatten(cs), p)
  {
    if cs != [] {
      CountFlatten(cs[1..], counts[1..], p);
      CountAppend(cs[0], Flatten(cs[1..]), p);
    }
  }

  lemma {:induction false} SumBounded<T>(s: seq<nat>, cs: seq<seq<T>>)
    requires |s| == |cs| && forall i :: 0 <= i < |s| ==> s[i] <= |cs[i]|
    ensures Sum(s) <= |Flatten(cs)|
    ensures (forall i :: 0 <= i < |s| ==> s[i] == |cs[i]|) ==> Sum(s) == |Flatten(cs)|
  {
    if s != [] { SumBounded(s[1..], cs[1..]); }
  }

  lemma {:induction false} SubsetSize<T>(a: set<T>, b: set<T>)
    requires a <= b
    ensures |a| <= |b|
  {
    if a != {} {
      var x :| x in a;
      SubsetSize(a - {x}, b - {x});
    }
  }
}
