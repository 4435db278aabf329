/** Updating a downloaded bundle in place: the difference of two bundles, and applying it. */
module BundleDiff {
  import opened Chunking

  type Name = string
  type Hash = string

  datatype Entry = Entry(name: Name, hash: Hash, size: nat)

  datatype Kind = Add | Del | Dif

  /** `existing` and `additional` are the hashes on the two sides, empty where there is none. */
  datatype DiffEntry = DiffEntry(kind: Kind, name: Name, existing: Hash, additional: Hash)

  /** A destination: the names it holds, each with the hash of its content. */
  type Files = map<Name, Hash>

  datatype Maybe = Absent | Has(hash: Hash)

  function At(files: Files, n: Name): (m: Maybe) { if n in files then Has(files[n]) else Absent }

  /** The files of a list of entries; of several with one name, the last. */
  function FilesOf(entries: seq<Entry>): (f: Files) {
    if entries == [] then map[] else FilesOf(entries[..|entries| - 1])[entries[|entries| - 1].name := entries[|entries| - 1].hash]
  }

  /** Of several entries with one name, the last counts. */
  lemma {:induction false} FilesOfLast(entries: seq<Entry>, n: Name, h: Hash)
    ensures At(FilesOf(entries), n) == Has(h) <==>
      exists i :: 0 <= i < |entries| && entries[i].name == n && entries[i].hash == h && forall j :: i < j < |entries| ==> entries[j].name != n
  {
    if entries != [] {
      var m := |entries| - 1;
      FilesOfLast(entries[..m], n, h);
      assert forall i :: 0 <= i < m ==> entries[..m][i] == entries[i];
      if entries[m].name != n {
        if i :| 0 <= i < m && entries[..m][i].name == n && entries[..m][i].hash == h && forall j :: i < j < m ==> entries[..m][j].name != n {
          assert forall j :: i < j < |entries| ==> j == m || entries[j] == entries[..m][j];
        }
      }
    }
  }

  /** With unique names, each entry is there with its own hash. */
  lemma {:induction false} FilesOfUnique(entries: seq<Entry>, n: Name, h: Hash)
    requires forall i, j :: 0 <= i < j < |entries| ==> entries[i].name != entries[j].name
    ensures At(FilesOf(entries), n) == Has(h) <==> exists i :: 0 <= i < |entries| && entries[i].name == n && entries[i].hash == h
  {
    if entries != [] {
      var m := |entries| - 1;
      FilesOfUnique(entries[..m], n, h);
      assert forall i :: 0 <= i < m ==> entries[..m][i] == entries[i];
    }
  }

  method Collect(entries: seq<Entry>) returns (f: Files)
    ensures f == FilesOf(entries)
  {
    f := map[];
    for i := 0 to |entries|
      invariant f == FilesOf(entries[..i])
    {
      assert entries[..i + 1][..i] == entries[..i];
      f := f[entries[i].name := entries[i].hash];
    }
    assert entries[..|entries|] == entries;
  }

  // ---------------------------------------------------------------- the difference

  /** The entry says how the two sides differ at its name. */
  predicate Describes(a: Files, b: Files, d: DiffEntry) {
    match d.kind
    case Add => d.name !in a && d.name in b && d.existing == "" && d.additional == b[d.name]
    case Del => d.name in a && d.name !in b && d.existing == a[d.name] && d.additional == ""
    case Dif => d.name in a && d.name in b && d.existing == a[d.name] && d.additional == b[d.name] && a[d.name] != b[d.name]
  }

  ghost predicate Mentions(diff: seq<DiffEntry>, n: Name) { exists i :: 0 <= i < |diff| && diff[i].name == n }

  ghost predicate NoneTwice(diff: seq<DiffEntry>) { forall i, j :: 0 <= i < j < |diff| ==> diff[i].name != diff[j].name }

  /** Exactly the names at which the sides differ, each once, each with what happened to it. */
  ghost predicate IsDiff(a: Files, b: Files, diff: seq<DiffEntry>) {
    && NoneTwice(diff)
    && (forall i :: 0 <= i < |diff| ==> Describes(a, b, diff[i]))
    && (forall n :: Mentions(diff, n) <==> At(a, n) != At(b, n))
  }

  lemma MentionsMore(diff: seq<DiffEntry>, d: DiffEntry, n: Name)
    ensures Mentions(diff + [d], n) <==> Mentions(diff, n) || n == d.name
  {
    var more := diff + [d];
    assert more[|diff|] == d;
    if i :| 0 <= i < |diff| && diff[i].name == n { assert more[i].name == n; }
  }

  /** What is known once some names are done. */
  ghost predicate DiffOf(a: Files, b: Files, diff: seq<DiffEntry>, done: set<Name>) {
    && NoneTwice(diff)
    && (forall i :: 0 <= i < |diff| ==> Describes(a, b, diff[i]))
    && (forall n :: Mentions(diff, n) <==> n in done && At(a, n) != At(b, n))
  }

  lemma DiffMore(a: Files, b: Files, diff: seq<DiffEntry>, done: set<Name>, d: DiffEntry)
    requires DiffOf(a, b, diff, done) && Describes(a, b, d) && d.name !in done
    ensures DiffOf(a, b, diff + [d], done + {d.name})
  {
    forall n ensures Mentions(diff + [d], n) <==> n in done + {d.name} && At(a, n) != At(b, n) { MentionsMore(diff, d, n); }
    forall i | 0 <= i < |diff| ensures diff[i].name != d.name { assert Mentions(diff, diff[i].name); }
  }

  /** The names of both sides, in any order. */
  method DiffBundles(existing: seq<Entry>, additional: seq<Entry>) returns (diff: seq<DiffEntry>)
    ensures IsDiff(FilesOf(existing), FilesOf(additional), diff)
  {
    var a := Collect(existing);
    var b := Collect(additional);
    diff := [];
    ghost var done: set<Name> := {};
    var left := a.Keys;
    while left != {}
      invariant left <= a.Keys && done == a.Keys - left && DiffOf(a, b, diff, done)
      decreases left
    {
      var n :| n in left;
      left := left - {n};
      if n in b {
        if b[n] != a[n] {
          DiffMore(a, b, diff, done, DiffEntry(Dif, n, a[n], b[n]));
          diff := diff + [DiffEntry(Dif, n, a[n], b[n])];
        }
      } else {
        DiffMore(a, b, diff, done, DiffEntry(Del, n, a[n], ""));
        diff := diff + [DiffEntry(Del, n, a[n], "")];
      }
      done := done + {n};
    }
    left := b.Keys;
    while left != {}
      invariant left <= b.Keys && done == a.Keys + (b.Keys - left) && DiffOf(a, b, diff, done)
      decreases left
    {
      var n :| n in left;
      left := left - {n};
      if n !in a {
        DiffMore(a, b, diff, done, DiffEntry(Add, n, "", b[n]));
        diff := diff + [DiffEntry(Add, n, "", b[n])];
      }
      done := done + {n};
    }
  }

  // ---------------------------------------------------------------- applying it

  /** How many store operations an entry takes. */
  function Operations(d: DiffEntry): (n: nat) { if d.kind == Dif then 2 else 1 }

  /** What the destination has at the entry's name after `k` of them. */
  function Expected(d: DiffEntry, k: nat): (m: Maybe) {
    match d.kind
    case Add => if k == 0 then Absent else Has(d.additional)
    case Del => if k == 0 then Has(d.existing) else Absent
    case Dif => if k == 0 then Has(d.existing) else if k == 1 then Absent else Has(d.additional)
  }

  ghost predicate Applying(a: Files, b: Files, diff: seq<DiffEntry>, done: seq<nat>, dest: Files) {
    && |done| == |diff| && (forall i :: 0 <= i < |diff| ==> done[i] <= Operations(diff[i]))
    && (forall i :: 0 <= i < |diff| ==> At(dest, diff[i].name) == Expected(diff[i], done[i]))
    && (forall n :: !Mentions(diff, n) ==> At(dest, n) == At(a, n))
  }

  lemma ApplyMore(a: Files, b: Files, diff: seq<DiffEntry>, done: seq<nat>, dest: Files, i: nat, dest': Files)
    requires IsDiff(a, b, diff) && Applying(a, b, diff, done, dest) && i < |diff| && done[i] < Operations(diff[i])
    requires At(dest', diff[i].name) == Expected(diff[i], done[i] + 1)
    requires forall n :: n != diff[i].name ==> At(dest', n) == At(dest, n)
    ensures Applying(a, b, diff, done[i := done[i] + 1], dest')
  {
    assert Mentions(diff, diff[i].name);
    forall j | 0 <= j < |diff| ensures At(dest', diff[j].name) == Expected(diff[j], done[i := done[i] + 1][j]) {
      if j != i { assert diff[j].name != diff[i].name by { assert i < j || j < i; } }
    }
  }

  lemma Applied(a: Files, b: Files, diff: seq<DiffEntry>, done: seq<nat>, dest: Files)
    requires IsDiff(a, b, diff) && Applying(a, b, diff, done, dest)
    requires forall i :: 0 <= i < |diff| ==> done[i] == Operations(diff[i])
    ensures dest == b
  {
    forall n ensures At(dest, n) == At(b, n) {
      if Mentions(diff, n) {
        var i :| 0 <= i < |diff| && diff[i].name == n;
        assert Describes(a, b, diff[i]);
      }
    }
    MapsEqual(dest, b);
  }

  lemma MapsEqual(f: Files, g: Files)
    requires forall n :: At(f, n) == At(g, n)
    ensures f == g
  {
    forall n ensures n in f <==> n in g { assert At(f, n) == At(g, n); }
    forall n | n in f ensures f[n] == g[n] { assert At(f, n) == At(g, n); }
  }

  lemma {:induction false} SumAtMost(s: seq<nat>, c: nat)
    requires forall i :: 0 <= i < |s| ==> s[i] <= c
    ensures Sum(s) <= c * |s|
  {
    if s != [] { SumAtMost(s[1..], c); }
  }

  /** All entries are applied at once: each time, any of them does its next store operation. Every put finds
      its name absent, and the destination ends up with exactly the other bundle's files. */
  method Apply(diff: seq<DiffEntry>, dest: Files, ghost a: Files, ghost b: Files) returns (dest': Files, refused: bool)
    requires IsDiff(a, b, diff) && dest == a
    ensures dest' == b && !refused
  {
    dest', refused := dest, false;
    var done: seq<nat> := seq(|diff|, _ => 0);
    forall i | 0 <= i < |diff| ensures At(dest, diff[i].name) == Expected(diff[i], 0) { assert Describes(a, b, diff[i]); }
    while true
      invariant Applying(a, b, diff, done, dest') && !refused
      decreases 2 * |diff| - Sum(done)
    {
      SumAtMost(done, 2);
      if i :| 0 <= i < |diff| && done[i] < Operations(diff[i]) {
        var d := diff[i];
        ghost var before := dest';
        if d.kind == Del || (d.kind == Dif && done[i] == 0) {
          dest' := dest' - {d.name};
        } else if d.name in dest' {
          refused := true;
        } else {
          dest' := dest'[d.name := d.additional];
        }
        ApplyMore(a, b, diff, done, before, i, dest');
        SumUpdate(done, i, done[i] + 1);
        done := done[i := done[i] + 1];
        SumAtMost(done, 2);
      } else {
        break;
      }
    }
    Applied(a, b, diff, done, dest');
  }

  /** A destination with exactly the old bundle's files gets exactly the new one's. */
  method Update(existing: seq<Entry>, additional: seq<Entry>) returns (dest: Files, refused: bool)
    ensures dest == FilesOf(additional) && !refused
  {
    var diff := DiffBundles(existing, additional);
    var start := Collect(existing);
    dest, refused := Apply(diff, start, FilesOf(existing), FilesOf(additional));
  }
}
