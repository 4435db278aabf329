/** Index chunks: streaming the keys that were not uploaded yet, and loading them back. */
module PurgeUpload {
  import opened Chunking
  import opened PurgeMark

  type Text = string

  // ---------------------------------------------------------------- lines

  function Lines(ls: seq<string>): (t: Text) {
    if ls == [] then "" else ls[0] + "\n" + Lines(ls[1..])
  }

  /** A chunk: the time of the index, then its keys, one to a line. */
  function ChunkText(header: string, keys: seq<Key>): (t: Text) { Lines([header] + keys) }

  function NewlineAt(t: Text): (i: nat)
    ensures i <= |t| && (i < |t| ==> t[i] == '\n') && '\n' !in t[..i]
  {
    if t == "" || t[0] == '\n' then 0 else
      var i := NewlineAt(t[1..]);
      assert t[..i + 1] == [t[0]] + t[1..][..i];
      i + 1
  }

  function DropCR(l: string): (r: string) {
    if l != "" && l[|l| - 1] == '\r' then l[..|l| - 1] else l
  }

  /** The lines of a text; a last one without its newline counts, and a trailing carriage return is dropped. */
  function SplitLines(t: Text): (ls: seq<string>)
    decreases |t|
  {
    if t == "" then []
    else
      var i := NewlineAt(t);
      if i == |t| then [DropCR(t)] else [DropCR(t[..i])] + SplitLines(t[i + 1..])
  }

  predicate Plain(l: string) { '\n' !in l && (l == "" || l[|l| - 1] != '\r') }

  lemma {:induction false} NewlineOf(l: string, rest: Text)
    requires '\n' !in l
    ensures NewlineAt(l + "\n" + rest) == |l|
  {
    if l != "" {
      NewlineOf(l[1..], rest);
      assert (l + "\n" + rest)[1..] == l[1..] + "\n" + rest;
    }
  }

  lemma {:induction false} SplitOfLines(ls: seq<string>)
    requires forall i :: 0 <= i < |ls| ==> Plain(ls[i])
    ensures SplitLines(Lines(ls)) == ls
  {
    if ls != [] {
      var t, l, n := Lines(ls), ls[0], |ls[0]|;
      NewlineOf(l, Lines(ls[1..]));
      assert t[..n] == l && t[n + 1..] == Lines(ls[1..]);
      SplitOfLines(ls[1..]);
      assert [l] + ls[1..] == ls;
    }
  }

  /** A line ends at its newline, with or without a carriage return before it, or with the text. */
  lemma SplitAtNewline(l: string, rest: Text)
    requires Plain(l)
    ensures SplitLines(l + "\n" + rest) == [l] + SplitLines(rest)
  {
    NewlineOf(l, rest);
    assert (l + "\n" + rest)[..|l|] == l && (l + "\n" + rest)[|l| + 1..] == rest;
  }

  lemma SplitAtReturn(l: string, rest: Text)
    requires Plain(l)
    ensures SplitLines(l + "\r" + "\n" + rest) == [l] + SplitLines(rest)
  {
    var cr := l + "\r";
    NewlineOf(cr, rest);
    assert (cr + "\n" + rest)[..|cr|] == cr && (cr + "\n" + rest)[|cr| + 1..] == rest && cr[..|l|] == l;
  }

  lemma SplitAtEnd(l: string)
    requires Plain(l) && l != ""
    ensures SplitLines(l) == [l] && SplitLines(l + "\r") == [l]
  {
    NoNewline(l);
    NoNewline(l + "\r");
    assert (l + "\r")[..|l|] == l;
  }

  lemma {:induction false} NoNewline(l: string)
    requires '\n' !in l
    ensures NewlineAt(l) == |l|
  {
    if l != "" { NoNewline(l[1..]); }
  }

  // ---------------------------------------------------------------- reading the keys to upload

  ghost predicate Distinct(s: seq<Key>) { forall i, j :: 0 <= i < j < |s| ==> s[i] != s[j] }

  ghost predicate Enumerates(order: seq<Key>, kv: map<Key, bool>) {
    Distinct(order) && forall k :: k in order <==> k in kv
  }

  /** Sends the keys that are not marked, up to a number of them. */
  method IterateKV(kv: map<Key, bool>, order: seq<Key>, maxKeys: nat) returns (out: seq<Key>)
    requires Enumerates(order, kv)
    ensures |out| <= maxKeys && Distinct(out) && (forall k :: k in out ==> k in kv && !kv[k])
    ensures |out| < maxKeys ==> forall k :: k in kv && !kv[k] ==> k in out
  {
    out := [];
    var iterated := 0;
    for i := 0 to |order|
      invariant iterated == |out| <= maxKeys && Distinct(out)
      invariant forall k :: k in out ==> k in order[..i] && k in kv && !kv[k]
      invariant forall k :: k in order[..i] && k in kv && !kv[k] ==> k in out
    {
      var key := order[i];
      assert key in order;
      assert order[..i + 1] == order[..i] + [key];
      assert key !in order[..i];
      if kv[key] { continue; }
      iterated := iterated + 1;
      if iterated > maxKeys { return; }
      out := out + [key];
    }
    assert order[..|order|] == order;
  }

  /** The index after these keys were marked. */
  function MarkAll(kv: map<Key, bool>, keys: seq<Key>): (r: map<Key, bool>) {
    if keys == [] then kv else MarkAll(kv, keys[..|keys| - 1])[keys[|keys| - 1] := true]
  }

  class DbReader {
    const header: string
    var kv: map<Key, bool>
    var out: seq<Key>          // keys the iteration has sent and that were not read yet
    var readOnce: bool
    var partial: Text
    var count: nat
    ghost const kv0: map<Key, bool>
    ghost const keys: seq<Key>
    ghost var given: Text      // what the reads returned so far

    constructor (header: string, kv: map<Key, bool>, out: seq<Key>)
      ensures Valid() && given == "" && this.header == header && keys == out && kv0 == kv
      ensures !readOnce
    {
      this.header, this.kv, this.out := header, kv, out;
      readOnce, partial, count := false, "", 0;
      kv0, keys, given := kv, out, "";
    }

    ghost function Rest(): (ls: seq<string>)
      reads this
    {
      if readOnce then out else [header] + out
    }

    ghost predicate Valid()
      reads this
    {
      && count + |out| == |keys| && out == keys[count..] && (!readOnce ==> count == 0)
      && kv == MarkAll(kv0, keys[..count])
      && given + partial + Lines(Rest()) == ChunkText(header, keys)
    }

    /** Takes the next key, and marks it. */
    method TakeKey() returns (line: Text)
      requires Valid() && partial == "" && readOnce && out != []
      modifies this`kv, this`out, this`partial, this`count
      ensures line != "" && partial == line && Valid()
    {
      var key := out[0];
      line := key + "\n";
      NextOut(given, out);
      kv := kv[key := true];
      MarkNext(kv0, keys, count);
      count := count + 1;
      out := out[1..];
      partial := line;
    }

    /** The next line: the header, then the keys. */
    method NextLine() returns (line: Text, eof: bool)
      requires Valid() && partial == ""
      modifies this`kv, this`out, this`readOnce, this`partial, this`count
      ensures Valid() && partial == line
      ensures if eof then line == "" && given == ChunkText(header, keys) && count == |keys| else line != ""
    {
      line, eof := "", false;
      if !readOnce {
        line := header + "\n";
        LinesHead(header, out);
        Regroup(given, "", line, Lines(out));
        readOnce := true;
        partial := line;
      } else if out == [] {
        eof := true;
        assert given + "" + "" == given;
      } else {
        line := TakeKey();
      }
    }

    /** As much of the current line as fits. */
    method HandOut(size: nat) returns (b: Text)
      requires Valid() && partial != ""
      modifies this`partial, this`given
      ensures Valid() && given == old(given) + b && |b| <= size
      ensures size > 0 ==> b != ""
    {
      var n := if |partial| > size then size else |partial|;
      b := partial[..n];
      ghost var rest := partial[n..];
      assert partial == b + rest;
      Regroup(given, b, rest, Lines(Rest()));
      partial := partial[n..];
      given := given + b;
    }

    /** Fills a buffer of the given size: first what is left of a line, else the next line. */
    method Read(size: nat) returns (b: Text, eof: bool)
      requires Valid()
      modifies this
      ensures Valid() && given == old(given) + b && |b| <= size
      ensures eof ==> b == "" && given == ChunkText(header, keys) && count == |keys|
      ensures !eof && size > 0 ==> b != ""
    {
      eof := false;
      if |partial| == 0 {
        b, eof := NextLine();
        if eof { return; }
      }
      b := HandOut(size);
    }
  }

  lemma NextOut(given: Text, out: seq<Key>)
    requires out != []
    ensures given + "" + Lines(out) == given + (out[0] + "\n") + Lines(out[1..])
  {
    var line, rest := out[0] + "\n", Lines(out[1..]);
    assert Lines(out) == line + rest;
    Glue(given, line, rest);
  }

  lemma Glue(a: Text, b: Text, c: Text)
    ensures a + "" + (b + c) == a + b + c
  {
  }

  lemma LinesHead(l: string, rest: seq<string>)
    ensures Lines([l] + rest) == l + "\n" + Lines(rest)
  {
    assert ([l] + rest)[1..] == rest;
  }

  lemma MarkNext(kv: map<Key, bool>, keys: seq<Key>, n: nat)
    requires n < |keys|
    ensures MarkAll(kv, keys[..n + 1]) == MarkAll(kv, keys[..n])[keys[n] := true]
  {
    assert keys[..n + 1][..n] == keys[..n];
  }

  lemma Regroup(a: Text, b: Text, c: Text, d: Text)
    ensures a + (b + c) + d == (a + b) + c + d
  {
  }

  /** Streams one chunk, whatever the sizes of the reads. */
  method UploadChunk(header: string, kv: map<Key, bool>, order: seq<Key>, maxKeys: nat)
    returns (text: Text, count: nat, kv': map<Key, bool>, keys: seq<Key>)
    requires Enumerates(order, kv)
    ensures text == ChunkText(header, keys) && count == |keys| <= maxKeys && kv' == MarkAll(kv, keys)
    ensures Distinct(keys) && forall k :: k in keys ==> k in kv && !kv[k]
    ensures |keys| < maxKeys ==> forall k :: k in kv && !kv[k] ==> k in keys
  {
    var out := IterateKV(kv, order, maxKeys);
    var r := new DbReader(header, kv, out);
    text := "";
    var eof := false;
    while !eof
      invariant r.Valid() && text == r.given && r.header == header && r.keys == out && r.kv0 == kv && fresh(r)
      invariant eof ==> text == ChunkText(header, out) && r.count == |out|
      decreases !eof, |ChunkText(header, out)| - |text|
    {
      var size: nat :| size > 0;
      var b;
      b, eof := r.Read(size);
      text := text + b;
    }
    assert out[..|out|] == out;
    return text, r.count, r.kv, out;
  }

  // ---------------------------------------------------------------- the last chunks

  ghost predicate AllMarked(kv: map<Key, bool>) { forall k :: k in kv ==> kv[k] }

  lemma {:induction false} MarkAllIs(kv: map<Key, bool>, keys: seq<Key>)
    requires forall k :: k in keys ==> k in kv
    ensures MarkAll(kv, keys).Keys == kv.Keys
    ensures forall k :: k in kv ==> MarkAll(kv, keys)[k] == (kv[k] || k in keys)
  {
    if keys != [] {
      var n := |keys| - 1;
      assert keys == keys[..n] + [keys[n]];
      MarkAllIs(kv, keys[..n]);
    }
  }

  /** A chunk of unmarked keys joins the chunks. */
  lemma ChunkJoins(kv: map<Key, bool>, chunks: seq<seq<Key>>, keys: seq<Key>)
    requires Chunked(kv, chunks) && Distinct(keys) && forall k :: k in keys ==> k in kv && !kv[k]
    ensures Chunked(MarkAll(kv, keys), chunks + [keys])
  {
    FlattenSnoc(chunks, keys);
    MarkAllIs(kv, keys);
    var all := Flatten(chunks);
    forall k ensures k in all + keys <==> k in MarkAll(kv, keys) && MarkAll(kv, keys)[k] {
      assert k in all <==> k in kv && kv[k];
    }
    forall i, j | 0 <= i < j < |all + keys| ensures (all + keys)[i] != (all + keys)[j] {
      if i < |all| <= j { assert all[i] in all && keys[j - |all|] in keys; }
    }
  }

  ghost function Unmarked(kv: map<Key, bool>): (ks: set<Key>) { set k | k in kv && !kv[k] }

  ghost predicate TextsOf(header: string, texts: seq<Text>, chunks: seq<seq<Key>>) {
    |texts| == |chunks| && forall i :: 0 <= i < |texts| ==> texts[i] == ChunkText(header, chunks[i])
  }

  /** Uploads chunks until one comes out empty. Every unmarked key is then in one of them, exactly if chunks
      may hold keys at all or there was nothing to upload. */
  method UploadRest(header: string, kv: map<Key, bool>, chunkSize: nat, texts: seq<Text>, ghost chunks: seq<seq<Key>>)
    returns (kv': map<Key, bool>, texts': seq<Text>, ghost chunks': seq<seq<Key>>)
    requires Chunked(kv, chunks) && TextsOf(header, texts, chunks)
    ensures kv'.Keys == kv.Keys && Chunked(kv', chunks') && TextsOf(header, texts', chunks')
    ensures AllMarked(kv') <==> chunkSize > 0 || AllMarked(kv)
    ensures chunks' != [] && chunks'[|chunks'| - 1] == []
  {
    kv', texts', chunks' := kv, texts, chunks;
    var more := true;
    while more
      invariant kv'.Keys == kv.Keys && Chunked(kv', chunks') && TextsOf(header, texts', chunks')
      invariant chunkSize == 0 || AllMarked(kv) ==> kv' == kv
      invariant !more ==> chunks' != [] && chunks'[|chunks'| - 1] == [] && (chunkSize > 0 ==> AllMarked(kv'))
      decreases more, |Unmarked(kv')|
    {
      var order := AllKeys(kv');
      ghost var before := kv';
      var text, count, keys;
      text, count, kv', keys := UploadChunk(header, kv', order, chunkSize);
      AfterChunk(before, chunks', keys, chunkSize);
      texts', chunks' := texts' + [text], chunks' + [keys];
      more := count > 0;
    }
  }

  /** A chunk leaves fewer keys to upload, unless it is empty; and it is empty only if there is nothing to
      upload or no room. */
  lemma AfterChunk(kv: map<Key, bool>, chunks: seq<seq<Key>>, keys: seq<Key>, chunkSize: nat)
    requires Chunked(kv, chunks) && Distinct(keys) && |keys| <= chunkSize && (forall k :: k in keys ==> k in kv && !kv[k])
    requires |keys| < chunkSize ==> forall k :: k in kv && !kv[k] ==> k in keys
    ensures Chunked(MarkAll(kv, keys), chunks + [keys]) && MarkAll(kv, keys).Keys == kv.Keys
    ensures keys != [] ==> |Unmarked(MarkAll(kv, keys))| < |Unmarked(kv)|
    ensures keys == [] ==> MarkAll(kv, keys) == kv && (chunkSize > 0 ==> AllMarked(kv))
    ensures chunkSize == 0 || AllMarked(kv) ==> keys == []
  {
    ChunkJoins(kv, chunks, keys);
    MarkAllIs(kv, keys);
    if keys != [] {
      assert keys[0] in keys;
      FewerUnmarked(kv, MarkAll(kv, keys), keys[0]);
    }
  }

  lemma FewerUnmarked(a: map<Key, bool>, b: map<Key, bool>, k: Key)
    requires a.Keys == b.Keys && (forall x :: x in a && a[x] ==> b[x]) && k in a && !a[k] && b[k]
    ensures |Unmarked(b)| < |Unmarked(a)|
  {
    assert Unmarked(b) <= Unmarked(a) - {k};
    SubsetSize(Unmarked(b), Unmarked(a) - {k});
  }

  /** The keys of the index in some order. */
  method AllKeys(kv: map<Key, bool>) returns (order: seq<Key>)
    ensures Enumerates(order, kv)
  {
    order := [];
    var left := kv.Keys;
    while left != {}
      invariant Distinct(order) && forall k :: k in kv <==> k in order || k in left
      invariant forall k :: k in left ==> k !in order
      decreases left
    {
      var k :| k in left;
      order := order + [k];
      left := left - {k};
    }
  }

  // ---------------------------------------------------------------- loading chunks

  datatype Loaded = Loaded(header: string, numKeys: nat) | NoHeader | BadHeader

  /** Reads the header, then puts every other line into the index, marked. `parses` tells whether a line is a time. */
  method LoadChunk(text: Text, parses: string -> bool, kv: map<Key, bool>) returns (r: Loaded, kv': map<Key, bool>)
    ensures var ls := SplitLines(text);
      r == (if ls == [] then NoHeader else if !parses(ls[0]) then BadHeader else Loaded(ls[0], |ls| - 1))
    ensures r.Loaded? ==> kv' == MarkAll(kv, SplitLines(text)[1..])
  {
    var ls := SplitLines(text);
    kv' := kv;
    if ls == [] { return NoHeader, kv'; }
    if !parses(ls[0]) { return BadHeader, kv'; }
    var keys := ls[1..];
    for i := 0 to |keys|
      invariant kv' == MarkAll(kv, keys[..i])
    {
      MarkNext(kv, keys, i);
      kv' := kv'[keys[i] := true];
    }
    assert keys[..|keys|] == keys;
    return Loaded(ls[0], |keys|), kv';
  }

  lemma {:induction false} MarkAllKeys(kv: map<Key, bool>, keys: seq<Key>, k: Key)
    ensures k in MarkAll(kv, keys) <==> k in kv || k in keys
  {
    if keys != [] {
      var n := |keys| - 1;
      MarkAllKeys(kv, keys[..n], k);
      assert keys == keys[..n] + [keys[n]];
    }
  }

  ghost predicate InChunks(chunks: seq<seq<Key>>, done: set<nat>, k: Key) {
    exists c :: c in done && c < |chunks| && k in chunks[c]
  }

  /** Loads all chunks, in any order: the index holds exactly their keys. */
  method LoadAll(header: string, texts: seq<Text>, parses: string -> bool, ghost chunks: seq<seq<Key>>)
    returns (kv: map<Key, bool>, time: string, ok: bool)
    requires TextsOf(header, texts, chunks) && texts != [] && parses(header) && Plain(header)
    requires forall c, i :: 0 <= c < |chunks| && 0 <= i < |chunks[c]| ==> Plain(chunks[c][i])
    ensures ok && time == header
    ensures forall k :: k in kv <==> k in Flatten(chunks)
  {
    kv, time := map[], "";
    var left: set<nat> := {};
    for i := 0 to |texts|
      invariant forall c: nat :: c in left <==> c < i
    {
      left := left + {i};
    }
    ghost var done: set<nat> := {};
    while left != {}
      invariant forall c: nat :: c < |texts| <==> c in left || c in done
      invariant forall c: nat :: c in left ==> c !in done
      invariant forall k :: k in kv <==> InChunks(chunks, done, k)
      invariant done != {} ==> time == header
      decreases left
    {
      var c :| c in left;
      LoadsBack(header, chunks[c]);
      ghost var before := kv;
      var r;
      r, kv := LoadChunk(texts[c], parses, kv);
      time := r.header;
      forall k ensures k in kv <==> InChunks(chunks, done + {c}, k) {
        MarkAllKeys(before, chunks[c], k);
        InChunksMore(chunks, done, c, k);
      }
      left, done := left - {c}, done + {c};
    }
    assert 0 in done;
    forall k ensures k in kv <==> k in Flatten(chunks) { InFlatten(chunks, k); InChunksAll(chunks, done, k); }
    ok := true;
  }

  lemma InChunksMore(chunks: seq<seq<Key>>, done: set<nat>, c: nat, k: Key)
    requires c < |chunks|
    ensures InChunks(chunks, done + {c}, k) <==> InChunks(chunks, done, k) || k in chunks[c]
  {
    if InChunks(chunks, done, k) {
      var d :| d in done && d < |chunks| && k in chunks[d];
      assert d in done + {c};
    }
    if k in chunks[c] { assert c in done + {c}; }
  }

  lemma InChunksAll(chunks: seq<seq<Key>>, done: set<nat>, k: Key)
    requires forall c: nat :: c < |chunks| <==> c in done
    ensures InChunks(chunks, done, k) <==> exists c :: 0 <= c < |chunks| && k in chunks[c]
  {
    if c :| 0 <= c < |chunks| && k in chunks[c] { assert c in done; }
  }

  lemma {:induction false} InFlatten(chunks: seq<seq<Key>>, k: Key)
    ensures k in Flatten(chunks) <==> exists c :: 0 <= c < |chunks| && k in chunks[c]
  {
    if chunks != [] {
      InFlatten(chunks[1..], k);
      if c :| 0 <= c < |chunks[1..]| && k in chunks[1..][c] { assert k in chunks[c + 1]; }
      if c :| 0 <= c < |chunks| && k in chunks[c] { assert c > 0 ==> k in chunks[1..][c - 1]; }
    }
  }

  /** A chunk's text splits into its header and its keys again. */
  lemma LoadsBack(header: string, keys: seq<Key>)
    requires Plain(header) && forall i :: 0 <= i < |keys| ==> Plain(keys[i])
    ensures SplitLines(ChunkText(header, keys)) == [header] + keys
    ensures ([header] + keys)[1..] == keys
  {
    SplitOfLines([header] + keys);
  }
}
