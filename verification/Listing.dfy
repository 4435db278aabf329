/** Listing diamonds and splits: pages of sorted keys are filtered, and of an object's two descriptors one is kept. */
module Listing {
  import opened Chunking

  // ---------------------------------------------------------------- fetching pages

  /** The keys of a page whose last path component starts with what is asked for. */
  function Filter(keep: string -> bool, page: seq<string>): (r: seq<string>) {
    if page == [] then [] else Filter(keep, page[..|page| - 1]) + One(keep, page[|page| - 1])
  }

  function One(keep: string -> bool, k: string): (r: seq<string>) { if keep(k) then [k] else [] }

  method FilterPage(keep: string -> bool, page: seq<string>) returns (r: seq<string>)
    ensures r == Filter(keep, page)
  {
    r := [];
    for i := 0 to |page|
      invariant r == Filter(keep, page[..i])
    {
      assert page[..i + 1][..i] == page[..i];
      r := r + One(keep, page[i]);
    }
    assert page[..|page|] == page;
  }

  function Filtered(keep: string -> bool, pages: seq<seq<string>>): (r: seq<seq<string>>) {
    seq(|pages|, i requires 0 <= i < |pages| => Filter(keep, pages[i]))
  }

  /** No page that comes out empty is followed by one that does not. */
  ghost predicate NoGap(pages: seq<seq<string>>) {
    forall i, j :: 0 <= i < j < |pages| && pages[i] == [] ==> pages[j] == []
  }

  /** The pages before the first empty one. */
  function UpToEmpty(pages: seq<seq<string>>): (r: seq<seq<string>>) {
    if pages == [] || pages[0] == [] then [] else [pages[0]] + UpToEmpty(pages[1..])
  }

  lemma {:induction false} UpToEmptyIs(pages: seq<seq<string>>, n: nat)
    requires n <= |pages| && [] !in pages[..n] && (n < |pages| ==> pages[n] == [])
    ensures UpToEmpty(pages) == pages[..n]
    decreases n
  {
    if n > 0 {
      assert pages[..n][0] == pages[0] && pages[..n] == [pages[0]] + pages[1..][..n - 1];
      UpToEmptyIs(pages[1..], n - 1);
    }
  }

  /** Pages are fetched until one is empty after filtering, or there is no next page. All keys are fetched
      exactly if no page that is empty after filtering comes before one that is not. */
  method FetchKeys(keep: string -> bool, pages: seq<seq<string>>) returns (batches: seq<seq<string>>)
    ensures batches == UpToEmpty(Filtered(keep, pages))
    ensures batches <= Filtered(keep, pages) && [] !in batches
    ensures |batches| < |pages| ==> Filter(keep, pages[|batches|]) == []
    ensures Flatten(batches) == Flatten(Filtered(keep, pages)) <==> NoGap(Filtered(keep, pages))
  {
    batches := [];
    ghost var all := Filtered(keep, pages);
    var i := 0;
    while i < |pages|
      invariant 0 <= i <= |pages| && batches == all[..i] && [] !in batches
    {
      var ks := FilterPage(keep, pages[i]);
      if ks == [] { break; }
      batches := batches + [ks];
      i := i + 1;
    }
    UpToEmptyIs(all, i);
    CompleteIffNoGap(all, i);
  }

  lemma NoGapIsAll(all: seq<seq<string>>)
    requires NoGap(all)
    ensures Flatten(UpToEmpty(all)) == Flatten(all)
  {
    var n := FirstEmpty(all);
    UpToEmptyIs(all, n);
    CompleteIffNoGap(all, n);
  }

  function FirstEmpty(all: seq<seq<string>>): (n: nat)
    ensures n <= |all| && [] !in all[..n] && (n < |all| ==> all[n] == [])
  {
    if all == [] || all[0] == [] then 0
    else
      var n := FirstEmpty(all[1..]) + 1;
      assert all[..n] == [all[0]] + all[1..][..n - 1];
      n
  }

  lemma CompleteIffNoGap(all: seq<seq<string>>, n: nat)
    requires n <= |all| && [] !in all[..n] && (n < |all| ==> all[n] == [])
    ensures Flatten(all[..n]) == Flatten(all) <==> NoGap(all)
  {
    FlattenAppend(all[..n], all[n..]);
    assert all == all[..n] + all[n..];
    EmptyFlatten(all[n..]);
    if NoGap(all) {
      forall i | 0 <= i < |all[n..]| ensures all[n..][i] == [] { assert all[n..][i] == all[n + i]; }
    } else {
      var i, j :| 0 <= i < j < |all| && all[i] == [] && all[j] != [];
      assert i >= n;
      assert all[n..][j - n] != [];
    }
  }

  lemma {:induction false} EmptyFlatten(ps: seq<seq<string>>)
    ensures Flatten(ps) == [] <==> forall i :: 0 <= i < |ps| ==> ps[i] == []
  {
    if ps != [] {
      EmptyFlatten(ps[1..]);
      assert forall i :: 1 <= i < |ps| ==> ps[i] == ps[1..][i - 1];
    }
  }

  // ---------------------------------------------------------------- merging the two states of an object

  /** What a key is about: a final or a running descriptor of an object, or something else. */
  datatype Parsed = Descriptor(id: string, final: bool) | Other | Malformed

  type Parser = string -> Parsed

  datatype StateMerge = StateMerge(isFinal: bool, count: nat, key: string)

  const NONE: StateMerge := StateMerge(false, 0, "")

  type States = map<string, StateMerge>

  function Lookup(states: States, o: string): (m: StateMerge) { if o in states then states[o] else NONE }

  function Merge(m: StateMerge, key: string, final: bool): (m': StateMerge) {
    StateMerge(m.isFinal || final, m.count + 1, if m.isFinal && !final then m.key else key)
  }

  predicate Settled(m: StateMerge) { m.count > 1 || (m.count == 1 && !m.isFinal) }

  /** One more key: the new states, and the key retained, if any. */
  function Step(parse: Parser, states: States, key: string): (r: (States, seq<string>)) {
    match parse(key)
    case Descriptor(o, final) =>
      var m := Merge(Lookup(states, o), key, final);
      if Settled(m) then (states - {o}, [m.key]) else (states[o := m], [])
    case _ => (states, [])
  }

  /** The states and the keys retained after a stream of keys. */
  function Run(parse: Parser, keys: seq<string>): (r: (States, seq<string>)) {
    if keys == [] then (map[], [])
    else
      var before := Run(parse, keys[..|keys| - 1]);
      var now := Step(parse, before.0, keys[|keys| - 1]);
      (now.0, before.1 + now.1)
  }

  /** Batch by batch, with the states carried over: the pages do not matter, only the keys in their order. */
  method MergeKeys(parse: Parser, batches: seq<seq<string>>) returns (out: seq<seq<string>>)
    ensures |out| == |batches| && Flatten(out) == Run(parse, Flatten(batches)).1
  {
    out := [];
    var states: States := map[];
    for i := 0 to |batches|
      invariant |out| == i && Run(parse, Flatten(batches[..i])) == (states, Flatten(out))
    {
      var filtered;
      states, filtered := MergeBatch(parse, Flatten(batches[..i]), batches[i], states, Flatten(out));
      assert batches[..i + 1] == batches[..i] + [batches[i]];
      FlattenSnoc(batches[..i], batches[i]);
      FlattenSnoc(out, filtered);
      out := out + [filtered];
    }
    assert batches[..|batches|] == batches;
  }

  method MergeBatch(parse: Parser, ghost before: seq<string>, keys: seq<string>, start: States, ghost out: seq<string>)
    returns (states: States, filtered: seq<string>)
    requires Run(parse, before) == (start, out)
    ensures Run(parse, before + keys) == (states, out + filtered)
  {
    states, filtered := start, [];
    assert before + keys[..0] == before && out + [] == out;
    for i := 0 to |keys|
      invariant Run(parse, before + keys[..i]) == (states, out + filtered)
    {
      RunSnoc(parse, before + keys[..i], keys[i]);
      assert before + keys[..i + 1] == (before + keys[..i]) + [keys[i]];
      var retained;
      states, retained := MergeKey(parse, states, keys[i]);
      Regroup(out, filtered, retained);
      filtered := filtered + retained;
    }
    assert keys[..|keys|] == keys;
  }

  method MergeKey(parse: Parser, before: States, key: string) returns (states: States, retained: seq<string>)
    ensures (states, retained) == Step(parse, before, key)
  {
    states, retained := before, [];
    if !parse(key).Descriptor? { return; }
    var o := parse(key).id;
    var m := Merge(Lookup(states, o), key, parse(key).final);
    states := states[o := m];
    if Settled(m) {
      retained := [m.key];
      states := states - {o};
      assert states == before - {o};
    }
  }

  lemma RunSnoc(parse: Parser, keys: seq<string>, key: string)
    ensures var before := Run(parse, keys);
      Run(parse, keys + [key]) == (Step(parse, before.0, key).0, before.1 + Step(parse, before.0, key).1)
  {
    assert (keys + [key])[..|keys|] == keys;
  }

  // ---------------------------------------------------------------- one object at a time

  predicate About(parse: Parser, o: string, key: string) { parse(key).Descriptor? && parse(key).id == o }

  function Is(parse: Parser, o: string): (f: string -> bool)
    ensures forall k :: f(k) <==> About(parse, o, k)
  {
    k => About(parse, o, k)
  }

  /** The keys about one object, in order. */
  function For(parse: Parser, o: string, keys: seq<string>): (r: seq<string>) { Filter(Is(parse, o), keys) }

  function StepOne(parse: Parser, m: StateMerge, key: string): (r: (StateMerge, seq<string>)) {
    if !parse(key).Descriptor? then (m, [])
    else
      var m' := Merge(m, key, parse(key).final);
      if Settled(m') then (NONE, [m'.key]) else (m', [])
  }

  /** What one object's keys alone lead to. */
  function RunOne(parse: Parser, keys: seq<string>): (r: (StateMerge, seq<string>)) {
    if keys == [] then (NONE, [])
    else
      var before := RunOne(parse, keys[..|keys| - 1]);
      var now := StepOne(parse, before.0, keys[|keys| - 1]);
      (now.0, before.1 + now.1)
  }

  /** The key held for an object is about that object. */
  ghost predicate HeldOk(parse: Parser, states: States) {
    forall o :: o in states ==> About(parse, o, states[o].key) && states[o].isFinal
  }

  lemma FilterOne(keep: string -> bool, k: string)
    ensures Filter(keep, [k]) == One(keep, k)
  {
    assert [] + [k] == [k] && [] + One(keep, k) == One(keep, k);
    FilterSnoc(keep, [], k);
  }

  lemma StepProjects(parse: Parser, o: string, states: States, key: string)
    requires HeldOk(parse, states)
    ensures HeldOk(parse, Step(parse, states, key).0)
    ensures if About(parse, o, key)
      then StepOne(parse, Lookup(states, o), key) == (Lookup(Step(parse, states, key).0, o), For(parse, o, Step(parse, states, key).1))
      else Lookup(states, o) == Lookup(Step(parse, states, key).0, o) && For(parse, o, Step(parse, states, key).1) == []
  {
    if parse(key).Descriptor? {
      var p := parse(key).id;
      var m := Merge(Lookup(states, p), key, parse(key).final);
      assert About(parse, p, m.key);
      FilterOne(Is(parse, o), m.key);
    }
  }

  lemma RunOneSnoc(parse: Parser, keys: seq<string>, key: string)
    ensures var before := RunOne(parse, keys);
      RunOne(parse, keys + [key]) == (StepOne(parse, before.0, key).0, before.1 + StepOne(parse, before.0, key).1)
  {
    assert (keys + [key])[..|keys|] == keys;
  }

  /** Objects do not disturb each other. */
  lemma {:induction false} OneAtATime(parse: Parser, o: string, keys: seq<string>)
    ensures HeldOk(parse, Run(parse, keys).0)
    ensures RunOne(parse, For(parse, o, keys)) == (Lookup(Run(parse, keys).0, o), For(parse, o, Run(parse, keys).1))
    decreases |keys|
  {
    if keys != [] {
      var n := |keys| - 1;
      OneAtATime(parse, o, keys[..n]);
      OneMoreKey(parse, o, keys[..n], keys[n]);
      assert keys == keys[..n] + [keys[n]];
    }
  }

  lemma OneMoreKey(parse: Parser, o: string, keys: seq<string>, key: string)
    requires HeldOk(parse, Run(parse, keys).0)
    requires RunOne(parse, For(parse, o, keys)) == (Lookup(Run(parse, keys).0, o), For(parse, o, Run(parse, keys).1))
    ensures HeldOk(parse, Run(parse, keys + [key]).0)
    ensures RunOne(parse, For(parse, o, keys + [key])) == (Lookup(Run(parse, keys + [key]).0, o), For(parse, o, Run(parse, keys + [key]).1))
  {
    var before, one := Run(parse, keys), For(parse, o, keys);
    var step := Step(parse, before.0, key);
    RunSnoc(parse, keys, key);
    StepProjects(parse, o, before.0, key);
    FilterAppend(Is(parse, o), before.1, step.1);
    FilterSnoc(Is(parse, o), keys, key);
    if About(parse, o, key) {
      RunOneSnoc(parse, one, key);
    } else {
      assert one + [] == one && For(parse, o, before.1) + [] == For(parse, o, before.1);
    }
  }

  lemma FilterSnoc(keep: string -> bool, s: seq<string>, k: string)
    ensures Filter(keep, s + [k]) == Filter(keep, s) + One(keep, k)
  {
    assert (s + [k])[..|s|] == s;
  }

  lemma {:induction false} FilterAppend(keep: string -> bool, a: seq<string>, b: seq<string>)
    ensures Filter(keep, a + b) == Filter(keep, a) + Filter(keep, b)
    decreases |b|
  {
    if b == [] {
      assert a + b == a;
      assert Filter(keep, b) == [];
    } else {
      var n := |b| - 1;
      FilterAppend(keep, a, b[..n]);
      FilterSnoc(keep, a + b[..n], b[n]);
      assert a + b == (a + b[..n]) + [b[n]];
      Regroup(Filter(keep, a), Filter(keep, b[..n]), One(keep, b[n]));
    }
  }

  lemma Regroup(a: seq<string>, b: seq<string>, c: seq<string>)
    ensures a + (b + c) == (a + b) + c
  {
  }

  predicate Done(parse: Parser, k: string) { parse(k).Descriptor? && parse(k).final }

  predicate Running(parse: Parser, k: string) { parse(k).Descriptor? && !parse(k).final }

  lemma OneKey(parse: Parser, k: string)
    ensures RunOne(parse, [k]) == StepOne(parse, NONE, k)
  {
    assert [k][..0] == [] && [k][0] == k;
    assert [] + StepOne(parse, NONE, k).1 == StepOne(parse, NONE, k).1;
  }

  lemma TwoKeys(parse: Parser, a: string, b: string)
    requires parse(a).Descriptor? && parse(b).Descriptor? && parse(a).final != parse(b).final
    ensures RunOne(parse, [a, b]).1 == [a]
  {
    OneKey(parse, a);
    assert [a, b][..1] == [a];
  }

  /** What is listed for an object, from the keys it has and their order. One that has only its final
      descriptor is not listed; one that has both is listed by the first of them. */
  lemma ListedFor(parse: Parser, o: string, keys: seq<string>)
    ensures var mine, listed := For(parse, o, keys), For(parse, o, Run(parse, keys).1);
      && (mine == [] ==> listed == [])
      && (forall k :: mine == [k] && Done(parse, k) ==> listed == [])
      && (forall k :: mine == [k] && Running(parse, k) ==> listed == [k])
      && (forall d, r :: mine == [d, r] && Done(parse, d) && Running(parse, r) ==> listed == [d])
      && (forall d, r :: mine == [r, d] && Done(parse, d) && Running(parse, r) ==> listed == [r])
  {
    OneAtATime(parse, o, keys);
    var mine := For(parse, o, keys);
    if |mine| == 1 {
      OneKey(parse, mine[0]);
      assert mine == [mine[0]];
    } else if |mine| == 2 && parse(mine[0]).Descriptor? && parse(mine[1]).Descriptor? && parse(mine[0]).final != parse(mine[1]).final {
      TwoKeys(parse, mine[0], mine[1]);
      assert mine == [mine[0], mine[1]];
    }
  }

  // ---------------------------------------------------------------- sorted keys

  type Order = (string, string) -> bool

  ghost predicate Sorted(less: Order, keys: seq<string>) { forall i, j :: 0 <= i < j < |keys| ==> less(keys[i], keys[j]) }

  /** The names of the descriptors in a list: one of each kind for an object, and the final one first. */
  ghost predicate Naming(parse: Parser, less: Order, keys: seq<string>) {
    && (forall k :: k in keys ==> !less(k, k))
    && (forall a, b :: a in keys && b in keys && parse(a).Descriptor? && parse(a) == parse(b) ==> a == b)
    && (forall d, r :: d in keys && r in keys && Done(parse, d) && Running(parse, r) && parse(d).id == parse(r).id ==> !less(r, d))
  }

  lemma {:induction false} FilterIn(keep: string -> bool, keys: seq<string>, k: string)
    ensures k in Filter(keep, keys) <==> k in keys && keep(k)
    decreases |keys|
  {
    if keys != [] {
      var n := |keys| - 1;
      assert keys == keys[..n] + [keys[n]];
      FilterIn(keep, keys[..n], k);
    }
  }

  lemma {:induction false} FilterSorted(keep: string -> bool, less: Order, keys: seq<string>)
    requires Sorted(less, keys)
    ensures Sorted(less, Filter(keep, keys))
    decreases |keys|
  {
    if keys != [] {
      var n := |keys| - 1;
      FilterSorted(keep, less, keys[..n]);
      forall k | k in Filter(keep, keys[..n]) ensures less(k, keys[n]) {
        FilterIn(keep, keys[..n], k);
        var i :| 0 <= i < n && keys[i] == k;
      }
    }
  }

  /** Sorted keys of one object: none, one, or the final one followed by the running one. */
  lemma SortedShape(parse: Parser, less: Order, o: string, keys: seq<string>)
    requires Sorted(less, keys) && Naming(parse, less, keys)
    ensures var mine := For(parse, o, keys);
      |mine| <= 2 && (|mine| == 2 ==> Done(parse, mine[0]) && Running(parse, mine[1]))
  {
    var mine := For(parse, o, keys);
    if |mine| >= 2 { InOrder(parse, less, o, keys, 0, 1); }
    if |mine| >= 3 { InOrder(parse, less, o, keys, 1, 2); }
  }

  lemma InOrder(parse: Parser, less: Order, o: string, keys: seq<string>, i: nat, j: nat)
    requires Sorted(less, keys) && Naming(parse, less, keys) && i < j < |For(parse, o, keys)|
    ensures Done(parse, For(parse, o, keys)[i]) && Running(parse, For(parse, o, keys)[j])
  {
    var a, b := For(parse, o, keys)[i], For(parse, o, keys)[j];
    FilterSorted(Is(parse, o), less, keys);
    FilterIn(Is(parse, o), keys, a);
    FilterIn(Is(parse, o), keys, b);
    assert less(a, b) && parse(a) != parse(b);
  }

  /** The one key to list for an object with a running descriptor: the final one if there is one. */
  ghost predicate Best(parse: Parser, o: string, keys: seq<string>, k: string) {
    && k in keys && About(parse, o, k)
    && (Done(parse, k) || forall d :: d in keys && About(parse, o, d) ==> !Done(parse, d))
  }

  /** Every object with a running descriptor is listed once, by its best key; others are not listed. */
  lemma ListedOnce(parse: Parser, less: Order, o: string, keys: seq<string>)
    requires Sorted(less, keys) && Naming(parse, less, keys)
    ensures var listed := For(parse, o, Run(parse, keys).1);
      if exists r :: r in keys && About(parse, o, r) && Running(parse, r)
      then |listed| == 1 && Best(parse, o, keys, listed[0])
      else listed == []
  {
    var mine := For(parse, o, keys);
    SortedShape(parse, less, o, keys);
    ListedFor(parse, o, keys);
    forall k ensures k in mine <==> k in keys && About(parse, o, k) { FilterIn(Is(parse, o), keys, k); }
    if |mine| == 1 { assert mine == [mine[0]]; }
    if |mine| == 2 { assert mine == [mine[0], mine[1]]; }
    if r :| r in keys && About(parse, o, r) && Running(parse, r) {
      assert r in mine;
      assert mine[0] in mine;
      if |mine| == 1 { assert r == mine[0]; }
    } else if |mine| > 0 {
      assert mine[|mine| - 1] in mine;
    }
  }

  /** The whole pipeline, for any pages: one key for each object with a running descriptor, its best one,
      provided that no page is emptied by the filter before the last ones. */
  method ListKeys(keep: string -> bool, parse: Parser, less: Order, pages: seq<seq<string>>) returns (listed: seq<string>)
    requires Naming(parse, less, Flatten(Filtered(keep, pages))) && Sorted(less, Flatten(Filtered(keep, pages)))
    ensures listed == Run(parse, Flatten(UpToEmpty(Filtered(keep, pages)))).1
    ensures NoGap(Filtered(keep, pages)) ==> listed == Run(parse, Flatten(Filtered(keep, pages))).1
    ensures NoGap(Filtered(keep, pages)) ==> forall o ::
      if exists r :: r in Flatten(Filtered(keep, pages)) && About(parse, o, r) && Running(parse, r)
      then |For(parse, o, listed)| == 1 && Best(parse, o, Flatten(Filtered(keep, pages)), For(parse, o, listed)[0])
      else For(parse, o, listed) == []
  {
    var batches := FetchKeys(keep, pages);
    var out := MergeKeys(parse, batches);
    listed := Concatenate(out);
    if NoGap(Filtered(keep, pages)) {
      forall o { ListedOnce(parse, less, o, Flatten(Filtered(keep, pages))); }
    }
  }

  /** Filtering page by page keeps what filtering all keys at once would. */
  lemma {:induction false} FilteredFlat(keep: string -> bool, pages: seq<seq<string>>)
    ensures Flatten(Filtered(keep, pages)) == Filter(keep, Flatten(pages))
  {
    if pages != [] {
      FilteredFlat(keep, pages[1..]);
      assert Filtered(keep, pages)[1..] == Filtered(keep, pages[1..]);
      FilterAppend(keep, pages[0], Flatten(pages[1..]));
    }
  }

  method Concatenate(parts: seq<seq<string>>) returns (all: seq<string>)
    ensures all == Flatten(parts)
  {
    all := [];
    for i := 0 to |parts|
      invariant all == Flatten(parts[..i])
    {
      FlattenSnoc(parts[..i], parts[i]);
      assert parts[..i + 1] == parts[..i] + [parts[i]];
      all := all + parts[i];
    }
    assert parts[..|parts|] == parts;
  }
}
