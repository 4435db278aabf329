/** File names as sequences of path components, and the special locations for conflicting files. */
module Names {

  type Component = string
  type Name = seq<Component>

  const CONFLICTS: Component := ".conflicts"
  const CHECKPOINTS: Component := ".checkpoints"

  /** A component that `path.Clean` keeps as it is. */
  predicate Proper(c: Component) { c != "" && c != "." && c != ".." }

  predicate Normal(n: Name) { forall i :: 0 <= i < |n| ==> Proper(n[i]) }

  /** `path.Clean` on the components of a relative path, with `kept` as the part already cleaned. */
  function CleanOnto(kept: Name, rest: Name): (r: Name)
    decreases |rest|
  {
    if rest == [] then kept
    else if rest[0] == "" || rest[0] == "." then CleanOnto(kept, rest[1..])
    else if rest[0] == ".." && kept != [] && kept[|kept| - 1] != ".." then
      CleanOnto(kept[..|kept| - 1], rest[1..])
    else CleanOnto(kept + [rest[0]], rest[1..])
  }

  /** `path.Join(root, split, name)` for a relative `root`. */
  function JoinUnder(root: Component, split: Component, name: Name): (r: Name) {
    var r := CleanOnto([], [root, split] + name);
    if r == [] then ["."] else r
  }

  lemma {:induction false} CleanKeepsNormal(kept: Name, rest: Name)
    requires Normal(rest)
    ensures CleanOnto(kept, rest) == kept + rest
    decreases |rest|
  {
    if rest == [] {
      assert kept + rest == kept;
    } else {
      CleanKeepsNormal(kept + [rest[0]], rest[1..]);
      assert kept + [rest[0]] + rest[1..] == kept + rest;
    }
  }

  lemma {:induction false} CleanLength(kept: Name, rest: Name)
    ensures |CleanOnto(kept, rest)| <= |kept| + |rest|
    decreases |rest|
  {
    if rest == [] {
    } else if rest[0] == "" || rest[0] == "." {
      CleanLength(kept, rest[1..]);
    } else if rest[0] == ".." && kept != [] && kept[|kept| - 1] != ".." {
      CleanLength(kept[..|kept| - 1], rest[1..]);
    } else {
      CleanLength(kept + [rest[0]], rest[1..]);
    }
  }

  lemma {:induction false} CleanDropsImproper(kept: Name, rest: Name)
    requires kept != [] && Normal(kept)
    requires |CleanOnto(kept, rest)| == |kept| + |rest|
    ensures Normal(rest)
    decreases |rest|
  {
    if rest == [] {
    } else if rest[0] == "" || rest[0] == "." {
      CleanLength(kept, rest[1..]);
      assert false;
    } else if rest[0] == ".." {
      CleanLength(kept[..|kept| - 1], rest[1..]);
      assert false;
    } else {
      CleanDropsImproper(kept + [rest[0]], rest[1..]);
    }
  }

  /** The joined path spells out its three parts exactly when the split and the name are clean. */
  lemma JoinVerbatim(root: Component, split: Component, name: Name)
    requires Proper(root)
    ensures JoinUnder(root, split, name) == [root, split] + name <==> Proper(split) && Normal(name)
  {
    var parts := [root, split] + name;
    var rest := [split] + name;
    assert parts[1..] == rest;
    var none: Name := [];
    assert none + [parts[0]] == [root];
    assert CleanOnto(none, parts) == CleanOnto([root], rest);
    if Proper(split) && Normal(name) {
      CleanKeepsNormal([root], rest);
      assert [root] + rest == parts;
    }
    if JoinUnder(root, split, name) == parts {
      CleanDropsImproper([root], rest);
      assert rest[0] == split && rest[1..] == name;
    }
  }

  /** Distinct clean files and splits never share a special location. */
  lemma JoinInjective(root: Component, s1: Component, n1: Name, s2: Component, n2: Name)
    requires Proper(root) && Proper(s1) && Normal(n1) && Proper(s2) && Normal(n2)
    requires JoinUnder(root, s1, n1) == JoinUnder(root, s2, n2)
    ensures s1 == s2 && n1 == n2
  {
    JoinVerbatim(root, s1, n1);
    JoinVerbatim(root, s2, n2);
    var a, b := [root, s1] + n1, [root, s2] + n2;
    assert a[1] == s1 && b[1] == s2 && a[2..] == n1 && b[2..] == n2;
  }

  /** A name that climbs out of its split's directory collides with another split's location. */
  lemma JoinCollides()
    ensures JoinUnder(CONFLICTS, "s", ["..", "t", "f"]) == JoinUnder(CONFLICTS, "t", ["f"])
  {
    var none: Name := [];
    var p := [CONFLICTS, "s"] + ["..", "t", "f"];
    assert none + [CONFLICTS] == [CONFLICTS];
    calc {
      CleanOnto(none, p);
      { assert p[1..] == ["s", "..", "t", "f"]; }
      CleanOnto([CONFLICTS], ["s", "..", "t", "f"]);
      { assert ["s", "..", "t", "f"][1..] == ["..", "t", "f"]; assert [CONFLICTS] + ["s"] == [CONFLICTS, "s"]; }
      CleanOnto([CONFLICTS, "s"], ["..", "t", "f"]);
      { assert ["..", "t", "f"][1..] == ["t", "f"]; assert [CONFLICTS, "s"][..1] == [CONFLICTS]; }
      CleanOnto([CONFLICTS], ["t", "f"]);
    }
    assert ([CONFLICTS, "t"] + ["f"])[1..] == ["t", "f"];
    assert CleanOnto(none, [CONFLICTS, "t"] + ["f"]) == CleanOnto([CONFLICTS], ["t", "f"]);
  }

  /** A cleaned path: no empty or `.` component, and `..` only in front. */
  ghost predicate Cleaned(n: Name) {
    && (forall i :: 0 <= i < |n| ==> n[i] != "" && n[i] != ".")
    && (forall i, j :: 0 <= i < j < |n| && n[j] == ".." ==> n[i] == "..")
  }

  lemma {:induction false} CleanIsClean(kept: Name, rest: Name)
    requires Cleaned(kept)
    ensures Cleaned(CleanOnto(kept, rest))
    decreases |rest|
  {
    if rest == [] {
    } else if rest[0] == "" || rest[0] == "." {
      CleanIsClean(kept, rest[1..]);
    } else if rest[0] == ".." && kept != [] && kept[|kept| - 1] != ".." {
      CleanIsClean(kept[..|kept| - 1], rest[1..]);
    } else {
      CleanIsClean(kept + [rest[0]], rest[1..]);
    }
  }

  /** How deep below its start a path leads, and how far above it first climbs. */
  function Depth(n: Name): (d: int) {
    if n == [] then 0
    else Depth(n[..|n| - 1]) + if n[|n| - 1] == "" || n[|n| - 1] == "." then 0 else if n[|n| - 1] == ".." then -1 else 1
  }

  /** Cleaning does not change how deep a path leads. */
  lemma {:induction false} CleanKeepsDepth(kept: Name, rest: Name)
    requires Cleaned(kept)
    ensures Depth(CleanOnto(kept, rest)) == Depth(kept) + Depth(rest)
    decreases |rest|
  {
    if rest != [] {
      DepthHead(rest);
      if rest[0] == "" || rest[0] == "." {
        CleanKeepsDepth(kept, rest[1..]);
      } else if rest[0] == ".." && kept != [] && kept[|kept| - 1] != ".." {
        CleanKeepsDepth(kept[..|kept| - 1], rest[1..]);
      } else {
        assert (kept + [rest[0]])[..|kept|] == kept;
        CleanKeepsDepth(kept + [rest[0]], rest[1..]);
      }
    }
  }

  lemma {:induction false} DepthHead(n: Name)
    requires n != []
    ensures Depth(n) == Depth(n[1..]) + Depth([n[0]])
    decreases |n|
  {
    var none: Name := [];
    assert [n[0]][..0] == none;
    if |n| == 1 {
      assert n == [n[0]] && n[1..] == none;
    } else {
      var m := |n| - 1;
      DepthHead(n[..m]);
      assert n[..m][1..] == n[1..][..m - 1];
    }
  }

  /** Joining stays below the root, if neither the split nor the name climbs, and gives a clean path in any case. */
  lemma JoinIsClean(root: Component, split: Component, name: Name)
    requires Proper(root)
    ensures JoinUnder(root, split, name) != []
    ensures JoinUnder(root, split, name) == ["."] || Cleaned(JoinUnder(root, split, name))
    ensures JoinUnder(root, split, name) != ["."] ==> Depth(JoinUnder(root, split, name)) == 1 + Depth([split] + name)
    ensures JoinUnder(root, split, name) == ["."] ==> Depth([split] + name) == -1
  {
    var parts := [root, split] + name;
    CleanIsClean([], parts);
    CleanKeepsDepth([], parts);
    DepthHead(parts);
    assert parts[1..] == [split] + name;
    assert [root][..0] == [];
  }

  /** What an upload may list: clean names outside the two special locations. */
  predicate Uploadable(n: Name) {
    n != [] && Normal(n) && n[0] != CONFLICTS && n[0] != CHECKPOINTS
  }
}
