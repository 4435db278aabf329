/** The paths of metadata objects, and the parsers that read them back. */
module Paths {

  // ---------------------------------------------------------------- decimal numbers

  predicate IsDigit(c: char) { '0' <= c <= '9' }

  predicate Digits(s: string) { forall i :: 0 <= i < |s| ==> IsDigit(s[i]) }

  function DigitValue(c: char): (v: nat)
    requires IsDigit(c)
  {
    c as int - '0' as int
  }

  function DigitChar(v: nat): (c: char)
    requires v < 10
    ensures IsDigit(c) && DigitValue(c) == v
  {
    (v + '0' as int) as char
  }

  function Decimal(n: nat): (s: string)
    ensures s != "" && Digits(s)
  {
    if n < 10 then [DigitChar(n)] else Decimal(n / 10) + [DigitChar(n % 10)]
  }

  function Value(s: string): (n: nat)
    requires Digits(s)
  {
    if s == "" then 0 else Value(s[..|s| - 1]) * 10 + DigitValue(s[|s| - 1])
  }

  lemma {:induction false} ValueOfDecimal(n: nat)
    ensures Value(Decimal(n)) == n
  {
    if n >= 10 {
      ValueOfDecimal(n / 10);
      assert Decimal(n)[..|Decimal(n)| - 1] == Decimal(n / 10);
    } else {
      assert Decimal(n)[..0] == "";
    }
  }

  lemma DecimalInjective(a: nat, b: nat)
    requires Decimal(a) == Decimal(b)
    ensures a == b
  {
    ValueOfDecimal(a);
    ValueOfDecimal(b);
  }

  /** The three parts of a concatenation. */
  lemma Cut(a: string, b: string, c: string)
    ensures var s := a + b + c; s[..|a|] == a && s[|a| .. |a| + |b|] == b && s[|a| + |b|..] == c && s[|a|..] == b + c
  {
  }

  // ---------------------------------------------------------------- components

  predicate SlashFree(s: string) { '/' !in s }

  function SlashAt(s: string): (i: nat)
    ensures i <= |s| && SlashFree(s[..i]) && (i < |s| ==> s[i] == '/')
  {
    if s == "" || s[0] == '/' then 0
    else
      var i := SlashAt(s[1..]);
      assert s[..i + 1] == [s[0]] + s[1..][..i];
      i + 1
  }

  /** At most `n` components; the last one keeps the rest. */
  function SplitN(s: string, n: nat): (cs: seq<string>)
    requires n > 0
    ensures 0 < |cs| <= n
    decreases n
  {
    var i := SlashAt(s);
    if n == 1 || i == |s| then [s] else [s[..i]] + SplitN(s[i + 1..], n - 1)
  }

  function Join(cs: seq<string>): (s: string)
    requires cs != []
  {
    if |cs| == 1 then cs[0] else cs[0] + "/" + Join(cs[1..])
  }

  lemma {:induction false} SlashAfter(a: string, rest: string)
    requires SlashFree(a)
    ensures SlashAt(a + "/" + rest) == |a|
  {
    if a != "" {
      SlashAfter(a[1..], rest);
      assert (a + "/" + rest)[1..] == a[1..] + "/" + rest;
    }
  }

  lemma {:induction false} NoSlash(a: string)
    requires SlashFree(a)
    ensures SlashAt(a) == |a|
  {
    if a != "" { NoSlash(a[1..]); }
  }

  lemma SplitFirst(a: string, rest: string, n: nat)
    requires SlashFree(a) && n > 1
    ensures SplitN(a + "/" + rest, n) == [a] + SplitN(rest, n - 1)
  {
    SlashAfter(a, rest);
    Cut(a, "/", rest);
  }

  lemma {:induction false} SplitOfJoin(cs: seq<string>, n: nat)
    requires 0 < |cs| <= n && forall i :: 0 <= i < |cs| ==> SlashFree(cs[i])
    ensures SplitN(Join(cs), n) == cs
    decreases n
  {
    if |cs| == 1 {
      NoSlash(cs[0]);
      assert cs == [cs[0]];
    } else {
      var a, rest := cs[0], cs[1..];
      SplitOfJoin(rest, n - 1);
      var tail := Join(rest);
      SplitFirst(a, tail, n);
      assert Join(cs) == a + "/" + tail;
      assert cs == [a] + rest;
    }
  }

  // ---------------------------------------------------------------- objects and their paths

  const BUNDLE_FILES := "bundle-files-"
  const MAX_PARTS: nat := 7

  datatype Object =
    | Repo(repo: string)
    | Label(repo: string, name: string)
    | Bundle(repo: string, bundle: string)
    | BundleFiles(repo: string, bundle: string, index: nat)
    | Diamond(repo: string, diamond: string, final: bool)
    | Split(repo: string, diamond: string, split: string, final: bool)
    | SplitFiles(repo: string, diamond: string, split: string, generation: string, index: nat)

  function IndexFile(index: nat): (s: string) { BUNDLE_FILES + Decimal(index) + ".yaml" }

  function DiamondFile(final: bool): (s: string) { if final then "diamond-done.yaml" else "diamond-running.yaml" }

  function SplitFile(final: bool): (s: string) { if final then "split-done.yaml" else "split-running.yaml" }

  function Parts(o: Object): (cs: seq<string>)
    ensures 0 < |cs| <= MAX_PARTS
  {
    match o
    case Repo(r) => ["repos", r, "repo.yaml"]
    case Label(r, l) => ["labels", r, l, "label.yaml"]
    case Bundle(r, b) => ["bundles", r, b, "bundle.yaml"]
    case BundleFiles(r, b, i) => ["bundles", r, b, IndexFile(i)]
    case Diamond(r, d, f) => ["diamonds", r, d, DiamondFile(f)]
    case Split(r, d, s, f) => ["diamonds", r, d, "splits", s, SplitFile(f)]
    case SplitFiles(r, d, s, g, i) => ["diamonds", r, d, "splits", s, g, IndexFile(i)]
  }

  /** The path under which an object is stored. */
  function Path(o: Object): (p: string) { Join(Parts(o)) }

  lemma JoinTwo(a: string, b: string)
    ensures Join([a, b]) == a + "/" + b
  {
    assert [a, b][1..] == [b];
  }

  lemma JoinMore(a: string, rest: seq<string>)
    requires rest != []
    ensures Join([a] + rest) == a + "/" + Join(rest)
  {
    assert ([a] + rest)[1..] == rest;
  }

  lemma JoinFour(a: string, b: string, c: string, d: string)
    ensures Join([a, b, c, d]) == a + "/" + (b + "/" + (c + "/" + d))
  {
    JoinTwo(c, d);
    JoinMore(b, [c, d]);
    JoinMore(a, [b, c, d]);
    assert [b] + [c, d] == [b, c, d] && [a] + [b, c, d] == [a, b, c, d];
  }

  lemma JoinBelow(a: string, b: string, c: string, d: string, rest: seq<string>)
    requires rest != []
    ensures Join([a, b, c, d] + rest) == a + "/" + (b + "/" + (c + "/" + (d + "/" + Join(rest))))
  {
    JoinMore(d, rest);
    JoinMore(c, [d] + rest);
    JoinMore(b, [c] + ([d] + rest));
    JoinMore(a, [b] + ([c] + ([d] + rest)));
    assert [a, b, c, d] + rest == [a] + ([b] + ([c] + ([d] + rest)));
  }

  /** The paths of descriptors spelled out, as they are documented. */
  lemma DescriptorSpelled(o: Object)
    ensures o.Label? ==> Path(o) == "labels" + "/" + (o.repo + "/" + (o.name + "/" + "label.yaml"))
    ensures o.Bundle? ==> Path(o) == "bundles" + "/" + (o.repo + "/" + (o.bundle + "/" + "bundle.yaml"))
    ensures o.Diamond? ==> Path(o) == "diamonds" + "/" + (o.repo + "/" + (o.diamond + "/" + if o.final then "diamond-done.yaml" else "diamond-running.yaml"))
    ensures o.Split? ==> Path(o) == "diamonds" + "/" + (o.repo + "/" + (o.diamond + "/" + ("splits" + "/" + (o.split + "/" + if o.final then "split-done.yaml" else "split-running.yaml"))))
  {
    match o
    case Label(r, l) => JoinFour("labels", r, l, "label.yaml");
    case Bundle(r, b) => JoinFour("bundles", r, b, "bundle.yaml");
    case Diamond(r, d, f) => JoinFour("diamonds", r, d, DiamondFile(f));
    case Split(r, d, s, f) =>
      JoinTwo(s, SplitFile(f));
      JoinBelow("diamonds", r, d, "splits", [s, SplitFile(f)]);
      assert ["diamonds", r, d, "splits"] + [s, SplitFile(f)] == Parts(o);
    case _ =>
  }

  /** And those of lists of files. */
  lemma FileListSpelled(o: Object)
    ensures o.BundleFiles? ==> Path(o) == "bundles" + "/" + (o.repo + "/" + (o.bundle + "/" + ("bundle-files-" + Decimal(o.index) + ".yaml")))
    ensures o.SplitFiles? ==> Path(o) == "diamonds" + "/" + (o.repo + "/" + (o.diamond + "/" + ("splits" + "/" + (o.split + "/" + (o.generation + "/" + ("bundle-files-" + Decimal(o.index) + ".yaml"))))))
  {
    match o
    case BundleFiles(r, b, i) => JoinFour("bundles", r, b, IndexFile(i));
    case SplitFiles(r, d, s, g, i) =>
      JoinTwo(g, IndexFile(i));
      JoinMore(s, [g, IndexFile(i)]);
      JoinBelow("diamonds", r, d, "splits", [s, g, IndexFile(i)]);
      assert [s] + [g, IndexFile(i)] == [s, g, IndexFile(i)];
      assert ["diamonds", r, d, "splits"] + [s, g, IndexFile(i)] == Parts(o);
    case _ =>
  }

  /** All names that make up the object are free of slashes. */
  predicate Clean(o: Object) {
    match o
    case Repo(r) => SlashFree(r)
    case Label(r, l) => SlashFree(r) && SlashFree(l)
    case Bundle(r, b) => SlashFree(r) && SlashFree(b)
    case BundleFiles(r, b, _) => SlashFree(r) && SlashFree(b)
    case Diamond(r, d, _) => SlashFree(r) && SlashFree(d)
    case Split(r, d, s, _) => SlashFree(r) && SlashFree(d) && SlashFree(s)
    case SplitFiles(r, d, s, g, _) => SlashFree(r) && SlashFree(d) && SlashFree(s) && SlashFree(g)
  }

  lemma IndexFileSlashFree(i: nat)
    ensures SlashFree(IndexFile(i))
  {
    var s := Decimal(i);
    assert forall k :: 0 <= k < |s| ==> IsDigit(s[k]);
  }

  lemma FixedNamesSlashFree(f: bool)
    ensures SlashFree(DiamondFile(f)) && SlashFree(SplitFile(f)) && SlashFree("repo.yaml") && SlashFree("label.yaml")
    ensures SlashFree("bundle.yaml") && SlashFree("splits") && SlashFree("repos") && SlashFree("labels") && SlashFree("bundles") && SlashFree("diamonds")
  {
  }

  lemma PartsSlashFree(o: Object)
    requires Clean(o)
    ensures forall i :: 0 <= i < |Parts(o)| ==> SlashFree(Parts(o)[i])
    ensures Parts(o)[|Parts(o)| - 1] != ""
  {
    FixedNamesSlashFree(if o.Diamond? || o.Split? then o.final else false);
    if o.BundleFiles? || o.SplitFiles? { IndexFileSlashFree(o.index); }
  }

  lemma PathSplits(o: Object)
    requires Clean(o)
    ensures SplitN(Path(o), MAX_PARTS) == Parts(o)
  {
    PartsSlashFree(o);
    SplitOfJoin(Parts(o), MAX_PARTS);
  }

  lemma IndexFileInjective(a: nat, b: nat)
    requires IndexFile(a) == IndexFile(b)
    ensures a == b
  {
    var n := |BUNDLE_FILES|;
    var x, y := IndexFile(a), IndexFile(b);
    assert |x| == n + |Decimal(a)| + 5 && |y| == n + |Decimal(b)| + 5;
    assert x[n..|x| - 5] == Decimal(a) && y[n..|y| - 5] == Decimal(b);
    DecimalInjective(a, b);
  }

  /** Distinct objects never share a path. */
  lemma PathInjective(o: Object, p: Object)
    requires Clean(o) && Clean(p) && Path(o) == Path(p)
    ensures o == p
  {
    PathSplits(o);
    PathSplits(p);
    var a, b := Parts(o), Parts(p);
    assert a[0] == b[0] && a[1] == b[1] && a[|a| - 1] == b[|b| - 1];
    if (o.BundleFiles? && p.BundleFiles?) || (o.SplitFiles? && p.SplitFiles?) { IndexFileInjective(o.index, p.index); }
  }

  // ---------------------------------------------------------------- reading paths back

  datatype Components = Components(repo: string, bundle: string, file: string, name: string, context: string,
                                   diamond: string, split: string, generation: string, final: bool)

  const Nothing: Components := Components("", "", "", "", "", "", "", "", false)

  datatype Parsed = Parsed(c: Components) | Invalid

  predicate IsIndexFile(s: string) {
    var n := |BUNDLE_FILES|;
    |s| > n + 5 && s[..n] == BUNDLE_FILES && s[|s| - 5..] == ".yaml" && Digits(s[n..|s| - 5])
  }

  function ParseSplit(isKsuid: string -> bool, cs: seq<string>): (r: Parsed)
    requires |cs| > 4
  {
    var at := Nothing.(repo := cs[1], diamond := cs[2]);
    var split := cs[4];
    if split == "" then Parsed(at)
    else if |cs| < 6 then Invalid
    else if cs[5] == "" || cs[5] == SplitFile(false) || cs[5] == SplitFile(true) then
      Parsed(at.(file := cs[5], split := split, final := cs[5] == SplitFile(true)))
    else if |cs| > 6 then
      if !isKsuid(cs[5]) || !IsIndexFile(cs[6]) then Invalid
      else Parsed(at.(file := cs[6], split := split, generation := cs[5]))
    else Invalid
  }

  /** What a path says. Whether a string is a unique identifier is left to `isKsuid`. */
  function ParsePath(isKsuid: string -> bool, path: string): (r: Parsed) { ParseParts(isKsuid, SplitN(path, MAX_PARTS)) }

  function ParseDiamond(isKsuid: string -> bool, cs: seq<string>): (r: Parsed)
    requires cs != []
  {
    if |cs| < 4 || !isKsuid(cs[2]) then Invalid
    else if cs[3] == "" || cs[3] == DiamondFile(false) || cs[3] == DiamondFile(true) then
      Parsed(Nothing.(file := cs[3], repo := cs[1], diamond := cs[2], final := cs[3] == DiamondFile(true)))
    else if |cs| < 5 then Invalid
    else ParseSplit(isKsuid, cs)
  }

  function ParseParts(isKsuid: string -> bool, cs: seq<string>): (r: Parsed)
    requires cs != []
  {
    if cs[0] == "labels" then
      if |cs| < 4 || cs[3] != "label.yaml" then Invalid else Parsed(Nothing.(file := cs[3], name := cs[2], repo := cs[1]))
    else if cs[0] == "repos" then
      if |cs| < 3 || cs[2] != "repo.yaml" then Invalid else Parsed(Nothing.(file := cs[2], repo := cs[1]))
    else if cs[0] == "bundles" then
      if |cs| < 4 then Invalid
      else if cs[3] == "" || cs[3] == "bundle.yaml" || IsIndexFile(cs[3]) then
        Parsed(Nothing.(file := cs[3], bundle := cs[2], repo := cs[1]))
      else Invalid
    else if cs[0] == "contexts" then
      if |cs| < 3 then Invalid else Parsed(Nothing.(file := cs[2], context := cs[1]))
    else if cs[0] == "diamonds" then ParseDiamond(isKsuid, cs)
    else Invalid
  }

  /** The components of an object, as a reader wants them back. */
  function Described(o: Object): (c: Components) {
    match o
    case Repo(r) => Nothing.(repo := r, file := "repo.yaml")
    case Label(r, l) => Nothing.(repo := r, name := l, file := "label.yaml")
    case Bundle(r, b) => Nothing.(repo := r, bundle := b, file := "bundle.yaml")
    case BundleFiles(r, b, i) => Nothing.(repo := r, bundle := b, file := IndexFile(i))
    case Diamond(r, d, f) => Nothing.(repo := r, diamond := d, file := DiamondFile(f), final := f)
    case Split(r, d, s, f) => Nothing.(repo := r, diamond := d, split := s, file := SplitFile(f), final := f)
    case SplitFiles(r, d, s, g, i) => Nothing.(repo := r, diamond := d, split := s, generation := g, file := IndexFile(i))
  }

  /** Diamonds and generations have unique identifiers, and splits have names. */
  predicate Identified(isKsuid: string -> bool, o: Object) {
    match o
    case Diamond(_, d, _) => isKsuid(d)
    case Split(_, d, s, _) => isKsuid(d) && s != ""
    case SplitFiles(_, d, s, g, _) => isKsuid(d) && s != "" && isKsuid(g)
    case _ => true
  }

  lemma IndexFileIs(i: nat)
    ensures IsIndexFile(IndexFile(i)) && IndexFile(i) != "" && IndexFile(i) != "bundle.yaml"
  {
    var s, n := IndexFile(i), |BUNDLE_FILES|;
    assert s[..n] == BUNDLE_FILES && s[|s| - 5..] == ".yaml" && s[n..|s| - 5] == Decimal(i);
  }

  /** The first letters and the states tell all file names apart. */
  lemma FileNamesDiffer(index: nat)
    ensures DiamondFile(true) != DiamondFile(false) && SplitFile(true) != SplitFile(false)
    ensures forall f, g :: DiamondFile(f) != "" && SplitFile(f) != "" && SplitFile(f) != IndexFile(index) && DiamondFile(f) != SplitFile(g)
    ensures forall f :: DiamondFile(f) != "splits"
  {
    IndexFileIs(index);
    assert IndexFile(index)[0] == 'b' && "splits"[0] == 's';
    forall f ensures DiamondFile(f)[0] == 'd' && SplitFile(f)[0] == 's' { }
    assert DiamondFile(true)[8] == 'd' && DiamondFile(false)[8] == 'r';
    assert SplitFile(true)[6] == 'd' && SplitFile(false)[6] == 'r';
  }

  lemma KindsDiffer()
    ensures "repos" != "labels" && "bundles" != "labels" && "bundles" != "repos"
    ensures "diamonds" != "labels" && "diamonds" != "repos" && "diamonds" != "bundles" && "diamonds" != "contexts"
  {
    assert "repos"[0] == 'r' && "labels"[0] == 'l' && "bundles"[0] == 'b' && "diamonds"[0] == 'd' && "contexts"[0] == 'c';
  }

  lemma ParseSimple(isKsuid: string -> bool, o: Object)
    requires o.Repo? || o.Label? || o.Bundle? || o.BundleFiles?
    ensures ParseParts(isKsuid, Parts(o)) == Parsed(Described(o))
  {
    KindsDiffer();
    if o.BundleFiles? { IndexFileIs(o.index); }
  }

  lemma ParseOfDiamond(isKsuid: string -> bool, o: Object)
    requires o.Diamond?
    ensures ParseParts(isKsuid, Parts(o)) == Parsed(Described(o)) <==> Identified(isKsuid, o)
  {
    KindsDiffer();
    FileNamesDiffer(0);
  }

  lemma ParseOfSplit(isKsuid: string -> bool, o: Object)
    requires o.Split?
    ensures ParseParts(isKsuid, Parts(o)) == Parsed(Described(o)) <==> Identified(isKsuid, o)
  {
    KindsDiffer();
    FileNamesDiffer(0);
    assert Parts(o)[3] != "";
  }

  lemma ParseOfSplitFiles(isKsuid: string -> bool, o: Object)
    requires o.SplitFiles? && !isKsuid("") && !isKsuid(SplitFile(false)) && !isKsuid(SplitFile(true))
    ensures ParseParts(isKsuid, Parts(o)) == Parsed(Described(o)) <==> Identified(isKsuid, o)
  {
    KindsDiffer();
    FileNamesDiffer(o.index);
    IndexFileIs(o.index);
    assert Parts(o)[3] != "";
  }

  /** Parsing the path of an object gives back what it is made of, exactly if its identifiers are in order. */
  lemma ParseOfPath(isKsuid: string -> bool, o: Object)
    requires Clean(o) && !isKsuid("") && !isKsuid(SplitFile(false)) && !isKsuid(SplitFile(true))
    ensures ParsePath(isKsuid, Path(o)) == Parsed(Described(o)) <==> Identified(isKsuid, o)
  {
    PathSplits(o);
    match o
    case Diamond(_, _, _) => ParseOfDiamond(isKsuid, o);
    case Split(_, _, _, _) => ParseOfSplit(isKsuid, o);
    case SplitFiles(_, _, _, _, _) => ParseOfSplitFiles(isKsuid, o);
    case _ => ParseSimple(isKsuid, o);
  }

  lemma ParseJoined(isKsuid: string -> bool, cs: seq<string>)
    requires 0 < |cs| <= MAX_PARTS && forall i :: 0 <= i < |cs| ==> SlashFree(cs[i])
    ensures ParsePath(isKsuid, Join(cs)) == ParseParts(isKsuid, cs)
  {
    SplitOfJoin(cs, MAX_PARTS);
  }

  lemma ParseOfContext(isKsuid: string -> bool, x: string, f: string)
    requires SlashFree(x) && SlashFree(f)
    ensures ParsePath(isKsuid, Join(["contexts", x, f])) == Parsed(Nothing.(context := x, file := f))
  {
    var cs := ["contexts", x, f];
    assert SlashFree("contexts");
    ParseJoined(isKsuid, cs);
    assert cs[0][0] == 'c' && "labels"[0] == 'l' && "repos"[0] == 'r' && "bundles"[0] == 'b';
  }

  /** The prefixes of what lies below a diamond or one of its splits. */
  lemma ParseOfPrefix(isKsuid: string -> bool, r: string, d: string)
    requires SlashFree(r) && SlashFree(d)
    ensures ParsePath(isKsuid, Join(["diamonds", r, d, ""])) == if isKsuid(d) then Parsed(Nothing.(repo := r, diamond := d)) else Invalid
  {
    FixedNamesSlashFree(false);
    KindsDiffer();
    ParseJoined(isKsuid, ["diamonds", r, d, ""]);
  }

  lemma ParseOfSplits(isKsuid: string -> bool, r: string, d: string)
    requires SlashFree(r) && SlashFree(d)
    ensures ParsePath(isKsuid, Join(["diamonds", r, d, "splits", ""])) == if isKsuid(d) then Parsed(Nothing.(repo := r, diamond := d)) else Invalid
  {
    FixedNamesSlashFree(false);
    KindsDiffer();
    FileNamesDiffer(0);
    ParseJoined(isKsuid, ["diamonds", r, d, "splits", ""]);
  }

  lemma ParseOfSplitPrefix(isKsuid: string -> bool, r: string, d: string, s: string)
    requires SlashFree(r) && SlashFree(d) && SlashFree(s) && s != "" && isKsuid(d)
    ensures ParsePath(isKsuid, Join(["diamonds", r, d, "splits", s, ""])) == Parsed(Nothing.(repo := r, diamond := d, split := s))
  {
    FixedNamesSlashFree(false);
    KindsDiffer();
    FileNamesDiffer(0);
    ParseJoined(isKsuid, ["diamonds", r, d, "splits", s, ""]);
  }

  /** What any path is parsed to makes sense: diamonds and generations have unique identifiers, and a generation belongs
      to a split and comes with a list of files. */
  ghost predicate Sound(isKsuid: string -> bool, c: Components) {
    && (c.diamond != "" || c.split != "" || c.generation != "" || c.final ==> isKsuid(c.diamond))
    && (c.generation != "" ==> isKsuid(c.generation) && c.split != "" && IsIndexFile(c.file) && !c.final)
    && (c.final ==> c.file == if c.split == "" then DiamondFile(true) else SplitFile(true))
  }

  lemma SplitIsSound(isKsuid: string -> bool, cs: seq<string>)
    requires |cs| > 4 && isKsuid(cs[2]) && ParseSplit(isKsuid, cs).Parsed?
    ensures Sound(isKsuid, ParseSplit(isKsuid, cs).c)
  {
  }

  lemma DiamondIsSound(isKsuid: string -> bool, cs: seq<string>)
    requires cs != [] && ParseDiamond(isKsuid, cs).Parsed?
    ensures Sound(isKsuid, ParseDiamond(isKsuid, cs).c)
  {
    if |cs| > 4 && isKsuid(cs[2]) && ParseSplit(isKsuid, cs).Parsed? { SplitIsSound(isKsuid, cs); }
  }

  lemma PartsAreSound(isKsuid: string -> bool, cs: seq<string>)
    requires cs != [] && ParseParts(isKsuid, cs).Parsed?
    ensures Sound(isKsuid, ParseParts(isKsuid, cs).c)
  {
    if ParseDiamond(isKsuid, cs).Parsed? { DiamondIsSound(isKsuid, cs); }
  }

  lemma ParsedIsSound(isKsuid: string -> bool, path: string)
    requires ParsePath(isKsuid, path).Parsed?
    ensures Sound(isKsuid, ParsePath(isKsuid, path).c)
  {
    PartsAreSound(isKsuid, SplitN(path, MAX_PARTS));
  }

  // ---------------------------------------------------------------- index chunks

  const TWO_63: nat := 0x8000_0000_0000_0000
  const TWO_64: nat := 0x1_0000_0000_0000_0000

  function TrimSlashes(p: string): (t: string) {
    if p != "" && p[|p| - 1] == '/' then TrimSlashes(p[..|p| - 1]) else p
  }

  function AfterSlash(p: string): (b: string)
    decreases |p|
  {
    var i := SlashAt(p);
    if i == |p| then p else AfterSlash(p[i + 1..])
  }

  /** The last component of a path. */
  function Base(p: string): (b: string) {
    if p == "" then "." else if TrimSlashes(p) == "" then "/" else AfterSlash(TrimSlashes(p))
  }

  /** How many digits a string starts with. */
  function LeadingDigits(s: string): (n: nat)
    ensures n <= |s| && Digits(s[..n]) && (n < |s| ==> !IsDigit(s[n]))
  {
    if s == "" || !IsDigit(s[0]) then 0
    else
      var n := LeadingDigits(s[1..]);
      assert s[..n + 1] == [s[0]] + s[1..][..n];
      n + 1
  }

  datatype Number = Number(n: nat) | NotANumber

  function ChunkPath(n: nat): (p: string) { Join(["reverse-index", "chunk-" + Decimal(n) + ".yaml"]) }

  /** Scans `chunk-`, an unsigned 64-bit number and `.yaml`; what follows is ignored. */
  function ChunkNumber(path: string): (r: Number) {
    var b, n := Base(path), |"chunk-"|;
    if |b| < n || b[..n] != "chunk-" then NotANumber
    else
      var rest := b[n..];
      var d := LeadingDigits(rest);
      if d == 0 || Value(rest[..d]) >= TWO_64 || !(".yaml" <= rest[d..]) then NotANumber else Number(Value(rest[..d]))
  }

  lemma {:induction false} LeadingOf(ds: string, rest: string)
    requires Digits(ds) && (rest == "" || !IsDigit(rest[0]))
    ensures LeadingDigits(ds + rest) == |ds|
  {
    if ds != "" {
      LeadingOf(ds[1..], rest);
      assert (ds + rest)[1..] == ds[1..] + rest;
    } else {
      assert ds + rest == rest;
    }
  }

  lemma BaseOfJoin(a: string, b: string)
    requires SlashFree(a) && SlashFree(b) && b != ""
    ensures Base(Join([a, b])) == b
  {
    var p := Join([a, b]);
    assert [a, b][1..] == [b] && Join([b]) == b;
    assert p == a + "/" + b;
    assert p[|p| - 1] == b[|b| - 1] && b[|b| - 1] in b;
    SlashAfter(a, b);
    assert p[|a| + 1..] == b;
    NoSlash(b);
    assert p[|p| - 1] != '/' && TrimSlashes(p) == p;
    assert AfterSlash(b) == b;
    assert AfterSlash(p) == AfterSlash(p[|a| + 1..]);
  }

  lemma ChunkName(d: string)
    requires Digits(d) && d != ""
    ensures var b := "chunk-" + d + ".yaml"; SlashFree(b) && b != "" && b[..6] == "chunk-" && b[6..] == d + ".yaml"
  {
    Cut("chunk-", d, ".yaml");
    forall i | 0 <= i < |d| ensures d[i] != '/' { assert IsDigit(d[i]); }
  }

  lemma DigitsThenExt(d: string)
    requires Digits(d)
    ensures var s := d + ".yaml"; LeadingDigits(s) == |d| && s[..|d|] == d && s[|d|..] == ".yaml"
  {
    LeadingOf(d, ".yaml");
  }

  lemma {:induction false} JoinEnds(cs: seq<string>)
    requires cs != [] && (forall i :: 0 <= i < |cs| ==> SlashFree(cs[i])) && cs[|cs| - 1] != ""
    ensures Join(cs) != "" && Join(cs)[|Join(cs)| - 1] != '/' && AfterSlash(Join(cs)) == cs[|cs| - 1]
  {
    var a := cs[0];
    if |cs| == 1 {
      NoSlash(a);
      assert a[|a| - 1] in a;
    } else {
      var rest := cs[1..];
      JoinEnds(rest);
      var tail := Join(rest);
      SlashAfter(a, tail);
      Cut(a, "/", tail);
    }
  }

  /** The base name of an object's path is its last component. */
  lemma BaseOfPath(o: Object)
    requires Clean(o)
    ensures Base(Path(o)) == Parts(o)[|Parts(o)| - 1]
  {
    PartsSlashFree(o);
    JoinEnds(Parts(o));
  }

  lemma {:induction false} JoinLast(cs: seq<string>, x: string)
    requires cs != []
    ensures Join(cs + [x]) == Join(cs) + "/" + x
  {
    var a := cs[0];
    if |cs| == 1 {
      assert (cs + [x])[1..] == [x] && Join([x]) == x;
    } else {
      var rest := cs[1..];
      JoinLast(rest, x);
      assert (cs + [x])[1..] == rest + [x];
      JoinGlue(a, Join(rest), x);
    }
  }

  lemma JoinGlue(a: string, b: string, c: string)
    ensures a + "/" + (b + "/" + c) == a + "/" + b + "/" + c
  {
  }

  /** The number of a chunk file is read back, for every 64-bit number. */
  lemma ChunkRoundTrip(n: nat)
    requires n < TWO_64
    ensures ChunkNumber(ChunkPath(n)) == Number(n)
  {
    var d := Decimal(n);
    ValueOfDecimal(n);
    ChunkName(d);
    DigitsThenExt(d);
    BaseOfJoin("reverse-index", "chunk-" + d + ".yaml");
  }

  // ---------------------------------------------------------------- paths in a consumable store

  const MARK := "-bundle-files-"

  datatype Consumable = Descriptor(bundle: string) | FileList(bundle: string, index: nat) | NotMetadata | BadIndex

  function DescriptorPath(bundle: string): (p: string) { ".datamon/" + bundle + ".yaml" }

  function FileListPath(bundle: string, index: nat): (p: string) { ".datamon/" + (bundle + MARK + Decimal(index)) + ".yaml" }

  predicate MarkAt(s: string, k: nat) { k + |MARK| <= |s| && s[k .. k + |MARK|] == MARK }

  predicate HasMark(s: string) { exists k: nat :: k <= |s| && MarkAt(s, k) }

  datatype Place = Place(at: nat) | Nowhere

  /** The last mark below `k`. */
  function LastMark(s: string, k: nat): (r: Place)
    ensures r.Place? ==> r.at + |MARK| <= |s|
  {
    if k == 0 then Nowhere else if MarkAt(s, k - 1) then Place(k - 1) else LastMark(s, k - 1)
  }

  lemma {:induction false} LastMarkIs(s: string, k: nat)
    ensures var r := LastMark(s, k);
      if r.Place? then r.at < k && MarkAt(s, r.at) && forall i: nat :: r.at < i < k ==> !MarkAt(s, i)
      else forall i: nat :: i < k ==> !MarkAt(s, i)
  {
    if k > 0 && !MarkAt(s, k - 1) { LastMarkIs(s, k - 1); }
  }

  datatype Integer = Integer(i: int) | NotAnInteger

  /** A decimal integer with an optional sign that fits 64 bits. */
  function Atoi(s: string): (r: Integer) {
    var signed := s != "" && (s[0] == '-' || s[0] == '+');
    var ds := if signed then s[1..] else s;
    if ds == "" || !Digits(ds) then NotAnInteger
    else
      var v: int := if signed && s[0] == '-' then 0 - Value(ds) else Value(ds);
      if 0 - TWO_63 <= v < TWO_63 then Integer(v) else NotAnInteger
  }

  /** The inverse of the two printers. */
  function ParseConsumable(path: string): (r: Consumable) {
    var n := |".datamon/"|;
    if |path| < n + 5 || path[..n] != ".datamon/" || path[|path| - 5..] != ".yaml" || '\n' in path[n..|path| - 5] then NotMetadata
    else ParseName(path[n..|path| - 5])
  }

  function ParseName(name: string): (r: Consumable) {
    match LastMark(name, |name| + 1)
    case Nowhere => Descriptor(name)
    case Place(k) =>
      match Atoi(name[k + |MARK|..])
      case NotAnInteger => BadIndex
      case Integer(i) => FileList(name[..k], if i < 0 then i + TWO_64 else i)
  }

  lemma MetaName(name: string)
    ensures ParseConsumable(".datamon/" + name + ".yaml") == if '\n' in name then NotMetadata else ParseName(name)
  {
    var p, n := ".datamon/" + name + ".yaml", |".datamon/"|;
    assert |p| >= n + 5 && p[..n] == ".datamon/" && p[|p| - 5..] == ".yaml" && p[n..|p| - 5] == name;
  }

  /** A descriptor's path gives back its bundle exactly if the identifier does not look like that of a file list. */
  lemma DescriptorRoundTrip(bundle: string)
    ensures ParseConsumable(DescriptorPath(bundle)) == Descriptor(bundle) <==> !HasMark(bundle) && '\n' !in bundle
  {
    MetaName(bundle);
    LastMarkIs(bundle, |bundle| + 1);
  }

  /** No mark starts inside the one that was printed or in the digits behind it. */
  lemma NoLaterMark(bundle: string, d: string, k: nat)
    requires Digits(d) && d != "" && |bundle| < k
    ensures !MarkAt(bundle + MARK + d, k)
  {
    var name, i := bundle + MARK + d, k - |bundle|;
    if k + |MARK| <= |name| {
      var found := name[k .. k + |MARK|];
      assert found[0] == name[k] && found[1] == name[k + 1];
      assert MARK[0] == '-' && MARK[1] == 'b';
      if i < |MARK| {
        assert name[k] == MARK[i];
        assert i + 1 < |MARK| ==> name[k + 1] == MARK[i + 1];
        assert i + 1 == |MARK| ==> name[k + 1] == d[0];
      } else {
        assert name[k] == d[i - |MARK|];
      }
    }
  }

  /** The mark that was printed is the last one. */
  lemma PrintedMarkIsLast(bundle: string, d: string)
    requires Digits(d) && d != ""
    ensures var name := bundle + MARK + d; LastMark(name, |name| + 1) == Place(|bundle|)
  {
    var name := bundle + MARK + d;
    Cut(bundle, MARK, d);
    assert MarkAt(name, |bundle|);
    forall k: nat | |bundle| < k < |name| + 1 ensures !MarkAt(name, k) { NoLaterMark(bundle, d, k); }
    LastMarkIs(name, |name| + 1);
  }

  /** A file list's path gives back its bundle and number exactly if the number fits a signed 64-bit integer. */
  lemma FileListRoundTrip(bundle: string, index: nat)
    ensures ParseConsumable(FileListPath(bundle, index)) == FileList(bundle, index) <==> index < TWO_63 && '\n' !in bundle
  {
    MetaName(bundle + MARK + Decimal(index));
    NewlineIn(bundle, index);
    NameRoundTrip(bundle, index);
  }

  lemma NameRoundTrip(bundle: string, index: nat)
    ensures ParseName(bundle + MARK + Decimal(index)) == if index < TWO_63 then FileList(bundle, index) else BadIndex
  {
    var d := Decimal(index);
    AtoiOfDecimal(index);
    NameParts(bundle, d);
  }

  lemma NameParts(bundle: string, d: string)
    requires Digits(d) && d != ""
    ensures ParseName(bundle + MARK + d) == match Atoi(d)
      case NotAnInteger => BadIndex
      case Integer(i) => FileList(bundle, if i < 0 then i + TWO_64 else i)
  {
    PrintedMarkIsLast(bundle, d);
    Cut(bundle, MARK, d);
  }

  lemma AtoiOfDecimal(n: nat)
    ensures Atoi(Decimal(n)) == if n < TWO_63 then Integer(n) else NotAnInteger
  {
    assert IsDigit(Decimal(n)[0]);
    ValueOfDecimal(n);
  }

  lemma NewlineIn(bundle: string, index: nat)
    ensures '\n' in bundle + MARK + Decimal(index) <==> '\n' in bundle
  {
    var d := Decimal(index);
    assert '\n' !in MARK;
    forall i | 0 <= i < |d| ensures d[i] != '\n' { assert IsDigit(d[i]); }
  }
}
