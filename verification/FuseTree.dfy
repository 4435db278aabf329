/** The read-only file system: a flat list of names becomes inodes and four indexes over them. */
module FuseTree {
  import opened Names

  type Inode = nat

  const ROOT_INODE: Inode := 1
  const FIRST_INODE: Inode := 1023
  const FILE_LINKS: nat := 1
  const DIR_LINKS: nat := 2
  const DIR_SIZE: nat := 2048

  /** A file of a bundle; its name has at least one component. */
  datatype BundleEntry = BundleEntry(name: Name, hash: string, size: nat)

  datatype Entry = Entry(fullPath: Name, hash: string, iNode: Inode, nlink: nat, size: nat) {
    predicate IsDir() { nlink == DIR_LINKS }
  }

  datatype Dirent = Dirent(offset: nat, iNode: Inode, name: Component, isDir: bool)

  /** An entry, and the inode it was attached to. */
  datatype Node = Node(entry: Entry, parent: Inode)

  function Parent(p: Name): (d: Name)
    requires p != []
  {
    p[..|p| - 1]
  }

  function Base(p: Name): (b: Component)
    requires p != []
  {
    p[|p| - 1]
  }

  // ---------------------------------------------------------------- the indexes as views of one set of nodes

  type Nodes = map<Name, Node>
  type DirStore = map<Name, Entry>
  type EntryStore = map<Inode, Entry>
  type LookupTree = map<(Inode, Component), Entry>
  type Listing = map<Inode, seq<Dirent>>

  ghost predicate DirView(nodes: Nodes, dirs: DirStore) {
    && (forall p :: p in dirs ==> p in nodes && nodes[p].entry == dirs[p] && dirs[p].IsDir())
    && (forall p :: p in nodes && nodes[p].entry.IsDir() ==> p in dirs)
  }

  /** The entry store has the entry of this node. */
  ghost predicate Stored(nodes: Nodes, entries: EntryStore, p: Name) {
    && p in nodes && nodes[p].entry.fullPath == p
    && nodes[p].entry.iNode in entries && entries[nodes[p].entry.iNode] == nodes[p].entry
  }

  ghost predicate FromNode(nodes: Nodes, entries: EntryStore, i: Inode) {
    i in entries && entries[i].iNode == i && entries[i].fullPath in nodes && nodes[entries[i].fullPath].entry == entries[i]
  }

  ghost predicate EntryView(nodes: Nodes, entries: EntryStore) {
    && (forall p {:trigger Stored(nodes, entries, p)} :: p in nodes ==> Stored(nodes, entries, p))
    && (forall i {:trigger FromNode(nodes, entries, i)} :: i in entries ==> FromNode(nodes, entries, i))
  }

  function LookupKey(nodes: Nodes, p: Name): (k: (Inode, Component))
    requires p in nodes && p != []
  {
    (nodes[p].parent, Base(p))
  }

  /** The lookup tree has this node under its parent's inode and its own last component. */
  ghost predicate Attached(nodes: Nodes, lookup: LookupTree, p: Name) {
    p in nodes && p != [] && LookupKey(nodes, p) in lookup && lookup[LookupKey(nodes, p)] == nodes[p].entry
  }

  ghost predicate FromPath(nodes: Nodes, lookup: LookupTree, k: (Inode, Component)) {
    && k in lookup && lookup[k].fullPath != [] && lookup[k].fullPath in nodes
    && LookupKey(nodes, lookup[k].fullPath) == k && nodes[lookup[k].fullPath].entry == lookup[k]
  }

  ghost predicate LookupView(nodes: Nodes, lookup: LookupTree) {
    && (forall p {:trigger Attached(nodes, lookup, p)} :: p in nodes && p != [] ==> Attached(nodes, lookup, p))
    && (forall k {:trigger FromPath(nodes, lookup, k)} :: k in lookup ==> FromPath(nodes, lookup, k))
  }

  ghost predicate DirentOk(lookup: LookupTree, dir: Inode, j: nat, d: Dirent) {
    (dir, d.name) in lookup && d == Dirent(j + 1, lookup[(dir, d.name)].iNode, d.name, lookup[(dir, d.name)].IsDir())
  }

  /** One directory's list: each child once, numbered from one. */
  ghost predicate ListOk(lookup: LookupTree, dir: Inode, list: seq<Dirent>) {
    && list != []
    && (forall j :: 0 <= j < |list| ==> DirentOk(lookup, dir, j, list[j]))
    && (forall i, j :: 0 <= i < j < |list| ==> list[i].name != list[j].name)
  }

  ghost predicate Listed(listing: Listing, k: (Inode, Component)) {
    k.0 in listing && exists j :: 0 <= j < |listing[k.0]| && listing[k.0][j].name == k.1
  }

  ghost predicate ListView(lookup: LookupTree, listing: Listing) {
    && (forall dir {:trigger ListOk(lookup, dir, listing[dir])} :: dir in listing ==> ListOk(lookup, dir, listing[dir]))
    && (forall k {:trigger Listed(listing, k)} :: k in lookup ==> Listed(listing, k))
  }

  ghost predicate Views(nodes: Nodes, dirs: DirStore, entries: EntryStore, lookup: LookupTree, listing: Listing) {
    DirView(nodes, dirs) && EntryView(nodes, entries) && LookupView(nodes, lookup) && ListView(lookup, listing)
  }

  function Append(listing: Listing, parent: Inode, e: Entry): (l: Listing)
    requires e.fullPath != []
  {
    var children := if parent in listing then listing[parent] else [];
    listing[parent := children + [Dirent(|children| + 1, e.iNode, Base(e.fullPath), e.IsDir())]]
  }

  lemma AttachKeepsLookup(nodes: Nodes, lookup: LookupTree, e: Entry, parent: Inode)
    requires LookupView(nodes, lookup) && e.fullPath != [] && e.fullPath !in nodes
    requires (parent, Base(e.fullPath)) !in lookup
    ensures LookupView(nodes[e.fullPath := Node(e, parent)], lookup[(parent, Base(e.fullPath)) := e])
  {
    var nodes', lookup' := nodes[e.fullPath := Node(e, parent)], lookup[(parent, Base(e.fullPath)) := e];
    forall p | p in nodes' && p != [] ensures Attached(nodes', lookup', p) {
      if p != e.fullPath { assert Attached(nodes, lookup, p); }
    }
    forall k | k in lookup' ensures FromPath(nodes', lookup', k) {
      if k in lookup { assert FromPath(nodes, lookup, k); }
    }
  }

  lemma StoreKeepsEntries(nodes: Nodes, entries: EntryStore, e: Entry, parent: Inode)
    requires EntryView(nodes, entries) && e.fullPath !in nodes && e.iNode !in entries
    ensures EntryView(nodes[e.fullPath := Node(e, parent)], entries[e.iNode := e])
  {
    var nodes', entries' := nodes[e.fullPath := Node(e, parent)], entries[e.iNode := e];
    forall p | p in nodes' ensures Stored(nodes', entries', p) {
      if p != e.fullPath { assert Stored(nodes, entries, p); }
    }
    forall i | i in entries' ensures FromNode(nodes', entries', i) {
      if i != e.iNode { assert FromNode(nodes, entries, i); }
    }
  }

  lemma AppendKeepsList(lookup: LookupTree, listing: Listing, e: Entry, parent: Inode)
    requires ListView(lookup, listing) && e.fullPath != [] && (parent, Base(e.fullPath)) !in lookup
    ensures ListView(lookup[(parent, Base(e.fullPath)) := e], Append(listing, parent, e))
  {
    var key := (parent, Base(e.fullPath));
    var lookup', listing' := lookup[key := e], Append(listing, parent, e);
    var children := if parent in listing then listing[parent] else [];
    assert parent in listing ==> ListOk(lookup, parent, children);
    forall dir | dir in listing' ensures ListOk(lookup', dir, listing'[dir]) {
      if dir != parent { assert ListOk(lookup, dir, listing[dir]); }
    }
    forall k | k in lookup' ensures Listed(listing', k) {
      if k == key {
        assert listing'[parent][|children|].name == k.1;
      } else {
        assert Listed(listing, k);
        var j :| 0 <= j < |listing[k.0]| && listing[k.0][j].name == k.1;
        assert listing'[k.0][j].name == k.1;
      }
    }
  }

  // ---------------------------------------------------------------- one name and its missing directories

  /** The directory at the first `j` components is the deepest one there is on the way to `path`. */
  ghost predicate Deepest(dirs: DirStore, path: Name, j: nat) {
    && j < |path| && (j > 0 ==> path[..j] in dirs)
    && forall m :: j < m < |path| ==> path[..m] !in dirs
  }

  function FileEntry(be: BundleEntry, iNode: Inode): (e: Entry) { Entry(be.name, be.hash, iNode, FILE_LINKS, be.size) }

  function DirEntry(path: Name, iNode: Inode): (e: Entry) { Entry(path, "", iNode, DIR_LINKS, DIR_SIZE) }

  /** The `i`-th node to add, counted from the file upwards. */
  function ChainEntry(be: BundleEntry, next: Inode, i: nat): (e: Entry)
    requires i < |be.name|
  {
    if i == 0 then FileEntry(be, next + 1) else DirEntry(be.name[..|be.name| - i], next + 1 + i)
  }

  /** The nodes to add for a name: the file, then each missing directory, every one attached to the next and
      the last one to the directory that is there. */
  ghost predicate Chain(dirs: DirStore, be: BundleEntry, next: Inode, j: nat, chain: seq<Node>) {
    && Deepest(dirs, be.name, j) && |chain| == |be.name| - j
    && (forall i :: 0 <= i < |chain| ==> chain[i].entry == ChainEntry(be, next, i))
    && (forall i :: 0 <= i < |chain| - 1 ==> chain[i].parent == next + 2 + i)
    && chain[|chain| - 1].parent == if j == 0 then ROOT_INODE else dirs[be.name[..j]].iNode
  }

  class ReadOnlyFs {
    var dirStore: DirStore
    var fsEntryStore: EntryStore
    var lookupTree: LookupTree
    var readDirMap: Listing
    ghost var nodes: Nodes

    constructor ()
      ensures dirStore == map[] && fsEntryStore == map[] && lookupTree == map[] && readDirMap == map[] && nodes == map[]
    {
      dirStore, fsEntryStore, lookupTree, readDirMap, nodes := map[], map[], map[], map[], map[];
    }

    ghost predicate Agree()
      reads this
    {
      Views(nodes, dirStore, fsEntryStore, lookupTree, readDirMap)
    }

    /** Whether an entry is new to every index it goes to. */
    predicate New(parent: Inode, e: Entry)
      reads this
    {
      && (e.IsDir() ==> e.fullPath !in dirStore)
      && e.iNode !in fsEntryStore
      && (e.fullPath != [] ==> (parent, Base(e.fullPath)) !in lookupTree)
    }

    method InsertDirEntry(parent: Inode, e: Entry) returns (ok: bool)
      requires Agree() && e.IsDir()
      requires e.fullPath == [] <==> e.iNode == ROOT_INODE
      modifies this
      ensures ok <==> old(New(parent, e))
      ensures ok ==> nodes == old(nodes)[e.fullPath := Node(e, parent)]
      ensures ok && e.fullPath !in old(nodes) ==> Agree()
    {
      if e.fullPath in dirStore { return false; }
      dirStore := dirStore[e.fullPath := e];
      if e.iNode in fsEntryStore { return false; }
      if e.fullPath !in nodes { StoreKeepsEntries(nodes, fsEntryStore, e, parent); }
      fsEntryStore := fsEntryStore[e.iNode := e];
      if e.iNode != ROOT_INODE {
        var key := (parent, Base(e.fullPath));
        if key in lookupTree { return false; }
        if e.fullPath !in nodes { AttachKeepsLookup(nodes, lookupTree, e, parent); }
        AppendKeepsList(lookupTree, readDirMap, e, parent);
        lookupTree := lookupTree[key := e];
        readDirMap := Append(readDirMap, parent, e);
      } else {
        if [] !in nodes { RootKeepsLookup(nodes, lookupTree, e, parent); }
      }
      nodes := nodes[e.fullPath := Node(e, parent)];
      return true;
    }

    method InsertFsEntry(parent: Inode, e: Entry) returns (ok: bool)
      requires Agree() && !e.IsDir() && e.fullPath != []
      modifies this
      ensures ok <==> old(New(parent, e))
      ensures ok ==> nodes == old(nodes)[e.fullPath := Node(e, parent)]
      ensures ok && e.fullPath !in old(nodes) ==> Agree()
    {
      if e.iNode in fsEntryStore { return false; }
      if e.fullPath !in nodes { StoreKeepsEntries(nodes, fsEntryStore, e, parent); }
      fsEntryStore := fsEntryStore[e.iNode := e];
      var key := (parent, Base(e.fullPath));
      if key in lookupTree { return false; }
      if e.fullPath !in nodes { AttachKeepsLookup(nodes, lookupTree, e, parent); }
      AppendKeepsList(lookupTree, readDirMap, e, parent);
      lookupTree := lookupTree[key := e];
      readDirMap := Append(readDirMap, parent, e);
      nodes := nodes[e.fullPath := Node(e, parent)];
      return true;
    }

    /** Walks up from the name, up to the first directory that is there. */
    method NodesFromEntry(be: BundleEntry, next: Inode) returns (nodesToAdd: seq<Node>, iNode: Inode, ghost j: nat)
      requires be.name != []
      ensures Chain(dirStore, be, next, j, nodesToAdd)
      ensures iNode == next + |nodesToAdd|
    {
      nodesToAdd := [];
      iNode := next + 1;
      var entry := FileEntry(be, iNode);
      var path := be.name;
      while true
        invariant 0 < |path| && path == be.name[..|path|] && |nodesToAdd| == |be.name| - |path|
        invariant iNode == next + 1 + |nodesToAdd|
        invariant entry == ChainEntry(be, next, |nodesToAdd|)
        invariant forall i :: 0 <= i < |nodesToAdd| ==> nodesToAdd[i].entry == ChainEntry(be, next, i)
        invariant forall i :: 0 <= i < |nodesToAdd| - 1 ==> nodesToAdd[i].parent == next + 2 + i
        invariant forall m :: |path| <= m < |be.name| ==> be.name[..m] !in dirStore
        decreases |path|
      {
        var parent := Parent(path);
        assert parent == be.name[..|path| - 1];
        var here := if parent == [] then ROOT_INODE else 0;
        var last := |nodesToAdd|;
        nodesToAdd := nodesToAdd + [Node(entry, here)];
        if last > 0 {
          nodesToAdd := nodesToAdd[last - 1 := nodesToAdd[last - 1].(parent := entry.iNode)];
        }
        j := |path| - 1;
        if parent == [] { return; }
        if parent in dirStore {
          nodesToAdd := nodesToAdd[last := nodesToAdd[last].(parent := dirStore[parent].iNode)];
          return;
        }
        iNode := iNode + 1;
        entry := DirEntry(parent, iNode);
        path := parent;
      }
    }

    /** Adds one node of a chain to the indexes for its kind. */
    method AddNode(node: Node, ghost nodes0: Nodes, ghost dirs0: DirStore, ghost entries0: EntryStore, ghost next: Inode,
                   ghost be: BundleEntry, ghost j: nat, ghost chain: seq<Node>, ghost k: nat) returns (ok: bool)
      requires Agree() && Ready(nodes0, dirs0, entries0, next, be, j, chain)
      requires k < |chain| && node == chain[k] && nodes == Grown(nodes0, be.name, chain, k)
      modifies this
      ensures ok <==> !(k == |chain| - 1 && Slot(be.name, j) in nodes0)
      ensures ok ==> Agree() && nodes == Grown(nodes0, be.name, chain, k + 1)
    {
      CanAdd(nodes0, dirs0, entries0, next, be, j, chain, k, dirStore, fsEntryStore, lookupTree);
      PathNew(nodes0, dirs0, entries0, next, be, j, chain, k);
      GrownNext(nodes0, be.name, chain, k);
      if node.entry.nlink == DIR_LINKS {
        ok := InsertDirEntry(node.parent, node.entry);
      } else {
        ok := InsertFsEntry(node.parent, node.entry);
      }
    }

    /** Adds a name's nodes, the file first. It fails exactly if the slot next to the deepest directory is taken. */
    method AddNodes(chain: seq<Node>, ghost be: BundleEntry, ghost j: nat, ghost next: Inode) returns (ok: bool)
      requires Agree() && Ready(nodes, dirStore, fsEntryStore, next, be, j, chain)
      modifies this
      ensures ok <==> Slot(be.name, j) !in old(nodes)
      ensures ok ==> Agree() && nodes == Grown(old(nodes), be.name, chain, |chain|)
    {
      ghost var nodes0, dirs0, entries0 := nodes, dirStore, fsEntryStore;
      for k := 0 to |chain|
        invariant Agree() && nodes == Grown(nodes0, be.name, chain, k)
        invariant k == |chain| ==> Slot(be.name, j) !in nodes0
      {
        ok := AddNode(chain[k], nodes0, dirs0, entries0, next, be, j, chain, k);
        if !ok { return false; }
      }
      return true;
    }

    /** Adds the root, then the bundle's entries in order. It succeeds exactly if the names are distinct and
        none is an ancestor of another; then the indexes agree on a tree with those files. */
    method Populate(bundle: seq<BundleEntry>) returns (ok: bool, iNode: Inode)
      requires dirStore == map[] && fsEntryStore == map[] && lookupTree == map[] && readDirMap == map[] && nodes == map[]
      requires forall i :: 0 <= i < |bundle| ==> bundle[i].name != []
      modifies this
      ensures ok <==> PrefixFree(bundle)
      ensures ok ==> Agree() && Tree(nodes, iNode) && Covers(bundle, nodes)
    {
      iNode := FIRST_INODE;
      ok := InsertDirEntry(ROOT_INODE, DirEntry([], ROOT_INODE));
      assert Explained([], nodes, []);
      for i := 0 to |bundle|
        invariant Agree() && Tree(nodes, iNode) && Covers(bundle[..i], nodes) && FIRST_INODE <= iNode
        invariant PrefixFree(bundle[..i])
      {
        var be := bundle[i];
        ok, iNode := AddEntry(bundle[..i], be, iNode);
        PrefixFreeNext(bundle, i);
        if !ok { return; }
        assert bundle[..i + 1] == bundle[..i] + [be];
      }
      assert bundle[..|bundle|] == bundle;
      return true, iNode;
    }

    method AddEntry(ghost before: seq<BundleEntry>, be: BundleEntry, next: Inode) returns (ok: bool, iNode: Inode)
      requires Agree() && Tree(nodes, next) && Covers(before, nodes) && FIRST_INODE <= next && be.name != []
      modifies this
      ensures ok <==> Fits(before, be.name)
      ensures ok ==> Agree() && Tree(nodes, iNode) && Covers(before + [be], nodes) && next <= iNode
    {
      ghost var nodes0, dirs0, entries0, j := nodes, dirStore, fsEntryStore, 0;
      var chain;
      chain, iNode, j := NodesFromEntry(be, next);
      FreeIffFits(before, nodes, dirStore, next, be.name, j);
      ok := AddNodes(chain, be, j, next);
      if ok {
        GrownIsTree(nodes0, dirs0, next, be, j, chain);
        GrownCovers(before, nodes0, dirs0, entries0, next, be, j, chain);
      }
    }

    method LookUpInode(parent: Inode, name: Component) returns (r: Lookup)
      ensures r == Walk(lookupTree, parent, [name])
    {
      var key := (parent, name);
      r := if key in lookupTree then FoundEntry(lookupTree[key]) else NoEntry;
    }

    /** Looks a path up from the root, one component after the other. */
    method LookUpPath(path: Name) returns (r: Lookup)
      requires path != []
      ensures r == Walk(lookupTree, ROOT_INODE, path)
    {
      var dir, i := ROOT_INODE, 0;
      while true
        invariant 0 <= i < |path| && Walk(lookupTree, dir, path[i..]) == Walk(lookupTree, ROOT_INODE, path)
        decreases |path| - i
      {
        r := LookUpInode(dir, path[i]);
        assert path[i..][1..] == path[i + 1..];
        if r.NoEntry? || i + 1 == |path| { return; }
        dir, i := r.entry.iNode, i + 1;
      }
    }

    /** Opens what has no hash. */
    method OpenDir(iNode: Inode) returns (ok: bool)
      ensures ok <==> iNode in fsEntryStore && fsEntryStore[iNode].hash == ""
    {
      if iNode !in fsEntryStore { return false; }
      return fsEntryStore[iNode].hash == "";
    }

    /** The entries from an offset on that fit into the room. */
    method ReadDir(iNode: Inode, offset: nat, room: nat) returns (r: Page)
      ensures r.NoPage? <==> iNode !in readDirMap || offset > |readDirMap[iNode]|
      ensures r.Page? ==> offset + |r.dirents| <= |readDirMap[iNode]|
      ensures r.Page? ==> r.dirents == readDirMap[iNode][offset .. offset + |r.dirents|]
      ensures r.Page? ==> PageFills(readDirMap[iNode], offset, |r.dirents|, room)
    {
      if iNode !in readDirMap { return NoPage; }
      var children := readDirMap[iNode];
      if offset > |children| { return NoPage; }
      var i, bytesRead := offset, 0;
      while i < |children| && DirentSize(children[i]) <= room - bytesRead
        invariant offset <= i <= |children| && 0 <= bytesRead <= room && bytesRead == Bytes(children[offset .. i])
      {
        BytesNext(children, offset, i);
        bytesRead := bytesRead + DirentSize(children[i]);
        i := i + 1;
      }
      return Page(children[offset .. i]);
    }

    /** Reads a directory page by page, each time from the offset of the last entry seen and with any room
        that fits an entry: it gets every child once, in order. */
    method ReadWholeDir(iNode: Inode) returns (all: seq<Dirent>)
      requires iNode in readDirMap && ListOk(lookupTree, iNode, readDirMap[iNode])
      ensures all == readDirMap[iNode]
    {
      all := [];
      var more, offset := true, 0;
      while more
        invariant offset == |all| <= |readDirMap[iNode]| && all == readDirMap[iNode][..|all|]
        invariant !more ==> |all| == |readDirMap[iNode]|
        decreases more, |readDirMap[iNode]| - |all|
      {
        var room: nat :| offset < |readDirMap[iNode]| ==> DirentSize(readDirMap[iNode][offset]) <= room;
        var page := ReadDir(iNode, offset, room);
        assert readDirMap[iNode][offset .. offset] == [];
        if page.dirents == [] {
          more := false;
        } else {
          assert DirentOk(lookupTree, iNode, offset + |page.dirents| - 1, readDirMap[iNode][offset + |page.dirents| - 1]);
          all := all + page.dirents;
          offset := page.dirents[|page.dirents| - 1].offset;
        }
      }
    }
  }

  lemma RootKeepsLookup(nodes: Nodes, lookup: LookupTree, e: Entry, parent: Inode)
    requires LookupView(nodes, lookup) && e.fullPath == [] && [] !in nodes
    ensures LookupView(nodes[[] := Node(e, parent)], lookup)
  {
    var nodes' := nodes[[] := Node(e, parent)];
    forall p | p in nodes' && p != [] ensures Attached(nodes', lookup, p) {
      assert Attached(nodes, lookup, p);
    }
    forall k | k in lookup ensures FromPath(nodes', lookup, k) {
      assert FromPath(nodes, lookup, k);
    }
  }

  // ---------------------------------------------------------------- trees

  /** Every node hangs under a directory, up to the root, and inodes were given out up to `next`. */
  ghost predicate Tree(nodes: Nodes, next: Inode) {
    && [] in nodes && nodes[[]].entry == DirEntry([], ROOT_INODE)
    && forall p {:trigger Hangs(nodes, next, p)} :: p in nodes && p != [] ==> Hangs(nodes, next, p)
  }

  ghost predicate Hangs(nodes: Nodes, next: Inode, p: Name) {
    && p in nodes && p != []
    && Parent(p) in nodes && nodes[Parent(p)].entry.IsDir()
    && nodes[p].parent == nodes[Parent(p)].entry.iNode
    && FIRST_INODE < nodes[p].entry.iNode <= next
  }

  /** What is under a directory is, all the way up, under directories. */
  lemma {:induction false} AncestorIsDir(nodes: Nodes, next: Inode, p: Name, m: nat)
    requires Tree(nodes, next) && p in nodes && m < |p|
    ensures p[..m] in nodes && nodes[p[..m]].entry.IsDir()
    decreases |p|
  {
    assert Hangs(nodes, next, p);
    if m < |p| - 1 {
      AncestorIsDir(nodes, next, Parent(p), m);
      assert Parent(p)[..m] == p[..m];
    }
  }

  /** One of the last `k` prefixes of a name, the name itself being the last. */
  predicate Tail(name: Name, k: nat, p: Name) { p <= name && |name| - k < |p| }

  ghost function TailSet(name: Name, k: nat): (ps: set<Name>)
    requires k <= |name|
    ensures forall p :: p in ps <==> Tail(name, k, p)
  {
    if k == 0 then {} else
      assert forall p :: Tail(name, k, p) <==> Tail(name, k - 1, p) || p == name[..|name| - (k - 1)];
      TailSet(name, k - 1) + {name[..|name| - (k - 1)]}
  }

  /** The nodes once the first `k` of a chain are in. */
  ghost function Grown(nodes: Nodes, name: Name, chain: seq<Node>, k: nat): (n: Nodes)
    requires k <= |chain| <= |name|
  {
    map p | p in nodes.Keys + TailSet(name, k) :: if Tail(name, k, p) then chain[|name| - |p|] else nodes[p]
  }

  lemma GrownNext(nodes: Nodes, name: Name, chain: seq<Node>, k: nat)
    requires k < |chain| <= |name|
    ensures Grown(nodes, name, chain, k + 1) == Grown(nodes, name, chain, k)[name[..|name| - k] := chain[k]]
  {
    var top := name[..|name| - k];
    forall p ensures Tail(name, k + 1, p) <==> Tail(name, k, p) || p == top {
      if p <= name && |p| == |top| { assert p == name[..|p|]; }
    }
  }

  /** The place next to the deepest directory: taken or not, it decides whether the name fits. */
  function Slot(name: Name, j: nat): (p: Name)
    requires j < |name|
  {
    name[..j + 1]
  }

  /** No other node of the chain is there yet. */
  lemma ChainIsNew(nodes: Nodes, dirs: DirStore, next: Inode, path: Name, j: nat, m: nat)
    requires Tree(nodes, next) && DirView(nodes, dirs) && Deepest(dirs, path, j)
    requires j + 1 < m <= |path|
    ensures path[..m] !in nodes
  {
    var p := path[..m];
    assert Parent(p) == path[..m - 1];
    assert p in nodes ==> Hangs(nodes, next, p);
  }

  lemma ChainHangs(nodes: Nodes, dirs: DirStore, next: Inode, be: BundleEntry, j: nat, chain: seq<Node>, i: nat)
    requires Tree(nodes, next) && DirView(nodes, dirs) && Chain(dirs, be, next, j, chain) && FIRST_INODE <= next
    requires i < |chain|
    ensures var after, p := Grown(nodes, be.name, chain, |chain|), be.name[..|be.name| - i];
      p in after && p != [] && Hangs(after, next + |chain|, p)
  {
    var after, p := Grown(nodes, be.name, chain, |chain|), be.name[..|be.name| - i];
    assert Tail(be.name, |chain|, p);
    assert after[p] == chain[i] && chain[i].entry == ChainEntry(be, next, i);
    var up := Parent(p);
    assert up == be.name[..|p| - 1];
    if i + 1 < |chain| {
      assert Tail(be.name, |chain|, up);
      assert after[up] == chain[i + 1] && chain[i + 1].entry == ChainEntry(be, next, i + 1);
    } else {
      assert !Tail(be.name, |chain|, up);
      assert up == be.name[..j];
      assert up in nodes && after[up] == nodes[up];
    }
  }

  /** A chain whose slot is free, once added, gives a tree again. */
  lemma GrownIsTree(nodes: Nodes, dirs: DirStore, next: Inode, be: BundleEntry, j: nat, chain: seq<Node>)
    requires Tree(nodes, next) && DirView(nodes, dirs) && Chain(dirs, be, next, j, chain) && FIRST_INODE <= next
    requires Slot(be.name, j) !in nodes
    ensures Tree(Grown(nodes, be.name, chain, |chain|), next + |chain|)
  {
    var after := Grown(nodes, be.name, chain, |chain|);
    assert !Tail(be.name, |chain|, []);
    forall p | p in after && p != [] ensures Hangs(after, next + |chain|, p) {
      if Tail(be.name, |chain|, p) {
        assert p == be.name[..|p|];
        ChainHangs(nodes, dirs, next, be, j, chain, |be.name| - |p|);
      } else {
        assert Hangs(nodes, next, p);
        NotInChain(nodes, dirs, next, be.name, j, Parent(p));
        assert !Tail(be.name, |chain|, Parent(p));
      }
    }
  }

  lemma NotInChain(nodes: Nodes, dirs: DirStore, next: Inode, path: Name, j: nat, q: Name)
    requires Tree(nodes, next) && DirView(nodes, dirs) && Deepest(dirs, path, j) && Slot(path, j) !in nodes && q in nodes
    ensures !(q <= path && j < |q|)
  {
    if q <= path && j < |q| {
      assert q == path[..|q|];
      if j + 1 < |q| { ChainIsNew(nodes, dirs, next, path, j, |q|); }
    }
  }

  // ---------------------------------------------------------------- when a chain can be added

  /** The state when a name is about to be added. */
  ghost predicate Ready(nodes: Nodes, dirs: DirStore, entries: EntryStore, next: Inode, be: BundleEntry, j: nat, chain: seq<Node>) {
    && Tree(nodes, next) && DirView(nodes, dirs) && EntryView(nodes, entries) && FIRST_INODE <= next
    && Chain(dirs, be, next, j, chain)
  }

  lemma GrownNode(nodes: Nodes, name: Name, chain: seq<Node>, k: nat, p: Name)
    requires k <= |chain| <= |name| && p in Grown(nodes, name, chain, k)
    ensures (p in nodes && Grown(nodes, name, chain, k)[p] == nodes[p]) ||
      (Tail(name, k, p) && Grown(nodes, name, chain, k)[p] == chain[|name| - |p|])
  {
  }

  lemma GrownInode(nodes: Nodes, dirs: DirStore, entries: EntryStore, next: Inode, be: BundleEntry, j: nat, chain: seq<Node>,
                   k: nat, p: Name)
    requires Ready(nodes, dirs, entries, next, be, j, chain) && k <= |chain|
    requires p in Grown(nodes, be.name, chain, k)
    ensures Grown(nodes, be.name, chain, k)[p].entry.iNode <= next + k
  {
    GrownNode(nodes, be.name, chain, k, p);
    if p in nodes && Grown(nodes, be.name, chain, k)[p] == nodes[p] {
      InodeAtMost(nodes, next, p);
    } else {
      var i := |be.name| - |p|;
      assert chain[i].entry == ChainEntry(be, next, i);
    }
  }

  lemma FreshInode(nodes: Nodes, dirs: DirStore, entries: EntryStore, next: Inode, be: BundleEntry, j: nat, chain: seq<Node>,
                   k: nat, entries': EntryStore)
    requires Ready(nodes, dirs, entries, next, be, j, chain) && k < |chain|
    requires EntryView(Grown(nodes, be.name, chain, k), entries')
    ensures next + 1 + k !in entries'
  {
    if next + 1 + k in entries' {
      assert FromNode(Grown(nodes, be.name, chain, k), entries', next + 1 + k);
      GrownInode(nodes, dirs, entries, next, be, j, chain, k, entries'[next + 1 + k].fullPath);
    }
  }

  lemma InodeAtMost(nodes: Nodes, next: Inode, p: Name)
    requires Tree(nodes, next) && FIRST_INODE <= next && p in nodes
    ensures nodes[p].entry.iNode <= next
  {
    if p != [] { assert Hangs(nodes, next, p); }
  }

  /** The last node of a chain goes under a directory that is there. */
  lemma TopParent(nodes: Nodes, dirs: DirStore, entries: EntryStore, next: Inode, be: BundleEntry, j: nat, chain: seq<Node>)
    requires Ready(nodes, dirs, entries, next, be, j, chain)
    ensures be.name[..j] in nodes && chain[|chain| - 1].parent == nodes[be.name[..j]].entry.iNode <= next
  {
    assert j == 0 ==> be.name[..j] == [];
    InodeAtMost(nodes, next, be.name[..j]);
  }

  lemma SameInode(nodes: Nodes, entries: EntryStore, p: Name, q: Name)
    requires EntryView(nodes, entries) && p in nodes && q in nodes && nodes[p].entry.iNode == nodes[q].entry.iNode
    ensures p == q
  {
    assert Stored(nodes, entries, p) && Stored(nodes, entries, q);
  }

  /** Only the slot next to the deepest directory can be taken. */
  lemma KeyTaken(nodes: Nodes, dirs: DirStore, entries: EntryStore, next: Inode, be: BundleEntry, j: nat, chain: seq<Node>,
                 k: nat, lookup: LookupTree)
    requires Ready(nodes, dirs, entries, next, be, j, chain) && k < |chain|
    requires LookupView(Grown(nodes, be.name, chain, k), lookup)
    requires (chain[k].parent, Base(be.name[..|be.name| - k])) in lookup
    ensures k == |chain| - 1 && Slot(be.name, j) in nodes
  {
    var after, path := Grown(nodes, be.name, chain, k), be.name[..|be.name| - k];
    var p := lookup[(chain[k].parent, Base(path))].fullPath;
    assert FromPath(after, lookup, (chain[k].parent, Base(path)));
    GrownNode(nodes, be.name, chain, k, p);
    TopParent(nodes, dirs, entries, next, be, j, chain);
    assert p in nodes && after[p] == nodes[p];
    assert Hangs(nodes, next, p);
    InodeAtMost(nodes, next, Parent(p));
    SameInode(nodes, entries, Parent(p), be.name[..j]);
    assert p == Parent(p) + [Base(p)] == be.name[..j] + [be.name[j]] == Slot(be.name, j);
  }

  /** If it is taken, the last node cannot be added. */
  lemma TakenKey(nodes: Nodes, dirs: DirStore, entries: EntryStore, next: Inode, be: BundleEntry, j: nat, chain: seq<Node>,
                 lookup: LookupTree)
    requires Ready(nodes, dirs, entries, next, be, j, chain) && Slot(be.name, j) in nodes
    requires LookupView(Grown(nodes, be.name, chain, |chain| - 1), lookup)
    ensures (chain[|chain| - 1].parent, Base(Slot(be.name, j))) in lookup
  {
    var k, p := |chain| - 1, Slot(be.name, j);
    var after := Grown(nodes, be.name, chain, k);
    TopParent(nodes, dirs, entries, next, be, j, chain);
    assert !Tail(be.name, k, p);
    assert Hangs(nodes, next, p);
    assert Parent(p) == be.name[..j];
    assert after[p] == nodes[p] && Attached(after, lookup, p);
  }

  /** The path of node `k` is new, unless it is the last one and its slot is taken. */
  lemma PathNew(nodes: Nodes, dirs: DirStore, entries: EntryStore, next: Inode, be: BundleEntry, j: nat, chain: seq<Node>, k: nat)
    requires Ready(nodes, dirs, entries, next, be, j, chain) && k < |chain|
    ensures var path := be.name[..|be.name| - k];
      path in Grown(nodes, be.name, chain, k) <==> k == |chain| - 1 && Slot(be.name, j) in nodes
  {
    var path := be.name[..|be.name| - k];
    assert !Tail(be.name, k, path);
    if k == |chain| - 1 {
      assert path == Slot(be.name, j);
    } else {
      ChainIsNew(nodes, dirs, next, be.name, j, |path|);
    }
  }

  lemma DirNew(nodes: Nodes, dirs: DirStore, entries: EntryStore, next: Inode, be: BundleEntry, j: nat, chain: seq<Node>,
               k: nat, dirs': DirStore)
    requires Ready(nodes, dirs, entries, next, be, j, chain) && 0 < k < |chain|
    requires DirView(Grown(nodes, be.name, chain, k), dirs')
    ensures be.name[..|be.name| - k] !in dirs'
  {
    var path := be.name[..|be.name| - k];
    assert !Tail(be.name, k, path);
    assert path !in dirs;
  }

  /** Node `k` of a chain is new to every index, unless it is the last one and its slot is taken. */
  lemma CanAdd(nodes: Nodes, dirs: DirStore, entries: EntryStore, next: Inode, be: BundleEntry, j: nat, chain: seq<Node>,
               k: nat, dirs': DirStore, entries': EntryStore, lookup': LookupTree)
    requires Ready(nodes, dirs, entries, next, be, j, chain) && k < |chain|
    requires DirView(Grown(nodes, be.name, chain, k), dirs') && EntryView(Grown(nodes, be.name, chain, k), entries')
    requires LookupView(Grown(nodes, be.name, chain, k), lookup')
    ensures chain[k].entry == ChainEntry(be, next, k) && chain[k].entry.fullPath == be.name[..|be.name| - k] != []
    ensures chain[k].entry.iNode != ROOT_INODE && chain[k].entry.iNode !in entries'
    ensures k > 0 ==> chain[k].entry.fullPath !in dirs'
    ensures (chain[k].parent, Base(chain[k].entry.fullPath)) in lookup' <==> k == |chain| - 1 && Slot(be.name, j) in nodes
  {
    var path := be.name[..|be.name| - k];
    assert be.name[..|be.name|] == be.name;
    assert chain[k].entry == ChainEntry(be, next, k);
    FreshInode(nodes, dirs, entries, next, be, j, chain, k, entries');
    if k > 0 { DirNew(nodes, dirs, entries, next, be, j, chain, k, dirs'); }
    if (chain[k].parent, Base(path)) in lookup' {
      KeyTaken(nodes, dirs, entries, next, be, j, chain, k, lookup');
    } else if k == |chain| - 1 && Slot(be.name, j) in nodes {
      TakenKey(nodes, dirs, entries, next, be, j, chain, lookup');
    }
  }

  // ---------------------------------------------------------------- whole bundles

  /** A name that is neither an entry's name nor above or below one. */
  ghost predicate Fits(bundle: seq<BundleEntry>, name: Name) {
    forall i :: 0 <= i < |bundle| ==> !(bundle[i].name <= name) && !(name <= bundle[i].name)
  }

  /** Names are distinct, and none is an ancestor of another. */
  ghost predicate PrefixFree(bundle: seq<BundleEntry>) {
    forall i, j :: 0 <= i < |bundle| && 0 <= j < |bundle| && i != j ==> !(bundle[i].name <= bundle[j].name)
  }

  /** Some entry's name is this one or goes through it. */
  ghost predicate Leads(bundle: seq<BundleEntry>, p: Name) { exists i :: 0 <= i < |bundle| && p <= bundle[i].name }

  /** The node of the `i`-th entry is a file with its hash and size. */
  ghost predicate FileAt(bundle: seq<BundleEntry>, nodes: Nodes, i: nat) {
    && i < |bundle| && bundle[i].name in nodes
    && IsFileOf(nodes[bundle[i].name].entry, bundle[i])
  }

  predicate IsFileOf(e: Entry, be: BundleEntry) { !e.IsDir() && e.fullPath == be.name && e.hash == be.hash && e.size == be.size }

  /** A directory has no hash, and a size of its own. */
  predicate IsPlainDir(e: Entry) { e.IsDir() && e.hash == "" && e.size == 2048 }

  /** A node is on the way to some entry, and is that entry if it is a file. */
  ghost predicate Explained(bundle: seq<BundleEntry>, nodes: Nodes, p: Name) {
    && p in nodes && (p == [] || Leads(bundle, p))
    && (IsPlainDir(nodes[p].entry) || exists i :: 0 <= i < |bundle| && bundle[i].name == p)
  }

  /** The nodes are the root, the files of the bundle and the directories on the way to them. */
  ghost predicate Covers(bundle: seq<BundleEntry>, nodes: Nodes) {
    && (forall p {:trigger Explained(bundle, nodes, p)} :: p in nodes ==> Explained(bundle, nodes, p))
    && (forall i: nat {:trigger FileAt(bundle, nodes, i)} :: i < |bundle| ==> FileAt(bundle, nodes, i))
  }

  /** The slot is free exactly if the name fits. */
  lemma FreeIffFits(bundle: seq<BundleEntry>, nodes: Nodes, dirs: DirStore, next: Inode, name: Name, j: nat)
    requires Covers(bundle, nodes) && Tree(nodes, next) && DirView(nodes, dirs) && Deepest(dirs, name, j)
    ensures Slot(name, j) !in nodes <==> Fits(bundle, name)
  {
    var q := Slot(name, j);
    if q in nodes {
      SlotBlocks(bundle, nodes, dirs, name, j);
    } else {
      forall i | 0 <= i < |bundle| ensures !(bundle[i].name <= name) && !(name <= bundle[i].name) {
        BlockedSlot(bundle, nodes, dirs, next, name, j, i);
      }
    }
  }

  lemma SlotBlocks(bundle: seq<BundleEntry>, nodes: Nodes, dirs: DirStore, name: Name, j: nat)
    requires Covers(bundle, nodes) && DirView(nodes, dirs) && Deepest(dirs, name, j) && Slot(name, j) in nodes
    ensures !Fits(bundle, name)
  {
    var q := Slot(name, j);
    assert Explained(bundle, nodes, q);
    if j + 1 == |name| {
      assert q == name;
      assert Leads(bundle, q);
    } else {
      assert q !in dirs;
      assert q <= name;
    }
  }

  lemma PrefixIsNode(nodes: Nodes, next: Inode, x: Name, m: nat)
    requires Tree(nodes, next) && x in nodes && m <= |x|
    ensures x[..m] in nodes
  {
    if m < |x| { AncestorIsDir(nodes, next, x, m); } else { assert x[..m] == x; }
  }

  lemma PrefixIs(x: Name, name: Name)
    requires |x| <= |name|
    ensures x <= name <==> x == name[..|x|]
  {
  }

  lemma BlockedSlot(bundle: seq<BundleEntry>, nodes: Nodes, dirs: DirStore, next: Inode, name: Name, j: nat, i: nat)
    requires Covers(bundle, nodes) && Tree(nodes, next) && DirView(nodes, dirs) && Deepest(dirs, name, j)
    requires i < |bundle| && Slot(name, j) !in nodes
    ensures !(bundle[i].name <= name) && !(name <= bundle[i].name)
  {
    var x, q := bundle[i].name, Slot(name, j);
    assert FileAt(bundle, nodes, i);
    if |x| > j {
      PrefixIsNode(nodes, next, x, j + 1);
      assert q != x[..j + 1];
    } else {
      var d := name[..j];
      assert j == 0 ==> d == [];
      assert d in nodes && nodes[d].entry.IsDir();
      if |x| < j { AncestorIsDir(nodes, next, d, |x|); }
      assert d[..j] == d && d[..|x|] == name[..|x|];
      PrefixIs(x, name);
    }
  }

  lemma GrownCovers(bundle: seq<BundleEntry>, nodes: Nodes, dirs: DirStore, entries: EntryStore, next: Inode, be: BundleEntry, j: nat,
                    chain: seq<Node>)
    requires Covers(bundle, nodes) && Ready(nodes, dirs, entries, next, be, j, chain) && Slot(be.name, j) !in nodes
    ensures Covers(bundle + [be], Grown(nodes, be.name, chain, |chain|))
  {
    var after, all := Grown(nodes, be.name, chain, |chain|), bundle + [be];
    assert all[|bundle|] == be;
    forall p | p in after ensures Explained(all, after, p) {
      if Tail(be.name, |chain|, p) {
        var i := |be.name| - |p|;
        assert chain[i].entry == ChainEntry(be, next, i);
        assert p <= all[|bundle|].name;
        if i == 0 { assert all[|bundle|].name == p; }
      } else {
        assert Explained(bundle, nodes, p);
        assert forall i :: 0 <= i < |bundle| ==> all[i] == bundle[i];
      }
    }
    forall i: nat | i < |all| ensures FileAt(all, after, i) {
      if i < |bundle| {
        assert FileAt(bundle, nodes, i);
        NotInChain(nodes, dirs, next, be.name, j, bundle[i].name);
      } else {
        assert Tail(be.name, |chain|, be.name);
        assert chain[0].entry == ChainEntry(be, next, 0);
      }
    }
  }

  lemma PrefixFreeNext(bundle: seq<BundleEntry>, i: nat)
    requires i < |bundle| && PrefixFree(bundle[..i])
    ensures Fits(bundle[..i], bundle[i].name) ==> PrefixFree(bundle[..i + 1])
    ensures !Fits(bundle[..i], bundle[i].name) ==> !PrefixFree(bundle)
  {
    var before, after := bundle[..i], bundle[..i + 1];
    if Fits(before, bundle[i].name) {
      forall a, b | 0 <= a < |after| && 0 <= b < |after| && a != b ensures !(after[a].name <= after[b].name) {
        if a < i { assert after[a] == before[a]; }
        if b < i { assert after[b] == before[b]; }
      }
    } else {
      var a :| 0 <= a < i && (before[a].name <= bundle[i].name || bundle[i].name <= before[a].name);
      assert before[a] == bundle[a];
    }
  }

  // ---------------------------------------------------------------- looking names up

  datatype Lookup = FoundEntry(entry: Entry) | NoEntry

  datatype Page = Page(dirents: seq<Dirent>) | NoPage

  /** Looks up one component after the other. */
  function Walk(lookup: LookupTree, dir: Inode, path: Name): (r: Lookup)
    requires path != []
    decreases |path|
  {
    var key := (dir, path[0]);
    if key !in lookup then NoEntry
    else if |path| == 1 then FoundEntry(lookup[key])
    else Walk(lookup, lookup[key].iNode, path[1..])
  }

  /** A directory entry takes 24 bytes and its name, padded to a multiple of eight. */
  function DirentSize(d: Dirent): (n: nat)
    ensures n % 8 == 0 && 24 + |d.name| <= n < 32 + |d.name|
  {
    (24 + |d.name| + 7) / 8 * 8
  }

  function Bytes(ds: seq<Dirent>): (n: nat) {
    if ds == [] then 0 else Bytes(ds[..|ds| - 1]) + DirentSize(ds[|ds| - 1])
  }

  lemma BytesNext(ds: seq<Dirent>, from: nat, i: nat)
    requires from <= i < |ds|
    ensures Bytes(ds[from .. i + 1]) == Bytes(ds[from .. i]) + DirentSize(ds[i])
  {
    var longer := ds[from .. i + 1];
    assert longer[..|longer| - 1] == ds[from .. i];
  }

  /** As many entries as the room takes, and no more. */
  predicate PageFills(children: seq<Dirent>, offset: nat, n: nat, room: nat)
    requires offset + n <= |children|
  {
    && Bytes(children[offset .. offset + n]) <= room
    && (offset + n < |children| ==> room < Bytes(children[offset .. offset + n]) + DirentSize(children[offset + n]))
  }

  /** A directory's inode and a component look up the child of that name, if there is one. */
  lemma ChildLookup(nodes: Nodes, next: Inode, entries: EntryStore, lookup: LookupTree, d: Name, c: Component)
    requires Tree(nodes, next) && EntryView(nodes, entries) && LookupView(nodes, lookup) && d in nodes
    ensures (nodes[d].entry.iNode, c) in lookup <==> d + [c] in nodes
    ensures d + [c] in nodes ==> lookup[(nodes[d].entry.iNode, c)] == nodes[d + [c]].entry
  {
    var key, p := (nodes[d].entry.iNode, c), d + [c];
    assert Parent(p) == d && Base(p) == c;
    if key in lookup {
      assert FromPath(nodes, lookup, key);
      var q := lookup[key].fullPath;
      assert Hangs(nodes, next, q);
      SameInode(nodes, entries, Parent(q), d);
      assert q == Parent(q) + [Base(q)];
    }
    if p in nodes {
      assert Hangs(nodes, next, p);
      assert Attached(nodes, lookup, p);
    }
  }

  /** Walking from a directory finds exactly the nodes below it. */
  lemma {:induction false} WalkFinds(nodes: Nodes, next: Inode, entries: EntryStore, lookup: LookupTree, d: Name, rest: Name)
    requires Tree(nodes, next) && EntryView(nodes, entries) && LookupView(nodes, lookup) && d in nodes && rest != []
    ensures Walk(lookup, nodes[d].entry.iNode, rest) == if d + rest in nodes then FoundEntry(nodes[d + rest].entry) else NoEntry
    decreases |rest|
  {
    var c := d + [rest[0]];
    ChildLookup(nodes, next, entries, lookup, d, rest[0]);
    if d + rest in nodes {
      PrefixIsNode(nodes, next, d + rest, |d| + 1);
      assert (d + rest)[..|d| + 1] == c;
    }
    if |rest| == 1 {
      assert d + rest == c;
    } else if c in nodes {
      WalkFinds(nodes, next, entries, lookup, c, rest[1..]);
      assert c + rest[1..] == d + rest;
    }
  }

  /** Looking a name up from the root gives this entry. */
  ghost predicate Finds(lookup: LookupTree, p: Name, e: Entry) { p != [] && Walk(lookup, ROOT_INODE, p) == FoundEntry(e) }

  ghost predicate FileFound(lookup: LookupTree, be: BundleEntry) { exists e :: Finds(lookup, be.name, e) && IsFileOf(e, be) }

  ghost predicate ChildFound(lookup: LookupTree, d: Name, c: Component) { exists e :: Finds(lookup, d + [c], e) }

  ghost predicate IsEntryOf(bundle: seq<BundleEntry>, p: Name) { exists i :: 0 <= i < |bundle| && bundle[i].name == p }

  /** What a mounted bundle promises of its lookups. */
  ghost predicate LookupsOk(bundle: seq<BundleEntry>, lookup: LookupTree) {
    // each file is found by walking from the root, with its hash and size
    && (forall i :: 0 <= i < |bundle| ==> FileFound(lookup, bundle[i]))
    // nothing is found but those files and the directories on the way to them, which have no hash
    && (forall p, e :: Finds(lookup, p, e) ==> Leads(bundle, p) && e.fullPath == p && (IsPlainDir(e) || IsEntryOf(bundle, p)))
    && (forall p, e :: Finds(lookup, p, e) && IsEntryOf(bundle, p) ==> !e.IsDir())
    // different names have different inodes, none of them the root's
    && (forall p, e, q, f :: Finds(lookup, p, e) && Finds(lookup, q, f) && e.iNode == f.iNode ==> p == q)
    && (forall p, e :: Finds(lookup, p, e) ==> e.iNode > FIRST_INODE)
  }

  /** What it promises of its directories. */
  ghost predicate DirsOk(bundle: seq<BundleEntry>, dirs: DirStore, lookup: LookupTree, listing: Listing) {
    // a directory's ancestors are directories
    && (forall p, m :: p in dirs && 0 <= m <= |p| ==> p[..m] in dirs)
    // it lists the names of its children and no others, each once
    && (forall d, c :: d in dirs ==> (Listed(listing, (dirs[d].iNode, c)) <==> ChildFound(lookup, d, c)))
    && (forall i :: i in listing ==> ListOk(lookup, i, listing[i]))
    // only the root of an empty bundle has no list
    && (forall d :: d in dirs && dirs[d].iNode !in listing ==> d == [] && bundle == [])
    && (bundle == [] ==> ROOT_INODE !in listing)
  }

  lemma FindsIffNode(nodes: Nodes, next: Inode, entries: EntryStore, lookup: LookupTree, p: Name, e: Entry)
    requires Tree(nodes, next) && EntryView(nodes, entries) && LookupView(nodes, lookup)
    ensures Finds(lookup, p, e) <==> p != [] && p in nodes && nodes[p].entry == e
  {
    if p != [] {
      WalkFinds(nodes, next, entries, lookup, [], p);
      assert [] + p == p;
    }
  }

  lemma TreeLookups(bundle: seq<BundleEntry>, nodes: Nodes, next: Inode, entries: EntryStore, lookup: LookupTree)
    requires Tree(nodes, next) && EntryView(nodes, entries) && LookupView(nodes, lookup) && Covers(bundle, nodes)
    ensures LookupsOk(bundle, lookup)
  {
    forall i | 0 <= i < |bundle| ensures FileFound(lookup, bundle[i]) {
      assert FileAt(bundle, nodes, i);
      var e := nodes[bundle[i].name].entry;
      FindsIffNode(nodes, next, entries, lookup, bundle[i].name, e);
      assert Finds(lookup, bundle[i].name, e);
    }
    forall p, e | Finds(lookup, p, e)
      ensures Leads(bundle, p) && e.fullPath == p && e.iNode > FIRST_INODE
      ensures IsPlainDir(e) || IsEntryOf(bundle, p)
    {
      FindsIffNode(nodes, next, entries, lookup, p, e);
      assert Explained(bundle, nodes, p) && Stored(nodes, entries, p) && Hangs(nodes, next, p);
    }
    forall p, e | Finds(lookup, p, e) && IsEntryOf(bundle, p) ensures !e.IsDir() {
      FindsIffNode(nodes, next, entries, lookup, p, e);
      var i: nat :| i < |bundle| && bundle[i].name == p;
      assert FileAt(bundle, nodes, i);
    }
    forall p, e, q, f | Finds(lookup, p, e) && Finds(lookup, q, f) && e.iNode == f.iNode ensures p == q {
      FindsIffNode(nodes, next, entries, lookup, p, e);
      FindsIffNode(nodes, next, entries, lookup, q, f);
      SameInode(nodes, entries, p, q);
    }
  }

  lemma ListsChildren(nodes: Nodes, next: Inode, entries: EntryStore, lookup: LookupTree, listing: Listing, d: Name, c: Component)
    requires Tree(nodes, next) && EntryView(nodes, entries) && LookupView(nodes, lookup) && ListView(lookup, listing) && d in nodes
    ensures Listed(listing, (nodes[d].entry.iNode, c)) <==> ChildFound(lookup, d, c)
    ensures Listed(listing, (nodes[d].entry.iNode, c)) <==> d + [c] in nodes
  {
    var i, p := nodes[d].entry.iNode, d + [c];
    ChildLookup(nodes, next, entries, lookup, d, c);
    if Listed(listing, (i, c)) {
      assert ListOk(lookup, i, listing[i]);
      assert p in nodes;
    }
    if p in nodes {
      FindsIffNode(nodes, next, entries, lookup, p, nodes[p].entry);
      assert Listed(listing, (i, c));
    }
    if e :| Finds(lookup, p, e) { FindsIffNode(nodes, next, entries, lookup, p, e); }
  }

  lemma HasChild(bundle: seq<BundleEntry>, nodes: Nodes, next: Inode, d: Name) returns (c: Component)
    requires Tree(nodes, next) && Covers(bundle, nodes) && d in nodes && nodes[d].entry.IsDir() && (d != [] || bundle != [])
    ensures d + [c] in nodes
  {
    assert Explained(bundle, nodes, d);
    if d == [] { assert [] <= bundle[0].name; }
    var i :| 0 <= i < |bundle| && d <= bundle[i].name;
    var x := bundle[i].name;
    assert FileAt(bundle, nodes, i);
    assert d == x[..|d|];
    assert x[..|x|] == x;
    assert |x| != |d|;
    c := x[|d|];
    PrefixIsNode(nodes, next, x, |d| + 1);
    assert x[..|d| + 1] == d + [c];
  }

  lemma EmptyIsRoot(nodes: Nodes)
    requires Covers([], nodes)
    ensures forall p :: p in nodes ==> p == []
  {
    forall p | p in nodes ensures p == [] { assert Explained([], nodes, p); }
  }

  lemma TreeDirs(bundle: seq<BundleEntry>, nodes: Nodes, next: Inode, dirs: DirStore, entries: EntryStore, lookup: LookupTree, listing: Listing)
    requires Tree(nodes, next) && Views(nodes, dirs, entries, lookup, listing) && Covers(bundle, nodes)
    ensures DirsOk(bundle, dirs, lookup, listing)
  {
    forall p, m | p in dirs && 0 <= m <= |p| ensures p[..m] in dirs {
      if m < |p| { AncestorIsDir(nodes, next, p, m); } else { assert p[..m] == p; }
    }
    forall d, c | d in dirs ensures Listed(listing, (dirs[d].iNode, c)) <==> ChildFound(lookup, d, c) {
      ListsChildren(nodes, next, entries, lookup, listing, d, c);
    }
    forall d | d in dirs && dirs[d].iNode !in listing ensures d == [] && bundle == [] {
      if d != [] || bundle != [] {
        var c := HasChild(bundle, nodes, next, d);
        ListsChildren(nodes, next, entries, lookup, listing, d, c);
      }
    }
    if bundle == [] && ROOT_INODE in listing {
      assert ListOk(lookup, ROOT_INODE, listing[ROOT_INODE]);
      var c := listing[ROOT_INODE][0].name;
      assert DirentOk(lookup, ROOT_INODE, 0, listing[ROOT_INODE][0]);
      EmptyIsRoot(nodes);
      ChildLookup(nodes, next, entries, lookup, [], c);
    }
  }

  /** The entry an inode stands for is the one that was looked up, and every inode but the root's is found so. */
  ghost predicate AttributesOk(lookup: LookupTree, entries: EntryStore) {
    && (forall p, e :: Finds(lookup, p, e) ==> e.iNode in entries && entries[e.iNode] == e)
    && (forall i :: i in entries && i != ROOT_INODE ==> Finds(lookup, entries[i].fullPath, entries[i]))
    && ROOT_INODE in entries && entries[ROOT_INODE].fullPath == [] && entries[ROOT_INODE].IsDir()
  }

  lemma TreeAttributes(nodes: Nodes, next: Inode, entries: EntryStore, lookup: LookupTree)
    requires Tree(nodes, next) && EntryView(nodes, entries) && LookupView(nodes, lookup)
    ensures AttributesOk(lookup, entries)
  {
    forall p, e | Finds(lookup, p, e) ensures e.iNode in entries && entries[e.iNode] == e {
      FindsIffNode(nodes, next, entries, lookup, p, e);
      assert Stored(nodes, entries, p);
    }
    forall i | i in entries && i != ROOT_INODE ensures Finds(lookup, entries[i].fullPath, entries[i]) {
      assert FromNode(nodes, entries, i);
      FindsIffNode(nodes, next, entries, lookup, entries[i].fullPath, entries[i]);
    }
    assert Stored(nodes, entries, []);
  }

  lemma FileHash(bundle: seq<BundleEntry>, lookup: LookupTree, i: nat) returns (e: Entry)
    requires LookupsOk(bundle, lookup) && i < |bundle|
    ensures Finds(lookup, bundle[i].name, e) && !e.IsDir() && e.hash == bundle[i].hash
  {
    assert FileFound(lookup, bundle[i]);
    e :| Finds(lookup, bundle[i].name, e) && IsFileOf(e, bundle[i]);
  }

  lemma FoundHash(bundle: seq<BundleEntry>, lookup: LookupTree, p: Name, e: Entry)
    requires LookupsOk(bundle, lookup) && Finds(lookup, p, e)
    ensures if e.IsDir() then e.hash == "" else exists i :: 0 <= i < |bundle| && e.hash == bundle[i].hash
  {
    if IsEntryOf(bundle, p) {
      var i :| 0 <= i < |bundle| && bundle[i].name == p;
      var f := FileHash(bundle, lookup, i);
      assert e == f;
    }
  }

  ghost predicate OpensDirsOnly(lookup: LookupTree) { forall p, e :: Finds(lookup, p, e) ==> (e.hash == "" <==> e.IsDir()) }

  /** What is found can be opened exactly if it is a directory, as long as no file of the bundle lacks a hash. */
  lemma OpensIffDir(bundle: seq<BundleEntry>, lookup: LookupTree)
    requires LookupsOk(bundle, lookup)
    ensures OpensDirsOnly(lookup) <==> forall i :: 0 <= i < |bundle| ==> bundle[i].hash != ""
  {
    if OpensDirsOnly(lookup) {
      forall i | 0 <= i < |bundle| ensures bundle[i].hash != "" { var e := FileHash(bundle, lookup, i); }
    } else {
      var p, e :| Finds(lookup, p, e) && !(e.hash == "" <==> e.IsDir());
      FoundHash(bundle, lookup, p, e);
    }
  }

  /** Mounting a bundle: refused exactly if two names clash, and otherwise every promise holds. */
  method Mount(bundle: seq<BundleEntry>) returns (fs: ReadOnlyFs, ok: bool)
    requires forall i :: 0 <= i < |bundle| ==> bundle[i].name != []
    ensures ok <==> PrefixFree(bundle)
    ensures ok ==> LookupsOk(bundle, fs.lookupTree) && AttributesOk(fs.lookupTree, fs.fsEntryStore)
    ensures ok ==> DirsOk(bundle, fs.dirStore, fs.lookupTree, fs.readDirMap)
  {
    fs := new ReadOnlyFs();
    var iNode;
    ok, iNode := fs.Populate(bundle);
    if ok {
      TreeLookups(bundle, fs.nodes, iNode, fs.fsEntryStore, fs.lookupTree);
      TreeAttributes(fs.nodes, iNode, fs.fsEntryStore, fs.lookupTree);
      TreeDirs(bundle, fs.nodes, iNode, fs.dirStore, fs.fsEntryStore, fs.lookupTree, fs.readDirMap);
    }
  }
}
