/** Trees that do not come back: whatever reading makes of one, it is not the tree
    that was written. */
module FdtMisread {
  import opened Options
  import opened FdtTree
  import opened FdtWrite
  import opened FdtRead
  import opened FdtRoundTrip
  import opened FdtBlob

  /** What the compiler holds in memory: names are C strings, and lengths have an int's size. */
  predicate Strings(node: Node)
    decreases node, 1
  {
    node.deleted ||
    (&& Str(node.name) && |node.name| < 0x7fff_ffff
     && (forall k :: 0 <= k < |node.props| ==> GoodProp(node.props[k]))
     && AllStrings(node.children))
  }

  predicate AllStrings(children: seq<Node>)
    decreases children, 0
  {
    children == [] || (Strings(children[0]) && AllStrings(children[1..]))
  }

  /** The reading loop only adds to a node. */
  lemma {:induction false} ItemsKeep(f: Bytes, p: nat, strs: Bytes, flat: Bytes, node: Node, fl: Layout)
    ensures var r := ReadItems(f, p, strs, flat, node, fl);
      r.Some? ==>
        r.value.0.name == node.name && node.props <= r.value.0.props && node.children <= r.value.0.children
    decreases |f| - p
  {
    hide ReadProperty, ReadNode;
    var tag := ReadWord(f, p);
    if tag.Some? {
      if tag.value.0 == PROP {
        var prop := ReadProperty(f, p + 4, strs, fl.varAlign);
        if prop.Some? {
          ItemsKeep(f, prop.value.1, strs, flat, node.(props := node.props + [prop.value.0]), fl);
        }
      } else if tag.value.0 == BEGIN_NODE {
        var child := ReadNode(f, p + 4, strs, flat, fl);
        if child.Some? {
          ItemsKeep(f, child.value.1, strs, flat, node.(children := node.children + [child.value.0]), fl);
        }
      } else if tag.value.0 == NOP {
        ItemsKeep(f, p + 4, strs, flat, node, fl);
      }
    }
  }

  /** A name that cannot be cut off its path again. */
  lemma NameMisread(f: Bytes, p: nat, later: Bytes, node: Node, prefix: Bytes, fl: Layout, after: nat)
    requires fl.fullPath && !GoodPath(prefix) && ReadString(f, p) == Some((Join(prefix, node.name), after))
    ensures var r := ReadNode(f, p, later, prefix, fl); r.Some? ==> r.value.0 != Canon(node, fl)
  {
    hide ReadItems, ReadString, NameFromPath, Join;
    NameFromJoin(prefix, node.name);
    var name := NameFromPath(prefix, Join(prefix, node.name));
    if name.Some? {
      ItemsKeep(f, after, later, Join(prefix, node.name), Node(name.value, [], [], [], false), fl);
    }
  }

  /** A name property of which only the '@' is read. */
  lemma AddedMisread(f: Bytes, pos: nat, strs: Bytes, later: Bytes, source: Node, flat: Bytes, node: Node, fl: Layout)
    requires pos % 4 == 0 && |source.name| < 0x7fff_ffff && |later| < 0x8000_0000
    requires fl.nameProps && !SeenName(source.props) && source.name != [] && BaseLength(source.name) == 0
    requires var (b, strs') := NamePropBytes(source, pos, strs, fl); Stands(f, pos, b) && strs' <= later
    ensures var r := ReadItems(f, pos, later, flat, node, fl);
      r.Some? ==> |r.value.0.props| > |node.props| && r.value.0.props[|node.props|].val == [AT]
  {
    hide Stands, ReadProperty, PropBytes, Insert, ReadName, Word32;
    var (off, strs1) := Insert(strs, NAME);
    NameStands(strs1, later, off, NAME);
    AtNameMisread(f, pos, later, source.name, off, fl);
    PropParts(f, pos, 1, off, source.name + [0], fl);
    WordStands(f, pos, PROP);
    var q := ReadProperty(f, pos + 4, later, fl.varAlign);
    if q.Some? {
      ItemsKeep(f, q.value.1, later, flat, node.(props := node.props + [q.value.0]), fl);
    }
  }

  lemma {:induction false} NodeMisread(f: Bytes, pos: nat, strs: Bytes, later: Bytes, node: Node, prefix: Bytes, fl: Layout)
    requires pos % 4 == 0 && !node.deleted && Strings(node) && Str(prefix) && !Good(node, prefix, fl)
    requires var (b, strs') := NodeBytes(node, prefix, pos, strs, fl); Stands(f, pos, b) && strs' <= later
    requires |later| < 0x8000_0000
    ensures ReadWord(f, pos) == Some((BEGIN_NODE, pos + 4))
    ensures var r := ReadNode(f, pos + 4, later, prefix, fl); r.Some? ==> r.value.0 != Canon(node, fl)
    decreases node, 1
  {
    hide Stands, ReadItems, ReadString, ReadWord, HeadBytes, PropsBytes, NamePropBytes, ChildrenBytes, NodeBytes, Join,
         NameFromPath, LiveProps, CanonChildren;
    var full := Join(prefix, node.name);
    var head, props, nameProp, children, strs1, strs2, strs3 := NodeParts(f, pos, strs, node, prefix, fl);
    JoinStr(prefix, node.name);
    HeadStands(f, pos, node.name, full, fl);
    if fl.fullPath && !GoodPath(prefix) {
      NameMisread(f, pos + 4, later, node, prefix, fl, pos + |head|);
      return;
    }
    NameFromJoin(prefix, node.name);
    var flat := if fl.fullPath then full else node.name;
    var n0 := Node(node.name, [], [], [], false);
    PropsStand(f, pos + |head|, strs, later, node.props, flat, n0, fl);
    var n1 := n0.(props := n0.props + LiveProps(node.props));
    assert [] + LiveProps(node.props) == LiveProps(node.props);
    if fl.nameProps && !SeenName(node.props) && node.name != [] && BaseLength(node.name) == 0 {
      AddedMisread(f, pos + |head| + |props|, strs1, later, node, flat, n1, fl);
      AddedDiffers(node, fl);
      return;
    }
    NamePropStands(f, pos + |head| + |props|, strs1, later, node, flat, n1, fl);
    var n2 := n1.(props := n1.props + AddedName(node, fl));
    ChildrenMisread(f, pos + |head| + |props| + |nameProp|, strs2, later, node.children, full, flat, n2, fl);
    assert [] + CanonChildren(node.children, fl) == CanonChildren(node.children, fl);
  }

  lemma AddedDiffers(node: Node, fl: Layout)
    requires fl.nameProps && !SeenName(node.props) && BaseLength(node.name) == 0
    ensures var ps := Canon(node, fl).props; |ps| > |LiveProps(node.props)| && ps[|LiveProps(node.props)|].val != [AT]
  {
    assert (node.name[..0] + [0])[0] == 0;
  }

  lemma {:induction false} ChildrenMisread(
      f: Bytes, pos: nat, strs: Bytes, later: Bytes, children: seq<Node>, full: Bytes, flat: Bytes, node: Node, fl: Layout)
    requires pos % 4 == 0 && AllStrings(children) && Str(full) && !GoodChildren(children, full, fl)
    requires fl.fullPath ==> flat == full
    requires var (b, strs') := ChildrenBytes(children, full, pos, strs, fl); Stands(f, pos, b) && strs' <= later
    requires |later| < 0x8000_0000
    ensures var r := ReadItems(f, pos, later, flat, node, fl);
      r.Some? ==> r.value.0.children != node.children + CanonChildren(children, fl)
    decreases children, 0
  {
    hide Stands, ReadItems, ReadWord, ReadNode, NodeBytes, Good, Canon, Strings;
    var c := children[0];
    var (b, strs1) := NodeBytes(c, full, pos, strs, fl);
    var (rest, strs2) := ChildrenBytes(children[1..], full, pos + |b|, strs1, fl);
    StandsSplit(f, pos, b, rest);
    if c.deleted {
      DeletedNode(c, full, pos, strs, fl);
      DeletedIsGood(c, full, fl);
      assert [] + rest == rest;
      ChildrenMisread(f, pos, strs, later, children[1..], full, flat, node, fl);
    } else if Good(c, full, fl) {
      NodeStands(f, pos, strs, later, c, full, fl);
      ChildStep(f, pos, later, Canon(c, fl), |b|, full, flat, node, fl);
      ChildrenMisread(f, pos + |b|, strs1, later, children[1..], full, flat,
                      node.(children := node.children + [Canon(c, fl)]), fl);
      assert node.children + [Canon(c, fl)] + CanonChildren(children[1..], fl)
          == node.children + CanonChildren(children, fl);
    } else {
      NodeMisread(f, pos, strs, later, c, full, fl);
      ChildDiffers(f, pos, later, c, full, flat, node, fl, CanonChildren(children[1..], fl));
      assert CanonChildren(children, fl) == [Canon(c, fl)] + CanonChildren(children[1..], fl);
    }
  }

  lemma DeletedIsGood(c: Node, prefix: Bytes, fl: Layout)
    requires c.deleted
    ensures Good(c, prefix, fl)
  {
  }

  lemma ChildDiffers(
      f: Bytes, pos: nat, later: Bytes, c: Node, full: Bytes, flat: Bytes, node: Node, fl: Layout, rest: seq<Node>)
    requires ReadWord(f, pos) == Some((BEGIN_NODE, pos + 4)) && (fl.fullPath ==> flat == full)
    requires var r := ReadNode(f, pos + 4, later, full, fl); r.Some? ==> r.value.0 != Canon(c, fl)
    ensures var r := ReadItems(f, pos, later, flat, node, fl);
      r.Some? ==> r.value.0.children != node.children + ([Canon(c, fl)] + rest)
  {
    ParentPathUnused(f, pos + 4, later, full, flat, fl);
    hide ReadWord, ReadNode, ReadProperty, Canon;
    var child := ReadNode(f, pos + 4, later, flat, fl);
    if child.Some? {
      ItemsKeep(f, child.value.1, later, flat, node.(children := node.children + [child.value.0]), fl);
      assert (node.children + ([Canon(c, fl)] + rest))[|node.children|] == Canon(c, fl);
    }
  }

  // ---------------------------------------------------------------- whole blobs

  /** The tree that reading a blob gives is the one that reading its structure block gives. */
  lemma TreeRead(blob: Bytes, vi: VersionInfo, o: Offsets, strSize: nat, later: Bytes)
    requires VersionTable(vi.version) == Some(vi) && 28 <= |blob| < 0x8000_0000
    requires Field(blob, 0) == MAGIC && Field(blob, 1) == |blob| && Field(blob, 5) == vi.version
    requires Field(blob, 2) == o.dt && Field(blob, 3) == o.strings && Field(blob, 4) == o.reserve
    requires (vi.version >= 3 ==> Field(blob, 8) == strSize) && o.dt <= |blob| && o.strings + strSize <= |blob|
    requires later == blob[o.strings..if vi.version >= 3 then o.strings + strSize else |blob|]
    ensures var b := ReadBlob(blob);
      b.Some? ==> var r := ReadNode(blob[o.dt..], 4, later, [], vi.layout); r.Some? && b.value.dt == r.value.0
  {
    hide ReadWord, ReadNode, ReadReserve, Field;
    assert blob[..|blob|] == blob;
  }

  /** A blob comes back if and only if its names are good: paths that end in a slash and names that
      begin with '@' are the only ones that are lost, and only where the version writes them. */
  lemma BlobComesBackExactly(bi: BootInfo, version: int, reservenum: nat, minsize: nat, padsize: nat)
    requires VersionTable(version).Some? && !bi.dt.deleted && Strings(bi.dt)
    requires var b := WriteBlob(bi, version, reservenum, minsize, padsize); b.Some? ==> |b.value| < 0x8000_0000
    ensures WriteBlob(bi, version, reservenum, minsize, padsize).Some?
    ensures var back := ReadBlob(WriteBlob(bi, version, reservenum, minsize, padsize).value);
      var vi := VersionTable(version).value;
      back.Some? && ComesBack(bi, back.value, vi) <==> Good(bi.dt, [], vi.layout)
  {
    hide ReadBlob, WriteBlob, Good, Strings, Field, Canon, BeforeEmpty, ReadReserve, ReadNode, ReadWord, Stands, NodeBytes, Word32;
    var vi := VersionTable(version).value;
    if Good(bi.dt, [], vi.layout) {
      BlobComesBack(bi, version, reservenum, minsize, padsize);
    } else {
      var blob, o, strSize, treeSize, later, strs := BlobHolds(bi, version, reservenum, minsize, padsize);
      TreeRead(blob, vi, o, strSize, later);
      var tree := NodeBytes(bi.dt, [], 0, [], vi.layout).0;
      StandsShift(blob, o.dt, 0, tree + Word32(END));
      StandsSplit(blob[o.dt..], 0, tree, Word32(END));
      NodeMisread(blob[o.dt..], 0, [], later, bi.dt, [], vi.layout);
    }
  }

  /** In the versions that write neither paths nor names every blob comes back. */
  lemma {:induction false} NewIsGood(node: Node, prefix: Bytes, fl: Layout)
    requires Strings(node) && Str(prefix) && !fl.fullPath && !fl.nameProps
    ensures Good(node, prefix, fl)
    decreases node, 1
  {
    if !node.deleted {
      JoinStr(prefix, node.name);
      NewAreGood(node.children, Join(prefix, node.name), fl);
    }
  }

  lemma {:induction false} NewAreGood(children: seq<Node>, prefix: Bytes, fl: Layout)
    requires AllStrings(children) && Str(prefix) && !fl.fullPath && !fl.nameProps
    ensures GoodChildren(children, prefix, fl)
    decreases children, 0
  {
    if children != [] {
      NewIsGood(children[0], prefix, fl);
      NewAreGood(children[1..], prefix, fl);
    }
  }
}
