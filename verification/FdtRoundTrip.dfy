/** Reading back what was flattened: the same tree without deleted parts, labels and markers. */
module FdtRoundTrip {
  import opened Options
  import opened FdtTree
  import opened FdtWrite
  import opened FdtRead

  // ---------------------------------------------------------------- what comes back

  function LiveProps(props: seq<Property>): seq<Property> {
    if props == [] then []
    else if props[0].deleted then LiveProps(props[1..])
    else [Property(props[0].name, props[0].val, [], false)] + LiveProps(props[1..])
  }

  /** The name property added for versions before 16. */
  function AddedName(node: Node, fl: Layout): seq<Property> {
    if fl.nameProps && !SeenName(node.props) then
      [Property(NAME, node.name[..BaseLength(node.name)] + [0], [], false)]
    else []
  }

  function Canon(node: Node, fl: Layout): Node
    decreases node, 1
  {
    Node(node.name, LiveProps(node.props) + AddedName(node, fl), CanonChildren(node.children, fl), [], false)
  }

  function CanonChildren(children: seq<Node>, fl: Layout): seq<Node>
    decreases children, 0
  {
    if children == [] then []
    else if children[0].deleted then CanonChildren(children[1..], fl)
    else [Canon(children[0], fl)] + CanonChildren(children[1..], fl)
  }

  // ---------------------------------------------------------------- which trees come back

  /** A path from which the name of a child can be cut off again. */
  predicate GoodPath(path: Bytes) {
    path == [] || path == [SLASH] || path[|path| - 1] != SLASH
  }

  /** Cutting the parent's path off is right exactly for such paths. */
  lemma NameFromJoin(prefix: Bytes, name: Bytes)
    ensures NameFromPath(prefix, Join(prefix, name)) == Some(name) <==> GoodPath(prefix)
  {
    var full := Join(prefix, name);
    assert prefix <= full;
    if prefix == [] || prefix[|prefix| - 1] != SLASH {
      assert full == prefix + [SLASH] + name && full[|prefix| + 1..] == name;
    } else {
      assert full[|prefix|..] == name;
      if prefix != [SLASH] && |prefix| + 1 <= |full| {
        assert |full[|prefix| + 1..]| == |name| - 1;
      }
    }
  }

  predicate GoodProp(p: Property) {
    p.deleted || (Str(p.name) && |p.val| < 0x8000_0000)
  }

  /** Names are C strings and values have an int's length; where full paths are written, paths can
      be taken apart; where a name property is added, the base name is not empty unless the name is. */
  predicate Good(node: Node, prefix: Bytes, fl: Layout)
    decreases node, 1
  {
    node.deleted ||
    (&& Str(node.name) && Str(prefix)
     && (forall k :: 0 <= k < |node.props| ==> GoodProp(node.props[k]))
     && (fl.fullPath ==> GoodPath(prefix))
     && (fl.nameProps && !SeenName(node.props) ==>
           node.name == [] || (BaseLength(node.name) > 0 && |node.name| < 0x7fff_ffff))
     && GoodChildren(node.children, Join(prefix, node.name), fl))
  }

  predicate GoodChildren(children: seq<Node>, prefix: Bytes, fl: Layout)
    decreases children, 0
  {
    children == [] || (Good(children[0], prefix, fl) && GoodChildren(children[1..], prefix, fl))
  }

  // ---------------------------------------------------------------- pieces

  lemma WordStands(f: Bytes, p: nat, w: Word)
    requires p % 4 == 0 && Stands(f, p, Word32(w))
    ensures ReadWord(f, p) == Some((w, p + 4))
  {
    Word32Back(w);
  }

  lemma {:induction false} StrLenStands(f: Bytes, p: nat, s: Bytes)
    requires Str(s) && Stands(f, p, s + [0])
    ensures StrLen(f, p) == Some(|s|)
    decreases |s|
  {
    var z := f[p..p + |s| + 1];
    assert z == s + [0];
    assert f[p] == z[0];
    if s != [] {
      assert f[p + 1..p + |s| + 1] == z[1..];
      assert (s + [0])[1..] == s[1..] + [0];
      StrLenStands(f, p + 1, s[1..]);
    }
  }

  lemma NameStands(strs: Bytes, later: Bytes, off: nat, name: Bytes)
    requires NameAt(strs, off, name) && strs <= later && |later| < 0x8000_0000 && Str(name)
    ensures off < 0x8000_0000 && ReadName(later, off) == Some(name)
  {
    assert later[off..off + |name| + 1] == strs[off..off + |name| + 1];
    StrLenStands(later, off, name);
    assert later[off..off + |name|] == later[off..off + |name| + 1][..|name|];
  }

  lemma StandsFits(f: Bytes, p: nat, s: Bytes)
    requires Stands(f, p, s)
    ensures p + |s| <= |f| && f[p..p + |s|] == s
  {
  }

  /** A terminated, padded string. */
  lemma StringStands(f: Bytes, p: nat, s: Bytes)
    requires Str(s) && Stands(f, p, (s + [0]) + Zeros(Pad(p + |s| + 1, 4)))
    ensures ReadString(f, p) == Some((s, p + |s| + 1 + Pad(p + |s| + 1, 4)))
  {
    hide Stands, StrLen;
    var tail := Zeros(Pad(p + |s| + 1, 4));
    StandsSplit(f, p, s + [0], tail);
    StandsFits(f, p, s + [0]);
    StandsFits(f, p + |s| + 1, tail);
    StrLenStands(f, p, s);
    assert f[p..p + |s|] == f[p..p + |s| + 1][..|s|];
  }

  lemma HeadStands(f: Bytes, pos: nat, name: Bytes, full: Bytes, fl: Layout)
    requires pos % 4 == 0 && Str(name) && Str(full) && Stands(f, pos, HeadBytes(name, full, pos, fl))
    ensures ReadWord(f, pos) == Some((BEGIN_NODE, pos + 4))
    ensures ReadString(f, pos + 4)
         == Some((if fl.fullPath then full else name, pos + |HeadBytes(name, full, pos, fl)|))
    ensures (pos + |HeadBytes(name, full, pos, fl)|) % 4 == 0
  {
    hide Stands, ReadString, ReadWord, Word32;
    var text := if fl.fullPath then full else name;
    var padded := (text + [0]) + Zeros(Pad(pos + 4 + |text| + 1, 4));
    assert HeadBytes(name, full, pos, fl) == Word32(BEGIN_NODE) + padded;
    StandsSplit(f, pos, Word32(BEGIN_NODE), padded);
    WordStands(f, pos, BEGIN_NODE);
    StringStands(f, pos + 4, text);
  }

  /** A value as flat_read_data finds it. */
  lemma DataStands(f: Bytes, p: nat, val: Bytes)
    requires p % 4 == 0 && |val| < 0x8000_0000 && Stands(f, p, val + Zeros(Pad(p + |val|, 4)))
    ensures ReadData(f, p, |val|) == Some((val, p + |val| + Pad(p + |val|, 4)))
  {
    var tail := Zeros(Pad(p + |val|, 4));
    StandsSplit(f, p, val, tail);
  }

  /** Where the value of a property begins is aligned. */
  lemma ValueAligned(length: nat, pos: nat, fl: Layout)
    requires pos % 4 == 0
    ensures (pos + 12 + Gap(length, pos, fl)) % 4 == 0
  {
    hide Pad;
    if fl.varAlign && length >= 8 {
      EightIsFour(pos + 12 + Gap(length, pos, fl));
    }
  }

  lemma EightIsFour(m: nat)
    requires m % 8 == 0
    ensures m % 4 == 0
  {
  }

  lemma GapStands(f: Bytes, pos: nat, length: nat, fl: Layout)
    requires pos % 4 == 0 && Stands(f, pos + 12, Zeros(Gap(length, pos, fl)))
    ensures (if fl.varAlign && length >= 8 then Realign(f, pos + 12, 8) else Some(pos + 12))
         == Some(pos + 12 + Gap(length, pos, fl))
  {
  }

  lemma CellIs(n: nat)
    requires n < 0x1_0000_0000
    ensures Cell(n) == Word32(n)
  {
    hide Word32;
  }

  /** The fields of a property, each where it stands. */
  lemma PropParts(f: Bytes, pos: nat, length: nat, off: nat, val: Bytes, fl: Layout)
    requires Stands(f, pos, PropBytes(length, off, val, pos, fl))
    ensures var at := pos + 12 + Gap(length, pos, fl);
      && Stands(f, pos, Word32(PROP)) && Stands(f, pos + 4, Cell(length)) && Stands(f, pos + 8, Cell(off))
      && Stands(f, pos + 12, Zeros(Gap(length, pos, fl)))
      && Stands(f, at, val + Zeros(Pad(at + |val|, 4)))
      && |PropBytes(length, off, val, pos, fl)| == 12 + Gap(length, pos, fl) + |val| + Pad(at + |val|, 4)
  {
    hide Stands, Word32, Cell, Zeros, Gap, Pad;
    var gap := Zeros(Gap(length, pos, fl));
    var value := val + Zeros(Pad(pos + 12 + |gap| + |val|, 4));
    StandsSplit(f, pos, Word32(PROP), Cell(length) + (Cell(off) + (gap + value)));
    StandsSplit(f, pos + 4, Cell(length), Cell(off) + (gap + value));
    StandsSplit(f, pos + 8, Cell(off), gap + value);
    StandsSplit(f, pos + 12, gap, value);
  }

  /** One property, as flat_read_property finds it behind its tag. */
  lemma PropStands(f: Bytes, pos: nat, strs: Bytes, name: Bytes, off: nat, val: Bytes, fl: Layout)
    requires pos % 4 == 0 && Stands(f, pos, PropBytes(|val|, off, val, pos, fl))
    requires |val| < 0x8000_0000 && off < 0x8000_0000 && ReadName(strs, off) == Some(name)
    ensures var b := PropBytes(|val|, off, val, pos, fl);
      && (pos + |b|) % 4 == 0
      && ReadWord(f, pos) == Some((PROP, pos + 4))
      && ReadProperty(f, pos + 4, strs, fl.varAlign) == Some((Property(name, val, [], false), pos + |b|))
  {
    hide Stands, ReadWord, ReadData, ReadName, Word32, Realign, Gap, Zeros, Cell, PropBytes;
    PropParts(f, pos, |val|, off, val, fl);
    ValueAligned(|val|, pos, fl);
    CellIs(|val|);
    CellIs(off);
    WordStands(f, pos, PROP);
    WordStands(f, pos + 4, |val|);
    WordStands(f, pos + 8, off);
    GapStands(f, pos, |val|, fl);
    DataStands(f, pos + 12 + Gap(|val|, pos, fl), val);
  }

  // ---------------------------------------------------------------- lists

  /** The reading loop past one property. */
  lemma PropStep(
      f: Bytes, pos: nat, strs: Bytes, later: Bytes, name: Bytes, off: nat, val: Bytes, flat: Bytes, node: Node, fl: Layout)
    requires pos % 4 == 0 && Stands(f, pos, PropBytes(|val|, off, val, pos, fl))
    requires NameAt(strs, off, name) && strs <= later && |later| < 0x8000_0000 && Str(name) && |val| < 0x8000_0000
    ensures var b := PropBytes(|val|, off, val, pos, fl);
      && (pos + |b|) % 4 == 0
      && ReadItems(f, pos, later, flat, node, fl)
           == ReadItems(f, pos + |b|, later, flat, node.(props := node.props + [Property(name, val, [], false)]), fl)
  {
    hide Stands, ReadWord, ReadProperty, ReadNode, PropBytes;
    NameStands(strs, later, off, name);
    PropStands(f, pos, later, name, off, val, fl);
  }

  lemma {:induction false} PropsStand(
      f: Bytes, pos: nat, strs: Bytes, later: Bytes, props: seq<Property>, flat: Bytes, node: Node, fl: Layout)
    requires pos % 4 == 0 && (forall k :: 0 <= k < |props| ==> GoodProp(props[k]))
    requires var (b, strs') := PropsBytes(props, pos, strs, fl); Stands(f, pos, b) && strs' <= later
    requires |later| < 0x8000_0000
    ensures var b := PropsBytes(props, pos, strs, fl).0;
      && (pos + |b|) % 4 == 0
      && ReadItems(f, pos, later, flat, node, fl)
           == ReadItems(f, pos + |b|, later, flat, node.(props := node.props + LiveProps(props)), fl)
    decreases |props|
  {
    hide Stands, ReadItems, PropBytes, Insert;
    if props == [] {
      assert node.props + [] == node.props;
    } else if props[0].deleted {
      PropsStand(f, pos, strs, later, props[1..], flat, node, fl);
    } else {
      var p := props[0];
      var (off, strs1) := Insert(strs, p.name);
      var b := PropBytes(|p.val|, off, p.val, pos, fl);
      var (rest, strs2) := PropsBytes(props[1..], pos + |b|, strs1, fl);
      StandsSplit(f, pos, b, rest);
      var read := Property(p.name, p.val, [], false);
      PropStep(f, pos, strs1, later, p.name, off, p.val, flat, node, fl);
      PropsStand(f, pos + |b|, strs1, later, props[1..], flat, node.(props := node.props + [read]), fl);
      assert node.props + [read] + LiveProps(props[1..]) == node.props + LiveProps(props);
    }
  }

  lemma NamePropStands(
      f: Bytes, pos: nat, strs: Bytes, later: Bytes, source: Node, flat: Bytes, node: Node, fl: Layout)
    requires pos % 4 == 0
    requires fl.nameProps && !SeenName(source.props) ==>
      source.name == [] || (BaseLength(source.name) > 0 && |source.name| < 0x7fff_ffff)
    requires var (b, strs') := NamePropBytes(source, pos, strs, fl); Stands(f, pos, b) && strs' <= later
    requires |later| < 0x8000_0000
    ensures var b := NamePropBytes(source, pos, strs, fl).0;
      && (pos + |b|) % 4 == 0
      && ReadItems(f, pos, later, flat, node, fl)
           == ReadItems(f, pos + |b|, later, flat, node.(props := node.props + AddedName(source, fl)), fl)
  {
    if fl.nameProps && !SeenName(source.props) {
      hide Stands, ReadItems, PropBytes, Insert;
      var n := BaseLength(source.name);
      var (off, strs1) := Insert(strs, NAME);
      assert Chars(source.name, n) == source.name[..n];
      PropStep(f, pos, strs1, later, NAME, off, source.name[..n] + [0], flat, node, fl);
    } else {
      assert node.props + [] == node.props;
    }
  }

  /** The added property is read back, and reading goes on behind it, exactly when the base name is
      not empty or the whole name is: a name that begins with '@' is written in full behind a length
      of one. */
  lemma AddedNameReadsBack(f: Bytes, pos: nat, strs: Bytes, name: Bytes, off: nat, fl: Layout)
    requires pos % 4 == 0 && |name| < 0x7fff_ffff && off < 0x8000_0000 && ReadName(strs, off) == Some(NAME)
    requires var n := BaseLength(name); Stands(f, pos, PropBytes(n + 1, off, Chars(name, n) + [0], pos, fl))
    ensures var n := BaseLength(name);
      var b := PropBytes(n + 1, off, Chars(name, n) + [0], pos, fl);
      (ReadProperty(f, pos + 4, strs, fl.varAlign) == Some((Property(NAME, name[..n] + [0], [], false), pos + |b|)))
      <==> (name == [] || n > 0)
  {
    var n := BaseLength(name);
    if name == [] || n > 0 {
      assert Chars(name, n) == name[..n];
      PropStands(f, pos, strs, NAME, off, name[..n] + [0], fl);
    } else {
      AtNameMisread(f, pos, strs, name, off, fl);
      assert (name[..n] + [0])[0] == 0 && [AT][0] == AT;
    }
  }

  /** There the single byte read is the '@'. */
  lemma AtNameMisread(f: Bytes, pos: nat, strs: Bytes, name: Bytes, off: nat, fl: Layout)
    requires pos % 4 == 0 && |name| < 0x7fff_ffff && off < 0x8000_0000 && ReadName(strs, off) == Some(NAME)
    requires name != [] && name[0] == AT && Stands(f, pos, PropBytes(1, off, name + [0], pos, fl))
    ensures var r := ReadProperty(f, pos + 4, strs, fl.varAlign); r.Some? ==> r.value.0.val == [AT]
  {
    hide ReadName, ReadWord, Word32, Stands, PropBytes;
    var value := name + [0];
    var tail := Zeros(Pad(pos + 12 + |value|, 4));
    PropParts(f, pos, 1, off, value, fl);
    StandsSplit(f, pos + 12, value, tail);
    CellIs(1);
    CellIs(off);
    WordStands(f, pos + 4, 1);
    WordStands(f, pos + 8, off);
    StandsFits(f, pos + 12, value);
    assert f[pos + 12..pos + 13] == value[..1] == [AT];
  }

  // ---------------------------------------------------------------- trees

  lemma JoinStr(prefix: Bytes, name: Bytes)
    requires Str(prefix) && Str(name)
    ensures Str(Join(prefix, name))
  {
  }

  lemma Regroup(a: Bytes, b: Bytes, c: Bytes, d: Bytes, e: Bytes)
    ensures a + b + c + d + e == a + (b + (c + (d + e)))
  {
  }

  /** The parts of a node's bytes, each where it stands. */
  lemma NodeParts(f: Bytes, pos: nat, strs: Bytes, node: Node, prefix: Bytes, fl: Layout)
    returns (head: Bytes, props: Bytes, nameProp: Bytes, children: Bytes, strs1: Bytes, strs2: Bytes, strs3: Bytes)
    requires !node.deleted && Stands(f, pos, NodeBytes(node, prefix, pos, strs, fl).0)
    ensures var full := Join(prefix, node.name);
      && head == HeadBytes(node.name, full, pos, fl) && Stands(f, pos, head)
      && (props, strs1) == PropsBytes(node.props, pos + |head|, strs, fl) && Stands(f, pos + |head|, props)
      && (nameProp, strs2) == NamePropBytes(node, pos + |head| + |props|, strs1, fl)
      && Stands(f, pos + |head| + |props|, nameProp)
      && (children, strs3) == ChildrenBytes(node.children, full, pos + |head| + |props| + |nameProp|, strs2, fl)
      && Stands(f, pos + |head| + |props| + |nameProp|, children)
      && Stands(f, pos + |head| + |props| + |nameProp| + |children|, Word32(END_NODE))
      && |NodeBytes(node, prefix, pos, strs, fl).0| == |head| + |props| + |nameProp| + |children| + 4
      && NodeBytes(node, prefix, pos, strs, fl).1 == strs3
    ensures strs1 <= strs2 <= strs3
  {
    hide Stands, HeadBytes, PropsBytes, NamePropBytes, ChildrenBytes, Join, Word32;
    var full := Join(prefix, node.name);
    head := HeadBytes(node.name, full, pos, fl);
    props, strs1 := PropsBytes(node.props, pos + |head|, strs, fl).0, PropsBytes(node.props, pos + |head|, strs, fl).1;
    var np := NamePropBytes(node, pos + |head| + |props|, strs1, fl);
    nameProp, strs2 := np.0, np.1;
    var ch := ChildrenBytes(node.children, full, pos + |head| + |props| + |nameProp|, strs2, fl);
    children, strs3 := ch.0, ch.1;
    var end := Word32(END_NODE);
    assert |head + props + nameProp| == |head| + |props| + |nameProp|;
    Regroup(head, props, nameProp, children, end);
    assert NodeBytes(node, prefix, pos, strs, fl).0 == head + props + nameProp + children + end;
    StandsSplit(f, pos, head, props + (nameProp + (children + end)));
    StandsSplit(f, pos + |head|, props, nameProp + (children + end));
    StandsSplit(f, pos + |head| + |props|, nameProp, children + end);
    StandsSplit(f, pos + |head| + |props| + |nameProp|, children, end);
  }

  lemma {:induction false} NodeStands(f: Bytes, pos: nat, strs: Bytes, later: Bytes, node: Node, prefix: Bytes, fl: Layout)
    requires pos % 4 == 0 && !node.deleted && Good(node, prefix, fl)
    requires var (b, strs') := NodeBytes(node, prefix, pos, strs, fl); Stands(f, pos, b) && strs' <= later
    requires |later| < 0x8000_0000
    ensures var b := NodeBytes(node, prefix, pos, strs, fl).0;
      && (pos + |b|) % 4 == 0
      && ReadWord(f, pos) == Some((BEGIN_NODE, pos + 4))
      && ReadNode(f, pos + 4, later, prefix, fl) == Some((Canon(node, fl), pos + |b|))
    decreases node, 1
  {
    hide Stands, ReadItems, ReadString, ReadWord, HeadBytes, PropsBytes, NamePropBytes, ChildrenBytes, NodeBytes, Join,
         NameFromPath, LiveProps, AddedName, CanonChildren;
    var full := Join(prefix, node.name);
    var head, props, nameProp, children, strs1, strs2, strs3 := NodeParts(f, pos, strs, node, prefix, fl);
    JoinStr(prefix, node.name);
    HeadStands(f, pos, node.name, full, fl);
    NameFromJoin(prefix, node.name);
    var flat := if fl.fullPath then full else node.name;
    var n0 := Node(node.name, [], [], [], false);
    PropsStand(f, pos + |head|, strs, later, node.props, flat, n0, fl);
    var n1 := n0.(props := n0.props + LiveProps(node.props));
    NamePropStands(f, pos + |head| + |props|, strs1, later, node, flat, n1, fl);
    var n2 := n1.(props := n1.props + AddedName(node, fl));
    ChildrenStand(f, pos + |head| + |props| + |nameProp|, strs2, later, node.children, full, flat, n2, fl);
    var n3 := n2.(children := n2.children + CanonChildren(node.children, fl));
    ItemsEnd(f, pos + |head| + |props| + |nameProp| + |children|, later, flat, n3, fl);
    assert n3 == Canon(node, fl) by {
      assert [] + LiveProps(node.props) == LiveProps(node.props);
      assert [] + CanonChildren(node.children, fl) == CanonChildren(node.children, fl);
    }
  }

  lemma DeletedNode(node: Node, prefix: Bytes, pos: nat, strs: Bytes, fl: Layout)
    requires node.deleted
    ensures NodeBytes(node, prefix, pos, strs, fl) == ([], strs)
  {
  }

  lemma ItemsEnd(f: Bytes, pos: nat, later: Bytes, flat: Bytes, node: Node, fl: Layout)
    requires pos % 4 == 0 && Stands(f, pos, Word32(END_NODE))
    ensures ReadItems(f, pos, later, flat, node, fl) == Some((node, pos + 4))
  {
    WordStands(f, pos, END_NODE);
  }

  /** The reading loop past one live subnode. */
  lemma ChildStep(
      f: Bytes, pos: nat, later: Bytes, child: Node, size: nat, full: Bytes, flat: Bytes, node: Node, fl: Layout)
    requires ReadWord(f, pos) == Some((BEGIN_NODE, pos + 4)) && (fl.fullPath ==> flat == full)
    requires ReadNode(f, pos + 4, later, full, fl) == Some((child, pos + size))
    ensures ReadItems(f, pos, later, flat, node, fl)
         == ReadItems(f, pos + size, later, flat, node.(children := node.children + [child]), fl)
  {
    hide ReadWord, ReadNode, ReadProperty;
    ParentPathUnused(f, pos + 4, later, full, flat, fl);
  }

  /** Subnodes are read with the path that was written for their parent, when paths are written. */
  lemma {:induction false} ChildrenStand(
      f: Bytes, pos: nat, strs: Bytes, later: Bytes, children: seq<Node>, full: Bytes, flat: Bytes, node: Node, fl: Layout)
    requires pos % 4 == 0 && GoodChildren(children, full, fl) && (fl.fullPath ==> flat == full)
    requires var (b, strs') := ChildrenBytes(children, full, pos, strs, fl); Stands(f, pos, b) && strs' <= later
    requires |later| < 0x8000_0000
    ensures var b := ChildrenBytes(children, full, pos, strs, fl).0;
      && (pos + |b|) % 4 == 0
      && ReadItems(f, pos, later, flat, node, fl)
           == ReadItems(f, pos + |b|, later, flat, node.(children := node.children + CanonChildren(children, fl)), fl)
    decreases children, 0
  {
    hide Stands, ReadItems, ReadWord, ReadNode, NodeBytes, Good, Canon;
    if children == [] {
      assert node.children + [] == node.children;
    } else {
      var c := children[0];
      var (b, strs1) := NodeBytes(c, full, pos, strs, fl);
      var (rest, strs2) := ChildrenBytes(children[1..], full, pos + |b|, strs1, fl);
      StandsSplit(f, pos, b, rest);
      if c.deleted {
        DeletedNode(c, full, pos, strs, fl);
        assert [] + rest == rest;
        ChildrenStand(f, pos, strs, later, children[1..], full, flat, node, fl);
      } else {
        NodeStands(f, pos, strs, later, c, full, fl);
        ChildStep(f, pos, later, Canon(c, fl), |b|, full, flat, node, fl);
        ChildrenStand(f, pos + |b|, strs1, later, children[1..], full, flat,
                      node.(children := node.children + [Canon(c, fl)]), fl);
        assert node.children + [Canon(c, fl)] + CanonChildren(children[1..], fl)
            == node.children + CanonChildren(children, fl);
      }
    }
  }

  lemma ParentPathUnused(f: Bytes, p: nat, strs: Bytes, a: Bytes, b: Bytes, fl: Layout)
    requires fl.fullPath ==> a == b
    ensures ReadNode(f, p, strs, a, fl) == ReadNode(f, p, strs, b, fl)
  {
  }
}
