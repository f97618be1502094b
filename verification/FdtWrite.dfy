/** Flattening a tree into a structure block and a strings block (Devicetree Specification,
    sections 5.4 and 5.5). */
module FdtWrite {
  import opened FdtTree

  const BEGIN_NODE: Word := 1
  const END_NODE: Word := 2
  const PROP: Word := 3
  const NOP: Word := 4
  const END: Word := 9

  /** FTF_FULLPATH, FTF_VARALIGN and FTF_NAMEPROPS: how a version lays out the structure block. */
  datatype Layout = Layout(fullPath: bool, varAlign: bool, nameProps: bool)

  // ---------------------------------------------------------------- the string table

  /** streq(str, table + i). */
  predicate NameAt(strs: Bytes, i: nat, name: Bytes) {
    Stands(strs, i, name + [0])
  }

  /** The first offset from i on at which the name can be read, or the end of the table. */
  function FirstMatch(strs: Bytes, name: Bytes, i: nat): (off: nat)
    requires i <= |strs|
    ensures i <= off <= |strs|
    ensures off < |strs| ==> NameAt(strs, off, name)
    ensures forall k :: i <= k < off ==> !NameAt(strs, k, name)
    decreases |strs| - i
  {
    if i == |strs| || NameAt(strs, i, name) then i else FirstMatch(strs, name, i + 1)
  }

  /** stringtable_insert: the offset, and the table afterwards. */
  function Insert(strs: Bytes, name: Bytes): (r: (nat, Bytes))
    ensures strs <= r.1 && NameAt(r.1, r.0, name)
    ensures |r.1| <= |strs| + |name| + 1
  {
    var off := FirstMatch(strs, name, 0);
    if off < |strs| then (off, strs)
    else
      assert (strs + (name + [0]))[|strs|..] == name + [0];
      (off, strs + (name + [0]))
  }

  // ---------------------------------------------------------------- the structure block

  /** A four-byte size or offset field. */
  function Cell(n: nat): (s: Bytes)
    ensures |s| == 4
  {
    Word32(n % 0x1_0000_0000)
  }

  /** The gap that brings a long value to an 8-byte boundary. */
  function Gap(length: nat, pos: nat, fl: Layout): nat {
    if fl.varAlign && length >= 8 then Pad(pos + 12, 8) else 0
  }

  /** FDT_PROP, the length field, the name offset, the value aligned and padded.  pos is the length
      of the structure block so far. */
  function PropBytes(length: nat, nameoff: nat, val: Bytes, pos: nat, fl: Layout): (s: Bytes)
    ensures |s| >= 12
  {
    var at := pos + 12 + Gap(length, pos, fl);
    Word32(PROP) + (Cell(length) + (Cell(nameoff) + (Zeros(Gap(length, pos, fl)) + (val + Zeros(Pad(at + |val|, 4))))))
  }

  function PropsBytes(props: seq<Property>, pos: nat, strs: Bytes, fl: Layout): (r: (Bytes, Bytes))
    ensures strs <= r.1
  {
    if props == [] then ([], strs)
    else if props[0].deleted then PropsBytes(props[1..], pos, strs, fl)
    else
      var (off, strs1) := Insert(strs, props[0].name);
      var b := PropBytes(|props[0].val|, off, props[0].val, pos, fl);
      var (rest, strs2) := PropsBytes(props[1..], pos + |b|, strs1, fl);
      (b + rest, strs2)
  }

  const NAME: Bytes := [110, 97, 109, 101]  // "name"

  predicate SeenName(props: seq<Property>) {
    exists k :: 0 <= k < |props| && !props[k].deleted && props[k].name == NAME
  }

  /** What emit->string writes for the first len characters: all of them when len is 0. */
  function Chars(name: Bytes, len: nat): Bytes
    requires len <= |name|
  {
    if len == 0 then name else name[..len]
  }

  /** The property versions before 16 add for the base name of a node. */
  function NamePropBytes(node: Node, pos: nat, strs: Bytes, fl: Layout): (r: (Bytes, Bytes))
    ensures strs <= r.1
  {
    if !fl.nameProps || SeenName(node.props) then ([], strs)
    else
      var n := BaseLength(node.name);
      var (off, strs1) := Insert(strs, NAME);
      (PropBytes(n + 1, off, Chars(node.name, n) + [0], pos, fl), strs1)
  }

  /** FDT_BEGIN_NODE and the node's name or full path. */
  function HeadBytes(name: Bytes, full: Bytes, pos: nat, fl: Layout): Bytes {
    var s := Word32(BEGIN_NODE) + (if fl.fullPath then full else name) + [0];
    s + Zeros(Pad(pos + |s|, 4))
  }

  /** flatten_tree for a node whose parent has the path prefix. */
  function NodeBytes(node: Node, prefix: Bytes, pos: nat, strs: Bytes, fl: Layout): (r: (Bytes, Bytes))
    ensures strs <= r.1
    decreases node, 1
  {
    if node.deleted then ([], strs)
    else
      var full := Join(prefix, node.name);
      var head := HeadBytes(node.name, full, pos, fl);
      var (props, strs1) := PropsBytes(node.props, pos + |head|, strs, fl);
      var (nameProp, strs2) := NamePropBytes(node, pos + |head| + |props|, strs1, fl);
      var body := head + props + nameProp;
      var (children, strs3) := ChildrenBytes(node.children, full, pos + |body|, strs2, fl);
      (body + children + Word32(END_NODE), strs3)
  }

  function ChildrenBytes(children: seq<Node>, prefix: Bytes, pos: nat, strs: Bytes, fl: Layout): (r: (Bytes, Bytes))
    ensures strs <= r.1
    decreases children, 0
  {
    if children == [] then ([], strs)
    else
      var (b, strs1) := NodeBytes(children[0], prefix, pos, strs, fl);
      var (rest, strs2) := ChildrenBytes(children[1..], prefix, pos + |b|, strs1, fl);
      (b + rest, strs2)
  }
}
