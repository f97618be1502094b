/** Reading a structure block back; None is die(). */
module FdtRead {
  import opened Options
  import opened FdtTree
  import opened FdtWrite

  /** flat_read_word; the source asserts that the pointer is aligned. */
  function ReadWord(f: Bytes, p: nat): (r: Option<(Word, nat)>)
    ensures r.Some? ==> r.value.1 == p + 4 <= |f|
  {
    if p % 4 != 0 || p + 4 > |f| then None else Some((FromWord32(f[p..p + 4]), p + 4))
  }

  /** flat_realign. */
  function Realign(f: Bytes, p: nat, a: nat): (r: Option<nat>)
    requires a == 4 || a == 8
    ensures r.Some? ==> p <= r.value <= |f|
  {
    var p' := p + Pad(p, a);
    if p' > |f| then None else Some(p')
  }

  /** The length of the C string at p, if it ends before the limit. */
  function StrLen(f: Bytes, p: nat): (r: Option<nat>)
    ensures r.Some? ==> p + r.value < |f| && f[p + r.value] == 0 && Str(f[p..p + r.value])
    decreases |f| - p
  {
    if p >= |f| then None
    else if f[p] == 0 then Some(0)
    else
      var rest := StrLen(f, p + 1);
      if rest.None? then None
      else
        assert f[p..p + 1 + rest.value] == [f[p]] + f[p + 1..p + 1 + rest.value];
        Some(1 + rest.value)
  }

  /** flat_read_string. */
  function ReadString(f: Bytes, p: nat): (r: Option<(Bytes, nat)>)
    ensures r.Some? ==> p < r.value.1 <= |f|
  {
    var n := StrLen(f, p);
    if n.None? then None
    else
      var p' := Realign(f, p + n.value + 1, 4);
      if p'.None? then None else Some((f[p..p + n.value], p'.value))
  }

  /** flat_read_data; a length that is negative as an int cannot be allocated. */
  function ReadData(f: Bytes, p: nat, len: Word): (r: Option<(Bytes, nat)>)
    ensures r.Some? && p <= |f| ==> p <= r.value.1 <= |f|
  {
    if len == 0 then Some(([], p))
    else if len >= 0x8000_0000 || p + len > |f| then None
    else
      var p' := Realign(f, p + len, 4);
      if p'.None? then None else Some((f[p..p + len], p'.value))
  }

  /** flat_read_stringtable. */
  function ReadName(strs: Bytes, off: Word): Option<Bytes> {
    var n := StrLen(strs, off);
    if off >= 0x8000_0000 || n.None? then None else Some(strs[off..off + n.value])
  }

  /** flat_read_property. */
  function ReadProperty(f: Bytes, p: nat, strs: Bytes, varAlign: bool): (r: Option<(Property, nat)>)
    ensures r.Some? ==> p < r.value.1 <= |f|
  {
    var len := ReadWord(f, p);
    if len.None? then None
    else
      var off := ReadWord(f, p + 4);
      if off.None? then None
      else
        var name := ReadName(strs, off.value.0);
        var start := if varAlign && len.value.0 >= 8 then Realign(f, p + 8, 8) else Some(p + 8);
        if name.None? || start.None? then None
        else
          var val := ReadData(f, start.value, len.value.0);
          if val.None? then None else Some((Property(name.value, val.value.0, [], false), val.value.1))
  }

  /** nodename_from_path. */
  function NameFromPath(ppath: Bytes, cpath: Bytes): Option<Bytes> {
    if !(ppath <= cpath) then None
    else
      var n := if ppath == [SLASH] then 1 else |ppath| + 1;
      if n <= |cpath| then Some(cpath[n..]) else None
  }

  /** unflatten_tree, entered behind the FDT_BEGIN_NODE word. */
  function ReadNode(f: Bytes, p: nat, strs: Bytes, parent: Bytes, fl: Layout): (r: Option<(Node, nat)>)
    ensures r.Some? ==> p < r.value.1 <= |f|
    decreases |f| - p, 1
  {
    var flat := ReadString(f, p);
    if flat.None? then None
    else
      var name := if fl.fullPath then NameFromPath(parent, flat.value.0) else Some(flat.value.0);
      if name.None? then None
      else ReadItems(f, flat.value.1, strs, flat.value.0, Node(name.value, [], [], [], false), fl)
  }

  /** The loop over a node's properties and subnodes, up to its FDT_END_NODE. */
  function ReadItems(f: Bytes, p: nat, strs: Bytes, flat: Bytes, node: Node, fl: Layout): (r: Option<(Node, nat)>)
    ensures r.Some? ==> p < r.value.1 <= |f|
    decreases |f| - p, 0
  {
    var tag := ReadWord(f, p);
    if tag.None? then None
    else if tag.value.0 == PROP then
      var prop := ReadProperty(f, p + 4, strs, fl.varAlign);
      if prop.None? then None
      else ReadItems(f, prop.value.1, strs, flat, node.(props := node.props + [prop.value.0]), fl)
    else if tag.value.0 == BEGIN_NODE then
      var child := ReadNode(f, p + 4, strs, flat, fl);
      if child.None? then None
      else ReadItems(f, child.value.1, strs, flat, node.(children := node.children + [child.value.0]), fl)
    else if tag.value.0 == END_NODE then Some((node, p + 4))
    else if tag.value.0 == NOP then ReadItems(f, p + 4, strs, flat, node, fl)
    else None
  }
}
