/** The flattener and the reader as they run: growing buffers on one side, a moving pointer on the
    other. */
module FdtFlatten {
  import opened Options
  import opened FdtTree
  import opened FdtWrite
  import opened FdtRead

  /** dtbuf and strbuf of dt_to_blob. */
  class Flattener {
    var dtbuf: Bytes
    var strbuf: Bytes

    constructor ()
      ensures dtbuf == [] && strbuf == []
    {
      dtbuf, strbuf := [], [];
    }

    method EmitCell(n: nat)
      modifies this`dtbuf
      ensures dtbuf == old(dtbuf) + Cell(n)
    {
      dtbuf := dtbuf + Cell(n);
    }

    method EmitAlign(a: nat)
      requires a == 4 || a == 8
      modifies this`dtbuf
      ensures dtbuf == old(dtbuf) + Zeros(Pad(|old(dtbuf)|, a))
    {
      dtbuf := dtbuf + Zeros(Pad(|dtbuf|, a));
    }

    method StringtableInsert(name: Bytes) returns (off: nat)
      modifies this`strbuf
      ensures (off, strbuf) == Insert(old(strbuf), name)
    {
      var i := 0;
      while i < |strbuf|
        invariant 0 <= i <= |strbuf| && FirstMatch(strbuf, name, 0) == FirstMatch(strbuf, name, i)
      {
        if NameAt(strbuf, i, name) {
          return i;
        }
        i := i + 1;
      }
      strbuf := strbuf + (name + [0]);
      off := i;
    }

    method EmitProperty(length: nat, name: Bytes, val: Bytes, fl: Layout)
      modifies this
      ensures var (off, strs) := Insert(old(strbuf), name);
        strbuf == strs && dtbuf == old(dtbuf) + PropBytes(length, off, val, |old(dtbuf)|, fl)
    {
      hide Word32, Cell, Insert, Zeros, Pad;
      ghost var base := dtbuf;
      var off := StringtableInsert(name);
      EmitCell(PROP);
      EmitCell(length);
      EmitCell(off);
      EmitGap(length, fl);
      dtbuf := dtbuf + val;
      EmitAlign(4);
      CellWord(PROP);
      PropConcat(base, length, off, val, fl);
    }

    method EmitGap(length: nat, fl: Layout)
      requires |dtbuf| >= 12
      modifies this`dtbuf
      ensures dtbuf == old(dtbuf) + Zeros(Gap(length, |old(dtbuf)| - 12, fl))
    {
      if fl.varAlign && length >= 8 {
        EmitAlign(8);
      } else {
        assert dtbuf + Zeros(0) == dtbuf;
      }
    }

    method FlattenTree(tree: Node, prefix: Bytes, fl: Layout)
      modifies this
      ensures var (b, strs) := NodeBytes(tree, prefix, |old(dtbuf)|, old(strbuf), fl);
        dtbuf == old(dtbuf) + b && strbuf == strs
      decreases tree, 1
    {
      if tree.deleted {
        assert dtbuf + [] == dtbuf;
        return;
      }
      hide NodeBytes, HeadBytes, PropsBytes, NamePropBytes, ChildrenBytes, Join, Cell, Word32, SeenName;
      ghost var base, strs := dtbuf, strbuf;
      var full := Join(prefix, tree.name);
      EmitHead(tree.name, full, fl);
      var seenName := FlattenProps(tree.props, fl);
      EmitNameProp(tree, seenName, fl);
      FlattenChildren(tree.children, full, fl);
      EmitCell(END_NODE);
      CellWord(END_NODE);
      NodeConcat(base, tree, prefix, strs, fl);
    }

    method EmitNameProp(tree: Node, seenName: bool, fl: Layout)
      requires seenName == SeenName(tree.props)
      modifies this
      ensures var (b, strs) := NamePropBytes(tree, |old(dtbuf)|, old(strbuf), fl);
        dtbuf == old(dtbuf) + b && strbuf == strs
    {
      if fl.nameProps && !seenName {
        var n := BaseLength(tree.name);
        EmitProperty(n + 1, NAME, Chars(tree.name, n) + [0], fl);
      } else {
        assert dtbuf + [] == dtbuf;
      }
    }

    method EmitHead(name: Bytes, full: Bytes, fl: Layout)
      modifies this`dtbuf
      ensures dtbuf == old(dtbuf) + HeadBytes(name, full, |old(dtbuf)|, fl)
    {
      CellWord(BEGIN_NODE);
      EmitCell(BEGIN_NODE);
      dtbuf := dtbuf + (if fl.fullPath then full else name) + [0];
      EmitAlign(4);
    }

    method FlattenProps(props: seq<Property>, fl: Layout) returns (seenName: bool)
      modifies this
      ensures var (b, strs) := PropsBytes(props, |old(dtbuf)|, old(strbuf), fl);
        dtbuf == old(dtbuf) + b && strbuf == strs
      ensures seenName == SeenName(props)
    {
      hide PropBytes, Insert, PropsAfter, PropsBytes;
      ghost var end := PropsAfter(dtbuf, strbuf, props, fl);
      PropsAfterIs(dtbuf, strbuf, props, fl);
      assert props[0..] == props;
      seenName := false;
      var k := 0;
      while k < |props|
        invariant 0 <= k <= |props| && PropsAfter(dtbuf, strbuf, props[k..], fl) == end
        invariant seenName == exists j :: 0 <= j < k && !props[j].deleted && props[j].name == NAME
      {
        NextProp(dtbuf, strbuf, props, k, fl);
        var p := props[k];
        if !p.deleted {
          if p.name == NAME {
            seenName := true;
          }
          EmitProperty(|p.val|, p.name, p.val, fl);
        }
        k := k + 1;
      }
      NoProps(dtbuf, strbuf, props[k..], fl);
    }

    method FlattenChildren(children: seq<Node>, full: Bytes, fl: Layout)
      modifies this
      ensures var (b, strs) := ChildrenBytes(children, full, |old(dtbuf)|, old(strbuf), fl);
        dtbuf == old(dtbuf) + b && strbuf == strs
      decreases children, 0
    {
      hide NodeBytes, ChildrenAfter, ChildrenBytes;
      ghost var end := ChildrenAfter(dtbuf, strbuf, children, full, fl);
      ChildrenAfterIs(dtbuf, strbuf, children, full, fl);
      assert children[0..] == children;
      var k := 0;
      while k < |children|
        invariant 0 <= k <= |children| && ChildrenAfter(dtbuf, strbuf, children[k..], full, fl) == end
      {
        NextChild(dtbuf, strbuf, children, k, full, fl);
        FlattenTree(children[k], full, fl);
        k := k + 1;
      }
      NoChildren(dtbuf, strbuf, children[k..], full, fl);
    }
  }

  /** Both buffers once properties, or children, have been put behind them. */
  function PropsAfter(dtbuf: Bytes, strbuf: Bytes, props: seq<Property>, fl: Layout): (Bytes, Bytes) {
    var (b, strs) := PropsBytes(props, |dtbuf|, strbuf, fl);
    (dtbuf + b, strs)
  }

  function ChildrenAfter(dtbuf: Bytes, strbuf: Bytes, children: seq<Node>, full: Bytes, fl: Layout): (Bytes, Bytes) {
    var (b, strs) := ChildrenBytes(children, full, |dtbuf|, strbuf, fl);
    (dtbuf + b, strs)
  }

  lemma PropsAfterIs(dtbuf: Bytes, strbuf: Bytes, props: seq<Property>, fl: Layout)
    ensures var (b, strs) := PropsBytes(props, |dtbuf|, strbuf, fl);
      PropsAfter(dtbuf, strbuf, props, fl) == (dtbuf + b, strs)
  {
    hide PropsBytes;
  }

  lemma ChildrenAfterIs(dtbuf: Bytes, strbuf: Bytes, children: seq<Node>, full: Bytes, fl: Layout)
    ensures var (b, strs) := ChildrenBytes(children, full, |dtbuf|, strbuf, fl);
      ChildrenAfter(dtbuf, strbuf, children, full, fl) == (dtbuf + b, strs)
  {
    hide ChildrenBytes;
  }

  lemma NextProp(dtbuf: Bytes, strbuf: Bytes, props: seq<Property>, k: nat, fl: Layout)
    requires k < |props|
    ensures PropsAfter(dtbuf, strbuf, props[k..], fl) ==
      if props[k].deleted then PropsAfter(dtbuf, strbuf, props[k + 1..], fl)
      else
        var (off, strs) := Insert(strbuf, props[k].name);
        PropsAfter(dtbuf + PropBytes(|props[k].val|, off, props[k].val, |dtbuf|, fl), strs, props[k + 1..], fl)
  {
    hide PropBytes, Insert;
    assert props[k..][1..] == props[k + 1..] && props[k..][0] == props[k];
    if !props[k].deleted {
      var (off, strs) := Insert(strbuf, props[k].name);
      var b := PropBytes(|props[k].val|, off, props[k].val, |dtbuf|, fl);
      Regrouped(dtbuf, b, PropsBytes(props[k + 1..], |dtbuf| + |b|, strs, fl).0);
    }
  }

  lemma Regrouped(a: Bytes, b: Bytes, c: Bytes)
    ensures a + (b + c) == (a + b) + c
  {
  }

  lemma NoProps(dtbuf: Bytes, strbuf: Bytes, props: seq<Property>, fl: Layout)
    requires props == []
    ensures PropsAfter(dtbuf, strbuf, props, fl) == (dtbuf, strbuf)
  {
    assert dtbuf + [] == dtbuf;
  }

  lemma NextChild(dtbuf: Bytes, strbuf: Bytes, children: seq<Node>, k: nat, full: Bytes, fl: Layout)
    requires k < |children|
    ensures var (b, strs) := NodeBytes(children[k], full, |dtbuf|, strbuf, fl);
      ChildrenAfter(dtbuf, strbuf, children[k..], full, fl) == ChildrenAfter(dtbuf + b, strs, children[k + 1..], full, fl)
  {
    hide NodeBytes;
    assert children[k..][1..] == children[k + 1..] && children[k..][0] == children[k];
    var (b, strs) := NodeBytes(children[k], full, |dtbuf|, strbuf, fl);
    Regrouped(dtbuf, b, ChildrenBytes(children[k + 1..], full, |dtbuf| + |b|, strs, fl).0);
  }

  lemma NoChildren(dtbuf: Bytes, strbuf: Bytes, children: seq<Node>, full: Bytes, fl: Layout)
    requires children == []
    ensures ChildrenAfter(dtbuf, strbuf, children, full, fl) == (dtbuf, strbuf)
  {
    assert dtbuf + [] == dtbuf;
  }

  /** A node's bytes behind a buffer, piece by piece. */
  lemma NodeConcat(base: Bytes, tree: Node, prefix: Bytes, strs: Bytes, fl: Layout)
    requires !tree.deleted
    ensures var full := Join(prefix, tree.name);
      var b1 := base + HeadBytes(tree.name, full, |base|, fl);
      var (props, strs1) := PropsBytes(tree.props, |b1|, strs, fl);
      var b2 := b1 + props;
      var (nameProp, strs2) := NamePropBytes(tree, |b2|, strs1, fl);
      var b3 := b2 + nameProp;
      var (children, strs3) := ChildrenBytes(tree.children, full, |b3|, strs2, fl);
      && b3 + children + Word32(END_NODE) == base + NodeBytes(tree, prefix, |base|, strs, fl).0
      && strs3 == NodeBytes(tree, prefix, |base|, strs, fl).1
  {
    hide HeadBytes, PropsBytes, NamePropBytes, ChildrenBytes, Join, Word32;
    var full := Join(prefix, tree.name);
    var head := HeadBytes(tree.name, full, |base|, fl);
    var (props, strs1) := PropsBytes(tree.props, |base| + |head|, strs, fl);
    var (nameProp, strs2) := NamePropBytes(tree, |base| + |head| + |props|, strs1, fl);
    var children := ChildrenBytes(tree.children, full, |base| + |head| + |props| + |nameProp|, strs2, fl).0;
    assert |head + props + nameProp| == |head| + |props| + |nameProp|;
    assert base + head + props + nameProp + children + Word32(END_NODE)
        == base + (head + props + nameProp + children + Word32(END_NODE));
  }

  /** A property's bytes behind a buffer, field by field. */
  lemma PropConcat(base: Bytes, length: nat, off: nat, val: Bytes, fl: Layout)
    ensures var gap := Zeros(Gap(length, |base|, fl));
      base + Word32(PROP) + Cell(length) + Cell(off) + gap + val + Zeros(Pad(|base| + 12 + |gap| + |val|, 4))
        == base + PropBytes(length, off, val, |base|, fl)
  {
    hide Word32, Cell, Zeros, Pad, Gap;
    var gap := Zeros(Gap(length, |base|, fl));
    var tail := Zeros(Pad(|base| + 12 + |gap| + |val|, 4));
    Append7(base, Word32(PROP), Cell(length), Cell(off), gap, val, tail);
  }

  lemma Append7(a: Bytes, b: Bytes, c: Bytes, d: Bytes, e: Bytes, g: Bytes, h: Bytes)
    ensures a + b + c + d + e + g + h == a + (b + (c + (d + (e + (g + h)))))
  {
  }

  lemma CellWord(w: Word)
    ensures Cell(w) == Word32(w)
  {
    hide Word32;
  }

  lemma {:induction false} StrLenIs(f: Bytes, p: nat, n: nat)
    requires n > 0 ==> p + n <= |f|
    requires forall j :: p <= j < p + n ==> f[j] != 0
    requires p + n < |f| ==> f[p + n] == 0
    ensures StrLen(f, p) == if p + n >= |f| then None else Some(n)
    decreases n
  {
    if n > 0 {
      StrLenIs(f, p + 1, n - 1);
    }
  }

  /** struct inbuf: the bytes from base to limit, and the pointer. */
  class Inbuf {
    const buf: Bytes
    var ptr: nat

    constructor (buf: Bytes)
      ensures this.buf == buf && ptr == 0
    {
      this.buf := buf;
      ptr := 0;
    }

    method FlatReadWord() returns (word: Option<Word>)
      modifies this
      ensures match ReadWord(buf, old(ptr))
              case None => word.None?
              case Some((w, p)) => word == Some(w) && ptr == p
    {
      if ptr % 4 != 0 || ptr + 4 > |buf| {
        return None;
      }
      word := Some(FromWord32(buf[ptr..ptr + 4]));
      ptr := ptr + 4;
    }

    method FlatRealign(a: nat) returns (ok: bool)
      requires a == 4 || a == 8
      modifies this
      ensures match Realign(buf, old(ptr), a)
              case None => !ok
              case Some(p) => ok && ptr == p
    {
      ptr := ptr + Pad(ptr, a);
      ok := ptr <= |buf|;
    }

    method FlatReadString() returns (s: Option<Bytes>)
      modifies this
      ensures match ReadString(buf, old(ptr))
              case None => s.None?
              case Some((t, p)) => s == Some(t) && ptr == p
    {
      hide StrLen, Pad;
      var len := FindNul();
      if len.None? {
        return None;
      }
      var t := buf[ptr..ptr + len.value];
      ptr := ptr + len.value + 1;
      var ok := FlatRealign(4);
      s := if ok then Some(t) else None;
    }

    /** The scan for the terminator, which must not reach the limit. */
    method FindNul() returns (len: Option<nat>)
      ensures len == StrLen(buf, ptr)
    {
      hide StrLen;
      var n := 0;
      while ptr + n < |buf| && buf[ptr + n] != 0
        invariant n > 0 ==> ptr + n <= |buf|
        invariant forall j :: ptr <= j < ptr + n ==> buf[j] != 0
        decreases |buf| - (ptr + n)
      {
        n := n + 1;
      }
      len := if ptr + n >= |buf| then None else Some(n);
      StrLenIs(buf, ptr, n);
    }

    method FlatReadProperty(strs: Bytes, varAlign: bool) returns (prop: Option<Property>)
      modifies this
      ensures match ReadProperty(buf, old(ptr), strs, varAlign)
              case None => prop.None?
              case Some((q, p)) => prop == Some(q) && ptr == p
    {
      hide StrLen, FromWord32;
      var proplen := FlatReadWord();
      if proplen.None? {
        return None;
      }
      var stroff := FlatReadWord();
      if stroff.None? {
        return None;
      }
      var name := ReadName(strs, stroff.value);
      if name.None? {
        return None;
      }
      if varAlign && proplen.value >= 8 {
        var ok := FlatRealign(8);
        if !ok {
          return None;
        }
      }
      var val := ReadData(buf, ptr, proplen.value);
      if val.None? {
        return None;
      }
      ptr := val.value.1;
      prop := Some(Property(name.value, val.value.0, [], false));
    }

    method UnflattenTree(strs: Bytes, parent: Bytes, fl: Layout) returns (node: Option<Node>)
      modifies this
      ensures match ReadNode(buf, old(ptr), strs, parent, fl)
              case None => node.None?
              case Some((n, p)) => node == Some(n) && ptr == p
      decreases |buf| - ptr
    {
      hide ReadWord, ReadString, ReadProperty, NameFromPath;
      ghost var start := ptr;
      var flat := FlatReadString();
      if flat.None? {
        return None;
      }
      var name := if fl.fullPath then NameFromPath(parent, flat.value) else Some(flat.value);
      if name.None? {
        return None;
      }
      var n := Node(name.value, [], [], [], false);
      while true
        invariant start < ptr <= |buf|
        invariant ReadNode(buf, start, strs, parent, fl) == ReadItems(buf, ptr, strs, flat.value, n, fl)
        decreases |buf| - ptr
      {
        var val := FlatReadWord();
        if val.None? {
          return None;
        }
        if val.value == PROP {
          var prop := FlatReadProperty(strs, fl.varAlign);
          if prop.None? {
            return None;
          }
          n := n.(props := n.props + [prop.value]);
        } else if val.value == BEGIN_NODE {
          var child := UnflattenTree(strs, flat.value, fl);
          if child.None? {
            return None;
          }
          n := n.(children := n.children + [child.value]);
        } else if val.value == END_NODE {
          break;
        } else if val.value != NOP {
          return None;
        }
      }
      node := Some(n);
    }
  }
}
