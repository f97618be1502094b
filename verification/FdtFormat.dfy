/** The format of a written blob, byte by byte (Devicetree Specification, sections 5.2 to 5.6), said
    without the functions that write or read it: numbers have their highest byte first, and each block
    and each token stands where the specification puts it. */
module FdtFormat {
  import opened Options
  import opened FdtTree
  import opened FdtWrite
  import opened FdtRead
  import opened FdtBlob

  // ---------------------------------------------------------------- numbers

  /** The number that bytes stand for, each byte worth 256 times the next. */
  function Horner(s: Bytes): nat {
    if s == [] then 0 else Horner(s[..|s| - 1]) * 256 + s[|s| - 1] as int
  }

  /** s comes before t: at the first byte in which they differ, its own is the smaller. */
  ghost predicate Before(s: Bytes, t: Bytes)
    requires |s| == |t|
  {
    exists k :: 0 <= k < |s| && s[..k] == t[..k] && s[k] < t[k]
  }

  lemma BeforeLast(a: Bytes, x: Byte, b: Bytes, y: Byte)
    requires |a| == |b|
    ensures Before(a + [x], b + [y]) <==> Before(a, b) || (a == b && x < y)
  {
    var s, t := a + [x], b + [y];
    var n := |a|;
    assert s[..n] == a && t[..n] == b && s[n] == x && t[n] == y;
    forall k | 0 <= k < n
      ensures s[..k] == a[..k] && t[..k] == b[..k] && s[k] == a[k] && t[k] == b[k]
    {
    }
  }

  /** Numbers of one width compare as their bytes do, from the first byte on. */
  lemma {:induction false} BytesCompare(s: Bytes, t: Bytes)
    requires |s| == |t|
    ensures Horner(s) < Horner(t) <==> Before(s, t)
    ensures Horner(s) == Horner(t) <==> s == t
  {
    if s != [] {
      var n := |s| - 1;
      var a, b := s[..n], t[..n];
      assert s == a + [s[n]] && t == b + [t[n]];
      hide Before;
      BytesCompare(a, b);
      BeforeLast(a, s[n], b, t[n]);
    }
  }

  /** The bytes at p are the number n, written with so many bytes. */
  predicate NumberAt(f: Bytes, p: nat, width: nat, n: nat) {
    p + width <= |f| && Horner(f[p..p + width]) == n
  }

  lemma HornerOf4(s: Bytes)
    requires |s| == 4
    ensures Horner(s) == s[0] as int * 0x100_0000 + s[1] as int * 0x1_0000 + s[2] as int * 0x100 + s[3] as int
  {
    assert s[..3][..2] == s[..2] && s[..3][..2][..1] == s[..1];
    assert Horner(s[..1]) == s[0] as int;
    assert Horner(s[..2]) == Horner(s[..2][..1]) * 256 + s[1] as int && s[..2][..1] == s[..1];
    assert Horner(s[..3]) == Horner(s[..2]) * 256 + s[2] as int;
  }

  lemma WordIsNumber(w: Word)
    ensures Horner(Word32(w)) == w
  {
    HornerOf4(Word32(w));
    Word32Back(w);
  }

  lemma {:induction false} HornerJoin(s: Bytes, t: Bytes)
    requires |t| == 4
    ensures Horner(s + t) == Horner(s) * 0x1_0000_0000 + Horner(t)
  {
    HornerOf4(t);
    var u := s + t;
    var n := |s|;
    assert u[..n] == s && u[..n + 1][..n] == s && u[..n + 2][..n + 1] == u[..n + 1];
    assert u[..n + 3][..n + 2] == u[..n + 2] && u[..|u| - 1] == u[..n + 3];
    assert Horner(u[..n + 1]) == Horner(s) * 256 + t[0] as int;
    assert Horner(u[..n + 2]) == Horner(u[..n + 1]) * 256 + t[1] as int;
    assert Horner(u[..n + 3]) == Horner(u[..n + 2]) * 256 + t[2] as int;
    assert Horner(u) == Horner(u[..n + 3]) * 256 + t[3] as int;
  }

  lemma DoubleIsNumber(d: Double)
    ensures Horner(Word64(d)) == d
  {
    HornerJoin(Word32(d / 0x1_0000_0000), Word32(d % 0x1_0000_0000));
    WordIsNumber(d / 0x1_0000_0000);
    WordIsNumber(d % 0x1_0000_0000);
  }

  lemma WordBytes(s: Bytes, w: Word)
    requires |s| == 4 && Horner(s) == w
    ensures Word32(w) == s
  {
    WordIsNumber(w);
    BytesCompare(Word32(w), s);
  }

  // ---------------------------------------------------------------- tokens

  const BEGIN_NODE_TAG: Bytes := [0, 0, 0, 1]
  const END_NODE_TAG: Bytes := [0, 0, 0, 2]
  const PROP_TAG: Bytes := [0, 0, 0, 3]
  const END_TAG: Bytes := [0, 0, 0, 9]

  /** The structure block as a list: a node begins, a property with its length field, a node ends. */
  datatype Token = Begins(name: Bytes) | Has(name: Bytes, length: nat, val: Bytes) | Ends

  /** The next multiple of a. */
  function Align(pos: nat, a: nat): nat
    requires a > 0
  {
    (pos + a - 1) / a * a
  }

  /** Where the value of a property at pos begins: before version 16, one of 8 bytes or more on a
      multiple of 8. */
  function ValueStart(pos: nat, length: nat, early: bool): nat {
    if early && length >= 8 then Align(pos + 12, 8) else pos + 12
  }

  /** Where the next token begins: on a multiple of 4. */
  function Next(pos: nat, t: Token, early: bool): nat {
    match t
    case Begins(name) => Align(pos + 4 + |name| + 1, 4)
    case Has(_, length, val) => Align(ValueStart(pos, length, early) + |val|, 4)
    case Ends => pos + 4
  }

  predicate ZeroFrom(f: Bytes, from: nat, to: nat) {
    to <= |f| && forall k :: from <= k < to ==> f[k] == 0
  }

  /** The token stands at pos: its tag, its operands, and zeros up to the next one.  A property gives
      the length of its value and the offset of its name among the strings. */
  predicate TokenLaid(f: Bytes, pos: nat, t: Token, strs: Bytes, early: bool) {
    match t
    case Begins(name) =>
      && Stands(f, pos, BEGIN_NODE_TAG) && Stands(f, pos + 4, name)
      && ZeroFrom(f, pos + 4 + |name|, Next(pos, t, early))
    case Has(name, length, val) =>
      var at := ValueStart(pos, length, early);
      && Stands(f, pos, PROP_TAG) && NumberAt(f, pos + 4, 4, length) && pos + 12 <= |f|
      && Stands(strs, Horner(f[pos + 8..pos + 12]), name + [0])
      && ZeroFrom(f, pos + 12, at) && Stands(f, at, val) && ZeroFrom(f, at + |val|, Next(pos, t, early))
    case Ends => Stands(f, pos, END_NODE_TAG)
  }

  predicate Laid(f: Bytes, pos: nat, ts: seq<Token>, strs: Bytes, early: bool)
    decreases |ts|
  {
    ts != [] ==> TokenLaid(f, pos, ts[0], strs, early) && Laid(f, Next(pos, ts[0], early), ts[1..], strs, early)
  }

  function LaidEnd(pos: nat, ts: seq<Token>, early: bool): nat
    decreases |ts|
  {
    if ts == [] then pos else LaidEnd(Next(pos, ts[0], early), ts[1..], early)
  }

  // ---------------------------------------------------------------- the tokens of a tree

  /** The live properties in order. */
  function PropTokens(props: seq<Property>): seq<Token> {
    if props == [] then []
    else (if props[0].deleted then [] else [Has(props[0].name, |props[0].val|, props[0].val)]) + PropTokens(props[1..])
  }

  /** Before version 16 a node without a live property "name" gets one: what precedes the '@' of its
      name, with a terminating zero.  A name that begins with '@' is written out whole, although its
      length is given as 1. */
  function NameToken(node: Node): seq<Token> {
    if exists k :: 0 <= k < |node.props| && !node.props[k].deleted && node.props[k].name == [110, 97, 109, 101] then []
    else
      var n := BaseLength(node.name);
      [Has([110, 97, 109, 101], n + 1, (if n == 0 then node.name else node.name[..n]) + [0])]
  }

  /** The path of a node: its parent's, a slash unless that ends in one, and its name. */
  function PathOf(prefix: Bytes, name: Bytes): Bytes {
    prefix + (if prefix != [] && prefix[|prefix| - 1] == 47 then [] else [47]) + name
  }

  /** A live node: its name or, before version 16, its path; its properties; its children; the end. */
  function Tokens(node: Node, prefix: Bytes, early: bool): seq<Token>
    decreases node, 1
  {
    if node.deleted then []
    else
      var path := PathOf(prefix, node.name);
      [Begins(if early then path else node.name)] + (PropTokens(node.props) + ((if early then NameToken(node) else [])
      + (ChildTokens(node.children, path, early) + [Ends])))
  }

  function ChildTokens(children: seq<Node>, prefix: Bytes, early: bool): seq<Token>
    decreases children, 0
  {
    if children == [] then [] else Tokens(children[0], prefix, early) + ChildTokens(children[1..], prefix, early)
  }

  lemma {:induction false} BaseName(name: Bytes)
    ensures forall k :: 0 <= k < BaseLength(name) ==> name[k] != 64
    ensures BaseLength(name) == |name| || name[BaseLength(name)] == 64
  {
    if name != [] && name[0] != 64 {
      BaseName(name[1..]);
      assert forall k :: 1 <= k < BaseLength(name) ==> name[k] == name[1..][k - 1];
    }
  }

  // ---------------------------------------------------------------- the writer lays them

  function LayoutOf(early: bool): Layout {
    Layout(early, early, early)
  }

  lemma AlignIsPad(pos: nat, a: nat)
    requires a == 4 || a == 8
    ensures Align(pos, a) == pos + Pad(pos, a)
  {
    var n := Pad(pos, a);
    Padded(pos, a);
    var q := (pos + n) / a;
    assert pos + n == q * a;
    if a == 4 { DividesDown4(pos, n, q); } else { DividesDown8(pos, n, q); }
  }

  lemma DividesDown4(pos: nat, n: nat, q: nat)
    requires pos + n == q * 4 && n < 4
    ensures (pos + 3) / 4 == q
  {
  }

  lemma DividesDown8(pos: nat, n: nat, q: nat)
    requires pos + n == q * 8 && n < 8
    ensures (pos + 7) / 8 == q
  {
  }

  lemma {:induction false} LaidJoin(f: Bytes, pos: nat, a: seq<Token>, b: seq<Token>, strs: Bytes, early: bool)
    ensures Laid(f, pos, a + b, strs, early) <==> Laid(f, pos, a, strs, early) && Laid(f, LaidEnd(pos, a, early), b, strs, early)
    ensures LaidEnd(pos, a + b, early) == LaidEnd(LaidEnd(pos, a, early), b, early)
    decreases |a|
  {
    if a == [] {
      assert a + b == b;
    } else {
      assert (a + b)[0] == a[0] && (a + b)[1..] == a[1..] + b;
      LaidJoin(f, Next(pos, a[0], early), a[1..], b, strs, early);
    }
  }

  lemma LaidOne(f: Bytes, pos: nat, t: Token, strs: Bytes, early: bool)
    ensures Laid(f, pos, [t], strs, early) <==> TokenLaid(f, pos, t, strs, early)
    ensures LaidEnd(pos, [t], early) == Next(pos, t, early)
  {
    assert [t][1..] == [];
    assert Laid(f, Next(pos, t, early), [], strs, early);
  }

  lemma ZerosStand(f: Bytes, p: nat, n: nat)
    requires Stands(f, p, Zeros(n))
    ensures ZeroFrom(f, p, p + n)
  {
    forall k | p <= k < p + n
      ensures f[k] == 0
    {
      assert f[p..p + n][k - p] == Zeros(n)[k - p];
    }
  }

  lemma TagBytes()
    ensures Word32(BEGIN_NODE) == BEGIN_NODE_TAG && Word32(END_NODE) == END_NODE_TAG
    ensures Word32(PROP) == PROP_TAG && Word32(END) == END_TAG
  {
    HornerOf4(BEGIN_NODE_TAG);
    HornerOf4(END_NODE_TAG);
    HornerOf4(PROP_TAG);
    HornerOf4(END_TAG);
    WordBytes(BEGIN_NODE_TAG, BEGIN_NODE);
    WordBytes(END_NODE_TAG, END_NODE);
    WordBytes(PROP_TAG, PROP);
    WordBytes(END_TAG, END);
  }

  lemma CellStands(f: Bytes, p: nat, n: nat)
    requires Stands(f, p, Cell(n)) && n < 0x1_0000_0000
    ensures NumberAt(f, p, 4, n)
  {
    hide Word32, Horner;
    assert Cell(n) == Word32(n);
    WordIsNumber(n);
  }

  lemma PropParts(f: Bytes, pos: nat, length: nat, off: nat, val: Bytes, fl: Layout)
    requires Stands(f, pos, PropBytes(length, off, val, pos, fl))
    ensures var gap := Gap(length, pos, fl);
      var at := pos + 12 + gap;
      && Stands(f, pos, Word32(PROP)) && Stands(f, pos + 4, Cell(length)) && Stands(f, pos + 8, Cell(off))
      && Stands(f, pos + 12, Zeros(gap)) && Stands(f, at, val) && Stands(f, at + |val|, Zeros(Pad(at + |val|, 4)))
      && |PropBytes(length, off, val, pos, fl)| == 12 + gap + |val| + Pad(at + |val|, 4)
  {
    hide Word32, Pad, Zeros, Cell, Gap, Stands;
    var gap := Gap(length, pos, fl);
    var at := pos + 12 + gap;
    var pad := Pad(at + |val|, 4);
    StandsSplit(f, pos, Word32(PROP), Cell(length) + (Cell(off) + (Zeros(gap) + (val + Zeros(pad)))));
    StandsSplit(f, pos + 4, Cell(length), Cell(off) + (Zeros(gap) + (val + Zeros(pad))));
    StandsSplit(f, pos + 8, Cell(off), Zeros(gap) + (val + Zeros(pad)));
    StandsSplit(f, pos + 12, Zeros(gap), val + Zeros(pad));
    StandsSplit(f, at, val, Zeros(pad));
  }

  lemma StartIs(pos: nat, length: nat, early: bool)
    ensures ValueStart(pos, length, early) == pos + 12 + Gap(length, pos, LayoutOf(early))
  {
    AlignIsPad(pos + 12, 8);
  }

  /** What the source writes for one property is the token. */
  lemma PropLaid(f: Bytes, pos: nat, name: Bytes, length: nat, off: nat, val: Bytes, strs: Bytes, early: bool)
    requires Stands(f, pos, PropBytes(length, off, val, pos, LayoutOf(early))) && NameAt(strs, off, name)
    requires length < 0x1_0000_0000 && off < 0x1_0000_0000
    ensures TokenLaid(f, pos, Has(name, length, val), strs, early)
    ensures Next(pos, Has(name, length, val), early) == pos + |PropBytes(length, off, val, pos, LayoutOf(early))|
  {
    var gap := Gap(length, pos, LayoutOf(early));
    var at := pos + 12 + gap;
    PropParts(f, pos, length, off, val, LayoutOf(early));
    TagBytes();
    StartIs(pos, length, early);
    AlignIsPad(at + |val|, 4);
    hide Word32, Pad, Zeros, Align, Horner, Cell, Gap, PropBytes, ValueStart;
    CellStands(f, pos + 4, length);
    CellStands(f, pos + 8, off);
    ZerosStand(f, pos + 12, gap);
    ZerosStand(f, at + |val|, Pad(at + |val|, 4));
  }

  lemma LaterName(strs: Bytes, later: Bytes, off: nat, name: Bytes)
    requires NameAt(strs, off, name) && strs <= later
    ensures NameAt(later, off, name) && off < |later|
  {
  }

  /** The tokens are laid at pos, in just so many bytes. */
  ghost predicate Fill(f: Bytes, pos: nat, size: nat, ts: seq<Token>, strs: Bytes, early: bool) {
    Laid(f, pos, ts, strs, early) && LaidEnd(pos, ts, early) == pos + size
  }

  lemma FillJoin(f: Bytes, pos: nat, n: nat, a: seq<Token>, m: nat, b: seq<Token>, strs: Bytes, early: bool)
    requires Fill(f, pos, n, a, strs, early) && Fill(f, pos + n, m, b, strs, early)
    ensures Fill(f, pos, n + m, a + b, strs, early)
  {
    hide Laid, LaidEnd;
    LaidJoin(f, pos, a, b, strs, early);
  }

  lemma FillOne(f: Bytes, pos: nat, t: Token, strs: Bytes, early: bool)
    requires TokenLaid(f, pos, t, strs, early)
    ensures Next(pos, t, early) >= pos && Fill(f, pos, Next(pos, t, early) - pos, [t], strs, early)
  {
    LaidOne(f, pos, t, strs, early);
    NextIsLater(pos, t, early);
  }

  lemma NextIsLater(pos: nat, t: Token, early: bool)
    ensures Next(pos, t, early) >= pos
  {
    if t.Begins? {
      AlignIsPad(pos + 4 + |t.name| + 1, 4);
    } else if t.Has? {
      StartIs(pos, t.length, early);
      AlignIsPad(ValueStart(pos, t.length, early) + |t.val|, 4);
    }
  }

  lemma FillNone(f: Bytes, pos: nat, strs: Bytes, early: bool)
    ensures Fill(f, pos, 0, [], strs, early)
  {
  }

  lemma {:induction false} PropsLaid(f: Bytes, pos: nat, props: seq<Property>, strs: Bytes, later: Bytes, early: bool)
    requires Stands(f, pos, PropsBytes(props, pos, strs, LayoutOf(early)).0)
    requires PropsBytes(props, pos, strs, LayoutOf(early)).1 <= later
    requires |f| < 0x1_0000_0000 && |later| < 0x1_0000_0000
    ensures Fill(f, pos, |PropsBytes(props, pos, strs, LayoutOf(early)).0|, PropTokens(props), later, early)
    decreases |props|
  {
    hide Fill, Stands, PropBytes, Insert;
    if props == [] {
      FillNone(f, pos, later, early);
    } else if props[0].deleted {
      PropsLaid(f, pos, props[1..], strs, later, early);
      assert [] + PropTokens(props[1..]) == PropTokens(props[1..]);
    } else {
      var fl := LayoutOf(early);
      var prop := props[0];
      var (off, strs1) := Insert(strs, prop.name);
      var b := PropBytes(|prop.val|, off, prop.val, pos, fl);
      var (rest, strs2) := PropsBytes(props[1..], pos + |b|, strs1, fl);
      assert PropsBytes(props, pos, strs, fl) == (b + rest, strs2);
      assert PropTokens(props) == [Has(prop.name, |prop.val|, prop.val)] + PropTokens(props[1..]);
      hide PropsBytes, PropTokens;
      StandsSplit(f, pos, b, rest);
      OnePropLaid(f, pos, prop.name, |prop.val|, off, prop.val, strs1, later, early);
      PropsLaid(f, pos + |b|, props[1..], strs1, later, early);
      FillJoin(f, pos, |b|, [Has(prop.name, |prop.val|, prop.val)], |rest|, PropTokens(props[1..]), later, early);
    }
  }

  lemma OnePropLaid(
      f: Bytes, pos: nat, name: Bytes, length: nat, off: nat, val: Bytes, strs: Bytes, later: Bytes, early: bool)
    requires Stands(f, pos, PropBytes(length, off, val, pos, LayoutOf(early))) && length <= |val|
    requires NameAt(strs, off, name) && strs <= later
    requires |f| < 0x1_0000_0000 && |later| < 0x1_0000_0000
    ensures Fill(f, pos, |PropBytes(length, off, val, pos, LayoutOf(early))|, [Has(name, length, val)], later, early)
  {
    LaterName(strs, later, off, name);
    PropParts(f, pos, length, off, val, LayoutOf(early));
    hide PropBytes, TokenLaid, Next, Fill;
    PropLaid(f, pos, name, length, off, val, later, early);
    FillOne(f, pos, Has(name, length, val), later, early);
  }

  /** The property that is added for the name, if it is. */
  lemma NameAdded(node: Node, pos: nat, strs: Bytes)
    returns (n: nat, off: nat, val: Bytes, strs1: Bytes)
    requires !SeenName(node.props)
    ensures NamePropBytes(node, pos, strs, LayoutOf(true)) == (PropBytes(n, off, val, pos, LayoutOf(true)), strs1)
    ensures NameToken(node) == [Has([110, 97, 109, 101], n, val)] && n <= |val|
    ensures NameAt(strs1, off, [110, 97, 109, 101])
  {
    hide PropBytes, Insert;
    n := BaseLength(node.name) + 1;
    val := Chars(node.name, n - 1) + [0];
    off, strs1 := Insert(strs, NAME).0, Insert(strs, NAME).1;
  }

  lemma NoNameAdded(node: Node, pos: nat, strs: Bytes)
    requires SeenName(node.props)
    ensures NamePropBytes(node, pos, strs, LayoutOf(true)).0 == [] && NameToken(node) == []
  {
  }

  lemma NameLaid(f: Bytes, pos: nat, node: Node, strs: Bytes, later: Bytes)
    requires Stands(f, pos, NamePropBytes(node, pos, strs, LayoutOf(true)).0)
    requires NamePropBytes(node, pos, strs, LayoutOf(true)).1 <= later
    requires |f| < 0x1_0000_0000 && |later| < 0x1_0000_0000
    ensures Fill(f, pos, |NamePropBytes(node, pos, strs, LayoutOf(true)).0|, NameToken(node), later, true)
  {
    hide NamePropBytes, NameToken, Fill, PropBytes, Stands;
    if SeenName(node.props) {
      NoNameAdded(node, pos, strs);
      FillNone(f, pos, later, true);
    } else {
      var n, off, val, strs1 := NameAdded(node, pos, strs);
      OnePropLaid(f, pos, [110, 97, 109, 101], n, off, val, strs1, later, true);
    }
  }

  lemma HeadLaid(f: Bytes, pos: nat, name: Bytes, full: Bytes, strs: Bytes, early: bool)
    requires Stands(f, pos, HeadBytes(name, full, pos, LayoutOf(early)))
    ensures var t := Begins(if early then full else name);
      && TokenLaid(f, pos, t, strs, early)
      && Next(pos, t, early) == pos + |HeadBytes(name, full, pos, LayoutOf(early))|
  {
    var s := if early then full else name;
    var end := pos + 4 + |s| + 1;
    var pad := Pad(end, 4);
    AlignIsPad(end, 4);
    TagBytes();
    assert HeadBytes(name, full, pos, LayoutOf(early)) == Word32(BEGIN_NODE) + (s + (Zeros(1) + Zeros(pad)));
    hide Word32, Pad, Zeros, Align, HeadBytes, Stands;
    StandsSplit(f, pos, Word32(BEGIN_NODE), s + (Zeros(1) + Zeros(pad)));
    StandsSplit(f, pos + 4, s, Zeros(1) + Zeros(pad));
    StandsSplit(f, pos + 4 + |s|, Zeros(1), Zeros(pad));
    ZerosStand(f, pos + 4 + |s|, 1);
    ZerosStand(f, end, pad);
  }

  lemma PathIsJoin(prefix: Bytes, name: Bytes)
    ensures PathOf(prefix, name) == Join(prefix, name)
  {
    assert prefix + [] + name == prefix + name;
  }

  lemma EndLaid(f: Bytes, pos: nat, strs: Bytes, early: bool)
    requires Stands(f, pos, Word32(END_NODE))
    ensures Fill(f, pos, 4, [Ends], strs, early)
  {
    TagBytes();
    LaidOne(f, pos, Ends, strs, early);
  }

  /** The part of a tree's block that belongs to a node is its tokens, one after the other. */
  lemma {:induction false} NodeLaid(
      f: Bytes, pos: nat, node: Node, prefix: Bytes, strs: Bytes, later: Bytes, early: bool)
    requires Stands(f, pos, NodeBytes(node, prefix, pos, strs, LayoutOf(early)).0)
    requires NodeBytes(node, prefix, pos, strs, LayoutOf(early)).1 <= later
    requires |f| < 0x1_0000_0000 && |later| < 0x1_0000_0000
    ensures Fill(f, pos, |NodeBytes(node, prefix, pos, strs, LayoutOf(early)).0|, Tokens(node, prefix, early), later, early)
    decreases node, 1
  {
    hide NodeBytes, ChildrenBytes, HeadBytes, PropsBytes, NamePropBytes, Tokens, ChildTokens, PropTokens, NameToken,
         TokenLaid, Next, Fill, Laid, LaidEnd, Stands, Word32, Join;
    if node.deleted {
      DeletedLaid(f, pos, node, prefix, strs, later, early);
    } else {
      var full := Join(prefix, node.name);
      var n1, n2, n3, n4, strs1, strs2 := NodeParts(f, pos, node, prefix, strs, LayoutOf(early));
      HeadLaid(f, pos, node.name, full, later, early);
      FillOne(f, pos, Begins(if early then full else node.name), later, early);
      PropsLaid(f, pos + n1, node.props, strs, later, early);
      NamesLaid(f, pos + n1 + n2, node, strs1, later, early);
      ChildrenLaid(f, pos + n1 + n2 + n3, node.children, full, strs2, later, early);
      EndLaid(f, pos + n1 + n2 + n3 + n4, later, early);
      FiveFill(f, pos, n1, [Begins(if early then full else node.name)], n2, PropTokens(node.props),
               n3, if early then NameToken(node) else [], n4, ChildTokens(node.children, full, early), [Ends], later, early);
      NodeTokens(node, prefix, early);
    }
  }

  lemma DeletedLaid(f: Bytes, pos: nat, node: Node, prefix: Bytes, strs: Bytes, later: Bytes, early: bool)
    requires node.deleted
    ensures Fill(f, pos, |NodeBytes(node, prefix, pos, strs, LayoutOf(early)).0|, Tokens(node, prefix, early), later, early)
  {
    FillNone(f, pos, later, early);
  }

  lemma FiveFill(f: Bytes, pos: nat, n: nat, a: seq<Token>, m: nat, b: seq<Token>, k: nat, c: seq<Token>,
                 j: nat, d: seq<Token>, e: seq<Token>, strs: Bytes, early: bool)
    requires Fill(f, pos, n, a, strs, early) && Fill(f, pos + n, m, b, strs, early) && Fill(f, pos + n + m, k, c, strs, early)
    requires Fill(f, pos + n + m + k, j, d, strs, early) && Fill(f, pos + n + m + k + j, 4, e, strs, early)
    ensures Fill(f, pos, n + m + k + j + 4, a + (b + (c + (d + e))), strs, early)
  {
    hide Fill;
    FillJoin(f, pos + n + m + k, j, d, 4, e, strs, early);
    FillJoin(f, pos + n + m, k, c, j + 4, d + e, strs, early);
    FillJoin(f, pos + n, m, b, k + (j + 4), c + (d + e), strs, early);
    FillJoin(f, pos, n, a, m + (k + (j + 4)), b + (c + (d + e)), strs, early);
  }

  lemma NodeTokens(node: Node, prefix: Bytes, early: bool)
    requires !node.deleted
    ensures var full := Join(prefix, node.name);
      Tokens(node, prefix, early)
      == [Begins(if early then full else node.name)] + (PropTokens(node.props) + ((if early then NameToken(node) else [])
         + (ChildTokens(node.children, full, early) + [Ends])))
  {
    PathIsJoin(prefix, node.name);
  }

  lemma NamesLaid(f: Bytes, pos: nat, node: Node, strs: Bytes, later: Bytes, early: bool)
    requires Stands(f, pos, NamePropBytes(node, pos, strs, LayoutOf(early)).0)
    requires NamePropBytes(node, pos, strs, LayoutOf(early)).1 <= later
    requires |f| < 0x1_0000_0000 && |later| < 0x1_0000_0000
    ensures Fill(f, pos, |NamePropBytes(node, pos, strs, LayoutOf(early)).0|, if early then NameToken(node) else [], later, early)
  {
    if early { NameLaid(f, pos, node, strs, later); }
  }

  /** The five parts of a node, each where the one before it ends. */
  lemma NodeParts(f: Bytes, pos: nat, node: Node, prefix: Bytes, strs: Bytes, fl: Layout)
    returns (n1: nat, n2: nat, n3: nat, n4: nat, strs1: Bytes, strs2: Bytes)
    requires !node.deleted && Stands(f, pos, NodeBytes(node, prefix, pos, strs, fl).0)
    ensures Stands(f, pos, HeadBytes(node.name, Join(prefix, node.name), pos, fl))
    ensures n1 == |HeadBytes(node.name, Join(prefix, node.name), pos, fl)|
    ensures Stands(f, pos + n1, PropsBytes(node.props, pos + n1, strs, fl).0)
    ensures n2 == |PropsBytes(node.props, pos + n1, strs, fl).0|
    ensures strs1 == PropsBytes(node.props, pos + n1, strs, fl).1
    ensures Stands(f, pos + n1 + n2, NamePropBytes(node, pos + n1 + n2, strs1, fl).0)
    ensures n3 == |NamePropBytes(node, pos + n1 + n2, strs1, fl).0|
    ensures strs2 == NamePropBytes(node, pos + n1 + n2, strs1, fl).1
    ensures var kids := ChildrenBytes(node.children, Join(prefix, node.name), pos + n1 + n2 + n3, strs2, fl);
      && Stands(f, pos + n1 + n2 + n3, kids.0) && n4 == |kids.0|
      && NodeBytes(node, prefix, pos, strs, fl).1 == kids.1 && strs1 <= strs2 <= kids.1
    ensures Stands(f, pos + n1 + n2 + n3 + n4, Word32(END_NODE))
    ensures |NodeBytes(node, prefix, pos, strs, fl).0| == n1 + n2 + n3 + n4 + 4
  {
    hide HeadBytes, PropsBytes, NamePropBytes, ChildrenBytes, Stands, Word32, Join;
    var full := Join(prefix, node.name);
    var head := HeadBytes(node.name, full, pos, fl);
    var p1 := pos + |head|;
    var (props, s1) := PropsBytes(node.props, p1, strs, fl);
    var p2 := p1 + |props|;
    var (nameProp, s2) := NamePropBytes(node, p2, s1, fl);
    var p3 := p2 + |nameProp|;
    var (children, s3) := ChildrenBytes(node.children, full, p3, s2, fl);
    var end := Word32(END_NODE);
    assert |head + props + nameProp| == p3 - pos;
    assert NodeBytes(node, prefix, pos, strs, fl) == (head + props + nameProp + children + end, s3);
    hide NodeBytes;
    n1, n2, n3, n4, strs1, strs2 := |head|, |props|, |nameProp|, |children|, s1, s2;
    FiveParts(head, props, nameProp, children, end);
    StandsSplit(f, pos, head, props + (nameProp + (children + end)));
    StandsSplit(f, p1, props, nameProp + (children + end));
    StandsSplit(f, p2, nameProp, children + end);
    StandsSplit(f, p3, children, end);
  }

  lemma FiveParts(a: Bytes, b: Bytes, c: Bytes, d: Bytes, e: Bytes)
    ensures a + b + c + d + e == a + (b + (c + (d + e)))
  {
  }

  lemma {:induction false} ChildrenLaid(
      f: Bytes, pos: nat, children: seq<Node>, prefix: Bytes, strs: Bytes, later: Bytes, early: bool)
    requires Stands(f, pos, ChildrenBytes(children, prefix, pos, strs, LayoutOf(early)).0)
    requires ChildrenBytes(children, prefix, pos, strs, LayoutOf(early)).1 <= later
    requires |f| < 0x1_0000_0000 && |later| < 0x1_0000_0000
    ensures Fill(f, pos, |ChildrenBytes(children, prefix, pos, strs, LayoutOf(early)).0|,
                 ChildTokens(children, prefix, early), later, early)
    decreases children, 0
  {
    hide NodeBytes, Tokens, Fill, ChildrenBytes, ChildTokens, Stands;
    if children == [] {
      NoChildrenLaid(f, pos, prefix, strs, later, early);
    } else {
      var b := NodeBytes(children[0], prefix, pos, strs, LayoutOf(early));
      var rest := ChildrenBytes(children[1..], prefix, pos + |b.0|, b.1, LayoutOf(early));
      ChildrenParts(f, pos, children, prefix, strs, LayoutOf(early));
      NodeLaid(f, pos, children[0], prefix, strs, later, early);
      ChildrenLaid(f, pos + |b.0|, children[1..], prefix, b.1, later, early);
      FillJoin(f, pos, |b.0|, Tokens(children[0], prefix, early), |rest.0|, ChildTokens(children[1..], prefix, early), later, early);
      ChildrenTokens(children, prefix, early);
    }
  }

  lemma NoChildrenLaid(f: Bytes, pos: nat, prefix: Bytes, strs: Bytes, later: Bytes, early: bool)
    ensures Fill(f, pos, |ChildrenBytes([], prefix, pos, strs, LayoutOf(early)).0|, ChildTokens([], prefix, early), later, early)
  {
    FillNone(f, pos, later, early);
  }

  lemma ChildrenTokens(children: seq<Node>, prefix: Bytes, early: bool)
    requires children != []
    ensures ChildTokens(children, prefix, early) == Tokens(children[0], prefix, early) + ChildTokens(children[1..], prefix, early)
  {
  }

  lemma ChildrenParts(f: Bytes, pos: nat, children: seq<Node>, prefix: Bytes, strs: Bytes, fl: Layout)
    requires children != [] && Stands(f, pos, ChildrenBytes(children, prefix, pos, strs, fl).0)
    ensures var (b, strs1) := NodeBytes(children[0], prefix, pos, strs, fl);
      var (rest, strs2) := ChildrenBytes(children[1..], prefix, pos + |b|, strs1, fl);
      && Stands(f, pos, b) && Stands(f, pos + |b|, rest) && strs1 <= strs2
      && ChildrenBytes(children, prefix, pos, strs, fl).1 == strs2
      && |ChildrenBytes(children, prefix, pos, strs, fl).0| == |b| + |rest|
  {
    hide Stands;
    var (b, strs1) := NodeBytes(children[0], prefix, pos, strs, fl);
    var (rest, strs2) := ChildrenBytes(children[1..], prefix, pos + |b|, strs1, fl);
    assert ChildrenBytes(children, prefix, pos, strs, fl) == (b + rest, strs2);
    StandsSplit(f, pos, b, rest);
  }

  // ---------------------------------------------------------------- the whole blob

  /** Where the memory reservation block begins: behind the header, on a multiple of 8. */
  function ReserveOffset(version: int): nat {
    if version <= 2 then 32 else 40
  }

  function HeaderSize(version: int): nat {
    if version == 1 then 28 else if version == 2 then 32 else if version == 17 then 40 else 36
  }

  /** The header, field by field, as far as the version has them. */
  predicate HeaderLaid(b: Bytes, version: int, dtOff: nat, strOff: nat, strSize: nat, cpu: Word) {
    && Stands(b, 0, [0xd0, 0x0d, 0xfe, 0xed]) && NumberAt(b, 4, 4, |b|)
    && NumberAt(b, 8, 4, dtOff) && NumberAt(b, 12, 4, strOff) && NumberAt(b, 16, 4, ReserveOffset(version))
    && version >= 0 && NumberAt(b, 20, 4, version) && NumberAt(b, 24, 4, if version < 16 then 1 else 16)
    && (version >= 2 ==> NumberAt(b, 28, 4, cpu))
    && (version >= 3 ==> NumberAt(b, 32, 4, strSize))
    && (version >= 17 ==> strOff >= dtOff && NumberAt(b, 36, 4, strOff - dtOff))
    && ZeroFrom(b, HeaderSize(version), ReserveOffset(version))
  }

  /** Each entry is an address and then a size, eight bytes each. */
  predicate ReserveLaid(b: Bytes, at: nat, reserve: seq<Reserve>) {
    forall k :: 0 <= k < |reserve| ==>
      NumberAt(b, at + 16 * k, 8, reserve[k].address) && NumberAt(b, at + 16 * k + 8, 8, reserve[k].size)
  }

  /** The blocks in their order: header, reservations and an empty one behind them, structure, strings,
      padding. */
  predicate BlobLaid(b: Bytes, bi: BootInfo, version: int, extra: nat, strSize: nat) {
    var r := ReserveOffset(version);
    var ts := Tokens(bi.dt, [], version < 16);
    var dtOff := r + 16 * (|bi.reserve| + extra + 1);
    var dtEnd := dtOff + LaidEnd(0, ts, version < 16);
    var strOff := dtEnd + 4;
    && strOff + strSize <= |b|
    && HeaderLaid(b, version, dtOff, strOff, strSize, bi.bootCpuid)
    && ReserveLaid(b, r, bi.reserve) && ZeroFrom(b, r + 16 * |bi.reserve|, dtOff)
    && Laid(b[dtOff..], 0, ts, b[strOff..strOff + strSize], version < 16) && Stands(b, dtEnd, END_TAG)
    && ZeroFrom(b, strOff + strSize, |b|)
  }

  lemma {:induction false} FieldNumber(b: Bytes, p: nat, ws: seq<Word>, k: nat)
    requires Stands(b, p, WordsBytes(ws)) && k < |ws|
    ensures NumberAt(b, p + 4 * k, 4, ws[k])
    decreases k
  {
    hide Word32, Horner;
    StandsSplit(b, p, Word32(ws[0]), WordsBytes(ws[1..]));
    if k == 0 {
      WordIsNumber(ws[0]);
    } else {
      FieldNumber(b, p + 4, ws[1..], k - 1);
    }
  }

  lemma MagicBytes(b: Bytes)
    requires NumberAt(b, 0, 4, MAGIC)
    ensures Stands(b, 0, [0xd0, 0x0d, 0xfe, 0xed])
  {
    HornerOf4([0xd0, 0x0d, 0xfe, 0xed]);
    BytesCompare(b[0..4], [0xd0, 0x0d, 0xfe, 0xed]);
  }

  lemma HeaderValues(vi: VersionInfo, o: Offsets, total: nat, dtSize: nat, strSize: nat, cpu: Word)
    requires VersionTable(vi.version) == Some(vi) && total < 0x1_0000_0000
    requires o.dt <= o.strings <= total && dtSize == o.strings - o.dt && strSize <= total && o.reserve <= total
    ensures var ws := HeaderWords(vi, o, total, dtSize, strSize, cpu);
      && ws[0] == MAGIC && ws[1] == total && ws[2] == o.dt && ws[3] == o.strings && ws[4] == o.reserve
      && ws[5] == vi.version && ws[6] == (if vi.version < 16 then 1 else 16)
      && (vi.version >= 2 ==> ws[7] == cpu) && (vi.version >= 3 ==> ws[8] == strSize) && (vi.version >= 17 ==> ws[9] == dtSize)
    ensures vi.hdrSize == HeaderSize(vi.version) && vi.hdrSize + Pad(vi.hdrSize, 8) == ReserveOffset(vi.version)
  {
  }

  lemma HeaderIsLaid(b: Bytes, vi: VersionInfo, o: Offsets, dtSize: nat, strSize: nat, cpu: Word)
    requires VersionTable(vi.version) == Some(vi) && |b| < 0x1_0000_0000
    requires o.dt <= o.strings <= |b| && dtSize == o.strings - o.dt && strSize <= |b|
    requires o.reserve == ReserveOffset(vi.version) <= |b|
    requires Stands(b, 0, WordsBytes(HeaderWords(vi, o, |b|, dtSize, strSize, cpu)[..vi.hdrSize / 4]))
    requires Stands(b, vi.hdrSize, Zeros(Pad(vi.hdrSize, 8)))
    ensures HeaderLaid(b, vi.version, o.dt, o.strings, strSize, cpu)
  {
    HeaderValues(vi, o, |b|, dtSize, strSize, cpu);
    var ws := HeaderWords(vi, o, |b|, dtSize, strSize, cpu);
    var first := ws[..vi.hdrSize / 4];
    ZerosStand(b, vi.hdrSize, Pad(vi.hdrSize, 8));
    hide HeaderWords, WordsBytes, Horner, Stands, Zeros, Pad, ZeroFrom, NumberAt, ReserveOffset;
    FirstFields(b, first);
    LastFields(b, first);
    MagicBytes(b);
  }

  lemma FirstFields(b: Bytes, ws: seq<Word>)
    requires Stands(b, 0, WordsBytes(ws)) && |ws| >= 7
    ensures NumberAt(b, 0, 4, ws[0]) && NumberAt(b, 4, 4, ws[1]) && NumberAt(b, 8, 4, ws[2]) && NumberAt(b, 12, 4, ws[3])
    ensures NumberAt(b, 16, 4, ws[4]) && NumberAt(b, 20, 4, ws[5]) && NumberAt(b, 24, 4, ws[6])
  {
    hide WordsBytes, NumberAt, Stands;
    FieldNumber(b, 0, ws, 0);
    FieldNumber(b, 0, ws, 1);
    FieldNumber(b, 0, ws, 2);
    FieldNumber(b, 0, ws, 3);
    FieldNumber(b, 0, ws, 4);
    FieldNumber(b, 0, ws, 5);
    FieldNumber(b, 0, ws, 6);
  }

  lemma LastFields(b: Bytes, ws: seq<Word>)
    requires Stands(b, 0, WordsBytes(ws))
    ensures |ws| >= 8 ==> NumberAt(b, 28, 4, ws[7])
    ensures |ws| >= 9 ==> NumberAt(b, 32, 4, ws[8])
    ensures |ws| >= 10 ==> NumberAt(b, 36, 4, ws[9])
  {
    hide WordsBytes, NumberAt, Stands;
    if |ws| >= 8 { FieldNumber(b, 0, ws, 7); }
    if |ws| >= 9 { FieldNumber(b, 0, ws, 8); }
    if |ws| >= 10 { FieldNumber(b, 0, ws, 9); }
  }

  lemma {:induction false} EntryLaid(b: Bytes, at: nat, reserve: seq<Reserve>, k: nat)
    requires Stands(b, at, ReserveBytes(reserve)) && k < |reserve|
    ensures NumberAt(b, at + 16 * k, 8, reserve[k].address) && NumberAt(b, at + 16 * k + 8, 8, reserve[k].size)
    decreases k
  {
    hide Word64, Horner, Stands;
    var re, rest := reserve[0], ReserveBytes(reserve[1..]);
    assert ReserveBytes(reserve) == Word64(re.address) + (Word64(re.size) + rest);
    StandsSplit(b, at, Word64(re.address), Word64(re.size) + rest);
    StandsSplit(b, at + 8, Word64(re.size), rest);
    if k == 0 {
      DoubleAt(b, at, re.address);
      DoubleAt(b, at + 8, re.size);
    } else {
      EntryLaid(b, at + 16, reserve[1..], k - 1);
    }
  }

  lemma DoubleAt(b: Bytes, p: nat, d: Double)
    requires Stands(b, p, Word64(d))
    ensures NumberAt(b, p, 8, d)
  {
    DoubleIsNumber(d);
  }

  lemma ReserveIsLaid(b: Bytes, at: nat, reserve: seq<Reserve>)
    requires Stands(b, at, ReserveBytes(reserve))
    ensures ReserveLaid(b, at, reserve)
  {
    hide ReserveBytes, Stands, NumberAt;
    forall k | 0 <= k < |reserve|
      ensures NumberAt(b, at + 16 * k, 8, reserve[k].address) && NumberAt(b, at + 16 * k + 8, 8, reserve[k].size)
    {
      EntryLaid(b, at, reserve, k);
    }
  }

  lemma ReserveParts(b: Bytes, at: nat, r: Bytes, n: nat, extra: nat)
    requires |r| == 16 * n && Stands(b, at, r + Zeros(16 * extra) + Zeros(16))
    ensures Stands(b, at, r) && Stands(b, at + 16 * n, Zeros(16 * extra)) && Stands(b, at + 16 * n + 16 * extra, Zeros(16))
  {
    var z := Zeros(16 * extra);
    hide Zeros, Stands;
    StandsSplit(b, at, r + z, Zeros(16));
    StandsSplit(b, at, r, z);
  }

  lemma ReserveZeros(b: Bytes, at: nat, reserve: seq<Reserve>, extra: nat)
    requires Stands(b, at, ReserveBytes(reserve) + Zeros(16 * extra) + Zeros(16))
    ensures ReserveLaid(b, at, reserve) && ZeroFrom(b, at + 16 * |reserve|, at + 16 * (|reserve| + extra + 1))
  {
    hide ReserveBytes, Zeros, Stands, ReserveLaid, ZeroFrom;
    ReserveParts(b, at, ReserveBytes(reserve), |reserve|, extra);
    ReserveIsLaid(b, at, reserve);
    var p := at + 16 * |reserve|;
    ZerosStand(b, p, 16 * extra);
    ZerosStand(b, p + 16 * extra, 16);
    ZeroJoin(b, p, p + 16 * extra, p + 16 * extra + 16);
  }

  lemma ZeroJoin(b: Bytes, p: nat, q: nat, r: nat)
    requires ZeroFrom(b, p, q) && ZeroFrom(b, q, r)
    ensures ZeroFrom(b, p, r)
  {
  }

  lemma TreeIsLaid(b: Bytes, d: nat, bi: BootInfo, strs: Bytes, early: bool)
    requires var (tree, s) := NodeBytes(bi.dt, [], 0, [], LayoutOf(early)); Stands(b, d, tree + Word32(END)) && s == strs
    requires |b| < 0x1_0000_0000 && |strs| < 0x1_0000_0000
    ensures var ts := Tokens(bi.dt, [], early);
      && d <= |b| && LaidEnd(0, ts, early) == |NodeBytes(bi.dt, [], 0, [], LayoutOf(early)).0|
      && Laid(b[d..], 0, ts, strs, early) && Stands(b, d + LaidEnd(0, ts, early), END_TAG)
  {
    hide NodeBytes, Tokens, Word32, Laid, LaidEnd;
    var tree := NodeBytes(bi.dt, [], 0, [], LayoutOf(early)).0;
    TagBytes();
    StandsSplit(b, d, tree, Word32(END));
    StandsShift(b, d, 0, tree);
    NodeLaid(b[d..], 0, bi.dt, [], [], strs, early);
  }

  /** Every blob that is written has this format, and its size is what -S and -p ask for. */
  lemma BlobFormat(bi: BootInfo, version: int, extra: nat, minsize: nat, padsize: nat)
    returns (b: Bytes, strSize: nat)
    requires version in {1, 2, 3, 16, 17}
    requires var w := WriteBlob(bi, version, extra, minsize, padsize); w.Some? ==> |w.value| < 0x1_0000_0000
    ensures WriteBlob(bi, version, extra, minsize, padsize) == Some(b)
    ensures BlobLaid(b, bi, version, extra, strSize)
    ensures var used := ReserveOffset(version) + 16 * (|bi.reserve| + extra + 1)
                        + LaidEnd(0, Tokens(bi.dt, [], version < 16), version < 16) + 4 + strSize;
      |b| == if padsize > 0 then used + padsize else if minsize > used then minsize else used
  {
    hide Tokens, Laid, LaidEnd, NodeBytes, Stands, Zeros, ReserveBytes, WordsBytes, HeaderWords, Word32, ZeroFrom, WriteBlob, Pad,
         LayOut, HeaderLaid, ReserveLaid, BlobLaid, ReserveOffset;
    var vi := VersionTable(version).value;
    var o, dt, strs;
    b, o, dt, strs := Written(bi, version, extra, minsize, padsize);
    strSize := |strs|;
    OffsetsAre(vi, 16 * (|bi.reserve| + extra), |dt|, |strs|);
    ReserveZeros(b, o.reserve, bi.reserve, extra);
    TreeIsLaid(b, o.dt, bi, strs, version < 16);
    HeaderIsLaid(b, vi, o, |dt|, |strs|, bi.bootCpuid);
    StandsIs(b, o.strings, strs);
    ZerosStand(b, o.total, |b| - o.total);
    BlobIs(b, bi, version, extra, o, strs);
  }

  lemma BlobIs(b: Bytes, bi: BootInfo, version: int, extra: nat, o: Offsets, strs: Bytes)
    requires var ts := Tokens(bi.dt, [], version < 16);
      && o.reserve == ReserveOffset(version) && o.dt == o.reserve + 16 * (|bi.reserve| + extra + 1)
      && o.strings == o.dt + LaidEnd(0, ts, version < 16) + 4 && o.total == o.strings + |strs| <= |b|
      && b[o.strings..o.strings + |strs|] == strs
      && HeaderLaid(b, version, o.dt, o.strings, |strs|, bi.bootCpuid)
      && ReserveLaid(b, o.reserve, bi.reserve) && ZeroFrom(b, o.reserve + 16 * |bi.reserve|, o.dt)
      && Laid(b[o.dt..], 0, ts, strs, version < 16) && Stands(b, o.dt + LaidEnd(0, ts, version < 16), END_TAG)
      && ZeroFrom(b, o.total, |b|)
    ensures BlobLaid(b, bi, version, extra, |strs|)
  {
    hide Tokens, Laid, LaidEnd, HeaderLaid, ReserveLaid, ZeroFrom, Stands, ReserveOffset;
  }

  lemma StandsIs(b: Bytes, p: nat, s: Bytes)
    requires Stands(b, p, s)
    ensures p + |s| <= |b| && b[p..p + |s|] == s
  {
  }

  lemma OffsetsAre(vi: VersionInfo, reserveSize: nat, dtSize: nat, strSize: nat)
    requires VersionTable(vi.version) == Some(vi)
    ensures vi.layout == LayoutOf(vi.version < 16)
    ensures var o := LayOut(vi, reserveSize, dtSize, strSize);
      && o.reserve == ReserveOffset(vi.version) && o.dt == o.reserve + reserveSize + 16
      && o.strings == o.dt + dtSize && o.total == o.strings + strSize
  {
  }

  // ---------------------------------------------------------------- what is accepted

  lemma FieldIsNumber(b: Bytes, k: nat)
    requires 4 * k + 4 <= |b|
    ensures Field(b, k) == Horner(b[4 * k..4 * k + 4])
  {
    HornerOf4(b[4 * k..4 * k + 4]);
  }

  /** A file is only read as a blob if it begins with the magic bytes, is as long as its header says,
      and has its blocks inside that length; what follows the length is not looked at. */
  lemma ReadBlobChecks(file: Bytes)
    requires ReadBlob(file).Some?
    ensures |file| >= 28 && Stands(file, 0, [0xd0, 0x0d, 0xfe, 0xed])
    ensures var total := Horner(file[4..8]);
      && 28 <= total <= |file| && ReadBlob(file[..total]) == ReadBlob(file)
      && Horner(file[8..12]) < total && Horner(file[12..16]) <= total && Horner(file[16..20]) < total
      && var version := Horner(file[20..24]);
         && (version >= 3 ==> total >= 36 ==> Horner(file[12..16]) + Horner(file[32..36]) <= total)
         && (version >= 17 ==> total >= 40 ==> Horner(file[8..12]) + Horner(file[36..40]) <= total)
  {
    ReadBlobHeader(file);
    hide ReadBlob, Field, Horner, Stands;
    HeaderFields(file);
    assert Field(file, 0) == MAGIC;
    MagicBytes(file);
  }

  lemma HeaderFields(file: Bytes)
    requires |file| >= 28
    ensures NumberAt(file, 0, 4, Field(file, 0))
    ensures Field(file, 1) == Horner(file[4..8]) && Field(file, 2) == Horner(file[8..12]) && Field(file, 3) == Horner(file[12..16])
    ensures Field(file, 4) == Horner(file[16..20]) && Field(file, 5) == Horner(file[20..24])
    ensures |file| >= 36 ==> Field(file, 8) == Horner(file[32..36])
    ensures |file| >= 40 ==> Field(file, 9) == Horner(file[36..40])
  {
    hide Field, Horner;
    FieldIsNumber(file, 0);
    FieldIsNumber(file, 1);
    FieldIsNumber(file, 2);
    FieldIsNumber(file, 3);
    FieldIsNumber(file, 4);
    FieldIsNumber(file, 5);
    if |file| >= 36 { FieldIsNumber(file, 8); }
    if |file| >= 40 { FieldIsNumber(file, 9); }
  }

  lemma FieldsOfPart(file: Bytes, total: nat)
    requires total <= |file|
    ensures forall k: nat :: 4 * k + 4 <= total ==> Field(file[..total], k) == Field(file, k)
  {
    hide FromWord32;
    forall k: nat | 4 * k + 4 <= total
      ensures Field(file[..total], k) == Field(file, k)
    {
      assert file[..total][4 * k..4 * k + 4] == file[4 * k..4 * k + 4];
    }
  }

  /** The part of the file that is read. */
  lemma ReadsPart(file: Bytes)
    requires |file| >= 8 && 28 <= Field(file, 1) <= |file|
    ensures ReadBlob(file[..Field(file, 1)]) == ReadBlob(file)
  {
    var total := Field(file, 1);
    FirstFieldsOfPart(file, total);
    assert file[..total][..total] == file[..total];
    hide ReadParts, Field;
  }

  lemma FirstFieldsOfPart(file: Bytes, total: nat)
    requires 28 <= total <= |file|
    ensures Field(file[..total], 0) == Field(file, 0) && Field(file[..total], 1) == Field(file, 1)
  {
    FieldsOfPart(file, total);
  }

  lemma ReadBlobHeader(file: Bytes)
    requires ReadBlob(file).Some?
    ensures var total := Field(file, 1);
      && Field(file, 0) == MAGIC && 28 <= total <= |file| && ReadBlob(file[..total]) == ReadBlob(file)
      && Field(file, 2) < total && Field(file, 3) <= total && Field(file, 4) < total
      && (Field(file, 5) >= 3 && total >= 36 ==> Field(file, 3) + Field(file, 8) <= total)
      && (Field(file, 5) >= 17 && total >= 40 ==> Field(file, 2) + Field(file, 9) <= total)
  {
    var total := Field(file, 1);
    assert |file| >= 8 && 28 <= total <= |file|;
    FieldsOfPart(file, total);
    ReadsPart(file);
    hide ReadNode, ReadReserve, ReadWord, Field;
  }
}
