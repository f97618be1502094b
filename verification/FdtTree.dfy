/** Live device trees and the byte strings they are made of. */
module FdtTree {
  newtype Byte = b: int | 0 <= b < 256

  type Bytes = seq<Byte>

  /** Contents of a C string: no NUL inside. */
  predicate Str(s: Bytes) {
    0 !in s
  }

  datatype Label = Label(name: Bytes, deleted: bool)

  /** A property; its labels name places in the source and are not part of its value. */
  datatype Property = Property(name: Bytes, val: Bytes, labels: seq<Label>, deleted: bool)

  datatype Node = Node(name: Bytes, props: seq<Property>, children: seq<Node>, labels: seq<Label>, deleted: bool)

  const SLASH: Byte := 47
  const AT: Byte := 64

  function Zeros(n: nat): (z: Bytes)
    ensures |z| == n && forall k :: 0 <= k < n ==> z[k] == 0
  {
    seq(n, _ => 0)
  }

  /** Bytes needed to bring pos to a multiple of a. */
  function Pad(pos: nat, a: nat): (n: nat)
    requires a == 4 || a == 8
    ensures (pos + n) % a == 0 && n < a
    ensures pos % a == 0 ==> n == 0
  {
    Padded(pos, 4);
    Padded(pos, 8);
    if a == 4 then (4 - pos % 4) % 4 else (8 - pos % 8) % 8
  }

  lemma Padded(pos: nat, a: nat)
    requires a == 4 || a == 8
    ensures var n := (a - pos % a) % a;
      (pos + n) % a == 0 && n < a && (pos % a == 0 ==> n == 0)
  {
    if a == 4 {
      PaddedTo4(pos, pos / 4, pos % 4);
    } else {
      PaddedTo8(pos, pos / 8, pos % 8);
    }
  }

  lemma PaddedTo4(pos: nat, q: nat, r: nat)
    requires pos == 4 * q + r && r < 4
    ensures pos % 4 == r && (pos + (4 - r) % 4) % 4 == 0
  {
  }

  lemma PaddedTo8(pos: nat, q: nat, r: nat)
    requires pos == 8 * q + r && r < 8
    ensures pos % 8 == r && (pos + (8 - r) % 8) % 8 == 0
  {
  }

  // ---------------------------------------------------------------- paths and base names

  /** join_path. */
  function Join(path: Bytes, name: Bytes): Bytes {
    if path != [] && path[|path| - 1] == SLASH then path + name else path + [SLASH] + name
  }

  /** basenamelen: up to the first '@', or all of the name. */
  function BaseLength(name: Bytes): (n: nat)
    ensures n <= |name|
  {
    if name == [] || name[0] == AT then 0 else 1 + BaseLength(name[1..])
  }

  // ---------------------------------------------------------------- big-endian words

  type Word = w: int | 0 <= w < 0x1_0000_0000
  type Double = d: int | 0 <= d < 0x1_0000_0000_0000_0000

  function Word32(w: Word): (s: Bytes)
    ensures |s| == 4
  {
    [(w / 0x100_0000) as Byte, (w / 0x1_0000 % 0x100) as Byte, (w / 0x100 % 0x100) as Byte, (w % 0x100) as Byte]
  }

  function FromWord32(s: Bytes): (w: Word)
    requires |s| == 4
  {
    s[0] as int * 0x100_0000 + s[1] as int * 0x1_0000 + s[2] as int * 0x100 + s[3] as int
  }

  lemma Word32Back(w: Word)
    ensures FromWord32(Word32(w)) == w
  {
    var a, b := w / 0x100, w / 0x1_0000;
    assert w == a * 0x100 + w % 0x100;
    assert a / 0x100 == b && a == b * 0x100 + a % 0x100;
    assert b / 0x100 == w / 0x100_0000 && b == b / 0x100 * 0x100 + b % 0x100;
  }

  function Word64(d: Double): (s: Bytes)
    ensures |s| == 8
  {
    Word32(d / 0x1_0000_0000) + Word32(d % 0x1_0000_0000)
  }

  function FromWord64(s: Bytes): (d: Double)
    requires |s| == 8
  {
    FromWord32(s[..4]) * 0x1_0000_0000 + FromWord32(s[4..])
  }

  lemma Word64Back(d: Double)
    ensures FromWord64(Word64(d)) == d
  {
    var s := Word64(d);
    assert s[..4] == Word32(d / 0x1_0000_0000) && s[4..] == Word32(d % 0x1_0000_0000);
    Word32Back(d / 0x1_0000_0000);
    Word32Back(d % 0x1_0000_0000);
  }

  // ---------------------------------------------------------------- bytes in place

  /** s stands in f at position p. */
  predicate Stands(f: Bytes, p: nat, s: Bytes) {
    p + |s| <= |f| && f[p..p + |s|] == s
  }

  lemma StandsSplit(f: Bytes, p: nat, x: Bytes, y: Bytes)
    ensures Stands(f, p, x + y) <==> Stands(f, p, x) && Stands(f, p + |x|, y)
  {
    if p + |x| + |y| <= |f| {
      var z := f[p..p + |x| + |y|];
      assert z[..|x|] == f[p..p + |x|] && z[|x|..] == f[p + |x|..p + |x| + |y|];
      assert z == z[..|x|] + z[|x|..];
      assert (x + y)[..|x|] == x && (x + y)[|x|..] == y;
    }
  }
}
