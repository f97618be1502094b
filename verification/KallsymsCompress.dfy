/** kallsyms' table compression, working in place on the symbol buffers and the pair counts. */
module KallsymsCompress {
  import opened KallsymsTokens

  /** find_token: the first occurrence of the pair in the window of size bytes at from, or -1. */
  method FindToken(buf: array<Byte>, from: nat, size: nat, a: Byte, b: Byte) returns (q: int)
    requires from + size <= buf.Length
    ensures q == -1 || (from <= q && q + 1 < from + size && buf[q] == a && buf[q + 1] == b)
    ensures forall k :: from <= k < (if q < 0 then from + size - 1 else q) ==> !(buf[k] == a && buf[k + 1] == b)
  {
    var i := 0;
    while i < size - 1
      invariant 0 <= i && (if size > 0 then i <= size - 1 else i == 0)
      invariant forall k :: from <= k < from + i ==> !(buf[k] == a && buf[k + 1] == b)
    {
      if buf[from + i] == a && buf[from + i + 1] == b {
        return from + i;
      }
      i := i + 1;
    }
    q := -1;
  }

  /** memmove(p, p + 1, size). */
  method ShiftDown(buf: array<Byte>, p: nat, size: nat)
    requires p + size < buf.Length
    modifies buf
    ensures forall j :: 0 <= j < buf.Length ==>
      buf[j] == if p <= j < p + size then old(buf[j + 1]) else old(buf[j])
  {
    forall j | p <= j < p + size {
      buf[j] := buf[j + 1];
    }
  }

  /** The bytes after the symbol are NUL. */
  predicate Terminated(buf: array<Byte>, len: nat)
    reads buf
  {
    len < buf.Length && forall j :: len <= j < buf.Length ==> buf[j] == 0
  }

  /** One replacement: the pair at q becomes idx and size bytes after it move down; the window
      ends behind the symbol, in NULs. */
  method ReplaceOne(buf: array<Byte>, len: nat, q: nat, size: nat, idx: Byte)
    requires Terminated(buf, len) && q + 1 < len <= q + 1 + size < buf.Length
    modifies buf
    ensures Terminated(buf, len - 1)
    ensures buf[..q + 1] == old(buf[..q]) + [idx] && buf[q + 1..len - 1] == old(buf[q + 2..len])
  {
    ghost var was := buf[..];
    buf[q] := idx;
    ShiftDown(buf, q + 1, size);
    MovedDown(was, buf[..], len, q, idx);
  }

  lemma MovedDown(was: seq<Byte>, now: seq<Byte>, len: nat, q: nat, idx: Byte)
    requires q + 1 < len <= |was| == |now|
    requires (forall j :: 0 <= j < q ==> now[j] == was[j]) && now[q] == idx
    requires forall j :: q + 1 <= j < len - 1 ==> now[j] == was[j + 1]
    ensures now[..q + 1] == was[..q] + [idx] && now[q + 1..len - 1] == was[q + 2..len]
  {
  }

  /** A window that starts in the symbol and runs over its end into NULs holds no pair the symbol
      itself does not hold. */
  lemma WindowPairs(buf: array<Byte>, p1: nat, len: nat, size: nat, a: Byte, b: Byte, q: int)
    requires Terminated(buf, len) && p1 <= len <= p1 + size <= buf.Length && a != 0 && b != 0
    requires q == -1 || (p1 <= q && q + 1 < p1 + size && buf[q] == a && buf[q + 1] == b)
    requires forall k :: p1 <= k < (if q < 0 then p1 + size - 1 else q) ==> !(buf[k] == a && buf[k + 1] == b)
    ensures q >= 0 ==> q + 1 < len && PairAt(buf[p1..len], q - p1, a, b)
    ensures forall k: nat :: (q >= 0 ==> k < q - p1) ==> !PairAt(buf[p1..len], k, a, b)
  {
    forall k: nat | q >= 0 ==> k < q - p1
      ensures !PairAt(buf[p1..len], k, a, b)
    {
      if p1 + k + 1 < len {
        assert !(buf[p1 + k] == a && buf[p1 + k + 1] == b);
      }
    }
  }

  /** The part before an occurrence at q, and the part after it. */
  lemma CutAt(s: seq<Byte>, p1: nat, q: nat, len: nat, idx: Byte, more: Symbol)
    requires p1 <= q && q + 2 <= len <= |s|
    ensures s[p1..len][q - p1 + 2..] == s[q + 2..len]
    ensures s[..p1] + (s[p1..len][..q - p1] + [idx] + more) == s[..q] + [idx] + more
  {
    assert s[..p1] + s[p1..len][..q - p1] == s[..q];
  }

  /** The part of compress_symbols that rewrites one symbol, given its first occurrence q0.  The
      window it searches keeps its end while the symbol shrinks; the bytes it runs over are NUL,
      which no token contains. */
  method ReplaceAll(buf: array<Byte>, len0: nat, q0: nat, a: Byte, b: Byte, idx: Byte) returns (len: nat)
    requires Terminated(buf, len0) && a != 0 && b != 0
    requires PairAt(buf[..len0], q0, a, b) && forall k: nat :: k < q0 ==> !PairAt(buf[..len0], k, a, b)
    modifies buf
    ensures Terminated(buf, len) && buf[..len] == Replace(old(buf[..len0]), a, b, idx)
    ensures len < len0
  {
    hide Replacing, Replaced;
    ghost var s := buf[..len0];
    len := len0;
    var p1, size, q: int := 0, len0, q0;
    ReplacingStarts(buf, len0, q0, a, b, idx);
    while q >= 0
      invariant 0 <= p1 <= len <= len0 == p1 + size && (len == len0 ==> q >= 0)
      invariant if q >= 0 then Replacing(buf, s, p1, size, len, q, a, b, idx) else Replaced(buf, s, len, a, b, idx)
      decreases len - p1, q
    {
      ReplacingInside(buf, s, p1, size, len, q, a, b, idx);
      var next := ReplaceRound(buf, s, p1, size, len, q, a, b, idx);
      size := size - (q + 1 - p1);
      p1 := q + 1;
      len := len - 1;
      q := next;
    }
    ReplacedIs(buf, s, len, a, b, idx);
  }

  /** The window begins at p1 and ends in NULs behind the symbol; q is the first pair in it. */
  ghost predicate Replacing(buf: array<Byte>, s: Symbol, p1: int, size: int, len: int, q: int, a: Byte, b: Byte, idx: Byte)
    reads buf
  {
    && 0 <= p1 <= q && q + 1 < len <= p1 + size < buf.Length && Terminated(buf, len)
    && PairAt(buf[p1..len], q - p1, a, b)
    && (forall k: nat :: k < q - p1 ==> !PairAt(buf[p1..len], k, a, b))
    && Replace(s, a, b, idx) == buf[..p1] + Replace(buf[p1..len], a, b, idx)
  }

  ghost predicate Replaced(buf: array<Byte>, s: Symbol, len: int, a: Byte, b: Byte, idx: Byte)
    reads buf
  {
    0 <= len && Terminated(buf, len) && Replace(s, a, b, idx) == buf[..len]
  }

  lemma ReplacingStarts(buf: array<Byte>, len: nat, q: nat, a: Byte, b: Byte, idx: Byte)
    requires Terminated(buf, len)
    requires PairAt(buf[..len], q, a, b) && forall k: nat :: k < q ==> !PairAt(buf[..len], k, a, b)
    ensures Replacing(buf, buf[..len], 0, len, len, q, a, b, idx)
  {
    hide Replace;
    assert buf[0..len] == buf[..len] && buf[..0] == [];
  }

  lemma ReplacingInside(buf: array<Byte>, s: Symbol, p1: int, size: int, len: int, q: int, a: Byte, b: Byte, idx: Byte)
    requires Replacing(buf, s, p1, size, len, q, a, b, idx)
    ensures 0 <= p1 <= q && q + 1 < len <= p1 + size
  {
  }

  lemma ReplacedIs(buf: array<Byte>, s: Symbol, len: int, a: Byte, b: Byte, idx: Byte)
    requires Replaced(buf, s, len, a, b, idx)
    ensures 0 <= len && Terminated(buf, len) && buf[..len] == Replace(s, a, b, idx)
  {
  }

  /** One round of the loop: one replacement, and the next pair in what is left of the window. */
  method ReplaceRound(buf: array<Byte>, ghost s: Symbol, p1: nat, size: nat, len: nat, q: nat, a: Byte, b: Byte, idx: Byte)
    returns (next: int)
    requires Replacing(buf, s, p1, size, len, q, a, b, idx) && a != 0 && b != 0
    modifies buf
    ensures if next >= 0 then Replacing(buf, s, q + 1, size - (q + 1 - p1), len - 1, next, a, b, idx)
            else Replaced(buf, s, len - 1, a, b, idx)
  {
    hide Replace, Terminated;
    var rest := size - (q + 1 - p1);
    ReplaceNext(buf, len, p1, q, rest, a, b, idx);
    next := -1;
    if rest >= 2 {
      next := FindToken(buf, q + 1, rest, a, b);
      WindowPairs(buf, q + 1, len - 1, rest, a, b, next);
    }
    if next < 0 {
      ReplaceNone(buf[q + 1..len - 1], a, b, idx);
      Rejoined(buf[..], q + 1, len - 1);
    }
  }

  /** What is done and what replacing the rest would give stay the same. */
  method ReplaceNext(buf: array<Byte>, len: nat, ghost p1: nat, q: nat, size: nat, ghost a: Byte, ghost b: Byte, idx: Byte)
    requires Terminated(buf, len) && p1 <= q && q + 1 < len <= q + 1 + size < buf.Length
    requires PairAt(buf[p1..len], q - p1, a, b) && forall k: nat :: k < q - p1 ==> !PairAt(buf[p1..len], k, a, b)
    modifies buf
    ensures Terminated(buf, len - 1)
    ensures buf[..q + 1] + Replace(buf[q + 1..len - 1], a, b, idx) == old(buf[..p1] + Replace(buf[p1..len], a, b, idx))
  {
    hide Replace, Terminated;
    ghost var rest := buf[p1..len];
    ReplaceFirst(rest, q - p1, a, b, idx);
    CutAt(buf[..], p1, q, len, idx, Replace(rest[q - p1 + 2..], a, b, idx));
    ReplaceOne(buf, len, q, size, idx);
  }

  lemma Rejoined(s: seq<Byte>, k: nat, len: nat)
    requires k <= len <= |s|
    ensures s[..k] + s[k..len] == s[..len]
  {
  }

  // ---------------------------------------------------------------- pair counts

  /** The number of pairs in a symbol of n characters, and of characters in the first i pairs. */
  function Pairs(n: nat): nat {
    if n == 0 then 0 else n - 1
  }

  function Seen(i: nat): nat {
    if i == 0 then 0 else i + 1
  }

  lemma CountStep(s: Symbol, i: nat)
    requires i + 1 < |s|
    ensures forall p: nat ::
      Count(s[..Seen(i + 1)], p) == Count(s[..Seen(i)], p) + if PairIndex(s[i], s[i + 1]) == p then 1 else 0
  {
    assert s[..i + 2][..i + 1] == s[..i + 1];
  }

  /** learn_symbol. */
  method LearnSymbol(profit: array<int>, buf: array<Byte>, len: nat)
    requires profit.Length == 0x10000 && len <= buf.Length
    modifies profit
    ensures forall p: nat :: p < 0x10000 ==> profit[p] == old(profit[p]) + Count(old(buf[..len]), p)
  {
    ghost var s := buf[..len];
    var i := 0;
    while i < len - 1
      invariant 0 <= i <= Pairs(len) && buf[..len] == s
      invariant forall p: nat :: p < 0x10000 ==> profit[p] == old(profit[p]) + Count(s[..Seen(i)], p)
    {
      var p := PairIndex(buf[i], buf[i + 1]);
      CountStep(s, i);
      profit[p] := profit[p] + 1;
      i := i + 1;
    }
    assert s[..Seen(i)] == s || |s| == 1;
  }

  /** forget_symbol. */
  method ForgetSymbol(profit: array<int>, buf: array<Byte>, len: nat)
    requires profit.Length == 0x10000 && len <= buf.Length
    modifies profit
    ensures forall p: nat :: p < 0x10000 ==> profit[p] == old(profit[p]) - Count(old(buf[..len]), p)
  {
    ghost var s := buf[..len];
    var i := 0;
    while i < len - 1
      invariant 0 <= i <= Pairs(len) && buf[..len] == s
      invariant forall p: nat :: p < 0x10000 ==> profit[p] == old(profit[p]) - Count(s[..Seen(i)], p)
    {
      var p := PairIndex(buf[i], buf[i + 1]);
      CountStep(s, i);
      profit[p] := profit[p] - 1;
      i := i + 1;
    }
    assert s[..Seen(i)] == s || |s| == 1;
  }

  /** find_best_token: the first pair with the greatest count. */
  method FindBestToken(profit: array<int>) returns (best: nat)
    requires profit.Length == 0x10000 && forall p :: 0 <= p < 0x10000 ==> profit[p] >= 0
    ensures best < 0x10000 && forall p :: 0 <= p < 0x10000 ==> profit[p] <= profit[best]
    ensures forall p :: 0 <= p < best ==> profit[p] < profit[best]
  {
    best := 0;
    var bestprofit := -10000;
    var i := 0;
    while i < 0x10000
      invariant 0 <= i <= 0x10000 && best < 0x10000
      invariant i == 0 ==> bestprofit == -10000
      invariant i > 0 ==> best < i && bestprofit == profit[best]
      invariant forall p :: 0 <= p < i ==> profit[p] <= bestprofit
      invariant forall p :: 0 <= p < best && i > 0 ==> profit[p] < bestprofit
    {
      if profit[i] > bestprofit {
        best := i;
        bestprofit := profit[i];
      }
      i := i + 1;
    }
  }
}
