/** Token tables, expansion and replacement: what kallsyms' compressed symbols mean. */
module KallsymsTokens {

  newtype Byte = b: int | 0 <= b < 256

  type Symbol = seq<Byte>

  /** best_table with best_table_len: slot c holds nothing, the single character c, or a pair. */
  type Table = t: seq<Symbol> | |t| == 256 witness seq(256, _ => [])

  predicate Real(t: Table, c: Byte) {
    t[c] == [c]
  }

  predicate Token(t: Table, c: Byte) {
    |t[c]| == 2
  }

  /** A token refers to real characters and to tokens in higher slots only. */
  predicate Above(t: Table, c: Byte, x: Byte) {
    Real(t, x) || (Token(t, x) && x > c)
  }

  ghost predicate ValidTable(t: Table) {
    forall c: Byte :: t[c] == [] || Real(t, c) || (Token(t, c) && Above(t, c, t[c][0]) && Above(t, c, t[c][1]))
  }

  /** How deep the table can be nested below slot c. */
  function Rank(t: Table, c: Byte): nat {
    if Token(t, c) then 256 - c as int else 0
  }

  function ExpandByte(t: Table, c: Byte): Symbol
    requires ValidTable(t)
    decreases Rank(t, c)
  {
    if Token(t, c) then ExpandByte(t, t[c][0]) + ExpandByte(t, t[c][1]) else t[c]
  }

  function Expand(t: Table, s: Symbol): Symbol
    requires ValidTable(t)
  {
    if s == [] then [] else ExpandByte(t, s[0]) + Expand(t, s[1..])
  }

  /** Every leftmost, non-overlapping occurrence of the pair a, b replaced by i. */
  function Replace(s: Symbol, a: Byte, b: Byte, i: Byte): (r: Symbol)
    ensures |r| <= |s|
  {
    if |s| < 2 then s
    else if s[0] == a && s[1] == b then [i] + Replace(s[2..], a, b, i)
    else [s[0]] + Replace(s[1..], a, b, i)
  }

  /** All characters of s have an entry in the table. */
  predicate Covered(t: Table, s: Symbol) {
    forall k :: 0 <= k < |s| ==> t[s[k]] != []
  }

  // ---------------------------------------------------------------- replacing, one occurrence at a time

  predicate PairAt(s: Symbol, k: nat, a: Byte, b: Byte) {
    k + 1 < |s| && s[k] == a && s[k + 1] == b
  }

  lemma {:induction false} ReplaceFirst(s: Symbol, q: nat, a: Byte, b: Byte, i: Byte)
    requires PairAt(s, q, a, b) && forall k: nat :: k < q ==> !PairAt(s, k, a, b)
    ensures Replace(s, a, b, i) == s[..q] + [i] + Replace(s[q + 2..], a, b, i)
  {
    if q > 0 {
      assert !PairAt(s, 0, a, b);
      forall k: nat | k < q - 1
        ensures !PairAt(s[1..], k, a, b)
      {
        assert !PairAt(s, k + 1, a, b);
      }
      ReplaceFirst(s[1..], q - 1, a, b, i);
      hide Replace;
      PastFirst(s, q, i, Replace(s[q + 2..], a, b, i));
    }
  }

  lemma PastFirst(s: Symbol, q: nat, i: Byte, more: Symbol)
    requires 0 < q && q + 1 < |s|
    ensures s[1..][q - 1 + 2..] == s[q + 2..]
    ensures [s[0]] + (s[1..][..q - 1] + [i] + more) == s[..q] + [i] + more
  {
    assert s[..q] == [s[0]] + s[1..][..q - 1];
  }

  lemma {:induction false} ReplaceNone(s: Symbol, a: Byte, b: Byte, i: Byte)
    requires forall k: nat :: !PairAt(s, k, a, b)
    ensures Replace(s, a, b, i) == s
  {
    if |s| >= 2 {
      assert !PairAt(s, 0, a, b);
      forall k: nat
        ensures !PairAt(s[1..], k, a, b)
      {
        assert !PairAt(s, k + 1, a, b);
      }
      ReplaceNone(s[1..], a, b, i);
    }
  }

  /** After replacing, no occurrence of the pair is left, if i is a new character. */
  lemma {:induction false} ReplaceLeavesNone(s: Symbol, a: Byte, b: Byte, i: Byte)
    requires i != a && i != b
    ensures forall k: nat :: !PairAt(Replace(s, a, b, i), k, a, b)
    ensures s != [] ==> Replace(s, a, b, i) != [] && (Replace(s, a, b, i)[0] == s[0] || Replace(s, a, b, i)[0] == i)
  {
    if |s| >= 2 {
      var r := Replace(s, a, b, i);
      if PairAt(s, 0, a, b) {
        ReplaceLeavesNone(s[2..], a, b, i);
        assert r[1..] == Replace(s[2..], a, b, i);
      } else {
        ReplaceLeavesNone(s[1..], a, b, i);
        assert r[1..] == Replace(s[1..], a, b, i);
      }
      forall k: nat
        ensures !PairAt(r, k, a, b)
      {
        if k > 0 {
          assert !PairAt(r[1..], k - 1, a, b);
        }
      }
    }
  }

  // ---------------------------------------------------------------- expansion

  lemma {:induction false} ExpandAppend(t: Table, x: Symbol, y: Symbol)
    requires ValidTable(t)
    ensures Expand(t, x + y) == Expand(t, x) + Expand(t, y)
  {
    if x == [] {
      assert x + y == y;
    } else {
      assert (x + y)[1..] == x[1..] + y;
      ExpandAppend(t, x[1..], y);
    }
  }

  /** A new token in an empty slot below all others. */
  ghost predicate Extends(t: Table, t': Table, i: Byte, a: Byte, b: Byte) {
    && t[i] == [] && t' == t[i as int := [a, b]]
    && Above(t, i, a) && Above(t, i, b) && ValidTable(t)
  }

  lemma ExtendedValid(t: Table, t': Table, i: Byte, a: Byte, b: Byte)
    requires Extends(t, t', i, a, b)
    ensures ValidTable(t')
  {
    forall c: Byte
      ensures t'[c] == [] || Real(t', c) || (Token(t', c) && Above(t', c, t'[c][0]) && Above(t', c, t'[c][1]))
    {
      if c != i {
        assert t'[c] == t[c];
      }
    }
  }

  lemma {:induction false} ExtendedByte(t: Table, t': Table, i: Byte, a: Byte, b: Byte, c: Byte)
    requires Extends(t, t', i, a, b) && ValidTable(t') && t[c] != []
    ensures ExpandByte(t', c) == ExpandByte(t, c)
    decreases Rank(t, c)
  {
    assert t'[c] == t[c];
    if Token(t, c) {
      ExtendedByte(t, t', i, a, b, t[c][0]);
      ExtendedByte(t, t', i, a, b, t[c][1]);
    }
  }

  lemma ExpandTwo(t: Table, a: Byte, b: Byte, s: Symbol)
    requires ValidTable(t)
    ensures Expand(t, [a, b] + s) == ExpandByte(t, a) + ExpandByte(t, b) + Expand(t, s)
  {
    assert ([a, b] + s)[1..] == [b] + s && ([b] + s)[1..] == s;
  }

  lemma ExpandOne(t: Table, c: Byte, s: Symbol)
    requires ValidTable(t)
    ensures Expand(t, [c] + s) == ExpandByte(t, c) + Expand(t, s)
  {
    assert ([c] + s)[1..] == s;
  }

  /** What the new slot expands to. */
  lemma ExtendedToken(t: Table, t': Table, i: Byte, a: Byte, b: Byte)
    requires Extends(t, t', i, a, b) && ValidTable(t')
    ensures ExpandByte(t', i) == ExpandByte(t, a) + ExpandByte(t, b)
  {
    ExtendedByte(t, t', i, a, b, a);
    ExtendedByte(t, t', i, a, b, b);
  }

  /** Replacing a pair by the new token for it changes no expansion. */
  lemma {:induction false} ReplaceIsLossless(t: Table, t': Table, s: Symbol, a: Byte, b: Byte, i: Byte)
    requires Extends(t, t', i, a, b) && ValidTable(t') && ValidTable(t) && Covered(t, s)
    ensures Expand(t', Replace(s, a, b, i)) == Expand(t, s)
  {
    hide ValidTable, Extends, ExpandByte;
    if |s| == 1 {
      ExtendedByte(t, t', i, a, b, s[0]);
    } else if |s| >= 2 {
      if s[0] == a && s[1] == b {
        var r := Replace(s[2..], a, b, i);
        ReplaceIsLossless(t, t', s[2..], a, b, i);
        ExtendedToken(t, t', i, a, b);
        assert s == [a, b] + s[2..];
        ExpandTwo(t, a, b, s[2..]);
        ExpandOne(t', i, r);
      } else {
        var r := Replace(s[1..], a, b, i);
        ReplaceIsLossless(t, t', s[1..], a, b, i);
        ExtendedByte(t, t', i, a, b, s[0]);
        ExpandOne(t', s[0], r);
      }
    }
  }

  lemma {:induction false} ReplaceCovered(t: Table, t': Table, s: Symbol, a: Byte, b: Byte, i: Byte)
    requires Extends(t, t', i, a, b) && Covered(t, s)
    ensures Covered(t', Replace(s, a, b, i))
  {
    hide ValidTable;
    if |s| >= 2 {
      if s[0] == a && s[1] == b {
        ReplaceCovered(t, t', s[2..], a, b, i);
      } else {
        ReplaceCovered(t, t', s[1..], a, b, i);
      }
    }
  }

  predicate OccursAt(x: Symbol, s: Symbol, k: nat) {
    k + |x| <= |s| && s[k..k + |x|] == x
  }

  ghost predicate Substring(x: Symbol, s: Symbol) {
    exists k: nat :: OccursAt(x, s, k)
  }

  /** The expansion of two neighbours is a contiguous part of the symbol they stand in. */
  lemma NeighboursExpandInside(t: Table, s: Symbol, k: nat, a: Byte, b: Byte)
    requires ValidTable(t) && PairAt(s, k, a, b)
    ensures Substring(ExpandByte(t, a) + ExpandByte(t, b), Expand(t, s))
  {
    var x := ExpandByte(t, a) + ExpandByte(t, b);
    assert s == s[..k] + ([a, b] + s[k + 2..]);
    ExpandAppend(t, s[..k], [a, b] + s[k + 2..]);
    ExpandAppend(t, [a, b], s[k + 2..]);
    assert [a, b][1..] == [b] && [b][1..] == [];
    assert Expand(t, [a, b]) == x;
    var n := |Expand(t, s[..k])|;
    assert OccursAt(x, Expand(t, s), n);
  }

  // ---------------------------------------------------------------- counting pairs

  /** Index of a pair in token_profit. */
  function PairIndex(a: Byte, b: Byte): (p: nat)
    ensures p < 0x10000
    ensures p % 256 == a as int && p / 256 == b as int
  {
    a as int + (b as int) * 256
  }

  /** Number of adjacent occurrences of pair p. */
  function Count(s: Symbol, p: nat): nat {
    if |s| < 2 then 0
    else Count(s[..|s| - 1], p) + if PairIndex(s[|s| - 2], s[|s| - 1]) == p then 1 else 0
  }

  /** The places where the two bytes stand next to each other. */
  function PlacesOf(s: Symbol, a: Byte, b: Byte): set<nat> {
    set k: nat | k < |s| && PairAt(s, k, a, b)
  }

  /** Every place counts, overlapping ones too. */
  lemma {:induction false} CountIsPlaces(s: Symbol, a: Byte, b: Byte)
    ensures Count(s, PairIndex(a, b)) == |PlacesOf(s, a, b)|
  {
    if |s| >= 2 {
      var n := |s| - 1;
      CountIsPlaces(s[..n], a, b);
      var here := if s[n - 1] == a && s[n] == b then {n - 1} else {};
      assert PlacesOf(s, a, b) == PlacesOf(s[..n], a, b) + here;
      assert PairIndex(s[n - 1], s[n]) == PairIndex(a, b) <==> s[n - 1] == a && s[n] == b;
    } else {
      assert PlacesOf(s, a, b) == {};
    }
  }

  function Total(syms: seq<Symbol>, p: nat): nat {
    if syms == [] then 0 else Total(syms[..|syms| - 1], p) + Count(syms[|syms| - 1], p)
  }

  lemma {:induction false} TotalUpdate(syms: seq<Symbol>, k: nat, s: Symbol, p: nat)
    requires k < |syms|
    ensures Total(syms[k := s], p) == Total(syms, p) - Count(syms[k], p) + Count(s, p)
  {
    var init := syms[..|syms| - 1];
    if k == |syms| - 1 {
      assert syms[k := s][..|syms| - 1] == init;
    } else {
      assert syms[k := s][..|syms| - 1] == init[k := s];
      TotalUpdate(init, k, s, p);
    }
  }

  lemma {:induction false} CountPositive(s: Symbol, p: nat)
    requires Count(s, p) > 0
    ensures exists k: nat :: k + 1 < |s| && PairIndex(s[k], s[k + 1]) == p
  {
    if PairIndex(s[|s| - 2], s[|s| - 1]) != p {
      CountPositive(s[..|s| - 1], p);
      var k: nat :| k + 1 < |s| - 1 && PairIndex(s[..|s| - 1][k], s[..|s| - 1][k + 1]) == p;
      assert PairIndex(s[k], s[k + 1]) == p;
    } else {
      var k := |s| - 2;
      assert PairIndex(s[k], s[k + 1]) == p;
    }
  }

  lemma {:induction false} TotalPositive(syms: seq<Symbol>, p: nat) returns (j: nat, k: nat)
    requires Total(syms, p) > 0
    ensures j < |syms| && k + 1 < |syms[j]| && PairIndex(syms[j][k], syms[j][k + 1]) == p
  {
    var last := syms[|syms| - 1];
    if Count(last, p) > 0 {
      CountPositive(last, p);
      j := |syms| - 1;
      k :| k + 1 < |last| && PairIndex(last[k], last[k + 1]) == p;
    } else {
      j, k := TotalPositive(syms[..|syms| - 1], p);
    }
  }
}
