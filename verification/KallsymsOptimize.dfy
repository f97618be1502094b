/** The compression loop of kallsyms over the whole symbol table. */
module KallsymsOptimize {
  import opened KallsymsTokens
  import opened KallsymsCompress

  /** What the table promises about the names it was built from. */
  ghost predicate Lossless(t: Table, contents: seq<Symbol>, names: seq<Symbol>) {
    && |contents| == |names| && ValidTable(t)
    && forall k :: 0 <= k < |names| ==> Covered(t, contents[k]) && Expand(t, contents[k]) == names[k]
  }

  /** Every token stands for a contiguous part of some name. */
  ghost predicate TokensFromNames(t: Table, names: seq<Symbol>) {
    ValidTable(t) &&
    forall c: Byte :: Token(t, c) ==> exists k :: 0 <= k < |names| && Substring(ExpandByte(t, c), names[k])
  }

  /** Slots below i are free or hold real characters, and NUL is not a real character. */
  ghost predicate FreeBelow(t: Table, i: nat) {
    !Real(t, 0) && forall c: Byte :: (c as int) < i ==> !Token(t, c)
  }

  /** The loop stops only when every slot is taken or no two characters stand together any more. */
  ghost predicate Compressed(t: Table, contents: seq<Symbol>) {
    (forall c: Byte :: t[c] != []) || forall p: nat :: p < 0x10000 ==> Total(contents, p) == 0
  }

  /** The pair with a positive count occurs in some symbol: both its characters are in the table,
      neither is NUL, and a token for it may take slot i. */
  lemma BestPairFits(t: Table, contents: seq<Symbol>, names: seq<Symbol>, i: Byte, p: nat) returns (a: Byte, b: Byte)
    requires Lossless(t, contents, names) && FreeBelow(t, i as nat + 1) && t[i] == []
    requires p < 0x10000 && Total(contents, p) > 0
    ensures p == PairIndex(a, b) && a != 0 && b != 0
    ensures Extends(t, t[i as int := [a, b]], i, a, b)
    ensures exists k :: 0 <= k < |names| && Substring(ExpandByte(t, a) + ExpandByte(t, b), names[k])
  {
    var j, k := TotalPositive(contents, p);
    a, b := contents[j][k], contents[j][k + 1];
    assert t[contents[j][k]] != [] && t[contents[j][k + 1]] != [];
    assert PairAt(contents[j], k, a, b);
    NeighboursExpandInside(t, contents[j], k, a, b);
  }

  /** Taking slot i for the pair and replacing it everywhere keeps all promises. */
  lemma SlotTaken(t: Table, contents: seq<Symbol>, contents': seq<Symbol>, names: seq<Symbol>, i: Byte, a: Byte, b: Byte)
    requires Lossless(t, contents, names) && TokensFromNames(t, names) && FreeBelow(t, i as nat + 1)
    requires Extends(t, t[i as int := [a, b]], i, a, b)
    requires exists k :: 0 <= k < |names| && Substring(ExpandByte(t, a) + ExpandByte(t, b), names[k])
    requires |contents'| == |contents|
    requires forall k :: 0 <= k < |contents| ==> contents'[k] == Replace(contents[k], a, b, i)
    ensures var t' := t[i as int := [a, b]];
      Lossless(t', contents', names) && TokensFromNames(t', names) && FreeBelow(t', i as nat)
  {
    var t' := t[i as int := [a, b]];
    ExtendedValid(t, t', i, a, b);
    forall k | 0 <= k < |names|
      ensures Covered(t', contents'[k]) && Expand(t', contents'[k]) == names[k]
    {
      ReplaceIsLossless(t, t', contents[k], a, b, i);
      ReplaceCovered(t, t', contents[k], a, b, i);
    }
    forall c: Byte | Token(t', c)
      ensures exists k :: 0 <= k < |names| && Substring(ExpandByte(t', c), names[k])
    {
      if c == i {
        ExtendedToken(t, t', i, a, b);
      } else {
        assert t[c] == t'[c];
        ExtendedByte(t, t', i, a, b, c);
      }
    }
  }

  // ---------------------------------------------------------------- the choices made

  /** p is the first of the most frequent pairs. */
  ghost predicate First(contents: seq<Symbol>, p: nat, n: nat) {
    && p < n
    && (forall q: nat :: q < n ==> Total(contents, q) <= Total(contents, p))
    && (forall q: nat :: q < p ==> Total(contents, q) < Total(contents, p))
  }

  lemma {:induction false} FirstExists(contents: seq<Symbol>, n: nat)
    requires n > 0
    ensures exists p: nat :: First(contents, p, n)
  {
    hide Total;
    if n == 1 {
      assert First(contents, 0, 1);
    } else {
      FirstExists(contents, n - 1);
      var p: nat :| First(contents, p, n - 1);
      assert First(contents, if Total(contents, n - 1) > Total(contents, p) then n - 1 else p, n);
    }
  }

  lemma FirstIsOne(contents: seq<Symbol>, p: nat, q: nat)
    requires First(contents, p, 0x10000) && First(contents, q, 0x10000)
    ensures p == q
  {
    hide Total;
    assert Total(contents, p) == Total(contents, q);
  }

  ghost function MostFrequent(contents: seq<Symbol>): (p: nat)
    ensures First(contents, p, 0x10000)
  {
    FirstExists(contents, 0x10000);
    var p: nat :| First(contents, p, 0x10000);
    p
  }

  function PairAtSlot(t: Table, i: Byte, p: nat): Table
    requires p < 0x10000
  {
    t[i as int := [(p % 256) as Byte, (p / 256) as Byte]]
  }

  function ReplacedAll(contents: seq<Symbol>, a: Byte, b: Byte, i: Byte): seq<Symbol> {
    seq(|contents|, k requires 0 <= k < |contents| => Replace(contents[k], a, b, i))
  }

  /** Table and symbols when the slots below i have been gone through, from the highest down: each
      free one takes the most frequent pair of what the symbols have become. */
  ghost function Optimized(t: Table, contents: seq<Symbol>, i: nat): (Table, seq<Symbol>)
    requires i <= |t|
    decreases i
  {
    if i == 0 then (t, contents)
    else if t[i - 1] != [] then Optimized(t, contents, i - 1)
    else
      var p := MostFrequent(contents);
      if Total(contents, p) == 0 then (t, contents)
      else
        Optimized(PairAtSlot(t, (i - 1) as Byte, p),
                  ReplacedAll(contents, (p % 256) as Byte, (p / 256) as Byte, (i - 1) as Byte), i - 1)
  }

  /** What holds before each slot, and so of whatever point the loop has reached. */
  ghost predicate Sound(t: Table, contents: seq<Symbol>, names: seq<Symbol>, i: nat) {
    Lossless(t, contents, names) && TokensFromNames(t, names) && FreeBelow(t, i)
  }

  /** A free slot that takes a pair with a positive count keeps all promises. */
  lemma SlotKeeps(t: Table, contents: seq<Symbol>, names: seq<Symbol>, i: Byte, p: nat)
    requires Sound(t, contents, names, i as nat + 1) && t[i] == []
    requires p < 0x10000 && Total(contents, p) > 0
    ensures (p % 256) as Byte != 0 && (p / 256) as Byte != 0
    ensures Sound(PairAtSlot(t, i, p), ReplacedAll(contents, (p % 256) as Byte, (p / 256) as Byte, i), names, i as nat)
  {
    hide Lossless, TokensFromNames, Extends, ValidTable, FreeBelow, Replace;
    var a, b := BestPairFits(t, contents, names, i, p);
    SlotTaken(t, contents, ReplacedAll(contents, a, b, i), names, i, a, b);
  }

  /** Whatever the slots take, the result is lossless, its tokens stand for parts of names, and it
      cannot be compressed any further. */
  lemma {:induction false} OptimizedIsSound(t: Table, contents: seq<Symbol>, names: seq<Symbol>, i: nat)
    requires i <= |t| && Sound(t, contents, names, i)
    requires forall c: Byte :: i <= (c as int) ==> t[c] != []
    ensures var (t', contents') := Optimized(t, contents, i);
      Lossless(t', contents', names) && TokensFromNames(t', names) && Compressed(t', contents')
    decreases i
  {
    hide Lossless, TokensFromNames, Total, ReplacedAll;
    if i == 0 {
    } else if t[i - 1] != [] {
      OptimizedIsSound(t, contents, names, i - 1);
    } else {
      var p := MostFrequent(contents);
      if Total(contents, p) > 0 {
        var slot := (i - 1) as Byte;
        SlotKeeps(t, contents, names, slot, p);
        OptimizedIsSound(PairAtSlot(t, slot, p), ReplacedAll(contents, (p % 256) as Byte, (p / 256) as Byte, slot), names, i - 1);
      }
    }
  }

  lemma Lower(t: Table, contents: seq<Symbol>, names: seq<Symbol>, i: nat)
    requires Sound(t, contents, names, i + 1)
    ensures Sound(t, contents, names, i)
  {
  }

  class Compressor {
    const table: seq<array<Byte>>
    const len: array<nat>
    const best: array<Symbol>
    const profit: array<int>
    ghost var contents: seq<Symbol>

    ghost predicate Shape() {
      && len.Length == |table| && best.Length == 256 && profit.Length == 0x10000
      && forall i, j :: 0 <= i < j < |table| ==> table[i] != table[j]
    }

    /** The buffers hold the symbols in contents, NUL-terminated. */
    ghost predicate Valid()
      reads this, len, table
    {
      && Shape() && |contents| == |table|
      && forall k :: 0 <= k < |table| ==> Terminated(table[k], len[k]) && table[k][..len[k]] == contents[k]
    }

    /** The symbols as they were read, each in a buffer of its own. */
    constructor (table: seq<array<Byte>>, names: seq<Symbol>)
      requires |table| == |names| && forall i, j :: 0 <= i < j < |table| ==> table[i] != table[j]
      requires forall k :: 0 <= k < |table| ==> Terminated(table[k], |names[k]|) && table[k][..|names[k]|] == names[k]
      ensures Valid() && contents == names && this.table == table && fresh(len) && fresh(best) && fresh(profit)
      ensures forall p :: 0 <= p < 0x10000 ==> profit[p] == 0
    {
      this.table, contents := table, names;
      len := new nat[|names|](i requires 0 <= i < |names| => |names[i]|);
      best := new Symbol[256](_ => []);
      profit := new int[0x10000](_ => 0);
    }

    /** token_profit is exact. */
    ghost predicate Counted()
      reads this, profit
    {
      profit.Length == 0x10000 && forall p: nat :: p < 0x10000 ==> profit[p] == Total(contents, p)
    }

    method CompressSymbols(a: Byte, b: Byte, idx: Byte)
      requires Valid() && Counted() && a != 0 && b != 0
      modifies table, len, profit, this`contents
      ensures Valid() && Counted()
      ensures |contents| == |old(contents)|
      ensures forall k :: 0 <= k < |contents| ==> contents[k] == Replace(old(contents)[k], a, b, idx)
    {
      ghost var before := contents;
      var i := 0;
      while i < |table|
        invariant 0 <= i <= |table| && Valid() && Counted() && |contents| == |before|
        invariant forall k :: 0 <= k < i ==> contents[k] == Replace(before[k], a, b, idx)
        invariant forall k :: i <= k < |table| ==> contents[k] == before[k]
      {
        CompressOne(i, a, b, idx);
        i := i + 1;
      }
    }

    method CompressOne(i: nat, a: Byte, b: Byte, idx: Byte)
      requires Valid() && Counted() && a != 0 && b != 0 && i < |table|
      modifies table[i], len, profit, this`contents
      ensures Valid() && Counted()
      ensures contents == old(contents)[i := Replace(old(contents)[i], a, b, idx)]
    {
      var q := FindToken(table[i], 0, len[i], a, b);
      WindowPairs(table[i], 0, len[i], len[i], a, b, q);
      if q < 0 {
        ReplaceNone(contents[i], a, b, idx);
        assert contents == contents[i := contents[i]];
        return;
      }
      ghost var before := contents;
      ForgetSymbol(profit, table[i], len[i]);
      var n := ReplaceAll(table[i], len[i], q, a, b, idx);
      len[i] := n;
      contents := contents[i := Replace(contents[i], a, b, idx)];
      LearnSymbol(profit, table[i], n);
      forall p: nat | p < 0x10000
        ensures profit[p] == Total(contents, p)
      {
        TotalUpdate(before, i, contents[i], p);
      }
    }

    /** One free slot of optimize_result: false when no two characters stand together any more. */
    method TakeSlot(i: Byte, ghost names: seq<Symbol>) returns (more: bool)
      requires Valid() && Counted() && Sound(best[..], contents, names, i as nat + 1) && best[i] == []
      modifies table, len, profit, best, this`contents
      ensures Valid() && Counted()
      ensures more == (Total(old(contents), MostFrequent(old(contents))) > 0)
      ensures !more ==> contents == old(contents) && best[..] == old(best[..])
      ensures more ==>
        var p := MostFrequent(old(contents));
        && best[..] == PairAtSlot(old(best[..]), i, p)
        && contents == ReplacedAll(old(contents), (p % 256) as Byte, (p / 256) as Byte, i)
        && Sound(best[..], contents, names, i as nat)
    {
      hide Total, Sound, Lossless, Replace;
      var p := FindBestToken(profit);
      FirstIsOne(contents, p, MostFrequent(contents));
      if profit[p] == 0 {
        return false;
      }
      ghost var t, symbols := best[..], contents;
      SlotKeeps(t, symbols, names, i, p);
      best[i] := [(p % 256) as Byte, (p / 256) as Byte];
      assert best[..] == PairAtSlot(t, i, p);
      CompressSymbols(best[i][0], best[i][1], i);
      assert contents == ReplacedAll(symbols, (p % 256) as Byte, (p / 256) as Byte, i);
      more := true;
    }

    /** optimize_result. */
    method OptimizeResult(ghost names: seq<Symbol>)
      requires Valid() && Counted() && Sound(best[..], contents, names, 256)
      modifies table, len, profit, best, this`contents
      ensures Valid() && Counted()
      ensures (best[..], contents) == Optimized(old(best[..]), old(contents), |old(best[..])|)
      ensures Lossless(best[..], contents, names) && TokensFromNames(best[..], names)
      ensures Compressed(best[..], contents)
    {
      hide Sound, Lossless, TokensFromNames, Compressed, PairAtSlot, ReplacedAll, Total, MostFrequent;
      OptimizedIsSound(best[..], contents, names, |best[..]|);
      ghost var end := Optimized(best[..], contents, |best[..]|);
      var i := 256;
      while i > 0
        invariant 0 <= i <= 256 && Valid() && Counted() && Sound(best[..], contents, names, i)
        invariant Optimized(best[..], contents, i) == end
      {
        i := i - 1;
        if best[i] == [] {
          var more := TakeSlot(i as Byte, names);
          if !more {
            return;
          }
        } else {
          Lower(best[..], contents, names, i);
        }
      }
    }

    /** insert_real_symbols_in_table: one slot for each character in use. */
    method InsertRealSymbols()
      requires Valid()
      modifies best
      ensures forall c: Byte :: best[c] == if Used(contents, c) then [c] else []
    {
      forall c | 0 <= c < 256 {
        best[c] := [];
      }
      var i := 0;
      while i < |table|
        invariant 0 <= i <= |table| && Valid()
        invariant forall c: Byte :: best[c] == if Used(contents[..i], c) then [c] else []
      {
        ghost var s := contents[i];
        assert contents[..i + 1] == contents[..i] + [s];
        var j := 0;
        while j < len[i]
          invariant 0 <= j <= len[i] && Valid() && s == contents[i]
          invariant forall c: Byte :: best[c] == if Used(contents[..i], c) || c in s[..j] then [c] else []
        {
          var c := table[i][j];
          assert s[..j + 1] == s[..j] + [c] && c == s[j];
          best[c] := [c];
          j := j + 1;
        }
        assert s[..j] == s;
        UsedSnoc(contents[..i], s);
        i := i + 1;
      }
      assert contents[..i] == contents;
    }

    /** build_initial_tok_table, for a table of valid symbols. */
    method BuildInitialCounts()
      requires Valid() && forall p :: 0 <= p < 0x10000 ==> profit[p] == 0
      modifies profit
      ensures Valid() && Counted()
    {
      var i := 0;
      while i < |table|
        invariant 0 <= i <= |table| && Valid()
        invariant forall p: nat :: p < 0x10000 ==> profit[p] == Total(contents[..i], p)
      {
        assert contents[..i + 1][..i] == contents[..i];
        LearnSymbol(profit, table[i], len[i]);
        i := i + 1;
      }
      assert contents[..i] == contents;
    }

    /** optimize_token_table: false when there is no symbol at all.  Afterwards expanding each
        compressed symbol gives back its name, every token stands for part of a name, and the pair
        counts are exact. */
    method OptimizeTokenTable() returns (ok: bool)
      requires Valid() && forall p :: 0 <= p < 0x10000 ==> profit[p] == 0
      requires forall k :: 0 <= k < |contents| ==> 0 !in contents[k]
      modifies table, len, profit, best, this`contents
      ensures ok == (|table| > 0)
      ensures ok ==>
        && Valid() && Counted()
        && Lossless(best[..], contents, old(contents)) && TokensFromNames(best[..], old(contents))
        && Compressed(best[..], contents)
    {
      BuildInitialCounts();
      InsertRealSymbols();
      if |table| == 0 {
        return false;
      }
      RealTable(best[..], contents);
      OptimizeResult(contents);
      ok := true;
    }

    /** expand_symbol: write the expansion of data to the buffer at from and terminate it. */
    method ExpandSymbol(data: Symbol, result: array<Byte>, from: nat) returns (total: nat)
      requires best.Length == 256 && ValidTable(best[..])
      requires from + |Expand(best[..], data)| < result.Length
      modifies result
      ensures total == |Expand(best[..], data)|
      ensures result[..from + total] == old(result[..from]) + Expand(best[..], data) && result[from + total] == 0
      decreases Height(best[..], data), if data == [] then 0 else 2
    {
      hide ValidTable, ExpandByte, Height, Rank;
      total := 0;
      var n := 0;
      assert data[..0] == [];
      while n < |data|
        invariant 0 <= n <= |data| && total == |Expand(best[..], data[..n])| <= |Expand(best[..], data)|
        invariant result[..from + total] == old(result[..from]) + Expand(best[..], data[..n])
      {
        ExpandNext(best[..], data, n);
        HeightAt(best[..], data, n);
        var rlen := ExpandCode(data[n], result, from + total);
        total := total + rlen;
        n := n + 1;
      }
      assert data[..n] == data;
      result[from + total] := 0;
    }

    /** One character of expand_symbol's input. */
    method ExpandCode(c: Byte, result: array<Byte>, from: nat) returns (rlen: nat)
      requires best.Length == 256 && ValidTable(best[..])
      requires from + |ExpandByte(best[..], c)| < result.Length
      modifies result
      ensures rlen == |ExpandByte(best[..], c)|
      ensures result[..from + rlen] == old(result[..from]) + ExpandByte(best[..], c)
      decreases Rank(best[..], c), 1
    {
      hide ValidTable, Height, Rank;
      SlotExpansion(best[..], c);
      if best[c] == [c] {
        result[from] := c;
        rlen := 1;
      } else {
        HeightBelow(best[..], c);
        rlen := ExpandSymbol(best[c], result, from);
      }
    }
  }

  ghost predicate Used(syms: seq<Symbol>, c: Byte) {
    exists k :: 0 <= k < |syms| && c in syms[k]
  }

  lemma UsedSnoc(syms: seq<Symbol>, s: Symbol)
    ensures forall c: Byte :: Used(syms + [s], c) == (Used(syms, c) || c in s)
  {
    forall c: Byte
      ensures Used(syms + [s], c) == (Used(syms, c) || c in s)
    {
      if Used(syms, c) {
        var k :| 0 <= k < |syms| && c in syms[k];
        assert c in (syms + [s])[k];
      }
      if c in s {
        assert c in (syms + [s])[|syms|];
      }
    }
  }

  /** A table of real characters only expands every symbol to itself. */
  lemma RealTable(t: Table, names: seq<Symbol>)
    requires forall c: Byte :: t[c] == if Used(names, c) then [c] else []
    requires forall k :: 0 <= k < |names| ==> 0 !in names[k]
    ensures Sound(t, names, names, 256)
  {
    assert ValidTable(t);
    forall k | 0 <= k < |names|
      ensures Covered(t, names[k]) && Expand(t, names[k]) == names[k]
    {
      forall j | 0 <= j < |names[k]|
        ensures t[names[k][j]] == [names[k][j]]
      {
        assert Used(names, names[k][j]);
      }
      ExpandReal(t, names[k]);
    }
  }

  lemma {:induction false} ExpandReal(t: Table, s: Symbol)
    requires ValidTable(t) && forall j :: 0 <= j < |s| ==> Real(t, s[j])
    ensures Expand(t, s) == s
  {
    if s != [] {
      ExpandReal(t, s[1..]);
    }
  }

  /** The greatest rank among the characters of s. */
  function Height(t: Table, s: Symbol): nat {
    if s == [] then 0 else if Rank(t, s[0]) >= Height(t, s[1..]) then Rank(t, s[0]) else Height(t, s[1..])
  }

  lemma {:induction false} HeightAt(t: Table, s: Symbol, n: nat)
    requires n < |s|
    ensures Rank(t, s[n]) <= Height(t, s)
  {
    if n > 0 {
      HeightAt(t, s[1..], n - 1);
    }
  }

  /** What a slot holds is of lower rank than the slot. */
  lemma HeightBelow(t: Table, c: Byte)
    requires ValidTable(t) && t[c] != [c]
    ensures if t[c] == [] then Height(t, t[c]) <= Rank(t, c) else Height(t, t[c]) < Rank(t, c)
  {
    var x := t[c];
    if x != [] {
      assert Rank(t, x[0]) < Rank(t, c) && Rank(t, x[1]) < Rank(t, c);
      assert x[1..] == [x[1]] && [x[1]][1..] == [];
      assert Height(t, x[1..]) == Rank(t, x[1]);
    }
  }

  lemma ExpandNext(t: Table, s: Symbol, n: nat)
    requires ValidTable(t) && n < |s|
    ensures Expand(t, s[..n + 1]) == Expand(t, s[..n]) + ExpandByte(t, s[n])
    ensures |Expand(t, s[..n + 1])| <= |Expand(t, s)|
  {
    assert s[..n + 1] == s[..n] + [s[n]];
    ExpandAppend(t, s[..n], [s[n]]);
    assert s == s[..n + 1] + s[n + 1..];
    ExpandAppend(t, s[..n + 1], s[n + 1..]);
  }

  /** Expanding what a slot holds is expanding the slot. */
  lemma SlotExpansion(t: Table, c: Byte)
    requires ValidTable(t)
    ensures if t[c] == [c] then ExpandByte(t, c) == [c] else Expand(t, t[c]) == ExpandByte(t, c)
  {
    if Token(t, c) {
      var x := t[c];
      assert x == [x[0], x[1]] + [];
      ExpandTwo(t, x[0], x[1], []);
    }
  }
}
