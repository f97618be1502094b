/** Sorting an exception table in which every word holds the distance from its
    own place to what it refers to. */
module SortExtable {
  import opened Pigeonhole

  const MODULUS: int := 0x1_0000_0000

  type Word = w: int | 0 <= w < MODULUS

  function Wrap(x: int): Word {
    x % MODULUS
  }

  /** A word as a signed number. */
  function Signed(w: Word): int {
    if w < 0x8000_0000 then w else w - MODULUS
  }

  /** The one number of 32 bits with a sign that the word stands for. */
  lemma SignedIs(w: Word, n: int)
    requires -0x8000_0000 <= n < 0x8000_0000
    ensures Signed(w) == n <==> n % MODULUS == w
  {
  }

  /** The place that the i-th word refers to, from the start of the table. */
  function Target(s: seq<Word>, i: nat): Word
    requires i < |s|
  {
    Wrap(s[i] + 4 * i)
  }

  datatype Entry = Entry(insn: Word, fixup: Word)

  function EntryOf(s: seq<Word>, k: nat): Entry
    requires 2 * k + 1 < |s|
  {
    Entry(Target(s, 2 * k), Target(s, 2 * k + 1))
  }

  /** The entries of a table, as the places that they refer to. */
  function Entries(s: seq<Word>): seq<Entry> {
    seq(|s| / 2, k requires 0 <= k < |s| / 2 => EntryOf(s, k))
  }

  predicate Sorted(s: seq<Entry>) {
    forall i, j :: 0 <= i < j < |s| ==> Signed(s[i].insn) <= Signed(s[j].insn)
  }

  predicate Permutation(order: seq<nat>, n: nat) {
    |order| == n && Distinct(order) && InRange(order, n)
  }

  function Reordered(s: seq<Entry>, order: seq<nat>): seq<Entry>
    requires Permutation(order, |s|)
  {
    seq(|s|, i requires 0 <= i < |s| => s[order[i]])
  }

  /** The choices that sorting the entries can make. */
  predicate Sorting(order: seq<nat>, s: seq<Entry>) {
    Permutation(order, |s|) && Sorted(Reordered(s, order))
  }

  /** Where an entry may be put among sorted ones. */
  lemma {:induction false} Slot(r: seq<Entry>, e: Entry) returns (p: nat)
    requires Sorted(r)
    ensures p <= |r|
    ensures forall i :: 0 <= i < p ==> Signed(r[i].insn) <= Signed(e.insn)
    ensures forall i :: p <= i < |r| ==> Signed(e.insn) <= Signed(r[i].insn)
  {
    p := 0;
    while p < |r| && Signed(r[p].insn) <= Signed(e.insn)
      invariant p <= |r| && forall i :: 0 <= i < p ==> Signed(r[i].insn) <= Signed(e.insn)
    {
      p := p + 1;
    }
  }

  lemma Inserted(r: seq<Entry>, e: Entry, p: nat)
    requires Sorted(r) && p <= |r|
    requires forall i :: 0 <= i < p ==> Signed(r[i].insn) <= Signed(e.insn)
    requires forall i :: p <= i < |r| ==> Signed(e.insn) <= Signed(r[i].insn)
    ensures Sorted(r[..p] + [e] + r[p..])
  {
  }

  /** Every table can be sorted. */
  lemma {:induction false} CanBeSorted(s: seq<Entry>)
    ensures exists order :: Sorting(order, s)
  {
    if s == [] {
      assert Sorting([], s);
    } else {
      var last := |s| - 1;
      var init := s[..last];
      CanBeSorted(init);
      var order :| Sorting(order, init);
      var r := Reordered(init, order);
      var p := Slot(r, s[last]);
      Inserted(r, s[last], p);
      var order' := order[..p] + [last] + order[p..];
      assert Permutation(order', |s|) by { hide Sorted; }
      assert Reordered(s, order') == r[..p] + [s[last]] + r[p..] by { hide Sorted; }
      assert Sorting(order', s);
    }
  }

  lemma {:induction false} SameEntries(s: seq<Entry>, order: seq<nat>)
    requires Permutation(order, |s|)
    ensures multiset(Reordered(s, order)) == multiset(s)
    decreases |s|
  {
    if s == [] {
    } else {
      var last := |s| - 1;
      Everywhere(order, |s|, last);
      var j :| 0 <= j < |s| && order[j] == last;
      var fewer := order[..j] + order[j + 1..];
      Without(order, |s|, j);
      SameEntries(s[..last], fewer);
      ReorderedWithout(s, order, j);
      assert s == s[..last] + [s[last]];
    }
  }

  /** Taking the largest number out of a permutation. */
  lemma Without(order: seq<nat>, n: nat, j: nat)
    requires Permutation(order, n) && j < n && order[j] == n - 1
    ensures Permutation(order[..j] + order[j + 1..], n - 1)
  {
  }

  lemma ReorderedWithout(s: seq<Entry>, order: seq<nat>, j: nat)
    requires Permutation(order, |s|) && j < |s| && order[j] == |s| - 1
    requires Permutation(order[..j] + order[j + 1..], |s| - 1)
    ensures multiset(Reordered(s, order)) == multiset(Reordered(s[..|s| - 1], order[..j] + order[j + 1..])) + multiset{s[|s| - 1]}
  {
    var r, f := Reordered(s, order), Reordered(s[..|s| - 1], order[..j] + order[j + 1..]);
    hide Permutation;
    assert f[..j] == r[..j];
    assert f[j..] == r[j + 1..];
    assert r[j] == s[|s| - 1];
    hide Reordered;
    Around(r, f, j);
  }

  lemma Around(r: seq<Entry>, f: seq<Entry>, j: nat)
    requires j < |r| == |f| + 1 && f[..j] == r[..j] && f[j..] == r[j + 1..]
    ensures multiset(r) == multiset(f) + multiset{r[j]}
  {
    assert f == f[..j] + f[j..];
    assert r == r[..j] + ([r[j]] + r[j + 1..]);
  }

  /** Makes every word relative to the start of the table. */
  method Normalize(a: array<Word>)
    modifies a
    ensures forall k :: 0 <= k < a.Length ==> a[k] == Target(old(a[..]), k)
  {
    for i := 0 to a.Length
      invariant forall k :: 0 <= k < i ==> a[k] == Target(old(a[..]), k)
      invariant forall k :: i <= k < a.Length ==> a[k] == old(a[..])[k]
    {
      a[i] := Wrap(a[i] + 4 * i);
    }
  }

  /** Makes every word relative to its own place again. */
  method Denormalize(a: array<Word>)
    modifies a
    ensures forall k :: 0 <= k < a.Length ==> a[k] == Wrap(old(a[..])[k] - 4 * k)
  {
    for i := 0 to a.Length
      invariant forall k :: 0 <= k < i ==> a[k] == Wrap(old(a[..])[k] - 4 * k)
      invariant forall k :: i <= k < a.Length ==> a[k] == old(a[..])[k]
    {
      a[i] := Wrap(a[i] - 4 * i);
    }
  }

  /** The entry of `t` at `i` is the one of `s` at `from`. */
  ghost predicate Moved(t: seq<Word>, s: seq<Word>, i: nat, from: nat) {
    2 * i + 1 < |t| && 2 * from + 1 < |s| && t[2 * i] == s[2 * from] && t[2 * i + 1] == s[2 * from + 1]
  }

  lemma MovedNow(t: seq<Word>, s: seq<Word>, i: nat, from: nat)
    requires 2 * i + 1 < |t| && 2 * from + 1 < |s| && t[2 * i] == s[2 * from] && t[2 * i + 1] == s[2 * from + 1]
    ensures Moved(t, s, i, from)
  {
  }

  lemma MovedStays(t: seq<Word>, s: seq<Word>, i: nat, from: nat, k: nat, x: Word, y: Word)
    requires Moved(t, s, i, from) && i != k && 2 * k + 1 < |t|
    ensures Moved(t[2 * k := x][2 * k + 1 := y], s, i, from)
  {
  }

  /** Puts the entries into the given order. */
  method Reorder(a: array<Word>, order: seq<nat>)
    requires Permutation(order, a.Length / 2)
    modifies a
    ensures forall i :: 0 <= i < a.Length / 2 ==> Moved(a[..], old(a[..]), i, order[i])
    ensures a.Length % 2 == 1 ==> a[a.Length - 1] == old(a[a.Length - 1])
  {
    var copy := a[..];
    hide Moved;
    for k := 0 to a.Length / 2
      invariant forall i :: 0 <= i < k ==> Moved(a[..], copy, i, order[i])
      invariant a.Length % 2 == 1 ==> a[a.Length - 1] == copy[a.Length - 1]
    {
      ghost var t := a[..];
      a[2 * k] := copy[2 * order[k]];
      a[2 * k + 1] := copy[2 * order[k] + 1];
      ghost var x, y := copy[2 * order[k]], copy[2 * order[k] + 1];
      assert a[..] == t[2 * k := x][2 * k + 1 := y];
      MovedNow(a[..], copy, k, order[k]);
      forall i | 0 <= i < k ensures Moved(a[..], copy, i, order[i]) {
        MovedStays(t, copy, i, order[i], k, x, y);
      }
    }
  }

  /** Sorts the table in place. `order` is the outcome of the library's sort on
      the entries once they are relative to the start of the table. Each entry
      keeps what it refers to although every word may change, and the entries
      are in the order of the instructions. */
  method SortRelativeTable(a: array<Word>, order: seq<nat>)
    requires Sorting(order, Entries(a[..]))
    modifies a
    ensures Entries(a[..]) == Reordered(old(Entries(a[..])), order)
    ensures Sorted(Entries(a[..])) && multiset(Entries(a[..])) == multiset(old(Entries(a[..])))
    ensures a.Length % 2 == 1 ==> a[a.Length - 1] == old(a[a.Length - 1])
  {
    ghost var s := a[..];
    SameEntries(Entries(s), order);
    assert Permutation(order, a.Length / 2);
    hide Entries, Reordered, Wrap, Target, EntryOf, Sorted, Permutation, Moved;
    Normalize(a);
    ghost var copy := a[..];
    Reorder(a, order);
    ghost var t := a[..];
    Denormalize(a);
    Restored(s, copy, t, a[..], order);
  }

  lemma WrapBack(x: Word, d: int)
    ensures Wrap(Wrap(x - d) + d) == x && Wrap(Wrap(x + d) - d) == x
  {
  }

  lemma Restored(s: seq<Word>, copy: seq<Word>, t: seq<Word>, r: seq<Word>, order: seq<nat>)
    requires |s| == |copy| == |t| == |r| && Permutation(order, |s| / 2)
    requires forall k :: 0 <= k < |s| ==> copy[k] == Target(s, k)
    requires forall i :: 0 <= i < |s| / 2 ==> Moved(t, copy, i, order[i])
    requires |s| % 2 == 1 ==> t[|s| - 1] == copy[|s| - 1]
    requires forall k :: 0 <= k < |s| ==> r[k] == Wrap(t[k] - 4 * k)
    ensures Entries(r) == Reordered(Entries(s), order)
    ensures |s| % 2 == 1 ==> r[|s| - 1] == s[|s| - 1]
  {
    hide Wrap;
    forall k | 0 <= k < |s| / 2 ensures EntryOf(r, k) == EntryOf(s, order[k]) {
      assert Moved(t, copy, k, order[k]);
      WrapBack(t[2 * k], 4 * (2 * k));
      WrapBack(t[2 * k + 1], 4 * (2 * k + 1));
    }
    if |s| % 2 == 1 {
      WrapBack(s[|s| - 1], 4 * (|s| - 1));
    }
  }
}
