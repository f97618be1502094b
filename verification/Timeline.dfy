/** setTimelineRows: packing the entries of a timeline into rows without overlap. */
module Timeline {
  import opened Pigeonhole

  datatype Span = Span(start: real, end: real)

  /** The overlap test, a against the entry b already in the row. */
  predicate Overlap(a: Span, b: Span) {
    !((a.start <= b.start && a.end <= b.start) || (a.start >= b.end && a.end >= b.end))
  }

  predicate Inside(t: real, a: Span) {
    a.start < t < a.end
  }

  /** Two spans overlap exactly when there is a time inside both. */
  lemma OverlapIsShared(a: Span, b: Span)
    requires a.start < a.end && b.start < b.end
    ensures Overlap(a, b) <==> exists t: real :: Inside(t, a) && Inside(t, b)
  {
    if Overlap(a, b) {
      var from := if a.start < b.start then b.start else a.start;
      var to := if a.end < b.end then a.end else b.end;
      var t := (from + to) / 2.0;
      assert Inside(t, a) && Inside(t, b);
    }
  }

  /** A packing made by going through the keys once for each row: row tells the row of each key that
      has one, the others are at -1. */
  ghost predicate Packed<K(!new)>(spans: map<K, Span>, keys: seq<K>, row: map<K, int>)
  {
    && (forall k :: k in keys ==> k in spans && k in row)
    && (forall i, j :: 0 <= i < j < |keys| && row[keys[i]] == row[keys[j]] >= 0 ==> !Overlap(spans[keys[j]], spans[keys[i]]))
  }

  /** In row r some entry before position j overlaps entry j. */
  ghost predicate Blocked<K(!new)>(spans: map<K, Span>, keys: seq<K>, row: map<K, int>, j: nat, r: int)
    requires j < |keys| && forall k :: k in keys ==> k in spans && k in row
  {
    exists i :: 0 <= i < j && row[keys[i]] == r && Overlap(spans[keys[j]], spans[keys[i]])
  }

  ghost predicate Used<K(!new)>(row: map<K, int>, r: int) {
    exists k :: k in row && row[k] == r
  }

  /** After the rows below r have been filled: who is placed, and why the others are not. */
  ghost predicate Filled<K(!new)>(spans: map<K, Span>, keys: seq<K>, row: map<K, int>, r: nat) {
    && row.Keys == spans.Keys && Packed(spans, keys, row)
    && (forall k :: k in row ==> -1 <= row[k] < r)
    && (forall q :: 0 <= q < r ==> Used(row, q))
    && (forall j, q :: 0 <= j < |keys| && 0 <= q < (if row[keys[j]] < 0 then r else row[keys[j]]) ==>
          Blocked(spans, keys, row, j, q))
  }

  ghost function Unplaced<K(!new)>(row: map<K, int>): set<K> {
    set k | k in row && row[k] < 0
  }

  lemma NoneFilled<K(!new)>(spans: map<K, Span>, keys: seq<K>, row: map<K, int>)
    requires row.Keys == spans.Keys && (forall k :: k in row ==> row[k] == -1) && forall k :: k in keys ==> k in spans
    ensures Filled(spans, keys, row, 0) && Unplaced(row) == spans.Keys
    ensures |spans.Keys| == |spans|
  {
  }

  class Timeline<K(==,!new)> {
    const spans: map<K, Span>
    var row: map<K, int>

    constructor (spans: map<K, Span>)
      ensures this.spans == spans
    {
      this.spans := spans;
      row := map[];
    }

    ghost predicate Keyed(sortedkeys: seq<K>) {
      Distinct(sortedkeys) && forall k :: k in sortedkeys <==> k in spans
    }

    /** Every entry gets one row, no two entries of a row overlap, no row is left empty, and an entry
        is kept out of each lower row by an earlier entry it overlaps there. */
    method SetTimelineRows(sortedkeys: seq<K>) returns (rows: nat)
      requires Keyed(sortedkeys)
      modifies this
      ensures Filled(spans, sortedkeys, row, rows) && Unplaced(row) == {}
    {
      hide Filled, Unplaced;
      row := map k | k in spans :: -1;
      var remaining := |spans|;
      rows := 0;
      NoneFilled(spans, sortedkeys, row);
      while remaining > 0
        invariant Filled(spans, sortedkeys, row, rows) && remaining == |Unplaced(row)|
      {
        var placed := FillRow(sortedkeys, rows);
        remaining := remaining - placed;
        rows := rows + 1;
      }
    }

    /** One pass over the keys for row r: everything that overlaps nothing already there goes in. */
    method FillRow(sortedkeys: seq<K>, r: nat) returns (placed: nat)
      requires Keyed(sortedkeys) && Filled(spans, sortedkeys, row, r) && Unplaced(row) != {}
      modifies this
      ensures Filled(spans, sortedkeys, row, r + 1)
      ensures placed > 0 && |Unplaced(row)| == |Unplaced(old(row))| - placed
    {
      hide Filling, Filled, Packed, Blocked, Overlap, Unplaced;
      placed := 0;
      var rowdata: seq<K> := [];
      ghost var before := row;
      FillingStarts(spans, sortedkeys, row, r);
      var n := 0;
      while n < |sortedkeys|
        invariant 0 <= n <= |sortedkeys| && row.Keys == spans.Keys && Filling(spans, sortedkeys, before, row, r, n)
        invariant forall k :: k in rowdata <==> k in row && row[k] == r
        invariant if placed == 0 then row == before else rowdata != []
        invariant |Unplaced(row)| == |Unplaced(before)| - placed
      {
        var item := sortedkeys[n];
        if row[item] < 0 {
          var valid := FitsRow(item, rowdata);
          if valid {
            UnplacedOne(row, item, r);
            PlaceKeeps(spans, sortedkeys, before, row, r, n);
            rowdata := rowdata + [item];
            row := row[item := r];
            placed := placed + 1;
          } else {
            ghost var other :| other in rowdata && Overlap(spans[item], spans[other]);
            SkipKeeps(spans, sortedkeys, before, row, r, n, other);
          }
        } else {
          PassKeeps(spans, sortedkeys, before, row, r, n);
        }
        n := n + 1;
      }
      if placed == 0 {
        SomethingFits(spans, sortedkeys, row, r);
      }
      FilledNext(spans, sortedkeys, before, row, r, rowdata[0]);
    }

    /** The inner loop: does the entry overlap nothing in the row. */
    method FitsRow(item: K, rowdata: seq<K>) returns (valid: bool)
      requires item in spans && forall k :: k in rowdata ==> k in spans
      ensures valid <==> forall k :: k in rowdata ==> !Overlap(spans[item], spans[k])
    {
      var i := 0;
      while i < |rowdata|
        invariant 0 <= i <= |rowdata|
        invariant forall j :: 0 <= j < i ==> !Overlap(spans[item], spans[rowdata[j]])
      {
        if Overlap(spans[item], spans[rowdata[i]]) {
          return false;
        }
        i := i + 1;
      }
      valid := true;
    }
  }

  /** In the middle of the pass for row r, with the first n keys seen. */
  ghost predicate Filling<K(!new)>(spans: map<K, Span>, keys: seq<K>, before: map<K, int>, row: map<K, int>, r: nat, n: nat) {
    && Distinct(keys) && n <= |keys| && (forall k :: k in keys <==> k in spans)
    && Filled(spans, keys, before, r)
    && row.Keys == spans.Keys && Packed(spans, keys, row)
    && (forall k :: k in row ==> row[k] == before[k] || (row[k] == r && before[k] < 0))
    && (forall j :: n <= j < |keys| ==> row[keys[j]] == before[keys[j]])
    && (forall j :: 0 <= j < n && row[keys[j]] < 0 ==> Blocked(spans, keys, row, j, r))
  }

  lemma UnplacedOne<K(!new)>(row: map<K, int>, item: K, r: nat)
    requires item in row && row[item] < 0
    ensures |Unplaced(row[item := r])| == |Unplaced(row)| - 1
  {
    assert Unplaced(row[item := r]) == Unplaced(row) - {item};
  }

  lemma FillingStarts<K(!new)>(spans: map<K, Span>, keys: seq<K>, row: map<K, int>, r: nat)
    requires Distinct(keys) && (forall k :: k in keys <==> k in spans) && Filled(spans, keys, row, r)
    ensures row.Keys == spans.Keys && (forall k :: k in row ==> row[k] < r) && Filling(spans, keys, row, row, r, 0)
  {
    hide Packed, Blocked;
  }

  /** The first entry without a row meets an empty row. */
  lemma SomethingFits<K(!new)>(spans: map<K, Span>, keys: seq<K>, row: map<K, int>, r: nat)
    requires Filling(spans, keys, row, row, r, |keys|)
    ensures Unplaced(row) == {}
  {
    hide Packed;
  }

  lemma PassKeeps<K(!new)>(spans: map<K, Span>, keys: seq<K>, before: map<K, int>, row: map<K, int>, r: nat, n: nat)
    requires Filling(spans, keys, before, row, r, n) && n < |keys| && keys[n] in row && row[keys[n]] >= 0
    ensures Filling(spans, keys, before, row, r, n + 1)
  {
    hide Packed, Blocked, Filled;
  }

  lemma PackedPlace<K(!new)>(spans: map<K, Span>, keys: seq<K>, row: map<K, int>, r: nat, n: nat)
    requires Distinct(keys) && Packed(spans, keys, row) && n < |keys|
    requires forall j :: n < j < |keys| ==> row[keys[j]] != r
    requires forall i :: 0 <= i < n && row[keys[i]] == r ==> !Overlap(spans[keys[n]], spans[keys[i]])
    ensures Packed(spans, keys, row[keys[n] := r])
  {
    hide Overlap;
    var row' := row[keys[n] := r];
    forall i, j | 0 <= i < j < |keys| && row'[keys[i]] == row'[keys[j]] >= 0
      ensures !Overlap(spans[keys[j]], spans[keys[i]])
    {
      assert i != n && (j == n || row[keys[j]] == row'[keys[j]]) && row[keys[i]] == row'[keys[i]];
    }
  }

  lemma PlaceKeeps<K(!new)>(spans: map<K, Span>, keys: seq<K>, before: map<K, int>, row: map<K, int>, r: nat, n: nat)
    requires Filling(spans, keys, before, row, r, n) && n < |keys| && keys[n] in row && row[keys[n]] < 0
    requires row.Keys == spans.Keys && forall k :: k in row && row[k] == r ==> !Overlap(spans[keys[n]], spans[k])
    ensures Filling(spans, keys, before, row[keys[n] := r], r, n + 1)
  {
    hide Packed, Overlap, Blocked;
    assert Filled(spans, keys, before, r) && forall k :: k in before ==> before[k] < r;
    hide Filled;
    var row' := row[keys[n] := r];
    forall j | n < j < |keys|
      ensures row[keys[j]] < r
    {
      assert keys[j] in before;
    }
    assert forall i :: 0 <= i < |keys| ==> keys[i] in row;
    PackedPlace(spans, keys, row, r, n);
    forall j | 0 <= j < n && row'[keys[j]] < 0
      ensures Blocked(spans, keys, row', j, r)
    {
      BlockedStays(spans, keys, row, row', j, r);
    }
  }

  lemma SkipKeeps<K(!new)>(
      spans: map<K, Span>, keys: seq<K>, before: map<K, int>, row: map<K, int>, r: nat, n: nat, other: K)
    requires Filling(spans, keys, before, row, r, n) && n < |keys| && keys[n] in row && row[keys[n]] < 0
    requires other in row && row[other] == r && Overlap(spans[keys[n]], spans[other])
    ensures Filling(spans, keys, before, row, r, n + 1)
  {
    hide Packed, Overlap;
    assert other in keys;
    var i :| 0 <= i < |keys| && keys[i] == other;
    assert before[keys[i]] < r;
    assert i < n;
    assert Blocked(spans, keys, row, n, r);
  }

  /** Placing more entries unblocks none. */
  lemma BlockedStays<K(!new)>(spans: map<K, Span>, keys: seq<K>, row: map<K, int>, row': map<K, int>, j: nat, r: int)
    requires j < |keys| && (forall k :: k in keys ==> k in spans && k in row && k in row')
    requires forall k :: k in row && row[k] >= 0 ==> k in row' && row'[k] == row[k]
    requires r >= 0 && Blocked(spans, keys, row, j, r)
    ensures Blocked(spans, keys, row', j, r)
  {
    hide Overlap;
    var i :| 0 <= i < j && row[keys[i]] == r && Overlap(spans[keys[j]], spans[keys[i]]);
    assert keys[i] in row && row'[keys[i]] == r;
  }

  lemma FilledNext<K(!new)>(spans: map<K, Span>, keys: seq<K>, before: map<K, int>, row: map<K, int>, r: nat, first: K)
    requires Filling(spans, keys, before, row, r, |keys|) && first in row && row[first] == r
    ensures Filled(spans, keys, row, r + 1)
  {
    hide Packed, Overlap;
    forall q | 0 <= q < r + 1
      ensures Used(row, q)
    {
      if q == r {
        assert row[first] == q;
      } else {
        assert Used(before, q);
        var k :| k in before && before[k] == q;
        assert row[k] == q;
      }
    }
    hide Blocked;
    forall j, q | 0 <= j < |keys| && 0 <= q < (if row[keys[j]] < 0 then r + 1 else row[keys[j]])
      ensures Blocked(spans, keys, row, j, q)
    {
      assert keys[j] in row;
      if q < r {
        assert before[keys[j]] < 0 || before[keys[j]] == row[keys[j]];
        BlockedStays(spans, keys, before, row, j, q);
      }
    }
  }

  // ---------------------------------------------------------------- fewest rows

  /** Keys in order of their start, and no entry that ends before it starts. */
  predicate Chronological<K>(spans: map<K, Span>, keys: seq<K>)
    requires forall k :: k in keys ==> k in spans
  {
    && (forall k :: k in keys ==> spans[k].start <= spans[k].end)
    && (forall i, j :: 0 <= i < j < |keys| ==> spans[keys[i]].start <= spans[keys[j]].start)
  }

  /** Any two of these entries overlap. */
  ghost predicate Clique<K(!new)>(spans: map<K, Span>, ks: set<K>)
    requires ks <= spans.Keys
  {
    forall a, b :: a in ks && b in ks && a != b ==> Overlap(spans[a], spans[b])
  }

  /** Entries, one from each row below r, that all reach over the start of entry j. */
  lemma {:induction false} Blockers<K(!new)>(spans: map<K, Span>, keys: seq<K>, row: map<K, int>, rows: nat, j: nat, r: nat)
    returns (ks: set<K>)
    requires Filled(spans, keys, row, rows) && Distinct(keys) && (forall k :: k in keys ==> k in spans)
    requires Chronological(spans, keys) && j < |keys| && row[keys[j]] >= r
    ensures |ks| == r && ks <= spans.Keys && Clique(spans, ks)
    ensures forall k :: k in ks ==>
      row[k] < r && Overlap(spans[keys[j]], spans[k])
      && spans[k].start <= spans[keys[j]].start < spans[k].end
  {
    if r == 0 {
      ks := {};
    } else {
      var rest := Blockers(spans, keys, row, rows, j, r - 1);
      assert Blocked(spans, keys, row, j, r - 1);
      var i :| 0 <= i < j && row[keys[i]] == r - 1 && Overlap(spans[keys[j]], spans[keys[i]]);
      assert spans[keys[i]].start <= spans[keys[j]].start;
      assert keys[j] in keys && keys[i] in keys;
      ks := rest + {keys[i]};
    }
  }

  /** When the keys are in chronological order, some set of as many entries as there are rows overlaps
      pairwise: no packing can do with fewer. */
  lemma RowsAreNeeded<K(!new)>(spans: map<K, Span>, keys: seq<K>, row: map<K, int>, rows: nat) returns (ks: set<K>)
    requires Filled(spans, keys, row, rows) && Distinct(keys) && (forall k :: k in keys <==> k in spans)
    requires Chronological(spans, keys)
    ensures |ks| == rows && ks <= spans.Keys && Clique(spans, ks)
  {
    if rows == 0 {
      ks := {};
    } else {
      assert Used(row, rows - 1);
      var k :| k in row && row[k] == rows - 1;
      assert k in keys;
      var j :| 0 <= j < |keys| && keys[j] == k;
      var rest := Blockers(spans, keys, row, rows, j, rows - 1);
      hide Filled, Chronological, Clique;
      ks := rest + {k};
      CliquePlus(spans, rest, k);
    }
  }

  /** An entry that overlaps all entries of a clique joins it. */
  lemma CliquePlus<K(!new)>(spans: map<K, Span>, ks: set<K>, k: K)
    requires ks <= spans.Keys && Clique(spans, ks) && k in spans && spans[k].start <= spans[k].end
    requires forall a :: a in ks ==> Overlap(spans[k], spans[a]) && spans[a].start <= spans[k].start < spans[a].end
    ensures Clique(spans, ks + {k})
  {
  }

  /** A set of values below n has at most n members. */
  lemma {:induction false} Below(ns: set<int>, n: nat)
    requires forall x :: x in ns ==> 0 <= x < n
    ensures |ns| <= n
  {
    if n > 0 {
      Below(ns - {n - 1}, n - 1);
    } else {
      assert forall x :: x !in ns;
      assert ns == {};
    }
  }

  lemma {:induction false} InjectiveImage<K(!new)>(ks: set<K>, f: map<K, int>)
    requires forall k :: k in ks ==> k in f
    requires forall a, b :: a in ks && b in ks && a != b ==> f[a] != f[b]
    ensures |set k | k in ks :: f[k]| == |ks|
  {
    if ks != {} {
      var k :| k in ks;
      InjectiveImage(ks - {k}, f);
      assert (set x | x in ks :: f[x]) == (set x | x in ks - {k} :: f[x]) + {f[k]};
    }
  }

  /** setTimelineRows uses the fewest rows: every assignment of rows without overlap, however it is
      found, uses at least as many. */
  lemma FewestRows<K(!new)>(
      spans: map<K, Span>, keys: seq<K>, row: map<K, int>, rows: nat, other: map<K, int>, otherRows: nat)
    requires Filled(spans, keys, row, rows) && Distinct(keys) && (forall k :: k in keys <==> k in spans)
    requires Chronological(spans, keys)
    requires other.Keys == spans.Keys && forall k :: k in other ==> 0 <= other[k] < otherRows
    requires forall a, b :: a in spans && b in spans && a != b && other[a] == other[b] ==> !Overlap(spans[a], spans[b])
    ensures rows <= otherRows
  {
    var ks := RowsAreNeeded(spans, keys, row, rows);
    InjectiveImage(ks, other);
    Below(set k | k in ks :: other[k], otherRows);
  }
}
