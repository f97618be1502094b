/** Property values that are still being put together: bytes, and markers in a
    list of their own that point between the bytes. The bytes end up as the value
    of a property of the tree. */
module FdtMarkers {
  import opened FdtTree

  datatype Kind = RefPhandle | RefPath | LabelMark

  datatype Marker = Marker(offset: nat, kind: Kind, ref: Bytes)

  /** A value as it is meant: bytes with markers in between. */
  datatype Piece = Data(byte: Byte) | Mark(kind: Kind, ref: Bytes)

  function Val(pieces: seq<Piece>): Bytes {
    if pieces == [] then [] else
      var last := pieces[|pieces| - 1];
      Val(pieces[..|pieces| - 1]) + (if last.Data? then [last.byte] else [])
  }

  function Marks(pieces: seq<Piece>): seq<Marker> {
    if pieces == [] then [] else
      var init, last := pieces[..|pieces| - 1], pieces[|pieces| - 1];
      Marks(init) + (if last.Mark? then [Marker(|Val(init)|, last.kind, last.ref)] else [])
  }

  function Plain(t: Bytes): (p: seq<Piece>)
    ensures |p| == |t|
  {
    seq(|t|, i requires 0 <= i < |t| => Data(t[i]))
  }

  function Moved(ms: seq<Marker>, d: nat): (r: seq<Marker>)
    ensures |r| == |ms|
  {
    seq(|ms|, i requires 0 <= i < |ms| => ms[i].(offset := ms[i].offset + d))
  }

  // ------------------------------------------------------------------------
  // Putting values together
  // ------------------------------------------------------------------------

  lemma {:induction false} ValJoin(a: seq<Piece>, b: seq<Piece>)
    ensures Val(a + b) == Val(a) + Val(b)
  {
    if b == [] {
      assert a + b == a;
    } else {
      ValJoin(a, b[..|b| - 1]);
      assert (a + b)[..|a + b| - 1] == a + b[..|b| - 1];
    }
  }

  lemma MovedJoin(a: seq<Marker>, b: seq<Marker>, d: nat)
    ensures Moved(a + b, d) == Moved(a, d) + Moved(b, d)
  {
  }

  lemma {:induction false} MarksJoin(a: seq<Piece>, b: seq<Piece>)
    ensures Marks(a + b) == Marks(a) + Moved(Marks(b), |Val(a)|)
  {
    if b == [] {
      assert a + b == a;
    } else {
      var init, last := b[..|b| - 1], b[|b| - 1];
      MarksJoin(a, init);
      ValJoin(a, init);
      assert (a + b)[..|a + b| - 1] == a + init;
      hide Val;
      var one := if last.Mark? then [Marker(|Val(init)|, last.kind, last.ref)] else [];
      MovedJoin(Marks(init), one, |Val(a)|);
    }
  }

  lemma {:induction false} BytesOnly(t: Bytes)
    ensures Val(Plain(t)) == t && Marks(Plain(t)) == []
  {
    if t != [] {
      BytesOnly(t[..|t| - 1]);
      assert Plain(t)[..|t| - 1] == Plain(t[..|t| - 1]);
    }
  }

  lemma OnePiece(p: Piece)
    ensures Val([p]) == if p.Data? then [p.byte] else []
    ensures Marks([p]) == if p.Data? then [] else [Marker(0, p.kind, p.ref)]
  {
    assert [p][..0] == [];
    assert Val([]) == [] && Marks([]) == [];
  }

  /** The marker that a piece leads to, after `n` bytes. */
  function MarkerOf(p: Piece, n: nat): seq<Marker> {
    if p.Mark? then [Marker(n, p.kind, p.ref)] else []
  }

  /** What one more piece and some bytes add. */
  lemma Appended(a: seq<Piece>, last: Piece, t: Bytes)
    ensures Val(a + ([last] + Plain(t))) == Val(a) + (Val([last]) + t)
    ensures Marks(a + ([last] + Plain(t))) == Marks(a) + MarkerOf(last, |Val(a)|)
  {
    OnePiece(last);
    hide Val, Marks, Plain;
    BytesOnly(t);
    ValJoin([last], Plain(t));
    MarksJoin([last], Plain(t));
    assert Marks([last] + Plain(t)) == MarkerOf(last, 0);
    ValJoin(a, [last] + Plain(t));
    MarksJoin(a, [last] + Plain(t));
  }

  /** Markers in order, none beyond the end. */
  predicate Ordered(val: Bytes, ms: seq<Marker>) {
    && (forall i, j :: 0 <= i < j < |ms| ==> ms[i].offset <= ms[j].offset)
    && (forall i :: 0 <= i < |ms| ==> ms[i].offset <= |val|)
  }

  lemma {:induction false} PiecesOrdered(p: seq<Piece>)
    ensures Ordered(Val(p), Marks(p))
  {
    if p != [] {
      PiecesOrdered(p[..|p| - 1]);
    }
  }

  /** The pieces of a value. */
  function Weave(val: Bytes, ms: seq<Marker>): seq<Piece>
    decreases |ms|
  {
    if ms == [] then Plain(val) else
      var last := ms[|ms| - 1];
      if last.offset <= |val| then
        Weave(val[..last.offset], ms[..|ms| - 1]) + ([Mark(last.kind, last.ref)] + Plain(val[last.offset..]))
      else []
  }

  lemma {:induction false} WeaveKeeps(val: Bytes, ms: seq<Marker>)
    requires Ordered(val, ms)
    ensures Val(Weave(val, ms)) == val && Marks(Weave(val, ms)) == ms
    decreases |ms|
  {
    hide Val, Marks, Weave, Ordered;
    if ms == [] {
      WeaveNone(val);
    } else {
      OrderedInit(val, ms);
      WeaveKeeps(val[..ms[|ms| - 1].offset], ms[..|ms| - 1]);
      WeaveLast(val, ms);
      Rejoined(val, ms[|ms| - 1].offset);
      Rejoined(ms, |ms| - 1);
    }
  }

  lemma WeaveNone(val: Bytes)
    ensures Val(Weave(val, [])) == val && Marks(Weave(val, [])) == []
  {
    hide Val, Marks;
    BytesOnly(val);
  }

  lemma OrderedInit(val: Bytes, ms: seq<Marker>)
    requires ms != [] && Ordered(val, ms)
    ensures ms[|ms| - 1].offset <= |val| && Ordered(val[..ms[|ms| - 1].offset], ms[..|ms| - 1])
  {
  }

  lemma Rejoined<T>(s: seq<T>, k: nat)
    requires k <= |s|
    ensures s[..k] + s[k..] == s && |s[..k]| == k
    ensures k == |s| - 1 ==> s[k..] == [s[k]]
  {
  }

  lemma WeaveLast(val: Bytes, ms: seq<Marker>)
    requires ms != [] && Ordered(val, ms)
    ensures var last := ms[|ms| - 1];
      var init := Weave(val[..last.offset], ms[..|ms| - 1]);
      && Val(Weave(val, ms)) == Val(init) + val[last.offset..]
      && (|Val(init)| == last.offset ==> Marks(Weave(val, ms)) == Marks(init) + [last])
  {
    hide Plain, Val, Marks;
    var last := ms[|ms| - 1];
    var m := Mark(last.kind, last.ref);
    Appended(Weave(val[..last.offset], ms[..|ms| - 1]), m, val[last.offset..]);
    OnePiece(m);
    assert [] + val[last.offset..] == val[last.offset..];
  }

  /** Bytes and markers make up a value exactly if the markers are in order and
      none is beyond the end. */
  lemma ValuesAreOrdered(val: Bytes, ms: seq<Marker>)
    ensures Ordered(val, ms) <==> exists p: seq<Piece> :: Val(p) == val && Marks(p) == ms
  {
    if Ordered(val, ms) {
      WeaveKeeps(val, ms);
    } else {
      forall p: seq<Piece> | Val(p) == val ensures Marks(p) != ms {
        PiecesOrdered(p);
      }
    }
  }

  // ------------------------------------------------------------------------
  // Filling in paths
  // ------------------------------------------------------------------------

  /** What is put behind a marker: the path and a zero byte behind a reference
      to a path that can be resolved. */
  function Filling(p: Piece, paths: map<Bytes, Bytes>): Bytes {
    if p.Mark? && p.kind.RefPath? && p.ref in paths then paths[p.ref] + [0] else []
  }

  function Filled(pieces: seq<Piece>, paths: map<Bytes, Bytes>): seq<Piece> {
    if pieces == [] then [] else
      var last := pieces[|pieces| - 1];
      Filled(pieces[..|pieces| - 1], paths) + ([last] + Plain(Filling(last, paths)))
  }

  /** The references to paths that cannot be resolved. */
  function Unresolved(pieces: seq<Piece>, paths: map<Bytes, Bytes>): seq<Bytes> {
    if pieces == [] then [] else
      var last := pieces[|pieces| - 1];
      Unresolved(pieces[..|pieces| - 1], paths)
      + (if last.Mark? && last.kind.RefPath? && last.ref !in paths then [last.ref] else [])
  }

  /** A piece of data is in the filled value where it was, but for the paths
      filled in before it. */
  function Shift(pieces: seq<Piece>, paths: map<Bytes, Bytes>): nat {
    if pieces == [] then 0 else
      Shift(pieces[..|pieces| - 1], paths) + |Filling(pieces[|pieces| - 1], paths)|
  }

  lemma {:induction false} FilledJoin(a: seq<Piece>, b: seq<Piece>, paths: map<Bytes, Bytes>)
    ensures Filled(a + b, paths) == Filled(a, paths) + Filled(b, paths)
  {
    if b == [] {
      assert a + b == a;
      assert Filled(b, paths) == [];
    } else {
      hide Filled, WithFilling;
      var init := b[..|b| - 1];
      FilledJoin(a, init, paths);
      assert (a + b)[..|a + b| - 1] == a + init;
      FilledSnoc(a + b, paths);
      FilledSnoc(b, paths);
      Regrouped(Filled(a, paths), Filled(init, paths), WithFilling(b[|b| - 1], paths));
    }
  }

  function WithFilling(p: Piece, paths: map<Bytes, Bytes>): seq<Piece> {
    [p] + Plain(Filling(p, paths))
  }

  lemma FilledSnoc(p: seq<Piece>, paths: map<Bytes, Bytes>)
    requires p != []
    ensures Filled(p, paths) == Filled(p[..|p| - 1], paths) + WithFilling(p[|p| - 1], paths)
  {
    hide Filling, Plain;
  }

  lemma Regrouped(a: seq<Piece>, b: seq<Piece>, c: seq<Piece>)
    ensures (a + b) + c == a + (b + c)
  {
  }

  lemma {:induction false} UnresolvedJoin(a: seq<Piece>, b: seq<Piece>, paths: map<Bytes, Bytes>)
    ensures Unresolved(a + b, paths) == Unresolved(a, paths) + Unresolved(b, paths)
  {
    if b == [] {
      assert a + b == a;
    } else {
      UnresolvedJoin(a, b[..|b| - 1], paths);
      assert (a + b)[..|a + b| - 1] == a + b[..|b| - 1];
    }
  }

  lemma MarksLast(p: seq<Piece>)
    requires p != []
    ensures Marks(p) == Marks(p[..|p| - 1]) + MarkerOf(p[|p| - 1], |Val(p[..|p| - 1])|)
    ensures |Val(p)| == |Val(p[..|p| - 1])| + |Val([p[|p| - 1]])|
  {
    OnePiece(p[|p| - 1]);
  }

  lemma FilledLast(p: seq<Piece>, paths: map<Bytes, Bytes>)
    requires p != []
    ensures
      var init, last := Filled(p[..|p| - 1], paths), p[|p| - 1];
      && Marks(Filled(p, paths)) == Marks(init) + MarkerOf(last, |Val(init)|)
      && |Val(Filled(p, paths))| == |Val(init)| + |Val([last])| + |Filling(last, paths)|
  {
    hide Val, Marks, Plain, Filling;
    var last := p[|p| - 1];
    Appended(Filled(p[..|p| - 1], paths), last, Filling(last, paths));
  }

  lemma {:induction false} FilledLength(p: seq<Piece>, paths: map<Bytes, Bytes>)
    ensures |Val(Filled(p, paths))| == |Val(p)| + Shift(p, paths)
  {
    if p != [] {
      hide Val, Marks, Filling, Plain, Filled;
      FilledLength(p[..|p| - 1], paths);
      FilledLast(p, paths);
      MarksLast(p);
    } else {
      assert Filled([], paths) == [];
    }
  }

  /** Every marker moves by the length of the paths filled in behind the markers
      before it, and keeps its place in the list. */
  lemma {:induction false} MarkersMove(p: seq<Piece>, paths: map<Bytes, Bytes>)
    ensures |Marks(Filled(p, paths))| == |Marks(p)|
    ensures forall i :: 0 <= i < |Marks(p)| ==>
      Marks(Filled(p, paths))[i] == Marks(p)[i].(offset := Marks(p)[i].offset + ShiftAt(p, paths, i))
  {
    MoveByShifts(p, paths);
  }

  ghost predicate MovedByShifts(p: seq<Piece>, paths: map<Bytes, Bytes>) {
    && |Marks(Filled(p, paths))| == |Marks(p)|
    && forall i :: 0 <= i < |Marks(p)| ==>
         Marks(Filled(p, paths))[i] == Marks(p)[i].(offset := Marks(p)[i].offset + ShiftAt(p, paths, i))
  }

  lemma {:induction false} MoveByShifts(p: seq<Piece>, paths: map<Bytes, Bytes>)
    ensures MovedByShifts(p, paths)
  {
    hide MovedByShifts;
    if p == [] {
      NoneMove(paths);
    } else {
      MoveByShifts(p[..|p| - 1], paths);
      OneMoreMoves(p, paths);
    }
  }

  lemma NoneMove(paths: map<Bytes, Bytes>)
    ensures MovedByShifts([], paths)
  {
    assert Filled([], paths) == [];
  }

  lemma OneMoreMoves(p: seq<Piece>, paths: map<Bytes, Bytes>)
    requires p != [] && MovedByShifts(p[..|p| - 1], paths)
    ensures MovedByShifts(p, paths)
  {
    hide Val, Marks, Filling, Filled, Shift, ShiftAt;
    FilledLength(p[..|p| - 1], paths);
    FilledLast(p, paths);
    MarksLast(p);
    forall i | 0 <= i < |Marks(p)|
      ensures Marks(Filled(p, paths))[i] == Marks(p)[i].(offset := Marks(p)[i].offset + ShiftAt(p, paths, i))
    {
      ShiftAtIs(p, paths, i);
    }
  }

  /** How far the i-th marker moves. */
  function ShiftAt(p: seq<Piece>, paths: map<Bytes, Bytes>, i: nat): nat
    requires i < |Marks(p)|
  {
    var init := p[..|p| - 1];
    if i < |Marks(init)| then ShiftAt(init, paths, i) else Shift(init, paths)
  }

  lemma ShiftAtIs(p: seq<Piece>, paths: map<Bytes, Bytes>, i: nat)
    requires p != [] && i < |Marks(p)|
    ensures ShiftAt(p, paths, i) ==
      if i < |Marks(p[..|p| - 1])| then ShiftAt(p[..|p| - 1], paths, i) else Shift(p[..|p| - 1], paths)
  {
    hide Marks, Shift;
  }

  /** Behind the marker of a reference that can be resolved stands the path with a terminating zero,
      where the marker is now; around it stands what is made of the pieces before and behind. */
  lemma PathBehindMarker(p: seq<Piece>, paths: map<Bytes, Bytes>, k: nat)
    requires k < |p| && p[k].Mark? && p[k].kind.RefPath? && p[k].ref in paths
    ensures var before := Val(Filled(p[..k], paths));
      && Val(Filled(p, paths)) == before + (paths[p[k].ref] + [0] + Val(Filled(p[k + 1..], paths)))
      && Stands(Val(Filled(p, paths)), |before|, paths[p[k].ref] + [0])
  {
    var a, b := p[..k], p[k + 1..];
    var path := paths[p[k].ref] + [0];
    FilledAroundMarker(p, paths, k);
    hide Filled, Val, Plain, Stands;
    MarkedValue(p[k], path);
    ValJoin(Filled(a, paths), [p[k]] + Plain(path) + Filled(b, paths));
    ValJoin([p[k]] + Plain(path), Filled(b, paths));
    StandsBetween(Val(Filled(a, paths)), path, Val(Filled(b, paths)));
  }

  lemma StandsBetween(a: Bytes, b: Bytes, c: Bytes)
    ensures Stands(a + (b + c), |a|, b)
  {
  }

  lemma FilledAroundMarker(p: seq<Piece>, paths: map<Bytes, Bytes>, k: nat)
    requires k < |p| && p[k].Mark? && p[k].kind.RefPath? && p[k].ref in paths
    ensures Filled(p, paths)
         == Filled(p[..k], paths) + ([p[k]] + Plain(paths[p[k].ref] + [0]) + Filled(p[k + 1..], paths))
  {
    var a, b := p[..k], p[k + 1..];
    assert p == a + ([p[k]] + b);
    FilledJoin(a, [p[k]] + b, paths);
    FilledJoin([p[k]], b, paths);
    FilledOne(p[k], paths);
    hide Filled, Plain;
  }

  lemma FilledOne(m: Piece, paths: map<Bytes, Bytes>)
    ensures Filled([m], paths) == [m] + Plain(Filling(m, paths))
  {
    assert [m][..0] == [] && Filled([], paths) == [];
  }

  lemma MarkedValue(m: Piece, t: Bytes)
    requires m.Mark?
    ensures Val([m] + Plain(t)) == t
  {
    ValJoin([m], Plain(t));
    assert [m][..0] == [] && Val([]) == [];
    BytesOnly(t);
  }
}
