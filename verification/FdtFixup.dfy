/** The operations on property values with markers, and filling in the paths
    that references stand for. */
module FdtFixup {
  import opened Options
  import opened FdtTree
  import opened FdtWrite
  import opened FdtRead
  import opened FdtRoundTrip
  import opened FdtMarkers

  /** The first marker among the pieces, or their end. */
  function FirstMark(p: seq<Piece>): (k: nat)
    ensures k <= |p| && (forall i :: 0 <= i < k ==> p[i].Data?) && (k < |p| ==> p[k].Mark?)
  {
    if p == [] || p[0].Mark? then 0 else 1 + FirstMark(p[1..])
  }

  lemma {:induction false} DataOnly(p: seq<Piece>, paths: map<Bytes, Bytes>)
    requires forall i :: 0 <= i < |p| ==> p[i].Data?
    ensures Marks(p) == [] && Filled(p, paths) == p && Unresolved(p, paths) == []
  {
    if p != [] {
      DataOnly(p[..|p| - 1], paths);
      assert Plain([]) == [];
      assert p == p[..|p| - 1] + [p[|p| - 1]];
    }
  }

  class Property {

    var val: Bytes
    var markers: seq<Marker>

    // What the value means.
    ghost var pieces: seq<Piece>

    ghost predicate Valid()
      reads this
    {
      val == Val(pieces) && markers == Marks(pieces)
    }

    constructor ()
      ensures Valid() && pieces == []
    {
      val, markers, pieces := [], [], [];
    }

    method AppendData(t: Bytes)
      requires Valid()
      modifies this
      ensures Valid() && pieces == old(pieces) + Plain(t)
    {
      BytesOnly(t);
      ValJoin(pieces, Plain(t));
      MarksJoin(pieces, Plain(t));
      val := val + t;
      pieces := pieces + Plain(t);
    }

    method AddMarker(kind: Kind, ref: Bytes)
      requires Valid()
      modifies this
      ensures Valid() && pieces == old(pieces) + [Mark(kind, ref)]
    {
      markers := markers + [Marker(|val|, kind, ref)];
      pieces := pieces + [Mark(kind, ref)];
    }

    /** Appends another value; its markers move behind the first value. */
    method Merge(other: Property)
      requires Valid() && other.Valid() && other != this
      modifies this
      ensures Valid() && pieces == old(pieces) + other.pieces
    {
      ValJoin(pieces, other.pieces);
      MarksJoin(pieces, other.pieces);
      var shifted: seq<Marker> := [];
      for i := 0 to |other.markers|
        invariant shifted == Moved(other.markers, |val|)[..i]
        invariant Valid() && pieces == old(pieces) && val == old(val)
      {
        var m := other.markers[i];
        shifted := shifted + [m.(offset := m.offset + |val|)];
      }
      markers := markers + shifted;
      val := val + other.val;
      pieces := pieces + other.pieces;
    }

    /** Puts bytes behind the i-th marker, which is piece `k`; the markers after
        it move. */
    method InsertAtMarker(i: nat, t: Bytes, ghost k: nat)
      requires Valid() && k < |pieces| && pieces[k].Mark? && |Marks(pieces[..k])| == i
      modifies this
      ensures Valid() && pieces == old(pieces)[..k + 1] + (Plain(t) + old(pieces)[k + 1..])
      ensures |markers| == old(|markers|)
    {
      ghost var a, b := pieces[..k + 1], pieces[k + 1..];
      Parts(pieces, k);
      Inserted(a, b, t);
      MarkersInserted(Marks(a), Marks(b), i, |Val(a)|, |t|);
      hide Val, Marks, Moved, Plain;
      var at := markers[i].offset;
      SplitAt(val, Val(a), Val(b));
      val := val[..at] + t + val[at..];
      MoveLater(i, |t|);
      pieces := a + (Plain(t) + b);
    }

    /** The markers behind the i-th one move by the same distance. */
    method MoveLater(i: nat, dist: nat)
      requires i < |markers|
      modifies this`markers
      ensures markers == old(markers)[..i + 1] + Moved(old(markers)[i + 1..], dist)
    {
      ghost var was := markers;
      for j := i + 1 to |markers|
        invariant |markers| == |was|
        invariant forall x :: 0 <= x < |was| ==>
          markers[x] == if i < x < j then was[x].(offset := was[x].offset + dist) else was[x]
      {
        markers := markers[j := markers[j].(offset := markers[j].offset + dist)];
      }
    }

    /** Puts the path and a zero byte behind every reference to a path that can
        be resolved. Every such reference stands before its path afterwards,
        and nothing else about the value changes. */
    method FixupPathReferences(paths: map<Bytes, Bytes>) returns (failed: seq<Bytes>)
      requires Valid()
      modifies this
      ensures Valid() && pieces == Filled(old(pieces), paths)
      ensures failed == Unresolved(old(pieces), paths)
    {
      failed := [];
      ghost var orig, done, rest: seq<Piece> := pieces, [], pieces;
      var i := 0;
      assert Marks(done) == [];
      FilledStart(pieces, paths);
      hide Val, Marks, Filled, Unresolved, Plain, Filling, FirstMark, DoneOn, FilledSoFar;
      while i < |markers|
        invariant i <= |markers| && Valid() && pieces == done + rest && |Marks(done)| == i
        invariant FilledSoFar(done, rest, failed, orig, paths)
      {
        ghost var f := StepOn(done, rest, failed, orig, paths);
        var miss := FixupReference(i, paths, done, rest, f);
        failed := failed + miss;
        done, rest := DoneOn(done, rest, f, paths), rest[f + 1..];
        i := i + 1;
      }
      FilledAll(done, rest, failed, orig, paths);
    }

    /** One marker of the list, which is piece `f` of `rest`. */
    method FixupReference(i: nat, paths: map<Bytes, Bytes>, ghost done: seq<Piece>, ghost rest: seq<Piece>, ghost f: nat)
      returns (failed: seq<Bytes>)
      requires Valid() && pieces == done + rest && f < |rest| && rest[f].Mark? && i < |markers|
      requires |Marks(pieces[..|done| + f])| == i
      requires markers[i].kind == rest[f].kind && markers[i].ref == rest[f].ref
      modifies this
      ensures Valid() && |markers| == old(|markers|) && pieces == DoneOn(done, rest, f, paths) + rest[f + 1..]
      ensures failed == Unresolved([rest[f]], paths)
    {
      UnresolvedOne(rest[f], paths);
      PiecesOn(done, rest, f, paths);
      hide Val, Marks, Filled, Unresolved, Plain, FirstMark, DoneOn;
      failed := [];
      var m := markers[i];
      if m.kind == RefPath {
        if m.ref in paths {
          InsertAtMarker(i, paths[m.ref] + [0], |done| + f);
        } else {
          failed := [m.ref];
        }
      }
    }
  }

  // ------------------------------------------------------------------------
  // Pieces on both sides of a marker
  // ------------------------------------------------------------------------

  lemma Parts(p: seq<Piece>, k: nat)
    requires k < |p| && p[k].Mark?
    ensures
      var a, b := p[..k + 1], p[k + 1..];
      && p == a + b && Val(p) == Val(a) + Val(b) && Marks(p) == Marks(a) + Moved(Marks(b), |Val(a)|)
      && Val(a) == Val(p[..k]) && Marks(a) == Marks(p[..k]) + [Marker(|Val(p[..k])|, p[k].kind, p[k].ref)]
  {
    var a, b := p[..k + 1], p[k + 1..];
    assert p == a + b;
    ValJoin(a, b);
    MarksJoin(a, b);
    assert a[..k] == p[..k];
  }

  lemma SplitAt(s: Bytes, a: Bytes, b: Bytes)
    requires s == a + b
    ensures s[..|a|] == a && s[|a|..] == b
  {
  }

  /** Markers before and behind a place, moved by what was there already and by what comes in. */
  lemma MarkersInserted(a: seq<Marker>, b: seq<Marker>, i: nat, d: nat, dist: nat)
    requires |a| == i + 1
    ensures var ms := a + Moved(b, d);
      ms[i] == a[i] && ms[..i + 1] + Moved(ms[i + 1..], dist) == a + Moved(b, d + dist)
  {
    var ms := a + Moved(b, d);
    assert ms[..i + 1] == a && ms[i + 1..] == Moved(b, d);
    assert Moved(Moved(b, d), dist) == Moved(b, d + dist);
  }

  lemma Inserted(a: seq<Piece>, b: seq<Piece>, t: Bytes)
    ensures Val(a + (Plain(t) + b)) == Val(a) + t + Val(b)
    ensures Marks(a + (Plain(t) + b)) == Marks(a) + Moved(Marks(b), |Val(a)| + |t|)
  {
    hide Val, Marks, Plain;
    BytesOnly(t);
    ValJoin(Plain(t), b);
    MarksJoin(Plain(t), b);
    ValJoin(a, Plain(t) + b);
    MarksJoin(a, Plain(t) + b);
    assert Marks(Plain(t) + b) == Moved(Marks(b), |t|);
    assert Moved(Moved(Marks(b), |t|), |Val(a)|) == Moved(Marks(b), |Val(a)| + |t|);
  }

  function DoneOn(done: seq<Piece>, rest: seq<Piece>, f: nat, paths: map<Bytes, Bytes>): seq<Piece>
    requires f < |rest|
  {
    done + (rest[..f] + ([rest[f]] + Plain(Filling(rest[f], paths))))
  }

  lemma FrontHasNone(done: seq<Piece>, rest: seq<Piece>, f: nat, paths: map<Bytes, Bytes>)
    requires f <= |rest| && forall i :: 0 <= i < f ==> rest[i].Data?
    ensures |Marks((done + rest)[..|done| + f])| == |Marks(done)|
  {
    assert (done + rest)[..|done| + f] == done + rest[..f];
    hide Marks, Val;
    DataOnly(rest[..f], paths);
    MarksJoin(done, rest[..f]);
  }

  lemma UnresolvedOne(m: Piece, paths: map<Bytes, Bytes>)
    ensures Unresolved([m], paths) == if m.Mark? && m.kind.RefPath? && m.ref !in paths then [m.ref] else []
  {
    assert [m][..0] == [];
    assert Unresolved([], paths) == [];
  }

  lemma FilledAround(rest: seq<Piece>, f: nat, paths: map<Bytes, Bytes>)
    requires f < |rest| && forall i :: 0 <= i < f ==> rest[i].Data?
    ensures Filled(rest, paths) == rest[..f] + (([rest[f]] + Plain(Filling(rest[f], paths))) + Filled(rest[f + 1..], paths))
    ensures Unresolved(rest, paths) == Unresolved([rest[f]], paths) + Unresolved(rest[f + 1..], paths)
  {
    hide Filled, Unresolved, Filling, Plain;
    var a, m, b := rest[..f], rest[f], rest[f + 1..];
    assert rest == a + ([m] + b);
    DataOnly(a, paths);
    FilledJoin(a, [m] + b, paths);
    FilledJoin([m], b, paths);
    FilledOne(m, paths);
    UnresolvedJoin(a, [m] + b, paths);
    UnresolvedJoin([m], b, paths);
  }

  lemma DoneMarks(done: seq<Piece>, rest: seq<Piece>, f: nat, paths: map<Bytes, Bytes>)
    requires f < |rest| && rest[f].Mark? && forall i :: 0 <= i < f ==> rest[i].Data?
    ensures |Marks(DoneOn(done, rest, f, paths))| == |Marks(done)| + 1
  {
    hide Marks, Val, Filling, Plain;
    DataOnly(rest[..f], paths);
    Appended(rest[..f], rest[f], Filling(rest[f], paths));
    MarksJoin(done, rest[..f] + ([rest[f]] + Plain(Filling(rest[f], paths))));
  }

  /** Filling in behind one marker brings the pieces to where the next step
      starts. */
  lemma PiecesOn(done: seq<Piece>, rest: seq<Piece>, f: nat, paths: map<Bytes, Bytes>)
    requires f < |rest|
    ensures
      var p, k := done + rest, |done| + f;
      && p[..k + 1] + (Plain(Filling(rest[f], paths)) + p[k + 1..]) == DoneOn(done, rest, f, paths) + rest[f + 1..]
      && (Filling(rest[f], paths) == [] ==> DoneOn(done, rest, f, paths) + rest[f + 1..] == p)
  {
    hide Filling;
    var p, k := done + rest, |done| + f;
    var fill := Plain(Filling(rest[f], paths));
    hide Plain;
    assert p[..k + 1] == done + (rest[..f] + [rest[f]]);
    assert p[k + 1..] == rest[f + 1..];
    assert rest[..f] + ([rest[f]] + fill) == (rest[..f] + [rest[f]]) + fill;
    assert (done + (rest[..f] + [rest[f]])) + (fill + rest[f + 1..]) == (done + ((rest[..f] + [rest[f]]) + fill)) + rest[f + 1..];
    assert p == p[..k + 1] + p[k + 1..];
    if fill == [] {
      assert fill + rest[f + 1..] == rest[f + 1..];
    }
  }

  /** Half-way along the pieces: those of `done` have been filled in. */
  ghost predicate FilledSoFar(done: seq<Piece>, rest: seq<Piece>, failed: seq<Bytes>, orig: seq<Piece>, paths: map<Bytes, Bytes>) {
    && done + Filled(rest, paths) == Filled(orig, paths)
    && failed + Unresolved(rest, paths) == Unresolved(orig, paths)
  }

  lemma FilledStart(pieces: seq<Piece>, paths: map<Bytes, Bytes>)
    ensures FilledSoFar([], pieces, [], pieces, paths)
  {
  }

  lemma FilledOn(done: seq<Piece>, rest: seq<Piece>, f: nat, failed: seq<Bytes>, orig: seq<Piece>, paths: map<Bytes, Bytes>)
    requires f < |rest| && FilledSoFar(done, rest, failed, orig, paths)
    requires DoneOn(done, rest, f, paths) + Filled(rest[f + 1..], paths) == done + Filled(rest, paths)
    requires Unresolved(rest, paths) == Unresolved([rest[f]], paths) + Unresolved(rest[f + 1..], paths)
    ensures FilledSoFar(DoneOn(done, rest, f, paths), rest[f + 1..], failed + Unresolved([rest[f]], paths), orig, paths)
  {
    hide DoneOn, Filled, Unresolved;
  }

  lemma StepOn(done: seq<Piece>, rest: seq<Piece>, failed: seq<Bytes>, orig: seq<Piece>, paths: map<Bytes, Bytes>) returns (f: nat)
    requires |Marks(done)| < |Marks(done + rest)| && FilledSoFar(done, rest, failed, orig, paths)
    ensures f < |rest| && rest[f].Mark? && |Marks((done + rest)[..|done| + f])| == |Marks(done)|
    ensures Marks(done + rest)[|Marks(done)|].kind == rest[f].kind && Marks(done + rest)[|Marks(done)|].ref == rest[f].ref
    ensures |Marks(DoneOn(done, rest, f, paths))| == |Marks(done)| + 1
    ensures FilledSoFar(DoneOn(done, rest, f, paths), rest[f + 1..], failed + Unresolved([rest[f]], paths), orig, paths)
  {
    hide Marks, Filled, Unresolved, DoneOn, FilledSoFar, FirstMark;
    f := FirstMark(rest);
    NextMark(done, rest, paths);
    FilledOn(done, rest, f, failed, orig, paths);
  }

  lemma FilledAll(done: seq<Piece>, rest: seq<Piece>, failed: seq<Bytes>, orig: seq<Piece>, paths: map<Bytes, Bytes>)
    requires FilledSoFar(done, rest, failed, orig, paths) && |Marks(done)| >= |Marks(done + rest)|
    ensures done + rest == Filled(orig, paths) && failed == Unresolved(orig, paths)
  {
    hide Marks, Filled, Unresolved;
    NoMarks(done, rest, paths);
  }

  lemma NoMarks(done: seq<Piece>, rest: seq<Piece>, paths: map<Bytes, Bytes>)
    requires |Marks(done)| >= |Marks(done + rest)|
    ensures Filled(rest, paths) == rest && Unresolved(rest, paths) == []
  {
    hide Marks, Val, Filled, Unresolved;
    var f := FirstMark(rest);
    MarksJoin(done, rest);
    if f < |rest| {
      Parts(rest, f);
    }
    DataOnly(rest, paths);
  }

  /** The next marker of the list is the next one among the pieces. */
  lemma NextMark(done: seq<Piece>, rest: seq<Piece>, paths: map<Bytes, Bytes>)
    requires |Marks(done)| < |Marks(done + rest)|
    ensures
      var f := FirstMark(rest);
      && f < |rest| && rest[f].Mark? && (done + rest)[|done| + f] == rest[f]
      && |Marks((done + rest)[..|done| + f])| == |Marks(done)|
      && Marks(done + rest)[|Marks(done)|].kind == rest[f].kind && Marks(done + rest)[|Marks(done)|].ref == rest[f].ref
      && |Marks(DoneOn(done, rest, f, paths))| == |Marks(done)| + 1
      && DoneOn(done, rest, f, paths) + Filled(rest[f + 1..], paths) == done + Filled(rest, paths)
      && Unresolved(rest, paths) == Unresolved([rest[f]], paths) + Unresolved(rest[f + 1..], paths)
  {
    hide Marks, Val, Filled, Unresolved, Plain, Filling, DoneOn, FirstMark;
    var f := FirstMark(rest);
    SomeMark(done, rest, paths);
    FrontHasNone(done, rest, f, paths);
    Parts(done + rest, |done| + f);
    FilledAround(rest, f, paths);
    DoneMarks(done, rest, f, paths);
    DoneFilled(done, rest, f, paths);
  }

  lemma SomeMark(done: seq<Piece>, rest: seq<Piece>, paths: map<Bytes, Bytes>)
    requires |Marks(done)| < |Marks(done + rest)|
    ensures FirstMark(rest) < |rest|
  {
    hide Marks, FirstMark, Val;
    MarksJoin(done, rest);
    if FirstMark(rest) == |rest| {
      DataOnly(rest, paths);
    }
  }

  lemma DoneFilled(done: seq<Piece>, rest: seq<Piece>, f: nat, paths: map<Bytes, Bytes>)
    requires f < |rest|
    requires Filled(rest, paths) == rest[..f] + (([rest[f]] + Plain(Filling(rest[f], paths))) + Filled(rest[f + 1..], paths))
    ensures DoneOn(done, rest, f, paths) + Filled(rest[f + 1..], paths) == done + Filled(rest, paths)
  {
    hide Filled, Plain, Filling;
    var piece := [rest[f]] + Plain(Filling(rest[f], paths));
    var tail := Filled(rest[f + 1..], paths);
    assert done + (rest[..f] + (piece + tail)) == (done + (rest[..f] + piece)) + tail;
  }

  // ------------------------------------------------------------------------
  // The value in the blob
  // ------------------------------------------------------------------------

  /** A property whose references have been filled in is read back from where it was written with
      the bytes of that value: longer by what was filled in, and without markers. */
  lemma FixedUpStands(
      f: Bytes, pos: nat, strs: Bytes, name: Bytes, off: nat, pieces: seq<Piece>, paths: map<Bytes, Bytes>, fl: Layout)
    requires var val := Val(Filled(pieces, paths));
      && pos % 4 == 0 && Stands(f, pos, PropBytes(|val|, off, val, pos, fl))
      && |val| < 0x8000_0000 && off < 0x8000_0000 && ReadName(strs, off) == Some(name)
    ensures var val := Val(Filled(pieces, paths));
      && ReadProperty(f, pos + 4, strs, fl.varAlign)
           == Some((FdtTree.Property(name, val, [], false), pos + |PropBytes(|val|, off, val, pos, fl)|))
      && |val| == |Val(pieces)| + Shift(pieces, paths)
  {
    hide Val, Filled, Shift, Stands, PropBytes, ReadProperty, ReadName;
    PropStands(f, pos, strs, name, off, Val(Filled(pieces, paths)), fl);
    FilledLength(pieces, paths);
  }
}
