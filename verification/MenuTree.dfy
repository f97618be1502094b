/** The menu tree in its entries' links: re-nesting by rewiring them, and the
    walk that writes a configuration out in the order of the entries. */
module MenuTree {
  import opened Options
  import opened Pigeonhole
  import opened MenuForest

  type Link = Option<nat>

  /** The links of all entries: the next entry of the same list, the first entry
      of the list below, and the entry whose list this one is in. */
  datatype Links = Links(next: seq<Link>, list: seq<Link>, parent: seq<Link>)

  ghost predicate Sized(h: Links) {
    |h.next| == |h.list| == |h.parent|
  }

  function Head(f: Forest, end: Link): Link {
    if f.Empty? then end else Some(f.id)
  }

  /** The links from `head` on make up the forest, below `up`; the last entry is
      linked to `end`. */
  ghost predicate Segment(h: Links, f: Forest, up: Link, end: Link)
    requires Sized(h)
  {
    match f
    case Empty => true
    case Entry(id, kids, rest) =>
      && id < |h.next|
      && h.parent[id] == up
      && h.list[id] == Head(kids, None) && Segment(h, kids, Some(id), None)
      && h.next[id] == Head(rest, end) && Segment(h, rest, up, end)
  }

  ghost predicate Disjoint(a: seq<nat>, b: seq<nat>) {
    forall x :: x in a ==> x !in b
  }

  /** The entries of the list are all different and their links make it up. */
  ghost predicate Holds(h: Links, f: Forest, up: Link, end: Link)
    requires Sized(h)
  {
    Segment(h, f, up, end) && Distinct(Preorder(f))
  }

  /** Nothing but the links of `ids` differs. */
  ghost predicate SameBut(h: Links, k: Links, ids: seq<nat>)
  {
    && Sized(h) && Sized(k) && |h.next| == |k.next|
    && forall x :: 0 <= x < |h.next| && x !in ids ==>
      h.next[x] == k.next[x] && h.list[x] == k.list[x] && h.parent[x] == k.parent[x]
  }

  lemma {:induction false} SegmentFrame(h: Links, k: Links, f: Forest, up: Link, end: Link, ids: seq<nat>)
    requires Sized(h) && Segment(h, f, up, end) && SameBut(h, k, ids) && Disjoint(Preorder(f), ids)
    ensures Segment(k, f, up, end)
  {
    match f
    case Empty =>
    case Entry(id, kids, rest) =>
      assert id in Preorder(f);
      SegmentFrame(h, k, kids, Some(id), None, ids);
      SegmentFrame(h, k, rest, up, end, ids);
  }

  /** The same for changes to the links of one or two entries. */
  lemma SegmentAway(h: Links, k: Links, f: Forest, up: Link, end: Link, a: nat, b: nat)
    requires Sized(h) && Segment(h, f, up, end) && SameBut(h, k, [a, b])
    requires a !in Preorder(f) && b !in Preorder(f)
    ensures Segment(k, f, up, end)
  {
    hide Segment, SameBut;
    SegmentFrame(h, k, f, up, end, [a, b]);
  }

  lemma {:induction false} SegmentJoin(h: Links, f: Forest, g: Forest, up: Link, end: Link)
    requires Sized(h)
    ensures Segment(h, Join(f, g), up, end) <==> Segment(h, f, up, Head(g, end)) && Segment(h, g, up, end)
    ensures Head(Join(f, g), end) == Head(f, Head(g, end))
  {
    match f
    case Empty =>
    case Entry(id, kids, rest) => SegmentJoin(h, rest, g, up, end);
  }

  /** The last entry of a list. */
  function Last(f: Forest): nat
    requires f.Entry?
  {
    if f.rest.Empty? then f.id else Last(f.rest)
  }

  lemma {:induction false} LastInside(f: Forest)
    requires f.Entry?
    ensures Last(f) in Preorder(f)
  {
    if f.rest.Entry? { LastInside(f.rest); }
  }

  /** Pointing the last entry elsewhere. */
  lemma {:induction false} SegmentEnd(h: Links, f: Forest, up: Link, end: Link, other: Link)
    requires Sized(h) && f.Entry? && Holds(h, f, up, end)
    ensures Last(f) < |h.next| && h.next[Last(f)] == end
    ensures Segment(h.(next := h.next[Last(f) := other]), f, up, other)
  {
    PreorderParts(f);
    if f.rest.Empty? {
      SegmentFrame(h, h.(next := h.next[f.id := other]), f.kids, Some(f.id), None, [f.id]);
    } else {
      LastInside(f.rest);
      SegmentEnd(h, f.rest, up, end, other);
      SegmentFrame(h, h.(next := h.next[Last(f) := other]), f.kids, Some(f.id), None, [Last(f)]);
    }
  }

  /** The parts of a list's order have no entry in common. */
  lemma PreorderParts(f: Forest)
    requires f.Entry? && Distinct(Preorder(f))
    ensures Distinct(Preorder(f.kids)) && Distinct(Preorder(f.rest))
    ensures f.id !in Preorder(f.kids) && f.id !in Preorder(f.rest)
    ensures Disjoint(Preorder(f.kids), Preorder(f.rest)) && Disjoint(Preorder(f.rest), Preorder(f.kids))
  {
    var a, b := Preorder(f.kids), Preorder(f.rest);
    DistinctJoin([f.id], a + b);
    assert Preorder(f) == [f.id] + (a + b);
    DistinctJoin(a, b);
  }

  lemma DistinctJoin(a: seq<nat>, b: seq<nat>)
    ensures Distinct(a + b) <==> Distinct(a) && Distinct(b) && Disjoint(a, b)
  {
    var s := a + b;
    if Distinct(s) {
      forall i, j | 0 <= i < j < |a| ensures a[i] != a[j] { assert s[i] == a[i] && s[j] == a[j]; }
      forall i, j | 0 <= i < j < |b| ensures b[i] != b[j] { assert s[|a| + i] == b[i] && s[|a| + j] == b[j]; }
      forall x | x in a ensures x !in b {
        var i :| 0 <= i < |a| && a[i] == x;
        forall j | 0 <= j < |b| ensures b[j] != x {
          assert s[i] == a[i] && s[|a| + j] == b[j];
        }
      }
    } else {
      var i, j :| 0 <= i < j < |s| && s[i] == s[j];
      if j < |a| {
        assert a[i] == a[j];
      } else if i >= |a| {
        assert b[i - |a|] == b[j - |a|];
      } else {
        assert a[i] in a && b[j - |a|] in b;
      }
    }
  }

  /** Between two entries of a list: those before are done, the others are still
      to come, and together they are the entries of `ids`. */
  ghost predicate Between(h: Links, done: Forest, up: Link, cur: Forest, curUp: Link, ids: seq<nat>)
    requires Sized(h)
  {
    && Segment(h, done, up, Head(cur, None))
    && Segment(h, cur, curUp, None)
    && Preorder(done) + Preorder(cur) == ids
    && Distinct(ids)
  }

  /** An entry by itself. */
  function Single(f: Forest): Forest
    requires f.Entry?
  {
    Entry(f.id, f.kids, Empty)
  }

  /** The links of an entry and of the list below it, up to the entry linked to
      it. */
  ghost predicate Apart(h: Links, f: Forest, up: Link, restUp: Link)
    requires Sized(h) && f.Entry?
  {
    Segment(h, Single(f), up, Head(f.rest, None)) && Segment(h, f.rest, restUp, None)
  }

  /** One more entry is done; its own links may have changed, and those of
      entries not done yet. */
  lemma MoveOn(h: Links, k: Links, done: Forest, up: Link, cur: Forest, curUp: Link, first: Forest, ids: seq<nat>)
    requires Sized(h) && Between(h, done, up, cur, curUp, ids)
    requires SameBut(h, k, Preorder(cur)) && cur.Entry? && first.Entry? && Preorder(first) == Preorder(cur)
    requires Apart(k, first, up, curUp)
    ensures Between(k, Join(done, Single(first)), up, first.rest, curUp, ids)
  {
    assert Sized(k);
    hide Segment, SameBut, Distinct, Disjoint, Preorder, Join;
    OrderOn(done, cur, first, ids);
    SegmentFrame(h, k, done, up, Head(cur, None), Preorder(cur));
    SameHead(first, cur);
    SegmentJoin(k, done, Single(first), up, Head(first.rest, None));
  }

  lemma OrderOn(done: Forest, cur: Forest, first: Forest, ids: seq<nat>)
    requires first.Entry? && Preorder(first) == Preorder(cur) && Preorder(done) + Preorder(cur) == ids && Distinct(ids)
    ensures Preorder(Join(done, Single(first))) + Preorder(first.rest) == ids
    ensures Disjoint(Preorder(done), Preorder(cur))
  {
    hide Distinct, Disjoint, Preorder, Join;
    DistinctJoin(Preorder(done), Preorder(cur));
    PreorderJoin(done, Single(first));
    PreorderSingle(first);
  }

  lemma SameHead(f: Forest, g: Forest)
    requires Preorder(f) == Preorder(g)
    ensures Head(f, None) == Head(g, None)
  {
    assert f.Entry? ==> Preorder(f)[0] == f.id;
    assert g.Entry? ==> Preorder(g)[0] == g.id;
  }

  lemma PreorderSingle(f: Forest)
    requires f.Entry?
    ensures Preorder(f) == Preorder(Single(f)) + Preorder(f.rest)
  {
  }

  lemma SameButPlus(h: Links, k: Links, l: Links, some: seq<nat>, a: nat, b: nat, all: seq<nat>)
    requires SameBut(h, k, some) && SameBut(k, l, [a, b])
    requires (forall x <- some :: x in all) && a in all && b in all
    ensures SameBut(h, l, all)
  {
  }

  lemma BetweenStart(h: Links, f: Forest, done: Link, up: Link)
    requires Sized(h) && Holds(h, f, up, None)
    ensures Between(h, Empty, done, f, up, Preorder(f)) && SameBut(h, h, Preorder(f))
  {
    hide Distinct;
  }

  lemma JoinStart(f: Forest)
    ensures Join(Empty, f) == f && Preorder(Empty) == []
  {
  }

  lemma BetweenHolds(h: Links, done: Forest, up: Link, cur: Forest, curUp: Link, ids: seq<nat>)
    requires Sized(h) && Between(h, done, up, cur, curUp, ids)
    ensures Holds(h, cur, curUp, None)
    ensures forall x <- Preorder(cur) :: x in ids
  {
    hide Distinct, Segment, Disjoint;
    DistinctJoin(Preorder(done), Preorder(cur));
  }

  lemma BetweenEnd(h: Links, done: Forest, up: Link, curUp: Link, ids: seq<nat>)
    requires Sized(h) && Between(h, done, up, Empty, curUp, ids)
    ensures Segment(h, done, up, None) && Join(done, Empty) == done && Preorder(done) == ids
  {
    hide Distinct, Segment;
    JoinEmpty(done);
  }

  lemma SameButTrans(h: Links, k: Links, l: Links, some: seq<nat>, all: seq<nat>)
    requires SameBut(h, k, all) && SameBut(k, l, some) && forall x <- some :: x in all
    ensures SameBut(h, l, all)
  {
  }

  /** One step of a loop along a list that began with the links `g`. */
  lemma Advance(g: Links, h: Links, k: Links, done: Forest, up: Link, cur: Forest, curUp: Link, first: Forest, ids: seq<nat>)
    requires SameBut(g, h, ids) && Sized(h) && Between(h, done, up, cur, curUp, ids)
    requires SameBut(h, k, Preorder(cur)) && Sized(k) && cur.Entry? && first.Entry? && Preorder(first) == Preorder(cur)
    requires Apart(k, first, up, curUp)
    ensures SameBut(g, k, ids) && Between(k, Join(done, Single(first)), up, first.rest, curUp, ids)
    ensures first.id < |k.next| && k.next[first.id] == Head(first.rest, None)
    ensures first.id == cur.id && Size(first.rest) < Size(cur)
  {
    BetweenHolds(h, done, up, cur, curUp, ids);
    SameButTrans(g, h, k, Preorder(cur), ids);
    hide SameBut, Between, Join, Distinct;
    MoveOn(h, k, done, up, cur, curUp, first, ids);
    assert Preorder(first)[0] == first.id && Preorder(cur)[0] == cur.id;
    assert Size(cur) == Size(first);
  }

  /** The record of the entries that re-nesting was called for, after those of
      a list have been added. */
  function Log(was: seq<nat>, f: Forest): seq<nat> {
    was + Preorder(f)
  }

  lemma LogOn(was: seq<nat>, done: Forest, first: Forest)
    requires first.Entry?
    ensures Log(Log(was, done), Single(first)) == Log(was, Join(done, Single(first)))
    ensures Log(was, Empty) == was
  {
    PreorderJoin(done, Single(first));
    assert (was + Preorder(done)) + Preorder(Single(first)) == was + (Preorder(done) + Preorder(Single(first)));
    hide Preorder;
  }

  /** Going on after one entry, for any way of putting results together. */
  lemma JoinOn(done: Forest, first: Forest, more: Forest)
    requires first.Entry?
    ensures Join(Join(done, Single(first)), more) == Join(done, Entry(first.id, first.kids, more))
  {
    JoinJoin(done, Single(first), more);
  }

  lemma SegmentApart(h: Links, f: Forest, up: Link)
    requires Sized(h) && f.Entry? && Segment(h, f, up, None)
    ensures Apart(h, f, up, up) && f.id < |h.next| && h.next[f.id] == Head(f.rest, None)
  {
  }

  lemma SameButSelf(h: Links, ids: seq<nat>)
    requires Sized(h)
    ensures SameBut(h, h, ids)
  {
  }

  /** Changing the parent of the first entry of a list. */
  lemma NewParent(h: Links, f: Forest, up: Link, to: Link)
    requires Sized(h) && f.Entry? && Holds(h, f, up, None)
    ensures f.id < |h.parent|
    ensures SameBut(h, h.(parent := h.parent[f.id := to]), Preorder(f))
    ensures Apart(h.(parent := h.parent[f.id := to]), f, to, up)
    ensures h.next[f.id] == Head(f.rest, None)
  {
    hide Distinct, Disjoint;
    PreorderParts(f);
    var k := h.(parent := h.parent[f.id := to]);
    assert SameBut(h, k, [f.id, f.id]);
    hide SameBut;
    SegmentAway(h, k, f.kids, Some(f.id), None, f.id, f.id);
    SegmentAway(h, k, f.rest, up, None, f.id, f.id);
    assert Segment(k, Single(f), to, Head(f.rest, None));
    assert Preorder(f)[0] == f.id;
    SameButSelf(h, []);
    SameButPlus(h, h, k, [], f.id, f.id, Preorder(f));
  }

  lemma {:induction false} LastJoin(f: Forest, g: Forest)
    requires g.Entry?
    ensures Join(f, g).Entry? && Last(Join(f, g)) == Last(g)
  {
    if f.Entry? { LastJoin(f.rest, g); }
  }

  lemma ListOf(h: Links, f: Forest, up: Link)
    requires Sized(h) && f.Entry? && Segment(h, f, up, None)
    ensures f.id < |h.list| && h.list[f.id] == Head(f.kids, None) && Segment(h, f.kids, Some(f.id), None)
  {
  }

  /** The list below the first entry has been replaced by another one. */
  lemma ListDone(h: Links, k: Links, f: Forest, kids: Forest, up: Link)
    requires Sized(h) && f.Entry? && Holds(h, f, up, None) && SameBut(h, k, Preorder(f.kids))
    requires Segment(k, kids, Some(f.id), None) && Preorder(kids) == Preorder(f.kids)
    ensures Segment(k, Entry(f.id, kids, f.rest), up, None)
    ensures SameBut(h, k, Preorder(f)) && Holds(k, Entry(f.id, kids, f.rest), up, None)
  {
    PreorderParts(f);
    SegmentFrame(h, k, f.rest, up, None, Preorder(f.kids));
    SameHead(kids, f.kids);
  }

  /** The links after the first entry has taken in what follows it up to
      `cur`. */
  lemma TakenIn(h: Links, k: Links, f: Forest, done: Forest, cur: Forest, up: Link)
    requires Sized(h) && f.Entry? && f.kids.Empty? && done.Entry? && Holds(h, f, up, None)
    requires SameBut(h, k, Preorder(f.rest)) && Between(k, done, Some(f.id), cur, up, Preorder(f.rest))
    ensures Last(done) < |k.next| && f.id < |k.next| && Last(done) in Preorder(f)
    ensures
      var next := k.next[f.id := k.next[Last(done)]];
      var l := Links(next[Last(done) := None], k.list[f.id := k.next[f.id]], k.parent);
      Segment(l, Entry(f.id, done, cur), up, None)
  {
    PreorderParts(f);
    DistinctJoin(Preorder(done), Preorder(cur));
    SegmentEnd(k, done, Some(f.id), Head(cur, None), None);
    LastInside(done);
    hide Distinct;
    var mid := k.(next := k.next[Last(done) := None]);
    var next := k.next[f.id := k.next[Last(done)]];
    var l := Links(next[Last(done) := None], k.list[f.id := k.next[f.id]], k.parent);
    assert Head(f.rest, None) == Some(done.id) by {
      assert Preorder(done)[0] == done.id && f.rest.Entry? && Preorder(f.rest)[0] == f.rest.id;
    }
    SegmentFrame(mid, l, done, Some(f.id), None, [f.id]);
    SegmentFrame(k, l, cur, up, None, [f.id, Last(done)]);
  }

  lemma NothingTaken(h: Links, k: Links, f: Forest, cur: Forest, up: Link)
    requires Sized(h) && f.Entry? && f.kids.Empty? && Holds(h, f, up, None)
    requires SameBut(h, k, Preorder(f.rest)) && Between(k, Empty, Some(f.id), cur, up, Preorder(f.rest))
    ensures Segment(k, Entry(f.id, Empty, cur), up, None)
  {
    PreorderParts(f);
    assert Preorder(cur) == Preorder(f.rest);
    SameHead(cur, f.rest);
  }

  /** The links after the list below the first entry, whose parents have been
      set, has been put behind that entry. */
  lemma Promoted(h: Links, k: Links, f: Forest, id: nat)
    requires Sized(h) && f.Entry? && f.kids.Entry? && Holds(h, f, Some(id), None)
    requires SameBut(h, k, Preorder(f.kids)) && Segment(k, f.kids, Some(id), None)
    ensures f.id < |k.next| && Last(f.kids) < |k.next|
    ensures
      var next := k.next[Last(f.kids) := k.next[f.id]];
      var l := Links(next[f.id := k.list[f.id]], k.list[f.id := None], k.parent);
      && Segment(l, Entry(f.id, Empty, Join(f.kids, f.rest)), Some(id), None)
      && SameBut(h, l, Preorder(f))
  {
    PreorderParts(f);
    var last := Last(f.kids);
    LastInside(f.kids);
    FirstLinks(h, k, f, Some(id));
    hide Distinct, Disjoint, Segment, Last;
    SegmentEnd(k, f.kids, Some(id), None, k.next[f.id]);
    var mid, l := EndTo(k, last, k.next[f.id]), Spliced(k, f.id, last);
    SplicedSame(k, f.id, last);
    SameButPlus(h, k, l, Preorder(f.kids), f.id, last, Preorder(f));
    hide SameBut, Preorder, EndTo, Spliced;
    SegmentAway(mid, l, f.kids, Some(id), Head(f.rest, None), f.id, f.id);
    SegmentFrame(h, k, f.rest, Some(id), None, Preorder(f.kids));
    NotBoth(Preorder(f.kids), Preorder(f.rest), last);
    SegmentAway(k, l, f.rest, Some(id), None, f.id, last);
    SegmentJoin(l, f.kids, f.rest, Some(id), None);
    FirstEntry(l, f.id, Join(f.kids, f.rest), Some(id));
  }

  function EndTo(k: Links, last: nat, to: Link): Links
    requires last < |k.next|
  {
    k.(next := k.next[last := to])
  }

  /** The list below an entry put behind it. */
  function Spliced(k: Links, id: nat, last: nat): Links
    requires id < |k.next| == |k.list| && last < |k.next|
  {
    Links(k.next[last := k.next[id]][id := k.list[id]], k.list[id := None], k.parent)
  }

  lemma SplicedSame(k: Links, id: nat, last: nat)
    requires Sized(k) && id < |k.next| && last < |k.next|
    ensures SameBut(EndTo(k, last, k.next[id]), Spliced(k, id, last), [id, id])
    ensures SameBut(k, Spliced(k, id, last), [id, last])
    ensures var l := Spliced(k, id, last);
      l.next[id] == k.list[id] && l.list[id] == None && l.parent == k.parent && |l.next| == |k.next| && Sized(l)
  {
  }

  /** The links of the first entry itself, when only those below it differ. */
  lemma FirstLinks(h: Links, k: Links, f: Forest, up: Link)
    requires Sized(h) && f.Entry? && Segment(h, f, up, None) && SameBut(h, k, Preorder(f.kids)) && f.id !in Preorder(f.kids)
    ensures f.id < |k.next| && k.next[f.id] == Head(f.rest, None) && k.list[f.id] == Head(f.kids, None) && k.parent[f.id] == up
    ensures Segment(h, f.rest, up, None)
  {
  }

  lemma FirstEntry(l: Links, id: nat, rest: Forest, up: Link)
    requires Sized(l) && id < |l.next| && l.parent[id] == up && l.list[id] == None
    requires l.next[id] == Head(rest, None) && Segment(l, rest, up, None)
    ensures Segment(l, Entry(id, Empty, rest), up, None)
  {
  }

  lemma FinalizeAllStep(m: Menus, f: Forest)
    requires f.Entry?
    ensures
      var first := Finalize(m, f);
      FinalizeAll(m, f) == Entry(first.id, first.kids, FinalizeAll(m, first.rest))
      && Size(first.rest) < Size(f)
  {
    hide Finalize, Preorder;
    PreorderSize(Finalize(m, f));
  }

  lemma AbsorbStep(m: Menus, id: nat, f: Forest)
    requires f.Entry? && m.belongs(id, f.id)
    ensures
      var first := Finalize(m, f);
      Absorb(m, id, f) == (Entry(first.id, first.kids, Absorb(m, id, first.rest).0), Absorb(m, id, first.rest).1)
      && Size(first.rest) < Size(f)
  {
    hide Finalize, Preorder;
    PreorderSize(Finalize(m, f));
  }

  lemma AbsorbStops(m: Menus, id: nat, f: Forest)
    requires f.Empty? || !m.belongs(id, f.id)
    ensures Absorb(m, id, f) == (Empty, f)
  {
    hide Finalize;
  }

  lemma PreorderSize(f: Forest)
    requires f.Entry?
    ensures Size(f.rest) < Size(f)
  {
  }

  /** Half-way along the list below `id`: the entries of `done` are as
      re-nesting leaves them. */
  ghost predicate Renested(m: Menus, g: Links, h: Links, done: Forest, cur: Forest, id: nat, kids: Forest)
    requires Sized(h)
  {
    && SameBut(g, h, Preorder(kids))
    && Between(h, done, Some(id), cur, Some(id), Preorder(kids))
    && Join(done, FinalizeAll(m, cur)) == FinalizeAll(m, kids)
  }

  lemma RenestedStart(m: Menus, g: Links, id: nat, kids: Forest)
    requires Sized(g) && Holds(g, kids, Some(id), None)
    ensures Renested(m, g, g, Empty, kids, id, kids)
  {
    BetweenStart(g, kids, Some(id), Some(id));
    hide Segment, Distinct, FinalizeAll, Between, SameBut;
  }

  lemma LogSame(was: seq<nat>, f: Forest, g: Forest)
    requires Preorder(f) == Preorder(g)
    ensures Log(was, f) == Log(was, g)
  {
  }

  lemma HoldsAgain(h: Links, k: Links, cur: Forest, first: Forest, up: Link)
    requires Sized(h) && Sized(k) && Holds(h, cur, up, None)
    requires Segment(k, first, up, None) && Preorder(first) == Preorder(cur)
    ensures Holds(k, first, up, None)
  {
    hide Segment, Distinct;
  }

  lemma NotBoth(a: seq<nat>, b: seq<nat>, x: nat)
    requires Disjoint(a, b) && x in a
    ensures x !in b
  {
  }

  lemma RenestedOn(m: Menus, g: Links, h: Links, k: Links, done: Forest, cur: Forest, id: nat, kids: Forest)
    requires Sized(h) && cur.Entry? && Renested(m, g, h, done, cur, id, kids)
    requires SameBut(h, k, Preorder(cur)) && Sized(k) && Segment(k, Finalize(m, cur), Some(id), None)
    ensures
      var first := Finalize(m, cur);
      && Renested(m, g, k, Join(done, Single(first)), first.rest, id, kids)
      && cur.id == first.id < |k.next| && k.next[first.id] == Head(first.rest, None) && Size(first.rest) < Size(cur)
  {
    hide Segment, SameBut, Distinct, Between, Finalize, FinalizeAll, Join, Preorder;
    var first := Finalize(m, cur);
    SegmentApart(k, first, Some(id));
    Advance(g, h, k, done, Some(id), cur, Some(id), first, Preorder(kids));
    FinalizeAllStep(m, cur);
    JoinOn(done, first, FinalizeAll(m, first.rest));
  }

  lemma RenestedAll(m: Menus, g: Links, h: Links, done: Forest, id: nat, kids: Forest)
    requires Sized(h) && Renested(m, g, h, done, Empty, id, kids)
    ensures SameBut(g, h, Preorder(kids)) && Segment(h, FinalizeAll(m, kids), Some(id), None)
    ensures Preorder(done) == Preorder(kids)
  {
    hide Segment, SameBut, Distinct, Between;
    BetweenEnd(h, done, Some(id), Some(id), Preorder(kids));
  }

  /** Half-way along the entries after the first one: those of `done` have been
      re-nested and given a new parent. */
  ghost predicate TakenSoFar(m: Menus, g: Links, h: Links, done: Forest, cur: Forest, last: Link, f: Forest, up: Link)
    requires Sized(h) && f.Entry?
  {
    && SameBut(g, h, Preorder(f.rest))
    && Between(h, done, Some(f.id), cur, up, Preorder(f.rest))
    && Join(done, Absorb(m, f.id, cur).0) == Absorb(m, f.id, f.rest).0
    && Absorb(m, f.id, cur).1 == Absorb(m, f.id, f.rest).1
    && last == (if done.Empty? then None else Some(Last(done)))
  }

  lemma TakenStart(m: Menus, g: Links, f: Forest, up: Link)
    requires Sized(g) && f.Entry? && Holds(g, f, up, None)
    ensures TakenSoFar(m, g, g, Empty, f.rest, None, f, up)
    ensures f.id < |g.next| && g.next[f.id] == Head(f.rest, None)
  {
    hide Distinct, Disjoint, Absorb;
    PreorderParts(f);
    BetweenStart(g, f.rest, Some(f.id), up);
  }

  lemma TakenHolds(m: Menus, g: Links, h: Links, done: Forest, cur: Forest, last: Link, f: Forest, up: Link)
    requires Sized(h) && f.Entry? && TakenSoFar(m, g, h, done, cur, last, f, up)
    ensures Holds(h, cur, up, None) && (cur.Entry? ==> Size(cur) <= Size(f.rest))
  {
    hide Segment, SameBut, Distinct, Absorb, Join, Holds;
    BetweenHolds(h, done, Some(f.id), cur, up, Preorder(f.rest));
    assert |Preorder(cur)| <= |Preorder(f.rest)|;
  }

  lemma TakenOn(m: Menus, g: Links, h: Links, k: Links, done: Forest, cur: Forest, last: Link, f: Forest, up: Link)
    requires Sized(h) && f.Entry? && cur.Entry? && m.belongs(f.id, cur.id)
    requires TakenSoFar(m, g, h, done, cur, last, f, up)
    requires SameBut(h, k, Preorder(cur)) && Sized(k) && Segment(k, Finalize(m, cur), up, None)
    ensures cur.id < |k.parent|
    ensures
      var first := Finalize(m, cur);
      var l := k.(parent := k.parent[cur.id := Some(f.id)]);
      && TakenSoFar(m, g, l, Join(done, Single(first)), first.rest, Some(cur.id), f, up)
      && cur.id == first.id && l.next[first.id] == Head(first.rest, None) && Size(first.rest) < Size(cur)
  {
    hide Segment, SameBut, Distinct, Between, Finalize, Absorb, Join, Preorder, Holds;
    var first := Finalize(m, cur);
    BetweenHolds(h, done, Some(f.id), cur, up, Preorder(f.rest));
    HoldsAgain(h, k, cur, first, up);
    NewParent(k, first, up, Some(f.id));
    var l := k.(parent := k.parent[cur.id := Some(f.id)]);
    SameButTrans(h, k, l, Preorder(cur), Preorder(cur));
    Advance(g, h, l, done, Some(f.id), cur, up, first, Preorder(f.rest));
    AbsorbStep(m, f.id, cur);
    JoinOn(done, first, Absorb(m, f.id, first.rest).0);
    LastJoin(done, Single(first));
  }

  lemma TakenAll(m: Menus, g: Links, h: Links, done: Forest, cur: Forest, last: Link, f: Forest, up: Link)
    requires Sized(h) && f.Entry? && TakenSoFar(m, g, h, done, cur, last, f, up)
    requires cur.Empty? || !m.belongs(f.id, cur.id)
    ensures SameBut(g, h, Preorder(f.rest)) && Between(h, done, Some(f.id), cur, up, Preorder(f.rest))
    ensures Absorb(m, f.id, f.rest) == (done, cur)
    ensures last == if done.Empty? then None else Some(Last(done))
  {
    hide Segment, SameBut, Distinct, Between, Finalize, Absorb;
    AbsorbStops(m, f.id, cur);
    JoinEmpty(done);
  }

  lemma Opened(h: Links, f: Forest, up: Link)
    requires Sized(h) && f.Entry? && Holds(h, f, up, None)
    ensures f.id < |h.list| == |h.next| && h.list[f.id] == Head(f.kids, None) && f.id !in Preorder(f.kids)
    ensures Holds(h, f.kids, Some(f.id), None) && Segment(h, f, up, None) && Distinct(Preorder(f))
    ensures h.list[f.id] == None <==> f.kids.Empty?
    ensures Size(f.kids) < Size(f) && Size(f.rest) < Size(f)
  {
    hide Distinct, Disjoint;
    PreorderParts(f);
  }

  lemma StillHolds(h: Links, f: Forest, k: Forest, up: Link)
    requires Sized(h) && Segment(h, k, up, None) && Preorder(k) == Preorder(f) && Distinct(Preorder(f))
    ensures Holds(h, k, up, None)
  {
  }

  lemma FinalizeWithList(m: Menus, f: Forest, was: seq<nat>)
    requires f.Entry? && f.kids.Entry?
    ensures Finalize(m, f) == Entry(f.id, Lift(m, FinalizeAll(m, f.kids)), f.rest)
    ensures Log(was + [f.id], f.kids) == Log(was, Single(Finalize(m, f)))
    ensures Preorder(Entry(f.id, FinalizeAll(m, f.kids), f.rest)) == Preorder(f)
  {
    hide Lift, FinalizeAll;
    assert Preorder(Single(Finalize(m, f))) == [f.id] + Preorder(f.kids);
    assert (was + [f.id]) + Preorder(f.kids) == was + ([f.id] + Preorder(f.kids));
  }

  lemma FinalizeWithout(m: Menus, f: Forest, was: seq<nat>)
    requires f.Entry? && f.kids.Empty? && m.symbol(f.id)
    ensures
      var taken := Absorb(m, f.id, f.rest);
      && Finalize(m, f) == Entry(f.id, Lift(m, taken.0), taken.1)
      && Log(was + [f.id], taken.0) == Log(was, Single(Finalize(m, f)))
      && Preorder(Entry(f.id, taken.0, taken.1)) == Preorder(f)
  {
    hide Lift, Absorb;
    var taken := Absorb(m, f.id, f.rest);
    assert (was + [f.id]) + Preorder(taken.0) == was + ([f.id] + Preorder(taken.0));
  }

  lemma FinalizeNothing(m: Menus, f: Forest, was: seq<nat>)
    requires f.Entry? && f.kids.Empty? && !m.symbol(f.id)
    ensures Finalize(m, f) == f && was + [f.id] == Log(was, Single(f))
  {
    assert Preorder(Single(f)) == [f.id];
  }

  class Tree {

    const m: Menus

    var next: seq<Link>
    var list: seq<Link>
    var parent: seq<Link>

    // The entries that re-nesting has been called for, in order.
    ghost var finalized: seq<nat>

    ghost function Now(): Links
      reads this
    {
      Links(next, list, parent)
    }

    constructor (menus: Menus, h: Links)
      ensures m == menus && Now() == h && finalized == []
    {
      m := menus;
      next, list, parent, finalized := h.next, h.list, h.parent, [];
    }

    /** Re-nests the list that starts with `id`, as far as `id` is concerned. */
    method MenuFinalize(id: nat, ghost f: Forest, ghost up: Link)
      requires Sized(Now()) && f.Entry? && f.id == id && Holds(Now(), f, up, None)
      modifies this
      ensures Sized(Now()) && SameBut(old(Now()), Now(), Preorder(f))
      ensures Segment(Now(), Finalize(m, f), up, None)
      ensures finalized == Log(old(finalized), Single(Finalize(m, f)))
      decreases Size(f), 0
    {
      ghost var g := Now();
      hide Holds, Segment, SameBut, Distinct, Between, Finalize, FinalizeAll, Absorb, Lift, Join, Preorder, Log, Renested, TakenSoFar, Size;
      Opened(g, f, up);
      finalized := finalized + [id];
      if list[id] != None {
        FinalizeList(id, f.kids);
        ListDone(g, Now(), f, FinalizeAll(m, f.kids), up);
        ghost var h := Now();
        LiftUntitled(id, Entry(id, FinalizeAll(m, f.kids), f.rest), up);
        FinalizeWithList(m, f, old(finalized));
        SameButTrans(g, h, Now(), Preorder(f), Preorder(f));
      } else if m.symbol(id) {
        TakeIn(id, f, up);
        ghost var h := Now();
        FinalizeWithout(m, f, old(finalized));
        StillHolds(h, f, Entry(id, Absorb(m, id, f.rest).0, Absorb(m, id, f.rest).1), up);
        LiftUntitled(id, Entry(id, Absorb(m, id, f.rest).0, Absorb(m, id, f.rest).1), up);
        SameButTrans(g, h, Now(), Preorder(f), Preorder(f));
      } else {
        FinalizeNothing(m, f, old(finalized));
        SameButSelf(g, Preorder(f));
      }
    }

    /** Re-nests the entries of the list below `id` one after the other. */
    method FinalizeList(id: nat, ghost kids: Forest)
      requires Sized(Now()) && id < |next| && kids.Entry? && Holds(Now(), kids, Some(id), None)
      requires list[id] == Some(kids.id) && id !in Preorder(kids)
      modifies this
      ensures Sized(Now()) && SameBut(old(Now()), Now(), Preorder(kids))
      ensures Segment(Now(), FinalizeAll(m, kids), Some(id), None)
      ensures finalized == Log(old(finalized), kids)
      decreases Size(kids), 1
    {
      var menu := list[id];
      ghost var g, was, done, cur := Now(), finalized, Empty, kids;
      hide Holds, Segment, SameBut, Distinct, Between, Finalize, FinalizeAll, Absorb, Lift, Join, Preorder, Log, Renested, TakenSoFar, Size;
      BetweenStart(g, kids, Some(id), Some(id));
      JoinStart(FinalizeAll(m, kids));
      LogOn(was, Empty, kids);
      RenestedStart(m, g, id, kids);
      while menu != None
        invariant Sized(Now()) && menu == Head(cur, None) && Renested(m, g, Now(), done, cur, id, kids)
        invariant finalized == Log(was, done)
        decreases Size(cur)
      {
        ghost var h, first := Now(), Finalize(m, cur);
        BetweenHolds(h, done, Some(id), cur, Some(id), Preorder(kids));
        MenuFinalize(menu.value, cur, Some(id));
        RenestedOn(m, g, h, Now(), done, cur, id, kids);
        LogOn(was, done, first);
        done, cur := Join(done, Single(first)), first.rest;
        menu := next[menu.value];
      }
      RenestedAll(m, g, Now(), done, id, kids);
      LogSame(was, done, kids);
    }

    /** Moves the entries after `id` that belong below it into a list of its
        own, re-nesting each of them first. */
    method TakeIn(id: nat, ghost f: Forest, ghost up: Link)
      requires Sized(Now()) && f.Entry? && f.id == id && f.kids.Empty? && Holds(Now(), f, up, None)
      modifies this
      ensures Sized(Now()) && SameBut(old(Now()), Now(), Preorder(f))
      ensures Segment(Now(), Entry(id, Absorb(m, id, f.rest).0, Absorb(m, id, f.rest).1), up, None)
      ensures finalized == Log(old(finalized), Absorb(m, id, f.rest).0)
      decreases Size(f.rest), 2
    {
      ghost var g, was, done, cur := Now(), finalized, Empty, f.rest;
      hide Holds, Segment, SameBut, Distinct, Between, Finalize, Absorb, Join, Preorder, Log, TakenSoFar, Size;
      Opened(g, f, up);
      TakenStart(m, g, f, up);
      LogOn(was, Empty, f);
      var menu, last: Link := next[id], None;
      while menu != None && m.belongs(id, menu.value)
        invariant Sized(Now()) && menu == Head(cur, None) && TakenSoFar(m, g, Now(), done, cur, last, f, up)
        invariant finalized == Log(was, done)
        decreases Size(cur)
      {
        ghost var first := Finalize(m, cur);
        TakenHolds(m, g, Now(), done, cur, last, f, up);
        TakeOne(menu.value, id, g, done, cur, last, f, up);
        LogOn(was, done, first);
        last := menu;
        done, cur := Join(done, Single(first)), first.rest;
        menu := next[menu.value];
      }
      TakenAll(m, g, Now(), done, cur, last, f, up);
      Cut(id, last, g, f, done, cur, up);
    }

    /** Re-nests the next entry that belongs below the entry of `f`, and makes it
        the parent. */
    method TakeOne(menu: nat, id: nat, ghost g: Links, ghost done: Forest, ghost cur: Forest, ghost last: Link,
                   ghost f: Forest, ghost up: Link)
      requires Sized(Now()) && f.Entry? && f.id == id && cur.Entry? && cur.id == menu && m.belongs(f.id, menu)
      requires TakenSoFar(m, g, Now(), done, cur, last, f, up) && Size(cur) <= Size(f.rest)
      modifies this
      ensures Sized(Now()) && TakenSoFar(m, g, Now(), Join(done, Single(Finalize(m, cur))), Finalize(m, cur).rest, Some(menu), f, up)
      ensures menu == Finalize(m, cur).id < |next| && next[menu] == Head(Finalize(m, cur).rest, None)
      ensures Size(Finalize(m, cur).rest) < Size(cur)
      ensures finalized == Log(old(finalized), Single(Finalize(m, cur)))
      decreases Size(cur), 1
    {
      hide Holds, Segment, SameBut, Distinct, Between, Finalize, Absorb, Join, Preorder, Log, TakenSoFar, Size;
      ghost var h := Now();
      TakenHolds(m, g, h, done, cur, last, f, up);
      MenuFinalize(menu, cur, up);
      TakenOn(m, g, h, Now(), done, cur, last, f, up);
      parent := parent[menu := Some(id)];
    }

    /** Makes the entries taken in, the last of which is `last`, a list of its
        own. */
    method Cut(id: nat, last: Link, ghost h: Links, ghost f: Forest, ghost done: Forest, ghost cur: Forest, ghost up: Link)
      requires Sized(h) && f.Entry? && f.id == id && f.kids.Empty? && Holds(h, f, up, None)
      requires SameBut(h, Now(), Preorder(f.rest)) && Between(Now(), done, Some(id), cur, up, Preorder(f.rest))
      requires last == if done.Empty? then None else Some(Last(done))
      modifies this`next, this`list
      ensures Sized(Now()) && SameBut(h, Now(), Preorder(f)) && Segment(Now(), Entry(id, done, cur), up, None)
    {
      hide Segment, Distinct, Between;
      if last != None {
        TakenIn(h, Now(), f, done, cur, up);
        list := list[id := next[id]];
        next := next[id := next[last.value]];
        next := next[last.value := None];
      } else {
        NothingTaken(h, Now(), f, cur, up);
      }
    }

    /** Gives the lists of untitled entries below `id` to the list below `id`. */
    method LiftUntitled(id: nat, ghost f: Forest, ghost up: Link)
      requires Sized(Now()) && f.Entry? && f.id == id && Holds(Now(), f, up, None)
      modifies this`next, this`list, this`parent
      ensures Sized(Now()) && SameBut(old(Now()), Now(), Preorder(f))
      ensures Segment(Now(), Entry(id, Lift(m, f.kids), f.rest), up, None)
    {
      var menu := list[id];
      ghost var done, cur := Empty, f.kids;
      hide SameBut, Distinct, Between, Disjoint;
      PreorderParts(f);
      ListOf(Now(), f, up);
      hide Segment;
      BetweenStart(Now(), f.kids, Some(id), Some(id));
      while menu != None
        invariant SameBut(old(Now()), Now(), Preorder(f.kids)) && Sized(Now()) && menu == Head(cur, None)
        invariant Between(Now(), done, Some(id), cur, Some(id), Preorder(f.kids))
        invariant Join(done, Lift(m, cur)) == Lift(m, f.kids)
        decreases Size(cur)
      {
        ghost var h, first := Now(), cur;
        BetweenHolds(h, done, Some(id), cur, Some(id), Preorder(f.kids));
        ListOf(h, cur, Some(id));
        if list[menu.value] != None && !m.titled(menu.value) {
          first := Entry(cur.id, Empty, Join(cur.kids, cur.rest));
          PreorderJoin(cur.kids, cur.rest);
          Promote(menu.value, id, cur);
        } else {
          SameButSelf(h, Preorder(cur));
        }
        SegmentApart(Now(), first, Some(id));
        Advance(old(Now()), h, Now(), done, Some(id), cur, Some(id), first, Preorder(f.kids));
        JoinOn(done, first, Lift(m, first.rest));
        done, cur := Join(done, Single(first)), first.rest;
        menu := next[menu.value];
      }
      BetweenEnd(Now(), done, Some(id), Some(id), Preorder(f.kids));
      ListDone(old(Now()), Now(), f, Lift(m, f.kids), up);
    }

    /** Puts the list below `e` behind `e` in the list below `id`. */
    method Promote(e: nat, id: nat, ghost f: Forest)
      requires Sized(Now()) && f.Entry? && f.id == e && f.kids.Entry? && Holds(Now(), f, Some(id), None)
      modifies this`next, this`list, this`parent
      ensures Sized(Now()) && SameBut(old(Now()), Now(), Preorder(f))
      ensures Segment(Now(), Entry(e, Empty, Join(f.kids, f.rest)), Some(id), None)
    {
      PreorderParts(f);
      var last := Reparent(list[e].value, Some(id), f.kids, Some(e));
      Promoted(old(Now()), Now(), f, id);
      next := next[last := next[e]];
      next := next[e := list[e]];
      list := list[e := None];
    }

    /** Makes `to` the parent of every entry of a list, and finds the last one. */
    method Reparent(first: nat, to: Link, ghost f: Forest, ghost up: Link) returns (last: nat)
      requires Sized(Now()) && f.Entry? && f.id == first && Holds(Now(), f, up, None)
      modifies this`parent
      ensures Sized(Now()) && SameBut(old(Now()), Now(), Preorder(f))
      ensures Segment(Now(), f, to, None) && last == Last(f)
    {
      last := first;
      ghost var done, cur := Empty, f;
      hide Segment, SameBut, Distinct, Between;
      BetweenStart(Now(), f, to, up);
      while true
        invariant SameBut(old(Now()), Now(), Preorder(f)) && Sized(Now())
        invariant Between(Now(), done, to, cur, up, Preorder(f))
        invariant Join(done, cur) == f && cur.Entry? && last == cur.id
        decreases Size(cur)
      {
        ghost var h := Now();
        BetweenHolds(h, done, to, cur, up, Preorder(f));
        NewParent(h, cur, up, to);
        parent := parent[last := to];
        Advance(old(Now()), h, Now(), done, to, cur, up, cur, Preorder(f));
        JoinOn(done, cur, cur.rest);
        LastJoin(done, Single(cur));
        done, cur := Join(done, Single(cur)), cur.rest;
        if next[last] == None { break; }
        last := next[last].value;
      }
      BetweenEnd(Now(), done, to, up, Preorder(f));
    }

    /** The walk that writes the configuration: down into a list first, then on
        along it, and at its end up to the nearest entry that is followed by
        another one. It meets each entry once, in the order of the forest. */
    method ConfWrite(root: nat, ghost f: Forest) returns (visited: seq<nat>)
      requires Sized(Now()) && Around(Now(), Top(root))
      requires list[root] == Head(f, None) && Segment(Now(), f, Some(root), None)
      ensures visited == Preorder(f)
    {
      visited := [];
      var menu := list[root];
      ghost var cur, up := f, Top(root);
      while menu != None
        invariant menu == Head(cur, None) && Segment(Now(), cur, Some(Id(up)), None)
        invariant Around(Now(), up) && visited + Ahead(cur, up) == Preorder(f)
        invariant cur.Empty? ==> up.Top?
        decreases |Preorder(f)| - |visited|
      {
        var e := menu.value;
        AheadStep(cur, up, visited);
        visited := visited + [e];
        if list[e] != None {
          cur, up := cur.kids, Under(cur.id, cur.rest, up);
          menu := list[e];
        } else if next[e] != None {
          cur := cur.rest;
          menu := next[e];
        } else {
          menu, cur, up := Climb(e, up);
        }
      }
    }

    /** From the last entry of a list to the nearest entry that follows one of
        those it is nested in. */
    method Climb(e: nat, ghost above: Up) returns (menu: Link, ghost cur: Forest, ghost up: Up)
      requires Sized(Now()) && Around(Now(), above) && e < |next| && parent[e] == Some(Id(above))
      ensures menu == Head(cur, None) && Segment(Now(), cur, Some(Id(up)), None)
      ensures Around(Now(), up) && Ahead(cur, up) == Ahead(Empty, above)
      ensures cur.Empty? ==> up.Top?
    {
      menu, cur, up := parent[e], Empty, above;
      while menu != None
        invariant menu == None ==> up.Top?
        invariant menu != None ==> menu == Some(Id(up))
        invariant Around(Now(), up) && Ahead(Empty, up) == Ahead(Empty, above)
        decreases up, if menu == None then 0 else 1
      {
        if next[menu.value] != None {
          menu := next[menu.value];
          cur, up := up.rest, up.above;
          return;
        }
        menu := parent[menu.value];
        if up.Under? { up := up.above; }
      }
    }
  }

  /** The lists that the present one is nested in: the entry it is below, and
      the entries after that one. */
  datatype Up = Top(root: nat) | Under(id: nat, rest: Forest, above: Up)

  function Id(up: Up): nat {
    match up
    case Top(root) => root
    case Under(id, _, _) => id
  }

  ghost predicate Around(h: Links, up: Up)
    requires Sized(h)
  {
    match up
    case Top(root) => root < |h.next| && h.next[root] == None && h.parent[root] == None
    case Under(id, rest, above) =>
      && id < |h.next| && h.parent[id] == Some(Id(above))
      && h.next[id] == Head(rest, None) && Segment(h, rest, Some(Id(above)), None)
      && Around(h, above)
  }

  /** The entries still to be met. */
  function Ahead(cur: Forest, up: Up): seq<nat>
    decreases up
  {
    match up
    case Top(_) => Preorder(cur)
    case Under(_, rest, above) => Preorder(cur) + Ahead(rest, above)
  }

  lemma AheadStep(cur: Forest, up: Up, visited: seq<nat>)
    requires cur.Entry?
    ensures visited + Ahead(cur, up) == visited + [cur.id] + Ahead(cur.kids, Under(cur.id, cur.rest, up))
    ensures cur.kids.Empty? ==> visited + Ahead(cur, up) == visited + [cur.id] + Ahead(cur.rest, up)
  {
    PreorderOf(cur);
    hide Preorder;
    var a, b := Preorder(cur.kids), Preorder(cur.rest);
    Regroup(visited, cur.id, a, b, if up.Under? then Ahead(up.rest, up.above) else []);
    if cur.kids.Empty? { assert a == [] by { JoinStart(Empty); } }
  }

  lemma PreorderOf(f: Forest)
    requires f.Entry?
    ensures Preorder(f) == [f.id] + Preorder(f.kids) + Preorder(f.rest)
  {
  }

  lemma Regroup(v: seq<nat>, x: nat, a: seq<nat>, b: seq<nat>, c: seq<nat>)
    ensures v + (([x] + a + b) + c) == v + [x] + (a + (b + c))
    ensures c == [] ==> v + ([x] + a + b) == v + [x] + (a + b)
    ensures a == [] ==> a + (b + c) == b + c && a + b == b
  {
    assert [x] + a + b + c == [x] + (a + (b + c));
  }
}
