/** Loops in the table: the code of a SEQUENCE OF or SET OF ends in a jump back
    over what it repeats. */
module Asn1Loops {
  import opened Options
  import opened Pigeonhole
  import opened Asn1Code
  import opened Asn1Layout

  function LoopOp(e: Element): Op {
    if e.compound.SequenceOf? then EndSeqOf(e.action.Some?) else EndSetOf(e.action.Some?)
  }

  /** `inner` is what the loop of an element repeats, inline or out of line. */
  ghost predicate Repeats(g: Grammar, id: nat, inner: seq<Item>)
    requires WellFormed(g)
  {
    && id < |g.elements|
    && (g.elements[id].compound.SequenceOf? || g.elements[id].compound.SetOf?)
    && exists ids, bound ::
         && (ids == g.elements[id].children || (ids <= g.elements[id].children && |ids| == 1))
         && Below(g, ids, bound, false) && inner == CodeAll(g, ids, bound, false)
  }

  /** The item at `i` ends the loop of an element, which stands in full before it. */
  ghost predicate EndsLoop(g: Grammar, items: seq<Item>, i: nat, id: nat, inner: seq<Item>)
    requires WellFormed(g) && i < |items|
  {
    && Repeats(g, id, inner) && |inner| + 1 <= i
    && items[i - 1 - |inner|..i + 1] == inner + LoopEnd(LoopOp(g.elements[id]), inner)
  }

  ghost predicate Ends(g: Grammar, items: seq<Item>, i: nat)
    requires WellFormed(g) && i < |items|
  {
    exists id: nat, inner: seq<Item> :: EndsLoop(g, items, i, id, inner)
  }

  ghost predicate Looped(g: Grammar, items: seq<Item>)
    requires WellFormed(g)
  {
    forall i :: 0 <= i < |items| && items[i].Back? ==> Ends(g, items, i)
  }

  lemma SliceWithin(part: seq<Item>, all: seq<Item>, from: nat, i: nat, j: nat)
    requires i <= j <= |part| && from + |part| <= |all| && all[from..from + |part|] == part
    ensures all[from + i..from + j] == part[i..j]
  {
    forall k | 0 <= k < j - i ensures all[from + i..from + j][k] == part[i..j][k] {
      assert part[i + k] == all[from..from + |part|][i + k];
    }
  }

  /** A loop ends in a longer listing where it ends in a part of it. */
  lemma EndsWithin(g: Grammar, part: seq<Item>, all: seq<Item>, from: nat, i: nat)
    requires WellFormed(g) && i < |part| && from + |part| <= |all| && all[from..from + |part|] == part
    requires Ends(g, part, i)
    ensures Ends(g, all, from + i)
  {
    hide Repeats, WellFormed, LoopEnd, LoopOp;
    var id: nat, inner: seq<Item> :| EndsLoop(g, part, i, id, inner);
    var at := i - 1 - |inner|;
    SliceWithin(part, all, from, at, i + 1);
    assert EndsLoop(g, all, from + i, id, inner);
  }

  lemma LoopedJoin(g: Grammar, a: seq<Item>, b: seq<Item>)
    requires WellFormed(g) && Looped(g, a) && Looped(g, b)
    ensures Looped(g, a + b)
  {
    hide Repeats, WellFormed, Ends;
    forall i | 0 <= i < |a + b| && (a + b)[i].Back?
      ensures Ends(g, a + b, i)
    {
      if i < |a| {
        EndsWithin(g, a, a + b, 0, i);
      } else {
        EndsWithin(g, b, a + b, |a|, i - |a|);
      }
    }
  }

  lemma LoopClosed(g: Grammar, id: nat, inner: seq<Item>)
    requires WellFormed(g) && Looped(g, inner) && Repeats(g, id, inner)
    ensures Looped(g, inner + LoopEnd(LoopOp(g.elements[id]), inner))
  {
    hide WellFormed, EndsLoop, LoopOp;
    assert id < |g.elements|;
    hide Repeats;
    var all := inner + LoopEnd(LoopOp(g.elements[id]), inner);
    forall i | 0 <= i < |all| && all[i].Back?
      ensures Ends(g, all, i)
    {
      if i < |inner| {
        assert all[0..0 + |inner|] == inner;
        EndsWithin(g, inner, all, 0, i);
      } else {
        LastLoop(g, id, inner);
      }
    }
  }

  lemma LastLoop(g: Grammar, id: nat, inner: seq<Item>)
    requires WellFormed(g) && Repeats(g, id, inner)
    ensures var all := inner + LoopEnd(LoopOp(g.elements[id]), inner);
      EndsLoop(g, all, |inner| + 1, id, inner)
  {
    var all := inner + LoopEnd(LoopOp(g.elements[id]), inner);
    assert all[0..|inner| + 2] == all;
  }

  predicate Straight(items: seq<Item>) {
    forall i :: 0 <= i < |items| ==> !items[i].Back?
  }

  lemma LoopedThen(g: Grammar, a: seq<Item>, b: seq<Item>)
    requires WellFormed(g) && Looped(g, a) && Straight(b)
    ensures Looped(g, a + b)
  {
    LoopedJoin(g, a, b);
  }

  lemma {:induction false} CodeLooped(g: Grammar, id: nat, tag: Option<nat>)
    requires WellFormed(g) && Reached(g, id, tag)
    ensures Looped(g, Code(g, id, tag))
    decreases Rank(g, id, tag) + 1, 1
  {
    hide Looped, Inside;
    var e := g.elements[id];
    Sound(g, id, tag);
    if e.compound.TagOverride? {
      CodeLooped(g, e.children[0], Some(id));
    } else {
      InsideLooped(g, id, tag);
      HeadLooped(g, id, tag);
      LoopedJoin(g, Head(g, id, tag), Inside(g, id, tag));
    }
  }

  lemma HeadLooped(g: Grammar, id: nat, tag: Option<nat>)
    requires WellFormed(g) && Reached(g, id, tag)
    ensures Looped(g, Head(g, id, tag))
  {
    assert Straight(Head(g, id, tag));
  }

  lemma {:induction false} InlineLoop(g: Grammar, id: nat, bound: nat)
    requires WellFormed(g) && id < |g.elements| && g.elements[id].children != []
    requires Below(g, g.elements[id].children[..1], bound, false)
    requires g.elements[id].compound.SequenceOf? || g.elements[id].compound.SetOf?
    ensures var inner := CodeAll(g, g.elements[id].children[..1], bound, false);
      Looped(g, inner + LoopEnd(LoopOp(g.elements[id]), inner) + Final(g.elements[id]))
    decreases bound, |g.elements[id].children[..1]| + 3
  {
    hide Looped, CodeAll, LoopOp, Final, LoopEnd;
    var ids := g.elements[id].children[..1];
    var inner := CodeAll(g, ids, bound, false);
    CodeAllLooped(g, ids, bound, false);
    assert Repeats(g, id, inner);
    LoopClosed(g, id, inner);
    FinalStraight(g.elements[id]);
    LoopedThen(g, inner + LoopEnd(LoopOp(g.elements[id]), inner), Final(g.elements[id]));
  }

  lemma FinalStraight(e: Element)
    ensures Straight(Final(e))
  {
  }

  lemma {:induction false} InsideLooped(g: Grammar, id: nat, tag: Option<nat>)
    requires WellFormed(g) && Reached(g, id, tag)
    requires !g.elements[id].compound.TagOverride?
    ensures Looped(g, Inside(g, id, tag))
    decreases Rank(g, id, tag) + 1, 0
  {
    Sound(g, id, tag);
    hide Code, CodeAll, WellFormed, Looped, Final;
    var e := g.elements[id];
    FinalStraight(e);
    LoopedThen(g, [], Final(e));
    match e.compound
    case TypeRef =>
      var inner := Code(g, e.target, if Bare(e) then tag else None);
      CodeLooped(g, e.target, if Bare(e) then tag else None);
      Endings(g, inner, if e.action.Some? then [Fixed(Opcode(Act(Skippable(g, id, tag))))] else [], [], Final(e));
    case Sequence =>
      OneLooped(g, id);
      if !OutOfLine(g, id, tag) {
        CodeAllLooped(g, e.children, Rank(g, id, tag), false);
        Endings(g, CodeAll(g, e.children, Rank(g, id, tag), false), [Fixed(Opcode(EndSeq(e.action.Some?)))], [], Final(e));
      }
    case SequenceOf =>
      OneLooped(g, id);
      if !OutOfLine(g, id, tag) { InlineLoop(g, id, Rank(g, id, tag)); }
    case SetOf =>
      OneLooped(g, id);
      if !OutOfLine(g, id, tag) { InlineLoop(g, id, Rank(g, id, tag)); }
    case Choice =>
      CodeAllLooped(g, e.children, Rank(g, id, tag), true);
      Endings(g, CodeAll(g, e.children, Rank(g, id, tag), true),
              if Skippable(g, id, tag) then [] else [Fixed(Opcode(CondFail))],
              if e.action.Some? then [Fixed(Opcode(Act(false)))] else [], Final(e));
    case Set => LoopedThen(g, [], [Unsupported]);
    case _ =>
  }

  lemma OneLooped(g: Grammar, id: nat)
    requires WellFormed(g)
    ensures Looped(g, [BodyOf(id)])
  {
  }

  lemma Endings(g: Grammar, a: seq<Item>, b: seq<Item>, c: seq<Item>, d: seq<Item>)
    requires WellFormed(g) && Looped(g, a) && Straight(b) && Straight(c) && Straight(d)
    ensures Looped(g, a + b + c + d) && Looped(g, a + b + d)
  {
    hide Looped, Straight;
    LoopedThen(g, a, b);
    LoopedThen(g, a + b, c);
    LoopedThen(g, a + b + c, d);
    LoopedThen(g, a + b, d);
  }

  lemma {:induction false} CodeAllLooped(g: Grammar, ids: seq<nat>, bound: nat, choice: bool)
    requires WellFormed(g) && Below(g, ids, bound, choice)
    ensures Looped(g, CodeAll(g, ids, bound, choice))
    decreases bound, |ids| + 2
  {
    hide Looped, Code;
    if ids == [] {
      NoneLooped(g);
    } else {
      var last := ids[|ids| - 1];
      var tag := if choice then Some(last) else None;
      CodeAllLooped(g, ids[..|ids| - 1], bound, choice);
      CodeLooped(g, last, tag);
      LoopedJoin(g, CodeAll(g, ids[..|ids| - 1], bound, choice), Code(g, last, tag));
    }
  }

  lemma NoneLooped(g: Grammar)
    requires WellFormed(g)
    ensures Looped(g, [])
  {
  }

  lemma {:induction false} BodyLooped(g: Grammar, id: nat)
    requires WellFormed(g) && id < |g.elements|
    ensures Looped(g, Body(g, id))
  {
    if Ready(g, id) {
      ReadyBodyLooped(g, id);
    } else {
      NoneLooped(g);
    }
  }

  lemma {:induction false} ReadyBodyLooped(g: Grammar, id: nat)
    requires WellFormed(g) && Ready(g, id)
    ensures Looped(g, ReadyBody(g, id))
  {
    hide CodeAll, WellFormed, Looped, Final;
    var e := g.elements[id];
    var inner := CodeAll(g, e.children, g.top, false);
    CodeAllLooped(g, e.children, g.top, false);
    FinalStraight(e);
    if e.compound.SequenceOf? || e.compound.SetOf? {
      assert Repeats(g, id, inner);
      LoopClosed(g, id, inner);
      Endings(g, inner + Ending(g, id, inner), Final(e), [], [Fixed(Opcode(Return))]);
    } else {
      Endings(g, inner, Ending(g, id, inner), Final(e), [Fixed(Opcode(Return))]);
    }
  }

  lemma {:induction false} BodiesLooped(g: Grammar, order: seq<nat>)
    requires WellFormed(g) && InRange(order, |g.elements|)
    ensures Looped(g, Bodies(g, order))
  {
    hide Body, Looped;
    if order == [] {
      NoneLooped(g);
    } else {
      BodiesLooped(g, order[..|order| - 1]);
      BodyLooped(g, order[|order| - 1]);
      LoopedJoin(g, Bodies(g, order[..|order| - 1]), Body(g, order[|order| - 1]));
    }
  }

  lemma {:induction false} ListingLooped(g: Grammar)
    requires WellFormed(g)
    ensures Looped(g, Listing(g))
  {
    hide Code, Bodies, Looped, Order;
    CodeLooped(g, g.root, None);
    LoopedThen(g, Code(g, g.root, None), [Fixed(Opcode(Complete))]);
    BodiesLooped(g, Order(g));
    LoopedJoin(g, Start(g), Bodies(g, Order(g)));
  }

  /** Every other jump in a rendered table ends a loop: it holds the address where the code that the
      loop of some element repeats begins, and all of that code stands between there and the
      instruction before the jump. */
  lemma {:induction false} LoopsLand(g: Grammar, table: seq<Entry>, index: seq<nat>, i: nat)
    requires WellFormed(g) && Rendered(g, table, index)
    requires i < |table| && Listing(g)[i].Back?
    ensures exists id: nat, inner: seq<Item> ::
      && Repeats(g, id, inner) && id < |g.elements| && Supported(inner, |index|) && |inner| + 1 <= i
      && table[i] == Target(i - 1 - |inner|) && table[i - 1] == Opcode(LoopOp(g.elements[id]))
      && table[i - 1 - |inner|..i - 1] == Placed(inner, i - 1 - |inner|, index)
  {
    hide WellFormed, Listing, Order, Repeats, EndsLoop, Supported, Placed;
    ListingLooped(g);
    var l := Listing(g);
    var id: nat, inner: seq<Item> :| EndsLoop(g, l, i, id, inner);
    LoopStands(g, l, table, index, i, id, inner);
  }

  lemma LoopStands(g: Grammar, l: seq<Item>, table: seq<Entry>, index: seq<nat>, i: nat, id: nat, inner: seq<Item>)
    requires WellFormed(g) && i < |l| && EndsLoop(g, l, i, id, inner)
    requires Supported(l, |index|) && table == Placed(l, 0, index)
    ensures Repeats(g, id, inner) && id < |g.elements| && Supported(inner, |index|) && |inner| + 1 <= i < |table|
    ensures table[i] == Target(i - 1 - |inner|) && table[i - 1] == Opcode(LoopOp(g.elements[id]))
    ensures table[i - 1 - |inner|..i - 1] == Placed(inner, i - 1 - |inner|, index)
  {
    hide WellFormed, Supported, Placed;
    LoopPlaced(l, table, index, i - 1 - |inner|, i, inner, LoopEnd(LoopOp(g.elements[id]), inner));
  }

  lemma LoopPlaced(l: seq<Item>, table: seq<Entry>, index: seq<nat>, at: nat, i: nat, inner: seq<Item>, end: seq<Item>)
    requires Supported(l, |index|) && table == Placed(l, 0, index)
    requires |end| == 2 && i == at + |inner| + 1 < |l| && l[at..i + 1] == inner + end
    ensures Supported(inner, |index|) && Supported(end, |index|)
    ensures table[at..i - 1] == Placed(inner, at, index)
    ensures table[i - 1] == Resolved(end[0], i - 1, index) && table[i] == Resolved(end[1], i, index)
  {
    assert forall k :: 0 <= k < |inner| ==> l[at + k] == (inner + end)[k] == inner[k];
    assert l[i - 1] == (inner + end)[|inner|] == end[0];
    assert l[i] == (inner + end)[|inner| + 1] == end[1];
    assert forall x :: x in inner ==> x in l;
    assert end[0] in l && end[1] in l;
  }
}
