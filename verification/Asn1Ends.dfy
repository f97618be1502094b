/** Which grammars can be rendered: exactly those in which rendering nests no
    deeper than some bound. */
module Asn1Ends {
  import opened Options
  import opened Pigeonhole
  import opened Asn1Code
  import opened Asn1Layout

  /** An element as rendering meets it; `skip` says that the tag that overrides
      its own may be skipped. */
  datatype Met = Met(id: nat, skip: bool)

  function Plain(ids: seq<nat>): (r: seq<Met>)
    ensures |r| == |ids|
  {
    seq(|ids|, k requires 0 <= k < |ids| => Met(ids[k], false))
  }

  /** What is rendered in the course of rendering an element inline. */
  function Calls(es: seq<Element>, m: Met): seq<Met>
    requires m.id < |es| && ShapedElement(es, m.id)
  {
    var e := es[m.id];
    match e.compound
    case TypeRef => [Met(e.target, m.skip && Bare(e))]
    case TagOverride => [Met(e.children[0], e.skippable)]
    case Choice =>
      seq(|e.children|, k requires 0 <= k < |e.children| => Met(e.children[k], es[e.children[k]].skippable))
    case Sequence => if Apart(e, m.skip) then [] else Plain(e.children)
    case SequenceOf => if Apart(e, m.skip) then [] else Plain(e.children[..1])
    case SetOf => if Apart(e, m.skip) then [] else Plain(e.children[..1])
    case _ => []
  }

  /** What is rendered for its body, when it is rendered out of line. */
  function Later(es: seq<Element>, m: Met): seq<Met>
    requires m.id < |es|
  {
    var e := es[m.id];
    if (e.compound.Sequence? || e.compound.SequenceOf? || e.compound.SetOf?) && Apart(e, m.skip) then
      Plain(e.children)
    else []
  }

  /** Rendering the element nests at most d deep. */
  predicate Within(es: seq<Element>, root: nat, m: Met, d: nat)
    requires Shaped(es, root)
    decreases d
  {
    m.id < |es| && forall k :: 0 <= k < |Calls(es, m)| ==> d > 0 && Within(es, root, Calls(es, m)[k], d - 1)
  }

  /** Some set of elements holds the root and all that is rendered for its members. */
  ghost predicate Closed(es: seq<Element>, root: nat, s: set<Met>)
    requires Shaped(es, root)
  {
    Met(root, false) in s && forall m :: m in s ==> Kept(es, root, s, m)
  }

  ghost predicate Kept(es: seq<Element>, root: nat, s: set<Met>, m: Met)
    requires Shaped(es, root)
  {
    && m.id < |es|
    && (forall k :: 0 <= k < |Calls(es, m)| ==> Calls(es, m)[k] in s)
    && (forall k :: 0 <= k < |Later(es, m)| ==> Later(es, m)[k] in s)
  }

  ghost predicate AllWithin(es: seq<Element>, root: nat, s: set<Met>, d: nat)
    requires Shaped(es, root)
  {
    forall m :: m in s ==> Within(es, root, m, d)
  }

  /** Rendering the grammar comes to an end: all that is rendered nests at most so deep. */
  ghost predicate Ends(es: seq<Element>, root: nat)
    requires Shaped(es, root)
  {
    exists s: set<Met>, d: nat :: Closed(es, root, s) && AllWithin(es, root, s, d)
  }

  // ------------------------------------------------------------------------
  // From depths to an end
  // ------------------------------------------------------------------------

  ghost predicate Has(g: Grammar, m: Met)
    requires |g.elements| == |g.plain| == |g.under|
  {
    m.id < |g.elements| && Depth(g, m.id, m.skip).Some?
  }

  lemma CallsSink(g: Grammar, m: Met)
    requires WellFormed(g) && Has(g, m)
    ensures forall k :: 0 <= k < |Calls(g.elements, m)| ==>
      var c := Calls(g.elements, m)[k];
      Has(g, c) && Depth(g, c.id, c.skip).value < Depth(g, m.id, m.skip).value
    ensures forall k :: 0 <= k < |Later(g.elements, m)| ==> Has(g, Later(g.elements, m)[k])
    ensures Depth(g, m.id, m.skip).value < g.top
  {
    assert SoundElement(g, m.id, m.skip);
  }

  lemma {:induction false} DepthBounds(g: Grammar, m: Met, d: nat)
    requires WellFormed(g) && Has(g, m) && Depth(g, m.id, m.skip).value <= d
    ensures Within(g.elements, g.root, m, d)
    decreases d
  {
    CallsSink(g, m);
    var calls := Calls(g.elements, m);
    forall k | 0 <= k < |calls|
      ensures d > 0 && Within(g.elements, g.root, calls[k], d - 1)
    {
      DepthBounds(g, calls[k], d - 1);
    }
    hide Depth, Calls, WellFormed;
    assert Within(g.elements, g.root, m, d);
  }

  lemma WellFormedEnds(g: Grammar)
    requires WellFormed(g)
    ensures Ends(g.elements, g.root)
  {
    var s := set id, skip | 0 <= id < |g.elements| && skip in {false, true} && Has(g, Met(id, skip)) :: Met(id, skip);
    forall m: Met ensures m in s <==> Has(g, m) {
      if Has(g, m) { assert m == Met(m.id, m.skip) && m.skip in {false, true}; }
    }
    forall m | m in s ensures Within(g.elements, g.root, m, g.top) {
      CallsSink(g, m);
      DepthBounds(g, m, g.top);
    }
    forall m | m in s ensures Kept(g.elements, g.root, s, m) {
      CallsSink(g, m);
    }
    assert AllWithin(g.elements, g.root, s, g.top);
    assert Closed(g.elements, g.root, s);
  }

  // ------------------------------------------------------------------------
  // From an end to depths
  // ------------------------------------------------------------------------

  function Least(es: seq<Element>, root: nat, m: Met, d: nat): (n: nat)
    requires Shaped(es, root) && Within(es, root, m, d)
    ensures n <= d && Within(es, root, m, n)
    decreases d
  {
    if d > 0 && Within(es, root, m, d - 1) then Least(es, root, m, d - 1) else d
  }

  lemma {:induction false} WithinMore(es: seq<Element>, root: nat, m: Met, d: nat, n: nat)
    requires Shaped(es, root) && Within(es, root, m, d) && d <= n
    ensures Within(es, root, m, n)
    decreases d
  {
    forall k | 0 <= k < |Calls(es, m)| ensures n > 0 && Within(es, root, Calls(es, m)[k], n - 1) {
      WithinMore(es, root, Calls(es, m)[k], d - 1, n - 1);
    }
  }

  lemma {:induction false} LeastIsLeast(es: seq<Element>, root: nat, m: Met, d: nat, n: nat)
    requires Shaped(es, root) && Within(es, root, m, d) && Within(es, root, m, n)
    ensures Least(es, root, m, d) <= n
    decreases d
  {
    if n < d {
      WithinMore(es, root, m, n, d - 1);
      LeastIsLeast(es, root, m, d - 1, n);
    }
  }

  lemma CallsLess(es: seq<Element>, root: nat, m: Met, d: nat, k: nat)
    requires Shaped(es, root) && Within(es, root, m, d) && k < |Calls(es, m)|
    requires Within(es, root, Calls(es, m)[k], d)
    ensures Least(es, root, Calls(es, m)[k], d) < Least(es, root, m, d)
  {
    var n := Least(es, root, m, d);
    assert n > 0 && Within(es, root, Calls(es, m)[k], n - 1);
    LeastIsLeast(es, root, Calls(es, m)[k], d, n - 1);
  }

  ghost function Depths(es: seq<Element>, root: nat, s: set<Met>, d: nat, skip: bool): (r: seq<Option<nat>>)
    requires Shaped(es, root) && AllWithin(es, root, s, d)
    ensures |r| == |es|
  {
    seq(|es|, i requires 0 <= i < |es| => if Met(i, skip) in s then Some(Least(es, root, Met(i, skip), d)) else None)
  }

  lemma EndsWellFormed(es: seq<Element>, root: nat) returns (g: Grammar)
    requires Shaped(es, root) && Ends(es, root)
    ensures g.elements == es && g.root == root && WellFormed(g)
  {
    var s: set<Met>, d: nat :| Closed(es, root, s) && AllWithin(es, root, s, d);
    g := Grammar(es, root, Depths(es, root, s, d, false), Depths(es, root, s, d, true), d + 1);
    forall id, skip: bool | 0 <= id < |es| && Depth(g, id, skip).Some?
      ensures SoundElement(g, id, skip)
    {
      DepthsSound(g, s, d, Met(id, skip));
    }
  }

  ghost predicate Given(g: Grammar, s: set<Met>, d: nat)
  {
    && Shaped(g.elements, g.root) && Closed(g.elements, g.root, s)
    && AllWithin(g.elements, g.root, s, d)
    && g.plain == Depths(g.elements, g.root, s, d, false)
    && g.under == Depths(g.elements, g.root, s, d, true)
    && g.top == d + 1
  }

  lemma DepthsSound(g: Grammar, s: set<Met>, d: nat, m: Met)
    requires Given(g, s, d) && m.id < |g.elements| && Depth(g, m.id, m.skip).Some?
    ensures SoundElement(g, m.id, m.skip)
  {
    var es := g.elements;
    var e := es[m.id];
    assert m in s;
    assert ShapedElement(es, m.id);
    forall k | 0 <= k < |Calls(es, m)|
      ensures Calls(es, m)[k] in s
      ensures Sinks(g, Calls(es, m)[k].id, Calls(es, m)[k].skip, Depth(g, m.id, m.skip).value)
    {
      CallsLess(es, g.root, m, d, k);
    }
    forall k | 0 <= k < |Later(es, m)|
      ensures Sinks(g, Later(es, m)[k].id, Later(es, m)[k].skip, g.top)
    {
      assert Later(es, m)[k] in s;
    }
    CallsAre(g, m);
  }

  predicate AllSink(g: Grammar, ms: seq<Met>, bound: nat)
    requires |g.elements| == |g.plain| == |g.under|
  {
    forall k :: 0 <= k < |ms| ==> Sinks(g, ms[k].id, ms[k].skip, bound)
  }

  /** What SoundElement asks for, element by element. */
  lemma CallsAre(g: Grammar, m: Met)
    requires m.id < |g.elements| == |g.plain| == |g.under| && ShapedElement(g.elements, m.id)
    requires Depth(g, m.id, m.skip).Some? && Depth(g, m.id, m.skip).value < g.top
    requires AllSink(g, Calls(g.elements, m), Depth(g, m.id, m.skip).value) && AllSink(g, Later(g.elements, m), g.top)
    ensures SoundElement(g, m.id, m.skip)
  {
    var e, d := g.elements[m.id], Depth(g, m.id, m.skip).value;
    hide Sinks;
    match e.compound
    case TypeRef => assert Calls(g.elements, m)[0] == Met(e.target, m.skip && Bare(e));
    case TagOverride => assert Calls(g.elements, m)[0] == Met(e.children[0], e.skippable);
    case Choice =>
      forall k | 0 <= k < |e.children|
        ensures Sinks(g, e.children[k], g.elements[e.children[k]].skippable, d)
      {
        assert Calls(g.elements, m)[k] == Met(e.children[k], g.elements[e.children[k]].skippable);
      }
    case Sequence => PartsSink(g, m, e.children);
    case SequenceOf => PartsSink(g, m, e.children[..1]);
    case SetOf => PartsSink(g, m, e.children[..1]);
    case _ =>
  }

  lemma PartsSink(g: Grammar, m: Met, ids: seq<nat>)
    requires m.id < |g.elements| == |g.plain| == |g.under| && ShapedElement(g.elements, m.id)
    requires Depth(g, m.id, m.skip).Some?
    requires AllSink(g, Calls(g.elements, m), Depth(g, m.id, m.skip).value) && AllSink(g, Later(g.elements, m), g.top)
    requires var e := g.elements[m.id];
      if e.compound.Sequence? then ids == e.children
      else (e.compound.SequenceOf? || e.compound.SetOf?) && ids == e.children[..1]
    ensures var e := g.elements[m.id];
      if Apart(e, m.skip) then Below(g, e.children, g.top, false)
      else Below(g, ids, Depth(g, m.id, m.skip).value, false)
  {
    var e := g.elements[m.id];
    hide Sinks, Below;
    if Apart(e, m.skip) {
      assert Later(g.elements, m) == Plain(e.children);
      PlainBelow(g, e.children, g.top);
    } else {
      assert Calls(g.elements, m) == Plain(ids);
      PlainBelow(g, ids, Depth(g, m.id, m.skip).value);
    }
  }

  lemma PlainBelow(g: Grammar, ids: seq<nat>, bound: nat)
    requires |g.elements| == |g.plain| == |g.under| && forall k :: 0 <= k < |ids| ==> ids[k] < |g.elements|
    requires AllSink(g, Plain(ids), bound)
    ensures Below(g, ids, bound, false)
  {
    forall k | 0 <= k < |ids| ensures Sinks(g, ids[k], false, bound) {
      assert Plain(ids)[k] == Met(ids[k], false);
    }
  }

  /** The depths that rendering is given are there for exactly the grammars on which it ends. */
  lemma EndsExactly(es: seq<Element>, root: nat)
    requires Shaped(es, root)
    ensures Ends(es, root) <==> exists g: Grammar :: g.elements == es && g.root == root && WellFormed(g)
  {
    if Ends(es, root) {
      var g := EndsWellFormed(es, root);
    }
    if g: Grammar :| g.elements == es && g.root == root && WellFormed(g) {
      WellFormedEnds(g);
    }
  }

  // ------------------------------------------------------------------------
  // The depths do not matter
  // ------------------------------------------------------------------------

  ghost predicate Alike(g: Grammar, h: Grammar) {
    WellFormed(g) && WellFormed(h) && g.elements == h.elements && g.root == h.root
  }

  lemma {:induction false} CodeAlike(g: Grammar, h: Grammar, id: nat, tag: Option<nat>)
    requires Alike(g, h) && Reached(g, id, tag) && Reached(h, id, tag)
    ensures Code(g, id, tag) == Code(h, id, tag)
    decreases Rank(g, id, tag) + 1, 1
  {
    Sound(g, id, tag);
    Sound(h, id, tag);
    if g.elements[id].compound.TagOverride? {
      CodeAlike(g, h, g.elements[id].children[0], Some(id));
    } else {
      InsideAlike(g, h, id, tag);
    }
  }

  lemma {:induction false} InsideAlike(g: Grammar, h: Grammar, id: nat, tag: Option<nat>)
    requires Alike(g, h) && Reached(g, id, tag) && Reached(h, id, tag)
    requires !g.elements[id].compound.TagOverride?
    ensures Inside(g, id, tag) == Inside(h, id, tag)
    decreases Rank(g, id, tag) + 1, 0
  {
    Sound(g, id, tag);
    Sound(h, id, tag);
    hide Code, CodeAll, WellFormed;
    var e, m, n := g.elements[id], Rank(g, id, tag), Rank(h, id, tag);
    match e.compound
    case TypeRef => CodeAlike(g, h, e.target, if Bare(e) then tag else None);
    case Sequence => if !OutOfLine(g, id, tag) { CodeAllAlike(g, h, e.children, m, n, false); }
    case SequenceOf => if !OutOfLine(g, id, tag) { CodeAllAlike(g, h, e.children[..1], m, n, false); }
    case SetOf => if !OutOfLine(g, id, tag) { CodeAllAlike(g, h, e.children[..1], m, n, false); }
    case Choice => CodeAllAlike(g, h, e.children, m, n, true);
    case _ =>
  }

  lemma {:induction false} CodeAllAlike(g: Grammar, h: Grammar, ids: seq<nat>, m: nat, n: nat, choice: bool)
    requires Alike(g, h) && Below(g, ids, m, choice) && Below(h, ids, n, choice)
    ensures CodeAll(g, ids, m, choice) == CodeAll(h, ids, n, choice)
    decreases m, |ids| + 2
  {
    if ids != [] {
      var last := ids[|ids| - 1];
      CodeAllAlike(g, h, ids[..|ids| - 1], m, n, choice);
      CodeAlike(g, h, last, if choice then Some(last) else None);
    }
  }

  lemma BodyAlike(g: Grammar, h: Grammar, id: nat)
    requires Alike(g, h) && Ready(g, id) && Ready(h, id)
    ensures Body(g, id) == Body(h, id)
  {
    hide CodeAll, WellFormed;
    CodeAllAlike(g, h, g.elements[id].children, g.top, h.top, false);
  }

  lemma StartAlike(g: Grammar, h: Grammar)
    requires Alike(g, h)
    ensures Start(g) == Start(h) && Stage(g, 0) == Stage(h, 0)
  {
    hide Code, Note, Refs;
    CodeAlike(g, h, g.root, None);
  }

  lemma {:induction false} StageAlike(g: Grammar, h: Grammar, k: nat)
    requires Alike(g, h)
    ensures Stage(g, k) == Stage(h, k)
  {
    hide Stage, Body, Note, Refs, Ready, WellFormed;
    if k == 0 {
      StartAlike(g, h);
    } else {
      StageAlike(g, h, k - 1);
      StageSound(g, k - 1);
      StageSound(h, k - 1);
      var s := Stage(g, k - 1);
      if k - 1 < |s| {
        StageUnfold(g, k - 1);
        StageUnfold(h, k - 1);
        BodyAlike(g, h, s[k - 1]);
      } else {
        StageStill(g, k - 1);
        StageStill(h, k - 1);
      }
    }
  }

  lemma {:induction false} BodiesAlike(g: Grammar, h: Grammar, order: seq<nat>)
    requires Alike(g, h) && InRange(order, |g.elements|) && AllReady(g, order) && AllReady(h, order)
    ensures Bodies(g, order) == Bodies(h, order)
  {
    hide Body, WellFormed, Ready;
    if order != [] {
      BodiesAlike(g, h, order[..|order| - 1]);
      BodyAlike(g, h, order[|order| - 1]);
    }
  }

  /** What is rendered is a matter of the elements alone. */
  lemma ListingAlike(g: Grammar, h: Grammar)
    requires Alike(g, h)
    ensures Order(g) == Order(h) && Listing(g) == Listing(h)
  {
    hide Stage, Bodies, Start, Ready, WellFormed, Order;
    StartAlike(g, h);
    StageAlike(g, h, |g.elements|);
    LastStage(g);
    LastStage(h);
    StageSound(g, |g.elements|);
    StageSound(h, |g.elements|);
    BodiesAlike(g, h, Order(g));
  }

  // ------------------------------------------------------------------------
  // Two recursive grammars
  // ------------------------------------------------------------------------

  /** Filter ::= CHOICE { and [0] IMPLICIT SEQUENCE OF Filter, value INTEGER } */
  function Filter(shared: bool): seq<Element> {
    [ Element(Choice, [1, 4], 0, shared, false, false, false, Universal, false, 0, None),
      Element(TagOverride, [2], 0, false, true, false, true, Context, false, 0, None),
      Element(SequenceOf, [3], 0, false, false, false, false, Universal, true, 16, None),
      Element(TypeRef, [], 0, false, false, false, false, Universal, false, 0, None),
      Element(NotCompound, [], 0, false, true, true, false, Universal, false, 2, None) ]
  }

  function FilterGrammar(shared: bool): Grammar {
    Grammar(Filter(shared), 0, [Some(2), None, None, Some(3), None], [None, Some(1), Some(0), None, Some(0)], 4)
  }

  /** A type may contain itself below an alternative: the alternative is rendered out of line, and
      its body jumps to itself. */
  lemma FilterIsRendered(shared: bool)
    ensures var g := FilterGrammar(shared);
      WellFormed(g) && Ready(g, 2) && BodyOf(2) in Start(g) && BodyOf(2) in Body(g, 2)
  {
    FilterCode(shared);
    FilterBody(shared);
  }

  lemma FilterShaped(shared: bool)
    ensures Shaped(Filter(shared), 0) && WellFormed(FilterGrammar(shared))
  {
    var g := FilterGrammar(shared);
    forall e | 0 <= e < |g.elements| ensures ShapedElement(g.elements, e) {}
    assert Shaped(g.elements, 0);
    forall id, skip: bool | 0 <= id < |g.elements| && Depth(g, id, skip).Some? ensures SoundElement(g, id, skip) {
    }
  }

  lemma FilterCode(shared: bool)
    ensures var g := FilterGrammar(shared);
      WellFormed(g) && BodyOf(2) in Code(g, 0, None)
  {
    FilterShaped(shared);
    var g := FilterGrammar(shared);
    assert Code(g, 2, Some(1)) == Head(g, 2, Some(1)) + [BodyOf(2)];
    assert Code(g, 1, Some(1)) == Code(g, 2, Some(1));
    var ids := [1, 4];
    assert ids[..1] == [1] && [1][..0] == [];
    assert CodeAll(g, [], 2, true) == [];
    assert CodeAll(g, [1], 2, true) == CodeAll(g, [], 2, true) + Code(g, 1, Some(1));
    assert CodeAll(g, ids, 2, true) == CodeAll(g, [1], 2, true) + Code(g, 4, Some(4));
    assert BodyOf(2) in CodeAll(g, ids, 2, true);
  }

  lemma FilterBody(shared: bool)
    ensures var g := FilterGrammar(shared);
      WellFormed(g) && Ready(g, 2) && BodyOf(2) in Body(g, 2)
  {
    FilterCode(shared);
    var g := FilterGrammar(shared);
    assert [3][..0] == [];
    assert CodeAll(g, [], 4, false) == [];
    assert CodeAll(g, [3], 4, false) == CodeAll(g, [], 4, false) + Code(g, 3, None);
    assert BodyOf(2) in Code(g, 3, None);
  }

  /** Loop ::= CHOICE { again Loop } */
  function Loop(): seq<Element> {
    [ Element(Choice, [1], 0, false, false, false, false, Universal, false, 0, None),
      Element(TypeRef, [], 0, false, true, false, false, Universal, false, 0, None) ]
  }

  /** A type that is an alternative of itself is not: rendering it does not end. */
  lemma LoopDoesNotEnd()
    ensures Shaped(Loop(), 0) && !Ends(Loop(), 0)
  {
    if Ends(Loop(), 0) {
      var s: set<Met>, d: nat :| Closed(Loop(), 0, s) && AllWithin(Loop(), 0, s, d);
      LoopNests(d, false);
    }
  }

  lemma {:induction false} LoopNests(d: nat, skip: bool)
    ensures !Within(Loop(), 0, Met(0, skip), d)
    decreases d
  {
    assert Calls(Loop(), Met(0, skip))[0] == Met(1, true);
    assert Calls(Loop(), Met(1, true))[0] == Met(0, true);
    if d > 1 {
      LoopNests(d - 2, true);
    }
  }
}
