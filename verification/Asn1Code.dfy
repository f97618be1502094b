/** The bytecode that the ASN.1 compiler produces for a grammar, before the
    addresses of the out-of-line bodies are known: an instruction that jumps to
    the body of an element names the element. */
module Asn1Code {
  import opened Options
  import opened Pigeonhole

  datatype Compound = NotCompound | Set | SetOf | Sequence | SequenceOf | Choice | Any | TypeRef | TagOverride

  datatype Class = Universal | Application | Context | Private

  /** The fields of an element that rendering only reads. Elements are known by
      their number; `shared` says that the element defines a type that is
      referred to more than once, `target` is the element of the type that a
      reference names. */
  datatype Element = Element(
    compound: Compound, children: seq<nat>, target: nat, shared: bool,
    skippable: bool, conditional: bool, tagSpecified: bool,
    class_: Class, constructed: bool, tag: nat, action: Option<nat>)

  /** The elements of a grammar, the number of the root type's element, and how deep rendering
      nests inline below each element: `plain` for elements rendered under no tag that may be
      skipped, `under` for those rendered under one, and nothing for elements that are not
      rendered that way. */
  datatype Grammar = Grammar(elements: seq<Element>, root: nat, plain: seq<Option<nat>>, under: seq<Option<nat>>, top: nat)

  datatype Op =
    | Match(cond: bool, jump: bool, act: bool, skip: bool)
    | MatchAny(cond: bool, act: bool, skip: bool)
    | EndSeq(act: bool) | EndSet(act: bool) | EndSeqOf(act: bool) | EndSetOf(act: bool)
    | Act(maybe: bool) | CondFail | Complete | Return

  datatype Entry = Opcode(op: Op) | Tag(class_: Class, constructed: bool, tag: nat, named: bool)
                 | Action(action: nat) | Target(at: int)

  /** One entry of the table: fixed, the address of an element's out-of-line
      body, the address of the entry `back` places before this one, or the
      place where the compiler gives up because it meets a SET. */
  datatype Item = Fixed(entry: Entry) | BodyOf(id: nat) | Back(back: nat) | Unsupported

  /** References are in range, and elements that wrap another one have it. */
  predicate Shaped(elements: seq<Element>, root: nat) {
    root < |elements| && forall e :: 0 <= e < |elements| ==> ShapedElement(elements, e)
  }

  predicate ShapedElement(elements: seq<Element>, id: nat)
    requires id < |elements|
  {
    var e := elements[id];
    && InRange(e.children, |elements|)
    && (e.compound.TagOverride? || e.compound.SequenceOf? || e.compound.SetOf? ==> e.children != [])
    && (e.compound.TypeRef? ==> e.target < |elements|)
  }

  /** The depth is known of the root and of all that is rendered from there, and falls along every
      step that is taken inline. */
  predicate WellFormed(g: Grammar) {
    && Shaped(g.elements, g.root)
    && |g.plain| == |g.under| == |g.elements|
    && g.plain[g.root].Some?
    && forall id, skip: bool :: 0 <= id < |g.elements| && Depth(g, id, skip).Some? ==> SoundElement(g, id, skip)
  }

  /** `skip` says that the tag that overrides the element's own may be skipped. */
  function Depth(g: Grammar, id: nat, skip: bool): Option<nat>
    requires id < |g.elements| == |g.plain| == |g.under|
  {
    if skip then g.under[id] else g.plain[id]
  }

  predicate SoundElement(g: Grammar, id: nat, skip: bool)
    requires id < |g.elements| == |g.plain| == |g.under| && ShapedElement(g.elements, id) && Depth(g, id, skip).Some?
  {
    var e, d := g.elements[id], Depth(g, id, skip).value;
    && d < g.top
    && match e.compound
       case TypeRef => Sinks(g, e.target, skip && Bare(e), d)
       case TagOverride => Sinks(g, e.children[0], e.skippable, d)
       case Choice => Below(g, e.children, d, true)
       case Sequence => Below(g, e.children, if Apart(e, skip) then g.top else d, false)
       case SequenceOf => if Apart(e, skip) then Below(g, e.children, g.top, false) else Below(g, e.children[..1], d, false)
       case SetOf => if Apart(e, skip) then Below(g, e.children, g.top, false) else Below(g, e.children[..1], d, false)
       case _ => true
  }

  /** A type that is used more than once, or may be skipped, is rendered out of line. */
  predicate Apart(e: Element, skip: bool) {
    e.shared || e.skippable || skip
  }

  predicate Sinks(g: Grammar, id: nat, skip: bool, bound: nat)
    requires |g.elements| == |g.plain| == |g.under|
  {
    id < |g.elements| && Depth(g, id, skip).Some? && Depth(g, id, skip).value < bound
  }

  /** The elements of a list are rendered with less than the given depth; an alternative of a CHOICE
      is its own tag. */
  predicate Below(g: Grammar, ids: seq<nat>, bound: nat, choice: bool)
    requires |g.elements| == |g.plain| == |g.under|
  {
    forall k :: 0 <= k < |ids| ==> ids[k] < |g.elements| && Sinks(g, ids[k], choice && g.elements[ids[k]].skippable, bound)
  }

  predicate Known(g: Grammar, tag: Option<nat>) {
    tag.Some? ==> tag.value < |g.elements|
  }

  predicate Skips(g: Grammar, tag: Option<nat>)
    requires Known(g, tag)
  {
    tag.Some? && g.elements[tag.value].skippable
  }

  /** The element is one that is rendered under this tag. */
  predicate Reached(g: Grammar, id: nat, tag: Option<nat>) {
    && id < |g.elements| == |g.plain| == |g.under| && Known(g, tag)
    && Depth(g, id, Skips(g, tag)).Some?
  }

  function Rank(g: Grammar, id: nat, tag: Option<nat>): nat
    requires Reached(g, id, tag)
  {
    Depth(g, id, Skips(g, tag)).value
  }

  /** The element's body is one that is rendered. */
  predicate Ready(g: Grammar, id: nat)
    requires WellFormed(g)
  {
    id < |g.elements| && Below(g, g.elements[id].children, g.top, false)
  }

  lemma Sound(g: Grammar, id: nat, tag: Option<nat>)
    requires WellFormed(g) && Reached(g, id, tag)
    ensures ShapedElement(g.elements, id) && SoundElement(g, id, Skips(g, tag))
    ensures OutOfLine(g, id, tag) == Apart(g.elements[id], Skips(g, tag))
  {
  }

  // ------------------------------------------------------------------------
  // The parts of one element's code
  // ------------------------------------------------------------------------

  predicate Skippable(g: Grammar, id: nat, tag: Option<nat>)
    requires id < |g.elements| && Known(g, tag)
  {
    g.elements[id].skippable || (tag.Some? && g.elements[tag.value].skippable)
  }

  predicate Conditional(g: Grammar, id: nat, tag: Option<nat>)
    requires id < |g.elements| && Known(g, tag)
  {
    g.elements[id].conditional || (tag.Some? && g.elements[tag.value].conditional)
  }

  predicate OutOfLine(g: Grammar, id: nat, tag: Option<nat>)
    requires id < |g.elements| && Known(g, tag)
  {
    g.elements[id].shared || Skippable(g, id, tag)
  }

  /** A reference that has no tag of its own. */
  predicate Bare(e: Element) {
    e.compound.TypeRef? && e.class_.Universal? && !e.constructed && e.tag == 0
  }

  /** The tag to match: the overriding one if it was written down. */
  function TagEntry(g: Grammar, id: nat, tag: Option<nat>): Entry
    requires id < |g.elements| && Known(g, tag)
  {
    var e := g.elements[id];
    var t := if tag.Some? && g.elements[tag.value].tagSpecified then g.elements[tag.value] else e;
    Tag(t.class_, t.constructed || e.constructed, t.tag,
        t.class_.Universal? && t.tag != 14 && t.tag != 15 && t.tag != 31)
  }

  function Final(e: Element): seq<Item> {
    if e.action.Some? then [Fixed(Action(e.action.value))] else []
  }

  function Head(g: Grammar, id: nat, tag: Option<nat>): seq<Item>
    requires id < |g.elements| && Known(g, tag)
  {
    var e := g.elements[id];
    var cond, skip, act := Conditional(g, id, tag), Skippable(g, id, tag), e.action.Some?;
    match e.compound
    case Any => [Fixed(Opcode(MatchAny(cond, act, skip)))]
    case Choice => []
    case TagOverride => []
    case Sequence =>
      [Fixed(Opcode(Match(cond, OutOfLine(g, id, tag), false, skip))), Fixed(TagEntry(g, id, tag))]
    case SequenceOf =>
      [Fixed(Opcode(Match(cond, OutOfLine(g, id, tag), false, skip))), Fixed(TagEntry(g, id, tag))]
    case Set =>
      [Fixed(Opcode(Match(cond, OutOfLine(g, id, tag), false, skip))), Fixed(TagEntry(g, id, tag))]
    case SetOf =>
      [Fixed(Opcode(Match(cond, OutOfLine(g, id, tag), false, skip))), Fixed(TagEntry(g, id, tag))]
    case TypeRef =>
      if Bare(e) then [] else [Fixed(Opcode(Match(cond, false, act, skip))), Fixed(TagEntry(g, id, tag))]
    case NotCompound =>
      [Fixed(Opcode(Match(cond, false, act, skip))), Fixed(TagEntry(g, id, tag))]
  }

  /** The instruction that ends a loop, and the jump back over the whole of the
      code between. */
  function LoopEnd(op: Op, inner: seq<Item>): seq<Item> {
    [Fixed(Opcode(op)), Back(|inner| + 1)]
  }

  function Code(g: Grammar, id: nat, tag: Option<nat>): seq<Item>
    requires WellFormed(g) && Reached(g, id, tag)
    decreases Rank(g, id, tag) + 1, 1
  {
    var e := g.elements[id];
    Sound(g, id, tag);
    if e.compound.TagOverride? then
      Code(g, e.children[0], Some(id))
    else
      Head(g, id, tag) + Inside(g, id, tag)
  }

  function Inside(g: Grammar, id: nat, tag: Option<nat>): seq<Item>
    requires WellFormed(g) && Reached(g, id, tag)
    requires !g.elements[id].compound.TagOverride?
    decreases Rank(g, id, tag) + 1, 0
  {
    var e := g.elements[id];
    Sound(g, id, tag);
    var act := e.action.Some?;
    match e.compound
    case TypeRef =>
      Code(g, e.target, if Bare(e) then tag else None)
      + (if act then [Fixed(Opcode(Act(Skippable(g, id, tag))))] else []) + Final(e)
    case Sequence =>
      if OutOfLine(g, id, tag) then [BodyOf(id)] else
        CodeAll(g, e.children, Rank(g, id, tag), false) + [Fixed(Opcode(EndSeq(act)))] + Final(e)
    case SequenceOf =>
      if OutOfLine(g, id, tag) then [BodyOf(id)] else
        var inner := CodeAll(g, e.children[..1], Rank(g, id, tag), false);
        inner + LoopEnd(EndSeqOf(act), inner) + Final(e)
    case SetOf =>
      if OutOfLine(g, id, tag) then [BodyOf(id)] else
        var inner := CodeAll(g, e.children[..1], Rank(g, id, tag), false);
        inner + LoopEnd(EndSetOf(act), inner) + Final(e)
    case Set => [Unsupported]
    case Choice =>
      CodeAll(g, e.children, Rank(g, id, tag), true)
      + (if Skippable(g, id, tag) then [] else [Fixed(Opcode(CondFail))])
      + (if act then [Fixed(Opcode(Act(false)))] else []) + Final(e)
    case _ => Final(e)
  }

  /** The code of a list of elements; an alternative of a CHOICE is its own
      tag. */
  function CodeAll(g: Grammar, ids: seq<nat>, bound: nat, choice: bool): seq<Item>
    requires WellFormed(g) && Below(g, ids, bound, choice)
    decreases bound, |ids| + 2
  {
    if ids == [] then [] else
      var last := ids[|ids| - 1];
      CodeAll(g, ids[..|ids| - 1], bound, choice) + Code(g, last, if choice then Some(last) else None)
  }

  function Ending(g: Grammar, id: nat, inner: seq<Item>): seq<Item>
    requires id < |g.elements|
  {
    var act := g.elements[id].action.Some?;
    match g.elements[id].compound
    case Sequence => [Fixed(Opcode(EndSeq(act)))]
    case SequenceOf => LoopEnd(EndSeqOf(act), inner)
    case Set => [Fixed(Opcode(EndSet(act)))]
    case SetOf => LoopEnd(EndSetOf(act), inner)
    case _ => []
  }

  /** What is rendered out of line for an element. */
  function Body(g: Grammar, id: nat): seq<Item>
    requires WellFormed(g) && id < |g.elements|
  {
    if Ready(g, id) then ReadyBody(g, id) else []
  }

  function ReadyBody(g: Grammar, id: nat): seq<Item>
    requires WellFormed(g) && Ready(g, id)
  {
    var inner := CodeAll(g, g.elements[id].children, g.top, false);
    inner + Ending(g, id, inner) + Final(g.elements[id]) + [Fixed(Opcode(Return))]
  }

  function Start(g: Grammar): seq<Item>
    requires WellFormed(g)
  {
    Code(g, g.root, None) + [Fixed(Opcode(Complete))]
  }

  // ------------------------------------------------------------------------
  // The elements to render out of line, in the order in which they are met
  // ------------------------------------------------------------------------

  function Refs(items: seq<Item>): seq<nat> {
    if items == [] then [] else
      var last := items[|items| - 1];
      Refs(items[..|items| - 1]) + (if last.BodyOf? then [last.id] else [])
  }

  /** Each reference joins the order unless it is already there. */
  function Note(order: seq<nat>, refs: seq<nat>): (r: seq<nat>)
    ensures order <= r
  {
    if refs == [] then order else
      var before := Note(order, refs[..|refs| - 1]);
      var last := refs[|refs| - 1];
      if last in before then before else before + [last]
  }

  /** The order known once the main code and the first `k` bodies are done. */
  function Stage(g: Grammar, k: nat): seq<nat>
    requires WellFormed(g)
  {
    if k == 0 then Note([], Refs(Start(g))) else
      var s := Stage(g, k - 1);
      if k - 1 < |s| && s[k - 1] < |g.elements| then Note(s, Refs(Body(g, s[k - 1]))) else s
  }

  // ------------------------------------------------------------------------
  // References of a concatenation
  // ------------------------------------------------------------------------

  lemma {:induction false} RefsJoin(a: seq<Item>, b: seq<Item>)
    ensures Refs(a + b) == Refs(a) + Refs(b)
  {
    if b == [] {
      assert a + b == a;
    } else {
      RefsJoin(a, b[..|b| - 1]);
      assert (a + b)[..|a + b| - 1] == a + b[..|b| - 1];
    }
  }

  lemma {:induction false} RefsOne(i: Item)
    ensures Refs([i]) == if i.BodyOf? then [i.id] else []
  {
    assert [i][..0] == [];
    assert Refs([]) == [];
  }

  /** The references are exactly the elements whose bodies the code jumps to. */
  lemma {:induction false} RefsAre(items: seq<Item>, id: nat)
    ensures id in Refs(items) <==> BodyOf(id) in items
  {
    if items != [] {
      var init := items[..|items| - 1];
      RefsAre(init, id);
      assert items == init + [items[|items| - 1]];
    }
  }

  lemma {:induction false} NoteJoin(order: seq<nat>, a: seq<nat>, b: seq<nat>)
    ensures Note(order, a + b) == Note(Note(order, a), b)
  {
    if b == [] {
      assert a + b == a;
    } else {
      NoteJoin(order, a, b[..|b| - 1]);
      assert (a + b)[..|a + b| - 1] == a + b[..|b| - 1];
    }
  }

  lemma {:induction false} NoteKeeps(order: seq<nat>, refs: seq<nat>, n: nat)
    requires Distinct(order) && InRange(order, n) && InRange(refs, n)
    ensures Distinct(Note(order, refs)) && InRange(Note(order, refs), n)
    ensures forall x :: x in Note(order, refs) <==> x in order || x in refs
  {
    if refs != [] {
      var init := refs[..|refs| - 1];
      NoteKeeps(order, init, n);
      assert refs == init + [refs[|refs| - 1]];
    }
  }

  // ------------------------------------------------------------------------
  // References are in range, and the order stops growing
  // ------------------------------------------------------------------------

  predicate Bounded(items: seq<Item>, n: nat) {
    forall i <- items :: i.BodyOf? ==> i.id < n
  }

  /** The code jumps only to bodies that are rendered. */
  predicate ReadyRefs(g: Grammar, items: seq<Item>)
    requires WellFormed(g)
  {
    forall i <- items :: i.BodyOf? ==> Ready(g, i.id)
  }

  lemma {:induction false} CodeBounded(g: Grammar, id: nat, tag: Option<nat>)
    requires WellFormed(g) && Reached(g, id, tag)
    ensures Bounded(Code(g, id, tag), |g.elements|) && ReadyRefs(g, Code(g, id, tag))
    decreases Rank(g, id, tag) + 1, 1
  {
    var e := g.elements[id];
    Sound(g, id, tag);
    if e.compound.TagOverride? {
      CodeBounded(g, e.children[0], Some(id));
    } else {
      InsideBounded(g, id, tag);
    }
  }

  lemma {:induction false} InsideBounded(g: Grammar, id: nat, tag: Option<nat>)
    requires WellFormed(g) && Reached(g, id, tag)
    requires !g.elements[id].compound.TagOverride?
    ensures Bounded(Inside(g, id, tag), |g.elements|) && ReadyRefs(g, Inside(g, id, tag))
    decreases Rank(g, id, tag) + 1, 0
  {
    Sound(g, id, tag);
    hide Code, CodeAll, WellFormed;
    var e := g.elements[id];
    match e.compound
    case TypeRef => CodeBounded(g, e.target, if Bare(e) then tag else None);
    case Sequence =>
      if !OutOfLine(g, id, tag) { CodeAllBounded(g, e.children, Rank(g, id, tag), false); }
    case SequenceOf =>
      if !OutOfLine(g, id, tag) { CodeAllBounded(g, e.children[..1], Rank(g, id, tag), false); }
    case SetOf =>
      if !OutOfLine(g, id, tag) { CodeAllBounded(g, e.children[..1], Rank(g, id, tag), false); }
    case Choice => CodeAllBounded(g, e.children, Rank(g, id, tag), true);
    case _ =>
  }

  lemma {:induction false} CodeAllBounded(g: Grammar, ids: seq<nat>, bound: nat, choice: bool)
    requires WellFormed(g) && Below(g, ids, bound, choice)
    ensures Bounded(CodeAll(g, ids, bound, choice), |g.elements|) && ReadyRefs(g, CodeAll(g, ids, bound, choice))
    decreases bound, |ids| + 2
  {
    if ids != [] {
      var last := ids[|ids| - 1];
      CodeAllBounded(g, ids[..|ids| - 1], bound, choice);
      CodeBounded(g, last, if choice then Some(last) else None);
    }
  }
}
