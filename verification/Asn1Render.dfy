/** The renderer at work: one recursive procedure that appends entries, a queue
    of out-of-line elements threaded through the elements themselves, and two
    passes over the grammar. */
module Asn1Render {
  import opened Options
  import opened Pigeonhole
  import opened Asn1Code
  import opened Asn1Layout

  /** What rendering advances: the number of entries, the table, and the order
      in which out-of-line elements were first met. */
  datatype Progress = Progress(count: nat, table: seq<Entry>, order: seq<nat>)

  /** `q` is `p` after rendering the items; the table grows only when writing. */
  ghost predicate Extends(write: bool, index: seq<nat>, p: Progress, items: seq<Item>, q: Progress) {
    && Supported(items, |index|)
    && q.count == p.count + |items|
    && q.table == (if write then p.table + Placed(items, p.count, index) else p.table)
    && q.order == Note(p.order, Refs(items))
  }

  lemma ExtendsJoin(write: bool, index: seq<nat>, p: Progress, a: seq<Item>, q: Progress, b: seq<Item>, r: Progress)
    requires Extends(write, index, p, a, q) && Extends(write, index, q, b, r)
    ensures Extends(write, index, p, a + b, r)
  {
    hide Refs, Note, Placed, Supported;
    if write { Rejoined(p.table, Placed(a, p.count, index), Placed(b, q.count, index)); }
    SupportedJoin(a, b, |index|);
    PlacedJoin(a, b, p.count, index);
    RefsJoin(a, b);
    NoteJoin(p.order, Refs(a), Refs(b));
  }

  lemma Rejoined(a: seq<Entry>, b: seq<Entry>, c: seq<Entry>)
    ensures (a + b) + c == a + (b + c)
  {
  }

  /** The element order stays within the stage that is being rendered. */
  ghost predicate Fits(g: Grammar, done: nat, order: seq<nat>, items: seq<Item>)
    requires WellFormed(g)
  {
    Note(order, Refs(items)) <= Stage(g, done)
  }

  lemma FitsSplit(g: Grammar, done: nat, order: seq<nat>, a: seq<Item>, b: seq<Item>)
    requires WellFormed(g) && Fits(g, done, order, a + b)
    ensures Fits(g, done, order, a) && Fits(g, done, Note(order, Refs(a)), b)
  {
    hide Refs, Note, Stage;
    RefsJoin(a, b);
    NoteJoin(order, Refs(a), Refs(b));
  }

  /** Out-of-line elements not yet rendered are chained in order. */
  ghost predicate Chained(order: seq<nat>, done: nat, next: seq<Option<nat>>) {
    && InRange(order, |next|)
    && forall i :: done <= i < |order| - 1 ==> next[order[i]] == Some(order[i + 1])
  }

  /** The links that either pass may leave behind: an element is linked to the
      one after it, and only if that one is met before the element's turn. */
  ghost predicate Linked(g: Grammar, next: seq<Option<nat>>)
    requires WellFormed(g) && |next| == |g.elements|
  {
    forall i :: 0 <= i < |Order(g)| ==> next[Order(g)[i]] == None || LinkedOn(g, next, i)
  }

  ghost predicate LinkedOn(g: Grammar, next: seq<Option<nat>>, i: nat)
    requires WellFormed(g) && |next| == |g.elements| && i < |Order(g)|
  {
    i + 1 < |Stage(g, i)| && i + 1 < |Order(g)| && next[Order(g)[i]] == Some(Order(g)[i + 1])
  }

  /** Within a stage, the order met so far is a part of the final order, and a
      queue that is not empty links to elements met before its turn. */
  lemma StagePart(g: Grammar, order: seq<nat>, done: nat)
    requires WellFormed(g) && order <= Stage(g, done) && done <= |g.elements|
    ensures order <= Order(g)
    ensures done <= |order| - 1 ==> |order| <= |Stage(g, |order| - 1)|
  {
    hide Stage, Order, WellFormed;
    StageGrows(g, done, |g.elements|);
    LastStage(g);
    if done <= |order| - 1 {
      StageGrows(g, done, |order| - 1);
    }
  }

  lemma ChainJoins(next: seq<Option<nat>>, order: seq<nat>, done: nat, x: nat)
    requires Chained(order, done, next) && done < |order| && Distinct(order) && x < |next|
    ensures Chained(order + [x], done, next[order[|order| - 1] := Some(x)])
  {
  }

  lemma ChainStarts(next: seq<Option<nat>>, order: seq<nat>, x: nat)
    requires Chained(order, |order|, next) && x < |next|
    ensures Chained(order + [x], |order|, next)
  {
  }

  lemma LinkAllowed(g: Grammar, next: seq<Option<nat>>, t: nat)
    requires WellFormed(g) && |next| == |g.elements| && Linked(g, next)
    requires t + 1 < |Stage(g, t)| && t + 1 < |Order(g)|
    ensures Linked(g, next[Order(g)[t] := Some(Order(g)[t + 1])])
  {
    hide Stage, WellFormed, Order;
    var f := Order(g);
    var after := next[f[t] := Some(f[t + 1])];
    forall i | 0 <= i < |f| ensures after[f[i]] == None || LinkedOn(g, after, i) {
      if i != t {
        assert f[i] != f[t] && after[f[i]] == next[f[i]];
        assert next[f[i]] == None || LinkedOn(g, next, i);
      }
    }
  }

  /** Joining the queue writes a link that `Linked` allows. */
  lemma LinkJoins(g: Grammar, next: seq<Option<nat>>, order: seq<nat>, done: nat, x: nat)
    requires WellFormed(g) && |next| == |g.elements| && done < |order|
    requires Linked(g, next) && order + [x] <= Stage(g, done) && done <= |g.elements|
    ensures order[|order| - 1] < |g.elements|
    ensures Linked(g, next[order[|order| - 1] := Some(x)])
  {
    hide Stage, WellFormed, Order, Distinct;
    StagePart(g, order + [x], done);
    StageGrows(g, done, |order| - 1);
    var t := |order| - 1;
    assert (order + [x])[t] == order[t] && (order + [x])[t + 1] == x;
    LinkAllowed(g, next, t);
  }

  class Renderer {

    const g: Grammar

    var nrEntries: nat
    var table: seq<Entry>
    // Per element: whether it has joined the queue in this pass, its link to
    // the next element of the queue, and the address of its body.
    var rendered: seq<bool>
    var renderNext: seq<Option<nat>>
    var entryIndex: seq<nat>
    // The head of the queue, and the element whose link is the place to append
    // (`None` when that place is the head itself).
    var renderList: Option<nat>
    var renderListP: Option<nat>

    ghost var order: seq<nat>
    ghost var done: nat

    ghost function Now(): Progress
      reads this
    {
      Progress(nrEntries, table, order)
    }

    ghost predicate Valid()
      reads this
    {
      && WellFormed(g)
      && |rendered| == |renderNext| == |entryIndex| == |g.elements|
      && done <= |g.elements|
      && Distinct(order) && InRange(order, |g.elements|)
      && (forall x: nat :: x < |rendered| ==> (rendered[x] <==> x in order))
      && Queue()
      && Chained(order, done, renderNext)
      && Linked(g, renderNext)
    }

    ghost predicate Queue()
      reads this
    {
      && done <= |order|
      && renderList == (if done < |order| then Some(order[done]) else None)
      && renderListP == (if done < |order| then Some(order[|order| - 1]) else None)
    }

    constructor (grammar: Grammar)
      requires WellFormed(grammar)
      ensures Valid() && g == grammar && Now() == Progress(0, [], []) && done == 0
    {
      g := grammar;
      nrEntries, table, renderList, renderListP := 0, [], None, None;
      rendered := seq(|grammar.elements|, _ => false);
      renderNext := seq(|grammar.elements|, _ => None);
      entryIndex := seq(|grammar.elements|, _ => 0);
      order, done := [], 0;
    }

    /** One entry. */
    method RenderOpcode(write: bool, entry: Entry, ghost item: Item)
      requires Valid() && !item.BodyOf? && !item.Unsupported?
      requires Resolved(item, nrEntries, entryIndex) == entry
      modifies this`nrEntries, this`table
      ensures Valid()
      ensures Extends(write, entryIndex, old(Now()), [item], Now())
    {
      RefsOne(item);
      if write {
        table := table + [entry];
      }
      nrEntries := nrEntries + 1;
    }

    /** A jump to an out-of-line body, whose element joins the queue unless it
        has done so in this pass. */
    method RenderJump(write: bool, id: nat)
      requires Valid() && id < |g.elements| && Fits(g, done, order, [BodyOf(id)])
      modifies this
      ensures Valid() && entryIndex == old(entryIndex) && done == old(done)
      ensures Extends(write, entryIndex, old(Now()), [BodyOf(id)], Now())
    {
      hide WellFormed, Linked, Distinct, Chained, Stage, Note, Refs;
      RefsOne(BodyOf(id));
      NoteOne(order, id);
      if write {
        table := table + [Target(entryIndex[id])];
      }
      nrEntries := nrEntries + 1;
      if !rendered[id] {
        Enqueue(id);
      }
    }

    method Enqueue(id: nat)
      requires Valid() && id < |g.elements| && id !in order
      requires order + [id] <= Stage(g, done)
      modifies this`rendered, this`renderList, this`renderListP, this`renderNext, this`order
      ensures Valid() && order == old(order) + [id]
    {
      hide WellFormed, Linked, Distinct, Chained, Stage;
      if done < |order| {
        LinkJoins(g, renderNext, order, done, id);
        ChainJoins(renderNext, order, done, id);
      } else {
        ChainStarts(renderNext, order, id);
      }
      DistinctPlus(order, id);
      rendered := rendered[id := true];
      match renderListP {
        case None => renderList := Some(id);
        case Some(last) => renderNext := renderNext[last := Some(id)];
      }
      renderListP := Some(id);
      order := order + [id];
    }

    /** The match instruction and the tag, or whatever stands for them. */
    method RenderHead(write: bool, id: nat, tag: Option<nat>)
      requires Valid() && id < |g.elements| && Known(g, tag)
      modifies this`nrEntries, this`table
      ensures Valid()
      ensures Extends(write, entryIndex, old(Now()), Head(g, id, tag), Now())
    {
      hide Valid;
      var e := g.elements[id];
      var cond, skip, act := Conditional(g, id, tag), Skippable(g, id, tag), e.action.Some?;
      match e.compound
      case Any => RenderFixed(write, Opcode(MatchAny(cond, act, skip)));
      case Choice => ExtendsNone(write, entryIndex, Now());
      case TagOverride => ExtendsNone(write, entryIndex, Now());
      case Sequence => RenderMatch(write, id, tag, Match(cond, OutOfLine(g, id, tag), false, skip));
      case SequenceOf => RenderMatch(write, id, tag, Match(cond, OutOfLine(g, id, tag), false, skip));
      case Set => RenderMatch(write, id, tag, Match(cond, OutOfLine(g, id, tag), false, skip));
      case SetOf => RenderMatch(write, id, tag, Match(cond, OutOfLine(g, id, tag), false, skip));
      case TypeRef =>
        if Bare(e) {
          ExtendsNone(write, entryIndex, Now());
        } else {
          RenderMatch(write, id, tag, Match(cond, false, act, skip));
        }
      case NotCompound => RenderMatch(write, id, tag, Match(cond, false, act, skip));
    }

    method RenderFixed(write: bool, entry: Entry)
      requires Valid()
      modifies this`nrEntries, this`table
      ensures Valid()
      ensures Extends(write, entryIndex, old(Now()), [Fixed(entry)], Now())
    {
      RenderOpcode(write, entry, Fixed(entry));
    }

    method RenderMatch(write: bool, id: nat, tag: Option<nat>, op: Op)
      requires Valid() && id < |g.elements| && Known(g, tag)
      modifies this`nrEntries, this`table
      ensures Valid()
      ensures Extends(write, entryIndex, old(Now()), [Fixed(Opcode(op)), Fixed(TagEntry(g, id, tag))], Now())
    {
      hide Extends, Valid, TagEntry;
      RenderFixed(write, Opcode(op));
      ghost var p := Now();
      RenderFixed(write, TagEntry(g, id, tag));
      var a, b := [Fixed(Opcode(op))], [Fixed(TagEntry(g, id, tag))];
      ExtendsJoin(write, entryIndex, old(Now()), a, p, b, Now());
      assert a + b == [Fixed(Opcode(op)), Fixed(TagEntry(g, id, tag))];
    }

    /** The entry that names the element's action, if it has one. */
    method RenderFinal(write: bool, id: nat)
      requires Valid() && id < |g.elements|
      modifies this`nrEntries, this`table
      ensures Valid()
      ensures Extends(write, entryIndex, old(Now()), Final(g.elements[id]), Now())
    {
      hide Valid, Extends;
      match g.elements[id].action
      case Some(a) => RenderFixed(write, Action(a));
      case None => ExtendsNone(write, entryIndex, Now());
    }

    method RenderIf(write: bool, cond: bool, op: Op)
      requires Valid()
      modifies this`nrEntries, this`table
      ensures Valid()
      ensures Extends(write, entryIndex, old(Now()), if cond then [Fixed(Opcode(op))] else [], Now())
    {
      hide Valid, Extends;
      if cond {
        RenderFixed(write, Opcode(op));
      } else {
        ExtendsNone(write, entryIndex, Now());
      }
    }

    /** The end of a loop whose code has just been rendered from `entry` on. */
    method RenderLoopEnd(write: bool, op: Op, entry: nat, ghost inner: seq<Item>)
      requires Valid() && nrEntries == entry + |inner|
      modifies this`nrEntries, this`table
      ensures Valid()
      ensures Extends(write, entryIndex, old(Now()), LoopEnd(op, inner), Now())
    {
      RenderFixed(write, Opcode(op));
      ghost var p := Now();
      RenderOpcode(write, Target(entry), Back(|inner| + 1));
      hide Extends, Valid;
      ExtendsJoin(write, entryIndex, old(Now()), [Fixed(Opcode(op))], p, [Back(|inner| + 1)], Now());
      assert [Fixed(Opcode(op))] + [Back(|inner| + 1)] == LoopEnd(op, inner);
    }

    /** Renders an element; fails exactly when a SET is met on the way. */
    method RenderElement(write: bool, id: nat, tag: Option<nat>) returns (ok: bool)
      requires Valid() && Reached(g, id, tag) && Fits(g, done, order, Code(g, id, tag))
      modifies this
      ensures ok <==> Unsupported !in Code(g, id, tag)
      ensures ok ==> Valid() && entryIndex == old(entryIndex) && done == old(done)
      ensures ok ==> Extends(write, entryIndex, old(Now()), Code(g, id, tag), Now())
      decreases Rank(g, id, tag) + 1, 2
    {
      hide Head, Inside, Fits;
      var e := g.elements[id];
      Sound(g, id, tag);
      if e.compound.TagOverride? {
        ok := RenderElement(write, e.children[0], Some(id));
      } else {
        ghost var a, b := Head(g, id, tag), Inside(g, id, tag);
        FitsSplit(g, done, order, a, b);
        RenderHead(write, id, tag);
        ghost var p := Now();
        ok := RenderInside(write, id, tag);
        if ok {
          ExtendsJoin(write, entryIndex, old(Now()), a, p, b, Now());
        }
      }
    }

    method RenderInside(write: bool, id: nat, tag: Option<nat>) returns (ok: bool)
      requires Valid() && Reached(g, id, tag)
      requires !g.elements[id].compound.TagOverride?
      requires Fits(g, done, order, Inside(g, id, tag))
      modifies this
      ensures ok <==> Unsupported !in Inside(g, id, tag)
      ensures ok ==> Valid() && entryIndex == old(entryIndex) && done == old(done)
      ensures ok ==> Extends(write, entryIndex, old(Now()), Inside(g, id, tag), Now())
      decreases Rank(g, id, tag) + 1, 1
    {
      hide Valid, WellFormed, Fits, Extends;
      match g.elements[id].compound
      case TypeRef => ok := RenderReference(write, id, tag);
      case Sequence =>
        if OutOfLine(g, id, tag) {
          RenderJump(write, id);
          ok := true;
        } else {
          ok := RenderSequence(write, id, tag);
        }
      case SequenceOf =>
        if OutOfLine(g, id, tag) {
          RenderJump(write, id);
          ok := true;
        } else {
          ok := RenderLoop(write, id, tag, EndSeqOf(g.elements[id].action.Some?));
        }
      case SetOf =>
        if OutOfLine(g, id, tag) {
          RenderJump(write, id);
          ok := true;
        } else {
          ok := RenderLoop(write, id, tag, EndSetOf(g.elements[id].action.Some?));
        }
      case Set => ok := false;
      case Choice => ok := RenderChoice(write, id, tag);
      case Any =>
        RenderFinal(write, id);
        ok := true;
      case NotCompound =>
        RenderFinal(write, id);
        ok := true;
    }

    /** An instruction that depends on a condition, then the action's name. */
    method RenderEnd(write: bool, id: nat, cond: bool, op: Op)
      requires Valid() && id < |g.elements|
      modifies this`nrEntries, this`table
      ensures Valid()
      ensures Extends(write, entryIndex, old(Now()),
                      (if cond then [Fixed(Opcode(op))] else []) + Final(g.elements[id]), Now())
    {
      hide Valid, Extends, Final;
      RenderIf(write, cond, op);
      ghost var p := Now();
      RenderFinal(write, id);
      ExtendsJoin(write, entryIndex, old(Now()), if cond then [Fixed(Opcode(op))] else [], p, Final(g.elements[id]), Now());
    }

    method RenderReference(write: bool, id: nat, tag: Option<nat>) returns (ok: bool)
      requires Valid() && Reached(g, id, tag)
      requires g.elements[id].compound.TypeRef?
      requires Fits(g, done, order, Inside(g, id, tag))
      modifies this
      ensures ok <==> Unsupported !in Inside(g, id, tag)
      ensures ok ==> Valid() && entryIndex == old(entryIndex) && done == old(done)
      ensures ok ==> Extends(write, entryIndex, old(Now()), Inside(g, id, tag), Now())
      decreases Rank(g, id, tag) + 1, 0
    {
      hide Fits, Extends, Code;
      var e := g.elements[id];
      Sound(g, id, tag);
      var t := if Bare(e) then tag else None;
      var act, skip := e.action.Some?, Skippable(g, id, tag);
      ghost var a, b := Code(g, e.target, t), (if act then [Fixed(Opcode(Act(skip)))] else []) + Final(e);
      assert Inside(g, id, tag) == a + b;
      FitsSplit(g, done, order, a, b);
      ok := RenderElement(write, e.target, t);
      if ok {
        ghost var p := Now();
        RenderEnd(write, id, act, Act(skip));
        ExtendsJoin(write, entryIndex, old(Now()), a, p, b, Now());
      }
    }

    method RenderSequence(write: bool, id: nat, tag: Option<nat>) returns (ok: bool)
      requires Valid() && Reached(g, id, tag)
      requires g.elements[id].compound.Sequence? && !OutOfLine(g, id, tag)
      requires Fits(g, done, order, Inside(g, id, tag))
      modifies this
      ensures ok <==> Unsupported !in Inside(g, id, tag)
      ensures ok ==> Valid() && entryIndex == old(entryIndex) && done == old(done)
      ensures ok ==> Extends(write, entryIndex, old(Now()), Inside(g, id, tag), Now())
      decreases Rank(g, id, tag) + 1, 0
    {
      hide Fits, Extends, Code, CodeAll;
      var e := g.elements[id];
      Sound(g, id, tag);
      var op := EndSeq(e.action.Some?);
      ghost var a, b := CodeAll(g, e.children, Rank(g, id, tag), false), [Fixed(Opcode(op))] + Final(e);
      assert Inside(g, id, tag) == a + b;
      FitsSplit(g, done, order, a, b);
      ok := RenderAll(write, e.children, Rank(g, id, tag), false);
      if ok {
        ghost var p := Now();
        RenderEnd(write, id, true, op);
        ExtendsJoin(write, entryIndex, old(Now()), a, p, b, Now());
      }
    }

    method RenderLoop(write: bool, id: nat, tag: Option<nat>, op: Op) returns (ok: bool)
      requires Valid() && Reached(g, id, tag)
      requires !OutOfLine(g, id, tag)
      requires
        || (g.elements[id].compound.SequenceOf? && op == EndSeqOf(g.elements[id].action.Some?))
        || (g.elements[id].compound.SetOf? && op == EndSetOf(g.elements[id].action.Some?))
      requires Fits(g, done, order, Inside(g, id, tag))
      modifies this
      ensures ok <==> Unsupported !in Inside(g, id, tag)
      ensures ok ==> Valid() && entryIndex == old(entryIndex) && done == old(done)
      ensures ok ==> Extends(write, entryIndex, old(Now()), Inside(g, id, tag), Now())
      decreases Rank(g, id, tag) + 1, 0
    {
      hide Fits, Extends, Code, CodeAll, Refs, Note, Inside, LoopEnd, Final;
      var e := g.elements[id];
      Sound(g, id, tag);
      var entry := nrEntries;
      ghost var p, a := Now(), CodeAll(g, e.children[..1], Rank(g, id, tag), false);
      LoopParts(g, done, order, id, tag, op);
      ok := RenderAll(write, e.children[..1], Rank(g, id, tag), false);
      if ok {
        ghost var q := Now();
        ExtendsCount(write, entryIndex, p, a, q);
        RenderLoopEnd(write, op, entry, a);
        ghost var r := Now();
        RenderFinal(write, id);
        Extends3(write, entryIndex, p, a, q, LoopEnd(op, a), r, Final(e), Now());
      }
    }

    method RenderChoice(write: bool, id: nat, tag: Option<nat>) returns (ok: bool)
      requires Valid() && Reached(g, id, tag)
      requires g.elements[id].compound.Choice?
      requires Fits(g, done, order, Inside(g, id, tag))
      modifies this
      ensures ok <==> Unsupported !in Inside(g, id, tag)
      ensures ok ==> Valid() && entryIndex == old(entryIndex) && done == old(done)
      ensures ok ==> Extends(write, entryIndex, old(Now()), Inside(g, id, tag), Now())
      decreases Rank(g, id, tag) + 1, 0
    {
      hide Fits, Extends, Code, CodeAll;
      var e := g.elements[id];
      Sound(g, id, tag);
      var act, skip := e.action.Some?, Skippable(g, id, tag);
      ghost var a := CodeAll(g, e.children, Rank(g, id, tag), true);
      ghost var b := if !skip then [Fixed(Opcode(CondFail))] else [];
      ghost var c := (if act then [Fixed(Opcode(Act(false)))] else []) + Final(e);
      assert Inside(g, id, tag) == a + (b + c);
      FitsSplit(g, done, order, a, b + c);
      ok := RenderAll(write, e.children, Rank(g, id, tag), true);
      if ok {
        ghost var p := Now();
        RenderIf(write, !skip, CondFail);
        ghost var q := Now();
        RenderEnd(write, id, act, Act(false));
        ExtendsJoin(write, entryIndex, p, b, q, c, Now());
        ExtendsJoin(write, entryIndex, old(Now()), a, p, b + c, Now());
      }
    }

    /** Renders a list of elements in order. */
    method RenderAll(write: bool, ids: seq<nat>, bound: nat, choice: bool) returns (ok: bool)
      requires Valid() && Below(g, ids, bound, choice) && Fits(g, done, order, CodeAll(g, ids, bound, choice))
      modifies this
      ensures ok <==> Unsupported !in CodeAll(g, ids, bound, choice)
      ensures ok ==> Valid() && entryIndex == old(entryIndex) && done == old(done)
      ensures ok ==> Extends(write, entryIndex, old(Now()), CodeAll(g, ids, bound, choice), Now())
      decreases bound, |ids| + 3
    {
      assert WellFormed(g);
      hide Valid, Fits, Extends, Code, CodeAll, WellFormed, AllSoFar, Below;
      ghost var p, index := Now(), entryIndex;
      ok := true;
      AllNone(write, index, p, g, ids, bound, choice);
      for i := 0 to |ids|
        invariant ok && Valid() && entryIndex == index && done == old(done)
        invariant AllSoFar(write, index, p, g, ids, i, bound, choice, Now())
      {
        ghost var q := Now();
        AllNext(write, index, p, q, g, done, ids, i, bound, choice);
        var tag := if choice then Some(ids[i]) else None;
        ok := RenderElement(write, ids[i], tag);
        if !ok { return; }
        AllStep(write, index, p, q, Now(), g, ids, i, bound, choice);
      }
      AllDone(write, index, p, g, ids, bound, choice, Now());
    }

    /** Renders what belongs out of line for an element. */
    method RenderBody(write: bool, id: nat) returns (ok: bool)
      requires Valid() && Ready(g, id) && Fits(g, done, order, Body(g, id))
      modifies this
      ensures ok <==> Unsupported !in Body(g, id)
      ensures ok ==> Valid() && entryIndex == old(entryIndex) && done == old(done)
      ensures ok ==> Extends(write, entryIndex, old(Now()), Body(g, id), Now())
    {
      hide Fits, Extends, CodeAll, Ending, Refs, Note, Body, ReadyBody, Final;
      var e := g.elements[id];
      var entry := nrEntries;
      ghost var p, a := Now(), CodeAll(g, e.children, g.top, false);
      BodyParts(g, done, order, id);
      ok := RenderAll(write, e.children, g.top, false);
      if ok {
        ghost var q := Now();
        ExtendsCount(write, entryIndex, p, a, q);
        RenderEnding(write, id, entry, a);
        ghost var r := Now();
        RenderFinal(write, id);
        ghost var t := Now();
        RenderFixed(write, Opcode(Return));
        Extends3(write, entryIndex, p, a, q, Ending(g, id, a), r, Final(e), t);
        ExtendsJoin(write, entryIndex, p, Three(a, Ending(g, id, a), Final(e)), t, [Fixed(Opcode(Return))], Now());
      }
    }

    method RenderEnding(write: bool, id: nat, entry: nat, ghost inner: seq<Item>)
      requires Valid() && id < |g.elements| && nrEntries == entry + |inner|
      modifies this`nrEntries, this`table
      ensures Valid()
      ensures Extends(write, entryIndex, old(Now()), Ending(g, id, inner), Now())
    {
      hide Valid, Extends;
      var act := g.elements[id].action.Some?;
      match g.elements[id].compound
      case Sequence => RenderFixed(write, Opcode(EndSeq(act)));
      case SequenceOf => RenderLoopEnd(write, EndSeqOf(act), entry, inner);
      case Set => RenderFixed(write, Opcode(EndSet(act)));
      case SetOf => RenderLoopEnd(write, EndSetOf(act), entry, inner);
      case _ => ExtendsNone(write, entryIndex, Now());
    }

    /** Takes the next element off the queue. */
    method Dequeue() returns (id: nat)
      requires Valid() && renderList.Some? && order == Stage(g, done)
      modifies this`renderList, this`renderListP, this`done
      ensures old(done) < |order| && id == order[old(done)] && done == old(done) + 1
      ensures Valid()
    {
      hide WellFormed, Linked, Distinct, Chained, Stage, LinkedOn;
      id := renderList.value;
      Turn(g, renderNext, order, done);
      renderList := renderNext[id];
      if renderList.None? {
        renderListP := None;
      }
      done := done + 1;
    }

    /** Between two bodies: those done so far have been rendered and addressed,
        and the order is that of the present stage. */
    ghost predicate BetweenBodies(write: bool, p: Progress)
      reads this
    {
      && Valid() && order == Stage(g, done) && p.count == |Start(g)|
      && AddressedTo(g, entryIndex, done, order)
      && (write ==> Addressed(g, entryIndex))
      && Extends(write, entryIndex, p, Bodies(g, order[..done]), Now())
    }

    /** The address of the element in hand is the number of entries so far. */
    method NoteAddress(write: bool, id: nat, ghost p: Progress, ghost k: nat)
      requires Valid() && order <= Order(g) && p.count == |Start(g)|
      requires k < |order| && id == order[k]
      requires AddressedTo(g, entryIndex, k, order) && (write ==> Addressed(g, entryIndex))
      requires Extends(write, entryIndex, p, Bodies(g, order[..k]), Now())
      modifies this`entryIndex
      ensures Valid() && AddressedTo(g, entryIndex, k + 1, order)
      ensures write ==> entryIndex == old(entryIndex)
      ensures Extends(write, entryIndex, p, Bodies(g, order[..k]), Now())
    {
      hide Extends, Stage, Start, Bodies, Order, WellFormed, Addressed, AddressedTo, Linked, Chained, Distinct;
      ExtendsCount(write, entryIndex, p, Bodies(g, order[..k]), Now());
      Addresses(g, entryIndex, order, k);
      entryIndex := entryIndex[id := nrEntries];
      ExtendsIndex(write, old(entryIndex), entryIndex, p, Bodies(g, order[..k]), Now());
    }

    /** Renders the body of the element at the head of the queue. */
    method RenderNext(write: bool, ghost p: Progress) returns (ok: bool)
      requires BetweenBodies(write, p) && renderList.Some?
      modifies this
      ensures old(done) < |old(order)| && old(done) < |g.elements|
      ensures ok ==> BetweenBodies(write, p) && done == old(done) + 1 && (write ==> entryIndex == old(entryIndex))
      ensures !ok ==> Unsupported in Bodies(g, Order(g))
    {
      hide Fits, Extends, Stage, Start, Body, Bodies, Order, WellFormed, Distinct, Addressed, AddressedTo, Chained, Linked, Queue, Valid;
      InView();
      ghost var k, was := done, order;
      StagePart(g, order, done);
      var id := Dequeue();
      NoteAddress(write, id, p, k);
      ghost var q := Now();
      TurnFits(g, k);
      TurnReady(g, k);
      ok := RenderBody(write, id);
      if ok {
        InView();
        BodyDone(g, write, entryIndex, k, p, q, Now());
      } else {
        BodyListed(g, k);
      }
    }

    lemma InView()
      requires Valid()
      ensures WellFormed(g) && done <= |g.elements| && done <= |order| && InRange(order, |g.elements|)
      ensures (renderList.Some? ==> done < |order|) && |entryIndex| == |g.elements|
    {
      hide WellFormed, Linked, Chained, Distinct;
    }

    /** Renders the out-of-line bodies one after the other until the queue is
        empty, noting where each begins. The second time round they begin where
        they began the first time. */
    method RenderOutOfLineList(write: bool) returns (ok: bool)
      requires Valid() && done == 0 && order == Stage(g, 0) && nrEntries == |Start(g)|
      requires write ==> Addressed(g, entryIndex)
      modifies this
      ensures ok <==> Unsupported !in Bodies(g, Order(g))
      ensures ok ==> Valid() && order == Order(g) && done == |order| && Addressed(g, entryIndex)
      ensures ok && write ==> entryIndex == old(entryIndex)
      ensures ok ==> Extends(write, entryIndex, old(Now()), Bodies(g, Order(g)), Now())
    {
      assert WellFormed(g);
      ghost var p := Now();
      ok := true;
      ExtendsNone(write, entryIndex, p);
      hide Extends, Stage, Start, Body, Order, WellFormed, Distinct, Chained, Linked;
      while renderList != None
        invariant ok && BetweenBodies(write, p)
        invariant write ==> entryIndex == old(entryIndex)
        decreases |g.elements| - done
      {
        ok := RenderNext(write, p);
        if !ok { return; }
      }
      OrderIs(g, done);
      assert order[..done] == order;
      ExtendsSupported(write, entryIndex, p, Bodies(g, Order(g)), Now());
    }

    /** One pass over the whole grammar, from an empty queue. */
    method Pass(write: bool) returns (ok: bool)
      requires Valid() && done == 0 && order == [] && nrEntries == 0 && table == []
      requires write ==> Addressed(g, entryIndex)
      modifies this
      ensures ok <==> Unsupported !in Listing(g)
      ensures ok ==> Valid() && done == |order| && Addressed(g, entryIndex)
      ensures ok ==> nrEntries == |Listing(g)| && (write ==> Rendered(g, table, entryIndex)) && (!write ==> table == [])
    {
      hide Valid, Fits, Extends, Stage, Start, Code, Order, WellFormed, Bodies, Addressed, Rendered, Listing, Refs, Note;
      InView();
      StartFits(g);
      ghost var p, index := Now(), entryIndex;
      ok := RenderStart(write);
      if !ok { return; }
      ghost var r := Now();
      ok := RenderOutOfLineList(write);
      if ok {
        InView();
        ListingDone(g, write, index, entryIndex, p, r, Now());
        PassDone(g, write, entryIndex, Now());
      }
    }

    /** The main code: the root element, and the instruction that ends it. */
    method RenderStart(write: bool) returns (ok: bool)
      requires Valid() && done == 0 && order == []
      modifies this
      ensures ok <==> Unsupported !in Start(g)
      ensures ok ==> Valid() && entryIndex == old(entryIndex) && done == 0 && order == Stage(g, 0)
      ensures ok ==> nrEntries == old(nrEntries) + |Start(g)| && Extends(write, entryIndex, old(Now()), Start(g), Now())
    {
      hide Valid, Fits, Extends, Stage, Start, Code, WellFormed, Listing, Bodies, Order;
      InView();
      StartFits(g);
      ghost var p := Now();
      ok := RenderElement(write, g.root, None);
      if ok {
        ghost var q := Now();
        RenderFixed(write, Opcode(Complete));
        StartDone(g, write, entryIndex, p, q, Now());
      }
    }

    /** Renders the grammar: the first pass finds where the out-of-line bodies
        begin, the second writes the table. Fails exactly when a SET would have
        to be rendered. */
    method Render() returns (ok: bool)
      requires Valid() && Now() == Progress(0, [], []) && done == 0
      modifies this
      ensures ok <==> Unsupported !in Listing(g)
      ensures ok ==> Rendered(g, table, entryIndex) && nrEntries == |table| == |Listing(g)|
    {
      hide Rendered, Addressed, Extends, Valid, Listing, WellFormed;
      InView();
      ok := Pass(false);
      if !ok { return; }
      ClearRendered();
      ResetCount();
      ok := Pass(true);
      if ok {
        RenderedLength(g, table, entryIndex);
      }
    }

    method ResetCount()
      requires Valid()
      modifies this`nrEntries
      ensures Valid() && nrEntries == 0
    {
      nrEntries := 0;
    }

    /** Forgets which elements have joined the queue; the links stay. */
    method ClearRendered()
      requires Valid() && done == |order|
      modifies this`rendered, this`order, this`done
      ensures Valid() && order == [] && done == 0
    {
      hide WellFormed, Linked, Stage;
      for e := 0 to |rendered|
        invariant |rendered| == |g.elements|
        invariant forall x :: 0 <= x < e ==> !rendered[x]
        invariant order == old(order) && done == old(done)
      {
        rendered := rendered[e := false];
      }
      order, done := [], 0;
    }
  }

  lemma PassDone(g: Grammar, write: bool, index: seq<nat>, q: Progress)
    requires WellFormed(g) && Addressed(g, index)
    requires Extends(write, index, Progress(0, [], []), Listing(g), q)
    ensures q.count == |Listing(g)| && Unsupported !in Listing(g)
    ensures write ==> Rendered(g, q.table, index)
    ensures !write ==> q.table == []
  {
    hide Start, Bodies, Order, WellFormed, Refs, Note, Address;
  }

  /** Where each body begins is noted with its element. */
  ghost predicate Addressed(g: Grammar, index: seq<nat>)
    requires WellFormed(g)
  {
    |index| == |g.elements| && AddressedTo(g, index, |Order(g)|, Order(g))
  }

  ghost predicate AddressedTo(g: Grammar, index: seq<nat>, done: nat, order: seq<nat>)
    requires WellFormed(g)
  {
    && InRange(order, |g.elements|) && |index| == |g.elements| && done <= |order|
    && forall k :: 0 <= k < done ==> index[order[k]] == Address(g, order, k)
  }

  lemma Addresses(g: Grammar, index: seq<nat>, order: seq<nat>, k: nat)
    requires WellFormed(g) && Distinct(order) && k < |order| && AddressedTo(g, index, k, order)
    ensures AddressedTo(g, index[order[k] := Address(g, order, k)], k + 1, order)
    ensures Addressed(g, index) && order <= Order(g) ==> index[order[k] := Address(g, order, k)] == index
  {
    hide Start, Bodies, Stage, WellFormed, Order;
    if Addressed(g, index) && order <= Order(g) {
      assert order[..k] == Order(g)[..k];
      assert index[Order(g)[k]] == Address(g, Order(g), k);
    }
  }

  lemma AddressedGrows(g: Grammar, index: seq<nat>, done: nat, order: seq<nat>, more: seq<nat>)
    requires WellFormed(g) && AddressedTo(g, index, done, order) && order <= more && InRange(more, |g.elements|)
    ensures AddressedTo(g, index, done, more)
  {
    hide Start, Bodies, Stage, WellFormed;
    forall k | 0 <= k < done ensures index[more[k]] == Address(g, more, k) {
      assert more[..k] == order[..k];
    }
  }

  lemma BodiesNext(g: Grammar, order: seq<nat>, more: seq<nat>, k: nat)
    requires WellFormed(g) && InRange(more, |g.elements|) && order <= more && k < |order|
    ensures Bodies(g, more[..k + 1]) == Bodies(g, order[..k]) + Body(g, order[k])
  {
    assert more[..k + 1][..k] == order[..k];
  }

  lemma ExtendsIndex(write: bool, i: seq<nat>, j: seq<nat>, p: Progress, items: seq<Item>, q: Progress)
    requires Extends(write, i, p, items, q) && |i| == |j| && (write ==> i == j)
    ensures Extends(write, j, p, items, q)
  {
  }

  /** When an element's turn comes its link names the next element, if there is
      one, even if it was left by the pass before. */
  lemma Turn(g: Grammar, next: seq<Option<nat>>, order: seq<nat>, k: nat)
    requires WellFormed(g) && |next| == |g.elements| && k < |order| && k <= |g.elements|
    requires order == Stage(g, k) && Chained(order, k, next) && Linked(g, next)
    ensures k < |g.elements|
    ensures next[order[k]] == if k + 1 < |order| then Some(order[k + 1]) else None
    ensures Chained(order, k + 1, next)
  {
    hide Stage, WellFormed, Order;
    StagePart(g, order, k);
    assert order[k] == Order(g)[k];
    if k + 1 == |order| {
      assert !LinkedOn(g, next, k);
    }
  }

  /** What rendering the body whose turn it was has added. */
  lemma BodyDone(g: Grammar, write: bool, index: seq<nat>, k: nat, p: Progress, q: Progress, r: Progress)
    requires WellFormed(g) && q.order == Stage(g, k) && k < |q.order| && InRange(q.order, |g.elements|)
    requires AddressedTo(g, index, k + 1, q.order) && InRange(r.order, |g.elements|)
    requires Extends(write, index, p, Bodies(g, q.order[..k]), q)
    requires Extends(write, index, q, Body(g, q.order[k]), r)
    ensures r.order == Stage(g, k + 1) && k + 1 <= |r.order| && AddressedTo(g, index, k + 1, r.order)
    ensures Extends(write, index, p, Bodies(g, r.order[..k + 1]), r)
  {
    hide Extends, Stage, Body, Bodies, WellFormed, AddressedTo, Note, Refs;
    var id := q.order[k];
    ExtendsOrder(write, index, q, Body(g, id), r);
    StageUnfold(g, k);
    ExtendsJoin(write, index, p, Bodies(g, q.order[..k]), q, Body(g, id), r);
    BodiesNext(g, q.order, r.order, k);
    AddressedGrows(g, index, k + 1, q.order, r.order);
  }

  lemma ExtendsOrder(write: bool, index: seq<nat>, p: Progress, items: seq<Item>, q: Progress)
    requires Extends(write, index, p, items, q)
    ensures q.order == Note(p.order, Refs(items))
  {
    hide Note, Refs, Placed;
  }

  lemma TurnFits(g: Grammar, k: nat)
    requires WellFormed(g) && k < |Stage(g, k)| && Stage(g, k)[k] < |g.elements|
    ensures Fits(g, k + 1, Stage(g, k), Body(g, Stage(g, k)[k]))
  {
    hide Stage, Body, Refs, Note;
    StageUnfold(g, k);
  }

  lemma TurnReady(g: Grammar, k: nat)
    requires WellFormed(g) && k < |Stage(g, k)|
    ensures Ready(g, Stage(g, k)[k])
  {
    hide Stage, Ready, WellFormed;
    StageSound(g, k);
  }

  lemma BodyListed(g: Grammar, k: nat)
    requires WellFormed(g) && k < |Stage(g, k)| && k <= |g.elements| && Stage(g, k)[k] < |g.elements|
    requires Unsupported in Body(g, Stage(g, k)[k])
    ensures Unsupported in Bodies(g, Order(g))
  {
    hide Stage, Body, Bodies, Order, WellFormed;
    StageGrows(g, k, |g.elements|);
    LastStage(g);
    assert Order(g)[k] == Stage(g, k)[k];
    BodiesSplit(g, Order(g), k);
  }

  lemma EndingSupported(g: Grammar, id: nat, inner: seq<Item>)
    requires id < |g.elements|
    ensures Unsupported !in Ending(g, id, inner)
  {
  }

  /** The main code is what the first stage stands for. */
  lemma StartFits(g: Grammar)
    requires WellFormed(g)
    ensures Reached(g, g.root, None) && Fits(g, 0, [], Code(g, g.root, None))
    ensures Unsupported in Code(g, g.root, None) ==> Unsupported in Start(g)
    ensures Unsupported in Listing(g) <==> Unsupported in Start(g) || Unsupported in Bodies(g, Order(g))
    ensures Unsupported in Start(g) ==> Unsupported in Code(g, g.root, None)
  {
    hide Code, Note, Refs, Bodies, Order;
    assert Start(g) == Code(g, g.root, None) + [Fixed(Opcode(Complete))];
    assert Fits(g, 0, [], Start(g));
    FitsSplit(g, 0, [], Code(g, g.root, None), [Fixed(Opcode(Complete))]);
  }

  lemma StartDone(g: Grammar, write: bool, index: seq<nat>, p: Progress, q: Progress, r: Progress)
    requires WellFormed(g) && p.order == []
    requires Extends(write, index, p, Code(g, g.root, None), q)
    requires Extends(write, index, q, [Fixed(Opcode(Complete))], r)
    ensures Extends(write, index, p, Start(g), r)
    ensures r.count == p.count + |Start(g)| && r.order == Stage(g, 0)
  {
    hide Code, Note, Refs, Extends;
    ExtendsJoin(write, index, p, Code(g, g.root, None), q, [Fixed(Opcode(Complete))], r);
    ExtendsCount(write, index, p, Start(g), r);
    ExtendsOrder(write, index, p, Start(g), r);
  }

  /** Between the start and the bodies the addresses may have been noted, in the first pass. */
  lemma ListingDone(g: Grammar, write: bool, i: seq<nat>, j: seq<nat>, p: Progress, r: Progress, t: Progress)
    requires WellFormed(g) && |i| == |j| && (write ==> i == j)
    requires Extends(write, i, p, Start(g), r) && Extends(write, j, r, Bodies(g, Order(g)), t)
    ensures Extends(write, j, p, Listing(g), t)
  {
    hide Start, Bodies, Order, Extends;
    ExtendsIndex(write, i, j, p, Start(g), r);
    ExtendsJoin(write, j, p, Start(g), r, Bodies(g, Order(g)), t);
  }

  lemma RenderedLength(g: Grammar, table: seq<Entry>, index: seq<nat>)
    requires WellFormed(g) && Rendered(g, table, index)
    ensures |table| == |Listing(g)|
  {
  }

  lemma ExtendsSupported(write: bool, index: seq<nat>, p: Progress, items: seq<Item>, q: Progress)
    requires Extends(write, index, p, items, q)
    ensures Supported(items, |index|) && Unsupported !in items
  {
    hide Note, Refs, Placed;
  }

  lemma ExtendsCount(write: bool, index: seq<nat>, p: Progress, items: seq<Item>, q: Progress)
    requires Extends(write, index, p, items, q)
    ensures q.count == p.count + |items|
  {
  }

  lemma ExtendsNone(write: bool, index: seq<nat>, p: Progress)
    ensures Extends(write, index, p, [], p)
  {
    assert Placed([], p.count, index) == [];
    assert Refs([]) == [];
  }

  lemma {:induction false} CodeAllSplit(g: Grammar, ids: seq<nat>, i: nat, bound: nat, choice: bool)
    requires WellFormed(g) && Below(g, ids, bound, choice) && i < |ids|
    ensures
      var b := Code(g, ids[i], if choice then Some(ids[i]) else None);
      var a := CodeAll(g, ids[..i], bound, choice);
      && CodeAll(g, ids[..i + 1], bound, choice) == a + b
      && a + b <= CodeAll(g, ids, bound, choice)
      && CodeAll(g, ids, bound, choice) == (a + b) + CodeAll(g, ids, bound, choice)[|a + b|..]
  {
    hide Code, WellFormed;
    var last := |ids| - 1;
    if i == last {
      assert ids[..i + 1] == ids;
    } else {
      CodeAllSplit(g, ids[..last], i, bound, choice);
      assert ids[..last][..i] == ids[..i] && ids[..last][..i + 1] == ids[..i + 1];
    }
  }

  /** The first `i` elements of a list have been rendered. */
  ghost predicate AllSoFar(write: bool, index: seq<nat>, p: Progress,
                           g: Grammar, ids: seq<nat>, i: nat, bound: nat, choice: bool, q: Progress)
    requires WellFormed(g) && Below(g, ids, bound, choice) && i <= |ids|
  {
    Extends(write, index, p, CodeAll(g, ids[..i], bound, choice), q)
  }

  lemma AllNone(write: bool, index: seq<nat>, p: Progress, g: Grammar, ids: seq<nat>, bound: nat, choice: bool)
    requires WellFormed(g) && Below(g, ids, bound, choice)
    ensures AllSoFar(write, index, p, g, ids, 0, bound, choice, p)
  {
    ExtendsNone(write, index, p);
  }

  lemma CodeAllParts(g: Grammar, ids: seq<nat>, i: nat, bound: nat, choice: bool) returns (c: seq<Item>)
    requires WellFormed(g) && Below(g, ids, bound, choice) && i < |ids|
    ensures CodeAll(g, ids, bound, choice)
      == Three(CodeAll(g, ids[..i], bound, choice), Code(g, ids[i], if choice then Some(ids[i]) else None), c)
  {
    hide Code, CodeAll, WellFormed;
    CodeAllSplit(g, ids, i, bound, choice);
    c := CodeAll(g, ids, bound, choice)[|CodeAll(g, ids[..i + 1], bound, choice)|..];
  }

  lemma FitsMiddle(g: Grammar, done: nat, order: seq<nat>, a: seq<Item>, b: seq<Item>, c: seq<Item>, all: seq<Item>)
    requires WellFormed(g) && Fits(g, done, order, all) && all == Three(a, b, c)
    ensures Fits(g, done, Note(order, Refs(a)), b)
    ensures Unsupported in b ==> Unsupported in all
  {
    hide Fits, WellFormed, Note, Refs;
    FitsSplit(g, done, order, a + b, c);
    FitsSplit(g, done, order, a, b);
  }

  lemma NextReached(g: Grammar, ids: seq<nat>, i: nat, bound: nat, choice: bool)
    requires WellFormed(g) && Below(g, ids, bound, choice) && i < |ids|
    ensures var tag := if choice then Some(ids[i]) else None; Reached(g, ids[i], tag) && Rank(g, ids[i], tag) < bound
  {
  }

  /** The next element of a list that fits. */
  lemma AllNext(write: bool, index: seq<nat>, p: Progress, q: Progress,
                g: Grammar, done: nat, ids: seq<nat>, i: nat, bound: nat, choice: bool)
    requires WellFormed(g) && Below(g, ids, bound, choice) && i < |ids|
    requires Fits(g, done, p.order, CodeAll(g, ids, bound, choice))
    requires AllSoFar(write, index, p, g, ids, i, bound, choice, q)
    ensures var tag := if choice then Some(ids[i]) else None; Reached(g, ids[i], tag) && Rank(g, ids[i], tag) < bound
    ensures
      var b := Code(g, ids[i], if choice then Some(ids[i]) else None);
      && Fits(g, done, q.order, b)
      && (Unsupported in b ==> Unsupported in CodeAll(g, ids, bound, choice))
  {
    NextReached(g, ids, i, bound, choice);
    hide Fits, Code, CodeAll, WellFormed, Note, Refs, Extends, Three;
    var b := Code(g, ids[i], if choice then Some(ids[i]) else None);
    var a := CodeAll(g, ids[..i], bound, choice);
    var c := CodeAllParts(g, ids, i, bound, choice);
    FitsMiddle(g, done, p.order, a, b, c, CodeAll(g, ids, bound, choice));
    ExtendsOrder(write, index, p, a, q);
  }

  lemma AllStep(write: bool, index: seq<nat>, p: Progress, q: Progress, r: Progress,
                g: Grammar, ids: seq<nat>, i: nat, bound: nat, choice: bool)
    requires WellFormed(g) && Below(g, ids, bound, choice) && i < |ids|
    requires Reached(g, ids[i], if choice then Some(ids[i]) else None)
    requires AllSoFar(write, index, p, g, ids, i, bound, choice, q)
    requires Extends(write, index, q, Code(g, ids[i], if choice then Some(ids[i]) else None), r)
    ensures AllSoFar(write, index, p, g, ids, i + 1, bound, choice, r)
  {
    hide Code, CodeAll, WellFormed, Extends;
    CodeAllSplit(g, ids, i, bound, choice);
    ExtendsJoin(write, index, p, CodeAll(g, ids[..i], bound, choice), q,
                Code(g, ids[i], if choice then Some(ids[i]) else None), r);
  }

  lemma AllDone(write: bool, index: seq<nat>, p: Progress, g: Grammar, ids: seq<nat>, bound: nat, choice: bool, q: Progress)
    requires WellFormed(g) && Below(g, ids, bound, choice) && AllSoFar(write, index, p, g, ids, |ids|, bound, choice, q)
    ensures Extends(write, index, p, CodeAll(g, ids, bound, choice), q) && Unsupported !in CodeAll(g, ids, bound, choice)
  {
    assert ids[..|ids|] == ids;
    NoneUnsupported(write, index, p, CodeAll(g, ids, bound, choice), q);
  }

  lemma NoneUnsupported(write: bool, index: seq<nat>, p: Progress, items: seq<Item>, q: Progress)
    requires Extends(write, index, p, items, q)
    ensures Unsupported !in items
  {
    hide Note, Refs, Placed;
  }

  function Three(a: seq<Item>, b: seq<Item>, c: seq<Item>): seq<Item> {
    a + b + c
  }

  lemma Extends3(write: bool, index: seq<nat>, p: Progress, a: seq<Item>, q: Progress, b: seq<Item>, r: Progress,
                 c: seq<Item>, t: Progress)
    requires Extends(write, index, p, a, q) && Extends(write, index, q, b, r) && Extends(write, index, r, c, t)
    ensures Extends(write, index, p, Three(a, b, c), t)
  {
    hide Extends;
    ExtendsJoin(write, index, p, a, q, b, r);
    ExtendsJoin(write, index, p, a + b, r, c, t);
  }

  lemma LoopParts(g: Grammar, done: nat, order: seq<nat>, id: nat, tag: Option<nat>, op: Op)
    requires WellFormed(g) && Reached(g, id, tag) && !OutOfLine(g, id, tag)
    requires
      || (g.elements[id].compound.SequenceOf? && op == EndSeqOf(g.elements[id].action.Some?))
      || (g.elements[id].compound.SetOf? && op == EndSetOf(g.elements[id].action.Some?))
    requires Fits(g, done, order, Inside(g, id, tag))
    ensures g.elements[id].children != [] && Below(g, g.elements[id].children[..1], Rank(g, id, tag), false)
    ensures var a := CodeAll(g, g.elements[id].children[..1], Rank(g, id, tag), false);
      && Inside(g, id, tag) == Three(a, LoopEnd(op, a), Final(g.elements[id]))
      && Fits(g, done, order, a)
      && (Unsupported in Inside(g, id, tag) <==> Unsupported in a)
  {
    Sound(g, id, tag);
    hide Fits, CodeAll, WellFormed, Final;
    var a := CodeAll(g, g.elements[id].children[..1], Rank(g, id, tag), false);
    assert Inside(g, id, tag) == a + LoopEnd(op, a) + Final(g.elements[id]) + [];
    hide Inside;
    PartsJoin(g, done, order, a, LoopEnd(op, a), Final(g.elements[id]), []);
    FinalSupported(g.elements[id]);
  }

  lemma BodyParts(g: Grammar, done: nat, order: seq<nat>, id: nat)
    requires WellFormed(g) && Ready(g, id) && Fits(g, done, order, Body(g, id))
    ensures var a := CodeAll(g, g.elements[id].children, g.top, false);
      && Body(g, id) == Three(a, Ending(g, id, a), Final(g.elements[id])) + [Fixed(Opcode(Return))]
      && Fits(g, done, order, a)
      && (Unsupported in Body(g, id) <==> Unsupported in a)
  {
    hide Fits, CodeAll, WellFormed, Ending, Final;
    var a := CodeAll(g, g.elements[id].children, g.top, false);
    PartsJoin(g, done, order, a, Ending(g, id, a), Final(g.elements[id]), [Fixed(Opcode(Return))]);
    EndingSupported(g, id, a);
    FinalSupported(g.elements[id]);
  }

  lemma PartsJoin(g: Grammar, done: nat, order: seq<nat>, a: seq<Item>, b: seq<Item>, c: seq<Item>, d: seq<Item>)
    requires WellFormed(g) && Fits(g, done, order, Three(a, b, c) + d)
    ensures Fits(g, done, order, a)
    ensures Unsupported in Three(a, b, c) + d <==>
      Unsupported in a || Unsupported in b || Unsupported in c || Unsupported in d
  {
    hide Fits, WellFormed;
    assert Three(a, b, c) + d == a + (b + c + d);
    FitsSplit(g, done, order, a, b + c + d);
  }

  lemma FinalSupported(e: Element)
    ensures Unsupported !in Final(e)
  {
  }

  lemma NoteOne(order: seq<nat>, x: nat)
    ensures Note(order, [x]) == if x in order then order else order + [x]
  {
    assert [x][..0] == [];
    assert Note(order, []) == order;
  }
}
