/** What the table says: the instructions that a reader of it finds, and the
    instructions that a grammar calls for. */
module Asn1Shape {
  import opened Options
  import opened Pigeonhole
  import opened Asn1Code
  import opened Asn1Layout

  // ------------------------------------------------------------------------
  // Reading the table, one instruction after the other
  // ------------------------------------------------------------------------

  /** The tag that a match compares with. */
  datatype Label = Label(class_: Class, constructed: bool, number: nat, named: bool)

  /** Where a jump leads: to the body of an element, back over so many entries, or, in the finished
      table, to an address. */
  datatype Dest = Out(id: nat) | Over(back: nat) | At(address: int)

  /** An instruction with the operands behind its opcode. */
  datatype Instr = Instr(op: Op, tag: Option<Label>, dest: Option<Dest>, action: Option<nat>)

  predicate NeedsLabel(op: Op) {
    op.Match?
  }

  predicate NeedsDest(op: Op) {
    (op.Match? && op.jump) || op.EndSeqOf? || op.EndSetOf?
  }

  predicate NeedsAction(op: Op) {
    match op
    case Match(_, _, act, _) => act
    case MatchAny(_, act, _) => act
    case EndSeq(act) => act
    case EndSet(act) => act
    case EndSeqOf(act) => act
    case EndSetOf(act) => act
    case Act(_) => true
    case _ => false
  }

  /** The operands come in this order, each only behind the opcodes that need it. */
  predicate Complete(i: Instr) {
    && i.tag.Some? == NeedsLabel(i.op)
    && i.dest.Some? == NeedsDest(i.op)
    && i.action.Some? == NeedsAction(i.op)
  }

  function LabelAt(items: seq<Item>, k: nat): Option<Label> {
    if k < |items| && items[k].Fixed? && items[k].entry.Tag? then
      Some(Label(items[k].entry.class_, items[k].entry.constructed, items[k].entry.tag, items[k].entry.named))
    else None
  }

  function DestAt(items: seq<Item>, k: nat): Option<Dest> {
    if k < |items| && items[k].BodyOf? then Some(Out(items[k].id))
    else if k < |items| && items[k].Back? then Some(Over(items[k].back))
    else if k < |items| && items[k].Fixed? && items[k].entry.Target? then Some(At(items[k].entry.at))
    else None
  }

  function ActionAt(items: seq<Item>, k: nat): Option<nat> {
    if k < |items| && items[k].Fixed? && items[k].entry.Action? then Some(items[k].entry.action) else None
  }

  function Width(i: Instr): nat {
    1 + (if NeedsLabel(i.op) then 1 else 0) + (if NeedsDest(i.op) then 1 else 0) + (if NeedsAction(i.op) then 1 else 0)
  }

  /** The instruction at the front, with those of its operands that are there. */
  function Front(items: seq<Item>): Option<Instr>
    requires items != []
  {
    if !items[0].Fixed? || !items[0].entry.Opcode? then None
    else
      var op := items[0].entry.op;
      var d := if NeedsLabel(op) then 2 else 1;
      var a := if NeedsDest(op) then d + 1 else d;
      Some(Instr(op,
        if NeedsLabel(op) then LabelAt(items, 1) else None,
        if NeedsDest(op) then DestAt(items, d) else None,
        if NeedsAction(op) then ActionAt(items, a) else None))
  }

  /** The instructions in order; None where an operand is missing or stands where an opcode should. */
  function Decode(items: seq<Item>): Option<seq<Instr>>
    decreases |items|
  {
    if items == [] then Some([])
    else
      var i := Front(items);
      if i.None? || !Complete(i.value) || Width(i.value) > |items| then None
      else Then(true, [i.value], Decode(items[Width(i.value)..]))
  }

  function Then(ok: bool, now: seq<Instr>, later: Option<seq<Instr>>): Option<seq<Instr>> {
    if !ok || later.None? then None else Some(now + later.value)
  }

  // ------------------------------------------------------------------------
  // What the grammar calls for
  // ------------------------------------------------------------------------

  /** The element and the tag it is rendered under, if there is one. */
  function Worn(id: nat, over: Option<nat>): set<nat> {
    if over.Some? then {id, over.value} else {id}
  }

  ghost predicate MayBeLeftOut(g: Grammar, id: nat, over: Option<nat>) {
    exists x :: x in Worn(id, over) && x < |g.elements| && g.elements[x].skippable
  }

  ghost predicate OnlyIfNone(g: Grammar, id: nat, over: Option<nat>) {
    exists x :: x in Worn(id, over) && x < |g.elements| && g.elements[x].conditional
  }

  /** Elsewhere in the table: what several places use, and what may be left out. */
  ghost predicate Elsewhere(g: Grammar, id: nat, over: Option<nat>)
    requires id < |g.elements|
  {
    g.elements[id].shared || MayBeLeftOut(g, id, over)
  }

  lemma WornBy(g: Grammar, id: nat, over: Option<nat>)
    requires id < |g.elements| && Known(g, over)
    ensures MayBeLeftOut(g, id, over) == Skippable(g, id, over)
    ensures OnlyIfNone(g, id, over) == Conditional(g, id, over)
    ensures Elsewhere(g, id, over) == OutOfLine(g, id, over)
  {
    assert id in Worn(id, over);
    if over.Some? { assert over.value in Worn(id, over); }
  }

  /** Who gives the tag: the overriding element if a tag was written there, else the element. */
  function Bearer(g: Grammar, id: nat, over: Option<nat>): nat
    requires id < |g.elements| && Known(g, over)
  {
    match over
    case None => id
    case Some(t) => if g.elements[t].tagSpecified then t else id
  }

  /** Tags 14, 15 and 31 have no name among the universal ones. */
  function LabelOf(g: Grammar, id: nat, over: Option<nat>): Label
    requires id < |g.elements| && Known(g, over)
  {
    var t := g.elements[Bearer(g, id, over)];
    Label(t.class_, t.constructed || g.elements[id].constructed, t.tag, t.class_ == Universal && t.tag !in {14, 15, 31})
  }

  /** A match of the element's tag: jump says that what is inside stands elsewhere. */
  ghost function Matching(g: Grammar, id: nat, over: Option<nat>, jump: bool, action: Option<nat>): Instr
    requires id < |g.elements| && Known(g, over)
  {
    Instr(Match(OnlyIfNone(g, id, over), jump, action.Some?, MayBeLeftOut(g, id, over)),
          Some(LabelOf(g, id, over)), if jump then Some(Out(id)) else None, action)
  }

  function Ending1(op: Op, action: Option<nat>): seq<Instr> {
    [Instr(op, None, None, action)]
  }

  /** Back over all that is repeated, and the instruction itself. */
  function Loop(op: Op, inner: seq<Instr>, action: Option<nat>): seq<Instr> {
    [Instr(op, None, Some(Over(Size(inner) + 1)), action)]
  }

  function Size(p: seq<Instr>): nat {
    if p == [] then 0 else Width(p[0]) + Size(p[1..])
  }

  ghost function Plan(g: Grammar, id: nat, over: Option<nat>): seq<Instr>
    requires WellFormed(g) && Reached(g, id, over)
    decreases Rank(g, id, over) + 1, 1
  {
    Sound(g, id, over);
    var e := g.elements[id];
    match e.compound
    case TagOverride => Plan(g, e.children[0], Some(id))
    case Any => [Instr(MatchAny(OnlyIfNone(g, id, over), e.action.Some?, MayBeLeftOut(g, id, over)), None, None, e.action)]
    case NotCompound => [Matching(g, id, over, false, e.action)]
    case Set => []
    case TypeRef =>
      (if Bare(e) then Plan(g, e.target, over)
       else [Matching(g, id, over, false, None)] + Plan(g, e.target, None))
      + (if e.action.Some? then Ending1(Act(MayBeLeftOut(g, id, over)), e.action) else [])
    case Choice =>
      PlanAll(g, e.children, Rank(g, id, over), true)
      + (if MayBeLeftOut(g, id, over) then [] else Ending1(CondFail, None))
      + (if e.action.Some? then Ending1(Act(false), e.action) else [])
    case _ => PlanCompound(g, id, over)
  }

  /** The elements inside a compound one: a SEQUENCE OF or SET OF repeats a single one. */
  function Within(e: Element): seq<nat> {
    if e.compound.Sequence? || e.children == [] then e.children else e.children[..1]
  }

  /** A SEQUENCE, SEQUENCE OF or SET OF. */
  ghost function PlanCompound(g: Grammar, id: nat, over: Option<nat>): seq<Instr>
    requires WellFormed(g) && Reached(g, id, over)
    requires var c := g.elements[id].compound; c.Sequence? || c.SequenceOf? || c.SetOf?
    decreases Rank(g, id, over) + 1, 0
  {
    Sound(g, id, over);
    WornBy(g, id, over);
    var e := g.elements[id];
    if Elsewhere(g, id, over) then [Matching(g, id, over, true, None)]
    else
      var inner := PlanAll(g, Within(e), Rank(g, id, over), false);
      [Matching(g, id, over, false, None)] + (inner + Ends(e, inner))
  }

  /** What closes a compound element. */
  function Ends(e: Element, inner: seq<Instr>): seq<Instr> {
    var act := e.action.Some?;
    match e.compound
    case Sequence => Ending1(EndSeq(act), e.action)
    case SequenceOf => Loop(EndSeqOf(act), inner, e.action)
    case SetOf => Loop(EndSetOf(act), inner, e.action)
    case _ => []
  }

  /** One element after the other; an alternative of a CHOICE is rendered under itself. */
  ghost function PlanAll(g: Grammar, ids: seq<nat>, bound: nat, choice: bool): seq<Instr>
    requires WellFormed(g) && Below(g, ids, bound, choice)
    decreases bound, |ids| + 2
  {
    if ids == [] then [] else
      var last := ids[|ids| - 1];
      PlanAll(g, ids[..|ids| - 1], bound, choice) + Plan(g, last, if choice then Some(last) else None)
  }

  /** What can be read: no SET, and no reference with a tag and an action of its own, whose match would
      announce an action that does not follow. */
  ghost predicate Readable(g: Grammar, id: nat, over: Option<nat>)
    requires WellFormed(g) && Reached(g, id, over)
    decreases Rank(g, id, over) + 1, 1
  {
    Sound(g, id, over);
    WornBy(g, id, over);
    var e := g.elements[id];
    match e.compound
    case TagOverride => Readable(g, e.children[0], Some(id))
    case TypeRef => (Bare(e) || e.action.None?) && Readable(g, e.target, if Bare(e) then over else None)
    case Choice => AllReadable(g, e.children, Rank(g, id, over), true)
    case Set => false
    case Any => true
    case NotCompound => true
    case _ => Elsewhere(g, id, over) || AllReadable(g, Within(e), Rank(g, id, over), false)
  }

  ghost predicate AllReadable(g: Grammar, ids: seq<nat>, bound: nat, choice: bool)
    requires WellFormed(g) && Below(g, ids, bound, choice)
    decreases bound, |ids| + 2
  {
    ids != [] ==>
      var last := ids[|ids| - 1];
      AllReadable(g, ids[..|ids| - 1], bound, choice) && Readable(g, last, if choice then Some(last) else None)
  }

  // ------------------------------------------------------------------------
  // The table says what the grammar calls for
  // ------------------------------------------------------------------------

  /** The entries of an instruction. */
  function Cells(i: Instr): seq<Item>
    requires Complete(i)
  {
    [Fixed(Opcode(i.op))]
    + (LabelCells(i.tag) + (DestCells(i.dest) + (if i.action.Some? then [Fixed(Action(i.action.value))] else [])))
  }

  function LabelCells(tag: Option<Label>): seq<Item> {
    match tag
    case None => []
    case Some(l) => [Fixed(Tag(l.class_, l.constructed, l.number, l.named))]
  }

  function DestCells(dest: Option<Dest>): seq<Item> {
    match dest
    case None => []
    case Some(Out(id)) => [BodyOf(id)]
    case Some(Over(n)) => [Back(n)]
    case Some(At(a)) => [Fixed(Target(a))]
  }

  lemma CellsFront(i: Instr, rest: seq<Item>)
    requires Complete(i)
    ensures |Cells(i)| == Width(i) && Front(Cells(i) + rest) == Some(i)
  {
  }

  /** Wherever the items stand, a reader finds these instructions, or cannot read on if not ok. */
  ghost predicate Reads(items: seq<Item>, ok: bool, p: seq<Instr>) {
    && (forall rest: seq<Item> :: Decode(items + rest) == Then(ok, p, Decode(rest)))
    && (ok ==> |items| == Size(p))
  }

  lemma OneReads(i: Instr)
    requires Complete(i)
    ensures Reads(Cells(i), true, [i])
  {
    forall rest: seq<Item>
      ensures Decode(Cells(i) + rest) == Then(true, [i], Decode(rest))
    {
      CellsFront(i, rest);
      assert (Cells(i) + rest)[Width(i)..] == rest;
    }
    CellsFront(i, []);
    assert Size([i]) == Width(i) + Size([i][1..]);
  }

  lemma {:induction false} SizeJoin(p: seq<Instr>, q: seq<Instr>)
    ensures Size(p + q) == Size(p) + Size(q)
  {
    if p == [] {
      assert p + q == q;
    } else {
      assert (p + q)[0] == p[0] && (p + q)[1..] == p[1..] + q;
      SizeJoin(p[1..], q);
    }
  }

  lemma ThenThen(okA: bool, p: seq<Instr>, okB: bool, q: seq<Instr>, r: Option<seq<Instr>>)
    ensures Then(okA, p, Then(okB, q, r)) == Then(okA && okB, p + q, r)
  {
    if r.Some? { assert p + (q + r.value) == p + q + r.value; }
  }

  lemma BothRead(a: seq<Item>, okA: bool, p: seq<Instr>, b: seq<Item>, okB: bool, q: seq<Instr>)
    requires Reads(a, okA, p) && Reads(b, okB, q)
    ensures Reads(a + b, okA && okB, p + q)
  {
    hide Decode, Then, Size;
    forall rest: seq<Item>
      ensures Decode(a + b + rest) == Then(okA && okB, p + q, Decode(rest))
    {
      assert a + b + rest == a + (b + rest);
      ThenThen(okA, p, okB, q, Decode(rest));
    }
    SizeJoin(p, q);
  }

  lemma NoneReads()
    ensures Reads([], true, [])
  {
    forall rest: seq<Item>
      ensures Decode([] + rest) == Then(true, [], Decode(rest))
    {
      assert [] + rest == rest;
      if Decode(rest).Some? { assert [] + Decode(rest).value == Decode(rest).value; }
    }
  }

  /** Items that begin with an opcode or with the place where the compiler gives up. */
  predicate Opening(items: seq<Item>) {
    items != [] ==> items[0].Unsupported? || (items[0].Fixed? && items[0].entry.Opcode?)
  }

  lemma {:induction false} CodeOpens(g: Grammar, id: nat, tag: Option<nat>)
    requires WellFormed(g) && Reached(g, id, tag)
    ensures Opening(Code(g, id, tag))
    decreases Rank(g, id, tag) + 1, 1
  {
    Sound(g, id, tag);
    var e := g.elements[id];
    hide WellFormed, TagEntry, Skippable, Conditional, OutOfLine;
    match e.compound
    case TagOverride => CodeOpens(g, e.children[0], Some(id));
    case TypeRef => CodeOpens(g, e.target, if Bare(e) then tag else None);
    case Choice => AllOpens(g, e.children, Rank(g, id, tag), true);
    case _ =>
  }

  lemma {:induction false} AllOpens(g: Grammar, ids: seq<nat>, bound: nat, choice: bool)
    requires WellFormed(g) && Below(g, ids, bound, choice)
    ensures Opening(CodeAll(g, ids, bound, choice))
    decreases bound, |ids| + 2
  {
    if ids != [] {
      var last := ids[|ids| - 1];
      AllOpens(g, ids[..|ids| - 1], bound, choice);
      CodeOpens(g, last, if choice then Some(last) else None);
    }
  }

  lemma ActionMissing(op: Op, entry: Entry, more: seq<Item>, p: seq<Instr>)
    requires op.Match? && op.act && !op.jump && more != [] && Opening(more)
    ensures Reads([Fixed(Opcode(op)), Fixed(entry)] + more, false, p)
  {
    var items := [Fixed(Opcode(op)), Fixed(entry)] + more;
    forall rest: seq<Item>
      ensures Decode(items + rest) == None
    {
      assert (items + rest)[2] == more[0];
    }
  }

  lemma DestMissing(op: Op, entry: Entry, p: seq<Instr>)
    requires op.Match? && !op.act
    ensures Reads([Fixed(Opcode(op)), Fixed(entry)] + [Unsupported], false, p)
  {
    var items := [Fixed(Opcode(op)), Fixed(entry)] + [Unsupported];
    forall rest: seq<Item>
      ensures Decode(items + rest) == None
    {
      assert (items + rest)[2] == Unsupported;
      if !op.jump {
        assert (items + rest)[2..][0] == Unsupported;
      }
    }
  }

  /** An instruction without operands but, perhaps, an action. */
  lemma EndReads(op: Op, e: Element)
    requires !NeedsLabel(op) && !NeedsDest(op) && NeedsAction(op) == e.action.Some?
    ensures Reads([Fixed(Opcode(op))] + Final(e), true, Ending1(op, e.action))
  {
    var i := Instr(op, None, None, e.action);
    OneReads(i);
    assert Cells(i) == [Fixed(Opcode(op))] + Final(e);
  }

  lemma LoopReads(op: Op, e: Element, inner: seq<Item>, p: seq<Instr>)
    requires (op.EndSeqOf? || op.EndSetOf?) && NeedsAction(op) == e.action.Some? && |inner| == Size(p)
    ensures Reads(LoopEnd(op, inner) + Final(e), true, Loop(op, p, e.action))
  {
    var i := Instr(op, None, Some(Over(Size(p) + 1)), e.action);
    OneReads(i);
    assert Cells(i) == LoopEnd(op, inner) + Final(e);
  }

  lemma MatchReads(g: Grammar, id: nat, tag: Option<nat>, jump: bool, action: Option<nat>)
    requires id < |g.elements| && Known(g, tag)
    ensures var op := Match(Conditional(g, id, tag), jump, action.Some?, Skippable(g, id, tag));
      Reads([Fixed(Opcode(op)), Fixed(TagEntry(g, id, tag))]
              + ((if jump then [BodyOf(id)] else []) + (if action.Some? then [Fixed(Action(action.value))] else [])),
            true, [Matching(g, id, tag, jump, action)])
  {
    var i := Matching(g, id, tag, jump, action);
    var op := Match(Conditional(g, id, tag), jump, action.Some?, Skippable(g, id, tag));
    WornBy(g, id, tag);
    OneReads(i);
    assert Cells(i) ==
      [Fixed(Opcode(op)), Fixed(TagEntry(g, id, tag))]
      + ((if jump then [BodyOf(id)] else []) + (if action.Some? then [Fixed(Action(action.value))] else []));
  }

  /** Elements that hold no others. */
  lemma LeafReads(g: Grammar, id: nat, tag: Option<nat>)
    requires WellFormed(g) && Reached(g, id, tag)
    requires var c := g.elements[id].compound; c.Any? || c.NotCompound? || c.Set?
    ensures Reads(Code(g, id, tag), Readable(g, id, tag), Plan(g, id, tag))
  {
    var e := g.elements[id];
    WornBy(g, id, tag);
    match e.compound
    case Any =>
      EndReads(MatchAny(Conditional(g, id, tag), e.action.Some?, Skippable(g, id, tag)), e);
    case NotCompound =>
      MatchReads(g, id, tag, false, e.action);
      assert Final(e) == [] + (if e.action.Some? then [Fixed(Action(e.action.value))] else []);
    case Set =>
      DestMissing(Match(Conditional(g, id, tag), OutOfLine(g, id, tag), false, Skippable(g, id, tag)), TagEntry(g, id, tag), []);
    case _ =>
  }

  /** The code of every element reads as its plan, wherever it stands; and exactly the elements that
      are readable are read at all. */
  lemma {:induction false} CodeReads(g: Grammar, id: nat, tag: Option<nat>)
    requires WellFormed(g) && Reached(g, id, tag)
    ensures Reads(Code(g, id, tag), Readable(g, id, tag), Plan(g, id, tag))
    decreases Rank(g, id, tag) + 1, 1
  {
    Sound(g, id, tag);
    hide Decode, Reads, WellFormed;
    var e := g.elements[id];
    match e.compound
    case TagOverride => CodeReads(g, e.children[0], Some(id));
    case Any => LeafReads(g, id, tag);
    case NotCompound => LeafReads(g, id, tag);
    case Set => LeafReads(g, id, tag);
    case TypeRef => RefReads(g, id, tag);
    case Choice => ChoiceReads(g, id, tag);
    case _ => CompoundReads(g, id, tag);
  }

  lemma {:induction false} RefReads(g: Grammar, id: nat, tag: Option<nat>)
    requires WellFormed(g) && Reached(g, id, tag) && g.elements[id].compound.TypeRef?
    ensures Reads(Code(g, id, tag), Readable(g, id, tag), Plan(g, id, tag))
    decreases Rank(g, id, tag) + 1, 0
  {
    Sound(g, id, tag);
    var e := g.elements[id];
    var t := if Bare(e) then tag else None;
    hide Decode, Reads, WellFormed, Code, Plan, Readable, Skippable, Bare, Head, Matching, ActItems, ActPlan;
    RefCode(g, id, tag);
    RefPlan(g, id, tag);
    CodeReads(g, e.target, t);
    RefAct(g, id, tag);
    var tail, end := ActItems(g, id, tag), ActPlan(g, id, tag);
    var inner, ok, p := Code(g, e.target, t), Readable(g, e.target, t), Plan(g, e.target, t);
    BothRead(inner, ok, p, tail, true, end);
    if !Bare(e) {
      TaggedReads(g, id, tag, inner + tail, ok, p + end);
    }
  }

  function ActItems(g: Grammar, id: nat, tag: Option<nat>): seq<Item>
    requires id < |g.elements| && Known(g, tag)
  {
    var e := g.elements[id];
    (if e.action.Some? then [Fixed(Opcode(Act(Skippable(g, id, tag))))] else []) + Final(e)
  }

  function ActPlan(g: Grammar, id: nat, tag: Option<nat>): seq<Instr>
    requires id < |g.elements| && Known(g, tag)
  {
    var e := g.elements[id];
    if e.action.Some? then Ending1(Act(Skippable(g, id, tag)), e.action) else []
  }

  /** The action of a reference. */
  lemma RefAct(g: Grammar, id: nat, tag: Option<nat>)
    requires WellFormed(g) && Reached(g, id, tag) && g.elements[id].compound.TypeRef?
    ensures Reads(ActItems(g, id, tag), true, ActPlan(g, id, tag))
    ensures var e := g.elements[id]; e.action.Some? ==>
      var t := if Bare(e) then tag else None;
      Reached(g, e.target, t)
      && Code(g, e.target, t) + ActItems(g, id, tag) != [] && Opening(Code(g, e.target, t) + ActItems(g, id, tag))
  {
    Sound(g, id, tag);
    var e := g.elements[id];
    CodeOpens(g, e.target, if Bare(e) then tag else None);
    hide Decode, Reads, Code;
    if e.action.Some? { EndReads(Act(Skippable(g, id, tag)), e); } else { NoneReads(); }
  }

  /** A reference with a tag of its own. */
  lemma TaggedReads(g: Grammar, id: nat, tag: Option<nat>, more: seq<Item>, ok: bool, p: seq<Instr>)
    requires id < |g.elements| && Known(g, tag) && g.elements[id].compound.TypeRef? && !Bare(g.elements[id])
    requires Reads(more, ok, p)
    requires g.elements[id].action.Some? ==> more != [] && Opening(more)
    ensures Reads(Head(g, id, tag) + more, g.elements[id].action.None? && ok, [Matching(g, id, tag, false, None)] + p)
  {
    hide Decode, Reads;
    var head := Head(g, id, tag);
    if g.elements[id].action.Some? {
      ActionMissing(head[0].entry.op, head[1].entry, more, [Matching(g, id, tag, false, None)] + p);
    } else {
      MatchReads(g, id, tag, false, None);
      assert head == head + ([] + []);
      BothRead(head, true, [Matching(g, id, tag, false, None)], more, ok, p);
    }
  }

  lemma RefCode(g: Grammar, id: nat, tag: Option<nat>)
    requires WellFormed(g) && Reached(g, id, tag) && g.elements[id].compound.TypeRef?
    ensures var e := g.elements[id];
      var t := if Bare(e) then tag else None;
      && Reached(g, e.target, t)
      && Code(g, id, tag)
           == (if Bare(e) then Code(g, e.target, t) + ActItems(g, id, tag)
               else Head(g, id, tag) + (Code(g, e.target, t) + ActItems(g, id, tag)))
  {
    Sound(g, id, tag);
    hide Skippable, Bare;
  }

  lemma RefPlan(g: Grammar, id: nat, tag: Option<nat>)
    requires WellFormed(g) && Reached(g, id, tag) && g.elements[id].compound.TypeRef?
    ensures var e := g.elements[id];
      var t := if Bare(e) then tag else None;
      && Reached(g, e.target, t)
      && Plan(g, id, tag)
           == (if Bare(e) then Plan(g, e.target, t) + ActPlan(g, id, tag)
               else [Matching(g, id, tag, false, None)] + (Plan(g, e.target, t) + ActPlan(g, id, tag)))
      && Readable(g, id, tag) == ((Bare(e) || e.action.None?) && Readable(g, e.target, t))
  {
    Sound(g, id, tag);
    WornBy(g, id, tag);
    hide Skippable, Bare, Matching, MayBeLeftOut;
  }

  lemma {:induction false} ChoiceReads(g: Grammar, id: nat, tag: Option<nat>)
    requires WellFormed(g) && Reached(g, id, tag) && g.elements[id].compound.Choice?
    ensures Reads(Code(g, id, tag), Readable(g, id, tag), Plan(g, id, tag))
    decreases Rank(g, id, tag) + 1, 0
  {
    Sound(g, id, tag);
    var e := g.elements[id];
    var n := Rank(g, id, tag);
    AllRead(g, e.children, n, true);
    ChoiceCode(g, id, tag);
    ChoiceUnfolds(g, id, tag);
    ChoiceEnd(g, id, tag);
    hide Decode, Reads, WellFormed, CodeAll, PlanAll, AllReadable, Code, Plan, Readable;
    BothRead(CodeAll(g, e.children, n, true), AllReadable(g, e.children, n, true), PlanAll(g, e.children, n, true),
             ChoiceItems(g, id, tag), true, ChoicePlan(g, id, tag));
  }

  /** What follows the alternatives of a CHOICE. */
  function ChoiceItems(g: Grammar, id: nat, tag: Option<nat>): seq<Item>
    requires id < |g.elements| && Known(g, tag)
  {
    var e := g.elements[id];
    (if Skippable(g, id, tag) then [] else [Fixed(Opcode(CondFail))])
    + ((if e.action.Some? then [Fixed(Opcode(Act(false)))] else []) + Final(e))
  }

  ghost function ChoicePlan(g: Grammar, id: nat, tag: Option<nat>): seq<Instr>
    requires id < |g.elements|
  {
    var e := g.elements[id];
    (if MayBeLeftOut(g, id, tag) then [] else Ending1(CondFail, None))
    + (if e.action.Some? then Ending1(Act(false), e.action) else [])
  }

  lemma ChoiceCode(g: Grammar, id: nat, tag: Option<nat>)
    requires WellFormed(g) && Reached(g, id, tag) && g.elements[id].compound.Choice?
    ensures var e := g.elements[id];
      var n := Rank(g, id, tag);
      && Below(g, e.children, n, true)
      && Code(g, id, tag) == CodeAll(g, e.children, n, true) + ChoiceItems(g, id, tag)
  {
    Sound(g, id, tag);
    hide Skippable, CodeAll, Final;
  }

  lemma ChoiceUnfolds(g: Grammar, id: nat, tag: Option<nat>)
    requires WellFormed(g) && Reached(g, id, tag) && g.elements[id].compound.Choice?
    ensures var e := g.elements[id];
      var n := Rank(g, id, tag);
      && Below(g, e.children, n, true)
      && Plan(g, id, tag) == PlanAll(g, e.children, n, true) + ChoicePlan(g, id, tag)
      && Readable(g, id, tag) == AllReadable(g, e.children, n, true)
  {
    Sound(g, id, tag);
    hide Skippable, MayBeLeftOut, PlanAll, AllReadable;
  }

  lemma ChoiceEnd(g: Grammar, id: nat, tag: Option<nat>)
    requires id < |g.elements| && Known(g, tag)
    ensures Reads(ChoiceItems(g, id, tag), true, ChoicePlan(g, id, tag))
  {
    var e := g.elements[id];
    WornBy(g, id, tag);
    hide Decode, Reads;
    NoneReads();
    if e.action.Some? { EndReads(Act(false), e); }
    var fail := Instr(CondFail, None, None, None);
    OneReads(fail);
    assert Cells(fail) == [Fixed(Opcode(CondFail))];
    BothRead(if Skippable(g, id, tag) then [] else [Fixed(Opcode(CondFail))], true,
             if Skippable(g, id, tag) then [] else Ending1(CondFail, None),
             (if e.action.Some? then [Fixed(Opcode(Act(false)))] else []) + Final(e), true,
             if e.action.Some? then Ending1(Act(false), e.action) else []);
  }

  lemma {:induction false} CompoundReads(g: Grammar, id: nat, tag: Option<nat>)
    requires WellFormed(g) && Reached(g, id, tag)
    requires var c := g.elements[id].compound; c.Sequence? || c.SequenceOf? || c.SetOf?
    ensures Reads(Code(g, id, tag), Readable(g, id, tag), Plan(g, id, tag))
    decreases Rank(g, id, tag) + 1, 0
  {
    Sound(g, id, tag);
    WornBy(g, id, tag);
    var e := g.elements[id];
    MatchReads(g, id, tag, OutOfLine(g, id, tag), None);
    if OutOfLine(g, id, tag) {
      assert Code(g, id, tag) == Head(g, id, tag) + ([BodyOf(id)] + []);
    } else {
      CompoundUnfolds(g, id, tag);
      var ids := Within(e);
      var n := Rank(g, id, tag);
      AllRead(g, ids, n, false);
      var head, inner := Head(g, id, tag), CodeAll(g, ids, n, false);
      var ok, p := AllReadable(g, ids, n, false), PlanAll(g, ids, n, false);
      var m := [Matching(g, id, tag, false, None)];
      assert head == head + ([] + []);
      EndsRead(g, id, inner, ok, p);
      hide Decode, Reads, WellFormed, CodeAll, PlanAll, AllReadable;
      var end := Ending(g, id, inner) + Final(e);
      BothRead(head, true, m, inner + end, ok, p + Ends(e, p));
    }
  }

  lemma CompoundUnfolds(g: Grammar, id: nat, tag: Option<nat>)
    requires WellFormed(g) && Reached(g, id, tag) && !OutOfLine(g, id, tag)
    requires var c := g.elements[id].compound; c.Sequence? || c.SequenceOf? || c.SetOf?
    ensures var e := g.elements[id];
      var ids := Within(e);
      var n := Rank(g, id, tag);
      && Below(g, ids, n, false)
      && Code(g, id, tag) == Head(g, id, tag)
           + (CodeAll(g, ids, n, false) + (Ending(g, id, CodeAll(g, ids, n, false)) + Final(e)))
      && Plan(g, id, tag)
           == [Matching(g, id, tag, false, None)] + (PlanAll(g, ids, n, false) + Ends(e, PlanAll(g, ids, n, false)))
      && Readable(g, id, tag) == AllReadable(g, ids, n, false)
  {
    Sound(g, id, tag);
    WornBy(g, id, tag);
  }

  /** What is repeated or listed inside an element, with what closes it. */
  lemma EndsRead(g: Grammar, id: nat, inner: seq<Item>, ok: bool, p: seq<Instr>)
    requires id < |g.elements| && Reads(inner, ok, p)
    requires var c := g.elements[id].compound; c.Sequence? || c.SequenceOf? || c.SetOf?
    ensures var e := g.elements[id];
      Reads(inner + (Ending(g, id, inner) + Final(e)), ok, p + Ends(e, p))
  {
    var e := g.elements[id];
    var act := e.action.Some?;
    var end := Ending(g, id, inner) + Final(e);
    if ok {
      if e.compound.Sequence? { EndReads(EndSeq(act), e); }
      else { LoopReads(if e.compound.SequenceOf? then EndSeqOf(act) else EndSetOf(act), e, inner, p); }
      BothRead(inner, ok, p, end, true, Ends(e, p));
    } else {
      Unreadable(inner, p, end, p + Ends(e, p));
    }
  }

  /** Once a reader is stopped, it does not matter what follows. */
  lemma Unreadable(a: seq<Item>, p: seq<Instr>, b: seq<Item>, q: seq<Instr>)
    requires Reads(a, false, p)
    ensures Reads(a + b, false, q)
  {
    hide Decode;
    forall rest: seq<Item>
      ensures Decode(a + b + rest) == None
    {
      assert a + b + rest == a + (b + rest);
    }
  }

  lemma {:induction false} AllRead(g: Grammar, ids: seq<nat>, bound: nat, choice: bool)
    requires WellFormed(g) && Below(g, ids, bound, choice)
    ensures Reads(CodeAll(g, ids, bound, choice), AllReadable(g, ids, bound, choice), PlanAll(g, ids, bound, choice))
    decreases bound, |ids| + 2
  {
    hide Decode, Reads, Code, Plan, Readable;
    if ids == [] {
      NoneReads();
    } else {
      var last := ids[|ids| - 1];
      var tag := if choice then Some(last) else None;
      var init := ids[..|ids| - 1];
      AllRead(g, init, bound, choice);
      CodeReads(g, last, tag);
      BothRead(CodeAll(g, init, bound, choice), AllReadable(g, init, bound, choice), PlanAll(g, init, bound, choice),
               Code(g, last, tag), Readable(g, last, tag), Plan(g, last, tag));
    }
  }

  // ------------------------------------------------------------------------
  // Bodies
  // ------------------------------------------------------------------------

  predicate HoldsOthers(e: Element) {
    e.compound.Sequence? || e.compound.SequenceOf? || e.compound.SetOf?
  }

  /** Only compound elements are jumped to. */
  predicate JumpsToCompounds(g: Grammar, items: seq<Item>) {
    forall i <- items :: i.BodyOf? ==> i.id < |g.elements| && HoldsOthers(g.elements[i.id])
  }

  lemma JumpsJoin(g: Grammar, a: seq<Item>, b: seq<Item>)
    requires JumpsToCompounds(g, a) && JumpsToCompounds(g, b)
    ensures JumpsToCompounds(g, a + b)
  {
  }

  lemma {:induction false} CodeJumps(g: Grammar, id: nat, tag: Option<nat>)
    requires WellFormed(g) && Reached(g, id, tag)
    ensures JumpsToCompounds(g, Code(g, id, tag))
    decreases Rank(g, id, tag) + 1, 1
  {
    Sound(g, id, tag);
    var e := g.elements[id];
    if e.compound.TagOverride? {
      CodeJumps(g, e.children[0], Some(id));
    } else {
      InsideJumps(g, id, tag);
      assert JumpsToCompounds(g, Head(g, id, tag));
      hide JumpsToCompounds, Inside, Head;
      JumpsJoin(g, Head(g, id, tag), Inside(g, id, tag));
    }
  }

  lemma {:induction false} InsideJumps(g: Grammar, id: nat, tag: Option<nat>)
    requires WellFormed(g) && Reached(g, id, tag)
    requires !g.elements[id].compound.TagOverride?
    ensures JumpsToCompounds(g, Inside(g, id, tag))
    decreases Rank(g, id, tag) + 1, 0
  {
    Sound(g, id, tag);
    hide Code, CodeAll, WellFormed;
    var e := g.elements[id];
    match e.compound
    case TypeRef => CodeJumps(g, e.target, if Bare(e) then tag else None);
    case Choice => AllJump(g, e.children, Rank(g, id, tag), true);
    case Sequence =>
      if !OutOfLine(g, id, tag) { AllJump(g, e.children, Rank(g, id, tag), false); }
    case SequenceOf =>
      if !OutOfLine(g, id, tag) { AllJump(g, e.children[..1], Rank(g, id, tag), false); }
    case SetOf =>
      if !OutOfLine(g, id, tag) { AllJump(g, e.children[..1], Rank(g, id, tag), false); }
    case _ =>
  }

  lemma {:induction false} AllJump(g: Grammar, ids: seq<nat>, bound: nat, choice: bool)
    requires WellFormed(g) && Below(g, ids, bound, choice)
    ensures JumpsToCompounds(g, CodeAll(g, ids, bound, choice))
    decreases bound, |ids| + 2
  {
    hide JumpsToCompounds, Code;
    if ids == [] {
      NoJumps(g);
    } else {
      var last := ids[|ids| - 1];
      var tag := if choice then Some(last) else None;
      AllJump(g, ids[..|ids| - 1], bound, choice);
      CodeJumps(g, last, tag);
      JumpsJoin(g, CodeAll(g, ids[..|ids| - 1], bound, choice), Code(g, last, tag));
    }
  }

  lemma NoJumps(g: Grammar)
    ensures JumpsToCompounds(g, [])
  {
  }

  /** What the body of a compound element holds: its elements, what closes it, and the return. */
  ghost function PlanBody(g: Grammar, id: nat): seq<Instr>
    requires WellFormed(g) && Ready(g, id)
  {
    var inner := PlanAll(g, g.elements[id].children, g.top, false);
    inner + Ends(g.elements[id], inner) + Ending1(Return, None)
  }

  ghost predicate BodyReadable(g: Grammar, id: nat)
    requires WellFormed(g) && Ready(g, id)
  {
    AllReadable(g, g.elements[id].children, g.top, false)
  }

  lemma BodyReads(g: Grammar, id: nat)
    requires WellFormed(g) && Ready(g, id) && HoldsOthers(g.elements[id])
    ensures Reads(Body(g, id), BodyReadable(g, id), PlanBody(g, id))
  {
    hide Decode, Reads, SoundElement, CodeAll, PlanAll, AllReadable;
    var e := g.elements[id];
    AllRead(g, e.children, g.top, false);
    var inner, ok, p := CodeAll(g, e.children, g.top, false), BodyReadable(g, id), PlanAll(g, e.children, g.top, false);
    EndsRead(g, id, inner, ok, p);
    var back := Instr(Return, None, None, None);
    OneReads(back);
    assert Cells(back) == [Fixed(Opcode(Return))];
    BothRead(inner + (Ending(g, id, inner) + Final(e)), ok, p + Ends(e, p), Cells(back), true, [back]);
    assert Body(g, id) == inner + (Ending(g, id, inner) + Final(e)) + Cells(back);
  }

  // ------------------------------------------------------------------------
  // The whole listing
  // ------------------------------------------------------------------------

  /** The bodies in the order in which they stand. */
  ghost function PlanBodies(g: Grammar, order: seq<nat>): seq<Instr>
    requires WellFormed(g) && AllReady(g, order)
  {
    if order == [] then []
    else PlanBodies(g, order[..|order| - 1]) + PlanBody(g, order[|order| - 1])
  }

  ghost predicate BodiesReadable(g: Grammar, order: seq<nat>)
    requires WellFormed(g) && AllReady(g, order)
  {
    forall k :: 0 <= k < |order| ==> BodyReadable(g, order[k])
  }

  ghost predicate AllCompound(g: Grammar, order: seq<nat>) {
    forall k :: 0 <= k < |order| ==> order[k] < |g.elements| && HoldsOthers(g.elements[order[k]])
  }

  lemma {:induction false} BodiesRead(g: Grammar, order: seq<nat>)
    requires WellFormed(g) && AllReady(g, order) && InRange(order, |g.elements|) && AllCompound(g, order)
    ensures Reads(Bodies(g, order), BodiesReadable(g, order), PlanBodies(g, order))
  {
    hide Decode, Reads, Body, PlanBody, BodyReadable, WellFormed, Ready;
    if order == [] {
      NoneReads();
    } else {
      var init, last := order[..|order| - 1], order[|order| - 1];
      BodiesRead(g, init);
      BodyReads(g, last);
      BothRead(Bodies(g, init), BodiesReadable(g, init), PlanBodies(g, init),
               Body(g, last), BodyReadable(g, last), PlanBody(g, last));
      LastReadable(g, order);
    }
  }

  lemma LastReadable(g: Grammar, order: seq<nat>)
    requires WellFormed(g) && AllReady(g, order) && order != []
    ensures var init := order[..|order| - 1];
      AllReady(g, init) && (BodiesReadable(g, order) <==> BodiesReadable(g, init) && BodyReadable(g, order[|order| - 1]))
  {
    hide BodyReadable, WellFormed, Ready;
    var init := order[..|order| - 1];
    assert forall k :: 0 <= k < |init| ==> init[k] == order[k];
    if BodiesReadable(g, init) && BodyReadable(g, order[|order| - 1]) {
      forall k | 0 <= k < |order|
        ensures BodyReadable(g, order[k])
      {
        if k < |init| { assert BodyReadable(g, init[k]); }
      }
    }
  }

  lemma {:induction false} StageCompound(g: Grammar, k: nat)
    requires WellFormed(g)
    ensures AllCompound(g, Stage(g, k))
  {
    hide Body, Note, Refs, WellFormed, HoldsOthers;
    if k == 0 {
      StartJumps(g);
      NoteCompound(g, [], Start(g));
    } else {
      StageCompound(g, k - 1);
      var s := Stage(g, k - 1);
      if k - 1 < |s| && s[k - 1] < |g.elements| {
        BodyJumps(g, s[k - 1]);
        NoteCompound(g, s, Body(g, s[k - 1]));
      }
    }
  }

  lemma StartJumps(g: Grammar)
    requires WellFormed(g)
    ensures JumpsToCompounds(g, Start(g))
  {
    CodeJumps(g, g.root, None);
  }

  lemma BodyJumps(g: Grammar, id: nat)
    requires WellFormed(g) && id < |g.elements|
    ensures JumpsToCompounds(g, Body(g, id))
  {
    hide CodeAll, SoundElement;
    if Ready(g, id) {
      AllJump(g, g.elements[id].children, g.top, false);
    }
  }

  lemma NoteCompound(g: Grammar, order: seq<nat>, items: seq<Item>)
    requires AllCompound(g, order) && JumpsToCompounds(g, items)
    ensures AllCompound(g, Note(order, Refs(items)))
  {
    NoteFrom(order, Refs(items));
    var r := Note(order, Refs(items));
    forall k | 0 <= k < |r|
      ensures r[k] < |g.elements| && HoldsOthers(g.elements[r[k]])
    {
      assert r[k] in r;
      if r[k] !in order { RefsAre(items, r[k]); }
    }
  }

  lemma {:induction false} NoteFrom(order: seq<nat>, refs: seq<nat>)
    ensures forall x :: x in Note(order, refs) ==> x in order || x in refs
  {
    if refs != [] {
      NoteFrom(order, refs[..|refs| - 1]);
    }
  }

  /** The plan of a grammar: the root element, the end, and then each body. */
  ghost function PlanListing(g: Grammar): seq<Instr>
    requires WellFormed(g) && AllReady(g, Order(g))
  {
    Plan(g, g.root, None) + Ending1(Op.Complete, None) + PlanBodies(g, Order(g))
  }

  ghost predicate ListingReadable(g: Grammar)
    requires WellFormed(g) && AllReady(g, Order(g))
  {
    Readable(g, g.root, None) && BodiesReadable(g, Order(g))
  }

  lemma ListingReads(g: Grammar)
    requires WellFormed(g)
    ensures AllReady(g, Order(g))
    ensures Reads(Listing(g), ListingReadable(g), PlanListing(g))
  {
    hide Decode, Reads, Bodies, Order, WellFormed, Code, Plan, Readable, AllReady, AllCompound;
    OrderReady(g);
    OrderInRange(g);
    StageCompound(g, |g.elements|);
    LastStage(g);
    RootReached(g);
    CodeReads(g, g.root, None);
    var end := Instr(Op.Complete, None, None, None);
    OneReads(end);
    assert Cells(end) == [Fixed(Opcode(Op.Complete))];
    BothRead(Code(g, g.root, None), Readable(g, g.root, None), Plan(g, g.root, None), Cells(end), true, [end]);
    BodiesRead(g, Order(g));
    BothRead(Start(g), Readable(g, g.root, None), Plan(g, g.root, None) + [end],
             Bodies(g, Order(g)), BodiesReadable(g, Order(g)), PlanBodies(g, Order(g)));
  }

  lemma OrderInRange(g: Grammar)
    requires WellFormed(g)
    ensures InRange(Order(g), |g.elements|)
  {
  }

  lemma RootReached(g: Grammar)
    requires WellFormed(g)
    ensures Reached(g, g.root, None)
  {
  }

  // ------------------------------------------------------------------------
  // The finished table
  // ------------------------------------------------------------------------

  function AsItems(table: seq<Entry>): seq<Item> {
    seq(|table|, i requires 0 <= i < |table| => Fixed(table[i]))
  }

  /** The instruction at position pos, its jump replaced by the address. */
  function Addressed(i: Instr, pos: int, index: seq<nat>): Instr {
    if i.dest.None? then i
    else match i.dest.value
      case Out(id) => if id < |index| then i.(dest := Some(At(index[id]))) else i
      case Over(back) => i.(dest := Some(At(pos + (if NeedsLabel(i.op) then 2 else 1) - back)))
      case At(_) => i
  }

  function AllAddressed(p: seq<Instr>, pos: int, index: seq<nat>): seq<Instr> {
    if p == [] then [] else [Addressed(p[0], pos, index)] + AllAddressed(p[1..], pos + Width(p[0]), index)
  }

  lemma AddressedFront(items: seq<Item>, pos: int, index: seq<nat>)
    requires items != [] && Supported(items, |index|)
    ensures Front(AsItems(Placed(items, pos, index)))
         == (if Front(items).None? then None else Some(Addressed(Front(items).value, pos, index)))
  {
    assert forall k :: 0 <= k < |items| ==> items[k] in items;
  }

  lemma AddressedKind(i: Instr, pos: int, index: seq<nat>)
    ensures Complete(Addressed(i, pos, index)) == Complete(i) && Width(Addressed(i, pos, index)) == Width(i)
  {
  }

  lemma PlacedTail(items: seq<Item>, pos: int, index: seq<nat>, w: nat)
    requires Supported(items, |index|) && w <= |items|
    ensures Supported(items[w..], |index|)
    ensures |AsItems(Placed(items, pos, index))| == |items|
    ensures AsItems(Placed(items, pos, index))[w..] == AsItems(Placed(items[w..], pos + w, index))
  {
  }

  lemma DecodeStep(items: seq<Item>)
    requires items != []
    ensures var i := Front(items);
      Decode(items) == if i.None? || !Complete(i.value) || Width(i.value) > |items| then None
                       else Then(true, [i.value], Decode(items[Width(i.value)..]))
  {
  }

  /** A reader of the table finds what a reader of the listing finds, with the addresses filled in. */
  lemma {:induction false} TableReads(items: seq<Item>, pos: int, index: seq<nat>)
    requires Supported(items, |index|)
    ensures Decode(AsItems(Placed(items, pos, index)))
         == (if Decode(items).None? then None else Some(AllAddressed(Decode(items).value, pos, index)))
    decreases |items|
  {
    if items != [] {
      var table := AsItems(Placed(items, pos, index));
      var i := Front(items);
      PlacedTail(items, pos, index, 0);
      AddressedFront(items, pos, index);
      DecodeStep(items);
      DecodeStep(table);
      hide Decode, Front, Complete, Width, Addressed, AsItems, Placed, Supported;
      if i.Some? {
        AddressedKind(i.value, pos, index);
        if Complete(i.value) && Width(i.value) <= |items| {
          var w := Width(i.value);
          PlacedTail(items, pos, index, w);
          TableReads(items[w..], pos + w, index);
        }
      }
    }
  }

  /** Reading the table of a rendered grammar from its first entry finds the instructions that the
      grammar calls for, with the address of each body and of each loop, and nothing else; if the
      grammar holds a reference with a tag and an action of its own, it cannot be read to its end. */
  lemma RenderedReads(g: Grammar, table: seq<Entry>, index: seq<nat>)
    requires WellFormed(g) && Rendered(g, table, index)
    ensures AllReady(g, Order(g))
    ensures Decode(AsItems(table))
         == if ListingReadable(g) then Some(AllAddressed(PlanListing(g), 0, index)) else None
  {
    hide Listing, WellFormed, Order, Placed, Supported, AllReady, PlanListing, ListingReadable;
    ListingReads(g);
    TableReads(Listing(g), 0, index);
    assert Listing(g) + [] == Listing(g);
    if ListingReadable(g) { assert PlanListing(g) + [] == PlanListing(g); }
    assert Decode([]) == Some([]);
  }

  /** Such a reference: [0] over the type of element 1, with action 0. */
  const Tagged := Grammar(
    [Element(TypeRef, [], 1, false, false, false, true, Context, true, 0, Some(0)),
     Element(NotCompound, [], 0, false, false, false, false, Universal, false, 2, None)],
    0, [Some(1), Some(0)], [None, None], 2)

  lemma TaggedActionUnread(rest: seq<Item>)
    ensures WellFormed(Tagged) && Reached(Tagged, 0, None)
    ensures Decode(Code(Tagged, 0, None) + rest) == None
  {
    assert WellFormed(Tagged) && Reached(Tagged, 0, None);
    hide Decode;
    CodeReads(Tagged, 0, None);
    assert !Readable(Tagged, 0, None);
  }
}
