/** What unifdef makes of a file, said on the nested sections of the file instead of on the states of
    a machine: which groups stay, and which directives are left around them. */
module UnifdefReduces {
  import opened UnifdefLines
  import opened UnifdefMachine
  import opened UnifdefSound

  /** What is known about a condition. */
  datatype Verdict = KnownTrue | KnownFalse | Unknown

  /** The lines between two directives of one section, with the sections among them. */
  datatype Items<+C> =
    | Nothing
    | Text(text: string, next: Items<C>)
    | Conditional(cond: C, verdict: Verdict, quiet: bool, body: Items<C>, arms: Arms<C>, next: Items<C>)

  /** What follows the first group of a section. */
  datatype Arms<+C> =
    | End
    | ElseArm(body: Items<C>)
    | ElifArm(cond: C, verdict: Verdict, body: Items<C>, more: Arms<C>)

  // ---------------------------------------------------------------- the lines of a file

  /** quiet: the comments of the group are ignored, which makes two of the types of an #if. */
  function IfType(v: Verdict, quiet: bool): Directive {
    match v
    case KnownTrue => if quiet then TrueI else TrueIf
    case KnownFalse => if quiet then FalseI else FalseIf
    case Unknown => UnknownIf
  }

  function ElifType(v: Verdict): Directive {
    match v case KnownTrue => TrueElif case KnownFalse => FalseElif case Unknown => UnknownElif
  }

  function Directed<C>(line: Line<C>, d: Directive): Input<C> {
    Input(line, Direct(d, false))
  }

  function Spelled<C>(it: Items<C>): seq<Input<C>> {
    match it
    case Nothing => []
    case Text(t, next) => [Input(Plain(t), PlainLine)] + Spelled(next)
    case Conditional(c, v, quiet, body, arms, next) =>
      [Directed(If(c), IfType(v, quiet))] + (Spelled(body) + (SpelledArms(arms) + Spelled(next)))
  }

  function SpelledArms<C>(a: Arms<C>): seq<Input<C>> {
    match a
    case End => [Directed(Line<C>.Endif, EndifLine)]
    case ElseArm(body) => [Directed(Line<C>.Else, ElseLine)] + (Spelled(body) + [Directed(Line<C>.Endif, EndifLine)])
    case ElifArm(c, v, body, more) => [Directed(Elif(c), ElifType(v))] + (Spelled(body) + SpelledArms(more))
  }

  // ---------------------------------------------------------------- the reduced file

  /** The part of a file that is kept, and what is kept around it. */
  function Reduced<C>(it: Items<C>): seq<Line<C>> {
    match it
    case Nothing => []
    case Text(t, next) => [Plain(t)] + Reduced(next)
    case Conditional(c, v, _, body, arms, next) =>
      (match v
       case KnownTrue => Reduced(body)
       case KnownFalse => FirstArm(arms)
       case Unknown => [If(c)] + (Reduced(body) + OpenArms(arms)))
      + Reduced(next)
  }

  /** All groups so far are known to be skipped, and nothing is left of them: the section begins with
      the first group that is not, which an unknown #elif opens as #if, and is no section at all if
      that group is known to be selected. */
  function FirstArm<C>(a: Arms<C>): seq<Line<C>> {
    match a
    case End => []
    case ElseArm(body) => Reduced(body)
    case ElifArm(c, v, body, more) =>
      match v
      case KnownTrue => Reduced(body)
      case KnownFalse => FirstArm(more)
      case Unknown => [If(c)] + (Reduced(body) + OpenArms(more))
  }

  /** The section has an unknown condition and is left standing: skipped groups go, and the first
      group whose own condition holds becomes the last. */
  function OpenArms<C>(a: Arms<C>): seq<Line<C>> {
    match a
    case End => [Line<C>.Endif]
    case ElseArm(body) => [Line<C>.Else] + (Reduced(body) + [Line<C>.Endif])
    case ElifArm(c, v, body, more) =>
      match v
      case KnownTrue => [Line<C>.Else] + (Reduced(body) + [Line<C>.Endif])
      case KnownFalse => OpenArms(more)
      case Unknown => [Elif(c)] + (Reduced(body) + OpenArms(more))
  }

  // ---------------------------------------------------------------- the machine writes it

  /** What a machine in state s still writes for the rest of the section. */
  function Tail<C>(s: IfState, a: Arms<C>): seq<Line<C>> {
    if s.PassMiddle? || s.FalseMiddle? then OpenArms(a)
    else if s.FalsePrefix? then FirstArm(a)
    else if s.TrueMiddle? then [Line<C>.Endif]
    else []
  }

  function Wrote<C>(m: Machine<C>, lines: seq<Line<C>>): Machine<C> {
    m.(out := m.out + lines)
  }

  /** A machine at work before shaped lines. */
  predicate Ready<C>(m: Machine<C>, rest: seq<Input<C>>) {
    Stacked(m.states) && AllShaped(rest)
  }

  /** Running on from m is running on from m', unless it ends in an error. */
  ghost predicate RunsAs<C>(m: Machine<C>, inputs: seq<Input<C>>, m': Machine<C>, rest: seq<Input<C>>, iocccok: bool) {
    && Ready(m, inputs) && Ready(m', rest)
    && (Run(m, inputs, iocccok).Finished? ==> Run(m, inputs, iocccok) == Run(m', rest, iocccok))
  }

  lemma ShapedParts<C>(a: seq<Input<C>>, b: seq<Input<C>>)
    ensures AllShaped(a + b) <==> AllShaped(a) && AllShaped(b)
  {
    assert forall k :: 0 <= k < |a| ==> (a + b)[k] == a[k];
    assert forall k :: 0 <= k < |b| ==> (a + b)[|a| + k] == b[k];
  }

  /** One line that does not end the run. */
  lemma RunOne<C>(m: Machine<C>, i: Input<C>, rest: seq<Input<C>>, iocccok: bool)
    requires Ready(m, rest) && Shaped(i)
    ensures Ready(m, [i] + rest)
    ensures var o := Step(m, i, iocccok);
      if o.Running? then RunsAs(m, [i] + rest, o.m, rest, iocccok) else !Run(m, [i] + rest, iocccok).Finished?
  {
    assert ([i] + rest)[0] == i && ([i] + rest)[1..] == rest;
    ShapedParts([i], rest);
  }

  lemma RunsThrough<C>(
      m: Machine<C>, a: seq<Input<C>>, m': Machine<C>, b: seq<Input<C>>, m'': Machine<C>, c: seq<Input<C>>, iocccok: bool)
    requires RunsAs(m, a, m', b, iocccok) && RunsAs(m', b, m'', c, iocccok)
    ensures RunsAs(m, a, m'', c, iocccok) && Ready(m'', c)
  {
  }

  lemma {:induction false} SpelledShaped<C>(it: Items<C>)
    ensures AllShaped(Spelled(it))
  {
    match it
    case Nothing =>
    case Text(t, next) =>
      SpelledShaped(next);
    case Conditional(c, v, quiet, body, arms, next) =>
      SpelledShaped(body);
      ArmsShaped(arms);
      SpelledShaped(next);
      ShapedParts(SpelledArms(arms), Spelled(next));
      ShapedParts(Spelled(body), SpelledArms(arms) + Spelled(next));
  }

  lemma {:induction false} ArmsShaped<C>(a: Arms<C>)
    ensures AllShaped(SpelledArms(a))
  {
    match a
    case End =>
    case ElseArm(body) =>
      SpelledShaped(body);
    case ElifArm(c, v, body, more) =>
      SpelledShaped(body);
      ArmsShaped(more);
      ShapedParts(Spelled(body), SpelledArms(more));
  }

  /** The state a group begins in, by the state around it and the verdict on its #if. */
  function Begins(around: IfState, v: Verdict): IfState {
    if !Printing(around) then FalseTrailer
    else match v case KnownTrue => TruePrefix case KnownFalse => FalsePrefix case Unknown => PassMiddle
  }

  lemma IfStep<C>(m: Machine<C>, c: C, v: Verdict, quiet: bool, iocccok: bool)
    requires Stacked(m.states)
    ensures var i := Directed(If(c), IfType(v, quiet));
      && Shaped(i)
      && var o := Step(m, i, iocccok);
         var s := Begins(Current(m), v);
         o.Failed? || o == Running(Machine(m.states + [s], m.out + if s.PassMiddle? then [If(c)] else []))
  {
  }

  lemma TextStep<C>(m: Machine<C>, t: string, iocccok: bool)
    requires Stacked(m.states)
    ensures Step(m, Input(Plain(t), PlainLine), iocccok)
         == Running(Wrote(m, if Printing(Current(m)) then [Plain(t)] else []))
  {
  }

  lemma EndifStep<C>(m: Machine<C>, iocccok: bool)
    requires Stacked(m.states) && |m.states| > 1
    ensures var i := Directed(Line<C>.Endif, EndifLine);
      && Shaped(i)
      && var o := Step(m, i, iocccok);
         o.Failed? || o == Running(Machine(Below(m.states), m.out + if Kept(Current(m)) then [Line<C>.Endif] else []))
  {
  }

  function AtElse(s: IfState): IfState {
    if s.PassMiddle? || s.FalseMiddle? then PassElse else if s.FalsePrefix? then TrueElse else FalseElse
  }

  lemma ElseStep<C>(m: Machine<C>, iocccok: bool)
    requires Stacked(m.states) && |m.states| > 1
    ensures var i := Directed(Line<C>.Else, ElseLine);
      && Shaped(i)
      && var o := Step(m, i, iocccok);
         var s := Current(m);
         o.Failed? || o == Running(Machine(Below(m.states) + [AtElse(s)], m.out +
           if s.PassMiddle? || s.FalseMiddle? then [Line<C>.Else] else if s.TrueMiddle? then [Line<C>.Endif] else []))
  {
  }

  function AtElif(s: IfState, v: Verdict): IfState {
    if s.PassMiddle? || s.FalseMiddle? then
      match v case KnownTrue => TrueMiddle case KnownFalse => FalseMiddle case Unknown => PassMiddle
    else if s.FalsePrefix? then
      match v case KnownTrue => TruePrefix case KnownFalse => FalsePrefix case Unknown => PassMiddle
    else FalseTrailer
  }

  /** What becomes of the #elif line itself. */
  function ElifLeaves<C>(s: IfState, c: C, v: Verdict): seq<Line<C>> {
    if s.PassMiddle? || s.FalseMiddle? then
      match v case KnownTrue => [Line<C>.Else] case KnownFalse => [] case Unknown => [Elif(c)]
    else if s.FalsePrefix? then if v.Unknown? then [If(c)] else []
    else if s.TrueMiddle? then [Line<C>.Endif]
    else []
  }

  lemma ElifEntry(s: IfState, v: Verdict)
    ensures var fn := TransTable(s, Direct(ElifType(v), false));
      || fn.Eelif?
      || (match s
          case FalsePrefix => fn == (match v case KnownTrue => Strue case KnownFalse => Sfalse case Unknown => Mpass)
          case TruePrefix => fn.Dfalse?
          case FalseTrailer => fn.Dfalse?
          case TrueMiddle => fn.Melif?
          case PassMiddle => fn == (match v case KnownTrue => Mtrue case KnownFalse => Delif case Unknown => Pelif)
          case FalseMiddle => fn == (match v case KnownTrue => Mtrue case KnownFalse => Delif case Unknown => Pelif)
          case _ => false)
  {
  }

  lemma ElifStep<C>(m: Machine<C>, c: C, v: Verdict, iocccok: bool)
    requires Stacked(m.states) && |m.states| > 1
    ensures var i := Directed(Elif(c), ElifType(v));
      && Shaped(i)
      && var o := Step(m, i, iocccok);
         o.Failed? || o == Running(Machine(Below(m.states) + [AtElif(Current(m), v)], m.out + ElifLeaves(Current(m), c, v)))
  {
    ElifEntry(Current(m), v);
    hide TransTable;
  }

  /** What a machine in the given state writes of items. */
  function Writes<C>(m: Machine<C>, it: Items<C>): seq<Line<C>>
    requires m.states != []
  {
    if Printing(Current(m)) then Reduced(it) else []
  }

  lemma {:induction false} RunItems<C>(m: Machine<C>, it: Items<C>, rest: seq<Input<C>>, iocccok: bool)
    requires Ready(m, rest)
    ensures RunsItems(m, it, rest, iocccok)
    decreases it, 1
  {
    SpelledShaped(it);
    ShapedParts(Spelled(it), rest);
    match it
    case Nothing =>
      assert Spelled(it) + rest == rest;
      assert Wrote(m, Writes(m, it)) == m;
    case Text(t, next) =>
      RunItems(Wrote(m, if Printing(Current(m)) then [Plain(t)] else []), next, rest, iocccok);
      RunText(m, t, next, rest, iocccok);
    case Conditional(c, v, quiet, body, arms, next) =>
      RunConditional(m, it, rest, iocccok);
  }

  ghost predicate RunsItems<C>(m: Machine<C>, it: Items<C>, rest: seq<Input<C>>, iocccok: bool)
    requires Stacked(m.states)
  {
    RunsAs(m, Spelled(it) + rest, Wrote(m, Writes(m, it)), rest, iocccok)
  }

  ghost predicate RunsArms<C>(m: Machine<C>, a: Arms<C>, rest: seq<Input<C>>, iocccok: bool)
    requires m.states != []
  {
    RunsAs(m, SpelledArms(a) + rest, Closed(m, a), rest, iocccok)
  }

  lemma RunText<C>(m: Machine<C>, t: string, next: Items<C>, rest: seq<Input<C>>, iocccok: bool)
    requires Ready(m, rest)
    requires RunsItems(Wrote(m, if Printing(Current(m)) then [Plain(t)] else []), next, rest, iocccok)
    ensures RunsItems(m, Text(t, next), rest, iocccok)
  {
    var i := Input(Line<C>.Plain(t), PlainLine);
    var m1 := Wrote(m, if Printing(Current(m)) then [Plain(t)] else []);
    SpelledShaped(next);
    ShapedParts(Spelled(next), rest);
    TextStep(m, t, iocccok);
    TextJoined(m, t, next, rest);
    hide UnifdefMachine.Step, Run, Spelled, Writes, AllShaped, Stacked;
    RunOne(m, i, Spelled(next) + rest, iocccok);
    RunsThrough(m, [i] + (Spelled(next) + rest), m1, Spelled(next) + rest, Wrote(m1, Writes(m1, next)), rest, iocccok);
  }

  lemma TextJoined<C>(m: Machine<C>, t: string, next: Items<C>, rest: seq<Input<C>>)
    requires m.states != []
    ensures var m1 := Wrote(m, if Printing(Current(m)) then [Plain(t)] else []);
      m1.states == m.states && Wrote(m1, Writes(m1, next)) == Wrote(m, Writes(m, Text(t, next)))
    ensures [Input(Line<C>.Plain(t), PlainLine)] + (Spelled(next) + rest) == Spelled(Text(t, next)) + rest
  {
  }

  /** The machine when the rest of the section has been read. */
  function Closed<C>(m: Machine<C>, a: Arms<C>): Machine<C>
    requires m.states != []
  {
    Machine(Below(m.states), m.out + Tail(Current(m), a))
  }

  lemma RunIf<C>(m: Machine<C>, c: C, v: Verdict, quiet: bool, more: seq<Input<C>>, iocccok: bool) returns (m1: Machine<C>)
    requires Ready(m, more)
    ensures m1.states == m.states + [Begins(Current(m), v)]
    ensures m1.out == m.out + if Begins(Current(m), v).PassMiddle? then [If(c)] else []
    ensures Ready(m, [Directed(If(c), IfType(v, quiet))] + more) && Ready(m1, more) && |m1.states| > 1
    ensures RunsAs(m, [Directed(If(c), IfType(v, quiet))] + more, m1, more, iocccok)
  {
    var i := Directed(If(c), IfType(v, quiet));
    m1 := Machine(m.states + [Begins(Current(m), v)], m.out + if Begins(Current(m), v).PassMiddle? then [If(c)] else []);
    IfStep(m, c, v, quiet, iocccok);
    hide UnifdefMachine.Step, Run;
    RunOne(m, i, more, iocccok);
  }

  lemma {:induction false} RunConditional<C>(m: Machine<C>, it: Items<C>, rest: seq<Input<C>>, iocccok: bool)
    requires Ready(m, rest) && it.Conditional?
    ensures RunsItems(m, it, rest, iocccok)
    decreases it, 0
  {
    var tail := Spelled(it.next) + rest;
    var after := SpelledArms(it.arms) + tail;
    SpelledShaped(it.next);
    ShapedParts(Spelled(it.next), rest);
    ArmsShaped(it.arms);
    ShapedParts(SpelledArms(it.arms), tail);
    SpelledShaped(it.body);
    ShapedParts(Spelled(it.body), after);
    hide UnifdefMachine.Step, Run, RunsAs, AllShaped;
    var m0 := RunIf(m, it.cond, it.verdict, it.quiet, Spelled(it.body) + after, iocccok);
    RunItems(m0, it.body, after, iocccok);
    var m1 := Wrote(m0, Writes(m0, it.body));
    RunArms(m1, it.arms, tail, iocccok);
    var m2 := Closed(m1, it.arms);
    RunItems(m2, it.next, rest, iocccok);
    var m3 := Wrote(m2, Writes(m2, it.next));
    Conditionally(m, it, m0, m3);
    hide Wrote, Writes, Closed, Spelled, SpelledArms;
    var all := [Directed(If(it.cond), IfType(it.verdict, it.quiet))] + (Spelled(it.body) + after);
    RunsThrough(m, all, m0, Spelled(it.body) + after, m1, after, iocccok);
    RunsThrough(m, all, m1, after, m2, tail, iocccok);
    RunsThrough(m, all, m2, tail, m3, rest, iocccok);
    SpelledWhole(it, rest);
  }

  lemma SpelledWhole<C>(it: Items<C>, rest: seq<Input<C>>)
    requires it.Conditional?
    ensures [Directed(If(it.cond), IfType(it.verdict, it.quiet))]
              + (Spelled(it.body) + (SpelledArms(it.arms) + (Spelled(it.next) + rest)))
         == Spelled(it) + rest
  {
  }

  /** What the four parts of a section write is what the section is reduced to. */
  lemma Conditionally<C>(m: Machine<C>, it: Items<C>, m0: Machine<C>, m3: Machine<C>)
    requires it.Conditional? && m.states != []
    requires m0.states == m.states + [Begins(Current(m), it.verdict)]
    requires m0.out == m.out + if Begins(Current(m), it.verdict).PassMiddle? then [If(it.cond)] else []
    requires var m2 := Closed(Wrote(m0, Writes(m0, it.body)), it.arms);
      m2.states != [] && m3 == Wrote(m2, Writes(m2, it.next))
    ensures m3 == Wrote(m, Writes(m, it))
  {
    var s := Begins(Current(m), it.verdict);
    PushPop(m.states, s);
    SectionWrites(Current(m), it);
    hide Reduced, Tail, Begins, Printing, Below;
    Fold(m.out, if s.PassMiddle? then [If(it.cond)] else [], if Printing(s) then Reduced(it.body) else [], Tail(s, it.arms),
         if Printing(Current(m)) then Reduced(it.next) else [], if Printing(Current(m)) then Reduced(it) else []);
  }

  lemma Fold<T>(s: seq<T>, a: seq<T>, b: seq<T>, c: seq<T>, d: seq<T>, x: seq<T>)
    requires (a + (b + c)) + d == x
    ensures (((s + a) + b) + c) + d == s + x
  {
  }

  lemma SectionWrites<C>(around: IfState, it: Items<C>)
    requires it.Conditional?
    ensures var s := Begins(around, it.verdict);
      ((if s.PassMiddle? then [If(it.cond)] else []) + ((if Printing(s) then Reduced(it.body) else []) + Tail(s, it.arms)))
        + (if Printing(around) then Reduced(it.next) else [])
      == if Printing(around) then Reduced(it) else []
  {
    SectionIs(it);
    hide FirstArm, OpenArms, Reduced;
    if !Printing(around) {
      assert Begins(around, it.verdict) == FalseTrailer;
    } else {
      SectionPieces(it);
    }
  }

  lemma SectionIs<C>(it: Items<C>)
    requires it.Conditional?
    ensures Reduced(it) == SectionReduced(it) + Reduced(it.next)
  {
  }

  lemma SectionPieces<C>(it: Items<C>)
    requires it.Conditional?
    ensures var s := Begins(Outside, it.verdict);
      (if s.PassMiddle? then [If(it.cond)] else []) + ((if Printing(s) then Reduced(it.body) else []) + Tail(s, it.arms))
      == SectionReduced(it)
  {
    hide FirstArm, OpenArms, Reduced;
  }

  lemma RunEndif<C>(m: Machine<C>, rest: seq<Input<C>>, iocccok: bool) returns (m1: Machine<C>)
    requires Ready(m, rest) && |m.states| > 1
    ensures m1 == Machine(Below(m.states), m.out + if Kept(Current(m)) then [Line<C>.Endif] else [])
    ensures Ready(m, [Directed(Line<C>.Endif, EndifLine)] + rest) && Ready(m1, rest)
    ensures RunsAs(m, [Directed(Line<C>.Endif, EndifLine)] + rest, m1, rest, iocccok)
  {
    m1 := Machine(Below(m.states), m.out + if Kept(Current(m)) then [Line<C>.Endif] else []);
    EndifStep(m, iocccok);
    hide UnifdefMachine.Step, Run;
    RunOne(m, Directed(Line<C>.Endif, EndifLine), rest, iocccok);
  }

  function ElseLeaves<C>(s: IfState): seq<Line<C>> {
    if s.PassMiddle? || s.FalseMiddle? then [Line<C>.Else] else if s.TrueMiddle? then [Line<C>.Endif] else []
  }

  lemma RunElse<C>(m: Machine<C>, more: seq<Input<C>>, iocccok: bool) returns (m1: Machine<C>)
    requires Ready(m, more) && |m.states| > 1
    ensures m1 == Machine(Below(m.states) + [AtElse(Current(m))], m.out + ElseLeaves<C>(Current(m)))
    ensures Ready(m, [Directed(Line<C>.Else, ElseLine)] + more) && Ready(m1, more)
    ensures RunsAs(m, [Directed(Line<C>.Else, ElseLine)] + more, m1, more, iocccok)
  {
    m1 := Machine(Below(m.states) + [AtElse(Current(m))], m.out + ElseLeaves<C>(Current(m)));
    ElseStep(m, iocccok);
    hide UnifdefMachine.Step, Run;
    RunOne(m, Directed(Line<C>.Else, ElseLine), more, iocccok);
  }

  lemma RunElif<C>(m: Machine<C>, c: C, v: Verdict, more: seq<Input<C>>, iocccok: bool) returns (m1: Machine<C>)
    requires Ready(m, more) && |m.states| > 1
    ensures m1 == Machine(Below(m.states) + [AtElif(Current(m), v)], m.out + ElifLeaves(Current(m), c, v))
    ensures Ready(m, [Directed(Elif(c), ElifType(v))] + more) && Ready(m1, more)
    ensures RunsAs(m, [Directed(Elif(c), ElifType(v))] + more, m1, more, iocccok)
  {
    m1 := Machine(Below(m.states) + [AtElif(Current(m), v)], m.out + ElifLeaves(Current(m), c, v));
    ElifStep(m, c, v, iocccok);
    hide UnifdefMachine.Step, Run;
    RunOne(m, Directed(Elif(c), ElifType(v)), more, iocccok);
  }

  lemma {:induction false} RunArms<C>(m: Machine<C>, a: Arms<C>, rest: seq<Input<C>>, iocccok: bool)
    requires Ready(m, rest) && |m.states| > 1 && !AfterElse(Current(m))
    ensures RunsArms(m, a, rest, iocccok) && Ready(Closed(m, a), rest)
    decreases a, 1
  {
    match a
    case End =>
      var m1 := RunEndif(m, rest, iocccok);
      assert m1 == Closed(m, a);
    case ElseArm(body) =>
      RunElseArm(m, a, rest, iocccok);
    case ElifArm(_, _, _, _) =>
      RunElifArm(m, a, rest, iocccok);
  }

  lemma {:induction false} RunElseArm<C>(m: Machine<C>, a: Arms<C>, rest: seq<Input<C>>, iocccok: bool)
    requires Ready(m, rest) && |m.states| > 1 && !AfterElse(Current(m)) && a.ElseArm?
    ensures RunsArms(m, a, rest, iocccok) && Ready(Closed(m, a), rest)
    decreases a, 0
  {
    var after := [Directed(Line<C>.Endif, EndifLine)] + rest;
    ArmsShaped(Arms<C>.End);
    ShapedParts([Directed(Line<C>.Endif, EndifLine)], rest);
    SpelledShaped(a.body);
    ShapedParts(Spelled(a.body), after);
    hide UnifdefMachine.Step, Run, RunsAs, AllShaped;
    var m0 := RunElse(m, Spelled(a.body) + after, iocccok);
    RunItems(m0, a.body, after, iocccok);
    var m1 := Wrote(m0, Writes(m0, a.body));
    var m2 := RunEndif(m1, rest, iocccok);
    Otherwise(m, a.body, m0, m2);
    hide Wrote, Writes, Closed, Spelled;
    var all := [Directed(Line<C>.Else, ElseLine)] + (Spelled(a.body) + after);
    RunsThrough(m, all, m0, Spelled(a.body) + after, m1, after, iocccok);
    RunsThrough(m, all, m1, after, m2, rest, iocccok);
    assert all == SpelledArms(a) + rest;
  }

  lemma Otherwise<C>(m: Machine<C>, body: Items<C>, m0: Machine<C>, m2: Machine<C>)
    requires |m.states| > 1 && !AfterElse(Current(m)) && !Current(m).Outside?
    requires m0 == Machine(Below(m.states) + [AtElse(Current(m))], m.out + ElseLeaves<C>(Current(m)))
    requires var m1 := Wrote(m0, Writes(m0, body));
      m2 == Machine(Below(m1.states), m1.out + if Kept(Current(m1)) then [Line<C>.Endif] else [])
    ensures m2 == Closed(m, ElseArm(body))
  {
    assert Below(m0.states) == Below(m.states);
    var s := Current(m);
    var s' := AtElse(s);
    TailAtElse(s, body);
    hide Tail, ElseLeaves, Kept, Reduced, Printing, AtElse;
    Assoc(m.out, ElseLeaves<C>(s), if Printing(s') then Reduced(body) else [], if Kept(s') then [Line<C>.Endif] else []);
  }

  lemma TailAtElse<C>(s: IfState, body: Items<C>)
    requires !s.Outside? && !AfterElse(s)
    ensures var s' := AtElse(s);
      Tail(s, ElseArm(body)) == ElseLeaves<C>(s)
        + ((if Printing(s') then Reduced(body) else []) + (if Kept(s') then [Line<C>.Endif] else []))
  {
    hide Reduced;
  }

  lemma {:induction false} RunElifArm<C>(m: Machine<C>, a: Arms<C>, rest: seq<Input<C>>, iocccok: bool)
    requires Ready(m, rest) && |m.states| > 1 && !AfterElse(Current(m)) && a.ElifArm?
    ensures RunsArms(m, a, rest, iocccok) && Ready(Closed(m, a), rest)
    decreases a, 0
  {
    var after := SpelledArms(a.more) + rest;
    ArmsShaped(a.more);
    ShapedParts(SpelledArms(a.more), rest);
    SpelledShaped(a.body);
    ShapedParts(Spelled(a.body), after);
    hide UnifdefMachine.Step, Run, RunsAs, AllShaped, Tail, ElifLeaves, Reduced, AtElif;
    ElifStays(Current(m), a.verdict);
    var m0 := RunElif(m, a.cond, a.verdict, Spelled(a.body) + after, iocccok);
    RunItems(m0, a.body, after, iocccok);
    var m1 := Wrote(m0, Writes(m0, a.body));
    RunArms(m1, a.more, rest, iocccok);
    var m2 := Closed(m1, a.more);
    Alternatively(m, a, m0);
    hide Wrote, Writes, Closed, Spelled, SpelledArms;
    var all := [Directed(Elif(a.cond), ElifType(a.verdict))] + (Spelled(a.body) + after);
    RunsThrough(m, all, m0, Spelled(a.body) + after, m1, after, iocccok);
    RunsThrough(m, all, m1, after, m2, rest, iocccok);
    ArmWhole(a, rest);
  }

  lemma ArmWhole<C>(a: Arms<C>, rest: seq<Input<C>>)
    requires a.ElifArm?
    ensures [Directed(Elif(a.cond), ElifType(a.verdict))] + (Spelled(a.body) + (SpelledArms(a.more) + rest))
         == SpelledArms(a) + rest
  {
  }

  lemma ElifStays(s: IfState, v: Verdict)
    ensures !AfterElse(AtElif(s, v))
  {
  }

  lemma Alternatively<C>(m: Machine<C>, a: Arms<C>, m0: Machine<C>)
    requires |m.states| > 1 && !AfterElse(Current(m)) && a.ElifArm? && !Current(m).Outside?
    requires m0 == Machine(Below(m.states) + [AtElif(Current(m), a.verdict)], m.out + ElifLeaves(Current(m), a.cond, a.verdict))
    ensures Closed(Wrote(m0, Writes(m0, a.body)), a.more) == Closed(m, a)
  {
    assert Below(m0.states) == Below(m.states);
    var s := Current(m);
    var s' := AtElif(s, a.verdict);
    TailAtElif(s, a);
    hide Tail, ElifLeaves, Reduced, Printing, AtElif;
    Assoc(m.out, ElifLeaves(s, a.cond, a.verdict), if Printing(s') then Reduced(a.body) else [], Tail(s', a.more));
  }

  lemma Assoc<T>(a: seq<T>, b: seq<T>, c: seq<T>, d: seq<T>)
    ensures ((a + b) + c) + d == a + (b + (c + d))
  {
  }

  lemma TailAtElif<C>(s: IfState, a: Arms<C>)
    requires !s.Outside? && !AfterElse(s) && a.ElifArm?
    ensures var s' := AtElif(s, a.verdict);
      Tail(s, a) == ElifLeaves(s, a.cond, a.verdict) + ((if Printing(s') then Reduced(a.body) else []) + Tail(s', a.more))
  {
    hide Reduced;
  }

  /** A file without dodgy directives that unifdef gets through comes out as the reduced file. */
  lemma OutputIsReduced<C>(it: Items<C>, iocccok: bool)
    ensures AllShaped(Spelled(it))
    ensures var o := Run(Start<C>(), Spelled(it), iocccok); o.Finished? ==> o.out == Reduced(it)
  {
    SpelledShaped(it);
    RunItems(Start<C>(), it, [], iocccok);
    assert Spelled(it) + [] == Spelled(it);
    hide Spelled, Reduced, AllShaped;
    assert [] + Reduced(it) == Reduced(it);
    RunNothing(Wrote(Start<C>(), Reduced(it)), iocccok);
  }

  lemma RunNothing<C>(m: Machine<C>, iocccok: bool)
    requires m.states == [Outside]
    ensures Run(m, [], iocccok) == Outcome<C>.Finished(m.out)
  {
  }

  // ---------------------------------------------------------------- every accepted file has sections

  /** The rest of a file once the items at its front are read: at its end outside all sections, at a
      directive that ends the group inside one. */
  predicate AtBoundary<C>(levels: seq<bool>, rest: seq<Input<C>>) {
    if rest == [] then levels == [] else levels != [] && (rest[0].line.Elif? || rest[0].line.Else? || rest[0].line.Endif?)
  }

  ghost predicate Parsable<C(!new)>(levels: seq<bool>, inputs: seq<Input<C>>) {
    AllShaped(inputs) && Tidy(inputs) && Nested(levels, Lines(inputs))
  }

  lemma ParsableTail<C(!new)>(levels: seq<bool>, inputs: seq<Input<C>>)
    requires Parsable(levels, inputs) && inputs != []
    ensures AllShaped(inputs[1..]) && Tidy(inputs[1..]) && Shaped(inputs[0])
    ensures inputs[0].lt.Direct? ==> !inputs[0].lt.dodgy
    ensures Lines(inputs)[0] == inputs[0].line && Lines(inputs)[1..] == Lines(inputs[1..])
  {
  }

  function VerdictOf(d: Directive): Verdict {
    if d.TrueI? || d.TrueIf? || d.TrueElif? then KnownTrue
    else if d.FalseI? || d.FalseIf? || d.FalseElif? then KnownFalse
    else Unknown
  }

  lemma {:induction false} ItemsOf<C(!new)>(levels: seq<bool>, inputs: seq<Input<C>>)
    returns (it: Items<C>, rest: seq<Input<C>>)
    requires Parsable(levels, inputs)
    ensures inputs == Spelled(it) + rest && AtBoundary(levels, rest) && Parsable(levels, rest)
    decreases |inputs|, 1
  {
    if AtBoundary(levels, inputs) {
      it, rest := Nothing, inputs;
    } else {
      ParsableTail(levels, inputs);
      if inputs[0].line.Plain? {
        var next;
        next, rest := ItemsOf(levels, inputs[1..]);
        it := Text(inputs[0].line.text, next);
        assert inputs == [inputs[0]] + inputs[1..];
      } else {
        it, rest := SectionOf(levels, inputs);
      }
    }
  }

  lemma {:induction false} SectionOf<C(!new)>(levels: seq<bool>, inputs: seq<Input<C>>)
    returns (it: Items<C>, rest: seq<Input<C>>)
    requires inputs != [] && inputs[0].line.If? && Parsable(levels + [false], inputs[1..])
    requires Shaped(inputs[0]) && inputs[0].lt.Direct? && !inputs[0].lt.dodgy
    ensures inputs == Spelled(it) + rest && AtBoundary(levels, rest) && Parsable(levels, rest)
    decreases |inputs|, 0
  {
    var i := inputs[0];
    var v, quiet := VerdictOf(i.lt.d), i.lt.d.TrueI? || i.lt.d.FalseI?;
    assert i == Directed(If(i.line.cond), IfType(v, quiet));
    hide Parsable, Spelled, SpelledArms, AtBoundary, Shaped, VerdictOf, IfType;
    var body, after := ItemsOf(levels + [false], inputs[1..]);
    var arms, tail := ArmsOf(levels, false, after);
    var next;
    next, rest := ItemsOf(levels, tail);
    it := Conditional(i.line.cond, v, quiet, body, arms, next);
    SpelledWhole(it, rest);
    assert inputs == [i] + inputs[1..];
  }

  lemma Reassociate<T>(a: seq<T>, b: seq<T>, c: seq<T>)
    ensures a + (b + c) == (a + b) + c
  {
  }

  lemma {:induction false} ArmsOf<C(!new)>(levels: seq<bool>, inElse: bool, inputs: seq<Input<C>>)
    returns (a: Arms<C>, rest: seq<Input<C>>)
    requires Parsable(levels + [inElse], inputs) && AtBoundary(levels + [inElse], inputs)
    ensures inElse ==> a.End?
    ensures inputs == SpelledArms(a) + rest && Parsable(levels, rest)
    decreases |inputs|, 1
  {
    NextOfArm(levels, inElse, inputs);
    hide Parsable, SpelledArms, AtBoundary, Shaped;
    if inputs[0].line.Endif? {
      a, rest := End, inputs[1..];
      ArmsJoined(inputs, a, rest);
    } else if inputs[0].line.Else? {
      a, rest := LastArm(levels, inputs);
    } else {
      a, rest := NextArm(levels, inputs);
    }
  }

  lemma {:induction false} LastArm<C(!new)>(levels: seq<bool>, inputs: seq<Input<C>>)
    returns (a: Arms<C>, rest: seq<Input<C>>)
    requires inputs != [] && inputs[0].line.Else? && Parsable(levels + [true], inputs[1..])
    requires Shaped(inputs[0]) && inputs[0].lt.Direct? && !inputs[0].lt.dodgy
    ensures inputs == SpelledArms(a) + rest && Parsable(levels, rest)
    decreases |inputs|, 0
  {
    hide Parsable, Spelled, AtBoundary, Shaped;
    var body, after := ItemsOf(levels + [true], inputs[1..]);
    var last;
    last, rest := ArmsOf(levels, true, after);
    a := ElseArm(body);
    ArmsJoined(inputs, a, rest);
  }

  lemma {:induction false} NextArm<C(!new)>(levels: seq<bool>, inputs: seq<Input<C>>)
    returns (a: Arms<C>, rest: seq<Input<C>>)
    requires inputs != [] && inputs[0].line.Elif? && Parsable(levels + [false], inputs[1..])
    requires Shaped(inputs[0]) && inputs[0].lt.Direct? && !inputs[0].lt.dodgy
    ensures inputs == SpelledArms(a) + rest && Parsable(levels, rest)
    decreases |inputs|, 0
  {
    hide Parsable, Spelled, AtBoundary, Shaped;
    var body, after := ItemsOf(levels + [false], inputs[1..]);
    var more;
    more, rest := ArmsOf(levels, false, after);
    a := ElifArm(inputs[0].line.cond, VerdictOf(inputs[0].lt.d), body, more);
    ArmsJoined(inputs, a, rest);
  }

  /** What may follow the directive at the end of a group. */
  lemma NextOfArm<C(!new)>(levels: seq<bool>, inElse: bool, inputs: seq<Input<C>>)
    requires Parsable(levels + [inElse], inputs) && AtBoundary(levels + [inElse], inputs)
    ensures inputs != [] && Shaped(inputs[0]) && inputs[0].lt.Direct? && !inputs[0].lt.dodgy
    ensures inputs[0].line.Endif? || !inElse
    ensures match inputs[0].line
      case Endif => Parsable(levels, inputs[1..])
      case Else => Parsable(levels + [true], inputs[1..])
      case Elif(_) => Parsable(levels + [inElse], inputs[1..])
      case _ => false
  {
    PushPop(levels, inElse);
    ParsableTail(levels + [inElse], inputs);
  }

  /** The lines of the arms read so far, put together. */
  lemma ArmsJoined<C>(inputs: seq<Input<C>>, a: Arms<C>, rest: seq<Input<C>>)
    requires inputs != [] && Shaped(inputs[0]) && inputs[0].lt.Direct? && !inputs[0].lt.dodgy
    requires match a
      case End => inputs[0].line.Endif? && rest == inputs[1..]
      case ElseArm(body) => inputs[0].line.Else? && inputs[1..] == Spelled(body) + (SpelledArms(Arms<C>.End) + rest)
      case ElifArm(c, v, body, more) =>
        inputs[0].line == Elif(c) && v == VerdictOf(inputs[0].lt.d) && inputs[1..] == Spelled(body) + (SpelledArms(more) + rest)
    ensures inputs == SpelledArms(a) + rest
  {
    assert inputs == [inputs[0]] + inputs[1..];
    match a
    case End =>
    case ElseArm(body) => Reassociate(Spelled(body), SpelledArms(Arms<C>.End), rest);
    case ElifArm(_, _, body, more) => Reassociate(Spelled(body), SpelledArms(more), rest);
  }

  /** Every file without dodgy directives that unifdef gets through is made of sections, and comes out
      reduced. */
  lemma ReducesEveryFile<C(!new)>(inputs: seq<Input<C>>, iocccok: bool)
    requires AllShaped(inputs) && Tidy(inputs) && Run(Start<C>(), inputs, iocccok).Finished?
    ensures exists it: Items<C> ::
      Spelled(it) == inputs && Run(Start<C>(), inputs, iocccok) == Outcome<C>.Finished(Reduced(it))
  {
    AcceptedIffNested(inputs, iocccok);
    var it, rest := ItemsOf([], inputs);
    assert inputs == Spelled(it);
    OutputIsReduced(it, iocccok);
  }

  // ---------------------------------------------------------------- what is left

  /** The conditions on the lines of a file, in order. */
  function Conditions<C>(lines: seq<Line<C>>): seq<C> {
    if lines == [] then []
    else (if lines[0].If? || lines[0].Elif? then [lines[0].cond] else []) + Conditions(lines[1..])
  }

  /** The plain lines of a file, in order. */
  function Texts<C>(lines: seq<Line<C>>): seq<string> {
    if lines == [] then [] else (if lines[0].Plain? then [lines[0].text] else []) + Texts(lines[1..])
  }

  lemma OfOne<C>(x: Line<C>, s: seq<Line<C>>)
    ensures Conditions([x] + s) == (if x.If? || x.Elif? then [x.cond] else []) + Conditions(s)
    ensures Texts([x] + s) == (if x.Plain? then [x.text] else []) + Texts(s)
    ensures Conditions([x]) == if x.If? || x.Elif? then [x.cond] else []
    ensures Texts([x]) == if x.Plain? then [x.text] else []
  {
    assert ([x] + s)[0] == x && ([x] + s)[1..] == s;
    assert |[x][1..]| == 0;
  }

  lemma OfNone<C>()
    ensures Conditions<C>([]) == [] && Texts<C>([]) == []
  {
  }

  lemma {:induction false} OfBoth<C>(a: seq<Line<C>>, b: seq<Line<C>>)
    ensures Conditions(a + b) == Conditions(a) + Conditions(b)
    ensures Texts(a + b) == Texts(a) + Texts(b)
  {
    hide Conditions, Texts;
    if a == [] {
      assert a + b == b;
      OfNone<C>();
    } else {
      OfBoth(a[1..], b);
      OfOne(a[0], a[1..]);
      OfOne(a[0], a[1..] + b);
      assert [a[0]] + a[1..] == a && [a[0]] + (a[1..] + b) == a + b;
    }
  }

  /** The conditions a reader of the file comes to without knowing how they turn out, in order: not
      those in a group that is known to be skipped, and not those behind a group whose own condition
      is known to hold. */
  function Undecided<C>(it: Items<C>): seq<C> {
    match it
    case Nothing => []
    case Text(_, next) => Undecided(next)
    case Conditional(c, v, _, body, arms, next) =>
      ((if v.Unknown? then [c] else []) + ((if v.KnownFalse? then [] else Undecided(body)) + UndecidedArms(arms, v.KnownTrue?)))
      + Undecided(next)
  }

  /** decided: an earlier group of the section is known to be selected if none before it is. */
  function UndecidedArms<C>(a: Arms<C>, decided: bool): seq<C> {
    match a
    case End => []
    case ElseArm(body) => if decided then [] else Undecided(body)
    case ElifArm(c, v, body, more) =>
      if decided then UndecidedArms(more, true)
      else
        (if v.Unknown? then [c] else []) + ((if v.KnownFalse? then [] else Undecided(body)) + UndecidedArms(more, v.KnownTrue?))
  }

  /** The plain lines in no group that is known to be skipped, in order. */
  function NotSkipped<C>(it: Items<C>): seq<string> {
    match it
    case Nothing => []
    case Text(t, next) => [t] + NotSkipped(next)
    case Conditional(_, v, _, body, arms, next) =>
      ((if v.KnownFalse? then [] else NotSkipped(body)) + NotSkippedArms(arms, v.KnownTrue?)) + NotSkipped(next)
  }

  function NotSkippedArms<C>(a: Arms<C>, decided: bool): seq<string> {
    match a
    case End => []
    case ElseArm(body) => if decided then [] else NotSkipped(body)
    case ElifArm(_, v, body, more) =>
      (if decided || v.KnownFalse? then [] else NotSkipped(body)) + NotSkippedArms(more, decided || v.KnownTrue?)
  }

  /** Exactly the plain lines that are not known to be skipped are left, and exactly the conditions
      that are not known, each once and in order. */
  lemma {:induction false} LeftOver<C>(it: Items<C>)
    ensures Conditions(Reduced(it)) == Undecided(it) && Texts(Reduced(it)) == NotSkipped(it)
    decreases it, 1
  {
    match it
    case Nothing =>
    case Text(t, next) =>
      LeftOver(next);
      OfOne(Line<C>.Plain(t), Reduced(next));
    case Conditional(_, _, _, _, _, next) =>
      LeftOver(next);
      LeftOfSection(it);
      OfBoth(SectionReduced(it), Reduced(next));
  }

  /** What is left of the section at the front. */
  function SectionReduced<C>(it: Items<C>): seq<Line<C>>
    requires it.Conditional?
  {
    match it.verdict
    case KnownTrue => Reduced(it.body)
    case KnownFalse => FirstArm(it.arms)
    case Unknown => [If(it.cond)] + (Reduced(it.body) + OpenArms(it.arms))
  }

  lemma {:induction false} LeftOfSection<C>(it: Items<C>)
    requires it.Conditional?
    ensures Conditions(SectionReduced(it))
         == (if it.verdict.Unknown? then [it.cond] else [])
            + ((if it.verdict.KnownFalse? then [] else Undecided(it.body)) + UndecidedArms(it.arms, it.verdict.KnownTrue?))
    ensures Texts(SectionReduced(it))
         == (if it.verdict.KnownFalse? then [] else NotSkipped(it.body)) + NotSkippedArms(it.arms, it.verdict.KnownTrue?)
    decreases it, 0
  {
    LeftOver(it.body);
    LeftOverArms(it.arms);
    DecidedArms(it.arms);
    hide Reduced, OpenArms, FirstArm, Undecided, UndecidedArms, NotSkipped, NotSkippedArms, Conditions, Texts;
    OfBoth(Reduced(it.body), OpenArms(it.arms));
    OfOne(If(it.cond), Reduced(it.body) + OpenArms(it.arms));
  }

  lemma {:induction false} LeftOverArms<C>(a: Arms<C>)
    ensures Conditions(FirstArm(a)) == Conditions(OpenArms(a)) == UndecidedArms(a, false)
    ensures Texts(FirstArm(a)) == Texts(OpenArms(a)) == NotSkippedArms(a, false)
    decreases a, 1
  {
    match a
    case End =>
    case ElseArm(body) =>
      LeftOver(body);
      LeftOfLast(body);
    case ElifArm(_, _, body, more) =>
      LeftOver(body);
      LeftOverArms(more);
      LeftOfElifArm(a);
  }

  lemma LeftOfElifArm<C>(a: Arms<C>)
    requires a.ElifArm?
    requires Conditions(Reduced(a.body)) == Undecided(a.body) && Texts(Reduced(a.body)) == NotSkipped(a.body)
    requires Conditions(FirstArm(a.more)) == Conditions(OpenArms(a.more)) == UndecidedArms(a.more, false)
    requires Texts(FirstArm(a.more)) == Texts(OpenArms(a.more)) == NotSkippedArms(a.more, false)
    ensures Conditions(FirstArm(a)) == Conditions(OpenArms(a)) == UndecidedArms(a, false)
    ensures Texts(FirstArm(a)) == Texts(OpenArms(a)) == NotSkippedArms(a, false)
  {
    DecidedArms(a.more);
    LeftOfLast(a.body);
    LeftOfElif(a);
    ArmUnfolds(a);
    hide FirstArm, OpenArms, UndecidedArms, NotSkippedArms, Reduced, Undecided, NotSkipped, Conditions, Texts;
  }

  lemma ArmUnfolds<C>(a: Arms<C>)
    requires a.ElifArm?
    ensures FirstArm(a) ==
      match a.verdict
      case KnownTrue => Reduced(a.body)
      case KnownFalse => FirstArm(a.more)
      case Unknown => [If(a.cond)] + (Reduced(a.body) + OpenArms(a.more))
    ensures OpenArms(a) ==
      match a.verdict
      case KnownTrue => [Line<C>.Else] + (Reduced(a.body) + [Line<C>.Endif])
      case KnownFalse => OpenArms(a.more)
      case Unknown => [Elif(a.cond)] + (Reduced(a.body) + OpenArms(a.more))
    ensures UndecidedArms(a, false)
         == (if a.verdict.Unknown? then [a.cond] else [])
            + ((if a.verdict.KnownFalse? then [] else Undecided(a.body)) + UndecidedArms(a.more, a.verdict.KnownTrue?))
    ensures NotSkippedArms(a, false)
         == (if a.verdict.KnownFalse? then [] else NotSkipped(a.body)) + NotSkippedArms(a.more, a.verdict.KnownTrue?)
  {
  }

  lemma LeftOfLast<C>(body: Items<C>)
    ensures Conditions([Line<C>.Else] + (Reduced(body) + [Line<C>.Endif])) == Conditions(Reduced(body))
    ensures Texts([Line<C>.Else] + (Reduced(body) + [Line<C>.Endif])) == Texts(Reduced(body))
  {
    hide Reduced, Conditions, Texts;
    OfOne(Line<C>.Endif, []);
    OfBoth(Reduced(body), [Line<C>.Endif]);
    OfOne(Line<C>.Else, Reduced(body) + [Line<C>.Endif]);
  }

  lemma LeftOfElif<C>(a: Arms<C>)
    requires a.ElifArm?
    ensures forall head: Line<C> :: head == If(a.cond) || head == Elif(a.cond) ==>
      && Conditions([head] + (Reduced(a.body) + OpenArms(a.more))) == [a.cond] + (Conditions(Reduced(a.body)) + Conditions(OpenArms(a.more)))
      && Texts([head] + (Reduced(a.body) + OpenArms(a.more))) == Texts(Reduced(a.body)) + Texts(OpenArms(a.more))
  {
    hide Reduced, OpenArms, Conditions, Texts;
    OfBoth(Reduced(a.body), OpenArms(a.more));
    OfOne(If(a.cond), Reduced(a.body) + OpenArms(a.more));
    OfOne(Elif(a.cond), Reduced(a.body) + OpenArms(a.more));
  }

  lemma {:induction false} DecidedArms<C>(a: Arms<C>)
    ensures UndecidedArms(a, true) == [] && NotSkippedArms(a, true) == []
  {
    if a.ElifArm? { DecidedArms(a.more); }
  }

  /** A line of the file holds the condition, and was found to be unknown. */
  predicate UnknownLine<C(==)>(inputs: seq<Input<C>>, c: C) {
    Directed(If(c), UnknownIf) in inputs || Directed(Elif(c), UnknownElif) in inputs
  }

  lemma {:induction false} UndecidedIsUnknown<C>(it: Items<C>, c: C)
    requires c in Undecided(it)
    ensures UnknownLine(Spelled(it), c)
  {
    match it
    case Nothing =>
    case Text(_, next) => UndecidedIsUnknown(next, c);
    case Conditional(_, v, _, body, arms, next) =>
      if c in Undecided(next) {
        UndecidedIsUnknown(next, c);
      } else if c in UndecidedArms(arms, v.KnownTrue?) {
        ArmUndecidedIsUnknown(arms, v.KnownTrue?, c);
      } else if c in Undecided(body) {
        UndecidedIsUnknown(body, c);
      }
  }

  lemma {:induction false} ArmUndecidedIsUnknown<C>(a: Arms<C>, decided: bool, c: C)
    requires c in UndecidedArms(a, decided)
    ensures UnknownLine(SpelledArms(a), c)
  {
    match a
    case End =>
    case ElseArm(body) => UndecidedIsUnknown(body, c);
    case ElifArm(_, v, body, more) =>
      if c in UndecidedArms(more, decided || v.KnownTrue?) {
        ArmUndecidedIsUnknown(more, decided || v.KnownTrue?, c);
      } else if c in Undecided(body) {
        UndecidedIsUnknown(body, c);
      }
  }

  /** Every condition in the output is that of a line of the input whose verdict is unknown. */
  lemma OutputIsUnknown<C(!new)>(inputs: seq<Input<C>>, iocccok: bool, c: C)
    requires AllShaped(inputs) && Tidy(inputs) && Run(Start<C>(), inputs, iocccok).Finished?
    requires c in Conditions(Run(Start<C>(), inputs, iocccok).out)
    ensures UnknownLine(inputs, c)
  {
    ReducesEveryFile(inputs, iocccok);
    var it: Items<C> :| Spelled(it) == inputs && Run(Start<C>(), inputs, iocccok) == Outcome<C>.Finished(Reduced(it));
    LeftOver(it);
    UndecidedIsUnknown(it, c);
  }
}
