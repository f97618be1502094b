/** The reduced file selects the same text as the original: a simulation between reading the
    input and reading the output, level by level over the machine's stack of states. */
module UnifdefSound {
  import opened Options
  import opened UnifdefLines
  import opened UnifdefMachine

  /** The states whose section has an #if line in the output. */
  predicate Kept(s: IfState) {
    s.PassMiddle? || s.FalseMiddle? || s.TrueMiddle? || s.PassElse?
  }

  predicate AfterElse(s: IfState) {
    s.PassElse? || s.FalseElse? || s.TrueElse?
  }

  /** What state s at a level says about the section g read from the input, given whether the
      level below prints. */
  predicate InputLevel(s: IfState, g: Section, printingBelow: bool) {
    && g.inElse == AfterElse(s)
    && (s.FalseTrailer? || s.FalseElse? || printingBelow)
    && match s
       case Outside => false
       case FalsePrefix => !g.active && !g.taken
       case TruePrefix => g.active && g.taken
       case PassMiddle => true
       case FalseMiddle => !g.active
       case TrueMiddle => g.taken
       case PassElse => true
       case FalseElse => printingBelow ==> !g.active
       case TrueElse => g.active
       case FalseTrailer => printingBelow ==> !g.active && g.taken
  }

  /** ... and about the section o it has left open in the output. */
  predicate OutputLevel(s: IfState, g: Section, o: Section) {
    match s
    case PassMiddle => o == g
    case FalseMiddle => o.taken == g.taken && !o.inElse
    case TrueMiddle => o.active == g.active && o.inElse
    case PassElse => o == g
    case _ => true
  }

  /** The machine's states, the sections open in the input and those open in the output. */
  predicate Sim(states: seq<IfState>, input: seq<Section>, output: seq<Section>)
    decreases |states|
  {
    if |states| <= 1 then states == [Outside] && input == [] && output == []
    else
      var s := states[|states| - 1];
      && input != []
      && InputLevel(s, Top(input), Printing(states[|states| - 2]))
      && if Kept(s) then
           output != [] && OutputLevel(s, Top(input), Top(output)) && Sim(Below(states), Below(input), Below(output))
         else
           Sim(Below(states), Below(input), output)
  }

  /** A printing state selects in the output what it selects in the input; a dropping state is
      not selected in the input. */
  lemma {:induction false} SimSelects(states: seq<IfState>, input: seq<Section>, output: seq<Section>)
    requires Sim(states, input, output)
    ensures if Printing(states[|states| - 1]) then Selecting(input) == Selecting(output) else !Selecting(input)
    decreases |states|
  {
    if |states| > 1 {
      var s := states[|states| - 1];
      SimSelects(Below(states), Below(input), if Kept(s) then Below(output) else output);
      SelectingTop(input);
      if Kept(s) {
        SelectingTop(output);
      }
    }
  }

  lemma SelectingTop(open: seq<Section>)
    requires open != []
    ensures Selecting(open) == (Selecting(Below(open)) && Top(open).active)
  {
    if Selecting(Below(open)) && Top(open).active {
      forall k | 0 <= k < |open|
        ensures open[k].active
      {
        if k < |open| - 1 {
          assert Below(open)[k].active;
        }
      }
    }
    if Selecting(open) {
      forall k | 0 <= k < |Below(open)|
        ensures Below(open)[k].active
      {
        assert open[k].active;
      }
    }
  }

  lemma {:induction false} SimLengths(states: seq<IfState>, input: seq<Section>, output: seq<Section>)
    requires Sim(states, input, output)
    ensures |states| == |input| + 1 && Stacked(states)
    ensures |states| > 1 ==> Printing(states[|states| - 2]) || states[|states| - 1].FalseTrailer? || states[|states| - 1].FalseElse?
    decreases |states|
  {
    if |states| > 1 {
      var s := states[|states| - 1];
      SimLengths(Below(states), Below(input), if Kept(s) then Below(output) else output);
    }
  }

  /** Machine m after reading the lines that took the input reader to ri, with its output read
      back to ro. */
  predicate InStep<C>(m: Machine<C>, ri: Reader, ro: Reader) {
    Sim(m.states, ri.open, ro.open) && ri.text == ro.text
  }

  /** The lines a step writes: none or one. */
  function Written<C>(m: Machine<C>, m': Machine<C>): seq<Line<C>> {
    if |m.out| <= |m'.out| then m'.out[|m.out|..] else []
  }

  function ReadSome<C>(r: Reader, lines: seq<Line<C>>, truth: C -> bool): Option<Reader> {
    if lines == [] then Some(r) else if |lines| == 1 then Read(r, lines[0], truth) else None
  }

  /** The input reader accepts the line, and what machine m' has written keeps the two in step. */
  ghost predicate Simulated<C(!new)>(m: Machine<C>, ri: Reader, ro: Reader, line: Line<C>, m': Machine<C>, truth: C -> bool) {
    var ri' := Read(ri, line, truth);
    var ro' := ReadSome(ro, Written(m, m'), truth);
    && m'.out == m.out + Written(m, m')
    && ri'.Some? && ro'.Some? && InStep(m', ri'.value, ro'.value)
  }

  ghost predicate StepSimulated<C(!new)>(m: Machine<C>, ri: Reader, ro: Reader, i: Input<C>, iocccok: bool, truth: C -> bool)
    requires Stacked(m.states) && Shaped(i)
  {
    var o := Step(m, i, iocccok);
    o.Running? ==> Simulated(m, ri, ro, i.line, o.m, truth)
  }

  lemma PushPop<T>(s: seq<T>, x: T)
    ensures Below(s + [x]) == s
    ensures s != [] ==> Below(s) + [Top(s)] == s
  {
  }

  lemma PlainSimulated<C(!new)>(m: Machine<C>, ri: Reader, ro: Reader, i: Input<C>, iocccok: bool, truth: C -> bool)
    requires InStep(m, ri, ro) && Stacked(m.states) && Classified(i, truth) && i.line.Plain?
    ensures StepSimulated(m, ri, ro, i, iocccok, truth)
  {
    SimSelects(m.states, ri.open, ro.open);
  }

  /** One more level on all stacks. */
  lemma SimPush(states: seq<IfState>, input: seq<Section>, output: seq<Section>, s: IfState, g: Section, o: Section)
    requires Sim(states, input, output) && states != []
    requires InputLevel(s, g, Printing(states[|states| - 1])) && (Kept(s) ==> OutputLevel(s, g, o))
    ensures Sim(states + [s], input + [g], if Kept(s) then output + [o] else output)
  {
    PushPop(states, s);
    PushPop(input, g);
    PushPop(output, o);
  }

  // The columns of the table, one directive at a time.

  predicate Fails(fn: StateFn) {
    fn.Eelif? || fn.Eelse? || fn.Eendif? || fn.Eeof? || fn.Eioccc?
  }

  lemma IfColumn(s: IfState, d: Directive, dodgy: bool)
    requires Opens(d)
    ensures var fn := TransTable(s, Direct(d, dodgy));
      if !Printing(s) then fn.Idrop? || fn.Fdrop?
      else if d.UnknownIf? then fn.Fpass?
      else if dodgy then fn.Oiffy? || fn.Oif?
      else if d.TrueI? || d.TrueIf? then fn.Itrue? || fn.Ftrue?
      else fn.Ifalse? || fn.Ffalse?
  {
  }

  lemma ElifColumn(s: IfState, d: Directive, dodgy: bool)
    requires d.UnknownElif? || d.TrueElif? || d.FalseElif?
    ensures var fn := TransTable(s, Direct(d, dodgy));
      Fails(fn) ||
      match s
      case FalsePrefix =>
        if d.UnknownElif? then fn.Mpass? else !dodgy && if d.TrueElif? then fn.Strue? else fn.Sfalse?
      case TruePrefix => fn.Dfalse?
      case FalseTrailer => fn.Dfalse?
      case TrueMiddle => fn.Melif?
      case PassMiddle =>
        if d.UnknownElif? then fn.Pelif? else if dodgy then fn.Oelif? else if d.TrueElif? then fn.Mtrue? else fn.Delif?
      case FalseMiddle =>
        !dodgy && if d.UnknownElif? then fn.Pelif? else if d.TrueElif? then fn.Mtrue? else fn.Delif?
      case _ => false
  {
  }

  lemma ElseColumn(s: IfState, dodgy: bool)
    ensures var fn := TransTable(s, Direct(ElseLine, dodgy));
      Fails(fn) ||
      match s
      case FalsePrefix => fn.Selse?
      case TruePrefix => fn.Delse?
      case FalseTrailer => fn.Delse?
      case TrueMiddle => fn.Melse?
      case PassMiddle => fn.Pelse?
      case FalseMiddle => fn.Pelse?
      case _ => false
  {
  }

  lemma EndifColumn(s: IfState, dodgy: bool)
    ensures var fn := TransTable(s, Direct(EndifLine, dodgy));
      Fails(fn) || (!s.Outside? && if Kept(s) then fn.Pendif? else fn.Dendif?)
  {
  }

  /** What the table does with an #if line: in a printing group it stays exactly when it is unknown or
      dodgy, and the run fails on a known dodgy one unless that is allowed. */
  lemma IfEffect<C(!new)>(m: Machine<C>, i: Input<C>, iocccok: bool)
    requires Stacked(m.states) && Shaped(i) && i.line.If?
    ensures var o := Step(m, i, iocccok);
      o.Running? ==>
        var s := Current(o.m);
        && o.m.states == m.states + [s]
        && o.m.out == m.out + (if s.PassMiddle? then [i.line] else [])
        && (if !Printing(Current(m)) then s.FalseTrailer?
            else if i.lt.d.UnknownIf? || i.lt.dodgy then s.PassMiddle?
            else if i.lt.d.TrueI? || i.lt.d.TrueIf? then s.TruePrefix?
            else s.FalsePrefix?)
    ensures Step(m, i, iocccok).Running? <==>
      |m.states| < MAXDEPTH && (Printing(Current(m)) && i.lt.dodgy && !i.lt.d.UnknownIf? ==> iocccok)
  {
    hide TransTable;
    IfColumn(Current(m), i.lt.d, i.lt.dodgy);
    TableFits(m, i.line, i.lt);
  }

  lemma IfSimulated<C(!new)>(m: Machine<C>, ri: Reader, ro: Reader, i: Input<C>, iocccok: bool, truth: C -> bool)
    requires InStep(m, ri, ro) && Stacked(m.states) && Classified(i, truth) && i.line.If?
    ensures StepSimulated(m, ri, ro, i, iocccok, truth)
  {
    hide TransTable, Apply, UnifdefMachine.Step, Sim, Written;
    IfEffect(m, i, iocccok);
    var o := Step(m, i, iocccok);
    if o.Running? {
      WrittenIs(m, o.m, if Current(o.m).PassMiddle? then [i.line] else []);
      var g := Section(truth(i.line.cond), truth(i.line.cond), false);
      SimPush(m.states, ri.open, ro.open, Current(o.m), g, g);
    }
  }

  /** What an #elif line becomes in the output when it takes its level from state s to s'. */
  function ElifWrites<C>(s: IfState, s': IfState, line: Line<C>): seq<Line<C>>
    requires line.Elif?
  {
    match s'
    case PassMiddle => [if s.FalsePrefix? then If(line.cond) else line]
    case TrueMiddle => [Else]
    case FalseTrailer => if s.TrueMiddle? then [Endif] else []
    case _ => []
  }

  /** The states an #elif whose condition is c leads to. */
  predicate ElifLeads(s: IfState, s': IfState, c: bool) {
    match s'
    case PassMiddle => s.FalsePrefix? || s.PassMiddle? || s.FalseMiddle?
    case TrueMiddle => c && (s.PassMiddle? || s.FalseMiddle?)
    case FalseMiddle => !c && (s.PassMiddle? || s.FalseMiddle?)
    case TruePrefix => c && s.FalsePrefix?
    case FalsePrefix => !c && s.FalsePrefix?
    case FalseTrailer => s.TruePrefix? || s.TrueMiddle? || s.FalseTrailer?
    case _ => false
  }

  /** What the table does with an #elif line: the same level in a new state. */
  ghost predicate ElifMoves<C(!new)>(m: Machine<C>, line: Line<C>, c: bool, m': Machine<C>)
    requires line.Elif?
  {
    && |m.states| > 1 && m'.states != [] && m'.states == Below(m.states) + [Current(m')]
    && ElifLeads(Current(m), Current(m'), c)
    && m'.out == m.out + ElifWrites(Current(m), Current(m'), line)
  }

  /** Where no group of the section has been settled yet, it stays exactly when it is unknown or dodgy. */
  lemma ElifEffect<C(!new)>(m: Machine<C>, i: Input<C>, iocccok: bool, truth: C -> bool)
    requires Stacked(m.states) && Classified(i, truth) && i.line.Elif?
    ensures var o := Step(m, i, iocccok);
      o.Running? ==>
        && ElifMoves(m, i.line, truth(i.line.cond), o.m)
        && (Current(o.m).PassMiddle? <==>
              (Current(m).FalsePrefix? || Current(m).PassMiddle? || Current(m).FalseMiddle?)
              && (i.lt.d.UnknownElif? || i.lt.dodgy))
  {
    hide TransTable;
    ElifColumn(Current(m), i.lt.d, i.lt.dodgy);
    TableFits(m, i.line, i.lt);
  }

  /** The top level, and the levels below it. */
  lemma SimTop(states: seq<IfState>, input: seq<Section>, output: seq<Section>)
    requires Sim(states, input, output) && |states| > 1
    ensures input != [] && InputLevel(Top(states), Top(input), Printing(Top(Below(states))))
    ensures Kept(Top(states)) ==> output != [] && OutputLevel(Top(states), Top(input), Top(output))
    ensures Sim(Below(states), Below(input), if Kept(Top(states)) then Below(output) else output)
  {
  }

  /** The section an #elif with condition c makes of an open section, as the preprocessor does. */
  function ElifSection(t: Section, c: bool): Section {
    Section(!t.taken && c, t.taken || c, false)
  }

  /** The section left open in the output, in the states that keep one. */
  function ElifOutput(s: IfState, s': IfState, output: seq<Section>, c: bool): Section {
    if !Kept(s) || output == [] then Section(c, c, false)
    else if s'.TrueMiddle? then Section(!Top(output).taken, true, true)
    else if s'.FalseMiddle? then Top(output)
    else ElifSection(Top(output), c)
  }

  lemma ElifReadBack<C(!new)>(s: IfState, s': IfState, ro: Reader, line: Line<C>, truth: C -> bool)
    requires line.Elif? && ElifLeads(s, s', truth(line.cond))
    requires Kept(s) ==> ro.open != [] && (s.TrueMiddle? || !Top(ro.open).inElse)
    ensures var below := if Kept(s) then Below(ro.open) else ro.open;
      ReadSome(ro, ElifWrites(s, s', line), truth)
        == Some(ro.(open := if Kept(s') then below + [ElifOutput(s, s', ro.open, truth(line.cond))] else below))
  {
    if Kept(s) {
      assert Below(ro.open) + [Top(ro.open)] == ro.open;
    }
  }

  lemma ElifLevels(states: seq<IfState>, input: seq<Section>, output: seq<Section>, s': IfState, c: bool)
    requires Sim(states, input, output) && |states| > 1 && ElifLeads(Top(states), s', c)
    ensures input != [] && !Top(input).inElse
    ensures var s := Top(states);
      && (Kept(s) ==> output != [] && (s.TrueMiddle? || !Top(output).inElse))
      && var below := if Kept(s) then Below(output) else output;
      && Sim(Below(states) + [s'], Below(input) + [ElifSection(Top(input), c)],
             if Kept(s') then below + [ElifOutput(s, s', output, c)] else below)
  {
    hide Sim;
    SimTop(states, input, output);
    SimPush(Below(states), Below(input), if Kept(Top(states)) then Below(output) else output, s',
            ElifSection(Top(input), c), ElifOutput(Top(states), s', output, c));
  }

  /** One level across an #elif: the new section on the input side, and on the output side if the
      section is kept there. */
  lemma ElifLevel<C(!new)>(states: seq<IfState>, ri: Reader, ro: Reader, s': IfState, line: Line<C>, truth: C -> bool)
    requires Sim(states, ri.open, ro.open) && |states| > 1 && line.Elif?
    requires ElifLeads(Top(states), s', truth(line.cond))
    ensures var ri' := Read(ri, line, truth);
      var ro' := ReadSome(ro, ElifWrites(Top(states), s', line), truth);
      && ri'.Some? && ro'.Some? && ri'.value.text == ri.text && ro'.value.text == ro.text
      && Sim(Below(states) + [s'], ri'.value.open, ro'.value.open)
  {
    hide Sim, ReadSome, ElifWrites, ElifLeads;
    ElifLevels(states, ri.open, ro.open, s', truth(line.cond));
    ElifReadBack(Top(states), s', ro, line, truth);
  }

  lemma ElifMoved<C(!new)>(m: Machine<C>, ri: Reader, ro: Reader, i: Input<C>, m': Machine<C>, truth: C -> bool)
    requires InStep(m, ri, ro) && i.line.Elif? && ElifMoves(m, i.line, truth(i.line.cond), m')
    ensures Simulated(m, ri, ro, i.line, m', truth)
  {
    hide Sim, ElifLeads, ElifWrites, Read, ReadSome;
    assert Written(m, m') == ElifWrites(Current(m), Current(m'), i.line);
    ElifLevel(m.states, ri, ro, Current(m'), i.line, truth);
  }

  lemma ElifSimulated<C(!new)>(m: Machine<C>, ri: Reader, ro: Reader, i: Input<C>, iocccok: bool, truth: C -> bool)
    requires InStep(m, ri, ro) && Stacked(m.states) && Classified(i, truth) && i.line.Elif?
    ensures StepSimulated(m, ri, ro, i, iocccok, truth)
  {
    ElifEffect(m, i, iocccok, truth);
    var o := Step(m, i, iocccok);
    if o.Running? {
      ElifMoved(m, ri, ro, i, o.m, truth);
    }
  }

  /** What the table does with an #else line. */
  lemma ElseEffect<C(!new)>(m: Machine<C>, i: Input<C>, iocccok: bool)
    requires Stacked(m.states) && Shaped(i) && i.line.Else?
    ensures var o := Step(m, i, iocccok);
      o.Running? ==>
        var s, s' := Current(m), Current(o.m);
        && |m.states| > 1 && o.m.states == Below(m.states) + [s'] && !AfterElse(s)
        && match s
           case FalsePrefix => s'.TrueElse? && o.m.out == m.out
           case TruePrefix => s'.FalseElse? && o.m.out == m.out
           case FalseTrailer => s'.FalseElse? && o.m.out == m.out
           case TrueMiddle => s'.FalseElse? && o.m.out == m.out + [Endif]
           case _ => (s.PassMiddle? || s.FalseMiddle?) && s'.PassElse? && o.m.out == m.out + [Else]
  {
    hide TransTable;
    ElseColumn(Current(m), i.lt.dodgy);
    TableFits(m, i.line, i.lt);
  }

  lemma ElseSimulated<C(!new)>(m: Machine<C>, ri: Reader, ro: Reader, i: Input<C>, iocccok: bool, truth: C -> bool)
    requires InStep(m, ri, ro) && Stacked(m.states) && Classified(i, truth) && i.line.Else?
    ensures StepSimulated(m, ri, ro, i, iocccok, truth)
  {
    hide TransTable, Apply, UnifdefMachine.Step, Sim, Written;
    ElseEffect(m, i, iocccok);
    var o := Step(m, i, iocccok);
    if o.Running? {
      var s, s' := Current(m), Current(o.m);
      SimTop(m.states, ri.open, ro.open);
      WrittenIs(m, o.m, if o.m.out == m.out then [] else [if s.TrueMiddle? then Endif else Else]);
      var g := Section(!Top(ri.open).taken, true, true);
      var below := if Kept(s) then Below(ro.open) else ro.open;
      SimPush(Below(m.states), Below(ri.open), below, s', g, g);
    }
  }

  lemma WrittenIs<C(!new)>(m: Machine<C>, m': Machine<C>, more: seq<Line<C>>)
    requires m'.out == m.out + more
    ensures Written(m, m') == more
  {
  }

  /** What the table does with an #endif line. */
  lemma EndifEffect<C(!new)>(m: Machine<C>, i: Input<C>, iocccok: bool)
    requires Stacked(m.states) && Shaped(i) && i.line.Endif?
    ensures var o := Step(m, i, iocccok);
      o.Running? ==>
        && |m.states| > 1 && o.m.states == Below(m.states)
        && o.m.out == m.out + (if Kept(Current(m)) then [i.line] else [])
  {
    hide TransTable;
    EndifColumn(Current(m), i.lt.dodgy);
    TableFits(m, i.line, i.lt);
  }

  lemma EndifSimulated<C(!new)>(m: Machine<C>, ri: Reader, ro: Reader, i: Input<C>, iocccok: bool, truth: C -> bool)
    requires InStep(m, ri, ro) && Stacked(m.states) && Classified(i, truth) && i.line.Endif?
    ensures StepSimulated(m, ri, ro, i, iocccok, truth)
  {
    hide TransTable, Apply;
    EndifEffect(m, i, iocccok);
  }

  lemma StepKeepsInStep<C(!new)>(m: Machine<C>, ri: Reader, ro: Reader, i: Input<C>, iocccok: bool, truth: C -> bool)
    requires InStep(m, ri, ro) && Stacked(m.states) && Classified(i, truth)
    ensures StepSimulated(m, ri, ro, i, iocccok, truth)
  {
    match i.line
    case Plain(_) => PlainSimulated(m, ri, ro, i, iocccok, truth);
    case If(_) => IfSimulated(m, ri, ro, i, iocccok, truth);
    case Elif(_) => ElifSimulated(m, ri, ro, i, iocccok, truth);
    case Else => ElseSimulated(m, ri, ro, i, iocccok, truth);
    case Endif => EndifSimulated(m, ri, ro, i, iocccok, truth);
  }

  // ---------------------------------------------------------------- whole files

  function Lines<C>(inputs: seq<Input<C>>): (lines: seq<Line<C>>)
    ensures |lines| == |inputs|
  {
    if inputs == [] then [] else [inputs[0].line] + Lines(inputs[1..])
  }

  /** Both what has been read and what has been written are readable, and in step. */
  ghost predicate Reads<C(!new)>(m: Machine<C>, seen: seq<Line<C>>, truth: C -> bool) {
    && ReadAll(seen, truth).Some? && ReadAll(m.out, truth).Some?
    && InStep(m, ReadAll(seen, truth).value, ReadAll(m.out, truth).value)
  }

  lemma NextReads<C(!new)>(m: Machine<C>, seen: seq<Line<C>>, i: Input<C>, iocccok: bool, truth: C -> bool)
    requires Reads(m, seen, truth) && Stacked(m.states) && Classified(i, truth)
    requires Step(m, i, iocccok).Running?
    ensures Reads(Step(m, i, iocccok).m, seen + [i.line], truth)
  {
    hide Apply, TransTable, Sim;
    var ri, ro := ReadAll(seen, truth).value, ReadAll(m.out, truth).value;
    StepKeepsInStep(m, ri, ro, i, iocccok, truth);
    NextReaders(m, seen, ri, ro, i.line, Step(m, i, iocccok).m, truth);
  }

  lemma NextReaders<C(!new)>(
      m: Machine<C>, seen: seq<Line<C>>, ri: Reader, ro: Reader, line: Line<C>, m': Machine<C>, truth: C -> bool)
    requires ReadAll(seen, truth) == Some(ri) && ReadAll(m.out, truth) == Some(ro)
    requires Simulated(m, ri, ro, line, m', truth)
    ensures Reads(m', seen + [line], truth)
  {
    hide Sim;
    ReadAllSnoc(seen, line, truth);
    if Written(m, m') == [] {
      assert m'.out == m.out;
    } else {
      assert Written(m, m') == [Written(m, m')[0]];
      ReadAllSnoc(m.out, Written(m, m')[0], truth);
    }
  }

  /** Two complete files with the same selected text. */
  ghost predicate SelectsTheSame<C(!new)>(lines: seq<Line<C>>, out: seq<Line<C>>, truth: C -> bool) {
    Complete(lines, truth) && Complete(out, truth) && Selected(out, truth) == Selected(lines, truth)
  }

  lemma EndInStep<C(!new)>(m: Machine<C>, seen: seq<Line<C>>, iocccok: bool, truth: C -> bool)
    requires Reads(m, seen, truth) && Stacked(m.states)
    ensures var o := Run(m, [], iocccok); o.Finished? ==> SelectsTheSame(seen, o.out, truth)
  {
    if Run(m, [], iocccok).Finished? {
      assert |m.states| == 1;
    }
  }

  lemma {:induction false} RunInStep<C(!new)>(
      m: Machine<C>, seen: seq<Line<C>>, inputs: seq<Input<C>>, iocccok: bool, truth: C -> bool)
    requires Reads(m, seen, truth) && AllClassified(inputs, truth) && Stacked(m.states)
    ensures var o := Run(m, inputs, iocccok); o.Finished? ==> SelectsTheSame(seen + Lines(inputs), o.out, truth)
    decreases |inputs|
  {
    hide Apply, Step, TransTable, SelectsTheSame, Reads, Classified, Shaped, Stacked;
    if inputs == [] {
      EndInStep(m, seen, iocccok, truth);
      assert seen + Lines(inputs) == seen;
    } else {
      var o := Step(m, inputs[0], iocccok);
      if o.Running? {
        NextReads(m, seen, inputs[0], iocccok, truth);
        RunInStep(o.m, seen + [inputs[0].line], inputs[1..], iocccok, truth);
        assert seen + [inputs[0].line] + Lines(inputs[1..]) == seen + Lines(inputs);
      }
    }
  }

  /** Whenever unifdef gets through a file, then for every truth assignment that agrees with the
      verdicts on the known conditions, what it writes is well nested and selects the same plain
      lines in the same order as the file it read. */
  lemma ReducedFileSelectsTheSame<C(!new)>(inputs: seq<Input<C>>, iocccok: bool, truth: C -> bool)
    requires AllClassified(inputs, truth)
    ensures var o := Run(Start<C>(), inputs, iocccok);
      o.Finished? ==> SelectsTheSame(Lines(inputs), o.out, truth)
  {
    RunInStep(Start<C>(), [], inputs, iocccok, truth);
    assert [] + Lines(inputs) == Lines(inputs);
  }

  // ---------------------------------------------------------------- which files are accepted

  /** Well nested to a depth of at most 63; levels tells for each open section whether #else has
      been seen. */
  predicate Nested<C>(levels: seq<bool>, lines: seq<Line<C>>)
    decreases |lines|
  {
    if lines == [] then levels == []
    else
      match lines[0]
      case Plain(_) => Nested(levels, lines[1..])
      case If(_) => |levels| < MAXDEPTH - 1 && Nested(levels + [false], lines[1..])
      case Elif(_) => levels != [] && !levels[|levels| - 1] && Nested(levels, lines[1..])
      case Else => levels != [] && !levels[|levels| - 1] && Nested(Below(levels) + [true], lines[1..])
      case Endif => levels != [] && Nested(Below(levels), lines[1..])
  }

  /** The levels the machine's states stand for. */
  ghost predicate Levels(states: seq<IfState>, levels: seq<bool>) {
    && |states| == |levels| + 1
    && forall k :: 0 <= k < |levels| ==> levels[k] == AfterElse(states[k + 1])
  }

  lemma {:induction false} RunAccepts<C(!new)>(m: Machine<C>, levels: seq<bool>, inputs: seq<Input<C>>, iocccok: bool)
    requires Stacked(m.states) && Levels(m.states, levels)
    requires AllShaped(inputs) && Tidy(inputs)
    ensures Run(m, inputs, iocccok).Finished? <==> Nested(levels, Lines(inputs))
    decreases |inputs|
  {
    if inputs != [] {
      var i := inputs[0];
      var o := Step(m, i, iocccok);
      var levels' := match i.line
        case Plain(_) => levels
        case If(_) => levels + [false]
        case Elif(_) => levels
        case Else => if levels == [] then [] else Below(levels) + [true]
        case Endif => if levels == [] then [] else Below(levels);
      if o.Running? {
        StepLevels(m, levels, i, iocccok);
        RunAccepts(o.m, levels', inputs[1..], iocccok);
      }
      assert Lines(inputs)[0] == i.line && Lines(inputs)[1..] == Lines(inputs[1..]);
      StepRuns(m, levels, i, iocccok);
    }
  }

  /** Without dodgy directives a step fails exactly on a misplaced or too deep directive. */
  lemma StepRuns<C(!new)>(m: Machine<C>, levels: seq<bool>, i: Input<C>, iocccok: bool)
    requires Stacked(m.states) && Levels(m.states, levels) && Shaped(i) && (i.lt.Direct? ==> !i.lt.dodgy)
    ensures Step(m, i, iocccok).Running? <==>
      match i.line
      case Plain(_) => true
      case If(_) => |levels| < MAXDEPTH - 1
      case Elif(_) => levels != [] && !levels[|levels| - 1]
      case Else => levels != [] && !levels[|levels| - 1]
      case Endif => levels != []
  {
  }

  /** A dodgy directive inside a section is accepted only where the lines before it, the directive and
      the lines after it are all printed or all dropped; an #elif may also open a section whose groups
      so far are gone, and a known one may be passed on if that is allowed. */
  lemma DodgyRuns<C(!new)>(m: Machine<C>, i: Input<C>, iocccok: bool)
    requires Stacked(m.states) && Shaped(i) && |m.states| > 1 && i.lt.Direct? && i.lt.dodgy && !i.line.If?
    ensures var s := Current(m);
      Step(m, i, iocccok).Running? <==>
        match i.line
        case Elif(_) => s.FalseTrailer? || (s.FalsePrefix? && i.lt.d.UnknownElif?) || (s.PassMiddle? && (i.lt.d.UnknownElif? || iocccok))
        case Else => s.FalseTrailer? || s.PassMiddle?
        case Endif => s.PassMiddle? || s.TrueMiddle? || s.PassElse?
  {
  }

  lemma StepLevels<C(!new)>(m: Machine<C>, levels: seq<bool>, i: Input<C>, iocccok: bool)
    requires Stacked(m.states) && Levels(m.states, levels) && Shaped(i) && (i.lt.Direct? ==> !i.lt.dodgy)
    requires Step(m, i, iocccok).Running?
    ensures Levels(Step(m, i, iocccok).m.states,
                   match i.line
                   case Plain(_) => levels
                   case If(_) => levels + [false]
                   case Elif(_) => levels
                   case Else => if levels == [] then [] else Below(levels) + [true]
                   case Endif => if levels == [] then [] else Below(levels))
  {
    var m' := Step(m, i, iocccok).m;
    match i.line
    case Plain(_) =>
    case If(_) => IfEffect(m, i, iocccok);
    case Elif(_) => ElifEffect(m, i, iocccok, _ => i.lt.d.TrueElif?);
    case Else => ElseEffect(m, i, iocccok);
    case Endif => EndifEffect(m, i, iocccok);
  }

  /** A file without dodgy directives gets through exactly when its sections are well nested and
      at most 63 deep. */
  lemma AcceptedIffNested<C(!new)>(inputs: seq<Input<C>>, iocccok: bool)
    requires AllShaped(inputs) && Tidy(inputs)
    ensures Run(Start<C>(), inputs, iocccok).Finished? <==> Nested([], Lines(inputs))
  {
    RunAccepts(Start<C>(), [], inputs, iocccok);
  }
}
