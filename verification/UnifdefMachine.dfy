/** unifdef's table-driven state machine: partial evaluation of nested #if sections. */
module UnifdefMachine {
  import opened UnifdefLines

  /** What parseline found out about a directive. */
  datatype Directive = TrueI | FalseI | UnknownIf | TrueIf | FalseIf | UnknownElif | TrueElif | FalseElif | ElseLine | EndifLine

  /** Linetype; a dodgy directive is spread over several lines. */
  datatype LineType = Direct(d: Directive, dodgy: bool) | PlainLine | Eof

  /** How far a section has got. A prefix has been decided so far, a middle has printed its #if and
      hangs on an unknown condition, an else is past #else, a trailer has had its branch. */
  datatype IfState =
    | Outside
    | FalsePrefix | TruePrefix
    | PassMiddle | FalseMiddle | TrueMiddle
    | PassElse | FalseElse | TrueElse
    | FalseTrailer

  datatype StateFn =
    | Eelif | Eelse | Eendif | Eeof | Eioccc
    | Print | Drop
    | Strue | Sfalse | Selse
    | Pelif | Pelse | Pendif
    | Dfalse | Delif | Delse | Dendif
    | Fdrop | Fpass | Ftrue | Ffalse
    | Oiffy | Oif | Oelif
    | Idrop | Itrue | Ifalse
    | Mpass | Mtrue | Melif | Melse
    | Done

  const MAXDEPTH := 64

  /** The rows shared by all states that print: nested sections are evaluated. */
  function NestPrinting(d: Directive, dodgy: bool): StateFn {
    match d
    case TrueI => if dodgy then Oiffy else Itrue
    case FalseI => if dodgy then Oiffy else Ifalse
    case TrueIf => if dodgy then Oif else Ftrue
    case FalseIf => if dodgy then Oif else Ffalse
    case _ => Fpass
  }

  /** The rows shared by all states that drop: nested sections are dropped whole. */
  function NestDropping(d: Directive): StateFn {
    if d.TrueI? || d.FalseI? then Idrop else Fdrop
  }

  predicate Opens(d: Directive) {
    d.TrueI? || d.FalseI? || d.UnknownIf? || d.TrueIf? || d.FalseIf?
  }

  /** Columns ELIF, ELTRUE, ELFALSE, ELSE, ENDIF of a row of trans_table. */
  function Pick(d: Directive, a: StateFn, b: StateFn, c: StateFn, e: StateFn, f: StateFn): StateFn
    requires !Opens(d)
  {
    match d
    case UnknownElif => a
    case TrueElif => b
    case FalseElif => c
    case ElseLine => e
    case EndifLine => f
  }

  /** trans_table: by current state and type of the line. */
  function TransTable(s: IfState, lt: LineType): StateFn {
    match lt
    case PlainLine => if Printing(s) then Print else Drop
    case Eof => if s.Outside? then Done else Eeof
    case Direct(d, dodgy) =>
      if Opens(d) then if Printing(s) then NestPrinting(d, dodgy) else NestDropping(d)
      else if !dodgy then
        match s
        case Outside => Pick(d, Eelif, Eelif, Eelif, Eelse, Eendif)
        case FalsePrefix => Pick(d, Mpass, Strue, Sfalse, Selse, Dendif)
        case TruePrefix => Pick(d, Dfalse, Dfalse, Dfalse, Delse, Dendif)
        case PassMiddle => Pick(d, Pelif, Mtrue, Delif, Pelse, Pendif)
        case FalseMiddle => Pick(d, Pelif, Mtrue, Delif, Pelse, Pendif)
        case TrueMiddle => Pick(d, Melif, Melif, Melif, Melse, Pendif)
        case PassElse => Pick(d, Eelif, Eelif, Eelif, Eelse, Pendif)
        case FalseElse => Pick(d, Eelif, Eelif, Eelif, Eelse, Dendif)
        case TrueElse => Pick(d, Eelif, Eelif, Eelif, Eelse, Dendif)
        case FalseTrailer => Pick(d, Dfalse, Dfalse, Dfalse, Delse, Dendif)
      else
        match s
        case Outside => Pick(d, Eelif, Eelif, Eelif, Eelse, Eendif)
        case FalsePrefix => Pick(d, Mpass, Eioccc, Eioccc, Eioccc, Eioccc)
        case TruePrefix => Pick(d, Eioccc, Eioccc, Eioccc, Eioccc, Eioccc)
        case PassMiddle => Pick(d, Pelif, Oelif, Oelif, Pelse, Pendif)
        case FalseMiddle => Pick(d, Eioccc, Eioccc, Eioccc, Eioccc, Eioccc)
        case TrueMiddle => Pick(d, Eioccc, Eioccc, Eioccc, Eioccc, Pendif)
        case PassElse => Pick(d, Eelif, Eelif, Eelif, Eelse, Pendif)
        case FalseElse => Pick(d, Eelif, Eelif, Eelif, Eelse, Eioccc)
        case TrueElse => Pick(d, Eelif, Eelif, Eelif, Eelse, Eioccc)
        case FalseTrailer => Pick(d, Dfalse, Dfalse, Dfalse, Delse, Eioccc)
  }

  /** The states whose plain lines are printed. */
  predicate Printing(s: IfState) {
    s.Outside? || s.TruePrefix? || s.PassMiddle? || s.TrueMiddle? || s.PassElse? || s.TrueElse?
  }

  // ---------------------------------------------------------------- one transition

  datatype Error = BadElif | BadElse | BadEndif | PrematureEof | Obfuscated | TooDeep

  /** ifstate[0..depth] and what has been written. */
  datatype Machine<C> = Machine(states: seq<IfState>, out: seq<Line<C>>)

  datatype Outcome<C> = Running(m: Machine<C>) | Finished(out: seq<Line<C>>) | Failed(error: Error)

  function Current<C>(m: Machine<C>): IfState
    requires m.states != []
  {
    m.states[|m.states| - 1]
  }

  function Enter<C>(m: Machine<C>, s: IfState): Machine<C>
    requires m.states != []
  {
    m.(states := Below(m.states) + [s])
  }

  function Write<C>(m: Machine<C>, line: Line<C>): Machine<C> {
    m.(out := m.out + [line])
  }

  /** nest() followed by the rest of an F-function. */
  function Nest<C>(m: Machine<C>, s: IfState): Outcome<C> {
    if |m.states| >= MAXDEPTH then Failed(TooDeep) else Running(m.(states := m.states + [s]))
  }

  /** IS_OUTSIDE is at the bottom of the stack and nowhere else. */
  predicate Stacked(states: seq<IfState>) {
    states != [] && forall k :: 0 <= k < |states| ==> (states[k].Outside? <==> k == 0)
  }

  /** The functions that replace the state of the current section. */
  predicate InLevel(fn: StateFn) {
    fn.Strue? || fn.Sfalse? || fn.Selse? || fn.Pelif? || fn.Pelse? || fn.Dfalse? || fn.Delif? || fn.Delse?
    || fn.Oelif? || fn.Mpass? || fn.Mtrue? || fn.Melif? || fn.Melse?
  }

  /** A state function, applied to the line in the buffer. */
  function Apply<C>(fn: StateFn, m: Machine<C>, line: Line<C>, iocccok: bool): (o: Outcome<C>)
    requires Stacked(m.states)
    requires fn.Pendif? || fn.Dendif? || InLevel(fn) ==> |m.states| > 1
    requires fn.Mpass? ==> line.Elif?
    ensures o.Running? ==> Stacked(o.m.states)
    ensures o.Finished? <==> fn.Done?
  {
    match fn
    case Eelif => Failed(BadElif)
    case Eelse => Failed(BadElse)
    case Eendif => Failed(BadEndif)
    case Eeof => Failed(PrematureEof)
    case Eioccc => Failed(Obfuscated)
    case Print => Running(Write(m, line))
    case Drop => Running(m)
    case Strue => Running(Enter(m, TruePrefix))
    case Sfalse => Running(Enter(m, FalsePrefix))
    case Selse => Running(Enter(m, TrueElse))
    case Pelif => Running(Enter(Write(m, line), PassMiddle))
    case Pelse => Running(Enter(Write(m, line), PassElse))
    case Pendif => Running(Write(m, line).(states := Below(m.states)))
    case Dfalse => Running(Enter(m, FalseTrailer))
    case Delif => Running(Enter(m, FalseMiddle))
    case Delse => Running(Enter(m, FalseElse))
    case Dendif => Running(m.(states := Below(m.states)))
    case Fdrop => Nest(m, FalseTrailer)
    case Fpass => Nest(Write(m, line), PassMiddle)
    case Ftrue => Nest(m, TruePrefix)
    case Ffalse => Nest(m, FalsePrefix)
    case Oiffy => if !iocccok then Failed(Obfuscated) else Nest(Write(m, line), PassMiddle)
    case Oif => if !iocccok then Failed(Obfuscated) else Nest(Write(m, line), PassMiddle)
    case Oelif => if !iocccok then Failed(Obfuscated) else Running(Enter(Write(m, line), PassMiddle))
    case Idrop => Nest(m, FalseTrailer)
    case Itrue => Nest(m, TruePrefix)
    case Ifalse => Nest(m, FalsePrefix)
    case Mpass => Running(Enter(Write(m, If(line.cond)), PassMiddle))
    case Mtrue => Running(Enter(Write(m, Else), TrueMiddle))
    case Melif => Running(Enter(Write(m, Endif), FalseTrailer))
    case Melse => Running(Enter(Write(m, Endif), FalseElse))
    case Done => Finished(m.out)
  }

  // ---------------------------------------------------------------- input lines

  datatype Input<C> = Input(line: Line<C>, lt: LineType)

  /** The type fits the line. */
  predicate Shaped<C>(i: Input<C>) {
    match i.line
    case Plain(_) => i.lt == PlainLine
    case If(c) => i.lt.Direct? && Opens(i.lt.d)
    case Elif(c) => i.lt.Direct? && (i.lt.d.UnknownElif? || i.lt.d.TrueElif? || i.lt.d.FalseElif?)
    case Else => i.lt.Direct? && i.lt.d.ElseLine?
    case Endif => i.lt.Direct? && i.lt.d.EndifLine?
  }

  /** A verdict is true of the condition on the line. */
  predicate Classified<C>(i: Input<C>, truth: C -> bool) {
    && Shaped(i)
    && (i.line.If? || i.line.Elif? ==>
          && (i.lt.d.TrueI? || i.lt.d.TrueIf? || i.lt.d.TrueElif? ==> truth(i.line.cond))
          && (i.lt.d.FalseI? || i.lt.d.FalseIf? || i.lt.d.FalseElif? ==> !truth(i.line.cond)))
  }

  predicate AllShaped<C>(inputs: seq<Input<C>>) {
    forall k :: 0 <= k < |inputs| ==> Shaped(inputs[k])
  }

  ghost predicate AllClassified<C>(inputs: seq<Input<C>>, truth: C -> bool) {
    AllShaped(inputs) && forall k :: 0 <= k < |inputs| ==> Classified(inputs[k], truth)
  }

  /** No directive is spread over several lines. */
  predicate Tidy<C>(inputs: seq<Input<C>>) {
    forall k :: 0 <= k < |inputs| && inputs[k].lt.Direct? ==> !inputs[k].lt.dodgy
  }

  function Step<C>(m: Machine<C>, i: Input<C>, iocccok: bool): (o: Outcome<C>)
    requires Stacked(m.states) && Shaped(i)
    ensures o.Running? ==> Stacked(o.m.states)
    ensures !o.Finished?
  {
    TableFits(m, i.line, i.lt);
    Apply(TransTable(Current(m), i.lt), m, i.line, iocccok)
  }

  /** The table only asks for a section to be closed, changed or edited where there is one, and for
      the end only at the end of the file. */
  lemma TableFits<C>(m: Machine<C>, line: Line<C>, lt: LineType)
    requires Stacked(m.states) && (lt.Eof? || Shaped(Input(line, lt)))
    ensures var fn := TransTable(Current(m), lt);
      && (fn.Pendif? || fn.Dendif? || InLevel(fn) ==> |m.states| > 1)
      && (fn.Mpass? ==> line.Elif?)
      && (fn.Done? ==> lt.Eof?)
  {
  }

  /** process() on a whole file, starting from machine m. */
  function Run<C>(m: Machine<C>, inputs: seq<Input<C>>, iocccok: bool): (o: Outcome<C>)
    requires Stacked(m.states) && AllShaped(inputs)
    ensures !o.Running?
    decreases |inputs|
  {
    if inputs == [] then Apply(TransTable(Current(m), Eof), m, Plain([]), iocccok)
    else
      var o := Step(m, inputs[0], iocccok);
      if o.Running? then Run(o.m, inputs[1..], iocccok) else o
  }

  function Start<C>(): Machine<C> {
    Machine([Outside], [])
  }
}
