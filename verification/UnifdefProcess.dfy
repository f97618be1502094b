/** The running program: the state stack kept in arrays, the state functions as methods, and the
    driver loop. */
module UnifdefProcess {
  import opened UnifdefLines
  import opened UnifdefMachine

  /** How a state function leaves the program: still running, through done(), or through error(). */
  datatype Status = Going | Exited | Stopped(error: Error)

  class Unifdef<C(0)> {
    const ifstate: array<IfState>
    var depth: nat
    var output: seq<Line<C>>
    const iocccok: bool

    ghost predicate Valid()
      reads this, ifstate
    {
      ifstate.Length == MAXDEPTH && depth < MAXDEPTH && Stacked(ifstate[..depth + 1])
    }

    /** The machine these fields hold. */
    ghost function State(): Machine<C>
      requires Valid()
      reads this, ifstate
    {
      Machine(ifstate[..depth + 1], output)
    }

    constructor (iocccok: bool)
      ensures Valid() && State() == Start<C>() && this.iocccok == iocccok
    {
      ifstate := new IfState[MAXDEPTH](_ => Outside);
      depth := 0;
      output := [];
      this.iocccok := iocccok;
    }

    /** What a method that ends with the given status leaves behind. */
    ghost predicate Leaves(o: Outcome<C>, status: Status)
      reads this, ifstate
    {
      match o
      case Running(m) => status == Going && Valid() && State() == m
      case Finished(out) => status == Exited && output == out
      case Failed(e) => status == Stopped(e)
    }

    /** flushline(true) on the line in the buffer. */
    method FlushLine(line: Line<C>)
      modifies this`output
      ensures output == old(output) + [line]
    {
      output := output + [line];
    }

    method Nest() returns (status: Status)
      requires ifstate.Length == MAXDEPTH && depth < MAXDEPTH
      modifies this`depth
      ensures if old(depth) == MAXDEPTH - 1 then status == Stopped(TooDeep) && depth == old(depth)
              else status == Going && depth == old(depth) + 1
    {
      if depth == MAXDEPTH - 1 {
        return Stopped(TooDeep);
      }
      depth := depth + 1;
      status := Going;
    }

    /** state(): overwrite the state of the current level. */
    method SetState(s: IfState)
      requires ifstate.Length == MAXDEPTH && depth < MAXDEPTH
      modifies ifstate
      ensures ifstate[..depth + 1] == old(ifstate[..depth]) + [s]
    {
      ifstate[depth] := s;
    }

    /** The first-line-of-group functions: nest(), then print or drop the line, then the state. */
    method Open(s: IfState, line: Line<C>, print_: bool) returns (status: Status)
      requires Valid() && !s.Outside?
      modifies this`depth, this`output, ifstate
      ensures Leaves(UnifdefMachine.Nest(if print_ then Write(old(State()), line) else old(State()), s), status)
    {
      ghost var before := ifstate[..depth + 1];
      status := Nest();
      if status != Going {
        return;
      }
      if print_ {
        FlushLine(line);
      }
      assert ifstate[..depth] == before;
      SetState(s);
    }

    /** The functions that stay on the level: print or drop the line, then the state. */
    method Move(s: IfState, line: Line<C>, print_: bool)
      requires Valid() && !s.Outside? && depth > 0
      modifies this`output, ifstate
      ensures Valid() && State() == Enter(if print_ then Write(old(State()), line) else old(State()), s)
    {
      if print_ {
        FlushLine(line);
      }
      assert Below(ifstate[..depth + 1]) == ifstate[..depth];
      SetState(s);
    }

    method Close(line: Line<C>, print_: bool)
      requires Valid() && depth > 0
      modifies this`depth, this`output
      ensures Valid() && State() ==
        (if print_ then Write(old(State()), line) else old(State())).(states := Below(old(State()).states))
    {
      if print_ {
        FlushLine(line);
      }
      assert Below(ifstate[..depth + 1]) == ifstate[..depth];
      depth := depth - 1;
    }

    /** One entry of the transition table, run on the line in the buffer. */
    method Execute(fn: StateFn, line: Line<C>) returns (status: Status)
      requires Valid()
      requires fn.Pendif? || fn.Dendif? || InLevel(fn) ==> depth > 0
      requires fn.Mpass? ==> line.Elif?
      modifies this`depth, this`output, ifstate
      ensures Leaves(Apply(fn, old(State()), line, iocccok), status)
    {
      hide UnifdefMachine.Nest, Enter, Below;
      status := Going;
      match fn {
        case Eelif => status := Stopped(BadElif);
        case Eelse => status := Stopped(BadElse);
        case Eendif => status := Stopped(BadEndif);
        case Eeof => status := Stopped(PrematureEof);
        case Eioccc => status := Stopped(Obfuscated);
        case Print => FlushLine(line);
        case Drop =>
        case Strue => Move(TruePrefix, line, false);
        case Sfalse => Move(FalsePrefix, line, false);
        case Selse => Move(TrueElse, line, false);
        case Pelif => Move(PassMiddle, line, true);
        case Pelse => Move(PassElse, line, true);
        case Pendif => Close(line, true);
        case Dfalse => Move(FalseTrailer, line, false);
        case Delif => Move(FalseMiddle, line, false);
        case Delse => Move(FalseElse, line, false);
        case Dendif => Close(line, false);
        case Fdrop => status := Open(FalseTrailer, line, false);
        case Fpass => status := Open(PassMiddle, line, true);
        case Ftrue => status := Open(TruePrefix, line, false);
        case Ffalse => status := Open(FalsePrefix, line, false);
        case Oiffy =>
          if !iocccok { status := Stopped(Obfuscated); } else { status := Open(PassMiddle, line, true); }
        case Oif =>
          if !iocccok { status := Stopped(Obfuscated); } else { status := Open(PassMiddle, line, true); }
        case Oelif =>
          if !iocccok { status := Stopped(Obfuscated); } else { Move(PassMiddle, line, true); }
        case Idrop => status := Open(FalseTrailer, line, false);
        case Itrue => status := Open(TruePrefix, line, false);
        case Ifalse => status := Open(FalsePrefix, line, false);
        case Mpass => Move(PassMiddle, If(line.cond), true);
        case Mtrue => Move(TrueMiddle, Else, true);
        case Melif => Move(FalseTrailer, Endif, true);
        case Melse => Move(FalseElse, Endif, true);
        case Done => status := Exited;
      }
    }

    /** process(): every line of the file, then the end of the file. */
    method Process(inputs: seq<Input<C>>) returns (status: Status)
      requires Valid() && AllShaped(inputs)
      modifies this`depth, this`output, ifstate
      ensures Leaves(Run(old(State()), inputs, iocccok), status)
    {
      hide Apply, TransTable;
      ghost var start := State();
      var n := 0;
      while n < |inputs|
        invariant 0 <= n <= |inputs| && Valid()
        invariant Run(State(), inputs[n..], iocccok) == Run(start, inputs, iocccok)
      {
        assert inputs[n..][0] == inputs[n] && inputs[n..][1..] == inputs[n + 1..];
        TableFits(State(), inputs[n].line, inputs[n].lt);
        status := Execute(TransTable(ifstate[depth], inputs[n].lt), inputs[n].line);
        if status != Going {
          return;
        }
        n := n + 1;
      }
      TableFits(State(), Plain([]), Eof);
      status := Execute(TransTable(ifstate[depth], Eof), Plain([]));
    }
  }
}
