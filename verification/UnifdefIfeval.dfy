/** The evaluator as it runs: two methods that recurse through each other over a cursor, and the
    verdict on a whole condition. */
module UnifdefIfeval {
  import opened Options
  import opened UnifdefLines
  import opened UnifdefEval
  import opened UnifdefMachine
  import opened UnifdefSound
  import UnifdefReduces

  datatype Verdict = LtError | LtIf | LtTrue | LtFalse

  function Judge(v: int): Verdict {
    if v != 0 then LtTrue else LtFalse
  }

  /** lt and the value left in *valp stand for what is known of an expression. */
  predicate Stands(lt: Verdict, val: int, known: Option<int>) {
    if known.None? then lt == LtIf else lt == Judge(val) && val == known.value
  }

  /** op_strict and the operators built on it: the verdict, and the new *valp. */
  function OpStrict(v: int, valp: int, at: Verdict, bt: Verdict): (Verdict, int) {
    if at.LtIf? || bt.LtIf? then (LtIf, valp) else (Judge(v), v)
  }

  function OpFn(op: BinOp, valp: int, at: Verdict, a: int, bt: Verdict, b: int, strict: bool): (Verdict, int) {
    match op
    case OrOr =>
      if !strict && (at.LtTrue? || bt.LtTrue?) then (LtTrue, 1) else OpStrict(Bool(a != 0 || b != 0), valp, at, bt)
    case AndAnd =>
      if !strict && (at.LtFalse? || bt.LtFalse?) then (LtFalse, 0) else OpStrict(Bool(a != 0 && b != 0), valp, at, bt)
    case EqEq => OpStrict(Bool(a == b), valp, at, bt)
    case NotEq => OpStrict(Bool(a != b), valp, at, bt)
    case LessEq => OpStrict(Bool(a <= b), valp, at, bt)
    case GreaterEq => OpStrict(Bool(a >= b), valp, at, bt)
    case Less => OpStrict(Bool(a < b), valp, at, bt)
    case Greater => OpStrict(Bool(a > b), valp, at, bt)
  }

  lemma OpStands(op: BinOp, valp: int, at: Verdict, a: int, bt: Verdict, b: int, strict: bool, ka: Option<int>, kb: Option<int>)
    requires Stands(at, a, ka) && Stands(bt, b, kb)
    ensures var (lt, v) := OpFn(op, valp, at, a, bt, b, strict); Stands(lt, v, KnownBin(op, ka, kb, strict))
  {
  }

  /** Does a name or `defined` occur in e: the evaluator then no longer calls it constant. */
  predicate HasName(e: Ast) {
    match e
    case Num(_) => false
    case Id(_, _) => true
    case IsDefined(_, _) => true
    case Negate(a) => HasName(a)
    case Paren(a) => HasName(a)
    case Bin(_, l, r) => HasName(l) || HasName(r)
  }

  lemma SymbolParsed(ts: seq<Token>, start: nat, table: Table)
    requires start < |ts| && ts[start].Ident?
    ensures var name := ts[start].name;
      var from := start + 1;
      var to := from + ArgsLength(ts[from..]);
      ParseUnary(ts[start..], table) ==
        if name in table && table[name].Undefined? then Some((Id(name, []), ts[from..]))
        else if name in table && table[name].number.None? then None
        else Some((Id(name, ts[from..to]), ts[to..]))
  {
    hide ArgsLength;
    var from := start + 1;
    var n := ArgsLength(ts[from..]);
    assert ts[start..][1..] == ts[from..];
    assert ts[start..][1..1 + n] == ts[from..from + n] && ts[start..][1 + n..] == ts[from + n..];
  }

  class Evaluator {
    const table: Table
    const strictlogic: bool
    const killconsts: bool
    var constexpr: bool

    constructor (table: Table, strictlogic: bool, killconsts: bool)
      ensures this.table == table && this.strictlogic == strictlogic && this.killconsts == killconsts
    {
      this.table := table;
      this.strictlogic := strictlogic;
      this.killconsts := killconsts;
    }

    /** What a call that began at cp in ts, with constexpr as given, leaves behind. */
    ghost predicate Evaluated(parsed: Parsed, was: bool, ts: seq<Token>, lt: Verdict, val: int, cp: nat)
      reads this
    {
      match parsed
      case None => lt == LtError
      case Some((e, rest)) =>
        && cp <= |ts| && ts[cp..] == rest
        && Stands(lt, val, Known(e, table, strictlogic))
        && constexpr == (was && !HasName(e))
    }

    method EvalUnary(ts: seq<Token>, start: nat, val0: int) returns (lt: Verdict, val: int, cp: nat)
      requires start <= |ts|
      modifies this`constexpr
      ensures Evaluated(ParseUnary(ts[start..], table), old(constexpr), ts, lt, val, cp)
      decreases |ts| - start, 0
    {
      cp, val := start, val0;
      if cp == |ts| {
        return LtError, val, cp;
      }
      assert ts[start..][1..] == ts[start + 1..];
      match ts[cp] {
        case Bang =>
          lt, val, cp := EvalUnary(ts, cp + 1, val);
          if lt.LtTrue? || lt.LtFalse? {
            val := Bool(val == 0);
            lt := Judge(val);
          }
        case LParen =>
          lt, val, cp := EvalTable(0, ts, cp + 1, val);
          if lt.LtError? {
            return;
          }
          if cp == |ts| || !ts[cp].RParen? {
            return LtError, val, cp;
          }
          cp := cp + 1;
        case Number(n) =>
          val := ToInt(n);
          lt := Judge(val);
          cp := cp + 1;
        case DefinedWord =>
          lt, val, cp := EvalDefined(ts, start, val);
        case Ident(_) =>
          lt, val, cp := EvalSymbol(ts, start, val);
        case _ => lt := LtError;
      }
    }

    /** The symbol branch of eval_unary. */
    method EvalSymbol(ts: seq<Token>, start: nat, val0: int) returns (lt: Verdict, val: int, cp: nat)
      requires start < |ts| && ts[start].Ident?
      modifies this`constexpr
      ensures Evaluated(ParseUnary(ts[start..], table), old(constexpr), ts, lt, val, cp)
    {
      SymbolParsed(ts, start, table);
      hide ParseUnary, ArgsLength;
      cp, val := start + 1, val0;
      var name := ts[start].name;
      if name !in table {
        lt := LtIf;
        cp := cp + ArgsLength(ts[cp..]);
      } else if table[name].Undefined? {
        val, lt := 0, LtFalse;
      } else if table[name].number.None? {
        return LtError, val, cp;
      } else {
        val := ToInt(table[name].number.value);
        lt := Judge(val);
        cp := cp + ArgsLength(ts[cp..]);
      }
      constexpr := false;
    }

    /** The `defined` branch of eval_unary. */
    method EvalDefined(ts: seq<Token>, start: nat, val0: int) returns (lt: Verdict, val: int, cp: nat)
      requires start < |ts| && ts[start].DefinedWord?
      modifies this`constexpr
      ensures Evaluated(ParseUnary(ts[start..], table), old(constexpr), ts, lt, val, cp)
    {
      cp, val := start + 1, val0;
      var defparen := cp < |ts| && ts[cp].LParen?;
      if defparen {
        cp := cp + 1;
      }
      ghost var from := cp;
      if cp < |ts| && ts[cp].Ident? && ts[cp].name in table {
        val := Bool(table[ts[cp].name].Text?);
        lt := Judge(val);
      } else {
        lt := LtIf;
      }
      if cp < |ts| && Word(ts[cp]) {
        cp := cp + 1;
      }
      assert ts[start..][from - start..cp - start] == ts[from..cp];
      if defparen {
        if cp == |ts| || !ts[cp].RParen? {
          return LtError, val, cp;
        }
        cp := cp + 1;
      }
      assert ts[start..][cp - start..] == ts[cp..];
      constexpr := false;
    }

    /** eval_table at the given row of eval_ops; the last row's inner function is eval_unary. */
    method EvalTable(k: nat, ts: seq<Token>, start: nat, val0: int) returns (lt: Verdict, val: int, cp: nat)
      requires k < UNARY && start <= |ts|
      modifies this`constexpr
      ensures Evaluated(ParseLevel(k, ts[start..], table), old(constexpr), ts, lt, val, cp)
      decreases |ts| - start, UNARY + 1 - k
    {
      lt, val, cp := EvalInner(k, ts, start, val0);
      if lt.LtError? {
        return;
      }
      ghost var done := ParseLevel(k + 1, ts[start..], table).value.0;
      while cp < |ts| && ts[cp].Operator? && Level(ts[cp].op) == k
        invariant start < cp <= |ts| && lt != LtError
        invariant ParseLevel(k, ts[start..], table) == ParseTail(k, done, ts[cp..], table)
        invariant Stands(lt, val, Known(done, table, strictlogic))
        invariant constexpr == (old(constexpr) && !HasName(done))
        decreases |ts| - cp
      {
        var op := ts[cp].op;
        assert ts[cp..][1..] == ts[cp + 1..];
        ghost var right := ParseLevel(k + 1, ts[cp + 1..], table);
        var rt, v, next := EvalInner(k, ts, cp + 1, 0);
        if rt.LtError? {
          return LtError, val, cp;
        }
        OpStands(op, val, lt, val, rt, v, strictlogic,
                 Known(done, table, strictlogic), Known(right.value.0, table, strictlogic));
        var (lt', val') := OpFn(op, val, lt, val, rt, v, strictlogic);
        lt, val, cp := lt', val', next;
        done := Bin(op, done, right.value.0);
      }
    }

    method EvalInner(k: nat, ts: seq<Token>, start: nat, val0: int) returns (lt: Verdict, val: int, cp: nat)
      requires k < UNARY && start <= |ts|
      modifies this`constexpr
      ensures Evaluated(ParseLevel(k + 1, ts[start..], table), old(constexpr), ts, lt, val, cp)
      ensures !lt.LtError? ==> start < cp
      decreases |ts| - start, UNARY + 1 - k, 0
    {
      if k == UNARY - 1 {
        lt, val, cp := EvalUnary(ts, start, val0);
      } else {
        lt, val, cp := EvalTable(k + 1, ts, start, val0);
      }
    }

    /** ifeval on the rest of the line, and parseline's check that nothing follows. */
    method IfEval(ts: seq<Token>) returns (verdict: Verdict)
      modifies this`constexpr
      ensures verdict == ConditionVerdict(ts, table, strictlogic, killconsts)
    {
      constexpr := !killconsts;
      assert ts[0..] == ts;
      var ret, val, cp := EvalTable(0, ts, 0, 0);
      verdict := if constexpr || ret.LtError? then LtIf else ret;
      if !ret.LtError? && cp != |ts| {
        verdict := LtIf;
      }
    }
  }

  /** The verdict on a condition: what is known of the one expression it spells, unless it spells
      none, or is a constant expression and -k was not given. */
  function ConditionVerdict(ts: seq<Token>, table: Table, strict: bool, killconsts: bool): Verdict {
    match ParseLevel(0, ts, table)
    case None => LtIf
    case Some((e, rest)) =>
      if rest != [] || (!killconsts && !HasName(e)) then LtIf
      else
        var known := Known(e, table, strict);
        if known.None? then LtIf else Judge(known.value)
  }

  /** A line that spells an expression is judged by what is known of it; one that spells none is not
      judged. */
  lemma VerdictExactly(ts: seq<Token>, table: Table, strict: bool, killconsts: bool)
    ensures forall e :: Fits(0, e, table) && Spell(e) == ts ==>
      ConditionVerdict(ts, table, strict, killconsts)
      == if (!killconsts && !HasName(e)) || Known(e, table, strict).None? then LtIf
         else if Known(e, table, strict).value != 0 then LtTrue else LtFalse
    ensures !(exists e :: Fits(0, e, table) && Spell(e) == ts) ==> ConditionVerdict(ts, table, strict, killconsts) == LtIf
  {
    forall e | Fits(0, e, table) && Spell(e) == ts
      ensures ParseLevel(0, ts, table) == Some((e, []))
    {
      Unambiguous(ts, e, table);
    }
    var r := ParseLevel(0, ts, table);
    if r.Some? && r.value.1 == [] { Unambiguous(ts, r.value.0, table); }
  }

  // ---------------------------------------------------------------- the whole program

  type Condition = seq<Token>

  /** What the preprocessor makes of a condition in a program; lines unifdef cannot parse may mean
      anything. */
  ghost function Meaning(env: Env, table: Table, other: Condition -> bool): Condition -> bool {
    (ts: Condition) =>
      match ParseLevel(0, ts, table)
      case None => other(ts)
      case Some((e, rest)) => if rest == [] then CValue(e, env) != 0 else other(ts)
  }

  /** parseline's type for a directive: known only if the evaluator says so.  A line #ifdef X is the
      condition `defined X`, #ifndef X is `! defined X`. */
  predicate Labelled(i: Input<Condition>, table: Table, strict: bool, killconsts: bool) {
    && Shaped(i)
    && (i.line.If? || i.line.Elif? ==>
          var verdict := ConditionVerdict(i.line.cond, table, strict, killconsts);
          && (i.lt.d.TrueI? || i.lt.d.TrueIf? || i.lt.d.TrueElif? ==> verdict == LtTrue)
          && (i.lt.d.FalseI? || i.lt.d.FalseIf? || i.lt.d.FalseElif? ==> verdict == LtFalse))
  }

  predicate ConditionFits(ts: Condition, table: Table) {
    match ParseLevel(0, ts, table)
    case None => true
    case Some((e, _)) => NumbersFit(e, table)
  }

  ghost predicate AllLabelled(inputs: seq<Input<Condition>>, table: Table, strict: bool, killconsts: bool) {
    && AllShaped(inputs)
    && forall k :: 0 <= k < |inputs| ==> Labelled(inputs[k], table, strict, killconsts)
  }

  ghost predicate AllFit(inputs: seq<Input<Condition>>, table: Table) {
    forall k :: 0 <= k < |inputs| && (inputs[k].line.If? || inputs[k].line.Elif?) ==> ConditionFits(inputs[k].line.cond, table)
  }

  /** What a preprocessor that works on the cut numbers makes of a condition. */
  ghost function CutMeaning(env: Env, table: Table, other: Condition -> bool): Condition -> bool {
    (ts: Condition) =>
      match ParseLevel(0, ts, table)
      case None => other(ts)
      case Some((e, rest)) => if rest == [] then CValue(Cut(e, table), env) != 0 else other(ts)
  }

  lemma VerdictIsRight(ts: Condition, table: Table, strict: bool, killconsts: bool, env: Env, other: Condition -> bool)
    requires Agrees(env, table) && ConditionFits(ts, table)
    ensures ConditionVerdict(ts, table, strict, killconsts) == LtTrue ==> Meaning(env, table, other)(ts)
    ensures ConditionVerdict(ts, table, strict, killconsts) == LtFalse ==> !Meaning(env, table, other)(ts)
    ensures ConditionVerdict(ts, table, strict, killconsts) != LtError
  {
    var parsed := ParseLevel(0, ts, table);
    if parsed.Some? {
      KnownIsRight(parsed.value.0, table, strict, env);
    }
  }

  /** The same with no bound on the numbers, for the meaning over cut numbers. */
  lemma VerdictOfCut(ts: Condition, table: Table, strict: bool, killconsts: bool, env: Env, other: Condition -> bool)
    requires Agrees(env, table)
    ensures ConditionVerdict(ts, table, strict, killconsts) == LtTrue ==> CutMeaning(env, table, other)(ts)
    ensures ConditionVerdict(ts, table, strict, killconsts) == LtFalse ==> !CutMeaning(env, table, other)(ts)
    ensures ConditionVerdict(ts, table, strict, killconsts) != LtError
  {
    var parsed := ParseLevel(0, ts, table);
    if parsed.Some? {
      KnownOfCut(parsed.value.0, table, strict, env);
    }
  }

  /** The verdict on #ifdef and #ifndef lines is the table's. */
  lemma IfdefVerdict(name: string, table: Table, strict: bool, killconsts: bool)
    ensures ConditionVerdict([DefinedWord, Ident(name)], table, strict, killconsts)
         == if name !in table then LtIf else if table[name].Text? then LtTrue else LtFalse
    ensures ConditionVerdict([Bang, DefinedWord, Ident(name)], table, strict, killconsts)
         == if name !in table then LtIf else if table[name].Text? then LtFalse else LtTrue
  {
    var e := IsDefined(false, [Ident(name)]);
    assert Spell(e) == [DefinedWord, Ident(name)];
    Unambiguous([DefinedWord, Ident(name)], e, table);
    assert Spell(Negate(e)) == [Bang, DefinedWord, Ident(name)];
    Unambiguous([Bang, DefinedWord, Ident(name)], Negate(e), table);
  }

  /** unifdef run with -D and -U options that are true of a program: for every value of the names
      it was told nothing about, a preprocessor that cuts numbers to an int as unifdef does sees the
      same text before and after. */
  lemma UnifdefOnCutNumbers(
      inputs: seq<Input<Condition>>, table: Table, strict: bool, killconsts: bool, iocccok: bool,
      env: Env, other: Condition -> bool)
    requires AllLabelled(inputs, table, strict, killconsts) && Agrees(env, table)
    ensures
      var o := Run(Start<Condition>(), inputs, iocccok);
      o.Finished? ==> SelectsTheSame(Lines(inputs), o.out, CutMeaning(env, table, other))
  {
    var meaning := CutMeaning(env, table, other);
    forall k | 0 <= k < |inputs|
      ensures Classified(inputs[k], meaning)
    {
      var i := inputs[k];
      if i.line.If? || i.line.Elif? {
        VerdictOfCut(i.line.cond, table, strict, killconsts, env, other);
      }
    }
    ReducedFileSelectsTheSame(inputs, iocccok, meaning);
  }

  /** Where the numbers fit, so does the compiler. */
  lemma UnifdefIsSound(
      inputs: seq<Input<Condition>>, table: Table, strict: bool, killconsts: bool, iocccok: bool,
      env: Env, other: Condition -> bool)
    requires AllLabelled(inputs, table, strict, killconsts) && AllFit(inputs, table) && Agrees(env, table)
    ensures
      var o := Run(Start<Condition>(), inputs, iocccok);
      o.Finished? ==> SelectsTheSame(Lines(inputs), o.out, Meaning(env, table, other))
  {
    var meaning := Meaning(env, table, other);
    forall k | 0 <= k < |inputs|
      ensures Classified(inputs[k], meaning)
    {
      var i := inputs[k];
      if i.line.If? || i.line.Elif? {
        VerdictIsRight(i.line.cond, table, strict, killconsts, env, other);
      }
    }
    ReducedFileSelectsTheSame(inputs, iocccok, meaning);
  }

  /** And conversely known when the evaluator says so. */
  predicate LabelledExactly(i: Input<Condition>, table: Table, strict: bool, killconsts: bool) {
    && Shaped(i)
    && (i.line.If? || i.line.Elif? ==>
          (i.lt.d.UnknownIf? || i.lt.d.UnknownElif? <==> ConditionVerdict(i.line.cond, table, strict, killconsts) == LtIf))
  }

  /** No condition that unifdef can judge is left in the output. */
  lemma NothingKnownIsLeft(
      inputs: seq<Input<Condition>>, table: Table, strict: bool, killconsts: bool, iocccok: bool, c: Condition)
    requires AllShaped(inputs) && Tidy(inputs)
    requires forall k :: 0 <= k < |inputs| ==> LabelledExactly(inputs[k], table, strict, killconsts)
    requires var o := Run(Start<Condition>(), inputs, iocccok); o.Finished? && c in UnifdefReduces.Conditions(o.out)
    ensures ConditionVerdict(c, table, strict, killconsts) == LtIf
  {
    UnifdefReduces.OutputIsUnknown(inputs, iocccok, c);
  }

  /** The bound is needed: with -k, a number that is a multiple of 2^32 is taken for false where the
      compiler takes it for true. */
  lemma WideVerdictIsWrong(table: Table, strict: bool, env: Env, other: Condition -> bool)
    ensures ConditionVerdict([Number(0x1_0000_0000)], table, strict, true) == LtFalse
    ensures Meaning(env, table, other)([Number(0x1_0000_0000)])
  {
    var e := Num(0x1_0000_0000);
    Unambiguous([Number(0x1_0000_0000)], e, table);
    assert ParseLevel(0, [Number(0x1_0000_0000)], table) == Some((e, []));
    WideNumberMisjudged(table, strict, env);
  }

  /** A line that the compiler sees and that is left out. */
  function WideFile(text: string): seq<Input<Condition>> {
    [Input(If([Number(0x1_0000_0000)]), Direct(FalseIf, false)),
     Input(Plain(text), PlainLine),
     Input(Endif, Direct(EndifLine, false))]
  }

  lemma WideNumberDropsText(table: Table, strict: bool, iocccok: bool, env: Env, other: Condition -> bool, text: string)
    ensures AllLabelled(WideFile(text), table, strict, true)
    ensures Run(Start<Condition>(), WideFile(text), iocccok) == Finished([])
    ensures !SelectsTheSame(Lines(WideFile(text)), [], Meaning(env, table, other))
  {
    WideVerdictIsWrong(table, strict, env, other);
    var meaning := Meaning(env, table, other);
    WideRun(text, iocccok);
    WideRead(text, meaning);
  }

  lemma WideRun(text: string, iocccok: bool)
    ensures AllShaped(WideFile(text)) && Run(Start<Condition>(), WideFile(text), iocccok) == Finished([])
  {
    var i := WideFile(text);
    var inside := Machine([Outside, FalsePrefix], []);
    WideOpens(text, iocccok);
    WideDrops(text, iocccok);
    WideCloses(text, iocccok);
    hide Step, Apply, TransTable;
    assert i[1..][0] == i[1] && i[1..][1..] == [i[2]] && [i[2]][1..] == [];
    assert Run(inside, [i[2]], iocccok) == Finished([]);
    assert Run(inside, i[1..], iocccok) == Finished([]);
  }

  /** The opening line goes one level down, the next line is dropped, the last one comes back up. */
  lemma WideOpens(text: string, iocccok: bool)
    ensures Step(Start<Condition>(), WideFile(text)[0], iocccok) == Running(Machine([Outside, FalsePrefix], []))
  {
    assert [Outside] + [FalsePrefix] == [Outside, FalsePrefix];
  }

  lemma WideDrops(text: string, iocccok: bool)
    ensures var inside := Machine([Outside, FalsePrefix], []);
      Step(inside, WideFile(text)[1], iocccok) == Running(inside)
  {
  }

  lemma WideCloses(text: string, iocccok: bool)
    ensures Step(Machine([Outside, FalsePrefix], []), WideFile(text)[2], iocccok) == Running(Start<Condition>())
    ensures Run(Start<Condition>(), [], iocccok) == Finished([])
  {
    assert Below([Outside, FalsePrefix]) == [Outside];
  }

  lemma WideRead(text: string, truth: Condition -> bool)
    requires truth([Number(0x1_0000_0000)])
    ensures Complete([], truth) && Complete(Lines(WideFile(text)), truth)
    ensures Selected<Condition>([], truth) == [] && Selected(Lines(WideFile(text)), truth) == [text]
  {
    WideLines(text);
    NothingRead(truth);
    WideReaders(text, truth);
    hide WideFile, Lines, ReadAll, Read;
    var a: Line<Condition>, b, c := If([Number(0x1_0000_0000)]), Plain(text), Endif;
    ReadAllSnoc([], a, truth);
    ReadAllSnoc([a], b, truth);
    ReadAllSnoc([a, b], c, truth);
    assert [] + [a] == [a] && [a] + [b] == [a, b] && [a, b] + [c] == [a, b, c];
  }

  lemma WideReaders(text: string, truth: Condition -> bool)
    requires truth([Number(0x1_0000_0000)])
    ensures var open := Section(true, true, false);
      && Read(Reader([], []), If([Number(0x1_0000_0000)]), truth) == Some(Reader([open], []))
      && Read(Reader([open], []), Plain(text), truth) == Some(Reader([open], [text]))
      && Read(Reader([open], [text]), Endif, truth) == Some(Reader([], [text]))
  {
    var open := Section(true, true, false);
    assert [] + [open] == [open] && [] + [text] == [text] && Selecting([open]);
  }

  lemma NothingRead(truth: Condition -> bool)
    ensures ReadAll<Condition>([], truth) == Some(Reader([], []))
  {
  }

  lemma WideLines(text: string)
    ensures Lines(WideFile(text)) == [If([Number(0x1_0000_0000)]), Plain(text), Endif]
  {
    var i := WideFile(text);
    assert i[1..] == [i[1], i[2]] && [i[1], i[2]][1..] == [i[2]] && [i[2]][1..] == [];
    assert Lines([i[2]]) == [i[2].line] && Lines([i[1], i[2]]) == [i[1].line] + Lines([i[2]]);
    assert Lines(i) == [i[0].line] + Lines([i[1], i[2]]);
  }
}
