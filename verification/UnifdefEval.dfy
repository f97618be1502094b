/** unifdef's evaluator for the expressions on #if and #elif lines, and the C expressions those
    lines stand for. */
module UnifdefEval {
  import opened Options

  datatype BinOp = OrOr | AndAnd | EqEq | NotEq | LessEq | GreaterEq | Less | Greater

  /** Place of an operator in eval_ops: the lower the level, the weaker it binds. */
  function Level(op: BinOp): (k: nat)
    ensures k < UNARY
  {
    match op
    case OrOr => 0
    case AndAnd => 1
    case EqEq => 2
    case NotEq => 2
    case _ => 3
  }

  const UNARY: nat := 4

  /** A directive's expression as words and punctuation; a number carries what strtol reads. */
  datatype Token = Bang | LParen | RParen | Number(n: int) | DefinedWord | Ident(name: string) | Operator(op: BinOp) | Junk

  /** A symbol given with -U, or with -D and a text; number is the text's value if it is one. */
  datatype Definition = Undefined | Text(number: Option<int>)

  type Table = map<string, Definition>

  /** Expressions with their parentheses, so that each has one spelling. */
  datatype Ast =
    | Num(n: int)
    | Id(name: string, args: seq<Token>)
    | IsDefined(paren: bool, operand: seq<Token>)
    | Negate(e: Ast)
    | Paren(e: Ast)
    | Bin(op: BinOp, l: Ast, r: Ast)

  function Spell(e: Ast): seq<Token> {
    match e
    case Num(n) => [Number(n)]
    case Id(name, args) => [Ident(name)] + args
    case IsDefined(paren, operand) => if paren then [DefinedWord, LParen] + operand + [RParen] else [DefinedWord] + operand
    case Negate(a) => [Bang] + Spell(a)
    case Paren(a) => [LParen] + Spell(a) + [RParen]
    case Bin(op, l, r) => Spell(l) + [Operator(op)] + Spell(r)
  }

  predicate Word(t: Token) {
    t.Number? || t.DefinedWord? || t.Ident?
  }

  /** Tokens up to the parenthesis that closes the first one. */
  function Balance(ts: seq<Token>, level: nat): (n: Option<nat>)
    ensures n.Some? ==> 0 < n.value <= |ts|
  {
    if ts == [] then None
    else
      var level' := if ts[0].LParen? then level + 1 else if ts[0].RParen? then level - 1 else level;
      if level' <= 0 then Some(1)
      else
        var rest := Balance(ts[1..], level');
        if rest.None? then None else Some(1 + rest.value)
  }

  /** skipargs: the length of a macro argument list, 0 when there is none or it never closes. */
  function ArgsLength(ts: seq<Token>): (n: nat)
    ensures n <= |ts|
  {
    if ts == [] || !ts[0].LParen? then 0
    else
      var n := Balance(ts, 0);
      if n.None? then 0 else n.value
  }

  // ---------------------------------------------------------------- grammar

  /** e is an operand of the given level: C's precedence and left associativity. */
  predicate Fits(k: nat, e: Ast, table: Table)
    requires k <= UNARY
    decreases e
  {
    match e
    case Num(_) => true
    case Id(name, args) => IdFits(name, args, table)
    case IsDefined(paren, operand) => operand == [] || (|operand| == 1 && Word(operand[0]))
    case Negate(a) => Fits(UNARY, a, table)
    case Paren(a) => Fits(0, a, table)
    case Bin(op, l, r) => k <= Level(op) && Fits(Level(op), l, table) && Fits(Level(op) + 1, r, table)
  }

  /** A name may have an argument list unless it is known to be undefined; a name whose text is
      not a number is not evaluated. */
  predicate IdFits(name: string, args: seq<Token>, table: Table) {
    && (args == [] || (args[0].LParen? && Balance(args, 0) == Some(|args|)))
    && (name in table ==> if table[name].Undefined? then args == [] else table[name].number.Some?)
  }

  // ---------------------------------------------------------------- parsing

  type Parsed = Option<(Ast, seq<Token>)>

  function ParseUnary(ts: seq<Token>, table: Table): (r: Parsed)
    ensures r.Some? ==> |r.value.1| < |ts|
    decreases |ts|, 0
  {
    if ts == [] then None
    else
      match ts[0]
      case Bang =>
        var a := ParseUnary(ts[1..], table);
        if a.None? then None else Some((Negate(a.value.0), a.value.1))
      case LParen =>
        var a := ParseLevel(0, ts[1..], table);
        if a.None? || a.value.1 == [] || !a.value.1[0].RParen? then None
        else Some((Paren(a.value.0), a.value.1[1..]))
      case Number(n) => Some((Num(n), ts[1..]))
      case DefinedWord =>
        var paren := |ts| > 1 && ts[1].LParen?;
        var from := if paren then 2 else 1;
        var to := if from < |ts| && Word(ts[from]) then from + 1 else from;
        if paren && (to >= |ts| || !ts[to].RParen?) then None
        else Some((IsDefined(paren, ts[from..to]), ts[if paren then to + 1 else to..]))
      case Ident(name) =>
        if name in table && table[name].Undefined? then Some((Id(name, []), ts[1..]))
        else if name in table && table[name].number.None? then None
        else
          var n := ArgsLength(ts[1..]);
          Some((Id(name, ts[1..1 + n]), ts[1 + n..]))
      case _ => None
  }

  function ParseLevel(k: nat, ts: seq<Token>, table: Table): (r: Parsed)
    requires k <= UNARY
    ensures r.Some? ==> |r.value.1| < |ts|
    decreases |ts|, UNARY + 1 - k
  {
    if k == UNARY then ParseUnary(ts, table)
    else
      var l := ParseLevel(k + 1, ts, table);
      if l.None? then None else ParseTail(k, l.value.0, l.value.1, table)
  }

  /** The operators of level k that follow the operand l. */
  function ParseTail(k: nat, l: Ast, ts: seq<Token>, table: Table): (r: Parsed)
    requires k < UNARY
    ensures r.Some? ==> |r.value.1| <= |ts|
    decreases |ts|, UNARY + 2
  {
    if Continues(k, ts) then
      var r := ParseLevel(k + 1, ts[1..], table);
      if r.None? then None else ParseTail(k, Bin(ts[0].op, l, r.value.0), r.value.1, table)
    else Some((l, ts))
  }

  /** The next token is an operator of level k. */
  predicate Continues(k: nat, ts: seq<Token>) {
    ts != [] && ts[0].Operator? && Level(ts[0].op) == k
  }

  // ---------------------------------------------------------------- parsing and printing

  lemma ParsedIdent(ts: seq<Token>, table: Table)
    requires ts != [] && ts[0].Ident? && ParseUnary(ts, table).Some?
    ensures var r := ParseUnary(ts, table).value; ts == Spell(r.0) + r.1 && r.0.Id? && IdFits(r.0.name, r.0.args, table)
  {
    var n := ArgsLength(ts[1..]);
    assert ts == [ts[0]] + ts[1..1 + n] + ts[1 + n..];
    if n > 0 {
      BalanceTake(ts[1..], 0);
      assert ts[1..1 + n] == ts[1..][..n];
    }
  }

  lemma ParsedDefined(ts: seq<Token>, table: Table)
    requires ts != [] && ts[0].DefinedWord? && ParseUnary(ts, table).Some?
    ensures var r := ParseUnary(ts, table).value; ts == Spell(r.0) + r.1 && r.0.IsDefined? && Fits(UNARY, r.0, table)
  {
    var paren := |ts| > 1 && ts[1].LParen?;
    var from := if paren then 2 else 1;
    var to := if from < |ts| && Word(ts[from]) then from + 1 else from;
    if paren {
      assert ts == [DefinedWord, LParen] + ts[from..to] + [RParen] + ts[to + 1..];
    } else {
      assert ts == [DefinedWord] + ts[from..to] + ts[to..];
    }
  }

  /** What has been parsed is an operand of its level, and spells the tokens consumed. */
  lemma {:induction false} ParsedUnary(ts: seq<Token>, table: Table)
    ensures var r := ParseUnary(ts, table);
      r.Some? ==> ts == Spell(r.value.0) + r.value.1 && Fits(UNARY, r.value.0, table)
    decreases |ts|, 0
  {
    var r := ParseUnary(ts, table);
    if r.Some? {
      match ts[0]
      case Bang =>
        ParsedUnary(ts[1..], table);
        assert ts == [ts[0]] + ts[1..];
      case LParen =>
        ParsedLevel(0, ts[1..], table);
        var a := ParseLevel(0, ts[1..], table).value;
        assert ts == [ts[0]] + ts[1..] && a.1 == [a.1[0]] + a.1[1..];
      case Ident(name) => ParsedIdent(ts, table);
      case DefinedWord => ParsedDefined(ts, table);
      case Number(_) => assert ts == [ts[0]] + ts[1..];
      case _ =>
    }
  }

  lemma {:induction false} ParsedLevel(k: nat, ts: seq<Token>, table: Table)
    requires k <= UNARY
    ensures var r := ParseLevel(k, ts, table);
      r.Some? ==>
        && ts == Spell(r.value.0) + r.value.1 && Fits(k, r.value.0, table)
        && forall j :: k <= j < UNARY ==> !Continues(j, r.value.1)
    decreases |ts|, UNARY + 1 - k
  {
    if k == UNARY {
      ParsedUnary(ts, table);
    } else {
      ParsedLevel(k + 1, ts, table);
      var l := ParseLevel(k + 1, ts, table);
      if l.Some? {
        FitsBelow(k, k + 1, l.value.0, table);
        ParsedTail(k, l.value.0, l.value.1, table);
      }
    }
  }

  lemma {:induction false} ParsedTail(k: nat, l: Ast, ts: seq<Token>, table: Table)
    requires k < UNARY && Fits(k, l, table)
    requires forall j :: k < j < UNARY ==> !Continues(j, ts)
    ensures var r := ParseTail(k, l, ts, table);
      r.Some? ==>
        && Spell(l) + ts == Spell(r.value.0) + r.value.1 && Fits(k, r.value.0, table)
        && forall j :: k <= j < UNARY ==> !Continues(j, r.value.1)
    decreases |ts|, UNARY + 2
  {
    if Continues(k, ts) {
      ParsedLevel(k + 1, ts[1..], table);
      var r := ParseLevel(k + 1, ts[1..], table);
      if r.Some? {
        var b := Bin(ts[0].op, l, r.value.0);
        assert Spell(l) + ts == Spell(b) + r.value.1 by {
          assert ts == [ts[0]] + ts[1..];
        }
        ParsedTail(k, b, r.value.1, table);
      }
    }
  }

  lemma FitsBelow(k: nat, j: nat, e: Ast, table: Table)
    requires k <= j <= UNARY && Fits(j, e, table)
    ensures Fits(k, e, table)
  {
  }

  lemma {:induction false} BalanceTake(ts: seq<Token>, level: nat)
    requires Balance(ts, level).Some?
    ensures Balance(ts[..Balance(ts, level).value], level) == Balance(ts, level)
  {
    var n := Balance(ts, level).value;
    var level' := if ts[0].LParen? then level + 1 else if ts[0].RParen? then level - 1 else level;
    if level' > 0 {
      BalanceTake(ts[1..], level');
      assert ts[..n][1..] == ts[1..][..n - 1];
    }
  }

  /** What can follow an operand: a closing parenthesis, an operator, or the end. */
  predicate Follow(rest: seq<Token>) {
    rest == [] || rest[0].RParen? || rest[0].Operator?
  }

  lemma ReadBackIdent(name: string, args: seq<Token>, rest: seq<Token>, table: Table)
    requires IdFits(name, args, table) && Follow(rest)
    ensures ParseUnary([Ident(name)] + args + rest, table) == Some((Id(name, args), rest))
  {
    var ts := [Ident(name)] + args + rest;
    assert ts[1..] == args + rest;
    if args != [] {
      BalancePrefix(args, rest, 0);
    }
    assert ts[1..1 + |args|] == args && ts[1 + |args|..] == rest;
  }

  lemma ReadBackDefined(paren: bool, operand: seq<Token>, rest: seq<Token>, table: Table)
    requires (operand == [] || (|operand| == 1 && Word(operand[0]))) && Follow(rest)
    ensures ParseUnary(Spell(IsDefined(paren, operand)) + rest, table) == Some((IsDefined(paren, operand), rest))
  {
    var ts := Spell(IsDefined(paren, operand)) + rest;
    if paren {
      assert ts == [DefinedWord, LParen] + operand + [RParen] + rest;
      assert ts[2..2 + |operand|] == operand && ts[2 + |operand|] == RParen && ts[2 + |operand| + 1..] == rest;
      assert operand != [] ==> ts[2] == operand[0];
    } else {
      assert ts == [DefinedWord] + operand + rest;
      assert ts[1..1 + |operand|] == operand && ts[1 + |operand|..] == rest;
      assert operand != [] ==> ts[1] == operand[0];
      assert operand == [] && rest != [] ==> ts[1] == rest[0];
    }
  }

  /** Every operand is read back from its spelling, whatever follows it, up to the operators that
      continue it. */
  lemma {:induction false} ReadBackUnary(e: Ast, rest: seq<Token>, table: Table)
    requires Fits(UNARY, e, table) && Follow(rest)
    ensures ParseUnary(Spell(e) + rest, table) == Some((e, rest))
    decreases e, 0
  {
    var ts := Spell(e) + rest;
    match e
    case Num(n) =>
      assert ts[1..] == rest;
    case Id(name, args) => ReadBackIdent(name, args, rest, table);
    case IsDefined(paren, operand) => ReadBackDefined(paren, operand, rest, table);
    case Negate(a) =>
      assert ts[1..] == Spell(a) + rest;
      ReadBackUnary(a, rest, table);
    case Paren(a) =>
      assert ts[1..] == Spell(a) + ([RParen] + rest);
      ReadBack(0, a, [RParen] + rest, table);
      assert ([RParen] + rest)[1..] == rest;
    case Bin(_, _, _) => assert false;
  }

  lemma {:induction false} ReadBack(k: nat, e: Ast, rest: seq<Token>, table: Table)
    requires k <= UNARY && Fits(k, e, table) && Follow(rest)
    requires forall j :: k < j < UNARY ==> !Continues(j, rest)
    ensures k == UNARY ==> ParseLevel(k, Spell(e) + rest, table) == Some((e, rest))
    ensures k < UNARY ==> ParseLevel(k, Spell(e) + rest, table) == ParseTail(k, e, rest, table)
    decreases e, 1 + UNARY - k, 0
  {
    hide Spell;
    if k == UNARY {
      ReadBackUnary(e, rest, table);
    } else if e.Bin? && Level(e.op) == k {
      var more := [Operator(e.op)] + Spell(e.r) + rest;
      BinSpelled(e, rest);
      ReadBack(k, e.l, more, table);
      ReadBackDone(k + 1, e.r, rest, table);
    } else {
      ReadBackDone(k + 1, e, rest, table);
    }
  }

  lemma BinSpelled(e: Ast, rest: seq<Token>)
    requires e.Bin?
    ensures var more := [Operator(e.op)] + Spell(e.r) + rest;
      Spell(e) + rest == Spell(e.l) + more && more[0] == Operator(e.op) && more[1..] == Spell(e.r) + rest
  {
    assert Spell(e) == Spell(e.l) + [Operator(e.op)] + Spell(e.r);
    hide Spell;
  }

  lemma {:induction false} ReadBackDone(k: nat, e: Ast, rest: seq<Token>, table: Table)
    requires k <= UNARY && Fits(k, e, table) && Follow(rest)
    requires forall j :: k <= j < UNARY ==> !Continues(j, rest)
    ensures ParseLevel(k, Spell(e) + rest, table) == Some((e, rest))
    decreases e, 1 + UNARY - k, 1
  {
    ReadBack(k, e, rest, table);
  }

  lemma {:induction false} BalancePrefix(ts: seq<Token>, rest: seq<Token>, level: nat)
    requires Balance(ts, level).Some?
    ensures Balance(ts + rest, level) == Balance(ts, level)
  {
    var level' := if ts[0].LParen? then level + 1 else if ts[0].RParen? then level - 1 else level;
    assert (ts + rest)[1..] == ts[1..] + rest;
    if level' > 0 {
      BalancePrefix(ts[1..], rest, level');
    }
  }

  /** The grammar is unambiguous, and the parser finds the expression a line spells exactly when
      there is one. */
  lemma Unambiguous(ts: seq<Token>, e: Ast, table: Table)
    ensures ParseLevel(0, ts, table) == Some((e, [])) <==> Fits(0, e, table) && Spell(e) == ts
  {
    ParsedLevel(0, ts, table);
    if Fits(0, e, table) && Spell(e) == ts {
      ReadBackDone(0, e, [], table);
      assert Spell(e) + [] == ts;
    }
  }

  // ---------------------------------------------------------------- values in C

  /** The program being preprocessed: which names are macros, and what names and macro calls are
      worth. */
  datatype Env = Env(defined: seq<Token> -> bool, value: (string, seq<Token>) -> int)

  function Bool(b: bool): int {
    if b then 1 else 0
  }

  function Operate(op: BinOp, a: int, b: int): int {
    match op
    case OrOr => Bool(a != 0 || b != 0)
    case AndAnd => Bool(a != 0 && b != 0)
    case EqEq => Bool(a == b)
    case NotEq => Bool(a != b)
    case LessEq => Bool(a <= b)
    case GreaterEq => Bool(a >= b)
    case Less => Bool(a < b)
    case Greater => Bool(a > b)
  }

  function CValue(e: Ast, env: Env): int {
    match e
    case Num(n) => n
    case Id(name, args) => env.value(name, args)
    case IsDefined(_, operand) => Bool(env.defined(operand))
    case Negate(a) => Bool(CValue(a, env) == 0)
    case Paren(a) => CValue(a, env)
    case Bin(op, l, r) => Operate(op, CValue(l, env), CValue(r, env))
  }

  /** The command line tells the truth about the program: -U symbols are not macros and so are 0,
      -D symbols are macros worth their text. */
  ghost predicate Agrees(env: Env, table: Table) {
    forall name :: name in table ==>
      && env.defined([Ident(name)]) == table[name].Text?
      && (table[name].Undefined? ==> forall args {:trigger env.value(name, args)} :: env.value(name, args) == 0)
      && (table[name].Text? && table[name].number.Some? ==>
            forall args {:trigger env.value(name, args)} :: env.value(name, args) == table[name].number.value)
  }

  // ---------------------------------------------------------------- what unifdef computes

  /** strtol's long stored in an int. */
  function ToInt(n: int): (r: int)
    ensures -0x8000_0000 <= r < 0x8000_0000
    ensures r == n <==> -0x8000_0000 <= n < 0x8000_0000
  {
    (n + 0x8000_0000) % 0x1_0000_0000 - 0x8000_0000
  }

  /** The value worked out for e, None when it depends on an unknown symbol.  strict is -K. */
  function Known(e: Ast, table: Table, strict: bool): Option<int> {
    match e
    case Num(n) => Some(ToInt(n))
    case Id(name, _) =>
      if name !in table then None
      else if table[name].Undefined? then Some(0)
      else if table[name].number.None? then None
      else Some(ToInt(table[name].number.value))
    case IsDefined(_, operand) =>
      if |operand| == 1 && operand[0].Ident? && operand[0].name in table then
        Some(Bool(table[operand[0].name].Text?))
      else None
    case Negate(a) => var v := Known(a, table, strict); if v.None? then None else Some(Bool(v.value == 0))
    case Paren(a) => Known(a, table, strict)
    case Bin(op, l, r) => KnownBin(op, Known(l, table, strict), Known(r, table, strict), strict)
  }

  function KnownBin(op: BinOp, a: Option<int>, b: Option<int>, strict: bool): Option<int> {
    if op.OrOr? && !strict && ((a.Some? && a.value != 0) || (b.Some? && b.value != 0)) then Some(1)
    else if op.AndAnd? && !strict && (a == Some(0) || b == Some(0)) then Some(0)
    else if a.None? || b.None? then None
    else Some(Operate(op, a.value, b.value))
  }

  /** Every number written in e or standing for a symbol of e fits the evaluator's int. */
  predicate NumbersFit(e: Ast, table: Table) {
    match e
    case Num(n) => ToInt(n) == n
    case Id(name, _) =>
      name in table && table[name].Text? && table[name].number.Some? ==> ToInt(table[name].number.value) == table[name].number.value
    case IsDefined(_, _) => true
    case Negate(a) => NumbersFit(a, table)
    case Paren(a) => NumbersFit(a, table)
    case Bin(_, l, r) => NumbersFit(l, table) && NumbersFit(r, table)
  }

  /** e with every number, and every name that stands for one, cut to an int. */
  function Cut(e: Ast, table: Table): Ast {
    match e
    case Num(n) => Num(ToInt(n))
    case Id(name, _) =>
      if name in table && table[name].Text? && table[name].number.Some? then Num(ToInt(table[name].number.value)) else e
    case IsDefined(_, _) => e
    case Negate(a) => Negate(Cut(a, table))
    case Paren(a) => Paren(Cut(a, table))
    case Bin(op, l, r) => Bin(op, Cut(l, table), Cut(r, table))
  }

  /** A value worked out with some symbols unknown is the C value of the expression over cut
      numbers, whatever those symbols are. */
  lemma {:induction false} KnownOfCut(e: Ast, table: Table, strict: bool, env: Env)
    requires Agrees(env, table)
    ensures Known(e, table, strict).Some? ==> CValue(Cut(e, table), env) == Known(e, table, strict).value
  {
    match e
    case Num(_) =>
    case Id(_, _) =>
    case IsDefined(_, operand) =>
      if Known(e, table, strict).Some? {
        assert operand == [Ident(operand[0].name)];
      }
    case Negate(a) => KnownOfCut(a, table, strict, env);
    case Paren(a) => KnownOfCut(a, table, strict, env);
    case Bin(_, l, r) => KnownOfCut(l, table, strict, env); KnownOfCut(r, table, strict, env);
  }

  lemma {:induction false} CutOfFitting(e: Ast, table: Table, env: Env)
    requires Agrees(env, table) && NumbersFit(e, table)
    ensures CValue(Cut(e, table), env) == CValue(e, env)
  {
    match e
    case Negate(a) => CutOfFitting(a, table, env);
    case Paren(a) => CutOfFitting(a, table, env);
    case Bin(_, l, r) => CutOfFitting(l, table, env); CutOfFitting(r, table, env);
    case _ =>
  }

  /** Where no number is changed by the cut, the value is the C value of the expression itself. */
  lemma KnownIsRight(e: Ast, table: Table, strict: bool, env: Env)
    requires Agrees(env, table) && NumbersFit(e, table)
    ensures Known(e, table, strict).Some? ==> CValue(e, env) == Known(e, table, strict).value
  {
    KnownOfCut(e, table, strict, env);
    CutOfFitting(e, table, env);
  }

  /** e writes no numbers but the given ones and those that fit; a name may stand for any number
      that it was given. */
  predicate Writes(e: Ast, numbers: set<int>) {
    match e
    case Num(n) => n in numbers || ToInt(n) == n
    case Id(_, _) => true
    case IsDefined(_, _) => true
    case Negate(a) => Writes(a, numbers)
    case Paren(a) => Writes(a, numbers)
    case Bin(_, l, r) => Writes(l, numbers) && Writes(r, numbers)
  }

  /** The numbers given on the command line. */
  ghost predicate GivenFit(table: Table) {
    forall name :: name in table && table[name].Text? && table[name].number.Some? ==>
      ToInt(table[name].number.value) == table[name].number.value
  }

  ghost predicate RightOn(e: Ast, table: Table, strict: bool) {
    forall env :: Agrees(env, table) && Known(e, table, strict).Some? ==> CValue(e, env) == Known(e, table, strict).value
  }

  /** There is a program the command line tells the truth about, whatever the command line. */
  function Told(table: Table): (env: Env)
    ensures Agrees(env, table)
  {
    Env((operand: seq<Token>) => |operand| == 1 && operand[0].Ident? && operand[0].name in table && table[operand[0].name].Text?,
        (name, args) =>
          if name in table && table[name].Text? && table[name].number.Some? then table[name].number.value else 0)
  }

  lemma {:induction false} WritesFitting(e: Ast, numbers: set<int>, table: Table)
    requires Writes(e, numbers) && GivenFit(table) && forall n :: n in numbers ==> ToInt(n) == n
    ensures NumbersFit(e, table)
  {
    match e
    case Negate(a) => WritesFitting(a, numbers, table);
    case Paren(a) => WritesFitting(a, numbers, table);
    case Bin(_, l, r) => WritesFitting(l, numbers, table); WritesFitting(r, numbers, table);
    case _ =>
  }

  /** An equality test of a number that is cut with what it is cut to. */
  lemma CutMisjudged(e: Ast, n: int, table: Table, strict: bool)
    requires ToInt(n) != n && Known(e, table, strict) == Some(ToInt(n)) && CValue(e, Told(table)) == n
    ensures !RightOn(Bin(EqEq, e, Num(ToInt(n))), table, strict) && ToInt(ToInt(n)) == ToInt(n)
  {
    var test := Bin(EqEq, e, Num(ToInt(n)));
    assert CValue(Num(ToInt(n)), Told(table)) == ToInt(n);
    assert CValue(test, Told(table)) == Operate(EqEq, n, ToInt(n)) == 0;
    assert Known(Num(ToInt(n)), table, strict) == Some(ToInt(n));
    assert Known(test, table, strict) == Some(1);
  }

  /** Conditions over some numbers are all valued as C values them if and only if each of these
      numbers, and each number given for a name, fits an int. */
  lemma RightExactlyWhenFitting(numbers: set<int>, table: Table, strict: bool)
    ensures (forall e :: Writes(e, numbers) ==> RightOn(e, table, strict))
       <==> GivenFit(table) && forall n :: n in numbers ==> ToInt(n) == n
  {
    if GivenFit(table) && forall n :: n in numbers ==> ToInt(n) == n {
      forall e | Writes(e, numbers)
        ensures RightOn(e, table, strict)
      {
        WritesFitting(e, numbers, table);
        forall env | Agrees(env, table) { KnownIsRight(e, table, strict, env); }
      }
    }
    if n :| n in numbers && ToInt(n) != n {
      CutMisjudged(Num(n), n, table, strict);
      assert Writes(Num(n), numbers) && Writes(Num(ToInt(n)), numbers);
      assert Writes(Bin(EqEq, Num(n), Num(ToInt(n))), numbers);
    }
    if !GivenFit(table) {
      var name :| name in table && table[name].Text? && table[name].number.Some?
        && ToInt(table[name].number.value) != table[name].number.value;
      var n := table[name].number.value;
      CutMisjudged(Id(name, []), n, table, strict);
      assert Writes(Id(name, []), numbers) && Writes(Num(ToInt(n)), numbers);
      assert Writes(Bin(EqEq, Id(name, []), Num(ToInt(n))), numbers);
    }
  }

  /** All names in e are in the table. */
  predicate AllKnown(e: Ast, table: Table) {
    match e
    case Num(_) => true
    case Id(name, _) => name in table && (table[name].Text? ==> table[name].number.Some?)
    case IsDefined(_, operand) => |operand| == 1 && operand[0].Ident? && operand[0].name in table
    case Negate(a) => AllKnown(a, table)
    case Paren(a) => AllKnown(a, table)
    case Bin(_, l, r) => AllKnown(l, table) && AllKnown(r, table)
  }

  /** With -K a value is worked out exactly when no name is unknown; without it, at least then. */
  lemma {:induction false} KnownWhen(e: Ast, table: Table)
    ensures Known(e, table, true).Some? <==> AllKnown(e, table)
    ensures Known(e, table, true).Some? ==> Known(e, table, false) == Known(e, table, true)
  {
    match e
    case Negate(a) => KnownWhen(a, table);
    case Paren(a) => KnownWhen(a, table);
    case Bin(_, l, r) => KnownWhen(l, table); KnownWhen(r, table);
    case _ =>
  }

  /** The int is too narrow for C's preprocessor arithmetic: a lone number is judged as C would
      judge it if and only if it is zero or not a multiple of 2^32. */
  lemma LoneNumber(n: int, table: Table, strict: bool, env: Env)
    ensures Known(Num(n), table, strict).Some?
    ensures (Known(Num(n), table, strict).value != 0) == (CValue(Num(n), env) != 0) <==> n == 0 || n % 0x1_0000_0000 != 0
  {
  }

  lemma WideNumberMisjudged(table: Table, strict: bool, env: Env)
    ensures Known(Num(0x1_0000_0000), table, strict) == Some(0) && CValue(Num(0x1_0000_0000), env) != 0
  {
  }

  // ---------------------------------------------------------------- no less than can be known

  /** What is known of an operand allows this value. */
  predicate Allows(known: Option<int>, v: int) {
    known.Some? ==> known.value == v
  }

  ghost predicate Settled(op: BinOp, a: Option<int>, b: Option<int>, r: int) {
    forall x: int, y: int {:trigger Operate(op, x, y)} :: Allows(a, x) && Allows(b, y) ==> Operate(op, x, y) == r
  }

  /** Without -K an operation is worked out exactly when its value does not depend on what is unknown:
      `0 && X` is, whatever X may be. */
  lemma KnownBinExactly(op: BinOp, a: Option<int>, b: Option<int>)
    ensures KnownBin(op, a, b, false).Some? <==> exists r :: Settled(op, a, b, r)
    ensures KnownBin(op, a, b, false).Some? ==> Settled(op, a, b, KnownBin(op, a, b, false).value)
  {
    var k := KnownBin(op, a, b, false);
    if k.Some? {
      assert Settled(op, a, b, k.value);
    } else {
      forall r
        ensures !Settled(op, a, b, r)
      {
        Unsettled(op, a, b, r);
      }
    }
  }

  /** A value for an operand: the known one, or any. */
  function Choose(known: Option<int>, v: int): (x: int)
    ensures Allows(known, x)
  {
    if known.Some? then known.value else v
  }

  lemma Unsettled(op: BinOp, a: Option<int>, b: Option<int>, r: int)
    requires KnownBin(op, a, b, false).None?
    ensures !Settled(op, a, b, r)
  {
    var v := Choose(a, Choose(b, 0));
    var x, y := Choose(a, v), Choose(b, v);
    if op.OrOr? || op.AndAnd? {
      assert Operate(op, Choose(a, 0), Choose(b, 0)) != Operate(op, Choose(a, 1), Choose(b, 1));
    } else {
      assert x == v || y == v;
      assert Operate(op, x, y) != Operate(op, x, Choose(b, v + 1)) || Operate(op, x, y) != Operate(op, Choose(a, v - 1), y)
        || Operate(op, x, y) != Operate(op, x, Choose(b, v - 1)) || Operate(op, x, y) != Operate(op, Choose(a, v + 1), y);
    }
  }

  /** C's precedence: `||`, then `&&`, then the equalities, then the other comparisons bind tighter. */
  lemma PrecedenceIsC(p: BinOp, q: BinOp)
    ensures Level(p) < Level(q) <==>
      || (p == OrOr && q != OrOr)
      || (p == AndAnd && q !in {OrOr, AndAnd})
      || (p in {EqEq, NotEq} && q in {Less, LessEq, Greater, GreaterEq})
  {
  }
}
