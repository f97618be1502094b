/** Kconfig dependency expressions and their three-valued meaning. */
module KconfigExpr {
  import opened Options

  /** n, m, y as the numbers 0, 1, 2. */
  type Tri = t: int | 0 <= t <= 2

  const NO: Tri := 0
  const MOD: Tri := 1
  const YES: Tri := 2

  datatype SymType = Unknown | Boolean | Tristate | Int | Hex | String | Other

  /** A symbol stands for the address of a `struct symbol`: two symbols are the same object
      exactly when the values are equal.  The three constants are distinguished objects. */
  datatype Symbol = SymYes | SymMod | SymNo | Sym(id: nat, ty: SymType, isConst: bool)
  {
    /** Only a declaration gives a symbol a type; a constant has none. */
    function Type(): SymType {
      if Sym? && !isConst then ty else Unknown
    }

    predicate Const() {
      Sym? ==> isConst
    }
  }

  datatype Rel = Eq | Neq | Lt | Leq | Gt | Geq

  datatype Expr =
    | Symbol(sym: Symbol)
    | Not(e: Expr)
    | And(l: Expr, r: Expr)
    | Or(l: Expr, r: Expr)
    | Cmp(rel: Rel, left: Symbol, right: Symbol)

  /** The two connectives, as the source passes them around in `enum expr_type type`. */
  datatype Op = OpAnd | OpOr

  predicate Is(op: Op, e: Expr) {
    if op.OpAnd? then e.And? else e.Or?
  }

  function Mk(op: Op, l: Expr, r: Expr): (e: Expr)
    ensures Is(op, e) && e.l == l && e.r == r
  {
    if op.OpAnd? then And(l, r) else Or(l, r)
  }

  predicate Chain(e: Expr) {
    e.And? || e.Or?
  }

  function OpOf(e: Expr): (op: Op)
    requires Chain(e)
    ensures Is(op, e) && e == Mk(op, e.l, e.r)
  {
    if e.And? then OpAnd else OpOr
  }

  /** The neutral element of a connective: 'y' for and, 'n' for or. */
  function Unit(op: Op): Expr {
    Symbol(if op.OpAnd? then SymYes else SymNo)
  }

  /** The absorbing element of a connective. */
  function Zero(op: Op): Expr {
    Symbol(if op.OpAnd? then SymNo else SymYes)
  }

  predicate YesNo(e: Expr) {
    e.Symbol? && (e.sym.SymYes? || e.sym.SymNo?)
  }

  function Combine(op: Op, a: Tri, b: Tri): Tri {
    if op.OpAnd? then if a < b then a else b else if a > b then a else b
  }

  // ---------------------------------------------------------------- valuations

  /** Everything symbol.c and libc supply: the tristate and the string value of each symbol, and
      the number a string denotes in full in a base (None when strtoll/strtoull leave a tail). */
  datatype Valuation = Valuation(
    tri: Symbol -> Tri,
    str: Symbol -> string,
    strtoll: (string, int) -> Option<int>,
    strtoull: (string, int) -> Option<nat>)

  function TriString(t: Tri): string {
    if t == 0 then "n" else if t == 1 then "m" else "y"
  }

  /** What symbol.c guarantees: the constants mean themselves, a boolean is n or y, a bool or
      tristate symbol's string is its tristate's letter, distinct constants differ as strings;
      and the three letters are not numbers to strtoll. */
  ghost predicate Respects(v: Valuation) {
    && v.tri(SymYes) == YES && v.tri(SymMod) == MOD && v.tri(SymNo) == NO
    && v.str(SymYes) == "y" && v.str(SymMod) == "m" && v.str(SymNo) == "n"
    && v.strtoll("y", 0).None? && v.strtoll("m", 0).None? && v.strtoll("n", 0).None?
    && (forall s: Symbol {:trigger v.str(s)} {:trigger v.tri(s)} ::
          s.Type() == Boolean || s.Type() == Tristate ==>
            v.str(s) == TriString(v.tri(s)) && (s.Type() == Boolean ==> v.tri(s) != MOD))
    && (forall a: Symbol, b: Symbol {:trigger v.str(a), v.str(b)} ::
          a.Const() && b.Const() && v.str(a) == v.str(b) ==> a == b)
  }

  /** A spelling for a constant, different for different constants and never a letter. */
  function ConstantName(id: nat, ty: SymType): string {
    var letter := match ty
      case Unknown => 'u' case Boolean => 'b' case Tristate => 't' case Int => 'i'
      case Hex => 'h' case String => 's' case Other => 'o';
    seq(id + 1, _ => 'c') + [letter]
  }

  /** A valuation that gives the declared symbols these values, and other strings than letters to
      those that are no bools or tristates. */
  function Assigned(tri: Symbol -> Tri, str: Symbol -> string): Valuation {
    Valuation(
      (s: Symbol) => match s case SymYes => YES case SymMod => MOD case SymNo => NO case Sym(_, _, _) => tri(s),
      (s: Symbol) => match s
        case SymYes => "y" case SymMod => "m" case SymNo => "n"
        case Sym(id, ty, isConst) =>
          if isConst then ConstantName(id, ty)
          else if ty == Boolean || ty == Tristate then TriString(tri(s))
          else str(s),
      (_, _) => None,
      (_, _) => None)
  }

  /** The valuations that respect the types are all there are: any values for the declared symbols,
      as long as no bool is m, and any strings for those that are neither bool nor tristate. */
  lemma AnyAssignmentRespects(tri: Symbol -> Tri, str: Symbol -> string)
    requires forall s: Symbol :: s.Type() == Boolean ==> tri(s) != MOD
    ensures Respects(Assigned(tri, str))
    ensures forall s: Symbol :: !s.Const() ==> Assigned(tri, str).tri(s) == tri(s)
    ensures forall s: Symbol ::
      !s.Const() && s.Type() != Boolean && s.Type() != Tristate ==> Assigned(tri, str).str(s) == str(s)
  {
    var v := Assigned(tri, str);
    forall a: Symbol, b: Symbol | a.Const() && b.Const() && v.str(a) == v.str(b) ensures a == b {
      ConstantsDiffer(a, b, v.str(a));
    }
  }

  function ConstantString(s: Symbol): string
    requires s.Const()
  {
    match s case SymYes => "y" case SymMod => "m" case SymNo => "n" case Sym(id, ty, _) => ConstantName(id, ty)
  }

  lemma ConstantsDiffer(a: Symbol, b: Symbol, s: string)
    requires a.Const() && b.Const() && ConstantString(a) == s == ConstantString(b)
    ensures a == b
  {
    if a.Sym? && b.Sym? {
      assert |s| == a.id + 2 == b.id + 2;
      assert s[|s| - 1] == ConstantName(a.id, a.ty)[a.id + 1] == ConstantName(b.id, b.ty)[b.id + 1];
    } else {
      assert |s| == 1 <==> !a.Sym?;
    }
  }

  // ---------------------------------------------------------------- expr_calc_value

  /** Sign of strcmp. */
  function StrCmp(a: string, b: string): (r: int)
    ensures -1 <= r <= 1
    ensures r == 0 <==> a == b
  {
    if a == [] && b == [] then 0
    else if a == [] then -1
    else if b == [] then 1
    else if a[0] != b[0] then if a[0] < b[0] then -1 else 1
    else
      assert a == [a[0]] + a[1..] && b == [b[0]] + b[1..];
      StrCmp(a[1..], b[1..])
  }

  datatype Parsed = KString | KSigned(s: int) | KUnsigned(u: nat) | KInvalid

  const TWO64 := 0x1_0000_0000_0000_0000

  function ParseString(v: Valuation, s: string, ty: SymType): Parsed {
    match ty
    case Boolean => KString
    case Tristate => KString
    case Int => var n := v.strtoll(s, 10); if n.Some? then KSigned(n.value) else KString
    case Hex => var n := v.strtoull(s, 16); if n.Some? then KUnsigned(n.value) else KString
    case String => var n := v.strtoll(s, 0); if n.Some? then KSigned(n.value) else KString
    case Unknown => var n := v.strtoll(s, 0); if n.Some? then KSigned(n.value) else KString
    case Other => KInvalid
  }

  /** The union's unsigned reading of a signed 64-bit value. */
  function Bits(p: Parsed): int
    requires p.KSigned? || p.KUnsigned?
  {
    if p.KSigned? then p.s % TWO64 else p.u
  }

  function Sign(a: int, b: int): (r: int)
    ensures -1 <= r <= 1
  {
    if a < b then -1 else if a > b then 1 else 0
  }

  function Kinds(v: Valuation, l: Symbol, r: Symbol): (Parsed, Parsed) {
    if l.Type() != String || r.Type() != String then
      (ParseString(v, v.str(l), l.Type()), ParseString(v, v.str(r), r.Type()))
    else
      (KString, KString)
  }

  /** The pairs the evaluator refuses to order. */
  predicate Incomparable(v: Valuation, l: Symbol, r: Symbol) {
    var (k1, k2) := Kinds(v, l, r);
    !k1.KString? && !k2.KString? && (k1.KInvalid? || k2.KInvalid?)
  }

  function Compare(v: Valuation, l: Symbol, r: Symbol): int {
    var (k1, k2) := Kinds(v, l, r);
    if k1.KString? || k2.KString? || k1.KInvalid? || k2.KInvalid? then StrCmp(v.str(l), v.str(r))
    else if k1.KUnsigned? || k2.KUnsigned? then Sign(Bits(k1), Bits(k2))
    else Sign(k1.s, k2.s)
  }

  function CmpValue(rel: Rel, l: Symbol, r: Symbol, v: Valuation): Tri {
    var res := Compare(v, l, r);
    if Incomparable(v, l, r) && !rel.Eq? && !rel.Neq? then NO
    else
      var holds :=
        match rel
        case Eq => res == 0
        case Neq => res != 0
        case Lt => res < 0
        case Leq => res <= 0
        case Gt => res > 0
        case Geq => res >= 0;
      if holds then YES else NO
  }

  function Value(e: Expr, v: Valuation): Tri {
    match e
    case Symbol(s) => v.tri(s)
    case And(l, r) => Combine(OpAnd, Value(l, v), Value(r, v))
    case Or(l, r) => Combine(OpOr, Value(l, v), Value(r, v))
    case Not(e0) => 2 - Value(e0, v)
    case Cmp(rel, l, r) => CmpValue(rel, l, r, v)
  }

  // ---------------------------------------------------------------- small facts

  function Size(e: Expr): nat {
    match e
    case Symbol(_) => 1
    case Cmp(_, _, _) => 1
    case Not(e0) => 1 + Size(e0)
    case And(l, r) => 1 + Size(l) + Size(r)
    case Or(l, r) => 1 + Size(l) + Size(r)
  }

  /** min and max are commutative monoids; stated once for every regrouping below. */
  lemma CombineAC(op: Op, a: Tri, b: Tri, c: Tri, d: Tri)
    ensures Combine(op, Combine(op, a, b), Combine(op, c, d))
         == Combine(op, Combine(op, a, c), Combine(op, b, d))
    ensures Combine(op, Combine(op, a, b), c) == Combine(op, a, Combine(op, b, c))
    ensures Combine(op, a, b) == Combine(op, b, a)
  {
  }

  /** Comparisons with a bool or tristate on the left are comparisons of letters. */
  lemma LetterCompare(v: Valuation, l: Symbol, r: Symbol)
    requires l.Type() == Boolean || l.Type() == Tristate
    ensures CmpValue(Eq, l, r, v) == (if v.str(l) == v.str(r) then YES else NO)
    ensures CmpValue(Neq, l, r, v) == (if v.str(l) == v.str(r) then NO else YES)
  {
  }
}
