/** expr_transform and expr_trans_bool: the normal form the menu code works on. */
module KconfigTransform {
  import opened KconfigExpr
  import opened KconfigJoin

  predicate Constant(s: Symbol) {
    !s.Sym?
  }

  function Negated(rel: Rel): Rel {
    match rel
    case Eq => Neq
    case Neq => Eq
    case Leq => Gt
    case Geq => Lt
    case Lt => Geq
    case Gt => Leq
  }

  /** De Morgan rebuilds a tree with more nodes than it takes apart; a NOT weighs as much as
      everything below it, so the rebuilt tree still weighs less. */
  function Weight(e: Expr): nat
    ensures Weight(e) > 0
  {
    match e
    case Symbol(_) => 1
    case Cmp(_, _, _) => 2
    case Not(a) => 2 * Weight(a)
    case And(l, r) => 1 + Weight(l) + Weight(r)
    case Or(l, r) => 1 + Weight(l) + Weight(r)
  }

  lemma DeMorganWeight(l: Expr, r: Expr)
    ensures Weight(And(Not(l), Not(r))) == 1 + 2 * Weight(l) + 2 * Weight(r) < Weight(Not(Or(l, r)))
    ensures Weight(Or(Not(l), Not(r))) == 1 + 2 * Weight(l) + 2 * Weight(r) < Weight(Not(And(l, r)))
  {
    assert Weight(Or(l, r)) == Weight(And(l, r)) == 1 + Weight(l) + Weight(r);
  }

  /** The E_EQUAL and E_UNEQUAL cases: a boolean compared with a constant. */
  function TransformCmp(rel: Rel, l: Symbol, r: Symbol): (t: Expr)
    ensures Weight(t) <= 2
  {
    if l.Type() != Boolean || !(rel.Eq? || rel.Neq?) then Cmp(rel, l, r)
    else if r == SymNo then if rel.Eq? then Not(Symbol(l)) else Symbol(l)
    else if r == SymMod then if rel.Eq? then Symbol(SymNo) else Symbol(SymYes)
    else if r == SymYes then if rel.Eq? then Symbol(l) else Not(Symbol(l))
    else Cmp(rel, l, r)
  }

  function Transform(e: Expr): (t: Expr)
    ensures Weight(t) <= Weight(e)
    decreases Weight(e)
  {
    match e
    case Symbol(_) => e
    case Cmp(rel, l, r) => TransformCmp(rel, l, r)
    case And(l, r) => And(Transform(l), Transform(r))
    case Or(l, r) => Or(Transform(l), Transform(r))
    case Not(a) =>
      match Transform(a)
      case Not(b) => Transform(b)
      case Cmp(rel, l, r) => Cmp(Negated(rel), l, r)
      case Or(l, r) => DeMorganWeight(l, r); Transform(And(Not(l), Not(r)))
      case And(l, r) => DeMorganWeight(l, r); Transform(Or(Not(l), Not(r)))
      case Symbol(s) =>
        if s.SymYes? then Symbol(SymNo)
        else if s.SymMod? then Symbol(SymMod)
        else if s.SymNo? then Symbol(SymYes)
        else Not(Symbol(s))
  }

  // ---------------------------------------------------------------- normal form

  /** NOT only directly above a symbol that is not a constant, and no boolean is compared with a
      constant. */
  predicate Normal(e: Expr) {
    match e
    case Symbol(_) => true
    case Cmp(rel, l, r) => (rel.Eq? || rel.Neq?) && l.Type() == Boolean ==> !Constant(r)
    case Not(a) => a.Symbol? && !Constant(a.sym)
    case And(l, r) => Normal(l) && Normal(r)
    case Or(l, r) => Normal(l) && Normal(r)
  }

  lemma {:induction false} TransformNormalizes(e: Expr)
    ensures Normal(Transform(e))
    decreases Weight(e)
  {
    match e
    case Symbol(_) =>
    case Cmp(_, _, _) =>
    case And(l, r) => TransformNormalizes(l); TransformNormalizes(r);
    case Or(l, r) => TransformNormalizes(l); TransformNormalizes(r);
    case Not(a) =>
      TransformNormalizes(a);
      match Transform(a)
      case Not(b) => TransformNormalizes(b);
      case Or(l, r) => DeMorganWeight(l, r); TransformNormalizes(And(Not(l), Not(r)));
      case And(l, r) => DeMorganWeight(l, r); TransformNormalizes(Or(Not(l), Not(r)));
      case _ =>
  }

  lemma {:induction false} NormalIsFixed(e: Expr)
    requires Normal(e)
    ensures Transform(e) == e
  {
    match e
    case And(l, r) => NormalIsFixed(l); NormalIsFixed(r);
    case Or(l, r) => NormalIsFixed(l); NormalIsFixed(r);
    case _ =>
  }

  /** expr_transform stops exactly at the normal forms, and one run reaches one. */
  lemma TransformIdempotent(e: Expr)
    ensures Transform(Transform(e)) == Transform(e)
    ensures Transform(e) == e <==> Normal(e)
  {
    TransformNormalizes(e);
    NormalIsFixed(Transform(e));
    if Normal(e) {
      NormalIsFixed(e);
    }
  }

  // ---------------------------------------------------------------- value

  /** The value an expression gets when its negations are pushed down to the symbols and into the
      relations: neg tells whether an odd number of NOTs has been passed. */
  function Pushed(e: Expr, neg: bool, v: Valuation): Tri {
    match e
    case Symbol(s) => if neg then 2 - v.tri(s) else v.tri(s)
    case Cmp(rel, l, r) => CmpValue(if neg then Negated(rel) else rel, l, r, v)
    case Not(a) => Pushed(a, !neg, v)
    case And(l, r) => Combine(if neg then OpOr else OpAnd, Pushed(l, neg, v), Pushed(r, neg, v))
    case Or(l, r) => Combine(if neg then OpAnd else OpOr, Pushed(l, neg, v), Pushed(r, neg, v))
  }

  lemma TransformCmpPushed(rel: Rel, l: Symbol, r: Symbol, neg: bool, v: Valuation)
    requires Respects(v)
    ensures Pushed(TransformCmp(rel, l, r), neg, v) == Pushed(Cmp(rel, l, r), neg, v)
  {
    if l.Type() == Boolean {
      RespectsLetters(l, v);
    }
  }

  lemma {:induction false} TransformKeepsPushed(e: Expr, neg: bool, v: Valuation)
    requires Respects(v)
    ensures Pushed(Transform(e), neg, v) == Pushed(e, neg, v)
    decreases Weight(e), 1
  {
    hide Respects;
    match e
    case Symbol(_) =>
    case Cmp(rel, l, r) => TransformCmpPushed(rel, l, r, neg, v);
    case And(l, r) => TransformKeepsPushed(l, neg, v); TransformKeepsPushed(r, neg, v);
    case Or(l, r) => TransformKeepsPushed(l, neg, v); TransformKeepsPushed(r, neg, v);
    case Not(a) => TransformNotPushed(a, neg, v);
  }

  lemma {:induction false} TransformNotPushed(a: Expr, neg: bool, v: Valuation)
    requires Respects(v)
    ensures Pushed(Transform(Not(a)), neg, v) == Pushed(Not(a), neg, v)
    decreases Weight(Not(a)), 0
  {
    assert v.tri(SymYes) == YES && v.tri(SymMod) == MOD && v.tri(SymNo) == NO;
    TransformNotUnfolds(a);
    hide Respects, Transform;
    TransformKeepsPushed(a, !neg, v);
    assert Pushed(Not(a), neg, v) == Pushed(Transform(a), !neg, v);
    match Transform(a)
    case Not(b) => TransformKeepsPushed(b, neg, v);
    case Or(l, r) => DeMorganWeight(l, r); PushedDual(l, r, neg, v); TransformKeepsPushed(And(Not(l), Not(r)), neg, v);
    case And(l, r) => DeMorganWeight(l, r); PushedDual(l, r, neg, v); TransformKeepsPushed(Or(Not(l), Not(r)), neg, v);
    case Cmp(_, _, _) =>
    case Symbol(_) =>
  }

  /** De Morgan's laws where negations are pushed down. */
  lemma PushedDual(l: Expr, r: Expr, neg: bool, v: Valuation)
    ensures Pushed(And(Not(l), Not(r)), neg, v) == Pushed(Or(l, r), !neg, v)
    ensures Pushed(Or(Not(l), Not(r)), neg, v) == Pushed(And(l, r), !neg, v)
  {
  }

  lemma TransformNotUnfolds(a: Expr)
    ensures Transform(Not(a)) ==
      match Transform(a)
      case Not(b) => Transform(b)
      case Cmp(rel, l, r) => Cmp(Negated(rel), l, r)
      case Or(l, r) => Transform(And(Not(l), Not(r)))
      case And(l, r) => Transform(Or(Not(l), Not(r)))
      case Symbol(s) =>
        if s.SymYes? then Symbol(SymNo)
        else if s.SymMod? then Symbol(SymMod)
        else if s.SymNo? then Symbol(SymYes)
        else Not(Symbol(s))
  {
    hide TransformCmp;
  }

  lemma {:induction false} NormalPushed(e: Expr, v: Valuation)
    requires Normal(e)
    ensures Pushed(e, false, v) == Value(e, v)
  {
    if Chain(e) {
      NormalPushed(e.l, v);
      NormalPushed(e.r, v);
    }
  }

  /** What expr_transform's result is worth, for every expression and every valuation. */
  lemma TransformValue(e: Expr, v: Valuation)
    requires Respects(v)
    ensures Value(Transform(e), v) == Pushed(e, false, v)
  {
    TransformNormalizes(e);
    NormalPushed(Transform(e), v);
    TransformKeepsPushed(e, false, v);
  }

  predicate Ordering(rel: Rel) {
    !rel.Eq? && !rel.Neq?
  }

  /** No relation below an odd number of NOTs orders two incomparable symbols. */
  predicate Orderly(e: Expr, neg: bool, v: Valuation) {
    match e
    case Symbol(_) => true
    case Cmp(rel, l, r) => neg && Ordering(rel) ==> !Incomparable(v, l, r)
    case Not(a) => Orderly(a, !neg, v)
    case And(l, r) => Orderly(l, neg, v) && Orderly(r, neg, v)
    case Or(l, r) => Orderly(l, neg, v) && Orderly(r, neg, v)
  }

  lemma {:induction false} OrderlyPushed(e: Expr, neg: bool, v: Valuation)
    requires Orderly(e, neg, v)
    ensures Pushed(e, neg, v) == if neg then 2 - Value(e, v) else Value(e, v)
  {
    match e
    case Not(a) => OrderlyPushed(a, !neg, v);
    case And(l, r) => OrderlyPushed(l, neg, v); OrderlyPushed(r, neg, v);
    case Or(l, r) => OrderlyPushed(l, neg, v); OrderlyPushed(r, neg, v);
    case _ =>
  }

  /** expr_transform keeps the value of every expression whose negated relations are defined. */
  lemma TransformKeepsValue(e: Expr, v: Valuation)
    requires Respects(v) && Orderly(e, false, v)
    ensures Value(Transform(e), v) == Value(e, v)
  {
    TransformValue(e, v);
    OrderlyPushed(e, false, v);
  }

  /** On the branch that fails the condition is exact: a negated comparison keeps its value if and
      only if it is not an ordering of two incomparable symbols. */
  lemma NegatedComparison(rel: Rel, l: Symbol, r: Symbol, v: Valuation)
    requires Respects(v)
    ensures var e := Not(Cmp(rel, l, r));
      Value(Transform(e), v) == Value(e, v) <==> Orderly(e, false, v)
  {
    var e := Not(Cmp(rel, l, r));
    TransformValue(e, v);
    if Orderly(e, false, v) {
      OrderlyPushed(e, false, v);
    }
  }

  /** Such symbols exist whatever their values: two of type S_OTHER. */
  lemma NegatedOrderingOfOthers(v: Valuation)
    requires Respects(v)
    ensures var e := Not(Cmp(Lt, Sym(0, Other, false), Sym(1, Other, false)));
      Value(e, v) == YES && Value(Transform(e), v) == NO
  {
    var e := Not(Cmp(Lt, Sym(0, Other, false), Sym(1, Other, false)));
    TransformValue(e, v);
  }

  // ---------------------------------------------------------------- expr_trans_bool

  function TransBool(e: Expr): Expr {
    match e
    case And(l, r) => And(TransBool(l), TransBool(r))
    case Or(l, r) => Or(TransBool(l), TransBool(r))
    case Not(a) => Not(TransBool(a))
    case Cmp(rel, l, r) => if rel.Neq? && l.Type() == Tristate && r == SymNo then Symbol(l) else e
    case Symbol(_) => e
  }

  /** NOT only directly above symbols. */
  predicate NotsOnSymbols(e: Expr) {
    match e
    case Not(a) => a.Symbol?
    case And(l, r) => NotsOnSymbols(l) && NotsOnSymbols(r)
    case Or(l, r) => NotsOnSymbols(l) && NotsOnSymbols(r)
    case _ => true
  }

  lemma {:induction false} NormalNots(e: Expr)
    requires Normal(e)
    ensures NotsOnSymbols(e)
  {
    if Chain(e) {
      NormalNots(e.l);
      NormalNots(e.r);
    }
  }

  /** There expr_trans_bool keeps whether the value is n, and never raises n or lowers y. */
  lemma {:induction false} TransBoolKeepsNo(e: Expr, v: Valuation)
    requires Respects(v) && NotsOnSymbols(e)
    ensures Value(TransBool(e), v) == NO <==> Value(e, v) == NO
    ensures Value(TransBool(e), v) <= Value(e, v)
  {
    match e
    case And(l, r) => TransBoolKeepsNo(l, v); TransBoolKeepsNo(r, v);
    case Or(l, r) => TransBoolKeepsNo(l, v); TransBoolKeepsNo(r, v);
    case Cmp(_, l, r) => if l.Type() == Tristate { RespectsLetters(l, v); }
    case _ =>
  }

  /** No tristate is compared with n by `!=`. */
  predicate Untested(e: Expr) {
    match e
    case And(l, r) => Untested(l) && Untested(r)
    case Or(l, r) => Untested(l) && Untested(r)
    case Not(a) => Untested(a)
    case Cmp(rel, l, r) => rel.Neq? ==> l.Type() == Tristate ==> r != SymNo
    case Symbol(_) => true
  }

  /** It leaves no such test anywhere, changes nothing where there is none, and nothing at all in the
      meaning as long as no tristate is m. */
  lemma {:induction false} TransBoolComplete(e: Expr, v: Valuation)
    requires Respects(v)
    ensures Untested(TransBool(e)) && (TransBool(e) == e <==> Untested(e))
    ensures (forall s: Symbol :: s.Type() == Tristate ==> v.tri(s) != MOD) ==> Value(TransBool(e), v) == Value(e, v)
  {
    match e
    case And(l, r) => TransBoolComplete(l, v); TransBoolComplete(r, v);
    case Or(l, r) => TransBoolComplete(l, v); TransBoolComplete(r, v);
    case Not(a) => TransBoolComplete(a, v);
    case Cmp(_, l, r) => if l.Type() == Tristate { RespectsLetters(l, v); }
    case _ =>
  }

  /** Below a NOT it does not: when the tristate is m, `!(t != n)` is n but `!t` is m. */
  lemma TransBoolUnderNot(t: Symbol, v: Valuation)
    requires Respects(v) && t.Type() == Tristate
    ensures var e := Not(Cmp(Neq, t, SymNo));
      (Value(TransBool(e), v) == NO <==> Value(e, v) == NO) <==> v.tri(t) != MOD
  {
    RespectsLetters(t, v);
  }
}
