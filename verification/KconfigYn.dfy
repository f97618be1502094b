/** expr_eliminate_yn: removal of the constants 'y' and 'n' from and/or trees. */
module KconfigYn {
  import opened KconfigExpr

  /** One node whose children are already reduced. */
  function Absorb(op: Op, l: Expr, r: Expr): (e: Expr)
    ensures Size(e) <= 1 + Size(l) + Size(r)
    ensures l == Unit(op) ==> e == r
    ensures l != Unit(op) && r == Unit(op) && l != Zero(op) ==> e == l
    ensures l == Zero(op) || (l != Unit(op) && r == Zero(op)) ==> e == Zero(op)
  {
    if l == Zero(op) then Zero(op)
    else if l == Unit(op) then r
    else if r == Zero(op) then Zero(op)
    else if r == Unit(op) then l
    else Mk(op, l, r)
  }

  function EliminateYn(e: Expr): (r: Expr)
    ensures Size(r) <= Size(e)
  {
    match e
    case And(l, r) => Absorb(OpAnd, EliminateYn(l), EliminateYn(r))
    case Or(l, r) => Absorb(OpOr, EliminateYn(l), EliminateYn(r))
    case Symbol(_) => e
    case Not(_) => e
    case Cmp(_, _, _) => e
  }

  lemma {:induction false} YnPreservesValue(e: Expr, v: Valuation)
    requires Respects(v)
    ensures Value(EliminateYn(e), v) == Value(e, v)
  {
    if Chain(e) {
      YnPreservesValue(e.l, v);
      YnPreservesValue(e.r, v);
    }
  }

  /** No 'y' or 'n' directly below an and/or that is reached through and/or nodes only. */
  predicate YnFree(e: Expr) {
    Chain(e) ==> !YesNo(e.l) && !YesNo(e.r) && YnFree(e.l) && YnFree(e.r)
  }

  /** The result holds no removable constant, and expressions that hold none are left alone. */
  lemma {:induction false} YnNormalForm(e: Expr)
    ensures YnFree(EliminateYn(e))
    ensures EliminateYn(e) == e <==> YnFree(e)
    ensures EliminateYn(EliminateYn(e)) == EliminateYn(e)
    ensures !YnFree(e) ==> Size(EliminateYn(e)) < Size(e)
  {
    if Chain(e) {
      YnNormalForm(e.l);
      YnNormalForm(e.r);
    }
  }
}
