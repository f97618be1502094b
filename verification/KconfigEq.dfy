/** expr_eq and expr_eliminate_eq: cancelling the parts two expressions have in common.
    The two recurse through each other; both results are returned, one for each pointer. */
module KconfigEq {
  import opened KconfigExpr
  import opened KconfigYn
  import opened KconfigPath

  /** The inner walk compares leaf against leaf; a call with a node of the walk's own type still
      has to descend before it can reach expr_eq. */
  function StepRank(op: Op, e1: Expr, e2: Expr): nat {
    if Is(op, e1) || Is(op, e2) then 0 else 4
  }

  /** __expr_eliminate_eq: the new contents of *ep1 and *ep2. */
  function CancelStep(op: Op, e1: Expr, e2: Expr): (r: (Expr, Expr))
    ensures Size(r.0) <= Size(e1) && Size(r.1) <= Size(e2)
    ensures Is(op, e1) ==> Is(op, r.0)
    ensures Is(op, e2) ==> Is(op, r.1)
    decreases Size(e1) + Size(e2), StepRank(op, e1, e2)
  {
    if Is(op, e1) then
      var (l, e2') := CancelStep(op, e1.l, e2);
      var (r, e2'') := CancelStep(op, e1.r, e2');
      (Mk(op, l, r), e2'')
    else if Is(op, e2) then
      var (e1', l) := CancelStep(op, e1, e2.l);
      var (e1'', r) := CancelStep(op, e1', e2.r);
      (e1'', Mk(op, l, r))
    else if YesNo(e1) && e1 == e2 then (e1, e2)
    else if ExprEq(e1, e2) then (Unit(op), Unit(op))
    else (e1, e2)
  }

  /** The type-dependent part of expr_eliminate_eq, before the two expr_eliminate_yn calls. */
  function CancelBoth(e1: Expr, e2: Expr): (r: (Expr, Expr))
    ensures Size(r.0) <= Size(e1) && Size(r.1) <= Size(e2)
    decreases Size(e1) + Size(e2), 1
  {
    var (f1, f2) := if Chain(e1) then CancelStep(OpOf(e1), e1, e2) else (e1, e2);
    if Chain(f2) && !(Chain(f1) && OpOf(f1) == OpOf(f2)) then CancelStep(OpOf(f2), f1, f2) else (f1, f2)
  }

  function EliminateEq(e1: Expr, e2: Expr): (r: (Expr, Expr))
    ensures Size(r.0) <= Size(e1) && Size(r.1) <= Size(e2)
    decreases Size(e1) + Size(e2), 2
  {
    var (f1, f2) := CancelBoth(e1, e2);
    (EliminateYn(f1), EliminateYn(f2))
  }

  predicate ExprEq(e1: Expr, e2: Expr)
    decreases Size(e1) + Size(e2), 3
  {
    match e1
    case Cmp(_, _, _) => e1 == e2
    case Symbol(_) => e1 == e2
    case Not(a) => e2.Not? && ExprEq(a, e2.e)
    case And(_, _) => e2.And? && (var (f1, f2) := EliminateEq(e1, e2); f1.Symbol? && f1 == f2)
    case Or(_, _) => e2.Or? && (var (f1, f2) := EliminateEq(e1, e2); f1.Symbol? && f1 == f2)
  }

  // ---------------------------------------------------------------- soundness

  /** c is the value of what was cancelled from both sides. */
  ghost predicate Rebuilds(op: Op, c: Tri, e1: Expr, e2: Expr, r: (Expr, Expr), v: Valuation) {
    && Value(e1, v) == Combine(op, Value(r.0, v), c)
    && Value(e2, v) == Combine(op, Value(r.1, v), c)
  }

  /** Two consecutive cancellations that share one side regroup into one. */
  lemma Regroup(op: Op, l: Tri, r: Tri, l': Tri, r': Tri, x: Tri, x': Tri, x'': Tri, c: Tri, d: Tri)
    requires l == Combine(op, l', c) && x == Combine(op, x', c)
    requires r == Combine(op, r', d) && x' == Combine(op, x'', d)
    ensures Combine(op, l, r) == Combine(op, Combine(op, l', r'), Combine(op, c, d))
    ensures x == Combine(op, x'', Combine(op, c, d))
  {
  }

  lemma {:induction false} CancelStepRebuilds(op: Op, e1: Expr, e2: Expr, v: Valuation) returns (c: Tri)
    requires Respects(v)
    ensures Rebuilds(op, c, e1, e2, CancelStep(op, e1, e2), v)
    decreases Size(e1) + Size(e2), StepRank(op, e1, e2)
  {
    if Is(op, e1) {
      var (l, e2') := CancelStep(op, e1.l, e2);
      var (r, e2'') := CancelStep(op, e1.r, e2');
      var c1 := CancelStepRebuilds(op, e1.l, e2, v);
      var c2 := CancelStepRebuilds(op, e1.r, e2', v);
      Regroup(op, Value(e1.l, v), Value(e1.r, v), Value(l, v), Value(r, v),
              Value(e2, v), Value(e2', v), Value(e2'', v), c1, c2);
      c := Combine(op, c1, c2);
    } else if Is(op, e2) {
      var (e1', l) := CancelStep(op, e1, e2.l);
      var (e1'', r) := CancelStep(op, e1', e2.r);
      var c1 := CancelStepRebuilds(op, e1, e2.l, v);
      var c2 := CancelStepRebuilds(op, e1', e2.r, v);
      Regroup(op, Value(e2.l, v), Value(e2.r, v), Value(l, v), Value(r, v),
              Value(e1, v), Value(e1', v), Value(e1'', v), c1, c2);
      c := Combine(op, c1, c2);
    } else if !(YesNo(e1) && e1 == e2) && ExprEq(e1, e2) {
      ExprEqSound(e1, e2, v);
      c := Value(e1, v);
    } else {
      c := Value(Unit(op), v);
    }
  }

  /** Against a leaf of the walk, either nothing changes or the leaf becomes the unit. */
  lemma {:induction false} CancelLeafShape(op: Op, e1: Expr, e2: Expr)
    requires !Is(op, e2)
    ensures var r := CancelStep(op, e1, e2); r.1 == Unit(op) || r == (e1, e2)
    decreases e1
  {
    if Is(op, e1) {
      CancelLeafShape(op, e1.l, e2);
      var (l, e2') := CancelStep(op, e1.l, e2);
      CancelLeafShape(op, e1.r, e2');
    }
  }

  /** Both results of expr_eliminate_eq come from the originals by cancelling one common part
      under one connective: and with min, or with max. */
  lemma {:induction false} EliminateEqRebuilds(e1: Expr, e2: Expr, v: Valuation) returns (op: Op, c: Tri)
    requires Respects(v)
    ensures Rebuilds(op, c, e1, e2, EliminateEq(e1, e2), v)
    decreases Size(e1) + Size(e2), 2
  {
    var (f1, f2) := CancelBoth(e1, e2);
    YnPreservesValue(f1, v);
    YnPreservesValue(f2, v);
    if Chain(e1) {
      op := OpOf(e1);
      c := CancelStepRebuilds(op, e1, e2, v);
      if !Is(op, e2) {
        CancelLeafShape(op, e1, e2);
        if CancelStep(op, e1, e2) == (e1, e2) && Chain(e2) {
          op := OpOf(e2);
          c := CancelStepRebuilds(op, e1, e2, v);
        }
      }
    } else if Chain(e2) {
      op := OpOf(e2);
      c := CancelStepRebuilds(op, e1, e2, v);
    } else {
      op, c := OpAnd, YES;
    }
  }

  /** expr_eq never equates expressions that can differ in value. */
  lemma {:induction false} ExprEqSound(e1: Expr, e2: Expr, v: Valuation)
    requires Respects(v)
    ensures ExprEq(e1, e2) ==> Value(e1, v) == Value(e2, v)
    decreases Size(e1) + Size(e2), 3
  {
    if e1.Not? && e2.Not? {
      ExprEqSound(e1.e, e2.e, v);
    } else if Chain(e1) && Chain(e2) {
      var op, c := EliminateEqRebuilds(e1, e2, v);
    }
  }

  /** menu_finalize re-nests an entry when the parent's side reduces to 'y': then the entry's
      condition can never exceed the parent's. */
  lemma {:induction false} ReducedToYesIsImplied(e1: Expr, e2: Expr, v: Valuation)
    requires Respects(v)
    requires EliminateEq(e1, e2).1 == Symbol(SymYes)
    ensures Value(e1, v) <= Value(e2, v)
  {
    var op, c := EliminateEqRebuilds(e1, e2, v);
  }

  // ---------------------------------------------------------------- completeness

  function Leaves(op: Op, e: Expr): set<Expr> {
    if Is(op, e) then Leaves(op, e.l) + Leaves(op, e.r) else {e}
  }

  /** Nothing left to cancel between two leaves: they differ, or are the same constant. */
  predicate Done(a: Expr, b: Expr) {
    !ExprEq(a, b) || (YesNo(a) && a == b)
  }

  ghost predicate AllDone(s: set<Expr>, t: set<Expr>) {
    forall a, b :: a in s && b in t ==> Done(a, b)
  }

  ghost predicate Exhausted(op: Op, e1: Expr, e2: Expr) {
    AllDone(Leaves(op, e1), Leaves(op, e2))
  }

  /** After the second part of a chain, the first part is still done with. */
  lemma DoneTogether(op: Op, s: set<Expr>, t: set<Expr>, b: set<Expr>, c: set<Expr>)
    requires c <= b + {Unit(op)}
    ensures AllDone(s, b) && AllDone(t, c) ==> AllDone(s + t, c)
    ensures AllDone(b, s) && AllDone(c, t) ==> AllDone(c, s + t)
  {
    assert forall a :: Done(a, Unit(op)) && Done(Unit(op), a);
    hide Done;
  }

  lemma LeavesMk(op: Op, l: Expr, r: Expr)
    ensures Leaves(op, Mk(op, l, r)) == Leaves(op, l) + Leaves(op, r)
  {
  }

  /** The walk leaves no pair of leaves that expr_eq would still equate, and never invents a leaf
      other than the neutral constant. */
  lemma {:induction false} CancelStepExhausts(op: Op, e1: Expr, e2: Expr)
    ensures var r := CancelStep(op, e1, e2);
      && Exhausted(op, r.0, r.1)
      && Leaves(op, r.0) <= Leaves(op, e1) + {Unit(op)}
      && Leaves(op, r.1) <= Leaves(op, e2) + {Unit(op)}
    decreases Size(e1) + Size(e2)
  {
    hide AllDone, Done;
    if Is(op, e1) {
      var (l, e2') := CancelStep(op, e1.l, e2);
      var (r, e2'') := CancelStep(op, e1.r, e2');
      CancelStepExhausts(op, e1.l, e2);
      CancelStepExhausts(op, e1.r, e2');
      LeavesMk(op, l, r);
      DoneTogether(op, Leaves(op, l), Leaves(op, r), Leaves(op, e2'), Leaves(op, e2''));
    } else if Is(op, e2) {
      var (e1', l) := CancelStep(op, e1, e2.l);
      var (e1'', r) := CancelStep(op, e1', e2.r);
      CancelStepExhausts(op, e1, e2.l);
      CancelStepExhausts(op, e1', e2.r);
      LeavesMk(op, l, r);
      DoneTogether(op, Leaves(op, l), Leaves(op, r), Leaves(op, e1'), Leaves(op, e1''));
    } else {
      LeafStep(op, e1, e2);
    }
  }

  lemma LeafStep(op: Op, e1: Expr, e2: Expr)
    requires !Is(op, e1) && !Is(op, e2)
    ensures var r := CancelStep(op, e1, e2);
      && Exhausted(op, r.0, r.1)
      && Leaves(op, r.0) <= Leaves(op, e1) + {Unit(op)}
      && Leaves(op, r.1) <= Leaves(op, e2) + {Unit(op)}
  {
  }

  /** e with every leaf that is not 'y' or 'n' replaced by the unit: what cancelling e against a
      copy of itself leaves on both sides. */
  function Blank(op: Op, e: Expr): (r: Expr)
    ensures Is(op, e) == Is(op, r)
  {
    if Is(op, e) then Mk(op, Blank(op, e.l), Blank(op, e.r)) else if YesNo(e) then e else Unit(op)
  }

  predicate Blanked(op: Op, e: Expr) {
    if Is(op, e) then Blanked(op, e.l) && Blanked(op, e.r) else YesNo(e)
  }

  /** Everything the walk visits before p has been blanked. */
  predicate BlankBefore(op: Op, e: Expr, p: Path) {
    p != [] && Is(op, e) ==>
      (p[0].R? ==> Blanked(op, e.l)) && BlankBefore(op, Child(e, p[0]), p[1..])
  }

  lemma {:induction false} BlankIsBlanked(op: Op, e: Expr)
    ensures Blanked(op, Blank(op, e))
    ensures YesNo(EliminateYn(Blank(op, e)))
  {
    if Is(op, e) {
      BlankIsBlanked(op, e.l);
      BlankIsBlanked(op, e.r);
    }
  }

  /** A constant cancels against nothing, and nothing but constants is left in a blanked tree. */
  lemma {:induction false} ConstantUntouched(op: Op, k: Expr, e: Expr)
    requires YesNo(k) || (Blanked(op, e) && !Is(op, k))
    ensures CancelStep(op, k, e) == (k, e)
    decreases e
  {
    if Is(op, e) {
      ConstantUntouched(op, k, e.l);
      ConstantUntouched(op, k, e.r);
    }
  }

  lemma {:induction false} BlankBeforeStep(op: Op, e: Expr, p: Path)
    requires OnChain(op, e, p) && Valid(e, p) && Is(op, At(e, p))
    requires BlankBefore(op, e, p)
    ensures Valid(e, p + [L]) && BlankBefore(op, e, p + [L])
    ensures var e' := Set(e, p + [L], Blank(op, At(e, p).l));
      && OnChain(op, e', p + [R]) && Valid(e', p + [R]) && At(e', p + [R]) == At(e, p).r
      && BlankBefore(op, e', p + [R])
      && Set(e', p + [R], Blank(op, At(e, p).r)) == Set(e, p, Blank(op, At(e, p)))
  {
    ValidAppend(e, p, [L]);
    if p == [] {
      assert p + [L] == [L] && p + [R] == [R];
      BlankIsBlanked(op, e.l);
    } else {
      assert (p + [L])[1..] == p[1..] + [L] && (p + [R])[1..] == p[1..] + [R];
      BlankBeforeStep(op, Child(e, p[0]), p[1..]);
    }
  }

  /** A leaf s walked against the tree that holds it at p meets only constants before p,
      cancels with itself there, and is a constant afterwards. */
  lemma {:induction false} LeafMeetsItself(op: Op, s: Expr, e: Expr, p: Path)
    requires OnChain(op, e, p) && Valid(e, p) && At(e, p) == s && !Is(op, s)
    requires BlankBefore(op, e, p)
    requires YesNo(s) || ExprEq(s, s)
    ensures CancelStep(op, s, e) == (Blank(op, s), Set(e, p, Blank(op, s)))
    decreases e
  {
    if p != [] {
      if p[0].L? {
        LeafMeetsItself(op, s, e.l, p[1..]);
        ConstantUntouched(op, Blank(op, s), e.r);
      } else {
        ConstantUntouched(op, s, e.l);
        LeafMeetsItself(op, s, e.r, p[1..]);
      }
    }
  }

  lemma {:induction false} SelfCancel(op: Op, s: Expr, e: Expr, p: Path)
    requires OnChain(op, e, p) && Valid(e, p) && At(e, p) == s
    requires BlankBefore(op, e, p)
    ensures CancelStep(op, s, e) == (Blank(op, s), Set(e, p, Blank(op, s)))
    decreases Size(s), if Is(op, s) then 0 else 2
  {
    if Is(op, s) {
      BlankBeforeStep(op, e, p);
      OnChainStep(op, e, p, L);
      SelfCancel(op, s.l, e, p + [L]);
      SelfCancel(op, s.r, Set(e, p + [L], Blank(op, s.l)), p + [R]);
    } else {
      ExprEqReflexive(s);
      LeafMeetsItself(op, s, e, p);
    }
  }

  /** expr_eq recognises every expression as equal to its own copy. */
  lemma {:induction false} ExprEqReflexive(e: Expr)
    ensures ExprEq(e, e)
    decreases Size(e), 1
  {
    if e.Not? {
      ExprEqReflexive(e.e);
    } else if Chain(e) {
      var op := OpOf(e);
      SelfCancel(op, e, e, []);
      BlankIsBlanked(op, e);
    }
  }
}
