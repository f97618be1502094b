/** Which entries pass menu_finalize's test, said without the functions that make it up. */
module KconfigBelongs {
  import opened Options
  import opened KconfigExpr
  import opened KconfigYn
  import opened KconfigEq
  import opened KconfigKeys
  import opened KconfigMenuDeps

  // ---------------------------------------------------------------- the two walks over a condition

  /** A conjunct that cannot hold while s is n. */
  predicate Demands(c: Expr, s: Symbol) {
    c == Symbol(s) || c == Cmp(Eq, s, SymYes) || c == Cmp(Eq, s, SymMod) || c == Cmp(Neq, s, SymNo)
  }

  /** A condition depends on s exactly when one of its conjuncts is s, s = y, s = m or s != n. */
  lemma {:induction false} DependsOnConjunct(dep: Expr, s: Symbol)
    ensures DependsSymbol(dep, s) <==> exists c :: c in Leaves(OpAnd, dep) && Demands(c, s)
  {
    if dep.And? {
      DependsOnConjunct(dep.l, s);
      DependsOnConjunct(dep.r, s);
    } else {
      assert Leaves(OpAnd, dep) == {dep};
      assert DependsSymbol(dep, s) <==> Demands(dep, s);
    }
  }

  /** A condition that does not contain s has the same value whatever s is. */
  lemma {:induction false} NotContained(dep: Expr, s: Symbol, v: Valuation, w: Valuation)
    requires !ContainsSymbol(dep, s)
    requires forall t: Symbol :: t != s ==> v.tri(t) == w.tri(t) && v.str(t) == w.str(t)
    requires v.strtoll == w.strtoll && v.strtoull == w.strtoull
    ensures Value(dep, v) == Value(dep, w)
  {
    match dep
    case And(l, r) => NotContained(l, s, v, w); NotContained(r, s, v, w);
    case Or(l, r) => NotContained(l, s, v, w); NotContained(r, s, v, w);
    case Not(a) => NotContained(a, s, v, w);
    case Symbol(_) =>
    case Cmp(rel, l, r) => assert Compare(v, l, r) == Compare(w, l, r) && Incomparable(v, l, r) == Incomparable(w, l, r);
  }

  function Symbols(e: Expr): set<Symbol> {
    match e
    case And(l, r) => Symbols(l) + Symbols(r)
    case Or(l, r) => Symbols(l) + Symbols(r)
    case Not(a) => Symbols(a)
    case Symbol(s) => {s}
    case Cmp(_, l, r) => {l, r}
  }

  lemma {:induction false} ContainedIsNamed(dep: Expr, s: Symbol)
    ensures ContainsSymbol(dep, s) <==> s in Symbols(dep)
  {
    match dep
    case And(l, r) => ContainedIsNamed(l, s); ContainedIsNamed(r, s);
    case Or(l, r) => ContainedIsNamed(l, s); ContainedIsNamed(r, s);
    case Not(a) => ContainedIsNamed(a, s);
    case _ =>
  }

  // ---------------------------------------------------------------- the comparison of two conditions

  lemma {:induction false} ConstantKept(op: Op, e: Expr, k: Expr)
    requires YesNo(k)
    ensures CancelStep(op, e, k) == (e, k)
  {
    if Is(op, e) {
      ConstantKept(op, e.l, k);
      ConstantKept(op, e.r, k);
    }
  }

  lemma {:induction false} NoConstantPart(op: Op, e: Expr, k: Symbol)
    requires Deep(e) && (Is(op, e) || !YesNo(e)) && YesNo(Symbol(k))
    ensures KSym(k) !in Bag(op, e)
  {
    if Is(op, e) {
      NoConstantPart(op, e.l, k);
      NoConstantPart(op, e.r, k);
    }
  }

  /** Comparing with a constant changes nothing. */
  lemma ConstantSecond(e1: Expr, k: Expr)
    requires YesNo(k)
    ensures EliminateEq(e1, k).1 == k
  {
    if Chain(e1) { ConstantKept(OpOf(e1), e1, k); }
  }

  lemma ConstantFirst(k: Expr, e2: Expr)
    requires YesNo(k) && Deep(e2)
    ensures EliminateEq(k, e2).1 == e2
  {
    if Chain(e2) { ConstantUntouched(OpOf(e2), k, e2); }
    DeepIsFree(e2);
  }

  /** Neither side is a chain of op: the second is the neutral constant only if it was. */
  lemma NeitherIsChain(op: Op, e1: Expr, e2: Expr)
    requires Deep(e1) && Deep(e2) && !Is(op, e1) && !Is(op, e2)
    ensures EliminateEq(e1, e2).1 == Unit(op) <==> e2 == Unit(op)
  {
    var d := Dual(op);
    if YesNo(e2) {
      ConstantSecond(e1, e2);
    } else if Chain(e1) || Chain(e2) {
      DeepIsClean(d, e2);
      CancelKeepsClean(d, e1, e2);
      YnKeepsBag(d, CancelStep(d, e1, e2).1);
      UnitIsNotClean(op);
      DualOnly(op, e1, e2);
    } else {
      DeepIsFree(e2);
    }
  }

  lemma DualOnly(op: Op, e1: Expr, e2: Expr)
    requires !Is(op, e1) && !Is(op, e2) && (Chain(e1) || Chain(e2))
    ensures EliminateEq(e1, e2).1 == EliminateYn(CancelStep(Dual(op), e1, e2).1)
  {
    var d := Dual(op);
    assert Chain(e1) ==> OpOf(e1) == d;
    assert Chain(e2) ==> OpOf(e2) == d;
    if Chain(e1) && !Chain(e2) {
      CancelLeafShape(d, e1, e2);
    }
    hide CancelStep, EliminateYn;
  }

  /** The whole of expr_eliminate_eq's answer for conditions without removable constants: the second
      comes out as the neutral constant exactly when it was that, or when one of the two is a chain
      and every part of the second is a part of the first. */
  lemma ReducedToUnit(op: Op, e1: Expr, e2: Expr)
    requires Deep(e1) && Deep(e2)
    ensures EliminateEq(e1, e2).1 == Unit(op)
       <==> e2 == Unit(op) || ((Is(op, e1) || Is(op, e2)) && Bag(op, e2) <= Bag(op, e1))
  {
    hide CancelStep, EliminateYn, EliminateEq, Bag, Clean, Deep;
    if !Is(op, e1) && !Is(op, e2) {
      NeitherIsChain(op, e1, e2);
    } else if YesNo(e2) {
      ConstantSecond(e1, e2);
      LeafIs(op, e2);
      if e2 != Unit(op) {
        NoConstantPart(op, e1, e2.sym);
        assert Bag(op, e2) == multiset{KSym(e2.sym)};
      }
    } else if YesNo(e1) {
      ConstantFirst(e1, e2);
      LeafIs(op, e1);
      DeepBag(op, e2);
      assert |Bag(op, e1)| <= 1;
      if Bag(op, e2) <= Bag(op, e1) { SubsetSize(Bag(op, e2), Bag(op, e1)); }
    } else {
      DeepIsClean(op, e1);
      DeepIsClean(op, e2);
      NothingLeft(op, e1, e2);
    }
  }

  lemma SubsetSize<T>(a: multiset<T>, b: multiset<T>)
    requires a <= b
    ensures |a| <= |b|
  {
    assert b == a + (b - a);
  }

  /** Everything the condition b asks for not to be n, the condition a asks for too. */
  ghost predicate AsksForAll(a: Expr, b: Expr) {
    b == Symbol(SymYes) || ((a.And? || b.And?) && Bag(OpAnd, b) <= Bag(OpAnd, a))
  }

  /** An entry passes the test exactly when its condition names the symbol and either demands it in a
      conjunct, or says not to be n at least what the condition of the entry above says. */
  lemma PassesExactly(dep: Expr, s: Symbol, base: Option<Expr>)
    requires Deep(NotNo(Some(dep))) && Deep(NotNo(base))
    ensures BelongsBelow(Some(dep), s, base) <==>
      && s in Symbols(dep)
      && ((exists c :: c in Leaves(OpAnd, dep) && Demands(c, s)) || AsksForAll(NotNo(Some(dep)), NotNo(base)))
  {
    ContainedIsNamed(dep, s);
    DependsOnConjunct(dep, s);
    ReducedToUnit(OpAnd, NotNo(Some(dep)), NotNo(base));
  }

  /** Whatever else its condition is, an entry with a conjunct that demands s is taken in. */
  lemma DemandIsEnough(dep: Expr, s: Symbol, base: Option<Expr>)
    requires exists c :: c in Leaves(OpAnd, dep) && Demands(c, s)
    ensures BelongsBelow(Some(dep), s, base)
  {
    DependsOnConjunct(dep, s);
    DemandIsNamed(dep, s);
  }

  lemma {:induction false} DemandIsNamed(dep: Expr, s: Symbol)
    requires DependsSymbol(dep, s)
    ensures ContainsSymbol(dep, s)
  {
    if dep.And? {
      if DependsSymbol(dep.l, s) { DemandIsNamed(dep.l, s); } else { DemandIsNamed(dep.r, s); }
    }
  }
}
