/** Does the order of the operands matter to expr_eq?  It does when operands hold removable
    constants: then expr_eq need not be transitive, and the walk, which takes the first equal
    operand it meets, can run into a dead end. */
module KconfigArrange {
  import opened KconfigExpr
  import opened KconfigYn
  import opened KconfigEq
  import opened KconfigKeys

  lemma SymbolEqual(e: Expr, f: Expr)
    requires e.Symbol? || f.Symbol?
    ensures ExprEq(e, f) <==> e == f
  {
  }

  /** Two chains of two leaves each, leaf by leaf. */
  lemma TwoByTwo(op: Op, a: Expr, b: Expr, c: Expr, d: Expr)
    requires !Is(op, a) && !Is(op, b)
    ensures var (a1, c1) := CancelStep(op, a, c);
      var (a2, d1) := CancelStep(op, a1, d);
      var (b1, c2) := CancelStep(op, b, c1);
      var (b2, d2) := CancelStep(op, b1, d1);
      CancelStep(op, Mk(op, a, b), Mk(op, c, d)) == (Mk(op, a2, b2), Mk(op, c2, d2))
  {
    hide ExprEq, CancelStep;
    var (a1, c1) := CancelStep(op, a, c);
    FirstUnfolds(op, Mk(op, a, b), Mk(op, c, d));
    SecondUnfolds(op, a, Mk(op, c, d));
    SecondUnfolds(op, b, Mk(op, c1, CancelStep(op, a1, d).1));
  }

  const X := Symbol(Sym(0, Boolean, false))
  const Z := Symbol(Sym(1, Boolean, false))
  const XN := Or(X, Symbol(SymNo))
  const ZN := Or(Z, Symbol(SymNo))

  /** A symbol cancels with nothing but itself. */
  lemma SymbolOutcome(op: Op, e: Expr, f: Expr)
    requires !Is(op, e) && !Is(op, f) && (e.Symbol? || f.Symbol?)
    ensures CancelStep(op, e, f) == if e == f && !YesNo(e) then (Unit(op), Unit(op)) else (e, f)
  {
    LeafOutcome(op, e, f);
    SymbolEqual(e, f);
  }

  lemma FirstIsThird()
    ensures ExprEq(And(XN, ZN), And(XN, Z))
  {
    hide CancelStep, ExprEq, EliminateEq;
    ExprEqReflexive(XN);
    LeafOutcome(OpAnd, XN, XN);
    SymbolOutcome(OpAnd, Unit(OpAnd), Z);
    SymbolOutcome(OpAnd, ZN, Unit(OpAnd));
    SymbolOutcome(OpAnd, ZN, Z);
    TwoByTwo(OpAnd, XN, ZN, XN, Z);
    OneWalk(OpAnd, And(XN, ZN), And(XN, Z));
  }

  lemma SecondIsThird()
    ensures ExprEq(And(X, Z), And(XN, Z))
  {
    hide CancelStep, ExprEq, EliminateEq;
    SymbolOutcome(OpAnd, X, XN);
    SymbolOutcome(OpAnd, X, Z);
    SymbolOutcome(OpAnd, Z, XN);
    SymbolOutcome(OpAnd, Z, Z);
    TwoByTwo(OpAnd, X, Z, XN, Z);
    OneWalk(OpAnd, And(X, Z), And(XN, Z));
  }

  lemma FirstIsNotSecond()
    ensures !ExprEq(And(XN, ZN), And(X, Z))
  {
    hide CancelStep, ExprEq, EliminateEq;
    SymbolOutcome(OpAnd, XN, X);
    SymbolOutcome(OpAnd, XN, Z);
    SymbolOutcome(OpAnd, ZN, X);
    SymbolOutcome(OpAnd, ZN, Z);
    TwoByTwo(OpAnd, XN, ZN, X, Z);
    OneWalk(OpAnd, And(XN, ZN), And(X, Z));
  }

  /** Three operands, the first two equal to the third for expr_eq, and not to each other. */
  lemma NotTransitive()
    ensures ExprEq(And(XN, ZN), And(XN, Z)) && ExprEq(And(X, Z), And(XN, Z))
    ensures !ExprEq(And(XN, ZN), And(X, Z))
  {
    FirstIsThird();
    SecondIsThird();
    FirstIsNotSecond();
  }

  // ---------------------------------------------------------------- when it does not matter

  /** What is equal to a common third is equal. */
  ghost predicate Euclidean(s: set<Expr>) {
    forall a, b, c :: a in s && b in s && c in s && ExprEq(a, c) && ExprEq(b, c) ==> ExprEq(a, b)
  }

  /** Chains made of these operands are equal for expr_eq whenever they have the same operands. */
  ghost predicate OrderFree(op: Op, s: set<Expr>) {
    forall e, f :: Is(op, e) && Is(op, f) && Leaves(op, e) <= s && LeafBag(op, e) == LeafBag(op, f) ==> ExprEq(e, f)
  }

  /** An operand of op that does not come down to a constant. */
  predicate Live(op: Op, e: Expr) {
    !Is(op, e) && !YesNo(EliminateYn(e))
  }

  ghost predicate AllLive(op: Op, s: set<Expr>) {
    forall e :: e in s ==> Live(op, e)
  }

  lemma Class(s: set<Expr>, a: Expr, b: Expr, c: Expr)
    requires Euclidean(s) && a in s && b in s && c in s
    ensures ExprEq(a, b) ==> (ExprEq(a, c) <==> ExprEq(b, c))
    ensures !ExprEq(a, b) ==> !(ExprEq(a, c) && ExprEq(b, c))
  {
    ExprEqReflexive(a);
    ExprEqReflexive(b);
    ExprEqReflexive(c);
  }

  /** How many operands of the chain are equal to c. */
  function Equals(op: Op, c: Expr): Expr -> multiset<()> {
    e => if e != Unit(op) && ExprEq(e, c) then multiset{()} else multiset{}
  }

  function Count(op: Op, c: Expr, e: Expr): nat {
    if Is(op, e) then Count(op, c, e.l) + Count(op, c, e.r)
    else if e != Unit(op) && ExprEq(e, c) then 1 else 0
  }

  lemma {:induction false} CountOfLeaves(op: Op, c: Expr, e: Expr)
    ensures Count(op, c, e) == |Image(Equals(op, c), LeafBag(op, e))|
  {
    if Is(op, e) {
      CountOfLeaves(op, c, e.l);
      CountOfLeaves(op, c, e.r);
      ImageUnion(Equals(op, c), LeafBag(op, e.l), LeafBag(op, e.r));
    } else {
      ImageOne(Equals(op, c), e);
    }
  }

  function Less(a: nat, b: nat): nat {
    if a < b then 0 else a - b
  }

  /** Every operand is one of s, or the neutral constant. */
  ghost predicate Within(op: Op, s: set<Expr>, e: Expr) {
    Leaves(op, e) <= s + {Unit(op)}
  }

  lemma WithinParts(op: Op, s: set<Expr>, e: Expr)
    requires Is(op, e) && Within(op, s, e)
    ensures Within(op, s, e.l) && Within(op, s, e.r)
  {
  }

  lemma CancelStaysWithin(op: Op, s: set<Expr>, e1: Expr, e2: Expr)
    requires Within(op, s, e1) && Within(op, s, e2)
    ensures Within(op, s, CancelStep(op, e1, e2).0) && Within(op, s, CancelStep(op, e1, e2).1)
  {
    hide CancelStep;
    CancelStepExhausts(op, e1, e2);
  }

  lemma {:induction false} CancelCounts(op: Op, s: set<Expr>, c: Expr, e1: Expr, e2: Expr)
    requires Euclidean(s) && c in s
    requires Within(op, s, e1) && Within(op, s, e2)
    requires forall e :: e in s ==> !YesNo(e)
    ensures var r := CancelStep(op, e1, e2);
      && Count(op, c, r.0) == Less(Count(op, c, e1), Count(op, c, e2))
      && Count(op, c, r.1) == Less(Count(op, c, e2), Count(op, c, e1))
    decreases Size(e1) + Size(e2)
  {
    hide Euclidean, CancelStep, ExprEq, Within;
    if Is(op, e1) {
      FirstUnfolds(op, e1, e2);
      WithinParts(op, s, e1);
      CancelStaysWithin(op, s, e1.l, e2);
      CancelCounts(op, s, c, e1.l, e2);
      CancelCounts(op, s, c, e1.r, CancelStep(op, e1.l, e2).1);
    } else if Is(op, e2) {
      SecondUnfolds(op, e1, e2);
      WithinParts(op, s, e2);
      CancelStaysWithin(op, s, e1, e2.l);
      CancelCounts(op, s, c, e1, e2.l);
      CancelCounts(op, s, c, CancelStep(op, e1, e2.l).0, e2.r);
    } else {
      CountOfTwo(op, s, c, e1, e2);
    }
  }

  lemma CountOfTwo(op: Op, s: set<Expr>, c: Expr, e1: Expr, e2: Expr)
    requires Euclidean(s) && c in s && !Is(op, e1) && !Is(op, e2)
    requires Within(op, s, e1) && Within(op, s, e2)
    requires forall e :: e in s ==> !YesNo(e)
    ensures var r := CancelStep(op, e1, e2);
      && Count(op, c, r.0) == Less(Count(op, c, e1), Count(op, c, e2))
      && Count(op, c, r.1) == Less(Count(op, c, e2), Count(op, c, e1))
  {
    hide Euclidean, CancelStep, ExprEq;
    LeafOutcome(op, e1, e2);
    if e1 != Unit(op) && e2 != Unit(op) {
      Class(s, e1, e2, c);
    }
  }

  lemma CountsItself(op: Op, e: Expr)
    requires !Is(op, e) && e != Unit(op)
    ensures Count(op, e, e) == 1
  {
    ExprEqReflexive(e);
  }

  lemma {:induction false} NoCountNoLeaf(op: Op, s: set<Expr>, e: Expr)
    requires Within(op, s, e)
    requires forall c :: c in s ==> Count(op, c, e) == 0
    ensures EliminateYn(e) == Unit(op)
  {
    if Is(op, e) {
      forall c | c in s
        ensures Count(op, c, e.l) == 0 && Count(op, c, e.r) == 0
      {
        assert Count(op, c, e) == 0;
      }
      NoCountNoLeaf(op, s, e.l);
      NoCountNoLeaf(op, s, e.r);
    } else if e != Unit(op) {
      CountsItself(op, e);
    }
  }

  lemma {:induction false} LeavesOfBag(op: Op, e: Expr, x: Expr)
    ensures x in Leaves(op, e) <==> x in LeafBag(op, e)
  {
    if Is(op, e) {
      LeavesOfBag(op, e.l, x);
      LeavesOfBag(op, e.r, x);
    }
  }

  lemma SameLeaves(op: Op, e: Expr, f: Expr)
    requires LeafBag(op, e) == LeafBag(op, f)
    ensures Leaves(op, e) == Leaves(op, f)
  {
    forall x
      ensures x in Leaves(op, e) <==> x in Leaves(op, f)
    {
      LeavesOfBag(op, e, x);
      LeavesOfBag(op, f, x);
    }
  }

  lemma EuclideanSuffices(op: Op, s: set<Expr>, e: Expr, f: Expr)
    requires Euclidean(s) && AllLive(op, s)
    requires Is(op, e) && Is(op, f) && Leaves(op, e) <= s && LeafBag(op, e) == LeafBag(op, f)
    ensures ExprEq(e, f)
  {
    hide Euclidean, CancelStep, ExprEq;
    assert forall x :: x in s ==> !YesNo(x);
    SameLeaves(op, e, f);
    var (g, h) := CancelStep(op, e, f);
    assert Within(op, s, e) && Within(op, s, f);
    CancelStaysWithin(op, s, e, f);
    forall c | c in s
      ensures Count(op, c, g) == 0 && Count(op, c, h) == 0
    {
      CancelCounts(op, s, c, e, f);
      CountOfLeaves(op, c, e);
      CountOfLeaves(op, c, f);
    }
    NoCountNoLeaf(op, s, g);
    NoCountNoLeaf(op, s, h);
    OneWalk(op, e, f);
  }

  // ---------------------------------------------------------------- when it does

  /** 1 for an operand that comes down to the symbol x, 0 for one that comes down to nothing. */
  function Weight(x: Symbol, e: Expr): nat {
    if EliminateYn(e) == Symbol(x) then 1 else 0
  }

  predicate Slight(op: Op, x: Symbol, e: Expr) {
    EliminateYn(e) == Symbol(x) || EliminateYn(e) == Unit(op)
  }

  lemma WeightAdds(op: Op, x: Symbol, l: Expr, r: Expr)
    requires !YesNo(Symbol(x))
    ensures Slight(op, x, Mk(op, l, r)) <==> Slight(op, x, l) && Slight(op, x, r) && Weight(x, l) + Weight(x, r) <= 1
    ensures Slight(op, x, Mk(op, l, r)) ==> Weight(x, Mk(op, l, r)) == Weight(x, l) + Weight(x, r)
  {
    var l', r' := EliminateYn(l), EliminateYn(r);
    assert EliminateYn(Mk(op, l, r)) == Absorb(op, l', r');
    if Slight(op, x, l) && Slight(op, x, r) {
      assert Zero(op) != Symbol(x) && Zero(op) != Unit(op);
    }
  }

  /** A valuation in which x is not the neutral value. */
  lemma TellsApart(op: Op, x: Symbol) returns (v: Valuation)
    requires !YesNo(Symbol(x))
    ensures Respects(v) && Value(Symbol(x), v) != Value(Unit(op), v)
  {
    var t: Tri := if op.OpAnd? then NO else YES;
    AnyAssignmentRespects(s => t, s => "");
    v := Assigned(s => t, s => "");
  }

  lemma EqualWeights(op: Op, x: Symbol, a: Expr, b: Expr)
    requires !YesNo(Symbol(x)) && Slight(op, x, a) && Slight(op, x, b) && ExprEq(a, b)
    ensures Weight(x, a) == Weight(x, b)
  {
    hide ExprEq, EliminateYn, Respects;
    var v := TellsApart(op, x);
    ExprEqSound(a, b, v);
    YnPreservesValue(a, v);
    YnPreservesValue(b, v);
  }

  /** The walk takes the same weight from both sides. */
  lemma {:induction false} CancelWeighs(op: Op, x: Symbol, e1: Expr, e2: Expr)
    requires !YesNo(Symbol(x)) && Slight(op, x, e1) && Slight(op, x, e2)
    ensures var r := CancelStep(op, e1, e2);
      && Slight(op, x, r.0) && Slight(op, x, r.1)
      && Weight(x, r.0) <= Weight(x, e1) && Weight(x, r.1) <= Weight(x, e2)
      && Weight(x, r.0) + Weight(x, e2) == Weight(x, r.1) + Weight(x, e1)
    decreases Size(e1) + Size(e2)
  {
    hide CancelStep, ExprEq, Slight, Weight;
    if Is(op, e1) {
      var (l, f) := CancelStep(op, e1.l, e2);
      FirstUnfolds(op, e1, e2);
      WeightAdds(op, x, e1.l, e1.r);
      CancelWeighs(op, x, e1.l, e2);
      CancelWeighs(op, x, e1.r, f);
      WeightAdds(op, x, l, CancelStep(op, e1.r, f).0);
    } else if Is(op, e2) {
      var (f, l) := CancelStep(op, e1, e2.l);
      SecondUnfolds(op, e1, e2);
      WeightAdds(op, x, e2.l, e2.r);
      CancelWeighs(op, x, e1, e2.l);
      CancelWeighs(op, x, f, e2.r);
      WeightAdds(op, x, l, CancelStep(op, f, e2.r).1);
    } else {
      LeafOutcome(op, e1, e2);
      UnitWeighs(op, x);
      if ExprEq(e1, e2) { EqualWeights(op, x, e1, e2); }
    }
  }

  lemma UnitWeighs(op: Op, x: Symbol)
    requires !YesNo(Symbol(x))
    ensures Slight(op, x, Unit(op)) && Weight(x, Unit(op)) == 0
  {
  }

  /** Chains of one operator that come down to the same symbol are equal for expr_eq. */
  lemma SameSymbol(op: Op, x: Symbol, a: Expr, b: Expr)
    requires !YesNo(Symbol(x)) && Is(op, a) && Is(op, b)
    requires EliminateYn(a) == Symbol(x) == EliminateYn(b)
    ensures ExprEq(a, b)
  {
    CancelWeighs(op, x, a, b);
    OneWalk(op, a, b);
  }

  /** Operands that are equal for expr_eq without being the same are of one kind. */
  predicate OneKind(op: Op, p: Expr, q: Expr) {
    (p.Not? && q.Not?) || (Is(Dual(op), p) && Is(Dual(op), q))
  }

  lemma EqualKinds(op: Op, a: Expr, b: Expr)
    requires ExprEq(a, b) && !Is(op, a) && !Is(op, b)
    ensures OneKind(op, a, b) || a == b
  {
  }

  lemma LeftOver(op: Op, p: Expr, q: Expr)
    requires Live(op, p) && Live(op, q) && !ExprEq(p, q) && OneKind(op, p, q)
    ensures !(EliminateYn(p).Symbol? && EliminateYn(p) == EliminateYn(q))
  {
    if EliminateYn(p).Symbol? && EliminateYn(p) == EliminateYn(q) {
      SameSymbol(Dual(op), EliminateYn(p).sym, p, q);
    }
  }

  lemma UnitsVanish(op: Op, u: Expr, p: Expr)
    requires EliminateYn(u) == Unit(op) && Live(op, p)
    ensures EliminateYn(Mk(op, u, p)) == EliminateYn(p)
  {
  }

  /** Were equality not symmetric, two operands in both orders would show it. */
  lemma TwoFail(op: Op, p: Expr, q: Expr)
    requires Live(op, p) && Live(op, q) && ExprEq(p, q) && !ExprEq(q, p)
    ensures !ExprEq(Mk(op, p, q), Mk(op, q, p))
  {
    hide ExprEq, CancelStep, EliminateYn, EliminateEq;
    ExprEqReflexive(p);
    EqualKinds(op, p, q);
    TwoByTwo(op, p, q, q, p);
    LiveOutcome(op, p, q);
    LiveOutcome(op, q, p);
    OneWalk(op, Mk(op, p, q), Mk(op, q, p));
    BlankIsUnit(op);
    UnitsVanish(op, Unit(op), p);
    UnitsVanish(op, Unit(op), q);
    LeftOver(op, q, p);
  }

  lemma BlankIsUnit(op: Op)
    ensures EliminateYn(Unit(op)) == Unit(op) && EliminateYn(Mk(op, Unit(op), Unit(op))) == Unit(op)
  {
  }

  lemma LiveOutcome(op: Op, p: Expr, q: Expr)
    requires Live(op, p) && Live(op, q)
    ensures CancelStep(op, p, q) == if ExprEq(p, q) then (Unit(op), Unit(op)) else (p, q)
    ensures CancelStep(op, Unit(op), q) == (Unit(op), q)
    ensures CancelStep(op, p, Unit(op)) == (p, Unit(op))
    ensures CancelStep(op, Unit(op), Unit(op)) == (Unit(op), Unit(op))
  {
    LeafOutcome(op, p, q);
    LeafOutcome(op, Unit(op), q);
    LeafOutcome(op, p, Unit(op));
    LeafOutcome(op, Unit(op), Unit(op));
  }

  /** A leaf against three leaves. */
  lemma OneByThree(op: Op, x: Expr, a: Expr, b: Expr, c: Expr)
    requires !Is(op, x)
    ensures var (x1, a') := CancelStep(op, x, a);
      !Is(op, x1) ==>
        var (x2, b') := CancelStep(op, x1, b);
        !Is(op, x2) ==>
          var (x3, c') := CancelStep(op, x2, c);
          CancelStep(op, x, Mk(op, Mk(op, a, b), c)) == (x3, Mk(op, Mk(op, a', b'), c'))
  {
    hide CancelStep;
    SecondUnfolds(op, x, Mk(op, Mk(op, a, b), c));
    SecondUnfolds(op, x, Mk(op, a, b));
  }

  /** b takes c, c takes a, and a is left beside b. */
  lemma ThreeFail(op: Op, a: Expr, b: Expr, c: Expr)
    requires Live(op, a) && Live(op, b) && Live(op, c)
    requires ExprEq(b, c) && ExprEq(c, a) && !ExprEq(a, b)
    ensures !ExprEq(Mk(op, Mk(op, b, c), a), Mk(op, Mk(op, c, a), b))
  {
    hide ExprEq, CancelStep, EliminateYn, EliminateEq;
    var u := Unit(op);
    var e, f := Mk(op, Mk(op, b, c), a), Mk(op, Mk(op, c, a), b);
    ThreeWalk(op, a, b, c);
    OneWalk(op, e, f);
    BlankIsUnit(op);
    UnitsVanish(op, Mk(op, u, u), a);
    UnitsVanish(op, Mk(op, u, u), b);
    ThreeKinds(op, a, b, c);
    LeftOver(op, a, b);
  }

  lemma ThreeKinds(op: Op, a: Expr, b: Expr, c: Expr)
    requires !Is(op, a) && !Is(op, b) && !Is(op, c)
    requires ExprEq(b, c) && ExprEq(c, a) && !ExprEq(a, b)
    ensures OneKind(op, a, b)
  {
    hide ExprEq;
    ExprEqReflexive(a);
    EqualKinds(op, b, c);
    EqualKinds(op, c, a);
    assert b == c ==> OneKind(op, a, b);
  }

  lemma ThreeWalk(op: Op, a: Expr, b: Expr, c: Expr)
    requires Live(op, a) && Live(op, b) && Live(op, c)
    requires ExprEq(b, c) && ExprEq(c, a) && !ExprEq(a, b)
    ensures var u := Unit(op);
      CancelStep(op, Mk(op, Mk(op, b, c), a), Mk(op, Mk(op, c, a), b))
      == (Mk(op, Mk(op, u, u), a), Mk(op, Mk(op, u, u), b))
  {
    hide ExprEq, CancelStep;
    var u := Unit(op);
    LiveOutcome(op, b, c);
    LiveOutcome(op, c, a);
    LiveOutcome(op, a, b);
    OneByThree(op, b, c, a, b);
    OneByThree(op, c, u, a, b);
    OneByThree(op, a, u, u, b);
    FirstUnfolds(op, Mk(op, Mk(op, b, c), a), Mk(op, Mk(op, c, a), b));
    FirstUnfolds(op, Mk(op, b, c), Mk(op, Mk(op, c, a), b));
  }

  /** Operands none of which comes down to a constant: their order and grouping never shows in
      expr_eq exactly when what is equal to a common third is equal. */
  lemma OrderFreeExactly(op: Op, s: set<Expr>)
    requires AllLive(op, s)
    ensures OrderFree(op, s) <==> Euclidean(s)
  {
    if Euclidean(s) {
      forall e, f | Is(op, e) && Is(op, f) && Leaves(op, e) <= s && LeafBag(op, e) == LeafBag(op, f)
        ensures ExprEq(e, f)
      {
        EuclideanSuffices(op, s, e, f);
      }
    } else {
      var a, b, c :| a in s && b in s && c in s && ExprEq(a, c) && ExprEq(b, c) && !ExprEq(a, b);
      Disorder(op, s, a, b, c);
    }
  }

  lemma Disorder(op: Op, s: set<Expr>, a: Expr, b: Expr, c: Expr)
    requires AllLive(op, s) && a in s && b in s && c in s
    requires ExprEq(a, c) && ExprEq(b, c) && !ExprEq(a, b)
    ensures !OrderFree(op, s)
  {
    hide ExprEq, EliminateYn, Leaves, LeafBag;
    if ExprEq(c, a) {
      ThreeFail(op, a, b, c);
      ThreeLeaves(op, a, b, c);
    } else {
      TwoFail(op, a, c);
      TwoLeaves(op, a, c);
      TwoLeaves(op, c, a);
    }
  }

  lemma TwoLeaves(op: Op, p: Expr, q: Expr)
    requires !Is(op, p) && !Is(op, q)
    ensures Leaves(op, Mk(op, p, q)) == {p, q}
    ensures LeafBag(op, Mk(op, p, q)) == LeafBag(op, Mk(op, q, p))
  {
  }

  lemma ThreeLeaves(op: Op, a: Expr, b: Expr, c: Expr)
    requires !Is(op, a) && !Is(op, b) && !Is(op, c)
    ensures Leaves(op, Mk(op, Mk(op, b, c), a)) == {a, b, c}
    ensures LeafBag(op, Mk(op, Mk(op, b, c), a)) == LeafBag(op, Mk(op, Mk(op, c, a), b))
  {
    LeafBagMk(op, Mk(op, b, c), a);
    LeafBagMk(op, Mk(op, c, a), b);
    LeafBagMk(op, b, c);
    LeafBagMk(op, c, a);
  }

  lemma LeafBagMk(op: Op, l: Expr, r: Expr)
    ensures LeafBag(op, Mk(op, l, r)) == LeafBag(op, l) + LeafBag(op, r)
    ensures Leaves(op, Mk(op, l, r)) == Leaves(op, l) + Leaves(op, r)
    ensures !Is(op, l) ==> LeafBag(op, l) == multiset{l} && Leaves(op, l) == {l}
    ensures !Is(op, r) ==> LeafBag(op, r) == multiset{r} && Leaves(op, r) == {r}
  {
  }

  /** Operands without removable constants are such, and the three at the top are not. */
  lemma DeepIsOrderFree(op: Op, s: set<Expr>)
    requires forall e :: e in s ==> !Is(op, e) && Deep(e) && !YesNo(e)
    ensures AllLive(op, s) && OrderFree(op, s)
  {
    forall e | e in s
      ensures Live(op, e)
    {
      DeepIsFree(e);
    }
    forall a, b, c | a in s && b in s && c in s && ExprEq(a, c) && ExprEq(b, c)
      ensures ExprEq(a, b)
    {
      ExprEqExactly(a, c);
      ExprEqExactly(b, c);
      ExprEqExactly(a, b);
    }
    OrderFreeExactly(op, s);
  }

  lemma OrderShows()
    ensures !OrderFree(OpOr, {And(XN, ZN), And(X, Z), And(XN, Z)})
  {
    ThreeOperands();
    hide ExprEq, EliminateYn, OrderFree;
    NotTransitive();
    Disorder(OpOr, {And(XN, ZN), And(X, Z), And(XN, Z)}, And(XN, ZN), And(X, Z), And(XN, Z));
  }

  lemma ThreeOperands()
    ensures Live(OpOr, And(XN, ZN)) && Live(OpOr, And(X, Z)) && Live(OpOr, And(XN, Z))
  {
    assert EliminateYn(XN) == X && EliminateYn(ZN) == Z;
  }
}
