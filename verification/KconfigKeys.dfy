/** What expr_eq decides, said without expr_eq: an expression is read as nested bags of parts, in
    which neither the order nor the grouping of a chain shows, and two expressions that hold no
    removable constant are equal for expr_eq exactly when their readings are. */
module KconfigKeys {
  import opened KconfigExpr
  import opened KconfigYn
  import opened KconfigEq

  /** An expression up to the order and grouping of its and/or chains. */
  datatype Canon =
    | KSym(s: Symbol)
    | KCmp(rel: Rel, left: Symbol, right: Symbol)
    | KNot(k: Canon)
    | KChain(op: Op, parts: multiset<Canon>)

  function Key(e: Expr): Canon
    decreases e, 1
  {
    match e
    case Symbol(s) => KSym(s)
    case Cmp(rel, l, r) => KCmp(rel, l, r)
    case Not(a) => KNot(Key(a))
    case And(_, _) => KChain(OpAnd, Bag(OpAnd, e))
    case Or(_, _) => KChain(OpOr, Bag(OpOr, e))
  }

  /** The parts of a chain of op, its neutral constants left out. */
  function Bag(op: Op, e: Expr): multiset<Canon>
    decreases e, if Is(op, e) then 0 else 2
  {
    if Is(op, e) then Bag(op, e.l) + Bag(op, e.r)
    else if e == Unit(op) then multiset{}
    else multiset{Key(e)}
  }

  /** No 'y' or 'n' is an operand of an and/or anywhere, not even below a negation. */
  predicate Deep(e: Expr) {
    match e
    case Symbol(_) => true
    case Cmp(_, _, _) => true
    case Not(a) => Deep(a)
    case And(l, r) => !YesNo(l) && !YesNo(r) && Deep(l) && Deep(r)
    case Or(l, r) => !YesNo(l) && !YesNo(r) && Deep(l) && Deep(r)
  }

  /** A chain of op whose operands are the neutral constant or free of removable constants. */
  predicate Clean(op: Op, e: Expr) {
    if Is(op, e) then Clean(op, e.l) && Clean(op, e.r)
    else e == Unit(op) || (!YesNo(e) && Deep(e))
  }

  lemma {:induction false} DeepIsClean(op: Op, e: Expr)
    requires Deep(e) && (Is(op, e) || !YesNo(e))
    ensures Clean(op, e)
  {
    if Is(op, e) {
      DeepIsClean(op, e.l);
      DeepIsClean(op, e.r);
    }
  }

  lemma {:induction false} DeepIsFree(e: Expr)
    requires Deep(e)
    ensures EliminateYn(e) == e
  {
    if Chain(e) {
      DeepIsFree(e.l);
      DeepIsFree(e.r);
    }
  }

  // ---------------------------------------------------------------- the walk is a difference

  /** Taking l and then r away from b, and b away from them, one part after the other. */
  lemma Difference<T>(l: multiset<T>, r: multiset<T>, b: multiset<T>)
    ensures (l - b) + (r - (b - l)) == (l + r) - b
    ensures (b - l) - r == b - (l + r)
  {
  }

  lemma FirstUnfolds(op: Op, e1: Expr, e2: Expr)
    requires Is(op, e1)
    ensures var (l, f) := CancelStep(op, e1.l, e2);
      var (r, g) := CancelStep(op, e1.r, f);
      CancelStep(op, e1, e2) == (Mk(op, l, r), g)
  {
  }

  lemma SecondUnfolds(op: Op, e1: Expr, e2: Expr)
    requires !Is(op, e1) && Is(op, e2)
    ensures var (f, l) := CancelStep(op, e1, e2.l);
      var (g, r) := CancelStep(op, f, e2.r);
      CancelStep(op, e1, e2) == (g, Mk(op, l, r))
  {
  }

  lemma ChainIs(op: Op, e: Expr)
    requires Is(op, e)
    ensures Bag(op, e) == Bag(op, e.l) + Bag(op, e.r)
    ensures Clean(op, e) <==> Clean(op, e.l) && Clean(op, e.r)
  {
  }

  /** The walk over two clean chains takes from each what the other has, however the two are
      grouped or ordered. */
  lemma {:induction false} CancelDifference(op: Op, e1: Expr, e2: Expr)
    requires Clean(op, e1) && Clean(op, e2)
    ensures var r := CancelStep(op, e1, e2);
      && Clean(op, r.0) && Bag(op, r.0) == Bag(op, e1) - Bag(op, e2)
      && Clean(op, r.1) && Bag(op, r.1) == Bag(op, e2) - Bag(op, e1)
    decreases Size(e1) + Size(e2), StepRank(op, e1, e2), 1
  {
    hide CancelStep, Clean, Bag;
    if Is(op, e1) {
      var (l, e2') := CancelStep(op, e1.l, e2);
      var (r, e2'') := CancelStep(op, e1.r, e2');
      FirstUnfolds(op, e1, e2);
      ChainIs(op, e1);
      ChainIs(op, Mk(op, l, r));
      CancelDifference(op, e1.l, e2);
      CancelDifference(op, e1.r, e2');
      Difference(Bag(op, e1.l), Bag(op, e1.r), Bag(op, e2));
    } else if Is(op, e2) {
      var (e1', l) := CancelStep(op, e1, e2.l);
      var (e1'', r) := CancelStep(op, e1', e2.r);
      SecondUnfolds(op, e1, e2);
      ChainIs(op, e2);
      ChainIs(op, Mk(op, l, r));
      CancelDifference(op, e1, e2.l);
      CancelDifference(op, e1', e2.r);
      Difference(Bag(op, e2.l), Bag(op, e2.r), Bag(op, e1));
    } else {
      LeafDifference(op, e1, e2);
    }
  }

  lemma {:induction false} LeafDifference(op: Op, e1: Expr, e2: Expr)
    requires Clean(op, e1) && Clean(op, e2) && !Is(op, e1) && !Is(op, e2)
    ensures var r := CancelStep(op, e1, e2);
      && Clean(op, r.0) && Bag(op, r.0) == Bag(op, e1) - Bag(op, e2)
      && Clean(op, r.1) && Bag(op, r.1) == Bag(op, e2) - Bag(op, e1)
    decreases Size(e1) + Size(e2), 4, 0
  {
    hide CancelStep, ExprEq, Key, Deep;
    LeafIs(op, e1);
    LeafIs(op, e2);
    LeafOutcome(op, e1, e2);
    if e1 != Unit(op) && e2 != Unit(op) {
      ExprEqExactly(e1, e2);
    }
  }

  /** Two leaves: the same constant stays, equal ones go. */
  lemma LeafOutcome(op: Op, e1: Expr, e2: Expr)
    requires !Is(op, e1) && !Is(op, e2)
    ensures CancelStep(op, e1, e2)
         == if ExprEq(e1, e2) && !(YesNo(e1) && e1 == e2) then (Unit(op), Unit(op)) else (e1, e2)
    ensures e1 == Unit(op) || e2 == Unit(op) ==> CancelStep(op, e1, e2) == (e1, e2)
  {
  }

  lemma LeafIs(op: Op, e: Expr)
    requires !Is(op, e)
    ensures Bag(op, e) == if e == Unit(op) then multiset{} else multiset{Key(e)}
    ensures Clean(op, e) <==> e == Unit(op) || (!YesNo(e) && Deep(e))
    ensures Clean(op, Unit(op)) && Bag(op, Unit(op)) == multiset{}
  {
  }

  lemma AbsorbKeepsBag(op: Op, l: Expr, r: Expr)
    requires Clean(op, l) && Clean(op, r)
    requires l == Unit(op) <==> Bag(op, l) == multiset{}
    requires r == Unit(op) <==> Bag(op, r) == multiset{}
    ensures Clean(op, Absorb(op, l, r)) && Bag(op, Absorb(op, l, r)) == Bag(op, l) + Bag(op, r)
    ensures Absorb(op, l, r) == Unit(op) <==> Bag(op, l) + Bag(op, r) == multiset{}
  {
    assert l != Zero(op) && r != Zero(op);
    if l != Unit(op) && r != Unit(op) {
      assert Absorb(op, l, r) == Mk(op, l, r);
      assert exists k :: k in Bag(op, l);
    }
  }

  lemma YnOfChain(op: Op, e: Expr)
    requires Is(op, e)
    ensures EliminateYn(e) == Absorb(op, EliminateYn(e.l), EliminateYn(e.r))
    ensures Bag(op, e) == Bag(op, e.l) + Bag(op, e.r)
  {
  }

  /** Removing constants from a clean chain keeps its parts, and comes to the neutral constant
      exactly when there are none. */
  lemma {:induction false} YnKeepsBag(op: Op, e: Expr)
    requires Clean(op, e)
    ensures Clean(op, EliminateYn(e)) && Bag(op, EliminateYn(e)) == Bag(op, e)
    ensures EliminateYn(e) == Unit(op) <==> Bag(op, e) == multiset{}
  {
    if Is(op, e) {
      YnKeepsBag(op, e.l);
      YnKeepsBag(op, e.r);
      YnOfChain(op, e);
      AbsorbKeepsBag(op, EliminateYn(e.l), EliminateYn(e.r));
    } else if e != Unit(op) {
      DeepIsFree(e);
    }
  }

  /** On two chains of one operator the elimination is one walk and the removal of constants. */
  lemma OneWalk(op: Op, e: Expr, f: Expr)
    requires Is(op, e) && Is(op, f)
    ensures var (g, h) := CancelStep(op, e, f); EliminateEq(e, f) == (EliminateYn(g), EliminateYn(h))
    ensures ExprEq(e, f) <==> EliminateEq(e, f).0.Symbol? && EliminateEq(e, f).0 == EliminateEq(e, f).1
  {
    hide CancelStep, EliminateYn;
    assert OpOf(e) == op == OpOf(f);
  }

  /** Two clean chains of one operator are equal for expr_eq exactly when they have the same parts. */
  lemma {:induction false} ChainsEqual(op: Op, e: Expr, f: Expr)
    requires Is(op, e) && Is(op, f) && Clean(op, e) && Clean(op, f)
    ensures ExprEq(e, f) <==> Bag(op, e) == Bag(op, f)
    decreases Size(e) + Size(f), 1
  {
    hide CancelStep, EliminateYn, EliminateEq, ExprEq, Bag, Clean, Deep;
    var (g, h) := CancelStep(op, e, f);
    CancelDifference(op, e, f);
    YnKeepsBag(op, g);
    YnKeepsBag(op, h);
    OneWalk(op, e, f);
    var a, b := Bag(op, e), Bag(op, f);
    var x := EliminateYn(g);
    if x.Symbol? && x == EliminateYn(h) {
      SameDifference(a, b);
    }
  }

  lemma SameDifference<T>(a: multiset<T>, b: multiset<T>)
    requires a - b == b - a
    ensures a == b
  {
    forall x ensures a[x] == b[x] {
      assert (a - b)[x] == (b - a)[x];
    }
  }

  /** expr_eq on expressions without removable constants: equality up to order and grouping. */
  lemma {:induction false} ExprEqExactly(e: Expr, f: Expr)
    requires Deep(e) && Deep(f)
    ensures ExprEq(e, f) <==> Key(e) == Key(f)
    decreases Size(e) + Size(f), 3
  {
    if e.Not? && f.Not? {
      ExprEqExactly(e.e, f.e);
    } else if Chain(e) && Chain(f) && OpOf(e) == OpOf(f) {
      DeepIsClean(OpOf(e), e);
      DeepIsClean(OpOf(e), f);
      ChainsEqual(OpOf(e), e, f);
    }
  }

  // ---------------------------------------------------------------- the operands themselves

  /** The operands of a chain, by structure alone. */
  function LeafBag(op: Op, e: Expr): multiset<Expr> {
    if Is(op, e) then LeafBag(op, e.l) + LeafBag(op, e.r) else multiset{e}
  }

  /** What f says of the members of a multiset, together. */
  ghost function Image<T>(f: Expr -> multiset<T>, m: multiset<Expr>): multiset<T>
    decreases |m|
  {
    if m == multiset{} then multiset{}
    else
      var e :| e in m;
      f(e) + Image(f, m - multiset{e})
  }

  lemma ImageChoice<T>(f: Expr -> multiset<T>, m: multiset<Expr>) returns (e: Expr)
    requires m != multiset{}
    ensures e in m && Image(f, m) == f(e) + Image(f, m - multiset{e})
  {
    e :| e in m && Image(f, m) == f(e) + Image(f, m - multiset{e});
  }

  lemma TakeTwo<T>(m: multiset<T>, e: T, f: T)
    requires e in m && f in m && e != f
    ensures e in m - multiset{f} && f in m - multiset{e}
    ensures m - multiset{f} - multiset{e} == m - multiset{e} - multiset{f}
  {
  }

  lemma {:induction false} ImageTake<T>(f: Expr -> multiset<T>, m: multiset<Expr>, e: Expr)
    requires e in m
    ensures Image(f, m) == f(e) + Image(f, m - multiset{e})
    decreases |m|
  {
    hide Image;
    var d := ImageChoice(f, m);
    if d != e {
      TakeTwo(m, e, d);
      ImageTake(f, m - multiset{d}, e);
      ImageTake(f, m - multiset{e}, d);
      var rest := Image(f, m - multiset{e} - multiset{d});
      assert f(d) + (f(e) + rest) == f(e) + (f(d) + rest);
    }
  }

  lemma TakeFromUnion<T>(m: multiset<T>, n: multiset<T>, e: T)
    requires e in m
    ensures e in m + n && m + n - multiset{e} == (m - multiset{e}) + n
  {
  }

  lemma ImageNone<T>(f: Expr -> multiset<T>, n: multiset<Expr>)
    ensures Image(f, multiset{}) == multiset{} && multiset{} + n == n
  {
  }

  lemma {:induction false} ImageUnion<T>(f: Expr -> multiset<T>, m: multiset<Expr>, n: multiset<Expr>)
    ensures Image(f, m + n) == Image(f, m) + Image(f, n)
    decreases |m|
  {
    hide Image;
    if m == multiset{} {
      ImageNone(f, n);
    } else {
      var e :| e in m;
      ImageTake(f, m, e);
      TakeFromUnion(m, n, e);
      ImageTake(f, m + n, e);
      ImageUnion(f, m - multiset{e}, n);
    }
  }

  lemma ImageOne<T>(f: Expr -> multiset<T>, e: Expr)
    ensures Image(f, multiset{e}) == f(e)
  {
    ImageTake(f, multiset{e}, e);
    assert multiset{e} - multiset{e} == multiset{};
  }

  function Keys(op: Op): Expr -> multiset<Canon> {
    e => if e == Unit(op) then multiset{} else multiset{Key(e)}
  }

  lemma {:induction false} BagIsKeys(op: Op, e: Expr)
    ensures Bag(op, e) == Image(Keys(op), LeafBag(op, e))
  {
    if Is(op, e) {
      BagIsKeys(op, e.l);
      BagIsKeys(op, e.r);
      ImageUnion(Keys(op), LeafBag(op, e.l), LeafBag(op, e.r));
    } else {
      ImageOne(Keys(op), e);
    }
  }

  lemma FewerLeaves(op: Op, e: Expr, f: Expr)
    requires LeafBag(op, f) <= LeafBag(op, e)
    ensures Bag(op, f) <= Bag(op, e)
  {
    BagIsKeys(op, e);
    BagIsKeys(op, f);
    var rest := LeafBag(op, e) - LeafBag(op, f);
    ImageUnion(Keys(op), LeafBag(op, f), rest);
    assert LeafBag(op, f) + rest == LeafBag(op, e);
  }

  /** Two chains of the same operands, however grouped and ordered, are equal for expr_eq. */
  lemma SameOperands(op: Op, e: Expr, f: Expr)
    requires Is(op, e) && Is(op, f) && Clean(op, e) && Clean(op, f)
    requires LeafBag(op, e) == LeafBag(op, f)
    ensures ExprEq(e, f)
  {
    FewerLeaves(op, e, f);
    FewerLeaves(op, f, e);
    ChainsEqual(op, e, f);
  }

  // ---------------------------------------------------------------- chains of symbols and comparisons

  /** An operand that is a symbol or a comparison, and not the absorbing constant. */
  predicate Plain(op: Op, e: Expr) {
    (e.Symbol? || e.Cmp?) && e != Zero(op)
  }

  predicate AllPlain(op: Op, e: Expr) {
    if Is(op, e) then AllPlain(op, e.l) && AllPlain(op, e.r) else Plain(op, e)
  }

  /** The operands that are not the neutral constant. */
  function Operands(op: Op, e: Expr): multiset<Expr> {
    LeafBag(op, e)[Unit(op) := 0]
  }

  /** The operand a plain key comes from. */
  function Unkey(k: Canon): Expr
    requires k.KSym? || k.KCmp?
  {
    if k.KSym? then Symbol(k.s) else Cmp(k.rel, k.left, k.right)
  }

  /** How often the operand behind the key k stands in the chain. */
  function Part(op: Op, e: Expr, k: Canon): nat {
    if k.KSym? || k.KCmp? then Operands(op, e)[Unkey(k)] else 0
  }

  lemma PartAdds(op: Op, e: Expr, k: Canon)
    requires Is(op, e)
    ensures Part(op, e, k) == Part(op, e.l, k) + Part(op, e.r, k)
  {
  }

  lemma PartOfLeaf(op: Op, e: Expr, k: Canon)
    requires !Is(op, e) && Plain(op, e)
    ensures Clean(op, e) && Bag(op, e)[k] == Part(op, e, k)
  {
    LeafIs(op, e);
    assert e.Symbol? ==> Key(e) == KSym(e.sym);
    assert e.Cmp? ==> Key(e) == KCmp(e.rel, e.left, e.right);
    hide Bag, Clean;
  }

  lemma {:induction false} PlainPart(op: Op, e: Expr, k: Canon)
    requires AllPlain(op, e)
    ensures Clean(op, e) && Bag(op, e)[k] == Part(op, e, k)
  {
    hide Bag, Clean, Part;
    if Is(op, e) {
      PlainPart(op, e.l, k);
      PlainPart(op, e.r, k);
      ChainIs(op, e);
      PartAdds(op, e, k);
    } else {
      PartOfLeaf(op, e, k);
    }
  }

  lemma {:induction false} PlainOperand(op: Op, e: Expr, x: Expr)
    requires AllPlain(op, e) && x in LeafBag(op, e)
    ensures Plain(op, x)
  {
    if Is(op, e) {
      if x in LeafBag(op, e.l) { PlainOperand(op, e.l, x); } else { PlainOperand(op, e.r, x); }
    }
  }

  lemma SamePartsSameOperands(op: Op, e: Expr, f: Expr)
    requires AllPlain(op, e) && AllPlain(op, f) && Bag(op, e) == Bag(op, f)
    ensures Operands(op, e) == Operands(op, f)
  {
    hide Bag, LeafBag, AllPlain, Clean;
    forall x ensures Operands(op, e)[x] == Operands(op, f)[x] {
      if x.Symbol? || x.Cmp? {
        assert Unkey(Key(x)) == x;
        PlainPart(op, e, Key(x));
        PlainPart(op, f, Key(x));
      } else {
        if x in LeafBag(op, e) { PlainOperand(op, e, x); }
        if x in LeafBag(op, f) { PlainOperand(op, f, x); }
      }
    }
  }

  /** Chains of symbols and comparisons: equal for expr_eq exactly when the operands that are not
      the neutral constant are the same ones, each as often. */
  lemma PlainChainsEqual(op: Op, e: Expr, f: Expr)
    requires Is(op, e) && Is(op, f) && AllPlain(op, e) && AllPlain(op, f)
    ensures ExprEq(e, f) <==> Operands(op, e) == Operands(op, f)
  {
    hide Bag, Operands, AllPlain, Clean, ExprEq;
    forall k ensures Operands(op, e) == Operands(op, f) ==> Bag(op, e)[k] == Bag(op, f)[k]
    {
      PlainPart(op, e, k);
      PlainPart(op, f, k);
    }
    PlainPart(op, e, Key(e));
    PlainPart(op, f, Key(f));
    ChainsEqual(op, e, f);
    if Bag(op, e) == Bag(op, f) {
      SamePartsSameOperands(op, e, f);
    }
  }

  // ---------------------------------------------------------------- expr_eliminate_eq

  /** Two clean chains of one operator: what is left of each is what the other has not. */
  lemma EliminateLeavesDifference(op: Op, e1: Expr, e2: Expr)
    requires Is(op, e1) && Is(op, e2) && Clean(op, e1) && Clean(op, e2)
    ensures var r := EliminateEq(e1, e2);
      && Bag(op, r.0) == Bag(op, e1) - Bag(op, e2)
      && Bag(op, r.1) == Bag(op, e2) - Bag(op, e1)
  {
    hide CancelStep, EliminateYn, EliminateEq, ExprEq, Bag, Clean;
    var (g, h) := CancelStep(op, e1, e2);
    CancelDifference(op, e1, e2);
    YnKeepsBag(op, g);
    YnKeepsBag(op, h);
    OneWalk(op, e1, e2);
  }

  function Dual(op: Op): Op {
    if op.OpAnd? then OpOr else OpAnd
  }

  lemma LessIsSubset<T>(a: multiset<T>, b: multiset<T>)
    ensures a - b == multiset{} <==> a <= b
  {
    forall x | a - b == multiset{}
      ensures a[x] <= b[x]
    {
      assert (a - b)[x] == 0;
    }
  }

  /** One side is a chain of op: the second result is the neutral constant exactly when everything
      in the second side is in the first. */
  lemma NothingLeft(op: Op, e1: Expr, e2: Expr)
    requires Is(op, e1) || Is(op, e2)
    requires Clean(op, e1) && Clean(op, e2) && (Chain(e1) && !Is(op, e1) ==> Deep(e2))
    ensures EliminateEq(e1, e2).1 == Unit(op) <==> Bag(op, e2) <= Bag(op, e1)
  {
    LessIsSubset(Bag(op, e2), Bag(op, e1));
    if Is(op, e1) {
      FirstIsChain(op, e1, e2);
    } else if Chain(e1) {
      FirstIsDual(op, e1, e2);
    } else {
      SecondIsChain(op, e1, e2);
    }
  }

  lemma FirstIsChain(op: Op, e1: Expr, e2: Expr)
    requires Is(op, e1) && Clean(op, e1) && Clean(op, e2)
    ensures EliminateEq(e1, e2).1 == Unit(op) <==> Bag(op, e2) - Bag(op, e1) == multiset{}
  {
    hide CancelStep, EliminateYn, EliminateEq, Bag, Key;
    var (g, h) := CancelStep(op, e1, e2);
    CancelDifference(op, e1, e2);
    YnKeepsBag(op, h);
    FirstWalk(op, e1, e2);
    if Is(Dual(op), h) {
      LeafIs(op, h);
      CancelLeafShape(op, e1, e2);
      assert h == e2;
      DualNotUnit(op, g, h);
    }
  }

  lemma FirstWalk(op: Op, e1: Expr, e2: Expr)
    requires Is(op, e1)
    ensures var (g, h) := CancelStep(op, e1, e2);
      EliminateEq(e1, e2).1 == EliminateYn(if Is(Dual(op), h) then CancelStep(Dual(op), g, h).1 else h)
  {
    hide CancelStep, EliminateYn;
    assert OpOf(e1) == op;
  }

  /** Walking a chain of the other operator leaves a chain of it, or its own neutral constant. */
  lemma DualNotUnit(op: Op, g: Expr, h: Expr)
    requires Is(Dual(op), h)
    requires Deep(h)
    ensures EliminateYn(CancelStep(Dual(op), g, h).1) != Unit(op)
  {
    var d := Dual(op);
    DeepIsClean(d, h);
    CancelKeepsClean(d, g, h);
    YnKeepsBag(d, CancelStep(d, g, h).1);
    UnitIsNotClean(op);
  }

  lemma UnitIsNotClean(op: Op)
    ensures !Clean(Dual(op), Unit(op))
  {
  }

  /** Whatever stands on the first side, cancelling only puts neutral constants into the second. */
  lemma {:induction false} CancelKeepsClean(op: Op, e1: Expr, e2: Expr)
    requires Clean(op, e2)
    ensures Clean(op, CancelStep(op, e1, e2).1)
    decreases Size(e1) + Size(e2), StepRank(op, e1, e2)
  {
    if Is(op, e1) {
      CancelKeepsClean(op, e1.l, e2);
      CancelKeepsClean(op, e1.r, CancelStep(op, e1.l, e2).1);
    } else if Is(op, e2) {
      CancelKeepsClean(op, e1, e2.l);
      CancelKeepsClean(op, CancelStep(op, e1, e2.l).0, e2.r);
    }
  }

  lemma SecondIsChain(op: Op, e1: Expr, e2: Expr)
    requires !Chain(e1) && Is(op, e2) && Clean(op, e1) && Clean(op, e2)
    ensures EliminateEq(e1, e2).1 == Unit(op) <==> Bag(op, e2) - Bag(op, e1) == multiset{}
  {
    var (g, h) := CancelStep(op, e1, e2);
    CancelDifference(op, e1, e2);
    YnKeepsBag(op, h);
    hide CancelStep, EliminateYn, Bag, Clean;
    assert OpOf(e2) == op;
    assert EliminateEq(e1, e2).1 == EliminateYn(h);
  }

  lemma {:induction false} DeepBag(op: Op, e: Expr)
    requires Deep(e) && (Is(op, e) || !YesNo(e))
    ensures |Bag(op, e)| >= if Is(op, e) then 2 else 1
  {
    if Is(op, e) {
      DeepBag(op, e.l);
      DeepBag(op, e.r);
    }
  }

  lemma FirstIsDual(op: Op, e1: Expr, e2: Expr)
    requires Is(Dual(op), e1) && Is(op, e2) && Clean(op, e1) && Deep(e2)
    ensures EliminateEq(e1, e2).1 == Unit(op) <==> Bag(op, e2) - Bag(op, e1) == multiset{}
  {
    var d := Dual(op);
    var (g, h) := CancelStep(d, e1, e2);
    CancelLeafShape(d, e1, e2);
    DeepIsClean(op, e2);
    DeepBag(op, e2);
    LeafIs(op, e1);
    assert Bag(op, e1) <= multiset{Key(e1)};
    assert |Bag(op, e2) - Bag(op, e1)| >= 1;
    DualWalk(op, e1, e2);
    if h == Unit(d) {
      assert EliminateYn(h) == h != Unit(op);
    } else {
      CancelDifference(op, e1, e2);
      YnKeepsBag(op, CancelStep(op, e1, e2).1);
    }
  }

  lemma DualWalk(op: Op, e1: Expr, e2: Expr)
    requires Is(Dual(op), e1) && Is(op, e2)
    requires var r := CancelStep(Dual(op), e1, e2); r.1 == Unit(Dual(op)) || r == (e1, e2)
    ensures EliminateEq(e1, e2).1
         == EliminateYn(if CancelStep(Dual(op), e1, e2).1 == Unit(Dual(op)) then Unit(Dual(op))
                        else CancelStep(op, e1, e2).1)
  {
    hide CancelStep, EliminateYn;
    assert OpOf(e1) == Dual(op) && OpOf(e2) == op;
  }

  /** menu_finalize's test: when every conjunct of the second side is one of the first, the second
      is reduced to 'y'. */
  lemma EveryConjunctGiven(e1: Expr, e2: Expr)
    requires (e1.And? || e2.And?) && Clean(OpAnd, e1) && Clean(OpAnd, e2) && (e1.Or? ==> Deep(e2))
    requires LeafBag(OpAnd, e2) <= LeafBag(OpAnd, e1)
    ensures EliminateEq(e1, e2).1 == Symbol(SymYes)
  {
    FewerLeaves(OpAnd, e1, e2);
    NothingLeft(OpAnd, e1, e2);
  }
}
