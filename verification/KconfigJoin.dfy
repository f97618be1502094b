/** expr_join_or and expr_join_and: one expression for the or/and of two leaves, if there is one. */
module KconfigJoin {
  import opened Options
  import opened KconfigExpr
  import opened KconfigEq

  predicate Joinable(e: Expr) {
    (e.Cmp? && (e.rel.Eq? || e.rel.Neq?)) || e.Symbol? || e.Not?
  }

  /** sym1: below a NOT, an equality, inequality or symbol is looked through. */
  function FirstSymbol(e: Expr): Option<Symbol>
    requires Joinable(e)
  {
    match e
    case Not(Cmp(rel, l, _)) => if rel.Eq? || rel.Neq? then Some(l) else None
    case Not(Symbol(s)) => Some(s)
    case Cmp(_, l, _) => Some(l)
    case Symbol(s) => Some(s)
    case _ => None
  }

  /** sym2: below a NOT only a symbol is. */
  function SecondSymbol(e: Expr): Option<Symbol>
    requires Joinable(e)
  {
    match e
    case Not(Symbol(s)) => Some(s)
    case Cmp(_, l, _) => Some(l)
    case Symbol(s) => Some(s)
    case _ => None
  }

  predicate Boolish(s: Symbol) {
    s.Type() == Boolean || s.Type() == Tristate
  }

  /** The common symbol both leaves speak about. */
  function Subject(e1: Expr, e2: Expr): (r: Option<Symbol>)
    ensures r.Some? ==> Joinable(e1) && Joinable(e2) && Boolish(r.value)
  {
    if !Joinable(e1) || !Joinable(e2) then None
    else
      var s1, s2 := FirstSymbol(e1), SecondSymbol(e2);
      if s1.Some? && s1 == s2 && Boolish(s1.value) then s1 else None
  }

  /** e is `sym rel k` for the given relation and constant. */
  predicate Tests(e: Expr, rel: Rel, k: Symbol) {
    e.Cmp? && e.rel == rel && e.right == k
  }

  /** Either leaf first: `sym rel a` and `sym rel b`. */
  predicate TestsPair(e1: Expr, e2: Expr, rel: Rel, a: Symbol, b: Symbol) {
    (Tests(e1, rel, a) && Tests(e2, rel, b)) || (Tests(e1, rel, b) && Tests(e2, rel, a))
  }

  predicate NotSymbol(e: Expr) {
    e.Not? && e.e.Symbol?
  }

  /** The rules of expr_join_or for two leaves about the same symbol s. */
  function RuleOr(e1: Expr, e2: Expr, s: Symbol): Option<Expr> {
    if s.Type() == Tristate && TestsPair(e1, e2, Eq, SymYes, SymMod) then Some(Cmp(Neq, s, SymNo))
    else if s.Type() == Tristate && TestsPair(e1, e2, Eq, SymYes, SymNo) then Some(Cmp(Neq, s, SymMod))
    else if s.Type() == Tristate && TestsPair(e1, e2, Eq, SymMod, SymNo) then Some(Cmp(Neq, s, SymYes))
    else if s.Type() == Boolean && ((NotSymbol(e1) && e2.Symbol?) || (NotSymbol(e2) && e1.Symbol?)) then
      Some(Symbol(SymYes))
    else None
  }

  function JoinOr(e1: Expr, e2: Expr): Option<Expr> {
    if ExprEq(e1, e2) then Some(e1)
    else
      var subject := Subject(e1, e2);
      if subject.None? then None else RuleOr(e1, e2, subject.value)
  }

  /** A symbol beside a test of it, in either order. */
  predicate SymbolAndTest(e1: Expr, e2: Expr, rel: Rel, k: Symbol) {
    (e1.Symbol? && Tests(e2, rel, k)) || (e2.Symbol? && Tests(e1, rel, k))
  }

  /** The rules of expr_join_and for two leaves about the same symbol s. */
  function RuleAnd(e1: Expr, e2: Expr, s: Symbol): Option<Expr> {
    if SymbolAndTest(e1, e2, Eq, SymYes) then Some(Cmp(Eq, s, SymYes))
    else if SymbolAndTest(e1, e2, Neq, SymNo) then Some(Symbol(s))
    else if SymbolAndTest(e1, e2, Neq, SymMod) then Some(Cmp(Eq, s, SymYes))
    else if s.Type() != Tristate then None
    else if e1.Cmp? && e1.rel.Eq? && e2.Cmp? && e2.rel.Neq? && e2.right.Const() && e1.right.Const() then
      Some(if e1.right != e2.right then Cmp(Eq, s, e1.right) else Symbol(SymNo))
    else if e1.Cmp? && e1.rel.Neq? && e2.Cmp? && e2.rel.Eq? && e1.right.Const() && e2.right.Const() then
      Some(if e2.right != e1.right then Cmp(Eq, s, e2.right) else Symbol(SymNo))
    else if TestsPair(e1, e2, Neq, SymYes, SymNo) then Some(Cmp(Eq, s, SymMod))
    else if TestsPair(e1, e2, Neq, SymYes, SymMod) then Some(Cmp(Eq, s, SymNo))
    else if TestsPair(e1, e2, Neq, SymMod, SymNo) then Some(Cmp(Eq, s, SymYes))
    else None
  }

  function JoinAnd(e1: Expr, e2: Expr): Option<Expr> {
    if ExprEq(e1, e2) then Some(e1)
    else
      var subject := Subject(e1, e2);
      if subject.None? then None else RuleAnd(e1, e2, subject.value)
  }

  function Join(op: Op, e1: Expr, e2: Expr): Option<Expr> {
    if op.OpOr? then JoinOr(e1, e2) else JoinAnd(e1, e2)
  }

  /** A leaf that says something about the letter of s. */
  predicate About(e: Expr, s: Symbol) {
    (e.Cmp? && e.left == s && (e.rel.Eq? || e.rel.Neq?)) || e == Symbol(s) || e == Not(Symbol(s))
  }

  lemma SubjectAbout(e1: Expr, e2: Expr)
    requires Subject(e1, e2).Some?
    ensures About(e2, Subject(e1, e2).value)
    ensures About(e1, Subject(e1, e2).value) || (e1.Not? && e1.e.Cmp?)
  {
  }

  /** What the tests of a bool or tristate symbol s against the three constants come to. */
  ghost predicate Letters(s: Symbol, v: Valuation) {
    && v.tri(SymYes) == YES && v.tri(SymNo) == NO
    && (s.Type() == Boolean ==> v.tri(s) != MOD)
    && CmpValue(Eq, s, SymYes, v) == (if v.tri(s) == YES then YES else NO)
    && CmpValue(Eq, s, SymMod, v) == (if v.tri(s) == MOD then YES else NO)
    && CmpValue(Eq, s, SymNo, v) == (if v.tri(s) == NO then YES else NO)
    && CmpValue(Neq, s, SymYes, v) == 2 - CmpValue(Eq, s, SymYes, v)
    && CmpValue(Neq, s, SymMod, v) == 2 - CmpValue(Eq, s, SymMod, v)
    && CmpValue(Neq, s, SymNo, v) == 2 - CmpValue(Eq, s, SymNo, v)
  }

  lemma RespectsLetters(s: Symbol, v: Valuation)
    requires Respects(v) && Boolish(s)
    ensures Letters(s, v)
  {
    LetterCompare(v, s, SymYes);
    LetterCompare(v, s, SymMod);
    LetterCompare(v, s, SymNo);
    assert v.str(s) == TriString(v.tri(s));
  }

  /** A symbol equal to one constant differs from every other. */
  lemma ConstantTests(s: Symbol, b: Symbol, c: Symbol, v: Valuation)
    requires Respects(v) && Boolish(s) && b.Const() && c.Const()
    ensures Combine(OpAnd, CmpValue(Eq, s, b, v), CmpValue(Neq, s, c, v))
         == (if b == c then NO else CmpValue(Eq, s, b, v))
    ensures v.tri(SymNo) == NO
  {
    LetterCompare(v, s, b);
    LetterCompare(v, s, c);
  }

  lemma RuleOrSound(e1: Expr, e2: Expr, s: Symbol, v: Valuation)
    requires Letters(s, v) && About(e2, s) && (About(e1, s) || (e1.Not? && e1.e.Cmp?))
    requires RuleOr(e1, e2, s).Some?
    ensures Value(RuleOr(e1, e2, s).value, v) == Combine(OpOr, Value(e1, v), Value(e2, v))
  {
  }

  lemma RuleAndSound(e1: Expr, e2: Expr, s: Symbol, v: Valuation)
    requires Respects(v) && Boolish(s) && About(e2, s) && (About(e1, s) || (e1.Not? && e1.e.Cmp?))
    requires RuleAnd(e1, e2, s).Some?
    ensures Value(RuleAnd(e1, e2, s).value, v) == Combine(OpAnd, Value(e1, v), Value(e2, v))
  {
    if s.Type() == Tristate && e1.Cmp? && e2.Cmp? && e1.rel != e2.rel {
      if e1.rel.Eq? {
        ConstantTests(s, e1.right, e2.right, v);
      } else {
        ConstantTests(s, e2.right, e1.right, v);
        CombineAC(OpAnd, Value(e1, v), Value(e2, v), 0, 0);
      }
    } else {
      RespectsLetters(s, v);
      RuleAndLetters(e1, e2, s, v);
    }
  }

  lemma RuleAndLetters(e1: Expr, e2: Expr, s: Symbol, v: Valuation)
    requires Letters(s, v) && About(e2, s) && (About(e1, s) || (e1.Not? && e1.e.Cmp?))
    requires !(e1.Cmp? && e2.Cmp? && e1.rel != e2.rel)
    requires RuleAnd(e1, e2, s).Some?
    ensures Value(RuleAnd(e1, e2, s).value, v) == Combine(OpAnd, Value(e1, v), Value(e2, v))
  {
    if e1.Symbol? {
      SymbolFirst(e2, s, v);
    } else if e2.Symbol? {
      SymbolSecond(e1, s, v);
    } else {
      TwoTests(e1, e2, s, v);
    }
  }

  lemma SymbolFirst(e2: Expr, s: Symbol, v: Valuation)
    requires Letters(s, v) && About(e2, s) && RuleAnd(Symbol(s), e2, s).Some?
    ensures Value(RuleAnd(Symbol(s), e2, s).value, v) == Combine(OpAnd, Value(Symbol(s), v), Value(e2, v))
  {
  }

  lemma SymbolSecond(e1: Expr, s: Symbol, v: Valuation)
    requires Letters(s, v) && (About(e1, s) || (e1.Not? && e1.e.Cmp?)) && RuleAnd(e1, Symbol(s), s).Some?
    ensures Value(RuleAnd(e1, Symbol(s), s).value, v) == Combine(OpAnd, Value(e1, v), Value(Symbol(s), v))
  {
  }

  lemma TwoTests(e1: Expr, e2: Expr, s: Symbol, v: Valuation)
    requires Letters(s, v) && About(e2, s) && (About(e1, s) || (e1.Not? && e1.e.Cmp?))
    requires !e1.Symbol? && !e2.Symbol? && !(e1.Cmp? && e2.Cmp? && e1.rel != e2.rel)
    requires RuleAnd(e1, e2, s).Some?
    ensures Value(RuleAnd(e1, e2, s).value, v) == Combine(OpAnd, Value(e1, v), Value(e2, v))
  {
  }

  /** The joined leaf means exactly what the two leaves meant together. */
  lemma JoinSound(op: Op, e1: Expr, e2: Expr, v: Valuation)
    requires Respects(v) && Join(op, e1, e2).Some?
    ensures Value(Join(op, e1, e2).value, v) == Combine(op, Value(e1, v), Value(e2, v))
  {
    if ExprEq(e1, e2) {
      ExprEqSound(e1, e2, v);
    } else {
      SubjectAbout(e1, e2);
      if op.OpOr? {
        RespectsLetters(Subject(e1, e2).value, v);
        RuleOrSound(e1, e2, Subject(e1, e2).value, v);
      } else {
        RuleAndSound(e1, e2, Subject(e1, e2).value, v);
      }
    }
  }

  /** Joining never makes a chain longer, and never yields a node of the chain's own type. */
  lemma JoinShape(op: Op, e1: Expr, e2: Expr)
    requires !Is(op, e1)
    ensures Join(op, e1, e2).Some? ==>
      !Is(op, Join(op, e1, e2).value) && Size(Join(op, e1, e2).value) <= Size(e1)
  {
  }
}
