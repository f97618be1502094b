/** The dependency expressions menu_finalize computes for its entries, and the test it uses to
    re-nest an entry below the entry before it. */
module KconfigMenuDeps {
  import opened Options
  import opened KconfigExpr
  import opened KconfigYn
  import opened KconfigEq
  import opened KconfigPath
  import opened KconfigJoin
  import opened KconfigDups
  import opened KconfigTransform

  // ---------------------------------------------------------------- inherited dependencies

  /** A missing expression (NULL) means y. */
  function MaybeValue(e: Option<Expr>, v: Valuation): Tri {
    if e.None? then YES else Value(e.value, v)
  }

  function AllocAnd(e1: Option<Expr>, e2: Option<Expr>): Option<Expr> {
    if e1.None? then e2 else if e2.None? then e1 else Some(And(e1.value, e2.value))
  }

  function MapExpr(f: Expr -> Expr, e: Option<Expr>): Option<Expr> {
    if e.None? then None else Some(f(e.value))
  }

  /** menu->dep for an entry below a parent; also prop->visible.expr before expr_trans_bool. */
  function Inherit(parent: Option<Expr>, own: Option<Expr>): Option<Expr> {
    var both := AllocAnd(parent, MapExpr(Transform, own));
    if both.None? then None else Some(EliminateDups(both.value))
  }

  function Visible(parent: Option<Expr>, own: Option<Expr>, tristate: bool): Option<Expr> {
    var dep := Inherit(parent, own);
    if tristate then dep else MapExpr(TransBool, dep)
  }

  /** The value of a condition once its negations have been pushed down. */
  function MaybePushed(e: Option<Expr>, v: Valuation): Tri {
    if e.None? then YES else Pushed(e.value, false, v)
  }

  /** Pushing the negations down changes nothing unless one of them meets an ordering of values that
      cannot be compared. */
  predicate MaybeOrderly(e: Option<Expr>, v: Valuation) {
    e.Some? ==> Orderly(e.value, false, v)
  }

  predicate MaybeNots(e: Option<Expr>) {
    e.Some? ==> NotsOnSymbols(e.value)
  }

  /** An entry is available exactly as far as its parent's condition and its own allow. */
  lemma InheritValue(parent: Option<Expr>, own: Option<Expr>, v: Valuation)
    requires Respects(v)
    ensures MaybeValue(Inherit(parent, own), v) == Combine(OpAnd, MaybeValue(parent, v), MaybePushed(own, v))
    ensures MaybeOrderly(own, v) ==> MaybePushed(own, v) == MaybeValue(own, v)
  {
    if own.Some? {
      TransformValue(own.value, v);
      if MaybeOrderly(own, v) { OrderlyPushed(own.value, false, v); }
    }
    var both := AllocAnd(parent, MapExpr(Transform, own));
    if both.Some? {
      DupsKeepValue(both.value, v);
    }
  }

  // Negations stay on symbols through the joins, so expr_trans_bool is applied where it is right.

  lemma {:induction false} NotsAt(e: Expr, p: Path, x: Expr)
    requires Valid(e, p) && NotsOnSymbols(e)
    ensures NotsOnSymbols(At(e, p))
    ensures NotsOnSymbols(x) ==> NotsOnSymbols(Set(e, p, x))
  {
    if p != [] {
      NotsAt(Child(e, p[0]), p[1..], x);
    }
  }

  lemma {:induction false} NotsYn(e: Expr)
    requires NotsOnSymbols(e)
    ensures NotsOnSymbols(EliminateYn(e))
  {
    if Chain(e) {
      NotsYn(e.l);
      NotsYn(e.r);
    }
  }

  lemma {:induction false} NotsPass(op: Op, t: Expr, p: Path, q: Path)
    requires Is(op, t) && OnChain(op, t, p) && OnChain(op, t, q) && NotsOnSymbols(t)
    ensures NotsOnSymbols(Pass(op, t, p, q).0)
    decreases Size(t), Slots(op, t, p, q)
  {
    hide Pass, JoinLeaves, Slots, Leaf, OnChain, NotsOnSymbols;
    if !Leaf(op, t, p) {
      DownFirst(op, t, p, q);
      NotsPass(op, t, p + [L], q);
      NotsPass(op, Pass(op, t, p + [L], q).0, p + [R], q);
    } else if !Leaf(op, t, q) {
      DownSecond(op, t, p, q);
      NotsPass(op, t, p, q + [L]);
      NotsPass(op, Pass(op, t, p, q + [L]).0, p, q + [R]);
    } else {
      AtLeaves(op, t, p, q);
      if p != q { NotsJoin(op, t, p, q); }
    }
  }

  lemma NotsJoined(op: Op, l: Expr, r: Expr)
    requires Join(op, l, r).Some? && NotsOnSymbols(l) && NotsOnSymbols(r)
    ensures NotsOnSymbols(Join(op, l, r).value)
  {
  }

  lemma {:induction false} NotsJoin(op: Op, t: Expr, p: Path, q: Path)
    requires Is(op, t) && Leaf(op, t, p) && Leaf(op, t, q) && p != q && NotsOnSymbols(t)
    ensures NotsOnSymbols(JoinLeaves(op, t, p, q).0)
    decreases Size(t), 0
  {
    assert OnChain(op, t, p) && OnChain(op, t, q);
    hide Pass, Join, Set;
    OnChainValid(op, t, p);
    OnChainValid(op, t, q);
    var e1 := At(t, p);
    NotsAt(t, p, e1);
    if Chain(e1) {
      NotsPass(OpOf(e1), e1, [], []);
    }
    var e1' := if Chain(e1) then Pass(OpOf(e1), e1, [], []).0 else e1;
    NotsAt(t, p, e1');
    ShapeSet(op, t, p, e1');
    SetGet(t, p, e1');
    SetOther(op, t, p, q, e1');
    var t1 := Set(t, p, e1');
    ShapeAt(op, t, t1, p);
    JoinShape(op, e1', At(t, q));
    var j := Join(op, e1', At(t, q));
    if j.Some? {
      NotsAt(t, q, At(t, q));
      NotsJoined(op, e1', At(t, q));
      NotsAt(t1, p, Unit(op));
      SetOther(op, t1, p, q, Unit(op));
      NotsAt(Set(t1, p, Unit(op)), q, j.value);
    }
  }

  lemma {:induction false} NotsDups(e: Expr)
    requires NotsOnSymbols(e)
    ensures NotsOnSymbols(EliminateDups(e))
    decreases Size(e)
  {
    if Chain(e) {
      var (r, n) := Pass(OpOf(e), e, [], []);
      NotsPass(OpOf(e), e, [], []);
      PassProgress(OpOf(e), e, [], []);
      if n > 0 {
        YnNormalForm(r);
        NotsYn(r);
        NotsDups(EliminateYn(r));
      }
    }
  }

  /** An entry of a bool symbol is hidden exactly when the conditions it was given say so. */
  lemma VisibleWhen(parent: Option<Expr>, own: Option<Expr>, tristate: bool, v: Valuation)
    requires Respects(v) && MaybeNots(parent)
    ensures MaybeValue(Visible(parent, own, tristate), v) == NO
       <==> MaybeValue(parent, v) == NO || MaybePushed(own, v) == NO
    ensures MaybeOrderly(own, v) ==> MaybePushed(own, v) == MaybeValue(own, v)
  {
    InheritValue(parent, own, v);
    if own.Some? {
      TransformNormalizes(own.value);
      NormalNots(Transform(own.value));
    }
    var both := AllocAnd(parent, MapExpr(Transform, own));
    if both.Some? && !tristate {
      NotsDups(both.value);
      TransBoolKeepsNo(EliminateDups(both.value), v);
    }
  }

  lemma {:induction false} NotsBool(e: Expr)
    requires NotsOnSymbols(e)
    ensures NotsOnSymbols(TransBool(e))
  {
    if Chain(e) {
      NotsBool(e.l);
      NotsBool(e.r);
    }
  }

  /** What an entry passes on to the entries below it is again of the form that VisibleWhen asks of
      a parent, so the whole tree can be worked through. */
  lemma VisibleKeepsNots(parent: Option<Expr>, own: Option<Expr>, tristate: bool)
    requires MaybeNots(parent)
    ensures MaybeNots(Inherit(parent, own)) && MaybeNots(Visible(parent, own, tristate))
  {
    if own.Some? {
      TransformNormalizes(own.value);
      NormalNots(Transform(own.value));
    }
    var both := AllocAnd(parent, MapExpr(Transform, own));
    if both.Some? {
      NotsDups(both.value);
      NotsBool(EliminateDups(both.value));
    }
  }

  // ---------------------------------------------------------------- down the menus

  /** An entry on the way down: its own dependency, the condition of its prompt if it has one, and
      whether that condition is kept as a tristate. */
  datatype Level = Level(dep: Option<Expr>, prompted: bool, shown: Option<Expr>, tristate: bool)

  /** What an entry hands down to the entries below it: the condition of its prompt, or, without a
      prompt, its dependency. */
  function HandDown(above: Option<Expr>, l: Level): Option<Expr> {
    if l.prompted then Visible(Inherit(above, l.dep), l.shown, l.tristate) else Inherit(above, l.dep)
  }

  /** What arrives below a chain of entries, the outermost first. */
  function Handed(top: Option<Expr>, levels: seq<Level>): Option<Expr> {
    if levels == [] then top else HandDown(Handed(top, levels[..|levels| - 1]), levels[|levels| - 1])
  }

  /** How far the conditions written at one level allow what is below it. */
  function Allows(l: Level, v: Valuation): Tri {
    Combine(OpAnd, MaybePushed(l.dep, v), if l.prompted then MaybePushed(l.shown, v) else YES)
  }

  /** The least of all conditions on the way down. */
  function AllAllow(top: Option<Expr>, levels: seq<Level>, v: Valuation): Tri {
    if levels == [] then MaybeValue(top, v)
    else Combine(OpAnd, AllAllow(top, levels[..|levels| - 1], v), Allows(levels[|levels| - 1], v))
  }

  /** One level: nothing gets through that is not allowed, what is allowed is not shut out, and only
      the condition of a prompt that is kept as a bool may become less. */
  lemma HandDownValue(above: Option<Expr>, l: Level, v: Valuation)
    requires Respects(v) && MaybeNots(above)
    ensures MaybeNots(HandDown(above, l))
    ensures var all := Combine(OpAnd, MaybeValue(above, v), Allows(l, v));
      && MaybeValue(HandDown(above, l), v) <= all
      && (MaybeValue(HandDown(above, l), v) == NO <==> all == NO)
      && ((l.prompted ==> l.tristate) ==> MaybeValue(HandDown(above, l), v) == all)
  {
    hide Respects, Inherit, NotsOnSymbols, Pushed, Value, TransBool;
    var dep := Inherit(above, l.dep);
    InheritValue(above, l.dep, v);
    VisibleKeepsNots(above, l.dep, true);
    if l.prompted {
      InheritValue(dep, l.shown, v);
      VisibleKeepsNots(dep, l.shown, l.tristate);
      var shown := Inherit(dep, l.shown);
      if shown.Some? { TransBoolKeepsNo(shown.value, v); }
    }
  }

  /** Down a whole chain: what an entry finally depends on is the least of all conditions on the way
      to it where prompts are kept as tristates, never more than that, and n exactly when one of them
      is. */
  lemma {:induction false} HandedValue(top: Option<Expr>, levels: seq<Level>, v: Valuation)
    requires Respects(v) && MaybeNots(top)
    ensures MaybeNots(Handed(top, levels))
    ensures MaybeValue(Handed(top, levels), v) <= AllAllow(top, levels, v)
    ensures MaybeValue(Handed(top, levels), v) == NO <==> AllAllow(top, levels, v) == NO
    ensures (forall k :: 0 <= k < |levels| && levels[k].prompted ==> levels[k].tristate) ==>
      MaybeValue(Handed(top, levels), v) == AllAllow(top, levels, v)
  {
    hide Respects, HandDown, MaybeNots, MaybeValue, Allows;
    if levels != [] {
      HandedValue(top, levels[..|levels| - 1], v);
      HandDownValue(Handed(top, levels[..|levels| - 1]), levels[|levels| - 1], v);
    }
  }

  /** The least of all is n exactly when one condition is n. */
  lemma {:induction false} OneShutsOut(top: Option<Expr>, levels: seq<Level>, v: Valuation)
    ensures AllAllow(top, levels, v) == NO
       <==> MaybeValue(top, v) == NO || exists k :: 0 <= k < |levels| && Allows(levels[k], v) == NO
  {
    hide MaybeValue, Allows;
    if levels != [] {
      var init, last := levels[..|levels| - 1], levels[|levels| - 1];
      OneShutsOut(top, init, v);
      assert forall k :: 0 <= k < |init| ==> init[k] == levels[k];
      if Allows(last, v) == NO { assert Allows(levels[|levels| - 1], v) == NO; }
    }
  }

  // ---------------------------------------------------------------- expr_trans_compare

  /** `e = k` (or `e != k` when equal is false) as an expression, for k among the constants. */
  function TransCompare(e: Expr, equal: bool, k: Symbol): Expr
    requires k.SymYes? || k.SymMod? || k.SymNo?
  {
    match e
    case And(l, r) =>
      var (a, b) := (TransCompare(l, true, k), TransCompare(r, true, k));
      var c := if k.SymYes? then And(a, b) else if k.SymNo? then Or(a, b) else e;
      if equal then c else Not(c)
    case Or(l, r) =>
      var (a, b) := (TransCompare(l, true, k), TransCompare(r, true, k));
      var c := if k.SymYes? then Or(a, b) else if k.SymNo? then And(a, b) else e;
      if equal then c else Not(c)
    case Not(a) => TransCompare(a, !equal, k)
    case Cmp(_, _, _) =>
      if k.SymMod? then Symbol(if equal then SymNo else SymYes)
      else if equal == k.SymYes? then e else Not(e)
    case Symbol(s) => Cmp(if equal then Eq else Neq, s, k)
  }

  /** Every symbol standing alone is a constant, a bool or a tristate. */
  predicate Truthlike(e: Expr) {
    match e
    case Symbol(s) => Constant(s) || Boolish(s)
    case Cmp(_, _, _) => true
    case Not(a) => Truthlike(a)
    case And(l, r) => Truthlike(l) && Truthlike(r)
    case Or(l, r) => Truthlike(l) && Truthlike(r)
  }

  /** No NOT is applied to a part that is m. */
  predicate NoNegatedMod(e: Expr, v: Valuation) {
    match e
    case Not(a) => Value(a, v) != MOD && NoNegatedMod(a, v)
    case And(l, r) => NoNegatedMod(l, v) && NoNegatedMod(r, v)
    case Or(l, r) => NoNegatedMod(l, v) && NoNegatedMod(r, v)
    case _ => true
  }

  lemma SymbolCompare(s: Symbol, k: Symbol, v: Valuation)
    requires Respects(v) && (Constant(s) || Boolish(s)) && Constant(k)
    ensures CmpValue(Eq, s, k, v) == (if v.tri(s) == v.tri(k) then YES else NO)
    ensures CmpValue(Neq, s, k, v) == (if v.tri(s) == v.tri(k) then NO else YES)
  {
    if Boolish(s) {
      RespectsLetters(s, v);
    }
  }

  /** The comparison with y or n is right wherever no NOT meets an m. */
  lemma {:induction false} TransCompareTells(e: Expr, equal: bool, k: Symbol, v: Valuation)
    requires Respects(v) && Truthlike(e) && NoNegatedMod(e, v) && (k.SymYes? || k.SymNo?)
    ensures Value(TransCompare(e, equal, k), v)
         == if (Value(e, v) == v.tri(k)) == equal then YES else NO
  {
    assert v.tri(SymYes) == YES && v.tri(SymNo) == NO;
    hide Respects;
    match e
    case And(l, r) => TransCompareTells(l, true, k, v); TransCompareTells(r, true, k, v);
    case Or(l, r) => TransCompareTells(l, true, k, v); TransCompareTells(r, true, k, v);
    case Not(a) => TransCompareTells(a, !equal, k, v);
    case Symbol(s) => SymbolCompare(s, k, v);
    case Cmp(_, _, _) =>
  }

  /** With m it tells the truth of a symbol and of a comparison; of a chain it answers the chain itself. */
  lemma TransCompareMod(e: Expr, equal: bool, v: Valuation)
    requires Respects(v) && Truthlike(e)
    ensures e.Symbol? || e.Cmp? ==>
      Value(TransCompare(e, equal, SymMod), v) == if (Value(e, v) == MOD) == equal then YES else NO
    ensures Chain(e) ==> TransCompare(e, equal, SymMod) == if equal then e else Not(e)
  {
    if e.Symbol? { SymbolCompare(e.sym, SymMod, v); }
  }

  /** For a negation the condition is exact, for both constants and both relations. */
  lemma TransCompareNegated(a: Expr, equal: bool, k: Symbol, v: Valuation)
    requires Respects(v) && Truthlike(a) && NoNegatedMod(a, v) && (k.SymYes? || k.SymNo?)
    ensures (Value(TransCompare(Not(a), equal, k), v) == if (Value(Not(a), v) == v.tri(k)) == equal then YES else NO)
       <==> Value(a, v) != MOD
  {
    TransCompareTells(a, !equal, k, v);
  }

  // ---------------------------------------------------------------- re-nesting

  predicate ContainsSymbol(dep: Expr, s: Symbol) {
    match dep
    case And(l, r) => ContainsSymbol(l, s) || ContainsSymbol(r, s)
    case Or(l, r) => ContainsSymbol(l, s) || ContainsSymbol(r, s)
    case Symbol(t) => t == s
    case Cmp(_, l, r) => l == s || r == s
    case Not(a) => ContainsSymbol(a, s)
  }

  predicate DependsSymbol(dep: Expr, s: Symbol) {
    match dep
    case And(l, r) => DependsSymbol(l, s) || DependsSymbol(r, s)
    case Symbol(t) => t == s
    case Cmp(rel, l, r) => l == s && ((rel.Eq? && (r == SymYes || r == SymMod)) || (rel.Neq? && r == SymNo))
    case _ => false
  }

  /** `dep != n`, in normal form without duplicates; no dependency at all is never n. */
  function NotNo(dep: Option<Expr>): Expr {
    EliminateDups(Transform(if dep.None? then Not(Symbol(SymNo)) else TransCompare(dep.value, false, SymNo)))
  }

  /** menu_finalize's test that the entry with condition dep belongs below the entry of symbol s and
      condition base. */
  predicate BelongsBelow(dep: Option<Expr>, s: Symbol, base: Option<Expr>) {
    && dep.Some? && ContainsSymbol(dep.value, s)
    && (DependsSymbol(dep.value, s) || EliminateEq(NotNo(dep), NotNo(base)).1 == Symbol(SymYes))
  }

  /** Where `dep != n` tells the truth: see TransCompareNegated and Orderly. */
  predicate Comparable(dep: Option<Expr>, v: Valuation) {
    dep.Some? ==>
      Truthlike(dep.value) && NoNegatedMod(dep.value, v) && Orderly(TransCompare(dep.value, false, SymNo), false, v)
  }

  lemma NotNoValue(dep: Option<Expr>, v: Valuation)
    requires Respects(v) && Comparable(dep, v)
    ensures Value(NotNo(dep), v) == if MaybeValue(dep, v) == NO then NO else YES
  {
    if dep.None? {
      assert Transform(Not(Symbol(SymNo))) == Symbol(SymYes);
    } else {
      var e := TransCompare(dep.value, false, SymNo);
      TransCompareTells(dep.value, false, SymNo, v);
      TransformKeepsValue(e, v);
      DupsKeepValue(Transform(e), v);
    }
  }

  /** A symbol is n as a tristate and as a string. */
  predicate IsNo(s: Symbol, v: Valuation) {
    v.tri(s) == NO && v.str(s) == "n"
  }

  /** For a bool or tristate symbol the one is the other. */
  lemma LettersAreNo(s: Symbol, v: Valuation)
    requires Respects(v) && Boolish(s)
    ensures IsNo(s, v) <==> v.tri(s) == NO
  {
    assert v.str(s) == TriString(v.tri(s));
  }

  /** The tests of the shortcut compare strings, whatever the type of the symbol. */
  lemma ConstantCompare(s: Symbol, k: Symbol, v: Valuation)
    requires Respects(v) && Constant(k)
    ensures CmpValue(Eq, s, k, v) == (if v.str(s) == v.str(k) then YES else NO)
    ensures CmpValue(Neq, s, k, v) == (if v.str(s) == v.str(k) then NO else YES)
  {
  }

  /** What depends on a symbol in the sense of the shortcut is n when the symbol is. */
  lemma {:induction false} DependsMeansNo(dep: Expr, s: Symbol, v: Valuation)
    requires Respects(v) && DependsSymbol(dep, s) && IsNo(s, v)
    ensures Value(dep, v) == NO
  {
    match dep
    case And(l, r) => if DependsSymbol(l, s) { DependsMeansNo(l, s, v); } else { DependsMeansNo(r, s, v); }
    case Cmp(_, l, r) => ConstantCompare(l, r, v);
    case _ =>
  }

  /** The shortcut is right about a symbol of any type if and only if the symbol is n and its string
      is the letter for it. */
  lemma ShortcutIsRight(s: Symbol, v: Valuation)
    requires Respects(v)
    ensures (forall dep :: DependsSymbol(dep, s) ==> Value(dep, v) == NO) <==> IsNo(s, v)
  {
    if IsNo(s, v) {
      forall dep | DependsSymbol(dep, s) ensures Value(dep, v) == NO { DependsMeansNo(dep, s, v); }
    } else {
      var dep := Misled(s, v);
    }
  }

  lemma Misled(s: Symbol, v: Valuation) returns (dep: Expr)
    requires Respects(v) && !IsNo(s, v)
    ensures DependsSymbol(dep, s) && Value(dep, v) != NO
  {
    dep := if v.tri(s) != NO then Symbol(s) else Cmp(Neq, s, SymNo);
    ConstantCompare(s, SymNo, v);
  }

  /** A symbol that is no tristate for which it is wrong: a string that is the letter y. */
  lemma StringMisleadsShortcut(s: Symbol, v: Valuation)
    requires Respects(v) && s.Type() == String && v.tri(s) == NO && v.str(s) == "y"
    ensures DependsSymbol(Cmp(Eq, s, SymYes), s) && Value(Cmp(Eq, s, SymYes), v) == YES
  {
    ConstantCompare(s, SymYes, v);
  }

  /** How an entry with condition dep is hidden by the entry of symbol s and condition base: by the
      symbol if the shortcut answers, by the condition otherwise. */
  ghost predicate Hides(dep: Expr, s: Symbol, base: Option<Expr>, v: Valuation) {
    if DependsSymbol(dep, s) then IsNo(s, v) ==> Value(dep, v) == NO
    else
      Comparable(Some(dep), v) && Comparable(base, v) && MaybeValue(base, v) == NO ==> Value(dep, v) == NO
  }

  /** An entry that passes the test is never available while what it is put below is not. */
  lemma NestingIsSound(dep: Option<Expr>, s: Symbol, base: Option<Expr>, v: Valuation)
    requires Respects(v) && BelongsBelow(dep, s, base)
    ensures dep.Some? && Hides(dep.value, s, base, v)
    ensures Boolish(s) && DependsSymbol(dep.value, s) && v.tri(s) == NO ==> Value(dep.value, v) == NO
  {
    if Boolish(s) { LettersAreNo(s, v); }
    if DependsSymbol(dep.value, s) {
      if IsNo(s, v) {
        DependsMeansNo(dep.value, s, v);
      }
    } else if Comparable(dep, v) && Comparable(base, v) {
      NotNoValue(dep, v);
      NotNoValue(base, v);
      ReducedToYesIsImplied(NotNo(dep), NotNo(base), v);
    }
  }
}
