/** What expr_eliminate_dups leaves, said without the functions that join two operands: no operand
    twice on one chain, and no two operands on one chain that the tables below join. */
module KconfigTidy {
  import opened Options
  import opened KconfigExpr
  import opened KconfigYn
  import opened KconfigEq
  import opened KconfigPath
  import opened KconfigJoin
  import opened KconfigDups
  import opened KconfigKeys
  import opened KconfigArrange
  import opened KconfigTransform
  import opened KconfigMenuDeps

  /** What two different operands about the bool or tristate s come to under 'or'. */
  predicate OrRow(s: Symbol, a: Expr, b: Expr, x: Expr) {
    || (s.Type() == Tristate && a == Cmp(Eq, s, SymYes) && b == Cmp(Eq, s, SymMod) && x == Cmp(Neq, s, SymNo))
    || (s.Type() == Tristate && a == Cmp(Eq, s, SymYes) && b == Cmp(Eq, s, SymNo) && x == Cmp(Neq, s, SymMod))
    || (s.Type() == Tristate && a == Cmp(Eq, s, SymMod) && b == Cmp(Eq, s, SymNo) && x == Cmp(Neq, s, SymYes))
    || (s.Type() == Boolean && a == Symbol(s) && b == Not(Symbol(s)) && x == Symbol(SymYes))
  }

  /** The same under 'and'; the constants of an equality beside an inequality may be any two. */
  predicate AndRow(s: Symbol, a: Expr, b: Expr, x: Expr) {
    || (Boolish(s) && a == Symbol(s) && b == Cmp(Eq, s, SymYes) && x == Cmp(Eq, s, SymYes))
    || (Boolish(s) && a == Symbol(s) && b == Cmp(Neq, s, SymNo) && x == Symbol(s))
    || (Boolish(s) && a == Symbol(s) && b == Cmp(Neq, s, SymMod) && x == Cmp(Eq, s, SymYes))
    || (s.Type() == Tristate && a.Cmp? && b.Cmp? && a == Cmp(Eq, s, a.right) && b == Cmp(Neq, s, b.right)
        && a.right.Const() && b.right.Const() && x == if a.right == b.right then Symbol(SymNo) else a)
    || (s.Type() == Tristate && a == Cmp(Neq, s, SymYes) && b == Cmp(Neq, s, SymNo) && x == Cmp(Eq, s, SymMod))
    || (s.Type() == Tristate && a == Cmp(Neq, s, SymYes) && b == Cmp(Neq, s, SymMod) && x == Cmp(Eq, s, SymNo))
    || (s.Type() == Tristate && a == Cmp(Neq, s, SymMod) && b == Cmp(Neq, s, SymNo) && x == Cmp(Eq, s, SymYes))
  }

  /** The two stand in the table, in either order. */
  predicate Listed(op: Op, s: Symbol, a: Expr, b: Expr, x: Expr) {
    if op.OpOr? then OrRow(s, a, b, x) || OrRow(s, b, a, x) else AndRow(s, a, b, x) || AndRow(s, b, a, x)
  }

  lemma ListedJoins(op: Op, s: Symbol, a: Expr, b: Expr, x: Expr)
    requires Listed(op, s, a, b, x)
    ensures !ExprEq(a, b) && Join(op, a, b) == Some(x)
  {
    ListedDiffer(op, s, a, b, x);
    hide ExprEq;
    if op.OpOr? { OrListed(s, a, b, x); } else { AndListed(s, a, b, x); }
  }

  /** A symbol, its negation or a comparison. */
  predicate Flat(e: Expr) {
    e.Symbol? || e.Cmp? || NotSymbol(e)
  }

  lemma FlatEqual(a: Expr, b: Expr)
    requires Flat(a) && Flat(b)
    ensures ExprEq(a, b) <==> a == b
  {
  }

  lemma OrRowIs(s: Symbol, a: Expr, b: Expr, x: Expr)
    requires OrRow(s, a, b, x)
    ensures Flat(a) && Flat(b) && a != b && Subject(a, b) == Some(s) && Subject(b, a) == Some(s)
  {
  }

  lemma AndRowIs(s: Symbol, a: Expr, b: Expr, x: Expr)
    requires AndRow(s, a, b, x)
    ensures Flat(a) && Flat(b) && a != b && Subject(a, b) == Some(s) && Subject(b, a) == Some(s)
  {
  }

  lemma ListedDiffer(op: Op, s: Symbol, a: Expr, b: Expr, x: Expr)
    requires Listed(op, s, a, b, x)
    ensures !ExprEq(a, b) && Subject(a, b) == Some(s)
  {
    hide OrRow, AndRow, Subject, ExprEq, Flat;
    if op.OpOr? {
      if OrRow(s, a, b, x) { OrRowIs(s, a, b, x); } else { OrRowIs(s, b, a, x); }
    } else {
      if AndRow(s, a, b, x) { AndRowIs(s, a, b, x); } else { AndRowIs(s, b, a, x); }
    }
    FlatEqual(a, b);
  }

  lemma OrListed(s: Symbol, a: Expr, b: Expr, x: Expr)
    requires OrRow(s, a, b, x) || OrRow(s, b, a, x)
    ensures RuleOr(a, b, s) == Some(x)
  {
  }

  lemma AndListed(s: Symbol, a: Expr, b: Expr, x: Expr)
    requires AndRow(s, a, b, x) || AndRow(s, b, a, x)
    ensures RuleAnd(a, b, s) == Some(x)
  {
  }

  lemma JoinsListed(op: Op, a: Expr, b: Expr)
    requires !ExprEq(a, b) && Join(op, a, b).Some?
    ensures Subject(a, b).Some? && Listed(op, Subject(a, b).value, a, b, Join(op, a, b).value)
  {
  }

  /** The tables are all there is: two operands are joined exactly when they are equal for expr_eq,
      or stand in the table, and the result is the one the table gives. */
  lemma JoinExactly(op: Op, a: Expr, b: Expr, x: Expr)
    ensures Join(op, a, b) == Some(x) <==> (ExprEq(a, b) && x == a) || (exists s :: Listed(op, s, a, b, x))
  {
    hide ExprEq, Listed;
    forall s | Listed(op, s, a, b, x)
      ensures !ExprEq(a, b) && Join(op, a, b) == Some(x)
    {
      ListedJoins(op, s, a, b, x);
    }
    if !ExprEq(a, b) && Join(op, a, b).Some? {
      JoinsListed(op, a, b);
    }
  }

  // ---------------------------------------------------------------- what the result looks like

  /** No operand twice on the chain, neither literally nor, where no removable constants are about,
      up to order and grouping; and no two that the table joins. */
  ghost predicate NoTwins(op: Op, t: Expr) {
    && (forall a :: a in LeafBag(op, t) ==> LeafBag(op, t)[a] == 1)
    && (forall a, b :: a in LeafBag(op, t) && b in LeafBag(op, t) && a != b && Deep(a) && Deep(b) ==> Key(a) != Key(b))
    && (forall a, b, s, x :: a in LeafBag(op, t) && b in LeafBag(op, t) ==> !Listed(op, s, a, b, x))
  }

  /** No twins on the chain, nor on any chain among its operands, and so on down. */
  ghost predicate Tidy(op: Op, t: Expr)
    requires Is(op, t)
    decreases t, 1
  {
    NoTwins(op, t) && TidyBelow(op, t)
  }

  ghost predicate TidyBelow(op: Op, e: Expr)
    decreases e, if Is(op, e) then 0 else 2
  {
    if Is(op, e) then TidyBelow(op, e.l) && TidyBelow(op, e.r)
    else Chain(e) ==> Tidy(OpOf(e), e)
  }

  lemma {:induction false} LeafInBag(op: Op, t: Expr, p: Path)
    requires Leaf(op, t, p)
    ensures Valid(t, p) && At(t, p) in LeafBag(op, t)
  {
    OnChainValid(op, t, p);
    if p != [] {
      LeafInBag(op, Child(t, p[0]), p[1..]);
    }
  }

  lemma LeafUnder(op: Op, t: Expr, d: Dir, p: Path)
    requires Is(op, t) && Leaf(op, Child(t, d), p)
    ensures Leaf(op, t, [d] + p) && Valid(t, [d] + p) && Valid(Child(t, d), p)
    ensures At(t, [d] + p) == At(Child(t, d), p)
  {
    assert ([d] + p)[1..] == p;
    OnChainValid(op, Child(t, d), p);
    OnChainValid(op, t, [d] + p);
  }

  lemma {:induction false} BagHasLeaf(op: Op, t: Expr, x: Expr) returns (p: Path)
    requires x in LeafBag(op, t)
    ensures Leaf(op, t, p) && Valid(t, p) && At(t, p) == x
  {
    if Is(op, t) {
      if x in LeafBag(op, t.l) {
        p := BagHasLeaf(op, t.l, x);
        LeafUnder(op, t, L, p);
        p := [L] + p;
      } else {
        p := BagHasLeaf(op, t.r, x);
        LeafUnder(op, t, R, p);
        p := [R] + p;
      }
    } else {
      p := [];
    }
  }

  /** An operand that occurs twice stands in two slots. */
  lemma {:induction false} TwoSlots(op: Op, t: Expr, x: Expr) returns (p: Path, q: Path)
    requires LeafBag(op, t)[x] >= 2
    ensures Leaf(op, t, p) && Leaf(op, t, q) && p != q
    ensures Valid(t, p) && Valid(t, q) && At(t, p) == x == At(t, q)
  {
    if x !in LeafBag(op, t.r) {
      p, q := TwoSlots(op, t.l, x);
      LeafUnder(op, t, L, p);
      LeafUnder(op, t, L, q);
      p, q := [L] + p, [L] + q;
      assert p[1..] != q[1..];
    } else if x !in LeafBag(op, t.l) {
      p, q := TwoSlots(op, t.r, x);
      LeafUnder(op, t, R, p);
      LeafUnder(op, t, R, q);
      p, q := [R] + p, [R] + q;
      assert p[1..] != q[1..];
    } else {
      p := BagHasLeaf(op, t.l, x);
      q := BagHasLeaf(op, t.r, x);
      LeafUnder(op, t, L, p);
      LeafUnder(op, t, R, q);
      p, q := [L] + p, [R] + q;
      assert p[0] != q[0];
    }
  }

  lemma SettledPair(op: Op, t: Expr, p: Path, q: Path)
    requires Is(op, t) && Settled(op, t)
    requires Leaf(op, t, p) && Leaf(op, t, q) && p != q && Valid(t, p) && Valid(t, q)
    ensures Join(op, At(t, p), At(t, q)).None?
    ensures Chain(At(t, p)) ==> Settled(OpOf(At(t, p)), At(t, p))
  {
    assert PairSettled(op, t, p, q);
  }

  /** Two operands of a settled chain that are not one and the same are not joined. */
  lemma SettledOperands(op: Op, t: Expr, a: Expr, b: Expr)
    requires Is(op, t) && Settled(op, t) && a in LeafBag(op, t) && b in LeafBag(op, t) && a != b
    ensures Join(op, a, b).None?
  {
    var p := BagHasLeaf(op, t, a);
    var q := BagHasLeaf(op, t, b);
    SettledPair(op, t, p, q);
  }

  lemma SettledHasNoTwins(op: Op, t: Expr)
    requires Is(op, t) && Settled(op, t)
    ensures NoTwins(op, t)
  {
    hide Settled, Listed, LeafBag, Join, ExprEq, Key, Deep;
    forall a | a in LeafBag(op, t)
      ensures LeafBag(op, t)[a] == 1
    {
      if LeafBag(op, t)[a] >= 2 {
        var p, q := TwoSlots(op, t, a);
        SettledPair(op, t, p, q);
        EqualJoins(op, a, a);
      }
    }
    forall a, b | a in LeafBag(op, t) && b in LeafBag(op, t) && a != b && Deep(a) && Deep(b)
      ensures Key(a) != Key(b)
    {
      SettledOperands(op, t, a, b);
      EqualJoins(op, a, b);
    }
    forall a, b, s, x | a in LeafBag(op, t) && b in LeafBag(op, t)
      ensures !Listed(op, s, a, b, x)
    {
      if Listed(op, s, a, b, x) {
        ListedJoins(op, s, a, b, x);
        ExprEqReflexive(a);
        SettledOperands(op, t, a, b);
      }
    }
  }

  lemma EqualJoins(op: Op, a: Expr, b: Expr)
    ensures a == b || (Deep(a) && Deep(b) && Key(a) == Key(b)) ==> Join(op, a, b) == Some(a)
  {
    hide Key, Deep;
    ExprEqReflexive(a);
    if Deep(a) && Deep(b) {
      ExprEqExactly(a, b);
    }
  }

  lemma {:induction false} SettledIsTidy(op: Op, t: Expr)
    requires Is(op, t) && Settled(op, t)
    ensures Tidy(op, t)
    decreases Size(t), 1
  {
    SettledHasNoTwins(op, t);
    LeavesTidy(op, t, t, []);
  }

  /** Every chain among the operands at or below p is settled in its turn. */
  lemma {:induction false} LeavesTidy(op: Op, t: Expr, e: Expr, p: Path)
    requires Is(op, t) && Settled(op, t) && OnChain(op, t, p) && Valid(t, p) && At(t, p) == e
    ensures TidyBelow(op, e)
    decreases Size(t), 0, e
  {
    hide Settled;
    if Is(op, e) {
      OnChainStep(op, t, p, L);
      OnChainStep(op, t, p, R);
      LeavesTidy(op, t, e.l, p + [L]);
      LeavesTidy(op, t, e.r, p + [R]);
    } else if Chain(e) {
      var q := OtherLeaf(op, t, p);
      SettledPair(op, t, p, q);
      SettledIsTidy(OpOf(e), e);
    }
  }

  /** A chain has more than one operand. */
  lemma OtherLeaf(op: Op, t: Expr, p: Path) returns (q: Path)
    requires Is(op, t) && Leaf(op, t, p)
    ensures Leaf(op, t, q) && q != p && Valid(t, q)
  {
    var d := if p[0].L? then R else L;
    var x := SomeLeaf(op, Child(t, d));
    q := BagHasLeaf(op, Child(t, d), x);
    LeafUnder(op, t, d, q);
    q := [d] + q;
    assert q[0] != p[0];
  }

  lemma {:induction false} SomeLeaf(op: Op, e: Expr) returns (x: Expr)
    ensures x in LeafBag(op, e)
  {
    if Is(op, e) { x := SomeLeaf(op, e.l); } else { x := e; }
  }

  /** expr_eliminate_dups leaves no chain with an operand twice or with two that could be joined. */
  lemma DupsTidy(e: Expr)
    ensures var r := EliminateDups(e); Chain(r) ==> Tidy(OpOf(r), r)
  {
    DupsSettle(e);
    if Chain(EliminateDups(e)) {
      SettledIsTidy(OpOf(EliminateDups(e)), EliminateDups(e));
    }
  }

  /** What is inherited is tidy, so a dependency an entry repeats is not kept twice. */
  lemma InheritTidy(parent: Option<Expr>, own: Option<Expr>)
    ensures var r := Inherit(parent, own); r.Some? && Chain(r.value) ==> Tidy(OpOf(r.value), r.value)
  {
    var both := AllocAnd(parent, MapExpr(Transform, own));
    if both.Some? { DupsTidy(both.value); }
  }

  // ---------------------------------------------------------------- and what it keeps

  lemma {:induction false} TwoSlotsCount(op: Op, t: Expr, p: Path, q: Path)
    requires Leaf(op, t, p) && Leaf(op, t, q) && p != q && Valid(t, p) && Valid(t, q) && At(t, p) == At(t, q)
    ensures LeafBag(op, t)[At(t, p)] >= 2
  {
    LeavesDiverge(op, t, p, q);
    var l, r := Child(t, p[0]), Child(t, q[0]);
    OnChainValid(op, l, p[1..]);
    OnChainValid(op, r, q[1..]);
    if p[0] == q[0] {
      TwoSlotsCount(op, l, p[1..], q[1..]);
    } else {
      LeafInBag(op, l, p[1..]);
      LeafInBag(op, r, q[1..]);
    }
  }

  lemma {:induction false} DeepLeaf(op: Op, t: Expr, p: Path)
    requires Leaf(op, t, p) && Deep(t) && TidyBelow(op, t)
    ensures Valid(t, p) && Deep(At(t, p)) && TidyBelow(op, At(t, p)) && !Is(op, At(t, p))
  {
    OnChainValid(op, t, p);
    if p != [] {
      DeepLeaf(op, Child(t, p[0]), p[1..]);
    }
  }

  /** Without removable constants, a chain without twins is settled. */
  lemma {:induction false} TidyIsSettled(op: Op, t: Expr)
    requires Is(op, t) && Deep(t) && Tidy(op, t)
    ensures Settled(op, t)
    decreases Size(t)
  {
    forall p: Path, q: Path | Leaf(op, t, p) && Leaf(op, t, q) && p != q
      ensures PairSettled(op, t, p, q)
    {
      hide NoTwins, Join;
      DeepLeaf(op, t, p);
      DeepLeaf(op, t, q);
      NotJoined(op, t, p, q);
      var e := At(t, p);
      if Chain(e) { TidyIsSettled(OpOf(e), e); }
    }
  }

  lemma NotJoined(op: Op, t: Expr, p: Path, q: Path)
    requires NoTwins(op, t) && Leaf(op, t, p) && Leaf(op, t, q) && p != q && Valid(t, p) && Valid(t, q)
    requires Deep(At(t, p)) && Deep(At(t, q))
    ensures Join(op, At(t, p), At(t, q)).None?
  {
    var a, b := At(t, p), At(t, q);
    hide Listed, ExprEq, Join, Deep, Key;
    LeafInBag(op, t, p);
    LeafInBag(op, t, q);
    if a == b { TwoSlotsCount(op, t, p, q); }
    ExprEqExactly(a, b);
    if Join(op, a, b).Some? {
      JoinExactly(op, a, b, Join(op, a, b).value);
    }
  }

  /** An expression without removable constants is left alone exactly when it is tidy. */
  lemma TidyIsKept(e: Expr)
    requires Deep(e)
    ensures EliminateDups(e) == e <==> (Chain(e) ==> Tidy(OpOf(e), e))
  {
    DupsSettle(e);
    if Chain(e) {
      if EliminateDups(e) == e { SettledIsTidy(OpOf(e), e); }
      if Tidy(OpOf(e), e) { TidyIsSettled(OpOf(e), e); }
    }
  }

  lemma LeafSlots(op: Op, a: Expr, b: Expr)
    requires !Is(op, a) && !Is(op, b)
    ensures var t := Mk(op, a, b);
      && Leaf(op, t, [L]) && Leaf(op, t, [R]) && OnChain(op, t, []) && !Leaf(op, t, [])
      && Valid(t, [L]) && At(t, [L]) == a && Valid(t, [R]) && At(t, [R]) == b
  {
    var t := Mk(op, a, b);
    LeafUnder(op, t, L, []);
    LeafUnder(op, t, R, []);
    assert [L] + [] == [L] && [R] + [] == [R];
    assert OnChain(op, t, []);
  }

  lemma SetSlots(op: Op, a: Expr, b: Expr, x: Expr)
    ensures var t := Mk(op, a, b);
      && Valid(t, [L]) && Set(t, [L], x) == Mk(op, x, b)
      && Valid(t, [R]) && Set(t, [R], x) == Mk(op, a, x)
  {
  }

  /** Two operands that are no chains, joined in either order. */
  lemma JoinTwo(op: Op, a: Expr, b: Expr)
    requires !Chain(a) && !Chain(b)
    ensures var t := Mk(op, a, b);
      && Leaf(op, t, [L]) && Leaf(op, t, [R])
      && (Join(op, a, b).Some? ==> JoinLeaves(op, t, [L], [R]) == (Mk(op, Unit(op), Join(op, a, b).value), 1))
      && (Join(op, b, a).None? ==> JoinLeaves(op, t, [R], [L]) == (t, 0))
  {
    hide Join, OnChain, Leaf;
    LeafSlots(op, a, b);
    SetSlots(op, a, b, a);
    SetSlots(op, a, b, b);
    SetSlots(op, a, b, Unit(op));
    if Join(op, a, b).Some? {
      SetSlots(op, Unit(op), b, Join(op, a, b).value);
    }
  }

  /** The four visits of a pass over two operands that are no chains. */
  lemma PassOfTwo(op: Op, a: Expr, b: Expr)
    requires !Is(op, a) && !Is(op, b)
    ensures Leaf(op, Mk(op, a, b), [L]) && Leaf(op, Mk(op, a, b), [R])
    ensures Pass(op, Mk(op, a, b), [L], []) == JoinLeaves(op, Mk(op, a, b), [L], [R])
    ensures JoinLeaves(op, Mk(op, a, b), [R], [L]) == (Mk(op, a, b), 0) ==>
      Pass(op, Mk(op, a, b), [R], []) == (Mk(op, a, b), 0)
  {
    var t := Mk(op, a, b);
    LeafSlots(op, a, b);
    assert OnChain(op, t, []);
    assert [] + [L] == [L] && [] + [R] == [R];
    hide JoinLeaves, Pass, OnChain, Leaf;
    DownSecond(op, t, [L], []);
    AtLeaves(op, t, [L], [L]);
    AtLeaves(op, t, [L], [R]);
    DownSecond(op, t, [R], []);
    AtLeaves(op, t, [R], [L]);
    AtLeaves(op, t, [R], [R]);
  }

  /** An operand written down once more comes out once. */
  lemma RepeatedOnce(op: Op, e: Expr)
    requires !YesNo(e) && !Chain(e)
    ensures EliminateDups(Mk(op, e, e)) == e
  {
    var t, u := Mk(op, e, e), Mk(op, Unit(op), e);
    hide Pass, JoinLeaves, OnChain, Leaf, ExprEq;
    ExprEqReflexive(e);
    JoinTwo(op, e, e);
    PassOfTwo(op, e, e);
    SymbolEqual(e, Unit(op));
    JoinTwo(op, Unit(op), e);
    PassOfTwo(op, Unit(op), e);
    LeafSlots(op, e, e);
    assert [] + [L] == [L] && [] + [R] == [R];
    DownFirst(op, t, [], []);
    assert Pass(op, t, [], []) == (u, 1);
    assert OpOf(t) == op && EliminateYn(u) == e && EliminateDups(e) == e;
  }

  /** So an entry that repeats the dependency it inherits keeps it once. */
  lemma InheritedOnce(e: Expr)
    requires !YesNo(e) && !Chain(e) && Transform(e) == e
    ensures Inherit(Some(e), Some(e)) == Some(e)
  {
    RepeatedOnce(OpAnd, e);
  }
}
