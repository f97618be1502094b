/** expr_eliminate_dups: joining the leaves of an and/or chain with one another, in place. */
module KconfigDups {
  import opened Options
  import opened KconfigExpr
  import opened KconfigYn
  import opened KconfigPath
  import opened KconfigJoin

  /** Two writes after a successful join: *ep1 becomes the neutral constant, *ep2 the join. */
  function Merge(op: Op, t: Expr, p: Path, q: Path, x: Expr): (r: Expr)
    requires Leaf(op, t, p) && Leaf(op, t, q) && p != q && !Is(op, x)
    ensures SameShape(op, t, r)
    ensures Valid(t, p) && Valid(t, q) && Size(r) == Size(t) - Size(At(t, p)) + 1 - Size(At(t, q)) + Size(x)
  {
    OnChainValid(op, t, p);
    OnChainValid(op, t, q);
    var t1 := Set(t, p, Unit(op));
    SetOther(op, t, p, q, Unit(op));
    SetGet(t, p, Unit(op));
    ShapeSet(op, t, p, Unit(op));
    ShapeSet(op, t1, q, x);
    SetGet(t1, q, x);
    var r := Set(t1, q, x);
    ShapeTrans(op, t, t1, r);
    r
  }

  /** How much of the chain the two walks have before them. */
  function Slots(op: Op, t: Expr, p: Path, q: Path): (n: nat)
    requires OnChain(op, t, p) && OnChain(op, t, q)
    ensures n >= 1
  {
    OnChainValid(op, t, p);
    OnChainValid(op, t, q);
    1 + ChainNodes(op, At(t, p)) + ChainNodes(op, At(t, q))
  }

  /** One call of expr_eliminate_dups1 with both pointers inside one chain t: the chain it leaves
      behind and the number of joins it made.  Both walks see each other's writes. */
  function Pass(op: Op, t: Expr, p: Path, q: Path): (r: (Expr, nat))
    requires Is(op, t) && OnChain(op, t, p) && OnChain(op, t, q)
    ensures SameShape(op, t, r.0) && Size(r.0) <= Size(t)
    decreases Size(t), Slots(op, t, p, q)
  {
    OnChainValid(op, t, p);
    OnChainValid(op, t, q);
    if Is(op, At(t, p)) then
      OnChainStep(op, t, p, L);
      OnChainStep(op, t, p, R);
      var (t1, n1) := Pass(op, t, p + [L], q);
      ShapeAt(op, t, t1, p + [R]);
      ShapeAt(op, t, t1, q);
      var (t2, n2) := Pass(op, t1, p + [R], q);
      ShapeTrans(op, t, t1, t2);
      (t2, n1 + n2)
    else if Is(op, At(t, q)) then
      OnChainStep(op, t, q, L);
      OnChainStep(op, t, q, R);
      var (t1, n1) := Pass(op, t, p, q + [L]);
      ShapeAt(op, t, t1, p);
      ShapeAt(op, t, t1, q + [R]);
      var (t2, n2) := Pass(op, t1, p, q + [R]);
      ShapeTrans(op, t, t1, t2);
      (t2, n1 + n2)
    else if p == q then
      ShapeRefl(op, t);
      (t, 0)
    else
      JoinLeaves(op, t, p, q)
  }

  /** The body of expr_eliminate_dups1 for two different leaves: first the leaf behind *ep1 is
      reduced against itself if it is a chain of the other type, then the two are joined. */
  function JoinLeaves(op: Op, t: Expr, p: Path, q: Path): (r: (Expr, nat))
    requires Is(op, t) && Leaf(op, t, p) && Leaf(op, t, q) && p != q
    ensures SameShape(op, t, r.0) && Size(r.0) <= Size(t)
    decreases Size(t), 0
  {
    OnChainValid(op, t, p);
    OnChainValid(op, t, q);
    var e1 := At(t, p);
    var (e1', n) := if Chain(e1) then Pass(OpOf(e1), e1, [], []) else (e1, 0);
    ShapeSet(op, t, p, e1');
    SetGet(t, p, e1');
    SetOther(op, t, p, q, e1');
    var t1 := Set(t, p, e1');
    ShapeAt(op, t, t1, p);
    var e2 := At(t, q);
    var j := Join(op, e1', e2);
    JoinShape(op, e1', e2);
    if j.None? then (t1, n)
    else
      ShapeTrans(op, t, t1, Merge(op, t1, p, q, j.value));
      (Merge(op, t1, p, q, j.value), n + 1)
  }

  /** A pass whose first slot is no leaf: both of its parts in turn. */
  lemma DownFirst(op: Op, t: Expr, p: Path, q: Path)
    requires Is(op, t) && OnChain(op, t, p) && OnChain(op, t, q) && !Leaf(op, t, p)
    ensures OnChain(op, t, p + [L]) && Slots(op, t, p + [L], q) < Slots(op, t, p, q)
    ensures OnChain(op, t, p + [R]) && Slots(op, t, p + [R], q) < Slots(op, t, p, q)
    ensures var (t1, n1) := Pass(op, t, p + [L], q);
      && Is(op, t1) && OnChain(op, t1, p + [R]) && OnChain(op, t1, q) && Size(t1) <= Size(t)
      && Slots(op, t1, p + [R], q) < Slots(op, t, p, q)
      && var (t2, n2) := Pass(op, t1, p + [R], q);
         Pass(op, t, p, q) == (t2, n1 + n2)
  {
    hide Slots, SameShape;
    SlotsDown(op, t, p, q, L);
    SlotsDown(op, t, p, q, R);
    hide OnChain;
    var t1 := Pass(op, t, p + [L], q).0;
    ShapeKeepsSlots(op, t, t1, p + [R], q);
    FirstUnfolds(op, t, p, q);
  }

  lemma FirstUnfolds(op: Op, t: Expr, p: Path, q: Path)
    requires Is(op, t) && OnChain(op, t, p) && OnChain(op, t, q) && !Leaf(op, t, p)
    requires OnChain(op, t, p + [L])
    requires var t1 := Pass(op, t, p + [L], q).0; Is(op, t1) && OnChain(op, t1, p + [R]) && OnChain(op, t1, q)
    ensures var (t1, n1) := Pass(op, t, p + [L], q);
      var (t2, n2) := Pass(op, t1, p + [R], q);
      Pass(op, t, p, q) == (t2, n1 + n2)
  {
    hide Slots, SameShape, JoinLeaves, OnChain;
  }

  lemma SlotsDown(op: Op, t: Expr, p: Path, q: Path, d: Dir)
    requires OnChain(op, t, p) && OnChain(op, t, q) && !Leaf(op, t, p)
    ensures OnChain(op, t, p + [d])
    ensures Slots(op, t, p + [d], q) < Slots(op, t, p, q) && Slots(op, t, q, p + [d]) < Slots(op, t, q, p)
  {
    OnChainStep(op, t, p, d);
  }

  lemma ShapeKeepsSlots(op: Op, t: Expr, t1: Expr, p: Path, q: Path)
    requires SameShape(op, t, t1) && OnChain(op, t, p) && OnChain(op, t, q) && Is(op, t)
    ensures Is(op, t1) && OnChain(op, t1, p) && OnChain(op, t1, q) && Slots(op, t1, p, q) == Slots(op, t, p, q)
  {
    ShapeAt(op, t, t1, p);
    ShapeAt(op, t, t1, q);
  }

  /** A pass whose first slot is a leaf and whose second is not. */
  lemma DownSecond(op: Op, t: Expr, p: Path, q: Path)
    requires Is(op, t) && Leaf(op, t, p) && OnChain(op, t, q) && !Leaf(op, t, q)
    ensures OnChain(op, t, q + [L]) && Slots(op, t, p, q + [L]) < Slots(op, t, p, q)
    ensures OnChain(op, t, q + [R]) && Slots(op, t, p, q + [R]) < Slots(op, t, p, q)
    ensures var (t1, n1) := Pass(op, t, p, q + [L]);
      && Is(op, t1) && OnChain(op, t1, p) && OnChain(op, t1, q + [R]) && Size(t1) <= Size(t)
      && Slots(op, t1, p, q + [R]) < Slots(op, t, p, q)
      && var (t2, n2) := Pass(op, t1, p, q + [R]);
         Pass(op, t, p, q) == (t2, n1 + n2)
  {
    hide Slots, SameShape;
    SlotsDown(op, t, q, p, L);
    SlotsDown(op, t, q, p, R);
    hide OnChain;
    var t1 := Pass(op, t, p, q + [L]).0;
    ShapeKeepsSlots(op, t, t1, p, q + [R]);
    SecondUnfolds(op, t, p, q);
  }

  lemma SecondUnfolds(op: Op, t: Expr, p: Path, q: Path)
    requires Is(op, t) && Leaf(op, t, p) && OnChain(op, t, q) && !Leaf(op, t, q)
    requires OnChain(op, t, q + [L])
    requires var t1 := Pass(op, t, p, q + [L]).0; Is(op, t1) && OnChain(op, t1, p) && OnChain(op, t1, q + [R])
    ensures var (t1, n1) := Pass(op, t, p, q + [L]);
      var (t2, n2) := Pass(op, t1, p, q + [R]);
      Pass(op, t, p, q) == (t2, n1 + n2)
  {
    hide Slots, SameShape, JoinLeaves, OnChain;
  }

  lemma AtLeaves(op: Op, t: Expr, p: Path, q: Path)
    requires Is(op, t) && Leaf(op, t, p) && Leaf(op, t, q)
    ensures Pass(op, t, p, q) == if p == q then (t, 0) else JoinLeaves(op, t, p, q)
  {
  }

  // ---------------------------------------------------------------- value

  /** The value of everything on the chain except the leaves (or subchains) at p and q. */
  function Rest(op: Op, t: Expr, p: Path, q: Path, v: Valuation): Tri
    requires OnChain(op, t, p) && OnChain(op, t, q)
    requires !(p <= q) && !(q <= p)
  {
    if p[0] == q[0] then
      Combine(op, Rest(op, Child(t, p[0]), p[1..], q[1..], v), Value(Child(t, if p[0].L? then R else L), v))
    else
      Combine(op, Rest1(op, Child(t, p[0]), p[1..], v), Rest1(op, Child(t, q[0]), q[1..], v))
  }

  /** The same with one hole. */
  function Rest1(op: Op, t: Expr, p: Path, v: Valuation): Tri
    requires OnChain(op, t, p)
  {
    if p == [] then if op.OpAnd? then YES else NO
    else Combine(op, Rest1(op, Child(t, p[0]), p[1..], v), Value(Child(t, if p[0].L? then R else L), v))
  }

  lemma {:induction false} ValueOneHole(op: Op, t: Expr, p: Path, x: Expr, v: Valuation)
    requires OnChain(op, t, p)
    ensures Valid(t, p) && Value(Set(t, p, x), v) == Combine(op, Value(x, v), Rest1(op, t, p, v))
  {
    OnChainValid(op, t, p);
    if p != [] {
      ValueOneHole(op, Child(t, p[0]), p[1..], x, v);
    }
  }

  lemma {:induction false} LeavesDiverge(op: Op, t: Expr, p: Path, q: Path)
    requires Leaf(op, t, p) && Leaf(op, t, q) && p != q
    ensures !(p <= q) && !(q <= p)
  {
    if p != [] && q != [] && p[0] == q[0] {
      LeavesDiverge(op, Child(t, p[0]), p[1..], q[1..]);
    }
  }

  /** Two writes below the same child, or below different children. */
  lemma SetTwice(t: Expr, p: Path, q: Path, x: Expr, y: Expr)
    requires Valid(t, p) && Valid(t, q) && p != [] && q != []
    requires p[0] == q[0] ==> Valid(Set(Child(t, p[0]), p[1..], x), q[1..])
    ensures Valid(Set(t, p, x), q)
    ensures p[0] == q[0] ==>
      Set(Set(t, p, x), q, y) == WithChild(t, p[0], Set(Set(Child(t, p[0]), p[1..], x), q[1..], y))
    ensures p[0] != q[0] ==>
      Set(Set(t, p, x), q, y)
        == WithChild(WithChild(t, p[0], Set(Child(t, p[0]), p[1..], x)), q[0], Set(Child(t, q[0]), q[1..], y))
  {
  }

  lemma {:induction false} ValueTwoHoles(op: Op, t: Expr, p: Path, q: Path, x: Expr, y: Expr, v: Valuation)
    requires OnChain(op, t, p) && OnChain(op, t, q) && !(p <= q) && !(q <= p)
    ensures Valid(t, p) && Valid(Set(t, p, x), q)
    ensures Value(Set(Set(t, p, x), q, y), v)
         == Combine(op, Combine(op, Value(x, v), Value(y, v)), Rest(op, t, p, q, v))
    decreases |p|
  {
    OnChainValid(op, t, p);
    OnChainValid(op, t, q);
    var a, b := Child(t, p[0]), Child(t, q[0]);
    if p[0] == q[0] {
      ValueTwoHoles(op, a, p[1..], q[1..], x, y, v);
      SetTwice(t, p, q, x, y);
      var a' := Set(Set(a, p[1..], x), q[1..], y);
      var other := Value(Child(t, if p[0].L? then R else L), v);
      WithChildValue(op, t, p[0], a', v);
      CombineAC(op, Combine(op, Value(x, v), Value(y, v)), Rest(op, a, p[1..], q[1..], v), other, 0);
    } else {
      SetTwice(t, p, q, x, y);
      ValueDiverging(op, t, p, q, x, y, v);
    }
  }

  lemma ValueDiverging(op: Op, t: Expr, p: Path, q: Path, x: Expr, y: Expr, v: Valuation)
    requires OnChain(op, t, p) && OnChain(op, t, q) && p != [] && q != [] && p[0] != q[0]
    requires Valid(Child(t, p[0]), p[1..]) && Valid(Child(t, q[0]), q[1..])
    ensures Value(WithChild(WithChild(t, p[0], Set(Child(t, p[0]), p[1..], x)), q[0], Set(Child(t, q[0]), q[1..], y)), v)
         == Combine(op, Combine(op, Value(x, v), Value(y, v)), Rest(op, t, p, q, v))
  {
    var a, b := Child(t, p[0]), Child(t, q[0]);
    ValueOneHole(op, a, p[1..], x, v);
    ValueOneHole(op, b, q[1..], y, v);
    var a', b' := Set(a, p[1..], x), Set(b, q[1..], y);
    var t' := WithChild(t, p[0], a');
    WithChildValue(op, t', q[0], b', v);
    assert Child(t', if q[0].L? then R else L) == a';
    CombineAC(op, Value(x, v), Rest1(op, a, p[1..], v), Value(y, v), Rest1(op, b, q[1..], v));
    CombineAC(op, Value(a', v), Value(b', v), 0, 0);
  }

  lemma WithChildValue(op: Op, t: Expr, d: Dir, x: Expr, v: Valuation)
    requires Is(op, t)
    ensures Value(WithChild(t, d, x), v) == Combine(op, Value(x, v), Value(Child(t, if d.L? then R else L), v))
  {
  }

  lemma MergeValue(op: Op, t: Expr, p: Path, q: Path, x: Expr, v: Valuation)
    requires Respects(v)
    requires Leaf(op, t, p) && Leaf(op, t, q) && p != q && !Is(op, x)
    requires Valid(t, p) && Valid(t, q)
    requires Value(x, v) == Combine(op, Value(At(t, p), v), Value(At(t, q), v))
    ensures Value(Merge(op, t, p, q, x), v) == Value(t, v)
  {
    LeavesDiverge(op, t, p, q);
    ValueTwoHoles(op, t, p, q, At(t, p), At(t, q), v);
    SetGet(t, p, At(t, p));
    SetGet(t, q, At(t, q));
    ValueTwoHoles(op, t, p, q, Unit(op), x, v);
  }

  /** A pass keeps the value of the chain, although the walk joins leaves it has not met yet with
      leaves it has already rewritten. */
  lemma {:induction false} PassKeepsValue(op: Op, t: Expr, p: Path, q: Path, v: Valuation)
    requires Is(op, t) && OnChain(op, t, p) && OnChain(op, t, q) && Respects(v)
    ensures Value(Pass(op, t, p, q).0, v) == Value(t, v)
    decreases Size(t), Slots(op, t, p, q)
  {
    hide Pass, JoinLeaves, Slots, Leaf, OnChain, Value;
    if !Leaf(op, t, p) {
      DownFirst(op, t, p, q);
      PassKeepsValue(op, t, p + [L], q, v);
      PassKeepsValue(op, Pass(op, t, p + [L], q).0, p + [R], q, v);
    } else if !Leaf(op, t, q) {
      DownSecond(op, t, p, q);
      PassKeepsValue(op, t, p, q + [L], v);
      PassKeepsValue(op, Pass(op, t, p, q + [L]).0, p, q + [R], v);
    } else {
      AtLeaves(op, t, p, q);
      if p != q { JoinKeepsValue(op, t, p, q, v); }
    }
  }

  lemma {:induction false} JoinKeepsValue(op: Op, t: Expr, p: Path, q: Path, v: Valuation)
    requires Is(op, t) && Leaf(op, t, p) && Leaf(op, t, q) && p != q && Respects(v)
    ensures Value(JoinLeaves(op, t, p, q).0, v) == Value(t, v)
    decreases Size(t), 0
  {
    OnChainValid(op, t, p);
    OnChainValid(op, t, q);
    var e1 := At(t, p);
    var e1' := if Chain(e1) then Pass(OpOf(e1), e1, [], []).0 else e1;
    if Chain(e1) {
      PassKeepsValue(OpOf(e1), e1, [], [], v);
    }
    ValueOneHole(op, t, p, e1, v);
    ValueOneHole(op, t, p, e1', v);
    SetGet(t, p, e1);
    SetGet(t, p, e1');
    ShapeSet(op, t, p, e1');
    var t1 := Set(t, p, e1');
    ShapeAt(op, t, t1, p);
    SetOther(op, t, p, q, e1');
    JoinShape(op, e1', At(t, q));
    var j := Join(op, e1', At(t, q));
    if j.Some? {
      JoinSound(op, e1', At(t, q), v);
      MergeValue(op, t1, p, q, j.value, v);
    }
  }

  // ---------------------------------------------------------------- progress

  /** Writing a removable constant, or anything reducible, somewhere below and/or nodes makes the
      whole expression reducible by expr_eliminate_yn. */
  lemma {:induction false} HoleNotYnFree(e: Expr, p: Path, x: Expr)
    requires Valid(e, p)
    requires !YnFree(x) || (p != [] && YesNo(x))
    ensures !YnFree(Set(e, p, x))
  {
    if p != [] {
      if p[1..] != [] || !YnFree(x) {
        HoleNotYnFree(Child(e, p[0]), p[1..], x);
      }
    }
  }

  lemma MergeNotYnFree(op: Op, t: Expr, p: Path, q: Path, x: Expr)
    requires Leaf(op, t, p) && Leaf(op, t, q) && p != q && !Is(op, x) && Is(op, t)
    ensures !YnFree(Merge(op, t, p, q, x))
  {
    OnChainValid(op, t, p);
    OnChainValid(op, t, q);
    var t1 := Set(t, p, Unit(op));
    SetOther(op, t, p, q, Unit(op));
    SetGet(t, p, Unit(op));
    ShapeSet(op, t, p, Unit(op));
    ShapeAt(op, t, t1, p);
    SetOther(op, t1, q, p, x);
    var r := Set(t1, q, x);
    SetGet(r, p, Unit(op));
    HoleNotYnFree(r, p, Unit(op));
  }

  /** A pass that joined something left a removable constant behind; a pass that joined nothing
      changed nothing. */
  lemma {:induction false} PassProgress(op: Op, t: Expr, p: Path, q: Path)
    requires Is(op, t) && OnChain(op, t, p) && OnChain(op, t, q)
    ensures var (r, n) := Pass(op, t, p, q); if n == 0 then r == t else !YnFree(r)
    decreases Size(t), Slots(op, t, p, q)
  {
    hide Pass, JoinLeaves, Slots, Leaf, OnChain, YnFree;
    if !Leaf(op, t, p) {
      DownFirst(op, t, p, q);
      PassProgress(op, t, p + [L], q);
      PassProgress(op, Pass(op, t, p + [L], q).0, p + [R], q);
    } else if !Leaf(op, t, q) {
      DownSecond(op, t, p, q);
      PassProgress(op, t, p, q + [L]);
      PassProgress(op, Pass(op, t, p, q + [L]).0, p, q + [R]);
    } else {
      AtLeaves(op, t, p, q);
      if p != q { JoinProgress(op, t, p, q); }
    }
  }

  lemma {:induction false} JoinProgress(op: Op, t: Expr, p: Path, q: Path)
    requires Is(op, t) && Leaf(op, t, p) && Leaf(op, t, q) && p != q
    ensures var (r, n) := JoinLeaves(op, t, p, q); if n == 0 then r == t else !YnFree(r)
    decreases Size(t), 0
  {
    OnChainValid(op, t, p);
    OnChainValid(op, t, q);
    var e1 := At(t, p);
    var (e1', n) := if Chain(e1) then Pass(OpOf(e1), e1, [], []) else (e1, 0);
    if Chain(e1) {
      PassProgress(OpOf(e1), e1, [], []);
      if n > 0 {
        HoleNotYnFree(t, p, e1');
      }
    }
    SetGet(t, p, e1);
    SetGet(t, p, e1');
    ShapeSet(op, t, p, e1');
    var t1 := Set(t, p, e1');
    ShapeAt(op, t, t1, p);
    SetOther(op, t, p, q, e1');
    JoinShape(op, e1', At(t, q));
    var j := Join(op, e1', At(t, q));
    if j.Some? {
      MergeNotYnFree(op, t1, p, q, j.value);
    }
  }

  // ---------------------------------------------------------------- fixpoint

  /** No two leaves of the chain can be joined, in either order, and neither can the leaves of any
      chain of the other type that is a leaf here. */
  ghost predicate Settled(op: Op, t: Expr)
    requires Is(op, t)
    decreases Size(t), 2
  {
    forall p: Path, q: Path :: Leaf(op, t, p) && Leaf(op, t, q) && p != q ==> PairSettled(op, t, p, q)
  }

  ghost predicate PairSettled(op: Op, t: Expr, p: Path, q: Path)
    requires Is(op, t) && Leaf(op, t, p) && Leaf(op, t, q)
    decreases Size(t), 1
  {
    OnChainValid(op, t, p);
    OnChainValid(op, t, q);
    && Join(op, At(t, p), At(t, q)).None?
    && (Chain(At(t, p)) ==> Settled(OpOf(At(t, p)), At(t, p)))
  }

  /** A leaf at or below p, when p is not a leaf itself, is below one of p's children. */
  lemma LeafBelow(op: Op, t: Expr, p: Path, leaf: Path)
    requires OnChain(op, t, p) && Valid(t, p) && Is(op, At(t, p)) && Leaf(op, t, leaf) && p <= leaf
    ensures p + [L] <= leaf || p + [R] <= leaf
  {
    OnChainValid(op, t, leaf);
    assert p != leaf && leaf[..|p|] == p;
    assert leaf[..|p| + 1] == p + [leaf[|p|]] <= leaf;
    assert leaf[|p|] == L || leaf[|p|] == R;
  }

  /** Conversely a leaf is the only leaf at or below itself. */
  lemma LeafAlone(op: Op, t: Expr, p: Path, leaf: Path)
    requires Leaf(op, t, p) && Leaf(op, t, leaf) && p <= leaf
    ensures p == leaf
  {
    if p != leaf {
      LeavesDiverge(op, t, p, leaf);
    }
  }

  /** Every pair of different leaves, the first at or below p and the second at or below q. */
  ghost predicate AllSettled(op: Op, t: Expr, p: Path, q: Path)
    requires Is(op, t)
    decreases Size(t), 3
  {
    forall p': Path, q': Path ::
      Leaf(op, t, p') && Leaf(op, t, q') && p <= p' && q <= q' && p' != q' ==> PairSettled(op, t, p', q')
  }

  lemma AllSettledFirst(op: Op, t: Expr, p: Path, q: Path)
    requires Is(op, t) && OnChain(op, t, p) && Valid(t, p) && Is(op, At(t, p))
    ensures AllSettled(op, t, p, q) <==> AllSettled(op, t, p + [L], q) && AllSettled(op, t, p + [R], q)
  {
    forall leaf: Path | Leaf(op, t, leaf) && p <= leaf
      ensures p + [L] <= leaf || p + [R] <= leaf
    {
      LeafBelow(op, t, p, leaf);
    }
  }

  lemma AllSettledSecond(op: Op, t: Expr, p: Path, q: Path)
    requires Is(op, t) && OnChain(op, t, q) && Valid(t, q) && Is(op, At(t, q))
    ensures AllSettled(op, t, p, q) <==> AllSettled(op, t, p, q + [L]) && AllSettled(op, t, p, q + [R])
  {
    forall leaf: Path | Leaf(op, t, leaf) && q <= leaf
      ensures q + [L] <= leaf || q + [R] <= leaf
    {
      LeafBelow(op, t, q, leaf);
    }
  }

  lemma AllSettledLeaves(op: Op, t: Expr, p: Path, q: Path)
    requires Is(op, t) && Leaf(op, t, p) && Leaf(op, t, q)
    ensures AllSettled(op, t, p, q) <==> p == q || PairSettled(op, t, p, q)
  {
    forall leaf: Path | Leaf(op, t, leaf)
      ensures p <= leaf ==> p == leaf
      ensures q <= leaf ==> q == leaf
    {
      if p <= leaf { LeafAlone(op, t, p, leaf); }
      if q <= leaf { LeafAlone(op, t, q, leaf); }
    }
  }

  /** A pass makes no join exactly when every pair of leaves it covers is settled. */
  lemma {:induction false} PassIdle(op: Op, t: Expr, p: Path, q: Path)
    requires Is(op, t) && OnChain(op, t, p) && OnChain(op, t, q)
    ensures Pass(op, t, p, q).1 == 0 <==> AllSettled(op, t, p, q)
    decreases Size(t), Slots(op, t, p, q)
  {
    hide Pass, JoinLeaves, Slots, AllSettled, PairSettled;
    OnChainValid(op, t, p);
    OnChainValid(op, t, q);
    if !Leaf(op, t, p) {
      DownFirst(op, t, p, q);
      PassProgress(op, t, p + [L], q);
      PassIdle(op, t, p + [L], q);
      PassIdle(op, t, p + [R], q);
      AllSettledFirst(op, t, p, q);
    } else if !Leaf(op, t, q) {
      DownSecond(op, t, p, q);
      PassProgress(op, t, p, q + [L]);
      PassIdle(op, t, p, q + [L]);
      PassIdle(op, t, p, q + [R]);
      AllSettledSecond(op, t, p, q);
    } else {
      AtLeaves(op, t, p, q);
      AllSettledLeaves(op, t, p, q);
      if p != q { JoinIdle(op, t, p, q); }
    }
  }

  lemma SettledIsAll(op: Op, t: Expr)
    requires Is(op, t)
    ensures Settled(op, t) <==> AllSettled(op, t, [], [])
  {
  }

  lemma {:induction false} JoinIdle(op: Op, t: Expr, p: Path, q: Path)
    requires Is(op, t) && Leaf(op, t, p) && Leaf(op, t, q) && p != q
    ensures JoinLeaves(op, t, p, q).1 == 0 <==> PairSettled(op, t, p, q)
    decreases Size(t), 0
  {
    OnChainValid(op, t, p);
    OnChainValid(op, t, q);
    var e1 := At(t, p);
    if Chain(e1) {
      PassIdle(OpOf(e1), e1, [], []);
      SettledIsAll(OpOf(e1), e1);
      PassProgress(OpOf(e1), e1, [], []);
    }
  }

  // ---------------------------------------------------------------- the outer loop

  function EliminateDups(e: Expr): (r: Expr)
    decreases Size(e)
  {
    if !Chain(e) then e
    else
      var (r, n) := Pass(OpOf(e), e, [], []);
      if n == 0 then r
      else
        PassProgress(OpOf(e), e, [], []);
        YnNormalForm(r);
        EliminateDups(EliminateYn(r))
  }

  lemma {:induction false} DupsKeepValue(e: Expr, v: Valuation)
    requires Respects(v)
    ensures Value(EliminateDups(e), v) == Value(e, v)
    decreases Size(e)
  {
    if Chain(e) {
      var (r, n) := Pass(OpOf(e), e, [], []);
      PassKeepsValue(OpOf(e), e, [], [], v);
      PassProgress(OpOf(e), e, [], []);
      YnNormalForm(r);
      YnPreservesValue(r, v);
      if n > 0 {
        DupsKeepValue(EliminateYn(r), v);
      }
    }
  }

  /** The result is settled, and running again on a settled expression is the identity. */
  lemma {:induction false} DupsSettle(e: Expr)
    ensures var r := EliminateDups(e); (Chain(r) ==> Settled(OpOf(r), r)) && EliminateDups(r) == r
    ensures EliminateDups(e) == e <==> (Chain(e) ==> Settled(OpOf(e), e))
    ensures Size(EliminateDups(e)) <= Size(e)
    decreases Size(e)
  {
    if Chain(e) {
      var (r, n) := Pass(OpOf(e), e, [], []);
      PassProgress(OpOf(e), e, [], []);
      PassIdle(OpOf(e), e, [], []);
      SettledIsAll(OpOf(e), e);
      YnNormalForm(r);
      if n > 0 {
        DupsSettle(EliminateYn(r));
      }
    }
  }

  // ---------------------------------------------------------------- in place

  /** The expression behind `e` and the counter trans_count. */
  class Rewriter {
    var root: Expr
    var transCount: nat

    constructor (e: Expr)
      ensures root == e && transCount == 0
    {
      root := e;
      transCount := 0;
    }

    /** *ep1 and *ep2 are the slots base + p and base + q of one expression. */
    method EliminateDups1(op: Op, base: Path, p: Path, q: Path)
      requires Valid(root, base) && Is(op, At(root, base))
      requires OnChain(op, At(root, base), p) && OnChain(op, At(root, base), q)
      modifies this
      ensures root == Set(old(root), base, Pass(op, At(old(root), base), p, q).0)
      ensures transCount == old(transCount) + Pass(op, At(old(root), base), p, q).1
      decreases Size(At(root, base)),
        Slots(op, At(root, base), p, q)
    {
      ghost var e, t := root, At(root, base);
      SlotIs(op, e, base, p);
      SlotIs(op, e, base, q);
      SetGet(e, base, t);
      hide Pass, JoinLeaves, Slots, Leaf, OnChain, At, Set, Valid;
      if Is(op, At(root, base + p)) {
        DownFirst(op, t, p, q);
        ghost var t1 := Pass(op, t, p + [L], q).0;
        SetGet(e, base, t1);
        SetSet(e, base, t1, Pass(op, t1, p + [R], q).0);
        EliminateDups1(op, base, p + [L], q);
        EliminateDups1(op, base, p + [R], q);
      } else if Is(op, At(root, base + q)) {
        DownSecond(op, t, p, q);
        ghost var t1 := Pass(op, t, p, q + [L]).0;
        SetGet(e, base, t1);
        SetSet(e, base, t1, Pass(op, t1, p, q + [R]).0);
        EliminateDups1(op, base, p, q + [L]);
        EliminateDups1(op, base, p, q + [R]);
      } else {
        AtLeaves(op, t, p, q);
        if p != q {
          JoinSlots(op, base, p, q);
        }
      }
    }

    method JoinSlots(op: Op, base: Path, p: Path, q: Path)
      requires Valid(root, base) && Is(op, At(root, base)) && p != q
      requires Leaf(op, At(root, base), p) && Leaf(op, At(root, base), q)
      modifies this
      ensures root == Set(old(root), base, JoinLeaves(op, At(old(root), base), p, q).0)
      ensures transCount == old(transCount) + JoinLeaves(op, At(old(root), base), p, q).1
      decreases Size(At(root, base)), 0
    {
      hide Pass, Join;
      ghost var e, t := root, At(root, base);
      OnChainValid(op, t, p);
      OnChainValid(op, t, q);
      ValidAppend(root, base, p);
      ValidAppend(root, base, q);
      ghost var e1 := At(t, p);
      ghost var e1' := if Chain(e1) then Pass(OpOf(e1), e1, [], []).0 else e1;
      SetAppend(e, base, p, e1');
      SetGet(t, p, e1);
      SetGet(e, base, t);
      ShapeSet(op, t, p, e1');
      ghost var t1 := Set(t, p, e1');
      ShapeAt(op, t, t1, p);
      SetGet(t, p, e1');
      SetOther(op, t, p, q, e1');
      if Chain(At(root, base + p)) {
        EliminateDups1(OpOf(At(root, base + p)), base + p, [], []);
      }
      assert root == Set(e, base, t1);
      SlotsOf(e, base, t1, p);
      SlotsOf(e, base, t1, q);
      var joined := Join(op, At(root, base + p), At(root, base + q));
      JoinShape(op, e1', At(t, q));
      if joined.Some? {
        ShapeSet(op, t1, p, Unit(op));
        ghost var t2 := Set(t1, p, Unit(op));
        SetOther(op, t1, p, q, Unit(op));
        root := Set(root, base + p, Unit(op));
        SlotsOf(e, base, t2, q);
        root := Set(root, base + q, joined.value);
        SetSet(e, base, t2, Set(t2, q, joined.value));
        transCount := transCount + 1;
      }
    }

    /** expr_eliminate_dups. */
    method EliminateDuplicates()
      modifies this
      ensures root == EliminateDups(old(root)) && transCount == old(transCount)
    {
      var oldCount := transCount;
      while true
        invariant EliminateDups(root) == EliminateDups(old(root))
        decreases Size(root)
      {
        transCount := 0;
        ghost var before := root;
        if Chain(root) {
          PassProgress(OpOf(root), root, [], []);
          YnNormalForm(Pass(OpOf(root), root, [], []).0);
          EliminateDups1(OpOf(root), [], [], []);
        }
        if transCount == 0 {
          break;
        }
        root := EliminateYn(root);
      }
      transCount := oldCount;
    }
  }

  /** A slot of the chain at base is a leaf unless an operator of the chain stands there. */
  lemma SlotIs(op: Op, e: Expr, base: Path, p: Path)
    requires Valid(e, base) && OnChain(op, At(e, base), p)
    ensures Valid(e, base + p) && (Leaf(op, At(e, base), p) <==> !Is(op, At(e, base + p)))
  {
    OnChainValid(op, At(e, base), p);
    ValidAppend(e, base, p);
  }

  /** A slot below base in an expression whose subtree at base is t. */
  lemma SlotsOf(e: Expr, base: Path, t: Expr, p: Path)
    requires Valid(e, base) && Valid(t, p)
    ensures Valid(Set(e, base, t), base + p)
    ensures At(Set(e, base, t), base + p) == At(t, p)
    ensures forall x :: Set(Set(e, base, t), base + p, x) == Set(e, base, Set(t, p, x))
  {
    SetGet(e, base, t);
    ValidAppend(Set(e, base, t), base, p);
    forall x
      ensures Set(Set(e, base, t), base + p, x) == Set(e, base, Set(t, p, x))
    {
      SetAppend(Set(e, base, t), base, p, x);
      SetSet(e, base, t, Set(t, p, x));
    }
  }
}
