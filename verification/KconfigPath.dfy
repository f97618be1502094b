/** Addresses inside an expression.  No two pointers of an expression lead to one node, so the
    slot behind a `struct expr **` is named by the turns taken from the root to reach it, and
    two slots hold the same pointer exactly when their paths are equal. */
module KconfigPath {
  import opened KconfigExpr

  datatype Dir = L | R
  type Path = seq<Dir>

  function Child(e: Expr, d: Dir): (c: Expr)
    requires Chain(e)
    ensures Size(c) < Size(e)
  {
    if d.L? then e.l else e.r
  }

  function WithChild(e: Expr, d: Dir, x: Expr): (r: Expr)
    requires Chain(e)
    ensures Chain(r) && OpOf(r) == OpOf(e)
  {
    if d.L? then Mk(OpOf(e), x, e.r) else Mk(OpOf(e), e.l, x)
  }

  /** p leads from e through and/or nodes. */
  predicate Valid(e: Expr, p: Path) {
    p == [] || (Chain(e) && Valid(Child(e, p[0]), p[1..]))
  }

  function At(e: Expr, p: Path): (r: Expr)
    requires Valid(e, p)
    ensures Size(r) + |p| <= Size(e)
  {
    if p == [] then e else At(Child(e, p[0]), p[1..])
  }

  function Set(e: Expr, p: Path, x: Expr): Expr
    requires Valid(e, p)
  {
    if p == [] then x else WithChild(e, p[0], Set(Child(e, p[0]), p[1..], x))
  }

  /** p passes only nodes of type op: it names a node or a leaf of the op-chain at e. */
  predicate OnChain(op: Op, e: Expr, p: Path) {
    p == [] || (Is(op, e) && OnChain(op, Child(e, p[0]), p[1..]))
  }

  /** p names a leaf of the op-chain at e. */
  predicate Leaf(op: Op, e: Expr, p: Path) {
    OnChain(op, e, p) && (OnChainValid(op, e, p); !Is(op, At(e, p)))
  }

  lemma {:induction false} OnChainValid(op: Op, e: Expr, p: Path)
    requires OnChain(op, e, p)
    ensures Valid(e, p)
  {
    if p != [] {
      OnChainValid(op, Child(e, p[0]), p[1..]);
    }
  }

  // ---------------------------------------------------------------- composition of paths

  lemma {:induction false} ValidAppend(e: Expr, p: Path, q: Path)
    requires Valid(e, p)
    ensures Valid(e, p + q) <==> Valid(At(e, p), q)
    ensures Valid(e, p + q) ==> At(e, p + q) == At(At(e, p), q)
  {
    if p == [] {
      assert p + q == q;
    } else {
      assert (p + q)[1..] == p[1..] + q;
      ValidAppend(Child(e, p[0]), p[1..], q);
    }
  }

  lemma {:induction false} SetAppend(e: Expr, p: Path, q: Path, x: Expr)
    requires Valid(e, p) && Valid(At(e, p), q)
    ensures Valid(e, p + q)
    ensures Set(e, p + q, x) == Set(e, p, Set(At(e, p), q, x))
  {
    ValidAppend(e, p, q);
    if p == [] {
      assert p + q == q;
    } else {
      assert (p + q)[1..] == p[1..] + q;
      SetAppend(Child(e, p[0]), p[1..], q, x);
    }
  }

  lemma {:induction false} OnChainStep(op: Op, e: Expr, p: Path, d: Dir)
    requires OnChain(op, e, p)
    ensures Valid(e, p)
    ensures OnChain(op, e, p + [d]) <==> Is(op, At(e, p))
    ensures Is(op, At(e, p)) ==> Valid(e, p + [d]) && At(e, p + [d]) == Child(At(e, p), d)
  {
    OnChainValid(op, e, p);
    if p == [] {
      assert p + [d] == [d];
    } else {
      assert (p + [d])[1..] == p[1..] + [d];
      OnChainStep(op, Child(e, p[0]), p[1..], d);
    }
  }

  // ---------------------------------------------------------------- reading after writing

  lemma {:induction false} SetGet(e: Expr, p: Path, x: Expr)
    requires Valid(e, p)
    ensures Valid(Set(e, p, x), p) && At(Set(e, p, x), p) == x
    ensures Set(e, p, At(e, p)) == e
    ensures Size(Set(e, p, x)) == Size(e) - Size(At(e, p)) + Size(x)
  {
    if p != [] {
      SetGet(Child(e, p[0]), p[1..], x);
    }
  }

  lemma {:induction false} SetSet(e: Expr, p: Path, x: Expr, y: Expr)
    requires Valid(e, p)
    ensures Valid(Set(e, p, x), p) && Set(Set(e, p, x), p, y) == Set(e, p, y)
  {
    if p != [] {
      SetSet(Child(e, p[0]), p[1..], x, y);
    }
  }

  /** Writing one leaf of a chain leaves every other leaf alone. */
  lemma {:induction false} SetOther(op: Op, e: Expr, p: Path, q: Path, x: Expr)
    requires Leaf(op, e, p) && Leaf(op, e, q) && p != q
    requires !Is(op, x)
    ensures Valid(e, p) && Valid(e, q) && Leaf(op, Set(e, p, x), q)
    ensures Valid(Set(e, p, x), q) && At(Set(e, p, x), q) == At(e, q)
  {
    OnChainValid(op, e, p);
    OnChainValid(op, e, q);
    if p != [] && q != [] && p[0] == q[0] {
      SetOther(op, Child(e, p[0]), p[1..], q[1..], x);
    }
  }

  // ---------------------------------------------------------------- shape of a chain

  predicate SameShape(op: Op, a: Expr, b: Expr) {
    Is(op, a) == Is(op, b) &&
    (Is(op, a) ==> SameShape(op, a.l, b.l) && SameShape(op, a.r, b.r))
  }

  function ChainNodes(op: Op, e: Expr): nat {
    if Is(op, e) then 1 + ChainNodes(op, e.l) + ChainNodes(op, e.r) else 0
  }

  lemma {:induction false} ShapeRefl(op: Op, a: Expr)
    ensures SameShape(op, a, a)
  {
    if Is(op, a) {
      ShapeRefl(op, a.l);
      ShapeRefl(op, a.r);
    }
  }

  lemma {:induction false} ShapeTrans(op: Op, a: Expr, b: Expr, c: Expr)
    requires SameShape(op, a, b) && SameShape(op, b, c)
    ensures SameShape(op, a, c)
  {
    if Is(op, a) {
      ShapeTrans(op, a.l, b.l, c.l);
      ShapeTrans(op, a.r, b.r, c.r);
    }
  }

  lemma {:induction false} ShapeAt(op: Op, a: Expr, b: Expr, p: Path)
    requires SameShape(op, a, b) && OnChain(op, a, p)
    ensures Valid(a, p) && Valid(b, p)
    ensures OnChain(op, b, p) && SameShape(op, At(a, p), At(b, p))
    ensures ChainNodes(op, At(a, p)) == ChainNodes(op, At(b, p))
  {
    OnChainValid(op, a, p);
    if p == [] {
      ShapeNodes(op, a, b);
    } else {
      ShapeAt(op, Child(a, p[0]), Child(b, p[0]), p[1..]);
    }
  }

  lemma {:induction false} ShapeNodes(op: Op, a: Expr, b: Expr)
    requires SameShape(op, a, b)
    ensures ChainNodes(op, a) == ChainNodes(op, b)
  {
    if Is(op, a) {
      ShapeNodes(op, a.l, b.l);
      ShapeNodes(op, a.r, b.r);
    }
  }

  lemma {:induction false} ShapeSet(op: Op, e: Expr, p: Path, x: Expr)
    requires Leaf(op, e, p) && !Is(op, x)
    ensures Valid(e, p) && SameShape(op, e, Set(e, p, x))
  {
    OnChainValid(op, e, p);
    if p != [] {
      ShapeSet(op, Child(e, p[0]), p[1..], x);
      ShapeRefl(op, if p[0].L? then e.r else e.l);
    }
  }
}
