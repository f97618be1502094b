/** Expressions as nodes that are overwritten and relinked, the way
    expr_eliminate_yn and expr_transform rewrite them. */
module KconfigNodes {
  import opened KconfigExpr
  import Yn = KconfigYn
  import T = KconfigTransform

  datatype ExprType = ESymbol | ENot | EAnd | EOr | EComp(rel: Rel)

  /** Both sides negated, under the other connective. */
  function Dual(e: Expr): Expr {
    match e
    case Or(l, r) => And(Not(l), Not(r))
    case And(l, r) => Or(Not(l), Not(r))
    case _ => e
  }

  class ExprNode {
    var kind: ExprType
    var left: ExprNode?
    var right: ExprNode?
    var leftSym: Symbol
    var rightSym: Symbol

    // The expression that the node stands for, and the nodes it is made of.
    ghost var tree: Expr
    ghost var Repr: set<object>

    ghost predicate Valid()
      reads this, Repr
      decreases Repr
    {
      && this in Repr
      && match kind
         case ESymbol => tree == Symbol(leftSym)
         case EComp(rel) => tree == Cmp(rel, leftSym, rightSym)
         case ENot => Child(left) && tree == Not(left.tree)
         case EAnd => Child(left) && Child(right) && left.Repr !! right.Repr && tree == And(left.tree, right.tree)
         case EOr => Child(left) && Child(right) && left.Repr !! right.Repr && tree == Or(left.tree, right.tree)
    }

    ghost predicate Child(c: ExprNode?)
      requires this in Repr
      reads this, Repr
      decreases Repr, 0
    {
      c != null && c in Repr && c.Repr <= Repr - {this} && c.Valid()
    }

    constructor OfSymbol(s: Symbol)
      ensures Valid() && fresh(Repr) && tree == Symbol(s)
    {
      kind, left, right, leftSym, rightSym := ESymbol, null, null, s, s;
      tree, Repr := Symbol(s), {this};
    }

    constructor OfNot(c: ExprNode)
      requires c.Valid()
      ensures Valid() && fresh(Repr - c.Repr) && Repr == {this} + c.Repr && tree == Not(c.tree)
    {
      kind, left, right, leftSym, rightSym := ENot, c, null, SymNo, SymNo;
      tree, Repr := Not(c.tree), {this} + c.Repr;
    }

    /** Overwrites the node with a constant. */
    method SetSymbol(s: Symbol)
      requires Valid()
      modifies this
      ensures Valid() && tree == Symbol(s) && Repr == {this}
    {
      kind, left, right, leftSym := ESymbol, null, null, s;
      tree, Repr := Symbol(s), {this};
    }

    /** Copies a node below over this one. */
    method Become(c: ExprNode)
      requires Valid() && Child(c)
      modifies this
      ensures Valid() && tree == old(c.tree) && Repr <= old(Repr)
    {
      assert this !in c.Repr && c.Valid();
      ghost var l, r := c.left, c.right;
      assert !c.kind.ESymbol? && !c.kind.EComp? ==> c.Child(l);
      assert c.kind.EAnd? || c.kind.EOr? ==> c.Child(r);
      kind, left, right, leftSym, rightSym := c.kind, c.left, c.right, c.leftSym, c.rightSym;
      tree, Repr := c.tree, {this} + (c.Repr - {c});
      if !kind.ESymbol? && !kind.EComp? {
        assert l.Repr <= Repr - {this} && l.Valid();
        assert l in l.Repr;
      }
      if kind.EAnd? || kind.EOr? {
        assert r.Repr <= Repr - {this} && r.Valid();
        assert r in r.Repr;
      }
    }

    method IsConstant(s: Symbol) returns (b: bool)
      requires Valid()
      ensures b <==> tree == Symbol(s)
    {
      b := kind == ESymbol && leftSym == s;
    }

    /** Removes the constants 'y' and 'n' from a tree of and/or nodes in place. */
    method EliminateYn()
      requires Valid()
      modifies Repr
      ensures Valid() && Repr <= old(Repr)
      ensures tree == Yn.EliminateYn(old(tree))
      decreases Size(tree)
    {
      if kind == EAnd || kind == EOr {
        ghost var t, op := tree, OpOf(tree);
        ReduceBoth();
        var isAnd := kind == EAnd;
        var unit := if isAnd then SymYes else SymNo;
        var zero := if isAnd then SymNo else SymYes;
        var leftZero := left.IsConstant(zero);
        var leftUnit := left.IsConstant(unit);
        var rightZero := right.IsConstant(zero);
        var rightUnit := right.IsConstant(unit);
        if leftZero {
          SetSymbol(zero);
        } else if leftUnit {
          Become(right);
        } else if rightZero {
          SetSymbol(zero);
        } else if rightUnit {
          Become(left);
        }
      }
    }

    /** Both sides of an and/or node. */
    method ReduceBoth()
      requires Valid() && (kind == EAnd || kind == EOr)
      modifies Repr
      ensures Valid() && Repr == old(Repr) && kind == old(kind)
      ensures tree == Mk(OpOf(old(tree)), Yn.EliminateYn(old(tree).l), Yn.EliminateYn(old(tree).r))
      decreases Size(tree), 0
    {
      var l, r := left, right;
      assert l.Repr !! r.Repr && this !in l.Repr && this !in r.Repr && l.Valid() && r.Valid();
      l.EliminateYn();
      r.EliminateYn();
      tree := if kind == EAnd then And(left.tree, right.tree) else Or(left.tree, right.tree);
    }

    /** Brings an expression into its normal form, reusing its nodes; the node
        that stands for the result may be another one. */
    method Transform() returns (r: ExprNode)
      requires Valid()
      modifies Repr
      ensures r.Valid() && fresh(r.Repr - old(Repr)) && r.tree == T.Transform(old(tree))
      decreases T.Weight(tree), 2
    {
      match kind
      case ESymbol => r := this;
      case EComp(_) =>
        TransformCmp();
        r := this;
      case ENot => r := TransformNot();
      case EAnd =>
        TransformBoth();
        r := this;
      case EOr =>
        TransformBoth();
        r := this;
    }

    /** A comparison of a boolean with a constant becomes the symbol, its
        negation, or a constant. */
    method TransformCmp()
      requires Valid() && kind.EComp?
      modifies this
      ensures Valid() && fresh(Repr - old(Repr)) && tree == T.TransformCmp(old(tree).rel, old(tree).left, old(tree).right)
    {
      if leftSym.Type() != Boolean { return; }
      if kind.rel == Eq {
        if rightSym == SymNo { NegateSymbol(); }
        else if rightSym == SymMod { SetSymbol(SymNo); }
        else if rightSym == SymYes { SetSymbol(leftSym); }
      } else if kind.rel == Neq {
        if rightSym == SymNo { SetSymbol(leftSym); }
        else if rightSym == SymMod { SetSymbol(SymYes); }
        else if rightSym == SymYes { NegateSymbol(); }
      }
    }

    method NegateSymbol()
      requires Valid() && kind.EComp?
      modifies this
      ensures Valid() && fresh(Repr - {this}) && tree == Not(Symbol(old(leftSym)))
    {
      var c := new ExprNode.OfSymbol(leftSym);
      kind, left := ENot, c;
      tree, Repr := Not(c.tree), {this} + c.Repr;
    }

    method TransformBoth()
      requires Valid() && (kind == EAnd || kind == EOr)
      modifies Repr
      ensures Valid() && fresh(Repr - old(Repr))
      ensures tree == Mk(OpOf(old(tree)), T.Transform(old(tree).l), T.Transform(old(tree).r))
      decreases T.Weight(tree), 0
    {
      hide T.Transform;
      var l, r := left, right;
      ghost var lr, rr := l.Repr, r.Repr;
      assert lr !! rr && this !in lr && this !in rr && l.Valid() && r.Valid();
      assert l in lr && r in rr;
      var l1 := l.Transform();
      assert l1.Repr !! rr && this !in l1.Repr;
      var r1 := r.Transform();
      assert l1.Repr !! r1.Repr && l1.Valid();
      SetSides(l1, r1);
    }

    method SetSides(l: ExprNode, r: ExprNode)
      requires (kind == EAnd || kind == EOr) && l.Valid() && r.Valid()
      requires l.Repr !! r.Repr && this !in l.Repr && this !in r.Repr
      modifies this
      ensures Valid() && Repr == {this} + l.Repr + r.Repr
      ensures tree == if old(kind) == EAnd then And(l.tree, r.tree) else Or(l.tree, r.tree)
    {
      left, right := l, r;
      tree := if kind == EAnd then And(l.tree, r.tree) else Or(l.tree, r.tree);
      Repr := {this} + l.Repr + r.Repr;
      assert l in l.Repr && r in r.Repr;
    }

    method TransformNot() returns (r: ExprNode)
      requires Valid() && kind == ENot
      modifies Repr
      ensures r.Valid() && fresh(r.Repr - old(Repr)) && r.tree == T.Transform(old(tree))
      decreases T.Weight(tree), 1
    {
      ghost var t := tree;
      assert Child(left);
      var tmp := left.Transform();
      left, tree, Repr := tmp, Not(tmp.tree), {this} + tmp.Repr;
      match tmp.kind
      case ENot =>
        // The two negations go together.
        assert tmp.Child(tmp.left);
        r := tmp.left.Transform();
      case EComp(rel) =>
        tmp.kind := EComp(T.Negated(rel));
        tmp.tree := Cmp(T.Negated(rel), tmp.leftSym, tmp.rightSym);
        r := tmp;
      case EOr => r := DeMorgan(tmp);
      case EAnd => r := DeMorgan(tmp);
      case ESymbol =>
        r := NotSymbol(tmp);
    }

    /** The negation of a symbol whose node is below this one. */
    method NotSymbol(tmp: ExprNode) returns (r: ExprNode)
      requires Valid() && kind == ENot && left == tmp && Child(tmp) && tmp.kind == ESymbol
      modifies tmp
      ensures r.Valid() && r.Repr <= old(Repr)
      ensures r.tree == (
        match old(tmp.leftSym)
        case SymYes => Symbol(SymNo)
        case SymMod => Symbol(SymMod)
        case SymNo => Symbol(SymYes)
        case s => Not(Symbol(s)))
    {
      match tmp.leftSym
      case SymYes =>
        tmp.SetSymbol(SymNo);
        r := tmp;
      case SymMod =>
        tmp.SetSymbol(SymMod);
        r := tmp;
      case SymNo =>
        tmp.SetSymbol(SymYes);
        r := tmp;
      case _ => r := this;
    }

    /** A negated connective becomes the other connective of the negated sides. */
    method DeMorgan(tmp: ExprNode) returns (r: ExprNode)
      requires Valid() && kind == ENot && left == tmp && Child(tmp) && (tmp.kind == EOr || tmp.kind == EAnd)
      modifies Repr
      ensures r.Valid() && fresh(r.Repr - old(Repr)) && r.tree == T.Transform(Dual(old(tmp.tree)))
      decreases T.Weight(tree), 0
    {
      assert tmp.Valid();
      T.DeMorganWeight(tmp.tree.l, tmp.tree.r);
      hide T.Transform, Valid;
      PushNot(tmp);
      r := Transform();
    }

    /** This node becomes the other connective, the one below it the negation of
        its first side, a new node the negation of the second. */
    method PushNot(tmp: ExprNode)
      requires Valid() && kind == ENot && left == tmp && Child(tmp) && (tmp.kind == EOr || tmp.kind == EAnd)
      modifies this, tmp
      ensures Valid() && fresh(Repr - old(Repr)) && tree == Dual(old(tmp.tree))
    {
      assert tmp.Valid() && tmp.Child(tmp.right);
      var b := tmp.right;
      assert b.Valid() && this !in b.Repr && this !in tmp.Repr;
      kind := if tmp.kind == EOr then EAnd else EOr;
      tmp.NegateFirst();
      var n := new ExprNode.OfNot(b);
      SetSides(tmp, n);
    }

    /** An and/or node becomes the negation of its first side; the second side
        is no longer part of it. */
    method NegateFirst()
      requires Valid() && (kind == EOr || kind == EAnd) && right != null
      modifies this
      ensures Valid() && tree == Not(old(tree).l) && Repr <= old(Repr)
      ensures Repr !! old(right.Repr) && right == null
    {
      var a := left;
      assert Child(a) && Child(right);
      assert a.Valid() && a in a.Repr && this !in a.Repr && this !in right.Repr;
      kind, right := ENot, null;
      tree, Repr := Not(a.tree), {this} + a.Repr;
      assert a.Valid();
    }

    /** Replaces tests of tristates against 'n' by the symbols, in place. */
    method TransBool()
      requires Valid()
      modifies Repr
      ensures Valid() && Repr <= old(Repr) && tree == T.TransBool(old(tree))
      decreases tree, 1
    {
      match kind
      case ESymbol =>
      case EComp(rel) =>
        if rel == Neq && leftSym.Type() == Tristate && rightSym == SymNo {
          SetSymbol(leftSym);
        }
      case ENot =>
        var l := left;
        assert Child(l);
        l.TransBool();
        tree := Not(l.tree);
        assert l in l.Repr;
      case EAnd =>
        TransBoolBoth();
      case EOr =>
        TransBoolBoth();
    }

    method TransBoolBoth()
      requires Valid() && (kind == EAnd || kind == EOr)
      modifies Repr
      ensures Valid() && Repr <= old(Repr)
      ensures tree == Mk(OpOf(old(tree)), T.TransBool(old(tree).l), T.TransBool(old(tree).r))
      decreases tree, 0
    {
      var l, r := left, right;
      assert l.Repr !! r.Repr && this !in l.Repr && this !in r.Repr && l.Valid() && r.Valid();
      ghost var rr := r.Repr;
      l.TransBool();
      r.TransBool();
      assert l.Repr !! r.Repr && l.Valid();
      SetSides(l, r);
    }
  }
}
