/** The re-nesting of the menu tree with the test on dependencies that decides it. */
module KconfigNesting {
  import opened Options
  import opened KconfigExpr
  import opened KconfigMenuDeps
  import opened MenuForest

  /** What the entries of a tree show and depend on: the symbol of an entry, the condition it is tested
      by, and the condition of its prompt. */
  datatype Conditions = Conditions(
    symbol: nat -> Option<Symbol>, titled: nat -> bool, dep: nat -> Option<Expr>, base: nat -> Option<Expr>)

  function Nesting(c: Conditions): Menus {
    Menus(
      (id: nat) => c.symbol(id).Some?,
      c.titled,
      (above: nat, id: nat) => c.symbol(above).Some? && BelongsBelow(c.dep(id), c.symbol(above).value, c.base(above)))
  }

  /** Putting entry id below entry above is right under v: see Hides. */
  ghost predicate HiddenBy(c: Conditions, above: nat, id: nat, v: Valuation) {
    c.symbol(above).Some? && c.dep(id).Some? && Hides(c.dep(id).value, c.symbol(above).value, c.base(above), v)
  }

  /** Every entry that an entry takes in is hidden by it. */
  lemma AbsorbedIsHidden(c: Conditions, above: nat, f: Forest, id: nat, v: Valuation)
    requires Respects(v) && id in Roots(Absorb(Nesting(c), above, f).0)
    ensures HiddenBy(c, above, id, v)
  {
    AbsorbTakes(Nesting(c), above, f);
    NestingIsSound(c.dep(id), c.symbol(above).value, c.base(above), v);
  }

  /** Of each step of a way down to an entry: it was in the list of the entry above it from the
      start, or is hidden by that entry. */
  ghost predicate StepsHidden(c: Conditions, was: set<(nat, nat)>, path: seq<nat>, v: Valuation) {
    forall i :: 0 <= i < |path| - 1 ==> (path[i], path[i + 1]) in was || HiddenBy(c, path[i], path[i + 1], v)
  }

  lemma WayIsHidden(c: Conditions, was: set<(nat, nat)>, path: seq<nat>, v: Valuation)
    requires Respects(v) && Way(Nesting(c), was, path)
    ensures StepsHidden(c, was, path, v)
  {
    hide Respects, BelongsBelow, Hides;
    forall i | 0 <= i < |path| - 1
      ensures (path[i], path[i + 1]) in was || HiddenBy(c, path[i], path[i + 1], v)
    {
      assert Direct(Nesting(c), was, path[i], path[i + 1]);
      if (path[i], path[i + 1]) !in was {
        NestingIsSound(c.dep(path[i + 1]), c.symbol(path[i]).value, c.base(path[i]), v);
      }
    }
  }

  /** Every entry of the list that re-nesting leaves below an entry, given away by others or not. */
  lemma NestedIsHidden(c: Conditions, f: Forest, id: nat, v: Valuation) returns (path: seq<nat>)
    requires Respects(v) && f.Entry? && id in Roots(Finalize(Nesting(c), f).kids)
    ensures |path| >= 2 && path[0] == f.id && path[|path| - 1] == id
    ensures StepsHidden(c, Nested(f), path, v) && forall i :: 0 < i < |path| - 1 ==> !c.titled(path[i])
    ensures f.kids.Empty? && f.id !in Preorder(f.rest) ==> HiddenBy(c, f.id, path[1], v)
  {
    var m, was := Nesting(c), Nested(f);
    FinalizeGrounded(m, was, f);
    GroundedRoot(m, was, f.id, Finalize(m, f).kids, id);
    path :| Way(m, was, path) && path[0] == f.id && path[|path| - 1] == id;
    WayIsHidden(c, was, path, v);
    if f.kids.Empty? && f.id !in Preorder(f.rest) {
      FirstBelongs(m, f, path);
      NestingIsSound(c.dep(path[1]), c.symbol(f.id).value, c.base(f.id), v);
    }
  }

  lemma {:induction false} GroundedRoot(m: Menus, was: set<(nat, nat)>, above: nat, f: Forest, id: nat)
    requires Grounded(m, was, above, f) && id in Roots(f)
    ensures Leads(m, was, above, id)
  {
    if id != f.id {
      GroundedRoot(m, was, above, f.rest, id);
    }
  }
}
