/** The menu tree as a value: what re-nesting the menu entries makes of it. */
module MenuForest {

  /** The entries of one list, each with its own list below it. */
  datatype Forest = Empty | Entry(id: nat, kids: Forest, rest: Forest)

  /** What re-nesting asks about entries: whether one has a symbol, whether its
      prompt has a text, and whether the dependencies place an entry below
      another one that it follows. */
  datatype Menus = Menus(symbol: nat -> bool, titled: nat -> bool, belongs: (nat, nat) -> bool)

  function Preorder(f: Forest): seq<nat> {
    match f
    case Empty => []
    case Entry(id, kids, rest) => [id] + Preorder(kids) + Preorder(rest)
  }

  function Join(f: Forest, g: Forest): Forest {
    match f
    case Empty => g
    case Entry(id, kids, rest) => Entry(id, kids, Join(rest, g))
  }

  lemma {:induction false} PreorderJoin(f: Forest, g: Forest)
    ensures Preorder(Join(f, g)) == Preorder(f) + Preorder(g)
  {
    match f
    case Empty =>
    case Entry(id, kids, rest) => PreorderJoin(rest, g);
  }

  lemma {:induction false} JoinJoin(f: Forest, g: Forest, h: Forest)
    ensures Join(Join(f, g), h) == Join(f, Join(g, h))
  {
    match f
    case Empty =>
    case Entry(id, kids, rest) => JoinJoin(rest, g, h);
  }

  lemma {:induction false} JoinEmpty(f: Forest)
    ensures Join(f, Empty) == f
  {
    match f
    case Empty =>
    case Entry(id, kids, rest) => JoinEmpty(rest);
  }

  function Size(f: Forest): nat {
    |Preorder(f)|
  }

  /** Re-nests the first entry of a list: an entry without a list takes in the
      entries after it that belong below it, an entry with one has them
      re-nested. The entries are the same in the same order. */
  function Finalize(m: Menus, f: Forest): (r: Forest)
    requires f.Entry?
    ensures r.Entry? && r.id == f.id && Preorder(r) == Preorder(f)
    decreases Size(f), 0
  {
    if f.kids.Entry? then
      Entry(f.id, Lift(m, FinalizeAll(m, f.kids)), f.rest)
    else if m.symbol(f.id) then
      var taken := Absorb(m, f.id, f.rest);
      Entry(f.id, Lift(m, taken.0), taken.1)
    else
      f
  }

  function FinalizeAll(m: Menus, f: Forest): (r: Forest)
    ensures Preorder(r) == Preorder(f) && (r.Entry? <==> f.Entry?)
    decreases Size(f), 1
  {
    match f
    case Empty => Empty
    case Entry(_, _, _) =>
      var first := Finalize(m, f);
      Entry(first.id, first.kids, FinalizeAll(m, first.rest))
  }

  /** The entries that `id` takes in, and the ones left after them. */
  function Absorb(m: Menus, id: nat, f: Forest): (r: (Forest, Forest))
    ensures Preorder(r.0) + Preorder(r.1) == Preorder(f)
    decreases Size(f), 1
  {
    if f.Empty? || !m.belongs(id, f.id) then (Empty, f) else
      var first := Finalize(m, f);
      var more := Absorb(m, id, first.rest);
      (Entry(first.id, first.kids, more.0), more.1)
  }

  /** An entry whose prompt has no text gives its list to the list it is in. */
  function Lift(m: Menus, f: Forest): (r: Forest)
    ensures Preorder(r) == Preorder(f)
    decreases Size(f)
  {
    match f
    case Empty => Empty
    case Entry(id, kids, rest) =>
      PreorderJoin(kids, rest);
      if kids.Entry? && !m.titled(id) then
        Entry(id, Empty, Lift(m, Join(kids, rest)))
      else
        Entry(id, kids, Lift(m, rest))
  }

  // ------------------------------------------------------------------------
  // What the nesting looks like afterwards
  // ------------------------------------------------------------------------

  /** Every list that is left below an entry is below one that has a title. */
  predicate ListsTitled(m: Menus, f: Forest) {
    match f
    case Empty => true
    case Entry(id, kids, rest) =>
      (kids.Entry? ==> m.titled(id)) && ListsTitled(m, kids) && ListsTitled(m, rest)
  }

  predicate Below(m: Menus, f: Forest) {
    match f
    case Empty => true
    case Entry(id, kids, rest) => ListsTitled(m, kids) && Below(m, rest)
  }

  lemma {:induction false} BelowJoin(m: Menus, f: Forest, g: Forest)
    requires ListsTitled(m, f) && Below(m, g)
    ensures Below(m, Join(f, g))
  {
    match f
    case Empty =>
    case Entry(id, kids, rest) => BelowJoin(m, rest, g);
  }

  lemma {:induction false} LiftTitles(m: Menus, f: Forest)
    requires Below(m, f)
    ensures ListsTitled(m, Lift(m, f))
    decreases Size(f)
  {
    match f
    case Empty =>
    case Entry(id, kids, rest) =>
      if kids.Entry? && !m.titled(id) {
        BelowJoin(m, kids, rest);
        PreorderJoin(kids, rest);
        LiftTitles(m, Join(kids, rest));
      } else {
        LiftTitles(m, rest);
      }
  }

  /** After re-nesting, every list below an entry belongs to an entry that shows
      a title for it. */
  lemma {:induction false} FinalizeTitles(m: Menus, f: Forest)
    requires f.Entry?
    ensures ListsTitled(m, Finalize(m, f).kids)
    decreases Size(f), 0
  {
    if f.kids.Entry? {
      FinalizeAllTitles(m, f.kids);
      LiftTitles(m, FinalizeAll(m, f.kids));
    } else if m.symbol(f.id) {
      AbsorbTitles(m, f.id, f.rest);
      LiftTitles(m, Absorb(m, f.id, f.rest).0);
    }
  }

  lemma {:induction false} FinalizeAllTitles(m: Menus, f: Forest)
    ensures Below(m, FinalizeAll(m, f))
    decreases Size(f), 1
  {
    if f.Entry? {
      FinalizeTitles(m, f);
      FinalizeAllTitles(m, Finalize(m, f).rest);
    }
  }

  lemma {:induction false} AbsorbTitles(m: Menus, id: nat, f: Forest)
    ensures Below(m, Absorb(m, id, f).0)
    decreases Size(f), 1
  {
    if f.Entry? && m.belongs(id, f.id) {
      FinalizeTitles(m, f);
      AbsorbTitles(m, id, Finalize(m, f).rest);
    }
  }

  function Roots(f: Forest): seq<nat> {
    match f
    case Empty => []
    case Entry(id, _, rest) => [id] + Roots(rest)
  }

  /** An entry takes in entries as long as they belong below it, and stops at
      the first one that does not. */
  lemma {:induction false} AbsorbTakes(m: Menus, id: nat, f: Forest)
    ensures forall x <- Roots(Absorb(m, id, f).0) :: m.belongs(id, x)
    ensures Absorb(m, id, f).1.Entry? ==> !m.belongs(id, Absorb(m, id, f).1.id)
    decreases Size(f)
  {
    if f.Entry? && m.belongs(id, f.id) {
      AbsorbTakes(m, id, Finalize(m, f).rest);
    }
  }

  // ------------------------------------------------------------------------
  // Where the entries below an entry come from
  // ------------------------------------------------------------------------

  /** The entries with the entries of the list below them, the list itself not counted. */
  function Nested(f: Forest): set<(nat, nat)> {
    match f
    case Empty => {}
    case Entry(id, kids, rest) => (set x | x in Roots(kids) :: (id, x)) + Nested(kids) + Nested(rest)
  }

  /** An entry was in the list of the other one from the start, or belongs below it. */
  predicate Direct(m: Menus, was: set<(nat, nat)>, above: nat, id: nat) {
    (above, id) in was || m.belongs(above, id)
  }

  /** A way down from one entry to another; the lists of the entries in between have been given
      away, since they show no title. */
  predicate Way(m: Menus, was: set<(nat, nat)>, path: seq<nat>) {
    && |path| >= 2
    && (forall i :: 0 <= i < |path| - 1 ==> Direct(m, was, path[i], path[i + 1]))
    && forall i :: 0 < i < |path| - 1 ==> !m.titled(path[i])
  }

  ghost predicate Leads(m: Menus, was: set<(nat, nat)>, above: nat, id: nat) {
    exists path: seq<nat> :: Way(m, was, path) && path[0] == above && path[|path| - 1] == id
  }

  /** At every level, a way leads to each entry of a list from the entry above the list. */
  ghost predicate Grounded(m: Menus, was: set<(nat, nat)>, above: nat, f: Forest)
    decreases f
  {
    match f
    case Empty => true
    case Entry(id, kids, rest) => Leads(m, was, above, id) && Grounded(m, was, id, kids) && Grounded(m, was, above, rest)
  }

  lemma LeadsDirect(m: Menus, was: set<(nat, nat)>, above: nat, id: nat)
    requires Direct(m, was, above, id)
    ensures Leads(m, was, above, id)
  {
    assert Way(m, was, [above, id]);
  }

  lemma LeadsOn(m: Menus, was: set<(nat, nat)>, above: nat, mid: nat, id: nat)
    requires Leads(m, was, above, mid) && !m.titled(mid) && Leads(m, was, mid, id)
    ensures Leads(m, was, above, id)
  {
    var p: seq<nat> :| Way(m, was, p) && p[0] == above && p[|p| - 1] == mid;
    var q: seq<nat> :| Way(m, was, q) && q[0] == mid && q[|q| - 1] == id;
    var path := p + q[1..];
    forall i | 0 <= i < |path| - 1 ensures Direct(m, was, path[i], path[i + 1]) {
      if i >= |p| - 1 {
        assert path[i] == q[i - |p| + 1] && path[i + 1] == q[i - |p| + 2];
      }
    }
    forall i | 0 < i < |path| - 1 ensures !m.titled(path[i]) {
      if i >= |p| - 1 { assert path[i] == q[i - |p| + 1]; }
    }
    assert Way(m, was, path);
  }

  /** A list given away by an entry without a title. */
  lemma {:induction false} GroundedJoin(m: Menus, was: set<(nat, nat)>, above: nat, mid: nat, f: Forest, g: Forest)
    requires Leads(m, was, above, mid) && !m.titled(mid) && Grounded(m, was, mid, f) && Grounded(m, was, above, g)
    ensures Grounded(m, was, above, Join(f, g))
  {
    hide Leads;
    match f
    case Empty =>
    case Entry(id, _, rest) =>
      LeadsOn(m, was, above, mid, id);
      GroundedJoin(m, was, above, mid, rest, g);
  }

  lemma {:induction false} GroundedLift(m: Menus, was: set<(nat, nat)>, above: nat, f: Forest)
    requires Grounded(m, was, above, f)
    ensures Grounded(m, was, above, Lift(m, f))
    decreases Size(f)
  {
    hide Leads;
    match f
    case Empty =>
    case Entry(id, kids, rest) =>
      PreorderJoin(kids, rest);
      if kids.Entry? && !m.titled(id) {
        GroundedJoin(m, was, above, id, kids, rest);
        GroundedLift(m, was, above, Join(kids, rest));
      } else {
        GroundedLift(m, was, above, rest);
      }
  }

  /** After re-nesting, each entry of each list that is now below the entry is there because it was
      in a list there before or belongs there, directly or by way of entries without a title. */
  lemma {:induction false} FinalizeGrounded(m: Menus, was: set<(nat, nat)>, f: Forest)
    requires f.Entry? && Nested(f) <= was
    ensures Grounded(m, was, f.id, Finalize(m, f).kids)
    ensures Nested(Finalize(m, f).rest) <= was
    decreases Size(f), 0
  {
    hide Grounded;
    if f.kids.Entry? {
      AllGrounded(m, was, f.id, f.kids);
      GroundedLift(m, was, f.id, FinalizeAll(m, f.kids));
    } else if m.symbol(f.id) {
      AbsorbGrounded(m, was, f.id, f.rest);
      GroundedLift(m, was, f.id, Absorb(m, f.id, f.rest).0);
    } else {
      NoneGrounded(m, was, f.id);
    }
  }

  lemma NoneGrounded(m: Menus, was: set<(nat, nat)>, above: nat)
    ensures Grounded(m, was, above, Empty)
  {
  }

  lemma {:induction false} AllGrounded(m: Menus, was: set<(nat, nat)>, above: nat, f: Forest)
    requires Nested(f) <= was && forall x :: x in Roots(f) ==> (above, x) in was
    ensures Grounded(m, was, above, FinalizeAll(m, f))
    decreases Size(f), 1
  {
    hide Leads;
    if f.Entry? {
      FinalizeGrounded(m, was, f);
      LeadsDirect(m, was, above, f.id);
      RestRoots(m, f);
      AllGrounded(m, was, above, Finalize(m, f).rest);
    }
  }

  lemma {:induction false} AbsorbGrounded(m: Menus, was: set<(nat, nat)>, above: nat, f: Forest)
    requires Nested(f) <= was
    ensures Grounded(m, was, above, Absorb(m, above, f).0)
    ensures Nested(Absorb(m, above, f).1) <= was
    decreases Size(f), 1
  {
    hide Leads;
    if f.Entry? && m.belongs(above, f.id) {
      FinalizeGrounded(m, was, f);
      LeadsDirect(m, was, above, f.id);
      AbsorbGrounded(m, was, above, Finalize(m, f).rest);
    }
  }

  /** The entries left after the first one were in its list. */
  lemma {:induction false} RestRoots(m: Menus, f: Forest)
    requires f.Entry?
    ensures forall x :: x in Roots(Finalize(m, f).rest) ==> x in Roots(f)
    decreases Size(f), 0
  {
    if f.kids.Empty? && m.symbol(f.id) {
      LeftRoots(m, f.id, f.rest);
    }
  }

  lemma {:induction false} LeftRoots(m: Menus, id: nat, f: Forest)
    ensures forall x :: x in Roots(Absorb(m, id, f).1) ==> x in Roots(f)
    decreases Size(f), 1
  {
    if f.Entry? && m.belongs(id, f.id) {
      RestRoots(m, f);
      LeftRoots(m, id, Finalize(m, f).rest);
    }
  }

  lemma {:induction false} NestedInside(f: Forest, above: nat, id: nat)
    requires (above, id) in Nested(f)
    ensures above in Preorder(f)
  {
    match f
    case Entry(x, kids, rest) =>
      if (above, id) in Nested(kids) {
        NestedInside(kids, above, id);
      } else if (above, id) in Nested(rest) {
        NestedInside(rest, above, id);
      }
  }

  /** In a tree whose entries are all different nothing was below an entry without a list: every way
      from it begins with an entry that belongs below it. */
  lemma FirstBelongs(m: Menus, f: Forest, path: seq<nat>)
    requires f.Entry? && f.kids.Empty? && f.id !in Preorder(f.rest)
    requires Way(m, Nested(f), path) && path[0] == f.id
    ensures m.belongs(f.id, path[1])
  {
    assert Direct(m, Nested(f), path[0], path[1]);
    if (f.id, path[1]) in Nested(f) {
      assert Roots(f.kids) == [] && Nested(f.kids) == {};
      NestedInside(f.rest, f.id, path[1]);
    }
  }

  // ------------------------------------------------------------------------
  // No entry is left where another one should have taken it in
  // ------------------------------------------------------------------------

  /** The entry has a symbol, and had no list of its own. */
  predicate Takes(m: Menus, was: set<(nat, nat)>, id: nat) {
    m.symbol(id) && forall p <- was :: p.0 != id
  }

  /** What comes behind such an entry in its list does not belong below it. */
  predicate Apart(m: Menus, was: set<(nat, nat)>, ids: seq<nat>) {
    forall i :: 0 <= i < |ids| - 1 && Takes(m, was, ids[i]) ==> !m.belongs(ids[i], ids[i + 1])
  }

  lemma NoListBefore(m: Menus, was: set<(nat, nat)>, f: Forest)
    requires f.Entry? && Nested(f) <= was && Takes(m, was, f.id)
    ensures f.kids.Empty?
  {
    if f.kids.Entry? { ListIsNested(f); }
  }

  lemma ListIsNested(f: Forest)
    requires f.Entry? && f.kids.Entry?
    ensures (f.id, f.kids.id) in Nested(f)
  {
    assert f.kids.id in Roots(f.kids);
  }

  /** An entry with a symbol and without a list takes in all that belongs below it: what is left
      behind it begins with an entry that does not. */
  lemma FinalizeTakes(m: Menus, was: set<(nat, nat)>, f: Forest)
    requires f.Entry? && Nested(f) <= was && Takes(m, was, f.id)
    ensures var rest := Finalize(m, f).rest; rest.Entry? ==> !m.belongs(f.id, rest.id)
  {
    NoListBefore(m, was, f);
    AbsorbTakes(m, f.id, f.rest);
  }

  /** An entry with neither takes in nothing. */
  lemma FinalizeLeaves(m: Menus, f: Forest)
    requires f.Entry? && f.kids.Empty? && !m.symbol(f.id)
    ensures Finalize(m, f).kids.Empty? && Finalize(m, f).rest == f.rest
  {
  }

  lemma ApartCons(m: Menus, was: set<(nat, nat)>, id: nat, ids: seq<nat>)
    requires Apart(m, was, ids) && (Takes(m, was, id) && ids != [] ==> !m.belongs(id, ids[0]))
    ensures Apart(m, was, [id] + ids)
  {
  }

  /** So it is all along a list whose entries have been finalized. */
  lemma {:induction false} AllApart(m: Menus, was: set<(nat, nat)>, f: Forest)
    requires Nested(f) <= was
    ensures Apart(m, was, Roots(FinalizeAll(m, f)))
    decreases Size(f)
  {
    hide Apart, Takes;
    if f.Empty? {
      ApartNone(m, was);
    } else {
      var rest := Finalize(m, f).rest;
      FinalizeGrounded(m, was, f);
      AllApart(m, was, rest);
      if Takes(m, was, f.id) { FinalizeTakes(m, was, f); }
      ApartCons(m, was, f.id, Roots(FinalizeAll(m, rest)));
    }
  }

  lemma ApartNone(m: Menus, was: set<(nat, nat)>)
    ensures Apart(m, was, [])
  {
  }

  /** And along the entries that one entry takes in, up to the one behind them. */
  lemma {:induction false} AbsorbApart(m: Menus, was: set<(nat, nat)>, id: nat, f: Forest)
    requires Nested(f) <= was
    ensures var taken := Absorb(m, id, f);
      Apart(m, was, Roots(taken.0) + if taken.1.Entry? then [taken.1.id] else [])
    decreases Size(f)
  {
    if f.Entry? && m.belongs(id, f.id) {
      hide Apart, Takes;
      var rest := Finalize(m, f).rest;
      var more := Absorb(m, id, rest);
      var behind := if more.1.Entry? then [more.1.id] else [];
      FinalizeGrounded(m, was, f);
      AbsorbApart(m, was, id, rest);
      if Takes(m, was, f.id) { FinalizeTakes(m, was, f); }
      ApartCons(m, was, f.id, Roots(more.0) + behind);
      assert [f.id] + (Roots(more.0) + behind) == ([f.id] + Roots(more.0)) + behind;
    }
  }
}
