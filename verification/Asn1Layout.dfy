/** The whole table for a grammar: the main code, then each out-of-line body
    once, and where its jumps lead. */
module Asn1Layout {
  import opened Options
  import opened Pigeonhole
  import opened Asn1Code

  // ------------------------------------------------------------------------
  // The order of the out-of-line bodies
  // ------------------------------------------------------------------------

  lemma {:induction false} RefsInRange(items: seq<Item>, n: nat)
    requires Bounded(items, n)
    ensures InRange(Refs(items), n)
  {
    forall k | 0 <= k < |Refs(items)| ensures Refs(items)[k] < n {
      RefsAre(items, Refs(items)[k]);
    }
  }

  lemma {:induction false} StartBounded(g: Grammar)
    requires WellFormed(g)
    ensures Bounded(Start(g), |g.elements|) && ReadyRefs(g, Start(g))
  {
    CodeBounded(g, g.root, None);
  }

  lemma {:induction false} BodyBounded(g: Grammar, id: nat)
    requires WellFormed(g) && id < |g.elements|
    ensures Bounded(Body(g, id), |g.elements|) && ReadyRefs(g, Body(g, id))
  {
    if Ready(g, id) {
      CodeAllBounded(g, g.elements[id].children, g.top, false);
    }
  }

  ghost predicate AllReady(g: Grammar, ids: seq<nat>)
    requires WellFormed(g)
  {
    forall k :: 0 <= k < |ids| ==> Ready(g, ids[k])
  }

  lemma NoteReady(g: Grammar, order: seq<nat>, items: seq<Item>)
    requires WellFormed(g) && AllReady(g, order) && Distinct(order) && InRange(order, |g.elements|)
    requires Bounded(items, |g.elements|) && ReadyRefs(g, items)
    ensures Distinct(Note(order, Refs(items))) && InRange(Note(order, Refs(items)), |g.elements|)
    ensures AllReady(g, Note(order, Refs(items)))
  {
    hide Refs, Note, Ready, WellFormed;
    RefsInRange(items, |g.elements|);
    var refs := Refs(items);
    NoteKeeps(order, refs, |g.elements|);
    var r := Note(order, refs);
    forall k | 0 <= k < |r| ensures Ready(g, r[k]) {
      assert r[k] in r;
      if r[k] !in order { RefsAre(items, r[k]); }
    }
  }

  /** The bodies known at a stage are different, and each is one that is rendered. */
  lemma {:induction false} StageSound(g: Grammar, k: nat)
    requires WellFormed(g)
    ensures Distinct(Stage(g, k)) && InRange(Stage(g, k), |g.elements|) && AllReady(g, Stage(g, k))
  {
    hide Start, Body, Note, Refs, Ready;
    if k == 0 {
      StartBounded(g);
      NoteReady(g, [], Start(g));
    } else {
      StageSound(g, k - 1);
      var s := Stage(g, k - 1);
      if k - 1 < |s| {
        BodyBounded(g, s[k - 1]);
        NoteReady(g, s, Body(g, s[k - 1]));
      }
    }
  }

  lemma {:induction false} StageGrows(g: Grammar, k: nat, m: nat)
    requires WellFormed(g) && k <= m
    ensures Stage(g, k) <= Stage(g, m)
    decreases m
  {
    hide Stage;
    if k < m {
      StageGrows(g, k, m - 1);
      StageStep(g, m - 1);
    }
  }

  lemma StageStep(g: Grammar, k: nat)
    requires WellFormed(g)
    ensures Stage(g, k) <= Stage(g, k + 1)
  {
    hide Body, Refs, Start;
  }

  /** Once the bodies that are known have all been done, nothing more joins. */
  lemma {:induction false} StageSettles(g: Grammar, k: nat, m: nat)
    requires WellFormed(g) && |Stage(g, k)| <= k <= m
    ensures Stage(g, m) == Stage(g, k)
    decreases m
  {
    hide Stage;
    if k < m {
      StageSettles(g, k, m - 1);
      StageStill(g, m - 1);
    }
  }

  lemma StageStill(g: Grammar, k: nat)
    requires WellFormed(g) && |Stage(g, k)| <= k
    ensures Stage(g, k + 1) == Stage(g, k)
  {
    hide Body, Note, Refs, Start;
  }

  /** Every element that is rendered out of line, in order. */
  function Order(g: Grammar): (r: seq<nat>)
    requires WellFormed(g)
    ensures Distinct(r) && InRange(r, |g.elements|) && |r| <= |g.elements|
  {
    StageSound(g, |g.elements|);
    FewBelow(Stage(g, |g.elements|), |g.elements|);
    Stage(g, |g.elements|)
  }

  lemma LastStage(g: Grammar)
    requires WellFormed(g)
    ensures Order(g) == Stage(g, |g.elements|)
  {
    hide Stage;
  }

  /** When all `k` bodies known at stage `k` are done, the order is final. */
  lemma {:induction false} OrderIs(g: Grammar, k: nat)
    requires WellFormed(g) && k == |Stage(g, k)|
    ensures Order(g) == Stage(g, k)
  {
    hide Stage;
    StageSound(g, k);
    FewBelow(Stage(g, k), |g.elements|);
    StageSettles(g, k, |g.elements|);
  }

  /** The k-th body is known when its turn comes, and adds what it refers to. */
  lemma {:induction false} OrderStep(g: Grammar, k: nat)
    requires WellFormed(g) && k < |Order(g)|
    ensures k < |Stage(g, k)| && Stage(g, k)[k] == Order(g)[k]
    ensures Stage(g, k + 1) == Note(Stage(g, k), Refs(Body(g, Order(g)[k])))
    ensures Stage(g, k) <= Stage(g, k + 1) <= Order(g)
  {
    hide Body, Note, Refs, Start;
    StageSound(g, k);
    StageGrows(g, k, |g.elements|);
    if |Stage(g, k)| <= k {
      StageSettles(g, k, |g.elements|);
    }
    StageGrows(g, k + 1, |g.elements|);
    StageUnfold(g, k);
  }

  lemma StageUnfold(g: Grammar, k: nat)
    requires WellFormed(g) && k < |Stage(g, k)| && Stage(g, k)[k] < |g.elements|
    ensures Stage(g, k + 1) == Note(Stage(g, k), Refs(Body(g, Stage(g, k)[k])))
  {
    hide Body, Note, Refs, Start;
  }

  ghost predicate Closed(g: Grammar, s: set<nat>)
    requires WellFormed(g)
  {
    && (forall x: nat :: BodyOf(x) in Start(g) ==> x in s)
    && (forall x: nat, y: nat :: x in s && x < |g.elements| && BodyOf(y) in Body(g, x) ==> y in s)
  }

  /** Every body that some rendered code jumps to is itself rendered, exactly
      once, and no other body is. */
  lemma {:induction false} OrderIsReachable(g: Grammar, s: set<nat>)
    requires WellFormed(g)
    ensures Distinct(Order(g))
    ensures Closed(g, set x | x in Order(g))
    ensures Closed(g, s) ==> forall x <- Order(g) :: x in s
  {
    hide Start, Body, Note, Refs, Stage, Order;
    StartJoins(g);
    forall x: nat, y: nat | x in Order(g) && x < |g.elements| && BodyOf(y) in Body(g, x) ensures y in Order(g) {
      BodyJoins(g, x, y);
    }
    if Closed(g, s) {
      StageWithin(g, s, |g.elements|);
      LastStage(g);
    }
  }

  lemma {:induction false} StartJoins(g: Grammar)
    requires WellFormed(g)
    ensures forall x: nat :: BodyOf(x) in Start(g) ==> x in Order(g)
  {
    hide Start, Body, Note, Refs, Order;
    StartBounded(g);
    RefsInRange(Start(g), |g.elements|);
    NoteKeeps([], Refs(Start(g)), |g.elements|);
    forall x: nat | BodyOf(x) in Start(g) ensures x in Order(g) {
      RefsAre(Start(g), x);
      assert x in Stage(g, 0);
      StageGrows(g, 0, |g.elements|);
      LastStage(g);
    }
  }

  lemma {:induction false} BodyJoins(g: Grammar, x: nat, y: nat)
    requires WellFormed(g) && x in Order(g) && x < |g.elements| && BodyOf(y) in Body(g, x)
    ensures y in Order(g)
  {
    hide Start, Body, Note, Refs, Stage, Order;
    var k :| 0 <= k < |Order(g)| && Order(g)[k] == x;
    OrderStep(g, k);
    BodyBounded(g, x);
    RefsInRange(Body(g, x), |g.elements|);
    StageSound(g, k);
    NoteKeeps(Stage(g, k), Refs(Body(g, x)), |g.elements|);
    RefsAre(Body(g, x), y);
  }

  lemma {:induction false} StageWithin(g: Grammar, s: set<nat>, k: nat)
    requires WellFormed(g) && Closed(g, s)
    ensures forall x <- Stage(g, k) :: x in s
  {
    hide Start, Body, Note, Refs;
    StageSound(g, k);
    if k == 0 {
      StartBounded(g);
      RefsInRange(Start(g), |g.elements|);
      NoteKeeps([], Refs(Start(g)), |g.elements|);
      forall x <- Stage(g, k) ensures x in s { RefsAre(Start(g), x); }
    } else {
      StageWithin(g, s, k - 1);
      StageSound(g, k - 1);
      var t := Stage(g, k - 1);
      if k - 1 < |t| {
        var b := Body(g, t[k - 1]);
        BodyBounded(g, t[k - 1]);
        RefsInRange(b, |g.elements|);
        NoteKeeps(t, Refs(b), |g.elements|);
        forall x <- Stage(g, k) ensures x in s { RefsAre(b, x); }
      }
    }
  }

  // ------------------------------------------------------------------------
  // Addresses
  // ------------------------------------------------------------------------

  function Bodies(g: Grammar, order: seq<nat>): seq<Item>
    requires WellFormed(g) && InRange(order, |g.elements|)
  {
    if order == [] then [] else
      Bodies(g, order[..|order| - 1]) + Body(g, order[|order| - 1])
  }

  function Listing(g: Grammar): seq<Item>
    requires WellFormed(g)
  {
    Start(g) + Bodies(g, Order(g))
  }

  /** Where the k-th body begins. */
  function Address(g: Grammar, order: seq<nat>, k: nat): nat
    requires WellFormed(g) && InRange(order, |g.elements|) && k <= |order|
  {
    |Start(g)| + |Bodies(g, order[..k])|
  }

  predicate Supported(items: seq<Item>, n: nat) {
    Bounded(items, n) && Unsupported !in items
  }

  function Resolved(item: Item, pos: int, index: seq<nat>): Entry
    requires !item.Unsupported? && (item.BodyOf? ==> item.id < |index|)
  {
    match item
    case Fixed(e) => e
    case BodyOf(x) => Target(index[x])
    case Back(d) => Target(pos - d)
  }

  /** The table entries for items placed from position `pos` on. */
  function Placed(items: seq<Item>, pos: int, index: seq<nat>): (r: seq<Entry>)
    requires Supported(items, |index|)
    ensures |r| == |items|
  {
    seq(|items|, i requires 0 <= i < |items| => Resolved(items[i], pos + i, index))
  }

  lemma PlacedJoin(a: seq<Item>, b: seq<Item>, pos: int, index: seq<nat>)
    requires Supported(a + b, |index|)
    ensures Supported(a, |index|) && Supported(b, |index|)
    ensures Placed(a + b, pos, index) == Placed(a, pos, index) + Placed(b, pos + |a|, index)
  {
    assert forall i :: i in a ==> i in a + b;
    assert forall i :: i in b ==> i in a + b;
  }

  lemma SupportedJoin(a: seq<Item>, b: seq<Item>, n: nat)
    ensures Supported(a + b, n) <==> Supported(a, n) && Supported(b, n)
  {
    assert forall i :: i in a + b <==> i in a || i in b;
  }

  lemma {:induction false} BodiesSplit(g: Grammar, order: seq<nat>, k: nat)
    requires WellFormed(g) && InRange(order, |g.elements|) && k < |order|
    ensures |Bodies(g, order[..k])| + |Body(g, order[k])| <= |Bodies(g, order)|
    ensures Bodies(g, order)[|Bodies(g, order[..k])|..][..|Body(g, order[k])|] == Body(g, order[k])
  {
    hide Body;
    var last := |order| - 1;
    if k == last {
    } else {
      var init := order[..last];
      BodiesSplit(g, init, k);
      assert init[..k] == order[..k];
      var from, size := |Bodies(g, order[..k])|, |Body(g, order[k])|;
      var all, part := Bodies(g, order), Bodies(g, init);
      assert all == part + Body(g, order[last]);
      assert all[from..][..size] == part[from..][..size];
    }
  }

  /** Addresses and the table agree: the table reads as the listing with each
      reference replaced by the address of the body's first entry. */
  predicate Rendered(g: Grammar, table: seq<Entry>, index: seq<nat>)
    requires WellFormed(g)
  {
    && Supported(Listing(g), |index|)
    && InRange(Order(g), |index|)
    && (forall k :: 0 <= k < |Order(g)| ==> index[Order(g)[k]] == Address(g, Order(g), k))
    && table == Placed(Listing(g), 0, index)
  }

  /** Every jump to an out-of-line body in a rendered table leads to the first
      entry of that body. */
  lemma {:induction false} JumpsLand(g: Grammar, table: seq<Entry>, index: seq<nat>, i: nat, x: nat)
    requires WellFormed(g) && Rendered(g, table, index)
    requires i < |table| && Listing(g)[i] == BodyOf(x)
    ensures Ready(g, x) && table[i].Target?
    ensures 0 <= table[i].at <= table[i].at + |Body(g, x)| <= |table|
    ensures Supported(Body(g, x), |index|)
    ensures table[table[i].at..][..|Body(g, x)|] == Placed(Body(g, x), table[i].at, index)
  {
    hide Start, Body, Note, Refs, Stage, Order, Bodies, Supported, Placed;
    ListedIsKnown(g, x);
    OrderReady(g);
    var k :| 0 <= k < |Order(g)| && Order(g)[k] == x;
    BodyShown(g, k);
    ResolvedAt(g, table, index, i, x);
    PartPlaced(Listing(g), index, Address(g, Order(g), k), Body(g, x));
  }

  lemma OrderReady(g: Grammar)
    requires WellFormed(g)
    ensures AllReady(g, Order(g))
  {
    StageSound(g, |g.elements|);
    LastStage(g);
  }

  /** Where the listing shows the k-th body. */
  lemma BodyShown(g: Grammar, k: nat)
    requires WellFormed(g) && k < |Order(g)|
    ensures
      var a := Address(g, Order(g), k);
      var b := Body(g, Order(g)[k]);
      a + |b| <= |Listing(g)| && Listing(g)[a..][..|b|] == b
  {
    hide Start, Body, Order, WellFormed;
    BodiesSplit(g, Order(g), k);
    var from, b := |Bodies(g, Order(g)[..k])|, Body(g, Order(g)[k]);
    hide Bodies;
    assert Listing(g)[|Start(g)| + from..] == Bodies(g, Order(g))[from..];
  }

  lemma ResolvedAt(g: Grammar, table: seq<Entry>, index: seq<nat>, i: nat, x: nat)
    requires WellFormed(g) && Rendered(g, table, index) && i < |table| && Listing(g)[i] == BodyOf(x)
    ensures x < |index| && table[i] == Target(index[x])
  {
    hide Listing, Order, WellFormed;
  }

  /** The entries for a part of a listing. */
  lemma PartPlaced(l: seq<Item>, index: seq<nat>, at: nat, part: seq<Item>)
    requires Supported(l, |index|) && at + |part| <= |l| && l[at..][..|part|] == part
    ensures Supported(part, |index|) && Placed(l, 0, index)[at..][..|part|] == Placed(part, at, index)
  {
    forall k | 0 <= k < |part| ensures l[at + k] == part[k] {
      assert l[at..][..|part|][k] == l[at + k];
    }
    assert forall x :: x in part ==> x in l;
  }

  lemma {:induction false} ListedIsKnown(g: Grammar, x: nat)
    requires WellFormed(g) && BodyOf(x) in Listing(g)
    ensures x in Order(g)
  {
    hide Start, Body, Note, Refs, Stage, Order, Bodies;
    OrderIsReachable(g, {});
    if BodyOf(x) !in Start(g) {
      BodiesFrom(g, Order(g), x);
    }
  }

  lemma {:induction false} BodiesFrom(g: Grammar, order: seq<nat>, x: nat)
    requires WellFormed(g) && InRange(order, |g.elements|) && BodyOf(x) in Bodies(g, order)
    ensures exists k :: 0 <= k < |order| && BodyOf(x) in Body(g, order[k])
  {
    hide Body;
    var last := |order| - 1;
    if BodyOf(x) in Body(g, order[last]) {
    } else {
      BodiesFrom(g, order[..last], x);
      var k :| 0 <= k < last && BodyOf(x) in Body(g, order[..last][k]);
      assert order[..last][k] == order[k];
    }
  }
}
