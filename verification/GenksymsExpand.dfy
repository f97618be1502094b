/** What a symbol's version is computed from: the text of its definition with
    every type that it refers to spelled out where it is first met. */
module GenksymsExpand {
  import opened Pigeonhole

  type Text = seq<bv8>

  datatype Kind = Normal | Typedef | Enum | Struct | Union | EnumConst

  datatype Node = Node(tag: Kind, text: Text)

  /** Tags of structs, unions and enums share one name space, all other names
      another one. */
  datatype Key = Key(tagged: bool, name: Text)

  /** The declared symbols with their definitions, the last node first. */
  type Table = map<Key, seq<Node>>

  /** The table, the symbols marked so far in the order of marking, and the text
      so far. */
  datatype State = State(table: Table, trail: seq<Key>, text: Text)

  const SPACE: Text := [32]

  predicate Tagged(k: Kind) {
    k.Enum? || k.Struct? || k.Union?
  }

  function KeyOf(n: Node): Key {
    Key(Tagged(n.tag), n.text)
  }

  function KindName(k: Kind): Text
    requires Tagged(k)
  {
    match k
    case Struct => [115, 116, 114, 117, 99, 116]
    case Union => [117, 110, 105, 111, 110]
    case Enum => [101, 110, 117, 109]
  }

  /** The stand-in for an undefined struct, union or enum; last node first. */
  function Unknown(n: Node): seq<Node>
    requires Tagged(n.tag)
  {
    [Node(Normal, [125]), Node(Normal, [85, 78, 75, 78, 79, 87, 78]), Node(Normal, [123]),
     Node(Normal, n.text), Node(Normal, KindName(n.tag))]
  }

  function Reversed(s: seq<Node>): seq<Node> {
    if s == [] then [] else Reversed(s[1..]) + [s[0]]
  }

  function Marked(trail: seq<Key>): set<Key> {
    set k | k in trail
  }

  /** How a reference to a symbol that is already marked reads. */
  function Mention(n: Node): Text {
    if Tagged(n.tag) then KindName(n.tag) + SPACE + n.text + SPACE else n.text + SPACE
  }

  /** An undefined struct, union or enum is put into the table. */
  function Declared(s: State, n: Node): State {
    if Tagged(n.tag) && KeyOf(n) !in s.table then
      s.(table := s.table[KeyOf(n) := Unknown(n)])
    else s
  }

  /** The keys that the expansion can meet. */
  ghost predicate NodesIn(nodes: seq<Node>, u: set<Key>) {
    forall i :: 0 <= i < |nodes| ==> nodes[i].tag.Normal? || KeyOf(nodes[i]) in u
  }

  ghost predicate Within(s: State, u: set<Key>) {
    && Marked(s.trail) <= u
    && forall k :: k in s.table ==> NodesIn(s.table[k], u)
  }

  /** References to typedefs and enum constants are to declared ones; the source
      does not survive others. */
  predicate NodesSound(nodes: seq<Node>, t: Table) {
    forall i :: 0 <= i < |nodes| ==> nodes[i].tag.Typedef? || nodes[i].tag.EnumConst? ==> KeyOf(nodes[i]) in t
  }

  predicate Sound(t: Table) {
    forall k :: k in t ==> NodesSound(t[k], t)
  }

  /** Expands nodes in order. A reference is replaced by the definition the
      first time, which marks the symbol, and by its name after that. */
  function Expand(ghost u: set<Key>, s: State, nodes: seq<Node>): (r: State)
    requires Within(s, u) && NodesIn(nodes, u) && Sound(s.table) && NodesSound(nodes, s.table)
    ensures Within(r, u) && Sound(r.table)
    ensures s.trail <= r.trail && s.text <= r.text
    ensures forall k :: k in s.table ==> k in r.table && r.table[k] == s.table[k]
    decreases u - Marked(s.trail), |nodes|
  {
    if nodes == [] then s else
      var n := nodes[0];
      if n.tag.Normal? then
        Expand(u, s.(text := s.text + (n.text + SPACE)), nodes[1..])
      else
        var d := Declared(s, n);
        DeclaredKeeps(u, s, n);
        if KeyOf(n) in d.trail then
          Expand(u, d.(text := d.text + Mention(n)), nodes[1..])
        else
          var m := Mark(d, KeyOf(n));
          ReversedKeeps(m.table[KeyOf(n)], u, m.table);
          MarkShrinks(u, d, KeyOf(n));
          var e := Expand(u, m, Reversed(m.table[KeyOf(n)]));
          MarkedGrows(u, s.trail, KeyOf(n), e.trail);
          Expand(u, e, nodes[1..])
  }

  function Mark(s: State, k: Key): State {
    s.(trail := s.trail + [k])
  }

  lemma MarkedGrows(u: set<Key>, trail: seq<Key>, k: Key, more: seq<Key>)
    requires k in u && k !in trail && trail + [k] <= more
    ensures u - Marked(more) < u - Marked(trail)
  {
    assert more[|trail|] == (trail + [k])[|trail|] == k;
    forall x | x in trail ensures x in more {
      var i :| 0 <= i < |trail| && trail[i] == x;
      assert more[i] == (trail + [k])[i] == x;
    }
    assert k in u - Marked(trail) && k !in u - Marked(more);
  }

  lemma MarkShrinks(u: set<Key>, s: State, k: Key)
    requires Within(s, u) && k in u && k !in s.trail
    ensures Within(Mark(s, k), u)
    ensures u - Marked(Mark(s, k).trail) < u - Marked(s.trail)
  {
    assert k in u - Marked(s.trail) && k !in u - Marked(Mark(s, k).trail);
    assert Marked(Mark(s, k).trail) == Marked(s.trail) + {k};
  }

  lemma DeclaredKeeps(u: set<Key>, s: State, n: Node)
    requires Within(s, u) && Sound(s.table) && !n.tag.Normal? && KeyOf(n) in u
    ensures Within(Declared(s, n), u) && Sound(Declared(s, n).table) && Declared(s, n).trail == s.trail
    ensures forall k :: k in s.table ==> k in Declared(s, n).table && Declared(s, n).table[k] == s.table[k]
    ensures Tagged(n.tag) ==> KeyOf(n) in Declared(s, n).table
  {
  }

  lemma {:induction false} ReversedAll(nodes: seq<Node>, x: Node)
    ensures x in Reversed(nodes) <==> x in nodes
  {
    if nodes != [] {
      ReversedAll(nodes[1..], x);
      assert nodes == [nodes[0]] + nodes[1..];
    }
  }

  lemma ReversedKeeps(nodes: seq<Node>, u: set<Key>, t: Table)
    ensures NodesIn(nodes, u) ==> NodesIn(Reversed(nodes), u)
    ensures NodesSound(nodes, t) ==> NodesSound(Reversed(nodes), t)
  {
    var r := Reversed(nodes);
    forall i | 0 <= i < |r| ensures r[i] in nodes {
      ReversedAll(nodes, r[i]);
    }
  }

  // ------------------------------------------------------------------------
  // Which symbols are expanded
  // ------------------------------------------------------------------------

  /** The steps of an expansion that meets a reference: the state in which the
      definition has been expanded, or the reference mentioned. */
  ghost function AfterFirst(u: set<Key>, s: State, nodes: seq<Node>): (r: State)
    requires Within(s, u) && NodesIn(nodes, u) && Sound(s.table) && NodesSound(nodes, s.table) && nodes != []
    ensures Within(r, u) && Sound(r.table) && NodesIn(nodes[1..], u) && NodesSound(nodes[1..], r.table)
    ensures Expand(u, s, nodes) == Expand(u, r, nodes[1..])
    ensures s.trail <= r.trail && Marked(s.trail) <= Marked(r.trail)
    ensures forall k :: k in s.table ==> k in r.table && r.table[k] == s.table[k]
  {
    var n := nodes[0];
    if n.tag.Normal? then s.(text := s.text + (n.text + SPACE)) else
      var d := Declared(s, n);
      DeclaredKeeps(u, s, n);
      if KeyOf(n) in d.trail then d.(text := d.text + Mention(n)) else
        var m := Mark(d, KeyOf(n));
        ReversedKeeps(m.table[KeyOf(n)], u, m.table);
        MarkShrinks(u, d, KeyOf(n));
        Expand(u, m, Reversed(m.table[KeyOf(n)]))
  }

  /** The state in which a definition begins to be expanded. */
  ghost predicate Enters(u: set<Key>, s: State, n: Node, m: State) {
    && !n.tag.Normal? && KeyOf(n) !in s.trail && m == Mark(Declared(s, n), KeyOf(n))
    && KeyOf(n) in m.table && Within(m, u) && Sound(m.table)
    && NodesIn(Reversed(m.table[KeyOf(n)]), u) && NodesSound(Reversed(m.table[KeyOf(n)]), m.table)
    && u - Marked(m.trail) < u - Marked(s.trail)
  }

  lemma Entered(u: set<Key>, s: State, nodes: seq<Node>) returns (m: State)
    requires Within(s, u) && NodesIn(nodes, u) && Sound(s.table) && NodesSound(nodes, s.table) && nodes != []
    requires !nodes[0].tag.Normal? && KeyOf(nodes[0]) !in s.trail
    ensures Enters(u, s, nodes[0], m)
    ensures AfterFirst(u, s, nodes) == Expand(u, m, Reversed(m.table[KeyOf(nodes[0])]))
  {
    var d := Declared(s, nodes[0]);
    DeclaredKeeps(u, s, nodes[0]);
    m := Mark(d, KeyOf(nodes[0]));
    ReversedKeeps(m.table[KeyOf(nodes[0])], u, m.table);
    MarkShrinks(u, d, KeyOf(nodes[0]));
  }

  lemma ExpandNone(u: set<Key>, s: State, nodes: seq<Node>)
    requires Within(s, u) && NodesIn(nodes, u) && Sound(s.table) && NodesSound(nodes, s.table) && |nodes| == 0
    ensures Expand(u, s, nodes) == s
  {
  }

  /** No symbol is expanded twice. */
  lemma {:induction false} ExpandOnce(u: set<Key>, s: State, nodes: seq<Node>)
    requires Within(s, u) && NodesIn(nodes, u) && Sound(s.table) && NodesSound(nodes, s.table)
    requires Distinct(s.trail)
    ensures Distinct(Expand(u, s, nodes).trail)
    decreases u - Marked(s.trail), |nodes|
  {
    hide Expand, Within, NodesIn, Sound, NodesSound;
    if nodes == [] {
      ExpandNone(u, s, nodes);
    } else {
      if !nodes[0].tag.Normal? && KeyOf(nodes[0]) !in s.trail {
        var m := Entered(u, s, nodes);
        ExpandOnce(u, m, Reversed(m.table[KeyOf(nodes[0])]));
      }
      ExpandOnce(u, AfterFirst(u, s, nodes), nodes[1..]);
    }
  }

  /** The symbols from place `n` of the trail on are in the table and refer only
      to symbols on the trail. */
  ghost predicate ClosedFrom(s: State, n: nat) {
    forall i :: n <= i < |s.trail| ==> s.trail[i] in s.table && NodesIn(s.table[s.trail[i]], Marked(s.trail))
  }

  ghost predicate Extends(s: State, r: State) {
    && s.trail <= r.trail
    && forall k :: k in s.table ==> k in r.table && r.table[k] == s.table[k]
  }

  lemma ClosedStays(s: State, r: State, n: nat)
    requires ClosedFrom(s, n) && ClosedFrom(r, |s.trail|) && Extends(s, r)
    ensures ClosedFrom(r, n)
  {
    assert Marked(s.trail) <= Marked(r.trail);
    forall i | n <= i < |r.trail| ensures r.trail[i] in r.table && NodesIn(r.table[r.trail[i]], Marked(r.trail)) {
      if i < |s.trail| {
        assert r.trail[i] == s.trail[i];
        assert NodesIn(s.table[s.trail[i]], Marked(s.trail));
      }
    }
  }

  lemma ReversedIn(nodes: seq<Node>, c: set<Key>)
    ensures NodesIn(Reversed(nodes), c) <==> NodesIn(nodes, c)
  {
    var r := Reversed(nodes);
    if NodesIn(r, c) {
      forall i | 0 <= i < |nodes| ensures nodes[i].tag.Normal? || KeyOf(nodes[i]) in c {
        ReversedAll(nodes, nodes[i]);
        var j :| 0 <= j < |r| && r[j] == nodes[i];
      }
    } else {
      ReversedKeeps(nodes, c, map[]);
    }
  }

  /** Everything that an expanded definition refers to is expanded as well. */
  lemma {:induction false} ExpandCloses(u: set<Key>, s: State, nodes: seq<Node>)
    requires Within(s, u) && NodesIn(nodes, u) && Sound(s.table) && NodesSound(nodes, s.table)
    ensures NodesIn(nodes, Marked(Expand(u, s, nodes).trail))
    ensures ClosedFrom(Expand(u, s, nodes), |s.trail|)
    decreases u - Marked(s.trail), |nodes|
  {
    hide Expand, Within, Sound, NodesSound, NodesIn, AfterFirst, ClosedFrom, Marked;
    if nodes == [] {
      ExpandNone(u, s, nodes);
      NothingNew(s, nodes);
    } else {
      var f := AfterFirst(u, s, nodes);
      ExpandCloses(u, f, nodes[1..]);
      FirstCloses(u, s, nodes);
      var r := Expand(u, s, nodes);
      assert Extends(f, r);
      ClosedStays(f, r, |s.trail|);
      MarkedMore(f.trail, r.trail);
      NodesInAll(nodes, Marked(f.trail), Marked(r.trail));
    }
  }

  lemma NothingNew(s: State, nodes: seq<Node>)
    requires nodes == []
    ensures NodesIn(nodes, Marked(s.trail)) && ClosedFrom(s, |s.trail|)
  {
  }

  lemma MarkedMore(a: seq<Key>, b: seq<Key>)
    requires a <= b
    ensures Marked(a) <= Marked(b)
  {
  }

  lemma NodesInAll(nodes: seq<Node>, c: set<Key>, d: set<Key>)
    requires nodes != [] && (nodes[0].tag.Normal? || KeyOf(nodes[0]) in c) && NodesIn(nodes[1..], d) && c <= d
    ensures NodesIn(nodes, d)
  {
    assert nodes == [nodes[0]] + nodes[1..];
  }

  lemma {:induction false} FirstCloses(u: set<Key>, s: State, nodes: seq<Node>)
    requires Within(s, u) && NodesIn(nodes, u) && Sound(s.table) && NodesSound(nodes, s.table) && nodes != []
    ensures ClosedFrom(AfterFirst(u, s, nodes), |s.trail|)
    ensures nodes[0].tag.Normal? || KeyOf(nodes[0]) in Marked(AfterFirst(u, s, nodes).trail)
    decreases u - Marked(s.trail), |nodes|, 0
  {
    hide Expand, Within, Sound, NodesSound;
    var n := nodes[0];
    var f := AfterFirst(u, s, nodes);
    if !n.tag.Normal? && KeyOf(n) !in s.trail {
      var m := Entered(u, s, nodes);
      var def := m.table[KeyOf(n)];
      ExpandCloses(u, m, Reversed(def));
      ReversedIn(def, Marked(f.trail));
      assert f.trail[|s.trail|] == KeyOf(n) by { assert m.trail <= f.trail; }
      assert f.table[KeyOf(n)] == def;
    }
  }

  /** Nothing else is expanded: any set that holds the references and is closed
      under definitions holds all symbols that are newly marked. */
  lemma {:induction false} ExpandLeast(u: set<Key>, s: State, nodes: seq<Node>, c: set<Key>)
    requires Within(s, u) && NodesIn(nodes, u) && Sound(s.table) && NodesSound(nodes, s.table)
    requires NodesIn(nodes, c)
    requires forall k :: k in c && k in Expand(u, s, nodes).table ==> NodesIn(Expand(u, s, nodes).table[k], c)
    ensures Marked(Expand(u, s, nodes).trail) <= Marked(s.trail) + c
    ensures Expand(u, s, nodes).table.Keys <= s.table.Keys + c
    decreases u - Marked(s.trail), |nodes|
  {
    hide Expand, Within, Sound, NodesSound, NodesIn, Reversed, AfterFirst;
    if nodes == [] {
      ExpandNone(u, s, nodes);
    } else {
      var n := nodes[0];
      var f := AfterFirst(u, s, nodes);
      NodesInRest(nodes, c);
      if !n.tag.Normal? && KeyOf(n) !in s.trail {
        var m := Entered(u, s, nodes);
        ReversedIn(m.table[KeyOf(n)], c);
        assert m.table[KeyOf(n)] == Expand(u, s, nodes).table[KeyOf(n)];
        ExpandLeast(u, m, Reversed(m.table[KeyOf(n)]), c);
        assert Marked(m.trail) == Marked(s.trail) + {KeyOf(n)};
      } else {
        FirstMentioned(u, s, nodes);
      }
      ExpandLeast(u, f, nodes[1..], c);
    }
  }

  lemma NodesInRest(nodes: seq<Node>, c: set<Key>)
    requires NodesIn(nodes, c) && nodes != []
    ensures NodesIn(nodes[1..], c) && (nodes[0].tag.Normal? || KeyOf(nodes[0]) in c)
  {
  }

  /** A first node that is not expanded. */
  lemma FirstMentioned(u: set<Key>, s: State, nodes: seq<Node>)
    requires Within(s, u) && NodesIn(nodes, u) && Sound(s.table) && NodesSound(nodes, s.table) && nodes != []
    requires nodes[0].tag.Normal? || KeyOf(nodes[0]) in s.trail
    ensures AfterFirst(u, s, nodes).trail == s.trail
    ensures AfterFirst(u, s, nodes).table.Keys <=
      s.table.Keys + if nodes[0].tag.Normal? then {} else {KeyOf(nodes[0])}
  {
    hide Expand, Within, Sound, NodesSound, NodesIn;
  }
}
