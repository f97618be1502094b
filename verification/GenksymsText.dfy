/** The text that a version is computed from, as the words that are read off the table. */
module GenksymsText {
  import opened AsciiText
  import opened GenksymsExpand
  import opened Genksyms

  type Words = seq<Text>

  /** Each word is followed by one blank. */
  function Joined(words: Words): Text {
    if words == [] then [] else words[0] + Ascii(" ") + Joined(words[1..])
  }

  lemma {:induction false} JoinedBoth(a: Words, b: Words)
    ensures Joined(a + b) == Joined(a) + Joined(b)
  {
    if a == [] {
      assert a + b == b;
    } else {
      assert (a + b)[0] == a[0] && (a + b)[1..] == a[1..] + b;
      JoinedBoth(a[1..], b);
    }
  }

  lemma JoinedOne(w: Text)
    ensures Joined([w]) == w + Ascii(" ")
  {
    assert Joined([w][1..]) == [];
  }

  /** The keyword before the name of a struct, union or enum. */
  function Keyword(k: Kind): Words {
    match k
    case Struct => [Ascii("struct")]
    case Union => [Ascii("union")]
    case Enum => [Ascii("enum")]
    case _ => []
  }

  /** The words of a definition, given in the order in which they are written: an ordinary word is
      itself; a type that has been met before is its name; any other is its own definition.  The
      types met so far come first in the result. */
  ghost function Said(u: set<Key>, t: Table, met: set<Key>, nodes: seq<Node>): (r: (set<Key>, Words))
    requires met <= u && NodesIn(nodes, u) && (forall k :: k in t ==> NodesIn(t[k], u))
    ensures met <= r.0 <= u
    decreases u - met, |nodes|
  {
    if nodes == [] then (met, [])
    else
      var n := nodes[0];
      if n.tag.Normal? then
        var r := Said(u, t, met, nodes[1..]);
        (r.0, [n.text] + r.1)
      else if KeyOf(n) in met then
        var r := Said(u, t, met, nodes[1..]);
        (r.0, Keyword(n.tag) + [n.text] + r.1)
      else if KeyOf(n) !in t then (met, [])
      else
        ReversedKeeps(t[KeyOf(n)], u, t);
        var d := Said(u, t, met + {KeyOf(n)}, Reversed(t[KeyOf(n)]));
        var r := Said(u, t, d.0, nodes[1..]);
        (r.0, d.1 + r.1)
  }

  /** The table holds at least these definitions. */
  predicate Extends(t: Table, s: Table) {
    forall k :: k in s ==> k in t && t[k] == s[k]
  }

  lemma MentionIs(n: Node)
    requires !n.tag.Normal?
    ensures Mention(n) == Joined(Keyword(n.tag) + [n.text])
  {
    JoinedOne(n.text);
    assert Ascii(" ") == SPACE;
    if Tagged(n.tag) {
      KeywordIs(n.tag);
      JoinedOne(KindName(n.tag));
      JoinedBoth([KindName(n.tag)], [n.text]);
    } else {
      assert Keyword(n.tag) + [n.text] == [n.text];
    }
  }

  /** The text is what is read off the table that is left, in which the undefined types have their
      stand-ins, and the symbols marked are those met on the way. */
  lemma {:induction false} ExpandSays(u: set<Key>, s: State, nodes: seq<Node>, t: Table)
    requires Within(s, u) && NodesIn(nodes, u) && Sound(s.table) && NodesSound(nodes, s.table)
    requires Extends(t, Expand(u, s, nodes).table) && forall k :: k in t ==> NodesIn(t[k], u)
    ensures var r := Expand(u, s, nodes);
      var said := Said(u, t, Marked(s.trail), nodes);
      Marked(r.trail) == said.0 && r.text == s.text + Joined(said.1)
    decreases u - Marked(s.trail), |nodes|
  {
    if nodes != [] {
      var n := nodes[0];
      var later := nodes[1..];
      var k := KeyOf(n);
      if n.tag.Normal? {
        NormalSays(u, s, nodes, t);
      } else {
        var d := Declared(s, n);
        DeclaredKeeps(u, s, n);
        if k in d.trail {
          MentionSays(u, s, nodes, t);
        } else {
          DefinitionSays(u, s, nodes, t);
        }
      }
    }
  }

  lemma {:induction false} NormalSays(u: set<Key>, s: State, nodes: seq<Node>, t: Table)
    requires Within(s, u) && NodesIn(nodes, u) && Sound(s.table) && NodesSound(nodes, s.table)
    requires nodes != [] && nodes[0].tag.Normal?
    requires Extends(t, Expand(u, s, nodes).table) && forall k :: k in t ==> NodesIn(t[k], u)
    ensures var r := Expand(u, s, nodes);
      var said := Said(u, t, Marked(s.trail), nodes);
      Marked(r.trail) == said.0 && r.text == s.text + Joined(said.1)
    decreases u - Marked(s.trail), |nodes|, 0
  {
    var n := nodes[0];
    var s1 := s.(text := s.text + (n.text + SPACE));
    ExpandSays(u, s1, nodes[1..], t);
    var said := Said(u, t, Marked(s.trail), nodes[1..]).1;
    JoinedBoth([n.text], said);
    JoinedOne(n.text);
    assert SPACE == Ascii(" ");
    Assoc(s.text, n.text + SPACE, Joined(said));
  }

  lemma Assoc(a: Text, b: Text, c: Text)
    ensures (a + b) + c == a + (b + c)
  {
  }

  lemma {:induction false} MentionSays(u: set<Key>, s: State, nodes: seq<Node>, t: Table)
    requires Within(s, u) && NodesIn(nodes, u) && Sound(s.table) && NodesSound(nodes, s.table)
    requires nodes != [] && !nodes[0].tag.Normal? && KeyOf(nodes[0]) in s.trail
    requires Extends(t, Expand(u, s, nodes).table) && forall k :: k in t ==> NodesIn(t[k], u)
    ensures var r := Expand(u, s, nodes);
      var said := Said(u, t, Marked(s.trail), nodes);
      Marked(r.trail) == said.0 && r.text == s.text + Joined(said.1)
    decreases u - Marked(s.trail), |nodes|, 0
  {
    var n := nodes[0];
    var d := Declared(s, n);
    DeclaredKeeps(u, s, n);
    var d1 := d.(text := d.text + Mention(n));
    ExpandSays(u, d1, nodes[1..], t);
    var said := Said(u, t, Marked(s.trail), nodes[1..]).1;
    MentionIs(n);
    JoinedBoth(Keyword(n.tag) + [n.text], said);
    Assoc(s.text, Mention(n), Joined(said));
  }

  lemma {:induction false} DefinitionSays(u: set<Key>, s: State, nodes: seq<Node>, t: Table)
    requires Within(s, u) && NodesIn(nodes, u) && Sound(s.table) && NodesSound(nodes, s.table)
    requires nodes != [] && !nodes[0].tag.Normal? && KeyOf(nodes[0]) !in s.trail
    requires Extends(t, Expand(u, s, nodes).table) && forall k :: k in t ==> NodesIn(t[k], u)
    ensures var r := Expand(u, s, nodes);
      var said := Said(u, t, Marked(s.trail), nodes);
      Marked(r.trail) == said.0 && r.text == s.text + Joined(said.1)
    decreases u - Marked(s.trail), |nodes|, 0
  {
    var n := nodes[0];
    var k := KeyOf(n);
    var d := Declared(s, n);
    DeclaredKeeps(u, s, n);
    var m := Mark(d, k);
    ReversedKeeps(m.table[k], u, m.table);
    MarkShrinks(u, d, k);
    var def := Reversed(m.table[k]);
    var e := Expand(u, m, def);
    MarkedGrows(u, s.trail, k, e.trail);
    assert Extends(t, e.table) && t[k] == m.table[k];
    assert Marked(m.trail) == Marked(s.trail) + {k};
    ExpandSays(u, m, def, t);
    ExpandSays(u, e, nodes[1..], t);
    var inner := Said(u, t, Marked(m.trail), def);
    var rest := Said(u, t, inner.0, nodes[1..]);
    JoinedBoth(inner.1, rest.1);
    Assoc(s.text, Joined(inner.1), Joined(rest.1));
  }

  /** What stands for an undefined type: `struct x { UNKNOWN }`. */
  lemma UnknownSays(n: Node)
    requires Tagged(n.tag)
    ensures var def := Reversed(Unknown(n));
      |def| == 5 && (forall k :: 0 <= k < 5 ==> def[k].tag.Normal?)
      && [def[0].text] == Keyword(n.tag) && def[1].text == n.text
      && def[2].text == Ascii("{") && def[3].text == Ascii("UNKNOWN") && def[4].text == Ascii("}")
  {
    var l := Unknown(n);
    FiveReversed(l[0], l[1], l[2], l[3], l[4]);
    KeywordIs(n.tag);
    hide Keyword, KindName;
    assert Ascii("{") == [123] && Ascii("UNKNOWN") == [85, 78, 75, 78, 79, 87, 78] && Ascii("}") == [125];
  }

  lemma KeywordIs(k: Kind)
    requires Tagged(k)
    ensures Keyword(k) == [KindName(k)]
  {
    assert Ascii("struct") == KindName(Struct) && Ascii("union") == KindName(Union) && Ascii("enum") == KindName(Enum);
  }

  lemma FiveReversed(a: Node, b: Node, c: Node, d: Node, e: Node)
    ensures Reversed([a, b, c, d, e]) == [e, d, c, b, a]
  {
    assert [a, b, c, d, e][1..] == [b, c, d, e] && [b, c, d, e][1..] == [c, d, e] && [c, d, e][1..] == [d, e] && [d, e][1..] == [e];
    assert Reversed([e]) == [e];
    assert Reversed([d, e]) == [e, d];
    assert Reversed([c, d, e]) == [e, d, c];
    assert Reversed([b, c, d, e]) == [e, d, c, b];
  }

  /** What an exported symbol's version is computed from: its definition, read off the table that the
      export leaves. */
  lemma ExportSays(t: Table, key: Key)
    requires Sound(t) && key in t
    ensures var r := Export(t, key);
      && {key} <= Universe(t) && NodesIn(Reversed(t[key]), Universe(t))
      && (forall k :: k in r.table ==> NodesIn(r.table[k], Universe(t)))
      && r.text == Joined(Said(Universe(t), r.table, {key}, Reversed(t[key])).1)
  {
    InUniverse(t, key);
    hide Universe, Expand, Said;
    assert Marked([key]) == {key};
    ExpandSays(Universe(t), State(t, [key], []), Reversed(t[key]), Export(t, key).table);
    var said := Joined(Said(Universe(t), Export(t, key).table, {key}, Reversed(t[key])).1);
    assert [] + said == said;
  }
}
