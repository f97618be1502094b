/** Whether the version of a symbol depends on what was exported before it. */
module GenksymsOrder {
  import opened GenksymsExpand
  import opened Genksyms

  // ------------------------------------------------------------------------
  // Tables left by exports
  // ------------------------------------------------------------------------

  /** A definition that stands in for that of an undefined symbol. */
  ghost predicate StandIn(k: Key, def: seq<Node>) {
    exists n: Node :: Tagged(n.tag) && KeyOf(n) == k && def == Unknown(n)
  }

  /** `later` has the symbols of `t`, and stand-ins. */
  ghost predicate Grown(t: Table, later: Table) {
    && (forall k :: k in t ==> k in later && later[k] == t[k])
    && (forall k :: k in later && k !in t ==> StandIn(k, later[k]))
  }

  lemma GrownOn(t: Table, mid: Table, later: Table)
    requires Grown(t, mid) && Grown(mid, later)
    ensures Grown(t, later)
  {
  }

  lemma {:induction false} ExpandGrows(u: set<Key>, s: State, nodes: seq<Node>)
    requires Within(s, u) && NodesIn(nodes, u) && Sound(s.table) && NodesSound(nodes, s.table)
    ensures Grown(s.table, Expand(u, s, nodes).table)
    decreases u - Marked(s.trail), |nodes|
  {
    if nodes == [] {
      ExpandNone(u, s, nodes);
    } else {
      hide Expand, Within, NodesIn, Sound, NodesSound, Grown, Unknown;
      var n, f := nodes[0], AfterFirst(u, s, nodes);
      if !n.tag.Normal? && KeyOf(n) !in s.trail {
        var m := Entered(u, s, nodes);
        ExpandGrows(u, m, Reversed(m.table[KeyOf(n)]));
        DeclaredGrows(s, n);
        GrownOn(s.table, m.table, f.table);
      } else {
        DeclaredGrows(s, n);
      }
      ExpandGrows(u, f, nodes[1..]);
      GrownOn(s.table, f.table, Expand(u, s, nodes).table);
    }
  }

  lemma DeclaredGrows(s: State, n: Node)
    ensures Grown(s.table, Declared(s, n).table) && Grown(s.table, s.table)
  {
    hide Unknown;
  }

  /** The universe only bounds the expansion. */
  lemma {:induction false} AnyUniverse(u: set<Key>, w: set<Key>, s: State, nodes: seq<Node>)
    requires Within(s, u) && NodesIn(nodes, u) && Sound(s.table) && NodesSound(nodes, s.table)
    requires Within(s, w) && NodesIn(nodes, w)
    ensures Expand(u, s, nodes) == Expand(w, s, nodes)
    decreases u - Marked(s.trail), |nodes|
  {
    if nodes == [] {
      ExpandNone(u, s, nodes);
      ExpandNone(w, s, nodes);
    } else {
      hide Expand, Within, NodesIn, Sound, NodesSound;
      var n := nodes[0];
      if !n.tag.Normal? && KeyOf(n) !in s.trail {
        var m := Entered(u, s, nodes);
        var m' := Entered(w, s, nodes);
        AnyUniverse(u, w, m, Reversed(m.table[KeyOf(n)]));
      }
      AnyUniverse(u, w, AfterFirst(u, s, nodes), nodes[1..]);
    }
  }

  // ------------------------------------------------------------------------
  // Two runs in lockstep
  // ------------------------------------------------------------------------

  ghost predicate Agree(t: Table, later: Table) {
    forall k :: k in t && k in later ==> t[k] == later[k]
  }

  /** The state of the same expansion with the symbols of `later` there from the
      start. */
  ghost predicate InStep(s: State, s': State, later: Table) {
    && s'.trail == s.trail && s'.text == s.text
    && s'.table == later + s.table && Agree(s.table, later)
    && forall k <- s.trail :: k in s.table
  }

  ghost predicate Differ(a: Text, b: Text) {
    exists i :: 0 <= i < |a| && i < |b| && a[i] != b[i]
  }

  /** Two stand-ins for one symbol are different only in the kind, and kinds have
      different first letters. */
  lemma StandInsDiffer(n: Node, def: seq<Node>)
    requires Tagged(n.tag) && StandIn(KeyOf(n), def) && def != Unknown(n)
    ensures |def| == 5 && |def[4].text| > 0 && |KindName(n.tag)| > 0 && def[4].text[0] != KindName(n.tag)[0]
    ensures forall i :: 0 <= i < 5 ==> def[i].tag.Normal?
  {
    var n': Node :| Tagged(n'.tag) && KeyOf(n') == KeyOf(n) && def == Unknown(n');
    assert n'.tag != n.tag;
  }

  ghost predicate Ready(u: set<Key>, s: State, nodes: seq<Node>) {
    Within(s, u) && NodesIn(nodes, u) && Sound(s.table) && NodesSound(nodes, s.table)
  }

  ghost predicate StandsIn(s: State, later: Table) {
    forall k :: k in later && k !in s.table ==> StandIn(k, later[k])
  }

  /** The two runs stay in step as long as what the first one adds is what the
      second one had, and come apart in their texts at the first symbol where it
      is not. */
  lemma {:induction false} Lockstep(u: set<Key>, s: State, s': State, nodes: seq<Node>, later: Table)
    requires Ready(u, s, nodes) && Ready(u, s', nodes) && InStep(s, s', later) && StandsIn(s, later)
    ensures Agree(Expand(u, s, nodes).table, later) ==> InStep(Expand(u, s, nodes), Expand(u, s', nodes), later)
    ensures !Agree(Expand(u, s, nodes).table, later) ==> Differ(Expand(u, s, nodes).text, Expand(u, s', nodes).text)
    decreases u - Marked(s.trail), |nodes|
  {
    if nodes == [] {
      ExpandNone(u, s, nodes);
      ExpandNone(u, s', nodes);
    } else {
      hide Expand, Within, NodesIn, Sound, NodesSound, InStep, Agree, Differ, StandsIn, AfterFirst;
      var f, f' := AfterFirst(u, s, nodes), AfterFirst(u, s', nodes);
      FirstInStep(u, s, s', nodes, later);
      if Agree(f.table, later) {
        StandsInStill(s, f, later);
        Lockstep(u, f, f', nodes[1..], later);
      } else {
        AgreeBack(f.table, Expand(u, s, nodes).table, later);
        DifferOn(f.text, f'.text, Expand(u, s, nodes).text, Expand(u, s', nodes).text);
      }
    }
  }

  lemma StandsInStill(s: State, f: State, later: Table)
    requires StandsIn(s, later) && forall k :: k in s.table ==> k in f.table
    ensures StandsIn(f, later)
  {
  }

  lemma AgreeBack(t: Table, more: Table, later: Table)
    requires !Agree(t, later) && forall k :: k in t ==> k in more && more[k] == t[k]
    ensures !Agree(more, later)
  {
  }

  lemma DifferOn(a: Text, b: Text, a': Text, b': Text)
    requires Differ(a, b) && a <= a' && b <= b'
    ensures Differ(a', b')
  {
    var i :| 0 <= i < |a| && i < |b| && a[i] != b[i];
    assert a'[i] == a[i] && b'[i] == b[i];
  }

  /** The same for the first node. */
  lemma {:induction false} FirstInStep(u: set<Key>, s: State, s': State, nodes: seq<Node>, later: Table)
    requires Ready(u, s, nodes) && Ready(u, s', nodes) && InStep(s, s', later) && StandsIn(s, later) && nodes != []
    ensures var f, f' := AfterFirst(u, s, nodes), AfterFirst(u, s', nodes);
      && (Agree(f.table, later) ==> InStep(f, f', later))
      && (!Agree(f.table, later) ==> Differ(f.text, f'.text))
    decreases u - Marked(s.trail), |nodes|, 0
  {
    var n := nodes[0];
    if n.tag.Normal? {
      AfterWord(u, s, nodes);
      AfterWord(u, s', nodes);
    } else if KeyOf(n) in s.trail {
      AfterMention(u, s, nodes);
      AfterMention(u, s', nodes);
    } else {
      hide Expand, Within, NodesIn, Sound, NodesSound, Differ, StandsIn, AfterFirst;
      var m := Entered(u, s, nodes);
      var m' := Entered(u, s', nodes);
      var k := KeyOf(n);
      if m.table[k] == m'.table[k] {
        assert InStep(m, m', later) by { EnterInStep(s, s', n, later); }
        StandsInStill(s, m, later);
        Lockstep(u, m, m', Reversed(m.table[k]), later);
      } else {
        EnterApart(u, s, s', nodes, later, m, m');
      }
    }
  }

  lemma EnterInStep(s: State, s': State, n: Node, later: Table)
    requires InStep(s, s', later) && !n.tag.Normal? && KeyOf(n) in Declared(s, n).table && KeyOf(n) in Declared(s', n).table
    requires Declared(s, n).table[KeyOf(n)] == Declared(s', n).table[KeyOf(n)]
    ensures InStep(Mark(Declared(s, n), KeyOf(n)), Mark(Declared(s', n), KeyOf(n)), later)
  {
    hide Unknown;
    var d, d' := Declared(s, n), Declared(s', n);
    assert d'.table.Keys == (later + d.table).Keys;
    assert d'.table == later + d.table;
  }

  lemma EnterApart(u: set<Key>, s: State, s': State, nodes: seq<Node>, later: Table, m: State, m': State)
    requires Ready(u, s, nodes) && Ready(u, s', nodes) && InStep(s, s', later) && StandsIn(s, later) && nodes != []
    requires Enters(u, s, nodes[0], m) && Enters(u, s', nodes[0], m')
    requires m.table[KeyOf(nodes[0])] != m'.table[KeyOf(nodes[0])]
    ensures var f, f' := AfterFirst(u, s, nodes), AfterFirst(u, s', nodes);
      !Agree(f.table, later) && Differ(f.text, f'.text)
  {
    hide Expand, Within, NodesIn, Sound, NodesSound, AfterFirst, Unknown, KindName, Differ, StandIn, Marked;
    var n := nodes[0];
    var k := KeyOf(n);
    assert k !in s.table && k in later && Tagged(n.tag);
    assert m.table[k] == Unknown(n) && m'.table[k] == later[k];
    assert StandIn(k, later[k]);
    StandInsDiffer(n, later[k]);
    UnknownShape(n);
    EnteredText(u, s, nodes, m);
    EnteredText(u, s', nodes, m');
    TextsApart(s.text, KindName(n.tag), later[k][4].text, AfterFirst(u, s, nodes).text, AfterFirst(u, s', nodes).text);
  }

  lemma UnknownShape(n: Node)
    requires Tagged(n.tag)
    ensures |Unknown(n)| == 5 && Unknown(n)[4].text == KindName(n.tag)
    ensures forall i :: 0 <= i < 5 ==> Unknown(n)[i].tag.Normal?
  {
  }

  /** A stand-in begins with its last node, the kind. */
  lemma EnteredText(u: set<Key>, s: State, nodes: seq<Node>, m: State)
    requires Ready(u, s, nodes) && nodes != [] && Enters(u, s, nodes[0], m)
    requires var def := m.table[KeyOf(nodes[0])]; |def| == 5 && forall i :: 0 <= i < 5 ==> def[i].tag.Normal?
    ensures var f, k := AfterFirst(u, s, nodes), KeyOf(nodes[0]);
      s.text + m.table[k][4].text <= f.text && k in f.table && f.table[k] == m.table[k]
  {
    hide Expand, Within, NodesIn, Sound, NodesSound, AfterFirst, Unknown;
    var def := m.table[KeyOf(nodes[0])];
    var e := Entered(u, s, nodes);
    ReversedPlain(def);
    PlainText(u, m, Reversed(def));
  }

  lemma TextsApart(p: Text, a: Text, b: Text, x: Text, y: Text)
    requires p + a <= x && p + b <= y && |a| > 0 && |b| > 0 && a[0] != b[0]
    ensures Differ(x, y)
  {
    assert x[|p|] == (p + a)[|p|] == a[0] && y[|p|] == (p + b)[|p|] == b[0];
  }

  // ------------------------------------------------------------------------
  // Versions
  // ------------------------------------------------------------------------

  /** The text that the version of a symbol is computed from is the same after the
      table has grown if and only if the symbol's own expansion would add no
      symbol that has been added otherwise. */
  lemma VersionKept(t: Table, later: Table, b: Key)
    requires Sound(t) && Sound(later) && Grown(t, later) && b in t
    ensures Export(later, b).text == Export(t, b).text <==> Agree(Export(t, b).table, later)
  {
    var u := Universe(t) + Universe(later);
    ExportIn(t, b, u);
    ExportIn(later, b, u);
    hide Expand, Within, NodesIn, Sound, NodesSound, Universe, Differ, Reversed, Export;
    assert later == later + t;
    Lockstep(u, State(t, [b], []), State(later, [b], []), Reversed(t[b]), later);
    if !Agree(Export(t, b).table, later) {
      NotSame(Export(t, b).text, Export(later, b).text);
    }
  }

  /** An export does not depend on how many keys are reckoned with. */
  lemma ExportIn(t: Table, b: Key, u: set<Key>)
    requires Sound(t) && b in t && Universe(t) <= u
    ensures Within(State(t, [b], []), u) && NodesIn(Reversed(t[b]), u) && NodesSound(Reversed(t[b]), t)
    ensures Export(t, b) == Expand(u, State(t, [b], []), Reversed(t[b]))
  {
    InUniverse(t, b);
    Widened(Universe(t), u, State(t, [b], []), Reversed(t[b]));
    hide Expand, Within, NodesIn, Sound, NodesSound, Universe, Reversed;
    AnyUniverse(Universe(t), u, State(t, [b], []), Reversed(t[b]));
  }

  lemma NotSame(a: Text, b: Text)
    requires Differ(a, b)
    ensures a != b
  {
  }

  lemma Widened(u: set<Key>, w: set<Key>, s: State, nodes: seq<Node>)
    requires Within(s, u) && NodesIn(nodes, u) && u <= w
    ensures Within(s, w) && NodesIn(nodes, w)
  {
    forall k | k in s.table ensures NodesIn(s.table[k], w) {
      assert NodesIn(s.table[k], u);
    }
  }

  lemma ExportGrows(t: Table, a: Key)
    requires Sound(t) && a in t
    ensures Grown(t, Export(t, a).table) && Sound(Export(t, a).table)
  {
    InUniverse(t, a);
    ExpandGrows(Universe(t), State(t, [a], []), Reversed(t[a]));
  }

  /** The version of one symbol after the export of another: it is the same if and
      only if the two exports agree on every undefined symbol that both of them
      add. */
  lemma OrderOfTwo(t: Table, a: Key, b: Key)
    requires Sound(t) && a in t && b in t
    ensures Sound(Export(t, a).table) && b in Export(t, a).table
    ensures Export(Export(t, a).table, b).text == Export(t, b).text
      <==> forall k :: k !in t && k in Export(t, a).table && k in Export(t, b).table ==>
        Export(t, a).table[k] == Export(t, b).table[k]
  {
    ExportGrows(t, a);
    ExportGrows(t, b);
    VersionKept(t, Export(t, a).table, b);
  }

  /** The table after a sequence of exports; names that are not in it export
      nothing. */
  ghost function After(t: Table, keys: seq<Key>): (r: Table)
    requires Sound(t)
    ensures Sound(r) && Grown(t, r)
    decreases |keys|
  {
    if keys == [] then t else
      var before := After(t, keys[..|keys| - 1]);
      var key := keys[|keys| - 1];
      if key in before then
        ExportGrows(before, key);
        GrownOn(t, before, Export(before, key).table);
        Export(before, key).table
      else before
  }

  /** The same over whatever has been exported before. */
  lemma OrderOfAll(t: Table, keys: seq<Key>, b: Key)
    requires Sound(t) && b in t
    ensures b in After(t, keys)
    ensures Export(After(t, keys), b).text == Export(t, b).text
      <==> forall k :: k !in t && k in After(t, keys) && k in Export(t, b).table ==>
        After(t, keys)[k] == Export(t, b).table[k]
  {
    ExportGrows(t, b);
    VersionKept(t, After(t, keys), b);
  }

  /** A symbol that reaches nothing undefined has one version, whatever has been
      exported before. */
  lemma DefinedHasOneVersion(t: Table, keys: seq<Key>, b: Key)
    requires Sound(t) && b in t && forall k <- Export(t, b).trail :: k in t
    ensures b in After(t, keys) && Export(After(t, keys), b).text == Export(t, b).text
  {
    OrderOfAll(t, keys, b);
    ExportSettled(t, b);
  }
}
