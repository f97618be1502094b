/** Exporting a symbol: its version is the checksum of its expanded definition,
    computed with marks that are threaded through the symbols. */
module Genksyms {
  import opened Pigeonhole
  import opened Crc32
  import opened GenksymsExpand

  // ------------------------------------------------------------------------
  // What an export does
  // ------------------------------------------------------------------------

  ghost function Universe(t: Table): set<Key> {
    t.Keys + (set k, i | k in t && 0 <= i < |t[k]| :: KeyOf(t[k][i]))
  }

  /** The state after an export, its marks not yet cleared. */
  ghost function Export(t: Table, key: Key): State
    requires Sound(t) && key in t
  {
    InUniverse(t, key);
    Expand(Universe(t), State(t, [key], []), Reversed(t[key]))
  }

  lemma InUniverse(t: Table, key: Key)
    requires Sound(t) && key in t
    ensures Within(State(t, [key], []), Universe(t))
    ensures NodesIn(Reversed(t[key]), Universe(t)) && NodesSound(Reversed(t[key]), t)
  {
    assert Marked([key]) == {key};
    forall k | k in t ensures NodesIn(t[k], Universe(t)) {
      forall i | 0 <= i < |t[k]| ensures KeyOf(t[k][i]) in Universe(t) {
      }
    }
    ReversedKeeps(t[key], Universe(t), t);
  }

  ghost predicate ClosedUnder(t: Table, c: set<Key>) {
    forall k :: k in c && k in t ==> NodesIn(t[k], c)
  }

  /** An export expands the symbols that the exported one refers to, directly or
      through others, each of them once, and no others. */
  lemma ExportReaches(t: Table, key: Key, c: set<Key>)
    requires Sound(t) && key in t
    ensures Distinct(Export(t, key).trail) && key in Export(t, key).trail
    ensures forall k <- Export(t, key).trail :: k in Export(t, key).table
    ensures ClosedUnder(Export(t, key).table, Marked(Export(t, key).trail))
    ensures key in c && ClosedUnder(Export(t, key).table, c) ==> Marked(Export(t, key).trail) <= c
  {
    var u, s, nodes := Universe(t), State(t, [key], []), Reversed(t[key]);
    InUniverse(t, key);
    hide Expand, Universe;
    var r := Export(t, key);
    ExpandOnce(u, s, nodes);
    ExpandCloses(u, s, nodes);
    ReversedIn(t[key], Marked(r.trail));
    assert r.table[key] == t[key] && r.trail[0] == key;
    if key in c && ClosedUnder(r.table, c) {
      ReversedIn(t[key], c);
      ExpandLeast(u, s, nodes, c);
      assert Marked(s.trail) == {key};
    }
  }

  /** An export leaves the table as it was exactly if everything it reaches is
      defined. */
  lemma ExportSettled(t: Table, key: Key)
    requires Sound(t) && key in t
    ensures Export(t, key).table == t <==> forall k <- Export(t, key).trail :: k in t
  {
    var u, s, nodes := Universe(t), State(t, [key], []), Reversed(t[key]);
    InUniverse(t, key);
    hide Expand, Universe;
    var r := Export(t, key);
    ExportReaches(t, key, {});
    ExpandCloses(u, s, nodes);
    ExpandLeast(u, s, nodes, Marked(r.trail));
    if forall k <- r.trail :: k in t {
      assert r.table.Keys == t.Keys;
      assert r.table == t;
    }
  }

  const LETTER_A: Text := [97]
  const LETTER_B: Text := [98]
  const LETTER_X: Text := [120]

  /** If something is not defined, a version can depend on what was exported
      before: here an undefined name is called a struct by one symbol and a
      union by the other. */
  lemma UndefinedDependsOnOrder()
    ensures
      var a, b := Key(false, LETTER_A), Key(false, LETTER_B);
      var t: Table := map[a := [Node(Struct, LETTER_X)], b := [Node(Union, LETTER_X)]];
      && Sound(t) && Sound(Export(t, a).table)
      && Export(Export(t, a).table, b).text != Export(t, b).text
  {
    var a, b, x := Key(false, LETTER_A), Key(false, LETTER_B), Key(true, LETTER_X);
    var t: Table := map[a := [Node(Struct, LETTER_X)], b := [Node(Union, LETTER_X)]];
    var n, m := Node(Struct, LETTER_X), Node(Union, LETTER_X);
    UnknownIs(n);
    UnknownIs(m);
    var t1 := t[x := Unknown(n)];
    assert Sound(t) && Sound(t1);
    hide Export, Unknown, Sound;
    OneReference(t, a, n);
    OneReference(t, b, m);
    OneReference(t1, b, m);
    assert Export(t, b).text[0] == 117;
    assert Export(t1, b).text[0] == 115;
  }

  lemma UnknownIs(n: Node)
    requires Tagged(n.tag)
    ensures |Unknown(n)| == 5 && forall i :: 0 <= i < 5 ==> Unknown(n)[i].tag.Normal?
    ensures Unknown(n)[4].text == KindName(n.tag)
  {
  }

  /** A symbol whose definition is one reference to a type that is undefined or
      of the form given to undefined types. */
  lemma OneReference(t: Table, key: Key, n: Node)
    requires Sound(t) && key in t && t[key] == [n] && Tagged(n.tag) && !key.tagged
    requires KeyOf(n) in t ==> |t[KeyOf(n)]| == 5 && forall i :: 0 <= i < 5 ==> t[KeyOf(n)][i].tag.Normal?
    ensures
      var def := if KeyOf(n) in t then t[KeyOf(n)] else Unknown(n);
      && Export(t, key).table == t[KeyOf(n) := def]
      && def[4].text <= Export(t, key).text
  {
    InUniverse(t, key);
    var u, s := Universe(t), State(t, [key], []);
    assert Reversed([n]) == [n] by { assert [n][1..] == []; }
    var def := if KeyOf(n) in t then t[KeyOf(n)] else Unknown(n);
    assert |def| == 5 && forall i :: 0 <= i < 5 ==> def[i].tag.Normal?;
    ReversedPlain(def);
    hide Expand, Universe, Unknown, Reversed, Within, Sound, NodesSound;
    var m := Entered(u, s, [n]);
    assert m.table == t[KeyOf(n) := def] && m.text == [];
    PlainText(u, m, Reversed(def));
    ExpandOne(u, s, n);
  }

  lemma ExpandOne(u: set<Key>, s: State, n: Node)
    requires Within(s, u) && NodesIn([n], u) && Sound(s.table) && NodesSound([n], s.table)
    ensures Expand(u, s, [n]) == AfterFirst(u, s, [n])
  {
    hide Within, NodesIn, Sound, NodesSound, AfterFirst;
    assert [n][1..] == [];
  }

  lemma ReversedPlain(def: seq<Node>)
    requires |def| == 5
    ensures |Reversed(def)| == 5 && Reversed(def)[0] == def[4]
    ensures (forall i :: 0 <= i < 5 ==> def[i].tag.Normal?) ==> forall i :: 0 <= i < 5 ==> Reversed(def)[i].tag.Normal?
  {
    forall x: Node ensures x in Reversed(def) <==> x in def { ReversedAll(def, x); }
    assert Reversed(def[5..]) == [];
    assert Reversed(def[4..]) == [def[4]];
    assert Reversed(def[3..]) == [def[4], def[3]];
    assert Reversed(def[2..]) == [def[4], def[3], def[2]];
    assert Reversed(def[1..]) == [def[4], def[3], def[2], def[1]];
  }

  lemma {:induction false} PlainText(u: set<Key>, s: State, nodes: seq<Node>)
    requires Within(s, u) && NodesIn(nodes, u) && Sound(s.table) && NodesSound(nodes, s.table)
    requires forall i :: 0 <= i < |nodes| ==> nodes[i].tag.Normal?
    ensures Expand(u, s, nodes).table == s.table
    ensures nodes != [] ==> s.text + nodes[0].text <= Expand(u, s, nodes).text
    decreases |nodes|
  {
    if nodes != [] {
      PlainText(u, s.(text := s.text + (nodes[0].text + SPACE)), nodes[1..]);
    }
  }

  // ------------------------------------------------------------------------
  // The marks in the symbols
  // ------------------------------------------------------------------------

  /** A mark: the symbol marked before this one, or the end of the trail. */
  datatype Link = End | To(key: Key)

  /** The marks thread the symbols of the trail, from the last one back. */
  ghost predicate Threaded(trail: seq<Key>, marks: map<Key, Link>, head: Link) {
    && marks.Keys == Marked(trail)
    && head == Before(trail, |trail|)
    && Steps(trail, marks)
  }

  ghost predicate Steps(trail: seq<Key>, marks: map<Key, Link>) {
    forall i :: 0 <= i < |trail| ==> trail[i] in marks && marks[trail[i]] == Before(trail, i)
  }

  function Before(trail: seq<Key>, i: nat): Link
    requires i <= |trail|
  {
    if i == 0 then End else To(trail[i - 1])
  }

  lemma StepsMore(trail: seq<Key>, marks: map<Key, Link>, key: Key)
    requires Steps(trail, marks) && key !in trail
    ensures Steps(trail + [key], marks[key := Before(trail, |trail|)])
  {
    var more, m := trail + [key], marks[key := Before(trail, |trail|)];
    forall i | 0 <= i < |more| ensures more[i] in m && m[more[i]] == Before(more, i) {
      assert Before(more, i) == Before(trail, i);
      if i < |trail| {
        assert more[i] == trail[i] && trail[i] in marks;
      }
    }
  }

  lemma ThreadMore(trail: seq<Key>, marks: map<Key, Link>, head: Link, key: Key)
    requires Threaded(trail, marks, head) && key !in trail
    ensures Threaded(trail + [key], marks[key := head], To(key))
  {
    hide Steps;
    StepsMore(trail, marks, key);
    assert Marked(trail + [key]) == Marked(trail) + {key};
  }

  lemma StepsLess(trail: seq<Key>, marks: map<Key, Link>, last: Key)
    requires Steps(trail, marks) && trail != []
    requires forall i :: 0 <= i < |trail| - 1 ==> trail[i] != last
    ensures Steps(trail[..|trail| - 1], marks - {last})
  {
    var rest, m := trail[..|trail| - 1], marks - {last};
    forall i | 0 <= i < |rest| ensures rest[i] in m && m[rest[i]] == Before(rest, i) {
      assert rest[i] == trail[i] && trail[i] in marks && trail[i] != last;
      assert Before(rest, i) == Before(trail, i);
    }
  }

  lemma ThreadLess(trail: seq<Key>, marks: map<Key, Link>, head: Link)
    requires Threaded(trail, marks, head) && Distinct(trail) && head.To?
    ensures trail != [] && head.key in marks
    ensures Threaded(trail[..|trail| - 1], marks - {head.key}, marks[head.key])
    ensures Distinct(trail[..|trail| - 1])
  {
    hide Steps, Distinct, Marked;
    var last := |trail| - 1;
    LastGone(trail);
    StepAt(trail, marks, last);
    StepsLess(trail, marks, head.key);
    KeysLess(marks, head.key);
  }

  lemma StepAt(trail: seq<Key>, marks: map<Key, Link>, i: nat)
    requires Steps(trail, marks) && i < |trail|
    ensures trail[i] in marks && marks[trail[i]] == Before(trail, i) == Before(trail[..i], i)
  {
  }

  lemma KeysLess(marks: map<Key, Link>, k: Key)
    ensures (marks - {k}).Keys == marks.Keys - {k}
  {
  }

  lemma LastGone(trail: seq<Key>)
    requires trail != [] && Distinct(trail)
    ensures
      var rest, last := trail[..|trail| - 1], trail[|trail| - 1];
      && Distinct(rest) && Marked(rest) == Marked(trail) - {last}
      && forall i :: 0 <= i < |trail| - 1 ==> trail[i] != last
  {
    assert trail == trail[..|trail| - 1] + [trail[|trail| - 1]];
  }

  lemma ThreadFacts(trail: seq<Key>, marks: map<Key, Link>, head: Link, k: Key)
    requires Threaded(trail, marks, head)
    ensures k in marks <==> k in trail
    ensures head == End ==> marks == map[]
  {
  }

  lemma ReversedEmpty()
    ensures Reversed([]) == []
  {
  }

  lemma FirstIn(nodes: seq<Node>, u: set<Key>)
    requires NodesIn(nodes, u) && nodes != [] && !nodes[0].tag.Normal?
    ensures KeyOf(nodes[0]) in u
  {
  }

  lemma AfterWord(u: set<Key>, s: State, nodes: seq<Node>)
    requires Within(s, u) && NodesIn(nodes, u) && Sound(s.table) && NodesSound(nodes, s.table) && nodes != []
    requires nodes[0].tag.Normal?
    ensures AfterFirst(u, s, nodes) == s.(text := s.text + (nodes[0].text + SPACE))
    ensures Within(AfterFirst(u, s, nodes), u)
  {
    hide Expand, NodesIn, Sound, NodesSound;
  }

  lemma AfterMention(u: set<Key>, s: State, nodes: seq<Node>)
    requires Within(s, u) && NodesIn(nodes, u) && Sound(s.table) && NodesSound(nodes, s.table) && nodes != []
    requires !nodes[0].tag.Normal? && KeyOf(nodes[0]) in s.trail
    ensures
      var d := Declared(s, nodes[0]);
      AfterFirst(u, s, nodes) == d.(text := d.text + Mention(nodes[0]))
    ensures Within(AfterFirst(u, s, nodes), u)
  {
    hide Expand, NodesIn, Sound, NodesSound;
  }

  const ALL_ONES: bv32 := 0xffffffff

  class Symbols {

    var table: Table
    var errors: nat
    // Errors are reported and counted only if warnings are asked for.
    const warnings: bool
    // The mark of each marked symbol, and the symbol marked last.
    var marks: map<Key, Link>
    var head: Link

    ghost var trail: seq<Key>
    ghost var text: Text

    ghost function Now(): State
      reads this
    {
      State(table, trail, text)
    }

    function Reported(n: int): int {
      if warnings then n else 0
    }

    method ErrorWithPos()
      modifies this`errors
      ensures errors == old(errors) + Reported(1)
    {
      if warnings {
        errors := errors + 1;
      }
    }

    ghost predicate Valid(u: set<Key>)
      reads this
    {
      Sound(table) && Within(Now(), u) && Distinct(trail) && Threaded(trail, marks, head)
    }

    constructor (t: Table, warnings: bool)
      ensures table == t && errors == 0 && marks == map[] && this.warnings == warnings
    {
      this.warnings := warnings;
      table, errors, marks, head, trail, text := t, 0, map[], End, [], [];
    }

    /** The nodes of a definition, first node first. */
    method Unwind(list: seq<Node>) returns (nodes: seq<Node>)
      ensures nodes == Reversed(list)
    {
      var b := new Node[|list|](_ => Node(Normal, []));
      for i := 0 to |list|
        invariant b[|list| - i..] == Reversed(list[..i])
      {
        b[|list| - 1 - i] := list[i];
        ReversedNext(list, i);
        assert b[|list| - (i + 1)..] == [list[i]] + b[|list| - i..];
      }
      assert list[..|list|] == list;
      nodes := b[..];
    }

    method Say(s: Text, crc: bv32) returns (r: bv32)
      requires crc == Update(text, ALL_ONES)
      modifies this`text
      ensures text == old(text) + (s + SPACE) && r == Update(text, ALL_ONES)
    {
      SaidAfter(text, s);
      hide Update;
      r := PartialCrc32(s, crc);
      r := PartialCrc32(SPACE, r);
      text := text + (s + SPACE);
    }

    /** Expands the definition of a symbol, running its text through the
        checksum. */
    method ExpandAndCrcSym(key: Key, start: bv32, ghost u: set<Key>) returns (crc: bv32)
      requires Valid(u) && key in table && start == Update(text, ALL_ONES)
      requires NodesIn(Reversed(table[key]), u) && NodesSound(Reversed(table[key]), table)
      modifies this
      ensures Valid(u) && Now() == Expand(u, old(Now()), Reversed(old(table)[key]))
      ensures crc == Update(text, ALL_ONES) && errors == old(errors) + Reported(|table| - |old(table)|)
      decreases u - Marked(trail), 1
    {
      crc := start;
      ghost var s := Now();
      hide Expand, Within, Sound, NodesIn, NodesSound, Distinct, Threaded, Reversed, Update, AfterFirst, Marked;
      if table[key] == [] {
        ReversedEmpty();
        ExpandNone(u, s, []);
        return;
      }
      var all := Unwind(table[key]);
      for i := 0 to |all|
        invariant Valid(u) && NodesIn(all[i..], u) && NodesSound(all[i..], table)
        invariant Expand(u, Now(), all[i..]) == Expand(u, s, all)
        invariant crc == Update(text, ALL_ONES) && Marked(s.trail) <= Marked(trail)
        invariant errors == old(errors) + Reported(|table| - |old(table)|)
      {
        assert all[i..][1..] == all[i + 1..];
        crc := ExpandNode(all[i], all[i..], crc, u);
      }
      ExpandNone(u, Now(), all[|all|..]);
    }

    /** One node of a definition: a word, or a reference. */
    method ExpandNode(n: Node, ghost nodes: seq<Node>, start: bv32, ghost u: set<Key>) returns (crc: bv32)
      requires Valid(u) && nodes != [] && n == nodes[0] && start == Update(text, ALL_ONES)
      requires NodesIn(nodes, u) && NodesSound(nodes, table)
      modifies this
      ensures Valid(u) && NodesIn(nodes[1..], u) && NodesSound(nodes[1..], table)
      ensures Expand(u, Now(), nodes[1..]) == Expand(u, old(Now()), nodes)
      ensures Marked(old(trail)) <= Marked(trail)
      ensures crc == Update(text, ALL_ONES) && errors == old(errors) + Reported(|table| - |old(table)|)
      decreases u - Marked(trail), 0
    {
      hide Expand, Within, Sound, NodesIn, NodesSound, Distinct, Threaded, AfterFirst, Update, Unknown, Reversed, Marked;
      ghost var s := Now();
      if n.tag.Normal? {
        AfterWord(u, s, nodes);
        crc := Say(n.text, start);
        return;
      }
      FirstIn(nodes, u);
      DeclaredKeeps(u, s, n);
      var k := KeyOf(n);
      if Tagged(n.tag) && k !in table {
        ErrorWithPos();
        table := table[k := Unknown(n)];
      }
      assert Now() == Declared(s, n);
      ThreadFacts(trail, marks, head, k);
      if k in marks {
        AfterMention(u, s, nodes);
        crc := Name(n, start);
      } else {
        ghost var m := Entered(u, s, nodes);
        MarkSymbol(k);
        crc := ExpandAndCrcSym(k, start, u);
      }
    }

    /** Puts a symbol at the end of the trail. */
    method MarkSymbol(k: Key)
      requires Threaded(trail, marks, head) && Distinct(trail) && k !in trail
      modifies this`marks, this`head, this`trail
      ensures Threaded(trail, marks, head) && Distinct(trail) && trail == old(trail) + [k]
    {
      ThreadMore(trail, marks, head, k);
      marks := marks[k := head];
      head := To(k);
      trail := trail + [k];
    }

    /** A reference to a symbol whose definition has gone before. */
    method Name(n: Node, start: bv32) returns (crc: bv32)
      requires start == Update(text, ALL_ONES)
      modifies this`text
      ensures text == old(text) + Mention(n) && crc == Update(text, ALL_ONES)
    {
      MentionAfter(text, n);
      hide Mention, KindName, Update;
      crc := start;
      if Tagged(n.tag) {
        crc := Say(KindName(n.tag), crc);
      }
      crc := Say(n.text, crc);
    }

    /** Prints the version of a symbol; nothing, if there is no such symbol.
        Whatever was exported before, the marks are clear again afterwards. */
    method ExportSymbol(key: Key) returns (crc: bv32, found: bool)
      requires Sound(table) && marks == map[]
      modifies this
      ensures marks == map[] && found == (key in old(table))
      ensures !found ==> table == old(table) && errors == old(errors) + Reported(1)
      ensures found ==> table == Export(old(table), key).table && Sound(table)
      ensures found ==> errors == old(errors) + Reported(|table| - |old(table)|)
      ensures found ==> crc == SerialUpdate(Export(old(table), key).text, ALL_ONES) ^ ALL_ONES
    {
      hide Expand, Universe, NodesIn, NodesSound, Threaded, Distinct, Within, Sound, Marked, Reversed, Update, SerialUpdate;
      found := key in table;
      if !found {
        ErrorWithPos();
        crc := 0;
        return;
      }
      ghost var u := Universe(table);
      InUniverse(table, key);
      BeginTrail(key, u);
      crc := ExpandAndCrcSym(key, ALL_ONES, u);
      UpdateIsSerial(text, ALL_ONES);
      crc := crc ^ ALL_ONES;
      ClearMarks();
    }

    /** The exported symbol is the first one to be marked. */
    method BeginTrail(key: Key, ghost u: set<Key>)
      requires Sound(table) && Within(State(table, [key], []), u)
      modifies this`marks, this`head, this`trail, this`text
      ensures Valid(u) && Now() == State(table, [key], []) && ALL_ONES == Update(text, ALL_ONES)
    {
      marks := map[key := End];
      head := To(key);
      trail, text := [key], [];
    }

    /** Follows the trail back and clears every mark on it. */
    method ClearMarks()
      requires Distinct(trail) && Threaded(trail, marks, head)
      modifies this`marks, this`head, this`trail
      ensures marks == map[]
    {
      hide Threaded, Distinct;
      while head != End
        invariant Distinct(trail) && Threaded(trail, marks, head)
        decreases |trail|
      {
        ThreadLess(trail, marks, head);
        var next := marks[head.key];
        marks := marks - {head.key};
        head := next;
        trail := trail[..|trail| - 1];
      }
      ThreadFacts(trail, marks, head, Key(false, []));
    }
  }

  lemma MentionAfter(t: Text, n: Node)
    ensures t + Mention(n) ==
      if Tagged(n.tag) then (t + (KindName(n.tag) + SPACE)) + (n.text + SPACE) else t + (n.text + SPACE)
  {
    if Tagged(n.tag) {
      hide KindName;
      assert KindName(n.tag) + SPACE + n.text + SPACE == (KindName(n.tag) + SPACE) + (n.text + SPACE);
    }
  }

  lemma SaidAfter(t: Text, s: Text)
    ensures Update(t + (s + SPACE), ALL_ONES) == Update(SPACE, Update(s, Update(t, ALL_ONES)))
  {
    hide Update;
    UpdateJoin(t, s + SPACE, ALL_ONES);
    UpdateJoin(s, SPACE, Update(t, ALL_ONES));
  }

  lemma {:induction false} ReversedNext(list: seq<Node>, i: nat)
    requires i < |list|
    ensures Reversed(list[..i + 1]) == [list[i]] + Reversed(list[..i])
  {
    if i == 0 {
      assert list[..1][1..] == [];
    } else {
      ReversedNext(list[1..], i - 1);
      assert list[..i + 1][1..] == list[1..][..i] && list[..i][1..] == list[1..][..i - 1];
    }
  }
}
