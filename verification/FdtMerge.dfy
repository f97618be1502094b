/** merge_nodes: overlaying one live tree on another. */
module FdtMerge {
  import opened Options
  import opened FdtTree

  // ---------------------------------------------------------------- labels

  /** add_label: a label already there, even deleted, becomes live; otherwise it goes first. */
  function AddLabel(labels: seq<Label>, name: Bytes): seq<Label> {
    var k := FindLabel(labels, name);
    if k < |labels| then labels[k := Label(name, false)] else [Label(name, false)] + labels
  }

  function FindLabel(labels: seq<Label>, name: Bytes): (k: nat)
    ensures k <= |labels|
    ensures k < |labels| ==> labels[k].name == name
    ensures forall j :: 0 <= j < k ==> labels[j].name != name
  {
    if labels == [] || labels[0].name == name then 0 else 1 + FindLabel(labels[1..], name)
  }

  /** All labels of the new side, deleted or not. */
  function AddLabels(labels: seq<Label>, added: seq<Label>): seq<Label>
    decreases added
  {
    if added == [] then labels else AddLabels(AddLabel(labels, added[0].name), added[1..])
  }

  function DeleteLabels(labels: seq<Label>): (r: seq<Label>)
    ensures |r| == |labels|
  {
    seq(|labels|, k requires 0 <= k < |labels| => Label(labels[k].name, true))
  }

  ghost predicate LiveLabel(labels: seq<Label>, name: Bytes) {
    exists k :: 0 <= k < |labels| && labels[k] == Label(name, false)
  }

  lemma {:induction false} AddedLabelsLive(labels: seq<Label>, added: seq<Label>, name: Bytes)
    ensures LiveLabel(AddLabels(labels, added), name)
       <==> LiveLabel(labels, name) || exists k :: 0 <= k < |added| && added[k].name == name
    decreases added
  {
    if added != [] {
      var more := AddLabel(labels, added[0].name);
      var k := FindLabel(labels, added[0].name);
      AddedLabelsLive(more, added[1..], name);
      assert LiveLabel(more, name) <==> LiveLabel(labels, name) || added[0].name == name by {
        if LiveLabel(labels, name) {
          var j :| 0 <= j < |labels| && labels[j] == Label(name, false);
          assert more[if k < |labels| then j else j + 1] == Label(name, false);
        }
        assert more[if k < |labels| then k else 0] == Label(added[0].name, false);
      }
      if exists j :: 0 <= j < |added| && added[j].name == name {
        var j :| 0 <= j < |added| && added[j].name == name;
        if j > 0 {
          assert added[1..][j - 1].name == name;
        }
      }
    }
  }

  // ---------------------------------------------------------------- properties

  function FindProp(props: seq<Property>, name: Bytes): (k: nat)
    ensures k <= |props|
    ensures k < |props| ==> props[k].name == name
    ensures forall j :: 0 <= j < k ==> props[j].name != name
  {
    if props == [] || props[0].name == name then 0 else 1 + FindProp(props[1..], name)
  }

  function DeleteProperty(p: Property): Property {
    p.(deleted := true, labels := DeleteLabels(p.labels))
  }

  /** One property of the new side. */
  function MergeProp(props: seq<Property>, p: Property): seq<Property> {
    var k := FindProp(props, p.name);
    if p.deleted then if k < |props| then props[k := DeleteProperty(props[k])] else props
    else if k < |props| then props[k := Property(p.name, p.val, AddLabels(props[k].labels, p.labels), false)]
    else props + [p]
  }

  function MergeProps(props: seq<Property>, added: seq<Property>): seq<Property>
    decreases added
  {
    if added == [] then props else MergeProps(MergeProp(props, added[0]), added[1..])
  }

  // ---------------------------------------------------------------- nodes

  function FindChild(children: seq<Node>, name: Bytes): (k: nat)
    ensures k <= |children|
    ensures k < |children| ==> children[k].name == name
    ensures forall j :: 0 <= j < k ==> children[j].name != name
  {
    if children == [] || children[0].name == name then 0 else 1 + FindChild(children[1..], name)
  }

  /** delete_node: the node and everything live below it. */
  function DeleteNode(n: Node): (r: Node)
    ensures r.name == n.name && r.deleted
    decreases n, 1
  {
    Node(n.name, DeleteProps(n.props), DeleteChildren(n.children), DeleteLabels(n.labels), true)
  }

  function DeleteProps(props: seq<Property>): (r: seq<Property>)
    ensures |r| == |props|
    ensures forall k :: 0 <= k < |props| ==> r[k].name == props[k].name && r[k].deleted
  {
    if props == [] then []
    else [if props[0].deleted then props[0] else DeleteProperty(props[0])] + DeleteProps(props[1..])
  }

  function DeleteChildren(children: seq<Node>): (r: seq<Node>)
    ensures |r| == |children|
    ensures forall k :: 0 <= k < |children| ==> r[k].name == children[k].name && r[k].deleted
    decreases children, 0
  {
    if children == [] then []
    else [if children[0].deleted then children[0] else DeleteNode(children[0])] + DeleteChildren(children[1..])
  }

  function MergeNodes(old_: Node, new_: Node): (r: Node)
    ensures r.name == old_.name && !r.deleted
    decreases new_, 1
  {
    Node(old_.name, MergeProps(old_.props, new_.props), MergeChildren(old_.children, new_.children),
         AddLabels(old_.labels, new_.labels), false)
  }

  function MergeChildren(children: seq<Node>, added: seq<Node>): seq<Node>
    decreases added, 0
  {
    if added == [] then children
    else MergeChildren(MergeChild(children, added[0]), added[1..])
  }

  /** One child of the new side. */
  function MergeChild(children: seq<Node>, c: Node): seq<Node>
    decreases c, 2
  {
    var k := FindChild(children, c.name);
    if c.deleted then if k < |children| then children[k := DeleteNode(children[k])] else children
    else if k < |children| then children[k := MergeNodes(children[k], c)]
    else children + [c]
  }

  // ---------------------------------------------------------------- live contents

  /** The entry for a name, deleted or not. */
  function PropEntry(props: seq<Property>, name: Bytes): Option<Property> {
    var k := FindProp(props, name);
    if k < |props| then Some(props[k]) else None
  }

  function ChildEntry(children: seq<Node>, name: Bytes): (r: Option<Node>)
    ensures r.Some? ==> r.value in children && r.value.name == name
  {
    var k := FindChild(children, name);
    if k < |children| then Some(children[k]) else None
  }

  /** The value of a property whose entry is live. */
  function PropValue(n: Node, prop: Bytes): Option<Bytes> {
    var e := PropEntry(n.props, prop);
    if e.Some? && !e.value.deleted then Some(e.value.val) else None
  }

  /** The child of a name whose entry is live. */
  function LiveChild(n: Node, name: Bytes): (r: Option<Node>)
    ensures r.Some? ==> r.value in n.children && !r.value.deleted
  {
    var e := ChildEntry(n.children, name);
    if e.Some? && !e.value.deleted then e else None
  }

  /** What a tree says about a property of the node at a path: whether the node is there, and the
      property's value if it has one. */
  datatype Said = NoNode | NoProp | Value(val: Bytes)

  function Lookup(n: Node, path: seq<Bytes>, prop: Bytes): Said {
    if path == [] then
      var v := PropValue(n, prop);
      if v.Some? then Value(v.value) else NoProp
    else
      var c := LiveChild(n, path[0]);
      if c.None? then NoNode else Lookup(c.value, path[1..], prop)
  }

  /** The override read off both sides: a property the new side mentions is what it says there, a
      child it deletes is gone, a child only one side has is that side's, a child both have is
      overridden in turn. */
  function Override(old_: Node, new_: Node, path: seq<Bytes>, prop: Bytes): Said {
    if path == [] then
      var e := PropEntry(new_.props, prop);
      if e.None? then Lookup(old_, path, prop)
      else if e.value.deleted then NoProp else Value(e.value.val)
    else
      var e := ChildEntry(new_.children, path[0]);
      if e.None? then Lookup(old_, path, prop)
      else if e.value.deleted then NoNode
      else
        var c := LiveChild(old_, path[0]);
        if c.None? then Lookup(e.value, path[1..], prop) else Override(c.value, e.value, path[1..], prop)
  }

  // ---------------------------------------------------------------- well-formed trees

  /** Sibling names are distinct, counting deleted ones. */
  predicate DistinctNames(n: Node)
    decreases n, 1
  {
    DistinctProps(n.props) && DistinctChildren(n.children)
  }

  predicate DistinctProps(props: seq<Property>) {
    forall i, j :: 0 <= i < j < |props| ==> props[i].name != props[j].name
  }

  predicate DistinctChildren(children: seq<Node>)
    decreases children, 0
  {
    && (forall i, j :: 0 <= i < j < |children| ==> children[i].name != children[j].name)
    && forall k :: 0 <= k < |children| ==> DistinctNames(children[k])
  }

  /** A deleted node has nothing live below it. */
  predicate Clean(n: Node)
    decreases n, 1
  {
    && (n.deleted ==> Barren(n))
    && forall k :: 0 <= k < |n.children| ==> Clean(n.children[k])
  }

  predicate Barren(n: Node) {
    && (forall k :: 0 <= k < |n.props| ==> n.props[k].deleted)
    && (forall k :: 0 <= k < |n.children| ==> n.children[k].deleted)
  }

  // ---------------------------------------------------------------- one entry at a time

  /** The search result is determined by what it promises. */
  lemma FindPropIs(props: seq<Property>, name: Bytes, k: nat)
    requires k <= |props| && (k < |props| ==> props[k].name == name)
    requires forall j :: 0 <= j < k ==> props[j].name != name
    ensures FindProp(props, name) == k
  {
  }

  lemma FindChildIs(children: seq<Node>, name: Bytes, k: nat)
    requires k <= |children| && (k < |children| ==> children[k].name == name)
    requires forall j :: 0 <= j < k ==> children[j].name != name
    ensures FindChild(children, name) == k
  {
  }

  lemma MergePropEntry(props: seq<Property>, p: Property, name: Bytes)
    ensures var e := PropEntry(MergeProp(props, p), name);
      if p.name != name then e == PropEntry(props, name)
      else if p.deleted then e.Some? ==> e.value.deleted
      else e.Some? && !e.value.deleted && e.value.val == p.val
  {
    var next, k := MergeProp(props, p), FindProp(props, name);
    FindPropIs(next, name, if k < |props| || p.name == name || |next| == |props| then k else k + 1);
  }

  /** Changing or adding the child for a name leaves the entries for other names alone. */
  lemma PutChildEntry(children: seq<Node>, c: Node, name: Bytes)
    ensures var k := FindChild(children, c.name);
      var next := if k < |children| then children[k := c] else children + [c];
      ChildEntry(next, name) == if c.name == name then Some(c) else ChildEntry(children, name)
  {
    var k, i := FindChild(children, c.name), FindChild(children, name);
    var next := if k < |children| then children[k := c] else children + [c];
    FindChildIs(next, name, if i < |children| || c.name == name || |next| == |children| then i else i + 1);
  }

  // ---------------------------------------------------------------- properties of the merge

  lemma {:induction false} MergePropsEntry(props: seq<Property>, added: seq<Property>, name: Bytes)
    requires DistinctProps(added)
    ensures var e := PropEntry(MergeProps(props, added), name);
      var a := PropEntry(added, name);
      if a.None? then e == PropEntry(props, name)
      else if a.value.deleted then e.Some? ==> e.value.deleted
      else e.Some? && !e.value.deleted && e.value.val == a.value.val
    decreases added
  {
    if added != [] {
      var p, rest := added[0], added[1..];
      MergePropEntry(props, p, name);
      MergePropsEntry(MergeProp(props, p), rest, name);
      if p.name == name {
        FindPropIs(rest, name, |rest|);
      }
    }
  }

  /** The entry the merge leaves for a name. */
  function MergedEntry(old_: Option<Node>, new_: Option<Node>): Option<Node> {
    if new_.None? then old_
    else if new_.value.deleted then if old_.None? then None else Some(DeleteNode(old_.value))
    else if old_.None? then new_ else Some(MergeNodes(old_.value, new_.value))
  }

  lemma MergeChildEntry(children: seq<Node>, c: Node, name: Bytes)
    ensures ChildEntry(MergeChild(children, c), name)
         == if c.name == name then MergedEntry(ChildEntry(children, name), Some(c)) else ChildEntry(children, name)
  {
    hide MergeNodes, DeleteNode;
    var k := FindChild(children, c.name);
    if k < |children| {
      PutChildEntry(children, if c.deleted then DeleteNode(children[k]) else MergeNodes(children[k], c), name);
    } else {
      PutChildEntry(children, c, name);
    }
  }

  lemma {:induction false} MergeChildrenEntry(children: seq<Node>, added: seq<Node>, name: Bytes)
    requires forall i, j :: 0 <= i < j < |added| ==> added[i].name != added[j].name
    ensures ChildEntry(MergeChildren(children, added), name)
         == MergedEntry(ChildEntry(children, name), ChildEntry(added, name))
    decreases |added|
  {
    hide MergeNodes, DeleteNode;
    if added != [] {
      var c, rest := added[0], added[1..];
      MergeChildEntry(children, c, name);
      MergeChildrenEntry(MergeChild(children, c), rest, name);
      if c.name == name {
        FindChildIs(rest, name, |rest|);
      }
    }
  }

  /** Over a node with nothing live, the new side's contents are all there is. */
  lemma {:induction false} OverrideBarren(old_: Node, new_: Node, path: seq<Bytes>, prop: Bytes)
    requires Barren(old_)
    ensures Override(old_, new_, path, prop) == Lookup(new_, path, prop)
  {
  }

  /** merge_nodes is recursive override: for every path and every property, the merged tree says what
      the override of the two trees says. */
  lemma {:induction false} MergeIsOverride(old_: Node, new_: Node, path: seq<Bytes>, prop: Bytes)
    requires DistinctNames(new_) && Clean(old_)
    ensures Lookup(MergeNodes(old_, new_), path, prop) == Override(old_, new_, path, prop)
    decreases path
  {
    if path == [] {
      MergePropsEntry(old_.props, new_.props, prop);
    } else {
      MergeChildrenEntry(old_.children, new_.children, path[0]);
      var o, e := ChildEntry(old_.children, path[0]), ChildEntry(new_.children, path[0]);
      if o.Some? && e.Some? && !e.value.deleted {
        ChildOf(old_.children, path[0]);
        ChildOf(new_.children, path[0]);
        MergeIsOverride(o.value, e.value, path[1..], prop);
        if o.value.deleted {
          OverrideBarren(o.value, e.value, path[1..], prop);
        }
      }
    }
  }

  lemma ChildOf(children: seq<Node>, name: Bytes)
    requires ChildEntry(children, name).Some?
    ensures var k := FindChild(children, name); k < |children| && children[k] == ChildEntry(children, name).value
  {
  }

  // ---------------------------------------------------------------- what stays true

  lemma {:induction false} DeletedClean(n: Node)
    requires DistinctNames(n) && Clean(n)
    ensures DistinctNames(DeleteNode(n)) && Clean(DeleteNode(n))
    decreases n
  {
    forall k | 0 <= k < |n.children|
      ensures DistinctNames(DeleteChildren(n.children)[k]) && Clean(DeleteChildren(n.children)[k])
    {
      DeletedChild(n.children, k);
      if !n.children[k].deleted {
        DeletedClean(n.children[k]);
      }
    }
  }

  lemma {:induction false} DeletedChild(children: seq<Node>, k: nat)
    requires k < |children|
    ensures DeleteChildren(children)[k] == if children[k].deleted then children[k] else DeleteNode(children[k])
  {
    if k > 0 {
      DeletedChild(children[1..], k - 1);
    }
  }

  /** Distinct sibling names and cleanly deleted nodes survive a merge. */
  lemma {:induction false} MergeKeepsShape(old_: Node, new_: Node)
    requires DistinctNames(old_) && DistinctNames(new_) && Clean(old_) && Clean(new_)
    ensures DistinctNames(MergeNodes(old_, new_)) && Clean(MergeNodes(old_, new_))
    decreases new_, 1
  {
    MergePropsDistinct(old_.props, new_.props);
    MergeChildrenKeepShape(old_.children, new_.children);
  }

  lemma {:induction false} MergePropsDistinct(props: seq<Property>, added: seq<Property>)
    requires DistinctProps(props)
    ensures DistinctProps(MergeProps(props, added))
    decreases added
  {
    if added != [] {
      MergePropsDistinct(MergeProp(props, added[0]), added[1..]);
    }
  }

  ghost predicate CleanChildren(children: seq<Node>) {
    DistinctChildren(children) && forall k :: 0 <= k < |children| ==> Clean(children[k])
  }

  lemma {:induction false} MergeChildrenKeepShape(children: seq<Node>, added: seq<Node>)
    requires CleanChildren(children) && CleanChildren(added)
    ensures CleanChildren(MergeChildren(children, added))
    decreases added, 0
  {
    if added != [] {
      var c := added[0];
      var k := FindChild(children, c.name);
      if k < |children| {
        if c.deleted {
          DeletedClean(children[k]);
        } else {
          MergeKeepsShape(children[k], c);
        }
      }
      MergeChildrenKeepShape(MergeChild(children, c), added[1..]);
    }
  }

  // ---------------------------------------------------------------- reading a tree

  /** get_property: the first live one of that name. */
  function GetProperty(props: seq<Property>, name: Bytes): Option<Property> {
    if props == [] then None
    else if !props[0].deleted && props[0].name == name then Some(props[0])
    else GetProperty(props[1..], name)
  }

  /** get_subnode: the first live one of that name. */
  function GetSubnode(children: seq<Node>, name: Bytes): (r: Option<Node>)
    ensures r.Some? ==> r.value in children
  {
    if children == [] then None
    else if !children[0].deleted && children[0].name == name then Some(children[0])
    else GetSubnode(children[1..], name)
  }

  /** What following a path of live children and asking for a live property gives. */
  function Read(n: Node, path: seq<Bytes>, prop: Bytes): Said {
    if path == [] then
      var p := GetProperty(n.props, prop);
      if p.Some? then Value(p.value.val) else NoProp
    else
      var c := GetSubnode(n.children, path[0]);
      if c.None? then NoNode else Read(c.value, path[1..], prop)
  }

  lemma {:induction false} GetPropertyIs(props: seq<Property>, name: Bytes)
    requires DistinctProps(props)
    ensures var e := PropEntry(props, name);
      GetProperty(props, name) == if e.Some? && !e.value.deleted then e else None
  {
    if props != [] {
      GetPropertyIs(props[1..], name);
      var k := FindProp(props[1..], name);
      if props[0].name == name {
        FindPropIs(props, name, 0);
        FindPropIs(props[1..], name, |props| - 1);
      } else {
        FindPropIs(props, name, k + 1);
      }
    }
  }

  lemma {:induction false} GetSubnodeIs(children: seq<Node>, name: Bytes)
    requires forall i, j :: 0 <= i < j < |children| ==> children[i].name != children[j].name
    ensures var e := ChildEntry(children, name);
      GetSubnode(children, name) == if e.Some? && !e.value.deleted then e else None
  {
    if children != [] {
      GetSubnodeIs(children[1..], name);
      var k := FindChild(children[1..], name);
      if children[0].name == name {
        FindChildIs(children, name, 0);
        FindChildIs(children[1..], name, |children| - 1);
      } else {
        FindChildIs(children, name, k + 1);
      }
    }
  }

  /** Where the names of siblings are distinct, reading is looking at the first entries. */
  lemma {:induction false} ReadIsLookup(n: Node, path: seq<Bytes>, prop: Bytes)
    requires DistinctNames(n)
    ensures Read(n, path, prop) == Lookup(n, path, prop)
    decreases path
  {
    if path == [] {
      GetPropertyIs(n.props, prop);
    } else {
      GetSubnodeIs(n.children, path[0]);
      var c := GetSubnode(n.children, path[0]);
      if c.Some? {
        ReadIsLookup(c.value, path[1..], prop);
      }
    }
  }

  /** What can be read from a merged tree is the override of the two trees. */
  lemma MergedReads(old_: Node, new_: Node, path: seq<Bytes>, prop: Bytes)
    requires DistinctNames(old_) && DistinctNames(new_) && Clean(old_) && Clean(new_)
    ensures Read(MergeNodes(old_, new_), path, prop) == Override(old_, new_, path, prop)
    ensures Read(old_, path, prop) == Lookup(old_, path, prop)
  {
    MergeKeepsShape(old_, new_);
    ReadIsLookup(MergeNodes(old_, new_), path, prop);
    ReadIsLookup(old_, path, prop);
    MergeIsOverride(old_, new_, path, prop);
  }

  /** With two properties of one name it would not be: deleting the name brings out the second. */
  lemma TwinComesOut(name: Bytes, x: Bytes, y: Bytes)
    ensures
      var old_ := Node([], [Property(name, x, [], false), Property(name, y, [], false)], [], [], false);
      var new_ := Node([], [Property(name, [], [], true)], [], [], false);
      && Read(old_, [], name) == Value(x)
      && Override(old_, new_, [], name) == NoProp && Read(MergeNodes(old_, new_), [], name) == Value(y)
  {
    var a, b, d := Property(name, x, [], false), Property(name, y, [], false), Property(name, [], [], true);
    FindPropIs([a, b], name, 0);
    FindPropIs([d], name, 0);
    assert MergeProps([a, b], [d]) == MergeProp([a, b], d) by { assert [d][1..] == []; }
    var merged := MergeProp([a, b], d);
    assert |merged| == 2 && merged[0].deleted && merged[1] == b;
    assert merged[1..] == [b];
    assert GetProperty([b], name) == Some(b);
    assert GetProperty(merged, name) == Some(b);
    assert MergeNodes(Node([], [a, b], [], [], false), Node([], [d], [], [], false)).props == merged;
  }
}
