/** What merging two trees does to the order of entries and to labels. */
module FdtMergeOrder {
  import opened Options
  import opened FdtTree
  import opened FdtMerge

  // ---------------------------------------------------------------- order

  function PropNames(props: seq<Property>): seq<Bytes> {
    seq(|props|, k requires 0 <= k < |props| => props[k].name)
  }

  function ChildNames(children: seq<Node>): seq<Bytes> {
    seq(|children|, k requires 0 <= k < |children| => children[k].name)
  }

  /** The live properties of the new side whose names the old side does not have, in order. */
  function NewProps(have: seq<Bytes>, added: seq<Property>): seq<Bytes> {
    if added == [] then []
    else (if added[0].deleted || added[0].name in have then [] else [added[0].name]) + NewProps(have, added[1..])
  }

  function NewChildren(have: seq<Bytes>, added: seq<Node>): seq<Bytes> {
    if added == [] then []
    else (if added[0].deleted || added[0].name in have then [] else [added[0].name]) + NewChildren(have, added[1..])
  }

  lemma PropKnown(props: seq<Property>, name: Bytes)
    ensures FindProp(props, name) < |props| <==> name in PropNames(props)
  {
    var k := FindProp(props, name);
    if k < |props| { assert PropNames(props)[k] == name; }
    if name in PropNames(props) {
      var j :| 0 <= j < |props| && PropNames(props)[j] == name;
    }
  }

  lemma ChildKnown(children: seq<Node>, name: Bytes)
    ensures FindChild(children, name) < |children| <==> name in ChildNames(children)
  {
    var k := FindChild(children, name);
    if k < |children| { assert ChildNames(children)[k] == name; }
    if name in ChildNames(children) {
      var j :| 0 <= j < |children| && ChildNames(children)[j] == name;
    }
  }

  lemma OnePropName(props: seq<Property>, p: Property)
    ensures PropNames(MergeProp(props, p))
         == PropNames(props) + (if p.deleted || p.name in PropNames(props) then [] else [p.name])
  {
    PropKnown(props, p.name);
  }

  lemma OneChildName(children: seq<Node>, c: Node)
    ensures ChildNames(MergeChild(children, c))
         == ChildNames(children) + (if c.deleted || c.name in ChildNames(children) then [] else [c.name])
  {
    hide MergeNodes, DeleteNode;
    ChildKnown(children, c.name);
  }

  /** A name that does not occur again makes no difference to what is new. */
  lemma {:induction false} StillNewProps(have: seq<Bytes>, name: Bytes, added: seq<Property>)
    requires forall k :: 0 <= k < |added| ==> added[k].name != name
    ensures NewProps(have + [name], added) == NewProps(have, added)
  {
    if added != [] {
      assert added[0].name in have + [name] <==> added[0].name in have;
      StillNewProps(have, name, added[1..]);
    }
  }

  lemma {:induction false} StillNewChildren(have: seq<Bytes>, name: Bytes, added: seq<Node>)
    requires forall k :: 0 <= k < |added| ==> added[k].name != name
    ensures NewChildren(have + [name], added) == NewChildren(have, added)
  {
    if added != [] {
      assert added[0].name in have + [name] <==> added[0].name in have;
      StillNewChildren(have, name, added[1..]);
    }
  }

  lemma Parts(a: seq<Bytes>, b: seq<Bytes>, c: seq<Bytes>)
    ensures (a + b) + c == a + (b + c) && a + [] == a && [] + c == c
  {
  }

  /** Properties keep their places, and new ones come behind them in the order of the new side. */
  lemma {:induction false} PropOrder(props: seq<Property>, added: seq<Property>)
    requires DistinctProps(added)
    ensures PropNames(MergeProps(props, added)) == PropNames(props) + NewProps(PropNames(props), added)
    decreases |added|
  {
    if added != [] {
      hide MergeProp, PropNames;
      var p, rest := added[0], added[1..];
      var have := PropNames(props);
      OnePropName(props, p);
      PropOrder(MergeProp(props, p), rest);
      if !p.deleted && p.name !in have {
        StillNewProps(have, p.name, rest);
        hide NewProps, MergeProps;
        Parts(have, [p.name], NewProps(have, rest));
      } else {
        Parts(have, [], NewProps(have, rest));
      }
    }
  }

  /** And so do the children. */
  lemma {:induction false} ChildOrder(children: seq<Node>, added: seq<Node>)
    requires forall i, j :: 0 <= i < j < |added| ==> added[i].name != added[j].name
    ensures ChildNames(MergeChildren(children, added)) == ChildNames(children) + NewChildren(ChildNames(children), added)
    decreases |added|
  {
    if added != [] {
      hide MergeChild, ChildNames;
      var c, rest := added[0], added[1..];
      var have := ChildNames(children);
      OneChildName(children, c);
      ChildOrder(MergeChild(children, c), rest);
      if !c.deleted && c.name !in have {
        StillNewChildren(have, c.name, rest);
        hide NewChildren, MergeChildren;
        Parts(have, [c.name], NewChildren(have, rest));
      } else {
        Parts(have, [], NewChildren(have, rest));
      }
    }
  }

  // ---------------------------------------------------------------- labels

  ghost predicate Labelled(labels: seq<Label>, name: Bytes) {
    exists k :: 0 <= k < |labels| && labels[k].name == name
  }

  ghost predicate NoneLive(labels: seq<Label>) {
    forall l :: !LiveLabel(labels, l)
  }

  /** Live are the labels that were, and all labels that are added, deleted or not. */
  ghost predicate LiveTogether(labels: seq<Label>, was: seq<Label>, added: seq<Label>) {
    forall l :: LiveLabel(labels, l) <==> LiveLabel(was, l) || Labelled(added, l)
  }

  lemma DeletedLabels(labels: seq<Label>, name: Bytes)
    ensures !LiveLabel(DeleteLabels(labels), name)
  {
  }

  lemma OnePropLabels(props: seq<Property>, p: Property, name: Bytes)
    ensures var e, was := PropEntry(MergeProp(props, p), name), PropEntry(props, name);
      if p.name != name then e == was
      else if p.deleted then e.Some? ==> NoneLive(e.value.labels)
      else if was.None? then e == Some(p)
      else e.Some? && LiveTogether(e.value.labels, was.value.labels, p.labels)
  {
    hide AddLabels, DeleteLabels, LiveLabel, Labelled;
    var next, k := MergeProp(props, p), FindProp(props, name);
    FindPropIs(next, name, if k < |props| || p.name == name || |next| == |props| then k else k + 1);
    if p.name == name && k < |props| {
      LabelsTogether(props[k].labels, p.labels);
      LabelsGone(props[k].labels);
    }
    hide NoneLive, LiveTogether;
  }

  lemma LabelsTogether(labels: seq<Label>, added: seq<Label>)
    ensures LiveTogether(AddLabels(labels, added), labels, added)
  {
    hide AddLabels, LiveLabel, Labelled;
    forall l
      ensures LiveLabel(AddLabels(labels, added), l) <==> LiveLabel(labels, l) || Labelled(added, l)
    {
      PropLabelsAdded(labels, added, l);
    }
  }

  lemma LabelsGone(labels: seq<Label>)
    ensures NoneLive(DeleteLabels(labels))
  {
    forall l
      ensures !LiveLabel(DeleteLabels(labels), l)
    {
      DeletedLabels(labels, l);
    }
  }

  lemma PropLabelsAdded(labels: seq<Label>, added: seq<Label>, name: Bytes)
    ensures LiveLabel(AddLabels(labels, added), name) <==> LiveLabel(labels, name) || Labelled(added, name)
  {
    AddedLabelsLive(labels, added, name);
  }

  /** A property that both sides have keeps its live labels and gets those of the new side; one that is
      deleted has no live label left; any other is as it was on its side. */
  lemma {:induction false} PropLabels(props: seq<Property>, added: seq<Property>, name: Bytes)
    requires DistinctProps(added)
    ensures var e, was, a := PropEntry(MergeProps(props, added), name), PropEntry(props, name), PropEntry(added, name);
      if a.None? then e == was
      else if a.value.deleted then e.Some? ==> NoneLive(e.value.labels)
      else if was.None? then e == a
      else e.Some? && LiveTogether(e.value.labels, was.value.labels, a.value.labels)
    decreases |added|
  {
    hide MergeProp, NoneLive, LiveTogether;
    if added != [] {
      var p, rest := added[0], added[1..];
      OnePropLabels(props, p, name);
      PropLabels(MergeProp(props, p), rest, name);
      if p.name == name {
        FindPropIs(rest, name, |rest|);
      }
    }
  }

  /** The same for the labels of a node; a node that is deleted has none left. */
  lemma NodeLabels(old_: Node, new_: Node)
    ensures LiveTogether(MergeNodes(old_, new_).labels, old_.labels, new_.labels)
    ensures NoneLive(DeleteNode(old_).labels)
  {
    LabelsTogether(old_.labels, new_.labels);
    LabelsGone(old_.labels);
  }
}
