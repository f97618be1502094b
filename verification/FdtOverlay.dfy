/** Overlaying one live tree on another in place: nodes are objects, and those of
    the overlay end up in the tree that it is laid on. */
module FdtOverlay {
  import opened FdtTree
  import FdtMerge

  class LiveNode {

    var name: Bytes
    var props: seq<Property>
    var children: seq<LiveNode>
    var labels: seq<Label>
    var deleted: bool

    ghost var Repr: set<object>

    ghost predicate Valid()
      reads this, Repr
      decreases Repr
    {
      && this in Repr
      && (forall i :: 0 <= i < |children| ==>
        children[i] in Repr && children[i].Repr <= Repr - {this} && children[i].Valid())
      && (forall i, j :: 0 <= i < j < |children| ==> children[i].Repr !! children[j].Repr)
    }

    /** The tree from this node down. */
    ghost function Tree(): Node
      requires Valid()
      reads this, Repr
      decreases Repr, 0
    {
      Node(name, props, Kids(), labels, deleted)
    }

    ghost function Kids(): (r: seq<Node>)
      requires Valid()
      reads this, Repr
      ensures |r| == |children|
      decreases Repr, -1
    {
      Trees(children, Repr - {this})
    }

    constructor (name: Bytes)
      ensures Valid() && fresh(Repr) && Tree() == Node(name, [], [], [], false)
    {
      this.name, props, children, labels, deleted := name, [], [], [], false;
      Repr := {this};
    }

    lemma SelfIn()
      requires Valid()
      ensures this in Repr
    {
    }

    lemma ChildWithin(i: nat)
      requires Valid() && i < |children|
      ensures children[i].Repr <= Repr - {this}
    {
    }

    /** The place of the child of that name, or the number of children. */
    method FindChild(wanted: Bytes) returns (k: nat)
      requires Valid()
      ensures k == FdtMerge.FindChild(Tree().children, wanted)
    {
      k := 0;
      ghost var ts := Tree().children;
      while k < |children| && children[k].name != wanted
        invariant k <= |children| && forall j :: 0 <= j < k ==> ts[j].name != wanted
      {
        k := k + 1;
      }
    }

    /** Marks the node and what is live below it as deleted. */
    method DeleteNode()
      requires Valid()
      modifies Repr
      ensures Valid() && Repr == old(Repr)
      ensures Tree() == FdtMerge.DeleteNode(old(Tree()))
      decreases Repr, 2
    {
      assert this in Repr;
      hide Valid, Trees, Kids;
      SetDeleted(true);
      DeleteChildren();
      DeleteProps();
      var ls := DeletedLabels(labels);
      SetLabels(ls);
    }

    method SetDeleted(d: bool)
      requires Valid()
      modifies this`deleted
      ensures Valid() && Tree() == old(Tree()).(deleted := d)
    {
      deleted := d;
    }

    method SetLabels(ls: seq<Label>)
      requires Valid()
      modifies this`labels
      ensures Valid() && Tree() == old(Tree()).(labels := ls)
    {
      labels := ls;
    }

    method DeleteChildren()
      requires Valid()
      modifies Repr - {this}
      ensures Valid() && Tree() == old(Tree()).(children := FdtMerge.DeleteChildren(old(Tree()).children))
      decreases Repr, 1
    {
      hide FdtMerge.DeleteNode, FdtMerge.DeleteChildren, Valid, Trees, Kids, DeletedNode;
      ghost var was := Kids();
      for i := 0 to |children|
        invariant Valid() && |was| == |children| && children == old(children) && Repr == old(Repr)
        invariant forall j :: 0 <= j < i ==> Kids()[j] == DeletedNode(was[j])
        invariant forall j :: i <= j < |children| ==> Kids()[j] == was[j]
      {
        ChildWithin(i);
        DeleteChild(i);
      }
      DeletedChildren(was, Kids());
    }

    method DeleteChild(i: nat)
      requires Valid() && i < |children|
      modifies children[i].Repr
      ensures Valid() && Kids() == old(Kids())[i := DeletedNode(old(Kids())[i])]
      decreases Repr, 0
    {
      hide FdtMerge.DeleteNode;
      var c := children[i];
      if !c.deleted {
        c.DeleteNode();
      }
    }

    method DeleteProps()
      requires Valid()
      modifies this`props
      ensures Valid() && Tree() == old(Tree()).(props := FdtMerge.DeleteProps(old(props)))
    {
      hide FdtMerge.DeleteProps, FdtMerge.DeleteProperty, DeletedProp;
      var ps := DeletedAll(props);
      props := ps;
    }

    /** Lays another tree over this one; afterwards its nodes are part of this
        tree, or gone. */
    method MergeNodes(n: LiveNode)
      requires Valid() && n.Valid() && Repr !! n.Repr
      modifies Repr, n.Repr
      ensures Valid() && Repr <= old(Repr) + old(n.Repr)
      ensures Tree() == FdtMerge.MergeNodes(old(Tree()), old(n.Tree()))
      decreases n.Repr, 2
    {
      hide Valid, Trees, Kids, FdtMerge.MergeProps, FdtMerge.MergeChildren, FdtMerge.AddLabels;
      SelfIn();
      n.SelfIn();
      TakeOwn(n);
      TakeChildren(n);
    }

    /** What the node itself takes over, its children aside. */
    method TakeOwn(n: LiveNode)
      requires Valid() && n.Valid() && Repr !! n.Repr
      modifies this`deleted, this`labels, this`props
      ensures Valid() && Tree() == old(Tree()).(deleted := false,
        labels := FdtMerge.AddLabels(old(labels), n.labels), props := FdtMerge.MergeProps(old(props), n.props))
      ensures n.Valid() && n.Tree() == old(n.Tree())
    {
      hide Valid, Trees, Kids, FdtMerge.MergeProps, FdtMerge.MergeChildren, FdtMerge.AddLabels;
      SetDeleted(false);
      var ls := AddedLabels(labels, n.labels);
      SetLabels(ls);
      var ps := MergedProps(props, n.props);
      SetProps(ps);
      SelfIn();
    }

    method SetProps(ps: seq<Property>)
      requires Valid()
      modifies this`props
      ensures Valid() && Tree() == old(Tree()).(props := ps)
    {
      props := ps;
    }

    /** Moves the children of another node here, one after the other. */
    method TakeChildren(n: LiveNode)
      requires Valid() && n.Valid() && Repr !! n.Repr
      modifies Repr, n.Repr
      ensures Valid() && Repr <= old(Repr) + old(n.Repr)
      ensures Tree() == old(Tree()).(children := FdtMerge.MergeChildren(old(Kids()), old(n.Kids())))
      decreases n.Repr, 1
    {
      assert this in Repr && n in n.Repr && |n.Kids()| == |n.children|;
      ghost var t, r, nr := Tree(), Repr, n.Repr;
      hide Valid, Trees, Kids, FdtMerge.MergeChildren, FdtMerge.MergeChild;
      while n.children != []
        invariant Valid() && n.Valid() && Repr !! n.Repr && Repr <= r + nr && n.Repr <= nr && this in Repr && n in n.Repr
        invariant Tree() == t.(children := Kids())
        invariant FdtMerge.MergeChildren(Kids(), n.Kids()) == FdtMerge.MergeChildren(t.children, old(n.Kids()))
        decreases |n.children|
      {
        MergeStep(Kids(), n.Kids());
        TakeNext(n);
      }
      MergeStep(Kids(), n.Kids());
    }

    method TakeNext(n: LiveNode)
      requires Valid() && n.Valid() && Repr !! n.Repr && n.children != []
      modifies Repr, n.Repr
      ensures Valid() && n.Valid() && Repr !! n.Repr && Repr <= old(Repr) + old(n.Repr) && n.Repr <= old(n.Repr)
      ensures this in Repr && n in n.Repr
      ensures Tree() == old(Tree()).(children := FdtMerge.MergeChild(old(Kids()), old(n.Kids())[0]))
      ensures n.Kids() == old(n.Kids())[1..] && n.children == old(n.children)[1..]
      decreases n.Repr, 0
    {
      assert this in Repr && n in n.Repr;
      hide Valid, Trees, Kids, FdtMerge.MergeChild;
      var c := n.PopChild();
      n.SelfIn();
      TakeChild(c);
      SelfIn();
      n.SelfIn();
    }

    method PopChild() returns (c: LiveNode)
      requires Valid() && children != []
      modifies this`children, this`Repr
      ensures Valid() && c.Valid() && c.Repr !! Repr && c.Repr + Repr <= old(Repr) && c.Repr < old(Repr)
      ensures Kids() == old(Kids())[1..] && c.Tree() == old(Kids())[0] && children == old(children)[1..]
    {
      c := children[0];
      children := children[1..];
      Repr := Repr - c.Repr;
    }

    /** Moves one child of another tree here: a deleted one deletes, one with a
        known name is laid over the child of that name, any other is added. */
    method TakeChild(c: LiveNode)
      requires Valid() && c.Valid() && Repr !! c.Repr
      modifies Repr, c.Repr
      ensures Valid() && Repr <= old(Repr) + old(c.Repr)
      ensures Tree() == old(Tree()).(children := FdtMerge.MergeChild(old(Kids()), old(c.Tree())))
      decreases c.Repr, 4
    {
      assert this in Repr && c in c.Repr;
      hide Valid, Trees, Kids, FdtMerge.MergeNodes, FdtMerge.DeleteNode;
      var k := FindChild(c.name);
      if c.deleted {
        if k < |children| {
          DeleteFound(k);
        }
      } else if k < |children| {
        MergeFound(k, c);
      } else {
        AddChild(c);
      }
    }

    method DeleteFound(k: nat)
      requires Valid() && k < |children|
      modifies Repr
      ensures Valid() && Repr == old(Repr)
      ensures Tree() == old(Tree()).(children := old(Kids())[k := FdtMerge.DeleteNode(old(Kids())[k])])
    {
      hide FdtMerge.DeleteNode;
      children[k].DeleteNode();
    }

    method MergeFound(k: nat, c: LiveNode)
      requires Valid() && c.Valid() && Repr !! c.Repr && k < |children|
      modifies Repr, c.Repr
      ensures Valid() && Repr <= old(Repr) + old(c.Repr)
      ensures Tree() == old(Tree()).(children := old(Kids())[k := FdtMerge.MergeNodes(old(Kids())[k], old(c.Tree()))])
      decreases c.Repr, 3
    {
      hide FdtMerge.MergeNodes;
      ghost var more := c.Repr;
      children[k].MergeNodes(c);
      Repr := Repr + more;
    }

    method AddChild(c: LiveNode)
      requires Valid() && c.Valid() && Repr !! c.Repr
      modifies this`children, this`Repr
      ensures Valid() && Repr == old(Repr) + c.Repr
      ensures Tree() == old(Tree()).(children := old(Kids()) + [c.Tree()])
    {
      children := children + [c];
      Repr := Repr + c.Repr;
    }
  }

  lemma MergeStep(cs: seq<Node>, added: seq<Node>)
    ensures FdtMerge.MergeChildren(cs, added) ==
      if added == [] then cs else FdtMerge.MergeChildren(FdtMerge.MergeChild(cs, added[0]), added[1..])
  {
  }

  method AddedLabels(labels: seq<Label>, added: seq<Label>) returns (r: seq<Label>)
    ensures r == FdtMerge.AddLabels(labels, added)
  {
    r := labels;
    for i := 0 to |added|
      invariant FdtMerge.AddLabels(r, added[i..]) == FdtMerge.AddLabels(labels, added)
    {
      assert added[i..][1..] == added[i + 1..];
      r := AddedLabel(r, added[i].name);
    }
  }

  method AddedLabel(labels: seq<Label>, name: Bytes) returns (r: seq<Label>)
    ensures r == FdtMerge.AddLabel(labels, name)
  {
    for k := 0 to |labels|
      invariant forall j :: 0 <= j < k ==> labels[j].name != name
    {
      if labels[k].name == name {
        return labels[k := Label(name, false)];
      }
    }
    return [Label(name, false)] + labels;
  }

  /** Moves properties over one after the other. */
  method MergedProps(props: seq<Property>, added: seq<Property>) returns (r: seq<Property>)
    ensures r == FdtMerge.MergeProps(props, added)
  {
    hide FdtMerge.MergeProp;
    r := props;
    for i := 0 to |added|
      invariant FdtMerge.MergeProps(r, added[i..]) == FdtMerge.MergeProps(props, added)
    {
      assert added[i..][1..] == added[i + 1..];
      r := MergedProp(r, added[i]);
    }
  }

  method MergedProp(props: seq<Property>, p: Property) returns (r: seq<Property>)
    ensures r == FdtMerge.MergeProp(props, p)
  {
    hide FdtMerge.AddLabels, FdtMerge.DeleteProperty;
    for k := 0 to |props|
      invariant forall j :: 0 <= j < k ==> props[j].name != p.name
    {
      if props[k].name == p.name {
        if p.deleted {
          var q := DeletedProperty(props[k]);
          return props[k := q];
        }
        var ls := AddedLabels(props[k].labels, p.labels);
        return props[k := Property(p.name, p.val, ls, false)];
      }
    }
    return if p.deleted then props else props + [p];
  }

  method DeletedProperty(p: Property) returns (r: Property)
    ensures r == FdtMerge.DeleteProperty(p)
  {
    var ls := DeletedLabels(p.labels);
    r := p.(deleted := true, labels := ls);
  }

  method DeletedAll(props: seq<Property>) returns (ps: seq<Property>)
    ensures ps == FdtMerge.DeleteProps(props)
  {
    hide FdtMerge.DeleteProps, FdtMerge.DeleteProperty, DeletedProp;
    ps := props;
    for i := 0 to |ps|
      invariant |ps| == |props|
      invariant forall j :: 0 <= j < i ==> ps[j] == DeletedProp(props[j])
      invariant forall j :: i <= j < |ps| ==> ps[j] == props[j]
    {
      var p := DeleteProperty(ps[i]);
      ps := ps[i := p];
    }
    DeletedProps(props, ps);
  }

  method DeleteProperty(p: Property) returns (r: Property)
    ensures r == DeletedProp(p)
  {
    r := p;
    if !p.deleted {
      r := DeletedProperty(p);
    }
  }

  method DeletedLabels(labels: seq<Label>) returns (r: seq<Label>)
    ensures r == FdtMerge.DeleteLabels(labels)
  {
    r := labels;
    for i := 0 to |r|
      invariant |r| == |labels|
      invariant forall j :: 0 <= j < |r| ==> r[j] == if j < i then Label(labels[j].name, true) else labels[j]
    {
      r := r[i := Label(r[i].name, true)];
    }
  }

  ghost function DeletedNode(n: Node): Node {
    if n.deleted then n else FdtMerge.DeleteNode(n)
  }

  ghost function DeletedProp(p: Property): Property {
    if p.deleted then p else FdtMerge.DeleteProperty(p)
  }

  lemma {:induction false} DeletedChildren(cs: seq<Node>, ds: seq<Node>)
    requires |ds| == |cs| && forall i :: 0 <= i < |cs| ==> ds[i] == DeletedNode(cs[i])
    ensures ds == FdtMerge.DeleteChildren(cs)
  {
    if cs != [] {
      DeletedChildren(cs[1..], ds[1..]);
      assert ds == [ds[0]] + ds[1..];
    }
  }

  lemma {:induction false} DeletedProps(ps: seq<Property>, ds: seq<Property>)
    requires |ds| == |ps| && forall i :: 0 <= i < |ps| ==> ds[i] == DeletedProp(ps[i])
    ensures ds == FdtMerge.DeleteProps(ps)
  {
    if ps != [] {
      DeletedProps(ps[1..], ds[1..]);
      assert ds == [ds[0]] + ds[1..];
    }
  }

  ghost predicate AllValid(cs: seq<LiveNode>, within: set<object>)
    reads within
  {
    && (forall i :: 0 <= i < |cs| ==> cs[i] in within && cs[i].Repr <= within && cs[i].Valid())
    && (forall i, j :: 0 <= i < j < |cs| ==> cs[i].Repr !! cs[j].Repr)
  }

  ghost function Trees(cs: seq<LiveNode>, within: set<object>): (r: seq<Node>)
    requires AllValid(cs, within)
    reads within
    ensures |r| == |cs| && forall i :: 0 <= i < |cs| ==> r[i] == cs[i].Tree()
    decreases within, |cs|
  {
    if cs == [] then [] else [cs[0].Tree()] + Trees(cs[1..], within)
  }
}
