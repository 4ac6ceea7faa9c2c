/** The forest builder for elements behind an interface (microsvc/parameters/treedata.go):
    it hands out the pushed elements themselves and sets their children in place. */
module TreePointers {
  import opened TreeBuilder

  class TreeData {
    const key: string
    const title: string
    var children: seq<Tree>

    constructor (key: string, title: string)
      ensures this.key == key && this.title == title && children == []
    {
      this.key, this.title, children := key, title, [];
    }

    function View(): Tree
      reads this
    {
      Tree(key, title, children)
    }

    /** Copies the elements as they are now. */
    method SetChildren(nodes: seq<TreeData>)
      modifies this
      ensures children == old(Views(nodes))
    {
      var copies: seq<Tree> := [];
      for i := 0 to |nodes|
        invariant copies == Views(nodes[..i]) && children == old(children)
      {
        assert nodes[..i + 1][..i] == nodes[..i];
        copies := copies + [nodes[i].View()];
      }
      assert nodes[..|nodes|] == nodes;
      children := copies;
    }
  }

  function Views(nodes: seq<TreeData>): (views: seq<Tree>)
    reads nodes
    ensures |views| == |nodes| && forall i :: 0 <= i < |nodes| ==> views[i] == nodes[i].View()
  {
    if nodes == [] then [] else Views(nodes[..|nodes| - 1]) + [nodes[|nodes| - 1].View()]
  }

  /** What was pushed, with the elements as they were at first. */
  ghost function Pushes(data: map<string, seq<TreeData>>, first: map<TreeData, Tree>): Data
    requires forall k, i :: k in data && 0 <= i < |data[k]| ==> data[k][i] in first
  {
    map k | k in data :: seq(|data[k]|, i requires 0 <= i < |data[k]| => first[data[k][i]])
  }

  /** Pushing an element is pushing its value. */
  lemma PushIsPushed(data: map<string, seq<TreeData>>, first: map<TreeData, Tree>, element: TreeData, k: string)
    requires forall k, i :: k in data && 0 <= i < |data[k]| ==> data[k][i] in first
    requires element in first
    ensures var after := data[k := (if k in data then data[k] else []) + [element]];
            && (forall k, i :: k in after && 0 <= i < |after[k]| ==> after[k][i] in first)
            && Pushes(after, first) == Pushed(Pushes(data, first), first[element], k)
  {
    var after := data[k := (if k in data then data[k] else []) + [element]];
    var was := Pushes(data, first);
    assert Pushes(after, first)[k] == Children(was, k) + [first[element]];
  }

  /** The element with all that is below its key. */
  ghost function Final(base: Data, t: Tree): Tree {
    var sub := Build(base, t.key, |base|);
    if sub.Some? then Assembled(t, sub.value) else t
  }

  lemma {:induction false} MoreFuel(base: Data, key: string, fuel: nat, more: nat)
    requires Build(base, key, fuel).Some? && fuel <= more
    ensures Build(base, key, more) == Build(base, key, fuel)
    decreases fuel, 0
  {
    if key in base {
      MoreFuelAll(base, base[key], fuel - 1, more - 1);
    }
  }

  lemma {:induction false} MoreFuelAll(base: Data, nodes: seq<Tree>, fuel: nat, more: nat)
    requires BuildAll(base, nodes, fuel).Some? && fuel <= more
    ensures BuildAll(base, nodes, more) == BuildAll(base, nodes, fuel)
    decreases fuel, 1 + |nodes|
  {
    if nodes != [] {
      MoreFuelAll(base, nodes[..|nodes| - 1], fuel, more);
      MoreFuel(base, nodes[|nodes| - 1].key, fuel, more);
    }
  }

  /** A built forest holds each child of the key in its final form. */
  lemma {:induction false} BuildAllIsFinal(base: Data, nodes: seq<Tree>, fuel: nat)
    requires BuildAll(base, nodes, fuel).Some? && fuel <= |base|
    ensures |BuildAll(base, nodes, fuel).value| == |nodes|
    ensures forall i :: 0 <= i < |nodes| ==> Build(base, nodes[i].key, fuel).Some?
    ensures forall i :: 0 <= i < |nodes| ==> BuildAll(base, nodes, fuel).value[i] == Final(base, nodes[i])
  {
    if nodes != [] {
      BuildAllIsFinal(base, nodes[..|nodes| - 1], fuel);
      MoreFuel(base, nodes[|nodes| - 1].key, fuel, |base|);
    }
  }

  class TreeDataBuilder {
    var data: map<string, seq<TreeData>>

    constructor ()
      ensures data == map[]
    {
      data := map[];
    }

    /** `base` is what was pushed, with the elements as they were at first. */
    ghost predicate Holds(first: map<TreeData, Tree>, base: Data)
      reads this
    {
      && (forall k, i :: k in data && 0 <= i < |data[k]| ==> data[k][i] in first)
      && base == Pushes(data, first)
      && forall n :: n in first ==> n.key == first[n].key && n.title == first[n].title
    }

    method Push(element: TreeData, parentKey: string)
      modifies this
      ensures data == old(data)[parentKey := (if parentKey in old(data) then old(data)[parentKey] else []) + [element]]
    {
      if parentKey in data {
        data := data[parentKey := data[parentKey] + [element]];
      } else {
        data := data[parentKey := [element]];
        assert [element] == [] + [element];
      }
    }

    /** Returns the elements pushed under the key, in order, changed in place to what the
        recursion on values builds; other elements stay or become final. */
    method GetTreeData(parentKey: string, ghost first: map<TreeData, Tree>, ghost base: Data, ghost fuel: nat)
      returns (treeData: seq<TreeData>)
      requires Holds(first, base) && Settled(first, base) && fuel <= |base|
      requires Build(base, parentKey, fuel).Some?
      modifies first.Keys
      ensures Settled(first, base) && StayOrSettle(first, base)
      ensures treeData == if parentKey in data then data[parentKey] else []
      ensures Views(treeData) == Build(base, parentKey, fuel).value
      decreases fuel, 0
    {
      treeData := [];
      if parentKey in data {
        var children := data[parentKey];
        ChildrenBuild(first, base, parentKey, fuel);
        var i := 0;
        while i < |children|
          invariant 0 <= i <= |children| && treeData == children[..i]
          invariant Settled(first, base) && StayOrSettle(first, base)
          invariant forall j :: 0 <= j < i ==> children[j].View() == Final(base, first[children[j]])
        {
          var child := children[i];
          Attach(child, first, base, fuel - 1);
          treeData := treeData + [child];
          i := i + 1;
        }
        assert children[..i] == children;
        FinalIsBuilt(first, base, parentKey, fuel);
      }
    }

    /** Children that are all final look like what the recursion on values builds. */
    lemma FinalIsBuilt(first: map<TreeData, Tree>, base: Data, k: string, fuel: nat)
      requires Holds(first, base) && k in data && 0 < fuel <= |base| && Build(base, k, fuel).Some?
      requires forall i :: 0 <= i < |data[k]| ==> data[k][i].View() == Final(base, first[data[k][i]])
      ensures Views(data[k]) == Build(base, k, fuel).value
    {
      ChildrenOf(first, base, k);
      BuildAllIsFinal(base, base[k], fuel - 1);
    }

    /** Where a key builds, each of its children is known, and its own key builds. */
    lemma ChildrenBuild(first: map<TreeData, Tree>, base: Data, k: string, fuel: nat)
      requires Holds(first, base) && k in data && fuel <= |base| && Build(base, k, fuel).Some?
      ensures fuel > 0
      ensures forall n :: n in data[k] ==> n in first && n.key == first[n].key && Build(base, n.key, fuel - 1).Some?
    {
      ChildrenOf(first, base, k);
      BuildAllIsFinal(base, base[k], fuel - 1);
    }

    lemma ChildrenOf(first: map<TreeData, Tree>, base: Data, k: string)
      requires Holds(first, base) && k in data
      ensures k in base && |base[k]| == |data[k]|
      ensures forall i :: 0 <= i < |data[k]| ==> data[k][i] in first && base[k][i] == first[data[k][i]]
    {
    }

    /** One round of the loop. */
    method Attach(child: TreeData, ghost first: map<TreeData, Tree>, ghost base: Data, ghost fuel: nat)
      requires Holds(first, base) && Settled(first, base) && fuel <= |base|
      requires child in first && Build(base, child.key, fuel).Some?
      modifies first.Keys
      ensures Settled(first, base) && StayOrSettle(first, base)
      ensures child.View() == Final(base, first[child])
      decreases fuel, 1
    {
      ghost var sub := Build(base, child.key, fuel).value;
      var childTreeData := GetTreeData(child.key, first, base, fuel);
      assert Final(base, first[child]) == Assembled(first[child], sub) by {
        MoreFuel(base, child.key, fuel, |base|);
      }
      if |childTreeData| > 0 {
        child.SetChildren(childTreeData);
      }
    }
  }

  /** Every element is as it was at first, or final. */
  ghost predicate Settled(first: map<TreeData, Tree>, base: Data)
    reads first.Keys
  {
    forall n :: n in first ==> n.View() == first[n] || n.View() == Final(base, first[n])
  }

  twostate predicate StayOrSettle(first: map<TreeData, Tree>, base: Data)
    reads first.Keys
  {
    forall n :: n in first ==> n.View() == old(n.View()) || n.View() == Final(base, first[n])
  }
}
