/** The forest builder of microsvc/parameters/treedata.go: elements are pushed under a
    parent key and assembled into trees by following the keys downwards. */
module TreeBuilder {
  import opened Options

  datatype Tree = Tree(key: string, title: string, children: seq<Tree>)

  type Data = map<string, seq<Tree>>

  function Children(data: Data, key: string): seq<Tree> {
    if key in data then data[key] else []
  }

  function Pushed(data: Data, element: Tree, parentKey: string): Data {
    data[parentKey := Children(data, parentKey) + [element]]
  }

  /** The recursion of the source, cut off after `fuel` levels. */
  function Build(data: Data, key: string, fuel: nat): Option<seq<Tree>>
    decreases fuel, 0
  {
    if key !in data then Some([])
    else if fuel == 0 then None
    else BuildAll(data, data[key], fuel - 1)
  }

  function BuildAll(data: Data, nodes: seq<Tree>, fuel: nat): Option<seq<Tree>>
    decreases fuel, 1 + |nodes|
  {
    if nodes == [] then Some([])
    else
      var last := nodes[|nodes| - 1];
      var front, sub := BuildAll(data, nodes[..|nodes| - 1], fuel), Build(data, last.key, fuel);
      if front.None? || sub.None? then None
      else Some(front.value + [Assembled(last, sub.value)])
  }

  /** An element keeps the children it was pushed with unless some were pushed under its key. */
  function Assembled(node: Tree, sub: seq<Tree>): Tree {
    if |sub| > 0 then node.(children := sub) else node
  }

  class BuiltinTreeDataBuilder {
    var data: Data

    constructor ()
      ensures data == map[]
    {
      data := map[];
    }

    method Push(element: Tree, parentKey: string)
      modifies this
      ensures data == Pushed(old(data), element, parentKey)
    {
      if parentKey in data {
        data := data[parentKey := data[parentKey] + [element]];
      } else {
        data := data[parentKey := [element]];
        assert [element] == [] + [element];
      }
    }

    method GetTreeData(parentKey: string, ghost fuel: nat) returns (treeData: seq<Tree>)
      requires Build(data, parentKey, fuel).Some?
      ensures treeData == Build(data, parentKey, fuel).value
      decreases fuel
    {
      treeData := [];
      if parentKey in data {
        var children := data[parentKey];
        var i := 0;
        while i < |children|
          invariant 0 <= i <= |children|
          invariant BuildAll(data, children[..i], fuel - 1) == Some(treeData)
        {
          BuildAllPrefix(data, children, fuel - 1, i + 1);
          assert children[..i + 1][..i] == children[..i];
          var child := children[i];
          var childTreeData := GetTreeData(child.key, fuel - 1);
          if |childTreeData| > 0 {
            child := child.(children := childTreeData);
          }
          treeData := treeData + [child];
          i := i + 1;
        }
        assert children[..i] == children;
      }
    }

    /** The forest below a key from which no cycle of parents can be reached. */
    method GetForest(root: string) returns (forest: seq<Tree>)
      requires !CycleReachable(data, root)
      ensures Placed(data, forest, root)
    {
      AcyclicBuilds(data, root);
      BuildIsPlaced(data, root, |data|);
      forest := GetTreeData(root, |data|);
    }
  }

  lemma {:induction false} BuildAllPrefix(data: Data, nodes: seq<Tree>, fuel: nat, n: nat)
    requires n <= |nodes| && BuildAll(data, nodes, fuel).Some?
    ensures BuildAll(data, nodes[..n], fuel).Some?
    decreases |nodes|
  {
    if n < |nodes| {
      assert nodes[..|nodes| - 1][..n] == nodes[..n];
      BuildAllPrefix(data, nodes[..|nodes| - 1], fuel, n);
    } else {
      assert nodes[..n] == nodes;
    }
  }

  // ---------------------------------------------------------------------------
  // Termination
  // ---------------------------------------------------------------------------

  ghost predicate Edge(data: Data, a: string, b: string) {
    exists i :: 0 <= i < |Children(data, a)| && Children(data, a)[i].key == b
  }

  ghost predicate Walk(data: Data, p: seq<string>) {
    p != [] && forall i :: 0 <= i < |p| - 1 ==> Edge(data, p[i], p[i + 1])
  }

  /** Some walk down from `root` comes back to a key it has passed. */
  ghost predicate CycleReachable(data: Data, root: string) {
    exists p, i, j :: Walk(data, p) && p[0] == root && 0 <= i < j < |p| && p[i] == p[j]
  }

  /** Some walk down from `key` passes more than `n` keys that have children. */
  ghost predicate Deep(data: Data, key: string, n: nat)
    decreases n
  {
    key in data && (n == 0 || exists i :: 0 <= i < |data[key]| && Deep(data, data[key][i].key, n - 1))
  }

  /** The cut-off recursion fails exactly when it is cut off. */
  lemma {:induction false} BuildFailsWhenDeep(data: Data, key: string, fuel: nat)
    ensures Build(data, key, fuel).None? <==> Deep(data, key, fuel)
    decreases fuel, 0
  {
    if key in data && fuel > 0 {
      BuildAllFailsWhenDeep(data, data[key], fuel - 1);
    }
  }

  lemma {:induction false} BuildAllFailsWhenDeep(data: Data, nodes: seq<Tree>, fuel: nat)
    ensures BuildAll(data, nodes, fuel).None? <==> exists i :: 0 <= i < |nodes| && Deep(data, nodes[i].key, fuel)
    decreases fuel, 1 + |nodes|
  {
    if nodes != [] {
      var front := nodes[..|nodes| - 1];
      BuildAllFailsWhenDeep(data, front, fuel);
      BuildFailsWhenDeep(data, nodes[|nodes| - 1].key, fuel);
      assert forall i :: 0 <= i < |front| ==> front[i] == nodes[i];
    }
  }

  /** On a walk that closes a cycle every key has children, to any depth. */
  lemma {:induction false} CycleIsDeep(data: Data, p: seq<string>, i: nat, j: nat, m: nat, n: nat)
    requires Walk(data, p) && i < j < |p| && p[i] == p[j] && m <= j
    ensures Deep(data, p[m], n)
    decreases n
  {
    var k := if m == j then i else m;
    assert Edge(data, p[k], p[k + 1]);
    if n > 0 {
      CycleIsDeep(data, p, i, j, k + 1, n - 1);
    }
  }

  lemma WalkCons(data: Data, a: string, q: seq<string>)
    requires Walk(data, q) && Edge(data, a, q[0])
    ensures Walk(data, [a] + q)
  {
    var p := [a] + q;
    forall k | 0 <= k < |p| - 1 ensures Edge(data, p[k], p[k + 1]) {
      if k > 0 {
        assert Edge(data, q[k - 1], q[k]);
      }
    }
  }

  lemma {:induction false} DeepWalk(data: Data, key: string, n: nat) returns (p: seq<string>)
    requires Deep(data, key, n)
    ensures Walk(data, p) && p[0] == key && |p| == n + 1 && forall i :: 0 <= i < |p| ==> p[i] in data
    decreases n
  {
    if n == 0 {
      p := [key];
    } else {
      var i :| 0 <= i < |data[key]| && Deep(data, data[key][i].key, n - 1);
      var q := DeepWalk(data, data[key][i].key, n - 1);
      p := [key] + q;
      assert Children(data, key)[i].key == q[0];
      WalkCons(data, key, q);
    }
  }

  lemma {:induction false} Pigeonhole(p: seq<string>, s: set<string>)
    requires forall i :: 0 <= i < |p| ==> p[i] in s
    requires forall i, j :: 0 <= i < j < |p| ==> p[i] != p[j]
    ensures |p| <= |s|
  {
    if p != [] {
      Pigeonhole(p[1..], s - {p[0]});
    }
  }

  /** Without a reachable cycle as many levels as there are parent keys suffice. */
  lemma AcyclicBuilds(data: Data, root: string)
    requires !CycleReachable(data, root)
    ensures Build(data, root, |data|).Some?
  {
    assert |data.Keys| == |data|;
    BuildFailsWhenDeep(data, root, |data|);
    if Deep(data, root, |data|) {
      var p := DeepWalk(data, root, |data|);
      forall i, j | 0 <= i < j < |p| ensures p[i] != p[j] {
        if p[i] == p[j] {
          assert CycleReachable(data, root);
        }
      }
      Pigeonhole(p, data.Keys);
    }
  }

  /** The recursion terminates exactly when no cycle of parents is reachable from the root. */
  lemma TerminatesExactlyWithoutCycle(data: Data, root: string)
    ensures (exists fuel :: Build(data, root, fuel).Some?) <==> !CycleReachable(data, root)
  {
    if CycleReachable(data, root) {
      var p, i, j :| Walk(data, p) && p[0] == root && 0 <= i < j < |p| && p[i] == p[j];
      forall fuel ensures Build(data, root, fuel).None? {
        CycleIsDeep(data, p, i, j, 0, fuel);
        BuildFailsWhenDeep(data, root, fuel);
      }
    } else {
      AcyclicBuilds(data, root);
    }
  }

  // ---------------------------------------------------------------------------
  // The shape of the forest
  // ---------------------------------------------------------------------------

  /** The trees are the elements pushed under `key`, in push order, and below each
      element stand, in turn, the elements pushed under its key. */
  ghost predicate Placed(data: Data, forest: seq<Tree>, key: string) {
    && |forest| == |Children(data, key)|
    && forall i :: 0 <= i < |forest| ==>
         && forest[i].key == Children(data, key)[i].key && forest[i].title == Children(data, key)[i].title
         && if Children(data, forest[i].key) == [] then forest[i] == Children(data, key)[i]
            else Placed(data, forest[i].children, forest[i].key)
  }

  lemma {:induction false} BuildIsPlaced(data: Data, key: string, fuel: nat)
    requires Build(data, key, fuel).Some?
    ensures Placed(data, Build(data, key, fuel).value, key)
    decreases fuel, 0
  {
    if key in data {
      BuildAllIsPlaced(data, data[key], fuel - 1);
    }
  }

  lemma {:induction false} BuildAllIsPlaced(data: Data, nodes: seq<Tree>, fuel: nat)
    requires BuildAll(data, nodes, fuel).Some?
    ensures var forest := BuildAll(data, nodes, fuel).value;
            && |forest| == |nodes|
            && forall i :: 0 <= i < |nodes| ==>
                 && Build(data, nodes[i].key, fuel).Some?
                 && forest[i] == Assembled(nodes[i], Build(data, nodes[i].key, fuel).value)
                 && Placed(data, Build(data, nodes[i].key, fuel).value, nodes[i].key)
    decreases fuel, 1 + |nodes|
  {
    if nodes != [] {
      var front := nodes[..|nodes| - 1];
      BuildAllIsPlaced(data, front, fuel);
      BuildIsPlaced(data, nodes[|nodes| - 1].key, fuel);
      assert forall i :: 0 <= i < |front| ==> front[i] == nodes[i];
    }
  }

  /** A push puts the element behind its siblings. */
  lemma PushAppends(data: Data, element: Tree, parentKey: string, key: string)
    ensures Children(Pushed(data, element, parentKey), key)
            == Children(data, key) + if key == parentKey then [element] else []
  {
  }

  // ---------------------------------------------------------------------------
  // Every reachable element exactly once
  // ---------------------------------------------------------------------------

  /** An element and the parent it stands under. */
  datatype Spot = Spot(parent: string, key: string, title: string)

  /** How often a spot is taken in the trees that stand under `parent`. */
  function Count(forest: seq<Tree>, parent: string, x: Spot): nat {
    if forest == [] then 0
    else
      var last := forest[|forest| - 1];
      Count(forest[..|forest| - 1], parent, x)
      + (if Spot(parent, last.key, last.title) == x then 1 else 0)
      + Count(last.children, last.key, x)
  }

  /** Adding a last tree to a forest. */
  lemma CountSnoc(front: seq<Tree>, last: Tree, parent: string, x: Spot)
    ensures Count(front + [last], parent, x)
            == Count(front, parent, x) + (if Spot(parent, last.key, last.title) == x then 1 else 0)
            + Count(last.children, last.key, x)
  {
    assert (front + [last])[..|front|] == front;
  }

  ghost predicate UniqueKeys(data: Data) {
    forall a, b, i, j ::
      (0 <= i < |Children(data, a)| && 0 <= j < |Children(data, b)|
       && Children(data, a)[i].key == Children(data, b)[j].key)
      ==> a == b && i == j
  }

  ghost predicate NoPresetChildren(data: Data) {
    forall a, i :: 0 <= i < |Children(data, a)| ==> Children(data, a)[i].children == []
  }

  predicate IsSpot(data: Data, a: string, i: nat, x: Spot)
    requires i < |Children(data, a)|
  {
    Spot(a, Children(data, a)[i].key, Children(data, a)[i].title) == x
  }

  ghost predicate WasPushed(data: Data, x: Spot) {
    exists i :: 0 <= i < |Children(data, x.parent)| && IsSpot(data, x.parent, i, x)
  }

  ghost predicate Reach(data: Data, a: string, b: string) {
    exists p :: Walk(data, p) && p[0] == a && p[|p| - 1] == b
  }

  lemma ReachSelf(data: Data, a: string)
    ensures Reach(data, a, a)
  {
    assert Walk(data, [a]);
  }

  lemma ReachThroughChild(data: Data, a: string, i: nat, b: string)
    requires i < |Children(data, a)| && Reach(data, Children(data, a)[i].key, b)
    ensures Reach(data, a, b)
  {
    var q :| Walk(data, q) && q[0] == Children(data, a)[i].key && q[|q| - 1] == b;
    WalkCons(data, a, q);
    assert ([a] + q)[|q|] == b;
  }

  lemma ReachNeedsChild(data: Data, a: string, b: string) returns (i: nat)
    requires Reach(data, a, b) && a != b
    ensures i < |Children(data, a)| && Reach(data, Children(data, a)[i].key, b)
  {
    var p :| Walk(data, p) && p[0] == a && p[|p| - 1] == b;
    assert Edge(data, p[0], p[1]);
    i :| 0 <= i < |Children(data, a)| && Children(data, a)[i].key == p[1];
    var q := p[1..];
    forall k | 0 <= k < |q| - 1 ensures Edge(data, q[k], q[k + 1]) {
      assert Edge(data, p[k + 1], p[k + 2]);
    }
    assert Walk(data, q) && q[|q| - 1] == b;
  }

  lemma PushEdge(data: Data, element: Tree, parentKey: string, a: string, b: string)
    ensures Edge(Pushed(data, element, parentKey), a, b) <==> Edge(data, a, b) || (a == parentKey && b == element.key)
  {
    PushAppends(data, element, parentKey, a);
    var before, after := Children(data, a), Children(Pushed(data, element, parentKey), a);
    assert forall i :: 0 <= i < |before| ==> after[i] == before[i];
    if a == parentKey && b == element.key {
      assert after[|before|].key == b;
    }
    if Edge(data, a, b) {
      var i :| 0 <= i < |before| && before[i].key == b;
      assert after[i].key == b;
    }
  }

  /** A walk after the push: either it was one before, or it came to the parent first and went
      on from the element. */
  lemma {:induction false} WalkAfterPush(data: Data, element: Tree, parentKey: string, q: seq<string>)
    requires Walk(Pushed(data, element, parentKey), q)
    ensures Reach(data, q[0], q[|q| - 1]) || (Reach(data, q[0], parentKey) && Reach(data, element.key, q[|q| - 1]))
    decreases |q|
  {
    if |q| == 1 {
      ReachSelf(data, q[0]);
    } else {
      WalkTail(Pushed(data, element, parentKey), q);
      WalkAfterPush(data, element, parentKey, q[1..]);
      PushEdge(data, element, parentKey, q[0], q[1]);
      if Edge(data, q[0], q[1]) {
        var i :| 0 <= i < |Children(data, q[0])| && Children(data, q[0])[i].key == q[1];
        if Reach(data, q[1], q[|q| - 1]) {
          ReachThroughChild(data, q[0], i, q[|q| - 1]);
        } else {
          ReachThroughChild(data, q[0], i, parentKey);
        }
      } else {
        ReachSelf(data, parentKey);
      }
    }
  }

  lemma WalkTail(data: Data, q: seq<string>)
    requires Walk(data, q) && |q| > 1
    ensures Walk(data, q[1..]) && Edge(data, q[0], q[1])
  {
    forall k | 0 <= k < |q[1..]| - 1 ensures Edge(data, q[1..][k], q[1..][k + 1]) {
      assert Edge(data, q[k + 1], q[k + 2]);
    }
  }

  lemma WalkConcat(data: Data, p: seq<string>, q: seq<string>)
    requires Walk(data, p) && Walk(data, q) && Edge(data, p[|p| - 1], q[0])
    ensures Walk(data, p + q)
  {
    forall k | 0 <= k < |p + q| - 1 ensures Edge(data, (p + q)[k], (p + q)[k + 1]) {
      if k < |p| - 1 {
        assert Edge(data, p[k], p[k + 1]);
      } else if k >= |p| {
        assert Edge(data, q[k - |p|], q[k - |p| + 1]);
      }
    }
  }

  lemma ReachStays(data: Data, element: Tree, parentKey: string, a: string, b: string)
    requires Reach(data, a, b)
    ensures Reach(Pushed(data, element, parentKey), a, b)
  {
    var p :| Walk(data, p) && p[0] == a && p[|p| - 1] == b;
    forall i | 0 <= i < |p| - 1 ensures Edge(Pushed(data, element, parentKey), p[i], p[i + 1]) {
      PushEdge(data, element, parentKey, p[i], p[i + 1]);
    }
    assert Walk(Pushed(data, element, parentKey), p);
  }

  /** What a push adds to the forest: it makes reachable exactly what was below the element, and
      only if the parent was reachable. */
  lemma PushReachesExactly(data: Data, element: Tree, parentKey: string, a: string, b: string)
    ensures Reach(Pushed(data, element, parentKey), a, b)
            <==> Reach(data, a, b) || (Reach(data, a, parentKey) && Reach(data, element.key, b))
  {
    var after := Pushed(data, element, parentKey);
    if Reach(after, a, b) {
      var q :| Walk(after, q) && q[0] == a && q[|q| - 1] == b;
      WalkAfterPush(data, element, parentKey, q);
    }
    if Reach(data, a, b) {
      ReachStays(data, element, parentKey, a, b);
    }
    if Reach(data, a, parentKey) && Reach(data, element.key, b) {
      ReachStays(data, element, parentKey, a, parentKey);
      ReachStays(data, element, parentKey, element.key, b);
      var p :| Walk(after, p) && p[0] == a && p[|p| - 1] == parentKey;
      var q :| Walk(after, q) && q[0] == element.key && q[|q| - 1] == b;
      PushEdge(data, element, parentKey, parentKey, element.key);
      WalkConcat(after, p, q);
      assert (p + q)[0] == a && (p + q)[|p + q| - 1] == b;
    }
  }

  /** A child that leads back to its parent closes a cycle. */
  lemma WayBackIsCycle(data: Data, a: string, i: nat)
    requires i < |Children(data, a)| && Reach(data, Children(data, a)[i].key, a)
    ensures CycleReachable(data, a)
  {
    var q :| Walk(data, q) && q[0] == Children(data, a)[i].key && q[|q| - 1] == a;
    WalkCons(data, a, q);
    var p := [a] + q;
    assert Walk(data, p) && p[0] == a && p[0] == p[|q|];
  }

  /** Below an acyclic key nothing leads back to it. */
  lemma NoWayBack(data: Data, a: string, i: nat)
    requires !CycleReachable(data, a) && i < |Children(data, a)|
    ensures !Reach(data, Children(data, a)[i].key, a)
  {
    if Reach(data, Children(data, a)[i].key, a) {
      WayBackIsCycle(data, a, i);
    }
  }

  lemma CycleBelow(data: Data, a: string, i: nat)
    requires i < |Children(data, a)| && CycleReachable(data, Children(data, a)[i].key)
    ensures CycleReachable(data, a)
  {
    var q, j, k :| Walk(data, q) && q[0] == Children(data, a)[i].key && 0 <= j < k < |q| && q[j] == q[k];
    WalkCons(data, a, q);
    var p := [a] + q;
    assert Walk(data, p) && p[0] == a && p[j + 1] == p[k + 1];
  }

  lemma ChildAcyclic(data: Data, a: string, i: nat)
    requires !CycleReachable(data, a) && i < |Children(data, a)|
    ensures !CycleReachable(data, Children(data, a)[i].key)
  {
    if CycleReachable(data, Children(data, a)[i].key) {
      CycleBelow(data, a, i);
    }
  }

  lemma WalkFront(data: Data, p: seq<string>)
    requires Walk(data, p) && |p| > 1
    ensures Walk(data, p[..|p| - 1]) && Edge(data, p[|p| - 2], p[|p| - 1])
  {
    var q := p[..|p| - 1];
    forall k | 0 <= k < |q| - 1 ensures Edge(data, q[k], q[k + 1]) {
      assert Edge(data, p[k], p[k + 1]);
    }
  }

  lemma OneParent(data: Data, a: string, b: string, c: string)
    requires UniqueKeys(data) && Edge(data, a, c) && Edge(data, b, c)
    ensures a == b
  {
    var i :| 0 <= i < |Children(data, a)| && Children(data, a)[i].key == c;
    var j :| 0 <= j < |Children(data, b)| && Children(data, b)[j].key == c;
  }

  /** A longer walk that ends in a child of `a` comes through `a`. */
  lemma WalkThroughParent(data: Data, a: string, c: nat, p: seq<string>)
    requires UniqueKeys(data) && c < |Children(data, a)|
    requires Walk(data, p) && |p| > 1 && p[|p| - 1] == Children(data, a)[c].key
    ensures Reach(data, p[0], a)
  {
    WalkFront(data, p);
    assert Edge(data, a, Children(data, a)[c].key);
    OneParent(data, a, p[|p| - 2], p[|p| - 1]);
    assert p[..|p| - 1][|p| - 2] == a;
  }

  /** Walks from two children of a key to a common end: followed backwards they agree,
      so the children are the same. */
  lemma {:induction false} OneChildWalks(data: Data, a: string, i: nat, j: nat, u: seq<string>, w: seq<string>)
    requires UniqueKeys(data) && !CycleReachable(data, a)
    requires i < |Children(data, a)| && j < |Children(data, a)|
    requires Walk(data, u) && Walk(data, w) && u[|u| - 1] == w[|w| - 1]
    requires u[0] == Children(data, a)[i].key && w[0] == Children(data, a)[j].key
    ensures i == j
    decreases |u| + |w|
  {
    if |u| == 1 && |w| == 1 {
    } else if |u| == 1 {
      WalkThroughParent(data, a, i, w);
      NoWayBack(data, a, j);
    } else if |w| == 1 {
      WalkThroughParent(data, a, j, u);
      NoWayBack(data, a, i);
    } else {
      WalkFront(data, u);
      WalkFront(data, w);
      OneParent(data, u[|u| - 2], w[|w| - 2], u[|u| - 1]);
      OneChildWalks(data, a, i, j, u[..|u| - 1], w[..|w| - 1]);
    }
  }

  lemma OneChild(data: Data, a: string, i: nat, j: nat, b: string)
    requires UniqueKeys(data) && !CycleReachable(data, a)
    requires i < |Children(data, a)| && j < |Children(data, a)|
    requires Reach(data, Children(data, a)[i].key, b) && Reach(data, Children(data, a)[j].key, b)
    ensures i == j
  {
    var u :| Walk(data, u) && u[0] == Children(data, a)[i].key && u[|u| - 1] == b;
    var w :| Walk(data, w) && w[0] == Children(data, a)[j].key && w[|w| - 1] == b;
    OneChildWalks(data, a, i, j, u, w);
  }

  /** What the first `n` children of a key contribute: themselves, and what is below
      the one of them that leads to the parent of the spot. */
  ghost function FromChildren(data: Data, a: string, n: nat, x: Spot): nat
    requires n <= |Children(data, a)|
  {
    (if exists i :: 0 <= i < n && IsSpot(data, a, i, x) then 1 else 0)
    + if WasPushed(data, x) && exists i :: 0 <= i < n && Reach(data, Children(data, a)[i].key, x.parent) then 1 else 0
  }

  lemma FromChildrenStep(data: Data, a: string, n: nat, x: Spot)
    requires UniqueKeys(data) && !CycleReachable(data, a) && n < |Children(data, a)|
    ensures FromChildren(data, a, n + 1, x) == FromChildren(data, a, n, x)
            + (if IsSpot(data, a, n, x) then 1 else 0)
            + if WasPushed(data, x) && Reach(data, Children(data, a)[n].key, x.parent) then 1 else 0
  {
    forall i | 0 <= i < n && Reach(data, Children(data, a)[i].key, x.parent)
      ensures !Reach(data, Children(data, a)[n].key, x.parent)
    {
      if Reach(data, Children(data, a)[n].key, x.parent) {
        OneChild(data, a, i, n, x.parent);
      }
    }
    forall i | 0 <= i < n && IsSpot(data, a, i, x) ensures !IsSpot(data, a, n, x) {
    }
  }

  lemma FromAllChildren(data: Data, a: string, x: Spot)
    requires !CycleReachable(data, a)
    ensures FromChildren(data, a, |Children(data, a)|, x) == if WasPushed(data, x) && Reach(data, a, x.parent) then 1 else 0
  {
    if a == x.parent {
      ReachSelf(data, a);
      forall i | 0 <= i < |Children(data, a)| ensures !Reach(data, Children(data, a)[i].key, a) {
        NoWayBack(data, a, i);
      }
    } else {
      forall i | 0 <= i < |Children(data, a)| && Reach(data, Children(data, a)[i].key, x.parent)
        ensures Reach(data, a, x.parent)
      {
        ReachThroughChild(data, a, i, x.parent);
      }
      if Reach(data, a, x.parent) {
        var i := ReachNeedsChild(data, a, x.parent);
      }
    }
  }

  lemma {:induction false} BuildCounts(data: Data, a: string, fuel: nat, x: Spot)
    requires UniqueKeys(data) && NoPresetChildren(data) && !CycleReachable(data, a)
    requires Build(data, a, fuel).Some?
    ensures Count(Build(data, a, fuel).value, a, x) == if WasPushed(data, x) && Reach(data, a, x.parent) then 1 else 0
    decreases fuel, 0
  {
    FromAllChildren(data, a, x);
    if a in data {
      assert data[a][..|data[a]|] == data[a];
      BuildAllCounts(data, a, |data[a]|, fuel - 1, x);
    } else {
      NoChildrenCountNothing(data, a, x);
    }
  }

  lemma NoChildrenCountNothing(data: Data, a: string, x: Spot)
    requires a !in data
    ensures FromChildren(data, a, |Children(data, a)|, x) == 0 == Count([], a, x)
  {
  }

  /** What the last child adds to the forest built from the first `n`. */
  lemma BuildAllSnoc(data: Data, a: string, n: nat, fuel: nat, x: Spot)
    requires NoPresetChildren(data) && 0 < n <= |Children(data, a)|
    requires BuildAll(data, Children(data, a)[..n], fuel).Some?
    ensures BuildAll(data, Children(data, a)[..n - 1], fuel).Some?
    ensures Build(data, Children(data, a)[n - 1].key, fuel).Some?
    ensures Count(BuildAll(data, Children(data, a)[..n], fuel).value, a, x)
            == Count(BuildAll(data, Children(data, a)[..n - 1], fuel).value, a, x)
            + (if IsSpot(data, a, n - 1, x) then 1 else 0)
            + Count(Build(data, Children(data, a)[n - 1].key, fuel).value, Children(data, a)[n - 1].key, x)
  {
    var nodes := Children(data, a);
    var last := nodes[n - 1];
    assert nodes[..n][..n - 1] == nodes[..n - 1];
    var front, sub := BuildAll(data, nodes[..n - 1], fuel).value, Build(data, last.key, fuel).value;
    assert BuildAll(data, nodes[..n], fuel).value == front + [Assembled(last, sub)];
    CountSnoc(front, Assembled(last, sub), a, x);
  }

  lemma {:induction false} BuildAllCounts(data: Data, a: string, n: nat, fuel: nat, x: Spot)
    requires UniqueKeys(data) && NoPresetChildren(data) && !CycleReachable(data, a)
    requires n <= |Children(data, a)| && BuildAll(data, Children(data, a)[..n], fuel).Some?
    ensures Count(BuildAll(data, Children(data, a)[..n], fuel).value, a, x) == FromChildren(data, a, n, x)
    decreases fuel, 1 + n
  {
    if n > 0 {
      BuildAllSnoc(data, a, n, fuel, x);
      BuildAllCounts(data, a, n - 1, fuel, x);
      ChildAcyclic(data, a, n - 1);
      BuildCounts(data, Children(data, a)[n - 1].key, fuel, x);
      FromChildrenStep(data, a, n - 1, x);
    }
  }

  /** With unique keys and no reachable cycle the forest holds every element pushed at a
      place reachable from the root exactly once, under its own parent, and nothing else. */
  lemma ForestHoldsReachableOnce(data: Data, root: string, x: Spot)
    requires UniqueKeys(data) && NoPresetChildren(data) && !CycleReachable(data, root)
    ensures Build(data, root, |data|).Some?
    ensures Count(Build(data, root, |data|).value, root, x)
            == if WasPushed(data, x) && Reach(data, root, x.parent) then 1 else 0
  {
    AcyclicBuilds(data, root);
    BuildCounts(data, root, |data|, x);
  }
}
