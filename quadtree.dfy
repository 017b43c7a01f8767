/** Adaptive quadtree used to size terrain patches by level of detail (quadtree.js).
    Nodes are values: `insert` rebuilds the node it refines instead of mutating its
    `children` field, and `_getChildren` threads its accumulator through a result. */
module Quadtree {

  datatype Vec2 = Vec2(x: real, y: real)
  datatype Vec3 = Vec3(x: real, y: real, z: real)

  /** An axis-aligned rectangle given by its two corners, as a THREE.Box2. */
  datatype Box = Box(min: Vec2, max: Vec2)

  /** A tree node with the bounds it covers, its (0 or 4) children and the centre and
      size that were computed from the bounds when the node was created. */
  datatype Node = Node(bounds: Box, children: seq<Node>, centre: Vec2, size: Vec2)

  // ---------------------------------------------------------------- boxes

  /** THREE.Box2.isEmpty: a box whose max lies below its min on either axis. */
  predicate IsEmpty(b: Box) {
    b.max.x < b.min.x || b.max.y < b.min.y
  }

  /** THREE.Box2.getCenter: the midpoint of the corners, or the origin for an empty box. */
  function Center(b: Box): (c: Vec2)
    ensures !IsEmpty(b) ==> b.min.x <= c.x <= b.max.x && b.min.y <= c.y <= b.max.y
    ensures !IsEmpty(b) ==> c.x - b.min.x == b.max.x - c.x && c.y - b.min.y == b.max.y - c.y
  {
    if IsEmpty(b) then Vec2(0.0, 0.0)
    else Vec2((b.min.x + b.max.x) / 2.0, (b.min.y + b.max.y) / 2.0)
  }

  /** THREE.Box2.getSize: the extent on each axis, or zero for an empty box. */
  function Size(b: Box): (s: Vec2)
    ensures s.x >= 0.0 && s.y >= 0.0
    ensures !IsEmpty(b) ==> b.min.x + s.x == b.max.x && b.min.y + s.y == b.max.y
  {
    if IsEmpty(b) then Vec2(0.0, 0.0)
    else Vec2(b.max.x - b.min.x, b.max.y - b.min.y)
  }

  /** The closed box contains point p. */
  predicate InBox(p: Vec2, b: Box) {
    b.min.x <= p.x <= b.max.x && b.min.y <= p.y <= b.max.y
  }

  /** Box a lies inside box b. */
  predicate Within(a: Box, b: Box) {
    b.min.x <= a.min.x && a.max.x <= b.max.x && b.min.y <= a.min.y && a.max.y <= b.max.y
  }

  /** The interiors of a and b do not meet: a separating line exists on one axis. */
  predicate Disjoint(a: Box, b: Box) {
    a.max.x <= b.min.x || b.max.x <= a.min.x || a.max.y <= b.min.y || b.max.y <= a.min.y
  }

  /** The four quadrant boxes split at the box's centre, in the order bottom-left,
      bottom-right, top-left, top-right (createChildren). */
  function Quadrants(b: Box): (q: seq<Box>)
    ensures |q| == 4
  {
    var mid := Center(b);
    [ Box(b.min, mid),
      Box(Vec2(mid.x, b.min.y), Vec2(b.max.x, mid.y)),
      Box(Vec2(b.min.x, mid.y), Vec2(mid.x, b.max.y)),
      Box(mid, b.max) ]
  }

  /** A fresh childless node for a box, as the object literals of the constructor and
      createChildren build it. */
  function MakeNode(b: Box): Node {
    Node(b, [], Center(b), Size(b))
  }

  /** createChildren: one fresh leaf per quadrant of the node's bounds. */
  function CreateChildren(node: Node): (r: seq<Node>)
    ensures |r| == 4
    ensures forall k :: 0 <= k < 4 ==> r[k].bounds == Quadrants(node.bounds)[k]
    ensures forall k :: 0 <= k < 4 ==> r[k].children == [] && WellFormed(r[k])
  {
    var q := Quadrants(node.bounds);
    [MakeNode(q[0]), MakeNode(q[1]), MakeNode(q[2]), MakeNode(q[3])]
  }

  /** The four quadrants of a non-empty box meet at its centre, each has half its width
      and half its height, each lies inside it, their interiors are pairwise disjoint and
      each point of the box lies in one of them. */
  lemma QuadrantsTile(b: Box, p: Vec2)
    requires !IsEmpty(b)
    ensures var q := Quadrants(b);
      q[0].max == Center(b) && q[3].min == Center(b) &&
      q[1].min == Vec2(Center(b).x, b.min.y) && q[2].max == Vec2(Center(b).x, b.max.y)
    ensures forall k :: 0 <= k < 4 ==>
      !IsEmpty(Quadrants(b)[k]) && Within(Quadrants(b)[k], b) &&
      Size(Quadrants(b)[k]) == Vec2(Size(b).x / 2.0, Size(b).y / 2.0)
    ensures forall k, j :: 0 <= k < j < 4 ==> Disjoint(Quadrants(b)[k], Quadrants(b)[j])
    ensures InBox(p, b) ==> exists k :: 0 <= k < 4 && InBox(p, Quadrants(b)[k])
  {
    var q := Quadrants(b);
    var mid := Center(b);
    if InBox(p, b) {
      if p.x <= mid.x && p.y <= mid.y {
        assert InBox(p, q[0]);
      } else if p.y <= mid.y {
        assert InBox(p, q[1]);
      } else if p.x <= mid.x {
        assert InBox(p, q[2]);
      } else {
        assert InBox(p, q[3]);
      }
    }
  }

  /** Boxes inside two boxes with disjoint interiors have disjoint interiors. */
  lemma WithinDisjoint(a: Box, b: Box, c: Box, d: Box)
    requires Within(a, b) && Within(c, d) && Disjoint(b, d)
    ensures Disjoint(a, c)
  {
  }

  // ---------------------------------------------------------------- nodes

  /** The node's stored centre and size are those of its bounds. */
  predicate WellFormed(node: Node) {
    node.centre == Center(node.bounds) && node.size == Size(node.bounds)
  }

  /** Every node of the tree is well formed, and every inner node has exactly four
      children, whose bounds are the quadrants of its own non-empty bounds. */
  predicate Partitioned(t: Node)
    decreases t
  {
    WellFormed(t) &&
    (t.children == [] ||
     (!IsEmpty(t.bounds) && |t.children| == 4 &&
      forall k :: 0 <= k < 4 ==>
        t.children[k].bounds == Quadrants(t.bounds)[k] && Partitioned(t.children[k])))
  }

  /** Squared Euclidean distance. */
  function DistSq(a: Vec2, b: Vec2): real {
    (a.x - b.x) * (a.x - b.x) + (a.y - b.y) * (a.y - b.y)
  }

  /** The split test of insert: the point lies closer to the node's centre than the
      node's width, and the width exceeds the minimum node size. Comparing squares is
      the same as comparing the distance itself, since the width is positive whenever
      the second conjunct holds. */
  predicate Splits(node: Node, p: Vec2, minNodeSize: real) {
    DistSq(node.centre, p) < node.size.x * node.size.x && node.size.x > minNodeSize
  }

  /** Termination measure: how many times minNodeSize fits into the width. */
  function Measure(s: real, minNodeSize: real): nat
    requires minNodeSize > 0.0
  {
    if s < minNodeSize then 0 else DivAtLeastOne(s, minNodeSize); (s / minNodeSize).Floor
  }

  lemma DivAtLeastOne(s: real, m: real)
    requires m > 0.0 && s >= m
    ensures s / m >= 1.0
  {
  }

  /** Halving a width above the floor lowers the measure. */
  lemma HalfMeasure(s: real, m: real)
    requires m > 0.0 && s > m
    ensures Measure(s / 2.0, m) < Measure(s, m)
  {
    var x := s / m;
    DivAtLeastOne(s, m);
    assert (s / 2.0) / m == x / 2.0;
    var f := x.Floor;
    assert f as real <= x < f as real + 1.0;
    assert f >= 1;
    assert x / 2.0 < f as real;
    if s / 2.0 >= m {
      assert (x / 2.0).Floor < f;
    }
  }

  /** The children a split creates are smaller in the measure than their parent. */
  lemma ChildrenSmaller(node: Node, p: Vec2, m: real)
    requires m > 0.0 && node.size == Size(node.bounds) && Splits(node, p, m)
    ensures !IsEmpty(node.bounds)
    ensures forall k :: 0 <= k < 4 ==>
      CreateChildren(node)[k].size.x == node.size.x / 2.0 &&
      Measure(CreateChildren(node)[k].size.x, m) < Measure(node.size.x, m)
  {
    QuadrantsTile(node.bounds, node.centre);
    HalfMeasure(node.size.x, m);
  }

  /** The tree insert(node, p) leaves behind. A node that splits gets four fresh
      children, each refined in turn; one that does not keeps whatever children it had,
      so a second insertion replaces a split node's children rather than refining them. */
  function Inserted(node: Node, p: Vec2, m: real): Node
    requires m > 0.0 && node.size == Size(node.bounds)
    decreases Measure(node.size.x, m)
  {
    if Splits(node, p, m) then
      var q := CreateChildren(node);
      ChildrenSmaller(node, p, m);
      node.(children := [Inserted(q[0], p, m), Inserted(q[1], p, m),
                         Inserted(q[2], p, m), Inserted(q[3], p, m)])
    else
      node
  }

  /** A tree refined for p: exactly the nodes that pass the split test have children,
      four of them, and every other node is a leaf. */
  predicate Refined(t: Node, p: Vec2, m: real)
    decreases t
  {
    if Splits(t, p, m) then |t.children| == 4 && forall k :: 0 <= k < 4 ==> Refined(t.children[k], p, m)
    else t.children == []
  }

  /** Insertion keeps bounds, centre and size of the node it starts at. */
  lemma {:induction false} InsertedKeepsNode(node: Node, p: Vec2, m: real)
    requires m > 0.0 && node.size == Size(node.bounds)
    ensures var r := Inserted(node, p, m);
      r.bounds == node.bounds && r.centre == node.centre && r.size == node.size
    ensures Splits(node, p, m) ==> |Inserted(node, p, m).children| == 4
    ensures !Splits(node, p, m) ==> Inserted(node, p, m) == node
  {
  }

  /** Inserting into a partitioned tree leaves a partitioned tree. */
  lemma {:induction false} InsertedPartitioned(t: Node, p: Vec2, m: real)
    requires m > 0.0 && Partitioned(t)
    ensures Partitioned(Inserted(t, p, m))
    decreases Measure(t.size.x, m)
  {
    if Splits(t, p, m) {
      var q := CreateChildren(t);
      ChildrenSmaller(t, p, m);
      var r := Inserted(t, p, m);
      forall k | 0 <= k < 4
        ensures r.children[k].bounds == Quadrants(t.bounds)[k] && Partitioned(r.children[k])
      {
        assert Partitioned(q[k]);
        InsertedPartitioned(q[k], p, m);
        InsertedKeepsNode(q[k], p, m);
      }
    }
  }

  /** The k-th child of a split node after insertion is the k-th quadrant after insertion. */
  lemma InsertedChild(t: Node, p: Vec2, m: real, k: int)
    requires m > 0.0 && t.size == Size(t.bounds) && Splits(t, p, m) && 0 <= k < 4
    ensures |Inserted(t, p, m).children| == 4
    ensures CreateChildren(t)[k].size == Size(CreateChildren(t)[k].bounds)
    ensures Inserted(t, p, m).children[k] == Inserted(CreateChildren(t)[k], p, m)
  {
    ChildrenSmaller(t, p, m);
  }

  /** Inserting into a leaf splits exactly the nodes that pass the split test. */
  lemma {:induction false} InsertedRefined(t: Node, p: Vec2, m: real)
    requires m > 0.0 && t.size == Size(t.bounds) && t.children == []
    ensures Refined(Inserted(t, p, m), p, m)
    decreases Measure(t.size.x, m)
  {
    var r := Inserted(t, p, m);
    if Splits(t, p, m) {
      var q := CreateChildren(t);
      ChildrenSmaller(t, p, m);
      forall k | 0 <= k < 4 ensures Refined(r.children[k], p, m) {
        InsertedChild(t, p, m, k);
        InsertedRefined(q[k], p, m);
      }
      assert r == t.(children := r.children);
      assert Splits(r, p, m);
    } else {
      assert r == t;
    }
  }

  // ---------------------------------------------------------------- leaves

  /** The childless nodes of the tree, depth first, children in order (_getChildren). */
  function Leaves(t: Node): (r: seq<Node>)
    ensures |r| >= 1
    ensures forall l :: l in r ==> l.children == []
    decreases t, 1
  {
    if |t.children| == 0 then [t] else LeavesOf(t.children)
  }

  /** The leaves of a sequence of sibling subtrees, one subtree after the other. */
  function LeavesOf(cs: seq<Node>): (r: seq<Node>)
    ensures forall l :: l in r ==> l.children == []
    ensures |cs| > 0 ==> |r| >= |cs|
    decreases cs, 0
  {
    if cs == [] then [] else Leaves(cs[0]) + LeavesOf(cs[1..])
  }

  lemma {:induction false} LeavesOfSnoc(cs: seq<Node>, c: Node)
    ensures LeavesOf(cs + [c]) == LeavesOf(cs) + Leaves(c)
    decreases cs
  {
    if cs == [] {
      assert ([] + [c])[1..] == [];
    } else {
      assert (cs + [c])[1..] == cs[1..] + [c];
      LeavesOfSnoc(cs[1..], c);
    }
  }

  lemma LeavesOfFour(a: Node, b: Node, c: Node, d: Node)
    ensures LeavesOf([a, b, c, d]) == Leaves(a) + (Leaves(b) + (Leaves(c) + Leaves(d)))
  {
    assert [d][1..] == [];
    assert LeavesOf([d]) == Leaves(d) + [];
    assert [c, d][1..] == [d];
    assert LeavesOf([c, d]) == Leaves(c) + Leaves(d);
    assert [b, c, d][1..] == [c, d];
    assert LeavesOf([b, c, d]) == Leaves(b) + (Leaves(c) + Leaves(d));
    assert [a, b, c, d][1..] == [b, c, d];
  }

  /** A leaf of a sequence of subtrees is a leaf of one of them. */
  lemma {:induction false} LeavesOfMember(cs: seq<Node>, l: Node)
    ensures l in LeavesOf(cs) <==> exists k :: 0 <= k < |cs| && l in Leaves(cs[k])
    decreases cs
  {
    if cs != [] {
      LeavesOfMember(cs[1..], l);
      if l in LeavesOf(cs[1..]) {
        var k :| 0 <= k < |cs[1..]| && l in Leaves(cs[1..][k]);
        assert l in Leaves(cs[k + 1]);
      }
      if exists k :: 0 <= k < |cs| && l in Leaves(cs[k]) {
        var k :| 0 <= k < |cs| && l in Leaves(cs[k]);
        if k > 0 {
          assert cs[1..][k - 1] == cs[k];
        }
      }
    }
  }

  /** All nodes of the tree in preorder. */
  function Nodes(t: Node): (r: seq<Node>)
    ensures t in r
    decreases t, 1
  {
    [t] + NodesOf(t.children)
  }

  function NodesOf(cs: seq<Node>): seq<Node>
    decreases cs, 0
  {
    if cs == [] then [] else Nodes(cs[0]) + NodesOf(cs[1..])
  }

  /** getChildren returns exactly the childless nodes of the tree. */
  lemma {:induction false} LeavesAreChildlessNodes(t: Node, l: Node)
    ensures l in Leaves(t) <==> l in Nodes(t) && l.children == []
    decreases t, 1
  {
    if |t.children| != 0 {
      LeavesOfChildlessNodes(t.children, l);
    }
  }

  lemma {:induction false} LeavesOfChildlessNodes(cs: seq<Node>, l: Node)
    ensures l in LeavesOf(cs) <==> l in NodesOf(cs) && l.children == []
    decreases cs, 0
  {
    if cs != [] {
      LeavesAreChildlessNodes(cs[0], l);
      LeavesOfChildlessNodes(cs[1..], l);
    }
  }

  /** Every leaf of a partitioned tree lies inside the tree's bounds. */
  lemma {:induction false} LeavesWithin(t: Node, l: Node)
    requires Partitioned(t) && l in Leaves(t)
    ensures Within(l.bounds, t.bounds)
    decreases t
  {
    if |t.children| != 0 {
      LeavesOfMember(t.children, l);
      var k :| 0 <= k < 4 && l in Leaves(t.children[k]);
      LeavesWithin(t.children[k], l);
      QuadrantsTile(t.bounds, t.centre);
    }
  }

  /** Every point of a partitioned tree's bounds lies in one of its leaves. */
  lemma {:induction false} LeavesCover(t: Node, p: Vec2)
    requires Partitioned(t) && InBox(p, t.bounds)
    ensures exists l :: l in Leaves(t) && InBox(p, l.bounds)
    decreases t
  {
    if |t.children| != 0 {
      QuadrantsTile(t.bounds, p);
      var k :| 0 <= k < 4 && InBox(p, Quadrants(t.bounds)[k]);
      LeavesCover(t.children[k], p);
      var l :| l in Leaves(t.children[k]) && InBox(p, l.bounds);
      LeavesOfMember(t.children, l);
    }
  }

  /** The leaves of a sequence of boxes pairwise have disjoint interiors. */
  predicate PairwiseDisjoint(ls: seq<Node>) {
    forall i, j :: 0 <= i < j < |ls| ==> Disjoint(ls[i].bounds, ls[j].bounds)
  }

  /** No two leaves of a partitioned tree overlap except on shared edges. */
  lemma {:induction false} LeavesDisjoint(t: Node)
    requires Partitioned(t)
    ensures PairwiseDisjoint(Leaves(t))
    decreases t, 1
  {
    if |t.children| != 0 {
      QuadrantsTile(t.bounds, t.centre);
      LeavesOfDisjoint(t.children);
    }
  }

  lemma {:induction false} LeavesOfDisjoint(cs: seq<Node>)
    requires forall k :: 0 <= k < |cs| ==> Partitioned(cs[k])
    requires forall k, j :: 0 <= k < j < |cs| ==> Disjoint(cs[k].bounds, cs[j].bounds)
    ensures PairwiseDisjoint(LeavesOf(cs))
    decreases cs, 0
  {
    if cs != [] {
      var a := Leaves(cs[0]);
      var b := LeavesOf(cs[1..]);
      LeavesDisjoint(cs[0]);
      LeavesOfDisjoint(cs[1..]);
      forall i, j | 0 <= i < |a| && 0 <= j < |b|
        ensures Disjoint(a[i].bounds, b[j].bounds)
      {
        LeavesWithin(cs[0], a[i]);
        LeavesOfMember(cs[1..], b[j]);
        var k :| 0 <= k < |cs[1..]| && b[j] in Leaves(cs[1..][k]);
        LeavesWithin(cs[k + 1], b[j]);
        WithinDisjoint(a[i].bounds, cs[0].bounds, b[j].bounds, cs[k + 1].bounds);
      }
      var all := a + b;
      forall i, j | 0 <= i < j < |all| ensures Disjoint(all[i].bounds, all[j].bounds) {
        if j < |a| {
          assert all[i] == a[i] && all[j] == a[j];
        } else if i >= |a| {
          assert all[i] == b[i - |a|] && all[j] == b[j - |a|];
        } else {
          assert all[i] == a[i] && all[j] == b[j - |a|];
        }
      }
    }
  }

  /** Leaves of a tree refined for p are never wider than the root, and when the root
      was split every leaf is wider than half the minimum node size, since only nodes
      wider than the minimum are split and a split halves the width. */
  lemma {:induction false} LeafSizeFloor(t: Node, p: Vec2, m: real, l: Node)
    requires m > 0.0 && Partitioned(t) && Refined(t, p, m) && l in Leaves(t)
    ensures l.size.x <= t.size.x
    ensures |t.children| != 0 ==> l.size.x > m / 2.0
    decreases t
  {
    if |t.children| != 0 {
      assert Splits(t, p, m);
      QuadrantsTile(t.bounds, t.centre);
      LeavesOfMember(t.children, l);
      var k :| 0 <= k < 4 && l in Leaves(t.children[k]);
      var c := t.children[k];
      assert c.size.x == t.size.x / 2.0;
      LeafSizeFloor(c, p, m, l);
    }
  }

  // ---------------------------------------------------------------- the tree object

  class QuadTree {
    const minNodeSize: real
    var rootNode: Node

    ghost predicate Valid()
      reads this
    {
      Partitioned(rootNode)
    }

    /** The tree starts as a single leaf covering the box (min, max). */
    constructor (min: Vec2, max: Vec2, minNodeSize: real)
      ensures Valid()
      ensures this.minNodeSize == minNodeSize
      ensures rootNode == MakeNode(Box(min, max)) && Leaves(rootNode) == [rootNode]
    {
      this.minNodeSize := minNodeSize;
      rootNode := MakeNode(Box(min, max));
    }

    /** getChildren: the leaves of the tree in depth-first order. */
    method GetChildren() returns (children: seq<Node>)
      ensures children == Leaves(rootNode)
    {
      children := CollectLeaves(rootNode, []);
    }

    /** _getChildren: appends the leaves below node to target. */
    method CollectLeaves(node: Node, target: seq<Node>) returns (r: seq<Node>)
      ensures r == target + Leaves(node)
      decreases node
    {
      if |node.children| == 0 {
        r := target + [node];
        return;
      }
      r := target;
      var i := 0;
      while i < |node.children|
        invariant 0 <= i <= |node.children|
        invariant r == target + LeavesOf(node.children[..i])
      {
        r := CollectLeaves(node.children[i], r);
        LeavesOfSnoc(node.children[..i], node.children[i]);
        assert node.children[..i + 1] == node.children[..i] + [node.children[i]];
        i := i + 1;
      }
      assert node.children[..i] == node.children;
    }

    /** insertObject: refines the tree toward the (x, z) projection of a 3-D position. */
    method InsertObject(position: Vec3)
      requires Valid() && minNodeSize > 0.0
      modifies this
      ensures Valid()
      ensures rootNode == Inserted(old(rootNode), Vec2(position.x, position.z), minNodeSize)
    {
      rootNode := Insert(rootNode, Vec2(position.x, position.z));
      InsertedPartitioned(old(rootNode), Vec2(position.x, position.z), minNodeSize);
    }

    /** insert: splits the node when it passes the split test and inserts into each of
        its four new children. */
    method Insert(child: Node, position: Vec2) returns (r: Node)
      requires minNodeSize > 0.0 && child.size == Size(child.bounds)
      ensures r == Inserted(child, position, minNodeSize)
      decreases Measure(child.size.x, minNodeSize)
    {
      r := child;
      if Splits(child, position, minNodeSize) {
        var q := CreateChildren(child);
        ChildrenSmaller(child, position, minNodeSize);
        var kids := q;
        var i := 0;
        while i < |kids|
          invariant 0 <= i <= 4 && |kids| == 4
          invariant forall j :: 0 <= j < i ==> kids[j] == Inserted(q[j], position, minNodeSize)
          invariant forall j :: i <= j < 4 ==> kids[j] == q[j]
        {
          var k := Insert(kids[i], position);
          kids := kids[i := k];
          i := i + 1;
        }
        assert kids == [Inserted(q[0], position, minNodeSize), Inserted(q[1], position, minNodeSize),
                        Inserted(q[2], position, minNodeSize), Inserted(q[3], position, minNodeSize)];
        r := child.(children := kids);
      }
    }
  }

  // ---------------------------------------------------------------- worked example

  /** A 100-wide node near the point splits once into four leaves of width 50 when the
      minimum node size lies in [50, 100). */
  lemma SecondLevel(c: Node, p: Vec2, m: real)
    requires 50.0 <= m < 100.0 && WellFormed(c) && c.size == Vec2(100.0, 100.0)
    requires DistSq(c.centre, p) < 10000.0
    ensures |Leaves(Inserted(c, p, m))| == 4
    ensures forall l :: l in Leaves(Inserted(c, p, m)) ==> l.size == Vec2(50.0, 50.0)
  {
    var q := CreateChildren(c);
    QuadrantsTile(c.bounds, c.centre);
    assert !IsEmpty(c.bounds);
    forall k | 0 <= k < 4 ensures Inserted(q[k], p, m) == q[k] && q[k].size == Vec2(50.0, 50.0) {
      assert !Splits(q[k], p, m);
    }
    LeavesOfFour(q[0], q[1], q[2], q[3]);
  }

  /** Worked example: bounds (-100,-100)-(100,100), minimum node size 60 and
      the point (0,0) give 16 leaves of 50 by 50. */
  lemma WorkedExample()
    ensures var t := Inserted(MakeNode(Box(Vec2(-100.0, -100.0), Vec2(100.0, 100.0))), Vec2(0.0, 0.0), 60.0);
      |Leaves(t)| == 16 && forall l :: l in Leaves(t) ==> l.size == Vec2(50.0, 50.0)
  {
    var root := MakeNode(Box(Vec2(-100.0, -100.0), Vec2(100.0, 100.0)));
    var p := Vec2(0.0, 0.0);
    assert root.size == Vec2(200.0, 200.0) && root.centre == p;
    assert Splits(root, p, 60.0);
    var q := CreateChildren(root);
    var t := Inserted(root, p, 60.0);
    assert t.children == [Inserted(q[0], p, 60.0), Inserted(q[1], p, 60.0),
                          Inserted(q[2], p, 60.0), Inserted(q[3], p, 60.0)];
    ExampleQuadrant(q[0], p);
    ExampleQuadrant(q[1], p);
    ExampleQuadrant(q[2], p);
    ExampleQuadrant(q[3], p);
    LeavesOfFour(t.children[0], t.children[1], t.children[2], t.children[3]);
    assert Leaves(t) == LeavesOf(t.children);
  }

  /** Each quadrant of the example's root is 100 wide and centred at a distance whose
      square is 5000 from the point. */
  lemma ExampleQuadrant(c: Node, p: Vec2)
    requires p == Vec2(0.0, 0.0)
    requires c in CreateChildren(MakeNode(Box(Vec2(-100.0, -100.0), Vec2(100.0, 100.0))))
    ensures |Leaves(Inserted(c, p, 60.0))| == 4
    ensures forall l :: l in Leaves(Inserted(c, p, 60.0)) ==> l.size == Vec2(50.0, 50.0)
  {
    var q := CreateChildren(MakeNode(Box(Vec2(-100.0, -100.0), Vec2(100.0, 100.0))));
    assert q[0].centre == Vec2(-50.0, -50.0) && q[1].centre == Vec2(50.0, -50.0);
    assert q[2].centre == Vec2(-50.0, 50.0) && q[3].centre == Vec2(50.0, 50.0);
    assert c.size == Vec2(100.0, 100.0);
    assert DistSq(c.centre, p) == 5000.0;
    SecondLevel(c, p, 60.0);
  }
}
