// Array numbering of a left-balanced binary tree (RFC 9420, Appendix C).  The code works on
// the bits of a node number; the specification works on coordinates: a node is (level,
// position) and the leaf with number l has the ancestor (k, l >> k) at every level k.
module NodeArithmetic {
  import opened Bits

  // The node at level k and position j.
  function Node(k: nat, j: nat): nat
  {
    if k == 0 then 2 * j else 2 * Node(k - 1, j) + 1
  }

  // Number of trailing one bits.
  function Level(x: nat): nat
  {
    if x % 2 == 0 then 0 else 1 + Level(x / 2)
  }

  function Pos(x: nat): nat
  {
    if x % 2 == 0 then x / 2 else Pos(x / 2)
  }

  // Leaf number l lies in the subtree of node x.
  predicate Under(l: nat, x: nat)
  {
    Shr(l, Level(x)) == Pos(x)
  }

  function LeafNode(l: nat): nat
  {
    2 * l
  }

  function NodeCount(capacity: nat): int
  {
    2 * capacity - 1
  }

  // log2 of a power of two
  function Depth(capacity: nat): nat
  {
    if capacity <= 1 then 0 else 1 + Depth(capacity / 2)
  }

  predicate IsCapacity(capacity: nat)
  {
    capacity == Pow2(Depth(capacity))
  }

  predicate InTree(x: nat, capacity: nat)
  {
    x < NodeCount(capacity)
  }

  function Root(capacity: nat): nat
    requires capacity > 0
  {
    capacity - 1
  }

  // ------------------------------------------------------------------ coordinates

  lemma {:induction false} NodeCoordinates(k: nat, j: nat)
    ensures Level(Node(k, j)) == k && Pos(Node(k, j)) == j
  {
    if k > 0 {
      NodeCoordinates(k - 1, j);
      assert Node(k, j) / 2 == Node(k - 1, j);
    }
  }

  lemma {:induction false} CoordinatesNode(x: nat)
    ensures Node(Level(x), Pos(x)) == x
  {
    if x % 2 == 1 {
      CoordinatesNode(x / 2);
    }
  }

  lemma LeafCoordinates(l: nat)
    ensures Level(LeafNode(l)) == 0 && Pos(LeafNode(l)) == l
    ensures Under(l, LeafNode(l)) && forall m: nat :: Under(m, LeafNode(l)) <==> m == l
  {
    assert LeafNode(l) == Node(0, l);
    NodeCoordinates(0, l);
  }

  lemma SameCoordinates(x: nat, y: nat)
    requires Level(x) == Level(y) && Pos(x) == Pos(y)
    ensures x == y
  {
    CoordinatesNode(x);
    CoordinatesNode(y);
  }

  lemma {:induction false} DepthOfPow2(d: nat)
    ensures Depth(Pow2(d)) == d && IsCapacity(Pow2(d))
  {
    if d > 0 {
      DepthOfPow2(d - 1);
    }
  }

  // A node is in the tree of depth d exactly when its coordinates are in range.
  lemma {:induction false} InTreeCoordinates(x: nat, d: nat)
    ensures InTree(x, Pow2(d)) <==> Level(x) <= d && Pos(x) < Pow2(d - Level(x))
  {
    if x % 2 == 1 {
      if d == 0 {
        assert Pow2(0) == 1;
      } else {
        InTreeCoordinates(x / 2, d - 1);
      }
    }
  }

  lemma {:induction false} RootCoordinates(d: nat)
    ensures Root(Pow2(d)) == Node(d, 0)
  {
    if d > 0 {
      RootCoordinates(d - 1);
    }
  }

  // The leaves under a node of the tree are leaves of the tree, and the root is above all of them.
  lemma UnderInTree(l: nat, x: nat, capacity: nat)
    requires IsCapacity(capacity) && InTree(x, capacity) && Under(l, x)
    ensures l < capacity
  {
    var d := Depth(capacity);
    var k := Level(x);
    InTreeCoordinates(x, d);
    if l >= capacity {
      ShrLower(l, d, k);
      assert false;
    }
  }

  lemma {:induction false} ShrLower(x: nat, d: nat, k: nat)
    requires k <= d && x >= Pow2(d)
    ensures Shr(x, k) >= Pow2(d - k)
  {
    if k > 0 {
      ShrLower(x, d, k - 1);
    }
  }

  lemma RootAboveAll(l: nat, capacity: nat)
    requires IsCapacity(capacity) && l < capacity
    ensures Under(l, Root(capacity)) && InTree(Root(capacity), capacity)
    ensures capacity > 1 ==> Level(Root(capacity)) > 0
  {
    var d := Depth(capacity);
    RootCoordinates(d);
    NodeCoordinates(d, 0);
    ShrBound(l, d, d);
    if capacity > 1 && d == 0 {
      assert false;
    }
  }

  // ------------------------------------------------------------------ the code's arithmetic

  // treekem.level: counts while the k-th bit is set.
  method LevelOf(x: nat) returns (k: nat)
    ensures k == Level(x)
  {
    k := 0;
    ghost var rest := x;
    while Shr(x, k) % 2 == 1
      invariant rest == Shr(x, k)
      invariant Level(x) == k + Level(rest)
      decreases rest
    {
      k := k + 1;
      rest := rest / 2;
    }
  }

  datatype Child = Child(node: nat) | LeafHasNoChildren

  // treekem.left and treekem.right.
  function LeftOf(x: nat): Child
  {
    var k := Level(x);
    if k == 0 then LeafHasNoChildren else Child(Xor(x, Shl(1, k - 1)))
  }

  function RightOf(x: nat): Child
  {
    var k := Level(x);
    if k == 0 then LeafHasNoChildren else Child(Xor(x, Shl(3, k - 1)))
  }

  function Left(x: nat): nat
    requires Level(x) > 0
  {
    Node(Level(x) - 1, 2 * Pos(x))
  }

  function Right(x: nat): nat
    requires Level(x) > 0
  {
    Node(Level(x) - 1, 2 * Pos(x) + 1)
  }

  function Up(x: nat): nat
  {
    Node(Level(x) + 1, Pos(x) / 2)
  }

  // treekem.parent, below the root.
  function ParentBits(x: nat): nat
  {
    var k := Level(x);
    var b := Shr(x, k + 1) % 2;
    Xor(Or(x, Shl(1, k)), Shl(b, k + 1))
  }

  lemma LowestChildBits(j: nat)
    ensures Level(4 * j + 1) == 1 && Pos(4 * j + 1) == j
    ensures LeftOf(4 * j + 1) == Child(4 * j) && RightOf(4 * j + 1) == Child(4 * j + 2)
  {
    assert (4 * j + 1) / 2 == 2 * j && (2 * j) / 2 == j;
    assert Shl(1, 0) == 1 && Shl(3, 0) == 3 by { assert Pow2(0) == 1; }
    XorDigit(2 * j, 0, 1, 1);
    XorDigit(2 * j, 1, 1, 1);
    XorDigit(j, 0, 0, 1);
    XorZero(2 * j);
    XorZero(j);
  }

  lemma XorShifted(h: nat, m: nat, k: nat)
    requires k > 0
    ensures Xor(2 * h + 1, Shl(m, k)) == 2 * Xor(h, Shl(m, k - 1)) + 1
  {
    ShlHalf(m, k);
    XorDigit(h, Shl(m, k - 1), 1, 0);
  }

  // The exclusive-or in the code moves one level down, left and right.
  lemma {:induction false} ChildBits(x: nat)
    requires Level(x) > 0
    ensures LeftOf(x) == Child(Left(x)) && RightOf(x) == Child(Right(x))
  {
    var k := Level(x);
    var h := x / 2;
    if k == 1 {
      LowestChildBits(h / 2);
    } else {
      ChildBits(h);
      XorShifted(h, 1, k - 1);
      XorShifted(h, 3, k - 1);
      assert Level(h) == k - 1 && Pos(h) == Pos(x) && x == 2 * h + 1;
    }
  }

  lemma {:induction false} ParentBitsUp(x: nat)
    ensures ParentBits(x) == Up(x)
  {
    var k := Level(x);
    var h := x / 2;
    ShrHalf(x, k);
    if k == 0 {
      LeafParentBits(x);
    } else {
      ParentBitsUp(h);
      var b := Shr(x, k + 1) % 2;
      ShlHalf(1, k);
      ShlHalf(b, k + 1);
      OrDigit(h, Shl(1, k - 1), 1, 0);
      XorDigit(Or(h, Shl(1, k - 1)), Shl(b, k), 1, 0);
      assert Shr(h, k) == Shr(x, k + 1);
    }
  }

  lemma LeafParentBits(x: nat)
    requires Level(x) == 0
    ensures ParentBits(x) == Up(x)
  {
    var h := x / 2;
    var b := h % 2;
    var q := h / 2;
    assert x == 2 * h && h == 2 * q + b;
    assert Shr(x, 1) == Shr(x, 0) / 2 == h;
    assert Shl(1, 0) == 1 && Shl(b, 1) == 2 * b by { assert Pow2(0) == 1 && Pow2(1) == 2; }
    LeafParentXor(q, b);
    OrDigit(h, 0, 0, 1);
    OrZero(h);
    assert Node(1, q) == 2 * Node(0, q) + 1;
  }

  lemma LeafParentXor(q: nat, b: nat)
    requires b < 2
    ensures Xor(2 * (2 * q + b) + 1, 2 * b) == 4 * q + 1
  {
    XorDigit(2 * q + b, b, 1, 0);
    XorDigit(q, 0, b, b);
    XorZero(q);
  }

  // parent inverts left and right, and every node is a child of its parent.
  lemma ParentInvertsChildren(x: nat)
    requires Level(x) > 0
    ensures ParentBits(Left(x)) == x && ParentBits(Right(x)) == x
  {
    NodeCoordinates(Level(x) - 1, 2 * Pos(x));
    NodeCoordinates(Level(x) - 1, 2 * Pos(x) + 1);
    ParentBitsUp(Left(x));
    ParentBitsUp(Right(x));
    CoordinatesNode(x);
    assert (2 * Pos(x)) / 2 == Pos(x) && (2 * Pos(x) + 1) / 2 == Pos(x);
    assert Up(Left(x)) == Node(Level(x), Pos(x)) == Up(Right(x));
  }

  lemma ChildOfParent(x: nat)
    ensures Level(Up(x)) == Level(x) + 1
    ensures x == Left(Up(x)) || x == Right(Up(x))
  {
    NodeCoordinates(Level(x) + 1, Pos(x) / 2);
    CoordinatesNode(x);
    var j := Pos(x);
    assert j == 2 * (j / 2) || j == 2 * (j / 2) + 1;
  }

  // The subtree of an inner node is split between its two children.
  lemma ChildrenSplit(x: nat)
    requires Level(x) > 0
    ensures Level(Left(x)) == Level(Right(x)) == Level(x) - 1
    ensures Pos(Left(x)) == 2 * Pos(x) && Pos(Right(x)) == 2 * Pos(x) + 1
    ensures forall l: nat :: Under(l, x) <==> Under(l, Left(x)) || Under(l, Right(x))
    ensures forall l: nat :: !(Under(l, Left(x)) && Under(l, Right(x)))
  {
    NodeCoordinates(Level(x) - 1, 2 * Pos(x));
    NodeCoordinates(Level(x) - 1, 2 * Pos(x) + 1);
  }

  lemma ChildrenInTree(x: nat, capacity: nat)
    requires IsCapacity(capacity) && Level(x) > 0 && InTree(x, capacity)
    ensures InTree(Left(x), capacity) && InTree(Right(x), capacity)
  {
    InTreeCoordinates(x, Depth(capacity));
    ChildrenSplit(x);
    InTreeCoordinates(Left(x), Depth(capacity));
    InTreeCoordinates(Right(x), Depth(capacity));
  }

  // Below the root, the parent is a node of the tree and stands above the same leaves.
  lemma ParentInTree(x: nat, capacity: nat)
    requires IsCapacity(capacity) && InTree(x, capacity) && x != Root(capacity)
    ensures InTree(Up(x), capacity) && Level(Up(x)) == Level(x) + 1 <= Depth(capacity)
    ensures forall l: nat :: Under(l, x) ==> Under(l, Up(x))
  {
    var d := Depth(capacity);
    InTreeCoordinates(x, d);
    NodeCoordinates(Level(x) + 1, Pos(x) / 2);
    RootCoordinates(d);
    if Level(x) == d {
      CoordinatesNode(x);
      assert false;
    }
    InTreeCoordinates(Up(x), d);
  }

  // Two nodes of the same level with a common leaf are the same node.
  lemma SameLevelSameNode(l: nat, x: nat, y: nat)
    requires Under(l, x) && Under(l, y) && Level(x) == Level(y)
    ensures x == y
  {
    SameCoordinates(x, y);
  }

  // Of two nodes above a common leaf the lower one lies inside the higher one.
  lemma {:induction false} Nested(l: nat, x: nat, y: nat)
    requires Under(l, x) && Under(l, y) && Level(x) <= Level(y)
    ensures forall m: nat :: Under(m, x) ==> Under(m, y)
    decreases Level(y) - Level(x)
  {
    if Level(x) == Level(y) {
      SameLevelSameNode(l, x, y);
    } else {
      NodeCoordinates(Level(x) + 1, Pos(x) / 2);
      assert Shr(l, Level(x) + 1) == Shr(l, Level(x)) / 2;
      Nested(l, Up(x), y);
    }
  }

  // A node with leaves l and m < capacity under different children is a node of the tree.
  lemma SplitInTree(x: nat, l: nat, m: nat, capacity: nat)
    requires IsCapacity(capacity) && Level(x) > 0 && m < capacity
    requires Under(l, Left(x)) && Under(m, Right(x))
    ensures InTree(x, capacity)
  {
    var d := Depth(capacity);
    var k := Level(x) - 1;
    NodeCoordinates(k, 2 * Pos(x) + 1);
    if d <= k {
      ShrZero(m, d, k);
      assert false;
    }
    ShrBound(m, d, k);
    assert Pow2(d - k) == 2 * Pow2(d - k - 1);
    InTreeCoordinates(x, d);
  }

  lemma {:induction false} ShrZero(x: nat, d: nat, k: nat)
    requires d <= k && x < Pow2(d)
    ensures Shr(x, k) == 0
    decreases k
  {
    if d == k {
      ShrBound(x, d, d);
    } else {
      ShrZero(x, d, k - 1);
    }
  }

  // ------------------------------------------------------------------ direct path

  // treekem.direct_path: the parents from x up to the root, lowest first.
  method DirectPath(x: nat, capacity: nat) returns (path: seq<nat>)
    requires IsCapacity(capacity) && InTree(x, capacity)
    ensures |path| == Depth(capacity) - Level(x)
    ensures forall i :: 0 <= i < |path| ==> Level(path[i]) == Level(x) + 1 + i && InTree(path[i], capacity)
    ensures forall i, l: nat :: 0 <= i < |path| && Under(l, x) ==> Under(l, path[i])
    ensures path != [] ==> path[|path| - 1] == Root(capacity)
  {
    path := [];
    var y := x;
    var r := Root(capacity);
    RootCoordinates(Depth(capacity));
    NodeCoordinates(Depth(capacity), 0);
    InTreeCoordinates(x, Depth(capacity));
    while y != r
      invariant InTree(y, capacity) && Level(y) == Level(x) + |path| <= Depth(capacity)
      invariant forall i :: 0 <= i < |path| ==> Level(path[i]) == Level(x) + 1 + i && InTree(path[i], capacity)
      invariant forall l: nat :: Under(l, x) ==> Under(l, y)
      invariant forall i, l: nat :: 0 <= i < |path| && Under(l, x) ==> Under(l, path[i])
      invariant path != [] ==> path[|path| - 1] == y
      decreases Depth(capacity) - Level(y)
    {
      ParentInTree(y, capacity);
      ParentBitsUp(y);
      y := ParentBits(y);
      path := path + [y];
    }
  }

  // The inner nodes of the tree above a leaf.
  predicate IsAncestor(x: nat, l: nat, capacity: nat)
  {
    Level(x) > 0 && InTree(x, capacity) && Under(l, x)
  }

  // Whatever has the levels and the leaf of a direct path lists exactly the ancestors of that leaf.
  lemma DirectPathIsAncestors(path: seq<nat>, leaf: nat, capacity: nat)
    requires IsCapacity(capacity) && leaf < capacity
    requires |path| == Depth(capacity)
    requires forall i :: 0 <= i < |path| ==>
      Level(path[i]) == 1 + i && InTree(path[i], capacity) && Under(leaf, path[i])
    ensures forall x: nat :: x in path <==> IsAncestor(x, leaf, capacity)
  {
    forall x: nat | IsAncestor(x, leaf, capacity)
      ensures x in path
    {
      InTreeCoordinates(x, Depth(capacity));
      SameLevelSameNode(leaf, x, path[Level(x) - 1]);
    }
  }

  // treekem.subtree_leaves: first leaf number and one past the last.
  function SubtreeLeaves(x: nat): (r: (int, int))
  {
    var k := Level(x);
    var firstNode := x - (Shl(1, k) - 1);
    (firstNode / 2, firstNode / 2 + Shl(1, k))
  }

  lemma {:induction false} NodeClosedForm(k: nat, j: nat)
    ensures Node(k, j) == 2 * (j * Pow2(k)) + Pow2(k) - 1
  {
    if k > 0 {
      NodeClosedForm(k - 1, j);
      DoubleProduct(j, Pow2(k - 1));
    } else {
      assert Pow2(0) == 1;
    }
  }

  lemma SubtreeLeavesAreUnder(x: nat, l: nat)
    ensures SubtreeLeaves(x).0 <= l < SubtreeLeaves(x).1 <==> Under(l, x)
  {
    var k, j := Level(x), Pos(x);
    CoordinatesNode(x);
    NodeClosedForm(k, j);
    ShrRange(l, k, j);
    assert Shl(1, k) == Pow2(k);
    assert SubtreeLeaves(x).0 == j * Pow2(k);
  }

  // ------------------------------------------------------------------ growth

  // treekem.capacity_for: the least power of two that is at least the leaf count.
  method CapacityFor(leafCount: nat) returns (cap: nat)
    ensures IsCapacity(cap) && leafCount <= cap
    ensures forall c: nat :: IsCapacity(c) && leafCount <= c ==> cap <= c
  {
    cap := 1;
    ghost var d: nat := 0;
    while cap < leafCount
      invariant cap == Pow2(d) && IsCapacity(cap)
      invariant forall c: nat :: IsCapacity(c) && leafCount <= c ==> cap <= c
      decreases leafCount - cap
    {
      forall c: nat | IsCapacity(c) && leafCount <= c
        ensures cap * 2 <= c
      {
        var e := Depth(c);
        if e <= d {
          Pow2Monotone(e, d);
        } else {
          Pow2Monotone(d + 1, e);
        }
      }
      cap := cap * 2;
      d := d + 1;
      DepthOfPow2(d);
    }
  }

  // A full tree grows to twice its capacity.
  lemma NextCapacity(capacity: nat, cap: nat)
    requires IsCapacity(capacity) && IsCapacity(cap) && capacity + 1 <= cap
    requires forall c: nat :: IsCapacity(c) && capacity + 1 <= c ==> cap <= c
    ensures cap == 2 * capacity
  {
    var d, e := Depth(capacity), Depth(cap);
    DepthOfPow2(d + 1);
    if e <= d {
      Pow2Monotone(e, d);
    } else {
      Pow2Monotone(d + 1, e);
    }
  }

  // Doubling keeps every node with its leaves and children; the old root becomes the left child of the new one.
  lemma DoublingKeepsSubtrees(capacity: nat)
    requires IsCapacity(capacity)
    ensures IsCapacity(2 * capacity)
    ensures Level(Root(2 * capacity)) > 0 && Left(Root(2 * capacity)) == Root(capacity)
    ensures forall x: nat :: InTree(x, capacity) ==> InTree(x, 2 * capacity)
    ensures forall x: nat, l: nat :: InTree(x, capacity) && Under(l, x) ==> l < capacity
  {
    var d := Depth(capacity);
    DepthOfPow2(d + 1);
    RootCoordinates(d);
    RootCoordinates(d + 1);
    NodeCoordinates(d + 1, 0);
    forall x: nat, l: nat | InTree(x, capacity) && Under(l, x)
      ensures l < capacity
    {
      UnderInTree(l, x, capacity);
    }
  }
}
