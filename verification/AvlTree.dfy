/** The contact tree as the program keeps it: nodes on the heap, changed in place. */
module AvlTree {
  import opened Text
  import opened Contacts
  import opened AvlModel
  import AvlTheorems

  class TreeNode {
    var data: Contact
    var left: TreeNode?
    var right: TreeNode?
    var height: int

    constructor (c: Contact)
      ensures data == c && left == null && right == null && height == 1
    {
      data, left, right, height := c, null, null, 1;
    }
  }

  // ---------- which nodes form which tree ----------

  /** A tree together with the heap nodes that hold it. */
  datatype Shape = Nil | Cell(node: TreeNode, left: Shape, data: Contact, right: Shape, height: int)

  /** The tree without the nodes. */
  ghost function Erase(t: Shape): Tree {
    match t
    case Nil => Leaf
    case Cell(_, l, d, r, h) => Node(Erase(l), d, Erase(r), h)
  }

  ghost function Nodes(t: Shape): set<TreeNode> {
    match t
    case Nil => {}
    case Cell(n, l, _, r, _) => {n} + Nodes(l) + Nodes(r)
  }

  /** No node is used twice, so there are no cycles and no sharing. */
  ghost predicate Distinct(t: Shape) {
    match t
    case Nil => true
    case Cell(n, l, _, r, _) =>
      n !in Nodes(l) && n !in Nodes(r) && Nodes(l) !! Nodes(r) && Distinct(l) && Distinct(r)
  }

  ghost function Root(t: Shape): TreeNode? {
    match t
    case Nil => null
    case Cell(n, _, _, _, _) => n
  }

  /** Every node holds what `t` says of it. */
  ghost predicate Stored(t: Shape)
    reads Nodes(t)
    decreases t
  {
    match t
    case Nil => true
    case Cell(n, l, d, r, h) =>
      && n.data == d && n.height == h && n.left == Root(l) && n.right == Root(r)
      && Stored(l) && Stored(r)
  }

  /** The heap below `n` is exactly the tree `t`. */
  ghost predicate Owns(n: TreeNode?, t: Shape)
    reads Nodes(t)
  {
    n == Root(t) && Stored(t) && Distinct(t)
  }

  /** The stored height, 0 for the empty tree. */
  function HeightOf(n: TreeNode?): int
    reads n
  {
    if n == null then 0 else n.height
  }

  // ---------- rotations and balance ----------

  /** A stored height is the height of the tree stored there. */
  lemma HeightStored(n: TreeNode?, t: Shape)
    requires n == Root(t) && Stored(t)
    ensures HeightOf(n) == Height(Erase(t))
  {
  }

  /** The parts of a tree, joined the other way round over the same two nodes. */
  lemma RotatedRight(t: Shape, u: Shape)
    requires t.Cell? && t.left.Cell? && Distinct(t)
    requires u.Cell? && u.node == t.left.node && u.left == t.left.left && u.data == t.left.data
    requires u.right.Cell? && u.right.node == t.node && u.right.left == t.left.right
    requires u.right.data == t.data && u.right.right == t.right
    requires u.right.height == Max(Height(Erase(t.left.right)), Height(Erase(t.right))) + 1
    requires u.height == Max(Height(Erase(t.left.left)), u.right.height) + 1
    ensures Nodes(u) == Nodes(t) && Distinct(u)
    ensures Erase(t).Node? && Erase(t).left.Node? && Erase(u) == RotateRight(Erase(t))
  {
    hide Distinct, Nodes, Erase;
    Apart(t);
    Apart(t.left);
    Relinked(t);
    Relinked(t.left);
    Relinked(u.right);
    Relinked(u);
    ErasedCell(t);
    ErasedCell(t.left);
    ErasedCell(u.right);
    ErasedCell(u);
  }

  lemma RotatedLeft(t: Shape, u: Shape)
    requires t.Cell? && t.right.Cell? && Distinct(t)
    requires u.Cell? && u.node == t.right.node && u.right == t.right.right && u.data == t.right.data
    requires u.left.Cell? && u.left.node == t.node && u.left.right == t.right.left
    requires u.left.data == t.data && u.left.left == t.left
    requires u.left.height == Max(Height(Erase(t.left)), Height(Erase(t.right.left))) + 1
    requires u.height == Max(u.left.height, Height(Erase(t.right.right))) + 1
    ensures Nodes(u) == Nodes(t) && Distinct(u)
    ensures Erase(t).Node? && Erase(t).right.Node? && Erase(u) == RotateLeft(Erase(t))
  {
    hide Distinct, Nodes, Erase;
    Apart(t);
    Apart(t.right);
    Relinked(t);
    Relinked(t.right);
    Relinked(u.left);
    Relinked(u);
    ErasedCell(t);
    ErasedCell(t.right);
    ErasedCell(u.left);
    ErasedCell(u);
  }

  /** The node of a tree is not among the nodes of its subtrees. */
  lemma Apart(t: Shape)
    requires t.Cell? && Distinct(t)
    ensures t.node in Nodes(t) && t.node !in Nodes(t.left) && t.node !in Nodes(t.right)
    ensures Nodes(t.left) !! Nodes(t.right) && Nodes(t.left) <= Nodes(t) && Nodes(t.right) <= Nodes(t)
    ensures Distinct(t.left) && Distinct(t.right)
  {
  }

  lemma HeightOfLeaf()
    ensures Height(Leaf) == 0
  {
  }

  /** A tree whose height is more than that of some other, which is never negative, is not empty. */
  lemma HigherIsCell(t: Shape)
    ensures HeightsExact(Erase(t)) ==> Height(Erase(t)) >= 0 && (Height(Erase(t)) > 0 <==> t.Cell?)
  {
  }

  lemma ErasedLeaf()
    ensures Erase(Nil) == Leaf
  {
  }

  lemma ErasedCell(t: Shape)
    requires t.Cell?
    ensures Erase(t) == Node(Erase(t.left), t.data, Erase(t.right), t.height)
  {
  }

  lemma ErasedRoot(t: Shape)
    ensures Erase(t).Node? <==> t.Cell?
  {
  }

  /** The tree and its subtrees, without the nodes, and their heights. */
  lemma Erased(t: Shape)
    requires t.Cell? && HeightsExact(Erase(t))
    ensures Erase(t) == Node(Erase(t.left), t.data, Erase(t.right), t.height)
    ensures HeightsExact(Erase(t.left)) && HeightsExact(Erase(t.right))
  {
  }

  lemma NoNodes()
    ensures Nodes(Nil) == {} && Distinct(Nil)
  {
  }

  /** A node with other subtrees, none of which holds the node or shares one with the other. */
  lemma Relinked(t: Shape)
    requires t.Cell? && Distinct(t.left) && Distinct(t.right) && Nodes(t.left) !! Nodes(t.right)
    requires t.node !in Nodes(t.left) && t.node !in Nodes(t.right)
    ensures Distinct(t) && Nodes(t) == {t.node} + Nodes(t.left) + Nodes(t.right)
  {
  }

  method RotateRightNode(y: TreeNode, ghost t: Shape) returns (x: TreeNode, ghost u: Shape)
    requires Owns(y, t) && y.left != null
    modifies Nodes(t)
    ensures Owns(x, u) && Nodes(u) == Nodes(t)
    ensures Erase(t).left.Node? && Erase(u) == RotateRight(Erase(t))
  {
    hide Distinct, Erase, Nodes;
    ghost var a, b, c := t.left.left, t.left.right, t.right;
    Apart(t);
    Apart(t.left);
    assert allocated(Nodes(a)) && allocated(Nodes(b)) && allocated(Nodes(c));
    assert Stored(t.left) && Stored(a) && Stored(b) && Stored(c);
    x := y.left;
    var t2 := x.right;
    x.right := y;
    y.left := t2;
    assert Stored(a) && Stored(b) && Stored(c);
    y.height := Max(HeightOf(y.left), HeightOf(y.right)) + 1;
    assert Stored(a) && Stored(b) && Stored(c);
    x.height := Max(HeightOf(x.left), HeightOf(x.right)) + 1;
    assert Stored(a) && Stored(b) && Stored(c);
    u := Cell(x, a, x.data, Cell(y, b, y.data, c, y.height), x.height);
    HeightStored(y.left, b);
    HeightStored(y.right, c);
    HeightStored(x.left, a);
    RotatedRight(t, u);
    assert Stored(u.right);
  }

  method RotateLeftNode(x: TreeNode, ghost t: Shape) returns (y: TreeNode, ghost u: Shape)
    requires Owns(x, t) && x.right != null
    modifies Nodes(t)
    ensures Owns(y, u) && Nodes(u) == Nodes(t)
    ensures Erase(t).right.Node? && Erase(u) == RotateLeft(Erase(t))
  {
    hide Distinct, Erase, Nodes;
    ghost var a, b, c := t.left, t.right.left, t.right.right;
    Apart(t);
    Apart(t.right);
    assert allocated(Nodes(a)) && allocated(Nodes(b)) && allocated(Nodes(c));
    assert Stored(t.right) && Stored(a) && Stored(b) && Stored(c);
    y := x.right;
    var t2 := y.left;
    y.left := x;
    x.right := t2;
    assert Stored(a) && Stored(b) && Stored(c);
    x.height := Max(HeightOf(x.left), HeightOf(x.right)) + 1;
    assert Stored(a) && Stored(b) && Stored(c);
    y.height := Max(HeightOf(y.left), HeightOf(y.right)) + 1;
    assert Stored(a) && Stored(b) && Stored(c);
    u := Cell(y, Cell(x, a, x.data, b, x.height), y.data, c, y.height);
    HeightStored(x.left, a);
    HeightStored(x.right, b);
    HeightStored(y.right, c);
    RotatedLeft(t, u);
    assert Stored(u.left);
  }

  /** The branch of `balance` for a left subtree that is too high. */
  method LowerLeft(node: TreeNode, ghost t: Shape) returns (r: TreeNode, ghost u: Shape)
    requires Owns(node, t) && t.Cell? && HeightsExact(Erase(t.left)) && Height(Erase(t.left)) > 1
    modifies Nodes(t)
    ensures Owns(r, u) && Nodes(u) == Nodes(t)
    ensures Erase(u) == LoweredLeft(Erase(t))
  {
    hide Distinct, Nodes, Erase, RotateLeft, RotateRight, HeightsExact;
    ErasedCell(t);
    ErasedRoot(t.left);
    HeightOfLeaf();
    Apart(t);
    Erased(t.left);
    assert t.left.Cell? && Stored(t.left);
    HeightStored(node.left.left, t.left.left);
    HeightStored(node.left.right, t.left.right);
    assert Stored(t.right) && allocated(Nodes(t.right));
    if HeightOf(node.left.left) >= HeightOf(node.left.right) {
      r, u := RotateRightNode(node, t);
    } else {
      ghost var a;
      HigherIsCell(t.left.right);
      node.left, a := RotateLeftNode(node.left, t.left);
      assert Stored(a) && Stored(t.right);
      Relinked(t);
      Relinked(t.(left := a));
      ErasedCell(t.(left := a));
      r, u := RotateRightNode(node, t.(left := a));
    }
  }

  /** The branch of `balance` for a right subtree that is too high. */
  method LowerRight(node: TreeNode, ghost t: Shape) returns (r: TreeNode, ghost u: Shape)
    requires Owns(node, t) && t.Cell? && HeightsExact(Erase(t.right)) && Height(Erase(t.right)) > 1
    modifies Nodes(t)
    ensures Owns(r, u) && Nodes(u) == Nodes(t)
    ensures Erase(u) == LoweredRight(Erase(t))
  {
    hide Distinct, Nodes, Erase, RotateLeft, RotateRight, HeightsExact;
    ErasedCell(t);
    ErasedRoot(t.right);
    HeightOfLeaf();
    Apart(t);
    Erased(t.right);
    assert t.right.Cell? && Stored(t.right);
    HeightStored(node.right.left, t.right.left);
    HeightStored(node.right.right, t.right.right);
    assert Stored(t.left) && allocated(Nodes(t.left));
    if HeightOf(node.right.right) >= HeightOf(node.right.left) {
      r, u := RotateLeftNode(node, t);
    } else {
      ghost var b;
      HigherIsCell(t.right.left);
      node.right, b := RotateRightNode(node.right, t.right);
      assert Stored(b) && Stored(t.left);
      Relinked(t);
      Relinked(t.(right := b));
      ErasedCell(t.(right := b));
      r, u := RotateLeftNode(node, t.(right := b));
    }
  }

  method BalanceNode(node: TreeNode?, ghost t: Shape) returns (r: TreeNode?, ghost u: Shape)
    requires Owns(node, t)
    requires t.Cell? ==> HeightsExact(Erase(t.left)) && HeightsExact(Erase(t.right))
    modifies Nodes(t)
    ensures Owns(r, u) && Nodes(u) == Nodes(t)
    ensures Erase(u) == Balance(Erase(t))
  {
    hide Distinct, Nodes, HeightsExact, Erase, LoweredLeft, LoweredRight;
    NoNodes();
    ErasedLeaf();
    if node == null { return null, Nil; }
    Apart(t);
    ErasedCell(t);
    HeightStored(node.left, t.left);
    HeightStored(node.right, t.right);
    assert allocated(Nodes(t.left)) && allocated(Nodes(t.right));
    node.height := Max(HeightOf(node.left), HeightOf(node.right)) + 1;
    u := t.(height := node.height);
    Relinked(t);
    Relinked(u);
    ErasedCell(u);
    assert Stored(t.left) && Stored(t.right);
    var bal := HeightOf(node.left) - HeightOf(node.right);
    if bal > 1 {
      r, u := LowerLeft(node, u);
    } else if bal < -1 {
      r, u := LowerRight(node, u);
    } else {
      r := node;
    }
  }

  // ---------- insert, find and delete ----------

  /** A tree has one node for each contact. */
  lemma {:induction false} NodeCount(t: Shape)
    requires Distinct(t)
    ensures |Nodes(t)| == |InOrder(Erase(t))|
  {
    if t.Cell? {
      NodeCount(t.left);
      NodeCount(t.right);
      assert Nodes(t) == {t.node} + (Nodes(t.left) + Nodes(t.right));
      assert |Nodes(t.left) + Nodes(t.right)| == |Nodes(t.left)| + |Nodes(t.right)|;
    }
  }

  /** In an ordered tree an insertion adds one node, or none if the key is there. */
  ghost predicate OneAdded(t: Shape, u: Shape, c: Contact) {
    Ascending(InOrder(Erase(t))) ==> |Nodes(u)| == |Nodes(t)| + if Find(Erase(t), KeyOf(c)).Some? then 0 else 1
  }

  /** In an ordered tree a deletion takes one node out, or none if the key is missing. */
  ghost predicate OneFreed(t: Shape, u: Shape, key: Key) {
    Ascending(InOrder(Erase(t))) ==> |Nodes(u)| == |Nodes(t)| - if Find(Erase(t), key).Some? then 1 else 0
  }

  lemma CountAdded(t: Shape, u: Shape, c: Contact)
    requires Distinct(t) && Distinct(u) && HeightsExact(Erase(t)) && Erase(u) == Insert(Erase(t), c)
    ensures OneAdded(t, u, c)
  {
    hide Insert, Erase, Distinct, Nodes, InOrder, Find, Ascending, HeightsExact;
    NodeCount(t);
    NodeCount(u);
    if Ascending(InOrder(Erase(t))) {
      AvlTheorems.SizeAfterInsert(Erase(t), c);
    }
  }

  lemma CountDeleted(t: Shape, u: Shape, key: Key)
    requires Distinct(t) && Distinct(u) && HeightsExact(Erase(t)) && Erase(u) == Delete(Erase(t), key)
    ensures OneFreed(t, u, key)
  {
    hide Delete, Erase, Distinct, Nodes, InOrder, Find, Ascending, HeightsExact;
    NodeCount(t);
    NodeCount(u);
    if Ascending(InOrder(Erase(t))) {
      AvlTheorems.SizeAfterDelete(Erase(t), key);
    }
  }

  lemma FoundAtRoot(t: Shape, key: Key)
    requires t.Cell? && Compare(key, KeyOf(t.data)) == 0
    ensures Find(Erase(t), key).Some?
  {
  }

  method InsertNode(node: TreeNode?, c: Contact, ghost t: Shape) returns (r: TreeNode, ghost u: Shape)
    requires Owns(node, t) && HeightsExact(Erase(t))
    modifies Nodes(t)
    ensures Owns(r, u) && fresh(Nodes(u) - Nodes(t))
    ensures Erase(u) == Insert(Erase(t), c)
    ensures OneAdded(t, u, c)
    decreases t
  {
    hide Balance, Distinct, Nodes, CompareContact, Insert, HeightsExact, Erase, OneAdded;
    if node == null {
      InsertIsNode(c);
      r := new TreeNode(c);
      u := Cell(r, Nil, c, Nil, 1);
      NoNodes();
      Relinked(u);
      ErasedLeaf();
      ErasedCell(u);
      CountAdded(t, u, c);
      return;
    }
    Apart(t);
    Erased(t);
    InsertStep(Erase(t), c);
    assert allocated(Nodes(t.left)) && allocated(Nodes(t.right));
    var cmp := CompareContact(c, node.data);
    if cmp == 0 {
      CountAdded(t, t, c);
      return node, t;
    }
    ghost var v;
    if cmp < 0 {
      node.left, v := InsertNode(node.left, c, t.left);
      assert Stored(v) && Stored(t.right);
      v := t.(left := v);
    } else {
      node.right, v := InsertNode(node.right, c, t.right);
      assert Stored(v) && Stored(t.left);
      v := t.(right := v);
    }
    Relinked(v);
    ErasedCell(v);
    var b;
    b, u := BalanceNode(node, v);
    ErasedRoot(u);
    CountAdded(t, u, c);
    r := b;
  }

  /** The node of a key, or null, and the number of calls of `compare_contact` it took. */
  function FindNode(node: TreeNode?, key: Key, ghost t: Shape): (r: (TreeNode?, nat))
    requires Owns(node, t)
    reads Nodes(t)
    ensures Find(Erase(t), key) == if r.0 == null then None else Some(r.0.data)
    ensures r.0 != null ==> r.0 in Nodes(t) && KeyOf(r.0.data) == key
    ensures r.1 == Comparisons(Erase(t), key)
    decreases t
  {
    if node == null then (null, 0)
    else
      var cmp := Compare(key, KeyOf(node.data));
      CompareZero(key, KeyOf(node.data));
      if cmp < 0 then
        var (found, calls) := FindNode(node.left, key, t.left);
        (found, calls + 1)
      else if cmp > 0 then
        var (found, calls) := FindNode(node.right, key, t.right);
        (found, calls + 1)
      else (node, 1)
  }

  method FindMin(node: TreeNode, ghost t: Shape) returns (min: TreeNode)
    requires Owns(node, t)
    ensures min in Nodes(t) && min.data == Min(Erase(t))
  {
    min := node;
    ghost var u := t;
    while min.left != null
      invariant Owns(min, u) && u.Cell? && Nodes(u) <= Nodes(t)
      invariant Min(Erase(u)) == Min(Erase(t))
      decreases u
    {
      min, u := min.left, u.left;
    }
  }

  method DeleteNode(node: TreeNode?, key: Key, ghost t: Shape) returns (r: TreeNode?, ghost u: Shape)
    requires Owns(node, t) && HeightsExact(Erase(t))
    modifies Nodes(t)
    ensures Owns(r, u) && Nodes(u) <= Nodes(t)
    ensures Erase(u) == Delete(Erase(t), key)
    ensures OneFreed(t, u, key)
    decreases t, 1
  {
    hide Balance, Distinct, Nodes, Compare, Delete, HeightsExact, Erase, OneFreed;
    NoNodes();
    ErasedLeaf();
    DeleteIsLeaf(key);
    if node == null {
      CountDeleted(t, Nil, key);
      return null, Nil;
    }
    Apart(t);
    Erased(t);
    DeleteStep(Erase(t), key);
    assert allocated(Nodes(t.left)) && allocated(Nodes(t.right));
    assert Stored(t.left) && Stored(t.right);
    var cmp := Compare(key, KeyOf(node.data));
    if cmp == 0 {
      r, u := DeleteHere(node, key, t);
      CountDeleted(t, u, key);
      return;
    }
    ghost var v;
    if cmp < 0 {
      node.left, v := DeleteNode(node.left, key, t.left);
      assert Stored(v) && Stored(t.right);
      v := t.(left := v);
    } else {
      node.right, v := DeleteNode(node.right, key, t.right);
      assert Stored(v) && Stored(t.left);
      v := t.(right := v);
    }
    Relinked(v);
    ErasedCell(v);
    r, u := BalanceNode(node, v);
    CountDeleted(t, u, key);
  }

  /** The branch of `delete_node` for the node that has the key. */
  method DeleteHere(node: TreeNode, key: Key, ghost t: Shape) returns (r: TreeNode?, ghost u: Shape)
    requires Owns(node, t) && HeightsExact(Erase(t)) && Compare(key, KeyOf(node.data)) == 0
    modifies Nodes(t)
    ensures Owns(r, u) && Nodes(u) <= Nodes(t)
    ensures Erase(u) == Delete(Erase(t), key)
    ensures Find(Erase(t), key).Some? && OneFreed(t, u, key)
    decreases t, 0
  {
    hide Balance, Distinct, Nodes, Compare, Delete, HeightsExact, Erase, Min, OneFreed;
    FoundAtRoot(t, key);
    Apart(t);
    NoNodes();
    Erased(t);
    ErasedRoot(t.left);
    ErasedRoot(t.right);
    DeleteStep(Erase(t), key);
    assert allocated(Nodes(t.left)) && allocated(Nodes(t.right));
    assert Stored(t.left) && Stored(t.right);
    ghost var v;
    if node.left == null || node.right == null {
      var child := if node.left != null then node.left else node.right;
      v := if node.left != null then t.left else t.right;
      if child == null {
        ErasedLeaf();
        BalanceLeaf();
        CountDeleted(t, Nil, key);
        return null, Nil;
      }
      Erased(v);
      v := CopyChild(node, child, v);
    } else {
      var min := FindMin(node.right, t.right);
      node.data := min.data;
      assert Stored(t.left) && Stored(t.right);
      node.right, v := DeleteNode(node.right, KeyOf(min.data), t.right);
      assert Stored(v) && Stored(t.left);
      v := t.(data := node.data, right := v);
      Relinked(v);
    }
    ErasedCell(v);
    r, u := BalanceNode(node, v);
    CountDeleted(t, u, key);
  }

  /** Line 147: the node is overwritten by its only child. */
  method CopyChild(node: TreeNode, child: TreeNode, ghost t: Shape) returns (ghost u: Shape)
    requires Owns(child, t) && node !in Nodes(t)
    modifies node
    ensures Owns(node, u) && u == t.(node := node) && Nodes(u) <= {node} + Nodes(t)
  {
    hide Distinct, Nodes;
    Apart(t);
    assert allocated(Nodes(t.left)) && allocated(Nodes(t.right));
    assert Stored(t.left) && Stored(t.right);
    node.data, node.left, node.right, node.height := child.data, child.left, child.right, child.height;
    assert Stored(t.left) && Stored(t.right);
    u := t.(node := node);
    Relinked(u);
    Relinked(t);
  }

  /** The contacts in the order `inorder` prints them. */
  function Walk(node: TreeNode?, ghost t: Shape): (lines: seq<Contact>)
    requires Owns(node, t)
    reads Nodes(t)
    ensures lines == InOrder(Erase(t))
    decreases t
  {
    if node == null then [] else Walk(node.left, t.left) + [node.data] + Walk(node.right, t.right)
  }

  // ---------- the program's tree ----------

  /** The global `root`, with what the calls `root = insert_node(root, c)` and
      `root = delete_node(root, ...)` do to it. */
  class ContactTree {
    var root: TreeNode?
    ghost var shape: Shape

    ghost predicate Valid()
      reads this, Nodes(shape)
    {
      Owns(root, shape) && Avl(Erase(shape))
    }

    ghost function Entries(): map<Key, Contact>
      reads this
    {
      Contents(Erase(shape))
    }

    constructor ()
      ensures Valid() && Entries() == map[] && shape == Nil
    {
      root, shape := null, Nil;
    }

    method Add(c: Contact)
      requires Valid()
      modifies this, Nodes(shape)
      ensures Valid() && fresh(Nodes(shape) - old(Nodes(shape)))
      ensures Entries() ==
        if KeyOf(c) in old(Entries()) then old(Entries()) else old(Entries())[KeyOf(c) := c]
      ensures |Nodes(shape)| == |old(Nodes(shape))| + if KeyOf(c) in old(Entries()) then 0 else 1
      ensures old(HeightOf(root)) <= HeightOf(root) <= old(HeightOf(root)) + 1
    {
      hide Insert, Avl, Contents, Find, Nodes, Distinct, InOrder, Ascending, HeightsExact;
      AvlTheorems.InsertCorrect(Erase(shape), c);
      AvlTheorems.FindCorrect(Erase(shape), KeyOf(c));
      ghost var u;
      AvlIsExact(Erase(shape));
      root, u := InsertNode(root, c, shape);
      shape := u;
    }

    method Remove(key: Key)
      requires Valid()
      modifies this, Nodes(shape)
      ensures Valid() && Nodes(shape) <= old(Nodes(shape))
      ensures Entries() == old(Entries()) - {key}
      ensures |Nodes(shape)| == |old(Nodes(shape))| - if key in old(Entries()) then 1 else 0
      ensures old(HeightOf(root)) - 1 <= HeightOf(root) <= old(HeightOf(root))
    {
      hide Delete, Avl, Contents, Find, Nodes, Distinct, InOrder, Ascending, HeightsExact;
      AvlTheorems.DeleteCorrect(Erase(shape), key);
      AvlTheorems.FindCorrect(Erase(shape), key);
      ghost var u;
      AvlIsExact(Erase(shape));
      root, u := DeleteNode(root, key, shape);
      shape := u;
    }

    /** `calls` counts the comparisons: at most about twice the logarithm of the number of contacts. */
    method Search(key: Key) returns (r: TreeNode?, calls: nat)
      requires Valid()
      ensures r == null <==> key !in Entries()
      ensures r != null ==> r in Nodes(shape) && r.data == Entries()[key]
      ensures AvlTheorems.Pow2(calls / 2) <= |Entries()| + 1
    {
      hide Avl, Contents, Comparisons;
      AvlTheorems.FindCorrect(Erase(shape), key);
      AvlTheorems.ComparisonsAreFew(Erase(shape), key);
      var found := FindNode(root, key, shape);
      r, calls := found.0, found.1;
    }

    method List() returns (lines: seq<Contact>)
      requires Valid()
      ensures forall i, j :: 0 <= i < j < |lines| ==> ComesBefore(lines[i], lines[j])
      ensures forall c :: c in lines <==> AvlTheorems.Lookup(Entries(), KeyOf(c)) == Some(c)
    {
      lines := Walk(root, shape);
      AvlTheorems.AscendingIsOrder(lines);
      forall c ensures c in lines <==> AvlTheorems.Lookup(Entries(), KeyOf(c)) == Some(c) {
        AvlTheorems.ListedIffFound(lines, c);
      }
    }
  }

  lemma AvlIsExact(t: Tree)
    requires Avl(t)
    ensures HeightsExact(t) && Ascending(InOrder(t))
  {
  }
}
