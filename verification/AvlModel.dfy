/** The AVL algorithm of the contact tree on values, and what the program promises of it.
    `AvlTree` proves the pointer code against these functions. */
module AvlModel {
  import opened Text
  import opened Contacts

  /** A tree with the height the program stores in each node. */
  datatype Tree = Leaf | Node(left: Tree, data: Contact, right: Tree, height: int)

  function Height(t: Tree): int {
    if t.Leaf? then 0 else t.height
  }

  function Max(a: int, b: int): int {
    if a > b then a else b
  }

  /** A node whose stored height has just been recomputed. */
  function Join(left: Tree, data: Contact, right: Tree): Tree {
    Node(left, data, right, Max(Height(left), Height(right)) + 1)
  }

  function RotateRight(y: Tree): Tree
    requires y.Node? && y.left.Node?
  {
    Join(y.left.left, y.left.data, Join(y.left.right, y.data, y.right))
  }

  function RotateLeft(x: Tree): Tree
    requires x.Node? && x.right.Node?
  {
    Join(Join(x.left, x.data, x.right.left), x.right.data, x.right.right)
  }

  /** `balance` when the left subtree is too high: one rotation, or two. */
  function LoweredLeft(n: Tree): Tree
    requires n.Node? && HeightsExact(n.left) && Height(n.left) > 1
  {
    if Height(n.left.left) >= Height(n.left.right) then RotateRight(n)
    else RotateRight(n.(left := RotateLeft(n.left)))
  }

  /** `balance` when the right subtree is too high. */
  function LoweredRight(n: Tree): Tree
    requires n.Node? && HeightsExact(n.right) && Height(n.right) > 1
  {
    if Height(n.right.right) >= Height(n.right.left) then RotateLeft(n)
    else RotateLeft(n.(right := RotateRight(n.right)))
  }

  function Balance(t: Tree): Tree
    requires t.Node? ==> HeightsExact(t.left) && HeightsExact(t.right)
  {
    if t.Leaf? then Leaf
    else
      var n := Join(t.left, t.data, t.right);
      var bal := Height(t.left) - Height(t.right);
      if bal > 1 then LoweredLeft(n) else if bal < -1 then LoweredRight(n) else n
  }

  function Insert(t: Tree, c: Contact): (r: Tree)
    requires HeightsExact(t)
    ensures HeightsExact(r) && r.Node?
  {
    match t
    case Leaf => Node(Leaf, c, Leaf, 1)
    case Node(l, d, r, h) =>
      var cmp := CompareContact(c, d);
      if cmp == 0 then t
      else
        var n := if cmp < 0 then t.(left := Insert(l, c)) else t.(right := Insert(r, c));
        BalanceExact(n);
        Balance(n)
  }

  function Min(t: Tree): (c: Contact)
    requires t.Node?
    ensures c == InOrder(t)[0]
  {
    if t.left.Leaf? then t.data else Min(t.left)
  }

  function Delete(t: Tree, key: Key): (r: Tree)
    requires HeightsExact(t)
    ensures HeightsExact(r)
  {
    match t
    case Leaf => Leaf
    case Node(l, d, r, h) =>
      var cmp := Compare(key, KeyOf(d));
      if cmp == 0 && (l.Leaf? || r.Leaf?) then
        var child := if l.Node? then l else r;
        BalanceExact(child);
        if child.Leaf? then Leaf else Balance(child)
      else
        var n :=
          if cmp < 0 then t.(left := Delete(l, key))
          else if cmp > 0 then t.(right := Delete(r, key))
          else t.(data := Min(r), right := Delete(r, KeyOf(Min(r))));
        BalanceExact(n);
        Balance(n)
  }

  function Find(t: Tree, key: Key): Option<Contact> {
    match t
    case Leaf => None
    case Node(l, d, r, _) =>
      var cmp := Compare(key, KeyOf(d));
      if cmp < 0 then Find(l, key) else if cmp > 0 then Find(r, key) else Some(d)
  }

  /** The number of calls of `compare_contact` one `find_node` makes. */
  function Comparisons(t: Tree, key: Key): nat {
    match t
    case Leaf => 0
    case Node(l, d, r, _) =>
      var cmp := Compare(key, KeyOf(d));
      1 + if cmp < 0 then Comparisons(l, key) else if cmp > 0 then Comparisons(r, key) else 0
  }

  // ---------- what a valid tree is ----------

  function InOrder(t: Tree): seq<Contact> {
    match t
    case Leaf => []
    case Node(l, d, r, _) => InOrder(l) + [d] + InOrder(r)
  }

  /** The length of the longest path; what the stored height should be. */
  function TrueHeight(t: Tree): nat {
    match t
    case Leaf => 0
    case Node(l, _, r, _) => 1 + Max(TrueHeight(l), TrueHeight(r))
  }

  ghost predicate HeightsExact(t: Tree)
    ensures HeightsExact(t) ==> Height(t) == TrueHeight(t)
  {
    match t
    case Leaf => true
    case Node(l, _, r, h) => h == TrueHeight(t) && HeightsExact(l) && HeightsExact(r)
  }

  ghost predicate Balanced(t: Tree) {
    match t
    case Leaf => true
    case Node(l, _, r, _) => -1 <= TrueHeight(l) - TrueHeight(r) <= 1 && Balanced(l) && Balanced(r)
  }

  ghost predicate Ascending(s: seq<Contact>) {
    forall i, j :: 0 <= i < j < |s| ==> CompareContact(s[i], s[j]) < 0
  }

  ghost predicate Avl(t: Tree) {
    HeightsExact(t) && Balanced(t) && Ascending(InOrder(t))
  }

  // ---------- balance ----------

  lemma BalanceExact(t: Tree)
    requires t.Node? ==> HeightsExact(t.left) && HeightsExact(t.right)
    ensures HeightsExact(Balance(t)) && (t.Node? ==> Balance(t).Node?)
  {
  }

  lemma {:induction false} RotateRightKeepsOrder(y: Tree)
    requires y.Node? && y.left.Node?
    ensures InOrder(RotateRight(y)) == InOrder(y)
  {
    var a, x, b, c := InOrder(y.left.left), y.left.data, InOrder(y.left.right), InOrder(y.right);
    assert InOrder(RotateRight(y)) == a + [x] + (b + [y.data] + c);
    assert InOrder(y) == (a + [x] + b) + [y.data] + c;
  }

  lemma {:induction false} RotateLeftKeepsOrder(x: Tree)
    requires x.Node? && x.right.Node?
    ensures InOrder(RotateLeft(x)) == InOrder(x)
  {
    var a, b, y, c := InOrder(x.left), InOrder(x.right.left), x.right.data, InOrder(x.right.right);
    assert InOrder(RotateLeft(x)) == (a + [x.data] + b) + [y] + c;
    assert InOrder(x) == a + [x.data] + (b + [y] + c);
  }

  lemma {:induction false} BalanceKeepsOrder(t: Tree)
    requires t.Node? ==> HeightsExact(t.left) && HeightsExact(t.right)
    ensures InOrder(Balance(t)) == InOrder(t)
  {
    if t.Node? {
      var n := Join(t.left, t.data, t.right);
      var bal := Height(t.left) - Height(t.right);
      if bal > 1 {
        if Height(t.left.left) >= Height(t.left.right) {
          RotateRightKeepsOrder(n);
        } else {
          RotateLeftKeepsOrder(t.left);
          RotateRightKeepsOrder(n.(left := RotateLeft(t.left)));
        }
      } else if bal < -1 {
        if Height(t.right.right) >= Height(t.right.left) {
          RotateLeftKeepsOrder(n);
        } else {
          RotateRightKeepsOrder(t.right);
          RotateLeftKeepsOrder(n.(right := RotateRight(t.right)));
        }
      }
    }
  }

  lemma {:induction false} RejoinOrder(t: Tree, l: Tree, d: Contact, r: Tree)
    requires t.Node? && HeightsExact(l) && HeightsExact(r)
    ensures InOrder(Balance(t.(left := l, data := d, right := r))) == InOrder(l) + [d] + InOrder(r)
  {
    BalanceKeepsOrder(t.(left := l, data := d, right := r));
  }

  /** Two AVL subtrees joined at heights that differ by at most one. */
  lemma {:induction false} JoinBalanced(l: Tree, d: Contact, r: Tree)
    requires HeightsExact(l) && HeightsExact(r) && Balanced(l) && Balanced(r) && -1 <= Height(l) - Height(r) <= 1
    ensures HeightsExact(Join(l, d, r)) && Balanced(Join(l, d, r))
    ensures Height(Join(l, d, r)) == Max(Height(l), Height(r)) + 1
  {
  }

  lemma {:induction false} Parts(t: Tree)
    requires HeightsExact(t) && Balanced(t)
    ensures Height(t) >= 0 && (t.Leaf? <==> Height(t) == 0)
    ensures t.Node? ==>
      && HeightsExact(t.left) && HeightsExact(t.right) && Balanced(t.left) && Balanced(t.right)
      && -1 <= Height(t.left) - Height(t.right) <= 1 && Height(t) == Max(Height(t.left), Height(t.right)) + 1
      && Height(t.left) >= 0 && Height(t.right) >= 0
  {
  }

  lemma {:induction false} BalanceLeftHeavy(t: Tree)
    requires t.Node?
    requires HeightsExact(t.left) && HeightsExact(t.right) && Balanced(t.left) && Balanced(t.right)
    requires Height(t.left) - Height(t.right) == 2
    ensures HeightsExact(Balance(t)) && Balanced(Balance(t))
    ensures Height(t.left) <= Height(Balance(t)) <= Height(t.left) + 1
  {
    hide HeightsExact, Balanced, TrueHeight;
    var l := t.left;
    Parts(l);
    if Height(l.left) >= Height(l.right) {
      JoinBalanced(l.right, t.data, t.right);
      JoinBalanced(l.left, l.data, Join(l.right, t.data, t.right));
    } else {
      var m := l.right;
      Parts(m);
      JoinBalanced(l.left, l.data, m.left);
      JoinBalanced(m.right, t.data, t.right);
      JoinBalanced(Join(l.left, l.data, m.left), m.data, Join(m.right, t.data, t.right));
    }
  }

  lemma {:induction false} BalanceRightHeavy(t: Tree)
    requires t.Node?
    requires HeightsExact(t.left) && HeightsExact(t.right) && Balanced(t.left) && Balanced(t.right)
    requires Height(t.right) - Height(t.left) == 2
    ensures HeightsExact(Balance(t)) && Balanced(Balance(t))
    ensures Height(t.right) <= Height(Balance(t)) <= Height(t.right) + 1
  {
    hide HeightsExact, Balanced, TrueHeight;
    var r := t.right;
    Parts(r);
    if Height(r.right) >= Height(r.left) {
      JoinBalanced(t.left, t.data, r.left);
      JoinBalanced(Join(t.left, t.data, r.left), r.data, r.right);
    } else {
      var m := r.left;
      Parts(m);
      JoinBalanced(t.left, t.data, m.left);
      JoinBalanced(m.right, r.data, r.right);
      JoinBalanced(Join(t.left, t.data, m.left), m.data, Join(m.right, r.data, r.right));
    }
  }

  /** `balance` repairs a difference of two without touching the in-order sequence; the height
      becomes the larger child's height or one more. */
  lemma {:induction false} BalanceRestores(t: Tree)
    requires t.Node?
    requires HeightsExact(t.left) && HeightsExact(t.right) && Balanced(t.left) && Balanced(t.right)
    requires -2 <= Height(t.left) - Height(t.right) <= 2
    ensures HeightsExact(Balance(t)) && Balanced(Balance(t))
    ensures InOrder(Balance(t)) == InOrder(t)
    ensures var m := Max(Height(t.left), Height(t.right)); m <= Height(Balance(t)) <= m + 1
    ensures -1 <= Height(t.left) - Height(t.right) <= 1 ==>
      Height(Balance(t)) == Max(Height(t.left), Height(t.right)) + 1
  {
    BalanceKeepsOrder(t);
    if Height(t.left) - Height(t.right) == 2 {
      BalanceLeftHeavy(t);
    } else if Height(t.right) - Height(t.left) == 2 {
      BalanceRightHeavy(t);
    } else {
      assert Balance(t) == Join(t.left, t.data, t.right);
    }
  }

  // ---------- insert and delete: one level at a time ----------

  lemma InsertStep(t: Tree, c: Contact)
    requires HeightsExact(t) && t.Node?
    ensures var cmp := CompareContact(c, t.data);
      && (cmp < 0 ==> Insert(t, c) == Balance(t.(left := Insert(t.left, c))))
      && (cmp == 0 ==> Insert(t, c) == t)
      && (cmp > 0 ==> Insert(t, c) == Balance(t.(right := Insert(t.right, c))))
  {
    hide Balance, CompareContact, TrueHeight;
  }

  lemma DeleteStep(t: Tree, key: Key)
    requires HeightsExact(t) && t.Node?
    ensures var cmp := Compare(key, KeyOf(t.data));
      && (cmp < 0 ==> Delete(t, key) == Balance(t.(left := Delete(t.left, key))))
      && (cmp > 0 ==> Delete(t, key) == Balance(t.(right := Delete(t.right, key))))
      && (cmp == 0 && t.left.Node? && t.right.Node? ==>
            var min := Min(t.right);
            Delete(t, key) == Balance(t.(data := min, right := Delete(t.right, KeyOf(min)))))
      && (cmp == 0 && (t.left.Leaf? || t.right.Leaf?) ==>
            var child := if t.left.Node? then t.left else t.right;
            Delete(t, key) == Balance(child))
  {
    hide Compare, KeyOf, TrueHeight, LoweredLeft, LoweredRight, Join;
  }

  // ---------- insert and delete: balance and height ----------

  lemma InsertIsNode(c: Contact)
    ensures Insert(Leaf, c) == Node(Leaf, c, Leaf, 1)
  {
  }

  lemma {:induction false} InsertBalanced(t: Tree, c: Contact)
    requires HeightsExact(t) && Balanced(t)
    ensures Balanced(Insert(t, c))
    ensures Height(t) <= Height(Insert(t, c)) <= Height(t) + 1
  {
    hide Balance, CompareContact, Insert;
    if t.Leaf? {
      InsertIsNode(c);
    } else {
      InsertStep(t, c);
      var cmp := CompareContact(c, t.data);
      if cmp < 0 {
        InsertBalanced(t.left, c);
        BalanceRestores(t.(left := Insert(t.left, c)));
      } else if cmp > 0 {
        InsertBalanced(t.right, c);
        BalanceRestores(t.(right := Insert(t.right, c)));
      }
    }
  }

  lemma {:induction false} DeleteBalanced(t: Tree, key: Key)
    requires HeightsExact(t) && Balanced(t)
    ensures Balanced(Delete(t, key))
    ensures Height(t) - 1 <= Height(Delete(t, key)) <= Height(t)
  {
    hide Balance, Compare, KeyOf, Delete, Min;
    if t.Leaf? {
      DeleteIsLeaf(key);
    } else {
      DeleteStep(t, key);
      var cmp := Compare(key, KeyOf(t.data));
      if cmp < 0 {
        DeleteBalanced(t.left, key);
        BalanceRestores(t.(left := Delete(t.left, key)));
      } else if cmp > 0 {
        DeleteBalanced(t.right, key);
        BalanceRestores(t.(right := Delete(t.right, key)));
      } else if t.left.Node? && t.right.Node? {
        var min := Min(t.right);
        DeleteBalanced(t.right, KeyOf(min));
        BalanceRestores(t.(data := min, right := Delete(t.right, KeyOf(min))));
      } else {
        var child := if t.left.Node? then t.left else t.right;
        if child.Node? {
          BalanceRestores(child);
        } else {
          BalanceLeaf();
        }
      }
    }
  }

  lemma DeleteIsLeaf(key: Key)
    ensures Delete(Leaf, key) == Leaf
  {
  }

  lemma BalanceLeaf()
    ensures Balance(Leaf) == Leaf
  {
  }

  // ---------- insert, delete and find: the in-order sequence ----------

  /** `p` is where `key` is in `s`, or where it would have to go. */
  ghost predicate At(s: seq<Contact>, p: nat, key: Key) {
    && p <= |s|
    && (forall i :: 0 <= i < p ==> Compare(key, KeyOf(s[i])) > 0)
    && (forall i :: p < i < |s| ==> Compare(key, KeyOf(s[i])) < 0)
    && (p < |s| ==> Compare(key, KeyOf(s[p])) <= 0)
  }

  ghost predicate Present(s: seq<Contact>, p: nat, key: Key) {
    p < |s| && KeyOf(s[p]) == key
  }

  ghost function Inserted(s: seq<Contact>, p: nat, c: Contact): seq<Contact>
    requires p <= |s|
  {
    if Present(s, p, KeyOf(c)) then s else s[..p] + [c] + s[p..]
  }

  ghost function Removed(s: seq<Contact>, p: nat, key: Key): seq<Contact> {
    if Present(s, p, key) then s[..p] + s[p + 1..] else s
  }

  lemma {:induction false} Locate(s: seq<Contact>, key: Key) returns (p: nat)
    requires Ascending(s)
    ensures At(s, p, key)
  {
    if s == [] || Compare(key, KeyOf(s[|s| - 1])) > 0 {
      p := |s|;
      forall i | 0 <= i < |s| ensures Compare(key, KeyOf(s[i])) > 0 {
        if i < |s| - 1 {
          BelowLess(key, KeyOf(s[|s| - 1]), KeyOf(s[i]));
        }
      }
    } else {
      var init := s[..|s| - 1];
      p := Locate(init, key);
      if p < |s| - 1 {
        CompareTransitive(key, KeyOf(s[p]), KeyOf(s[|s| - 1]));
      }
      assert forall i :: 0 <= i < |init| ==> init[i] == s[i];
    }
  }

  /** A key above `b` is above everything below `b`. */
  lemma BelowLess(key: Key, b: Key, a: Key)
    requires Compare(key, b) >= 0 && Compare(a, b) < 0
    ensures Compare(key, a) > 0
  {
    CompareAntisymmetric(key, b);
    CompareAntisymmetric(key, a);
    CompareTransitive(a, b, key);
  }

  /** The comparison with the middle element says in which part of a sequence the key's place is. */
  lemma {:induction false} Descend(a: seq<Contact>, d: Contact, b: seq<Contact>, key: Key, p: nat)
    requires At(a + [d] + b, p, key)
    ensures var cmp := Compare(key, KeyOf(d));
      && (cmp < 0 ==> p <= |a| && At(a, p, key))
      && (cmp == 0 ==> p == |a| && KeyOf(d) == key)
      && (cmp > 0 ==> p > |a| && At(b, p - |a| - 1, key))
  {
    var s := a + [d] + b;
    CompareZero(key, KeyOf(d));
    assert s[|a|] == d;
    assert forall i :: 0 <= i < |a| ==> a[i] == s[i];
    assert forall i :: 0 <= i < |b| ==> b[i] == s[|a| + 1 + i];
  }

  lemma {:induction false} AscendingParts(a: seq<Contact>, d: Contact, b: seq<Contact>)
    requires Ascending(a + [d] + b)
    ensures Ascending(a) && Ascending(b)
  {
    var s := a + [d] + b;
    assert forall i :: 0 <= i < |a| ==> a[i] == s[i];
    assert forall i :: 0 <= i < |b| ==> b[i] == s[|a| + 1 + i];
  }

  lemma InsertedLeft(a: seq<Contact>, d: Contact, b: seq<Contact>, p: nat, c: Contact)
    requires p <= |a| && KeyOf(d) != KeyOf(c)
    ensures Inserted(a + [d] + b, p, c) == Inserted(a, p, c) + [d] + b
  {
    hide KeyOf;
    var s := a + [d] + b;
    assert s[p] == if p < |a| then a[p] else d;
    assert s[..p] == a[..p] && s[p..] == a[p..] + [d] + b;
  }

  lemma InsertedRight(a: seq<Contact>, d: Contact, b: seq<Contact>, q: nat, c: Contact)
    requires q <= |b|
    ensures Inserted(a + [d] + b, |a| + 1 + q, c) == a + [d] + Inserted(b, q, c)
  {
    hide KeyOf;
    var s := a + [d] + b;
    var p := |a| + 1 + q;
    assert q < |b| ==> s[p] == b[q];
    assert s[..p] == a + [d] + b[..q] && s[p..] == b[q..];
  }

  lemma RemovedLeft(a: seq<Contact>, d: Contact, b: seq<Contact>, p: nat, key: Key)
    requires p <= |a| && KeyOf(d) != key
    ensures Removed(a + [d] + b, p, key) == Removed(a, p, key) + [d] + b
  {
    hide KeyOf;
    var s := a + [d] + b;
    assert s[p] == if p < |a| then a[p] else d;
    if p < |a| {
      assert s[..p] == a[..p] && s[p + 1..] == a[p + 1..] + [d] + b;
    }
  }

  lemma RemovedRight(a: seq<Contact>, d: Contact, b: seq<Contact>, q: nat, key: Key)
    requires q <= |b|
    ensures Removed(a + [d] + b, |a| + 1 + q, key) == a + [d] + Removed(b, q, key)
  {
    var s := a + [d] + b;
    var p := |a| + 1 + q;
    if q < |b| {
      assert s[p] == b[q];
      assert s[..p] == a + [d] + b[..q] && s[p + 1..] == b[q + 1..];
    }
  }

  lemma RemovedMiddle(a: seq<Contact>, d: Contact, b: seq<Contact>)
    ensures Removed(a + [d] + b, |a|, KeyOf(d)) == a + b
  {
    var s := a + [d] + b;
    assert s[..|a|] == a && s[|a| + 1..] == b;
  }

  lemma AtWithin(s: seq<Contact>, p: nat, key: Key)
    requires At(s, p, key)
    ensures p <= |s|
  {
  }

  lemma LeafPlace(p: nat, key: Key)
    requires At([], p, key)
    ensures p == 0
  {
  }

  lemma {:induction false} InsertInOrder(t: Tree, c: Contact, p: nat)
    requires HeightsExact(t) && At(InOrder(t), p, KeyOf(c))
    ensures InOrder(Insert(t, c)) == Inserted(InOrder(t), p, c)
    decreases t, 1
  {
    hide At, Insert, Compare, KeyOf, Inserted, TrueHeight;
    if t.Leaf? {
      InsertIntoLeaf(c, p);
    } else {
      var a, b := InOrder(t.left), InOrder(t.right);
      Descend(a, t.data, b, KeyOf(c), p);
      var cmp := CompareContact(c, t.data);
      if cmp < 0 {
        InsertInLeft(t, c, p);
      } else if cmp > 0 {
        InsertInRight(t, c, p - |a| - 1);
      } else {
        InsertEqual(t, c);
      }
    }
  }

  lemma InsertIntoLeaf(c: Contact, p: nat)
    requires At([], p, KeyOf(c))
    ensures InOrder(Insert(Leaf, c)) == Inserted(InOrder(Leaf), p, c)
  {
    LeafPlace(p, KeyOf(c));
  }

  lemma InsertEqual(t: Tree, c: Contact)
    requires HeightsExact(t) && t.Node? && CompareContact(c, t.data) == 0 && KeyOf(t.data) == KeyOf(c)
    ensures InOrder(Insert(t, c)) == Inserted(InOrder(t), |InOrder(t.left)|, c)
  {
    assert InOrder(t)[|InOrder(t.left)|] == t.data;
  }

  lemma {:induction false} InsertInLeft(t: Tree, c: Contact, p: nat)
    requires HeightsExact(t) && t.Node? && At(InOrder(t.left), p, KeyOf(c)) && CompareContact(c, t.data) < 0
    ensures InOrder(Insert(t, c)) == Inserted(InOrder(t), p, c)
    decreases t, 0
  {
    hide Balance, Insert, Inserted, At, Compare, KeyOf, TrueHeight;
    InsertStep(t, c);
    InsertInOrder(t.left, c, p);
    RejoinOrder(t, Insert(t.left, c), t.data, t.right);
    CompareZero(KeyOf(c), KeyOf(t.data));
    AtWithin(InOrder(t.left), p, KeyOf(c));
    InsertedLeft(InOrder(t.left), t.data, InOrder(t.right), p, c);
  }

  lemma {:induction false} InsertInRight(t: Tree, c: Contact, q: nat)
    requires HeightsExact(t) && t.Node? && At(InOrder(t.right), q, KeyOf(c)) && CompareContact(c, t.data) > 0
    ensures InOrder(Insert(t, c)) == Inserted(InOrder(t), |InOrder(t.left)| + 1 + q, c)
    decreases t, 0
  {
    hide Balance, Insert, Inserted, At, Compare, KeyOf, TrueHeight;
    InsertStep(t, c);
    InsertInOrder(t.right, c, q);
    RejoinOrder(t, t.left, t.data, Insert(t.right, c));
    AtWithin(InOrder(t.right), q, KeyOf(c));
    InsertedRight(InOrder(t.left), t.data, InOrder(t.right), q, c);
  }

  lemma {:induction false} DeleteInOrder(t: Tree, key: Key, p: nat)
    requires HeightsExact(t) && Ascending(InOrder(t)) && At(InOrder(t), p, key)
    ensures InOrder(Delete(t, key)) == Removed(InOrder(t), p, key)
    decreases t, 2
  {
    hide Delete, At, Ascending, Compare, KeyOf, Removed, TrueHeight;
    if t.Leaf? {
      DeleteFromLeaf(key, p);
    } else {
      var a, b := InOrder(t.left), InOrder(t.right);
      Descend(a, t.data, b, key, p);
      AscendingParts(a, t.data, b);
      var cmp := Compare(key, KeyOf(t.data));
      if cmp < 0 {
        DeleteInLeft(t, key, p);
      } else if cmp > 0 {
        DeleteInRight(t, key, p - |a| - 1);
      } else {
        RemovedMiddle(a, t.data, b);
        if t.left.Node? && t.right.Node? {
          DeleteRootFull(t, key);
        } else {
          DeleteRootShort(t, key);
        }
      }
    }
  }

  lemma DeleteFromLeaf(key: Key, p: nat)
    ensures InOrder(Delete(Leaf, key)) == Removed(InOrder(Leaf), p, key)
  {
  }

  lemma {:induction false} DeleteInLeft(t: Tree, key: Key, p: nat)
    requires HeightsExact(t) && t.Node? && Ascending(InOrder(t.left)) && At(InOrder(t.left), p, key)
    requires Compare(key, KeyOf(t.data)) < 0
    ensures InOrder(Delete(t, key)) == Removed(InOrder(t), p, key)
    decreases t, 0
  {
    hide Balance, Delete, Removed, At, Ascending, Compare, KeyOf, TrueHeight;
    DeleteStep(t, key);
    DeleteInOrder(t.left, key, p);
    RejoinOrder(t, Delete(t.left, key), t.data, t.right);
    CompareZero(key, KeyOf(t.data));
    AtWithin(InOrder(t.left), p, key);
    RemovedLeft(InOrder(t.left), t.data, InOrder(t.right), p, key);
  }

  lemma {:induction false} DeleteInRight(t: Tree, key: Key, q: nat)
    requires HeightsExact(t) && t.Node? && Ascending(InOrder(t.right)) && At(InOrder(t.right), q, key)
    requires Compare(key, KeyOf(t.data)) > 0
    ensures InOrder(Delete(t, key)) == Removed(InOrder(t), |InOrder(t.left)| + 1 + q, key)
    decreases t, 0
  {
    hide Balance, Delete, Removed, At, Ascending, Compare, KeyOf, TrueHeight;
    DeleteStep(t, key);
    DeleteInOrder(t.right, key, q);
    RejoinOrder(t, t.left, t.data, Delete(t.right, key));
    AtWithin(InOrder(t.right), q, key);
    RemovedRight(InOrder(t.left), t.data, InOrder(t.right), q, key);
  }

  /** Deleting the root's own contact when it has at most one child, which takes its place. */
  lemma {:induction false} DeleteRootShort(t: Tree, key: Key)
    requires HeightsExact(t) && t.Node? && Compare(key, KeyOf(t.data)) == 0
    requires t.left.Leaf? || t.right.Leaf?
    ensures InOrder(Delete(t, key)) == InOrder(t.left) + InOrder(t.right)
  {
    hide Balance, Delete, Compare, KeyOf, TrueHeight;
    DeleteStep(t, key);
    var child := if t.left.Node? then t.left else t.right;
    BalanceKeepsOrder(child);
    assert InOrder(child) == InOrder(t.left) + InOrder(t.right);
  }

  /** Deleting the root's own contact when it has two children: the successor takes its place. */
  lemma {:induction false} DeleteRootFull(t: Tree, key: Key)
    requires HeightsExact(t) && t.Node? && Ascending(InOrder(t.right)) && Compare(key, KeyOf(t.data)) == 0
    requires t.left.Node? && t.right.Node?
    ensures InOrder(Delete(t, key)) == InOrder(t.left) + InOrder(t.right)
    decreases t, 0
  {
    hide Balance, Delete, Ascending, Compare, KeyOf, TrueHeight;
    DeleteStep(t, key);
    var min := Min(t.right);
    var r := Delete(t.right, KeyOf(min));
    DeleteMin(t.right);
    RejoinOrder(t, t.left, min, r);
    assert InOrder(t.left) + [min] + InOrder(r) == InOrder(t.left) + InOrder(t.right);
  }

  lemma {:induction false} DeleteMin(t: Tree)
    requires HeightsExact(t) && t.Node? && Ascending(InOrder(t))
    ensures [Min(t)] + InOrder(Delete(t, KeyOf(Min(t)))) == InOrder(t)
    decreases t, 3
  {
    hide Balance, Delete;
    FirstAt(InOrder(t));
    DeleteInOrder(t, KeyOf(Min(t)), 0);
  }

  lemma FirstAt(s: seq<Contact>)
    requires s != [] && Ascending(s)
    ensures At(s, 0, KeyOf(s[0]))
  {
    CompareZero(KeyOf(s[0]), KeyOf(s[0]));
  }

  lemma {:induction false} FindInOrder(t: Tree, key: Key, p: nat)
    requires At(InOrder(t), p, key)
    ensures Find(t, key) == if Present(InOrder(t), p, key) then Some(InOrder(t)[p]) else None
  {
    if t.Node? {
      var a, b := InOrder(t.left), InOrder(t.right);
      Descend(a, t.data, b, key, p);
      CompareZero(key, KeyOf(t.data));
      var cmp := Compare(key, KeyOf(t.data));
      assert InOrder(t)[|a|] == t.data;
      if cmp < 0 {
        FindInOrder(t.left, key, p);
      } else if cmp > 0 {
        FindInOrder(t.right, key, p - |a| - 1);
      }
    }
  }

  lemma InsertedAscending(s: seq<Contact>, p: nat, c: Contact)
    requires Ascending(s) && At(s, p, KeyOf(c))
    ensures Ascending(Inserted(s, p, c))
  {
    CompareZero(KeyOf(c), if p < |s| then KeyOf(s[p]) else KeyOf(c));
    forall i | 0 <= i < |s| ensures Compare(KeyOf(s[i]), KeyOf(c)) == -Compare(KeyOf(c), KeyOf(s[i])) {
      CompareAntisymmetric(KeyOf(s[i]), KeyOf(c));
    }
    var r := Inserted(s, p, c);
    if !Present(s, p, KeyOf(c)) {
      forall i, j | 0 <= i < j < |r| ensures CompareContact(r[i], r[j]) < 0 {
        assert r[i] == if i < p then s[i] else if i == p then c else s[i - 1];
        assert r[j] == if j < p then s[j] else if j == p then c else s[j - 1];
      }
    }
  }

  // ---------- the tree as a map from key to contact ----------

  ghost function MapOf(s: seq<Contact>): map<Key, Contact> {
    if s == [] then map[] else MapOf(s[1..])[KeyOf(s[0]) := s[0]]
  }

  ghost function Contents(t: Tree): map<Key, Contact> {
    MapOf(InOrder(t))
  }

  lemma {:induction false} MapOfAt(s: seq<Contact>, key: Key, p: nat)
    requires At(s, p, key)
    ensures key in MapOf(s) <==> Present(s, p, key)
    ensures Present(s, p, key) ==> MapOf(s)[key] == s[p]
  {
    if s != [] {
      CompareZero(key, KeyOf(s[0]));
      if p > 0 {
        MapOfAt(s[1..], key, p - 1);
      } else if KeyOf(s[0]) != key {
        NotBelow(s, key);
      }
    }
  }

  lemma {:induction false} NotBelow(s: seq<Contact>, key: Key)
    requires forall i :: 0 <= i < |s| ==> Compare(key, KeyOf(s[i])) < 0
    ensures key !in MapOf(s)
  {
    if s != [] {
      CompareZero(key, KeyOf(s[0]));
      NotBelow(s[1..], key);
    }
  }
}
