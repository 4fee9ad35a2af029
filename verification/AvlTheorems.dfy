/** What the AVL contact tree is for: over any run it is a map from (surname, name) to contact,
    listed in order, and a search in it takes logarithmically many comparisons. */
module AvlTheorems {
  import opened Text
  import opened Contacts
  import opened AvlModel

  // ---------- one insertion, one deletion, one search ----------

  lemma MapOfCons(d: Contact, r: seq<Contact>)
    ensures MapOf([d] + r) == MapOf(r)[KeyOf(d) := d]
  {
    assert ([d] + r)[1..] == r;
  }

  lemma AtTail(s: seq<Contact>, p: nat, key: Key)
    requires At(s, p, key) && p > 0
    ensures At(s[1..], p - 1, key) && KeyOf(s[0]) != key
    ensures Present(s, p, key) <==> Present(s[1..], p - 1, key)
  {
    CompareZero(key, KeyOf(s[0]));
  }

  lemma {:induction false} MapOfInserted(s: seq<Contact>, p: nat, c: Contact)
    requires At(s, p, KeyOf(c)) && !Present(s, p, KeyOf(c))
    ensures MapOf(Inserted(s, p, c)) == MapOf(s)[KeyOf(c) := c]
  {
    hide At, Present, KeyOf, Compare;
    AtWithin(s, p, KeyOf(c));
    if p == 0 {
      assert Inserted(s, p, c) == [c] + s;
      MapOfCons(c, s);
    } else {
      AtTail(s, p, KeyOf(c));
      var r := Inserted(s[1..], p - 1, c);
      assert Inserted(s, p, c) == [s[0]] + r;
      MapOfInserted(s[1..], p - 1, c);
      MapOfCons(s[0], r);
    }
  }

  lemma {:induction false} MapOfRemoved(s: seq<Contact>, p: nat, key: Key)
    requires At(s, p, key) && Present(s, p, key)
    ensures MapOf(Removed(s, p, key)) == MapOf(s) - {key}
  {
    if p == 0 {
      NotBelow(s[1..], key);
      assert Removed(s, p, key) == s[1..];
    } else {
      hide At, Compare;
      AtTail(s, p, key);
      var r := Removed(s[1..], p - 1, key);
      assert Removed(s, p, key) == [s[0]] + r;
      MapOfRemoved(s[1..], p - 1, key);
      MapOfCons(s[0], r);
    }
  }

  lemma RemovedAscending(s: seq<Contact>, p: nat, key: Key)
    requires Ascending(s)
    ensures Ascending(Removed(s, p, key))
  {
  }

  /** Inserting keeps the tree valid; a contact whose key is already there is ignored. */
  lemma InsertCorrect(t: Tree, c: Contact)
    requires Avl(t)
    ensures Avl(Insert(t, c))
    ensures Contents(Insert(t, c)) ==
      if KeyOf(c) in Contents(t) then Contents(t) else Contents(t)[KeyOf(c) := c]
    ensures Height(t) <= Height(Insert(t, c)) <= Height(t) + 1
  {
    hide Insert, Balance, MapOf, InOrder, At, Present, Inserted, Ascending, Compare, KeyOf, TrueHeight, Balanced;
    var s := InOrder(t);
    var p := Locate(s, KeyOf(c));
    AtWithin(s, p, KeyOf(c));
    InsertBalanced(t, c);
    InsertInOrder(t, c, p);
    InsertedAscending(s, p, c);
    UnchangedWhenPresent(s, p, c);
    MapOfAt(s, KeyOf(c), p);
    if !Present(s, p, KeyOf(c)) {
      MapOfInserted(s, p, c);
    }
  }

  /** Deleting any key keeps the tree valid and removes that key and nothing else. */
  lemma DeleteCorrect(t: Tree, key: Key)
    requires Avl(t)
    ensures Avl(Delete(t, key))
    ensures Contents(Delete(t, key)) == Contents(t) - {key}
    ensures Height(t) - 1 <= Height(Delete(t, key)) <= Height(t)
  {
    hide Delete, Balance, MapOf, InOrder, At, Present, Removed, Ascending, Compare, KeyOf, TrueHeight, Balanced;
    var s := InOrder(t);
    var p := Locate(s, key);
    DeleteBalanced(t, key);
    DeleteInOrder(t, key, p);
    RemovedAscending(s, p, key);
    MapOfAt(s, key, p);
    UnchangedWhenAbsent(s, p, key);
    if Present(s, p, key) {
      MapOfRemoved(s, p, key);
    } else {
      assert MapOf(s) - {key} == MapOf(s);
    }
  }

  lemma UnchangedWhenPresent(s: seq<Contact>, p: nat, c: Contact)
    requires p <= |s|
    ensures Present(s, p, KeyOf(c)) ==> Inserted(s, p, c) == s
  {
  }

  lemma UnchangedWhenAbsent(s: seq<Contact>, p: nat, key: Key)
    ensures !Present(s, p, key) ==> Removed(s, p, key) == s
  {
  }

  ghost function Lookup(m: map<Key, Contact>, key: Key): Option<Contact> {
    if key in m then Some(m[key]) else None
  }

  lemma FindCorrect(t: Tree, key: Key)
    requires Avl(t)
    ensures Find(t, key) == Lookup(Contents(t), key)
  {
    hide Find;
    var p := Locate(InOrder(t), key);
    FindInOrder(t, key, p);
    MapOfAt(InOrder(t), key, p);
  }

  lemma SizeAfterInsert(t: Tree, c: Contact)
    requires HeightsExact(t) && Ascending(InOrder(t))
    ensures |InOrder(Insert(t, c))| == |InOrder(t)| + if Find(t, KeyOf(c)).Some? then 0 else 1
  {
    hide Insert, Find, InOrder, At, Ascending, Compare, HeightsExact;
    var p := Locate(InOrder(t), KeyOf(c));
    AtWithin(InOrder(t), p, KeyOf(c));
    InsertInOrder(t, c, p);
    FindInOrder(t, KeyOf(c), p);
  }

  lemma SizeAfterDelete(t: Tree, key: Key)
    requires HeightsExact(t) && Ascending(InOrder(t))
    ensures |InOrder(Delete(t, key))| == |InOrder(t)| - if Find(t, key).Some? then 1 else 0
  {
    hide Delete, Find, InOrder, At, Ascending, Compare, HeightsExact;
    var p := Locate(InOrder(t), key);
    DeleteInOrder(t, key, p);
    FindInOrder(t, key, p);
  }

  // ---------- any run from the empty tree ----------

  datatype Op = InsertOp(contact: Contact) | DeleteOp(key: Key)

  function Apply(t: Tree, op: Op): (r: Tree)
    requires HeightsExact(t)
    ensures HeightsExact(r)
  {
    match op
    case InsertOp(c) => Insert(t, c)
    case DeleteOp(key) => Delete(t, key)
  }

  function Run(ops: seq<Op>): (t: Tree)
    ensures HeightsExact(t)
  {
    if ops == [] then Leaf else Apply(Run(ops[..|ops| - 1]), ops[|ops| - 1])
  }

  /** The reference: a finite map in which the first contact inserted under a key stays. */
  function MapRun(ops: seq<Op>): map<Key, Contact> {
    if ops == [] then map[]
    else
      var m := MapRun(ops[..|ops| - 1]);
      match ops[|ops| - 1]
      case InsertOp(c) => if KeyOf(c) in m then m else m[KeyOf(c) := c]
      case DeleteOp(key) => m - {key}
  }

  lemma {:induction false} RunIsAvlMap(ops: seq<Op>)
    ensures Avl(Run(ops)) && Contents(Run(ops)) == MapRun(ops)
  {
    if ops != [] {
      hide Insert, Delete, Contents, Avl;
      var t := Run(ops[..|ops| - 1]);
      RunIsAvlMap(ops[..|ops| - 1]);
      match ops[|ops| - 1]
      case InsertOp(c) => InsertCorrect(t, c);
      case DeleteOp(key) => DeleteCorrect(t, key);
    }
  }

  /** Ascending sequences are ordered by surname, then by name. */
  lemma AscendingIsOrder(s: seq<Contact>)
    ensures Ascending(s) <==> forall i, j :: 0 <= i < j < |s| ==> ComesBefore(s[i], s[j])
  {
    hide CompareContact, ComesBefore;
    forall i, j | 0 <= i < j < |s| ensures CompareContact(s[i], s[j]) < 0 <==> ComesBefore(s[i], s[j]) {
      CompareIsOrder(s[i], s[j]);
    }
  }

  /** Over every run, searching agrees with the map, and the in-order walk visits exactly the
      contacts of the map, in strictly ascending order. */
  lemma RunCorrect(ops: seq<Op>)
    ensures var s := InOrder(Run(ops)); forall i, j :: 0 <= i < j < |s| ==> ComesBefore(s[i], s[j])
    ensures forall key :: Find(Run(ops), key) == Lookup(MapRun(ops), key)
    ensures forall c :: c in InOrder(Run(ops)) <==> Lookup(MapRun(ops), KeyOf(c)) == Some(c)
  {
    var t := Run(ops);
    RunIsAvlMap(ops);
    AscendingIsOrder(InOrder(t));
    forall key ensures Find(t, key) == Lookup(MapRun(ops), key) {
      FindCorrect(t, key);
    }
    forall c ensures c in InOrder(t) <==> Lookup(MapRun(ops), KeyOf(c)) == Some(c) {
      ListedIffFound(InOrder(t), c);
    }
  }

  lemma ListedIffFound(s: seq<Contact>, c: Contact)
    requires Ascending(s)
    ensures c in s <==> Lookup(MapOf(s), KeyOf(c)) == Some(c)
  {
    var key := KeyOf(c);
    var p := Locate(s, key);
    MapOfAt(s, key, p);
    if c in s {
      var i :| 0 <= i < |s| && s[i] == c;
      CompareZero(key, KeyOf(s[i]));
      assert i == p;
    }
  }

  // ---------- the logarithmic bound ----------

  function Fib(n: nat): nat {
    if n < 2 then n else Fib(n - 2) + Fib(n - 1)
  }

  function Pow2(n: nat): nat {
    if n == 0 then 1 else 2 * Pow2(n - 1)
  }

  /** Powers of two multiply as their exponents add. */
  lemma {:induction false} Pow2Sum(m: nat, n: nat)
    ensures Pow2(m + n) == Pow2(m) * Pow2(n) && Pow2(1) == 2
  {
    assert Pow2(1) == 2 * Pow2(0);
    if m > 0 {
      Pow2Sum(m - 1, n);
      assert Pow2(m) == 2 * Pow2(m - 1) && Pow2(m + n) == 2 * Pow2(m + n - 1);
    }
  }

  lemma {:induction false} FibMonotonic(m: nat, n: nat)
    requires m <= n
    ensures Fib(m) <= Fib(n)
    decreases n - m
  {
    if m < n {
      FibMonotonic(m + 1, n);
      assert m > 0 ==> Fib(m + 1) == Fib(m - 1) + Fib(m);
    }
  }

  lemma FibNext(n: nat)
    ensures Fib(0) == 0 && Fib(1) == 1 && Fib(n + 2) == Fib(n) + Fib(n + 1)
  {
  }

  /** The sparsest AVL trees are the Fibonacci trees. */
  lemma {:induction false} SizeAtLeastFib(t: Tree)
    requires Balanced(t)
    ensures Fib(TrueHeight(t) + 2) <= |InOrder(t)| + 1
  {
    if t.Leaf? {
      assert Fib(2) == Fib(0) + Fib(1);
    } else {
      hide Fib;
      var l, r := TrueHeight(t.left), TrueHeight(t.right);
      var h := TrueHeight(t);
      SizeAtLeastFib(t.left);
      SizeAtLeastFib(t.right);
      FibNext(h);
      if l >= r {
        assert l + 2 == h + 1 && h <= r + 2;
        FibMonotonic(h, r + 2);
      } else {
        assert r + 2 == h + 1 && h <= l + 2;
        FibMonotonic(h, l + 2);
      }
    }
  }

  lemma {:induction false} FibAtLeastPow2(h: nat)
    ensures Pow2(h / 2) <= Fib(h + 2)
  {
    if h < 2 {
      assert Pow2(0) == 1 && Fib(2) == 1 && Fib(3) == 2;
    } else {
      FibAtLeastPow2(h - 2);
      assert Fib(h + 2) == Fib(h) + Fib(h + 1) && Fib(h + 1) == Fib(h - 1) + Fib(h);
    }
  }

  lemma {:induction false} ComparisonsAtMostHeight(t: Tree, key: Key)
    ensures Comparisons(t, key) <= TrueHeight(t)
  {
    if t.Node? {
      ComparisonsAtMostHeight(t.left, key);
      ComparisonsAtMostHeight(t.right, key);
    }
  }

  lemma {:induction false} Pow2Monotonic(m: nat, n: nat)
    requires m <= n
    ensures Pow2(m) <= Pow2(n)
    decreases n - m
  {
    if m < n {
      Pow2Monotonic(m, n - 1);
    }
  }

  /** The contacts of an ascending sequence are as many as the keys of its map. */
  lemma {:induction false} MapSize(s: seq<Contact>)
    requires Ascending(s)
    ensures |MapOf(s)| == |s|
  {
    if s != [] {
      forall i | 0 <= i < |s[1..]| ensures Compare(KeyOf(s[0]), KeyOf(s[1..][i])) < 0 {
        assert CompareContact(s[0], s[1 + i]) < 0;
      }
      NotBelow(s[1..], KeyOf(s[0]));
      MapSize(s[1..]);
    }
  }

  /** In any AVL tree of n contacts and height h, n + 1 >= Fib(h + 2), and a search makes at most
      2 * log2(n + 1) + 1 comparisons. */
  lemma ComparisonsAreFew(t: Tree, key: Key)
    requires Avl(t)
    ensures Fib(Height(t) + 2) <= |Contents(t)| + 1
    ensures Pow2(Comparisons(t, key) / 2) <= |Contents(t)| + 1
  {
    hide Comparisons;
    MapSize(InOrder(t));
    SizeAtLeastFib(t);
    ComparisonsAtMostHeight(t, key);
    FibAtLeastPow2(TrueHeight(t));
    Pow2Monotonic(Comparisons(t, key) / 2, TrueHeight(t) / 2);
  }

  /** So it is in every reachable tree. */
  lemma SearchIsLogarithmic(ops: seq<Op>, key: Key)
    ensures Fib(Height(Run(ops)) + 2) <= |MapRun(ops)| + 1
    ensures Pow2(Comparisons(Run(ops), key) / 2) <= |MapRun(ops)| + 1
  {
    hide Comparisons, Run, Contents, Fib, Pow2;
    RunIsAvlMap(ops);
    NonNegative(Run(ops));
    ComparisonsAreFew(Run(ops), key);
  }

  lemma NonNegative(t: Tree)
    requires HeightsExact(t)
    ensures Height(t) >= 0
  {
  }
}
