/** The contact list: a doubly linked list on the heap, sorted by (surname, name). */
module ContactList {
  import opened Text
  import opened Contacts
  import opened Lists

  class Node {
    var data: Contact
    var prev: Node?
    var next: Node?

    constructor (c: Contact)
      ensures data == c && prev == null && next == null
    {
      data, prev, next := c, null, null;
    }
  }

  // ---------- the list on values ----------

  ghost predicate Sorted(s: seq<Contact>) {
    forall i, j :: 0 <= i < j < |s| ==> CompareContact(s[i], s[j]) <= 0
  }

  /** The contacts at the front of `s` that `c` is strictly above. */
  function Above(s: seq<Contact>, c: Contact): (n: nat)
    ensures n <= |s|
    ensures forall i :: 0 <= i < n ==> CompareContact(c, s[i]) > 0
    ensures n < |s| ==> CompareContact(c, s[n]) <= 0
  {
    FirstIndex(s, (x: Contact) => CompareContact(c, x) <= 0)
  }

  /** Where `insert_sorted` puts a contact: in front when it is below the head; otherwise after the head
      and after everything else it is strictly above. So it comes after a head with an equal key, but
      before any other contacts with an equal key. */
  function InsertPosition(s: seq<Contact>, c: Contact): (p: nat)
    ensures p <= |s|
  {
    if s == [] || CompareContact(c, s[0]) < 0 then 0 else 1 + Above(s[1..], c)
  }

  /** The index of the first contact with a key, or the length. */
  function FirstWith(s: seq<Contact>, key: Key): (i: nat)
    ensures i <= |s|
    ensures forall j :: 0 <= j < i ==> KeyOf(s[j]) != key
    ensures i < |s| ==> KeyOf(s[i]) == key
  {
    FirstIndex(s, (c: Contact) => KeyOf(c) == key)
  }

  lemma FirstIs(s: seq<Contact>, key: Key, i: nat)
    requires i < |s| && KeyOf(s[i]) == key && forall j :: 0 <= j < i ==> KeyOf(s[j]) != key
    ensures FirstWith(s, key) == i
  {
  }

  lemma FrontPosition(s: seq<Contact>, c: Contact)
    ensures InsertPosition(s, c) == 0 <==> s == [] || CompareContact(c, s[0]) < 0
  {
  }

  /** In a sorted list everything before the position is not above the contact, everything after not below. */
  lemma PositionSplits(s: seq<Contact>, c: Contact)
    requires Sorted(s)
    ensures var p := InsertPosition(s, c);
      && (forall i :: 0 <= i < p ==> CompareContact(s[i], c) <= 0)
      && (forall i :: p <= i < |s| ==> CompareContact(c, s[i]) <= 0)
  {
    var p := InsertPosition(s, c);
    forall i | 0 <= i < p ensures CompareContact(s[i], c) <= 0 {
      CompareAntisymmetric(KeyOf(s[i]), KeyOf(c));
      if i > 0 {
        assert s[1..][i - 1] == s[i];
      }
    }
    forall i | p <= i < |s| ensures CompareContact(c, s[i]) <= 0 {
      if p > 0 {
        assert s[1..][p - 1] == s[p];
      }
      if i > p {
        CompareTransitive(KeyOf(c), KeyOf(s[p]), KeyOf(s[i]));
      }
    }
  }

  lemma InsertedSorted(s: seq<Contact>, c: Contact)
    requires Sorted(s)
    ensures Sorted(Inserted(s, InsertPosition(s, c), c))
  {
    hide CompareContact, InsertPosition, Above;
    var p := InsertPosition(s, c);
    var r := Inserted(s, p, c);
    PositionSplits(s, c);
    forall i, j | 0 <= i < j < |r| ensures CompareContact(r[i], r[j]) <= 0 {
      assert r[i] == if i < p then s[i] else if i == p then c else s[i - 1];
      assert r[j] == if j < p then s[j] else if j == p then c else s[j - 1];
    }
  }

  /** Inserting keeps the list sorted and adds exactly one contact. */
  lemma InsertKeepsSorted(s: seq<Contact>, c: Contact)
    requires Sorted(s)
    ensures var r := Inserted(s, InsertPosition(s, c), c);
      Sorted(r) && multiset(r) == multiset(s) + multiset{c}
  {
    hide InsertPosition;
    InsertedSorted(s, c);
    var p := InsertPosition(s, c);
    assert s == s[..p] + s[p..];
  }

  /** A contact goes right behind a head with an equal key; otherwise in front of all equal keys. */
  lemma EqualKeyPlace(s: seq<Contact>, c: Contact)
    requires Sorted(s) && s != []
    ensures var p := InsertPosition(s, c);
      if CompareContact(c, s[0]) == 0 then p == 1
      else forall i :: 0 <= i < p ==> CompareContact(c, s[i]) > 0
  {
    var p := InsertPosition(s, c);
    if CompareContact(c, s[0]) == 0 {
      if |s| > 1 {
        CompareTransitive(KeyOf(c), KeyOf(s[0]), KeyOf(s[1]));
        assert s[1..][0] == s[1];
      }
    } else {
      assert forall i :: 1 <= i < p ==> s[1..][i - 1] == s[i];
    }
  }

  lemma RemovedSorted(s: seq<Contact>, p: nat)
    requires Sorted(s) && p < |s|
    ensures Sorted(Removed(s, p))
  {
  }

  lemma RemoveKeepsSorted(s: seq<Contact>, p: nat)
    requires Sorted(s) && p < |s|
    ensures Sorted(Removed(s, p)) && multiset(s) == multiset(Removed(s, p)) + multiset{s[p]}
  {
    assert s == s[..p] + [s[p]] + s[p + 1..];
  }

  // ---------- the list on the heap ----------

  function NodeAt(ns: seq<Node>, i: int): Node? {
    match At(ns, i)
    case None => null
    case Some(n) => n
  }

  /** `ns` are the nodes from `head` on; `next` and `prev` are inverse to each other along them. */
  ghost predicate Linked(head: Node?, ns: seq<Node>)
    reads ns
  {
    && AllDifferent(ns)
    && head == NodeAt(ns, 0)
    && (forall i :: 0 <= i < |ns| ==> ns[i].next == NodeAt(ns, i + 1))
    && (forall i :: 0 <= i < |ns| ==> ns[i].prev == NodeAt(ns, i - 1))
  }

  ghost function Datas(ns: seq<Node>): (s: seq<Contact>)
    reads ns
    ensures |s| == |ns|
  {
    seq(|ns|, i requires 0 <= i < |ns| reads ns => ns[i].data)
  }

  lemma DataAt(ns: seq<Node>, i: nat)
    requires i < |ns|
    ensures Datas(ns)[i] == ns[i].data
  {
  }

  /** Lines 64-66: a new node before the first. */
  method LinkFirst(head: Node, node: Node, ghost ns: seq<Node>)
    requires Linked(head, ns) && node !in ns && node.prev == null
    modifies head`prev, node`next
    ensures Linked(node, Inserted(ns, 0, node))
    ensures Datas(Inserted(ns, 0, node)) == Inserted(old(Datas(ns)), 0, node.data)
  {
    hide At, Inserted;
    AtIs(ns, 0);
    AtIs(ns, -1);
    node.next := head;
    head.prev := node;
    LinkedFirst(head, ns, node);
    InsertedData(ns, 0, node);
    assert Datas(ns) == old(Datas(ns));
  }

  lemma LinkedFirst(head: Node, ns: seq<Node>, node: Node)
    requires node !in ns && head == NodeAt(ns, 0) && AllDifferent(ns)
    requires forall i :: 0 <= i < |ns| ==> ns[i].next == NodeAt(ns, i + 1)
    requires forall i :: 0 <= i < |ns| ==> ns[i].prev == if i == 0 then node else NodeAt(ns, i - 1)
    requires node.next == head && node.prev == null
    ensures Linked(node, Inserted(ns, 0, node))
  {
    hide At, Inserted, AllDifferent;
    var r := Inserted(ns, 0, node);
    InsertedDifferent(ns, 0, node);
    InsertedAt(ns, 0, node, 0);
    AtIs(ns, -1);
    forall i | 0 <= i < |r| ensures r[i].next == NodeAt(r, i + 1) && r[i].prev == NodeAt(r, i - 1) {
      InsertedAt(ns, 0, node, i);
      InsertedAt(ns, 0, node, i + 1);
      InsertedAt(ns, 0, node, i - 1);
      AtIs(r, i);
      AtIs(r, i - 1);
      AtIs(ns, i - 1);
    }
  }

  lemma LinkedAfter(head: Node, ns: seq<Node>, p: nat, node: Node)
    requires p < |ns| && node !in ns && head == NodeAt(ns, 0)
    requires AllDifferent(ns)
    requires forall i :: 0 <= i < |ns| ==> ns[i].next == if i == p then node else NodeAt(ns, i + 1)
    requires forall i :: 0 <= i < |ns| ==> ns[i].prev == if i == p + 1 then node else NodeAt(ns, i - 1)
    requires node.next == NodeAt(ns, p + 1) && node.prev == NodeAt(ns, p)
    ensures Linked(head, Inserted(ns, p + 1, node))
  {
    hide At, Inserted, AllDifferent;
    var r := Inserted(ns, p + 1, node);
    InsertedDifferent(ns, p + 1, node);
    InsertedAt(ns, p + 1, node, 0);
    forall i | 0 <= i < |r| ensures r[i].next == NodeAt(r, i + 1) && r[i].prev == NodeAt(r, i - 1) {
      InsertedAt(ns, p + 1, node, i);
      InsertedAt(ns, p + 1, node, i + 1);
      InsertedAt(ns, p + 1, node, i - 1);
      AtIs(r, i);
      AtIs(ns, i);
      AtIs(ns, i - 1);
    }
  }

  /** Lines 73-76: a new node after `cur`. */
  method LinkAfter(head: Node, cur: Node, node: Node, ghost ns: seq<Node>, ghost p: nat)
    requires Linked(head, ns) && p < |ns| && cur == ns[p] && node !in ns
    modifies ns, node
    ensures Linked(head, Inserted(ns, p + 1, node)) && node.data == old(node.data)
    ensures Datas(Inserted(ns, p + 1, node)) == Inserted(old(Datas(ns)), p + 1, node.data)
  {
    hide At;
    AtIs(ns, p);
    AtIs(ns, p + 1);
    node.next := cur.next;
    node.prev := cur;
    if cur.next != null { cur.next.prev := node; }
    cur.next := node;
    LinkedAfter(head, ns, p, node);
    InsertedData(ns, p + 1, node);
    assert Datas(ns) == old(Datas(ns));
  }

  lemma LinkedWithout(head: Node?, ns: seq<Node>, p: nat)
    requires p < |ns| && head == NodeAt(ns, if p == 0 then 1 else 0)
    requires AllDifferent(ns)
    requires forall i :: 0 <= i < |ns| && i != p ==> ns[i].next == NodeAt(ns, if i == p - 1 then p + 1 else i + 1)
    requires forall i :: 0 <= i < |ns| && i != p ==> ns[i].prev == NodeAt(ns, if i == p + 1 then p - 1 else i - 1)
    ensures Linked(head, Removed(ns, p))
  {
    hide At, Removed, AllDifferent;
    var r := Removed(ns, p);
    RemovedDifferent(ns, p);
    RemovedAt(ns, p, 0);
    forall i | 0 <= i < |r| ensures r[i].next == NodeAt(r, i + 1) && r[i].prev == NodeAt(r, i - 1) {
      RemovedAt(ns, p, i);
      RemovedAt(ns, p, i + 1);
      RemovedAt(ns, p, i - 1);
      AtIs(r, i);
      AtIs(ns, i);
      AtIs(ns, i + 1);
    }
  }

  /** Lines 93-95: `node` is taken out. */
  method Unlink(head: Node, node: Node, ghost ns: seq<Node>, ghost p: nat) returns (newHead: Node?)
    requires Linked(head, ns) && p < |ns| && node == ns[p]
    modifies ns
    ensures Linked(newHead, Removed(ns, p)) && Datas(Removed(ns, p)) == Removed(old(Datas(ns)), p)
  {
    hide At;
    AtIs(ns, p - 1);
    AtIs(ns, p);
    AtIs(ns, p + 1);
    newHead := head;
    if node.prev != null { node.prev.next := node.next; } else { newHead := node.next; }
    if node.next != null { node.next.prev := node.prev; }
    LinkedWithout(newHead, ns, p);
    RemovedData(ns, p);
    assert Datas(ns) == old(Datas(ns));
  }

  /** Lines 69-72: the last node the contact goes after. */
  method FindPlace(head: Node, c: Contact, ghost ns: seq<Node>) returns (cur: Node, ghost p: nat)
    requires Linked(head, ns) && CompareContact(c, head.data) >= 0
    ensures cur == NodeAt(ns, InsertPosition(Datas(ns), c) - 1)
    ensures p < |ns| && cur == ns[p] && InsertPosition(Datas(ns), c) == p + 1
  {
    hide Linked;
    HeadIs(head, ns);
    ghost var s := Datas(ns);
    cur, p := head, 0;
    while cur.next != null && CompareContact(c, cur.next.data) > 0
      invariant p < |ns| && cur == ns[p]
      invariant forall i :: 1 <= i <= p ==> CompareContact(c, s[i]) > 0
      decreases |ns| - p
      modifies {}
    {
      NextIs(head, ns, p);
      cur := cur.next;
      p := p + 1;
    }
    NextIs(head, ns, p);
    AboveIs(s[1..], c, p);
  }

  class List {
    var head: Node?
    ghost var nodes: seq<Node>

    ghost predicate Valid()
      reads this, nodes
    {
      Linked(head, nodes) && Sorted(Datas(nodes))
    }

    ghost function Entries(): seq<Contact>
      reads this, nodes
    {
      Datas(nodes)
    }

    constructor ()
      ensures Valid() && nodes == []
    {
      head, nodes := null, [];
    }

    method InsertSorted(c: Contact)
      requires Valid()
      modifies this, nodes
      ensures Valid()
      ensures Entries() == Inserted(old(Entries()), InsertPosition(old(Entries()), c), c)
      ensures var p := InsertPosition(old(Entries()), c);
        p < |nodes| && fresh(nodes[p]) && nodes == Inserted(old(nodes), p, nodes[p])
    {
      hide Sorted, Inserted, Linked, Datas, InsertPosition, CompareContact;
      ghost var s := Entries();
      InsertedSorted(s, c);
      FrontPosition(s, c);
      HeadIs(head, nodes);
      if nodes != [] {
        DataAt(nodes, 0);
      }
      var node := new Node(c);
      if head == null {
        OneNode(node);
        InsertedMembers(nodes, 0, node);
        head, nodes := node, Inserted(nodes, 0, node);
        InsertedData([], 0, node);
      } else if CompareContact(c, head.data) < 0 {
        InsertedMembers(nodes, 0, node);
        LinkFirst(head, node, nodes);
        head, nodes := node, Inserted(nodes, 0, node);
      } else {
        var cur, p := FindPlace(head, c, nodes);
        InsertedMembers(nodes, p + 1, node);
        LinkAfter(head, cur, node, nodes, p);
        nodes := Inserted(nodes, p + 1, node);
      }
    }

    /** The first node with the key, or null. */
    method FindNode(surname: Field, name: Field) returns (r: Node?)
      requires Valid()
      ensures r == NodeAt(nodes, FirstWith(Entries(), Key(surname, name)))
    {
      hide Sorted, Linked, At, FirstWith;
      HeadIs(head, nodes);
      ghost var key := Key(surname, name);
      ghost var p := FirstWith(Entries(), key);
      var cur := head;
      ghost var i := 0;
      while cur != null
        invariant i <= p && cur == if i < |nodes| then nodes[i] else null
        decreases |nodes| - i
      {
        AtIs(nodes, i);
        DataAt(nodes, i);
        StrCmpZero(cur.data.surname, surname);
        StrCmpZero(cur.data.name, name);
        if StrCmp(cur.data.surname, surname) == 0 && StrCmp(cur.data.name, name) == 0 {
          return cur;
        }
        NextIs(head, nodes, i);
        cur := cur.next;
        i := i + 1;
      }
      AtIs(nodes, p);
      r := null;
    }

    /** Unlinks a node of the list; null is ignored. */
    method DeleteNode(node: Node?, ghost p: nat)
      requires Valid() && (node != null ==> p < |nodes| && node == nodes[p])
      modifies this, nodes
      ensures Valid()
      ensures node == null ==> nodes == old(nodes) && Entries() == old(Entries())
      ensures node != null ==> nodes == Removed(old(nodes), p)
      ensures node != null ==> Entries() == Removed(old(Entries()), p)
    {
      hide Sorted, Linked, Removed, Datas;
      if node == null { return; }
      ghost var s := Entries();
      RemovedSorted(s, p);
      HeadIs(head, nodes);
      ghost var r := Removed(nodes, p);
      RemovedMembers(nodes, p);
      var newHead := Unlink(head, node, nodes, p);
      head, nodes := newHead, r;
    }
  }

  lemma HeadIs(head: Node?, ns: seq<Node>)
    requires Linked(head, ns)
    ensures if ns == [] then head == null else head == ns[0]
  {
  }

  lemma NextIs(head: Node?, ns: seq<Node>, p: nat)
    requires Linked(head, ns) && p < |ns|
    ensures ns[p].next == if p + 1 < |ns| then ns[p + 1] else null
  {
  }

  lemma OneNode(node: Node)
    requires node.prev == null && node.next == null
    ensures Linked(node, Inserted([], 0, node))
  {
  }

  lemma RemovedData(ns: seq<Node>, p: nat)
    requires p < |ns|
    ensures Datas(Removed(ns, p)) == Removed(Datas(ns), p)
  {
  }

  lemma InsertedData(ns: seq<Node>, p: nat, node: Node)
    requires p <= |ns|
    ensures Datas(Inserted(ns, p, node)) == Inserted(Datas(ns), p, node.data)
  {
  }

  lemma AboveIs(s: seq<Contact>, c: Contact, n: nat)
    requires n <= |s| && forall i :: 0 <= i < n ==> CompareContact(c, s[i]) > 0
    requires n < |s| ==> CompareContact(c, s[n]) <= 0
    ensures Above(s, c) == n
  {
  }
}
