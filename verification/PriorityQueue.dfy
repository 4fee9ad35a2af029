/** The priority queue: a singly linked list on the heap, highest priority first, first in first out
    among equal priorities. */
module PriorityQueue {
  import opened Text
  import opened Lists

  class QueueItem {
    var priority: int
    var message: CString
    var next: QueueItem?

    constructor (p: int, m: CString)
      ensures priority == p && message == m && next == null
    {
      priority, message, next := p, m, null;
    }
  }

  datatype Item = Item(priority: int, message: CString)

  // ---------- the queue on values ----------

  ghost predicate Descending(s: seq<Item>) {
    forall i, j :: 0 <= i < j < |s| ==> s[i].priority >= s[j].priority
  }

  /** The items at the front of `s` with at least this priority. */
  function AtLeast(s: seq<Item>, priority: int): (n: nat)
    ensures n <= |s|
    ensures forall i :: 0 <= i < n ==> s[i].priority >= priority
    ensures n < |s| ==> s[n].priority < priority
  {
    FirstIndex(s, (x: Item) => x.priority < priority)
  }

  /** The index of the first item of a priority, or the length. */
  function FirstOf(s: seq<Item>, priority: int): (n: nat)
    ensures n <= |s|
    ensures forall i :: 0 <= i < n ==> s[i].priority != priority
    ensures n < |s| ==> s[n].priority == priority
  {
    FirstIndex(s, (x: Item) => x.priority == priority)
  }

  datatype Op = EnqueueOp(item: Item) | FirstOp | PriorityOp(priority: int) | MinPriorityOp(threshold: int)

  /** The item an operation takes, or the length when it takes none. By minimum priority it is the head
      or nothing. */
  function TakenAt(s: seq<Item>, op: Op): nat {
    match op
    case EnqueueOp(_) => |s|
    case FirstOp => 0
    case PriorityOp(priority) => FirstOf(s, priority)
    case MinPriorityOp(threshold) => if s != [] && s[0].priority >= threshold then 0 else |s|
  }

  function After(s: seq<Item>, op: Op): seq<Item> {
    if op.EnqueueOp? then Inserted(s, AtLeast(s, op.item.priority), op.item)
    else
      var p := TakenAt(s, op);
      if p < |s| then Removed(s, p) else s
  }

  /** The items of one priority, in queue order: the queue of that priority alone. */
  function OfPriority(s: seq<Item>, priority: int): seq<Item> {
    if s == [] then []
    else (if s[0].priority == priority then [s[0]] else []) + OfPriority(s[1..], priority)
  }

  lemma {:induction false} OfPriorityInserted(s: seq<Item>, p: nat, x: Item, q: int)
    requires p <= |s|
    requires q == x.priority ==> forall i :: p <= i < |s| ==> s[i].priority != q
    ensures OfPriority(Inserted(s, p, x), q) == OfPriority(s, q) + if q == x.priority then [x] else []
  {
    if p == 0 {
      assert Inserted(s, 0, x)[1..] == s;
      if q == x.priority {
        NoneOf(s, q);
      }
    } else {
      assert Inserted(s, p, x)[1..] == Inserted(s[1..], p - 1, x);
      OfPriorityInserted(s[1..], p - 1, x, q);
    }
  }

  lemma {:induction false} NoneOf(s: seq<Item>, q: int)
    requires forall i :: 0 <= i < |s| ==> s[i].priority != q
    ensures OfPriority(s, q) == []
  {
    if s != [] {
      NoneOf(s[1..], q);
    }
  }

  lemma {:induction false} OfPriorityRemoved(s: seq<Item>, p: nat, q: int)
    requires p < |s| && forall i :: 0 <= i < p ==> s[i].priority != s[p].priority
    ensures OfPriority(s, q) == (if s[p].priority == q then [s[p]] else []) + OfPriority(Removed(s, p), q)
  {
    if p == 0 {
      assert Removed(s, 0) == s[1..];
    } else {
      assert Removed(s, p)[1..] == Removed(s[1..], p - 1);
      OfPriorityRemoved(s[1..], p - 1, q);
    }
  }

  /** Enqueueing keeps the order and puts the item last among its own priority, and nowhere else. */
  lemma EnqueueIsStable(s: seq<Item>, x: Item)
    requires Descending(s)
    ensures var r := Inserted(s, AtLeast(s, x.priority), x);
      && Descending(r)
      && forall q :: OfPriority(r, q) == OfPriority(s, q) + if q == x.priority then [x] else []
  {
    hide OfPriority, Inserted, AtLeast;
    var p := AtLeast(s, x.priority);
    EnqueueDescending(s, p, x);
    assert forall i :: p <= i < |s| ==> s[i].priority < x.priority;
    forall q ensures OfPriority(Inserted(s, p, x), q) == OfPriority(s, q) + if q == x.priority then [x] else [] {
      OfPriorityInserted(s, p, x, q);
    }
  }

  lemma EnqueueDescending(s: seq<Item>, p: nat, x: Item)
    requires Descending(s) && p == AtLeast(s, x.priority)
    ensures Descending(Inserted(s, p, x))
  {
    hide AtLeast, Inserted;
    var r := Inserted(s, p, x);
    InsertedElement(s, p, x, 0);
    forall i, j | 0 <= i < j < |r| ensures r[i].priority >= r[j].priority {
      InsertedElement(s, p, x, i);
      InsertedElement(s, p, x, j);
    }
  }

  /** Taking the first item of a priority takes the oldest one of that priority and leaves the others. */
  lemma DequeueTakesOldest(s: seq<Item>, priority: int)
    requires Descending(s)
    ensures var p := FirstOf(s, priority);
      if p == |s| then OfPriority(s, priority) == []
      else
        && Descending(Removed(s, p))
        && forall q :: OfPriority(s, q) == (if q == priority then [s[p]] else []) + OfPriority(Removed(s, p), q)
  {
    var p := FirstOf(s, priority);
    if p == |s| {
      NoneOf(s, priority);
    } else {
      forall q ensures OfPriority(s, q) == (if q == priority then [s[p]] else []) + OfPriority(Removed(s, p), q) {
        OfPriorityRemoved(s, p, q);
      }
    }
  }

  /** From `s` to `r` one item has gone: `x`, the oldest of its priority. All other priorities keep their queues. */
  ghost predicate TakesOldest(s: seq<Item>, r: seq<Item>, x: Item) {
    && x in s && Descending(r)
    && OfPriority(s, x.priority) == [x] + OfPriority(r, x.priority)
    && forall q :: q != x.priority ==> OfPriority(r, q) == OfPriority(s, q)
  }

  ghost predicate HasPriority(s: seq<Item>, priority: int) {
    exists x :: x in s && x.priority == priority
  }

  ghost predicate HasAtLeast(s: seq<Item>, threshold: int) {
    exists x :: x in s && x.priority >= threshold
  }

  ghost predicate Highest(s: seq<Item>, priority: int) {
    forall x :: x in s ==> x.priority <= priority
  }

  lemma RemovedTakesOldest(s: seq<Item>, p: nat)
    requires Descending(s) && p < |s| && p == FirstOf(s, s[p].priority)
    ensures TakesOldest(s, Removed(s, p), s[p])
  {
    hide OfPriority, Descending, Removed, FirstOf;
    DequeueTakesOldest(s, s[p].priority);
    forall q | q != s[p].priority ensures OfPriority(Removed(s, p), q) == OfPriority(s, q) {
      assert [] + OfPriority(Removed(s, p), q) == OfPriority(Removed(s, p), q);
    }
  }

  /** What `dequeue_first` takes: the oldest item of the highest priority. */
  lemma FirstOpTakes(s: seq<Item>)
    requires Descending(s)
    ensures var p := TakenAt(s, FirstOp); var r := After(s, FirstOp);
      if s == [] then p == |s| && r == s
      else p < |s| && Highest(s, s[p].priority) && TakesOldest(s, r, s[p])
  {
    hide Removed, TakesOldest;
    if s != [] {
      RemovedTakesOldest(s, 0);
    }
  }

  /** What `dequeue_by_priority` takes: the oldest item of that priority, if there is one. */
  lemma PriorityOpTakes(s: seq<Item>, priority: int)
    requires Descending(s)
    ensures var p := TakenAt(s, PriorityOp(priority)); var r := After(s, PriorityOp(priority));
      if HasPriority(s, priority) then p < |s| && s[p].priority == priority && TakesOldest(s, r, s[p])
      else p == |s| && r == s
  {
    hide Removed, TakesOldest, Descending;
    var p := FirstOf(s, priority);
    if p < |s| {
      assert s[p] in s;
      RemovedTakesOldest(s, p);
    }
  }

  /** What `dequeue_by_min_priority` takes: the oldest item of the highest priority, if that is high enough,
      that is, if any item is. */
  lemma MinPriorityOpTakes(s: seq<Item>, threshold: int)
    requires Descending(s)
    ensures var p := TakenAt(s, MinPriorityOp(threshold)); var r := After(s, MinPriorityOp(threshold));
      if HasAtLeast(s, threshold) then
        p < |s| && s[p].priority >= threshold && Highest(s, s[p].priority) && TakesOldest(s, r, s[p])
      else p == |s| && r == s
  {
    hide Removed, TakesOldest;
    if s != [] && s[0].priority >= threshold {
      assert s[0] in s;
      RemovedTakesOldest(s, 0);
    }
  }

  /** The head is the first item of the highest priority there is. */
  lemma HeadIsHighest(s: seq<Item>)
    requires Descending(s) && s != []
    ensures FirstOf(s, s[0].priority) == 0 && forall i :: 0 <= i < |s| ==> s[i].priority <= s[0].priority
  {
  }

  lemma {:induction false} OfPriorityAre(s: seq<Item>, q: int)
    ensures forall i :: 0 <= i < |OfPriority(s, q)| ==> OfPriority(s, q)[i].priority == q && OfPriority(s, q)[i] in s
  {
    if s != [] {
      OfPriorityAre(s[1..], q);
    }
  }

  function HeadPriority(s: seq<Item>): int {
    if s == [] then 0 else s[0].priority
  }

  /** The order and the queues of the single priorities determine the whole queue. */
  lemma {:induction false} QueuesDetermine(a: seq<Item>, b: seq<Item>)
    requires Descending(a) && Descending(b) && forall q :: OfPriority(a, q) == OfPriority(b, q)
    ensures a == b
  {
    if a == [] {
      assert OfPriority(a, HeadPriority(b)) == OfPriority(b, HeadPriority(b));
    } else {
      var p := a[0].priority;
      OfPriorityAre(b, p);
      assert OfPriority(b, p)[0] == a[0] && b != [];
      OfPriorityAre(a, b[0].priority);
      assert OfPriority(a, b[0].priority)[0] == b[0];
      assert b[0].priority == p;
      forall q ensures OfPriority(a[1..], q) == OfPriority(b[1..], q) {
        assert OfPriority(a, q) == OfPriority(b, q);
        assert OfPriority(a, q)[if q == p then 1 else 0..] == OfPriority(a[1..], q);
        assert OfPriority(b, q)[if q == p then 1 else 0..] == OfPriority(b[1..], q);
      }
      QueuesDetermine(a[1..], b[1..]);
      assert a == [a[0]] + a[1..] && b == [b[0]] + b[1..];
    }
  }

  // ---------- the queue on the heap ----------

  function ItemAt(ns: seq<QueueItem>, i: int): QueueItem? {
    match At(ns, i)
    case None => null
    case Some(n) => n
  }

  /** `ns` are the items from `head` on. */
  ghost predicate Linked(head: QueueItem?, ns: seq<QueueItem>)
    reads ns
  {
    && AllDifferent(ns)
    && head == ItemAt(ns, 0)
    && (forall i :: 0 <= i < |ns| ==> ns[i].next == ItemAt(ns, i + 1))
  }

  ghost function Datas(ns: seq<QueueItem>): (s: seq<Item>)
    reads ns
    ensures |s| == |ns|
  {
    seq(|ns|, i requires 0 <= i < |ns| reads ns => Item(ns[i].priority, ns[i].message))
  }

  lemma DataAt(ns: seq<QueueItem>, i: nat)
    requires i < |ns|
    ensures Datas(ns)[i] == Item(ns[i].priority, ns[i].message)
  {
  }

  lemma HeadIs(head: QueueItem?, ns: seq<QueueItem>)
    requires Linked(head, ns)
    ensures if ns == [] then head == null else head == ns[0]
  {
  }

  lemma NextIs(head: QueueItem?, ns: seq<QueueItem>, p: nat)
    requires Linked(head, ns) && p < |ns|
    ensures ns[p].next == if p + 1 < |ns| then ns[p + 1] else null
  {
  }

  lemma InsertedData(ns: seq<QueueItem>, p: nat, x: QueueItem)
    requires p <= |ns|
    ensures Datas(Inserted(ns, p, x)) == Inserted(Datas(ns), p, Item(x.priority, x.message))
  {
  }

  lemma RemovedData(ns: seq<QueueItem>, p: nat)
    requires p < |ns|
    ensures Datas(Removed(ns, p)) == Removed(Datas(ns), p)
  {
  }

  /** The links after a new item has been put in at `p`. */
  lemma LinkedInserted(head: QueueItem, ns: seq<QueueItem>, p: nat, x: QueueItem)
    requires p <= |ns| && x !in ns && head == (if p == 0 then x else ItemAt(ns, 0))
    requires AllDifferent(ns)
    requires forall i :: 0 <= i < |ns| ==> ns[i].next == if i + 1 == p then x else ItemAt(ns, i + 1)
    requires x.next == ItemAt(ns, p)
    ensures Linked(head, Inserted(ns, p, x))
  {
    hide At, Inserted, AllDifferent;
    var r := Inserted(ns, p, x);
    InsertedDifferent(ns, p, x);
    InsertedAt(ns, p, x, 0);
    forall i | 0 <= i < |r| ensures r[i].next == ItemAt(r, i + 1) {
      InsertedAt(ns, p, x, i);
      InsertedAt(ns, p, x, i + 1);
      AtIs(r, i);
      AtIs(ns, i);
      AtIs(ns, i - 1);
    }
  }

  /** The links after the item at `p` has been taken out. */
  lemma LinkedRemoved(head: QueueItem?, ns: seq<QueueItem>, p: nat)
    requires p < |ns| && head == ItemAt(ns, if p == 0 then 1 else 0)
    requires AllDifferent(ns)
    requires forall i :: 0 <= i < |ns| && i != p ==> ns[i].next == ItemAt(ns, if i + 1 == p then p + 1 else i + 1)
    ensures Linked(head, Removed(ns, p))
  {
    hide At, Removed, AllDifferent;
    var r := Removed(ns, p);
    RemovedDifferent(ns, p);
    RemovedAt(ns, p, 0);
    forall i | 0 <= i < |r| ensures r[i].next == ItemAt(r, i + 1) {
      RemovedAt(ns, p, i);
      RemovedAt(ns, p, i + 1);
      AtIs(r, i);
      AtIs(ns, i);
      AtIs(ns, i + 1);
    }
  }

  class Queue {
    var head: QueueItem?
    ghost var nodes: seq<QueueItem>

    ghost predicate Valid()
      reads this, nodes
    {
      Linked(head, nodes) && Descending(Datas(nodes))
    }

    ghost function Items(): seq<Item>
      reads this, nodes
    {
      Datas(nodes)
    }

    constructor ()
      ensures Valid() && nodes == []
    {
      head, nodes := null, [];
    }

    method Enqueue(priority: int, message: CString)
      requires Valid()
      modifies this, nodes
      ensures Valid()
      ensures Items() == After(old(Items()), EnqueueOp(Item(priority, message)))
      ensures var p := AtLeast(old(Items()), priority);
        p < |nodes| && fresh(nodes[p]) && nodes == Inserted(old(nodes), p, nodes[p])
    {
      hide Linked, Descending, Inserted, Datas, At, AtLeast;
      var x := new QueueItem(priority, message);
      EnqueueDescending(Items(), AtLeast(Items(), priority), Item(priority, message));
      HeadIs(head, nodes);
      ghost var ns := nodes;
      if head == null || priority > head.priority {
        if head != null {
          DataAt(ns, 0);
        }
        AtLeastIs(Items(), priority, 0);
        AtIs(ns, -1);
        LinkItem(head, null, x, ns, 0);
        head := x;
        nodes := Inserted(ns, 0, x);
        InsertedMembers(ns, 0, x);
      } else {
        var cur, p := LastAtLeast(head, priority, ns);
        LinkItem(head, cur, x, ns, p + 1);
        nodes := Inserted(ns, p + 1, x);
        InsertedMembers(ns, p + 1, x);
      }
    }

    method DequeueFirst() returns (item: QueueItem?)
      requires Valid()
      modifies this, nodes
      ensures Valid()
      ensures Items() == After(old(Items()), FirstOp)
      ensures var p := TakenAt(old(Items()), FirstOp);
        if p < |old(nodes)| then
          && item == old(nodes)[p] && item.next == null && Item(item.priority, item.message) == old(Items())[p]
          && nodes == Removed(old(nodes), p)
        else item == null && nodes == old(nodes)
      ensures if old(Items()) == [] then item == null && Items() == []
        else
          && item != null && Highest(old(Items()), item.priority)
          && TakesOldest(old(Items()), Items(), Item(item.priority, item.message))
    {
      hide Linked, Descending, Removed, Datas, At, TakesOldest, Highest, HasPriority, HasAtLeast;
      FirstOpTakes(Items());
      HeadIs(head, nodes);
      if head == null { return null; }
      ghost var ns := nodes;
      RemovedDescending(Items(), 0);
      RemovedMembers(ns, 0);
      AtIs(ns, -1);
      item := head;
      head := UnlinkItem(head, null, item, ns, 0);
      nodes := Removed(ns, 0);
    }

    /** Takes the first item of the priority, if there is one. */
    method DequeueByPriority(priority: int) returns (item: QueueItem?)
      requires Valid()
      modifies this, nodes
      ensures Valid()
      ensures Items() == After(old(Items()), PriorityOp(priority))
      ensures var p := TakenAt(old(Items()), PriorityOp(priority));
        if p < |old(nodes)| then
          && item == old(nodes)[p] && item.next == null && Item(item.priority, item.message) == old(Items())[p]
          && nodes == Removed(old(nodes), p)
        else item == null && nodes == old(nodes)
      ensures if !HasPriority(old(Items()), priority) then item == null && Items() == old(Items())
        else
          && item != null && item.priority == priority
          && TakesOldest(old(Items()), Items(), Item(item.priority, item.message))
    {
      hide Linked, Descending, Removed, Datas, At, TakesOldest, Highest, HasPriority, HasAtLeast;
      PriorityOpTakes(Items(), priority);
      HeadIs(head, nodes);
      if head == null { return null; }
      DataAt(nodes, 0);
      if head.priority == priority {
        item := DequeueFirst();
        return;
      }
      ghost var ns := nodes;
      var cur, p := BeforePriority(head, priority, ns);
      NextIs(head, ns, p);
      if cur.next == null { return null; }
      RemovedDescending(Items(), p + 1);
      RemovedMembers(ns, p + 1);
      item := cur.next;
      head := UnlinkItem(head, cur, item, ns, p + 1);
      nodes := Removed(ns, p + 1);
    }

    /** Takes the head if its priority is high enough. The walk behind it never finds an item, because
        everything there is lower than the head, so its unlinking statements are never reached. */
    method DequeueByMinPriority(threshold: int) returns (item: QueueItem?)
      requires Valid()
      modifies this, nodes
      ensures Valid()
      ensures Items() == After(old(Items()), MinPriorityOp(threshold))
      ensures var p := TakenAt(old(Items()), MinPriorityOp(threshold));
        if p < |old(nodes)| then
          && item == old(nodes)[p] && item.next == null && Item(item.priority, item.message) == old(Items())[p]
          && nodes == Removed(old(nodes), p)
        else item == null && nodes == old(nodes)
      ensures if !HasAtLeast(old(Items()), threshold) then item == null && Items() == old(Items())
        else
          && item != null && item.priority >= threshold && Highest(old(Items()), item.priority)
          && TakesOldest(old(Items()), Items(), Item(item.priority, item.message))
    {
      hide Linked, Removed, Datas, At, TakesOldest, Highest, HasPriority, HasAtLeast;
      MinPriorityOpTakes(Items(), threshold);
      HeadIs(head, nodes);
      if head == null { return null; }
      DataAt(nodes, 0);
      if head.priority >= threshold {
        item := DequeueFirst();
        return;
      }
      ghost var ns := nodes;
      var cur := head;
      ghost var p := 0;
      while cur.next != null && cur.next.priority < threshold
        invariant p < |ns| && cur == ns[p]
        decreases |ns| - p
        modifies {}
      {
        NextIs(head, ns, p);
        cur := cur.next;
        p := p + 1;
      }
      NextIs(head, ns, p);
      if cur.next != null {
        DataAt(ns, p + 1);
        assert false;
      }
      return null;
    }
  }

  // ---------- the parts of the methods ----------

  lemma RemovedDescending(s: seq<Item>, p: nat)
    requires Descending(s) && p < |s|
    ensures Descending(Removed(s, p))
  {
  }

  /** Lines 29-31 (no `cur`) and 38-39: a new item at `p`, behind `cur`. */
  method LinkItem(head: QueueItem?, cur: QueueItem?, x: QueueItem, ghost ns: seq<QueueItem>, ghost p: nat)
    requires Linked(head, ns) && p <= |ns| && x !in ns && cur == ItemAt(ns, p - 1) && (cur == null <==> p == 0)
    modifies ns, x
    ensures Linked(if p == 0 then x else head, Inserted(ns, p, x))
    ensures Datas(Inserted(ns, p, x)) == Inserted(old(Datas(ns)), p, old(Item(x.priority, x.message)))
  {
    hide At;
    AtIs(ns, p);
    AtIs(ns, 0);
    AtIs(ns, p - 1);
    if cur == null {
      x.next := head;
    } else {
      x.next := cur.next;
      cur.next := x;
    }
    LinkedInserted(if p == 0 then x else head, ns, p, x);
    InsertedData(ns, p, x);
    assert Datas(ns) == old(Datas(ns));
  }

  /** Lines 45-46 (no `cur`) and 59-60: `item` at `p` is taken out from behind `cur`. */
  method UnlinkItem(head: QueueItem, cur: QueueItem?, item: QueueItem, ghost ns: seq<QueueItem>, ghost p: nat)
    returns (newHead: QueueItem?)
    requires Linked(head, ns) && p < |ns| && item == ns[p] && cur == ItemAt(ns, p - 1)
    modifies ns
    ensures Linked(newHead, Removed(ns, p)) && item.next == null
    ensures Datas(Removed(ns, p)) == Removed(old(Datas(ns)), p)
    ensures Item(item.priority, item.message) == old(Datas(ns))[p]
  {
    hide At;
    AtIs(ns, p - 1);
    AtIs(ns, p);
    AtIs(ns, 0);
    newHead := head;
    if cur == null {
      newHead := item.next;
    } else {
      cur.next := item.next;
    }
    item.next := null;
    LinkedRemoved(newHead, ns, p);
    RemovedData(ns, p);
    assert Datas(ns) == old(Datas(ns));
  }

  /** Lines 34-37. */
  method LastAtLeast(head: QueueItem, priority: int, ghost ns: seq<QueueItem>) returns (cur: QueueItem, ghost p: nat)
    requires Linked(head, ns) && head.priority >= priority
    ensures cur == ItemAt(ns, AtLeast(Datas(ns), priority) - 1)
    ensures p < |ns| && cur == ns[p] && AtLeast(Datas(ns), priority) == p + 1
  {
    hide Linked;
    HeadIs(head, ns);
    cur, p := head, 0;
    while cur.next != null && cur.next.priority >= priority
      invariant p < |ns| && cur == ns[p]
      invariant forall i :: 0 <= i <= p ==> ns[i].priority >= priority
      decreases |ns| - p
      modifies {}
    {
      NextIs(head, ns, p);
      cur := cur.next;
      p := p + 1;
    }
    NextIs(head, ns, p);
    AtLeastIs(Datas(ns), priority, p + 1);
  }

  lemma AtLeastIs(s: seq<Item>, priority: int, n: nat)
    requires n <= |s| && forall i :: 0 <= i < n ==> s[i].priority >= priority
    requires n < |s| ==> s[n].priority < priority
    ensures AtLeast(s, priority) == n
  {
  }

  /** Lines 53-56. */
  method BeforePriority(head: QueueItem, priority: int, ghost ns: seq<QueueItem>) returns (cur: QueueItem, ghost p: nat)
    requires Linked(head, ns) && head.priority != priority
    ensures cur == ItemAt(ns, FirstOf(Datas(ns), priority) - 1)
    ensures p < |ns| && cur == ns[p] && FirstOf(Datas(ns), priority) == p + 1
  {
    hide Linked;
    HeadIs(head, ns);
    cur, p := head, 0;
    while cur.next != null && cur.next.priority != priority
      invariant p < |ns| && cur == ns[p]
      invariant forall i :: 0 <= i <= p ==> ns[i].priority != priority
      decreases |ns| - p
      modifies {}
    {
      NextIs(head, ns, p);
      cur := cur.next;
      p := p + 1;
    }
    NextIs(head, ns, p);
    FirstOfIs(Datas(ns), priority, p + 1);
  }

  lemma FirstOfIs(s: seq<Item>, priority: int, n: nat)
    requires n <= |s| && forall i :: 0 <= i < n ==> s[i].priority != priority
    requires n < |s| ==> s[n].priority == priority
    ensures FirstOf(s, priority) == n
  {
  }
}
