/** The priority queue over whole runs: what goes in comes out, and among equal priorities in the order
    it went in. */
module QueueRuns {
  import opened Lists
  import opened PriorityQueue

  /** Everything that ever entered the queue and everything taken from it, each in order. */
  datatype History = History(queue: seq<Item>, entered: seq<Item>, taken: seq<Item>)

  function Do(h: History, op: Op): History {
    var entered := h.entered + if op.EnqueueOp? then [op.item] else [];
    var p := TakenAt(h.queue, op);
    var taken := h.taken + if p < |h.queue| then [h.queue[p]] else [];
    History(After(h.queue, op), entered, taken)
  }

  function Run(ops: seq<Op>): History {
    if ops == [] then History([], [], []) else Do(Run(ops[..|ops| - 1]), ops[|ops| - 1])
  }

  lemma OfPriorityCons(x: Item, s: seq<Item>, q: int)
    ensures OfPriority([x] + s, q) == (if x.priority == q then [x] else []) + OfPriority(s, q)
  {
    assert ([x] + s)[1..] == s;
  }

  lemma {:induction false} OfPriorityAppend(s: seq<Item>, x: Item, q: int)
    ensures OfPriority(s + [x], q) == OfPriority(s, q) + if x.priority == q then [x] else []
  {
    if s == [] {
      assert s + [x] == [x];
    } else {
      var tail := s[1..] + [x];
      assert s + [x] == [s[0]] + tail;
      OfPriorityCons(s[0], tail, q);
      OfPriorityAppend(s[1..], x, q);
    }
  }

  /** An operation that takes something takes the oldest item of that item's priority. */
  lemma TakesOldest(s: seq<Item>, op: Op)
    requires Descending(s) && TakenAt(s, op) < |s|
    ensures TakenAt(s, op) == FirstOf(s, s[TakenAt(s, op)].priority)
  {
  }

  ghost predicate Fair(h: History, q: int) {
    OfPriority(h.entered, q) == OfPriority(h.taken, q) + OfPriority(h.queue, q)
  }

  lemma DoKeepsFair(h: History, op: Op)
    requires Descending(h.queue)
    ensures Descending(Do(h, op).queue)
    ensures forall q :: Fair(h, q) ==> Fair(Do(h, op), q)
  {
    hide OfPriority, Descending, FirstOf, AtLeast, Inserted, Removed;
    var p := TakenAt(h.queue, op);
    if op.EnqueueOp? {
      EnqueueIsStable(h.queue, op.item);
    } else if p < |h.queue| {
      TakesOldest(h.queue, op);
      DequeueTakesOldest(h.queue, h.queue[p].priority);
    }
    forall q | Fair(h, q) ensures Fair(Do(h, op), q) {
      assert h.taken + [] == h.taken && h.entered + [] == h.entered;
      if op.EnqueueOp? {
        OfPriorityAppend(h.entered, op.item, q);
      } else if p < |h.queue| {
        OfPriorityAppend(h.taken, h.queue[p], q);
      }
    }
  }

  /** Over every run the queue descends, and the items of any one priority that entered are those taken,
      in the same order, followed by those still queued: nothing is lost, nothing overtakes an equal. */
  lemma {:induction false} FirstInFirstOut(ops: seq<Op>)
    ensures Descending(Run(ops).queue)
    ensures forall q :: Fair(Run(ops), q)
  {
    if ops != [] {
      hide Descending, Do;
      FirstInFirstOut(ops[..|ops| - 1]);
      DoKeepsFair(Run(ops[..|ops| - 1]), ops[|ops| - 1]);
    }
  }
}
