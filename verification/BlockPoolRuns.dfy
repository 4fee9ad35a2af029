/** What holds of the block pool in every state of every run, under every interleaving. */
module BlockPoolRuns {
  import opened BlockPool
  import opened BlockPoolSafety

  predicate Inside(q: Proc) {
    !Waiting(q) && !Exited(q)
  }

  /** Who is in the critical section (-1: nobody), and the two lists. */
  datatype Witness = Witness(holder: int, data: seq<int>, free: seq<int>)

  /** At most one process is inside, and none while the semaphore is free. */
  ghost predicate Lock(s: State, holder: int) {
    && -1 <= holder < |s.procs|
    && s.sem == (if holder == -1 then 1 else 0)
    && forall p :: 0 <= p < |s.procs| ==> (Inside(s.procs[p]) <==> p == holder)
  }

  function Current(s: State, holder: int): Proc {
    if 0 <= holder < |s.procs| then s.procs[holder] else Consumer(CWait)
  }

  ghost predicate Shape(s: State, w: Witness) {
    && !s.fault && Lock(s, w.holder)
    && MemOk(s.shm, s.log, Current(s, w.holder), w.data, w.free)
  }

  // ---------- the initial state ----------

  lemma {:induction false} InitChain(blocks: seq<Block>, i: nat) returns (xs: seq<int>)
    requires InitBlocks(blocks) && i < |blocks|
    ensures Chain(blocks, i, xs) && multiset(xs) + AllBlocks(i) == AllBlocks(|blocks|)
    decreases |blocks| - i
  {
    if i == |blocks| - 1 {
      xs := [i];
    } else {
      var rest := InitChain(blocks, i + 1);
      xs := [i] + rest;
    }
  }

  lemma InitShape(s: State) returns (w: Witness)
    requires Init(s)
    ensures Shape(s, w) && w.data == [] && w.holder == -1
  {
    var free := InitChain(s.shm.blocks, 0);
    w := Witness(-1, [], free);
  }

  // ---------- every step keeps the shape ----------

  /** Entering and leaving the critical section does not touch the memory. */
  lemma Outside(m: Shm, log: Log, q: Proc, r: Proc, data: seq<int>, free: seq<int>)
    requires MemOk(m, log, q, data, free) && (Waiting(q) || Posting(q))
    requires Waiting(r) || Exited(r) || r == Entered(r)
    ensures MemOk(m, log, r, data, free)
  {
    hide Lists, Counts, Conserved;
  }

  /** The lists before and after a step: line 55 puts one block on the data list, line 72 takes one off. */
  ghost predicate DataMoves(s: State, p: nat, before: seq<int>, after: seq<int>)
    requires p < |s.procs|
  {
    match s.procs[p]
    case Producer(_, PPublish(idx, _)) => after == [idx] + before
    case Consumer(CUnlink(_)) => before != [] && after == before[1..]
    case _ => after == before
  }

  lemma InsideShape(s: State, w: Witness, p: nat, rnd: nat) returns (v: Witness)
    requires Shape(s, w) && p < |s.procs| && Inside(s.procs[p]) && !Posting(s.procs[p])
    ensures Shape(Step(s, p, rnd), v) && v.holder == w.holder == p && DataMoves(s, p, w.data, v.data)
  {
    hide MemOk, ProducerStep, ConsumerStep;
    assert w.holder == p;
    var data, free;
    match s.procs[p]
    case Producer(n, pc) =>
      StaysInsideProducer(s.shm, n, pc, s.log, rnd);
      data, free := ProducerKeeps(s.shm, s.log, n, pc, rnd, w.data, w.free);
      v := Witness(p, data, free);
    case Consumer(pc) =>
      StaysInsideConsumer(s.shm, pc, s.log);
      data, free := ConsumerKeeps(s.shm, s.log, pc, w.data, w.free);
      v := Witness(p, data, free);
  }

  lemma StaysInsideProducer(m: Shm, n: nat, pc: ProducerPc, log: Log, rnd: nat)
    requires Inside(Producer(n, pc)) && !Posting(Producer(n, pc))
    ensures var e := ProducerStep(m, n, pc, log, rnd); e.Effect? ==> Inside(e.me)
  {
  }

  lemma StaysInsideConsumer(m: Shm, pc: ConsumerPc, log: Log)
    requires Inside(Consumer(pc)) && !Posting(Consumer(pc))
    ensures var e := ConsumerStep(m, pc, log); e.Effect? ==> Inside(e.me)
  {
  }

  /** Inside, no statement uses an index out of range. */
  lemma NoFault(s: State, w: Witness, p: nat, rnd: nat)
    requires Shape(s, w) && p < |s.procs| && w.holder == p && Inside(s.procs[p]) && !Posting(s.procs[p])
    ensures InsideStep(s.shm, s.procs[p], s.log, rnd).Effect?
  {
    hide MemOk, ProducerStep, ConsumerStep;
    match s.procs[p]
    case Producer(n, pc) =>
      var d, f := ProducerKeeps(s.shm, s.log, n, pc, rnd, w.data, w.free);
    case Consumer(pc) =>
      var d, f := ConsumerKeeps(s.shm, s.log, pc, w.data, w.free);
  }

  lemma EnterShape(s: State, w: Witness, p: nat, rnd: nat)
    requires Shape(s, w) && p < |s.procs| && Waiting(s.procs[p]) && s.sem > 0
    ensures Shape(Step(s, p, rnd), w.(holder := p)) && DataMoves(s, p, w.data, w.data)
  {
    hide MemOk, InsideStep;
    Outside(s.shm, s.log, Consumer(CWait), Entered(s.procs[p]), w.data, w.free);
  }

  lemma LeaveShape(s: State, w: Witness, p: nat, rnd: nat)
    requires Shape(s, w) && p < |s.procs| && Posting(s.procs[p])
    ensures Shape(Step(s, p, rnd), w.(holder := -1)) && DataMoves(s, p, w.data, w.data)
    ensures w.holder == p
  {
    hide MemOk, InsideStep;
    Outside(s.shm, s.log, s.procs[p], Consumer(CWait), w.data, w.free);
  }

  lemma StepShape(s: State, w: Witness, p: nat, rnd: nat) returns (v: Witness)
    requires Shape(s, w) && p < |s.procs|
    ensures Shape(Step(s, p, rnd), v) && DataMoves(s, p, w.data, v.data)
    ensures v.holder == HolderAfter(s, w.holder, p)
  {
    var q := s.procs[p];
    if Waiting(q) && s.sem > 0 {
      EnterShape(s, w, p, rnd);
      v := w.(holder := p);
    } else if Posting(q) {
      LeaveShape(s, w, p, rnd);
      v := w.(holder := -1);
    } else if Inside(q) {
      v := InsideShape(s, w, p, rnd);
    } else {
      v := w;
    }
  }

  function HolderAfter(s: State, holder: int, p: nat): int
    requires p < |s.procs|
  {
    if Waiting(s.procs[p]) && s.sem > 0 then p else if Posting(s.procs[p]) then -1 else holder
  }

  lemma {:induction false} RunShape(s: State, schedule: seq<Choice>) returns (w: Witness)
    requires Init(s)
    ensures Shape(Run(s, schedule), w)
    ensures |Run(s, schedule).procs| == |s.procs|
  {
    if schedule == [] {
      w := InitShape(s);
    } else {
      hide Shape, Step;
      var init := schedule[..|schedule| - 1];
      var c := schedule[|schedule| - 1];
      w := RunShape(s, init);
      if c.proc < |s.procs| {
        SameProcs(Run(s, init), c.proc, c.rnd);
        w := StepShape(Run(s, init), w, c.proc, c.rnd);
      }
    }
  }

  lemma SameProcs(s: State, p: nat, rnd: nat)
    requires p < |s.procs|
    ensures |Step(s, p, rnd).procs| == |s.procs| && |Step(s, p, rnd).shm.blocks| == |s.shm.blocks|
  {
  }

  // ---------- mutual exclusion, the partition, conservation ----------

  /** For any number of producers and consumers and any interleaving of their statements: no index
      is ever out of range, at most one process is inside its critical section, and nobody is while
      the semaphore is free. */
  lemma MutualExclusion(s: State, schedule: seq<Choice>)
    requires Init(s)
    ensures var t := Run(s, schedule);
      && !t.fault && t.sem <= 1
      && (forall p, q :: 0 <= p < q < |t.procs| ==> !(Inside(t.procs[p]) && Inside(t.procs[q])))
      && (t.sem == 1 <==> forall p :: 0 <= p < |t.procs| ==> !Inside(t.procs[p]))
  {
    hide MemOk;
    var w := RunShape(s, schedule);
  }

  /** Whenever the semaphore is free, the chains from `head` and `free_head` are acyclic, end at -1,
      share no block and together are all the blocks; the counts on them are 1 to 10 and 0. Nothing
      published is lost or reported twice, and every report gives the true extremes. */
  lemma PoolIsPartitioned(s: State, schedule: seq<Choice>) returns (data: seq<int>, free: seq<int>)
    requires Init(s) && Run(s, schedule).sem == 1
    ensures var t := Run(s, schedule);
      && Chain(t.shm.blocks, t.shm.head, data) && Chain(t.shm.blocks, t.shm.freeHead, free)
      && (forall i :: 0 <= i < |t.shm.blocks| <==> i in data + free)
      && (forall i, j :: 0 <= i < j < |data + free| ==> (data + free)[i] != (data + free)[j])
      && (forall i :: 0 <= i < |t.shm.blocks| && i in data ==> 1 <= t.shm.blocks[i].count <= 10)
      && (forall i :: 0 <= i < |t.shm.blocks| && i in free ==> t.shm.blocks[i].count == 0)
      && Counts(t.shm.blocks, data, free)
      && t.log.published == Consumed(t.log.reports) + Contents(t.shm.blocks, data)
      && (forall r :: r in t.log.reports ==> r.min in r.block && r.max in r.block)
      && (forall r, x :: r in t.log.reports && x in r.block ==> r.min <= x <= r.max)
  {
    hide Run, Shape, Chain, AllBlocks, Counts, Contents, Consumed, Extremes, Init;
    var t := Run(s, schedule);
    var w := RunShape(s, schedule);
    data, free := w.data, w.free;
    NobodyInside(t, w);
    AllOnce(data + free, |t.shm.blocks|);
  }

  lemma NobodyInside(s: State, w: Witness)
    requires Shape(s, w) && s.sem == 1
    ensures Lists(s.shm, w.data, w.free, []) && Counts(s.shm.blocks, w.data, w.free)
    ensures forall i :: i in w.data && 0 <= i < |s.shm.blocks| ==> 1 <= s.shm.blocks[i].count <= 10
    ensures forall i :: i in w.free && 0 <= i < |s.shm.blocks| ==> s.shm.blocks[i].count == 0
    ensures s.log.published == Consumed(s.log.reports) + Contents(s.shm.blocks, w.data)
    ensures forall r :: r in s.log.reports ==> r.min in r.block && r.max in r.block
    ensures forall r, x :: r in s.log.reports && x in r.block ==> r.min <= x <= r.max
  {
    hide Lists, Consumed;
    assert w.holder == -1;
    assert Conserved(s.shm.blocks, s.log, w.data, []);
  }

  lemma AllOnce(xs: seq<int>, n: nat)
    requires multiset(xs) == AllBlocks(n)
    ensures forall i :: 0 <= i < n <==> i in xs
    ensures forall i, j :: 0 <= i < j < |xs| ==> xs[i] != xs[j]
  {
    forall i ensures 0 <= i < n <==> i in xs {
      AllBlocksCount(n, i);
      assert i in xs <==> i in multiset(xs);
    }
    forall i, j | 0 <= i < j < |xs| ensures xs[i] != xs[j] {
      AllBlocksCount(n, xs[i]);
      assert xs == xs[..i] + [xs[i]] + xs[i + 1..];
      assert xs[j] in xs[i + 1..];
      assert multiset(xs) == multiset(xs[..i]) + multiset{xs[i]} + multiset(xs[i + 1..]);
    }
  }

  /** The semaphore is never lost: while some process has not left its loop, some process can move. */
  lemma SomeoneCanMove(s: State, schedule: seq<Choice>) returns (p: nat)
    requires Init(s) && exists q :: 0 <= q < |Run(s, schedule).procs| && !Exited(Run(s, schedule).procs[q])
    ensures p < |Run(s, schedule).procs| && Step(Run(s, schedule), p, 0) != Run(s, schedule)
  {
    var t := Run(s, schedule);
    var w := RunShape(s, schedule);
    if w.holder >= 0 {
      p := w.holder;
      if !Posting(t.procs[p]) {
        hide MemOk;
        var v := InsideShape(t, w, p, 0);
        MovesOn(t.shm, t.procs[p], t.log);
      }
    } else {
      p :| 0 <= p < |t.procs| && !Exited(t.procs[p]);
    }
  }

  /** No statement of a critical section leaves the process where it was. */
  lemma MovesOn(m: Shm, q: Proc, log: Log)
    requires Inside(q) && !Posting(q)
    ensures var e := InsideStep(m, q, log, 0); e.Effect? ==> e.me != q
  {
  }
}
