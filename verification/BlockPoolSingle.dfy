/** The block pool with one producer: everything produced is consumed before anyone gives up, and
    the whole run does a bounded amount of work. */
module BlockPoolSingle {
  import opened BlockPool
  import opened BlockPoolSafety
  import opened BlockPoolRuns

  ghost predicate SoleProducer(s: State) {
    && |s.procs| > 0 && s.procs[0].Producer?
    && forall p :: 0 < p < |s.procs| ==> s.procs[p].Consumer?
  }

  // ---------- the invariant ----------

  /** What the producer has generated against what it has published and announced. */
  predicate ProducerOk(done: bool, made: nat, n: nat, pc: ProducerPc) {
    && n <= QUOTA
    && made == n + (if pc.PIncrement? then 1 else 0)
    && (pc.PTake? || pc.PUnlink? || pc.PCount? || pc.PFill? || pc.PLink? || pc.PPublish? || pc.PIncrement? ==>
          n < QUOTA)
    && (pc.PSetDone? || pc.PLastPost? || pc.PExited? ==> n == QUOTA)
    && (done <==> pc.PLastPost? || pc.PExited?)
  }

  /** A consumer that has decided to stop, or has stopped. */
  predicate Stopping(q: Proc) {
    q.Consumer? && (q.cpc.CLastPost? || q.cpc.CExited?)
  }

  /** A consumer between taking a block and its `sem_post`. */
  predicate Consuming(q: Proc) {
    q.Consumer? && (q.cpc.CPost? || Held(q) != [])
  }

  /** Nothing is left to consume, and nothing more will come. */
  ghost predicate Drained(s: State, w: Witness) {
    s.shm.prodDone && w.data == [] && !Consuming(Current(s, w.holder))
  }

  ghost predicate Single(s: State, w: Witness) {
    && Shape(s, w) && SoleProducer(s)
    && ProducerOk(s.shm.prodDone, |s.log.published|, s.procs[0].generated, s.procs[0].ppc)
    && forall p :: 0 <= p < |s.procs| && Stopping(s.procs[p]) ==> Drained(s, w)
  }

  // ---------- it holds in every reachable state ----------

  lemma ProducerOkStep(m: Shm, n: nat, pc: ProducerPc, log: Log, rnd: nat)
    requires ProducerOk(m.prodDone, |log.published|, n, pc) && !Waiting(Producer(n, pc)) && !Exited(Producer(n, pc))
    ensures var e := ProducerStep(m, n, pc, log, rnd);
      e.Effect? ==> e.me.Producer? && ProducerOk(e.shm.prodDone, |e.log.published|, e.me.generated, e.me.ppc)
    ensures var e := ProducerStep(m, n, pc, log, rnd);
      e.Effect? && m.prodDone ==> e.shm.prodDone
  {
  }

  lemma ConsumerStepKeeps(m: Shm, pc: ConsumerPc, log: Log)
    ensures var e := ConsumerStep(m, pc, log); e.Effect? ==>
      e.me.Consumer? && e.shm.prodDone == m.prodDone && e.log.published == log.published
  {
  }

  /** A consumer decides to stop only after seeing an empty list and then `prod_done`. */
  lemma StopsWhenDrained(m: Shm, log: Log, pc: ConsumerPc, data: seq<int>, free: seq<int>)
    requires MemOk(m, log, Consumer(pc), data, free) && !Stopping(Consumer(pc))
    ensures var e := ConsumerStep(m, pc, log); e.Effect? && Stopping(e.me) ==>
      m.prodDone && data == [] && !Consuming(e.me) && e.shm == m && e.log == log
  {
    hide Lists, Counts, Conserved;
  }

  /** Once there is nothing left no process takes or publishes a block. */
  lemma DrainedStays(s: State, w: Witness, p: nat, rnd: nat, v: Witness)
    requires Single(s, w) && Drained(s, w) && p < |s.procs|
    requires v.holder == HolderAfter(s, w.holder, p) && DataMoves(s, p, w.data, v.data) && Shape(Step(s, p, rnd), v)
    ensures Drained(Step(s, p, rnd), v) && Step(s, p, rnd).log == s.log
  {
    hide Lists, Counts, Conserved;
    var q := s.procs[p];
    if Inside(q) {
      assert w.holder == p;
      if q.Producer? {
        assert p == 0;
        assert q.ppc.PLastPost?;
      } else {
        DrainedConsumer(s.shm, s.log, q.cpc, w.free);
      }
    }
  }

  lemma DrainedConsumer(m: Shm, log: Log, pc: ConsumerPc, free: seq<int>)
    requires MemOk(m, log, Consumer(pc), [], free) && !Consuming(Consumer(pc)) && Inside(Consumer(pc))
    ensures !pc.CUnlink?
    ensures var e := ConsumerStep(m, pc, log); e.Effect? && e.log == log && e.shm == m && !Consuming(e.me)
  {
    hide Lists, Counts, Conserved;
    assert Lists(m, [], free, Held(Consumer(pc)));
    HeadOfEmpty(m, free, Held(Consumer(pc)));
  }

  lemma HeadOfEmpty(m: Shm, free: seq<int>, held: seq<int>)
    requires Lists(m, [], free, held)
    ensures m.head == -1
  {
  }

  lemma SingleStep(s: State, w: Witness, p: nat, rnd: nat) returns (v: Witness)
    requires Single(s, w) && p < |s.procs|
    ensures Single(Step(s, p, rnd), v)
    ensures v.holder == HolderAfter(s, w.holder, p) && DataMoves(s, p, w.data, v.data)
  {
    hide MemOk, Step;
    v := StepShape(s, w, p, rnd);
    var t := Step(s, p, rnd);
    SoleStep(s, w, p, rnd);
    forall r | 0 <= r < |t.procs| && Stopping(t.procs[r]) ensures Drained(t, v) {
      if Stopping(s.procs[r]) {
        DrainedStays(s, w, p, rnd, v);
      } else {
        FirstStop(s, w, p, rnd, v, r);
      }
    }
  }

  lemma SoleStep(s: State, w: Witness, p: nat, rnd: nat)
    requires Single(s, w) && p < |s.procs|
    ensures var t := Step(s, p, rnd);
      && SoleProducer(t) && |t.procs| == |s.procs|
      && ProducerOk(t.shm.prodDone, |t.log.published|, t.procs[0].generated, t.procs[0].ppc)
  {
    hide MemOk, ProducerStep, ConsumerStep;
    match s.procs[p]
    case Producer(n, pc) =>
      assert p == 0;
      if Inside(s.procs[p]) {
        ProducerOkStep(s.shm, n, pc, s.log, rnd);
      }
    case Consumer(pc) =>
      ConsumerStepKeeps(s.shm, pc, s.log);
  }

  lemma FirstStop(s: State, w: Witness, p: nat, rnd: nat, v: Witness, r: nat)
    requires Single(s, w) && p < |s.procs|
    requires v.holder == HolderAfter(s, w.holder, p) && DataMoves(s, p, w.data, v.data) && Shape(Step(s, p, rnd), v)
    requires r < |s.procs| && !Stopping(s.procs[r]) && Stopping(Step(s, p, rnd).procs[r])
    ensures Drained(Step(s, p, rnd), v)
  {
    hide MemOk, ProducerStep, ConsumerStep;
    assert r == p;
    match s.procs[p]
    case Producer(n, pc) =>
      if Inside(s.procs[p]) {
        ProducerOkStep(s.shm, n, pc, s.log, rnd);
      }
    case Consumer(pc) =>
      if Inside(s.procs[p]) && !Posting(s.procs[p]) {
        assert w.holder == p;
        StopsWhenDrained(s.shm, s.log, pc, w.data, w.free);
      }
  }

  // ---------- the work that is left ----------

  /** The processes that have not left their loop. */
  function Alive(procs: seq<Proc>): nat {
    if procs == [] then 0
    else Alive(procs[..|procs| - 1]) + (if Exited(procs[|procs| - 1]) then 0 else 1)
  }

  lemma {:induction false} AliveUpdate(procs: seq<Proc>, p: nat, q: Proc)
    requires p < |procs|
    ensures Alive(procs[p := q]) + (if Exited(procs[p]) then 0 else 1) == Alive(procs) + (if Exited(q) then 0 else 1)
  {
    var init := procs[..|procs| - 1];
    if p == |procs| - 1 {
      assert procs[p := q][..p] == init;
    } else {
      assert procs[p := q][..|procs| - 1] == init[p := q];
      AliveUpdate(init, p, q);
    }
  }

  /** The critical sections still to come that will do more than wait: one per block to produce, one
      per block to consume, one per process to leave. */
  ghost function WorkLeft(s: State, w: Witness): int
    requires SoleProducer(s)
  {
    var me := s.procs[0];
    (QUOTA - me.generated) + (if me.ppc.PPost? then 1 else 0)
    + (QUOTA - |s.log.published|) + |w.data| + (if Consuming(Current(s, w.holder)) then 1 else 0)
    + Alive(s.procs)
  }

  lemma ProducerWork(m: Shm, n: nat, pc: ProducerPc, log: Log, rnd: nat)
    requires !Posting(Producer(n, pc))
    ensures var e := ProducerStep(m, n, pc, log, rnd); e.Effect? ==>
      && e.me.Producer?
      && (pc.PPublish? ==> |e.log.published| == |log.published| + 1)
      && (!pc.PPublish? ==> e.log == log)
      && e.me.generated == (if pc.PIncrement? then n + 1 else n)
      && (e.me.ppc.PPost? <==> pc.PIncrement?)
  {
  }

  lemma ConsumerWork(m: Shm, pc: ConsumerPc, log: Log)
    requires !Posting(Consumer(pc))
    ensures var e := ConsumerStep(m, pc, log); e.Effect? ==>
      && e.me.Consumer? && e.log.published == log.published
      && (Consuming(e.me) <==> Consuming(Consumer(pc)) || pc.CUnlink?)
  {
  }

  /** Each step either does nothing to the work left, or completes one section of it. */
  lemma WorkStep(s: State, w: Witness, p: nat, rnd: nat, v: Witness)
    requires Single(s, w) && p < |s.procs| && Single(Step(s, p, rnd), v)
    requires v.holder == HolderAfter(s, w.holder, p) && DataMoves(s, p, w.data, v.data)
    ensures Step(s, p, rnd).sections + WorkLeft(Step(s, p, rnd), v) == s.sections + WorkLeft(s, w)
  {
    hide MemOk, ProducerStep, ConsumerStep, Alive, ProducerOk;
    var t := Step(s, p, rnd);
    var q := s.procs[p];
    AliveUpdate(s.procs, p, t.procs[p]);
    if Exited(q) || (Waiting(q) && s.sem == 0) {
      assert t == s;
    } else {
      assert t.procs == s.procs[p := t.procs[p]];
      if Inside(q) && !Posting(q) {
        assert w.holder == v.holder == p;
        match q
        case Producer(n, pc) => ProducerWork(s.shm, n, pc, s.log, rnd);
        case Consumer(pc) => ConsumerWork(s.shm, pc, s.log);
      }
    }
  }

  lemma {:induction false} AliveInit(procs: seq<Proc>)
    requires forall p :: 0 <= p < |procs| ==> !Exited(procs[p])
    ensures Alive(procs) == |procs|
  {
    if procs != [] {
      AliveInit(procs[..|procs| - 1]);
    }
  }

  lemma InitSingle(s: State) returns (w: Witness)
    requires Init(s) && SoleProducer(s)
    ensures Single(s, w) && s.sections + WorkLeft(s, w) == 2 * QUOTA + |s.procs|
  {
    w := InitShape(s);
    AliveInit(s.procs);
  }

  lemma {:induction false} RunSingle(s: State, schedule: seq<Choice>) returns (w: Witness)
    requires Init(s) && SoleProducer(s)
    ensures Single(Run(s, schedule), w) && |Run(s, schedule).procs| == |s.procs|
    ensures Run(s, schedule).sections + WorkLeft(Run(s, schedule), w) == 2 * QUOTA + |s.procs|
  {
    hide Single, Step, WorkLeft, Init;
    if schedule == [] {
      w := InitSingle(s);
    } else {
      var init := schedule[..|schedule| - 1];
      var c := schedule[|schedule| - 1];
      w := RunSingle(s, init);
      var t := Run(s, init);
      SameProcsRun(s, init);
      if c.proc < |t.procs| {
        SameProcs(t, c.proc, c.rnd);
        var v := SingleStep(t, w, c.proc, c.rnd);
        WorkStep(t, w, c.proc, c.rnd, v);
        w := v;
      }
    }
  }

  lemma {:induction false} SameProcsRun(s: State, schedule: seq<Choice>)
    ensures |Run(s, schedule).procs| == |s.procs| && |Run(s, schedule).shm.blocks| == |s.shm.blocks|
  {
    if schedule != [] {
      var init := schedule[..|schedule| - 1];
      SameProcsRun(s, init);
      var c := schedule[|schedule| - 1];
      if c.proc < |s.procs| {
        SameProcs(Run(s, init), c.proc, c.rnd);
      }
    }
  }

  // ---------- the results ----------

  /** A consumer leaves its loop only after the producer has made its ten blocks and every one of
      them has been reported exactly once; the list is then empty. */
  lemma ExitMeansConsumed(s: State, schedule: seq<Choice>, p: nat)
    requires Init(s) && SoleProducer(s)
    requires p < |Run(s, schedule).procs| && Run(s, schedule).procs[p] == Consumer(CExited)
    ensures var t := Run(s, schedule);
      t.log.published == Consumed(t.log.reports) && |t.log.published| == 10 && t.shm.head == -1
  {
    var t := Run(s, schedule);
    var w := RunSingle(s, schedule);
    assert Stopping(t.procs[p]) && Drained(t, w);
    var q := Current(t, w.holder);
    assert Lists(t.shm, [], w.free, Held(q)) && Conserved(t.shm.blocks, t.log, [], Unreported(q));
    HeadOfEmpty(t.shm, w.free, Held(q));
    assert Unreported(q) == [];
  }

  lemma ExitStep(s: State, w: Witness, p: nat, rnd: nat, r: nat)
    requires Single(s, w) && p < |s.procs| && r < |s.procs| && s.procs[r] == Consumer(CExited)
    ensures Step(s, p, rnd).log == s.log
    ensures |Step(s, p, rnd).procs| == |s.procs| && Step(s, p, rnd).procs[r] == Consumer(CExited)
  {
    assert Stopping(s.procs[r]) && Drained(s, w);
    ExitedStays(s, p, rnd, r);
    hide Step, Drained;
    var v := SingleStep(s, w, p, rnd);
    DrainedStays(s, w, p, rnd, v);
  }

  /** ... and from then on nothing is published or reported any more. */
  lemma {:induction false} ExitIsFinal(s: State, schedule: seq<Choice>, p: nat, more: seq<Choice>)
    requires Init(s) && SoleProducer(s)
    requires p < |Run(s, schedule).procs| && Run(s, schedule).procs[p] == Consumer(CExited)
    ensures Run(s, schedule + more).log == Run(s, schedule).log
    ensures p < |Run(s, schedule + more).procs| && Run(s, schedule + more).procs[p] == Consumer(CExited)
  {
    hide Init, SoleProducer, Step, Single, Run;
    if more == [] {
      assert schedule + more == schedule;
    } else {
      var init, c := more[..|more| - 1], more[|more| - 1];
      ExitIsFinal(s, schedule, p, init);
      assert schedule + more == (schedule + init) + [c];
      RunNext(s, schedule + init, c);
      var t := Run(s, schedule + init);
      var w := RunSingle(s, schedule + init);
      if c.proc < |t.procs| {
        ExitStep(t, w, c.proc, c.rnd, p);
      }
    }
  }

  lemma RunNext(s: State, schedule: seq<Choice>, c: Choice)
    ensures var t := Run(s, schedule);
      Run(s, schedule + [c]) == if c.proc < |t.procs| then Step(t, c.proc, c.rnd) else t
  {
    assert (schedule + [c])[..|schedule|] == schedule;
  }

  lemma ExitedStays(s: State, p: nat, rnd: nat, r: nat)
    requires p < |s.procs| && r < |s.procs| && s.procs[r] == Consumer(CExited)
    ensures |Step(s, p, rnd).procs| == |s.procs| && Step(s, p, rnd).procs[r] == Consumer(CExited)
  {
  }

  /** All the critical sections of a run that do more than wait are at most 21 and one per consumer;
      when every process has left its loop they are exactly that many. */
  lemma WorkIsBounded(s: State, schedule: seq<Choice>)
    requires Init(s) && SoleProducer(s)
    ensures var t := Run(s, schedule); var consumers := |s.procs| - 1;
      && t.sections <= 21 + consumers
      && ((forall p :: 0 <= p < |t.procs| ==> Exited(t.procs[p])) && consumers > 0 ==> t.sections == 21 + consumers)
  {
    hide Shape;
    var t := Run(s, schedule);
    var w := RunSingle(s, schedule);
    if (forall p :: 0 <= p < |t.procs| ==> Exited(t.procs[p])) && |s.procs| > 1 {
      assert Stopping(t.procs[1]);
      AliveNone(t.procs);
    }
  }

  lemma {:induction false} AliveNone(procs: seq<Proc>)
    requires forall p :: 0 <= p < |procs| ==> Exited(procs[p])
    ensures Alive(procs) == 0
  {
    if procs != [] {
      AliveNone(procs[..|procs| - 1]);
    }
  }

  lemma {:induction false} ContentsSize(blocks: seq<Block>, h: int, xs: seq<int>)
    requires Chain(blocks, h, xs)
    ensures |Contents(blocks, xs)| == |xs|
    decreases xs
  {
    if xs != [] {
      ContentsSize(blocks, blocks[h].next, xs[1..]);
    }
  }

  lemma {:induction false} AllBlocksSize(n: nat)
    ensures |AllBlocks(n)| == n
  {
    if n > 0 {
      AllBlocksSize(n - 1);
    }
  }

  /** With more than ten blocks the producer never finds the free list empty, so it never waits. */
  lemma NeverStarved(s: State, schedule: seq<Choice>)
    requires Init(s) && SoleProducer(s) && |s.shm.blocks| > 10
    ensures var t := Run(s, schedule);
      forall p :: 0 <= p < |t.procs| && t.procs[p].Producer? && t.procs[p].ppc.PCheckFree? ==> t.shm.freeHead != -1
  {
    var t := Run(s, schedule);
    SameProcsRun(s, schedule);
    var w := RunSingle(s, schedule);
    if t.procs[0].ppc.PCheckFree? {
      assert w.holder == 0;
      assert Lists(t.shm, w.data, w.free, []) && Conserved(t.shm.blocks, t.log, w.data, []);
      ContentsSize(t.shm.blocks, t.shm.head, w.data);
      AllBlocksSize(|t.shm.blocks|);
      assert |multiset(w.data) + multiset(w.free) + multiset([])| == |w.data| + |w.free|;
    }
  }
}
