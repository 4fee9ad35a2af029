/** The block pool with one producer comes to its end: from wherever a run has got to, it can be continued
    until every process has left its loop. */
module BlockPoolFinish {
  import opened BlockPool
  import opened BlockPoolSafety
  import opened BlockPoolRuns
  import opened BlockPoolSingle

  // ---------- one critical section, to its end ----------

  /** A bound on the statements a process has still to run before its `sem_post`. */
  function Left(m: Shm, q: Proc): nat {
    match q
    case Producer(_, PCheckFree) => 40
    case Producer(_, PCheckQuota) => 39
    case Producer(_, PSetDone) => 1
    case Producer(_, PTake) => 38
    case Producer(_, PUnlink(_)) => 37
    case Producer(_, PCount(_)) => 36
    case Producer(_, PFill(_, cnt, drawn)) => if |drawn| < cnt then 10 + cnt - |drawn| else 10
    case Producer(_, PLink(_, _)) => 4
    case Producer(_, PPublish(_, _)) => 3
    case Producer(_, PIncrement) => 2
    case Consumer(CCheckHead) => 40
    case Consumer(CCheckDone) => 39
    case Consumer(CTake) => 38
    case Consumer(CUnlink(_)) => 37
    case Consumer(CFirst(_)) => 36
    case Consumer(CScan(idx, i, _, _)) =>
      if InRange(m.blocks, idx) && i < m.blocks[idx].count then 10 + m.blocks[idx].count - i else 10
    case Consumer(CReport(_, _, _)) => 5
    case Consumer(CClear(_)) => 4
    case Consumer(CLink(_)) => 3
    case Consumer(CRelease(_)) => 2
    case _ => 0
  }

  /** A section that will do more than wait. */
  predicate Works(m: Shm, q: Proc) {
    match q
    case Producer(_, PCheckFree) => m.freeHead != -1
    case Producer(_, pc) => !pc.PRetryPost? && !pc.PWait? && !pc.PExited?
    case Consumer(CCheckHead) => m.head != -1 || m.prodDone
    case Consumer(CCheckDone) => m.prodDone
    case Consumer(pc) => !pc.CRetryPost? && !pc.CWait? && !pc.CExited?
  }

  lemma ProducerGoesOn(m: Shm, log: Log, n: nat, pc: ProducerPc, data: seq<int>, free: seq<int>)
    requires MemOk(m, log, Producer(n, pc), data, free) && Inside(Producer(n, pc)) && !Posting(Producer(n, pc))
    ensures var e := ProducerStep(m, n, pc, log, 0); e.Effect? ==>
      Left(e.shm, e.me) < Left(m, Producer(n, pc)) && (Works(m, Producer(n, pc)) ==> Works(e.shm, e.me))
  {
    hide Lists, Counts, Conserved;
  }

  lemma ConsumerGoesOn(m: Shm, log: Log, pc: ConsumerPc, data: seq<int>, free: seq<int>)
    requires MemOk(m, log, Consumer(pc), data, free) && Inside(Consumer(pc)) && !Posting(Consumer(pc))
    ensures var e := ConsumerStep(m, pc, log); e.Effect? ==>
      Left(e.shm, e.me) < Left(m, Consumer(pc)) && (Works(m, Consumer(pc)) ==> Works(e.shm, e.me))
  {
    hide Lists, Counts, Conserved, Extremes;
  }

  /** One more statement of the process in its critical section. */
  lemma GoesOn(s: State, w: Witness, p: nat)
    requires Shape(s, w) && p < |s.procs| && w.holder == p && !Posting(s.procs[p])
    ensures var t := Step(s, p, 0);
      && p < |t.procs| && Left(t.shm, t.procs[p]) < Left(s.shm, s.procs[p]) && t.sections == s.sections
      && (Works(s.shm, s.procs[p]) ==> Works(t.shm, t.procs[p]))
  {
    hide MemOk, ProducerStep, ConsumerStep, Left, Works;
    assert Inside(s.procs[p]);
    match s.procs[p]
    case Producer(n, pc) =>
      ProducerGoesOn(s.shm, s.log, n, pc, w.data, w.free);
      NoFault(s, w, p, 0);
    case Consumer(pc) =>
      ConsumerGoesOn(s.shm, s.log, pc, w.data, w.free);
      NoFault(s, w, p, 0);
  }

  lemma Posts(s: State, w: Witness, p: nat)
    requires Shape(s, w) && p < |s.procs| && w.holder == p && Posting(s.procs[p])
    ensures var t := Step(s, p, 0);
      t.sem == 1 && t.sections == s.sections + if RetryPost(s.procs[p]) then 0 else 1
    ensures Works(s.shm, s.procs[p]) ==> !RetryPost(s.procs[p])
  {
    hide MemOk;
  }

  /** Letting the process in its critical section run to its `sem_post`. */
  lemma {:induction false} Finishes(s: State, schedule: seq<Choice>, p: nat) returns (more: seq<Choice>)
    requires Init(s) && p < |s.procs| && |Run(s, schedule).procs| == |s.procs| && Inside(Run(s, schedule).procs[p])
    ensures var t, u := Run(s, schedule), Run(s, schedule + more);
      && u.sem == 1 && u.sections >= t.sections
      && (Works(t.shm, t.procs[p]) ==> u.sections > t.sections)
    decreases Left(Run(s, schedule).shm, Run(s, schedule).procs[p])
  {
    hide Init, Run, Shape, Step, Left, Works, Inside;
    var t := Run(s, schedule);
    var w := RunShape(s, schedule);
    HolderInside(t, w, p);
    RunNext(s, schedule, Choice(p, 0));
    SameProcsRun(s, schedule);
    SameProcsRun(s, schedule + [Choice(p, 0)]);
    if Posting(t.procs[p]) {
      Posts(t, w, p);
      more := [Choice(p, 0)];
    } else {
      GoesOn(t, w, p);
      StillInside(t, w, p);
      var rest := Finishes(s, schedule + [Choice(p, 0)], p);
      more := [Choice(p, 0)] + rest;
      assert schedule + more == schedule + [Choice(p, 0)] + rest;
    }
  }

  lemma HolderInside(s: State, w: Witness, p: nat)
    requires Shape(s, w) && p < |s.procs|
    ensures Inside(s.procs[p]) <==> w.holder == p
  {
    hide MemOk;
  }

  lemma StillInside(s: State, w: Witness, p: nat)
    requires Shape(s, w) && p < |s.procs| && w.holder == p && !Posting(s.procs[p])
    ensures p < |Step(s, p, 0).procs| && Inside(Step(s, p, 0).procs[p])
  {
    hide MemOk;
    HolderInside(s, w, p);
    var v := InsideShape(s, w, p, 0);
  }

  /** With nobody inside, a process that has not left is about to enter. */
  lemma Enters(s: State, w: Witness, p: nat)
    requires Shape(s, w) && s.sem == 1 && p < |s.procs| && !Exited(s.procs[p])
    ensures Waiting(s.procs[p])
    ensures var t := Step(s, p, 0);
      && p < |t.procs| && t.shm == s.shm && t.procs[p] == Entered(s.procs[p]) && Inside(t.procs[p])
      && t.sections == s.sections
  {
    hide MemOk;
    HolderInside(s, w, p);
  }

  // ---------- there is always a section that works ----------

  predicate AllExited(procs: seq<Proc>) {
    forall p :: 0 <= p < |procs| ==> Exited(procs[p])
  }

  /** Enough to go on for a producer that is alone: it needs a free block to find out that it is done. */
  predicate CanEnd(s: State) {
    |s.procs| > 1 || |s.shm.blocks| > 10
  }

  /** What the lists say when nobody is inside. */
  lemma ListsOutside(s: State, w: Witness)
    requires Single(s, w) && s.sem == 1 && |s.shm.blocks| > 0
    ensures w.data != [] ==> s.shm.head != -1
    ensures w.data == [] || |s.shm.blocks| > QUOTA ==> s.shm.freeHead != -1
  {
    assert w.holder == -1;
    assert Lists(s.shm, w.data, w.free, []) && Conserved(s.shm.blocks, s.log, w.data, []);
    ContentsSize(s.shm.blocks, s.shm.head, w.data);
    AllBlocksSize(|s.shm.blocks|);
    assert |multiset(w.data) + multiset(w.free) + multiset([])| == |w.data| + |w.free|;
    FreeIsEmpty(s.shm, w.data, w.free, []);
  }

  /** Some process that has not left will do more than wait: a consumer while there is something to consume,
      the producer while it has not announced the end, and then any consumer. */
  lemma SomeoneWorks(s: State, w: Witness) returns (p: nat)
    requires Single(s, w) && s.sem == 1 && |s.shm.blocks| > 0 && CanEnd(s) && !AllExited(s.procs)
    ensures p < |s.procs| && !Exited(s.procs[p]) && Works(s.shm, Entered(s.procs[p]))
  {
    hide Shape;
    ListsOutside(s, w);
    if w.data != [] && |s.procs| > 1 {
      p := 1;
      assert !Stopping(s.procs[1]);
    } else if !Exited(s.procs[0]) {
      p := 0;
    } else {
      p :| 0 <= p < |s.procs| && !Exited(s.procs[p]);
    }
  }

  lemma StillCanEnd(s: State, schedule: seq<Choice>)
    requires Init(s) && CanEnd(s)
    ensures CanEnd(Run(s, schedule)) && |Run(s, schedule).shm.blocks| > 0
    ensures |Run(s, schedule).procs| == |s.procs|
  {
    SameProcsRun(s, schedule);
  }

  /** The next section that works, from a state with nobody inside. */
  lemma NextSection(s: State, schedule: seq<Choice>) returns (more: seq<Choice>)
    requires Init(s) && SoleProducer(s) && CanEnd(s)
    requires Run(s, schedule).sem == 1 && !AllExited(Run(s, schedule).procs)
    ensures Run(s, schedule + more).sem == 1 && Run(s, schedule + more).sections > Run(s, schedule).sections
  {
    hide Init, Run, Single, Step, Works, SoleProducer, CanEnd, AllExited;
    var t := Run(s, schedule);
    var w := RunSingle(s, schedule);
    StillCanEnd(s, schedule);
    var p := SomeoneWorks(t, w);
    SingleShape(t, w);
    Enters(t, w, p);
    RunNext(s, schedule, Choice(p, 0));
    SameProcsRun(s, schedule + [Choice(p, 0)]);
    var rest := Finishes(s, schedule + [Choice(p, 0)], p);
    more := [Choice(p, 0)] + rest;
    assert schedule + more == schedule + [Choice(p, 0)] + rest;
  }

  lemma SingleShape(s: State, w: Witness)
    requires Single(s, w)
    ensures Shape(s, w)
  {
  }

  /** Letting whoever is inside leave. */
  lemma Clears(s: State, schedule: seq<Choice>) returns (more: seq<Choice>)
    requires Init(s)
    ensures Run(s, schedule + more).sem == 1 && Run(s, schedule + more).sections >= Run(s, schedule).sections
  {
    hide Init, Run, Shape, Step, Works;
    var w := RunShape(s, schedule);
    SemIs(Run(s, schedule), w);
    if w.holder >= 0 {
      HolderInside(Run(s, schedule), w, w.holder);
      more := Finishes(s, schedule, w.holder);
    } else {
      more := [];
      assert schedule + more == schedule;
    }
  }

  lemma SemIs(s: State, w: Witness)
    requires Shape(s, w)
    ensures -1 <= w.holder < |s.procs| && (s.sem == 1 <==> w.holder == -1)
  {
    hide MemOk;
  }

  lemma {:induction false} FinishOutside(s: State, schedule: seq<Choice>) returns (more: seq<Choice>)
    requires Init(s) && SoleProducer(s) && CanEnd(s) && Run(s, schedule).sem == 1
    ensures AllExited(Run(s, schedule + more).procs)
    decreases 21 + |s.procs| - Run(s, schedule).sections
  {
    hide Init, Run, SoleProducer, CanEnd, AllExited;
    if AllExited(Run(s, schedule).procs) {
      more := [];
      assert schedule + more == schedule;
    } else {
      var next := NextSection(s, schedule);
      WorkIsBounded(s, schedule + next);
      var rest := FinishOutside(s, schedule + next);
      more := next + rest;
      assert schedule + more == schedule + next + rest;
    }
  }

  /** From every reachable state the run can be continued until all processes have left their loops, if there
      is a consumer or more blocks than the producer makes. */
  lemma CanFinish(s: State, schedule: seq<Choice>) returns (more: seq<Choice>)
    requires Init(s) && SoleProducer(s) && CanEnd(s)
    ensures AllExited(Run(s, schedule + more).procs)
  {
    hide Init, Run, SoleProducer, CanEnd, AllExited;
    var first := Clears(s, schedule);
    var rest := FinishOutside(s, schedule + first);
    more := first + rest;
    assert schedule + more == schedule + first + rest;
  }

  // ---------- a producer alone with too few blocks ----------

  /** A producer that is alone has reported nothing, and has announced the end only with a block to spare. */
  ghost predicate Alone(s: State) {
    && |s.procs| == 1 && s.procs[0].Producer? && s.log.reports == []
    && (s.procs[0].ppc.PSetDone? || s.procs[0].ppc.PLastPost? || s.procs[0].ppc.PExited? ==> |s.shm.blocks| > QUOTA)
  }

  /** It sees a free block after making ten: eleven blocks at least. */
  lemma SpareBlock(m: Shm, log: Log, n: nat, data: seq<int>, free: seq<int>)
    requires MemOk(m, log, Producer(n, PCheckQuota), data, free) && log.reports == [] && |log.published| == QUOTA
    ensures |m.blocks| > QUOTA
  {
    assert Lists(m, data, free, []) && Conserved(m.blocks, log, data, []);
    ContentsSize(m.blocks, m.head, data);
    AllBlocksSize(|m.blocks|);
    assert |multiset(data) + multiset(free) + multiset([])| == |data| + |free|;
  }

  lemma AloneStep(s: State, w: Witness, rnd: nat)
    requires Single(s, w) && Alone(s)
    ensures Alone(Step(s, 0, rnd))
  {
    hide MemOk, Drained;
    var n, pc := s.procs[0].generated, s.procs[0].ppc;
    if pc.PCheckQuota? && n >= QUOTA {
      SpareBlock(s.shm, s.log, n, w.data, w.free);
    }
  }

  lemma {:induction false} RunAlone(s: State, schedule: seq<Choice>)
    requires Init(s) && SoleProducer(s) && |s.procs| == 1
    ensures Alone(Run(s, schedule))
  {
    hide Step, Single, Alone;
    if schedule == [] {
      StartAlone(s);
    } else {
      var init, c := schedule[..|schedule| - 1], schedule[|schedule| - 1];
      RunAlone(s, init);
      SameProcsRun(s, init);
      if c.proc < |Run(s, init).procs| {
        var w := RunSingle(s, init);
        AloneStep(Run(s, init), w, c.rnd);
      }
    }
  }

  lemma StartAlone(s: State)
    requires Init(s) && SoleProducer(s) && |s.procs| == 1
    ensures Alone(s)
  {
  }

  /** A reachable one-producer state can be continued until all processes have left if and only if there is a
      consumer or there are more than ten blocks: a producer alone with ten blocks waits for ever to find
      out that it is done. */
  lemma CanFinishExactly(s: State, schedule: seq<Choice>)
    requires Init(s) && SoleProducer(s)
    ensures (exists more :: AllExited(Run(s, schedule + more).procs)) <==> CanEnd(s)
  {
    hide Init, Run, SoleProducer;
    if CanEnd(s) {
      var more := CanFinish(s, schedule);
    } else {
      HasProducer(s);
      forall more ensures !AllExited(Run(s, schedule + more).procs) {
        RunAlone(s, schedule + more);
        SameProcsRun(s, schedule + more);
      }
    }
  }

  lemma HasProducer(s: State)
    requires SoleProducer(s)
    ensures |s.procs| > 0
  {
  }
}
