/** The numbers in a block of the pool are those `rand()` gave its producer for it. */
module BlockPoolDraws {
  import opened BlockPool
  import opened BlockPoolSafety
  import opened BlockPoolRuns
  import opened BlockPoolSingle

  /** What `rand()` has returned to process `p` since it last drew the count of a block, that draw included. */
  function Draws(s: State, schedule: seq<Choice>, p: nat): seq<nat> {
    if schedule == [] then []
    else
      var init, c := schedule[..|schedule| - 1], schedule[|schedule| - 1];
      var t := Run(s, init);
      var before := Draws(s, init, p);
      if c.proc != p || p >= |t.procs| || !t.procs[p].Producer? then before
      else
        match t.procs[p].ppc
        case PCount(_) => [c.rnd]
        case PFill(_, cnt, drawn) => if |drawn| < cnt then before + [c.rnd] else before
        case _ => before
  }

  /** The numbers follow the draws: the first gives how many there are, the others give them. */
  predicate Follows(numbers: seq<int>, draws: seq<nat>) {
    |draws| == |numbers| + 1 && forall i :: 0 <= i < |numbers| ==> numbers[i] == draws[i + 1] % 100
  }

  predicate Drawn(q: Proc, draws: seq<nat>) {
    match q
    case Producer(_, PFill(_, cnt, drawn)) => Follows(drawn, draws) && cnt == draws[0] % 10 + 1 && |drawn| <= cnt
    case Producer(_, PLink(_, drawn)) => Follows(drawn, draws) && |drawn| == draws[0] % 10 + 1
    case Producer(_, PPublish(_, drawn)) => Follows(drawn, draws) && |drawn| == draws[0] % 10 + 1
    case _ => true
  }

  /** A statement of the producer itself. */
  lemma DrawStep(m: Shm, n: nat, pc: ProducerPc, log: Log, rnd: nat, draws: seq<nat>)
    requires Drawn(Producer(n, pc), draws) && ProducerStep(m, n, pc, log, rnd).Effect?
    ensures var after := match pc
              case PCount(_) => [rnd]
              case PFill(_, cnt, drawn) => if |drawn| < cnt then draws + [rnd] else draws
              case _ => draws;
      Drawn(ProducerStep(m, n, pc, log, rnd).me, after)
  {
  }

  lemma NextDrawn(s: State, w: Witness, c: Choice, p: nat, draws: seq<nat>)
    requires Shape(s, w) && c.proc < |s.procs| && p < |s.procs| && Drawn(s.procs[p], draws)
    ensures var t := Step(s, c.proc, c.rnd);
      && p < |t.procs|
      && var after :=
           if c.proc != p || !s.procs[p].Producer? then draws
           else match s.procs[p].ppc
             case PCount(_) => [c.rnd]
             case PFill(_, cnt, drawn) => if |drawn| < cnt then draws + [c.rnd] else draws
             case _ => draws;
         Drawn(t.procs[p], after)
  {
    hide MemOk, ProducerStep, ConsumerStep;
    if c.proc == p && Inside(s.procs[p]) && !Posting(s.procs[p]) {
      NoFault(s, w, p, c.rnd);
      match s.procs[p]
      case Producer(n, pc) => DrawStep(s.shm, n, pc, s.log, c.rnd, draws);
      case Consumer(pc) => StaysConsumer(s.shm, pc, s.log);
    }
  }

  lemma StaysConsumer(m: Shm, pc: ConsumerPc, log: Log)
    ensures var e := ConsumerStep(m, pc, log); e.Effect? ==> e.me.Consumer?
  {
  }

  lemma {:induction false} RunDrawn(s: State, schedule: seq<Choice>, p: nat)
    requires Init(s) && p < |s.procs|
    ensures p < |Run(s, schedule).procs| && Drawn(Run(s, schedule).procs[p], Draws(s, schedule, p))
  {
    hide Drawn, Step, Shape, Init;
    if schedule == [] {
      StartDrawn(s, p);
    } else {
      var init, c := schedule[..|schedule| - 1], schedule[|schedule| - 1];
      RunDrawn(s, init, p);
      SameProcsRun(s, init);
      if c.proc < |s.procs| {
        var w := RunShape(s, init);
        NextDrawn(Run(s, init), w, c, p, Draws(s, init, p));
      }
    }
  }

  lemma StartDrawn(s: State, p: nat)
    requires Init(s) && p < |s.procs|
    ensures Drawn(s.procs[p], [])
  {
  }

  /** In any run, the block a producer is about to publish holds `rand() % 10 + 1` numbers, each of them
      `rand() % 100` of one more draw, in order; and publishing it adds just that block. */
  lemma PublishedAsDrawn(s: State, schedule: seq<Choice>, p: nat, rnd: nat)
    requires Init(s) && p < |s.procs| && p < |Run(s, schedule).procs|
    requires Run(s, schedule).procs[p].Producer? && Run(s, schedule).procs[p].ppc.PPublish?
    ensures var t := Run(s, schedule); var d := Draws(s, schedule, p); var numbers := t.procs[p].ppc.drawn;
      && |d| == |numbers| + 1 && |numbers| == d[0] % 10 + 1
      && (forall i :: 0 <= i < |numbers| ==> numbers[i] == d[i + 1] % 100)
      && Step(t, p, rnd).log.published == t.log.published + multiset{numbers}
  {
    hide Run, Draws, Init;
    RunDrawn(s, schedule, p);
  }
}
