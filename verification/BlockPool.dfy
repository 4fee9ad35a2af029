/** The shared-memory block pool: blocks on two index-linked lists, any number of producers and
    consumers, one semaphore. Every C statement is a step of its own, so processes interleave
    between the statements of a critical section. */
module BlockPool {

  const DATA_SIZE := 10
  const QUOTA := 10  // the blocks one producer makes

  datatype Block = Block(count: int, next: int, data: seq<int>)

  /** `struct SharedMem` but for the semaphore. */
  datatype Shm = Shm(head: int, freeHead: int, prodDone: bool, blocks: seq<Block>)

  /** The program counter of a producer, with its locals `idx`, `cnt` and `i`; `drawn` is the list
      of random numbers it has written into the block so far. */
  datatype ProducerPc =
    | PWait
    | PCheckFree
    | PRetryPost
    | PCheckQuota
    | PSetDone
    | PLastPost
    | PExited
    | PTake
    | PUnlink(idx: int)
    | PCount(idx: int)
    | PFill(idx: int, cnt: nat, drawn: seq<int>)
    | PLink(idx: int, drawn: seq<int>)
    | PPublish(idx: int, drawn: seq<int>)
    | PIncrement
    | PPost

  /** The program counter of a consumer, with its locals `idx`, `min`, `max` and `i`. */
  datatype ConsumerPc =
    | CWait
    | CCheckHead
    | CCheckDone
    | CLastPost
    | CExited
    | CRetryPost
    | CTake
    | CUnlink(idx: int)
    | CFirst(idx: int)
    | CScan(idx: int, i: nat, min: int, max: int)
    | CReport(idx: int, min: int, max: int)
    | CClear(idx: int)
    | CLink(idx: int)
    | CRelease(idx: int)
    | CPost

  datatype Proc = Producer(generated: nat, ppc: ProducerPc) | Consumer(cpc: ConsumerPc)

  /** What a consumer printed, and the numbers that were in the block when it did. */
  datatype Report = Report(block: seq<int>, min: int, max: int)

  /** What happened so far: the blocks put on the data list, and the reports. */
  datatype Log = Log(published: multiset<seq<int>>, reports: seq<Report>)

  /** `sections` counts the critical sections that did more than wait; a statement that would use
      an index outside an array sets `fault`. */
  datatype State = State(sem: nat, shm: Shm, procs: seq<Proc>, log: Log, sections: nat, fault: bool)

  // ---------- init_shm ----------

  ghost predicate InitBlocks(blocks: seq<Block>) {
    forall i :: 0 <= i < |blocks| ==>
      blocks[i].count == 0 && |blocks[i].data| == DATA_SIZE &&
      blocks[i].next == if i == |blocks| - 1 then -1 else i + 1
  }

  ghost predicate Init(s: State) {
    && s.sem == 1 && s.shm.head == -1 && s.shm.freeHead == 0 && !s.shm.prodDone
    && |s.shm.blocks| > 0 && InitBlocks(s.shm.blocks)
    && (forall p :: 0 <= p < |s.procs| ==> s.procs[p] == Producer(0, PWait) || s.procs[p] == Consumer(CWait))
    && s.log == Log(multiset{}, []) && s.sections == 0 && !s.fault
  }

  /** `init_shm`, with its loop over the block array. */
  method InitShm(blocks: array<Block>) returns (sem: nat, head: int, freeHead: int, prodDone: bool)
    requires forall i :: 0 <= i < blocks.Length ==> |blocks[i].data| == DATA_SIZE
    modifies blocks
    ensures sem == 1 && head == -1 && freeHead == 0 && !prodDone
    ensures InitBlocks(blocks[..])
    ensures forall i :: 0 <= i < blocks.Length ==> blocks[i].data == old(blocks[i].data)
  {
    sem, head, freeHead, prodDone := 1, -1, 0, false;
    for i := 0 to blocks.Length
      invariant forall j :: 0 <= j < blocks.Length ==> blocks[j].data == old(blocks[j].data)
      invariant forall j :: 0 <= j < i ==>
        blocks[j].count == 0 && blocks[j].next == if j == blocks.Length - 1 then -1 else j + 1
    {
      blocks[i] := blocks[i].(count := 0, next := if i == blocks.Length - 1 then -1 else i + 1);
    }
  }

  // ---------- the statements of the critical sections ----------

  predicate InRange(blocks: seq<Block>, i: int) {
    0 <= i < |blocks|
  }

  /** The numbers a block holds. */
  function Content(b: Block): seq<int> {
    if 0 <= b.count <= |b.data| then b.data[..b.count] else b.data
  }

  /** What one statement does to the shared memory, to the process itself and to the log. */
  datatype Effect = Effect(shm: Shm, me: Proc, log: Log) | Fault

  /** A statement of a producer between `sem_wait` and `sem_post`; `rnd` is what `rand()` returns
      if the statement calls it. */
  function ProducerStep(m: Shm, n: nat, pc: ProducerPc, log: Log, rnd: nat): Effect {
    match pc
    case PCheckFree => Effect(m, Producer(n, if m.freeHead == -1 then PRetryPost else PCheckQuota), log)
    case PCheckQuota => Effect(m, Producer(n, if n >= QUOTA then PSetDone else PTake), log)
    case PSetDone => Effect(m.(prodDone := true), Producer(n, PLastPost), log)
    case PTake => Effect(m, Producer(n, PUnlink(m.freeHead)), log)
    case PUnlink(idx) =>
      if !InRange(m.blocks, idx) then Fault
      else Effect(m.(freeHead := m.blocks[idx].next), Producer(n, PCount(idx)), log)
    case PCount(idx) =>
      if !InRange(m.blocks, idx) then Fault
      else
        var cnt := rnd % DATA_SIZE + 1;
        Effect(m.(blocks := m.blocks[idx := m.blocks[idx].(count := cnt)]), Producer(n, PFill(idx, cnt, [])), log)
    case PFill(idx, cnt, drawn) =>
      if |drawn| >= cnt then Effect(m, Producer(n, PLink(idx, drawn)), log)
      else if !InRange(m.blocks, idx) || |drawn| >= |m.blocks[idx].data| then Fault
      else
        var x := rnd % 100;
        var b := m.blocks[idx];
        Effect(m.(blocks := m.blocks[idx := b.(data := b.data[|drawn| := x])]),
               Producer(n, PFill(idx, cnt, drawn + [x])), log)
    case PLink(idx, drawn) =>
      if !InRange(m.blocks, idx) then Fault
      else Effect(m.(blocks := m.blocks[idx := m.blocks[idx].(next := m.head)]), Producer(n, PPublish(idx, drawn)), log)
    case PPublish(idx, drawn) =>
      Effect(m.(head := idx), Producer(n, PIncrement), log.(published := log.published + multiset{drawn}))
    case PIncrement => Effect(m, Producer(n + 1, PPost), log)
    case _ => Effect(m, Producer(n, pc), log)
  }

  /** A statement of a consumer between `sem_wait` and `sem_post`. */
  function ConsumerStep(m: Shm, pc: ConsumerPc, log: Log): Effect {
    match pc
    case CCheckHead => Effect(m, Consumer(if m.head == -1 then CCheckDone else CTake), log)
    case CCheckDone => Effect(m, Consumer(if m.prodDone then CLastPost else CRetryPost), log)
    case CTake => Effect(m, Consumer(CUnlink(m.head)), log)
    case CUnlink(idx) =>
      if !InRange(m.blocks, idx) then Fault
      else Effect(m.(head := m.blocks[idx].next), Consumer(CFirst(idx)), log)
    case CFirst(idx) =>
      if !InRange(m.blocks, idx) || |m.blocks[idx].data| == 0 then Fault
      else
        var x := m.blocks[idx].data[0];
        Effect(m, Consumer(CScan(idx, 1, x, x)), log)
    case CScan(idx, i, min, max) =>
      if !InRange(m.blocks, idx) then Fault
      else if i >= m.blocks[idx].count then Effect(m, Consumer(CReport(idx, min, max)), log)
      else if i >= |m.blocks[idx].data| then Fault
      else
        var x := m.blocks[idx].data[i];
        Effect(m, Consumer(CScan(idx, i + 1, if x < min then x else min, if x > max then x else max)), log)
    case CReport(idx, min, max) =>
      if !InRange(m.blocks, idx) then Fault
      else
        var r := Report(Content(m.blocks[idx]), min, max);
        Effect(m, Consumer(CClear(idx)), log.(reports := log.reports + [r]))
    case CClear(idx) =>
      if !InRange(m.blocks, idx) then Fault
      else Effect(m.(blocks := m.blocks[idx := m.blocks[idx].(count := 0)]), Consumer(CLink(idx)), log)
    case CLink(idx) =>
      if !InRange(m.blocks, idx) then Fault
      else Effect(m.(blocks := m.blocks[idx := m.blocks[idx].(next := m.freeHead)]), Consumer(CRelease(idx)), log)
    case CRelease(idx) => Effect(m.(freeHead := idx), Consumer(CPost), log)
    case _ => Effect(m, Consumer(pc), log)
  }

  function InsideStep(m: Shm, q: Proc, log: Log, rnd: nat): Effect {
    match q
    case Producer(n, pc) => ProducerStep(m, n, pc, log, rnd)
    case Consumer(pc) => ConsumerStep(m, pc, log)
  }

  // ---------- the semaphore and the interleaving ----------

  predicate Waiting(q: Proc) {
    if q.Producer? then q.ppc.PWait? else q.cpc.CWait?
  }

  predicate Exited(q: Proc) {
    if q.Producer? then q.ppc.PExited? else q.cpc.CExited?
  }

  /** At a `sem_post` after a critical section that only found it had to wait. */
  predicate RetryPost(q: Proc) {
    if q.Producer? then q.ppc.PRetryPost? else q.cpc.CRetryPost?
  }

  /** At a `sem_post` after a block was produced or consumed. */
  predicate WorkPost(q: Proc) {
    if q.Producer? then q.ppc.PPost? else q.cpc.CPost?
  }

  /** At the `sem_post` before the loop is left. */
  predicate LastPost(q: Proc) {
    if q.Producer? then q.ppc.PLastPost? else q.cpc.CLastPost?
  }

  predicate Posting(q: Proc) {
    RetryPost(q) || WorkPost(q) || LastPost(q)
  }

  function Entered(q: Proc): Proc {
    match q
    case Producer(n, _) => Producer(n, PCheckFree)
    case Consumer(_) => Consumer(CCheckHead)
  }

  function Left(q: Proc): Proc {
    match q
    case Producer(n, pc) => Producer(n, if pc.PLastPost? then PExited else PWait)
    case Consumer(pc) => Consumer(if pc.CLastPost? then CExited else CWait)
  }

  /** One statement of process `p`; `sem_wait` with the semaphore taken does nothing. */
  function Step(s: State, p: nat, rnd: nat): State
    requires p < |s.procs|
  {
    var q := s.procs[p];
    if Exited(q) then s
    else if Waiting(q) then
      if s.sem == 0 then s else s.(sem := s.sem - 1, procs := s.procs[p := Entered(q)])
    else if Posting(q) then
      s.(sem := s.sem + 1, procs := s.procs[p := Left(q)],
         sections := if RetryPost(q) then s.sections else s.sections + 1)
    else
      match InsideStep(s.shm, q, s.log, rnd)
      case Fault => s.(fault := true)
      case Effect(m, me, log) => s.(shm := m, procs := s.procs[p := me], log := log)
  }

  /** A schedule: which process moves next, and what its `rand()` gives. */
  datatype Choice = Choice(proc: nat, rnd: nat)

  function Run(s: State, schedule: seq<Choice>): State {
    if schedule == [] then s
    else
      var before := Run(s, schedule[..|schedule| - 1]);
      var c := schedule[|schedule| - 1];
      if c.proc < |before.procs| then Step(before, c.proc, c.rnd) else before
  }
}
