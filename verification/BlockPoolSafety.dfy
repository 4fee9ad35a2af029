/** The invariant of the block pool and the proof that every step of every process keeps it. */
module BlockPoolSafety {
  import opened BlockPool

  // ---------- lists of blocks ----------

  /** `xs` are the blocks met when following `next` from `h` until -1. */
  ghost predicate Chain(blocks: seq<Block>, h: int, xs: seq<int>)
    decreases xs
  {
    if xs == [] then h == -1
    else h == xs[0] && 0 <= h < |blocks| && Chain(blocks, blocks[h].next, xs[1..])
  }

  /** Every block index below `n`, once. */
  ghost function AllBlocks(n: nat): multiset<int> {
    if n == 0 then multiset{} else AllBlocks(n - 1) + multiset{n - 1}
  }

  ghost function Contents(blocks: seq<Block>, xs: seq<int>): multiset<seq<int>> {
    if xs == [] then multiset{}
    else
      (if InRange(blocks, xs[0]) then multiset{Content(blocks[xs[0]])} else multiset{})
      + Contents(blocks, xs[1..])
  }

  ghost function Consumed(reports: seq<Report>): multiset<seq<int>> {
    if reports == [] then multiset{}
    else Consumed(reports[..|reports| - 1]) + multiset{reports[|reports| - 1].block}
  }

  lemma {:induction false} AllBlocksCount(n: nat, i: int)
    ensures AllBlocks(n)[i] == if 0 <= i < n then 1 else 0
  {
    if n > 0 {
      AllBlocksCount(n - 1, i);
    }
  }

  lemma {:induction false} ChainFrame(a: seq<Block>, b: seq<Block>, h: int, xs: seq<int>)
    requires Chain(a, h, xs) && |a| == |b|
    requires forall i :: i in xs && 0 <= i < |a| ==> a[i].next == b[i].next
    ensures Chain(b, h, xs)
    decreases xs
  {
    if xs != [] {
      ChainFrame(a, b, a[h].next, xs[1..]);
    }
  }

  lemma {:induction false} ContentsFrame(a: seq<Block>, b: seq<Block>, xs: seq<int>)
    requires |a| == |b| && forall i :: i in xs && 0 <= i < |a| ==> Content(a[i]) == Content(b[i])
    ensures Contents(a, xs) == Contents(b, xs)
  {
    if xs != [] {
      ContentsFrame(a, b, xs[1..]);
    }
  }

  // ---------- the invariant of the memory ----------

  /** The block a process has taken off one list and not yet put on the other. */
  function Held(q: Proc): seq<int> {
    match q
    case Producer(_, PCount(idx)) => [idx]
    case Producer(_, PFill(idx, _, _)) => [idx]
    case Producer(_, PLink(idx, _)) => [idx]
    case Producer(_, PPublish(idx, _)) => [idx]
    case Consumer(CFirst(idx)) => [idx]
    case Consumer(CScan(idx, _, _, _)) => [idx]
    case Consumer(CReport(idx, _, _)) => [idx]
    case Consumer(CClear(idx)) => [idx]
    case Consumer(CLink(idx)) => [idx]
    case Consumer(CRelease(idx)) => [idx]
    case _ => []
  }

  /** The block a consumer has taken and not yet reported. */
  function Unreported(q: Proc): seq<int> {
    match q
    case Consumer(CFirst(idx)) => [idx]
    case Consumer(CScan(idx, _, _, _)) => [idx]
    case Consumer(CReport(idx, _, _)) => [idx]
    case _ => []
  }

  /** The two lists are acyclic and, with the held block, hold every block exactly once. */
  ghost predicate Lists(m: Shm, data: seq<int>, free: seq<int>, held: seq<int>) {
    && Chain(m.blocks, m.head, data)
    && Chain(m.blocks, m.freeHead, free)
    && multiset(data) + multiset(free) + multiset(held) == AllBlocks(|m.blocks|)
  }

  predicate Full(b: Block) {
    1 <= b.count <= DATA_SIZE && |b.data| == DATA_SIZE
  }

  ghost predicate Counts(blocks: seq<Block>, data: seq<int>, free: seq<int>) {
    && (forall i :: 0 <= i < |blocks| ==> |blocks[i].data| == DATA_SIZE)
    && (forall i :: i in data && 0 <= i < |blocks| ==> Full(blocks[i]))
    && (forall i :: i in free && 0 <= i < |blocks| ==> blocks[i].count == 0)
  }

  /** `min` and `max` are the extremes of `xs`. */
  ghost predicate Extremes(xs: seq<int>, min: int, max: int) {
    && min in xs && max in xs
    && forall x :: x in xs ==> min <= x <= max
  }

  /** Every block published is on the data list, was reported, or is about to be. */
  ghost predicate Conserved(blocks: seq<Block>, log: Log, data: seq<int>, unreported: seq<int>) {
    && log.published == Consumed(log.reports) + Contents(blocks, data) + Contents(blocks, unreported)
    && forall r :: r in log.reports ==> Extremes(r.block, r.min, r.max)
  }

  ghost predicate ProducerKnows(m: Shm, free: seq<int>, pc: ProducerPc) {
    match pc
    case PCheckQuota => free != []
    case PTake => free != []
    case PUnlink(idx) => free != [] && idx == free[0]
    case PFill(idx, cnt, drawn) =>
      InRange(m.blocks, idx) && Full(m.blocks[idx]) && m.blocks[idx].count == cnt
      && |drawn| <= cnt && m.blocks[idx].data[..|drawn|] == drawn
    case PLink(idx, drawn) =>
      InRange(m.blocks, idx) && Full(m.blocks[idx]) && Content(m.blocks[idx]) == drawn
    case PPublish(idx, drawn) =>
      InRange(m.blocks, idx) && Full(m.blocks[idx]) && Content(m.blocks[idx]) == drawn
      && m.blocks[idx].next == m.head
    case _ => true
  }

  ghost predicate ConsumerKnows(m: Shm, data: seq<int>, pc: ConsumerPc) {
    match pc
    case CCheckDone => data == []
    case CTake => data != []
    case CUnlink(idx) => data != [] && idx == data[0]
    case CFirst(idx) => InRange(m.blocks, idx) && Full(m.blocks[idx])
    case CScan(idx, i, min, max) =>
      InRange(m.blocks, idx) && Full(m.blocks[idx]) && 1 <= i <= m.blocks[idx].count
      && Extremes(m.blocks[idx].data[..i], min, max)
    case CReport(idx, min, max) =>
      InRange(m.blocks, idx) && Full(m.blocks[idx]) && Extremes(Content(m.blocks[idx]), min, max)
    case CLink(idx) => InRange(m.blocks, idx) && m.blocks[idx].count == 0
    case CRelease(idx) => InRange(m.blocks, idx) && m.blocks[idx].count == 0 && m.blocks[idx].next == m.freeHead
    case _ => true
  }

  /** What the process in the critical section knows at its program counter. */
  ghost predicate Knows(m: Shm, data: seq<int>, free: seq<int>, q: Proc) {
    match q
    case Producer(_, pc) => ProducerKnows(m, free, pc)
    case Consumer(pc) => ConsumerKnows(m, data, pc)
  }

  /** The memory with process `q` in the critical section, or with nobody there when `q` is outside. */
  ghost predicate MemOk(m: Shm, log: Log, q: Proc, data: seq<int>, free: seq<int>) {
    && Lists(m, data, free, Held(q))
    && Counts(m.blocks, data, free)
    && Conserved(m.blocks, log, data, Unreported(q))
    && Knows(m, data, free, q)
  }

  // ---------- one statement ----------

  /** The block being moved is on neither list. */
  lemma HeldApart(m: Shm, data: seq<int>, free: seq<int>, idx: int)
    requires Lists(m, data, free, [idx])
    ensures idx !in data && idx !in free && InRange(m.blocks, idx)
  {
    AllBlocksCount(|m.blocks|, idx);
    var all := multiset(data) + multiset(free) + multiset([idx]);
    assert all[idx] == multiset(data)[idx] + multiset(free)[idx] + 1;
    assert all[idx] <= 1;
  }

  /** Changing the block being moved leaves both lists and what is on them as they are. */
  lemma UpdateHeld(m: Shm, data: seq<int>, free: seq<int>, idx: int, b: Block)
    requires Lists(m, data, free, [idx]) && Counts(m.blocks, data, free) && |b.data| == DATA_SIZE
    ensures InRange(m.blocks, idx)
    ensures var blocks := m.blocks[idx := b];
      && Lists(m.(blocks := blocks), data, free, [idx]) && Counts(blocks, data, free)
      && Contents(blocks, data) == Contents(m.blocks, data)
  {
    HeldApart(m, data, free, idx);
    var blocks := m.blocks[idx := b];
    ChainFrame(m.blocks, blocks, m.head, data);
    ChainFrame(m.blocks, blocks, m.freeHead, free);
    ContentsFrame(m.blocks, blocks, data);
  }

  lemma UpdateKeeps(m: Shm, log: Log, data: seq<int>, free: seq<int>, idx: int, b: Block)
    requires Lists(m, data, free, [idx]) && Counts(m.blocks, data, free) && Conserved(m.blocks, log, data, [])
    requires |b.data| == DATA_SIZE
    ensures InRange(m.blocks, idx)
    ensures var blocks := m.blocks[idx := b];
      && Lists(m.(blocks := blocks), data, free, [idx]) && Counts(blocks, data, free)
      && Conserved(blocks, log, data, [])
  {
    UpdateHeld(m, data, free, idx, b);
  }

  lemma BlockSizes(blocks: seq<Block>, data: seq<int>, free: seq<int>, idx: int)
    requires Counts(blocks, data, free) && InRange(blocks, idx)
    ensures |blocks[idx].data| == DATA_SIZE
  {
  }

  lemma TakeFree(m: Shm, data: seq<int>, free: seq<int>)
    requires Lists(m, data, free, []) && Counts(m.blocks, data, free) && free != []
    ensures InRange(m.blocks, free[0])
    ensures Lists(m.(freeHead := m.blocks[free[0]].next), data, free[1..], [free[0]])
    ensures Counts(m.blocks, data, free[1..])
  {
    assert free == [free[0]] + free[1..];
  }

  lemma TakeData(m: Shm, data: seq<int>, free: seq<int>)
    requires Lists(m, data, free, []) && Counts(m.blocks, data, free) && data != []
    ensures InRange(m.blocks, data[0]) && Full(m.blocks[data[0]])
    ensures Lists(m.(head := m.blocks[data[0]].next), data[1..], free, [data[0]])
    ensures Counts(m.blocks, data[1..], free)
  {
    assert data == [data[0]] + data[1..];
  }

  lemma GiveData(m: Shm, data: seq<int>, free: seq<int>, idx: int)
    requires Lists(m, data, free, [idx]) && Counts(m.blocks, data, free)
    requires InRange(m.blocks, idx) && m.blocks[idx].next == m.head && Full(m.blocks[idx])
    ensures Lists(m.(head := idx), [idx] + data, free, []) && Counts(m.blocks, [idx] + data, free)
  {
    assert ([idx] + data)[1..] == data;
  }

  lemma GiveFree(m: Shm, data: seq<int>, free: seq<int>, idx: int)
    requires Lists(m, data, free, [idx]) && Counts(m.blocks, data, free)
    requires InRange(m.blocks, idx) && m.blocks[idx].next == m.freeHead && m.blocks[idx].count == 0
    ensures Lists(m.(freeHead := idx), data, [idx] + free, []) && Counts(m.blocks, data, [idx] + free)
  {
    assert ([idx] + free)[1..] == free;
  }

  lemma ConserveTake(blocks: seq<Block>, log: Log, data: seq<int>)
    requires Conserved(blocks, log, data, []) && data != []
    ensures Conserved(blocks, log, data[1..], [data[0]])
  {
    assert Contents(blocks, [data[0]])
        == if InRange(blocks, data[0]) then multiset{Content(blocks[data[0]])} else multiset{};
  }

  lemma ConservePublish(blocks: seq<Block>, log: Log, data: seq<int>, idx: int)
    requires Conserved(blocks, log, data, []) && InRange(blocks, idx)
    ensures Conserved(blocks, log.(published := log.published + multiset{Content(blocks[idx])}), [idx] + data, [])
  {
    assert ([idx] + data)[1..] == data;
  }

  lemma ConserveReport(blocks: seq<Block>, log: Log, data: seq<int>, idx: int, r: Report)
    requires Conserved(blocks, log, data, [idx]) && InRange(blocks, idx)
    requires r.block == Content(blocks[idx]) && Extremes(r.block, r.min, r.max)
    ensures Conserved(blocks, log.(reports := log.reports + [r]), data, [])
  {
    hide Extremes;
    assert (log.reports + [r])[..|log.reports|] == log.reports;
    assert Contents(blocks, [idx]) == multiset{r.block};
  }

  /** The scan goes on with the extremes of one number more. */
  lemma ScanOne(xs: seq<int>, i: nat, min: int, max: int)
    requires i < |xs| && Extremes(xs[..i], min, max)
    ensures Extremes(xs[..i + 1], if xs[i] < min then xs[i] else min, if xs[i] > max then xs[i] else max)
  {
    assert xs[..i + 1] == xs[..i] + [xs[i]];
  }

  /** Line 48: the first free block leaves the free list. */
  lemma UnlinkFree(m: Shm, log: Log, n: nat, pc: ProducerPc, rnd: nat, data: seq<int>, free: seq<int>)
    requires MemOk(m, log, Producer(n, pc), data, free) && pc.PUnlink?
    ensures free != [] && var e := ProducerStep(m, n, pc, log, rnd);
      e.Effect? && MemOk(e.shm, e.log, e.me, data, free[1..])
  {
    hide Lists, Counts, Conserved;
    TakeFree(m, data, free);
  }

  /** Line 51: the count is drawn. */
  lemma SetCount(m: Shm, log: Log, n: nat, pc: ProducerPc, rnd: nat, data: seq<int>, free: seq<int>)
    requires MemOk(m, log, Producer(n, pc), data, free) && pc.PCount?
    ensures var e := ProducerStep(m, n, pc, log, rnd);
      e.Effect? && MemOk(e.shm, e.log, e.me, data, free)
  {
    hide Lists, Counts, Conserved;
    var idx := pc.idx;
    HeldApart(m, data, free, idx);
    BlockSizes(m.blocks, data, free, idx);
    UpdateKeeps(m, log, data, free, idx, m.blocks[idx].(count := rnd % DATA_SIZE + 1));
  }

  /** Line 52: one more number is drawn. */
  lemma Fill(m: Shm, log: Log, n: nat, pc: ProducerPc, rnd: nat, data: seq<int>, free: seq<int>)
    requires MemOk(m, log, Producer(n, pc), data, free) && pc.PFill?
    ensures var e := ProducerStep(m, n, pc, log, rnd);
      e.Effect? && MemOk(e.shm, e.log, e.me, data, free)
  {
    hide Lists, Counts, Conserved;
    if |pc.drawn| < pc.cnt {
      var b := m.blocks[pc.idx];
      var d := b.data[|pc.drawn| := rnd % 100];
      UpdateKeeps(m, log, data, free, pc.idx, b.(data := d));
      assert d[..|pc.drawn| + 1] == pc.drawn + [rnd % 100];
    }
  }

  /** Line 54: the block points to the old head. */
  lemma LinkData(m: Shm, log: Log, n: nat, pc: ProducerPc, rnd: nat, data: seq<int>, free: seq<int>)
    requires MemOk(m, log, Producer(n, pc), data, free) && pc.PLink?
    ensures var e := ProducerStep(m, n, pc, log, rnd);
      e.Effect? && MemOk(e.shm, e.log, e.me, data, free)
  {
    hide Lists, Counts, Conserved;
    UpdateKeeps(m, log, data, free, pc.idx, m.blocks[pc.idx].(next := m.head));
  }

  /** Line 55: the block goes onto the data list. */
  lemma Publish(m: Shm, log: Log, n: nat, pc: ProducerPc, rnd: nat, data: seq<int>, free: seq<int>)
    requires MemOk(m, log, Producer(n, pc), data, free) && pc.PPublish?
    ensures var e := ProducerStep(m, n, pc, log, rnd);
      e.Effect? && MemOk(e.shm, e.log, e.me, [pc.idx] + data, free)
  {
    hide Lists, Counts, Conserved;
    GiveData(m, data, free, pc.idx);
    ConservePublish(m.blocks, log, data, pc.idx);
  }

  lemma ProducerOther(m: Shm, log: Log, n: nat, pc: ProducerPc, rnd: nat, data: seq<int>, free: seq<int>)
    requires MemOk(m, log, Producer(n, pc), data, free)
    requires !(pc.PUnlink? || pc.PCount? || pc.PFill? || pc.PLink? || pc.PPublish?)
    ensures var e := ProducerStep(m, n, pc, log, rnd);
      e.Effect? && MemOk(e.shm, e.log, e.me, data, free)
  {
    hide Counts, Conserved, Lists, Full;
    FreeIsEmpty(m, data, free, Held(Producer(n, pc)));
    DoneKeepsLists(m, data, free, Held(Producer(n, pc)));
  }

  /** Announcing the end, line 45, does not touch the lists. */
  lemma DoneKeepsLists(m: Shm, data: seq<int>, free: seq<int>, held: seq<int>)
    requires Lists(m, data, free, held)
    ensures Lists(m.(prodDone := true), data, free, held)
  {
  }

  /** A list is empty exactly when its first index is -1. */
  lemma FreeIsEmpty(m: Shm, data: seq<int>, free: seq<int>, held: seq<int>)
    requires Lists(m, data, free, held)
    ensures (free == [] <==> m.freeHead == -1) && (data == [] <==> m.head == -1)
    ensures free != [] ==> m.freeHead == free[0]
    ensures data != [] ==> m.head == data[0]
  {
  }

  /** Every statement of a producer keeps the invariant of the memory; only line 55 changes the data list. */
  lemma ProducerKeeps(m: Shm, log: Log, n: nat, pc: ProducerPc, rnd: nat, data: seq<int>, free: seq<int>)
    returns (data': seq<int>, free': seq<int>)
    requires MemOk(m, log, Producer(n, pc), data, free)
    ensures var e := ProducerStep(m, n, pc, log, rnd);
      e.Effect? && MemOk(e.shm, e.log, e.me, data', free')
    ensures data' == if pc.PPublish? then [pc.idx] + data else data
  {
    hide MemOk, ProducerStep;
    data', free' := data, free;
    match pc
    case PUnlink(idx) =>
      UnlinkFree(m, log, n, pc, rnd, data, free);
      free' := free[1..];
    case PCount(idx) => SetCount(m, log, n, pc, rnd, data, free);
    case PFill(idx, cnt, drawn) => Fill(m, log, n, pc, rnd, data, free);
    case PLink(idx, drawn) => LinkData(m, log, n, pc, rnd, data, free);
    case PPublish(idx, drawn) =>
      Publish(m, log, n, pc, rnd, data, free);
      data' := [idx] + data;
    case _ => ProducerOther(m, log, n, pc, rnd, data, free);
  }

  /** Line 72: the first block leaves the data list. */
  lemma UnlinkData(m: Shm, log: Log, pc: ConsumerPc, data: seq<int>, free: seq<int>)
    requires MemOk(m, log, Consumer(pc), data, free) && pc.CUnlink?
    ensures data != [] && var e := ConsumerStep(m, pc, log);
      e.Effect? && MemOk(e.shm, e.log, e.me, data[1..], free)
  {
    hide Lists, Counts, Conserved;
    TakeData(m, data, free);
    ConserveTake(m.blocks, log, data);
  }

  /** Line 74: `min` and `max` start as the first number. */
  lemma ReadFirst(m: Shm, log: Log, pc: ConsumerPc, data: seq<int>, free: seq<int>)
    requires MemOk(m, log, Consumer(pc), data, free) && pc.CFirst?
    ensures var e := ConsumerStep(m, pc, log);
      e.Effect? && MemOk(e.shm, e.log, e.me, data, free)
  {
    hide Lists, Counts, Conserved;
    assert m.blocks[pc.idx].data[..1] == [m.blocks[pc.idx].data[0]];
  }

  /** Lines 75-78: one more number is compared. */
  lemma Scan(m: Shm, log: Log, pc: ConsumerPc, data: seq<int>, free: seq<int>)
    requires MemOk(m, log, Consumer(pc), data, free) && pc.CScan?
    ensures var e := ConsumerStep(m, pc, log);
      e.Effect? && MemOk(e.shm, e.log, e.me, data, free)
  {
    hide Lists, Counts, Conserved, Extremes;
    var b := m.blocks[pc.idx];
    if pc.i < b.count {
      ScanOne(b.data, pc.i, pc.min, pc.max);
    }
  }

  /** Line 79: the report. */
  lemma PrintReport(m: Shm, log: Log, pc: ConsumerPc, data: seq<int>, free: seq<int>)
    requires MemOk(m, log, Consumer(pc), data, free) && pc.CReport?
    ensures var e := ConsumerStep(m, pc, log);
      e.Effect? && MemOk(e.shm, e.log, e.me, data, free)
  {
    hide Lists, Counts, Conserved, Extremes;
    ConserveReport(m.blocks, log, data, pc.idx, Report(Content(m.blocks[pc.idx]), pc.min, pc.max));
  }

  /** Line 81: the count is cleared. */
  lemma ClearCount(m: Shm, log: Log, pc: ConsumerPc, data: seq<int>, free: seq<int>)
    requires MemOk(m, log, Consumer(pc), data, free) && pc.CClear?
    ensures var e := ConsumerStep(m, pc, log);
      e.Effect? && MemOk(e.shm, e.log, e.me, data, free)
  {
    hide Lists, Counts, Conserved;
    HeldApart(m, data, free, pc.idx);
    BlockSizes(m.blocks, data, free, pc.idx);
    UpdateKeeps(m, log, data, free, pc.idx, m.blocks[pc.idx].(count := 0));
  }

  /** Line 82: the block points to the old free list. */
  lemma LinkFree(m: Shm, log: Log, pc: ConsumerPc, data: seq<int>, free: seq<int>)
    requires MemOk(m, log, Consumer(pc), data, free) && pc.CLink?
    ensures var e := ConsumerStep(m, pc, log);
      e.Effect? && MemOk(e.shm, e.log, e.me, data, free)
  {
    hide Lists, Counts, Conserved;
    BlockSizes(m.blocks, data, free, pc.idx);
    UpdateKeeps(m, log, data, free, pc.idx, m.blocks[pc.idx].(next := m.freeHead));
  }

  /** Line 83: the block goes back onto the free list. */
  lemma Release(m: Shm, log: Log, pc: ConsumerPc, data: seq<int>, free: seq<int>)
    requires MemOk(m, log, Consumer(pc), data, free) && pc.CRelease?
    ensures var e := ConsumerStep(m, pc, log);
      e.Effect? && MemOk(e.shm, e.log, e.me, data, [pc.idx] + free)
  {
    hide Lists, Counts, Conserved;
    GiveFree(m, data, free, pc.idx);
  }

  lemma ConsumerOther(m: Shm, log: Log, pc: ConsumerPc, data: seq<int>, free: seq<int>)
    requires MemOk(m, log, Consumer(pc), data, free) && Held(Consumer(pc)) == [] && !pc.CUnlink?
    ensures var e := ConsumerStep(m, pc, log);
      e.Effect? && MemOk(e.shm, e.log, e.me, data, free)
  {
    hide Counts, Conserved, Lists, Full;
    FreeIsEmpty(m, data, free, Held(Consumer(pc)));
  }

  /** Every statement of a consumer keeps the invariant of the memory; only line 72 changes the data list. */
  lemma ConsumerKeeps(m: Shm, log: Log, pc: ConsumerPc, data: seq<int>, free: seq<int>)
    returns (data': seq<int>, free': seq<int>)
    requires MemOk(m, log, Consumer(pc), data, free)
    ensures var e := ConsumerStep(m, pc, log);
      e.Effect? && MemOk(e.shm, e.log, e.me, data', free')
    ensures if pc.CUnlink? then data != [] && data' == data[1..] else data' == data
  {
    hide MemOk, ConsumerStep;
    data', free' := data, free;
    match pc
    case CUnlink(idx) =>
      UnlinkData(m, log, pc, data, free);
      data' := data[1..];
    case CFirst(idx) => ReadFirst(m, log, pc, data, free);
    case CScan(idx, i, min, max) => Scan(m, log, pc, data, free);
    case CReport(idx, min, max) => PrintReport(m, log, pc, data, free);
    case CClear(idx) => ClearCount(m, log, pc, data, free);
    case CLink(idx) => LinkFree(m, log, pc, data, free);
    case CRelease(idx) =>
      Release(m, log, pc, data, free);
      free' := [idx] + free;
    case _ => ConsumerOther(m, log, pc, data, free);
  }
}
