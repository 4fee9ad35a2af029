/** What `get_status` prints. It reads `busy` and then `remaining`, and the driver goes on in between. */
module TaxiStatus {
  import opened Taxi
  import opened TaxiDriver
  import opened TaxiSystem

  // ---------- the tasks of a driver ----------

  lemma {:induction false} AcceptedAreOks(log: seq<Event>)
    ensures |AcceptedTimers(log)| == Oks(log)
  {
    if log != [] {
      AcceptedAreOks(log[..|log| - 1]);
    }
  }

  /** A busy driver is on its latest task; a free one has completed all its tasks. */
  lemma BusyIsUnfinished(sl: Slot, d: Driver)
    requires DriverOk(sl, d)
    ensures |Tasks(d)| == Completions(d.log) + if sl.busy then 1 else 0
  {
    hide Oks, Completions, AcceptedTimers, Running, LogOk;
    AcceptedAreOks(d.log);
    CompletionsFollowOks(d.log);
  }

  lemma {:induction false} RunningIsLast(log: seq<Event>)
    requires LogOk(log) && Open(log)
    ensures AcceptedTimers(log) != [] && Running(log) == AcceptedTimers(log)[|AcceptedTimers(log)| - 1]
  {
    if log[|log| - 1].Refused? {
      RunningIsLast(log[..|log| - 1]);
    }
  }

  lemma CompletedIsLast(log: seq<Event>)
    requires log != [] && LogOk(log) && !Open(log) && Running(log[..|log| - 1]) > 0
    ensures AcceptedTimers(log) != []
    ensures Running(log[..|log| - 1]) == AcceptedTimers(log)[|AcceptedTimers(log)| - 1]
  {
    var init := log[..|log| - 1];
    if !Open(init) {
      ClosedRunsNothing(init);
    }
    RunningIsLast(init);
  }

  /** `remaining` is the timer of the latest task, or 0. */
  lemma RemainingIsLatest(sl: Slot, d: Driver)
    requires DriverOk(sl, d)
    ensures if Shows(sl, d) then Tasks(d) != [] && sl.remaining == Tasks(d)[|Tasks(d)| - 1] > 0 else sl.remaining == 0
  {
    hide AcceptedTimers, Running, LogOk, Open;
    SlotShowsTimer(sl, d);
    if d.pc.ClearRemaining? {
      CompletedIsLast(d.log);
    } else if Open(d.log) {
      RunningIsLast(d.log);
    }
  }

  /** Tasks are only ever added, by the statement that marks a driver busy. */
  lemma TasksGrow(sl: Slot, d: Driver)
    ensures Tasks(DriverStep(sl, d).1) == Tasks(d) + if d.pc.SetBusy? then [d.pc.cmd] else []
  {
    hide AcceptedTimers;
    var e := DriverStep(sl, d).1;
    if e.log != d.log {
      AcceptedAppend(d.log, e.log[|d.log|]);
    }
  }

  lemma AcceptedAppend(log: seq<Event>, e: Event)
    ensures AcceptedTimers(log + [e]) == AcceptedTimers(log) + if e.Accepted? then [e.timer] else []
  {
    assert (log + [e])[..|log|] == log;
  }

  // ---------- every line printed ----------

  /** A driver has started at least `task` tasks, and no more if the CLI has waited for every answer. */
  ghost predicate Seen(s: State, k: nat, task: nat) {
    k < |s.drivers| && 1 <= task <= Started(s, k) && (s.timeouts == 0 ==> task == Started(s, k))
  }

  ghost predicate ReadsOk(s: State) {
    s.cli.ReadRemaining? ==> Seen(s, s.cli.k, s.cli.task)
  }

  /** A printed number is 0 or the timer of the latest task at the time of the second read. That is the task
      seen busy, if no reply timed out, and that task or a later one otherwise. */
  ghost predicate LineOk(s: State, l: Line) {
    l.BusyWith? ==>
      && l.k < |s.drivers| && 1 <= l.task <= l.latest <= Started(s, l.k)
      && (l.remaining == 0 || l.remaining == Tasks(s.drivers[l.k])[l.latest - 1])
      && (s.timeouts == 0 ==> l.latest == l.task)
  }

  ghost predicate LinesOk(s: State) {
    forall l :: l in s.lines ==> LineOk(s, l)
  }

  /** No task is lost from `s` to `t`. */
  ghost predicate Keeps(s: State, t: State) {
    && |s.drivers| <= |t.drivers| && s.timeouts <= t.timeouts
    && forall i :: 0 <= i < |s.drivers| ==> Tasks(s.drivers[i]) <= Tasks(t.drivers[i])
  }

  lemma StepKeeps(s: State, c: Choice)
    requires Inv(s)
    ensures Keeps(s, Step(s, c))
  {
    hide Inv, Tasks, Step;
    var t := Step(s, c);
    if c.DriverMoves? {
      DriverKeepsTasks(s, c.i);
    } else {
      OthersKeepHistory(s, c);
      forall i | 0 <= i < |s.drivers| ensures Tasks(t.drivers[i]) == Tasks(s.drivers[i]) {
        SameTasks(s.drivers[i], t.drivers[i]);
      }
    }
  }

  lemma DriverKeepsTasks(s: State, i: nat)
    ensures Keeps(s, Step(s, DriverMoves(i)))
  {
    hide Tasks, DriverStep;
    if i < |s.drivers| {
      TasksGrow(SlotAt(s, s.drivers[i].slot), s.drivers[i]);
    }
  }

  /** Whoever moves, program counter and history of the drivers that do not stay as they are. */
  lemma OthersKeepHistory(s: State, c: Choice)
    requires !c.DriverMoves?
    ensures |s.drivers| <= |Step(s, c).drivers| && s.timeouts <= Step(s, c).timeouts
    ensures forall i :: 0 <= i < |s.drivers| ==>
      Step(s, c).drivers[i].pc == s.drivers[i].pc && Step(s, c).drivers[i].log == s.drivers[i].log
  {
    hide DriverStep, FirstSlot, FirstInfo, Started;
  }

  lemma SameTasks(a: Driver, b: Driver)
    requires a.pc == b.pc && a.log == b.log
    ensures Tasks(a) == Tasks(b)
  {
  }

  lemma StartedGrows(s: State, t: State, k: nat)
    requires Keeps(s, t)
    ensures Started(s, k) <= Started(t, k)
  {
    hide Tasks;
  }

  /** Without timeouts every command has been answered before `get_status` starts, so no driver starts a task
      while it runs. */
  lemma NothingStarts(s: State, i: nat)
    requires Inv(s) && s.timeouts == 0 && s.cli.ReadRemaining? && i < |s.drivers|
    ensures Tasks(Step(s, DriverMoves(i)).drivers[i]) == Tasks(s.drivers[i])
  {
    hide Tasks, DriverStep, DriverOk, TablesOk, Outcomes;
    assert Quiet(s.drivers[i], AnswersOf(s.answers, i));
    TasksGrow(SlotAt(s, s.drivers[i].slot), s.drivers[i]);
  }

  /** Seeing a driver busy is seeing it with its latest task. */
  lemma FirstRead(s: State)
    requires Inv(s) && s.cli.ReadBusy?
    ensures ReadsOk(CliStep(s))
  {
    hide Tasks, DriverOk, PipesOk, Filling;
    var k := s.cli.k;
    BusyIsUnfinished(s.slots[k], s.drivers[k]);
  }

  lemma ReadingGoesOn(s: State, c: Choice)
    requires s.cli.ReadRemaining? && (c.DriverMoves? || c.TimerFires?)
    ensures Step(s, c).cli == s.cli && Step(s, c).timeouts == s.timeouts && |Step(s, c).drivers| == |s.drivers|
    ensures forall i :: 0 <= i < |s.drivers| && !(c.DriverMoves? && c.i == i) ==>
      Tasks(Step(s, c).drivers[i]) == Tasks(s.drivers[i])
  {
    hide DriverStep, AcceptedTimers;
  }

  lemma NotReading(s: State, c: Choice)
    requires !s.cli.ReadBusy? && !s.cli.ReadRemaining?
    ensures !Step(s, c).cli.ReadRemaining?
  {
    hide DriverStep, FirstSlot, FirstInfo;
  }

  lemma ReadingStays(s: State, c: Choice)
    requires (s.cli.ReadBusy? || s.cli.ReadRemaining?) && !c.CliMoves? && !c.DriverMoves? && !c.TimerFires?
    ensures Step(s, c) == s
  {
  }

  lemma StepReads(s: State, c: Choice)
    requires Inv(s) && ReadsOk(s)
    ensures ReadsOk(Step(s, c))
  {
    hide Inv, Step, CliStep, Tasks;
    if !s.cli.ReadBusy? && !s.cli.ReadRemaining? {
      NotReading(s, c);
    } else if c.CliMoves? {
      ReadDone(s);
    } else if c.DriverMoves? || c.TimerFires? {
      DriverWhileReading(s, c);
    } else {
      ReadingStays(s, c);
    }
  }

  lemma ReadDone(s: State)
    requires Inv(s) && (s.cli.ReadBusy? || s.cli.ReadRemaining?)
    ensures ReadsOk(Step(s, CliMoves))
  {
    hide Inv, Seen;
    if s.cli.ReadBusy? {
      FirstRead(s);
    }
  }

  lemma DriverWhileReading(s: State, c: Choice)
    requires Inv(s) && ReadsOk(s) && (s.cli.ReadBusy? || s.cli.ReadRemaining?) && (c.DriverMoves? || c.TimerFires?)
    ensures ReadsOk(Step(s, c))
  {
    hide Inv, Step, Tasks;
    if s.cli.ReadRemaining? {
      var k := s.cli.k;
      ReadingGoesOn(s, c);
      StepKeeps(s, c);
      StartedGrows(s, Step(s, c), k);
      if s.timeouts == 0 && c.DriverMoves? && c.i == k {
        NothingStarts(s, k);
      }
    } else {
      BusyReadWaits(s, c);
    }
  }

  lemma BusyReadWaits(s: State, c: Choice)
    requires s.cli.ReadBusy? && !c.CliMoves?
    ensures Step(s, c).cli == s.cli
  {
    hide DriverStep;
  }

  /** The line the second read prints. */
  lemma SecondRead(s: State)
    requires Inv(s) && ReadsOk(s) && s.cli.ReadRemaining?
    ensures var k := s.cli.k; var t := Step(s, CliMoves); var sl := SlotAt(s, k);
      && k < |s.drivers| && t.drivers == s.drivers && t.timeouts == s.timeouts
      && t.lines == s.lines + [BusyWith(k, sl.remaining, s.cli.task, Started(s, k))]
      && LineOk(t, BusyWith(k, sl.remaining, s.cli.task, Started(s, k)))
      && if Shows(sl, s.drivers[k]) then Started(s, k) > 0 && sl.remaining == Tasks(s.drivers[k])[Started(s, k) - 1] > 0
         else sl.remaining == 0
  {
    hide Tasks, DriverOk, PipesOk, Shows;
    var k := s.cli.k;
    assert DriverOk(s.slots[k], s.drivers[k]);
    RemainingIsLatest(s.slots[k], s.drivers[k]);
  }

  lemma OtherLines(s: State, c: Choice)
    requires !(s.cli.ReadRemaining? && c.CliMoves?)
    ensures forall l :: l in Step(s, c).lines ==> l in s.lines || !l.BusyWith?
  {
    hide DriverStep, FirstSlot, FirstInfo;
  }

  lemma StepLines(s: State, c: Choice)
    requires Inv(s) && ReadsOk(s) && LinesOk(s)
    ensures LinesOk(Step(s, c))
  {
    hide Inv, Step, ReadsOk, Started, Tasks, Shows;
    var t := Step(s, c);
    StepKeeps(s, c);
    forall l | l in t.lines ensures LineOk(t, l) {
      if s.cli.ReadRemaining? && c.CliMoves? {
        SecondRead(s);
      } else {
        OtherLines(s, c);
      }
      if l in s.lines {
        LineStays(s, t, l);
      }
    }
  }

  lemma LineStays(s: State, t: State, l: Line)
    requires LineOk(s, l) && Keeps(s, t)
    ensures LineOk(t, l)
  {
    hide Tasks;
  }

  lemma {:induction false} RunReads(schedule: seq<Choice>)
    ensures Inv(Run(schedule)) && ReadsOk(Run(schedule)) && LinesOk(Run(schedule))
  {
    hide Inv, Step, ReadsOk, LineOk;
    if schedule == [] {
      StartReads();
    } else {
      var s := Run(schedule[..|schedule| - 1]);
      RunReads(schedule[..|schedule| - 1]);
      StepInv(s, schedule[|schedule| - 1]);
      StepReads(s, schedule[|schedule| - 1]);
      StepLines(s, schedule[|schedule| - 1]);
    }
  }

  lemma StartReads()
    ensures Inv(Start()) && ReadsOk(Start()) && LinesOk(Start())
  {
  }

  // ---------- the results ----------

  /** The first read: "Available" is printed exactly when the driver has completed every task it started;
      otherwise its latest task is running, and that is the task seen. */
  lemma StatusSeesTask(schedule: seq<Choice>)
    requires Run(schedule).cli.ReadBusy?
    ensures var s := Run(schedule); var k := s.cli.k; var t := Step(s, CliMoves);
      && k < |s.drivers|
      && if Started(s, k) == Completions(s.drivers[k].log) then t.lines == s.lines + [Available(k)] && t.cli.Prompt?
         else
           && Started(s, k) == Completions(s.drivers[k].log) + 1
           && t.lines == s.lines && t.cli == ReadRemaining(k, Started(s, k))
  {
    hide Run, Tasks, DriverOk, PipesOk, Completions;
    RunReads(schedule);
    var s := Run(schedule);
    BusyIsUnfinished(s.slots[s.cli.k], s.drivers[s.cli.k]);
  }

  /** The second read, in any reachable state. The number printed is 0 exactly when the slot does not show a
      task: the driver is then between marking itself busy and storing the timer, or has cleared the slot
      after a task. Otherwise it is the timer of the latest task, which is the task seen exactly when no other
      has been started since. Without timeouts none has been, the driver is not between those two statements,
      and so 0 is printed exactly when the task seen has been completed and cleared. */
  lemma StatusPrintsTask(schedule: seq<Choice>)
    requires Run(schedule).cli.ReadRemaining?
    ensures var s := Run(schedule); var k, seen := s.cli.k, s.cli.task; var n := Started(s, k); var sl := SlotAt(s, k);
      && k < |s.drivers| && 1 <= seen <= n
      && Step(s, CliMoves).lines == s.lines + [BusyWith(k, sl.remaining, seen, n)]
      && (if Shows(sl, s.drivers[k]) then sl.remaining == Tasks(s.drivers[k])[n - 1] > 0 else sl.remaining == 0)
      && (s.timeouts == 0 ==> n == seen && !s.drivers[k].pc.SetRemaining?)
      && (s.timeouts == 0 ==>
            (sl.remaining == 0 <==> Completions(s.drivers[k].log) == seen && !s.drivers[k].pc.ClearRemaining?))
  {
    hide Run, Tasks, DriverOk, Completions, Outcomes;
    RunReads(schedule);
    var s := Run(schedule);
    SecondRead(s);
    BusyIsUnfinished(s.slots[s.cli.k], s.drivers[s.cli.k]);
    if s.timeouts == 0 {
      assert Quiet(s.drivers[s.cli.k], AnswersOf(s.answers, s.cli.k));
    }
  }

  /** Over every run: each "Busy r" printed gives 0 or the timer of the task that was the driver's latest at
      the second read; without timeouts that is the task it was seen busy with. */
  lemma PrintedLines(schedule: seq<Choice>, l: Line)
    requires l in Run(schedule).lines && l.BusyWith?
    ensures var s := Run(schedule);
      && l.k < |s.drivers| && 1 <= l.task <= l.latest <= Started(s, l.k)
      && (l.remaining == 0 || l.remaining == Tasks(s.drivers[l.k])[l.latest - 1])
      && (s.timeouts == 0 ==> l.latest == l.task)
  {
    hide Run, Inv, ReadsOk;
    RunReads(schedule);
  }

  // ---------- runs in which the number printed is not the timer of the task seen ----------

  /** A run made one choice longer. */
  lemma Next(schedule: seq<Choice>, s: State, c: Choice) returns (longer: seq<Choice>, t: State)
    requires Run(schedule) == s
    ensures longer == schedule + [c] && t == Step(s, c) && Run(longer) == t
  {
    longer, t := schedule + [c], Step(s, c);
    assert longer[..|schedule|] == schedule;
  }

  /** A run of `create_driver`, before the new process has done anything. */
  lemma DriverCreated(pid: int) returns (schedule: seq<Choice>, s: State)
    requires pid > 0
    ensures Run(schedule) == s && |s.slots| == MAX_DRIVERS && s.slots[0] == Slot(pid, false, 0, true)
    ensures s.infos == [Info(pid, 0, 0)] && s.count == 1 && s.cli.Prompt? && s.timeouts == 0 && s.lines == []
    ensures s.drivers == [Driver(ClearBusyFirst, 0, Disarmed, [], [], [], false)]
  {
    hide Run, EmptySlots, DriverStep;
    schedule, s := [], Start();
    assert Run(schedule) == s by { EmptyRun(); }
    assert s.slots[0] == EMPTY_SLOT && !PidInUse(s, pid);
    schedule, s := Next(schedule, s, Create(pid));
    schedule, s := Next(schedule, s, CliMoves);
    schedule, s := Next(schedule, s, CliMoves);
    schedule, s := Next(schedule, s, CliMoves);
    schedule, s := Next(schedule, s, CliMoves);
    schedule, s := Next(schedule, s, CliMoves);
    schedule, s := Next(schedule, s, CliMoves);
  }

  /** One statement of the only driver. */
  lemma Drive(schedule: seq<Choice>, s: State) returns (longer: seq<Choice>, t: State)
    requires Run(schedule) == s && |s.slots| > 0 && |s.drivers| == 1 && s.drivers[0].slot == 0
    ensures Run(longer) == t
    ensures var (sl, d) := DriverStep(s.slots[0], s.drivers[0]); t == s.(slots := s.slots[0 := sl], drivers := [d])
  {
    hide Run, DriverStep;
    longer, t := Next(schedule, s, DriverMoves(0));
    var (sl, d) := DriverStep(s.slots[0], s.drivers[0]);
    assert s.drivers[0 := d] == [d];
  }

  /** ... and until the driver polls for the first time. */
  lemma DriverReady(pid: int) returns (schedule: seq<Choice>, s: State)
    requires pid > 0
    ensures Run(schedule) == s && |s.slots| == MAX_DRIVERS && s.slots[0] == Slot(pid, false, 0, true)
    ensures s.infos == [Info(pid, 0, 0)] && s.count == 1 && s.cli.Prompt? && s.timeouts == 0 && s.lines == []
    ensures s.drivers == [Driver(Poll, 0, Disarmed, [], [], [], false)]
  {
    hide Run, CliStep, CreateStep, SendStep;
    schedule, s := DriverCreated(pid);
    schedule, s := Drive(schedule, s);
    schedule, s := Drive(schedule, s);
  }

  lemma EmptyRun()
    ensures Run([]) == Start()
  {
  }

  /** A driver that takes a task, up to just after it has marked itself busy. */
  lemma BusyZeroIsReachable(pid: int, timer: int) returns (schedule: seq<Choice>, s: State)
    requires pid > 0 && timer > 0
    ensures Run(schedule) == s && |s.slots| == MAX_DRIVERS && s.slots[0] == Slot(pid, true, 0, true)
    ensures s.infos == [Info(pid, 0, 0)] && s.count == 1 && s.cli == Awaiting(0, timer)
    ensures s.timeouts == 0 && s.lines == []
    ensures s.drivers == [Driver(SetRemaining(timer, false), 0, Disarmed, [], [], [], false)]
  {
    hide Run, EmptySlots;
    schedule, s := DriverReady(pid);
    assert FirstInfo(s.infos, pid) == 0;
    schedule, s := Next(schedule, s, SendTask(pid, timer));
    schedule, s := Next(schedule, s, CliMoves);
    schedule, s := Drive(schedule, s);
    schedule, s := Drive(schedule, s);
    schedule, s := Drive(schedule, s);
    schedule, s := Drive(schedule, s);
  }

  lemma FirstSlotFound(slots: seq<Slot>, pid: int)
    requires |slots| == 1 && slots[0].active && slots[0].pid == pid
    ensures FirstSlot(slots, pid) == 0
  {
  }

  /** The CLI asks for the status of a busy driver and has read `busy`. */
  lemma AsksStatus(schedule: seq<Choice>, s: State, pid: int) returns (longer: seq<Choice>, t: State)
    requires Run(schedule) == s && s.cli.Prompt? && s.count == 1 && |s.slots| == MAX_DRIVERS && |s.drivers| == 1
    requires pid > 0 && s.slots[0].pid == pid && s.slots[0].active && s.slots[0].busy
    ensures Run(longer) == t && t == s.(cli := ReadRemaining(0, Started(s, 0)))
  {
    hide Run, Tasks;
    FirstSlotFound(s.slots[..1], pid);
    longer, t := Next(schedule, s, GetStatus(pid));
    longer, t := Next(longer, t, CliMoves);
  }

  /** "Busy 0" between lines 107 and 108, for a task that is just starting. It takes a reply that timed out. */
  lemma BusyZeroAtStart(pid: int, timer: int) returns (schedule: seq<Choice>)
    requires pid > 0 && timer > 0
    ensures Run(schedule).lines == [BusyWith(0, 0, 1, 1)] && Run(schedule).timeouts == 1
  {
    hide Run, DriverStep;
    var s;
    schedule, s := BusyZeroIsReachable(pid, timer);
    schedule, s := Next(schedule, s, CliTimesOut);
    schedule, s := AsksStatus(schedule, s, pid);
    schedule, s := Next(schedule, s, CliMoves);
  }

  /** A driver that has accepted a task and answered, ... */
  lemma TaskAccepted(pid: int, timer: int) returns (schedule: seq<Choice>, s: State)
    requires pid > 0 && timer > 0
    ensures Run(schedule) == s && |s.slots| == MAX_DRIVERS && s.slots[0] == Slot(pid, true, timer, true)
    ensures s.infos == [Info(pid, 0, 0)] && s.count == 1 && s.cli.Prompt? && s.timeouts == 0 && s.lines == []
    ensures s.drivers == [Driver(CheckTimer(false), 0, Armed, [], [], [Accepted(timer)], false)]
  {
    hide Run;
    schedule, s := BusyZeroIsReachable(pid, timer);
    assert [] + [Accepted(timer)] == [Accepted(timer)] && [Ok] == [] + [Ok];
    schedule, s := Drive(schedule, s);
    schedule, s := Drive(schedule, s);
    schedule, s := Drive(schedule, s);
    schedule, s := Next(schedule, s, CliMoves);
  }

  /** ... and whose timer has expired and been seen by `poll`. */
  lemma TaskExpired(pid: int, timer: int) returns (schedule: seq<Choice>, s: State)
    requires pid > 0 && timer > 0
    ensures Run(schedule) == s && |s.slots| == MAX_DRIVERS && s.slots[0] == Slot(pid, true, timer, true)
    ensures s.infos == [Info(pid, 0, 0)] && s.count == 1 && s.cli.Prompt? && s.timeouts == 0 && s.lines == []
    ensures s.drivers == [Driver(CheckTimer(true), 0, Expired, [], [], [Accepted(timer)], false)]
  {
    hide Run, CliStep;
    schedule, s := TaskAccepted(pid, timer);
    schedule, s := Drive(schedule, s);
    schedule, s := Next(schedule, s, TimerFires(0));
    schedule, s := Drive(schedule, s);
  }

  lemma OneTask(timer: int)
    ensures AcceptedTimers([Accepted(timer)]) == [timer] == AcceptedTimers([Accepted(timer), Completed])
  {
    assert [Accepted(timer)][..0] == [] && [Accepted(timer), Completed][..1] == [Accepted(timer)];
  }

  /** "Busy 0" for a task that was completed between the two reads, with every reply in time. */
  lemma BusyZeroAtEnd(pid: int, timer: int) returns (schedule: seq<Choice>)
    requires pid > 0 && timer > 0
    ensures Run(schedule).lines == [BusyWith(0, 0, 1, 1)] && Run(schedule).timeouts == 0
  {
    hide Run;
    var s;
    schedule, s := TaskExpired(pid, timer);
    OneTask(timer);
    schedule, s := AsksStatus(schedule, s, pid);
    schedule, s := Drive(schedule, s);
    schedule, s := Drive(schedule, s);
    schedule, s := Drive(schedule, s);
    schedule, s := Drive(schedule, s);
    assert s.drivers[0].log == [Accepted(timer), Completed];
    schedule, s := Next(schedule, s, CliMoves);
  }

  /** The timer of another task: the one seen is completed and the next one, whose answer timed out, started
      between the two reads. */
  lemma LaterTaskPrinted(pid: int, timer: int, next: int) returns (schedule: seq<Choice>)
    requires pid > 0 && timer > 0 && next > 0
    ensures Run(schedule).lines == [BusyWith(0, next, 1, 2)] && Run(schedule).timeouts == 1
  {
    hide Run, DriverStep;
    var s;
    schedule, s := SecondTaskSent(pid, timer, next);
    OneTask(timer);
    schedule, s := AsksStatus(schedule, s, pid);
    schedule, s := TaskReplaced(schedule, s, pid, timer, next);
    assert Tasks(s.drivers[0]) == [timer] + [next];
    schedule, s := Next(schedule, s, CliMoves);
  }

  lemma SecondTaskSent(pid: int, timer: int, next: int) returns (schedule: seq<Choice>, s: State)
    requires pid > 0 && timer > 0 && next > 0
    ensures Run(schedule) == s && |s.slots| == MAX_DRIVERS && s.slots[0] == Slot(pid, true, timer, true)
    ensures s.count == 1 && s.cli.Prompt? && s.timeouts == 1 && s.lines == []
    ensures s.drivers == [Driver(CheckTimer(true), 0, Expired, [next], [], [Accepted(timer)], false)]
  {
    hide Run, DriverStep;
    schedule, s := TaskExpired(pid, timer);
    assert [] + [next] == [next];
    assert FirstInfo(s.infos, pid) == 0;
    schedule, s := Next(schedule, s, SendTask(pid, next));
    schedule, s := Next(schedule, s, CliMoves);
    schedule, s := Next(schedule, s, CliTimesOut);
  }

  /** The driver completes its task ... */
  lemma TaskCleared(before: seq<Choice>, r: State, pid: int, timer: int, next: int)
    returns (schedule: seq<Choice>, s: State)
    requires Run(before) == r && |r.slots| == MAX_DRIVERS && r.slots[0] == Slot(pid, true, timer, true)
    requires r.drivers == [Driver(CheckTimer(true), 0, Expired, [next], [], [Accepted(timer)], false)]
    ensures Run(schedule) == s && |s.slots| == MAX_DRIVERS && s.slots[0] == Slot(pid, false, 0, true)
    ensures s.drivers == [Driver(Poll, 0, Disarmed, [next], [], [Accepted(timer), Completed], false)]
    ensures s.cli == r.cli && s.lines == r.lines && s.timeouts == r.timeouts
  {
    hide Run, CliStep;
    schedule, s := before, r;
    assert [Accepted(timer)] + [Completed] == [Accepted(timer), Completed];
    schedule, s := Drive(schedule, s);
    schedule, s := Drive(schedule, s);
    schedule, s := Drive(schedule, s);
    schedule, s := Drive(schedule, s);
  }

  /** ... and takes the next one from its pipe. */
  lemma TaskReplaced(before: seq<Choice>, r: State, pid: int, timer: int, next: int)
    returns (schedule: seq<Choice>, s: State)
    requires Run(before) == r && |r.slots| == MAX_DRIVERS && r.slots[0] == Slot(pid, true, timer, true)
    requires r.drivers == [Driver(CheckTimer(true), 0, Expired, [next], [], [Accepted(timer)], false)]
    ensures Run(schedule) == s && |s.slots| == MAX_DRIVERS && s.slots[0] == Slot(pid, true, next, true)
    ensures s.drivers == [Driver(ArmTimer(next, false), 0, Disarmed, [], [], [Accepted(timer), Completed], false)]
    ensures s.cli == r.cli && s.lines == r.lines && s.timeouts == r.timeouts
  {
    hide Run, CliStep;
    schedule, s := TaskCleared(before, r, pid, timer, next);
    schedule, s := Drive(schedule, s);
    schedule, s := Drive(schedule, s);
    schedule, s := Drive(schedule, s);
    schedule, s := Drive(schedule, s);
    schedule, s := Drive(schedule, s);
  }
}
