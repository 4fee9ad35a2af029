/** The whole taxi dispatcher under every interleaving: the tables agree, start-up never erases a task,
    every task ends by its own timer, and every answer is to its own command. */
module TaxiSystem {
  import opened Taxi
  import opened TaxiDriver

  // ---------- the invariant ----------

  /** Whether the CLI is inside `create_driver`, after the fork. */
  predicate Creating(c: Cli) {
    !c.Prompt? && !c.Sending? && !c.Awaiting? && !c.ReadBusy? && !c.ReadRemaining?
  }

  /** `drivers_info[i]` and slot `i` are about the same process. */
  predicate Entry(info: Info, sl: Slot, i: nat) {
    info == Info(sl.pid, i, i) && sl.active && sl.pid > 0
  }

  /** The slot `create_driver` is filling in. */
  ghost predicate Filling(c: Cli, sl: Slot) {
    match c
    case StorePid(_, _, _) => !sl.active
    case StoreBusy(pid, _, _) => sl.pid == pid && !sl.active
    case StoreRemaining(pid, _, _) => sl.pid == pid && !sl.active
    case StoreActive(pid, _, _) => sl.pid == pid && !sl.active
    case StoreCount(pid, _, _) => sl.pid == pid && sl.active
    case StoreInfo(pid, _, _) => sl.pid == pid && sl.active
    case _ => true
  }

  ghost predicate TablesOk(s: State) {
    var n := |s.infos|;
    && |s.slots| == MAX_DRIVERS && n <= |s.drivers| <= MAX_DRIVERS
    && (forall i :: 0 <= i < n ==> Entry(s.infos[i], s.slots[i], i))
    && (forall i, j :: 0 <= i < j < n ==> s.infos[i].pid != s.infos[j].pid)
    && (forall i :: |s.drivers| <= i < |s.slots| ==> s.slots[i] == EMPTY_SLOT)
    && (if Creating(s.cli) then
          && |s.drivers| == n + 1 && s.cli.child == s.cli.slot == n && s.cli.pid > 0
          && s.count == n + (if s.cli.StoreInfo? then 1 else 0)
          && (forall i :: 0 <= i < n ==> s.infos[i].pid != s.cli.pid)
          && Filling(s.cli, s.slots[n])
        else |s.drivers| == n == s.count)
    && (s.cli.Sending? || s.cli.Awaiting? ==> s.cli.k < n && s.cli.timer > 0)
    && (s.cli.ReadBusy? || s.cli.ReadRemaining? ==> s.cli.k < n)
  }

  /** A driver nobody can have sent a task to yet. */
  ghost predicate Unused(d: Driver) {
    && d.cmds == [] && d.replies == [] && d.log == []
    && (d.pc.ClearBusyFirst? || d.pc.ClearRemainingFirst? || d.pc.Poll?)
  }

  ghost predicate DriversOk(s: State) {
    && |s.drivers| <= |s.slots|
    && (forall i :: 0 <= i < |s.drivers| ==> s.drivers[i].slot == i && DriverOk(s.slots[i], s.drivers[i]))
    && (Creating(s.cli) ==> s.cli.child < |s.drivers| && Unused(s.drivers[s.cli.child]))
  }

  function AnswersOf(answers: seq<Answer>, i: nat): seq<(int, seq<Reply>)> {
    if answers == [] then []
    else
      var last := answers[|answers| - 1];
      AnswersOf(answers[..|answers| - 1], i) + if last.driver == i then [(last.timer, last.replies)] else []
  }

  /** Every command is still on its way or has been answered, with its own answer. */
  ghost predicate PipesOk(s: State) {
    forall i :: 0 <= i < |s.drivers| ==>
      if s.cli.Awaiting? && s.cli.k == i then Busied(s.drivers[i], s.cli.timer, AnswersOf(s.answers, i))
      else Quiet(s.drivers[i], AnswersOf(s.answers, i))
  }

  /** No answer is recorded for a driver that does not exist. */
  ghost predicate AnswersOk(s: State) {
    forall j :: 0 <= j < |s.answers| ==> s.answers[j].driver < |s.drivers|
  }

  ghost predicate Inv(s: State) {
    TablesOk(s) && DriversOk(s) && AnswersOk(s) && (s.timeouts == 0 ==> PipesOk(s))
  }

  // ---------- the steps of the drivers ----------

  lemma DriverKeepsSlot(sl: Slot, d: Driver)
    ensures var (sl', d') := DriverStep(sl, d); sl'.pid == sl.pid && sl'.active == sl.active && d'.slot == d.slot
    ensures Unused(d) ==> Unused(DriverStep(sl, d).1) || d.timer.Expired?
  {
  }

  lemma DriverMovesOk(s: State, i: nat)
    requires Inv(s) && i < |s.drivers|
    ensures Inv(Step(s, DriverMoves(i)))
  {
    hide DriverOk, DriverStep, Quiet, Busied, Filling, Unused, AnswersOf, Step;
    var d, sl := s.drivers[i], s.slots[i];
    assert d.slot == i;
    DriverStepOk(sl, d);
    DriverKeepsSlot(sl, d);
    DriverMovesTo(s, i);
    if Unused(d) {
      UnusedIsDisarmed(sl, d);
    }
    if Creating(s.cli) && s.cli.child == i {
      FillingKept(s.cli, sl, DriverStep(sl, d).0);
    }
    if s.timeouts == 0 {
      if s.cli.Awaiting? && s.cli.k == i {
        BusiedStep(sl, d, s.cli.timer, AnswersOf(s.answers, i));
      } else {
        QuietStep(sl, d, AnswersOf(s.answers, i));
      }
    }
  }

  lemma DriverMovesTo(s: State, i: nat)
    requires i < |s.drivers| && s.drivers[i].slot == i < |s.slots|
    ensures var e := DriverStep(s.slots[i], s.drivers[i]);
      Step(s, DriverMoves(i)) == s.(slots := s.slots[i := e.0], drivers := s.drivers[i := e.1])
  {
    hide DriverStep;
  }

  lemma FillingKept(c: Cli, a: Slot, b: Slot)
    requires Filling(c, a) && a.pid == b.pid && a.active == b.active
    ensures Filling(c, b)
  {
  }

  lemma UnusedIsDisarmed(sl: Slot, d: Driver)
    requires DriverOk(sl, d) && Unused(d)
    ensures d.timer.Disarmed? && !sl.busy && sl.remaining == 0
  {
  }

  lemma TimerFiresKeeps(s: State, i: nat)
    requires Inv(s) && i < |s.drivers| && s.drivers[i].timer.Armed?
    ensures Inv(Step(s, TimerFires(i)))
  {
    hide DriverOk, Filling, Outcomes, AnswersOf;
    TimerFiresOk(s.slots[i], s.drivers[i]);
  }

  // ---------- the steps of the CLI ----------

  lemma {:induction false} NoAnswers(answers: seq<Answer>, i: nat)
    requires forall j :: 0 <= j < |answers| ==> answers[j].driver != i
    ensures AnswersOf(answers, i) == []
  {
    if answers != [] {
      NoAnswers(answers[..|answers| - 1], i);
    }
  }

  lemma NewDriverOk(i: nat)
    ensures var d := Driver(ClearBusyFirst, i, Disarmed, [], [], [], false);
      DriverOk(EMPTY_SLOT, d) && Unused(d) && Quiet(d, [])
  {
  }

  lemma CreateKeeps(s: State, pid: int)
    requires Inv(s)
    ensures Inv(CreateStep(s, pid))
  {
    hide DriverOk, Quiet, Busied;
    var t := CreateStep(s, pid);
    if t != s {
      NewDriverOk(s.count);
      NoAnswers(s.answers, s.count);
      assert t.drivers[s.count] == Driver(ClearBusyFirst, s.count, Disarmed, [], [], [], false);
      assert s.slots[s.count] == EMPTY_SLOT;
    }
  }

  lemma FirstInfoAt(infos: seq<Info>, pid: int)
    ensures -1 <= FirstInfo(infos, pid) < |infos|
    ensures FirstInfo(infos, pid) >= 0 ==> infos[FirstInfo(infos, pid)].pid == pid
    ensures FirstInfo(infos, pid) == -1 ==> forall i :: 0 <= i < |infos| ==> infos[i].pid != pid
  {
  }

  lemma SendKeeps(s: State, pid: int, timer: int)
    requires Inv(s)
    ensures Inv(SendStep(s, pid, timer))
  {
    hide DriverOk, Quiet, Busied, Filling;
    FirstInfoAt(s.infos, pid);
  }

  /** A driver depends on `busy` and `remaining` only. */
  lemma SameForDriver(a: Slot, b: Slot, d: Driver)
    requires DriverOk(a, d) && b.busy == a.busy && b.remaining == a.remaining
    ensures DriverOk(b, d)
  {
  }

  /** The writes of `create_driver` to the slot; `busy` and `remaining` are written only while no task
      can have been sent, and are then 0 already. */
  lemma StoreSlotKeeps(s: State)
    requires Inv(s) && Creating(s.cli) && !s.cli.StoreCount? && !s.cli.StoreInfo?
    ensures Inv(CliStep(s))
    ensures s.cli.StoreBusy? || s.cli.StoreRemaining? ==> CliStep(s).slots == s.slots
  {
    hide DriverOk, Quiet, Busied, Unused;
    var i := s.cli.slot;
    var t := CliStep(s);
    UnusedIsDisarmed(s.slots[i], s.drivers[i]);
    assert t.slots == s.slots[i := t.slots[i]];
    SameForDriver(s.slots[i], t.slots[i], s.drivers[i]);
  }

  lemma StoreTablesKeeps(s: State)
    requires Inv(s) && (s.cli.StoreCount? || s.cli.StoreInfo?)
    ensures Inv(CliStep(s))
  {
    hide DriverOk, Quiet, Busied, Unused;
  }

  lemma CommandSent(sl: Slot, d: Driver, t: int, answered: seq<(int, seq<Reply>)>)
    requires DriverOk(sl, d) && t > 0
    ensures DriverOk(sl, d.(cmds := d.cmds + [t]))
    ensures Quiet(d, answered) ==> Busied(d.(cmds := d.cmds + [t]), t, answered)
  {
    hide Open, LogOk, Running;
    assert d.cmds == [] ==> d.cmds + [t] == [t];
  }

  lemma AnswerRead(sl: Slot, d: Driver, t: int, answered: seq<(int, seq<Reply>)>)
    requires DriverOk(sl, d) && d.replies != []
    ensures DriverOk(sl, d.(replies := []))
    ensures Busied(d, t, answered) ==> Quiet(d.(replies := []), answered + [(t, d.replies)])
  {
    hide Open, LogOk, Running, Outcomes;
  }

  lemma WriteCommandKeeps(s: State)
    requires Inv(s) && s.cli.Sending?
    ensures Inv(CliStep(s))
  {
    hide DriverOk, Quiet, Busied, Unused, Filling;
    var k := s.cli.k;
    assert Entry(s.infos[k], s.slots[k], k);
    CommandSent(s.slots[k], s.drivers[k], s.cli.timer, AnswersOf(s.answers, k));
  }

  lemma ReadAnswerKeeps(s: State)
    requires Inv(s) && s.cli.Awaiting?
    ensures Inv(CliStep(s))
  {
    hide DriverOk, Quiet, Busied, Unused, Filling;
    var k := s.cli.k;
    assert Entry(s.infos[k], s.slots[k], k);
    var t := CliStep(s);
    if t != s {
      var d := s.drivers[k];
      AnswerRead(s.slots[k], d, s.cli.timer, AnswersOf(s.answers, k));
      var a := Answer(k, s.cli.timer, d.replies);
      forall i | 0 <= i < |s.drivers|
        ensures AnswersOf(t.answers, i) ==
          if i == k then AnswersOf(s.answers, i) + [(a.timer, a.replies)] else AnswersOf(s.answers, i)
      {
        AnswersAppend(s.answers, a, i);
      }
    }
  }

  lemma AnswersAppend(answers: seq<Answer>, a: Answer, i: nat)
    ensures AnswersOf(answers + [a], i) ==
      if a.driver == i then AnswersOf(answers, i) + [(a.timer, a.replies)] else AnswersOf(answers, i)
  {
    assert (answers + [a])[..|answers|] == answers;
  }

  lemma TimeoutKeeps(s: State)
    requires Inv(s)
    ensures Inv(TimeoutStep(s))
  {
    hide DriverOk, Quiet, Busied, Unused, Filling;
  }

  lemma FirstSlotRange(slots: seq<Slot>, pid: int)
    ensures var i := FirstSlot(slots, pid);
      && -1 <= i < |slots|
      && (i >= 0 ==> slots[i].active && slots[i].pid == pid)
      && (i == -1 ==> forall j :: 0 <= j < |slots| ==> !(slots[j].active && slots[j].pid == pid))
  {
  }

  lemma StatusKeeps(s: State, pid: int)
    requires Inv(s)
    ensures Inv(StatusStep(s, pid))
  {
    hide DriverOk, Quiet, Busied, Unused, Filling, FirstSlot;
    if s.count <= |s.slots| {
      FirstSlotRange(s.slots[..s.count], pid);
    }
  }

  /** The reads of `get_status` change nothing but what is printed. */
  lemma ReadKeeps(s: State)
    requires Inv(s) && (s.cli.ReadBusy? || s.cli.ReadRemaining?)
    ensures Inv(CliStep(s))
  {
    hide DriverOk, Quiet, Busied, Unused, Filling, Started;
  }

  lemma StepInv(s: State, c: Choice)
    requires Inv(s)
    ensures Inv(Step(s, c))
  {
    hide Inv, DriverStep, CliStep, CreateStep, SendStep, StatusStep, TimeoutStep;
    match c
    case Create(pid) => CreateKeeps(s, pid);
    case SendTask(pid, timer) => SendKeeps(s, pid, timer);
    case GetStatus(pid) => StatusKeeps(s, pid);
    case CliTimesOut => TimeoutKeeps(s);
    case DriverMoves(i) =>
      if i < |s.drivers| {
        DriverMovesOk(s, i);
      }
    case TimerFires(i) =>
      if i < |s.drivers| && s.drivers[i].timer.Armed? {
        TimerFiresKeeps(s, i);
      }
    case CliMoves =>
      if s.cli.Sending? {
        WriteCommandKeeps(s);
      } else if s.cli.Awaiting? {
        ReadAnswerKeeps(s);
      } else if s.cli.StoreCount? || s.cli.StoreInfo? {
        StoreTablesKeeps(s);
      } else if s.cli.ReadBusy? || s.cli.ReadRemaining? {
        ReadKeeps(s);
      } else if s.cli.Prompt? {
        assert CliStep(s) == s by { PromptStays(s); }
      } else {
        StoreSlotKeeps(s);
      }
  }

  lemma PromptStays(s: State)
    requires s.cli.Prompt?
    ensures CliStep(s) == s
  {
  }

  lemma {:induction false} RunInv(schedule: seq<Choice>)
    ensures Inv(Run(schedule))
  {
    if schedule != [] {
      RunInv(schedule[..|schedule| - 1]);
      StepInv(Run(schedule[..|schedule| - 1]), schedule[|schedule| - 1]);
    }
  }

  // ---------- the results ----------

  /** Whenever the CLI can run a command, `send_task` and `get_status` find the same driver for a process
      id, or both find none: entry k of `drivers_info` and slot k belong to driver k. */
  lemma SameDriverFound(schedule: seq<Choice>, pid: int)
    requires !Creating(Run(schedule).cli)
    ensures var s := Run(schedule);
      && s.count <= |s.slots|
      && FirstInfo(s.infos, pid) == FirstSlot(s.slots[..s.count], pid)
      && forall k :: 0 <= k < |s.infos| ==>
        k < |s.slots| && s.infos[k] == Info(s.slots[k].pid, k, k) && k < |s.drivers| && s.drivers[k].slot == k
  {
    hide Run, TablesOk, DriverOk, Creating, FirstInfo, FirstSlot, PipesOk;
    RunInv(schedule);
    var s := Run(schedule);
    TablesAgree(s, pid);
    assert forall k :: 0 <= k < |s.drivers| ==> s.drivers[k].slot == k;
  }

  lemma TablesAgree(s: State, pid: int)
    requires TablesOk(s) && !Creating(s.cli)
    ensures s.count <= |s.slots| && |s.infos| == |s.drivers| <= |s.slots|
    ensures FirstInfo(s.infos, pid) == FirstSlot(s.slots[..s.count], pid)
    ensures forall k :: 0 <= k < |s.infos| ==> s.infos[k] == Info(s.slots[k].pid, k, k)
  {
    hide FirstInfo, FirstSlot, Filling;
    FirstInfoAt(s.infos, pid);
    FirstSlotRange(s.slots[..s.count], pid);
    var i, j := FirstInfo(s.infos, pid), FirstSlot(s.slots[..s.count], pid);
    if i >= 0 {
      assert Entry(s.infos[i], s.slots[i], i);
    }
    if j >= 0 {
      assert Entry(s.infos[j], s.slots[j], j);
    }
  }

  /** In every reachable state, replies late or not: the timer was never read before it expired, an armed
      or readable timer means busy, and in the history of each driver tasks end only after having been
      accepted, at most one of them still running; a refusal names the timer of the task then running. */
  lemma TasksEndByTheirTimer(schedule: seq<Choice>, i: nat)
    requires i < |Run(schedule).drivers|
    ensures var s := Run(schedule); var d := s.drivers[i];
      && i < |s.slots| && !d.eagain && (!d.timer.Disarmed? ==> s.slots[i].busy)
      && LogOk(d.log) && Completions(d.log) <= Oks(d.log) <= Completions(d.log) + 1
      && (d.pc.Poll? ==> (s.slots[i].busy <==> Open(d.log)) && s.slots[i].remaining == Running(d.log))
  {
    RunInv(schedule);
    var s := Run(schedule);
    assert DriverOk(s.slots[i], s.drivers[i]);
    CompletionsFollowOks(s.drivers[i].log);
  }

  /** The driver is about to write its own slot before its first `poll`. */
  predicate StartingUp(d: Driver) {
    d.pc.ClearBusyFirst? || d.pc.ClearRemainingFirst?
  }

  lemma StartingDriver(sl: Slot, d: Driver)
    requires DriverOk(sl, d) && StartingUp(d)
    ensures DriverStep(sl, d).0 == sl
  {
  }

  lemma ChildErasesNothing(s: State, i: nat)
    requires Inv(s) && i < |s.drivers| && StartingUp(s.drivers[i])
    ensures Step(s, DriverMoves(i)).slots == s.slots
  {
    hide TablesOk, PipesOk, AnswersOk, DriverOk, DriverStep, StartingUp, Unused;
    assert s.drivers[i].slot == i;
    StartingDriver(s.slots[i], s.drivers[i]);
  }

  /** The start-up writes of `busy` and `remaining` by the parent and by the child never change the slot,
      so they cannot erase a task. */
  lemma StartUpErasesNothing(schedule: seq<Choice>)
    ensures var s := Run(schedule);
      && (s.cli.StoreBusy? || s.cli.StoreRemaining? ==> Step(s, CliMoves).slots == s.slots)
      && forall i :: 0 <= i < |s.drivers| && StartingUp(s.drivers[i]) ==> Step(s, DriverMoves(i)).slots == s.slots
  {
    hide Run, Inv, CliStep, StartingUp;
    RunInv(schedule);
    var s := Run(schedule);
    if s.cli.StoreBusy? || s.cli.StoreRemaining? {
      StoreSlotKeeps(s);
    }
    forall i | 0 <= i < |s.drivers| && StartingUp(s.drivers[i])
      ensures Step(s, DriverMoves(i)).slots == s.slots
    {
      ChildErasesNothing(s, i);
    }
  }

  /** What `remaining` holds in any reachable state: the timer of the latest task while the driver is busy and
      has stored it, and until it is cleared after the task; otherwise 0. */
  lemma StatusShowsTask(schedule: seq<Choice>, i: nat)
    requires i < |Run(schedule).drivers|
    ensures var s := Run(schedule); var d := s.drivers[i];
      && i < |s.slots|
      && if Shows(s.slots[i], d) then s.slots[i].remaining == TaskTimer(d) > 0 else s.slots[i].remaining == 0
  {
    RunInv(schedule);
    var s := Run(schedule);
    assert DriverOk(s.slots[i], s.drivers[i]);
    SlotShowsTimer(s.slots[i], s.drivers[i]);
  }

  /** Without timeouts, the answers read for a driver are exactly what became of its commands, one answer
      each and in order, except for at most one that is still in the pipe. */
  lemma AnswersMatchCommands(schedule: seq<Choice>, i: nat)
    requires i < |Run(schedule).drivers| && Run(schedule).timeouts == 0
    ensures var s := Run(schedule); var d := s.drivers[i];
      if d.replies == [] then Outcomes(d.log) == AnswersOf(s.answers, i)
      else
        && s.cli.Awaiting? && s.cli.k == i && |d.replies| == 1
        && Outcomes(d.log) == AnswersOf(s.answers, i) + [(s.cli.timer, d.replies)]
  {
    hide Outcomes, DriverOk;
    RunInv(schedule);
    var s := Run(schedule);
    assert s.timeouts == 0 && PipesOk(s);
  }
}
