/** What the commands of the taxi CLI do to which driver, told by the process ids in the shared slots. */
module TaxiCommands {
  import opened Lists
  import opened Taxi
  import opened TaxiDriver
  import opened TaxiSystem
  import opened TaxiStatus

  /** Slot `i` is in use by process `pid`. */
  predicate Has(s: State, i: nat, pid: int) {
    i < |s.slots| && s.slots[i].active && s.slots[i].pid == pid
  }

  predicate Unknown(s: State, pid: int) {
    forall i: nat :: i < |s.slots| ==> !Has(s, i, pid)
  }

  // ---------- the two searches ----------

  /** At the prompt both searches find the slot of the process, or neither finds any. */
  lemma Searches(s: State, pid: int)
    requires Inv(s) && !Creating(s.cli)
    ensures s.count == |s.infos| == |s.drivers| <= |s.slots|
    ensures forall i: nat :: Has(s, i, pid) ==>
      i < |s.infos| && FirstInfo(s.infos, pid) == i == FirstSlot(s.slots[..s.count], pid)
    ensures Unknown(s, pid) ==> FirstInfo(s.infos, pid) == -1 == FirstSlot(s.slots[..s.count], pid)
  {
    hide DriversOk, PipesOk, FirstInfo, FirstSlot, Filling;
    TablesAgree(s, pid);
    FirstInfoAt(s.infos, pid);
    var k := FirstInfo(s.infos, pid);
    if k >= 0 {
      assert Entry(s.infos[k], s.slots[k], k);
      assert Has(s, k, pid);
    }
    forall i: nat | Has(s, i, pid) ensures i < |s.infos| && k == i {
      OnlySlot(s, i, pid, k);
    }
  }

  lemma OnlySlot(s: State, i: nat, pid: int, k: int)
    requires TablesOk(s) && !Creating(s.cli) && Has(s, i, pid) && k == FirstInfo(s.infos, pid)
    ensures i < |s.infos| && k == i
  {
    hide FirstInfo, Filling;
    FirstInfoAt(s.infos, pid);
    assert i < |s.drivers|;
    assert Entry(s.infos[i], s.slots[i], i);
  }

  // ---------- send_task ----------

  /** `send_task` with the process id of a driver: the task goes to that driver and to no other, nothing else
      changes, and the CLI waits for that driver's answer. */
  lemma SendTaskReaches(schedule: seq<Choice>, pid: int, timer: int, i: nat)
    requires Run(schedule).cli.Prompt? && pid > 0 && timer > 0 && Has(Run(schedule), i, pid)
    ensures var s := Run(schedule);
      && i < |s.drivers|
      && Step(Step(s, SendTask(pid, timer)), CliMoves) == s.(
           drivers := s.drivers[i := s.drivers[i].(cmds := s.drivers[i].cmds + [timer])], cli := Awaiting(i, timer))
  {
    hide Run, Inv, Has, FirstInfo, FirstSlot, DriverStep;
    RunInv(schedule);
    var s := Run(schedule);
    Searches(s, pid);
    InfoIs(s, i);
  }

  lemma InfoIs(s: State, i: nat)
    requires Inv(s) && !Creating(s.cli) && i < |s.infos|
    ensures s.infos[i].driver == i < |s.drivers|
  {
    hide DriversOk, PipesOk, Filling;
    assert Entry(s.infos[i], s.slots[i], i);
  }

  /** `send_task` with the process id of no driver, or with an argument that is not positive, does nothing. */
  lemma SendTaskRefused(schedule: seq<Choice>, pid: int, timer: int)
    requires Run(schedule).cli.Prompt? && (pid <= 0 || timer <= 0 || Unknown(Run(schedule), pid))
    ensures Step(Run(schedule), SendTask(pid, timer)) == Run(schedule)
  {
    hide Run, Inv, Unknown, FirstInfo, FirstSlot;
    RunInv(schedule);
    Searches(Run(schedule), pid);
  }

  // ---------- get_status ----------

  /** `get_status` with the process id of a driver looks at that driver's slot. */
  lemma GetStatusReaches(schedule: seq<Choice>, pid: int, i: nat)
    requires Run(schedule).cli.Prompt? && pid > 0 && Has(Run(schedule), i, pid)
    ensures var s := Run(schedule); Step(s, GetStatus(pid)) == s.(cli := ReadBusy(i))
  {
    hide Run, Inv, Has, FirstInfo, FirstSlot;
    RunInv(schedule);
    Searches(Run(schedule), pid);
  }

  /** ... and with any other process id it prints that there is none. */
  lemma GetStatusUnknown(schedule: seq<Choice>, pid: int)
    requires Run(schedule).cli.Prompt? && pid > 0 && Unknown(Run(schedule), pid)
    ensures var s := Run(schedule); Step(s, GetStatus(pid)) == s.(lines := s.lines + [NotFound(pid)])
  {
    hide Run, Inv, Unknown, FirstInfo, FirstSlot;
    RunInv(schedule);
    Searches(Run(schedule), pid);
  }

  // ---------- create_driver ----------

  function CliRuns(s: State, n: nat): State {
    if n == 0 then s else Step(CliRuns(s, n - 1), CliMoves)
  }

  lemma CliRunsSix(s: State)
    ensures var t := Step(Step(Step(s, CliMoves), CliMoves), CliMoves);
      CliRuns(s, 6) == Step(Step(Step(t, CliMoves), CliMoves), CliMoves)
  {
    hide Step;
    assert CliRuns(s, 1) == Step(s, CliMoves);
    assert CliRuns(s, 2) == Step(CliRuns(s, 1), CliMoves);
    assert CliRuns(s, 3) == Step(CliRuns(s, 2), CliMoves);
    assert CliRuns(s, 4) == Step(CliRuns(s, 3), CliMoves);
    assert CliRuns(s, 5) == Step(CliRuns(s, 4), CliMoves);
  }

  /** `create_driver` with fewer than 100 drivers, when `fork` gives a fresh process id: one more driver, free
      and idle, in the next slot, with that process id; the others are left alone. */
  lemma CreateAdds(schedule: seq<Choice>, pid: int)
    requires Run(schedule).cli.Prompt? && pid > 0 && Unknown(Run(schedule), pid) && |Run(schedule).drivers| < 100
    ensures var s := Run(schedule); var n := |s.drivers|;
      && n < |s.slots|
      && CliRuns(Step(s, Create(pid)), 6) == s.(
           slots := s.slots[n := Slot(pid, false, 0, true)],
           count := n + 1,
           infos := s.infos + [Info(pid, n, n)],
           drivers := s.drivers + [Driver(ClearBusyFirst, n, Disarmed, [], [], [], false)])
  {
    hide Run, Inv, Unknown, FirstInfo, FirstSlot, DriverStep, CliRuns;
    RunInv(schedule);
    var s := Run(schedule);
    var n := |s.drivers|;
    Searches(s, pid);
    NextSlot(s);
    FreshPid(s, pid);
    var t := Step(s, Create(pid));
    CliRunsSix(t);
    var done := Slot(pid, false, 0, true);
    assert s.slots[n := Slot(pid, false, 0, false)][n := done] == s.slots[n := done];
  }

  lemma NextSlot(s: State)
    requires Inv(s) && !Creating(s.cli)
    ensures |s.slots| == 100 && (|s.drivers| < 100 ==> s.slots[|s.drivers|] == EMPTY_SLOT)
  {
    hide DriversOk, PipesOk, Filling;
  }

  lemma FreshPid(s: State, pid: int)
    requires Inv(s) && Unknown(s, pid)
    ensures !PidInUse(s, pid)
  {
    hide DriversOk, PipesOk, Filling;
    forall i | 0 <= i < |s.infos| ensures s.infos[i].pid != pid {
      assert Entry(s.infos[i], s.slots[i], i);
      assert !Has(s, i, pid);
    }
  }

  /** With 100 drivers it does nothing. */
  lemma CreateRefused(schedule: seq<Choice>, pid: int)
    requires Run(schedule).cli.Prompt? && |Run(schedule).drivers| >= 100
    ensures Step(Run(schedule), Create(pid)) == Run(schedule)
  {
    hide Run, Inv, FirstInfo, FirstSlot;
    RunInv(schedule);
    Searches(Run(schedule), pid);
  }

  // ---------- the answers to a driver's tasks ----------

  ghost predicate Accepts(s: State, c: Choice, pid: int) {
    && c.SendTask? && c.pid == pid && pid > 0 && c.timer > 0 && s.cli.Prompt?
    && exists i: nat :: Has(s, i, pid)
  }

  /** The timers of the `send_task` commands for process `pid` that the CLI has carried out, in order: those
      given at the prompt, with positive arguments, while a driver had that process id. */
  ghost function Sends(schedule: seq<Choice>, pid: int): seq<int> {
    if schedule == [] then []
    else
      var init, c := schedule[..|schedule| - 1], schedule[|schedule| - 1];
      Sends(init, pid) + if Accepts(Run(init), c, pid) then [c.timer] else []
  }

  function Timers(answers: seq<(int, seq<Reply>)>): seq<int> {
    if answers == [] then [] else Timers(answers[..|answers| - 1]) + [answers[|answers| - 1].0]
  }

  /** The task the CLI is sending to driver `i` or waiting for. */
  function InFlight(c: Cli, i: nat): seq<int> {
    if (c.Sending? || c.Awaiting?) && c.k == i then [c.timer] else []
  }

  ghost predicate Matched(s: State, i: nat, sends: seq<int>) {
    sends == Timers(AnswersOf(s.answers, i)) + InFlight(s.cli, i)
  }

  /** Without timeouts every command carried out has been answered or is the one in flight; answers come from
      drivers the CLI knows. */
  ghost predicate SendsOk(s: State, schedule: seq<Choice>) {
    && (forall j :: 0 <= j < |s.answers| ==> s.answers[j].driver < |s.infos|)
    && (forall i :: 0 <= i < |s.infos| ==> Matched(s, i, Sends(schedule, s.infos[i].pid)))
    && (forall pid :: (forall i :: 0 <= i < |s.infos| ==> s.infos[i].pid != pid) ==> Sends(schedule, pid) == [])
  }

  lemma TimersAppend(answers: seq<(int, seq<Reply>)>, a: (int, seq<Reply>))
    ensures Timers(answers + [a]) == Timers(answers) + [a.0]
  {
    assert (answers + [a])[..|answers|] == answers;
  }

  lemma SendsAppend(schedule: seq<Choice>, c: Choice, pid: int)
    ensures Sends(schedule + [c], pid) ==
      Sends(schedule, pid) + if Accepts(Run(schedule), c, pid) then [c.timer] else []
  {
    assert (schedule + [c])[..|schedule|] == schedule;
  }

  lemma NothingInFlight(s: State, t: State, schedule: seq<Choice>, c: Choice)
    requires SendsOk(s, schedule) && t.infos == s.infos && t.answers == s.answers
    requires forall i: nat :: InFlight(t.cli, i) == InFlight(s.cli, i)
    requires forall pid :: !Accepts(Run(schedule), c, pid)
    ensures SendsOk(t, schedule + [c])
  {
    hide Accepts, AnswersOf, Timers, InFlight, Run, Sends;
    forall pid ensures Sends(schedule + [c], pid) == Sends(schedule, pid) {
      SendsAppend(schedule, c, pid);
    }
  }

  /** The prompt takes a task. */
  lemma TaskTaken(s: State, schedule: seq<Choice>, pid: int, timer: int, i: nat)
    requires s == Run(schedule) && Inv(s) && SendsOk(s, schedule)
    requires s.cli.Prompt? && pid > 0 && timer > 0 && Has(s, i, pid)
    ensures SendsOk(Step(s, SendTask(pid, timer)), schedule + [SendTask(pid, timer)])
  {
    hide Run, Inv, Has, FirstInfo, FirstSlot, AnswersOf, Timers, Sends;
    var c := SendTask(pid, timer);
    Searches(s, pid);
    FirstInfoAt(s.infos, pid);
    forall p ensures Sends(schedule + [c], p) == Sends(schedule, p) + if p == pid then [timer] else [] {
      SendsAppend(schedule, c, p);
    }
    DistinctPids(s);
  }

  lemma DistinctPids(s: State)
    requires Inv(s)
    ensures forall i, j :: 0 <= i < j < |s.infos| ==> s.infos[i].pid != s.infos[j].pid
  {
    hide DriversOk, PipesOk, Filling;
  }

  /** The CLI reads the answer. */
  lemma AnswerTaken(s: State, schedule: seq<Choice>)
    requires s == Run(schedule) && Inv(s) && SendsOk(s, schedule) && s.cli.Awaiting? && Step(s, CliMoves) != s
    ensures SendsOk(Step(s, CliMoves), schedule + [CliMoves])
  {
    hide Run, Inv, AnswersOf, Timers, Sends;
    var k := s.cli.k;
    var t := Step(s, CliMoves);
    AwaitsKnown(s);
    InfoIs(s, k);
    var a := Answer(k, s.cli.timer, s.drivers[k].replies);
    forall pid ensures Sends(schedule + [CliMoves], pid) == Sends(schedule, pid) {
      SendsAppend(schedule, CliMoves, pid);
    }
    forall i | 0 <= i < |t.infos| ensures Matched(t, i, Sends(schedule, t.infos[i].pid)) {
      AnswersAppend(s.answers, a, i);
      TimersAppend(AnswersOf(s.answers, i), (a.timer, a.replies));
      assert Matched(s, i, Sends(schedule, s.infos[i].pid));
      assert i != k ==> InFlight(s.cli, i) == [];
    }
  }

  lemma AwaitsKnown(s: State)
    requires Inv(s) && (s.cli.Awaiting? || s.cli.Sending?)
    ensures s.cli.k < |s.infos|
  {
    hide DriversOk, PipesOk, Filling;
  }

  /** `create_driver` makes the new driver known. */
  lemma DriverKnown(s: State, schedule: seq<Choice>)
    requires s == Run(schedule) && Inv(s) && SendsOk(s, schedule) && s.cli.StoreInfo?
    ensures SendsOk(Step(s, CliMoves), schedule + [CliMoves])
  {
    hide Run, Inv, AnswersOf, Timers, Sends;
    var t := Step(s, CliMoves);
    var n := |s.infos|;
    forall pid ensures Sends(schedule + [CliMoves], pid) == Sends(schedule, pid) {
      SendsAppend(schedule, CliMoves, pid);
    }
    NewIsFresh(s);
    NoAnswers(s.answers, n);
    NoTimers();
    forall i | 0 <= i < |t.infos| ensures Matched(t, i, Sends(schedule, t.infos[i].pid)) {
      if i < n {
        assert Matched(s, i, Sends(schedule, s.infos[i].pid));
      }
    }
    forall pid | forall i :: 0 <= i < |t.infos| ==> t.infos[i].pid != pid ensures Sends(schedule, pid) == [] {
      assert forall i :: 0 <= i < n ==> t.infos[i] == s.infos[i];
    }
  }

  lemma NoTimers()
    ensures Timers([]) == []
  {
  }

  lemma NewIsFresh(s: State)
    requires Inv(s) && s.cli.StoreInfo?
    ensures forall i :: 0 <= i < |s.infos| ==> s.infos[i].pid != s.cli.pid
  {
    hide DriversOk, PipesOk, Filling;
  }

  lemma NotAccepted(s: State, c: Choice)
    requires Inv(s) && c.SendTask? && !Accepts(s, c, c.pid)
    ensures Step(s, c) == s
  {
    hide Inv, FirstInfo, FirstSlot, Has;
    if s.cli.Prompt? {
      Searches(s, c.pid);
    }
  }

  lemma OtherSteps(s: State, c: Choice)
    requires !c.SendTask? && !(c.CliMoves? && (s.cli.StoreInfo? || s.cli.Awaiting?))
    requires Step(s, c).timeouts == s.timeouts
    ensures Step(s, c).infos == s.infos && Step(s, c).answers == s.answers
    ensures forall i: nat :: InFlight(Step(s, c).cli, i) == InFlight(s.cli, i)
  {
    hide DriverStep, FirstInfo, FirstSlot, Started;
  }

  lemma SendsStep(s: State, schedule: seq<Choice>, c: Choice)
    requires s == Run(schedule) && Inv(s) && SendsOk(s, schedule) && Step(s, c).timeouts == s.timeouts
    ensures SendsOk(Step(s, c), schedule + [c])
  {
    hide Run, Inv, SendsOk, Step, Has, InFlight;
    if c.SendTask? {
      if Accepts(s, c, c.pid) {
        var i: nat :| Has(s, i, c.pid);
        TaskTaken(s, schedule, c.pid, c.timer, i);
      } else {
        NotAccepted(s, c);
        NothingInFlight(s, s, schedule, c);
      }
    } else if c.CliMoves? && s.cli.StoreInfo? {
      DriverKnown(s, schedule);
    } else if c.CliMoves? && s.cli.Awaiting? && Step(s, c) != s {
      AnswerTaken(s, schedule);
    } else {
      if Step(s, c) != s {
        OtherSteps(s, c);
      }
      NothingInFlight(s, Step(s, c), schedule, c);
    }
  }

  lemma TimeoutsGrow(s: State, c: Choice)
    ensures s.timeouts <= Step(s, c).timeouts
  {
    hide DriverStep, FirstInfo, FirstSlot, Started;
  }

  lemma {:induction false} RunSends(schedule: seq<Choice>)
    requires Run(schedule).timeouts == 0
    ensures SendsOk(Run(schedule), schedule)
  {
    hide Inv, SendsOk, Step;
    if schedule == [] {
      StartSends();
    } else {
      var init, c := schedule[..|schedule| - 1], schedule[|schedule| - 1];
      TimeoutsGrow(Run(init), c);
      RunSends(init);
      RunInv(init);
      SendsStep(Run(init), init, c);
      assert schedule == init + [c];
    }
  }

  lemma StartSends()
    ensures SendsOk(Start(), [])
  {
  }

  /** Without timeouts, the answers recorded for the driver of process `pid` are, in order, those to the
      `send_task` commands for `pid` that were carried out, each with its timer, except for at most one that
      is still being sent or waited for; and each answer is what became of that task. */
  lemma TasksAreAnswered(schedule: seq<Choice>, pid: int, i: nat)
    requires Run(schedule).timeouts == 0 && !Creating(Run(schedule).cli) && Has(Run(schedule), i, pid)
    ensures var s := Run(schedule);
      && i < |s.drivers|
      && Sends(schedule, pid) == Timers(AnswersOf(s.answers, i)) + InFlight(s.cli, i)
      && (s.cli.Prompt? ==> InFlight(s.cli, i) == [] && AnswersOf(s.answers, i) == Outcomes(s.drivers[i].log))
  {
    hide Run, Inv, Sends, Timers, AnswersOf, Outcomes, FirstInfo, FirstSlot;
    RunSends(schedule);
    RunInv(schedule);
    var s := Run(schedule);
    Searches(s, pid);
    FirstInfoAt(s.infos, pid);
    assert Matched(s, i, Sends(schedule, s.infos[i].pid));
    AnswersMatchCommands(schedule, i);
  }
}
