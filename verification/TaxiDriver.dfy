/** One taxi driver: what its slot, its timer and its history say of each other. */
module TaxiDriver {
  import opened Taxi

  // ---------- the history of a driver ----------

  /** Whether the last task accepted is still running. */
  function Open(log: seq<Event>): bool {
    if log == [] then false
    else
      match log[|log| - 1]
      case Accepted(_) => true
      case Completed => false
      case Refused(_, _) => Open(log[..|log| - 1])
  }

  /** The timer of the running task, 0 if there is none. */
  function Running(log: seq<Event>): int {
    if log == [] then 0
    else
      match log[|log| - 1]
      case Accepted(t) => t
      case Completed => 0
      case Refused(_, _) => Running(log[..|log| - 1])
  }

  /** Tasks are accepted only when none is running, completed and refused only when one is, and a
      refusal names the timer of the running task. */
  ghost predicate LogOk(log: seq<Event>) {
    log != [] ==>
      var init := log[..|log| - 1];
      && LogOk(init)
      && match log[|log| - 1]
         case Accepted(t) => !Open(init) && t > 0
         case Completed => Open(init)
         case Refused(_, r) => Open(init) && r == Running(init)
  }

  function Oks(log: seq<Event>): nat {
    if log == [] then 0 else Oks(log[..|log| - 1]) + if log[|log| - 1].Accepted? then 1 else 0
  }

  function Completions(log: seq<Event>): nat {
    if log == [] then 0 else Completions(log[..|log| - 1]) + if log[|log| - 1].Completed? then 1 else 0
  }

  lemma {:induction false} CompletionsFollowOks(log: seq<Event>)
    requires LogOk(log)
    ensures Oks(log) == Completions(log) + if Open(log) then 1 else 0
  {
    if log != [] {
      CompletionsFollowOks(log[..|log| - 1]);
    }
  }

  /** What one more event makes of a history. */
  lemma LogAppend(log: seq<Event>, e: Event)
    ensures Open(log + [e]) == if e.Refused? then Open(log) else e.Accepted?
    ensures Running(log + [e]) == if e.Refused? then Running(log) else if e.Accepted? then e.timer else 0
    ensures LogOk(log + [e]) <==>
      LogOk(log) && match e
                    case Accepted(t) => !Open(log) && t > 0
                    case Completed => Open(log)
                    case Refused(_, r) => Open(log) && r == Running(log)
  {
    assert (log + [e])[..|log|] == log;
  }

  // ---------- the invariant of a driver ----------

  /** Slot, timer and history agree: busy, armed or expired, and a task running are one and the same. */
  ghost predicate Settled(sl: Slot, d: Driver) {
    && (sl.busy <==> !d.timer.Disarmed?)
    && (sl.busy <==> Open(d.log))
    && sl.remaining == Running(d.log)
  }

  ghost predicate AtPc(sl: Slot, d: Driver) {
    match d.pc
    case ClearBusyFirst => Settled(sl, d) && d.log == []
    case ClearRemainingFirst => Settled(sl, d) && d.log == []
    case Poll => Settled(sl, d)
    case ReadCommand(ts) => Settled(sl, d) && (ts ==> d.timer.Expired?)
    case TestBusy(cmd, ts) => Settled(sl, d) && (ts ==> d.timer.Expired?) && cmd > 0
    case SayBusy(cmd, ts) => Settled(sl, d) && (ts ==> d.timer.Expired?) && sl.busy
    case SetBusy(cmd, ts) => Settled(sl, d) && !ts && !sl.busy && cmd > 0
    case SetRemaining(cmd, ts) => !ts && sl.busy && sl.remaining == 0 && d.timer.Disarmed? && !Open(d.log) && cmd > 0
    case ArmTimer(cmd, ts) => !ts && sl.busy && sl.remaining == cmd && d.timer.Disarmed? && !Open(d.log) && cmd > 0
    case SayOk(cmd, ts) => !ts && sl.busy && sl.remaining == cmd && !d.timer.Disarmed? && !Open(d.log) && cmd > 0
    case CheckTimer(ts) => Settled(sl, d) && (ts ==> d.timer.Expired?)
    case ReadTimer => Settled(sl, d) && d.timer.Expired?
    case ClearBusy => sl.busy && d.timer.Disarmed? && Open(d.log) && sl.remaining == Running(d.log)
    case ClearRemaining =>
      && !sl.busy && d.timer.Disarmed? && !Open(d.log)
      && d.log != [] && sl.remaining == Running(d.log[..|d.log| - 1]) > 0
  }

  ghost predicate DriverOk(sl: Slot, d: Driver) {
    && AtPc(sl, d) && LogOk(d.log) && !d.eagain
    && forall i :: 0 <= i < |d.cmds| ==> d.cmds[i] > 0
  }

  lemma {:induction false} ClosedRunsNothing(log: seq<Event>)
    requires !Open(log)
    ensures Running(log) == 0
  {
    if log != [] {
      match log[|log| - 1]
      case Refused(_, _) => ClosedRunsNothing(log[..|log| - 1]);
      case _ =>
    }
  }

  lemma {:induction false} RunningIsPositive(log: seq<Event>)
    requires LogOk(log) && Open(log)
    ensures Running(log) > 0
  {
    if log[|log| - 1].Refused? {
      RunningIsPositive(log[..|log| - 1]);
    }
  }

  predicate InCommand(pc: DriverPc) {
    pc.TestBusy? || pc.SayBusy? || pc.SetBusy? || pc.SetRemaining? || pc.ArmTimer? || pc.SayOk?
  }

  predicate Logs(pc: DriverPc) {
    pc.SayBusy? || pc.SayOk? || pc.ClearBusy?
  }

  lemma LoggingStepOk(sl: Slot, d: Driver)
    requires DriverOk(sl, d) && Logs(d.pc)
    ensures var (sl', d') := DriverStep(sl, d); DriverOk(sl', d')
  {
    hide Open, Running, LogOk;
    if d.pc.SayBusy? {
      LogAppend(d.log, Refused(d.pc.cmd, sl.remaining));
    } else if d.pc.SayOk? {
      LogAppend(d.log, Accepted(d.pc.cmd));
    } else {
      LogAppend(d.log, Completed);
      RunningIsPositive(d.log);
      assert (d.log + [Completed])[..|d.log|] == d.log;
    }
  }

  /** A statement that logs nothing keeps the history; what it takes from the pipe was sent as positive. */
  lemma QuietKeepsLog(sl: Slot, d: Driver)
    requires DriverOk(sl, d) && !Logs(d.pc)
    ensures var e := DriverStep(sl, d).1;
      e.log == d.log && !e.eagain && forall i :: 0 <= i < |e.cmds| ==> e.cmds[i] > 0
  {
    hide Open, Running, LogOk;
  }

  /** Lines 88-120: reading a command and taking a task. */
  lemma TakingStepOk(sl: Slot, d: Driver)
    requires DriverOk(sl, d) && (d.pc.ReadCommand? || InCommand(d.pc)) && !Logs(d.pc)
    ensures var (sl', d') := DriverStep(sl, d); AtPc(sl', d')
  {
    hide Open, Running, LogOk;
    if !Open(d.log) {
      ClosedRunsNothing(d.log);
    }
  }

  /** The other statements: start-up, `poll` and the end of a task. */
  lemma WaitingStepOk(sl: Slot, d: Driver)
    requires DriverOk(sl, d) && !d.pc.ReadCommand? && !InCommand(d.pc) && !Logs(d.pc)
    ensures var (sl', d') := DriverStep(sl, d); AtPc(sl', d')
  {
    hide Open, Running, LogOk;
    NothingYet();
    if !Open(d.log) {
      ClosedRunsNothing(d.log);
    }
  }

  lemma NothingYet()
    ensures !Open([])
  {
  }

  lemma QuietStepOk(sl: Slot, d: Driver)
    requires DriverOk(sl, d) && !Logs(d.pc)
    ensures var (sl', d') := DriverStep(sl, d); DriverOk(sl', d')
  {
    hide Open, Running, LogOk, DriverStep, AtPc, InCommand, Logs;
    QuietKeepsLog(sl, d);
    if d.pc.ReadCommand? || InCommand(d.pc) {
      TakingStepOk(sl, d);
    } else {
      WaitingStepOk(sl, d);
    }
  }

  /** The timer of the task a driver is working on, has just taken, or has just completed. */
  function TaskTimer(d: Driver): int {
    if d.pc.ArmTimer? || d.pc.SayOk? then d.pc.cmd
    else if d.pc.ClearRemaining? && d.log != [] then Running(d.log[..|d.log| - 1])
    else Running(d.log)
  }

  /** Whether `remaining` holds the timer of the latest task. */
  predicate Shows(sl: Slot, d: Driver) {
    (sl.busy && !d.pc.SetRemaining?) || d.pc.ClearRemaining?
  }

  /** A busy slot shows the timer of the task, except between lines 107 and 108, where it shows 0; a free
      slot shows 0, except between lines 137 and 138, where it still shows the timer of the task just done. */
  lemma SlotShowsTimer(sl: Slot, d: Driver)
    requires DriverOk(sl, d)
    ensures if Shows(sl, d) then sl.remaining == TaskTimer(d) > 0 else sl.remaining == 0
  {
    if Open(d.log) {
      RunningIsPositive(d.log);
    } else {
      ClosedRunsNothing(d.log);
    }
  }

  /** Every statement of a driver keeps the invariant; in particular the timer is never armed while it
      is armed or readable, and is read only when it has expired. */
  lemma DriverStepOk(sl: Slot, d: Driver)
    requires DriverOk(sl, d)
    ensures var (sl', d') := DriverStep(sl, d); DriverOk(sl', d')
    ensures d.pc.ArmTimer? ==> d.timer.Disarmed?
    ensures d.pc.ReadTimer? ==> d.timer.Expired?
  {
    if Logs(d.pc) {
      LoggingStepOk(sl, d);
    } else {
      QuietStepOk(sl, d);
    }
  }

  /** The timer may fire at any moment. */
  lemma TimerFiresOk(sl: Slot, d: Driver)
    requires DriverOk(sl, d) && d.timer.Armed?
    ensures DriverOk(sl, d.(timer := Expired))
  {
  }

  // ---------- commands and answers ----------

  /** What became of each command a driver has taken, in order. */
  function Outcomes(log: seq<Event>): seq<(int, seq<Reply>)> {
    if log == [] then []
    else
      Outcomes(log[..|log| - 1]) +
      match log[|log| - 1]
      case Accepted(t) => [(t, [Ok])]
      case Refused(t, r) => [(t, [Busy(r)])]
      case Completed => []
  }

  /** Nothing of a command is left in the pipes or in the driver, and every outcome has been read. */
  ghost predicate Quiet(d: Driver, answered: seq<(int, seq<Reply>)>) {
    d.cmds == [] && d.replies == [] && !InCommand(d.pc) && Outcomes(d.log) == answered
  }

  /** The one command sent, with timer `t`, is in the command pipe, in the driver's hands, or answered. */
  ghost predicate Busied(d: Driver, t: int, answered: seq<(int, seq<Reply>)>) {
    || (d.cmds == [t] && d.replies == [] && !InCommand(d.pc) && Outcomes(d.log) == answered)
    || (d.cmds == [] && d.replies == [] && InCommand(d.pc) && d.pc.cmd == t && Outcomes(d.log) == answered)
    || (d.cmds == [] && |d.replies| == 1 && !InCommand(d.pc) && Outcomes(d.log) == answered + [(t, d.replies)])
  }

  lemma OutcomesAppend(log: seq<Event>, e: Event)
    ensures Outcomes(log + [e]) == Outcomes(log) +
      match e
      case Accepted(t) => [(t, [Ok])]
      case Refused(t, r) => [(t, [Busy(r)])]
      case Completed => []
  {
    assert (log + [e])[..|log|] == log;
  }

  lemma QuietStep(sl: Slot, d: Driver, answered: seq<(int, seq<Reply>)>)
    requires Quiet(d, answered)
    ensures Quiet(DriverStep(sl, d).1, answered)
  {
    hide Outcomes;
    OutcomesAppend(d.log, Completed);
  }

  /** The command is answered. */
  lemma AnswerStep(sl: Slot, d: Driver, t: int, answered: seq<(int, seq<Reply>)>)
    requires Busied(d, t, answered) && (d.pc.SayBusy? || d.pc.SayOk?)
    ensures Busied(DriverStep(sl, d).1, t, answered)
  {
    hide Outcomes;
    if d.pc.SayBusy? {
      OutcomesAppend(d.log, Refused(d.pc.cmd, sl.remaining));
      assert d.replies + [Busy(sl.remaining)] == [Busy(sl.remaining)];
    } else {
      OutcomesAppend(d.log, Accepted(d.pc.cmd));
      assert d.replies + [Ok] == [Ok];
    }
  }

  lemma BusiedStep(sl: Slot, d: Driver, t: int, answered: seq<(int, seq<Reply>)>)
    requires Busied(d, t, answered)
    ensures Busied(DriverStep(sl, d).1, t, answered)
  {
    hide Outcomes;
    OutcomesAppend(d.log, Completed);
    if d.pc.SayBusy? || d.pc.SayOk? {
      AnswerStep(sl, d, t, answered);
    } else if d.pc.ReadCommand? && d.cmds != [] {
      assert [t][1..] == [];
    }
  }
}
