/** The taxi dispatcher: a CLI process and driver processes that share status slots and talk over a
    command pipe and a reply pipe each. Every statement on shared state is a step of its own. */
module Taxi {
  import opened Lists

  const MAX_DRIVERS := 100

  /** `struct driver_status`. */
  datatype Slot = Slot(pid: int, busy: bool, remaining: int, active: bool)

  const EMPTY_SLOT := Slot(0, false, 0, false)

  /** `struct driver_info`; `driver` stands for the two pipe ends. */
  datatype Info = Info(pid: int, driver: nat, slot: nat)

  datatype Reply = Ok | Busy(remaining: int)

  /** The one-shot timer; it is readable only once expired. */
  datatype Timer = Disarmed | Armed | Expired

  /** What a driver has done: accepted a task, refused one while busy, completed one. */
  datatype Event = Accepted(timer: int) | Refused(timer: int, remaining: int) | Completed

  /** The program counter of `driver_main`; `ts` is whether this `poll` saw the timer readable. */
  datatype DriverPc =
    | ClearBusyFirst
    | ClearRemainingFirst
    | Poll
    | ReadCommand(ts: bool)
    | TestBusy(cmd: int, ts: bool)
    | SayBusy(cmd: int, ts: bool)
    | SetBusy(cmd: int, ts: bool)
    | SetRemaining(cmd: int, ts: bool)
    | ArmTimer(cmd: int, ts: bool)
    | SayOk(cmd: int, ts: bool)
    | CheckTimer(ts: bool)
    | ReadTimer
    | ClearBusy
    | ClearRemaining

  /** `eagain` is set when the timer is read without having expired. */
  datatype Driver = Driver(
    pc: DriverPc, slot: nat, timer: Timer, cmds: seq<int>, replies: seq<Reply>, log: seq<Event>, eagain: bool)

  /** The timers of the tasks accepted so far, in order. */
  function AcceptedTimers(log: seq<Event>): seq<int> {
    if log == [] then []
    else
      var last := log[|log| - 1];
      AcceptedTimers(log[..|log| - 1]) + if last.Accepted? then [last.timer] else []
  }

  /** The timers of the tasks a driver has marked itself busy for, in order: those accepted, and the one it
      is about to confirm. */
  function Tasks(d: Driver): seq<int> {
    AcceptedTimers(d.log) + if d.pc.SetRemaining? || d.pc.ArmTimer? || d.pc.SayOk? then [d.pc.cmd] else []
  }

  // ---------- driver_main ----------

  /** One statement of a driver, on its own slot. */
  function DriverStep(sl: Slot, d: Driver): (Slot, Driver) {
    match d.pc
    case ClearBusyFirst => (sl.(busy := false), d.(pc := ClearRemainingFirst))
    case ClearRemainingFirst => (sl.(remaining := 0), d.(pc := Poll))
    case Poll =>
      var ts := d.timer.Expired?;
      if d.cmds != [] then (sl, d.(pc := ReadCommand(ts)))
      else if ts then (sl, d.(pc := CheckTimer(ts)))
      else (sl, d)
    case ReadCommand(ts) =>
      if d.cmds == [] then (sl, d) else (sl, d.(pc := TestBusy(d.cmds[0], ts), cmds := d.cmds[1..]))
    case TestBusy(cmd, ts) => (sl, d.(pc := if sl.busy then SayBusy(cmd, ts) else SetBusy(cmd, ts)))
    case SayBusy(cmd, ts) =>
      (sl, d.(pc := CheckTimer(ts), replies := d.replies + [Busy(sl.remaining)],
              log := d.log + [Refused(cmd, sl.remaining)]))
    case SetBusy(cmd, ts) => (sl.(busy := true), d.(pc := SetRemaining(cmd, ts)))
    case SetRemaining(cmd, ts) => (sl.(remaining := cmd), d.(pc := ArmTimer(cmd, ts)))
    case ArmTimer(cmd, ts) => (sl, d.(pc := SayOk(cmd, ts), timer := if cmd > 0 then Armed else Disarmed))
    case SayOk(cmd, ts) => (sl, d.(pc := CheckTimer(ts), replies := d.replies + [Ok], log := d.log + [Accepted(cmd)]))
    case CheckTimer(ts) => (sl, d.(pc := if ts then ReadTimer else Poll))
    case ReadTimer =>
      (sl, d.(pc := ClearBusy, timer := if d.timer.Expired? then Disarmed else d.timer,
              eagain := d.eagain || !d.timer.Expired?))
    case ClearBusy => (sl.(busy := false), d.(pc := ClearRemaining, log := d.log + [Completed]))
    case ClearRemaining => (sl.(remaining := 0), d.(pc := Poll))
  }

  // ---------- the CLI ----------

  /** What the user saw as the answer to `send_task`. */
  datatype Answer = Answer(driver: nat, timer: int, replies: seq<Reply>)

  /** A line `get_status` prints. Of a busy driver it records, besides the number printed, how many tasks the
      driver had started when `busy` was read, the last of them being the task seen, and how many when
      `remaining` was read. */
  datatype Line = NotFound(pid: int) | Available(k: nat) | BusyWith(k: nat, remaining: int, task: nat, latest: nat)

  /** The CLI is at its prompt, somewhere in `create_driver` after the fork of `child`, in `send_task` about to
      write to or waiting for the driver `drivers_info[k]`, or in `get_status` about to read `busy` or, having
      seen a driver busy with its task number `task`, `remaining` of slot `k`. */
  datatype Cli =
    | Prompt
    | StorePid(pid: int, child: nat, slot: nat)
    | StoreBusy(pid: int, child: nat, slot: nat)
    | StoreRemaining(pid: int, child: nat, slot: nat)
    | StoreActive(pid: int, child: nat, slot: nat)
    | StoreCount(pid: int, child: nat, slot: nat)
    | StoreInfo(pid: int, child: nat, slot: nat)
    | Sending(k: nat, timer: int)
    | Awaiting(k: nat, timer: int)
    | ReadBusy(k: nat)
    | ReadRemaining(k: nat, task: nat)

  datatype State = State(
    slots: seq<Slot>, count: nat, infos: seq<Info>, drivers: seq<Driver>,
    cli: Cli, answers: seq<Answer>, timeouts: nat, lines: seq<Line>)

  /** The shared memory after `memset`. */
  function EmptySlots(n: nat): (r: seq<Slot>)
    ensures |r| == n && forall i :: 0 <= i < n ==> r[i] == EMPTY_SLOT
  {
    if n == 0 then [] else EmptySlots(n - 1) + [EMPTY_SLOT]
  }

  function Start(): State {
    State(EmptySlots(MAX_DRIVERS), 0, [], [], Prompt, [], 0, [])
  }

  /** `find_driver_slot_by_pid`. */
  method FindDriverSlot(slots: seq<Slot>, count: nat, pid: int) returns (slot: int)
    requires count <= |slots|
    ensures slot == FirstSlot(slots[..count], pid)
  {
    slot := 0;
    while slot < count
      invariant 0 <= slot <= count
      invariant forall j :: 0 <= j < slot ==> !(slots[j].active && slots[j].pid == pid)
    {
      if slots[slot].active && slots[slot].pid == pid {
        FirstSlotAt(slots[..count], pid, slot);
        return slot;
      }
      slot := slot + 1;
    }
    NoSlot(slots[..count], pid);
    slot := -1;
  }

  /** The index of the first active slot of a process, or -1. */
  function FirstSlot(slots: seq<Slot>, pid: int): int {
    var i := FirstIndex(slots, (sl: Slot) => sl.active && sl.pid == pid);
    if i < |slots| then i else -1
  }

  lemma FirstSlotAt(slots: seq<Slot>, pid: int, i: nat)
    requires i < |slots| && slots[i].active && slots[i].pid == pid
    requires forall j :: 0 <= j < i ==> !(slots[j].active && slots[j].pid == pid)
    ensures FirstSlot(slots, pid) == i
  {
  }

  lemma NoSlot(slots: seq<Slot>, pid: int)
    requires forall j :: 0 <= j < |slots| ==> !(slots[j].active && slots[j].pid == pid)
    ensures FirstSlot(slots, pid) == -1
  {
  }

  /** The loop of `send_task` over `drivers_info`: the first entry of a process, or -1. */
  function FirstInfo(infos: seq<Info>, pid: int): int {
    var i := FirstIndex(infos, (info: Info) => info.pid == pid);
    if i < |infos| then i else -1
  }

  predicate PidInUse(s: State, pid: int) {
    exists i :: 0 <= i < |s.infos| && s.infos[i].pid == pid
  }

  function WithSlot(s: State, i: nat, sl: Slot): State {
    if i < |s.slots| then s.(slots := s.slots[i := sl]) else s
  }

  function SlotAt(s: State, i: nat): Slot {
    if i < |s.slots| then s.slots[i] else EMPTY_SLOT
  }

  /** `create_driver` up to the fork; the child gets the number of the next slot. */
  function CreateStep(s: State, pid: int): State {
    if !s.cli.Prompt? || |s.infos| >= MAX_DRIVERS || s.count >= MAX_DRIVERS || pid <= 0 || PidInUse(s, pid) then s
    else
      var d := Driver(ClearBusyFirst, s.count, Disarmed, [], [], [], false);
      s.(drivers := s.drivers + [d], cli := StorePid(pid, |s.drivers|, s.count))
  }

  /** The `send_task` command: the argument check, then the search by process id. */
  function SendStep(s: State, pid: int, timer: int): State {
    if !s.cli.Prompt? || pid <= 0 || timer <= 0 then s
    else
      var k := FirstInfo(s.infos, pid);
      if k < 0 then s else s.(cli := Sending(k, timer))
  }

  /** The `get_status` command: the argument check, then the search by process id. */
  function StatusStep(s: State, pid: int): State {
    if !s.cli.Prompt? || pid <= 0 || s.count > |s.slots| then s
    else
      var k := FirstSlot(s.slots[..s.count], pid);
      if k < 0 then s.(lines := s.lines + [NotFound(pid)]) else s.(cli := ReadBusy(k))
  }

  /** The number of tasks the driver of slot `k` has started. */
  function Started(s: State, k: nat): nat {
    if k < |s.drivers| then |Tasks(s.drivers[k])| else 0
  }

  /** The driver behind `drivers_info[k]`, if there is one. */
  predicate HasDriver(s: State, k: nat) {
    k < |s.infos| && s.infos[k].driver < |s.drivers|
  }

  /** The next statement of the CLI inside a command. */
  function CliStep(s: State): State {
    match s.cli
    case Prompt => s
    case StorePid(pid, c, i) => WithSlot(s, i, SlotAt(s, i).(pid := pid)).(cli := StoreBusy(pid, c, i))
    case StoreBusy(pid, c, i) => WithSlot(s, i, SlotAt(s, i).(busy := false)).(cli := StoreRemaining(pid, c, i))
    case StoreRemaining(pid, c, i) => WithSlot(s, i, SlotAt(s, i).(remaining := 0)).(cli := StoreActive(pid, c, i))
    case StoreActive(pid, c, i) => WithSlot(s, i, SlotAt(s, i).(active := true)).(cli := StoreCount(pid, c, i))
    case StoreCount(pid, c, i) => s.(count := s.count + 1, cli := StoreInfo(pid, c, i))
    case StoreInfo(pid, c, i) => s.(infos := s.infos + [Info(pid, c, i)], cli := Prompt)
    case Sending(k, timer) =>
      if !HasDriver(s, k) then s
      else
        var i := s.infos[k].driver;
        s.(drivers := s.drivers[i := s.drivers[i].(cmds := s.drivers[i].cmds + [timer])], cli := Awaiting(k, timer))
    case Awaiting(k, timer) =>
      if !HasDriver(s, k) || s.drivers[s.infos[k].driver].replies == [] then s
      else
        var i := s.infos[k].driver;
        s.(answers := s.answers + [Answer(i, timer, s.drivers[i].replies)],
           drivers := s.drivers[i := s.drivers[i].(replies := [])], cli := Prompt)
    case ReadBusy(k) =>
      if SlotAt(s, k).busy then s.(cli := ReadRemaining(k, Started(s, k)))
      else s.(lines := s.lines + [Available(k)], cli := Prompt)
    case ReadRemaining(k, task) =>
      s.(lines := s.lines + [BusyWith(k, SlotAt(s, k).remaining, task, Started(s, k))], cli := Prompt)
  }

  /** `select` gives up after a second. */
  function TimeoutStep(s: State): State {
    if s.cli.Awaiting? then s.(cli := Prompt, timeouts := s.timeouts + 1) else s
  }

  // ---------- the system ----------

  datatype Choice =
    | Create(pid: int)
    | SendTask(pid: int, timer: int)
    | GetStatus(pid: int)
    | CliMoves
    | CliTimesOut
    | DriverMoves(i: nat)
    | TimerFires(i: nat)

  function Step(s: State, c: Choice): State {
    match c
    case Create(pid) => CreateStep(s, pid)
    case SendTask(pid, timer) => SendStep(s, pid, timer)
    case GetStatus(pid) => StatusStep(s, pid)
    case CliMoves => CliStep(s)
    case CliTimesOut => TimeoutStep(s)
    case DriverMoves(i) =>
      if i >= |s.drivers| then s
      else
        var (sl, d) := DriverStep(SlotAt(s, s.drivers[i].slot), s.drivers[i]);
        WithSlot(s, s.drivers[i].slot, sl).(drivers := s.drivers[i := d])
    case TimerFires(i) =>
      if i >= |s.drivers| || !s.drivers[i].timer.Armed? then s
      else s.(drivers := s.drivers[i := s.drivers[i].(timer := Expired)])
  }

  function Run(schedule: seq<Choice>): State {
    if schedule == [] then Start() else Step(Run(schedule[..|schedule| - 1]), schedule[|schedule| - 1])
  }
}
