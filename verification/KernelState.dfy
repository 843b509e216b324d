/**
 * What the kernel keeps of its processes: the pid table, one control block per
 * pid, one record per task and four registers (student-distrib/sys_call.c,
 * student-distrib/scheduling.c, student-distrib/process.h). The steps follow
 * the source; the lemmas show that every run of them is a run of the stacks of
 * Processes.dfy.
 */
module KernelState {
  import opened Bytes
  import opened Collections
  import opened Command
  import opened Processes

  const EIGHT_K := 0x2000
  const FOUR_M := 0x40_0000
  const EIGHT_M := 0x80_0000
  const PID_OFFSET := 2

  datatype Pcb = Pcb(
    fds: seq<bool>,
    parentPcb: int,        // the pid whose control block this points to
    parentPid: int,
    parent: Context,       // where the parent's execute call goes on
    parentEsp0: int,
    schedule: Context,     // where the scheduler goes on with this process
    scheduleEsp0: int,
    terminal: nat,
    args: seq<byte>)

  datatype Record = Record(pcb: int, pid: int, started: bool)

  datatype Machine = Machine(
    taken: seq<bool>,
    pcbs: seq<Pcb>,
    records: seq<Record>,
    current: nat,
    globalPid: int,
    esp0: int,
    userPage: int)

  // ---- Addresses ----------------------------------------------------------------

  /** The bottom of the kernel stack of a process. */
  function KernelStack(pid: int): int {
    EIGHT_M - pid * EIGHT_K - 4
  }

  /** The address of a control block: the kernel stack's address with its low 13 bits wiped off. */
  function PcbAddress(pid: int): int {
    KernelStack(pid) - KernelStack(pid) % EIGHT_K
  }

  /** The physical address of the page that holds a process's program. */
  function UserPage(pid: int): int {
    (PID_OFFSET + pid) * FOUR_M
  }

  /** Each process has its own eight kilobytes, with its control block at the low end and its stack at the high end. */
  lemma OwnStack(p: int, q: int)
    ensures PcbAddress(p) == 0x80_0000 - (p + 1) * 0x2000
    ensures PcbAddress(p) <= KernelStack(p) == PcbAddress(p) + 0x2000 - 4
    ensures p < q ==> PcbAddress(q) + 0x2000 <= PcbAddress(p)
  {
    assert KernelStack(p) == (EIGHT_M / EIGHT_K - p - 1) * EIGHT_K + (EIGHT_K - 4);
    assert KernelStack(q) == (EIGHT_M / EIGHT_K - q - 1) * EIGHT_K + (EIGHT_K - 4);
  }

  /**
   * The programs' pages follow each other from eight megabytes on, one of four
   * megabytes to each pid, above every control block and kernel stack.
   */
  lemma OwnPage(p: nat, q: nat)
    ensures UserPage(p) == 0x80_0000 + p * 0x40_0000
    ensures p < q ==> UserPage(p) + 0x40_0000 <= UserPage(q)
    ensures PcbAddress(q) + 0x2000 <= 0x80_0000 <= UserPage(p)
  {
    OwnStack(q, q);
  }

  // ---- The steps ------------------------------------------------------------------

  predicate IsPid(p: int) { 0 <= p < SLOTS }

  predicate PcbShape(p: Pcb) {
    && |p.fds| == FD_ARRAY_SIZE && |p.args| == MAX_ARG_SIZE
    && -1 <= p.parentPid < SLOTS && p.parentPcb == p.parentPid
  }

  predicate RecordShape(r: Record) { IsPid(r.pid) && IsPid(r.pcb) }

  /** The sizes of the tables, and pids where pids are expected. */
  predicate Shape(m: Machine) {
    && |m.taken| == SLOTS && |m.pcbs| == SLOTS && |m.records| == NUM_TASKS
    && m.current < NUM_TASKS && IsPid(m.globalPid)
    && (forall p :: 0 <= p < SLOTS ==> PcbShape(m.pcbs[p]))
    && (forall t :: 0 <= t < NUM_TASKS ==> RecordShape(m.records[t]))
  }

  /** A control block that nothing has been written to. */
  const ZEROED :=
    Pcb([false, false, false, false, false, false, false, false],
        0, 0, Context(0, 0), 0, Context(0, 0), 0, 0, Fill(NUL, MAX_ARG_SIZE))

  /** Memory as the loader leaves it, with the task records that the scheduler's start writes. */
  function Loaded(sentinel: bool, esp0: int): (m: Machine)
    ensures Shape(m)
  {
    Machine([false, false, false, false, false, false, sentinel],
            [ZEROED, ZEROED, ZEROED, ZEROED, ZEROED, ZEROED, ZEROED],
            [Record(0, 0, true), Record(0, 0, false), Record(0, 0, false)], 0, 0, esp0, 0)
  }

  function WithFds(m: Machine, fds: seq<bool>): (m': Machine)
    requires Shape(m) && |fds| == FD_ARRAY_SIZE
    ensures Shape(m')
  {
    m.(pcbs := m.pcbs[m.globalPid := m.pcbs[m.globalPid].(fds := fds)])
  }

  /** The new process on `pid`, as execute sets it up. */
  function Launched(m: Machine, pid: nat, args: seq<byte>, at: Context): (m': Machine)
    requires Shape(m) && IsPid(pid) && |args| == MAX_ARG_SIZE
    ensures Shape(m')
  {
    var block := m.pcbs[pid];
    var parent := if pid < NUM_TASKS then -1 else m.globalPid;
    var pcb := Pcb(block.fds[0 := true][1 := true], parent, parent, at, m.esp0,
                   block.schedule, block.scheduleEsp0, m.current, args);
    Machine(m.taken[pid := true], m.pcbs[pid := pcb],
            m.records[m.current := Record(pid, pid, m.records[m.current].started)],
            m.current, pid, KernelStack(pid), UserPage(pid))
  }

  function ExecuteStep(m: Machine, fs: FileSystem, command: seq<byte>, at: Context,
                       header: bool): (r: (Machine, Outcome))
    requires Shape(m) && |command| < MAX_CMD_SIZE
    ensures Shape(r.0)
  {
    var pid := FirstFree(m.taken, 0);
    var name := Scan(command).word;
    var fds := m.pcbs[m.globalPid].fds;
    var fd := FirstFree(fds, FIRST_FD);
    if pid == SLOTS || command == [] || name !in fs || fd == FD_ARRAY_SIZE then
      (m, Returns(-1))
    else if !IsElf(fs[name], header) then
      (WithFds(m, fds[fd := true]), Returns(-1))
    else
      (Launched(m, pid, Padded(Scan(command).arg, MAX_ARG_SIZE), at), Starts(pid))
  }

  /** A table after closing everything a program may close. */
  function AllClosed(fds: seq<bool>): (r: seq<bool>)
    requires |fds| == FD_ARRAY_SIZE
    ensures |r| == FD_ARRAY_SIZE
  {
    [fds[0], fds[1], false, false, false, false, false, false]
  }

  /** The running process closes its files and gives up its pid. */
  function Freed(m: Machine): (m': Machine)
    requires Shape(m)
    ensures Shape(m')
  {
    WithFds(m, AllClosed(m.pcbs[m.globalPid].fds)).(taken := m.taken[m.globalPid := false])
  }

  /** The registers and the task's record go back to the parent. */
  function BackToParent(m: Machine): (m': Machine)
    requires Shape(m) && m.pcbs[m.globalPid].parentPid != -1
    ensures Shape(m')
  {
    var pcb := m.pcbs[m.globalPid];
    m.(globalPid := pcb.parentPid,
       esp0 := pcb.parentEsp0,
       userPage := UserPage(pcb.parentPid),
       records := m.records[m.current := Record(pcb.parentPcb, pcb.parentPid, m.records[m.current].started)])
  }

  function HaltStep(m: Machine, fs: FileSystem, status: byte, at: Context): (r: (Machine, Outcome))
    requires Shape(m)
    ensures Shape(r.0)
  {
    var pcb := m.pcbs[m.globalPid];
    var freed := Freed(m);
    if pcb.parentPid == -1 then
      var restarted := ExecuteStep(freed, fs, SHELL, at, false);
      if restarted.1.Starts? then restarted else (restarted.0, Faults)
    else
      (BackToParent(freed), Resumes(pcb.parent, status))
  }

  /** The current task is saved and the turn passes to the next one, with its program mapped. */
  function SwitchedOut(m: Machine, at: Context): (m': Machine)
    requires Shape(m)
    ensures Shape(m')
  {
    var curr := m.records[m.current];
    var next := (m.current + 1) % NUM_TASKS;
    m.(pcbs := m.pcbs[curr.pcb := m.pcbs[curr.pcb].(schedule := at, scheduleEsp0 := m.esp0)],
       current := next,
       userPage := UserPage(m.records[next].pid))
  }

  /** The registers of the task whose turn it is. */
  function SwitchedIn(m: Machine): (m': Machine)
    requires Shape(m)
    ensures Shape(m')
  {
    var next := m.records[m.current];
    m.(globalPid := next.pid, esp0 := m.pcbs[next.pcb].scheduleEsp0)
  }

  function TickStep(m: Machine, fs: FileSystem, at: Context): (r: (Machine, Outcome))
    requires Shape(m)
    ensures Shape(r.0)
  {
    var m1 := SwitchedOut(m, at);
    var next := m1.records[m1.current];
    if !next.started then
      var turn := m1.(records := m1.records[m1.current := next.(started := true)]);
      var started := ExecuteStep(turn, fs, SHELL, at, false);
      if started.1.Starts? then started else (started.0, Faults)
    else
      (SwitchedIn(m1), Switches(m1.pcbs[next.pcb].schedule))
  }

  function OpenStep(m: Machine, fs: FileSystem, name: seq<byte>): (r: (Machine, Outcome))
    requires Shape(m)
    ensures Shape(r.0)
  {
    var fds := m.pcbs[m.globalPid].fds;
    var fd := FirstFree(fds, FIRST_FD);
    if name !in fs || fd == FD_ARRAY_SIZE then (m, Returns(-1)) else (WithFds(m, fds[fd := true]), Returns(fd))
  }

  function CloseStep(m: Machine, fd: int): (r: (Machine, Outcome))
    requires Shape(m)
    ensures Shape(r.0)
  {
    var fds := m.pcbs[m.globalPid].fds;
    if fd < FIRST_FD || fd > FD_ARRAY_SIZE - 1 || !fds[fd] then (m, Returns(-1))
    else (WithFds(m, fds[fd := false]), Returns(0))
  }

  function MachineStep(m: Machine, fs: FileSystem, op: Op): (r: (Machine, Outcome))
    requires Shape(m) && Fits(op)
    ensures Shape(r.0)
  {
    match op
    case Execute(command, at, header) => ExecuteStep(m, fs, command, at, header)
    case Halt(status, at) => HaltStep(m, fs, status, at)
    case Tick(at) => TickStep(m, fs, at)
    case Open(name) => OpenStep(m, fs, name)
    case Close(fd) => CloseStep(m, fd)
  }

  function MachineRun(m: Machine, fs: FileSystem, ops: seq<Op>): (m': Machine)
    requires Shape(m) && AllFit(ops)
    ensures Shape(m')
    decreases |ops|
  {
    if ops == [] then m else MachineRun(MachineStep(m, fs, ops[0]).0, fs, ops[1..])
  }

  // ---- What the machine stands for ---------------------------------------------------

  /** The control block of the i-th process of task `t` says what the stack says. */
  ghost predicate Linked(m: Machine, s: System, t: int, i: int)
    requires Has(s, t, i)
  {
    var p := At(s, t, i);
    && IsPid(p.pid) && p.pid < |m.pcbs|
    && var b := m.pcbs[p.pid];
    && b.fds == p.fds && b.parent == p.resume && b.args == p.args && b.terminal == t
    && if i == 0 then b.parentPid == -1
       else b.parentPid == At(s, t, i - 1).pid && b.parentEsp0 == KernelStack(At(s, t, i - 1).pid)
  }

  /** The record of a task names its top process; a suspended one can be taken up again. */
  ghost predicate Recorded(m: Machine, s: System, t: int)
    requires Has(s, t, 0) && t < |m.records|
  {
    var top := Top(s, t).pid;
    && m.records[t] == Record(top, top, true)
    && (t != s.current ==>
          && top < |m.pcbs|
          && s.tasks[t].saved == Some(m.pcbs[top].schedule)
          && m.pcbs[top].scheduleEsp0 == KernelStack(top))
  }

  /** At rest, the registers all belong to the top process of the current task. */
  ghost predicate AtRest(m: Machine, pid: int) {
    m.globalPid == pid && m.esp0 == KernelStack(pid) && m.userPage == UserPage(pid)
  }

  /** A pid is taken exactly when it occurs in a stack, and the block of a free pid has nothing open. */
  ghost predicate Accounted(m: Machine, s: System, e: Env, p: int)
    requires 0 <= p < |m.taken| && p < |m.pcbs|
  {
    (m.taken[p] <==> Taken(s, e, p)) && (!InUse(s, p) ==> NoneOpen(m.pcbs[p].fds))
  }

  ghost predicate Refines(m: Machine, s: System, e: Env) {
    && Shape(m) && SystemOk(s, e) && m.current == s.current
    && (forall t, i :: Has(s, t, i) ==> Linked(m, s, t, i))
    && (forall t :: 0 <= t < NUM_TASKS && Has(s, t, 0) ==> Recorded(m, s, t))
    && (forall p :: 0 <= p < SLOTS ==> Accounted(m, s, e, p))
    && AtRest(m, Running(s).pid)
  }

  // ---- Every step refines the step of the stacks ----------------------------------------

  lemma FirstFreeIsFreePid(m: Machine, s: System, e: Env, p: nat)
    requires Refines(m, s, e) && p <= SLOTS
    ensures FirstFree(m.taken, p) == FreePid(s, e, p)
    decreases SLOTS - p
  {
    if p < SLOTS {
      assert Accounted(m, s, e, p);
      FirstFreeIsFreePid(m, s, e, p + 1);
    }
  }

  /** A process keeps its link when its block keeps what the link is about. */
  lemma LinkStays(m: Machine, m': Machine, s: System, s': System, t: int, i: int)
    requires Has(s, t, i) && Has(s', t, i) && At(s', t, i) == At(s, t, i) && Linked(m, s, t, i)
    requires i > 0 ==> At(s', t, i - 1).pid == At(s, t, i - 1).pid
    requires var p := At(s, t, i).pid;
             p < |m'.pcbs| && m'.pcbs[p].(schedule := m.pcbs[p].schedule,
               scheduleEsp0 := m.pcbs[p].scheduleEsp0) == m.pcbs[p]
    ensures Linked(m', s', t, i)
  {
  }

  /** A task that does not run keeps its record. */
  lemma RecordStays(m: Machine, m': Machine, s: System, s': System, t: int)
    requires Has(s, t, 0) && Has(s', t, 0) && t < |m.records| && t < |m'.records| && Recorded(m, s, t)
    requires s'.tasks[t] == s.tasks[t] && t != s.current && t != s'.current && m'.records[t] == m.records[t]
    requires Top(s, t).pid < |m'.pcbs| && m'.pcbs[Top(s, t).pid] == m.pcbs[Top(s, t).pid]
    ensures Recorded(m', s', t)
  {
  }

  /** Two processes in different places have different pids. */
  lemma Apart(s: System, e: Env, t: int, i: int, u: int, j: int)
    requires SystemOk(s, e) && Has(s, t, i) && Has(s, u, j) && (t, i) != (u, j)
    ensures At(s, t, i).pid != At(s, u, j).pid
  {
    assert !SamePid(s, t, i, u, j);
  }

  lemma FdsLinks(m: Machine, s: System, e: Env, fds: seq<bool>)
    requires Refines(m, s, e) && |fds| == FD_ARRAY_SIZE
    ensures var m', s' := WithFds(m, fds), WithTop(s, Running(s).(fds := fds));
            forall t, i :: Has(s', t, i) ==> Linked(m', s', t, i)
  {
    var m', s' := WithFds(m, fds), WithTop(s, Running(s).(fds := fds));
    var c, h := s.current, Height(s, s.current) - 1;
    assert Has(s, c, h) && At(s, c, h) == Running(s);
    forall t, i | Has(s', t, i) ensures Linked(m', s', t, i) {
      if (t, i) == (c, h) {
        assert Linked(m, s, t, i);
      } else {
        Apart(s, e, t, i, c, h);
        LinkStays(m, m', s, s', t, i);
      }
    }
  }

  lemma FdsRefine(m: Machine, s: System, e: Env, fds: seq<bool>)
    requires Refines(m, s, e) && |fds| == FD_ARRAY_SIZE && fds[0] && fds[1]
    ensures Refines(WithFds(m, fds), WithTop(s, Running(s).(fds := fds)), e)
  {
    var m', s' := WithFds(m, fds), WithTop(s, Running(s).(fds := fds));
    var c, h := s.current, Height(s, s.current) - 1;
    assert Has(s, c, 0) && Has(s, c, h) && At(s, c, h) == Running(s);
    WithTopOk(s, e, Running(s).(fds := fds));
    FdsLinks(m, s, e, fds);
    forall t | 0 <= t < NUM_TASKS && Has(s', t, 0) ensures Recorded(m', s', t) {
      if t != c {
        Apart(s, e, t, Height(s, t) - 1, c, h);
        RecordStays(m, m', s, s', t);
      }
    }
    forall q | 0 <= q < SLOTS ensures Accounted(m', s', e, q) { assert Accounted(m, s, e, q); }
  }

  lemma BasePidsTaken(s: System, e: Env, pid: nat)
    requires SystemOk(s, e) && !Taken(s, e, pid)
    ensures pid >= NUM_TASKS
  {
    forall t | 0 <= t < NUM_TASKS ensures InUse(s, t) { assert Has(s, t, 0) && At(s, t, 0).pid == t; }
  }

  lemma LaunchLinks(m: Machine, s: System, e: Env, p: Proc)
    requires Refines(m, s, e) && p.pid < SLOTS && !Taken(s, e, p.pid) && ProcOk(p, e) && p.fds == FRESH_FDS
    ensures var m', s' := Launched(m, p.pid, p.args, p.resume), Pushed(s, p);
            forall t, i :: Has(s', t, i) ==> Linked(m', s', t, i)
  {
    var m', s' := Launched(m, p.pid, p.args, p.resume), Pushed(s, p);
    var c, h := s.current, Height(s, s.current);
    assert Has(s, c, 0) && Has(s, c, h - 1);
    BasePidsTaken(s, e, p.pid);
    assert m'.pcbs[p.pid].fds == FRESH_FDS by { assert Accounted(m, s, e, p.pid); }
    forall t, i | Has(s', t, i) ensures Linked(m', s', t, i) {
      if (t, i) == (c, h) {
        assert At(s', t, i) == p && At(s', c, h - 1) == At(s, c, h - 1);
      } else {
        assert Has(s, t, i);
        LinkStays(m, m', s, s', t, i);
      }
    }
  }

  lemma LaunchRefines(m: Machine, s: System, e: Env, p: Proc)
    requires Refines(m, s, e) && p.pid < SLOTS && !Taken(s, e, p.pid) && ProcOk(p, e) && p.fds == FRESH_FDS
    ensures Refines(Launched(m, p.pid, p.args, p.resume), Pushed(s, p), e)
  {
    var m', s' := Launched(m, p.pid, p.args, p.resume), Pushed(s, p);
    assert Has(s, s.current, 0);
    LaunchLinks(m, s, e, p);
    PushedOk(s, e, p);
    forall t | 0 <= t < NUM_TASKS && Has(s', t, 0) ensures Recorded(m', s', t) {
      assert Has(s, t, 0) && Has(s, t, Height(s, t) - 1);
      if t != s.current { RecordStays(m, m', s, s', t); }
    }
    forall q | 0 <= q < SLOTS ensures Accounted(m', s', e, q) { assert Accounted(m, s, e, q); }
  }

  lemma PopLinks(m: Machine, s: System, e: Env)
    requires Refines(m, s, e) && Height(s, s.current) > 1 && m.pcbs[m.globalPid].parentPid != -1
    ensures var m', s' := BackToParent(Freed(m)), Popped(s);
            && (forall t, i :: Has(s', t, i) ==> Linked(m', s', t, i))
            && (forall q :: 0 <= q < SLOTS ==> Accounted(m', s', e, q))
  {
    var c, h := s.current, Height(s, s.current) - 1;
    var m', s' := BackToParent(Freed(m)), Popped(s);
    assert Has(s, c, h) && At(s, c, h).pid == m.globalPid;
    forall t, i | Has(s', t, i) ensures Linked(m', s', t, i) {
      Apart(s, e, t, i, c, h);
      LinkStays(m, m', s, s', t, i);
    }
    PoppedOk(s, e);
    forall q | 0 <= q < SLOTS ensures Accounted(m', s', e, q) { assert Accounted(m, s, e, q); }
  }

  lemma PopRecords(m: Machine, s: System, e: Env)
    requires Refines(m, s, e) && Height(s, s.current) > 1 && m.pcbs[m.globalPid].parentPid != -1
    ensures var m', s' := BackToParent(Freed(m)), Popped(s);
            && (forall t :: 0 <= t < NUM_TASKS && Has(s', t, 0) ==> Recorded(m', s', t))
            && AtRest(m', Running(s').pid)
  {
    var c, h := s.current, Height(s, s.current) - 1;
    assert Has(s, c, h) && Has(s, c, h - 1) && Has(s, c, 0) && Linked(m, s, c, h);
    var m', s' := BackToParent(Freed(m)), Popped(s);
    assert Running(s') == At(s, c, h - 1);
    forall t | 0 <= t < NUM_TASKS && Has(s', t, 0) ensures Recorded(m', s', t) {
      if t != c {
        Apart(s, e, t, Height(s, t) - 1, c, h);
        RecordStays(m, m', s, s', t);
      }
    }
  }

  lemma PopRefines(m: Machine, s: System, e: Env)
    requires Refines(m, s, e) && Height(s, s.current) > 1
    ensures m.pcbs[m.globalPid].parentPid != -1
    ensures Refines(BackToParent(Freed(m)), Popped(s), e)
  {
    assert Has(s, s.current, Height(s, s.current) - 1) && Linked(m, s, s.current, Height(s, s.current) - 1);
    PoppedOk(s, e);
    PopLinks(m, s, e);
    PopRecords(m, s, e);
  }

  lemma TickLinks(m: Machine, s: System, e: Env, at: Context)
    requires Refines(m, s, e)
    ensures var m', s' := SwitchedIn(SwitchedOut(m, at)), StepTick(s, e, at).0;
            && (forall t, i :: Has(s', t, i) ==> Linked(m', s', t, i))
            && (forall q :: 0 <= q < SLOTS ==> Accounted(m', s', e, q))
  {
    var m', s' := SwitchedIn(SwitchedOut(m, at)), StepTick(s, e, at).0;
    forall t, i | Has(s', t, i) ensures Linked(m', s', t, i) { LinkStays(m, m', s, s', t, i); }
    TickOk(s, e, at);
    forall q | 0 <= q < SLOTS ensures Accounted(m', s', e, q) { assert Accounted(m, s, e, q); }
  }

  /** The two tasks of a tick have different top processes, and the next one is ready to go on. */
  lemma TickTasks(m: Machine, s: System, e: Env)
    requires Refines(m, s, e)
    ensures var n := (s.current + 1) % NUM_TASKS;
            && Has(s, s.current, 0) && Has(s, n, 0) && Top(s, s.current).pid != Top(s, n).pid && n != s.current
            && Recorded(m, s, s.current) && Recorded(m, s, n)
  {
    var c, n := s.current, (s.current + 1) % NUM_TASKS;
    assert Has(s, c, 0) && Has(s, n, 0);
    Apart(s, e, c, Height(s, c) - 1, n, Height(s, n) - 1);
  }

  /** The task that leaves can be taken up again where it left. */
  lemma LeavingRecorded(m: Machine, s: System, e: Env, at: Context)
    requires Refines(m, s, e)
    ensures Has(StepTick(s, e, at).0, s.current, 0)
    ensures Recorded(SwitchedIn(SwitchedOut(m, at)), StepTick(s, e, at).0, s.current)
  {
    TickTasks(m, s, e);
  }

  /** The task that comes keeps its record. */
  lemma ComingRecorded(m: Machine, s: System, e: Env, at: Context)
    requires Refines(m, s, e)
    ensures var s' := StepTick(s, e, at).0;
            Has(s', s'.current, 0) && Recorded(SwitchedIn(SwitchedOut(m, at)), s', s'.current)
  {
    TickTasks(m, s, e);
  }

  /** The third task is not touched. */
  lemma WaitingRecorded(m: Machine, s: System, e: Env, at: Context, t: int)
    requires Refines(m, s, e) && 0 <= t < NUM_TASKS && t != s.current && t != (s.current + 1) % NUM_TASKS
    ensures var s' := StepTick(s, e, at).0; Has(s', t, 0) && Recorded(SwitchedIn(SwitchedOut(m, at)), s', t)
  {
    TickTasks(m, s, e);
    assert Has(s, t, 0) && Recorded(m, s, t);
    Apart(s, e, t, Height(s, t) - 1, s.current, Height(s, s.current) - 1);
    RecordStays(m, SwitchedIn(SwitchedOut(m, at)), s, StepTick(s, e, at).0, t);
  }

  lemma TickRecords(m: Machine, s: System, e: Env, at: Context)
    requires Refines(m, s, e)
    ensures var m', s' := SwitchedIn(SwitchedOut(m, at)), StepTick(s, e, at).0;
            forall t :: 0 <= t < NUM_TASKS && Has(s', t, 0) ==> Recorded(m', s', t)
  {
    LeavingRecorded(m, s, e, at);
    ComingRecorded(m, s, e, at);
    var m', s' := SwitchedIn(SwitchedOut(m, at)), StepTick(s, e, at).0;
    forall t | 0 <= t < NUM_TASKS && t != s.current && t != s'.current ensures Has(s', t, 0) && Recorded(m', s', t) {
      WaitingRecorded(m, s, e, at, t);
    }
  }

  lemma TickOutcome(m: Machine, s: System, e: Env, at: Context)
    requires Refines(m, s, e)
    ensures TickStep(m, e.fs, at) == (SwitchedIn(SwitchedOut(m, at)), StepTick(s, e, at).1)
  {
    TickTasks(m, s, e);
  }

  lemma TickRests(m: Machine, s: System, e: Env, at: Context)
    requires Refines(m, s, e)
    ensures Has(s, (s.current + 1) % NUM_TASKS, 0)
    ensures AtRest(SwitchedIn(SwitchedOut(m, at)), Top(s, (s.current + 1) % NUM_TASKS).pid)
  {
    TickTasks(m, s, e);
  }

  lemma TickRefines(m: Machine, s: System, e: Env, at: Context)
    requires Refines(m, s, e)
    ensures Refines(TickStep(m, e.fs, at).0, StepTick(s, e, at).0, e)
    ensures TickStep(m, e.fs, at).1 == StepTick(s, e, at).1
  {
    TickOutcome(m, s, e, at);
    TickRests(m, s, e, at);
    TickOk(s, e, at);
    TickLinks(m, s, e, at);
    TickRecords(m, s, e, at);
  }

  lemma ShellWord()
    ensures Scan(SHELL).word == SHELL && Scan(SHELL).arg == []
  {
    SplitUnique(SHELL, Parts([], SHELL, [], [], []));
  }

  lemma {:induction false} FirstFreeIs(taken: seq<bool>, i: nat, j: nat)
    requires i <= j < |taken| && !taken[j] && forall k :: i <= k < j ==> taken[k]
    ensures FirstFree(taken, i) == j
    decreases j - i
  {
    if i < j { FirstFreeIs(taken, i + 1, j); }
  }

  /** The process that the registers point to has a descriptor left to open a file with. */
  predicate HasFreeFd(m: Machine)
    requires Shape(m)
  {
    FirstFree(m.pcbs[m.globalPid].fds, FIRST_FD) < FD_ARRAY_SIZE
  }

  /** Executing the shell with a descriptor left starts it on the first free pid. */
  lemma ShellStarts(m: Machine, fs: FileSystem, at: Context, pid: nat)
    requires Shape(m) && ShellInstalled(fs) && HasFreeFd(m)
    requires pid < SLOTS && !m.taken[pid] && forall p :: 0 <= p < pid ==> m.taken[p]
    ensures ExecuteStep(m, fs, SHELL, at, false) == (Launched(m, pid, Padded([], MAX_ARG_SIZE), at), Starts(pid))
  {
    ShellWord();
    FirstFreeIs(m.taken, 0, pid);
  }

  /** The base shell's halt frees its pid, and the search for a pid finds it again. */
  lemma RestartsInPlace(m: Machine, s: System, e: Env, status: byte, at: Context)
    requires Refines(m, s, e) && Height(s, s.current) == 1 && ShellInstalled(e.fs)
    ensures HaltStep(m, e.fs, status, at)
         == (Launched(Freed(m), s.current, Padded([], MAX_ARG_SIZE), at), Starts(s.current))
  {
    var c := s.current;
    assert Has(s, c, 0) && Linked(m, s, c, 0);
    forall t | 0 <= t < NUM_TASKS && t != c ensures Freed(m).taken[t] {
      assert Has(s, t, 0) && At(s, t, 0).pid == t && Accounted(m, s, e, t);
    }
    ShellStarts(Freed(m), e.fs, at, c);
  }

  /** The base shell that halting starts again on its own pid. */
  ghost function Restarted(s: System, at: Context): Proc {
    Proc(s.current, FRESH_FDS, at, Padded([], MAX_ARG_SIZE))
  }

  lemma RestartLinks(m: Machine, s: System, e: Env, at: Context)
    requires Refines(m, s, e) && Height(s, s.current) == 1
    ensures var m', s' := Launched(Freed(m), s.current, Padded([], MAX_ARG_SIZE), at), WithTop(s, Restarted(s, at));
            forall t, i :: Has(s', t, i) ==> Linked(m', s', t, i)
  {
    var c := s.current;
    assert Has(s, c, 0) && Linked(m, s, c, 0);
    var m', s' := Launched(Freed(m), c, Padded([], MAX_ARG_SIZE), at), WithTop(s, Restarted(s, at));
    forall t, i | Has(s', t, i) ensures Linked(m', s', t, i) {
      if (t, i) != (c, 0) {
        Apart(s, e, t, i, c, 0);
        LinkStays(m, m', s, s', t, i);
      }
    }
  }

  lemma RestartRecords(m: Machine, s: System, e: Env, at: Context)
    requires Refines(m, s, e) && Height(s, s.current) == 1
    ensures var m', s' := Launched(Freed(m), s.current, Padded([], MAX_ARG_SIZE), at), WithTop(s, Restarted(s, at));
            forall t :: 0 <= t < NUM_TASKS && Has(s', t, 0) ==> Recorded(m', s', t)
  {
    var c := s.current;
    assert Has(s, c, 0) && Recorded(m, s, c);
    var m', s' := Launched(Freed(m), c, Padded([], MAX_ARG_SIZE), at), WithTop(s, Restarted(s, at));
    forall t | 0 <= t < NUM_TASKS && Has(s', t, 0) ensures Recorded(m', s', t) {
      if t != c {
        Apart(s, e, t, Height(s, t) - 1, c, 0);
        RecordStays(m, m', s, s', t);
      }
    }
  }

  lemma RestartRefines(m: Machine, s: System, e: Env, at: Context)
    requires Refines(m, s, e) && Height(s, s.current) == 1
    ensures Refines(Launched(Freed(m), s.current, Padded([], MAX_ARG_SIZE), at), WithTop(s, Restarted(s, at)), e)
  {
    assert Has(s, s.current, 0);
    PaddedOk([]);
    WithTopOk(s, e, Restarted(s, at));
    RestartLinks(m, s, e, at);
    RestartRecords(m, s, e, at);
    var m', s' := Launched(Freed(m), s.current, Padded([], MAX_ARG_SIZE), at), WithTop(s, Restarted(s, at));
    forall q | 0 <= q < SLOTS ensures Accounted(m', s', e, q) { assert Accounted(m, s, e, q); }
  }

  /** The block that the registers point to is the running process's. */
  lemma RunningBlock(m: Machine, s: System, e: Env)
    requires Refines(m, s, e)
    ensures m.pcbs[m.globalPid].fds == Running(s).fds && |Running(s).fds| == FD_ARRAY_SIZE && Running(s).fds[0]
            && Running(s).fds[1]
    ensures m.pcbs[m.globalPid].parent == Running(s).resume && m.pcbs[m.globalPid].args == Running(s).args
  {
    assert Has(s, s.current, 0) && Has(s, s.current, Height(s, s.current) - 1);
    assert Linked(m, s, s.current, Height(s, s.current) - 1);
  }

  lemma ExecuteRefines(m: Machine, s: System, e: Env, command: seq<byte>, at: Context, header: bool)
    requires Refines(m, s, e) && |command| < MAX_CMD_SIZE
    ensures Refines(ExecuteStep(m, e.fs, command, at, header).0, StepExecute(s, e, command, at, header).0, e)
    ensures ExecuteStep(m, e.fs, command, at, header).1 == StepExecute(s, e, command, at, header).1
  {
    RunningBlock(m, s, e);
    FirstFreeIsFreePid(m, s, e, 0);
    var pid := FreePid(s, e, 0);
    var name := Scan(command).word;
    var fds := Running(s).fds;
    var fd := FirstFree(fds, FIRST_FD);
    if pid == SLOTS || command == [] || name !in e.fs || fd == FD_ARRAY_SIZE {
    } else if !IsElf(e.fs[name], header) {
      FdsRefine(m, s, e, fds[fd := true]);
    } else {
      PaddedOk(Scan(command).arg);
      LaunchRefines(m, s, e, Proc(pid, FRESH_FDS, at, Padded(Scan(command).arg, MAX_ARG_SIZE)));
    }
  }

  lemma HaltRefines(m: Machine, s: System, e: Env, status: byte, at: Context)
    requires Refines(m, s, e) && ShellInstalled(e.fs)
    ensures Refines(HaltStep(m, e.fs, status, at).0, StepHalt(s, status, at).0, e)
    ensures HaltStep(m, e.fs, status, at).1 == StepHalt(s, status, at).1
  {
    RunningBlock(m, s, e);
    assert Has(s, s.current, 0);
    if Height(s, s.current) == 1 {
      RestartsInPlace(m, s, e, status, at);
      RestartRefines(m, s, e, at);
    } else {
      PopRefines(m, s, e);
    }
  }

  lemma OpenRefines(m: Machine, s: System, e: Env, name: seq<byte>)
    requires Refines(m, s, e)
    ensures Refines(OpenStep(m, e.fs, name).0, StepOpen(s, e, name).0, e)
    ensures OpenStep(m, e.fs, name).1 == StepOpen(s, e, name).1
  {
    RunningBlock(m, s, e);
    var fd := FirstFree(Running(s).fds, FIRST_FD);
    if fd < FD_ARRAY_SIZE { FdsRefine(m, s, e, Running(s).fds[fd := true]); }
  }

  lemma CloseRefines(m: Machine, s: System, e: Env, fd: int)
    requires Refines(m, s, e)
    ensures Refines(CloseStep(m, fd).0, StepClose(s, e, fd).0, e)
    ensures CloseStep(m, fd).1 == StepClose(s, e, fd).1
  {
    RunningBlock(m, s, e);
    if FIRST_FD <= fd < FD_ARRAY_SIZE { FdsRefine(m, s, e, Running(s).fds[fd := false]); }
  }

  /** One step of the kernel is one step of the stacks, with the same outcome. */
  lemma StepRefines(m: Machine, s: System, e: Env, op: Op)
    requires Refines(m, s, e) && Fits(op) && ShellInstalled(e.fs)
    ensures Refines(MachineStep(m, e.fs, op).0, Step(s, e, op).0, e)
    ensures MachineStep(m, e.fs, op).1 == Step(s, e, op).1
  {
    match op
    case Execute(command, at, header) =>
      ExecuteRefines(m, s, e, command, at, header);
    case Halt(status, at) =>
      HaltRefines(m, s, e, status, at);
    case Tick(at) =>
      TickRefines(m, s, e, at);
    case Open(name) =>
      OpenRefines(m, s, e, name);
    case Close(fd) =>
      CloseRefines(m, s, e, fd);
  }

  /** Every run of the kernel is a run of the stacks. */
  lemma {:induction false} RunRefines(m: Machine, s: System, e: Env, ops: seq<Op>)
    requires Refines(m, s, e) && AllFit(ops) && ShellInstalled(e.fs)
    ensures Refines(MachineRun(m, e.fs, ops), Run(s, e, ops), e)
    decreases |ops|
  {
    if ops != [] {
      StepRefines(m, s, e, ops[0]);
      RunRefines(MachineStep(m, e.fs, ops[0]).0, Next(s, e, ops[0]), e, ops[1..]);
    }
  }
}
