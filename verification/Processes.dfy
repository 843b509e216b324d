/**
 * What the process system is meant to be, without pids tables, links between
 * control blocks or saved registers in fixed places: three tasks, each a stack
 * of processes, of which one task runs. KernelState.dfy holds the machine that
 * the kernel really keeps and shows that it is this one.
 */
module Processes {
  import opened Bytes
  import opened Collections
  import opened Command

  const NUM_TASKS := 3
  const NUM_PROCESSES := 6
  const FD_ARRAY_SIZE := 8
  const FIRST_FD := 2

  /** The pid table, and the word after it that the search for a pid also tests. */
  const SLOTS := NUM_PROCESSES + 1

  /** A saved stack pointer and frame pointer: where execution goes on. */
  datatype Context = Context(esp: int, ebp: int)

  /** A process: its open descriptors, where its halt goes back to, and its argument. */
  datatype Proc = Proc(pid: nat, fds: seq<bool>, resume: Context, args: seq<byte>)

  /** The processes of one task, each started by the one before, and where a suspended task goes on. */
  datatype Task = Task(stack: seq<Proc>, saved: Option<Context>)

  datatype System = System(tasks: seq<Task>, current: nat)

  datatype File = Regular(bytes: seq<byte>) | Directory | Rtc

  type FileSystem = map<seq<byte>, File>

  /** The files there are, and whether the word after the pid table reads as taken. */
  datatype Env = Env(fs: FileSystem, sentinel: bool)

  const ELF_HEADER: seq<byte> := [0x7F, 0x45, 0x4C, 0x46]
  const SHELL: seq<byte> := [0x73, 0x68, 0x65, 0x6C, 0x6C]

  /**
   * A step of the system. `at` is the context in which the call or the interrupt
   * arrives; `header` is what the header test would say of a file whose
   * first four bytes are not there to be read.
   */
  datatype Op =
    | Execute(command: seq<byte>, at: Context, header: bool)
    | Halt(status: byte, at: Context)
    | Tick(at: Context)
    | Open(name: seq<byte>)
    | Close(fd: int)

  /** Where the processor goes after a step. */
  datatype Outcome =
    | Returns(value: int)               // to the caller
    | Starts(pid: nat)                  // to the entry point of a new program
    | Resumes(at: Context, value: int)  // to the execute call of the parent
    | Switches(at: Context)             // to the task that was suspended there
    | Faults                            // nowhere: a shell that had to start did not

  // ---- Looking at a system ---------------------------------------------------

  ghost predicate Has(s: System, t: int, i: int) {
    0 <= t < |s.tasks| && 0 <= i < |s.tasks[t].stack|
  }

  ghost function At(s: System, t: int, i: int): Proc
    requires Has(s, t, i)
  {
    s.tasks[t].stack[i]
  }

  ghost predicate InUse(s: System, pid: int) {
    exists t, i :: Has(s, t, i) && At(s, t, i).pid == pid
  }

  ghost predicate Taken(s: System, e: Env, pid: int) {
    InUse(s, pid) || (e.sentinel && pid == NUM_PROCESSES)
  }

  ghost predicate SamePid(s: System, t: int, i: int, u: int, j: int) {
    Has(s, t, i) && Has(s, u, j) && At(s, t, i).pid == At(s, u, j).pid
  }

  ghost predicate ProcOk(p: Proc, e: Env) {
    && p.pid < (if e.sentinel then NUM_PROCESSES else SLOTS)
    && |p.fds| == FD_ARRAY_SIZE && p.fds[0] && p.fds[1]
    && |p.args| == MAX_ARG_SIZE && NUL in p.args
  }

  /**
   * Every task has a stack of processes with a base shell at the bottom, whose
   * pid is the task's number; no pid occurs twice in the whole system; exactly
   * the tasks that do not run have a place to go on.
   */
  ghost predicate SystemOk(s: System, e: Env) {
    && |s.tasks| == NUM_TASKS && s.current < NUM_TASKS
    && (forall t :: 0 <= t < NUM_TASKS ==> Has(s, t, 0) && At(s, t, 0).pid == t)
    && (forall t :: 0 <= t < NUM_TASKS ==> (s.tasks[t].saved.None? <==> t == s.current))
    && (forall t, i :: Has(s, t, i) ==> ProcOk(At(s, t, i), e))
    && (forall t, i, u, j :: SamePid(s, t, i, u, j) ==> t == u && i == j)
  }

  ghost function Height(s: System, t: int): nat
    requires 0 <= t < |s.tasks|
  {
    |s.tasks[t].stack|
  }

  ghost function Top(s: System, t: int): Proc
    requires Has(s, t, 0)
  {
    At(s, t, Height(s, t) - 1)
  }

  ghost predicate CanRun(s: System) {
    Has(s, s.current, 0)
  }

  ghost function Running(s: System): Proc
    requires CanRun(s)
  {
    Top(s, s.current)
  }

  ghost function WithStack(s: System, stack: seq<Proc>): System
    requires s.current < |s.tasks|
  {
    s.(tasks := s.tasks[s.current := s.tasks[s.current].(stack := stack)])
  }

  ghost function Pushed(s: System, p: Proc): System
    requires CanRun(s)
  {
    WithStack(s, s.tasks[s.current].stack + [p])
  }

  ghost function Popped(s: System): System
    requires CanRun(s)
  {
    WithStack(s, s.tasks[s.current].stack[..Height(s, s.current) - 1])
  }

  ghost function WithTop(s: System, p: Proc): System
    requires CanRun(s)
  {
    WithStack(s, s.tasks[s.current].stack[Height(s, s.current) - 1 := p])
  }

  // ---- Pids and descriptors --------------------------------------------------

  /** The least pid from `p` on that is not taken, or SLOTS. */
  ghost function FreePid(s: System, e: Env, p: nat): (q: nat)
    requires p <= SLOTS
    ensures p <= q <= SLOTS && (q < SLOTS ==> !Taken(s, e, q)) && forall r :: p <= r < q ==> Taken(s, e, r)
    decreases SLOTS - p
  {
    if p == SLOTS || !Taken(s, e, p) then p else FreePid(s, e, p + 1)
  }

  /** A table in which only the terminal's descriptors are in use. */
  const FRESH_FDS: seq<bool> := [true, true, false, false, false, false, false, false]

  predicate NoneOpen(fds: seq<bool>) {
    forall i :: FIRST_FD <= i < |fds| ==> !fds[i]
  }

  predicate IsElf(f: File, header: bool) {
    if f.Regular? && |f.bytes| >= 4 then f.bytes[..4] == ELF_HEADER else header
  }

  predicate ShellInstalled(fs: FileSystem) {
    SHELL in fs && fs[SHELL].Regular? && |fs[SHELL].bytes| >= 4 && IsElf(fs[SHELL], false)
  }

  // ---- The steps ---------------------------------------------------------------

  ghost function StepExecute(s: System, e: Env, command: seq<byte>, at: Context, header: bool): (System, Outcome)
    requires SystemOk(s, e) && |command| < MAX_CMD_SIZE
  {
    var pid := FreePid(s, e, 0);
    var name := Scan(command).word;
    var caller := Running(s);
    var fd := FirstFree(caller.fds, FIRST_FD);
    if pid == SLOTS || command == [] || name !in e.fs || fd == FD_ARRAY_SIZE then
      (s, Returns(-1))
    else if !IsElf(e.fs[name], header) then
      (WithTop(s, caller.(fds := caller.fds[fd := true])), Returns(-1))
    else
      (Pushed(s, Proc(pid, FRESH_FDS, at, Padded(Scan(command).arg, MAX_ARG_SIZE))), Starts(pid))
  }

  ghost function StepHalt(s: System, status: byte, at: Context): (System, Outcome)
    requires CanRun(s)
  {
    var p := Running(s);
    if Height(s, s.current) == 1 then
      (WithTop(s, Proc(p.pid, FRESH_FDS, at, Padded([], MAX_ARG_SIZE))), Starts(p.pid))
    else
      (Popped(s), Resumes(p.resume, status))
  }

  ghost function StepTick(s: System, e: Env, at: Context): (System, Outcome)
    requires SystemOk(s, e)
  {
    var next := (s.current + 1) % NUM_TASKS;
    var suspended := s.tasks[s.current].(saved := Some(at));
    var resumed := s.tasks[next].(saved := None);
    (System(s.tasks[s.current := suspended][next := resumed], next), Switches(s.tasks[next].saved.value))
  }

  ghost function StepOpen(s: System, e: Env, name: seq<byte>): (System, Outcome)
    requires SystemOk(s, e)
  {
    var p := Running(s);
    var fd := FirstFree(p.fds, FIRST_FD);
    if name !in e.fs || fd == FD_ARRAY_SIZE then (s, Returns(-1))
    else (WithTop(s, p.(fds := p.fds[fd := true])), Returns(fd))
  }

  ghost function StepClose(s: System, e: Env, fd: int): (System, Outcome)
    requires SystemOk(s, e)
  {
    var p := Running(s);
    if fd < FIRST_FD || fd > FD_ARRAY_SIZE - 1 || !p.fds[fd] then (s, Returns(-1))
    else (WithTop(s, p.(fds := p.fds[fd := false])), Returns(0))
  }

  /** The commands that fit the kernel's buffers. */
  predicate Fits(op: Op) {
    op.Execute? ==> |op.command| < MAX_CMD_SIZE && NUL !in op.command
  }

  ghost function Step(s: System, e: Env, op: Op): (System, Outcome)
    requires SystemOk(s, e) && Fits(op)
  {
    match op
    case Execute(command, at, header) => StepExecute(s, e, command, at, header)
    case Halt(status, at) => StepHalt(s, status, at)
    case Tick(at) => StepTick(s, e, at)
    case Open(name) => StepOpen(s, e, name)
    case Close(fd) => StepClose(s, e, fd)
  }

  // ---- Every step keeps the system well formed ------------------------------------

  lemma PushedOk(s: System, e: Env, p: Proc)
    requires SystemOk(s, e) && ProcOk(p, e) && !InUse(s, p.pid)
    ensures SystemOk(Pushed(s, p), e)
    ensures forall q :: InUse(Pushed(s, p), q) <==> InUse(s, q) || q == p.pid
  {
    var s' := Pushed(s, p);
    var c, h := s.current, Height(s, s.current);
    forall t, i | Has(s', t, i) && !(t == c && i == h) ensures Has(s, t, i) && At(s', t, i) == At(s, t, i) {}
    assert Has(s', c, h) && At(s', c, h) == p;
    forall t | 0 <= t < NUM_TASKS ensures Has(s', t, 0) && At(s', t, 0) == At(s, t, 0) { assert Has(s, t, 0); }
    forall t, i, u, j | SamePid(s', t, i, u, j) ensures t == u && i == j {
      if (t, i) != (c, h) && (u, j) != (c, h) { assert SamePid(s, t, i, u, j); }
    }
    forall q ensures InUse(s', q) <==> InUse(s, q) || q == p.pid {
      if InUse(s, q) {
        var t, i :| Has(s, t, i) && At(s, t, i).pid == q;
        assert Has(s', t, i) && At(s', t, i).pid == q;
      }
    }
  }

  lemma PoppedOk(s: System, e: Env)
    requires SystemOk(s, e) && Height(s, s.current) > 1
    ensures SystemOk(Popped(s), e)
    ensures forall q :: InUse(Popped(s), q) <==> InUse(s, q) && q != Running(s).pid
  {
    var s' := Popped(s);
    var c, h := s.current, Height(s, s.current) - 1;
    forall t, i | Has(s', t, i) ensures Has(s, t, i) && At(s', t, i) == At(s, t, i) && !(t == c && i == h) {}
    forall t | 0 <= t < NUM_TASKS ensures Has(s', t, 0) { assert Has(s, t, 0); }
    forall t, i, u, j | SamePid(s', t, i, u, j) ensures t == u && i == j { assert SamePid(s, t, i, u, j); }
    forall q ensures InUse(s', q) <==> InUse(s, q) && q != At(s, c, h).pid {
      if InUse(s', q) {
        var t, i :| Has(s', t, i) && At(s', t, i).pid == q;
        assert !SamePid(s, t, i, c, h);
      }
      if InUse(s, q) && q != At(s, c, h).pid {
        var t, i :| Has(s, t, i) && At(s, t, i).pid == q;
        assert Has(s', t, i) && At(s', t, i).pid == q;
      }
    }
  }

  lemma WithTopOk(s: System, e: Env, p: Proc)
    requires SystemOk(s, e) && ProcOk(p, e) && p.pid == Running(s).pid
    ensures SystemOk(WithTop(s, p), e)
    ensures forall q :: InUse(WithTop(s, p), q) <==> InUse(s, q)
  {
    var s' := WithTop(s, p);
    var c, h := s.current, Height(s, s.current) - 1;
    forall t, i ensures Has(s', t, i) <==> Has(s, t, i) {}
    forall t, i | Has(s, t, i) ensures At(s', t, i) == if t == c && i == h then p else At(s, t, i) {}
    forall t, i, u, j | SamePid(s', t, i, u, j) ensures t == u && i == j { assert SamePid(s, t, i, u, j); }
    forall q ensures InUse(s', q) <==> InUse(s, q) {
      if InUse(s, q) {
        var t, i :| Has(s, t, i) && At(s, t, i).pid == q;
        assert Has(s', t, i) && At(s', t, i).pid == q;
      }
    }
  }

  lemma TickOk(s: System, e: Env, at: Context)
    requires SystemOk(s, e)
    ensures SystemOk(StepTick(s, e, at).0, e)
    ensures forall q :: InUse(StepTick(s, e, at).0, q) <==> InUse(s, q)
  {
    var s' := StepTick(s, e, at).0;
    forall t, i ensures Has(s', t, i) <==> Has(s, t, i) {}
    forall t, i | Has(s, t, i) ensures At(s', t, i) == At(s, t, i) {}
    forall t, i, u, j | SamePid(s', t, i, u, j) ensures t == u && i == j { assert SamePid(s, t, i, u, j); }
    forall q ensures InUse(s', q) <==> InUse(s, q) {
      if InUse(s, q) {
        var t, i :| Has(s, t, i) && At(s, t, i).pid == q;
        assert Has(s', t, i) && At(s', t, i).pid == q;
      }
    }
  }

  lemma PaddedOk(s: seq<byte>)
    requires |s| < MAX_ARG_SIZE
    ensures |Padded(s, MAX_ARG_SIZE)| == MAX_ARG_SIZE && NUL in Padded(s, MAX_ARG_SIZE)
  {
    assert Padded(s, MAX_ARG_SIZE)[|s|] == NUL;
  }

  lemma StepOk(s: System, e: Env, op: Op)
    requires SystemOk(s, e) && Fits(op)
    ensures SystemOk(Step(s, e, op).0, e)
  {
    var p := Running(s);
    match op
    case Execute(command, at, header) =>
      var pid := FreePid(s, e, 0);
      var fd := FirstFree(p.fds, FIRST_FD);
      PaddedOk(Scan(command).arg);
      if StepExecute(s, e, command, at, header).1.Starts? {
        PushedOk(s, e, Proc(pid, FRESH_FDS, at, Padded(Scan(command).arg, MAX_ARG_SIZE)));
      } else if fd < FD_ARRAY_SIZE {
        WithTopOk(s, e, p.(fds := p.fds[fd := true]));
      }
    case Halt(status, at) =>
      PaddedOk([]);
      if Height(s, s.current) == 1 {
        WithTopOk(s, e, Proc(p.pid, FRESH_FDS, at, Padded([], MAX_ARG_SIZE)));
      } else {
        PoppedOk(s, e);
      }
    case Tick(at) =>
      TickOk(s, e, at);
    case Open(name) =>
      var fd := FirstFree(p.fds, FIRST_FD);
      if fd < FD_ARRAY_SIZE { WithTopOk(s, e, p.(fds := p.fds[fd := true])); }
    case Close(fd) =>
      if FIRST_FD <= fd < FD_ARRAY_SIZE { WithTopOk(s, e, p.(fds := p.fds[fd := false])); }
  }

  // ---- Whole runs ------------------------------------------------------------------

  predicate AllFit(ops: seq<Op>) {
    forall i :: 0 <= i < |ops| ==> Fits(ops[i])
  }

  ghost function Next(s: System, e: Env, op: Op): (s': System)
    requires SystemOk(s, e) && Fits(op)
    ensures SystemOk(s', e)
  {
    StepOk(s, e, op);
    Step(s, e, op).0
  }

  /** The system after a run; it is well formed after every run. */
  ghost function Run(s: System, e: Env, ops: seq<Op>): (s': System)
    requires SystemOk(s, e) && AllFit(ops)
    ensures SystemOk(s', e)
    decreases |ops|
  {
    if ops == [] then s else Run(Next(s, e, ops[0]), e, ops[1..])
  }

  /** At every moment of the run, task `t` holds more than `h` processes. */
  ghost predicate StaysAbove(s: System, e: Env, ops: seq<Op>, t: nat, h: nat)
    requires SystemOk(s, e) && AllFit(ops) && t < NUM_TASKS
    decreases |ops|
  {
    && Height(s, t) > h
    && (ops == [] || StaysAbove(Next(s, e, ops[0]), e, ops[1..], t, h))
  }

  /** The same process, whatever it has opened or closed meanwhile. */
  predicate SameProcess(p: Proc, q: Proc) {
    p.pid == q.pid && p.resume == q.resume && p.args == q.args
  }

  /** The processes below level `h` untouched, and the same process at that level. */
  ghost predicate KeepsBelow(s: System, s': System, t: nat, h: nat) {
    Has(s, t, h) && Has(s', t, h) && s'.tasks[t].stack[..h] == s.tasks[t].stack[..h]
      && SameProcess(At(s', t, h), At(s, t, h))
  }

  lemma StepKeepsBelow(s: System, e: Env, op: Op, t: nat, h: nat)
    requires SystemOk(s, e) && Fits(op) && t < NUM_TASKS && h >= 1 && Height(s, t) > h
    requires Height(Step(s, e, op).0, t) > h
    ensures KeepsBelow(s, Step(s, e, op).0, t, h)
  {
  }

  lemma {:induction false} RunKeepsBelow(s: System, e: Env, ops: seq<Op>, t: nat, h: nat)
    requires SystemOk(s, e) && AllFit(ops) && t < NUM_TASKS && h >= 1
    requires StaysAbove(s, e, ops, t, h)
    ensures KeepsBelow(s, Run(s, e, ops), t, h)
    decreases |ops|
  {
    if ops != [] {
      StepKeepsBelow(s, e, ops[0], t, h);
      RunKeepsBelow(Next(s, e, ops[0]), e, ops[1..], t, h);
    }
  }

  /**
   * From execute to its halt: whatever the child's own children, the other tasks
   * and the timer do in between, the parent's task is as it was, the processor
   * goes back to the place of the execute call with the status, and the child's
   * pid is free again.
   */
  lemma {:induction false} ExecuteHaltRoundTrip(s: System, e: Env, call: Op, ops: seq<Op>, status: byte, at: Context)
    requires SystemOk(s, e) && call.Execute? && Fits(call) && AllFit(ops)
    requires Step(s, e, call).1.Starts?
    requires StaysAbove(Next(s, e, call), e, ops, s.current, Height(s, s.current))
    requires var s2 := Run(Next(s, e, call), e, ops);
             s2.current == s.current && Height(s2, s.current) == Height(s, s.current) + 1
    ensures var s2 := Run(Next(s, e, call), e, ops);
            var (s3, outcome) := StepHalt(s2, status, at);
            && s3.current == s.current
            && s3.tasks[s.current].stack == s.tasks[s.current].stack
            && outcome == Resumes(call.at, status)
            && !InUse(s3, Step(s, e, call).1.pid)
  {
    var t, h := s.current, Height(s, s.current);
    assert Has(s, t, 0);
    var s1 := Next(s, e, call);
    var s2 := Run(s1, e, ops);
    RunKeepsBelow(s1, e, ops, t, h);
    assert At(s1, t, h).resume == call.at;
    assert s1.tasks[t].stack[..h] == s.tasks[t].stack;
    PoppedOk(s2, e);
  }

  /** Whenever the new program runs again, getargs still finds the argument of its command. */
  lemma {:induction false} ArgumentsLater(s: System, e: Env, call: Op, ops: seq<Op>, p: Parts, address: int,
                                          nbytes: int)
    requires SystemOk(s, e) && call.Execute? && Fits(call) && AllFit(ops)
    requires Step(s, e, call).1.Starts?
    requires StaysAbove(Next(s, e, call), e, ops, s.current, Height(s, s.current))
    requires var s2 := Run(Next(s, e, call), e, ops);
             s2.current == s.current && Height(s2, s.current) == Height(s, s.current) + 1
    requires Splits(call.command, p)
    ensures Delivered(Running(Run(Next(s, e, call), e, ops)).args, address, nbytes) == Received(p.arg, address, nbytes)
  {
    assert Has(s, s.current, 0);
    RunKeepsBelow(Next(s, e, call), e, ops, s.current, Height(s, s.current));
    ArgumentRoundTrip(call.command, p, address, nbytes);
  }

  /** At every moment of the run, task `t` is suspended. */
  ghost predicate StaysSuspended(s: System, e: Env, ops: seq<Op>, t: nat)
    requires SystemOk(s, e) && AllFit(ops)
    decreases |ops|
  {
    && s.current != t
    && (ops == [] || StaysSuspended(Next(s, e, ops[0]), e, ops[1..], t))
  }

  /** Whatever the other tasks execute, halt, open or close, a suspended task does not change. */
  lemma {:induction false} SuspendedUnchanged(s: System, e: Env, ops: seq<Op>, t: nat)
    requires SystemOk(s, e) && AllFit(ops) && t < NUM_TASKS
    requires StaysSuspended(s, e, ops, t)
    ensures Run(s, e, ops).tasks[t] == s.tasks[t]
    decreases |ops|
  {
    if ops != [] {
      SuspendedUnchanged(Next(s, e, ops[0]), e, ops[1..], t);
    }
  }

  /** A task that a tick takes off the processor goes on where it was, with the processes it had. */
  lemma {:induction false} ResumesWhereSuspended(s: System, e: Env, at: Context, ops: seq<Op>, later: Context)
    requires SystemOk(s, e) && AllFit(ops)
    requires StaysSuspended(Next(s, e, Tick(at)), e, ops, s.current)
    requires (Run(Next(s, e, Tick(at)), e, ops).current + 1) % NUM_TASKS == s.current
    ensures var s2 := Run(Next(s, e, Tick(at)), e, ops);
            var (s3, outcome) := StepTick(s2, e, later);
            s3.current == s.current && outcome == Switches(at) && s3.tasks[s.current] == s.tasks[s.current]
  {
    SuspendedUnchanged(Next(s, e, Tick(at)), e, ops, s.current);
  }

  /** The file begins with the four bytes of an executable; `header` answers where they cannot be read. */
  predicate Runnable(f: File, header: bool) {
    match f
    case Regular(b) => if |b| < 4 then header else b[0] == 0x7F && b[1] == 0x45 && b[2] == 0x4C && b[3] == 0x46
    case _ => header
  }

  lemma RunnableIsElf(f: File, header: bool)
    ensures IsElf(f, header) <==> Runnable(f, header)
  {
    if f.Regular? && |f.bytes| >= 4 {
      assert f.bytes[..4] == [f.bytes[0], f.bytes[1], f.bytes[2], f.bytes[3]];
    }
  }

  /** The file that a base shell is started from is called "shell". */
  lemma ShellIs(fs: FileSystem)
    ensures var name := [0x73, 0x68, 0x65, 0x6C, 0x6C];
            ShellInstalled(fs) <==>
              name in fs && fs[name].Regular? && |fs[name].bytes| >= 4 && Runnable(fs[name], false)
  {
    if SHELL in fs { RunnableIsElf(fs[SHELL], false); }
  }

  /** A pid is left: one of the six of the table, or the word after it if that reads as free. */
  ghost predicate PidLeft(s: System, e: Env) {
    exists pid :: 0 <= pid < (if e.sentinel then 6 else 7) && !InUse(s, pid)
  }

  /** A descriptor is left to the running process, besides the two of its terminal. */
  ghost predicate FdLeft(s: System)
    requires CanRun(s)
  {
    exists fd :: 2 <= fd < 8 && fd < |Running(s).fds| && !Running(s).fds[fd]
  }

  /** Of eight descriptors the first two are in use. */
  predicate JustTerminal(fds: seq<bool>) {
    |fds| == 8 && forall i :: 0 <= i < 8 ==> (fds[i] <==> i < 2)
  }

  /** When a base shell halts, a shell without files and without an argument takes its place, under the same pid. */
  lemma BaseShellRestarts(s: System, e: Env, status: byte, at: Context)
    requires SystemOk(s, e) && Height(s, s.current) == 1
    ensures var (s', outcome) := StepHalt(s, status, at);
            && CanRun(s') && s' == WithTop(s, Running(s')) && outcome == Starts(s.current)
            && Running(s').pid == s.current && JustTerminal(Running(s').fds)
            && |Running(s').args| == 128 && forall i :: 0 <= i < 128 ==> Running(s').args[i] == 0x00
  {
    assert Has(s, s.current, 0) && At(s, s.current, 0).pid == s.current;
  }

  /**
   * Execute starts a program exactly when its command names, as the first word,
   * a file that begins like an executable, and a pid and a descriptor are left.
   * The program then gets the least pid that is left.
   */
  lemma ExecuteStarts(s: System, e: Env, call: Op, p: Parts)
    requires SystemOk(s, e) && call.Execute? && Fits(call) && Splits(call.command, p)
    ensures Step(s, e, call).1.Starts? <==>
              && call.command != [] && p.word in e.fs && Runnable(e.fs[p.word], call.header)
              && PidLeft(s, e) && FdLeft(s)
    ensures var outcome := Step(s, e, call).1;
            if outcome.Starts? then !InUse(s, outcome.pid) && forall pid :: 0 <= pid < outcome.pid ==> InUse(s, pid)
            else outcome == Returns(-1)
  {
    SplitUnique(call.command, p);
    if p.word in e.fs { RunnableIsElf(e.fs[p.word], call.header); }
    PidLeftIs(s, e);
    FdLeftIs(s, e);
    LeastPid(s, e, call);
  }

  lemma LeastPid(s: System, e: Env, call: Op)
    requires SystemOk(s, e) && call.Execute? && Fits(call)
    ensures var outcome := Step(s, e, call).1;
            if outcome.Starts? then !InUse(s, outcome.pid) && forall pid :: 0 <= pid < outcome.pid ==> InUse(s, pid)
            else outcome == Returns(-1)
  {
    var pid := FreePid(s, e, 0);
    if pid < SLOTS { BelowSentinel(s, e, pid); }
  }

  /** The new process stands on top of its task's stack, with its terminal's descriptors only. */
  lemma NewProcess(s: System, e: Env, call: Op)
    requires SystemOk(s, e) && call.Execute? && Fits(call) && Step(s, e, call).1.Starts?
    ensures var s' := Next(s, e, call);
            && s' == Pushed(s, Running(s')) && Running(s').pid == Step(s, e, call).1.pid
            && Running(s').resume == call.at && JustTerminal(Running(s').fds)
  {
  }

  lemma FdLeftIs(s: System, e: Env)
    requires SystemOk(s, e)
    ensures |Running(s).fds| == 8 && (FdLeft(s) <==> FirstFree(Running(s).fds, FIRST_FD) < FD_ARRAY_SIZE)
  {
    assert Has(s, s.current, 0) && Has(s, s.current, Height(s, s.current) - 1);
    assert ProcOk(At(s, s.current, Height(s, s.current) - 1), e);
    var fd := FirstFree(Running(s).fds, FIRST_FD);
    if fd < FD_ARRAY_SIZE { assert !Running(s).fds[fd]; }
  }

  lemma PidLeftIs(s: System, e: Env)
    ensures PidLeft(s, e) <==> FreePid(s, e, 0) < SLOTS
  {
    var pid := FreePid(s, e, 0);
    if pid < SLOTS { assert !Taken(s, e, pid); }
    if q :| 0 <= q < (if e.sentinel then 6 else 7) && !InUse(s, q) { assert !Taken(s, e, q); }
  }

  lemma BelowSentinel(s: System, e: Env, pid: nat)
    requires pid < SLOTS && forall r :: 0 <= r < pid ==> Taken(s, e, r)
    ensures forall r :: 0 <= r < pid ==> InUse(s, r)
  {
    forall r | 0 <= r < pid ensures InUse(s, r) { assert Taken(s, e, r); }
  }

  /** Open hands out the least descriptor from 2 on that is not in use, if the file exists. */
  lemma OpenReturns(s: System, e: Env, name: seq<byte>)
    requires SystemOk(s, e)
    ensures var fd, fds := StepOpen(s, e, name).1.value, Running(s).fds;
            && StepOpen(s, e, name).1 == Returns(fd)
            && (fd == -1 <==> !(name in e.fs && FdLeft(s)))
            && (fd != -1 ==> 2 <= fd < 8 && !fds[fd] && forall i :: 2 <= i < fd ==> fds[i])
  {
    FdLeftIs(s, e);
  }

  /** What open hands out, close takes back, once; it never takes back 0 or 1, or what is no descriptor. */
  lemma CloseUndoesOpen(s: System, e: Env, name: seq<byte>, fd: int)
    requires SystemOk(s, e)
    ensures var (s1, got) := StepOpen(s, e, name);
            got.value != -1 ==>
              && SystemOk(s1, e) && StepClose(s1, e, got.value) == (s, Returns(0))
              && StepClose(s, e, got.value) == (s, Returns(-1))
    ensures StepClose(s, e, fd).1 == Returns(if 2 <= fd < 8 && Running(s).fds[fd] then 0 else -1)
    ensures !(2 <= fd < 8) ==> StepClose(s, e, fd).0 == s
  {
    var p := Running(s);
    var free := FirstFree(p.fds, FIRST_FD);
    if name in e.fs && free < FD_ARRAY_SIZE {
      var with := p.(fds := p.fds[free := true]);
      WithTopOk(s, e, with);
      assert Running(WithTop(s, with)) == with;
      assert with.fds[free := false] == p.fds;
      TopAgain(s, with);
    }
  }

  lemma TopAgain(s: System, p: Proc)
    requires CanRun(s)
    ensures WithTop(WithTop(s, p), Running(s)) == s
  {
    var c, h := s.current, Height(s, s.current) - 1;
    assert s.tasks[c].stack[h := p][h := Running(s)] == s.tasks[c].stack;
    assert WithTop(WithTop(s, p), Running(s)).tasks == s.tasks;
  }

  /**
   * A failed execute takes no pid and starts nothing. It leaves the system as it
   * was exactly when it did not get as far as the header of a file that is no
   * executable; otherwise the caller keeps the least free descriptor open.
   */
  lemma FailedExecute(s: System, e: Env, call: Op)
    requires SystemOk(s, e) && call.Execute? && Fits(call)
    requires Step(s, e, call).1 == Returns(-1)
    ensures var s' := Next(s, e, call);
            var fds := Running(s).fds;
            var fd := FirstFree(fds, FIRST_FD);
            var name := Scan(call.command).word;
            && (forall pid :: InUse(s', pid) <==> InUse(s, pid))
            && (s' == s <==> FreePid(s, e, 0) == SLOTS || call.command == [] || name !in e.fs || fd == FD_ARRAY_SIZE)
            && (s' != s ==> s' == WithTop(s, Running(s).(fds := fds[fd := true])) && !IsElf(e.fs[name], call.header))
  {
    var p := Running(s);
    var fd := FirstFree(p.fds, FIRST_FD);
    if fd < FD_ARRAY_SIZE {
      var s1 := WithTop(s, p.(fds := p.fds[fd := true]));
      WithTopOk(s, e, p.(fds := p.fds[fd := true]));
      assert Running(s1).fds[fd] && !p.fds[fd];
    }
  }
}
