/**
 * The kernel's process calls as they run: tables updated in place, loops over
 * them, and early returns (student-distrib/sys_call.c,
 * student-distrib/scheduling.c, student-distrib/process.h). Each call is shown
 * to make the step of KernelState.dfy.
 */
module Kernel {
  import opened Bytes
  import opened Collections
  import opened Command
  import opened Processes
  import opened KernelState

  class Kernel {
    const fs: FileSystem
    const taken: array<bool>
    const pcbs: array<Pcb>
    const records: array<Record>
    var current: nat
    var globalPid: int
    var esp0: int
    var userPage: int

    ghost function View(): Machine
      reads this, taken, pcbs, records
    {
      Machine(taken[..], pcbs[..], records[..], current, globalPid, esp0, userPage)
    }

    ghost predicate Valid()
      reads this, taken, pcbs, records
    {
      Shape(View())
    }

    /** The tables as loaded, with the first task marked as started; no shell runs yet. */
    constructor (fs: FileSystem, sentinel: bool, esp0: int)
      ensures Valid() && fresh(taken) && fresh(pcbs) && fresh(records)
      ensures this.fs == fs && View() == Loaded(sentinel, esp0)
    {
      this.fs := fs;
      taken := new bool[SLOTS](p => p == NUM_PROCESSES && sentinel);
      pcbs := new Pcb[SLOTS](_ => ZEROED);
      records := new Record[NUM_TASKS](t => Record(0, 0, t == 0));
      current, globalPid, this.esp0, userPage := 0, 0, esp0, 0;
      new;
      assert View() == Loaded(sentinel, esp0);
    }

    /** Searches the table for a pid and takes it; -1 if there is none. */
    method FirstAvailablePid() returns (number: int)
      requires Valid()
      modifies taken
      ensures var first := FirstFree(old(taken[..]), 0);
              if first == SLOTS then number == -1 && taken[..] == old(taken[..])
              else number == first && taken[..] == old(taken[..])[first := true]
    {
      number := 0;
      while taken[number]
        invariant 0 <= number < SLOTS && FirstFree(taken[..], number) == FirstFree(taken[..], 0)
        decreases SLOTS - number
      {
        number := number + 1;
        if number > NUM_PROCESSES {
          number := -1;
          break;
        }
      }
      if number != -1 {
        taken[number] := true;
      }
    }

    /** The least free descriptor of the running process, put in use; -1 if there is none or no such file. */
    method Open(name: seq<byte>) returns (fd: int)
      requires Valid()
      modifies pcbs
      ensures var (m, outcome) := OpenStep(old(View()), fs, name);
              View() == m && outcome == Returns(fd)
    {
      if name !in fs { return -1; }
      fd := FIRST_FD;
      while fd < FD_ARRAY_SIZE
        invariant FIRST_FD <= fd <= FD_ARRAY_SIZE && pcbs[..] == old(pcbs[..])
        invariant FirstFree(pcbs[globalPid].fds, fd) == FirstFree(pcbs[globalPid].fds, FIRST_FD)
      {
        var fds := pcbs[globalPid].fds;
        if !fds[fd] {
          pcbs[globalPid] := pcbs[globalPid].(fds := fds[fd := true]);
          return;
        }
        fd := fd + 1;
      }
      return -1;
    }

    method Close(fd: int) returns (status: int)
      requires Valid()
      modifies pcbs
      ensures var (m, outcome) := CloseStep(old(View()), fd);
              View() == m && outcome == Returns(status)
    {
      if fd < FIRST_FD || fd > FD_ARRAY_SIZE - 1 { return -1; }
      var fds := pcbs[globalPid].fds;
      if !fds[fd] { return -1; }
      pcbs[globalPid] := pcbs[globalPid].(fds := fds[fd := false]);
      return 0;
    }

    /** Sets up the control block, the task's record and the registers of the new process. */
    method Launch(pid: nat, args: array<byte>, at: Context)
      requires Valid() && pid < SLOTS && taken[pid] && args.Length == MAX_ARG_SIZE
      modifies this, pcbs, records
      ensures View() == Launched(old(View()), pid, args[..], at)
    {
      var parentPid := if pid < NUM_TASKS then -1 else globalPid;
      userPage := UserPage(pid);
      var block := pcbs[pid].(parentPid := parentPid, terminal := current, parentPcb := parentPid, args := args[..],
        parent := at);
      block := block.(fds := block.fds[0 := true][1 := true], parentEsp0 := esp0);
      pcbs[pid] := block;
      esp0 := KernelStack(pid);
      records[current] := records[current].(pcb := pid, pid := pid);
      globalPid := pid;
      assert taken[..] == old(taken[..])[pid := true];
    }

    /** The program's name and the argument as the control block will hold it. */
    method ParseCommand(command: seq<byte>) returns (name: seq<byte>, args: array<byte>)
      requires |command| < MAX_CMD_SIZE && NUL !in command
      ensures fresh(args) && name == Scan(command).word && args[..] == Padded(Scan(command).arg, MAX_ARG_SIZE)
    {
      var cmd, arg := Parse(command);
      TextOfPadded(Scan(command).word, MAX_CMD_SIZE);
      name := Text(cmd[..]);
      args := CopyArgument(arg, Scan(command).arg);
    }

    /** The argument, copied from the parser's buffer to one of the control block's size. */
    method CopyArgument(arg: array<byte>, ghost text: seq<byte>) returns (args: array<byte>)
      requires |text| < MAX_ARG_SIZE && NUL !in text && arg[..] == Padded(text, MAX_CMD_SIZE)
      ensures fresh(args) && args[..] == Padded(text, MAX_ARG_SIZE)
    {
      TextOfPadded(text, MAX_CMD_SIZE);
      PaddedOk(text);
      args := new byte[MAX_ARG_SIZE](_ => NUL);
      Strncpy(args, arg, MAX_ARG_SIZE);
      assert args[..] == args[..MAX_ARG_SIZE];
    }

    /** Opens the file, looks at its header, and closes it again only if it is an executable. */
    method CheckFile(name: seq<byte>, header: bool) returns (ok: bool)
      requires Valid()
      modifies pcbs
      ensures var m := old(View());
              var fds := m.pcbs[m.globalPid].fds;
              var fd := FirstFree(fds, FIRST_FD);
              if name !in fs || fd == FD_ARRAY_SIZE then !ok && View() == m
              else if !IsElf(fs[name], header) then !ok && View() == WithFds(m, fds[fd := true])
              else ok && View() == m
    {
      var fd := Open(name);
      if fd == -1 { return false; }
      if !IsElf(fs[name], header) { return false; }
      ghost var fds := old(pcbs[globalPid].fds);
      var closed := Close(fd);
      assert fds[fd := true][fd := false] == fds;
      assert pcbs[..] == old(pcbs[..]);
      return true;
    }

    method Execute(command: seq<byte>, at: Context, header: bool) returns (outcome: Outcome)
      requires Valid() && |command| < MAX_CMD_SIZE && NUL !in command
      modifies this, taken, pcbs, records
      ensures (View(), outcome) == ExecuteStep(old(View()), fs, command, at, header)
    {
      var pid := FirstAvailablePid();
      if pid == -1 { return Returns(-1); }
      if command == [] {
        RemovePid(pid);
        assert taken[..] == old(taken[..]);
        return Returns(-1);
      }
      var name, args := ParseCommand(command);
      var ok := CheckFile(name, header);
      if !ok {
        RemovePid(pid);
        assert taken[..] == old(taken[..]);
        return Returns(-1);
      }
      Launch(pid, args, at);
      return Starts(pid);
    }

    method RemovePid(number: int)
      requires Valid() && IsPid(number)
      modifies taken
      ensures taken[..] == old(taken[..])[number := false]
    {
      taken[number] := false;
    }

    method CloseAll()
      requires Valid()
      modifies pcbs
      ensures View() == WithFds(old(View()), AllClosed(old(pcbs[globalPid].fds)))
    {
      ghost var m, fds := View(), pcbs[globalPid].fds;
      var fd := FIRST_FD;
      assert ClosedTo(fds, fd) == fds && WithFds(m, fds) == m;
      while fd < FD_ARRAY_SIZE
        invariant FIRST_FD <= fd <= FD_ARRAY_SIZE
        invariant View() == WithFds(m, ClosedTo(fds, fd))
      {
        var closed := Close(fd);
        assert ClosedTo(fds, fd)[fd := false] == ClosedTo(fds, fd + 1);
        assert !fds[fd] ==> ClosedTo(fds, fd) == ClosedTo(fds, fd + 1);
        fd := fd + 1;
      }
    }

    /** Closes the files, gives up the pid, and goes back to the parent or restarts the base shell. */
    method Halt(status: byte, at: Context) returns (outcome: Outcome)
      requires Valid()
      modifies this, taken, pcbs, records
      ensures (View(), outcome) == HaltStep(old(View()), fs, status, at)
    {
      CloseAll();
      var pcb := pcbs[globalPid];
      RemovePid(globalPid);
      assert View() == Freed(old(View()));
      if pcb.parentPid == -1 {
        outcome := Execute(SHELL, at, false);
        if outcome.Starts? { return; }
        return Faults;
      }
      globalPid := pcb.parentPid;
      esp0 := pcb.parentEsp0;
      userPage := UserPage(globalPid);
      records[current] := records[current].(pcb := pcb.parentPcb, pid := pcb.parentPid);
      return Resumes(pcb.parent, status);
    }

    /** The timer's turn: saves the current task and takes up, or starts, the next one. */
    method Schedule(at: Context) returns (outcome: Outcome)
      requires Valid()
      modifies this, taken, pcbs, records
      ensures (View(), outcome) == TickStep(old(View()), fs, at)
    {
      var curr := records[current];
      pcbs[curr.pcb] := pcbs[curr.pcb].(schedule := at, scheduleEsp0 := esp0);
      current := (current + 1) % NUM_TASKS;
      var next := records[current];
      userPage := UserPage(next.pid);
      assert View() == SwitchedOut(old(View()), at);
      if !next.started {
        records[current] := next.(started := true);
        outcome := Execute(SHELL, at, false);
        if outcome.Starts? { return; }
        return Faults;
      }
      globalPid := next.pid;
      esp0 := pcbs[next.pcb].scheduleEsp0;
      return Switches(pcbs[next.pcb].schedule);
    }

    method Perform(op: Op) returns (outcome: Outcome)
      requires Valid() && Fits(op)
      modifies this, taken, pcbs, records
      ensures (View(), outcome) == MachineStep(old(View()), fs, op)
    {
      match op
      case Execute(command, at, header) => outcome := Execute(command, at, header);
      case Halt(status, at) => outcome := Halt(status, at);
      case Tick(at) => outcome := Schedule(at);
      case Open(name) => var fd := Open(name); outcome := Returns(fd);
      case Close(fd) => var status := Close(fd); outcome := Returns(status);
    }

    /** Whatever is done to it, the kernel follows the machine of KernelState.dfy. */
    method PerformAll(ops: seq<Op>)
      requires Valid() && AllFit(ops)
      modifies this, taken, pcbs, records
      ensures Valid() && View() == MachineRun(old(View()), fs, ops)
    {
      var i := 0;
      while i < |ops|
        invariant i <= |ops| && Valid()
        invariant MachineRun(View(), fs, ops[i..]) == MachineRun(old(View()), fs, ops)
      {
        var outcome := Perform(ops[i]);
        assert ops[i..][1..] == ops[i + 1..];
        i := i + 1;
      }
    }
  }

  /** A table in which the descriptors from FIRST_FD up to `to` have been closed. */
  ghost function ClosedTo(fds: seq<bool>, to: nat): (r: seq<bool>)
    requires FIRST_FD <= to <= |fds| == FD_ARRAY_SIZE
    ensures |r| == FD_ARRAY_SIZE && (to == FD_ARRAY_SIZE ==> r == AllClosed(fds))
  {
    seq(FD_ARRAY_SIZE, i requires 0 <= i < FD_ARRAY_SIZE => fds[i] && !(FIRST_FD <= i < to))
  }
}
