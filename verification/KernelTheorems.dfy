/** What the refinement of KernelState.dfy says about the kernel's own tables and registers. */
module KernelTheorems {
  import opened Bytes
  import opened Collections
  import opened Command
  import opened Processes
  import opened KernelState

  // ---- Booting ------------------------------------------------------------------

  /**
   * How the kernel boots: the first shell is executed, and two ticks start the
   * other two. `ops0` and `ops1` are what the first and the second shell do
   * before they lose the processor.
   */
  datatype Boot = Boot(esp0: int, at: Context, ops0: seq<Op>, tick1: Context, ops1: seq<Op>, tick2: Context)

  predicate BootFits(b: Boot) {
    AllFit(b.ops0) && AllFit(b.ops1)
  }

  function FirstUp(e: Env, b: Boot): (m: Machine)
    ensures Shape(m)
  {
    ExecuteStep(Loaded(e.sentinel, b.esp0), e.fs, SHELL, b.at, false).0
  }

  function BeforeTick1(e: Env, b: Boot): (m: Machine)
    requires BootFits(b)
    ensures Shape(m)
  {
    MachineRun(FirstUp(e, b), e.fs, b.ops0)
  }

  function SecondUp(e: Env, b: Boot): (m: Machine)
    requires BootFits(b)
    ensures Shape(m)
  {
    TickStep(BeforeTick1(e, b), e.fs, b.tick1).0
  }

  function BeforeTick2(e: Env, b: Boot): (m: Machine)
    requires BootFits(b)
    ensures Shape(m)
  {
    MachineRun(SecondUp(e, b), e.fs, b.ops1)
  }

  function Booted(e: Env, b: Boot): (m: Machine)
    requires BootFits(b)
    ensures Shape(m)
  {
    TickStep(BeforeTick2(e, b), e.fs, b.tick2).0
  }

  /** The shell opens, closes, halts or tries to execute something that does not start; there is no tick. */
  predicate StartsNoOther(m: Machine, fs: FileSystem, op: Op)
    requires Shape(m) && Fits(op)
  {
    !op.Tick? && (op.Execute? ==> MachineStep(m, fs, op).1 == Returns(-1))
  }

  predicate AllStartNoOther(m: Machine, fs: FileSystem, ops: seq<Op>)
    requires Shape(m) && AllFit(ops)
    decreases |ops|
  {
    ops == [] || (StartsNoOther(m, fs, ops[0]) && AllStartNoOther(MachineStep(m, fs, ops[0]).0, fs, ops[1..]))
  }

  /**
   * Until the second tick no program is started but the shells, and at each tick the
   * shell that runs has a descriptor left.
   */
  predicate BootOk(e: Env, b: Boot) {
    && ShellInstalled(e.fs) && BootFits(b)
    && AllStartNoOther(FirstUp(e, b), e.fs, b.ops0) && HasFreeFd(BeforeTick1(e, b))
    && AllStartNoOther(SecondUp(e, b), e.fs, b.ops1) && HasFreeFd(BeforeTick2(e, b))
  }

  /** The base shells of the first `n` tasks have started and nothing else has. */
  ghost predicate Started(m: Machine, e: Env, n: nat) {
    && Shape(m) && n <= NUM_TASKS
    && (forall p :: 0 <= p < SLOTS ==> (m.taken[p] <==> p < n || (e.sentinel && p == NUM_PROCESSES)))
    && (forall p :: n <= p < SLOTS ==> NoneOpen(m.pcbs[p].fds))
    && (forall t :: 0 <= t < n ==> BaseShell(m, t))
  }

  ghost predicate BaseShell(m: Machine, t: nat)
    requires Shape(m) && t < NUM_TASKS
  {
    var b := m.pcbs[t];
    && b.fds[0] && b.fds[1] && NUL in b.args && b.parentPid == -1 && b.terminal == t
    && m.records[t] == Record(t, t, true)
    && (t != m.current ==> b.scheduleEsp0 == KernelStack(t))
  }

  /** It is the turn of task `n`, whose shell has not started. */
  ghost predicate Ready(m: Machine, e: Env, n: nat) {
    && Started(m, e, n) && n < NUM_TASKS && m.current == n && m.records[n].started && HasFreeFd(m)
    && (forall t :: n < t < NUM_TASKS ==> !m.records[t].started)
  }

  /** The last of the first `n` base shells runs. */
  ghost predicate ShellsUp(m: Machine, e: Env, n: nat) {
    && Started(m, e, n) && 1 <= n && m.current == n - 1 && AtRest(m, n - 1)
    && (forall t :: n <= t < NUM_TASKS ==> !m.records[t].started)
  }

  lemma ShellLaunched(m: Machine, e: Env, n: nat, at: Context)
    requires Ready(m, e, n)
    ensures ShellsUp(Launched(m, n, Padded([], MAX_ARG_SIZE), at), e, n + 1)
  {
    PaddedOk([]);
    var m' := Launched(m, n, Padded([], MAX_ARG_SIZE), at);
    forall t | 0 <= t < n + 1 ensures BaseShell(m', t) {
      if t < n { assert BaseShell(m, t); }
    }
  }

  lemma ShellUp(m: Machine, e: Env, n: nat, at: Context)
    requires Ready(m, e, n) && ShellInstalled(e.fs)
    ensures ExecuteStep(m, e.fs, SHELL, at, false).1 == Starts(n)
    ensures ShellsUp(ExecuteStep(m, e.fs, SHELL, at, false).0, e, n + 1)
  {
    ShellStarts(m, e.fs, at, n);
    ShellLaunched(m, e, n, at);
  }

  /** A tick starts the next shell exactly when the one that runs has a descriptor left. */
  lemma NextShell(m: Machine, e: Env, n: nat, at: Context)
    requires ShellsUp(m, e, n) && n < NUM_TASKS && ShellInstalled(e.fs)
    ensures TickStep(m, e.fs, at).1 == if HasFreeFd(m) then Starts(n) else Faults
    ensures HasFreeFd(m) ==> ShellsUp(TickStep(m, e.fs, at).0, e, n + 1)
  {
    var out := SwitchedOut(m, at);
    var turn := out.(records := out.records[n := out.records[n].(started := true)]);
    assert BaseShell(m, n - 1);
    if HasFreeFd(m) {
      forall t | 0 <= t < n ensures BaseShell(turn, t) { assert BaseShell(m, t); }
      assert Ready(turn, e, n);
      ShellUp(turn, e, n, at);
    }
  }

  lemma FdsKeepShells(m: Machine, e: Env, n: nat, fds: seq<bool>)
    requires ShellsUp(m, e, n) && |fds| == FD_ARRAY_SIZE && fds[0] && fds[1]
    ensures ShellsUp(WithFds(m, fds), e, n)
  {
    var m' := WithFds(m, fds);
    forall t | 0 <= t < n ensures BaseShell(m', t) { assert BaseShell(m, t); }
  }

  /** A base shell that has given up its pid leaves the kernel as it was before that shell started. */
  lemma FreedReady(m: Machine, e: Env, n: nat)
    requires ShellsUp(m, e, n)
    ensures m.pcbs[m.globalPid].parentPid == -1 && Ready(Freed(m), e, n - 1)
  {
    assert BaseShell(m, n - 1);
    var freed := Freed(m);
    forall t | 0 <= t < n - 1 ensures BaseShell(freed, t) { assert BaseShell(m, t); }
  }

  /** The running base shell halts: its pid is free, which the search finds again. */
  lemma HaltKeepsShells(m: Machine, e: Env, n: nat, status: byte, at: Context)
    requires ShellsUp(m, e, n) && ShellInstalled(e.fs)
    ensures ShellsUp(HaltStep(m, e.fs, status, at).0, e, n)
  {
    FreedReady(m, e, n);
    ShellUp(Freed(m), e, n - 1, at);
  }

  lemma StepKeepsShells(m: Machine, e: Env, n: nat, op: Op)
    requires ShellsUp(m, e, n) && ShellInstalled(e.fs) && Fits(op) && StartsNoOther(m, e.fs, op)
    ensures ShellsUp(MachineStep(m, e.fs, op).0, e, n)
  {
    assert BaseShell(m, n - 1);
    var fds := m.pcbs[m.globalPid].fds;
    if op.Halt? {
      HaltKeepsShells(m, e, n, op.status, op.at);
    } else if op.Close? {
      if FIRST_FD <= op.fd < FD_ARRAY_SIZE { FdsKeepShells(m, e, n, fds[op.fd := false]); }
    } else if HasFreeFd(m) {
      FdsKeepShells(m, e, n, fds[FirstFree(fds, FIRST_FD) := true]);
    }
  }

  lemma {:induction false} RunKeepsShells(m: Machine, e: Env, n: nat, ops: seq<Op>)
    requires ShellsUp(m, e, n) && ShellInstalled(e.fs) && AllFit(ops) && AllStartNoOther(m, e.fs, ops)
    ensures ShellsUp(MachineRun(m, e.fs, ops), e, n)
    decreases |ops|
  {
    if ops != [] {
      StepKeepsShells(m, e, n, ops[0]);
      RunKeepsShells(MachineStep(m, e.fs, ops[0]).0, e, n, ops[1..]);
    }
  }

  /** The stacks of three base shells. */
  ghost function Shells(m: Machine): System
    requires Shape(m)
  {
    System(seq(NUM_TASKS, t requires 0 <= t < NUM_TASKS =>
      var b := m.pcbs[t];
      Task([Proc(t, b.fds, b.parent, b.args)], if t == m.current then None else Some(b.schedule))), m.current)
  }

  lemma ShellsRefine(m: Machine, e: Env)
    requires ShellsUp(m, e, NUM_TASKS)
    ensures Refines(m, Shells(m), e)
  {
    var s := Shells(m);
    forall t, i | Has(s, t, i)
      ensures i == 0 && At(s, t, i).pid == t && ProcOk(At(s, t, i), e) && Linked(m, s, t, i)
    {
      assert BaseShell(m, t);
    }
    forall t | 0 <= t < NUM_TASKS ensures Has(s, t, 0) && Recorded(m, s, t) { assert BaseShell(m, t); }
    forall p | 0 <= p < SLOTS ensures Accounted(m, s, e, p) {
      if p < NUM_TASKS { assert Has(s, p, 0) && At(s, p, 0).pid == p; }
    }
  }

  lemma FirstShellUp(e: Env, b: Boot)
    requires ShellInstalled(e.fs)
    ensures ShellsUp(FirstUp(e, b), e, 1)
  {
    ShellUp(Loaded(e.sentinel, b.esp0), e, 0, b.at);
  }

  lemma SecondShellUp(e: Env, b: Boot)
    requires BootOk(e, b)
    ensures ShellsUp(SecondUp(e, b), e, 2)
  {
    FirstShellUp(e, b);
    RunKeepsShells(FirstUp(e, b), e, 1, b.ops0);
    NextShell(BeforeTick1(e, b), e, 1, b.tick1);
  }

  lemma ThirdShellUp(e: Env, b: Boot)
    requires BootOk(e, b)
    ensures ShellsUp(Booted(e, b), e, NUM_TASKS)
  {
    SecondShellUp(e, b);
    RunKeepsShells(SecondUp(e, b), e, 2, b.ops1);
    NextShell(BeforeTick2(e, b), e, 2, b.tick2);
  }

  /** Once booted, the kernel stands for three tasks with one base shell each. */
  lemma BootRefines(e: Env, b: Boot)
    requires BootOk(e, b)
    ensures Refines(Booted(e, b), Shells(Booted(e, b)), e)
  {
    ThirdShellUp(e, b);
    ShellsRefine(Booted(e, b), e);
  }

  // ---- Parent chains -----------------------------------------------------------------

  /** The pids met by following parent links from `pid`, at most `n` of them. */
  function Chain(m: Machine, pid: int, n: nat): seq<int>
    requires Shape(m)
    decreases n
  {
    if n == 0 || !IsPid(pid) then [] else [pid] + Chain(m, m.pcbs[pid].parentPid, n - 1)
  }

  ghost function TaskChain(m: Machine, t: int): seq<int>
    requires Shape(m)
  {
    if 0 <= t < NUM_TASKS then Chain(m, m.records[t].pid, SLOTS) else []
  }

  ghost predicate OnSomeChain(m: Machine, p: int)
    requires Shape(m)
  {
    exists t :: p in TaskChain(m, t)
  }

  /** The chain of a task ends at its base shell, which has no parent. */
  ghost predicate ChainEnds(m: Machine, t: int)
    requires Shape(m) && 0 <= t < NUM_TASKS
  {
    m.pcbs[t].parentPid == -1 && TaskChain(m, t) != [] && TaskChain(m, t)[|TaskChain(m, t)| - 1] == t
  }

  ghost predicate SameLink(m: Machine, t: int, i: int, u: int, j: int)
    requires Shape(m)
  {
    0 <= i < |TaskChain(m, t)| && 0 <= j < |TaskChain(m, u)| && TaskChain(m, t)[i] == TaskChain(m, u)[j]
  }

  /**
   * The chains of the three tasks end at their base shells, which have no
   * parent; no pid is met twice, in one chain or in two; and the pids met are
   * exactly the ones the table calls taken.
   */
  ghost predicate ChainsOk(m: Machine, e: Env)
    requires Shape(m)
  {
    && (forall t :: 0 <= t < NUM_TASKS ==> ChainEnds(m, t))
    && (forall t, i, u, j :: SameLink(m, t, i, u, j) ==> t == u && i == j)
    && (forall p :: 0 <= p < SLOTS ==> (m.taken[p] <==> (e.sentinel && p == NUM_PROCESSES) || OnSomeChain(m, p)))
  }

  lemma {:induction false} ChainIsStack(m: Machine, s: System, e: Env, t: int, i: nat, n: nat)
    requires Refines(m, s, e) && Has(s, t, i) && i < n
    ensures |Chain(m, At(s, t, i).pid, n)| == i + 1
    ensures forall k :: 0 <= k <= i ==> Chain(m, At(s, t, i).pid, n)[k] == At(s, t, i - k).pid
    decreases i
  {
    assert Linked(m, s, t, i);
    if i > 0 { ChainIsStack(m, s, e, t, i - 1, n - 1); }
  }

  lemma {:induction false} Counted(s: System, e: Env, t: int, n: nat) returns (pids: set<int>)
    requires SystemOk(s, e) && 0 <= t < NUM_TASKS && n <= Height(s, t)
    ensures |pids| == n
    ensures forall p :: p in pids ==> 0 <= p < SLOTS && exists i :: 0 <= i < n && Has(s, t, i) && At(s, t, i).pid == p
  {
    if n == 0 {
      pids := {};
    } else {
      pids := Counted(s, e, t, n - 1);
      assert Has(s, t, n - 1);
      forall i | 0 <= i < n - 1 ensures At(s, t, i).pid != At(s, t, n - 1).pid { Apart(s, e, t, i, t, n - 1); }
      pids := pids + {At(s, t, n - 1).pid};
    }
  }

  lemma HeightBound(s: System, e: Env, t: int)
    requires SystemOk(s, e) && 0 <= t < NUM_TASKS
    ensures Height(s, t) <= SLOTS
  {
    var pids := Counted(s, e, t, Height(s, t));
    SubsetCount(pids, {0, 1, 2, 3, 4, 5, 6});
  }

  /** The chain of a task is its stack, read from the top. */
  lemma TaskChainIsStack(m: Machine, s: System, e: Env, t: int)
    requires Refines(m, s, e) && 0 <= t < NUM_TASKS
    ensures |TaskChain(m, t)| == Height(s, t) > 0
    ensures forall i :: 0 <= i < Height(s, t) ==> TaskChain(m, t)[i] == At(s, t, Height(s, t) - 1 - i).pid
  {
    assert Has(s, t, 0) && Recorded(m, s, t);
    HeightBound(s, e, t);
    ChainIsStack(m, s, e, t, Height(s, t) - 1, SLOTS);
  }

  lemma RefinesEnds(m: Machine, s: System, e: Env, t: int)
    requires Refines(m, s, e) && 0 <= t < NUM_TASKS
    ensures ChainEnds(m, t)
  {
    TaskChainIsStack(m, s, e, t);
    assert Has(s, t, 0) && Linked(m, s, t, 0);
  }

  lemma RefinesApart(m: Machine, s: System, e: Env, t: int, i: int, u: int, j: int)
    requires Refines(m, s, e) && SameLink(m, t, i, u, j)
    ensures t == u && i == j
  {
    TaskChainIsStack(m, s, e, t);
    TaskChainIsStack(m, s, e, u);
    assert SamePid(s, t, Height(s, t) - 1 - i, u, Height(s, u) - 1 - j);
  }

  lemma OnChain(m: Machine, s: System, e: Env, p: int)
    requires Refines(m, s, e)
    ensures InUse(s, p) <==> OnSomeChain(m, p)
  {
    if InUse(s, p) {
      var t, i :| Has(s, t, i) && At(s, t, i).pid == p;
      TaskChainIsStack(m, s, e, t);
      assert TaskChain(m, t)[Height(s, t) - 1 - i] == p;
    }
    if t :| p in TaskChain(m, t) {
      TaskChainIsStack(m, s, e, t);
      var i :| 0 <= i < |TaskChain(m, t)| && TaskChain(m, t)[i] == p;
      assert Has(s, t, Height(s, t) - 1 - i) && At(s, t, Height(s, t) - 1 - i).pid == p;
    }
  }

  lemma RefinesChains(m: Machine, s: System, e: Env)
    requires Refines(m, s, e)
    ensures ChainsOk(m, e)
  {
    forall t | 0 <= t < NUM_TASKS ensures ChainEnds(m, t) { RefinesEnds(m, s, e, t); }
    forall t, i, u, j | SameLink(m, t, i, u, j) ensures t == u && i == j { RefinesApart(m, s, e, t, i, u, j); }
    forall p | 0 <= p < SLOTS ensures m.taken[p] <==> (e.sentinel && p == NUM_PROCESSES) || OnSomeChain(m, p) {
      assert Accounted(m, s, e, p);
      OnChain(m, s, e, p);
    }
  }

  // ---- Main results ------------------------------------------------------------------

  /** A process that is on a chain has its terminal's descriptors, and a block that is on none has nothing open. */
  ghost predicate DescriptorsOk(m: Machine)
    requires Shape(m)
  {
    forall p :: 0 <= p < SLOTS ==>
      var fds := m.pcbs[p].fds;
      if OnSomeChain(m, p) then fds[0] && fds[1] else NoneOpen(fds)
  }

  lemma RefinesDescriptors(m: Machine, s: System, e: Env)
    requires Refines(m, s, e)
    ensures DescriptorsOk(m)
  {
    forall p | 0 <= p < SLOTS
      ensures if OnSomeChain(m, p) then m.pcbs[p].fds[0] && m.pcbs[p].fds[1] else NoneOpen(m.pcbs[p].fds)
    {
      OnChain(m, s, e, p);
      if InUse(s, p) {
        var t, i :| Has(s, t, i) && At(s, t, i).pid == p;
        assert Linked(m, s, t, i) && ProcOk(At(s, t, i), e);
      } else {
        assert Accounted(m, s, e, p);
      }
    }
  }

  lemma RefinesRegisters(m: Machine, s: System, e: Env)
    requires Refines(m, s, e)
    ensures AtRest(m, m.records[m.current].pid)
  {
    assert Has(s, s.current, 0) && Recorded(m, s, s.current);
  }

  lemma RunRefinesBoot(e: Env, b: Boot, ops: seq<Op>)
    requires BootOk(e, b) && AllFit(ops)
    ensures SystemOk(Shells(Booted(e, b)), e)
    ensures Refines(MachineRun(Booted(e, b), e.fs, ops), Run(Shells(Booted(e, b)), e, ops), e)
  {
    BootRefines(e, b);
    RunRefines(Booted(e, b), Shells(Booted(e, b)), e, ops);
  }

  /**
   * After booting, every run of execute, halt, tick, open and close keeps the
   * chains and the descriptors in order and leaves the registers with the
   * process that the current task's record names.
   */
  lemma EveryRun(e: Env, b: Boot, ops: seq<Op>)
    requires BootOk(e, b) && AllFit(ops)
    ensures var m := MachineRun(Booted(e, b), e.fs, ops);
            ChainsOk(m, e) && DescriptorsOk(m) && AtRest(m, m.records[m.current].pid)
  {
    RunRefinesBoot(e, b, ops);
    var m, s := MachineRun(Booted(e, b), e.fs, ops), Run(Shells(Booted(e, b)), e, ops);
    RefinesChains(m, s, e);
    RefinesDescriptors(m, s, e);
    RefinesRegisters(m, s, e);
  }

  /** The registers and the record of the current task are determined by its stack. */
  lemma SameTaskSameRegisters(m: Machine, s: System, m': Machine, s': System, e: Env)
    requires Refines(m, s, e) && Refines(m', s', e)
    requires s'.current == s.current && s'.tasks[s.current].stack == s.tasks[s.current].stack
    ensures m'.globalPid == m.globalPid && m'.esp0 == m.esp0 && m'.userPage == m.userPage
    ensures m'.current == m.current && m'.records[m.current] == m.records[m.current]
  {
    assert Has(s, s.current, 0) && Has(s', s.current, 0) && Recorded(m, s, s.current) && Recorded(m', s', s.current);
  }

  /**
   * From an execute to its halt, whatever runs in between: the pid register,
   * the kernel stack, the program's page and the task's record are the parent's
   * again, the execute call returns the status, and the child's pid is free.
   */
  lemma RoundTrip(m: Machine, s: System, e: Env, call: Op, ops: seq<Op>, status: byte, at: Context)
    requires Refines(m, s, e) && ShellInstalled(e.fs) && call.Execute? && Fits(call) && AllFit(ops)
    requires Step(s, e, call).1.Starts?
    requires StaysAbove(Next(s, e, call), e, ops, s.current, Height(s, s.current))
    requires var s2 := Run(Next(s, e, call), e, ops);
             s2.current == s.current && Height(s2, s.current) == Height(s, s.current) + 1
    ensures var (m1, started) := MachineStep(m, e.fs, call);
            var (m3, outcome) := HaltStep(MachineRun(m1, e.fs, ops), e.fs, status, at);
            && started.Starts?
            && outcome == Resumes(call.at, status)
            && m3.globalPid == m.globalPid && m3.esp0 == m.esp0 && m3.userPage == m.userPage
            && m3.current == m.current && m3.records[m.current] == m.records[m.current]
            && !m3.taken[started.pid]
  {
    var m1, s1 := MachineStep(m, e.fs, call).0, Next(s, e, call);
    StepRefines(m, s, e, call);
    RunRefines(m1, s1, e, ops);
    var m2, s2 := MachineRun(m1, e.fs, ops), Run(s1, e, ops);
    ExecuteHaltRoundTrip(s, e, call, ops, status, at);
    HaltRefines(m2, s2, e, status, at);
    var m3, s3 := HaltStep(m2, e.fs, status, at).0, StepHalt(s2, status, at).0;
    SameTaskSameRegisters(m, s, m3, s3, e);
    assert Accounted(m3, s3, e, Step(s, e, call).1.pid);
  }

  // ---- Suspended tasks -----------------------------------------------------------------

  lemma ExecuteSpares(m: Machine, fs: FileSystem, command: seq<byte>, at: Context, header: bool, t: int, p: int)
    requires Shape(m) && |command| < MAX_CMD_SIZE && 0 <= t < NUM_TASKS && t != m.current
    requires IsPid(p) && m.taken[p] && p != m.globalPid
    ensures var m' := ExecuteStep(m, fs, command, at, header).0;
            m'.pcbs[p] == m.pcbs[p] && m'.records[t] == m.records[t]
  {
  }

  lemma FreedSpares(m: Machine, t: int, p: int)
    requires Shape(m) && 0 <= t < NUM_TASKS && IsPid(p) && m.taken[p] && p != m.globalPid
    ensures var m' := Freed(m); m'.taken[p] && m'.pcbs[p] == m.pcbs[p] && m'.records[t] == m.records[t]
    ensures Freed(m).globalPid == m.globalPid && Freed(m).current == m.current
  {
  }

  lemma HaltSpares(m: Machine, fs: FileSystem, status: byte, at: Context, t: int, p: int)
    requires Shape(m) && 0 <= t < NUM_TASKS && t != m.current
    requires IsPid(p) && m.taken[p] && p != m.globalPid
    ensures var m' := HaltStep(m, fs, status, at).0; m'.pcbs[p] == m.pcbs[p] && m'.records[t] == m.records[t]
  {
    FreedSpares(m, t, p);
    ExecuteSpares(Freed(m), fs, SHELL, at, false, t, p);
  }

  lemma TickSpares(m: Machine, fs: FileSystem, at: Context, t: int, p: int)
    requires Shape(m) && 0 <= t < NUM_TASKS && t != m.current && m.records[t].started
    requires IsPid(p) && m.taken[p] && p != m.globalPid && p != m.records[m.current].pcb
    ensures var m' := TickStep(m, fs, at).0; m'.pcbs[p] == m.pcbs[p] && m'.records[t] == m.records[t]
  {
    var m1 := SwitchedOut(m, at);
    var next := m1.records[m1.current];
    if !next.started {
      ExecuteSpares(m1.(records := m1.records[m1.current := next.(started := true)]), fs, SHELL, at, false, t, p);
    }
  }

  /** A step touches no record of another task that has started, and no block of a taken pid but the running one's. */
  lemma StepSpares(m: Machine, fs: FileSystem, op: Op, t: int, p: int)
    requires Shape(m) && Fits(op) && 0 <= t < NUM_TASKS && t != m.current && m.records[t].started
    requires IsPid(p) && m.taken[p] && p != m.globalPid && p != m.records[m.current].pcb
    ensures var m' := MachineStep(m, fs, op).0; m'.pcbs[p] == m.pcbs[p] && m'.records[t] == m.records[t]
  {
    match op
    case Execute(command, at, header) => ExecuteSpares(m, fs, command, at, header, t, p);
    case Halt(status, at) => HaltSpares(m, fs, status, at, t, p);
    case Tick(at) => TickSpares(m, fs, at, t, p);
    case Open(_) =>
    case Close(_) =>
  }

  lemma SuspendedBlock(m: Machine, s: System, e: Env, op: Op, t: int, i: int)
    requires Refines(m, s, e) && Fits(op) && Has(s, t, i) && t != s.current
    ensures var p, m' := At(s, t, i).pid, MachineStep(m, e.fs, op).0;
            IsPid(p) && m'.pcbs[p] == m.pcbs[p] && m'.records[t] == m.records[t]
  {
    var p := At(s, t, i).pid;
    assert Has(s, s.current, 0) && Has(s, t, 0) && Recorded(m, s, s.current) && Recorded(m, s, t);
    Apart(s, e, t, i, s.current, Height(s, s.current) - 1);
    assert Linked(m, s, t, i) && InUse(s, p) && Accounted(m, s, e, p);
    StepSpares(m, e.fs, op, t, p);
  }

  /** `m'` has the chain of `t`, the control blocks on it and the record of `t` as `m` has them. */
  ghost predicate SameTask(m: Machine, m': Machine, t: int)
    requires Shape(m) && Shape(m') && 0 <= t < NUM_TASKS
  {
    && m'.records[t] == m.records[t] && TaskChain(m', t) == TaskChain(m, t)
    && forall p :: p in TaskChain(m, t) ==> IsPid(p) && m'.pcbs[p] == m.pcbs[p]
  }

  lemma SameStackSameChain(m: Machine, s: System, m': Machine, s': System, e: Env, t: nat)
    requires Refines(m, s, e) && Refines(m', s', e) && t < NUM_TASKS && s'.tasks[t].stack == s.tasks[t].stack
    ensures TaskChain(m', t) == TaskChain(m, t)
  {
    TaskChainIsStack(m, s, e, t);
    TaskChainIsStack(m', s', e, t);
  }

  lemma SuspendedPid(m: Machine, s: System, e: Env, op: Op, t: nat, p: int)
    requires Refines(m, s, e) && Fits(op) && t < NUM_TASKS && s.current != t && p in TaskChain(m, t)
    ensures var m' := MachineStep(m, e.fs, op).0;
            IsPid(p) && m'.pcbs[p] == m.pcbs[p] && m'.records[t] == m.records[t]
  {
    TaskChainIsStack(m, s, e, t);
    var i :| 0 <= i < |TaskChain(m, t)| && TaskChain(m, t)[i] == p;
    SuspendedBlock(m, s, e, op, t, Height(s, t) - 1 - i);
  }

  lemma SuspendedBlocks(m: Machine, s: System, e: Env, op: Op, t: nat)
    requires Refines(m, s, e) && Fits(op) && t < NUM_TASKS && s.current != t
    ensures var m' := MachineStep(m, e.fs, op).0;
            && m'.records[t] == m.records[t]
            && forall p :: p in TaskChain(m, t) ==> IsPid(p) && m'.pcbs[p] == m.pcbs[p]
  {
    var m' := MachineStep(m, e.fs, op).0;
    forall p | p in TaskChain(m, t) ensures IsPid(p) && m'.pcbs[p] == m.pcbs[p] { SuspendedPid(m, s, e, op, t, p); }
    RefinesEnds(m, s, e, t);
    SuspendedPid(m, s, e, op, t, TaskChain(m, t)[|TaskChain(m, t)| - 1]);
  }

  lemma SuspendedStep(m: Machine, s: System, e: Env, op: Op, t: nat)
    requires Refines(m, s, e) && Fits(op) && ShellInstalled(e.fs) && t < NUM_TASKS
    requires s.current != t && Next(s, e, op).current != t
    ensures SameTask(m, MachineStep(m, e.fs, op).0, t)
  {
    StepRefines(m, s, e, op);
    SuspendedBlocks(m, s, e, op, t);
    SuspendedUnchanged(s, e, [op], t);
    SameStackSameChain(m, s, MachineStep(m, e.fs, op).0, Next(s, e, op), e, t);
  }

  /** Over every run of the other tasks, a suspended task keeps its record, its chain and the control blocks on it. */
  lemma {:induction false} SuspendedTables(m: Machine, s: System, e: Env, ops: seq<Op>, t: nat)
    requires Refines(m, s, e) && AllFit(ops) && ShellInstalled(e.fs) && t < NUM_TASKS && StaysSuspended(s, e, ops, t)
    ensures SameTask(m, MachineRun(m, e.fs, ops), t)
    decreases |ops|
  {
    if ops == [] {
      SamePids(m, s, e, t);
    } else {
      SuspendedStep(m, s, e, ops[0], t);
      StepRefines(m, s, e, ops[0]);
      SuspendedTables(MachineStep(m, e.fs, ops[0]).0, Next(s, e, ops[0]), e, ops[1..], t);
    }
  }

  lemma SamePids(m: Machine, s: System, e: Env, t: nat)
    requires Refines(m, s, e) && t < NUM_TASKS
    ensures SameTask(m, m, t)
  {
    TaskChainIsStack(m, s, e, t);
    forall i | 0 <= i < |TaskChain(m, t)| ensures IsPid(TaskChain(m, t)[i]) {
      assert Has(s, t, Height(s, t) - 1 - i) && Linked(m, s, t, Height(s, t) - 1 - i);
    }
  }

  /**
   * A tick takes a task off the processor, the others run, and another tick
   * takes it up again: it goes on at the very context it was left at, with the
   * pid register, the kernel stack, the program's page and the record it had.
   */
  lemma Resumption(m: Machine, s: System, e: Env, at: Context, ops: seq<Op>, later: Context)
    requires Refines(m, s, e) && ShellInstalled(e.fs) && AllFit(ops)
    requires StaysSuspended(Next(s, e, Tick(at)), e, ops, s.current)
    requires (Run(Next(s, e, Tick(at)), e, ops).current + 1) % NUM_TASKS == s.current
    ensures var m2 := MachineRun(TickStep(m, e.fs, at).0, e.fs, ops);
            var (m3, outcome) := TickStep(m2, e.fs, later);
            && outcome == Switches(at)
            && m3.globalPid == m.globalPid && m3.esp0 == m.esp0 && m3.userPage == m.userPage
            && m3.current == m.current && m3.records[m.current] == m.records[m.current]
  {
    var m1, s1 := TickStep(m, e.fs, at).0, Next(s, e, Tick(at));
    TickRefines(m, s, e, at);
    RunRefines(m1, s1, e, ops);
    var m2, s2 := MachineRun(m1, e.fs, ops), Run(s1, e, ops);
    ResumesWhereSuspended(s, e, at, ops, later);
    TickRefines(m2, s2, e, later);
    SameTaskSameRegisters(m, s, TickStep(m2, e.fs, later).0, StepTick(s2, e, later).0, e);
  }

  // ---- Executing too early --------------------------------------------------------------

  /** The parent link of a new process names its caller exactly when the three base pids are taken. */
  lemma ParentIsCaller(m: Machine, fs: FileSystem, command: seq<byte>, at: Context, header: bool)
    requires Shape(m) && |command| < MAX_CMD_SIZE
    requires ExecuteStep(m, fs, command, at, header).1.Starts?
    ensures var (m', started) := ExecuteStep(m, fs, command, at, header);
            m'.pcbs[started.pid].parentPid == m.globalPid <==> m.taken[0] && m.taken[1] && m.taken[2]
  {
  }

  lemma OnlyFirstUp(e: Env, esp0: int, at: Context)
    requires ShellInstalled(e.fs)
    ensures var m := ExecuteStep(Loaded(e.sentinel, esp0), e.fs, SHELL, at, false).0;
            m.taken[0] && !m.taken[1] && m.globalPid == 0 && HasFreeFd(m)
  {
    ShellStarts(Loaded(e.sentinel, esp0), e.fs, at, 0);
    FirstLaunched(e.sentinel, esp0, Padded([], MAX_ARG_SIZE), at);
  }

  lemma FirstLaunched(sentinel: bool, esp0: int, args: seq<byte>, at: Context)
    requires |args| == MAX_ARG_SIZE
    ensures var m := Launched(Loaded(sentinel, esp0), 0, args, at);
            m.taken[0] && !m.taken[1] && m.globalPid == 0 && HasFreeFd(m)
  {
    assert !Launched(Loaded(sentinel, esp0), 0, args, at).pcbs[0].fds[FIRST_FD];
  }

  /** A program executed before the other base shells are up is taken for a base shell. */
  lemma EarlyExecuteLosesParent(e: Env, esp0: int, at: Context, call: Context)
    requires ShellInstalled(e.fs)
    ensures var m := ExecuteStep(Loaded(e.sentinel, esp0), e.fs, SHELL, at, false).0;
            var (m', outcome) := ExecuteStep(m, e.fs, SHELL, call, false);
            outcome == Starts(1) && m'.pcbs[1].parentPid == -1 != m.globalPid
  {
    OnlyFirstUp(e, esp0, at);
    ShellStarts(ExecuteStep(Loaded(e.sentinel, esp0), e.fs, SHELL, at, false).0, e.fs, call, 1);
  }
}
