/**
 The history of exits and waits: what `process_wait` delivers over every run.
 */
module ExitWait {
  import opened Machine
  import opened ProcessSpec
  import opened Fifo

  /** `Exited`: `process_exit(code)` by the process `pid`.
      `Delivered`: a `process_wait(pid)` that returned 0 with this exit code. */
  datatype Event = Exited(pid: int, code: int) | Delivered(pid: int, code: int)

  function WaitEvents(pid: int, r: WaitResult): seq<Event> {
    if r.Collected? then [Delivered(pid, r.code)] else []
  }

  function Events(s: Sys, op: Op): seq<Event>
    requires Wf(s)
  {
    match op
    case ExitOp(code) => if s.pcb[s.current].pid == 0 then [] else [Exited(s.pcb[s.current].pid, code)]
    case WaitOp(pid) => WaitEvents(pid, WaitBegin(s, pid).1)
    case ResumeOp(pid) => WaitEvents(pid, WaitResume(s, pid).1)
    case _ => []
  }

  ghost function Log(s: Sys, ops: seq<Op>): seq<Event>
    decreases |ops|
  {
    if ops == [] || !Wf(s) then [] else Events(s, ops[0]) + Log(Step(s, ops[0]), ops[1..])
  }

  /** Every delivery follows the exit with its pid and code. */
  ghost predicate Backed(log: seq<Event>) {
    forall j :: 0 <= j < |log| && log[j].Delivered? ==> Exited(log[j].pid, log[j].code) in log[..j]
  }

  /** No two exits, and no two deliveries, have the same pid. */
  ghost predicate Once(log: seq<Event>) {
    forall i, j :: 0 <= i < j < |log| && log[i].pid == log[j].pid ==> log[i].Exited? && log[j].Delivered?
  }

  /** Each pid exits at most once and is delivered at most once, with the code it exited
      with and only after it exited. */
  ghost predicate Consistent(log: seq<Event>) {
    Backed(log) && Once(log)
  }

  /** How the history relates to the processes that still have a control block. */
  ghost predicate Matches(s: Sys, log: seq<Event>) {
    && (forall e :: e in log ==> e.pid < s.nextPid)
    && (forall p :: p in s.pcb && s.pcb[p].state == Terminated ==> Exited(s.pcb[p].pid, s.pcb[p].exitCode) in log)
    && (forall p, e :: p in s.pcb && e in log && e.pid == s.pcb[p].pid ==> e.Exited? && s.pcb[p].state == Terminated)
  }

  // ---------------------------------------------------------------- steps that end no process

  predicate SameLife(a: Proc, b: Proc) {
    a.pid == b.pid && a.exitCode == b.exitCode && (a.state == Terminated <==> b.state == Terminated)
  }

  /** Nobody exits and nobody is collected; newcomers are alive and have new pids. */
  ghost predicate Quiet(s: Sys, t: Sys) {
    && s.nextPid <= t.nextPid
    && (forall p :: p in s.pcb ==> p in t.pcb && SameLife(s.pcb[p], t.pcb[p]))
    && (forall p :: p in t.pcb && p !in s.pcb ==> t.pcb[p].state != Terminated && s.nextPid <= t.pcb[p].pid)
  }

  lemma QuietMatches(s: Sys, t: Sys, log: seq<Event>)
    requires Matches(s, log) && Quiet(s, t)
    ensures Matches(t, log)
  {}

  lemma ScheduleQuiet(s: Sys)
    requires Core(s)
    ensures Quiet(s, Schedule(s))
  {
    if s.queue != [] && s.queue[0] != s.current {
      assert s.queue[0] in s.queue;
      ScheduleShape(s);
    }
  }

  lemma TickQuiet(s: Sys)
    requires Inv(s)
    ensures Quiet(s, Tick(s))
  {
    ChargeKeeps(s);
    ScheduleQuiet(Charge(s));
  }

  lemma BlockQuiet(s: Sys)
    requires Inv(s) && s.pcb[s.current].pid != 0
    ensures Quiet(s, Block(s))
  {}

  // ---------------------------------------------------------------- exits and deliveries

  lemma BackedExtend(log: seq<Event>, e: Event)
    requires Backed(log) && (e.Delivered? ==> Exited(e.pid, e.code) in log)
    ensures Backed(log + [e])
  {
    var log' := log + [e];
    forall j | 0 <= j < |log'| && log'[j].Delivered? ensures Exited(log'[j].pid, log'[j].code) in log'[..j] {
      assert log'[..j] == log[..j];
      assert log[..|log|] == log;
    }
  }

  lemma OnceExtend(log: seq<Event>, e: Event)
    requires Once(log) && forall d :: d in log && d.pid == e.pid ==> d.Exited? && e.Delivered?
    ensures Once(log + [e])
  {
    assert forall j :: 0 <= j < |log| ==> (log + [e])[j] == log[j] && log[j] in log;
  }

  ghost predicate PidsDistinct(s: Sys) {
    && (forall p :: p in s.pcb ==> s.pcb[p].pid < s.nextPid)
    && (forall p, q :: p in s.pcb && q in s.pcb && p != q ==> s.pcb[p].pid != s.pcb[q].pid)
  }

  lemma MarkMatches(s: Sys, code: int, log: seq<Event>)
    requires PidsDistinct(s) && s.current in s.pcb && s.pcb[s.current].state != Terminated && Matches(s, log)
    ensures Matches(MarkExited(s, code), log + [Exited(s.pcb[s.current].pid, code)])
  {}

  lemma ExitQuiet(s: Sys, code: int)
    requires Inv(s) && s.pcb[s.current].pid != 0
    ensures Quiet(MarkExited(s, code), Exit(s, code))
  {
    ExitMiddle(s, code);
    WakeFromEffect(MarkExited(s, code), 0);
    ScheduleQuiet(WakeFrom(MarkExited(s, code), 0));
  }

  lemma ExitMatches(s: Sys, code: int, log: seq<Event>)
    requires Inv(s) && Matches(s, log) && Consistent(log) && s.pcb[s.current].pid != 0
    ensures var log' := log + [Exited(s.pcb[s.current].pid, code)];
            Matches(Exit(s, code), log') && Consistent(log')
  {
    BackedExtend(log, Exited(s.pcb[s.current].pid, code));
    OnceExtend(log, Exited(s.pcb[s.current].pid, code));
    MarkMatches(s, code, log);
    ExitQuiet(s, code);
    QuietMatches(MarkExited(s, code), Exit(s, code), log + [Exited(s.pcb[s.current].pid, code)]);
  }

  lemma ReapMatches(s: Sys, p: int, log: seq<Event>)
    requires Wf(s) && PidsDistinct(s) && p in s.pcb && s.pcb[p].state == Terminated && Matches(s, log)
    ensures Matches(Reap(s, p), log + [Delivered(s.pcb[p].pid, s.pcb[p].exitCode)])
  {}

  lemma ResumeMatches(s: Sys, pid: int, log: seq<Event>)
    requires Inv(s) && Matches(s, log) && Consistent(log)
    ensures var log' := log + WaitEvents(pid, WaitResume(s, pid).1);
            Matches(WaitResume(s, pid).0, log') && Consistent(log')
  {
    var (t, r) := WaitResume(s, pid);
    if r.Collected? {
      ReapMatches(s, FindPid(s, pid, 0), log);
      BackedExtend(log, Delivered(pid, r.code));
      OnceExtend(log, Delivered(pid, r.code));
    } else {
      assert log + [] == log;
    }
  }

  lemma StepMatches(s: Sys, op: Op, log: seq<Event>)
    requires Inv(s) && Legal(s, op) && Matches(s, log) && Consistent(log)
    ensures Matches(Step(s, op), log + Events(s, op)) && Consistent(log + Events(s, op))
  {
    var t := Step(s, op);
    if Events(s, op) == [] {
      assert log + [] == log;
      if !op.ResumeOp? { StepQuiet(s, op); QuietMatches(s, t, log); } else { ResumeMatches(s, op.pid, log); }
    } else {
      match op
      case ExitOp(code) => ExitMatches(s, code, log);
      case WaitOp(pid) => ResumeMatches(s, pid, log);
      case ResumeOp(pid) => ResumeMatches(s, pid, log);
    }
  }

  lemma StepQuiet(s: Sys, op: Op)
    requires Inv(s) && Legal(s, op) && Events(s, op) == [] && !op.ResumeOp?
    ensures Quiet(s, Step(s, op))
  {
    match op
    case CreateOp(_, _, _) =>
    case TickOp => TickQuiet(s);
    case YieldOp => ScheduleQuiet(s);
    case BlockOp => BlockQuiet(s);
    case WakeOp(_) =>
    case ExitOp(_) =>
    case WaitOp(pid) => if WaitBegin(s, pid).1 == Waiting { BlockQuiet(s); }
  }

  // ---------------------------------------------------------------- no exit is forgotten

  ghost predicate HasPid(s: Sys, pid: int) {
    exists p :: p in s.pcb && s.pcb[p].pid == pid
  }

  ghost predicate IsDelivered(log: seq<Event>, pid: int) {
    exists code :: Delivered(pid, code) in log
  }

  /** A process that has exited keeps its control block until its code is delivered. */
  ghost predicate Accounted(s: Sys, log: seq<Event>) {
    forall e :: e in log && e.Exited? ==> HasPid(s, e.pid) || IsDelivered(log, e.pid)
  }

  lemma QuietHasPid(s: Sys, t: Sys, pid: int)
    requires Quiet(s, t) && HasPid(s, pid)
    ensures HasPid(t, pid)
  {
    var p :| p in s.pcb && s.pcb[p].pid == pid;
    assert p in t.pcb;
  }

  lemma ResumeHasPid(s: Sys, w: int, pid: int)
    requires Inv(s) && HasPid(s, pid)
    ensures HasPid(WaitResume(s, w).0, pid) || IsDelivered(WaitEvents(w, WaitResume(s, w).1), pid)
  {
    var (t, r) := WaitResume(s, w);
    var p :| p in s.pcb && s.pcb[p].pid == pid;
    if p in t.pcb {
      assert t.pcb[p].pid == pid;
    } else {
      assert Delivered(pid, r.code) in WaitEvents(w, r);
    }
  }

  lemma StepHasPid(s: Sys, op: Op, pid: int)
    requires Inv(s) && Legal(s, op) && HasPid(s, pid)
    ensures HasPid(Step(s, op), pid) || IsDelivered(Events(s, op), pid)
  {
    match op
    case ResumeOp(w) => ResumeHasPid(s, w, pid);
    case WaitOp(w) =>
      if WaitBegin(s, w).1.Collected? {
        ResumeHasPid(s, w, pid);
      } else {
        StepQuiet(s, op);
        QuietHasPid(s, Step(s, op), pid);
      }
    case ExitOp(code) => if s.pcb[s.current].pid != 0 { ExitHasPid(s, code, pid); }
    case _ =>
      StepQuiet(s, op);
      QuietHasPid(s, Step(s, op), pid);
  }

  lemma ExitHasPid(s: Sys, code: int, pid: int)
    requires Inv(s) && s.pcb[s.current].pid != 0 && HasPid(s, pid)
    ensures HasPid(Exit(s, code), pid)
  {
    var p :| p in s.pcb && s.pcb[p].pid == pid;
    assert MarkExited(s, code).pcb[p].pid == pid;
    ExitQuiet(s, code);
    QuietHasPid(MarkExited(s, code), Exit(s, code), pid);
  }

  lemma StepAccounted(s: Sys, op: Op, log: seq<Event>)
    requires Inv(s) && Legal(s, op) && Accounted(s, log)
    ensures Accounted(Step(s, op), log + Events(s, op))
  {
    var t, log' := Step(s, op), log + Events(s, op);
    forall e | e in log' && e.Exited? ensures HasPid(t, e.pid) || IsDelivered(log', e.pid) {
      if e in log && IsDelivered(log, e.pid) {
        var c :| Delivered(e.pid, c) in log;
        assert Delivered(e.pid, c) in log';
      } else {
        assert HasPid(s, e.pid);
        StepHasPid(s, op, e.pid);
        if IsDelivered(Events(s, op), e.pid) {
          var c :| Delivered(e.pid, c) in Events(s, op);
          assert Delivered(e.pid, c) in log';
        }
      }
    }
  }

  ghost predicate Sound(s: Sys, log: seq<Event>) {
    Matches(s, log) && Consistent(log) && Accounted(s, log)
  }

  /** A look-up by `process_wait` returns 0 with a code if and only if its target exited with that
      code and no wait has delivered it yet. In particular a waiter that was woken by some other
      process's exit gets -1. */
  lemma WaitReturnsZeroIff(s: Sys, log: seq<Event>, pid: int, code: int)
    requires Inv(s) && Sound(s, log)
    ensures WaitResume(s, pid).1 == Collected(code) <==> Exited(pid, code) in log && !IsDelivered(log, pid)
  {
    if Exited(pid, code) in log && !IsDelivered(log, pid) {
      assert HasPid(s, pid);
      var p :| p in s.pcb && s.pcb[p].pid == pid;
      FindsPid(s, p);
      assert s.pcb[p].state == Terminated;
      OneExit(log, pid, code, s.pcb[p].exitCode);
    }
  }

  /** A call of `process_wait` by a process other than idle and its target returns 0 at once with a
      code if and only if the target exited with it and no wait has delivered it, blocks if and
      only if the target exists and has not exited, and returns -1 if and only if there is no such
      process. Idle, and a process that waits for itself, get -1. */
  lemma WaitBeginIff(s: Sys, log: seq<Event>, pid: int)
    requires Inv(s) && Sound(s, log)
    ensures var r := WaitBegin(s, pid).1;
            if s.pcb[s.current].pid == 0 || s.pcb[s.current].pid == pid then r == Failed
            else
              && (forall code :: r == Collected(code) <==> Exited(pid, code) in log && !IsDelivered(log, pid))
              && (r == Waiting <==> HasPid(s, pid) && forall code :: Exited(pid, code) !in log)
              && (r == Failed <==> !HasPid(s, pid))
  {
    if s.pcb[s.current].pid != 0 && s.pcb[s.current].pid != pid {
      forall code
        ensures WaitResume(s, pid).1 == Collected(code) <==> Exited(pid, code) in log && !IsDelivered(log, pid)
      {
        WaitReturnsZeroIff(s, log, pid, code);
      }
      if HasPid(s, pid) {
        var p :| p in s.pcb && s.pcb[p].pid == pid;
        FindsPid(s, p);
      }
    }
  }

  /** What a wait leaves behind: a failure nothing, a block what `scheduler_block` leaves, and a
      collection the system without the target. */
  lemma WaitLeaves(s: Sys, pid: int)
    requires Inv(s)
    ensures var (t, r) := WaitBegin(s, pid);
            match r
            case Failed => t == s
            case Waiting => t == Block(s)
            case Collected(code) => Collects(s, t, pid, code)
    ensures var (t, r) := WaitResume(s, pid);
            match r
            case Failed => t == s
            case Waiting => false
            case Collected(code) => Collects(s, t, pid, code)
  {
    var p := FindPid(s, pid, 0);
    if p != NULL && s.pcb[p].state == Terminated { ReapKeeps(s, p); }
  }

  /** The process `pid` had exited with this code and is the one that is gone. */
  ghost predicate Collects(s: Sys, t: Sys, pid: int, code: int)
    requires Wf(s)
  {
    exists p :: p in s.pcb && s.pcb[p].pid == pid && s.pcb[p].state == Terminated && s.pcb[p].exitCode == code
                && t == Reap(s, p)
  }

  lemma FindsPid(s: Sys, p: int)
    requires Inv(s) && p in s.pcb
    ensures FindPid(s, s.pcb[p].pid, 0) == p
  {
    assert p in s.task;
    var j :| 0 <= j < MAX_TASKS && s.task[j] == p;
    var q := FindPid(s, s.pcb[p].pid, 0);
    assert q != NULL;
    assert s.pcb[q].pid == s.pcb[p].pid;
  }

  lemma OneExit(log: seq<Event>, pid: int, a: int, b: int)
    requires Once(log) && Exited(pid, a) in log && Exited(pid, b) in log
    ensures a == b
  {
    var i :| 0 <= i < |log| && log[i] == Exited(pid, a);
    var j :| 0 <= j < |log| && log[j] == Exited(pid, b);
  }

  lemma StepSound(s: Sys, op: Op, log: seq<Event>)
    requires Inv(s) && Legal(s, op) && Sound(s, log)
    ensures Inv(Step(s, op)) && Sound(Step(s, op), log + Events(s, op))
  {
    StepKeeps(s, op);
    StepMatches(s, op, log);
    StepAccounted(s, op, log);
  }

  lemma Regroup(a: seq<Event>, b: seq<Event>, c: seq<Event>)
    ensures a + (b + c) == (a + b) + c
  {}

  lemma {:induction false} LogSound(s: Sys, ops: seq<Op>, log: seq<Event>)
    requires Inv(s) && LegalRun(s, ops) && Sound(s, log)
    ensures Sound(Run(s, ops), log + Log(s, ops))
    decreases |ops|
  {
    if ops == [] {
      assert log + Log(s, ops) == log;
    } else {
      Regroup(log, Events(s, ops[0]), Log(Step(s, ops[0]), ops[1..]));
      StepSound(s, ops[0], log);
      LogSound(Step(s, ops[0]), ops[1..], log + Events(s, ops[0]));
    }
  }

  /** In every run from `process_init`: a wait that returns 0 delivers exactly the code passed
      to that process's exit, at most one wait per pid ever does, what still has a control block
      is undelivered, and no exit is forgotten. */
  lemma WaitDelivers(idle: int, ops: seq<Op>)
    requires idle != NULL && LegalRun(InitialSys(idle), ops)
    ensures Consistent(Log(InitialSys(idle), ops))
    ensures Sound(Run(InitialSys(idle), ops), Log(InitialSys(idle), ops))
  {
    var s := InitialSys(idle);
    InitialInv(idle);
    LogSound(s, ops, []);
    assert [] + Log(s, ops) == Log(s, ops);
  }

  /** The same, at the end of every run: the next look-up for `pid` returns 0 with `code` if and
      only if the history holds that exit and no delivery of it. */
  lemma RunWaitReturnsZeroIff(idle: int, ops: seq<Op>, pid: int, code: int)
    requires idle != NULL && LegalRun(InitialSys(idle), ops)
    ensures var s, log := Run(InitialSys(idle), ops), Log(InitialSys(idle), ops);
            Inv(s) && (WaitResume(s, pid).1 == Collected(code) <==> Exited(pid, code) in log && !IsDelivered(log, pid))
  {
    InitialInv(idle);
    RunKeeps(InitialSys(idle), ops);
    WaitDelivers(idle, ops);
    WaitReturnsZeroIff(Run(InitialSys(idle), ops), Log(InitialSys(idle), ops), pid, code);
  }
}
