/**
 Runs in which every wait is tied to the process that called it: a process that blocked in
 `process_wait` does nothing, when it runs again, but finish that call.
 */
module PendingWait {
  import opened Machine
  import opened ProcessSpec
  import opened Fifo
  import opened ExitWait

  /** A `process_wait(pid)` that blocked when the history was `since` events long. */
  datatype Wait = Wait(pid: int, since: nat)

  /** The processes, the waits that have not returned, by their caller, and the history. */
  datatype Config = Config(s: Sys, waits: map<int, Wait>, log: seq<Event>)

  ghost function WaitsAfter(c: Config, op: Op): map<int, Wait>
    requires Wf(c.s)
  {
    match op
    case WaitOp(pid) =>
      if WaitBegin(c.s, pid).1 == Waiting then c.waits[c.s.current := Wait(pid, |c.log|)] else c.waits
    case ResumeOp(_) => c.waits - {c.s.current}
    case _ => c.waits
  }

  ghost function Next(c: Config, op: Op): Config
    requires Wf(c.s)
  {
    Config(Step(c.s, op), WaitsAfter(c, op), c.log + Events(c.s, op))
  }

  /** A process with a blocked wait can only be interrupted, by a tick or by a wake, or finish the
      call; a process without one has nothing to finish. */
  ghost predicate Allowed(c: Config, op: Op)
    requires Wf(c.s)
  {
    && Legal(c.s, op)
    && if c.s.current in c.waits then op == ResumeOp(c.waits[c.s.current].pid) || op.TickOp? || op.WakeOp?
       else !op.ResumeOp?
  }

  ghost predicate AllowedRun(c: Config, ops: seq<Op>)
    decreases |ops|
  {
    ops == [] || (Wf(c.s) ==> Allowed(c, ops[0]) && AllowedRun(Next(c, ops[0]), ops[1..]))
  }

  ghost function RunOf(c: Config, ops: seq<Op>): Config
    decreases |ops|
  {
    if ops == [] || !Wf(c.s) then c else RunOf(Next(c, ops[0]), ops[1..])
  }

  function Boot(idle: int): Config
    requires idle != NULL
  {
    Config(InitialSys(idle), map[], [])
  }

  // ---------------------------------------------------------------- the invariant

  ghost predicate Living(s: Sys, q: int) {
    q in s.pcb && s.pcb[q].state != Terminated
  }

  /** The caller is alive, and nothing about its target had happened when it blocked. */
  ghost predicate Waits(c: Config, q: int)
    requires q in c.waits
  {
    && Living(c.s, q) && c.waits[q].since <= |c.log|
    && forall j :: 0 <= j < c.waits[q].since ==> c.log[j].pid != c.waits[q].pid
  }

  ghost predicate Tied(c: Config) {
    && Inv(c.s) && Sound(c.s, c.log)
    && forall q :: q in c.waits ==> Waits(c, q)
  }

  lemma StepLiving(s: Sys, op: Op, q: int)
    requires Inv(s) && Legal(s, op) && Living(s, q) && (op.ExitOp? ==> q != s.current)
    ensures Living(Step(s, op), q)
  {
    if op.ExitOp? && s.pcb[s.current].pid != 0 {
      ExitQuiet(s, op.code);
      assert SameLife(MarkExited(s, op.code).pcb[q], Step(s, op).pcb[q]);
    } else if op.ResumeOp? || Events(s, op) != [] {
      ResumeLiving(s, op.pid, q);
    } else {
      StepQuiet(s, op);
      assert SameLife(s.pcb[q], Step(s, op).pcb[q]);
    }
  }

  lemma ResumeLiving(s: Sys, pid: int, q: int)
    requires Inv(s) && Living(s, q)
    ensures Living(WaitResume(s, pid).0, q)
  {}

  /** At the moment a wait blocks, its target is alive, so the history does not mention it. */
  lemma TargetUnseen(s: Sys, log: seq<Event>, pid: int)
    requires Inv(s) && Matches(s, log) && WaitBegin(s, pid).1 == Waiting
    ensures forall e :: e in log ==> e.pid != pid
  {
    var p := FindPid(s, pid, 0);
    assert p in s.pcb && s.pcb[p].pid == pid && s.pcb[p].state != Terminated;
  }

  lemma NextTied(c: Config, op: Op)
    requires Tied(c) && Allowed(c, op)
    ensures Tied(Next(c, op))
  {
    StepSound(c.s, op, c.log);
    var d := Next(c, op);
    forall q | q in d.waits ensures Waits(d, q) {
      NextWaits(c, op, q);
    }
  }

  lemma NextWaits(c: Config, op: Op, q: int)
    requires Tied(c) && Allowed(c, op) && q in Next(c, op).waits
    ensures Waits(Next(c, op), q)
  {
    if q in c.waits && !(op.WaitOp? && q == c.s.current) {
      assert Waits(c, q);
      StepLiving(c.s, op, q);
    } else {
      StepLiving(c.s, op, q);
      TargetUnseen(c.s, c.log, op.pid);
    }
  }

  lemma {:induction false} RunTied(c: Config, ops: seq<Op>)
    requires Tied(c) && AllowedRun(c, ops)
    ensures Tied(RunOf(c, ops))
    decreases |ops|
  {
    if ops != [] {
      NextTied(c, ops[0]);
      RunTied(Next(c, ops[0]), ops[1..]);
    }
  }

  // ---------------------------------------------------------------- what a wait returns

  /** What happened since the call blocked. */
  ghost function Since(c: Config, q: int): seq<Event>
    requires q in c.waits && c.waits[q].since <= |c.log|
  {
    c.log[c.waits[q].since..]
  }

  lemma SinceHolds(c: Config, q: int, e: Event)
    requires q in c.waits && Waits(c, q) && e.pid == c.waits[q].pid
    ensures e in c.log <==> e in Since(c, q)
  {
    if e in c.log {
      var j :| 0 <= j < |c.log| && c.log[j] == e;
      assert Since(c, q)[j - c.waits[q].since] == e;
    }
  }

  /** In every run from `process_init`, when a process finishes a wait that blocked: it returns 0
      with a code if and only if its target has exited with that code since the call and nobody
      else has collected it; and -1 if and only if the target has not exited since, so that
      something else woke the caller, or somebody else has collected it. */
  lemma WaitOutcome(idle: int, ops: seq<Op>, code: int)
    requires idle != NULL && AllowedRun(Boot(idle), ops)
    requires var c := RunOf(Boot(idle), ops); c.s.current in c.waits
    ensures var c := RunOf(Boot(idle), ops);
            var q := c.s.current;
            && Tied(c)
            && (WaitResume(c.s, c.waits[q].pid).1 == Collected(code) <==>
                  Exited(c.waits[q].pid, code) in Since(c, q) && !IsDelivered(Since(c, q), c.waits[q].pid))
            && (WaitResume(c.s, c.waits[q].pid).1 == Failed <==>
                  (forall n :: Exited(c.waits[q].pid, n) !in Since(c, q)) || IsDelivered(Since(c, q), c.waits[q].pid))
  {
    BootTied(idle);
    RunTied(Boot(idle), ops);
    var c := RunOf(Boot(idle), ops);
    assert Waits(c, c.s.current);
    ReturnsIff(c, c.s.current);
  }

  lemma BootTied(idle: int)
    requires idle != NULL
    ensures Tied(Boot(idle))
  {
    InitialInv(idle);
  }

  lemma ReturnsIff(c: Config, q: int)
    requires Tied(c) && q in c.waits && Waits(c, q)
    ensures var pid := c.waits[q].pid;
            && (forall code :: WaitResume(c.s, pid).1 == Collected(code) <==>
                  Exited(pid, code) in Since(c, q) && !IsDelivered(Since(c, q), pid))
            && (WaitResume(c.s, pid).1 == Failed <==>
                  (forall code :: Exited(pid, code) !in Since(c, q)) || IsDelivered(Since(c, q), pid))
  {
    var pid := c.waits[q].pid;
    forall code
      ensures WaitResume(c.s, pid).1 == Collected(code) <==> Exited(pid, code) in Since(c, q) && !IsDelivered(c.log, pid)
    {
      WaitReturnsZeroIff(c.s, c.log, pid, code);
      SinceHolds(c, q, Exited(pid, code));
    }
    DeliveredSince(c, q);
  }

  lemma DeliveredSince(c: Config, q: int)
    requires q in c.waits && Waits(c, q)
    ensures IsDelivered(c.log, c.waits[q].pid) <==> IsDelivered(Since(c, q), c.waits[q].pid)
  {
    var pid := c.waits[q].pid;
    forall code ensures Delivered(pid, code) in c.log <==> Delivered(pid, code) in Since(c, q) {
      SinceHolds(c, q, Delivered(pid, code));
    }
  }
}
