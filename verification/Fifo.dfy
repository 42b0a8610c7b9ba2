/**
 Runs under the FIFO scheduler: what every interleaving of create, tick, schedule, block,
 wake, exit and wait keeps.
 */
module Fifo {
  import opened Machine
  import opened SeqFacts
  import opened ProcessSpec

  const MAX_PID := 0x7FFF_FFFF

  datatype Op =
    | CreateOp(hasEntry: bool, priority: nat, alloc: Alloc)
    | TickOp
    | YieldOp
    | BlockOp
    | WakeOp(p: int)
    | ExitOp(code: int)
    | WaitOp(pid: int)
    | ResumeOp(pid: int)

  function Step(s: Sys, op: Op): Sys
    requires Wf(s)
  {
    match op
    case CreateOp(e, prio, a) => Create(s, e, prio, a).0
    case TickOp => Tick(s)
    case YieldOp => Schedule(s)
    case BlockOp => Block(s)
    case WakeOp(p) => if p in s.pcb then Wake(s, p) else s
    case ExitOp(code) => Exit(s, code)
    case WaitOp(pid) => WaitBegin(s, pid).0
    case ResumeOp(pid) => WaitResume(s, pid).0
  }

  /** What the caller has to see to: the allocator hands out unused addresses, the pid
      counter has not run out, only pointers to existing processes are woken, and idle
      does not block. */
  ghost predicate Legal(s: Sys, op: Op)
    requires Wf(s)
  {
    match op
    case CreateOp(_, _, a) => FreshAlloc(s, a) && s.nextPid < MAX_PID
    case WakeOp(p) => p == NULL || p in s.pcb
    case BlockOp => s.pcb[s.current].pid != 0
    case _ => true
  }

  // ---------------------------------------------------------------- the invariant

  /** The table holds every control block exactly once, idle in slot 0; pids are distinct;
      the count is one more than the highest occupied slot. */
  ghost predicate Table(s: Sys) {
    && Wf(s)
    && (forall i, j :: 0 <= i < j < MAX_TASKS && s.task[i] != NULL ==> s.task[i] != s.task[j])
    && (forall p {:trigger p in s.task} :: p in s.pcb ==> p in s.task)
    && 1 <= s.taskCount && s.task[s.taskCount - 1] != NULL
    && s.task[0] != NULL && s.pcb[s.task[0]].pid == 0
    && (forall p {:trigger s.pcb[p].pid} :: p in s.pcb ==> 0 <= s.pcb[p].pid < s.nextPid)
    && (forall p, q {:trigger s.pcb[p].pid, s.pcb[q].pid} ::
          p in s.pcb && q in s.pcb && p != q ==> s.pcb[p].pid != s.pcb[q].pid)
  }

  /** The queue holds exactly the ready processes, once each. */
  ghost predicate Queued(s: Sys) {
    && Distinct(s.queue)
    && forall p :: p in s.queue <==> p in s.pcb && s.pcb[p].state == Ready
  }

  ghost predicate Sole(s: Sys) {
    forall p :: p in s.pcb && s.pcb[p].state == Running ==> p == s.current
  }

  ghost predicate IdleUp(s: Sys)
    requires Table(s)
  {
    s.pcb[s.task[0]].state == Ready || s.pcb[s.task[0]].state == Running
  }

  ghost predicate Slices(s: Sys) {
    forall p :: p in s.pcb ==> s.pcb[p].counter <= 4 && s.pcb[p].priority < 5
  }

  /** What holds in the middle of an operation too. */
  ghost predicate Core(s: Sys) {
    Table(s) && Queued(s) && Sole(s) && IdleUp(s) && Slices(s)
  }

  ghost predicate Inv(s: Sys) {
    Core(s) && s.pcb[s.current].state == Running
  }

  // ---------------------------------------------------------------- one scheduling decision

  /** With something else queued, `schedule` runs the head of the queue and puts the
      preempted process, if it was running, at the end. */
  lemma ScheduleShape(s: Sys)
    requires Wf(s) && Queued(s) && s.queue != [] && s.queue[0] != s.current
    ensures var next := s.queue[0];
            var was := s.pcb[s.current].state == Running;
            && Schedule(s).current == next
            && Schedule(s).queue == s.queue[1..] + (if was then [s.current] else [])
            && Schedule(s).pcb ==
               (if was then s.pcb[s.current := s.pcb[s.current].(state := Ready)] else s.pcb)
               [next := s.pcb[next].(state := Running)]
            && Schedule(s).task == s.task && Schedule(s).taskCount == s.taskCount
            && Schedule(s).nextPid == s.nextPid
  {}

  /** Changing states and counters leaves the table facts alone. */
  lemma TableKept(s: Sys, t: Sys)
    requires Table(s) && t.task == s.task && t.taskCount == s.taskCount && t.nextPid == s.nextPid
    requires t.pcb.Keys == s.pcb.Keys && t.current in t.pcb && forall p :: p in t.queue ==> p in t.pcb
    requires forall p :: p in s.pcb ==> t.pcb[p].pid == s.pcb[p].pid
    ensures Table(t)
  {}

  lemma RotateQueue(q: seq<int>, p: int)
    requires Distinct(q) && q != [] && p !in q
    ensures Distinct(q[1..]) && Distinct(q[1..] + [p])
    ensures forall x :: x in q[1..] <==> x in q && x != q[0]
  {}

  lemma ScheduleQueued(s: Sys)
    requires Wf(s) && Queued(s) && s.queue != [] && s.queue[0] != s.current && s.pcb[s.current].state != Ready
    ensures Queued(Schedule(s))
  {
    ScheduleShape(s);
    RotateQueue(s.queue, s.current);
    var t := Schedule(s);
    assert s.queue[0] in s.queue;
    assert s.queue[1..] + [] == s.queue[1..];
    assert forall p :: p in t.queue <==> p in s.queue[1..] || (s.pcb[s.current].state == Running && p == s.current);
  }

  lemma ScheduleSole(s: Sys)
    requires Wf(s) && Queued(s) && Sole(s) && s.queue != [] && s.queue[0] != s.current
    ensures Sole(Schedule(s)) && Schedule(s).pcb[Schedule(s).current].state == Running
  {}

  lemma ScheduleTable(s: Sys)
    requires Table(s) && Queued(s) && s.queue != [] && s.queue[0] != s.current && s.pcb[s.current].state != Ready
    ensures Table(Schedule(s))
  {
    ScheduleShape(s);
    assert s.queue[0] in s.queue;
    TableKept(s, Schedule(s));
  }

  lemma ScheduleIdle(s: Sys)
    requires Table(s) && Queued(s) && s.queue != [] && s.queue[0] != s.current && s.pcb[s.current].state != Ready
    ensures Table(Schedule(s)) && (IdleUp(s) ==> IdleUp(Schedule(s)))
  {
    ScheduleTable(s);
    ScheduleShape(s);
  }

  lemma ScheduleSlices(s: Sys)
    requires Wf(s) && Queued(s) && Slices(s) && s.queue != [] && s.queue[0] != s.current
    ensures Slices(Schedule(s))
  {}

  /** From any intermediate state in which `current` is not among the queued, `schedule`
      re-establishes the invariant, and it always leaves a process that is not running. */
  lemma ScheduleKeeps(s: Sys)
    requires Core(s) && s.pcb[s.current].state != Ready
    ensures Inv(Schedule(s))
    ensures s.pcb[s.current].state != Running ==> s.queue != [] && Schedule(s).current == s.queue[0] != s.current
  {
    if s.queue == [] {
      assert s.task[0] !in s.queue;
    } else {
      assert s.queue[0] in s.queue;
      ScheduleShape(s);
      ScheduleQueued(s);
      ScheduleSole(s);
      ScheduleIdle(s);
      ScheduleSlices(s);
    }
  }

  // ---------------------------------------------------------------- each operation

  lemma ChargeKeeps(s: Sys)
    requires Inv(s)
    ensures Inv(Charge(s))
  {}

  lemma TickKeeps(s: Sys)
    requires Inv(s)
    ensures Inv(Tick(s))
  {
    ChargeKeeps(s);
    ScheduleKeeps(Charge(s));
  }

  /** A process other than idle gives up the processor for good or until woken. */
  lemma StopKeeps(s: Sys, q: Proc)
    requires Inv(s) && s.pcb[s.current].pid != 0
    requires q.state == Blocked || q.state == Terminated
    requires var c := s.pcb[s.current]; q.pid == c.pid && q.counter == c.counter && q.priority == c.priority
    ensures Core(s.(pcb := s.pcb[s.current := q]))
  {
    TableKept(s, s.(pcb := s.pcb[s.current := q]));
  }

  lemma BlockKeeps(s: Sys)
    requires Inv(s) && s.pcb[s.current].pid != 0
    ensures Inv(Block(s)) && s.queue != [] && Block(s).current == s.queue[0] != s.current
    ensures Block(s).queue == s.queue[1..]
    ensures Block(s).pcb[s.current] == s.pcb[s.current].(state := Blocked)
  {
    var b := SetState(s, s.current, Blocked);
    StopKeeps(s, b.pcb[s.current]);
    ScheduleKeeps(b);
    ScheduleShape(b);
  }

  lemma WakeKeeps(s: Sys, p: int)
    requires Core(s) && p in s.pcb
    ensures Core(Wake(s, p))
    ensures Wake(s, p).queue == if s.pcb[p].state == Blocked then s.queue + [p] else s.queue
    ensures Wake(s, p).pcb[p].state == if s.pcb[p].state == Blocked then Ready else s.pcb[p].state
    ensures s.pcb[s.current].state != Blocked ==> Wake(s, p).pcb[s.current] == s.pcb[s.current]
  {
    if s.pcb[p].state == Blocked {
      var t := Wake(s, p);
      assert p !in s.queue;
      assert t.queue == s.queue + [p];
      DistinctInsert(s.queue, |s.queue|, p);
      assert s.queue[..|s.queue|] + [p] + s.queue[|s.queue|..] == t.queue;
      TableKept(s, t);
    }
  }

  /** One round of the loop that wakes blocked processes. */
  lemma WakeRound(s: Sys, i: nat) returns (t: Sys)
    requires Core(s) && s.pcb[s.current].state != Blocked && i < s.taskCount
    ensures t == if s.task[i] != NULL && s.pcb[s.task[i]].state == Blocked && s.pcb[s.task[i]].pid > 0
                 then Wake(s, s.task[i]) else s
    ensures Core(t) && WakeFrom(s, i) == WakeFrom(t, i + 1)
    ensures t.current == s.current && t.pcb[s.current] == s.pcb[s.current] && t.taskCount == s.taskCount
    ensures s.queue <= t.queue
  {
    t := s;
    if s.task[i] != NULL && s.pcb[s.task[i]].state == Blocked && s.pcb[s.task[i]].pid > 0 {
      WakeKeeps(s, s.task[i]);
      t := Wake(s, s.task[i]);
    }
  }

  lemma {:induction false} WakeFromKeeps(s: Sys, i: nat)
    requires Core(s) && s.pcb[s.current].state != Blocked
    ensures Core(WakeFrom(s, i))
    ensures s.queue <= WakeFrom(s, i).queue
    ensures WakeFrom(s, i).pcb[s.current] == s.pcb[s.current]
    decreases s.taskCount - i
  {
    if i < s.taskCount {
      var t := WakeRound(s, i);
      WakeFromKeeps(t, i + 1);
    }
  }

  /** The state in which `process_exit` calls the scheduler. */
  lemma ExitMiddle(s: Sys, code: int)
    requires Inv(s) && s.pcb[s.current].pid != 0
    ensures var w := WakeFrom(MarkExited(s, code), 0);
            && Core(w) && Exit(s, code) == Schedule(w)
            && s.queue != [] && s.queue <= w.queue
            && w.current == s.current && w.pcb[w.current].state == Terminated
  {
    var t := MarkExited(s, code);
    assert s.current !in s.queue;
    assert t.(queue := Unqueue(t.queue, t.current)) == t;
    StopKeeps(s, t.pcb[s.current]);
    WakeFromKeeps(t, 0);
    assert s.task[0] in s.queue;
  }

  lemma ExitKeeps(s: Sys, code: int)
    requires Inv(s)
    ensures Inv(Exit(s, code))
    ensures s.pcb[s.current].pid != 0 ==> s.queue != [] && Exit(s, code).current == s.queue[0] != s.current
  {
    if s.pcb[s.current].pid != 0 {
      ExitMiddle(s, code);
      ScheduleKeeps(WakeFrom(MarkExited(s, code), 0));
    }
  }

  /** An exit hands the processor to the head of the queue; whom it wakes comes last. */
  lemma ExitShape(s: Sys, code: int)
    requires Inv(s) && s.pcb[s.current].pid != 0
    ensures var t, w := Exit(s, code), WakeFrom(MarkExited(s, code), 0);
            && s.queue != [] && s.queue <= w.queue && s.queue[0] in w.pcb
            && t.current == s.queue[0] && t.queue == w.queue[1..]
            && t.pcb == w.pcb[s.queue[0] := w.pcb[s.queue[0]].(state := Running)]
  {
    ExitMiddle(s, code);
    var w := WakeFrom(MarkExited(s, code), 0);
    assert s.queue[0] in s.queue && w.queue[0] == s.queue[0];
    ScheduleShape(w);
  }

  lemma {:induction false} WakeFromAll(s: Sys, i: nat, j: nat)
    requires Wf(s) && i <= j < s.taskCount && s.task[j] != NULL && s.pcb[s.task[j]].pid > 0
    ensures WakeFrom(s, i).pcb[s.task[j]].state != Blocked
    decreases s.taskCount - i
  {
    var w := if s.task[i] != NULL && s.pcb[s.task[i]].state == Blocked && s.pcb[s.task[i]].pid > 0
             then Wake(s, s.task[i]) else s;
    if i == j { WakeFromEffect(w, i + 1); } else { WakeFromAll(w, i + 1, j); }
  }

  lemma ExitWakes(s: Sys, code: int, p: int)
    requires Inv(s) && s.pcb[s.current].pid != 0 && p in s.pcb
    ensures WakeFrom(MarkExited(s, code), 0).pcb[p].state != Blocked
  {
    var m := MarkExited(s, code);
    assert p in s.task;
    var j :| 0 <= j < MAX_TASKS && s.task[j] == p;
    if j != 0 {
      assert s.pcb[p].pid != s.pcb[s.task[0]].pid;
      WakeFromAll(m, 0, j);
    } else {
      WakeFromEffect(m, 0);
    }
  }

  /** An exit leaves nobody blocked: whoever waits for it is ready again. */
  lemma ExitWakesEveryone(s: Sys, code: int)
    requires Inv(s) && s.pcb[s.current].pid != 0
    ensures forall p :: p in Exit(s, code).pcb ==> Exit(s, code).pcb[p].state != Blocked
  {
    ExitShape(s, code);
    forall p | p in s.pcb ensures WakeFrom(MarkExited(s, code), 0).pcb[p].state != Blocked {
      ExitWakes(s, code, p);
    }
  }

  lemma CreateTable(s: Sys, priority: nat, p: int)
    requires Table(s) && FreshAlloc(s, Granted(p)) && s.taskCount < MAX_TASKS
    ensures Table(Create(s, true, priority, Granted(p)).0)
  {
    var t := Create(s, true, priority, Granted(p)).0;
    var k := EmptySlot(s.task, 0);
    assert s.task[s.taskCount] == NULL;
    assert k <= s.taskCount;
    assert t.task == s.task[k := p];
    forall q | q in t.pcb ensures q in t.task {
      if q == p {
        assert t.task[k] == p;
      } else {
        assert q in s.task;
        var i :| 0 <= i < MAX_TASKS && s.task[i] == q;
        assert t.task[i] == q;
      }
    }
  }

  lemma CreateQueued(s: Sys, priority: nat, p: int)
    requires Wf(s) && Queued(s) && FreshAlloc(s, Granted(p)) && s.taskCount < MAX_TASKS
    ensures var t := Create(s, true, priority, Granted(p)).0;
            Queued(t) && t.queue == s.queue + [p]
  {
    assert p !in s.queue;
    DistinctInsert(s.queue, |s.queue|, p);
    assert s.queue[..|s.queue|] + [p] + s.queue[|s.queue|..] == s.queue + [p];
  }

  lemma CreateKeeps(s: Sys, e: bool, priority: nat, a: Alloc)
    requires Inv(s) && FreshAlloc(s, a)
    ensures Inv(Create(s, e, priority, a).0)
    ensures s.queue <= Create(s, e, priority, a).0.queue
  {
    if e && s.taskCount < MAX_TASKS && a.Granted? {
      CreateTable(s, priority, a.ptr);
      CreateQueued(s, priority, a.ptr);
    }
  }

  /** Creation succeeds exactly when there is an entry point, the table is not full and every
      allocation is granted. It then takes the lowest empty slot, a pid nobody has, and the end
      of the queue; a failure after the control block was allocated still uses up a pid. */
  lemma CreateSucceedsIff(s: Sys, e: bool, priority: nat, a: Alloc)
    requires Inv(s) && FreshAlloc(s, a)
    ensures var (t, pid) := Create(s, e, priority, a);
            && (pid != -1 <==> e && s.taskCount < MAX_TASKS && a.Granted?)
            && (pid == -1 ==> t == s.(nextPid := if e && s.taskCount < MAX_TASKS && a.Partial? then s.nextPid + 1 else s.nextPid))
            && (pid != -1 ==>
                  && (forall p :: p in s.pcb ==> p in t.pcb && t.pcb[p] == s.pcb[p] && s.pcb[p].pid != pid)
                  && t.pcb.Keys == s.pcb.Keys + {a.ptr} && pid == s.nextPid && t.nextPid == s.nextPid + 1
                  && (var prio := if priority <= 4 then priority else 4;
                      t.pcb[a.ptr] == Proc(pid, Ready, prio, if prio == 0 then 0 else 5 - prio, 0))
                  && t.queue == s.queue + [a.ptr] && t.current == s.current
                  && (exists k :: 0 <= k < MAX_TASKS && t.task == s.task[k := a.ptr] && s.task[k] == NULL
                                  && forall j :: 0 <= j < k ==> s.task[j] != NULL))
  {
    if e && s.taskCount < MAX_TASKS && a.Granted? {
      assert s.task[s.taskCount] == NULL;
      assert EmptySlot(s.task, 0) < MAX_TASKS;
    }
  }

  /** The recount finds one more than the highest occupied slot. */
  lemma ReapCount(s: Sys, p: int)
    requires Table(s) && p in s.pcb && p != s.task[0]
    ensures var t := Reap(s, p);
            && |t.task| == MAX_TASKS && t.task[0] == s.task[0] && p !in t.task
            && 1 <= t.taskCount <= MAX_TASKS && t.task[t.taskCount - 1] != NULL
            && (forall i :: t.taskCount <= i < MAX_TASKS ==> t.task[i] == NULL)
            && (forall i :: 0 <= i < MAX_TASKS ==> t.task[i] == if s.task[i] == p then NULL else s.task[i])
            && (forall q :: q in s.task && q != p ==> q in t.task)
  {}

  lemma ReapTable(s: Sys, p: int)
    requires Table(s) && p in s.pcb && p != s.task[0] && p != s.current && p !in s.queue
    ensures Table(Reap(s, p)) && Reap(s, p).task[0] == s.task[0]
    ensures p !in Reap(s, p).task
  {
    ReapCount(s, p);
  }

  /** A collected process is gone: not current, not queued, not in the table. */
  lemma ReapKeeps(s: Sys, p: int)
    requires Inv(s) && p in s.pcb && s.pcb[p].state == Terminated
    ensures Inv(Reap(s, p))
    ensures var t := Reap(s, p); p !in t.pcb && p != t.current && p !in t.queue && p !in t.task
  {
    ReapTable(s, p);
  }

  lemma ResumeKeeps(s: Sys, pid: int)
    requires Inv(s)
    ensures Inv(WaitResume(s, pid).0)
  {
    var p := FindPid(s, pid, 0);
    if p != NULL && s.pcb[p].state == Terminated { ReapKeeps(s, p); }
  }

  /** A wait on a process that has not terminated always gives up the processor. */
  lemma WaitSwitchesAway(s: Sys, pid: int)
    requires Inv(s) && WaitBegin(s, pid).1 == Waiting
    ensures Inv(WaitBegin(s, pid).0)
    ensures WaitBegin(s, pid).0.current != s.current
    ensures WaitBegin(s, pid).0.pcb[s.current].state == Blocked
  {
    BlockKeeps(s);
  }

  lemma StepKeeps(s: Sys, op: Op)
    requires Inv(s) && Legal(s, op)
    ensures Inv(Step(s, op))
  {
    match op
    case CreateOp(e, prio, a) => CreateKeeps(s, e, prio, a);
    case TickOp => TickKeeps(s);
    case YieldOp => ScheduleKeeps(s);
    case BlockOp => BlockKeeps(s);
    case WakeOp(p) => if p in s.pcb { WakeKeeps(s, p); }
    case ExitOp(code) => ExitKeeps(s, code);
    case WaitOp(pid) =>
      if WaitBegin(s, pid).1 == Waiting { BlockKeeps(s); } else { ResumeKeeps(s, pid); }
    case ResumeOp(pid) => ResumeKeeps(s, pid);
  }

  // ---------------------------------------------------------------- runs

  /** Every operation of the run meets its caller's duties. (`Wf` is never in question: the
      invariant includes it.) */
  ghost predicate LegalRun(s: Sys, ops: seq<Op>)
    decreases |ops|
  {
    ops == [] || (Wf(s) ==> Legal(s, ops[0]) && LegalRun(Step(s, ops[0]), ops[1..]))
  }

  ghost function Run(s: Sys, ops: seq<Op>): Sys
    decreases |ops|
  {
    if ops == [] || !Wf(s) then s else Run(Step(s, ops[0]), ops[1..])
  }

  lemma {:induction false} RunKeeps(s: Sys, ops: seq<Op>)
    requires Inv(s) && LegalRun(s, ops)
    ensures Inv(Run(s, ops))
    decreases |ops|
  {
    if ops != [] {
      StepKeeps(s, ops[0]);
      RunKeeps(Step(s, ops[0]), ops[1..]);
    }
  }

  /** `process_init` leaves idle alone, running, with pid 0, no priority and no slice, in slot 0. */
  lemma InitialInv(idle: int)
    requires idle != NULL
    ensures var s := InitialSys(idle);
            && Inv(s) && s.pcb == map[idle := Proc(0, Running, 0, 0, 0)] && s.current == idle && s.queue == []
            && s.task[0] == idle && s.taskCount == 1 && s.nextPid == 1
  {
    assert InitialSys(idle).task[0] == idle;
  }

  /** Every run from `process_init`: exactly `current` is running and it is not queued, the
      queue holds exactly the ready processes once each, idle is current or queued, pids are
      distinct, the count is one more than the highest occupied slot, and creation below the
      limit finds an empty slot. */
  lemma RunSafe(idle: int, ops: seq<Op>)
    requires idle != NULL && LegalRun(InitialSys(idle), ops)
    ensures var s := Run(InitialSys(idle), ops);
            && Wf(s)
            && (forall p :: p in s.pcb ==> (s.pcb[p].state == Running <==> p == s.current))
            && s.current !in s.queue && Distinct(s.queue)
            && (forall p :: p in s.queue <==> p in s.pcb && s.pcb[p].state == Ready)
            && (s.task[0] == s.current || s.task[0] in s.queue) && s.pcb[s.task[0]].pid == 0
            && (forall p, q :: p in s.pcb && q in s.pcb && s.pcb[p].pid == s.pcb[q].pid ==> p == q)
            && s.taskCount == Occupied(s.task, MAX_TASKS)
            && (s.taskCount < MAX_TASKS ==> EmptySlot(s.task, 0) < MAX_TASKS)
  {
    InitialInv(idle);
    RunKeeps(InitialSys(idle), ops);
    var s := Run(InitialSys(idle), ops);
    if s.taskCount < MAX_TASKS {
      assert s.task[s.taskCount] == NULL;
    }
  }

  /** Idle is never refused by `scheduler_block`, and that is the one way out of the
      invariant: blocking keeps it exactly when the caller is not idle. */
  lemma BlockKeepsUnlessIdle(s: Sys)
    requires Inv(s)
    ensures Inv(Block(s)) <==> s.pcb[s.current].pid != 0
  {
    if s.pcb[s.current].pid != 0 {
      BlockKeeps(s);
    } else {
      assert s.current == s.task[0];
      var t := SetState(s, s.current, Blocked);
      if s.queue != [] {
        assert s.queue[0] in s.queue;
        ScheduleShape(t);
      }
    }
  }
}
