/**
 What each operation of a FIFO run does to every process, to the table and to the queue, in
 closed form; and what follows for the time slices over every run.
 */
module FifoEffect {
  import opened Machine
  import opened SeqFacts
  import opened ProcessSpec
  import opened Fifo

  /** The table, the pids and the set of processes are as before. */
  ghost predicate SameTable(s: Sys, t: Sys) {
    && t.pcb.Keys == s.pcb.Keys && t.task == s.task && t.taskCount == s.taskCount && t.nextPid == s.nextPid
  }

  /** The processor goes to the head of the queue, with `stopped` in place of the current
      process's control block; every other control block is as before. */
  ghost predicate HandsOver(s: Sys, t: Sys, stopped: Proc) {
    && s.queue != [] && s.queue[0] != s.current && SameTable(s, t) && t.current == s.queue[0]
    && forall p :: p in s.pcb ==>
         t.pcb[p] == if p == s.current then stopped
                     else if p == s.queue[0] then s.pcb[p].(state := Running) else s.pcb[p]
  }

  // ---------------------------------------------------------------- scheduling

  /** `schedule` when the current process's control block is `c` and somebody is queued. */
  lemma HandOver(s: Sys, c: Proc)
    requires Wf(s) && s.queue != [] && s.queue[0] != s.current && c.state != Ready
    requires Queued(s.(pcb := s.pcb[s.current := c]))
    ensures var t := Schedule(s.(pcb := s.pcb[s.current := c]));
            && HandsOver(s, t, if c.state == Running then c.(state := Ready) else c)
            && t.queue == s.queue[1..] + (if c.state == Running then [s.current] else [])
  {
    assert s.queue[0] in s.queue;
    ScheduleShape(s.(pcb := s.pcb[s.current := c]));
  }

  /** With nobody queued, or with the current process itself at the head, as after an SJF decision,
      `schedule` does nothing. */
  lemma ScheduleStays(s: Sys)
    requires Wf(s) && (s.queue == [] || s.queue[0] == s.current)
    ensures Schedule(s) == s
  {}

  /** `schedule` by the running process: it goes to the end of the queue with its counter as it
      is; alone, it goes on. */
  lemma YieldEffect(s: Sys)
    requires Inv(s)
    ensures if s.queue == [] then Schedule(s) == s
            else HandsOver(s, Schedule(s), s.pcb[s.current].(state := Ready))
                 && Schedule(s).queue == s.queue[1..] + [s.current]
  {
    if s.queue != [] {
      assert s.queue[0] in s.queue;
      assert s.(pcb := s.pcb[s.current := s.pcb[s.current]]) == s;
      HandOver(s, s.pcb[s.current]);
    }
  }

  /** A tick takes one from the current process's counter, down to zero, and from no other. At
      zero the process is preempted, and nothing gives it a new slice. */
  lemma TickEffect(s: Sys)
    requires Inv(s)
    ensures var c := s.pcb[s.current];
            var charged := c.(counter := if c.counter > 0 then c.counter - 1 else 0);
            if charged.counter == 0 && s.queue != []
            then HandsOver(s, Tick(s), charged.(state := Ready)) && Tick(s).queue == s.queue[1..] + [s.current]
            else Tick(s) == s.(pcb := s.pcb[s.current := charged])
  {
    ChargeKeeps(s);
    if s.queue != [] {
      assert s.queue[0] in s.queue;
      HandOver(s, Charge(s).pcb[s.current]);
    }
  }

  /** A block stops the current process, idle too; with nobody queued it stays current. */
  lemma BlockEffect(s: Sys)
    requires Inv(s)
    ensures var c := s.pcb[s.current].(state := Blocked);
            if s.queue == [] then Block(s) == s.(pcb := s.pcb[s.current := c])
            else HandsOver(s, Block(s), c) && Block(s).queue == s.queue[1..]
    ensures s.queue == [] ==> s.pcb[s.current].pid == 0
  {
    if s.queue == [] {
      assert s.task[0] !in s.queue;
    } else {
      assert s.queue[0] in s.queue;
      HandOver(s, s.pcb[s.current].(state := Blocked));
    }
  }

  /** Waking changes one blocked process, which goes to the end of the queue, or nothing. */
  lemma WakeEffect(s: Sys, p: int)
    requires Core(s) && p in s.pcb
    ensures Wake(s, p) == if s.pcb[p].state == Blocked
                          then s.(pcb := s.pcb[p := s.pcb[p].(state := Ready)], queue := s.queue + [p]) else s
  {
    WakeKeeps(s, p);
  }

  // ---------------------------------------------------------------- exit

  /** The blocked processes from slot `i` on, in slot order. */
  ghost function Sleepers(s: Sys, i: nat): seq<int>
    requires Wf(s)
    decreases s.taskCount - i
  {
    if i >= s.taskCount then []
    else (if s.task[i] != NULL && s.pcb[s.task[i]].state == Blocked then [s.task[i]] else []) + Sleepers(s, i + 1)
  }

  lemma {:induction false} SleepersSame(s: Sys, t: Sys, i: nat)
    requires Wf(s) && Wf(t) && t.task == s.task && t.taskCount == s.taskCount
    requires forall j :: i <= j < s.taskCount && s.task[j] != NULL ==>
               (t.pcb[s.task[j]].state == Blocked <==> s.pcb[s.task[j]].state == Blocked)
    ensures Sleepers(t, i) == Sleepers(s, i)
    decreases s.taskCount - i
  {
    if i < s.taskCount { SleepersSame(s, t, i + 1); }
  }

  /** A blocked process is not idle, so the loop does not pass it over. */
  lemma SleeperIsNotIdle(s: Sys, p: int)
    requires Core(s) && p in s.pcb && s.pcb[p].state == Blocked
    ensures s.pcb[p].pid > 0
  {
    assert s.pcb[p].pid != s.pcb[s.task[0]].pid;
  }

  lemma RoundQueue(s: Sys, i: nat)
    requires Core(s) && i < s.taskCount && s.task[i] != NULL && s.pcb[s.task[i]].state == Blocked
    ensures var t := Wake(s, s.task[i]);
            Wf(t) && t.queue + Sleepers(t, i + 1) == s.queue + Sleepers(s, i)
  {
    var p := s.task[i];
    assert p !in s.queue;
    SleepersSame(s, Wake(s, p), i + 1);
    assert (s.queue + [p]) + Sleepers(s, i + 1) == s.queue + ([p] + Sleepers(s, i + 1));
  }

  lemma QueueRound(s: Sys, i: nat) returns (t: Sys)
    requires Core(s) && s.pcb[s.current].state != Blocked && i < s.taskCount
    ensures Core(t) && t.pcb[t.current].state != Blocked && t.taskCount == s.taskCount
    ensures WakeFrom(s, i) == WakeFrom(t, i + 1) && t.queue + Sleepers(t, i + 1) == s.queue + Sleepers(s, i)
  {
    t := WakeRound(s, i);
    if s.task[i] != NULL && s.pcb[s.task[i]].state == Blocked {
      SleeperIsNotIdle(s, s.task[i]);
      RoundQueue(s, i);
    }
  }

  /** The wake loop appends the blocked processes in slot order. */
  lemma {:induction false} WakeFromQueue(s: Sys, i: nat)
    requires Core(s) && s.pcb[s.current].state != Blocked
    ensures WakeFrom(s, i).queue == s.queue + Sleepers(s, i)
    decreases s.taskCount - i
  {
    if i < s.taskCount {
      var t := QueueRound(s, i);
      WakeFromQueue(t, i + 1);
    } else {
      assert s.queue + [] == s.queue;
    }
  }

  lemma ExitQueue(s: Sys, code: int)
    requires Inv(s) && s.pcb[s.current].pid != 0
    ensures s.queue != [] && Exit(s, code).queue == s.queue[1..] + Sleepers(s, 0)
  {
    ExitShape(s, code);
    ExitWoken(s, code);
    TailOfConcat(s.queue, Sleepers(s, 0));
  }

  lemma TailOfConcat(a: seq<int>, b: seq<int>)
    requires a != []
    ensures (a + b)[1..] == a[1..] + b
  {}

  lemma ExitWoken(s: Sys, code: int)
    requires Inv(s) && s.pcb[s.current].pid != 0
    ensures WakeFrom(MarkExited(s, code), 0).queue == s.queue + Sleepers(s, 0)
  {
    var m := MarkExited(s, code);
    StopKeeps(s, m.pcb[s.current]);
    WakeFromQueue(m, 0);
    SleepersSame(s, m, 0);
  }

  lemma ExitRecord(s: Sys, code: int, p: int)
    requires Inv(s) && s.pcb[s.current].pid != 0 && p in s.pcb
    ensures s.queue != [] && p in Exit(s, code).pcb
    ensures Exit(s, code).pcb[p] == if p == s.current then s.pcb[p].(state := Terminated, exitCode := code)
                                    else if p == s.queue[0] then s.pcb[p].(state := Running)
                                    else if s.pcb[p].state == Blocked then s.pcb[p].(state := Ready) else s.pcb[p]
  {
    ExitShape(s, code);
    WakeFromEffect(MarkExited(s, code), 0);
    ExitWakes(s, code, p);
    assert s.queue[0] in s.queue;
  }

  /** An exit by idle is refused. By any other: the process is terminated with its code, the head of the
      queue runs, every blocked process is ready and queued behind the others in slot order, and
      nothing else changes. */
  lemma ExitEffect(s: Sys, code: int)
    requires Inv(s)
    ensures s.pcb[s.current].pid == 0 ==> Exit(s, code) == s
    ensures s.pcb[s.current].pid != 0 ==>
            var t := Exit(s, code);
            && s.queue != [] && SameTable(s, t) && t.current == s.queue[0]
            && t.queue == s.queue[1..] + Sleepers(s, 0)
            && forall p :: p in s.pcb ==>
                 t.pcb[p] == if p == s.current then s.pcb[p].(state := Terminated, exitCode := code)
                             else if p == s.queue[0] then s.pcb[p].(state := Running)
                             else if s.pcb[p].state == Blocked then s.pcb[p].(state := Ready) else s.pcb[p]
  {
    if s.pcb[s.current].pid != 0 {
      ExitKeeps(s, code);
      ExitTable(s, code);
      ExitQueue(s, code);
      forall p | p in s.pcb
        ensures Exit(s, code).pcb[p] == if p == s.current then s.pcb[p].(state := Terminated, exitCode := code)
                                        else if p == s.queue[0] then s.pcb[p].(state := Running)
                                        else if s.pcb[p].state == Blocked then s.pcb[p].(state := Ready) else s.pcb[p]
      {
        ExitRecord(s, code, p);
      }
    }
  }

  lemma ExitTable(s: Sys, code: int)
    requires Inv(s) && s.pcb[s.current].pid != 0
    ensures SameTable(s, Exit(s, code))
  {
    ExitMiddle(s, code);
    var w := WakeFrom(MarkExited(s, code), 0);
    assert w.queue[0] == s.queue[0] && s.queue[0] in s.queue;
    ScheduleShape(w);
  }

  // ---------------------------------------------------------------- collecting

  /** Collecting a terminated process removes its control block and clears its slot; the count is
      one more than the highest slot still occupied. */
  lemma ReapEffect(s: Sys, p: int)
    requires Inv(s) && p in s.pcb && s.pcb[p].state == Terminated
    ensures var t := Reap(s, p);
            && t.current == s.current && t.queue == s.queue && t.nextPid == s.nextPid
            && t.pcb.Keys == s.pcb.Keys - {p} && (forall q :: q in t.pcb ==> t.pcb[q] == s.pcb[q])
            && |t.task| == MAX_TASKS
            && (forall i :: 0 <= i < MAX_TASKS ==> t.task[i] == if s.task[i] == p then NULL else s.task[i])
            && 1 <= t.taskCount <= MAX_TASKS && t.task[t.taskCount - 1] != NULL
            && (forall i :: t.taskCount <= i < MAX_TASKS ==> t.task[i] == NULL)
  {
    ReapCount(s, p);
  }

  // ---------------------------------------------------------------- time slices over runs

  /** Every process of `t` that is as old as `s` is the same process of `s`, with its priority, and
      with no larger counter. */
  ghost predicate Ages(s: Sys, t: Sys) {
    && s.nextPid <= t.nextPid
    && forall p :: p in t.pcb && t.pcb[p].pid < s.nextPid ==> p in s.pcb && Aged(s.pcb[p], t.pcb[p])
  }

  predicate Aged(a: Proc, b: Proc) {
    a.pid == b.pid && a.priority == b.priority && b.counter <= a.counter
  }

  lemma HandOverAges(s: Sys, t: Sys, stopped: Proc)
    requires s.current in s.pcb && HandsOver(s, t, stopped)
    requires Aged(s.pcb[s.current], stopped)
    ensures Ages(s, t)
  {}

  lemma TickAges(s: Sys)
    requires Inv(s)
    ensures Ages(s, Tick(s))
  {
    TickEffect(s);
    var c := s.pcb[s.current];
    var charged := c.(counter := if c.counter > 0 then c.counter - 1 else 0);
    if charged.counter == 0 && s.queue != [] { HandOverAges(s, Tick(s), charged.(state := Ready)); }
  }

  lemma YieldAges(s: Sys)
    requires Inv(s)
    ensures Ages(s, Schedule(s))
  {
    YieldEffect(s);
    if s.queue != [] { HandOverAges(s, Schedule(s), s.pcb[s.current].(state := Ready)); }
  }

  lemma BlockAges(s: Sys)
    requires Inv(s) && s.pcb[s.current].pid != 0
    ensures Ages(s, Block(s))
  {
    BlockEffect(s);
    if s.queue != [] { HandOverAges(s, Block(s), s.pcb[s.current].(state := Blocked)); }
  }

  lemma ExitAges(s: Sys, code: int)
    requires Inv(s)
    ensures Ages(s, Exit(s, code))
  {
    if s.pcb[s.current].pid != 0 {
      ExitTable(s, code);
      forall p | p in s.pcb ensures Aged(s.pcb[p], Exit(s, code).pcb[p]) { ExitRecord(s, code, p); }
    }
  }

  lemma CreateAges(s: Sys, e: bool, prio: nat, a: Alloc)
    requires Inv(s) && FreshAlloc(s, a)
    ensures Ages(s, Create(s, e, prio, a).0)
  {
    CreateSucceedsIff(s, e, prio, a);
  }

  lemma WakeAges(s: Sys, p: int)
    requires Inv(s) && p in s.pcb
    ensures Ages(s, Wake(s, p))
  {
    WakeEffect(s, p);
  }

  lemma StepAges(s: Sys, op: Op)
    requires Inv(s) && Legal(s, op)
    ensures Ages(s, Step(s, op))
  {
    match op
    case CreateOp(e, prio, a) => CreateAges(s, e, prio, a);
    case TickOp => TickAges(s);
    case YieldOp => YieldAges(s);
    case BlockOp => BlockAges(s);
    case WakeOp(p) => if p in s.pcb { WakeAges(s, p); }
    case ExitOp(code) => ExitAges(s, code);
    case WaitOp(pid) => if WaitBegin(s, pid).1 == Waiting { BlockAges(s); } else { ResumeAges(s, pid); }
    case ResumeOp(pid) => ResumeAges(s, pid);
  }

  lemma ResumeAges(s: Sys, pid: int)
    requires Inv(s)
    ensures Ages(s, WaitResume(s, pid).0)
  {
    var p := FindPid(s, pid, 0);
    if p != NULL && s.pcb[p].state == Terminated { ReapEffect(s, p); }
  }

  /** In no FIFO run does a process ever get a new time slice: once its counter is used up, each of
      its turns lasts a single tick. */
  lemma {:induction false} SlicesNeverRenewed(s: Sys, ops: seq<Op>)
    requires Inv(s) && LegalRun(s, ops)
    ensures Ages(s, Run(s, ops))
    decreases |ops|
  {
    if ops != [] {
      StepKeeps(s, ops[0]);
      StepAges(s, ops[0]);
      SlicesNeverRenewed(Step(s, ops[0]), ops[1..]);
    }
  }
}
