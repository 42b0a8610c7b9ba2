/**
 Processes and the two schedulers as a state machine over values. Control blocks are
 named by their address; the task table, the ready queue and `current` hold addresses,
 with 0 for NULL. The ready queue is the list of addresses reachable from its head.
 */
module ProcessSpec {
  import opened Machine
  import opened SeqFacts

  const MAX_TASKS := 64
  const U32_MAX := U32 - 1

  datatype ProcState = Created | Ready | Running | Blocked | Terminated

  datatype Proc = Proc(pid: int, state: ProcState, priority: nat, counter: nat, exitCode: int)

  datatype Sys = Sys(
    pcb: map<int, Proc>,
    task: seq<int>,
    taskCount: nat,
    nextPid: int,
    current: int,
    queue: seq<int>)

  function CounterInit(priority: nat): (c: nat)
    ensures c <= 4
    ensures priority % 5 == 0 ==> c == 0
    ensures priority % 5 != 0 ==> c == 5 - priority % 5
  {
    [0, 4, 3, 2, 1][priority % 5]
  }

  /** No dangling pointer, and nothing above the recorded count. */
  ghost predicate Wf(s: Sys) {
    && |s.task| == MAX_TASKS && s.taskCount <= MAX_TASKS
    && NULL !in s.pcb
    && s.current in s.pcb
    && (forall p :: p in s.queue ==> p in s.pcb)
    && (forall i :: 0 <= i < MAX_TASKS ==> s.task[i] == NULL || s.task[i] in s.pcb)
    && (forall i :: s.taskCount <= i < MAX_TASKS ==> s.task[i] == NULL)
  }

  function SetState(s: Sys, p: int, state: ProcState): Sys
    requires p in s.pcb
  {
    s.(pcb := s.pcb[p := s.pcb[p].(state := state)])
  }

  // ---------------------------------------------------------------- the ready queue

  function IndexOf(q: seq<int>, p: int): (i: nat)
    ensures i <= |q|
    ensures i < |q| <==> p in q
    ensures i < |q| ==> q[i] == p
    ensures forall j :: 0 <= j < i ==> q[j] != p
  {
    if q == [] || q[0] == p then 0 else 1 + IndexOf(q[1..], p)
  }

  /** `scheduler_add`. Its first act is to clear the link of the process it adds, so adding
      a process that is already queued cuts off everything behind it. */
  function Enqueue(q: seq<int>, p: int): seq<int> {
    if p in q then q[..IndexOf(q, p) + 1] else q + [p]
  }

  /** `scheduler_remove` */
  function Unqueue(q: seq<int>, p: int): seq<int> {
    if p in q then q[..IndexOf(q, p)] + q[IndexOf(q, p) + 1..] else q
  }

  // ---------------------------------------------------------------- FIFO scheduling

  /** The part of `schedule` that puts a running process back on the queue. */
  function Preempt(s: Sys): Sys
    requires s.current in s.pcb
  {
    if s.pcb[s.current].state == Running
    then SetState(s, s.current, Ready).(queue := Enqueue(s.queue, s.current))
    else s
  }

  /** The part of `schedule` that lets the chosen process run. */
  function SwitchIn(s: Sys, next: int): Sys
    requires next in s.pcb
  {
    SetState(s, next, Running).(current := next, queue := Unqueue(s.queue, next))
  }

  function Schedule(s: Sys): Sys
    requires Wf(s)
  {
    if s.queue == [] || s.queue[0] == s.current then s
    else SwitchIn(Preempt(s), s.queue[0])
  }

  function Charge(s: Sys): Sys
    requires s.current in s.pcb
  {
    var c := s.pcb[s.current].counter;
    s.(pcb := s.pcb[s.current := s.pcb[s.current].(counter := if c > 0 then c - 1 else 0)])
  }

  /** `do_timer` */
  function Tick(s: Sys): Sys
    requires Wf(s)
  {
    var t := Charge(s);
    if t.pcb[t.current].counter == 0 then Schedule(t) else t
  }

  /** `scheduler_block` */
  function Block(s: Sys): Sys
    requires Wf(s)
  {
    Schedule(SetState(s, s.current, Blocked))
  }

  /** `scheduler_wake` */
  function Wake(s: Sys, p: int): Sys
    requires p in s.pcb
  {
    if s.pcb[p].state == Blocked
    then SetState(s, p, Ready).(queue := Enqueue(s.queue, p))
    else s
  }

  // ---------------------------------------------------------------- lifecycle

  /** What the allocator answers during `process_create`: no control block, a control block
      but not everything else, or all that was asked for. */
  datatype Alloc = NoBlock | Partial | Granted(ptr: int)

  ghost predicate FreshAlloc(s: Sys, a: Alloc) {
    a.Granted? ==> a.ptr != NULL && a.ptr !in s.pcb
  }

  function ClampPriority(priority: nat): nat {
    if priority < 5 then priority else 4
  }

  /** `process_create`; the second result is the pid, or -1. */
  function Create(s: Sys, hasEntry: bool, priority: nat, a: Alloc): (Sys, int)
    requires Wf(s)
  {
    if !hasEntry || s.taskCount >= MAX_TASKS || a.NoBlock? then (s, -1)
    else if a.Partial? then (s.(nextPid := s.nextPid + 1), -1)
    else
      var k := EmptySlot(s.task, 0);
      var prio := ClampPriority(priority);
      (Sys(s.pcb[a.ptr := Proc(s.nextPid, Ready, prio, CounterInit(prio), 0)],
           if k < MAX_TASKS then s.task[k := a.ptr] else s.task,
           if s.taskCount <= k < MAX_TASKS then k + 1 else s.taskCount,
           s.nextPid + 1,
           s.current,
           Enqueue(s.queue, a.ptr)),
       s.nextPid)
  }

  /** The loop of `process_exit` that wakes every blocked process from slot `i` on. */
  function WakeFrom(s: Sys, i: nat): (t: Sys)
    requires Wf(s)
    ensures t.pcb.Keys == s.pcb.Keys && t.task == s.task && t.taskCount == s.taskCount
    ensures t.nextPid == s.nextPid && t.current == s.current
    ensures Wf(t)
    decreases s.taskCount - i
  {
    if i >= s.taskCount then s
    else if s.task[i] != NULL && s.pcb[s.task[i]].state == Blocked && s.pcb[s.task[i]].pid > 0
    then WakeFrom(Wake(s, s.task[i]), i + 1)
    else WakeFrom(s, i + 1)
  }

  /** All that the loop does to a process: a blocked one may become ready. */
  lemma {:induction false} WakeFromEffect(s: Sys, i: nat)
    requires Wf(s)
    ensures forall p :: p in s.pcb ==>
              var q := WakeFrom(s, i).pcb[p];
              q == s.pcb[p] || (s.pcb[p].state == Blocked && q == s.pcb[p].(state := Ready))
    decreases s.taskCount - i
  {
    if i < s.taskCount {
      if s.task[i] != NULL && s.pcb[s.task[i]].state == Blocked && s.pcb[s.task[i]].pid > 0 {
        WakeFromEffect(Wake(s, s.task[i]), i + 1);
      } else {
        WakeFromEffect(s, i + 1);
      }
    }
  }

  function MarkExited(s: Sys, code: int): Sys
    requires s.current in s.pcb
  {
    s.(pcb := s.pcb[s.current := s.pcb[s.current].(state := Terminated, exitCode := code)])
  }

  /** `process_exit` */
  function Exit(s: Sys, code: int): Sys
    requires Wf(s)
  {
    if s.pcb[s.current].pid == 0 then s
    else
      var t := MarkExited(s, code);
      Schedule(WakeFrom(t.(queue := Unqueue(t.queue, t.current)), 0))
  }

  /** Address of the first process with this pid at or after slot `i`; NULL if there is none. */
  function FindPid(s: Sys, pid: int, i: nat): (p: int)
    requires Wf(s)
    ensures p != NULL ==> p in s.task && p in s.pcb && s.pcb[p].pid == pid
    ensures p == NULL ==>
              forall j :: i <= j < s.taskCount && s.task[j] != NULL ==> s.pcb[s.task[j]].pid != pid
    decreases s.taskCount - i
  {
    if i >= s.taskCount then NULL
    else if s.task[i] != NULL && s.pcb[s.task[i]].pid == pid then s.task[i]
    else FindPid(s, pid, i + 1)
  }

  /** One more than the highest occupied slot below `n`; 0 if there is none. */
  function Occupied(task: seq<int>, n: nat): (k: nat)
    requires n <= |task|
    ensures k <= n
    ensures 0 < k ==> task[k - 1] != NULL
    ensures forall j :: k <= j < n ==> task[j] == NULL
  {
    if n == 0 then 0 else if task[n - 1] != NULL then n else Occupied(task, n - 1)
  }

  function ClearSlot(task: seq<int>, p: int): seq<int> {
    if p in task then task[IndexOf(task, p) := NULL] else task
  }

  /** The part of `process_wait` that frees a terminated process. */
  function Reap(s: Sys, p: int): Sys
    requires Wf(s)
  {
    var task := ClearSlot(s.task, p);
    var n := Occupied(task, s.taskCount);
    s.(pcb := s.pcb - {p}, task := task, taskCount := if n > 0 then n else 1)
  }

  datatype WaitResult = Failed | Waiting | Collected(code: int)

  /** The end of `process_wait`, from the second look-up on. */
  function WaitResume(s: Sys, pid: int): (Sys, WaitResult)
    requires Wf(s)
  {
    var p := FindPid(s, pid, 0);
    if p == NULL || s.pcb[p].state != Terminated then (s, Failed)
    else (Reap(s, p), Collected(s.pcb[p].exitCode))
  }

  /** `process_wait` up to the point where it returns or gives up the processor. */
  function WaitBegin(s: Sys, pid: int): (Sys, WaitResult)
    requires Wf(s)
  {
    if s.pcb[s.current].pid == 0 || s.pcb[s.current].pid == pid then (s, Failed)
    else
      var p := FindPid(s, pid, 0);
      if p == NULL then (s, Failed)
      else if s.pcb[p].state != Terminated then (Block(s), Waiting)
      else WaitResume(s, pid)
  }

  /** `process_init`, with the idle process at address `idle`. */
  function InitialSys(idle: int): (s: Sys)
    requires idle != NULL
    ensures Wf(s)
  {
    Sys(map[idle := Proc(0, Running, 0, 0, 0)],
        seq(MAX_TASKS, i => if i == 0 then idle else NULL),
        1, 1, idle, [])
  }
}
