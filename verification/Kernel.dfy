/**
 The process subsystem as the program keeps it: control blocks in memory, linked through
 their `next` field into the ready queue, a table of 64 pointers, and the globals around
 them. Every operation is proved to compute the corresponding step of `ProcessSpec`; a
 dereference is possible only while the control block has not been freed.
 */
module Kernel {
  import opened Machine
  import opened SeqFacts
  import opened Wrappers
  import opened ProcessSpec
  import Fifo
  import Sjf

  datatype Pcb = Pcb(proc: Proc, next: int)

  ghost function Procs(m: map<int, Pcb>): map<int, Proc> {
    map p | p in m :: m[p].proc
  }

  // ---------------------------------------------------------------- the linked queue

  ghost predicate NextAt(m: map<int, Pcb>, q: seq<int>, i: nat)
    requires i < |q| && q[i] in m
  {
    m[q[i]].next == if i + 1 < |q| then q[i + 1] else NULL
  }

  /** The control blocks in `q` are linked in that order. */
  ghost predicate Linked(m: map<int, Pcb>, q: seq<int>) {
    && Distinct(q)
    && (forall i :: 0 <= i < |q| ==> q[i] in m && q[i] != NULL)
    && (forall i {:trigger NextAt(m, q, i)} :: 0 <= i < |q| ==> NextAt(m, q, i))
  }

  ghost predicate QueueOk(m: map<int, Pcb>, q: seq<int>, head: int, tail: int) {
    && Linked(m, q)
    && head == (if q == [] then NULL else q[0])
    && (q != [] ==> tail == q[|q| - 1])
  }

  lemma SameLinks(m: map<int, Pcb>, m': map<int, Pcb>, q: seq<int>)
    requires Linked(m, q)
    requires forall i :: 0 <= i < |q| ==> q[i] in m' && m'[q[i]].next == m[q[i]].next
    ensures Linked(m', q)
  {
    forall i | 0 <= i < |q| ensures NextAt(m', q, i) { assert NextAt(m, q, i); }
  }

  /** Writing a control block's record, not its link. */
  lemma Write(m: map<int, Pcb>, p: int, x: Proc, q: seq<int>)
    requires p in m
    ensures Procs(m[p := Pcb(x, m[p].next)]) == Procs(m)[p := x]
    ensures Linked(m, q) ==> Linked(m[p := Pcb(x, m[p].next)], q)
  {
    if Linked(m, q) { SameLinks(m, m[p := Pcb(x, m[p].next)], q); }
  }

  lemma WriteNext(m: map<int, Pcb>, p: int, next: int)
    requires p in m
    ensures Procs(m[p := m[p].(next := next)]) == Procs(m)
  {}

  /** Clearing the link of `p` and hanging it behind the old tail, `p` not yet queued. */
  lemma Append(m: map<int, Pcb>, m': map<int, Pcb>, q: seq<int>, p: int)
    requires Linked(m, q) && p !in q && p != NULL && p in m' && m'[p].next == NULL
    requires forall i :: 0 <= i < |q| ==> q[i] in m'
    requires forall i :: 0 <= i < |q| - 1 ==> m'[q[i]].next == m[q[i]].next
    requires q != [] ==> m'[q[|q| - 1]].next == p
    ensures Linked(m', q + [p])
  {
    DistinctInsert(q, |q|, p);
    var r := q + [p];
    assert q[..|q|] + [p] + q[|q|..] == r;
    forall i | 0 <= i < |r| ensures NextAt(m', r, i) {
      if i < |q| { assert NextAt(m, q, i); }
    }
  }

  /** The same, `p` already queued in front of the tail: what was behind it is lost. */
  lemma CutShort(m: map<int, Pcb>, m': map<int, Pcb>, q: seq<int>, k: nat)
    requires Linked(m, q) && k < |q|
    requires forall i :: 0 <= i <= k ==> q[i] in m'
    requires m'[q[k]].next == NULL
    requires forall i :: 0 <= i < k ==> m'[q[i]].next == m[q[i]].next
    ensures Linked(m', q[..k + 1])
  {
    var r := q[..k + 1];
    forall i | 0 <= i < |r| ensures NextAt(m', r, i) { assert NextAt(m, q, i); }
  }

  lemma Unlink(m: map<int, Pcb>, m': map<int, Pcb>, q: seq<int>, k: nat)
    requires Linked(m, q) && k < |q|
    requires forall i :: 0 <= i < |q| ==> q[i] in m'
    requires forall i :: 0 <= i < |q| && i + 1 != k ==> m'[q[i]].next == m[q[i]].next
    requires k > 0 ==> m'[q[k - 1]].next == m[q[k]].next
    ensures Linked(m', q[..k] + q[k + 1..])
  {
    DistinctRemove(q, k);
    var r := q[..k] + q[k + 1..];
    assert NextAt(m, q, k);
    forall i | 0 <= i < |r| ensures NextAt(m', r, i) {
      assert NextAt(m, q, if i < k then i else i + 1);
    }
  }

  /** What `scheduler_add` writes: the links in memory, the head and the tail. */
  function Added(m: map<int, Pcb>, head: int, tail: int, p: int): (map<int, Pcb>, int, int)
    requires p in m && (head != NULL ==> tail in m)
  {
    var cleared := m[p := m[p].(next := NULL)];
    if head == NULL then (cleared, p, p) else (cleared[tail := cleared[tail].(next := p)], head, p)
  }

  lemma AddKeeps(m: map<int, Pcb>, q: seq<int>, head: int, tail: int, p: int)
    requires QueueOk(m, q, head, tail) && p in m && p != NULL && (q == [] || p != tail)
    ensures var (m', head', tail') := Added(m, head, tail, p); QueueOk(m', Enqueue(q, p), head', tail')
  {
    var (m', head', tail') := Added(m, head, tail, p);
    if p in q {
      CutShort(m, m', q, IndexOf(q, p));
    } else {
      Append(m, m', q, p);
    }
  }

  lemma TailEnds(m: map<int, Pcb>, q: seq<int>, head: int, tail: int)
    requires QueueOk(m, q, head, tail) && head != NULL
    ensures tail in m && m[tail].next == NULL
  {
    assert NextAt(m, q, |q| - 1);
  }

  lemma EndlessTail(m: map<int, Pcb>, q: seq<int>, head: int, tail: int)
    requires head != NULL && tail in m && m[tail].next != NULL
    ensures !QueueOk(m, q, head, tail)
  {
    if QueueOk(m, q, head, tail) { TailEnds(m, q, head, tail); }
  }

  /** Adding a process leaves a proper list behind exactly when that process is not the tail
      already; otherwise the tail is linked to itself and the list never ends. */
  lemma AddKeepsListIff(m: map<int, Pcb>, q: seq<int>, head: int, tail: int, p: int)
    requires QueueOk(m, q, head, tail) && p in m && p != NULL
    ensures var (m', head', tail') := Added(m, head, tail, p);
            (exists q' :: QueueOk(m', q', head', tail')) <==> q == [] || p != tail
  {
    var (m', head', tail') := Added(m, head, tail, p);
    if q == [] || p != tail {
      AddKeeps(m, q, head, tail, p);
    } else {
      assert m'[tail'].next == p;
      forall q': seq<int> ensures !QueueOk(m', q', head', tail') { EndlessTail(m', q', head', tail'); }
    }
  }

  /** Adding a process loses none of the queued ones if and only if it was not queued, or was the
      last of them. */
  lemma AddLosesNoneIff(q: seq<int>, p: int)
    requires Distinct(q)
    ensures (forall x :: x in q ==> x in Enqueue(q, p)) <==> p !in q || q[|q| - 1] == p
  {
    if p in q {
      var i := IndexOf(q, p);
      var r := q[..i + 1];
      if i + 1 < |q| {
        assert q[|q| - 1] in q && q[|q| - 1] !in r;
      } else {
        assert r == q;
      }
    }
  }

  /** Removing takes out that process alone and keeps the others in order. */
  lemma RemoveDropsOne(q: seq<int>, p: int)
    requires Distinct(q)
    ensures forall x :: x in Unqueue(q, p) <==> x in q && x != p
    ensures p !in q ==> Unqueue(q, p) == q
    ensures p in q ==>
              && |Unqueue(q, p)| == |q| - 1
              && forall k :: 0 <= k < |q| - 1 ==> Unqueue(q, p)[k] == if p in q[..k + 1] then q[k + 1] else q[k]
  {
    if p in q {
      var i := IndexOf(q, p);
      DistinctRemove(q, i);
      forall k | 0 <= k < |q| - 1 ensures Unqueue(q, p)[k] == if p in q[..k + 1] then q[k + 1] else q[k] {
        if i <= k { assert q[..k + 1][i] == p; }
      }
    }
  }

  class Kernel {
    var pcb: map<int, Pcb>
    const task: array<int>
    var taskCount: nat
    var nextPid: int
    var current: int
    var head: int
    var tail: int
    ghost var queue: seq<int>

    ghost function View(): Sys
      reads this, task
    {
      Sys(Procs(pcb), task[..], taskCount, nextPid, current, queue)
    }

    ghost predicate Valid()
      reads this, task
    {
      QueueOk(pcb, queue, head, tail) && Wf(View())
    }

    /** `process_init`, the allocator having placed idle at `idle`. */
    constructor (idle: int)
      requires idle != NULL
      ensures Valid() && fresh(task) && View() == InitialSys(idle)
    {
      task := new int[MAX_TASKS](i => if i == 0 then idle else NULL);
      pcb := map[idle := Pcb(Proc(0, Running, 0, 0, 0), NULL)];
      taskCount, nextPid, current, head, tail := 1, 1, idle, NULL, NULL;
      queue := [];
      new;
      assert task[..] == InitialSys(idle).task;
      assert Procs(pcb) == InitialSys(idle).pcb;
    }

    // -------------------------------------------------------------- scheduler.c

    /** `scheduler_add`: what it writes, always; and what that means for the queue, unless the
        process is the tail already and the list becomes circular. */
    method SchedulerAdd(p: int)
      requires Valid() && p in pcb
      modifies this`pcb, this`head, this`tail, this`queue
      ensures (pcb, head, tail) == Added(old(pcb), old(head), old(tail), p)
      ensures (old(queue) != [] ==> p != old(queue)[|old(queue)| - 1]) ==>
                Valid() && View() == old(View()).(queue := Enqueue(old(queue), p))
    {
      ghost var proper := queue != [] ==> p != queue[|queue| - 1];
      if proper { AddKeeps(pcb, queue, head, tail, p); }
      WriteNext(pcb, p, NULL);
      pcb := pcb[p := pcb[p].(next := NULL)];
      if head == NULL {
        head, tail := p, p;
      } else {
        WriteNext(pcb, tail, p);
        pcb := pcb[tail := pcb[tail].(next := p)];
        tail := p;
      }
      queue := Enqueue(queue, p);
    }

    /** The search of `scheduler_remove`: the last queued process that is not followed by
        anything but `p`. */
    method FindBefore(p: int) returns (c: int)
      requires Valid() && p != NULL && queue != [] && queue[0] != p
      ensures c in pcb && pcb[c].next == (if p in queue then p else NULL)
      ensures var i := IndexOf(queue, p); c == queue[i - 1]
    {
      c := head;
      ghost var k: nat := 0;
      assert NextAt(pcb, queue, 0);
      while pcb[c].next != NULL && pcb[c].next != p
        invariant k < |queue| && c == queue[k] && NextAt(pcb, queue, k)
        invariant forall j :: 0 <= j <= k ==> queue[j] != p
        decreases |queue| - k
      {
        c := pcb[c].next;
        k := k + 1;
        assert NextAt(pcb, queue, k);
      }
      if k + 1 < |queue| { assert queue[k + 1] == p; }
      assert IndexOf(queue, p) == k + 1;
    }

    method RemoveHead()
      requires Valid() && head != NULL
      modifies this`head, this`tail, this`queue
      ensures Valid() && View() == old(View()).(queue := old(queue)[1..])
    {
      assert NextAt(pcb, queue, 0);
      Unlink(pcb, pcb, queue, 0);
      assert queue[..0] + queue[1..] == queue[1..];
      head := pcb[head].next;
      if head == NULL { tail := NULL; }
      queue := queue[1..];
    }

    method RemoveAfter(c: int, p: int)
      requires Valid() && p in queue && 0 < IndexOf(queue, p) && c == queue[IndexOf(queue, p) - 1]
      modifies this`pcb, this`tail, this`queue
      ensures Valid() && View() == old(View()).(queue := Unqueue(old(queue), p))
    {
      ghost var k := IndexOf(queue, p);
      assert NextAt(pcb, queue, k - 1);
      WriteNext(pcb, c, pcb[p].next);
      Unlink(pcb, pcb[c := pcb[c].(next := pcb[p].next)], queue, k);
      pcb := pcb[c := pcb[c].(next := pcb[p].next)];
      if tail == p { tail := c; }
      queue := queue[..k] + queue[k + 1..];
    }

    method SchedulerRemove(p: int)
      requires Valid()
      modifies this`pcb, this`head, this`tail, this`queue
      ensures Valid() && View() == old(View()).(queue := Unqueue(old(queue), p))
    {
      if p == NULL || head == NULL { return; }
      if head == p {
        assert IndexOf(queue, p) == 0;
        assert queue[..0] + queue[1..] == queue[1..];
        RemoveHead();
        return;
      }
      var c := FindBefore(p);
      if pcb[c].next == p { RemoveAfter(c, p); }
    }

    /** Writing the record of a control block. */
    method Put(p: int, x: Proc)
      requires Valid() && p in pcb
      modifies this`pcb
      ensures Valid() && pcb.Keys == old(pcb.Keys) && pcb[p].proc == x
      ensures View() == old(View()).(pcb := old(View()).pcb[p := x])
    {
      Write(pcb, p, x, queue);
      pcb := pcb[p := Pcb(x, pcb[p].next)];
    }

    method SetProcState(p: int, state: ProcState)
      requires Valid() && p in pcb
      modifies this`pcb
      ensures Valid() && pcb.Keys == old(pcb.Keys) && pcb[p].proc == old(pcb)[p].proc.(state := state)
      ensures View() == SetState(old(View()), p, state)
    {
      Put(p, pcb[p].proc.(state := state));
    }

    method SchedulerNext() returns (p: int)
      requires Valid()
      ensures p == if queue == [] then current else queue[0]
    {
      p := if head != NULL then head else current;
    }

    /** `schedule`; a running process must not be the queue's tail, since adding the tail
        again would link it to itself. */
    method ScheduleFifo()
      requires Valid()
      requires pcb[current].proc.state == Running && queue != [] ==> current != queue[|queue| - 1]
      modifies this`pcb, this`current, this`head, this`tail, this`queue
      ensures Valid() && View() == Schedule(old(View()))
    {
      var next := SchedulerNext();
      if next == current { return; }
      if pcb[current].proc.state == Running {
        SetProcState(current, Ready);
        SchedulerAdd(current);
      }
      assert View() == Preempt(old(View()));
      SetProcState(next, Running);
      current := next;
      SchedulerRemove(next);
    }

    method SchedulerBlock()
      requires Valid()
      modifies this`pcb, this`current, this`head, this`tail, this`queue
      ensures Valid() && View() == Block(old(View()))
    {
      SetProcState(current, Blocked);
      ScheduleFifo();
    }

    method SchedulerWake(p: int)
      requires Valid() && (p == NULL || p in pcb)
      requires p != NULL && pcb[p].proc.state == Blocked && queue != [] ==> p != queue[|queue| - 1]
      modifies this`pcb, this`head, this`tail, this`queue
      ensures Valid() && View() == if p == NULL then old(View()) else Wake(old(View()), p)
    {
      if p != NULL && pcb[p].proc.state == Blocked {
        SetProcState(p, Ready);
        SchedulerAdd(p);
      }
    }

    // -------------------------------------------------------------- process.c

    method DoTimer()
      requires Valid()
      requires pcb[current].proc.state == Running && queue != [] ==> current != queue[|queue| - 1]
      modifies this`pcb, this`current, this`head, this`tail, this`queue
      ensures Valid() && View() == Tick(old(View()))
    {
      var c := pcb[current].proc.counter;
      Put(current, pcb[current].proc.(counter := if c > 0 then c - 1 else 0));
      assert View() == Charge(old(View()));
      if pcb[current].proc.counter == 0 {
        ScheduleFifo();
      }
    }

    /** The part of `process_create` that enters a new process in the table. */
    method EnterTable(p: int)
      requires Valid() && p in pcb && taskCount < MAX_TASKS
      modifies this`taskCount, task
      ensures Valid()
      ensures var k := EmptySlot(old(task[..]), 0);
              && k < MAX_TASKS
              && View() == old(View()).(task := old(task[..])[k := p],
                                        taskCount := if old(taskCount) <= k then k + 1 else old(taskCount))
    {
      var i := 0;
      while i < MAX_TASKS && task[i] != NULL
        invariant 0 <= i <= MAX_TASKS
        invariant forall j :: 0 <= j < i ==> task[j] != NULL
      {
        i := i + 1;
      }
      assert task[taskCount] == NULL;
      EmptySlotIs(task[..], i);
      task[i] := p;
      if i >= taskCount { taskCount := i + 1; }
    }

    /** The part of `process_create` that fills in a fresh control block. */
    method NewBlock(p: int, pid: int, prio: nat)
      requires Valid() && p != NULL && p !in pcb
      modifies this`pcb
      ensures Valid() && p in pcb
      ensures View() == old(View()).(pcb := old(View()).pcb[p := Proc(pid, Ready, prio, CounterInit(prio), 0)])
    {
      var x := Proc(pid, Created, prio, CounterInit(prio), 0);
      Allocate(pcb, p, x, queue);
      pcb := pcb[p := Pcb(x, NULL)];
      SetProcState(p, Ready);
      assert View().pcb == old(View()).pcb[p := x.(state := Ready)];
    }

    method ProcessCreate(hasEntry: bool, priority: nat, alloc: Alloc) returns (pid: int)
      requires Valid() && FreshAlloc(View(), alloc)
      modifies this`pcb, this`taskCount, this`nextPid, this`head, this`tail, this`queue, task
      ensures Valid() && View() == Create(old(View()), hasEntry, priority, alloc).0
      ensures pid == Create(old(View()), hasEntry, priority, alloc).1
    {
      if !hasEntry || taskCount >= MAX_TASKS || alloc.NoBlock? { return -1; }
      pid := nextPid;
      nextPid := nextPid + 1;
      if alloc.Partial? { return -1; }
      var p := alloc.ptr;
      var prio := if priority < 5 then priority else 4;
      NewBlock(p, pid, prio);
      EnterTable(p);
      SchedulerAdd(p);
    }

    ghost predicate QueueReady()
      reads this
    {
      forall p :: p in queue ==> p in pcb && pcb[p].proc.state == Ready
    }

    /** One round of the wake-up loop of `process_exit`. */
    method WakeSlot(i: nat)
      requires Valid() && QueueReady() && i < taskCount
      modifies this`pcb, this`head, this`tail, this`queue
      ensures Valid() && QueueReady() && WakeFrom(View(), i + 1) == WakeFrom(old(View()), i)
    {
      var p := task[i];
      if p != NULL && pcb[p].proc.state == Blocked && pcb[p].proc.pid > 0 {
        assert p !in queue;
        SchedulerWake(p);
        assert forall q :: q in queue ==> View().pcb[q].state == Ready;
      }
    }

    /** The loop of `process_exit` that wakes the blocked processes. */
    method WakeBlocked()
      requires Valid() && QueueReady()
      modifies this`pcb, this`head, this`tail, this`queue
      ensures Valid() && View() == WakeFrom(old(View()), 0)
    {
      var i := 0;
      while i < taskCount
        invariant i <= taskCount && Valid() && QueueReady() && WakeFrom(View(), i) == WakeFrom(old(View()), 0)
      {
        WakeSlot(i);
        i := i + 1;
      }
    }

    method ProcessExit(code: int)
      requires Valid() && QueueReady() && current !in queue
      modifies this`pcb, this`current, this`head, this`tail, this`queue
      ensures Valid() && View() == Exit(old(View()), code)
    {
      if pcb[current].proc.pid == 0 { return; }
      Put(current, pcb[current].proc.(state := Terminated, exitCode := code));
      assert View() == MarkExited(old(View()), code);
      SchedulerRemove(current);
      WakeFromEffect(View(), 0);
      WakeBlocked();
      assert View().pcb[current].state == Terminated;
      ScheduleFifo();
    }

    /** The table search of `process_wait`. */
    method FindProcess(pid: int) returns (p: int)
      requires Valid()
      ensures p == FindPid(View(), pid, 0)
    {
      var i := 0;
      while i < taskCount
        invariant 0 <= i <= taskCount && FindPid(View(), pid, 0) == FindPid(View(), pid, i)
      {
        if task[i] != NULL && pcb[task[i]].proc.pid == pid { return task[i]; }
        i := i + 1;
      }
      return NULL;
    }

    /** The loop of `process_wait` that takes a process out of the table. */
    method LeaveTable(p: int)
      requires Valid() && p != NULL
      modifies task
      ensures Valid() && View() == old(View()).(task := ClearSlot(old(task[..]), p))
    {
      var i := 0;
      while i < taskCount && task[i] != p
        invariant 0 <= i <= taskCount
        invariant forall j :: 0 <= j < i ==> task[j] != p
      {
        i := i + 1;
      }
      if i < taskCount {
        assert IndexOf(task[..], p) == i;
        task[i] := NULL;
      } else {
        assert p !in task[..];
      }
    }

    /** The recount at the end of `process_wait`. */
    method CountTasks() returns (n: nat)
      requires Valid()
      ensures n == Occupied(task[..], taskCount)
    {
      n := 0;
      for i := 0 to taskCount
        invariant n == Occupied(task[..], i)
      {
        if task[i] != NULL { n := i + 1; }
      }
    }

    /** The end of `process_wait`: the target is freed; it must be nobody's current or queued
        process, or a dangling pointer would remain. */
    method ReapProcess(p: int)
      requires Valid() && p in pcb && p != current && p !in queue
      requires forall i, j :: 0 <= i < j < MAX_TASKS && task[i] == p ==> task[j] != p
      modifies this`pcb, this`taskCount, task
      ensures Valid() && View() == Reap(old(View()), p)
    {
      LeaveTable(p);
      Discard(pcb, p, queue);
      pcb := pcb - {p};
      var n := CountTasks();
      taskCount := if n > 0 then n else 1;
    }

    method WaitAgain(pid: int) returns (r: WaitResult)
      requires Valid() && Fifo.Inv(View())
      modifies this`pcb, this`taskCount, task
      ensures Valid() && View() == WaitResume(old(View()), pid).0
      ensures r == WaitResume(old(View()), pid).1
    {
      var p := FindProcess(pid);
      if p == NULL || pcb[p].proc.state != Terminated { return Failed; }
      r := Collected(pcb[p].proc.exitCode);
      assert View().pcb[p].state == Terminated;
      ReapProcess(p);
    }

    method ProcessWait(pid: int) returns (r: WaitResult)
      requires Valid() && Fifo.Inv(View())
      modifies this`pcb, this`current, this`taskCount, this`head, this`tail, this`queue, task
      ensures Valid() && View() == WaitBegin(old(View()), pid).0
      ensures r == WaitBegin(old(View()), pid).1
    {
      if pcb[current].proc.pid == 0 || pcb[current].proc.pid == pid { return Failed; }
      var p := FindProcess(pid);
      if p == NULL { return Failed; }
      if pcb[p].proc.state != Terminated {
        SchedulerBlock();
        return Waiting;
      }
      r := WaitAgain(pid);
    }

    // -------------------------------------------------------------- any FIFO step

    /** Any operation of a FIFO run: the invariant is all that the methods ask for. */
    method Do(op: Fifo.Op)
      requires Valid() && Fifo.Inv(View()) && Fifo.Legal(View(), op)
      modifies this`pcb, this`taskCount, this`nextPid, this`current, this`head, this`tail, this`queue, task
      ensures Valid() && View() == Fifo.Step(old(View()), op)
    {
      NeverQueued(View());
      match op
      case CreateOp(e, prio, a) => var pid := ProcessCreate(e, prio, a);
      case TickOp => DoTimer();
      case YieldOp => ScheduleFifo();
      case BlockOp => SchedulerBlock();
      case WakeOp(p) => SchedulerWake(p);
      case ExitOp(code) => ProcessExit(code);
      case WaitOp(pid) => var r := ProcessWait(pid);
      case ResumeOp(pid) => var r := WaitAgain(pid);
    }

    // -------------------------------------------------------------- SJF

    method SwitchTo(next: int)
      requires Valid() && (next == NULL || next in pcb)
      modifies this`pcb, this`current
      ensures Valid() && View() == Sjf.SwitchTo(old(View()), next)
    {
      if next == NULL || current == next { return; }
      var prev := current;
      current := next;
      if pcb[prev].proc.state == Running { SetProcState(prev, Ready); }
      SetProcState(next, Running);
    }

    /** The minimum search of `schedule_sjf`. */
    method ShortestJob() returns (next: nat)
      requires Valid()
      ensures next == Sjf.Pick(View(), taskCount)
      ensures Sjf.IsPick(View(), taskCount, next)
    {
      next := 0;
      var min := U32_MAX;
      var i := 1;
      while i < taskCount
        invariant 1 <= i && (i <= taskCount || taskCount == 0)
        invariant next == Sjf.Pick(View(), i) && next < i
        invariant next != 0 ==> Sjf.Candidate(View(), next)
        invariant min == if next == 0 then U32_MAX else pcb[task[next]].proc.counter
      {
        var p := task[i];
        if p != NULL && pcb[p].proc.state == Ready && pcb[p].proc.counter > 0 && pcb[p].proc.counter < min {
          min := pcb[p].proc.counter;
          next := i;
        }
        i := i + 1;
      }
    }

    /** One round of the refresh loop. */
    method RefreshSlot(i: nat, ghost s: Sys) returns (ready: bool)
      requires Valid() && 1 <= i < taskCount && Wf(s) && View() == Partly(s, i)
      modifies this`pcb
      ensures Valid() && View() == Partly(s, i + 1)
      ensures ReadyBelow(s, i + 1) <==> ReadyBelow(s, i) || ready
    {
      var p := task[i];
      PartlyStep(s, i);
      assert p != NULL ==> pcb[p].proc == View().pcb[p];
      ready := p != NULL && pcb[p].proc.state == Ready;
      assert ready == Sjf.ReadySlot(s, i);
      if ready { Put(p, pcb[p].proc.(counter := CounterInit(pcb[p].proc.priority))); }
    }

    /** The refresh loop of `schedule_sjf`. */
    method RefreshSlices() returns (readyCount: nat)
      requires Valid()
      modifies this`pcb
      ensures Valid() && View() == Sjf.Refresh(old(View()))
      ensures readyCount > 0 <==> Sjf.AnyReady(old(View()))
    {
      readyCount := 0;
      var i := 1;
      ghost var s := View();
      PartlyNone(s);
      while i < taskCount
        invariant 1 <= i && Valid() && View() == Partly(s, i)
        invariant readyCount > 0 <==> ReadyBelow(s, i)
      {
        var ready := RefreshSlot(i, s);
        if ready { readyCount := readyCount + 1; }
        i := i + 1;
      }
      PartlyAll(s, i);
    }

    method ScheduleSjf()
      requires Valid() && Sjf.Halts(View())
      modifies this`pcb, this`current
      ensures Valid() && Some(View()) == Sjf.ScheduleSjf(old(View()), 2)
      decreases if Sjf.Pick(View(), taskCount) == 0 then 1 else 0
    {
      var next := ShortestJob();
      if next != 0 {
        SwitchTo(task[next]);
        return;
      }
      var readyCount := RefreshSlices();
      ghost var s := old(View());
      Sjf.PickNone(s);
      if readyCount > 0 {
        Sjf.RefreshAll(s);
        Sjf.PickNone(View());
        ScheduleSjf();
      } else {
        NothingToRefresh(s);
        if pcb[current].proc.pid != 0 { SwitchTo(task[0]); }
      }
    }
  }

  /** In FIFO runs a process that is added to the queue is never in it. */
  lemma NeverQueued(s: Sys)
    requires Fifo.Inv(s)
    ensures s.current !in s.queue
    ensures forall p :: p in s.queue ==> p in s.pcb && s.pcb[p].state == Ready
  {}

  /** The refresh loop has passed the slots below `i`. */
  ghost function Partly(s: Sys, i: nat): Sys
    requires Wf(s)
  {
    s.(pcb := map p | p in s.pcb ::
                if s.pcb[p].state == Ready && (exists j :: 1 <= j < i && j < s.taskCount && s.task[j] == p)
                then s.pcb[p].(counter := CounterInit(s.pcb[p].priority)) else s.pcb[p])
  }

  ghost predicate ReadyBelow(s: Sys, i: nat)
    requires Wf(s)
  {
    exists j :: 1 <= j < i && Sjf.ReadySlot(s, j)
  }

  lemma PartlyNone(s: Sys)
    requires Wf(s)
    ensures Partly(s, 1) == s && !ReadyBelow(s, 1)
  {}

  lemma PartlyStep(s: Sys, i: nat)
    requires Wf(s) && 1 <= i < s.taskCount
    ensures var t, p := Partly(s, i), s.task[i];
            Partly(s, i + 1) ==
            if p != NULL && t.pcb[p].state == Ready
            then t.(pcb := t.pcb[p := t.pcb[p].(counter := CounterInit(t.pcb[p].priority))]) else t
  {
    var t, u, p := Partly(s, i), Partly(s, i + 1), s.task[i];
    forall q | q in s.pcb && q != p ensures u.pcb[q] == t.pcb[q] {}
    if p != NULL && t.pcb[p].state == Ready {
      assert u.pcb == t.pcb[p := t.pcb[p].(counter := CounterInit(t.pcb[p].priority))];
    } else {
      assert u.pcb == t.pcb;
    }
  }

  lemma PartlyAll(s: Sys, i: nat)
    requires Wf(s) && s.taskCount <= i
    ensures Partly(s, i) == Sjf.Refresh(s)
    ensures ReadyBelow(s, i) <==> Sjf.AnyReady(s)
  {
    forall p | p in s.pcb ensures Partly(s, i).pcb[p] == Sjf.Refresh(s).pcb[p] {
      if p in Sjf.Slots(s) {
        var k :| 0 <= k < |Sjf.Slots(s)| && Sjf.Slots(s)[k] == p;
        assert s.task[k + 1] == p;
      }
      if j :| 1 <= j < i && j < s.taskCount && s.task[j] == p { Sjf.InSlots(s, j); }
    }
    assert Partly(s, i).pcb == Sjf.Refresh(s).pcb;
  }

  lemma SlotReady(s: Sys, p: int)
    requires Wf(s) && p in s.pcb && p in Sjf.Slots(s)
    ensures s.pcb[p].state == Ready ==> Sjf.AnyReady(s)
  {
    var k :| 0 <= k < |Sjf.Slots(s)| && Sjf.Slots(s)[k] == p;
    assert s.task[k + 1] == p;
    assert s.pcb[p].state == Ready ==> Sjf.ReadySlot(s, k + 1);
  }

  lemma NothingToRefresh(s: Sys)
    requires Wf(s) && !Sjf.AnyReady(s)
    ensures Sjf.Refresh(s) == s
  {
    forall p | p in s.pcb && p in Sjf.Slots(s) ensures s.pcb[p].state != Ready { SlotReady(s, p); }
    assert Sjf.Refresh(s).pcb == s.pcb;
  }

  /** Freeing a control block that is not queued. */
  lemma Discard(m: map<int, Pcb>, p: int, q: seq<int>)
    requires Linked(m, q) && p !in q
    ensures Linked(m - {p}, q) && Procs(m - {p}) == Procs(m) - {p}
  {
    SameLinks(m, m - {p}, q);
  }

  /** A fresh control block disturbs nothing. */
  lemma Allocate(m: map<int, Pcb>, p: int, x: Proc, q: seq<int>)
    requires p !in m && Linked(m, q)
    ensures Linked(m[p := Pcb(x, NULL)], q) && Procs(m[p := Pcb(x, NULL)]) == Procs(m)[p := x]
  {
    SameLinks(m, m[p := Pcb(x, NULL)], q);
  }
}
