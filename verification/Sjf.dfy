/**
 The shortest-job-first scheduler: which task it selects, exactly when its
 refresh-and-retry recursion ends, and what runs that use only this scheduler keep.
 */
module Sjf {
  import opened Machine
  import opened Wrappers
  import opened ProcessSpec
  import Fifo

  predicate ReadySlot(s: Sys, i: nat)
    requires Wf(s)
  {
    1 <= i < s.taskCount && s.task[i] != NULL && s.pcb[s.task[i]].state == Ready
  }

  predicate Candidate(s: Sys, i: nat)
    requires Wf(s)
  {
    ReadySlot(s, i) && 0 < s.pcb[s.task[i]].counter < U32_MAX
  }

  function CounterAt(s: Sys, i: nat): nat
    requires Wf(s) && i < s.taskCount && s.task[i] != NULL
  {
    s.pcb[s.task[i]].counter
  }

  /** Slot `k` is the lowest-numbered among the candidates below `n` with the least counter;
      0 says there is no candidate. */
  ghost predicate IsPick(s: Sys, n: nat, k: nat)
    requires Wf(s)
  {
    if k == 0 then forall j :: 0 <= j < n ==> !Candidate(s, j)
    else
      && k < n && Candidate(s, k)
      && forall j :: 0 <= j < n && Candidate(s, j) ==>
           CounterAt(s, k) < CounterAt(s, j) || (CounterAt(s, k) == CounterAt(s, j) && k <= j)
  }

  function Pick(s: Sys, n: nat): (k: nat)
    requires Wf(s)
    ensures IsPick(s, n, k)
  {
    if n == 0 then 0
    else
      var k := Pick(s, n - 1);
      if Candidate(s, n - 1) && (k == 0 || CounterAt(s, n - 1) < CounterAt(s, k)) then n - 1 else k
  }

  predicate AnyReady(s: Sys)
    requires Wf(s)
  {
    exists i :: 1 <= i < s.taskCount && ReadySlot(s, i)
  }

  /** A new time slice for every ready task from slot 1 on. */
  function Refresh(s: Sys): (t: Sys)
    requires Wf(s)
    ensures Wf(t)
  {
    s.(pcb := map p | p in s.pcb ::
                if s.pcb[p].state == Ready && p in Slots(s)
                then s.pcb[p].(counter := CounterInit(s.pcb[p].priority)) else s.pcb[p])
  }

  /** The table from slot 1 up to the count. */
  function Slots(s: Sys): seq<int>
    requires Wf(s)
  {
    if s.taskCount == 0 then [] else s.task[1..s.taskCount]
  }

  lemma InSlots(s: Sys, i: nat)
    requires Wf(s) && 1 <= i < s.taskCount
    ensures s.task[i] in Slots(s)
  {}

  /** `switch_to`; a NULL target is refused. */
  function SwitchTo(s: Sys, next: int): Sys
    requires s.current in s.pcb && (next == NULL || next in s.pcb)
  {
    if next == NULL || next == s.current then s
    else
      var t := if s.pcb[s.current].state == Running then SetState(s, s.current, Ready) else s;
      SetState(t, next, Running).(current := next)
  }

  /** What a switch does to every process: the target runs, the process switched out is ready if it
      was running, and nobody's counter or anything else changes. */
  lemma SwitchEffect(s: Sys, next: int)
    requires s.current in s.pcb && (next == NULL || next in s.pcb)
    ensures next == NULL || next == s.current ==> SwitchTo(s, next) == s
    ensures next != NULL && next != s.current ==>
            var t := SwitchTo(s, next);
            && t == s.(pcb := t.pcb, current := next) && t.pcb.Keys == s.pcb.Keys
            && forall p :: p in s.pcb ==>
                 t.pcb[p] == s.pcb[p].(state := if p == next then Running
                                                else if p == s.current && s.pcb[p].state == Running then Ready
                                                else s.pcb[p].state)
  {}

  /** The process `p` is ready in a slot from 1 on. */
  ghost predicate Waits(s: Sys, p: int)
    requires Wf(s)
  {
    exists i: nat :: ReadySlot(s, i) && s.task[i] == p
  }

  /** What a refresh does to every process: the ready ones in slots from 1 on get the slice of their
      priority. */
  lemma RefreshEffect(s: Sys)
    requires Wf(s)
    ensures var t := Refresh(s);
            && t == s.(pcb := t.pcb) && t.pcb.Keys == s.pcb.Keys
            && forall p :: p in s.pcb ==>
                 t.pcb[p] == if Waits(s, p)
                             then s.pcb[p].(counter := CounterInit(s.pcb[p].priority)) else s.pcb[p]
  {
    forall p | p in s.pcb
      ensures Waits(s, p) <==> s.pcb[p].state == Ready && p in Slots(s)
    {
      if p in Slots(s) && s.pcb[p].state == Ready {
        var k :| 0 <= k < |Slots(s)| && Slots(s)[k] == p;
        assert ReadySlot(s, k + 1) && s.task[k + 1] == p;
      }
    }
  }

  /** Nothing can be selected, but something is ready: refresh and try again. */
  predicate Retries(s: Sys)
    requires Wf(s)
  {
    Pick(s, s.taskCount) == 0 && AnyReady(s)
  }

  /** The switch that ends a call. */
  function Decide(s: Sys): Sys
    requires Wf(s)
  {
    var k := Pick(s, s.taskCount);
    if k != 0 then SwitchTo(s, s.task[k])
    else if s.pcb[s.current].pid != 0 then SwitchTo(s, s.task[0])
    else s
  }

  /** `schedule_sjf`, as far as `depth` nested calls; `None` when they did not suffice. */
  function ScheduleSjf(s: Sys, depth: nat): Option<Sys>
    requires Wf(s)
    decreases depth
  {
    if depth == 0 then None
    else if Retries(s) then ScheduleSjf(Refresh(s), depth - 1)
    else Some(Decide(s))
  }

  // ---------------------------------------------------------------- termination

  /** Nothing is ready, or something ready has a usable counter or gets one by a refresh. */
  ghost predicate Halts(s: Sys)
    requires Wf(s)
  {
    || !AnyReady(s)
    || (exists i :: 1 <= i < s.taskCount && Candidate(s, i))
    || (exists i :: 1 <= i < s.taskCount && ReadySlot(s, i) && s.pcb[s.task[i]].priority % 5 != 0)
  }

  lemma RefreshSlots(s: Sys, i: nat)
    requires Wf(s) && 1 <= i < s.taskCount
    ensures ReadySlot(Refresh(s), i) <==> ReadySlot(s, i)
    ensures ReadySlot(s, i) ==> CounterAt(Refresh(s), i) == CounterInit(s.pcb[s.task[i]].priority)
    ensures ReadySlot(s, i) ==> Refresh(s).pcb[s.task[i]].priority == s.pcb[s.task[i]].priority
    ensures Candidate(Refresh(s), i) <==> ReadySlot(s, i) && s.pcb[s.task[i]].priority % 5 != 0
  {
    InSlots(s, i);
  }

  lemma RefreshAll(s: Sys)
    requires Wf(s)
    ensures AnyReady(Refresh(s)) <==> AnyReady(s)
    ensures forall i :: 1 <= i < s.taskCount ==>
              (Candidate(Refresh(s), i) <==> ReadySlot(s, i) && s.pcb[s.task[i]].priority % 5 != 0)
  {
    forall i | 1 <= i < s.taskCount
      ensures ReadySlot(Refresh(s), i) <==> ReadySlot(s, i)
      ensures Candidate(Refresh(s), i) <==> ReadySlot(s, i) && s.pcb[s.task[i]].priority % 5 != 0
    {
      RefreshSlots(s, i);
    }
  }

  lemma RefreshIdempotent(s: Sys)
    requires Wf(s)
    ensures Refresh(Refresh(s)) == Refresh(s)
  {
    var t := Refresh(s);
    assert Slots(t) == Slots(s);
    forall p | p in s.pcb ensures Refresh(t).pcb[p] == t.pcb[p] {}
    assert Refresh(t).pcb == t.pcb;
  }

  lemma PickNone(s: Sys)
    requires Wf(s)
    ensures Pick(s, s.taskCount) == 0 <==> !exists i :: 1 <= i < s.taskCount && Candidate(s, i)
  {}

  /** At most one refresh is needed when the recursion ends at all. */
  lemma HaltsInTwo(s: Sys)
    requires Wf(s) && Halts(s)
    ensures ScheduleSjf(s, 2).Some?
    ensures forall d :: d >= 2 ==> ScheduleSjf(s, d) == ScheduleSjf(s, 2)
  {
    PickNone(s);
    if Pick(s, s.taskCount) == 0 && AnyReady(s) {
      RefreshAll(s);
      PickNone(Refresh(s));
      forall d: nat | d >= 2 ensures ScheduleSjf(s, d) == ScheduleSjf(s, 2) {
        assert ScheduleSjf(s, d) == ScheduleSjf(Refresh(s), d - 1);
        assert ScheduleSjf(s, 2) == ScheduleSjf(Refresh(s), 1);
      }
    }
  }

  lemma StillStuck(s: Sys)
    requires Wf(s) && !Halts(s)
    ensures !Halts(Refresh(s))
  {
    RefreshAll(s);
    forall i | 1 <= i < s.taskCount && ReadySlot(Refresh(s), i)
      ensures Refresh(s).pcb[s.task[i]].priority % 5 == 0
    {
      RefreshSlots(s, i);
    }
  }

  lemma StuckRetries(s: Sys)
    requires Wf(s) && !Halts(s)
    ensures Retries(s)
  {}

  lemma {:induction false} FixedPointNeverHalts(s: Sys, d: nat)
    requires Wf(s) && Retries(s) && Refresh(s) == s
    ensures ScheduleSjf(s, d) == None
  {
    if d > 0 { FixedPointNeverHalts(s, d - 1); }
  }

  lemma NeverHalts(s: Sys, d: nat)
    requires Wf(s) && !Halts(s)
    ensures ScheduleSjf(s, d) == None
  {
    if d > 0 {
      StuckRetries(s);
      StillStuck(s);
      StuckRetries(Refresh(s));
      RefreshIdempotent(s);
      FixedPointNeverHalts(Refresh(s), d - 1);
    }
  }

  /** `schedule_sjf` ends exactly when `Halts` holds, and then within one retry; otherwise no
      depth of recursion suffices and the refresh it keeps repeating changes nothing. */
  lemma SjfTermination(s: Sys)
    requires Wf(s)
    ensures Halts(s) <==> exists d :: ScheduleSjf(s, d).Some?
    ensures Halts(s) <==> ScheduleSjf(s, 2).Some?
    ensures !Halts(s) ==> Refresh(Refresh(s)) == Refresh(s)
    ensures !Halts(s) && Fifo.Slices(s) ==> Refresh(s) == s
  {
    if Halts(s) {
      HaltsInTwo(s);
    } else {
      forall d: nat ensures ScheduleSjf(s, d) == None { NeverHalts(s, d); }
      RefreshIdempotent(s);
      if Fifo.Slices(s) { StuckIsFixed(s); }
    }
  }

  lemma StuckIsFixed(s: Sys)
    requires Wf(s) && !Halts(s) && Fifo.Slices(s)
    ensures Refresh(s) == s
  {
    forall p | p in s.pcb ensures Refresh(s).pcb[p] == s.pcb[p] {
      if s.pcb[p].state == Ready && p in Slots(s) {
        var k :| 0 <= k < |Slots(s)| && Slots(s)[k] == p;
        assert s.task[k + 1] == p && ReadySlot(s, k + 1) && !Candidate(s, k + 1);
      }
    }
    assert Refresh(s).pcb == s.pcb;
  }

  // ---------------------------------------------------------------- selection

  /** The state the search succeeds in: refreshed if nothing could be selected before. */
  function Base(s: Sys): Sys
    requires Wf(s)
  {
    if Pick(s, s.taskCount) == 0 && AnyReady(s) then Refresh(s) else s
  }

  lemma SjfPicks(s: Sys) returns (k: nat)
    requires Wf(s) && Halts(s) && AnyReady(s)
    ensures Wf(Base(s)) && 1 <= k < s.taskCount && IsPick(Base(s), s.taskCount, k)
    ensures ScheduleSjf(s, 2) == Some(SwitchTo(Base(s), s.task[k]))
  {
    PickNone(s);
    if Pick(s, s.taskCount) == 0 {
      RefreshAll(s);
      PickNone(Refresh(s));
      assert ScheduleSjf(s, 2) == ScheduleSjf(Refresh(s), 1);
    }
    k := Pick(Base(s), s.taskCount);
  }

  /** What a finished `schedule_sjf` did: it switched to the lowest-numbered ready task with the
      least nonzero counter, counted after the refresh if there was one; with nothing ready
      it fell back to idle. */
  lemma SjfSelects(s: Sys)
    requires Wf(s) && Halts(s)
    ensures && Wf(Base(s)) && Base(s).taskCount == s.taskCount && Base(s).task == s.task
            && (AnyReady(s) ==>
                  exists k :: 1 <= k < s.taskCount && IsPick(Base(s), s.taskCount, k)
                              && ScheduleSjf(s, 2) == Some(SwitchTo(Base(s), s.task[k])))
            && (!AnyReady(s) ==>
                  ScheduleSjf(s, 2) == Some(if s.pcb[s.current].pid == 0 then s else SwitchTo(s, s.task[0])))
  {
    PickNone(s);
    if AnyReady(s) {
      var k := SjfPicks(s);
    } else {
      assert forall i :: 1 <= i < s.taskCount && Candidate(s, i) ==> ReadySlot(s, i);
    }
  }

  // ---------------------------------------------------------------- runs that use only SJF

  datatype Op =
    | CreateOp(hasEntry: bool, priority: nat, alloc: Alloc)
    | WakeOp(p: int)
    | TickOp
    | SjfOp

  ghost predicate OneRunning(s: Sys) {
    Wf(s) && forall p :: p in s.pcb ==> (s.pcb[p].state == Running <==> p == s.current)
  }

  ghost function Step(s: Sys, op: Op): Sys
    requires Wf(s)
  {
    match op
    case CreateOp(e, prio, a) => Create(s, e, prio, a).0
    case WakeOp(p) => if p in s.pcb then Wake(s, p) else s
    case TickOp => Tick(s)
    case SjfOp => var r := ScheduleSjf(s, 2); if r.Some? then r.value else s
  }

  /** A tick that uses up the slice calls the FIFO scheduler, and a `schedule_sjf` that never
      returns ends the run; neither belongs to an SJF-only run. */
  ghost predicate Legal(s: Sys, op: Op)
    requires Wf(s)
  {
    match op
    case CreateOp(_, _, a) => FreshAlloc(s, a)
    case WakeOp(p) => p == NULL || p in s.pcb
    case TickOp => s.pcb[s.current].counter > 1
    case SjfOp => Halts(s)
  }

  ghost function Run(s: Sys, ops: seq<Op>): Sys
    decreases |ops|
  {
    if ops == [] || !Wf(s) then s else Run(Step(s, ops[0]), ops[1..])
  }

  ghost predicate LegalRun(s: Sys, ops: seq<Op>)
    decreases |ops|
  {
    ops == [] || (Wf(s) ==> Legal(s, ops[0]) && LegalRun(Step(s, ops[0]), ops[1..]))
  }

  lemma SwitchOne(s: Sys, p: int)
    requires OneRunning(s) && (p == NULL || p in s.pcb)
    ensures OneRunning(SwitchTo(s, p))
  {}

  lemma CreateOne(s: Sys, e: bool, prio: nat, a: Alloc)
    requires OneRunning(s) && FreshAlloc(s, a)
    ensures OneRunning(Create(s, e, prio, a).0)
  {}

  lemma StepOne(s: Sys, op: Op)
    requires OneRunning(s) && Legal(s, op)
    ensures OneRunning(Step(s, op))
  {
    match op
    case CreateOp(e, prio, a) => CreateOne(s, e, prio, a);
    case WakeOp(p) =>
    case TickOp =>
    case SjfOp =>
      SjfSelects(s);
      if AnyReady(s) {
        var k := SjfPicks(s);
        assert OneRunning(Base(s));
        SwitchOne(Base(s), s.task[k]);
      } else {
        SwitchOne(s, s.task[0]);
      }
  }

  /** Every run that schedules only by SJF keeps exactly one running task, the current one. */
  lemma {:induction false} RunKeepsOneRunning(s: Sys, ops: seq<Op>)
    requires OneRunning(s) && LegalRun(s, ops)
    ensures OneRunning(Run(s, ops))
    decreases |ops|
  {
    if ops != [] {
      StepOne(s, ops[0]);
      RunKeepsOneRunning(Step(s, ops[0]), ops[1..]);
    }
  }

  // ---------------------------------------------------------------- priority 0

  /** A process other than idle whose priority gives it no time slice. */
  ghost predicate Sliceless(s: Sys, p: int) {
    && Wf(s) && p in s.pcb && p != s.current && p != s.task[0]
    && s.pcb[p].counter == 0 && s.pcb[p].priority % 5 == 0
  }

  lemma SjfPassesOver(s: Sys, p: int)
    requires Sliceless(s, p) && Halts(s)
    ensures Sliceless(Step(s, SjfOp), p)
  {
    SjfSelects(s);
    if AnyReady(s) {
      RefreshPassesOver(s, p);
      var k := SjfPicks(s);
      SwitchPassesOver(Base(s), p, s.task[k]);
    } else {
      SwitchPassesOver(s, p, s.task[0]);
    }
  }

  lemma RefreshPassesOver(s: Sys, p: int)
    requires Sliceless(s, p)
    ensures Sliceless(Refresh(s), p)
  {}

  lemma SwitchPassesOver(s: Sys, p: int, next: int)
    requires Sliceless(s, p) && next != p && (next == NULL || next in s.pcb)
    ensures Sliceless(SwitchTo(s, next), p)
  {}

  lemma CreatePassesOver(s: Sys, p: int, e: bool, prio: nat, a: Alloc)
    requires Sliceless(s, p) && FreshAlloc(s, a)
    ensures Sliceless(Create(s, e, prio, a).0, p)
  {}

  /** Contrary to its documented rank, priority 0 is never scheduled by SJF: in every
      SJF-only run such a process stays off the processor, ready or not. */
  lemma {:induction false} PriorityZeroStarves(s: Sys, p: int, ops: seq<Op>)
    requires Sliceless(s, p) && LegalRun(s, ops)
    ensures Run(s, ops).current != p
    decreases |ops|
  {
    if ops != [] {
      match ops[0] {
        case CreateOp(e, prio, a) => CreatePassesOver(s, p, e, prio, a);
        case WakeOp(q) =>
        case TickOp =>
        case SjfOp => SjfPassesOver(s, p);
      }
      PriorityZeroStarves(Step(s, ops[0]), p, ops[1..]);
    }
  }

  /** `process_create` with priority 0 makes such a process. */
  lemma PriorityZeroIsSliceless(s: Sys, ptr: int)
    requires Wf(s) && s.task[0] != NULL && FreshAlloc(s, Granted(ptr)) && s.taskCount < MAX_TASKS
    ensures Sliceless(Create(s, true, 0, Granted(ptr)).0, ptr)
  {}
}
