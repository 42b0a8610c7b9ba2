/**
 Why FIFO and SJF scheduling must not be mixed: `switch_to` leaves the ready queue alone,
 so a later `schedule` adds a process that is already queued and cuts the queue short.
 */
module Mixed {
  import opened Machine
  import opened SeqFacts
  import opened Wrappers
  import opened ProcessSpec
  import Fifo
  import Sjf

  // ---------------------------------------------------------------- exactly when it breaks

  lemma ReadyHasSlot(s: Sys, p: int)
    requires Fifo.Table(s) && p in s.pcb && s.pcb[p].state == Ready && p != s.task[0]
    ensures Sjf.AnyReady(s)
  {
    assert p in s.task;
    var i :| 0 <= i < MAX_TASKS && s.task[i] == p;
    assert Sjf.ReadySlot(s, i);
  }

  /** With a process queued, SJF makes a queued process run without taking it off the queue. */
  lemma SjfRunsQueued(s: Sys)
    requires Fifo.Inv(s) && Sjf.Halts(s) && s.queue != []
    ensures var r := Sjf.ScheduleSjf(s, 2);
            && r.Some? && r.value.queue == s.queue && r.value.current in s.queue
            && r.value.current in r.value.pcb && r.value.pcb[r.value.current].state == Running
  {
    Sjf.SjfSelects(s);
    if Sjf.AnyReady(s) {
      var k := Sjf.SjfPicks(s);
      assert s.task[k] in s.queue;
    } else {
      var p := s.queue[0];
      assert p in s.queue;
      if p != s.task[0] { ReadyHasSlot(s, p); }
      assert s.current != s.task[0];
    }
  }

  /** A completed SJF decision keeps the FIFO scheduler's invariant exactly when the ready
      queue is empty, that is, when idle is running and there is nothing to decide. */
  lemma SjfKeepsFifoIff(s: Sys)
    requires Fifo.Inv(s) && Sjf.Halts(s)
    ensures Sjf.ScheduleSjf(s, 2).Some?
    ensures Fifo.Inv(Sjf.ScheduleSjf(s, 2).value) <==> s.queue == []
  {
    if s.queue != [] {
      SjfRunsQueued(s);
    } else {
      assert s.task[0] !in s.queue;
      Sjf.SjfSelects(s);
      assert !Sjf.AnyReady(s) by {
        forall i | 1 <= i < s.taskCount ensures !Sjf.ReadySlot(s, i) { assert s.task[i] !in s.queue; }
      }
    }
  }

  // ---------------------------------------------------------------- a run that loses processes

  /** A control block as `process_create` leaves it at priority 1, in the given state. */
  function Fresh(pid: int, state: ProcState): Proc { Proc(pid, state, 1, 4, 0) }

  /** Idle at address 1 and three processes of priority 1 at 2, 3 and 4. */
  function Four(a: ProcState, b: ProcState, c: ProcState, d: ProcState, current: int, queue: seq<int>): (s: Sys)
    requires 1 <= current <= 4 && forall p :: p in queue ==> 1 <= p <= 4
    ensures Wf(s)
  {
    Sys(map[1 := Proc(0, a, 0, 0, 0), 2 := Fresh(1, b), 3 := Fresh(2, c), 4 := Fresh(3, d)],
        seq(MAX_TASKS, i => if i < 4 then i + 1 else NULL), 4, 4, current, queue)
  }

  /** Idle and the first `n - 1` processes of priority 1, none of which has run yet. */
  function Spawned(n: nat): (s: Sys)
    requires 1 <= n <= 4
    ensures Wf(s)
  {
    Sys(map p | p in Start().pcb && p <= n :: Start().pcb[p],
        seq(MAX_TASKS, i => if i < n then i + 1 else NULL), n, n, 1, seq(n - 1, i => i + 2))
  }

  lemma SpawnNext(n: nat)
    requires 1 <= n <= 3
    ensures Create(Spawned(n), true, 1, Granted(n + 1)).0 == Spawned(n + 1)
  {
    var s, t := Spawned(n), Spawned(n + 1);
    EmptySlotIs(s.task, n);
    assert n + 1 !in s.queue;
    assert s.queue + [n + 1] == t.queue;
    assert s.task[n := n + 1] == t.task;
    assert s.pcb[n + 1 := Fresh(n, Ready)] == t.pcb;
  }

  lemma SpawnedFirst()
    ensures Spawned(1) == InitialSys(1)
  {
    assert Spawned(1).pcb == InitialSys(1).pcb;
    assert Spawned(1).task == InitialSys(1).task;
  }

  lemma SpawnedLast()
    ensures Spawned(4) == Start()
  {
    assert Spawned(4).pcb == Start().pcb;
    assert Spawned(4).task == Start().task;
    assert Spawned(4).queue == Start().queue;
  }

  /** The creations that lead from `n` control blocks to four. */
  function Creates(n: nat): seq<Fifo.Op>
    requires 1 <= n <= 4
    decreases 4 - n
  {
    if n == 4 then [] else [Fifo.CreateOp(true, 1, Granted(n + 1))] + Creates(n + 1)
  }

  lemma {:induction false} SpawnRun(n: nat)
    requires 1 <= n <= 4
    ensures Fifo.LegalRun(Spawned(n), Creates(n)) && Fifo.Run(Spawned(n), Creates(n)) == Spawned(4)
    decreases 4 - n
  {
    if n < 4 {
      SpawnNext(n);
      SpawnRun(n + 1);
      assert Creates(n)[1..] == Creates(n + 1);
    }
  }

  /** The starting state is reached by three creations. */
  lemma StartReached()
    ensures Fifo.LegalRun(InitialSys(1), Creates(1)) && Fifo.Run(InitialSys(1), Creates(1)) == Start()
  {
    SpawnedFirst();
    SpawnRun(1);
    SpawnedLast();
  }

  lemma SjfStep(s: Sys, k: nat)
    requires Wf(s) && 1 <= k < s.taskCount && Sjf.IsPick(s, s.taskCount, k)
    ensures Sjf.ScheduleSjf(s, 2) == Some(Sjf.SwitchTo(s, s.task[k]))
  {
    var j := Sjf.Pick(s, s.taskCount);
    assert Sjf.IsPick(s, s.taskCount, j);
  }

  function Start(): Sys { Four(Running, Ready, Ready, Ready, 1, [2, 3, 4]) }
  function AfterSjf(): Sys { Four(Ready, Running, Ready, Ready, 2, [2, 3, 4]) }
  function AfterTwoSjf(): Sys { Four(Ready, Ready, Running, Ready, 3, [2, 3, 4]) }
  function AfterFifo(): Sys { Four(Ready, Running, Ready, Ready, 2, [3]) }

  lemma FirstSjf()
    ensures Sjf.ScheduleSjf(Start(), 2) == Some(AfterSjf())
  {
    SjfStep(Start(), 1);
    assert Sjf.SwitchTo(Start(), 2).pcb == AfterSjf().pcb;
  }

  lemma SecondSjf()
    ensures Sjf.ScheduleSjf(AfterSjf(), 2) == Some(AfterTwoSjf())
  {
    SjfStep(AfterSjf(), 2);
    assert Sjf.SwitchTo(AfterSjf(), 3).pcb == AfterTwoSjf().pcb;
  }

  lemma PreemptCuts()
    ensures Preempt(AfterTwoSjf()) == Four(Ready, Ready, Ready, Ready, 3, [2, 3])
  {}

  lemma SwitchInCuts()
    ensures SwitchIn(Four(Ready, Ready, Ready, Ready, 3, [2, 3]), 2) == AfterFifo()
  {}

  lemma ThenFifo()
    ensures Schedule(AfterTwoSjf()) == AfterFifo()
  {
    assert AfterTwoSjf().queue[0] == 2;
    PreemptCuts();
    SwitchInCuts();
  }

  /** After three creations from `process_init`, two SJF decisions and one FIFO decision leave
      process 4, and idle, ready but neither current nor queued. */
  lemma MixedRunLosesReady()
    ensures Fifo.LegalRun(InitialSys(1), Creates(1)) && Fifo.Run(InitialSys(1), Creates(1)) == Start()
    ensures Sjf.ScheduleSjf(Start(), 2) == Some(AfterSjf())
    ensures Sjf.ScheduleSjf(AfterSjf(), 2) == Some(AfterTwoSjf())
    ensures var t := Schedule(AfterTwoSjf());
            && t == AfterFifo()
            && t.pcb[4].state == Ready && t.current != 4 && 4 !in t.queue
            && t.pcb[1].state == Ready && t.current != 1 && 1 !in t.queue
  {
    StartReached();
    FirstSjf();
    SecondSjf();
    ThenFifo();
  }
}
