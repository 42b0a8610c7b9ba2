/**
 States that creations alone reach and in which SJF scheduling fails: the decision recurses
 for ever, or a process with a full time slice never runs.
 */
module SjfFails {
  import opened Machine
  import opened SeqFacts
  import opened Wrappers
  import opened ProcessSpec
  import Fifo
  import Sjf
  import SjfReach
  import Mixed

  /** What one creation of priority 0 after `process_init` leaves. */
  lemma FirstCreated(idle: int, p: int)
    requires idle != NULL && p != NULL && p != idle
    ensures var s := Create(InitialSys(idle), true, 0, Granted(p)).0;
            && Wf(s) && s.taskCount == 2 && s.task[0] == idle && s.task[1] == p && s.current == idle
            && s.pcb == map[idle := Proc(0, Running, 0, 0, 0), p := Proc(1, Ready, 0, 0, 0)]
  {
    EmptySlotIs(InitialSys(idle).task, 1);
  }

  /** Create one process of priority 0 after `process_init`, and `schedule_sjf` never returns. */
  lemma NeverReturnsReached(idle: int, p: int) returns (s: Sys)
    requires idle != NULL && p != NULL && p != idle
    ensures var ops := [Fifo.CreateOp(true, 0, Granted(p))];
            Fifo.LegalRun(InitialSys(idle), ops) && s == Fifo.Run(InitialSys(idle), ops)
    ensures Wf(s) && forall d: nat :: Sjf.ScheduleSjf(s, d) == None
  {
    s := Create(InitialSys(idle), true, 0, Granted(p)).0;
    FirstCreated(idle, p);
    assert Sjf.ReadySlot(s, 1);
    forall d: nat ensures Sjf.ScheduleSjf(s, d) == None { Sjf.NeverHalts(s, d); }
  }

  lemma StartSeated()
    ensures SjfReach.Seated(Mixed.Start()) && Sjf.ReadySlot(Mixed.Start(), 3)
  {}

  lemma LastStarved()
    ensures Wf(Mixed.Start()) && Sjf.ReadySlot(Mixed.Start(), 3) && SjfReach.Starved(Mixed.Start(), 3)
  {
    var s := Mixed.Start();
    assert SjfReach.Ahead(s, 1, 3) && SjfReach.Ahead(s, 2, 3);
  }

  /** After three creations of priority 1 the third process has as long a slice as the others,
      and yet no SJF-only run ever makes it current. */
  lemma StarvedReached(ops: seq<Sjf.Op>)
    requires Sjf.LegalRun(Mixed.Start(), ops)
    ensures Fifo.LegalRun(InitialSys(1), Mixed.Creates(1)) && Fifo.Run(InitialSys(1), Mixed.Creates(1)) == Mixed.Start()
    ensures Mixed.Start().pcb[4] == Mixed.Start().pcb[3].(pid := 3) && Mixed.Start().pcb[4].counter == 4
    ensures Sjf.Run(Mixed.Start(), ops).current != 4
  {
    Mixed.StartReached();
    StartSeated();
    LastStarved();
    SjfReach.StarvedNeverRuns(Mixed.Start(), 3, ops);
  }
}
