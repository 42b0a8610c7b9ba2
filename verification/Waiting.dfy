/**
 How long a ready process waits under the FIFO scheduler, over every run.
 */
module Waiting {
  import opened ProcessSpec
  import opened Fifo

  /** Ticks a process holds the processor for: even an exhausted counter buys one. */
  function Slice(p: Proc): (n: nat)
    ensures 1 <= n
  {
    if p.counter > 1 then p.counter else 1
  }

  function TotalSlices(pcb: map<int, Proc>, q: seq<int>): nat
    requires forall i :: 0 <= i < |q| ==> q[i] in pcb
  {
    if q == [] then 0 else Slice(pcb[q[0]]) + TotalSlices(pcb, q[1..])
  }

  /** The current process's slice and those of the processes queued ahead of `p`. */
  function Delay(s: Sys, p: int): nat
    requires Wf(s) && p in s.queue
  {
    Slice(s.pcb[s.current]) + TotalSlices(s.pcb, s.queue[..IndexOf(s.queue, p)])
  }

  lemma {:induction false} SlicesSame(a: map<int, Proc>, b: map<int, Proc>, q: seq<int>)
    requires forall i :: 0 <= i < |q| ==> q[i] in a && q[i] in b && a[q[i]].counter == b[q[i]].counter
    ensures TotalSlices(a, q) == TotalSlices(b, q)
  {
    if q != [] { SlicesSame(a, b, q[1..]); }
  }

  lemma {:induction false} SlicesBound(pcb: map<int, Proc>, q: seq<int>)
    requires forall i :: 0 <= i < |q| ==> q[i] in pcb && pcb[q[i]].counter <= 4
    ensures TotalSlices(pcb, q) <= 4 * |q|
  {
    if q != [] { SlicesBound(pcb, q[1..]); }
  }

  lemma IndexInPrefix(q: seq<int>, r: seq<int>, p: int)
    requires q <= r && p in q
    ensures p in r && IndexOf(r, p) == IndexOf(q, p)
    ensures r[..IndexOf(r, p)] == q[..IndexOf(q, p)]
  {}

  /** While the same process stays current and nobody overtakes, the delay is the same but
      for what the current process has used up. */
  lemma StayDelay(s: Sys, t: Sys, p: int)
    requires Wf(s) && Wf(t) && p in s.queue && t.current == s.current && s.queue <= t.queue
    requires forall q :: q in s.queue ==> t.pcb[q].counter == s.pcb[q].counter
    ensures p in t.queue
    ensures Delay(t, p) - Slice(t.pcb[t.current]) == Delay(s, p) - Slice(s.pcb[s.current])
  {
    IndexInPrefix(s.queue, t.queue, p);
    SlicesSame(s.pcb, t.pcb, s.queue[..IndexOf(s.queue, p)]);
  }

  /** When the head of the queue takes over, the delay drops by the whole current slice. */
  lemma SwitchDelay(s: Sys, t: Sys, p: int)
    requires Wf(s) && Wf(t) && p in s.queue && t.current == s.queue[0] && s.queue[1..] <= t.queue
    requires forall q :: q in s.queue ==> t.pcb[q].counter == s.pcb[q].counter
    ensures if p == s.queue[0] then t.current == p && Delay(s, p) == Slice(s.pcb[s.current])
            else p in t.queue && Delay(t, p) == Delay(s, p) - Slice(s.pcb[s.current])
  {
    var q := s.queue;
    if p != q[0] {
      var i := IndexOf(q, p);
      assert p in q[1..] by { assert q[1..][i - 1] == p; }
      assert IndexOf(q[1..], p) == i - 1;
      IndexInPrefix(q[1..], t.queue, p);
      assert q[..i][1..] == q[1..][..i - 1];
      SlicesSame(s.pcb, t.pcb, q[..i]);
    }
  }

  /** `schedule` called by the running process. */
  lemma YieldDelay(s: Sys, p: int)
    requires Inv(s) && p in s.queue
    ensures var t := Schedule(s);
            && Wf(t)
            && if p == s.queue[0] then t.current == p && Delay(s, p) == Slice(s.pcb[s.current])
               else t.current != p && p in t.queue && Delay(t, p) == Delay(s, p) - Slice(s.pcb[s.current])
  {
    ScheduleKeeps(s);
    assert s.queue[0] in s.queue;
    ScheduleShape(s);
    SwitchDelay(s, Schedule(s), p);
  }

  lemma ChargeDelay(s: Sys, p: int)
    requires Inv(s) && p in s.queue
    ensures var t := Charge(s);
            && Inv(t) && p in t.queue && t.queue == s.queue
            && Delay(t, p) - Slice(t.pcb[t.current]) == Delay(s, p) - Slice(s.pcb[s.current])
  {
    ChargeKeeps(s);
    StayDelay(s, Charge(s), p);
  }

  /** One tick brings a ready process exactly one tick nearer. */
  lemma TickDelay(s: Sys, p: int)
    requires Inv(s) && p in s.queue
    ensures Wf(Tick(s))
    ensures if Delay(s, p) == 1 then Tick(s).current == p
            else Tick(s).current != p && p in Tick(s).queue && Delay(Tick(s), p) == Delay(s, p) - 1
  {
    ChargeDelay(s, p);
    YieldDelay(Charge(s), p);
  }

  /** No other operation moves a ready process back. */
  lemma OtherDelay(s: Sys, op: Op, p: int)
    requires Inv(s) && Legal(s, op) && !op.TickOp? && p in s.queue
    ensures Inv(Step(s, op))
    ensures var t := Step(s, op); t.current == p || (p in t.queue && Delay(t, p) <= Delay(s, p))
  {
    StepKeeps(s, op);
    var t := Step(s, op);
    match op
    case CreateOp(e, prio, a) => CreateDelay(s, e, prio, a, p);
    case WakeOp(r) => if r in s.pcb { WakeDelay(s, r, p); }
    case YieldOp => YieldDelay(s, p);
    case BlockOp => BlockDelay(s, p);
    case ExitOp(code) => ExitDelay(s, code, p);
    case WaitOp(pid) => if WaitBegin(s, pid).1 == Waiting { BlockDelay(s, p); } else { ResumeDelay(s, pid, p); }
    case ResumeOp(pid) => ResumeDelay(s, pid, p);
  }

  lemma CreateDelay(s: Sys, e: bool, prio: nat, a: Alloc, p: int)
    requires Inv(s) && FreshAlloc(s, a) && p in s.queue
    ensures var t := Create(s, e, prio, a).0; Wf(t) && p in t.queue && Delay(t, p) == Delay(s, p)
  {
    CreateKeeps(s, e, prio, a);
    StayDelay(s, Create(s, e, prio, a).0, p);
  }

  lemma WakeDelay(s: Sys, r: int, p: int)
    requires Inv(s) && r in s.pcb && p in s.queue
    ensures var t := Wake(s, r); Wf(t) && p in t.queue && Delay(t, p) == Delay(s, p)
  {
    WakeKeeps(s, r);
    StayDelay(s, Wake(s, r), p);
  }

  lemma ResumeDelay(s: Sys, pid: int, p: int)
    requires Inv(s) && p in s.queue
    ensures var t := WaitResume(s, pid).0; Wf(t) && p in t.queue && Delay(t, p) == Delay(s, p)
  {
    ResumeKeeps(s, pid);
    StayDelay(s, WaitResume(s, pid).0, p);
  }

  lemma BlockDelay(s: Sys, p: int)
    requires Inv(s) && s.pcb[s.current].pid != 0 && p in s.queue
    ensures Inv(Block(s))
    ensures var t := Block(s); t.current == p || (p in t.queue && Delay(t, p) < Delay(s, p))
  {
    BlockKeeps(s);
    var b := SetState(s, s.current, Blocked);
    StopKeeps(s, b.pcb[s.current]);
    ScheduleShape(b);
    SwitchDelay(s, Block(s), p);
  }

  lemma ExitDelay(s: Sys, code: int, p: int)
    requires Inv(s) && p in s.queue
    ensures Wf(Exit(s, code))
    ensures var t := Exit(s, code);
            if s.pcb[s.current].pid == 0 then t == s
            else t.current == p || (p in t.queue && Delay(t, p) < Delay(s, p))
  {
    ExitKeeps(s, code);
    if s.pcb[s.current].pid != 0 {
      ExitShape(s, code);
      WakeFromEffect(MarkExited(s, code), 0);
      SwitchDelay(s, Exit(s, code), p);
    }
  }

  // ---------------------------------------------------------------- theorems

  ghost function TickN(s: Sys, n: nat): Sys
    decreases n
  {
    if n == 0 || !Wf(s) then s else TickN(Tick(s), n - 1)
  }

  lemma DelayBound(s: Sys, p: int)
    requires Inv(s) && p in s.queue
    ensures 1 <= Delay(s, p) <= 4 * (IndexOf(s.queue, p) + 1)
  {
    SlicesBound(s.pcb, s.queue[..IndexOf(s.queue, p)]);
  }

  lemma {:induction false} CurrentAfter(s: Sys, p: int, n: nat)
    requires Inv(s) && p in s.queue && n <= Delay(s, p)
    ensures TickN(s, n).current == p <==> n == Delay(s, p)
    decreases n
  {
    if n > 0 {
      TickDelay(s, p);
      TickKeeps(s);
      if Delay(s, p) > 1 { CurrentAfter(Tick(s), p, n - 1); }
    }
  }

  /** With only ticks, a ready process becomes current after exactly `Delay` of them and not
      before, and the delay at queue position `k` is at most 4(k + 1). */
  lemma ExactDelay(s: Sys, p: int)
    requires Inv(s) && p in s.queue
    ensures TickN(s, Delay(s, p)).current == p
    ensures forall n :: 0 <= n < Delay(s, p) ==> TickN(s, n).current != p
    ensures Delay(s, p) <= 4 * (IndexOf(s.queue, p) + 1)
  {
    DelayBound(s, p);
    forall n | 0 <= n <= Delay(s, p) ensures TickN(s, n).current == p <==> n == Delay(s, p) {
      CurrentAfter(s, p, n);
    }
  }

  function TickCount(ops: seq<Op>): nat {
    if ops == [] then 0 else (if ops[0].TickOp? then 1 else 0) + TickCount(ops[1..])
  }

  /** At some point of the run `p` is current. */
  ghost predicate Served(s: Sys, ops: seq<Op>, p: int)
    decreases |ops|
  {
    s.current == p || (ops != [] && Wf(s) && Served(Step(s, ops[0]), ops[1..], p))
  }

  /** No starvation: whatever the processes do in between, a ready process has been current
      by the time `Delay` ticks have gone by. */
  lemma {:induction false} BoundedWaiting(s: Sys, ops: seq<Op>, p: int)
    requires Inv(s) && LegalRun(s, ops) && p in s.queue && TickCount(ops) >= Delay(s, p)
    ensures Served(s, ops, p)
    decreases |ops|
  {
    StepKeeps(s, ops[0]);
    var t := Step(s, ops[0]);
    if ops[0].TickOp? { TickDelay(s, p); } else { OtherDelay(s, ops[0], p); }
    if t.current == p {
      assert Served(t, ops[1..], p);
    } else {
      BoundedWaiting(t, ops[1..], p);
    }
  }
}
