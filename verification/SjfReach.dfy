/**
 Which ready processes the shortest-job-first scheduler can ever run: the exact condition
 on the present state for some SJF-only run to make a ready process current.
 */
module SjfReach {
  import opened Machine
  import opened Wrappers
  import opened ProcessSpec
  import opened Sjf

  /** One process runs, the current one, and no process sits in two slots. */
  ghost predicate Seated(s: Sys) {
    OneRunning(s) && forall i, j :: 0 <= i < j < MAX_TASKS && s.task[i] != NULL ==> s.task[i] != s.task[j]
  }

  /** Slot `i` holds a process that is ready or running. */
  predicate Up(s: Sys, i: nat)
    requires Wf(s)
  {
    && 1 <= i < s.taskCount && s.task[i] != NULL
    && (s.pcb[s.task[i]].state == Ready || s.pcb[s.task[i]].state == Running)
  }

  /** ... and has a counter that the search would accept. */
  predicate Usable(s: Sys, i: nat)
    requires Wf(s)
  {
    Up(s, i) && 0 < CounterAt(s, i) < U32_MAX
  }

  function SliceOf(s: Sys, i: nat): nat
    requires Wf(s) && Up(s, i)
  {
    CounterInit(s.pcb[s.task[i]].priority)
  }

  predicate Before(c: nat, i: nat, d: nat, k: nat) { c < d || (c == d && i < k) }

  /** Slot `i` is preferred to slot `k` whenever both are ready. */
  predicate Ahead(s: Sys, i: nat, k: nat)
    requires Wf(s)
  {
    i != k && Usable(s, i) && Usable(s, k) && Before(CounterAt(s, i), i, CounterAt(s, k), k)
  }

  /** Slot `i` will be preferred to slot `k` once a refresh has given `k` its slice: it keeps
      a usable counter, or the refresh will give it one because it is ready then. */
  predicate LateAhead(s: Sys, i: nat, k: nat)
    requires Wf(s) && Up(s, k)
  {
    && i != k && Up(s, i)
    && if Usable(s, i) then Before(CounterAt(s, i), i, SliceOf(s, k), k)
       else (ReadySlot(s, i) || AnyCandidate(s)) && 0 < SliceOf(s, i) && Before(SliceOf(s, i), i, SliceOf(s, k), k)
  }

  predicate AnyCandidate(s: Sys)
    requires Wf(s)
  {
    exists i :: 1 <= i < s.taskCount && Candidate(s, i)
  }

  ghost predicate TwoAhead(s: Sys, k: nat)
    requires Wf(s)
  {
    exists i, j :: i != j && Ahead(s, i, k) && Ahead(s, j, k)
  }

  ghost predicate TwoUsable(s: Sys)
    requires Wf(s)
  {
    exists i, j :: i != j && Usable(s, i) && Usable(s, j)
  }

  ghost predicate TwoLate(s: Sys, k: nat)
    requires Wf(s) && Up(s, k)
  {
    exists i, j :: i != j && LateAhead(s, i, k) && LateAhead(s, j, k)
  }

  /** A ready process with a usable counter is starved when two others are preferred to it; one
      without, when a refresh would not help it, when two usable counters keep the refresh from
      happening, or when two others would be preferred after it. */
  ghost predicate Starved(s: Sys, k: nat)
    requires Wf(s) && ReadySlot(s, k)
  {
    if Usable(s, k) then TwoAhead(s, k)
    else SliceOf(s, k) == 0 || TwoUsable(s) || TwoLate(s, k)
  }

  // ---------------------------------------------------------------- one decision

  /** What a refresh changes for the slots: ready ones get their slice. */
  lemma Refreshed(s: Sys, i: nat)
    requires Wf(s)
    ensures var t := Refresh(s);
            && (Up(t, i) <==> Up(s, i)) && (ReadySlot(t, i) <==> ReadySlot(s, i))
            && (Up(s, i) ==>
                  && SliceOf(t, i) == SliceOf(s, i)
                  && CounterAt(t, i) == if ReadySlot(s, i) then SliceOf(s, i) else CounterAt(s, i))
  {
    if 1 <= i < s.taskCount { RefreshSlots(s, i); }
  }

  lemma BaseIs(s: Sys)
    requires Seated(s) && AnyReady(s)
    ensures Base(s) == if AnyCandidate(s) then s else Refresh(s)
    ensures Seated(Base(s)) && Base(s).task == s.task && Base(s).taskCount == s.taskCount
  {
    PickNone(s);
  }

  /** With something to select, `schedule_sjf` switches to the pick of that state. */
  lemma Decision(s: Sys) returns (m: nat)
    requires Seated(s) && AnyReady(s) && Halts(s)
    ensures Base(s) == (if AnyCandidate(s) then s else Refresh(s)) && Seated(Base(s))
    ensures 1 <= m < s.taskCount && IsPick(Base(s), s.taskCount, m)
    ensures Step(s, SjfOp) == SwitchTo(Base(s), s.task[m])
  {
    BaseIs(s);
    m := SjfPicks(s);
  }

  /** What a switch to the ready slot `m` changes for the slots. */
  lemma Switched(s: Sys, m: nat)
    requires Seated(s) && ReadySlot(s, m)
    ensures var t := SwitchTo(s, s.task[m]);
            && Seated(t) && t.task == s.task && t.taskCount == s.taskCount && t.current == s.task[m]
            && (forall i :: Up(t, i) <==> Up(s, i))
            && (forall i :: Usable(t, i) <==> Usable(s, i))
            && (forall i :: Up(s, i) ==> CounterAt(t, i) == CounterAt(s, i) && SliceOf(t, i) == SliceOf(s, i))
            && (forall i :: ReadySlot(t, i) <==> Up(s, i) && i != m)
  {}

  // ---------------------------------------------------------------- the starved stay starved

  /** With two others preferred, the decision falls on another slot and both stay preferred. */
  lemma AheadDecides(s: Sys, k: nat, m: nat)
    requires Seated(s) && ReadySlot(s, k) && TwoAhead(s, k)
    requires 1 <= m < s.taskCount && IsPick(s, s.taskCount, m)
    ensures m != k
    ensures var t := SwitchTo(s, s.task[m]); Seated(t) && ReadySlot(t, k) && Usable(t, k) && TwoAhead(t, k)
  {
    var i: nat, j: nat :| i != j && Ahead(s, i, k) && Ahead(s, j, k);
    assert Candidate(s, i) || Candidate(s, j) by {
      assert s.task[i] != s.task[j];
    }
    Switched(s, m);
    var t := SwitchTo(s, s.task[m]);
    assert Ahead(t, i, k) && Ahead(t, j, k);
  }

  /** With two usable counters there is never a refresh, and both stay usable. */
  lemma UsableDecides(s: Sys, k: nat, m: nat)
    requires Seated(s) && ReadySlot(s, k) && !Usable(s, k) && TwoUsable(s)
    requires 1 <= m < s.taskCount && IsPick(s, s.taskCount, m)
    ensures AnyCandidate(s) && m != k
    ensures var t := SwitchTo(s, s.task[m]); Seated(t) && ReadySlot(t, k) && !Usable(t, k) && TwoUsable(t)
  {
    var i: nat, j: nat :| i != j && Usable(s, i) && Usable(s, j);
    assert Candidate(s, i) || Candidate(s, j) by {
      assert s.task[i] != s.task[j];
    }
    Switched(s, m);
    var t := SwitchTo(s, s.task[m]);
    assert Usable(t, i) && Usable(t, j);
  }

  /** A decision before the refresh leaves both late rivals in place. */
  lemma LateSwitch(s: Sys, k: nat, m: nat)
    requires Seated(s) && ReadySlot(s, k) && !Usable(s, k) && TwoLate(s, k) && Candidate(s, m)
    ensures var t := SwitchTo(s, s.task[m]); Seated(t) && ReadySlot(t, k) && !Usable(t, k) && TwoLate(t, k)
  {
    var i: nat, j: nat :| i != j && LateAhead(s, i, k) && LateAhead(s, j, k);
    Switched(s, m);
    var t := SwitchTo(s, s.task[m]);
    assert LateAhead(t, i, k) && LateAhead(t, j, k);
  }

  /** The refresh turns late rivals, and only those, into rivals. */
  lemma LateRefresh(s: Sys, i: nat, k: nat)
    requires Seated(s) && ReadySlot(s, k) && SliceOf(s, k) > 0 && !AnyCandidate(s)
    ensures Ahead(Refresh(s), i, k) <==> LateAhead(s, i, k)
  {
    Refreshed(s, k);
    Refreshed(s, i);
    assert Usable(s, i) ==> !ReadySlot(s, i) by { assert Usable(s, i) && ReadySlot(s, i) ==> Candidate(s, i); }
  }

  lemma LateRefreshTwo(s: Sys, k: nat)
    requires Seated(s) && ReadySlot(s, k) && SliceOf(s, k) > 0 && !AnyCandidate(s)
    ensures ReadySlot(Refresh(s), k) && Usable(Refresh(s), k)
    ensures TwoAhead(Refresh(s), k) <==> TwoLate(s, k)
  {
    Refreshed(s, k);
    forall i: nat ensures Ahead(Refresh(s), i, k) <==> LateAhead(s, i, k) { LateRefresh(s, i, k); }
  }

  /** A decision never makes a starved process run, and leaves it starved. */
  lemma SjfStarves(s: Sys, k: nat)
    requires Seated(s) && ReadySlot(s, k) && Starved(s, k) && Halts(s)
    ensures var t := Step(s, SjfOp);
            Seated(t) && t.task == s.task && t.current != s.task[k] && ReadySlot(t, k) && Starved(t, k)
  {
    assert AnyReady(s);
    var m := Decision(s);
    BaseIs(s);
    if Usable(s, k) {
      assert Candidate(s, k);
      AheadDecides(s, k, m);
      Switched(s, m);
    } else if TwoUsable(s) {
      UsablePresent(s);
      UsableDecides(s, k, m);
      Switched(s, m);
    } else if AnyCandidate(s) {
      Switched(s, m);
      if SliceOf(s, k) > 0 { LateSwitch(s, k, m); }
    } else {
      Switched(Refresh(s), m);
      Refreshed(s, k);
      if SliceOf(s, k) > 0 {
        LateRefreshTwo(s, k);
        AheadDecides(Refresh(s), k, m);
      }
    }
  }

  lemma UsablePresent(s: Sys)
    requires Seated(s) && TwoUsable(s)
    ensures AnyCandidate(s)
  {
    var i: nat, j: nat :| i != j && Usable(s, i) && Usable(s, j);
    assert s.task[i] != s.task[j];
    assert Candidate(s, i) || Candidate(s, j);
  }

  /** Slots that were up stay up with the same numbers; more may come up. */
  ghost predicate Grows(s: Sys, t: Sys) {
    && Seated(s) && Seated(t) && s.taskCount <= t.taskCount && t.current == s.current
    && (forall i: nat :: Up(s, i) ==> t.task[i] == s.task[i] && t.pcb[s.task[i]] == s.pcb[s.task[i]])
  }

  lemma GrowthStarves(s: Sys, t: Sys, k: nat)
    requires Grows(s, t) && ReadySlot(s, k) && Starved(s, k)
    ensures t.task[k] == s.task[k] && ReadySlot(t, k) && Starved(t, k)
  {
    assert Up(s, k);
    if Usable(s, k) {
      var i: nat, j: nat :| i != j && Ahead(s, i, k) && Ahead(s, j, k);
      assert Ahead(t, i, k) && Ahead(t, j, k);
    } else if TwoUsable(s) {
      var i: nat, j: nat :| i != j && Usable(s, i) && Usable(s, j);
      assert Usable(t, i) && Usable(t, j);
    } else if SliceOf(s, k) > 0 {
      var i: nat, j: nat :| i != j && LateAhead(s, i, k) && LateAhead(s, j, k);
      if AnyCandidate(s) {
        var c :| 1 <= c < s.taskCount && Candidate(s, c);
        assert Up(s, c) && Candidate(t, c);
      }
      assert LateAhead(t, i, k) && LateAhead(t, j, k);
    }
  }

  lemma CreateGrows(s: Sys, e: bool, prio: nat, a: Alloc)
    requires Seated(s) && FreshAlloc(s, a)
    ensures Grows(s, Create(s, e, prio, a).0)
  {
    CreateOne(s, e, prio, a);
  }

  lemma WakeGrows(s: Sys, p: int)
    requires Seated(s) && p in s.pcb
    ensures Grows(s, Wake(s, p))
  {}

  /** A tick only sharpens the preference for the current process. */
  lemma TickStarves(s: Sys, k: nat)
    requires Seated(s) && ReadySlot(s, k) && Starved(s, k) && s.pcb[s.current].counter > 1
    ensures var t := Tick(s); Seated(t) && t.task == s.task && t.current == s.current && ReadySlot(t, k) && Starved(t, k)
  {
    var t := Tick(s);
    assert t == Charge(s);
    assert Seated(t);
    if Usable(s, k) {
      var i: nat, j: nat :| i != j && Ahead(s, i, k) && Ahead(s, j, k);
      assert Ahead(t, i, k) && Ahead(t, j, k);
    } else if TwoUsable(s) {
      var i: nat, j: nat :| i != j && Usable(s, i) && Usable(s, j);
      assert Usable(t, i) && Usable(t, j);
    } else if SliceOf(s, k) > 0 {
      TickLate(s, k);
    }
  }

  lemma TickLate(s: Sys, k: nat)
    requires Seated(s) && ReadySlot(s, k) && !Usable(s, k) && TwoLate(s, k) && s.pcb[s.current].counter > 1
    ensures var t := Charge(s); Wf(t) && Up(t, k) && (TwoUsable(t) || TwoLate(t, k))
  {
    var t := Charge(s);
    var i: nat, j: nat :| i != j && LateAhead(s, i, k) && LateAhead(s, j, k);
    if AnyCandidate(s) {
      var c :| 1 <= c < s.taskCount && Candidate(s, c);
      assert Candidate(t, c) && Usable(t, c);
    }
    if !LateAhead(t, i, k) {
      assert s.task[i] == s.current && Usable(t, i);
    } else if !LateAhead(t, j, k) {
      assert s.task[j] == s.current && Usable(t, j);
    }
  }

  /** In no SJF-only run does a starved process ever run. */
  lemma {:induction false} StarvedNeverRuns(s: Sys, k: nat, ops: seq<Op>)
    requires Seated(s) && ReadySlot(s, k) && Starved(s, k) && LegalRun(s, ops)
    ensures Run(s, ops).current != s.task[k]
    decreases |ops|
  {
    if ops != [] {
      match ops[0] {
        case CreateOp(e, prio, a) =>
          CreateGrows(s, e, prio, a);
          GrowthStarves(s, Create(s, e, prio, a).0, k);
        case WakeOp(p) =>
          if p in s.pcb {
            WakeGrows(s, p);
            GrowthStarves(s, Wake(s, p), k);
          }
        case TickOp => TickStarves(s, k);
        case SjfOp => SjfStarves(s, k);
      }
      StarvedNeverRuns(Step(s, ops[0]), k, ops[1..]);
    }
  }

  // ---------------------------------------------------------------- the others run soon

  lemma ReadyHalts(s: Sys, k: nat)
    requires Wf(s) && ReadySlot(s, k) && (Usable(s, k) || SliceOf(s, k) > 0)
    ensures AnyReady(s) && Halts(s)
  {
    assert Usable(s, k) ==> Candidate(s, k);
  }

  /** If the pick is another slot, it is the only one preferred, so the next pick is `k`. */
  lemma SecondPick(s: Sys, k: nat, m: nat)
    requires Seated(s) && ReadySlot(s, k) && Usable(s, k) && !TwoAhead(s, k)
    requires 1 <= m < s.taskCount && IsPick(s, s.taskCount, m) && m != k
    ensures var t := SwitchTo(s, s.task[m]);
            Seated(t) && t.task == s.task && Halts(t) && Step(t, SjfOp).current == s.task[k]
  {
    assert Candidate(s, k) && Ahead(s, m, k);
    Switched(s, m);
    var t := SwitchTo(s, s.task[m]);
    ReadyHalts(t, k);
    assert Candidate(t, k);
    var n := Decision(t);
    if n != k {
      assert Candidate(t, n) && Ahead(s, n, k);
    }
    Switched(t, n);
  }

  lemma WithinTwo(s: Sys, k: nat)
    requires Seated(s) && ReadySlot(s, k) && (Usable(s, k) || SliceOf(s, k) > 0)
    requires Wf(Base(s)) && ReadySlot(Base(s), k) && Usable(Base(s), k) && !TwoAhead(Base(s), k)
    ensures var t := Step(s, SjfOp);
            && Halts(s) && Wf(t)
            && (t.current == s.task[k] || (Halts(t) && Step(t, SjfOp).current == s.task[k]))
  {
    ReadyHalts(s, k);
    var m := Decision(s);
    BaseIs(s);
    Switched(Base(s), m);
    if m != k { SecondPick(Base(s), k, m); }
  }

  /** From a state in which the decision is about to be taken, two decisions suffice. */
  lemma UsableRuns(s: Sys, k: nat) returns (ops: seq<Op>)
    requires Seated(s) && ReadySlot(s, k) && (Usable(s, k) || SliceOf(s, k) > 0)
    requires Wf(Base(s)) && ReadySlot(Base(s), k) && Usable(Base(s), k) && !TwoAhead(Base(s), k)
    ensures LegalRun(s, ops) && Run(s, ops).current == s.task[k]
    ensures |ops| <= 2 && forall i :: 0 <= i < |ops| ==> ops[i] == SjfOp
  {
    WithinTwo(s, k);
    if Step(s, SjfOp).current == s.task[k] {
      ops := [SjfOp];
      OneSjf(s);
    } else {
      ops := [SjfOp, SjfOp];
      TwoSjf(s);
    }
  }

  lemma OneSjf(s: Sys)
    requires Wf(s) && Halts(s)
    ensures LegalRun(s, [SjfOp]) && Run(s, [SjfOp]) == Step(s, SjfOp)
  {
    assert [SjfOp][1..] == [];
  }

  lemma MoreSjf(s: Sys, ops: seq<Op>)
    requires Wf(s) && Halts(s) && LegalRun(Step(s, SjfOp), ops)
    ensures LegalRun(s, [SjfOp] + ops) && Run(s, [SjfOp] + ops) == Run(Step(s, SjfOp), ops)
  {
    assert ([SjfOp] + ops)[1..] == ops;
  }

  lemma TwoSjf(s: Sys)
    requires Wf(s) && Halts(s) && Wf(Step(s, SjfOp)) && Halts(Step(s, SjfOp))
    ensures LegalRun(s, [SjfOp, SjfOp]) && Run(s, [SjfOp, SjfOp]) == Step(Step(s, SjfOp), SjfOp)
  {
    OneSjf(Step(s, SjfOp));
    MoreSjf(s, [SjfOp]);
    assert [SjfOp] + [SjfOp] == [SjfOp, SjfOp];
  }

  /** The one usable process, once it runs, lets the refresh happen. */
  lemma CandidateFirst(s: Sys, k: nat, m: nat)
    requires Seated(s) && ReadySlot(s, k) && !Usable(s, k) && !Starved(s, k) && Candidate(s, m)
    ensures var t := SwitchTo(s, s.task[m]);
            Seated(t) && t.task == s.task && ReadySlot(t, k) && !Usable(t, k) && !AnyCandidate(t) && !Starved(t, k)
  {
    Switched(s, m);
    var t := SwitchTo(s, s.task[m]);
    assert Usable(s, m);
    forall c: nat | 1 <= c < s.taskCount ensures !Candidate(t, c) {
      assert Candidate(t, c) ==> c != m && Usable(s, c);
    }
    forall i: nat ensures LateAhead(t, i, k) ==> LateAhead(s, i, k) {}
  }

  lemma RefreshRuns(s: Sys, k: nat) returns (ops: seq<Op>)
    requires Seated(s) && ReadySlot(s, k) && !Usable(s, k) && !AnyCandidate(s) && !Starved(s, k)
    ensures LegalRun(s, ops) && Run(s, ops).current == s.task[k]
    ensures |ops| <= 2 && forall i :: 0 <= i < |ops| ==> ops[i] == SjfOp
  {
    LateRefreshTwo(s, k);
    BaseIs(s);
    ops := UsableRuns(s, k);
  }

  /** A ready process that is not starved runs after at most three decisions. */
  lemma UnstarvedRuns(s: Sys, k: nat) returns (ops: seq<Op>)
    requires Seated(s) && ReadySlot(s, k) && !Starved(s, k)
    ensures LegalRun(s, ops) && Run(s, ops).current == s.task[k]
    ensures |ops| <= 3 && forall i :: 0 <= i < |ops| ==> ops[i] == SjfOp
  {
    ReadyHalts(s, k);
    if Usable(s, k) {
      assert Candidate(s, k);
      BaseIs(s);
      ops := UsableRuns(s, k);
    } else if AnyCandidate(s) {
      var m := Decision(s);
      CandidateFirst(s, k, m);
      var t := SwitchTo(s, s.task[m]);
      var rest := RefreshRuns(t, k);
      ops := [SjfOp] + rest;
      MoreSjf(s, rest);
    } else {
      ops := RefreshRuns(s, k);
    }
  }

  /** A ready process becomes current in some SJF-only run if and only if it is not starved. */
  lemma RunsIffNotStarved(s: Sys, k: nat)
    requires Seated(s) && ReadySlot(s, k)
    ensures (exists ops :: LegalRun(s, ops) && Run(s, ops).current == s.task[k]) <==> !Starved(s, k)
  {
    if Starved(s, k) {
      forall ops | LegalRun(s, ops) ensures Run(s, ops).current != s.task[k] { StarvedNeverRuns(s, k, ops); }
    } else {
      var ops := UnstarvedRuns(s, k);
    }
  }

  /** The state of every SJF-only run is one this applies to. */
  lemma {:induction false} RunSeated(s: Sys, ops: seq<Op>)
    requires Seated(s) && LegalRun(s, ops)
    ensures Seated(Run(s, ops))
    decreases |ops|
  {
    if ops != [] {
      StepOne(s, ops[0]);
      if ops[0].CreateOp? { CreateGrows(s, ops[0].hasEntry, ops[0].priority, ops[0].alloc); }
      if ops[0].SjfOp? { SjfTable(s); }
      RunSeated(Step(s, ops[0]), ops[1..]);
    }
  }

  lemma SjfTable(s: Sys)
    requires Wf(s)
    ensures Step(s, SjfOp).task == s.task
  {}

  lemma InitialSeated(idle: int)
    requires idle != NULL
    ensures Seated(InitialSys(idle))
  {}

  /** When nothing else is ready, one call makes the process current if and only if it has a
      usable counter or a refresh gives it one; otherwise the call does not return. */
  lemma OnlyReadyRunsIff(s: Sys, k: nat)
    requires Seated(s) && ReadySlot(s, k) && forall i: nat :: ReadySlot(s, i) ==> i == k
    ensures (exists d :: ScheduleSjf(s, d).Some? && ScheduleSjf(s, d).value.current == s.task[k]) <==>
            Usable(s, k) || SliceOf(s, k) > 0
    ensures !(Usable(s, k) || SliceOf(s, k) > 0) ==> forall d :: ScheduleSjf(s, d) == None
  {
    if Usable(s, k) || SliceOf(s, k) > 0 {
      ReadyHalts(s, k);
      BaseIs(s);
      var m := Decision(s);
      SjfTermination(s);
      Refreshed(s, m);
      assert m == k;
      Switched(Base(s), m);
      assert ScheduleSjf(s, 2).value == Step(s, SjfOp);
    } else {
      forall d: nat ensures ScheduleSjf(s, d) == None { NeverHalts(s, d); }
    }
  }

  // ---------------------------------------------------------------- the fall back to idle

  /** With nothing ready, a call leaves idle alone; any other process it switches out for idle, and
      that process stays ready for the next call. */
  lemma FallbackEffect(s: Sys)
    requires Seated(s) && !AnyReady(s)
    ensures var t := Step(s, SjfOp);
            if s.pcb[s.current].pid == 0 || s.task[0] == NULL || s.task[0] == s.current then t == s
            else
              && t == s.(pcb := t.pcb, current := s.task[0]) && t.pcb.Keys == s.pcb.Keys
              && forall p :: p in s.pcb ==>
                   t.pcb[p] == s.pcb[p].(state := if p == s.task[0] then Running
                                                  else if p == s.current then Ready else s.pcb[p].state)
  {
    SjfSelects(s);
  }

  lemma OnlyReadyHalts(s: Sys, k: nat)
    requires Wf(s) && ReadySlot(s, k) && forall i: nat :: ReadySlot(s, i) ==> i == k
    ensures Halts(s) ==> Usable(s, k) || SliceOf(s, k) > 0
  {
    if Halts(s) {
      assert AnyReady(s);
      if i: nat :| 1 <= i < s.taskCount && Candidate(s, i) {
        assert i == k;
      } else {
        var i: nat :| 1 <= i < s.taskCount && ReadySlot(s, i) && s.pcb[s.task[i]].priority % 5 != 0;
        assert i == k;
      }
    }
  }

  /** The process that was switched out for idle is selected by the next call exactly when its
      counter is usable or a refresh gives it one; otherwise that call does not return. */
  lemma FallbackReturns(s: Sys, k: nat)
    requires Seated(s) && !AnyReady(s) && Up(s, k) && s.task[k] == s.current
    requires s.pcb[s.current].pid != 0 && s.task[0] != NULL && s.task[0] != s.current
    ensures var t := Step(s, SjfOp);
            && Seated(t) && t.current == s.task[0] && ReadySlot(t, k)
            && (Halts(t) <==> Usable(s, k) || SliceOf(s, k) > 0)
            && (Halts(t) ==> Step(t, SjfOp).current == s.task[k])
  {
    FallbackEffect(s);
    var t := Step(s, SjfOp);
    assert t.task == s.task && t.taskCount == s.taskCount;
    assert ReadySlot(t, k);
    forall i: nat | ReadySlot(t, i) ensures i == k {
      assert !ReadySlot(s, i);
      assert s.task[i] == s.current;
    }
    assert Up(t, k) && (Usable(t, k) <==> Usable(s, k)) && SliceOf(t, k) == SliceOf(s, k);
    if Usable(s, k) || SliceOf(s, k) > 0 { ReadyHalts(t, k); }
    OnlyReadyHalts(t, k);
    if Halts(t) {
      var m := Decision(t);
      BaseIs(t);
      assert ReadySlot(Base(t), m);
      Refreshed(t, m);
    }
  }

  /** What any call that returns with something ready does to every process: the pick runs, the one
      it replaces is ready, and if no counter was usable every ready process has a new slice. */
  lemma SjfEffect(s: Sys) returns (m: nat)
    requires Seated(s) && AnyReady(s) && Halts(s)
    ensures Seated(Base(s)) && 1 <= m < s.taskCount && IsPick(Base(s), s.taskCount, m)
    ensures Decided(s, Step(s, SjfOp), s.task[m], !AnyCandidate(s))
  {
    m := Decision(s);
    BaseIs(s);
    assert ReadySlot(Base(s), m);
    if AnyCandidate(s) {
      SwitchEffect(s, s.task[m]);
    } else {
      RefreshEffect(s);
      SwitchEffect(Refresh(s), s.task[m]);
    }
  }

  ghost predicate Decided(s: Sys, t: Sys, next: int, refreshed: bool)
    requires Wf(s)
  {
    && t == s.(pcb := t.pcb, current := next) && t.pcb.Keys == s.pcb.Keys
    && forall p :: p in s.pcb ==>
         t.pcb[p] == s.pcb[p].(counter := if refreshed && Waits(s, p) then CounterInit(s.pcb[p].priority)
                                          else s.pcb[p].counter,
                               state := if p == next then Running
                                        else if p == s.current then Ready else s.pcb[p].state)
  }
}
