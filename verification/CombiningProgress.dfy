/** How much work the combining lock can do: every step that is not a spin uses up
    some of it, and only a new call brings more. */
module CombiningProgress {
  import opened CombiningLock

  /** Work left before a call at this point returns, not counting the queue. */
  function Rank(pc: Pc): nat {
    match pc
    case Start => 36
    case TryFlag => 35
    case Exchange => 34
    case Link(_) => 13
    case Wait => 12
    case Check => 11
    case SpinFlag => 11
    case SpinLoad => 11
    case Prefetch(_) => 10
    case Call(_) => 9
    case Body(_) => 8
    case LoadNext(_) => 7
    case Close(_) => 6
    case AwaitNext(_) => 5
    case ReadNext(_) => 4
    case MarkDone(_, _) => 3
    case PassHead(_, _) => 3
    case FastCall => 3
    case FastBody => 2
    case MarkLast(_) => 2
    case MarkPassed(_) => 1
    case FastRelease => 1
    case Release => 1
    case Returned => 0
  }

  /** Serving one queued node costs at most this. */
  const NODE_WORK: nat := 20

  ghost function Total(calls: map<nat, Call>): nat
    decreases |calls|
  {
    if calls == map[] then 0
    else
      var t :| t in calls;
      Rank(calls[t].pc) + Total(calls - {t})
  }

  /** Any call may be counted first. */
  lemma {:induction false} TotalPick(calls: map<nat, Call>, t: nat)
    requires t in calls
    ensures Total(calls) == Rank(calls[t].pc) + Total(calls - {t})
    decreases |calls|
  {
    var u :| u in calls && Total(calls) == Rank(calls[u].pc) + Total(calls - {u});
    if u != t {
      TotalPick(calls - {u}, t);
      TotalPick(calls - {t}, u);
      assert calls - {u} - {t} == calls - {t} - {u};
    }
  }

  lemma {:induction false} TotalSame(calls: map<nat, Call>, calls': map<nat, Call>)
    requires calls'.Keys == calls.Keys && forall u :: u in calls ==> Rank(calls'[u].pc) == Rank(calls[u].pc)
    ensures Total(calls') == Total(calls)
    decreases |calls|
  {
    if calls != map[] {
      var t :| t in calls;
      TotalPick(calls, t);
      TotalPick(calls', t);
      TotalSame(calls - {t}, calls' - {t});
    } else {
      assert calls' == map[];
    }
  }

  lemma TotalChange(calls: map<nat, Call>, calls': map<nat, Call>, t: nat)
    requires t in calls && calls'.Keys == calls.Keys
    requires forall u :: u in calls && u != t ==> Rank(calls'[u].pc) == Rank(calls[u].pc)
    ensures Total(calls') - Total(calls) == Rank(calls'[t].pc) - Rank(calls[t].pc)
  {
    hide Rank;
    TotalPick(calls, t);
    TotalPick(calls', t);
    TotalSame(calls - {t}, calls' - {t});
  }

  lemma {:induction false} TotalAtMost(calls: map<nat, Call>)
    ensures Total(calls) <= 36 * |calls|
    decreases |calls|
  {
    if calls != map[] {
      var t :| t in calls;
      TotalPick(calls, t);
      TotalAtMost(calls - {t});
    }
  }

  ghost function Effort(s: State): int {
    Total(s.calls) + NODE_WORK * (|s.order| - s.head)
  }

  /** A step that is neither a spin nor the look before one. */
  predicate Productive(s: State, t: nat) {
    Moves(s, t) && !s.calls[t].pc.SpinLoad?
  }

  /** Waiting changes nothing: the head spins on reading the flag, the others on
      their own status, the holder on the link. */
  lemma SpinsQuietly(s: State, t: nat)
    requires t in s.calls && Accessed(s, t) <= s.calls.Keys && !Moves(s, t) && !s.calls[t].pc.SpinFlag?
    ensures Step(s, t) == s
  {}

  /** A call that can move is at most one step away from a productive one. */
  lemma AlmostProductive(s: State, t: nat)
    requires Moves(s, t) && Accessed(s, t) <= s.calls.Keys
    ensures Productive(s, t) || Productive(Step(s, t), t)
  {}

  /** No call but `t` has moved. */
  ghost predicate OneMoved(s: State, t: nat, s': State) {
    s'.calls.Keys == s.calls.Keys && forall u :: u in s.calls && u != t ==> s'.calls[u].pc == s.calls[u].pc
  }

  /** A productive step uses up work, any other step leaves it as it is. */
  ghost predicate Costs(s: State, t: nat, s': State) {
    && t in s.calls && t in s'.calls
    && var change := Rank(s'.calls[t].pc) - Rank(s.calls[t].pc) + NODE_WORK * (|s'.order| - |s.order| - s'.head + s.head);
       if Productive(s, t) then change < 0 else change == 0
  }

  lemma EnteringMoves(s: State, t: nat)
    requires t in s.calls && Unqueued(s.calls[t].pc)
    ensures OneMoved(s, t, StepEntering(s, t))
  {}

  lemma EnteringCosts(s: State, t: nat)
    requires t in s.calls && Unqueued(s.calls[t].pc)
    ensures Costs(s, t, StepEntering(s, t))
  {}

  lemma QueueingMoves(s: State, t: nat)
    requires t in s.calls && Accessed(s, t) <= s.calls.Keys && Queueing(s.calls[t].pc)
    ensures OneMoved(s, t, StepQueueing(s, t))
  {}

  lemma QueueingCosts(s: State, t: nat)
    requires t in s.calls && Accessed(s, t) <= s.calls.Keys && Queueing(s.calls[t].pc)
    ensures Costs(s, t, StepQueueing(s, t))
  {}

  lemma WorkingMoves(s: State, t: nat)
    requires t in s.calls && Accessed(s, t) <= s.calls.Keys && Working(s.calls[t].pc)
    ensures OneMoved(s, t, StepWorking(s, t))
  {}

  lemma WorkingCosts(s: State, t: nat)
    requires t in s.calls && Accessed(s, t) <= s.calls.Keys && Working(s.calls[t].pc)
    ensures Costs(s, t, StepWorking(s, t))
  {}

  lemma AdvancingMoves(s: State, t: nat)
    requires t in s.calls && Accessed(s, t) <= s.calls.Keys && Advancing(s.calls[t].pc)
    ensures OneMoved(s, t, StepAdvancing(s, t))
  {}

  lemma AdvancingCosts(s: State, t: nat)
    requires t in s.calls && Accessed(s, t) <= s.calls.Keys && Advancing(s.calls[t].pc)
    ensures Costs(s, t, StepAdvancing(s, t))
  {}

  lemma EndingMoves(s: State, t: nat)
    requires t in s.calls && Accessed(s, t) <= s.calls.Keys
    requires var pc := s.calls[t].pc; Finishing(pc) || pc.Release? || pc.Returned?
    ensures OneMoved(s, t, StepEnding(s, t))
  {}

  lemma EndingCosts(s: State, t: nat)
    requires t in s.calls && Accessed(s, t) <= s.calls.Keys
    requires var pc := s.calls[t].pc; Finishing(pc) || pc.Release? || pc.Returned?
    ensures Costs(s, t, StepEnding(s, t))
  {}

  lemma StepUses(s: State, t: nat)
    requires t in s.calls && Accessed(s, t) <= s.calls.Keys
    ensures OneMoved(s, t, Step(s, t)) && Costs(s, t, Step(s, t))
  {
    hide OneMoved, Costs, StepEntering, StepQueueing, StepWorking, StepAdvancing, StepEnding, Accessed;
    var pc := s.calls[t].pc;
    if Unqueued(pc) { EnteringMoves(s, t); EnteringCosts(s, t); }
    else if Queueing(pc) { QueueingMoves(s, t); QueueingCosts(s, t); }
    else if Working(pc) { WorkingMoves(s, t); WorkingCosts(s, t); }
    else if Advancing(pc) { AdvancingMoves(s, t); AdvancingCosts(s, t); }
    else { EndingMoves(s, t); EndingCosts(s, t); }
  }

  /** Productive steps lower the effort and no other step raises it. */
  lemma EffortSpent(s: State, t: nat)
    requires t in s.calls && Accessed(s, t) <= s.calls.Keys
    ensures if Productive(s, t) then Effort(Step(s, t)) < Effort(s) else Effort(Step(s, t)) == Effort(s)
  {
    hide Step, Rank, Productive;
    var s' := Step(s, t);
    StepUses(s, t);
    TotalChange(s.calls, s'.calls, t);
  }

  lemma EffortPositive(s: State)
    requires QueueInv(s)
    ensures Effort(s) >= 0
  {}

  /** From state `i` on, `who` says which call takes each step. */
  ghost predicate Driven(run: seq<State>, who: seq<nat>, i: nat) {
    && |who| == |run| && i < |run|
    && forall k :: i <= k < |run| - 1 ==>
         who[k] in run[k].calls && Accessed(run[k], who[k]) <= run[k].calls.Keys && run[k + 1] == Step(run[k], who[k])
  }

  ghost function ProductiveSteps(run: seq<State>, who: seq<nat>, i: nat, j: nat): nat
    requires |who| == |run| && i <= j < |run|
    decreases j - i
  {
    if i == j then 0
    else ProductiveSteps(run, who, i, j - 1) + if Productive(run[j - 1], who[j - 1]) then 1 else 0
  }

  /** Once no more calls start, the number of steps that are not spins is bounded
      by the work at hand: 36 for each call and 20 for each queued node. */
  lemma BoundedWork(run: seq<State>, who: seq<nat>, i: nat, j: nat)
    requires IsRun(run) && Driven(run, who, i) && i <= j < |run|
    ensures ProductiveSteps(run, who, i, j) <= Effort(run[i])
    ensures Effort(run[i]) <= 36 * |run[i].calls| + NODE_WORK * (|run[i].order| - run[i].head)
  {
    TotalAtMost(run[i].calls);
    RunKeepsInv(run, j);
    EffortPositive(run[j]);
    Spent(run, who, i, j);
  }

  lemma {:induction false} Spent(run: seq<State>, who: seq<nat>, i: nat, j: nat)
    requires Driven(run, who, i) && i <= j < |run|
    ensures ProductiveSteps(run, who, i, j) + Effort(run[j]) <= Effort(run[i])
    decreases j - i
  {
    hide Productive, Step, Effort;
    if i < j {
      Spent(run, who, i, j - 1);
      EffortSpent(run[j - 1], who[j - 1]);
    }
  }
}
