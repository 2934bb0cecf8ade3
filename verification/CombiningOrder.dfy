/** Who runs before whom: a call that finds the queue in use does not pass the
    calls queued before it came, and a call that finds nobody does not queue. */
module CombiningOrder {
  import opened CombiningLock

  /** Every run of `t` has one of `x` before it. */
  ghost predicate Precedes(log: seq<Event>, x: nat, t: nat) {
    forall q :: 0 <= q < |log| && log[q].id == t ==> exists p :: 0 <= p < q && log[p].id == x
  }

  /** `t` has not come to the flag and cannot before `x`. */
  predicate Behind(s: State, x: nat, t: nat)
    requires x in s.calls
  {
    t in s.calls ==>
      || s.calls[t].pc.Start? || s.calls[t].pc.Exchange?
      || (s.calls[t].queued && s.calls[t].pos > s.calls[x].pos)
  }

  ghost predicate Follows(s: State, x: nat, t: nat) {
    && x in s.calls && s.calls[x].queued && x != t
    && (HasRun(s, x) ==> Runs(s.log, x) > 0 && Precedes(s.log, x, t))
    && (!HasRun(s, x) ==> Behind(s, x, t) && Runs(s.log, t) == 0)
  }

  lemma {:induction false} RanSomewhere(log: seq<Event>, x: nat)
    ensures Runs(log, x) > 0 <==> exists p :: 0 <= p < |log| && log[p].id == x
  {
    if log != [] {
      var n := |log| - 1;
      var rest := log[..n];
      RanSomewhere(rest, x);
      if Runs(rest, x) > 0 {
        var p :| 0 <= p < |rest| && rest[p].id == x;
        assert log[p].id == x;
      }
      if p :| 0 <= p < |log| && log[p].id == x {
        if p < n { assert rest[p].id == x; }
      }
    }
  }

  lemma PrecedesMore(log: seq<Event>, e: Event, x: nat, t: nat)
    requires x != t
    requires (Precedes(log, x, t) && Runs(log, x) > 0) || (Runs(log, t) == 0 && e.id == x)
    ensures Precedes(log + [e], x, t)
  {
    var more := log + [e];
    RanSomewhere(log, x);
    RanSomewhere(log, t);
    forall q | 0 <= q < |more| && more[q].id == t ensures exists p :: 0 <= p < q && more[p].id == x {
      if q < |log| {
        assert log[q].id == t;
        var p :| 0 <= p < q && log[p].id == x;
        assert more[p].id == x;
      } else {
        var p :| 0 <= p < |log| && log[p].id == x;
        assert more[p].id == x;
      }
    }
  }

  /** While a queued thunk has not run, the queue is not empty. */
  lemma QueueInUse(s: State, x: nat)
    requires Inv(s) && x in s.calls && s.calls[x].queued && !HasRun(s, x)
    ensures s.last != 0
  {
    assert CallInv(s, x);
    assert OrderInv(s, |s.order| - 1);
  }

  /** What a step of `u` does to the place of a call. */
  lemma PlaceAfter(s: State, u: nat, v: nat)
    requires u in s.calls && v in s.calls && Accessed(s, u) <= s.calls.Keys
    ensures var s' := Step(s, u);
      && v in s'.calls
      && (s.calls[v].queued && (v == u ==> !Unqueued(s.calls[u].pc)) ==> s'.calls[v].queued && s'.calls[v].pos == s.calls[v].pos)
      && (v != u ==> s'.calls[v].pc == s.calls[v].pc)
      && (v == u && s.calls[u].pc.Start? && s.last != 0 ==> s'.calls[v].pc.Exchange?)
      && (v == u && s.calls[u].pc.Exchange? ==> s'.calls[v].queued && s'.calls[v].pos == |s.order|)
  {
    if Unqueued(s.calls[u].pc) {
      EnteringPlace(s, u, v);
    } else {
      PlaceFixed(s, u, v);
      hide Step;
    }
  }

  lemma EnteringPlace(s: State, u: nat, v: nat)
    requires u in s.calls && v in s.calls && Unqueued(s.calls[u].pc)
    ensures var s' := StepEntering(s, u);
      && v in s'.calls
      && (v != u ==> s'.calls[v] == s.calls[v])
      && (v == u && s.calls[u].pc.Start? && s.last != 0 ==> s'.calls[v].pc.Exchange?)
      && (v == u && s.calls[u].pc.Exchange? ==> s'.calls[v].queued && s'.calls[v].pos == |s.order|)
  {}

  lemma StepKeepsBehind(s: State, u: nat, x: nat, t: nat)
    requires Inv(s) && u in s.calls && Accessed(s, u) <= s.calls.Keys
    requires x in s.calls && s.calls[x].queued && x != t && !HasRun(s, x) && Behind(s, x, t)
    ensures x in Step(s, u).calls && Step(s, u).calls[x].queued && Behind(Step(s, u), x, t)
  {
    hide Step, HasRun, LogInv, OrderInv, TargetInv;
    assert CallInv(s, x);
    PlaceAfter(s, u, x);
    if t in s.calls {
      assert CallInv(s, t);
      QueueInUse(s, x);
      PlaceAfter(s, u, t);
    } else {
      KeysStay(s, u);
    }
  }

  lemma KeysStay(s: State, u: nat)
    requires Inv(s) && u in s.calls
    ensures Accessed(s, u) <= s.calls.Keys && Step(s, u).calls.Keys == s.calls.Keys
  {
    hide Step, CallInv, OrderInv, LockInv, LogInv, Near, Accessed;
    InvNear(s, u);
    AccessDefined(s, u);
    StepKeepsSelf(s, u);
  }

  lemma NotYet(s: State, x: nat, t: nat)
    requires Inv(s) && x in s.calls && s.calls[x].queued && !HasRun(s, x) && Behind(s, x, t)
    ensures Runs(s.log, t) == 0
  {
    if t in s.calls { assert CallInv(s, t) && CallInv(s, x); }
  }

  lemma StepKeepsFollows(s: State, u: nat, x: nat, t: nat)
    requires Inv(s) && u in s.calls && Accessed(s, u) <= s.calls.Keys && Follows(s, x, t)
    ensures Follows(Step(s, u), x, t)
  {
    hide Step, HasRun, OrderInv, TargetInv, LockInv, Near, Precedes, Behind, RanCount;
    var s', pc := Step(s, u), s.calls[u].pc;
    InvNear(s, u);
    StepKeepsQueue(s, u);
    StepKeepsLog(s, u);
    assert CallInv(s, x);
    RunOnce(s, u, x);
    LogAppended(s, u);
    PlaceAfter(s, u, x);
    var e := if pc.FastBody? then Ran(u, false) else if pc.Body? then Ran(pc.curr, true) else Ran(0, false);
    RunsAppend(s.log, e, x);
    RunsAppend(s.log, e, t);
    if HasRun(s, x) {
      PrecedesMore(s.log, e, x, t);
    } else {
      StepKeepsBehind(s, u, x, t);
      if HasRun(s', x) { PrecedesMore(s.log, e, x, t); } else { NotYet(s', x, t); }
    }
  }

  lemma NextKeepsFollows(s: State, s': State, x: nat, t: nat)
    requires Inv(s) && Next(s, s') && Follows(s, x, t)
    ensures Follows(s', x, t)
  {
    hide Step, Inv, Follows;
    if u :| u in s.calls && Accessed(s, u) <= s.calls.Keys && s' == Step(s, u) {
      StepKeepsFollows(s, u, x, t);
    } else {
      var u :| u > 0 && u !in s.calls && s' == Spawn(s, u);
      SpawnKeepsFollows(s, u, x, t);
    }
  }

  lemma SpawnKeepsFollows(s: State, u: nat, x: nat, t: nat)
    requires Inv(s) && u > 0 && u !in s.calls && Follows(s, x, t)
    ensures Follows(Spawn(s, u), x, t)
  {
    hide Precedes, QueueInv;
    assert LockInv(s) by { QueueParts(s); }
    assert RanCount(Spawn(s, u)) == RanCount(s);
  }

  lemma QueueParts(s: State)
    requires QueueInv(s)
    ensures LockInv(s)
  {}

  /** A call that has not looked at the queue yet when `x` stands in it does not
      overtake `x`: when it has run, `x` has run before. */
  lemma NoOvertaking(run: seq<State>, i: nat, j: nat, x: nat, t: nat)
    requires IsRun(run) && i <= j < |run|
    requires x in run[i].calls && run[i].calls[x].queued && Runs(run[i].log, x) == 0
    requires t in run[i].calls ==> run[i].calls[t].pc.Start?
    requires Runs(run[j].log, t) == 1
    ensures Runs(run[j].log, x) == 1
    ensures exists p, q :: 0 <= p < q < |run[j].log| && run[j].log[p].id == x && run[j].log[q].id == t
  {
    hide Next, HasRun;
    RunKeepsInv(run, i);
    RunKeepsInv(run, j);
    Unmoved(run[i], x, t);
    FollowsAlong(run, i, j, x, t);
    var log := run[j].log;
    RanSomewhere(log, t);
    var q :| 0 <= q < |log| && log[q].id == t;
    assert x in run[j].calls;
    var p :| 0 <= p < q && log[p].id == x;
    assert 0 <= p < q < |log| && log[p].id == x && log[q].id == t;
  }

  lemma Unmoved(s: State, x: nat, t: nat)
    requires Inv(s) && x in s.calls && s.calls[x].queued && Runs(s.log, x) == 0
    requires t in s.calls ==> s.calls[t].pc.Start?
    ensures Follows(s, x, t)
  {
    assert CallInv(s, x);
    if t in s.calls { assert CallInv(s, t); }
  }

  lemma {:induction false} FollowsAlong(run: seq<State>, i: nat, j: nat, x: nat, t: nat)
    requires IsRun(run) && i <= j < |run| && Follows(run[i], x, t)
    ensures Follows(run[j], x, t)
    decreases j - i
  {
    hide Next, Follows, Inv;
    if i < j {
      FollowsAlong(run, i, j - 1, x, t);
      RunKeepsInv(run, j - 1);
      NextKeepsFollows(run[j - 1], run[j], x, t);
    }
  }

  // ----- the uncontended path

  function Alone(s: State, t: nat, n: nat): State
    requires t in s.calls
    ensures t in Alone(s, t, n).calls
  {
    if n == 0 then s
    else
      var s' := Alone(s, t, n - 1);
      if Accessed(s', t) <= s'.calls.Keys then
        OwnKey(s', t);
        Step(s', t)
      else s'
  }

  lemma OwnKey(s: State, t: nat)
    requires t in s.calls && Accessed(s, t) <= s.calls.Keys
    ensures t in Step(s, t).calls
  {}

  function FastPc(n: nat): Pc {
    if n == 0 then Start else if n == 1 then TryFlag else if n == 2 then FastCall
    else if n == 3 then FastBody else if n == 4 then FastRelease else Returned
  }

  /** The state after `n` steps of the path through the flag. */
  function FastState(s: State, t: nat, n: nat): State
    requires t in s.calls
  {
    SetPc(s, t, FastPc(n)).(
      flag := 2 <= n <= 4,
      holder := if n < 2 then s.holder else if n < 5 then t else 0,
      log := if n < 4 then s.log else s.log + [Ran(t, false)])
  }

  lemma FastStep(s: State, t: nat, n: nat)
    requires t in s.calls && s.last == 0 && n < 5
    ensures Accessed(FastState(s, t, n), t) == {}
    ensures Step(FastState(s, t, n), t) == FastState(s, t, n + 1)
  {
    var a := FastState(s, t, n);
    assert a.calls[t] == s.calls[t].(pc := FastPc(n));
    assert SetPc(a, t, FastPc(n + 1)).calls == FastState(s, t, n + 1).calls;
  }

  lemma {:induction false} FastPath(s: State, t: nat, n: nat)
    requires t in s.calls && s.calls[t].pc.Start? && !s.flag && s.last == 0 && n <= 5
    ensures Alone(s, t, n) == FastState(s, t, n)
  {
    if n == 0 {
      assert s.calls[t := s.calls[t].(pc := Start)] == s.calls;
    } else {
      FastPath(s, t, n - 1);
      FastStep(s, t, n - 1);
      hide Step, FastState, Accessed;
    }
  }

  /** A new call that finds the lock free and is not disturbed runs its thunk and
      returns without ever entering the queue. */
  lemma Uncontended(s: State, t: nat)
    requires t > 0 && t !in s.calls && !s.flag && s.last == 0
    ensures var s0 := Spawn(s, t); Next(s, s0) && t in s0.calls
    ensures var s0 := Spawn(s, t);
      forall n :: 0 <= n <= 5 ==> Alone(s0, t, n).last == 0 && Alone(s0, t, n).order == s.order
    ensures var s' := Alone(Spawn(s, t), t, 5);
      && s'.calls == s.calls[t := Fresh().(pc := Returned)] && !s'.flag && s'.log == s.log + [Ran(t, false)]
  {
    hide Alone;
    var s0 := Spawn(s, t);
    forall n | 0 <= n <= 5 ensures Alone(s0, t, n) == FastState(s0, t, n) { FastPath(s0, t, n); }
  }

  // ----- combining

  /** `t` is on its way to run the thunk of `n`. */
  ghost predicate OnItsWay(s: State, t: nat, n: nat) {
    && t in s.calls && s.holder == t && n != 0
    && match s.calls[t].pc
       case LoadNext(c) => c in s.calls && s.calls[c].next == n
       case MarkDone(_, m) => m == n
       case Prefetch(m) => m == n
       case Call(m) => m == n
       case Body(m) => m == n
       case _ => false
  }

  lemma OwnStepOnItsWay(s: State, t: nat, n: nat)
    requires Inv(s) && OnItsWay(s, t, n)
    ensures Accessed(s, t) <= s.calls.Keys
    ensures OnItsWay(Step(s, t), t, n) || Runs(Step(s, t).log, n) > 0
  {
    hide OrderInv, LogInv;
    InvNear(s, t);
    RunsAppend(s.log, Ran(n, true), n);
    hide Runs;
  }

  lemma OtherStepOnItsWay(s: State, u: nat, t: nat, n: nat)
    requires Inv(s) && OnItsWay(s, t, n) && u in s.calls && u != t && Accessed(s, u) <= s.calls.Keys
    ensures OnItsWay(Step(s, u), t, n)
  {
    hide LogInv;
    InvNear(s, u);
    InvNear(s, t);
    PcStays(s, u, t);
    if s.calls[t].pc.LoadNext? { LinksStay(s, u, t); }
    HolderStays(s, u);
    hide Step, QueueInv, Near;
  }

  lemma PcStays(s: State, u: nat, t: nat)
    requires u in s.calls && t in s.calls && u != t && Accessed(s, u) <= s.calls.Keys
    ensures t in Step(s, u).calls && Step(s, u).calls[t].pc == s.calls[t].pc
  {
    hide Step;
    PlaceAfter(s, u, t);
  }

  /** Only the holder gives up the lock. */
  lemma HolderStays(s: State, u: nat)
    requires Near(s, u) && s.holder != 0 && u != s.holder
    ensures Step(s, u).holder == s.holder
  {
    hide OrderInv, TargetInv;
  }

  /** A link that leads on is not written again. */
  lemma LinksStay(s: State, u: nat, t: nat)
    requires Inv(s) && Near(s, u) && t in s.calls && s.calls[t].pc.LoadNext?
    requires var c := s.calls[t].pc.curr; c in s.calls && s.calls[c].next != 0
    ensures var c := s.calls[t].pc.curr; c in Step(s, u).calls && Step(s, u).calls[c].next == s.calls[c].next
  {
    var c := s.calls[t].pc.curr;
    assert CallInv(s, t) && CallInv(s, u);
    assert OrderInv(s, s.head);
    if s.calls[u].pc.Link? && s.calls[u].pc.prev == c {
      assert OrderInv(s, s.calls[u].pos);
    }
    hide LogInv, QueueInv;
  }

  lemma {:induction false} StaysOnItsWay(run: seq<State>, i: nat, j: nat, t: nat, n: nat)
    requires IsRun(run) && i <= j < |run| && OnItsWay(run[i], t, n)
    ensures OnItsWay(run[j], t, n) || Runs(run[j].log, n) > 0
    decreases j - i
  {
    hide OnItsWay, Inv, Step, Runs;
    if i < j {
      StaysOnItsWay(run, i, j - 1, t, n);
      RunKeepsInv(run, j - 1);
      NextOnItsWay(run[j - 1], run[j], t, n);
    }
  }

  lemma NextOnItsWay(s: State, s': State, t: nat, n: nat)
    requires Inv(s) && Next(s, s') && (OnItsWay(s, t, n) || Runs(s.log, n) > 0)
    ensures OnItsWay(s', t, n) || Runs(s'.log, n) > 0
  {
    hide Inv, Step, Runs;
    if u :| u in s.calls && Accessed(s, u) <= s.calls.Keys && s' == Step(s, u) {
      if Runs(s.log, n) > 0 { RunsStay(s, u, n); }
      else if u == t { OwnStepOnItsWay(s, t, n); }
      else { OtherStepOnItsWay(s, u, t, n); }
    } else {
      var u :| u > 0 && u !in s.calls && s' == Spawn(s, u);
    }
  }

  lemma RunsStay(s: State, u: nat, n: nat)
    requires Inv(s) && u in s.calls && Accessed(s, u) <= s.calls.Keys && Runs(s.log, n) > 0
    ensures Runs(Step(s, u).log, n) > 0
  {
    hide Step, Runs, QueueInv, LogInv;
    assert QueueInv(s);
    LogAppended(s, u);
    var pc := s.calls[u].pc;
    if pc.FastBody? { RunsAppend(s.log, Ran(u, false), n); }
    if pc.Body? { RunsAppend(s.log, Ran(pc.curr, true), n); }
  }

  /** Combining: a call that has run a queued thunk and sees the next node linked
      keeps the lock until it has run the thunk of that one too. */
  lemma Combines(run: seq<State>, i: nat, j: nat, t: nat)
    requires IsRun(run) && i <= j < |run| && t in run[i].calls && run[i].calls[t].pc.LoadNext?
    requires var c := run[i].calls[t].pc.curr; c in run[i].calls && run[i].calls[c].next != 0
    ensures var n := run[i].calls[run[i].calls[t].pc.curr].next; Runs(run[j].log, n) == 0 ==> run[j].holder == t
  {
    var n := run[i].calls[run[i].calls[t].pc.curr].next;
    RunKeepsInv(run, i);
    assert CallInv(run[i], t);
    StaysOnItsWay(run, i, j, t, n);
  }
}
