/** Who gets on at the gate: entering takes at most three steps once no fork is
    held, and nobody waits for a thread that waits itself. */
module ForkProgress {
  import opened ForkGate

  predicate Entering(pc: Pc) { pc.FetchAdd? || pc.BackOut? || pc.SpinLoad? }

  /** Steps to the inside while the fork bit is clear. */
  function StepsIn(pc: Pc): nat {
    match pc
    case BackOut => 3
    case SpinLoad => 2
    case FetchAdd => 1
    case _ => 0
  }

  /** With the bit clear, each step of an entering thread brings it nearer, and the
      last one puts it inside. */
  lemma EnteringAdvances(s: State, t: nat, spurious: bool)
    requires Inv(s) && t in s.threads && Entering(s.threads[t].pc) && s.counter % 2 == 0
    ensures Enabled(s, t, Step(spurious)) && t in Stepped(s, t, spurious).threads
    ensures var s' := Stepped(s, t, spurious);
      && StepsIn(s'.threads[t].pc) == StepsIn(s.threads[t].pc) - 1
      && (Entering(s'.threads[t].pc) || InRegion(s', t))
  {
    assert ThreadInv(s, t);
  }

  /** Nobody else moves it. */
  lemma OthersKeep(s: State, t: nat, u: nat, a: Action)
    requires Enabled(s, u, a) && u != t && t in s.threads && !a.Fork?
    ensures t in Apply(s, u, a).threads && Apply(s, u, a).threads[t] == s.threads[t]
  {}

  datatype Label = Label(thread: nat, action: Action)

  /** The steps from state `i` to state `j`, in one process and with the bit clear. */
  ghost predicate Clear(run: seq<State>, who: seq<Label>, i: nat, j: nat) {
    && IsRun(run) && i <= j < |run| && |who| == |run|
    && forall k :: i <= k < j ==>
         && Enabled(run[k], who[k].thread, who[k].action) && run[k + 1] == Apply(run[k], who[k].thread, who[k].action)
         && !who[k].action.Fork? && run[k].counter % 2 == 0
  }

  ghost function StepsBy(who: seq<Label>, t: nat, i: nat, j: nat): nat
    requires i <= j <= |who|
    decreases j - i
  {
    if i == j then 0 else StepsBy(who, t, i, j - 1) + if who[j - 1].thread == t then 1 else 0
  }

  /** An entering thread is inside after as many of its own steps as it is away, at
      most three, however the others run. */
  lemma EntersInThree(run: seq<State>, who: seq<Label>, t: nat, i: nat, j: nat)
    requires Clear(run, who, i, j) && t in run[i].threads && Entering(run[i].threads[t].pc)
    requires StepsBy(who, t, i, j) >= StepsIn(run[i].threads[t].pc)
    ensures StepsIn(run[i].threads[t].pc) <= 3
    ensures exists k :: i < k <= j && InRegion(run[k], t)
  {
    Nearer(run, who, t, i, j);
  }

  lemma {:induction false} Nearer(run: seq<State>, who: seq<Label>, t: nat, i: nat, j: nat)
    requires Clear(run, who, i, j) && t in run[i].threads && Entering(run[i].threads[t].pc)
    ensures (exists k :: i < k <= j && InRegion(run[k], t)) ||
      (t in run[j].threads && Entering(run[j].threads[t].pc)
       && StepsIn(run[j].threads[t].pc) + StepsBy(who, t, i, j) == StepsIn(run[i].threads[t].pc))
    decreases j - i
  {
    hide InRegion, Inv, Next, Apply, Enabled, StepsIn;
    if i < j {
      Nearer(run, who, t, i, j - 1);
      if !exists k :: i < k <= j - 1 && InRegion(run[k], t) {
        var s, l := run[j - 1], who[j - 1];
        RunKeepsInv(run, j - 1);
        if l.thread == t { OnlySteps(s, t, l.action); } else { OthersKeep(s, t, l.thread, l.action); }
      }
    }
  }

  /** All an entering thread can do is step. */
  lemma OnlySteps(s: State, t: nat, a: Action)
    requires Inv(s) && t in s.threads && Entering(s.threads[t].pc) && Enabled(s, t, a) && s.counter % 2 == 0
    ensures var s' := Apply(s, t, a);
      && t in s'.threads && StepsIn(s'.threads[t].pc) == StepsIn(s.threads[t].pc) - 1
      && (Entering(s'.threads[t].pc) || InRegion(s', t))
  {
    assert a.Step? by { assert ThreadInv(s, t); }
    EnteringAdvances(s, t, a.spurious);
    hide Inv, InRegion, Stepped, StepsIn;
  }

  // ----- nobody waits in vain

  /** The next step of the thread is not a spin. */
  predicate Moves(s: State, t: nat) {
    t in s.threads && match s.threads[t].pc
    case Run => false
    case Failed => false
    case SpinLoad => s.counter % 2 == 0
    case ForkLoad => s.counter % 2 == 0
    case ForkWait => s.counter == 1
    case _ => true
  }

  /** While some thread is in the middle of an operation, some thread can go on with
      its own, or is inside a region and has to leave it, or holds the gate and has
      to run its handler. */
  lemma NeverStuck(run: seq<State>, i: nat, t: nat)
    requires IsRun(run) && i < |run| && t in run[i].threads && !run[i].threads[t].pc.Run? && !run[i].threads[t].pc.Failed?
    ensures exists u :: (Moves(run[i], u) && Stepped(run[i], u, false) != run[i]) || InRegion(run[i], u) || Held(run[i], u)
  {
    hide Stepped, InRegion, Held;
    RunKeepsInv(run, i);
    var s := run[i];
    var u := Mover(s, t);
    if Moves(s, u) { MovesChange(s, u); }
  }

  lemma MovesChange(s: State, u: nat)
    requires Inv(s) && Moves(s, u)
    ensures Stepped(s, u, false) != s
  {
    var s' := Stepped(s, u, false);
    assert ThreadInv(s, u);
    assert CountInv(s);
    assert u in s'.threads && s'.threads[u].pc != s.threads[u].pc;
  }

  lemma Mover(s: State, t: nat) returns (u: nat)
    requires Inv(s) && t in s.threads && !s.threads[t].pc.Run? && !s.threads[t].pc.Failed?
    ensures Moves(s, u) || InRegion(s, u) || Held(s, u)
  {
    assert ThreadInv(s, t);
    if Moves(s, t) { return t; }
    u := s.forker;
    assert u in s.threads && ThreadInv(s, u);
    if !Held(s, u) && !Moves(s, u) {
      assert |Counted(s)| > 0;
      u :| u in Counted(s);
      assert ThreadInv(s, u);
    }
  }

  // ----- what one thread does when it is not disturbed

  /** The actions of one thread, one after the other; each must be possible. */
  ghost predicate Does(s: State, t: nat, acts: seq<Action>, s': State)
    decreases |acts|
  {
    if acts == [] then s' == s
    else Enabled(s, t, acts[0]) && Does(Apply(s, t, acts[0]), t, acts[1..], s')
  }

  lemma DoesOne(s: State, t: nat, a: Action, rest: seq<Action>, s': State)
    requires Enabled(s, t, a) && Does(Apply(s, t, a), t, rest, s')
    ensures Does(s, t, [a] + rest, s')
  {
    assert ([a] + rest)[1..] == rest;
  }

  lemma DoesTwo(s: State, t: nat, a: Action, b: Action)
    requires Enabled(s, t, a) && Enabled(Apply(s, t, a), t, b)
    ensures Does(s, t, [a, b], Apply(Apply(s, t, a), t, b))
  {
    hide Enabled, Apply;
    var s1 := Apply(s, t, a);
    DoesOne(s1, t, b, [], Apply(s1, t, b));
    DoesOne(s, t, a, [b], Apply(s1, t, b));
    assert [b] + [] == [b] && [a] + [b] == [a, b];
  }

  lemma DoesFour(s: State, t: nat, a: Action, b: Action, c: Action, d: Action)
    requires Enabled(s, t, a) && Enabled(Apply(s, t, a), t, b)
    requires var s2 := Apply(Apply(s, t, a), t, b); Enabled(s2, t, c) && Enabled(Apply(s2, t, c), t, d)
    ensures Does(s, t, [a, b, c, d], Apply(Apply(Apply(Apply(s, t, a), t, b), t, c), t, d))
  {
    hide Enabled, Apply;
    var s1 := Apply(s, t, a);
    var s2 := Apply(s1, t, b);
    DoesTwo(s2, t, c, d);
    var s4 := Apply(Apply(s2, t, c), t, d);
    DoesOne(s1, t, b, [c, d], s4);
    DoesOne(s, t, a, [b, c, d], s4);
    assert [b] + [c, d] == [b, c, d] && [a] + [b, c, d] == [a, b, c, d];
  }

  ghost predicate Resting(s: State, t: nat) {
    Inv(s) && t in s.threads && s.threads[t] == Thread(Run, 0, 0, false) && s.counter % 2 == 0 && !s.inChild
  }

  const GO: Action := Step(false)

  /** That is how a thread begins. */
  lemma BeginsResting(run: seq<State>, i: nat, t: nat)
    requires IsRun(run) && i < |run| && Enabled(run[i], t, NewThread) && run[i].counter % 2 == 0
    ensures Resting(Apply(run[i], t, NewThread), t)
  {
    hide ThreadInv, CountInv, GateInv;
    RunKeepsInv(run, i);
    var s' := Apply(run[i], t, NewThread);
    NextKeepsInv(run[i], s');
  }

  lemma RestingFacts(s: State, t: nat)
    requires Resting(s, t)
    ensures t > 0 && t != s.forker && (s.counter == 0 ==> s.forker == 0)
    ensures s.threads[t := Thread(Run, 0, 0, false)] == s.threads
  {
    assert ThreadInv(s, t);
  }

  /** Entering a region puts the thread inside, and leaving it restores the state. */
  lemma RegionRoundTrip(s: State, t: nat) returns (inside: State)
    requires Resting(s, t)
    ensures Does(s, t, [Enter, GO], inside) && InRegion(inside, t) && inside.counter == s.counter + 2
    ensures Does(inside, t, [Leave, GO], s)
  {
    hide Inv, Does;
    RestingFacts(s, t);
    inside := Set(s, t, Thread(Run, 1, 0, true)).(counter := s.counter + 2);
    EntersRegion(s, t);
    LeavesRegion(s, t, inside);
    DoesTwo(s, t, Enter, GO);
    DoesTwo(inside, t, Leave, GO);
  }

  lemma EntersRegion(s: State, t: nat)
    requires Resting(s, t)
    ensures Enabled(s, t, Enter) && Enabled(Apply(s, t, Enter), t, GO)
    ensures Apply(Apply(s, t, Enter), t, GO) == Set(s, t, Thread(Run, 1, 0, true)).(counter := s.counter + 2)
  {
    hide Inv;
  }

  lemma LeavesRegion(s: State, t: nat, inside: State)
    requires Resting(s, t) && t != s.forker && inside == Set(s, t, Thread(Run, 1, 0, true)).(counter := s.counter + 2)
    ensures Enabled(inside, t, Leave) && Enabled(Apply(inside, t, Leave), t, GO)
    ensures Apply(Apply(inside, t, Leave), t, GO) == s
  {
    RestingFacts(s, t);
    hide Inv;
  }

  /** With nobody inside, three steps of `prefork` give the gate, and the parent's
      handler gives it back: the state is as before. */
  lemma ForkRoundTrip(s: State, t: nat) returns (held: State)
    requires Resting(s, t) && s.counter == 0
    ensures Does(s, t, [Prefork, GO, GO, GO], held) && Held(held, t) && held.counter == 1
    ensures Does(held, t, [PostforkParent, GO], s)
  {
    hide Inv, Does;
    RestingFacts(s, t);
    held := Set(s, t, Thread(Run, 1, 1, false)).(counter := 1, forker := t);
    Preforks(s, t);
    Postforks(s, t, held);
    DoesFour(s, t, Prefork, GO, GO, GO);
    DoesTwo(held, t, PostforkParent, GO);
  }

  /** Handlers installed twice run twice, and only the last one opens the gate. */
  lemma NestedHandlers(s: State, t: nat, held: State)
    requires Resting(s, t) && s.counter == 0 && held == Set(s, t, Thread(Run, 1, 1, false)).(counter := 1, forker := t)
    ensures Does(held, t, [Prefork, PostforkParent], held)
  {
    hide Does;
    RestingFacts(s, t);
    hide Inv;
    var twice := Set(s, t, Thread(Run, 1, 2, false)).(counter := 1, forker := t);
    assert Enabled(held, t, Prefork) && Apply(held, t, Prefork) == twice;
    assert Enabled(twice, t, PostforkParent) && Apply(twice, t, PostforkParent) == held;
    DoesTwo(held, t, Prefork, PostforkParent);
  }

  /** In the child the forking thread is alone and at rest, the gate open, whatever
      was counted at the fork; nested handlers count down there too. */
  lemma ChildRoundTrip(held: State, t: nat) returns (child: State)
    requires Inv(held) && Held(held, t) && held.threads[t] == Thread(Run, 1, 1, false) && !held.inChild
    ensures Does(held, t, [Fork, PostforkChild], child)
    ensures Does(held, t, [Prefork, Fork, PostforkChild, PostforkChild], child)
    ensures child == State(0, map[t := Thread(Run, 0, 0, false)], 0, 0, false)
  {
    hide Does, Inv, Counted;
    child := State(0, map[t := Thread(Run, 0, 0, false)], 0, 0, false);
    ForksOff(held, t, 1);
    DoesTwo(held, t, Fork, PostforkChild);
    var twice := Set(held, t, Thread(Run, 1, 2, false));
    assert Enabled(held, t, Prefork) && Apply(held, t, Prefork) == twice;
    ForksOff(twice, t, 2);
    DoesFour(held, t, Prefork, Fork, PostforkChild, PostforkChild);
  }

  lemma ForksOff(s: State, t: nat, n: nat)
    requires n > 0 && t in s.threads && t == s.forker && s.threads[t] == Thread(Run, 1, n, false) && !s.inChild
    ensures Enabled(s, t, Fork) && Enabled(Apply(s, t, Fork), t, PostforkChild)
    ensures var s' := Apply(Apply(s, t, Fork), t, PostforkChild);
      if n == 1 then s' == State(0, map[t := Thread(Run, 0, 0, false)], 0, 0, false)
      else && s'.threads == map[t := Thread(Run, 1, n - 1, false)] && s'.forker == t && s'.inChild && Enabled(s', t, PostforkChild)
           && (n == 2 ==> Apply(s', t, PostforkChild) == State(0, map[t := Thread(Run, 0, 0, false)], 0, 0, false))
  {
    hide Counted;
  }

  lemma Preforks(s: State, t: nat)
    requires Resting(s, t) && s.counter == 0
    ensures Enabled(s, t, Prefork) && Enabled(Apply(s, t, Prefork), t, GO)
    ensures var s2 := Apply(Apply(s, t, Prefork), t, GO);
      && Enabled(s2, t, GO) && Enabled(Apply(s2, t, GO), t, GO)
      && Apply(Apply(s2, t, GO), t, GO) == Set(s, t, Thread(Run, 1, 1, false)).(counter := 1, forker := t)
  {
    hide Inv;
    var s1 := Set(s, t, Thread(ForkLoad, 0, 1, false));
    var s2 := Set(s, t, Thread(ForkCas(0), 0, 1, false));
    var s3 := Set(s, t, Thread(ForkWait, 0, 1, false)).(counter := 1, forker := t);
    assert Apply(s, t, Prefork) == s1 && Apply(s1, t, GO) == s2;
    assert Apply(s2, t, GO) == s3;
  }

  lemma Postforks(s: State, t: nat, held: State)
    requires Resting(s, t) && s.counter == 0 && held == Set(s, t, Thread(Run, 1, 1, false)).(counter := 1, forker := t)
    ensures Enabled(held, t, PostforkParent) && Enabled(Apply(held, t, PostforkParent), t, GO)
    ensures Apply(Apply(held, t, PostforkParent), t, GO) == s
  {
    RestingFacts(s, t);
    hide Inv;
  }
}
