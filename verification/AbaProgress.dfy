/** The stack is lock-free: six steps of an operation without a spurious failure
    end it, unless some operation succeeds meanwhile. */
module AbaProgress {
  import opened Bits
  import opened Lists
  import opened AbaStack

  /** Steps to the end of the operation while nobody succeeds. */
  function StepsLeft(s: State, op: Op): nat {
    match op.pc
    case ReadPtr => 6
    case ReadAba => 5
    case StoreNext => if WordsMatch(s, op) then 2 else 4
    case RaceRead => if WordsMatch(s, op) then 2 else 4
    case Cas(_) => if WordsMatch(s, op) then 1 else 3
    case Returned(_) => 0
  }

  /** What an operation has read as the top is null or a node. */
  ghost predicate Known(s: State) {
    forall o :: o in s.ops ==> s.ops[o].oldPtr == 0 || s.ops[o].oldPtr in s.next
  }

  lemma TopKnown(s: State)
    requires Inv(s)
    ensures s.ptr == 0 || s.ptr in s.next
  {
    if s.stack != [] { assert SlotInv(s, 0); }
  }

  /** Nodes stay nodes. */
  lemma NodesStay(s: State, a: Action)
    requires Inv(s) && Enabled(s, a)
    ensures Apply(s, a).next.Keys == s.next.Keys
  {
    hide SlotInv, EventInv, Replay, EventsOf, Distinct, IndexOf;
    if a.Step? { assert OpInv(s, a.op); }
  }

  lemma ReadsTop(s: State, a: Action, o: nat)
    requires Enabled(s, a) && o in Apply(s, a).ops
    ensures Apply(s, a).ops[o].oldPtr == 0 || Apply(s, a).ops[o].oldPtr == s.ptr
      || (o in s.ops && Apply(s, a).ops[o].oldPtr == s.ops[o].oldPtr)
  {
    hide Distinct, IndexOf, Chain;
  }

  lemma KeepsKnown(s: State, a: Action)
    requires Inv(s) && Known(s) && Enabled(s, a)
    ensures Known(Apply(s, a))
  {
    hide Inv, Stepped, Chain;
    TopKnown(s);
    NodesStay(s, a);
    var s' := Apply(s, a);
    forall o | o in s'.ops ensures s'.ops[o].oldPtr == 0 || s'.ops[o].oldPtr in s'.next { ReadsTop(s, a, o); }
  }

  lemma {:induction false} RunKnown(run: seq<State>, acts: seq<Action>, i: nat)
    requires IsRun(run, acts) && i < |run| && NoStalePop(run, acts, i)
    ensures Known(run[i])
  {
    hide StalePop, Enabled, Apply, Inv;
    if i > 0 {
      RunKnown(run, acts, i - 1);
      RunKeepsInv(run, acts, i - 1);
      KeepsKnown(run[i - 1], acts[i - 1]);
    }
  }

  /** A step of its own ends the operation, comes nearer to that, or meets a success. */
  lemma OwnStep(s: State, o: nat)
    requires Inv(s) && Known(s) && o in s.ops
    ensures var s' := Stepped(s, o, false);
      && o in s'.ops
      && (s'.aba == s.aba ==> s'.ptr == s.ptr && (s.ops[o].pc.Returned? || StepsLeft(s', s'.ops[o]) < StepsLeft(s, s.ops[o])))
  {
    hide TopInv, SlotInv, EventInv, Replay, EventsOf, Distinct, IndexOf;
    assert OpInv(s, o);
  }

  /** Nobody else's step does, as long as it is no success. */
  lemma OtherStep(s: State, a: Action, o: nat)
    requires Enabled(s, a) && o in s.ops && (a.Step? ==> a.op != o)
    ensures o in Apply(s, a).ops && Apply(s, a).ops[o] == s.ops[o]
    ensures Apply(s, a).aba == s.aba ==> Apply(s, a).ptr == s.ptr
  {
    hide Distinct, IndexOf, Chain;
  }

  ghost function StepsOf(acts: seq<Action>, o: nat, i: nat, j: nat): nat
    requires i <= j <= |acts|
    decreases j - i
  {
    if i == j then 0
    else StepsOf(acts, o, i, j - 1) + if acts[j - 1].Step? && acts[j - 1].op == o then 1 else 0
  }

  ghost predicate NoneSpurious(acts: seq<Action>, o: nat, i: nat, j: nat)
    requires i <= j <= |acts|
  {
    forall k :: i <= k < j && acts[k].Step? && acts[k].op == o ==> !acts[k].spurious
  }

  lemma {:induction false} Nearer(run: seq<State>, acts: seq<Action>, i: nat, j: nat, o: nat)
    requires IsRun(run, acts) && i <= j < |run| && NoStalePop(run, acts, j) && o in run[i].ops && NoneSpurious(acts, o, i, j)
    ensures o in run[j].ops
    ensures run[j].aba == run[i].aba ==>
      run[j].ops[o].pc.Returned? || StepsLeft(run[j], run[j].ops[o]) + StepsOf(acts, o, i, j) <= StepsLeft(run[i], run[i].ops[o])
    decreases j - i
  {
    hide StalePop, Enabled, Apply, Inv, Known, StepsLeft, Stepped;
    if i < j {
      var s, a := run[j - 1], acts[j - 1];
      Nearer(run, acts, i, j - 1, o);
      RunKeepsInv(run, acts, j - 1);
      RunKnown(run, acts, j - 1);
      SameCounter(run, acts, i, j - 1, j);
      if a.Step? && a.op == o {
        StepIs(s, a);
        OwnStep(s, o);
        StaysReturned(s, o);
      } else {
        OtherStep(s, a, o);
        SameDistance(s, run[j], run[j].ops[o]);
      }
    }
  }

  lemma StepIs(s: State, a: Action)
    requires Enabled(s, a) && a.Step? && !a.spurious
    ensures a.op in s.ops && Apply(s, a) == Stepped(s, a.op, false)
  {}

  lemma StaysReturned(s: State, o: nat)
    requires o in s.ops
    ensures s.ops[o].pc.Returned? ==> Stepped(s, o, false) == s
  {}

  lemma SameDistance(s: State, s': State, op: Op)
    ensures s'.ptr == s.ptr && s'.aba == s.aba ==> StepsLeft(s', op) == StepsLeft(s, op)
  {}

  /** Six steps end an operation, or some operation has succeeded. */
  lemma LockFree(run: seq<State>, acts: seq<Action>, i: nat, j: nat, o: nat)
    requires IsRun(run, acts) && i <= j < |run| && NoStalePop(run, acts, j) && o in run[i].ops
    requires NoneSpurious(acts, o, i, j) && StepsOf(acts, o, i, j) >= 6
    ensures o in run[j].ops
    ensures run[j].ops[o].pc.Returned? || run[j].aba > run[i].aba
  {
    Nearer(run, acts, i, j, o);
    SameCounter(run, acts, i, i, j);
  }
}
