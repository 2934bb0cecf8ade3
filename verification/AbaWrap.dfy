/** A run of the stack in which a pop is stale: it reads the top and its `next`,
    2^64 other operations succeed, and its words match again. */
module AbaWrap {
  import opened Bits
  import opened Lists
  import opened AbaStack

  /** A run without a stale pop. */
  ghost predicate Clean(run: seq<State>, acts: seq<Action>) {
    |run| == |acts| + 1 && IsRun(run, acts) && NoStalePop(run, acts, |acts|)
  }

  ghost function Last(run: seq<State>): State
    requires run != []
  {
    run[|run| - 1]
  }

  /** One more action. */
  lemma Go(run: seq<State>, acts: seq<Action>, a: Action) returns (run': seq<State>, acts': seq<Action>)
    requires Clean(run, acts) && Enabled(Last(run), a) && !StalePop(Last(run), a)
    ensures Clean(run', acts') && Last(run') == Apply(Last(run), a)
  {
    hide StalePop, Stepped, IsInit;
    run', acts' := run + [Apply(Last(run), a)], acts + [a];
    forall i | 0 <= i < |acts'|
      ensures Enabled(run'[i], acts'[i]) && run'[i + 1] == Apply(run'[i], acts'[i]) && !StalePop(run'[i], acts'[i])
    {
      assert i < |acts| ==> run'[i] == run[i] && run'[i + 1] == run[i + 1] && acts'[i] == acts[i];
    }
  }

  /** The memory and the stack after a push without interference. */
  ghost predicate AfterPush(s: State, s': State, o: nat, items: seq<nat>)
    requires items != []
  {
    && s'.ptr == items[0] && s'.aba == s.aba + 1 && s'.stack == items + s.stack
    && s'.next == Chain(s.next, items, 0)[items[|items| - 1] := s.ptr]
    && o in s'.ops && s'.ops == s.ops[o := s'.ops[o]]
    && s'.place.Keys == s.place.Keys
    && forall x :: x in s.place ==> if x in items then s'.place[x].Stacked? else s'.place[x] == s.place[x]
  }

  lemma DoPush(run: seq<State>, acts: seq<Action>, o: nat, items: seq<nat>) returns (run': seq<State>, acts': seq<Action>)
    requires Clean(run, acts) && Enabled(Last(run), Start(o, Push(items), 0)) && items != []
    ensures Clean(run', acts') && AfterPush(Last(run), Last(run'), o, items)
  {
    hide IsRun, NoStalePop, Chain, IndexOf, Distinct;
    var s := Last(run);
    run', acts' := Go(run, acts, Start(o, Push(items), 0));
    run', acts' := Go(run', acts', Step(o, false));
    run', acts' := Go(run', acts', Step(o, false));
    run', acts' := Go(run', acts', Step(o, false));
    run', acts' := Go(run', acts', Step(o, false));
  }

  ghost predicate AfterPopAll(s: State, s': State, o: nat) {
    && s'.ptr == 0 && s'.aba == s.aba + 1 && s'.stack == [] && s'.next == s.next
    && o in s'.ops && s'.ops == s.ops[o := s'.ops[o]]
    && s'.place.Keys == s.place.Keys
    && forall x :: x in s.place ==> s'.place[x] == if s.place[x].Stacked? then Outside else s.place[x]
  }

  lemma DoPopAll(run: seq<State>, acts: seq<Action>, o: nat) returns (run': seq<State>, acts': seq<Action>)
    requires Clean(run, acts) && o !in Last(run).ops && Last(run).ptr != 0
    ensures Clean(run', acts') && AfterPopAll(Last(run), Last(run'), o)
  {
    hide IsRun, NoStalePop;
    run', acts' := Go(run, acts, Start(o, PopAll, 0));
    run', acts' := Go(run', acts', Step(o, false));
    run', acts' := Go(run', acts', Step(o, false));
    run', acts' := Go(run', acts', Step(o, false));
  }

  /** A pop up to its compare-exchange. */
  lemma StartPop(run: seq<State>, acts: seq<Action>, o: nat) returns (run': seq<State>, acts': seq<Action>)
    requires Clean(run, acts) && o !in Last(run).ops && Last(run).ptr in Last(run).next && Last(run).ptr != 0
    ensures var s := Last(run);
      Clean(run', acts') && Last(run') == s.(ops := s.ops[o := Op(Pop, Cas(s.next[s.ptr]), s.ptr, s.aba)])
  {
    hide IsRun, NoStalePop;
    run', acts' := Go(run, acts, Start(o, Pop, 0));
    run', acts' := Go(run', acts', Step(o, false));
    run', acts' := Go(run', acts', Step(o, false));
    run', acts' := Go(run', acts', Step(o, false));
  }

  const WAITING: Op := Op(Pop, Cas(2), 1, 1)

  /** Pop 7 waits with item 1 and its `next`, 2; the stack is empty and all nodes are outside. */
  ghost predicate Between(s: State, bound: nat) {
    && s.ptr == 0 && s.stack == [] && 7 < bound
    && s.place == map[1 := Outside, 2 := Outside, 3 := Outside] && s.next.Keys == {1, 2, 3}
    && 7 in s.ops && s.ops[7] == WAITING && forall o :: o in s.ops ==> o < bound
  }

  /** A push and a pop_all: the counter goes on by two. */
  lemma Round(run: seq<State>, acts: seq<Action>, bound: nat) returns (run': seq<State>, acts': seq<Action>)
    requires Clean(run, acts) && Between(Last(run), bound)
    ensures Clean(run', acts') && Between(Last(run'), bound + 2) && Last(run').aba == Last(run).aba + 2
  {
    hide IsRun, NoStalePop;
    var s := Last(run);
    run', acts' := DoPush(run, acts, bound, [3]);
    var s1 := Last(run');
    run', acts' := DoPopAll(run', acts', bound + 1);
    var s2 := Last(run');
    assert s2.place == s.place;
    assert s2.next.Keys == s1.next.Keys == s.next.Keys + {3};
  }

  lemma {:induction false} Rounds(run: seq<State>, acts: seq<Action>, bound: nat, n: nat) returns (run': seq<State>, acts': seq<Action>)
    requires Clean(run, acts) && Between(Last(run), bound)
    ensures Clean(run', acts') && Between(Last(run'), bound + 2 * n) && Last(run').aba == Last(run).aba + 2 * n
  {
    hide IsRun, NoStalePop, Between;
    run', acts' := run, acts;
    if n > 0 {
      run', acts' := Rounds(run, acts, bound, n - 1);
      run', acts' := Round(run', acts', bound + 2 * (n - 1));
    }
  }

  /** Push 1 and 2, let pop 7 read them, and take both off again. */
  lemma Opening() returns (run: seq<State>, acts: seq<Action>)
    ensures Clean(run, acts) && Between(Last(run), 10) && Last(run).aba == 2
  {
    hide IsRun, NoStalePop, Chain, Between, AfterPush, AfterPopAll, Distinct, IsInit;
    run, acts := [EMPTY], [];
    StartEmpty();
    TwoDistinct(1, 2);
    run, acts := DoPush(run, acts, 8, [1, 2]);
    var s1 := Last(run);
    FirstPushed(s1);
    run, acts := StartPop(run, acts, 7);
    var s2 := Last(run);
    run, acts := DoPopAll(run, acts, 9);
    Waits(s1, s2, Last(run));
  }

  lemma StartEmpty()
    ensures Clean([EMPTY], [])
  {}

  lemma FirstPushed(s: State)
    requires AfterPush(EMPTY, s, 8, [1, 2])
    ensures s.ptr == 1 && s.aba == 1 && s.next.Keys == {1, 2, 3} && s.next[1] == 2 && s.ops.Keys == {8}
  {
    hide Chain;
    ChainOfTwo(EMPTY.next, 1, 2, 0);
  }

  lemma Waits(s1: State, s2: State, s3: State)
    requires AfterPush(EMPTY, s1, 8, [1, 2]) && s2 == s1.(ops := s1.ops[7 := WAITING]) && AfterPopAll(s2, s3, 9)
    requires s1.next.Keys == {1, 2, 3} && s1.ops.Keys == {8}
    ensures Between(s3, 10) && s3.aba == 2
  {
    hide Chain;
    assert s3.place == EMPTY.place;
  }

  const EMPTY: State :=
    State(0, 0, map[1 := 0, 2 := 0, 3 := 0], map[], [], map[1 := Outside, 2 := Outside, 3 := Outside], [])

  lemma TwoDistinct(x: nat, y: nat)
    requires x != y
    ensures Distinct([x, y])
  {}

  lemma ChainOfTwo(next: map<nat, nat>, x: nat, y: nat, top: nat)
    requires x != y && x in next && y in next
    ensures var next' := Chain(next, [x, y], 0)[y := top];
      next'.Keys == next.Keys && next'[x] == y && forall z :: z in next && z != x && z != y ==> next'[z] == next[z]
  {
    assert IndexOf([x, y], x) == 0;
  }

  /** There is a run in which 2^64 operations succeed while a pop waits: its words
      match, it succeeds, the item below the top is lost, and the list goes on with
      whatever the owner of a popped item has written there. */
  lemma WrapCollides(v: nat) returns (run: seq<State>, acts: seq<Action>)
    ensures IsRun(run, acts) && NoStalePop(run, acts, |acts|)
    ensures var s := run[|acts|];
      && s.aba == WORD + 1 && s.stack == [1, 3] && StalePop(s, Step(7, false))
      && Stepped(s, 7, false).ptr == 2 && Stepped(s, 7, false).stack == [3] && !Linearized(Stepped(s, 7, false))
      && 2 in s.next && s.next[2] == v
  {
    hide IsRun, NoStalePop, Distinct, Chain, StalePop, Stepped, Inv, Linearized;
    var rounds := WORD / 2 - 1;
    run, acts := Opening();
    run, acts := Rounds(run, acts, 10, rounds);
    run, acts := Written(run, acts, 10 + 2 * rounds, v);
    var s0 := Last(run);
    TwoDistinct(1, 3);
    run, acts := DoPush(run, acts, 10 + 2 * rounds, [1, 3]);
    RunKeepsInv(run, acts, |acts|);
    Collision(s0, Last(run), 10 + 2 * rounds);
  }

  /** The owner of item 2 writes its `next`. */
  lemma Written(run: seq<State>, acts: seq<Action>, bound: nat, v: nat) returns (run': seq<State>, acts': seq<Action>)
    requires Clean(run, acts) && Between(Last(run), bound)
    ensures Clean(run', acts') && Between(Last(run'), bound) && Last(run').aba == Last(run).aba
    ensures 2 in Last(run').next && Last(run').next[2] == v
  {
    hide IsRun, NoStalePop;
    run', acts' := Go(run, acts, Scribble(2, v));
  }

  lemma Collision(s0: State, s: State, bound: nat)
    requires Between(s0, bound) && s0.aba == WORD && AfterPush(s0, s, bound, [1, 3]) && Inv(s)
    ensures s.stack == [1, 3] && StalePop(s, Step(7, false)) && 2 in s.next && s.next[2] == s0.next[2]
    ensures Stepped(s, 7, false).ptr == 2 && Stepped(s, 7, false).stack == [3] && !Linearized(Stepped(s, 7, false))
  {
    hide Inv;
    ChainOfTwo(s0.next, 1, 3, 0);
    hide Chain;
    assert s.next[1] == 3;
    StalePopBreaks(s, Step(7, false));
  }
}
