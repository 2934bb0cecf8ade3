/** `PreventFork`: regions in which no fork may happen, and the fork handlers
    that wait for all such regions to end.

    One shared counter, two per-thread depths; any number of threads, nested
    regions, competing forks and repeatedly installed handlers.  One atomic
    access per step, sequentially consistent. */
module ForkGate {

  datatype Pc =
    | Run                  // between operations
    | FetchAdd             // entering: counter += 2
    | BackOut              // entering, fork bit seen: counter -= 2
    | SpinLoad             // entering: wait for the fork bit to clear
    | Sub                  // left the outermost region: counter -= 2
    | ForkLoad             // prefork: read the counter
    | ForkCas(seen: nat)   // prefork: set the fork bit
    | ForkWait             // prefork: wait for the counter to be 1
    | ClearBit             // postfork_parent: counter -= 1
    | Failed               // fork attempted inside a region

  /** `depth` is depth_of_prevention, `handlers` is depth_of_handlers.
      `counted` (never read) says whether this thread's 2 is in the counter. */
  datatype Thread = Thread(pc: Pc, depth: nat, handlers: nat, counted: bool)

  /** `forker` (never read) is the thread that owns the fork bit, 0 if none;
      `vanished` counts threads that were in the counter when the process was
      forked off and do not exist here. */
  datatype State = State(
    counter: int,
    threads: map<nat, Thread>,
    forker: nat,
    vanished: nat,
    inChild: bool)

  const Init := State(0, map[], 0, 0, false)

  datatype Action =
    | NewThread
    | Enter | Leave              // constructor and destructor of PreventFork
    | Prefork
    | Fork                       // go on as the child process
    | PostforkParent | PostforkChild
    | Step(spurious: bool)

  /** A thread that has returned from `prefork` and not yet run the last postfork handler. */
  predicate Held(s: State, t: nat) {
    t in s.threads && t == s.forker && s.threads[t].handlers > 0 && !s.threads[t].pc.ForkWait?
  }

  /** Control is inside a PreventFork region (the constructor has returned). */
  predicate InRegion(s: State, t: nat) {
    t in s.threads && s.threads[t].depth > (if Held(s, t) then 1 else 0) && (s.threads[t].pc.Run? || s.threads[t].pc.Failed?)
  }

  predicate Enabled(s: State, t: nat, a: Action) {
    match a
    case NewThread => t > 0 && t !in s.threads && !s.inChild
    case Enter => t in s.threads && s.threads[t].pc.Run?
    case Leave => InRegion(s, t) && s.threads[t].pc.Run?
    case Prefork => t in s.threads && s.threads[t].pc.Run? && !s.inChild
    // handlers run with no region of their own left open
    case Fork => Held(s, t) && s.threads[t].pc.Run? && s.threads[t].depth == 1 && !s.inChild
    case PostforkParent => Held(s, t) && s.threads[t].pc.Run? && s.threads[t].depth == 1 && !s.inChild
    case PostforkChild => Held(s, t) && s.threads[t].pc.Run? && s.threads[t].depth == 1 && s.inChild
    case Step(_) => t in s.threads && !s.threads[t].pc.Run? && !s.threads[t].pc.Failed?
  }

  function Set(s: State, t: nat, th: Thread): State {
    s.(threads := s.threads[t := th])
  }

  function Stepped(s: State, t: nat, spurious: bool): State
    requires t in s.threads
  {
    var th := s.threads[t];
    match th.pc
    case FetchAdd =>
      Set(s, t, th.(pc := if s.counter % 2 == 0 then Run else BackOut, counted := true)).(counter := s.counter + 2)
    case BackOut => Set(s, t, th.(pc := SpinLoad, counted := false)).(counter := s.counter - 2)
    case SpinLoad => if s.counter % 2 == 1 then s else Set(s, t, th.(pc := FetchAdd))
    case Sub => Set(s, t, th.(pc := Run, counted := false)).(counter := s.counter - 2)
    case ForkLoad => if s.counter % 2 == 0 && s.counter >= 0 then Set(s, t, th.(pc := ForkCas(s.counter))) else s
    case ForkCas(seen) =>
      if s.counter == seen && !spurious then Set(s, t, th.(pc := ForkWait)).(counter := s.counter + 1, forker := t)
      else Set(s, t, th.(pc := ForkLoad))
    case ForkWait => if s.counter == 1 then Set(s, t, th.(pc := Run, depth := th.depth + 1)) else s
    case ClearBit => Set(s, t, th.(pc := Run)).(counter := s.counter - 1, forker := 0)
    case _ => s
  }

  function Apply(s: State, t: nat, a: Action): State
    requires Enabled(s, t, a)
  {
    match a
    case NewThread => Set(s, t, Thread(Run, 0, 0, false))
    case Enter =>
      var th := s.threads[t];
      Set(s, t, th.(depth := th.depth + 1, pc := if th.depth == 0 then FetchAdd else Run))
    case Leave =>
      var th := s.threads[t];
      Set(s, t, th.(depth := th.depth - 1, pc := if th.depth == 1 then Sub else Run))
    case Prefork =>
      var th := s.threads[t];
      Set(s, t, th.(handlers := th.handlers + 1,
                    pc := if th.handlers != 0 then Run else if th.depth != 0 then Failed else ForkLoad))
    case Fork =>
      s.(threads := map[t := s.threads[t]], inChild := true,
         vanished := s.vanished + |Counted(s) - {t}|)
    case PostforkParent =>
      var th := s.threads[t];
      if th.handlers != 1 then Set(s, t, th.(handlers := th.handlers - 1))
      else Set(s, t, th.(handlers := 0, depth := th.depth - 1, pc := ClearBit))
    case PostforkChild =>
      var th := s.threads[t];
      if th.handlers != 1 then Set(s, t, th.(handlers := th.handlers - 1))
      else Set(s, t, th.(handlers := 0, depth := th.depth - 1)).(counter := 0, forker := 0, vanished := 0, inChild := false)
    case Step(spurious) => Stepped(s, t, spurious)
  }

  ghost predicate Next(s: State, s': State) {
    exists t, a :: Enabled(s, t, a) && s' == Apply(s, t, a)
  }

  function Counted(s: State): set<nat> {
    set t | t in s.threads && s.threads[t].counted
  }

  // ----- invariant

  ghost predicate ThreadInv(s: State, t: nat)
    requires t in s.threads
  {
    var th := s.threads[t];
    && t > 0
    && (th.handlers > 0 && th.pc.Run? ==> t == s.forker && th.depth >= 1)
    && (t == s.forker ==> !th.counted && (Held(s, t) || th.pc.ForkWait? || th.pc.ClearBit?))
    && match th.pc
       case Run => t != s.forker ==> (th.depth > 0 <==> th.counted) && th.handlers == 0
       case FetchAdd => th.depth == 1 && !th.counted && th.handlers == 0 && t != s.forker
       case SpinLoad => th.depth == 1 && !th.counted && th.handlers == 0 && t != s.forker
       case BackOut => th.depth == 1 && th.counted && th.handlers == 0 && t != s.forker
       case Sub => th.depth == 0 && th.counted && th.handlers == 0 && t != s.forker
       case ForkLoad => th.depth == 0 && !th.counted && t != s.forker && th.handlers == 1
       case ForkCas(seen) => th.depth == 0 && !th.counted && t != s.forker && th.handlers == 1 && seen % 2 == 0
       case ForkWait => th.depth == 0 && !th.counted && t == s.forker && th.handlers == 1
       case ClearBit => th.depth == 0 && !th.counted && t == s.forker && th.handlers == 0
       case Failed => th.depth > 0 && th.counted && t != s.forker
  }

  ghost predicate CountInv(s: State) {
    && s.counter == 2 * (|Counted(s)| + s.vanished) + (if s.forker == 0 then 0 else 1)
    && 0 !in s.threads
    && (s.forker != 0 ==> s.forker in s.threads)
    && (s.inChild ==> Held(s, s.forker) && s.threads.Keys == {s.forker})
    && (!s.inChild ==> s.vanished == 0)
  }

  /** While a fork is being held off-limits, nobody else is in a region. */
  ghost predicate GateInv(s: State) {
    Held(s, s.forker) ==> forall t :: t in s.threads && t != s.forker ==> !InRegion(s, t)
  }

  ghost predicate Inv(s: State) {
    CountInv(s) && GateInv(s) && forall t :: t in s.threads ==> ThreadInv(s, t)
  }

  // ----- every action keeps it

  /** How the set of counted threads, hence its size, follows one thread's flag. */
  lemma CountedAfterSet(s: State, t: nat, th: Thread)
    ensures var before, after := Counted(s), Counted(Set(s, t, th));
      && after == (if th.counted then before + {t} else before - {t})
      && |after| == |before - {t}| + (if th.counted then 1 else 0)
      && |before| == |before - {t}| + (if t in before then 1 else 0)
  {
    var before := Counted(s);
    if t in before { assert before == (before - {t}) + {t}; } else { assert before - {t} == before; }
  }

  ghost predicate Local(s: State, t: nat, a: Action) {
    Enabled(s, t, a) && CountInv(s) && (t in s.threads ==> ThreadInv(s, t)) && t > 0
  }

  lemma ForkKeepsCount(s: State, t: nat, a: Action)
    requires Local(s, t, a) && (s.inChild ==> t == s.forker) && (a.Fork? || a.PostforkChild?)
    ensures CountInv(Apply(s, t, a))
  {
    var s' := Apply(s, t, a);
    assert s'.threads.Keys == {t};
    assert Counted(s') == {};
    if a.Fork? { assert Counted(s) - {t} == Counted(s); } else { assert Counted(s) == {}; }
  }

  lemma SetKeepsCount(s: State, t: nat, a: Action)
    requires Local(s, t, a) && (s.inChild ==> t == s.forker) && !a.Fork? && !a.PostforkChild? && !a.Step?
    ensures CountInv(Apply(s, t, a))
  {
    var s' := Apply(s, t, a);
    assert s'.threads == s.threads[t := s'.threads[t]] && s'.threads[t].counted == (t in s.threads && s.threads[t].counted);
    assert Counted(s') == Counted(s);
    hide Counted, ThreadInv;
  }

  function Bit(s: State): int { if s.forker == 0 then 0 else 1 }

  function Weight(th: Thread): int { if th.counted then 1 else 0 }

  /** The counter moves with the thread's own count and with the fork bit. */
  lemma StepMovesCounter(s: State, t: nat, spurious: bool)
    requires Local(s, t, Step(spurious))
    ensures var s' := Stepped(s, t, spurious);
      && t in s'.threads && s'.threads == s.threads[t := s'.threads[t]]
      && s'.counter - s.counter == 2 * (Weight(s'.threads[t]) - Weight(s.threads[t])) + Bit(s') - Bit(s)
      && s'.vanished == s.vanished && s'.inChild == s.inChild
      && (s'.forker == s.forker || s'.forker == 0 || s'.forker == t)
      && (s.inChild ==> t != s.forker)
  {
    hide Counted;
  }

  lemma StepKeepsCount(s: State, t: nat, spurious: bool)
    requires Local(s, t, Step(spurious)) && (s.inChild ==> t == s.forker)
    ensures CountInv(Stepped(s, t, spurious))
  {
    StepMovesCounter(s, t, spurious);
    hide Stepped, ThreadInv;
    var s' := Stepped(s, t, spurious);
    CountedAfterSet(s, t, s'.threads[t]);
    assert Counted(s') == Counted(Set(s, t, s'.threads[t]));
  }

  lemma KeepsCount(s: State, t: nat, a: Action)
    requires Local(s, t, a) && (s.inChild ==> t == s.forker)
    ensures CountInv(Apply(s, t, a))
  {
    if a.Fork? || a.PostforkChild? { ForkKeepsCount(s, t, a); }
    else if a.Step? { StepKeepsCount(s, t, a.spurious); }
    else { SetKeepsCount(s, t, a); }
  }

  lemma StepKeepsSelf(s: State, t: nat, spurious: bool)
    requires Local(s, t, Step(spurious))
    ensures t in Stepped(s, t, spurious).threads && ThreadInv(Stepped(s, t, spurious), t)
  {
    OddWhileBit(s);
    hide CountInv, Counted;
  }

  lemma KeepsSelf(s: State, t: nat, a: Action)
    requires Local(s, t, a)
    ensures t in Apply(s, t, a).threads && ThreadInv(Apply(s, t, a), t)
  {
    if a.Step? {
      StepKeepsSelf(s, t, a.spurious);
    } else {
      hide Counted, Stepped, CountInv;
    }
  }

  lemma KeepsOther(s: State, t: nat, a: Action, u: nat)
    requires Local(s, t, a) && u in s.threads && u != t && ThreadInv(s, u) && u in Apply(s, t, a).threads
    ensures ThreadInv(Apply(s, t, a), u)
  {
    OddWhileBit(s);
    hide Counted, CountInv;
  }

  /** With the counter at 1, no other thread is counted. */
  lemma OnlyBitLeft(s: State, u: nat)
    requires CountInv(s) && s.counter == 1 && s.forker != 0 && u in s.threads
    ensures !s.threads[u].counted
  {
    assert |Counted(s)| == 0;
    assert u !in Counted(s);
  }

  lemma OddWhileBit(s: State)
    requires CountInv(s)
    ensures s.counter % 2 == Bit(s)
  {
    hide Counted;
  }

  /** A held gate stays closed to every thread but the forker. */
  lemma KeepsGate(s: State, t: nat, a: Action, u: nat)
    requires Local(s, t, a) && Held(s, s.forker) && s.forker != 0
    requires t != s.forker ==> !InRegion(s, t)
    requires u in s.threads && u != s.forker ==> !InRegion(s, u)
    requires u in Apply(s, t, a).threads && u != Apply(s, t, a).forker
    requires Held(Apply(s, t, a), Apply(s, t, a).forker)
    ensures !InRegion(Apply(s, t, a), u)
  {
    OddWhileBit(s);
    hide CountInv, Counted;
    if a.Step? { assert Stepped(s, t, a.spurious).forker == s.forker; }
  }

  /** Only the last step of `prefork` closes the gate. */
  lemma WhoCloses(s: State, t: nat, a: Action)
    requires Local(s, t, a) && !Held(s, s.forker) && Held(Apply(s, t, a), Apply(s, t, a).forker)
    requires s.forker in s.threads ==> ThreadInv(s, s.forker)
    ensures a.Step? && s.threads[t].pc.ForkWait? && s.counter == 1 && t == s.forker
  {
    assert 0 !in s.threads;
    hide CountInv, Counted;
  }

  /** It closes only when the counter shows that nobody is inside. */
  lemma ClosesGate(s: State, t: nat, u: nat)
    requires CountInv(s) && t in s.threads && s.threads[t].pc.ForkWait? && s.counter == 1 && t == s.forker
    requires u in s.threads && ThreadInv(s, u) && u != t
    ensures !InRegion(Stepped(s, t, false), u) && !InRegion(Stepped(s, t, true), u)
  {
    OnlyBitLeft(s, u);
    hide CountInv, Counted;
  }

  lemma ApplyKeeps(s: State, t: nat, a: Action)
    requires Inv(s) && Enabled(s, t, a)
    ensures Inv(Apply(s, t, a))
  {
    assert Local(s, t, a) && (s.inChild ==> t == s.forker) && (Held(s, s.forker) ==> s.forker != 0);
    assert Held(s, s.forker) && t != s.forker ==> !InRegion(s, t) by { if t !in s.threads { assert !InRegion(s, t); } }
    hide CountInv, ThreadInv, InRegion, Held, Apply, Enabled;
    var s' := Apply(s, t, a);
    KeepsCount(s, t, a);
    KeepsSelf(s, t, a);
    forall u | u in s'.threads ensures ThreadInv(s', u) {
      if u != t { ThreadsKept(s, t, a, u); KeepsOther(s, t, a, u); }
    }
    if Held(s', s'.forker) {
      forall u | u in s'.threads && u != s'.forker ensures !InRegion(s', u) {
        if Held(s, s.forker) { KeepsGate(s, t, a, u); } else { WhoCloses(s, t, a); ThreadsKept(s, t, a, u); ClosesGate(s, t, u); IsStepped(s, t, a); }
      }
    }
  }

  lemma IsStepped(s: State, t: nat, a: Action)
    requires Enabled(s, t, a) && a.Step?
    ensures Apply(s, t, a) == Stepped(s, t, a.spurious)
  {}

  lemma ThreadsKept(s: State, t: nat, a: Action, u: nat)
    requires Enabled(s, t, a) && u in Apply(s, t, a).threads && u != t
    ensures u in s.threads
  {}

  // ----- runs

  ghost predicate IsRun(run: seq<State>) {
    && |run| > 0 && run[0] == Init
    && forall i :: 0 <= i < |run| - 1 ==> Next(run[i], run[i + 1])
  }

  lemma NextKeepsInv(s: State, s': State)
    requires Inv(s) && Next(s, s')
    ensures Inv(s')
  {
    var t, a :| Enabled(s, t, a) && s' == Apply(s, t, a);
    ApplyKeeps(s, t, a);
  }

  lemma {:induction false} RunKeepsInv(run: seq<State>, i: nat)
    requires IsRun(run) && i < |run|
    ensures Inv(run[i])
  {
    hide Inv, Next;
    if i == 0 {
      InitInv();
    } else {
      RunKeepsInv(run, i - 1);
      NextKeepsInv(run[i - 1], run[i]);
    }
  }

  lemma InitInv()
    ensures Inv(Init)
  {
    assert Counted(Init) == {};
  }

  /** Once `prefork` has returned, and until the last postfork handler, no other
      thread is inside a PreventFork region. */
  lemma NobodyInsideDuringFork(run: seq<State>, i: nat, t: nat, u: nat)
    requires IsRun(run) && i < |run| && Held(run[i], t) && u != t
    ensures !InRegion(run[i], u)
  {
    RunKeepsInv(run, i);
  }

  /** At most one thread holds the gate. */
  lemma OneForker(run: seq<State>, i: nat, t: nat, u: nat)
    requires IsRun(run) && i < |run| && t in run[i].threads && u in run[i].threads
    requires run[i].threads[t].handlers > 0 && run[i].threads[t].pc.Run?
    requires run[i].threads[u].handlers > 0 && run[i].threads[u].pc.Run?
    ensures t == u && Held(run[i], t)
  {
    RunKeepsInv(run, i);
    assert ThreadInv(run[i], t) && ThreadInv(run[i], u);
  }

  /** Outside a fresh child, the counter is twice the counted threads plus the
      fork bit, and a thread in a region is counted unless it is the forker. */
  lemma CounterMeaning(run: seq<State>, i: nat)
    requires IsRun(run) && i < |run|
    ensures run[i].counter >= 0
    ensures !run[i].inChild ==> run[i].counter == 2 * |Counted(run[i])| + (if run[i].forker == 0 then 0 else 1)
    ensures forall t :: InRegion(run[i], t) && t != run[i].forker ==> t in Counted(run[i])
  {
    RunKeepsInv(run, i);
    forall t | InRegion(run[i], t) && t != run[i].forker ensures t in Counted(run[i]) {
      assert ThreadInv(run[i], t);
    }
  }

  /** No subtraction takes the counter below zero. */
  lemma NoUnderflow(run: seq<State>, i: nat, t: nat)
    requires IsRun(run) && i < |run| && t in run[i].threads
    ensures run[i].threads[t].pc.BackOut? || run[i].threads[t].pc.Sub? ==> run[i].counter >= 2
    ensures run[i].threads[t].pc.ClearBit? ==> run[i].counter >= 1
  {
    RunKeepsInv(run, i);
    assert ThreadInv(run[i], t);
    if t in Counted(run[i]) {
      assert Counted(run[i]) == (Counted(run[i]) - {t}) + {t};
    }
  }
}
