/** `MPMCStack` over the double-word `ABA` pair: a lock-free stack whose top
    pointer is changed together with a counter by one compare-exchange.

    Any number of operations run at once, one atomic access per step,
    sequentially consistent; the pair is read by two separate loads, and `pop`
    reads the `next` of a node that may no longer be in the stack.  Nodes are
    addresses, 0 is null.  The counter counts all successes; the word compared is
    its remainder modulo 2^64. */
module AbaStack {
  import opened Bits
  import opened Lists

  datatype Kind = Push(items: seq<nat>) | Pop | PopAll

  datatype Pc =
    | ReadPtr
    | ReadAba             // second load of the pair
    | StoreNext           // push: last->next = top
    | RaceRead            // pop: top->next
    | Cas(value: nat)     // store_conditional
    | Returned(result: nat)

  /** An operation, with the pair it last read (`Cmp::old`). */
  datatype Op = Op(kind: Kind, pc: Pc, oldPtr: nat, oldAba: nat)

  /** The moment an operation takes effect, with what it pushed or returned. */
  datatype Event =
    | Pushed(op: nat, items: seq<nat>)
    | Popped(op: nat, item: nat)
    | PoppedAll(op: nat, items: seq<nat>)
    | FoundEmpty(op: nat)

  /** Where a node is: outside, in a push that has not taken effect, or in the
      stack, counted from the bottom. */
  datatype Place = Outside | Pushing(op: nat) | Stacked(height: nat)

  /** `stack`, `place` and `log` are history that no step reads. */
  datatype State = State(
    ptr: nat,
    aba: nat,
    next: map<nat, nat>,
    ops: map<nat, Op>,
    stack: seq<nat>,
    place: map<nat, Place>,
    log: seq<Event>)

  ghost predicate IsInit(s: State) {
    && s.ptr == 0 && s.aba == 0 && s.ops == map[] && s.stack == [] && s.log == []
    && 0 !in s.place && s.place.Keys == s.next.Keys
    && forall x :: x in s.place ==> s.place[x] == Outside
  }

  // ----- what a sequential stack does

  datatype Replayed = Illegal | Contents(stack: seq<nat>)

  function Effect(st: seq<nat>, e: Event): Replayed {
    match e
    case Pushed(_, items) => Contents(items + st)
    case Popped(_, x) => if st != [] && st[0] == x then Contents(st[1..]) else Illegal
    case PoppedAll(_, xs) => if st == xs && xs != [] then Contents([]) else Illegal
    case FoundEmpty(_) => if st == [] then Contents([]) else Illegal
  }

  /** Run the events one after another on an empty stack. */
  function Replay(log: seq<Event>): Replayed {
    if log == [] then Contents([])
    else
      var before := Replay(log[..|log| - 1]);
      if before.Illegal? then Illegal else Effect(before.stack, log[|log| - 1])
  }

  /** The items a log puts on the stack, and those it takes off. */
  function PutOn(log: seq<Event>): multiset<nat> {
    if log == [] then multiset{}
    else
      var rest, e := PutOn(log[..|log| - 1]), log[|log| - 1];
      if e.Pushed? then rest + multiset(e.items) else rest
  }

  function TakenOff(log: seq<Event>): multiset<nat> {
    if log == [] then multiset{}
    else
      var rest, e := TakenOff(log[..|log| - 1]), log[|log| - 1];
      match e
      case Popped(_, x) => rest + multiset{x}
      case PoppedAll(_, xs) => rest + multiset(xs)
      case _ => rest
  }

  /** A sequential history neither loses nor invents an item. */
  lemma {:induction false} ItemsConserved(log: seq<Event>)
    requires Replay(log).Contents?
    ensures PutOn(log) == TakenOff(log) + multiset(Replay(log).stack)
  {
    if log != [] {
      var rest, e := log[..|log| - 1], log[|log| - 1];
      ItemsConserved(rest);
      EffectConserves(Replay(rest).stack, e);
      assert Replay(log) == Effect(Replay(rest).stack, e);
      hide Replay, Effect;
    }
  }

  lemma EffectConserves(st: seq<nat>, e: Event)
    requires Effect(st, e).Contents?
    ensures var st' := Effect(st, e).stack;
      match e
      case Pushed(_, items) => multiset(st') == multiset(items) + multiset(st)
      case Popped(_, x) => multiset(st) == multiset{x} + multiset(st')
      case PoppedAll(_, xs) => multiset(st) == multiset(xs) && st' == []
      case FoundEmpty(_) => st' == st
  {
    if e.Popped? { assert st == [st[0]] + st[1..]; }
  }

  /** The events of one operation. */
  function EventsOf(log: seq<Event>, op: nat): seq<Event> {
    if log == [] then []
    else
      var rest := EventsOf(log[..|log| - 1], op);
      if log[|log| - 1].op == op then rest + [log[|log| - 1]] else rest
  }

  // ----- steps

  datatype Action =
    | Start(op: nat, kind: Kind, stale: nat)
    | Step(op: nat, spurious: bool)
    | Scribble(node: nat, value: nat)   // an owner of a node outside writes its next

  ghost predicate Enabled(s: State, a: Action) {
    match a
    case Start(o, kind, _) =>
      && o !in s.ops
      && (kind.Push? ==>
            && |kind.items| > 0 && Distinct(kind.items)
            && forall x :: x in kind.items ==> x in s.place && s.place[x] == Outside)
    case Step(o, _) => o in s.ops
    case Scribble(x, _) => x in s.place && s.place[x] == Outside
  }

  function SetOp(s: State, o: nat, op: Op): State {
    s.(ops := s.ops[o := op])
  }

  /** The top of the retry loop, once the pair (p, a) is known.  An operation
      that finds null takes effect when it read the pointer. */
  function LoopTop(op: Op, p: nat, a: nat): Op {
    var pc :=
      match op.kind
      case Push(_) => StoreNext
      case Pop => if p == 0 then Returned(0) else RaceRead
      case PopAll => if p == 0 then Returned(0) else Cas(0);
    op.(pc := pc, oldPtr := p, oldAba := a)
  }

  predicate SawNull(op: Op, p: nat) {
    p == 0 && !op.kind.Push?
  }

  function Logged(s: State, o: nat, op: Op, p: nat): State {
    if SawNull(op, p) then s.(log := s.log + [FoundEmpty(o)]) else s
  }

  function Succeeded(s: State, o: nat, op: Op, value: nat): State {
    var s1 := SetOp(s, o, op.(pc := Returned(op.oldPtr))).(ptr := value, aba := s.aba + 1);
    match op.kind
    case Push(items) =>
      s1.(stack := items + s.stack,
          place := map x | x in s.place ::
            if x in items then Stacked(|s.stack| + |items| - 1 - IndexOf(items, x)) else s.place[x],
          log := s.log + [Pushed(o, items)])
    case Pop =>
      s1.(stack := if s.stack == [] then [] else s.stack[1..],
          place := if op.oldPtr in s.place then s.place[op.oldPtr := Outside] else s.place,
          log := s.log + [Popped(o, op.oldPtr)])
    case PopAll =>
      s1.(stack := [],
          place := map x | x in s.place :: if s.place[x].Stacked? then Outside else s.place[x],
          log := s.log + [PoppedAll(o, s.stack)])
  }

  /** What the compare-exchange compares. */
  predicate WordsMatch(s: State, op: Op) {
    s.ptr == op.oldPtr && s.aba % WORD == op.oldAba % WORD
  }

  function Stepped(s: State, o: nat, spurious: bool): State
    requires o in s.ops
  {
    var op := s.ops[o];
    match op.pc
    case ReadPtr => Logged(SetOp(s, o, op.(pc := ReadAba, oldPtr := s.ptr)), o, op, s.ptr)
    case ReadAba => SetOp(s, o, LoopTop(op, op.oldPtr, s.aba))
    case StoreNext =>
      if op.kind.Push? && |op.kind.items| > 0 then
        var last := op.kind.items[|op.kind.items| - 1];
        SetOp(s.(next := s.next[last := op.oldPtr]), o, op.(pc := Cas(op.kind.items[0])))
      else s
    case RaceRead => if op.oldPtr in s.next then SetOp(s, o, op.(pc := Cas(s.next[op.oldPtr]))) else s
    case Cas(value) =>
      if WordsMatch(s, op) && !spurious then Succeeded(s, o, op, value)
      else Logged(SetOp(s, o, LoopTop(op, s.ptr, s.aba)), o, op, s.ptr)
    case Returned(_) => s
  }

  function Apply(s: State, a: Action): State
    requires a.Step? ==> a.op in s.ops
  {
    match a
    case Start(o, kind, stale) =>
      var s1 := SetOp(s, o, Op(kind, ReadPtr, 0, 0));
      if kind.Push? then
        s1.(next := Chain(s.next, kind.items, stale),
            place := map x | x in s.place :: if x in kind.items then Pushing(o) else s.place[x])
      else s1
    case Step(o, spurious) => Stepped(s, o, spurious)
    case Scribble(x, v) => s.(next := s.next[x := v])
  }

  // ----- invariant

  ghost predicate SlotInv(s: State, i: nat)
    requires i < |s.stack|
  {
    var x := s.stack[i];
    && x in s.place && s.place[x] == Stacked(|s.stack| - 1 - i) && x in s.next && x != 0
    && s.next[x] == if i + 1 < |s.stack| then s.stack[i + 1] else 0
  }

  ghost predicate TopInv(s: State) {
    && 0 !in s.place && s.place.Keys == s.next.Keys
    && (forall x :: x in s.place && s.place[x].Stacked? ==>
          s.place[x].height < |s.stack| && s.stack[|s.stack| - 1 - s.place[x].height] == x)
    && s.ptr == (if s.stack == [] then 0 else s.stack[0])
  }

  /** The pair an operation holds is the current one. */
  predicate Current(s: State, op: Op) {
    op.oldAba == s.aba && op.oldPtr == s.ptr
  }

  ghost predicate OpInv(s: State, o: nat)
    requires o in s.ops
  {
    var op := s.ops[o];
    && (!op.pc.ReadPtr? && !op.pc.ReadAba? ==> op.oldAba <= s.aba)
    && (op.kind.Push? ==>
          && |op.kind.items| > 0 && Distinct(op.kind.items)
          && !op.pc.RaceRead?
          && (!op.pc.Returned? ==>
                && (forall j :: 0 <= j < |op.kind.items| ==>
                      && op.kind.items[j] in s.place && op.kind.items[j] in s.next
                      && s.place[op.kind.items[j]] == Pushing(o))
                && (forall j :: 0 <= j < |op.kind.items| - 1 ==> s.next[op.kind.items[j]] == op.kind.items[j + 1])
                && (op.pc.Cas? ==>
                      op.pc.value == op.kind.items[0] && s.next[op.kind.items[|op.kind.items| - 1]] == op.oldPtr)))
    && (op.kind.Pop? ==>
          && !op.pc.StoreNext?
          && (op.pc.RaceRead? || op.pc.Cas? ==> op.oldPtr != 0)
          && (op.pc.Cas? && Current(s, op) ==> s.stack != [] && s.stack[0] in s.next && op.pc.value == s.next[s.stack[0]]))
    && (op.kind.PopAll? ==>
          && !op.pc.StoreNext? && !op.pc.RaceRead?
          && (op.pc.Cas? ==> op.oldPtr != 0 && op.pc.value == 0))
  }

  /** An operation has one event once it has taken effect, and returns what the
      event says; before that it has none. */
  ghost predicate EventInv(s: State, o: nat)
    requires o in s.ops
  {
    var op, es := s.ops[o], EventsOf(s.log, o);
    match op.pc
    case Returned(result) =>
      && |es| == 1
      && (match op.kind
          case Push(items) => es[0] == Pushed(o, items)
          case Pop => es[0] == (if result == 0 then FoundEmpty(o) else Popped(o, result))
          case PopAll =>
            if result == 0 then es[0] == FoundEmpty(o)
            else es[0].PoppedAll? && es[0].op == o && es[0].items != [] && es[0].items[0] == result)
    case ReadAba => es == if SawNull(op, op.oldPtr) then [FoundEmpty(o)] else []
    case _ => es == []
  }

  ghost predicate Inv(s: State) {
    && TopInv(s)
    && Replay(s.log) == Contents(s.stack)
    && (forall i :: 0 <= i < |s.stack| ==> SlotInv(s, i))
    && (forall o :: o in s.ops ==> OpInv(s, o) && EventInv(s, o))
    && (forall o :: o !in s.ops ==> EventsOf(s.log, o) == [])
  }

  // ----- every action keeps it

  lemma LogAppend(log: seq<Event>, e: Event, o: nat)
    ensures EventsOf(log + [e], o) == EventsOf(log, o) + if e.op == o then [e] else []
    ensures Replay(log).Contents? ==> Replay(log + [e]) == Effect(Replay(log).stack, e)
  {
    assert (log + [e])[..|log|] == log;
  }

  lemma StartKeepsOp(s: State, o: nat, kind: Kind, stale: nat, u: nat)
    requires TopInv(s) && Enabled(s, Start(o, kind, stale)) && u in Apply(s, Start(o, kind, stale)).ops
    requires u != o ==> OpInv(s, u)
    requires s.stack != [] ==> SlotInv(s, 0)
    ensures OpInv(Apply(s, Start(o, kind, stale)), u)
  {
    if u != o { StartKeepsOther(s, o, kind, stale, u); } else { StartMakesOp(s, o, kind, stale); }
  }

  lemma StartKeepsOther(s: State, o: nat, kind: Kind, stale: nat, u: nat)
    requires TopInv(s) && Enabled(s, Start(o, kind, stale)) && u in s.ops && u != o && OpInv(s, u)
    requires s.stack != [] ==> SlotInv(s, 0)
    ensures OpInv(Apply(s, Start(o, kind, stale)), u)
  {
    var s' := Apply(s, Start(o, kind, stale));
    assert s'.ops[u] == s.ops[u] && s'.stack == s.stack && s'.aba == s.aba;
    assert s.place.Keys <= s'.place.Keys && s.next.Keys <= s'.next.Keys;
    assert forall x :: x in s.place && s.place[x] != Outside ==> s'.place[x] == s.place[x] && s'.next[x] == s.next[x];
    hide Apply, Enabled, IndexOf, Distinct;
  }

  lemma StartMakesOp(s: State, o: nat, kind: Kind, stale: nat)
    requires TopInv(s) && Enabled(s, Start(o, kind, stale))
    ensures OpInv(Apply(s, Start(o, kind, stale)), o)
  {
    if kind.Push? {
      forall j | 0 <= j < |kind.items| ensures IndexOf(kind.items, kind.items[j]) == j {}
    }
  }

  lemma StartKeeps(s: State, o: nat, kind: Kind, stale: nat)
    requires Inv(s) && Enabled(s, Start(o, kind, stale))
    ensures Inv(Apply(s, Start(o, kind, stale)))
  {
    hide OpInv;
    var s' := Apply(s, Start(o, kind, stale));
    forall i | 0 <= i < |s'.stack| ensures SlotInv(s', i) { assert SlotInv(s, i); }
    forall u | u in s'.ops ensures OpInv(s', u) && EventInv(s', u) {
      StartKeepsOp(s, o, kind, stale, u);
      if u != o { assert EventInv(s, u); }
    }
  }

  lemma ScribbleKeeps(s: State, x: nat, v: nat)
    requires Inv(s) && Enabled(s, Scribble(x, v))
    ensures Inv(Apply(s, Scribble(x, v)))
  {
    var s' := Apply(s, Scribble(x, v));
    forall i | 0 <= i < |s'.stack| ensures SlotInv(s', i) { assert SlotInv(s, i); }
    forall u | u in s'.ops ensures OpInv(s', u) && EventInv(s', u) {
      assert OpInv(s, u) && EventInv(s, u);
      if s.stack != [] { assert SlotInv(s, 0); }
    }
  }

  predicate Succeeds(s: State, o: nat, spurious: bool) {
    o in s.ops && s.ops[o].pc.Cas? && WordsMatch(s, s.ops[o]) && !spurious
  }

  /** What a step of `o` may rely on. */
  ghost predicate Ready(s: State, o: nat) {
    && TopInv(s) && o in s.ops && OpInv(s, o)
    && (s.stack != [] ==> SlotInv(s, 0))
  }

  lemma QuietKeepsSlot(s: State, o: nat, spurious: bool, i: nat)
    requires Ready(s, o) && !Succeeds(s, o, spurious) && i < |s.stack| && SlotInv(s, i)
    ensures Stepped(s, o, spurious).stack == s.stack && SlotInv(Stepped(s, o, spurious), i)
  {}

  lemma QuietKeepsOther(s: State, o: nat, spurious: bool, u: nat)
    requires Ready(s, o) && !Succeeds(s, o, spurious) && u in s.ops && OpInv(s, u) && u != o
    ensures u in Stepped(s, o, spurious).ops && OpInv(Stepped(s, o, spurious), u)
  {
    assert Stepped(s, o, spurious).ops[u] == s.ops[u];
    assert !s.ops[o].pc.StoreNext? ==> Stepped(s, o, spurious).next == s.next;
  }

  lemma QuietKeepsPusher(s: State, o: nat, spurious: bool)
    requires Ready(s, o) && !Succeeds(s, o, spurious) && s.ops[o].kind.Push?
    ensures o in Stepped(s, o, spurious).ops && OpInv(Stepped(s, o, spurious), o)
  {
    hide SlotInv;
    var s' := Stepped(s, o, spurious);
    assert s'.place == s.place && s'.ops[o].kind == s.ops[o].kind;
    assert !s.ops[o].pc.StoreNext? ==> s'.next == s.next;
  }

  lemma QuietKeepsPopper(s: State, o: nat, spurious: bool)
    requires Ready(s, o) && !Succeeds(s, o, spurious) && !s.ops[o].kind.Push?
    ensures o in Stepped(s, o, spurious).ops && OpInv(Stepped(s, o, spurious), o)
  {}

  lemma QuietKeepsOp(s: State, o: nat, spurious: bool, u: nat)
    requires Ready(s, o) && !Succeeds(s, o, spurious) && u in s.ops && OpInv(s, u)
    ensures u in Stepped(s, o, spurious).ops && OpInv(Stepped(s, o, spurious), u)
  {
    if u == o {
      if s.ops[o].kind.Push? { QuietKeepsPusher(s, o, spurious); } else { QuietKeepsPopper(s, o, spurious); }
    } else { QuietKeepsOther(s, o, spurious, u); }
  }

  lemma QuietKeepsTop(s: State, o: nat, spurious: bool)
    requires Ready(s, o) && !Succeeds(s, o, spurious)
    ensures var s' := Stepped(s, o, spurious);
      TopInv(s') && s'.stack == s.stack && s'.ops.Keys == s.ops.Keys
  {}

  lemma QuietLog(s: State, o: nat, spurious: bool)
    requires Ready(s, o) && !Succeeds(s, o, spurious)
    ensures var s', op := Stepped(s, o, spurious), s.ops[o];
      if (op.pc.ReadPtr? || op.pc.Cas?) && SawNull(op, s.ptr) then s'.log == s.log + [FoundEmpty(o)] && s.stack == []
      else s'.log == s.log
  {}

  lemma QuietKeepsEvents(s: State, o: nat, spurious: bool, u: nat)
    requires Ready(s, o) && !Succeeds(s, o, spurious) && u in s.ops && EventInv(s, u)
    ensures u in Stepped(s, o, spurious).ops && EventInv(Stepped(s, o, spurious), u)
  {
    if u == o { QuietKeepsOwnEvents(s, o, spurious); } else { QuietKeepsOtherEvents(s, o, spurious, u); }
  }

  lemma QuietKeepsOtherEvents(s: State, o: nat, spurious: bool, u: nat)
    requires Ready(s, o) && !Succeeds(s, o, spurious) && u in s.ops && EventInv(s, u) && u != o
    ensures u in Stepped(s, o, spurious).ops && EventInv(Stepped(s, o, spurious), u)
  {
    assert u in Stepped(s, o, spurious).ops && Stepped(s, o, spurious).ops[u] == s.ops[u];
    hide EventsOf, Stepped, Ready, Replay;
    LogAppend(s.log, FoundEmpty(o), u);
    QuietLog(s, o, spurious);
    assert EventsOf(Stepped(s, o, spurious).log, u) == EventsOf(s.log, u);
  }

  lemma QuietKeepsOwnEvents(s: State, o: nat, spurious: bool)
    requires Ready(s, o) && !Succeeds(s, o, spurious) && EventInv(s, o)
    ensures o in Stepped(s, o, spurious).ops && EventInv(Stepped(s, o, spurious), o)
  {
    hide EventsOf, TopInv, SlotInv, Replay;
    LogAppend(s.log, FoundEmpty(o), o);
    QuietLog(s, o, spurious);
  }

  lemma QuietKeeps(s: State, o: nat, spurious: bool)
    requires Inv(s) && Ready(s, o) && !Succeeds(s, o, spurious)
    ensures Inv(Stepped(s, o, spurious))
  {
    hide OpInv, EventInv, SlotInv, Stepped, TopInv, EventsOf, Replay, Ready;
    ReadyOp(s, o);
    var s' := Stepped(s, o, spurious);
    QuietKeepsTop(s, o, spurious);
    QuietLog(s, o, spurious);
    LogAppend(s.log, FoundEmpty(o), o);
    forall i | 0 <= i < |s'.stack| ensures SlotInv(s', i) { QuietKeepsSlot(s, o, spurious, i); }
    forall u | u in s'.ops ensures OpInv(s', u) && EventInv(s', u) {
      QuietKeepsOp(s, o, spurious, u);
      QuietKeepsEvents(s, o, spurious, u);
    }
    forall u | u !in s'.ops ensures EventsOf(s'.log, u) == [] { LogAppend(s.log, FoundEmpty(o), u); }
  }

  lemma ReadyOp(s: State, o: nat)
    requires Ready(s, o)
    ensures o in s.ops
  {}

  // ----- a successful compare-exchange

  /** The `next` that a pop holds is the one of the top item. */
  predicate HoldsNext(s: State, o: nat) {
    o in s.ops && s.ops[o].pc.Cas? && s.stack != [] && s.stack[0] in s.next && s.ops[o].pc.value == s.next[s.stack[0]]
  }

  /** What a success of `o` needs: the pointer, and for a pop the right `next`. */
  ghost predicate AboutTo(s: State, o: nat) {
    && Ready(s, o) && s.ops[o].pc.Cas? && s.ops[o].oldPtr == s.ptr
    && (s.ops[o].kind.Pop? ==> HoldsNext(s, o))
  }

  function After(s: State, o: nat): State
    requires o in s.ops && s.ops[o].pc.Cas?
  {
    Succeeded(s, o, s.ops[o], s.ops[o].pc.value)
  }

  /** Every other operation's pair is out of date after a success. */
  lemma SuccessKeepsOther(s: State, o: nat, u: nat)
    requires AboutTo(s, o) && u in s.ops && u != o && OpInv(s, u)
    ensures u in After(s, o).ops && OpInv(After(s, o), u)
  {
    var s' := After(s, o);
    assert s'.ops[u] == s.ops[u] && s'.next == s.next && s'.aba == s.aba + 1;
    if s.ops[u].kind.Push? && !s.ops[u].pc.Returned? {
      var items := s.ops[u].kind.items;
      forall j | 0 <= j < |items| ensures items[j] in s'.place && s'.place[items[j]] == Pushing(u) {}
    }
  }

  lemma SuccessKeepsSelf(s: State, o: nat)
    requires AboutTo(s, o)
    ensures o in After(s, o).ops && OpInv(After(s, o), o)
  {}

  lemma PushMakesSlot(s: State, o: nat, i: nat)
    requires AboutTo(s, o) && s.ops[o].kind.Push? && i < |After(s, o).stack|
    requires i >= |s.ops[o].kind.items| ==> SlotInv(s, i - |s.ops[o].kind.items|)
    ensures SlotInv(After(s, o), i)
  {
    var s', items := After(s, o), s.ops[o].kind.items;
    if i < |items| {
      assert s'.stack[i] == items[i];
      assert IndexOf(items, items[i]) == i;
      assert s.next[items[i]] == if i + 1 < |items| then items[i + 1] else s.ptr;
    } else {
      assert s'.stack[i] == s.stack[i - |items|];
      assert s'.stack[i] !in items;
    }
  }

  lemma PushKeepsTop(s: State, o: nat)
    requires AboutTo(s, o) && s.ops[o].kind.Push?
    ensures TopInv(After(s, o))
  {
    var s', items := After(s, o), s.ops[o].kind.items;
    forall x | x in s'.place && s'.place[x].Stacked?
      ensures s'.place[x].height < |s'.stack| && s'.stack[|s'.stack| - 1 - s'.place[x].height] == x
    {
      if x in items {
        assert s'.place[x] == Stacked(|s.stack| + |items| - 1 - IndexOf(items, x));
      } else {
        assert s'.stack[|items| + (|s.stack| - 1 - s.place[x].height)] == s.stack[|s.stack| - 1 - s.place[x].height];
      }
    }
  }

  lemma PopKeepsTop(s: State, o: nat)
    requires AboutTo(s, o) && s.ops[o].kind.Pop?
    ensures TopInv(After(s, o)) && s.stack != [] && s.stack[0] == s.ops[o].oldPtr
  {
    var s' := After(s, o);
    assert s'.stack == s.stack[1..];
    forall x | x in s'.place && s'.place[x].Stacked?
      ensures s'.place[x].height < |s'.stack| && s'.stack[|s'.stack| - 1 - s'.place[x].height] == x
    {
      assert s.place[x].Stacked? && x != s.stack[0];
    }
  }

  lemma PopKeepsSlot(s: State, o: nat, i: nat)
    requires AboutTo(s, o) && s.ops[o].kind.Pop? && i + 1 < |s.stack| && SlotInv(s, i + 1)
    ensures |After(s, o).stack| == |s.stack| - 1 && SlotInv(After(s, o), i)
  {}

  lemma PopAllKeepsTop(s: State, o: nat)
    requires AboutTo(s, o) && s.ops[o].kind.PopAll?
    ensures TopInv(After(s, o)) && s.stack != [] && s.stack[0] == s.ops[o].oldPtr && After(s, o).stack == []
  {}

  function SuccessEvent(s: State, o: nat): Event
    requires o in s.ops
  {
    match s.ops[o].kind
    case Push(items) => Pushed(o, items)
    case Pop => Popped(o, s.ops[o].oldPtr)
    case PopAll => PoppedAll(o, s.stack)
  }

  lemma SuccessShape(s: State, o: nat)
    requires AboutTo(s, o)
    ensures var s', e := After(s, o), SuccessEvent(s, o);
      && e.op == o
      && s'.log == s.log + [e] && s'.ops == s.ops[o := s.ops[o].(pc := Returned(s.ops[o].oldPtr))]
      && Effect(s.stack, e) == Contents(s'.stack)
      && (s.ops[o].kind.Pop? || s.ops[o].kind.PopAll? ==> s.stack != [] && s.ops[o].oldPtr == s.stack[0] != 0)
  {}

  lemma SuccessKeepsEvents(s: State, o: nat, u: nat)
    requires AboutTo(s, o) && u in s.ops && EventInv(s, u)
    ensures u in After(s, o).ops && EventInv(After(s, o), u)
  {
    SuccessShape(s, o);
    LogAppend(s.log, SuccessEvent(s, o), u);
    hide Succeeded, EventsOf, Effect, OpInv, TopInv, SlotInv;
  }

  lemma SuccessKeepsSlot(s: State, o: nat, i: nat)
    requires AboutTo(s, o) && i < |After(s, o).stack|
    requires forall k :: 0 <= k < |s.stack| ==> SlotInv(s, k)
    ensures SlotInv(After(s, o), i)
  {
    hide SlotInv, OpInv;
    match s.ops[o].kind
    case Push(items) =>
      assert i >= |items| ==> SlotInv(s, i - |items|);
      PushMakesSlot(s, o, i);
    case Pop => PopKeepsTop(s, o); assert SlotInv(s, i + 1); PopKeepsSlot(s, o, i);
    case PopAll => PopAllKeepsTop(s, o);
  }

  lemma SuccessKeeps(s: State, o: nat)
    requires Inv(s) && AboutTo(s, o)
    ensures Inv(After(s, o))
  {
    hide OpInv, EventInv, SlotInv, TopInv, EventsOf, Replay, AboutTo, Succeeded;
    AboutOp(s, o);
    var s' := After(s, o);
    SuccessShape(s, o);
    if s.ops[o].kind.Push? { PushKeepsTop(s, o); } else if s.ops[o].kind.Pop? { PopKeepsTop(s, o); } else { PopAllKeepsTop(s, o); }
    LogAppend(s.log, SuccessEvent(s, o), o);
    forall i | 0 <= i < |s'.stack| ensures SlotInv(s', i) { SuccessKeepsSlot(s, o, i); }
    forall u | u in s'.ops ensures OpInv(s', u) && EventInv(s', u) {
      if u == o { SuccessKeepsSelf(s, o); } else { SuccessKeepsOther(s, o, u); }
      SuccessKeepsEvents(s, o, u);
    }
    forall u | u !in s'.ops ensures EventsOf(s'.log, u) == [] { LogAppend(s.log, SuccessEvent(s, o), u); }
  }

  lemma AboutOp(s: State, o: nat)
    requires AboutTo(s, o)
    ensures o in s.ops && s.ops[o].pc.Cas?
  {}

  // ----- runs

  /** Any number of operations start and take steps in any order. */
  ghost predicate IsRun(run: seq<State>, acts: seq<Action>) {
    && |run| == |acts| + 1 && IsInit(run[0])
    && forall i :: 0 <= i < |acts| ==> Enabled(run[i], acts[i]) && run[i + 1] == Apply(run[i], acts[i])
  }

  /** A pop succeeds although the `next` it holds is no longer that of the top item. */
  predicate StalePop(s: State, a: Action) {
    a.Step? && Succeeds(s, a.op, a.spurious) && s.ops[a.op].kind.Pop? && !HoldsNext(s, a.op)
  }

  ghost predicate NoStalePop(run: seq<State>, acts: seq<Action>, n: nat)
    requires n <= |acts| <= |run|
  {
    forall i :: 0 <= i < n ==> !StalePop(run[i], acts[i])
  }

  lemma InvReady(s: State, o: nat)
    requires Inv(s) && o in s.ops
    ensures Ready(s, o)
  {
    assert OpInv(s, o);
    if s.stack != [] { assert SlotInv(s, 0); }
  }

  /** Every action but a stale pop keeps the invariant. */
  lemma ApplyKeepsInv(s: State, a: Action)
    requires Inv(s) && Enabled(s, a) && !StalePop(s, a)
    ensures Inv(Apply(s, a))
  {
    hide Inv, OpInv, EventInv, SlotInv, TopInv, EventsOf, Replay, Succeeded, HoldsNext;
    match a
    case Start(o, kind, stale) => StartKeeps(s, o, kind, stale);
    case Scribble(x, v) => ScribbleKeeps(s, x, v);
    case Step(o, spurious) =>
      InvReady(s, o);
      if Succeeds(s, o, spurious) { SuccessKeeps(s, o); } else { QuietKeeps(s, o, spurious); }
  }

  lemma {:induction false} RunKeepsInv(run: seq<State>, acts: seq<Action>, i: nat)
    requires IsRun(run, acts) && i < |run| && NoStalePop(run, acts, i)
    ensures Inv(run[i])
  {
    hide StalePop, Enabled, Apply;
    if i > 0 {
      RunKeepsInv(run, acts, i - 1);
      ApplyKeepsInv(run[i - 1], acts[i - 1]);
    } else {
      InitInv(run[0]);
    }
  }

  lemma InitInv(s: State)
    requires IsInit(s)
    ensures Inv(s)
  {}

  /** The events so far are a history of a sequential stack, which ends in the
      list that memory holds. */
  ghost predicate Linearized(s: State) {
    Replay(s.log) == Contents(s.stack) && IsList(s.next, s.ptr, s.stack)
  }

  lemma InvLinearized(s: State)
    requires Inv(s)
    ensures Linearized(s)
  {
    if s.stack != [] { ListFrom(s, 0); }
  }

  lemma {:induction false} ListFrom(s: State, k: nat)
    requires Inv(s) && k < |s.stack|
    ensures IsList(s.next, s.stack[k], s.stack[k..])
    decreases |s.stack| - k
  {
    assert SlotInv(s, k);
    assert s.stack[k..][1..] == s.stack[k + 1..];
    if k + 1 < |s.stack| { ListFrom(s, k + 1); }
  }

  /** After a stale pop memory holds some other list. */
  lemma StalePopBreaks(s: State, a: Action)
    requires Inv(s) && StalePop(s, a)
    ensures !Linearized(Apply(s, a))
  {
    hide Replay, EventsOf;
    InvReady(s, a.op);
    var s' := Apply(s, a);
    assert s'.next == s.next && s'.stack == s.stack[1..] && s'.ptr == s.ops[a.op].pc.value;
    assert SlotInv(s, 0);
  }

  /** The stack is linearizable in every state of a run exactly if no pop that
      has succeeded was stale. */
  lemma {:induction false} Linearizable(run: seq<State>, acts: seq<Action>, i: nat)
    requires IsRun(run, acts) && i < |run|
    ensures (forall k :: 0 <= k <= i ==> Linearized(run[k])) <==> NoStalePop(run, acts, i)
  {
    hide StalePop, Linearized, Enabled, Apply, Inv;
    if i == 0 {
      RunKeepsInv(run, acts, 0);
      InvLinearized(run[0]);
    } else {
      Linearizable(run, acts, i - 1);
      assert NoStalePop(run, acts, i) ==> NoStalePop(run, acts, i - 1);
      if NoStalePop(run, acts, i - 1) {
        RunKeepsInv(run, acts, i - 1);
        if StalePop(run[i - 1], acts[i - 1]) {
          StalePopBreaks(run[i - 1], acts[i - 1]);
          assert !Linearized(run[i]);
        } else {
          ApplyKeepsInv(run[i - 1], acts[i - 1]);
          InvLinearized(run[i]);
        }
      }
    }
  }

  /** A pop whose counter has not gone around since it was read is not stale. */
  lemma TimelyIsNotStale(run: seq<State>, acts: seq<Action>, i: nat, o: nat)
    requires IsRun(run, acts) && i < |run| && NoStalePop(run, acts, i)
    requires Succeeds(run[i], o, false) && run[i].ops[o].kind.Pop? && run[i].aba < run[i].ops[o].oldAba + WORD
    ensures run[i].ops[o].oldAba <= run[i].aba && HoldsNext(run[i], o)
  {
    RunKeepsInv(run, acts, i);
    assert OpInv(run[i], o);
  }

  /** Every successful pop compares before its counter has gone around. */
  ghost predicate Timely(run: seq<State>, acts: seq<Action>)
    requires |acts| <= |run|
  {
    forall i :: 0 <= i < |acts| && acts[i].Step? && Succeeds(run[i], acts[i].op, acts[i].spurious) ==>
      var op := run[i].ops[acts[i].op]; op.kind.Pop? ==> run[i].aba < op.oldAba + WORD
  }

  /** Then none is stale. */
  lemma {:induction false} TimelyRuns(run: seq<State>, acts: seq<Action>, n: nat)
    requires IsRun(run, acts) && Timely(run, acts) && n <= |acts|
    ensures NoStalePop(run, acts, n)
  {
    if n > 0 {
      TimelyRuns(run, acts, n - 1);
      if StalePop(run[n - 1], acts[n - 1]) { TimelyIsNotStale(run, acts, n - 1, acts[n - 1].op); }
    }
  }

  /** A finished operation has exactly one event, which agrees with its result;
      one that has not finished has at most one. */
  lemma OneEventPerOperation(run: seq<State>, acts: seq<Action>, i: nat, o: nat)
    requires IsRun(run, acts) && i < |run| && NoStalePop(run, acts, i) && o in run[i].ops
    ensures |EventsOf(run[i].log, o)| <= 1
    ensures run[i].ops[o].pc.Returned? ==>
      var e, r := EventsOf(run[i].log, o), run[i].ops[o].pc.result;
      && |e| == 1
      && (run[i].ops[o].kind.Push? ==> e[0] == Pushed(o, run[i].ops[o].kind.items))
      && (run[i].ops[o].kind.Pop? ==> e[0] == if r == 0 then FoundEmpty(o) else Popped(o, r))
      && (run[i].ops[o].kind.PopAll? ==>
            if r == 0 then e[0] == FoundEmpty(o) else e[0].PoppedAll? && |e[0].items| > 0 && e[0].items[0] == r)
  {
    RunKeepsInv(run, acts, i);
    assert EventInv(run[i], o);
  }

  /** A pop that is not stale, and only such a one, takes the top item and leaves
      the second one on top. */
  lemma PopUsesCurrentNext(run: seq<State>, acts: seq<Action>, i: nat, o: nat)
    requires IsRun(run, acts) && i < |run| && NoStalePop(run, acts, i)
    requires Succeeds(run[i], o, false) && run[i].ops[o].kind.Pop?
    ensures run[i].stack != [] && run[i].ops[o].oldPtr == run[i].stack[0]
    ensures HoldsNext(run[i], o) <==> run[i].ops[o].pc.value == if |run[i].stack| > 1 then run[i].stack[1] else 0
    ensures HoldsNext(run[i], o) <==> Inv(Apply(run[i], Step(o, false)))
  {
    hide Replay, EventsOf;
    RunKeepsInv(run, acts, i);
    var s := run[i];
    InvReady(s, o);
    assert SlotInv(s, 0);
    if HoldsNext(s, o) {
      ApplyKeepsInv(s, Step(o, false));
    } else {
      StalePopBreaks(s, Step(o, false));
      if Inv(Apply(s, Step(o, false))) { InvLinearized(Apply(s, Step(o, false))); }
    }
  }

  /** The counter never goes back, and while it stands still so does the stack. */
  lemma ApplyCounts(s: State, a: Action)
    requires Enabled(s, a)
    ensures s.aba <= Apply(s, a).aba
    ensures s.aba == Apply(s, a).aba ==> Apply(s, a).stack == s.stack && Apply(s, a).ptr == s.ptr
  {}

  lemma {:induction false} SameCounter(run: seq<State>, acts: seq<Action>, j: nat, k: nat, i: nat)
    requires IsRun(run, acts) && j <= k <= i < |run|
    ensures run[j].aba <= run[k].aba <= run[i].aba
    ensures run[j].aba == run[i].aba ==>
      run[k].stack == run[i].stack == run[j].stack && run[k].ptr == run[i].ptr == run[j].ptr
    decreases i
  {
    hide Enabled, Apply;
    if k < i {
      SameCounter(run, acts, j, k, i - 1);
      ApplyCounts(run[i - 1], acts[i - 1]);
    } else if j < i {
      SameCounter(run, acts, j, i - 1, i - 1);
      ApplyCounts(run[i - 1], acts[i - 1]);
    }
  }

  /** Between reading the counter and a conditional store that finds its word
      unchanged, no other store has succeeded, unless 2^64 of them have. */
  lemma NoSuccessBetween(run: seq<State>, acts: seq<Action>, j: nat, k: nat, i: nat)
    requires IsRun(run, acts) && j <= k <= i < |run|
    requires run[j].aba % WORD == run[i].aba % WORD
    ensures run[i].aba >= run[j].aba + WORD
      || (run[k].stack == run[i].stack == run[j].stack && run[k].ptr == run[i].ptr == run[j].ptr)
  {
    SameCounter(run, acts, j, k, i);
  }
}
