/** The combining lock: a flag for the uncontended case and a queue whose head
    runs the queued thunks for the others.

    Any number of calls of `with` run at once.  A state change is one atomic
    access by one call; memory is sequentially consistent.  Call ids are
    positive, 0 stands for the null node pointer.  A call's queue node lives
    until the call returns. */
module CombiningLock {

  datatype Status = Waiting | Done | Head

  /** What a call does next.  `curr` is the node being served, `n` the next one. */
  datatype Pc =
    | Start                              // load last
    | TryFlag                            // exchange flag
    | FastCall | FastBody | FastRelease  // own thunk under the flag
    | Exchange                           // last.exchange
    | Link(prev: nat)                    // prev->next.store
    | Wait                               // spin on status
    | Check                              // load status again
    | SpinFlag | SpinLoad                // head of the queue, acquiring the flag
    | Prefetch(curr: nat)                // load curr->next
    | Call(curr: nat) | Body(curr: nat)  // curr's thunk
    | LoadNext(curr: nat)
    | MarkDone(curr: nat, n: nat)        // wake curr, go on to n
    | Close(curr: nat)                   // compare-exchange last with null
    | MarkLast(curr: nat) | Release
    | AwaitNext(curr: nat) | ReadNext(curr: nat)
    | PassHead(curr: nat, n: nat)        // make n the head
    | MarkPassed(curr: nat)
    | Returned

  /** A call and its node.  The fields `queued`, `pos` and `finisher` are
      bookkeeping that no step reads: whether the node has entered the queue, at
      which position, and which call is about to mark it done. */
  datatype Call = Call_(pc: Pc, status: Status, next: nat, queued: bool, pos: nat, finisher: nat)

  datatype Event = Ran(id: nat, fromQueue: bool)

  /** `order` lists the nodes by `last.exchange`, `log` the finished thunks;
      `head` counts the nodes that have left the queue and `holder` is the call
      that owns the lock.  No step reads these four. */
  datatype State = State(
    flag: bool,
    last: nat,
    calls: map<nat, Call>,
    order: seq<nat>,
    head: nat,
    holder: nat,
    log: seq<Event>)

  const Init := State(false, 0, map[], [], 0, 0, [])

  function Fresh(): Call { Call_(Start, Waiting, 0, false, 0, 0) }

  function SetPc(s: State, t: nat, pc: Pc): State
    requires t in s.calls
  {
    s.(calls := s.calls[t := s.calls[t].(pc := pc)])
  }

  function SetStatus(s: State, t: nat, status: Status): State
    requires t in s.calls
  {
    s.(calls := s.calls[t := s.calls[t].(status := status)])
  }

  function SetFinisher(s: State, c: nat, t: nat): State {
    if c in s.calls then s.(calls := s.calls[c := s.calls[c].(finisher := t)]) else s
  }

  predicate Unqueued(pc: Pc) {
    pc.Start? || pc.TryFlag? || pc.FastCall? || pc.FastBody? || pc.FastRelease? || pc.Exchange?
  }

  predicate Queueing(pc: Pc) {
    pc.Link? || pc.Wait? || pc.Check? || pc.SpinFlag? || pc.SpinLoad?
  }

  predicate Working(pc: Pc) {
    pc.Prefetch? || pc.Call? || pc.Body? || pc.LoadNext? || pc.AwaitNext? || pc.ReadNext?
  }

  predicate Advancing(pc: Pc) {
    pc.MarkDone? || pc.Close? || pc.PassHead?
  }

  predicate Serving(pc: Pc) {
    Working(pc) || Advancing(pc)
  }

  /** The nodes whose fields the next step of `t` reads or writes. */
  function Accessed(s: State, t: nat): set<nat>
    requires t in s.calls
  {
    match s.calls[t].pc
    case Link(p) => {p}
    case Wait => {t}
    case Check => {t}
    case Prefetch(c) => {c}
    case Call(c) => {c}
    case Body(c) => {c}
    case LoadNext(c) => {c}
    case MarkDone(c, _) => {c}
    case MarkLast(c) => {c}
    case AwaitNext(c) => {c}
    case ReadNext(c) => {c}
    case PassHead(_, n) => {n}
    case MarkPassed(c) => {c}
    case _ => {}
  }

  /** The uncontended path of `with`, and entering the queue. */
  function StepEntering(s: State, t: nat): State
    requires t in s.calls
  {
    var me := s.calls[t];
    match me.pc
    case Start => SetPc(s, t, if s.last == 0 then TryFlag else Exchange)
    case TryFlag =>
      if s.flag then SetPc(s, t, Exchange)
      else SetPc(s, t, FastCall).(flag := true, holder := t)
    case FastCall => SetPc(s, t, FastBody)
    case FastBody => SetPc(s, t, FastRelease).(log := s.log + [Ran(t, false)])
    case FastRelease => SetPc(s, t, Returned).(flag := false, holder := 0)
    case Exchange =>
      s.(last := t,
         order := s.order + [t],
         calls := s.calls[t := me.(pc := if s.last == 0 then SpinFlag else Link(s.last), queued := true, pos := |s.order|)])
    case _ => s
  }

  /** Linking in, waiting, and acquiring the flag as the first in the queue. */
  function StepQueueing(s: State, t: nat): State
    requires t in s.calls && Accessed(s, t) <= s.calls.Keys
  {
    var me := s.calls[t];
    match me.pc
    case Link(p) => SetPc(s.(calls := s.calls[p := s.calls[p].(next := t)]), t, Wait)
    case Wait => if me.status == Waiting then s else SetPc(s, t, Check)
    case Check => SetPc(s, t, if me.status == Done then Returned else Prefetch(t))
    case SpinFlag =>
      if s.flag then SetPc(s, t, SpinLoad)
      else SetPc(s, t, Prefetch(t)).(flag := true, holder := t)
    case SpinLoad => if s.flag then s else SetPc(s, t, SpinFlag)
    case _ => s
  }

  /** Serving the node at the head of the queue. */
  function StepWorking(s: State, t: nat): State
    requires t in s.calls && Accessed(s, t) <= s.calls.Keys
  {
    match s.calls[t].pc
    case Prefetch(c) => SetPc(s, t, Call(c))
    case Call(c) => SetPc(s, t, Body(c))
    case Body(c) => SetPc(s, t, LoadNext(c)).(log := s.log + [Ran(c, true)])
    case LoadNext(c) =>
      var n := s.calls[c].next;
      SetPc(s, t, if n == 0 then Close(c) else MarkDone(c, n))
    case AwaitNext(c) => if s.calls[c].next == 0 then s else SetPc(s, t, ReadNext(c))
    case ReadNext(c) => SetPc(s, t, PassHead(c, s.calls[c].next))
    case _ => s
  }

  /** Taking the served node off the queue: on to the next, close, or pass on. */
  function StepAdvancing(s: State, t: nat): State
    requires t in s.calls && Accessed(s, t) <= s.calls.Keys
  {
    match s.calls[t].pc
    case MarkDone(c, n) => SetPc(SetStatus(s, c, Done), t, Prefetch(n)).(head := s.head + 1)
    case Close(c) =>
      if s.last == c then SetPc(SetFinisher(s, c, t), t, MarkLast(c)).(last := 0, head := s.head + 1)
      else SetPc(s, t, AwaitNext(c))
    case PassHead(c, n) =>
      SetPc(SetStatus(SetFinisher(s, c, t), n, Head), t, MarkPassed(c)).(head := s.head + 1, holder := n)
    case _ => s
  }

  /** The last mark, and releasing the flag. */
  function StepEnding(s: State, t: nat): State
    requires t in s.calls && Accessed(s, t) <= s.calls.Keys
  {
    match s.calls[t].pc
    case MarkLast(c) => SetPc(SetStatus(s, c, Done), t, Release)
    case Release => SetPc(s, t, Returned).(flag := false, holder := 0)
    case MarkPassed(c) => SetPc(SetStatus(s, c, Done), t, Returned)
    case _ => s
  }

  /** One atomic access by call `t`. */
  function Step(s: State, t: nat): State
    requires t in s.calls && Accessed(s, t) <= s.calls.Keys
  {
    var pc := s.calls[t].pc;
    if Unqueued(pc) then StepEntering(s, t)
    else if Queueing(pc) then StepQueueing(s, t)
    else if Working(pc) then StepWorking(s, t)
    else if Advancing(pc) then StepAdvancing(s, t)
    else StepEnding(s, t)
  }

  ghost predicate Next(s: State, s': State) {
    || (exists t :: t in s.calls && Accessed(s, t) <= s.calls.Keys && s' == Step(s, t))
    || (exists t :: t > 0 && t !in s.calls && s' == Spawn(s, t))
  }

  // ----- invariant

  predicate Finishing(pc: Pc) {
    pc.MarkLast? || pc.MarkPassed?
  }

  predicate AfterBody(pc: Pc) {
    pc.LoadNext? || pc.MarkDone? || pc.Close? || pc.AwaitNext? || pc.ReadNext? || pc.PassHead?
  }

  predicate Holds(c: Call) {
    || c.pc.FastCall? || c.pc.FastBody? || c.pc.FastRelease?
    || Serving(c.pc) || c.pc.MarkLast? || c.pc.Release?
    || ((c.pc.Wait? || c.pc.Check?) && c.status == Head)
  }

  /** The node is parked: its owner waits for someone else's mark. */
  predicate Parked(s: State, x: nat) {
    x in s.calls && s.calls[x].queued && s.calls[x].pc.Wait? && s.calls[x].status == Waiting
  }

  /** Where a call may be, given its own node and the ends of the queue. */
  ghost predicate PlaceInv(s: State, t: nat)
    requires t in s.calls
  {
    var c := s.calls[t];
    && t > 0
    && (Holds(c) <==> t == s.holder)
    && (!c.queued ==> c.status == Waiting && c.next == 0 && c.finisher == 0 && (Unqueued(c.pc) || c.pc.Returned?))
    && (c.queued ==> c.pos < |s.order| && s.order[c.pos] == t && !Unqueued(c.pc))
    && (c.pc.Link? ==> c.pos > s.head && s.order[c.pos - 1] == c.pc.prev && c.status == Waiting)
    && (c.pc.Wait? && c.status == Waiting ==> c.pos >= s.head || c.finisher != 0)
    && ((c.pc.Wait? || c.pc.Check?) && c.status == Head ==> c.pos == s.head)
    && (c.pc.Check? ==> c.status != Waiting)
    && (c.status == Done ==> c.queued && c.pos < s.head)
    && (c.pc.SpinFlag? || c.pc.SpinLoad? ==> c.pos == s.head && c.status == Waiting)
    && (Serving(c.pc) ==>
          && s.head < |s.order| && s.order[s.head] == c.pc.curr
          && (c.status == Done <==> c.pc.curr != t))
    && (c.pc.AwaitNext? ==> s.head + 1 < |s.order|)
    && (Finishing(c.pc) ==> (c.status == Done <==> c.pc.curr != t))
    && (c.pc.Release? ==> c.status == Done)
    && (c.pc.Returned? && c.queued ==> c.status == Done)
  }

  /** What a call may rely on about the nodes it is about to touch. */
  ghost predicate TargetInv(s: State, t: nat)
    requires t in s.calls
  {
    var c := s.calls[t];
    && (c.finisher != 0 && c.status != Done ==>
          c.finisher in s.calls && Finishing(s.calls[c.finisher].pc) && s.calls[c.finisher].pc.curr == t)
    && (Serving(c.pc) && c.pc.curr != t ==> Parked(s, c.pc.curr))
    && (c.pc.MarkDone? || c.pc.PassHead? ==>
          s.head + 1 < |s.order| && s.order[s.head + 1] == c.pc.n && c.pc.curr in s.calls && s.calls[c.pc.curr].next == c.pc.n)
    && (c.pc.ReadNext? ==> c.pc.curr in s.calls && s.calls[c.pc.curr].next != 0)
    && (Finishing(c.pc) ==>
          && c.pc.curr in s.calls && s.calls[c.pc.curr].queued && s.calls[c.pc.curr].pos < s.head
          && s.calls[c.pc.curr].finisher == t
          && (c.pc.curr != t ==> Parked(s, c.pc.curr)))
  }

  ghost predicate CallInv(s: State, t: nat)
    requires t in s.calls
  {
    PlaceInv(s, t) && TargetInv(s, t)
  }

  ghost predicate OrderInv(s: State, i: nat)
    requires i < |s.order|
  {
    var x := s.order[i];
    && x in s.calls && s.calls[x].queued && s.calls[x].pos == i
    && (i >= s.head ==>
          && s.calls[x].status != Done && s.calls[x].finisher == 0
          && (i == |s.order| - 1 ==> s.calls[x].next == 0)
          && (i < |s.order| - 1 ==>
                var y := s.order[i + 1];
                y in s.calls && s.calls[x].next == if s.calls[y].pc.Link? then 0 else y))
    && (i > s.head ==> s.calls[x].status == Waiting && (s.calls[x].pc.Link? || s.calls[x].pc.Wait?))
    && (i == s.head ==>
          || s.calls[x].pc.SpinFlag? || s.calls[x].pc.SpinLoad?
          || (s.calls[x].status == Head && x == s.holder)
          || (s.holder in s.calls && Serving(s.calls[s.holder].pc) && s.calls[s.holder].pc.curr == x))
  }

  predicate LockInv(s: State) {
    && s.head <= |s.order|
    && s.last == (if s.head == |s.order| then 0 else s.order[|s.order| - 1])
    && (s.flag <==> s.holder != 0)
    && (s.holder != 0 ==> s.holder in s.calls)
    && 0 !in s.calls
  }

  ghost predicate QueueInv(s: State) {
    && LockInv(s)
    && (forall i :: 0 <= i < |s.order| ==> OrderInv(s, i))
    && (forall t :: t in s.calls ==> CallInv(s, t))
  }

  function QueuedIds(log: seq<Event>): seq<nat> {
    if log == [] then []
    else
      var rest, e := QueuedIds(log[..|log| - 1]), log[|log| - 1];
      if e.fromQueue then rest + [e.id] else rest
  }

  function Runs(log: seq<Event>, t: nat): nat {
    if log == [] then 0
    else Runs(log[..|log| - 1], t) + if log[|log| - 1].id == t then 1 else 0
  }

  /** How many queued thunks have finished. */
  function RanCount(s: State): nat {
    s.head + if s.holder in s.calls && AfterBody(s.calls[s.holder].pc) then 1 else 0
  }

  predicate HasRun(s: State, t: nat)
    requires t in s.calls
  {
    var c := s.calls[t];
    if c.queued then c.pos < RanCount(s) else c.pc.FastRelease? || c.pc.Returned?
  }

  ghost predicate LogInv(s: State) {
    && RanCount(s) <= |s.order|
    && QueuedIds(s.log) == s.order[..RanCount(s)]
    && (forall t :: t in s.calls ==> Runs(s.log, t) == if HasRun(s, t) then 1 else 0)
    && (forall t :: t !in s.calls ==> Runs(s.log, t) == 0)
  }

  ghost predicate Inv(s: State) {
    QueueInv(s) && LogInv(s)
  }

  lemma AccessDefined(s: State, t: nat)
    requires QueueInv(s) && t in s.calls
    ensures Accessed(s, t) <= s.calls.Keys
  {
    var c := s.calls[t];
    assert CallInv(s, t);
    if c.pc.Link? { assert OrderInv(s, c.pos - 1); }
    if Serving(c.pc) { assert OrderInv(s, s.head); }
    if c.pc.PassHead? { assert OrderInv(s, s.head + 1); }
  }

  function Spawn(s: State, t: nat): State {
    s.(calls := s.calls[t := Fresh()])
  }

  lemma SpawnKeepsOrder(s: State, t: nat, i: nat)
    requires LockInv(s) && t > 0 && t !in s.calls && i < |s.order| && OrderInv(s, i)
    ensures OrderInv(Spawn(s, t), i)
  {}

  lemma SpawnKeepsCall(s: State, t: nat, u: nat)
    requires LockInv(s) && t > 0 && t !in s.calls && u in Spawn(s, t).calls && (u != t ==> CallInv(s, u))
    ensures CallInv(Spawn(s, t), u)
  {}

  lemma SpawnKeeps(s: State, t: nat)
    requires QueueInv(s) && t > 0 && t !in s.calls
    ensures QueueInv(Spawn(s, t))
  {
    hide OrderInv, CallInv;
    forall i | 0 <= i < |s.order| ensures OrderInv(Spawn(s, t), i) { SpawnKeepsOrder(s, t, i); }
    forall u | u in Spawn(s, t).calls ensures CallInv(Spawn(s, t), u) { SpawnKeepsCall(s, t, u); }
  }

  /** The part of the invariant that a step of `t` can touch. */
  ghost predicate Near(s: State, t: nat) {
    && t in s.calls && Accessed(s, t) <= s.calls.Keys
    && LockInv(s)
    && CallInv(s, t)
    && (s.head < |s.order| ==> OrderInv(s, s.head))
    && (s.head + 1 < |s.order| ==> OrderInv(s, s.head + 1))
    && (|s.order| > 0 ==> OrderInv(s, |s.order| - 1))
    && (s.last == 0 <==> s.head == |s.order|)
    && (s.calls[t].pc.Link? ==> OrderInv(s, s.calls[t].pos - 1))
  }

  lemma InvNear(s: State, t: nat)
    requires QueueInv(s) && t in s.calls
    ensures Near(s, t)
  {
    AccessDefined(s, t);
    assert CallInv(s, t);
    if |s.order| > 0 {
      assert OrderInv(s, |s.order| - 1);
      assert CallInv(s, s.order[|s.order| - 1]);
    }
  }

  lemma EnteringKeepsOrder(s: State, t: nat, i: nat)
    requires Near(s, t) && Unqueued(s.calls[t].pc)
    requires i < |StepEntering(s, t).order|
    requires i < |s.order| ==> OrderInv(s, i)
    requires i + 1 < |s.order| ==> OrderInv(s, i + 1)
    ensures OrderInv(StepEntering(s, t), i)
  { hide TargetInv; }

  lemma EnteringKeepsPlace(s: State, t: nat, u: nat)
    requires Near(s, t) && Unqueued(s.calls[t].pc)
    requires u in s.calls && PlaceInv(s, u) && u != t
    ensures u in StepEntering(s, t).calls && PlaceInv(StepEntering(s, t), u)
  { hide OrderInv, TargetInv; }

  lemma EnteringKeepsTarget(s: State, t: nat, u: nat)
    requires Near(s, t) && Unqueued(s.calls[t].pc)
    requires u in s.calls && CallInv(s, u) && u != t
    ensures u in StepEntering(s, t).calls && TargetInv(StepEntering(s, t), u)
  { hide OrderInv; }

  lemma ExchangeKeepsSelf(s: State, t: nat)
    requires Near(s, t) && s.calls[t].pc.Exchange?
    ensures t in StepEntering(s, t).calls && PlaceInv(StepEntering(s, t), t)
  { hide OrderInv; }

  lemma UnqueuedKeepsSelf(s: State, t: nat)
    requires Near(s, t) && Unqueued(s.calls[t].pc) && !s.calls[t].pc.Exchange?
    ensures t in StepEntering(s, t).calls && PlaceInv(StepEntering(s, t), t)
  { hide OrderInv; }

  lemma EnteringKeepsLock(s: State, t: nat)
    requires Near(s, t) && Unqueued(s.calls[t].pc)
    ensures t in StepEntering(s, t).calls && TargetInv(StepEntering(s, t), t)
    ensures LockInv(StepEntering(s, t)) && StepEntering(s, t).calls.Keys == s.calls.Keys
  { hide OrderInv; }

  lemma LinkKeepsOrder(s: State, t: nat, i: nat)
    requires Near(s, t) && s.calls[t].pc.Link?
    requires i < |StepQueueing(s, t).order|
    requires i < |s.order| ==> OrderInv(s, i)
    requires i + 1 < |s.order| ==> OrderInv(s, i + 1)
    ensures OrderInv(StepQueueing(s, t), i)
  { hide LockInv; }

  lemma QueueingKeepsOrder(s: State, t: nat, i: nat)
    requires Near(s, t) && Queueing(s.calls[t].pc) && !s.calls[t].pc.Link?
    requires i < |StepQueueing(s, t).order|
    requires i < |s.order| ==> OrderInv(s, i)
    requires i + 1 < |s.order| ==> OrderInv(s, i + 1)
    ensures OrderInv(StepQueueing(s, t), i)
  { hide LockInv; }

  lemma QueueingKeepsPlace(s: State, t: nat, u: nat)
    requires Near(s, t) && Queueing(s.calls[t].pc)
    requires u in s.calls && PlaceInv(s, u) && u != t
    ensures u in StepQueueing(s, t).calls && PlaceInv(StepQueueing(s, t), u)
  { hide TargetInv; }

  lemma LinkKeepsTarget(s: State, t: nat, u: nat)
    requires Near(s, t) && s.calls[t].pc.Link?
    requires u in s.calls && CallInv(s, u) && u != t
    ensures u in StepQueueing(s, t).calls && TargetInv(StepQueueing(s, t), u)
  {}

  lemma SpinKeepsTarget(s: State, t: nat, u: nat)
    requires Near(s, t) && Queueing(s.calls[t].pc) && !s.calls[t].pc.Link?
    requires u in s.calls && CallInv(s, u) && u != t
    ensures u in StepQueueing(s, t).calls && TargetInv(StepQueueing(s, t), u)
  {}

  lemma QueueingKeepsSelf(s: State, t: nat)
    requires Near(s, t) && Queueing(s.calls[t].pc)
    ensures t in StepQueueing(s, t).calls && PlaceInv(StepQueueing(s, t), t)
  { hide OrderInv; }

  lemma QueueingKeepsLock(s: State, t: nat)
    requires Near(s, t) && Queueing(s.calls[t].pc)
    ensures t in StepQueueing(s, t).calls && TargetInv(StepQueueing(s, t), t)
    ensures LockInv(StepQueueing(s, t)) && StepQueueing(s, t).calls.Keys == s.calls.Keys
  { hide OrderInv; }

  lemma WorkingKeepsOrder(s: State, t: nat, i: nat)
    requires Near(s, t) && Working(s.calls[t].pc)
    requires i < |StepWorking(s, t).order|
    requires i < |s.order| ==> OrderInv(s, i)
    requires i + 1 < |s.order| ==> OrderInv(s, i + 1)
    ensures OrderInv(StepWorking(s, t), i)
  { hide TargetInv; }

  lemma WorkingKeepsPlace(s: State, t: nat, u: nat)
    requires Near(s, t) && Working(s.calls[t].pc)
    requires u in s.calls && PlaceInv(s, u) && u != t
    ensures u in StepWorking(s, t).calls && PlaceInv(StepWorking(s, t), u)
  { hide OrderInv; }

  lemma WorkingKeepsTarget(s: State, t: nat, u: nat)
    requires Near(s, t) && Working(s.calls[t].pc)
    requires u in s.calls && CallInv(s, u) && u != t
    ensures u in StepWorking(s, t).calls && TargetInv(StepWorking(s, t), u)
  {}

  lemma WorkingKeepsSelf(s: State, t: nat)
    requires Near(s, t) && Working(s.calls[t].pc)
    ensures t in StepWorking(s, t).calls && PlaceInv(StepWorking(s, t), t)
  { hide OrderInv, TargetInv; }

  lemma WorkingKeepsLock(s: State, t: nat)
    requires Near(s, t) && Working(s.calls[t].pc)
    ensures t in StepWorking(s, t).calls && TargetInv(StepWorking(s, t), t)
    ensures LockInv(StepWorking(s, t)) && StepWorking(s, t).calls.Keys == s.calls.Keys
  {}

  lemma HandOnKeepsOrder(s: State, t: nat, i: nat)
    requires Near(s, t) && s.calls[t].pc.MarkDone?
    requires i < |StepAdvancing(s, t).order|
    requires i < |s.order| ==> OrderInv(s, i)
    requires i + 1 < |s.order| ==> OrderInv(s, i + 1)
    ensures OrderInv(StepAdvancing(s, t), i)
  {}

  lemma HandOnKeepsPlace(s: State, t: nat, u: nat)
    requires Near(s, t) && s.calls[t].pc.MarkDone?
    requires u in s.calls && PlaceInv(s, u) && u != t
    ensures u in StepAdvancing(s, t).calls && PlaceInv(StepAdvancing(s, t), u)
  { hide LockInv; }

  lemma HandOnKeepsTarget(s: State, t: nat, u: nat)
    requires Near(s, t) && s.calls[t].pc.MarkDone?
    requires u in s.calls && CallInv(s, u) && u != t
    ensures u in StepAdvancing(s, t).calls && TargetInv(StepAdvancing(s, t), u)
  {}

  lemma HandOnKeepsSelf(s: State, t: nat)
    requires Near(s, t) && s.calls[t].pc.MarkDone?
    ensures t in StepAdvancing(s, t).calls && PlaceInv(StepAdvancing(s, t), t)
  {}

  lemma HandOnKeepsLock(s: State, t: nat)
    requires Near(s, t) && s.calls[t].pc.MarkDone?
    ensures t in StepAdvancing(s, t).calls && TargetInv(StepAdvancing(s, t), t)
    ensures LockInv(StepAdvancing(s, t)) && StepAdvancing(s, t).calls.Keys == s.calls.Keys
  {}

  lemma ClosingKeepsOrder(s: State, t: nat, i: nat)
    requires Near(s, t) && s.calls[t].pc.Close?
    requires i < |StepAdvancing(s, t).order|
    requires i < |s.order| ==> OrderInv(s, i)
    requires i + 1 < |s.order| ==> OrderInv(s, i + 1)
    ensures OrderInv(StepAdvancing(s, t), i)
  {}

  lemma ClosingKeepsPlace(s: State, t: nat, u: nat)
    requires Near(s, t) && s.calls[t].pc.Close?
    requires u in s.calls && PlaceInv(s, u) && u != t
    ensures u in StepAdvancing(s, t).calls && PlaceInv(StepAdvancing(s, t), u)
  {}

  lemma ClosingKeepsTarget(s: State, t: nat, u: nat)
    requires Near(s, t) && s.calls[t].pc.Close?
    requires u in s.calls && CallInv(s, u) && u != t
    ensures u in StepAdvancing(s, t).calls && TargetInv(StepAdvancing(s, t), u)
  {}

  lemma ClosingKeepsSelf(s: State, t: nat)
    requires Near(s, t) && s.calls[t].pc.Close?
    ensures t in StepAdvancing(s, t).calls && PlaceInv(StepAdvancing(s, t), t)
  {}

  lemma ClosingKeepsLock(s: State, t: nat)
    requires Near(s, t) && s.calls[t].pc.Close?
    ensures t in StepAdvancing(s, t).calls && TargetInv(StepAdvancing(s, t), t)
    ensures LockInv(StepAdvancing(s, t)) && StepAdvancing(s, t).calls.Keys == s.calls.Keys
  {}

  lemma PassingKeepsOrder(s: State, t: nat, i: nat)
    requires Near(s, t) && s.calls[t].pc.PassHead?
    requires i < |StepAdvancing(s, t).order|
    requires i < |s.order| ==> OrderInv(s, i)
    requires i + 1 < |s.order| ==> OrderInv(s, i + 1)
    ensures OrderInv(StepAdvancing(s, t), i)
  {}

  lemma PassingKeepsPlace(s: State, t: nat, u: nat)
    requires Near(s, t) && s.calls[t].pc.PassHead?
    requires u in s.calls && PlaceInv(s, u) && u != t
    ensures u in StepAdvancing(s, t).calls && PlaceInv(StepAdvancing(s, t), u)
  {}

  lemma PassingKeepsTarget(s: State, t: nat, u: nat)
    requires Near(s, t) && s.calls[t].pc.PassHead?
    requires u in s.calls && CallInv(s, u) && u != t
    ensures u in StepAdvancing(s, t).calls && TargetInv(StepAdvancing(s, t), u)
  {}

  lemma PassingKeepsSelf(s: State, t: nat)
    requires Near(s, t) && s.calls[t].pc.PassHead?
    ensures t in StepAdvancing(s, t).calls && PlaceInv(StepAdvancing(s, t), t)
  {}

  lemma PassingKeepsLock(s: State, t: nat)
    requires Near(s, t) && s.calls[t].pc.PassHead?
    ensures t in StepAdvancing(s, t).calls && TargetInv(StepAdvancing(s, t), t)
    ensures LockInv(StepAdvancing(s, t)) && StepAdvancing(s, t).calls.Keys == s.calls.Keys
  {}

  lemma EndingKeepsOrder(s: State, t: nat, i: nat)
    requires Near(s, t) && !Unqueued(s.calls[t].pc) && !Queueing(s.calls[t].pc) && !Serving(s.calls[t].pc)
    requires i < |StepEnding(s, t).order|
    requires i < |s.order| ==> OrderInv(s, i)
    requires i + 1 < |s.order| ==> OrderInv(s, i + 1)
    ensures OrderInv(StepEnding(s, t), i)
  {}

  lemma EndingKeepsPlace(s: State, t: nat, u: nat)
    requires Near(s, t) && !Unqueued(s.calls[t].pc) && !Queueing(s.calls[t].pc) && !Serving(s.calls[t].pc)
    requires u in s.calls && PlaceInv(s, u) && u != t
    ensures u in StepEnding(s, t).calls && PlaceInv(StepEnding(s, t), u)
  { hide OrderInv; }

  lemma MarkLastKeepsTarget(s: State, t: nat, u: nat)
    requires Near(s, t) && s.calls[t].pc.MarkLast?
    requires u in s.calls && CallInv(s, u) && u != t
    ensures u in StepEnding(s, t).calls && TargetInv(StepEnding(s, t), u)
  { hide LockInv; }

  lemma MarkPassedKeepsTarget(s: State, t: nat, u: nat)
    requires Near(s, t) && s.calls[t].pc.MarkPassed?
    requires u in s.calls && CallInv(s, u) && u != t
    ensures u in StepEnding(s, t).calls && TargetInv(StepEnding(s, t), u)
  { hide LockInv; }

  lemma EndingKeepsTarget(s: State, t: nat, u: nat)
    requires Near(s, t) && (s.calls[t].pc.Release? || s.calls[t].pc.Returned?)
    requires u in s.calls && CallInv(s, u) && u != t
    ensures u in StepEnding(s, t).calls && TargetInv(StepEnding(s, t), u)
  { hide LockInv; }

  lemma EndingKeepsSelf(s: State, t: nat)
    requires Near(s, t) && !Unqueued(s.calls[t].pc) && !Queueing(s.calls[t].pc) && !Serving(s.calls[t].pc)
    ensures t in StepEnding(s, t).calls && PlaceInv(StepEnding(s, t), t)
  { hide OrderInv; }

  lemma EndingKeepsLock(s: State, t: nat)
    requires Near(s, t) && !Unqueued(s.calls[t].pc) && !Queueing(s.calls[t].pc) && !Serving(s.calls[t].pc)
    ensures t in StepEnding(s, t).calls && TargetInv(StepEnding(s, t), t)
    ensures LockInv(StepEnding(s, t)) && StepEnding(s, t).calls.Keys == s.calls.Keys
  { hide OrderInv; }

  lemma StepKeepsSelf(s: State, t: nat)
    requires Near(s, t)
    ensures t in Step(s, t).calls && CallInv(Step(s, t), t)
    ensures LockInv(Step(s, t)) && Step(s, t).calls.Keys == s.calls.Keys
  {
    hide OrderInv, PlaceInv, TargetInv, LockInv;
    var pc := s.calls[t].pc;
    if Unqueued(pc) {
      EnteringKeepsLock(s, t);
      if pc.Exchange? { ExchangeKeepsSelf(s, t); } else { UnqueuedKeepsSelf(s, t); }
    }
    else if Queueing(pc) { QueueingKeepsSelf(s, t); QueueingKeepsLock(s, t); }
    else if Working(pc) { WorkingKeepsSelf(s, t); WorkingKeepsLock(s, t); }
    else if Advancing(pc) {
      if pc.MarkDone? { HandOnKeepsSelf(s, t); HandOnKeepsLock(s, t); }
      else if pc.Close? { ClosingKeepsSelf(s, t); ClosingKeepsLock(s, t); }
      else { PassingKeepsSelf(s, t); PassingKeepsLock(s, t); }
    }
    else { EndingKeepsSelf(s, t); EndingKeepsLock(s, t); }
  }

  lemma StepKeepsCall(s: State, t: nat, u: nat)
    requires Near(s, t) && u in s.calls && CallInv(s, u) && u != t
    ensures u in Step(s, t).calls && CallInv(Step(s, t), u)
  {
    hide OrderInv, PlaceInv, TargetInv, LockInv;
    var pc := s.calls[t].pc;
    if Unqueued(pc) { EnteringKeepsPlace(s, t, u); EnteringKeepsTarget(s, t, u); }
    else if Queueing(pc) {
      QueueingKeepsPlace(s, t, u);
      if pc.Link? { LinkKeepsTarget(s, t, u); } else { SpinKeepsTarget(s, t, u); }
    }
    else if Working(pc) { WorkingKeepsPlace(s, t, u); WorkingKeepsTarget(s, t, u); }
    else if Advancing(pc) {
      if pc.MarkDone? { HandOnKeepsPlace(s, t, u); HandOnKeepsTarget(s, t, u); }
      else if pc.Close? { ClosingKeepsPlace(s, t, u); ClosingKeepsTarget(s, t, u); }
      else { PassingKeepsPlace(s, t, u); PassingKeepsTarget(s, t, u); }
    }
    else {
      EndingKeepsPlace(s, t, u);
      if pc.MarkLast? { MarkLastKeepsTarget(s, t, u); }
      else if pc.MarkPassed? { MarkPassedKeepsTarget(s, t, u); }
      else { EndingKeepsTarget(s, t, u); }
    }
  }

  lemma StepKeepsOrder(s: State, t: nat, i: nat)
    requires Near(s, t) && i < |Step(s, t).order|
    requires i < |s.order| ==> OrderInv(s, i)
    requires i + 1 < |s.order| ==> OrderInv(s, i + 1)
    ensures OrderInv(Step(s, t), i)
  {
    hide OrderInv, PlaceInv, TargetInv, LockInv;
    var pc := s.calls[t].pc;
    if Unqueued(pc) { EnteringKeepsOrder(s, t, i); }
    else if Queueing(pc) { if pc.Link? { LinkKeepsOrder(s, t, i); } else { QueueingKeepsOrder(s, t, i); } }
    else if Working(pc) { WorkingKeepsOrder(s, t, i); }
    else if Advancing(pc) {
      if pc.MarkDone? { HandOnKeepsOrder(s, t, i); }
      else if pc.Close? { ClosingKeepsOrder(s, t, i); }
      else { PassingKeepsOrder(s, t, i); }
    }
    else { EndingKeepsOrder(s, t, i); }
  }

  lemma StepKeepsQueue(s: State, t: nat)
    requires QueueInv(s) && t in s.calls && Accessed(s, t) <= s.calls.Keys
    ensures QueueInv(Step(s, t))
  {
    hide OrderInv, CallInv, LockInv, Step, Near;
    var s' := Step(s, t);
    InvNear(s, t);
    StepKeepsSelf(s, t);
    forall i | 0 <= i < |s'.order| ensures OrderInv(s', i) { StepKeepsOrder(s, t, i); }
    forall u | u in s'.calls ensures CallInv(s', u) {
      if u != t { StepKeepsCall(s, t, u); }
    }
  }

  // ----- the log of finished thunks

  lemma RunsAppend(log: seq<Event>, e: Event, t: nat)
    ensures Runs(log + [e], t) == Runs(log, t) + if e.id == t then 1 else 0
    ensures QueuedIds(log + [e]) == if e.fromQueue then QueuedIds(log) + [e.id] else QueuedIds(log)
  {
    assert (log + [e])[..|log|] == log;
  }

  lemma LogAppended(s: State, t: nat)
    requires QueueInv(s) && t in s.calls && Accessed(s, t) <= s.calls.Keys
    ensures var s', pc := Step(s, t), s.calls[t].pc;
      s'.log == if pc.FastBody? then s.log + [Ran(t, false)] else if pc.Body? then s.log + [Ran(pc.curr, true)] else s.log
  {
  }

  lemma EnteringCounts(s: State, t: nat)
    requires Near(s, t) && Unqueued(s.calls[t].pc)
    ensures RanCount(StepEntering(s, t)) == RanCount(s) + if s.calls[t].pc.Body? then 1 else 0
  { hide OrderInv; }

  lemma QueueingCounts(s: State, t: nat)
    requires Near(s, t) && Queueing(s.calls[t].pc)
    ensures RanCount(StepQueueing(s, t)) == RanCount(s) + if s.calls[t].pc.Body? then 1 else 0
  { hide OrderInv; }

  lemma WorkingCounts(s: State, t: nat)
    requires Near(s, t) && Working(s.calls[t].pc)
    ensures RanCount(StepWorking(s, t)) == RanCount(s) + if s.calls[t].pc.Body? then 1 else 0
  { hide OrderInv; }

  lemma AdvancingCounts(s: State, t: nat)
    requires Near(s, t) && Advancing(s.calls[t].pc)
    ensures RanCount(StepAdvancing(s, t)) == RanCount(s) + if s.calls[t].pc.Body? then 1 else 0
  {}

  lemma EndingCounts(s: State, t: nat)
    requires Near(s, t) && !Unqueued(s.calls[t].pc) && !Queueing(s.calls[t].pc) && !Serving(s.calls[t].pc)
    ensures RanCount(StepEnding(s, t)) == RanCount(s) + if s.calls[t].pc.Body? then 1 else 0
  { hide OrderInv; }

  lemma StepCounts(s: State, t: nat)
    requires Near(s, t)
    ensures RanCount(Step(s, t)) == RanCount(s) + if s.calls[t].pc.Body? then 1 else 0
  {
    hide OrderInv, PlaceInv, TargetInv, LockInv, RanCount;
    var pc := s.calls[t].pc;
    if Unqueued(pc) { EnteringCounts(s, t); }
    else if Queueing(pc) { QueueingCounts(s, t); }
    else if Working(pc) { WorkingCounts(s, t); }
    else if Advancing(pc) { AdvancingCounts(s, t); }
    else { EndingCounts(s, t); }
  }

  /** Everything about a call that only the exchange, or its own steps, change. */
  predicate SamePlace(s: State, s': State, t: nat, u: nat) {
    && u in s.calls && u in s'.calls && s'.order == s.order
    && s'.calls[u].queued == s.calls[u].queued && s'.calls[u].pos == s.calls[u].pos
    && (u != t || s.calls[u].pc.Returned? ==> s'.calls[u].pc == s.calls[u].pc)
  }

  lemma QueueingFixesPlace(s: State, t: nat, u: nat)
    requires t in s.calls && Accessed(s, t) <= s.calls.Keys && u in s.calls && Queueing(s.calls[t].pc)
    ensures SamePlace(s, StepQueueing(s, t), t, u)
  {}

  lemma WorkingFixesPlace(s: State, t: nat, u: nat)
    requires t in s.calls && Accessed(s, t) <= s.calls.Keys && u in s.calls && Working(s.calls[t].pc)
    ensures SamePlace(s, StepWorking(s, t), t, u)
  {}

  lemma AdvancingFixesPlace(s: State, t: nat, u: nat)
    requires t in s.calls && Accessed(s, t) <= s.calls.Keys && u in s.calls && Advancing(s.calls[t].pc)
    ensures SamePlace(s, StepAdvancing(s, t), t, u)
  {}

  lemma EndingFixesPlace(s: State, t: nat, u: nat)
    requires t in s.calls && Accessed(s, t) <= s.calls.Keys && u in s.calls && !Unqueued(s.calls[t].pc)
    ensures SamePlace(s, StepEnding(s, t), t, u)
  {}

  /** After the exchange, a call's place in the queue is fixed. */
  lemma PlaceFixed(s: State, t: nat, u: nat)
    requires t in s.calls && Accessed(s, t) <= s.calls.Keys && u in s.calls && !Unqueued(s.calls[t].pc)
    ensures SamePlace(s, Step(s, t), t, u)
  {
    hide SamePlace, StepQueueing, StepWorking, StepAdvancing, StepEnding;
    var pc := s.calls[t].pc;
    if Queueing(pc) { QueueingFixesPlace(s, t, u); }
    else if Working(pc) { WorkingFixesPlace(s, t, u); }
    else if Advancing(pc) { AdvancingFixesPlace(s, t, u); }
    else { EndingFixesPlace(s, t, u); }
  }

  /** The step that ends a thunk is the one that makes `HasRun` true. */
  lemma RunOnce(s: State, t: nat, u: nat)
    requires Near(s, t) && u in s.calls && PlaceInv(s, u) && RanCount(s) <= |s.order|
    ensures var s', pc := Step(s, t), s.calls[t].pc;
      && u in s'.calls
      && (if (pc.FastBody? && u == t) || (pc.Body? && u == pc.curr) then !HasRun(s, u) && HasRun(s', u)
          else HasRun(s', u) == HasRun(s, u))
  {
    StepCounts(s, t);
    if Unqueued(s.calls[t].pc) {
      EnteringRuns(s, t, u);
    } else {
      hide Step, TargetInv, RanCount;
      PlaceFixed(s, t, u);
    }
  }

  lemma EnteringRuns(s: State, t: nat, u: nat)
    requires Near(s, t) && u in s.calls && PlaceInv(s, u) && RanCount(s) <= |s.order|
    requires Unqueued(s.calls[t].pc) && RanCount(StepEntering(s, t)) == RanCount(s)
    ensures var s' := StepEntering(s, t);
      && u in s'.calls
      && (if s.calls[t].pc.FastBody? && u == t then !HasRun(s, u) && HasRun(s', u) else HasRun(s', u) == HasRun(s, u))
  {
    hide OrderInv, TargetInv, RanCount;
  }

  lemma ServedIsNext(s: State, t: nat)
    requires Near(s, t) && s.calls[t].pc.Body?
    ensures RanCount(s) == s.head < |s.order| && s.order[s.head] == s.calls[t].pc.curr
  {
    hide OrderInv;
  }

  /** Thunks from the queue finish in the order of the exchanges. */
  lemma StepKeepsPrefix(s: State, t: nat)
    requires Near(s, t) && QueueInv(s) && RanCount(s) <= |s.order| && QueuedIds(s.log) == s.order[..RanCount(s)]
    ensures RanCount(Step(s, t)) <= |Step(s, t).order|
    ensures QueuedIds(Step(s, t).log) == Step(s, t).order[..RanCount(Step(s, t))]
  {
    hide Step, OrderInv, TargetInv, PlaceInv, RanCount, LockInv, Near;
    NearKeys(s, t);
    var s', pc := Step(s, t), s.calls[t].pc;
    StepCounts(s, t);
    LogAppended(s, t);
    OrderGrows(s, t);
    if pc.FastBody? { RunsAppend(s.log, Ran(t, false), t); }
    if pc.Body? {
      ServedIsNext(s, t);
      RunsAppend(s.log, Ran(pc.curr, true), t);
      assert s.order[..s.head + 1] == s.order[..s.head] + [s.order[s.head]];
    }
  }

  lemma StepKeepsLog(s: State, t: nat)
    requires Inv(s) && Near(s, t)
    ensures LogInv(Step(s, t))
  {
    hide Step, OrderInv, TargetInv, PlaceInv, RanCount, HasRun, Near, LockInv;
    NearKeys(s, t);
    var s', pc := Step(s, t), s.calls[t].pc;
    StepKeepsPrefix(s, t);
    LogAppended(s, t);
    StepKeepsSelf(s, t);
    forall u | u in s'.calls ensures Runs(s'.log, u) == if HasRun(s', u) then 1 else 0 {
      assert CallInv(s, u);
      RunOnce(s, t, u);
      if pc.FastBody? { RunsAppend(s.log, Ran(t, false), u); }
      if pc.Body? { RunsAppend(s.log, Ran(pc.curr, true), u); }
    }
    forall u | u !in s'.calls ensures Runs(s'.log, u) == 0 {
      if pc.FastBody? { RunsAppend(s.log, Ran(t, false), u); }
      if pc.Body? { RunsAppend(s.log, Ran(pc.curr, true), u); }
    }
  }

  lemma NearKeys(s: State, t: nat)
    requires Near(s, t)
    ensures t in s.calls && Accessed(s, t) <= s.calls.Keys
    ensures s.calls[t].pc.Body? ==> s.calls[t].pc.curr in s.calls
  {}

  lemma OrderGrows(s: State, t: nat)
    requires t in s.calls && Accessed(s, t) <= s.calls.Keys
    ensures Step(s, t).order == if s.calls[t].pc.Exchange? then s.order + [t] else s.order
  {
    if !Unqueued(s.calls[t].pc) { PlaceFixed(s, t, t); }
  }

  lemma SpawnKeepsLog(s: State, t: nat)
    requires Inv(s) && t > 0 && t !in s.calls
    ensures LogInv(Spawn(s, t))
  {
    var s' := Spawn(s, t);
    assert LockInv(s);
    assert RanCount(s') == RanCount(s);
    forall u | u in s'.calls ensures Runs(s'.log, u) == if HasRun(s', u) then 1 else 0 {}
  }

  // ----- runs

  /** A run: any number of calls start and take steps in any order. */
  ghost predicate IsRun(run: seq<State>) {
    && |run| > 0 && run[0] == Init
    && forall i :: 0 <= i < |run| - 1 ==> Next(run[i], run[i + 1])
  }

  lemma NextKeepsInv(s: State, s': State)
    requires Inv(s) && Next(s, s')
    ensures Inv(s')
  {
    hide Step, OrderInv, CallInv, RanCount, Near, LockInv, LogInv;
    if t :| t in s.calls && Accessed(s, t) <= s.calls.Keys && s' == Step(s, t) {
      InvNear(s, t);
      StepKeepsQueue(s, t);
      StepKeepsLog(s, t);
    } else {
      var t :| t > 0 && t !in s.calls && s' == Spawn(s, t);
      SpawnKeeps(s, t);
      SpawnKeepsLog(s, t);
    }
  }

  lemma {:induction false} RunKeepsInv(run: seq<State>, i: nat)
    requires IsRun(run) && i < |run|
    ensures Inv(run[i])
  {
    if i > 0 {
      RunKeepsInv(run, i - 1);
      NextKeepsInv(run[i - 1], run[i]);
    }
  }

  predicate InThunk(c: Call) {
    c.pc.FastBody? || c.pc.Body?
  }

  /** At most one thunk executes at any time. */
  lemma MutualExclusion(run: seq<State>, i: nat, a: nat, b: nat)
    requires IsRun(run) && i < |run|
    requires a in run[i].calls && b in run[i].calls && InThunk(run[i].calls[a]) && InThunk(run[i].calls[b])
    ensures a == b
  {
    RunKeepsInv(run, i);
    assert CallInv(run[i], a) && CallInv(run[i], b);
  }

  /** Queued thunks finish in the order in which their calls exchanged `last`. */
  lemma QueueOrder(run: seq<State>, i: nat)
    requires IsRun(run) && i < |run|
    ensures QueuedIds(run[i].log) <= run[i].order
  {
    RunKeepsInv(run, i);
  }

  /** No thunk runs twice, and a call returns only after its own thunk has run. */
  lemma ExactlyOnce(run: seq<State>, i: nat, t: nat)
    requires IsRun(run) && i < |run|
    ensures Runs(run[i].log, t) <= 1
    ensures t in run[i].calls && run[i].calls[t].pc.Returned? ==> Runs(run[i].log, t) == 1
  {
    RunKeepsInv(run, i);
    if t in run[i].calls { assert CallInv(run[i], t); }
  }

  /** Steps only touch nodes whose owner has not returned. */
  lemma NoUseAfterReturn(run: seq<State>, i: nat, t: nat, x: nat)
    requires IsRun(run) && i < |run| && t in run[i].calls && x in Accessed(run[i], t)
    ensures x in run[i].calls && !run[i].calls[x].pc.Returned?
  {
    RunKeepsInv(run, i);
    var s := run[i];
    InvNear(s, t);
    assert CallInv(s, x);
  }

  /** Once a node is marked done, only its owner looks at it, and nobody is
      still about to write its `next`. */
  lemma DoneIsFinal(run: seq<State>, i: nat, t: nat, x: nat)
    requires IsRun(run) && i < |run| && x in run[i].calls && run[i].calls[x].status == Done
    requires t in run[i].calls && t != x
    ensures x !in Accessed(run[i], t) && run[i].calls[t].pc != Link(x)
  {
    RunKeepsInv(run, i);
    var s := run[i];
    InvNear(s, t);
    assert CallInv(s, x);
  }

  /** The lock never gets stuck: while some call has not returned, some call can
      take a step that is not a spin. */
  lemma NeverStuck(run: seq<State>, i: nat, t: nat)
    requires IsRun(run) && i < |run| && t in run[i].calls && !run[i].calls[t].pc.Returned?
    ensures exists u ::
      && u in run[i].calls && Accessed(run[i], u) <= run[i].calls.Keys
      && Moves(run[i], u) && Step(run[i], u) != run[i]
  {
    RunKeepsInv(run, i);
    var u := Mover(run[i], t);
    assert Moves(run[i], u) && Step(run[i], u) != run[i];
  }

  /** The next step of `t` is not a spin. */
  predicate Moves(s: State, t: nat) {
    t in s.calls && match s.calls[t].pc
    case Wait => s.calls[t].status != Waiting
    case SpinFlag => !s.flag
    case SpinLoad => !s.flag
    case AwaitNext(c) => c in s.calls && s.calls[c].next != 0
    case Returned => false
    case _ => true
  }

  lemma MovesChange(s: State, t: nat)
    requires Moves(s, t) && Accessed(s, t) <= s.calls.Keys
    ensures Step(s, t) != s
  {
    var pc := s.calls[t].pc;
    if Unqueued(pc) { assert t in StepEntering(s, t).calls && StepEntering(s, t).calls[t].pc != pc; }
    else if Queueing(pc) { assert t in StepQueueing(s, t).calls && StepQueueing(s, t).calls[t].pc != pc; }
    else if Working(pc) { assert t in StepWorking(s, t).calls && StepWorking(s, t).calls[t].pc != pc; }
    else if Advancing(pc) { assert t in StepAdvancing(s, t).calls && StepAdvancing(s, t).calls[t].pc != pc; }
    else { assert t in StepEnding(s, t).calls && StepEnding(s, t).calls[t].pc != pc; }
  }

  /** The holder, or the call it waits for, can move. */
  lemma HolderMoves(s: State) returns (u: nat)
    requires QueueInv(s) && s.holder != 0
    ensures Moves(s, u)
  {
    u := s.holder;
    InvNear(s, u);
    var pc := s.calls[u].pc;
    if pc.AwaitNext? && s.calls[pc.curr].next == 0 {
      u := s.order[s.head + 1];
    }
  }

  lemma Mover(s: State, t: nat) returns (u: nat)
    requires QueueInv(s) && t in s.calls && !s.calls[t].pc.Returned?
    ensures Moves(s, u) && Accessed(s, u) <= s.calls.Keys && Step(s, u) != s
  {
    if s.holder != 0 {
      u := HolderMoves(s);
    } else {
      InvNear(s, t);
      if Moves(s, t) {
        u := t;
      } else if s.calls[t].pos >= s.head {
        u := s.order[s.head];
      } else {
        u := s.calls[t].finisher;
      }
    }
    AccessDefined(s, u);
    MovesChange(s, u);
  }
}
