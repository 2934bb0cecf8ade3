/** `FreeListMPSCQ`: many producers append chains of messages with one exchange
    each, one consumer takes messages off the front.

    One atomic access per step, sequentially consistent.  Messages are node
    addresses, 0 is null.  A message that has been delivered belongs to the
    consumer, and may be enqueued again. */
module MpscQueue {
  import opened Lists

  datatype ProducerPc =
    | StoreNull          // last->next = null
    | Exchange           // back.exchange(last)
    | Link(prev: nat)    // prev->next = first
    | SetFront           // front = first
    | Finished

  /** An `enqueue` in progress; `pos` is where its messages went in the order
      of exchanges (bookkeeping that no step reads). */
  datatype Producer = Producer(pc: ProducerPc, msgs: seq<nat>, pos: nat)

  datatype ConsumerPc =
    | Idle                                   // load front
    | LoadBack(curr: nat)
    | ReadNext(curr: nat, b: nat)            // unless curr is the bound b
    | Deliver(curr: nat, n: nat, b: nat)     // cb(curr)
    | StoreFront(curr: nat)

  /** Where a node is: nobody's, in a chain being prepared, or in the queue. */
  datatype Place = Free | Prepared(producer: nat) | Queued(index: nat)

  /** The last four fields are history and bookkeeping: messages in the order of
      the exchanges, messages in the order of delivery, for each position of
      `order` the producer that has still to link it in (0 when done), and the
      place of each node.  `bound` is the position of the consumer's bound. */
  datatype State = State(
    back: nat,
    front: nat,
    next: map<nat, nat>,
    producers: map<nat, Producer>,
    consumer: ConsumerPc,
    order: seq<nat>,
    delivered: seq<nat>,
    linker: seq<nat>,
    place: map<nat, Place>,
    bound: nat)

  datatype Action =
    | Begin(p: nat, msgs: seq<nat>, stale: nat)
    | Produce(p: nat)
    | Consume(stop: bool)
    | Destroy            // by the owner, while nobody else uses the queue

  ghost predicate IsInit(s: State) {
    && s.back == 0 && s.front == 0 && s.producers == map[] && s.consumer == Idle
    && s.order == [] && s.delivered == [] && s.linker == [] && s.bound == 0
    && 0 !in s.place && s.place.Keys == s.next.Keys
    && forall x :: x in s.place ==> s.place[x] == Free
  }

  // ----- steps

  ghost predicate Enabled(s: State, a: Action) {
    match a
    case Begin(p, msgs, _) =>
      && p > 0 && p !in s.producers && |msgs| > 0 && Distinct(msgs)
      && forall x :: x in msgs ==> x in s.place && s.place[x] == Free
    case Produce(p) =>
      && p in s.producers && |s.producers[p].msgs| > 0
      && (s.producers[p].pc.Link? ==> s.producers[p].pc.prev in s.next)
    case Consume(_) => s.consumer.ReadNext? ==> s.consumer.curr in s.next
    case Destroy => s.consumer.Idle? && Quiet(s)
  }

  /** No append is under way. */
  ghost predicate Quiet(s: State) {
    forall p :: p in s.producers ==> s.producers[p].pc == Finished
  }

  function SetPc(s: State, p: nat, pc: ProducerPc): State
    requires p in s.producers
  {
    s.(producers := s.producers[p := s.producers[p].(pc := pc)])
  }

  function Produced(s: State, p: nat): State
    requires p in s.producers && |s.producers[p].msgs| > 0
  {
    var me := s.producers[p];
    var first, last := me.msgs[0], me.msgs[|me.msgs| - 1];
    match me.pc
    case StoreNull => SetPc(s.(next := s.next[last := 0]), p, Exchange)
    case Exchange =>
      var n := |s.order|;
      s.(back := last,
         producers := s.producers[p := me.(pc := if s.back == 0 then SetFront else Link(s.back), pos := n)],
         order := s.order + me.msgs,
         linker := s.linker + [p] + seq(|me.msgs| - 1, _ => 0),
         place := map x | x in s.place :: if x in me.msgs then Queued(n + IndexOf(me.msgs, x)) else s.place[x])
    case Link(prev) => Linked(SetPc(s.(next := s.next[prev := first]), p, Finished), me.pos)
    case SetFront => Linked(SetPc(s.(front := first), p, Finished), me.pos)
    case Finished => s
  }

  function Linked(s: State, pos: nat): State {
    if pos < |s.linker| then s.(linker := s.linker[pos := 0]) else s
  }

  /** `dequeue`; the callback may ask to stop after a message. */
  function Consumed(s: State, stop: bool): State {
    match s.consumer
    case Idle => if s.front == 0 then s else s.(consumer := LoadBack(s.front))
    case LoadBack(curr) => s.(consumer := ReadNext(curr, s.back), bound := |s.order| - if |s.order| == 0 then 0 else 1)
    case ReadNext(curr, b) =>
      if curr == b || curr !in s.next || s.next[curr] == 0 then s.(consumer := StoreFront(curr))
      else s.(consumer := Deliver(curr, s.next[curr], b))
    case Deliver(curr, n, b) =>
      s.(consumer := if stop then StoreFront(n) else ReadNext(n, b),
         delivered := s.delivered + [curr],
         place := if curr in s.place then s.place[curr := Free] else s.place)
    case StoreFront(curr) => s.(front := curr, consumer := Idle)
  }

  /** `destroy`: both ends are reset and the messages handed out are nobody's.  The
      history starts again. */
  function Destroyed(s: State): State {
    if s.back == 0 then s
    else
      s.(back := 0, front := 0, order := [], delivered := [], linker := [], bound := 0,
         place := map x | x in s.place :: if s.place[x].Queued? then Free else s.place[x])
  }

  /** What `destroy` returns. */
  function DestroyResult(s: State): nat { if s.back == 0 then 0 else s.front }

  function Apply(s: State, a: Action): State
    requires a.Begin? ==> |a.msgs| > 0
    requires a.Produce? ==> a.p in s.producers && |s.producers[a.p].msgs| > 0
  {
    match a
    case Begin(p, msgs, stale) =>
      s.(producers := s.producers[p := Producer(StoreNull, msgs, 0)],
         next := Chain(s.next, msgs, stale),
         place := map x | x in s.place :: if x in msgs then Prepared(p) else s.place[x])
    case Produce(p) => Produced(s, p)
    case Consume(stop) => Consumed(s, stop)
    case Destroy => Destroyed(s)
  }

  ghost predicate Next(s: State, s': State) {
    exists a :: Enabled(s, a) && s' == Apply(s, a)
  }

  // ----- invariant

  /** Position `i` of the order holds a message that is still in the queue. */
  ghost predicate SlotInv(s: State, i: nat)
    requires i < |s.order| == |s.linker|
  {
    var x := s.order[i];
    && x in s.place && s.place[x] == Queued(i) && x in s.next
    && (i == |s.order| - 1 ==> s.next[x] == 0)
    && (i < |s.order| - 1 ==> s.next[x] == if s.linker[i + 1] == 0 then s.order[i + 1] else 0)
    && (s.linker[i] != 0 ==>
          var p := s.linker[i];
          && p in s.producers && s.producers[p].pos == i
          && if i == 0 then s.producers[p].pc == SetFront else s.producers[p].pc == Link(s.order[i - 1]))
  }

  ghost predicate ProducerInv(s: State, p: nat)
    requires p in s.producers && |s.order| == |s.linker|
  {
    var me := s.producers[p];
    var n := |me.msgs|;
    && p > 0 && n > 0 && Distinct(me.msgs)
    && (me.pc.StoreNull? || me.pc.Exchange? ==>
          && (forall j :: 0 <= j < n ==> me.msgs[j] in s.place && s.place[me.msgs[j]] == Prepared(p) && me.msgs[j] in s.next)
          && (forall j :: 0 <= j < n - 1 ==> s.next[me.msgs[j]] == me.msgs[j + 1])
          && (me.pc.Exchange? ==> s.next[me.msgs[n - 1]] == 0))
    && (me.pc.Link? ==>
          && |s.delivered| < me.pos < |s.order| && s.linker[me.pos] == p
          && s.order[me.pos] == me.msgs[0] && s.order[me.pos - 1] == me.pc.prev)
    && (me.pc.SetFront? ==>
          me.pos == 0 < |s.order| && s.linker[0] == p && s.order[0] == me.msgs[0])
  }

  ghost predicate EndsInv(s: State) {
    && |s.linker| == |s.order|
    && 0 !in s.place && s.place.Keys == s.next.Keys
    && (forall x :: x in s.place && s.place[x].Queued? ==>
          |s.delivered| <= s.place[x].index < |s.order| && s.order[s.place[x].index] == x)
    && (if s.order == [] then s.back == 0 && |s.delivered| == 0
        else s.back == s.order[|s.order| - 1] && |s.delivered| < |s.order|)
    && s.delivered == s.order[..|s.delivered|]
  }

  ghost predicate ConsumerInv(s: State)
    requires |s.linker| == |s.order| && (s.order == [] || |s.delivered| < |s.order|)
  {
    var d := |s.delivered|;
    && (s.front == 0 ==> d == 0 && s.consumer.Idle? && (s.order == [] || s.linker[0] != 0))
    && (s.front != 0 ==>
          && |s.order| > 0 && s.linker[0] == 0
          && match s.consumer
             case Idle => s.front == s.order[d]
             case LoadBack(curr) => curr == s.order[d]
             case ReadNext(curr, b) => curr == s.order[d] && d <= s.bound < |s.order| && b == s.order[s.bound]
             case Deliver(curr, n, b) =>
               && curr == s.order[d] && d < s.bound < |s.order| && b == s.order[s.bound]
               && s.linker[d + 1] == 0 && n == s.order[d + 1]
             case StoreFront(curr) => curr == s.order[d])
  }

  ghost predicate Inv(s: State) {
    && EndsInv(s)
    && ConsumerInv(s)
    && (forall i :: |s.delivered| <= i < |s.order| ==> SlotInv(s, i))
    && (forall p :: p in s.producers ==> ProducerInv(s, p))
  }

  // ----- every action keeps it

  lemma BeginKeepsProducer(s: State, p: nat, msgs: seq<nat>, stale: nat, q: nat)
    requires EndsInv(s) && Enabled(s, Begin(p, msgs, stale)) && q in Apply(s, Begin(p, msgs, stale)).producers
    requires q != p ==> ProducerInv(s, q)
    ensures ProducerInv(Apply(s, Begin(p, msgs, stale)), q)
  { hide ConsumerInv; }

  lemma BeginKeeps(s: State, p: nat, msgs: seq<nat>, stale: nat)
    requires Inv(s) && Enabled(s, Begin(p, msgs, stale))
    ensures Inv(Apply(s, Begin(p, msgs, stale)))
  {
    hide ProducerInv;
    var s' := Apply(s, Begin(p, msgs, stale));
    forall i | |s'.delivered| <= i < |s'.order| ensures SlotInv(s', i) { assert SlotInv(s, i); }
    forall q | q in s'.producers ensures ProducerInv(s', q) { BeginKeepsProducer(s, p, msgs, stale, q); }
  }

  /** A step of producer `p` that is in place to be taken. */
  ghost predicate Ready(s: State, p: nat) {
    && EndsInv(s) && ConsumerInv(s)
    && p in s.producers && ProducerInv(s, p)
    && (s.producers[p].pc.Link? ==> SlotInv(s, s.producers[p].pos - 1))
    && (s.producers[p].pc.SetFront? ==> |s.delivered| == 0 && SlotInv(s, 0))
    && (s.order != [] ==> SlotInv(s, |s.order| - 1))
  }

  lemma InvReady(s: State, p: nat)
    requires Inv(s) && p in s.producers
    ensures Ready(s, p)
  {
    assert ProducerInv(s, p);
    if s.producers[p].pc.Link? { assert SlotInv(s, s.producers[p].pos - 1); }
    if s.order != [] { assert SlotInv(s, |s.order| - 1); }
  }

  lemma StoreKeepsSlot(s: State, p: nat, i: nat)
    requires Ready(s, p) && !s.producers[p].pc.Exchange?
    requires |s.delivered| <= i < |s.order| && SlotInv(s, i)
    ensures SlotInv(Produced(s, p), i)
  {}

  lemma StoreKeepsProducer(s: State, p: nat, q: nat)
    requires Ready(s, p) && !s.producers[p].pc.Exchange?
    requires q in s.producers && ProducerInv(s, q)
    ensures q in Produced(s, p).producers && ProducerInv(Produced(s, p), q)
  {
    if q != p { StoreKeepsOther(s, p, q); } else { StoreKeepsOwn(s, p); }
  }

  lemma StoreKeepsOther(s: State, p: nat, q: nat)
    requires Ready(s, p) && !s.producers[p].pc.Exchange?
    requires q in s.producers && ProducerInv(s, q) && q != p
    ensures q in Produced(s, p).producers && ProducerInv(Produced(s, p), q)
  {
    hide ConsumerInv, Distinct;
    assert Produced(s, p).producers[q] == s.producers[q];
    assert Produced(s, p).order == s.order && Produced(s, p).place == s.place;
  }

  lemma StoreKeepsOwn(s: State, p: nat)
    requires Ready(s, p) && !s.producers[p].pc.Exchange?
    ensures ProducerInv(Produced(s, p), p)
  {
    hide ConsumerInv, SlotInv;
  }

  lemma StoreKeepsEnds(s: State, p: nat)
    requires Ready(s, p) && !s.producers[p].pc.Exchange?
    ensures EndsInv(Produced(s, p)) && ConsumerInv(Produced(s, p))
    ensures Produced(s, p).producers.Keys == s.producers.Keys
  {
    var s' := Produced(s, p);
    assert s'.producers.Keys == s.producers.Keys;
    assert EndsInv(s') by { hide ConsumerInv, SlotInv, Distinct; }
    hide SlotInv, Distinct;
  }

  lemma ExchangeKeepsOldSlot(s: State, p: nat, i: nat)
    requires Ready(s, p) && s.producers[p].pc.Exchange?
    requires |s.delivered| <= i < |s.order| && SlotInv(s, i)
    ensures |Produced(s, p).order| == |Produced(s, p).linker| == |s.order| + |s.producers[p].msgs|
    ensures SlotInv(Produced(s, p), i)
  {
    hide ConsumerInv;
    var s', me := Produced(s, p), s.producers[p];
    assert s'.order[i] == s.order[i] && s'.linker[i] == s.linker[i];
    assert s.order[i] !in me.msgs;
  }

  lemma ExchangeMakesSlot(s: State, p: nat, i: nat)
    requires Ready(s, p) && s.producers[p].pc.Exchange?
    requires |s.order| <= i < |s.order| + |s.producers[p].msgs|
    ensures |Produced(s, p).order| == |Produced(s, p).linker| == |s.order| + |s.producers[p].msgs|
    ensures SlotInv(Produced(s, p), i)
  {
    hide ConsumerInv;
    var s', me, n := Produced(s, p), s.producers[p], |s.order|;
    assert s'.order[i] == me.msgs[i - n];
    assert IndexOf(me.msgs, me.msgs[i - n]) == i - n;
  }

  lemma ExchangeKeepsProducer(s: State, p: nat, q: nat)
    requires Ready(s, p) && s.producers[p].pc.Exchange?
    requires q in s.producers && ProducerInv(s, q)
    ensures |Produced(s, p).order| == |Produced(s, p).linker|
    ensures q in Produced(s, p).producers && ProducerInv(Produced(s, p), q)
  {
    if q != p && (s.producers[q].pc.StoreNull? || s.producers[q].pc.Exchange?) {
      forall j | 0 <= j < |s.producers[q].msgs| ensures s.producers[q].msgs[j] !in s.producers[p].msgs {}
    }
  }

  lemma ExchangeKeepsEnds(s: State, p: nat)
    requires Ready(s, p) && s.producers[p].pc.Exchange?
    ensures EndsInv(Produced(s, p)) && ConsumerInv(Produced(s, p))
    ensures Produced(s, p).producers.Keys == s.producers.Keys
  {
    ExchangeKeepsEndsOnly(s, p);
    ExchangeKeepsConsumer(s, p);
    hide EndsInv, ConsumerInv, Ready;
  }

  lemma ExchangeKeepsEndsOnly(s: State, p: nat)
    requires Ready(s, p) && s.producers[p].pc.Exchange?
    ensures EndsInv(Produced(s, p))
  {
    var s' := Produced(s, p);
    ExchangeKeepsBack(s, p);
    forall x | x in s'.place && s'.place[x].Queued?
      ensures |s'.delivered| <= s'.place[x].index < |s'.order| && s'.order[s'.place[x].index] == x
    {
      ExchangeKeepsPlace(s, p, x);
    }
    hide Produced, Ready;
  }

  lemma ExchangeKeepsBack(s: State, p: nat)
    requires Ready(s, p) && s.producers[p].pc.Exchange?
    ensures var s' := Produced(s, p);
      && |s'.linker| == |s'.order| && 0 !in s'.place && s'.place.Keys == s.place.Keys == s'.next.Keys
      && s'.order != [] && s'.back == s'.order[|s'.order| - 1] && |s'.delivered| < |s'.order|
      && s'.delivered == s'.order[..|s'.delivered|]
  {
    hide ConsumerInv, SlotInv, IndexOf, Distinct;
    var s' := Produced(s, p);
    assert s'.order[..|s.delivered|] == s.order[..|s.delivered|];
  }

  lemma ExchangeKeepsPlace(s: State, p: nat, x: nat)
    requires Ready(s, p) && s.producers[p].pc.Exchange? && x in s.place && Produced(s, p).place[x].Queued?
    ensures var s' := Produced(s, p); |s'.delivered| <= s'.place[x].index < |s'.order| && s'.order[s'.place[x].index] == x
  {
    hide ConsumerInv, SlotInv, ProducerInv;
  }

  lemma ExchangeKeepsConsumer(s: State, p: nat)
    requires Ready(s, p) && s.producers[p].pc.Exchange? && EndsInv(Produced(s, p))
    ensures ConsumerInv(Produced(s, p))
  {
    hide SlotInv, Distinct;
  }

  lemma ExchangeKeeps(s: State, p: nat)
    requires Inv(s) && Ready(s, p) && s.producers[p].pc.Exchange?
    ensures Inv(Produced(s, p))
  {
    hide ProducerInv, SlotInv, EndsInv, ConsumerInv, Produced, Ready;
    ReadySize(s, p);
    var s' := Produced(s, p);
    ExchangeKeepsEnds(s, p);
    ExchangeKeepsSize(s, p);
    forall i | |s'.delivered| <= i < |s'.order| ensures SlotInv(s', i) {
      if i < |s.order| { ExchangeKeepsOldSlot(s, p, i); } else { ExchangeMakesSlot(s, p, i); }
    }
    forall q | q in s'.producers ensures ProducerInv(s', q) { ExchangeKeepsProducer(s, p, q); }
  }

  lemma StoreKeeps(s: State, p: nat)
    requires Inv(s) && Ready(s, p) && !s.producers[p].pc.Exchange?
    ensures Inv(Produced(s, p))
  {
    hide ProducerInv, SlotInv, EndsInv, ConsumerInv, Produced, Ready;
    ReadySize(s, p);
    var s' := Produced(s, p);
    StoreKeepsEnds(s, p);
    StoreKeepsSize(s, p);
    forall i | |s'.delivered| <= i < |s'.order| ensures SlotInv(s', i) { StoreKeepsSlot(s, p, i); }
    forall q | q in s'.producers ensures ProducerInv(s', q) { StoreKeepsProducer(s, p, q); }
  }

  lemma ReadySize(s: State, p: nat)
    requires Ready(s, p)
    ensures p in s.producers && |s.producers[p].msgs| > 0 && |s.linker| == |s.order|
  {}

  lemma ExchangeKeepsSize(s: State, p: nat)
    requires Ready(s, p) && s.producers[p].pc.Exchange?
    ensures |Produced(s, p).linker| == |Produced(s, p).order| == |s.order| + |s.producers[p].msgs|
    ensures Produced(s, p).delivered == s.delivered
  {}

  lemma StoreKeepsSize(s: State, p: nat)
    requires Ready(s, p) && !s.producers[p].pc.Exchange?
    ensures |Produced(s, p).linker| == |Produced(s, p).order| && Produced(s, p).order == s.order
    ensures Produced(s, p).delivered == s.delivered
  {}

  /** The consumer's next step touches only the first two messages in the queue. */
  ghost predicate ConsumerReady(s: State) {
    && EndsInv(s) && ConsumerInv(s)
    && (|s.delivered| < |s.order| ==> SlotInv(s, |s.delivered|))
    && (|s.delivered| + 1 < |s.order| ==> SlotInv(s, |s.delivered| + 1))
  }

  lemma ConsumeKeepsSlot(s: State, stop: bool, i: nat)
    requires ConsumerReady(s) && |Consumed(s, stop).delivered| <= i < |s.order| && SlotInv(s, i)
    ensures |Consumed(s, stop).linker| == |s.order| && SlotInv(Consumed(s, stop), i)
  {
    var s' := Consumed(s, stop);
    ConsumeKeepsSize(s, stop);
    if s.consumer.Deliver? { OtherPlace(s, stop, i); }
    SlotFrame(s, s', i);
  }

  lemma OtherPlace(s: State, stop: bool, i: nat)
    requires ConsumerReady(s) && s.consumer.Deliver? && |s.delivered| < i < |s.order| && SlotInv(s, i)
    ensures s.order[i] in Consumed(s, stop).place && Consumed(s, stop).place[s.order[i]] == s.place[s.order[i]]
  {
    assert SlotInv(s, |s.delivered|);
  }

  /** A slot depends on the message, its link and its producer. */
  lemma SlotFrame(s: State, s': State, i: nat)
    requires i < |s.order| == |s.linker| && SlotInv(s, i)
    requires s'.order == s.order && s'.linker == s.linker && s'.next == s.next && s'.producers == s.producers
    requires s.order[i] in s'.place && s'.place[s.order[i]] == s.place[s.order[i]]
    ensures SlotInv(s', i)
  {}

  lemma ConsumeKeepsProducer(s: State, stop: bool, q: nat)
    requires ConsumerReady(s) && q in s.producers && ProducerInv(s, q)
    ensures q in Consumed(s, stop).producers && ProducerInv(Consumed(s, stop), q)
  {
    ConsumeKeepsSize(s, stop);
    if s.consumer.Deliver? {
      DeliverKeepsProducer(s, stop, q);
    } else {
      assert Consumed(s, stop).place == s.place && Consumed(s, stop).next == s.next && Consumed(s, stop).delivered == s.delivered;
      hide Consumed, Distinct, SlotInv, EndsInv, ConsumerInv;
    }
  }

  lemma DeliverKeepsProducer(s: State, stop: bool, q: nat)
    requires ConsumerReady(s) && q in s.producers && ProducerInv(s, q) && s.consumer.Deliver?
    ensures ProducerInv(Consumed(s, stop), q)
  {
    var curr := s.consumer.curr;
    assert s.place[curr] == Queued(|s.delivered|);
    hide SlotInv;
  }

  lemma ConsumeKeepsEnds(s: State, stop: bool)
    requires ConsumerReady(s)
    ensures EndsInv(Consumed(s, stop))
  {
    var s' := Consumed(s, stop);
    if s.consumer.Deliver? {
      DeliverKeepsEnds(s, stop);
    } else {
      assert s'.place == s.place && s'.next == s.next && s'.delivered == s.delivered && s'.order == s.order;
      assert s'.linker == s.linker && s'.back == s.back;
      hide Consumed, SlotInv, ConsumerInv;
    }
  }

  lemma DeliverKeepsEnds(s: State, stop: bool)
    requires ConsumerReady(s) && s.consumer.Deliver?
    ensures EndsInv(Consumed(s, stop))
  {
    var d, s' := |s.delivered|, Consumed(s, stop);
    assert s.order[..d + 1] == s.order[..d] + [s.order[d]];
    assert s'.place.Keys == s.place.Keys;
  }

  lemma ConsumeKeepsConsumer(s: State, stop: bool)
    requires ConsumerReady(s) && EndsInv(Consumed(s, stop))
    ensures ConsumerInv(Consumed(s, stop))
  {
    if s.consumer.Deliver? { DeliverKeepsConsumer(s, stop); }
  }

  lemma DeliverKeepsConsumer(s: State, stop: bool)
    requires ConsumerReady(s) && EndsInv(Consumed(s, stop)) && s.consumer.Deliver?
    ensures ConsumerInv(Consumed(s, stop))
  {
    hide SlotInv;
  }

  lemma ConsumeKeepsSize(s: State, stop: bool)
    ensures Consumed(s, stop).linker == s.linker && Consumed(s, stop).order == s.order && Consumed(s, stop).producers == s.producers
    ensures |s.delivered| <= |Consumed(s, stop).delivered| && Consumed(s, stop).next == s.next
    ensures !s.consumer.Deliver? ==> Consumed(s, stop).place == s.place
  {}

  lemma ConsumeKeeps(s: State, stop: bool)
    requires Inv(s)
    ensures Inv(Consumed(s, stop))
  {
    assert ConsumerReady(s) by {
      if |s.delivered| < |s.order| { assert SlotInv(s, |s.delivered|); }
      if |s.delivered| + 1 < |s.order| { assert SlotInv(s, |s.delivered| + 1); }
    }
    hide ProducerInv, SlotInv, EndsInv, ConsumerInv, Consumed, ConsumerReady;
    ConsumeKeepsSize(s, stop);
    ConsumeKeepsEnds(s, stop);
    ConsumeKeepsConsumer(s, stop);
    var s' := Consumed(s, stop);
    forall i | |s'.delivered| <= i < |s'.order| ensures SlotInv(s', i) { ConsumeKeepsSlot(s, stop, i); }
    forall q | q in s'.producers ensures ProducerInv(s', q) { ConsumeKeepsProducer(s, stop, q); }
  }

  lemma DestroyKeeps(s: State)
    requires Inv(s) && Enabled(s, Destroy)
    ensures Inv(Destroyed(s))
  {
    hide Distinct;
    var s' := Destroyed(s);
    if s.back != 0 {
      assert s'.place.Keys == s.place.Keys;
      forall p | p in s'.producers ensures ProducerInv(s', p) { assert ProducerInv(s, p); }
    }
  }

  // ----- runs

  ghost predicate IsRun(run: seq<State>) {
    && |run| > 0 && IsInit(run[0])
    && forall i :: 0 <= i < |run| - 1 ==> Next(run[i], run[i + 1])
  }

  lemma NextKeepsInv(s: State, s': State)
    requires Inv(s) && Next(s, s')
    ensures Inv(s')
  {
    var a :| Enabled(s, a) && s' == Apply(s, a);
    hide ProducerInv, SlotInv, EndsInv, ConsumerInv, Produced, Consumed, Inv;
    match a
    case Begin(p, msgs, stale) => BeginKeeps(s, p, msgs, stale);
    case Produce(p) =>
      InvReady(s, p);
      if s.producers[p].pc.Exchange? { ExchangeKeeps(s, p); } else { StoreKeeps(s, p); }
    case Consume(stop) => ConsumeKeeps(s, stop);
    case Destroy => DestroyKeeps(s);
  }

  lemma {:induction false} RunKeepsInv(run: seq<State>, i: nat)
    requires IsRun(run) && i < |run|
    ensures Inv(run[i])
  {
    if i > 0 {
      RunKeepsInv(run, i - 1);
      NextKeepsInv(run[i - 1], run[i]);
    }
  }

  /** Messages are delivered in the order of the exchanges, none twice and none
      skipped.  Every message not yet delivered is still in the queue: it leads to
      the next one, unless the producer of that is about to write the link, and
      the last one is where `back` points. */
  lemma DeliveredInOrder(run: seq<State>, i: nat)
    requires IsRun(run) && i < |run|
    ensures run[i].delivered <= run[i].order
    ensures forall k :: |run[i].delivered| <= k < |run[i].order| ==> StillQueued(run[i], k)
  {
    RunKeepsInv(run, i);
    var s := run[i];
    forall k | |s.delivered| <= k < |s.order| ensures StillQueued(s, k) {
      assert SlotInv(s, k);
      if k + 1 < |s.order| { assert SlotInv(s, k + 1); }
    }
  }

  ghost predicate StillQueued(s: State, k: nat)
    requires k < |s.order|
  {
    var x := s.order[k];
    && x in s.next
    && (k + 1 < |s.order| ==> s.next[x] == s.order[k + 1] || (s.next[x] == 0 && AboutToLink(s, x)))
    && (k + 1 == |s.order| ==> s.next[x] == 0 && s.back == x)
  }

  ghost predicate AboutToLink(s: State, x: nat) {
    exists p :: p in s.producers && s.producers[p].pc == Link(x)
  }

  /** Between calls of `dequeue`, `front` is the first undelivered message, or
      null while the very first append is still under way. */
  lemma FrontIsFirstUndelivered(run: seq<State>, i: nat)
    requires IsRun(run) && i < |run| && run[i].consumer.Idle?
    ensures run[i].front != 0 ==>
      |run[i].delivered| < |run[i].order| && run[i].front == run[i].order[|run[i].delivered|]
    ensures run[i].front == 0 ==> run[i].delivered == []
    ensures run[i].front == 0 && run[i].order != [] ==>
      exists p :: p in run[i].producers && run[i].producers[p].pc.SetFront?
  {
    RunKeepsInv(run, i);
    if run[i].front == 0 && run[i].order != [] {
      assert SlotInv(run[i], 0);
    }
  }

  /** Nobody but the consumer moves a front that has been set. */
  lemma {:induction false} FrontStays(run: seq<State>, i: nat, j: nat)
    requires IsRun(run) && i <= j < |run|
    requires forall k :: i <= k <= j ==> run[k].consumer.Idle? && run[k].front != 0
    ensures run[j].front == run[i].front && run[j].delivered == run[i].delivered
    decreases j - i
  {
    hide Inv, Next;
    if i < j {
      FrontStays(run, i, j - 1);
      RunKeepsInv(run, j - 1);
      StepKeepsFront(run[j - 1], run[j]);
    }
  }

  lemma StepKeepsFront(s: State, s': State)
    requires Inv(s) && Next(s, s') && s.consumer.Idle? && s'.consumer.Idle? && s.front != 0 && s'.front != 0
    ensures s'.front == s.front && s'.delivered == s.delivered
  {
    var a :| Enabled(s, a) && s' == Apply(s, a);
    if a.Produce? { assert ProducerInv(s, a.p); }
  }

  /** `can_dequeue`, which reads `front` in state `i` and `back` in state `j`: with a
      front, it holds exactly if in `j` some message besides the last one is
      queued; without one, exactly if some message has been appended. */
  lemma CanDequeueMeansTwo(run: seq<State>, i: nat, j: nat)
    requires IsRun(run) && i <= j < |run|
    requires run[i].front != 0 ==> forall k :: i <= k <= j ==> run[k].consumer.Idle? && run[k].front != 0
    ensures run[i].front != 0 ==> (run[i].front != run[j].back <==> |run[j].order| - |run[j].delivered| >= 2)
    ensures run[i].front == 0 ==> (run[i].front != run[j].back <==> run[j].order != [])
  {
    RunKeepsInv(run, j);
    var s := run[j];
    if s.order != [] { assert SlotInv(s, |s.delivered|) && SlotInv(s, |s.order| - 1); }
    if run[i].front != 0 { FrontStays(run, i, j); }
  }

  /** Neither a producer's link nor the consumer's read touches a message that
      has been delivered. */
  lemma NoUseAfterDelivery(run: seq<State>, i: nat)
    requires IsRun(run) && i < |run|
    ensures forall p :: p in run[i].producers && run[i].producers[p].pc.Link? ==>
      var x := run[i].producers[p].pc.prev; x in run[i].place && run[i].place[x].Queued?
    ensures run[i].consumer.ReadNext? ==>
      run[i].consumer.curr in run[i].place && run[i].place[run[i].consumer.curr].Queued?
  {
    RunKeepsInv(run, i);
    var s := run[i];
    forall p | p in s.producers && s.producers[p].pc.Link?
      ensures var x := s.producers[p].pc.prev; x in s.place && s.place[x].Queued?
    {
      assert ProducerInv(s, p);
      assert SlotInv(s, s.producers[p].pos - 1);
    }
    if s.consumer.ReadNext? { assert SlotInv(s, |s.delivered|); }
  }

  /** `dequeue` stops short of its bound only when some producer has exchanged
      `back` but not yet written its link. */
  lemma ShortStopIsPendingLink(run: seq<State>, i: nat)
    requires IsRun(run) && i < |run| && run[i].consumer.ReadNext?
    requires run[i].consumer.curr != run[i].consumer.b
    ensures run[i].consumer.curr in run[i].next
    ensures run[i].next[run[i].consumer.curr] == 0 ==>
      exists p :: p in run[i].producers && run[i].producers[p].pc == Link(run[i].consumer.curr)
  {
    RunKeepsInv(run, i);
    var s := run[i];
    var d := |s.delivered|;
    assert SlotInv(s, d) && SlotInv(s, d + 1);
    assert s.linker[d + 1] != 0 ==> s.producers[s.linker[d + 1]].pc == Link(s.consumer.curr);
  }

  /** `destroy` returns the list of exactly the undelivered messages, in order,
      and leaves an empty queue in which they may be appended again. */
  lemma DestroyReturnsTheRest(run: seq<State>, i: nat)
    requires IsRun(run) && i < |run| && Enabled(run[i], Destroy)
    ensures |run[i].delivered| <= |run[i].order|
    ensures IsList(run[i].next, DestroyResult(run[i]), run[i].order[|run[i].delivered|..])
    ensures var s' := Apply(run[i], Destroy);
      && s'.front == s'.back == 0 && s'.order == [] && s'.next == run[i].next && s'.place.Keys == run[i].place.Keys
      && forall x :: x in s'.place ==> s'.place[x] == if run[i].place[x].Queued? then Free else run[i].place[x]
  {
    RunKeepsInv(run, i);
    var s := run[i];
    if s.order != [] {
      assert SlotInv(s, |s.order| - 1);
      FrontIsFirstUndelivered(run, i);
      ListFrom(s, |s.delivered|);
    } else {
      assert s.place == map x | x in s.place :: if s.place[x].Queued? then Free else s.place[x];
    }
  }

  lemma {:induction false} ListFrom(s: State, k: nat)
    requires Inv(s) && |s.delivered| <= k < |s.order|
    requires Quiet(s)
    ensures IsList(s.next, s.order[k], s.order[k..])
    decreases |s.order| - k
  {
    assert SlotInv(s, k);
    assert s.order[k..][1..] == s.order[k + 1..];
    if k + 1 < |s.order| {
      assert SlotInv(s, k + 1);
      ListFrom(s, k + 1);
    }
  }
}
