/** What a call of `dequeue` and a call of `enqueue` get done. */
module MpscDelivery {
  import opened Lists
  import opened MpscQueue

  /** The consumer gives up only at its bound, or where a producer has exchanged
      `back` and is about to write the link. */
  lemma StopsAtBoundOrLink(run: seq<State>, i: nat)
    requires IsRun(run) && i + 1 < |run| && run[i].consumer.ReadNext? && run[i + 1].consumer.StoreFront?
    ensures |run[i].delivered| == run[i].bound || AboutToLink(run[i], run[i].consumer.curr)
  {
    hide SlotInv, ProducerInv;
    var s := run[i];
    RunKeepsInv(run, i);
    assert Next(s, run[i + 1]);
    var a :| Enabled(s, a) && run[i + 1] == Apply(s, a);
    if |s.delivered| != s.bound { Gaps(s); }
  }

  /** Between the message at the front and the bound lies a link, or a producer about to write it. */
  lemma Gaps(s: State)
    requires Inv(s) && s.consumer.ReadNext? && |s.delivered| < s.bound
    ensures s.consumer.curr in s.next && s.consumer.curr != s.consumer.b
    ensures s.next[s.consumer.curr] == 0 ==> AboutToLink(s, s.consumer.curr)
  {
    var d := |s.delivered|;
    assert SlotInv(s, d) && SlotInv(s, d + 1) && SlotInv(s, s.bound);
    if s.linker[d + 1] != 0 { assert s.producers[s.linker[d + 1]].pc == Link(s.consumer.curr); }
  }

  // ----- an undisturbed dequeue

  /** The consumer alone, with a callback that never asks to stop. */
  function Consumes(s: State, n: nat): State {
    if n == 0 then s else Consumed(Consumes(s, n - 1), false)
  }

  /** Ready to read the link of message `d`, with everything before it delivered. */
  ghost predicate Reading(s: State, s0: State, d: nat) {
    && Inv(s) && Quiet(s) && d < |s0.order|
    && s.order == s0.order && s.delivered == s0.order[..d] && s.next == s0.next && s.back == s0.back
    && s.bound == |s.order| - 1 && s.consumer == ReadNext(s.order[d], s.back)
  }

  lemma Starts(s: State)
    requires Inv(s) && Quiet(s) && s.consumer.Idle? && s.front != 0
    ensures |s.delivered| < |s.order| && Reading(Consumes(s, 2), s, |s.delivered|)
  {
    hide ProducerInv, SlotInv;
    var s1 := Consumed(s, false);
    assert Consumes(s, 0) == s && Consumes(s, 1) == s1 && Consumes(s, 2) == Consumed(s1, false);
    ConsumeKeeps(s, false);
    ConsumeKeeps(s1, false);
  }

  /** One turn of the loop: a message is delivered. */
  lemma Delivers(s: State, s0: State, d: nat)
    requires Reading(s, s0, d) && d + 1 < |s0.order|
    ensures Reading(Consumed(Consumed(s, false), false), s0, d + 1)
  {
    hide ProducerInv;
    assert SlotInv(s, d) && SlotInv(s, d + 1) && SlotInv(s, |s.order| - 1);
    assert s.linker[d + 1] == 0;
    ConsumeKeeps(s, false);
    ConsumeKeeps(Consumed(s, false), false);
    assert s0.order[..d + 1] == s0.order[..d] + [s0.order[d]];
  }

  lemma {:induction false} DeliversAll(s: State, d: nat, k: nat)
    requires Inv(s) && Quiet(s) && s.consumer.Idle? && s.front != 0
    requires d == |s.delivered| && d + k < |s.order|
    ensures Reading(Consumes(s, 2 + 2 * k), s, d + k)
  {
    hide Reading, Inv, Consumed;
    if k == 0 {
      Starts(s);
    } else {
      DeliversAll(s, d, k - 1);
      var m := 2 + 2 * (k - 1);
      Delivers(Consumes(s, m), s, d + k - 1);
      TwoMore(s, m);
    }
  }

  lemma TwoMore(s: State, m: nat)
    ensures Consumes(s, m + 2) == Consumed(Consumed(Consumes(s, m), false), false)
  {
    assert Consumes(s, m + 2) == Consumed(Consumes(s, m + 1), false);
  }

  lemma Ends(s: State, s0: State)
    requires s0.order != [] && Reading(s, s0, |s0.order| - 1)
    ensures Consumed(Consumed(s, false), false) == s.(front := s0.back, consumer := Idle)
  {
    hide ProducerInv, SlotInv;
  }

  /** With no append under way, a `dequeue` whose callback never stops it delivers
      every message but the last, which stays as the front. */
  lemma DequeueDelivers(run: seq<State>, i: nat)
    requires IsRun(run) && i < |run| && Quiet(run[i]) && run[i].consumer.Idle? && run[i].front != 0
    ensures |run[i].delivered| < |run[i].order|
    ensures var s, s' := run[i], Consumes(run[i], 4 + 2 * (|run[i].order| - 1 - |run[i].delivered|));
      && s'.consumer.Idle? && s'.delivered == s.order[..|s.order| - 1]
      && s'.front == s.back == s.order[|s.order| - 1] && s'.back == s.back && s'.next == s.next && s'.order == s.order
  {
    hide ProducerInv, SlotInv, ConsumerInv, Consumed;
    var s := run[i];
    RunKeepsInv(run, i);
    Starts(s);
    var k := |s.order| - 1 - |s.delivered|;
    DeliversAll(s, |s.delivered|, k);
    Ends(Consumes(s, 2 + 2 * k), s);
    TwoMore(s, 2 + 2 * k);
  }

  /** A callback that asks to stop ends the `dequeue`: the message it was given is
      delivered, no other one, and the next message is the front. */
  lemma StopsWhenAsked(run: seq<State>, i: nat, later: bool)
    requires IsRun(run) && i < |run| && run[i].consumer.Deliver?
    ensures |run[i].delivered| + 1 < |run[i].order|
    ensures var s, s' := run[i], Consumed(Consumed(run[i], true), later);
      && s'.consumer.Idle? && s'.delivered == s.order[..|s.delivered| + 1] && s'.front == s.order[|s.delivered| + 1]
      && s'.next == s.next && s'.back == s.back && s'.order == s.order
  {
    hide SlotInv, ProducerInv;
    var s := run[i];
    RunKeepsInv(run, i);
    assert s.order[..|s.delivered| + 1] == s.order[..|s.delivered|] + [s.order[|s.delivered|]];
  }

  // ----- an enqueue

  function StepsLeft(pc: ProducerPc): nat {
    match pc
    case StoreNull => 3
    case Exchange => 2
    case Link(_) => 1
    case SetFront => 1
    case Finished => 0
  }

  /** An append takes three steps of its own, whatever the others do: each step is
      possible and brings it nearer to its end, and nobody else's step moves it. */
  lemma EnqueueFinishes(run: seq<State>, i: nat, p: nat, a: Action)
    requires IsRun(run) && i < |run| && p in run[i].producers
    ensures Enabled(run[i], Produce(p)) && StepsLeft(run[i].producers[p].pc) <= 3
    ensures var s' := Apply(run[i], Produce(p));
      p in s'.producers && (!run[i].producers[p].pc.Finished? ==> StepsLeft(s'.producers[p].pc) == StepsLeft(run[i].producers[p].pc) - 1)
    ensures Enabled(run[i], a) && a != Produce(p) ==>
      var s' := Apply(run[i], a); p in s'.producers && s'.producers[p] == run[i].producers[p]
  {
    hide Inv, Ready, Produced, Consumed, Destroyed, StepsLeft, Enabled;
    RunKeepsInv(run, i);
    InvReady(run[i], p);
    OwnStep(run[i], p);
    if Enabled(run[i], a) && a != Produce(p) { OtherStep(run[i], p, a); }
  }

  /** The state after an append that is not disturbed. */
  ghost predicate Appended(s: State, p: nat, msgs: seq<nat>, s': State)
    requires msgs != []
  {
    && p in s'.producers && s'.producers[p].pc.Finished?
    && s'.order == s.order + msgs && s'.back == msgs[|msgs| - 1] && s'.delivered == s.delivered
    && (s.order == [] ==> s'.front == msgs[0])
    && (s.order != [] ==> s'.front == s.front && s.back in s'.next && s'.next[s.back] == msgs[0])
    && (forall j :: 0 <= j < |msgs| ==> msgs[j] in s'.next && s'.next[msgs[j]] == if j + 1 < |msgs| then msgs[j + 1] else 0)
  }

  /** The chain is prepared and ends in null. */
  ghost predicate ChainReady(s: State, p: nat, msgs: seq<nat>, s': State)
    requires msgs != []
  {
    && s' == s.(producers := s'.producers, next := s'.next, place := s'.place)
    && p in s'.producers && s'.producers[p].msgs == msgs && s'.producers[p].pc.Exchange?
    && s'.next.Keys == s.next.Keys
    && (forall x :: x in s.next && x !in msgs ==> s'.next[x] == s.next[x])
    && (forall j :: 0 <= j < |msgs| ==> msgs[j] in s'.next && s'.next[msgs[j]] == if j + 1 < |msgs| then msgs[j + 1] else 0)
  }

  lemma Prepares(s: State, p: nat, msgs: seq<nat>, stale: nat)
    requires Inv(s) && Enabled(s, Begin(p, msgs, stale))
    ensures var s1 := Apply(s, Begin(p, msgs, stale));
      p in s1.producers && |s1.producers[p].msgs| > 0 && ChainReady(s, p, msgs, Produced(s1, p))
  {
    hide SlotInv, ProducerInv, ConsumerInv;
    forall j | 0 <= j < |msgs| ensures IndexOf(msgs, msgs[j]) == j {}
  }

  lemma Exchanges(s: State, p: nat, msgs: seq<nat>, s2: State)
    requires msgs != [] && ChainReady(s, p, msgs, s2)
    requires if s.order == [] then s.back == 0 else s.back != 0 && s.back in s.next && s.back !in msgs
    ensures var s3 := Produced(s2, p);
      p in s3.producers && |s3.producers[p].msgs| > 0 && Appended(s, p, msgs, Produced(s3, p))
  {
    hide IndexOf;
  }

  /** Undisturbed, an append puts its messages last, in order, and links them to the
      message that was the last before. */
  lemma EnqueueAppends(run: seq<State>, i: nat, p: nat, msgs: seq<nat>, stale: nat) returns (s': State)
    requires IsRun(run) && i < |run| && Enabled(run[i], Begin(p, msgs, stale))
    ensures ProducedThrice(Apply(run[i], Begin(p, msgs, stale)), p, s') && Appended(run[i], p, msgs, s')
  {
    hide Inv, ChainReady, Appended, Produced;
    var s := run[i];
    RunKeepsInv(run, i);
    BackQueued(s);
    Prepares(s, p, msgs, stale);
    var s1 := Apply(s, Begin(p, msgs, stale));
    var s2 := Produced(s1, p);
    Exchanges(s, p, msgs, s2);
    StillMessages(s, p, msgs, s2);
    s' := Produced(Produced(s2, p), p);
  }

  lemma StillMessages(s: State, p: nat, msgs: seq<nat>, s2: State)
    requires msgs != [] && ChainReady(s, p, msgs, s2)
    ensures p in s2.producers && |s2.producers[p].msgs| > 0
  {}

  /** Three steps of the producer, one after the other. */
  ghost predicate ProducedThrice(s: State, p: nat, s': State) {
    && p in s.producers && |s.producers[p].msgs| > 0
    && var s2 := Produced(s, p);
    && p in s2.producers && |s2.producers[p].msgs| > 0
    && var s3 := Produced(s2, p);
    && p in s3.producers && |s3.producers[p].msgs| > 0
    && s' == Produced(s3, p)
  }

  /** The last message is queued, and so no part of a new chain. */
  lemma BackQueued(s: State)
    requires Inv(s)
    ensures if s.order == [] then s.back == 0 else s.back != 0 && s.back in s.next && s.back in s.place && s.place[s.back].Queued?
  {
    if s.order != [] { assert SlotInv(s, |s.order| - 1); }
  }

  lemma OwnStep(s: State, p: nat)
    requires Ready(s, p)
    ensures Enabled(s, Produce(p)) && StepsLeft(s.producers[p].pc) <= 3
    ensures p in Produced(s, p).producers
    ensures !s.producers[p].pc.Finished? ==> StepsLeft(Produced(s, p).producers[p].pc) == StepsLeft(s.producers[p].pc) - 1
  {
    hide ConsumerInv, Distinct, IndexOf;
  }

  lemma OtherStep(s: State, p: nat, a: Action)
    requires p in s.producers && Enabled(s, a) && a != Produce(p)
    ensures p in Apply(s, a).producers && Apply(s, a).producers[p] == s.producers[p]
  {
    hide Distinct, IndexOf, Chain;
  }
}
