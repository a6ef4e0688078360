/** What publishing does over whole runs, whatever steps are interleaved, orderly or not
    (config/service_pubsub.go): who gets a message, who is removed, and who stays. */
module PubSubRuns {
  import opened Common
  import opened Topics
  import opened PubSub
  import opened PubSubProtocol

  lemma Known(run: seq<Step>, s: State)
    requires Reaches(INIT, run, s)
    ensures forall id | id in s.d.subs :: 1 <= id <= s.d.nextID
    ensures s.pub == Selecting ==> s.d.handled == |s.d.msgs|
  {
    hide Topic, Qualified, LogInv;
    InitDelivery();
    DeliveryOverRuns(INIT, run, s);
  }

  // ---- delivery ----

  /** The message with number m, which serves the topic of id in round i, has reached id; or the
      publisher is still before that round and id is still subscribed. */
  ghost predicate Awaits(s: State, m: nat, msg: string, i: nat, id: nat) {
    && m < |s.d.msgs| && s.d.msgs[m] == msg && id <= s.d.nextID
    && (|| (m, id) in s.d.log
        || (&& s.pub.Sending? && s.pub.round <= i && |s.d.msgs| == m + 1 && s.d.handled <= m
            && id in s.d.subs && s.d.subs[id] == Topic(msg, i)))
  }

  lemma AwaitsOn(s: State, step: Step, m: nat, msg: string, i: nat, id: nat)
    requires Awaits(s, m, msg, i, id) && i < ROUNDS && Enabled(s, step) && step != Unsubscribe(id)
    ensures Awaits(Next(s, step), m, msg, i, id)
  {
    hide Topic, Qualified, Distinct;
    if step.Round? && (m, id) !in s.d.log && s.pub.round == i {
      assert id in IDs(step.order);
      var k :| 0 <= k < |step.order| && step.order[k] == id;
      assert Pairs(m, step.order)[k] == (m, id);
    }
  }

  lemma {:induction false} AwaitsOver(s: State, steps: seq<Step>, s': State, m: nat, msg: string, i: nat, id: nat)
    requires Awaits(s, m, msg, i, id) && i < ROUNDS && Reaches(s, steps, s') && Unsubscribe(id) !in steps
    ensures Awaits(s', m, msg, i, id)
    decreases |steps|
  {
    hide Awaits, Enabled, Next;
    if steps == [] {
    } else {
      AwaitsOn(s, steps[0], m, msg, i, id);
      AwaitsOver(Next(s, steps[0]), steps[1..], s', m, msg, i, id);
    }
  }

  /** In every run: a message that the publisher took has, once it is handled, reached every
      subscription to one of its five topics that existed when it was taken and was not given up
      since, and it has reached it exactly once. */
  lemma Delivered(a: seq<Step>, s0: State, t: nat, b: seq<Step>, s: State, i: nat, id: nat)
    requires Reaches(INIT, a, s0) && Enabled(s0, Send(t)) && !s0.ch.pubClosed
    requires id in s0.d.subs && i < ROUNDS && Topic(s0.ch.senders[t], i) == s0.d.subs[id]
    requires Reaches(Next(s0, Send(t)), b, s) && Unsubscribe(id) !in b && s.d.handled > |s0.d.msgs|
    ensures |s0.d.msgs| < |s.d.msgs| && s.d.msgs[|s0.d.msgs|] == s0.ch.senders[t]
    ensures (|s0.d.msgs|, id) in s.d.log
    ensures forall j, k | 0 <= j < k < |s.d.log| :: s.d.log[j] != s.d.log[k]
  {
    hide Topic, Qualified, DeliveryInv;
    var m, msg := |s0.d.msgs|, s0.ch.senders[t];
    Known(a, s0);
    AwaitsOver(Next(s0, Send(t)), b, s, m, msg, i, id);
    StepThen(s0, Send(t), b, s);
    ReachesOn(INIT, a, s0, [Send(t)] + b, s);
    AtMostOnce(a + ([Send(t)] + b), s);
  }

  /** So, when a Close returns nil in an orderly run, every message taken before has reached every
      such subscription. */
  lemma DeliveredByClose(a: seq<Step>, s0: State, t: nat, b: seq<Step>, s: State, i: nat, id: nat, u: nat)
    requires OrderlyRun(INIT, a, s0) && Enabled(s0, Send(t))
    requires id in s0.d.subs && i < ROUNDS && Topic(s0.ch.senders[t], i) == s0.d.subs[id]
    requires OrderlyRun(Next(s0, Send(t)), b, s) && Unsubscribe(id) !in b && At(s.ch, u, Done)
    ensures (|s0.d.msgs|, id) in s.d.log
  {
    hide Topic, Qualified, DeliveryInv, ShutdownInv, Next, Enabled;
    var n := Next(s0, Send(t));
    assert ShutdownInv(INIT, None) by { StartsSafe(); }
    var c := OrderlyRunsAreSafe(INIT, a, s0, None);
    assert Orderly(s0, Send(t));
    OrderlyStepIsSafe(s0, Send(t), c);
    var c' := OrderlyRunsAreSafe(n, b, s, CloserAfter(s0, Send(t), c));
    NotClosed(s0, t, c);
    Counted(a, s0, t, b, s, u, c');
    Delivered(a, s0, t, b, s, i, id);
  }

  lemma StartsSafe()
    ensures ShutdownInv(INIT, None)
  {
  }

  lemma NotClosed(s: State, t: nat, c: Option<nat>)
    requires ShutdownInv(s, c) && Enabled(s, Send(t))
    ensures !s.ch.pubClosed
  {
    assert t in s.ch.senders.Keys;
  }

  lemma Counted(a: seq<Step>, s0: State, t: nat, b: seq<Step>, s: State, u: nat, c: Option<nat>)
    requires Reaches(INIT, a, s0) && Enabled(s0, Send(t)) && !s0.ch.pubClosed && Reaches(Next(s0, Send(t)), b, s)
    requires ShutdownInv(s, c) && At(s.ch, u, Done)
    ensures s.d.handled > |s0.d.msgs|
  {
    hide Topic, Qualified, LogInv, RegistryInv, SendersInv;
    InitDelivery();
    DeliveryOverRuns(INIT, a, s0);
    StepKeepsDelivery(s0, Send(t));
    DeliveryOverRuns(Next(s0, Send(t)), b, s);
    MessagesStay(Next(s0, Send(t)), b, s);
  }

  lemma {:induction false} MessagesStay(s: State, steps: seq<Step>, s': State)
    requires Reaches(s, steps, s')
    ensures s.d.msgs <= s'.d.msgs && s.d.log <= s'.d.log && s.d.nextID <= s'.d.nextID
    decreases |steps|
  {
    hide Topic, Qualified, Subscribed, Distinct, IDs, Pairs;
    if steps == [] {
    } else {
      MessagesStay(Next(s, steps[0]), steps[1..], s');
    }
  }

  // ---- only to subscribers ----

  ghost predicate Gone(s: State, id: nat) { id !in s.d.subs && id <= s.d.nextID }

  ghost predicate NotAddressed(log: seq<(nat, nat)>, from: nat, id: nat) {
    forall k | from <= k < |log| :: log[k].1 != id
  }

  lemma GoneOn(s: State, step: Step, id: nat)
    requires Gone(s, id) && Enabled(s, step)
    ensures Gone(Next(s, step), id) && s.d.log <= Next(s, step).d.log
    ensures NotAddressed(Next(s, step).d.log, |s.d.log|, id)
  {
    hide Topic, Qualified, Distinct;
    if step.Round? {
      forall k | 0 <= k < |step.order| ensures step.order[k] != id { assert step.order[k] in IDs(step.order); }
    }
  }

  /** Whoever has unsubscribed, or was removed, gets nothing any more and never comes back under
      the same id. */
  lemma {:induction false} GoneForEver(s: State, steps: seq<Step>, s': State, id: nat)
    requires Gone(s, id) && Reaches(s, steps, s')
    ensures id !in s'.d.subs && s.d.log <= s'.d.log
    ensures forall k | |s.d.log| <= k < |s'.d.log| :: s'.d.log[k].1 != id
    decreases |steps|
  {
    hide Gone, Enabled, Next;
    if steps == [] {
      assert id !in s.d.subs by { NotThere(s, id); }
    } else {
      var n := Next(s, steps[0]);
      GoneOn(s, steps[0], id);
      GoneForEver(n, steps[1..], s', id);
      forall k | |s.d.log| <= k < |s'.d.log| ensures s'.d.log[k].1 != id {
        if k < |n.d.log| { assert s'.d.log[k] == n.d.log[k]; }
      }
    }
  }

  lemma NotThere(s: State, id: nat)
    requires Gone(s, id)
    ensures id !in s.d.subs
  {
  }

  lemma TopicStays(s: State, steps: seq<Step>, s': State, id: nat)
    requires DeliveryInv(s.d, s.pub) && SendersInv(s.ch) && Reaches(s, steps, s') && id in s.d.topics
    ensures id in s'.d.topics && s'.d.topics[id] == s.d.topics[id]
    decreases |steps|
  {
    hide Topic, Qualified, LogInv, QueueInv, SendersInv, Subscribed, Distinct, IDs, Pairs;
    if steps == [] {
    } else {
      StepKeepsDelivery(s, steps[0]);
      TopicStays(Next(s, steps[0]), steps[1..], s', id);
    }
  }

  /** A subscription only ever gets messages that its topic serves. */
  lemma OnlyServed(a: seq<Step>, s0: State, b: seq<Step>, s: State, m: nat, id: nat)
    requires Reaches(INIT, a, s0) && id in s0.d.subs && Reaches(s0, b, s) && (m, id) in s.d.log
    ensures m < |s.d.msgs| && exists i: nat | i < ROUNDS :: Topic(s.d.msgs[m], i) == s0.d.subs[id]
  {
    hide Topic, Qualified, QueueInv, LogInv, Enabled, Next;
    InitDelivery();
    DeliveryOverRuns(INIT, a, s0);
    TopicStays(s0, b, s, id);
    ReachesOn(INIT, a, s0, b, s);
    AtMostOnce(a + b, s);
  }

  // ---- removal ----

  function EvictList(pub: Publisher): seq<nat> {
    if pub.Sending? || pub.Evicting? then pub.evict else []
  }

  /** A receiver that failed is gone, or listed while its message is not finished. */
  ghost predicate Leaving(s: State, id: nat, handled: nat) {
    id <= s.d.nextID && s.d.handled >= handled &&
    (id !in s.d.subs || (id in EvictList(s.pub) && s.d.handled == handled))
  }

  lemma LeavingOn(s: State, step: Step, id: nat, handled: nat)
    requires Leaving(s, id, handled) && Enabled(s, step) && (s.pub.Sending? || s.pub.Evicting? || id !in s.d.subs)
    ensures Leaving(Next(s, step), id, handled)
  {
    hide Topic, Qualified, Subscribed, Distinct, IDs, Pairs;
  }

  lemma {:induction false} LeavingOver(s: State, steps: seq<Step>, s': State, id: nat, handled: nat)
    requires Leaving(s, id, handled) && Reaches(s, steps, s')
    ensures Leaving(s', id, handled)
    decreases |steps|
  {
    hide Enabled, Next;
    if steps == [] {
    } else {
      LeavingOn(s, steps[0], id, handled);
      LeavingOver(Next(s, steps[0]), steps[1..], s', id, handled);
    }
  }

  /** A receiver that failed in some round is no longer subscribed once its message is handled. */
  lemma FailedIsRemoved(a: seq<Step>, s0: State, order: seq<nat>, bad: seq<nat>, b: seq<Step>, s: State, id: nat)
    requires Reaches(INIT, a, s0) && Enabled(s0, Round(order, bad)) && id in bad
    requires Reaches(Next(s0, Round(order, bad)), b, s) && s.d.handled > s0.d.handled
    ensures id !in s.d.subs
  {
    hide Topic, Qualified, Distinct, Pairs;
    Known(a, s0);
    assert id in IDs(bad);
    assert id in IDs(order);
    LeavingOver(Next(s0, Round(order, bad)), b, s, id, s0.d.handled);
  }

  /** Some round reported that the receiver failed. */
  ghost predicate Reported(steps: seq<Step>, id: nat) {
    exists k :: 0 <= k < |steps| && steps[k].Round? && id in steps[k].bad
  }

  lemma StaysOn(s: State, step: Step, id: nat)
    requires id in s.d.subs && id !in EvictList(s.pub) && Enabled(s, step)
    requires step != Unsubscribe(id) && !(step.Round? && id in step.bad)
    ensures id in Next(s, step).d.subs && id !in EvictList(Next(s, step).pub)
  {
    hide Topic, Qualified, Subscribed, Distinct, IDs, Pairs;
  }

  lemma NotListedOn(s: State, step: Step, id: nat)
    requires id !in EvictList(s.pub) && Enabled(s, step) && !(step.Round? && id in step.bad)
    ensures id !in EvictList(Next(s, step).pub)
  {
    hide Topic, Qualified, Subscribed, Distinct, IDs, Pairs;
  }

  lemma {:induction false} NotListed(s: State, steps: seq<Step>, s': State, id: nat)
    requires id !in EvictList(s.pub) && Reaches(s, steps, s') && !Reported(steps, id)
    ensures id !in EvictList(s'.pub)
    decreases |steps|
  {
    hide Enabled, Next, EvictList;
    if steps == [] {
    } else {
      NotListedOn(s, steps[0], id);
      NotLater(steps, id);
      NotListed(Next(s, steps[0]), steps[1..], s', id);
    }
  }

  lemma NotLater(steps: seq<Step>, id: nat)
    requires steps != [] && !Reported(steps, id)
    ensures !Reported(steps[1..], id)
  {
    assert forall k | 0 <= k < |steps[1..]| :: steps[1..][k] == steps[k + 1];
  }

  lemma {:induction false} StaysOver(s: State, steps: seq<Step>, s': State, id: nat)
    requires id in s.d.subs && id !in EvictList(s.pub) && Reaches(s, steps, s')
    requires Unsubscribe(id) !in steps && !Reported(steps, id)
    ensures id in s'.d.subs
    decreases |steps|
  {
    hide Enabled, Next, EvictList;
    if steps == [] {
    } else {
      StaysOn(s, steps[0], id);
      NotLater(steps, id);
      StaysOver(Next(s, steps[0]), steps[1..], s', id);
    }
  }

  /** A subscription ends only because it was given up or its receiver failed. */
  lemma OthersStay(a: seq<Step>, s0: State, b: seq<Step>, s: State, id: nat)
    requires Reaches(INIT, a, s0) && id in s0.d.subs && Reaches(s0, b, s)
    requires Unsubscribe(id) !in b && !Reported(a, id) && !Reported(b, id)
    ensures id in s.d.subs
  {
    hide Enabled, Next;
    NotListed(INIT, a, s0, id);
    StaysOver(s0, b, s, id);
  }

  // ---- subscribing and unsubscribing ----

  /** The publisher's list never names an id that was not given out. */
  ghost predicate ListKnown(s: State) {
    && (forall id | id in s.d.subs :: id <= s.d.nextID)
    && (forall id | id in EvictList(s.pub) :: id <= s.d.nextID)
  }

  lemma ListKnownOn(s: State, step: Step)
    requires ListKnown(s) && Enabled(s, step)
    ensures ListKnown(Next(s, step))
  {
    hide Topic, Qualified, Distinct, Pairs;
    forall id | id in EvictList(Next(s, step).pub) ensures id <= Next(s, step).d.nextID {
      if step.Round? && id in step.bad {
        assert id in IDs(step.bad);
        assert id in IDs(step.order);
      } else {
        assert id in EvictList(s.pub);
      }
    }
  }

  lemma {:induction false} ListKnownOver(s: State, steps: seq<Step>, s': State)
    requires ListKnown(s) && Reaches(s, steps, s')
    ensures ListKnown(s')
    decreases |steps|
  {
    hide ListKnown, Enabled, Next;
    if steps == [] {
    } else {
      ListKnownOn(s, steps[0]);
      ListKnownOver(Next(s, steps[0]), steps[1..], s');
    }
  }

  /** A subscription and its topic stay as long as it is not given up and its receiver does not fail. */
  lemma SubscriptionStays(a: seq<Step>, s0: State, topic: string, b: seq<Step>, s: State)
    requires Reaches(INIT, a, s0) && Enabled(s0, Subscribe(topic)) && Reaches(Next(s0, Subscribe(topic)), b, s)
    requires Unsubscribe(s0.d.nextID + 1) !in b && !Reported(b, s0.d.nextID + 1)
    ensures s0.d.nextID + 1 in s.d.subs && s.d.subs[s0.d.nextID + 1] == topic
  {
    hide Topic, Qualified, LogInv, QueueInv, SendersInv;
    var id, n := s0.d.nextID + 1, Next(s0, Subscribe(topic));
    ListKnownOver(INIT, a, s0);
    InitDelivery();
    DeliveryOverRuns(INIT, a, s0);
    StepKeepsDelivery(s0, Subscribe(topic));
    DeliveryOverRuns(n, b, s);
    assert id in n.d.subs && n.d.subs[id] == topic;
    StaysOver(n, b, s, id);
    TopicStays(n, b, s, id);
  }

  /** Whoever subscribes to a topic gets every message that serves it, from then on, until they give
      it up or fail. */
  lemma SubscriberHears(a: seq<Step>, s0: State, topic: string, b: seq<Step>, s1: State, t: nat, c: seq<Step>, s: State,
      i: nat)
    requires Reaches(INIT, a, s0) && Enabled(s0, Subscribe(topic)) && Reaches(Next(s0, Subscribe(topic)), b, s1)
    requires Unsubscribe(s0.d.nextID + 1) !in b && !Reported(b, s0.d.nextID + 1)
    requires Enabled(s1, Send(t)) && !s1.ch.pubClosed && i < ROUNDS && Topic(s1.ch.senders[t], i) == topic
    requires Reaches(Next(s1, Send(t)), c, s) && Unsubscribe(s0.d.nextID + 1) !in c && s.d.handled > |s1.d.msgs|
    ensures (|s1.d.msgs|, s0.d.nextID + 1) in s.d.log
  {
    hide Topic, Enabled, Next;
    SubscriptionStays(a, s0, topic, b, s1);
    StepThen(s0, Subscribe(topic), b, s1);
    ReachesOn(INIT, a, s0, [Subscribe(topic)] + b, s1);
    Delivered(a + ([Subscribe(topic)] + b), s1, t, c, s, i, s0.d.nextID + 1);
  }

  /** Whoever unsubscribes gets nothing any more. */
  lemma UnsubscribedHearsNothing(a: seq<Step>, s0: State, id: nat, b: seq<Step>, s: State)
    requires Reaches(INIT, a, s0) && id in s0.d.subs && Enabled(s0, Unsubscribe(id))
    requires Reaches(Next(s0, Unsubscribe(id)), b, s)
    ensures id !in s.d.subs
    ensures forall m | (m, id) in s.d.log :: (m, id) in s0.d.log
  {
    hide Topic, Qualified;
    Known(a, s0);
    var n := Next(s0, Unsubscribe(id));
    assert Gone(n, id) && n.d.log == s0.d.log;
    GoneForEver(n, b, s, id);
    forall m | (m, id) in s.d.log ensures (m, id) in s0.d.log {
      var k :| 0 <= k < |s.d.log| && s.d.log[k] == (m, id);
      if k < |s0.d.log| { assert s0.d.log[k] == s.d.log[k]; }
    }
  }

  /** It does happen: for every message and each of its topics there is a run in which a subscriber
      gets it. */
  lemma CanHear(msg: string, i: nat) returns (steps: seq<Step>, s: State)
    requires Qualified(msg) && i < ROUNDS && Topic(msg, i) != ""
    ensures Reaches(INIT, [Subscribe(Topic(msg, i)), SendCheck(0, msg), Send(0)] + steps, s)
    ensures s.d.msgs == [msg] && (0, 1) in s.d.log
  {
    hide Topic, Qualified, Subscribed, Distinct, Pairs;
    var topic := Topic(msg, i);
    var s1 := Next(INIT, Subscribe(topic));
    var s2 := Next(s1, SendCheck(0, msg));
    var s3 := Next(s2, Send(0));
    assert s2.ch.senders == map[0 := msg] && s3.d.msgs == [msg];
    InitDelivery();
    StepKeepsDelivery(INIT, Subscribe(topic));
    StepKeepsDelivery(s1, SendCheck(0, msg));
    StepKeepsDelivery(s2, Send(0));
    steps, s := FinishMessage(s3);
    DeliveryOverRuns(s3, steps, s);
    AllHandled(s);
    ShortRun(msg, topic, s1, s2, s3, steps, s);
    SubscriberHears([], INIT, topic, [SendCheck(0, msg)], s2, 0, steps, s, i);
  }

  lemma ShortRun(msg: string, topic: string, s1: State, s2: State, s3: State, steps: seq<Step>, s: State)
    requires Enabled(INIT, Subscribe(topic)) && s1 == Next(INIT, Subscribe(topic))
    requires Enabled(s1, SendCheck(0, msg)) && s2 == Next(s1, SendCheck(0, msg))
    requires Enabled(s2, Send(0)) && s3 == Next(s2, Send(0)) && Reaches(s3, steps, s)
    ensures Reaches(INIT, [Subscribe(topic), SendCheck(0, msg), Send(0)] + steps, s)
    ensures Reaches(s1, [SendCheck(0, msg)], s2)
  {
    hide Enabled, Next;
    StepThen(s2, Send(0), steps, s);
    StepThen(s1, SendCheck(0, msg), [Send(0)] + steps, s);
    StepThen(INIT, Subscribe(topic), [SendCheck(0, msg)] + ([Send(0)] + steps), s);
    assert [Subscribe(topic)] + ([SendCheck(0, msg)] + ([Send(0)] + steps)) ==
           [Subscribe(topic), SendCheck(0, msg), Send(0)] + steps;
    assert [SendCheck(0, msg)][1..] == [];
  }

  lemma AllHandled(s: State)
    requires DeliveryInv(s.d, s.pub) && s.pub == Selecting
    ensures s.d.handled == |s.d.msgs|
  {
    hide LogInv, RegistryInv, Qualified;
  }
}
