/** The publisher, its subscribers, senders and closers as interleaved steps
    (config/service_pubsub.go). Channels are unbuffered: a send and the matching receive are one
    step. Sections under the registry lock are one step. A step that would send on or close a
    closed channel panics. */
module PubSubProtocol {
  import opened Common
  import opened Topics
  import opened PubSub

  datatype Publisher =
    | Selecting                              // waiting in select
    | Sending(round: nat, evict: seq<nat>)   // between the calls of readMapAndSend
    | Evicting(evict: seq<nat>)              // unsubscribing failed receivers
    | Acking                                 // got the stop signal, about to send on closeErr
    | Exited

  datatype Closer = Passed | Stopping | ClosingPub | ClosingStop | Awaiting | ClosingErr | Done | Already

  /** Registry and messages. `topics` and `log` record history for the statements below. */
  datatype Delivery = Delivery(
    subs: map<nat, string>,    // topic of each current subscription
    nextID: nat,
    msgs: seq<string>,         // accepted messages
    handled: nat,              // number of messages whose handling is finished
    topics: map<nat, string>,  // topic of every subscription there ever was
    log: seq<(nat, nat)>)      // deliveries: message index, subscription id

  datatype Channels = Channels(
    closed: bool,
    pubClosed: bool,
    stopClosed: bool,
    errClosed: bool,
    senders: map<nat, string>, // goroutines between the closed test and the send, with their message
    closers: map<nat, Closer>)

  datatype State = State(d: Delivery, ch: Channels, pub: Publisher, panicked: bool)

  const INIT := State(
    Delivery(map[], 0, [], 0, map[], []),
    Channels(false, false, false, false, map[], map[]),
    Selecting, false)

  datatype Step =
    | Subscribe(topic: string)
    | Unsubscribe(id: nat)
    | SendCheck(t: nat, msg: string)
    | Send(t: nat)
    | Round(order: seq<nat>, bad: seq<nat>)
    | EndRounds
    | EvictNext
    | CloseStart(t: nat)
    | CloseMark(t: nat)
    | CloseStop(t: nat)
    | ClosePub(t: nat)
    | CloseStopChan(t: nat)
    | CloseAwait(t: nat)
    | CloseErrChan(t: nat)
    | SelectStopClosed
    | SelectPubClosed
    | AckOnClosed

  predicate At(ch: Channels, t: nat, pc: Closer) { t in ch.closers && ch.closers[t] == pc }

  ghost predicate Enabled(s: State, step: Step) {
    && !s.panicked
    && match step
       case Subscribe(topic) => topic != ""
       case Unsubscribe(_) => true
       case SendCheck(t, msg) => t !in s.ch.senders && Qualified(msg)
       case Send(t) => t in s.ch.senders && (s.ch.pubClosed || s.pub.Selecting?)
       case Round(order, bad) =>
         && s.pub.Sending? && s.pub.round < ROUNDS && |s.d.msgs| > 0
         && Distinct(order) && IDs(bad) <= IDs(order)
         && IDs(order) == Subscribed(s.d.subs, Topic(s.d.msgs[|s.d.msgs| - 1], s.pub.round))
       case EndRounds => s.pub.Sending? && s.pub.round == ROUNDS
       case EvictNext => s.pub.Evicting?
       case CloseStart(t) => t !in s.ch.closers
       case CloseMark(t) => At(s.ch, t, Passed)
       case CloseStop(t) => At(s.ch, t, Stopping) && (s.ch.stopClosed || s.pub.Selecting?)
       case ClosePub(t) => At(s.ch, t, ClosingPub)
       case CloseStopChan(t) => At(s.ch, t, ClosingStop)
       case CloseAwait(t) => At(s.ch, t, Awaiting) && (s.ch.errClosed || s.pub.Acking?)
       case CloseErrChan(t) => At(s.ch, t, ClosingErr)
       case SelectStopClosed => s.pub.Selecting? && s.ch.stopClosed
       case SelectPubClosed => s.pub.Selecting? && s.ch.pubClosed
       case AckOnClosed => s.pub.Acking? && s.ch.errClosed
  }

  function Pairs(m: nat, ids: seq<nat>): seq<(nat, nat)> {
    seq(|ids|, i requires 0 <= i < |ids| => (m, ids[i]))
  }

  function Goto(ch: Channels, t: nat, pc: Closer): Channels {
    ch.(closers := ch.closers[t := pc])
  }

  function Panic(s: State): State { s.(panicked := true) }

  /** The publisher takes a message; without any subscription it is done with it at once. In the
      source the test of len(subMap) comes after the receive and without the lock. Both are one
      step here, because the receive does not touch the registry: whatever Subscribe or
      Unsubscribe happens between them leads to the same state as if it had come before. */
  function Accept(s: State, t: nat): State
    requires t in s.ch.senders
  {
    var d := s.d.(msgs := s.d.msgs + [s.ch.senders[t]]);
    var ch := s.ch.(senders := s.ch.senders - {t});
    if s.d.subs == map[] then s.(d := d.(handled := d.handled + 1), ch := ch)
    else s.(d := d, ch := ch, pub := Sending(0, []))
  }

  ghost function Next(s: State, step: Step): State
    requires Enabled(s, step)
  {
    match step
    case Subscribe(topic) =>
      var id: nat := s.d.nextID + 1;
      s.(d := s.d.(nextID := id, subs := s.d.subs[id := topic], topics := s.d.topics[id := topic]))
    case Unsubscribe(id) =>
      s.(d := s.d.(subs := s.d.subs - {id}))
    case SendCheck(t, msg) =>
      if s.ch.closed then s else s.(ch := s.ch.(senders := s.ch.senders[t := msg]))
    case Send(t) =>
      if s.ch.pubClosed then Panic(s) else Accept(s, t)
    case Round(order, bad) =>
      s.(d := s.d.(log := s.d.log + Pairs(|s.d.msgs| - 1, order)),
         pub := Sending(s.pub.round + 1, s.pub.evict + bad))
    case EndRounds => s.(pub := Evicting(s.pub.evict))
    case EvictNext =>
      if s.pub.evict == [] then s.(d := s.d.(handled := s.d.handled + 1), pub := Selecting)
      else s.(d := s.d.(subs := s.d.subs - {s.pub.evict[0]}), pub := Evicting(s.pub.evict[1..]))
    case CloseStart(t) => s.(ch := Goto(s.ch, t, if s.ch.closed then Already else Passed))
    case CloseMark(t) => s.(ch := Goto(s.ch, t, Stopping).(closed := true))
    case CloseStop(t) =>
      if s.ch.stopClosed then Panic(s) else s.(ch := Goto(s.ch, t, ClosingPub), pub := Acking)
    case ClosePub(t) =>
      if s.ch.pubClosed then Panic(s) else s.(ch := Goto(s.ch, t, ClosingStop).(pubClosed := true))
    case CloseStopChan(t) =>
      if s.ch.stopClosed then Panic(s) else s.(ch := Goto(s.ch, t, Awaiting).(stopClosed := true))
    case CloseAwait(t) =>
      s.(ch := Goto(s.ch, t, ClosingErr), pub := if s.ch.errClosed then s.pub else Exited)
    case CloseErrChan(t) =>
      if s.ch.errClosed then Panic(s) else s.(ch := Goto(s.ch, t, Done).(errClosed := true))
    case SelectStopClosed => s.(pub := Acking)
    case SelectPubClosed => s.(pub := Exited)
    case AckOnClosed => Panic(s)
  }

  /** s' is reached from s by the steps. */
  ghost predicate Reaches(s: State, steps: seq<Step>, s': State)
    decreases |steps|
  {
    if steps == [] then s == s' else Enabled(s, steps[0]) && Reaches(Next(s, steps[0]), steps[1..], s')
  }

  // ---- delivery ----

  ghost predicate NoRepeats(log: seq<(nat, nat)>) {
    forall i, j | 0 <= i < j < |log| :: log[i] != log[j]
  }

  /** The id's topic is one of the first n topics of the message. */
  ghost predicate ServedBy(d: Delivery, m: nat, id: nat, n: nat)
    requires m < |d.msgs|
  {
    id in d.topics && exists i: nat | i < n :: Topic(d.msgs[m], i) == d.topics[id]
  }

  /** Ids are unique, keep their topic for ever and come from the counter. */
  ghost predicate RegistryInv(d: Delivery) {
    && (forall id | id in d.subs :: id in d.topics && d.topics[id] == d.subs[id])
    && (forall id | id in d.topics :: 1 <= id <= d.nextID && d.topics[id] != "")
  }

  /** Messages are handled one after the other. */
  ghost predicate QueueInv(d: Delivery, pub: Publisher) {
    && |d.msgs| == (if pub.Sending? || pub.Evicting? then d.handled + 1 else d.handled)
    && (forall m | 0 <= m < |d.msgs| :: Qualified(d.msgs[m]))
    && (pub.Sending? ==> pub.round <= ROUNDS)
  }

  /** No delivery is repeated; the current message went at most to subscribers of the topics
      already served. */
  ghost predicate LogInv(d: Delivery, pub: Publisher) {
    && NoRepeats(d.log)
    && (forall m, id | (m, id) in d.log :: m < |d.msgs| &&
          ServedBy(d, m, id, if pub.Sending? && m == |d.msgs| - 1 then pub.round else ROUNDS))
  }

  ghost predicate DeliveryInv(d: Delivery, pub: Publisher) {
    RegistryInv(d) && QueueInv(d, pub) && LogInv(d, pub)
  }

  /** Old subscriptions keep their topic and old messages their place. */
  ghost predicate Extends(d: Delivery, d': Delivery) {
    d.msgs <= d'.msgs && forall id | id in d.topics :: id in d'.topics && d'.topics[id] == d.topics[id]
  }

  lemma ServedKeeps(d: Delivery, d': Delivery, m: nat, id: nat, n: nat)
    requires Extends(d, d') && m < |d.msgs| && id in d.topics
    ensures ServedBy(d, m, id, n) == ServedBy(d', m, id, n)
  {
    hide Topic;
    assert d'.msgs[m] == d.msgs[m];
  }

  /** Steps that only touch the registry. */
  lemma RegistryStepKeeps(d: Delivery, d': Delivery, pub: Publisher)
    requires DeliveryInv(d, pub) && Extends(d, d') && RegistryInv(d')
    requires d' == d.(subs := d'.subs, nextID := d'.nextID, topics := d'.topics)
    ensures DeliveryInv(d', pub)
  {
    hide Topic, Qualified, ServedBy;
    assert LogInv(d', pub) by {
      forall m, id | (m, id) in d'.log
        ensures m < |d'.msgs| && ServedBy(d', m, id, if pub.Sending? && m == |d'.msgs| - 1 then pub.round else ROUNDS)
      {
        var n := if pub.Sending? && m == |d'.msgs| - 1 then pub.round else ROUNDS;
        ServedIsKnown(d, m, id, n);
        ServedKeeps(d, d', m, id, n);
      }
    }
  }

  lemma ServedIsKnown(d: Delivery, m: nat, id: nat, n: nat)
    requires m < |d.msgs| && ServedBy(d, m, id, n)
    ensures id in d.topics
  {
  }

  lemma SubscribeKeeps(d: Delivery, pub: Publisher, topic: string)
    requires DeliveryInv(d, pub) && topic != ""
    ensures var id: nat := d.nextID + 1;
            id !in d.topics &&
              DeliveryInv(d.(nextID := id, subs := d.subs[id := topic], topics := d.topics[id := topic]), pub)
  {
    hide LogInv, Qualified;
    var id: nat := d.nextID + 1;
    RegistryStepKeeps(d, d.(nextID := id, subs := d.subs[id := topic], topics := d.topics[id := topic]), pub);
  }

  lemma UnsubscribeKeeps(d: Delivery, pub: Publisher, id: nat)
    requires DeliveryInv(d, pub)
    ensures DeliveryInv(d.(subs := d.subs - {id}), pub)
  {
    hide LogInv, Qualified;
    RegistryStepKeeps(d, d.(subs := d.subs - {id}), pub);
  }

  lemma AcceptKeeps(s: State, t: nat)
    requires DeliveryInv(s.d, s.pub) && s.pub == Selecting && t in s.ch.senders && Qualified(s.ch.senders[t])
    ensures DeliveryInv(Accept(s, t).d, Accept(s, t).pub)
  {
    hide Topic, Qualified, ServedBy;
    var d, d' := s.d, Accept(s, t).d;
    var pub' := Accept(s, t).pub;
    assert LogInv(d', pub') by {
      forall m, id | (m, id) in d'.log
        ensures m < |d.msgs| && ServedBy(d', m, id, ROUNDS)
      {
        ServedIsKnown(d, m, id, ROUNDS);
        ServedKeeps(d, d', m, id, ROUNDS);
      }
    }
  }

  /** One more round serves the subscribers of one more topic. */
  lemma ServedNext(d: Delivery, m: nat, id: nat, n: nat)
    requires m < |d.msgs|
    ensures ServedBy(d, m, id, n + 1) <==>
              id in d.topics && (ServedBy(d, m, id, n) || Topic(d.msgs[m], n) == d.topics[id])
  {
    hide Topic;
  }

  /** Nobody is served by two different rounds. */
  lemma ServedOnce(d: Delivery, m: nat, id: nat, n: nat)
    requires m < |d.msgs| && Qualified(d.msgs[m]) && n < ROUNDS && ServedBy(d, m, id, n)
    ensures Topic(d.msgs[m], n) != d.topics[id]
  {
    var i: nat :| i < n && Topic(d.msgs[m], i) == d.topics[id];
    hide Topic, Qualified;
    TopicsDiffer(d.msgs[m], i, n);
  }

  lemma PairsAppend(log: seq<(nat, nat)>, m: nat, ids: seq<nat>)
    requires NoRepeats(log) && Distinct(ids) && forall id | id in ids :: (m, id) !in log
    ensures NoRepeats(log + Pairs(m, ids))
    ensures forall k, id :: (k, id) in log + Pairs(m, ids) <==> (k, id) in log || (k == m && id in ids)
  {
    var added := Pairs(m, ids);
    assert forall i | 0 <= i < |ids| :: added[i] == (m, ids[i]) && ids[i] in ids;
    forall k: nat, id: nat
      ensures (k, id) in added <==> k == m && id in ids
    {
      if k == m && id in ids {
        var i :| 0 <= i < |ids| && ids[i] == id;
        assert added[i] == (k, id);
      }
    }
    forall i, j | 0 <= i < |log| && 0 <= j < |added|
      ensures log[i] != added[j]
    {
      assert log[i] in log && added[j] == (m, ids[j]);
    }
  }

  lemma RoundKeeps(s: State, order: seq<nat>, bad: seq<nat>)
    requires DeliveryInv(s.d, s.pub) && Enabled(s, Round(order, bad))
    ensures DeliveryInv(Next(s, Round(order, bad)).d, Next(s, Round(order, bad)).pub)
  {
    hide Topic, Qualified, ServedBy;
    var d, n, cur := s.d, s.pub.round, |s.d.msgs| - 1;
    var s' := Next(s, Round(order, bad));
    var d' := s'.d;
    forall id | id in order
      ensures id in d.topics && Topic(d.msgs[cur], n) == d.topics[id] && (cur, id) !in d.log
    {
      assert id in IDs(order);
      if (cur, id) in d.log { ServedOnce(d, cur, id, n); }
    }
    PairsAppend(d.log, cur, order);
    assert LogInv(d', s'.pub) by {
      forall m, id | (m, id) in d'.log
        ensures m < |d.msgs| && ServedBy(d', m, id, if m == cur then n + 1 else ROUNDS)
      {
        if m == cur {
          if (m, id) in d.log { ServedIsKnown(d, m, id, n); } else { assert id in order; }
          ServedNext(d, m, id, n);
          ServedIsKnown(d, m, id, n + 1);
          ServedKeeps(d, d', m, id, n + 1);
        } else {
          ServedIsKnown(d, m, id, ROUNDS);
          ServedKeeps(d, d', m, id, ROUNDS);
        }
      }
    }
  }

  lemma EndRoundsKeeps(s: State)
    requires DeliveryInv(s.d, s.pub) && Enabled(s, EndRounds)
    ensures DeliveryInv(Next(s, EndRounds).d, Next(s, EndRounds).pub)
  {
    hide Topic, Qualified, ServedBy;
    var d, d' := s.d, Next(s, EndRounds).d;
    assert LogInv(d', Next(s, EndRounds).pub) by {
      forall m, id | (m, id) in d'.log
        ensures m < |d.msgs| && ServedBy(d', m, id, ROUNDS)
      {
        ServedIsKnown(d, m, id, ROUNDS);
        ServedKeeps(d, d', m, id, ROUNDS);
      }
    }
  }

  lemma EvictKeeps(s: State)
    requires DeliveryInv(s.d, s.pub) && Enabled(s, EvictNext)
    ensures DeliveryInv(Next(s, EvictNext).d, Next(s, EvictNext).pub)
  {
    hide Topic, Qualified, ServedBy;
    var d, d', evict := s.d, Next(s, EvictNext).d, s.pub.evict;
    var pub' := Next(s, EvictNext).pub;
    assert LogInv(d', pub') by {
      forall m, id | (m, id) in d'.log
        ensures m < |d.msgs| && ServedBy(d', m, id, ROUNDS)
      {
        ServedIsKnown(d, m, id, ROUNDS);
        ServedKeeps(d, d', m, id, ROUNDS);
      }
    }
  }

  /** Only handling a message distinguishes the publisher's states. */
  lemma IdleKeeps(d: Delivery, pub: Publisher, pub': Publisher)
    requires DeliveryInv(d, pub)
    requires !pub.Sending? && !pub.Evicting? && !pub'.Sending? && !pub'.Evicting?
    ensures DeliveryInv(d, pub')
  {
    hide ServedBy, Qualified, NoRepeats;
  }

  ghost predicate SendersInv(ch: Channels) {
    forall t | t in ch.senders :: Qualified(ch.senders[t])
  }

  lemma StepKeepsDelivery(s: State, step: Step)
    requires DeliveryInv(s.d, s.pub) && SendersInv(s.ch) && Enabled(s, step)
    ensures DeliveryInv(Next(s, step).d, Next(s, step).pub) && SendersInv(Next(s, step).ch)
  {
    hide DeliveryInv, Qualified, Topic;
    match step {
      case Subscribe(topic) => SubscribeKeeps(s.d, s.pub, topic);
      case Unsubscribe(id) => UnsubscribeKeeps(s.d, s.pub, id);
      case Send(t) => if !s.ch.pubClosed { AcceptKeeps(s, t); }
      case Round(order, bad) => RoundKeeps(s, order, bad);
      case EndRounds => EndRoundsKeeps(s);
      case EvictNext => EvictKeeps(s);
      case CloseStop(_) => if !s.ch.stopClosed { IdleKeeps(s.d, s.pub, Acking); }
      case CloseAwait(_) => if !s.ch.errClosed { IdleKeeps(s.d, s.pub, Exited); }
      case SelectStopClosed => IdleKeeps(s.d, s.pub, Acking);
      case SelectPubClosed => IdleKeeps(s.d, s.pub, Exited);
      case _ =>
    }
  }

  /** The delivery invariant holds in every state of every run, orderly or not. */
  lemma {:induction false} DeliveryOverRuns(s: State, steps: seq<Step>, s': State)
    requires DeliveryInv(s.d, s.pub) && SendersInv(s.ch) && Reaches(s, steps, s')
    ensures DeliveryInv(s'.d, s'.pub) && SendersInv(s'.ch)
    decreases |steps|
  {
    hide DeliveryInv, SendersInv, Enabled;
    if steps == [] {
    } else {
      StepKeepsDelivery(s, steps[0]);
      DeliveryOverRuns(Next(s, steps[0]), steps[1..], s');
    }
  }

  lemma InitDelivery()
    ensures DeliveryInv(INIT.d, INIT.pub) && SendersInv(INIT.ch)
  {
  }

  /** In every run: ids are unique for ever, and a message reaches a subscription at most once, and
      only one whose topic it serves. */
  lemma AtMostOnce(steps: seq<Step>, s: State)
    requires Reaches(INIT, steps, s)
    ensures forall i, j | 0 <= i < j < |s.d.log| :: s.d.log[i] != s.d.log[j]
    ensures forall m, id | (m, id) in s.d.log :: m < |s.d.msgs| && ServedBy(s.d, m, id, ROUNDS)
    ensures forall id | id in s.d.subs :: id in s.d.topics && s.d.subs[id] == s.d.topics[id] && 1 <= id <= s.d.nextID
  {
    InitDelivery();
    DeliveryOverRuns(INIT, steps, s);
    forall m, id | (m, id) in s.d.log
      ensures m < |s.d.msgs| && ServedBy(s.d, m, id, ROUNDS)
    {
      hide Topic;
    }
  }

  // ---- shutdown ----

  predicate Running(pub: Publisher) { !pub.Acking? && !pub.Exited? }

  /** What is closed, and where the publisher stands, at each point of Close. */
  predicate Phase(pc: Closer, ch: Channels, pub: Publisher) {
    match pc
    case Already => false
    case Passed => !ch.closed && !ch.pubClosed && !ch.stopClosed && !ch.errClosed && Running(pub)
    case Stopping => ch.closed && !ch.pubClosed && !ch.stopClosed && !ch.errClosed && Running(pub)
    case ClosingPub => ch.closed && !ch.pubClosed && !ch.stopClosed && !ch.errClosed && pub.Acking?
    case ClosingStop => ch.closed && ch.pubClosed && !ch.stopClosed && !ch.errClosed && pub.Acking?
    case Awaiting => ch.closed && ch.pubClosed && ch.stopClosed && !ch.errClosed && pub.Acking?
    case ClosingErr => ch.closed && ch.pubClosed && ch.stopClosed && !ch.errClosed && pub.Exited?
    case Done => ch.closed && ch.pubClosed && ch.stopClosed && ch.errClosed && pub.Exited?
  }

  /** The Close call that found the service open, if any. All others have returned AlreadyClosed. */
  ghost predicate OnlyCloser(ch: Channels, closer: Option<nat>) {
    && (forall t | t in ch.closers && ch.closers[t] != Already :: closer == Some(t))
    && (closer.Some? ==> closer.value in ch.closers && ch.closers[closer.value] != Already)
  }

  ghost predicate ShutdownInv(s: State, closer: Option<nat>) {
    && !s.panicked
    && OnlyCloser(s.ch, closer)
    && Phase(if closer.Some? then s.ch.closers[closer.value] else Passed, s.ch, s.pub)
    && (s.ch.pubClosed ==> s.ch.senders.Keys == {})
  }

  /** The two races the code does not guard against: a second Close between another one's test
      and its setting of the closed flag, and a sender between its test and its send when the
      message channel is closed. */
  ghost predicate Orderly(s: State, step: Step) {
    && (step.CloseStart? && !s.ch.closed ==> forall t | t in s.ch.closers :: s.ch.closers[t] == Already)
    && (step.ClosePub? ==> s.ch.senders.Keys == {})
  }

  ghost function CloserAfter(s: State, step: Step, closer: Option<nat>): Option<nat> {
    if step.CloseStart? && !s.ch.closed then Some(step.t) else closer
  }

  lemma OrderlyStepIsSafe(s: State, step: Step, closer: Option<nat>)
    requires ShutdownInv(s, closer) && Enabled(s, step) && Orderly(s, step)
    ensures ShutdownInv(Next(s, step), CloserAfter(s, step, closer))
  {
    hide Qualified, Topic, Subscribed, Distinct;
  }

  ghost predicate OrderlyRun(s: State, steps: seq<Step>, s': State)
    decreases |steps|
  {
    if steps == [] then s == s'
    else Enabled(s, steps[0]) && Orderly(s, steps[0]) && OrderlyRun(Next(s, steps[0]), steps[1..], s')
  }

  lemma {:induction false} OrderlyRunsAreSafe(s: State, steps: seq<Step>, s': State, closer: Option<nat>)
      returns (closer': Option<nat>)
    requires ShutdownInv(s, closer) && OrderlyRun(s, steps, s')
    ensures ShutdownInv(s', closer') && Reaches(s, steps, s')
    decreases |steps|
  {
    hide ShutdownInv, Enabled, Orderly;
    if steps == [] {
      closer' := closer;
    } else {
      OrderlyStepIsSafe(s, steps[0], closer);
      closer' := OrderlyRunsAreSafe(Next(s, steps[0]), steps[1..], s', CloserAfter(s, steps[0], closer));
    }
  }

  /** Shutdown: in every orderly run nothing panics, that is, nothing is sent on or closes a
      closed channel; at most one Close returns nil, and only after the publisher has left its
      loop, done with every accepted message; and once the service is closed every further Close
      returns AlreadyClosed and every message is dropped. */
  lemma Shutdown(steps: seq<Step>, s: State)
    requires OrderlyRun(INIT, steps, s)
    ensures !s.panicked
    ensures forall t, u | At(s.ch, t, Done) && At(s.ch, u, Done) :: t == u
    ensures forall t | At(s.ch, t, Done) ::
              s.pub.Exited? && s.d.handled == |s.d.msgs| && s.ch.senders.Keys == {}
    ensures s.ch.closed ==> forall t | Enabled(s, CloseStart(t)) :: At(Next(s, CloseStart(t)).ch, t, Already)
    ensures s.ch.closed ==> forall t, msg | Enabled(s, SendCheck(t, msg)) :: Next(s, SendCheck(t, msg)) == s
  {
    hide Topic, Qualified, LogInv, RegistryInv;
    assert ShutdownInv(INIT, None);
    var closer := OrderlyRunsAreSafe(INIT, steps, s, None);
    InitDelivery();
    DeliveryOverRuns(INIT, steps, s);
  }

  // ---- the conditions are exact ----

  lemma {:induction false} ReachesOn(s: State, a: seq<Step>, m: State, b: seq<Step>, e: State)
    requires Reaches(s, a, m) && Reaches(m, b, e)
    ensures Reaches(s, a + b, e)
    decreases |a|
  {
    hide Enabled, Next;
    if a == [] {
      assert a + b == b;
    } else {
      assert (a + b)[0] == a[0] && (a + b)[1..] == a[1..] + b;
      ReachesOn(Next(s, a[0]), a[1..], m, b, e);
    }
  }

  lemma {:induction false} Enumerate(ids: set<nat>) returns (order: seq<nat>)
    ensures Distinct(order) && IDs(order) == ids
  {
    if ids == {} {
      order := [];
    } else {
      var id :| id in ids;
      var rest := Enumerate(ids - {id});
      order := [id] + rest;
      IDsOfSum([id], rest);
      assert forall i | 0 <= i < |rest| :: rest[i] in IDs(rest);
    }
  }

  function Rank(pub: Publisher): nat {
    match pub
    case Sending(round, evict) => 2 + |evict| + (if round <= ROUNDS then ROUNDS - round else 0)
    case Evicting(evict) => 1 + |evict|
    case _ => 0
  }

  /** A step that brings a busy publisher closer to its select statement. */
  lemma FinishStep(s: State) returns (step: Step)
    requires DeliveryInv(s.d, s.pub) && Running(s.pub) && s.pub != Selecting && !s.panicked
    ensures Enabled(s, step) && Orderly(s, step) && (step.Round? || step.EndRounds? || step.EvictNext?)
    ensures Next(s, step).d.msgs == s.d.msgs
    ensures Next(s, step).ch == s.ch && Running(Next(s, step).pub) && !Next(s, step).panicked
    ensures Rank(Next(s, step).pub) < Rank(s.pub)
  {
    hide Topic, Qualified, LogInv, RegistryInv;
    if s.pub.Evicting? {
      step := EvictNext;
    } else if s.pub.round == ROUNDS {
      step := EndRounds;
    } else {
      var order := Enumerate(Subscribed(s.d.subs, Topic(s.d.msgs[|s.d.msgs| - 1], s.pub.round)));
      step := Round(order, []);
      assert IDs([]) == {};
      assert s.pub.evict + [] == s.pub.evict;
    }
  }

  /** A running publisher can always get back to its select statement on its own. */
  lemma {:induction false} FinishMessage(s: State) returns (steps: seq<Step>, s': State)
    requires DeliveryInv(s.d, s.pub) && SendersInv(s.ch) && Running(s.pub) && !s.panicked
    ensures Reaches(s, steps, s') && s'.pub == Selecting && s'.ch == s.ch && !s'.panicked
    ensures s'.d.msgs == s.d.msgs && forall step | step in steps :: step.Round? || step.EndRounds? || step.EvictNext?
    decreases Rank(s.pub)
  {
    hide DeliveryInv, SendersInv, Enabled, Next, Orderly;
    if s.pub == Selecting {
      steps, s' := [], s;
    } else {
      var step := FinishStep(s);
      StepKeepsDelivery(s, step);
      var rest;
      rest, s' := FinishMessage(Next(s, step));
      steps := [step] + rest;
      StepThen(s, step, rest, s');
    }
  }

  lemma StepThen(s: State, step: Step, steps: seq<Step>, s': State)
    requires Enabled(s, step) && Reaches(Next(s, step), steps, s')
    ensures Reaches(s, [step] + steps, s')
  {
    assert ([step] + steps)[1..] == steps;
  }

  lemma TwoStoppersPanic(s: State, t: nat, u: nat) returns (steps: seq<Step>, s': State)
    requires s.pub == Selecting && !s.panicked && t != u && At(s.ch, t, Stopping) && At(s.ch, u, Stopping)
    requires !s.ch.pubClosed && !s.ch.stopClosed
    ensures Reaches(s, steps, s') && s'.panicked
  {
    hide Qualified, Topic, Accept, Pairs, Subscribed, Distinct, IDs;
    var s1 := Next(s, CloseStop(t));
    var s2 := Next(s1, ClosePub(t));
    var s3 := Next(s2, CloseStopChan(t));
    s' := Next(s3, CloseStop(u));
    StepThen(s3, CloseStop(u), [], s');
    var last := [CloseStop(u)] + [];
    StepThen(s2, CloseStopChan(t), last, s');
    var tail := [CloseStopChan(t)] + last;
    StepThen(s1, ClosePub(t), tail, s');
    StepThen(s, CloseStop(t), [ClosePub(t)] + tail, s');
    steps := [CloseStop(t)] + ([ClosePub(t)] + tail);
  }

  /** Two Close calls that both found the service open end in a panic. */
  lemma TwoClosersPanic(s: State, t: nat, u: nat) returns (steps: seq<Step>, s': State)
    requires s.pub == Selecting && !s.panicked && t != u && At(s.ch, t, Passed) && At(s.ch, u, Passed)
    requires !s.ch.pubClosed && !s.ch.stopClosed
    ensures Reaches(s, steps, s') && s'.panicked
  {
    hide Qualified, Topic, Accept, Pairs, Subscribed, Distinct, IDs;
    var s1 := Next(s, CloseMark(t));
    var s2 := Next(s1, CloseMark(u));
    var tail;
    tail, s' := TwoStoppersPanic(s2, t, u);
    StepThen(s1, CloseMark(u), tail, s');
    StepThen(s, CloseMark(t), [CloseMark(u)] + tail, s');
    steps := [CloseMark(t)] + ([CloseMark(u)] + tail);
  }

  lemma RaceThenPanic(s: State, step: Step, closer: Option<nat>) returns (steps: seq<Step>, s': State)
    requires ShutdownInv(s, closer) && DeliveryInv(s.d, s.pub) && SendersInv(s.ch)
    requires Enabled(s, step) && !Orderly(s, step)
    ensures Reaches(Next(s, step), steps, s') && s'.panicked
  {
    hide Qualified, Topic, LogInv, RegistryInv;
    var n := Next(s, step);
    if step.ClosePub? {
      var t :| t in s.ch.senders;
      s' := Next(n, Send(t));
      steps := [Send(t)] + [];
      StepThen(n, Send(t), [], s');
    } else {
      StepKeepsDelivery(s, step);
      var t := closer.value;
      var a, m := FinishMessage(n);
      var b;
      b, s' := TwoClosersPanic(m, t, step.t);
      ReachesOn(n, a, m, b, s');
      steps := a + b;
    }
  }

  /** The conditions are exact: whenever an orderly run is left by a step that is not orderly,
      some continuation panics. */
  lemma DisorderPanics(run: seq<Step>, s: State, step: Step) returns (steps: seq<Step>, s': State)
    requires OrderlyRun(INIT, run, s) && Enabled(s, step) && !Orderly(s, step)
    ensures Reaches(INIT, run + ([step] + steps), s') && s'.panicked
  {
    assert ShutdownInv(INIT, None);
    hide DeliveryInv, ShutdownInv, Enabled, Next, Orderly, SendersInv;
    var closer := OrderlyRunsAreSafe(INIT, run, s, None);
    InitDelivery();
    DeliveryOverRuns(INIT, run, s);
    steps, s' := RaceThenPanic(s, step, closer);
    StepThen(s, step, steps, s');
    ReachesOn(INIT, run, s, [step] + steps, s');
  }

  /** Such a step exists: two Close calls that start before either sets the flag. */
  lemma TwoClosersRace() returns (steps: seq<Step>, s: State)
    ensures Reaches(INIT, [CloseStart(0), CloseStart(1)] + steps, s) && s.panicked
  {
    var first := Next(INIT, CloseStart(0));
    StepThenOrderly(INIT, CloseStart(0));
    assert At(first.ch, 0, Passed);
    steps, s := DisorderPanics([CloseStart(0)], first, CloseStart(1));
    assert [CloseStart(0)] + ([CloseStart(1)] + steps) == [CloseStart(0), CloseStart(1)] + steps;
  }

  lemma StepThenOrderly(s: State, step: Step)
    requires Enabled(s, step) && Orderly(s, step)
    ensures OrderlyRun(s, [step], Next(s, step))
  {
    assert [step][1..] == [];
  }

  lemma OrderlyThen(s: State, step: Step, steps: seq<Step>, s': State)
    requires Enabled(s, step) && Orderly(s, step) && OrderlyRun(Next(s, step), steps, s')
    ensures OrderlyRun(s, [step] + steps, s')
  {
    assert ([step] + steps)[1..] == steps;
  }

  /** A sender that passed its test, and a Close that has told the publisher to stop. */
  lemma ToTheBrink(msg: string) returns (run: seq<Step>, s: State)
    requires Qualified(msg)
    ensures run == [SendCheck(0, msg), CloseStart(1), CloseMark(1), CloseStop(1)] && OrderlyRun(INIT, run, s)
    ensures !s.panicked && At(s.ch, 1, ClosingPub) && s.ch.senders.Keys == {0}
  {
    hide Qualified, Topic, Subscribed, Distinct, IDs, Accept, Pairs;
    var s1 := Next(INIT, SendCheck(0, msg));
    var s2 := Next(s1, CloseStart(1));
    var s3 := Next(s2, CloseMark(1));
    s := Next(s3, CloseStop(1));
    StepThenOrderly(s3, CloseStop(1));
    OrderlyThen(s2, CloseMark(1), [CloseStop(1)], s);
    OrderlyThen(s1, CloseStart(1), [CloseMark(1)] + [CloseStop(1)], s);
    OrderlyThen(INIT, SendCheck(0, msg), [CloseStart(1)] + ([CloseMark(1)] + [CloseStop(1)]), s);
    run := [SendCheck(0, msg)] + ([CloseStart(1)] + ([CloseMark(1)] + [CloseStop(1)]));
    assert s.ch.senders == map[0 := msg];
  }

  /** So does the other one: when that Close then closes the message channel, the send panics. */
  lemma SenderRace(msg: string) returns (steps: seq<Step>, s: State)
    requires Qualified(msg)
    ensures var run := [SendCheck(0, msg), CloseStart(1), CloseMark(1), CloseStop(1), ClosePub(1)];
            Reaches(INIT, run + steps, s) && s.panicked
  {
    var run, brink := ToTheBrink(msg);
    steps, s := DisorderPanics(run, brink, ClosePub(1));
    assert run + ([ClosePub(1)] + steps) == run + [ClosePub(1)] + steps;
    assert run + [ClosePub(1)] == [SendCheck(0, msg), CloseStart(1), CloseMark(1), CloseStop(1), ClosePub(1)];
  }
}
