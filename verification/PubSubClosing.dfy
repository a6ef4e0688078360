/** Whether a Close that has begun can still complete in an orderly way: exactly until it waits to
    close the message channel while a sender is caught between its test and its send. */
module PubSubClosing {
  import opened Common
  import opened Topics
  import opened PubSub
  import opened PubSubProtocol

  lemma {:induction false} OrderlyOn(s: State, a: seq<Step>, m: State, b: seq<Step>, e: State)
    requires OrderlyRun(s, a, m) && OrderlyRun(m, b, e)
    ensures OrderlyRun(s, a + b, e)
    decreases |a|
  {
    hide Enabled, Next, Orderly;
    if a == [] {
      assert a + b == b;
    } else {
      assert (a + b)[0] == a[0] && (a + b)[1..] == a[1..] + b;
      OrderlyOn(Next(s, a[0]), a[1..], m, b, e);
    }
  }

  // ---- it cannot, once it is stuck ----

  /** The closer t is about to close the message channel, and senders are pending. */
  ghost predicate Stuck(s: State, t: nat) {
    At(s.ch, t, ClosingPub) && s.ch.senders.Keys != {}
  }

  lemma StuckStep(s: State, step: Step, t: nat)
    requires ShutdownInv(s, Some(t)) && Stuck(s, t) && Enabled(s, step) && Orderly(s, step)
    ensures ShutdownInv(Next(s, step), Some(t)) && Stuck(Next(s, step), t)
  {
    hide Qualified, Topic, Subscribed, Distinct, IDs, Accept, Pairs;
    OrderlyStepIsSafe(s, step, Some(t));
  }

  lemma {:induction false} StaysStuck(s: State, steps: seq<Step>, s': State, t: nat)
    requires ShutdownInv(s, Some(t)) && Stuck(s, t) && OrderlyRun(s, steps, s')
    ensures Stuck(s', t)
    decreases |steps|
  {
    hide ShutdownInv, Stuck, Enabled, Next, Orderly;
    if steps == [] {
    } else {
      StuckStep(s, steps[0], t);
      StaysStuck(Next(s, steps[0]), steps[1..], s', t);
    }
  }

  /** Over any steps, orderly or not: once the publisher has left its select for good, pending
      senders stay pending, and the closer t gets on by closing their channel only. */
  ghost predicate Doomed(s: State, t: nat) {
    && s.ch.closed && s.ch.senders.Keys != {} && !Running(s.pub)
    && (At(s.ch, t, ClosingPub) || (t in s.ch.closers && s.ch.pubClosed))
  }

  lemma DoomedStep(s: State, step: Step, t: nat)
    requires Doomed(s, t) && Enabled(s, step)
    ensures Doomed(Next(s, step), t)
  {
    hide Qualified, Topic, Subscribed, Distinct, IDs, Accept, Pairs;
  }

  lemma {:induction false} StaysDoomed(s: State, steps: seq<Step>, s': State, t: nat)
    requires Doomed(s, t) && Reaches(s, steps, s')
    ensures Doomed(s', t)
    decreases |steps|
  {
    hide Doomed, Enabled, Next;
    if steps == [] {
    } else {
      DoomedStep(s, steps[0], t);
      StaysDoomed(Next(s, steps[0]), steps[1..], s', t);
    }
  }

  lemma StuckIsDoomed(s: State, t: nat)
    requires ShutdownInv(s, Some(t)) && Stuck(s, t)
    ensures Doomed(s, t)
  {
  }

  // ---- it can, before and after ----

  /** What is kept on the way. */
  ghost predicate Good(s: State, t: nat) {
    ShutdownInv(s, Some(t)) && DeliveryInv(s.d, s.pub) && SendersInv(s.ch)
  }

  lemma GoodStep(s: State, step: Step, t: nat)
    requires Good(s, t) && Enabled(s, step) && Orderly(s, step) && !step.CloseStart?
    ensures Good(Next(s, step), t)
  {
    hide ShutdownInv, DeliveryInv, SendersInv, Enabled, Next, Orderly;
    OrderlyStepIsSafe(s, step, Some(t));
    StepKeepsDelivery(s, step);
  }

  lemma {:induction false} Quietly(s: State, t: nat) returns (steps: seq<Step>, s': State)
    requires Good(s, t) && Running(s.pub)
    ensures OrderlyRun(s, steps, s') && Good(s', t) && s'.pub == Selecting && s'.ch == s.ch
    decreases Rank(s.pub)
  {
    hide Topic, Qualified, LogInv, RegistryInv, SendersInv;
    if s.pub == Selecting {
      steps, s' := [], s;
    } else {
      var step := FinishStep(s);
      GoodStep(s, step, t);
      var rest;
      rest, s' := Quietly(Next(s, step), t);
      steps := [step] + rest;
      OrderlyThen(s, step, rest, s');
    }
  }

  lemma HandsOver(s: State, t: nat, u: nat)
    requires Good(s, t) && s.pub == Selecting && u in s.ch.senders
    ensures Enabled(s, Send(u)) && Orderly(s, Send(u))
    ensures Running(Next(s, Send(u)).pub) && Next(s, Send(u)).ch == s.ch.(senders := s.ch.senders - {u})
  {
    hide Topic, Qualified, DeliveryInv, SendersInv;
  }

  /** All pending senders can hand over their messages while the publisher runs. */
  lemma {:induction false} Drained(s: State, t: nat) returns (steps: seq<Step>, s': State)
    requires Good(s, t) && Running(s.pub)
    ensures OrderlyRun(s, steps, s') && Good(s', t) && s'.pub == Selecting && s'.ch == s.ch.(senders := map[])
    decreases |s.ch.senders|
  {
    hide Good, Enabled, Next, Orderly;
    var a, m := Quietly(s, t);
    if s.ch.senders == map[] {
      steps, s' := a, m;
    } else {
      var u :| u in m.ch.senders;
      HandsOver(m, t, u);
      GoodStep(m, Send(u), t);
      assert (m.ch.senders - {u}).Keys == m.ch.senders.Keys - {u};
      var rest;
      rest, s' := Drained(Next(m, Send(u)), t);
      OrderlyThen(m, Send(u), rest, s');
      OrderlyOn(s, a, m, [Send(u)] + rest, s');
      steps := a + ([Send(u)] + rest);
    }
  }

  /** The next step of a Close that no sender holds up. */
  function ClosingStep(pc: Closer, t: nat): Step {
    match pc
    case Passed => CloseMark(t)
    case Stopping => CloseStop(t)
    case ClosingPub => ClosePub(t)
    case ClosingStop => CloseStopChan(t)
    case Awaiting => CloseAwait(t)
    case _ => CloseErrChan(t)
  }

  function Remaining(pc: Closer): nat {
    match pc
    case Passed => 6
    case Stopping => 5
    case ClosingPub => 4
    case ClosingStop => 3
    case Awaiting => 2
    case ClosingErr => 1
    case _ => 0
  }

  lemma ClosingAdvances(s: State, t: nat)
    requires Good(s, t) && s.ch.senders == map[] && (Running(s.pub) ==> s.pub == Selecting) && !At(s.ch, t, Done)
    ensures var step := ClosingStep(s.ch.closers[t], t);
            && Enabled(s, step) && Orderly(s, step)
            && var n := Next(s, step);
               n.ch.senders == map[] && (Running(n.pub) ==> n.pub == Selecting) && t in n.ch.closers
               && Remaining(n.ch.closers[t]) < Remaining(s.ch.closers[t])
  {
    hide Qualified, Topic, Subscribed, Distinct, IDs, Accept, Pairs, DeliveryInv, SendersInv;
  }

  lemma {:induction false} Completed(s: State, t: nat) returns (steps: seq<Step>, s': State)
    requires Good(s, t) && s.ch.senders == map[] && (Running(s.pub) ==> s.pub == Selecting)
    ensures OrderlyRun(s, steps, s') && At(s'.ch, t, Done)
    decreases if t in s.ch.closers then Remaining(s.ch.closers[t]) else 0
  {
    hide ShutdownInv, DeliveryInv, SendersInv, Enabled, Next, Orderly;
    if At(s.ch, t, Done) {
      steps, s' := [], s;
    } else {
      ClosingAdvances(s, t);
      Known(s, t);
      var step := ClosingStep(s.ch.closers[t], t);
      GoodStep(s, step, t);
      var rest;
      rest, s' := Completed(Next(s, step), t);
      OrderlyThen(s, step, rest, s');
      steps := [step] + rest;
    }
  }

  lemma Known(s: State, t: nat)
    requires ShutdownInv(s, Some(t))
    ensures t in s.ch.closers && s.ch.closers[t] != Already
  {
  }

  /** Senders are pending only while the publisher runs, or the Close is stuck. */
  lemma PendingMeansRunning(s: State, t: nat)
    requires ShutdownInv(s, Some(t)) && !Stuck(s, t)
    ensures Running(s.pub) || s.ch.senders == map[]
  {
    assert s.ch.senders.Keys == {} ==> s.ch.senders == map[];
  }

  /** In every state of every orderly run, the Close that found the service open can complete
      with no sender left behind, whatever steps may follow, exactly if it is not stuck; and it
      can complete by orderly steps exactly then, too. */
  lemma CloseCompletesIff(run: seq<Step>, s: State, t: nat)
    requires OrderlyRun(INIT, run, s) && t in s.ch.closers && s.ch.closers[t] != Already
    ensures !Stuck(s, t) <==> exists steps, s' :: Reaches(s, steps, s') && CleanlyDone(s', t)
    ensures !Stuck(s, t) <==> exists steps, s' :: OrderlyRun(s, steps, s') && At(s'.ch, t, Done) && !s'.panicked
  {
    hide Enabled, Next, Orderly, DeliveryInv, SendersInv, Stuck, Doomed;
    var closer := OrderlyRunsAreSafe(INIT, run, s, None);
    InitDelivery();
    DeliveryOverRuns(INIT, run, s);
    if Stuck(s, t) {
      forall steps, s' | OrderlyRun(s, steps, s') ensures !At(s'.ch, t, Done) {
        StaysStuck(s, steps, s', t);
        StuckIsNotDone(s', t);
      }
      StuckIsDoomed(s, t);
      forall steps, s' | Reaches(s, steps, s') ensures !CleanlyDone(s', t) {
        StaysDoomed(s, steps, s', t);
        DoomedIsNotClean(s', t);
      }
    } else {
      PendingMeansRunning(s, t);
      var a, m := [], s;
      if Running(s.pub) { a, m := Drained(s, t); }
      var b, s' := Completed(m, t);
      OrderlyOn(s, a, m, b, s');
      var c := OrderlyRunsAreSafe(s, a + b, s', closer);
      DoneIsClean(s', t, c);
    }
  }

  /** Close returned nil, nothing panicked and no sender waits on a closed channel. */
  ghost predicate CleanlyDone(s: State, t: nat) {
    At(s.ch, t, Done) && !s.panicked && s.ch.senders.Keys == {}
  }

  lemma DoneIsClean(s: State, t: nat, closer: Option<nat>)
    requires ShutdownInv(s, closer) && At(s.ch, t, Done)
    ensures CleanlyDone(s, t)
  {
  }

  lemma DoomedIsNotClean(s: State, t: nat)
    requires Doomed(s, t)
    ensures !CleanlyDone(s, t)
  {
  }

  /** However a stuck Close comes to return nil: something has panicked, or a sender left behind
      panics as soon as it is scheduled. */
  lemma LeftBehindPanics(run: seq<Step>, s: State, steps: seq<Step>, s': State, t: nat)
    requires OrderlyRun(INIT, run, s) && Stuck(s, t) && Reaches(s, steps, s') && At(s'.ch, t, Done)
    ensures s'.panicked || exists u :: Enabled(s', Send(u)) && Next(s', Send(u)).panicked
  {
    hide Orderly, DeliveryInv, SendersInv, Accept, Subscribed, Pairs, IDs, Distinct, Topic, Qualified;
    var closer := OrderlyRunsAreSafe(INIT, run, s, None);
    StuckIsDoomed(s, t);
    StaysDoomed(s, steps, s', t);
    if !s'.panicked {
      var u :| u in s'.ch.senders.Keys;
      assert Enabled(s', Send(u)) && Next(s', Send(u)).panicked;
    }
  }

  lemma StuckIsNotDone(s: State, t: nat)
    requires Stuck(s, t)
    ensures !At(s.ch, t, Done)
  {
  }

  /** A Close does get stuck: SendCheck, then Close up to its receive from the publisher. */
  lemma CanGetStuck(msg: string)
    requires Qualified(msg)
    ensures exists run, s :: OrderlyRun(INIT, run, s) && Stuck(s, 1)
  {
    var run, s := ToTheBrink(msg);
    assert Stuck(s, 1);
  }
}
