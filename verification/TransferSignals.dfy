/**
  How an IVR waiting for a transfer is told its outcome, exactly once.

  The IVR puts a fresh channel of capacity one into the session and blocks on it.
  Four terminators race for it: the transfer ending, nobody answering, the caller
  hanging up, and the session's cleanup. Each takes the channel out of the session
  under the session's lock and, in a later step of its own, sends or closes. One
  step here is one critical section; steps of any number of goroutines interleave.
 */
module TransferSignals {
  import opened Wrappers

  type Worker = nat
  type Chan = nat

  datatype Status = NoTransfer | Waiting | Connected | Completed | NoAnswer | Abandoned

  /** An outcome carries the number of the transfer it is about; nobody reads that number. */
  datatype Message = Sent(outcome: Status, transfer: nat) | Closed

  /** Where a goroutine is between two critical sections. */
  datatype Phase =
    | Connecting                                   // claimed the transfer, is setting up the agent's audio
    | HungUp                                       // saw the transfer waiting, is about to abandon it
    | Settled(outcome: Status, transfer: nat)      // has set the transfer's status, is about to take the channel
    | ToSend(channel: Option<Chan>, outcome: Status, transfer: nat)
    | Removed                                      // has removed the session, is about to take the channel
    | ToClose(channel: Option<Chan>)

  datatype Ivr = Running | Blocked(channel: Chan)

  /**
    `messages` holds what was put into each channel so far, `received` how often
    the IVR was woken by it, `births` how many transfers had been started when the
    channel was made, `connects` how many agents claimed each transfer (its length
    numbers them), `removals` how often a cleanup removed the session. No step
    reads these but the receive.
   */
  datatype State = State(
    status: Status,
    done: Option<Chan>,
    listed: bool,
    ivr: Ivr,
    workers: map<Worker, Phase>,
    messages: seq<seq<Message>>,
    received: seq<nat>,
    births: seq<nat>,
    connects: seq<nat>,
    removals: nat)

  datatype Step =
    | ExecuteTransfer                              // the IVR creates a channel and blocks on it
    | StartWaiting                                 // a transfer is started: IVR, or a connected agent
    | Wake                                         // the IVR receives
    | Connect(worker: Worker)
    | SetUp(worker: Worker)
    | GiveUp(worker: Worker)
    | End(worker: Worker)
    | TimeOut(worker: Worker)
    | HangUp(worker: Worker)
    | Abandon(worker: Worker)
    | Take(worker: Worker)
    | Send(worker: Worker)
    | CleanUp(worker: Worker)
    | TakeToClose(worker: Worker)
    | Close(worker: Worker)

  predicate Idle(s: State, w: Worker)
  {
    w !in s.workers
  }

  predicate In(s: State, w: Worker, p: Phase)
  {
    w in s.workers && s.workers[w] == p
  }

  /** The channel a goroutine has taken and not yet used. */
  function Held(p: Phase): Option<Chan>
  {
    match p
    case ToSend(channel, _, _) => channel
    case ToClose(channel) => channel
    case _ => None
  }

  predicate Holds(s: State, w: Worker, c: Chan)
  {
    w in s.workers && Held(s.workers[w]) == Some(c)
  }

  predicate Enabled(s: State, step: Step)
  {
    match step
    case ExecuteTransfer => s.ivr.Running?
    case StartWaiting => true
    case Wake => s.ivr.Blocked? && s.ivr.channel < |s.messages| && s.messages[s.ivr.channel] != []
    case Connect(w) => Idle(s, w) && s.status == Waiting
    case SetUp(w) => In(s, w, Connecting)
    case GiveUp(w) => In(s, w, Connecting)
    case End(w) => Idle(s, w) && s.status != Completed
    case TimeOut(w) => Idle(s, w) && s.status == Waiting
    case HangUp(w) => Idle(s, w) && s.status == Waiting
    case Abandon(w) => In(s, w, HungUp)
    case Take(w) => w in s.workers && s.workers[w].Settled?
    case Send(w) => w in s.workers && s.workers[w].ToSend?
    case CleanUp(w) => Idle(s, w) && s.listed && s.status != Waiting
    case TakeToClose(w) => In(s, w, Removed)
    case Close(w) => w in s.workers && s.workers[w].ToClose?
  }

  function Enter(s: State, w: Worker, p: Phase): State
  {
    s.(workers := s.workers[w := p])
  }

  function Leave(s: State, w: Worker): State
  {
    s.(workers := s.workers - {w})
  }

  function Put(s: State, c: Option<Chan>, m: Message): State
  {
    if c.Some? && c.value < |s.messages|
    then s.(messages := s.messages[c.value := s.messages[c.value] + [m]]) else s
  }

  /** A goroutine that finds no channel to send to goes on to clean up; that is an idle goroutine's `CleanUp`. */
  function Apply(s: State, step: Step): State
    requires Enabled(s, step)
  {
    match step
    case ExecuteTransfer =>
      s.(done := Some(|s.messages|), ivr := Blocked(|s.messages|), messages := s.messages + [[]],
         received := s.received + [0], births := s.births + [|s.connects|])
    case StartWaiting => s.(status := Waiting, connects := s.connects + [0])
    case Wake =>
      s.(ivr := Running,
         received := if s.ivr.channel < |s.received|
                     then s.received[s.ivr.channel := s.received[s.ivr.channel] + 1] else s.received)
    case Connect(w) =>
      Enter(s, w, Connecting).(
        status := Connected,
        connects := if s.connects == [] then []
                    else s.connects[|s.connects| - 1 := s.connects[|s.connects| - 1] + 1])
    case SetUp(w) => Leave(s, w).(status := Connected)
    case GiveUp(w) => Leave(s, w)
    case End(w) => Enter(s, w, Settled(Completed, |s.connects|)).(status := Completed)
    case TimeOut(w) => Enter(s, w, Settled(NoAnswer, |s.connects|)).(status := NoAnswer)
    case HangUp(w) => Enter(s, w, HungUp)
    case Abandon(w) => Enter(s, w, Settled(Abandoned, |s.connects|)).(status := Abandoned)
    case Take(w) => Enter(s, w, ToSend(s.done, s.workers[w].outcome, s.workers[w].transfer)).(done := None)
    case Send(w) => Put(Leave(s, w), s.workers[w].channel, Sent(s.workers[w].outcome, s.workers[w].transfer))
    case CleanUp(w) => Enter(s, w, Removed).(listed := false, removals := s.removals + 1)
    case TakeToClose(w) =>
      Enter(s, w, ToClose(s.done)).(done := None, status := if s.status == Waiting then Abandoned else s.status)
    case Close(w) => Put(Leave(s, w), s.workers[w].channel, Closed)
  }

  predicate Possible(s: State, steps: seq<Step>)
    decreases |steps|
  {
    steps == [] || (Enabled(s, steps[0]) && Possible(Apply(s, steps[0]), steps[1..]))
  }

  function Run(s: State, steps: seq<Step>): State
    requires Possible(s, steps)
    decreases |steps|
  {
    if steps == [] then s else Run(Apply(s, steps[0]), steps[1..])
  }

  /** A new call. */
  function Start(): State
  {
    State(NoTransfer, None, true, Running, map[], [], [], [], [], 0)
  }

  // One signal per channel ------------------------------------------------------------

  predicate Fresh(s: State, c: Chan)
  {
    c < |s.messages| && s.messages[c] == []
  }

  /** A channel nobody has used is in at most one place: the session, or one goroutine. */
  ghost predicate OnePlace(s: State)
  {
    && (s.done.Some? ==> Fresh(s, s.done.value))
    && (forall w: Worker, c: Chan :: Holds(s, w, c) ==> Fresh(s, c) && s.done != Some(c))
    && (forall v: Worker, w: Worker, c: Chan :: Holds(s, v, c) && Holds(s, w, c) ==> v == w)
  }

  /** The channel the IVR is blocked on has its message, or is where a terminator will find it or has it. */
  ghost predicate NotLost(s: State)
  {
    s.ivr.Blocked? ==>
      && s.ivr.channel < |s.messages| == |s.received|
      && s.received[s.ivr.channel] == 0
      && (s.messages[s.ivr.channel] != [] || s.done == Some(s.ivr.channel) || exists w: Worker :: Holds(s, w, s.ivr.channel))
  }

  ghost predicate Counted(s: State)
  {
    && |s.received| == |s.messages| == |s.births|
    && s.removals == (if s.listed then 0 else 1)
    && (forall c :: 0 <= c < |s.messages| ==> |s.messages[c]| <= 1 && s.received[c] <= 1)
    && (forall i :: 0 <= i < |s.connects| ==> s.connects[i] <= 1)
    && (s.status == Waiting ==> s.connects != [] && s.connects[|s.connects| - 1] == 0)
  }

  ghost predicate Sound(s: State)
  {
    Counted(s) && OnePlace(s) && NotLost(s)
  }

  lemma StartIsSound()
    ensures Sound(Start())
  {
  }

  /** Steps that touch no channel. */
  predicate StatusStep(step: Step)
  {
    step.StartWaiting? || step.Connect? || step.SetUp? || step.GiveUp? || step.End? || step.TimeOut? || step.HangUp?
    || step.Abandon? || step.CleanUp?
  }

  lemma StatusKeepsHolds(s: State, step: Step)
    requires Enabled(s, step) && StatusStep(step)
    ensures forall w: Worker, c: Chan :: Holds(Apply(s, step), w, c) <==> Holds(s, w, c)
  {
  }

  lemma StatusKeepsSound(s: State, step: Step)
    requires Sound(s) && Enabled(s, step) && StatusStep(step)
    ensures Sound(Apply(s, step))
  {
    StatusKeepsHolds(s, step);
    var after := Apply(s, step);
    if s.ivr.Blocked? && !(s.messages[s.ivr.channel] != [] || s.done == Some(s.ivr.channel)) {
      var w: Worker :| Holds(s, w, s.ivr.channel);
      assert Holds(after, w, s.ivr.channel);
    }
  }

  lemma IvrKeepsSound(s: State, step: Step)
    requires Sound(s) && Enabled(s, step) && (step.ExecuteTransfer? || step.Wake?)
    ensures Sound(Apply(s, step))
  {
    var after := Apply(s, step);
    assert forall w: Worker, c: Chan :: Holds(after, w, c) <==> Holds(s, w, c);
  }

  lemma TakeKeepsSound(s: State, step: Step)
    requires Sound(s) && Enabled(s, step) && (step.Take? || step.TakeToClose?)
    ensures Sound(Apply(s, step))
  {
    var after := Apply(s, step);
    var taker := step.worker;
    assert forall w: Worker, c: Chan :: Holds(after, w, c) <==> if w == taker then s.done == Some(c) else Holds(s, w, c);
    if s.ivr.Blocked? && s.messages[s.ivr.channel] == [] {
      if s.done == Some(s.ivr.channel) {
        assert Holds(after, taker, s.ivr.channel);
      } else {
        var w: Worker :| Holds(s, w, s.ivr.channel);
        assert Holds(after, w, s.ivr.channel);
      }
    }
  }

  lemma PutKeepsCounted(s: State, step: Step)
    requires Sound(s) && Enabled(s, step) && (step.Send? || step.Close?)
    ensures Counted(Apply(s, step))
  {
    var channel := Held(s.workers[step.worker]);
    assert channel.Some? ==> Holds(s, step.worker, channel.value);
  }

  lemma PutKeepsOnePlace(s: State, step: Step)
    requires Sound(s) && Enabled(s, step) && (step.Send? || step.Close?)
    ensures OnePlace(Apply(s, step))
  {
    var after := Apply(s, step);
    var channel := Held(s.workers[step.worker]);
    assert channel.Some? ==> Holds(s, step.worker, channel.value);
    assert forall w: Worker, c: Chan :: Holds(after, w, c) <==> w != step.worker && Holds(s, w, c);
  }

  lemma PutKeepsSound(s: State, step: Step)
    requires Sound(s) && Enabled(s, step) && (step.Send? || step.Close?)
    ensures Sound(Apply(s, step))
  {
    PutKeepsCounted(s, step);
    PutKeepsOnePlace(s, step);
    var after := Apply(s, step);
    var sender := step.worker;
    var channel := Held(s.workers[sender]);
    assert channel.Some? ==> Holds(s, sender, channel.value);
    assert forall w: Worker, c: Chan :: Holds(after, w, c) <==> w != sender && Holds(s, w, c);
    assert forall c :: 0 <= c < |s.messages| && channel != Some(c) ==> after.messages[c] == s.messages[c];
    if s.ivr.Blocked? && after.messages[s.ivr.channel] == [] && s.done != Some(s.ivr.channel) {
      var w: Worker :| Holds(s, w, s.ivr.channel);
      assert Holds(after, w, s.ivr.channel);
    }
  }

  lemma StepKeepsSound(s: State, step: Step)
    requires Sound(s) && Enabled(s, step)
    ensures Sound(Apply(s, step))
  {
    if StatusStep(step) {
      StatusKeepsSound(s, step);
    } else if step.ExecuteTransfer? || step.Wake? {
      IvrKeepsSound(s, step);
    } else if step.Take? || step.TakeToClose? {
      TakeKeepsSound(s, step);
    } else {
      PutKeepsSound(s, step);
    }
  }

  lemma {:induction false} EveryRunIsSound(s: State, steps: seq<Step>)
    requires Sound(s) && Possible(s, steps)
    ensures Sound(Run(s, steps))
    decreases |steps|
  {
    if steps != [] {
      StepKeepsSound(s, steps[0]);
      EveryRunIsSound(Apply(s, steps[0]), steps[1..]);
    }
  }

  /**
    In every interleaving: each channel gets at most one send or close in all; a
    goroutine about to use a channel finds it empty and open, so it neither blocks
    nor sends after a close; the IVR sees at most one outcome per channel; at most
    one agent's connect succeeds per transfer; and the session is removed once.
   */
  lemma SignalledOnce(steps: seq<Step>)
    requires Possible(Start(), steps)
    ensures var s := Run(Start(), steps);
      && (forall c :: 0 <= c < |s.messages| ==> |s.messages[c]| <= 1)
      && (forall w: Worker, c: Chan :: Holds(s, w, c) ==> c < |s.messages| && s.messages[c] == [])
      && |s.received| == |s.messages|
      && (forall c :: 0 <= c < |s.messages| ==> s.received[c] <= 1)
      && (forall i :: 0 <= i < |s.connects| ==> s.connects[i] <= 1)
      && s.removals <= 1
  {
    StartIsSound();
    EveryRunIsSound(Start(), steps);
  }

  /** No signal is lost: a blocked IVR's channel is in the session for the next terminator, or with one, or has its message. */
  lemma NeverStranded(steps: seq<Step>)
    requires Possible(Start(), steps)
    ensures var s := Run(Start(), steps);
      s.ivr.Blocked? ==>
        Enabled(s, Wake) || s.done == Some(s.ivr.channel) || exists w: Worker :: Holds(s, w, s.ivr.channel)
  {
    StartIsSound();
    EveryRunIsSound(Start(), steps);
  }

  // Whose outcome it is ---------------------------------------------------------------------

  /** The transfer was started for the channel: after it was made and before the next one. */
  predicate Belongs(s: State, c: Chan, transfer: nat)
    requires c < |s.births|
  {
    s.births[c] < transfer && (c + 1 < |s.births| ==> transfer <= s.births[c + 1])
  }

  /** A goroutine between settling a transfer and taking the channel finds its own transfer's channel or none. */
  ghost predicate SettledOwn(s: State)
  {
    forall w :: w in s.workers && s.workers[w].Settled? && s.done.Some? ==>
      s.done.value < |s.births| && Belongs(s, s.done.value, s.workers[w].transfer)
  }

  /** One that has taken a channel is about that channel's transfer. */
  ghost predicate TakenOwn(s: State)
  {
    forall w :: w in s.workers && s.workers[w].ToSend? && s.workers[w].channel.Some? ==>
      s.workers[w].channel.value < |s.births| && Belongs(s, s.workers[w].channel.value, s.workers[w].transfer)
  }

  /** And so is every outcome sent. */
  ghost predicate SentOwn(s: State)
  {
    && |s.messages| == |s.births|
    && forall c, i :: 0 <= c < |s.messages| && 0 <= i < |s.messages[c]| && s.messages[c][i].Sent? ==>
         Belongs(s, c, s.messages[c][i].transfer)
  }

  ghost predicate Owned(s: State)
  {
    SettledOwn(s) && TakenOwn(s) && SentOwn(s)
  }

  /** No number lies ahead of the transfers started so far, and the channel in the session is the latest one. */
  ghost predicate Numbered(s: State)
  {
    && |s.messages| == |s.births|
    && (s.done.Some? ==> s.done.value == |s.births| - 1)
    && (forall c :: 0 <= c < |s.births| ==> s.births[c] <= |s.connects|)
    && (forall w :: w in s.workers && (s.workers[w].Settled? || s.workers[w].ToSend?) ==>
          s.workers[w].transfer <= |s.connects|)
    && (forall c, i :: 0 <= c < |s.messages| && 0 <= i < |s.messages[c]| && s.messages[c][i].Sent? ==>
          s.messages[c][i].transfer <= |s.connects|)
  }

  /**
    The IVR makes its next channel while no terminator is between its status
    update and its take; and a transfer is settled only once the transfer the
    channel was made for has been started.
   */
  ghost predicate Timely(s: State, step: Step)
  {
    match step
    case ExecuteTransfer => forall w :: w in s.workers ==> !s.workers[w].Settled?
    case End(_) => Started(s)
    case TimeOut(_) => Started(s)
    case Abandon(_) => Started(s)
    case _ => true
  }

  predicate Started(s: State)
  {
    s.done.Some? && s.done.value < |s.births| ==> s.births[s.done.value] < |s.connects|
  }

  lemma PutKeepsNumbered(s: State, step: Step)
    requires Numbered(s) && Enabled(s, step) && (step.Send? || step.Close?)
    ensures Numbered(Apply(s, step))
  {
    var channel := Held(s.workers[step.worker]);
    var after := Apply(s, step);
    assert forall c :: 0 <= c < |s.messages| && channel != Some(c) ==> after.messages[c] == s.messages[c];
  }

  lemma ExecuteKeepsNumbered(s: State)
    requires Numbered(s) && s.ivr.Running?
    ensures Numbered(Apply(s, ExecuteTransfer))
  {
    var after := Apply(s, ExecuteTransfer);
    assert forall c :: 0 <= c < |s.messages| ==> after.messages[c] == s.messages[c];
  }

  lemma StepKeepsNumbered(s: State, step: Step)
    requires Numbered(s) && Enabled(s, step)
    ensures Numbered(Apply(s, step))
  {
    if step.Send? || step.Close? {
      PutKeepsNumbered(s, step);
    } else if step.ExecuteTransfer? {
      ExecuteKeepsNumbered(s);
    }
  }

  /** Nothing changes for those who own their channels when goroutines leave. */
  lemma FewerWorkers(s: State, after: State)
    requires after.births == s.births && after.done == s.done
    requires forall w :: w in after.workers ==> w in s.workers && after.workers[w] == s.workers[w]
    requires SettledOwn(s) && TakenOwn(s)
    ensures SettledOwn(after) && TakenOwn(after)
  {
    assert forall c: nat, n: nat :: c < |s.births| && Belongs(s, c, n) ==> Belongs(after, c, n);
  }

  /** Making the next channel keeps everybody's own exactly when nobody is about to take. */
  lemma ExecuteOwns(s: State)
    requires Numbered(s) && Owned(s) && s.ivr.Running?
    ensures Owned(Apply(s, ExecuteTransfer)) <==> Timely(s, ExecuteTransfer)
  {
    var after := Apply(s, ExecuteTransfer);
    assert forall c :: 0 <= c < |s.messages| ==> after.messages[c] == s.messages[c];
    assert forall c :: 0 <= c < |s.births| ==> after.births[c] == s.births[c];
    assert after.births[|s.births|] == |s.connects|;
    if w :| w in s.workers && s.workers[w].Settled? {
      assert !Belongs(after, |s.births|, s.workers[w].transfer);
    }
  }

  /** Settling a transfer keeps it exactly when the channel's transfer has been started. */
  lemma SettleOwns(s: State, after: State, w: Worker, outcome: Status)
    requires Numbered(s) && Owned(s)
    requires after == Enter(s, w, Settled(outcome, |s.connects|)).(status := outcome)
    ensures Owned(after) <==> Started(s)
  {
    assert after.workers[w] == Settled(outcome, |s.connects|);
    assert forall v :: v in after.workers && v != w ==> v in s.workers && after.workers[v] == s.workers[v];
    assert forall c: nat, n: nat :: c < |s.births| ==> Belongs(s, c, n) == Belongs(after, c, n);
  }

  lemma SendOwns(s: State, step: Step)
    requires Numbered(s) && Owned(s) && Enabled(s, step) && (step.Send? || step.Close?)
    ensures Owned(Apply(s, step))
  {
    var after := Apply(s, step);
    var channel := Held(s.workers[step.worker]);
    FewerWorkers(s, after);
    assert forall c :: 0 <= c < |s.messages| && channel != Some(c) ==> after.messages[c] == s.messages[c];
  }

  lemma OtherOwns(s: State, step: Step)
    requires Numbered(s) && Owned(s) && Enabled(s, step)
    requires !step.ExecuteTransfer? && !step.End? && !step.TimeOut? && !step.Abandon? && !step.Send? && !step.Close?
    ensures Owned(Apply(s, step))
  {
  }

  /**
    The outcome the IVR gets is that of the transfer it waits for exactly as long
    as these two things keep apart: each step keeps ownership if and only if it is
    timely.
   */
  lemma StepKeepsOwned(s: State, step: Step)
    requires Numbered(s) && Owned(s) && Enabled(s, step)
    ensures Numbered(Apply(s, step))
    ensures Owned(Apply(s, step)) <==> Timely(s, step)
  {
    StepKeepsNumbered(s, step);
    if step.ExecuteTransfer? {
      ExecuteOwns(s);
    } else if step.End? {
      SettleOwns(s, Apply(s, step), step.worker, Completed);
    } else if step.TimeOut? {
      SettleOwns(s, Apply(s, step), step.worker, NoAnswer);
    } else if step.Abandon? {
      SettleOwns(s, Apply(s, step), step.worker, Abandoned);
    } else if step.Send? || step.Close? {
      SendOwns(s, step);
    } else {
      OtherOwns(s, step);
    }
  }

  ghost predicate TimelyRun(s: State, steps: seq<Step>)
    requires Possible(s, steps)
    decreases |steps|
  {
    steps == [] || (Timely(s, steps[0]) && TimelyRun(Apply(s, steps[0]), steps[1..]))
  }

  lemma {:induction false} TimelyRunIsOwned(s: State, steps: seq<Step>)
    requires Numbered(s) && Owned(s) && Possible(s, steps) && TimelyRun(s, steps)
    ensures Numbered(Run(s, steps)) && Owned(Run(s, steps))
    decreases |steps|
  {
    if steps != [] {
      StepKeepsOwned(s, steps[0]);
      TimelyRunIsOwned(Apply(s, steps[0]), steps[1..]);
    }
  }

  /** In every timely run, every outcome sent into a channel is about the transfer the IVR made that channel for. */
  lemma OutcomeOfItsTransfer(steps: seq<Step>)
    requires Possible(Start(), steps) && TimelyRun(Start(), steps)
    ensures var s := Run(Start(), steps);
      && |s.births| == |s.messages|
      && forall c, i :: 0 <= c < |s.messages| && 0 <= i < |s.messages[c]| && s.messages[c][i].Sent? ==>
           Belongs(s, c, s.messages[c][i].transfer)
  {
    TimelyRunIsOwned(Start(), steps);
  }

  /** The IVR waits on a channel that holds an outcome of another transfer. */
  ghost predicate Misled(s: State)
  {
    && s.ivr.Blocked?
    && s.ivr.channel < |s.messages| && s.ivr.channel < |s.births|
    && exists i :: 0 <= i < |s.messages[s.ivr.channel]| && s.messages[s.ivr.channel][i].Sent? &&
         !Belongs(s, s.ivr.channel, s.messages[s.ivr.channel][i].transfer)
  }

  /** A channel in the session is the one the IVR is blocked on. */
  predicate AtDone(s: State)
  {
    s.done.Some? ==> s.ivr == Blocked(s.done.value)
  }

  lemma StepKeepsAtDone(s: State, step: Step)
    requires Sound(s) && AtDone(s) && Enabled(s, step)
    ensures AtDone(Apply(s, step))
  {
  }

  /** A settled transfer's outcome goes into the channel in the session, though that was made for another. */
  lemma WrongOutcome(s: State, w: Worker)
    requires Numbered(s) && AtDone(s) && s.done.Some? && w in s.workers && s.workers[w].Settled?
    requires s.done.value < |s.births| && !Belongs(s, s.done.value, s.workers[w].transfer)
    ensures Possible(s, [Take(w), Send(w)]) && Misled(Run(s, [Take(w), Send(w)]))
  {
    var c, p := s.done.value, s.workers[w];
    var taken := Apply(s, Take(w));
    var sent := Apply(taken, Send(w));
    assert [Take(w), Send(w)][1..] == [Send(w)] && [Send(w)][1..] == [];
    assert Run(s, [Take(w), Send(w)]) == Run(taken, [Send(w)]) == Run(sent, []) == sent;
    var i := |s.messages[c]|;
    assert sent.messages[c][i] == Sent(p.outcome, p.transfer);
  }

  /**
    Every untimely step does mislead: its own take and send, nothing else, put an
    outcome of another transfer into the channel the IVR waits on.
   */
  lemma UntimelyMisleads(s: State, step: Step) returns (w: Worker)
    requires Numbered(s) && AtDone(s) && Enabled(s, step) && !Timely(s, step)
    ensures Possible(s, [step, Take(w), Send(w)]) && Misled(Run(s, [step, Take(w), Send(w)]))
  {
    var next := Apply(s, step);
    StepKeepsNumbered(s, step);
    if step.ExecuteTransfer? {
      w :| w in s.workers && s.workers[w].Settled?;
      assert next.births[|s.births|] == |s.connects|;
    } else {
      w := step.worker;
    }
    WrongOutcome(next, w);
    assert [step, Take(w), Send(w)][1..] == [Take(w), Send(w)];
  }

  lemma {:induction false} RunIsAtDone(s: State, steps: seq<Step>)
    requires Sound(s) && AtDone(s) && Possible(s, steps)
    ensures AtDone(Run(s, steps))
    decreases |steps|
  {
    if steps != [] {
      StepKeepsSound(s, steps[0]);
      StepKeepsAtDone(s, steps[0]);
      RunIsAtDone(Apply(s, steps[0]), steps[1..]);
    }
  }

  /**
    So the condition is exact over runs: a timely run never misleads the IVR, and
    any run that has been timely so far can be misled within two more steps by any
    step that is not.
   */
  lemma TimelyExactly(steps: seq<Step>, step: Step)
    requires Possible(Start(), steps) && TimelyRun(Start(), steps) && Enabled(Run(Start(), steps), step)
    ensures var s := Run(Start(), steps);
      && !Misled(s)
      && (Timely(s, step) ==> !Misled(Apply(s, step)))
      && (!Timely(s, step) ==> exists w :: Possible(s, [step, Take(w), Send(w)]) && Misled(Run(s, [step, Take(w), Send(w)])))
  {
    var s := Run(Start(), steps);
    TimelyRunIsOwned(Start(), steps);
    StartIsSound();
    RunIsAtDone(Start(), steps);
    StepKeepsOwned(s, step);
    if !Timely(s, step) {
      var w := UntimelyMisleads(s, step);
    }
  }

  /** A first transfer is settled twice: nobody answers, then it is ended; only the first has told the IVR. */
  function TwiceSettled(): seq<Step>
  {
    [ExecuteTransfer, StartWaiting, TimeOut(1), End(2), Take(1), Send(1), Wake]
  }

  /** The IVR goes on to a second transfer, and the late terminator of the first answers for it. */
  function LateAnswer(): seq<Step>
  {
    [ExecuteTransfer, StartWaiting, Take(2), Send(2), Wake]
  }

  lemma OneStep(s: State, steps: seq<Step>, k: nat, after: State)
    requires k < |steps| && Enabled(s, steps[k]) && after == Apply(s, steps[k]) && Possible(after, steps[k + 1..])
    ensures Possible(s, steps[k..]) && Run(s, steps[k..]) == Run(after, steps[k + 1..])
  {
    assert steps[k..][0] == steps[k] && steps[k..][1..] == steps[k + 1..];
  }

  /** Both have settled the first transfer; neither has taken the channel. */
  function BothSettled(): State
  {
    State(Completed, Some(0), true, Blocked(0), map[1 := Settled(NoAnswer, 1), 2 := Settled(Completed, 1)], [[]], [0],
          [0], [0], 0)
  }

  /** The first has told the IVR, which runs on; the second is still about to take. */
  function OneTold(): State
  {
    State(Completed, None, true, Running, map[2 := Settled(Completed, 1)], [[Sent(NoAnswer, 1)]], [1], [0], [0], 0)
  }

  lemma FirstTells()
    ensures Possible(BothSettled(), TwiceSettled()[4..]) && Run(BothSettled(), TwiceSettled()[4..]) == OneTold()
  {
    var steps := TwiceSettled();
    var s4 := BothSettled();
    var s5 := s4.(done := None, workers := map[1 := ToSend(Some(0), NoAnswer, 1), 2 := Settled(Completed, 1)]);
    var s6 := s5.(messages := [[Sent(NoAnswer, 1)]], workers := map[2 := Settled(Completed, 1)]);
    OneStep(s6, steps, 6, OneTold());
    assert s5.workers - {1} == s6.workers && s5.messages[0] + [Sent(NoAnswer, 1)] == [Sent(NoAnswer, 1)];
    OneStep(s5, steps, 5, s6);
    assert s4.workers[1 := ToSend(Some(0), NoAnswer, 1)] == s5.workers;
    OneStep(s4, steps, 4, s5);
  }

  lemma TwiceSettledReaches()
    ensures Possible(Start(), TwiceSettled()) && Run(Start(), TwiceSettled()) == OneTold()
  {
    var steps := TwiceSettled();
    var s1 := State(NoTransfer, Some(0), true, Blocked(0), map[], [[]], [0], [0], [], 0);
    var s2 := s1.(status := Waiting, connects := [0]);
    var s3 := s2.(status := NoAnswer, workers := map[1 := Settled(NoAnswer, 1)]);
    FirstTells();
    OneStep(s3, steps, 3, BothSettled());
    OneStep(s2, steps, 2, s3);
    OneStep(s1, steps, 1, s2);
    OneStep(Start(), steps, 0, s1);
    assert steps[0..] == steps;
  }

  /** The second transfer waits; the late terminator holds its channel. */
  function LateHolds(): State
  {
    State(Waiting, None, true, Blocked(1), map[2 := ToSend(Some(1), Completed, 1)], [[Sent(NoAnswer, 1)], []], [1, 0],
          [0, 1], [0, 0], 0)
  }

  function LateTold(): State
  {
    State(Waiting, None, true, Running, map[], [[Sent(NoAnswer, 1)], [Sent(Completed, 1)]], [1, 1], [0, 1], [0, 0], 0)
  }

  lemma LateTells()
    ensures Possible(LateHolds(), LateAnswer()[3..]) && Run(LateHolds(), LateAnswer()[3..]) == LateTold()
  {
    var steps := LateAnswer();
    var s3 := LateHolds();
    var s4 := s3.(messages := [[Sent(NoAnswer, 1)], [Sent(Completed, 1)]], workers := map[]);
    OneStep(s4, steps, 4, LateTold());
    assert s3.workers - {2} == s4.workers && s3.messages[1] + [Sent(Completed, 1)] == [Sent(Completed, 1)];
    OneStep(s3, steps, 3, s4);
  }

  lemma LateAnswerReaches()
    ensures Possible(OneTold(), LateAnswer()) && Run(OneTold(), LateAnswer()) == LateTold()
  {
    var steps := LateAnswer();
    var s1 := OneTold().(done := Some(1), ivr := Blocked(1), messages := [[Sent(NoAnswer, 1)], []], received := [1, 0],
                         births := [0, 1]);
    var s2 := s1.(status := Waiting, connects := [0, 0]);
    LateTells();
    assert s2.workers[2 := ToSend(Some(1), Completed, 1)] == LateHolds().workers;
    OneStep(s2, steps, 2, LateHolds());
    OneStep(s1, steps, 1, s2);
    OneStep(OneTold(), steps, 0, s1);
    assert steps[0..] == steps;
  }

  lemma {:induction false} RunConcat(s: State, a: seq<Step>, b: seq<Step>)
    requires Possible(s, a) && Possible(Run(s, a), b)
    ensures Possible(s, a + b) && Run(s, a + b) == Run(Run(s, a), b)
    decreases |a|
  {
    if a == [] {
      assert a + b == b;
    } else {
      assert (a + b)[0] == a[0] && (a + b)[1..] == a[1..] + b;
      RunConcat(Apply(s, a[0]), a[1..], b);
    }
  }

  /**
    Without the guard it fails: the IVR has been woken on its second channel by
    "completed", an outcome of the first transfer, while the second is still
    waiting and no agent has connected to either.
   */
  lemma LateTerminatorAnswersForTheNext()
    ensures Possible(Start(), TwiceSettled() + LateAnswer())
    ensures var s := Run(Start(), TwiceSettled() + LateAnswer());
      && s.status == Waiting && s.connects == [0, 0]
      && s.ivr.Running? && s.received == [1, 1]
      && s.messages == [[Sent(NoAnswer, 1)], [Sent(Completed, 1)]]
      && |s.births| == 2 && !Belongs(s, 1, 1)
  {
    TwiceSettledReaches();
    LateAnswerReaches();
    RunConcat(Start(), TwiceSettled(), LateAnswer());
  }

  // What an outcome says ------------------------------------------------------------------

  function TransfersStarted(steps: seq<Step>): nat
  {
    if steps == [] then 0
    else TransfersStarted(steps[..|steps| - 1]) + if steps[|steps| - 1].StartWaiting? then 1 else 0
  }

  /** The step that gives a transfer this outcome: it ends, nobody answers in time, or the caller hung up. */
  predicate GivesOutcome(step: Step, outcome: Status)
  {
    match step
    case End(_) => outcome == Completed
    case TimeOut(_) => outcome == NoAnswer
    case Abandon(_) => outcome == Abandoned
    case _ => false
  }

  /** Step `k` gave this transfer, the last one started by then, this outcome. */
  predicate GivenAt(steps: seq<Step>, k: nat, outcome: Status, transfer: nat)
    requires k < |steps|
  {
    GivesOutcome(steps[k], outcome) && TransfersStarted(steps[..k]) == transfer
  }

  ghost predicate Given(steps: seq<Step>, outcome: Status, transfer: nat)
  {
    exists k :: 0 <= k < |steps| && GivenAt(steps, k, outcome, transfer)
  }

  ghost predicate CleanedUp(steps: seq<Step>)
  {
    exists k :: 0 <= k < |steps| && steps[k].CleanUp?
  }

  ghost predicate PhaseTrue(steps: seq<Step>, p: Phase)
  {
    match p
    case Settled(outcome, transfer) => Given(steps, outcome, transfer)
    case ToSend(_, outcome, transfer) => Given(steps, outcome, transfer)
    case Removed => CleanedUp(steps)
    case ToClose(_) => CleanedUp(steps)
    case _ => true
  }

  ghost predicate MessageTrue(steps: seq<Step>, m: Message)
  {
    match m
    case Sent(outcome, transfer) => Given(steps, outcome, transfer)
    case Closed => CleanedUp(steps)
  }

  /** What goroutines are about to tell and what was told really happened. */
  ghost predicate Truthful(steps: seq<Step>, s: State)
  {
    && |s.connects| == TransfersStarted(steps)
    && (forall w :: w in s.workers ==> PhaseTrue(steps, s.workers[w]))
    && (forall c, i :: 0 <= c < |s.messages| && 0 <= i < |s.messages[c]| ==> MessageTrue(steps, s.messages[c][i]))
  }

  lemma GivenLater(steps: seq<Step>, step: Step, outcome: Status, transfer: nat)
    ensures Given(steps, outcome, transfer) ==> Given(steps + [step], outcome, transfer)
    ensures GivesOutcome(step, outcome) && TransfersStarted(steps) == transfer ==> Given(steps + [step], outcome, transfer)
  {
    var more := steps + [step];
    if k :| 0 <= k < |steps| && GivenAt(steps, k, outcome, transfer) {
      assert more[..k] == steps[..k] && GivenAt(more, k, outcome, transfer);
    }
    assert more[..|steps|] == steps;
    assert GivesOutcome(step, outcome) && TransfersStarted(steps) == transfer ==> GivenAt(more, |steps|, outcome, transfer);
  }

  lemma CleanedUpLater(steps: seq<Step>, step: Step)
    ensures CleanedUp(steps) || step.CleanUp? ==> CleanedUp(steps + [step])
  {
    var more := steps + [step];
    assert forall k :: 0 <= k < |steps| ==> more[k] == steps[k];
    assert more[|steps|] == step;
  }

  lemma StepIsTruthful(steps: seq<Step>, s: State, step: Step)
    requires Truthful(steps, s) && Enabled(s, step)
    ensures Truthful(steps + [step], Apply(s, step))
  {
    var more, t := steps + [step], Apply(s, step);
    assert more[..|steps|] == steps;
    CleanedUpLater(steps, step);
    forall outcome, transfer
      ensures Given(steps, outcome, transfer) ==> Given(more, outcome, transfer)
    {
      GivenLater(steps, step, outcome, transfer);
    }
    forall w | w in t.workers
      ensures PhaseTrue(more, t.workers[w])
    {
      PhaseStaysTrue(steps, s, step, w);
    }
    forall c, i | 0 <= c < |t.messages| && 0 <= i < |t.messages[c]|
      ensures MessageTrue(more, t.messages[c][i])
    {
      MessageStaysTrue(steps, s, step, c, i);
    }
  }

  lemma PhaseStaysTrue(steps: seq<Step>, s: State, step: Step, w: Worker)
    requires Truthful(steps, s) && Enabled(s, step) && w in Apply(s, step).workers
    ensures PhaseTrue(steps + [step], Apply(s, step).workers[w])
  {
    CleanedUpLater(steps, step);
    var phase := Apply(s, step).workers[w];
    if phase.Settled? || phase.ToSend? {
      GivenLater(steps, step, phase.outcome, phase.transfer);
    }
    assert w in s.workers ==> PhaseTrue(steps, s.workers[w]);
  }

  lemma MessageStaysTrue(steps: seq<Step>, s: State, step: Step, c: Chan, i: nat)
    requires Truthful(steps, s) && Enabled(s, step)
    requires c < |Apply(s, step).messages| && i < |Apply(s, step).messages[c]|
    ensures MessageTrue(steps + [step], Apply(s, step).messages[c][i])
  {
    CleanedUpLater(steps, step);
    var m := Apply(s, step).messages[c][i];
    if m.Sent? {
      GivenLater(steps, step, m.outcome, m.transfer);
    }
    if c < |s.messages| && i < |s.messages[c]| {
      assert MessageTrue(steps, s.messages[c][i]);
    } else if step.Send? || step.Close? {
      assert PhaseTrue(steps, s.workers[step.worker]);
    }
  }

  lemma {:induction false} EveryRunIsTruthful(before: seq<Step>, s: State, steps: seq<Step>)
    requires Truthful(before, s) && Possible(s, steps)
    ensures Truthful(before + steps, Run(s, steps))
    decreases |steps|
  {
    if steps == [] {
      assert before + [] == before;
    } else {
      StepIsTruthful(before, s, steps[0]);
      EveryRunIsTruthful(before + [steps[0]], Apply(s, steps[0]), steps[1..]);
      assert before + [steps[0]] + steps[1..] == before + steps;
    }
  }

  /**
    What the IVR hears is what happened: a channel carries `Completed`, `NoAnswer`
    or `Abandoned` about a transfer only if that transfer was ended, timed out, or
    was abandoned by a caller hanging up while it was the latest one; and it is
    closed only by a cleanup.
   */
  lemma OutcomeIsTrue(steps: seq<Step>, c: Chan, i: nat)
    requires Possible(Start(), steps)
    requires c < |Run(Start(), steps).messages| && i < |Run(Start(), steps).messages[c]|
    ensures match Run(Start(), steps).messages[c][i]
      case Sent(outcome, transfer) => exists k :: 0 <= k < |steps| && GivenAt(steps, k, outcome, transfer)
      case Closed => exists k :: 0 <= k < |steps| && steps[k].CleanUp?
  {
    EveryRunIsTruthful([], Start(), steps);
    assert [] + steps == steps;
    assert MessageTrue(steps, Run(Start(), steps).messages[c][i]);
  }
}
