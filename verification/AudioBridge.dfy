/**
  The audio bridge: one `Start`, any number of `AttachCaller` and `Stop` calls.
  The caller's leg either starts with the bridge or arrives late, through a slot
  of capacity one that a goroutine reserved by `Start` listens to. One step here
  is one critical section, channel operation or goroutine exit.
 */
module AudioBridge {
  import opened Wrappers

  type Worker = nat

  datatype StartPhase =
    | NotCalled
    | Marking(agentReady: bool)                    // the caller's track is there: about to mark it attached
    | LaunchingCaller(agentReady: bool)
    | LaunchingAgent(agentReady: bool)
    | Awaiting                                     // in `wg.Wait`
    | Returned

  /** A forwarding goroutine. */
  datatype Leg = Unborn | Forwarding | Exited

  /** The goroutine listening to the slot. */
  datatype SlotLeg = NoSlot | Listening | SlotForwarding | SlotExited(fed: bool)

  datatype State = State(
    start: StartPhase,
    stopped: bool,
    stopClosed: bool,
    attached: bool,
    slot: Option<Worker>,                          // the leg in the channel's buffer, by who put it there
    sending: set<Worker>,                          // attaches that passed the check and are about to send
    closing: set<Worker>,                          // stops that set the flag and are about to close
    waitGroup: nat,
    callerLeg: Leg,
    agentLeg: Leg,
    slotLeg: SlotLeg,
    puts: nat)                                     // legs put into the slot so far; read by no step

  datatype Step =
    | CallStart(callerReady: bool, agentReady: bool)
    | MarkAttached
    | LaunchCaller
    | LaunchAgent
    | Return
    | AttachCheck(worker: Worker)
    | AttachSend(worker: Worker)
    | StopMark(worker: Worker)
    | StopClose(worker: Worker)
    | SlotStop
    | SlotTake
    | SlotDone
    | CallerDone
    | AgentDone

  predicate Enabled(s: State, step: Step)
  {
    match step
    case CallStart(_, _) => s.start.NotCalled?
    case MarkAttached => s.start.Marking?
    case LaunchCaller => s.start.LaunchingCaller?
    case LaunchAgent => s.start.LaunchingAgent?
    case Return => s.start.Awaiting? && s.waitGroup == 0
    case AttachCheck(w) => w !in s.sending
    case AttachSend(w) => w in s.sending && s.slot.None?
    case StopMark(w) => w !in s.closing
    case StopClose(w) => w in s.closing
    case SlotStop => s.slotLeg.Listening? && s.stopClosed
    case SlotTake => s.slotLeg.Listening? && s.slot.Some?
    case SlotDone => s.slotLeg.SlotForwarding?
    case CallerDone => s.callerLeg.Forwarding?
    case AgentDone => s.agentLeg.Forwarding?
  }

  function Done(s: State): State
  {
    s.(waitGroup := if s.waitGroup > 0 then s.waitGroup - 1 else 0)
  }

  function Apply(s: State, step: Step): State
    requires Enabled(s, step)
  {
    match step
    case CallStart(callerReady, agentReady) =>
      if callerReady then s.(start := Marking(agentReady))
      else s.(start := LaunchingAgent(agentReady), waitGroup := s.waitGroup + 1, slotLeg := Listening)
    case MarkAttached => s.(attached := true, start := LaunchingCaller(s.start.agentReady))
    case LaunchCaller =>
      s.(waitGroup := s.waitGroup + 1, callerLeg := Forwarding, start := LaunchingAgent(s.start.agentReady))
    case LaunchAgent =>
      if s.start.agentReady then s.(waitGroup := s.waitGroup + 1, agentLeg := Forwarding, start := Awaiting)
      else s.(start := Awaiting)
    case Return => s.(start := Returned)
    case AttachCheck(w) =>
      if s.stopped || s.attached then s else s.(attached := true, sending := s.sending + {w})
    case AttachSend(w) => s.(slot := Some(w), sending := s.sending - {w}, puts := s.puts + 1)
    case StopMark(w) => s.(stopped := true, closing := s.closing + {w})
    case StopClose(w) => s.(stopClosed := true, closing := s.closing - {w})
    case SlotStop => Done(s).(slotLeg := SlotExited(false))
    case SlotTake => s.(slotLeg := SlotForwarding, slot := None)
    case SlotDone => Done(s).(slotLeg := SlotExited(true))
    case CallerDone => Done(s).(callerLeg := Exited)
    case AgentDone => Done(s).(agentLeg := Exited)
  }

  predicate Possible(s: State, steps: seq<Step>)
    decreases |steps|
  {
    steps == [] || (Enabled(s, steps[0]) && Possible(Apply(s, steps[0]), steps[1..]))
  }

  function Run(s: State, steps: seq<Step>): State
    requires Possible(s, steps)
    decreases |steps|
  {
    if steps == [] then s else Run(Apply(s, steps[0]), steps[1..])
  }

  function New(): State
  {
    State(NotCalled, false, false, false, None, {}, {}, 0, Unborn, Unborn, NoSlot, 0)
  }

  // What holds in every state ---------------------------------------------------------

  function Live(s: State): nat
  {
    (if s.callerLeg.Forwarding? then 1 else 0) + (if s.agentLeg.Forwarding? then 1 else 0) +
    (if s.slotLeg.Listening? || s.slotLeg.SlotForwarding? then 1 else 0)
  }

  /** How many caller-to-agent forwarders have ever started. */
  function CallerLegs(s: State): nat
  {
    (if s.callerLeg.Unborn? then 0 else 1) + (if s.slotLeg.SlotForwarding? || s.slotLeg == SlotExited(true) then 1 else 0)
  }

  ghost predicate Sound(s: State)
  {
    // The wait group counts exactly the goroutines that have not exited.
    && s.waitGroup == Live(s)
    // One leg at most is on its way to the slot, in it, or past it.
    && (forall v, w :: v in s.sending && w in s.sending ==> v == w)
    && s.puts <= 1
    && (s.sending != {} ==> s.puts == 0)
    && (s.slot.Some? ==> s.puts == 1)
    && (s.puts == 1 || s.sending != {} ==> s.attached)
    && (s.puts == 0 ==> s.slot.None? && !s.slotLeg.SlotForwarding? && s.slotLeg != SlotExited(true))
    // A leg in the slot stays there until the goroutine takes it.
    && (s.puts == 1 && s.slot.None? ==> s.slotLeg.SlotForwarding? || s.slotLeg == SlotExited(true))
    // Start launches the caller's leg or reserves the slot, never both.
    && (s.callerLeg.Unborn? || s.slotLeg.NoSlot?)
    && (s.start.NotCalled? || s.start.Marking? || s.start.LaunchingCaller? ==>
          s.callerLeg.Unborn? && s.slotLeg.NoSlot? && s.agentLeg.Unborn?)
    && (s.start.LaunchingAgent? ==> s.agentLeg.Unborn?)
    && (s.start.Returned? ==> Live(s) == 0)
    && (s.start.LaunchingAgent? || s.start.Awaiting? || s.start.Returned? ==> !s.callerLeg.Unborn? || !s.slotLeg.NoSlot?)
    && (s.stopClosed || s.closing != {} ==> s.stopped)
  }

  lemma StartKeepsSound(s: State, step: Step)
    requires Sound(s) && Enabled(s, step) && (step.CallStart? || step.MarkAttached? || step.Return?)
    ensures Sound(Apply(s, step))
  {
  }

  lemma LaunchKeepsSound(s: State, step: Step)
    requires Sound(s) && Enabled(s, step) && (step.LaunchCaller? || step.LaunchAgent?)
    ensures Sound(Apply(s, step))
  {
  }

  lemma AttachKeepsSound(s: State, step: Step)
    requires Sound(s) && Enabled(s, step) && (step.AttachCheck? || step.AttachSend?)
    ensures Sound(Apply(s, step))
  {
  }

  lemma StopKeepsSound(s: State, step: Step)
    requires Sound(s) && Enabled(s, step) && (step.StopMark? || step.StopClose? || step.SlotStop?)
    ensures Sound(Apply(s, step))
  {
  }

  lemma ForwarderKeepsSound(s: State, step: Step)
    requires Sound(s) && Enabled(s, step)
    requires step.SlotTake? || step.SlotDone? || step.CallerDone? || step.AgentDone?
    ensures Sound(Apply(s, step))
  {
  }

  lemma StepKeepsSound(s: State, step: Step)
    requires Sound(s) && Enabled(s, step)
    ensures Sound(Apply(s, step))
  {
    match step
    case CallStart(_, _) | MarkAttached | Return => StartKeepsSound(s, step);
    case LaunchCaller | LaunchAgent => LaunchKeepsSound(s, step);
    case AttachCheck(_) | AttachSend(_) => AttachKeepsSound(s, step);
    case StopMark(_) | StopClose(_) | SlotStop => StopKeepsSound(s, step);
    case SlotTake | SlotDone | CallerDone | AgentDone => ForwarderKeepsSound(s, step);
  }

  lemma {:induction false} EveryRunIsSound(s: State, steps: seq<Step>)
    requires Sound(s) && Possible(s, steps)
    ensures Sound(Run(s, steps))
    decreases |steps|
  {
    if steps != [] {
      StepKeepsSound(s, steps[0]);
      EveryRunIsSound(Apply(s, steps[0]), steps[1..]);
    }
  }

  /**
    In every interleaving: at most one leg is ever put in the slot, so a send
    never blocks; at most one caller-to-agent forwarder ever runs; and once
    `Start` has returned, every forwarder it registered has exited.
   */
  lemma OneCallerLeg(steps: seq<Step>)
    requires Possible(New(), steps)
    ensures var s := Run(New(), steps);
      && s.puts <= 1
      && (forall w :: w in s.sending ==> Enabled(s, AttachSend(w)))
      && CallerLegs(s) <= 1
      && (s.start.Returned? ==> Live(s) == 0)
  {
    EveryRunIsSound(New(), steps);
  }

  /** What a stopped bridge still puts in the slot was under way before. */
  ghost predicate NothingNew(before: State, after: State)
  {
    && before.stopped && after.stopped
    && after.sending <= before.sending
    && after.puts + |after.sending| == before.puts + |before.sending|
    && (after.slot == before.slot || after.slot.None? || after.slot.value in before.sending)
  }

  lemma StoppedStep(s: State, step: Step)
    requires s.stopped && Enabled(s, step)
    ensures NothingNew(s, Apply(s, step))
    ensures !step.MarkAttached? ==> Apply(s, step).attached == s.attached
  {
    if step.AttachSend? {
      assert s.sending == Apply(s, step).sending + {step.worker};
    }
  }

  /**
    After `Stop` no attach passes its check any more: what still reaches the slot
    was already under way, and nothing else ever does. Only a `Start` that is
    about to mark the caller attached can still change that mark.
   */
  lemma {:induction false} AttachAfterStop(s: State, steps: seq<Step>)
    requires s.stopped && Possible(s, steps)
    ensures NothingNew(s, Run(s, steps))
    ensures MarkAttached !in steps ==> Run(s, steps).attached == s.attached
    decreases |steps|
  {
    if steps != [] {
      StoppedStep(s, steps[0]);
      AttachAfterStop(Apply(s, steps[0]), steps[1..]);
    }
  }

  /** Once `Start` has returned nothing is ever forwarded again, not even a leg still in the slot. */
  lemma {:induction false} NothingAfterReturn(s: State, steps: seq<Step>)
    requires Sound(s) && s.start.Returned? && Possible(s, steps)
    ensures Run(s, steps).start.Returned? && Live(Run(s, steps)) == 0
    ensures CallerLegs(Run(s, steps)) == CallerLegs(s)
    decreases |steps|
  {
    if steps != [] {
      StepKeepsSound(s, steps[0]);
      NothingAfterReturn(Apply(s, steps[0]), steps[1..]);
    }
  }

  /** A late leg is not lost: unless the bridge is stopped, the listening goroutine can take it. */
  lemma LateLegIsTaken(steps: seq<Step>)
    requires Possible(New(), steps)
    ensures var s := Run(New(), steps);
      s.puts == 1 && !s.slotLeg.NoSlot? && !s.stopClosed ==> Enabled(s, SlotTake) || CallerLegs(s) == 1
  {
    EveryRunIsSound(New(), steps);
    ListeningUntilStopped(New(), steps);
  }

  lemma {:induction false} ListeningUntilStopped(s: State, steps: seq<Step>)
    requires Possible(s, steps) && (s.slotLeg == SlotExited(false) ==> s.stopClosed)
    ensures Run(s, steps).slotLeg == SlotExited(false) ==> Run(s, steps).stopClosed
    decreases |steps|
  {
    if steps != [] {
      ListeningUntilStopped(Apply(s, steps[0]), steps[1..]);
    }
  }

  // What Start launches -----------------------------------------------------------------

  /** Where a bridge stands that was started with these tracks ready. */
  predicate Follows(s: State, callerReady: bool, agentReady: bool)
  {
    match s.start
    case NotCalled => false
    case Marking(ready) => callerReady && ready == agentReady
    case LaunchingCaller(ready) => callerReady && ready == agentReady && s.attached
    case LaunchingAgent(ready) => ready == agentReady && CallerSettled(s, callerReady) && s.agentLeg.Unborn?
    case Awaiting => CallerSettled(s, callerReady) && (s.agentLeg.Unborn? <==> !agentReady)
    case Returned => CallerSettled(s, callerReady) && (s.agentLeg.Unborn? <==> !agentReady)
  }

  /** The caller's own leg was launched, or the slot is listened to instead. */
  predicate CallerSettled(s: State, callerReady: bool)
  {
    (s.callerLeg.Unborn? <==> !callerReady) && (s.slotLeg.NoSlot? <==> callerReady) && (callerReady ==> s.attached)
  }

  lemma StepFollows(s: State, callerReady: bool, agentReady: bool, step: Step)
    requires Sound(s) && Follows(s, callerReady, agentReady) && Enabled(s, step)
    ensures Follows(Apply(s, step), callerReady, agentReady) && !step.CallStart?
  {
  }

  lemma {:induction false} GoesOnFollowing(s: State, callerReady: bool, agentReady: bool, steps: seq<Step>)
    requires Sound(s) && Follows(s, callerReady, agentReady) && Possible(s, steps)
    ensures Follows(Run(s, steps), callerReady, agentReady)
    ensures forall step :: step in steps ==> !step.CallStart?
    decreases |steps|
  {
    if steps != [] {
      StepKeepsSound(s, steps[0]);
      StepFollows(s, callerReady, agentReady, steps[0]);
      GoesOnFollowing(Apply(s, steps[0]), callerReady, agentReady, steps[1..]);
    }
  }

  lemma {:induction false} FollowsItsStart(s: State, callerReady: bool, agentReady: bool, steps: seq<Step>)
    requires Sound(s) && s.start.NotCalled? && Possible(s, steps) && CallStart(callerReady, agentReady) in steps
    ensures Follows(Run(s, steps), callerReady, agentReady)
    decreases |steps|
  {
    var next := Apply(s, steps[0]);
    assert steps[0] == CallStart(callerReady, agentReady) || CallStart(callerReady, agentReady) in steps[1..];
    StepKeepsSound(s, steps[0]);
    if steps[0].CallStart? {
      GoesOnFollowing(next, steps[0].callerReady, steps[0].agentReady, steps[1..]);
    } else {
      FollowsItsStart(next, callerReady, agentReady, steps[1..]);
    }
  }

  /**
    A track that is ready is forwarded, and one that is not is not: once `Start`
    waits or has returned, the agent's leg was launched exactly when the agent's
    track was ready, the caller's exactly when the caller's was, and the slot is
    listened to exactly when it was not.
   */
  lemma ReadyLegsAreLaunched(callerReady: bool, agentReady: bool, steps: seq<Step>)
    requires Possible(New(), steps) && CallStart(callerReady, agentReady) in steps
    ensures var s := Run(New(), steps);
      s.start.Awaiting? || s.start.Returned? ==>
        && (s.agentLeg != Unborn <==> agentReady)
        && (s.callerLeg != Unborn <==> callerReady)
        && (s.slotLeg == NoSlot <==> callerReady)
        && (callerReady ==> s.attached)
  {
    FollowsItsStart(New(), callerReady, agentReady, steps);
  }

  /** A leg on its way to the slot, or one that got there. */
  predicate LegUnderWay(s: State)
  {
    s.puts > 0 || s.sending != {}
  }

  lemma {:induction false} LegsStayUnderWay(s: State, steps: seq<Step>)
    requires LegUnderWay(s) && Possible(s, steps)
    ensures LegUnderWay(Run(s, steps))
    decreases |steps|
  {
    if steps != [] {
      LegsStayUnderWay(Apply(s, steps[0]), steps[1..]);
    }
  }

  /** An attach is accepted: unless the bridge was stopped or had a caller from the start, its leg is on its way. */
  lemma {:induction false} AttachIsAccepted(s: State, steps: seq<Step>, worker: Worker)
    requires !s.stopped && (s.attached ==> LegUnderWay(s)) && Possible(s, steps)
    requires AttachCheck(worker) in steps && MarkAttached !in steps && forall w :: StopMark(w) !in steps
    ensures LegUnderWay(Run(s, steps))
    decreases |steps|
  {
    var next := Apply(s, steps[0]);
    if steps[0].AttachCheck? {
      assert steps[0].worker in next.sending || LegUnderWay(s);
      LegsStayUnderWay(next, steps[1..]);
    } else {
      assert steps[0] in steps;
      AttachIsAccepted(next, steps[1..], worker);
    }
  }
}
