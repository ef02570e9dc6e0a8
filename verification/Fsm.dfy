/**
 The port state machines (fsm.c) and the way a port applies them (`port_dispatch`
 in port.c): the machine of an ordinary or boundary clock, and that of a slave-only clock.
 */
module Fsm {

  datatype PortState =
    | Initializing | Faulty | Disabled | Listening | PreMaster
    | Master | Passive | Uncalibrated | Slave | GrandMaster

  datatype Event =
    | NoEvent | PowerUp | Initialize | DesignatedEnabled | DesignatedDisabled
    | FaultCleared | FaultDetected | StateDecisionEvent
    | QualificationTimeoutExpires | AnnounceReceiptTimeoutExpires
    | SynchronizationFault | MasterClockSelected
    | RsMaster | RsGrandMaster | RsSlave | RsPassive

  /** A recommended state: these events come from a state decision round only. */
  predicate IsRecommendation(e: Event) {
    e.RsMaster? || e.RsGrandMaster? || e.RsSlave? || e.RsPassive?
  }

  function PtpFsm(state: PortState, event: Event, mdiff: bool): PortState {
    if event.Initialize? || event.PowerUp? then Initializing
    else match state
      case Initializing => Listening
      case Faulty =>
        (match event
         case DesignatedDisabled => Disabled
         case FaultCleared => Initializing
         case _ => state)
      case Disabled =>
        if event.DesignatedEnabled? then Initializing else state
      case Listening =>
        (match event
         case DesignatedDisabled => Disabled
         case FaultDetected => Faulty
         case AnnounceReceiptTimeoutExpires => Master
         case RsMaster => PreMaster
         case RsGrandMaster => GrandMaster
         case RsSlave => Uncalibrated
         case RsPassive => Passive
         case _ => state)
      case PreMaster =>
        (match event
         case DesignatedDisabled => Disabled
         case FaultDetected => Faulty
         case QualificationTimeoutExpires => Master
         case RsSlave => Uncalibrated
         case RsPassive => Passive
         case _ => state)
      case Master | GrandMaster =>
        (match event
         case DesignatedDisabled => Disabled
         case FaultDetected => Faulty
         case RsSlave => Uncalibrated
         case RsPassive => Passive
         case _ => state)
      case Passive =>
        (match event
         case DesignatedDisabled => Disabled
         case FaultDetected => Faulty
         case AnnounceReceiptTimeoutExpires => Master
         case RsMaster => PreMaster
         case RsGrandMaster => GrandMaster
         case RsSlave => Uncalibrated
         case _ => state)
      case Uncalibrated =>
        (match event
         case DesignatedDisabled => Disabled
         case FaultDetected => Faulty
         case AnnounceReceiptTimeoutExpires => Master
         case MasterClockSelected => Slave
         case RsMaster => PreMaster
         case RsGrandMaster => GrandMaster
         case RsSlave => Uncalibrated
         case RsPassive => Passive
         case _ => state)
      case Slave =>
        (match event
         case DesignatedDisabled => Disabled
         case FaultDetected => Faulty
         case AnnounceReceiptTimeoutExpires => Master
         case SynchronizationFault => Uncalibrated
         case RsMaster => PreMaster
         case RsGrandMaster => GrandMaster
         case RsSlave => if mdiff then Uncalibrated else state
         case RsPassive => Passive
         case _ => state)
  }

  function PtpSlaveFsm(state: PortState, event: Event, mdiff: bool): PortState {
    if event.Initialize? || event.PowerUp? then Initializing
    else match state
      case Initializing => Listening
      case Faulty =>
        (match event
         case DesignatedDisabled => Disabled
         case FaultCleared => Initializing
         case _ => state)
      case Disabled =>
        if event.DesignatedEnabled? then Initializing else state
      case Listening =>
        (match event
         case DesignatedDisabled => Disabled
         case FaultDetected => Faulty
         case AnnounceReceiptTimeoutExpires | RsMaster | RsGrandMaster | RsPassive => Listening
         case RsSlave => Uncalibrated
         case _ => state)
      case Uncalibrated =>
        (match event
         case DesignatedDisabled => Disabled
         case FaultDetected => Faulty
         case AnnounceReceiptTimeoutExpires | RsMaster | RsGrandMaster | RsPassive => Listening
         case MasterClockSelected => Slave
         case _ => state)
      case Slave =>
        (match event
         case DesignatedDisabled => Disabled
         case FaultDetected => Faulty
         case AnnounceReceiptTimeoutExpires | RsMaster | RsGrandMaster | RsPassive => Listening
         case SynchronizationFault => Uncalibrated
         case RsSlave => if mdiff then Uncalibrated else state
         case _ => state)
      case _ => state
  }

  /** What a port that must switch hardware clocks experiences on becoming uncalibrated. */
  datatype PhcSwitch = NotNeeded | Switched | SwitchFailed(asap: bool, initOk: bool)

  /** The environment of one dispatch: fault handling configured as immediate, success of `port_initialize`. */
  datatype Env = Env(asap: bool, initOk: bool, phc: PhcSwitch)

  /** One step of the machine the clock uses. */
  function Next(slaveOnly: bool, state: PortState, event: Event, mdiff: bool): PortState {
    if slaveOnly then PtpSlaveFsm(state, event, mdiff) else PtpFsm(state, event, mdiff)
  }

  /** A port initialises itself at once, so it never rests in Initializing. */
  predicate Reinitializes(next: PortState, asap: bool) {
    next.Initializing? || (next.Faulty? && asap)
  }

  function Initialized(initOk: bool): PortState {
    if initOk then Listening else Faulty
  }

  /** `port_dispatch`: the state in which an event leaves the port. */
  function Dispatch(slaveOnly: bool, state: PortState, event: Event, mdiff: bool, env: Env): (s: PortState) {
    var next := Next(slaveOnly, state, event, mdiff);
    if Reinitializes(next, env.asap) then Initialized(env.initOk)
    else if next == state then state
    else if next.Uncalibrated? && env.phc.SwitchFailed? then
      var failed := Next(slaveOnly, Uncalibrated, FaultDetected, false);
      if Reinitializes(failed, env.phc.asap) then Initialized(env.phc.initOk) else failed
    else next
  }

  // ----- the arcs of the full machine, by the state they lead to

  predicate Operational(s: PortState) {
    !s.Initializing? && !s.Faulty? && !s.Disabled?
  }

  /** The states that listen for announcements rather than act as master. */
  predicate Receptive(s: PortState) {
    s.Listening? || s.Passive? || s.Uncalibrated? || s.Slave?
  }

  /** What it takes to arrive in a new state n. */
  predicate Arc(s: PortState, e: Event, mdiff: bool, n: PortState) {
    if e.Initialize? || e.PowerUp? || s.Initializing? then
      n == if e.Initialize? || e.PowerUp? then Initializing else Listening
    else match n
      case Initializing => (s.Faulty? && e.FaultCleared?) || (s.Disabled? && e.DesignatedEnabled?)
      case Listening => false
      case Faulty => Operational(s) && e.FaultDetected?
      case Disabled => e.DesignatedDisabled?
      case PreMaster => Receptive(s) && e.RsMaster?
      case GrandMaster => Receptive(s) && e.RsGrandMaster?
      case Master =>
        (Receptive(s) && e.AnnounceReceiptTimeoutExpires?) || (s.PreMaster? && e.QualificationTimeoutExpires?)
      case Passive => Operational(s) && e.RsPassive?
      case Uncalibrated =>
        (Operational(s) && e.RsSlave? && (s.Slave? ==> mdiff)) || (s.Slave? && e.SynchronizationFault?)
      case Slave => s.Uncalibrated? && e.MasterClockSelected?
  }

  lemma ArcsAreExact(s: PortState, e: Event, mdiff: bool, n: PortState)
    requires n != s
    ensures PtpFsm(s, e, mdiff) == n <==> Arc(s, e, mdiff, n)
  {
  }

  // ----- the slave-only machine is an image of the full machine

  /** Forget everything a master does: the states a slave-only port does not have become Listening. */
  function Image(s: PortState): PortState {
    match s
    case PreMaster | Master | GrandMaster | Passive => Listening
    case _ => s
  }

  datatype Input = Input(event: Event, mdiff: bool, env: Env)

  /** The states a port runs through, starting with the first. */
  function Run(slaveOnly: bool, start: PortState, inputs: seq<Input>): (states: seq<PortState>)
    ensures |states| == |inputs| + 1 && states[0] == start
    decreases |inputs|
  {
    if inputs == [] then [start]
    else
      var i := inputs[0];
      [start] + Run(slaveOnly, Dispatch(slaveOnly, start, i.event, i.mdiff, i.env), inputs[1..])
  }

  lemma {:induction false} RunStep(slaveOnly: bool, start: PortState, inputs: seq<Input>, k: nat)
    requires k < |inputs|
    ensures var s, i := Run(slaveOnly, start, inputs), inputs[k];
            s[k + 1] == Dispatch(slaveOnly, s[k], i.event, i.mdiff, i.env)
    decreases k
  {
    if k > 0 {
      var i := inputs[0];
      RunStep(slaveOnly, Dispatch(slaveOnly, start, i.event, i.mdiff, i.env), inputs[1..], k - 1);
    }
  }

  /**
   The homomorphism, over whole runs: a slave-only port goes through exactly the
   images of the states a full port goes through under the same events.
   */
  lemma {:induction false} SlaveRunIsImage(start: PortState, inputs: seq<Input>)
    ensures forall k :: 0 <= k <= |inputs| ==>
              Run(true, Image(start), inputs)[k] == Image(Run(false, start, inputs)[k])
    decreases |inputs|
  {
    if inputs != [] {
      var i := inputs[0];
      DispatchCommutes(start, i);
      SlaveRunIsImage(Dispatch(false, start, i.event, i.mdiff, i.env), inputs[1..]);
    }
  }

  lemma DispatchCommutes(s: PortState, i: Input)
    ensures Dispatch(true, Image(s), i.event, i.mdiff, i.env) == Image(Dispatch(false, s, i.event, i.mdiff, i.env))
  {
    assert Next(true, Image(s), i.event, i.mdiff) == Image(Next(false, s, i.event, i.mdiff));
  }

  /** A slave-only port that starts outside the master states never enters one. */
  lemma SlaveOnlyNeverMaster(start: PortState, inputs: seq<Input>, k: nat)
    requires Image(start) == start && k <= |inputs|
    ensures var s := Run(true, start, inputs)[k];
            !s.PreMaster? && !s.Master? && !s.GrandMaster? && !s.Passive?
  {
    SlaveRunIsImage(start, inputs);
    assert Run(true, start, inputs)[k] == Image(Run(false, start, inputs)[k]);
  }

  // ----- how a port becomes a slave

  /** The port follows a master: it is calibrating or synchronised. */
  predicate Tracking(s: PortState) {
    s.Uncalibrated? || s.Slave?
  }

  /** Only a recommendation to be a slave makes a port track, and only calibration completes it. */
  lemma TrackingSteps(slaveOnly: bool, s: PortState, i: Input)
    ensures var n := Dispatch(slaveOnly, s, i.event, i.mdiff, i.env);
            && (!Tracking(s) && Tracking(n) ==> i.event.RsSlave? && n.Uncalibrated?)
            && (!s.Slave? && n.Slave? ==> s.Uncalibrated? && i.event.MasterClockSelected?)
            && (i.event.RsMaster? || i.event.RsGrandMaster? || i.event.RsPassive? ==> !Tracking(n))
            && (s.Slave? && i.event.RsSlave? ==> (n.Slave? <==> !i.mdiff))
            && !n.Initializing?
  {
  }

  /**
   Every arrival in Slave: the port was recommended slave at some moment, has been tracking
   without interruption ever since, and was calibrated after that.
   */
  lemma SlaveHistory(slaveOnly: bool, start: PortState, inputs: seq<Input>, k: nat)
    returns (i: nat, j: nat)
    requires !Tracking(start) && k <= |inputs|
    requires Run(slaveOnly, start, inputs)[k].Slave?
    ensures i < j < k
    ensures inputs[i].event.RsSlave? && !Tracking(Run(slaveOnly, start, inputs)[i])
    ensures inputs[j].event.MasterClockSelected? && Run(slaveOnly, start, inputs)[j].Uncalibrated?
    ensures forall h :: i < h <= k ==> Tracking(Run(slaveOnly, start, inputs)[h])
    ensures forall h :: j < h <= k ==> Run(slaveOnly, start, inputs)[h].Slave?
  {
    var s := Run(slaveOnly, start, inputs);
    j := k;
    while s[j].Slave?
      invariant 0 <= j <= k && Tracking(s[j])
      invariant forall h :: j < h <= k ==> s[h].Slave?
      invariant j < k && s[j + 1].Slave? && !s[j].Slave? ==> inputs[j].event.MasterClockSelected? && s[j].Uncalibrated?
      invariant j == k ==> s[j].Slave?
      decreases j
    {
      RunStep(slaveOnly, start, inputs, j - 1);
      TrackingSteps(slaveOnly, s[j - 1], inputs[j - 1]);
      j := j - 1;
    }
    i := j;
    while Tracking(s[i])
      invariant 0 <= i <= j
      invariant forall h :: i < h <= k ==> Tracking(s[h])
      invariant !Tracking(s[i]) ==> i < j && inputs[i].event.RsSlave?
      decreases i
    {
      RunStep(slaveOnly, start, inputs, i - 1);
      TrackingSteps(slaveOnly, s[i - 1], inputs[i - 1]);
      i := i - 1;
    }
  }
}
