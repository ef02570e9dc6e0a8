/**
 A clock with any number of ports: the state decision event (`handle_state_decision_event`
 in clock.c, `bmc_state_decision` in bmc.c) and the runs that interleave it with port events.
 */
module Clock {
  import opened Prelude
  import opened Bmc
  import opened Fsm
  import PathDelay

  /** The clock's own data set (defaultDS). */
  datatype DefaultDs = DefaultDs(
    slaveOnly: bool, priority1: Byte, identity: ClockIdentity, quality: ClockQuality, priority2: Byte)

  /** What an announce message says about a grandmaster, and the port that sent it. */
  datatype Announce = Announce(
    priority1: Byte, identity: ClockIdentity, quality: ClockQuality, priority2: Byte,
    stepsRemoved: Word, sender: PortIdentity)

  datatype Choice = Choice(dataset: Dataset, port: nat)

  datatype State = State(
    ports: seq<PortState>, best: Option<Choice>, bestId: ClockIdentity,
    parent: PortIdentity, stepsRemoved: nat)

  /** `clock_default_ds`. */
  function Own(dds: DefaultDs): Dataset {
    var self := PortIdentity(dds.identity, 0);
    Dataset(dds.priority1, dds.identity, dds.quality, dds.priority2, 0, self, self)
  }

  /** `announce_to_dataset`: the receiver recorded is the clock's current parent. */
  function AnnounceToDataset(a: Announce, parent: PortIdentity): Dataset {
    Dataset(a.priority1, a.identity, a.quality, a.priority2, a.stepsRemoved, a.sender, parent)
  }

  /** The foreign masters of one port, those without enough fresh messages as `None`. */
  function Datasets(heard: seq<Option<Announce>>, parent: PortIdentity): (ds: seq<Option<Dataset>>)
    ensures |ds| == |heard|
    ensures forall i :: 0 <= i < |heard| ==>
              ds[i] == if heard[i].None? then None else Some(AnnounceToDataset(heard[i].value, parent))
  {
    seq(|heard|, i requires 0 <= i < |heard| =>
      if heard[i].None? then None else Some(AnnounceToDataset(heard[i].value, parent)))
  }

  /** `port_compute_best` for every port. */
  function PortBests(heard: seq<seq<Option<Announce>>>, parent: PortIdentity): (bs: seq<Option<Dataset>>)
    ensures |bs| == |heard|
    ensures forall i :: 0 <= i < |heard| ==> bs[i] == Best(Datasets(heard[i], parent))
  {
    seq(|heard|, i requires 0 <= i < |heard| => Best(Datasets(heard[i], parent)))
  }

  function Chosen(bs: seq<Option<Dataset>>): (c: Option<Choice>)
    ensures c.Some? ==> c.value.port < |bs| && bs[c.value.port] == Some(c.value.dataset)
  {
    var i := BestIndex(bs);
    if i.None? then None else Some(Choice(bs[i.value].value, i.value))
  }

  function DatasetOf(c: Option<Choice>): Option<Dataset> {
    if c.None? then None else Some(c.value.dataset)
  }

  /** `bmc_state_decision`: the state recommended to port r. */
  function Decision(dds: DefaultDs, best: Option<Choice>, portBest: Option<Dataset>, r: nat, ps: PortState): PortState {
    if portBest.None? && ps.Listening? then ps
    else if dds.quality.clockClass <= 127 then
      if Dscmp(Some(Own(dds)), portBest) > 0 then GrandMaster else Passive
    else if Dscmp(Some(Own(dds)), DatasetOf(best)) > 0 then GrandMaster
    else if best.Some? && best.value.port == r then Slave
    else if Dscmp(DatasetOf(best), portBest) == A_BETTER_TOPO then Passive
    else Master
  }

  function EventOf(ps: PortState): Event {
    match ps
    case Listening => NoEvent
    case GrandMaster => RsGrandMaster
    case Master => RsMaster
    case Passive => RsPassive
    case Slave => RsSlave
    case _ => FaultDetected
  }

  function BestId(dds: DefaultDs, best: Option<Choice>): ClockIdentity {
    if best.Some? then best.value.dataset.identity else dds.identity
  }

  /** The parent port and the distance to the grandmaster, after the recommendation ps. */
  function ParentAfter(
    dds: DefaultDs, best: Option<Choice>, ps: PortState, parent: PortIdentity, steps: nat): (PortIdentity, nat)
  {
    if ps.GrandMaster? then (PortIdentity(dds.identity, 0), 0)
    else if ps.Slave? && best.Some? then (best.value.dataset.sender, 1 + best.value.dataset.stepsRemoved)
    else (parent, steps)
  }

  /** The recommendations of a round, port by port. */
  function Recommended(dds: DefaultDs, ports: seq<PortState>, bs: seq<Option<Dataset>>): (ps: seq<PortState>)
    requires |bs| == |ports|
    ensures |ps| == |bs|
    ensures forall i :: 0 <= i < |ps| ==> ps[i] == Decision(dds, Chosen(bs), bs[i], i, ports[i])
  {
    seq(|bs|, i requires 0 <= i < |bs| => Decision(dds, Chosen(bs), bs[i], i, ports[i]))
  }

  function Parents(
    dds: DefaultDs, best: Option<Choice>, ps: seq<PortState>, parent: PortIdentity, steps: nat): (PortIdentity, nat)
  {
    if ps == [] then (parent, steps)
    else
      var before := Parents(dds, best, ps[..|ps| - 1], parent, steps);
      ParentAfter(dds, best, ps[|ps| - 1], before.0, before.1)
  }

  /** The states the ports take when the recommendations are dispatched to them. */
  function Dispatched(
    dds: DefaultDs, ports: seq<PortState>, ps: seq<PortState>, fresh_best: bool, envs: seq<Env>): (r: seq<PortState>)
    requires |ports| == |ps| == |envs|
    ensures |r| == |ports|
    ensures forall i :: 0 <= i < |r| ==> r[i] == Dispatch(dds.slaveOnly, ports[i], EventOf(ps[i]), fresh_best, envs[i])
  {
    seq(|ports|, i requires 0 <= i < |ports| => Dispatch(dds.slaveOnly, ports[i], EventOf(ps[i]), fresh_best, envs[i]))
  }

  /** One whole state decision round. */
  function Round(st: State, dds: DefaultDs, heard: seq<seq<Option<Announce>>>, envs: seq<Env>): (r: State)
    requires |heard| == |envs| == |st.ports|
    ensures |r.ports| == |st.ports|
  {
    var bs := PortBests(heard, st.parent);
    var ps := Recommended(dds, st.ports, bs);
    var best := Chosen(bs);
    var id := BestId(dds, best);
    var up := Parents(dds, best, ps, st.parent, st.stepsRemoved);
    State(Dispatched(dds, st.ports, ps, id != st.bestId, envs), best, id, up.0, up.1)
  }

  class Clock {
    const dds: DefaultDs
    var ports: seq<PortState>
    var best: Option<Choice>
    var bestId: ClockIdentity
    var parent: PortIdentity
    var stepsRemoved: nat
    const keeper: PathDelay.Timekeeper

    ghost function Abs(): State
      reads this
    {
      State(ports, best, bestId, parent, stepsRemoved)
    }

    constructor (dds: DefaultDs, nports: nat, keeper: PathDelay.Timekeeper)
      ensures this.dds == dds && this.keeper == keeper
      ensures Abs() == State(seq(nports, _ => Initializing), None, [0, 0, 0, 0, 0, 0, 0, 0],
                             PortIdentity(dds.identity, 0), 0)
    {
      this.dds := dds;
      this.keeper := keeper;
      ports := seq(nports, _ => Initializing);
      best := None;
      bestId := [0, 0, 0, 0, 0, 0, 0, 0];
      parent := PortIdentity(dds.identity, 0);
      stepsRemoved := 0;
    }

    /** `port_compute_best` on every port, keeping the best data set found so far. */
    method ComputeBest(heard: seq<seq<Option<Announce>>>) returns (bs: seq<Option<Dataset>>, choice: Option<Choice>)
      ensures bs == PortBests(heard, parent) && choice == Chosen(bs)
    {
      bs := [];
      var i: Option<nat> := None;
      for k := 0 to |heard|
        invariant bs == PortBests(heard, parent)[..k]
        invariant i == BestIndex(bs)
      {
        var ds := Datasets(heard[k], parent);
        var j := ChooseBest(ds);
        var fc := if j.None? then None else ds[j.value];
        if fc.Some? {
          if i.None? || Dscmp(fc, bs[i.value]) > 0 {
            i := Some(k);
          }
        }
        assert (bs + [fc])[..k] == bs;
        bs := bs + [fc];
      }
      assert PortBests(heard, parent)[..|heard|] == PortBests(heard, parent);
      choice := if i.None? then None else Some(Choice(bs[i.value].value, i.value));
    }

    method HandleStateDecisionEvent(heard: seq<seq<Option<Announce>>>, envs: seq<Env>)
      requires |heard| == |envs| == |ports|
      requires keeper.Valid() && this !in keeper.Footprint()
      modifies this, keeper.Footprint()
      ensures Abs() == Round(old(Abs()), dds, heard, envs)
      ensures keeper.Valid()
      ensures keeper.State() ==
              if bestId == old(bestId) then old(keeper.State()) else PathDelay.Restarted(old(keeper.State()))
    {
      hide Decision, Dispatch, ParentAfter, BestIndex, EventOf, Recommended, Dispatched, Parents, PortBests;
      var bs, choice := ComputeBest(heard);
      var id := BestId(dds, choice);
      var freshBest := false;
      if id != bestId {
        keeper.Restart();
        freshBest := true;
      }
      best := choice;
      bestId := id;
      Recommend(bs, freshBest, envs);
    }

    method RecommendTo(k: nat, portBest: Option<Dataset>, freshBest: bool, env: Env)
      requires k < |ports|
      modifies this`ports, this`parent, this`stepsRemoved
      ensures var p := Decision(dds, best, portBest, k, old(ports)[k]);
              && ports == old(ports)[k := Dispatch(dds.slaveOnly, old(ports)[k], EventOf(p), freshBest, env)]
              && (parent, stepsRemoved) == ParentAfter(dds, best, p, old(parent), old(stepsRemoved))
    {
      var p := Decision(dds, best, portBest, k, ports[k]);
      if p.GrandMaster? {
        parent, stepsRemoved := PortIdentity(dds.identity, 0), 0;
      } else if p.Slave? && best.Some? {
        parent, stepsRemoved := best.value.dataset.sender, 1 + best.value.dataset.stepsRemoved;
      }
      ports := ports[k := Dispatch(dds.slaveOnly, ports[k], EventOf(p), freshBest, env)];
    }

    method Recommend(bs: seq<Option<Dataset>>, freshBest: bool, envs: seq<Env>)
      requires |bs| == |envs| == |ports| && best == Chosen(bs)
      modifies this`ports, this`parent, this`stepsRemoved
      ensures var ps := Recommended(dds, old(ports), bs);
              && ports == Dispatched(dds, old(ports), ps, freshBest, envs)
              && (parent, stepsRemoved) == Parents(dds, best, ps, old(parent), old(stepsRemoved))
    {
      hide Decision, Dispatch, ParentAfter, BestIndex, EventOf;
      ghost var ps := Recommended(dds, ports, bs);
      ghost var after := Dispatched(dds, ports, ps, freshBest, envs);
      for k := 0 to |bs|
        invariant |ports| == |bs|
        invariant forall i :: 0 <= i < k ==> ports[i] == after[i]
        invariant forall i :: k <= i < |bs| ==> ports[i] == old(ports)[i]
        invariant (parent, stepsRemoved) == Parents(dds, best, ps[..k], old(parent), old(stepsRemoved))
      {
        assert ps[..k + 1][..k] == ps[..k];
        RecommendTo(k, bs[k], freshBest, envs[k]);
      }
      assert ps[..|bs|] == ps;
    }

    /** A port handles an event of its own, at any time between two rounds. */
    method HandlePortEvent(i: nat, event: Event, env: Env)
      requires i < |ports| && !IsRecommendation(event)
      modifies this`ports
      ensures Abs() == Taken(old(Abs()), PortEvent(dds, i, event, env))
    {
      ports := ports[i := Dispatch(dds.slaveOnly, ports[i], event, false, env)];
    }
  }

  // ----- runs

  /** The clock's own data set may be reconfigured between steps, so each step carries it. */
  datatype Step =
    | Decide(dds: DefaultDs, heard: seq<seq<Option<Announce>>>, envs: seq<Env>)
    | PortEvent(dds: DefaultDs, i: nat, event: Event, env: Env)

  predicate Possible(st: State, s: Step) {
    match s
    case Decide(_, heard, envs) => |heard| == |envs| == |st.ports|
    case PortEvent(_, i, event, _) => i < |st.ports| && !IsRecommendation(event)
  }

  function Taken(st: State, s: Step): (r: State)
    requires Possible(st, s)
  {
    match s
    case Decide(dds, heard, envs) => Round(st, dds, heard, envs)
    case PortEvent(dds, i, event, env) =>
      st.(ports := st.ports[i := Dispatch(dds.slaveOnly, st.ports[i], event, false, env)])
  }

  /** run holds the states of a run of the steps from a clock all of whose ports are initialising. */
  ghost predicate IsRun(run: seq<State>, steps: seq<Step>) {
    && |run| == |steps| + 1
    && (forall i :: 0 <= i < |run[0].ports| ==> run[0].ports[i].Initializing?)
    && (forall k :: 0 <= k < |steps| ==> Possible(run[k], steps[k]) && run[k + 1] == Taken(run[k], steps[k]))
  }

  /** Only the port that heard the best foreign master tracks a master. */
  ghost predicate FollowsBest(st: State) {
    forall i :: 0 <= i < |st.ports| && Tracking(st.ports[i]) ==> st.best.Some? && st.best.value.port == i
  }

  lemma NoOtherPortTracks(
    dds: DefaultDs, best: Option<Choice>, portBest: Option<Dataset>, r: nat, ps: PortState, freshBest: bool, env: Env)
    requires best.None? || best.value.port != r
    ensures var d := Decision(dds, best, portBest, r, ps);
            !d.Slave? && !Tracking(Dispatch(dds.slaveOnly, ps, EventOf(d), freshBest, env))
  {
    var d := Decision(dds, best, portBest, r, ps);
    TrackingSteps(dds.slaveOnly, ps, Input(EventOf(d), freshBest, env));
    if best.None? {
      assert Dscmp(Some(Own(dds)), DatasetOf(best)) == A_BETTER;
    }
  }

  lemma StepFollowsBest(st: State, s: Step)
    requires Possible(st, s) && (s.PortEvent? ==> FollowsBest(st))
    ensures FollowsBest(Taken(st, s))
  {
    var r := Taken(st, s);
    match s
    case Decide(dds, heard, envs) =>
      var bs := PortBests(heard, st.parent);
      forall i | 0 <= i < |r.ports| && (r.best.None? || r.best.value.port != i)
        ensures !Tracking(r.ports[i])
      {
        NoOtherPortTracks(dds, Chosen(bs), bs[i], i, st.ports[i], r.bestId != st.bestId, envs[i]);
      }
    case PortEvent(dds, i, event, env) =>
      TrackingSteps(dds.slaveOnly, st.ports[i], Input(event, false, env));
  }

  /** In every state of every run at most one port tracks a master, and it is the best port. */
  lemma {:induction false} AtMostOneTracks(run: seq<State>, steps: seq<Step>, k: nat)
    requires IsRun(run, steps) && k <= |steps|
    ensures FollowsBest(run[k])
    ensures var ports := run[k].ports;
            forall i, j :: 0 <= i < |ports| && 0 <= j < |ports| && Tracking(ports[i]) && Tracking(ports[j]) ==> i == j
  {
    if k > 0 {
      AtMostOneTracks(run, steps, k - 1);
      StepFollowsBest(run[k - 1], steps[k - 1]);
    }
  }

  /** The identity that is remembered is that of the best announcement. */
  ghost predicate Remembers(st: State) {
    st.best.Some? ==> st.bestId == st.best.value.dataset.identity
  }

  lemma {:induction false} BestIsRemembered(run: seq<State>, steps: seq<Step>, k: nat)
    requires IsRun(run, steps) && k <= |steps| && run[0].best.None?
    ensures Remembers(run[k])
  {
    if k > 0 {
      BestIsRemembered(run, steps, k - 1);
    }
  }

  /**
   No port goes over from one grandmaster to another as a slave: one that is a slave before and after a round has the
   grandmaster that was chosen in the round before.
   */
  lemma NewMasterIsCalibrated(run: seq<State>, steps: seq<Step>, k: nat, i: nat)
    requires IsRun(run, steps) && k < |steps| && run[0].best.None? && i < |run[k].ports|
    requires run[k].ports[i].Slave? && run[k + 1].ports[i].Slave?
    ensures run[k].best.Some? && run[k + 1].best.Some?
    ensures run[k].best.value.port == i == run[k + 1].best.value.port
    ensures run[k].best.value.dataset.identity == run[k + 1].best.value.dataset.identity
  {
    AtMostOneTracks(run, steps, k);
    AtMostOneTracks(run, steps, k + 1);
    BestIsRemembered(run, steps, k);
    BestIsRemembered(run, steps, k + 1);
    var s := steps[k];
    assert run[k + 1] == Taken(run[k], s);
    if s.Decide? {
      SlaveKeepsMaster(run[k], s, i);
    }
  }

  lemma SlaveKeepsMaster(st: State, s: Step, i: nat)
    requires s.Decide? && Possible(st, s) && i < |st.ports| && st.ports[i].Slave?
    ensures Taken(st, s).ports[i].Slave? ==> Taken(st, s).bestId == st.bestId
  {
    hide Decision, Dispatch, BestIndex, Parents;
    var bs := PortBests(s.heard, st.parent);
    var told := Decision(s.dds, Chosen(bs), bs[i], i, st.ports[i]);
    Recommendations(s.dds, Chosen(bs), bs[i], i, st.ports[i]);
    TrackingSteps(s.dds.slaveOnly, st.ports[i], Input(EventOf(told), Taken(st, s).bestId != st.bestId, s.envs[i]));
  }

  // ----- what a round decides

  /** Every data set announced to any port in a round. */
  ghost function AllOffered(heard: seq<seq<Option<Announce>>>, parent: PortIdentity): set<Dataset> {
    set i, j | 0 <= i < |heard| && 0 <= j < |heard[i]| && heard[i][j].Some? ::
      AnnounceToDataset(heard[i][j].value, parent)
  }

  /**
   The choice of two nested loops, over the foreign masters of each port and over the ports, is
   the best of everything announced on any port, as long as the best ones are undisputed.
   */
  lemma RoundChoosesBest(heard: seq<seq<Option<Announce>>>, parent: PortIdentity)
    requires Agreeing(AllOffered(heard, parent)) && Undisputed(AllOffered(heard, parent))
    ensures var c := Chosen(PortBests(heard, parent));
            && (c.None? <==> AllOffered(heard, parent) == {})
            && (c.Some? ==> IsBest(c.value.dataset, AllOffered(heard, parent)))
  {
    hide MemCmp, Key, Dscmp, ErrorOne;
    var all, bs := AllOffered(heard, parent), PortBests(heard, parent);
    forall i | 0 <= i < |heard|
      ensures bs[i].Some? ==> bs[i].value in all
    {
      PortOffers(heard, parent, i);
      BestIsBest(Datasets(heard[i], parent), all);
    }
    assert Offered(bs) <= all;
    BestIsBest(bs, all);
    if all != {} {
      var m := BestExists(all);
      var i, j :| 0 <= i < |heard| && 0 <= j < |heard[i]| && heard[i][j].Some? &&
                  m == AnnounceToDataset(heard[i][j].value, parent);
      PortOffers(heard, parent, i);
      BestIsBest(Datasets(heard[i], parent), all);
      assert Datasets(heard[i], parent)[j].value in Offered(Datasets(heard[i], parent));
      assert bs[i].value in Offered(bs);
    }
  }

  lemma PortOffers(heard: seq<seq<Option<Announce>>>, parent: PortIdentity, i: nat)
    requires i < |heard|
    ensures Offered(Datasets(heard[i], parent)) <= AllOffered(heard, parent)
  {
  }

  /**
   Why the order of the loops can matter after all: since the receiver recorded is the parent,
   "error-1" arises exactly when the longer of two paths leads through the parent itself.
   */
  lemma ErrorOneMeansParent(a: Announce, b: Announce, parent: PortIdentity)
    ensures ErrorOne(AnnounceToDataset(a, parent), AnnounceToDataset(b, parent)) <==>
              && a.identity == b.identity
              && ((a.stepsRemoved + 1 == b.stepsRemoved && b.sender == parent)
                  || (b.stepsRemoved + 1 == a.stepsRemoved && a.sender == parent))
  {
  }

  /** The announcements heard on any port. */
  ghost function Announced(heard: seq<seq<Option<Announce>>>): set<Announce> {
    set i, j | 0 <= i < |heard| && 0 <= j < |heard[i]| && heard[i][j].Some? :: heard[i][j].value
  }

  ghost function AsDatasets(xs: set<Announce>, parent: PortIdentity): set<Dataset> {
    set a | a in xs :: AnnounceToDataset(a, parent)
  }

  lemma AnnouncedIsOffered(heard: seq<seq<Option<Announce>>>, parent: PortIdentity)
    ensures AllOffered(heard, parent) == AsDatasets(Announced(heard), parent)
  {
    forall a | a in Announced(heard)
      ensures AnnounceToDataset(a, parent) in AllOffered(heard, parent)
    {
      var i, j :| 0 <= i < |heard| && 0 <= j < |heard[i]| && heard[i][j].Some? && a == heard[i][j].value;
    }
  }

  /** The announcement is one of the best ones. */
  ghost predicate Leads(a: Announce, xs: set<Announce>, parent: PortIdentity) {
    a in xs && IsBest(AnnounceToDataset(a, parent), AsDatasets(xs, parent))
  }

  /** The parent does not announce the winning grandmaster one step further away than the best announcement. */
  ghost predicate ParentOutOfTheWay(xs: set<Announce>, parent: PortIdentity) {
    forall a, x :: Leads(a, xs, parent) && x in xs ==>
      !(x.identity == a.identity && x.stepsRemoved == a.stepsRemoved + 1 && x.sender == parent)
  }

  lemma UndisputedByParent(xs: set<Announce>, parent: PortIdentity)
    requires Agreeing(AsDatasets(xs, parent))
    ensures Undisputed(AsDatasets(xs, parent)) <==> ParentOutOfTheWay(xs, parent)
  {
    hide MemCmp, Key, Dscmp, ErrorOne, IsBest;
    var ds := AsDatasets(xs, parent);
    if ParentOutOfTheWay(xs, parent) {
      forall m, e | IsBest(m, ds) && e in ds
        ensures !ErrorOne(e, m)
      {
        BestIsMember(m, ds);
        var a :| a in xs && m == AnnounceToDataset(a, parent);
        var x :| x in xs && e == AnnounceToDataset(x, parent);
        ErrorOneMeansParent(x, a, parent);
        BestAgainst(m, e, ds);
        assert Leads(a, xs, parent);
      }
    }
    if Undisputed(ds) {
      forall a, x | Leads(a, xs, parent) && x in xs
        ensures !(x.identity == a.identity && x.stepsRemoved == a.stepsRemoved + 1 && x.sender == parent)
      {
        ErrorOneMeansParent(x, a, parent);
        assert AnnounceToDataset(x, parent) in ds;
      }
    }
  }

  /** The round ends with a best announcement. */
  ghost predicate Finds(heard: seq<seq<Option<Announce>>>, parent: PortIdentity) {
    var c := Chosen(PortBests(heard, parent));
    c.Some? && IsBest(c.value.dataset, AllOffered(heard, parent))
  }

  /**
   The exact condition for a round: however the announcements are spread over ports and messages,
   it chooses a best one, if and only if the parent does not announce the winning grandmaster one
   step further away.
   */
  lemma RoundChoosesBestExactly(xs: set<Announce>, parent: PortIdentity)
    requires Agreeing(AsDatasets(xs, parent)) && xs != {}
    ensures ParentOutOfTheWay(xs, parent) <==> forall heard :: Announced(heard) == xs ==> Finds(heard, parent)
  {
    hide MemCmp, Key, Dscmp, ErrorOne, IsBest, Best, BestIndex;
    var ds := AsDatasets(xs, parent);
    UndisputedByParent(xs, parent);
    var some :| some in xs;
    assert AnnounceToDataset(some, parent) in ds;
    if Undisputed(ds) {
      forall heard | Announced(heard) == xs
        ensures Finds(heard, parent)
      {
        AnnouncedIsOffered(heard, parent);
        RoundChoosesBest(heard, parent);
      }
    } else {
      var m, x :| IsBest(m, ds) && x in ds && ErrorOne(x, m);
      var cs := MissingOrder(ds, m, x);
      var port := AnnouncementsFor(cs, xs, parent);
      OnePort(port, parent, cs);
      assert Announced([port]) == xs;
      AnnouncedIsOffered([port], parent);
      assert !Finds([port], parent);
    }
  }

  lemma AnnouncementsFor(
    cs: seq<Option<Dataset>>, xs: set<Announce>, parent: PortIdentity) returns (port: seq<Option<Announce>>)
    requires Offered(cs) == AsDatasets(xs, parent)
    ensures Datasets(port, parent) == cs && Announced([port]) == xs
  {
    port := seq(|cs|, i requires 0 <= i < |cs| =>
      if cs[i].None? then None
      else
        var d := cs[i].value;
        Some(Announce(d.priority1, d.identity, d.quality, d.priority2, d.stepsRemoved, d.sender)));
    forall i | 0 <= i < |cs| && cs[i].Some?
      ensures cs[i].value.receiver == parent && port[i].value in xs
    {
      assert cs[i].value in Offered(cs);
      var a :| a in xs && cs[i].value == AnnounceToDataset(a, parent);
      assert port[i].value == a;
    }
    forall a | a in xs
      ensures a in Announced([port])
    {
      assert AnnounceToDataset(a, parent) in Offered(cs);
      var i :| 0 <= i < |cs| && cs[i] == Some(AnnounceToDataset(a, parent));
      assert [port][0][i] == Some(a);
    }
    assert [port][0] == port;
  }

  lemma OnePort(port: seq<Option<Announce>>, parent: PortIdentity, cs: seq<Option<Dataset>>)
    requires Datasets(port, parent) == cs
    ensures var c := Chosen(PortBests([port], parent));
            if Best(cs).None? then c.None? else c.Some? && c.value.dataset == Best(cs).value
  {
    var bs := PortBests([port], parent);
    assert bs == [Best(cs)] && bs[..0] == [];
  }

  /**
   The role a round gives the clock.  It is a slave on its best port, synchronised to the sender of the
   best announcement and one step further away than it, or it is a grandmaster, never both; and it is a slave
   exactly if its class allows it and its own data set does not beat the best one.
   */
  lemma RoundRole(st: State, dds: DefaultDs, heard: seq<seq<Option<Announce>>>, envs: seq<Env>)
    requires |heard| == |envs| == |st.ports|
    ensures var ps, r := Recommended(dds, st.ports, PortBests(heard, st.parent)), Round(st, dds, heard, envs);
            && !(Slave in ps && GrandMaster in ps)
            && (Slave in ps <==>
                  r.best.Some? && dds.quality.clockClass > 127 &&
                  Dscmp(Some(Own(dds)), Some(r.best.value.dataset)) <= 0)
            && (Slave in ps ==>
                  && ps[r.best.value.port] == Slave
                  && r.parent == r.best.value.dataset.sender && r.stepsRemoved == 1 + r.best.value.dataset.stepsRemoved)
            && (GrandMaster in ps ==> r.parent == PortIdentity(dds.identity, 0) && r.stepsRemoved == 0)
            && (Slave !in ps && GrandMaster !in ps ==> r.parent == st.parent && r.stepsRemoved == st.stepsRemoved)
  {
    var bs := PortBests(heard, st.parent);
    RecommendedRole(st, dds, bs);
    ParentsMeaning(dds, Chosen(bs), Recommended(dds, st.ports, bs), st.parent, st.stepsRemoved);
  }

  lemma RecommendedRole(st: State, dds: DefaultDs, bs: seq<Option<Dataset>>)
    requires |bs| == |st.ports|
    ensures var ps, best := Recommended(dds, st.ports, bs), Chosen(bs);
            && !(Slave in ps && GrandMaster in ps)
            && (Slave in ps <==>
                  best.Some? && dds.quality.clockClass > 127 && Dscmp(Some(Own(dds)), Some(best.value.dataset)) <= 0)
            && (Slave in ps ==> ps[best.value.port] == Slave)
  {
    var ps, best := Recommended(dds, st.ports, bs), Chosen(bs);
    if best.Some? && dds.quality.clockClass > 127 && Dscmp(Some(Own(dds)), Some(best.value.dataset)) <= 0 {
      assert ps[best.value.port] == Slave;
    }
  }

  ghost predicate Precedes(p: PortIdentity, q: PortIdentity) {
    MemCmp(p.Bytes(), q.Bytes()) < 0
  }

  /**
   d is the best data set b by a path that is worse for topology alone: as long, with a greater sender, or with the same
   sender and a greater receiving port; or one step longer, and sent by a port before the one that receives it.
   */
  ghost predicate SameMasterBehind(b: Dataset, d: Dataset) {
    && d.identity == b.identity
    && if d.stepsRemoved == b.stepsRemoved
       then Precedes(b.sender, d.sender)
            || (b.sender == d.sender && b.receiver.portNumber < d.receiver.portNumber)
       else d.stepsRemoved == b.stepsRemoved + 1 && Precedes(d.sender, d.receiver)
  }

  /**
   What a port is told, unless it listens in silence.  A clock that is never a slave is a grandmaster where it beats
   what the port hears, and passive elsewhere.  Any other clock is a grandmaster if it beats the best announcement; if
   not it is a slave on the best port, passive exactly on the ports that hear the same grandmaster by a path that is
   worse for topology alone, and a master on all others.
   */
  lemma PassiveHearsSameGrandmaster(
    dds: DefaultDs, best: Option<Choice>, portBest: Option<Dataset>, r: nat, ps: PortState)
    ensures var told := Decision(dds, best, portBest, r, ps);
            if portBest.None? && ps.Listening? then told == Listening
            else if dds.quality.clockClass <= 127 then
              told == if portBest.None? || Dscmp(portBest, Some(Own(dds))) < 0 then GrandMaster else Passive
            else if best.None? || Dscmp(Some(best.value.dataset), Some(Own(dds))) < 0 then told == GrandMaster
            else if best.value.port == r then told == Slave
            else
              told == if portBest.Some? && SameMasterBehind(best.value.dataset, portBest.value) then Passive else Master
  {
    DscmpAntisymmetric(portBest, Some(Own(dds)));
    DscmpAntisymmetric(DatasetOf(best), Some(Own(dds)));
    if best.Some? && portBest.Some? {
      TopologyExactly(best.value.dataset, portBest.value);
    }
  }

  lemma TopologyExactly(b: Dataset, d: Dataset)
    ensures Dscmp(Some(b), Some(d)) == A_BETTER_TOPO <==> SameMasterBehind(b, d)
  {
    BytesInjective(b.sender, d.sender);
    MemCmpAntisymmetric(d.receiver.Bytes(), d.sender.Bytes());
  }

  /**
   What becomes of a port that is told so, if it is in operation.  A port that acts as a master goes on as it is when
   told to be one of either kind; otherwise every port obeys, and becomes a slave only by way of calibration, which a
   slave goes through again if the best master is a new one.  On a slave-only clock ports listen instead of anything
   but slave.  If the hardware clock cannot be switched, calibration ends in a fault.
   */
  lemma RoundIsObeyed(
    dds: DefaultDs, best: Option<Choice>, portBest: Option<Dataset>, r: nat, ps: PortState, freshBest: bool, env: Env)
    requires Operational(ps) && (dds.slaveOnly ==> Image(ps) == ps)
    ensures var told := Decision(dds, best, portBest, r, ps);
            var full := match told
              case Slave => if ps.Uncalibrated? || (ps.Slave? && !freshBest) then ps else Uncalibrated
              case Passive => Passive
              case Master => if Receptive(ps) then PreMaster else ps
              case GrandMaster => if Receptive(ps) then GrandMaster else ps
              case _ => ps;
            Dispatch(dds.slaveOnly, ps, EventOf(told), freshBest, env) ==
            if full.Uncalibrated? && !ps.Uncalibrated? && env.phc.SwitchFailed?
            then (if env.phc.asap && env.phc.initOk then Listening else Faulty)
            else if dds.slaveOnly then Image(full)
            else full
  {
    Recommendations(dds, best, portBest, r, ps);
    hide Decision;
  }

  lemma Recommendations(dds: DefaultDs, best: Option<Choice>, portBest: Option<Dataset>, r: nat, ps: PortState)
    ensures var told := Decision(dds, best, portBest, r, ps);
            told.Slave? || told.Passive? || told.Master? || told.GrandMaster? || (told == ps == Listening)
  {
  }

  /** A clock that hears itself announced wins, unless its own announcement comes back with an impossible path. */
  lemma OwnAnnouncement(dds: DefaultDs, d: Dataset)
    requires d.identity == dds.identity && d.stepsRemoved > 0
    ensures Dscmp(Some(d), Some(Own(dds))) < 0 <==> d.stepsRemoved > 1 || d.receiver != d.sender
    ensures Dscmp(Some(d), Some(Own(dds))) <= 0
  {
    BytesInjective(d.receiver, d.sender);
  }

  /** With nothing between them it is compared as port 0 of the clock. */
  lemma OwnPort(dds: DefaultDs, d: Dataset)
    requires d.identity == dds.identity && d.stepsRemoved == 0 && d.sender.clockIdentity == dds.identity
    requires d.sender.portNumber > 0
    ensures Dscmp(Some(d), Some(Own(dds))) < 0
  {
    PortOrder(PortIdentity(dds.identity, 0), d.sender);
    MemCmpAntisymmetric(d.sender.Bytes(), PortIdentity(dds.identity, 0).Bytes());
  }

  lemma {:induction false} ParentsMeaning(
    dds: DefaultDs, best: Option<Choice>, ps: seq<PortState>, parent: PortIdentity, steps: nat)
    requires !(Slave in ps && GrandMaster in ps) && (Slave in ps ==> best.Some?)
    ensures Parents(dds, best, ps, parent, steps) ==
              if GrandMaster in ps then (PortIdentity(dds.identity, 0), 0)
              else if Slave in ps then (best.value.dataset.sender, 1 + best.value.dataset.stepsRemoved)
              else (parent, steps)
  {
    if ps != [] {
      var n := |ps| - 1;
      assert ps == ps[..n] + [ps[n]];
      ParentsMeaning(dds, best, ps[..n], parent, steps);
    }
  }
}
