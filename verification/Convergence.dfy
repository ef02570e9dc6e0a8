/** A timeline left alone settles: what every node sees of a run, and how many heartbeats it takes to agree. */
module Convergence {
  import opened Coordinator
  import opened Election
  import opened Failover

  // ----- the part of one node in a run

  /** What a node has heard before each of its heartbeats, and since the last one. */
  ghost function Heard(steps: seq<Step>, id: Id, first: nat, last: nat): (h: (seq<seq<Sample>>, seq<Sample>))
    requires first <= last <= |steps|
    decreases last
  {
    if first == last then ([], [])
    else
      var (done, open) := Heard(steps, id, first, last - 1);
      match steps[last - 1]
      case Beat(i) => if i == id then (done + [open], []) else (done, open)
      case Deliver(i, batch) => if i == id then (done, open + batch) else (done, open)
      case _ => (done, open)
  }

  lemma {:induction false} ReceivedTwice(n: Node, a: seq<Sample>, b: seq<Sample>)
    ensures Received(Received(n, a), b) == Received(n, a + b)
    decreases |a|
  {
    if a == [] {
      assert a + b == b;
    } else {
      var heard := a[0].id.name == n.master && n.master != n.id.name;
      var m := n.(cache := n.cache[a[0].id := a[0]], lastcount := if heard then n.counter else n.lastcount);
      ReceivedTwice(m, a[1..], b);
      assert (a + b)[1..] == a[1..] + b;
    }
  }

  ghost predicate Survives(steps: seq<Step>, id: Id, first: nat, last: nat)
    requires first <= last <= |steps|
  {
    forall k :: first <= k < last ==> steps[k] != Crash(id)
  }

  /** A node depends on the run only through what it hears between its heartbeats. */
  lemma {:induction false} LocalView(r: Roster, run: seq<Net>, steps: seq<Step>, id: Id, first: nat, last: nat)
    requires IsRun(r, run, steps) && first <= last <= |steps| && id in run[first].nodes
    requires Survives(steps, id, first, last)
    ensures var (done, open) := Heard(steps, id, first, last);
            id in run[last].nodes && run[last].nodes[id] == Received(AfterBeats(run[first].nodes[id], done), open)
    decreases last
  {
    hide Received, Beaten;
    var n := run[first].nodes[id];
    if first == last {
      ReceivedNothing(AfterBeats(n, []));
    } else {
      LocalView(r, run, steps, id, first, last - 1);
      var (done, open) := Heard(steps, id, first, last - 1);
      var s := steps[last - 1];
      assert Possible(r, run[last - 1], s) && run[last] == Taken(r, run[last - 1], s);
      match s
      case Beat(i) =>
        if i == id {
          assert (done + [open])[..|done|] == done;
          ReceivedNothing(AfterBeats(n, done + [open]));
        }
      case Deliver(i, batch) => ReceivedTwice(AfterBeats(n, done), open, batch);
      case _ =>
    }
  }

  lemma ReceivedNothing(n: Node)
    ensures Received(n, []) == n
  {
  }

  lemma {:induction false} DeliveriesAreKnown(r: Roster, run: seq<Net>, steps: seq<Step>, id: Id, first: nat, last: nat)
    requires IsRun(r, run, steps) && first <= last <= |steps|
    ensures var (done, open) := Heard(steps, id, first, last);
            AllKnown(r, open) && forall k :: 0 <= k < |done| ==> AllKnown(r, done[k])
    decreases last
  {
    if first < last {
      DeliveriesAreKnown(r, run, steps, id, first, last - 1);
      ReachableOk(r, run, steps, last - 1);
      assert Possible(r, run[last - 1], steps[last - 1]);
    }
  }

  /**
   In every run, a master that is elected by a node without one is given up at the next heartbeat
   of that node, if and only if the node hears nobody of its name in between.
   */
  lemma ElectedThenDropped(r: Roster, run: seq<Net>, steps: seq<Step>, id: Id, k: nat, l: nat)
    requires IsRun(r, run, steps) && k < l < |steps| && steps[k] == Beat(id) == steps[l]
    requires Survives(steps, id, k, l) && Heard(steps, id, k + 1, l).0 == []
    requires id in run[k].nodes && run[k].nodes[id].master == "" && run[k + 1].nodes[id].master !in {"", id.name}
    ensures id in run[l + 1].nodes
    ensures run[l + 1].nodes[id].master == "" <==> Silent(run[k + 1].nodes[id].master, Heard(steps, id, k + 1, l).1)
  {
    hide Received, Beaten, Silent, NodeOk;
    var n, batch := run[k].nodes[id], Heard(steps, id, k + 1, l).1;
    ReachableOk(r, run, steps, k);
    ReachableOk(r, run, steps, l);
    assert run[k + 1] == Taken(r, run[k], steps[k]) && run[l + 1] == Taken(r, run[l], steps[l]);
    LocalView(r, run, steps, id, k + 1, l);
    assert AfterBeats(Beaten(n), []) == Beaten(n);
    DroppedAtOnce(r, id, n, batch);
  }

  lemma DroppedAtOnce(r: Roster, id: Id, n: Node, batch: seq<Sample>)
    requires ValidRoster(r) && NodeOk(r, id, n) && NodeOk(r, id, Received(Beaten(n), batch))
    requires n.master == "" && Beaten(n).master !in {"", id.name}
    ensures Beaten(Received(Beaten(n), batch)).master == "" <==> Silent(Beaten(n).master, batch)
  {
    NewMasterMustSpeak(n, batch);
    var m := Received(Beaten(n), batch);
    hide Received;
    ReceivedCache(Beaten(n), batch);
    ElectedIsNamed(r, id, m);
  }

  lemma ElectedIsNamed(r: Roster, id: Id, n: Node)
    requires ValidRoster(r) && NodeOk(r, id, n)
    ensures Beaten(n).master == "" <==> Ticked(n).master == "" && !Elects(Ticked(n))
  {
    TickedOk(r, id, n);
    BeatenOk(r, id, n);
    var t := Ticked(n);
    if Elects(t) && Least(View(t)) != t.Rank() {
      RivalInCache(r, t, Least(View(t)));
    }
  }

  /**
   The nodes of a small run: b hears of a once, beats three times, and elects a; it beats again, and has no master.
   */
  lemma ElectsAndDrops(r: Roster, a: Id, b: Id) returns (n: Node)
    requires ValidRoster(r) && a in r && b in r && a != b && a.uuid == b.uuid && Less(RankOf(r, a), RankOf(r, b))
    ensures n == Beaten(Beaten(Received(Started(b, r[b]), [Sample(a, r[a])]))) && NodeOk(r, b, n)
    ensures n.master == "" && Beaten(n).master == a.name && Beaten(Beaten(n)).master == ""
    ensures Content(r, b, Beaten(n), a) && Beaten(n).counter == 3
  {
    var s := Sample(a, r[a]);
    var n0 := Started(b, r[b]);
    var n1 := n0.(cache := map[a := s]);
    assert Received(n0, [s]) == Received(n1, [s][1..]) && [s][1..] == [] && n0.cache[a := s] == map[a := s];
    n := Beaten(Beaten(n1));
    assert n == n1.(counter := 2);
    BeatenOk(r, b, n);
    var t := Ticked(n);
    CachedIsRival(t, a);
    assert View(t) == {t.Rank(), s.Rank()};
    LessTotal(s.Rank(), t.Rank());
    assert IsLeast(s.Rank(), View(t));
    LeastIsUnique(s.Rank(), Least(View(t)), View(t));
    BeatenOk(r, b, Beaten(n));
    assert View(Beaten(n)) == View(t);
    DroppedAtOnce(r, b, n, []);
    assert Received(Beaten(n), []) == Beaten(n);
  }

  /** So there are runs in which a master is elected, and given up at the next heartbeat, while both nodes are alive. */
  lemma ElectionInVain(r: Roster, a: Id, b: Id) returns (run: seq<Net>, steps: seq<Step>)
    requires ValidRoster(r) && a in r && b in r && a != b && a.uuid == b.uuid && Less(RankOf(r, a), RankOf(r, b))
    ensures IsRun(r, run, steps) && |steps| == 8 && steps[6] == Beat(b) == steps[7]
    ensures forall k :: 6 <= k <= 8 ==> a in run[k].nodes && b in run[k].nodes
    ensures run[6].nodes[b].master == "" && run[7].nodes[b].master == a.name && run[8].nodes[b].master == ""
  {
    hide Beaten, Received;
    var n := ElectsAndDrops(r, a, b);
    var s := Sample(a, r[a]);
    var na, nb := Started(a, r[a]), Started(b, r[b]);
    var heard := Received(nb, [s]);
    ReceivedCache(nb, [s]);
    var once := Beaten(heard);
    BeatKeepsIdentity(heard);
    BeatKeepsIdentity(once);
    BeatKeepsIdentity(n);
    var sb := Sample(b, r[b]);
    steps := [Start(a), Start(b), Beat(a), Deliver(b, [s]), Beat(b), Beat(b), Beat(b), Beat(b)];
    run := [
      Net(map[], {}), Net(map[a := na], {}), Net(map[a := na, b := nb], {}),
      Net(map[a := Beaten(na), b := nb], {s}), Net(map[a := Beaten(na), b := heard], {s}),
      Net(map[a := Beaten(na), b := once], {s, sb}), Net(map[a := Beaten(na), b := n], {s, sb}),
      Net(map[a := Beaten(na), b := Beaten(n)], {s, sb}), Net(map[a := Beaten(na), b := Beaten(Beaten(n))], {s, sb})];
    assert run[1] == Taken(r, run[0], steps[0]);
    assert run[2] == Taken(r, run[1], steps[1]);
    assert run[3] == Taken(r, run[2], steps[2]);
    assert run[4] == Taken(r, run[3], steps[3]);
    assert run[5] == Taken(r, run[4], steps[4]);
    assert run[6] == Taken(r, run[5], steps[5]);
    assert run[7] == Taken(r, run[6], steps[6]);
    assert run[8] == Taken(r, run[7], steps[7]);
  }

  lemma Extended(r: Roster, run: seq<Net>, steps: seq<Step>, s: Step)
    requires IsRun(r, run, steps) && Possible(r, run[|steps|], s)
    ensures IsRun(r, run + [Taken(r, run[|steps|], s)], steps + [s])
  {
    var run', steps' := run + [Taken(r, run[|steps|], s)], steps + [s];
    forall k | 0 <= k < |steps'|
      ensures Possible(r, run'[k], steps'[k]) && run'[k + 1] == Taken(r, run'[k], steps'[k])
    {
    }
  }

  /** The network at the end of some run. */
  ghost predicate Reachable(r: Roster, net: Net) {
    exists run, steps :: IsRun(r, run, steps) && run[|steps|] == net
  }

  lemma StaysReachable(r: Roster, net: Net, s: Step)
    requires Reachable(r, net) && Possible(r, net, s)
    ensures Reachable(r, Taken(r, net, s))
  {
    var run, steps :| IsRun(r, run, steps) && run[|steps|] == net;
    Extended(r, run, steps, s);
    var run', steps' := run + [Taken(r, net, s)], steps + [s];
    assert IsRun(r, run', steps') && run'[|steps'|] == Taken(r, net, s);
  }

  /** A network in which b follows a, a is gone, and the namesake c of a has spoken on its own timeline. */
  ghost predicate Haunted(r: Roster, net: Net, a: Id, b: Id, c: Id)
    requires c in r
  {
    && a !in net.nodes && b in net.nodes && c in net.nodes && Sample(c, r[c]) in net.written
    && Content(r, b, net.nodes[b], a)
  }

  /** A run in which b has elected a, and c has started. */
  lemma BecomesFollower(r: Roster, a: Id, b: Id, c: Id) returns (net: Net)
    requires ValidRoster(r) && a in r && b in r && c in r && a != b && a.uuid == b.uuid && c != a && c != b
    requires Less(RankOf(r, a), RankOf(r, b))
    ensures Reachable(r, net) && net.nodes.Keys == {a, b, c}
    ensures Content(r, b, net.nodes[b], a) && net.nodes[b].counter == 3
  {
    hide Beaten, Received, Content, NodeOk;
    var n := ElectsAndDrops(r, a, b);
    var s := Sample(a, r[a]);
    net := Net(map[], {});
    assert Reachable(r, net) by {
      assert IsRun(r, [net], []) && [net][0] == net;
    }
    StaysReachable(r, net, Start(a));
    net := Taken(r, net, Start(a));
    StaysReachable(r, net, Start(b));
    net := Taken(r, net, Start(b));
    StaysReachable(r, net, Start(c));
    net := Taken(r, net, Start(c));
    StaysReachable(r, net, Beat(a));
    net := Taken(r, net, Beat(a));
    assert [s][0] == s;
    StaysReachable(r, net, Deliver(b, [s]));
    net := Taken(r, net, Deliver(b, [s]));
    StaysReachable(r, net, Beat(b));
    net := Taken(r, net, Beat(b));
    StaysReachable(r, net, Beat(b));
    net := Taken(r, net, Beat(b));
    StaysReachable(r, net, Beat(b));
    net := Taken(r, net, Beat(b));
  }

  lemma BecomesHaunted(r: Roster, a: Id, b: Id, c: Id) returns (net: Net)
    requires ValidRoster(r) && a in r && b in r && c in r && a != b && a.uuid == b.uuid
    requires Less(RankOf(r, a), RankOf(r, b)) && c.name == a.name && c.uuid != a.uuid
    ensures Reachable(r, net) && Haunted(r, net, a, b, c) && net.nodes[b].counter == 3
  {
    hide Beaten, Received, Content, NodeOk, Reachable;
    net := BecomesFollower(r, a, b, c);
    WrittenAsKnown(r, net, c);
    StaysReachable(r, net, Crash(a));
    net := Taken(r, net, Crash(a));
    StaysReachable(r, net, Beat(c));
    net := Taken(r, net, Beat(c));
  }

  /** What a node writes at its heartbeat in a reachable state. */
  lemma WrittenAsKnown(r: Roster, net: Net, id: Id)
    requires Reachable(r, net) && id in net.nodes
    ensures NodeOk(r, id, net.nodes[id]) && Sample(id, net.nodes[id].accuracy) == Sample(id, r[id])
  {
    var run, steps :| IsRun(r, run, steps) && run[|steps|] == net;
    ReachableOk(r, run, steps, |steps|);
  }

  /** So, for every number of heartbeats, there is a reachable state in which b still follows a, which is gone since. */
  lemma {:induction false} DeadMasterIsKept(r: Roster, a: Id, b: Id, c: Id, beats: nat) returns (net: Net)
    requires ValidRoster(r) && a in r && b in r && c in r && a != b && a.uuid == b.uuid
    requires Less(RankOf(r, a), RankOf(r, b)) && c.name == a.name && c.uuid != a.uuid
    ensures Reachable(r, net) && a !in net.nodes && b in net.nodes && c in net.nodes
    ensures Haunted(r, net, a, b, c) && net.nodes[b].master == a.name && net.nodes[b].counter == 3 + beats
  {
    if beats == 0 {
      net := BecomesHaunted(r, a, b, c);
    } else {
      net := DeadMasterIsKept(r, a, b, c, beats - 1);
      hide Beaten, Received, Content;
      var s := Sample(c, r[c]);
      var n := net.nodes[b];
      NamesakeOnly(r, a, b, c, n);
      assert [s][0] == s;
      StaysReachable(r, net, Deliver(b, [s]));
      net := Taken(r, net, Deliver(b, [s]));
      StaysReachable(r, net, Beat(b));
      net := Taken(r, net, Beat(b));
    }
    ContentMeans(r, b, net.nodes[b], a);
  }

  lemma ContentMeans(r: Roster, id: Id, n: Node, master: Id)
    requires Content(r, id, n, master)
    ensures n.id == id && n.master == master.name
  {
  }

  lemma NamesakeOnly(r: Roster, a: Id, b: Id, c: Id, n: Node)
    requires Content(r, b, n, a) && c in r && c.name == a.name && c.uuid != a.uuid
    ensures var m := Beaten(Received(n, [Sample(c, r[c])]));
            Content(r, b, m, a) && m.counter == n.counter + 1
  {
    var batch := [Sample(c, r[c])];
    assert batch[0].id.name == a.name;
    NamesakeBeat(r, b, n, a, batch);
    ReceivedCache(n, batch);
    hide Received;
  }

  lemma BeatKeepsIdentity(n: Node)
    ensures Beaten(n).id == n.id && Beaten(n).accuracy == n.accuracy
  {
  }

  // ----- the timeline left alone

  /** The members of a timeline that are alive, one of them first among them. */
  ghost predicate IsGroup(r: Roster, group: set<Id>, leader: Id) {
    && leader in group && ValidRoster(r) && (forall i :: i in group ==> i in r && i.uuid == leader.uuid)
    && IsLeast(RankOf(r, leader), Ranks(r, group))
  }

  /** Nobody in the batch bears the name of a member of the timeline that is gone. */
  ghost predicate NoGhosts(r: Roster, group: set<Id>, uuid: string, batch: seq<Sample>) {
    && AllKnown(r, batch)
    && forall k :: 0 <= k < |batch| && Id(batch[k].id.name, uuid) in r ==> Id(batch[k].id.name, uuid) in group
  }

  /** Every other member is heard. */
  ghost predicate Lively(r: Roster, group: set<Id>, id: Id, batch: seq<Sample>) {
    && NoGhosts(r, group, id.uuid, batch)
    && forall o :: o in group && o != id ==> exists k :: 0 <= k < |batch| && batch[k].id == o
  }

  ghost predicate Gone(r: Roster, group: set<Id>, uuid: string, name: string) {
    Id(name, uuid) in r && Id(name, uuid) !in group
  }

  /** Only members that are alive are in the cache. */
  ghost predicate Clean(group: set<Id>, n: Node) {
    forall i :: i in n.cache && i.uuid == n.id.uuid ==> i in group
  }

  lemma {:induction false} ReceivedCache(n: Node, batch: seq<Sample>)
    ensures var m := Received(n, batch);
            && m.id == n.id && m.accuracy == n.accuracy && m.master == n.master && m.counter == n.counter
            && (forall i :: i in m.cache <==> i in n.cache || exists k :: 0 <= k < |batch| && batch[k].id == i)
    decreases |batch|
  {
    if batch != [] {
      var s := batch[0];
      var heard := s.id.name == n.master && n.master != n.id.name;
      var next := n.(cache := n.cache[s.id := s], lastcount := if heard then n.counter else n.lastcount);
      ReceivedCache(next, batch[1..]);
      var m := Received(n, batch);
      forall i
        ensures i in m.cache <==> i in n.cache || exists k :: 0 <= k < |batch| && batch[k].id == i
      {
        if k :| 0 <= k < |batch| && batch[k].id == i {
          assert k > 0 ==> batch[1..][k - 1].id == i;
        }
        if j :| 0 <= j < |batch| - 1 && batch[1..][j].id == i {
          assert batch[j + 1].id == i;
        }
      }
    }
  }

  /** After a lively batch the leader or somebody who is gone ranks first. */
  lemma FirstInView(r: Roster, group: set<Id>, leader: Id, id: Id, n: Node, batch: seq<Sample>)
    requires IsGroup(r, group, leader) && id in group && NodeOk(r, id, n) && Lively(r, group, id, batch)
    ensures var m := Received(n, batch);
            && NodeOk(r, id, m)
            && (Least(View(m)) == RankOf(r, leader) || Gone(r, group, id.uuid, Least(View(m)).name))
            && (Clean(group, n) ==> Clean(group, m) && Least(View(m)) == RankOf(r, leader))
  {
    var m := Received(n, batch);
    ReceivedOk(r, id, n, batch);
    ReceivedCache(n, batch);
    LeaderInView(r, group, leader, id, n, batch);
    var k, l := Least(View(m)), RankOf(r, leader);
    LessTotal(k, l);
    NobodyBetter(r, group, leader);
    if k != l && k != m.Rank() {
      RivalInCache(r, m, k);
    }
  }

  lemma NobodyBetter(r: Roster, group: set<Id>, leader: Id)
    requires IsGroup(r, group, leader)
    ensures forall i :: i in group ==> !Less(RankOf(r, i), RankOf(r, leader))
  {
    forall i | i in group
      ensures !Less(RankOf(r, i), RankOf(r, leader))
    {
      assert RankOf(r, i) in Ranks(r, group);
      LessTotal(RankOf(r, i), RankOf(r, leader));
    }
  }

  lemma LeaderInView(r: Roster, group: set<Id>, leader: Id, id: Id, n: Node, batch: seq<Sample>)
    requires IsGroup(r, group, leader) && id in group && NodeOk(r, id, n) && Lively(r, group, id, batch)
    ensures RankOf(r, leader) in View(Received(n, batch))
  {
    var m := Received(n, batch);
    ReceivedOk(r, id, n, batch);
    ReceivedCache(n, batch);
    if leader != id {
      assert leader in m.cache;
      CachedIsRival(m, leader);
    }
  }

  /** What a lively batch does to the count. */
  lemma LivelyCount(r: Roster, group: set<Id>, id: Id, n: Node, batch: seq<Sample>)
    requires ValidRoster(r) && id in group && NodeOk(r, id, n) && Lively(r, group, id, batch)
    ensures var m := Received(n, batch);
            && (n.master == "" || Gone(r, group, id.uuid, n.master) ==> m.lastcount == n.lastcount)
            && (Id(n.master, id.uuid) in group && n.master != id.name ==> m.lastcount == n.counter)
            && (n.master == id.name ==> m.lastcount == n.lastcount)
  {
    if Id(n.master, id.uuid) in group && n.master != id.name {
      var k :| 0 <= k < |batch| && batch[k].id == Id(n.master, id.uuid);
      assert !Silent(n.master, batch);
      WordIsNoted(n, batch);
    } else if n.master == "" || Gone(r, group, id.uuid, n.master) {
      assert Silent(n.master, batch);
      SilenceKeepsCount(n, batch);
    } else if n.master == id.name {
      OwnCountStays(n, batch);
    }
  }

  lemma {:induction false} OwnCountStays(n: Node, batch: seq<Sample>)
    requires n.master == n.id.name
    ensures Received(n, batch).lastcount == n.lastcount
    decreases |batch|
  {
    if batch != [] {
      OwnCountStays(n.(cache := n.cache[batch[0].id := batch[0]]), batch[1..]);
    }
  }

  ghost predicate Following(r: Roster, leader: Id, n: Node)
    requires leader in r
  {
    n.master == leader.name && IsLeast(RankOf(r, leader), View(n))
  }

  function AtLeastOne(x: int): int {
    if x < 1 then 1 else x
  }

  /** Where a node is on its way: in at most g more heartbeats it follows the leader. */
  ghost predicate Phase(r: Roster, group: set<Id>, leader: Id, n: Node, g: int)
    requires leader in r
  {
    var w := n.counter - n.lastcount;
    || Following(r, leader, n)
    || (n.master == "" && Clean(group, n) && g >= AtLeastOne(NEW_MASTER_WAIT - w))
    || (n.master == "" && g >= AtLeastOne(NEW_MASTER_WAIT - w) + 4)
    || (n.master != "" && Gone(r, group, leader.uuid, n.master) && g >= AtLeastOne(MASTER_TIMEOUT + 1 - w) + 3)
    || (n.master != "" && !Gone(r, group, leader.uuid, n.master) && g >= 7)
  }

  /** The heartbeat after a lively batch elects the leader, or somebody who is gone. */
  lemma BeatAfterLively(r: Roster, group: set<Id>, leader: Id, id: Id, n: Node, batch: seq<Sample>)
    requires IsGroup(r, group, leader) && id in group && NodeOk(r, id, n) && Lively(r, group, id, batch)
    ensures var m := Received(n, batch);
            var t, b := Ticked(m), Beaten(m);
            && NodeOk(r, id, b) && b.counter == n.counter + 1 && b.lastcount == t.lastcount && b.cache == t.cache
            && (t.master == "" && !Elects(t) ==> b.master == "")
            && (t.cache == m.cache && Elects(t) ==>
                  Following(r, leader, b) || (b.master != "" && Gone(r, group, id.uuid, b.master)))
            && (t.cache == m.cache && Elects(t) && Clean(group, n) ==> Following(r, leader, b))
            && (Clean(group, n) ==> Clean(group, m))
  {
    var m := Received(n, batch);
    FirstInView(r, group, leader, id, n, batch);
    ReceivedCache(n, batch);
    BeatenOk(r, id, m);
    ElectedIsNamed(r, id, m);
    if Ticked(m).cache == m.cache {
      assert View(Ticked(m)) == View(m) && View(Beaten(m)) == View(m);
    }
  }

  lemma PhaseStep(r: Roster, group: set<Id>, leader: Id, id: Id, n: Node, batch: seq<Sample>, g: int)
    requires IsGroup(r, group, leader) && id in group && NodeOk(r, id, n) && Lively(r, group, id, batch)
    requires Phase(r, group, leader, n, g)
    ensures NodeOk(r, id, Beaten(Received(n, batch))) && Phase(r, group, leader, Beaten(Received(n, batch)), g - 1)
  {
    if Following(r, leader, n) {
      FollowingStays(r, group, leader, id, n, batch);
    } else {
      hide Received, Beaten, Lively, NodeOk, View, Following, Clean;
      BeatAfterLively(r, group, leader, id, n, batch);
      LivelyCount(r, group, id, n, batch);
      ReceivedCache(n, batch);
      MasterIsSomebody(r, group, id, n);
      EmptyIsClean(group, Beaten(Received(n, batch)));
      SameCacheClean(group, Received(n, batch), Beaten(Received(n, batch)));
    }
  }

  lemma EmptyIsClean(group: set<Id>, n: Node)
    ensures n.cache == map[] ==> Clean(group, n)
  {
  }

  lemma SameCacheClean(group: set<Id>, m: Node, n: Node)
    ensures n.cache == m.cache && n.id == m.id && Clean(group, m) ==> Clean(group, n)
  {
  }

  lemma MasterIsSomebody(r: Roster, group: set<Id>, id: Id, n: Node)
    requires NodeOk(r, id, n)
    ensures n.id == id && n.lastcount <= n.counter
    ensures n.master == "" || n.master == id.name || Gone(r, group, id.uuid, n.master) || Id(n.master, id.uuid) in group
  {
  }

  lemma FollowingStays(r: Roster, group: set<Id>, leader: Id, id: Id, n: Node, batch: seq<Sample>)
    requires IsGroup(r, group, leader) && id in group && NodeOk(r, id, n) && Lively(r, group, id, batch)
    requires Following(r, leader, n)
    ensures NodeOk(r, id, Beaten(Received(n, batch))) && Following(r, leader, Beaten(Received(n, batch)))
  {
    GhostlessKeepsFollowing(r, group, leader, id, n, batch);
    LivelyCount(r, group, id, n, batch);
    BeatKeepsMaster(r, id, Received(n, batch), leader);
    BeatenOk(r, id, Received(n, batch));
  }

  lemma GhostlessKeepsFollowing(r: Roster, group: set<Id>, leader: Id, id: Id, n: Node, batch: seq<Sample>)
    requires IsGroup(r, group, leader) && id in group && NodeOk(r, id, n) && NoGhosts(r, group, id.uuid, batch)
    requires Following(r, leader, n)
    ensures NodeOk(r, id, Received(n, batch)) && Following(r, leader, Received(n, batch))
    ensures Received(n, batch).counter == n.counter
  {
    forall k | 0 <= k < |batch| && batch[k].id.uuid == id.uuid && batch[k].id.name != id.name
      ensures !Less(batch[k].Rank(), RankOf(r, leader))
    {
      assert Id(batch[k].id.name, id.uuid) == batch[k].id;
      assert RankOf(r, batch[k].id) in Ranks(r, group);
      LessTotal(RankOf(r, leader), batch[k].Rank());
    }
    ReceivedKeepsLeast(r, n, batch, RankOf(r, leader));
    ReceivedOk(r, id, n, batch);
  }

  /** Seven heartbeats, each after hearing from everybody, bring a node from any state to the leader. */
  lemma {:induction false} NodeConverges(
    r: Roster, group: set<Id>, leader: Id, id: Id, n: Node, batches: seq<seq<Sample>>)
    requires IsGroup(r, group, leader) && id in group && NodeOk(r, id, n)
    requires forall k :: 0 <= k < |batches| ==> Lively(r, group, id, batches[k])
    ensures NodeOk(r, id, AfterBeats(n, batches)) && Phase(r, group, leader, AfterBeats(n, batches), 7 - |batches|)
    ensures |batches| >= 7 ==> Following(r, leader, AfterBeats(n, batches))
  {
    hide Received, Beaten, Phase, Following, Lively, NodeOk, IsGroup;
    GroupIsKnown(r, group, leader);
    if batches == [] {
      PhaseStarts(r, group, leader, id, n);
    } else {
      var k := |batches| - 1;
      NodeConverges(r, group, leader, id, n, batches[..k]);
      PhaseStep(r, group, leader, id, AfterBeats(n, batches[..k]), batches[k], 7 - k);
    }
    if |batches| >= 7 {
      PhaseEnds(r, group, leader, AfterBeats(n, batches), 7 - |batches|);
    }
  }

  lemma GroupIsKnown(r: Roster, group: set<Id>, leader: Id)
    requires IsGroup(r, group, leader)
    ensures leader in r
  {
  }

  lemma PhaseStarts(r: Roster, group: set<Id>, leader: Id, id: Id, n: Node)
    requires leader in r && NodeOk(r, id, n)
    ensures Phase(r, group, leader, n, 7)
  {
  }

  lemma PhaseEnds(r: Roster, group: set<Id>, leader: Id, n: Node, g: int)
    requires leader in r && g <= 0 && Phase(r, group, leader, n, g)
    ensures Following(r, leader, n)
  {
  }

  /** The node follows a member that is alive, and knows of a better one that is gone. */
  ghost predicate Misled(r: Roster, group: set<Id>, leader: Id, id: Id, n: Node, gone: Id) {
    && IsGroup(r, group, leader) && id in group && NodeOk(r, id, n)
    && n.master != id.name && Id(n.master, id.uuid) in group
    && gone in r && gone !in group && gone.uuid == id.uuid && IsLeast(RankOf(r, gone), View(n))
  }

  lemma MisledBatch(r: Roster, group: set<Id>, leader: Id, id: Id, n: Node, gone: Id, batch: seq<Sample>)
    requires IsGroup(r, group, leader) && id in group && n.id == id && Lively(r, group, id, batch)
    requires gone in r && gone !in group && gone.uuid == id.uuid && Less(RankOf(r, gone), RankOf(r, leader))
    ensures AllKnown(r, batch) && Silent(gone.name, batch) && NoneBetter(RankOf(r, gone), id, batch)
    ensures Silent("", batch)
  {
    NobodyBetter(r, group, leader);
    forall k | 0 <= k < |batch| && batch[k].id.uuid == id.uuid
      ensures !Less(batch[k].Rank(), RankOf(r, gone))
    {
      var i := batch[k].id;
      assert Id(i.name, id.uuid) == i;
      LessTotal(RankOf(r, i), RankOf(r, gone));
      if Less(RankOf(r, i), RankOf(r, gone)) {
        LessTransitive(RankOf(r, i), RankOf(r, gone), RankOf(r, leader));
      }
    }
  }

  /** The first heartbeat elects the one that is gone. */
  lemma MisledBeat(r: Roster, group: set<Id>, leader: Id, id: Id, n: Node, gone: Id, batch: seq<Sample>)
    requires Misled(r, group, leader, id, n, gone) && Lively(r, group, id, batch)
    requires Less(RankOf(r, gone), RankOf(r, leader))
    ensures var m := Beaten(Received(n, batch));
            Content(r, id, m, gone) && m.counter - m.lastcount == 1
  {
    MisledBatch(r, group, leader, id, n, gone, batch);
    ReceivedKeepsLeast(r, n, batch, RankOf(r, gone));
    ReceivedOk(r, id, n, batch);
    LivelyCount(r, group, id, n, batch);
    var m := Received(n, batch);
    hide Received;
    BeatenOk(r, id, m);
    assert View(Ticked(m)) == View(m) && View(Beaten(m)) == View(m);
    LeastIsUnique(RankOf(r, gone), Least(View(m)), View(m));
  }

  /** Seven heartbeats are needed: a misled node does not follow the leader after six, and does after the seventh. */
  lemma SevenAreNeeded(
    r: Roster, group: set<Id>, leader: Id, id: Id, n: Node, gone: Id, batches: seq<seq<Sample>>, k: nat)
    requires Misled(r, group, leader, id, n, gone) && Less(RankOf(r, gone), RankOf(r, leader))
    requires |batches| == 7 && forall i :: 0 <= i < 7 ==> Lively(r, group, id, batches[i])
    ensures k < 7 ==> !Following(r, leader, AfterBeats(n, batches[..k]))
    ensures Following(r, leader, AfterBeats(n, batches))
  {
    NodeConverges(r, group, leader, id, n, batches);
    if k == 0 {
      LessTotal(RankOf(r, gone), RankOf(r, leader));
    } else if k < 7 {
      hide Lively, IsGroup, Misled, Following;
      var m := MisledStages(r, group, leader, id, n, gone, batches, k);
      NotFollowing(r, group, leader, id, m, gone);
    }
  }

  lemma NotFollowing(r: Roster, group: set<Id>, leader: Id, id: Id, m: Node, gone: Id)
    requires IsGroup(r, group, leader) && id in group && gone in r && gone !in group && gone.uuid == id.uuid
    requires m.master == gone.name || m.master == ""
    ensures !Following(r, leader, m)
  {
    assert Id(gone.name, leader.uuid) == gone && Id(leader.name, leader.uuid) == leader;
  }

  /** Such a node is there in some run: it elects the leader, then hears of a better one, which crashes. */
  lemma SomeAreMisled(r: Roster, leader: Id, id: Id, gone: Id) returns (net: Net)
    requires ValidRoster(r) && leader in r && id in r && gone in r && leader.uuid == id.uuid == gone.uuid
    requires Less(RankOf(r, gone), RankOf(r, leader)) && Less(RankOf(r, leader), RankOf(r, id))
    ensures Reachable(r, net) && net.nodes.Keys == {leader, id}
    ensures Misled(r, {leader, id}, leader, id, net.nodes[id], gone)
  {
    LessTransitive(RankOf(r, gone), RankOf(r, leader), RankOf(r, id));
    LessTotal(RankOf(r, gone), RankOf(r, leader));
    LessTotal(RankOf(r, gone), RankOf(r, id));
    PairIsGroup(r, leader, id);
    hide Beaten, Received, Content, NodeOk, Reachable, IsGroup, IsLeast, View, Less;
    net := BecomesFollower(r, leader, id, gone);
    WrittenAsKnown(r, net, gone);
    HearsOfBetter(r, id, net.nodes[id], leader, gone);
    var s := Sample(gone, r[gone]);
    StaysReachable(r, net, Beat(gone));
    net := Taken(r, net, Beat(gone));
    assert [s][0] == s;
    StaysReachable(r, net, Deliver(id, [s]));
    net := Taken(r, net, Deliver(id, [s]));
    StaysReachable(r, net, Crash(gone));
    net := Taken(r, net, Crash(gone));
  }

  lemma PairIsGroup(r: Roster, leader: Id, id: Id)
    requires ValidRoster(r) && leader in r && id in r && leader.uuid == id.uuid
    requires Less(RankOf(r, leader), RankOf(r, id))
    ensures leader != id && IsGroup(r, {leader, id}, leader)
  {
    LessTotal(RankOf(r, leader), RankOf(r, id));
    assert RankOf(r, leader) in Ranks(r, {leader, id});
  }

  lemma HearsOfBetter(r: Roster, id: Id, n: Node, leader: Id, gone: Id)
    requires Content(r, id, n, leader) && gone in r && gone.uuid == id.uuid && gone != id
    requires Less(RankOf(r, gone), RankOf(r, leader))
    ensures var m := Received(n, [Sample(gone, r[gone])]);
            NodeOk(r, id, m) && m.master == leader.name && leader.name != id.name && IsLeast(RankOf(r, gone), View(m))
  {
    var s := Sample(gone, r[gone]);
    ReceivedOk(r, id, n, [s]);
    ReceivedCache(n, [s]);
    var m := Received(n, [s]);
    assert [s][1..] == [] && m.cache == n.cache[gone := s];
    CachedIsRival(m, gone);
    hide Received;
    forall k | k in View(m) && k != RankOf(r, gone)
      ensures Less(RankOf(r, gone), k)
    {
      assert k in View(n);
      if k != RankOf(r, leader) {
        LessTransitive(RankOf(r, gone), RankOf(r, leader), k);
      }
    }
  }

  /** For three heartbeats the node follows the one that is gone, for three more nobody. */
  lemma MisledStages(
    r: Roster, group: set<Id>, leader: Id, id: Id, n: Node, gone: Id, batches: seq<seq<Sample>>, k: nat)
    returns (m: Node)
    requires Misled(r, group, leader, id, n, gone) && Less(RankOf(r, gone), RankOf(r, leader))
    requires |batches| == 7 && (forall i :: 0 <= i < 7 ==> Lively(r, group, id, batches[i])) && 0 < k < 7
    ensures m == AfterBeats(n, batches[..k])
    ensures IsGroup(r, group, leader) && id in group && gone in r && gone !in group && gone.uuid == id.uuid
    ensures if k <= 3 then m.master == gone.name else m.master == ""
    ensures k <= 3 ==> Content(r, id, m, gone) && m.counter - m.lastcount == k
    ensures k > 3 ==> m.id == id && m.counter - m.lastcount == k - 4
    decreases k
  {
    hide Received, Beaten, Lively, Content, NodeOk, View;
    assert batches[..k][..k - 1] == batches[..k - 1] && batches[..k][k - 1] == batches[k - 1];
    m := AfterBeats(n, batches[..k]);
    if k == 1 {
      assert AfterBeats(n, batches[..0]) == n;
      MisledBeat(r, group, leader, id, n, gone, batches[0]);
      ContentMeans(r, id, m, gone);
    } else {
      var p := MisledStages(r, group, leader, id, n, gone, batches, k - 1);
      if k <= 4 {
        ContentMeans(r, id, p, gone);
      }
      MisledBatch(r, group, leader, id, p, gone, batches[k - 1]);
      if k <= 3 {
        QuietBeat(r, id, p, gone, batches[k - 1]);
        ContentMeans(r, id, m, gone);
      } else if k == 4 {
        GoneIsNamed(r, id, p, gone);
        SilentMasterIsDropped(p, batches[k - 1]);
      } else {
        MasterlessWaits(p, batches[k - 1]);
        ReceivedCache(p, batches[k - 1]);
      }
    }
  }

  lemma GoneIsNamed(r: Roster, id: Id, n: Node, master: Id)
    requires Content(r, id, n, master)
    ensures n.master != "" && n.master != n.id.name
  {
  }

  /** A stretch of a run without crashes or starts in a timeline, in which all its nodes beat and hear of each other. */
  ghost predicate LeftAlone(
    r: Roster, run: seq<Net>, steps: seq<Step>, group: set<Id>, uuid: string, first: nat, last: nat)
    requires first <= last <= |steps| && last < |run|
  {
    && (forall i :: i in group <==> i in run[first].nodes && i.uuid == uuid)
    && (forall k :: first <= k < last && (steps[k].Start? || steps[k].Crash?) ==> steps[k].id.uuid != uuid)
    && (forall i :: i in group ==>
          var (done, open) := Heard(steps, i, first, last);
          |done| >= 7 && NoGhosts(r, group, uuid, open) && forall k :: 0 <= k < |done| ==> Lively(r, group, i, done[k]))
  }

  lemma {:induction false} SameMembers(r: Roster, run: seq<Net>, steps: seq<Step>, uuid: string, first: nat, last: nat)
    requires IsRun(r, run, steps) && first <= last <= |steps|
    requires forall k :: first <= k < last && (steps[k].Start? || steps[k].Crash?) ==> steps[k].id.uuid != uuid
    ensures forall i: Id :: i.uuid == uuid ==> (i in run[first].nodes <==> i in run[last].nodes)
    decreases last
  {
    if first < last {
      SameMembers(r, run, steps, uuid, first, last - 1);
      assert Possible(r, run[last - 1], steps[last - 1]) && run[last] == Taken(r, run[last - 1], steps[last - 1]);
    }
  }

  /**
   From every reachable state, a timeline that is left alone for seven heartbeats of each node is settled on its least
   member.
   */
  lemma TimelineSettles(r: Roster, run: seq<Net>, steps: seq<Step>, group: set<Id>, leader: Id, first: nat, last: nat)
    requires IsRun(r, run, steps) && first <= last <= |steps|
    requires IsGroup(r, group, leader) && LeftAlone(r, run, steps, group, leader.uuid, first, last)
    ensures Settled(r, run[last], leader)
  {
    SameMembers(r, run, steps, leader.uuid, first, last);
    forall i | i in group
      ensures i in run[last].nodes && Following(r, leader, run[last].nodes[i])
    {
      var (done, open) := Heard(steps, i, first, last);
      ReachableOk(r, run, steps, first);
      LocalView(r, run, steps, i, first, last);
      NodeConverges(r, group, leader, i, run[first].nodes[i], done);
      GhostlessKeepsFollowing(r, group, leader, i, AfterBeats(run[first].nodes[i], done), open);
    }
  }
}
