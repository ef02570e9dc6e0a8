/**
 Networks of coordinators: nodes start, beat, receive samples and crash in any order; samples
 are lost, delayed, repeated and reordered at will.
 */
module Election {
  import opened Coordinator

  /** Every node that ever takes part, with the accuracy it asks for. */
  type Roster = map<Id, real>

  datatype Net = Net(nodes: map<Id, Node>, written: set<Sample>)

  datatype Step =
    | Start(id: Id)
    | Beat(id: Id)
    | Deliver(id: Id, batch: seq<Sample>)
    | Crash(id: Id)

  ghost predicate Possible(r: Roster, net: Net, s: Step) {
    match s
    case Start(id) => id in r && id !in net.nodes
    case Beat(id) => id in net.nodes
    case Deliver(id, batch) => id in net.nodes && forall k :: 0 <= k < |batch| ==> batch[k] in net.written
    case Crash(id) => id in net.nodes
  }

  ghost function Taken(r: Roster, net: Net, s: Step): Net
    requires Possible(r, net, s)
  {
    match s
    case Start(id) => net.(nodes := net.nodes[id := Started(id, r[id])])
    case Beat(id) =>
      var n := net.nodes[id];
      Net(net.nodes[id := Beaten(n)], net.written + {Sample(n.id, n.accuracy)})
    case Deliver(id, batch) => net.(nodes := net.nodes[id := Received(net.nodes[id], batch)])
    case Crash(id) => net.(nodes := net.nodes - {id})
  }

  /** The empty name means "no master", so nobody bears it. */
  ghost predicate ValidRoster(r: Roster) {
    forall id :: id in r ==> id.name != ""
  }

  ghost predicate IsRun(r: Roster, run: seq<Net>, steps: seq<Step>) {
    && ValidRoster(r) && |run| == |steps| + 1
    && run[0] == Net(map[], {})
    && (forall k :: 0 <= k < |steps| ==> Possible(r, run[k], steps[k]) && run[k + 1] == Taken(r, run[k], steps[k]))
  }

  // ----- what holds in every reachable state

  ghost predicate Known(r: Roster, s: Sample) {
    s.id in r && s.accuracy == r[s.id]
  }

  ghost predicate CacheOk(r: Roster, cache: map<Id, Sample>) {
    forall i :: i in cache ==> cache[i].id == i && Known(r, cache[i])
  }

  /** A slave's master is in its cache, and ranks before the slave itself. */
  ghost predicate FollowsCached(n: Node) {
    n.master == "" || n.master == n.id.name ||
    (var m := Id(n.master, n.id.uuid); m in n.cache && Less(n.cache[m].Rank(), n.Rank()))
  }

  ghost predicate NodeOk(r: Roster, id: Id, n: Node) {
    && n.id == id && Known(r, Sample(n.id, n.accuracy)) && CacheOk(r, n.cache) && FollowsCached(n)
    && n.lastcount <= n.counter
  }

  ghost predicate NetOk(r: Roster, net: Net) {
    && (forall id :: id in net.nodes ==> NodeOk(r, id, net.nodes[id]))
    && (forall s :: s in net.written ==> Known(r, s))
  }

  lemma {:induction false} ReceivedOk(r: Roster, id: Id, n: Node, batch: seq<Sample>)
    requires NodeOk(r, id, n) && forall k :: 0 <= k < |batch| ==> Known(r, batch[k])
    ensures NodeOk(r, id, Received(n, batch))
    decreases |batch|
  {
    if batch != [] {
      var s := batch[0];
      var heard := s.id.name == n.master && n.master != n.id.name;
      var next := n.(cache := n.cache[s.id := s], lastcount := if heard then n.counter else n.lastcount);
      assert FollowsCached(next);
      ReceivedOk(r, id, next, batch[1..]);
    }
  }

  lemma RivalInCache(r: Roster, n: Node, k: Key)
    requires CacheOk(r, n.cache) && k in Rivals(n)
    ensures var i := Id(k.name, n.id.uuid); i in n.cache && n.cache[i].Rank() == k
  {
    var s :| s in n.cache.Values && s.id.uuid == n.id.uuid && s.id.name != n.id.name && s.Rank() == k;
    var i :| i in n.cache && n.cache[i] == s;
  }

  lemma CachedIsRival(n: Node, i: Id)
    requires i in n.cache && n.cache[i].id == i && i.uuid == n.id.uuid && i.name != n.id.name
    ensures n.cache[i].Rank() in Rivals(n)
  {
    assert n.cache[i] in n.cache.Values;
  }

  /**
   Starting the search from the present master at the node's own accuracy makes no difference:
   the winner is the least of the node itself and everyone in its cache.
   */
  lemma ElectionIsFair(r: Roster, id: Id, n: Node)
    requires NodeOk(r, id, n)
    ensures Least({Favourite(n)} + Rivals(n)) == Least(View(n))
  {
    if n.master != "" && n.master != n.id.name {
      var m := Id(n.master, n.id.uuid);
      var k, l := n.cache[m].Rank(), Least({Favourite(n)} + Rivals(n));
      CachedIsRival(n, m);
      LessTotal(Favourite(n), k);
      if k != Favourite(n) {
        assert l != Favourite(n);
      }
      assert l in View(n);
      LessTotal(l, k);
      if l != k {
        LessTransitive(l, k, n.Rank());
      }
      assert IsLeast(l, View(n));
      LeastIsUnique(l, Least(View(n)), View(n));
    } else {
      assert Favourite(n) == n.Rank();
    }
  }

  lemma TickedOk(r: Roster, id: Id, n: Node)
    requires NodeOk(r, id, n)
    ensures NodeOk(r, id, Ticked(n))
  {
  }

  lemma BeatenOk(r: Roster, id: Id, n: Node)
    requires NodeOk(r, id, n)
    ensures NodeOk(r, id, Beaten(n))
    ensures Elects(Ticked(n)) ==> Beaten(n).master == Least(View(Ticked(n))).name
  {
    TickedOk(r, id, n);
    var t := Ticked(n);
    if Elects(t) {
      ElectionIsFair(r, id, t);
      var k := Least(View(t));
      if k != t.Rank() {
        RivalInCache(r, t, k);
      }
    }
  }

  lemma StepOk(r: Roster, net: Net, s: Step)
    requires ValidRoster(r) && Possible(r, net, s) && NetOk(r, net)
    ensures NetOk(r, Taken(r, net, s))
  {
    match s
    case Start(id) =>
    case Beat(id) => BeatenOk(r, id, net.nodes[id]);
    case Deliver(id, batch) => ReceivedOk(r, id, net.nodes[id], batch);
    case Crash(id) =>
  }

  /** In every reachable state of every network, each slave has its master in its cache. */
  lemma {:induction false} ReachableOk(r: Roster, run: seq<Net>, steps: seq<Step>, k: nat)
    requires IsRun(r, run, steps) && k <= |steps|
    ensures NetOk(r, run[k])
  {
    if k > 0 {
      ReachableOk(r, run, steps, k - 1);
      StepOk(r, run[k - 1], steps[k - 1]);
    }
  }

  /** In every reachable state, a heartbeat that elects picks the least of the node and its cached peers. */
  lemma ReachableElection(r: Roster, run: seq<Net>, steps: seq<Step>, k: nat, id: Id)
    requires IsRun(r, run, steps) && k <= |steps| && id in run[k].nodes
    requires Elects(Ticked(run[k].nodes[id]))
    ensures var n := run[k].nodes[id];
            exists l :: IsLeast(l, View(Ticked(n))) && Beaten(n).master == l.name
  {
    ReachableOk(r, run, steps, k);
    BeatenOk(r, id, run[k].nodes[id]);
    assert IsLeast(Least(View(Ticked(run[k].nodes[id]))), View(Ticked(run[k].nodes[id])));
  }

  /** Nodes that know the same candidates elect the same master. */
  lemma Agreement(r: Roster, id1: Id, id2: Id, n1: Node, n2: Node)
    requires NodeOk(r, id1, n1) && NodeOk(r, id2, n2)
    requires Elects(Ticked(n1)) && Elects(Ticked(n2)) && View(Ticked(n1)) == View(Ticked(n2))
    ensures Beaten(n1).master == Beaten(n2).master
  {
    BeatenOk(r, id1, n1);
    BeatenOk(r, id2, n2);
  }

  /** An elected master is elected again as long as the cache stays the same and it is heard in time. */
  lemma FixedPoint(r: Roster, id: Id, n: Node)
    requires ValidRoster(r) && NodeOk(r, id, n) && Elects(Ticked(n))
    requires Ticked(Beaten(n)).master != ""
    ensures Beaten(Beaten(n)).master == Beaten(n).master
  {
    BeatenOk(r, id, n);
    BeatenOk(r, id, Beaten(n));
    assert View(Ticked(Beaten(n))) == View(Ticked(n));
  }

  /** The ranks of a group of nodes. */
  ghost function Ranks(r: Roster, group: set<Id>): set<Key>
    requires forall id :: id in group ==> id in r
  {
    set id | id in group :: Key(r[id], id.name)
  }

  /**
   A group that knows itself: if every member of a timeline elects while it knows exactly the members,
   there is one member that all of them follow, and it alone considers itself the master.
   */
  lemma OneLeader(r: Roster, net: Net, uuid: string, group: set<Id>) returns (leader: Id)
    requires NetOk(r, net) && group != {}
    requires forall id :: id in group ==> id in net.nodes && id.uuid == uuid
    requires forall id :: id in group ==> id in r
    requires forall id :: id in group ==>
               Elects(Ticked(net.nodes[id])) && View(Ticked(net.nodes[id])) == Ranks(r, group)
    ensures leader in group && IsLeast(Key(r[leader], leader.name), Ranks(r, group))
    ensures forall id :: id in group ==> Beaten(net.nodes[id]).master == leader.name
    ensures forall id :: id in group ==> (Beaten(net.nodes[id]).master == id.name <==> id == leader)
  {
    leader := LeastMember(r, group);
    forall id | id in group
      ensures Beaten(net.nodes[id]).master == leader.name
    {
      BeatenOk(r, id, net.nodes[id]);
      LeastIsUnique(Key(r[leader], leader.name), Least(Ranks(r, group)), Ranks(r, group));
    }
  }

  lemma LeastMember(r: Roster, group: set<Id>) returns (leader: Id)
    requires group != {} && forall id :: id in group ==> id in r
    ensures leader in group && IsLeast(Key(r[leader], leader.name), Ranks(r, group))
  {
    var id :| id in group;
    assert Key(r[id], id.name) in Ranks(r, group);
    var k := LeastExists(Ranks(r, group));
    leader :| leader in group && Key(r[leader], leader.name) == k;
  }
}
