/** What the election does over time: a settled timeline stays settled, and a silent master is replaced. */
module Failover {
  import opened Coordinator
  import opened Election

  /** No sample of the node's timeline in the batch ranks before k. */
  ghost predicate NoneBetter(k: Key, id: Id, batch: seq<Sample>) {
    forall i :: 0 <= i < |batch| && batch[i].id.uuid == id.uuid && batch[i].id.name != id.name ==>
                  !Less(batch[i].Rank(), k)
  }

  ghost predicate AllKnown(r: Roster, batch: seq<Sample>) {
    forall i :: 0 <= i < |batch| ==> Known(r, batch[i])
  }

  /** Storing a sample that does not rank before the least candidate changes nothing about it. */
  lemma StoredKeepsLeast(r: Roster, n: Node, s: Sample, k: Key)
    requires CacheOk(r, n.cache) && Known(r, s) && IsLeast(k, View(n))
    requires s.id.uuid == n.id.uuid && s.id.name != n.id.name ==> !Less(s.Rank(), k)
    ensures IsLeast(k, View(n.(cache := n.cache[s.id := s])))
  {
    var next := n.(cache := n.cache[s.id := s]);
    LessTotal(k, s.Rank());
    forall l | l in Rivals(next)
      ensures l == k || Less(k, l)
    {
      var t :| t in next.cache.Values && t.id.uuid == n.id.uuid && t.id.name != n.id.name && t.Rank() == l;
      var i :| i in next.cache && next.cache[i] == t;
      if i != s.id {
        CachedIsRival(n, i);
      }
    }
    if k != n.Rank() {
      RivalInCache(r, n, k);
      var i := Id(k.name, n.id.uuid);
      assert next.cache[i].Rank() == k;
      CachedIsRival(next, i);
    }
  }

  lemma {:induction false} ReceivedKeepsLeast(r: Roster, n: Node, batch: seq<Sample>, k: Key)
    requires CacheOk(r, n.cache) && AllKnown(r, batch) && IsLeast(k, View(n)) && NoneBetter(k, n.id, batch)
    ensures var m := Received(n, batch);
            && m.id == n.id && m.accuracy == n.accuracy && m.master == n.master && m.counter == n.counter
            && CacheOk(r, m.cache) && IsLeast(k, View(m))
    decreases |batch|
  {
    if batch != [] {
      var s := batch[0];
      var heard := s.id.name == n.master && n.master != n.id.name;
      var next := n.(cache := n.cache[s.id := s], lastcount := if heard then n.counter else n.lastcount);
      StoredKeepsLeast(r, n, s, k);
      assert View(next) == View(n.(cache := n.cache[s.id := s]));
      ReceivedKeepsLeast(r, next, batch[1..], k);
    }
  }

  // ----- a settled timeline

  ghost function RankOf(r: Roster, id: Id): Key
    requires id in r
  {
    Key(r[id], id.name)
  }

  /** Every live node of the timeline follows the leader and knows nobody better. */
  ghost predicate Settled(r: Roster, net: Net, leader: Id)
    requires leader in r
  {
    && leader in net.nodes
    && forall id :: id in net.nodes && id.uuid == leader.uuid ==>
         net.nodes[id].master == leader.name && IsLeast(RankOf(r, leader), View(net.nodes[id]))
  }

  /**
   A step that gives no reason to unsettle the timeline: nobody joins it, the leader does not crash,
   its word reaches every node within three heartbeats, and no sample of a better node turns up.
   Other timelines do as they please.
   */
  ghost predicate Calm(r: Roster, net: Net, leader: Id, s: Step)
    requires leader in r
  {
    match s
    case Start(id) => id.uuid != leader.uuid
    case Beat(id) => id.uuid == leader.uuid && id != leader && id in net.nodes ==>
        net.nodes[id].counter + 1 - net.nodes[id].lastcount <= MASTER_TIMEOUT
    case Deliver(id, batch) => id.uuid == leader.uuid ==> NoneBetter(RankOf(r, leader), id, batch)
    case Crash(id) => id != leader
  }

  lemma BeatKeepsMaster(r: Roster, id: Id, n: Node, leader: Id)
    requires NodeOk(r, id, n) && leader in r && leader.name != "" && id.uuid == leader.uuid
    requires n.master == leader.name && IsLeast(RankOf(r, leader), View(n))
    requires id != leader ==> n.counter + 1 - n.lastcount <= MASTER_TIMEOUT
    ensures Beaten(n).master == leader.name && IsLeast(RankOf(r, leader), View(Beaten(n)))
  {
    BeatenOk(r, id, n);
    assert View(Ticked(n)) == View(n) && View(Beaten(n)) == View(n);
    LeastIsUnique(RankOf(r, leader), Least(View(n)), View(n));
  }

  lemma CalmStepKeepsSettled(r: Roster, net: Net, leader: Id, s: Step)
    requires ValidRoster(r) && leader in r && NetOk(r, net) && Settled(r, net, leader)
    requires Possible(r, net, s) && Calm(r, net, leader, s)
    ensures Settled(r, Taken(r, net, s), leader)
  {
    match s
    case Start(id) =>
    case Beat(id) =>
      if id.uuid == leader.uuid {
        BeatKeepsMaster(r, id, net.nodes[id], leader);
      }
    case Deliver(id, batch) =>
      if id.uuid == leader.uuid {
        ReceivedKeepsLeast(r, net.nodes[id], batch, RankOf(r, leader));
      }
    case Crash(id) =>
  }

  /** Once settled, a timeline stays settled through any number of calm steps. */
  lemma {:induction false} StaysSettled(r: Roster, run: seq<Net>, steps: seq<Step>, leader: Id, first: nat, last: nat)
    requires IsRun(r, run, steps) && leader in r && first <= last <= |steps|
    requires Settled(r, run[first], leader)
    requires forall k :: first <= k < last ==> Calm(r, run[k], leader, steps[k])
    ensures Settled(r, run[last], leader)
    decreases last
  {
    if first < last {
      StaysSettled(r, run, steps, leader, first, last - 1);
      ReachableOk(r, run, steps, last - 1);
      CalmStepKeepsSettled(r, run[last - 1], leader, steps[last - 1]);
    }
  }

  // ----- a silent master

  /** Batches arrive, each followed by a heartbeat. */
  ghost function AfterBeats(n: Node, batches: seq<seq<Sample>>): Node {
    if batches == [] then n
    else Beaten(Received(AfterBeats(n, batches[..|batches| - 1]), batches[|batches| - 1]))
  }

  /** Nobody of that name says anything. */
  ghost predicate Silent(name: string, batch: seq<Sample>) {
    forall i :: 0 <= i < |batch| ==> batch[i].id.name != name
  }

  ghost predicate QuietBatch(r: Roster, n: Node, k: Key, batch: seq<Sample>) {
    AllKnown(r, batch) && Silent(n.master, batch) && NoneBetter(k, n.id, batch)
  }

  lemma {:induction false} SilenceKeepsCount(n: Node, batch: seq<Sample>)
    requires Silent(n.master, batch)
    ensures var m := Received(n, batch);
            && m.id == n.id && m.accuracy == n.accuracy && m.master == n.master
            && m.counter == n.counter && m.lastcount == n.lastcount
    decreases |batch|
  {
    if batch != [] {
      var next := n.(cache := n.cache[batch[0].id := batch[0]]);
      SilenceKeepsCount(next, batch[1..]);
    }
  }

  /** A slave in the state it is in right after its master spoke: knowing nobody better. */
  ghost predicate Content(r: Roster, id: Id, n: Node, master: Id) {
    && NodeOk(r, id, n) && master in r && master.uuid == id.uuid && master.name != "" && master.name != id.name
    && n.master == master.name && IsLeast(RankOf(r, master), View(n))
  }

  /** For up to three heartbeats the silent master is kept. */
  lemma {:induction false} SilentMasterIsKept(r: Roster, id: Id, n: Node, master: Id, batches: seq<seq<Sample>>)
    requires Content(r, id, n, master) && n.lastcount == n.counter && |batches| <= MASTER_TIMEOUT
    requires forall i :: 0 <= i < |batches| ==> QuietBatch(r, n, RankOf(r, master), batches[i])
    ensures var m := AfterBeats(n, batches);
            Content(r, id, m, master) && m.lastcount == n.lastcount && m.counter == n.counter + |batches|
    decreases |batches|
  {
    hide Received, Beaten, View, IsLeast, CacheOk, FollowsCached, Known, Silent, NoneBetter, AllKnown;
    if batches != [] {
      var k := |batches| - 1;
      SilentMasterIsKept(r, id, n, master, batches[..k]);
      var m := AfterBeats(n, batches[..k]);
      assert QuietBatch(r, m, RankOf(r, master), batches[k]);
      QuietBeat(r, id, m, master, batches[k]);
    }
  }

  lemma QuietBeat(r: Roster, id: Id, n: Node, master: Id, batch: seq<Sample>)
    requires Content(r, id, n, master) && QuietBatch(r, n, RankOf(r, master), batch)
    requires n.counter + 1 - n.lastcount <= MASTER_TIMEOUT
    ensures var m := Beaten(Received(n, batch));
            Content(r, id, m, master) && m.lastcount == n.lastcount && m.counter == n.counter + 1
  {
    SilenceKeepsCount(n, batch);
    ReceivedKeepsLeast(r, n, batch, RankOf(r, master));
    ReceivedOk(r, id, n, batch);
    BeatKeepsMaster(r, id, Received(n, batch), master);
    BeatenOk(r, id, Received(n, batch));
  }

  /** At the fourth it is dropped, and with it everything in the cache. */
  lemma SilentMasterIsDropped(n: Node, batch: seq<Sample>)
    requires n.master != "" && n.master != n.id.name && Silent(n.master, batch)
    requires n.counter - n.lastcount == MASTER_TIMEOUT
    ensures Beaten(Received(n, batch)) ==
              n.(master := "", counter := n.counter + 1, lastcount := n.counter + 1, cache := map[])
  {
    SilenceKeepsCount(n, batch);
  }

  /** Without a master the node waits until three heartbeats have passed. */
  lemma MasterlessWaits(n: Node, batch: seq<Sample>)
    requires n.master == "" && Silent("", batch) && n.counter + 1 - n.lastcount < NEW_MASTER_WAIT
    ensures Beaten(Received(n, batch)) == Received(n, batch).(counter := n.counter + 1)
    ensures Beaten(Received(n, batch)).master == "" && Beaten(Received(n, batch)).lastcount == n.lastcount
  {
    SilenceKeepsCount(n, batch);
  }

  ghost predicate Never(name: string, n: Node) {
    forall i :: i in n.cache ==> n.cache[i].id == i && i.name != name
  }

  lemma {:induction false} SilenceKeepsOut(name: string, n: Node, batch: seq<Sample>)
    requires Never(name, n) && Silent(name, batch)
    ensures Never(name, Received(n, batch))
    decreases |batch|
  {
    if batch != [] {
      var s := batch[0];
      var heard := s.id.name == n.master && n.master != n.id.name;
      var next := n.(cache := n.cache[s.id := s], lastcount := if heard then n.counter else n.lastcount);
      SilenceKeepsOut(name, next, batch[1..]);
    }
  }

  /**
   The whole fail-over: a master that falls silent is kept for three heartbeats and dropped at the fourth;
   the node is masterless at the fifth and sixth, and at the seventh elects the least of itself and of
   those it heard from since, which is not the old master.
   */
  lemma SilentMasterIsReplaced(r: Roster, id: Id, n: Node, master: Id, batches: seq<seq<Sample>>)
    requires ValidRoster(r) && Content(r, id, n, master) && n.lastcount == n.counter && |batches| == 7
    requires forall i :: 0 <= i < 7 ==> AllKnown(r, batches[i]) && Silent(master.name, batches[i])
    requires forall i :: 0 <= i < 3 ==> NoneBetter(RankOf(r, master), id, batches[i])
    ensures forall k :: 0 <= k <= 3 ==> AfterBeats(n, batches[..k]).master == master.name
    ensures AfterBeats(n, batches[..4]).master == "" && AfterBeats(n, batches[..4]).cache == map[]
    ensures AfterBeats(n, batches[..5]).master == "" && AfterBeats(n, batches[..6]).master == ""
    ensures var m := AfterBeats(n, batches);
            m.master == Least(View(m)).name && m.master != "" && m.master != master.name
  {
    forall k | 0 <= k <= 3
      ensures Content(r, id, AfterBeats(n, batches[..k]), master)
      ensures AfterBeats(n, batches[..k]).counter - AfterBeats(n, batches[..k]).lastcount == k
    {
      SilentMasterIsKept(r, id, n, master, batches[..k]);
    }
    forall k | 0 <= k < 7
      ensures AfterBeats(n, batches[..k + 1]) == Beaten(Received(AfterBeats(n, batches[..k]), batches[k]))
    {
      assert batches[..k + 1][..k] == batches[..k];
    }
    assert batches[..7] == batches;
    SilentMasterIsDropped(AfterBeats(n, batches[..3]), batches[3]);
    forall k | 4 <= k < 7
      ensures Silent("", batches[k])
    {
    }
    MasterlessElects(r, id, AfterBeats(n, batches[..4]), master, batches[4], batches[5], batches[6]);
  }

  lemma MasterlessElects(r: Roster, id: Id, n: Node, gone: Id, b5: seq<Sample>, b6: seq<Sample>, b7: seq<Sample>)
    requires ValidRoster(r) && NodeOk(r, id, n) && n.master == "" && n.counter == n.lastcount && n.cache == map[]
    requires AllKnown(r, b5) && AllKnown(r, b6) && AllKnown(r, b7)
    requires Silent("", b5) && Silent("", b6) && Silent("", b7) && id.name != "" && gone.name != id.name
    requires Silent(gone.name, b5) && Silent(gone.name, b6) && Silent(gone.name, b7)
    ensures var n5 := Beaten(Received(n, b5));
            var n6 := Beaten(Received(n5, b6));
            var n7 := Beaten(Received(n6, b7));
            && n5.master == "" && n6.master == ""
            && n7.master == Least(View(n7)).name && n7.master != "" && n7.master != gone.name
  {
    MasterlessWaits(n, b5);
    ReceivedOk(r, id, n, b5);
    SilenceKeepsOut(gone.name, n, b5);
    var n5 := Beaten(Received(n, b5));
    MasterlessWaits(n5, b6);
    ReceivedOk(r, id, n5, b6);
    SilenceKeepsOut(gone.name, n5, b6);
    var n6 := Beaten(Received(n5, b6));
    SilenceKeepsCount(n6, b7);
    ReceivedOk(r, id, n6, b7);
    SilenceKeepsOut(gone.name, n6, b7);
    var m := Received(n6, b7);
    BeatenOk(r, id, m);
    assert View(Beaten(m)) == View(Ticked(m)) == View(m);
    if Least(View(m)) != m.Rank() {
      RivalInCache(r, m, Least(View(m)));
    }
  }

  // ----- a new master

  lemma {:induction false} WordIsNoted(n: Node, batch: seq<Sample>)
    requires !Silent(n.master, batch) && n.master != n.id.name
    ensures var m := Received(n, batch);
            m.id == n.id && m.master == n.master && m.counter == n.counter && m.lastcount == n.counter
    decreases |batch|
  {
    var s := batch[0];
    var heard := s.id.name == n.master && n.master != n.id.name;
    var next := n.(cache := n.cache[s.id := s], lastcount := if heard then n.counter else n.lastcount);
    if Silent(n.master, batch[1..]) {
      SilenceKeepsCount(next, batch[1..]);
      assert forall i :: 0 < i < |batch| ==> batch[i] == batch[1..][i - 1];
    } else {
      WordIsNoted(next, batch[1..]);
    }
  }

  /** A slave gives up its master exactly if nobody of that name, on whatever timeline, was heard for too long. */
  lemma DroppedExactly(n: Node, batch: seq<Sample>)
    requires n.master != "" && n.master != n.id.name
    ensures Ticked(Received(n, batch)).master == "" <==>
            Silent(n.master, batch) && n.counter - n.lastcount >= MASTER_TIMEOUT
  {
    if Silent(n.master, batch) {
      SilenceKeepsCount(n, batch);
    } else {
      WordIsNoted(n, batch);
    }
  }

  /** The master itself says nothing, but somebody of its name does on another timeline. */
  ghost predicate OnlyNamesakes(r: Roster, n: Node, master: Id, batch: seq<Sample>)
    requires master in r
  {
    && AllKnown(r, batch) && NoneBetter(RankOf(r, master), n.id, batch) && !Silent(master.name, batch)
    && forall i :: 0 <= i < |batch| ==> batch[i].id != master
  }

  /** So a master that is gone is kept for as long as a namesake is heard, however many heartbeats that is. */
  lemma {:induction false} NamesakeKeepsMaster(r: Roster, id: Id, n: Node, master: Id, batches: seq<seq<Sample>>)
    requires Content(r, id, n, master) && forall i :: 0 <= i < |batches| ==> OnlyNamesakes(r, n, master, batches[i])
    ensures Content(r, id, AfterBeats(n, batches), master)
    decreases |batches|
  {
    hide Received, Beaten, View, IsLeast, CacheOk, FollowsCached, Known, Silent, NoneBetter, AllKnown;
    if batches != [] {
      var k := |batches| - 1;
      NamesakeKeepsMaster(r, id, n, master, batches[..k]);
      var m := AfterBeats(n, batches[..k]);
      assert OnlyNamesakes(r, m, master, batches[k]);
      NamesakeBeat(r, id, m, master, batches[k]);
    }
  }

  lemma NamesakeBeat(r: Roster, id: Id, n: Node, master: Id, batch: seq<Sample>)
    requires Content(r, id, n, master) && OnlyNamesakes(r, n, master, batch)
    ensures Content(r, id, Beaten(Received(n, batch)), master)
  {
    WordIsNoted(n, batch);
    ReceivedKeepsLeast(r, n, batch, RankOf(r, master));
    ReceivedOk(r, id, n, batch);
    BeatKeepsMaster(r, id, Received(n, batch), master);
    BeatenOk(r, id, Received(n, batch));
  }

  /**
   Electing does not restart the count: the new master has what was left of the time of the old one.
   A node that had none elects only three heartbeats after the last word it noted, so that
   every master it elects is dropped again unless it is heard before the very next heartbeat.
   */
  lemma NewMasterMustSpeak(n: Node, batch: seq<Sample>)
    requires Elects(Ticked(n)) && Beaten(n).master != "" && Beaten(n).master != n.id.name
    ensures Ticked(Received(Beaten(n), batch)).master == "" <==>
            Silent(Beaten(n).master, batch) && Beaten(n).counter - Beaten(n).lastcount >= MASTER_TIMEOUT
    ensures n.master == "" ==> (Ticked(Received(Beaten(n), batch)).master == "" <==> Silent(Beaten(n).master, batch))
    ensures Ticked(n).master != "" && n.master != n.id.name ==>
              Beaten(n).counter - Beaten(n).lastcount <= MASTER_TIMEOUT
  {
    var m := Beaten(n);
    assert m.id == n.id;
    if Silent(m.master, batch) {
      SilenceKeepsCount(m, batch);
    } else {
      WordIsNoted(m, batch);
    }
  }
}
