/**
 The election of a timeline's master (src/service/Coordinator.cpp): each node sends a heartbeat
 a second, keeps the newest sample of every peer, and follows the peer that asks for
 the best accuracy, the smaller name breaking ties.
 */
module Coordinator {
  import opened Time

  /** Heartbeats without a word from the master before it is given up. */
  const MASTER_TIMEOUT := 3

  /** Heartbeats to wait before electing. */
  const NEW_MASTER_WAIT := 3

  // ----- the order of candidates

  /** The order of `std::string`. */
  predicate StrLess(a: string, b: string) {
    b != [] && (a == [] || a[0] < b[0] || (a[0] == b[0] && StrLess(a[1..], b[1..])))
  }

  lemma {:induction false} StrTotal(a: string, b: string)
    ensures !(StrLess(a, b) && StrLess(b, a)) && !StrLess(a, a)
    ensures StrLess(a, b) || a == b || StrLess(b, a)
  {
    if a != [] {
      StrTotal(a[1..], if b == [] then [] else b[1..]);
      if b != [] && a[0] == b[0] && a[1..] == b[1..] {
        assert a == [a[0]] + a[1..] == b;
      }
    }
  }

  lemma {:induction false} StrTransitive(a: string, b: string, c: string)
    requires StrLess(a, b) && StrLess(b, c)
    ensures StrLess(a, c)
  {
    if a != [] && a[0] == b[0] == c[0] {
      StrTransitive(a[1..], b[1..], c[1..]);
    }
  }

  /** What ranks a candidate. */
  datatype Key = Key(accuracy: real, name: string)

  predicate Less(k: Key, l: Key) {
    k.accuracy < l.accuracy || (k.accuracy == l.accuracy && StrLess(k.name, l.name))
  }

  lemma LessTotal(k: Key, l: Key)
    ensures !(Less(k, l) && Less(l, k)) && !Less(k, k)
    ensures Less(k, l) || k == l || Less(l, k)
  {
    StrTotal(k.name, l.name);
  }

  lemma LessTransitive(k: Key, l: Key, m: Key)
    requires Less(k, l) && Less(l, m)
    ensures Less(k, m)
  {
    if k.accuracy == m.accuracy {
      StrTransitive(k.name, l.name, m.name);
    }
  }

  ghost predicate IsLeast(k: Key, ks: set<Key>) {
    k in ks && forall l :: l in ks ==> l == k || Less(k, l)
  }

  lemma LeastIsUnique(k: Key, l: Key, ks: set<Key>)
    requires IsLeast(k, ks) && IsLeast(l, ks)
    ensures k == l
  {
    LessTotal(k, l);
  }

  /** One more candidate: the least is it, or stays. */
  lemma LeastWith(k: Key, ks: set<Key>, l: Key)
    requires IsLeast(k, ks)
    ensures IsLeast(if Less(l, k) then l else k, ks + {l})
  {
    LessTotal(k, l);
    if Less(l, k) {
      forall m | m in ks && m != k
        ensures Less(l, m)
      {
        LessTransitive(l, k, m);
      }
    }
  }

  lemma {:induction false} LeastExists(ks: set<Key>) returns (k: Key)
    requires ks != {}
    ensures IsLeast(k, ks)
  {
    var l :| l in ks;
    if ks == {l} {
      k := l;
    } else {
      var m := LeastExists(ks - {l});
      LeastWith(m, ks - {l}, l);
      assert ks - {l} + {l} == ks;
      k := if Less(l, m) then l else m;
    }
  }

  ghost function Least(ks: set<Key>): (k: Key)
    requires ks != {}
    ensures IsLeast(k, ks)
  {
    assert exists k :: IsLeast(k, ks) by {
      var k := LeastExists(ks);
    }
    var k :| IsLeast(k, ks);
    k
  }

  // ----- one node

  datatype Id = Id(name: string, uuid: string)

  /** What a node publishes about itself. */
  datatype Sample = Sample(id: Id, accuracy: real)
  {
    function Rank(): Key {
      Key(accuracy, id.name)
    }
  }

  /** A coordinator: its configuration, its master ("" if unknown), the heartbeat counters and the reader's cache. */
  datatype Node = Node(
    id: Id, accuracy: real, master: string, counter: int, lastcount: int, cache: map<Id, Sample>)
  {
    function Rank(): Key {
      Key(accuracy, id.name)
    }
  }

  /** The candidates among samples: those of the node's timeline, other than its own. */
  ghost function Candidates(id: Id, samples: set<Sample>): set<Key> {
    set s | s in samples && s.id.uuid == id.uuid && s.id.name != id.name :: s.Rank()
  }

  lemma NoCandidates(id: Id, first: Key)
    ensures IsLeast(first, {first} + Candidates(id, {}))
  {
  }

  lemma CandidatesWith(id: Id, samples: set<Sample>, s: Sample)
    ensures var others := Candidates(id, samples);
            Candidates(id, samples + {s}) ==
            if s.id.uuid == id.uuid && s.id.name != id.name then others + {s.Rank()} else others
  {
  }

  ghost function Rivals(n: Node): set<Key> {
    Candidates(n.id, n.cache.Values)
  }

  /** The node itself and everyone it heard of. */
  ghost function View(n: Node): set<Key> {
    {n.Rank()} + Rivals(n)
  }

  /** The accuracy of a node, in attoseconds: the smaller of its two bounds. */
  function Accuracy(above: int, below: int): real {
    if above <= below then above as real else below as real
  }

  /** The comment in `Start` asks for the larger bound; that is what it takes if and only if they are equal. */
  lemma AccuracyIsTheLarger(above: int, below: int)
    ensures Accuracy(above, below) == (if above >= below then above else below) as real <==> above == below
  {
  }

  /** The constructor and `Start`. */
  function Started(id: Id, accuracy: real): Node {
    Node(id, accuracy, "", 0, 0, map[])
  }

  /** The first half of a heartbeat: count, and give up a master that was silent for too long. */
  function Ticked(n: Node): Node {
    var c := n.counter + 1;
    if n.id.name != n.master && n.master != "" && c - n.lastcount > MASTER_TIMEOUT then
      n.(counter := c, cache := map[], master := "", lastcount := c)
    else
      n.(counter := c)
  }

  /** Whether the second half elects, or waits because a master was lost recently. */
  predicate Elects(n: Node) {
    !(n.master == "" && n.counter - n.lastcount < NEW_MASTER_WAIT)
  }

  /** Where the search starts: with the present master if there is one, at the node's own accuracy. */
  function Favourite(n: Node): Key {
    Key(n.accuracy, if n.master == "" then n.id.name else n.master)
  }

  ghost function Beaten(n: Node): Node {
    var t := Ticked(n);
    if Elects(t) then t.(master := Least({Favourite(t)} + Rivals(t)).name) else t
  }

  /** Samples arrive: each replaces its predecessor, and a word from the master is noted. */
  function Received(n: Node, batch: seq<Sample>): Node
    decreases |batch|
  {
    if batch == [] then n
    else
      var s := batch[0];
      var heard := s.id.name == n.master && n.master != n.id.name;
      Received(n.(cache := n.cache[s.id := s], lastcount := if heard then n.counter else n.lastcount), batch[1..])
  }

  class Coordinator {
    const id: Id
    const accuracy: real
    var master: string
    var counter: int
    var lastcount: int
    var cache: map<Id, Sample>

    ghost function State(): Node
      reads this
    {
      Node(id, accuracy, master, counter, lastcount, cache)
    }

    /** The accuracy is given by its upper and its lower bound. */
    constructor Start(id: Id, above: TimeLength, below: TimeLength)
      requires above.Valid() && below.Valid()
      ensures State() == Started(id, Accuracy(above.Atto(), below.Atto()))
    {
      var bound := new TimeLength();
      bound.SetToMin(above, below);
      this.id, this.accuracy := id, (bound.sec * ASEC_PER_SEC + bound.asec) as real;
      master, counter, lastcount, cache := "", 0, 0, map[];
    }

    /** The reader stores a batch of new samples and then calls the listener on them. */
    method OnDataAvailable(batch: seq<Sample>)
      modifies this
      ensures State() == Received(old(State()), batch)
    {
      for k := 0 to |batch|
        invariant Received(State(), batch[k..]) == Received(old(State()), batch)
      {
        var s := batch[k];
        assert batch[k..][0] == s && batch[k..][1..] == batch[k + 1..];
        cache := cache[s.id := s];
        if s.id.name == master && master != id.name {
          lastcount := counter;
        }
      }
    }

    /** A heartbeat.  The samples are looked at in whatever order the reader returns them. */
    method Heartbeat() returns (published: Sample)
      modifies this
      ensures State() == Beaten(old(State()))
      ensures published == Sample(id, accuracy)
    {
      counter := counter + 1;
      if id.name != master && master != "" && counter - lastcount > MASTER_TIMEOUT {
        cache := map[];
        master := "";
        lastcount := counter;
      }
      published := Sample(id, accuracy);
      if master == "" && counter - lastcount < NEW_MASTER_WAIT {
        return;
      }
      master := Elect();
    }

    method Elect() returns (newmaster: string)
      ensures newmaster == Least({Favourite(State())} + Rivals(State())).name
    {
      var minacc := accuracy;
      newmaster := if master == "" then id.name else master;
      hide Candidates, IsLeast;
      ghost var first := Key(minacc, newmaster);
      var todo, all := cache.Values, cache.Values;
      ghost var done: set<Sample> := {};
      NoCandidates(id, first);
      while todo != {}
        invariant todo + done == all && todo !! done
        invariant IsLeast(Key(minacc, newmaster), {first} + Candidates(id, done))
        decreases |todo|
      {
        var s :| s in todo;
        todo := todo - {s};
        ghost var k, ks := Key(minacc, newmaster), {first} + Candidates(id, done);
        CandidatesWith(id, done, s);
        done := done + {s};
        if s.id.uuid == id.uuid && s.id.name != id.name {
          LeastWith(k, ks, s.Rank());
          assert {first} + Candidates(id, done) == ks + {s.Rank()};
          if s.accuracy < minacc {
            minacc := s.accuracy;
            newmaster := s.id.name;
          } else if s.accuracy == minacc && StrLess(s.id.name, newmaster) {
            newmaster := s.id.name;
          }
        }
      }
      LeastIsUnique(Key(minacc, newmaster), Least({first} + Candidates(id, done)), {first} + Candidates(id, done));
    }
  }
}
