/**
  The queue of immediate events (`libcperciva/events/events_immediate.c`): 32 lists, one per priority, and
  a hint below which they are empty, against the queued events in the order of their arrival.
 */
module EventsImmediate {
  import opened Bytes

  /** A queued event; `id` tells the list nodes apart. */
  datatype Node = Node(id: nat, rec: nat, prio: nat)

  ghost predicate NoRepeats(queue: seq<Node>) {
    forall i, j :: 0 <= i < j < |queue| ==> queue[i] != queue[j]
  }

  /** The events of one priority. */
  function Level(queue: seq<Node>, prio: nat): (r: seq<Node>) {
    if queue == [] then [] else
      Level(queue[..|queue| - 1], prio) + if queue[|queue| - 1].prio == prio then [queue[|queue| - 1]] else []
  }

  function Without(queue: seq<Node>, q: Node): (r: seq<Node>) {
    if queue == [] then [] else
      Without(queue[..|queue| - 1], q) + if queue[|queue| - 1] != q then [queue[|queue| - 1]] else []
  }

  /** The event at `k` goes before every other: none has a smaller priority value, and none with the same came first. */
  ghost predicate GoesFirst(queue: seq<Node>, k: nat) {
    && k < |queue|
    && (forall j :: 0 <= j < |queue| ==> queue[j].prio >= queue[k].prio)
    && (forall j :: 0 <= j < k ==> queue[j].prio > queue[k].prio)
  }

  lemma {:induction false} LevelSnoc(queue: seq<Node>, q: Node, prio: nat)
    ensures Level(queue + [q], prio) == Level(queue, prio) + if q.prio == prio then [q] else []
  {
    assert (queue + [q])[..|queue|] == queue;
  }

  /** The lists of all levels, for the 32 priorities. */
  ghost predicate AreLevels(heads: seq<seq<Node>>, queue: seq<Node>) {
    |heads| == 32 && forall p :: 0 <= p < 32 ==> heads[p] == Level(queue, p)
  }

  lemma LevelsSnoc(heads: seq<seq<Node>>, queue: seq<Node>, q: Node)
    requires AreLevels(heads, queue) && q.prio < 32
    ensures AreLevels(heads[q.prio := heads[q.prio] + [q]], queue + [q])
  {
    forall p | 0 <= p < 32
      ensures Level(queue + [q], p) == heads[q.prio := heads[q.prio] + [q]][p]
    {
      LevelSnoc(queue, q, p);
    }
  }

  lemma {:induction false} LevelMembers(queue: seq<Node>, prio: nat)
    ensures forall x :: x in Level(queue, prio) <==> x in queue && x.prio == prio
  {
    if queue != [] {
      var front := queue[..|queue| - 1];
      LevelMembers(front, prio);
      assert queue == front + [queue[|queue| - 1]];
    }
  }

  lemma {:induction false} WithoutAbsent(queue: seq<Node>, q: Node)
    requires q !in queue
    ensures Without(queue, q) == queue
  {
    if queue != [] {
      assert queue == queue[..|queue| - 1] + [queue[|queue| - 1]];
      WithoutAbsent(queue[..|queue| - 1], q);
    }
  }

  lemma {:induction false} WithoutSnoc(queue: seq<Node>, x: Node, q: Node)
    ensures Without(queue + [x], q) == Without(queue, q) + if x != q then [x] else []
  {
    assert (queue + [x])[..|queue|] == queue;
  }

  lemma {:induction false} WithoutMembers(queue: seq<Node>, q: Node)
    ensures forall x :: x in Without(queue, q) <==> x in queue && x != q
  {
    if queue != [] {
      var front := queue[..|queue| - 1];
      WithoutMembers(front, q);
      assert queue == front + [queue[|queue| - 1]];
    }
  }

  /** Removing an event from the whole queue removes it from its level and from no other. */
  lemma {:induction false} LevelWithout(queue: seq<Node>, q: Node, prio: nat)
    ensures Level(Without(queue, q), prio) == Without(Level(queue, prio), q)
  {
    if queue != [] {
      var front, x := queue[..|queue| - 1], queue[|queue| - 1];
      LevelWithout(front, q, prio);
      if x == q {
        assert Without(queue, q) == Without(front, q);
      } else {
        LevelSnoc(Without(front, q), x, prio);
      }
      if x.prio == prio {
        WithoutSnoc(Level(front, prio), x, q);
      } else {
        assert Level(queue, prio) == Level(front, prio);
      }
    }
  }

  lemma LevelsWithout(heads: seq<seq<Node>>, queue: seq<Node>, q: Node)
    requires AreLevels(heads, queue) && q.prio < 32
    ensures AreLevels(heads[q.prio := Without(heads[q.prio], q)], Without(queue, q))
  {
    forall p | 0 <= p < 32
      ensures Level(Without(queue, q), p) == heads[q.prio := Without(heads[q.prio], q)][p]
    {
      LevelWithout(queue, q, p);
      LevelMembers(queue, p);
      if p != q.prio {
        WithoutAbsent(heads[p], q);
      }
    }
  }

  lemma {:induction false} WithoutDistinct(queue: seq<Node>, q: Node)
    requires NoRepeats(queue)
    ensures NoRepeats(Without(queue, q))
  {
    if queue != [] {
      var front := queue[..|queue| - 1];
      WithoutDistinct(front, q);
      WithoutMembers(front, q);
      assert queue[|queue| - 1] !in Without(front, q);
    }
  }

  /** The first event of a level is the first of its priority in the queue. */
  lemma {:induction false} LevelFirst(queue: seq<Node>, prio: nat) returns (k: nat)
    requires Level(queue, prio) != []
    ensures k < |queue| && queue[k] == Level(queue, prio)[0] && queue[k].prio == prio
    ensures forall j :: 0 <= j < k ==> queue[j].prio != prio
  {
    var front := queue[..|queue| - 1];
    if Level(front, prio) != [] {
      k := LevelFirst(front, prio);
    } else {
      k := |queue| - 1;
      LevelMembers(front, prio);
      assert forall j :: 0 <= j < k ==> front[j] in front;
    }
  }

  lemma AllLevelsEmpty(queue: seq<Node>)
    requires (forall q :: q in queue ==> q.prio < 32) && forall p :: 0 <= p < 32 ==> Level(queue, p) == []
    ensures queue == []
  {
    if queue != [] {
      LevelMembers(queue, queue[0].prio);
      assert false;
    }
  }

  class Immediate {
    var heads: seq<seq<Node>>
    var minq: nat
    /** What is queued, in order of arrival. */
    ghost var queue: seq<Node>

    ghost predicate Valid()
      reads this
    {
      && AreLevels(heads, queue) && minq <= 32 && NoRepeats(queue)
      && (forall q :: q in queue ==> q.prio < 32)
      && (forall p :: 0 <= p < minq ==> heads[p] == [])
    }

    constructor ()
      ensures Valid() && queue == []
    {
      heads, minq, queue := seq(32, _ => []), 32, [];
    }

    /** `events_immediate_register`; `ok` says whether the allocations succeed. */
    method Register(id: nat, rec: nat, prio: nat, ok: bool) returns (r: Option<Node>)
      requires Valid() && prio < 32 && Node(id, rec, prio) !in queue
      modifies this
      ensures Valid()
      ensures r == if ok then Some(Node(id, rec, prio)) else None
      ensures queue == old(queue) + if ok then [Node(id, rec, prio)] else []
    {
      if !ok {
        return None;
      }
      var q := Node(id, rec, prio);
      LevelsSnoc(heads, queue, q);
      heads := heads[prio := heads[prio] + [q]];
      queue := queue + [q];
      if prio < minq {
        minq := prio;
      }
      return Some(q);
    }

    /** Remove a node from its list. */
    method Remove(q: Node)
      requires Valid() && q in queue
      modifies this`heads, this`queue
      ensures Valid() && queue == Without(old(queue), q)
    {
      LevelsWithout(heads, queue, q);
      WithoutMembers(queue, q);
      WithoutDistinct(queue, q);
      LevelMembers(queue, q.prio);
      heads := heads[q.prio := Without(heads[q.prio], q)];
      queue := Without(queue, q);
    }

    /** `events_immediate_cancel` */
    method Cancel(q: Node)
      requires Valid() && q in queue
      modifies this
      ensures Valid() && queue == Without(old(queue), q)
    {
      Remove(q);
    }

    /** `events_immediate_get`: the event that goes first, unless there is none. */
    method Get() returns (r: Option<Node>)
      requires Valid()
      modifies this
      ensures Valid()
      ensures r.None? <==> old(queue) == []
      ensures r.None? ==> queue == []
      ensures r.Some? ==> queue == Without(old(queue), r.value)
      ensures r.Some? ==> exists k :: 0 <= k < |old(queue)| && old(queue)[k] == r.value && GoesFirst(old(queue), k)
    {
      while minq < 32 && heads[minq] == []
        invariant Valid() && queue == old(queue) && heads == old(heads)
        decreases 32 - minq
      {
        minq := minq + 1;
      }
      forall p | 0 <= p < 32
        ensures forall x :: x in heads[p] <==> x in queue && x.prio == p
      {
        LevelMembers(queue, p);
      }
      if minq == 32 {
        AllLevelsEmpty(queue);
        return None;
      }
      var q := heads[minq][0];
      ghost var k := LevelFirst(queue, minq);
      assert forall j :: 0 <= j < |queue| ==> queue[j] in queue;
      assert forall j :: 0 <= j < |queue| ==> queue[j] in heads[queue[j].prio];
      assert GoesFirst(queue, k);
      assert q in heads[minq];
      Remove(q);
      return Some(q);
    }
  }
}
