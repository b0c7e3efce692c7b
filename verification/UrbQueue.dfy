/** The linked FIFO queue of server/urb_handler.c, for entries that carry any kind of request. */
module UrbQueue {
  import opened Bytes
  import opened Seqs

  class Entry<T> {
    var item: T
    const seqnum: uint32
    var next: Entry?<T>

    constructor (item: T, seqnum: uint32)
      ensures this.item == item && this.seqnum == seqnum && next == null
    {
      this.item, this.seqnum, next := item, seqnum, null;
    }
  }

  ghost predicate Distinct<T>(ns: seq<Entry<T>>) {
    ns == [] || (ns[|ns| - 1] !in ns[..|ns| - 1] && Distinct(ns[..|ns| - 1]))
  }

  lemma {:induction false} DistinctPair<T>(ns: seq<Entry<T>>, i: nat, j: nat)
    requires Distinct(ns) && i < j < |ns|
    ensures ns[i] != ns[j]
  {
    if j < |ns| - 1 {
      DistinctPair(ns[..|ns| - 1], i, j);
    } else {
      assert ns[i] in ns[..|ns| - 1];
    }
  }

  lemma DistinctFrom<T>(ns: seq<Entry<T>>, i: nat)
    requires Distinct(ns) && i < |ns|
    ensures forall k | 0 <= k < |ns| && k != i :: ns[k] != ns[i]
  {
    forall k: nat | k < |ns| && k != i ensures ns[k] != ns[i] {
      DistinctPair(ns, if k < i then k else i, if k < i then i else k);
    }
  }

  lemma DistinctMore<T>(ns: seq<Entry<T>>, e: Entry<T>)
    requires Distinct(ns) && e !in ns
    ensures Distinct(ns + [e])
  {
    assert (ns + [e])[..|ns|] == ns;
  }

  lemma {:induction false} DistinctWithout<T>(ns: seq<Entry<T>>, i: nat)
    requires Distinct(ns) && i < |ns|
    ensures Distinct(Without(ns, i))
  {
    var front, last := ns[..|ns| - 1], ns[|ns| - 1];
    if i == |ns| - 1 {
      assert Without(ns, i) == front;
    } else {
      DistinctWithout(front, i);
      assert Without(ns, i) == Without(front, i) + [last];
      assert Without(ns, i)[..|ns| - 2] == Without(front, i);
    }
  }

  /** The node at a position, null at and past the end. */
  ghost function NodeAt<T>(ns: seq<Entry<T>>, i: nat): Entry?<T> {
    if i < |ns| then ns[i] else null
  }

  /** The nodes are among the owned ones, chained in order, and the last one ends the chain. */
  ghost predicate Linked<T>(ns: seq<Entry<T>>, own: set<Entry<T>>)
    reads own`next
  {
    && (forall k: nat | k < |ns| :: ns[k] in own)
    && (forall k: nat {:trigger ns[k].next} | k < |ns| :: ns[k].next == NodeAt(ns, k + 1))
  }

  lemma LinkedMore<T>(ns: seq<Entry<T>>, own: set<Entry<T>>, e: Entry<T>)
    requires e.next == null
    requires forall k: nat | k < |ns| :: ns[k] in own
    requires forall k: nat {:trigger ns[k].next} | k < |ns| - 1 :: ns[k].next == NodeAt(ns, k + 1)
    requires ns != [] ==> ns[|ns| - 1].next == e
    ensures Linked(ns + [e], own + {e})
  {
    var more := ns + [e];
    forall k: nat | k < |more| ensures more[k] in own + {e} && more[k].next == NodeAt(more, k + 1) {
      if k < |ns| - 1 {
        assert more[k] == ns[k] && ns[k].next == NodeAt(ns, k + 1);
      } else if k < |ns| {
        assert more[k] == ns[k];
      }
    }
  }

  lemma LinkWithout<T>(ns: seq<Entry<T>>, i: nat, k: nat)
    requires i < |ns| && k < |ns| - 1
    requires k >= i ==> ns[k + 1].next == NodeAt(ns, k + 2)
    requires k + 1 == i ==> ns[k].next == NodeAt(ns, k + 2)
    requires k + 1 < i ==> ns[k].next == NodeAt(ns, k + 1)
    ensures Without(ns, i)[k].next == NodeAt(Without(ns, i), k + 1)
  {
  }

  lemma LinksWithout<T>(ns: seq<Entry<T>>, i: nat)
    requires i < |ns|
    requires forall k: nat {:trigger ns[k].next} | k < |ns| && k != i && k + 1 != i :: ns[k].next == NodeAt(ns, k + 1)
    requires i > 0 ==> ns[i - 1].next == NodeAt(ns, i + 1)
    ensures forall k: nat {:trigger Without(ns, i)[k].next} | k < |ns| - 1 ::
      Without(ns, i)[k].next == NodeAt(Without(ns, i), k + 1)
  {
    forall k: nat | k < |ns| - 1 ensures Without(ns, i)[k].next == NodeAt(Without(ns, i), k + 1) {
      if k >= i {
        assert ns[k + 1].next == NodeAt(ns, k + 2);
      } else if k + 1 < i {
        assert ns[k].next == NodeAt(ns, k + 1);
      }
      LinkWithout(ns, i, k);
    }
  }

  lemma OwnedWithout<T>(ns: seq<Entry<T>>, own: set<Entry<T>>, i: nat)
    requires Distinct(ns) && i < |ns| && forall k: nat | k < |ns| :: ns[k] in own
    ensures forall k: nat | k < |ns| - 1 :: Without(ns, i)[k] in own - {ns[i]}
  {
    DistinctFrom(ns, i);
    forall k: nat | k < |ns| - 1 ensures Without(ns, i)[k] in own - {ns[i]} {
      if k < i {
        assert Without(ns, i)[k] == ns[k];
      } else {
        assert Without(ns, i)[k] == ns[k + 1];
      }
    }
  }

  lemma LinkedWithout<T>(ns: seq<Entry<T>>, own: set<Entry<T>>, i: nat)
    requires Distinct(ns) && i < |ns|
    requires forall k: nat | k < |ns| :: ns[k] in own
    requires forall k: nat {:trigger ns[k].next} | k < |ns| && k != i && k + 1 != i :: ns[k].next == NodeAt(ns, k + 1)
    requires i > 0 ==> ns[i - 1].next == NodeAt(ns, i + 1)
    ensures Linked(Without(ns, i), own - {ns[i]})
  {
    OwnedWithout(ns, own, i);
    LinksWithout(ns, i);
  }

  class Queue<T> {
    var head: Entry?<T>
    var tail: Entry?<T>
    var count: int
    /** The auto-reset event: stays set until a wait consumes it. */
    var notify: bool

    /** The entries, oldest first, and the memory that only this queue may touch. */
    ghost var nodes: seq<Entry<T>>
    ghost var own: set<Entry<T>>

    /** The links, the two ends and the counter represent the sequence of nodes. */
    ghost predicate Valid()
      reads this, own
    {
      && count == |nodes|
      && Distinct(nodes)
      && head == NodeAt(nodes, 0)
      && tail == (if nodes == [] then null else nodes[|nodes| - 1])
      && Linked(nodes, own)
    }

    constructor ()
      ensures Valid() && nodes == [] && own == {} && !notify
    {
      head, tail, count, notify := null, null, 0, false;
      nodes, own := [], {};
    }

    /** The locked region of `queue_push`. */
    method PushLocked(entry: Entry<T>)
      requires Valid() && entry !in own
      modifies `head, `tail, `count, `nodes, `own, entry`next, own`next
      ensures Valid() && nodes == old(nodes) + [entry] && own == old(own) + {entry}
    {
      ghost var before, owned := nodes, own;
      if nodes != [] {
        DistinctFrom(nodes, |nodes| - 1);
      }
      entry.next := null;
      if tail != null {
        tail.next := entry;
      } else {
        head := entry;
      }
      tail := entry;
      count := count + 1;
      assert entry !in before;
      DistinctMore(before, entry);
      LinkedMore(before, owned, entry);
      nodes, own := before + [entry], owned + {entry};
    }

    method Signal()
      modifies `notify
      ensures notify
    {
      notify := true;
    }

    /** A wait on the event that returns: the auto-reset event is cleared. */
    method Consume()
      modifies `notify
      ensures !notify
    {
      notify := false;
    }

    /** `queue_push`. */
    method Push(entry: Entry<T>)
      requires Valid() && entry !in own
      modifies `head, `tail, `count, `nodes, `own, `notify, entry`next, own`next
      ensures Valid() && nodes == old(nodes) + [entry] && own == old(own) + {entry} && notify
    {
      PushLocked(entry);
      Signal();
    }

    /** `queue_pop`: the oldest entry, unlinked. */
    method Pop() returns (entry: Entry?<T>)
      requires Valid()
      modifies `head, `tail, `count, `nodes, `own, own`next
      ensures Valid()
      ensures entry == null <==> old(nodes) == []
      ensures entry == null ==> nodes == [] && own == old(own)
      ensures entry != null ==> entry == old(nodes)[0] && nodes == Without(old(nodes), 0) && own == old(own) - {entry}
      ensures entry != null ==> entry in old(own) && entry.next == null
    {
      entry := head;
      if entry != null {
        assert entry == nodes[0] && entry.next == NodeAt(nodes, 1);
        DistinctFrom(nodes, 0);
        head := entry.next;
        if head == null {
          tail := null;
        }
        count := count - 1;
        entry.next := null;
        DistinctWithout(nodes, 0);
        LinkedWithout(nodes, own, 0);
        nodes, own := Without(nodes, 0), own - {entry};
      }
    }

    /**
     * `queue_find_remove`: unlinks the first entry with the sequence number, wherever it stands; `i` is its
     * position, the length of the queue if there is none.
     */
    method FindRemove(seqnum: uint32) returns (entry: Entry?<T>, ghost i: nat)
      requires Valid()
      modifies `head, `tail, `count, `nodes, `own, own`next
      ensures Valid()
      ensures i <= |old(nodes)| && forall k | 0 <= k < i :: old(nodes)[k].seqnum != seqnum
      ensures entry == null <==> i == |old(nodes)|
      ensures entry == null ==> nodes == old(nodes) && own == old(own)
      ensures entry != null ==> entry == old(nodes)[i] && entry.seqnum == seqnum
      ensures entry != null ==> nodes == Without(old(nodes), i) && own == old(own) - {entry}
      ensures entry != null ==> entry in old(own) && entry.next == null
    {
      var prev: Entry?<T> := null;
      entry := head;
      i := 0;
      while entry != null
        invariant i <= |nodes| && entry == NodeAt(nodes, i)
        invariant prev == if i == 0 then null else nodes[i - 1]
        invariant forall k | 0 <= k < i :: nodes[k].seqnum != seqnum
        decreases |nodes| - i
      {
        if entry.seqnum == seqnum {
          Unlink(prev, entry, i);
          return;
        }
        prev, entry := entry, entry.next;
        i := i + 1;
      }
    }

    /** The pointer updates that take the node at position i out of the chain; `prev` is its predecessor. */
    method Relink(prev: Entry?<T>, entry: Entry<T>, ghost i: nat)
      requires Valid() && i < |nodes| && entry == nodes[i]
      requires prev == if i == 0 then null else nodes[i - 1]
      modifies `head, `tail, own`next
      ensures entry.next == null && Linked(Without(nodes, i), own - {entry})
      ensures head == NodeAt(Without(nodes, i), 0)
      ensures tail == (if |nodes| == 1 then null else Without(nodes, i)[|nodes| - 2])
    {
      DistinctFrom(nodes, i);
      if prev == null {
        head := entry.next;
      } else {
        DistinctFrom(nodes, i - 1);
        prev.next := entry.next;
      }
      if entry == tail {
        tail := prev;
      }
      entry.next := null;
      LinkedWithout(nodes, own, i);
    }

    method Unlink(prev: Entry?<T>, entry: Entry<T>, ghost i: nat)
      requires Valid() && i < |nodes| && entry == nodes[i]
      requires prev == if i == 0 then null else nodes[i - 1]
      modifies `head, `tail, `count, `nodes, `own, own`next
      ensures Valid() && nodes == Without(old(nodes), i) && own == old(own) - {entry}
      ensures entry in old(own) && entry.next == null
    {
      DistinctWithout(nodes, i);
      Relink(prev, entry, i);
      count := count - 1;
      nodes, own := Without(nodes, i), own - {entry};
    }

    /** `queue_cleanup`: walks the chain, freeing each entry once, in order. */
    method Cleanup() returns (freed: seq<Entry<T>>)
      requires Valid()
      modifies `head, `tail, `count, `nodes, `own
      ensures Valid() && nodes == [] && own == {} && freed == old(nodes)
    {
      freed := [];
      var entry := head;
      while entry != null
        invariant |freed| <= |nodes| && entry == NodeAt(nodes, |freed|)
        invariant freed == nodes[..|freed|]
        decreases |nodes| - |freed|
      {
        var next := entry.next;
        assert nodes[..|freed| + 1] == nodes[..|freed|] + [entry];
        freed := freed + [entry];
        entry := next;
      }
      head, tail, count := null, null, 0;
      nodes, own := [], {};
    }
  }
}
