/** The two linked queues of a handler together with the entry that each of its threads may hold. */
module UrbStore {
  import opened Bytes
  import opened Seqs
  import opened UrbQueue

  /** The nodes carry these items, each under its own key. */
  ghost predicate Carry<T>(ns: seq<Entry<T>>, items: seq<T>, key: T -> uint32)
    reads ns`item
  {
    |ns| == |items| && forall k: nat | k < |ns| :: ns[k].item == items[k] && ns[k].seqnum == key(items[k])
  }

  lemma CarryMore<T>(ns: seq<Entry<T>>, items: seq<T>, key: T -> uint32, e: Entry<T>)
    requires Carry(ns, items, key) && e.seqnum == key(e.item)
    ensures Carry(ns + [e], items + [e.item], key)
  {
    var more := ns + [e];
    forall k: nat | k < |more| ensures more[k].item == (items + [e.item])[k] && more[k].seqnum == key(more[k].item) {
      assert k < |ns| ==> more[k] == ns[k];
    }
  }

  lemma CarryWithout<T>(ns: seq<Entry<T>>, items: seq<T>, key: T -> uint32, i: nat)
    requires Carry(ns, items, key) && i < |ns|
    ensures Carry(Without(ns, i), Without(items, i), key)
  {
    var rest, left := Without(ns, i), Without(items, i);
    forall k: nat | k < |rest| ensures rest[k].item == left[k] && rest[k].seqnum == key(left[k]) {
      assert if k < i then rest[k] == ns[k] && left[k] == items[k]
             else rest[k] == ns[k + 1] && left[k] == items[k + 1];
    }
  }

  class Store<T(!new)> {
    const pending: Queue<T>
    const completed: Queue<T>
    /** The local `entry` of the worker and of the session thread. */
    var workerEntry: Entry?<T>
    var sessionEntry: Entry?<T>

    ghost const key: T -> uint32
    /** What the queues hold, oldest first, and what the threads hold. */
    ghost var p: seq<T>
    ghost var c: seq<T>
    ghost var atWorker: Option<T>
    ghost var atSession: Option<T>

    /** The two queues and the two threads own different entries. */
    ghost predicate Apart()
      reads this, pending, completed
    {
      && pending != completed && pending.own !! completed.own
      && workerEntry !in pending.own && workerEntry !in completed.own
      && sessionEntry !in pending.own && sessionEntry !in completed.own
      && (workerEntry != null ==> workerEntry != sessionEntry)
    }

    ghost predicate Holds(entry: Entry?<T>, held: Option<T>)
      reads entry
    {
      if entry == null then held == None else held == Some(entry.item) && entry.seqnum == key(entry.item)
    }

    /** The queues, their nodes, and the entries held by the threads. */
    ghost function Repr(): set<object>
      reads this, pending, completed
    {
      {this, pending, completed} + pending.own + completed.own
      + (if workerEntry == null then {} else {workerEntry})
      + (if sessionEntry == null then {} else {sessionEntry})
    }

    ghost predicate Valid()
      reads this, pending, completed, pending.own, completed.own, workerEntry, sessionEntry
    {
      && Apart() && pending.Valid() && completed.Valid()
      && Carry(pending.nodes, p, key) && Carry(completed.nodes, c, key)
      && Holds(workerEntry, atWorker) && Holds(sessionEntry, atSession)
    }

    constructor (ghost key: T -> uint32)
      ensures Valid() && p == [] && c == [] && atWorker == None && atSession == None && this.key == key
      ensures fresh(Repr()) && !pending.notify
    {
      pending := new Queue();
      completed := new Queue();
      this.key := key;
      workerEntry, sessionEntry := null, null;
      p, c, atWorker, atSession := [], [], None, None;
    }

    /** An entry that has left its queue and is held by no thread yet. */
    ghost predicate Loose(entry: Entry<T>, item: T)
      reads this, pending, completed, entry
    {
      && entry !in pending.own && entry !in completed.own && entry != workerEntry && entry != sessionEntry
      && entry.item == item && entry.seqnum == key(item)
    }

    /** The locked region of `queue_push` on the pending queue. */
    method AddEntry(entry: Entry<T>)
      requires Valid() && Loose(entry, entry.item)
      modifies pending`head, pending`tail, pending`count, pending`nodes, pending`own, pending.own`next, entry`next, `p
      ensures Valid() && pending.own == old(pending.own) + {entry} && p == old(p) + [entry.item]
      ensures c == old(c) && atWorker == old(atWorker) && atSession == old(atSession)
      ensures pending.notify == old(pending.notify)
    {
      CarryMore(pending.nodes, p, key, entry);
      pending.PushLocked(entry);
      p := p + [entry.item];
    }

    /** A new entry at the end of the pending queue. */
    method Add(item: T, seqnum: uint32)
      requires Valid() && seqnum == key(item)
      modifies pending`head, pending`tail, pending`count, pending`nodes, pending`own, pending.own`next, `p
      ensures Valid() && fresh(Repr() - old(Repr())) && p == old(p) + [item]
      ensures c == old(c) && atWorker == old(atWorker) && atSession == old(atSession)
      ensures pending.notify == old(pending.notify)
    {
      var entry := new Entry(item, seqnum);
      AddEntry(entry);
    }

    /** `queue_pop` on the pending queue. */
    method UnlinkFirst() returns (entry: Entry?<T>)
      requires Valid()
      modifies pending`head, pending`tail, pending`count, pending`nodes, pending`own, pending.own`next, `p
      ensures Valid() && pending.notify == old(pending.notify) && pending.own <= old(pending.own)
      ensures entry != null <==> old(p) != []
      ensures p == if entry != null then Without(old(p), 0) else []
      ensures entry != null ==> entry in old(pending.own) && Loose(entry, old(p)[0])
      ensures c == old(c) && atWorker == old(atWorker) && atSession == old(atSession)
    {
      ghost var before := pending.nodes;
      entry := pending.Pop();
      if entry != null {
        CarryWithout(before, p, key, 0);
        p := Without(p, 0);
      }
    }

    /** `queue_find_remove` on the pending queue. */
    method UnlinkMatching(seqnum: uint32) returns (entry: Entry?<T>, ghost i: nat)
      requires Valid()
      modifies pending`head, pending`tail, pending`count, pending`nodes, pending`own, pending.own`next, `p
      ensures Valid() && pending.notify == old(pending.notify) && pending.own <= old(pending.own)
      ensures i <= |old(p)| && (forall k | 0 <= k < i :: key(old(p)[k]) != seqnum) && (entry != null <==> i < |old(p)|)
      ensures p == if entry != null then Without(old(p), i) else old(p)
      ensures entry != null ==> entry in old(pending.own) && Loose(entry, old(p)[i]) && key(old(p)[i]) == seqnum
      ensures c == old(c) && atWorker == old(atWorker) && atSession == old(atSession)
    {
      ghost var before := pending.nodes;
      entry, i := pending.FindRemove(seqnum);
      if entry != null {
        CarryWithout(before, p, key, i);
        p := Without(p, i);
      }
    }

    /** The session thread keeps an entry it has unlinked and marks it. */
    method HoldMarked(entry: Entry<T>, mark: T -> T)
      requires Valid() && atSession == None && Loose(entry, entry.item) && key(mark(entry.item)) == key(entry.item)
      modifies `sessionEntry, `atSession, entry`item
      ensures Valid() && sessionEntry == entry && atSession == Some(mark(old(entry.item)))
      ensures p == old(p) && c == old(c) && atWorker == old(atWorker) && pending.notify == old(pending.notify)
    {
      entry.item := mark(entry.item);
      sessionEntry, atSession := entry, Some(entry.item);
    }

    /** The worker keeps an entry it has unlinked. */
    method HoldForWorker(entry: Entry<T>)
      requires Valid() && atWorker == None && Loose(entry, entry.item)
      modifies `workerEntry, `atWorker
      ensures Valid() && workerEntry == entry && atWorker == Some(entry.item)
      ensures p == old(p) && c == old(c) && atSession == old(atSession) && pending.notify == old(pending.notify)
    {
      workerEntry, atWorker := entry, Some(entry.item);
    }

    /** The session thread keeps an entry it has unlinked. */
    method HoldForSession(entry: Entry<T>)
      requires Valid() && atSession == None && Loose(entry, entry.item)
      modifies `sessionEntry, `atSession
      ensures Valid() && sessionEntry == entry && atSession == Some(entry.item)
      ensures p == old(p) && c == old(c) && atWorker == old(atWorker) && pending.notify == old(pending.notify)
    {
      sessionEntry, atSession := entry, Some(entry.item);
    }

    /** The worker takes the oldest pending entry. */
    method TakeForWorker() returns (got: bool)
      requires Valid() && atWorker == None
      modifies pending`head, pending`tail, pending`count, pending`nodes, pending`own, pending.own`next, `p
      modifies `workerEntry, `atWorker
      ensures Valid() && Repr() <= old(Repr())
      ensures got <==> old(p) != []
      ensures p == (if got then Without(old(p), 0) else []) && atWorker == if got then Some(old(p)[0]) else None
      ensures c == old(c) && atSession == old(atSession) && pending.notify == old(pending.notify)
    {
      var entry := UnlinkFirst();
      got := entry != null;
      if got {
        HoldForWorker(entry);
      }
    }

    /** The session thread takes the oldest pending entry and marks it. */
    method TakeForSession(mark: T -> T) returns (got: bool)
      requires Valid() && atSession == None && forall x :: key(mark(x)) == key(x)
      modifies pending`head, pending`tail, pending`count, pending`nodes, pending`own, pending.own`next, `p
      modifies `sessionEntry, `atSession, pending.own`item
      ensures Valid() && Repr() <= old(Repr())
      ensures got <==> old(p) != []
      ensures p == (if got then Without(old(p), 0) else []) && atSession == if got then Some(mark(old(p)[0])) else None
      ensures c == old(c) && atWorker == old(atWorker) && pending.notify == old(pending.notify)
    {
      var entry := UnlinkFirst();
      got := entry != null;
      if got {
        HoldMarked(entry, mark);
      }
    }

    /** The session thread takes the first pending entry with a sequence number and marks it. */
    method TakeMatching(seqnum: uint32, mark: T -> T) returns (got: bool, ghost i: nat)
      requires Valid() && atSession == None && forall x :: key(mark(x)) == key(x)
      modifies pending`head, pending`tail, pending`count, pending`nodes, pending`own, pending.own`next, `p
      modifies `sessionEntry, `atSession, pending.own`item
      ensures Valid() && Repr() <= old(Repr())
      ensures i <= |old(p)| && (forall k | 0 <= k < i :: key(old(p)[k]) != seqnum) && (got <==> i < |old(p)|)
      ensures got ==> key(old(p)[i]) == seqnum
      ensures p == (if got then Without(old(p), i) else old(p))
      ensures atSession == if got then Some(mark(old(p)[i])) else None
      ensures c == old(c) && atWorker == old(atWorker) && pending.notify == old(pending.notify)
    {
      var entry;
      entry, i := UnlinkMatching(seqnum);
      got := entry != null;
      if got {
        HoldMarked(entry, mark);
      }
    }

    /** `queue_pop` on the completed queue. */
    method UnlinkCompleted() returns (entry: Entry?<T>)
      requires Valid()
      modifies completed`head, completed`tail, completed`count, completed`nodes, completed`own, completed.own`next, `c
      ensures Valid() && completed.own <= old(completed.own) && pending.notify == old(pending.notify)
      ensures entry != null <==> old(c) != []
      ensures c == if entry != null then Without(old(c), 0) else []
      ensures entry != null ==> entry in old(completed.own) && Loose(entry, old(c)[0])
      ensures p == old(p) && atWorker == old(atWorker) && atSession == old(atSession)
    {
      ghost var before := completed.nodes;
      entry := completed.Pop();
      if entry != null {
        CarryWithout(before, c, key, 0);
        c := Without(c, 0);
      }
    }

    /** The session thread takes the oldest completed entry. */
    method TakeCompleted() returns (got: bool)
      requires Valid() && atSession == None
      modifies completed`head, completed`tail, completed`count, completed`nodes, completed`own, completed.own`next, `c
      modifies `sessionEntry, `atSession
      ensures Valid() && Repr() <= old(Repr())
      ensures got <==> old(c) != []
      ensures c == (if got then Without(old(c), 0) else []) && atSession == if got then Some(old(c)[0]) else None
      ensures p == old(p) && atWorker == old(atWorker) && pending.notify == old(pending.notify)
    {
      var entry := UnlinkCompleted();
      got := entry != null;
      if got {
        HoldForSession(entry);
      }
    }

    /** `queue_push` on the completed queue by the worker; nobody waits for its signal. */
    method CompleteForWorker()
      requires Valid() && atWorker.Some?
      modifies completed, completed.own`next, `c, `atWorker, `workerEntry, workerEntry`next
      ensures Valid() && Repr() <= old(Repr())
      ensures c == old(c) + [old(atWorker).value] && atWorker == None
      ensures p == old(p) && atSession == old(atSession) && pending.notify == old(pending.notify)
    {
      var entry := workerEntry;
      CarryMore(completed.nodes, c, key, entry);
      completed.Push(entry);
      workerEntry, c, atWorker := null, c + [atWorker.value], None;
    }

    method CompleteForSession()
      requires Valid() && atSession.Some?
      modifies completed, completed.own`next, `c, `atSession, `sessionEntry, sessionEntry`next
      ensures Valid() && Repr() <= old(Repr())
      ensures c == old(c) + [old(atSession).value] && atSession == None
      ensures p == old(p) && atWorker == old(atWorker) && pending.notify == old(pending.notify)
    {
      var entry := sessionEntry;
      CarryMore(completed.nodes, c, key, entry);
      completed.Push(entry);
      sessionEntry, c, atSession := null, c + [atSession.value], None;
    }

    /** The worker updates the entry it holds. */
    method UpdateWorker(item: T)
      requires Valid() && atWorker.Some? && key(item) == key(atWorker.value)
      modifies workerEntry`item, `atWorker
      ensures Valid() && Repr() == old(Repr()) && atWorker == Some(item)
    {
      workerEntry.item, atWorker := item, Some(item);
    }

    /** `queue_cleanup` on both queues; each entry in them is freed once. */
    method FreeQueues() returns (freed: seq<Entry<T>>)
      requires Valid()
      modifies pending, completed, `p, `c
      ensures Valid() && Repr() <= old(Repr()) && p == [] && c == []
      ensures freed == old(pending.nodes) + old(completed.nodes)
      ensures atWorker == old(atWorker) && atSession == old(atSession) && pending.notify == old(pending.notify)
    {
      var first := pending.Cleanup();
      var second := completed.Cleanup();
      p, c := [], [];
      freed := first + second;
    }

    /** The session thread frees the entry it holds. */
    method FreeSession()
      requires Valid()
      modifies `sessionEntry, `atSession
      ensures Valid() && Repr() <= old(Repr()) && atSession == None
    {
      sessionEntry, atSession := null, None;
    }
  }
}
