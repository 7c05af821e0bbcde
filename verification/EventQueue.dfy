/** The queue as the object it is: fields updated in place, proved against the steps of `Queue`. */
module EventQueue {
  import opened Queue

  datatype Evicted = NoKey | Evicted(key: Key)

  class LruTracker {
    const capacity: nat
    var order: seq<Key>

    constructor (capacity: nat)
      ensures this.capacity == capacity && order == []
    {
      this.capacity := capacity;
      order := [];
    }

    method TouchKey(key: Key)
      modifies this
      ensures order == Touch(old(order), key)
      ensures key !in old(order) ==> order == old(order) + [key]
      ensures forall i :: 0 <= i < |old(order)| && old(order)[i] == key && Distinct(old(order)) ==>
        order == old(order)[..i] + old(order)[i + 1..] + [key]
    {
      if key !in order { WithoutAbsent(order, key); }
      forall i | 0 <= i < |order| && order[i] == key && Distinct(order)
        ensures Without(order, key) == order[..i] + order[i + 1..]
      {
        WithoutAt(order, i);
      }
      order := Without(order, key);
      order := order + [key];
    }

    /** The evicted key, if the capacity is exceeded, and the active keys left. */
    method EvictOldest(activeKeys: set<Key>) returns (evicted: Evicted, remaining: set<Key>)
      modifies this
      ensures |old(order)| <= capacity ==> evicted == NoKey && remaining == activeKeys && order == old(order)
      ensures |old(order)| > capacity ==>
        && evicted == Evicted(old(order)[0]) && order == old(order)[1..]
        && remaining == activeKeys - {old(order)[0]}
    {
      if |order| <= capacity { return NoKey, activeKeys; }
      var oldest := order[0];
      order := order[1..];
      return Evicted(oldest), activeKeys - {oldest};
    }
  }

  class EventQueue<T> {
    const lru: LruTracker
    var queues: map<Key, Entry<T>>
    var activeKeys: set<Key>
    var idleWaiters: map<Key, set<nat>>
    /** The continuations of `runKey` that wait for their processor. */
    var running: seq<Job<T>>

    ghost var enqueued: seq<Job<T>>
    ghost var started: seq<Job<T>>
    ghost var completed: seq<Job<T>>
    ghost var dropped: seq<Job<T>>
    ghost var registered: set<nat>
    var resolved: set<nat>

    ghost function View(): State<T>
      reads this, lru
    {
      State(lru.capacity, queues, activeKeys, lru.order, idleWaiters, running,
            enqueued, started, completed, dropped, registered, resolved)
    }

    constructor (maxKeys: nat)
      ensures View() == Init(maxKeys) && fresh(lru)
    {
      lru := new LruTracker(maxKeys);
      queues, activeKeys, idleWaiters, running := map[], {}, map[], [];
      enqueued, started, completed, dropped := [], [], [], [];
      registered, resolved := {}, {};
    }

    method EnqueueItem(key: Key, item: T)
      modifies this, lru
      ensures View() == Enqueue(old(View()), key, item)
      ensures enqueued == old(enqueued) + [Job(key, item)]
    {
      hide Evict, Push, Start;
      EnqueueOrder(View(), key, item);
      TouchAndEvict(key);
      var busy := AddItem(key, item);
      if !busy {
        RunKey(key);
      }
    }

    method TouchAndEvict(key: Key)
      modifies this, lru
      ensures View() == Evict(old(View()), key)
    {
      hide Touch, Jobs;
      lru.TouchKey(key);
      var evicted;
      evicted, activeKeys := lru.EvictOldest(activeKeys);
      if evicted.Evicted? {
        dropped := dropped + Jobs(evicted.key, Pending(View(), evicted.key));
        queues := queues - {evicted.key};
      }
    }

    method AddItem(key: Key, item: T) returns (busy: bool)
      modifies this
      ensures View() == Push(old(View()), key, item)
      ensures busy == Processing(View(), key)
    {
      if key !in queues {
        queues := queues[key := Entry([], false)];
        activeKeys := activeKeys + {key};
      }
      var entry := queues[key];
      queues := queues[key := entry.(items := entry.items + [item])];
      enqueued := enqueued + [Job(key, item)];
      busy := entry.processing;
    }

    method PendingCount(key: Key) returns (n: nat)
      ensures n == |Pending(View(), key)|
    {
      n := if key in queues then |queues[key].items| else 0;
    }

    method QueueIsIdle(key: Key) returns (idle: bool)
      ensures idle <==> IsIdle(View(), key)
    {
      idle := key !in queues || (!queues[key].processing && |queues[key].items| == 0);
    }

    /** Registers waiter `id`, or answers at once. */
    method WaitFor(key: Key, id: nat)
      modifies this
      ensures View() == WaitForIdle(old(View()), key, id)
    {
      registered := registered + {id};
      var idle := QueueIsIdle(key);
      if idle {
        resolved := resolved + {id};
        return;
      }
      if key !in idleWaiters {
        idleWaiters := idleWaiters[key := {}];
      }
      idleWaiters := idleWaiters[key := idleWaiters[key] + {id}];
    }

    /** The keys that have a queue now, each once. */
    method KeysOfQueues() returns (keys: seq<Key>)
      ensures multiset(keys) == multiset(queues.Keys)
    {
      keys := [];
      var rest := queues.Keys;
      while rest != {}
        invariant rest <= queues.Keys && multiset(keys) + multiset(rest) == multiset(queues.Keys)
        decreases rest
      {
        var key :| key in rest;
        keys, rest := keys + [key], rest - {key};
      }
    }

    /** `drainAll` up to its await: registers waiters `first`, `first + 1`, and so on, one for each key. */
    method DrainAll(first: nat) returns (keys: seq<Key>)
      modifies this
      ensures multiset(keys) == multiset(old(queues.Keys))
      ensures View() == WaitAll(old(View()), keys, first)
    {
      hide WaitForIdle;
      keys := KeysOfQueues();
      for i := 0 to |keys|
        invariant WaitAll(View(), keys[i..], first + i) == WaitAll(old(View()), keys, first)
      {
        assert keys[i..][0] == keys[i] && keys[i..][1..] == keys[i + 1..];
        WaitFor(keys[i], first + i);
      }
    }

    /** `runKey` up to its await. */
    method RunKey(key: Key)
      modifies this
      ensures View() == Start(old(View()), key)
    {
      if key !in queues { return; }
      var entry := queues[key];
      if |entry.items| == 0 {
        queues := queues[key := entry.(processing := false)];
        return;
      }
      var job := Job(key, entry.items[0]);
      queues := queues[key := Entry(entry.items[1..], true)];
      running := running + [job];
      started := started + [job];
    }

    /** `runKey` after its await, for the i-th pending processor. */
    method Resume(i: nat)
      requires i < |running|
      modifies this
      ensures View() == Complete(old(View()), i)
    {
      var key := running[i].key;
      completed := completed + [running[i]];
      running := running[..i] + running[i + 1..];
      if key in queues {
        var next := queues[key];
        if |next.items| > 0 {
          RunKey(key);
        } else {
          queues := queues[key := next.(processing := false)];
          NotifyIdleWaiters(key);
        }
      }
    }

    method NotifyIdleWaiters(key: Key)
      modifies this
      ensures View() == NotifyIdle(old(View()), key)
    {
      if key !in idleWaiters { return; }
      var waiters := idleWaiters[key];
      idleWaiters := idleWaiters - {key};
      resolved := resolved + waiters;
    }
  }
}
