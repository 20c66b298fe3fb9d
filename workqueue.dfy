/** The page-side work-order queue: orders wait in FIFO order, a periodic
    tick posts queue heads to idle workers, and a worker's reply marks it idle
    and fulfils the order's promise. Workers are named by their index in
    creation order; posting a message is recorded in `posted`, fulfilling a
    promise in `resolved`. */
module WorkOrders {
  import opened Values

  /** `[id, worker, order, transfer]`: the id, the name of the worker
      package, the order data and the list of objects to transfer. */
  datatype WorkOrder = WorkOrder(id: nat, pack: string, order: Value, transfer: Value)

  /** `postMessage(task.slice(0, 3), task[3])` sent to one worker. */
  datatype Post = Post(target: nat, task: WorkOrder)

  /** The number of workers the loader starts: none without threading;
      otherwise `threads = Math.max(hardwareConcurrency / 2, 1)` counted down
      by one while positive, which is the ceiling of `threads`. An unknown
      concurrency makes `threads` NaN, and the loop does not run. */
  function WorkerCount(threading: bool, hardwareConcurrency: Option<nat>): nat {
    if !threading || hardwareConcurrency.None? then 0
    else if hardwareConcurrency.value < 2 then 1
    else (hardwareConcurrency.value + 1) / 2
  }

  /** With threading and a known concurrency h, the pool is the smallest
      positive size that covers half of h. */
  lemma WorkerCountCeiling(h: nat)
    ensures var n := WorkerCount(true, Some(h));
            && n >= 1 && 2 * n >= h
            && (n == 1 || 2 * (n - 1) < h)
  {
  }

  /** Without threading, or with an unknown concurrency, no worker exists. */
  lemma WorkerCountNone(threading: bool, hardwareConcurrency: Option<nat>)
    requires !threading || hardwareConcurrency.None?
    ensures WorkerCount(threading, hardwareConcurrency) == 0
  {
  }

  predicate NoDup(s: seq<nat>) {
    forall i, j :: 0 <= i < j < |s| ==> s[i] != s[j]
  }

  /** Queue ids strictly increase from head to tail. */
  predicate Increasing(orders: seq<WorkOrder>) {
    forall i, j :: 0 <= i < j < |orders| ==> orders[i].id < orders[j].id
  }

  /** Dropping queue heads keeps the ids increasing and below the counter. */
  lemma SuffixIncreasing(orders: seq<WorkOrder>, n: nat, counter: nat)
    requires Increasing(orders) && n <= |orders|
    requires forall k :: 0 <= k < |orders| ==> orders[k].id < counter
    ensures Increasing(orders[n..])
    ensures forall k :: 0 <= k < |orders[n..]| ==> orders[n..][k].id < counter
  {
    forall i, j | 0 <= i < j < |orders[n..]|
      ensures orders[n..][i].id < orders[n..][j].id
    {
      assert orders[n..][i] == orders[n + i] && orders[n..][j] == orders[n + j];
    }
  }

  function Targets(posts: seq<Post>): seq<nat> {
    if posts == [] then [] else Targets(posts[..|posts| - 1]) + [posts[|posts| - 1].target]
  }

  function Tasks(posts: seq<Post>): seq<WorkOrder> {
    if posts == [] then [] else Tasks(posts[..|posts| - 1]) + [posts[|posts| - 1].task]
  }

  /** The busy map after the posts: each target marked busy, in order. */
  function Occupy(busy: map<nat, bool>, posts: seq<Post>): map<nat, bool> {
    if posts == [] then busy
    else Occupy(busy, posts[..|posts| - 1])[posts[|posts| - 1].target := true]
  }

  /** Occupying adds no worker, and a worker is busy afterwards exactly when
      it was busy before or was posted to. */
  lemma {:induction false} OccupyEffect(busy: map<nat, bool>, posts: seq<Post>, w: nat)
    requires forall k :: 0 <= k < |posts| ==> posts[k].target in busy
    ensures Occupy(busy, posts).Keys == busy.Keys
    ensures w in busy ==> Occupy(busy, posts)[w] == (busy[w] || w in Targets(posts))
  {
    if posts != [] {
      var init := posts[..|posts| - 1];
      assert forall k :: 0 <= k < |init| ==> init[k] == posts[k];
      OccupyEffect(busy, init, w);
    }
  }

  /** Every listed worker has a busy flag. */
  predicate Flagged(workers: seq<nat>, busy: map<nat, bool>) {
    forall k :: 0 <= k < |workers| ==> workers[k] in busy
  }

  /** What one tick posts from worker index i on: walking the workers in
      order, each idle one takes the next queue head, until the workers or
      the orders run out. */
  function DispatchFrom(workers: seq<nat>, i: nat, busy: map<nat, bool>, orders: seq<WorkOrder>): seq<Post>
    requires Flagged(workers, busy) && i <= |workers|
    decreases |workers| - i
  {
    if i == |workers| || orders == [] then []
    else if busy[workers[i]] then DispatchFrom(workers, i + 1, busy, orders)
    else [Post(workers[i], orders[0])] + DispatchFrom(workers, i + 1, busy, orders[1..])
  }

  /** What one tick posts. */
  function Dispatch(workers: seq<nat>, busy: map<nat, bool>, orders: seq<WorkOrder>): seq<Post>
    requires Flagged(workers, busy)
  {
    DispatchFrom(workers, 0, busy, orders)
  }

  /** The number of idle workers from index i on. */
  function IdleCount(workers: seq<nat>, i: nat, busy: map<nat, bool>): nat
    requires Flagged(workers, busy) && i <= |workers|
    decreases |workers| - i
  {
    if i == |workers| then 0
    else (if busy[workers[i]] then 0 else 1) + IdleCount(workers, i + 1, busy)
  }

  function Min(a: nat, b: nat): nat {
    if a <= b then a else b
  }

  lemma {:induction false} TargetsAt(posts: seq<Post>)
    ensures |Targets(posts)| == |posts| && |Tasks(posts)| == |posts|
    ensures forall k :: 0 <= k < |posts| ==> Targets(posts)[k] == posts[k].target
    ensures forall k :: 0 <= k < |posts| ==> Tasks(posts)[k] == posts[k].task
  {
    if posts != [] {
      TargetsAt(posts[..|posts| - 1]);
    }
  }

  /** FIFO: the k-th post of a tick carries the k-th queued order, so the
      posts hand out exactly a prefix of the queue. */
  lemma {:induction false} DispatchFifo(workers: seq<nat>, i: nat, busy: map<nat, bool>, orders: seq<WorkOrder>)
    requires Flagged(workers, busy) && i <= |workers|
    ensures |DispatchFrom(workers, i, busy, orders)| <= |orders|
    ensures forall k :: 0 <= k < |DispatchFrom(workers, i, busy, orders)| ==>
              DispatchFrom(workers, i, busy, orders)[k].task == orders[k]
    decreases |workers| - i
  {
    if i < |workers| && orders != [] {
      DispatchFifo(workers, i + 1, busy, orders);
      DispatchFifo(workers, i + 1, busy, orders[1..]);
    }
  }

  /** Only idle workers at index i or later are posted to. */
  lemma {:induction false} DispatchIdle(workers: seq<nat>, i: nat, busy: map<nat, bool>, orders: seq<WorkOrder>)
    requires Flagged(workers, busy) && i <= |workers|
    ensures forall k :: 0 <= k < |DispatchFrom(workers, i, busy, orders)| ==>
              && DispatchFrom(workers, i, busy, orders)[k].target in workers[i..]
              && !busy[DispatchFrom(workers, i, busy, orders)[k].target]
    decreases |workers| - i
  {
    if i < |workers| && orders != [] {
      assert forall w :: w in workers[i + 1..] ==> w in workers[i..];
      DispatchIdle(workers, i + 1, busy, orders);
      DispatchIdle(workers, i + 1, busy, orders[1..]);
    }
  }

  /** No worker is given two orders in one tick. */
  lemma {:induction false} DispatchDistinct(workers: seq<nat>, i: nat, busy: map<nat, bool>, orders: seq<WorkOrder>)
    requires Flagged(workers, busy) && i <= |workers| && NoDup(workers)
    ensures forall j, k :: 0 <= j < k < |DispatchFrom(workers, i, busy, orders)| ==>
              DispatchFrom(workers, i, busy, orders)[j].target != DispatchFrom(workers, i, busy, orders)[k].target
    decreases |workers| - i
  {
    if i < |workers| && orders != [] {
      if busy[workers[i]] {
        DispatchDistinct(workers, i + 1, busy, orders);
      } else {
        DispatchDistinct(workers, i + 1, busy, orders[1..]);
        DispatchIdle(workers, i + 1, busy, orders[1..]);
        var d := DispatchFrom(workers, i, busy, orders);
        var e := DispatchFrom(workers, i + 1, busy, orders[1..]);
        assert d == [Post(workers[i], orders[0])] + e;
        assert workers[i] !in workers[i + 1..];
        forall j, k | 0 <= j < k < |d|
          ensures d[j].target != d[k].target
        {
          assert e[k - 1].target in workers[i + 1..];
          assert d[k] == e[k - 1];
          if j > 0 {
            assert d[j] == e[j - 1];
          }
        }
      }
    }
  }

  /** Work conservation: a tick posts as many orders as it can, the smaller
      of the queue length and the number of idle workers. */
  lemma {:induction false} DispatchCount(workers: seq<nat>, i: nat, busy: map<nat, bool>, orders: seq<WorkOrder>)
    requires Flagged(workers, busy) && i <= |workers|
    ensures |DispatchFrom(workers, i, busy, orders)| == Min(|orders|, IdleCount(workers, i, busy))
    decreases |workers| - i
  {
    if i < |workers| && orders != [] {
      DispatchCount(workers, i + 1, busy, orders);
      DispatchCount(workers, i + 1, busy, orders[1..]);
    }
  }

  /** One post of a tick: the idle worker at index i takes the queue head,
      and the invariants of the tick carry over to the next worker. */
  lemma PostStep(workers: seq<nat>, i: nat, states: map<nat, bool>, queue: seq<WorkOrder>,
                 sent: seq<Post>, queued: seq<WorkOrder>, total: seq<Post>)
    requires Flagged(workers, states) && i < |workers| && queue != [] && !states[workers[i]]
    requires sent + DispatchFrom(workers, i, states, queue) == total
    requires |sent| <= |queued| && queue == queued[|sent|..]
    ensures sent + [Post(workers[i], queue[0])] + DispatchFrom(workers, i + 1, states, queue[1..]) == total
    ensures queue[1..] == queued[|sent| + 1..]
    ensures Occupy(states, sent)[workers[i] := true] == Occupy(states, sent + [Post(workers[i], queue[0])])
  {
    var p := Post(workers[i], queue[0]);
    var later := DispatchFrom(workers, i + 1, states, queue[1..]);
    assert sent + [p] + later == sent + ([p] + later);
    assert (sent + [p])[..|sent|] == sent;
  }

  /** The posts of a tick hand out the head of the queue, and the rest of
      the queue is left behind in order. */
  lemma TickQueue(workers: seq<nat>, states: map<nat, bool>, sent: seq<Post>,
                  queued: seq<WorkOrder>, rest: seq<WorkOrder>)
    requires Flagged(workers, states)
    requires sent == Dispatch(workers, states, queued)
    requires |sent| <= |queued| && rest == queued[|sent|..]
    ensures queued == Tasks(sent) + rest
  {
    TargetsAt(sent);
    DispatchFifo(workers, 0, states, queued);
    assert Tasks(sent) == queued[..|sent|];
  }

  /** A tick posts only to workers that have a flag, so it adds none. */
  lemma TickFlags(workers: seq<nat>, states: map<nat, bool>, sent: seq<Post>, queued: seq<WorkOrder>)
    requires Flagged(workers, states)
    requires sent == Dispatch(workers, states, queued)
    ensures Occupy(states, sent).Keys == states.Keys
  {
    DispatchIdle(workers, 0, states, queued);
    assert workers[0..] == workers;
    OccupyEffect(states, sent, 0);
  }

  /** The walk of one tick: the workers in creation order, each busy one
      skipped and each idle one posted the queue head and marked busy, until
      the workers run out or the queue is empty. */
  method Walk(workers: seq<nat>, states: map<nat, bool>, queue: seq<WorkOrder>)
    returns (sent: seq<Post>, rest: seq<WorkOrder>, flags: map<nat, bool>)
    requires Flagged(workers, states)
    ensures sent == Dispatch(workers, states, queue)
    ensures |sent| <= |queue| && rest == queue[|sent|..]
    ensures flags == Occupy(states, sent)
  {
    // each flag is read before the walk can set it
    rest, flags, sent := queue, states, [];
    var i := 0;
    while i < |workers| && |rest| > 0
      invariant 0 <= i <= |workers|
      invariant sent + DispatchFrom(workers, i, states, rest) == Dispatch(workers, states, queue)
      invariant |sent| <= |queue| && rest == queue[|sent|..]
      invariant flags == Occupy(states, sent)
    {
      var w := workers[i];
      if !states[w] {
        PostStep(workers, i, states, rest, sent, queue, Dispatch(workers, states, queue));
        sent := sent + [Post(w, rest[0])];
        flags := flags[w := true];
        rest := rest[1..];
      }
      i := i + 1;
    }
  }

  /** The queue in page context. */
  class WorkQueue {
    /** `_workOrders` */
    var orders: seq<WorkOrder>
    /** `_workers`, in creation order */
    var workers: seq<nat>
    /** `_workerStates`: true while a worker processes an order */
    var busy: map<nat, bool>
    /** `_workCounter` */
    var counter: nat
    /** `_workPromises`: order id to the id of its fulfil function */
    var promises: map<nat, nat>
    /** every message posted to a worker, in order */
    var posted: seq<Post>
    /** every fulfilled work promise with its value, in order */
    var resolved: seq<Call>

    ghost predicate Valid()
      reads this
    {
      && NoDup(workers)
      && (forall w :: w in busy <==> w in workers)
      && Increasing(orders)
      && (forall k :: 0 <= k < |orders| ==> orders[k].id < counter)
      && (forall id :: id in promises ==> id < counter)
    }

    /** Starting the queue: `WorkerCount` idle workers, nothing queued. The
        loop is `for (i = threads; i > 0; i--)` with `threads` counted here
        in halves, since `hardwareConcurrency / 2` may end in `.5`. */
    constructor(threading: bool, hardwareConcurrency: Option<nat>)
      ensures Valid()
      ensures |workers| == WorkerCount(threading, hardwareConcurrency)
      ensures forall k :: 0 <= k < |workers| ==> workers[k] == k && !busy[k]
      ensures orders == [] && counter == 0 && promises == map[] && posted == [] && resolved == []
    {
      orders := [];
      counter := 0;
      promises := map[];
      posted := [];
      resolved := [];
      workers := [];
      busy := map[];
      new;
      if threading && hardwareConcurrency.Some? {
        var halves := if hardwareConcurrency.value < 2 then 2 else hardwareConcurrency.value;
        var i := halves;
        while i > 0
          invariant -1 <= i <= halves && (halves - i) % 2 == 0
          invariant orders == [] && counter == 0 && promises == map[] && posted == [] && resolved == []
          invariant |workers| == (halves - i) / 2
          invariant forall k :: 0 <= k < |workers| ==> workers[k] == k
          invariant forall w :: w in busy <==> w in workers
          invariant forall w :: w in busy ==> !busy[w]
          invariant forall k :: 0 <= k < |workers| ==> k in busy
          decreases i
        {
          var w := |workers|;
          workers := workers + [w];
          busy := busy[w := false];
          i := i - 2;
        }
      }
    }

    /** `submitWorkOrder` in page context: queue the order at the tail under
        the next id and keep its fulfil function. */
    method Submit(pack: string, order: Value, transfer: Value, resolver: nat) returns (id: nat)
      requires Valid()
      modifies this`orders, this`counter, this`promises
      ensures Valid()
      ensures id == old(counter) && counter == old(counter) + 1
      ensures orders == old(orders) + [WorkOrder(id, pack, order, transfer)]
      ensures promises == old(promises)[id := resolver]
    {
      id := counter;
      orders := orders + [WorkOrder(id, pack, order, transfer)];
      counter := counter + 1;
      promises := promises[id := resolver];
    }

    /** One run of the interval callback: with orders waiting, post queue
        heads to idle workers as `Walk` does, and keep the flags it set and
        the orders it left. */
    method Tick()
      requires Valid()
      modifies this`orders, this`busy, this`posted
      ensures Valid()
      ensures posted == old(posted) + Dispatch(workers, old(busy), old(orders))
      ensures old(orders) == Tasks(Dispatch(workers, old(busy), old(orders))) + orders
      ensures busy == Occupy(old(busy), Dispatch(workers, old(busy), old(orders)))
    {
      // with no orders waiting the walk posts nothing and the tick changes
      // nothing, which is the callback's early return
      assert Flagged(workers, busy);
      ghost var queued := orders;
      var sent, rest, flags := Walk(workers, busy, orders);
      TickQueue(workers, busy, sent, queued, rest);
      TickFlags(workers, busy, sent, queued);
      SuffixIncreasing(queued, |sent|, counter);
      orders, busy, posted := rest, flags, posted + sent;
    }

    /** A worker's reply `[id, result]`: the worker becomes idle, the id's
        fulfil function is removed and called with the result; an id without
        one throws a TypeError when it is called. */
    method Complete(w: nat, id: nat, result: Value) returns (r: Result<()>)
      requires Valid() && w in busy
      modifies this`busy, this`promises, this`resolved
      ensures Valid()
      ensures busy == old(busy)[w := false]
      ensures promises == old(promises) - {id}
      ensures id in old(promises) ==> r == Done && resolved == old(resolved) + [Call(old(promises)[id], result)]
      ensures id !in old(promises) ==> r == Err(TypeError) && resolved == old(resolved)
    {
      busy := busy[w := false];
      var f := if id in promises then Some(promises[id]) else None;
      promises := promises - {id};
      if f.None? {
        return Err(TypeError);
      }
      resolved := resolved + [Call(f.value, result)];
      r := Done;
    }
  }
}
