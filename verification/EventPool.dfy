/** The pool and queue of fragment-closed events between the main loop and the worker.

The main loop takes a free slot, fills and queues it, or handles the event itself when
the pool is exhausted; the worker handles queued events and frees their slots; stop
queues a last mark and joins the worker.  Each method is one step of one thread.
*/
module EventPool {
  const POOL_SIZE := 16

  datatype Item = Slot(k: nat) | StopMark

  /** The main loop between taking a slot and queueing it. */
  datatype Producer = Ready | Filling(k: nat)

  datatype Worker = Waiting | Handling(k: nat) | Done

  datatype Place = Free | WithProducer | InQueue | WithWorker

  /** What each slot's flag and its place must be. */
  ghost predicate Placed(place: seq<Place>, inUse: seq<bool>, queue: seq<Item>, producer: Producer, worker: Worker) {
    && |place| == |inUse| == POOL_SIZE
    && (forall k | 0 <= k < POOL_SIZE :: inUse[k] <==> place[k] != Free)
    && (forall k | 0 <= k < POOL_SIZE :: place[k] == InQueue <==> Slot(k) in queue)
    && (forall k | 0 <= k < POOL_SIZE :: place[k] == WithProducer <==> producer == Filling(k))
    && (forall k | 0 <= k < POOL_SIZE :: place[k] == WithWorker <==> worker == Handling(k))
    && (forall i | 0 <= i < |queue| :: queue[i].Slot? ==> queue[i].k < POOL_SIZE)
    && (forall i, j | 0 <= i < j < |queue| :: queue[i] != queue[j])
    && (producer.Filling? ==> producer.k < POOL_SIZE) && (worker.Handling? ==> worker.k < POOL_SIZE)
  }

  /** The events waiting in the queue, in order. */
  function Waitings(queue: seq<Item>, event: seq<nat>): seq<nat> {
    if queue == [] then []
    else (if queue[0].Slot? && queue[0].k < |event| then [event[queue[0].k]] else []) + Waitings(queue[1..], event)
  }

  lemma {:induction false} WaitingsPush(queue: seq<Item>, item: Item, event: seq<nat>)
    ensures Waitings(queue + [item], event)
            == Waitings(queue, event) + if item.Slot? && item.k < |event| then [event[item.k]] else []
  {
    if queue != [] {
      WaitingsPush(queue[1..], item, event);
      assert (queue + [item])[1..] == queue[1..] + [item];
    }
  }

  lemma {:induction false} WaitingsIgnores(queue: seq<Item>, event: seq<nat>, k: nat, n: nat)
    requires k < |event| && Slot(k) !in queue
    ensures Waitings(queue, event[k := n]) == Waitings(queue, event)
  {
    if queue != [] {
      assert queue[0] in queue && forall x | x in queue[1..] :: x in queue;
      WaitingsIgnores(queue[1..], event, k, n);
    }
  }

  /** A stop mark is the end of the queue. */
  ghost predicate MarkLast(queue: seq<Item>, stopped: bool, worker: Worker) {
    && (forall i | 0 <= i < |queue| :: queue[i] == StopMark <==> stopped && worker != Done && i == |queue| - 1)
    && (stopped && worker != Done ==> queue != [])
    && (worker == Done ==> stopped && queue == [])
  }

  lemma PlacedAfterPush(place: seq<Place>, inUse: seq<bool>, queue: seq<Item>, k: nat, worker: Worker)
    requires Placed(place, inUse, queue, Filling(k), worker)
    ensures k < POOL_SIZE == |place| && Slot(k) !in queue
    ensures Placed(place[k := InQueue], inUse, queue + [Slot(k)], Ready, worker)
  {
    assert forall x :: x in queue + [Slot(k)] <==> x in queue || x == Slot(k);
    assert forall i | 0 <= i < |queue| :: queue[i] in queue;
  }

  lemma PlacedAfterPop(place: seq<Place>, inUse: seq<bool>, queue: seq<Item>, producer: Producer)
    requires Placed(place, inUse, queue, producer, Waiting) && queue != []
    ensures |place| == POOL_SIZE
    ensures match queue[0]
            case Slot(k) => k < POOL_SIZE && Placed(place[k := WithWorker], inUse, queue[1..], producer, Handling(k))
            case StopMark => Placed(place, inUse, queue[1..], producer, Done)
  {
    var item, rest := queue[0], queue[1..];
    assert item in queue && forall x :: x in queue <==> x == item || x in rest;
    forall i | 0 <= i < |rest|
      ensures rest[i] == queue[i + 1] && rest[i] != item
    {
    }
  }

  lemma MarkLastAfterPop(queue: seq<Item>, stopped: bool)
    requires MarkLast(queue, stopped, Waiting) && queue != []
    ensures MarkLast(queue[1..], stopped, if queue[0].Slot? then Handling(queue[0].k) else Done)
  {
    assert forall i | 0 <= i < |queue| - 1 :: queue[1..][i] == queue[i + 1];
  }

  /** The worker's slot is not the one being filled. */
  lemma PlacedWorker(place: seq<Place>, inUse: seq<bool>, queue: seq<Item>, producer: Producer, worker: Worker)
    requires Placed(place, inUse, queue, producer, worker)
    ensures producer.Filling? && worker.Handling? ==> producer.k != worker.k
  {
  }

  lemma WaitingsPop(queue: seq<Item>, event: seq<nat>)
    requires queue != []
    ensures Waitings(queue, event)
            == (if queue[0].Slot? && queue[0].k < |event| then [event[queue[0].k]] else [])
               + Waitings(queue[1..], event)
  {
  }

  class Pool {
    var inUse: seq<bool>
    var event: seq<nat>
    var queue: seq<Item>
    var producer: Producer
    var worker: Worker
    var stopped: bool

    /** Events handed to the worker and handled by it, in order; and where each slot is. */
    ghost var pooled: seq<nat>
    ghost var handled: seq<nat>
    ghost var place: seq<Place>

    ghost predicate Valid()
      reads this
    {
      && |event| == POOL_SIZE && Placed(place, inUse, queue, producer, worker) && MarkLast(queue, stopped, worker)
      && pooled == handled + (if worker.Handling? && worker.k < |event| then [event[worker.k]] else [])
                   + Waitings(queue, event)
      && (stopped ==> producer == Ready)
    }

    constructor ()
      ensures Valid() && pooled == [] && producer == Ready && worker == Waiting && !stopped
    {
      inUse := seq(POOL_SIZE, _ => false);
      event := seq(POOL_SIZE, _ => 0);
      queue, producer, worker, stopped := [], Ready, Waiting, false;
      pooled, handled, place := [], [], seq(POOL_SIZE, _ => Free);
    }

    /** The main loop looks for a free slot under the pool's lock. */
    method Take() returns (found: bool)
      requires Valid() && producer == Ready && !stopped
      modifies this`inUse, this`producer, this`place
      ensures Valid() && found == (false in old(inUse))
      ensures found ==>
                producer.Filling? && producer.k < POOL_SIZE && producer.k < |old(inUse)| && !old(inUse)[producer.k]
                        && inUse == old(inUse)[producer.k := true]
      ensures !found ==> inUse == old(inUse) && producer == Ready
    {
      var k := 0;
      while k < POOL_SIZE
        invariant k <= POOL_SIZE && forall j | 0 <= j < k :: inUse[j]
        invariant Valid() && inUse == old(inUse) && producer == Ready
      {
        if !inUse[k] {
          inUse := inUse[k := true];
          producer := Filling(k);
          place := place[k := WithProducer];
          return true;
        }
        k := k + 1;
      }
      return false;
    }

    /** It fills the slot and queues it. */
    method Push(n: nat)
      requires Valid() && producer.Filling? && !stopped
      modifies this
      ensures Valid() && producer == Ready && pooled == old(pooled) + [n] && handled == old(handled)
      ensures queue == old(queue) + [Slot(old(producer).k)] && worker == old(worker) && !stopped && inUse == old(inUse)
    {
      hide Placed, Waitings;
      var k := producer.k;
      PlacedAfterPush(place, inUse, queue, k, worker);
      PlacedWorker(place, inUse, queue, producer, worker);
      WaitingsIgnores(queue, event, k, n);
      event := event[k := n];
      WaitingsPush(queue, Slot(k), event);
      queue := queue + [Slot(k)];
      place := place[k := InQueue];
      producer := Ready;
      pooled := pooled + [n];
    }

    /** The worker takes the next item. */
    method Pop()
      requires Valid() && worker == Waiting && queue != []
      modifies this
      ensures Valid() && queue == old(queue)[1..] && handled == old(handled) && pooled == old(pooled)
              && stopped == old(stopped)
      ensures worker == match old(queue)[0] case Slot(k) => Handling(k) case StopMark => Done
      ensures inUse == old(inUse) && producer == old(producer)
    {
      hide Placed, Waitings, MarkLast;
      var item := queue[0];
      PlacedAfterPop(place, inUse, queue, producer);
      MarkLastAfterPop(queue, stopped);
      WaitingsPop(queue, event);
      match item {
        case Slot(k) =>
          worker := Handling(k);
          place := place[k := WithWorker];
        case StopMark =>
          worker := Done;
      }
      queue := queue[1..];
    }

    /** It has handled the event and frees its slot. */
    method Release()
      requires Valid() && worker.Handling?
      modifies this
      ensures Valid() && worker == Waiting && pooled == old(pooled) && queue == old(queue) && stopped == old(stopped)
      ensures old(worker).k < |old(event)| && handled == old(handled) + [old(event)[old(worker).k]]
      ensures old(worker).k < |old(inUse)| && inUse == old(inUse)[old(worker).k := false] && producer == old(producer)
    {
      var k := worker.k;
      handled := handled + [event[k]];
      inUse := inUse[k := false];
      place := place[k := Free];
      worker := Waiting;
    }

    /** Stop queues its mark; the main loop queues nothing after it. */
    method Stop()
      requires Valid() && producer == Ready && !stopped
      modifies this`queue, this`stopped
      ensures Valid() && stopped && queue == old(queue) + [StopMark]
    {
      WaitingsPush(queue, StopMark, event);
      assert StopMark !in queue;
      queue := queue + [StopMark];
      stopped := true;
    }

    /** And joins the worker: by then every event it was handed is handled, in order,
        and every slot is free. */
    method Join()
      requires Valid() && stopped
      modifies this
      ensures Valid() && worker == Done && handled == pooled == old(pooled)
      ensures forall k | 0 <= k < |inUse| :: !inUse[k]
    {
      while worker != Done
        invariant Valid() && stopped && pooled == old(pooled)
        decreases |queue|, if worker.Handling? then 1 else 0
      {
        if worker.Handling? {
          Release();
        } else {
          Pop();
        }
      }
    }
  }
}
