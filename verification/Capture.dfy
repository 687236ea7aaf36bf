/** The capture request engine of one channel: a queue of requests, the frame-to-task
step, the worker, the timeout scan and stop, racing around one mutex and a few
atomics.

Each method is one step of one thread: a section under the queue mutex, or one
operation on the task queue or on an atomic.  Any order of steps is a run.  The
buffered feeding of PNG captures is not part of this model.
*/
module Capture {
  import opened Wrappers

  /** captureCnt_ and push_index always agree, so the engine keeps one of them. */
  datatype Request = Request(maxCnt: int, start: int, timeoutMs: int, written: nat, timedOut: bool, responded: bool,
                             droppedCnt: nat)

  datatype Task = Task(req: nat, index: nat, sample: nat)

  /** The worker: between tasks, registered as waiting, with a task, or past its write. */
  datatype Worker = Idle | Waiting | Holding(task: Task) | Wrote(task: Task, count: nat)

  /** Who is inside the mutex, where a section is more than one step. */
  datatype Holder = Free | Admitting(req: nat, sample: nat) | Claiming(req: nat) | Reporting(req: nat)

  datatype Callback = Callback(req: nat, count: nat)

  datatype Place = InHand | Queued | Worked | Released

  // ----- order of the tasks

  /** Tasks a request may have: its count, and one when that is not positive. */
  function Quota(r: Request): nat { if r.maxCnt < 1 then 1 else r.maxCnt }

  /** Tasks lie in blocks, one per request in arrival order, indexed 0, 1, 2, ... */
  ghost predicate Grouped(history: seq<Task>) {
    && (forall i, j | 0 <= i < j < |history| :: history[i].req <= history[j].req)
    && (forall i | 0 <= i < |history| ::
          history[i].index == if i > 0 && history[i - 1].req == history[i].req then history[i - 1].index + 1 else 0)
  }

  predicate Increasing(line: seq<nat>) { forall i, j | 0 <= i < j < |line| :: line[i] < line[j] }

  ghost predicate InOrder(requests: seq<Request>, pending: seq<nat>, current: Option<nat>, pushed: nat,
                          history: seq<Task>) {
    && Grouped(history)
    && (forall h | h in history :: h.req < |requests| && h.index < Quota(requests[h.req]))
    && Increasing(pending)
    && (forall p | p in pending :: p < |requests| && (history != [] ==> history[|history| - 1].req < p))
    && (current.Some? ==>
          && current.value < |requests| && pushed < Quota(requests[current.value])
          && (forall p | p in pending :: current.value < p)
          && (if pushed == 0 then history != [] ==> history[|history| - 1].req < current.value
              else history != [] && history[|history| - 1].req == current.value
                   && history[|history| - 1].index == pushed - 1))
  }

  function CountOf(tasks: seq<Task>, r: nat): nat {
    if tasks == [] then 0 else CountOf(tasks[..|tasks| - 1], r) + if tasks[|tasks| - 1].req == r then 1 else 0
  }

  /** A block of a request is as long as its last index says. */
  lemma {:induction false} BlockLength(history: seq<Task>, r: nat)
    requires Grouped(history)
    ensures history != [] && history[|history| - 1].req == r ==> CountOf(history, r) == history[|history| - 1].index + 1
    ensures history != [] && history[|history| - 1].req < r ==> CountOf(history, r) == 0
  {
    if history != [] {
      var front := history[..|history| - 1];
      GroupedPrefix(history);
      if front != [] {
        assert front[|front| - 1] == history[|history| - 2];
        assert history[|history| - 2].req <= history[|history| - 1].req;
      }
      BlockLength(front, r);
    }
  }

  lemma GroupedPrefix(history: seq<Task>)
    requires Grouped(history) && history != []
    ensures Grouped(history[..|history| - 1])
  {
    var front := history[..|history| - 1];
    assert forall i | 0 <= i < |front| :: front[i] == history[i];
  }

  /** No request ever gets more tasks than its quota. */
  lemma {:induction false} TasksWithinQuota(history: seq<Task>, requests: seq<Request>, r: nat)
    requires Grouped(history) && r < |requests|
    requires forall h | h in history :: h.req < |requests| && h.index < Quota(requests[h.req])
    ensures CountOf(history, r) <= Quota(requests[r])
  {
    hide Grouped;
    if history != [] {
      var front, last := history[..|history| - 1], history[|history| - 1];
      assert last in history && forall h | h in front :: h in history;
      GroupedPrefix(history);
      if last.req == r { BlockLength(history, r); } else { TasksWithinQuota(front, requests, r); }
    }
  }

  /** The indices of one request are 0, 1, 2, ... without a repeat: two of its tasks
      are as far apart in the history as their indices. */
  lemma {:induction false} IndicesCountUp(history: seq<Task>, i: nat, j: nat)
    requires Grouped(history) && i <= j < |history| && history[i].req == history[j].req
    ensures history[j].index == history[i].index + (j - i)
    decreases j - i
  {
    if i < j {
      assert history[i].req <= history[j - 1].req <= history[j].req;
      IndicesCountUp(history, i, j - 1);
    }
  }

  lemma CountOfPush(tasks: seq<Task>, t: Task, r: nat)
    ensures CountOf(tasks + [t], r) == CountOf(tasks, r) + if t.req == r then 1 else 0
  {
    assert (tasks + [t])[..|tasks|] == tasks;
  }

  lemma {:induction false} CountOfPop(tasks: seq<Task>, r: nat)
    requires tasks != []
    ensures CountOf(tasks, r) == (if tasks[0].req == r then 1 else 0) + CountOf(tasks[1..], r)
  {
    var front, tail := tasks[..|tasks| - 1], tasks[1..];
    if |tasks| > 1 {
      CountOfPop(front, r);
      assert tail[..|tail| - 1] == front[1..];
    } else {
      assert front == [] && tail == [];
    }
  }

  // ----- counts, callbacks, samples, valve

  function InWork(w: Worker, r: nat): nat { if w.Holding? && w.task.req == r then 1 else 0 }

  function WrittenOf(requests: seq<Request>, r: nat): nat { if r < |requests| then requests[r].written else 0 }

  /** Every queued or written frame of a request stems from a task of its own. */
  ghost predicate Counted(requests: seq<Request>, tasks: seq<Task>, worker: Worker, history: seq<Task>) {
    forall r: nat :: WrittenOf(requests, r) + CountOf(tasks, r) + InWork(worker, r) <= CountOf(history, r)
  }

  /** Callbacks: one per request at most, each with a count its request can have. */
  ghost predicate Answered(requests: seq<Request>, callbacks: seq<Callback>, holder: Holder, worker: Worker) {
    && (forall c | c in callbacks ::
          c.req < |requests| && requests[c.req].responded
          && (requests[c.req].maxCnt >= 1 ==> c.count <= requests[c.req].maxCnt))
    && (forall i, j | 0 <= i < j < |callbacks| :: callbacks[i].req != callbacks[j].req)
    && (holder.Reporting? ==>
          holder.req < |requests| && requests[holder.req].responded && forall c | c in callbacks :: c.req != holder.req)
    && (holder.Claiming? ==> holder.req < |requests|)
    && (worker.Wrote? ==> worker.task.req < |requests|
                          && (requests[worker.task.req].maxCnt >= 1 ==>
                              worker.count <= requests[worker.task.req].maxCnt))
  }

  predicate IsQueued(tasks: seq<Task>, s: nat) { exists t :: t in tasks && t.sample == s }

  ghost predicate IsThere(p: Place, s: nat, tasks: seq<Task>, worker: Worker, holder: Holder) {
    match p
    case InHand => holder.Admitting? && holder.sample == s
    case Queued => IsQueued(tasks, s)
    case Worked => (worker.Holding? || worker.Wrote?) && worker.task.sample == s
    case Released => true
  }

  /** Where each sample pulled so far is. */
  ghost predicate Placed(place: seq<Place>, tasks: seq<Task>, worker: Worker, holder: Holder) {
    && (forall i, j | 0 <= i < j < |tasks| :: tasks[i].sample != tasks[j].sample)
    && (forall s: nat | s < |place| :: IsThere(place[s], s, tasks, worker, holder))
    && (forall t | t in tasks :: t.sample < |place| && place[t.sample] == Queued)
    && (worker.Holding? || worker.Wrote? ==> worker.task.sample < |place| && place[worker.task.sample] == Worked)
    && (holder.Admitting? ==> holder.sample < |place| && place[holder.sample] == InHand)
  }

  /** The valve is never closed on a request, but for a stop on its way. */
  ghost predicate ValveOpen(valveOpen: bool, pending: seq<nat>, current: Option<nat>, stopping: nat) {
    current.Some? || pending != [] ==> valveOpen || stopping > 0
  }

  // ----- the steps, as lemmas on the parts of the state

  lemma OrderAfterAdd(requests: seq<Request>, pending: seq<nat>, current: Option<nat>, pushed: nat,
                      history: seq<Task>, r: Request)
    requires InOrder(requests, pending, current, pushed, history)
    ensures InOrder(requests + [r], pending + [|requests|], current, pushed, history)
  {
    hide Grouped;
    if history != [] { assert history[|history| - 1] in history; }
    assert forall i | 0 <= i < |pending| :: pending[i] in pending;
  }

  lemma OrderAfterStart(requests: seq<Request>, pending: seq<nat>, pushed: nat, history: seq<Task>)
    requires InOrder(requests, pending, None, pushed, history) && pending != []
    ensures InOrder(requests, pending[1..], Some(pending[0]), 0, history)
  {
    hide Grouped;
    assert pending[0] in pending && forall p | p in pending[1..] :: p in pending;
  }

  lemma OrderAfterLeaving(requests: seq<Request>, pending: seq<nat>, current: Option<nat>, pushed: nat,
                          history: seq<Task>)
    requires InOrder(requests, pending, current, pushed, history)
    ensures InOrder(requests, pending, None, 0, history)
  {
    hide Grouped;
  }

  lemma OrderWithFewerPending(requests: seq<Request>, pending: seq<nat>, current: Option<nat>, pushed: nat,
                              history: seq<Task>,
                              i: nat)
    requires InOrder(requests, pending, current, pushed, history) && i < |pending|
    ensures InOrder(requests, pending[..i] + pending[i + 1..], current, pushed, history)
  {
    hide Grouped;
    var fewer := pending[..i] + pending[i + 1..];
    assert forall k | 0 <= k < |fewer| :: fewer[k] == if k < i then pending[k] else pending[k + 1];
    assert forall p | p in fewer :: p in pending;
  }

  /** Requests may change in anything but their frame count. */
  ghost predicate SameQuotas(a: seq<Request>, b: seq<Request>) {
    |a| == |b| && forall r | 0 <= r < |a| :: a[r].maxCnt == b[r].maxCnt
  }

  lemma OrderIgnoresProgress(a: seq<Request>, b: seq<Request>, pending: seq<nat>, current: Option<nat>, pushed: nat,
                             history: seq<Task>)
    requires InOrder(a, pending, current, pushed, history) && SameQuotas(a, b)
    ensures InOrder(b, pending, current, pushed, history)
  {
    hide Grouped;
  }

  /** A new task goes on its request's block. */
  lemma OrderAfterPush(requests: seq<Request>, pending: seq<nat>, current: Option<nat>, pushed: nat,
                       history: seq<Task>, t: Task)
    requires InOrder(requests, pending, current, pushed, history) && current.Some?
    requires t.req == current.value && t.index == pushed
    ensures Grouped(history + [t])
    ensures pushed + 1 < Quota(requests[t.req]) ==> InOrder(requests, pending, current, pushed + 1, history + [t])
    ensures InOrder(requests, pending, None, 0, history + [t])
  {
    var longer := history + [t];
    assert forall h | h in longer :: h in history || h == t;
    assert longer[|longer| - 1] == t;
    forall i, j | 0 <= i < j < |longer|
      ensures longer[i].req <= longer[j].req
    {
      if j == |history| { assert history[i].req <= history[|history| - 1].req; }
    }
  }

  lemma CountedAfterPush(requests: seq<Request>, tasks: seq<Task>, worker: Worker, history: seq<Task>, t: Task)
    requires Counted(requests, tasks, worker, history)
    ensures Counted(requests, tasks + [t], worker, history + [t])
  {
    hide CountOf;
    forall r: nat
      ensures WrittenOf(requests, r) + CountOf(tasks + [t], r) + InWork(worker, r) <= CountOf(history + [t], r)
    {
      CountOfPush(tasks, t, r);
      CountOfPush(history, t, r);
    }
  }

  lemma CountedAfterPop(requests: seq<Request>, tasks: seq<Task>, worker: Worker, history: seq<Task>)
    requires Counted(requests, tasks, worker, history) && tasks != [] && (worker.Idle? || worker.Waiting?)
    ensures Counted(requests, tasks[1..], Holding(tasks[0]), history)
  {
    hide CountOf;
    forall r: nat
      ensures WrittenOf(requests, r) + CountOf(tasks[1..], r) + InWork(Holding(tasks[0]), r) <= CountOf(history, r)
    {
      CountOfPop(tasks, r);
    }
  }

  /** A written frame is counted once, within its request's quota. */
  lemma CountedAfterWrite(requests: seq<Request>, tasks: seq<Task>, t: Task, history: seq<Task>)
    requires Counted(requests, tasks, Holding(t), history) && t.req < |requests|
    requires Grouped(history) && forall h | h in history :: h.req < |requests| && h.index < Quota(requests[h.req])
    ensures var done := requests[t.req := requests[t.req].(written := requests[t.req].written + 1)];
            Counted(done, tasks, Wrote(t, requests[t.req].written + 1), history)
    ensures requests[t.req].written + 1 <= Quota(requests[t.req])
  {
    hide CountOf, Grouped;
    TasksWithinQuota(history, requests, t.req);
    assert InWork(Holding(t), t.req) == 1;
  }

  lemma PlacedAfterPull(place: seq<Place>, tasks: seq<Task>, worker: Worker, holder: Holder, req: nat)
    requires Placed(place, tasks, worker, holder) && !holder.Admitting?
    ensures Placed(place + [Released], tasks, worker, Free)
    ensures Placed(place + [InHand], tasks, worker, Admitting(req, |place|))
  {
  }

  lemma PlacedAfterPush(place: seq<Place>, tasks: seq<Task>, worker: Worker, holder: Holder, t: Task)
    requires Placed(place, tasks, worker, holder) && holder.Admitting? && t.sample == holder.sample
    ensures t.sample < |place|
    ensures Placed(place[t.sample := Queued], tasks + [t], worker, Free)
  {
    var more, after := tasks + [t], place[t.sample := Queued];
    assert t in more && forall u :: u in more <==> u in tasks || u == t;
    forall i, j | 0 <= i < j < |more|
      ensures more[i].sample != more[j].sample
    {
      if j == |tasks| { assert tasks[i] in tasks; }
    }
    forall s: nat | s < |after| && after[s] == Queued
      ensures IsQueued(more, s)
    {
      if s != t.sample {
        var u :| u in tasks && u.sample == s;
        assert u in more;
      }
    }
  }

  lemma PlacedAfterPop(place: seq<Place>, tasks: seq<Task>, worker: Worker, holder: Holder)
    requires Placed(place, tasks, worker, holder) && tasks != [] && (worker.Idle? || worker.Waiting?)
    ensures tasks[0].sample < |place| && place[tasks[0].sample] == Queued
    ensures Placed(place[tasks[0].sample := Worked], tasks[1..], Holding(tasks[0]), holder)
  {
    var t, rest, after := tasks[0], tasks[1..], place[tasks[0].sample := Worked];
    assert t in tasks && forall u | u in rest :: u in tasks;
    forall i | 0 <= i < |rest|
      ensures rest[i].sample != t.sample
    {
      assert rest[i] == tasks[i + 1];
    }
    forall s: nat | s < |after| && after[s] == Queued
      ensures IsQueued(rest, s)
    {
      var u :| u in tasks && u.sample == s;
      assert u in rest;
    }
  }

  lemma PlacedAfterRelease(place: seq<Place>, tasks: seq<Task>, worker: Worker, holder: Holder)
    requires Placed(place, tasks, worker, holder) && (worker.Holding? || worker.Wrote?)
    ensures worker.task.sample < |place| && place[worker.task.sample] == Worked
    ensures Placed(place[worker.task.sample := Released], tasks, Idle, holder)
  {
  }

  lemma PlacedAfterDrain(place: seq<Place>, tasks: seq<Task>, worker: Worker, holder: Holder)
    requires Placed(place, tasks, worker, holder) && tasks != []
    ensures tasks[0].sample < |place| && place[tasks[0].sample] == Queued
    ensures Placed(place[tasks[0].sample := Released], tasks[1..], worker, holder)
  {
    var t, rest, after := tasks[0], tasks[1..], place[tasks[0].sample := Released];
    assert t in tasks && forall u | u in rest :: u in tasks;
    forall i | 0 <= i < |rest|
      ensures rest[i].sample != t.sample
    {
      assert rest[i] == tasks[i + 1];
    }
    forall s: nat | s < |after| && after[s] == Queued
      ensures IsQueued(rest, s)
    {
      var u :| u in tasks && u.sample == s;
      assert u in rest;
    }
  }

  lemma AnsweredIgnores(a: seq<Request>, b: seq<Request>, callbacks: seq<Callback>, holder: Holder, worker: Worker)
    requires Answered(a, callbacks, holder, worker)
    requires |a| <= |b| && forall r | 0 <= r < |a| :: b[r].maxCnt == a[r].maxCnt && (a[r].responded ==> b[r].responded)
    ensures Answered(b, callbacks, holder, worker)
  {
  }

  /** Winning the compare-and-swap and scheduling the callback. */
  lemma AnsweredOnce(requests: seq<Request>, callbacks: seq<Callback>, holder: Holder, worker: Worker, r: nat,
                     count: nat)
    requires Answered(requests, callbacks, holder, worker) && r < |requests| && !requests[r].responded
    requires requests[r].maxCnt >= 1 ==> count <= requests[r].maxCnt
    ensures var after := requests[r := requests[r].(responded := true)];
            && Answered(after, callbacks, holder, worker)
            && Answered(after, callbacks + [Callback(r, count)], holder, worker)
  {
    var more := callbacks + [Callback(r, count)];
    assert forall c | c in more :: c in callbacks || c == Callback(r, count);
    forall i, j | 0 <= i < j < |more|
      ensures more[i].req != more[j].req
    {
      if j == |callbacks| { assert callbacks[i] in callbacks; }
    }
  }

  lemma AnsweredAfterReport(requests: seq<Request>, callbacks: seq<Callback>, holder: Holder, worker: Worker,
                            count: nat)
    requires Answered(requests, callbacks, holder, worker) && holder.Reporting?
    requires requests[holder.req].maxCnt >= 1 ==> count <= requests[holder.req].maxCnt
    ensures Answered(requests, callbacks, Free, worker)
    ensures Answered(requests, callbacks + [Callback(holder.req, count)], Free, worker)
  {
    var more := callbacks + [Callback(holder.req, count)];
    assert forall c | c in more :: c in callbacks || c == Callback(holder.req, count);
    forall i, j | 0 <= i < j < |more|
      ensures more[i].req != more[j].req
    {
      if j == |callbacks| { assert callbacks[i] in callbacks; }
    }
  }

  /** Items in the task queue: one more than the limit after a push, and a second one
      if the worker was registered as waiting when the length was read. */
  ghost predicate WithinLimit(tasks: seq<Task>, limit: nat, holder: Holder, seenWaiting: nat) {
    && seenWaiting <= 1 && |tasks| <= limit + 2
    && (holder.Admitting? ==> |tasks| <= limit + seenWaiting)
  }

  /** Has a request got all its tasks. */
  predicate Complete(pushed: nat, requests: seq<Request>, r: nat) { r < |requests| && pushed >= requests[r].maxCnt }

  lemma CountedIgnores(a: seq<Request>, b: seq<Request>, tasks: seq<Task>, worker: Worker, history: seq<Task>)
    requires Counted(a, tasks, worker, history) && |a| <= |b|
    requires forall r | 0 <= r < |b| :: b[r].written == WrittenOf(a, r)
    ensures Counted(b, tasks, worker, history)
  {
  }

  lemma CountedWorker(requests: seq<Request>, tasks: seq<Task>, worker: Worker, next: Worker, history: seq<Task>)
    requires Counted(requests, tasks, worker, history) && !next.Holding?
    ensures Counted(requests, tasks, next, history)
  {
  }

  lemma AnsweredWorker(requests: seq<Request>, callbacks: seq<Callback>, holder: Holder, worker: Worker, next: Worker)
    requires Answered(requests, callbacks, holder, worker)
    requires next.Wrote? ==> next.task.req < |requests|
                             && (requests[next.task.req].maxCnt >= 1 ==> next.count <= requests[next.task.req].maxCnt)
    ensures Answered(requests, callbacks, holder, next)
  {
  }

  lemma AnsweredHolder(requests: seq<Request>, callbacks: seq<Callback>, holder: Holder, next: Holder, worker: Worker)
    requires Answered(requests, callbacks, holder, worker) && (next.Free? || next.Admitting?)
    ensures Answered(requests, callbacks, next, worker)
  {
  }

  lemma AnsweredWrote(requests: seq<Request>, callbacks: seq<Callback>, holder: Holder, worker: Worker)
    requires Answered(requests, callbacks, holder, worker) && worker.Wrote?
    ensures worker.task.req < |requests|
    ensures requests[worker.task.req].maxCnt >= 1 ==> worker.count <= requests[worker.task.req].maxCnt
  {
  }

  lemma PlacedWorker(place: seq<Place>, tasks: seq<Task>, worker: Worker, next: Worker, holder: Holder)
    requires Placed(place, tasks, worker, holder) && worker.Holding? && next.Wrote? && next.task == worker.task
    ensures Placed(place, tasks, next, holder)
  {
  }

  lemma WorkerFree(requests: seq<Request>, tasks: seq<Task>, worker: Worker, next: Worker, history: seq<Task>,
                   callbacks: seq<Callback>, holder: Holder, place: seq<Place>)
    requires Counted(requests, tasks, worker, history) && Answered(requests, callbacks, holder, worker)
    requires Placed(place, tasks, worker, holder) && (worker.Idle? || worker.Waiting?) && (next.Idle? || next.Waiting?)
    ensures Counted(requests, tasks, next, history) && Answered(requests, callbacks, holder, next)
    ensures Placed(place, tasks, next, holder)
  {
  }

  lemma OrderCurrent(requests: seq<Request>, pending: seq<nat>, current: Option<nat>, pushed: nat, history: seq<Task>)
    requires InOrder(requests, pending, current, pushed, history)
    ensures current.Some? ==> current.value < |requests| && pushed < Quota(requests[current.value])
  {
    hide Grouped;
  }

  lemma HistoryFacts(requests: seq<Request>, pending: seq<nat>, current: Option<nat>, pushed: nat, history: seq<Task>)
    requires InOrder(requests, pending, current, pushed, history)
    ensures Grouped(history) && forall h | h in history :: h.req < |requests| && h.index < Quota(requests[h.req])
  {
    hide Grouped;
  }

  lemma Dropped(requests: seq<Request>, r: nat)
    requires r < |requests|
    ensures SameQuotas(requests, requests[r := requests[r].(droppedCnt := requests[r].droppedCnt + 1)])
  {
  }

  /** All tasks ever queued, where every sample is, and whether the worker was
      waiting when the queue length was last read. */
  datatype Ledger = Ledger(history: seq<Task>, place: seq<Place>, seenWaiting: nat)

  lemma NothingOrdered(none: seq<Task>)
    requires none == []
    ensures InOrder([], [], None, 0, none)
  {
  }

  lemma NothingCounted(none: seq<Task>)
    requires none == []
    ensures Counted([], none, Idle, none)
  {
    forall r: nat
      ensures WrittenOf([], r) + CountOf(none, r) + InWork(Idle, r) <= CountOf(none, r)
    {
    }
  }

  lemma NothingAnswered()
    ensures Answered([], [], Free, Idle)
  {
  }

  lemma NothingPlaced(none: seq<Task>)
    requires none == []
    ensures Placed([], none, Idle, Free)
  {
  }

  /** Has a request run out of time: more whole milliseconds passed than it was given. */
  predicate Expired(r: Request, now: int) {
    if now >= r.start then (now - r.start) / 1000 > r.timeoutMs else -((r.start - now) / 1000) > r.timeoutMs
  }

  /** On the clock, in microseconds: a request has run out of time once a whole
      millisecond more than its timeout has passed. */
  lemma ExpiredIs(r: Request, now: int)
    ensures Expired(r, now) <==>
            if now >= r.start then r.timeoutMs < 0 || now - r.start >= 1000 * (r.timeoutMs + 1)
            else r.start - now < 1000 * -r.timeoutMs
  {
  }

  lemma AnsweredClaim(requests: seq<Request>, callbacks: seq<Callback>, holder: Holder, worker: Worker, r: nat)
    requires Answered(requests, callbacks, holder, worker) && r < |requests|
    ensures Answered(requests, callbacks, Claiming(r), worker)
  {
  }

  /** A request whose answer was just won has no callback yet. */
  lemma AnsweredNew(requests: seq<Request>, callbacks: seq<Callback>, holder: Holder, worker: Worker, r: nat)
    requires Answered(requests, callbacks, holder, worker) && r < |requests| && !requests[r].responded
    ensures Answered(requests[r := requests[r].(responded := true)], callbacks, Reporting(r), worker)
  {
  }

  lemma PlacedHolder(place: seq<Place>, tasks: seq<Task>, worker: Worker, holder: Holder, next: Holder)
    requires Placed(place, tasks, worker, holder) && !holder.Admitting? && !next.Admitting?
    ensures Placed(place, tasks, worker, next)
  {
  }

  /** What is written of a request never exceeds its quota. */
  lemma WrittenWithinQuota(requests: seq<Request>, pending: seq<nat>, current: Option<nat>, pushed: nat,
                           tasks: seq<Task>,
                           worker: Worker, history: seq<Task>, r: nat)
    requires InOrder(requests, pending, current, pushed, history) && Counted(requests, tasks, worker, history)
             && r < |requests|
    ensures requests[r].written <= CountOf(history, r) <= Quota(requests[r])
  {
    hide Grouped, CountOf;
    HistoryFacts(requests, pending, current, pushed, history);
    TasksWithinQuota(history, requests, r);
    assert WrittenOf(requests, r) + CountOf(tasks, r) + InWork(worker, r) <= CountOf(history, r);
  }

  lemma OrderPending(requests: seq<Request>, pending: seq<nat>, current: Option<nat>, pushed: nat,
                     history: seq<Task>, i: nat)
    requires InOrder(requests, pending, current, pushed, history) && i < |pending|
    ensures pending[i] < |requests| && forall k | 0 <= k < i :: pending[k] < pending[i]
  {
    hide Grouped;
    assert pending[i] in pending;
  }

  lemma OrderWithoutPending(requests: seq<Request>, pending: seq<nat>, history: seq<Task>)
    requires InOrder(requests, pending, None, 0, history)
    ensures InOrder(requests, [], None, 0, history)
  {
    hide Grouped;
  }

  lemma CountedAfterDrain(requests: seq<Request>, tasks: seq<Task>, worker: Worker, history: seq<Task>)
    requires Counted(requests, tasks, worker, history) && tasks != []
    ensures Counted(requests, tasks[1..], worker, history)
  {
    hide CountOf;
    forall r: nat
      ensures WrittenOf(requests, r) + CountOf(tasks[1..], r) + InWork(worker, r) <= CountOf(history, r)
    {
      CountOfPop(tasks, r);
    }
  }

  lemma AllReleased(place: seq<Place>, tasks: seq<Task>, worker: Worker, holder: Holder)
    requires Placed(place, tasks, worker, holder) && tasks == [] && worker == Idle && holder == Free
    ensures forall s: nat | s < |place| :: place[s] == Released
  {
    forall s: nat | s < |place|
      ensures place[s] == Released
    {
      assert IsThere(place[s], s, tasks, worker, holder);
    }
  }

  // ----- the sweep over the pending requests

  /** An element of the line whose request has run out of time. */
  predicate Overdue(requests: seq<Request>, r: nat, now: int) { r < |requests| && Expired(requests[r], now) }

  /** What becomes of an overdue request. */
  function GivenUp(r: Request): Request { r.(timedOut := true, responded := true) }

  /** The line without its overdue requests. */
  function Unexpired(line: seq<nat>, requests: seq<Request>, now: int): seq<nat> {
    if line == [] then []
    else
      var front, r := line[..|line| - 1], line[|line| - 1];
      Unexpired(front, requests, now) + if Overdue(requests, r, now) then [] else [r]
  }

  /** A count of 0 for each overdue request that nobody answered, in the line's order. */
  function TimeoutAnswers(line: seq<nat>, requests: seq<Request>, now: int): seq<Callback> {
    if line == [] then []
    else
      var front, r := line[..|line| - 1], line[|line| - 1];
      TimeoutAnswers(front, requests, now)
      + if Overdue(requests, r, now) && !requests[r].responded then [Callback(r, 0)] else []
  }

  /** The overdue requests of a line are given up, and no other request changes. */
  ghost predicate Swept(before: seq<Request>, after: seq<Request>, line: seq<nat>, now: int) {
    && |after| == |before|
    && forall r: nat | r < |before| ::
         after[r] == if r in line && Overdue(before, r, now) then GivenUp(before[r]) else before[r]
  }

  lemma SweepStarts(before: seq<Request>, line: seq<nat>, now: int)
    ensures Unexpired(line[..0], before, now) == [] && TimeoutAnswers(line[..0], before, now) == []
    ensures Swept(before, before, line[..0], now)
  {
  }

  /** The line's next request is as it was. */
  lemma NotYetSeen(was: seq<Request>, requests: seq<Request>, line: seq<nat>, k: nat, now: int)
    requires k < |line| && line[k] < |requests| && Swept(was, requests, line[..k], now) && Increasing(line)
    ensures line[k] < |was| && requests[line[k]] == was[line[k]]
  {
  }

  /** One more request of the line is looked at. */
  lemma SweepStep(was: seq<Request>, requests: seq<Request>, line: seq<nat>, k: nat, now: int)
    requires k < |line| && line[k] < |was| && Swept(was, requests, line[..k], now) && requests[line[k]] == was[line[k]]
    ensures var r := line[k];
            if Expired(was[r], now)
            then && Unexpired(line[..k + 1], was, now) == Unexpired(line[..k], was, now)
                 && TimeoutAnswers(line[..k + 1], was, now)
                    == TimeoutAnswers(line[..k], was, now) + (if was[r].responded then [] else [Callback(r, 0)])
                 && Swept(was, requests[r := GivenUp(was[r])], line[..k + 1], now)
            else && Unexpired(line[..k + 1], was, now) == Unexpired(line[..k], was, now) + [r]
                 && TimeoutAnswers(line[..k + 1], was, now) == TimeoutAnswers(line[..k], was, now)
                 && Swept(was, requests, line[..k + 1], now)
  {
    var more := line[..k + 1];
    assert more[..|more| - 1] == line[..k] && more[|more| - 1] == line[k];
    assert more == line[..k] + [line[k]];
  }

  lemma OrderLine(requests: seq<Request>, pending: seq<nat>, current: Option<nat>, pushed: nat, history: seq<Task>)
    requires InOrder(requests, pending, current, pushed, history)
    ensures Increasing(pending) && forall p | p in pending :: p < |requests|
  {
    hide Grouped;
  }

  /** What is left is the line's requests that are not overdue, and they are as before. */
  lemma {:induction false} UnexpiredAre(line: seq<nat>, requests: seq<Request>, now: int, p: nat)
    ensures p in Unexpired(line, requests, now) <==> p in line && !Overdue(requests, p, now)
  {
    if line != [] {
      var front := line[..|line| - 1];
      UnexpiredAre(front, requests, now, p);
      assert line == front + [line[|line| - 1]];
    }
  }

  lemma SweptOnTime(was: seq<Request>, line: seq<nat>, now: int)
    requires forall p | p in line :: p < |was|
    ensures forall p | p in line && now >= was[p].start && was[p].timeoutMs >= 0 ::
              p !in Unexpired(line, was, now) <==> now - was[p].start >= 1000 * (was[p].timeoutMs + 1)
  {
    forall p | p in line
      ensures p !in Unexpired(line, was, now) <==> Expired(was[p], now)
    {
      UnexpiredAre(line, was, now, p);
    }
    forall p | p in line
      ensures now >= was[p].start && was[p].timeoutMs >= 0 ==>
                (Expired(was[p], now) <==> now - was[p].start >= 1000 * (was[p].timeoutMs + 1))
    {
      ExpiredIs(was[p], now);
    }
  }

  lemma SweepEnds(was: seq<Request>, requests: seq<Request>, line: seq<nat>, now: int)
    requires Swept(was, requests, line, now) && forall p | p in line :: p < |was|
    ensures forall p | p in Unexpired(line, was, now) :: p in line && p < |requests| && !Expired(requests[p], now)
  {
    forall p | p in Unexpired(line, was, now)
      ensures p in line && p < |requests| && !Expired(requests[p], now)
    {
      UnexpiredAre(line, was, now, p);
    }
  }

  class Engine {
    const limit: nat
    const hasCallback: bool
    var requests: seq<Request>
    var pending: seq<nat>
    var current: Option<nat>
    var pushed: nat
    var tasks: seq<Task>
    var worker: Worker
    var holder: Holder
    var valveOpen: bool
    var stopping: nat
    var callbacks: seq<Callback>
    var pulled: nat

    ghost var ledger: Ledger

    ghost predicate Valid()
      reads this
    {
      && InOrder(requests, pending, current, pushed, ledger.history)
      && Counted(requests, tasks, worker, ledger.history)
      && Answered(requests, callbacks, holder, worker)
      && Placed(ledger.place, tasks, worker, holder) && |ledger.place| == pulled
      && ValveOpen(valveOpen, pending, current, stopping)
      && WithinLimit(tasks, limit, holder, ledger.seenWaiting)
      && (forall t | t in tasks :: t.req < |requests|)
      && (worker.Holding? || worker.Wrote? ==> worker.task.req < |requests|)
      && (holder.Admitting? ==> current == Some(holder.req))
      && (holder.Claiming? || holder.Reporting? ==> current == Some(holder.req))
    }

    constructor (queueLimit: nat, callback: bool)
      ensures Valid() && limit == queueLimit && hasCallback == callback && holder == Free && worker == Idle
      ensures requests == [] && tasks == [] && pending == [] && current == None && pulled == 0
    {
      hide InOrder, Counted, Answered, Placed;
      limit, hasCallback := queueLimit, callback;
      requests, pending, current, pushed, tasks, worker, holder := [], [], None, 0, [], Idle, Free;
      valveOpen, stopping, callbacks, pulled := false, 0, [], 0;
      ledger := Ledger([], [], 0);
      new;
      NothingOrdered(ledger.history);
      NothingCounted(tasks);
      NothingAnswered();
      NothingPlaced(tasks);
    }

    // ----- requests

    /** addCaptureRequest. */
    method AddRequest(maxCnt: int, start: int, timeoutMs: int) returns (id: nat)
      requires Valid() && holder == Free
      modifies this
      ensures Valid() && holder == Free
      ensures id == |old(requests)|
      ensures requests == old(requests) + [Request(maxCnt, start, timeoutMs, 0, false, false, 0)]
      ensures pending == old(pending) + [id] && valveOpen
      ensures unchanged(this`current, this`pushed, this`tasks, this`worker, this`stopping, this`callbacks, this`pulled)
    {
      hide InOrder, Counted, Answered, Placed;
      var r := Request(maxCnt, start, timeoutMs, 0, false, false, 0);
      OrderAfterAdd(requests, pending, current, pushed, ledger.history, r);
      CountedIgnores(requests, requests + [r], tasks, worker, ledger.history);
      AnsweredIgnores(requests, requests + [r], callbacks, holder, worker);
      id := |requests|;
      requests := requests + [r];
      pending := pending + [id];
      valveOpen := true;
    }

    // ----- samples

    /** If no request is current, the next one in line starts. */
    method StartNext()
      requires Valid() && holder == Free
      modifies this`current, this`pending, this`pushed
      ensures Valid() && (current == None ==> pending == [])
      ensures old(current).Some? || old(pending) == [] ==> unchanged(this`current, this`pending, this`pushed)
      ensures old(current) == None && old(pending) != [] ==>
                current == Some(old(pending)[0]) && pending == old(pending)[1..] && pushed == 0
    {
      hide InOrder, Counted, Answered, Placed;
      if current == None && pending != [] {
        OrderAfterStart(requests, pending, pushed, ledger.history);
        current, pending, pushed := Some(pending[0]), pending[1..], 0;
      }
    }

    /** A sample is dropped for the length of the queue. */
    method DropForLength()
      requires Valid() && holder == Free && current.Some?
      modifies this`requests
      ensures Valid() && SameQuotas(old(requests), requests) && current.value < |old(requests)|
      ensures var r := current.value;
              requests == old(requests)[r := old(requests)[r].(droppedCnt := old(requests)[r].droppedCnt + 1)]
    {
      hide InOrder, Counted, Answered, Placed;
      OrderCurrent(requests, pending, current, pushed, ledger.history);
      Dropped(requests, current.value);
      var r := requests[current.value];
      var more := requests[current.value := r.(droppedCnt := r.droppedCnt + 1)];
      OrderIgnoresProgress(requests, more, pending, current, pushed, ledger.history);
      CountedIgnores(requests, more, tasks, worker, ledger.history);
      AnsweredIgnores(requests, more, callbacks, holder, worker);
      requests := more;
    }

    /** on_new_sample_to_file up to the decision: the next request is started if none
        is current; a sample is dropped without one, or if the queue is too long. */
    method BeginSample() returns (admitted: bool)
      requires Valid() && holder == Free
      modifies this
      ensures Valid() && pulled == old(pulled) + 1
      ensures admitted <==> (old(current).Some? || old(pending) != [])
                            && |tasks| - (if worker.Waiting? then 1 else 0) <= limit
      ensures admitted ==> holder.Admitting? && holder.sample == old(pulled) && current == Some(holder.req)
      ensures admitted ==> requests == old(requests) && ledger.seenWaiting == if worker.Waiting? then 1 else 0
      ensures admitted && |tasks| == limit + 1 ==> worker.Waiting?
      ensures !admitted && current == None ==> !valveOpen
      ensures !admitted ==> holder == Free && |ledger.place| > old(pulled) && ledger.place[old(pulled)] == Released
      ensures old(current).Some? ==> current == old(current) && pending == old(pending) && pushed == old(pushed)
      ensures old(current) == None && old(pending) != [] ==>
                current == Some(old(pending)[0]) && pending == old(pending)[1..] && pushed == 0
      ensures unchanged(this`tasks, this`worker, this`callbacks, this`stopping) && ledger.history == old(ledger).history
      ensures SameQuotas(old(requests), requests)
    {
      hide Valid;
      StartNext();
      if current == None {
        ReleaseSample();
        CloseValve();
        return false;
      }
      if |tasks| - (if worker.Waiting? then 1 else 0) > limit {
        DropForLength();
        ReleaseSample();
        return false;
      }
      Admit();
      return true;
    }

    method CloseValve()
      requires Valid() && current == None && pending == []
      modifies this`valveOpen
      ensures Valid() && !valveOpen
    {
      hide InOrder, Counted, Answered, Placed;
      valveOpen := false;
    }

    /** The sample just pulled is released at once. */
    method ReleaseSample()
      requires Valid() && holder == Free
      modifies this`pulled, this`ledger
      ensures Valid() && pulled == old(pulled) + 1
      ensures ledger == old(ledger).(place := old(ledger).place + [Released]) && |old(ledger).place| == old(pulled)
    {
      hide InOrder, Counted, Answered, Placed;
      PlacedAfterPull(ledger.place, tasks, worker, holder, 0);
      pulled := pulled + 1;
      ledger := ledger.(place := ledger.place + [Released]);
    }

    /** The sample just pulled is to become a task. */
    method Admit()
      requires Valid() && holder == Free && current.Some? && |tasks| - (if worker.Waiting? then 1 else 0) <= limit
      modifies this`pulled, this`ledger, this`holder
      ensures Valid() && pulled == old(pulled) + 1 && holder == Admitting(current.value, old(pulled))
      ensures ledger.history == old(ledger).history && ledger.seenWaiting == if worker.Waiting? then 1 else 0
    {
      hide InOrder, Counted, Answered, Placed;
      PlacedAfterPull(ledger.place, tasks, worker, holder, current.value);
      AnsweredHolder(requests, callbacks, holder, Admitting(current.value, pulled), worker);
      holder := Admitting(current.value, pulled);
      pulled := pulled + 1;
      ledger := ledger.(place := ledger.place + [InHand], seenWaiting := if worker.Waiting? then 1 else 0);
    }

    /** The rest of it: the task is queued and counted; with its last task the request
        is let go, and the valve closed if no other waits. */
    method FinishSample()
      requires Valid() && holder.Admitting?
      modifies this
      ensures Valid() && holder == Free
      ensures |tasks| <= limit + 1 + ledger.seenWaiting && ledger.seenWaiting == old(ledger).seenWaiting
      ensures |tasks| > limit + 1 <==> |old(tasks)| == limit + 1
      ensures var t := Task(old(holder).req, old(pushed), old(holder).sample);
              tasks == old(tasks) + [t] && ledger.history == old(ledger).history + [t]
      ensures Complete(old(pushed) + 1, old(requests), old(holder).req) ==> current == None
      ensures !Complete(old(pushed) + 1, old(requests), old(holder).req) ==>
              current == old(current) && pushed == old(pushed) + 1
      ensures current == None && pending == [] ==> !valveOpen
      ensures unchanged(this`requests, this`pending, this`worker, this`callbacks, this`pulled, this`stopping)
    {
      hide InOrder, Counted, Answered, Placed, Grouped;
      OrderCurrent(requests, pending, current, pushed, ledger.history);
      var t := Task(holder.req, pushed, holder.sample);
      OrderAfterPush(requests, pending, current, pushed, ledger.history, t);
      CountedAfterPush(requests, tasks, worker, ledger.history, t);
      PlacedAfterPush(ledger.place, tasks, worker, holder, t);
      AnsweredHolder(requests, callbacks, holder, Free, worker);
      tasks := tasks + [t];
      ledger := ledger.(place := ledger.place[t.sample := Queued], history := ledger.history + [t]);
      holder := Free;
      pushed := pushed + 1;
      if pushed >= requests[t.req].maxCnt {
        LeaveCurrent();
      }
    }

    // ----- the worker

    /** g_async_queue_timeout_pop: an item if there is one, else wait. */
    method WorkerPop() returns (got: bool)
      requires Valid() && (worker == Idle || worker == Waiting)
      modifies this
      ensures Valid() && got == (old(tasks) != [])
      ensures if got then worker == Holding(old(tasks)[0]) && tasks == old(tasks)[1..]
              else worker == Waiting && tasks == []
      ensures unchanged(this`requests, this`pending, this`current, this`pushed, this`holder, this`callbacks,
                        this`pulled)
      ensures unchanged(this`valveOpen, this`stopping) && ledger == old(ledger).(place := ledger.place)
    {
      hide InOrder, Counted, Answered, Placed;
      got := tasks != [];
      if got {
        CountedAfterPop(requests, tasks, worker, ledger.history);
        PlacedAfterPop(ledger.place, tasks, worker, holder);
        AnsweredWorker(requests, callbacks, holder, worker, Holding(tasks[0]));
        ledger := ledger.(place := ledger.place[tasks[0].sample := Worked]);
        worker, tasks := Holding(tasks[0]), tasks[1..];
      } else {
        WorkerFree(requests, tasks, worker, Waiting, ledger.history, callbacks, holder, ledger.place);
        worker := Waiting;
      }
    }

    /** The wait ends without an item. */
    method WorkerGivesUp()
      requires Valid() && worker == Waiting
      modifies this`worker
      ensures Valid() && worker == Idle
    {
      hide InOrder, Counted, Answered, Placed;
      WorkerFree(requests, tasks, worker, Idle, ledger.history, callbacks, holder, ledger.place);
      worker := Idle;
    }

    /** A task whose request timed out is skipped. */
    method WorkerSkips()
      requires Valid() && worker.Holding? && requests[worker.task.req].timedOut
      modifies this
      ensures Valid() && worker == Idle && ledger.place == old(ledger).place[old(worker).task.sample := Released]
      ensures unchanged(this`requests, this`tasks, this`callbacks, this`current, this`pending, this`holder)
    {
      Release();
    }

    /** The frame could not be written: only the sample is released. */
    method WorkerFails()
      requires Valid() && worker.Holding?
      modifies this`worker, this`ledger
      ensures Valid() && worker == Idle && ledger.place == old(ledger).place[old(worker).task.sample := Released]
    {
      Release();
    }

    /** The frame was written: the request's count goes up. */
    method WorkerWrites()
      requires Valid() && worker.Holding?
      modifies this
      ensures Valid() && |requests| == |old(requests)| && old(worker).task.req < |requests|
      ensures worker == Wrote(old(worker).task, requests[old(worker).task.req].written)
      ensures var r := old(worker).task.req;
              requests == old(requests)[r := old(requests)[r].(written := old(requests)[r].written + 1)]
      ensures unchanged(this`tasks, this`callbacks, this`current, this`pending, this`holder, this`ledger)
    {
      hide InOrder, Counted, Answered, Placed;
      var t := worker.task;
      var count := requests[t.req].written + 1;
      HistoryFacts(requests, pending, current, pushed, ledger.history);
      CountedAfterWrite(requests, tasks, t, ledger.history);
      var done := requests[t.req := requests[t.req].(written := count)];
      OrderIgnoresProgress(requests, done, pending, current, pushed, ledger.history);
      AnsweredIgnores(requests, done, callbacks, holder, worker);
      AnsweredWorker(done, callbacks, holder, worker, Wrote(t, count));
      PlacedWorker(ledger.place, tasks, worker, Wrote(t, count), holder);
      requests := done;
      worker := Wrote(t, count);
    }

    /** With the last frame of its request, the worker answers it if nobody did; then
        the sample is released. */
    method WorkerFinishes()
      requires Valid() && worker.Wrote?
      modifies this
      ensures Valid() && worker == Idle && ledger.place == old(ledger).place[old(worker).task.sample := Released]
      ensures var r, c := old(worker).task.req, old(worker).count;
              var claims := c >= old(requests)[r].maxCnt && !old(requests)[r].responded;
              && requests == (if claims then old(requests)[r := old(requests)[r].(responded := true)]
                              else old(requests))
              && callbacks == old(callbacks) + (if claims && hasCallback then [Callback(r, c)] else [])
    {
      hide InOrder, Counted, Answered, Placed;
      var r, count := worker.task.req, worker.count;
      if count >= requests[r].maxCnt && !requests[r].responded {
        var after := requests[r := requests[r].(responded := true)];
        AnsweredWrote(requests, callbacks, holder, worker);
        AnsweredOnce(requests, callbacks, holder, worker, r, count);
        OrderIgnoresProgress(requests, after, pending, current, pushed, ledger.history);
        CountedIgnores(requests, after, tasks, worker, ledger.history);
        requests := after;
        if hasCallback {
          callbacks := callbacks + [Callback(r, count)];
        }
      }
      Release();
    }

    method Release()
      requires Valid() && (worker.Holding? || worker.Wrote?)
      modifies this`worker, this`ledger
      ensures Valid() && worker == Idle && ledger.place == old(ledger).place[old(worker).task.sample := Released]
    {
      hide InOrder, Counted, Answered, Placed;
      PlacedAfterRelease(ledger.place, tasks, worker, holder);
      CountedWorker(requests, tasks, worker, Idle, ledger.history);
      AnsweredWorker(requests, callbacks, holder, worker, Idle);
      ledger := ledger.(place := ledger.place[worker.task.sample := Released]);
      worker := Idle;
    }

    // ----- timeouts

    /** checkTimeout, the current request: it is marked, if it has expired. */
    method TimeoutCurrent(now: int) returns (expired: bool)
      requires Valid() && holder == Free
      modifies this`requests, this`holder
      ensures Valid() && expired == (current.Some? && current.value < |old(requests)|
                                     && Expired(old(requests)[current.value], now))
      ensures current.Some? ==>
                && current.value < |old(requests)|
                && var r := old(requests)[current.value];
                now >= r.start && r.timeoutMs >= 0 ==> (expired <==> now - r.start >= 1000 * (r.timeoutMs + 1))
      ensures if expired then holder == Claiming(current.value) && |requests| == |old(requests)|
                              && requests ==
                                 old(requests)[current.value := old(requests)[current.value].(timedOut := true)]
              else holder == Free && requests == old(requests)
    {
      hide InOrder, Counted, Answered, Placed;
      OrderCurrent(requests, pending, current, pushed, ledger.history);
      expired := current.Some? && Expired(requests[current.value], now);
      if current.Some? { ExpiredIs(requests[current.value], now); }
      if expired {
        MarkRequest(current.value, requests[current.value].(timedOut := true));
        AnsweredClaim(requests, callbacks, holder, worker, current.value);
        PlacedHolder(ledger.place, tasks, worker, holder, Claiming(current.value));
        holder := Claiming(current.value);
      }
    }

    /** A request's flags change; what it was asked for and has written does not. */
    method MarkRequest(r: nat, next: Request)
      requires Valid() && r < |requests|
      requires next == requests[r].(timedOut := next.timedOut, responded := next.responded)
      requires requests[r].responded ==> next.responded
      modifies this`requests
      ensures Valid() && requests == old(requests)[r := next]
    {
      hide InOrder, Counted, Answered, Placed;
      var after := requests[r := next];
      OrderIgnoresProgress(requests, after, pending, current, pushed, ledger.history);
      CountedIgnores(requests, after, tasks, worker, ledger.history);
      AnsweredIgnores(requests, after, callbacks, holder, worker);
      requests := after;
    }

    /** The compare-and-swap on its answer, against the worker's. */
    method TimeoutClaims() returns (won: bool)
      requires Valid() && holder.Claiming?
      modifies this
      ensures Valid() && |old(requests)| == |requests| && old(holder).req < |requests|
      ensures won == !old(requests)[old(holder).req].responded
      ensures if won && hasCallback then holder == Reporting(old(holder).req) && current == old(current)
              else holder == Free && current == None
      ensures requests == old(requests)[old(holder).req := old(requests)[old(holder).req].(responded := true)]
      ensures unchanged(this`callbacks, this`pending, this`tasks, this`worker, this`ledger)
    {
      hide InOrder, Counted, Answered, Placed;
      var r := holder.req;
      OrderCurrent(requests, pending, current, pushed, ledger.history);
      won := !requests[r].responded;
      if won {
        AnsweredOnce(requests, callbacks, holder, worker, r, 0);
        AnsweredNew(requests, callbacks, holder, worker, r);
        MarkRequest(r, requests[r].(responded := true));
        if hasCallback {
          PlacedHolder(ledger.place, tasks, worker, holder, Reporting(r));
          holder := Reporting(r);
          return;
        }
      }
      AnsweredHolder(requests, callbacks, holder, Free, worker);
      PlacedHolder(ledger.place, tasks, worker, holder, Free);
      OrderAfterLeaving(requests, pending, current, pushed, ledger.history);
      LeaveCurrent();
    }

    /** The callback with what is written by now; the request is let go. */
    method TimeoutReports()
      requires Valid() && holder.Reporting?
      modifies this
      ensures Valid() && holder == Free && current == None && (pending == [] ==> !valveOpen)
              && old(holder).req < |requests|
      ensures callbacks == old(callbacks) + [Callback(old(holder).req, requests[old(holder).req].written)]
      ensures unchanged(this`requests, this`pending, this`tasks, this`worker, this`ledger)
    {
      hide InOrder, Counted, Answered, Placed;
      var r := holder.req;
      OrderCurrent(requests, pending, current, pushed, ledger.history);
      WrittenWithinQuota(requests, pending, current, pushed, tasks, worker, ledger.history, r);
      AnsweredAfterReport(requests, callbacks, holder, worker, requests[r].written);
      callbacks := callbacks + [Callback(r, requests[r].written)];
      PlacedHolder(ledger.place, tasks, worker, holder, Free);
      OrderAfterLeaving(requests, pending, current, pushed, ledger.history);
      LeaveCurrent();
    }

    method LeaveCurrent()
      requires InOrder(requests, pending, None, 0, ledger.history)
      requires Counted(requests, tasks, worker, ledger.history)
      requires Answered(requests, callbacks, Free, worker)
      requires Placed(ledger.place, tasks, worker, Free) && |ledger.place| == pulled
      requires ValveOpen(valveOpen, pending, current, stopping)
      requires WithinLimit(tasks, limit, Free, ledger.seenWaiting)
      requires forall t | t in tasks :: t.req < |requests|
      requires worker.Holding? || worker.Wrote? ==> worker.task.req < |requests|
      modifies this`holder, this`current, this`pushed, this`valveOpen
      ensures Valid() && holder == Free && current == None && (pending == [] ==> !valveOpen)
    {
      hide InOrder, Counted, Answered, Placed;
      holder, current, pushed := Free, None, 0;
      if pending == [] {
        valveOpen := false;
      }
    }

    /** checkTimeout, the pending requests: every expired one is marked, answered with
        0 frames unless it was, and leaves the line; the others keep their order. */
    method TimeoutPending(now: int)
      requires Valid() && holder == Free
      modifies this`requests, this`pending, this`callbacks
      ensures Valid() && pending == Unexpired(old(pending), old(requests), now)
      ensures Swept(old(requests), requests, old(pending), now)
      ensures callbacks == old(callbacks) + if hasCallback then TimeoutAnswers(old(pending), old(requests), now) else []
      ensures forall p | p in pending :: p in old(pending) && p < |requests| && !Expired(requests[p], now)
      ensures forall p | p in old(pending) ::
                && p < |old(requests)|
                && var r := old(requests)[p];
                now >= r.start && r.timeoutMs >= 0 ==> (p !in pending <==> now - r.start >= 1000 * (r.timeoutMs + 1))
    {
      hide InOrder, Counted, Answered, Placed, Unexpired, TimeoutAnswers, Swept, Increasing, Expired;
      ghost var was, line, answers := requests, pending, callbacks;
      ghost var k := 0;
      var i := 0;
      OrderLine(requests, pending, current, pushed, ledger.history);
      SweepStarts(was, line, now);
      while i < |pending|
        invariant Valid() && k <= |line| && i == |Unexpired(line[..k], was, now)|
        invariant pending == Unexpired(line[..k], was, now) + line[k..]
        invariant Swept(was, requests, line[..k], now)
        invariant callbacks == answers + if hasCallback then TimeoutAnswers(line[..k], was, now) else []
        decreases |line| - k
      {
        var r := pending[i];
        OrderPending(requests, pending, current, pushed, ledger.history, i);
        assert pending[i..] == line[k..] && r == line[k];
        NotYetSeen(was, requests, line, k, now);
        SweepStep(was, requests, line, k, now);
        if Expired(requests[r], now) {
          assert pending[..i] + pending[i + 1..] == Unexpired(line[..k], was, now) + line[k + 1..];
          ExpirePending(i);
        } else {
          i := i + 1;
        }
        k := k + 1;
      }
      assert line[..k] == line;
      SweepEnds(was, requests, line, now);
      SweptOnTime(was, line, now);
    }

    /** One expired request leaves the line, marked and answered. */
    method ExpirePending(i: nat)
      requires Valid() && holder == Free && i < |pending|
      modifies this`requests, this`pending, this`callbacks
      ensures Valid() && pending == old(pending)[..i] + old(pending)[i + 1..]
      ensures var r := old(pending)[i];
              && r < |old(requests)| && requests == old(requests)[r := GivenUp(old(requests)[r])]
              && callbacks ==
                 old(callbacks) + (if !old(requests)[r].responded && hasCallback then [Callback(r, 0)] else [])
    {
      hide InOrder, Counted, Answered, Placed;
      var r := pending[i];
      OrderPending(requests, pending, current, pushed, ledger.history, i);
      MarkRequest(r, requests[r].(timedOut := true));
      if !requests[r].responded {
        AnsweredOnce(requests, callbacks, holder, worker, r, 0);
        var after := requests[r].(responded := true);
        MarkRequest(r, after);
        if hasCallback {
          callbacks := callbacks + [Callback(r, 0)];
        }
      }
      OrderWithFewerPending(requests, pending, current, pushed, ledger.history, i);
      pending := pending[..i] + pending[i + 1..];
    }

    // ----- stop

    /** stopCapture closes the valve before it takes the mutex. */
    method StopCloses()
      requires Valid()
      modifies this`valveOpen, this`stopping
      ensures Valid() && !valveOpen && stopping == old(stopping) + 1
    {
      hide InOrder, Counted, Answered, Placed;
      valveOpen := false;
      stopping := stopping + 1;
    }

    /** Its locked section: no request is left. */
    method StopClears()
      requires Valid() && holder == Free && stopping > 0
      modifies this`current, this`pending, this`pushed, this`stopping
      ensures Valid() && current == None && pending == [] && stopping == old(stopping) - 1
    {
      hide InOrder, Counted, Answered, Placed;
      OrderAfterLeaving(requests, pending, current, pushed, ledger.history);
      OrderWithoutPending(requests, pending, ledger.history);
      current, pending, pushed, stopping := None, [], 0, stopping - 1;
    }

    /** The destructor's drain, once the worker is joined: every sample pulled for file
        output has then been released. */
    method Drain()
      requires Valid() && holder == Free && worker == Idle
      modifies this`tasks, this`ledger
      ensures Valid() && tasks == []
      ensures forall s: nat | s < pulled :: s < |ledger.place| && ledger.place[s] == Released
    {
      hide InOrder, Counted, Answered, Placed;
      while tasks != []
        invariant Valid()
        decreases |tasks|
      {
        PlacedAfterDrain(ledger.place, tasks, worker, holder);
        CountedAfterDrain(requests, tasks, worker, ledger.history);
        ledger := ledger.(place := ledger.place[tasks[0].sample := Released]);
        tasks := tasks[1..];
      }
      AllReleased(ledger.place, tasks, worker, holder);
    }
  }

  /** The queue can hold two tasks more than the limit: the length read is that of
      the queue less the waiting worker, and a worker that sleeps on while frames
      arrive still counts as waiting. */
  method SleepingWorkerOverfills(limit: nat) returns (e: Engine)
    ensures e.Valid() && e.limit == limit && e.worker == Waiting && |e.tasks| == limit + 2
  {
    e := new Engine(limit, true);
    var got := e.WorkerPop();
    var id := e.AddRequest(limit + 3, 0, 5000);
    while |e.tasks| < limit + 2
      invariant fresh(e) && e.limit == limit && e.Valid() && e.holder == Free && e.worker == Waiting
                && |e.tasks| <= limit + 2
      invariant |e.requests| == 1 && e.requests[0].maxCnt == limit + 3
      invariant if e.tasks == [] then e.current == None && e.pending == [0]
                else e.current == Some(0) && e.pushed == |e.tasks|
      decreases limit + 2 - |e.tasks|
    {
      var admitted := e.BeginSample();
      e.FinishSample();
    }
  }
}
