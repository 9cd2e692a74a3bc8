/** The resolver's thread pool (src/thread_resolve.c:94-251) as a state machine. A step is one
    critical section under the mutex, or one unlocked read of the stop flag; steps of different
    threads interleave in any order. A signal wakes at least one waiting thread, and threads may also
    wake without a signal. */
module Resolver {
  import opened Bytes

  // One element of the request list; the serial number says which.
  datatype Ticket = Ticket(serial: nat, addr: Address)

  datatype Worker =
    | Top                    // about to test the stop flag
    | WantLock               // about to lock the mutex and look at the list
    | Waiting                // in pthread_cond_wait
    | Woken                  // woken, about to get the mutex back
    | Resolving(t: Ticket)   // calling gethostbyaddr_r, without the mutex
    | Reporting(t: Ticket)   // about to lock the mutex and tell the cache
    | Exited

  // The last four fields record the history of the pool; no step depends on them.
  datatype Pool = Pool(workers: seq<Worker>, queue: seq<Ticket>, stop: bool,
                       enqueued: seq<Ticket>, taken: seq<Ticket>, answered: multiset<Ticket>, abandoned: multiset<Ticket>)

  function Init(threads: nat): Pool {
    Pool(seq(threads, _ => Top), [], false, [], [], multiset{}, multiset{})
  }

  datatype Event =
    | Enter(w: nat)          // while (!request_stop_thread)
    | Lock(w: nat)           // the first critical section, up to the wait or the first unlock
    | Resume(w: nat)         // the rest of it, after the wait
    | Resolved(w: nat)       // gethostbyaddr_r returns, and the stop flag is tested
    | Report(w: nat)         // the second critical section
    | Spurious(w: nat)       // pthread_cond_wait returns on its own
    | Enqueue(addr: Address, woken: nat -> bool)
    | StopAll

  predicate Live(p: Pool, w: nat) {
    w < |p.workers|
  }

  ghost predicate AnyWaiting(ws: seq<Worker>) {
    exists i :: 0 <= i < |ws| && ws[i] == Waiting
  }

  ghost predicate Enabled(p: Pool, e: Event) {
    match e
    case Enter(w) => Live(p, w) && p.workers[w] == Top
    case Lock(w) => Live(p, w) && p.workers[w] == WantLock
    case Resume(w) => Live(p, w) && p.workers[w] == Woken
    case Resolved(w) => Live(p, w) && p.workers[w].Resolving?
    case Report(w) => Live(p, w) && p.workers[w].Reporting?
    case Spurious(w) => Live(p, w) && p.workers[w] == Waiting
    case Enqueue(_, woken) => AnyWaiting(p.workers) ==> exists i: nat :: woken(i) && i < |p.workers| && p.workers[i] == Waiting
    case StopAll => true
  }

  function Set(p: Pool, w: nat, x: Worker): Pool
    requires Live(p, w)
  {
    p.(workers := p.workers[w := x])
  }

  function Wake(ws: seq<Worker>, woken: nat -> bool): (r: seq<Worker>)
    ensures |r| == |ws|
  {
    seq(|ws|, i requires 0 <= i < |ws| => if woken(i) && ws[i] == Waiting then Woken else ws[i])
  }

  // The part of the first critical section after the wait
  function TakeOrLeave(p: Pool, w: nat): Pool
    requires Live(p, w)
  {
    if p.stop then Set(p, w, Exited)
    else if p.queue != [] then
      Set(p, w, Resolving(p.queue[0])).(queue := p.queue[1..], taken := p.taken + [p.queue[0]])
    else Set(p, w, Top)
  }

  function Step(p: Pool, e: Event): Pool
    requires Enabled(p, e)
  {
    match e
    case Enter(w) => Set(p, w, if p.stop then Exited else WantLock)
    case Lock(w) => if !p.stop && p.queue == [] then Set(p, w, Waiting) else TakeOrLeave(p, w)
    case Resume(w) => TakeOrLeave(p, w)
    case Resolved(w) =>
      var t := p.workers[w].t;
      if p.stop then Set(p, w, Exited).(abandoned := p.abandoned + multiset{t}) else Set(p, w, Reporting(t))
    case Report(w) => Set(p, w, Top).(answered := p.answered + multiset{p.workers[w].t})
    case Spurious(w) => Set(p, w, Woken)
    case Enqueue(addr, woken) =>
      var t := Ticket(|p.enqueued|, addr);
      p.(workers := Wake(p.workers, woken), queue := p.queue + [t], enqueued := p.enqueued + [t])
    case StopAll =>
      p.(stop := true, workers := Wake(p.workers, _ => true))
  }

  // ---- sums over the workers ----

  function Sum(ws: seq<Worker>, f: Worker -> nat): nat {
    if ws == [] then 0 else f(ws[0]) + Sum(ws[1..], f)
  }

  lemma {:induction false} SumUpdate(ws: seq<Worker>, f: Worker -> nat, w: nat, x: Worker)
    requires w < |ws|
    ensures Sum(ws[w := x], f) == Sum(ws, f) - f(ws[w]) + f(x)
  {
    if w == 0 {
      assert ws[w := x][1..] == ws[1..];
    } else {
      assert ws[w := x][1..] == ws[1..][w - 1 := x];
      SumUpdate(ws[1..], f, w - 1, x);
    }
  }

  lemma {:induction false} SumAtLeast(ws: seq<Worker>, f: Worker -> nat, w: nat)
    requires w < |ws|
    ensures Sum(ws, f) >= f(ws[w])
  {
    if w > 0 {
      SumAtLeast(ws[1..], f, w - 1);
    }
  }

  // 1 for a woken thread
  function WokenOnly(): Worker -> nat {
    w => if w == Woken then 1 else 0
  }

  lemma {:induction false} WakeCounts(ws: seq<Worker>, woken: nat -> bool, k: nat)
    requires k <= |ws|
    ensures Sum(Wake(ws, woken)[k..], WokenOnly()) >= Sum(ws[k..], WokenOnly())
    ensures (exists i: nat :: woken(i) && k <= i < |ws| && ws[i] == Waiting) ==>
              Sum(Wake(ws, woken)[k..], WokenOnly()) > Sum(ws[k..], WokenOnly())
    decreases |ws| - k
  {
    if k < |ws| {
      WakeCounts(ws, woken, k + 1);
      assert ws[k..][1..] == ws[k+1..] && Wake(ws, woken)[k..][1..] == Wake(ws, woken)[k+1..];
    }
  }

  // 1 for a thread that works on this request
  function Holding(t: Ticket): Worker -> nat {
    (w: Worker) => if (w.Resolving? || w.Reporting?) && w.t == t then 1 else 0
  }

  // 1 for a thread that works on some request
  function Busy(): Worker -> nat {
    (w: Worker) => if w.Resolving? || w.Reporting? then 1 else 0
  }

  lemma {:induction false} WakeHolds(ws: seq<Worker>, woken: nat -> bool, k: nat, t: Ticket)
    requires k <= |ws|
    ensures Sum(Wake(ws, woken)[k..], Holding(t)) == Sum(ws[k..], Holding(t))
    ensures Sum(Wake(ws, woken)[k..], Busy()) == Sum(ws[k..], Busy())
    decreases |ws| - k
  {
    if k < |ws| {
      WakeHolds(ws, woken, k + 1, t);
      assert ws[k..][1..] == ws[k+1..] && Wake(ws, woken)[k..][1..] == Wake(ws, woken)[k+1..];
    }
  }

  // ---- what every step keeps ----

  /** While any thread waits, there are at least as many woken threads as queued requests. */
  ghost predicate WakeupsOk(p: Pool) {
    AnyWaiting(p.workers) ==> |p.queue| <= Sum(p.workers, WokenOnly())
  }

  /** Threads wait only while the pool is not stopped, and exit only once it is. */
  ghost predicate StopOk(p: Pool) {
    && (p.stop ==> !AnyWaiting(p.workers))
    && (!p.stop ==> p.abandoned == multiset{} && forall i :: 0 <= i < |p.workers| ==> p.workers[i] != Exited)
  }

  // How often a request was taken, and what became of it
  predicate Accounted(p: Pool, t: Ticket) {
    multiset(p.taken)[t] == Sum(p.workers, Holding(t)) + p.answered[t] + p.abandoned[t]
  }

  /** What was enqueued is what was taken and then what is queued, in order and each request once; what
      was taken is in flight, answered or abandoned. */
  ghost predicate FifoOk(p: Pool) {
    && p.enqueued == p.taken + p.queue
    && (forall i :: 0 <= i < |p.enqueued| ==> p.enqueued[i].serial == i)
    && (forall t: Ticket :: Accounted(p, t))
    && |p.taken| == Sum(p.workers, Busy()) + |p.answered| + |p.abandoned|
  }

  ghost predicate Inv(p: Pool) {
    WakeupsOk(p) && StopOk(p) && FifoOk(p)
  }

  lemma {:induction false} InitHoldsNone(n: nat, t: Ticket)
    ensures Sum(seq(n, _ => Top), Holding(t)) == Sum(seq(n, _ => Top), Busy()) == 0
  {
    if n > 0 {
      assert seq(n, _ => Top)[1..] == seq(n - 1, _ => Top);
      InitHoldsNone(n - 1, t);
    }
  }

  lemma InitInv(threads: nat)
    ensures Inv(Init(threads))
  {
    forall t: Ticket ensures Accounted(Init(threads), t) {
      InitHoldsNone(threads, t);
    }
    InitHoldsNone(threads, Ticket(0, seq(ADDRESS_LEN, _ => 0)));
  }

  lemma WakeKeeps(ws: seq<Worker>, woken: nat -> bool)
    ensures forall t: Ticket :: Sum(Wake(ws, woken), Holding(t)) == Sum(ws, Holding(t))
    ensures Sum(Wake(ws, woken), Busy()) == Sum(ws, Busy())
    ensures Sum(Wake(ws, woken), WokenOnly()) >= Sum(ws, WokenOnly())
    ensures (exists i: nat :: woken(i) && i < |ws| && ws[i] == Waiting) ==> Sum(Wake(ws, woken), WokenOnly()) > Sum(ws, WokenOnly())
    ensures AnyWaiting(Wake(ws, woken)) ==> AnyWaiting(ws)
  {
    assert ws[0..] == ws && Wake(ws, woken)[0..] == Wake(ws, woken);
    WakeCounts(ws, woken, 0);
    WakeHolds(ws, woken, 0, Ticket(0, seq(ADDRESS_LEN, _ => 0)));
    forall t: Ticket ensures Sum(Wake(ws, woken), Holding(t)) == Sum(ws, Holding(t)) {
      WakeHolds(ws, woken, 0, t);
    }
    if AnyWaiting(Wake(ws, woken)) {
      var i :| 0 <= i < |ws| && Wake(ws, woken)[i] == Waiting;
      assert ws[i] == Waiting;
    }
  }

  // One thread moves and nobody new waits.
  lemma MoveKeepsWakeups(p: Pool, r: Pool, w: nat)
    requires WakeupsOk(p) && StopOk(p) && Live(p, w) && Live(r, w) && r.workers == p.workers[w := r.workers[w]] && r.workers[w] != Waiting
    requires r.stop == p.stop && (p.stop || (r.workers[w] != Exited && r.abandoned == p.abandoned))
    requires p.workers[w] == Woken && !p.stop ==> |r.queue| < |p.queue| || p.queue == [] == r.queue
    requires |r.queue| <= |p.queue|
    ensures WakeupsOk(r) && StopOk(r)
  {
    SumUpdate(p.workers, WokenOnly(), w, r.workers[w]);
    SumAtLeast(p.workers, WokenOnly(), w);
    if AnyWaiting(r.workers) {
      var i :| 0 <= i < |r.workers| && r.workers[i] == Waiting;
      assert p.workers[i] == Waiting;
    }
  }

  lemma StepKeepsWakeups(p: Pool, e: Event)
    requires WakeupsOk(p) && StopOk(p) && Enabled(p, e)
    ensures WakeupsOk(Step(p, e)) && StopOk(Step(p, e))
  {
    hide Sum, WokenOnly, Wake;
    var r := Step(p, e);
    match e
    case Enqueue(addr, woken) =>
      WakeKeeps(p.workers, woken);
      WakeWakes(p.workers, woken);
    case StopAll => BroadcastLeavesNone(p.workers);
    case Lock(w) =>
      if !p.stop && p.queue == [] {
      } else {
        MoveKeepsWakeups(p, r, w);
      }
    case _ => MoveKeepsWakeups(p, r, e.w);
  }

  lemma WakeWakes(ws: seq<Worker>, woken: nat -> bool)
    ensures forall i :: 0 <= i < |ws| ==> Wake(ws, woken)[i] == ws[i] || Wake(ws, woken)[i] == Woken
  {}

  lemma BroadcastLeavesNone(ws: seq<Worker>)
    ensures !AnyWaiting(Wake(ws, _ => true))
  {}

  // A thread goes from one request to another, having taken, answered or abandoned some.
  lemma MoveKeepsFifo(p: Pool, w: nat, x: Worker, taken: seq<Ticket>, answered: multiset<Ticket>, abandoned: multiset<Ticket>)
    requires FifoOk(p) && Live(p, w) && taken <= p.queue
    requires |taken| + Busy()(p.workers[w]) == Busy()(x) + |answered| + |abandoned|
    requires forall t: Ticket :: multiset(taken)[t] + Holding(t)(p.workers[w]) == Holding(t)(x) + answered[t] + abandoned[t]
    ensures FifoOk(Set(p, w, x).(queue := p.queue[|taken|..], taken := p.taken + taken,
                                 answered := p.answered + answered, abandoned := p.abandoned + abandoned))
  {
    var r := Set(p, w, x).(queue := p.queue[|taken|..], taken := p.taken + taken,
                           answered := p.answered + answered, abandoned := p.abandoned + abandoned);
    assert taken == p.queue[..|taken|] && p.queue == taken + r.queue;
    forall t: Ticket ensures Accounted(r, t) {
      assert Accounted(p, t);
      SumUpdate(p.workers, Holding(t), w, x);
    }
    SumUpdate(p.workers, Busy(), w, x);
  }

  lemma QueueKeepsFifo(p: Pool, r: Pool, more: seq<Ticket>)
    requires FifoOk(p) && r == p.(workers := r.workers, stop := r.stop, queue := p.queue + more, enqueued := p.enqueued + more)
    requires forall t: Ticket :: Sum(r.workers, Holding(t)) == Sum(p.workers, Holding(t))
    requires Sum(r.workers, Busy()) == Sum(p.workers, Busy())
    requires forall i :: 0 <= i < |more| ==> more[i].serial == |p.enqueued| + i
    ensures FifoOk(r)
  {
    forall t: Ticket ensures Accounted(r, t) {
      assert Accounted(p, t);
    }
  }

  // A thread that neither takes a request nor is done with one
  lemma IdleKeepsFifo(p: Pool, w: nat, x: Worker)
    requires FifoOk(p) && Live(p, w) && Busy()(x) == Busy()(p.workers[w])
    requires forall t: Ticket :: Holding(t)(x) == Holding(t)(p.workers[w])
    ensures FifoOk(Set(p, w, x))
  {
    MoveKeepsFifo(p, w, x, [], multiset{}, multiset{});
    assert p.taken + [] == p.taken && p.answered + multiset{} == p.answered && p.abandoned + multiset{} == p.abandoned;
  }

  lemma TakeKeepsFifo(p: Pool, w: nat)
    requires FifoOk(p) && Live(p, w) && !p.workers[w].Resolving? && !p.workers[w].Reporting?
    ensures FifoOk(TakeOrLeave(p, w))
  {
    if p.stop || p.queue == [] {
      IdleKeepsFifo(p, w, if p.stop then Exited else Top);
    } else {
      MoveKeepsFifo(p, w, Resolving(p.queue[0]), [p.queue[0]], multiset{}, multiset{});
      assert p.answered + multiset{} == p.answered && p.abandoned + multiset{} == p.abandoned;
    }
  }

  lemma DoneKeepsFifo(p: Pool, w: nat, x: Worker)
    requires FifoOk(p) && Live(p, w) && (p.workers[w].Resolving? || p.workers[w].Reporting?) && (x == Top || x == Exited)
    ensures var one := multiset{p.workers[w].t};
            FifoOk(Set(p, w, x).(answered := p.answered + one)) && FifoOk(Set(p, w, x).(abandoned := p.abandoned + one))
  {
    MoveKeepsFifo(p, w, x, [], multiset{p.workers[w].t}, multiset{});
    MoveKeepsFifo(p, w, x, [], multiset{}, multiset{p.workers[w].t});
    assert p.taken + [] == p.taken && p.answered + multiset{} == p.answered && p.abandoned + multiset{} == p.abandoned;
  }

  lemma StepKeepsFifo(p: Pool, e: Event)
    requires FifoOk(p) && Enabled(p, e)
    ensures FifoOk(Step(p, e))
  {
    hide FifoOk, Wake;
    match e
    case Enter(w) => IdleKeepsFifo(p, w, if p.stop then Exited else WantLock);
    case Lock(w) => if !p.stop && p.queue == [] { IdleKeepsFifo(p, w, Waiting); } else { TakeKeepsFifo(p, w); }
    case Resume(w) => TakeKeepsFifo(p, w);
    case Resolved(w) => if p.stop { DoneKeepsFifo(p, w, Exited); } else { IdleKeepsFifo(p, w, Reporting(p.workers[w].t)); }
    case Report(w) => DoneKeepsFifo(p, w, Top);
    case Spurious(w) => IdleKeepsFifo(p, w, Woken);
    case Enqueue(addr, woken) =>
      WakeKeeps(p.workers, woken);
      QueueKeepsFifo(p, Step(p, e), [Ticket(|p.enqueued|, addr)]);
    case StopAll =>
      WakeKeeps(p.workers, _ => true);
      assert p.queue + [] == p.queue && p.enqueued + [] == p.enqueued;
      QueueKeepsFifo(p, Step(p, e), []);
  }

  lemma StepKeepsInv(p: Pool, e: Event)
    requires Inv(p) && Enabled(p, e)
    ensures Inv(Step(p, e))
  {
    StepKeepsWakeups(p, e);
    StepKeepsFifo(p, e);
  }

  // ---- runs ----

  ghost predicate Possible(p: Pool, es: seq<Event>)
    decreases |es|
  {
    es == [] || (Enabled(p, es[0]) && Possible(Step(p, es[0]), es[1..]))
  }

  ghost function After(p: Pool, es: seq<Event>): Pool
    requires Possible(p, es)
    decreases |es|
  {
    if es == [] then p else After(Step(p, es[0]), es[1..])
  }

  lemma {:induction false} RunKeepsInv(p: Pool, es: seq<Event>)
    requires Inv(p) && Possible(p, es)
    ensures Inv(After(p, es)) && |After(p, es).workers| == |p.workers| && (p.stop ==> After(p, es).stop)
    decreases |es|
  {
    if es != [] {
      StepKeepsInv(p, es[0]);
      RunKeepsInv(Step(p, es[0]), es[1..]);
    }
  }

  // ---- what follows, for every run ----

  /** No lost wakeup: whenever requests are queued while some thread waits, at least as many threads are
      awake and on their way to the queue as there are requests. So the queue is never nonempty while all
      threads that have not exited are blocked. */
  lemma NoLostWakeup(threads: nat, es: seq<Event>)
    requires Possible(Init(threads), es)
    ensures var p := After(Init(threads), es);
            && (AnyWaiting(p.workers) ==> |p.queue| <= Sum(p.workers, WokenOnly()))
            && (p.queue != [] && (exists i :: 0 <= i < |p.workers| && p.workers[i] != Exited) ==>
                  exists i :: 0 <= i < |p.workers| && p.workers[i] != Exited && p.workers[i] != Waiting)
  {
    var p := After(Init(threads), es);
    InitInv(threads);
    RunKeepsInv(Init(threads), es);
    if forall i :: 0 <= i < |p.workers| ==> p.workers[i] == Exited || p.workers[i] == Waiting {
      NobodyAwake(p.workers);
    }
  }

  lemma {:induction false} NobodyAwake(ws: seq<Worker>)
    requires forall i :: 0 <= i < |ws| ==> ws[i] == Exited || ws[i] == Waiting
    ensures Sum(ws, WokenOnly()) == Sum(ws, Busy()) == 0
  {
    if ws != [] {
      NobodyAwake(ws[1..]);
    }
  }

  /** First in, first out, and nothing lost or done twice: the requests taken are a prefix of those
      enqueued; and each request enqueued is, exactly once, queued, in the hands of one thread, answered
      or, after a stop, abandoned. */
  lemma EachRequestOnce(threads: nat, es: seq<Event>, i: nat)
    requires Possible(Init(threads), es) && i < |After(Init(threads), es).enqueued|
    ensures var p := After(Init(threads), es);
            var t := p.enqueued[i];
            && p.taken <= p.enqueued && p.queue == p.enqueued[|p.taken|..]
            && (if i >= |p.taken| then 1 else 0) + Sum(p.workers, Holding(t)) + p.answered[t] + p.abandoned[t] == 1
            && (p.abandoned[t] > 0 ==> p.stop)
            && |p.enqueued| == |p.queue| + Sum(p.workers, Busy()) + |p.answered| + |p.abandoned|
  {
    var p := After(Init(threads), es);
    InitInv(threads);
    RunKeepsInv(Init(threads), es);
    assert Accounted(p, p.enqueued[i]);
    assert forall k :: 0 <= k < |p.taken| ==> p.taken[k] == p.enqueued[k];
    TakenOnce(p.taken, p.enqueued[i]);
  }

  lemma {:induction false} TakenOnce(taken: seq<Ticket>, t: Ticket)
    requires forall k :: 0 <= k < |taken| ==> taken[k].serial == k
    ensures multiset(taken)[t] == if t.serial < |taken| && taken[t.serial] == t then 1 else 0
  {
    if taken != [] {
      var n := |taken| - 1;
      TakenOnce(taken[..n], t);
      assert taken == taken[..n] + [taken[n]];
    }
  }

  /** No two threads work on the same request. */
  lemma OneThreadPerRequest(threads: nat, es: seq<Event>, v: nat, w: nat)
    requires Possible(Init(threads), es) && v < w < |After(Init(threads), es).workers|
    requires var ws := After(Init(threads), es).workers; Busy()(ws[v]) == Busy()(ws[w]) == 1
    ensures var ws := After(Init(threads), es).workers; ws[v].t != ws[w].t
  {
    var p := After(Init(threads), es);
    InitInv(threads);
    RunKeepsInv(Init(threads), es);
    var t := p.workers[v].t;
    if p.workers[w].t == t {
      SumOfTwo(p.workers, Holding(t), v, w);
      assert Accounted(p, t);
      assert forall k :: 0 <= k < |p.taken| ==> p.taken[k] == p.enqueued[k];
      TakenOnce(p.taken, t);
    }
  }

  lemma {:induction false} SumOfTwo(ws: seq<Worker>, f: Worker -> nat, v: nat, w: nat)
    requires v < w < |ws|
    ensures Sum(ws, f) >= f(ws[v]) + f(ws[w])
  {
    if v == 0 {
      SumAtLeast(ws[1..], f, w - 1);
    } else {
      SumOfTwo(ws[1..], f, v - 1, w - 1);
    }
  }

  // ---- the pool comes to rest ----

  predicate ThreadStep(e: Event) {
    !e.Enqueue? && !e.StopAll? && !e.Spurious?
  }

  // How many own steps a thread is from waiting or exiting, not counting the requests it may take
  function Effort(stop: bool): Worker -> nat {
    (w: Worker) => match w
         case Top => if stop then 1 else 2
         case WantLock => 1
         case Waiting => 0
         case Woken => if stop then 1 else 3
         case Resolving(_) => if stop then 1 else 4
         case Reporting(_) => if stop then 2 else 3
         case Exited => 0
  }

  function Work(p: Pool): nat {
    Sum(p.workers, Effort(p.stop)) + if p.stop then 0 else 4 * |p.queue|
  }

  lemma StepWorks(p: Pool, e: Event)
    requires Enabled(p, e)
    ensures ThreadStep(e) ==> Work(Step(p, e)) < Work(p)
    ensures e.Spurious? ==> Work(Step(p, e)) <= Work(p) + 3
  {
    if ThreadStep(e) || e.Spurious? {
      SumUpdate(p.workers, Effort(p.stop), e.w, Step(p, e).workers[e.w]);
      SumAtLeast(p.workers, Effort(p.stop), e.w);
    }
  }

  function Many(es: seq<Event>, f: Event -> bool): nat {
    if es == [] then 0 else (if f(es[0]) then 1 else 0) + Many(es[1..], f)
  }

  /** Between two requests the threads can only take so many steps: what they have to do now, and three
      for each wakeup without a signal. */
  lemma {:induction false} WorkIsBounded(p: Pool, es: seq<Event>)
    requires Possible(p, es) && forall e | e in es :: ThreadStep(e) || e.Spurious?
    ensures Many(es, e => ThreadStep(e)) <= Work(p) + 3 * Many(es, (e: Event) => e.Spurious?)
    decreases |es|
  {
    if es != [] {
      assert es[0] in es && forall e | e in es[1..] :: e in es;
      StepWorks(p, es[0]);
      WorkIsBounded(Step(p, es[0]), es[1..]);
    }
  }

  ghost predicate AtRest(p: Pool) {
    forall e: Event :: ThreadStep(e) ==> !Enabled(p, e)
  }

  lemma RestIsDone(p: Pool)
    requires Inv(p) && p.workers != [] && AtRest(p)
    ensures if p.stop then forall i :: 0 <= i < |p.workers| ==> p.workers[i] == Exited
            else p.queue == [] && multiset(p.enqueued) == p.answered
  {
    forall i: nat | i < |p.workers| ensures p.workers[i] == Waiting || p.workers[i] == Exited {
      assert !Enabled(p, Enter(i)) && !Enabled(p, Lock(i)) && !Enabled(p, Resume(i)) && !Enabled(p, Resolved(i)) && !Enabled(p, Report(i));
    }
    NobodyAwake(p.workers);
    if !p.stop {
      assert p.workers[0] == Waiting;
      assert p.taken + [] == p.taken;
      forall t: Ticket ensures multiset(p.enqueued)[t] == p.answered[t] {
        assert Accounted(p, t);
        HoldsAtMostBusy(p.workers, t);
      }
    }
  }

  /** And when no thread can take a step any more, every request has been answered; or, once the pool was
      stopped, every thread has exited. */
  lemma RestMeansDone(threads: nat, es: seq<Event>)
    requires Possible(Init(threads), es) && threads > 0 && AtRest(After(Init(threads), es))
    ensures var p := After(Init(threads), es);
            if p.stop then forall i :: 0 <= i < |p.workers| ==> p.workers[i] == Exited
            else p.queue == [] && multiset(p.enqueued) == p.answered
  {
    InitInv(threads);
    RunKeepsInv(Init(threads), es);
    RestIsDone(After(Init(threads), es));
  }

  lemma {:induction false} HoldsAtMostBusy(ws: seq<Worker>, t: Ticket)
    ensures Sum(ws, Holding(t)) <= Sum(ws, Busy())
  {
    if ws != [] {
      HoldsAtMostBusy(ws[1..], t);
    }
  }

  /** Once the pool is stopped no thread ever waits again. */
  lemma StoppedNeverWaits(threads: nat, es: seq<Event>, more: seq<Event>)
    requires Possible(Init(threads), es) && After(Init(threads), es).stop && Possible(After(Init(threads), es), more)
    ensures !AnyWaiting(After(After(Init(threads), es), more).workers)
  {
    InitInv(threads);
    RunKeepsInv(Init(threads), es);
    RunKeepsInv(After(Init(threads), es), more);
  }

  // After a stop a thread stays where it is or exits, except that one with an answer to report first reports it.
  predicate Leaves(w: Worker, later: Worker) {
    later == w || later == Exited || (w.Reporting? && later == Top)
  }

  lemma StopLeaves(p: Pool, e: Event)
    requires p.stop && !AnyWaiting(p.workers) && Enabled(p, e)
    ensures var r := Step(p, e);
            && r.stop && !AnyWaiting(r.workers) && r.taken == p.taken && |r.workers| == |p.workers|
            && forall i :: 0 <= i < |p.workers| ==> Leaves(p.workers[i], r.workers[i])
  {
    var r := Step(p, e);
    forall i | 0 <= i < |p.workers| ensures Leaves(p.workers[i], r.workers[i]) && r.workers[i] != Waiting {
      assert p.workers[i] != Waiting;
    }
  }

  lemma {:induction false} RunLeaves(p: Pool, es: seq<Event>)
    requires p.stop && !AnyWaiting(p.workers) && Possible(p, es)
    ensures var r := After(p, es);
            && r.taken == p.taken && |r.workers| == |p.workers|
            && forall i :: 0 <= i < |p.workers| ==> Leaves(p.workers[i], r.workers[i])
    decreases |es|
  {
    hide Step, Enabled;
    if es != [] {
      StopLeaves(p, es[0]);
      RunLeaves(Step(p, es[0]), es[1..]);
    }
  }

  /** Once the pool is stopped no request is taken any more, and every thread exits at its next step: none starts to
      wait, to look at the list, to ask the name server or to report, except that a thread about to report does so
      first. */
  lemma StoppedThreadsLeave(threads: nat, es: seq<Event>, more: seq<Event>)
    requires Possible(Init(threads), es) && After(Init(threads), es).stop && Possible(After(Init(threads), es), more)
    ensures var p, r := After(Init(threads), es), After(After(Init(threads), es), more);
            && r.taken == p.taken && |r.workers| == |p.workers|
            && forall i :: 0 <= i < |p.workers| ==> Leaves(p.workers[i], r.workers[i])
  {
    InitInv(threads);
    RunKeepsInv(Init(threads), es);
    RunLeaves(After(Init(threads), es), more);
  }
}
