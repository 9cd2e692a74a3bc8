/** The resolver as it is in memory: the cache, the list of requests, and threads that hold the items they work on
    (src/thread_resolve.c:94-165, src/thread_resolve.c:203-251, src/thread_resolve.c:281-302). Every critical section
    of a thread and every lookup does what LookupRuns says, item by item, so that its results speak of the items in
    memory. */
module ThreadResolver {
  import opened Wrappers
  import opened Bytes
  import C = IpCacheSpec
  import CR = IpCacheRuns
  import R = Resolver
  import opened LookupRuns
  import opened IpCacheItem
  import opened IpCache
  import opened RequestQueue
  import opened NameService

  // Where a thread is in its loop, and the item in its hands
  datatype Thread =
    | Top
    | WantLock
    | Waiting
    | Woken
    | Resolving(item: Item)
    | Reporting(item: Item)
    | Exited

  // The request is for the item x: made lists the items of memory by their numbers.
  ghost predicate IsFor(requested: seq<nat>, made: seq<Item>, t: R.Ticket, x: Item) {
    t.serial < |requested| && requested[t.serial] < |made| && made[requested[t.serial]] == x
  }

  ghost predicate Shows(requested: seq<nat>, made: seq<Item>, th: Thread, w: R.Worker) {
    match th
    case Top => w.Top?
    case WantLock => w.WantLock?
    case Waiting => w.Waiting?
    case Woken => w.Woken?
    case Resolving(x) => w.Resolving? && IsFor(requested, made, w.t, x)
    case Reporting(x) => w.Reporting? && IsFor(requested, made, w.t, x)
    case Exited => w.Exited?
  }

  // Threads and list are those of the pool.
  ghost predicate Mirrors(p: R.Pool, requested: seq<nat>, made: seq<Item>, threads: seq<Thread>, stop: bool, list: seq<Item>) {
    && stop == p.stop
    && |threads| == |p.workers| && (forall i :: 0 <= i < |threads| ==> Shows(requested, made, threads[i], p.workers[i]))
    && |list| == |p.queue| && (forall i :: 0 <= i < |list| ==> IsFor(requested, made, p.queue[i], list[i]))
  }

  // Items of memory and their numbers; the items in its are those that the cache holds.
  ghost predicate Numbered(addrs: seq<Address>, current: map<Address, nat>, made: seq<Item>, its: set<Item>) {
    && Distinct(made) && |made| == |addrs| && (forall i :: 0 <= i < |made| ==> made[i].ip == addrs[i])
    && (forall x | x in its :: x.ip in current && current[x.ip] < |made| && made[current[x.ip]] == x)
  }

  // The act is possible in s, and takes it to r.
  ghost predicate Acts(s: Service, a: Act, r: Service) {
    Inv(s) && Enabled(s, a) && CR.Inv(s.cache) && r == Step(s, a)
  }

  function Awake(threads: seq<Thread>, woken: nat -> bool): seq<Thread> {
    seq(|threads|, i requires 0 <= i < |threads| => if woken(i) && threads[i].Waiting? then Woken else threads[i])
  }

  // A request for the item x, which is a new one if the cache had none for the address
  lemma RequestNumbered(s: Service, r: Service, ip: Address, made: seq<Item>, its: set<Item>, x: Item, its': set<Item>)
    requires s.current.Keys == s.cache.entries.Keys && OneMoreRequest(s, r, ip)
    requires Numbered(s.items, s.current, made, its) && x.ip == ip && its' <= its + {x}
    requires if ip in s.current then x in its else x !in made
    ensures var all := if ip in s.current then made else made + [x];
            && Numbered(r.items, r.current, all, its')
            && IsFor(r.requested, all, R.Ticket(|s.requested|, ip), x)
  {}

  lemma RequestMirrors(p: R.Pool, requested: seq<nat>, made: seq<Item>, threads: seq<Thread>, stop: bool, list: seq<Item>,
                       e: R.Event, more: seq<nat>, all: seq<Item>, x: Item)
    requires Mirrors(p, requested, made, threads, stop, list) && e.Enqueue? && R.Enabled(p, e)
    requires made <= all && IsFor(requested + more, all, R.Ticket(|p.enqueued|, e.addr), x)
    ensures Mirrors(R.Step(p, e), requested + more, all, Awake(threads, e.woken), stop, list + [x])
  {
    assert forall t: R.Ticket, y: Item :: IsFor(requested, made, t, y) ==> IsFor(requested + more, all, t, y);
  }

  // What a lookup that sends a request does to the service
  lemma LookUpRequests(s: Service, ip: Address, draws: seq<nat>, random: nat, woken: nat -> bool)
    requires Inv(s) && Enabled(s, LookUp(ip, draws, random, woken)) && C.IsExpired(s.cache, ip) && CR.Inv(s.cache)
    ensures var r := Step(s, LookUp(ip, draws, random, woken));
            && OneMoreRequest(s, r, ip) && r.pool == R.Step(s.pool, R.Enqueue(ip, woken)) && |s.requested| == |s.pool.enqueued|
            && s.current.Keys == s.cache.entries.Keys && r.requested == s.requested + [r.requested[|s.requested|]]
  {
    hide R.Inv, CR.Inv, C.Prepare, C.Lookup, C.IsExpired, AllOwed, Held;
    LookupKeepsEntries(s.cache, ip);
    PrepareEntries(C.Lookup(s.cache, ip), ip, draws, random);
  }

  // What the memory holds
  datatype Memory = Memory(made: seq<Item>, threads: seq<Thread>, stop: bool, list: seq<Item>, its: set<Item>)

  // The memory is that of the service.
  ghost predicate Shown(s: Service, m: Memory) {
    Numbered(s.items, s.current, m.made, m.its) && Mirrors(s.pool, s.requested, m.made, m.threads, m.stop, m.list)
  }

  lemma RequestIsShown(s: Service, m: Memory, x: Item, its: set<Item>, ip: Address, draws: seq<nat>, random: nat, woken: nat -> bool)
    requires Inv(s) && CR.Inv(s.cache) && Enabled(s, LookUp(ip, draws, random, woken)) && C.IsExpired(s.cache, ip)
    requires Shown(s, m) && x.ip == ip && its <= m.its + {x} && if ip in s.cache.entries then x in m.its else x !in m.made
    ensures var all := if ip in s.cache.entries then m.made else m.made + [x];
            Shown(Step(s, LookUp(ip, draws, random, woken)), Memory(all, Awake(m.threads, woken), m.stop, m.list + [x], its))
    ensures |Step(s, LookUp(ip, draws, random, woken)).requested| == |s.requested| + 1
  {
    hide Inv, CR.Inv, C.IsExpired, Enabled, Mirrors, Numbered, OneMoreRequest, R.Step, R.Enabled, IsFor, Step;
    CanLookUp(s, ip, draws, random, woken);
    LookUpRequests(s, ip, draws, random, woken);
    var r, e := Step(s, LookUp(ip, draws, random, woken)), R.Enqueue(ip, woken);
    var all := if ip in s.cache.entries then m.made else m.made + [x];
    RequestNumbered(s, r, ip, m.made, m.its, x, its);
    RequestMirrors(s.pool, s.requested, m.made, m.threads, m.stop, m.list, e, [r.requested[|s.requested|]], all, x);
  }

  lemma NoRequestIsShown(s: Service, m: Memory, its: set<Item>, ip: Address, draws: seq<nat>, random: nat, woken: nat -> bool)
    requires CR.Inv(s.cache) && Enabled(s, LookUp(ip, draws, random, woken)) && !C.IsExpired(s.cache, ip)
    requires Shown(s, m) && its <= m.its
    ensures Shown(Step(s, LookUp(ip, draws, random, woken)), m.(its := its))
    ensures Step(s, LookUp(ip, draws, random, woken)).requested == s.requested
  {
    hide CR.Inv, C.IsExpired, C.Lookup, Mirrors;
  }

  lemma ReporterHolds(s: Service, m: Memory, w: nat)
    requires R.Inv(s.pool) && ItemsOk(s) && Shown(s, m) && w < |m.threads| && m.threads[w].Reporting?
    requires forall a | a in s.cache.entries :: exists x :: x in m.its && x.ip == a
    ensures R.Enabled(s.pool, R.Report(w))
    ensures m.threads[w].item in m.its <==> Present(s, s.pool.workers[w].t)
    ensures m.threads[w].item.ip == s.pool.workers[w].t.addr
  {
    hide R.Inv;
    TicketIsEnqueued(s.pool, w);
    var t := s.pool.workers[w].t;
    assert IsFor(s.requested, m.made, t, m.threads[w].item);
    if Present(s, t) {
      var x :| x in m.its && x.ip == t.addr;
    }
  }

  lemma CanLookUp(s: Service, ip: Address, draws: seq<nat>, random: nat, woken: nat -> bool)
    requires Enabled(s, LookUp(ip, draws, random, woken))
    ensures (ip in s.cache.entries || C.CanPick(C.UsedIds(s.cache), draws)) && R.Enabled(s.pool, R.Enqueue(ip, woken))
  {}

  lemma LookUpCache(s: Service, ip: Address, draws: seq<nat>, random: nat, woken: nat -> bool)
    requires CR.Inv(s.cache) && Enabled(s, LookUp(ip, draws, random, woken))
    ensures var c, d := C.Lookup(s.cache, ip), Step(s, LookUp(ip, draws, random, woken)).cache;
            if C.IsExpired(s.cache, ip) then (ip in c.entries || C.CanPick(C.UsedIds(c), draws)) && d == C.Prepare(c, ip, draws, random)
            else d == c
  {
    hide CR.Inv, C.IsExpired, C.Lookup, C.Prepare;
    LookupKeepsEntries(s.cache, ip);
  }

  // An answer, after which the cache holds the items in its
  lemma AnswerIsShown(s: Service, m: Memory, a: Act, its: set<Item>)
    requires CR.Inv(s.cache) && Enabled(s, a) && (a.AnswerNotFound? || a.AnswerFound?) && Shown(s, m)
    requires its <= m.its && forall x | x in its :: x.ip in Step(s, a).cache.entries
    ensures a.w < |m.threads| && Shown(Step(s, a), m.(its := its, threads := m.threads[a.w := Top]))
  {
    hide CR.Inv, C.Fail, C.Succeed;
  }

  lemma AnswerCache(s: Service, a: Act)
    requires CR.Inv(s.cache) && Enabled(s, a) && (a.AnswerNotFound? || a.AnswerFound?)
    ensures var t := s.pool.workers[a.w].t;
            && t.addr in s.cache.entries
            && Step(s, a).cache == if a.AnswerNotFound? then C.Fail(s.cache, t.addr, a.random)
                                   else C.Succeed(s.cache, t.addr, ONE_DAY, Some(a.name), a.random)
  {
    hide CR.Inv, C.Fail, C.Succeed;
  }

  lemma CanAnswer(s: Service, w: nat, name: string, random: nat)
    requires R.Enabled(s.pool, R.Report(w)) && Present(s, s.pool.workers[w].t)
    ensures Enabled(s, AnswerNotFound(w, random)) && Enabled(s, AnswerFound(w, name, random))
  {}

  class ThreadResolver {
    const service: NameService
    var threads: seq<Thread>
    var stop: bool
    ghost var state: Service
    ghost var made: seq<Item>

    ghost predicate Valid()
      reads this, service.cache, service.cache.idBash, service.cache.ipBash, service.cache.items, service.cache.active
      reads service.cache.byIp.Values, service.requests, service.requests.links
    {
      && service.cache.Valid() && service.requests.Valid() && service.cache.View() == state.cache
      && Inv(state) && Shown(state, InMemory())
    }

    ghost function InMemory(): Memory
      reads this, service.cache, service.requests
    {
      Memory(made, threads, stop, service.requests.View(), service.cache.items)
    }

    // thread_open
    constructor (count: nat)
      ensures Valid() && state == LookupRuns.Start(count) && |threads| == count
    {
      hide Inv, Cache.Valid, Cache.View, RequestQueue.Valid, RequestQueue.View, Step;
      service := new NameService();
      threads, stop := seq(count, _ => Top), false;
      state, made := LookupRuns.Start(count), [];
      new;
      StartIsOk(count);
      ItemsInView();
    }

    // The cache holds what its items are filed under.
    lemma ItemsInView()
      requires service.cache.Valid()
      ensures forall x | x in service.cache.items :: x.ip in service.cache.View().entries
      ensures forall a | a in service.cache.View().entries :: exists x :: x in service.cache.items && x.ip == a
    {}

    ghost method Act(a: Act)
      requires Inv(state) && Enabled(state, a)
      modifies this`state
      ensures Acts(old(state), a, state) && Inv(state)
    {
      hide Inv, Step, Enabled;
      StepKeepsInv(state, a);
      InvHasParts(state);
      state := Step(state, a);
    }

    // ---- the steps of a thread ----

    // while (!request_stop_thread)
    method Enter(w: nat)
      requires Valid() && w < |threads| && threads[w].Top?
      modifies this`threads, this`state
      ensures Valid() && Acts(old(state), ThreadMoves(R.Enter(w)), state)
    {
      hide Inv, Cache.Valid, Cache.View, RequestQueue.Valid, RequestQueue.View, Numbered;
      threads := threads[w := if stop then Exited else WantLock];
      Act(ThreadMoves(R.Enter(w)));
    }

    // The first critical section from the test of the stop flag on, after the wait if there was one
    method TakeOrLeave(w: nat, ghost e: R.Event)
      requires Valid() && w < |threads| && Enabled(state, ThreadMoves(e))
      requires R.Step(state.pool, e) == R.TakeOrLeave(state.pool, w)
      modifies this`threads, this`state, service.requests
      ensures Valid() && Acts(old(state), ThreadMoves(e), state)
    {
      hide Inv, Cache.Valid, Cache.View, RequestQueue.Valid, RequestQueue.View, Numbered, Enabled, R.Step;
      if stop {
        threads := threads[w := Exited];
      } else {
        var item := service.requests.Take();
        threads := threads[w := if item.Some? then Resolving(item.value) else Top];
      }
      Act(ThreadMoves(e));
    }

    // The first critical section, up to the wait or the first unlock
    method Lock(w: nat)
      requires Valid() && w < |threads| && threads[w].WantLock?
      modifies this`threads, this`state, service.requests
      ensures Valid() && Acts(old(state), ThreadMoves(R.Lock(w)), state)
    {
      hide Inv, Cache.Valid, Cache.View, Numbered;
      if !stop && service.requests.head == null {
        threads := threads[w := Waiting];
        Act(ThreadMoves(R.Lock(w)));
      } else {
        TakeOrLeave(w, R.Lock(w));
      }
    }

    // The rest of it, after the wait
    method Resume(w: nat)
      requires Valid() && w < |threads| && threads[w].Woken?
      modifies this`threads, this`state, service.requests
      ensures Valid() && Acts(old(state), ThreadMoves(R.Resume(w)), state)
    {
      hide Inv, Cache.Valid, Cache.View, RequestQueue.Valid, RequestQueue.View, Numbered;
      TakeOrLeave(w, R.Resume(w));
    }

    // pthread_cond_wait returns on its own
    method WakeUp(w: nat)
      requires Valid() && w < |threads| && threads[w].Waiting?
      modifies this`threads, this`state
      ensures Valid() && Acts(old(state), ThreadMoves(R.Spurious(w)), state)
    {
      hide Inv, Cache.Valid, Cache.View, RequestQueue.Valid, RequestQueue.View, Numbered;
      threads := threads[w := Woken];
      Act(ThreadMoves(R.Spurious(w)));
    }

    // gethostbyaddr_r returns, and the stop flag is tested
    method Resolved(w: nat)
      requires Valid() && w < |threads| && threads[w].Resolving?
      modifies this`threads, this`state
      ensures Valid() && Acts(old(state), ThreadMoves(R.Resolved(w)), state)
    {
      hide Inv, Cache.Valid, Cache.View, RequestQueue.Valid, RequestQueue.View, Numbered;
      threads := threads[w := if stop then Exited else Reporting(threads[w].item)];
      Act(ThreadMoves(R.Resolved(w)));
    }

    /** The item in the hands of a reporting thread is in the cache exactly if its request finds it. */
    lemma HeldIsPresent(w: nat)
      requires Valid() && w < |threads| && threads[w].Reporting?
      ensures R.Enabled(state.pool, R.Report(w))
      ensures threads[w].item in service.cache.items <==> Present(state, state.pool.workers[w].t)
      ensures threads[w].item.ip == state.pool.workers[w].t.addr
    {
      hide Inv, R.Inv, CR.Inv, Cache.Valid, Cache.View, RequestQueue.Valid, RequestQueue.View, Shown, ItemsOk;
      InvHasParts(state);
      ItemsInView();
      ReporterHolds(state, InMemory(), w);
    }

    // The item has an answer exactly if the cache says so.
    lemma AnsweredInView()
      requires service.cache.Valid()
      ensures forall x | x in service.cache.items ::
                x.ip in service.cache.View().entries && service.cache.View().entries[x.ip].answered == x.answered
    {}

    /** A thread that reports the first answer for an item holds an item of the cache, and one without an answer: it
        was not freed meanwhile. */
    lemma FirstReportIsLive(w: nat)
      requires Valid() && w < |threads| && threads[w].Reporting?
      requires var i := state.pool.workers[w].t.serial; i < |state.requested| ==> !Settled(state.pool, state.requested, state.requested[i])
      ensures threads[w].item in service.cache.items && !threads[w].item.answered
    {
      hide Cache.Valid, Cache.View, RequestQueue.Valid, RequestQueue.View, Shown, R.Inv, CR.Inv, Settled, Owed;
      HeldIsPresent(w);
      TicketIsEnqueued(state.pool, w);
      AnsweredInView();
    }

    /** When all threads of a running pool wait, the list of requests is empty, and every item of the cache has had an
        answer. */
    lemma RestInMemory()
      requires Valid() && threads != [] && !stop
      requires forall i :: 0 <= i < |threads| ==> threads[i].Waiting?
      ensures service.requests.View() == [] && forall x | x in service.cache.items :: x.answered
    {
      hide Cache.Valid, Cache.View, RequestQueue.Valid, RequestQueue.View, R.Inv, CR.Inv, Owed, Held;
      var p := state.pool;
      assert forall i :: 0 <= i < |p.workers| ==> Shows(state.requested, made, threads[i], p.workers[i]);
      assert R.AtRest(p);
      R.RestIsDone(p);
      AnsweredInView();
      forall x | x in service.cache.items ensures x.answered {
        RestOwesNothing(p, state.requested, state.current[x.ip]);
      }
    }

    // The second critical section, without an answer from the name server
    method ReportFailed(w: nat, random: nat)
      requires Valid() && w < |threads| && threads[w].Reporting? && threads[w].item in service.cache.items
      modifies this`threads, this`state, service.cache, service.cache.idBash, service.cache.ipBash, service.cache.items
      ensures Valid() && Acts(old(state), AnswerNotFound(w, random), state)
    {
      hide Inv, CR.Inv, Cache.Valid, Cache.View, RequestQueue.Valid, RequestQueue.View, Shown, Enabled, R.Enabled, Step, C.Fail, C.Succeed;
      InvHasParts(state);
      HeldIsPresent(w);
      CanAnswer(state, w, "", random);
      AnswerCache(state, AnswerNotFound(w, random));
      ghost var s, m := state, InMemory();
      service.cache.RequestFailed(threads[w].item, random);
      ItemsInView();
      threads := threads[w := Top];
      AnswerIsShown(s, m, AnswerNotFound(w, random), service.cache.items);
      Act(AnswerNotFound(w, random));
    }

    // The second critical section, with a name
    method ReportSucceeded(w: nat, name: string, random: nat)
      requires Valid() && w < |threads| && threads[w].Reporting? && threads[w].item in service.cache.items
      modifies this`threads, this`state, service.cache, service.cache.idBash, service.cache.ipBash, service.cache.items
      ensures Valid() && Acts(old(state), AnswerFound(w, name, random), state)
    {
      hide Inv, CR.Inv, Cache.Valid, Cache.View, RequestQueue.Valid, RequestQueue.View, Shown, Enabled, R.Enabled, Step, C.Fail, C.Succeed;
      InvHasParts(state);
      HeldIsPresent(w);
      CanAnswer(state, w, name, random);
      AnswerCache(state, AnswerFound(w, name, random));
      ghost var s, m := state, InMemory();
      service.cache.RequestSucceeded(threads[w].item, ONE_DAY, Some(name), random);
      ItemsInView();
      threads := threads[w := Top];
      AnswerIsShown(s, m, AnswerFound(w, name, random), service.cache.items);
      Act(AnswerFound(w, name, random));
    }

    // The second critical section on an item that was freed; what it writes there is left open.
    method ReportLate(w: nat)
      requires Valid() && w < |threads| && threads[w].Reporting? && threads[w].item !in service.cache.items
      modifies this`threads, this`state
      ensures Valid() && Acts(old(state), StaleAnswer(w), state)
    {
      hide Inv, Cache.Valid, Cache.View, RequestQueue.Valid, RequestQueue.View;
      HeldIsPresent(w);
      threads := threads[w := Top];
      Act(StaleAnswer(w));
    }

    // ---- the program ----

    /** thread_lookup */
    method Lookup(ip: Address, draws: seq<nat>, random: nat, woken: nat -> bool) returns (name: Option<string>)
      requires Valid() && Enabled(state, LookUp(ip, draws, random, woken))
      modifies this`threads, this`state, this`made, service.cache, service.cache.idBash, service.cache.ipBash, service.cache.items
      modifies service.requests, service.requests.links
      ensures Valid() && Acts(old(state), LookUp(ip, draws, random, woken), state)
      ensures name == C.NameOf(old(state).cache, ip)
      ensures |state.requested| == |old(state).requested| +
                if forall x | x in old(service.cache.items) && x.ip == ip :: old(x.expireTick) < old(service.cache.currentTick) then 1 else 0
    {
      hide Inv, Cache.Valid, Cache.View, RequestQueue.Valid, RequestQueue.View, C.Prepare, C.Lookup, C.IsExpired, R.Inv, CR.Inv,
        C.CanPick, Shown, Enabled, R.Enabled, Step, R.Step;
      InvHasParts(state);
      CanLookUp(state, ip, draws, random, woken);
      LookUpCache(state, ip, draws, random, woken);
      ghost var s, m := state, InMemory();
      var request;
      name, request := service.Lookup(ip, true, draws, random);
      if request.Some? {
        threads := Awake(threads, woken);
        made := if ip in s.cache.entries then made else made + [request.value];
        RequestIsShown(s, m, request.value, service.cache.items, ip, draws, random, woken);
      } else {
        NoRequestIsShown(s, m, service.cache.items, ip, draws, random, woken);
      }
      Act(LookUp(ip, draws, random, woken));
    }

    // stop_threads
    method StopPool()
      requires Valid()
      modifies this`threads, this`stop, this`state
      ensures Valid() && Acts(old(state), StopThreads, state)
    {
      hide Inv, Cache.Valid, Cache.View, RequestQueue.Valid, RequestQueue.View, Numbered;
      stop := true;
      threads := Awake(threads, _ => true);
      Act(StopThreads);
    }

    // ipcache_tick
    method Tick()
      requires Valid()
      modifies service.cache`currentTick, this`state
      ensures Valid() && Acts(old(state), ClockTicks, state)
    {
      hide Inv, Cache.Indices, Cache.RingOk, Cache.Listed, Maps, Cache.View, RequestQueue.Valid, RequestQueue.View;
      service.cache.Tick();
      Act(ClockTicks);
    }

    // ipcache_clear
    method Clear()
      requires Valid()
      modifies this`state, service.cache, service.cache.idBash, service.cache.ipBash, service.cache.items
      ensures Valid() && Acts(old(state), CacheCleared, state)
    {
      hide Inv, Cache.Indices, Cache.RingOk, Cache.Listed, Maps, Cache.View, RequestQueue.Valid, RequestQueue.View, C.Clear;
      service.cache.Clear();
      ItemsInView();
      Act(CacheCleared);
    }
  }
}
