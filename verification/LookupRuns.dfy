/** The resolver and the name cache together: lookups by the program, answers by the threads of the pool,
    interleaved in any order (src/thread_resolve.c:125-162, src/thread_resolve.c:219-251,
    src/thread_resolve.c:281-302). The main results: no lookup is forgotten, and exactly when a thread finds the
    item that it reports on still in the cache. */
module LookupRuns {
  import opened Wrappers
  import opened Bytes
  import C = IpCacheSpec
  import CR = IpCacheRuns
  import R = Resolver

  // Requests point to items, not to addresses: `items` lists every item ever allocated, by its address,
  // `current` says which of them the cache holds, and `requested` to which one each request points.
  datatype Service = Service(pool: R.Pool, cache: C.Cache, items: seq<Address>, current: map<Address, nat>, requested: seq<nat>)

  datatype Act =
    | ThreadMoves(e: R.Event)
    | LookUp(addr: Address, draws: seq<nat>, random: nat, woken: nat -> bool)
    | AnswerNotFound(w: nat, random: nat)
    | AnswerFound(w: nat, name: string, random: nat)
    | StaleAnswer(w: nat)
    | ClockTicks
    | CacheCleared
    | StopThreads

  // The item of the request is still in the cache.
  predicate Present(s: Service, t: R.Ticket) {
    && t.addr in s.cache.entries && t.addr in s.current
    && t.serial < |s.requested| && s.current[t.addr] == s.requested[t.serial]
  }

  ghost predicate Enabled(s: Service, a: Act) {
    match a
    case ThreadMoves(e) => R.Enabled(s.pool, e) && !e.Enqueue? && !e.Report? && !e.StopAll?
    case LookUp(addr, draws, random, woken) =>
      && CR.Enabled(s.cache, CR.OpPrepare(addr, draws, random))
      && R.Enabled(s.pool, R.Enqueue(addr, woken))
    case AnswerNotFound(w, _) => R.Enabled(s.pool, R.Report(w)) && Present(s, s.pool.workers[w].t)
    case AnswerFound(w, _, _) => R.Enabled(s.pool, R.Report(w)) && Present(s, s.pool.workers[w].t)
    case StaleAnswer(w) => R.Enabled(s.pool, R.Report(w)) && !Present(s, s.pool.workers[w].t)
    case _ => true
  }

  // How long an answer is taken to hold, in seconds: the resolver functions do not tell.
  const ONE_DAY: int := 3600 * 24

  // The cache becomes c, and items that are not in it any more are freed.
  function WithCache(s: Service, c: C.Cache): Service {
    s.(cache := c, current := map a | a in s.current && a in c.entries :: s.current[a])
  }

  // thread_lookup, when name resolution is on
  function LookUpStep(s: Service, addr: Address, draws: seq<nat>, random: nat, woken: nat -> bool): Service
    requires C.Lookup(s.cache, addr).entries == s.cache.entries
    requires addr in s.cache.entries || C.CanPick(C.UsedIds(s.cache), draws)
    requires R.Enabled(s.pool, R.Enqueue(addr, woken))
  {
    var c := C.Lookup(s.cache, addr);
    if !C.IsExpired(s.cache, addr) then s.(cache := c)
    else
      var known := addr in s.cache.entries && addr in s.current;
      var item := if known then s.current[addr] else |s.items|;
      Service(R.Step(s.pool, R.Enqueue(addr, woken)), C.Prepare(c, addr, draws, random),
              if known then s.items else s.items + [addr], s.current[addr := item], s.requested + [item])
  }

  // A thread that reports on an item that was freed makes no change to the cache; what else it does is left open.
  function Step(s: Service, a: Act): Service
    requires Enabled(s, a) && CR.Inv(s.cache)
  {
    match a
    case ThreadMoves(e) => s.(pool := R.Step(s.pool, e))
    case LookUp(addr, draws, random, woken) =>
      LookupKeepsEntries(s.cache, addr);
      LookUpStep(s, addr, draws, random, woken)
    case AnswerNotFound(w, random) =>
      WithCache(s, C.Fail(s.cache, s.pool.workers[w].t.addr, random)).(pool := R.Step(s.pool, R.Report(w)))
    case AnswerFound(w, name, random) =>
      WithCache(s, C.Succeed(s.cache, s.pool.workers[w].t.addr, ONE_DAY, Some(name), random)).(pool := R.Step(s.pool, R.Report(w)))
    case StaleAnswer(w) => s.(pool := R.Step(s.pool, R.Report(w)))
    case ClockTicks => s.(cache := C.Tick(s.cache))
    case CacheCleared => WithCache(s, C.Clear(s.cache))
    case StopThreads => s.(pool := R.Step(s.pool, R.StopAll))
  }

  // A lookup moves an answered item to the front; nothing is purged.
  lemma LookupKeepsEntries(c: C.Cache, a: Address)
    requires CR.Inv(c)
    ensures C.Lookup(c, a).entries == c.entries && CR.Inv(C.Lookup(c, a))
    ensures C.UsedIds(C.Lookup(c, a)) == C.UsedIds(c)
  {
    assert CR.Apply(c, CR.OpLookup(a)) == C.Lookup(c, a);
    CR.ApplyKeepsInv(c, CR.OpLookup(a));
  }

  // What an act does to the cache, as one of its operations; it is not used for the other acts.
  function AnswerOp(s: Service, a: Act): CR.Op
    requires Enabled(s, a) && (a.AnswerNotFound? || a.AnswerFound?)
  {
    var t := s.pool.workers[a.w].t;
    if a.AnswerNotFound? then CR.OpFail(t.addr, a.random) else CR.OpSucceed(t.addr, ONE_DAY, Some(a.name), a.random)
  }

  /** No thread is ever stuck: whatever it can do next in the pool, some act does. */
  lemma NoThreadStuck(s: Service, e: R.Event)
    requires CR.Inv(s.cache) && R.Enabled(s.pool, e) && (R.ThreadStep(e) || e.Spurious?)
    ensures exists a: Act :: Enabled(s, a) && Step(s, a).pool == R.Step(s.pool, e)
  {
    if e.Report? {
      var a := if Present(s, s.pool.workers[e.w].t) then AnswerNotFound(e.w, 0) else StaleAnswer(e.w);
      assert Enabled(s, a) && Step(s, a).pool == R.Step(s.pool, e);
    } else {
      assert Enabled(s, ThreadMoves(e)) && Step(s, ThreadMoves(e)).pool == R.Step(s.pool, e);
    }
  }

  // ---- items ----

  /** The cache holds one item per address, and every request points to an item of its address. */
  ghost predicate ItemsOk(s: Service) {
    && s.current.Keys == s.cache.entries.Keys
    && (forall a | a in s.current :: s.current[a] < |s.items| && s.items[s.current[a]] == a)
    && |s.requested| == |s.pool.enqueued|
    && (forall i :: 0 <= i < |s.requested| ==>
          s.pool.enqueued[i].serial == i && s.requested[i] < |s.items| && s.items[s.requested[i]] == s.pool.enqueued[i].addr)
  }

  // The i-th request is for this item, and has not been answered.
  predicate Owes(p: R.Pool, requested: seq<nat>, i: int, item: nat) {
    0 <= i < |requested| && i < |p.enqueued| && requested[i] == item && p.answered[p.enqueued[i]] == 0
  }

  // The i-th request was for this item, and has been answered.
  predicate Served(p: R.Pool, requested: seq<nat>, i: int, item: nat) {
    0 <= i < |requested| && i < |p.enqueued| && requested[i] == item && p.answered[p.enqueued[i]] > 0
  }

  ghost predicate Owed(p: R.Pool, requested: seq<nat>, item: nat) {
    exists i :: Owes(p, requested, i, item)
  }

  ghost predicate Settled(p: R.Pool, requested: seq<nat>, item: nat) {
    exists i :: Served(p, requested, i, item)
  }

  /** For every item of the cache that never got an answer, a request for this very item is under way. */
  ghost predicate AllOwed(s: Service) {
    forall a | a in s.cache.entries && a in s.current && !s.cache.entries[a].answered :: Owed(s.pool, s.requested, s.current[a])
  }

  /** Items with an answer had a request answered; and until a request for an item is answered, the item is in the
      cache. */
  ghost predicate Held(s: Service) {
    && (forall a | a in s.cache.entries && a in s.current && s.cache.entries[a].answered :: Settled(s.pool, s.requested, s.current[a]))
    && (forall i :: 0 <= i < |s.requested| && i < |s.pool.enqueued| ==>
          Settled(s.pool, s.requested, s.requested[i]) || Present(s, s.pool.enqueued[i]))
  }

  ghost predicate Inv(s: Service) {
    R.Inv(s.pool) && CR.Inv(s.cache) && ItemsOk(s) && AllOwed(s) && Held(s)
  }

  // A thread works on a request that was enqueued.
  lemma TicketIsEnqueued(p: R.Pool, w: nat)
    requires R.Inv(p) && R.Enabled(p, R.Report(w))
    ensures R.Live(p, w) && p.workers[w].Reporting?
    ensures var t := p.workers[w].t; t.serial < |p.enqueued| && p.enqueued[t.serial] == t
  {
    var t := p.workers[w].t;
    assert R.Accounted(p, t);
    R.SumAtLeast(p.workers, R.Holding(t), w);
    assert t in p.taken;
    var k :| 0 <= k < |p.taken| && p.taken[k] == t;
    assert p.enqueued[k] == t;
  }

  // What a step of the pool does to the requests
  lemma PoolRequests(p: R.Pool, e: R.Event)
    requires R.Inv(p) && R.Enabled(p, e)
    ensures R.Inv(R.Step(p, e)) && |R.Step(p, e).workers| == |p.workers|
    ensures forall i :: 0 <= i < |p.enqueued| ==> p.enqueued[i].serial == i
    ensures var r := R.Step(p, e);
            && r.enqueued == (if e.Enqueue? then p.enqueued + [R.Ticket(|p.enqueued|, e.addr)] else p.enqueued)
            && (forall t: R.Ticket :: r.answered[t] == p.answered[t] + if e.Report? && t == p.workers[e.w].t then 1 else 0)
  {
    R.StepKeepsInv(p, e);
  }

  // A request that is just enqueued has no answer.
  lemma NotYetAnswered(p: R.Pool, t: R.Ticket)
    requires R.Inv(p) && t.serial >= |p.enqueued|
    ensures p.answered[t] == 0
  {
    assert R.Accounted(p, t);
    assert t !in p.taken by {
      assert forall k :: 0 <= k < |p.taken| ==> p.taken[k] == p.enqueued[k];
    }
  }

  // Answered requests stay answered.
  lemma SettledStays(p: R.Pool, e: R.Event, requested: seq<nat>, more: seq<nat>, item: nat)
    requires R.Inv(p) && R.Enabled(p, e) && Settled(p, requested, item)
    ensures Settled(R.Step(p, e), requested + more, item)
  {
    hide R.Inv, R.Enabled, R.Step;
    PoolRequests(p, e);
    var i :| Served(p, requested, i, item);
    assert Served(R.Step(p, e), requested + more, i, item);
  }

  // What is owed to an item stays owed, unless a request for it is answered.
  lemma OwedStays(p: R.Pool, e: R.Event, requested: seq<nat>, more: seq<nat>, item: nat)
    requires R.Inv(p) && R.Enabled(p, e) && Owed(p, requested, item) && |requested| == |p.enqueued|
    requires e.Report? ==> var k := p.workers[e.w].t.serial; k < |requested| ==> requested[k] != item
    ensures Owed(R.Step(p, e), requested + more, item)
  {
    hide R.Inv, R.Enabled, R.Step;
    PoolRequests(p, e);
    var i :| Owes(p, requested, i, item);
    assert Owes(R.Step(p, e), requested + more, i, item);
  }

  // ---- acts that leave the cache to itself ----

  // The pool moves; if a request is answered, its item is not in the cache.
  lemma PoolKeepsInv(s: Service, e: R.Event)
    requires Inv(s) && R.Enabled(s.pool, e) && !e.Enqueue?
    requires e.Report? ==> !Present(s, s.pool.workers[e.w].t)
    ensures Inv(s.(pool := R.Step(s.pool, e)))
  {
    hide R.Inv, CR.Inv, R.Enabled, R.Step, Settled, Owed;
    var r := s.(pool := R.Step(s.pool, e));
    PoolRequests(s.pool, e);
    assert s.requested + [] == s.requested;
    if e.Report? {
      TicketIsEnqueued(s.pool, e.w);
      assert s.items[s.requested[s.pool.workers[e.w].t.serial]] == s.pool.workers[e.w].t.addr;
    }
    forall a | a in s.cache.entries && !s.cache.entries[a].answered ensures Owed(r.pool, r.requested, r.current[a]) {
      OwedStays(s.pool, e, s.requested, [], s.current[a]);
    }
    forall item: nat | Settled(s.pool, s.requested, item) ensures Settled(r.pool, r.requested, item) {
      SettledStays(s.pool, e, s.requested, [], item);
    }
  }

  lemma TickKeepsInv(s: Service)
    requires Inv(s)
    ensures Inv(s.(cache := C.Tick(s.cache)))
  {
    hide R.Inv, CR.Inv, Settled, Owed;
    CR.ApplyKeepsInv(s.cache, CR.OpTick);
  }

  // ---- acts that change the cache ----

  // Items leave the cache only with an answer; and at most the one that is answered changes.
  ghost predicate Drops(c: C.Cache, d: C.Cache, changed: set<Address>) {
    && (forall b | b in d.entries :: b in c.entries)
    && (forall b | b in c.entries && b !in d.entries :: c.entries[b].answered)
    && (forall b | b in d.entries && b !in changed :: d.entries[b] == c.entries[b])
    && (forall b | b in changed :: b in d.entries && d.entries[b].answered)
  }

  lemma AnswerDrops(c: C.Cache, op: CR.Op)
    requires CR.Inv(c) && CR.Enabled(c, op) && (op.OpFail? || op.OpSucceed?)
    ensures Drops(c, CR.Apply(c, op), {op.addr}) && CR.Inv(CR.Apply(c, op))
  {
    CR.ApplyKeepsInv(c, op);
  }

  lemma ClearDrops(c: C.Cache)
    requires CR.Inv(c)
    ensures Drops(c, C.Clear(c), {}) && CR.Inv(C.Clear(c))
  {
    assert CR.Apply(c, CR.OpClear) == C.Clear(c);
    CR.ApplyKeepsInv(c, CR.OpClear);
    assert c.lru[0..] == c.lru;
  }

  lemma ClearKeepsInv(s: Service)
    requires Inv(s)
    ensures Inv(WithCache(s, C.Clear(s.cache)))
  {
    hide R.Inv, CR.Inv, Settled, Owed, C.Clear;
    ClearDrops(s.cache);
  }

  // The request t is answered, and its item is in the cache.
  ghost predicate OneAnswer(s: Service, r: Service, t: R.Ticket) {
    && r == WithCache(s, r.cache).(pool := r.pool) && r.pool.enqueued == s.pool.enqueued
    && t.serial < |s.requested| && t.serial < |s.pool.enqueued| && s.pool.enqueued[t.serial] == t
    && Present(s, t) && Drops(s.cache, r.cache, {t.addr})
  }

  lemma AnswerIsOwed(s: Service, r: Service, t: R.Ticket)
    requires ItemsOk(s) && AllOwed(s) && OneAnswer(s, r, t)
    requires forall item: nat | Owed(s.pool, s.requested, item) && item != s.requested[t.serial] :: Owed(r.pool, r.requested, item)
    ensures ItemsOk(r) && AllOwed(r)
  {
    hide Owed;
    forall a | a in r.cache.entries && !r.cache.entries[a].answered ensures Owed(r.pool, r.requested, r.current[a]) {
      assert s.items[s.requested[t.serial]] == t.addr != a;
    }
  }

  lemma AnswerIsHeld(s: Service, r: Service, t: R.Ticket)
    requires ItemsOk(s) && Held(s) && OneAnswer(s, r, t) && Settled(r.pool, r.requested, s.requested[t.serial])
    requires forall item: nat | Settled(s.pool, s.requested, item) :: Settled(r.pool, r.requested, item)
    ensures Held(r)
  {
    hide Settled;
  }

  lemma AnswerKeepsInv(s: Service, w: nat, op: CR.Op)
    requires Inv(s) && R.Enabled(s.pool, R.Report(w)) && Present(s, s.pool.workers[w].t)
    requires (op.OpFail? || op.OpSucceed?) && op.addr == s.pool.workers[w].t.addr && CR.Enabled(s.cache, op)
    ensures Inv(WithCache(s, CR.Apply(s.cache, op)).(pool := R.Step(s.pool, R.Report(w))))
  {
    hide R.Inv, CR.Inv, R.Enabled, R.Step, Settled, Owed, CR.Apply, CR.Enabled, Drops, AllOwed, Held;
    var r := WithCache(s, CR.Apply(s.cache, op)).(pool := R.Step(s.pool, R.Report(w)));
    TicketIsEnqueued(s.pool, w);
    var t := s.pool.workers[w].t;
    AnswerDrops(s.cache, op);
    PoolRequests(s.pool, R.Report(w));
    assert s.requested + [] == s.requested;
    forall item: nat | Owed(s.pool, s.requested, item) && item != s.requested[t.serial] ensures Owed(r.pool, r.requested, item) {
      OwedStays(s.pool, R.Report(w), s.requested, [], item);
    }
    forall item: nat | Settled(s.pool, s.requested, item) ensures Settled(r.pool, r.requested, item) {
      SettledStays(s.pool, R.Report(w), s.requested, [], item);
    }
    NowSettled(r.pool, r.requested, t.serial);
    AnswerIsOwed(s, r, t);
    AnswerIsHeld(s, r, t);
  }

  lemma NowSettled(p: R.Pool, requested: seq<nat>, i: nat)
    requires i < |requested| == |p.enqueued| && p.answered[p.enqueued[i]] > 0
    ensures Settled(p, requested, requested[i])
  {
    assert Served(p, requested, i, requested[i]);
  }

  lemma NowOwed(p: R.Pool, requested: seq<nat>, i: nat)
    requires i < |requested| == |p.enqueued| && p.answered[p.enqueued[i]] == 0
    ensures Owed(p, requested, requested[i])
  {
    assert Owes(p, requested, i, requested[i]);
  }

  lemma PrepareEntries(c: C.Cache, a: Address, draws: seq<nat>, random: nat)
    requires a in c.entries || C.CanPick(C.UsedIds(c), draws)
    ensures var d := C.Prepare(c, a, draws, random);
            && d.entries.Keys == c.entries.Keys + {a}
            && (d.entries[a].answered <==> a in c.entries && c.entries[a].answered)
            && (forall b | b in c.entries && b != a :: d.entries[b] == c.entries[b])
  {}

  // One request more, for the item of the address, which is a new one if the cache had none
  ghost predicate OneMoreRequest(s: Service, r: Service, addr: Address) {
    && |r.requested| == |s.requested| + 1 && r.requested == s.requested + [r.requested[|s.requested|]]
    && r.pool.enqueued == s.pool.enqueued + [R.Ticket(|s.requested|, addr)]
    && (if addr in s.current then r.items == s.items && r.current == s.current
        else r.items == s.items + [addr] && r.current == s.current[addr := |s.items|])
    && r.requested[|s.requested|] == r.current[addr]
    && r.cache.entries.Keys == s.cache.entries.Keys + {addr}
    && (r.cache.entries[addr].answered <==> addr in s.cache.entries && s.cache.entries[addr].answered)
    && (forall b | b in s.cache.entries && b != addr :: r.cache.entries[b] == s.cache.entries[b])
  }

  lemma OneMoreIsHeld(s: Service, r: Service, addr: Address)
    requires ItemsOk(s) && Held(s) && OneMoreRequest(s, r, addr)
    requires forall item: nat | Settled(s.pool, s.requested, item) :: Settled(r.pool, r.requested, item)
    ensures Held(r)
  {
    hide Settled;
    forall i | 0 <= i < |r.requested| ensures Settled(r.pool, r.requested, r.requested[i]) || Present(r, r.pool.enqueued[i]) {
      if i < |s.requested| {
        assert r.requested[i] == s.requested[i] && r.pool.enqueued[i] == s.pool.enqueued[i];
      }
    }
  }

  lemma OneMoreIsOwed(s: Service, r: Service, addr: Address)
    requires ItemsOk(s) && AllOwed(s) && OneMoreRequest(s, r, addr)
    requires forall item: nat | Owed(s.pool, s.requested, item) :: Owed(r.pool, r.requested, item)
    requires Owed(r.pool, r.requested, r.current[addr])
    ensures ItemsOk(r) && AllOwed(r)
  {
    hide Owed;
  }

  lemma LookUpKeepsInv(s: Service, addr: Address, draws: seq<nat>, random: nat, woken: nat -> bool)
    requires Inv(s) && Enabled(s, LookUp(addr, draws, random, woken))
    ensures Inv(Step(s, LookUp(addr, draws, random, woken)))
  {
    hide R.Inv, CR.Inv, R.Enabled, R.Step, Settled, Owed, C.Prepare, C.Lookup, C.IsExpired;
    LookupKeepsEntries(s.cache, addr);
    if C.IsExpired(s.cache, addr) {
      ExpiredLookUpKeepsInv(s, addr, draws, random, woken);
    }
  }

  lemma ExpiredLookUpKeepsInv(s: Service, addr: Address, draws: seq<nat>, random: nat, woken: nat -> bool)
    requires Inv(s) && Enabled(s, LookUp(addr, draws, random, woken)) && C.IsExpired(s.cache, addr)
    ensures C.Lookup(s.cache, addr).entries == s.cache.entries
    ensures Inv(LookUpStep(s, addr, draws, random, woken))
  {
    hide R.Inv, CR.Inv, R.Enabled, R.Step, Settled, Owed, AllOwed, Held, C.Prepare, C.Lookup, C.IsExpired;
    LookupKeepsEntries(s.cache, addr);
    var c, r, n := C.Lookup(s.cache, addr), LookUpStep(s, addr, draws, random, woken), |s.requested|;
    CR.PrepareKeepsInv(c, addr, draws, random);
    PrepareEntries(c, addr, draws, random);
    EnqueueRequests(s.pool, addr, woken, s.requested, r.requested[n]);
    assert r.requested == s.requested + [r.requested[n]] && OneMoreRequest(s, r, addr);
    OneMoreIsHeld(s, r, addr);
    OneMoreIsOwed(s, r, addr);
  }

  // An enqueued request is owed to its item; otherwise nothing changes in what is owed and settled.
  lemma EnqueueRequests(p: R.Pool, addr: Address, woken: nat -> bool, requested: seq<nat>, item: nat)
    requires R.Inv(p) && R.Enabled(p, R.Enqueue(addr, woken)) && |requested| == |p.enqueued|
    ensures var r := R.Step(p, R.Enqueue(addr, woken));
            && R.Inv(r) && r.enqueued == p.enqueued + [R.Ticket(|p.enqueued|, addr)]
            && Owed(r, requested + [item], item)
            && (forall x: nat | Owed(p, requested, x) :: Owed(r, requested + [item], x))
            && (forall x: nat | Settled(p, requested, x) :: Settled(r, requested + [item], x))
  {
    hide R.Inv, R.Enabled, R.Step, Settled, Owed;
    var e := R.Enqueue(addr, woken);
    PoolRequests(p, e);
    NotYetAnswered(p, R.Ticket(|p.enqueued|, addr));
    NowOwed(R.Step(p, e), requested + [item], |requested|);
    forall x: nat | Owed(p, requested, x) ensures Owed(R.Step(p, e), requested + [item], x) {
      OwedStays(p, e, requested, [item], x);
    }
    forall x: nat | Settled(p, requested, x) ensures Settled(R.Step(p, e), requested + [item], x) {
      SettledStays(p, e, requested, [item], x);
    }
  }

  lemma StepKeepsInv(s: Service, a: Act)
    requires Inv(s) && Enabled(s, a)
    ensures Inv(Step(s, a))
  {
    hide Inv, R.Inv, R.Step, C.Fail, C.Succeed;
    InvHasParts(s);
    match a
    case ThreadMoves(e) => PoolKeepsInv(s, e);
    case LookUp(addr, draws, random, woken) => LookUpKeepsInv(s, addr, draws, random, woken);
    case AnswerNotFound(w, random) => AnswerKeepsInv(s, w, AnswerOp(s, a));
    case AnswerFound(w, name, random) => AnswerKeepsInv(s, w, AnswerOp(s, a));
    case StaleAnswer(w) => PoolKeepsInv(s, R.Report(w));
    case ClockTicks => TickKeepsInv(s);
    case CacheCleared => ClearKeepsInv(s);
    case StopThreads => PoolKeepsInv(s, R.StopAll);
  }

  lemma InvHasParts(s: Service)
    requires Inv(s)
    ensures R.Inv(s.pool) && CR.Inv(s.cache) && ItemsOk(s)
  {}

  lemma StepKeepsThreads(s: Service, a: Act)
    requires CR.Inv(s.cache) && Enabled(s, a)
    ensures |Step(s, a).pool.workers| == |s.pool.workers|
  {
    hide CR.Inv, C.Fail, C.Succeed, C.Prepare;
  }

  // ---- when an item leaves the cache ----

  // The addresses that an answer for `addr` evicts: the end of the active list, if the item is new on it and
  // the list is too long. A late failure changes nothing.
  function Evicted(c: C.Cache, addr: Address, failed: bool): seq<Address>
    requires addr in c.entries
  {
    if addr in c.lru || (failed && c.entries[addr].state.Finished?) || |c.lru| <= 1024 then [] else c.lru[1013..]
  }

  /** The act takes the item of this address out of the cache: the cache is cleared and the item is on the active
      list, or an answer for another address evicts it. */
  predicate TakesOut(s: Service, a: Act, addr: Address)
    requires Enabled(s, a)
  {
    match a
    case CacheCleared => addr in s.cache.lru
    case AnswerNotFound(w, _) => addr in Evicted(s.cache, s.pool.workers[w].t.addr, true)
    case AnswerFound(w, _, _) => addr in Evicted(s.cache, s.pool.workers[w].t.addr, false)
    case _ => false
  }

  lemma AnswerEvicts(c: C.Cache, op: CR.Op)
    requires CR.Inv(c) && CR.Enabled(c, op) && (op.OpFail? || op.OpSucceed?)
    ensures forall b | b in c.entries :: b in CR.Apply(c, op).entries <==> b !in Evicted(c, op.addr, op.OpFail?)
  {
    assert c.lru[..C.Kept(|c.lru|)] + c.lru[C.Kept(|c.lru|)..] == c.lru;
  }

  lemma ClearTakesOut(c: C.Cache)
    ensures forall b | b in c.entries :: b in C.Clear(c).entries <==> b !in c.lru
  {
    assert c.lru[0..] == c.lru;
  }

  lemma TicketInPool(s: Service, t: R.Ticket)
    requires ItemsOk(s) && t in s.pool.enqueued
    ensures t.serial < |s.requested| && s.pool.enqueued[t.serial] == t && s.requested[t.serial] < |s.items|
    ensures s.items[s.requested[t.serial]] == t.addr
  {
    var i :| 0 <= i < |s.pool.enqueued| && s.pool.enqueued[i] == t;
  }

  // A lookup keeps the items of the cache, and never brings an old one back.
  lemma LookUpKeepsPresent(s: Service, a: Act, t: R.Ticket)
    requires CR.Inv(s.cache) && ItemsOk(s) && a.LookUp? && Enabled(s, a) && t in s.pool.enqueued
    ensures Present(Step(s, a), t) <==> Present(s, t)
    ensures t in Step(s, a).pool.enqueued
  {
    hide CR.Inv, C.Prepare, C.Lookup, C.IsExpired, R.Enabled;
    TicketInPool(s, t);
    LookupKeepsEntries(s.cache, a.addr);
    PrepareEntries(C.Lookup(s.cache, a.addr), a.addr, a.draws, a.random);
  }

  /** One act: the item of an outstanding request leaves the cache exactly if the act takes it out, and never comes
      back. */
  lemma LeavesIff(s: Service, a: Act, t: R.Ticket)
    requires Inv(s) && Enabled(s, a) && t in s.pool.enqueued
    ensures Present(Step(s, a), t) <==> Present(s, t) && !TakesOut(s, a, t.addr)
    ensures t in Step(s, a).pool.enqueued
  {
    hide Inv, R.Inv, CR.Inv, CR.Apply, C.Prepare, C.Lookup, C.Clear, C.Fail, C.Succeed, Evicted;
    InvHasParts(s);
    match a
    case LookUp(addr, draws, random, woken) => LookUpKeepsPresent(s, a, t);
    case AnswerNotFound(w, random) => AnswerLeavesIff(s, a, t);
    case AnswerFound(w, name, random) => AnswerLeavesIff(s, a, t);
    case CacheCleared =>
      ClearTakesOut(s.cache);
      ClearDrops(s.cache);
    case _ =>
  }

  lemma AnswerLeavesIff(s: Service, a: Act, t: R.Ticket)
    requires CR.Inv(s.cache) && Enabled(s, a) && (a.AnswerNotFound? || a.AnswerFound?) && t in s.pool.enqueued
    ensures Present(Step(s, a), t) <==> Present(s, t) && !TakesOut(s, a, t.addr)
    ensures t in Step(s, a).pool.enqueued
  {
    hide CR.Inv, CR.Apply, C.Fail, C.Succeed, Evicted;
    var op := AnswerOp(s, a);
    assert CR.Apply(s.cache, op) == Step(s, a).cache by {
      AnswerIsOp(s, a);
    }
    AnswerEvicts(s.cache, op);
    AnswerDrops(s.cache, op);
  }

  lemma AnswerIsOp(s: Service, a: Act)
    requires CR.Inv(s.cache) && Enabled(s, a) && (a.AnswerNotFound? || a.AnswerFound?)
    ensures CR.Enabled(s.cache, AnswerOp(s, a)) && CR.Apply(s.cache, AnswerOp(s, a)) == Step(s, a).cache
  {}

  // ---- runs ----

  ghost predicate Possible(s: Service, acts: seq<Act>)
    decreases |acts|
  {
    acts == [] || (Enabled(s, acts[0]) && CR.Inv(s.cache) && Possible(Step(s, acts[0]), acts[1..]))
  }

  ghost function After(s: Service, acts: seq<Act>): Service
    requires Possible(s, acts)
    decreases |acts|
  {
    if acts == [] then s else After(Step(s, acts[0]), acts[1..])
  }

  lemma {:induction false} RunKeepsInv(s: Service, acts: seq<Act>)
    requires Inv(s) && Possible(s, acts)
    ensures Inv(After(s, acts)) && |After(s, acts).pool.workers| == |s.pool.workers|
    decreases |acts|
  {
    hide Enabled, Step, Inv;
    if acts != [] {
      StepKeepsInv(s, acts[0]);
      StepKeepsThreads(s, acts[0]);
      RunKeepsInv(Step(s, acts[0]), acts[1..]);
    }
  }

  function Start(threads: nat): Service {
    Service(R.Init(threads), C.EMPTY, [], map[], [])
  }

  lemma StartIsOk(threads: nat)
    ensures Inv(Start(threads))
  {
    R.InitInv(threads);
  }

  lemma Reachable(threads: nat, acts: seq<Act>)
    requires Possible(Start(threads), acts)
    ensures Inv(After(Start(threads), acts)) && |After(Start(threads), acts).pool.workers| == threads
  {
    hide Inv;
    StartIsOk(threads);
    RunKeepsInv(Start(threads), acts);
  }

  /** In every interleaving, an item of the cache without an answer has a request that waits in the queue, is in the
      hands of a thread, or was abandoned because the pool was stopped. */
  lemma NoLookupForgotten(threads: nat, acts: seq<Act>, a: Address)
    requires Possible(Start(threads), acts)
    requires var c := After(Start(threads), acts).cache; a in c.entries && !c.entries[a].answered
    ensures var s := After(Start(threads), acts);
            exists t :: t in s.pool.enqueued && t.addr == a && Present(s, t) &&
              (t in s.pool.queue || R.Sum(s.pool.workers, R.Holding(t)) > 0 || (s.pool.stop && s.pool.abandoned[t] > 0))
  {
    Reachable(threads, acts);
    var s := After(Start(threads), acts);
    assert Owed(s.pool, s.requested, s.current[a]);
    var i :| Owes(s.pool, s.requested, i, s.current[a]);
    var t := s.pool.enqueued[i];
    assert t in s.pool.enqueued && t.addr == a && Present(s, t);
    assert R.Accounted(s.pool, t);
    assert t in s.pool.taken ==> multiset(s.pool.taken)[t] > 0;
  }

  /** In every interleaving, a request that is the first to be answered for its item finds the item in the cache,
      still without an answer: it was not evicted or cleared meanwhile. */
  lemma FirstAnswerFindsItem(threads: nat, acts: seq<Act>, t: R.Ticket)
    requires Possible(Start(threads), acts)
    requires var s := After(Start(threads), acts);
             t in s.pool.enqueued && t.serial < |s.requested| && !Settled(s.pool, s.requested, s.requested[t.serial])
    ensures var s := After(Start(threads), acts); Present(s, t) && !s.cache.entries[t.addr].answered
  {
    Reachable(threads, acts);
    TicketInPool(After(Start(threads), acts), t);
  }

  /** So when the threads of a running pool come to rest, every address ever looked up and still in the cache has had
      an answer; and they do come to rest, because no thread is stuck and their steps are bounded. */
  lemma RestAnswersAll(threads: nat, acts: seq<Act>, a: Address)
    requires Possible(Start(threads), acts) && threads > 0
    requires var s := After(Start(threads), acts); R.AtRest(s.pool) && !s.pool.stop && a in s.cache.entries
    ensures After(Start(threads), acts).cache.entries[a].answered
  {
    Reachable(threads, acts);
    var s := After(Start(threads), acts);
    RestOwesNothing(s.pool, s.requested, s.current[a]);
  }

  lemma RestOwesNothing(p: R.Pool, requested: seq<nat>, item: nat)
    requires R.Inv(p) && p.workers != [] && R.AtRest(p) && !p.stop
    ensures !Owed(p, requested, item)
  {
    R.RestIsDone(p);
    assert forall i :: 0 <= i < |p.enqueued| ==> p.enqueued[i] in p.enqueued && multiset(p.enqueued)[p.enqueued[i]] > 0;
  }

  predicate IsThreadAct(a: Act) {
    a.AnswerNotFound? || a.AnswerFound? || a.StaleAnswer? || (a.ThreadMoves? && !a.e.Spurious?)
  }

  function Many(acts: seq<Act>, f: Act -> bool): nat {
    if acts == [] then 0 else (if f(acts[0]) then 1 else 0) + Many(acts[1..], f)
  }

  lemma ActWorks(s: Service, a: Act)
    requires CR.Inv(s.cache) && Enabled(s, a) && !a.LookUp? && !a.StopThreads?
    ensures IsThreadAct(a) ==> R.Work(Step(s, a).pool) < R.Work(s.pool)
    ensures !IsThreadAct(a) ==> R.Work(Step(s, a).pool) <= R.Work(s.pool) + if a.ThreadMoves? then 3 else 0
  {
    hide R.Work, R.Step, CR.Inv, C.Fail, C.Succeed, C.Clear;
    match a
    case ThreadMoves(e) => R.StepWorks(s.pool, e);
    case AnswerNotFound(w, _) => R.StepWorks(s.pool, R.Report(w));
    case AnswerFound(w, _, _) => R.StepWorks(s.pool, R.Report(w));
    case StaleAnswer(w) => R.StepWorks(s.pool, R.Report(w));
    case _ =>
  }

  /** Without new lookups the threads act a bounded number of times, whatever the clock and the cache do meanwhile. */
  lemma {:induction false} ActsAreBounded(s: Service, acts: seq<Act>)
    requires Possible(s, acts) && forall a | a in acts :: !a.LookUp? && !a.StopThreads?
    ensures Many(acts, a => IsThreadAct(a)) <= R.Work(s.pool) + 3 * Many(acts, (a: Act) => a.ThreadMoves? && a.e.Spurious?)
    decreases |acts|
  {
    hide Enabled, Step, R.Work;
    if acts != [] {
      assert acts[0] in acts && forall a | a in acts[1..] :: a in acts;
      ActWorks(s, acts[0]);
      ActsAreBounded(Step(s, acts[0]), acts[1..]);
    }
  }

  // No act of the run takes out the item of this address.
  ghost predicate NeverTakenOut(s: Service, acts: seq<Act>, addr: Address)
    requires Possible(s, acts)
    decreases |acts|
  {
    acts == [] || (!TakesOut(s, acts[0], addr) && NeverTakenOut(Step(s, acts[0]), acts[1..], addr))
  }

  /** From any moment on, the item of a request is in the cache exactly if it is there now and no act takes it out. */
  lemma {:induction false} PresentIff(s: Service, acts: seq<Act>, t: R.Ticket)
    requires Inv(s) && Possible(s, acts) && t in s.pool.enqueued
    ensures Present(After(s, acts), t) <==> Present(s, t) && NeverTakenOut(s, acts, t.addr)
    decreases |acts|
  {
    hide Enabled, Step, Inv, Present, TakesOut;
    if acts != [] {
      StepKeepsInv(s, acts[0]);
      LeavesIff(s, acts[0], t);
      PresentIff(Step(s, acts[0]), acts[1..], t);
    }
  }

  /** In every interleaving, the request of a lookup finds its item in the cache, at whatever time a thread reports on
      it, exactly if no act since the lookup cleared the item or evicted it. */
  lemma ReportFindsItemIff(threads: nat, before: seq<Act>, ask: Act, acts: seq<Act>)
    requires Possible(Start(threads), before) && ask.LookUp? && Enabled(After(Start(threads), before), ask)
    requires var s := After(Start(threads), before);
             CR.Inv(s.cache) && C.IsExpired(s.cache, ask.addr) && Possible(Step(s, ask), acts)
    ensures var s := After(Start(threads), before);
            var t := R.Ticket(|s.pool.enqueued|, ask.addr);
            Present(After(Step(s, ask), acts), t) <==> NeverTakenOut(Step(s, ask), acts, ask.addr)
  {
    hide Inv, R.Inv, CR.Inv, NeverTakenOut, C.IsExpired;
    Reachable(threads, before);
    var s := After(Start(threads), before);
    StepKeepsInv(s, ask);
    LookUpIsPresent(s, ask);
    PresentIff(Step(s, ask), acts, R.Ticket(|s.pool.enqueued|, ask.addr));
  }

  lemma LookUpIsPresent(s: Service, ask: Act)
    requires Inv(s) && ask.LookUp? && Enabled(s, ask) && C.IsExpired(s.cache, ask.addr)
    ensures var t := R.Ticket(|s.pool.enqueued|, ask.addr); t in Step(s, ask).pool.enqueued && Present(Step(s, ask), t)
  {
    hide R.Inv, CR.Inv, C.Prepare, C.IsExpired, C.Lookup, AllOwed, Held;
    LookupKeepsEntries(s.cache, ask.addr);
    PrepareEntries(C.Lookup(s.cache, ask.addr), ask.addr, ask.draws, ask.random);
    var t := R.Ticket(|s.pool.enqueued|, ask.addr);
    assert Step(s, ask).pool.enqueued[|s.pool.enqueued|] == t;
  }

  // ---- runs put together ----

  lemma {:induction false} RunsJoin(s: Service, xs: seq<Act>, ys: seq<Act>)
    requires Possible(s, xs) && Possible(After(s, xs), ys)
    ensures Possible(s, xs + ys) && After(s, xs + ys) == After(After(s, xs), ys)
    decreases |xs|
  {
    hide Enabled, Step;
    if xs == [] {
      assert xs + ys == ys;
    } else {
      assert (xs + ys)[1..] == xs[1..] + ys;
      RunsJoin(Step(s, xs[0]), xs[1..], ys);
    }
  }

  lemma OneAct(s: Service, a: Act)
    requires Inv(s) && Enabled(s, a)
    ensures Possible(s, [a]) && After(s, [a]) == Step(s, a) && Inv(Step(s, a))
  {
    hide Enabled, Step;
    StepKeepsInv(s, a);
    assert [a][1..] == [];
    assert Possible(Step(s, a), []);
  }
}
