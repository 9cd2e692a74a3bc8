/** A run of two lookups of one address in which a thread reports on an item that has left the cache
    (src/thread_resolve.c:151-160, src/ip-cache.c:636-644). */
module LateReports {
  import opened Wrappers
  import opened Bytes
  import C = IpCacheSpec
  import CR = IpCacheRuns
  import R = Resolver
  import opened LookupRuns

  // A thread takes the first request and asks the name server.
  function Takes(w: nat): seq<Act> {
    [ThreadMoves(R.Enter(w)), ThreadMoves(R.Lock(w)), ThreadMoves(R.Resolved(w))]
  }

  lemma ThreadTakes(s: Service, w: nat)
    requires Inv(s) && R.Live(s.pool, w) && s.pool.workers[w] == R.Top && !s.pool.stop && s.pool.queue != []
    ensures Possible(s, Takes(w)) && Inv(After(s, Takes(w)))
    ensures var p := s.pool;
            After(s, Takes(w)) == s.(pool := R.Set(p, w, R.Reporting(p.queue[0])).(queue := p.queue[1..], taken := p.taken + [p.queue[0]]))
  {
    hide Inv;
    var e, l, r := ThreadMoves(R.Enter(w)), ThreadMoves(R.Lock(w)), ThreadMoves(R.Resolved(w));
    OneAct(s, e);
    OneAct(Step(s, e), l);
    OneAct(Step(Step(s, e), l), r);
    RunsJoin(s, [e], [l]);
    RunsJoin(s, [e] + [l], [r]);
    assert [e] + [l] + [r] == Takes(w);
  }

  // A lookup while no thread waits; the generators draw 0.
  function Ask(a: Address): Act {
    LookUp(a, [0], 0, Nobody())
  }

  function Nobody(): nat -> bool {
    _ => false
  }

  // Two threads at their start, the given requests for the first item, and the item with this expiry
  function Asked(a: Address, requests: nat, tick: nat, expiry: nat): Service {
    var ts := seq(requests, i requires 0 <= i < requests => R.Ticket(i, a));
    Service(R.Pool([R.Top, R.Top], ts, false, ts, [], multiset{}, multiset{}),
            C.Cache(map[a := C.Entry(0, C.PtrReq, expiry, expiry, None, false)], [], tick),
            [a], map[a := 0], seq(requests, i => 0))
  }

  lemma FirstAsk(a: Address)
    ensures Enabled(Start(2), Ask(a)) && Step(Start(2), Ask(a)) == Asked(a, 1, 0, 0)
  {
    var s := Start(2);
    assert s.pool.workers == [R.Top, R.Top] && R.Wake(s.pool.workers, Nobody()) == s.pool.workers;
    assert C.UsedIds(s.cache) == {} && [0][0] !in C.UsedIds(s.cache);
    var r := Step(s, Ask(a));
    assert r.pool.queue == [R.Ticket(0, a)] == r.pool.enqueued && r.requested == [0] && r.items == [a];
    assert r.cache.entries == map[a := C.Entry(0, C.PtrReq, 0, 0, None, false)];
  }

  lemma SecondAsk(a: Address)
    requires CR.Inv(Asked(a, 1, 1, 0).cache)
    ensures Enabled(Asked(a, 1, 1, 0), Ask(a)) && Step(Asked(a, 1, 1, 0), Ask(a)) == Asked(a, 2, 1, 1)
  {
    var s := Asked(a, 1, 1, 0);
    assert R.Wake(s.pool.workers, Nobody()) == s.pool.workers;
    var r := Step(s, Ask(a));
    assert r.pool.queue == [R.Ticket(0, a), R.Ticket(1, a)] == r.pool.enqueued && r.requested == [0, 0];
    assert r.current == map[a := 0];
    assert r.cache.entries == map[a := C.Entry(0, C.PtrReq, 1, 1, None, false)];
  }

  lemma TickWhileAsked(a: Address)
    requires Inv(Asked(a, 1, 0, 0))
    ensures Enabled(Asked(a, 1, 0, 0), ClockTicks) && CR.Inv(Asked(a, 1, 0, 0).cache)
    ensures Step(Asked(a, 1, 0, 0), ClockTicks) == Asked(a, 1, 1, 0)
  {}

  // The first request waits for more than a tick, so the second lookup sends another.
  lemma AskedTwice(a: Address)
    ensures var acts := [Ask(a), ClockTicks, Ask(a)];
            Possible(Start(2), acts) && After(Start(2), acts) == Asked(a, 2, 1, 1) && Inv(Asked(a, 2, 1, 1))
  {
    hide Inv, Ask, Step, Enabled;
    var s := Start(2);
    Reachable(2, []);
    FirstAsk(a);
    OneAct(s, Ask(a));
    TickWhileAsked(a);
    OneAct(Asked(a, 1, 0, 0), ClockTicks);
    InvHasParts(Asked(a, 1, 1, 0));
    SecondAsk(a);
    OneAct(Asked(a, 1, 1, 0), Ask(a));
    RunsJoin(s, [Ask(a)], [ClockTicks]);
    RunsJoin(s, [Ask(a)] + [ClockTicks], [Ask(a)]);
    assert [Ask(a)] + [ClockTicks] + [Ask(a)] == [Ask(a), ClockTicks, Ask(a)];
  }

  /** Two requests for one item, two threads that take them, the first answer, which makes the item one that clearing
      removes, and the clearing. */
  function LateReport(a: Address, name: string): seq<Act> {
    [Ask(a), ClockTicks, Ask(a)] + Takes(0) + Takes(1) + [AnswerFound(0, name, 0)] + [CacheCleared]
  }

  // Both threads have an answer to report.
  function BothReport(a: Address): Service {
    var t, u := R.Ticket(0, a), R.Ticket(1, a);
    Asked(a, 2, 1, 1).(pool := R.Pool([R.Reporting(t), R.Reporting(u)], [], false, [t, u], [t, u], multiset{}, multiset{}))
  }

  lemma BothTake(a: Address)
    ensures var acts := [Ask(a), ClockTicks, Ask(a)] + Takes(0) + Takes(1);
            Possible(Start(2), acts) && After(Start(2), acts) == BothReport(a) && Inv(BothReport(a))
  {
    hide Inv, Ask, Takes;
    var acts := [Ask(a), ClockTicks, Ask(a)];
    AskedTwice(a);
    var s := Asked(a, 2, 1, 1);
    assert s.pool.queue == [R.Ticket(0, a), R.Ticket(1, a)];
    ThreadTakes(s, 0);
    ThreadTakes(After(s, Takes(0)), 1);
    RunsJoin(Start(2), acts, Takes(0));
    RunsJoin(Start(2), acts + Takes(0), Takes(1));
    var p := After(After(s, Takes(0)), Takes(1)).pool;
    assert p.workers == [R.Reporting(R.Ticket(0, a)), R.Reporting(R.Ticket(1, a))] && p.queue == [] && p.taken == s.pool.queue;
  }

  lemma AnsweredAndCleared(a: Address, name: string)
    requires Inv(BothReport(a))
    ensures var s, acts := BothReport(a), [AnswerFound(0, name, 0)] + [CacheCleared];
            && Possible(s, acts)
            && After(s, acts).pool.workers == [R.Top, R.Reporting(R.Ticket(1, a))] && After(s, acts).cache.entries == map[]
  {
    hide Inv;
    var s, found := BothReport(a), AnswerFound(0, name, 0);
    OneAct(s, found);
    OneAct(Step(s, found), CacheCleared);
    RunsJoin(s, [found], [CacheCleared]);
    assert Step(s, found).cache.lru == [a];
  }

  /** So a thread can come to report on an item that is no longer in the cache, also when nothing was refreshed: its
      report is stale, and no other act of this thread is possible. */
  lemma ReportsTooLate(a: Address, name: string)
    ensures Possible(Start(2), LateReport(a, name))
    ensures var s := After(Start(2), LateReport(a, name)); var t := R.Ticket(1, a);
            && s.pool.workers == [R.Top, R.Reporting(t)] && s.cache.entries == map[]
            && !Present(s, t) && Enabled(s, StaleAnswer(1)) && !Enabled(s, AnswerFound(1, name, 0)) && !Enabled(s, AnswerNotFound(1, 0))
  {
    hide Inv, Ask, Takes, BothReport, Step;
    BothTake(a);
    AnsweredAndCleared(a, name);
    var acts, last := [Ask(a), ClockTicks, Ask(a)] + Takes(0) + Takes(1), [AnswerFound(0, name, 0)] + [CacheCleared];
    RunsJoin(Start(2), acts, last);
    assert acts + last == LateReport(a, name);
  }
}
