/** When the program asks for a name again (src/thread_resolve.c:281-302, src/ip-cache.c:173-183). Names hold for a day
    of 86400 seconds, a tick takes ten seconds, and up to 720 ticks are added at random. */
module NameRefresh {
  import opened Wrappers
  import opened Bytes
  import C = IpCacheSpec
  import CR = IpCacheRuns
  import R = Resolver
  import opened LookupRuns

  /** A lookup sends one request exactly if the cache does not hold the address or its tick of expiry has passed. */
  lemma AsksIff(s: Service, ask: Act)
    requires CR.Inv(s.cache) && ask.LookUp? && Enabled(s, ask)
    ensures var due := ask.addr !in s.cache.entries || s.cache.entries[ask.addr].expireTick < s.cache.tick;
            Step(s, ask).pool.enqueued == if due then s.pool.enqueued + [R.Ticket(|s.pool.enqueued|, ask.addr)] else s.pool.enqueued
  {
    hide CR.Inv, C.Prepare, C.Lookup;
    LookupKeepsEntries(s.cache, ask.addr);
  }

  // The act neither sends a request for the address nor answers one.
  ghost predicate LeavesAlone(s: Service, a: Act, addr: Address)
    requires Enabled(s, a) && CR.Inv(s.cache)
  {
    match a
    case LookUp(b, _, _, _) => b == addr ==> Step(s, a).pool.enqueued == s.pool.enqueued
    case AnswerNotFound(w, _) => s.pool.workers[w].t.addr != addr
    case AnswerFound(w, _, _) => s.pool.workers[w].t.addr != addr
    case _ => true
  }

  ghost predicate AllLeaveAlone(s: Service, acts: seq<Act>, addr: Address)
    requires Possible(s, acts)
    decreases |acts|
  {
    acts == [] || (LeavesAlone(s, acts[0], addr) && AllLeaveAlone(Step(s, acts[0]), acts[1..], addr))
  }

  lemma ActKeepsEntry(s: Service, a: Act, addr: Address)
    requires CR.Inv(s.cache) && Enabled(s, a) && LeavesAlone(s, a, addr) && addr in Step(s, a).cache.entries
    ensures addr in s.cache.entries && Step(s, a).cache.entries[addr] == s.cache.entries[addr]
  {
    match a
    case LookUp(b, draws, random, woken) =>
      AsksIff(s, a);
      LookupKeepsEntries(s.cache, b);
      if C.IsExpired(s.cache, b) {
        PrepareEntries(C.Lookup(s.cache, b), b, draws, random);
      }
    case AnswerNotFound(w, _) => AnswerIsOp(s, a);
    case AnswerFound(w, _, _) => AnswerIsOp(s, a);
    case _ =>
  }

  lemma {:induction false} RunKeepsEntry(s: Service, acts: seq<Act>, addr: Address)
    requires Possible(s, acts) && AllLeaveAlone(s, acts, addr) && addr in After(s, acts).cache.entries
    ensures addr in s.cache.entries && After(s, acts).cache.entries[addr] == s.cache.entries[addr]
    decreases |acts|
  {
    hide Enabled, Step, LeavesAlone;
    if acts != [] {
      RunKeepsEntry(Step(s, acts[0]), acts[1..], addr);
      ActKeepsEntry(s, acts[0], addr);
    }
  }

  // In s a name is found for the address, and e comes later: the address was neither asked for nor answered
  // meanwhile, and is still in the cache.
  ghost predicate FoundBefore(s: Service, found: Act, acts: seq<Act>, addr: Address, e: Service) {
    && CR.Inv(s.cache) && found.AnswerFound? && Enabled(s, found) && s.pool.workers[found.w].t.addr == addr
    && Possible(Step(s, found), acts) && AllLeaveAlone(Step(s, found), acts, addr)
    && e == After(Step(s, found), acts) && addr in e.cache.entries
  }

  lemma FoundExpires(s: Service, found: Act, acts: seq<Act>, addr: Address, e: Service)
    requires FoundBefore(s, found, acts, addr, e)
    ensures addr in e.cache.entries && s.cache.tick + 7200 <= e.cache.entries[addr].expireTick < s.cache.tick + 7920
    ensures found.AnswerFound? && C.NameOf(e.cache, addr) == Some(found.name)
  {
    hide CR.Inv, After, Possible, AllLeaveAlone;
    RunKeepsEntry(Step(s, found), acts, addr);
  }

  /** A name that was found is what lookups answer, and it is not asked for again for 7200 ticks, whatever is looked up, answered and evicted
      meanwhile; and from 7920 ticks on every lookup asks for it, as long as the cache holds it. */
  lemma NameIsAskedAgain(s: Service, found: Act, acts: seq<Act>, addr: Address, e: Service, ask: Act)
    requires FoundBefore(s, found, acts, addr, e) && CR.Inv(e.cache) && ask.LookUp? && Enabled(e, ask) && ask.addr == addr
    ensures found.AnswerFound? && C.NameOf(e.cache, addr) == Some(found.name)
    ensures e.cache.tick <= s.cache.tick + 7200 ==> Step(e, ask).pool.enqueued == e.pool.enqueued
    ensures e.cache.tick >= s.cache.tick + 7920 ==> Step(e, ask).pool.enqueued == e.pool.enqueued + [R.Ticket(|e.pool.enqueued|, addr)]
  {
    hide CR.Inv, FoundBefore, Step;
    FoundExpires(s, found, acts, addr, e);
    AsksIff(e, ask);
  }
}
