/** What the name cache promises its users, in figures (src/ip-cache.c:160-183, src/ip-cache.c:249-299,
    src/ip-cache.c:515-588): when an address leaves the cache, how many are kept, and when a name is due again. */
module CacheLaws {
  import opened Wrappers
  import opened Bytes
  import opened IpCacheSpec
  import opened IpCacheRuns

  // ---- eviction ----

  /** An address leaves the cache exactly if the cache is cleared and it was answered, or if 1025 addresses are listed,
      an address gets its first answer, and it is not one of the 1013 used last. */
  lemma LeavesCacheIff(c: Cache, op: Op, a: Address)
    requires Inv(c) && Enabled(c, op) && a in c.entries
    ensures a !in Apply(c, op).entries <==>
            || (op.OpClear? && a in c.lru)
            || (|c.lru| == 1025 && (op.OpFail? || op.OpSucceed?) && !c.entries[op.addr].answered && a in c.lru[1013..])
  {
    assert c.lru[0..] == c.lru;
  }

  // The list is all of the history, or 1014 of it.
  ghost predicate KeepsEnough(c: Cache, h: seq<Address>) {
    c.lru <= Recent(h) && (|c.lru| >= 1014 || c.lru == Recent(h))
  }

  lemma TouchKeepsEnough(c: Cache, a: Address, h: seq<Address>)
    requires KeepsEnough(c, h) && Distinct(c.lru)
    ensures KeepsEnough(Touch(c, a), [a] + h)
  {
    TouchIsRecent(c, a, h);
    WithoutFacts(c.lru, a);
    assert ([a] + h)[1..] == h;
    if c.lru != [] && c.lru[0] == a && c.lru == Recent(h) {
      WithoutHead(Recent(h), a);
    }
  }

  lemma {:induction false} RunKeepsEnough(c: Cache, ops: seq<Op>, h: seq<Address>)
    requires Inv(c) && Runs(c, ops) && KeepsEnough(c, h) && forall op | op in ops :: !op.OpClear?
    ensures KeepsEnough(End(c, ops), History(c, ops, h))
    decreases |ops|
  {
    hide Inv, Touch, KeepsEnough;
    if ops != [] {
      var op := ops[0];
      ApplyKeepsInv(c, op);
      StepKeepsEnough(c, op, h);
      assert op in ops && forall x | x in ops[1..] :: x in ops;
      RunKeepsEnough(Apply(c, op), ops[1..], if Uses(c, op) then [op.addr] + h else h);
    }
  }

  lemma StepKeepsEnough(c: Cache, op: Op, h: seq<Address>)
    requires Inv(c) && Enabled(c, op) && KeepsEnough(c, h) && !op.OpClear?
    ensures KeepsEnough(Apply(c, op), if Uses(c, op) then [op.addr] + h else h)
  {
    hide Recent;
    if Uses(c, op) {
      TouchKeepsEnough(c.(entries := Used(c, op)), op.addr, h);
    }
  }

  /** In every run without clearing, the 1014 addresses used last are in the list, or all that were ever used. */
  lemma EnoughAreKept(ops: seq<Op>)
    requires Runs(EMPTY, ops) && forall op | op in ops :: !op.OpClear?
    ensures var l, r := End(EMPTY, ops).lru, Recent(History(EMPTY, ops, []));
            l <= r && |l| >= if |r| <= 1014 then |r| else 1014
  {
    RunKeepsEnough(EMPTY, ops, []);
  }

  // ---- when a name is due ----

  // The operation writes to the item of this address.
  predicate Speaks(op: Op, a: Address) {
    (op.OpPrepare? || op.OpFail? || op.OpSucceed?) && op.addr == a
  }

  lemma OtherOpKeepsEntry(c: Cache, op: Op, a: Address)
    requires Enabled(c, op) && !Speaks(op, a)
    ensures a in Apply(c, op).entries ==> a in c.entries && Apply(c, op).entries[a] == c.entries[a]
  {}

  lemma {:induction false} EntryStays(c: Cache, ops: seq<Op>, a: Address)
    requires Runs(c, ops) && forall op | op in ops :: !Speaks(op, a)
    ensures var d := End(c, ops); a in d.entries ==> a in c.entries && d.entries[a] == c.entries[a]
    decreases |ops|
  {
    if ops != [] {
      OtherOpKeepsEntry(c, ops[0], a);
      assert ops[0] in ops && forall op | op in ops[1..] :: op in ops;
      EntryStays(Apply(c, ops[0]), ops[1..], a);
    }
  }

  /** For `hold` ticks from `since` the item is not due, and `slack` ticks later it is; in between, chance decides. */
  predicate DueAfter(e: Entry, now: nat, since: nat, hold: nat, slack: nat, random: nat)
    requires slack > 0
  {
    e.expireTick == since + hold + random % slack && (now <= since + hold ==> now <= e.expireTick) && (now >= since + hold + slack ==> e.expireTick < now)
  }

  function AtMostADay(ticks: nat): nat {
    if ticks > 86400 then 86400 else ticks
  }

  /** An address that was found: until it is asked for or answered again, lookups answer its name, and it is not due for
      a twelfth of the seconds that the answer holds, with a tick every ten seconds and a limit of 86400 ticks; 720
      ticks later it is. */
  lemma FoundIsDue(c: Cache, a: Address, ttl: int, name: Option<string>, random: nat, ops: seq<Op>)
    requires a in c.entries && Runs(Succeed(c, a, ttl, name, random), ops) && forall op | op in ops :: !Speaks(op, a)
    ensures var e, hold := End(Succeed(c, a, ttl, name, random), ops), if ttl <= -12 then 86400 else if ttl < 0 then 0 else AtMostADay(ttl / 12);
            a in e.entries ==>
              && NameOf(e, a) == (if name.Some? then name else c.entries[a].hostname)
              && DueAfter(e.entries[a], e.tick, c.tick, hold, 720, random)
  {
    EntryStays(Succeed(c, a, ttl, name, random), ops, a);
  }

  /** An address that was not found: it has no name, and it is due 8640 to 9360 ticks later. If a name was found
      meanwhile, the failure changes nothing. */
  lemma NotFoundIsDue(c: Cache, a: Address, random: nat, ops: seq<Op>)
    requires a in c.entries && Runs(Fail(c, a, random), ops) && forall op | op in ops :: !Speaks(op, a)
    ensures var e := End(Fail(c, a, random), ops);
            if c.entries[a].state.Finished? then Fail(c, a, random) == c
            else a in e.entries ==> NameOf(e, a) == None && DueAfter(e.entries[a], e.tick, c.tick, 8640, 720, random)
  {
    EntryStays(Fail(c, a, random), ops, a);
  }

  /** An address that was asked for: it has no name until the answer, and is asked for again if the answer takes long:
      at first at once, after the first time twice the tick of the last expiry later, and 18 ticks later if it had been
      answered before, or up to 12 ticks after that. */
  lemma AskedIsDue(c: Cache, a: Address, draws: seq<nat>, random: nat, ops: seq<Op>)
    requires (a in c.entries || CanPick(UsedIds(c), draws)) && Runs(Prepare(c, a, draws, random), ops)
    requires forall op | op in ops :: !Speaks(op, a)
    ensures var e := End(Prepare(c, a, draws, random), ops);
            var hold := if a !in c.entries then 0
                        else if c.entries[a].state.PtrReq? then AtMostADay(c.entries[a].lastExpireTick * 2) else 18;
            a in e.entries ==> NameOf(e, a) == None && DueAfter(e.entries[a], e.tick, c.tick, hold, 12, random)
  {
    EntryStays(Prepare(c, a, draws, random), ops, a);
  }

  // ---- the clock ----

  function Ticks(ops: seq<Op>): nat {
    if ops == [] then 0 else (if ops[0].OpTick? then 1 else 0) + Ticks(ops[1..])
  }

  /** The clock of the cache counts its ticks, and nothing else moves it. */
  lemma {:induction false} ClockCountsTicks(c: Cache, ops: seq<Op>)
    requires Runs(c, ops)
    ensures End(c, ops).tick == c.tick + Ticks(ops)
    decreases |ops|
  {
    if ops != [] {
      ClockCountsTicks(Apply(c, ops[0]), ops[1..]);
    }
  }
}
