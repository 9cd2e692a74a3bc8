/** What the DNS name cache keeps over every run of its operations. */
module IpCacheRuns {
  import opened Wrappers
  import opened Bytes
  import opened IpCacheSpec

  datatype Op =
    | OpTick
    | OpLookup(addr: Address)
    | OpPrepare(addr: Address, draws: seq<nat>, random: nat)
    | OpFail(addr: Address, random: nat)
    | OpSucceed(addr: Address, ttl: int, name: Option<string>, random: nat)
    | OpClear

  ghost predicate Enabled(c: Cache, op: Op) {
    match op
    case OpPrepare(a, draws, _) =>
      (forall i :: 0 <= i < |draws| ==> draws[i] < 0x1_0000) && (a in c.entries || CanPick(UsedIds(c), draws))
    case OpFail(a, _) => a in c.entries
    case OpSucceed(a, _, _, _) => a in c.entries
    case _ => true
  }

  ghost function Apply(c: Cache, op: Op): Cache
    requires Enabled(c, op)
  {
    match op
    case OpTick => Tick(c)
    case OpLookup(a) => Lookup(c, a)
    case OpPrepare(a, draws, random) => Prepare(c, a, draws, random)
    case OpFail(a, random) => Fail(c, a, random)
    case OpSucceed(a, ttl, name, random) => Succeed(c, a, ttl, name, random)
    case OpClear => Clear(c)
  }

  // The operations can be performed from c one after the other.
  ghost predicate Runs(c: Cache, ops: seq<Op>)
    decreases |ops|
  {
    ops == [] || (Enabled(c, ops[0]) && Runs(Apply(c, ops[0]), ops[1..]))
  }

  ghost function End(c: Cache, ops: seq<Op>): Cache
    requires Runs(c, ops)
    decreases |ops|
  {
    if ops == [] then c else End(Apply(c, ops[0]), ops[1..])
  }

  /** The cache invariant: the active list has no duplicates, holds exactly the addresses that were
      answered at least once, and is never longer than max_active + 1; ids are unique 16-bit numbers;
      no item expires more than 10 days and two hours after the current tick. */
  ghost predicate Inv(c: Cache) {
    && ListOk(c)
    && (forall a | a in c.entries :: c.entries[a].answered <==> a in c.lru)
    && EntriesOk(c)
  }

  ghost predicate ListOk(c: Cache) {
    Distinct(c.lru) && |c.lru| <= MAX_ACTIVE + 1 && forall a | a in c.lru :: a in c.entries
  }

  ghost predicate EntriesOk(c: Cache) {
    && (forall a | a in c.entries :: EntryOk(c.entries[a], c.tick))
    && (forall a, b | a in c.entries && b in c.entries && a != b :: c.entries[a].id != c.entries[b].id)
  }

  ghost predicate EntryOk(e: Entry, tick: nat) {
    && (!e.state.PtrReq? ==> e.answered)
    && e.id < 0x1_0000
    && e.lastExpireTick == e.expireTick < tick + 86400 + 720
  }

  lemma {:induction false} WithoutFacts<T>(s: seq<T>, x: T)
    requires Distinct(s)
    ensures Distinct(Without(s, x))
    ensures |Without(s, x)| == if x in s then |s| - 1 else |s|
    ensures forall y | y in s && y != x :: y in Without(s, x)
  {
    if s != [] {
      WithoutFacts(s[1..], x);
    }
  }

  // Every address but a is on the active list iff it was answered; a was answered.
  ghost predicate AnsweredBut(c: Cache, a: Address) {
    && a in c.entries && c.entries[a].answered
    && (forall b | b in c.entries && b != a :: c.entries[b].answered <==> b in c.lru)
  }

  lemma PurgeFacts(c: Cache)
    requires ListOk(c)
    ensures var p := Purge(c);
            && Distinct(p.lru) && |p.lru| <= MAX_ACTIVE
            && (forall a :: a in p.lru ==> a in c.lru && a in p.entries)
            && (forall a :: a in p.entries <==> a in c.entries && (a in c.lru ==> a in p.lru))
            && (forall a | a in p.entries :: p.entries[a] == c.entries[a])
  {
    var k := Kept(|c.lru|);
    assert c.lru == c.lru[..k] + c.lru[k..];
    assert forall a :: a in c.lru ==> a in c.lru[..k] || a in c.lru[k..];
    assert forall i, j | 0 <= i < k && 0 <= j < |c.lru| - k :: c.lru[..k][i] != c.lru[k..][j];
  }

  // A list without a, with room for one more, keeps the invariant when a is put in front of it.
  lemma PushKeepsInv(c: Cache, a: Address, rest: seq<Address>)
    requires EntriesOk(c) && a in c.entries && c.entries[a].answered
    requires Distinct(rest) && |rest| <= MAX_ACTIVE && a !in rest
    requires forall b | b in c.entries && b != a :: c.entries[b].answered <==> b in rest
    requires forall b | b in rest :: b in c.entries
    ensures Inv(c.(lru := [a] + rest))
  {}

  lemma TouchKeepsInv(c: Cache, a: Address)
    requires ListOk(c) && EntriesOk(c) && AnsweredBut(c, a)
    ensures Inv(Touch(c, a))
  {
    if a in c.lru {
      WithoutFacts(c.lru, a);
      PushKeepsInv(c, a, Without(c.lru, a));
      if c.lru[0] == a {
        assert Inv(c);
      }
    } else if c.lru == [] {
      PushKeepsInv(c, a, []);
    } else {
      PurgeFacts(c);
      PushKeepsInv(Purge(c), a, Purge(c).lru);
    }
  }

  lemma PutKeeps(c: Cache, a: Address, e: Entry)
    requires Inv(c) && a in c.entries && EntryOk(e, c.tick) && e.answered && e.id == c.entries[a].id
    ensures var d := Put(c, a, e); ListOk(d) && EntriesOk(d) && AnsweredBut(d, a)
  {}

  lemma AllocKeepsInv(c: Cache, a: Address, draws: seq<nat>)
    requires Inv(c) && a !in c.entries && CanPick(UsedIds(c), draws)
    requires forall i :: 0 <= i < |draws| ==> draws[i] < 0x1_0000
    ensures Inv(Alloc(c, a, draws))
  {
    assert a !in c.lru;
    assert forall b | b in c.entries :: c.entries[b].id in UsedIds(c);
  }

  lemma PrepareKeepsInv(c: Cache, a: Address, draws: seq<nat>, random: nat)
    requires Inv(c) && (a in c.entries || CanPick(UsedIds(c), draws))
    requires forall i :: 0 <= i < |draws| ==> draws[i] < 0x1_0000
    ensures Inv(Prepare(c, a, draws, random))
  {
    if a !in c.entries {
      AllocKeepsInv(c, a, draws);
    }
  }

  lemma ApplyKeepsInv(c: Cache, op: Op)
    requires Inv(c) && Enabled(c, op)
    ensures Inv(Apply(c, op))
  {
    match op
    case OpLookup(a) =>
      if a in c.entries && !c.entries[a].state.PtrReq? {
        TouchKeepsInv(c, a);
      }
    case OpPrepare(a, draws, random) =>
      PrepareKeepsInv(c, a, draws, random);
    case OpFail(a, random) =>
      var e := Delayed(c.entries[a], c.tick, 8640, false, random).(state := Failed, answered := true);
      PutKeeps(c, a, e);
      TouchKeepsInv(Put(c, a, e), a);
    case OpSucceed(a, ttl, name, random) =>
      var e := Delayed(c.entries[a], c.tick, TtlDelay(ttl), false, random);
      var f := e.(state := Finished, answered := true, hostname := if name.Some? then name else e.hostname);
      PutKeeps(c, a, f);
      TouchKeepsInv(Put(c, a, f), a);
    case _ =>
  }

  lemma {:induction false} RunKeepsInv(c: Cache, ops: seq<Op>)
    requires Inv(c) && Runs(c, ops)
    ensures Inv(End(c, ops))
    decreases |ops|
  {
    if ops != [] {
      ApplyKeepsInv(c, ops[0]);
      RunKeepsInv(Apply(c, ops[0]), ops[1..]);
    }
  }

  /** In every reachable state the active list holds exactly the answered items, at most 1025 of them. */
  lemma Reachable(ops: seq<Op>)
    requires Runs(EMPTY, ops)
    ensures Inv(End(EMPTY, ops))
  {
    RunKeepsInv(EMPTY, ops);
  }

  // ---- never-answered items survive ----

  ghost predicate Pending(c: Cache, a: Address, id: nat) {
    a in c.entries && !c.entries[a].answered && c.entries[a].id == id
  }

  predicate Answers(op: Op, a: Address) {
    (op.OpFail? || op.OpSucceed?) && op.addr == a
  }

  lemma ApplyKeepsPending(c: Cache, op: Op, a: Address, id: nat)
    requires Inv(c) && Enabled(c, op) && Pending(c, a, id) && !Answers(op, a)
    ensures Pending(Apply(c, op), a, id)
  {
    assert a !in c.lru;
  }

  /** An item that has never been answered survives every lookup, request, answer for another address,
      purge and clear, under its own id, until its first answer. */
  lemma {:induction false} PendingSurvives(c: Cache, ops: seq<Op>, a: Address, id: nat)
    requires Inv(c) && Runs(c, ops) && Pending(c, a, id)
    requires forall i | 0 <= i < |ops| :: !Answers(ops[i], a)
    ensures var d := End(c, ops); Pending(d, a, id) && d.entries[a].state.PtrReq?
    decreases |ops|
  {
    if ops != [] {
      ApplyKeepsInv(c, ops[0]);
      ApplyKeepsPending(c, ops[0], a, id);
      PendingSurvives(Apply(c, ops[0]), ops[1..], a, id);
    }
  }

  // ---- a name once found stays ----

  // The address has left the cache, or lookups answer this name for it.
  ghost predicate Named(c: Cache, a: Address, name: string) {
    a in c.entries ==> c.entries[a].state.Finished? && NameOf(c, a) == Some(name)
  }

  predicate Asks(op: Op, a: Address) {
    (op.OpPrepare? || op.OpSucceed?) && op.addr == a
  }

  lemma ApplyKeepsName(c: Cache, op: Op, a: Address, name: string)
    requires Enabled(c, op) && Named(c, a, name) && !Asks(op, a)
    ensures Named(Apply(c, op), a, name)
  {}

  /** A name that was found is what every lookup answers, whatever fails, is purged or cleared meanwhile, until
      the address is asked for again or leaves the cache. */
  lemma NameStays(c: Cache, a: Address, ttl: int, name: string, random: nat, ops: seq<Op>)
    requires a in c.entries && Runs(Succeed(c, a, ttl, Some(name), random), ops) && forall i | 0 <= i < |ops| :: !Asks(ops[i], a)
    ensures Named(End(Succeed(c, a, ttl, Some(name), random), ops), a, name)
  {
    var d := Succeed(c, a, ttl, Some(name), random);
    RunKeepsName(d, ops, a, name);
  }

  lemma {:induction false} RunKeepsName(c: Cache, ops: seq<Op>, a: Address, name: string)
    requires Runs(c, ops) && Named(c, a, name) && forall i | 0 <= i < |ops| :: !Asks(ops[i], a)
    ensures Named(End(c, ops), a, name)
    decreases |ops|
  {
    if ops != [] {
      ApplyKeepsName(c, ops[0], a, name);
      RunKeepsName(Apply(c, ops[0]), ops[1..], a, name);
    }
  }

  // ---- the active list is the most recently used part of the history ----

  // Addresses in the order of their last occurrence in h, where h is newest first.
  ghost function Recent(h: seq<Address>): seq<Address> {
    if h == [] then [] else [h[0]] + Without(Recent(h[1..]), h[0])
  }

  // Whether op makes its address the head of the active list.
  ghost predicate Uses(c: Cache, op: Op) {
    match op
    case OpLookup(a) => a in c.entries && !c.entries[a].state.PtrReq?
    case OpFail(a, _) => a in c.entries && !c.entries[a].state.Finished?
    case OpSucceed(_, _, _, _) => true
    case _ => false
  }

  // The addresses used in a run, newest first, put in front of h.
  ghost function History(c: Cache, ops: seq<Op>, h: seq<Address>): seq<Address>
    requires Runs(c, ops)
    decreases |ops|
  {
    if ops == [] then h
    else History(Apply(c, ops[0]), ops[1..], if Uses(c, ops[0]) then [ops[0].addr] + h else h)
  }

  // The entries at the moment op moves its address to the front.
  ghost function Used(c: Cache, op: Op): map<Address, Entry>
    requires Enabled(c, op)
  {
    match op
    case OpFail(a, random) =>
      c.entries[a := Delayed(c.entries[a], c.tick, 8640, false, random).(state := Failed, answered := true)]
    case OpSucceed(a, ttl, name, random) =>
      var e := Delayed(c.entries[a], c.tick, TtlDelay(ttl), false, random);
      c.entries[a := e.(state := Finished, answered := true, hostname := if name.Some? then name else e.hostname)]
    case _ => c.entries
  }

  lemma {:induction false} WithoutPrefix<T>(s: seq<T>, k: nat, x: T)
    requires k <= |s|
    ensures Without(s[..k], x) <= Without(s, x)
  {
    if k > 0 {
      assert s[..k][1..] == s[1..][..k-1];
      WithoutPrefix(s[1..], k - 1, x);
    }
  }

  lemma WithoutHead<T>(s: seq<T>, x: T)
    requires s != [] && s[0] == x && x !in s[1..]
    ensures [x] + Without(s, x) == s
  {}

  lemma PrefixMoves(r: seq<Address>, l: seq<Address>, k: nat, a: Address)
    requires l <= r && k <= |l|
    ensures [a] + Without(l, a) <= [a] + Without(r, a)
    ensures a !in l ==> [a] + l[..k] <= [a] + Without(r, a)
  {
    assert l == r[..|l|];
    WithoutPrefix(r, |l|, a);
    if a !in l {
      assert Without(l, a) == l;
    }
  }

  lemma TouchIsRecent(c: Cache, a: Address, h: seq<Address>)
    requires c.lru <= Recent(h)
    ensures Touch(c, a).lru <= Recent([a] + h)
  {
    assert ([a] + h)[1..] == h;
    PrefixMoves(Recent(h), c.lru, Kept(|c.lru|), a);
    if c.lru != [] && c.lru[0] == a {
      WithoutHead(Recent(h), a);
    }
  }

  lemma {:induction false} RunIsRecent(c: Cache, ops: seq<Op>, h: seq<Address>)
    requires Runs(c, ops) && c.lru <= Recent(h)
    ensures End(c, ops).lru <= Recent(History(c, ops, h))
    decreases |ops|
  {
    if ops != [] {
      var op := ops[0];
      if Uses(c, op) {
        TouchIsRecent(c.(entries := Used(c, op)), op.addr, h);
      }
      RunIsRecent(Apply(c, op), ops[1..], if Uses(c, op) then [op.addr] + h else h);
    }
  }

  /** Strict LRU: whatever was requested, answered, looked up, purged or cleared, the active list is a
      prefix of the addresses ordered by their last use. So an eviction always takes the least
      recently used items and a move to the front changes nothing else. */
  lemma ActiveListIsMostRecentlyUsed(ops: seq<Op>)
    requires Runs(EMPTY, ops)
    ensures End(EMPTY, ops).lru <= Recent(History(EMPTY, ops, []))
  {
    RunIsRecent(EMPTY, ops, []);
  }
}
