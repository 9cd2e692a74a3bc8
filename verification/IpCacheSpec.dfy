/** The DNS name cache (src/ip-cache.c) as a value: a map from addresses to entries and the list of
    answered addresses, most recently used first. IpCache.dfy proves that the pointer structure does
    what these functions say; IpCacheRuns.dfy proves what they keep over every run. */
module IpCacheSpec {
  import opened Wrappers
  import opened Bytes

  // max_active, and how far a purge goes below it
  const MAX_ACTIVE: nat := 1024
  const PURGE_ROOM: nat := 10

  datatype State = Finished | Failed | PtrReq

  // What an item holds. `answered` remembers whether any answer ever arrived for it.
  datatype Entry = Entry(id: nat, state: State, expireTick: nat, lastExpireTick: nat,
                         hostname: Option<string>, answered: bool)

  datatype Cache = Cache(entries: map<Address, Entry>, lru: seq<Address>, tick: nat)

  const EMPTY := Cache(map[], [], 0)

  function Without<T(==)>(s: seq<T>, x: T): (r: seq<T>)
    ensures forall i :: 0 <= i < |r| ==> r[i] in s && r[i] != x
    ensures x !in s ==> r == s
  {
    if s == [] then [] else if s[0] == x then Without(s[1..], x) else [s[0]] + Without(s[1..], x)
  }

  // How many items a purge keeps.
  function Kept(n: nat): (k: nat)
    ensures k <= n && k <= MAX_ACTIVE && (n > 0 ==> k > 0)
    ensures (n <= 1024 ==> k == n) && (n > 1024 ==> k == 1013)
  {
    if n > MAX_ACTIVE && n > 10 then MAX_ACTIVE - PURGE_ROOM - 1 else n
  }

  // Only the k most recently used items stay on the list; the others leave the cache as well.
  function DropTo(c: Cache, k: nat): Cache
    requires k <= |c.lru|
  {
    c.(lru := c.lru[..k], entries := map a | a in c.entries && a !in c.lru[k..] :: c.entries[a])
  }

  // ipcache_purge_activelist
  function Purge(c: Cache): Cache {
    DropTo(c, Kept(|c.lru|))
  }

  function Put(c: Cache, a: Address, e: Entry): Cache {
    c.(entries := c.entries[a := e])
  }

  // ipcache_link_activelist: the item becomes the most recently used one.
  function Touch(c: Cache, a: Address): Cache {
    if c.lru == [] then c.(lru := [a])
    else if c.lru[0] == a then c
    else if a in c.lru then c.(lru := [a] + Without(c.lru, a))
    else
      var p := Purge(c);
      p.(lru := [a] + p.lru)
  }

  // ipcache_calc_expire_tick, with the pseudo-random offset as an argument
  function ExpireTick(tick: nat, delay: nat, isRequest: bool, random: nat): (r: nat)
    ensures tick <= r < tick + 86400 + 720
  {
    (if delay > 86400 then 86400 else delay) + tick + random % (if isRequest then 12 else 720)
  }

  function Delayed(e: Entry, tick: nat, delay: nat, isRequest: bool, random: nat): Entry {
    var t := ExpireTick(tick, delay, isRequest, random);
    e.(expireTick := t, lastExpireTick := t)
  }

  predicate IsExpired(c: Cache, a: Address) {
    a !in c.entries || c.entries[a].expireTick < c.tick
  }

  // The first drawn id that no item uses: what the generator loop of ipcache_alloc_item ends with.
  predicate CanPick(used: set<nat>, draws: seq<nat>) {
    exists i :: 0 <= i < |draws| && draws[i] !in used
  }

  function Pick(used: set<nat>, draws: seq<nat>): (id: nat)
    requires CanPick(used, draws)
    ensures id !in used && exists i :: 0 <= i < |draws| && draws[i] == id && forall j :: 0 <= j < i ==> draws[j] in used
  {
    if draws[0] !in used then draws[0]
    else
      var r := Pick(used, draws[1..]);
      assert forall i :: 1 <= i < |draws| ==> draws[1..][i-1] == draws[i];
      r
  }

  function UsedIds(c: Cache): set<nat> {
    set a | a in c.entries :: c.entries[a].id
  }

  // ipcache_alloc_item
  function Alloc(c: Cache, a: Address, draws: seq<nat>): Cache
    requires CanPick(UsedIds(c), draws)
  {
    Put(c, a, Entry(Pick(UsedIds(c), draws), PtrReq, 0, 0, None, false))
  }

  // A refresh of an answered item gets a short delay; an unanswered one doubles its last expiry.
  function Requested(e: Entry, tick: nat, random: nat): Entry {
    var delay := if e.state.PtrReq? then e.lastExpireTick * 2 else 18;
    Delayed(e, tick, delay, true, random).(state := PtrReq)
  }

  // ipcache_prepare_request
  function Prepare(c: Cache, a: Address, draws: seq<nat>, random: nat): Cache
    requires a in c.entries || CanPick(UsedIds(c), draws)
  {
    var d := if a in c.entries then c else Alloc(c, a, draws);
    Put(d, a, Requested(d.entries[a], c.tick, random))
  }

  // ipcache_request_failed
  function Fail(c: Cache, a: Address, random: nat): Cache
    requires a in c.entries
  {
    var e := c.entries[a];
    if e.state.Finished? then c
    else
      Touch(Put(c, a, Delayed(e, c.tick, 8640, false, random).(state := Failed, answered := true)), a)
  }

  // ttl / 12 seen as an unsigned delay: a negative quotient wraps to a huge one and is clamped.
  function TtlDelay(ttl: int): nat {
    if ttl >= 0 then ttl / 12 else if ttl > -12 then 0 else 86400
  }

  // ipcache_request_succeeded
  function Succeed(c: Cache, a: Address, ttl: int, name: Option<string>, random: nat): Cache
    requires a in c.entries
  {
    var e := Delayed(c.entries[a], c.tick, TtlDelay(ttl), false, random);
    var h := if name.Some? then name else e.hostname;
    Touch(Put(c, a, e.(state := Finished, answered := true, hostname := h)), a)
  }

  // ipcache_getnameip: the cache it leaves, and the name it returns (None: the numeric form)
  function Lookup(c: Cache, a: Address): Cache {
    if a in c.entries && !c.entries[a].state.PtrReq? then Touch(c, a) else c
  }

  function NameOf(c: Cache, a: Address): Option<string> {
    if a in c.entries && c.entries[a].state.Finished? then c.entries[a].hostname else None
  }

  // ipcache_clear: every item on the active list is dropped, and no other
  function Clear(c: Cache): Cache {
    DropTo(c, 0)
  }

  // ipcache_tick
  function Tick(c: Cache): Cache {
    c.(tick := c.tick + 1)
  }
}
