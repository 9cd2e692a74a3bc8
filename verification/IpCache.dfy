/** The DNS name cache (src/ip-cache.c) as it is in memory: every item is linked into a bucket by id,
    a bucket by address and, once answered, the circular active list. View() is the value the
    structure stands for; each operation is proved to do to View() what IpCacheSpec says. */
module IpCache {
  import opened Wrappers
  import opened Bytes
  import opened IpCacheItem
  import opened IpCacheIndex
  import opened IpCacheRing
  import Spec = IpCacheSpec

  // byIp gives every item under its address.
  ghost predicate Maps(byIp: map<Address, Item>, items: set<Item>) {
    && (forall a :: a in byIp ==> byIp[a] in items && byIp[a].ip == a)
    && (forall x :: x in items ==> x.ip in byIp && byIp[x.ip] == x)
  }

  lemma NotHead(s: seq<Item>, k: nat, x: Item, t: seq<Item>)
    requires IsInsert(s, k, x, t) && t[0] != x
    ensures k > 0 && s != []
  {}

  lemma MapsWithout(byIp: map<Address, Item>, items: set<Item>, x: Item)
    requires Maps(byIp, items) && x in items
    ensures Maps(byIp - {x.ip}, items - {x})
  {}

  lemma TailRemoved(s: seq<Item>, k: nat, x: Item, t: seq<Item>)
    requires IsInsert(s, k, x, t) && Distinct(t) && x == t[|t|-1]
    ensures s == t[..|t|-1]
  {
    assert k == |t| - 1;
  }

  class Cache {
    const idBash: Table
    const ipBash: Table
    var activeList: Item?
    var numActive: int
    var currentTick: nat
    ghost var items: set<Item>
    ghost var idBuckets: Buckets
    ghost var ipBuckets: Buckets
    ghost var active: seq<Item>
    ghost var byIp: map<Address, Item>

    // Both indices hold exactly the items of its.
    ghost predicate Indices(its: set<Item>)
      reads this`idBuckets, this`ipBuckets, idBash, ipBash
      reads its`nextId, its`prevId, its`nextIp, its`prevIp
    {
      && idBash != ipBash
      && Indexed(ById, idBuckets, its) && IdLinks(idBash, idBuckets, its)
      && Indexed(ByIp, ipBuckets, its) && IpLinks(ipBash, ipBuckets, its)
    }

    // active_list and num_active describe the ring.
    ghost predicate RingOk()
      reads this`active, this`activeList, this`numActive, active`nextActive, active`prevActive
    {
      && Distinct(active) && Ring(active) && numActive == |active|
      && activeList == (if active == [] then null else active[0])
    }

    // The ring holds items of its, and the others have no active link.
    ghost predicate Listed(its: set<Item>)
      reads this`active, its`nextActive
    {
      && (forall x | x in active :: x in its)
      && (forall x | x in its && x !in active :: x.nextActive == null)
    }

    ghost predicate Valid()
      reads this, idBash, ipBash, items, active
    {
      Indices(items) && RingOk() && Listed(items) && Maps(byIp, items)
    }

    ghost function View(): Spec.Cache
      reads this, byIp.Values
    {
      Spec.Cache(map a | a in byIp :: byIp[a].Value(), Ips(active), currentTick)
    }

    lemma ListedBut(its: set<Item>, x: Item)
      requires Listed(its) && x !in active
      ensures Listed(its - {x})
    {}

    // What the list fields say about the list.
    lemma ListFacts()
      requires Valid()
      ensures Distinct(active) && numActive == |active|
      ensures activeList == if active == [] then null else active[0]
      ensures active != [] ==> activeList.prevActive == active[|active|-1]
      ensures forall x | x in active :: x in items && x.nextActive != null
      ensures forall x | x in items && x !in active :: x.nextActive == null
      ensures Maps(byIp, items)
    {
      forall i | 0 <= i < |active| ensures active[i].nextActive != null {}
    }

    // ipcache_init
    constructor ()
      ensures Valid() && View() == Spec.EMPTY && fresh(idBash) && fresh(ipBash) && items == {}
    {
      idBash := new Item?[SIZE](_ => null);
      ipBash := new Item?[SIZE](_ => null);
      activeList, numActive, currentTick := null, 0, 0;
      items, active, byIp := {}, [], map[];
      idBuckets := seq(SIZE, _ => []);
      ipBuckets := seq(SIZE, _ => []);
    }

    // ipcache_unlink_activelist
    method UnlinkActive(rp: Item) returns (ghost k: nat)
      requires RingOk() && Listed(items) && rp in items
      modifies this`activeList, this`numActive, this`active, items`nextActive, items`prevActive
      ensures items == old(items) && RingOk() && Listed(items - {rp})
      ensures if rp in old(active) then IsInsert(active, k, rp, old(active)) else active == old(active)
    {
      k := 0;
      if rp.nextActive != null {
        ghost var t := active;
        ghost var s;
        s, k := TakenOut(t, rp);
        InsertDistinct(s, k, rp, t);
        InsertMembers(s, k, rp, t);
        if rp.nextActive == rp {
          activeList := null;
          numActive := 0;
        } else {
          CutRing(rp, s, k, t);
          if activeList == rp {
            activeList := rp.nextActive;
          }
          numActive := numActive - 1;
        }
        active := s;
      }
    }

    // ipcache_unlinkresolveid, then ipcache_unlinkresolveip
    method UnlinkBuckets(rp: Item)
      requires Indices(items) && rp in items
      modifies this`idBuckets, this`ipBuckets, idBash, ipBash, items`nextId, items`prevId, items`nextIp, items`prevIp
      ensures items == old(items) && Indices(items - {rp})
    {
      hide IdLinks, IpLinks, Indexed;
      idBuckets := UnlinkResolveId(idBash, rp, idBuckets, items);
      IpLinksKept(Index(ipBash, ipBuckets, items));
      label OutOfIds:
      ipBuckets := UnlinkResolveIp(ipBash, rp, ipBuckets, items);
      IdLinksKept@OutOfIds(Index(idBash, idBuckets, items - {rp}));
    }

    // ipcache_unlinkresolve, followed by the free of the item: it leaves all three structures.
    method UnlinkResolve(rp: Item) returns (ghost k: nat)
      requires Valid() && rp in items
      modifies this, idBash, ipBash, items`nextId, items`prevId, items`nextIp, items`prevIp, items`nextActive, items`prevActive
      ensures Valid() && items == old(items) - {rp} && byIp == old(byIp) - {rp.ip}
      ensures currentTick == old(currentTick)
      ensures if rp in old(active) then IsInsert(active, k, rp, old(active)) else active == old(active)
    {
      hide Indices, RingOk, Listed, Maps, IsInsert;
      MapsWithout(byIp, items, rp);
      k := UnlinkActive(rp);
      UnlinkBuckets(rp);
      items := items - {rp};
      byIp := byIp - {rp.ip};
    }

    // One turn of the loops of ipcache_purge_activelist and ipcache_clear.
    method DropTail()
      requires Valid() && active != []
      modifies this, idBash, ipBash, items`nextId, items`prevId, items`nextIp, items`prevIp, items`nextActive, items`prevActive
      ensures Valid() && active == old(active)[..|old(active)|-1]
      ensures items == old(items) - {old(active)[|old(active)|-1]}
      ensures byIp == old(byIp) - {old(active)[|old(active)|-1].ip}
      ensures currentTick == old(currentTick)
    {
      hide Indices, RingOk, Listed, Maps;
      ListFacts();
      var rp := activeList.prevActive;
      ghost var k := UnlinkResolve(rp);
      TailRemoved(active, k, rp, old(active));
    }

    // Everything behind the first k members of the list is gone, and nothing else changed.
    twostate predicate Dropped(k: nat)
      reads this, byIp.Values
    {
      && k <= |old(active)| && active == old(active)[..k] && currentTick == old(currentTick)
      && byIp == old(byIp) - IpSet(old(active)[k..])
      && items <= old(items) && (forall x | x in old(items) && x !in old(active) :: x in items)
    }

    twostate lemma DroppedView(k: nat)
      requires Dropped(k) && old(Maps(byIp, items))
      requires forall a | a in byIp :: byIp[a].Value() == old(byIp[a].Value())
      ensures View() == Spec.DropTo(old(View()), k)
    {
      hide Item.Value, Maps;
      var t := old(active);
      assert old(View()).lru[k..] == Ips(t[k..]);
      IpsMembers(t[k..]);
      assert View().lru == old(View()).lru[..k];
    }

    // ipcache_purge_activelist
    method PurgeActive()
      requires Valid()
      modifies this, idBash, ipBash, items`nextId, items`prevId, items`nextIp, items`prevIp, items`nextActive, items`prevActive
      ensures Valid() && Dropped(Spec.Kept(|old(active)|))
      ensures |old(active)| <= 1024 ==> active == old(active)
      ensures |old(active)| > 1024 ==> active == old(active)[..1013]
    {
      hide IdLinks, IpLinks, Indexed, Ring, Listed, Maps;
      if numActive > Spec.MAX_ACTIVE && numActive > 10 {
        while activeList != null && numActive > 0 && numActive >= Spec.MAX_ACTIVE - Spec.PURGE_ROOM
          invariant Valid() && Dropped(|active|) && |active| >= Spec.Kept(|old(active)|)
          decreases |active|
        {
          DropTail();
        }
      }
    }

    // Links an item that is not on the active list in front of its head.
    method PushActive(rp: Item)
      requires RingOk() && Listed(items - {rp}) && rp in items && active != []
      modifies this`activeList, this`numActive, this`active, items`nextActive, items`prevActive
      ensures RingOk() && Listed(items) && active == [rp] + old(active)
    {
      ghost var s := active;
      ghost var t := [rp] + s;
      assert forall x | x in s :: x in items;
      PushRing(rp, activeList, s, t);
      activeList := rp;
      numActive := numActive + 1;
      active := t;
    }

    twostate lemma MovedView(new k: nat, new s: seq<Item>, rp: Item)
      requires old(Maps(byIp, items)) && (forall x | x in old(active) :: x in old(items)) && rp in old(items)
      requires IsInsert(s, k, rp, old(active)) && k > 0 && old(Distinct(active))
      requires active == [rp] + s && byIp == old(byIp) && currentTick == old(currentTick)
      requires forall a | a in byIp :: byIp[a].Value() == old(byIp[a].Value())
      ensures View() == Spec.Touch(old(View()), rp.ip)
    {
      hide Item.Value, Maps, IsInsert, Distinct, Spec.Without;
      MovedIps(old(byIp), old(items), s, k, rp, old(active));
      assert Ips(active) == [rp.ip] + Ips(s);
      assert View().entries == old(View()).entries;
    }

    twostate lemma AddedView(rp: Item)
      requires old(Maps(byIp, items)) && (forall x | x in old(active) :: x in old(items)) && rp in old(items)
      requires rp !in old(active) && old(active) != []
      requires var k := Spec.Kept(|old(active)|);
               && active == [rp] + old(active)[..k] && byIp == old(byIp) - IpSet(old(active)[k..])
      requires currentTick == old(currentTick)
      requires forall a | a in byIp :: byIp[a].Value() == old(byIp[a].Value())
      ensures View() == Spec.Touch(old(View()), rp.ip)
    {
      hide Item.Value, Maps, Spec.Kept, Spec.Without;
      var t := old(active);
      var k := Spec.Kept(|t|);
      PurgedEntries(old(byIp), old(items), rp, t, k, old(View()), View());
      assert Ips(active) == [rp.ip] + old(View()).lru[..k];
      assert rp.ip !in old(View()).lru;
    }

    // ipcache_link_activelist, for an item that is listed and not the head
    method MoveToFront(rp: Item) returns (ghost k: nat, ghost s: seq<Item>)
      requires Valid() && rp in active && activeList != rp
      modifies this`activeList, this`numActive, this`active, items`nextActive, items`prevActive
      ensures Valid() && active == [rp] + s && IsInsert(s, k, rp, old(active)) && k > 0
    {
      hide Indices, RingOk, Listed, Maps, Ring, IsInsert, Distinct;
      ListFacts();
      k := UnlinkActive(rp);
      s := active;
      NotHead(s, k, rp, old(active));
      PushActive(rp);
    }

    // ipcache_link_activelist, for an item that is not listed while others are
    method AddInFront(rp: Item)
      requires Valid() && rp in items && rp !in active && active != []
      modifies this, idBash, ipBash, items`nextId, items`prevId, items`nextIp, items`prevIp, items`nextActive, items`prevActive
      ensures Valid() && rp in items && items <= old(items) && currentTick == old(currentTick)
      ensures var k := Spec.Kept(|old(active)|);
              && active == [rp] + old(active)[..k] && byIp == old(byIp) - IpSet(old(active)[k..])
    {
      hide Indices, RingOk, Listed, Maps, Ring, Distinct, Spec.Kept, IpSet;
      ListFacts();
      PurgeActive();
      ListFacts();
      ListedBut(items, rp);
      PushActive(rp);
    }

    // ipcache_link_activelist, for the first item of the list
    method StartActive(rp: Item)
      requires Valid() && rp in items && activeList == null
      modifies this`activeList, this`numActive, this`active, rp`nextActive, rp`prevActive
      ensures Valid() && View() == Spec.Touch(old(View()), rp.ip)
    {
      hide Indices, Maps;
      activeList, rp.nextActive, rp.prevActive := rp, rp, rp;
      numActive := 1;
      active := [rp];
      assert View().entries == old(View()).entries;
      assert View().lru == [rp.ip] && old(View()).lru == [];
    }

    // ipcache_link_activelist
    method LinkActive(rp: Item)
      requires Valid() && rp in items
      modifies this, idBash, ipBash, items`nextId, items`prevId, items`nextIp, items`prevIp, items`nextActive, items`prevActive
      ensures Valid() && rp in items && items <= old(items)
      ensures View() == Spec.Touch(old(View()), rp.ip)
    {
      hide Indices, RingOk, Listed, Maps, Ring, IsInsert, Spec.Kept, IpSet;
      ListFacts();
      if activeList != rp {
        if activeList == null {
          StartActive(rp);
        } else {
          if rp.nextActive == null {
            AddInFront(rp);
            AddedView(rp);
          } else {
            ghost var k, s := MoveToFront(rp);
            MovedView(k, s, rp);
          }
        }
      }
    }

    // The loop of ipcache_clear
    method ClearActive()
      requires Valid()
      modifies this, idBash, ipBash, items`nextId, items`prevId, items`nextIp, items`prevIp, items`nextActive, items`prevActive
      ensures Valid() && Dropped(0)
    {
      hide IdLinks, IpLinks, Indexed, Ring, Listed, Maps;
      while activeList != null && numActive > 0
        invariant Valid() && Dropped(|active|)
        decreases |active|
      {
        DropTail();
      }
    }

    // ipcache_clear
    method Clear()
      requires Valid()
      modifies this, idBash, ipBash, items`nextId, items`prevId, items`nextIp, items`prevIp, items`nextActive, items`prevActive
      ensures Valid() && View() == Spec.Clear(old(View())) && items <= old(items)
    {
      hide Indices, RingOk, Listed, Ring;
      ClearActive();
      DroppedView(0);
    }

    // ipcache_tick
    method Tick()
      requires Valid()
      modifies this`currentTick
      ensures Valid() && View() == Spec.Tick(old(View()))
    {
      hide Indices, RingOk, Listed, Maps;
      currentTick := currentTick + 1;
      assert View().entries == old(View()).entries;
    }

    // ipcache_findid: moves at most a finger
    method FindById(id: nat) returns (rp: Item?)
      requires Valid()
      modifies idBash
      ensures Valid()
      ensures rp != null ==> rp in items && rp.id == id
      ensures rp == null ==> forall x | x in items :: x.id != id
      ensures forall c | 0 <= c < idBash.Length && c != IdHash(id) :: idBash[c] == old(idBash[c])
    {
      hide RingOk, Listed, Maps, Indexed, IdLinks, IpLinks;
      rp := FindId(idBash, id, idBuckets, items);
      IpLinksKept(Index(ipBash, ipBuckets, items));
    }

    // ipcache_findip: moves at most a finger
    method FindByIp(ip: Address) returns (rp: Item?)
      requires Valid()
      modifies ipBash
      ensures Valid()
      ensures rp != null ==> ip in byIp && rp == byIp[ip] && rp in items && rp.ip == ip
      ensures rp == null ==> ip !in byIp
      ensures forall c | 0 <= c < ipBash.Length && c != IpHash(ip) :: ipBash[c] == old(ipBash[c])
    {
      hide RingOk, Listed, Indexed, IdLinks, IpLinks;
      rp := FindIp(ipBash, ip, ipBuckets, items);
      IdLinksKept(Index(idBash, idBuckets, items));
    }

    lemma UsedIdsAre()
      requires Valid()
      ensures Spec.UsedIds(View()) == set x | x in items :: x.id
    {
      forall x | x in items ensures x.id in Spec.UsedIds(View()) {
        assert View().entries[x.ip].id == x.id;
      }
    }

    // The generator loop of ipcache_alloc_item: draws ids until one is unused.
    method PickId(draws: seq<nat>, ghost used: set<nat>) returns (id: nat)
      requires Valid() && used == (set x | x in items :: x.id) && Spec.CanPick(used, draws)
      modifies idBash
      ensures Valid() && id == Spec.Pick(used, draws)
    {
      hide Indices, RingOk, Listed, Maps;
      var i := 0;
      id := draws[0];
      var rp := FindById(id);
      while rp != null
        invariant Valid() && 0 <= i < |draws| && id == draws[i]
        invariant Spec.CanPick(used, draws[i..]) && Spec.Pick(used, draws) == Spec.Pick(used, draws[i..])
        invariant rp == null <==> id !in used
        decreases |draws| - i
      {
        SkipUsed(used, draws[i..]);
        assert draws[i..][1..] == draws[i+1..];
        i := i + 1;
        id := draws[i];
        rp := FindById(id);
      }
    }

    // Links a new item into both indices.
    method EnterBuckets(rp: Item)
      requires Indices(items) && rp !in items
      requires forall x | x in items :: x.id != rp.id && Rank(x.ip) != Rank(rp.ip)
      modifies this`idBuckets, this`ipBuckets, idBash, ipBash
      modifies items`nextId, items`prevId, items`nextIp, items`prevIp, rp`nextId, rp`prevId, rp`nextIp, rp`prevIp
      ensures Indices(items + {rp})
    {
      hide IdLinks, IpLinks, Indexed;
      ipBuckets := LinkResolveIp(ipBash, rp, ipBuckets, items);
      IdLinksKept(Index(idBash, idBuckets, items));
      label ByAddress:
      idBuckets := LinkResolveId(idBash, rp, idBuckets, items);
      IpLinksKept@ByAddress(Index(ipBash, ipBuckets, items + {rp}));
    }

    lemma ListedWith(its: set<Item>, x: Item)
      requires Listed(its) && x.nextActive == null
      ensures Listed(its + {x})
    {}

    method Enter(rp: Item)
      requires Valid() && rp !in items && rp.nextActive == null && rp.ip !in byIp
      requires forall x | x in items :: x.id != rp.id && Rank(x.ip) != Rank(rp.ip)
      modifies this`idBuckets, this`ipBuckets, this`items, this`byIp, idBash, ipBash
      modifies items`nextId, items`prevId, items`nextIp, items`prevIp, rp`nextId, rp`prevId, rp`nextIp, rp`prevIp
      ensures Valid() && items == old(items) + {rp} && byIp == old(byIp)[rp.ip := rp]
    {
      hide Indices, RingOk, Listed, Maps;
      EnterBuckets(rp);
      ListedWith(items, rp);
      MapsWith(byIp, items, rp);
      items := items + {rp};
      byIp := byIp[rp.ip := rp];
    }

    twostate lemma EnteredView(new rp: Item)
      requires old(Maps(byIp, items)) && rp.ip !in old(byIp)
      requires byIp == old(byIp)[rp.ip := rp] && active == old(active) && currentTick == old(currentTick)
      requires forall a | a in byIp && a != rp.ip :: byIp[a].Value() == old(byIp[a].Value())
      ensures View() == Spec.Put(old(View()), rp.ip, rp.Value())
    {
      hide Item.Value;
      assert View().entries == old(View()).entries[rp.ip := rp.Value()];
    }

    // ipcache_alloc_item. The id is drawn before the item is linked by address; the two touch different lists.
    method AllocItem(ip: Address, draws: seq<nat>) returns (rp: Item)
      requires Valid() && ip !in byIp && Spec.CanPick(Spec.UsedIds(View()), draws)
      modifies this, idBash, ipBash, items
      ensures Valid() && fresh(rp) && items == old(items) + {rp} && rp.ip == ip
      ensures View() == Spec.Alloc(old(View()), ip, draws)
    {
      hide Indices, RingOk, Listed, Maps;
      NewKey(byIp, items, ip);
      UsedIdsAre();
      var id := PickId(draws, Spec.UsedIds(View()));
      rp := new Item(ip, id);
      Enter(rp);
      EnteredView(rp);
    }

    twostate lemma ValueSet(rp: Item)
      requires old(Maps(byIp, items)) && rp in old(items)
      requires byIp == old(byIp) && active == old(active) && currentTick == old(currentTick)
      requires forall a | a in byIp && a != rp.ip :: byIp[a].Value() == old(byIp[a].Value())
      ensures View() == Spec.Put(old(View()), rp.ip, rp.Value())
    {
      hide Item.Value;
      assert View().entries == old(View()).entries[rp.ip := rp.Value()];
    }

    // ipcache_calc_expire_tick
    method CalcExpireTick(rp: Item, delay: nat, isRequest: bool, random: nat)
      modifies rp`expireTick, rp`lastExpireTick
      ensures rp.expireTick == rp.lastExpireTick == Spec.ExpireTick(currentTick, delay, isRequest, random)
    {
      var d := if delay > 86400 then 86400 else delay;
      if isRequest {
        rp.expireTick := d + currentTick + random % 12;
      } else {
        rp.expireTick := d + currentTick + random % 720;
      }
      rp.lastExpireTick := rp.expireTick;
    }

    // What a request writes into the item.
    method WriteRequest(rp: Item, random: nat)
      modifies rp`state, rp`expireTick, rp`lastExpireTick
      ensures rp.Value() == Spec.Requested(old(rp.Value()), currentTick, random)
    {
      match rp.state {
        case Finished => CalcExpireTick(rp, 18, true, random);
        case Failed => CalcExpireTick(rp, 18, true, random);
        case PtrReq => CalcExpireTick(rp, rp.lastExpireTick * 2, true, random);
      }
      rp.state := Spec.PtrReq;
    }

    method SetRequest(rp: Item, random: nat)
      requires Valid() && rp in items
      modifies rp`state, rp`expireTick, rp`lastExpireTick
      ensures Valid() && View() == Spec.Put(old(View()), rp.ip, rp.Value())
      ensures rp.Value() == Spec.Requested(old(rp.Value()), currentTick, random)
    {
      hide Indices, RingOk, Listed;
      WriteRequest(rp, random);
      ValueSet(rp);
    }

    // ipcache_prepare_request
    method PrepareRequest(ip: Address, draws: seq<nat>, random: nat) returns (rp: Item)
      requires Valid() && (ip in View().entries || Spec.CanPick(Spec.UsedIds(View()), draws))
      modifies this, idBash, ipBash, items
      ensures Valid() && rp in items && rp.ip == ip && items == old(items) + {rp}
      ensures if ip in old(View()).entries then rp in old(items) else fresh(rp)
      ensures View() == Spec.Prepare(old(View()), ip, draws, random)
    {
      hide Indices, RingOk, Listed;
      var found := FindByIp(ip);
      assert View() == old(View());
      if found == null {
        rp := AllocItem(ip, draws);
      } else {
        rp := found;
      }
      SetRequest(rp, random);
    }

    // What an answer writes into the item.
    method WriteAnswer(rp: Item, state: Spec.State, delay: nat, name: Option<string>, random: nat)
      modifies rp`state, rp`expireTick, rp`lastExpireTick, rp`hostname, rp`answered
      ensures rp.Value() == Spec.Delayed(old(rp.Value()), currentTick, delay, false, random)
                              .(state := state, answered := true, hostname := if name.Some? then name else old(rp.hostname))
    {
      rp.state := state;
      rp.answered := true;
      CalcExpireTick(rp, delay, false, random);
      if name.Some? {
        rp.hostname := name;
      }
    }

    method SetAnswer(rp: Item, state: Spec.State, delay: nat, name: Option<string>, random: nat)
      requires Valid() && rp in items
      modifies rp`state, rp`expireTick, rp`lastExpireTick, rp`hostname, rp`answered
      ensures Valid() && View() == Spec.Put(old(View()), rp.ip, rp.Value())
      ensures rp.Value() == Spec.Delayed(old(rp.Value()), currentTick, delay, false, random)
                              .(state := state, answered := true, hostname := if name.Some? then name else old(rp.hostname))
    {
      hide Indices, RingOk, Listed;
      WriteAnswer(rp, state, delay, name, random);
      ValueSet(rp);
    }

    // ipcache_request_failed
    method RequestFailed(rp: Item, random: nat)
      requires Valid() && rp in items
      modifies this, idBash, ipBash, items
      ensures Valid() && items <= old(items)
      ensures rp.ip in old(View()).entries && View() == Spec.Fail(old(View()), rp.ip, random)
    {
      hide Indices, RingOk, Listed;
      if rp.state != Spec.Finished {
        SetAnswer(rp, Spec.Failed, 8640, None, random);
        LinkActive(rp);
      }
    }

    // ipcache_request_succeeded
    method RequestSucceeded(rp: Item, ttl: int, name: Option<string>, random: nat)
      requires Valid() && rp in items
      modifies this, idBash, ipBash, items
      ensures Valid() && items <= old(items)
      ensures rp.ip in old(View()).entries && View() == Spec.Succeed(old(View()), rp.ip, ttl, name, random)
    {
      hide Indices, RingOk, Listed;
      SetAnswer(rp, Spec.Finished, Spec.TtlDelay(ttl), name, random);
      LinkActive(rp);
    }

    // ipcache_getnameip; resolving says whether name resolution is enabled
    method GetNameIp(ip: Address, resolving: bool) returns (name: Option<string>, expired: bool)
      requires Valid()
      modifies this, idBash, ipBash, items`nextId, items`prevId, items`nextIp, items`prevIp, items`nextActive, items`prevActive
      ensures Valid() && items <= old(items)
      ensures View() == if resolving then Spec.Lookup(old(View()), ip) else old(View())
      ensures name == (if resolving then Spec.NameOf(old(View()), ip) else None)
      ensures expired == (resolving && Spec.IsExpired(old(View()), ip))
      ensures expired <==> resolving && forall x | x in old(items) && x.ip == ip :: old(x.expireTick) < old(currentTick)
    {
      hide Indices, RingOk, Listed;
      if !resolving {
        return None, false;
      }
      var rp := FindByIp(ip);
      assert View() == old(View());
      if rp == null {
        return None, true;
      }
      expired := rp.expireTick < currentTick;
      if rp.state == Spec.Finished || rp.state == Spec.Failed {
        LinkActive(rp);
        if rp.state == Spec.Finished && rp.hostname.Some? {
          return rp.hostname, expired;
        }
      }
      name := None;
    }
  }

  lemma MapsWith(byIp: map<Address, Item>, items: set<Item>, x: Item)
    requires Maps(byIp, items) && x.ip !in byIp
    ensures Maps(byIp[x.ip := x], items + {x})
  {}

  lemma NewKey(byIp: map<Address, Item>, items: set<Item>, ip: Address)
    requires Maps(byIp, items) && ip !in byIp
    ensures forall x | x in items :: Rank(x.ip) != Rank(ip)
  {
    forall x | x in items ensures Rank(x.ip) != Rank(ip) {
      assert AddressCompare(x.ip, ip) != 0;
    }
  }

  lemma SkipUsed(used: set<nat>, draws: seq<nat>)
    requires Spec.CanPick(used, draws) && draws[0] in used
    ensures |draws| > 1 && Spec.CanPick(used, draws[1..]) && Spec.Pick(used, draws) == Spec.Pick(used, draws[1..])
  {
    var i :| 0 <= i < |draws| && draws[i] !in used;
    assert draws[1..][i-1] !in used;
  }

  lemma IpsDistinct(byIp: map<Address, Item>, items: set<Item>, s: seq<Item>)
    requires Maps(byIp, items) && Distinct(s) && forall x | x in s :: x in items
    ensures Distinct(Ips(s))
  {
    forall i, j | 0 <= i < j < |s| ensures s[i].ip != s[j].ip {
      assert s[i] in s && s[j] in s && s[i] != s[j];
    }
  }

  // Taking the addresses of t[k..] out of the map is what dropping to k does to the entries.
  lemma PurgedEntries(byIp: map<Address, Item>, items: set<Item>, x: Item, t: seq<Item>, k: nat, c: Spec.Cache, d: Spec.Cache)
    requires Maps(byIp, items) && (forall y | y in t :: y in items) && x in items && x !in t && k <= |t|
    requires c.lru == Ips(t) && c.entries.Keys == byIp.Keys
    requires d.entries.Keys == byIp.Keys - IpSet(t[k..]) && forall a | a in d.entries :: d.entries[a] == c.entries[a]
    ensures x.ip !in c.lru && d.entries == Spec.DropTo(c, k).entries
  {
    IpsMembers(t);
    IpsMembers(t[k..]);
    assert c.lru[k..] == Ips(t[k..]);
  }

  lemma MovedIps(byIp: map<Address, Item>, items: set<Item>, s: seq<Item>, k: nat, x: Item, t: seq<Item>)
    requires Maps(byIp, items) && (forall y | y in t :: y in items) && Distinct(t) && IsInsert(s, k, x, t) && k > 0
    ensures x.ip in Ips(t) && Ips(t)[0] != x.ip && Spec.Without(Ips(t), x.ip) == Ips(s)
  {
    IpsDistinct(byIp, items, t);
    assert Ips(t)[k] == x.ip;
    WithoutAt(Ips(t), k);
    assert Ips(s) == Ips(t)[..k] + Ips(t)[k+1..];
  }

  lemma {:induction false} WithoutAt(l: seq<Address>, k: nat)
    requires Distinct(l) && k < |l|
    ensures Spec.Without(l, l[k]) == l[..k] + l[k+1..]
  {
    if k == 0 {
      assert l[0] !in l[1..];
    } else {
      WithoutAt(l[1..], k - 1);
      assert l[1..][..k-1] == l[1..k] && l[..k] == [l[0]] + l[1..k];
    }
  }

  ghost function IpSet(s: seq<Item>): set<Address> {
    set x | x in s :: x.ip
  }

  ghost function Ips(s: seq<Item>): (r: seq<Address>)
    ensures |r| == |s|
  {
    seq(|s|, i requires 0 <= i < |s| => s[i].ip)
  }

  lemma IpsMembers(s: seq<Item>)
    ensures forall a :: a in Ips(s) <==> a in IpSet(s)
  {
    forall i | 0 <= i < |s| ensures s[i].ip in Ips(s) {
      assert Ips(s)[i] == s[i].ip;
    }
  }
}
