/** thread_lookup over the cache and the request list in memory (src/thread_resolve.c:219-251,
    src/thread_resolve.c:281-302). */
module NameService {
  import opened Wrappers
  import opened Bytes
  import Spec = IpCacheSpec
  import opened IpCacheItem
  import opened IpCache
  import opened RequestQueue

  lemma StaysKnown(c: Spec.Cache, ip: Address)
    ensures ip in Spec.Lookup(c, ip).entries <==> ip in c.entries
  {}

  class NameService {
    const cache: Cache
    const requests: RequestQueue<Item>

    constructor ()
      ensures cache.Valid() && requests.Valid() && cache.View() == Spec.EMPTY && requests.View() == []
      ensures fresh(cache) && fresh(requests)
    {
      cache := new Cache();
      requests := new RequestQueue();
    }

    // sendrequest_inverse: the request is for the item of the cache, which is a new one if there was none
    method SendRequest(ip: Address, draws: seq<nat>, random: nat) returns (rp: Item)
      requires cache.Valid() && requests.Valid()
      requires ip in cache.View().entries || Spec.CanPick(Spec.UsedIds(cache.View()), draws)
      modifies cache, cache.idBash, cache.ipBash, cache.items, requests, requests.links
      ensures cache.Valid() && requests.Valid()
      ensures cache.View() == Spec.Prepare(old(cache.View()), ip, draws, random)
      ensures rp in cache.items && rp.ip == ip && cache.items == old(cache.items) + {rp}
      ensures if ip in old(cache.View()).entries then rp in old(cache.items) else fresh(rp)
      ensures requests.View() == old(requests.View()) + [rp]
    {
      hide Cache.View, Cache.Indices, Cache.RingOk, Cache.Listed, Maps, Spec.Prepare, RequestQueue.View;
      rp := cache.PrepareRequest(ip, draws, random);
      requests.Append(rp);
    }

    /** thread_lookup: the name known now, and a request whenever the entry is missing or expired */
    method Lookup(ip: Address, resolving: bool, draws: seq<nat>, random: nat) returns (name: Option<string>, request: Option<Item>)
      requires cache.Valid() && requests.Valid()
      requires resolving && ip !in cache.View().entries ==> Spec.CanPick(Spec.UsedIds(cache.View()), draws)
      modifies cache, cache.idBash, cache.ipBash, cache.items, requests, requests.links
      ensures cache.Valid() && requests.Valid()
      ensures name == if resolving then Spec.NameOf(old(cache.View()), ip) else None
      ensures request.Some? <==> resolving && Spec.IsExpired(old(cache.View()), ip)
      ensures request.Some? <==> resolving && forall x | x in old(cache.items) && x.ip == ip :: old(x.expireTick) < old(cache.currentTick)
      ensures var c := if resolving then Spec.Lookup(old(cache.View()), ip) else old(cache.View());
              if request.Some? then
                && (ip in c.entries || Spec.CanPick(Spec.UsedIds(c), draws))
                && cache.View() == Spec.Prepare(c, ip, draws, random)
              else cache.View() == c
      ensures match request
              case Some(rp) =>
                && rp in cache.items && rp.ip == ip && cache.items <= old(cache.items) + {rp}
                && (if ip in old(cache.View()).entries then rp in old(cache.items) else fresh(rp))
                && requests.View() == old(requests.View()) + [rp]
              case None => cache.items <= old(cache.items) && requests.View() == old(requests.View())
    {
      hide Cache.Indices, Cache.RingOk, Cache.Listed, Maps, Spec.Prepare, RequestQueue.View;
      StaysKnown(cache.View(), ip);
      var expired;
      name, expired := cache.GetNameIp(ip, resolving);
      request := None;
      if expired {
        var rp := SendRequest(ip, draws, random);
        request := Some(rp);
      }
    }
  }
}
