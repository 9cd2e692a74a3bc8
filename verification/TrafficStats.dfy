/** A traffic queue as it is in memory (src/traffic_stats.c, src/basic_stats.c:147-191,
    src/protocols.c:42-189): packets are shared by reference count between queues, and the global
    counters follow every queue item. Each operation does to View() what Traffic.dfy says; and for
    every packet the references held outside this queue stay the same number. */
module TrafficStats {
  import opened Wrappers
  import opened BasicStats
  import opened Protocols
  import T = Traffic

  // packet_list_item_n and appdata.total_mem_packets; `live` is the set of packets not yet freed.
  class Memory {
    var items: int
    var packets: int
    ghost var live: set<PacketInfo>

    ghost predicate Valid()
      reads this
    {
      packets == |live|
    }

    constructor ()
      ensures Valid() && items == 0 && live == {}
    {
      items, packets, live := 0, 0, {};
    }

    // packet_list_item_create
    method CreateItem(p: PacketInfo, d: Direction) returns (it: QueueItem)
      modifies this`items, p`refCount
      ensures it == QueueItem(p, d) && p.refCount == old(p.refCount) + 1 && items == old(items) + 1
    {
      p.refCount := p.refCount + 1;
      it := QueueItem(p, d);
      items := items + 1;
    }

    // packet_list_item_delete: the packet is freed with its last reference
    method DeleteItem(it: QueueItem)
      requires Valid() && it.info in live
      modifies this, it.info`refCount
      ensures Valid() && it.info.refCount == old(it.info.refCount) - 1 && items == old(items) - 1
      ensures live == if it.info.refCount < 1 then old(live) - {it.info} else old(live)
    {
      it.info.refCount := it.info.refCount - 1;
      if it.info.refCount < 1 {
        live := live - {it.info};
        packets := packets - 1;
      }
      items := items - 1;
    }
  }

  // How many items of the queue point to the packet.
  function Count(p: PacketInfo, q: T.Queue): nat {
    if q == [] then 0 else (if q[0].info == p then 1 else 0) + Count(p, q[1..])
  }

  lemma {:induction false} CountAppend(p: PacketInfo, a: T.Queue, b: T.Queue)
    ensures Count(p, a + b) == Count(p, a) + Count(p, b)
  {
    if a == [] {
      assert a + b == b;
    } else {
      assert (a + b)[1..] == a[1..] + b;
      CountAppend(p, a[1..], b);
    }
  }

  lemma CountTail(p: PacketInfo, q: T.Queue)
    requires q != []
    ensures Count(p, q) == Count(p, q[..|q|-1]) + (if q[|q|-1].info == p then 1 else 0)
  {
    var n := |q| - 1;
    CountAppend(p, q[..n], q[n..]);
    assert q == q[..n] + q[n..] && q[n..] == [q[n]] && q[n..][1..] == [];
  }

  ghost function Infos(q: T.Queue): set<PacketInfo> {
    set it | it in q :: it.info
  }

  // Every queued packet is live, and has at least the references this queue holds.
  ghost predicate Backed(q: T.Queue, live: set<PacketInfo>)
    reads Infos(q)`refCount
  {
    forall p | p in Infos(q) :: p in live && p.refCount >= Count(p, q)
  }

  lemma {:induction false} CountMember(p: PacketInfo, q: T.Queue)
    ensures p in Infos(q) <==> Count(p, q) > 0
  {
    if q != [] {
      CountMember(p, q[1..]);
      assert q == [q[0]] + q[1..];
      assert p in Infos(q) <==> p == q[0].info || p in Infos(q[1..]);
    }
  }

  lemma BackedIsReferenced(q: T.Queue, live: set<PacketInfo>)
    requires Backed(q, live)
    ensures forall p | p in Infos(q) :: p in live && p.refCount >= 1
  {
    forall p | p in Infos(q) ensures p.refCount >= 1 {
      CountMember(p, q);
    }
  }

  lemma TailIsQueued(q: T.Queue)
    requires q != []
    ensures q[|q|-1].info in Infos(q)
  {}

  class TrafficStats {
    var queue: T.Queue
    var stats: Stat
    var statsIn: Stat
    var statsOut: Stat
    var protos: seq<Level>

    ghost function View(): T.Traffic
      reads this
    {
      T.Traffic(queue, stats, statsIn, statsOut, protos)
    }

    // traffic_stats_init
    constructor (now: int)
      ensures View() == T.Init(now)
    {
      queue := [];
      stats, statsIn, statsOut := Zero(now), Zero(now), Zero(now);
      protos := seq(LEVELS, _ => []);
    }

    // protocol_stack_add_pkt
    method AddProtocols(names: seq<Option<string>>, v: nat, now: int)
      requires |protos| == |names| == LEVELS
      modifies this`protos
      ensures protos == AddStack(old(protos), names, v, now)
    {
      ghost var was := protos;
      for i := 0 to LEVELS
        invariant |protos| == LEVELS
        invariant forall j :: 0 <= j < LEVELS ==> protos[j] == if j < i then AddStack(was, names, v, now)[j] else was[j]
      {
        if names[i].Some? {
          protos := protos[i := AddTo(protos[i], names[i].value, v, now)];
        }
      }
    }

    // protocol_stack_sub_pkt
    method SubProtocols(names: seq<Option<string>>, v: nat)
      requires |protos| == |names| == LEVELS
      modifies this`protos
      ensures protos == SubStack(old(protos), names, v, 0)
    {
      ghost var was := protos;
      var i := 0;
      while i <= STACK_SIZE && names[i].Some?
        invariant 0 <= i <= LEVELS && |protos| == LEVELS
        invariant SubStack(was, names, v, 0) == SubStack(protos, names, v, i)
      {
        if !Has(protos[i], names[i].value) {
          break;
        }
        protos := protos[i := SubFrom(protos[i], names[i].value, v)];
        i := i + 1;
      }
    }

    // protocol_stack_purge_expired
    method ExpireProtocols(now: int, time: real)
      modifies this`protos
      ensures protos == ExpireStack(old(protos), now, time)
    {
      ghost var was := protos;
      if time > 0.0 {
        for i := 0 to |protos|
          invariant |protos| == |was|
          invariant forall j :: 0 <= j < |was| ==> protos[j] == if j < i then Expire(was[j], now, time) else was[j]
        {
          var kept := [];
          var rest := protos[i];
          while rest != []
            invariant kept + Expire(rest, now, time) == Expire(was[i], now, time)
            decreases |rest|
          {
            if !(rest[0].stats.window <= 0 && Ms(now, rest[0].stats.lastTime) >= time) {
              kept := kept + [rest[0]];
            }
            rest := rest[1..];
          }
          protos := protos[i := kept];
        }
      }
    }

    // protocol_stack_avg
    method AverageProtocols(ms: real)
      modifies this`protos
      ensures protos == AverageStack(old(protos), ms)
    {
      ghost var was := protos;
      for i := 0 to |protos|
        invariant |protos| == |was|
        invariant forall j :: 0 <= j < |was| ==> protos[j] == if j < i then AverageLevel(was[j], ms) else was[j]
      {
        protos := protos[i := AverageLevel(protos[i], ms)];
      }
    }

    // protocol_stack_sort_most_used
    method SortMostUsed(level: nat) returns (name: Option<string>)
      requires |protos| == LEVELS
      modifies this`protos
      ensures if level > STACK_SIZE || old(protos)[level] == [] then name == None && protos == old(protos)
              else protos == old(protos)[level := SortByUse(old(protos)[level])] &&
                   protos[level] != [] && name == Some(protos[level][0].name)
    {
      if level > STACK_SIZE || protos[level] == [] {
        return None;
      }
      SortedHeadIsMostUsed(protos[level]);
      protos := protos[level := SortByUse(protos[level])];
      name := Some(protos[level][0].name);
    }

    // traffic_stats_add_packet
    method AddPacket(mem: Memory, p: PacketInfo, d: Direction, now: int)
      requires |protos| == |p.names| == LEVELS
      modifies this, mem`items, p`refCount
      ensures View() == T.Add(old(View()), QueueItem(p, d), now)
      ensures p.refCount == old(p.refCount) + 1 && mem.items == old(mem.items) + 1
    {
      var it := mem.CreateItem(p, d);
      queue := [it] + queue;
      stats := AddBytes(stats, it.info.size, now);
      if it.direction != Outbound {
        statsIn := AddBytes(statsIn, it.info.size, now);
      }
      if it.direction != Inbound {
        statsOut := AddBytes(statsOut, it.info.size, now);
      }
      AddProtocols(it.info.names, it.info.size, now);
    }

    // The body of the purge loop
    method DropTail(mem: Memory)
      requires queue != [] && T.Shaped(View()) && mem.Valid() && Backed(queue, mem.live)
      modifies this, mem, queue[|queue|-1].info`refCount
      ensures View() == T.DropTail(old(View()))
      ensures var p := old(queue[|queue|-1].info);
              && p.refCount == old(p.refCount) - 1
              && mem.live == if p.refCount < 1 then old(mem.live) - {p} else old(mem.live)
      ensures mem.Valid() && mem.items == old(mem.items) - 1
    {
      var it := queue[|queue|-1];
      assert it.info in Infos(queue);
      stats := SubBytes(stats, it.info.size);
      if it.direction != Outbound {
        statsIn := SubBytes(statsIn, it.info.size);
      }
      if it.direction != Inbound {
        statsOut := SubBytes(statsOut, it.info.size);
      }
      SubProtocols(it.info.names, it.info.size);
      queue := queue[..|queue|-1];
      mem.DeleteItem(it);
    }

    /** What an operation that only removes items does to the shared packets: the references held
        elsewhere stay, the item counter follows the queue, and of the packets that were queued
        exactly those that lost their last reference are freed. */
    twostate predicate Released(mem: Memory, infos: set<PacketInfo>)
      reads this, mem, infos`refCount
    {
      && (forall p | p in infos :: p.refCount - Count(p, queue) == old(p.refCount) - Count(p, old(queue)))
      && mem.items - |queue| == old(mem.items) - |old(queue)|
      && (forall p | p in infos :: p in mem.live <==> p.refCount >= 1)
      && mem.live <= old(mem.live) <= mem.live + infos
    }

    // The body of the purge loop, and what it does to the packet at the tail
    method ReleaseTail(mem: Memory, ghost infos: set<PacketInfo>)
      requires queue != [] && T.Shaped(View()) && mem.Valid() && Backed(queue, mem.live) && Infos(queue) <= infos
      requires forall p | p in infos :: p in mem.live <==> p.refCount >= 1
      modifies this, mem, queue[|queue|-1].info`refCount
      ensures View() == T.DropTail(old(View())) && queue == old(queue)[..|old(queue)|-1] && T.Shaped(View())
      ensures mem.Valid() && Backed(queue, mem.live) && Infos(queue) <= infos && Released(mem, infos)
    {
      ghost var was := queue;
      assert was[|was|-1].info in Infos(was);
      DropTail(mem);
      forall p | p in infos
        ensures Count(p, queue) == Count(p, was) - (if p == was[|was|-1].info then 1 else 0)
      {
        CountTail(p, was);
      }
      forall p | p in Infos(queue) ensures p in mem.live && p.refCount >= Count(p, queue) {
        CountMember(p, queue);
        assert p in Infos(was);
      }
    }

    // The purge loop of traffic_stats_purge_expired_packets
    method PurgePackets(mem: Memory, now: int, expire: real)
      requires T.Shaped(View()) && mem.Valid() && Backed(queue, mem.live)
      modifies this, mem, Infos(queue)`refCount
      ensures View() == T.PurgePackets(old(View()), now, expire) && queue <= old(queue)
      ensures mem.Valid() && Backed(queue, mem.live) && Released(mem, Infos(old(queue)))
    {
      hide T.DropTail, Backed, T.Shaped, Count, Infos;
      ghost var infos := Infos(queue);
      BackedIsReferenced(queue, mem.live);
      while queue != []
        invariant T.Shaped(View()) && mem.Valid() && Backed(queue, mem.live)
        invariant T.PurgePackets(old(View()), now, expire) == T.PurgePackets(View(), now, expire)
        invariant queue <= old(queue) && Infos(queue) <= infos && Released(mem, infos)
        decreases |queue|
      {
        var it := queue[|queue|-1];
        if Ms(now, it.info.timestamp) < expire {
          break;
        }
        TailIsQueued(queue);
        ReleaseTail(mem, infos);
      }
    }

    // traffic_stats_purge_expired_packets
    method PurgeExpired(mem: Memory, now: int, expire: real, protoExpire: real)
      requires T.Shaped(View()) && mem.Valid() && Backed(queue, mem.live)
      modifies this, mem, Infos(queue)`refCount
      ensures View() == T.Purge(old(View()), now, expire, protoExpire) && queue <= old(queue)
      ensures mem.Valid() && Backed(queue, mem.live) && Released(mem, Infos(old(queue)))
    {
      PurgePackets(mem, now, expire);
      if queue == [] {
        stats := stats.(average := 0.0);
        statsIn := statsIn.(average := 0.0);
        statsOut := statsOut.(average := 0.0);
      }
      ExpireProtocols(now, protoExpire);
    }

    // traffic_stats_update
    method Update(mem: Memory, now: int, avg: real, protoExpire: real) returns (active: bool)
      requires T.Shaped(View()) && mem.Valid() && Backed(queue, mem.live)
      modifies this, mem, Infos(queue)`refCount
      ensures View() == T.Update(old(View()), now, avg, protoExpire) && queue <= old(queue)
      ensures active <==> queue != []
      ensures mem.Valid() && Backed(queue, mem.live) && Released(mem, Infos(old(queue)))
    {
      PurgeExpired(mem, now, avg, protoExpire);
      if queue != [] {
        stats := Averaged(stats, avg);
        statsIn := Averaged(statsIn, avg);
        statsOut := Averaged(statsOut, avg);
        AverageProtocols(avg);
        return true;
      }
      return false;
    }

    // The common part of node_update and update_link
    method Refresh(mem: Memory, now: int, avg: real, protoExpire: real) returns (active: bool)
      requires T.Shaped(View()) && mem.Valid() && Backed(queue, mem.live)
      modifies this, mem, Infos(queue)`refCount
      ensures View() == T.Refresh(old(View()), now, avg, protoExpire) && queue <= old(queue)
      ensures active <==> queue != []
      ensures mem.Valid() && Backed(queue, mem.live) && Released(mem, Infos(old(queue)))
    {
      active := Update(mem, now, avg, protoExpire);
      if active {
        SortLevels();
      }
    }

    method SortLevels()
      requires |protos| == LEVELS
      modifies this`protos
      ensures protos == SortStack(old(protos))
    {
      ghost var was := protos;
      var i := LEVELS;
      while i > 0
        invariant 0 <= i <= LEVELS && |protos| == LEVELS
        invariant forall j :: 0 <= j < LEVELS ==> protos[j] == if j >= i then SortByUse(was[j]) else was[j]
      {
        i := i - 1;
        var name := SortMostUsed(i);
      }
    }

    // traffic_stats_reset
    method Reset(mem: Memory, now: int)
      requires mem.Valid() && Backed(queue, mem.live)
      modifies this, mem, Infos(queue)`refCount
      ensures View() == T.Init(now)
      ensures mem.Valid() && Released(mem, Infos(old(queue)))
    {
      ghost var infos := Infos(queue);
      BackedIsReferenced(queue, mem.live);
      while queue != []
        invariant mem.Valid() && Backed(queue, mem.live) && Infos(queue) <= infos && Released(mem, infos)
        decreases |queue|
      {
        ReleaseHead(mem, infos);
      }
      protos := seq(LEVELS, _ => []);
      stats, statsIn, statsOut := Zero(now), Zero(now), Zero(now);
    }

    method ReleaseHead(mem: Memory, ghost infos: set<PacketInfo>)
      requires queue != [] && mem.Valid() && Backed(queue, mem.live) && Infos(queue) <= infos
      requires forall p | p in infos :: p in mem.live <==> p.refCount >= 1
      modifies this`queue, mem, infos`refCount
      ensures queue == old(queue)[1..]
      ensures mem.Valid() && Backed(queue, mem.live) && Infos(queue) <= infos && Released(mem, infos)
    {
      ghost var was := queue;
      var it := queue[0];
      assert it.info in Infos(was);
      queue := queue[1..];
      mem.DeleteItem(it);
      forall p | p in Infos(queue) ensures p in mem.live && p.refCount >= Count(p, queue) {
        CountMember(p, queue);
        assert p in Infos(was);
      }
    }
  }
}
