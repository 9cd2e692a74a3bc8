/** A capture as it is in memory: catalogs of nodes and links, each with its own traffic queue, the
    protocol summary and the packets they share (src/decode_proto.c:262-356, src/node.c:230-281,
    src/node.c:416-472, src/node.c:567-587, src/links.c:105-125, src/links.c:174-218,
    src/links.c:326-359, src/protocols.c:486-528, src/capture.c:261-380). Every operation does to View()
    what MonitorSpec says, and keeps the books of the shared packets balanced. */
module Capture {
  import opened Wrappers
  import opened BasicStats
  import opened Protocols
  import T = Traffic
  import C = Conversations
  import opened Bytes
  import opened TrafficStats
  import opened NodeIds
  import opened MonitorSpec
  import opened MonitorRuns
  import opened Ledger
  import opened MonitorTotals

  // The traffic of one slot replaced
  function Put(m: Monitor, s: Slot, t: T.Traffic): Monitor {
    match s
    case NodeSlot(n) => m.(nodes := m.nodes[n := t])
    case LinkSlot(l) => m.(links := m.links[l := t])
    case SummarySlot => m.(summary := Some(t))
  }

  // ---- a traversal of a catalog, with the keys in todo still to come ----

  function Refreshed<K(==)>(c: map<K, T.Traffic>, todo: set<K>, now: int, k: Limits): map<K, T.Traffic>
    requires forall x | x in c :: T.Shaped(c[x])
  {
    map x | x in c :: if x in todo then c[x] else Later(c[x], now, k)
  }

  predicate Expires<K(==)>(c: map<K, T.Traffic>, x: K, now: int, k: Limits)
    requires forall y | y in c :: T.Shaped(c[y])
  {
    x in c && TimedOut(Later(c[x], now, k), now, k.timeout)
  }

  // The expired entries that have been found so far
  ghost predicate Found<K(!new)>(expired: seq<K>, c: map<K, T.Traffic>, todo: set<K>, now: int, k: Limits)
    requires forall x | x in c :: T.Shaped(c[x])
  {
    Distinct(expired) && forall x :: x in expired <==> x in c && x !in todo && Expires(c, x, now, k)
  }

  lemma NothingRefreshed<K(!new)>(c: map<K, T.Traffic>, now: int, k: Limits)
    requires forall x | x in c :: T.Shaped(c[x])
    ensures Refreshed(c, c.Keys, now, k) == c && Found([], c, c.Keys, now, k)
  {}

  lemma OneMore<K(!new)>(c: map<K, T.Traffic>, todo: set<K>, x: K, now: int, k: Limits)
    requires forall y | y in c :: T.Shaped(c[y])
    requires x in todo && todo <= c.Keys
    ensures x in Refreshed(c, todo, now, k) && Refreshed(c, todo, now, k)[x] == c[x]
    ensures Refreshed(c, todo, now, k)[x := Later(c[x], now, k)] == Refreshed(c, todo - {x}, now, k)
    ensures Expires(c, x, now, k) <==> TimedOut(Later(c[x], now, k), now, k.timeout)
  {
    hide Later;
  }

  lemma FoundMore<K(!new)>(expired: seq<K>, c: map<K, T.Traffic>, todo: set<K>, x: K, now: int, k: Limits)
    requires forall y | y in c :: T.Shaped(c[y])
    requires x in todo && x in c && Found(expired, c, todo, now, k)
    ensures Found(if Expires(c, x, now, k) then [x] + expired else expired, c, todo - {x}, now, k)
  {
    hide Expires;
  }

  lemma AllButExpired<K(!new)>(c: map<K, T.Traffic>, gone: set<K>, now: int, k: Limits)
    requires forall x | x in c :: T.Shaped(c[x])
    requires forall x :: x in gone <==> x in c && Expires(c, x, now, k)
    ensures Refreshed(c, {}, now, k) - gone == CatalogLater(c, now, k)
  {
    hide Later;
  }

  // The address of a node that its conversations are filed under
  function Host(n: NodeId): Address {
    n.addr[..20]
  }

  // Of the old conversations, those that are not between the ends of one of these links
  ghost predicate OnlyWithout(left: seq<C.Conversation>, was: seq<C.Conversation>, gone: set<LinkId>) {
    forall c :: c in left <==> c in was && forall l | l in gone :: !C.Between(Host(l.src), Host(l.dst), c)
  }

  lemma OnlyWithoutNone(s: seq<C.Conversation>)
    ensures OnlyWithout(s, s, {})
  {}

  lemma OneLinkLess(left: seq<C.Conversation>, was: seq<C.Conversation>, gone: set<LinkId>, l: LinkId)
    requires OnlyWithout(left, was, gone)
    ensures OnlyWithout(C.Others(left, Host(l.src), Host(l.dst)), was, gone + {l})
  {
    C.OthersFacts(left, Host(l.src), Host(l.dst));
  }

  // g_list_remove
  function Unlisted(ns: seq<NodeId>, n: NodeId): (r: seq<NodeId>)
    ensures forall k | k in r :: k in ns
  {
    if ns == [] then [] else if ns[0] == n then ns[1..] else [ns[0]] + Unlisted(ns[1..], n)
  }

  class Capture {
    var status: Status
    var open: bool
    var nodes: map<NodeId, TrafficStats>
    var links: map<LinkId, TrafficStats>
    var summary: TrafficStats?
    var newNodes: seq<NodeId>
    var now: int
    const mem: Memory
    const talks: C.Table
    ghost var slots: seq<Slot>
    ghost var homes: map<TrafficStats, Slot>

    ghost function StatsAt(s: Slot): TrafficStats?
      reads `nodes, `links, `summary
    {
      match s
      case NodeSlot(n) => if n in nodes then nodes[n] else null
      case LinkSlot(l) => if l in links then links[l] else null
      case SummarySlot => summary
    }

    // No two slots share a queue: each queue has one home.
    ghost predicate Separate()
      reads `nodes, `links, `summary, `homes
    {
      forall s | StatsAt(s) != null :: StatsAt(s) in homes && homes[StatsAt(s)] == s
    }

    ghost function View(): Monitor
      requires Separate()
      reads `status, `open, `nodes, `links, `summary, `newNodes, `now, `homes, homes.Keys
    {
      assert forall n | n in nodes :: StatsAt(NodeSlot(n)) == nodes[n];
      assert forall l | l in links :: StatsAt(LinkSlot(l)) == links[l];
      assert StatsAt(SummarySlot) == summary;
      Monitor(status, open, map n | n in nodes :: nodes[n].View(), map l | l in links :: links[l].View(),
              if summary == null then None else Some(summary.View()), newNodes, now)
    }

    ghost function RefCounts(): map<PacketInfo, int>
      reads mem, mem.live`refCount
    {
      map p | p in mem.live :: p.refCount
    }

    ghost predicate Books()
      reads this, homes.Keys, mem, mem.live`refCount
    {
      && Separate() && mem.Valid() && (forall s | StatsAt(s) != null :: s in slots)
      && AllShaped(View()) && Balanced(View(), slots, RefCounts(), mem.items)
    }

    // Between operations no live packet is without references.
    ghost predicate Valid()
      reads this, homes.Keys, mem, mem.live`refCount
    {
      Books() && forall p | p in mem.live :: p.refCount >= 1
    }

    constructor (now: int)
      ensures Valid() && View() == Initial(now) && fresh(mem) && mem.items == mem.packets == 0
      ensures talks.Valid() && fresh(talks) && talks.conversations == []
    {
      status, open, nodes, links, summary, newNodes, slots, homes := Stop, false, map[], map[], null, [], [], map[];
      this.now := now;
      mem := new Memory();
      talks := new C.Table();
    }

    lemma ViewAt(s: Slot)
      requires Separate()
      ensures Get(View(), s) == if StatsAt(s) == null then None else Some(StatsAt(s).View())
      ensures QueueOf(View(), s) == if StatsAt(s) == null then [] else StatsAt(s).queue
    {}

    lemma EntryAt(s: Slot)
      ensures match s case NodeSlot(n) => n in nodes ==> StatsAt(s) == nodes[n]
                      case LinkSlot(l) => l in links ==> StatsAt(s) == links[l]
                      case SummarySlot => StatsAt(s) == summary
    {}

    lemma InView(s: Slot)
      requires Separate()
      ensures View().now == now && View().newNodes == newNodes && View().open == open && View().status == status
      ensures match s
              case NodeSlot(n) => (n in View().nodes <==> n in nodes) && (n in nodes ==> View().nodes[n] == nodes[n].View())
              case LinkSlot(l) => (l in View().links <==> l in links) && (l in links ==> View().links[l] == links[l].View())
              case SummarySlot => View().summary == if summary == null then None else Some(summary.View())
    {}

    lemma FieldsInView()
      requires Books()
      ensures View().now == now && View().newNodes == newNodes && View().status == status && View().open == open
      ensures View().summary == None <==> summary == null
    {}

    lemma NoQueueYet(s: Slot)
      requires Separate()
      requires match s case NodeSlot(n) => n !in nodes case LinkSlot(l) => l !in links case SummarySlot => summary == null
      ensures QueueOf(View(), s) == []
    {}

    twostate lemma NodesChanged(s: Slot)
      requires unchanged(this) && Separate() && StatsAt(s) != null
      requires forall k | k != s && StatsAt(k) != null :: StatsAt(k).View() == old(StatsAt(k).View())
      ensures View().nodes == Put(old(View()), s, StatsAt(s).View()).nodes
    {
      hide TrafficStats.View;
      var v, w := View().nodes, Put(old(View()), s, StatsAt(s).View()).nodes;
      assert v.Keys == w.Keys == nodes.Keys;
      forall n | n in nodes ensures v[n] == w[n] {
        assert StatsAt(NodeSlot(n)) == nodes[n];
      }
    }

    twostate lemma LinksChanged(s: Slot)
      requires unchanged(this) && Separate() && StatsAt(s) != null
      requires forall k | k != s && StatsAt(k) != null :: StatsAt(k).View() == old(StatsAt(k).View())
      ensures View().links == Put(old(View()), s, StatsAt(s).View()).links
    {
      hide TrafficStats.View;
      var v, w := View().links, Put(old(View()), s, StatsAt(s).View()).links;
      assert v.Keys == w.Keys == links.Keys;
      forall l | l in links ensures v[l] == w[l] {
        assert StatsAt(LinkSlot(l)) == links[l];
      }
    }

    // When only the queue of one slot changes, so does the view.
    twostate lemma OneChanged(s: Slot)
      requires unchanged(this) && Separate() && StatsAt(s) != null
      requires forall k | k != s && StatsAt(k) != null :: StatsAt(k).View() == old(StatsAt(k).View())
      ensures View() == Put(old(View()), s, StatsAt(s).View())
    {
      hide TrafficStats.View;
      NodesChanged(s);
      LinksChanged(s);
      assert StatsAt(SummarySlot) == summary;
    }

    // traffic_stats_add_packet, on the queue of one slot
    method AddAt(ghost s: Slot, t: TrafficStats, p: PacketInfo, d: Direction)
      requires Books() && StatsAt(s) == t && p in mem.live && |p.names| == LEVELS
      modifies t, mem`items, p`refCount
      ensures |old(t.protos)| == LEVELS
      ensures Books() && View() == Put(old(View()), s, T.Add(old(t.View()), QueueItem(p, d), now))
      ensures t.View() == T.Add(old(t.View()), QueueItem(p, d), now) && p.refCount == old(p.refCount) + 1
    {
      hide View, Balanced, AllShaped;
      ghost var m, refs, items := View(), RefCounts(), mem.items;
      ShapedAt(s);
      t.AddPacket(mem, p, d, now);
      OneChanged(s);
      AddedKeeps(m, s, QueueItem(p, d), now, slots, refs, RefCounts(), items);
    }

    lemma ShapedAt(s: Slot)
      requires Separate() && AllShaped(View()) && StatsAt(s) != null
      ensures T.Shaped(StatsAt(s).View()) && |StatsAt(s).protos| == LEVELS && Get(View(), s) == Some(StatsAt(s).View())
    {
      ViewAt(s);
      assert T.Shaped(Get(View(), s).value);
    }

    lemma BackedAt(s: Slot)
      requires Books() && StatsAt(s) != null
      ensures Backed(StatsAt(s).queue, mem.live) && Infos(StatsAt(s).queue) <= mem.live
      ensures T.Shaped(StatsAt(s).View()) && Get(View(), s) == Some(StatsAt(s).View())
    {
      ViewAt(s);
      ShapedAt(s);
      QueueIsBacked(View(), slots, RefCounts(), mem.items, s);
    }

    twostate lemma WasAt(s: Slot)
      requires old(Separate())
      ensures old(Get(View(), s)) == if old(StatsAt(s)) == null then None else Some(old(StatsAt(s).View()))
      ensures old(QueueOf(View(), s)) == if old(StatsAt(s)) == null then [] else old(StatsAt(s).queue)
    {}

    // After an operation that only removed items from the queue of one slot, everything is in order.
    twostate lemma KeepsBooks(s: Slot)
      requires old(Valid()) && unchanged(this) && StatsAt(s) != null && mem.Valid()
      requires forall k | k != s && StatsAt(k) != null :: StatsAt(k).View() == old(StatsAt(k).View())
      requires T.Shaped(StatsAt(s).View()) && StatsAt(s).queue <= old(StatsAt(s).queue)
      requires StatsAt(s).Released(mem, old(Infos(StatsAt(s).queue)))
      requires forall p | p in old(mem.live) && p !in old(Infos(StatsAt(s).queue)) :: p.refCount == old(p.refCount)
      ensures Valid() && View() == Put(old(View()), s, StatsAt(s).View())
    {
      hide View, Balanced, T.Shaped, AllShaped, Put, Get, Backed, Infos, Count, QueueOf, StatsAt;
      var m, refs, items := old(View()), old(RefCounts()), old(mem.items);
      WasAt(s);
      OneChanged(s);
      ReleasedKeeps(m, s, StatsAt(s).View(), slots, refs, RefCounts(), items, mem.items);
    }

    // traffic_stats_update, with the sorting of node_update and update_link, on the queue of one slot
    method RefreshAt(ghost s: Slot, t: TrafficStats, avg: real, protoExpire: real) returns (active: bool)
      requires Valid() && StatsAt(s) == t
      modifies t, mem, mem.live`refCount
      ensures T.Shaped(old(t.View()))
      ensures Valid() && View() == Put(old(View()), s, T.Refresh(old(t.View()), now, avg, protoExpire))
      ensures mem.live <= old(mem.live) && (active <==> t.queue != [])
    {
      hide View, Balanced, T.Refresh, T.Update, T.Shaped, AllShaped, Put, Get, Backed, Infos, Count, QueueOf;
      BackedAt(s);
      active := t.Refresh(mem, now, avg, protoExpire);
      KeepsBooks(s);
    }

    // traffic_stats_update alone, for the summary
    method UpdateAt(ghost s: Slot, t: TrafficStats, avg: real, protoExpire: real) returns (active: bool)
      requires Valid() && StatsAt(s) == t
      modifies t, mem, mem.live`refCount
      ensures T.Shaped(old(t.View()))
      ensures Valid() && View() == Put(old(View()), s, T.Update(old(t.View()), now, avg, protoExpire))
      ensures mem.live <= old(mem.live) && (active <==> t.queue != [])
    {
      hide View, Balanced, T.Refresh, T.Update, T.Shaped, AllShaped, Put, Get, Backed, Infos, Count, QueueOf;
      BackedAt(s);
      active := t.Update(mem, now, avg, protoExpire);
      KeepsBooks(s);
    }

    // traffic_stats_reset, on the queue of one slot
    method ResetAt(ghost s: Slot, t: TrafficStats)
      requires Valid() && StatsAt(s) == t
      modifies t, mem, mem.live`refCount
      ensures mem.live <= old(mem.live)
      ensures Valid() && View() == Put(old(View()), s, T.Init(now))
    {
      hide View, Balanced, AllShaped, Put, Get, Backed, Infos, Count, QueueOf;
      BackedAt(s);
      t.Reset(mem, now);
      KeepsBooks(s);
    }

    // A slot that may be used from now on
    ghost method Track(s: Slot)
      requires Books()
      modifies `slots
      ensures Books() && s in slots && (old(Valid()) ==> Valid())
    {
      hide Balanced, AllShaped, View, Separate, StatsAt;
      if s !in slots {
        NewSlotKeeps(View(), slots, RefCounts(), mem.items, s);
        slots := slots + [s];
      }
    }

    twostate lemma NodeEntry(n: NodeId, new t: TrafficStats)
      requires nodes == old(nodes)[n := t] && unchanged(`links, `summary)
      ensures forall s :: StatsAt(s) == if s == NodeSlot(n) then t else old(StatsAt(s))
    {}

    // Nothing but a new entry in the catalog
    twostate lemma OneMoreNode(n: NodeId)
      requires n in nodes && n !in old(nodes)
      requires forall k | k != n :: (k in nodes <==> k in old(nodes)) && (k in nodes ==> nodes[k] == old(nodes)[k])
      requires old(Separate()) && Separate() && unchanged(`status, `open, `links, `summary, `newNodes, `now)
      requires forall k | k != NodeSlot(n) && StatsAt(k) != null :: StatsAt(k).View() == old(StatsAt(k).View())
      ensures View() == Put(old(View()), NodeSlot(n), nodes[n].View())
    {
      hide TrafficStats.View;
      var v, w := View(), Put(old(View()), NodeSlot(n), nodes[n].View());
      assert v.nodes.Keys == w.nodes.Keys;
      forall k | k in v.nodes ensures v.nodes[k] == w.nodes[k] {
        assert StatsAt(NodeSlot(k)) == nodes[k];
      }
      assert v.links.Keys == w.links.Keys;
      forall k | k in v.links ensures v.links[k] == w.links[k] {
        assert StatsAt(LinkSlot(k)) == links[k];
      }
      assert StatsAt(SummarySlot) == summary;
    }

    // nodes_catalog_find and nodes_catalog_new
    method FindOrCreateNode(n: NodeId) returns (t: TrafficStats)
      requires Books() && open
      modifies `nodes, `slots, `homes
      ensures Books() && n in nodes && t == nodes[n]
      ensures if n in old(nodes) then nodes == old(nodes) else fresh(t) && nodes == old(nodes)[n := t]
      ensures fresh(homes.Keys - old(homes.Keys))
      ensures View() == if n in old(nodes) then old(View()) else Put(old(View()), NodeSlot(n), T.Init(now))
    {
      hide Balanced, View, AllShaped, StatsAt, QueueOf, T.Init, Put;
      if n in nodes {
        return nodes[n];
      }
      ghost var m := View();
      NoQueueYet(NodeSlot(n));
      Track(NodeSlot(n));
      t := new TrafficStats(now);
      nodes := nodes[n := t];
      homes := homes[t := NodeSlot(n)];
      NodeEntry(n, t);
      OneMoreNode(n);
      StartsKeep(m, NodeSlot(n), now, slots, RefCounts(), mem.items);
    }

    twostate lemma LinkEntry(l: LinkId, new t: TrafficStats)
      requires links == old(links)[l := t] && unchanged(`nodes, `summary)
      ensures forall s :: StatsAt(s) == if s == LinkSlot(l) then t else old(StatsAt(s))
    {}

    // Nothing but a new entry in the catalog
    twostate lemma OneMoreLink(l: LinkId)
      requires l in links && l !in old(links)
      requires forall k | k != l :: (k in links <==> k in old(links)) && (k in links ==> links[k] == old(links)[k])
      requires old(Separate()) && Separate() && unchanged(`status, `open, `nodes, `summary, `newNodes, `now)
      requires forall k | k != LinkSlot(l) && StatsAt(k) != null :: StatsAt(k).View() == old(StatsAt(k).View())
      ensures View() == Put(old(View()), LinkSlot(l), links[l].View())
    {
      hide TrafficStats.View;
      var v, w := View(), Put(old(View()), LinkSlot(l), links[l].View());
      assert v.links.Keys == w.links.Keys;
      forall k | k in v.links ensures v.links[k] == w.links[k] {
        assert StatsAt(LinkSlot(k)) == links[k];
      }
      assert v.nodes.Keys == w.nodes.Keys;
      forall k | k in v.nodes ensures v.nodes[k] == w.nodes[k] {
        assert StatsAt(NodeSlot(k)) == nodes[k];
      }
      assert StatsAt(SummarySlot) == summary;
    }

    // links_catalog_find_create
    method FindOrCreateLink(l: LinkId) returns (t: TrafficStats)
      requires Books() && open
      modifies `links, `slots, `homes
      ensures Books() && l in links && t == links[l]
      ensures if l in old(links) then links == old(links) else fresh(t) && links == old(links)[l := t]
      ensures fresh(homes.Keys - old(homes.Keys))
      ensures View() == if l in old(links) then old(View()) else Put(old(View()), LinkSlot(l), T.Init(now))
    {
      hide Balanced, View, AllShaped, StatsAt, QueueOf, T.Init, Put;
      if l in links {
        return links[l];
      }
      ghost var m := View();
      NoQueueYet(LinkSlot(l));
      Track(LinkSlot(l));
      t := new TrafficStats(now);
      links := links[l := t];
      homes := homes[t := LinkSlot(l)];
      LinkEntry(l, t);
      OneMoreLink(l);
      StartsKeep(m, LinkSlot(l), now, slots, RefCounts(), mem.items);
    }

    lemma NewNodesKeep(m: Monitor, ns: seq<NodeId>)
      requires AllShaped(m) && Balanced(m, slots, RefCounts(), mem.items)
      ensures AllShaped(m.(newNodes := ns)) && Balanced(m.(newNodes := ns), slots, RefCounts(), mem.items)
    {
      hide Balanced;
      SameQueuesKeep(m, m.(newNodes := ns), slots, RefCounts(), mem.items);
    }

    method SetNewNodes(ns: seq<NodeId>)
      requires Books()
      modifies `newNodes
      ensures Books() && (old(Valid()) ==> Valid()) && newNodes == ns && View() == old(View()).(newNodes := ns)
    {
      hide Balanced, AllShaped;
      ghost var m := View();
      NewNodesKeep(m, ns);
      newNodes := ns;
      assert View() == m.(newNodes := ns);
    }

    // new_nodes_add
    method NewNodesAdd(n: NodeId)
      requires Books()
      modifies `newNodes
      ensures Books() && View() == old(View()).(newNodes := [n] + old(newNodes))
    {
      SetNewNodes([n] + newNodes);
    }

    // nodes_catalog_find, nodes_catalog_new and traffic_stats_add_packet, from add_node_packet
    method AddToNodeStats(p: PacketInfo, n: NodeId, d: Direction) returns (t: TrafficStats)
      requires Books() && open && p in mem.live && |p.names| == LEVELS
      modifies `nodes, `slots, `homes, homes.Keys, mem`items, p`refCount
      ensures p.refCount == old(p.refCount) + 1 && fresh(homes.Keys - old(homes.Keys))
      ensures Books()
      ensures var m := old(View());
              && View() == m.(nodes := m.nodes[n := T.Add(if n in m.nodes then m.nodes[n] else T.Init(m.now), QueueItem(p, d), m.now)])
              && View().nodes[n].queue == t.queue
    {
      hide View, T.Add, T.Init, AllShaped, Balanced, StatsAt;
      InView(NodeSlot(n));
      t := FindOrCreateNode(n);
      InView(NodeSlot(n));
      EntryAt(NodeSlot(n));
      AddAt(NodeSlot(n), t, p, d);
    }

    // add_node_packet
    method AddNodePacket(p: PacketInfo, n: NodeId, d: Direction)
      requires Books() && open && p in mem.live && |p.names| == LEVELS
      modifies `nodes, `newNodes, `slots, `homes, homes.Keys, mem`items, p`refCount
      ensures p.refCount == old(p.refCount) + 1
      ensures Books() && View() == AddToNode(old(View()), n, QueueItem(p, d))
      ensures fresh(homes.Keys - old(homes.Keys))
    {
      hide View, T.Add, T.Init, Separate, AllShaped, Balanced, StatsAt;
      FieldsInView();
      var t := AddToNodeStats(p, n, d);
      if |t.queue| == 1 {
        NewNodesAdd(n);
      }
      FieldsInView();
    }

    // links_catalog_add_packet
    method AddLinkPacket(p: PacketInfo, l: LinkId, d: Direction)
      requires Books() && open && p in mem.live && |p.names| == LEVELS
      modifies `links, `slots, `homes, homes.Keys, mem`items, p`refCount
      ensures p.refCount == old(p.refCount) + 1
      ensures Books() && View() == AddToLink(old(View()), l, QueueItem(p, d))
      ensures fresh(homes.Keys - old(homes.Keys))
    {
      hide View, T.Add, T.Init, AllShaped, Balanced, StatsAt;
      InView(LinkSlot(l));
      var t := FindOrCreateLink(l);
      InView(LinkSlot(l));
      EntryAt(LinkSlot(l));
      AddAt(LinkSlot(l), t, p, d);
    }

    twostate lemma SummaryEntry()
      requires unchanged(`nodes, `links)
      ensures forall s :: StatsAt(s) == if s == SummarySlot then summary else old(StatsAt(s))
    {}

    twostate lemma OneMoreSummary()
      requires old(Separate()) && Separate() && summary != null && unchanged(`status, `open, `nodes, `links, `newNodes, `now)
      requires forall k | k != SummarySlot && StatsAt(k) != null :: StatsAt(k).View() == old(StatsAt(k).View())
      ensures View() == Put(old(View()), SummarySlot, summary.View())
    {
      hide TrafficStats.View;
      var v, w := View(), Put(old(View()), SummarySlot, summary.View());
      assert v.nodes.Keys == w.nodes.Keys && v.links.Keys == w.links.Keys;
      forall k | k in v.nodes ensures v.nodes[k] == w.nodes[k] {
        assert StatsAt(NodeSlot(k)) == nodes[k];
      }
      forall k | k in v.links ensures v.links[k] == w.links[k] {
        assert StatsAt(LinkSlot(k)) == links[k];
      }
    }

    // protocol_summary_open, from protocol_summary_add_packet and start_capture
    method OpenSummary()
      requires Books() && summary == null
      modifies `summary, `slots, `homes
      ensures Books() && summary != null && fresh(homes.Keys - old(homes.Keys))
      ensures View() == Put(old(View()), SummarySlot, T.Init(now)) && (old(Valid()) ==> Valid())
    {
      hide Balanced, View, AllShaped, StatsAt, QueueOf, T.Init, Put;
      ghost var m := View();
      NoQueueYet(SummarySlot);
      Track(SummarySlot);
      summary := new TrafficStats(now);
      homes := homes[summary := SummarySlot];
      SummaryEntry();
      OneMoreSummary();
      StartsKeep(m, SummarySlot, now, slots, RefCounts(), mem.items);
    }

    // protocol_summary_add_packet
    method AddSummaryPacket(p: PacketInfo)
      requires Books() && p in mem.live && |p.names| == LEVELS
      modifies `summary, `slots, `homes, homes.Keys, mem`items, p`refCount
      ensures p.refCount == old(p.refCount) + 1
      ensures Books() && View() == AddToSummary(old(View()), QueueItem(p, Eitherbound))
      ensures fresh(homes.Keys - old(homes.Keys))
    {
      hide View, T.Add, T.Init, AllShaped, Balanced, StatsAt;
      InView(SummarySlot);
      if summary == null {
        OpenSummary();
      }
      InView(SummarySlot);
      EntryAt(SummarySlot);
      AddAt(SummarySlot, summary, p, Eitherbound);
    }

    // The part of packet_acquired that creates the packet
    method NewPacket(size: nat, names: seq<Option<string>>) returns (p: PacketInfo)
      requires Books()
      modifies mem`live, mem`packets
      ensures Books() && View() == old(View()) && fresh(p) && mem.live == old(mem.live) + {p} && p.refCount == 0
      ensures p.size == size && p.timestamp == now && p.names == names
    {
      hide View, StatsAt, Separate, Balanced, AllShaped;
      ghost var m, refs := View(), RefCounts();
      p := new PacketInfo(size, now, names);
      NewPacketKeeps(m, slots, refs, mem.items, p);
      mem.live := mem.live + {p};
      mem.packets := mem.packets + 1;
      assert RefCounts() == refs[p := 0];
    }

    // The links_catalog_add_packet part of packet_acquired
    method AddToLinkOf(p: PacketInfo, src: NodeId, dst: NodeId)
      requires Books() && open && p in mem.live && |p.names| == LEVELS
      modifies `links, `slots, `homes, homes.Keys, mem`items, p`refCount
      ensures p.refCount == old(p.refCount) + 1
      ensures fresh(homes.Keys - old(homes.Keys))
      ensures Books() && View() == AddToLink(old(View()), LinkOf(src, dst), QueueItem(p, LinkDirection(src, dst)))
    {
      hide View, AddToLink, AllShaped, Balanced, StatsAt, Separate;
      if Compare(src, dst) < 1 {
        AddLinkPacket(p, LinkId(src, dst), Outbound);
      } else {
        AddLinkPacket(p, LinkId(dst, src), Inbound);
      }
    }

    /** packet_acquired, with what the decoders found */
    method PacketAcquired(size: nat, names: seq<Option<string>>, src: NodeId, dst: NodeId) returns (p: PacketInfo)
      requires Valid() && open && |names| == LEVELS
      modifies this, homes.Keys, mem
      ensures fresh(p) && p.size == size && p.timestamp == old(now) && p.names == names
      ensures Valid() && View() == Acquire(old(View()), Arrival(p, src, dst))
      ensures mem.live == old(mem.live) + {p}
    {
      hide View, AddToNode, AddToLink, AddToSummary, Books, LinkOf, LinkDirection;
      FieldsInView();
      p := NewPacket(size, names);
      AddNodePacket(p, src, Outbound);
      AddNodePacket(p, dst, Inbound);
      AddToLinkOf(p, src, dst);
      AddSummaryPacket(p);
    }

    // new_nodes_remove
    method NewNodesRemove(n: NodeId)
      requires Valid()
      modifies `newNodes
      ensures Valid() && newNodes == Unlisted(old(newNodes), n) && View() == old(View()).(newNodes := newNodes)
    {
      SetNewNodes(Unlisted(newNodes, n));
    }

    // node_update: it answers whether the node has expired
    method NodeUpdate(n: NodeId, p: Prefs) returns (expired: bool)
      requires Valid() && n in nodes
      modifies nodes[n], mem, mem.live`refCount, `newNodes
      ensures Valid() && mem.live <= old(mem.live)
      ensures n in old(View()).nodes && T.Shaped(old(View()).nodes[n])
      ensures var t := Later(old(View()).nodes[n], now, ForNodes(p));
              && View() == old(View()).(nodes := old(View()).nodes[n := t], newNodes := newNodes)
              && (expired <==> TimedOut(t, now, p.nodeTimeout))
      ensures newNodes == if expired then Unlisted(old(newNodes), n) else old(newNodes)
    {
      hide View, AllShaped, Balanced, StatsAt, Separate, T.Shaped, T.Refresh;
      NodeInView(n);
      var active := RefreshAt(NodeSlot(n), nodes[n], p.averaging, p.protoNode);
      NodeInView(n);
      expired := !active && p.nodeTimeout != 0.0 && Ms(now, nodes[n].stats.lastTime) >= p.nodeTimeout;
      if expired {
        NewNodesRemove(n);
      }
    }

    lemma NodeInView(n: NodeId)
      requires Books() && n in nodes
      ensures n in View().nodes && View().nodes[n] == nodes[n].View() && T.Shaped(nodes[n].View())
      ensures StatsAt(NodeSlot(n)) == nodes[n] && View().now == now && View().newNodes == newNodes && nodes[n] in homes
    {
      InView(NodeSlot(n));
      EntryAt(NodeSlot(n));
      ShapedAt(NodeSlot(n));
    }

    // An entry taken out of the catalog
    twostate lemma OneLessNode(n: NodeId)
      requires old(Separate()) && Separate() && nodes == old(nodes) - {n}
      requires unchanged(`status, `open, `links, `summary, `newNodes, `now)
      requires forall k | StatsAt(k) != null :: StatsAt(k).View() == old(StatsAt(k).View())
      ensures View() == old(View()).(nodes := old(View()).nodes - {n})
    {
      hide TrafficStats.View;
      var v, w := View(), old(View());
      assert v.nodes.Keys == w.nodes.Keys - {n} && v.links.Keys == w.links.Keys;
      forall k | k in v.nodes ensures v.nodes[k] == w.nodes[k] {
        assert StatsAt(NodeSlot(k)) == nodes[k];
      }
      forall k | k in v.links ensures v.links[k] == w.links[k] {
        assert StatsAt(LinkSlot(k)) == links[k];
      }
      assert StatsAt(SummarySlot) == summary;
    }

    twostate lemma NodeLeft(n: NodeId)
      requires nodes == old(nodes) - {n} && unchanged(`links, `summary)
      ensures forall s :: StatsAt(s) == if s == NodeSlot(n) then null else old(StatsAt(s))
    {}

    // nodes_catalog_remove, and node_delete
    method NodesRemove(n: NodeId)
      requires Valid() && n in nodes
      modifies `nodes, nodes[n], mem, mem.live`refCount
      ensures Valid() && nodes == old(nodes) - {n} && mem.live <= old(mem.live)
      ensures View() == old(View()).(nodes := old(View()).nodes - {n})
    {
      hide View, AllShaped, Balanced, StatsAt;
      NodeInView(n);
      ResetAt(NodeSlot(n), nodes[n]);
      label reset:
      ghost var m := View();
      nodes := nodes - {n};
      NodeLeft@reset(n);
      OneLessNode@reset(n);
      RemovalKeeps(m, m.(nodes := m.nodes - {n}), NodeSlot(n), slots, RefCounts(), mem.items);
    }

    // the traversal of nodes_catalog_update_all: it answers the nodes to remove
    method NodesTraverse(p: Prefs) returns (expired: seq<NodeId>)
      requires Valid()
      modifies `newNodes, homes.Keys, mem, mem.live`refCount
      ensures Valid() && mem.live <= old(mem.live) && nodes == old(nodes)
      ensures View() == old(View()).(nodes := Refreshed(old(View()).nodes, {}, now, ForNodes(p)), newNodes := newNodes)
      ensures Found(expired, old(View()).nodes, {}, now, ForNodes(p))
      ensures forall n | n in newNodes :: n in old(newNodes)
    {
      hide View, AllShaped, Balanced, StatsAt, Separate, Get, Unlisted, Later, Expires, Refreshed, Found;
      ghost var m := View();
      FieldsInView();
      NodeKeys();
      ShapedNow();
      NothingRefreshed(m.nodes, now, ForNodes(p));
      expired := [];
      var todo := nodes.Keys;
      while todo != {}
        invariant Valid() && mem.live <= old(mem.live) && todo <= nodes.Keys
        invariant View() == m.(nodes := Refreshed(m.nodes, todo, now, ForNodes(p)), newNodes := newNodes)
        invariant Found(expired, m.nodes, todo, now, ForNodes(p))
        invariant forall n | n in newNodes :: n in old(newNodes)
      {
        var n :| n in todo;
        OneMore(m.nodes, todo, n, now, ForNodes(p));
        FoundMore(expired, m.nodes, todo, n, now, ForNodes(p));
        NodeInView(n);
        var gone := NodeUpdate(n, p);
        if gone {
          expired := [n] + expired;
        }
        todo := todo - {n};
      }
    }

    // g_list_foreach with gfunc_remove_node
    method NodesRemoveAll(expired: seq<NodeId>)
      requires Valid() && Distinct(expired) && forall n | n in expired :: n in nodes
      modifies `nodes, homes.Keys, mem, mem.live`refCount
      ensures Valid() && mem.live <= old(mem.live)
      ensures View() == old(View()).(nodes := old(View()).nodes - (set n | n in expired))
    {
      hide View, AllShaped, Balanced, StatsAt, Separate;
      var rest := expired;
      ghost var gone, m := {}, View();
      while rest != []
        invariant Valid() && mem.live <= old(mem.live)
        invariant nodes == old(nodes) - gone && View() == m.(nodes := m.nodes - gone)
        invariant Distinct(rest) && (forall n :: n in expired <==> n in gone || n in rest) && (forall n | n in rest :: n !in gone)
      {
        NodeInView(rest[0]);
        NodesRemove(rest[0]);
        gone := gone + {rest[0]};
        rest := rest[1..];
      }
      assert gone == set n | n in expired;
    }

    // nodes_catalog_update_all
    method NodesUpdateAll(p: Prefs)
      requires Valid()
      modifies `nodes, `newNodes, homes.Keys, mem, mem.live`refCount
      ensures Valid() && mem.live <= old(mem.live)
      ensures View() == old(View()).(nodes := CatalogLater(old(View()).nodes, now, ForNodes(p)), newNodes := newNodes)
      ensures forall n | n in newNodes :: n in old(newNodes)
    {
      hide View, AllShaped, Balanced, StatsAt, Separate, Later, Expires, Refreshed, CatalogLater;
      ghost var m := View();
      FieldsInView();
      NodeKeys();
      ShapedNow();
      var expired := NodesTraverse(p);
      NodesRemoveAll(expired);
      AllButExpired(m.nodes, (set n | n in expired), now, ForNodes(p));
      FieldsInView();
    }

    lemma NodeKeys()
      requires Books()
      ensures View().nodes.Keys == nodes.Keys
    {}

    // update_link: it answers whether the link has expired
    method LinkUpdate(l: LinkId, p: Prefs) returns (expired: bool)
      requires Valid() && l in links
      modifies links[l], mem, mem.live`refCount
      ensures Valid() && mem.live <= old(mem.live)
      ensures l in old(View()).links && T.Shaped(old(View()).links[l])
      ensures var t := Later(old(View()).links[l], now, ForLinks(p));
              && View() == old(View()).(links := old(View()).links[l := t])
              && (expired <==> TimedOut(t, now, p.linkTimeout))
    {
      hide View, AllShaped, Balanced, StatsAt, Separate, T.Shaped, T.Refresh;
      LinkInView(l);
      var active := RefreshAt(LinkSlot(l), links[l], p.averaging, p.protoLink);
      LinkInView(l);
      expired := !active && p.linkTimeout != 0.0 && Ms(now, links[l].stats.lastTime) >= p.linkTimeout;
    }

    lemma LinkInView(l: LinkId)
      requires Books() && l in links
      ensures l in View().links && View().links[l] == links[l].View() && T.Shaped(links[l].View())
      ensures StatsAt(LinkSlot(l)) == links[l] && View().now == now && View().newNodes == newNodes && links[l] in homes
    {
      InView(LinkSlot(l));
      EntryAt(LinkSlot(l));
      ShapedAt(LinkSlot(l));
    }

    // An entry taken out of the catalog
    twostate lemma OneLessLink(l: LinkId)
      requires old(Separate()) && Separate() && links == old(links) - {l}
      requires unchanged(`status, `open, `nodes, `summary, `newNodes, `now)
      requires forall k | StatsAt(k) != null :: StatsAt(k).View() == old(StatsAt(k).View())
      ensures View() == old(View()).(links := old(View()).links - {l})
    {
      hide TrafficStats.View;
      var v, w := View(), old(View());
      assert v.links.Keys == w.links.Keys - {l} && v.nodes.Keys == w.nodes.Keys;
      forall k | k in v.links ensures v.links[k] == w.links[k] {
        assert StatsAt(LinkSlot(k)) == links[k];
      }
      forall k | k in v.nodes ensures v.nodes[k] == w.nodes[k] {
        assert StatsAt(NodeSlot(k)) == nodes[k];
      }
      assert StatsAt(SummarySlot) == summary;
    }

    twostate lemma LinkLeft(l: LinkId)
      requires links == old(links) - {l} && unchanged(`nodes, `summary)
      ensures forall s :: StatsAt(s) == if s == LinkSlot(l) then null else old(StatsAt(s))
    {}

    // link_delete
    method LinkDelete(l: LinkId)
      requires Valid() && l in links && talks.Valid()
      modifies links[l], mem, mem.live`refCount, talks
      ensures Valid() && View() == Put(old(View()), LinkSlot(l), T.Init(now)) && mem.live <= old(mem.live)
      ensures talks.Valid() && talks.conversations == C.Others(old(talks.conversations), Host(l.src), Host(l.dst))
    {
      hide C.Others, Host, View, AllShaped, Balanced, StatsAt, Separate, T.Init, Put;
      LinkInView(l);
      talks.DeleteLink(Host(l.src), Host(l.dst));
      ResetAt(LinkSlot(l), links[l]);
    }

    // links_catalog_remove
    method LinksRemove(l: LinkId)
      requires Valid() && l in links && talks.Valid()
      modifies `links, links[l], mem, mem.live`refCount, talks
      ensures Valid() && links == old(links) - {l} && mem.live <= old(mem.live)
      ensures View() == old(View()).(links := old(View()).links - {l})
      ensures talks.Valid() && talks.conversations == C.Others(old(talks.conversations), Host(l.src), Host(l.dst))
    {
      hide C.Others, Host, View, AllShaped, Balanced, StatsAt;
      LinkDelete(l);
      label reset:
      ghost var m := View();
      links := links - {l};
      LinkLeft@reset(l);
      OneLessLink@reset(l);
      RemovalKeeps(m, m.(links := m.links - {l}), LinkSlot(l), slots, RefCounts(), mem.items);
    }

    // the traversal of links_catalog_update_all: it answers the links to remove
    method LinksTraverse(p: Prefs) returns (expired: seq<LinkId>)
      requires Valid()
      modifies homes.Keys, mem, mem.live`refCount
      ensures Valid() && mem.live <= old(mem.live) && links == old(links)
      ensures View() == old(View()).(links := Refreshed(old(View()).links, {}, now, ForLinks(p)))
      ensures Found(expired, old(View()).links, {}, now, ForLinks(p))
    {
      hide View, AllShaped, Balanced, StatsAt, Separate, Get, Later, Expires, Refreshed, Found;
      ghost var m := View();
      FieldsInView();
      LinkKeys();
      ShapedNow();
      NothingRefreshed(m.links, now, ForLinks(p));
      expired := [];
      var todo := links.Keys;
      while todo != {}
        invariant Valid() && mem.live <= old(mem.live) && todo <= links.Keys
        invariant View() == m.(links := Refreshed(m.links, todo, now, ForLinks(p)))
        invariant Found(expired, m.links, todo, now, ForLinks(p))
      {
        var l :| l in todo;
        OneMore(m.links, todo, l, now, ForLinks(p));
        FoundMore(expired, m.links, todo, l, now, ForLinks(p));
        LinkInView(l);
        var gone := LinkUpdate(l, p);
        if gone {
          expired := [l] + expired;
        }
        todo := todo - {l};
      }
    }

    // g_list_foreach with gfunc_remove_link
    method LinksRemoveAll(expired: seq<LinkId>)
      requires Valid() && Distinct(expired) && forall l | l in expired :: l in links
      requires talks.Valid()
      modifies `links, homes.Keys, mem, mem.live`refCount, talks
      ensures Valid() && mem.live <= old(mem.live) && links == old(links) - (set l | l in expired)
      ensures talks.Valid() && OnlyWithout(talks.conversations, old(talks.conversations), set l | l in expired)
      ensures View() == old(View()).(links := old(View()).links - (set l | l in expired))
    {
      hide OnlyWithout, C.Others, View, AllShaped, Balanced, StatsAt, Separate;
      var rest := expired;
      ghost var gone, m := {}, View();
      OnlyWithoutNone(talks.conversations);
      while rest != []
        invariant Valid() && mem.live <= old(mem.live)
        invariant links == old(links) - gone && View() == m.(links := m.links - gone)
        invariant talks.Valid() && OnlyWithout(talks.conversations, old(talks.conversations), gone)
        invariant Distinct(rest) && (forall l :: l in expired <==> l in gone || l in rest) && (forall l | l in rest :: l !in gone)
      {
        LinkInView(rest[0]);
        OneLinkLess(talks.conversations, old(talks.conversations), gone, rest[0]);
        LinksRemove(rest[0]);
        gone := gone + {rest[0]};
        rest := rest[1..];
      }
      assert gone == set l | l in expired;
    }

    // links_catalog_update_all
    method LinksUpdateAll(p: Prefs)
      requires Valid()
      requires talks.Valid()
      modifies `links, homes.Keys, mem, mem.live`refCount, talks
      ensures talks.Valid() && OnlyWithout(talks.conversations, old(talks.conversations), old(links).Keys - links.Keys)
      ensures Valid() && mem.live <= old(mem.live)
      ensures View() == old(View()).(links := CatalogLater(old(View()).links, now, ForLinks(p)))
    {
      hide View, AllShaped, Balanced, StatsAt, Separate, Later, Expires, Refreshed, CatalogLater;
      ghost var m := View();
      FieldsInView();
      LinkKeys();
      ShapedNow();
      var expired := LinksTraverse(p);
      LinksRemoveAll(expired);
      AllButExpired(m.links, (set l | l in expired), now, ForLinks(p));
      assert old(links).Keys - links.Keys == set l | l in expired;
    }

    lemma LinkKeys()
      requires Books()
      ensures View().links.Keys == links.Keys
    {}

    lemma ShapedNow()
      requires Books()
      ensures (forall n | n in View().nodes :: T.Shaped(View().nodes[n])) && (forall l | l in View().links :: T.Shaped(View().links[l]))
    {}

    // new_nodes_pop: nodes that are no longer in the catalog are skipped
    method NewNodesPop() returns (n: Option<NodeId>)
      requires Valid()
      modifies `newNodes
      ensures Valid() && View() == old(View()).(newNodes := newNodes)
      ensures n.Some? ==> exists k :: 0 <= k < |old(newNodes)| && n == Some(old(newNodes)[k]) && n.value in nodes
                                      && newNodes == old(newNodes)[k+1..] && forall j :: 0 <= j < k ==> old(newNodes)[j] !in nodes
      ensures n.None? ==> newNodes == [] && forall k | k in old(newNodes) :: k !in nodes
    {
      hide View, AllShaped, Balanced, StatsAt, Separate;
      FieldsInView();
      ghost var was := newNodes;
      var k := 0;
      while k < |newNodes| && newNodes[k] !in nodes
        invariant 0 <= k <= |newNodes| && forall j :: 0 <= j < k ==> newNodes[j] !in nodes
      {
        k := k + 1;
      }
      if k < |newNodes| {
        n := Some(newNodes[k]);
        SetNewNodes(newNodes[k+1..]);
        assert n == Some(was[k]) && newNodes == was[k+1..];
      } else {
        n := None;
        SetNewNodes([]);
      }
    }

    // The loop of diagram_update_nodes that takes all new nodes
    method NewNodesDrain()
      requires Valid()
      modifies `newNodes
      ensures Valid() && View() == old(View()).(newNodes := [])
    {
      hide View, AllShaped, Balanced, StatsAt, Separate;
      var n := NewNodesPop();
      while n.Some?
        invariant Valid() && View() == old(View()).(newNodes := newNodes)
        invariant n.None? ==> newNodes == []
        decreases n.Some?, |newNodes|
      {
        n := NewNodesPop();
      }
    }

    // diagram_update_nodes
    method DiagramUpdateNodes(p: Prefs)
      requires Valid()
      modifies `nodes, `newNodes, homes.Keys, mem, mem.live`refCount
      ensures Valid() && mem.live <= old(mem.live)
      ensures View() == old(View()).(nodes := CatalogLater(old(View()).nodes, now, ForNodes(p)), newNodes := [])
    {
      hide View, AllShaped, Balanced, StatsAt, Separate, CatalogLater;
      NodesUpdateAll(p);
      NewNodesDrain();
    }

    // protocol_summary_update_all
    method SummaryUpdateAll(p: Prefs)
      requires Valid()
      modifies homes.Keys, mem, mem.live`refCount
      ensures Valid() && mem.live <= old(mem.live)
      ensures View() == if summary == null then old(View())
                        else old(View()).(summary := Some(T.Update(old(View()).summary.value, now, p.averaging, p.proto)))
    {
      hide View, AllShaped, Balanced, StatsAt, T.Update;
      if summary != null {
        InView(SummarySlot);
        EntryAt(SummarySlot);
        var active := UpdateAt(SummarySlot, summary, p.averaging, p.proto);
      }
    }

    // Fields that no queue depends on
    method SetClock(now: int)
      requires Valid()
      modifies `now
      ensures Valid() && this.now == now && View() == old(View()).(now := now)
    {
      hide Balanced, AllShaped;
      ghost var m := View();
      SettingsKeep(m, m.(now := now), slots, RefCounts(), mem.items);
      this.now := now;
      assert View() == m.(now := now);
    }

    method SetStatus(status: Status, open: bool)
      requires Valid()
      modifies `status, `open
      ensures Valid() && View() == old(View()).(status := status, open := open)
    {
      hide Balanced, AllShaped;
      ghost var m := View();
      SettingsKeep(m, m.(status := status, open := open), slots, RefCounts(), mem.items);
      this.status, this.open := status, open;
      assert View() == m.(status := status, open := open);
    }

    // The updates of update_diagram
    method RefreshAll(now: int, p: Prefs)
      requires Valid() && talks.Valid()
      modifies this, homes.Keys, mem, mem.live`refCount, talks
      ensures Valid() && talks.Valid() && mem.live <= old(mem.live)
      ensures View() == Round(old(View()), now, p)
      ensures OnlyWithout(talks.conversations, old(talks.conversations), old(links).Keys - links.Keys)
    {
      hide View, AllShaped, Balanced, StatsAt, Separate, CatalogLater, OnlyWithout, T.Update;
      SetClock(now);
      DiagramUpdateNodes(p);
      LinksUpdateAll(p);
      FieldsInView();
      SummaryUpdateAll(p);
    }

    /** update_diagram, as far as the accounting goes: a paused or finished capture is left alone. */
    method UpdateDiagram(now: int, p: Prefs)
      requires Valid() && talks.Valid()
      modifies this, homes.Keys, mem, mem.live`refCount, talks
      ensures Valid() && talks.Valid() && mem.live <= old(mem.live)
      ensures View() == if old(status) == Pause || old(status) == CapEof then old(View()) else Round(old(View()), now, p)
      ensures OnlyWithout(talks.conversations, old(talks.conversations), old(links).Keys - links.Keys)
    {
      hide View, AllShaped, Balanced, StatsAt, Separate, Round, OnlyWithout;
      OnlyWithoutNone(talks.conversations);
      if status == Pause || status == CapEof {
        assert links.Keys - links.Keys == {};
      } else {
        RefreshAll(now, p);
      }
    }

    /** start_capture */
    method StartCapture()
      requires Valid() && LifecycleOk(View())
      modifies this
      ensures Valid() && View() == Start(old(View()))
    {
      hide View, AllShaped, Balanced, StatsAt, Separate, T.Init;
      FieldsInView();
      if status == Play {
        return;
      }
      if status == Stop {
        OpenSummary();
        // nodes_catalog_open and links_catalog_open assert that there are no catalogs
        assert !open;
        SetStatus(Play, true);
      } else {
        SetStatus(Play, open);
      }
    }

    /** pause_capture: `removed` is whether the source of the capture could be removed */
    method PauseCapture(removed: bool)
      requires Valid()
      modifies `status, `open
      ensures Valid() && View() == if old(status) == Play && removed then old(View()).(status := Pause) else old(View())
    {
      hide View, AllShaped, Balanced, StatsAt, Separate;
      FieldsInView();
      if status == Play && removed {
        SetStatus(Pause, open);
      }
    }

    // get_offline_packet, at the end of the file
    method EndOfFile()
      requires Valid() && status != Stop
      modifies `status, `open
      ensures Valid() && View() == old(View()).(status := CapEof)
    {
      hide View, AllShaped, Balanced, StatsAt, Separate;
      FieldsInView();
      SetStatus(CapEof, open);
    }

    // nodes_catalog_close
    method NodesClose()
      requires Valid()
      modifies `nodes, homes.Keys, mem, mem.live`refCount
      ensures Valid() && mem.live <= old(mem.live) && View() == old(View()).(nodes := map[])
    {
      hide View, AllShaped, Balanced, StatsAt, Separate;
      NodeKeys();
      while nodes != map[]
        invariant Valid() && mem.live <= old(mem.live) && nodes.Keys <= old(nodes.Keys)
        invariant View() == old(View()).(nodes := View().nodes)
        decreases nodes.Keys
      {
        var n :| n in nodes;
        NodeInView(n);
        NodesRemove(n);
      }
      NodeKeys();
    }

    // links_catalog_close
    method LinksClose()
      requires Valid() && talks.Valid()
      modifies `links, homes.Keys, mem, mem.live`refCount, talks
      ensures Valid() && talks.Valid() && mem.live <= old(mem.live) && View() == old(View()).(links := map[])
    {
      hide View, AllShaped, Balanced, StatsAt, Separate;
      LinkKeys();
      while links != map[]
        invariant Valid() && talks.Valid() && mem.live <= old(mem.live) && links.Keys <= old(links.Keys)
        invariant View() == old(View()).(links := View().links)
        decreases links.Keys
      {
        var l :| l in links;
        LinkInView(l);
        LinksRemove(l);
      }
      LinkKeys();
    }

    twostate lemma SummaryLeft()
      requires summary == null && unchanged(`nodes, `links)
      ensures forall s :: StatsAt(s) == if s == SummarySlot then null else old(StatsAt(s))
    {}

    twostate lemma NoSummary()
      requires old(Separate()) && Separate() && summary == null && unchanged(`status, `open, `nodes, `links, `newNodes, `now)
      requires forall k | StatsAt(k) != null :: StatsAt(k).View() == old(StatsAt(k).View())
      ensures View() == old(View()).(summary := None)
    {
      hide TrafficStats.View;
      var v, w := View(), old(View());
      assert v.nodes.Keys == w.nodes.Keys && v.links.Keys == w.links.Keys;
      forall k | k in v.nodes ensures v.nodes[k] == w.nodes[k] {
        assert StatsAt(NodeSlot(k)) == nodes[k];
      }
      forall k | k in v.links ensures v.links[k] == w.links[k] {
        assert StatsAt(LinkSlot(k)) == links[k];
      }
    }

    // protocol_summary_close
    method SummaryClose()
      requires Valid()
      modifies `summary, homes.Keys, mem, mem.live`refCount
      ensures Valid() && mem.live <= old(mem.live) && View() == old(View()).(summary := None)
    {
      hide View, AllShaped, Balanced, StatsAt;
      FieldsInView();
      if summary != null {
        EntryAt(SummarySlot);
        ResetAt(SummarySlot, summary);
        label reset:
        ghost var m := View();
        summary := null;
        SummaryLeft@reset();
        NoSummary@reset();
        RemovalKeeps(m, m.(summary := None), SummarySlot, slots, RefCounts(), mem.items);
      }
    }

    // The closing of the catalogs in stop_capture
    method CloseAll()
      requires Valid() && talks.Valid()
      modifies this, homes.Keys, mem, mem.live`refCount, talks
      ensures Valid() && talks.Valid() && talks.conversations == [] && talks.count == 0
      ensures View() == old(View()).(summary := None, nodes := map[], links := map[], newNodes := [])
    {
      hide View, AllShaped, Balanced, StatsAt, Separate;
      SummaryClose();
      NodesClose();
      LinksClose();
      talks.DeleteAll();
      SetNewNodes([]);
    }

    /** stop_capture: nothing is left of the capture, and no packet in memory */
    method StopCapture()
      requires Valid() && talks.Valid() && LifecycleOk(View())
      modifies this, homes.Keys, mem, mem.live`refCount, talks
      ensures Valid() && talks.Valid() && View() == MonitorSpec.StopCapture(old(View()))
      ensures old(status) != Stop ==> talks.conversations == [] && talks.count == 0
      ensures mem.live == {} && mem.packets == mem.items == 0
    {
      hide View, AllShaped, Balanced, StatsAt, Separate;
      FieldsInView();
      if status != Stop {
        SetStatus(Stop, open);
        CloseAll();
        SetStatus(Stop, false);
      }
      NothingLive();
    }

    // A capture without queues has no packets.
    lemma NothingLive()
      requires Valid() && View().nodes == map[] && View().links == map[] && View().summary == None
      ensures mem.live == {} && mem.packets == mem.items == 0
    {
      var m, refs := View(), RefCounts();
      var zero: Slot -> int := s => 0;
      TotalOne(slots, zero, SummarySlot, 0);
      TotalSame(slots, Lengths(m), zero);
      forall p | p in mem.live ensures p.refCount == 0 {
        TotalSame(slots, Refs(p, m), zero);
        assert refs[p] == p.refCount;
      }
    }

    lemma QueuedIsLive(s: Slot)
      requires Books()
      ensures forall it | it in QueueOf(View(), s) :: it.info in mem.live
    {}

    /** In a capture that has kept a window of packets, the live packets are exactly those of the window;
        each is referenced four times, and the memory counters count them. */
    lemma PacketsAreCounted(h: seq<Arrival>)
      requires Valid() && Refines(View(), h)
      ensures mem.live == InfosOf(h) && mem.packets == |h| && mem.items == 4 * |h|
      ensures forall p | p in mem.live :: p.refCount == 4
    {
      hide Refines, Balanced, View;
      LiveIsWindow(View(), h, slots, RefCounts(), mem.items);
      assert forall p | p in mem.live :: RefCounts()[p] == p.refCount;
      assert RefCounts().Keys == mem.live;
    }
  }

  lemma PutShaped(m: Monitor, s: Slot, t: T.Traffic)
    requires AllShaped(m) && T.Shaped(t)
    ensures AllShaped(Put(m, s, t))
  {}

  lemma GetFacts(m: Monitor, s: Slot)
    requires AllShaped(m) && Get(m, s).Some?
    ensures T.Shaped(Get(m, s).value) && QueueOf(m, s) == Get(m, s).value.queue
  {}

  // One item more in one queue, and one reference more for its packet
  lemma AddedKeeps(m: Monitor, s: Slot, it: QueueItem, now: int, ks: seq<Slot>, refs: map<PacketInfo, int>,
                   refs': map<PacketInfo, int>, items: int)
    requires AllShaped(m) && Balanced(m, ks, refs, items) && Get(m, s).Some? && s in ks
    requires it.info in refs && |it.info.names| == LEVELS && refs' == refs[it.info := refs[it.info] + 1]
    ensures T.Shaped(Get(m, s).value)
    ensures var r := Put(m, s, T.Add(Get(m, s).value, it, now)); AllShaped(r) && Balanced(r, ks, refs', items + 1)
  {
    hide AllShaped, Put, Get;
    GetFacts(m, s);
    var t := T.Add(Get(m, s).value, it, now);
    PutShaped(m, s, t);
    PutQueues(m, s, t);
    assert t.queue[1..] == QueueOf(m, s);
    QueueChangeKeeps(m, Put(m, s, t), ks, s, refs, refs', items, items + 1);
  }

  lemma SettingsKeep(m: Monitor, r: Monitor, ks: seq<Slot>, refs: map<PacketInfo, int>, items: int)
    requires AllShaped(m) && Balanced(m, ks, refs, items) && r == m.(now := r.now, status := r.status, open := r.open)
    ensures AllShaped(r) && Balanced(r, ks, refs, items)
  {
    hide Balanced;
    SameQueuesKeep(m, r, ks, refs, items);
  }

  // A slot that starts without packets
  lemma StartsKeep(m: Monitor, s: Slot, now: int, ks: seq<Slot>, refs: map<PacketInfo, int>, items: int)
    requires AllShaped(m) && Balanced(m, ks, refs, items) && QueueOf(m, s) == []
    ensures AllShaped(Put(m, s, T.Init(now))) && Balanced(Put(m, s, T.Init(now)), ks, refs, items)
  {
    hide Balanced;
    PutQueues(m, s, T.Init(now));
    SameQueuesKeep(m, Put(m, s, T.Init(now)), ks, refs, items);
  }

  // A slot without packets taken out
  lemma RemovalKeeps(m: Monitor, r: Monitor, s: Slot, ks: seq<Slot>, refs: map<PacketInfo, int>, items: int)
    requires AllShaped(m) && Balanced(m, ks, refs, items) && QueueOf(m, s) == []
    requires match s
             case NodeSlot(n) => r == m.(nodes := m.nodes - {n})
             case LinkSlot(l) => r == m.(links := m.links - {l})
             case SummarySlot => r == m.(summary := None)
    ensures AllShaped(r) && Balanced(r, ks, refs, items)
  {
    hide Balanced;
    SameQueuesKeep(m, r, ks, refs, items);
  }

  // What TrafficStats.Released says about the queue q and what is left of it
  ghost predicate Freed(q: T.Queue, left: T.Queue, refs: map<PacketInfo, int>, refs': map<PacketInfo, int>) {
    && refs'.Keys <= refs.Keys
    && forall p | p in refs ::
         if p in Infos(q) then
           var n := refs[p] - Count(p, q) + Count(p, left);
           if p in refs' then refs'[p] == n && n >= 1 else n < 1
         else p in refs' && refs'[p] == refs[p]
  }

  // Items removed from one queue
  lemma ReleasedKeeps(m: Monitor, s: Slot, t: T.Traffic, ks: seq<Slot>, refs: map<PacketInfo, int>, refs': map<PacketInfo, int>,
                      items: int, items': int)
    requires AllShaped(m) && Balanced(m, ks, refs, items) && (forall p | p in refs :: refs[p] >= 1)
    requires Get(m, s).Some? && s in ks && T.Shaped(t) && t.queue <= QueueOf(m, s)
    requires Freed(QueueOf(m, s), t.queue, refs, refs') && items' - |t.queue| == items - |QueueOf(m, s)|
    ensures AllShaped(Put(m, s, t)) && Balanced(Put(m, s, t), ks, refs', items') && forall p | p in refs' :: refs'[p] >= 1
  {
    hide Balanced;
    var q := QueueOf(m, s);
    PutQueues(m, s, t);
    QueueIsBacked(m, ks, refs, items, s);
    forall p | p in refs && p !in Infos(q) ensures Count(p, t.queue) == 0 == Count(p, q) {
      CountMember(p, q);
      CountMember(p, t.queue);
    }
    QueueChangeKeeps(m, Put(m, s, t), ks, s, refs, refs', items, items');
  }

  lemma PutQueues(m: Monitor, s: Slot, t: T.Traffic)
    ensures forall k: Slot :: QueueOf(Put(m, s, t), k) == if k == s then t.queue else QueueOf(m, k)
  {}
}
