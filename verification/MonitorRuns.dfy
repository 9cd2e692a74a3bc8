/** Every run of a capture: the node, link and summary queues, each purged on its own, together are the views of
    one window of recent packets, exactly as long as packets leave it in the order in which they arrived. What follows from that for the counters and
    the references is in MonitorTotals.dfy. */
module MonitorRuns {
  import opened Wrappers
  import opened BasicStats
  import opened Traffic
  import opened NodeIds
  import opened MonitorSpec

  ghost predicate Sound(t: Traffic) {
    Consistent(t) && IdleOk(t) && Shaped(t)
  }

  ghost predicate AllSound(m: Monitor) {
    && (forall n | n in m.nodes :: Sound(m.nodes[n]))
    && (forall l | l in m.links :: Sound(m.links[l]))
    && (m.summary.Some? ==> Sound(m.summary.value))
  }

  // No packet twice
  ghost predicate WindowOk(h: seq<Arrival>) {
    h == [] || (ArrivalOk(h[0]) && (forall a | a in h[1..] :: a.info != h[0].info) && WindowOk(h[1..]))
  }

  // The catalogs and the summary exist exactly while a capture is not stopped.
  ghost predicate LifecycleOk(m: Monitor) {
    && (m.open <==> m.status != Stop) && (m.summary.Some? <==> m.open)
    && (!m.open ==> m.nodes == map[] && m.links == map[] && m.newNodes == [])
  }

  // The list of new nodes has no duplicates and names nodes of the catalog that have packets.
  ghost predicate NewNodesOk(m: Monitor) {
    && Distinct(m.newNodes)
    && (forall n | n in m.newNodes :: n in m.nodes && m.nodes[n].queue != [])
  }

  // Links are ordered by node.
  ghost predicate LinksOk(m: Monitor) {
    forall l | l in m.links :: Compare(l.src, l.dst) <= 0 && Canonical(l.src) && Canonical(l.dst)
  }

  ghost predicate WellKept(m: Monitor) {
    AllSound(m) && LifecycleOk(m) && NewNodesOk(m) && LinksOk(m)
  }

  /** Every queue of m is the view of the window h that its slot calls for. */
  ghost predicate Refines(m: Monitor, h: seq<Arrival>) {
    WellKept(m) && WindowOk(h) && forall s: Slot :: QueueOf(m, s) == Proj(s, h)
  }

  lemma SoundShape(m: Monitor)
    requires AllSound(m)
    ensures AllShaped(m)
  {}

  // ---- a packet ----

  lemma InitSound(now: int)
    ensures Sound(Init(now))
  {
    forall sum: Sum ensures Window(Init(now), sum) == BytesOf(sum, []) {}
  }

  lemma AddSound(t: Traffic, it: QueueItem, now: int)
    requires Sound(t) && ItemOk(it)
    ensures Sound(Add(t, it, now)) && Add(t, it, now).queue == [it] + t.queue
  {
    AddIsConsistent(t, it, now);
    AddIsIdle(t, it, now);
    ConsistentIsShaped(Add(t, it, now));
  }

  // The only queue that differs is the one of the slot, which has the item in front.
  ghost predicate Puts(m: Monitor, r: Monitor, at: Slot, it: QueueItem) {
    forall s: Slot :: QueueOf(r, s) == (if s == at then [it] else []) + QueueOf(m, s)
  }

  lemma AddToNodePuts(m: Monitor, n: NodeId, it: QueueItem)
    requires WellKept(m) && m.open && ItemOk(it)
    ensures AllShaped(m)
    ensures var r := AddToNode(m, n, it); WellKept(r) && Puts(m, r, NodeSlot(n), it) && r.open && r.status == m.status && r.now == m.now
  {
    hide Sound, Add, ItemOk;
    SoundShape(m);
    InitSound(m.now);
    AddSound(if n in m.nodes then m.nodes[n] else Init(m.now), it, m.now);
  }

  lemma AddToLinkPuts(m: Monitor, l: LinkId, it: QueueItem)
    requires WellKept(m) && m.open && ItemOk(it) && Compare(l.src, l.dst) <= 0 && Canonical(l.src) && Canonical(l.dst)
    ensures AllShaped(m)
    ensures var r := AddToLink(m, l, it); WellKept(r) && Puts(m, r, LinkSlot(l), it) && r.open && r.status == m.status && r.now == m.now
  {
    hide Sound, Add, ItemOk, Compare, Canonical;
    SoundShape(m);
    InitSound(m.now);
    AddSound(if l in m.links then m.links[l] else Init(m.now), it, m.now);
  }

  lemma AddToSummaryPuts(m: Monitor, it: QueueItem)
    requires WellKept(m) && m.open && ItemOk(it)
    ensures AllShaped(m)
    ensures var r := AddToSummary(m, it); WellKept(r) && Puts(m, r, SummarySlot, it) && r.open && r.status == m.status && r.now == m.now
  {
    hide Sound, Add, ItemOk;
    SoundShape(m);
    AddSound(m.summary.value, it, m.now);
  }

  lemma AcquireQueues(m: Monitor, a: Arrival)
    requires WellKept(m) && m.open && ArrivalOk(a)
    ensures AllShaped(m)
    ensures var r := Acquire(m, a); WellKept(r) && r.status == m.status && r.now == a.info.timestamp
    ensures forall s: Slot :: QueueOf(Acquire(m, a), s) == Items(s, a) + QueueOf(m, s)
  {
    hide Sound, Add, ItemOk, Compare, Canonical, AddToNode, AddToLink, AddToSummary, WellKept, QueueOf, LinkOf;
    ItemsOk(a);
    ClockKeeps(m, a.info.timestamp);
    var m0 := m.(now := a.info.timestamp);
    AddToNodePuts(m0, a.src, QueueItem(a.info, Outbound));
    var m1 := AddToNode(m0, a.src, QueueItem(a.info, Outbound));
    AddToNodePuts(m1, a.dst, QueueItem(a.info, Inbound));
    var m2 := AddToNode(m1, a.dst, QueueItem(a.info, Inbound));
    var l, d := LinkOf(a.src, a.dst), LinkDirection(a.src, a.dst);
    AddToLinkPuts(m2, l, QueueItem(a.info, d));
    var m3 := AddToLink(m2, l, QueueItem(a.info, d));
    AddToSummaryPuts(m3, QueueItem(a.info, Eitherbound));
  }

  lemma ItemsOk(a: Arrival)
    requires ArrivalOk(a)
    ensures forall d: Direction :: ItemOk(QueueItem(a.info, d))
    ensures var l := LinkOf(a.src, a.dst); Compare(l.src, l.dst) <= 0 && Canonical(l.src) && Canonical(l.dst)
  {
    LinkOfIsUnordered(a.src, a.dst, a.src, a.dst);
  }

  lemma ClockKeeps(m: Monitor, now: int)
    requires WellKept(m)
    ensures AllShaped(m) && WellKept(m.(now := now)) && forall s: Slot :: QueueOf(m.(now := now), s) == QueueOf(m, s)
  {
    SoundShape(m);
  }

  // ---- views of the window ----

  // The packet has left the averaging window.
  predicate Old(a: Arrival, now: int, expire: real) {
    Ms(now, a.info.timestamp) >= expire
  }

  /** No packet that has left the averaging window arrived after one that has not. */
  ghost predicate AgesInOrder(h: seq<Arrival>, now: int, expire: real) {
    forall i, j | 0 <= i < j < |h| :: Old(h[i], now, expire) ==> Old(h[j], now, expire)
  }

  lemma ItemsAge(s: Slot, a: Arrival, now: int, expire: real)
    ensures forall it | it in Items(s, a) :: Expired(it, now, expire) <==> Old(a, now, expire)
  {}

  // The last of the window is old only if its items are.
  lemma {:induction false} AllOld(s: Slot, h: seq<Arrival>, now: int, expire: real)
    requires forall a | a in h :: Old(a, now, expire)
    ensures forall it | it in Proj(s, h) :: Expired(it, now, expire)
  {
    if h != [] {
      ItemsAge(s, h[0], now, expire);
      AllOld(s, h[1..], now, expire);
    }
  }

  lemma OrderedAppend(first: Queue, rest: Queue, now: int, expire: real)
    requires ExpiresInOrder(rest, now, expire)
    requires (forall it | it in first :: !Expired(it, now, expire)) || (forall it | it in first + rest :: Expired(it, now, expire))
    ensures ExpiresInOrder(first + rest, now, expire)
  {
    var q, k := first + rest, |first|;
    forall i, j | 0 <= i < j < |q| && Expired(q[i], now, expire) ensures Expired(q[j], now, expire) {
      assert i < k ==> q[i] in first;
      assert q[j] in q;
    }
  }

  /** When packets leave the window in the order in which they arrived, they leave every view of it in that order. */
  lemma {:induction false} ViewsInOrder(s: Slot, h: seq<Arrival>, now: int, expire: real)
    requires AgesInOrder(h, now, expire)
    ensures ExpiresInOrder(Proj(s, h), now, expire)
  {
    if h != [] {
      ViewsInOrder(s, h[1..], now, expire);
      ItemsAge(s, h[0], now, expire);
      if Old(h[0], now, expire) {
        forall a | a in h ensures Old(a, now, expire) {
          var j :| 0 <= j < |h| && h[j] == a;
        }
        AllOld(s, h, now, expire);
      }
      OrderedAppend(Items(s, h[0]), Proj(s, h[1..]), now, expire);
    }
  }

  // The summary holds every packet of the window.
  lemma {:induction false} SummaryIsWindow(h: seq<Arrival>)
    ensures |Proj(SummarySlot, h)| == |h|
    ensures forall i | 0 <= i < |h| :: Proj(SummarySlot, h)[i] == QueueItem(h[i].info, Eitherbound)
  {
    if h != [] {
      SummaryIsWindow(h[1..]);
    }
  }

  lemma SummaryTellsOrder(h: seq<Arrival>, now: int, expire: real)
    ensures ExpiresInOrder(Proj(SummarySlot, h), now, expire) <==> AgesInOrder(h, now, expire)
  {
    SummaryIsWindow(h);
    var q := Proj(SummarySlot, h);
    assert forall i | 0 <= i < |h| :: Expired(q[i], now, expire) <==> Old(h[i], now, expire);
  }

  /** Dropping old items from a view gives the view of the younger packets. */
  lemma {:induction false} ProjOfYounger(s: Slot, h: seq<Arrival>, now: int, expire: real)
    ensures Fresh(Proj(s, h), now, expire) == Proj(s, Younger(h, now, expire))
  {
    if h != [] {
      ProjOfYounger(s, h[1..], now, expire);
      var first := Items(s, h[0]);
      FreshAppend(first, Proj(s, h[1..]), now, expire);
      if Ms(now, h[0].info.timestamp) >= expire {
        NoneFresh(first, now, expire);
      } else {
        AllFresh(first, now, expire);
        assert ([h[0]] + Younger(h[1..], now, expire))[1..] == Younger(h[1..], now, expire);
      }
    }
  }

  lemma {:induction false} NoneFresh(q: Queue, now: int, expire: real)
    requires forall it | it in q :: Expired(it, now, expire)
    ensures Fresh(q, now, expire) == []
  {
    if q != [] {
      NoneFresh(q[1..], now, expire);
    }
  }

  lemma {:induction false} YoungerIsOk(h: seq<Arrival>, now: int, expire: real)
    requires WindowOk(h)
    ensures WindowOk(Younger(h, now, expire)) && forall a | a in Younger(h, now, expire) :: a in h
  {
    if h != [] {
      YoungerIsOk(h[1..], now, expire);
      var y := Younger(h[1..], now, expire);
      assert ([h[0]] + y)[1..] == y;
      assert forall a | a in y :: a in h[1..] && a in h;
    }
  }

  // ---- a refresh ----

  lemma RefreshSound(t: Traffic, now: int, avg: real, protoExpire: real)
    requires Sound(t)
    ensures var r := Refresh(t, now, avg, protoExpire);
            Sound(r) && r.queue == Popped(t.queue, now, avg) && AveragesRight(r, avg)
    ensures var r := Update(t, now, avg, protoExpire);
            Sound(r) && r.queue == Popped(t.queue, now, avg) && AveragesRight(r, avg)
  {
    RefreshIsConsistent(t, now, avg, protoExpire);
    RefreshAverages(t, now, avg, protoExpire);
    UpdateIsConsistent(t, now, avg, protoExpire);
    UpdateAverages(t, now, avg, protoExpire);
    PurgePops(t, now, avg);
  }

  /** A refresh pops expired packets off the tail of every queue, whether or not the node or link itself goes: only
      those with empty queues do. */
  lemma RoundQueues(m: Monitor, now: int, p: Prefs)
    requires WellKept(m)
    ensures AllShaped(m) && WellKept(Round(m, now, p))
    ensures forall s: Slot :: QueueOf(Round(m, now, p), s) == Popped(QueueOf(m, s), now, p.averaging)
  {
    hide Sound, Refresh, Update;
    SoundShape(m);
    forall n | n in m.nodes
      ensures Sound(Later(m.nodes[n], now, ForNodes(p)))
      ensures Later(m.nodes[n], now, ForNodes(p)).queue == Popped(m.nodes[n].queue, now, p.averaging)
    {
      RefreshSound(m.nodes[n], now, p.averaging, p.protoNode);
    }
    forall l | l in m.links
      ensures Sound(Later(m.links[l], now, ForLinks(p)))
      ensures Later(m.links[l], now, ForLinks(p)).queue == Popped(m.links[l].queue, now, p.averaging)
    {
      RefreshSound(m.links[l], now, p.averaging, p.protoLink);
    }
    if m.summary.Some? {
      RefreshSound(m.summary.value, now, p.averaging, p.proto);
    }
  }

  // ---- every event ----

  lemma {:induction false} InSummary(h: seq<Arrival>, a: Arrival)
    requires a in h
    ensures exists it :: it in Proj(SummarySlot, h) && it.info == a.info
  {
    if a == h[0] {
      assert QueueItem(a.info, Eitherbound) in Proj(SummarySlot, h);
    } else {
      InSummary(h[1..], a);
      var it :| it in Proj(SummarySlot, h[1..]) && it.info == a.info;
      assert it in Proj(SummarySlot, h);
    }
  }

  // A stopped capture has an empty window.
  lemma NoPackets(h: seq<Arrival>, m: Monitor)
    requires Refines(m, h) && m.status == Stop
    ensures h == []
  {
    assert QueueOf(m, SummarySlot) == Proj(SummarySlot, h);
  }

  lemma PacketExtendsWindow(m: Monitor, h: seq<Arrival>, a: Arrival)
    requires Refines(m, h) && Enabled(m, EvPacket(a))
    ensures WindowOk([a] + h)
  {
    assert ([a] + h)[1..] == h;
    forall b | b in h ensures b.info != a.info {
      InSummary(h, b);
      assert QueueOf(m, SummarySlot) == Proj(SummarySlot, h);
    }
  }

  lemma PacketRefines(m: Monitor, h: seq<Arrival>, a: Arrival)
    requires Refines(m, h) && Enabled(m, EvPacket(a))
    ensures AllShaped(m) && Refines(Acquire(m, a), [a] + h)
  {
    hide WellKept, Acquire, Items, QueueOf, ArrivalOk;
    PacketExtendsWindow(m, h, a);
    PacketFindsOpen(m);
    AcquireQueues(m, a);
    assert ([a] + h)[1..] == h;
  }

  lemma PacketFindsOpen(m: Monitor)
    requires WellKept(m)
    ensures m.open <==> m.status != Stop
  {}

  /** A refresh takes the views of a window to the views of its younger packets if and only if packets leave the
      window in the order in which they arrived. */
  lemma RoundRefinesIff(m: Monitor, h: seq<Arrival>, now: int, p: Prefs)
    requires Refines(m, h)
    ensures AllShaped(m) && (Refines(Round(m, now, p), Younger(h, now, p.averaging)) <==> AgesInOrder(h, now, p.averaging))
  {
    hide WellKept, QueueOf, Fresh, Proj, Popped, AgesInOrder, ExpiresInOrder;
    RoundQueues(m, now, p);
    YoungerIsOk(h, now, p.averaging);
    forall s: Slot
      ensures QueueOf(Round(m, now, p), s) == Proj(s, Younger(h, now, p.averaging)) <==> ExpiresInOrder(Proj(s, h), now, p.averaging)
    {
      assert QueueOf(m, s) == Proj(s, h);
      ProjOfYounger(s, h, now, p.averaging);
      PopIsFilterIff(Proj(s, h), now, p.averaging);
    }
    SummaryTellsOrder(h, now, p.averaging);
    if AgesInOrder(h, now, p.averaging) {
      forall s: Slot ensures ExpiresInOrder(Proj(s, h), now, p.averaging) {
        ViewsInOrder(s, h, now, p.averaging);
      }
    }
  }

  /** Whatever the times are, every event keeps each queue and its counters sound, and the catalogs in place. */
  lemma StepKeeps(m: Monitor, e: Event)
    requires WellKept(m) && Enabled(m, e)
    ensures AllShaped(m) && WellKept(Step(m, e))
  {
    hide Sound, Acquire, Round, ArrivalOk;
    SoundShape(m);
    InitSound(m.now);
    match e
    case EvPacket(a) => AcquireQueues(m, a);
    case EvRound(now, p) => RoundQueues(m, now, p);
    case _ =>
  }

  // Starting, pausing, reading the clock, reaching the end and stopping
  lemma SwitchRefines(m: Monitor, h: seq<Arrival>, e: Event)
    requires Refines(m, h) && Enabled(m, e) && !e.EvPacket? && !e.EvRound?
    ensures AllShaped(m) && Refines(Step(m, e), WindowStep(h, m.status, e))
  {
    hide ArrivalOk, Sound, Items;
    StepKeeps(m, e);
    var r, w := Step(m, e), WindowStep(h, m.status, e);
    if m.status == Stop {
      NoPackets(h, m);
    }
    forall s: Slot ensures QueueOf(r, s) == Proj(s, w) {
      assert QueueOf(m, s) == Proj(s, h);
    }
  }

  /** If the event is a refresh, packets leave the window in the order in which they arrived. */
  ghost predicate InOrder(h: seq<Arrival>, status: Status, e: Event) {
    e.EvRound? && status == Play ==> AgesInOrder(h, e.now, e.prefs.averaging)
  }

  /** Each event does to the queues what it does to one window of packets, unless it is a refresh that finds packets
      out of order: and then it does not. */
  lemma StepRefinesIff(m: Monitor, h: seq<Arrival>, e: Event)
    requires Refines(m, h) && Enabled(m, e)
    ensures AllShaped(m) && (Refines(Step(m, e), WindowStep(h, m.status, e)) <==> InOrder(h, m.status, e))
  {
    hide WellKept, WindowOk, QueueOf, Proj, AgesInOrder;
    RefinesShape(m, h);
    match e
    case EvPacket(a) => PacketRefines(m, h, a);
    case EvRound(now, p) =>
      RoundRefinesIff(m, h, now, p);
      if m.status == Stop {
        NoPackets(h, m);
        NoneOutOfOrder(now, p.averaging);
      }
    case _ => SwitchRefines(m, h, e);
  }

  lemma RefinesShape(m: Monitor, h: seq<Arrival>)
    requires Refines(m, h)
    ensures AllShaped(m)
  {
    SoundShape(m);
  }

  lemma NoneOutOfOrder(now: int, expire: real)
    ensures AgesInOrder([], now, expire) && Younger([], now, expire) == []
  {}

  // ---- every run ----

  /** In a run from m with the window h, packets leave the window in the order in which they arrived. */
  ghost predicate RunInOrder(m: Monitor, h: seq<Arrival>, es: seq<Event>)
    requires Possible(m, es)
    decreases |es|
  {
    es == [] || (InOrder(h, m.status, es[0]) && RunInOrder(Step(m, es[0]), WindowStep(h, m.status, es[0]), es[1..]))
  }

  /** The queues are the views of one window all along. */
  ghost predicate AlwaysRefines(m: Monitor, h: seq<Arrival>, es: seq<Event>)
    requires Possible(m, es)
    decreases |es|
  {
    Refines(m, h) && (es == [] || AlwaysRefines(Step(m, es[0]), WindowStep(h, m.status, es[0]), es[1..]))
  }

  lemma {:induction false} RunRefinesIff(m: Monitor, h: seq<Arrival>, es: seq<Event>)
    requires Refines(m, h) && Possible(m, es)
    ensures AlwaysRefines(m, h, es) <==> RunInOrder(m, h, es)
    ensures RunInOrder(m, h, es) ==> Refines(After(m, es), WindowAfter(h, m, es))
    decreases |es|
  {
    hide Refines, InOrder, Enabled, Step, WindowStep;
    if es != [] {
      StepRefinesIff(m, h, es[0]);
      var r, w := Step(m, es[0]), WindowStep(h, m.status, es[0]);
      if Refines(r, w) {
        RunRefinesIff(r, w, es[1..]);
      }
    }
  }

  lemma StartRefines(now: int)
    ensures Refines(Initial(now), [])
  {}

  /** In a run, whatever the order of packets, refreshes, pauses, stops and starts and whatever the clocks say, all
      queues are the views of one window of packets all along if and only if packets leave the window in the order
      in which they arrived. */
  lemma EveryRunRefinesIff(now: int, es: seq<Event>)
    requires Possible(Initial(now), es)
    ensures AlwaysRefines(Initial(now), [], es) <==> RunInOrder(Initial(now), [], es)
  {
    hide Refines;
    StartRefines(now);
    RunRefinesIff(Initial(now), [], es);
  }

  lemma EveryRunRefines(now: int, es: seq<Event>)
    requires Possible(Initial(now), es) && RunInOrder(Initial(now), [], es)
    ensures Refines(After(Initial(now), es), WindowAfter([], Initial(now), es))
  {
    hide Refines;
    StartRefines(now);
    RunRefinesIff(Initial(now), [], es);
  }

  // ---- packets stamped in order ----

  // Each packet is stamped no earlier than those that are still in the window. Nothing is said about refreshes.
  ghost predicate StampedInOrder(m: Monitor, h: seq<Arrival>, es: seq<Event>)
    requires Possible(m, es)
    decreases |es|
  {
    es == [] ||
    (&& (es[0].EvPacket? ==> forall a | a in h :: a.info.timestamp <= es[0].arrival.info.timestamp)
     && StampedInOrder(Step(m, es[0]), WindowStep(h, m.status, es[0]), es[1..]))
  }

  ghost predicate Stamped(h: seq<Arrival>) {
    forall i, j | 0 <= i < j < |h| :: h[i].info.timestamp >= h[j].info.timestamp
  }

  lemma {:induction false} YoungerStamped(h: seq<Arrival>, now: int, expire: real)
    requires Stamped(h)
    ensures Stamped(Younger(h, now, expire)) && forall a | a in Younger(h, now, expire) :: a in h
  {
    if h != [] {
      YoungerStamped(h[1..], now, expire);
      var y := Younger(h[1..], now, expire);
      forall a | a in y ensures a.info.timestamp <= h[0].info.timestamp {
        var j :| 0 <= j < |h[1..]| && h[1..][j] == a;
        assert h[j + 1] == a;
      }
    }
  }

  /** When packets are stamped in the order in which they arrive, they leave the window in that order, whatever the
      clock says at refreshes: it may be behind the stamps, and it may go back. */
  lemma {:induction false} StampsKeepOrder(m: Monitor, h: seq<Arrival>, es: seq<Event>)
    requires Possible(m, es) && Stamped(h) && StampedInOrder(m, h, es)
    ensures RunInOrder(m, h, es)
    decreases |es|
  {
    hide Step, Enabled;
    if es != [] {
      var w := WindowStep(h, m.status, es[0]);
      if es[0].EvRound? {
        YoungerStamped(h, es[0].now, es[0].prefs.averaging);
      }
      assert Stamped(w);
      StampsKeepOrder(Step(m, es[0]), w, es[1..]);
    }
  }

  // ---- what every run keeps, whatever the times are ----

  /** Every run keeps the catalogs in place and every counter the sum over its queue, and a stopped capture has no
      window. */
  lemma {:induction false} RunKeeps(m: Monitor, h: seq<Arrival>, es: seq<Event>)
    requires WellKept(m) && Possible(m, es) && (m.status == Stop ==> h == [])
    ensures WellKept(After(m, es)) && (After(m, es).status == Stop ==> WindowAfter(h, m, es) == [])
    decreases |es|
  {
    hide WellKept;
    if es != [] {
      StepKeeps(m, es[0]);
      RunKeeps(Step(m, es[0]), WindowStep(h, m.status, es[0]), es[1..]);
    }
  }

  lemma EveryRunKeeps(now: int, es: seq<Event>)
    requires Possible(Initial(now), es)
    ensures WellKept(After(Initial(now), es))
    ensures After(Initial(now), es).status == Stop ==> WindowAfter([], Initial(now), es) == []
  {
    RunKeeps(Initial(now), [], es);
  }
}
