/** What follows for the counters and the references of a capture. While the queues are the views of one window
    (MonitorRuns.Refines), the four ways of adding up traffic agree, each link splits its traffic by direction, and
    every packet of the window is referenced exactly four times. The life of a capture, its links and its averages
    are in order in every run. */
module MonitorTotals {
  import opened Wrappers
  import opened BasicStats
  import opened Traffic
  import opened NodeIds
  import opened MonitorSpec
  import opened MonitorRuns
  import opened TrafficStats

  // ---- sums over lists of slots ----

  function Total(ks: seq<Slot>, f: Slot -> int): int {
    if ks == [] then 0 else f(ks[0]) + Total(ks[1..], f)
  }

  lemma {:induction false} TotalAdd(ks: seq<Slot>, f: Slot -> int, g: Slot -> int, fg: Slot -> int)
    requires forall s | s in ks :: fg(s) == f(s) + g(s)
    ensures Total(ks, fg) == Total(ks, f) + Total(ks, g)
  {
    if ks != [] {
      assert ks[0] in ks;
      TotalAdd(ks[1..], f, g, fg);
    }
  }

  lemma {:induction false} TotalSame(ks: seq<Slot>, f: Slot -> int, g: Slot -> int)
    requires forall s | s in ks :: f(s) == g(s)
    ensures Total(ks, f) == Total(ks, g)
  {
    if ks != [] {
      assert ks[0] in ks;
      TotalSame(ks[1..], f, g);
    }
  }

  lemma {:induction false} TotalOne(ks: seq<Slot>, f: Slot -> int, home: Slot, w: int)
    requires Distinct(ks) && forall s | s in ks :: f(s) == if s == home then w else 0
    ensures Total(ks, f) == if home in ks then w else 0
  {
    if ks != [] {
      assert ks[0] in ks;
      TotalOne(ks[1..], f, home, w);
      assert home in ks <==> home == ks[0] || home in ks[1..];
    }
  }

  // ---- where a packet is counted ----

  // Four views of the traffic; each packet is in exactly one slot of each.
  datatype Side = Senders | Receivers | Links | Whole

  function Home(side: Side, a: Arrival): Slot {
    match side
    case Senders => NodeSlot(a.src)
    case Receivers => NodeSlot(a.dst)
    case Links => LinkSlot(LinkOf(a.src, a.dst))
    case Whole => SummarySlot
  }

  predicate Belongs(m: Monitor, side: Side, s: Slot) {
    match s
    case NodeSlot(n) => (side.Senders? || side.Receivers?) && n in m.nodes
    case LinkSlot(l) => side.Links? && l in m.links
    case SummarySlot => side.Whole? && m.summary.Some?
  }

  /** ks lists every slot of the side once, in whatever order. */
  ghost predicate Lists(m: Monitor, side: Side, ks: seq<Slot>) {
    Distinct(ks) && forall s: Slot :: s in ks <==> Belongs(m, side, s)
  }

  lemma {:induction false} SetIsListed(s: set<Slot>)
    ensures exists ks: seq<Slot> :: Distinct(ks) && forall x: Slot :: x in ks <==> x in s
  {
    if s == {} {
      assert Distinct<Slot>([]) && forall x: Slot :: x in [] <==> x in s;
    } else {
      var k :| k in s;
      SetIsListed(s - {k});
      var ks: seq<Slot> :| Distinct(ks) && forall x: Slot :: x in ks <==> x in s - {k};
      assert Distinct([k] + ks) && forall x: Slot :: x in [k] + ks <==> x in s;
    }
  }

  /** Every side of every capture can be listed. */
  lemma SidesAreListed(m: Monitor, side: Side)
    ensures exists ks: seq<Slot> :: Lists(m, side, ks)
  {
    var nodes := if side.Senders? || side.Receivers? then set n | n in m.nodes :: NodeSlot(n) else {};
    var links := if side.Links? then set l | l in m.links :: LinkSlot(l) else {};
    var whole := if side.Whole? && m.summary.Some? then {SummarySlot} else {};
    var s: set<Slot> := nodes + links + whole;
    SetIsListed(s);
    var ks: seq<Slot> :| Distinct(ks) && forall x: Slot :: x in ks <==> x in s;
    assert Lists(m, side, ks);
  }

  // The counters that count each packet once: a node's outbound bytes, another's inbound bytes; and
  // for links and the summary the total, each protocol and each level.
  predicate Fair(side: Side, sum: Sum) {
    match side
    case Senders => sum.Out?
    case Receivers => sum.In?
    case _ => sum != In && sum != Out
  }

  function Counter(m: Monitor, s: Slot, sum: Sum): int {
    match s
    case NodeSlot(n) => if n in m.nodes then Window(m.nodes[n], sum) else 0
    case LinkSlot(l) => if l in m.links then Window(m.links[l], sum) else 0
    case SummarySlot => if m.summary.Some? then Window(m.summary.value, sum) else 0
  }

  function Counters(m: Monitor, sum: Sum): Slot -> int {
    s => Counter(m, s, sum)
  }

  function Weight(sum: Sum, a: Arrival): nat {
    Share(sum, QueueItem(a.info, Eitherbound))
  }

  // The bytes of the packets of the window that count for the sum
  function Carried(sum: Sum, h: seq<Arrival>): nat {
    if h == [] then 0 else Weight(sum, h[0]) + Carried(sum, h[1..])
  }

  function InItems(sum: Sum, a: Arrival): Slot -> int {
    s => BytesOf(sum, Items(s, a))
  }

  function InWindow(sum: Sum, h: seq<Arrival>): Slot -> int {
    s => BytesOf(sum, Proj(s, h))
  }

  // What a packet puts into a node's queue: it arrives, it leaves, or both.
  function NodeItems(n: NodeId, a: Arrival): (Queue, Queue) {
    (if a.dst == n then [QueueItem(a.info, Inbound)] else [], if a.src == n then [QueueItem(a.info, Outbound)] else [])
  }

  lemma ItemsAtHome(m: Monitor, side: Side, sum: Sum, a: Arrival, s: Slot)
    requires Fair(side, sum) && Belongs(m, side, s)
    ensures BytesOf(sum, Items(s, a)) == if s == Home(side, a) then Weight(sum, a) else 0
  {
    var (i, o) := if s.NodeSlot? then NodeItems(s.node, a) else ([], []);
    BytesAppend(sum, i, o);
    assert forall x: QueueItem :: [x][1..] == [];
  }

  lemma {:induction false} WindowTotal(m: Monitor, side: Side, sum: Sum, ks: seq<Slot>, h: seq<Arrival>)
    requires Fair(side, sum) && Distinct(ks) && (forall s | s in ks :: Belongs(m, side, s))
    requires forall a | a in h :: Home(side, a) in ks
    ensures Total(ks, InWindow(sum, h)) == Carried(sum, h)
  {
    if h == [] {
      TotalOne(ks, InWindow(sum, h), SummarySlot, 0);
    } else {
      var a := h[0];
      assert a in h;
      WindowTotal(m, side, sum, ks, h[1..]);
      forall s | s in ks
        ensures InWindow(sum, h)(s) == InItems(sum, a)(s) + InWindow(sum, h[1..])(s)
        ensures InItems(sum, a)(s) == if s == Home(side, a) then Weight(sum, a) else 0
      {
        BytesAppend(sum, Items(s, a), Proj(s, h[1..]));
        ItemsAtHome(m, side, sum, a, s);
      }
      TotalOne(ks, InItems(sum, a), Home(side, a), Weight(sum, a));
      TotalAdd(ks, InItems(sum, a), InWindow(sum, h[1..]), InWindow(sum, h));
    }
  }

  lemma {:induction false} HomeIsUsed(side: Side, h: seq<Arrival>, a: Arrival)
    requires a in h
    ensures Proj(Home(side, a), h) != []
  {
    if a != h[0] {
      HomeIsUsed(side, h[1..], a);
    }
  }

  // A packet of the window keeps its nodes, its link and the summary in place.
  lemma HomeBelongs(m: Monitor, h: seq<Arrival>, side: Side, a: Arrival)
    requires Refines(m, h) && a in h
    ensures Belongs(m, side, Home(side, a))
  {
    HomeIsUsed(side, h, a);
    assert QueueOf(m, Home(side, a)) == Proj(Home(side, a), h);
  }

  /** On each side, the counters kept by the catalogs add up to the bytes of the window. */
  lemma CountersAddUp(m: Monitor, h: seq<Arrival>, side: Side, sum: Sum, ks: seq<Slot>)
    requires Refines(m, h) && Fair(side, sum) && Lists(m, side, ks)
    ensures Total(ks, Counters(m, sum)) == Carried(sum, h)
  {
    forall s | s in ks ensures Counters(m, sum)(s) == InWindow(sum, h)(s) {
      assert Belongs(m, side, s);
      assert QueueOf(m, s) == Proj(s, h);
      CounterIsSum(m, s, sum);
    }
    TotalSame(ks, Counters(m, sum), InWindow(sum, h));
    forall a | a in h ensures Home(side, a) in ks {
      HomeBelongs(m, h, side, a);
    }
    WindowTotal(m, side, sum, ks, h);
  }

  lemma CounterIsSum(m: Monitor, s: Slot, sum: Sum)
    requires WellKept(m)
    ensures Counter(m, s, sum) == BytesOf(sum, QueueOf(m, s))
  {}

  // Four ways of adding up the bytes of a capture agree.
  predicate SameBytes(m: Monitor, nodes: seq<Slot>, links: seq<Slot>) {
    && Total(nodes, Counters(m, Out)) == Total(nodes, Counters(m, In))
    && Total(nodes, Counters(m, In)) == Total(links, Counters(m, All)) == Counter(m, SummarySlot, All)
  }

  /** In every run in which packets leave the window in order, the bytes sent by all nodes, the bytes received by all
      nodes, the bytes of all links and the bytes of the summary are the same number. */
  lemma AccountsAgree(now: int, es: seq<Event>, nodes: seq<Slot>, links: seq<Slot>)
    requires Possible(Initial(now), es) && RunInOrder(Initial(now), [], es)
    requires Lists(After(Initial(now), es), Senders, nodes) && Lists(After(Initial(now), es), Links, links)
    ensures SameBytes(After(Initial(now), es), nodes, links)
  {
    hide Refines;
    var m, h := After(Initial(now), es), WindowAfter([], Initial(now), es);
    EveryRunRefines(now, es);
    CountersAddUp(m, h, Senders, Out, nodes);
    CountersAddUp(m, h, Receivers, In, nodes);
    CountersAddUp(m, h, Links, All, links);
    SummaryAlone(m, h, All);
    SameWeight(h);
  }

  // A node lists a packet both where it leaves and where it arrives.
  predicate SameProtocolBytes(m: Monitor, nodes: seq<Slot>, links: seq<Slot>, sum: Sum) {
    && Total(links, Counters(m, sum)) == Counter(m, SummarySlot, sum)
    && Total(nodes, Counters(m, sum)) == 2 * Counter(m, SummarySlot, sum)
  }

  /** And so it is for each protocol and each level: the links together count what the summary counts, and
      the nodes together twice as much. */
  lemma ProtocolAccountsAgree(now: int, es: seq<Event>, nodes: seq<Slot>, links: seq<Slot>, sum: Sum)
    requires Possible(Initial(now), es) && RunInOrder(Initial(now), [], es) && (sum.Named? || sum.AtLevel?)
    requires Lists(After(Initial(now), es), Senders, nodes) && Lists(After(Initial(now), es), Links, links)
    ensures SameProtocolBytes(After(Initial(now), es), nodes, links, sum)
  {
    hide Refines;
    var m, h := After(Initial(now), es), WindowAfter([], Initial(now), es);
    EveryRunRefines(now, es);
    CountersAddUp(m, h, Links, sum, links);
    NodesCountTwice(m, h, sum, nodes);
    SummaryAlone(m, h, sum);
  }

  lemma NodesCountTwice(m: Monitor, h: seq<Arrival>, sum: Sum, ks: seq<Slot>)
    requires Refines(m, h) && sum != In && sum != Out && Lists(m, Senders, ks)
    ensures Total(ks, Counters(m, sum)) == 2 * Carried(sum, h)
  {
    forall s | s in ks ensures Counters(m, sum)(s) == InWindow(sum, h)(s) && s.NodeSlot? {
      assert Belongs(m, Senders, s);
      assert QueueOf(m, s) == Proj(s, h);
      CounterIsSum(m, s, sum);
    }
    TotalSame(ks, Counters(m, sum), InWindow(sum, h));
    forall a | a in h ensures Home(Senders, a) in ks && Home(Receivers, a) in ks {
      HomeBelongs(m, h, Senders, a);
      HomeBelongs(m, h, Receivers, a);
    }
    NodesTwice(sum, ks, h);
  }

  function At(s: Slot, w: int): Slot -> int {
    x => if x == s then w else 0
  }

  lemma BothEnds(sum: Sum, a: Arrival, n: NodeId)
    requires sum != In && sum != Out
    ensures BytesOf(sum, Items(NodeSlot(n), a)) == (if a.src == n then Weight(sum, a) else 0) + if a.dst == n then Weight(sum, a) else 0
  {
    var (i, o) := NodeItems(n, a);
    BytesAppend(sum, i, o);
    assert forall x: QueueItem :: [x][1..] == [];
  }

  lemma {:induction false} NodesTwice(sum: Sum, ks: seq<Slot>, h: seq<Arrival>)
    requires sum != In && sum != Out && Distinct(ks) && (forall s | s in ks :: s.NodeSlot?)
    requires forall a | a in h :: Home(Senders, a) in ks && Home(Receivers, a) in ks
    ensures Total(ks, InWindow(sum, h)) == 2 * Carried(sum, h)
  {
    hide Items, Weight;
    if h == [] {
      TotalOne(ks, InWindow(sum, h), SummarySlot, 0);
    } else {
      var a := h[0];
      assert a in h;
      NodesTwice(sum, ks, h[1..]);
      var f, g := At(Home(Senders, a), Weight(sum, a)), At(Home(Receivers, a), Weight(sum, a));
      forall s | s in ks
        ensures InWindow(sum, h)(s) == InItems(sum, a)(s) + InWindow(sum, h[1..])(s) && InItems(sum, a)(s) == f(s) + g(s)
      {
        BytesAppend(sum, Items(s, a), Proj(s, h[1..]));
        BothEnds(sum, a, s.node);
      }
      TotalOne(ks, f, Home(Senders, a), Weight(sum, a));
      TotalOne(ks, g, Home(Receivers, a), Weight(sum, a));
      TotalAdd(ks, f, g, InItems(sum, a));
      TotalAdd(ks, InItems(sum, a), InWindow(sum, h[1..]), InWindow(sum, h));
    }
  }

  lemma SummaryAlone(m: Monitor, h: seq<Arrival>, sum: Sum)
    requires Refines(m, h) && Fair(Whole, sum)
    ensures Counter(m, SummarySlot, sum) == Carried(sum, h)
  {
    var ks := if m.summary.Some? then [SummarySlot] else [];
    CountersAddUp(m, h, Whole, sum, ks);
    assert m.summary.Some? ==> ks[1..] == [];
  }

  lemma {:induction false} SameWeight(h: seq<Arrival>)
    ensures Carried(Out, h) == Carried(In, h) == Carried(All, h)
  {
    if h != [] {
      SameWeight(h[1..]);
    }
  }

  // ---- links by direction ----

  // The bytes that went from one node to another.
  function Between(h: seq<Arrival>, src: NodeId, dst: NodeId): nat {
    if h == [] then 0
    else (if h[0].src == src && h[0].dst == dst then h[0].info.size else 0) + Between(h[1..], src, dst)
  }

  lemma {:induction false} LinkBytes(h: seq<Arrival>, l: LinkId)
    requires WindowOk(h) && Compare(l.src, l.dst) <= 0 && Canonical(l.src) && Canonical(l.dst)
    ensures BytesOf(Out, Proj(LinkSlot(l), h)) == Between(h, l.src, l.dst)
    ensures BytesOf(In, Proj(LinkSlot(l), h)) == if l.src == l.dst then 0 else Between(h, l.dst, l.src)
    ensures BytesOf(All, Proj(LinkSlot(l), h)) == BytesOf(Out, Proj(LinkSlot(l), h)) + BytesOf(In, Proj(LinkSlot(l), h))
  {
    if h != [] {
      var a := h[0];
      LinkBytes(h[1..], l);
      OneLinkItem(a, l);
      forall sum: Sum
        ensures BytesOf(sum, Proj(LinkSlot(l), h)) == BytesOf(sum, Items(LinkSlot(l), a)) + BytesOf(sum, Proj(LinkSlot(l), h[1..]))
      {
        BytesAppend(sum, Items(LinkSlot(l), a), Proj(LinkSlot(l), h[1..]));
      }
    }
  }

  lemma OneLinkItem(a: Arrival, l: LinkId)
    requires ArrivalOk(a) && Compare(l.src, l.dst) <= 0 && Canonical(l.src) && Canonical(l.dst)
    ensures BytesOf(Out, Items(LinkSlot(l), a)) == if a.src == l.src && a.dst == l.dst then a.info.size else 0
    ensures BytesOf(In, Items(LinkSlot(l), a)) == if l.src != l.dst && a.src == l.dst && a.dst == l.src then a.info.size else 0
    ensures BytesOf(All, Items(LinkSlot(l), a)) == BytesOf(Out, Items(LinkSlot(l), a)) + BytesOf(In, Items(LinkSlot(l), a))
  {
    CompareIsTotalOrder(a.src, a.dst, a.dst);
    CompareIsTotalOrder(l.src, l.dst, l.dst);
    if Compare(l.src, l.dst) == 0 {
      CanonicalEquality(l.src, l.dst);
    }
    if Compare(a.src, a.dst) == 0 {
      CanonicalEquality(a.src, a.dst);
    }
    var q := Items(LinkSlot(l), a);
    if q != [] {
      assert q[1..] == [];
    }
  }

  /** In the same runs a link's outbound and inbound counters are exactly the bytes each way between its two
      nodes, and they sum to its total. */
  lemma LinkSplitsTraffic(now: int, es: seq<Event>, l: LinkId)
    requires Possible(Initial(now), es) && RunInOrder(Initial(now), [], es) && l in After(Initial(now), es).links
    ensures var t, h := After(Initial(now), es).links[l], WindowAfter([], Initial(now), es);
            && t.outbound.window == Between(h, l.src, l.dst)
            && t.inbound.window == (if l.src == l.dst then 0 else Between(h, l.dst, l.src))
            && t.total.window == t.outbound.window + t.inbound.window
  {
    var m, h := After(Initial(now), es), WindowAfter([], Initial(now), es);
    EveryRunRefines(now, es);
    assert QueueOf(m, LinkSlot(l)) == Proj(LinkSlot(l), h);
    CounterIsSum(m, LinkSlot(l), Out);
    CounterIsSum(m, LinkSlot(l), In);
    CounterIsSum(m, LinkSlot(l), All);
    LinkBytes(h, l);
  }

  // ---- nodes by direction ----

  // The bytes that a node sent, and those that it received
  function SentBy(h: seq<Arrival>, n: NodeId): nat {
    if h == [] then 0 else (if h[0].src == n then h[0].info.size else 0) + SentBy(h[1..], n)
  }

  function ReceivedBy(h: seq<Arrival>, n: NodeId): nat {
    if h == [] then 0 else (if h[0].dst == n then h[0].info.size else 0) + ReceivedBy(h[1..], n)
  }

  lemma {:induction false} NodeBytes(h: seq<Arrival>, n: NodeId)
    ensures BytesOf(Out, Proj(NodeSlot(n), h)) == SentBy(h, n)
    ensures BytesOf(In, Proj(NodeSlot(n), h)) == ReceivedBy(h, n)
    ensures BytesOf(All, Proj(NodeSlot(n), h)) == SentBy(h, n) + ReceivedBy(h, n)
  {
    hide Items;
    if h != [] {
      NodeBytes(h[1..], n);
      OneNodeItem(h[0], n);
      forall sum: Sum
        ensures BytesOf(sum, Proj(NodeSlot(n), h)) == BytesOf(sum, Items(NodeSlot(n), h[0])) + BytesOf(sum, Proj(NodeSlot(n), h[1..]))
      {
        BytesAppend(sum, Items(NodeSlot(n), h[0]), Proj(NodeSlot(n), h[1..]));
      }
    }
  }

  lemma OneNodeItem(a: Arrival, n: NodeId)
    ensures BytesOf(Out, Items(NodeSlot(n), a)) == if a.src == n then a.info.size else 0
    ensures BytesOf(In, Items(NodeSlot(n), a)) == if a.dst == n then a.info.size else 0
    ensures BytesOf(All, Items(NodeSlot(n), a)) == BytesOf(Out, Items(NodeSlot(n), a)) + BytesOf(In, Items(NodeSlot(n), a))
  {
    var (i, o) := NodeItems(n, a);
    BytesAppend(Out, i, o);
    BytesAppend(In, i, o);
    BytesAppend(All, i, o);
    assert forall x: QueueItem :: [x][1..] == [];
  }

  /** And a node's outbound and inbound counters are exactly the bytes that it sent and that it received, and they sum to
      its total. */
  lemma NodeSplitsTraffic(now: int, es: seq<Event>, n: NodeId)
    requires Possible(Initial(now), es) && RunInOrder(Initial(now), [], es) && n in After(Initial(now), es).nodes
    ensures var t, h := After(Initial(now), es).nodes[n], WindowAfter([], Initial(now), es);
            && t.outbound.window == SentBy(h, n) && t.inbound.window == ReceivedBy(h, n)
            && t.total.window == t.outbound.window + t.inbound.window
  {
    EveryRunRefines(now, es);
    NodeCounts(After(Initial(now), es), WindowAfter([], Initial(now), es), n);
  }

  lemma NodeCounts(m: Monitor, h: seq<Arrival>, n: NodeId)
    requires Refines(m, h) && n in m.nodes
    ensures m.nodes[n].outbound.window == SentBy(h, n) && m.nodes[n].inbound.window == ReceivedBy(h, n)
    ensures m.nodes[n].total.window == SentBy(h, n) + ReceivedBy(h, n)
  {
    assert QueueOf(m, NodeSlot(n)) == Proj(NodeSlot(n), h);
    CounterIsSum(m, NodeSlot(n), Out);
    CounterIsSum(m, NodeSlot(n), In);
    CounterIsSum(m, NodeSlot(n), All);
    NodeBytes(h, n);
  }

  /** The packets that a refresh leaves in the window are those stamped less than the averaging time ago. */
  lemma {:induction false} YoungerIff(h: seq<Arrival>, now: int, expire: real, a: Arrival)
    ensures a in Younger(h, now, expire) <==> a in h && (now - a.info.timestamp) as real < expire * 1000.0
  {
    if h != [] {
      YoungerIff(h[1..], now, expire, a);
      assert h == [h[0]] + h[1..];
    }
  }

  // Averages over so many milliseconds, in bits per second: eight bits for each byte
  ghost predicate Rated(t: Traffic, sent: nat, received: nat, averaging: real) {
    var seconds := averaging / 1000.0;
    && t.outbound.average * seconds == 8.0 * sent as real
    && t.inbound.average * seconds == 8.0 * received as real
    && t.total.average * seconds == 8.0 * (sent + received) as real
  }

  /** So what is displayed after a refresh: the rates of a node are those of the bytes that it sent, that it received, and
      of both, within the averaging time. */
  lemma NodeRates(start: int, es: seq<Event>, e: Event, n: NodeId)
    requires Possible(Initial(start), es) && RunInOrder(Initial(start), [], es) && e.EvRound? && After(Initial(start), es).status == Play
    requires InOrder(WindowAfter([], Initial(start), es), Play, e) && e.prefs.averaging > 0.0
    requires AllShaped(After(Initial(start), es)) && n in Step(After(Initial(start), es), e).nodes
    ensures var w := Younger(WindowAfter([], Initial(start), es), e.now, e.prefs.averaging);
            Rated(Step(After(Initial(start), es), e).nodes[n], SentBy(w, n), ReceivedBy(w, n), e.prefs.averaging)
  {
    hide Refines, AveragesRight, Step, InOrder, Younger, Rated, After, WindowAfter, Possible, RunInOrder;
    var m, h := After(Initial(start), es), WindowAfter([], Initial(start), es);
    EveryRunRefines(start, es);
    StepRefinesIff(m, h, e);
    RoundWindow(h, e);
    NodeCounts(Step(m, e), WindowStep(h, Play, e), n);
    RefreshedAverages(start, es, e);
    var w := Younger(h, e.now, e.prefs.averaging);
    Rates(Step(m, e).nodes[n], SentBy(w, n), ReceivedBy(w, n), e.prefs.averaging);
  }

  lemma RoundWindow(h: seq<Arrival>, e: Event)
    requires e.EvRound?
    ensures WindowStep(h, Play, e) == Younger(h, e.now, e.prefs.averaging)
  {}

  lemma Rates(t: Traffic, sent: nat, received: nat, ms: real)
    requires AveragesRight(t, ms) && ms > 0.0
    requires t.outbound.window == sent && t.inbound.window == received && t.total.window == sent + received
    ensures Rated(t, sent, received, ms)
  {
    Rate(sent, ms);
    Rate(received, ms);
    Rate(sent + received, ms);
  }

  lemma Rate(bytes: int, ms: real)
    requires ms > 0.0
    ensures (8000.0 * bytes as real / ms) * (ms / 1000.0) == 8.0 * bytes as real
  {
    var x := 8000.0 * bytes as real;
    assert x / ms * (ms / 1000.0) == (x / ms * ms) / 1000.0 == x / 1000.0;
  }

  // ---- references ----

  function Refs(p: PacketInfo, m: Monitor): Slot -> int {
    s => Count(p, QueueOf(m, s))
  }

  function RefsInWindow(p: PacketInfo, h: seq<Arrival>): Slot -> int {
    s => Count(p, Proj(s, h))
  }

  function RefsInItems(p: PacketInfo, a: Arrival): Slot -> int {
    s => Count(p, Items(s, a))
  }

  // How many packets of the window are this one.
  function Occurs(p: PacketInfo, h: seq<Arrival>): nat {
    if h == [] then 0 else (if h[0].info == p then 1 else 0) + Occurs(p, h[1..])
  }

  lemma {:induction false} OccursOnce(p: PacketInfo, h: seq<Arrival>)
    requires WindowOk(h)
    ensures Occurs(p, h) == if exists a :: a in h && a.info == p then 1 else 0
  {
    if h != [] {
      OccursOnce(p, h[1..]);
      assert h[0] in h && forall a | a in h[1..] :: a in h;
      assert forall a | a in h :: a == h[0] || a in h[1..];
    }
  }

  lemma OneItemCount(p: PacketInfo, a: Arrival, s: Slot)
    ensures var w := if a.info == p then 1 else 0;
            Count(p, Items(s, a)) ==
            match s
            case NodeSlot(n) => (if a.src == n then w else 0) + (if a.dst == n then w else 0)
            case LinkSlot(l) => if LinkOf(a.src, a.dst) == l then w else 0
            case SummarySlot => w
  {
    var (i, o) := if s.NodeSlot? then NodeItems(s.node, a) else ([], []);
    CountAppend(p, i, o);
    assert forall x: QueueItem :: [x][1..] == [];
  }

  lemma ArrivalRefs(p: PacketInfo, a: Arrival, ks: seq<Slot>)
    requires Distinct(ks) && forall side: Side :: Home(side, a) in ks
    ensures Total(ks, RefsInItems(p, a)) == if a.info == p then 4 else 0
  {
    var w := if a.info == p then 1 else 0;
    var f1, f2 := At(Home(Senders, a), w), At(Home(Receivers, a), w);
    var f3, f4 := At(Home(Links, a), w), At(Home(Whole, a), w);
    var g2: Slot -> int := s => f1(s) + f2(s);
    var g3: Slot -> int := s => g2(s) + f3(s);
    forall s ensures RefsInItems(p, a)(s) == g3(s) + f4(s) {
      OneItemCount(p, a, s);
    }
    TotalAdd(ks, g3, f4, RefsInItems(p, a));
    TotalAdd(ks, g2, f3, g3);
    TotalAdd(ks, f1, f2, g2);
    TotalOne(ks, f1, Home(Senders, a), w);
    TotalOne(ks, f2, Home(Receivers, a), w);
    TotalOne(ks, f3, Home(Links, a), w);
    TotalOne(ks, f4, Home(Whole, a), w);
    assert Home(Senders, a) in ks && Home(Receivers, a) in ks && Home(Links, a) in ks && Home(Whole, a) in ks;
  }

  lemma {:induction false} WindowRefs(p: PacketInfo, h: seq<Arrival>, ks: seq<Slot>)
    requires Distinct(ks) && forall a, side: Side | a in h :: Home(side, a) in ks
    ensures Total(ks, RefsInWindow(p, h)) == 4 * Occurs(p, h)
  {
    if h == [] {
      TotalOne(ks, RefsInWindow(p, h), SummarySlot, 0);
    } else {
      assert h[0] in h;
      WindowRefs(p, h[1..], ks);
      ArrivalRefs(p, h[0], ks);
      forall s | s in ks ensures RefsInWindow(p, h)(s) == RefsInItems(p, h[0])(s) + RefsInWindow(p, h[1..])(s) {
        CountAppend(p, Items(s, h[0]), Proj(s, h[1..]));
      }
      TotalAdd(ks, RefsInItems(p, h[0]), RefsInWindow(p, h[1..]), RefsInWindow(p, h));
    }
  }

  // ks lists every slot with packets, and no slot twice.
  ghost predicate Covers(m: Monitor, ks: seq<Slot>) {
    Distinct(ks) && forall s: Slot :: QueueOf(m, s) != [] ==> s in ks
  }

  /** The queues that are views of a window together hold exactly four items for each packet of the window, and none
      for any other packet. */
  lemma FourReferences(m: Monitor, h: seq<Arrival>, ks: seq<Slot>, p: PacketInfo)
    requires Refines(m, h) && Covers(m, ks)
    ensures Total(ks, Refs(p, m)) == if exists a :: a in h && a.info == p then 4 else 0
  {
    forall a, side: Side | a in h ensures Home(side, a) in ks {
      HomeIsUsed(side, h, a);
      assert QueueOf(m, Home(side, a)) == Proj(Home(side, a), h);
    }
    forall s | s in ks ensures Refs(p, m)(s) == RefsInWindow(p, h)(s) {
      assert QueueOf(m, s) == Proj(s, h);
    }
    TotalSame(ks, Refs(p, m), RefsInWindow(p, h));
    WindowRefs(p, h, ks);
    OccursOnce(p, h);
  }

  // ---- the life of a capture ----

  /** In every run the catalogs are open exactly while the capture is not stopped: so opening them finds
      them closed, and a packet finds them open. A stopped capture holds nothing. The new nodes are
      nodes of the catalog, each once. */
  lemma LifecycleOfRuns(now: int, es: seq<Event>, e: Event)
    requires Possible(Initial(now), es)
    ensures var m, h := After(Initial(now), es), WindowAfter([], Initial(now), es);
            && (m.open <==> m.status != Stop)
            && (Enabled(m, e) && e.EvPacket? ==> m.open)
            && (m.status == Stop ==> m.nodes == map[] && m.links == map[] && m.summary == None && m.newNodes == [] && h == [])
            && NewNodesOk(m)
  {
    EveryRunKeeps(now, es);
  }

  /** In every run there is at most one link between two nodes, whichever way round they are named. */
  lemma OneLinkPerPair(now: int, es: seq<Event>, l: LinkId, k: LinkId)
    requires Possible(Initial(now), es)
    requires l in After(Initial(now), es).links && k in After(Initial(now), es).links
    requires {l.src, l.dst} == {k.src, k.dst}
    ensures l == k
  {
    EveryRunKeeps(now, es);
    assert l.src in {l.src, l.dst} && l.dst in {l.src, l.dst} && k.src in {l.src, l.dst} && k.dst in {l.src, l.dst};
    CompareIsTotalOrder(l.src, l.dst, l.dst);
    if Compare(l.src, l.dst) == 0 {
      CanonicalEquality(l.src, l.dst);
    }
  }

  /** After a refresh of a running capture every average on display is the one its counter calls for. */
  lemma RefreshedAverages(now: int, es: seq<Event>, e: Event)
    requires Possible(Initial(now), es) && e.EvRound? && Enabled(After(Initial(now), es), e)
    requires After(Initial(now), es).status == Play
    ensures var m := After(Initial(now), es);
            && AllShaped(m)
            && var r := Step(m, e);
            && (forall n | n in r.nodes :: AveragesRight(r.nodes[n], e.prefs.averaging))
            && (forall l | l in r.links :: AveragesRight(r.links[l], e.prefs.averaging))
            && (r.summary.Some? ==> AveragesRight(r.summary.value, e.prefs.averaging))
  {
    hide AveragesRight, Update, Refresh;
    var m, p := After(Initial(now), es), e.prefs;
    EveryRunKeeps(now, es);
    SoundShape(m);
    forall n | n in m.nodes ensures AveragesRight(Later(m.nodes[n], e.now, ForNodes(p)), p.averaging) {
      RefreshSound(m.nodes[n], e.now, p.averaging, p.protoNode);
    }
    forall l | l in m.links ensures AveragesRight(Later(m.links[l], e.now, ForLinks(p)), p.averaging) {
      RefreshSound(m.links[l], e.now, p.averaging, p.protoLink);
    }
    if m.summary.Some? {
      RefreshSound(m.summary.value, e.now, p.averaging, p.proto);
    }
  }
}
