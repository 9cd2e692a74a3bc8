/** The whole accounting of a capture as a value: one traffic queue per node and per link and one for
    the summary (src/decode_proto.c:262-356, src/node.c:230-281, src/links.c:174-218,
    src/protocols.c:486-528, src/capture.c:261-380). */
module MonitorSpec {
  import opened Wrappers
  import opened BasicStats
  import opened Protocols
  import opened Traffic
  import opened NodeIds

  datatype Status = Stop | Play | Pause | CapEof

  // The times of preferences that the accounting uses, in milliseconds; zero switches a timeout off.
  datatype Prefs = Prefs(averaging: real, nodeTimeout: real, linkTimeout: real,
                         protoNode: real, protoLink: real, proto: real)

  datatype Monitor = Monitor(status: Status, open: bool, nodes: map<NodeId, Traffic>, links: map<LinkId, Traffic>,
                             summary: Option<Traffic>, newNodes: seq<NodeId>, now: int)

  // Before the first capture
  function Initial(now: int): Monitor {
    Monitor(Stop, false, map[], map[], None, [], now)
  }

  // A packet between two nodes
  datatype Arrival = Arrival(info: PacketInfo, src: NodeId, dst: NodeId)

  predicate ArrivalOk(a: Arrival) {
    StackOk(a.info.names) && Canonical(a.src) && Canonical(a.dst)
  }

  predicate AllShaped(m: Monitor) {
    && (forall n | n in m.nodes :: Shaped(m.nodes[n]))
    && (forall l | l in m.links :: Shaped(m.links[l]))
    && (m.summary.Some? ==> Shaped(m.summary.value))
  }

  // add_node_packet
  function AddToNode(m: Monitor, n: NodeId, it: QueueItem): Monitor
    requires |it.info.names| == LEVELS && (n in m.nodes ==> |m.nodes[n].protos| == LEVELS)
  {
    var t := Add(if n in m.nodes then m.nodes[n] else Init(m.now), it, m.now);
    m.(nodes := m.nodes[n := t], newNodes := if |t.queue| == 1 then [n] + m.newNodes else m.newNodes)
  }

  // links_catalog_add_packet
  function AddToLink(m: Monitor, l: LinkId, it: QueueItem): Monitor
    requires |it.info.names| == LEVELS && (l in m.links ==> |m.links[l].protos| == LEVELS)
  {
    m.(links := m.links[l := Add(if l in m.links then m.links[l] else Init(m.now), it, m.now)])
  }

  // protocol_summary_add_packet
  function AddToSummary(m: Monitor, it: QueueItem): Monitor
    requires |it.info.names| == LEVELS && (m.summary.Some? ==> |m.summary.value.protos| == LEVELS)
  {
    m.(summary := Some(Add(if m.summary.Some? then m.summary.value else Init(m.now), it, m.now)))
  }

  // packet_acquired, at time a.info.timestamp
  function Acquire(m: Monitor, a: Arrival): Monitor
    requires AllShaped(m) && |a.info.names| == LEVELS
  {
    var m0 := m.(now := a.info.timestamp);
    var m1 := AddToNode(m0, a.src, QueueItem(a.info, Outbound));
    var m2 := AddToNode(m1, a.dst, QueueItem(a.info, Inbound));
    var m3 := AddToLink(m2, LinkOf(a.src, a.dst), QueueItem(a.info, LinkDirection(a.src, a.dst)));
    AddToSummary(m3, QueueItem(a.info, Eitherbound))
  }

  // What a refresh of one catalog goes by
  datatype Limits = Limits(averaging: real, proto: real, timeout: real)

  function ForNodes(p: Prefs): Limits {
    Limits(p.averaging, p.protoNode, p.nodeTimeout)
  }

  function ForLinks(p: Prefs): Limits {
    Limits(p.averaging, p.protoLink, p.linkTimeout)
  }

  // The queue after node_update or update_link
  function Later(t: Traffic, now: int, k: Limits): Traffic
    requires Shaped(t)
  {
    Refresh(t, now, k.averaging, k.proto)
  }

  // It has no packets, and its last one is too old.
  predicate TimedOut(t: Traffic, now: int, timeout: real) {
    t.queue == [] && timeout != 0.0 && Ms(now, t.total.lastTime) >= timeout
  }

  // nodes_catalog_update_all, apart from the list of new nodes, and links_catalog_update_all
  function CatalogLater<K(==)>(c: map<K, Traffic>, now: int, k: Limits): map<K, Traffic>
    requires forall x | x in c :: Shaped(c[x])
  {
    map x | x in c && !TimedOut(Later(c[x], now, k), now, k.timeout) :: Later(c[x], now, k)
  }

  // One refresh of a running capture: nodes, then the list of new nodes is drained, then links, then the summary.
  function Round(m: Monitor, now: int, p: Prefs): Monitor
    requires AllShaped(m)
  {
    m.(now := now, nodes := CatalogLater(m.nodes, now, ForNodes(p)), newNodes := [], links := CatalogLater(m.links, now, ForLinks(p)),
       summary := if m.summary.Some? then Some(Update(m.summary.value, now, p.averaging, p.proto)) else None)
  }

  // start_capture
  function Start(m: Monitor): Monitor {
    match m.status
    case Play => m
    case Stop => m.(status := Play, open := true, nodes := map[], links := map[], summary := Some(Init(m.now)))
    case _ => m.(status := Play)
  }

  // stop_capture
  function StopCapture(m: Monitor): Monitor {
    if m.status == Stop then m
    else m.(status := Stop, open := false, nodes := map[], links := map[], summary := None, newNodes := [])
  }

  datatype Event =
    | EvStart
    | EvPause(removed: bool)
    | EvEof
    | EvPacket(arrival: Arrival)
    | EvRound(now: int, prefs: Prefs)
    | EvClock(now: int)
    | EvStop

  // Packets arrive while a capture is open and in new memory. About time nothing is assumed: packets are stamped by
  // the capture library, and the program reads its own clock at refreshes and in between.
  ghost predicate Enabled(m: Monitor, e: Event) {
    match e
    case EvPacket(a) =>
      && m.status != Stop && ArrivalOk(a)
      && (forall it | it in QueueOf(m, SummarySlot) :: it.info != a.info)
    case EvEof => m.status != Stop
    case _ => true
  }

  function Step(m: Monitor, e: Event): Monitor
    requires AllShaped(m) && Enabled(m, e)
  {
    match e
    case EvStart => Start(m)
    case EvPause(removed) => if m.status == Play && removed then m.(status := Pause) else m
    case EvEof => m.(status := CapEof)
    case EvPacket(a) => Acquire(m, a)
    case EvRound(now, p) => if m.status == Play || m.status == Stop then Round(m, now, p) else m
    case EvClock(now) => m.(now := now)
    case EvStop => StopCapture(m)
  }

  // ---- the queues of a monitor ----

  datatype Slot = NodeSlot(node: NodeId) | LinkSlot(link: LinkId) | SummarySlot

  // The traffic of a slot, if there is one
  function Get(m: Monitor, s: Slot): Option<Traffic> {
    match s
    case NodeSlot(n) => if n in m.nodes then Some(m.nodes[n]) else None
    case LinkSlot(l) => if l in m.links then Some(m.links[l]) else None
    case SummarySlot => m.summary
  }

  function QueueOf(m: Monitor, s: Slot): Queue {
    match s
    case NodeSlot(n) => if n in m.nodes then m.nodes[n].queue else []
    case LinkSlot(l) => if l in m.links then m.links[l].queue else []
    case SummarySlot => if m.summary.Some? then m.summary.value.queue else []
  }

  // What one packet puts into a queue, newest item first.
  function Items(s: Slot, a: Arrival): Queue {
    match s
    case NodeSlot(n) =>
      (if a.dst == n then [QueueItem(a.info, Inbound)] else []) + (if a.src == n then [QueueItem(a.info, Outbound)] else [])
    case LinkSlot(l) => if LinkOf(a.src, a.dst) == l then [QueueItem(a.info, LinkDirection(a.src, a.dst))] else []
    case SummarySlot => [QueueItem(a.info, Eitherbound)]
  }

  // What a series of packets, newest first, puts into a queue.
  function Proj(s: Slot, h: seq<Arrival>): Queue {
    if h == [] then [] else Items(s, h[0]) + Proj(s, h[1..])
  }

  // ---- one window of packets, which is what the monitor implements ----

  function Younger(h: seq<Arrival>, now: int, expire: real): seq<Arrival> {
    if h == [] then []
    else if Ms(now, h[0].info.timestamp) >= expire then Younger(h[1..], now, expire)
    else [h[0]] + Younger(h[1..], now, expire)
  }

  // The window after an event, for a capture in the given status
  function WindowStep(h: seq<Arrival>, status: Status, e: Event): seq<Arrival> {
    match e
    case EvPacket(a) => [a] + h
    case EvRound(now, p) => if status == Play then Younger(h, now, p.averaging) else h
    case EvStop => []
    case _ => h
  }

  // ---- runs ----

  // Events that can follow one another. (Step only needs shaped queues, and they always are: SoundShape.)
  ghost predicate Possible(m: Monitor, es: seq<Event>)
    decreases |es|
  {
    es == [] || (AllShaped(m) && Enabled(m, es[0]) && Possible(Step(m, es[0]), es[1..]))
  }

  ghost function After(m: Monitor, es: seq<Event>): Monitor
    requires Possible(m, es)
    decreases |es|
  {
    if es == [] then m else After(Step(m, es[0]), es[1..])
  }

  ghost function WindowAfter(h: seq<Arrival>, m: Monitor, es: seq<Event>): seq<Arrival>
    requires Possible(m, es)
    decreases |es|
  {
    if es == [] then h else WindowAfter(WindowStep(h, m.status, es[0]), Step(m, es[0]), es[1..])
  }
}
