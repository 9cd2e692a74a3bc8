/** Which nodes and links a capture knows, told by its packets (src/node.c:231-281, src/node.c:416-472, src/links.c:175-218,
    src/decode_proto.c:328-356), and what starting and pausing do to it (src/capture.c:261-338). */
module CatalogRuns {
  import opened Wrappers
  import opened BasicStats
  import Protocols
  import opened Traffic
  import opened NodeIds
  import opened MonitorSpec
  import opened MonitorRuns
  import L = TrafficRuns
  import opened QueueLives

  // ---- the last packet ----

  // The stamp of the last packet that went from or to the node
  function LastOfNode(es: seq<Event>, n: NodeId, last: int): int
    decreases |es|
  {
    if es == [] then last
    else LastOfNode(es[1..], n, if es[0].EvPacket? && n in {es[0].arrival.src, es[0].arrival.dst} then es[0].arrival.info.timestamp else last)
  }

  // The stamp of the last packet between two nodes, either way
  function LastOfPair(es: seq<Event>, a: NodeId, b: NodeId, last: int): int
    decreases |es|
  {
    if es == [] then last
    else LastOfPair(es[1..], a, b, if es[0].EvPacket? && {es[0].arrival.src, es[0].arrival.dst} == {a, b} then es[0].arrival.info.timestamp else last)
  }

  function LastTime(life: Life): int {
    L.LastAdded(All, life.ops, life.start)
  }

  lemma {:induction false} AdditionsLast(q: Queue, now: int, ops: seq<L.Op>, start: int)
    requires q != []
    ensures L.LastAdded(All, Additions(q, now) + ops, start) == now
  {
    assert Additions(q, now) + ops == [L.Added(q[0], now)] + (Additions(q[1..], now) + ops);
  }

  lemma NextLast(m: Monitor, e: Event, s: Slot, life: Life)
    requires !s.SummarySlot?
    ensures LastTime(NextLife(m, e, s, life)) == if e.EvPacket? && Items(s, e.arrival) != [] then e.arrival.info.timestamp else LastTime(life)
  {
    if e.EvPacket? && Items(s, e.arrival) != [] {
      var q, now := Items(s, e.arrival), e.arrival.info.timestamp;
      AdditionsLast(q, now, life.ops, life.start);
      AdditionsLast(q, now, [], now);
      assert Additions(q, now) + [] == Additions(q, now);
    } else if e.EvRound? && m.status == Play {
      assert NextLife(m, e, s, life).ops[1..] == life.ops;
    }
  }

  lemma {:induction false} LastIsOfNode(m: Monitor, es: seq<Event>, n: NodeId, life: Life)
    requires Possible(m, es)
    ensures LastTime(LifeOf(m, es, NodeSlot(n), life)) == LastOfNode(es, n, LastTime(life))
    decreases |es|
  {
    hide Step, Enabled, NextLife;
    if es != [] {
      NextLast(m, es[0], NodeSlot(n), life);
      LastIsOfNode(Step(m, es[0]), es[1..], n, NextLife(m, es[0], NodeSlot(n), life));
    }
  }

  // The link is that of its two nodes, the lesser first.
  ghost predicate Ordered(l: LinkId) {
    Compare(l.src, l.dst) <= 0 && Canonical(l.src) && Canonical(l.dst)
  }

  lemma LinkIsOfPair(l: LinkId, a: Arrival)
    requires Ordered(l) && ArrivalOk(a)
    ensures Items(LinkSlot(l), a) != [] <==> {a.src, a.dst} == {l.src, l.dst}
  {
    LinkOfIsUnordered(a.src, a.dst, l.src, l.dst);
    LinkOfIsUnordered(l.src, l.dst, a.src, a.dst);
    if {a.src, a.dst} == {l.src, l.dst} {
      assert a.src in {l.src, l.dst} && a.dst in {l.src, l.dst} && l.src in {a.src, a.dst} && l.dst in {a.src, a.dst};
    }
  }

  lemma {:induction false} LastIsOfPair(m: Monitor, es: seq<Event>, l: LinkId, life: Life)
    requires Possible(m, es) && Ordered(l)
    ensures LastTime(LifeOf(m, es, LinkSlot(l), life)) == LastOfPair(es, l.src, l.dst, LastTime(life))
    decreases |es|
  {
    hide Step, NextLife, Items, Ordered, ArrivalOk, QueueOf;
    if es != [] {
      NextLast(m, es[0], LinkSlot(l), life);
      if es[0].EvPacket? {
        LinkIsOfPair(l, es[0].arrival);
      }
      LastIsOfPair(Step(m, es[0]), es[1..], l, NextLife(m, es[0], LinkSlot(l), life));
    }
  }

  // ---- when nodes and links go ----

  lemma {:induction false} AllPopped(q: Queue, now: int, expire: real)
    ensures Popped(q, now, expire) == [] <==> forall it | it in q :: (now - it.info.timestamp) as real >= expire * 1000.0
    decreases |q|
  {
    if q != [] {
      var n := |q| - 1;
      assert q[n] in q && q == q[..n] + [q[n]];
      if Expired(q[n], now, expire) {
        AllPopped(q[..n], now, expire);
      }
    }
  }

  // A packet of the queue is still in the averaging window.
  ghost predicate AnyRecent(q: Queue, now: int, averaging: real) {
    exists it :: it in q && (now - it.info.timestamp) as real < averaging * 1000.0
  }

  // A queue times out when no packet is recent and the last one is too old.
  lemma TimesOutIff(t: Traffic, life: Life, now: int, k: Limits)
    requires Sound(t) && Lived(t, life)
    ensures Shaped(t)
    ensures TimedOut(Later(t, now, k), now, k.timeout) <==>
            !AnyRecent(t.queue, now, k.averaging) && k.timeout != 0.0 && (now - LastTime(life)) as real >= k.timeout * 1000.0
  {
    hide Sound, L.Run, Refresh, Update, L.Records;
    var op := L.Refreshed(now, k.averaging, k.proto);
    RoundLives(t, life, op);
    RefreshSound(t, now, k.averaging, k.proto);
    AllPopped(t.queue, now, k.averaging);
    L.LifeIsRecorded([op] + life.ops, life.start, All);
    RecordsLast(Later(t, now, k), [op] + life.ops, life.start);
    assert ([op] + life.ops)[1..] == life.ops;
  }

  lemma RecordsLast(t: Traffic, ops: seq<L.Op>, start: int)
    requires L.Records(L.StatOf(t, All), L.BytesAdded(All, ops), L.PacketsAdded(All, ops), L.LastAdded(All, ops, start))
    ensures t.total.lastTime == L.LastAdded(All, ops, start)
  {}

  /** In every run, a node that the capture knows is still known after a refresh exactly if one of its packets is in the
      averaging window, or there is no timeout for nodes, or the last packet from or to it came less than the timeout
      ago. No other node is known. */
  lemma NodesStayIff(start: int, es: seq<Event>, e: Event, n: NodeId)
    requires Refreshing(start, es, e)
    ensures var m, p := After(Initial(start), es), e.prefs;
            n in Step(m, e).nodes <==>
              && n in m.nodes
              && (AnyRecent(QueueOf(m, NodeSlot(n)), e.now, p.averaging) || p.nodeTimeout == 0.0
                  || (e.now - LastOfNode(es, n, start)) as real < p.nodeTimeout * 1000.0)
  {
    hide Lived, Sound, Later, AnyRecent, Possible, After;
    var m := After(Initial(start), es);
    EveryRunKeeps(start, es);
    if n in m.nodes {
      EveryQueueLives(start, es, NodeSlot(n));
      LastIsOfNode(Initial(start), es, n, Life([], start));
      TimesOutIff(m.nodes[n], LifeIn(start, es, NodeSlot(n)), e.now, ForNodes(e.prefs));
    }
  }

  /** And a link exactly if one of its packets is in the averaging window, or there is no timeout for links, or the last
      packet between its two nodes, either way, came less than the timeout ago. */
  lemma LinksStayIff(start: int, es: seq<Event>, e: Event, l: LinkId)
    requires Refreshing(start, es, e)
    ensures var m, p := After(Initial(start), es), e.prefs;
            l in Step(m, e).links <==>
              && l in m.links
              && (AnyRecent(QueueOf(m, LinkSlot(l)), e.now, p.averaging) || p.linkTimeout == 0.0
                  || (e.now - LastOfPair(es, l.src, l.dst, start)) as real < p.linkTimeout * 1000.0)
  {
    hide Lived, Sound, Later, AnyRecent, Possible, After;
    var m := After(Initial(start), es);
    EveryRunKeeps(start, es);
    if l in m.links {
      EveryQueueLives(start, es, LinkSlot(l));
      LastIsOfPair(Initial(start), es, l, Life([], start));
      TimesOutIff(m.links[l], LifeIn(start, es, LinkSlot(l)), e.now, ForLinks(e.prefs));
    }
  }

  // ---- new nodes ----

  /** A packet puts on the list of new nodes exactly those of its two nodes that had no packets. */
  lemma NewNodesIff(m: Monitor, a: Arrival, n: NodeId)
    requires WellKept(m) && m.open && ArrivalOk(a)
    ensures AllShaped(m)
    ensures n in Acquire(m, a).newNodes <==> n in m.newNodes || (n in {a.src, a.dst} && QueueOf(m, NodeSlot(n)) == [])
  {
    hide LinkOf, Sound, AddBytes, Protocols.AddStack;
    SoundShape(m);
  }

  // ---- starting and pausing ----

  /** A paused capture runs again as it was: whatever refreshes are due meanwhile leave it alone. */
  lemma PausedRunsAgain(m: Monitor, now: int, p: Prefs)
    requires WellKept(m) && m.status == Play
    ensures AllShaped(m)
    ensures var q := Step(m, EvPause(true));
            q.status == Pause && AllShaped(q) && Step(q, EvRound(now, p)) == q && Step(q, EvStart) == m
  {
    SoundShape(m);
  }

  /** Pausing, resuming, the end of the file and reading the clock leave every queue alone. Starting makes any capture
      play, one that was stopped without nodes, links and packets; a capture that is paused or at its end is not
      refreshed; and only a playing capture whose source can be removed is paused. */
  lemma SwitchesKeepQueues(m: Monitor, e: Event, s: Slot)
    requires WellKept(m) && Enabled(m, e) && !e.EvPacket? && !e.EvStop?
    ensures AllShaped(m)
    ensures !e.EvRound? && !(e.EvStart? && m.status == Stop) ==> Get(Step(m, e), s) == Get(m, s)
    ensures e.EvStart? ==> Step(m, e).status == Play && Step(m, e).open && (m.status == Stop ==> QueueOf(Step(m, e), s) == [])
    ensures e.EvRound? && m.status in {Pause, CapEof} ==> Step(m, e) == m
    ensures e.EvPause? ==> Step(m, e).status == if m.status == Play && e.removed then Pause else m.status
  {
    SoundShape(m);
  }
}
