/** A run in which packets are stamped out of order, as they can be when they are captured on several interfaces
    (src/capture.c:506-510, src/traffic_stats.c:98-136): the accounts do not agree. */
module OutOfOrder {
  import opened BasicStats
  import opened Traffic
  import opened NodeIds
  import opened MonitorSpec
  import opened MonitorRuns
  import opened MonitorTotals

  // The packet a, then the packet b, and a refresh
  function TwoPackets(a: Arrival, b: Arrival, now: int, p: Prefs): seq<Event> {
    [EvStart, EvPacket(a), EvPacket(b), EvRound(now, p)]
  }

  // A playing capture with this window
  ghost predicate Plays(m: Monitor, h: seq<Arrival>) {
    Refines(m, h) && m.status == Play
  }

  lemma Started(start: int)
    ensures Plays(Start(Initial(start)), []) && AllShaped(Initial(start))
  {
    StartRefines(start);
    SwitchRefines(Initial(start), [], EvStart);
  }

  lemma Arrives(m: Monitor, h: seq<Arrival>, a: Arrival)
    requires Plays(m, h) && ArrivalOk(a) && forall b | b in h :: b.info != a.info
    ensures AllShaped(m) && Enabled(m, EvPacket(a)) && Plays(Step(m, EvPacket(a)), [a] + h)
  {
    hide WellKept, Acquire, ArrivalOk;
    assert QueueOf(m, SummarySlot) == Proj(SummarySlot, h);
    forall it | it in QueueOf(m, SummarySlot) ensures it.info != a.info {
      SummaryIsWindow(h);
      var i :| 0 <= i < |h| && Proj(SummarySlot, h)[i] == it;
      assert h[i] in h;
    }
    PacketRefines(m, h, a);
    PacketKeepsStatus(m, a);
  }

  lemma PacketKeepsStatus(m: Monitor, a: Arrival)
    requires AllShaped(m) && Enabled(m, EvPacket(a))
    ensures Step(m, EvPacket(a)).status == m.status
  {}

  lemma PlaysFacts(m: Monitor, h: seq<Arrival>)
    requires Plays(m, h)
    ensures AllShaped(m) && m.status == Play
  {
    RefinesShape(m, h);
  }

  lemma AnyRound(m: Monitor, now: int, p: Prefs)
    ensures Enabled(m, EvRound(now, p)) && Enabled(m, EvStart)
  {}

  // The packets are in the window, a behind b, and a refresh is possible.
  lemma BothArrive(start: int, a: Arrival, b: Arrival, now: int, p: Prefs)
    requires ArrivalOk(a) && ArrivalOk(b) && a.info != b.info
    ensures Possible(Initial(start), TwoPackets(a, b, now, p))
    ensures exists m :: Plays(m, [b, a]) && AllShaped(m) && After(Initial(start), TwoPackets(a, b, now, p)) == Round(m, now, p)
  {
    hide Plays, Acquire, Start, Round, Enabled, AllShaped;
    var es, m0 := TwoPackets(a, b, now, p), Initial(start);
    Started(start);
    var m1 := Start(m0);
    Arrives(m1, [], a);
    var m2 := Step(m1, EvPacket(a));
    assert [a] + [] == [a];
    Arrives(m2, [a], b);
    var m3 := Step(m2, EvPacket(b));
    assert [b] + [a] == [b, a];
    AnyRound(m0, now, p);
    AnyRound(m3, now, p);
    PlaysFacts(m3, [b, a]);
    var last := [EvRound(now, p)];
    assert last[1..] == [] && Possible(Step(m3, last[0]), []) && After(Step(m3, last[0]), []) == Step(m3, last[0]);
    assert Possible(m3, last) && After(m3, last) == Round(m3, now, p);
    assert ([EvPacket(b)] + last)[1..] == last && Possible(m2, [EvPacket(b)] + last);
    assert ([EvPacket(a)] + ([EvPacket(b)] + last))[1..] == [EvPacket(b)] + last && Possible(m1, [EvPacket(a)] + ([EvPacket(b)] + last));
    assert es[1..] == [EvPacket(a)] + ([EvPacket(b)] + last);
    assert After(m0, es) == After(m1, es[1..]) == After(m2, [EvPacket(b)] + last) == After(m3, last);
    assert Plays(m3, [b, a]) && AllShaped(m3) && After(m0, es) == Round(m3, now, p);
  }

  /** If a is in the averaging window, and b, which was queued after a, is not, the summary keeps both but the link of b
      is empty: the summary counts more than all links together. */
  lemma AccountsDisagree(start: int, a: Arrival, b: Arrival, now: int, p: Prefs, links: seq<Slot>)
    requires ArrivalOk(a) && ArrivalOk(b) && a.info != b.info && LinkOf(a.src, a.dst) != LinkOf(b.src, b.dst)
    requires Old(b, now, p.averaging) && !Old(a, now, p.averaging)
    ensures Possible(Initial(start), TwoPackets(a, b, now, p))
    ensures var m := After(Initial(start), TwoPackets(a, b, now, p));
            && Counter(m, SummarySlot, All) == a.info.size + b.info.size
            && (Lists(m, Links, links) ==> Total(links, Counters(m, All)) == a.info.size)
  {
    hide Plays, Possible, Round, LinkOf, ArrivalOk, After;
    BothArrive(start, a, b, now, p);
    var r := After(Initial(start), TwoPackets(a, b, now, p));
    var m :| Plays(m, [b, a]) && AllShaped(m) && r == Round(m, now, p);
    AfterRound(m, a, b, now, p);
    if Lists(r, Links, links) {
      var home := LinkSlot(LinkOf(a.src, a.dst));
      assert Belongs(r, Links, home);
      forall s | s in links ensures Counters(r, All)(s) == if s == home then a.info.size else 0 {
        assert Belongs(r, Links, s);
      }
      TotalOne(links, Counters(r, All), home, a.info.size);
    }
  }

  lemma AfterRound(m: Monitor, a: Arrival, b: Arrival, now: int, p: Prefs)
    requires Plays(m, [b, a]) && AllShaped(m) && LinkOf(a.src, a.dst) != LinkOf(b.src, b.dst)
    requires Old(b, now, p.averaging) && !Old(a, now, p.averaging)
    ensures var r := Round(m, now, p);
            && Counter(r, SummarySlot, All) == a.info.size + b.info.size && LinkOf(a.src, a.dst) in r.links
            && forall l | l in r.links :: Counter(r, LinkSlot(l), All) == if l == LinkOf(a.src, a.dst) then a.info.size else 0
  {
    hide WellKept, Round, LinkOf, Popped, Counter, WindowOk, Old, BytesOf, Items, QueueOf;
    var r, h := Round(m, now, p), [b, a];
    RoundQueues(m, now, p);
    TwoItems(a, b, Eitherbound, Eitherbound, now, p.averaging);
    TwoInView(SummarySlot, a, b);
    SummaryItems(a, b);
    assert QueueOf(m, SummarySlot) == Proj(SummarySlot, h);
    CounterIsSum(r, SummarySlot, All);
    forall l: LinkId
      ensures Counter(r, LinkSlot(l), All) == if l == LinkOf(a.src, a.dst) then a.info.size else 0
      ensures l == LinkOf(a.src, a.dst) ==> QueueOf(r, LinkSlot(l)) != []
    {
      TwoInView(LinkSlot(l), a, b);
      assert QueueOf(m, LinkSlot(l)) == Proj(LinkSlot(l), h) == Items(LinkSlot(l), b) + Items(LinkSlot(l), a);
      CounterIsSum(r, LinkSlot(l), All);
      LinkItems(l, a, b, now, p.averaging);
    }
    Listed(r, LinkOf(a.src, a.dst));
  }

  lemma SummaryItems(a: Arrival, b: Arrival)
    ensures Items(SummarySlot, b) + Items(SummarySlot, a) == [QueueItem(b.info, Eitherbound), QueueItem(a.info, Eitherbound)]
  {}

  lemma Listed(m: Monitor, l: LinkId)
    requires QueueOf(m, LinkSlot(l)) != []
    ensures l in m.links
  {}

  lemma TwoInView(s: Slot, a: Arrival, b: Arrival)
    ensures Proj(s, [b, a]) == Items(s, b) + Items(s, a)
  {
    assert [b, a][1..] == [a] && [a][1..] == [];
    assert Proj(s, [a]) == Items(s, a) + Proj(s, []);
  }

  // What is left in the queue of a link
  lemma LinkItems(l: LinkId, a: Arrival, b: Arrival, now: int, expire: real)
    requires LinkOf(a.src, a.dst) != LinkOf(b.src, b.dst) && Old(b, now, expire) && !Old(a, now, expire)
    ensures var q := Popped(Items(LinkSlot(l), b) + Items(LinkSlot(l), a), now, expire);
            if l == LinkOf(a.src, a.dst) then q != [] && BytesOf(All, q) == a.info.size else q == [] && BytesOf(All, q) == 0
  {
    hide LinkOf, Popped, BytesOf, Old;
    TwoItems(a, b, LinkDirection(a.src, a.dst), LinkDirection(b.src, b.dst), now, expire);
    var q := Items(LinkSlot(l), b) + Items(LinkSlot(l), a);
    if l == LinkOf(a.src, a.dst) {
      assert q == [QueueItem(a.info, LinkDirection(a.src, a.dst))];
    } else if l == LinkOf(b.src, b.dst) {
      assert q == [QueueItem(b.info, LinkDirection(b.src, b.dst))];
    } else {
      assert q == [];
    }
  }

  // What is popped off the queues of the two packets
  lemma TwoItems(a: Arrival, b: Arrival, d: Direction, e: Direction, now: int, expire: real)
    requires Old(b, now, expire) && !Old(a, now, expire)
    ensures var x, y := QueueItem(a.info, d), QueueItem(b.info, e);
            && Popped([y, x], now, expire) == [y, x] && BytesOf(All, [y, x]) == a.info.size + b.info.size
            && Popped([x], now, expire) == [x] && BytesOf(All, [x]) == a.info.size && Popped([y], now, expire) == []
    ensures Popped([], now, expire) == [] && BytesOf(All, []) == 0
  {
    var x, y := QueueItem(a.info, d), QueueItem(b.info, e);
    assert [y, x][1..] == [x] && [x][1..] == [] && [y][..0] == [];
    assert BytesOf(All, [x]) == Share(All, x) + BytesOf(All, []) && BytesOf(All, [y, x]) == Share(All, y) + BytesOf(All, [x]);
  }
}
