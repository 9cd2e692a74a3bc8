/** Every queue of a capture lives one of the lives of TrafficRuns.dfy: what a run of packets, refreshes and stops does to
    the queue of a node, of a link and of the summary is a series of additions and updates, with the preferences for
    that kind of queue (src/decode_proto.c:262-321, src/node.c:231-281, src/links.c:175-218, src/protocols.c:486-528).
    So what is proved of lives holds of every queue in every run. */
module QueueLives {
  import opened Wrappers
  import opened BasicStats
  import opened Protocols
  import opened Traffic
  import opened NodeIds
  import opened MonitorSpec
  import opened MonitorRuns
  import L = TrafficRuns

  // The operations on a queue since it was started, the newest first
  datatype Life = Life(ops: seq<L.Op>, start: int)

  ghost predicate Lived(t: Traffic, life: Life) {
    L.Decoded(life.ops) && L.WellFormed(life.ops) && t == L.Run(life.ops, life.start)
  }

  function Additions(q: Queue, now: int): seq<L.Op> {
    if q == [] then [] else [L.Added(q[0], now)] + Additions(q[1..], now)
  }

  // A packet that puts items into a queue that does not exist yet starts it.
  function NextLife(m: Monitor, e: Event, s: Slot, life: Life): Life {
    match e
    case EvPacket(a) =>
      var now, items := a.info.timestamp, Items(s, a);
      if items == [] then life
      else if Get(m, s).Some? then Life(Additions(items, now) + life.ops, life.start)
      else Life(Additions(items, now), now)
    case EvRound(now, p) =>
      if m.status != Play then life
      else
        var op := match s
          case NodeSlot(_) => L.Refreshed(now, p.averaging, p.protoNode)
          case LinkSlot(_) => L.Refreshed(now, p.averaging, p.protoLink)
          case SummarySlot => L.Updated(now, p.averaging, p.proto);
        life.(ops := [op] + life.ops)
    case EvStart => if s.SummarySlot? && m.status == Stop then Life([], m.now) else life
    case _ => life
  }

  ghost function LifeOf(m: Monitor, es: seq<Event>, s: Slot, life: Life): Life
    requires Possible(m, es)
    decreases |es|
  {
    if es == [] then life else LifeOf(Step(m, es[0]), es[1..], s, NextLife(m, es[0], s, life))
  }

  lemma AddLives(t: Traffic, life: Life, it: QueueItem, now: int)
    requires Lived(t, life) && ItemOk(it)
    ensures |t.protos| == LEVELS && Lived(Add(t, it, now), Life([L.Added(it, now)] + life.ops, life.start))
  {
    assert ([L.Added(it, now)] + life.ops)[1..] == life.ops;
  }

  lemma StartLives(now: int)
    ensures Lived(Init(now), Life([], now))
  {}

  lemma RoundLives(t: Traffic, life: Life, op: L.Op)
    requires Lived(t, life) && !op.Added?
    ensures Shaped(t)
    ensures Lived(if op.Updated? then Update(t, op.now, op.averaging, op.protoExpire) else Refresh(t, op.now, op.averaging, op.protoExpire),
                  life.(ops := [op] + life.ops))
  {
    hide Update, Refresh;
    assert ([op] + life.ops)[1..] == life.ops;
  }

  // ---- a packet ----

  // The items are added, the last one first, to a queue that is started if need be.
  function AddItems(t: Option<Traffic>, q: Queue, now: int): (r: Option<Traffic>)
    requires (t.Some? ==> |t.value.protos| == LEVELS) && forall it | it in q :: |it.info.names| == LEVELS
    ensures r.Some? ==> |r.value.protos| == LEVELS
  {
    if q == [] then t
    else
      var r := AddItems(t, q[1..], now);
      Some(Add(if r.Some? then r.value else Init(now), q[0], now))
  }

  lemma ItemsNamed(s: Slot, a: Arrival)
    ensures forall it | it in Items(s, a) :: it.info == a.info
  {}

  // What a packet does to the queue of a slot
  lemma AcquireAt(m: Monitor, a: Arrival, s: Slot)
    requires AllShaped(m) && |a.info.names| == LEVELS
    ensures (Get(m, s).Some? ==> |Get(m, s).value.protos| == LEVELS) && forall it | it in Items(s, a) :: |it.info.names| == LEVELS
    ensures Get(Acquire(m, a), s) == AddItems(Get(m, s), Items(s, a), a.info.timestamp)
  {
    hide Add, LinkOf, LinkDirection;
    ItemsNamed(s, a);
    var now, q := a.info.timestamp, Items(s, a);
    if |q| == 2 {
      var t := Get(m, s);
      assert q == [QueueItem(a.info, Inbound), QueueItem(a.info, Outbound)] && q[1..] == [q[1]] && q[1..][1..] == [];
      assert AddItems(t, q[1..], now) == Some(Add(if t.Some? then t.value else Init(now), q[1], now));
    } else if |q| == 1 {
      assert q[1..] == [];
    }
  }

  function LifeWith(t: Option<Traffic>, q: Queue, now: int, life: Life): Life {
    if q == [] then life
    else if t.Some? then Life(Additions(q, now) + life.ops, life.start)
    else Life(Additions(q, now), now)
  }

  lemma {:induction false} ItemsLive(t: Option<Traffic>, q: Queue, now: int, life: Life)
    requires (t.Some? ==> Lived(t.value, life)) && forall it | it in q :: ItemOk(it)
    ensures (t.Some? ==> |t.value.protos| == LEVELS) && forall it | it in q :: |it.info.names| == LEVELS
    ensures var r := AddItems(t, q, now); r.Some? ==> Lived(r.value, LifeWith(t, q, now, life))
  {
    hide Lived, Add, Init;
    LivedIsShaped(t, life);
    if q != [] {
      assert q[0] in q && forall it | it in q[1..] :: it in q;
      ItemsLive(t, q[1..], now, life);
      var r := AddItems(t, q[1..], now);
      StartLives(now);
      AddLives(if r.Some? then r.value else Init(now), if r.Some? then LifeWith(t, q[1..], now, life) else Life([], now), q[0], now);
      var op := L.Added(q[0], now);
      assert [op] + (Additions(q[1..], now) + life.ops) == Additions(q, now) + life.ops;
      assert Additions(q[1..], now) == [] ==> [op] + [] == Additions(q, now);
      assert q[1..] == [] ==> Additions(q, now) == [op] && [op] + life.ops == Additions(q, now) + life.ops;
    }
  }

  lemma LivedIsShaped(t: Option<Traffic>, life: Life)
    requires t.Some? ==> Lived(t.value, life)
    ensures t.Some? ==> |t.value.protos| == LEVELS
  {}

  // ---- every event ----

  lemma RoundAt(m: Monitor, now: int, p: Prefs, s: Slot, life: Life)
    requires WellKept(m) && m.status == Play && (Get(m, s).Some? ==> Lived(Get(m, s).value, life))
    ensures AllShaped(m)
    ensures Get(Round(m, now, p), s).Some? ==> Get(m, s).Some? && Lived(Get(Round(m, now, p), s).value, NextLife(m, EvRound(now, p), s, life))
  {
    hide Lived, Sound, Update, Refresh, TimedOut;
    SoundShape(m);
    if Get(m, s).Some? {
      match s
      case NodeSlot(_) => RoundLives(Get(m, s).value, life, L.Refreshed(now, p.averaging, p.protoNode));
      case LinkSlot(_) => RoundLives(Get(m, s).value, life, L.Refreshed(now, p.averaging, p.protoLink));
      case SummarySlot => RoundLives(Get(m, s).value, life, L.Updated(now, p.averaging, p.proto));
    }
  }

  lemma StepLives(m: Monitor, e: Event, s: Slot, life: Life)
    requires WellKept(m) && Enabled(m, e) && (Get(m, s).Some? ==> Lived(Get(m, s).value, life))
    ensures AllShaped(m)
    ensures Get(Step(m, e), s).Some? ==> Lived(Get(Step(m, e), s).value, NextLife(m, e, s, life))
  {
    hide Lived, Sound, Acquire, Round, Init, AddItems, Additions, QueueOf, LinksOk, NewNodesOk;
    SoundShape(m);
    StartLives(m.now);
    match e
    case EvPacket(a) =>
      AcquireAt(m, a, s);
      PacketItemsOk(s, a);
      ItemsLive(Get(m, s), Items(s, a), a.info.timestamp, life);
    case EvRound(now, p) =>
      if m.status == Play {
        RoundAt(m, now, p, s, life);
      } else if m.status == Stop {
        NothingStopped(m, now, p, s);
      }
    case _ =>
  }

  lemma PacketItemsOk(s: Slot, a: Arrival)
    requires ArrivalOk(a)
    ensures |a.info.names| == LEVELS && forall it | it in Items(s, a) :: ItemOk(it)
  {
    ItemsNamed(s, a);
  }

  lemma NothingStopped(m: Monitor, now: int, p: Prefs, s: Slot)
    requires WellKept(m) && m.status == Stop
    ensures AllShaped(m) && Get(Round(m, now, p), s) == None
  {
    SoundShape(m);
  }

  lemma {:induction false} RunLives(m: Monitor, es: seq<Event>, s: Slot, life: Life)
    requires WellKept(m) && Possible(m, es) && (Get(m, s).Some? ==> Lived(Get(m, s).value, life))
    ensures Get(After(m, es), s).Some? ==> Lived(Get(After(m, es), s).value, LifeOf(m, es, s, life))
    decreases |es|
  {
    hide WellKept, Lived, Step, Enabled, NextLife;
    if es != [] {
      StepKeeps(m, es[0]);
      StepLives(m, es[0], s, life);
      RunLives(Step(m, es[0]), es[1..], s, NextLife(m, es[0], s, life));
    }
  }

  // The life of a queue in a run from the start of the program
  ghost function LifeIn(now: int, es: seq<Event>, s: Slot): Life
    requires Possible(Initial(now), es)
  {
    LifeOf(Initial(now), es, s, Life([], now))
  }

  /** In every run, the queue of each node and link and that of the summary is what the life of the queue makes of it. */
  lemma EveryQueueLives(now: int, es: seq<Event>, s: Slot)
    requires Possible(Initial(now), es) && Get(After(Initial(now), es), s).Some?
    ensures Lived(Get(After(Initial(now), es), s).value, LifeIn(now, es, s))
  {
    hide Lived;
    RunLives(Initial(now), es, s, Life([], now));
  }

  /** So accumulated bytes, number of packets, mean size and last time of every node, link and summary are those of the
      packets since the queue was started, in each direction. */
  lemma EveryQueueIsRecorded(now: int, es: seq<Event>, s: Slot, sum: Sum)
    requires Possible(Initial(now), es) && Get(After(Initial(now), es), s).Some? && (sum.All? || sum.In? || sum.Out?)
    ensures var life := LifeIn(now, es, s);
            L.Records(L.StatOf(Get(After(Initial(now), es), s).value, sum),
                      L.BytesAdded(sum, life.ops), L.PacketsAdded(sum, life.ops), L.LastAdded(sum, life.ops, life.start))
  {
    hide L.Records, L.Run, Possible, After;
    EveryQueueLives(now, es, s);
    var life := LifeIn(now, es, s);
    L.LifeIsRecorded(life.ops, life.start, sum);
  }

  // The time after which protocols of a queue expire
  function ProtocolTime(p: Prefs, s: Slot): real {
    match s
    case NodeSlot(_) => p.protoNode
    case LinkSlot(_) => p.protoLink
    case SummarySlot => p.proto
  }

  // After the run comes a refresh of the running capture.
  ghost predicate Refreshing(start: int, es: seq<Event>, e: Event) {
    && Possible(Initial(start), es) && AllShaped(After(Initial(start), es)) && e.EvRound? && After(Initial(start), es).status == Play
  }

  // After the run a refresh e of the running capture finds the queue of s, and leaves it in the catalog.
  ghost predicate Refreshes(start: int, es: seq<Event>, e: Event, s: Slot) {
    && Refreshing(start, es, e)
    && Get(After(Initial(start), es), s).Some? && Get(Step(After(Initial(start), es), e), s).Some?
  }

  lemma RefreshLives(start: int, es: seq<Event>, e: Event, s: Slot)
    requires Refreshes(start, es, e, s)
    ensures var m, life := After(Initial(start), es), LifeIn(start, es, s);
            Lived(Get(m, s).value, life) && Lived(Get(Step(m, e), s).value, NextLife(m, e, s, life))
  {
    hide L.Run, Possible, After, Round;
    EveryQueueLives(start, es, s);
    EveryRunKeeps(start, es);
    RoundAt(After(Initial(start), es), e.now, e.prefs, s, LifeIn(start, es, s));
  }

  // A packet with bytes that names the protocol is in the queue.
  ghost predicate Carries(q: Queue, i: nat, name: string) {
    exists it :: it in q && Counts(Named(i, name), it) && it.info.size > 0
  }

  /** In every run, a protocol that a queue lists is still listed after a refresh exactly if the preference for this kind of
      queue is off, or a packet with bytes that names it is left, or the last packet of the queue that named it came less
      than the preference ago. */
  lemma ProtocolStaysInRound(start: int, es: seq<Event>, e: Event, s: Slot, i: nat, name: string)
    requires Refreshes(start, es, e, s) && i < LEVELS
    requires Shaped(Get(After(Initial(start), es), s).value) && Has(Get(After(Initial(start), es), s).value.protos[i], name)
    ensures var m, life, time := After(Initial(start), es), LifeIn(start, es, s), ProtocolTime(e.prefs, s);
            && Shaped(Get(Step(m, e), s).value)
            && (Has(Get(Step(m, e), s).value.protos[i], name) <==>
                time <= 0.0 || Carries(QueueOf(Step(m, e), s), i, name)
                || (e.now - L.LastAdded(Named(i, name), life.ops, life.start)) as real < time * 1000.0)
  {
    hide L.Run, Possible, After, Round;
    var m, life := After(Initial(start), es), LifeIn(start, es, s);
    RefreshLives(start, es, e, s);
    var op := NextLife(m, e, s, life).ops[0];
    L.ProtocolStaysIff(life.ops, life.start, op, i, name);
  }

  /** And if packets are left in the queue of a node or link, the first protocol of each of its levels is the one that
      carried the most bytes there since it was listed. */
  lemma MostUsedInRound(start: int, es: seq<Event>, e: Event, s: Slot, i: nat, p: Protocol)
    requires Refreshes(start, es, e, s) && !s.SummarySlot? && i < LEVELS
    requires var t := Get(Step(After(Initial(start), es), e), s).value; Shaped(t) && t.queue != [] && p in t.protos[i]
    ensures var m := After(Initial(start), es);
            var life, first := NextLife(m, e, s, LifeIn(start, es, s)), Get(Step(m, e), s).value.protos[i][0].name;
            && L.WellFormed(life.ops)
            && L.BytesAdded(Named(i, p.name), L.Since(life.ops, life.start, i, p.name))
               <= L.BytesAdded(Named(i, first), L.Since(life.ops, life.start, i, first))
  {
    hide L.Run, L.Since, Possible, After, Round;
    RefreshLives(start, es, e, s);
    var life := NextLife(After(Initial(start), es), e, s, LifeIn(start, es, s));
    L.MostUsedCarriedMost(life.ops, life.start, i, p);
  }
}
