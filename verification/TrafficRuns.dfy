/** The life of a traffic queue (src/traffic_stats.c, src/basic_stats.c:210-238): the figures that purging does
    not touch always describe all packets ever added. */
module TrafficRuns {
  import opened BasicStats
  import opened Protocols
  import opened Traffic

  datatype Op =
    | Added(it: QueueItem, now: int)
    | Updated(now: int, averaging: real, protoExpire: real)
    | Refreshed(now: int, averaging: real, protoExpire: real)

  function Apply(t: Traffic, op: Op): (r: Traffic)
    requires Shaped(t) && (op.Added? ==> |op.it.info.names| == LEVELS)
    ensures Shaped(r)
  {
    match op
    case Added(it, now) => Add(t, it, now)
    case Updated(now, averaging, protoExpire) => Update(t, now, averaging, protoExpire)
    case Refreshed(now, averaging, protoExpire) => Refresh(t, now, averaging, protoExpire)
  }

  predicate WellFormed(ops: seq<Op>) {
    forall op | op in ops :: op.Added? ==> |op.it.info.names| == LEVELS
  }

  // The queue after the operations, the last of which comes first
  function Run(ops: seq<Op>, start: int): (t: Traffic)
    requires WellFormed(ops)
    ensures Shaped(t)
  {
    if ops == [] then Init(start) else Apply(Run(ops[1..], start), ops[0])
  }

  // ---- what was added in all, in the directions that a sum counts ----

  predicate Adds(sum: Sum, op: Op) {
    op.Added? && Counts(sum, op.it)
  }

  function BytesAdded(sum: Sum, ops: seq<Op>): nat {
    if ops == [] then 0 else (if Adds(sum, ops[0]) then ops[0].it.info.size else 0) + BytesAdded(sum, ops[1..])
  }

  function PacketsAdded(sum: Sum, ops: seq<Op>): nat {
    if ops == [] then 0 else (if Adds(sum, ops[0]) then 1 else 0) + PacketsAdded(sum, ops[1..])
  }

  function LastAdded(sum: Sum, ops: seq<Op>, start: int): int {
    if ops == [] then start else if Adds(sum, ops[0]) then ops[0].now else LastAdded(sum, ops[1..], start)
  }

  /** Accumulated bytes, number of packets, mean size and time of the last packet */
  predicate Records(s: Stat, bytes: nat, packets: nat, last: int) {
    && s.accumulated == bytes && s.packets == packets && s.lastTime == last
    && s.avgSize * packets as real == bytes as real
  }

  function StatOf(t: Traffic, sum: Sum): Stat
    requires sum.All? || sum.In? || sum.Out?
  {
    if sum.All? then t.total else if sum.In? then t.inbound else t.outbound
  }

  // The figures of s that only additions change are those of r.
  predicate SameLife(r: Stat, s: Stat) {
    r.accumulated == s.accumulated && r.packets == s.packets && r.avgSize == s.avgSize && r.lastTime == s.lastTime
  }

  lemma {:induction false} PurgeKeepsLife(t: Traffic, now: int, expire: real, sum: Sum)
    requires Shaped(t) && (sum.All? || sum.In? || sum.Out?)
    ensures SameLife(StatOf(PurgePackets(t, now, expire), sum), StatOf(t, sum))
    decreases |t.queue|
  {
    if t.queue != [] && Expired(t.queue[|t.queue|-1], now, expire) {
      PurgeKeepsLife(DropTail(t), now, expire, sum);
    }
  }

  lemma AddRecords(s: Stat, v: nat, now: int, bytes: nat, packets: nat, last: int)
    requires Records(s, bytes, packets, last)
    ensures Records(AddBytes(s, v, now), bytes + v, packets + 1, now)
  {
    var n := (packets + 1) as real;
    assert (bytes + v) as real / n * n == (bytes + v) as real;
  }

  lemma SameRecords(r: Stat, s: Stat, bytes: nat, packets: nat, last: int)
    requires SameLife(r, s) && Records(s, bytes, packets, last)
    ensures Records(r, bytes, packets, last)
  {}

  // Only additions touch the figures.
  lemma StepKeepsLife(t: Traffic, op: Op, sum: Sum)
    requires Shaped(t) && (op.Added? ==> |op.it.info.names| == LEVELS) && (sum.All? || sum.In? || sum.Out?)
    ensures if Adds(sum, op) then StatOf(Apply(t, op), sum) == AddBytes(StatOf(t, sum), op.it.info.size, op.now)
            else SameLife(StatOf(Apply(t, op), sum), StatOf(t, sum))
  {
    if !op.Added? {
      PurgeKeepsLife(t, op.now, op.averaging, sum);
    }
  }

  lemma NothingRecorded(start: int)
    ensures Records(Zero(start), 0, 0, start)
  {}

  /** Whatever was purged, averaged, expired and sorted meanwhile: accumulated bytes, packet count, mean size and
      last time of the total, inbound and outbound figures are those of all packets ever added. */
  lemma {:induction false} LifeIsRecorded(ops: seq<Op>, start: int, sum: Sum)
    requires WellFormed(ops) && (sum.All? || sum.In? || sum.Out?)
    ensures Records(StatOf(Run(ops, start), sum), BytesAdded(sum, ops), PacketsAdded(sum, ops), LastAdded(sum, ops, start))
  {
    hide Records, Apply, AddBytes, Counts;
    if ops == [] {
      NothingRecorded(start);
    } else {
      assert ops[0] in ops && forall op | op in ops[1..] :: op in ops;
      LifeIsRecorded(ops[1..], start, sum);
      var t, rest := Run(ops[1..], start), ops[1..];
      var bytes, packets, last := BytesAdded(sum, rest), PacketsAdded(sum, rest), LastAdded(sum, rest, start);
      StepKeepsLife(t, ops[0], sum);
      if Adds(sum, ops[0]) {
        AddRecords(StatOf(t, sum), ops[0].it.info.size, ops[0].now, bytes, packets, last);
      } else {
        SameRecords(StatOf(Apply(t, ops[0]), sum), StatOf(t, sum), bytes, packets, last);
      }
    }
  }

  // ---- the protocols ----

  predicate Decoded(ops: seq<Op>) {
    forall op | op in ops :: op.Added? ==> StackOk(op.it.info.names)
  }

  /** After every life of a queue its counters are the sums over its packets, also when some are empty. */
  lemma {:induction false} LifeIsConsistent(ops: seq<Op>, start: int)
    requires Decoded(ops)
    ensures WellFormed(ops) && Consistent(Run(ops, start))
  {
    if ops == [] {
      assert forall sum: Sum :: Window(Init(start), sum) == BytesOf(sum, []);
    } else {
      assert ops[0] in ops && forall op | op in ops[1..] :: op in ops;
      LifeIsConsistent(ops[1..], start);
      var t := Run(ops[1..], start);
      match ops[0]
      case Added(it, now) => AddIsConsistent(t, it, now);
      case Updated(now, averaging, protoExpire) => UpdateIsConsistent(t, now, averaging, protoExpire);
      case Refreshed(now, averaging, protoExpire) => RefreshIsConsistent(t, now, averaging, protoExpire);
    }
  }

  // The operations since a protocol was last put on the list of its level, the newest first
  function Since(ops: seq<Op>, start: int, i: nat, name: string): (r: seq<Op>)
    requires WellFormed(ops) && i < LEVELS
    ensures r <= ops
  {
    if ops == [] then []
    else if Adds(Named(i, name), ops[0]) && !Has(Run(ops[1..], start).protos[i], name) then [ops[0]]
    else [ops[0]] + Since(ops[1..], start, i, name)
  }

  // Bytes and packets of a protocol, and the time of the last one
  datatype Figures = Figures(bytes: nat, packets: nat, last: int)

  function Told(ops: seq<Op>, start: int, i: nat, name: string): Figures
    requires WellFormed(ops) && i < LEVELS
  {
    var since := Since(ops, start, i, name);
    Figures(BytesAdded(Named(i, name), since), PacketsAdded(Named(i, name), since), LastAdded(Named(i, name), ops, start))
  }

  function AllTold(ops: seq<Op>, start: int): (nat, string) -> Figures
    requires WellFormed(ops)
  {
    (i: nat, name: string) => if i < LEVELS then Told(ops, start, i, name) else Figures(0, 0, 0)
  }

  predicate Tells(s: Stat, f: Figures) {
    Records(s, f.bytes, f.packets, f.last)
  }

  // The figures of every listed protocol, by level and name
  ghost predicate Tell(ps: seq<Level>, figures: (nat, string) -> Figures) {
    forall i, p | 0 <= i < |ps| && p in ps[i] :: Tells(p.stats, figures(i, p.name))
  }

  lemma SubTells(s: Stat, v: nat, f: Figures)
    ensures Tells(SubBytes(s, v), f) <==> Tells(s, f)
  {}

  lemma {:induction false} PurgeKeepsTold(t: Traffic, now: int, expire: real, figures: (nat, string) -> Figures)
    requires Shaped(t) && Tell(t.protos, figures)
    ensures Tell(PurgePackets(t, now, expire).protos, figures)
    decreases |t.queue|
  {
    hide Tells, SubBytes, SubStack;
    if t.queue != [] && Expired(t.queue[|t.queue|-1], now, expire) {
      var it, r := t.queue[|t.queue|-1], DropTail(t);
      SubStackLevels(t.protos, it.info.names, it.info.size, 0);
      forall i, p | 0 <= i < LEVELS && p in r.protos[i] ensures Tells(p.stats, figures(i, p.name)) {
        if p !in t.protos[i] {
          ChangeMembers(t.protos[i], it.info.names[i].value, s => SubBytes(s, it.info.size), p);
          var s :| Protocol(it.info.names[i].value, s) in t.protos[i] && p == Protocol(it.info.names[i].value, SubBytes(s, it.info.size));
          SubTells(s, it.info.size, figures(i, p.name));
        }
      }
      PurgeKeepsTold(r, now, expire, figures);
    }
  }

  lemma {:induction false} ExpireMembers(l: Level, now: int, time: real)
    ensures forall p | p in Expire(l, now, time) :: p in l
  {
    if l != [] {
      ExpireMembers(l[1..], now, time);
    }
  }

  lemma UpdateKeepsTold(t: Traffic, now: int, averaging: real, protoExpire: real, figures: (nat, string) -> Figures)
    requires Shaped(t) && Tell(t.protos, figures)
    ensures Tell(Update(t, now, averaging, protoExpire).protos, figures)
  {
    PurgeKeepsTold(t, now, averaging, figures);
    var ps := PurgePackets(t, now, averaging).protos;
    forall i | 0 <= i < LEVELS ensures forall p | p in Expire(ps[i], now, protoExpire) :: p in ps[i] {
      ExpireMembers(ps[i], now, protoExpire);
    }
    AverageKeepsTold(ExpireStack(ps, now, protoExpire), averaging, figures);
  }

  lemma AverageKeepsTold(ps: seq<Level>, ms: real, figures: (nat, string) -> Figures)
    requires Tell(ps, figures)
    ensures Tell(AverageStack(ps, ms), figures)
  {
    forall i, p | 0 <= i < |ps| && p in AverageStack(ps, ms)[i] ensures Tells(p.stats, figures(i, p.name)) {
      var k :| 0 <= k < |ps[i]| && AverageLevel(ps[i], ms)[k] == p;
      assert ps[i][k] in ps[i];
    }
  }

  lemma RefreshKeepsTold(t: Traffic, now: int, averaging: real, protoExpire: real, figures: (nat, string) -> Figures)
    requires Shaped(t) && Tell(t.protos, figures)
    ensures Tell(Refresh(t, now, averaging, protoExpire).protos, figures)
  {
    hide Update, Tell;
    UpdateKeepsTold(t, now, averaging, protoExpire, figures);
    SortKeepsTold(Update(t, now, averaging, protoExpire).protos, figures);
  }

  lemma SortKeepsTold(ps: seq<Level>, figures: (nat, string) -> Figures)
    requires Tell(ps, figures)
    ensures Tell(SortStack(ps), figures)
  {
    forall i | 0 <= i < |ps| ensures forall p :: p in SortByUse(ps[i]) <==> p in ps[i] {
      SortMembers(ps[i]);
    }
  }

  // A protocol after an addition at its level
  lemma {:induction false} AddToMember(l: Level, name: string, v: nat, now: int, p: Protocol)
    requires Unique(l) && p in AddTo(l, name, v, now)
    ensures if p.name != name then p in l
            else if Has(l, name) then exists q :: q in l && q.name == name && p.stats == AddBytes(q.stats, v, now)
            else p.stats == AddBytes(Zero(now), v, now)
  {
    if Has(l, name) {
      ChangedMember(l, name, s => AddBytes(s, v, now), p);
    } else {
      HasMember(l, name);
    }
  }

  // Where names are unique, the changed protocol is the only one of its name.
  lemma {:induction false} ChangedMember(l: Level, name: string, f: Stat -> Stat, p: Protocol)
    requires Unique(l) && p in Change(l, name, f) && Has(l, name)
    ensures if p.name == name then exists q :: q in l && q.name == name && p.stats == f(q.stats) else p in l
  {
    assert l[0] in l && forall q | q in l[1..] :: q in l;
    if l[0].name == name {
      HasMember(l[1..], name);
      assert p == l[0].(stats := f(l[0].stats)) || p in l[1..];
    } else if p != l[0] {
      ChangedMember(l[1..], name, f, p);
    }
  }

  lemma OneOp(sum: Sum, op: Op)
    requires Adds(sum, op)
    ensures BytesAdded(sum, [op]) == op.it.info.size && PacketsAdded(sum, [op]) == 1
  {
    assert [op][1..] == [];
  }

  // What one more operation tells of a protocol
  lemma ToldNext(ops: seq<Op>, start: int, i: nat, name: string)
    requires ops != [] && WellFormed(ops) && i < LEVELS
    ensures WellFormed(ops[1..])
    ensures var f := Told(ops[1..], start, i, name);
            if !Adds(Named(i, name), ops[0]) then Told(ops, start, i, name) == f
            else if Has(Run(ops[1..], start).protos[i], name) then
              Told(ops, start, i, name) == Figures(f.bytes + ops[0].it.info.size, f.packets + 1, ops[0].now)
            else Told(ops, start, i, name) == Figures(ops[0].it.info.size, 1, ops[0].now)
  {
    assert ops[0] in ops && forall op | op in ops[1..] :: op in ops;
    hide Run, Counts;
    var since := Since(ops[1..], start, i, name);
    assert ([ops[0]] + since)[1..] == since;
    if Adds(Named(i, name), ops[0]) && !Has(Run(ops[1..], start).protos[i], name) {
      OneOp(Named(i, name), ops[0]);
    }
  }

  /** After any life of a queue, the accumulated bytes, the number of packets and the mean size of a listed protocol are
      those of the packets added under its name at its level since it was last put on the list, and its time is that of
      the last of them. */
  lemma {:induction false} ProtocolsAreRecorded(ops: seq<Op>, start: int)
    requires Decoded(ops)
    ensures WellFormed(ops) && Tell(Run(ops, start).protos, AllTold(ops, start))
  {
    LifeIsConsistent(ops, start);
    if ops != [] {
      assert ops[0] in ops && forall op | op in ops[1..] :: op in ops;
      var t := Run(ops[1..], start);
      LifeIsConsistent(ops[1..], start);
      ProtocolsAreRecorded(ops[1..], start);
      forall i: nat, name | i < LEVELS && !Adds(Named(i, name), ops[0])
        ensures AllTold(ops, start)(i, name) == AllTold(ops[1..], start)(i, name)
      {
        ToldNext(ops, start, i, name);
      }
      match ops[0]
      case Added(it, now) => AddTells(t, it, now, ops, start);
      case Updated(now, averaging, protoExpire) => UpdateKeepsTold(t, now, averaging, protoExpire, AllTold(ops[1..], start));
      case Refreshed(now, averaging, protoExpire) => RefreshKeepsTold(t, now, averaging, protoExpire, AllTold(ops[1..], start));
    }
  }

  lemma AddTells(t: Traffic, it: QueueItem, now: int, ops: seq<Op>, start: int)
    requires Consistent(t) && ItemOk(it) && ops != [] && ops[0] == Added(it, now) && WellFormed(ops) && WellFormed(ops[1..])
    requires t == Run(ops[1..], start) && Tell(t.protos, AllTold(ops[1..], start))
    ensures Tell(Add(t, it, now).protos, AllTold(ops, start))
  {
    hide Run, Told, Records, AddTo, AddBytes, Zero;
    var r := Add(t, it, now);
    forall i, p | 0 <= i < LEVELS && p in r.protos[i] ensures Tells(p.stats, AllTold(ops, start)(i, p.name)) {
      ToldNext(ops, start, i, p.name);
      if it.info.names[i].Some? {
        AddTellsAt(t.protos[i], it.info.names[i].value, it.info.size, now, p, AllTold(ops[1..], start), i);
      }
    }
  }

  lemma AddTellsAt(l: Level, name: string, v: nat, now: int, p: Protocol, figures: (nat, string) -> Figures, i: nat)
    requires Unique(l) && p in AddTo(l, name, v, now) && forall q | q in l :: Tells(q.stats, figures(i, q.name))
    ensures var f := figures(i, p.name);
            Tells(p.stats, if p.name != name then f else if Has(l, name) then Figures(f.bytes + v, f.packets + 1, now) else Figures(v, 1, now))
  {
    hide Records, AddTo, AddBytes, Zero;
    AddToMember(l, name, v, now, p);
    if p.name == name {
      if Has(l, name) {
        var q :| q in l && q.name == name && p.stats == AddBytes(q.stats, v, now);
        var f := figures(i, name);
        AddRecords(q.stats, v, now, f.bytes, f.packets, f.last);
      } else {
        NothingRecorded(now);
        AddRecords(Zero(now), v, now, 0, 0, now);
      }
    }
  }

  /** So after a refresh that leaves packets, the first protocol of each level is the one that carried the most bytes
      since it was put on the list. */
  lemma MostUsedCarriedMost(ops: seq<Op>, start: int, i: nat, p: Protocol)
    requires Decoded(ops) && ops != [] && ops[0].Refreshed? && i < LEVELS
    requires WellFormed(ops) && Run(ops, start).queue != [] && p in Run(ops, start).protos[i]
    ensures var first := Run(ops, start).protos[i][0].name;
            BytesAdded(Named(i, p.name), Since(ops, start, i, p.name)) <= BytesAdded(Named(i, first), Since(ops, start, i, first))
  {
    assert ops[0] in ops && forall op | op in ops[1..] :: op in ops;
    ProtocolsAreRecorded(ops, start);
    var u := Update(Run(ops[1..], start), ops[0].now, ops[0].averaging, ops[0].protoExpire);
    var l := Run(ops, start).protos[i];
    assert l == SortByUse(u.protos[i]);
    SortMembers(u.protos[i]);
    SortedHeadIsMostUsed(u.protos[i]);
    assert l[0] in l && Tells(l[0].stats, AllTold(ops, start)(i, l[0].name)) && Tells(p.stats, AllTold(ops, start)(i, p.name));
  }

  lemma {:induction false} LastIsListed(l: Level, name: string)
    requires Has(l, name)
    ensures exists p :: p in l && p.name == name && p.stats.lastTime == LastAt(l, name)
  {
    if l[0].name == name {
      assert l[0] in l;
    } else {
      LastIsListed(l[1..], name);
      var p :| p in l[1..] && p.name == name && p.stats.lastTime == LastAt(l[1..], name);
      assert p in l;
    }
  }

  /** In the life of a queue, expiry takes a listed protocol out exactly if every queued packet that names it is
      empty and the last packet that named it came at least the expiry time ago. */
  lemma ProtocolIsLost(ops: seq<Op>, start: int, now: int, time: real, i: nat, name: string)
    requires Decoded(ops) && i < LEVELS && time > 0.0
    requires WellFormed(ops) && Has(Run(ops, start).protos[i], name)
    ensures var t := Run(ops, start);
            !Has(ExpireStack(t.protos, now, time)[i], name) <==>
            (forall it | it in t.queue && Counts(Named(i, name), it) :: it.info.size == 0)
            && Ms(now, LastAdded(Named(i, name), ops, start)) >= time
  {
    hide Run, Consistent;
    var t := Run(ops, start);
    LifeIsConsistent(ops, start);
    ProtocolsAreRecorded(ops, start);
    LastIsListed(t.protos[i], name);
    ProtocolIsLostIff(t, now, time, i, name);
  }

  lemma {:induction false} PurgeKeepsListed(t: Traffic, now: int, expire: real, i: nat, name: string)
    requires Shaped(t) && i < LEVELS
    ensures Has(PurgePackets(t, now, expire).protos[i], name) <==> Has(t.protos[i], name)
    decreases |t.queue|
  {
    if t.queue != [] && Expired(t.queue[|t.queue|-1], now, expire) {
      var it := t.queue[|t.queue|-1];
      SubStackLevels(t.protos, it.info.names, it.info.size, 0);
      if it.info.names[i].Some? {
        ChangeKeepsNames(t.protos[i], it.info.names[i].value, s => SubBytes(s, it.info.size), name);
      }
      PurgeKeepsListed(DropTail(t), now, expire, i, name);
    }
  }

  lemma {:induction false} ChangeKeepsNames(l: Level, name: string, f: Stat -> Stat, other: string)
    ensures Has(Change(l, name, f), other) <==> Has(l, other)
  {
    if l != [] && l[0].name != name {
      ChangeKeepsNames(l[1..], name, f, other);
      assert Change(l, name, f)[1..] == Change(l[1..], name, f);
    } else if l != [] {
      assert Change(l, name, f)[1..] == l[1..];
    }
  }

  lemma UpdateLists(t: Traffic, now: int, averaging: real, protoExpire: real, i: nat, name: string)
    requires Shaped(t) && i < LEVELS
    ensures var l := ExpireStack(PurgePackets(t, now, averaging).protos, now, protoExpire)[i];
            && (Has(Update(t, now, averaging, protoExpire).protos[i], name) <==> Has(l, name))
            && (Has(Refresh(t, now, averaging, protoExpire).protos[i], name) <==> Has(l, name))
  {
    var p, u := Purge(t, now, averaging, protoExpire), Update(t, now, averaging, protoExpire);
    AverageNames(p.protos[i], averaging, name);
    SortMembers(u.protos[i]);
    HasMember(u.protos[i], name);
    HasMember(SortByUse(u.protos[i]), name);
    if x :| 0 <= x < |u.protos[i]| && u.protos[i][x].name == name {
      assert u.protos[i][x] in SortByUse(u.protos[i]);
    }
    if x :| 0 <= x < |SortByUse(u.protos[i])| && SortByUse(u.protos[i])[x].name == name {
      assert SortByUse(u.protos[i])[x] in u.protos[i];
    }
  }

  lemma AverageNames(l: Level, ms: real, name: string)
    ensures Has(AverageLevel(l, ms), name) <==> Has(l, name)
  {
    HasMember(l, name);
    HasMember(AverageLevel(l, ms), name);
  }

  lemma ToldLast(ps: seq<Level>, ops: seq<Op>, start: int, i: nat, name: string)
    requires WellFormed(ops) && |ps| == LEVELS && i < LEVELS && Tell(ps, AllTold(ops, start)) && Has(ps[i], name)
    ensures LastAt(ps[i], name) == LastAdded(Named(i, name), ops, start)
  {
    hide Since;
    LastIsListed(ps[i], name);
  }

  // An update or refresh leaves what it does not purge.
  lemma NextRun(ops: seq<Op>, start: int, op: Op)
    requires WellFormed(ops) && WellFormed([op] + ops) && !op.Added?
    ensures var t, r := Run(ops, start), Run([op] + ops, start);
            && r == (if op.Updated? then Update(t, op.now, op.averaging, op.protoExpire) else Refresh(t, op.now, op.averaging, op.protoExpire))
            && r.queue == PurgePackets(t, op.now, op.averaging).queue
  {
    assert ([op] + ops)[1..] == ops;
  }

  /** In the life of a queue, a listed protocol is still listed after an update or refresh exactly if protocols do not
      expire, or a packet with bytes that names it is left in the queue, or the last packet that named it came less than
      the expiry time ago. */
  lemma ProtocolStaysIff(ops: seq<Op>, start: int, op: Op, i: nat, name: string)
    requires Decoded(ops) && !op.Added? && i < LEVELS
    requires WellFormed(ops) && WellFormed([op] + ops) && Has(Run(ops, start).protos[i], name)
    ensures Has(Run([op] + ops, start).protos[i], name) <==>
            || op.protoExpire <= 0.0
            || (exists it :: it in Run([op] + ops, start).queue && Counts(Named(i, name), it) && it.info.size > 0)
            || Ms(op.now, LastAdded(Named(i, name), ops, start)) < op.protoExpire
  {
    hide Run, Consistent, Refresh, Update, Tells, Told;
    var t := Run(ops, start);
    LifeIsConsistent(ops, start);
    ProtocolsAreRecorded(ops, start);
    PurgeKeepsTold(t, op.now, op.averaging, AllTold(ops, start));
    PurgeKeepsListed(t, op.now, op.averaging, i, name);
    UpdateLists(t, op.now, op.averaging, op.protoExpire, i, name);
    ConsistentIsShaped(t);
    PurgePacketsKeeps(t, op.now, op.averaging);
    var p := PurgePackets(t, op.now, op.averaging);
    NextRun(ops, start, op);
    ToldLast(p.protos, ops, start, i, name);
    if op.protoExpire > 0.0 {
      ProtocolIsLostIff(p, op.now, op.protoExpire, i, name);
    }
  }
}
