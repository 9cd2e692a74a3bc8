/** A traffic queue (src/traffic_stats.c) as a value: the packets of the averaging window, newest
    first, the total, inbound and outbound counters and the per-protocol counters. The main result:
    the counters, kept up to date by additions and subtractions only, always are what summing over
    the queue would give. */
module Traffic {
  import opened Wrappers
  import opened BasicStats
  import opened Protocols

  type Queue = seq<QueueItem>

  datatype Traffic = Traffic(queue: Queue, total: Stat, inbound: Stat, outbound: Stat, protos: seq<Level>)

  // traffic_stats_init
  function Init(now: int): Traffic {
    Traffic([], Zero(now), Zero(now), Zero(now), seq(LEVELS, _ => []))
  }

  // traffic_stats_add_packet
  function Add(t: Traffic, it: QueueItem, now: int): Traffic
    requires |t.protos| == |it.info.names| == LEVELS
  {
    var v := it.info.size;
    Traffic([it] + t.queue,
            AddBytes(t.total, v, now),
            if it.direction != Outbound then AddBytes(t.inbound, v, now) else t.inbound,
            if it.direction != Inbound then AddBytes(t.outbound, v, now) else t.outbound,
            AddStack(t.protos, it.info.names, v, now))
  }

  // What the purge loop does with the packet at the tail.
  function DropTail(t: Traffic): Traffic
    requires t.queue != [] && |t.protos| == LEVELS && |t.queue[|t.queue|-1].info.names| == LEVELS
  {
    var it := t.queue[|t.queue|-1];
    var v := it.info.size;
    Traffic(t.queue[..|t.queue|-1],
            SubBytes(t.total, v),
            if it.direction != Outbound then SubBytes(t.inbound, v) else t.inbound,
            if it.direction != Inbound then SubBytes(t.outbound, v) else t.outbound,
            SubStack(t.protos, it.info.names, v, 0))
  }

  predicate Shaped(t: Traffic) {
    |t.protos| == LEVELS && forall i :: 0 <= i < |t.queue| ==> |t.queue[i].info.names| == LEVELS
  }

  predicate Expired(it: QueueItem, now: int, expire: real) {
    Ms(now, it.info.timestamp) >= expire
  }

  function PurgePackets(t: Traffic, now: int, expire: real): (r: Traffic)
    requires Shaped(t)
    ensures Shaped(r)
    decreases |t.queue|
  {
    if t.queue != [] && Expired(t.queue[|t.queue|-1], now, expire) then PurgePackets(DropTail(t), now, expire) else t
  }

  // traffic_stats_purge_expired_packets
  function Purge(t: Traffic, now: int, expire: real, protoExpire: real): (r: Traffic)
    requires Shaped(t)
    ensures Shaped(r)
  {
    var p := PurgePackets(t, now, expire);
    var q := if p.queue == [] then
               p.(total := p.total.(average := 0.0), inbound := p.inbound.(average := 0.0), outbound := p.outbound.(average := 0.0))
             else p;
    q.(protos := ExpireStack(q.protos, now, protoExpire))
  }

  // traffic_stats_update; it answers whether packets are left
  function Update(t: Traffic, now: int, avg: real, protoExpire: real): (r: Traffic)
    requires Shaped(t)
    ensures Shaped(r)
  {
    var p := Purge(t, now, avg, protoExpire);
    if p.queue == [] then p
    else
      p.(total := Averaged(p.total, avg), inbound := Averaged(p.inbound, avg), outbound := Averaged(p.outbound, avg),
         protos := AverageStack(p.protos, avg))
  }

  // node_update and update_link: while packets are left, every level is also sorted by use.
  function Refresh(t: Traffic, now: int, avg: real, protoExpire: real): (r: Traffic)
    requires Shaped(t)
    ensures Shaped(r)
  {
    var u := Update(t, now, avg, protoExpire);
    if u.queue == [] then u else u.(protos := SortStack(u.protos))
  }

  // ---- sums recomputed from the queue ----

  datatype Sum = All | In | Out | Named(level: nat, name: string) | AtLevel(level: nat)

  predicate Counts(sum: Sum, it: QueueItem) {
    match sum
    case All => true
    case In => it.direction != Outbound
    case Out => it.direction != Inbound
    case Named(i, n) => i < |it.info.names| && it.info.names[i] == Some(n)
    case AtLevel(i) => i < |it.info.names| && it.info.names[i].Some?
  }

  function Share(sum: Sum, it: QueueItem): nat {
    if Counts(sum, it) then it.info.size else 0
  }

  function BytesOf(sum: Sum, q: Queue): nat {
    if q == [] then 0 else Share(sum, q[0]) + BytesOf(sum, q[1..])
  }

  // The counter that is kept for a sum.
  function Window(t: Traffic, sum: Sum): int {
    match sum
    case All => t.total.window
    case In => t.inbound.window
    case Out => t.outbound.window
    case Named(i, n) => if i < |t.protos| then WindowAt(t.protos[i], n) else 0
    case AtLevel(i) => if i < |t.protos| then SumWindows(t.protos[i]) else 0
  }

  predicate ItemOk(it: QueueItem) {
    StackOk(it.info.names)
  }

  /** Every counter equals the sum over the queue, and no level lists a protocol twice. */
  ghost predicate Consistent(t: Traffic) {
    && |t.protos| == LEVELS
    && (forall it | it in t.queue :: ItemOk(it))
    && (forall i | 0 <= i < LEVELS :: Unique(t.protos[i]))
    && (forall sum: Sum :: Window(t, sum) == BytesOf(sum, t.queue))
  }

  lemma {:induction false} BytesAppend(sum: Sum, a: Queue, b: Queue)
    ensures BytesOf(sum, a + b) == BytesOf(sum, a) + BytesOf(sum, b)
  {
    if a == [] {
      assert a + b == b;
    } else {
      assert (a + b)[1..] == a[1..] + b;
      BytesAppend(sum, a[1..], b);
    }
  }

  lemma BytesTail(sum: Sum, q: Queue)
    requires q != []
    ensures BytesOf(sum, q) == BytesOf(sum, q[..|q|-1]) + Share(sum, q[|q|-1])
  {
    var n := |q| - 1;
    BytesAppend(sum, q[..n], q[n..]);
    assert q == q[..n] + q[n..] && q[n..] == [q[n]];
    assert q[n..][1..] == [];
  }

  // A queued packet weighs at least its own size.
  lemma {:induction false} BytesMember(sum: Sum, q: Queue, k: nat)
    requires k < |q| && Counts(sum, q[k])
    ensures BytesOf(sum, q) >= q[k].info.size
  {
    if k > 0 {
      BytesMember(sum, q[1..], k - 1);
    }
  }

  /** A protocol named by a queued packet that is not empty is listed, so subtracting the packet always finds it. */
  lemma NamedIsListed(t: Traffic, k: nat, i: nat)
    requires Consistent(t) && k < |t.queue| && i < LEVELS && t.queue[k].info.size > 0
    requires |t.queue[k].info.names| == LEVELS && t.queue[k].info.names[i].Some?
    ensures Has(t.protos[i], t.queue[k].info.names[i].value)
  {
    var n := t.queue[k].info.names[i].value;
    BytesMember(Named(i, n), t.queue, k);
    assert Window(t, Named(i, n)) > 0;
    if !Has(t.protos[i], n) {
      Absent(t.protos[i], n);
    }
  }

  lemma AddWindow(t: Traffic, it: QueueItem, now: int, sum: Sum)
    requires Consistent(t) && ItemOk(it)
    ensures Window(Add(t, it, now), sum) == Window(t, sum) + Share(sum, it)
  {
    var names, v := it.info.names, it.info.size;
    match sum
    case Named(i, n) => if i < LEVELS && names[i].Some? { AddToFacts(t.protos[i], names[i].value, v, now, n); }
    case AtLevel(i) => if i < LEVELS && names[i].Some? { AddToFacts(t.protos[i], names[i].value, v, now, names[i].value); }
    case _ =>
  }

  lemma AddIsConsistent(t: Traffic, it: QueueItem, now: int)
    requires Consistent(t) && ItemOk(it)
    ensures Consistent(Add(t, it, now))
  {
    var r := Add(t, it, now);
    var names := it.info.names;
    forall i | 0 <= i < LEVELS ensures Unique(r.protos[i]) {
      if names[i].Some? {
        AddToFacts(t.protos[i], names[i].value, it.info.size, now, names[i].value);
      }
    }
    forall sum: Sum ensures Window(r, sum) == BytesOf(sum, r.queue) {
      AddWindow(t, it, now, sum);
      assert Window(t, sum) == BytesOf(sum, t.queue);
      assert r.queue[1..] == t.queue;
    }
  }

  // Dropping the tail takes its protocols down at every level it names; if the packet is empty, perhaps only
  // at some, which makes no difference to the sums.
  lemma DropStack(t: Traffic)
    requires Consistent(t) && t.queue != []
    ensures Shaped(t)
    ensures var it := t.queue[|t.queue|-1]; var r := DropTail(t);
            forall i :: 0 <= i < LEVELS ==>
              || (r.protos[i] == t.protos[i] && (it.info.names[i].None? || it.info.size == 0))
              || (it.info.names[i].Some? && Has(t.protos[i], it.info.names[i].value)
                  && r.protos[i] == SubFrom(t.protos[i], it.info.names[i].value, it.info.size))
  {
    var n := |t.queue| - 1;
    var it := t.queue[n];
    assert ItemOk(it);
    ConsistentIsShaped(t);
    SubStackLevels(t.protos, it.info.names, it.info.size, 0);
    if it.info.size > 0 {
      forall i | 0 <= i < LEVELS && it.info.names[i].Some? ensures Has(t.protos[i], it.info.names[i].value) {
        NamedIsListed(t, n, i);
      }
      StackIsClosed(it.info.names);
      SubStackIsPointwise(t.protos, it.info.names, it.info.size, 0);
    }
  }

  lemma DropWindow(t: Traffic, sum: Sum)
    requires Consistent(t) && t.queue != [] && Shaped(t)
    ensures Window(DropTail(t), sum) == Window(t, sum) - Share(sum, t.queue[|t.queue|-1])
  {
    var it := t.queue[|t.queue|-1];
    var names, v := it.info.names, it.info.size;
    DropStack(t);
    match sum
    case Named(i, n) =>
      if i < LEVELS && names[i].Some? && Has(t.protos[i], names[i].value) { SubFromFacts(t.protos[i], names[i].value, v, n); }
    case AtLevel(i) =>
      if i < LEVELS && names[i].Some? && Has(t.protos[i], names[i].value) { SubFromFacts(t.protos[i], names[i].value, v, names[i].value); }
    case _ =>
  }

  lemma DropIsConsistent(t: Traffic)
    requires Consistent(t) && t.queue != [] && Shaped(t)
    ensures Consistent(DropTail(t))
  {
    var r := DropTail(t);
    var it := t.queue[|t.queue|-1];
    DropStack(t);
    forall i | 0 <= i < LEVELS ensures Unique(r.protos[i]) {
      if it.info.names[i].Some? && Has(t.protos[i], it.info.names[i].value) {
        SubFromFacts(t.protos[i], it.info.names[i].value, it.info.size, it.info.names[i].value);
      }
    }
    forall sum: Sum ensures Window(r, sum) == BytesOf(sum, r.queue) {
      DropWindow(t, sum);
      BytesTail(sum, t.queue);
      assert Window(t, sum) == BytesOf(sum, t.queue);
    }
  }

  lemma ConsistentIsShaped(t: Traffic)
    requires Consistent(t)
    ensures Shaped(t)
  {
    forall i | 0 <= i < |t.queue| ensures |t.queue[i].info.names| == LEVELS {
      assert ItemOk(t.queue[i]);
    }
  }

  lemma WindowsNotNegative(t: Traffic)
    requires Consistent(t)
    ensures forall i, p | 0 <= i < LEVELS && p in t.protos[i] :: p.stats.window >= 0
    ensures t.queue == [] ==> forall i, p | 0 <= i < LEVELS && p in t.protos[i] :: p.stats.window == 0
  {
    forall i, p | 0 <= i < LEVELS && p in t.protos[i]
      ensures p.stats.window >= 0 && (t.queue == [] ==> p.stats.window == 0)
    {
      MemberWindow(t.protos[i], p);
      assert Window(t, Named(i, p.name)) == BytesOf(Named(i, p.name), t.queue);
    }
  }

  lemma {:induction false} PurgePacketsKeeps(t: Traffic, now: int, expire: real)
    requires Consistent(t) && Shaped(t)
    ensures Consistent(PurgePackets(t, now, expire))
    ensures PurgePackets(t, now, expire).queue <= t.queue
    decreases |t.queue|
  {
    if t.queue != [] && Expired(t.queue[|t.queue|-1], now, expire) {
      DropIsConsistent(t);
      PurgePacketsKeeps(DropTail(t), now, expire);
    }
  }

  lemma ExpireStackKeeps(t: Traffic, now: int, time: real)
    requires Consistent(t)
    ensures Consistent(t.(protos := ExpireStack(t.protos, now, time)))
  {
    var r := t.(protos := ExpireStack(t.protos, now, time));
    WindowsNotNegative(t);
    if time > 0.0 {
      forall i | 0 <= i < LEVELS ensures Unique(r.protos[i]) {
        ExpireFacts(t.protos[i], now, time, "");
      }
      forall sum: Sum ensures Window(r, sum) == BytesOf(sum, r.queue) {
        assert Window(t, sum) == BytesOf(sum, t.queue);
        match sum
        case Named(i, n) => if i < LEVELS { ExpireFacts(t.protos[i], now, time, n); }
        case AtLevel(i) => if i < LEVELS { ExpireFacts(t.protos[i], now, time, ""); }
        case _ =>
      }
    }
  }

  /** Purging packets and expiring protocols keeps every counter equal to the sum over what is left. */
  lemma PurgeIsConsistent(t: Traffic, now: int, expire: real, protoExpire: real)
    requires Consistent(t) && Shaped(t)
    ensures Consistent(Purge(t, now, expire, protoExpire))
    ensures Purge(t, now, expire, protoExpire).queue == PurgePackets(t, now, expire).queue
  {
    PurgePacketsKeeps(t, now, expire);
    var p := PurgePackets(t, now, expire);
    var q := if p.queue == [] then
               p.(total := p.total.(average := 0.0), inbound := p.inbound.(average := 0.0), outbound := p.outbound.(average := 0.0))
             else p;
    assert Consistent(q) by {
      forall sum: Sum ensures Window(q, sum) == BytesOf(sum, q.queue) {
        assert Window(p, sum) == BytesOf(sum, p.queue);
      }
    }
    ExpireStackKeeps(q, now, protoExpire);
  }

  lemma AverageKeeps(t: Traffic, ms: real)
    requires Consistent(t)
    ensures Consistent(t.(total := Averaged(t.total, ms), inbound := Averaged(t.inbound, ms),
                          outbound := Averaged(t.outbound, ms), protos := AverageStack(t.protos, ms)))
  {
    var r := t.(total := Averaged(t.total, ms), inbound := Averaged(t.inbound, ms),
                outbound := Averaged(t.outbound, ms), protos := AverageStack(t.protos, ms));
    forall i | 0 <= i < LEVELS ensures Unique(r.protos[i]) {
      AverageFacts(t.protos[i], ms, "");
    }
    forall sum: Sum ensures Window(r, sum) == BytesOf(sum, r.queue) {
      assert Window(t, sum) == BytesOf(sum, t.queue);
      match sum
      case Named(i, n) => if i < LEVELS { AverageFacts(t.protos[i], ms, n); }
      case AtLevel(i) => if i < LEVELS { AverageFacts(t.protos[i], ms, ""); }
      case _ =>
    }
  }

  lemma UpdateIsConsistent(t: Traffic, now: int, avg: real, protoExpire: real)
    requires Consistent(t) && Shaped(t)
    ensures Consistent(Update(t, now, avg, protoExpire))
    ensures Update(t, now, avg, protoExpire).queue == PurgePackets(t, now, avg).queue
  {
    PurgeIsConsistent(t, now, avg, protoExpire);
    AverageKeeps(Purge(t, now, avg, protoExpire), avg);
  }

  lemma RefreshIsConsistent(t: Traffic, now: int, avg: real, protoExpire: real)
    requires Consistent(t) && Shaped(t)
    ensures Consistent(Refresh(t, now, avg, protoExpire))
    ensures Refresh(t, now, avg, protoExpire).queue == PurgePackets(t, now, avg).queue
  {
    UpdateIsConsistent(t, now, avg, protoExpire);
    var u := Update(t, now, avg, protoExpire);
    var r := u.(protos := SortStack(u.protos));
    forall i | 0 <= i < LEVELS ensures Unique(r.protos[i]) {
      SortFacts(u.protos[i], "");
    }
    forall sum: Sum ensures Window(r, sum) == BytesOf(sum, r.queue) {
      assert Window(u, sum) == BytesOf(sum, u.queue);
      match sum
      case Named(i, n) => if i < LEVELS { SortFacts(u.protos[i], n); }
      case AtLevel(i) => if i < LEVELS { SortFacts(u.protos[i], ""); }
      case _ =>
    }
  }

  // ---- purging is filtering ----

  // Newest first, by timestamp.
  ghost predicate TimeOrdered(q: Queue) {
    forall i, j :: 0 <= i < j < |q| ==> q[i].info.timestamp >= q[j].info.timestamp
  }

  function Fresh(q: Queue, now: int, expire: real): Queue {
    if q == [] then []
    else if Expired(q[0], now, expire) then Fresh(q[1..], now, expire)
    else [q[0]] + Fresh(q[1..], now, expire)
  }

  lemma {:induction false} FreshAppend(a: Queue, b: Queue, now: int, expire: real)
    ensures Fresh(a + b, now, expire) == Fresh(a, now, expire) + Fresh(b, now, expire)
  {
    if a == [] {
      assert a + b == b;
    } else {
      assert (a + b)[1..] == a[1..] + b;
      FreshAppend(a[1..], b, now, expire);
    }
  }

  lemma {:induction false} AllFresh(q: Queue, now: int, expire: real)
    requires forall it | it in q :: !Expired(it, now, expire)
    ensures Fresh(q, now, expire) == q
  {
    if q != [] {
      AllFresh(q[1..], now, expire);
    }
  }

  // What is left when expired packets are popped off the tail
  function Popped(q: Queue, now: int, expire: real): Queue {
    if q != [] && Expired(q[|q|-1], now, expire) then Popped(q[..|q|-1], now, expire) else q
  }

  lemma {:induction false} PurgePops(t: Traffic, now: int, expire: real)
    requires Shaped(t)
    ensures PurgePackets(t, now, expire).queue == Popped(t.queue, now, expire)
    decreases |t.queue|
  {
    if t.queue != [] && Expired(t.queue[|t.queue|-1], now, expire) {
      PurgePops(DropTail(t), now, expire);
    }
  }

  lemma {:induction false} PoppedFacts(q: Queue, now: int, expire: real)
    ensures var r := Popped(q, now, expire); r <= q && (r != [] ==> !Expired(r[|r|-1], now, expire))
  {
    if q != [] && Expired(q[|q|-1], now, expire) {
      PoppedFacts(q[..|q|-1], now, expire);
    }
  }

  /** No expired packet was queued after one that has not expired. */
  ghost predicate ExpiresInOrder(q: Queue, now: int, expire: real) {
    forall i, j | 0 <= i < j < |q| :: Expired(q[i], now, expire) ==> Expired(q[j], now, expire)
  }

  lemma {:induction false} FreshAreYoung(q: Queue, now: int, expire: real)
    ensures forall it | it in Fresh(q, now, expire) :: !Expired(it, now, expire)
  {
    if q != [] {
      FreshAreYoung(q[1..], now, expire);
    }
  }

  /** Popping expired packets off the tail keeps exactly the packets younger than the expiry time if and only if
      packets expire in the order in which they were queued. */
  lemma {:induction false} PopIsFilterIff(q: Queue, now: int, expire: real)
    ensures Popped(q, now, expire) == Fresh(q, now, expire) <==> ExpiresInOrder(q, now, expire)
    decreases |q|
  {
    if q != [] {
      var n := |q| - 1;
      if Expired(q[n], now, expire) {
        PopIsFilterIff(q[..n], now, expire);
        assert q == q[..n] + [q[n]];
        FreshAppend(q[..n], [q[n]], now, expire);
        assert Fresh([q[n]], now, expire) == [];
      } else if ExpiresInOrder(q, now, expire) {
        AllFresh(q, now, expire);
      } else {
        FreshAreYoung(q, now, expire);
        var i :| 0 <= i < n && Expired(q[i], now, expire);
        assert q[i] in q && q[i] !in Fresh(q, now, expire);
      }
    }
  }

  lemma PurgeIsFilterIff(t: Traffic, now: int, expire: real)
    requires Shaped(t)
    ensures PurgePackets(t, now, expire).queue == Fresh(t.queue, now, expire) <==> ExpiresInOrder(t.queue, now, expire)
  {
    PurgePops(t, now, expire);
    PopIsFilterIff(t.queue, now, expire);
  }

  /** So it is whenever timestamps are in order of arrival. */
  lemma PurgeIsFilter(t: Traffic, now: int, expire: real)
    requires Shaped(t) && TimeOrdered(t.queue)
    ensures PurgePackets(t, now, expire).queue == Fresh(t.queue, now, expire)
  {
    PurgeIsFilterIff(t, now, expire);
  }

  // ---- averages ----

  ghost predicate ProtosIdle(ps: seq<Level>) {
    forall i, p | 0 <= i < |ps| && p in ps[i] :: Idle(p.stats)
  }

  ghost predicate IdleOk(t: Traffic) {
    Idle(t.total) && Idle(t.inbound) && Idle(t.outbound) && ProtosIdle(t.protos)
  }

  lemma AddIsIdle(t: Traffic, it: QueueItem, now: int)
    requires Consistent(t) && ItemOk(it) && IdleOk(t)
    ensures IdleOk(Add(t, it, now))
  {
    var r := Add(t, it, now);
    var v := it.info.size;
    WindowsNotNegative(t);
    assert Window(t, All) >= 0 && Window(t, In) >= 0 && Window(t, Out) >= 0;
    forall i, p | 0 <= i < LEVELS && p in r.protos[i] ensures Idle(p.stats) {
      if it.info.names[i].Some? && Has(t.protos[i], it.info.names[i].value) {
        ChangeMembers(t.protos[i], it.info.names[i].value, s => AddBytes(s, v, now), p);
      }
    }
  }

  lemma DropIsIdle(t: Traffic)
    requires Consistent(t) && t.queue != [] && Shaped(t) && IdleOk(t)
    ensures IdleOk(DropTail(t))
  {
    var it := t.queue[|t.queue|-1];
    var r := DropTail(t);
    DropStack(t);
    forall i, p | 0 <= i < LEVELS && p in r.protos[i] ensures Idle(p.stats) {
      if r.protos[i] != t.protos[i] {
        ChangeMembers(t.protos[i], it.info.names[i].value, s => SubBytes(s, it.info.size), p);
      }
    }
  }

  lemma {:induction false} PurgePacketsIsIdle(t: Traffic, now: int, expire: real)
    requires Consistent(t) && Shaped(t) && IdleOk(t)
    ensures IdleOk(PurgePackets(t, now, expire))
    decreases |t.queue|
  {
    if t.queue != [] && Expired(t.queue[|t.queue|-1], now, expire) {
      DropIsConsistent(t);
      DropIsIdle(t);
      PurgePacketsIsIdle(DropTail(t), now, expire);
    }
  }

  lemma PurgeIsIdle(t: Traffic, now: int, expire: real, protoExpire: real)
    requires Consistent(t) && Shaped(t) && IdleOk(t)
    ensures IdleOk(Purge(t, now, expire, protoExpire))
  {
    PurgePacketsKeeps(t, now, expire);
    PurgePacketsIsIdle(t, now, expire);
    var p := PurgePackets(t, now, expire);
    WindowsNotNegative(p);
    forall i | 0 <= i < LEVELS ensures forall x | x in Expire(p.protos[i], now, protoExpire) :: x in p.protos[i] {
      ExpireFacts(p.protos[i], now, protoExpire, "");
    }
  }

  // What an update is for: each average is 8000 * bytes / milliseconds of the window.
  ghost predicate AveragesRight(t: Traffic, ms: real) {
    && IsAverage(t.total, ms) && IsAverage(t.inbound, ms) && IsAverage(t.outbound, ms)
    && forall i, p | 0 <= i < |t.protos| && p in t.protos[i] :: IsAverage(p.stats, ms)
  }

  lemma AveragedIsRight(s: Stat, ms: real)
    requires Idle(s)
    ensures IsAverage(Averaged(s, ms), ms) && Idle(Averaged(s, ms))
  {}

  lemma EmptyIsRight(s: Stat, ms: real)
    requires s.window == 0 && s.average == 0.0
    ensures IsAverage(s, ms)
  {}

  lemma EmptyQueueAverages(p: Traffic, ms: real)
    requires Consistent(p) && IdleOk(p) && p.queue == []
    ensures AveragesRight(p, ms)
  {
    WindowsNotNegative(p);
    assert Window(p, All) == Window(p, In) == Window(p, Out) == 0;
    EmptyIsRight(p.total, ms);
    EmptyIsRight(p.inbound, ms);
    EmptyIsRight(p.outbound, ms);
    forall i, x | 0 <= i < |p.protos| && x in p.protos[i] ensures IsAverage(x.stats, ms) {
      assert Idle(x.stats);
      EmptyIsRight(x.stats, ms);
    }
  }

  lemma LevelAverages(ps: seq<Level>, ms: real)
    requires ProtosIdle(ps)
    ensures ProtosIdle(AverageStack(ps, ms))
    ensures forall i, x | 0 <= i < |ps| && x in AverageStack(ps, ms)[i] :: IsAverage(x.stats, ms)
  {
    var rs := AverageStack(ps, ms);
    forall i, x: Protocol | 0 <= i < |ps| && x in rs[i] ensures IsAverage(x.stats, ms) && Idle(x.stats) {
      var k :| 0 <= k < |rs[i]| && rs[i][k] == x;
      assert ps[i][k] in ps[i];
      AveragedIsRight(ps[i][k].stats, ms);
    }
  }

  /** After an update every average, of the queue and of each surviving protocol, is the one its window
      calls for, also when no packet is left; and idle counters keep average zero. */
  lemma UpdateAverages(t: Traffic, now: int, avg: real, protoExpire: real)
    requires Consistent(t) && Shaped(t) && IdleOk(t)
    ensures AveragesRight(Update(t, now, avg, protoExpire), avg)
    ensures IdleOk(Update(t, now, avg, protoExpire))
  {
    hide Averaged, IsAverage, Idle, Consistent;
    PurgeIsConsistent(t, now, avg, protoExpire);
    PurgeIsIdle(t, now, avg, protoExpire);
    var p := Purge(t, now, avg, protoExpire);
    if p.queue == [] {
      EmptyQueueAverages(p, avg);
    } else {
      AveragedIsRight(p.total, avg);
      AveragedIsRight(p.inbound, avg);
      AveragedIsRight(p.outbound, avg);
      LevelAverages(p.protos, avg);
    }
  }

  lemma RefreshAverages(t: Traffic, now: int, avg: real, protoExpire: real)
    requires Consistent(t) && Shaped(t) && IdleOk(t)
    ensures AveragesRight(Refresh(t, now, avg, protoExpire), avg)
    ensures IdleOk(Refresh(t, now, avg, protoExpire))
  {
    UpdateAverages(t, now, avg, protoExpire);
    var u := Update(t, now, avg, protoExpire);
    forall i | 0 <= i < LEVELS ensures forall x :: x in SortByUse(u.protos[i]) <==> x in u.protos[i] {
      SortMembers(u.protos[i]);
    }
  }

  // ---- the levels of the protocol stack ----

  lemma {:induction false} LevelBytes(q: Queue, i: nat)
    requires (forall it | it in q :: ItemOk(it)) && i < STACK_SIZE
    ensures BytesOf(AtLevel(0), q) == BytesOf(AtLevel(1), q)
    ensures BytesOf(AtLevel(i), q) >= BytesOf(AtLevel(i + 1), q)
  {
    if q != [] {
      LevelBytes(q[1..], i);
      var names := q[0].info.names;
      assert ItemOk(q[0]);
      StackIsClosed(names);
      if names[0].Some? {
        TopmostNeedsFirst(names, STACK_SIZE);
      }
    }
  }

  /** The bytes counted at the protocol levels: level 0 repeats level 1, and deeper levels count less. */
  lemma LevelsShrink(t: Traffic, i: nat)
    requires Consistent(t) && i < STACK_SIZE
    ensures SumWindows(t.protos[0]) == SumWindows(t.protos[1])
    ensures SumWindows(t.protos[i]) >= SumWindows(t.protos[i+1])
  {
    LevelBytes(t.queue, i);
    assert Window(t, AtLevel(0)) == BytesOf(AtLevel(0), t.queue) && Window(t, AtLevel(1)) == BytesOf(AtLevel(1), t.queue);
    assert Window(t, AtLevel(i)) == BytesOf(AtLevel(i), t.queue) && Window(t, AtLevel(i + 1)) == BytesOf(AtLevel(i + 1), t.queue);
  }

  lemma {:induction false} NoBytes(sum: Sum, q: Queue)
    ensures BytesOf(sum, q) == 0 <==> forall it | it in q && Counts(sum, it) :: it.info.size == 0
  {
    if q != [] {
      NoBytes(sum, q[1..]);
      assert q == [q[0]] + q[1..];
    }
  }

  /** When an update loses a listed protocol: exactly if all queued packets that name it are empty, and it was
      last added to at least the expiry time ago. */
  lemma ProtocolIsLostIff(t: Traffic, now: int, time: real, i: nat, name: string)
    requires Consistent(t) && i < LEVELS && Has(t.protos[i], name) && time > 0.0
    ensures !Has(ExpireStack(t.protos, now, time)[i], name) <==>
            (forall it | it in t.queue && Counts(Named(i, name), it) :: it.info.size == 0) && Ms(now, LastAt(t.protos[i], name)) >= time
  {
    ExpireKeepsIff(t.protos[i], now, time, name);
    NoBytes(Named(i, name), t.queue);
    assert Window(t, Named(i, name)) == BytesOf(Named(i, name), t.queue);
  }

  /** So it happens with empty packets: a protocol that only they name expires while they are still queued. */
  lemma EmptyPacketLosesItsProtocol(it: QueueItem, now: int, time: real)
    requires it.info.size == 0 && StackOk(it.info.names) && it.info.names[1].Some?
    requires Ms(now, 0) >= time > 0.0
    ensures var t := Add(Init(0), it, 0);
            it in t.queue && !Has(ExpireStack(t.protos, now, time)[1], it.info.names[1].value)
  {
    var t := Add(Init(0), it, 0);
    assert t.protos[1] == [Protocol(it.info.names[1].value, AddBytes(Zero(0), 0, 0))];
    assert t.protos[1][1..] == [];
    assert Expire(t.protos[1], now, time) == [];
  }
}
