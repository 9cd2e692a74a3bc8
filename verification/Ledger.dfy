/** The books of the packets in memory: reference counts and the item counter against the queues of a
    capture. Every step that changes one queue keeps them if it keeps the references held elsewhere. */
module Ledger {
  import opened Wrappers
  import opened BasicStats
  import opened MonitorSpec
  import opened MonitorRuns
  import opened MonitorTotals
  import opened TrafficStats

  function Lengths(m: Monitor): Slot -> int {
    s => |QueueOf(m, s)|
  }

  /** Each live packet has as many references as there are queue items pointing to it, every queued
      packet is live, and the item counter is the length of all queues together. */
  ghost predicate Balanced(m: Monitor, ks: seq<Slot>, refs: map<PacketInfo, int>, items: int) {
    && Covers(m, ks)
    && (forall p | p in refs :: refs[p] == Total(ks, Refs(p, m)))
    && (forall s: Slot, it | it in QueueOf(m, s) :: it.info in refs)
    && items == Total(ks, Lengths(m))
  }

  lemma {:induction false} TotalChange(ks: seq<Slot>, f: Slot -> int, g: Slot -> int, at: Slot)
    requires Distinct(ks) && at in ks && forall s | s in ks && s != at :: g(s) == f(s)
    ensures Total(ks, g) == Total(ks, f) - f(at) + g(at)
  {
    assert ks[0] in ks && forall s | s in ks[1..] :: s in ks;
    if ks[0] == at {
      TotalSame(ks[1..], f, g);
    } else {
      TotalChange(ks[1..], f, g, at);
    }
  }

  lemma {:induction false} TotalAtLeast(ks: seq<Slot>, f: Slot -> int, at: Slot)
    requires (forall s :: f(s) >= 0)
    ensures Total(ks, f) >= 0 && (at in ks ==> Total(ks, f) >= f(at))
  {
    if ks != [] {
      TotalAtLeast(ks[1..], f, at);
    }
  }

  lemma {:induction false} TotalAppend(ks: seq<Slot>, f: Slot -> int, s: Slot)
    ensures Total(ks + [s], f) == Total(ks, f) + f(s)
  {
    if ks == [] {
      assert [s][1..] == [] && ks + [s] == [s];
    } else {
      assert (ks + [s])[1..] == ks[1..] + [s];
      TotalAppend(ks[1..], f, s);
    }
  }

  // A queue's references are among all references.
  lemma QueueIsBacked(m: Monitor, ks: seq<Slot>, refs: map<PacketInfo, int>, items: int, at: Slot)
    requires Balanced(m, ks, refs, items)
    ensures forall p | p in Infos(QueueOf(m, at)) :: p in refs && refs[p] >= Count(p, QueueOf(m, at)) >= 1
  {
    forall p | p in Infos(QueueOf(m, at)) ensures p in refs && refs[p] >= Count(p, QueueOf(m, at)) >= 1 {
      TotalAtLeast(ks, Refs(p, m), at);
      CountMember(p, QueueOf(m, at));
    }
  }

  lemma NewSlotKeeps(m: Monitor, ks: seq<Slot>, refs: map<PacketInfo, int>, items: int, s: Slot)
    requires Balanced(m, ks, refs, items) && s !in ks
    ensures Balanced(m, ks + [s], refs, items)
  {
    forall p | p in refs ensures refs[p] == Total(ks + [s], Refs(p, m)) {
      TotalAppend(ks, Refs(p, m), s);
    }
    TotalAppend(ks, Lengths(m), s);
  }

  // A packet without references that no queue holds
  lemma NewPacketKeeps(m: Monitor, ks: seq<Slot>, refs: map<PacketInfo, int>, items: int, p: PacketInfo)
    requires Balanced(m, ks, refs, items) && p !in refs
    ensures Balanced(m, ks, refs[p := 0], items)
  {
    forall s ensures Refs(p, m)(s) == 0 {
      CountMember(p, QueueOf(m, s));
    }
    var zero: Slot -> int := s => 0;
    TotalSame(ks, Refs(p, m), zero);
    TotalOne(ks, zero, SummarySlot, 0);
  }

  lemma SameQueuesKeep(m: Monitor, r: Monitor, ks: seq<Slot>, refs: map<PacketInfo, int>, items: int)
    requires Balanced(m, ks, refs, items) && forall s: Slot :: QueueOf(r, s) == QueueOf(m, s)
    ensures Balanced(r, ks, refs, items)
  {
    forall p | p in refs ensures refs[p] == Total(ks, Refs(p, r)) {
      TotalSame(ks, Refs(p, m), Refs(p, r));
    }
    TotalSame(ks, Lengths(m), Lengths(r));
  }

  /** One queue changes, and with it the references of its packets; packets left without references
      are freed. Then the books still balance. */
  lemma QueueChangeKeeps(m: Monitor, r: Monitor, ks: seq<Slot>, at: Slot, refs: map<PacketInfo, int>, refs': map<PacketInfo, int>,
                         items: int, items': int)
    requires Balanced(m, ks, refs, items) && at in ks && (forall s: Slot | s != at :: QueueOf(r, s) == QueueOf(m, s))
    requires refs'.Keys <= refs.Keys && (forall it | it in QueueOf(r, at) :: it.info in refs)
    requires forall p | p in refs :: var n := refs[p] - Count(p, QueueOf(m, at)) + Count(p, QueueOf(r, at));
                                     if p in refs' then refs'[p] == n else n <= 0
    requires items' - |QueueOf(r, at)| == items - |QueueOf(m, at)|
    ensures Balanced(r, ks, refs', items')
  {
    forall p | p in refs
      ensures Total(ks, Refs(p, r)) == refs[p] - Count(p, QueueOf(m, at)) + Count(p, QueueOf(r, at))
    {
      TotalChange(ks, Refs(p, m), Refs(p, r), at);
    }
    TotalChange(ks, Lengths(m), Lengths(r), at);
    forall s: Slot, it | it in QueueOf(r, s) ensures it.info in refs' {
      CountMember(it.info, QueueOf(r, s));
      TotalAtLeast(ks, Refs(it.info, r), s);
    }
  }

  lemma {:induction false} WindowLength(h: seq<Arrival>)
    requires WindowOk(h)
    ensures |InfosOf(h)| == |h|
  {
    if h != [] {
      WindowLength(h[1..]);
      assert h[0].info !in InfosOf(h[1..]);
      assert InfosOf(h) == {h[0].info} + InfosOf(h[1..]);
    }
  }

  // The packets of a window
  ghost function InfosOf(h: seq<Arrival>): set<PacketInfo> {
    set a | a in h :: a.info
  }

  function LengthsInWindow(h: seq<Arrival>): Slot -> int {
    s => |Proj(s, h)|
  }

  lemma {:induction false} WindowItems(h: seq<Arrival>, ks: seq<Slot>)
    requires Distinct(ks) && forall a, side: Side | a in h :: Home(side, a) in ks
    ensures Total(ks, LengthsInWindow(h)) == 4 * |h|
  {
    if h == [] {
      TotalOne(ks, LengthsInWindow(h), SummarySlot, 0);
    } else {
      assert h[0] in h;
      WindowItems(h[1..], ks);
      ArrivalRefs(h[0].info, h[0], ks);
      forall s | s in ks ensures LengthsInWindow(h)(s) == RefsInItems(h[0].info, h[0])(s) + LengthsInWindow(h[1..])(s) {
        OneItemCount(h[0].info, h[0], s);
      }
      TotalAdd(ks, RefsInItems(h[0].info, h[0]), LengthsInWindow(h[1..]), LengthsInWindow(h));
    }
  }

  /** When the books of a capture balance and no live packet is without references, the live packets are
      those of the window, and each has exactly four references and queue items. */
  lemma LiveIsWindow(m: Monitor, h: seq<Arrival>, ks: seq<Slot>, refs: map<PacketInfo, int>, items: int)
    requires Refines(m, h) && Balanced(m, ks, refs, items) && forall p | p in refs :: refs[p] >= 1
    ensures refs.Keys == InfosOf(h) && |refs.Keys| == |h|
    ensures (forall p | p in refs :: refs[p] == 4) && items == 4 * |h|
  {
    forall p | p in refs ensures p in InfosOf(h) && refs[p] == 4 {
      FourReferences(m, h, ks, p);
    }
    forall a | a in h ensures a.info in refs {
      InSummary(h, a);
      assert QueueOf(m, SummarySlot) == Proj(SummarySlot, h);
    }
    WindowLength(h);
    forall a, side: Side | a in h ensures Home(side, a) in ks {
      HomeIsUsed(side, h, a);
      assert QueueOf(m, Home(side, a)) == Proj(Home(side, a), h);
    }
    WindowItems(h, ks);
    TotalSame(ks, Lengths(m), LengthsInWindow(h));
  }
}
