/** The program as a handler of events: packets, refreshes of the diagram and the commands that start, pause and
    stop a capture (src/capture.c:261-380, src/capture.c:398-513, src/diagram.c:396-444). Whatever the order of
    events, and whatever the clocks say, every counter in memory is the sum over its queue and every reference count
    is exact. The capture in memory is the view of one window of packets until a refresh finds packets that leave the
    window out of order, and again after a stop; then every packet in memory is one of the window with four
    references. */
module Program {
  import opened Wrappers
  import opened BasicStats
  import opened Protocols
  import opened NodeIds
  import opened MonitorSpec
  import opened MonitorRuns
  import opened Ledger
  import opened Capture

  class Program {
    const capture: Capture
    ghost var window: seq<Arrival>

    // What holds between events
    ghost predicate Valid()
      reads this, capture, capture.homes.Keys, capture.mem, capture.mem.live`refCount, capture.talks
    {
      capture.Valid() && capture.talks.Valid() && WellKept(capture.View())
    }

    // All queues are the views of the window.
    ghost predicate InStep()
      requires Valid()
      reads this, capture, capture.homes.Keys, capture.mem, capture.mem.live`refCount, capture.talks
    {
      Refines(capture.View(), window)
    }

    /** Every packet in memory is one of the window and has four references; one counter is the number of packets,
        the other that of queue items. */
    lemma FourReferencesInMemory()
      requires Valid() && InStep()
      ensures capture.mem.live == InfosOf(window) && capture.mem.packets == |window| && capture.mem.items == 4 * |window|
      ensures forall p | p in capture.mem.live :: p.refCount == 4
    {
      hide Refines;
      capture.PacketsAreCounted(window);
    }

    lemma Running()
      requires Valid()
      ensures LifecycleOk(capture.View()) && capture.View().status == capture.status && capture.View().now == capture.now
      ensures capture.open <==> capture.status != Status.Stop
    {
      capture.FieldsInView();
    }

    lemma Live(s: Slot)
      requires Valid()
      ensures forall it | it in QueueOf(capture.View(), s) :: it.info in capture.mem.live
    {
      capture.QueuedIsLive(s);
    }

    constructor (now: int)
      ensures Valid() && InStep() && capture.View() == Initial(now) && window == []
      ensures fresh(capture) && fresh(capture.mem) && fresh(capture.talks)
    {
      capture := new Capture(now);
      window := [];
      new;
      StartRefines(now);
    }

    // A packet arrives: get_live_packet or get_offline_packet, and packet_acquired
    method Packet(now: int, size: nat, names: seq<Option<string>>, src: NodeId, dst: NodeId) returns (p: PacketInfo)
      requires Valid() && capture.status != Status.Stop && StackOk(names) && Canonical(src) && Canonical(dst)
      modifies this, capture, capture.homes.Keys, capture.mem
      ensures Valid() && fresh(p) && p.size == size && p.timestamp == now && p.names == names
      ensures window == WindowStep(old(window), old(capture.status), EvPacket(Arrival(p, src, dst)))
      ensures Steps(old(capture.View()), EvPacket(Arrival(p, src, dst)), capture.View())
      ensures old(InStep()) ==> InStep()
    {
      hide Refines, WellKept, Capture.View, Capture.StatsAt, AllShaped, Balanced, Acquire, Canonical, LifecycleOk, QueueOf, Steps;
      Running();
      ghost var m := capture.View();
      Live(SummarySlot);
      capture.SetClock(now);
      p := capture.PacketAcquired(size, names, src, dst);
      ghost var a := Arrival(p, src, dst);
      PacketArrives(m, window, a);
      window := [a] + window;
    }

    // update_diagram
    method Refresh(now: int, prefs: Prefs)
      requires Valid()
      modifies this, capture, capture.homes.Keys, capture.mem, capture.mem.live`refCount, capture.talks
      ensures Valid() && window == WindowStep(old(window), old(capture.status), EvRound(now, prefs))
      ensures Steps(old(capture.View()), EvRound(now, prefs), capture.View())
      ensures old(InStep()) ==> (InStep() <==> InOrder(old(window), old(capture.status), EvRound(now, prefs)))
    {
      hide InOrder, Refines, WellKept, Capture.View, Capture.StatsAt, AllShaped, Balanced, Round, LifecycleOk, WindowStep, OnlyWithout;
      Running();
      RefreshArrives(capture.View(), window, now, prefs);
      window := WindowStep(window, capture.status, EvRound(now, prefs));
      capture.UpdateDiagram(now, prefs);
    }

    // The clock is read between refreshes
    method ReadClock(now: int)
      requires Valid()
      modifies capture
      ensures Valid() && window == WindowStep(old(window), old(capture.status), EvClock(now))
      ensures Steps(old(capture.View()), EvClock(now), capture.View()) && (old(InStep()) ==> InStep())
    {
      hide Refines, WellKept, Capture.View, Capture.StatsAt, AllShaped, Balanced, LifecycleOk;
      Running();
      SwitchArrives(capture.View(), window, EvClock(now));
      capture.SetClock(now);
    }

    // start_capture
    method Start()
      requires Valid()
      modifies this, capture
      ensures Valid() && window == WindowStep(old(window), old(capture.status), EvStart)
      ensures Steps(old(capture.View()), EvStart, capture.View()) && (old(InStep()) ==> InStep())
    {
      hide Refines, WellKept, Capture.View, Capture.StatsAt, AllShaped, Balanced, MonitorSpec.Start, WindowStep;
      Running();
      SwitchArrives(capture.View(), window, EvStart);
      window := WindowStep(window, capture.status, EvStart);
      capture.StartCapture();
    }

    // pause_capture: `removed` is whether the source of the capture could be removed
    method Pause(removed: bool)
      requires Valid()
      modifies this, capture
      ensures Valid() && window == WindowStep(old(window), old(capture.status), EvPause(removed))
      ensures Steps(old(capture.View()), EvPause(removed), capture.View()) && (old(InStep()) ==> InStep())
    {
      hide Refines, WellKept, Capture.View, Capture.StatsAt, AllShaped, Balanced, LifecycleOk, WindowStep;
      Running();
      SwitchArrives(capture.View(), window, EvPause(removed));
      window := WindowStep(window, capture.status, EvPause(removed));
      capture.PauseCapture(removed);
    }

    // get_offline_packet, at the end of the file
    method EndOfFile()
      requires Valid() && capture.status != Status.Stop
      modifies this, capture
      ensures Valid() && window == WindowStep(old(window), old(capture.status), EvEof)
      ensures Steps(old(capture.View()), EvEof, capture.View()) && (old(InStep()) ==> InStep())
    {
      hide Refines, WellKept, Capture.View, Capture.StatsAt, AllShaped, Balanced, LifecycleOk, WindowStep;
      Running();
      SwitchArrives(capture.View(), window, EvEof);
      window := WindowStep(window, capture.status, EvEof);
      capture.EndOfFile();
    }

    // stop_capture
    method Stop()
      requires Valid()
      modifies this, capture, capture.homes.Keys, capture.mem, capture.mem.live`refCount, capture.talks
      ensures Valid() && window == WindowStep(old(window), old(capture.status), EvStop)
      ensures Steps(old(capture.View()), EvStop, capture.View()) && InStep()
    {
      hide Refines, WellKept, Capture.View, Capture.StatsAt, AllShaped, Balanced, MonitorSpec.StopCapture;
      Running();
      StopArrives(capture.View());
      window := WindowStep(window, capture.status, EvStop);
      capture.StopCapture();
    }
  }

  // The event can occur in m, and takes it to r.
  ghost predicate Steps(m: Monitor, e: Event, r: Monitor) {
    AllShaped(m) && Enabled(m, e) && r == Step(m, e)
  }

  lemma PacketArrives(m: Monitor, h: seq<Arrival>, a: Arrival)
    requires WellKept(m) && m.status != Status.Stop && ArrivalOk(a)
    requires forall it | it in QueueOf(m, SummarySlot) :: it.info != a.info
    ensures Steps(m, EvPacket(a), Acquire(m, a)) && WellKept(Acquire(m, a))
    ensures Refines(m, h) ==> Refines(Acquire(m, a), [a] + h)
    ensures var r := m.(now := a.info.timestamp); AllShaped(r) && Acquire(r, a) == Acquire(m, a)
  {
    hide Refines, Acquire;
    StepKeeps(m, EvPacket(a));
    SameAcquire(m, a);
    if Refines(m, h) {
      PacketRefines(m, h, a);
    }
  }

  lemma SameAcquire(m: Monitor, a: Arrival)
    requires AllShaped(m) && |a.info.names| == LEVELS
    ensures var r := m.(now := a.info.timestamp); AllShaped(r) && Acquire(r, a) == Acquire(m, a)
  {}

  lemma RefreshArrives(m: Monitor, h: seq<Arrival>, now: int, p: Prefs)
    requires WellKept(m)
    ensures AllShaped(m)
    ensures var r := if m.status == Pause || m.status == CapEof then m else Round(m, now, p);
            && Steps(m, EvRound(now, p), r) && WellKept(r)
            && (Refines(m, h) ==> (Refines(r, WindowStep(h, m.status, EvRound(now, p))) <==> InOrder(h, m.status, EvRound(now, p))))
  {
    hide Refines, Round, WindowStep, InOrder;
    StepKeeps(m, EvRound(now, p));
    if Refines(m, h) {
      StepRefinesIff(m, h, EvRound(now, p));
    }
  }

  lemma SwitchArrives(m: Monitor, h: seq<Arrival>, e: Event)
    requires WellKept(m) && Enabled(m, e) && !e.EvPacket? && !e.EvRound?
    ensures Steps(m, e, Step(m, e)) && WellKept(Step(m, e))
    ensures Refines(m, h) ==> Refines(Step(m, e), WindowStep(h, m.status, e))
  {
    hide Refines, WindowStep;
    StepKeeps(m, e);
    if Refines(m, h) {
      SwitchRefines(m, h, e);
    }
  }

  // After a stop there are no queues, and so they are the views of an empty window.
  lemma StopArrives(m: Monitor)
    requires WellKept(m)
    ensures Steps(m, EvStop, MonitorSpec.StopCapture(m)) && Refines(MonitorSpec.StopCapture(m), [])
  {
    StepKeeps(m, EvStop);
  }
}
