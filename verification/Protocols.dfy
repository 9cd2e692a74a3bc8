/** The per-protocol counters of a traffic queue (src/protocols.c:42-242): for each of six levels a
    list of protocols with their statistics. Level 0 is the topmost protocol of a packet. */
module Protocols {
  import opened Wrappers
  import opened BasicStats

  const STACK_SIZE: nat := 5
  const LEVELS: nat := STACK_SIZE + 1

  // protocol_t, without its node names
  datatype Protocol = Protocol(name: string, stats: Stat)
  type Level = seq<Protocol>

  predicate Has(l: Level, name: string) {
    l != [] && (l[0].name == name || Has(l[1..], name))
  }

  // Applies f to the statistics of the first protocol of that name.
  function Change(l: Level, name: string, f: Stat -> Stat): Level {
    if l == [] then []
    else if l[0].name == name then [l[0].(stats := f(l[0].stats))] + l[1..]
    else [l[0]] + Change(l[1..], name, f)
  }

  // protocol_stack_add_pkt at one level
  function AddTo(l: Level, name: string, v: nat, now: int): Level {
    if Has(l, name) then Change(l, name, s => AddBytes(s, v, now))
    else [Protocol(name, AddBytes(Zero(now), v, now))] + l
  }

  // protocol_stack_sub_pkt at one level
  function SubFrom(l: Level, name: string, v: nat): Level {
    Change(l, name, s => SubBytes(s, v))
  }

  // protocol_stack_add_pkt: levels without a name are skipped.
  function AddStack(ps: seq<Level>, names: seq<Option<string>>, v: nat, now: int): (r: seq<Level>)
    requires |ps| == |names| == LEVELS
    ensures |r| == LEVELS
  {
    seq(LEVELS, i requires 0 <= i < LEVELS => if names[i].Some? then AddTo(ps[i], names[i].value, v, now) else ps[i])
  }

  // protocol_stack_sub_pkt: stops at the first level without a name, and at a protocol that is not listed.
  function SubStack(ps: seq<Level>, names: seq<Option<string>>, v: nat, i: nat): (r: seq<Level>)
    requires |ps| == |names| == LEVELS && i <= LEVELS
    ensures |r| == LEVELS
    decreases LEVELS - i
  {
    if i < LEVELS && names[i].Some? && Has(ps[i], names[i].value) then
      SubStack(ps[i := SubFrom(ps[i], names[i].value, v)], names, v, i + 1)
    else ps
  }

  // protocol_stack_purge_expired at one level
  function Expire(l: Level, now: int, time: real): Level {
    if l == [] then []
    else if l[0].stats.window <= 0 && Ms(now, l[0].stats.lastTime) >= time then Expire(l[1..], now, time)
    else [l[0]] + Expire(l[1..], now, time)
  }

  function ExpireStack(ps: seq<Level>, now: int, time: real): (r: seq<Level>)
    ensures |r| == |ps|
  {
    if time > 0.0 then seq(|ps|, i requires 0 <= i < |ps| => Expire(ps[i], now, time)) else ps
  }

  // protocol_stack_avg
  function AverageLevel(l: Level, ms: real): (r: Level)
    ensures |r| == |l| && forall i :: 0 <= i < |l| ==> r[i] == Protocol(l[i].name, Averaged(l[i].stats, ms))
  {
    seq(|l|, i requires 0 <= i < |l| => l[i].(stats := Averaged(l[i].stats, ms)))
  }

  function AverageStack(ps: seq<Level>, ms: real): (r: seq<Level>)
    ensures |r| == |ps|
  {
    seq(|ps|, i requires 0 <= i < |ps| => AverageLevel(ps[i], ms))
  }

  // g_list_sort with prot_freq_compare: stable, most accumulated bytes first
  function Place(p: Protocol, l: Level): Level {
    if l == [] || p.stats.accumulated >= l[0].stats.accumulated then [p] + l else [l[0]] + Place(p, l[1..])
  }

  function SortByUse(l: Level): Level {
    if l == [] then [] else Place(l[0], SortByUse(l[1..]))
  }

  function SortStack(ps: seq<Level>): (r: seq<Level>)
    ensures |r| == |ps|
  {
    seq(|ps|, i requires 0 <= i < |ps| => SortByUse(ps[i]))
  }

  // ---- what a level says about bytes ----

  function WindowAt(l: Level, name: string): int {
    if l == [] then 0 else if l[0].name == name then l[0].stats.window else WindowAt(l[1..], name)
  }

  function SumWindows(l: Level): int {
    if l == [] then 0 else l[0].stats.window + SumWindows(l[1..])
  }

  predicate Unique(l: Level) {
    l == [] || (!Has(l[1..], l[0].name) && Unique(l[1..]))
  }

  lemma {:induction false} HasMember(l: Level, name: string)
    ensures Has(l, name) <==> exists i :: 0 <= i < |l| && l[i].name == name
  {
    if l != [] {
      HasMember(l[1..], name);
      if Has(l[1..], name) {
        var i :| 0 <= i < |l[1..]| && l[1..][i].name == name;
        assert l[i+1].name == name;
      }
      if i :| 0 <= i < |l| && l[i].name == name {
        assert i > 0 ==> l[1..][i-1].name == name;
      }
    }
  }

  lemma {:induction false} Absent(l: Level, name: string)
    requires !Has(l, name)
    ensures WindowAt(l, name) == 0
  {
    if l != [] {
      Absent(l[1..], name);
    }
  }

  // A change that moves the window of one protocol by d moves the level's sums by d.
  lemma {:induction false} ChangeFacts(l: Level, name: string, f: Stat -> Stat, d: int, other: string)
    requires Has(l, name) && forall s :: f(s).window == s.window + d
    ensures var r := Change(l, name, f);
            && (Has(r, other) <==> Has(l, other))
            && WindowAt(r, other) == WindowAt(l, other) + (if other == name then d else 0)
            && SumWindows(r) == SumWindows(l) + d
  {
    var r := Change(l, name, f);
    if l[0].name == name {
      assert r[1..] == l[1..];
    } else {
      ChangeFacts(l[1..], name, f, d, other);
      assert r[1..] == Change(l[1..], name, f);
    }
  }

  lemma {:induction false} ChangeUnique(l: Level, name: string, f: Stat -> Stat)
    requires Unique(l)
    ensures Unique(Change(l, name, f)) && forall n :: Has(Change(l, name, f), n) <==> Has(l, n)
  {
    var r := Change(l, name, f);
    if l != [] {
      if l[0].name == name {
        assert r[1..] == l[1..];
      } else {
        ChangeUnique(l[1..], name, f);
        assert r[1..] == Change(l[1..], name, f);
      }
    }
  }

  // Change rewrites at most one protocol, and that one has the name.
  lemma {:induction false} ChangeMembers(l: Level, name: string, f: Stat -> Stat, p: Protocol)
    requires p in Change(l, name, f)
    ensures p in l || exists s :: Protocol(name, s) in l && p == Protocol(name, f(s))
  {
    if l != [] {
      assert l[0] in l && forall q | q in l[1..] :: q in l;
      if l[0].name == name {
        assert p in l[1..] || p == Protocol(name, f(l[0].stats));
        assert Protocol(name, l[0].stats) == l[0];
      } else if p != l[0] {
        ChangeMembers(l[1..], name, f, p);
      }
    }
  }

  lemma {:induction false} MemberWindow(l: Level, p: Protocol)
    requires Unique(l) && p in l
    ensures WindowAt(l, p.name) == p.stats.window
  {
    if p != l[0] {
      assert p in l[1..];
      HasMember(l[1..], p.name);
      MemberWindow(l[1..], p);
    }
  }

  // The accumulated bytes of a protocol; none if it is not listed
  function AccumulatedAt(l: Level, name: string): int {
    if l == [] then 0 else if l[0].name == name then l[0].stats.accumulated else AccumulatedAt(l[1..], name)
  }

  lemma {:induction false} AbsentAccumulates(l: Level, name: string)
    requires !Has(l, name)
    ensures AccumulatedAt(l, name) == 0
  {
    if l != [] {
      AbsentAccumulates(l[1..], name);
    }
  }

  lemma {:induction false} ChangeAccumulates(l: Level, name: string, f: Stat -> Stat, d: int, other: string)
    requires Has(l, name) && forall s :: f(s).accumulated == s.accumulated + d
    ensures AccumulatedAt(Change(l, name, f), other) == AccumulatedAt(l, other) + if other == name then d else 0
  {
    var r := Change(l, name, f);
    if l[0].name == name {
      assert r[1..] == l[1..];
    } else {
      ChangeAccumulates(l[1..], name, f, d, other);
      assert r[1..] == Change(l[1..], name, f);
    }
  }

  lemma AddToFacts(l: Level, name: string, v: nat, now: int, other: string)
    requires Unique(l)
    ensures AccumulatedAt(AddTo(l, name, v, now), other) == AccumulatedAt(l, other) + if other == name then v else 0
    ensures var r := AddTo(l, name, v, now);
            && Unique(r) && Has(r, name)
            && (Has(r, other) <==> Has(l, other) || other == name)
            && WindowAt(r, other) == WindowAt(l, other) + (if other == name then v else 0)
            && SumWindows(r) == SumWindows(l) + v
  {
    if Has(l, name) {
      ChangeFacts(l, name, s => AddBytes(s, v, now), v, other);
      ChangeUnique(l, name, s => AddBytes(s, v, now));
      ChangeAccumulates(l, name, s => AddBytes(s, v, now), v, other);
    } else {
      Absent(l, name);
      AbsentAccumulates(l, name);
      assert AddTo(l, name, v, now)[1..] == l;
    }
  }

  lemma SubFromFacts(l: Level, name: string, v: nat, other: string)
    requires Unique(l) && Has(l, name)
    ensures var r := SubFrom(l, name, v);
            && Unique(r)
            && (Has(r, other) <==> Has(l, other))
            && WindowAt(r, other) == WindowAt(l, other) - (if other == name then v else 0)
            && SumWindows(r) == SumWindows(l) - v
  {
    var d: int := v;
    ChangeFacts(l, name, s => SubBytes(s, v), -d, other);
    ChangeUnique(l, name, s => SubBytes(s, v));
  }

  // Expiry only takes protocols out whose window is empty, so no sum changes.
  lemma {:induction false} ExpireFacts(l: Level, now: int, time: real, name: string)
    requires Unique(l) && forall p | p in l :: p.stats.window >= 0
    ensures var r := Expire(l, now, time);
            && Unique(r) && (Has(r, name) ==> Has(l, name))
            && WindowAt(r, name) == WindowAt(l, name) && SumWindows(r) == SumWindows(l)
            && (WindowAt(l, name) > 0 ==> Has(r, name))
            && forall p | p in r :: p in l
  {
    if l != [] {
      var r := Expire(l, now, time);
      assert forall p | p in l[1..] :: p in l;
      assert l[0] in l;
      ExpireFacts(l[1..], now, time, name);
      ExpireFacts(l[1..], now, time, l[0].name);
      Absent(l[1..], l[0].name);
      if !(l[0].stats.window <= 0 && Ms(now, l[0].stats.lastTime) >= time) {
        assert r[1..] == Expire(l[1..], now, time);
      }
    }
  }

  function LastAt(l: Level, name: string): int
    requires Has(l, name)
  {
    if l[0].name == name then l[0].stats.lastTime else LastAt(l[1..], name)
  }

  /** A protocol stays exactly if it has bytes in the window or was added to less than the expiry time ago. */
  lemma {:induction false} ExpireKeepsIff(l: Level, now: int, time: real, name: string)
    requires Unique(l) && Has(l, name)
    ensures Has(Expire(l, now, time), name) <==> WindowAt(l, name) > 0 || Ms(now, LastAt(l, name)) < time
  {
    var r := Expire(l, now, time);
    if l[0].name == name {
      if Has(Expire(l[1..], now, time), name) {
        ExpireOnlyRemoves(l[1..], now, time, name);
      }
    } else {
      ExpireKeepsIff(l[1..], now, time, name);
      assert r != Expire(l[1..], now, time) ==> r[1..] == Expire(l[1..], now, time);
    }
  }

  lemma {:induction false} ExpireOnlyRemoves(l: Level, now: int, time: real, name: string)
    requires Has(Expire(l, now, time), name)
    ensures Has(l, name)
  {
    var r := Expire(l, now, time);
    if l[0].name != name {
      assert r != Expire(l[1..], now, time) ==> r[1..] == Expire(l[1..], now, time);
      ExpireOnlyRemoves(l[1..], now, time, name);
    }
  }

  lemma {:induction false} AverageFacts(l: Level, ms: real, name: string)
    ensures var r := AverageLevel(l, ms);
            && (Unique(l) ==> Unique(r)) && (Has(r, name) <==> Has(l, name))
            && WindowAt(r, name) == WindowAt(l, name) && SumWindows(r) == SumWindows(l)
  {
    if l != [] {
      AverageFacts(l[1..], ms, name);
      AverageFacts(l[1..], ms, l[0].name);
      assert AverageLevel(l, ms)[1..] == AverageLevel(l[1..], ms);
    }
  }

  lemma {:induction false} PlaceFacts(p: Protocol, l: Level, name: string)
    requires Unique([p] + l)
    ensures var r := Place(p, l);
            && Unique(r) && (Has(r, name) <==> p.name == name || Has(l, name))
            && WindowAt(r, name) == WindowAt([p] + l, name) && SumWindows(r) == SumWindows([p] + l)
  {
    assert ([p] + l)[1..] == l;
    if l != [] && p.stats.accumulated < l[0].stats.accumulated {
      var r := Place(p, l);
      var m := [p] + l[1..];
      assert m[1..] == l[1..] && r[1..] == Place(p, l[1..]);
      assert [l[0]] + l[1..] == l && r == [l[0]] + Place(p, l[1..]);
      PlaceFacts(p, l[1..], name);
      PlaceFacts(p, l[1..], l[0].name);
    }
  }

  /** Sorting a level changes only the order of its protocols. */
  lemma {:induction false} SortFacts(l: Level, name: string)
    requires Unique(l)
    ensures var r := SortByUse(l);
            && Unique(r) && (Has(r, name) <==> Has(l, name))
            && WindowAt(r, name) == WindowAt(l, name) && SumWindows(r) == SumWindows(l)
  {
    if l != [] {
      var s := SortByUse(l[1..]);
      SortFacts(l[1..], name);
      SortFacts(l[1..], l[0].name);
      assert ([l[0]] + s)[1..] == s && [l[0]] + l[1..] == l;
      PlaceFacts(l[0], s, name);
    }
  }

  lemma {:induction false} PlaceHead(p: Protocol, l: Level)
    requires forall q | q in l :: q.stats.accumulated <= l[0].stats.accumulated
    ensures forall q | q == p || q in l :: q.stats.accumulated <= Place(p, l)[0].stats.accumulated
  {}

  /** The first protocol of a sorted level has the most accumulated bytes: the name that becomes main_prot. */
  lemma {:induction false} SortedHeadIsMostUsed(l: Level)
    requires l != []
    ensures SortByUse(l) != [] && forall q | q in l :: q.stats.accumulated <= SortByUse(l)[0].stats.accumulated
    ensures forall q | q in SortByUse(l) :: q.stats.accumulated <= SortByUse(l)[0].stats.accumulated
  {
    SortMembers(l);
    if |l| > 1 {
      SortedHeadIsMostUsed(l[1..]);
      SortMembers(l[1..]);
    }
    PlaceHead(l[0], SortByUse(l[1..]));
  }

  lemma {:induction false} PlaceMembers(p: Protocol, l: Level)
    ensures forall q :: q in Place(p, l) <==> q == p || q in l
  {
    if l != [] && p.stats.accumulated < l[0].stats.accumulated {
      PlaceMembers(p, l[1..]);
      assert l == [l[0]] + l[1..];
    }
  }

  lemma {:induction false} SortMembers(l: Level)
    ensures forall q :: q in SortByUse(l) <==> q in l
  {
    if l != [] {
      SortMembers(l[1..]);
      PlaceMembers(l[0], SortByUse(l[1..]));
      assert l == [l[0]] + l[1..];
    }
  }

  // Those with so many accumulated bytes, in the order of the list
  function Using(l: Level, v: int): Level {
    if l == [] then [] else (if l[0].stats.accumulated == v then [l[0]] else []) + Using(l[1..], v)
  }

  ghost predicate Descending(l: Level) {
    forall i, j | 0 <= i < j < |l| :: l[i].stats.accumulated >= l[j].stats.accumulated
  }

  lemma {:induction false} PlaceIsStable(p: Protocol, l: Level, v: int)
    requires Descending(l)
    ensures Descending(Place(p, l)) && Using(Place(p, l), v) == Using([p] + l, v)
  {
    assert ([p] + l)[1..] == l;
    if l != [] && p.stats.accumulated < l[0].stats.accumulated {
      PlaceIsStable(p, l[1..], v);
      PlaceMembers(p, l[1..]);
      assert ([p] + l[1..])[1..] == l[1..] && Place(p, l)[1..] == Place(p, l[1..]);
      forall q | q in Place(p, l[1..]) ensures q.stats.accumulated <= l[0].stats.accumulated {
        assert q == p || q in l[1..];
      }
    }
  }

  /** Sorting puts protocols in descending order, and leaves those with equally many bytes in the order in which they
      were. */
  lemma {:induction false} SortIsStable(l: Level, v: int)
    ensures Descending(SortByUse(l)) && Using(SortByUse(l), v) == Using(l, v)
  {
    if l != [] {
      SortIsStable(l[1..], v);
      PlaceIsStable(l[0], SortByUse(l[1..]), v);
      assert ([l[0]] + SortByUse(l[1..]))[1..] == SortByUse(l[1..]);
    }
  }

  // ---- protocol stacks ----

  /** The stack of a decoded packet: levels 1 to k are named, the rest are not, and level 0 repeats level k. */
  predicate StackOk(names: seq<Option<string>>) {
    && |names| == LEVELS
    && (forall i :: 1 <= i < STACK_SIZE && names[i+1].Some? ==> names[i].Some?)
    && names[0] == Topmost(names, STACK_SIZE)
  }

  function Topmost(names: seq<Option<string>>, k: nat): Option<string>
    requires k < |names|
  {
    if k == 0 then None else if names[k].Some? then names[k] else Topmost(names, k - 1)
  }

  // Subtraction leaves a level alone or takes a listed protocol down.
  lemma {:induction false} SubStackLevels(ps: seq<Level>, names: seq<Option<string>>, v: nat, i: nat)
    requires |ps| == |names| == LEVELS && i <= LEVELS
    ensures forall j :: 0 <= j < LEVELS ==>
              || SubStack(ps, names, v, i)[j] == ps[j]
              || (j >= i && names[j].Some? && Has(ps[j], names[j].value) && SubStack(ps, names, v, i)[j] == SubFrom(ps[j], names[j].value, v))
    decreases LEVELS - i
  {
    if i < LEVELS && names[i].Some? && Has(ps[i], names[i].value) {
      SubStackLevels(ps[i := SubFrom(ps[i], names[i].value, v)], names, v, i + 1);
    }
  }

  // In a prefix-closed stack whose names are all listed, subtraction touches exactly the levels addition touches.
  lemma {:induction false} SubStackIsPointwise(ps: seq<Level>, names: seq<Option<string>>, v: nat, i: nat)
    requires |ps| == |names| == LEVELS && i <= LEVELS
    requires forall j :: i <= j < LEVELS && names[j].Some? ==> Has(ps[j], names[j].value)
    requires forall j :: i <= j < LEVELS - 1 && names[j+1].Some? ==> names[j].Some?
    ensures forall j :: 0 <= j < LEVELS ==>
              SubStack(ps, names, v, i)[j] == (if j >= i && names[j].Some? then SubFrom(ps[j], names[j].value, v) else ps[j])
    decreases LEVELS - i
  {
    if i < LEVELS && names[i].Some? {
      SubStackIsPointwise(ps[i := SubFrom(ps[i], names[i].value, v)], names, v, i + 1);
    } else {
      NoneFrom(names, i);
    }
  }

  lemma {:induction false} NoneFrom(names: seq<Option<string>>, i: nat)
    requires |names| == LEVELS && i <= LEVELS && (i < LEVELS ==> names[i].None?)
    requires forall j :: i <= j < LEVELS - 1 && names[j+1].Some? ==> names[j].Some?
    ensures forall j :: i <= j < LEVELS ==> names[j].None?
    decreases LEVELS - i
  {
    if i + 1 < LEVELS {
      NoneFrom(names, i + 1);
    }
  }

  lemma {:induction false} TopmostIsNamed(names: seq<Option<string>>, k: nat, i: nat)
    requires 1 <= i <= k < |names| && names[i].Some?
    ensures Topmost(names, k).Some?
  {
    if !names[k].Some? {
      TopmostIsNamed(names, k - 1, i);
    }
  }

  lemma {:induction false} TopmostNeedsFirst(names: seq<Option<string>>, k: nat)
    requires 1 <= k < |names| && Topmost(names, k).Some?
    requires forall i :: 1 <= i < |names| - 1 && names[i+1].Some? ==> names[i].Some?
    ensures names[1].Some?
  {
    if k > 1 {
      TopmostNeedsFirst(names, k - 1);
    }
  }

  // A named level has every level below it named, down to level 0.
  lemma StackIsClosed(names: seq<Option<string>>)
    requires StackOk(names)
    ensures forall j :: 0 <= j < LEVELS - 1 && names[j+1].Some? ==> names[j].Some?
  {
    if names[1].Some? {
      TopmostIsNamed(names, STACK_SIZE, 1);
    }
  }
}
