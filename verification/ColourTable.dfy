/** The table of protocol colours (src/datastructs.c:44-222) and how it is read from the preferences. */
module ColourTable {
  import opened Wrappers
  import opened Colours

  // ---- what is read from the preferences ----

  type Rgb = int

  function PutAll(m: map<string, Rgb>, names: seq<string>, colour: Rgb): map<string, Rgb>
    decreases |names|
  {
    if names == [] then m else PutAll(m[names[0] := colour], names[1..], colour)
  }

  // gdk_color_parse leaves the colour alone when it cannot parse the string.
  function Parsed(parse: string -> Option<Rgb>, c: string, last: Rgb): Rgb {
    if parse(c).Some? then parse(c).value else last
  }

  function RawEntries(v: seq<string>): seq<Entry> {
    if v == [] then []
    else (if ReadEntry(v[0]).Some? then [ReadEntry(v[0]).value] else []) + RawEntries(v[1..])
  }

  // The colours of protocols after protohash_read_prefvect
  function ReadMap(m: map<string, Rgb>, es: seq<Entry>, parse: string -> Option<Rgb>, last: Rgb): map<string, Rgb>
    decreases |es|
  {
    if es == [] then m
    else
      var c := Parsed(parse, es[0].colour, last);
      ReadMap(PutAll(m, Names(es[0].protos), c), es[1..], parse, c)
  }

  // And the colours for other protocols: those of entries without protocols
  function ReadCycle(es: seq<Entry>, parse: string -> Option<Rgb>, last: Rgb): seq<Rgb>
    decreases |es|
  {
    if es == [] then []
    else
      var c := Parsed(parse, es[0].colour, last);
      Own(es[0], c) + ReadCycle(es[1..], parse, c)
  }

  // An entry without protocols adds its colour to those for other protocols.
  function Own(e: Entry, colour: Rgb): seq<Rgb> {
    if e.protos.None? || e.protos.value == "" then [colour] else []
  }

  // The colours of protocols that preferences stand for
  function ColoursOf(v: seq<string>, parse: string -> Option<Rgb>, last: Rgb): map<string, Rgb> {
    ReadMap(map[], RawEntries(v), parse, last)
  }

  // ---- the table of colours ----

  datatype Item = Item(colour: Rgb, preferred: bool)

  const GREY: Rgb := 0x7f7f7f

  // protohash, cycle_color_list and current_cycle
  class ColourTable {
    var hash: map<string, Item>
    var cycle: seq<Rgb>
    var current: nat

    constructor ()
      ensures hash == map[] && cycle == []
    {
      hash, cycle, current := map[], [], 0;
    }

    // protohash_clear
    method Clear()
      modifies this
      ensures hash == map[] && cycle == []
    {
      hash, cycle, current := map[], [], 0;
    }

    // protohash_set
    method Set(name: Option<string>, colour: Rgb)
      modifies this
      ensures if name.Some? && name.value != "" then
                hash == old(hash)[name.value := Item(colour, true)] && cycle == old(cycle) && current == old(current)
              else hash == old(hash) && cycle == [colour] + old(cycle) && current == 0
    {
      if name.Some? && name.value != "" {
        hash := hash[name.value := Item(colour, true)];
      } else {
        cycle := [colour] + cycle;
        current := 0;
      }
    }

    // What the hash says about user-chosen colours
    ghost function Chosen(): map<string, Rgb>
      reads this
    {
      map n | n in hash :: hash[n].colour
    }

    // The loop over the names of one entry
    method SetAll(protos: seq<string>, colour: Rgb)
      requires forall n | n in hash :: hash[n].preferred
      modifies this
      ensures cycle == old(cycle) && current == old(current) && (forall n | n in hash :: hash[n].preferred)
      ensures Chosen() == PutAll(old(Chosen()), Named(protos), colour)
    {
      for j := 0 to |protos|
        invariant cycle == old(cycle) && current == old(current) && (forall n | n in hash :: hash[n].preferred)
        invariant PutAll(Chosen(), Named(protos[j..]), colour) == PutAll(old(Chosen()), Named(protos), colour)
      {
        PutNext(Chosen(), protos, j, colour);
        if protos[j] != "" {
          ghost var was := Chosen();
          Set(Some(protos[j]), colour);
          assert Chosen() == was[protos[j] := colour];
        }
      }
      assert protos[|protos|..] == [];
    }

    // One turn of its loop
    method ReadEntryAs(e: Entry, colour: Rgb)
      requires forall n | n in hash :: hash[n].preferred
      modifies this
      ensures Chosen() == PutAll(old(Chosen()), Names(e.protos), colour) && forall n | n in hash :: hash[n].preferred
      ensures cycle == Own(e, colour) + old(cycle) && (Own(e, colour) != [] ==> current == 0)
      ensures Own(e, colour) == [] ==> current == old(current)
    {
      hide Split, Named;
      if e.protos.None? || e.protos.value == "" {
        Set(e.protos, colour);
      } else {
        SetAll(Split(e.protos.value, EndsProtocol), colour);
      }
    }

    /** protohash_read_prefvect: the colours chosen for protocols, and in the order of the preferences those
        for the others, of which the last comes first. gdkColor is what the variable holds at first. */
    method ReadPrefvect(colors: seq<string>, parse: string -> Option<Rgb>, gdkColor: Rgb)
      modifies this
      ensures Chosen() == ColoursOf(colors, parse, gdkColor) && forall n | n in hash :: hash[n].preferred
      ensures var others := ReadCycle(RawEntries(colors), parse, gdkColor);
              cycle == (if others == [] then [GREY] else others) && current == |cycle| - 1
    {
      hide Split, Named, Names, PutAll, Own, ReadEntry;
      Clear();
      var last := gdkColor;
      for i := 0 to |colors|
        invariant forall n | n in hash :: hash[n].preferred
        invariant ReadMap(Chosen(), RawEntries(colors[i..]), parse, last) == ReadMap(map[], RawEntries(colors), parse, gdkColor)
        invariant Reverse(cycle) + ReadCycle(RawEntries(colors[i..]), parse, last) == ReadCycle(RawEntries(colors), parse, gdkColor)
        invariant cycle != [] ==> current == 0
      {
        assert colors[i..][1..] == colors[i+1..];
        var read := ReadEntry(colors[i]);
        assert RawEntries(colors[i..]) == (if read.Some? then [read.value] else []) + RawEntries(colors[i+1..]);
        assert [] + RawEntries(colors[i+1..]) == RawEntries(colors[i+1..]);
        if read.Some? {
          var c := Parsed(parse, read.value.colour, last);
          ReadStep(Chosen(), read.value, RawEntries(colors[i+1..]), parse, last, cycle);
          ReadEntryAs(read.value, c);
          last := c;
        }
      }
      assert colors[|colors|..] == [];
      if cycle == [] {
        Set(None, GREY);
      } else {
        cycle := Reverse(cycle);
        current := |cycle| - 1;
      }
    }

    /** protohash_color: a protocol without a colour gets the next one of the cycle, and keeps it. */
    method Color(name: string) returns (colour: Rgb)
      requires current < |cycle|
      modifies this
      ensures cycle == old(cycle) && current < |cycle| && name in hash && hash[name].colour == colour
      ensures if name in old(hash) then hash == old(hash) && current == old(current)
              else && hash == old(hash)[name := Item(cycle[old(current)], false)]
                   && current == if old(current) + 1 < |cycle| then old(current) + 1 else 0
    {
      if name !in hash {
        hash := hash[name := Item(cycle[current], false)];
        current := current + 1;
        if current == |cycle| {
          current := 0;
        }
      }
      colour := hash[name].colour;
    }
  }

  lemma PutNext(m: map<string, Rgb>, protos: seq<string>, j: nat, c: Rgb)
    requires j < |protos|
    ensures PutAll(m, Named(protos[j..]), c) == PutAll(if protos[j] == "" then m else m[protos[j] := c], Named(protos[j+1..]), c)
  {
    assert protos[j..][1..] == protos[j+1..];
    assert ([protos[j]] + Named(protos[j+1..]))[1..] == Named(protos[j+1..]) && [] + Named(protos[j+1..]) == Named(protos[j+1..]);
  }

  lemma ReadStep(m: map<string, Rgb>, e: Entry, es: seq<Entry>, parse: string -> Option<Rgb>, last: Rgb, cycle: seq<Rgb>)
    ensures var c := Parsed(parse, e.colour, last);
            && ReadMap(m, [e] + es, parse, last) == ReadMap(PutAll(m, Names(e.protos), c), es, parse, c)
            && Reverse(cycle) + ReadCycle([e] + es, parse, last) == Reverse(Own(e, c) + cycle) + ReadCycle(es, parse, c)
  {
    hide Names, PutAll, Reverse;
    var c := Parsed(parse, e.colour, last);
    assert ([e] + es)[1..] == es;
    ReverseOwn(e, c, cycle);
    assert Reverse(cycle) + Own(e, c) + ReadCycle(es, parse, c) == Reverse(cycle) + (Own(e, c) + ReadCycle(es, parse, c));
  }

  lemma ReverseOwn(e: Entry, c: Rgb, cycle: seq<Rgb>)
    ensures Reverse(Own(e, c) + cycle) == Reverse(cycle) + Own(e, c)
  {
    assert ([c] + cycle)[1..] == cycle && [] + cycle == cycle && Reverse(cycle) + [] == Reverse(cycle);
  }
}
