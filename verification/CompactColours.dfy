/** What compacting the colour preferences does to the colours of protocols (src/datastructs.c:175-295): it
    leaves them alone exactly if every protocol that is listed has the same colour in two readings of the
    preferences as they are, entry by entry and colour by colour. */
module CompactColours {
  import opened Wrappers
  import opened Colours
  import opened ColourTable

  // ---- the two readings ----

  // Entry by entry: the colour of the last entry that lists the name. A colour that cannot be parsed stands
  // for the one before it.
  function LastListed(es: seq<Entry>, parse: string -> Option<Rgb>, last: Rgb, name: string): Option<Rgb>
    decreases |es|
  {
    if es == [] then None
    else
      var c := Parsed(parse, es[0].colour, last);
      var r := LastListed(es[1..], parse, c, name);
      if r.Some? then r else if name in Names(es[0].protos) then Some(c) else None
  }

  // Colour by colour, in the order of first occurrence: the last colour under which es lists the name anywhere
  function LastColour(cs: seq<string>, es: seq<Entry>, parse: string -> Option<Rgb>, last: Rgb, name: string): Option<Rgb>
    decreases |cs|
  {
    if cs == [] then None
    else
      var c := Parsed(parse, cs[0], last);
      var r := LastColour(cs[1..], es, parse, c, name);
      if r.Some? then r else if name in Gathered(es, cs[0]) then Some(c) else None
  }

  function AllNames(es: seq<Entry>): seq<string> {
    if es == [] then [] else Names(es[0].protos) + AllNames(es[1..])
  }

  /** The two readings agree on every name, as it is listed and as it is without its spaces. */
  predicate ReadingsAgree(v: seq<string>, parse: string -> Option<Rgb>, last: Rgb) {
    var raw, es := RawEntries(v), Entries(v);
    forall n | n in AllNames(raw) + AllNames(es) :: LastListed(raw, parse, last, n) == LastColour(Firsts(es), es, parse, last, n)
  }

  // ---- reading is taking the last listing ----

  lemma {:induction false} PutAllFacts(m: map<string, Rgb>, names: seq<string>, c: Rgb, n: string)
    ensures var r := PutAll(m, names, c);
            (n in r <==> n in m || n in names) && (n in r ==> r[n] == if n in names then c else m[n])
    decreases |names|
  {
    if names != [] {
      PutAllFacts(m[names[0] := c], names[1..], c, n);
    }
  }

  lemma {:induction false} ReadIsLast(m: map<string, Rgb>, es: seq<Entry>, parse: string -> Option<Rgb>, last: Rgb, n: string)
    ensures var r, k := ReadMap(m, es, parse, last), LastListed(es, parse, last, n);
            && (n in r <==> n in m || k.Some?)
            && (n in r ==> r[n] == if k.Some? then k.value else m[n])
            && (k.Some? <==> n in AllNames(es))
    decreases |es|
  {
    if es != [] {
      var c := Parsed(parse, es[0].colour, last);
      PutAllFacts(m, Names(es[0].protos), c, n);
      ReadIsLast(PutAll(m, Names(es[0].protos), c), es[1..], parse, c, n);
    }
  }

  // The entries w have the colours cs, and under each the protocols that es lists under it.
  ghost predicate Collects(w: seq<Entry>, cs: seq<string>, es: seq<Entry>) {
    Spells(w, cs) && forall i :: 0 <= i < |w| ==> Names(w[i].protos) == Gathered(es, cs[i])
  }

  lemma {:induction false} CollectedIsLast(w: seq<Entry>, cs: seq<string>, es: seq<Entry>, parse: string -> Option<Rgb>, last: Rgb, n: string)
    requires Collects(w, cs, es)
    ensures LastListed(w, parse, last, n) == LastColour(cs, es, parse, last, n)
    decreases |w|
  {
    hide Names, Gathered;
    if w != [] {
      CollectedIsLast(w[1..], cs[1..], es, parse, Parsed(parse, cs[0], last), n);
    }
  }

  lemma {:induction false} NamesOf(es: seq<Entry>, n: string)
    ensures n in AllNames(es) <==> exists e :: e in es && n in Names(e.protos)
  {
    if es != [] {
      assert es == [es[0]] + es[1..];
      NamesOf(es[1..], n);
    }
  }

  lemma CollectedNames(w: seq<Entry>, cs: seq<string>, es: seq<Entry>, n: string)
    requires Collects(w, cs, es) && n in AllNames(w)
    ensures n in AllNames(es)
  {
    NamesOf(w, n);
    var x :| x in w && n in Names(x.protos);
    var i :| 0 <= i < |w| && w[i] == x;
    GatheredNames(es, cs[i], n);
    NamesOf(es, n);
  }

  lemma {:induction false} ReadRawBack(es: seq<Entry>)
    requires AllClean(es)
    ensures RawEntries(WriteAll(es)) == es
  {
    if es != [] {
      assert es[0] in es && forall e | e in es[1..] :: e in es;
      WriteThenRead(es[0]);
      assert WriteAll(es)[1..] == WriteAll(es[1..]);
      ReadRawBack(es[1..]);
    }
  }

  // What is read from compacted preferences are the merged entries.
  lemma CompactedEntries(v: seq<string>)
    ensures var es := Entries(v); var w := MergeAll([], es);
            RawEntries(Compacted(v)) == w && Collects(w, Firsts(es), es)
  {
    EntriesAreClean(v);
    MergeAllKeeps([], Entries(v));
    ReadRawBack(MergeAll([], Entries(v)));
    CompactGathers(Entries(v));
  }

  /** Compacting the preferences leaves the colour of every protocol as it was if and only if the two readings
      agree: for all preferences, whatever is listed twice, cannot be parsed or has spaces in it. */
  lemma CompactKeepsColoursIff(v: seq<string>, parse: string -> Option<Rgb>, last: Rgb)
    ensures ColoursOf(Compacted(v), parse, last) == ColoursOf(v, parse, last) <==> ReadingsAgree(v, parse, last)
  {
    hide ReadMap, LastListed, LastColour, MergeAll, AllNames, RawEntries, Entries, Compacted, Names, Gathered;
    var raw, es := RawEntries(v), Entries(v);
    var w := RawEntries(Compacted(v));
    CompactedEntries(v);
    forall n
      ensures n in ColoursOf(v, parse, last) <==> LastListed(raw, parse, last, n).Some?
      ensures n in ColoursOf(v, parse, last) ==> Some(ColoursOf(v, parse, last)[n]) == LastListed(raw, parse, last, n)
      ensures n in ColoursOf(Compacted(v), parse, last) <==> LastColour(Firsts(es), es, parse, last, n).Some?
      ensures n in ColoursOf(Compacted(v), parse, last) ==>
                Some(ColoursOf(Compacted(v), parse, last)[n]) == LastColour(Firsts(es), es, parse, last, n)
      ensures n !in AllNames(raw) + AllNames(es) ==>
                LastListed(raw, parse, last, n) == None == LastColour(Firsts(es), es, parse, last, n)
    {
      ReadIsLast(map[], raw, parse, last, n);
      ReadIsLast(map[], w, parse, last, n);
      CollectedIsLast(w, Firsts(es), es, parse, last, n);
      if n in AllNames(w) {
        CollectedNames(w, Firsts(es), es, n);
      }
    }
  }

  // ---- when the preferences are tidy ----

  ghost predicate AllParse(es: seq<Entry>, parse: string -> Option<Rgb>) {
    forall e | e in es :: parse(e.colour).Some?
  }

  // No protocol is listed under two colours.
  ghost predicate OneColourEach(es: seq<Entry>, parse: string -> Option<Rgb>) {
    forall e, f, n | e in es && f in es && n in Names(e.protos) && n in Names(f.protos) :: parse(e.colour) == parse(f.colour)
  }

  // Upper and lower case do not matter to the parser.
  ghost predicate CaseBlind(parse: string -> Option<Rgb>) {
    forall c, d | SameColour(c, d) :: parse(c) == parse(d)
  }

  lemma {:induction false} FirstsOccur(es: seq<Entry>, c: string)
    requires c in Firsts(es)
    ensures exists e :: e in es && e.colour == c
    decreases |es|
  {
    var n := |es| - 1;
    assert es[n] in es && forall e | e in es[..n] :: e in es;
    if c in Firsts(es[..n]) {
      FirstsOccur(es[..n], c);
    }
  }

  // No carriage return and no form feed: all other white space separates.
  ghost predicate Plain(v: seq<string>) {
    forall s, c | s in v && c in s :: IsSpace(c) ==> IsBlank(c)
  }

  lemma {:induction false} PlainEntries(v: seq<string>)
    requires Plain(v)
    ensures RawEntries(v) == Entries(v)
  {
    if v != [] {
      assert v[0] in v && forall s | s in v[1..] :: s in v;
      PlainEntries(v[1..]);
      if v[0] != "" {
        var t := Split(v[0], EndsColour);
        SplitPieces(v[0], EndsColour);
        if |t| > 1 {
          assert t[1] in t;
          NoSpacesFacts(t[1]);
        }
      }
    }
  }

  lemma {:induction false} LastListedIs(es: seq<Entry>, parse: string -> Option<Rgb>, last: Rgb, n: string)
    requires AllParse(es, parse) && n in AllNames(es)
    ensures exists e :: e in es && n in Names(e.protos) && LastListed(es, parse, last, n) == parse(e.colour)
    decreases |es|
  {
    hide Names;
    assert es[0] in es && forall e | e in es[1..] :: e in es;
    var c := Parsed(parse, es[0].colour, last);
    ReadIsLast(map[], es[1..], parse, c, n);
    if n in AllNames(es[1..]) {
      LastListedIs(es[1..], parse, c, n);
    }
  }

  lemma {:induction false} LastColourIs(cs: seq<string>, es: seq<Entry>, parse: string -> Option<Rgb>, last: Rgb, n: string)
    requires (forall c | c in cs :: parse(c).Some?) && exists c :: c in cs && n in Gathered(es, c)
    ensures exists c :: c in cs && n in Gathered(es, c) && LastColour(cs, es, parse, last, n) == parse(c)
    decreases |cs|
  {
    hide Gathered;
    assert cs[0] in cs && forall c | c in cs[1..] :: c in cs;
    var k := Parsed(parse, cs[0], last);
    if c :| c in cs[1..] && n in Gathered(es, c) {
      LastColourIs(cs[1..], es, parse, k, n);
    } else {
      NoLastColour(cs[1..], es, parse, k, n);
      assert n in Gathered(es, cs[0]);
    }
  }

  lemma {:induction false} NoLastColour(cs: seq<string>, es: seq<Entry>, parse: string -> Option<Rgb>, last: Rgb, n: string)
    requires forall c | c in cs :: n !in Gathered(es, c)
    ensures LastColour(cs, es, parse, last, n) == None
    decreases |cs|
  {
    if cs != [] {
      assert cs[0] in cs;
      NoLastColour(cs[1..], es, parse, Parsed(parse, cs[0], last), n);
    }
  }

  /** So compacting changes no colour as long as no protocol is listed under two colours, all colours can be parsed
      and white space is plain. */
  lemma CompactKeepsColours(v: seq<string>, parse: string -> Option<Rgb>, last: Rgb)
    requires CaseBlind(parse) && Plain(v) && AllParse(RawEntries(v), parse) && OneColourEach(RawEntries(v), parse)
    ensures ColoursOf(Compacted(v), parse, last) == ColoursOf(v, parse, last)
  {
    PlainEntries(v);
    CompactKeepsColoursIff(v, parse, last);
    var es := Entries(v);
    forall n | n in AllNames(es) ensures LastListed(es, parse, last, n) == LastColour(Firsts(es), es, parse, last, n) {
      OneColourIsLast(es, parse, last, n);
    }
  }

  lemma OneColourIsLast(es: seq<Entry>, parse: string -> Option<Rgb>, last: Rgb, n: string)
    requires CaseBlind(parse) && AllParse(es, parse) && OneColourEach(es, parse) && n in AllNames(es)
    ensures LastListed(es, parse, last, n) == LastColour(Firsts(es), es, parse, last, n)
  {
    hide Names, Firsts, Gathered, LastListed, LastColour, SameColour;
    LastListedIs(es, parse, last, n);
    var e :| e in es && n in Names(e.protos) && LastListed(es, parse, last, n) == parse(e.colour);
    FirstsKnow(es, e);
    var d :| d in Firsts(es) && SameColour(d, e.colour);
    SameIsSymmetric(d, e.colour);
    GatheredNames(es, d, n);
    forall c | c in Firsts(es) ensures parse(c).Some? {
      FirstsOccur(es, c);
    }
    LastColourIs(Firsts(es), es, parse, last, n);
    var c :| c in Firsts(es) && n in Gathered(es, c) && LastColour(Firsts(es), es, parse, last, n) == parse(c);
    GatheredNames(es, c, n);
    var f :| f in es && SameColour(f.colour, c) && n in Names(f.protos);
    assert parse(f.colour) == parse(c);
  }

  // ---- preferences that compacting changes ----

  predicate IsName(p: string) {
    p != "" && forall c | c in p :: !EndsProtocol(c)
  }

  lemma NameAlone(p: string)
    requires IsName(p)
    ensures Names(Some(p)) == [p]
  {
    SplitOne(p, EndsProtocol);
    assert Named([p]) == [p];
  }

  lemma ReadOne(m: map<string, Rgb>, c: string, p: string, es: seq<Entry>, parse: string -> Option<Rgb>, last: Rgb)
    requires IsName(p)
    ensures var k := Parsed(parse, c, last);
            ReadMap(m, [Entry(c, Some(p))] + es, parse, last) == ReadMap(m[p := k], es, parse, k)
  {
    NameAlone(p);
    assert ([Entry(c, Some(p))] + es)[1..] == es;
    assert PutAll(m, [p], Parsed(parse, c, last)) == m[p := Parsed(parse, c, last)];
  }

  lemma ReadPair(m: map<string, Rgb>, c: string, p: string, q: string, es: seq<Entry>, parse: string -> Option<Rgb>, last: Rgb)
    requires IsName(p) && IsName(q)
    ensures var k := Parsed(parse, c, last);
            ReadMap(m, [Entry(c, Some(p + "," + q))] + es, parse, last) == ReadMap(m[p := k][q := k], es, parse, k)
  {
    NameAlone(p);
    NameAlone(q);
    NamesJoin(Some(p), Some(q));
    var k := Parsed(parse, c, last);
    assert ([Entry(c, Some(p + "," + q))] + es)[1..] == es;
    assert [p] + [q] == [p, q] && [p, q][1..] == [q];
    assert PutAll(m[p := k], [q], k) == m[p := k][q := k];
  }

  lemma MergeThird(a: Entry, b: Entry, c: Entry, rest: seq<Entry>)
    requires SameColour(a.colour, c.colour) && !SameColour(a.colour, b.colour)
    ensures MergeAll([], [a, b, c] + rest) == MergeAll([a.(protos := JoinProtos(a.protos, c.protos)), b], rest)
  {
    assert ([a, b, c] + rest)[1..] == [b, c] + rest && ([b, c] + rest)[1..] == [c] + rest && ([c] + rest)[1..] == rest;
    assert [a][1..] == [] && [a, b][1..] == [b];
    assert Merge([], a) == [a] && Merge([a], b) == [a, b];
    assert Merge([a, b], c) == [a.(protos := JoinProtos(a.protos, c.protos)), b];
    assert MergeAll([], [a, b, c] + rest) == MergeAll([a], [b, c] + rest) == MergeAll([a, b], [c] + rest);
  }

  // A colour or a list of protocols that is written and read as it is
  predicate IsPlain(p: string) {
    p != "" && forall c | c in p :: !EndsColour(c) && !IsSpace(c)
  }

  lemma WrittenPrefs(es: seq<Entry>)
    requires AllClean(es)
    ensures var v := WriteAll(es);
            RawEntries(v) == es && Entries(v) == es && RawEntries(Compacted(v)) == MergeAll([], es)
  {
    ReadRawBack(es);
    ReadAllBack(es);
    CompactedEntries(WriteAll(es));
  }

  /** A protocol under two colours: of "c;q", "d;p", "c;p" the last gives p the colour c; compacted to "c;q,p" and
      "d;p" they give it the colour d. */
  lemma TwoColoursClash(c: string, d: string, p: string, q: string, parse: string -> Option<Rgb>, last: Rgb)
    requires IsPlain(c) && IsPlain(d) && IsPlain(p) && IsPlain(q) && IsName(p) && IsName(q) && p != q
    requires !SameColour(c, d) && parse(c).Some? && parse(d).Some?
    ensures var v := [c + ";" + q, d + ";" + p, c + ";" + p];
            && ColoursOf(v, parse, last) == map[q := parse(c).value, p := parse(c).value]
            && ColoursOf(Compacted(v), parse, last) == map[q := parse(c).value, p := parse(d).value]
  {
    hide Names, SameColour, Merge, Split, Compacted, Entries, RawEntries;
    var x, y, z := Entry(c, Some(q)), Entry(d, Some(p)), Entry(c, Some(p));
    assert WriteAll([x, y, z]) == [c + ";" + q, d + ";" + p, c + ";" + p];
    WrittenPrefs([x, y, z]);
    SameIsSymmetric(c, c);
    MergeThird(x, y, z, []);
    assert [x, y, z] + [] == [x, y, z] && [x] + [y, z] == [x, y, z] && [y] + [z] == [y, z] && [z] + [] == [z];
    var k, l := parse(c).value, parse(d).value;
    ReadOne(map[], c, q, [y, z], parse, last);
    ReadOne(map[q := k], d, p, [z], parse, k);
    ReadOne(map[q := k][p := l], c, p, [], parse, l);
    var w := Entry(c, Some(q + "," + p));
    assert [w] + [y] == [w, y] && [y] + [] == [y];
    ReadPair(map[], c, q, p, [y], parse, last);
    ReadOne(map[q := k][p := k], d, p, [], parse, k);
  }

  /** A colour u that cannot be parsed: of "c", "d", "c", "u;p" it follows c, and compacted to "c", "d", "u;p" it
      follows d. */
  lemma UnknownColourMoves(c: string, d: string, u: string, p: string, parse: string -> Option<Rgb>, last: Rgb)
    requires IsPlain(c) && IsPlain(d) && IsPlain(u) && IsPlain(p) && IsName(p)
    requires !SameColour(c, d) && !SameColour(c, u) && !SameColour(d, u)
    requires parse(c).Some? && parse(d).Some? && parse(u).None?
    ensures var v := [c, d, c, u + ";" + p];
            && ColoursOf(v, parse, last) == map[p := parse(c).value]
            && ColoursOf(Compacted(v), parse, last) == map[p := parse(d).value]
  {
    hide Names, SameColour, Merge, Split, Compacted, Entries, RawEntries;
    var x, y, z := Entry(c, None), Entry(d, None), Entry(u, Some(p));
    assert WriteAll([x, y, x, z]) == [c, d, c, u + ";" + p];
    WrittenPrefs([x, y, x, z]);
    SameIsSymmetric(c, c);
    MergeThird(x, y, x, [z]);
    MergeApart([x, y], z);
    assert [x, y, x] + [z] == [x, y, x, z] && [x, y] + [z] == [x, y, z] && [z][1..] == [];
    assert MergeAll([x, y], [z]) == [x, y, z];
    var k, l := parse(c).value, parse(d).value;
    ReadNone(map[], c, [y, x, z], parse, last);
    ReadNone(map[], d, [x, z], parse, k);
    ReadNone(map[], c, [z], parse, l);
    ReadOne(map[], u, p, [], parse, k);
    assert [x] + [y, x, z] == [x, y, x, z] && [y] + [x, z] == [y, x, z] && [x] + [z] == [x, z] && [z] + [] == [z];
    ReadNone(map[], c, [y, z], parse, last);
    ReadNone(map[], d, [z], parse, k);
    ReadOne(map[], u, p, [], parse, l);
    assert [x] + [y, z] == [x, y, z] && [y] + [z] == [y, z];
  }

  lemma ReadNone(m: map<string, Rgb>, c: string, es: seq<Entry>, parse: string -> Option<Rgb>, last: Rgb)
    ensures ReadMap(m, [Entry(c, None)] + es, parse, last) == ReadMap(m, es, parse, Parsed(parse, c, last))
  {
    assert ([Entry(c, None)] + es)[1..] == es;
  }

  /** A carriage return is part of a name as it is read, but compacting takes it out: then another protocol has
      the colour. */
  lemma CarriageReturnIsLost(c: string, p: string, q: string, parse: string -> Option<Rgb>, last: Rgb)
    requires IsPlain(c) && IsPlain(p) && IsPlain(q) && IsName(p) && IsName(q)
    ensures var v, k := [c + ";" + p + ['\r'] + q], Parsed(parse, c, last);
            && ColoursOf(v, parse, last) == map[p + ['\r'] + q := k]
            && ColoursOf(Compacted(v), parse, last) == map[p + q := k]
  {
    var s := p + ['\r'] + q;
    var x, y := Entry(c, Some(s)), Entry(c, Some(p + q));
    SplitOne(c, EndsColour);
    SplitOne(s, EndsColour);
    SplitAppend(c, ';', s, EndsColour);
    assert c + ";" + p + ['\r'] + q == c + [';'] + s;
    ReturnIsSpace(p, q);
    var v := [c + ";" + p + ['\r'] + q];
    assert RawEntries(v) == [x] && Entries(v) == [y] by {
      assert v[1..] == [] && ReadEntry(v[0]) == Some(x) && Tidy(x) == y;
    }
    CompactedEntries(v);
    assert [y][1..] == [] && Merge([], y) == [y] && MergeAll([], [y]) == MergeAll([y], []);
    ReadOne(map[], c, s, [], parse, last);
    ReadOne(map[], c, p + q, [], parse, last);
    assert [x] + [] == [x] && [y] + [] == [y];
  }

  lemma ReturnIsSpace(p: string, q: string)
    requires IsPlain(p) && IsPlain(q)
    ensures NoSpaces(p + ['\r'] + q) == p + q
  {
    NoSpacesAppend(p + ['\r'], q);
    NoSpacesAppend(p, ['\r']);
    NoSpacesFacts(p);
    NoSpacesFacts(q);
    assert ['\r'][1..] == "" && NoSpaces(['\r']) == "" && p + "" == p;
  }

  /** Blank, tab, new line, carriage return and form feed are what compacting takes out of a list of protocols. */
  lemma SpacesGo(a: string, d: char, b: string)
    ensures NoSpaces(a + [d] + b) == if d in [' ', '\t', '\n', '\r', '\U{000C}'] then NoSpaces(a) + NoSpaces(b) else NoSpaces(a) + [d] + NoSpaces(b)
  {
    hide IsSpace;
    NoSpacesAppend(a + [d], b);
    NoSpacesAppend(a, [d]);
    OneSpace(d);
    assert NoSpaces(a) + "" == NoSpaces(a);
  }

  lemma OneSpace(d: char)
    ensures NoSpaces([d]) == if d in [' ', '\t', '\n', '\r', '\U{000C}'] then "" else [d]
  {
    assert [d][1..] == "" && NoSpaces("") == "";
  }

  lemma {:induction false} NoSpacesAppend(a: string, b: string)
    ensures NoSpaces(a + b) == NoSpaces(a) + NoSpaces(b)
  {
    if a == "" {
      assert a + b == b;
    } else {
      assert (a + b)[1..] == a[1..] + b;
      NoSpacesAppend(a[1..], b);
    }
  }

  /** Preferences that list colours only give these colours to protocols without one, in their order, and name no
      protocol. */
  lemma {:induction false} ColoursAlone(v: seq<string>, parse: string -> Option<Rgb>, last: Rgb)
    requires forall c | c in v :: IsPlain(c) && parse(c).Some?
    ensures ColoursOf(v, parse, last) == map[]
    ensures ReadCycle(RawEntries(v), parse, last) == seq(|v|, i requires 0 <= i < |v| => parse(v[i]).value)
  {
    hide IsPlain, ReadEntry, ReadMap, ReadCycle;
    if v == [] {
      NothingRead(parse, last);
    } else {
      assert v[0] in v && forall c | c in v[1..] :: c in v;
      ColoursAlone(v[1..], parse, parse(v[0]).value);
      PlainIsColour(v[0]);
      NextAlone(v[0], RawEntries(v[1..]), parse, last);
      var all := seq(|v|, i requires 0 <= i < |v| => parse(v[i]).value);
      assert all == [parse(v[0]).value] + seq(|v[1..]|, i requires 0 <= i < |v[1..]| => parse(v[1..][i]).value);
    }
  }

  lemma NothingRead(parse: string -> Option<Rgb>, last: Rgb)
    ensures ReadMap(map[], [], parse, last) == map[] && ReadCycle([], parse, last) == []
  {}

  lemma PlainIsColour(c: string)
    requires IsPlain(c)
    ensures ReadEntry(c) == Some(Entry(c, None))
  {
    SplitOne(c, EndsColour);
  }

  lemma NextAlone(c: string, es: seq<Entry>, parse: string -> Option<Rgb>, last: Rgb)
    requires parse(c).Some?
    ensures ReadMap(map[], [Entry(c, None)] + es, parse, last) == ReadMap(map[], es, parse, parse(c).value)
    ensures ReadCycle([Entry(c, None)] + es, parse, last) == [parse(c).value] + ReadCycle(es, parse, parse(c).value)
  {
    ReadNone(map[], c, es, parse, last);
    assert ([Entry(c, None)] + es)[1..] == es;
  }
}
