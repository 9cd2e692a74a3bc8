/** Compacting the colour preferences (src/datastructs.c:224-316): a list of strings, each a colour and
    perhaps a list of protocols; the entries of one colour are joined. */
module Colours {
  import opened Wrappers

  // ---- strings ----

  predicate IsBlank(c: char) {
    c == ' ' || c == '\t' || c == '\n'
  }

  predicate EndsColour(c: char) {
    c == ';' || IsBlank(c)
  }

  predicate EndsProtocol(c: char) {
    c == ',' || IsBlank(c)
  }

  // g_ascii_isspace
  predicate IsSpace(c: char) {
    IsBlank(c) || c == '\r' || c == '\U{000C}'
  }

  // g_strsplit_set, for a string that is not empty
  function Split(s: string, ends: char -> bool): (r: seq<string>)
    ensures |r| > 0
  {
    if s == "" then [""]
    else
      var r := Split(s[1..], ends);
      if ends(s[0]) then [""] + r else [[s[0]] + r[0]] + r[1..]
  }

  // remove_spaces
  function NoSpaces(s: string): string {
    if s == "" then "" else (if IsSpace(s[0]) then "" else [s[0]]) + NoSpaces(s[1..])
  }

  function LowerChar(c: char): char {
    if 'A' <= c <= 'Z' then (c as int - 'A' as int + 'a' as int) as char else c
  }

  // g_ascii_strcasecmp finds no difference
  predicate SameColour(c: string, d: string) {
    |c| == |d| && forall i :: 0 <= i < |c| ==> LowerChar(c[i]) == LowerChar(d[i])
  }

  // The names in a list of protocols; empty ones are skipped.
  function Named(ts: seq<string>): seq<string> {
    if ts == [] then [] else (if ts[0] == "" then [] else [ts[0]]) + Named(ts[1..])
  }

  function Names(protos: Option<string>): seq<string> {
    if protos.None? || protos.value == "" then [] else Named(Split(protos.value, EndsProtocol))
  }

  // ---- entries ----

  datatype Entry = Entry(colour: string, protos: Option<string>)

  // How an entry is read; an empty string is no entry.
  function ReadEntry(s: string): Option<Entry> {
    if s == "" then None
    else
      var t := Split(s, EndsColour);
      Some(Entry(t[0], if |t| > 1 then Some(t[1]) else None))
  }

  function Tidy(e: Entry): Entry {
    e.(protos := if e.protos.Some? then Some(NoSpaces(e.protos.value)) else None)
  }

  function Entries(v: seq<string>): seq<Entry> {
    if v == [] then []
    else (if ReadEntry(v[0]).Some? then [Tidy(ReadEntry(v[0]).value)] else []) + Entries(v[1..])
  }

  // How an entry is written
  function Write(e: Entry): string {
    if e.protos.Some? then e.colour + ";" + e.protos.value else e.colour
  }

  // ---- compacting ----

  function JoinProtos(a: Option<string>, b: Option<string>): Option<string> {
    if b.None? || b.value == "" then a
    else if a.Some? then Some(a.value + "," + b.value)
    else b
  }

  // An entry joins the one of the same colour, or comes last.
  function Merge(work: seq<Entry>, e: Entry): seq<Entry> {
    if work == [] then [e]
    else if SameColour(work[0].colour, e.colour) then [work[0].(protos := JoinProtos(work[0].protos, e.protos))] + work[1..]
    else [work[0]] + Merge(work[1..], e)
  }

  function MergeAll(work: seq<Entry>, es: seq<Entry>): seq<Entry>
    decreases |es|
  {
    if es == [] then work else MergeAll(Merge(work, es[0]), es[1..])
  }

  function WriteAll(es: seq<Entry>): (r: seq<string>)
    ensures |r| == |es|
  {
    seq(|es|, i requires 0 <= i < |es| => Write(es[i]))
  }

  // protohash_compact
  function Compacted(v: seq<string>): seq<string> {
    WriteAll(MergeAll([], Entries(v)))
  }

  // ---- splitting ----

  lemma {:induction false} SplitAppend(a: string, d: char, b: string, ends: char -> bool)
    requires ends(d)
    ensures Split(a + [d] + b, ends) == Split(a, ends) + Split(b, ends)
  {
    var s := a + [d] + b;
    if a == "" {
      assert s[1..] == b;
    } else {
      assert s[1..] == a[1..] + [d] + b;
      SplitAppend(a[1..], d, b, ends);
    }
  }

  // A string without separators is one piece.
  lemma {:induction false} SplitOne(a: string, ends: char -> bool)
    requires forall c | c in a :: !ends(c)
    ensures Split(a, ends) == [a]
  {
    if a != "" {
      assert a[0] in a && forall c | c in a[1..] :: c in a;
      SplitOne(a[1..], ends);
      assert [a[0]] + a[1..] == a;
    }
  }

  lemma {:induction false} SplitPieces(s: string, ends: char -> bool)
    ensures forall p, c | p in Split(s, ends) && c in p :: c in s && !ends(c)
  {
    if s != "" {
      SplitPieces(s[1..], ends);
      var r := Split(s[1..], ends);
      assert s == [s[0]] + s[1..];
      if !ends(s[0]) {
        forall p, c | p in Split(s, ends) && c in p ensures c in s && !ends(c) {
          if p == [s[0]] + r[0] {
            assert r[0] in r;
          } else {
            assert p in r;
          }
        }
      }
    }
  }

  lemma {:induction false} NamedAppend(a: seq<string>, b: seq<string>)
    ensures Named(a + b) == Named(a) + Named(b)
  {
    if a == [] {
      assert a + b == b;
    } else {
      assert (a + b)[1..] == a[1..] + b;
      NamedAppend(a[1..], b);
    }
  }

  lemma NamesOfEmpty()
    ensures Named(Split("", EndsProtocol)) == []
  {
    assert Split("", EndsProtocol)[1..] == [];
  }

  /** Joining two lists of protocols names what the one names and then what the other does. */
  lemma NamesJoin(a: Option<string>, b: Option<string>)
    ensures Names(JoinProtos(a, b)) == Names(a) + Names(b)
  {
    NamesOfEmpty();
    if b.Some? && b.value != "" && a.Some? {
      SplitAppend(a.value, ',', b.value, EndsProtocol);
      NamedAppend(Split(a.value, EndsProtocol), Split(b.value, EndsProtocol));
      assert a.value + "," + b.value == a.value + [','] + b.value;
    }
  }

  /** A semicolon, a blank, a tab or a new line ends the colour of an entry, and nothing else does. */
  lemma ColourEnds(colour: string, d: char, protos: string)
    requires d in [';', ' ', '\t', '\n'] && forall c | c in colour + protos :: c !in [';', ' ', '\t', '\n']
    ensures ReadEntry(colour + [d] + protos) == Some(Entry(colour, Some(protos)))
  {
    assert forall c | c in colour :: c in colour + protos;
    assert forall c | c in protos :: c in colour + protos;
    SplitOne(colour, EndsColour);
    SplitOne(protos, EndsColour);
    SplitAppend(colour, d, protos, EndsColour);
  }

  /** A comma, a blank, a tab or a new line ends the name of a protocol, and nothing else does. */
  lemma NameEnds(p: string, d: char, q: string)
    requires d in [',', ' ', '\t', '\n'] && p != "" && q != "" && forall c | c in p + q :: c !in [',', ' ', '\t', '\n']
    ensures Names(Some(p + [d] + q)) == [p, q]
  {
    assert forall c | c in p :: c in p + q;
    assert forall c | c in q :: c in p + q;
    SplitOne(p, EndsProtocol);
    SplitOne(q, EndsProtocol);
    SplitAppend(p, d, q, EndsProtocol);
    assert [p] + [q] == [p, q] && Named([p, q]) == [p] + Named([q]) && Named([q]) == [q];
  }

  // The same letter in both cases
  predicate TwoCases(c: char, d: char) {
    'A' <= c <= 'Z' && d as int == c as int + 32
  }

  /** Colours are the same if they differ in the case of letters only. */
  lemma SameButCase(c: string, d: string)
    ensures SameColour(c, d) <==>
            |c| == |d| && forall i | 0 <= i < |c| :: c[i] == d[i] || TwoCases(c[i], d[i]) || TwoCases(d[i], c[i])
  {
    if |c| == |d| {
      forall i | 0 <= i < |c| ensures LowerChar(c[i]) == LowerChar(d[i]) <==> c[i] == d[i] || TwoCases(c[i], d[i]) || TwoCases(d[i], c[i]) {
        LowerIs(c[i], d[i]);
      }
    }
  }

  lemma LowerIs(c: char, d: char)
    ensures LowerChar(c) == LowerChar(d) <==> c == d || TwoCases(c, d) || TwoCases(d, c)
  {
    assert LowerChar(c) as int == if 'A' <= c <= 'Z' then c as int + 32 else c as int;
    assert LowerChar(d) as int == if 'A' <= d <= 'Z' then d as int + 32 else d as int;
  }

  lemma {:induction false} NoSpacesFacts(s: string)
    ensures (forall c | c in NoSpaces(s) :: c in s && !IsSpace(c))
    ensures (forall c | c in s :: !IsSpace(c)) ==> NoSpaces(s) == s
  {
    if s != "" {
      NoSpacesFacts(s[1..]);
      assert s == [s[0]] + s[1..];
    }
  }

  // ---- entries that are written and read back ----

  /** An entry as compacting produces it */
  ghost predicate Clean(e: Entry) {
    && (forall c | c in e.colour :: !EndsColour(c))
    && (e.protos.Some? ==> forall c | c in e.protos.value :: !EndsColour(c) && !IsSpace(c))
    && (e.colour == "" ==> e.protos.Some?)
  }

  lemma ReadIsClean(s: string)
    requires ReadEntry(s).Some?
    ensures Clean(Tidy(ReadEntry(s).value))
  {
    var t := Split(s, EndsColour);
    SplitPieces(s, EndsColour);
    if |t| > 1 {
      NoSpacesFacts(t[1]);
    }
  }

  /** A clean entry is read back as it was written. */
  lemma WriteThenRead(e: Entry)
    requires Clean(e)
    ensures ReadEntry(Write(e)) == Some(e) && Tidy(e) == e
  {
    SplitOne(e.colour, EndsColour);
    if e.protos.Some? {
      SplitOne(e.protos.value, EndsColour);
      SplitAppend(e.colour, ';', e.protos.value, EndsColour);
      NoSpacesFacts(e.protos.value);
      assert Write(e) == e.colour + [';'] + e.protos.value;
    }
  }

  ghost predicate AllClean(es: seq<Entry>) {
    forall e | e in es :: Clean(e)
  }

  lemma {:induction false} EntriesAreClean(v: seq<string>)
    ensures AllClean(Entries(v))
  {
    if v != [] {
      EntriesAreClean(v[1..]);
      if ReadEntry(v[0]).Some? {
        ReadIsClean(v[0]);
      }
    }
  }

  lemma {:induction false} ReadAllBack(es: seq<Entry>)
    requires AllClean(es)
    ensures Entries(WriteAll(es)) == es
  {
    if es != [] {
      assert es[0] in es && forall e | e in es[1..] :: e in es;
      WriteThenRead(es[0]);
      assert WriteAll(es)[1..] == WriteAll(es[1..]);
      ReadAllBack(es[1..]);
    }
  }

  // ---- one entry per colour ----

  ghost predicate OnePerColour(es: seq<Entry>) {
    forall i, j :: 0 <= i < j < |es| ==> !SameColour(es[i].colour, es[j].colour)
  }

  ghost predicate HasColour(es: seq<Entry>, c: string) {
    exists e :: e in es && SameColour(e.colour, c)
  }

  lemma HasColourHere(work: seq<Entry>, c: string)
    requires work != []
    ensures HasColour(work, c) <==> SameColour(work[0].colour, c) || HasColour(work[1..], c)
  {
    hide SameColour;
    assert work == [work[0]] + work[1..];
    assert work[0] in work;
  }

  /** Merging an entry keeps colours and spellings, and adds its own if it is new. */
  lemma {:induction false} MergeFacts(work: seq<Entry>, e: Entry)
    ensures var r := Merge(work, e);
            && |r| == (if HasColour(work, e.colour) then |work| else |work| + 1)
            && (forall i :: 0 <= i < |work| ==> r[i].colour == work[i].colour)
            && (|r| > |work| ==> r[|work|] == e)
  {
    hide SameColour, HasColour, JoinProtos;
    if work == [] {
      NoColours(e.colour);
    } else {
      HasColourHere(work, e.colour);
      MergeFacts(work[1..], e);
    }
  }

  lemma NoColours(c: string)
    ensures !HasColour([], c)
  {}

  lemma {:induction false} MergeIsClean(work: seq<Entry>, e: Entry)
    requires AllClean(work) && Clean(e)
    ensures AllClean(Merge(work, e))
  {
    hide SameColour, Clean;
    if work != [] {
      assert work[0] in work && forall x | x in work[1..] :: x in work;
      MergeIsClean(work[1..], e);
      JoinIsClean(work[0], e);
    }
  }

  lemma JoinIsClean(a: Entry, b: Entry)
    requires Clean(a) && Clean(b)
    ensures Clean(a.(protos := JoinProtos(a.protos, b.protos)))
  {}

  lemma MergeKeepsOne(work: seq<Entry>, e: Entry)
    requires OnePerColour(work)
    ensures OnePerColour(Merge(work, e))
  {
    MergeFacts(work, e);
    var r := Merge(work, e);
    forall i, j | 0 <= i < j < |r| ensures !SameColour(r[i].colour, r[j].colour) {
      if j == |work| {
        assert work[i] in work;
      }
    }
  }

  lemma {:induction false} MergeAllKeeps(work: seq<Entry>, es: seq<Entry>)
    requires OnePerColour(work) && AllClean(work) && AllClean(es)
    ensures OnePerColour(MergeAll(work, es)) && AllClean(MergeAll(work, es))
    decreases |es|
  {
    if es != [] {
      assert es[0] in es && forall e | e in es[1..] :: e in es;
      MergeKeepsOne(work, es[0]);
      MergeIsClean(work, es[0]);
      MergeAllKeeps(Merge(work, es[0]), es[1..]);
    }
  }

  // Entries of colours not there yet are only appended.
  lemma {:induction false} MergeNew(work: seq<Entry>, es: seq<Entry>)
    requires OnePerColour(work + es)
    ensures MergeAll(work, es) == work + es
    decreases |es|
  {
    if es == [] {
      assert work + es == work;
    } else {
      assert (work + es)[|work|] == es[0];
      forall e | e in work ensures !SameColour(e.colour, es[0].colour) {
        var i :| 0 <= i < |work| && work[i] == e;
        assert (work + es)[i] == e;
      }
      MergeFacts(work, es[0]);
      MergeApart(work, es[0]);
      assert work + [es[0]] + es[1..] == work + es;
      MergeNew(work + [es[0]], es[1..]);
    }
  }

  lemma {:induction false} MergeApart(work: seq<Entry>, e: Entry)
    requires !HasColour(work, e.colour)
    ensures Merge(work, e) == work + [e]
  {
    if work != [] {
      assert work[0] in work && forall x | x in work[1..] :: x in work;
      MergeApart(work[1..], e);
    }
  }

  /** Compacting twice is compacting once. */
  lemma CompactIsIdempotent(v: seq<string>)
    ensures Compacted(Compacted(v)) == Compacted(v)
  {
    EntriesAreClean(v);
    MergeAllKeeps([], Entries(v));
    var w := MergeAll([], Entries(v));
    ReadAllBack(w);
    assert [] + w == w;
    MergeNew([], w);
  }

  // ---- what compacting gathers ----

  predicate Known(cs: seq<string>, c: string) {
    exists d :: d in cs && SameColour(d, c)
  }

  // The colours in the order in which they first occur, as they are spelled there
  function Firsts(es: seq<Entry>): seq<string> {
    if es == [] then []
    else
      var n := |es| - 1;
      var f := Firsts(es[..n]);
      if Known(f, es[n].colour) then f else f + [es[n].colour]
  }

  // The protocols listed under a colour, in order
  function Gathered(es: seq<Entry>, c: string): seq<string> {
    if es == [] then []
    else (if SameColour(es[0].colour, c) then Names(es[0].protos) else []) + Gathered(es[1..], c)
  }

  lemma {:induction false} GatheredLast(es: seq<Entry>, e: Entry, c: string)
    ensures Gathered(es + [e], c) == Gathered(es, c) + if SameColour(e.colour, c) then Names(e.protos) else []
  {
    if es == [] {
      assert (es + [e])[1..] == [];
    } else {
      assert (es + [e])[1..] == es[1..] + [e];
      GatheredLast(es[1..], e, c);
    }
  }

  lemma {:induction false} MergeAllLast(work: seq<Entry>, es: seq<Entry>, e: Entry)
    ensures MergeAll(work, es + [e]) == Merge(MergeAll(work, es), e)
    decreases |es|
  {
    if es == [] {
      assert (es + [e])[1..] == [];
    } else {
      assert (es + [e])[1..] == es[1..] + [e];
      MergeAllLast(Merge(work, es[0]), es[1..], e);
    }
  }

  lemma SameIsTransitive(c: string, d: string, e: string)
    ensures SameColour(c, d) && SameColour(e, d) ==> SameColour(c, e)
  {}

  lemma {:induction false} MergeNames(work: seq<Entry>, e: Entry, i: nat)
    requires OnePerColour(work) && i < |work|
    ensures |Merge(work, e)| >= |work|
    ensures Names(Merge(work, e)[i].protos) ==
            Names(work[i].protos) + if SameColour(work[i].colour, e.colour) then Names(e.protos) else []
  {
    hide Names, JoinProtos, SameColour;
    MergeFacts(work, e);
    if SameColour(work[0].colour, e.colour) {
      NamesJoin(work[0].protos, e.protos);
      if i > 0 {
        SameIsTransitive(work[0].colour, e.colour, work[i].colour);
      }
    } else if i > 0 {
      MergeNames(work[1..], e, i - 1);
    }
  }

  // The entries w have these colours.
  ghost predicate Spells(w: seq<Entry>, cs: seq<string>) {
    |w| == |cs| && forall i :: 0 <= i < |w| ==> w[i].colour == cs[i]
  }

  lemma SpellsKnown(w: seq<Entry>, cs: seq<string>, c: string)
    requires Spells(w, cs)
    ensures HasColour(w, c) <==> Known(cs, c)
  {
    hide SameColour;
    if d :| d in cs && SameColour(d, c) {
      var i :| 0 <= i < |cs| && cs[i] == d;
      assert w[i] in w;
    }
    if x :| x in w && SameColour(x.colour, c) {
      var i :| 0 <= i < |w| && w[i] == x;
      assert cs[i] in cs;
    }
  }

  /** Compacting leaves one entry per colour, in the order and the spelling of the first occurrences, and
      under each colour all the protocols that were listed under it, in order. */
  lemma {:induction false} CompactGathers(es: seq<Entry>)
    ensures var w := MergeAll([], es);
            && OnePerColour(w) && Spells(w, Firsts(es))
            && forall i :: 0 <= i < |w| ==> Names(w[i].protos) == Gathered(es, w[i].colour)
    decreases |es|
  {
    hide SameColour, Names, Gathered, Merge, HasColour, Known, OnePerColour;
    if es == [] {
      NoneGathered();
    } else {
      var n := |es| - 1;
      var was, e := es[..n], es[n];
      assert es == was + [e];
      CompactGathers(was);
      MergeAllLast([], was, e);
      var work, w := MergeAll([], was), MergeAll([], es);
      MergeKeepsOne(work, e);
      MergeFacts(work, e);
      SpellsKnown(work, Firsts(was), e.colour);
      forall i | 0 <= i < |w| ensures Names(w[i].protos) == Gathered(es, w[i].colour) {
        GatheredLast(was, e, w[i].colour);
        if i < |work| {
          MergeNames(work, e, i);
          SameIsSymmetric(work[i].colour, e.colour);
        } else {
          SameIsSymmetric(e.colour, e.colour);
          if Gathered(was, e.colour) != [] {
            GatheredHasColour(was, e.colour, work);
          }
          assert [] + Names(e.protos) == Names(e.protos);
        }
      }
    }
  }

  lemma SameIsSymmetric(c: string, d: string)
    ensures (SameColour(c, d) <==> SameColour(d, c)) && SameColour(c, c)
  {}

  lemma NoneGathered()
    ensures MergeAll([], []) == [] && Firsts([]) == [] && OnePerColour([])
  {}

  lemma {:induction false} FirstsKnow(es: seq<Entry>, e: Entry)
    requires e in es
    ensures Known(Firsts(es), e.colour)
    decreases |es|
  {
    var n := |es| - 1;
    assert es == es[..n] + [es[n]];
    if e != es[n] {
      assert e in es[..n];
      FirstsKnow(es[..n], e);
      var d :| d in Firsts(es[..n]) && SameColour(d, e.colour);
      assert d in Firsts(es);
    } else if !Known(Firsts(es[..n]), e.colour) {
      assert e.colour in Firsts(es);
    }
  }

  lemma {:induction false} GatheredNames(es: seq<Entry>, c: string, n: string)
    ensures n in Gathered(es, c) <==> exists e :: e in es && SameColour(e.colour, c) && n in Names(e.protos)
  {
    if es != [] {
      assert es == [es[0]] + es[1..];
      GatheredNames(es[1..], c, n);
    }
  }

  lemma GatheredHasColour(es: seq<Entry>, c: string, work: seq<Entry>)
    requires Spells(work, Firsts(es)) && Gathered(es, c) != []
    ensures HasColour(work, c)
  {
    var n := Gathered(es, c)[0];
    GatheredNames(es, c, n);
    var e :| e in es && SameColour(e.colour, c) && n in Names(e.protos);
    FirstsKnow(es, e);
    var d :| d in Firsts(es) && SameColour(d, e.colour);
    var i :| 0 <= i < |work| && Firsts(es)[i] == d;
    assert work[i] in work && SameColour(work[i].colour, c);
  }

  // ---- compacting, step by step ----

  lemma {:induction false} EntriesLast(v: seq<string>, s: string)
    ensures Entries(v + [s]) == Entries(v) + if ReadEntry(s).Some? then [Tidy(ReadEntry(s).value)] else []
  {
    hide ReadEntry, Tidy;
    if v == [] {
      assert (v + [s])[1..] == [];
    } else {
      assert (v + [s])[1..] == v[1..] + [s];
      EntriesLast(v[1..], s);
      var head := if ReadEntry(v[0]).Some? then [Tidy(ReadEntry(v[0]).value)] else [];
      var last := if ReadEntry(s).Some? then [Tidy(ReadEntry(s).value)] else [];
      assert head + (Entries(v[1..]) + last) == head + Entries(v[1..]) + last;
    }
  }

  lemma {:induction false} MergeAt(work: seq<Entry>, e: Entry, k: nat)
    requires OnePerColour(work) && k < |work| && SameColour(work[k].colour, e.colour)
    ensures Merge(work, e) == work[k := work[k].(protos := JoinProtos(work[k].protos, e.protos))]
  {
    if k > 0 {
      SameIsTransitive(work[0].colour, e.colour, work[k].colour);
      MergeAt(work[1..], e, k - 1);
    }
  }

  // The list under construction stands the other way round.
  lemma MergeReversed(work: seq<Entry>, e: Entry, k: nat)
    requires OnePerColour(Reverse(work)) && k <= |work|
    requires forall j :: 0 <= j < k ==> !SameColour(work[j].colour, e.colour)
    requires k < |work| ==> SameColour(work[k].colour, e.colour)
    ensures Merge(Reverse(work), e) ==
            Reverse(if k < |work| then work[k := work[k].(protos := JoinProtos(work[k].protos, e.protos))] else [e] + work)
  {
    hide SameColour, JoinProtos, Merge;
    var r := Reverse(work);
    forall i | 0 <= i < |r| ensures r[i] == work[|work| - 1 - i] {
      ReverseAt(work, i);
    }
    if k < |work| {
      var x := work[k].(protos := JoinProtos(work[k].protos, e.protos));
      MergeAt(r, e, |work| - 1 - k);
      ReverseUpdate(work, k, x);
    } else {
      MergeApart(r, e);
      assert ([e] + work)[1..] == work;
    }
  }

  lemma ReverseUpdate<T>(s: seq<T>, k: nat, x: T)
    requires k < |s|
    ensures Reverse(s[k := x]) == Reverse(s)[|s| - 1 - k := x]
  {
    var t, u := Reverse(s[k := x]), Reverse(s)[|s| - 1 - k := x];
    forall i | 0 <= i < |s| ensures t[i] == u[i] {
      ReverseAt(s[k := x], i);
      ReverseAt(s, i);
    }
  }

  /** protohash_compact */
  method Compact(colors: seq<string>) returns (compacted: seq<string>)
    ensures compacted == Compacted(colors)
  {
    hide SameColour, Merge, MergeAll, Tidy, Split, JoinProtos, Entries;
    var work: seq<Entry> := [];
    NothingYet();
    for i := 0 to |colors|
      invariant Reverse(work) == MergeAll([], Entries(colors[..i])) && OnePerColour(Reverse(work))
    {
      EntriesLast(colors[..i], colors[i]);
      assert colors[..i+1] == colors[..i] + [colors[i]];
      var read := ReadEntry(colors[i]);
      if read.Some? {
        var e := Tidy(read.value);
        var el := 0;
        while el < |work| && !SameColour(work[el].colour, e.colour)
          invariant 0 <= el <= |work|
          invariant forall j :: 0 <= j < el ==> !SameColour(work[j].colour, e.colour)
        {
          el := el + 1;
        }
        MergeReversed(work, e, el);
        MergeAllLast([], Entries(colors[..i]), e);
        MergeKeepsOne(Reverse(work), e);
        if el < |work| {
          work := work[el := work[el].(protos := JoinProtos(work[el].protos, e.protos))];
        } else {
          work := [e] + work;
        }
      } else {
        assert Entries(colors[..i]) + [] == Entries(colors[..i]);
      }
    }
    assert colors[..|colors|] == colors;
    work := Reverse(work);
    compacted := [];
    for i := 0 to |work|
      invariant compacted == WriteAll(work)[..i]
    {
      compacted := compacted + [Write(work[i])];
    }
  }

  lemma NothingYet()
    ensures MergeAll([], Entries([])) == []
  {}
}
