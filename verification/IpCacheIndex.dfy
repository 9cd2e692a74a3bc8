/** The two hash tables of the DNS name cache (idbash, ipbash; src/ip-cache.c:301-477): arrays of
    fingers into sorted bucket lists. A finger may be any member of its bucket, and searches move it. */
module IpCacheIndex {
  import opened Wrappers
  import opened Bytes
  import opened IpCacheItem

  type Table = array<Item?>
  type Buckets = seq<seq<Item>>

  ghost predicate Finger(s: seq<Item>, f: Item?) {
    if f == null then s == [] else f in s
  }

  // The index as a value: every item is in the bucket of its hash, and buckets are sorted by key.
  ghost predicate Indexed(kind: Kind, buckets: Buckets, items: set<Item>) {
    && |buckets| == SIZE
    && (forall b :: 0 <= b < SIZE ==> Sorted(kind, b, buckets[b]))
    && (forall b, x :: 0 <= b < SIZE && x in buckets[b] ==> x in items)
    && (forall x :: x in items ==> x in buckets[Hash(kind, x)])
  }

  // The index on the heap: lists and fingers.
  ghost predicate IdLinks(table: Table, buckets: Buckets, items: set<Item>)
    reads table, items`nextId, items`prevId
  {
    && table.Length == SIZE == |buckets|
    && (forall b, x :: 0 <= b < SIZE && x in buckets[b] ==> x in items)
    && (forall b :: 0 <= b < SIZE ==> IdLinked(buckets[b]))
    && (forall b :: 0 <= b < SIZE ==> Finger(buckets[b], table[b]))
  }

  ghost predicate IpLinks(table: Table, buckets: Buckets, items: set<Item>)
    reads table, items`nextIp, items`prevIp
  {
    && table.Length == SIZE == |buckets|
    && (forall b, x :: 0 <= b < SIZE && x in buckets[b] ==> x in items)
    && (forall b :: 0 <= b < SIZE ==> IpLinked(buckets[b]))
    && (forall b :: 0 <= b < SIZE ==> Finger(buckets[b], table[b]))
  }

  /** A key belongs to one item at most. */
  lemma KeysUnique(kind: Kind, buckets: Buckets, items: set<Item>, x: Item, y: Item)
    requires Indexed(kind, buckets, items) && x in items && y in items
    requires if kind.ById? then x.id == y.id else x.ip == y.ip
    ensures x == y
  {
    var s := buckets[Hash(kind, x)];
    assert x in s && y in s;
    assert forall i, j | 0 <= i < |s| && 0 <= j < |s| && i != j :: Key(kind, s[i]) != Key(kind, s[j]);
  }

  lemma BucketsApart(kind: Kind, buckets: Buckets, items: set<Item>, b: nat)
    requires Indexed(kind, buckets, items) && b < SIZE
    ensures forall c, y | 0 <= c < SIZE && c != b && y in buckets[c] :: y !in buckets[b]
  {}

  lemma IndexedLink(kind: Kind, buckets: Buckets, items: set<Item>, x: Item, p: nat, t: seq<Item>)
    requires Indexed(kind, buckets, items)
    requires IsInsert(buckets[Hash(kind, x)], p, x, t) && Sorted(kind, Hash(kind, x), t)
    ensures Indexed(kind, buckets[Hash(kind, x) := t], items + {x})
  {
    InsertMembers(buckets[Hash(kind, x)], p, x, t);
  }

  lemma IndexedUnlink(kind: Kind, buckets: Buckets, items: set<Item>, x: Item, p: nat, s: seq<Item>)
    requires Indexed(kind, buckets, items) && x in items
    requires IsInsert(s, p, x, buckets[Hash(kind, x)])
    ensures Indexed(kind, buckets[Hash(kind, x) := s], items - {x})
  {
    var h := Hash(kind, x);
    var t := buckets[h];
    SortedDistinct(kind, h, t);
    InsertDistinct(s, p, x, t);
    InsertMembers(s, p, x, t);
    RemoveSorted(kind, h, s, p, x, t);
  }

  lemma TakenOut<T>(t: seq<T>, x: T) returns (s: seq<T>, k: nat)
    requires x in t
    ensures IsInsert(s, k, x, t)
  {
    k :| k < |t| && t[k] == x;
    s := t[..k] + t[k+1..];
  }

  twostate lemma OtherBucketsId(buckets: Buckets, new b: nat)
    requires forall c | 0 <= c < |buckets| && c != b :: old(IdLinked(buckets[c]))
    requires forall c, y | 0 <= c < |buckets| && c != b && y in buckets[c] ::
               y.nextId == old(y.nextId) && y.prevId == old(y.prevId)
    ensures forall c | 0 <= c < |buckets| && c != b :: IdLinked(buckets[c])
  {
    forall c | 0 <= c < |buckets| && c != b ensures IdLinked(buckets[c]) {
      ghost var u := buckets[c];
      assert old(IdLinked(u));
      forall i | 0 <= i < |u| ensures u[i].nextId == old(u[i].nextId) && u[i].prevId == old(u[i].prevId) {
        assert u[i] in buckets[c];
      }
    }
  }

  // ipcache_linkresolveid, in the bucket s entered at any member of it, or at null when s is empty
  method LinkInBucketId(x: Item, start: Item?, ghost b: nat, ghost s: seq<Item>) returns (ghost p: nat, ghost t: seq<Item>)
    requires IdLinked(s) && Sorted(ById, b, s) && Finger(s, start) && Hash(ById, x) == b && x !in s
    requires forall y | y in s :: Key(ById, y) != Key(ById, x)
    modifies x`nextId, x`prevId, s`nextId, s`prevId
    ensures IdLinked(t) && Sorted(ById, b, t) && IsInsert(s, p, x, t)
  {
    if start == null {
      p, t := 0, [x];
      x.nextId, x.prevId := null, null;
    } else {
      var rp;
      ghost var k;
      rp, k := SeekGapId(x.id, start, s);
      GapFits(ById, b, s, Key(ById, x), k);
      SortedDistinct(ById, b, s);
      p := if Key(ById, rp) < Key(ById, x) then k + 1 else k;
      t := Inserted(s, p, x);
      InsertSorted(ById, b, s, p, x, t);
      SpliceId(x, rp, s, k, t);
    }
  }

  // ipcache_linkresolveid: the finger of x's bucket becomes x
  method LinkResolveId(table: Table, x: Item, ghost buckets: Buckets, ghost items: set<Item>) returns (ghost after: Buckets)
    requires Indexed(ById, buckets, items) && IdLinks(table, buckets, items) && x !in items
    requires forall y | y in items :: Key(ById, y) != Key(ById, x)
    modifies table, x`nextId, x`prevId, items`nextId, items`prevId
    ensures Indexed(ById, after, items + {x}) && IdLinks(table, after, items + {x})
    ensures table[Hash(ById, x)] == x
    ensures forall c | 0 <= c < table.Length && c != Hash(ById, x) :: table[c] == old(table[c])
  {
    var b := Hash(ById, x);
    ghost var s := buckets[b];
    BucketsApart(ById, buckets, items, b);
    ghost var p, t := LinkInBucketId(x, table[b], b, s);
    table[b] := x;
    after := buckets[b := t];
    IndexedLink(ById, buckets, items, x, p, t);
    InsertMembers(s, p, x, t);
    OtherBucketsId(buckets, b);
  }

  // Takes rp, the k-th member of bucket t, out of it; a finger at rp moves to a neighbour.
  method CutFromBucketId(table: Table, rp: Item, b: nat, ghost s: seq<Item>, ghost k: nat, ghost t: seq<Item>)
    requires b < table.Length && IdLinked(t) && Distinct(t) && IsInsert(s, k, rp, t) && Finger(t, table[b])
    modifies table, s`nextId, s`prevId
    ensures IdLinked(s) && Finger(s, table[b]) && (old(table[b]) != rp ==> table[b] == old(table[b]))
    ensures forall c | 0 <= c < table.Length && c != b :: table[c] == old(table[c])
  {
    InsertMembers(s, k, rp, t);
    assert k > 0 ==> rp.prevId == t[k-1] == s[k-1];
    assert k + 1 < |t| ==> rp.nextId == t[k+1] == s[k];
    if table[b] == rp {
      table[b] := if rp.prevId != null then rp.prevId else rp.nextId;
    }
    CutId(rp, s, k, t);
  }

  method CutFromTableId(table: Table, rp: Item, b: nat, ghost s: seq<Item>, ghost k: nat,
                        ghost buckets: Buckets, ghost items: set<Item>)
    requires IdLinks(table, buckets, items) && b < SIZE
    requires Distinct(buckets[b]) && IsInsert(s, k, rp, buckets[b])
    requires forall c, y | 0 <= c < SIZE && c != b && y in buckets[c] :: y !in buckets[b]
    modifies table, items`nextId, items`prevId
    ensures IdLinks(table, buckets[b := s], items - {rp})
    ensures forall c | 0 <= c < table.Length && (c != b || old(table[c]) != rp) :: table[c] == old(table[c])
  {
    ghost var t := buckets[b];
    InsertMembers(s, k, rp, t);
    InsertDistinct(s, k, rp, t);
    assert forall c, y | 0 <= c < SIZE && c != b && y in buckets[c] :: y !in s && y != rp;
    CutFromBucketId(table, rp, b, s, k, t);
    forall c, y | 0 <= c < SIZE && c != b && y in buckets[c]
      ensures y.nextId == old(y.nextId) && y.prevId == old(y.prevId)
    {
      assert y in items && y !in s;
    }
    OtherBucketsId(buckets, b);
  }

  // ipcache_unlinkresolveid
  method UnlinkResolveId(table: Table, rp: Item, ghost buckets: Buckets, ghost items: set<Item>) returns (ghost after: Buckets)
    requires Indexed(ById, buckets, items) && IdLinks(table, buckets, items) && rp in items
    modifies table, items`nextId, items`prevId
    ensures Indexed(ById, after, items - {rp}) && IdLinks(table, after, items - {rp})
    ensures forall c | 0 <= c < table.Length && (c != Hash(ById, rp) || old(table[c]) != rp) :: table[c] == old(table[c])
  {
    var b := Hash(ById, rp);
    ghost var s, k := TakenOut(buckets[b], rp);
    BucketsApart(ById, buckets, items, b);
    SortedDistinct(ById, b, buckets[b]);
    IndexedUnlink(ById, buckets, items, rp, k, s);
    CutFromTableId(table, rp, b, s, k, buckets, items);
    after := buckets[b := s];
  }

  // ipcache_findid: null iff no item has the key; the finger of its bucket moves to an item that is found
  method FindId(table: Table, id: nat, ghost buckets: Buckets, ghost items: set<Item>) returns (rp: Item?)
    requires Indexed(ById, buckets, items) && IdLinks(table, buckets, items)
    modifies table
    ensures IdLinks(table, buckets, items)
    ensures rp != null ==> rp in items && rp.id == id
    ensures rp == null ==> forall y | y in items :: y.id != id
    ensures table[IdHash(id)] == if rp != null then rp else old(table[IdHash(id)])
    ensures forall c | 0 <= c < table.Length && c != IdHash(id) :: table[c] == old(table[c])
  {
    var b := IdHash(id);
    rp := table[b];
    if rp != null {
      ghost var s := buckets[b];
      ghost var k;
      rp, k := SeekId(id, rp, s);
      OnlyCandidate(ById, b, s, id, k);
      if id == rp.id {
        table[b] := rp;
      } else {
        rp := null;
      }
    }
  }

  twostate lemma OtherBucketsIp(buckets: Buckets, new b: nat)
    requires forall c | 0 <= c < |buckets| && c != b :: old(IpLinked(buckets[c]))
    requires forall c, y | 0 <= c < |buckets| && c != b && y in buckets[c] ::
               y.nextIp == old(y.nextIp) && y.prevIp == old(y.prevIp)
    ensures forall c | 0 <= c < |buckets| && c != b :: IpLinked(buckets[c])
  {
    forall c | 0 <= c < |buckets| && c != b ensures IpLinked(buckets[c]) {
      ghost var u := buckets[c];
      assert old(IpLinked(u));
      forall i | 0 <= i < |u| ensures u[i].nextIp == old(u[i].nextIp) && u[i].prevIp == old(u[i].prevIp) {
        assert u[i] in buckets[c];
      }
    }
  }

  // ipcache_linkresolveip, in the bucket s entered at any member of it, or at null when s is empty
  method LinkInBucketIp(x: Item, start: Item?, ghost b: nat, ghost s: seq<Item>) returns (ghost p: nat, ghost t: seq<Item>)
    requires IpLinked(s) && Sorted(ByIp, b, s) && Finger(s, start) && Hash(ByIp, x) == b && x !in s
    requires forall y | y in s :: Key(ByIp, y) != Key(ByIp, x)
    modifies x`nextIp, x`prevIp, s`nextIp, s`prevIp
    ensures IpLinked(t) && Sorted(ByIp, b, t) && IsInsert(s, p, x, t)
  {
    if start == null {
      p, t := 0, [x];
      x.nextIp, x.prevIp := null, null;
    } else {
      var rp;
      ghost var k;
      rp, k := SeekGapIp(x.ip, start, s);
      GapFits(ByIp, b, s, Key(ByIp, x), k);
      SortedDistinct(ByIp, b, s);
      p := if Key(ByIp, rp) < Key(ByIp, x) then k + 1 else k;
      t := Inserted(s, p, x);
      InsertSorted(ByIp, b, s, p, x, t);
      SpliceIp(x, rp, s, k, t);
    }
  }

  // ipcache_linkresolveip: the finger of x's bucket becomes x
  method LinkResolveIp(table: Table, x: Item, ghost buckets: Buckets, ghost items: set<Item>) returns (ghost after: Buckets)
    requires Indexed(ByIp, buckets, items) && IpLinks(table, buckets, items) && x !in items
    requires forall y | y in items :: Key(ByIp, y) != Key(ByIp, x)
    modifies table, x`nextIp, x`prevIp, items`nextIp, items`prevIp
    ensures Indexed(ByIp, after, items + {x}) && IpLinks(table, after, items + {x})
    ensures table[Hash(ByIp, x)] == x
    ensures forall c | 0 <= c < table.Length && c != Hash(ByIp, x) :: table[c] == old(table[c])
  {
    var b := Hash(ByIp, x);
    ghost var s := buckets[b];
    BucketsApart(ByIp, buckets, items, b);
    ghost var p, t := LinkInBucketIp(x, table[b], b, s);
    table[b] := x;
    after := buckets[b := t];
    IndexedLink(ByIp, buckets, items, x, p, t);
    InsertMembers(s, p, x, t);
    OtherBucketsIp(buckets, b);
  }

  // Takes rp, the k-th member of bucket t, out of it; a finger at rp moves to a neighbour.
  method CutFromBucketIp(table: Table, rp: Item, b: nat, ghost s: seq<Item>, ghost k: nat, ghost t: seq<Item>)
    requires b < table.Length && IpLinked(t) && Distinct(t) && IsInsert(s, k, rp, t) && Finger(t, table[b])
    modifies table, s`nextIp, s`prevIp
    ensures IpLinked(s) && Finger(s, table[b]) && (old(table[b]) != rp ==> table[b] == old(table[b]))
    ensures forall c | 0 <= c < table.Length && c != b :: table[c] == old(table[c])
  {
    InsertMembers(s, k, rp, t);
    assert k > 0 ==> rp.prevIp == t[k-1] == s[k-1];
    assert k + 1 < |t| ==> rp.nextIp == t[k+1] == s[k];
    if table[b] == rp {
      table[b] := if rp.prevIp != null then rp.prevIp else rp.nextIp;
    }
    CutIp(rp, s, k, t);
  }

  method CutFromTableIp(table: Table, rp: Item, b: nat, ghost s: seq<Item>, ghost k: nat,
                        ghost buckets: Buckets, ghost items: set<Item>)
    requires IpLinks(table, buckets, items) && b < SIZE
    requires Distinct(buckets[b]) && IsInsert(s, k, rp, buckets[b])
    requires forall c, y | 0 <= c < SIZE && c != b && y in buckets[c] :: y !in buckets[b]
    modifies table, items`nextIp, items`prevIp
    ensures IpLinks(table, buckets[b := s], items - {rp})
    ensures forall c | 0 <= c < table.Length && (c != b || old(table[c]) != rp) :: table[c] == old(table[c])
  {
    ghost var t := buckets[b];
    InsertMembers(s, k, rp, t);
    InsertDistinct(s, k, rp, t);
    assert forall c, y | 0 <= c < SIZE && c != b && y in buckets[c] :: y !in s && y != rp;
    CutFromBucketIp(table, rp, b, s, k, t);
    forall c, y | 0 <= c < SIZE && c != b && y in buckets[c]
      ensures y.nextIp == old(y.nextIp) && y.prevIp == old(y.prevIp)
    {
      assert y in items && y !in s;
    }
    OtherBucketsIp(buckets, b);
  }

  // ipcache_unlinkresolveip
  method UnlinkResolveIp(table: Table, rp: Item, ghost buckets: Buckets, ghost items: set<Item>) returns (ghost after: Buckets)
    requires Indexed(ByIp, buckets, items) && IpLinks(table, buckets, items) && rp in items
    modifies table, items`nextIp, items`prevIp
    ensures Indexed(ByIp, after, items - {rp}) && IpLinks(table, after, items - {rp})
    ensures forall c | 0 <= c < table.Length && (c != Hash(ByIp, rp) || old(table[c]) != rp) :: table[c] == old(table[c])
  {
    var b := Hash(ByIp, rp);
    ghost var s, k := TakenOut(buckets[b], rp);
    BucketsApart(ByIp, buckets, items, b);
    SortedDistinct(ByIp, b, buckets[b]);
    IndexedUnlink(ByIp, buckets, items, rp, k, s);
    CutFromTableIp(table, rp, b, s, k, buckets, items);
    after := buckets[b := s];
  }

  // ipcache_findip: null iff no item has the key; the finger of its bucket moves to an item that is found
  method FindIp(table: Table, ip: Address, ghost buckets: Buckets, ghost items: set<Item>) returns (rp: Item?)
    requires Indexed(ByIp, buckets, items) && IpLinks(table, buckets, items)
    modifies table
    ensures IpLinks(table, buckets, items)
    ensures rp != null ==> rp in items && rp.ip == ip
    ensures rp == null ==> forall y | y in items :: y.ip != ip
    ensures table[IpHash(ip)] == if rp != null then rp else old(table[IpHash(ip)])
    ensures forall c | 0 <= c < table.Length && c != IpHash(ip) :: table[c] == old(table[c])
  {
    var b := IpHash(ip);
    rp := table[b];
    if rp != null {
      ghost var s := buckets[b];
      ghost var k;
      rp, k := SeekIp(ip, rp, s);
      OnlyCandidate(ByIp, b, s, Rank(ip), k);
      if AddressCompare(ip, rp.ip) == 0 {
        table[b] := rp;
      } else {
        rp := null;
      }
    }
  }

  // ---- what changes elsewhere does to the two indices ----

  datatype Index = Index(table: Table, buckets: Buckets, items: set<Item>)

  twostate lemma IdLinksKept(ix: Index)
    requires old(IdLinks(ix.table, ix.buckets, ix.items))
    requires forall b | 0 <= b < ix.table.Length :: ix.table[b] == old(ix.table[b])
    requires forall x | x in ix.items :: x.nextId == old(x.nextId) && x.prevId == old(x.prevId)
    ensures IdLinks(ix.table, ix.buckets, ix.items)
  {
    forall c | 0 <= c < SIZE ensures IdLinked(ix.buckets[c]) {
      assert old(IdLinked(ix.buckets[c]));
      forall i | 0 <= i < |ix.buckets[c]|
        ensures ix.buckets[c][i].nextId == old(ix.buckets[c][i].nextId) && ix.buckets[c][i].prevId == old(ix.buckets[c][i].prevId)
      {
        assert ix.buckets[c][i] in ix.buckets[c];
      }
    }
  }

  twostate lemma IpLinksKept(ix: Index)
    requires old(IpLinks(ix.table, ix.buckets, ix.items))
    requires forall b | 0 <= b < ix.table.Length :: ix.table[b] == old(ix.table[b])
    requires forall x | x in ix.items :: x.nextIp == old(x.nextIp) && x.prevIp == old(x.prevIp)
    ensures IpLinks(ix.table, ix.buckets, ix.items)
  {
    forall c | 0 <= c < SIZE ensures IpLinked(ix.buckets[c]) {
      assert old(IpLinked(ix.buckets[c]));
      forall i | 0 <= i < |ix.buckets[c]|
        ensures ix.buckets[c][i].nextIp == old(ix.buckets[c][i].nextIp) && ix.buckets[c][i].prevIp == old(ix.buckets[c][i].prevIp)
      {
        assert ix.buckets[c][i] in ix.buckets[c];
      }
    }
  }
}
