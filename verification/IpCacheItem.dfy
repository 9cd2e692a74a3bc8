/** The items of the DNS name cache and the sorted, doubly linked bucket lists they form
    (src/ip-cache.h:33-53, src/ip-cache.c:301-477). Every item is in a bucket by id and in a bucket by
    address; the two lists use different link fields and are searched by different comparisons. */
module IpCacheItem {
  import opened Wrappers
  import opened Bytes
  import Spec = IpCacheSpec

  class Item {
    const ip: Address
    const id: nat
    var nextId: Item?
    var prevId: Item?
    var nextIp: Item?
    var prevIp: Item?
    var nextActive: Item?
    var prevActive: Item?
    var expireTick: nat
    var lastExpireTick: nat
    var hostname: Option<string>
    var state: Spec.State
    ghost var answered: bool

    constructor (ip: Address, id: nat)
      ensures this.ip == ip && this.id == id
      ensures nextId == prevId == nextIp == prevIp == nextActive == prevActive == null
      ensures Value() == Spec.Entry(id, Spec.PtrReq, 0, 0, None, false)
    {
      this.ip, this.id := ip, id;
      nextId, prevId, nextIp, prevIp, nextActive, prevActive := null, null, null, null, null, null;
      expireTick, lastExpireTick, hostname, state, answered := 0, 0, None, Spec.PtrReq, false;
    }

    ghost function Value(): Spec.Entry
      reads this`state, this`expireTick, this`lastExpireTick, this`hostname, this`answered
    {
      Spec.Entry(id, state, expireTick, lastExpireTick, hostname, answered)
    }
  }

  // ---- the two ways an item is found ----

  datatype Kind = ById | ByIp

  const SIZE: nat := 8192

  function IdHash(id: nat): (b: nat)
    ensures b < SIZE
  {
    id % SIZE
  }

  function Xor(a: nat, b: nat): nat {
    if a == 0 && b == 0 then 0 else 2 * Xor(a / 2, b / 2) + (a + b) % 2
  }

  function LittleEndian(b0: int, b1: int, b2: int, b3: int): (w: int)
    ensures 0 <= b0 && 0 <= b1 && 0 <= b2 && 0 <= b3 ==> 0 <= w
  {
    b0 + 0x100 * b1 + 0x1_0000 * b2 + 0x100_0000 * b3
  }

  // The i-th 32-bit word of the address proper, read on a little-endian host.
  function Word32(a: Address, i: nat): nat
    requires i < 4
  {
    LittleEndian(a[4 + 4*i], a[5 + 4*i], a[6 + 4*i], a[7 + 4*i])
  }

  function IpHash(a: Address): (b: nat)
    ensures b < SIZE
  {
    var w := Xor(Xor(Xor(Word32(a, 0), Word32(a, 1)), Word32(a, 2)), Word32(a, 3));
    var v := Xor(w / 0x1_0000, w);
    Xor(v / 0x100, v) % SIZE
  }

  ghost function Key(kind: Kind, x: Item): nat {
    if kind.ById? then x.id else Rank(x.ip)
  }

  function Hash(kind: Kind, x: Item): (b: nat)
    ensures b < SIZE
  {
    if kind.ById? then IdHash(x.id) else IpHash(x.ip)
  }

  // ---- sequences ----

  // t is s with x put in at position p.
  ghost predicate IsInsert<T>(s: seq<T>, p: nat, x: T, t: seq<T>) {
    && p <= |s| && |t| == |s| + 1 && t[p] == x
    && (forall i {:trigger t[i]} :: 0 <= i < p ==> t[i] == s[i])
    && (forall i {:trigger t[i]} :: p < i < |t| ==> t[i] == s[i-1])
  }

  lemma Inserted<T>(s: seq<T>, p: nat, x: T) returns (t: seq<T>)
    requires p <= |s|
    ensures IsInsert(s, p, x, t)
  {
    t := s[..p] + [x] + s[p..];
  }

  lemma InsertMembers<T>(s: seq<T>, p: nat, x: T, t: seq<T>)
    requires IsInsert(s, p, x, t)
    ensures x in t && (forall y | y in s :: y in t) && (forall y | y in t :: y == x || y in s)
  {
    forall i | 0 <= i < |s| ensures s[i] in t {
      assert t[if i < p then i else i + 1] == s[i];
    }
  }

  lemma InsertDistinct<T>(s: seq<T>, p: nat, x: T, t: seq<T>)
    requires IsInsert(s, p, x, t) && Distinct(t)
    ensures Distinct(s) && x !in s
  {
    forall i, j | 0 <= i < j < |s| ensures s[i] != s[j] {
      assert t[if i < p then i else i + 1] == s[i];
      assert t[if j < p then j else j + 1] == s[j];
    }
    forall i | 0 <= i < |s| ensures s[i] != x {
      assert t[if i < p then i else i + 1] == s[i];
    }
  }

  // ---- a bucket as a value: strictly sorted, and of one hash ----

  ghost predicate Sorted(kind: Kind, b: nat, s: seq<Item>) {
    && (forall i, j :: 0 <= i < j < |s| ==> Key(kind, s[i]) < Key(kind, s[j]))
    && (forall i :: 0 <= i < |s| ==> Hash(kind, s[i]) == b)
  }

  // The position p is where a key missing from s belongs.
  ghost predicate Fits(kind: Kind, s: seq<Item>, key: nat, p: nat) {
    && p <= |s|
    && (forall i :: 0 <= i < p ==> Key(kind, s[i]) < key)
    && (forall i :: p <= i < |s| ==> key < Key(kind, s[i]))
  }

  lemma GapFits(kind: Kind, b: nat, s: seq<Item>, key: nat, k: nat)
    requires Sorted(kind, b, s) && k < |s|
    requires forall y | y in s :: Key(kind, y) != key
    requires k > 0 ==> Key(kind, s[k-1]) <= key
    requires k + 1 < |s| ==> key <= Key(kind, s[k+1]) || key < Key(kind, s[k])
    ensures Fits(kind, s, key, if Key(kind, s[k]) < key then k + 1 else k)
  {
    hide Rank, Hash;
    forall i | 0 <= i < |s| && i != k ensures if i < k then Key(kind, s[i]) < key else key < Key(kind, s[i]) {
      assert i < k - 1 ==> Key(kind, s[i]) < Key(kind, s[k-1]);
      assert i > k + 1 ==> Key(kind, s[k+1]) < Key(kind, s[i]);
      assert i > k ==> Key(kind, s[k]) < Key(kind, s[i]);
    }
  }

  lemma OnlyCandidate(kind: Kind, b: nat, s: seq<Item>, key: nat, k: nat)
    requires Sorted(kind, b, s) && k < |s|
    requires k > 0 ==> Key(kind, s[k-1]) < key
    requires k + 1 < |s| ==> key < Key(kind, s[k+1]) || key <= Key(kind, s[k])
    ensures forall y | y in s && y != s[k] :: Key(kind, y) != key
  {
    hide Rank, Hash;
    forall i | 0 <= i < |s| && i != k ensures Key(kind, s[i]) != key {
      assert i < k - 1 ==> Key(kind, s[i]) < Key(kind, s[k-1]);
      assert i > k + 1 ==> Key(kind, s[k+1]) < Key(kind, s[i]);
      assert i > k ==> Key(kind, s[k]) < Key(kind, s[i]);
    }
  }

  lemma SortedDistinct(kind: Kind, b: nat, s: seq<Item>)
    requires Sorted(kind, b, s)
    ensures Distinct(s)
  {
    hide Rank, Hash;
    forall i, j | 0 <= i < j < |s| ensures s[i] != s[j] {
      assert Key(kind, s[i]) < Key(kind, s[j]);
    }
  }

  lemma InsertSorted(kind: Kind, b: nat, s: seq<Item>, p: nat, x: Item, t: seq<Item>)
    requires Sorted(kind, b, s) && Fits(kind, s, Key(kind, x), p) && Hash(kind, x) == b && IsInsert(s, p, x, t)
    ensures Sorted(kind, b, t)
  {
    hide Rank, Hash;
    forall i, j | 0 <= i < j < |t| ensures Key(kind, t[i]) < Key(kind, t[j]) {
      if j < p { } else if j == p { } else if i == p { } else if i < p { } else { }
    }
  }

  lemma RemoveSorted(kind: Kind, b: nat, s: seq<Item>, p: nat, x: Item, t: seq<Item>)
    requires Sorted(kind, b, t) && IsInsert(s, p, x, t)
    ensures Sorted(kind, b, s)
  {
    hide Rank, Hash;
    forall i | 0 <= i < |s| ensures Hash(kind, s[i]) == b {
      assert t[if i < p then i else i + 1] == s[i];
    }
    forall i, j | 0 <= i < j < |s| ensures Key(kind, s[i]) < Key(kind, s[j]) {
      assert t[if i < p then i else i + 1] == s[i];
      assert t[if j < p then j else j + 1] == s[j];
    }
  }

  // ---- a bucket on the heap: next and previous are inverse to each other and end in null ----

  ghost predicate IdLinked(s: seq<Item>)
    reads s`nextId, s`prevId
  {
    && (forall i {:trigger s[i].prevId} :: 0 <= i < |s| ==> s[i].prevId == if i == 0 then null else s[i-1])
    && (forall i {:trigger s[i].nextId} :: 0 <= i < |s| ==> s[i].nextId == if i + 1 == |s| then null else s[i+1])
  }

  ghost predicate IpLinked(s: seq<Item>)
    reads s`nextIp, s`prevIp
  {
    && (forall i {:trigger s[i].prevIp} :: 0 <= i < |s| ==> s[i].prevIp == if i == 0 then null else s[i-1])
    && (forall i {:trigger s[i].nextIp} :: 0 <= i < |s| ==> s[i].nextIp == if i + 1 == |s| then null else s[i+1])
  }

  // ---- the loops of linkresolveid and linkresolveip, from any member of the bucket ----

  method SeekGapId(id: nat, start: Item, ghost s: seq<Item>) returns (rp: Item, ghost k: nat)
    requires IdLinked(s) && start in s
    ensures k < |s| && s[k] == rp
    ensures k > 0 ==> id >= s[k-1].id
    ensures k + 1 < |s| ==> id <= s[k+1].id || id < s[k].id
  {
    rp := start;
    k :| k < |s| && s[k] == rp;
    while rp.nextId != null && id > rp.nextId.id
      invariant k < |s| && s[k] == rp
      decreases |s| - k
    {
      rp := rp.nextId;
      k := k + 1;
    }
    ghost var k1 := k;
    assert k1 + 1 < |s| ==> s[k1].nextId == s[k1+1];
    while rp.prevId != null && id < rp.prevId.id
      invariant k <= k1 && s[k] == rp
      invariant k < k1 ==> id < s[k].id
      decreases k
    {
      rp := rp.prevId;
      k := k - 1;
    }
    assert k > 0 ==> s[k].prevId == s[k-1];
  }

  method SeekGapIp(ip: Address, start: Item, ghost s: seq<Item>) returns (rp: Item, ghost k: nat)
    requires IpLinked(s) && start in s
    ensures k < |s| && s[k] == rp
    ensures k > 0 ==> AddressCompare(ip, s[k-1].ip) >= 0
    ensures k + 1 < |s| ==> AddressCompare(ip, s[k+1].ip) <= 0 || AddressCompare(ip, s[k].ip) < 0
  {
    rp := start;
    k :| k < |s| && s[k] == rp;
    while rp.nextIp != null && AddressCompare(ip, rp.nextIp.ip) > 0
      invariant k < |s| && s[k] == rp
      decreases |s| - k
    {
      rp := rp.nextIp;
      k := k + 1;
    }
    ghost var k1 := k;
    assert k1 + 1 < |s| ==> s[k1].nextIp == s[k1+1];
    while rp.prevIp != null && AddressCompare(ip, rp.prevIp.ip) < 0
      invariant k <= k1 && s[k] == rp
      invariant k < k1 ==> AddressCompare(ip, s[k].ip) < 0
      decreases k
    {
      rp := rp.prevIp;
      k := k - 1;
    }
    assert k > 0 ==> s[k].prevIp == s[k-1];
  }

  // ---- the loops of findid and findip ----

  method SeekId(id: nat, start: Item, ghost s: seq<Item>) returns (rp: Item, ghost k: nat)
    requires IdLinked(s) && start in s
    ensures k < |s| && s[k] == rp
    ensures k > 0 ==> id > s[k-1].id
    ensures k + 1 < |s| ==> id < s[k+1].id || id <= s[k].id
  {
    rp := start;
    k :| k < |s| && s[k] == rp;
    while rp.nextId != null && id >= rp.nextId.id
      invariant k < |s| && s[k] == rp
      decreases |s| - k
    {
      rp := rp.nextId;
      k := k + 1;
    }
    ghost var k1 := k;
    assert k1 + 1 < |s| ==> s[k1].nextId == s[k1+1];
    while rp.prevId != null && id <= rp.prevId.id
      invariant k <= k1 && s[k] == rp
      invariant k < k1 ==> id <= s[k].id
      decreases k
    {
      rp := rp.prevId;
      k := k - 1;
    }
    assert k > 0 ==> s[k].prevId == s[k-1];
  }

  method SeekIp(ip: Address, start: Item, ghost s: seq<Item>) returns (rp: Item, ghost k: nat)
    requires IpLinked(s) && start in s
    ensures k < |s| && s[k] == rp
    ensures k > 0 ==> AddressCompare(ip, s[k-1].ip) > 0
    ensures k + 1 < |s| ==> AddressCompare(ip, s[k+1].ip) < 0 || AddressCompare(ip, s[k].ip) <= 0
  {
    rp := start;
    k :| k < |s| && s[k] == rp;
    while rp.nextIp != null && AddressCompare(ip, rp.nextIp.ip) >= 0
      invariant k < |s| && s[k] == rp
      decreases |s| - k
    {
      rp := rp.nextIp;
      k := k + 1;
    }
    ghost var k1 := k;
    assert k1 + 1 < |s| ==> s[k1].nextIp == s[k1+1];
    while rp.prevIp != null && AddressCompare(ip, rp.prevIp.ip) <= 0
      invariant k <= k1 && s[k] == rp
      invariant k < k1 ==> AddressCompare(ip, s[k].ip) <= 0
      decreases k
    {
      rp := rp.prevIp;
      k := k - 1;
    }
    assert k > 0 ==> s[k].prevIp == s[k-1];
  }

  // ---- putting x next to rp, the k-th member: after it when rp's key is smaller, before it otherwise ----

  method SpliceId(x: Item, rp: Item, ghost s: seq<Item>, ghost k: nat, ghost t: seq<Item>)
    requires IdLinked(s) && Distinct(s) && k < |s| && s[k] == rp && x !in s
    requires IsInsert(s, if rp.id < x.id then k + 1 else k, x, t)
    modifies x`nextId, x`prevId, s`nextId, s`prevId
    ensures IdLinked(t)
  {
    if rp.id < x.id {
      x.prevId := rp;
      x.nextId := rp.nextId;
      if rp.nextId != null {
        assert rp.nextId == s[k+1];
        rp.nextId.prevId := x;
      }
      rp.nextId := x;
    } else {
      x.prevId := rp.prevId;
      x.nextId := rp;
      if rp.prevId != null {
        assert rp.prevId == s[k-1];
        rp.prevId.nextId := x;
      }
      rp.prevId := x;
    }
  }

  method SpliceIp(x: Item, rp: Item, ghost s: seq<Item>, ghost k: nat, ghost t: seq<Item>)
    requires IpLinked(s) && Distinct(s) && k < |s| && s[k] == rp && x !in s
    requires IsInsert(s, if Rank(rp.ip) < Rank(x.ip) then k + 1 else k, x, t)
    modifies x`nextIp, x`prevIp, s`nextIp, s`prevIp
    ensures IpLinked(t)
  {
    if AddressCompare(rp.ip, x.ip) < 0 {
      x.prevIp := rp;
      x.nextIp := rp.nextIp;
      if rp.nextIp != null {
        assert rp.nextIp == s[k+1];
        rp.nextIp.prevIp := x;
      }
      rp.nextIp := x;
    } else {
      x.prevIp := rp.prevIp;
      x.nextIp := rp;
      if rp.prevIp != null {
        assert rp.prevIp == s[k-1];
        rp.prevIp.nextIp := x;
      }
      rp.prevIp := x;
    }
  }

  // ---- taking rp, the k-th member of t, out ----

  method CutId(rp: Item, ghost s: seq<Item>, ghost k: nat, ghost t: seq<Item>)
    requires IdLinked(t) && Distinct(t) && IsInsert(s, k, rp, t)
    modifies s`nextId, s`prevId
    ensures IdLinked(s)
  {
    InsertDistinct(s, k, rp, t);
    if rp.nextId != null {
      assert rp.nextId == t[k+1] == s[k];
      rp.nextId.prevId := rp.prevId;
    }
    if rp.prevId != null {
      assert rp.prevId == t[k-1] == s[k-1];
      rp.prevId.nextId := rp.nextId;
    }
    forall i | 0 <= i < |s| ensures s[i].prevId == if i == 0 then null else s[i-1] {
      if i < k {
        assert s[i] == t[i] && (i > 0 ==> s[i-1] == t[i-1]);
      } else {
        assert s[i] == t[i+1] && (i > 0 ==> s[i-1] == if i == k then t[i-1] else t[i]);
      }
    }
    forall i | 0 <= i < |s| ensures s[i].nextId == if i + 1 == |s| then null else s[i+1] {
      if i < k {
        assert s[i] == t[i] && (i + 1 < |s| ==> s[i+1] == if i + 1 == k then t[i+2] else t[i+1]);
      } else {
        assert s[i] == t[i+1] && (i + 1 < |s| ==> s[i+1] == t[i+2]);
      }
    }
  }

  method CutIp(rp: Item, ghost s: seq<Item>, ghost k: nat, ghost t: seq<Item>)
    requires IpLinked(t) && Distinct(t) && IsInsert(s, k, rp, t)
    modifies s`nextIp, s`prevIp
    ensures IpLinked(s)
  {
    InsertDistinct(s, k, rp, t);
    if rp.nextIp != null {
      assert rp.nextIp == t[k+1] == s[k];
      rp.nextIp.prevIp := rp.prevIp;
    }
    if rp.prevIp != null {
      assert rp.prevIp == t[k-1] == s[k-1];
      rp.prevIp.nextIp := rp.nextIp;
    }
    forall i | 0 <= i < |s| ensures s[i].prevIp == if i == 0 then null else s[i-1] {
      if i < k {
        assert s[i] == t[i] && (i > 0 ==> s[i-1] == t[i-1]);
      } else {
        assert s[i] == t[i+1] && (i > 0 ==> s[i-1] == if i == k then t[i-1] else t[i]);
      }
    }
    forall i | 0 <= i < |s| ensures s[i].nextIp == if i + 1 == |s| then null else s[i+1] {
      if i < k {
        assert s[i] == t[i] && (i + 1 < |s| ==> s[i+1] == if i + 1 == k then t[i+2] else t[i+1]);
      } else {
        assert s[i] == t[i+1] && (i + 1 < |s| ==> s[i+1] == t[i+2]);
      }
    }
  }
}
