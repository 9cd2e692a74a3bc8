/** The circular doubly linked list of answered items (src/ip-cache.c:222-299). */
module IpCacheRing {
  import opened Wrappers
  import opened IpCacheItem

  // s is a ring: next and previous are inverse to each other and wrap around.
  ghost predicate Ring(s: seq<Item>)
    reads s`nextActive, s`prevActive
  {
    && (forall i {:trigger s[i].nextActive} :: 0 <= i < |s| ==> s[i].nextActive == if i + 1 == |s| then s[0] else s[i+1])
    && (forall i {:trigger s[i].prevActive} :: 0 <= i < |s| ==> s[i].prevActive == if i == 0 then s[|s|-1] else s[i-1])
  }

  // Links x in front of the head of s, which is also behind its tail.
  method PushRing(x: Item, head: Item, ghost s: seq<Item>, ghost t: seq<Item>)
    requires Ring(s) && Distinct(s) && s != [] && s[0] == head && x !in s
    requires IsInsert(s, 0, x, t)
    modifies x`nextActive, x`prevActive, s`nextActive, s`prevActive
    ensures Ring(t)
  {
    assert head.prevActive == s[|s|-1];
    x.nextActive := head;
    x.prevActive := head.prevActive;
    head.prevActive.nextActive := x;
    head.prevActive := x;
  }

  // Takes rp, the k-th member of a ring of at least two, out of it. The links of rp itself stay as they were.
  method CutRing(rp: Item, ghost s: seq<Item>, ghost k: nat, ghost t: seq<Item>)
    requires Ring(t) && Distinct(t) && s != [] && IsInsert(s, k, rp, t)
    modifies s`nextActive, s`prevActive
    ensures Ring(s)
  {
    InsertDistinct(s, k, rp, t);
    assert rp.nextActive == t[if k + 1 == |t| then 0 else k + 1] == s[if k + 1 == |t| then 0 else k];
    assert rp.prevActive == t[if k == 0 then |t| - 1 else k - 1] == s[if k == 0 then |s| - 1 else k - 1];
    rp.nextActive.prevActive := rp.prevActive;
    rp.prevActive.nextActive := rp.nextActive;
    forall i | 0 <= i < |s| ensures s[i].prevActive == if i == 0 then s[|s|-1] else s[i-1] {
      if i < k {
        assert s[i] == t[i] && (i > 0 ==> s[i-1] == t[i-1]);
      } else {
        assert s[i] == t[i+1] && (i > 0 ==> s[i-1] == if i == k then t[i-1] else t[i]);
      }
      assert s[|s|-1] == if k == |s| then t[|s|-1] else t[|s|];
    }
    forall i | 0 <= i < |s| ensures s[i].nextActive == if i + 1 == |s| then s[0] else s[i+1] {
      if i < k {
        assert s[i] == t[i] && (i + 1 < |s| ==> s[i+1] == if i + 1 == k then t[i+2] else t[i+1]);
      } else {
        assert s[i] == t[i+1] && (i + 1 < |s| ==> s[i+1] == t[i+2]);
      }
      assert s[0] == if k == 0 then t[1] else t[0];
    }
  }
}
