/** Node and link identifiers and their orders (src/node_id.c:34-90, src/links.c:39-54,
    src/decode_proto.c:303-317). An identifier is a mode and a 22-byte address union, of which the
    mode says how many bytes matter. */
module NodeIds {
  import opened Bytes
  import opened BasicStats

  datatype Mode = ApeDefault | Link6 | Ip | Tcp

  const UNION_LEN: nat := 22
  type UnionBytes = a: seq<byte> | |a| == UNION_LEN witness seq(UNION_LEN, _ => 0)

  datatype NodeId = NodeId(mode: Mode, addr: UnionBytes)

  function Ordinal(m: Mode): int {
    match m
    case ApeDefault => -1
    case Link6 => 0
    case Ip => 1
    case Tcp => 2
  }

  // How many bytes of the union the comparison looks at.
  function Width(m: Mode): (w: nat)
    ensures w <= UNION_LEN
  {
    match m
    case ApeDefault => 0
    case Link6 => 6
    case Ip => 20
    case Tcp => 22
  }

  function Key(a: NodeId): seq<byte> {
    a.addr[..Width(a.mode)]
  }

  // node_id_compare
  function Compare(a: NodeId, b: NodeId): (r: int)
    ensures r == -1 || r == 0 || r == 1
  {
    if Ordinal(a.mode) < Ordinal(b.mode) then -1
    else if Ordinal(a.mode) > Ordinal(b.mode) then 1
    else if a.mode.ApeDefault? then 0
    else
      var i := Memcmp(Key(a), Key(b));
      if i > 1 then 1 else if i < -1 then -1 else i
  }

  // The place of an identifier in the order.
  function Position(a: NodeId): (int, nat) {
    (Ordinal(a.mode), Rank(Key(a)))
  }

  predicate Before(p: (int, nat), q: (int, nat)) {
    p.0 < q.0 || (p.0 == q.0 && p.1 < q.1)
  }

  /** node_id_compare is the order of positions: -1, 0 or 1 as a comes before, with or after b. */
  lemma CompareIsOrder(a: NodeId, b: NodeId)
    ensures Compare(a, b) == (if Before(Position(a), Position(b)) then -1 else if Before(Position(b), Position(a)) then 1 else 0)
  {
    if a.mode == b.mode {
      MemcmpIsRankOrder(Key(a), Key(b));
    }
  }

  /** It is a total order: antisymmetric, transitive, and 0 only on identifiers that agree in mode and
      in the bytes that matter. */
  lemma CompareIsTotalOrder(a: NodeId, b: NodeId, c: NodeId)
    ensures Compare(b, a) == -Compare(a, b)
    ensures Compare(a, b) <= 0 && Compare(b, c) <= 0 ==> Compare(a, c) <= 0
    ensures Compare(a, b) == 0 <==> a.mode == b.mode && Key(a) == Key(b)
  {
    CompareIsOrder(a, b);
    CompareIsOrder(b, a);
    CompareIsOrder(b, c);
    CompareIsOrder(a, c);
    if a.mode == b.mode {
      MemcmpIsRankOrder(Key(a), Key(b));
    }
  }

  /** Two identifiers of one mode that differ in one byte compare as equal exactly if the byte does not count: of a link
      layer address six bytes do, of an IP address with its type twenty, and of a TCP end its port after them. */
  lemma OneByteDiffers(a: NodeId, b: NodeId, i: nat)
    requires a.mode == b.mode && i < UNION_LEN && a.addr[i] != b.addr[i] && forall j | 0 <= j < UNION_LEN && j != i :: a.addr[j] == b.addr[j]
    ensures Compare(a, b) == 0 <==> (a.mode == ApeDefault) || (a.mode == Link6 && i >= 6) || (a.mode == Ip && i >= 20)
  {
    CompareIsTotalOrder(a, b, b);
    if i < Width(a.mode) {
      assert Key(a)[i] != Key(b)[i];
    } else {
      assert Key(a) == Key(b);
    }
  }

  /** Modes come in this order, whatever the addresses. */
  lemma ModesComeFirst(a: NodeId, b: NodeId)
    ensures a.mode != b.mode ==>
              (Compare(a, b) == -1 <==> a.mode == ApeDefault || (a.mode == Link6 && b.mode != ApeDefault) || (a.mode == Ip && b.mode == Tcp))
  {}

  // Identifiers as the decoder builds them: cleared first, so unused bytes are zero.
  predicate Canonical(a: NodeId) {
    forall i :: Width(a.mode) <= i < UNION_LEN ==> a.addr[i] == 0
  }

  lemma CanonicalEquality(a: NodeId, b: NodeId)
    requires Canonical(a) && Canonical(b) && Compare(a, b) == 0
    ensures a == b
  {
    CompareIsTotalOrder(a, b, b);
    var w := Width(a.mode);
    forall i | 0 <= i < UNION_LEN ensures a.addr[i] == b.addr[i] {
      if i < w {
        assert Key(a)[i] == a.addr[i] && Key(b)[i] == b.addr[i];
      }
    }
  }

  datatype LinkId = LinkId(src: NodeId, dst: NodeId)

  // link_id_compare
  function LinkCompare(a: LinkId, b: LinkId): (r: int)
    ensures r == -1 || r == 0 || r == 1
  {
    var i := Compare(a.src, b.src);
    if i != 0 then i else Compare(a.dst, b.dst)
  }

  lemma LinkCompareIsTotalOrder(a: LinkId, b: LinkId, c: LinkId)
    ensures LinkCompare(b, a) == -LinkCompare(a, b)
    ensures LinkCompare(a, b) <= 0 && LinkCompare(b, c) <= 0 ==> LinkCompare(a, c) <= 0
    ensures LinkCompare(a, b) == 0 <==> Compare(a.src, b.src) == 0 && Compare(a.dst, b.dst) == 0
  {
    CompareIsTotalOrder(a.src, b.src, c.src);
    CompareIsTotalOrder(a.dst, b.dst, c.dst);
    CompareIsOrder(a.src, b.src);
    CompareIsOrder(b.src, c.src);
    CompareIsOrder(a.src, c.src);
  }

  // packet_acquired: the link a packet belongs to, and its direction on it
  function LinkOf(src: NodeId, dst: NodeId): LinkId {
    if Compare(src, dst) < 1 then LinkId(src, dst) else LinkId(dst, src)
  }

  function LinkDirection(src: NodeId, dst: NodeId): Direction {
    if Compare(src, dst) < 1 then Outbound else Inbound
  }

  /** Both directions between two nodes use one link, ordered by node, with opposite directions; and
      only the two nodes use it. */
  lemma LinkOfIsUnordered(a: NodeId, b: NodeId, c: NodeId, d: NodeId)
    requires Canonical(a) && Canonical(b)
    ensures Compare(LinkOf(a, b).src, LinkOf(a, b).dst) <= 0
    ensures LinkOf(a, b) == LinkOf(b, a)
    ensures a != b ==> LinkDirection(a, b) != LinkDirection(b, a)
    ensures LinkOf(a, b) == LinkOf(c, d) ==> {a, b} == {c, d}
  {
    CompareIsTotalOrder(a, b, b);
    if Compare(a, b) == 0 {
      CanonicalEquality(a, b);
    }
  }
}
