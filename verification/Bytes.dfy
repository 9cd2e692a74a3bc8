// Byte strings compared the way memcmp compares them, and the numeric rank that explains the order.
module Bytes {
  type byte = x: int | 0 <= x < 256

  // address_t: a 4-byte family followed by 16 bytes of address, compared and copied as 20 bytes.
  const ADDRESS_LEN: nat := 20
  type Address = a: seq<byte> | |a| == ADDRESS_LEN witness seq(ADDRESS_LEN, _ => 0)

  // memcmp: the difference of the first bytes that differ. Its sign is all that C promises.
  function Memcmp(a: seq<byte>, b: seq<byte>): (r: int)
    requires |a| == |b|
    ensures r == 0 <==> a == b
    ensures -256 < r < 256
  {
    if a == [] then 0
    else if a[0] != b[0] then a[0] - b[0]
    else
      assert a == [a[0]] + a[1..] && b == [b[0]] + b[1..];
      Memcmp(a[1..], b[1..])
  }

  // The bytes read as a base-256 numeral, most significant byte first.
  function Rank(a: seq<byte>): nat {
    if a == [] then 0 else 256 * Rank(a[..|a|-1]) + a[|a|-1]
  }

  function Sign(x: int): (r: int)
    ensures r in {-1, 0, 1}
  {
    if x < 0 then -1 else if x > 0 then 1 else 0
  }

  lemma {:induction false} MemcmpLastByte(a: seq<byte>, b: seq<byte>)
    requires |a| == |b| > 0
    ensures var n := |a| - 1;
            Memcmp(a, b) == if a[..n] == b[..n] then a[n] - b[n] else Memcmp(a[..n], b[..n])
  {
    var n := |a| - 1;
    if n > 0 && a[0] == b[0] {
      MemcmpLastByte(a[1..], b[1..]);
      assert a[1..][..n-1] == a[..n][1..] && b[1..][..n-1] == b[..n][1..];
      assert a[..n] == [a[0]] + a[..n][1..] && b[..n] == [b[0]] + b[..n][1..];
    }
  }

  // memcmp orders equally long byte strings as their ranks are ordered: a total order.
  lemma {:induction false} MemcmpIsRankOrder(a: seq<byte>, b: seq<byte>)
    requires |a| == |b|
    ensures Sign(Memcmp(a, b)) == Sign(Rank(a) - Rank(b))
  {
    if a != [] {
      var n := |a| - 1;
      MemcmpLastByte(a, b);
      MemcmpIsRankOrder(a[..n], b[..n]);
      if a[..n] != b[..n] {
        assert Rank(a[..n]) != Rank(b[..n]);
      }
    }
  }

  // The sign of is_addr_gt/is_addr_lt/... on two addresses, with its meaning as an order on ranks.
  function AddressCompare(a: Address, b: Address): (r: int)
    ensures (r < 0 <==> Rank(a) < Rank(b)) && (r > 0 <==> Rank(a) > Rank(b)) && (r == 0 <==> a == b)
  {
    MemcmpIsRankOrder(a, b);
    Memcmp(a, b)
  }
}
