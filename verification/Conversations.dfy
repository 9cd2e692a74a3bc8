/** The table of expected conversations (src/conversations.c): a list searched under a relation that
    ignores direction and in which port zero matches every port. */
module Conversations {
  import opened Wrappers
  import opened Bytes

  datatype Conversation = Conversation(src: Address, dst: Address, srcPort: nat, dstPort: nat, data: string)

  predicate PortsMatch(p: nat, q: nat) {
    p == 0 || q == 0 || p == q
  }

  // The test of find_conversation_ptr
  predicate Matches(src: Address, dst: Address, srcPort: nat, dstPort: nat, c: Conversation) {
    || (AddressCompare(src, c.src) == 0 && AddressCompare(dst, c.dst) == 0
        && PortsMatch(srcPort, c.srcPort) && PortsMatch(dstPort, c.dstPort))
    || (AddressCompare(src, c.dst) == 0 && AddressCompare(dst, c.src) == 0
        && PortsMatch(srcPort, c.dstPort) && PortsMatch(dstPort, c.srcPort))
  }

  predicate Same(c: Conversation, d: Conversation) {
    Matches(c.src, c.dst, c.srcPort, c.dstPort, d)
  }

  // Between these two addresses, in either direction
  predicate Between(src: Address, dst: Address, c: Conversation) {
    (c.src == src && c.dst == dst) || (c.src == dst && c.dst == src)
  }

  function Others(s: seq<Conversation>, src: Address, dst: Address): seq<Conversation> {
    if s == [] then []
    else (if Between(src, dst, s[0]) then [] else [s[0]]) + Others(s[1..], src, dst)
  }

  ghost predicate Separate(s: seq<Conversation>) {
    forall i, j :: 0 <= i < j < |s| ==> !Same(s[i], s[j])
  }

  // A port that is given stands for itself, and zero for any port.
  predicate StandsFor(p: nat, x: nat) {
    p == 0 || p == x
  }

  // The two ends of a conversation, in no order
  function Ends(a: Address, b: Address, p: nat, q: nat): multiset<(Address, nat)> {
    multiset{(a, p), (b, q)}
  }

  // With these ports for those left open, query and entry have the same ends.
  predicate AlikeWith(src: Address, dst: Address, srcPort: nat, dstPort: nat, c: Conversation, p: nat, q: nat, x: nat, y: nat) {
    && StandsFor(srcPort, p) && StandsFor(dstPort, q) && StandsFor(c.srcPort, x) && StandsFor(c.dstPort, y)
    && Ends(src, dst, p, q) == Ends(c.src, c.dst, x, y)
  }

  /** A query matches an entry exactly if the ports that are left open can be filled in so that both have the same two
      ends, each an address with its port, in whatever order. */
  lemma MatchesIffSameEnds(src: Address, dst: Address, srcPort: nat, dstPort: nat, c: Conversation)
    ensures Matches(src, dst, srcPort, dstPort, c) <==> exists p, q, x, y :: AlikeWith(src, dst, srcPort, dstPort, c, p, q, x, y)
  {
    if src == c.src && dst == c.dst && PortsMatch(srcPort, c.srcPort) && PortsMatch(dstPort, c.dstPort) {
      var p, q := if srcPort == 0 then c.srcPort else srcPort, if dstPort == 0 then c.dstPort else dstPort;
      assert AlikeWith(src, dst, srcPort, dstPort, c, p, q, p, q);
    } else if Matches(src, dst, srcPort, dstPort, c) {
      var p, q := if srcPort == 0 then c.dstPort else srcPort, if dstPort == 0 then c.srcPort else dstPort;
      assert AlikeWith(src, dst, srcPort, dstPort, c, p, q, q, p);
    }
    if p, q, x, y :| AlikeWith(src, dst, srcPort, dstPort, c, p, q, x, y) {
      AlikeMatches(src, dst, srcPort, dstPort, c, p, q, x, y);
    }
  }

  lemma AlikeMatches(src: Address, dst: Address, srcPort: nat, dstPort: nat, c: Conversation, p: nat, q: nat, x: nat, y: nat)
    requires AlikeWith(src, dst, srcPort, dstPort, c, p, q, x, y)
    ensures Matches(src, dst, srcPort, dstPort, c)
  {
    SameTwo((src, p), (dst, q), (c.src, x), (c.dst, y));
  }

  lemma SameTwo<T>(a: T, b: T, c: T, d: T)
    requires multiset{a, b} == multiset{c, d}
    ensures (a == c && b == d) || (a == d && b == c)
  {
    assert a in multiset{c, d} && b in multiset{c, d} && c in multiset{a, b};
  }

  /** So the direction of a query does not matter. */
  lemma MatchesBothWays(src: Address, dst: Address, srcPort: nat, dstPort: nat, c: Conversation)
    ensures Matches(src, dst, srcPort, dstPort, c) <==> Matches(dst, src, dstPort, srcPort, c)
  {}

  /** An entry that is added and not dropped is what both directions of its conversation find, and with ports given in
      query and entry it is found only by those. */
  lemma AddedIsFound(s: seq<Conversation>, c: Conversation, srcPort: nat, dstPort: nat)
    requires Separate([c] + s) && srcPort != 0 && dstPort != 0
    ensures StandsFor(c.srcPort, srcPort) && StandsFor(c.dstPort, dstPort) ==>
              && FirstMatch([c] + s, c.src, c.dst, srcPort, dstPort) == Some(c)
              && FirstMatch([c] + s, c.dst, c.src, dstPort, srcPort) == Some(c)
    ensures c.srcPort != 0 && c.dstPort != 0 && Ends(c.src, c.dst, srcPort, dstPort) != Ends(c.src, c.dst, c.srcPort, c.dstPort) ==>
              && FirstMatch([c] + s, c.src, c.dst, srcPort, dstPort) != Some(c)
              && FirstMatch([c] + s, c.dst, c.src, dstPort, srcPort) != Some(c)
  {
    MatchesBothWays(c.src, c.dst, srcPort, dstPort, c);
    FirstMatchFacts([c] + s, c.src, c.dst, srcPort, dstPort);
    FirstMatchFacts([c] + s, c.dst, c.src, dstPort, srcPort);
  }

  /** The entries that removing a link removes are those whose two addresses are its two addresses. */
  lemma OthersAreOfOtherEnds(s: seq<Conversation>, src: Address, dst: Address, c: Conversation)
    ensures c in Others(s, src, dst) <==> c in s && multiset{c.src, c.dst} != multiset{src, dst}
  {
    OthersFacts(s, src, dst);
    if multiset{c.src, c.dst} == multiset{src, dst} {
      SameTwo(c.src, c.dst, src, dst);
    }
  }

  lemma SameIsSymmetric(c: Conversation, d: Conversation)
    ensures Same(c, d) <==> Same(d, c)
  {}

  /** Two entries that match one query with both ports given also match each other. */
  lemma CommonQuery(src: Address, dst: Address, srcPort: nat, dstPort: nat, c: Conversation, d: Conversation)
    requires srcPort != 0 && dstPort != 0
    requires Matches(src, dst, srcPort, dstPort, c) && Matches(src, dst, srcPort, dstPort, d)
    ensures Same(c, d)
  {}

  /** So in a table without matching pairs at most one entry answers the query. */
  lemma AnswerIsUnique(s: seq<Conversation>, src: Address, dst: Address, srcPort: nat, dstPort: nat, i: nat, j: nat)
    requires Separate(s) && srcPort != 0 && dstPort != 0 && i < |s| && j < |s|
    requires Matches(src, dst, srcPort, dstPort, s[i]) && Matches(src, dst, srcPort, dstPort, s[j])
    ensures i == j
  {
    CommonQuery(src, dst, srcPort, dstPort, s[i], s[j]);
    SameIsSymmetric(s[i], s[j]);
  }

  // What a search of the list returns.
  function FirstMatch(s: seq<Conversation>, src: Address, dst: Address, srcPort: nat, dstPort: nat): Option<Conversation> {
    if s == [] then None
    else if Matches(src, dst, srcPort, dstPort, s[0]) then Some(s[0])
    else FirstMatch(s[1..], src, dst, srcPort, dstPort)
  }

  lemma {:induction false} FirstMatchFacts(s: seq<Conversation>, src: Address, dst: Address, srcPort: nat, dstPort: nat)
    ensures var r := FirstMatch(s, src, dst, srcPort, dstPort);
            && (r.Some? ==> r.value in s && Matches(src, dst, srcPort, dstPort, r.value))
            && (r.None? ==> forall c | c in s :: !Matches(src, dst, srcPort, dstPort, c))
  {
    if s != [] {
      FirstMatchFacts(s[1..], src, dst, srcPort, dstPort);
    }
  }

  /** The answer to a query with both ports given does not depend on the order of the list. */
  lemma AnswerIgnoresOrder(s: seq<Conversation>, t: seq<Conversation>, src: Address, dst: Address, srcPort: nat, dstPort: nat)
    requires Separate(s) && Separate(t) && (forall c :: c in s <==> c in t) && srcPort != 0 && dstPort != 0
    ensures FirstMatch(s, src, dst, srcPort, dstPort) == FirstMatch(t, src, dst, srcPort, dstPort)
  {
    FirstMatchFacts(s, src, dst, srcPort, dstPort);
    FirstMatchFacts(t, src, dst, srcPort, dstPort);
    var a, b := FirstMatch(s, src, dst, srcPort, dstPort), FirstMatch(t, src, dst, srcPort, dstPort);
    if a.Some? && b.Some? {
      var i :| 0 <= i < |s| && s[i] == a.value;
      assert b.value in s;
      var j :| 0 <= j < |s| && s[j] == b.value;
      AnswerIsUnique(s, src, dst, srcPort, dstPort, i, j);
    }
  }

  lemma {:induction false} OthersFacts(s: seq<Conversation>, src: Address, dst: Address)
    ensures forall c :: c in Others(s, src, dst) <==> c in s && !Between(src, dst, c)
    ensures (forall c | c in s :: !Between(src, dst, c)) ==> Others(s, src, dst) == s
  {
    hide Between;
    if s != [] {
      OthersFacts(s[1..], src, dst);
      assert s == [s[0]] + s[1..];
    }
  }

  lemma SeparateParts(s: seq<Conversation>, k: nat)
    requires Separate(s) && k < |s|
    ensures Separate(s[..k] + s[k+1..])
    ensures forall c | c in s[k+1..] :: !Same(s[k], c)
  {
    hide Same;
    var r := s[..k] + s[k+1..];
    forall i, j | 0 <= i < j < |r| ensures !Same(r[i], r[j]) {
      assert r[i] == s[if i < k then i else i + 1] && r[j] == s[if j < k then j else j + 1];
    }
  }

  // With both ports zero, matching is lying between the addresses.
  lemma WildcardMatch(src: Address, dst: Address, c: Conversation)
    ensures Matches(src, dst, 0, 0, c) <==> Between(src, dst, c)
  {}

  lemma {:induction false} OthersWithout(s: seq<Conversation>, k: nat, src: Address, dst: Address)
    requires k < |s| && Between(src, dst, s[k])
    ensures Others(s[..k] + s[k+1..], src, dst) == Others(s, src, dst)
  {
    var r := s[..k] + s[k+1..];
    if k == 0 {
      assert r == s[1..];
    } else {
      OthersWithout(s[1..], k - 1, src, dst);
      assert r[1..] == s[1..][..k-1] + s[1..][k..];
    }
  }

  class Table {
    var conversations: seq<Conversation>
    var count: int

    // No two entries match each other, and the counter is the length of the list.
    ghost predicate Valid()
      reads this
    {
      Separate(conversations) && count == |conversations|
    }

    constructor ()
      ensures Valid() && conversations == []
    {
      conversations, count := [], 0;
    }

    // find_conversation_ptr: the index of the first matching entry, or the length of the list
    method FindPtr(src: Address, dst: Address, srcPort: nat, dstPort: nat) returns (k: nat)
      ensures k <= |conversations|
      ensures forall i :: 0 <= i < k ==> !Matches(src, dst, srcPort, dstPort, conversations[i])
      ensures k < |conversations| ==> Matches(src, dst, srcPort, dstPort, conversations[k])
    {
      k := 0;
      while k < |conversations|
        invariant k <= |conversations|
        invariant forall i :: 0 <= i < k ==> !Matches(src, dst, srcPort, dstPort, conversations[i])
      {
        if Matches(src, dst, srcPort, dstPort, conversations[k]) {
          break;
        }
        k := k + 1;
      }
    }

    // find_conversation
    method Find(src: Address, dst: Address, srcPort: nat, dstPort: nat) returns (data: Option<string>)
      requires Valid()
      ensures data == match FirstMatch(conversations, src, dst, srcPort, dstPort) case None => None case Some(c) => Some(c.data)
      ensures forall c | c in conversations && srcPort != 0 && dstPort != 0 && Matches(src, dst, srcPort, dstPort, c) ::
                data == Some(c.data)
    {
      var k := FindPtr(src, dst, srcPort, dstPort);
      FirstMatchAt(conversations, src, dst, srcPort, dstPort, k);
      forall i | 0 <= i < |conversations| && srcPort != 0 && dstPort != 0
                 && Matches(src, dst, srcPort, dstPort, conversations[i])
        ensures i == k
      {
        if k < |conversations| {
          AnswerIsUnique(conversations, src, dst, srcPort, dstPort, i, k);
        }
      }
      data := if k < |conversations| then Some(conversations[k].data) else None;
    }

    // add_conversation: an entry that matches one in the table is dropped
    method Add(src: Address, dst: Address, srcPort: nat, dstPort: nat, data: string)
      requires Valid()
      modifies this
      ensures Valid()
      ensures if exists c :: c in old(conversations) && Matches(src, dst, srcPort, dstPort, c)
              then conversations == old(conversations)
              else conversations == [Conversation(src, dst, srcPort, dstPort, data)] + old(conversations)
    {
      var k := FindPtr(src, dst, srcPort, dstPort);
      if k < |conversations| {
        assert conversations[k] in conversations;
        return;
      }
      conversations := [Conversation(src, dst, srcPort, dstPort, data)] + conversations;
      count := count + 1;
    }

    // delete_conversation_link: removes exactly the entries between the two addresses
    method DeleteLink(src: Address, dst: Address)
      requires Valid()
      modifies this
      ensures Valid() && conversations == Others(old(conversations), src, dst)
    {
      hide Separate, Others, Matches;
      var k := FindPtr(src, dst, 0, 0);
      while k < |conversations|
        invariant Valid() && 0 <= k <= |conversations|
        invariant Others(conversations, src, dst) == Others(old(conversations), src, dst)
        invariant k < |conversations| ==> Matches(src, dst, 0, 0, conversations[k])
        invariant k == |conversations| ==> forall c | c in conversations :: !Matches(src, dst, 0, 0, c)
        decreases |conversations|
      {
        WildcardMatch(src, dst, conversations[k]);
        OthersWithout(conversations, k, src, dst);
        SeparateParts(conversations, k);
        conversations := conversations[..k] + conversations[k+1..];
        count := count - 1;
        k := FindPtr(src, dst, 0, 0);
      }
      forall c | c in conversations ensures !Between(src, dst, c) {
        WildcardMatch(src, dst, c);
      }
      OthersFacts(conversations, src, dst);
    }

    // delete_conversations
    method DeleteAll()
      requires Valid()
      modifies this
      ensures Valid() && conversations == [] && count == 0
    {
      var i := 0;
      while i < |conversations|
        invariant 0 <= i <= |conversations| && count == |conversations| - i && conversations == old(conversations)
      {
        i := i + 1;
        count := count - 1;
      }
      conversations := [];
    }
  }

  lemma {:induction false} FirstMatchAt(s: seq<Conversation>, src: Address, dst: Address, srcPort: nat, dstPort: nat, k: nat)
    requires k <= |s| && forall i :: 0 <= i < k ==> !Matches(src, dst, srcPort, dstPort, s[i])
    requires k < |s| ==> Matches(src, dst, srcPort, dstPort, s[k])
    ensures FirstMatch(s, src, dst, srcPort, dstPort) == if k < |s| then Some(s[k]) else None
  {
    if k > 0 {
      FirstMatchAt(s[1..], src, dst, srcPort, dstPort, k - 1);
    }
  }
}
