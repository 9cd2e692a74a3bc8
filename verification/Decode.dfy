/** The protocol stack of a packet (src/decode_proto.c:217-245, src/decode_proto.c:358-374). The
    decoders themselves are left out: whatever they do to the stack is a series of decode_proto_add. */
module Decode {
  import opened Wrappers
  import opened Protocols

  function Depth(calls: seq<string>): nat {
    if |calls| > STACK_SIZE then STACK_SIZE else |calls|
  }

  // What a series of decode_proto_add calls leaves: the first five names, in order.
  function Levels(calls: seq<string>, top: Option<string>): (r: seq<Option<string>>)
    ensures |r| == LEVELS
  {
    seq(LEVELS, i requires 0 <= i < LEVELS =>
      if i == 0 then top else if i <= |calls| then Some(calls[i-1]) else None)
  }

  function Stack(calls: seq<string>): seq<Option<string>> {
    Levels(calls, if calls == [] then None else Some(calls[Depth(calls)-1]))
  }

  // decode_proto_t, as far as the stack is concerned
  class Decoder {
    const names: array<Option<string>>
    var curLevel: nat

    ghost predicate Holds(calls: seq<string>)
      reads this, names
    {
      names.Length == LEVELS && names[..] == Levels(calls, None) && curLevel == Depth(calls) + 1
    }

    // decode_proto_start
    constructor ()
      ensures Holds([]) && fresh(names)
    {
      names := new Option<string>[LEVELS](_ => None);
      curLevel := 1;
    }

    // decode_proto_add: a name beyond the fifth level is ignored
    method Add(name: string, ghost calls: seq<string>)
      requires Holds(calls)
      modifies this, names
      ensures Holds(calls + [name])
    {
      if curLevel <= STACK_SIZE {
        names[curLevel] := Some(name);
        curLevel := curLevel + 1;
      }
    }

    // get_packet_prot, around a decoder that adds these names
    method GetPacketProt(calls: seq<string>)
      requires Holds([])
      modifies this, names
      ensures names[..] == Stack(calls)
    {
      for n := 0 to |calls|
        invariant Holds(calls[..n])
      {
        Add(calls[n], calls[..n]);
        assert calls[..n+1] == calls[..n] + [calls[n]];
      }
      assert calls[..|calls|] == calls;
      var i := STACK_SIZE;
      while i > 0
        invariant 0 <= i <= STACK_SIZE
        invariant names.Length == LEVELS && names[..] == Levels(calls, None)
        invariant i >= Depth(calls)
      {
        if names[i].Some? {
          names[0] := names[i];
          break;
        }
        i := i - 1;
      }
    }
  }

  function Given(names: seq<Option<string>>): seq<string> {
    if names == [] then [] else (if names[0].Some? then [names[0].value] else []) + Given(names[1..])
  }

  lemma {:induction false} GivenIs(names: seq<Option<string>>, given: seq<string>)
    requires |given| <= |names| && forall i :: 0 <= i < |names| ==> names[i] == if i < |given| then Some(given[i]) else None
    ensures Given(names) == given
  {
    if names != [] {
      if given == [] {
        GivenIs(names[1..], []);
      } else {
        GivenIs(names[1..], given[1..]);
        assert given == [given[0]] + given[1..];
      }
    }
  }

  /** Read from level 1 on, the stack gives the first five names that were added, in the order in which they were added;
      and level 0 is the last of these. */
  lemma StackTellsNames(calls: seq<string>)
    ensures var first := if |calls| <= 5 then calls else calls[..5];
            && Given(Stack(calls)[1..]) == first
            && Stack(calls)[0] == if first == [] then None else Some(first[|first|-1])
  {
    GivenIs(Stack(calls)[1..], if |calls| <= 5 then calls else calls[..5]);
  }

  lemma {:induction false} TopmostOfStack(calls: seq<string>, k: nat)
    requires Depth(calls) <= k <= STACK_SIZE
    ensures Topmost(Stack(calls), k) == Stack(calls)[0]
  {
    if k > Depth(calls) {
      TopmostOfStack(calls, k - 1);
    }
  }

  /** Whatever a decoder adds, the stack is prefix-closed and level 0 repeats its topmost level. */
  lemma DecodedStackIsOk(calls: seq<string>)
    ensures StackOk(Stack(calls))
  {
    TopmostOfStack(calls, STACK_SIZE);
  }
}
