/** The merge that brings the rows of the node table up to date with the node catalog
    (src/node_windows.c:319-394): one pass over both, with a cursor into the rows. Rows are inserted
    before the cursor or, when it has run off the end, in front of all rows. */
module NodesTable {
  import opened Wrappers
  import opened NodeIds

  // A node with what is shown of it: a row of the table, or an entry of the catalog
  datatype Row<V> = Row(id: NodeId, shown: V)

  // The catalog in the order in which it is traversed
  ghost predicate Ascending<V>(cat: seq<Row<V>>) {
    && (forall i :: 0 <= i < |cat| ==> Canonical(cat[i].id))
    && (forall i, j :: 0 <= i < j < |cat| ==> Compare(cat[i].id, cat[j].id) == -1)
  }

  ghost predicate AllCanonical<V>(rows: seq<Row<V>>) {
    forall r | r in rows :: Canonical(r.id)
  }

  // nodes_table_iterate on the rows before the cursor and those from it on; the latter are empty once
  // the cursor is exhausted.
  function Visit<V>(before: seq<Row<V>>, rest: seq<Row<V>>, n: Row<V>): (seq<Row<V>>, seq<Row<V>>)
    decreases |rest|
  {
    if rest == [] then ([n] + before, [])
    else if Compare(n.id, rest[0].id) == 0 then (before + [rest[0].(shown := n.shown)], rest[1..])
    else if Compare(n.id, rest[0].id) == -1 then (before + [n], rest)
    else Visit(before, rest[1..], n)
  }

  // nodes_table_update: the rows still at the cursor in the end are removed
  function Pass<V>(before: seq<Row<V>>, rest: seq<Row<V>>, cat: seq<Row<V>>): seq<Row<V>>
    decreases |cat|
  {
    if cat == [] then before
    else
      var (b, r) := Visit(before, rest, cat[0]);
      Pass(b, r, cat[1..])
  }

  class Table<V> {
    var rows: seq<Row<V>>
    var it: nat
    var res: bool

    ghost predicate Valid()
      reads this
    {
      res ==> it < |rows|
    }

    ghost function Before(): seq<Row<V>>
      requires Valid()
      reads this
    {
      if res then rows[..it] else rows
    }

    ghost function Rest(): seq<Row<V>>
      requires Valid()
      reads this
    {
      if res then rows[it..] else []
    }

    constructor ()
      ensures rows == []
    {
      rows, it, res := [], 0, false;
    }

    // gtk_tree_model_iter_next
    method Next()
      requires Valid() && res
      modifies `it, `res
      ensures Valid() && Before() == old(Before()) + [old(Rest())[0]] && Rest() == old(Rest())[1..]
    {
      it := it + 1;
      res := it < |rows|;
    }

    // gtk_list_store_remove
    method Remove()
      requires Valid() && res
      modifies `rows, `res
      ensures Valid() && Before() == old(Before()) && Rest() == old(Rest())[1..]
    {
      rows := rows[..it] + rows[it+1..];
      res := it < |rows|;
    }

    // nodes_table_iterate
    method Iterate(n: Row<V>)
      requires Valid()
      modifies this
      ensures Valid() && (Before(), Rest()) == Visit(old(Before()), old(Rest()), n)
    {
      while res
        invariant Valid() && Visit(Before(), Rest(), n) == Visit(old(Before()), old(Rest()), n)
        decreases |Rest()|
      {
        var c := Compare(n.id, rows[it].id);
        if c == 0 {
          rows := rows[it := rows[it].(shown := n.shown)];
          Next();
          return;
        } else if c == -1 {
          rows := rows[..it] + [n] + rows[it..];
          assert rows[it+1..] == Rest()[1..];
          Next();
          return;
        } else if c == 1 {
          Remove();
        }
      }
      rows := [n] + rows;
      it := 0;
    }

    /** nodes_table_update */
    method Update(cat: seq<Row<V>>)
      modifies this
      ensures rows == Pass([], old(rows), cat)
    {
      it, res := 0, rows != [];
      assert Before() == [] && Rest() == rows;
      for i := 0 to |cat|
        invariant Valid() && Pass(Before(), Rest(), cat[i..]) == Pass([], old(rows), cat)
      {
        Iterate(cat[i]);
        assert cat[i..][1..] == cat[i+1..];
      }
      while res
        invariant Valid() && Before() == Pass([], old(rows), cat)
        decreases |Rest()|
      {
        Remove();
      }
    }
  }

  // ---- what a pass leaves ----

  lemma {:induction false} VisitFacts<V>(before: seq<Row<V>>, rest: seq<Row<V>>, n: Row<V>)
    requires Canonical(n.id) && AllCanonical(rest)
    ensures var (b, r) := Visit(before, rest, n);
            && AllCanonical(r)
            && (if exists x :: x in rest && Compare(n.id, x.id) != 1 then b == before + [n] else b == [n] + before && r == [])
            && (forall x | x in rest && Compare(x.id, n.id) == 1 :: x in r) && (forall x | x in r :: x in rest)
    decreases |rest|
  {
    if rest != [] {
      assert rest == [rest[0]] + rest[1..];
      CompareIsTotalOrder(n.id, rest[0].id, n.id);
      if Compare(n.id, rest[0].id) == 0 {
        CanonicalEquality(n.id, rest[0].id);
      } else if Compare(n.id, rest[0].id) == 1 {
        VisitFacts(before, rest[1..], n);
      }
    }
  }

  // Once the cursor is exhausted, every node goes to the front.
  lemma {:induction false} ExhaustedPass<V>(before: seq<Row<V>>, cat: seq<Row<V>>)
    ensures Pass(before, [], cat) == Reverse(cat) + before
    decreases |cat|
  {
    if cat == [] {
      assert Reverse(cat) + before == before;
    } else {
      ExhaustedPass([cat[0]] + before, cat[1..]);
      assert Reverse(cat[1..]) + ([cat[0]] + before) == Reverse(cat) + before;
    }
  }

  // Some row is not before the node.
  ghost predicate Reaches<V>(rows: seq<Row<V>>, n: Row<V>) {
    exists x :: x in rows && Compare(n.id, x.id) != 1
  }

  // How many nodes of the catalog the rows reach.
  ghost function Reached<V>(rows: seq<Row<V>>, cat: seq<Row<V>>): (m: nat)
    ensures m <= |cat|
  {
    if cat != [] && Reaches(rows, cat[0]) then 1 + Reached(rows, cat[1..]) else 0
  }

  lemma {:induction false} SameReach<V>(rows: seq<Row<V>>, rest: seq<Row<V>>, cat: seq<Row<V>>)
    requires forall n | n in cat :: Reaches(rows, n) <==> Reaches(rest, n)
    ensures Reached(rows, cat) == Reached(rest, cat)
  {
    if cat != [] {
      assert cat[0] in cat;
      SameReach(rows, rest, cat[1..]);
    }
  }

  // The rows that a visit leaves reach as far as before.
  lemma VisitReaches<V>(before: seq<Row<V>>, rest: seq<Row<V>>, n: Row<V>, later: Row<V>)
    requires Canonical(n.id) && AllCanonical(rest) && Compare(n.id, later.id) == -1
    ensures Reaches(rest, later) <==> Reaches(Visit(before, rest, n).1, later)
    ensures !Reaches(rest, n) ==> !Reaches(rest, later)
  {
    VisitFacts(before, rest, n);
    forall x | x in rest && Compare(later.id, x.id) != 1 ensures Compare(x.id, n.id) == 1 && Compare(n.id, x.id) == -1 {
      CompareIsTotalOrder(n.id, later.id, x.id);
      CompareIsTotalOrder(x.id, later.id, n.id);
      CompareIsTotalOrder(later.id, x.id, n.id);
      CompareIsOrder(n.id, later.id);
      CompareIsOrder(later.id, x.id);
      CompareIsOrder(n.id, x.id);
      CompareIsOrder(x.id, n.id);
    }
  }

  lemma MoveOne<T>(before: seq<T>, n: T, later: seq<T>, m: nat)
    requires m <= |later|
    ensures var cat := [n] + later; Reverse(cat[m+1..]) + (before + cat[..m+1]) == Reverse(later[m..]) + (before + [n] + later[..m])
  {
    var cat := [n] + later;
    assert cat[m+1..] == later[m..] && before + cat[..m+1] == before + [n] + later[..m];
  }

  lemma MoveNone<T>(before: seq<T>, n: T, later: seq<T>)
    ensures var cat := [n] + later; Reverse(cat[0..]) + (before + cat[..0]) == Reverse(later) + ([n] + before)
  {
    var cat := [n] + later;
    assert cat[0..] == cat && before + cat[..0] == before && cat[1..] == later;
    assert Reverse(later) + [n] + before == Reverse(later) + ([n] + before);
  }

  lemma {:induction false} PassShape<V>(before: seq<Row<V>>, rest: seq<Row<V>>, cat: seq<Row<V>>)
    requires Ascending(cat) && AllCanonical(rest)
    ensures var m := Reached(rest, cat); Pass(before, rest, cat) == Reverse(cat[m..]) + (before + cat[..m])
    decreases |cat|
  {
    if cat != [] {
      var n, later := cat[0], cat[1..];
      assert cat == [n] + later;
      var (b, r) := Visit(before, rest, n);
      VisitFacts(before, rest, n);
      if Reaches(rest, n) {
        forall k | k in later ensures Reaches(rest, k) <==> Reaches(r, k) {
          VisitReaches(before, rest, n, k);
        }
        SameReach(rest, r, later);
        PassShape(b, r, later);
        MoveOne(before, n, later, Reached(r, later));
      } else {
        ExhaustedPass([n] + before, later);
        MoveNone(before, n, later);
      }
    }
  }

  /** After a pass over the catalog, whatever rows there were before: the nodes that the old rows reach
      stand in order, and in front of them the others, the other way round. */
  lemma TableAfterPass<V>(rows: seq<Row<V>>, cat: seq<Row<V>>)
    requires Ascending(cat) && AllCanonical(rows)
    ensures var m := Reached(rows, cat); Pass([], rows, cat) == Reverse(cat[m..]) + cat[..m]
  {
    PassShape([], rows, cat);
    var m := Reached(rows, cat);
    assert [] + cat[..m] == cat[..m];
  }

  lemma {:induction false} ReverseKeeps<T>(s: seq<T>)
    ensures multiset(Reverse(s)) == multiset(s)
    ensures s != [] ==> Reverse(s)[0] == s[|s|-1]
  {
    if s != [] {
      ReverseKeeps(s[1..]);
      assert s == [s[0]] + s[1..];
    }
  }

  /** Exactly one row for each node of the catalog, showing its present data, and no other row. */
  lemma OneRowPerNode<V>(rows: seq<Row<V>>, cat: seq<Row<V>>)
    requires Ascending(cat) && AllCanonical(rows)
    ensures multiset(Pass([], rows, cat)) == multiset(cat)
  {
    TableAfterPass(rows, cat);
    PartsKeep(cat, Reached(rows, cat));
  }

  lemma PartsKeep<T>(s: seq<T>, m: nat)
    requires m <= |s|
    ensures multiset(Reverse(s[m..]) + s[..m]) == multiset(s)
  {
    ReverseKeeps(s[m..]);
    assert s == s[..m] + s[m..];
  }

  lemma {:induction false} LastReached<V>(rows: seq<Row<V>>, cat: seq<Row<V>>)
    requires Ascending(cat) && AllCanonical(rows) && cat != []
    ensures Reached(rows, cat) == |cat| <==> Reaches(rows, cat[|cat|-1])
  {
    if |cat| > 1 {
      LastReached(rows, cat[1..]);
      VisitReaches([], rows, cat[0], cat[|cat|-1]);
    }
  }

  /** The rows end up in order exactly when some old row was not before the last node, or there is at most
      one node. */
  lemma InOrderIff<V>(rows: seq<Row<V>>, cat: seq<Row<V>>)
    requires Ascending(cat) && AllCanonical(rows)
    ensures Pass([], rows, cat) == cat <==> |cat| <= 1 || Reaches(rows, cat[|cat|-1])
  {
    TableAfterPass(rows, cat);
    var m := Reached(rows, cat);
    if cat == [] {
    } else if m == |cat| {
      LastReached(rows, cat);
      assert Reverse(cat[m..]) + cat[..m] == cat;
    } else {
      LastReached(rows, cat);
      ReverseKeeps(cat[m..]);
      assert Pass([], rows, cat)[0] == cat[|cat|-1];
      if |cat| > 1 {
        CompareIsTotalOrder(cat[0].id, cat[0].id, cat[0].id);
        assert Compare(cat[0].id, cat[|cat|-1].id) == -1;
      }
    }
  }

  // The catalog still has the same nodes, perhaps with other data.
  ghost predicate SameNodes<V>(cat: seq<Row<V>>, again: seq<Row<V>>) {
    |again| == |cat| && forall i :: 0 <= i < |cat| ==> again[i].id == cat[i].id
  }

  /** A second pass over the same nodes leaves the rows in order, whatever rows there were at first. */
  lemma SecondPassIsInOrder<V>(rows: seq<Row<V>>, cat: seq<Row<V>>, again: seq<Row<V>>)
    requires Ascending(cat) && Ascending(again) && AllCanonical(rows) && SameNodes(cat, again)
    ensures Pass([], Pass([], rows, cat), again) == again
  {
    var first := Pass([], rows, cat);
    OneRowPerNode(rows, cat);
    forall r | r in first ensures Canonical(r.id) {
      assert r in multiset(first);
      assert r in cat;
    }
    InOrderIff(first, again);
    if |again| > 1 {
      var last := cat[|cat|-1];
      assert last in multiset(cat) && last in first;
      CompareIsTotalOrder(last.id, last.id, last.id);
      assert Reaches(first, again[|again|-1]);
    }
  }
}
