/** Ranging over a Go map: the keys come once each, in an order that the program cannot rely on. */
module Iteration {
  /** Whether order visits each item exactly once. */
  ghost predicate Lists<T(!new)>(order: seq<T>, items: set<T>) {
    && (forall i, j | 0 <= i < j < |order| :: order[i] != order[j])
    && (forall x :: x in order <==> x in items)
  }

  method AnyOrder<T(!new,==)>(items: set<T>) returns (order: seq<T>)
    ensures Lists(order, items)
  {
    var todo := items;
    order := [];
    while todo != {}
      invariant todo <= items && Lists(order, items - todo)
      decreases todo
    {
      var x :| x in todo;
      order := order + [x];
      todo := todo - {x};
    }
  }

  /** For proofs: there always is an order. */
  lemma {:induction false} SomeOrder<T(!new)>(items: set<T>) returns (order: seq<T>)
    ensures Lists(order, items)
  {
    if items == {} {
      order := [];
    } else {
      var x :| x in items;
      var rest := SomeOrder(items - {x});
      order := rest + [x];
    }
  }

  lemma {:induction false} ListsAll<T(!new)>(order: seq<T>, items: set<T>)
    requires Lists(order, items)
    ensures |order| == |items|
  {
    if order == [] {
      assert items == {};
    } else {
      var rest, last := order[..|order| - 1], order[|order| - 1];
      assert order == rest + [last];
      ListsAll(rest, items - {last});
    }
  }

  lemma {:induction false} CoverSize<T(!new)>(order: seq<T>, items: set<T>)
    requires forall x | x in items :: x in order
    ensures |items| <= |order|
  {
    if order == [] {
      assert items == {};
    } else {
      var rest, last := order[..|order| - 1], order[|order| - 1];
      assert order == rest + [last];
      CoverSize(rest, items - {last});
      assert |items| <= |items - {last}| + 1;
    }
  }

  /** Enough visits to have no room for a repeated one. */
  lemma ListsBySize<T(!new)>(order: seq<T>, items: set<T>)
    requires forall x :: x in order <==> x in items
    requires |order| == |items|
    ensures Lists(order, items)
  {
    forall i, j | 0 <= i < j < |order| ensures order[i] != order[j] {
      if order[i] == order[j] {
        var rest := order[..j] + order[j + 1..];
        forall x | x in items ensures x in rest {
          var k :| 0 <= k < |order| && order[k] == x;
          assert x == if k < j then rest[k] else if k == j then rest[i] else rest[k - 1];
        }
        CoverSize(rest, items);
      }
    }
  }
}
