/** The mutex-protected queues of common/queue.c. Each method is one critical section. */
module Queues {

  class ObeQueue<T(==)> {
    var items: seq<T>

    constructor ()
      ensures items == []
    {
      items := [];
    }

    /** `add_to_queue`. */
    method Add(item: T)
      modifies this
      ensures items == old(items) + [item]
    {
      items := items + [item];
    }

    /** `remove_from_queue` and `remove_from_queue_without_lock`. */
    method RemoveFirst()
      requires items != []
      modifies this
      ensures items == old(items)[1..]
    {
      items := items[1..];
    }

    /** `remove_item_from_queue`: the first occurrence goes, if there is one. */
    method RemoveItem(item: T)
      modifies this
      ensures items == Without(old(items), item)
    {
      var i := 0;
      while i < |items|
        invariant i <= |items| && items == old(items)
        invariant Without(items, item) == items[..i] + Without(items[i..], item)
      {
        if items[i] == item {
          items := items[..i] + items[i + 1..];
          return;
        }
        assert items[i..][1..] == items[i + 1..] && items[..i] + [items[i]] == items[..i + 1];
        i := i + 1;
      }
      assert items[..i] == items;
    }
  }

  /** A queue without the first occurrence of an item. */
  function Without<T(==)>(q: seq<T>, item: T): seq<T> {
    if q == [] then [] else if q[0] == item then q[1..] else [q[0]] + Without(q[1..], item)
  }

  /** An item that is not in the queue changes nothing; of one that is, the first occurrence goes. */
  lemma {:induction false} WithoutFirst<T>(before: seq<T>, item: T, after: seq<T>)
    requires item !in before
    ensures Without(before, item) == before
    ensures Without(before + [item] + after, item) == before + after
  {
    var q := before + [item] + after;
    if before == [] {
      assert q[0] == item && q[1..] == after;
    } else {
      WithoutFirst(before[1..], item, after);
      assert q[0] == before[0] && q[1..] == before[1..] + [item] + after;
      assert [before[0]] + (before[1..] + after) == before + after;
    }
  }

  /** The items that satisfy p, in order. */
  function Filter<T>(q: seq<T>, p: T -> bool): seq<T> {
    if q == [] then []
    else Filter(q[..|q| - 1], p) + if p(q[|q| - 1]) then [q[|q| - 1]] else []
  }

  predicate Distinct<T(==)>(q: seq<T>) {
    forall i, j :: 0 <= i < j < |q| ==> q[i] != q[j]
  }

  lemma FilterSnoc<T>(q: seq<T>, x: T, p: T -> bool)
    ensures Filter(q + [x], p) == if p(x) then Filter(q, p) + [x] else Filter(q, p)
  {
    assert (q + [x])[..|q|] == q;
    assert Filter(q, p) + [] == Filter(q, p);
  }

  lemma {:induction false} FilterMembers<T>(q: seq<T>, p: T -> bool)
    ensures forall x :: x in Filter(q, p) <==> x in q && p(x)
  {
    if q != [] {
      FilterMembers(q[..|q| - 1], p);
    }
  }

  lemma {:induction false} FilterConcat<T>(q: seq<T>, r: seq<T>, p: T -> bool)
    ensures Filter(q + r, p) == Filter(q, p) + Filter(r, p)
  {
    if r == [] {
      assert q + r == q;
    } else {
      FilterConcat(q, r[..|r| - 1], p);
      assert (q + r)[..|q + r| - 1] == q + r[..|r| - 1];
    }
  }

  lemma {:induction false} FilterSame<T>(q: seq<T>, p: T -> bool, r: T -> bool)
    requires forall x :: x in q ==> p(x) == r(x)
    ensures Filter(q, p) == Filter(q, r)
  {
    if q != [] {
      FilterSame(q[..|q| - 1], p, r);
    }
  }

  lemma {:induction false} FilterAll<T>(q: seq<T>, p: T -> bool)
    requires forall x :: x in q ==> p(x)
    ensures Filter(q, p) == q
  {
    if q != [] {
      var init, x := q[..|q| - 1], q[|q| - 1];
      assert q == init + [x];
      FilterAll(init, p);
      FilterSnoc(init, x, p);
    }
  }

  lemma {:induction false} FilterNone<T>(q: seq<T>, p: T -> bool)
    requires forall x :: x in q ==> !p(x)
    ensures Filter(q, p) == []
  {
    if q != [] {
      FilterNone(q[..|q| - 1], p);
    }
  }

  /** A filter and its complement share a queue out between them. */
  lemma {:induction false} FilterPartition<T>(q: seq<T>, p: T -> bool, r: T -> bool)
    requires forall x :: x in q ==> p(x) == !r(x)
    ensures multiset(q) == multiset(Filter(q, p)) + multiset(Filter(q, r))
  {
    if q != [] {
      var init, x := q[..|q| - 1], q[|q| - 1];
      assert q == init + [x] && x in q;
      FilterPartition(init, p, r);
      FilterSnoc(init, x, p);
      FilterSnoc(init, x, r);
    }
  }

  lemma {:induction false} FilterTwice<T>(q: seq<T>, p: T -> bool, r: T -> bool, both: T -> bool)
    requires forall x :: x in q ==> both(x) == (p(x) && r(x))
    ensures Filter(Filter(q, p), r) == Filter(q, both)
  {
    if q != [] {
      var init, x := q[..|q| - 1], q[|q| - 1];
      assert q == init + [x];
      FilterTwice(init, p, r, both);
      FilterSnoc(init, x, p);
      FilterSnoc(init, x, both);
      FilterSnoc(Filter(init, p), x, r);
    }
  }

  /** One round of filtering in place: the items before k have been filtered, the others are still there. */
  lemma FilterInPlace<T>(q: seq<T>, k: nat, p: T -> bool)
    requires k < |q|
    ensures var kept := Filter(q[..k], p); var now := kept + q[k..];
            now[|kept|] == q[k]
            && now[..|kept|] + now[|kept| + 1..] == kept + q[k + 1..]
            && now == kept + [q[k]] + q[k + 1..]
    ensures Filter(q[..k + 1], p) == if p(q[k]) then Filter(q[..k], p) + [q[k]] else Filter(q[..k], p)
  {
    assert q[..k] + [q[k]] == q[..k + 1];
    FilterSnoc(q[..k], q[k], p);
  }

  lemma {:induction false} FilterDistinct<T>(q: seq<T>, p: T -> bool)
    requires Distinct(q)
    ensures Distinct(Filter(q, p))
  {
    if q != [] {
      FilterDistinct(q[..|q| - 1], p);
      FilterMembers(q[..|q| - 1], p);
    }
  }

  function Other<T(==)>(item: T): T -> bool {
    (x: T) => x != item
  }

  /** In a queue of distinct items, taking one out is filtering it out. */
  lemma {:induction false} WithoutIsFilter<T>(q: seq<T>, item: T)
    requires Distinct(q)
    ensures Without(q, item) == Filter(q, Other(item))
  {
    if q != [] {
      var f := Other(item);
      FilterConcat([q[0]], q[1..], f);
      assert [q[0]] + q[1..] == q && [q[0]][..0] == [];
      if q[0] == item {
        FilterAll(q[1..], f);
      } else {
        WithoutIsFilter(q[1..], item);
      }
    }
  }
}
