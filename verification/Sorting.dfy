/** Sorting by a total order, which stands for the library sorts of Rust and Python. */
module Sorting {

  ghost predicate TotalOrder<T(!new)>(leq: (T, T) -> bool) {
    && (forall a, b :: leq(a, b) || leq(b, a))
    && (forall a, b :: leq(a, b) && leq(b, a) ==> a == b)
    && (forall a, b, c :: leq(a, b) && leq(b, c) ==> leq(a, c))
  }

  ghost predicate Ordered<T>(s: seq<T>, leq: (T, T) -> bool) {
    forall i, j | 0 <= i < j < |s| :: leq(s[i], s[j])
  }

  function Insert<T>(x: T, s: seq<T>, leq: (T, T) -> bool): seq<T> {
    if s == [] || leq(x, s[0]) then [x] + s else [s[0]] + Insert(x, s[1..], leq)
  }

  function Sort<T>(s: seq<T>, leq: (T, T) -> bool): seq<T> {
    if s == [] then [] else Insert(s[0], Sort(s[1..], leq), leq)
  }

  lemma HeadMultiset<T>(s: seq<T>)
    requires s != []
    ensures multiset(s) == multiset{s[0]} + multiset(s[1..])
  {
    assert s == [s[0]] + s[1..];
  }

  lemma TailMultiset<T>(s: seq<T>)
    requires s != []
    ensures multiset(s[1..]) == multiset(s) - multiset{s[0]}
  {
    HeadMultiset(s);
  }

  lemma {:induction false} InsertMultiset<T>(x: T, s: seq<T>, leq: (T, T) -> bool)
    ensures multiset(Insert(x, s, leq)) == multiset(s) + multiset{x}
  {
    if s == [] || leq(x, s[0]) {
    } else {
      InsertMultiset(x, s[1..], leq);
      HeadMultiset(s);
    }
  }

  lemma InsertAbove<T>(x: T, s: seq<T>, leq: (T, T) -> bool, low: T)
    requires leq(low, x) && forall j | 0 <= j < |s| :: leq(low, s[j])
    ensures forall j | 0 <= j < |Insert(x, s, leq)| :: leq(low, Insert(x, s, leq)[j])
  {
    hide Insert;
    InsertMultiset(x, s, leq);
    var r := Insert(x, s, leq);
    forall j | 0 <= j < |r|
      ensures leq(low, r[j])
    {
      assert r[j] in multiset(r);
      assert r[j] in multiset(s) || r[j] == x;
    }
  }

  lemma {:induction false} InsertOrdered<T(!new)>(x: T, s: seq<T>, leq: (T, T) -> bool)
    requires TotalOrder(leq) && Ordered(s, leq)
    ensures Ordered(Insert(x, s, leq), leq)
  {
    if s == [] || leq(x, s[0]) {
    } else {
      InsertOrdered(x, s[1..], leq);
      InsertAbove(x, s[1..], leq, s[0]);
    }
  }

  /** Sorting orders the elements and keeps all of them. */
  lemma {:induction false} SortCorrect<T(!new)>(s: seq<T>, leq: (T, T) -> bool)
    requires TotalOrder(leq)
    ensures Ordered(Sort(s, leq), leq) && multiset(Sort(s, leq)) == multiset(s) && |Sort(s, leq)| == |s|
  {
    hide Insert, TotalOrder, Ordered;
    if s == [] {
      OrderedEmpty(leq);
    } else {
      SortCorrect(s[1..], leq);
      InsertOrdered(s[0], Sort(s[1..], leq), leq);
      InsertMultiset(s[0], Sort(s[1..], leq), leq);
      HeadMultiset(s);
    }
    assert |multiset(Sort(s, leq))| == |Sort(s, leq)| && |multiset(s)| == |s|;
  }

  lemma OrderedEmpty<T>(leq: (T, T) -> bool)
    ensures Ordered([], leq)
  {
  }

  lemma SameLeast<T(!new)>(s: seq<T>, t: seq<T>, leq: (T, T) -> bool)
    requires TotalOrder(leq) && Ordered(s, leq) && Ordered(t, leq)
    requires multiset(s) == multiset(t) && s != []
    ensures t != [] && s[0] == t[0]
  {
    assert s[0] in multiset(t);
    assert t[0] in multiset(s);
    var i :| 0 <= i < |t| && t[i] == s[0];
    var j :| 0 <= j < |s| && s[j] == t[0];
    assert leq(s[0], s[0]);
    assert leq(s[0], t[0]) && leq(t[0], s[0]);
  }

  /** An ordered arrangement of a multiset is unique. */
  lemma {:induction false} OrderedUnique<T(!new)>(s: seq<T>, t: seq<T>, leq: (T, T) -> bool)
    requires TotalOrder(leq) && Ordered(s, leq) && Ordered(t, leq) && multiset(s) == multiset(t)
    ensures s == t
  {
    hide TotalOrder, Ordered;
    if s == [] {
      assert |multiset(t)| == 0;
    } else {
      SameLeast(s, t, leq);
      TailMultiset(s);
      TailMultiset(t);
      OrderedTail(s, leq);
      OrderedTail(t, leq);
      OrderedUnique(s[1..], t[1..], leq);
      SameSequence(s, t);
    }
  }

  lemma SameSequence<T>(s: seq<T>, t: seq<T>)
    requires s != [] && t != [] && s[0] == t[0] && s[1..] == t[1..]
    ensures s == t
  {
    assert s == [s[0]] + s[1..] && t == [t[0]] + t[1..];
  }

  lemma OrderedTail<T>(s: seq<T>, leq: (T, T) -> bool)
    requires Ordered(s, leq) && s != []
    ensures Ordered(s[1..], leq)
  {
  }

  lemma SortDecides<T(!new)>(s: seq<T>, t: seq<T>, leq: (T, T) -> bool)
    requires TotalOrder(leq)
    ensures Sort(s, leq) == Sort(t, leq) <==> multiset(s) == multiset(t)
  {
    hide TotalOrder, Ordered, Sort;
    SortCorrect(s, leq);
    SortCorrect(t, leq);
    if multiset(s) == multiset(t) {
      OrderedUnique(Sort(s, leq), Sort(t, leq), leq);
    }
  }
}
