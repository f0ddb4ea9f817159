/** A stable insertion sort over an explicit order, and what callers rely on:
    it permutes, it orders, and it leaves an ordered sequence alone. */
module Sorting {

  /** The order relates every two elements one way or the other. */
  ghost predicate Total<T(!new)>(le: (T, T) -> bool) {
    forall a, b :: le(a, b) || le(b, a)
  }

  ghost predicate Transitive<T(!new)>(le: (T, T) -> bool) {
    forall a, b, c :: le(a, b) && le(b, c) ==> le(a, c)
  }

  /** Each element is at most its right neighbour. */
  ghost predicate Ascending<T(!new)>(le: (T, T) -> bool, s: seq<T>) {
    forall i :: 0 < i < |s| ==> le(s[i - 1], s[i])
  }

  /** Each element is at most every later one. */
  ghost predicate Ordered<T(!new)>(le: (T, T) -> bool, s: seq<T>) {
    forall i, j :: 0 <= i < j < |s| ==> le(s[i], s[j])
  }

  /** Puts x behind every element that is at most x at the end of s. */
  function Insert<T(!new)>(le: (T, T) -> bool, s: seq<T>, x: T): (r: seq<T>)
    ensures |r| == |s| + 1
  {
    if s == [] || le(s[|s| - 1], x) then s + [x]
    else Insert(le, s[..|s| - 1], x) + [s[|s| - 1]]
  }

  function Sort<T(!new)>(le: (T, T) -> bool, s: seq<T>): (r: seq<T>)
    ensures |r| == |s|
  {
    if s == [] then [] else Insert(le, Sort(le, s[..|s| - 1]), s[|s| - 1])
  }

  lemma {:induction false} InsertMultiset<T(!new)>(le: (T, T) -> bool, s: seq<T>, x: T)
    ensures multiset(Insert(le, s, x)) == multiset(s) + multiset{x}
  {
    if s != [] && !le(s[|s| - 1], x) {
      InsertMultiset(le, s[..|s| - 1], x);
      assert s == s[..|s| - 1] + [s[|s| - 1]];
    }
  }

  /** Sorting only reorders. */
  lemma {:induction false} SortMultiset<T(!new)>(le: (T, T) -> bool, s: seq<T>)
    ensures multiset(Sort(le, s)) == multiset(s)
  {
    if s != [] {
      SortMultiset(le, s[..|s| - 1]);
      InsertMultiset(le, Sort(le, s[..|s| - 1]), s[|s| - 1]);
      assert s == s[..|s| - 1] + [s[|s| - 1]];
    }
  }

  lemma SortMembers<T(!new)>(le: (T, T) -> bool, s: seq<T>)
    ensures forall x :: x in Sort(le, s) <==> x in s
  {
    SortMultiset(le, s);
    forall x ensures x in Sort(le, s) <==> x in s {
      assert x in Sort(le, s) <==> x in multiset(Sort(le, s));
      assert x in s <==> x in multiset(s);
    }
  }

  lemma {:induction false} InsertAscending<T(!new)>(le: (T, T) -> bool, s: seq<T>, x: T)
    requires Total(le) && Ascending(le, s)
    ensures Ascending(le, Insert(le, s, x))
    ensures |Insert(le, s, x)| > 0
    ensures Insert(le, s, x)[|s|] == x || (s != [] && Insert(le, s, x)[|s|] == s[|s| - 1])
  {
    if s != [] && !le(s[|s| - 1], x) {
      var front := s[..|s| - 1];
      InsertAscending(le, front, x);
      var r := Insert(le, front, x);
      assert le(x, s[|s| - 1]);
      if front != [] {
        assert front[|front| - 1] == s[|s| - 2];
        assert le(s[|s| - 2], s[|s| - 1]);
      }
      assert le(r[|r| - 1], s[|s| - 1]);
    }
  }

  /** Sorting by a total relation leaves neighbours in order. */
  lemma {:induction false} SortAscending<T(!new)>(le: (T, T) -> bool, s: seq<T>)
    requires Total(le)
    ensures Ascending(le, Sort(le, s))
  {
    if s != [] {
      SortAscending(le, s[..|s| - 1]);
      InsertAscending(le, Sort(le, s[..|s| - 1]), s[|s| - 1]);
    }
  }

  /** A sequence already in order is its own sort. */
  lemma {:induction false} SortFixed<T(!new)>(le: (T, T) -> bool, s: seq<T>)
    requires Ascending(le, s)
    ensures Sort(le, s) == s
  {
    if s != [] {
      var front, x := s[..|s| - 1], s[|s| - 1];
      SortFixed(le, front);
      if front != [] {
        assert s[|s| - 2] == front[|front| - 1];
        assert le(s[|s| - 2], s[|s| - 1]);
      }
      assert s == front + [x];
    }
  }

  lemma {:induction false} AscendingOrdered<T(!new)>(le: (T, T) -> bool, s: seq<T>)
    requires Transitive(le) && Ascending(le, s)
    ensures Ordered(le, s)
  {
    if s != [] {
      var front, x := s[..|s| - 1], s[|s| - 1];
      AscendingOrdered(le, front);
      forall i, j | 0 <= i < j < |s|
        ensures le(s[i], s[j])
      {
        if j < |s| - 1 {
          assert front[i] == s[i] && front[j] == s[j];
        } else if i < j - 1 {
          assert front[i] == s[i] && front[j - 1] == s[j - 1];
          assert le(s[i], s[j - 1]) && le(s[j - 1], s[j]);
        } else {
          assert i == j - 1 && j > 0;
        }
      }
    }
  }

  /** Sorting by a total preorder puts every earlier element at most every later one. */
  lemma SortOrdered<T(!new)>(le: (T, T) -> bool, s: seq<T>)
    requires Total(le) && Transitive(le)
    ensures Ordered(le, Sort(le, s))
  {
    SortAscending(le, s);
    AscendingOrdered(le, Sort(le, s));
  }

  /** Inserting x does not change what a filter that drops x keeps. */
  lemma {:induction false} InsertSplit<T(!new)>(le: (T, T) -> bool, s: seq<T>, x: T) returns (k: nat)
    ensures k <= |s|
    ensures Insert(le, s, x) == s[..k] + [x] + s[k..]
  {
    if s == [] || le(s[|s| - 1], x) {
      k := |s|;
      assert s[..k] == s && s[k..] == [];
    } else {
      var front, last := s[..|s| - 1], s[|s| - 1];
      k := InsertSplit(le, front, x);
      assert s == front + [last];
      assert s[..k] == front[..k];
      assert s[k..] == front[k..] + [last];
      assert Insert(le, s, x) == front[..k] + [x] + front[k..] + [last];
    }
  }
}
