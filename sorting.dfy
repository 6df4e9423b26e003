/** `Array.prototype.sort` with a comparator, as an insertion sort that is
    stable (JavaScript's sort is stable): an element is placed before the
    first later element it is `le` to. */
module Sorting {

  ghost predicate Total<T(!new)>(le: (T, T) -> bool)
  {
    forall a, b :: le(a, b) || le(b, a)
  }

  ghost predicate Transitive<T(!new)>(le: (T, T) -> bool)
  {
    forall a, b, c :: le(a, b) && le(b, c) ==> le(a, c)
  }

  ghost predicate SortedBy<T>(s: seq<T>, le: (T, T) -> bool)
  {
    forall i, j :: 0 <= i < j < |s| ==> le(s[i], s[j])
  }

  /** Puts `x` in front of the first element of `t` that it is `le` to. */
  function Insert<T>(x: T, t: seq<T>, le: (T, T) -> bool): (r: seq<T>)
    ensures multiset(r) == multiset(t) + multiset{x}
  {
    if t == [] || le(x, t[0]) then [x] + t
    else
      var r := [t[0]] + Insert(x, t[1..], le);
      assert t == [t[0]] + t[1..];
      r
  }

  function SortBy<T>(s: seq<T>, le: (T, T) -> bool): (r: seq<T>)
    ensures multiset(r) == multiset(s)
    ensures |r| == |s|
  {
    if s == [] then []
    else
      var r := Insert(s[0], SortBy(s[1..], le), le);
      assert s == [s[0]] + s[1..];
      assert |r| == |multiset(r)|;
      r
  }

  lemma {:induction false} InsertSorted<T(!new)>(x: T, t: seq<T>, le: (T, T) -> bool)
    requires Total(le) && Transitive(le)
    requires SortedBy(t, le)
    ensures SortedBy(Insert(x, t, le), le)
  {
    if t == [] || le(x, t[0]) {
    } else {
      var rest := Insert(x, t[1..], le);
      assert SortedBy(t[1..], le);
      InsertSorted(x, t[1..], le);
      assert forall y :: y in multiset(rest) ==> y == x || y in t[1..];
      forall j | 0 <= j < |rest| ensures le(t[0], rest[j]) {
        assert rest[j] in multiset(rest);
      }
    }
  }

  lemma {:induction false} SortBySorted<T(!new)>(s: seq<T>, le: (T, T) -> bool)
    requires Total(le) && Transitive(le)
    ensures SortedBy(SortBy(s, le), le)
  {
    if s != [] {
      SortBySorted(s[1..], le);
      InsertSorted(s[0], SortBy(s[1..], le), le);
    }
  }

  /** Inserting into a sorted list ends it with `x` exactly when `x` is
      not `le` to the last element. */
  lemma {:induction false} InsertLast<T(!new)>(x: T, t: seq<T>, le: (T, T) -> bool)
    requires Total(le) && Transitive(le)
    requires SortedBy(t, le) && t != []
    ensures var r := Insert(x, t, le);
      r[|r| - 1] == if le(x, t[|t| - 1]) then t[|t| - 1] else x
  {
    if le(x, t[0]) {
      if |t| > 1 {
        assert le(t[0], t[|t| - 1]);
      }
    } else if |t| > 1 {
      assert SortedBy(t[1..], le);
      InsertLast(x, t[1..], le);
      assert t[1..][|t[1..]| - 1] == t[|t| - 1];
    }
  }

  /** The position of the last element of `s` that every element is `le`
      to, for a total and transitive `le`. */
  function LastMaxIndex<T>(s: seq<T>, le: (T, T) -> bool): (k: nat)
    requires s != []
    ensures k < |s|
  {
    if |s| == 1 then 0
    else
      var k := 1 + LastMaxIndex(s[1..], le);
      if le(s[0], s[k]) then k else 0
  }

  lemma {:induction false} LastMaxIndexIsLastMax<T(!new)>(s: seq<T>, le: (T, T) -> bool)
    requires Total(le) && Transitive(le)
    requires s != []
    ensures var k := LastMaxIndex(s, le);
      (forall j :: 0 <= j < |s| ==> le(s[j], s[k])) &&
      (forall j :: k < j < |s| ==> !le(s[k], s[j]))
  {
    if |s| == 1 {
      Reflexive(le, s[0]);
    } else {
      var t := s[1..];
      LastMaxIndexIsLastMax(t, le);
      var m := LastMaxIndex(t, le);
      forall j | 1 <= j < |s| ensures le(s[j], s[m + 1]) {
        assert t[j - 1] == s[j];
      }
      if le(s[0], s[m + 1]) {
        forall j | m + 1 < j < |s| ensures !le(s[m + 1], s[j]) {
          assert t[j - 1] == s[j];
        }
      } else {
        Reflexive(le, s[0]);
        assert le(s[m + 1], s[0]);
      }
    }
  }

  /** The sort ends with the last of the maximal elements: the stable sort
      keeps the latest of equal maxima last. */
  lemma {:induction false} SortByLast<T(!new)>(s: seq<T>, le: (T, T) -> bool)
    requires Total(le) && Transitive(le)
    requires s != []
    ensures var r := SortBy(s, le);
      r[|r| - 1] == s[LastMaxIndex(s, le)]
  {
    if |s| > 1 {
      var t := s[1..];
      var rt := SortBy(t, le);
      SortByLast(t, le);
      SortBySorted(t, le);
      InsertLast(s[0], rt, le);
      assert SortBy(s, le) == Insert(s[0], rt, le);
      var m := LastMaxIndex(t, le);
      assert rt[|rt| - 1] == s[m + 1];
      assert LastMaxIndex(s, le) == if le(s[0], s[m + 1]) then m + 1 else 0;
    }
  }

  /** The first element of a sorted permutation is `le` to every element,
      and every element is `le` to the last. */
  lemma SortByBounds<T(!new)>(s: seq<T>, le: (T, T) -> bool)
    requires Total(le) && Transitive(le)
    requires s != []
    ensures var r := SortBy(s, le);
      r[0] in s && r[|r| - 1] in s &&
      forall x :: x in s ==> le(r[0], x) && le(x, r[|r| - 1])
  {
    var r := SortBy(s, le);
    SortBySorted(s, le);
    assert r[0] in multiset(r) && r[|r| - 1] in multiset(r);
    forall x | x in s ensures le(r[0], x) && le(x, r[|r| - 1]) {
      assert x in multiset(s);
      var k :| 0 <= k < |r| && r[k] == x;
      if k == 0 {
        Reflexive(le, x);
      }
      if k == |r| - 1 {
        Reflexive(le, x);
      }
    }
  }

  lemma Reflexive<T(!new)>(le: (T, T) -> bool, x: T)
    requires Total(le)
    ensures le(x, x)
  {
  }
}
