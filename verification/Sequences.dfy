/** Facts about finite sequences that the other modules share. */
module Sequences {

  ghost predicate NoDup<T>(s: seq<T>) {
    forall i, j :: 0 <= i < j < |s| ==> s[i] != s[j]
  }

  ghost function Elements<T>(s: seq<T>): set<T> {
    set x | x in s
  }

  lemma ElementsLast<T>(s: seq<T>)
    requires s != []
    ensures Elements(s) == Elements(s[..|s|-1]) + {s[|s|-1]}
  {
    assert s == s[..|s|-1] + [s[|s|-1]];
  }

  lemma ConcatAppend<T>(a: seq<T>, b: seq<T>, x: T)
    ensures a + (b + [x]) == (a + b) + [x]
  {
  }

  lemma NoDupAppend<T>(s: seq<T>, x: T)
    requires NoDup(s) && x !in s
    ensures NoDup(s + [x])
  {
  }

  lemma SplitNoDup(a: seq<nat>, b: seq<nat>)
    ensures NoDup(a + b) <==> NoDup(a) && NoDup(b) && forall o :: o in a ==> o !in b
  {
    var c := a + b;
    if NoDup(a) && NoDup(b) && forall o :: o in a ==> o !in b {
      forall i, j | 0 <= i < j < |c| ensures c[i] != c[j] {
        assert i < |a| ==> a[i] in a;
        assert j >= |a| ==> b[j - |a|] in b;
      }
    }
    if NoDup(c) {
      forall i, j | 0 <= i < j < |b| ensures b[i] != b[j] {
        assert b[i] == c[|a| + i] && b[j] == c[|a| + j];
      }
      forall o | o in a ensures o !in b {
        var i :| 0 <= i < |a| && a[i] == o;
        forall j | 0 <= j < |b| ensures b[j] != o {
          assert c[i] == o && b[j] == c[|a| + j];
        }
      }
      forall i, j | 0 <= i < j < |a| ensures a[i] != a[j] {
        assert a[i] == c[i] && a[j] == c[j];
      }
    }
  }

  function Without(s: seq<nat>, k: nat): seq<nat>
    requires k < |s|
  {
    s[..k] + s[k+1..]
  }

  /** Removing one element of a sequence without repetition. */
  lemma WithoutFacts(s: seq<nat>, k: nat)
    requires NoDup(s) && k < |s|
    ensures NoDup(Without(s, k)) && |Without(s, k)| == |s| - 1
    ensures forall x :: x in Without(s, k) <==> x in s && x != s[k]
  {
    var rest := Without(s, k);
    assert forall i :: 0 <= i < |rest| ==> rest[i] == s[if i < k then i else i + 1];
    forall x | x in s && x != s[k] ensures x in rest {
      var i :| 0 <= i < |s| && s[i] == x;
      assert rest[if i < k then i else i - 1] == x;
    }
  }

  /** A sequence without repetition whose elements all lie below `n` has at most `n` elements. */
  lemma {:induction false} NoDupBounded(s: seq<nat>, n: nat)
    requires NoDup(s)
    requires forall x :: x in s ==> x < n
    ensures |s| <= n
    decreases n
  {
    if s != [] {
      assert s[0] in s;
      if n - 1 in s {
        var k :| 0 <= k < |s| && s[k] == n - 1;
        var t := s[..k] + s[k+1..];
        assert forall x :: x in t ==> x in s && x != n - 1;
        NoDupBounded(t, n - 1);
      } else {
        NoDupBounded(s, n - 1);
      }
    }
  }

  /** A sequence without repetition that has `n` elements, all below `n`, holds every number below `n`. */
  lemma NoDupFull(s: seq<nat>, n: nat, x: nat)
    requires NoDup(s) && |s| == n
    requires forall y :: y in s ==> y < n
    requires x < n
    ensures x in s
  {
    if x !in s {
      NoDupAppend(s, x);
      NoDupBounded(s + [x], n);
    }
  }

  function Flatten<T>(ss: seq<seq<T>>): seq<T> {
    if ss == [] then [] else Flatten(ss[..|ss|-1]) + ss[|ss|-1]
  }

  function Count(s: seq<nat>, x: nat): nat {
    if s == [] then 0 else Count(s[..|s|-1], x) + (if s[|s|-1] == x then 1 else 0)
  }

  lemma CountAppend(s: seq<nat>, y: nat, x: nat)
    ensures Count(s + [y], x) == Count(s, x) + (if y == x then 1 else 0)
  {
    assert (s + [y])[..|s|] == s;
  }

  lemma {:induction false} CountConcat(s: seq<nat>, t: seq<nat>, x: nat)
    ensures Count(s + t, x) == Count(s, x) + Count(t, x)
  {
    if t == [] {
      assert s + t == s;
    } else {
      assert (s + t)[..|s + t|-1] == s + t[..|t|-1];
      CountConcat(s, t[..|t|-1], x);
    }
  }

  lemma {:induction false} CountZero(s: seq<nat>, x: nat)
    ensures Count(s, x) == 0 <==> x !in s
  {
    if s != [] {
      CountZero(s[..|s|-1], x);
      assert s == s[..|s|-1] + [s[|s|-1]];
    }
  }

  ghost predicate Ascending(s: seq<int>) {
    forall i, j :: 0 <= i < j < |s| ==> s[i] <= s[j]
  }

  function Insert(s: seq<int>, x: int): (r: seq<int>)
    ensures |r| == |s| + 1
  {
    if s == [] then [x]
    else
      var n := |s| - 1;
      if s[n] <= x then s + [x] else Insert(s[..n], x) + [s[n]]
  }

  lemma {:induction false} InsertMultiset(s: seq<int>, x: int)
    ensures multiset(Insert(s, x)) == multiset(s) + multiset{x}
  {
    if s != [] {
      var n := |s| - 1;
      assert s == s[..n] + [s[n]];
      InsertMultiset(s[..n], x);
    }
  }

  lemma {:induction false} InsertAscending(s: seq<int>, x: int)
    requires Ascending(s)
    ensures Ascending(Insert(s, x))
    ensures Insert(s, x)[|s|] == x || (s != [] && Insert(s, x)[|s|] == s[|s|-1])
  {
    if s == [] {
    } else if s[|s|-1] <= x {
      AppendAscending(s, x);
    } else {
      InsertAscending(s[..|s|-1], x);
      AppendAscending(Insert(s[..|s|-1], x), s[|s|-1]);
    }
  }

  lemma AppendAscending(s: seq<int>, x: int)
    requires Ascending(s) && (s != [] ==> s[|s|-1] <= x)
    ensures Ascending(s + [x])
  {
  }

  /** A sorted copy. */
  function Sort(s: seq<int>): (r: seq<int>)
    ensures |r| == |s|
  {
    if s == [] then [] else Insert(Sort(s[..|s|-1]), s[|s|-1])
  }

  lemma {:induction false} SortSorts(s: seq<int>)
    ensures Ascending(Sort(s)) && multiset(Sort(s)) == multiset(s)
  {
    if s != [] {
      var n := |s| - 1;
      assert s == s[..n] + [s[n]];
      SortSorts(s[..n]);
      InsertAscending(Sort(s[..n]), s[n]);
      InsertMultiset(Sort(s[..n]), s[n]);
    }
  }

  ghost predicate NeighboursDiffer(s: seq<int>) {
    forall i, j :: 0 <= i < |s| && j == i + 1 && j < |s| ==> s[i] != s[j]
  }

  /** Position of the first of two equal neighbours; the length when there are none. */
  method AdjacentFind(s: seq<int>) returns (at: nat)
    ensures at <= |s|
    ensures at < |s| ==> at + 1 < |s| && s[at] == s[at+1]
    ensures at == |s| <==> NeighboursDiffer(s)
  {
    at := 0;
    while at + 1 < |s|
      invariant 0 <= at <= |s|
      invariant forall i :: 0 <= i < at && i + 1 < |s| ==> s[i] != s[i+1]
    {
      if s[at] == s[at+1] { return; }
      at := at + 1;
    }
    at := |s|;
  }

  lemma {:induction false} NoDupMultiset(s: seq<int>)
    ensures NoDup(s) <==> forall x :: multiset(s)[x] <= 1
  {
    if s != [] {
      var init, last := s[..|s|-1], s[|s|-1];
      assert s == init + [last];
      NoDupMultiset(init);
      if NoDup(s) {
        assert last !in init;
        forall x ensures multiset(s)[x] <= 1 {
          assert multiset(s)[x] == multiset(init)[x] + (if x == last then 1 else 0);
          if x == last { assert x !in multiset(init); }
        }
      } else if NoDup(init) {
        assert last in init;
        assert last in multiset(init);
        assert multiset(s)[last] == multiset(init)[last] + 1;
      } else {
        var x :| multiset(init)[x] > 1;
        assert multiset(s)[x] >= multiset(init)[x];
      }
    }
  }

  lemma AscendingNoDup(t: seq<int>)
    requires Ascending(t)
    ensures NoDup(t) <==> NeighboursDiffer(t)
  {
    if NeighboursDiffer(t) {
      forall i, j | 0 <= i < j < |t| ensures t[i] != t[j] {
        assert t[i] != t[i+1];
      }
    }
  }

  /** Sorting and looking for equal neighbours decides whether there is a repetition. */
  lemma SortRevealsRepetition(s: seq<int>)
    ensures NoDup(s) <==> NeighboursDiffer(Sort(s))
  {
    SortSorts(s);
    NoDupMultiset(s);
    NoDupMultiset(Sort(s));
    AscendingNoDup(Sort(s));
  }
}
