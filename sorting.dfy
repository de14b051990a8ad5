/** The `sort` the stores apply to query results, modelled as a stable insertion
    sort by a total preorder: elements the order ranks equal keep the order in
    which the table holds them. */
module Sorting {
  import opened Seqs

  /** `le` orders every pair one way or the other, transitively. */
  ghost predicate TotalPreorder<T(!new)>(le: (T, T) -> bool) {
    && (forall a, b :: le(a, b) || le(b, a))
    && (forall a, b, c :: le(a, b) && le(b, c) ==> le(a, c))
  }

  /** Every element comes no later, by `le`, than every element after it. */
  predicate SortedBy<T>(s: seq<T>, le: (T, T) -> bool) {
    forall i, j :: 0 <= i < j < |s| ==> le(s[i], s[j])
  }

  /** `x` placed before the first element it does not follow. */
  function Insert<T>(x: T, s: seq<T>, le: (T, T) -> bool): (r: seq<T>)
    ensures multiset(r) == multiset(s) + multiset{x}
  {
    if s == [] || le(x, s[0]) then [x] + s
    else
      assert s == [s[0]] + s[1..];
      [s[0]] + Insert(x, s[1..], le)
  }

  /** The stable sort of `s` by `le`: the same elements, as many times each. */
  function Sort<T>(s: seq<T>, le: (T, T) -> bool): (r: seq<T>)
    ensures multiset(r) == multiset(s)
  {
    if s == [] then []
    else
      assert s == [s[0]] + s[1..];
      Insert(s[0], Sort(s[1..], le), le)
  }

  /** Inserting into a sorted sequence keeps it sorted. */
  lemma {:induction false} InsertSorted<T(!new)>(x: T, s: seq<T>, le: (T, T) -> bool)
    requires TotalPreorder(le) && SortedBy(s, le)
    ensures SortedBy(Insert(x, s, le), le)
  {
    if s != [] && !le(x, s[0]) {
      var t := Insert(x, s[1..], le);
      InsertSorted(x, s[1..], le);
      forall j | 0 <= j < |t| ensures le(s[0], t[j]) {
        assert t[j] in multiset(t);
        assert t[j] in multiset(s[1..]) || t[j] == x;
        if t[j] != x {
          var k :| 0 <= k < |s[1..]| && s[1..][k] == t[j];
          assert s[k + 1] == t[j];
        }
      }
      var r := [s[0]] + t;
      forall i, j | 0 <= i < j < |r| ensures le(r[i], r[j]) {
        if i == 0 {
          assert r[j] == t[j - 1];
        } else {
          assert r[i] == t[i - 1] && r[j] == t[j - 1];
        }
      }
    } else if s != [] {
      var r := [x] + s;
      forall i, j | 0 <= i < j < |r| ensures le(r[i], r[j]) {
        if i == 0 {
          assert r[j] == s[j - 1];
          if j > 1 { assert le(s[0], s[j - 1]); }
        } else {
          assert r[i] == s[i - 1] && r[j] == s[j - 1];
        }
      }
    }
  }

  /** The result of `Sort` is sorted. */
  lemma {:induction false} SortSorted<T(!new)>(s: seq<T>, le: (T, T) -> bool)
    requires TotalPreorder(le)
    ensures SortedBy(Sort(s, le), le)
  {
    if s != [] {
      SortSorted(s[1..], le);
      InsertSorted(s[0], Sort(s[1..], le), le);
    }
  }

  /** `x` precedes-or-ties every element of `s`, so it goes in front. */
  lemma InsertInFront<T>(x: T, s: seq<T>, le: (T, T) -> bool)
    requires forall i :: 0 <= i < |s| ==> le(x, s[i])
    ensures Insert(x, s, le) == [x] + s
  {
  }

  /** Dropping the elements `p` rejects commutes with inserting one it rejects. */
  lemma {:induction false} FilterInsertRejected<T>(x: T, s: seq<T>, le: (T, T) -> bool, p: T -> bool)
    requires !p(x)
    ensures Filter(Insert(x, s, le), p) == Filter(s, p)
  {
    if s != [] && !le(x, s[0]) {
      FilterInsertRejected(x, s[1..], le, p);
      assert ([s[0]] + Insert(x, s[1..], le))[1..] == Insert(x, s[1..], le);
    } else {
      assert ([x] + s)[1..] == s;
    }
  }

  /** Filtering commutes with inserting a kept element into a sorted sequence. */
  lemma {:induction false} FilterInsertKept<T(!new)>(x: T, s: seq<T>, le: (T, T) -> bool, p: T -> bool)
    requires TotalPreorder(le) && SortedBy(s, le) && p(x)
    ensures Filter(Insert(x, s, le), p) == Insert(x, Filter(s, p), le)
  {
    if s == [] {
    } else if le(x, s[0]) {
      assert ([x] + s)[1..] == s;
      var f := Filter(s, p);
      forall i | 0 <= i < |f| ensures le(x, f[i]) {
        var k :| 0 <= k < |s| && s[k] == f[i];
        if k > 0 { assert le(s[0], s[k]); }
      }
      InsertInFront(x, f, le);
    } else {
      assert SortedBy(s[1..], le) by {
        forall i, j | 0 <= i < j < |s[1..]| ensures le(s[1..][i], s[1..][j]) {
          assert s[1..][i] == s[i + 1] && s[1..][j] == s[j + 1];
        }
      }
      FilterInsertKept(x, s[1..], le, p);
      assert ([s[0]] + Insert(x, s[1..], le))[1..] == Insert(x, s[1..], le);
    }
  }

  /** Sorting then selecting gives what selecting then sorting gives: a filter
      applied to sorted rows agrees with sorting the filtered rows. */
  lemma {:induction false} SortFilterCommute<T(!new)>(s: seq<T>, le: (T, T) -> bool, p: T -> bool)
    requires TotalPreorder(le)
    ensures Filter(Sort(s, le), p) == Sort(Filter(s, p), le)
  {
    if s != [] {
      SortFilterCommute(s[1..], le, p);
      SortSorted(s[1..], le);
      if p(s[0]) {
        FilterInsertKept(s[0], Sort(s[1..], le), le, p);
        assert Filter(s, p)[1..] == Filter(s[1..], p);
      } else {
        FilterInsertRejected(s[0], Sort(s[1..], le), le, p);
      }
    }
  }
}
