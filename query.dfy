/** The relational operations the queries are built from: WHERE as a filter that
    keeps table order, and ORDER BY as a stable sort by a total preorder. SQL does
    not fix the order of rows that tie on the sort key; the model resolves ties
    by table order, which is one of the orders SQLite may return. */
module Query {
  import opened Wrappers

  ghost predicate TotalPreorder<T(!new)>(le: (T, T) -> bool) {
    && (forall a, b :: le(a, b) || le(b, a))
    && (forall a, b, c :: le(a, b) && le(b, c) ==> le(a, c))
  }

  ghost predicate SortedBy<T>(s: seq<T>, le: (T, T) -> bool) {
    forall i, j :: 0 <= i < j < |s| ==> le(s[i], s[j])
  }

  /** WHERE `keep`: the rows that satisfy it, in table order. */
  function Filter<T(!new)>(s: seq<T>, keep: T -> bool): (r: seq<T>)
    ensures |r| <= |s|
    ensures forall x :: x in r <==> x in s && keep(x)
  {
    if s == [] then []
    else
      assert s == [s[0]] + s[1..];
      (if keep(s[0]) then [s[0]] else []) + Filter(s[1..], keep)
  }

  /** Filtering keeps every copy of a row that satisfies the condition and no
      copy of one that does not. */
  lemma {:induction false} FilterMultiset<T(!new)>(s: seq<T>, keep: T -> bool)
    ensures forall x :: multiset(Filter(s, keep))[x] == if keep(x) then multiset(s)[x] else 0
  {
    if s != [] {
      assert s == [s[0]] + s[1..];
      FilterMultiset(s[1..], keep);
    }
  }

  lemma {:induction false} FilterAppend<T(!new)>(s: seq<T>, t: seq<T>, keep: T -> bool)
    ensures Filter(s + t, keep) == Filter(s, keep) + Filter(t, keep)
  {
    if s == [] {
      assert s + t == t;
    } else {
      var st := s + t;
      assert st[0] == s[0] && st[1..] == s[1..] + t;
      FilterAppend(s[1..], t, keep);
      var head := if keep(s[0]) then [s[0]] else [];
      assert Filter(st, keep) == head + Filter(st[1..], keep);
      assert Filter(s, keep) == head + Filter(s[1..], keep);
    }
  }

  /** Inserting into a sorted sequence before the first element `x` does not
      exceed keeps it sorted. */
  function Insert<T(!new)>(x: T, s: seq<T>, le: (T, T) -> bool): (r: seq<T>)
    requires TotalPreorder(le)
    requires SortedBy(s, le)
    ensures multiset(r) == multiset(s) + multiset{x}
    ensures SortedBy(r, le)
  {
    if s == [] then [x]
    else if le(x, s[0]) then [x] + s
    else
      assert s == [s[0]] + s[1..];
      var rest := Insert(x, s[1..], le);
      assert le(s[0], x);
      assert forall j :: 0 <= j < |s[1..]| ==> le(s[0], s[1..][j]) by {
        forall j | 0 <= j < |s[1..]| ensures le(s[0], s[1..][j]) {
          assert s[1..][j] == s[j + 1];
        }
      }
      BelowAllAfterInsert(s[0], x, s[1..], rest, le);
      SortedCons(s[0], rest, le);
      assert multiset([s[0]] + rest) == multiset{s[0]} + multiset(rest);
      [s[0]] + rest
  }

  lemma SortedCons<T>(h: T, rest: seq<T>, le: (T, T) -> bool)
    requires SortedBy(rest, le)
    requires forall j :: 0 <= j < |rest| ==> le(h, rest[j])
    ensures SortedBy([h] + rest, le)
  {
    var r := [h] + rest;
    forall i, j | 0 <= i < j < |r| ensures le(r[i], r[j]) {
      assert r[j] == rest[j - 1];
      if i > 0 {
        assert r[i] == rest[i - 1];
      }
    }
  }

  /** A row no greater than `x` and than every row of `tail` is no greater than
      any row of a rearrangement of `tail` with `x` added. */
  lemma BelowAllAfterInsert<T>(h: T, x: T, tail: seq<T>, rest: seq<T>, le: (T, T) -> bool)
    requires le(h, x)
    requires forall j :: 0 <= j < |tail| ==> le(h, tail[j])
    requires multiset(rest) == multiset(tail) + multiset{x}
    ensures forall j :: 0 <= j < |rest| ==> le(h, rest[j])
  {
    forall j | 0 <= j < |rest| ensures le(h, rest[j]) {
      var y := rest[j];
      assert y in multiset(rest);
      if y != x {
        assert y in multiset(tail);
        var k :| 0 <= k < |tail| && tail[k] == y;
      }
    }
  }

  /** ORDER BY `le`: the same rows, sorted; ties keep table order. */
  function SortBy<T(!new)>(s: seq<T>, le: (T, T) -> bool): (r: seq<T>)
    requires TotalPreorder(le)
    ensures multiset(r) == multiset(s)
    ensures |r| == |s|
    ensures SortedBy(r, le)
  {
    if s == [] then []
    else
      assert s == [s[0]] + s[1..];
      var r := Insert(s[0], SortBy(s[1..], le), le);
      assert |r| == |multiset(r)| == |multiset(s)| == |s|;
      r
  }

  /** Sorting keeps exactly the rows it was given. */
  lemma SortByMembers<T(!new)>(s: seq<T>, le: (T, T) -> bool)
    requires TotalPreorder(le)
    ensures forall x :: x in SortBy(s, le) <==> x in s
  {
    var r := SortBy(s, le);
    forall x ensures x in r <==> x in s {
      assert x in r <==> x in multiset(r);
      assert x in s <==> x in multiset(s);
    }
  }

  /** A filtered sorted sequence is still sorted. */
  lemma {:induction false} FilterSorted<T(!new)>(s: seq<T>, keep: T -> bool, le: (T, T) -> bool)
    requires SortedBy(s, le)
    ensures SortedBy(Filter(s, keep), le)
  {
    if s != [] {
      FilterSorted(s[1..], keep, le);
      var rest := Filter(s[1..], keep);
      forall j | 0 <= j < |rest| ensures le(s[0], rest[j]) {
        assert rest[j] in s[1..];
        var k :| 0 <= k < |s[1..]| && s[1..][k] == rest[j];
        assert s[k + 1] == rest[j];
      }
    }
  }

  lemma MultisetWithout<T>(s: seq<T>, k: int)
    requires 0 <= k < |s|
    ensures multiset(s[..k] + s[k + 1..]) == multiset(s) - multiset{s[k]}
  {
    assert s == s[..k] + [s[k]] + s[k + 1..];
  }

  lemma DistinctWithout<T, K>(s: seq<T>, k: int, key: T -> K)
    requires 0 <= k < |s|
    requires forall i, j :: 0 <= i < j < |s| ==> key(s[i]) != key(s[j])
    ensures var s' := s[..k] + s[k + 1..];
      forall i, j :: 0 <= i < j < |s'| ==> key(s'[i]) != key(s'[j])
  {
    var s' := s[..k] + s[k + 1..];
    forall i, j | 0 <= i < j < |s'| ensures key(s'[i]) != key(s'[j]) {
      var i' := if i < k then i else i + 1;
      var j' := if j < k then j else j + 1;
      assert s'[i] == s[i'] && s'[j] == s[j'];
    }
  }

  /** The first row of a rearrangement sits somewhere in the original; the
      rest of it rearranges the original without that row. */
  lemma HeadSplit<T>(r: seq<T>, s: seq<T>) returns (k: int)
    requires r != [] && multiset(r) == multiset(s)
    ensures 0 <= k < |s| && s[k] == r[0]
    ensures multiset(r[1..]) == multiset(s[..k] + s[k + 1..])
  {
    assert r[0] in multiset(s);
    k :| 0 <= k < |s| && s[k] == r[0];
    calc {
      multiset(r[1..]);
    == { assert r[..0] + r[1..] == r[1..]; }
      multiset(r[..0] + r[1..]);
    == { MultisetWithout(r, 0); }
      multiset(r) - multiset{r[0]};
    ==
      multiset(s) - multiset{s[k]};
    == { MultisetWithout(s, k); }
      multiset(s[..k] + s[k + 1..]);
    }
  }

  /** The key of that first row differs from the keys of all the others. */
  lemma HeadKeyFresh<T, K>(r: seq<T>, s: seq<T>, k: int, key: T -> K)
    requires r != [] && 0 <= k < |s| && s[k] == r[0]
    requires multiset(r[1..]) == multiset(s[..k] + s[k + 1..])
    requires forall i, j :: 0 <= i < j < |s| ==> key(s[i]) != key(s[j])
    ensures forall j :: 0 < j < |r| ==> key(r[0]) != key(r[j])
  {
    var s' := s[..k] + s[k + 1..];
    forall j | 0 < j < |r| ensures key(r[0]) != key(r[j]) {
      assert r[j] == r[1..][j - 1];
      assert r[j] in multiset(s');
      var m :| 0 <= m < |s'| && s'[m] == r[j];
      var m' := if m < k then m else m + 1;
      assert s[m'] == r[j];
    }
  }

  /** A rearrangement of rows whose keys are pairwise different has pairwise
      different keys too. */
  lemma {:induction false} DistinctUnderPermutation<T, K>(r: seq<T>, s: seq<T>, key: T -> K)
    requires multiset(r) == multiset(s)
    requires forall i, j :: 0 <= i < j < |s| ==> key(s[i]) != key(s[j])
    ensures forall i, j :: 0 <= i < j < |r| ==> key(r[i]) != key(r[j])
    decreases |r|
  {
    if r != [] {
      var k := HeadSplit(r, s);
      DistinctWithout(s, k, key);
      DistinctUnderPermutation(r[1..], s[..k] + s[k + 1..], key);
      HeadKeyFresh(r, s, k, key);
      forall i, j | 0 <= i < j < |r| ensures key(r[i]) != key(r[j]) {
        if i > 0 {
          assert r[i] == r[1..][i - 1] && r[j] == r[1..][j - 1];
        }
      }
    }
  }

  /** The aggregate MAX over a column: None for no rows. */
  function MaxOf(ns: seq<int>): (r: Option<int>)
    ensures r.None? <==> ns == []
    ensures r.Some? ==> r.value in ns && forall i :: 0 <= i < |ns| ==> ns[i] <= r.value
  {
    if ns == [] then None
    else
      match MaxOf(ns[1..])
      case None => Some(ns[0])
      case Some(m) => Some(if ns[0] >= m then ns[0] else m)
  }

  /** `COALESCE((SELECT MAX(c) + 1 ...), default)`: one past the highest value,
      or `default` when there is none. */
  function NextAfterMax(ns: seq<int>, default: int): (r: int)
    ensures ns == [] ==> r == default
    ensures ns != [] ==> r - 1 in ns && forall i :: 0 <= i < |ns| ==> ns[i] < r
  {
    match MaxOf(ns)
    case None => default
    case Some(m) => m + 1
  }
}
