/** Rows of a table and the queryset operations the views compose: filter / exclude,
    order_by (a stable sort), slicing with [:n], and get() with its three outcomes. */
module Tables {
  import opened Wrappers

  /** queryset.filter(keep): the rows that satisfy `keep`, in their order. */
  function Filter<T(!new)>(s: seq<T>, keep: T -> bool): (r: seq<T>)
    ensures |r| <= |s|
    ensures forall x :: multiset(r)[x] == if keep(x) then multiset(s)[x] else 0
    ensures forall x :: x in r <==> x in s && keep(x)
  {
    if s == [] then []
    else
      assert s == [s[0]] + s[1..];
      (if keep(s[0]) then [s[0]] else []) + Filter(s[1..], keep)
  }

  /** Every pair of rows, earlier before later, is in `le` order. */
  predicate Sorted<T>(s: seq<T>, le: (T, T) -> bool) {
    forall i, j :: 0 <= i < j < |s| ==> le(s[i], s[j])
  }

  /** `le` is total and transitive: a sort key, ties allowed. */
  ghost predicate TotalPreorder<T(!new)>(le: (T, T) -> bool) {
    && (forall a, b :: le(a, b) || le(b, a))
    && (forall a, b, c :: le(a, b) && le(b, c) ==> le(a, c))
  }

  /** Puts `x` in front of the first row it is not after. */
  function Insert<T>(x: T, s: seq<T>, le: (T, T) -> bool): (r: seq<T>)
    ensures |r| == |s| + 1
    ensures multiset(r) == multiset(s) + multiset{x}
  {
    if s == [] then [x]
    else if le(x, s[0]) then [x] + s
    else
      assert s == [s[0]] + s[1..];
      [s[0]] + Insert(x, s[1..], le)
  }

  /** queryset.order_by(...): the rows rearranged by `le`, equal rows kept in their
      original order. */
  function SortBy<T>(s: seq<T>, le: (T, T) -> bool): (r: seq<T>)
    ensures |r| == |s|
    ensures multiset(r) == multiset(s)
  {
    if s == [] then []
    else
      assert s == [s[0]] + s[1..];
      Insert(s[0], SortBy(s[1..], le), le)
  }

  lemma {:induction false} InsertSorted<T(!new)>(x: T, s: seq<T>, le: (T, T) -> bool)
    requires TotalPreorder(le) && Sorted(s, le)
    ensures Sorted(Insert(x, s, le), le)
  {
    if s != [] && !le(x, s[0]) {
      InsertSorted(x, s[1..], le);
      var r := Insert(x, s[1..], le);
      assert le(s[0], x);
      forall k | 0 <= k < |r| ensures le(s[0], r[k]) {
        assert r[k] in multiset(r);
        assert r[k] == x || r[k] in multiset(s[1..]);
        if r[k] != x {
          var j :| 0 <= j < |s[1..]| && s[1..][j] == r[k];
          assert s[j + 1] == r[k];
        }
      }
    }
  }

  /** order_by really orders. */
  lemma {:induction false} SortBySorted<T(!new)>(s: seq<T>, le: (T, T) -> bool)
    requires TotalPreorder(le)
    ensures Sorted(SortBy(s, le), le)
  {
    if s != [] {
      SortBySorted(s[1..], le);
      InsertSorted(s[0], SortBy(s[1..], le), le);
    }
  }

  lemma {:induction false} SortedTail<T>(s: seq<T>, le: (T, T) -> bool)
    requires s != [] && Sorted(s, le)
    ensures Sorted(s[1..], le)
  {
    var t := s[1..];
    forall i, j | 0 <= i < j < |t| ensures le(t[i], t[j]) {
      assert t[i] == s[i + 1] && t[j] == s[j + 1];
    }
  }

  lemma {:induction false} SortedCons<T>(x: T, s: seq<T>, le: (T, T) -> bool)
    requires Sorted(s, le) && forall k :: 0 <= k < |s| ==> le(x, s[k])
    ensures Sorted([x] + s, le)
  {
    var t := [x] + s;
    forall i, j | 0 <= i < j < |t| ensures le(t[i], t[j]) {
      assert t[j] == s[j - 1];
      if i > 0 {
        assert t[i] == s[i - 1];
      }
    }
  }

  /** A row that precedes every row of `s` in `le` precedes every row kept from it. */
  lemma {:induction false} BoundFilter<T(!new)>(x: T, s: seq<T>, keep: T -> bool, le: (T, T) -> bool)
    requires forall k :: 0 <= k < |s| ==> le(x, s[k])
    ensures forall k :: 0 <= k < |Filter(s, keep)| ==> le(x, Filter(s, keep)[k])
  {
    var r := Filter(s, keep);
    forall k | 0 <= k < |r| ensures le(x, r[k]) {
      assert r[k] in s;
    }
  }

  /** Filtering keeps the rows in the order they had. */
  lemma {:induction false} FilterPreservesSorted<T(!new)>(s: seq<T>, keep: T -> bool, le: (T, T) -> bool)
    requires Sorted(s, le)
    ensures Sorted(Filter(s, keep), le)
  {
    if s != [] {
      var tail := s[1..];
      SortedTail(s, le);
      FilterPreservesSorted(tail, keep, le);
      if keep(s[0]) {
        assert forall k :: 0 <= k < |tail| ==> le(s[0], tail[k]) by {
          forall k | 0 <= k < |tail| ensures le(s[0], tail[k]) {
            assert tail[k] == s[k + 1];
          }
        }
        BoundFilter(s[0], tail, keep, le);
        SortedCons(s[0], Filter(tail, keep), le);
      }
    }
  }

  /** queryset[:n]: the first n rows, or all of them when there are fewer. */
  function Take<T>(s: seq<T>, n: nat): (r: seq<T>)
    ensures |r| == if n < |s| then n else |s|
    ensures r == s[..|r|]
  {
    if n < |s| then s[..n] else s
  }

  /** Slicing a slice keeps the shorter prefix. */
  lemma {:induction false} TakeTake<T>(s: seq<T>, n: nat, m: nat)
    ensures Take(Take(s, n), m) == Take(s, if n < m then n else m)
  {
    var k := if n < m then n else m;
    assert Take(Take(s, n), m) == Take(s, n)[..|Take(Take(s, n), m)|];
    assert |Take(Take(s, n), m)| == |Take(s, k)|;
  }

  /** filter(...).order_by(...): exactly the rows kept, each as often as stored, in
      sorted order. */
  lemma {:induction false} SortedSelection<T(!new)>(s: seq<T>, keep: T -> bool, le: (T, T) -> bool)
    requires TotalPreorder(le)
    ensures var r := SortBy(Filter(s, keep), le);
            && (forall x :: multiset(r)[x] == if keep(x) then multiset(s)[x] else 0)
            && (forall x :: x in r <==> x in s && keep(x))
            && Sorted(r, le)
  {
    var f := Filter(s, keep);
    var r := SortBy(f, le);
    SortBySorted(f, le);
    assert multiset(r) == multiset(f);
    CountsGiveMembers(r, s, keep);
  }

  /** The first n rows of a sorted sequence are the n smallest by `le`: nothing left out
      comes before anything taken. */
  lemma {:induction false} TakeSortedIsTop<T>(s: seq<T>, n: nat, le: (T, T) -> bool)
    requires Sorted(s, le)
    ensures var r := Take(s, n);
            Sorted(r, le)
            && forall i, j :: 0 <= i < |r| <= j < |s| ==> le(r[i], s[j])
  {
  }

  /** Rows carry distinct keys. */
  predicate UniqueBy<T, K(==)>(s: seq<T>, key: T -> K) {
    forall i, j :: 0 <= i < j < |s| ==> key(s[i]) != key(s[j])
  }

  /** The first position at or after `from` whose row satisfies `p`. */
  function FirstWhere<T>(s: seq<T>, p: T -> bool, from: nat): (r: Option<nat>)
    requires from <= |s|
    ensures r.Some? ==> from <= r.value < |s| && p(s[r.value])
                        && forall j :: from <= j < r.value ==> !p(s[j])
    ensures r.None? ==> forall j :: from <= j < |s| ==> !p(s[j])
    decreases |s| - from
  {
    if from == |s| then None
    else if p(s[from]) then Some(from)
    else FirstWhere(s, p, from + 1)
  }

  /** The three outcomes of queryset.get(...), the found one by its position. */
  datatype Lookup = DoesNotExist | Found(index: nat) | MultipleObjectsReturned

  /** queryset.get(p): the one row satisfying `p`, or which way that fails. */
  function Get<T>(s: seq<T>, p: T -> bool): (r: Lookup)
    ensures r.DoesNotExist? <==> forall j :: 0 <= j < |s| ==> !p(s[j])
    ensures r.Found? ==> r.index < |s| && p(s[r.index])
                         && forall j :: 0 <= j < |s| && j != r.index ==> !p(s[j])
    ensures r.MultipleObjectsReturned? ==>
              exists i, j :: 0 <= i < j < |s| && p(s[i]) && p(s[j])
  {
    match FirstWhere(s, p, 0)
    case None => DoesNotExist
    case Some(i) =>
      if FirstWhere(s, p, i + 1).Some? then MultipleObjectsReturned else Found(i)
  }

  /** A lookup by a key the rows hold uniquely never finds two rows. */
  lemma {:induction false} GetByUniqueKey<T, K>(s: seq<T>, key: T -> K, k: K)
    requires UniqueBy(s, key)
    ensures !Get(s, x => key(x) == k).MultipleObjectsReturned?
  {
  }

  /** Changing one row in a way `p` does not see leaves the lookup by `p` as it was. */
  lemma {:induction false} GetAfterUpdate<T>(s: seq<T>, p: T -> bool, i: nat, x: T)
    requires i < |s| && p(x) == p(s[i])
    ensures Get(s[i := x], p) == Get(s, p)
  {
    var t := s[i := x];
    assert forall j :: 0 <= j < |s| ==> p(t[j]) == p(s[j]);
    match Get(s, p)
    case DoesNotExist =>
    case Found(k) =>
    case MultipleObjectsReturned =>
      var a, b :| 0 <= a < b < |s| && p(s[a]) && p(s[b]);
      assert p(t[a]) && p(t[b]);
  }

  /** A key above every key in the table: what an auto-increment column hands out next. */
  function NextId<T>(s: seq<T>, key: T -> nat): (n: nat)
    ensures n >= 1 && forall i :: 0 <= i < |s| ==> key(s[i]) < n
  {
    if s == [] then 1
    else
      var m := NextId(s[..|s| - 1], key);
      var k := key(s[|s| - 1]);
      if k < m then m else k + 1
  }

  /** Changing one row in place keeps the keys unique when its key is kept. */
  lemma {:induction false} UpdateKeepsUnique<T, K>(s: seq<T>, key: T -> K, i: nat, x: T)
    requires UniqueBy(s, key) && i < |s| && key(x) == key(s[i])
    ensures UniqueBy(s[i := x], key)
  {
    var t := s[i := x];
    forall a, b | 0 <= a < b < |t| ensures key(t[a]) != key(t[b]) {
      assert key(t[a]) == key(s[a]) && key(t[b]) == key(s[b]);
    }
  }

  /** Appending a row with a fresh key keeps the keys unique. */
  lemma {:induction false} AppendKeepsUnique<T, K>(s: seq<T>, key: T -> K, x: T)
    requires UniqueBy(s, key) && forall i :: 0 <= i < |s| ==> key(s[i]) != key(x)
    ensures UniqueBy(s + [x], key)
  {
    var t := s + [x];
    forall a, b | 0 <= a < b < |t| ensures key(t[a]) != key(t[b]) {
      if b < |s| {
        assert t[a] == s[a] && t[b] == s[b];
      } else {
        assert t[a] == s[a] && t[b] == x;
      }
    }
  }

  /** No row occurs twice, as after .distinct(). */
  ghost predicate NoRepeats<T(!new)>(s: seq<T>) {
    forall x :: multiset(s)[x] <= 1
  }

  /** Rows with distinct keys are distinct rows. */
  lemma {:induction false} UniqueByNoRepeats<T(!new), K>(s: seq<T>, key: T -> K)
    requires UniqueBy(s, key)
    ensures NoRepeats(s)
  {
    if s != [] {
      var t := s[1..];
      assert s == [s[0]] + t;
      assert UniqueBy(t, key) by {
        forall i, j | 0 <= i < j < |t| ensures key(t[i]) != key(t[j]) {
          assert t[i] == s[i + 1] && t[j] == s[j + 1];
        }
      }
      UniqueByNoRepeats(t, key);
    }
  }

  /** A prefix holds no row more often than the whole. */
  lemma {:induction false} TakeSubMultiset<T>(s: seq<T>, n: nat)
    ensures multiset(Take(s, n)) <= multiset(s)
  {
    if n < |s| {
      assert s == s[..n] + s[n..];
    }
  }

  /** A sequence holding each row as often as `s` does when `keep` admits it, and
      never otherwise, holds exactly the rows of `s` that `keep` admits. */
  lemma {:induction false} CountsGiveMembers<T(!new)>(r: seq<T>, s: seq<T>, keep: T -> bool)
    requires forall x :: multiset(r)[x] == if keep(x) then multiset(s)[x] else 0
    ensures multiset(r) <= multiset(s)
    ensures forall x :: x in r <==> x in s && keep(x)
  {
    forall x ensures x in r <==> x in s && keep(x) {
      assert x in r <==> multiset(r)[x] > 0;
      assert x in s <==> multiset(s)[x] > 0;
    }
  }

  /** queryset.order_by(...)[:n]: at most n rows of `s`, in order, and no row left out
      comes before a row taken. */
  lemma {:induction false} TopOfSorted<T(!new)>(s: seq<T>, n: nat, le: (T, T) -> bool)
    requires TotalPreorder(le)
    ensures var r := Take(SortBy(s, le), n);
            && |r| == (if n < |s| then n else |s|)
            && multiset(r) <= multiset(s)
            && Sorted(r, le)
            && (forall x :: x in s && x !in r ==> forall y :: y in r ==> le(y, x))
            && (|r| < n ==> forall x :: x in s ==> x in r)
  {
    var sorted := SortBy(s, le);
    var r := Take(sorted, n);
    SortBySorted(s, le);
    TakeSortedIsTop(sorted, n, le);
    TakeSubMultiset(sorted, n);
    forall x | x in s && x !in r ensures forall y :: y in r ==> le(y, x) {
      assert x in multiset(sorted);
      var j :| 0 <= j < |sorted| && sorted[j] == x;
      assert j >= |r|;
      forall y | y in r ensures le(y, x) {
        var i :| 0 <= i < |r| && r[i] == y;
        assert le(r[i], sorted[j]);
      }
    }
    if |r| < n {
      assert r == sorted;
      forall x | x in s ensures x in r {
        assert x in multiset(sorted);
      }
    }
  }

  /** The first n of the sorted selection from rows without repeats: at most n rows,
      each one kept and stored, none twice. */
  lemma {:induction false} TopOfSelection<T(!new)>(s: seq<T>, keep: T -> bool, le: (T, T) -> bool, n: nat)
    requires NoRepeats(s)
    ensures var r := Take(SortBy(Filter(s, keep), le), n);
            && |r| <= n
            && (forall x :: x in r ==> x in s && keep(x))
            && NoRepeats(r)
  {
    var f := Filter(s, keep);
    var r := Take(SortBy(f, le), n);
    assert multiset(r) <= multiset(f) by {
      TakeSubMultiset(SortBy(f, le), n);
    }
    assert multiset(f) <= multiset(s);
    NoRepeatsInPart(r, s);
    SubMultisetMembers(r, f);
  }

  /** Every row of a part is a row of the whole. */
  lemma {:induction false} SubMultisetMembers<T>(r: seq<T>, s: seq<T>)
    requires multiset(r) <= multiset(s)
    ensures forall x :: x in r ==> x in s
  {
    forall x | x in r ensures x in s {
      assert x in multiset(r);
    }
  }

  /** Part of a sequence without repeats has none either. */
  lemma {:induction false} NoRepeatsInPart<T(!new)>(r: seq<T>, s: seq<T>)
    requires multiset(r) <= multiset(s) && NoRepeats(s)
    ensures NoRepeats(r)
  {
    forall x ensures multiset(r)[x] <= 1 {
      assert multiset(r)[x] <= multiset(s)[x];
    }
  }
}
