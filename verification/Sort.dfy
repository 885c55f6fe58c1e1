/** The list sort of libs/cjson/src/cJSON_Utils.c as a function on sequences: a
    merge sort that leaves strictly ascending lists alone, cuts after the middle
    and takes ties from the second half. The heap version in SortHeap.dfy is
    proved to compute it; comparison, patches and merge patches sort with it. */
module Sort {
  import opened Text

  /** The scan at the start of `sort_list`: every neighbour compares below zero. */
  predicate Ascending<T>(xs: seq<T>, key: T -> string, cs: bool)
  {
    forall i :: 0 <= i < |xs| - 1 ==> Compare(key(xs[i]), key(xs[i + 1]), cs) < 0
  }

  function Merge<T>(xs: seq<T>, ys: seq<T>, key: T -> string, cs: bool): (r: seq<T>)
    ensures |r| == |xs| + |ys|
  {
    if xs == [] then ys
    else if ys == [] then xs
    else if Compare(key(xs[0]), key(ys[0]), cs) < 0 then [xs[0]] + Merge(xs[1..], ys, key, cs)
    else [ys[0]] + Merge(xs, ys[1..], key, cs)
  }

  function SortList<T>(xs: seq<T>, key: T -> string, cs: bool): (r: seq<T>)
    ensures |r| == |xs|
  {
    if |xs| <= 1 || Ascending(xs, key, cs) then xs
    else
      var middle := (|xs| + 1) / 2;
      Merge(SortList(xs[..middle], key, cs), SortList(xs[middle..], key, cs), key, cs)
  }

  lemma {:induction false} SortUnfold<T>(xs: seq<T>, key: T -> string, cs: bool)
    ensures SortList(xs, key, cs) ==
      if |xs| <= 1 || Ascending(xs, key, cs) then xs
      else Merge(SortList(xs[..(|xs| + 1) / 2], key, cs), SortList(xs[(|xs| + 1) / 2..], key, cs), key, cs)
  {
    hide Ascending, Merge;
  }

  /** Every earlier element is at most every later one. */
  ghost predicate Sorted<T>(xs: seq<T>, key: T -> string, cs: bool)
  {
    forall i, j :: 0 <= i < j < |xs| ==> Compare(key(xs[i]), key(xs[j]), cs) <= 0
  }

  /** No two elements have keys that the order identifies. */
  predicate Distinct<T>(xs: seq<T>, key: T -> string, cs: bool)
  {
    forall i, j :: 0 <= i < j < |xs| ==> !SameKey(key(xs[i]), key(xs[j]), cs)
  }

  lemma MultisetCons<T>(x: T, xs: seq<T>)
    ensures multiset([x] + xs) == multiset{x} + multiset(xs)
  {
  }

  lemma {:induction false} MergePermutes<T>(xs: seq<T>, ys: seq<T>, key: T -> string, cs: bool)
    ensures multiset(Merge(xs, ys, key, cs)) == multiset(xs) + multiset(ys)
  {
    if xs == [] || ys == [] {
    } else if Compare(key(xs[0]), key(ys[0]), cs) < 0 {
      MergePermutes(xs[1..], ys, key, cs);
      MultisetCons(xs[0], xs[1..]);
      MultisetCons(xs[0], Merge(xs[1..], ys, key, cs));
      assert xs == [xs[0]] + xs[1..];
    } else {
      MergePermutes(xs, ys[1..], key, cs);
      MultisetCons(ys[0], ys[1..]);
      MultisetCons(ys[0], Merge(xs, ys[1..], key, cs));
      assert ys == [ys[0]] + ys[1..];
    }
  }

  lemma {:induction false} SortPermutes<T>(xs: seq<T>, key: T -> string, cs: bool)
    ensures multiset(SortList(xs, key, cs)) == multiset(xs)
  {
    if |xs| > 1 && !Ascending(xs, key, cs) {
      var middle := (|xs| + 1) / 2;
      var left, right := xs[..middle], xs[middle..];
      assert xs == left + right;
      SortPermutes(left, key, cs);
      SortPermutes(right, key, cs);
      MergePermutes(SortList(left, key, cs), SortList(right, key, cs), key, cs);
      assert SortList(xs, key, cs) == Merge(SortList(left, key, cs), SortList(right, key, cs), key, cs);
    }
  }

  /** Sorting neither loses nor invents an element. */
  lemma {:induction false} SortMembers<T>(xs: seq<T>, key: T -> string, cs: bool, x: T)
    ensures x in SortList(xs, key, cs) <==> x in xs
  {
    SortPermutes(xs, key, cs);
    assert x in SortList(xs, key, cs) <==> x in multiset(SortList(xs, key, cs));
    assert x in xs <==> x in multiset(xs);
  }

  ghost predicate Below<T>(x: T, ys: seq<T>, key: T -> string, cs: bool)
  {
    forall j :: 0 <= j < |ys| ==> Compare(key(x), key(ys[j]), cs) <= 0
  }

  lemma BelowAll<T>(x: T, ys: seq<T>, key: T -> string, cs: bool)
    requires ys != [] ==> Compare(key(x), key(ys[0]), cs) <= 0
    requires Sorted(ys, key, cs)
    ensures Below(x, ys, key, cs)
  {
    forall j | 0 <= j < |ys|
      ensures Compare(key(x), key(ys[j]), cs) <= 0
    {
      if j > 0 {
        CompareTransitive(key(x), key(ys[0]), key(ys[j]), cs);
      }
    }
  }

  lemma SortedTail<T>(xs: seq<T>, key: T -> string, cs: bool)
    requires Sorted(xs, key, cs) && xs != []
    ensures Sorted(xs[1..], key, cs) && Below(xs[0], xs[1..], key, cs)
  {
    var tail := xs[1..];
    forall i, j | 0 <= i < j < |tail|
      ensures Compare(key(tail[i]), key(tail[j]), cs) <= 0
    {
      assert tail[i] == xs[i + 1] && tail[j] == xs[j + 1];
    }
  }

  lemma {:induction false} MergeBelow<T>(x: T, xs: seq<T>, ys: seq<T>, key: T -> string, cs: bool)
    requires Below(x, xs, key, cs) && Below(x, ys, key, cs)
    ensures Below(x, Merge(xs, ys, key, cs), key, cs)
  {
    if xs != [] && ys != [] {
      assert Below(x, xs[1..], key, cs) && Below(x, ys[1..], key, cs);
      if Compare(key(xs[0]), key(ys[0]), cs) < 0 {
        MergeBelow(x, xs[1..], ys, key, cs);
      } else {
        MergeBelow(x, xs, ys[1..], key, cs);
      }
    }
  }

  lemma SortedCons<T>(x: T, ys: seq<T>, key: T -> string, cs: bool)
    requires Below(x, ys, key, cs) && Sorted(ys, key, cs)
    ensures Sorted([x] + ys, key, cs)
  {
  }

  lemma {:induction false} MergeSorted<T>(xs: seq<T>, ys: seq<T>, key: T -> string, cs: bool)
    requires Sorted(xs, key, cs) && Sorted(ys, key, cs)
    ensures Sorted(Merge(xs, ys, key, cs), key, cs)
  {
    if xs != [] && ys != [] {
      SortedTail(xs, key, cs);
      SortedTail(ys, key, cs);
      if Compare(key(xs[0]), key(ys[0]), cs) < 0 {
        MergeSorted(xs[1..], ys, key, cs);
        BelowAll(xs[0], ys, key, cs);
        MergeBelow(xs[0], xs[1..], ys, key, cs);
        SortedCons(xs[0], Merge(xs[1..], ys, key, cs), key, cs);
      } else {
        MergeSorted(xs, ys[1..], key, cs);
        CompareFlip(key(xs[0]), key(ys[0]), cs);
        BelowAll(ys[0], xs, key, cs);
        MergeBelow(ys[0], xs, ys[1..], key, cs);
        SortedCons(ys[0], Merge(xs, ys[1..], key, cs), key, cs);
      }
    }
  }

  lemma {:induction false} AscendingSorted<T>(xs: seq<T>, key: T -> string, cs: bool)
    requires Ascending(xs, key, cs)
    ensures Sorted(xs, key, cs)
  {
    if |xs| > 1 {
      assert Ascending(xs[1..], key, cs) by {
        forall i | 0 <= i < |xs[1..]| - 1
          ensures Compare(key(xs[1..][i]), key(xs[1..][i + 1]), cs) < 0
        {
          assert xs[1..][i] == xs[i + 1] && xs[1..][i + 1] == xs[i + 2];
        }
      }
      AscendingSorted(xs[1..], key, cs);
      assert Compare(key(xs[0]), key(xs[0 + 1]), cs) < 0;
      BelowAll(xs[0], xs[1..], key, cs);
      SortedCons(xs[0], xs[1..], key, cs);
      assert xs == [xs[0]] + xs[1..];
    }
  }

  lemma {:induction false} SortSorts<T>(xs: seq<T>, key: T -> string, cs: bool)
    ensures Sorted(SortList(xs, key, cs), key, cs)
  {
    if |xs| <= 1 {
    } else if Ascending(xs, key, cs) {
      AscendingSorted(xs, key, cs);
    } else {
      var middle := (|xs| + 1) / 2;
      SortSorts(xs[..middle], key, cs);
      SortSorts(xs[middle..], key, cs);
      MergeSorted(SortList(xs[..middle], key, cs), SortList(xs[middle..], key, cs), key, cs);
    }
  }

  // ------------------------------------------------- lists with distinct keys

  lemma DistinctByMultiset<T>(xs: seq<T>, ys: seq<T>, key: T -> string, cs: bool)
    requires multiset(xs) == multiset(ys) && Distinct(xs, key, cs)
    ensures Distinct(ys, key, cs)
  {
    if i, j :| 0 <= i < j < |ys| && SameKey(key(ys[i]), key(ys[j]), cs) {
      var a, b := ys[i], ys[j];
      assert a in multiset(xs) && b in multiset(xs);
      if a == b {
        CountTwice(ys, i, j);
        CountOnce(xs, key, cs, a);
      }
      assert false;
    }
  }

  lemma CountTwice<T>(xs: seq<T>, i: nat, j: nat)
    requires i < j < |xs| && xs[i] == xs[j]
    ensures multiset(xs)[xs[i]] >= 2
  {
    assert xs == xs[..j] + [xs[j]] + xs[j + 1..];
    assert xs[i] in xs[..j];
  }

  lemma {:induction false} CountOnce<T>(xs: seq<T>, key: T -> string, cs: bool, x: T)
    requires Distinct(xs, key, cs)
    ensures multiset(xs)[x] <= 1
  {
    if xs != [] {
      CountOnce(xs[1..], key, cs, x);
      assert xs == [xs[0]] + xs[1..];
    }
  }

  /** A sorted list with distinct keys ascends strictly. */
  lemma SortedDistinct<T>(xs: seq<T>, key: T -> string, cs: bool)
    requires Sorted(xs, key, cs) && Distinct(xs, key, cs)
    ensures forall i, j :: 0 <= i < j < |xs| ==> Compare(key(xs[i]), key(xs[j]), cs) < 0
  {
    forall i, j | 0 <= i < j < |xs|
      ensures Compare(key(xs[i]), key(xs[j]), cs) < 0
    {
      CompareZero(key(xs[i]), key(xs[j]), cs);
    }
  }

  /** What comparison and patch generation need of a sorted object. */
  lemma {:induction false} SortDistinct<T>(xs: seq<T>, key: T -> string, cs: bool)
    requires Distinct(xs, key, cs)
    ensures var r := SortList(xs, key, cs);
      && Distinct(r, key, cs)
      && forall i, j :: 0 <= i < j < |r| ==> Compare(key(r[i]), key(r[j]), cs) < 0
  {
    SortPermutes(xs, key, cs);
    SortSorts(xs, key, cs);
    DistinctByMultiset(xs, SortList(xs, key, cs), key, cs);
    SortedDistinct(SortList(xs, key, cs), key, cs);
  }

  // --------------------------------------------------- agreeing key orders

  /** The case-sensitive order and the other one agree on two keys. */
  predicate OrdersAgree(a: string, b: string)
  {
    && (Compare(a, b, true) < 0 <==> Compare(a, b, false) < 0)
    && (Compare(a, b, true) == 0 <==> Compare(a, b, false) == 0)
  }

  ghost predicate AllAgree<T>(xs: seq<T>, ys: seq<T>, key: T -> string)
  {
    forall x, y :: x in xs && y in ys ==> OrdersAgree(key(x), key(y))
  }

  lemma {:induction false} MergeAgrees<T>(xs: seq<T>, ys: seq<T>, key: T -> string)
    requires AllAgree(xs, ys, key)
    ensures Merge(xs, ys, key, false) == Merge(xs, ys, key, true)
  {
    if xs != [] && ys != [] {
      assert xs == [xs[0]] + xs[1..] && ys == [ys[0]] + ys[1..];
      assert OrdersAgree(key(xs[0]), key(ys[0]));
      MergeAgrees(xs[1..], ys, key);
      MergeAgrees(xs, ys[1..], key);
    }
  }

  /** Where the orders agree the flag does not matter to the sort. */
  lemma {:induction false} SortAgrees<T>(xs: seq<T>, key: T -> string)
    requires AllAgree(xs, xs, key)
    ensures SortList(xs, key, false) == SortList(xs, key, true)
  {
    assert Ascending(xs, key, false) == Ascending(xs, key, true) by {
      forall i | 0 <= i < |xs| - 1
        ensures Compare(key(xs[i]), key(xs[i + 1]), false) < 0 <==> Compare(key(xs[i]), key(xs[i + 1]), true) < 0
      {
        assert OrdersAgree(key(xs[i]), key(xs[i + 1]));
      }
    }
    if |xs| > 1 && !Ascending(xs, key, true) {
      var left, right := xs[..(|xs| + 1) / 2], xs[(|xs| + 1) / 2..];
      SortAgrees(left, key);
      SortAgrees(right, key);
      forall x, y | x in SortList(left, key, true) && y in SortList(right, key, true)
        ensures OrdersAgree(key(x), key(y))
      {
        SortMembers(left, key, true, x);
        SortMembers(right, key, true, y);
      }
      MergeAgrees(SortList(left, key, true), SortList(right, key, true), key);
    }
  }

  /** Two elements out of order, or with equal keys, change places. */
  lemma {:induction false} SwapSorted<T>(x: T, y: T, key: T -> string, cs: bool)
    requires Compare(key(x), key(y), cs) >= 0
    ensures SortList([x, y], key, cs) == [y, x]
  {
    hide Compare;
    var xs := [x, y];
    assert !Ascending(xs, key, cs) by {
      assert Compare(key(xs[0]), key(xs[0 + 1]), cs) >= 0;
    }
    assert xs[..1] == [x] && xs[1..] == [y] && [y][1..] == [];
    assert SortList([x], key, cs) == [x] && SortList([y], key, cs) == [y];
    assert Merge([x], [y], key, cs) == [y] + Merge([x], [], key, cs);
  }

  lemma {:induction false} KeptSorted<T>(x: T, y: T, key: T -> string, cs: bool)
    requires Compare(key(x), key(y), cs) < 0
    ensures SortList([x, y], key, cs) == [x, y]
  {
    hide Compare;
    assert Ascending([x, y], key, cs);
  }
}
