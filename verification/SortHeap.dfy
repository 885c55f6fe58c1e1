/** `sort_list` of libs/cjson/src/cJSON_Utils.c on the heap: it relinks the items
    it is given and nothing else, and the list it returns is the sort of `Sort`. */
module SortHeap {
  import opened Text
  import opened Items
  import opened Links
  import S = Sort

  function Name(item: Item): string
  {
    item.name
  }

  /** The scan that leaves ascending lists alone. */
  method IsAscending(list: Item, cs: bool, ghost s: seq<Item>) returns (ascending: bool)
    requires Chain(list, s)
    ensures ascending <==> S.Ascending(s, Name, cs)
  {
    var current := list;
    ghost var i := 0;
    while current.next != null && Compare(current.name, current.next.name, cs) < 0
      invariant i < |s| && current == s[i]
      invariant forall k :: 0 <= k < i ==> Compare(Name(s[k]), Name(s[k + 1]), cs) < 0
      decreases |s| - i
    {
      current := current.next;
      i := i + 1;
    }
    ascending := current.next == null;
    if !ascending {
      assert Compare(Name(s[i]), Name(s[i + 1]), cs) >= 0;
    }
  }

  /** Two pointers at different speed find the middle. */
  method FindMiddle(list: Item, ghost s: seq<Item>) returns (second: Item)
    requires Chain(list, s) && |s| > 1
    ensures second == s[(|s| + 1) / 2]
  {
    var slow: Item?, current: Item? := list, list;
    ghost var k := 0;
    while current != null
      invariant 2 * k <= |s| + 1 && k <= |s|
      invariant slow == if k < |s| then s[k] else null
      invariant current == if 2 * k < |s| then s[2 * k] else null
      decreases |s| - k
    {
      slow := slow.next;
      current := current.next;
      if current != null {
        current := current.next;
      }
      k := k + 1;
    }
    second := slow;
  }

  /** The part of the list already merged; its last `next` is still to be set. */
  ghost predicate Merging(head: Item?, tail: Item?, done: seq<Item>)
    reads done
  {
    && Different(done) && BackLinked(done)
    && (forall i {:trigger done[i].next} :: 0 <= i < |done| - 1 ==> done[i].next == done[i + 1])
    && (if done == [] then head == null else head == done[0] && tail == done[|done| - 1])
  }

  ghost predicate Apart(xs: seq<Item>, ys: seq<Item>)
  {
    forall x :: x in xs ==> x !in ys
  }

  ghost function Set(s: seq<Item>): set<Item>
  {
    set x | x in s
  }

  lemma ChainTail(s: seq<Item>)
    requires s != [] && Chain(s[0], s)
    ensures Chain(s[0].next, s[1..])
    ensures s[0] !in s[1..] && Set(s) == {s[0]} + Set(s[1..])
  {
    var r := s[1..];
    assert forall i :: 0 <= i < |r| ==> r[i] == s[i + 1];
    assert s == [s[0]] + r;
  }

  /** Moves the head of one list to the end of the merged part. */
  method TakeHead(head: Item?, tail: Item?, smaller: Item, other: Item?,
                  ghost done: seq<Item>, ghost xs: seq<Item>, ghost ys: seq<Item>)
    returns (result: Item, rest: Item?)
    requires Merging(head, tail, done) && xs != [] && Chain(smaller, xs) && Chain(other, ys)
    requires Apart(done, xs) && Apart(done, ys) && Apart(xs, ys)
    modifies Set(done)`next, smaller`prev
    ensures Merging(result, smaller, done + [smaller]) && rest == smaller.next
    ensures Chain(rest, xs[1..]) && Chain(other, ys)
    ensures Apart(done + [smaller], xs[1..]) && Apart(done + [smaller], ys)
    ensures Apart(xs[1..], ys) && Apart(ys, xs[1..])
    ensures Set(done + [smaller]) == Set(done) + {smaller} && Set(xs) == {smaller} + Set(xs[1..])
    ensures result == (if head == null then smaller else head) && result.prev == old(result.prev)
  {
    ChainTail(xs);
    ApartStep(done, xs, ys);
    assert smaller in xs;
    ghost var r := done + [smaller];
    assert forall i :: 0 <= i < |r| ==> r[i] == if i < |done| then done[i] else smaller;
    if head == null {
      result := smaller;
    } else {
      result := head;
      tail.next := smaller;
      smaller.prev := tail;
    }
    rest := smaller.next;
  }

  lemma DifferentConcat(xs: seq<Item>, ys: seq<Item>)
    requires Different(xs) && Different(ys) && Apart(xs, ys)
    ensures Different(xs + ys)
  {
    var r := xs + ys;
    forall i, j | 0 <= i < j < |r|
      ensures r[i] != r[j]
    {
      if i < |xs| <= j {
        assert r[i] in xs && r[j] in ys;
      }
    }
  }

  /** The head of a list moves to the merged part. */
  lemma ApartStep(done: seq<Item>, a: seq<Item>, b: seq<Item>)
    requires a != [] && Apart(a, b) && Apart(done, b)
    ensures Apart(a[1..], b) && Apart(b, a[1..]) && Apart(done + [a[0]], b)
  {
    assert a == [a[0]] + a[1..];
  }

  lemma ChainHead(head: Item?, s: seq<Item>)
    requires Chain(head, s)
    ensures head == if s == [] then null else s[0]
  {
  }

  /** Appends what is left of one list to the merged part. */
  method AppendRest(head: Item, tail: Item, rest: Item, ghost done: seq<Item>, ghost xs: seq<Item>)
    requires Merging(head, tail, done) && done != [] && xs != [] && Chain(rest, xs) && Apart(done, xs)
    modifies tail`next, rest`prev
    ensures Chain(head, done + xs) && head.prev == old(head.prev)
  {
    ghost var r := done + xs;
    assert forall i :: 0 <= i < |r| ==> r[i] == if i < |done| then done[i] else xs[i - |done|];
    DifferentConcat(done, xs);
    assert head == done[0] && rest == xs[0] && head in done && rest in xs;
    tail.next := rest;
    rest.prev := tail;
    forall i | 0 < i < |r|
      ensures r[i].prev == r[i - 1]
    {
      if i < |done| {
        assert done[i] in done && done[i].prev == done[i - 1];
      } else if i > |done| {
        assert xs[i - |done|] != xs[0] && xs[i - |done|].prev == xs[i - |done| - 1];
      }
    }
    forall i | 0 <= i < |r| - 1
      ensures r[i].next == r[i + 1]
    {
      if i >= |done| {
        assert xs[i - |done|] in xs && xs[i - |done|].next == xs[i - |done| + 1];
      }
    }
    assert r[|r| - 1] in xs;
  }

  /** Appends both rests; one of them is empty. */
  method AppendBoth(head: Item?, tail: Item?, first: Item?, second: Item?,
                    ghost done: seq<Item>, ghost a: seq<Item>, ghost b: seq<Item>)
    returns (result: Item)
    requires Merging(head, tail, done) && Chain(first, a) && Chain(second, b) && done != []
    requires Apart(done, a) && Apart(done, b) && ((a == []) != (b == []))
    modifies (Set(done) + Set(a) + Set(b))`next, (Set(done) + Set(a) + Set(b))`prev
    ensures Chain(result, done + if a != [] then a else b)
    ensures result == head && result.prev == old(head.prev)
  {
    result := head;
    assert tail in Set(done) && head in Set(done);
    if first != null {
      assert first in Set(a);
      AppendRest(head, tail, first, done, a);
    }
    if second != null {
      assert second in Set(b);
      AppendRest(head, tail, second, done, b);
    }
  }

  lemma {:induction false} MergeStarts(xs: seq<Item>, ys: seq<Item>, cs: bool)
    requires Apart(xs, ys)
    ensures Merging(null, null, []) && Apart([], xs) && Apart([], ys) && Apart(ys, xs)
    ensures [] + S.Merge(xs, ys, Name, cs) == S.Merge(xs, ys, Name, cs)
  {
  }

  lemma {:induction false} MergeEnds(xs: seq<Item>, ys: seq<Item>, cs: bool)
    requires xs == [] || ys == []
    ensures S.Merge(xs, ys, Name, cs) == if xs != [] then xs else ys
  {
  }

  /** The merge loop and the two appends after it. */
  method MergeLists(head1: Item, head2: Item, cs: bool, ghost s1: seq<Item>, ghost s2: seq<Item>)
    returns (result: Item)
    requires Chain(head1, s1) && Chain(head2, s2) && s1 != [] && s2 != [] && Apart(s1, s2)
    modifies (Set(s1) + Set(s2))`next, (Set(s1) + Set(s2))`prev
    ensures Chain(result, S.Merge(s1, s2, Name, cs))
    ensures (result == head1 || result == head2) && result.prev == old(result.prev)
  {
    hide Chain, Merging, Apart, S.Merge;
    MergeStarts(s1, s2, cs);
    var first: Item?, second: Item? := head1, head2;
    var head: Item?, tail: Item? := null, null;
    ghost var done, a, b := [], s1, s2;
    ghost var all, prev1, prev2 := Set(s1) + Set(s2), head1.prev, head2.prev;
    while first != null && second != null
      invariant Chain(first, a) && Chain(second, b) && Merging(head, tail, done)
      invariant Apart(a, b) && Apart(b, a) && Apart(done, a) && Apart(done, b)
      invariant Set(a) <= all && Set(b) <= all && Set(done) <= all
      invariant done + S.Merge(a, b, Name, cs) == S.Merge(s1, s2, Name, cs)
      invariant (a != [] || b != []) && (done == [] ==> a != [] && b != [])
      invariant if head == null then first == head1 && second == head2 && head1.prev == prev1 && head2.prev == prev2
                else (head == head1 && head.prev == prev1) || (head == head2 && head.prev == prev2)
      decreases |a| + |b|
    {
      var smaller: Item;
      ChainHead(first, a);
      ChainHead(second, b);
      if Compare(first.name, second.name, cs) < 0 {
        smaller := first;
        MoveFirst(done, a, b, cs);
        assert smaller in Set(a);
        head, first := TakeHead(head, tail, smaller, second, done, a, b);
        done, a := done + [smaller], a[1..];
      } else {
        smaller := second;
        MoveSecond(done, a, b, cs);
        assert smaller in Set(b);
        head, second := TakeHead(head, tail, smaller, first, done, b, a);
        done, b := done + [smaller], b[1..];
      }
      tail := smaller;
    }
    ChainHead(first, a);
    ChainHead(second, b);
    MergeEnds(a, b, cs);
    result := AppendBoth(head, tail, first, second, done, a, b);
  }

  lemma {:induction false} MoveFirst(done: seq<Item>, a: seq<Item>, b: seq<Item>, cs: bool)
    requires a != [] && b != [] && Compare(Name(a[0]), Name(b[0]), cs) < 0
    ensures (done + [a[0]]) + S.Merge(a[1..], b, Name, cs) == done + S.Merge(a, b, Name, cs)
  {
    Assoc(done, [a[0]], S.Merge(a[1..], b, Name, cs));
  }

  lemma {:induction false} MoveSecond(done: seq<Item>, a: seq<Item>, b: seq<Item>, cs: bool)
    requires a != [] && b != [] && Compare(Name(a[0]), Name(b[0]), cs) >= 0
    ensures (done + [b[0]]) + S.Merge(a, b[1..], Name, cs) == done + S.Merge(a, b, Name, cs)
  {
    Assoc(done, [b[0]], S.Merge(a, b[1..], Name, cs));
  }

  /** `sort_list`: the links of the result are those of the sorted list of the same
      items, but for `prev` of the head: it stays what it was when the head stays and
      is NULL when another item comes first. */
  method SortList(list: Item?, cs: bool, ghost s: seq<Item>) returns (result: Item?, ghost r: seq<Item>)
    requires Chain(list, s)
    modifies Set(s)`next, Set(s)`prev
    ensures r == S.SortList(s, Name, cs) && Chain(result, r)
    ensures result != null ==> result.prev == if result == list then old(result.prev) else null
    decreases |s|, 2
  {
    if list == null || list.next == null {
      return list, s;
    }
    var ascending := IsAscending(list, cs, s);
    if ascending {
      return list, s;
    }
    result, r := SortParts(list, cs, s);
  }

  /** Sorts both halves and merges them. */
  method SortParts(list: Item, cs: bool, ghost s: seq<Item>) returns (result: Item, ghost r: seq<Item>)
    requires Chain(list, s) && |s| > 1 && !S.Ascending(s, Name, cs)
    modifies Set(s)`next, Set(s)`prev
    ensures r == S.SortList(s, Name, cs) && Chain(result, r)
    ensures result.prev == if result == list then old(result.prev) else null
    decreases |s|, 1
  {
    ghost var left, right := s[..(|s| + 1) / 2], s[(|s| + 1) / 2..];
    r := S.SortList(s, Name, cs);
    SortStep(s, cs);
    Parts(s, (|s| + 1) / 2, cs);
    var second := SplitList(list, s);
    hide Chain, S.SortList, S.Ascending, S.Merge, Apart, Set;
    var head1, head2 := SortBoth(list, second, cs, left, right);
    result := MergeLists(head1, head2, cs, S.SortList(left, Name, cs), S.SortList(right, Name, cs));
  }

  /** Sorts two lists that share no items. */
  method SortBoth(first: Item, second: Item, cs: bool, ghost left: seq<Item>, ghost right: seq<Item>)
    returns (head1: Item, head2: Item)
    requires Chain(first, left) && Chain(second, right)
    requires Apart(right, left) && Apart(S.SortList(left, Name, cs), right) && second.prev == null
    modifies (Set(left) + Set(right))`next, (Set(left) + Set(right))`prev
    ensures Chain(head1, S.SortList(left, Name, cs)) && Chain(head2, S.SortList(right, Name, cs))
    ensures head1.prev == (if head1 == first then old(first.prev) else null) && head2.prev == null
    ensures head2 != first
    decreases |left| + |right|, 0
  {
    hide Chain, S.SortList;
    ghost var r;
    ChainHead(first, left);
    ChainHead(second, right);
    var list: Item?;
    list, r := SortList(first, cs, left);
    ChainHead(list, r);
    head1 := list;
    list, r := SortList(second, cs, right);
    ChainHead(list, r);
    head2 := list;
    SameItems(right, cs);
    assert head2 in r && first in left && head2 in Set(right);
  }

  /** Finds the middle and cuts the list before it. */
  method SplitList(list: Item, ghost s: seq<Item>) returns (second: Item)
    requires Chain(list, s) && |s| > 1
    modifies Set(s)`next, Set(s)`prev
    ensures Chain(list, s[..(|s| + 1) / 2]) && Chain(second, s[(|s| + 1) / 2..])
    ensures second.prev == null && list.prev == old(list.prev)
  {
    second := FindMiddle(list, s);
    assert second in s && s[(|s| + 1) / 2 - 1] in s;
    CutAt(second, s, (|s| + 1) / 2);
  }

  /** The two parts of a list and their sorts share no items. */
  lemma {:induction false} Parts(s: seq<Item>, middle: nat, cs: bool)
    requires Different(s) && 0 < middle < |s|
    ensures var left, right := s[..middle], s[middle..];
      var r1, r2 := S.SortList(left, Name, cs), S.SortList(right, Name, cs);
      && Set(r1) == Set(left) <= Set(s) && Set(r2) == Set(right) <= Set(s)
      && Apart(right, left) && Apart(r1, right) && Apart(r1, r2)
      && r1 != [] && r2 != []
  {
    hide S.SortList;
    var left, right := s[..middle], s[middle..];
    SameItems(left, cs);
    SameItems(right, cs);
    assert left[0] in Set(left) && right[0] in Set(right);
    forall x | x in Set(left)
      ensures x !in Set(right)
    {
      var i :| 0 <= i < middle && x == left[i];
      assert forall j :: 0 <= j < |right| ==> right[j] == s[middle + j] && right[j] != s[i];
    }
    forall x | x in S.SortList(left, Name, cs)
      ensures x !in right && x !in S.SortList(right, Name, cs)
    {
      assert x in Set(S.SortList(left, Name, cs));
    }
  }

  lemma {:induction false} SameItems(s: seq<Item>, cs: bool)
    ensures Set(S.SortList(s, Name, cs)) == Set(s)
  {
    var r := S.SortList(s, Name, cs);
    S.SortPermutes(s, Name, cs);
    assert forall x :: x in r <==> x in multiset(r);
    assert forall x :: x in s <==> x in multiset(s);
  }

  lemma {:induction false} SortStep(s: seq<Item>, cs: bool)
    requires |s| > 1 && !S.Ascending(s, Name, cs)
    ensures S.SortList(s, Name, cs)
      == S.Merge(S.SortList(s[..(|s| + 1) / 2], Name, cs), S.SortList(s[(|s| + 1) / 2..], Name, cs), Name, cs)
  {
  }

  /** Cuts the list before the item at a place. */
  method CutAt(second: Item, ghost s: seq<Item>, ghost middle: nat)
    requires 0 < middle < |s| && second == s[middle] && Linked(s) && BackLinked(s)
    modifies Set(s)`next, second`prev
    ensures Chain(s[0], s[..middle]) && Chain(second, s[middle..])
    ensures second.prev == null
  {
    assert second.prev == s[middle - 1];
    second.prev.next := null;
    second.prev := null;
    ghost var right := s[middle..];
    assert forall i :: 0 <= i < |right| ==> right[i] == s[middle + i];
  }

  /** A pointer into a list leads into the sorted one. */
  lemma {:induction false} SortedPoints(p: Item?, s: seq<Item>, back: Back, cs: bool)
    requires s != [] && Different(s) && PointsTo(p, s, back)
    ensures var r := S.SortList(s, Name, cs);
      && (r[0] == s[0] ==> PointsTo(p, r, SortBack(back, s, r)))
      && (r[0] != s[0] ==> SortBack(back, s, r) == Nowhere)
  {
    hide S.SortList;
    var r := S.SortList(s, Name, cs);
    S.SortPermutes(s, Name, cs);
    assert forall x :: x in r <==> x in multiset(r);
    assert forall x :: x in s <==> x in multiset(s);
    if |r| == 1 {
      assert r[0] in s;
    }
  }

  lemma {:induction false} SortedEnds(s: seq<Item>, cs: bool)
    requires s != [] && Different(s)
    ensures var r := S.SortList(s, Name, cs);
      PointsTo(s[|s| - 1], r, Tail) && r[0] == s[0] <==> EndsStay(s, r)
  {
    hide S.SortList;
    var r := S.SortList(s, Name, cs);
    S.SortPermutes(s, Name, cs);
    if |r| == 1 {
      assert r[0] in multiset(s);
    }
  }

  /** `sort_object`: the children are sorted, and `prev` of their head leads where
      `SortBack` says. A whole list is one again exactly when the sort left the first and
      the last item where they were. */
  method SortObject(parent: Item, cs: bool, ghost s: seq<Item>, ghost back: Back) returns (ghost r: seq<Item>)
    requires ListWith(parent, s, back)
    modifies parent`child, Set(s)`next, Set(s)`prev
    ensures r == S.SortList(s, Name, cs) && ListWith(parent, r, SortBack(back, s, r))
    ensures back == Tail ==> (ListOf(parent, r) <==> EndsStay(s, r))
  {
    ghost var first := if s == [] then null else s[0].prev;
    SameItems(s, cs);
    assert parent !in Set(s);
    if s != [] {
      SortedPoints(first, s, back, cs);
      SortedEnds(s, cs);
    }
    var sorted: Item?;
    sorted, r := SortList(parent.child, cs, s);
    parent.child := sorted;
    hide Set, S.SortList, Linked, BackLinked, SortBack;
    InSet(r, parent);
  }

  lemma InSet(s: seq<Item>, item: Item)
    ensures item in s <==> item in Set(s)
  {
  }
}
