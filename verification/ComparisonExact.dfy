/** What the two deep comparisons decide on every tree, keys repeated or not, and exactly
    when they give one answer. */
module ComparisonExact {
  import opened Text
  import opened Sort
  import opened Json
  import opened Comparison

  // ------------------------------------------- trees with all their copies

  /** A tree with an object as the map from its keys to the sequences of their values. */
  datatype Copies =
    | CInvalid
    | CNull
    | CBool(b: bool)
    | CNumber(n: int)
    | CString(s: string)
    | CArray(items: seq<Copies>)
    | CObject(fields: map<string, seq<Copies>>)

  function CopiesOf(j: Json, cs: bool): Copies
    decreases j
  {
    match j
    case Invalid => CInvalid
    case Null => CNull
    case Bool(b) => CBool(b)
    case Number(n) => CNumber(n)
    case String(s) => CString(s)
    case Array(items) => CArray(CopiesOfItems(items, cs))
    case Object(members) => CObject(CopiesOfMembers(members, cs))
  }

  function CopiesOfItems(items: seq<Json>, cs: bool): (r: seq<Copies>)
    ensures |r| == |items|
    decreases items
  {
    if items == [] then [] else [CopiesOf(items[0], cs)] + CopiesOfItems(items[1..], cs)
  }

  function CopiesOfMembers(members: seq<Member>, cs: bool): map<string, seq<Copies>>
    decreases members
  {
    if members == [] then map[]
    else PutFirst(CopiesOfMembers(members[1..], cs), Norm(members[0].name, cs), CopiesOf(members[0].item, cs))
  }

  function Listed(m: map<string, seq<Copies>>, k: string): seq<Copies>
  {
    if k in m then m[k] else []
  }

  function PutFirst(m: map<string, seq<Copies>>, k: string, c: Copies): map<string, seq<Copies>>
  {
    m[k := [c] + Listed(m, k)]
  }

  /** Every key has a value. */
  ghost predicate Filled(m: map<string, seq<Copies>>)
  {
    forall k :: k in m ==> m[k] != []
  }

  lemma {:induction false} CopiesFilled(members: seq<Member>, cs: bool)
    ensures Filled(CopiesOfMembers(members, cs))
  {
    if members != [] {
      CopiesFilled(members[1..], cs);
    }
  }

  lemma SameListed(m: map<string, seq<Copies>>, n: map<string, seq<Copies>>)
    requires Filled(m) && Filled(n)
    ensures m == n <==> forall k :: Listed(m, k) == Listed(n, k)
  {
    if forall k :: Listed(m, k) == Listed(n, k) {
      forall k | k in m
        ensures k in n && n[k] == m[k]
      {
        assert Listed(m, k) == Listed(n, k);
      }
      forall k | k in n
        ensures k in m
      {
        assert Listed(m, k) == Listed(n, k);
      }
    }
  }

  lemma PutFirstListed(m: map<string, seq<Copies>>, k: string, c: Copies, l: string)
    ensures Listed(PutFirst(m, k, c), l) == if l == k then [c] + Listed(m, k) else Listed(m, l)
  {
  }

  /** Putting first is undone by nothing but the same key and value. */
  lemma {:induction false} PutFirstSame(m: map<string, seq<Copies>>, n: map<string, seq<Copies>>, k: string,
                                        c: Copies, d: Copies)
    requires Filled(m) && Filled(n)
    ensures PutFirst(m, k, c) == PutFirst(n, k, d) <==> c == d && m == n
  {
    hide PutFirst, Listed;
    if PutFirst(m, k, c) == PutFirst(n, k, d) {
      forall l
        ensures Listed(m, l) == Listed(n, l)
      {
        PutFirstListed(m, k, c, l);
        PutFirstListed(n, k, d, l);
        TailOf(c, Listed(m, k));
        TailOf(d, Listed(n, k));
      }
      PutFirstListed(m, k, c, k);
      PutFirstListed(n, k, d, k);
      TailOf(c, Listed(m, k));
      TailOf(d, Listed(n, k));
      SameListed(m, n);
    }
  }

  lemma TailOf<T>(x: T, xs: seq<T>)
    ensures ([x] + xs)[0] == x && ([x] + xs)[1..] == xs
  {
  }

  // ----------------------------------------------- the walk over sorted lists

  /** A key below all keys of a sorted list has no value there. */
  lemma {:induction false} BelowUnlisted(key: string, ms: seq<Member>, cs: bool)
    requires Sorted(ms, NameOf, cs) && (ms != [] ==> Compare(key, ms[0].name, cs) < 0)
    ensures Norm(key, cs) !in CopiesOfMembers(ms, cs)
  {
    hide Compare, CopiesOf, Norm;
    if ms != [] {
      CompareZero(key, ms[0].name, cs);
      NormSame(key, ms[0].name, cs);
      SortedTail(ms, NameOf, cs);
      if |ms| > 1 {
        assert Compare(NameOf(ms[0]), NameOf(ms[1]), cs) <= 0;
        CompareTransitive(key, ms[0].name, ms[1].name, cs);
      }
      BelowUnlisted(key, ms[1..], cs);
    }
  }

  lemma NormSame(a: string, b: string, cs: bool)
    ensures SameKey(a, b, cs) <==> Norm(a, cs) == Norm(b, cs)
  {
  }

  lemma {:induction false} LockstepExact(ms: seq<Member>, ns: seq<Member>, cs: bool, owner: Json)
    requires Sorted(ms, NameOf, cs) && Sorted(ns, NameOf, cs)
    requires forall m :: m in ms ==> m.item < owner
    ensures CompareMembers(ms, ns, cs, owner) <==> CopiesOfMembers(ms, cs) == CopiesOfMembers(ns, cs)
    decreases owner, 0, |ms|
  {
    hide Compare, CompareJson, CopiesOf, Norm, PutFirst, Sorted;
    if ms == [] || ns == [] {
      OneEmpty(ms, cs);
      OneEmpty(ns, cs);
    } else {
      var x, y := ms[0].name, ns[0].name;
      CompareZero(x, y, cs);
      NormSame(x, y, cs);
      if Compare(x, y, cs) == 0 {
        CompareExact(ms[0].item, ns[0].item, cs);
        SortedTail(ms, NameOf, cs);
        SortedTail(ns, NameOf, cs);
        LockstepExact(ms[1..], ns[1..], cs, owner);
        CopiesFilled(ms[1..], cs);
        CopiesFilled(ns[1..], cs);
        PutFirstSame(CopiesOfMembers(ms[1..], cs), CopiesOfMembers(ns[1..], cs), Norm(x, cs),
                     CopiesOf(ms[0].item, cs), CopiesOf(ns[0].item, cs));
      } else {
        CompareFlip(x, y, cs);
        HeadListed(ms, cs);
        HeadListed(ns, cs);
        if Compare(x, y, cs) < 0 {
          BelowUnlisted(x, ns, cs);
        } else {
          BelowUnlisted(y, ms, cs);
        }
      }
    }
  }

  lemma {:induction false} OneEmpty(ms: seq<Member>, cs: bool)
    ensures CopiesOfMembers(ms, cs) == map[] <==> ms == []
  {
    if ms != [] {
      HeadListed(ms, cs);
    }
  }

  lemma {:induction false} HeadListed(ms: seq<Member>, cs: bool)
    requires ms != []
    ensures Norm(ms[0].name, cs) in CopiesOfMembers(ms, cs)
  {
  }

  // -------------------------------------------------- the sort turns ties round

  function Reversed<T>(xs: seq<T>): (r: seq<T>)
    ensures |r| == |xs| && forall i :: 0 <= i < |xs| ==> r[i] == xs[|xs| - 1 - i]
  {
    seq(|xs|, i requires 0 <= i < |xs| => xs[|xs| - 1 - i])
  }

  lemma ReversedConcat<T>(xs: seq<T>, ys: seq<T>)
    ensures Reversed(xs + ys) == Reversed(ys) + Reversed(xs)
  {
  }

  /** The members with one key, in their order. */
  function Chosen(ms: seq<Member>, k: string, cs: bool): seq<Member>
  {
    if ms == [] then []
    else (if Norm(ms[0].name, cs) == k then [ms[0]] else []) + Chosen(ms[1..], k, cs)
  }

  lemma {:induction false} ChosenConcat(xs: seq<Member>, ys: seq<Member>, k: string, cs: bool)
    ensures Chosen(xs + ys, k, cs) == Chosen(xs, k, cs) + Chosen(ys, k, cs)
  {
    hide Norm;
    if xs == [] {
      NoPrefix(ys);
      NoPrefix(Chosen(ys, k, cs));
    } else {
      TailOfConcat(xs, ys);
      ChosenConcat(xs[1..], ys, k, cs);
      Assoc(if Norm(xs[0].name, cs) == k then [xs[0]] else [], Chosen(xs[1..], k, cs), Chosen(ys, k, cs));
    }
  }

  lemma {:induction false} ChosenBelow(key: string, ms: seq<Member>, cs: bool)
    requires Sorted(ms, NameOf, cs) && (ms != [] ==> Compare(key, ms[0].name, cs) < 0)
    ensures Chosen(ms, Norm(key, cs), cs) == []
  {
    hide Compare, Norm;
    if ms != [] {
      CompareZero(key, ms[0].name, cs);
      NormSame(key, ms[0].name, cs);
      SortedTail(ms, NameOf, cs);
      if |ms| > 1 {
        assert Compare(NameOf(ms[0]), NameOf(ms[1]), cs) <= 0;
        CompareTransitive(key, ms[0].name, ms[1].name, cs);
      }
      ChosenBelow(key, ms[1..], cs);
    }
  }

  /** Of equal keys a merge takes those of the second list first. */
  lemma {:induction false} ChosenMerge(xs: seq<Member>, ys: seq<Member>, k: string, cs: bool)
    requires Sorted(ys, NameOf, cs)
    ensures Chosen(Merge(xs, ys, NameOf, cs), k, cs) == Chosen(ys, k, cs) + Chosen(xs, k, cs)
  {
    hide Compare, Norm, Sorted;
    if xs == [] {
      NoSuffix(Chosen(ys, k, cs));
    } else if ys == [] {
      NoPrefix(Chosen(xs, k, cs));
    } else if Compare(NameOf(xs[0]), NameOf(ys[0]), cs) < 0 {
      ChosenMerge(xs[1..], ys, k, cs);
      var head := if Norm(xs[0].name, cs) == k then [xs[0]] else [];
      TailOf(xs[0], Merge(xs[1..], ys, NameOf, cs));
      ChosenBelow(xs[0].name, ys, cs);
      if head == [] {
        NoPrefix(Chosen(xs[1..], k, cs));
        NoPrefix(Chosen(ys, k, cs) + Chosen(xs[1..], k, cs));
      } else {
        NoPrefix(Chosen(xs[1..], k, cs));
        NoPrefix(Chosen(xs, k, cs));
      }
    } else {
      SortedTail(ys, NameOf, cs);
      ChosenMerge(xs, ys[1..], k, cs);
      TailOf(ys[0], Merge(xs, ys[1..], NameOf, cs));
      Assoc(if Norm(ys[0].name, cs) == k then [ys[0]] else [], Chosen(ys[1..], k, cs), Chosen(xs, k, cs));
    }
  }

  lemma {:induction false} ChosenOnce(ms: seq<Member>, k: string, cs: bool)
    requires Distinct(ms, NameOf, cs)
    ensures |Chosen(ms, k, cs)| <= 1
  {
    hide Norm, SameKey;
    if ms != [] {
      DistinctTail(ms, cs);
      ChosenOnce(ms[1..], k, cs);
      if Norm(ms[0].name, cs) == k {
        NoneChosen(ms, k, cs);
      }
    }
  }

  lemma {:induction false} NoneChosen(ms: seq<Member>, k: string, cs: bool)
    requires Distinct(ms, NameOf, cs) && ms != [] && Norm(ms[0].name, cs) == k
    ensures Chosen(ms[1..], k, cs) == []
  {
    hide Norm, SameKey;
    forall i | 0 <= i < |ms[1..]|
      ensures Norm(ms[1..][i].name, cs) != k
    {
      assert ms[1..][i] == ms[i + 1];
      assert !SameKey(NameOf(ms[0]), NameOf(ms[i + 1]), cs);
      NormSame(ms[0].name, ms[i + 1].name, cs);
    }
    NoneThere(ms[1..], k, cs);
  }

  lemma {:induction false} NoneThere(ms: seq<Member>, k: string, cs: bool)
    requires forall i :: 0 <= i < |ms| ==> Norm(ms[i].name, cs) != k
    ensures Chosen(ms, k, cs) == []
  {
    hide Norm;
    if ms != [] {
      NoneThere(ms[1..], k, cs);
    }
  }

  lemma ReversedOne<T>(xs: seq<T>)
    requires |xs| <= 1
    ensures Reversed(xs) == xs
  {
  }

  /** The sort turns the members with equal keys round. */
  lemma {:induction false} ChosenSort(ms: seq<Member>, k: string, cs: bool)
    ensures Chosen(SortList(ms, NameOf, cs), k, cs) == Reversed(Chosen(ms, k, cs))
    decreases |ms|
  {
    hide Norm, Merge, Chosen, Sorted, Compare, Ascending, SortList, Reversed;
    SortUnfold(ms, NameOf, cs);
    if |ms| <= 1 || Ascending(ms, NameOf, cs) {
      AscendingDistinct(ms, cs);
      ChosenOnce(ms, k, cs);
      ReversedOne(Chosen(ms, k, cs));
    } else {
      var left, right := ms[..(|ms| + 1) / 2], ms[(|ms| + 1) / 2..];
      ChosenSort(left, k, cs);
      ChosenSort(right, k, cs);
      SortSorts(right, NameOf, cs);
      ChosenMerge(SortList(left, NameOf, cs), SortList(right, NameOf, cs), k, cs);
      ChosenConcat(left, right, k, cs);
      assert ms == left + right;
      ReversedConcat(Chosen(left, k, cs), Chosen(right, k, cs));
    }
  }

  lemma {:induction false} AscendingDistinct(ms: seq<Member>, cs: bool)
    requires |ms| <= 1 || Ascending(ms, NameOf, cs)
    ensures Distinct(ms, NameOf, cs)
  {
    hide Compare, SameKey;
    if |ms| > 1 {
      forall i, j | 0 <= i < j < |ms|
        ensures !SameKey(NameOf(ms[i]), NameOf(ms[j]), cs)
      {
        AscendingStep(ms, i, j, cs);
        CompareZero(ms[i].name, ms[j].name, cs);
      }
    }
  }

  lemma {:induction false} AscendingStep(ms: seq<Member>, i: nat, j: nat, cs: bool)
    requires Ascending(ms, NameOf, cs) && i < j < |ms|
    ensures Compare(NameOf(ms[i]), NameOf(ms[j]), cs) < 0
    decreases j
  {
    hide Compare;
    assert Compare(NameOf(ms[j - 1]), NameOf(ms[j - 1 + 1]), cs) < 0;
    if i < j - 1 {
      AscendingStep(ms, i, j - 1, cs);
      CompareTransitive(ms[i].name, ms[j - 1].name, ms[j].name, cs);
    }
  }

  // --------------------------------------------------- what compare_json decides

  function CopiesOfList(ms: seq<Member>, cs: bool): (r: seq<Copies>)
    ensures |r| == |ms| && forall i :: 0 <= i < |ms| ==> r[i] == CopiesOf(ms[i].item, cs)
  {
    seq(|ms|, i requires 0 <= i < |ms| => CopiesOf(ms[i].item, cs))
  }

  lemma {:induction false} ListedChosen(ms: seq<Member>, k: string, cs: bool)
    ensures Listed(CopiesOfMembers(ms, cs), k) == CopiesOfList(Chosen(ms, k, cs), cs)
  {
    hide Norm, CopiesOf, PutFirst, Listed;
    if ms == [] {
      NoneListed(k);
    } else {
      ListedChosen(ms[1..], k, cs);
      PutFirstListed(CopiesOfMembers(ms[1..], cs), Norm(ms[0].name, cs), CopiesOf(ms[0].item, cs), k);
    }
  }

  lemma NoneListed(k: string)
    ensures Listed(map[], k) == []
  {
  }

  lemma {:induction false} ListedSorted(ms: seq<Member>, k: string, cs: bool)
    ensures Listed(CopiesOfMembers(SortList(ms, NameOf, cs), cs), k) == Reversed(Listed(CopiesOfMembers(ms, cs), k))
  {
    hide SortList, CopiesOf, CopiesOfMembers, Chosen, Listed;
    ListedChosen(ms, k, cs);
    ListedChosen(SortList(ms, NameOf, cs), k, cs);
    ChosenSort(ms, k, cs);
  }

  lemma ReversedSame<T>(xs: seq<T>, ys: seq<T>)
    ensures Reversed(xs) == Reversed(ys) <==> xs == ys
  {
    if Reversed(xs) == Reversed(ys) {
      forall i | 0 <= i < |xs|
        ensures xs[i] == ys[i]
      {
        assert Reversed(xs)[|xs| - 1 - i] == Reversed(ys)[|xs| - 1 - i];
      }
    }
  }

  lemma {:induction false} SortedSame(ms: seq<Member>, ns: seq<Member>, cs: bool)
    ensures CopiesOfMembers(SortList(ms, NameOf, cs), cs) == CopiesOfMembers(SortList(ns, NameOf, cs), cs)
      <==> CopiesOfMembers(ms, cs) == CopiesOfMembers(ns, cs)
  {
    hide SortList, CopiesOfMembers, Listed;
    var p, q := CopiesOfMembers(ms, cs), CopiesOfMembers(ns, cs);
    var r, s := CopiesOfMembers(SortList(ms, NameOf, cs), cs), CopiesOfMembers(SortList(ns, NameOf, cs), cs);
    CopiesFilled(ms, cs);
    CopiesFilled(ns, cs);
    CopiesFilled(SortList(ms, NameOf, cs), cs);
    CopiesFilled(SortList(ns, NameOf, cs), cs);
    forall k
      ensures Listed(r, k) == Listed(s, k) <==> Listed(p, k) == Listed(q, k)
    {
      ListedSorted(ms, k, cs);
      ListedSorted(ns, k, cs);
      ReversedSame(Listed(p, k), Listed(q, k));
    }
    SameListed(p, q);
    SameListed(r, s);
  }

  /** `compare_json` on any two trees: equal when every key has equal values in both, as
      often and in the same order. */
  lemma {:induction false} CompareExact(a: Json, b: Json, cs: bool)
    ensures CompareJson(a, b, cs) <==> CopiesOf(a, cs) == CopiesOf(b, cs)
    decreases a, 1, 0
  {
    match (a, b) {
      case (String(x), String(y)) => StrCmpZero(x, y);
      case (Array(xs), Array(ys)) => CompareItemsExact(xs, ys, cs);
      case (Object(ms), Object(ns)) =>
        SortKeepsBelow(ms, cs, a);
        SortSorts(ms, NameOf, cs);
        SortSorts(ns, NameOf, cs);
        LockstepExact(SortList(ms, NameOf, cs), SortList(ns, NameOf, cs), cs, a);
        SortedSame(ms, ns, cs);
      case _ =>
    }
  }

  lemma {:induction false} CompareItemsExact(xs: seq<Json>, ys: seq<Json>, cs: bool)
    ensures CompareItems(xs, ys, cs) <==> CopiesOfItems(xs, cs) == CopiesOfItems(ys, cs)
    decreases xs, 0, 0
  {
    hide CompareJson, CopiesOf;
    if xs != [] && ys != [] {
      CompareExact(xs[0], ys[0], cs);
      CompareItemsExact(xs[1..], ys[1..], cs);
      TailOf(CopiesOf(xs[0], cs), CopiesOfItems(xs[1..], cs));
      TailOf(CopiesOf(ys[0], cs), CopiesOfItems(ys[1..], cs));
    }
  }

  // --------------------------------------------------- what cJSON_Compare decides

  /** The value of a tree in which members with the same key have the same value; `None`
      where two of them differ, or where an item is invalid. */
  function Flat(j: Json, cs: bool): Option<Value>
    decreases j
  {
    match j
    case Invalid => None
    case Null => Some(VNull)
    case Bool(b) => Some(VBool(b))
    case Number(n) => Some(VNumber(n))
    case String(s) => Some(VString(s))
    case Array(items) =>
      var flat := FlatItems(items, cs);
      if flat.None? then None else Some(VArray(flat.value))
    case Object(members) =>
      var flat := FlatMembers(members, cs);
      if flat.None? then None else Some(VObject(flat.value))
  }

  function FlatItems(items: seq<Json>, cs: bool): (r: Option<seq<Value>>)
    ensures r.Some? ==> |r.value| == |items|
    decreases items
  {
    if items == [] then Some([])
    else
      var first, rest := Flat(items[0], cs), FlatItems(items[1..], cs);
      if first.None? || rest.None? then None else Some([first.value] + rest.value)
  }

  function FlatMembers(members: seq<Member>, cs: bool): Option<map<string, Value>>
    decreases members
  {
    if members == [] then Some(map[])
    else AddFlat(Norm(members[0].name, cs), Flat(members[0].item, cs), FlatMembers(members[1..], cs))
  }

  function AddFlat(k: string, v: Option<Value>, rest: Option<map<string, Value>>): Option<map<string, Value>>
  {
    if v.None? || rest.None? || (k in rest.value && rest.value[k] != v.value) then None
    else Some(rest.value[k := v.value])
  }

  /** The member has a value, and the map has it under its key. */
  predicate FlatAt(m: Member, flat: map<string, Value>, cs: bool)
  {
    Norm(m.name, cs) in flat && Flat(m.item, cs) == Some(flat[Norm(m.name, cs)])
  }

  lemma {:induction false} FlatHolds(ms: seq<Member>, cs: bool)
    requires FlatMembers(ms, cs).Some?
    ensures var flat := FlatMembers(ms, cs).value;
      && (forall m :: m in ms ==> FlatAt(m, flat, cs))
      && forall k :: k in flat ==> exists m :: m in ms && Norm(m.name, cs) == k
  {
    hide Norm, Flat;
    if ms != [] {
      FlatHolds(ms[1..], cs);
      var flat := FlatMembers(ms, cs).value;
      forall m | m in ms
        ensures FlatAt(m, flat, cs)
      {
        if m != ms[0] {
          assert m in ms[1..];
        }
      }
      forall k | k in flat
        ensures exists m :: m in ms && Norm(m.name, cs) == k
      {
        if k == Norm(ms[0].name, cs) {
          assert ms[0] in ms;
        } else {
          var m :| m in ms[1..] && Norm(m.name, cs) == k;
          assert m in ms;
        }
      }
    }
  }

  /** Nothing is invalid and members with one key have one value. */
  ghost predicate Consistent(ms: seq<Member>, cs: bool)
  {
    && (forall m :: m in ms ==> Flat(m.item, cs).Some?)
    && forall m, n :: m in ms && n in ms && Norm(m.name, cs) == Norm(n.name, cs) ==>
         Flat(m.item, cs) == Flat(n.item, cs)
  }

  lemma {:induction false} FlatMade(ms: seq<Member>, cs: bool)
    ensures FlatMembers(ms, cs).Some? <==> Consistent(ms, cs)
  {
    hide Norm, Flat;
    if ms != [] {
      FlatMade(ms[1..], cs);
      if Consistent(ms, cs) {
        assert ms[0] in ms && forall m :: m in ms[1..] ==> m in ms;
        FlatHolds(ms[1..], cs);
      }
      if FlatMembers(ms, cs).Some? {
        FlatHolds(ms, cs);
      }
    }
  }

  /** Two lists with values have the same map when each has every member of the other. */
  lemma {:induction false} FlatSame(ms: seq<Member>, ns: seq<Member>, cs: bool)
    requires FlatMembers(ms, cs).Some? && FlatMembers(ns, cs).Some?
    ensures FlatMembers(ms, cs) == FlatMembers(ns, cs) <==>
      && (forall m :: m in ms ==> FlatAt(m, FlatMembers(ns, cs).value, cs))
      && forall n :: n in ns ==> FlatAt(n, FlatMembers(ms, cs).value, cs)
  {
    hide Norm, Flat, FlatMembers;
    FlatHolds(ms, cs);
    FlatHolds(ns, cs);
    var p, q := FlatMembers(ms, cs).value, FlatMembers(ns, cs).value;
    if (forall m :: m in ms ==> FlatAt(m, q, cs)) && forall n :: n in ns ==> FlatAt(n, p, cs) {
      forall k | k in p
        ensures k in q && q[k] == p[k]
      {
        var m :| m in ms && Norm(m.name, cs) == k;
        assert FlatAt(m, p, cs) && FlatAt(m, q, cs);
      }
      forall k | k in q
        ensures k in p
      {
        var n :| n in ns && Norm(n.name, cs) == k;
        assert FlatAt(n, p, cs);
      }
      assert p == q;
    }
  }

  /** The first member with the key of `m` has its value. */
  ghost predicate Partner(m: Member, ns: seq<Member>, cs: bool)
  {
    var i := FindKey(ns, m.name, cs);
    i < |ns| && Flat(m.item, cs).Some? && Flat(m.item, cs) == Flat(ns[i].item, cs)
  }

  ghost predicate Partners(ms: seq<Member>, ns: seq<Member>, cs: bool)
  {
    forall m :: m in ms ==> Partner(m, ns, cs)
  }

  lemma {:induction false} PartnersKnown(ms: seq<Member>, ns: seq<Member>, cs: bool)
    requires FlatMembers(ns, cs).Some?
    ensures Partners(ms, ns, cs) <==> forall m :: m in ms ==> FlatAt(m, FlatMembers(ns, cs).value, cs)
  {
    hide Norm, Flat, FlatMembers, FindKey;
    FlatHolds(ns, cs);
    var flat := FlatMembers(ns, cs).value;
    forall m | m in ms
      ensures Partner(m, ns, cs) <==> FlatAt(m, flat, cs)
    {
      PartnerKnown(m, ns, cs);
    }
  }

  lemma {:induction false} PartnerKnown(m: Member, ns: seq<Member>, cs: bool)
    requires FlatMembers(ns, cs).Some?
    ensures Partner(m, ns, cs) <==> FlatAt(m, FlatMembers(ns, cs).value, cs)
  {
    hide Norm, Flat, FlatMembers, FindKey;
    FlatHolds(ns, cs);
    var flat, i := FlatMembers(ns, cs).value, FindKey(ns, m.name, cs);
    if i < |ns| {
      NormSame(m.name, ns[i].name, cs);
      assert ns[i] in ns;
    } else if FlatAt(m, flat, cs) {
      var n :| n in ns && Norm(n.name, cs) == Norm(m.name, cs);
      var k :| 0 <= k < |ns| && ns[k] == n;
      NormSame(m.name, ns[k].name, cs);
      assert false;
    }
  }

  /** Partners both ways make both sides consistent. */
  lemma {:induction false} PartnersConsistent(ms: seq<Member>, ns: seq<Member>, cs: bool)
    requires Partners(ms, ns, cs)
    ensures Consistent(ms, cs)
  {
    hide Norm, Flat, FindKey;
    assert forall m :: m in ms ==> Partner(m, ns, cs);
    forall m, n | m in ms && n in ms && Norm(m.name, cs) == Norm(n.name, cs)
      ensures Flat(m.item, cs) == Flat(n.item, cs)
    {
      assert Partner(m, ns, cs) && Partner(n, ns, cs);
      FindSame(ns, m.name, n.name, cs);
    }
  }

  lemma {:induction false} FindSame(ns: seq<Member>, a: string, b: string, cs: bool)
    requires Norm(a, cs) == Norm(b, cs)
    ensures FindKey(ns, a, cs) == FindKey(ns, b, cs)
  {
    if ns != [] && !SameKey(a, ns[0].name, cs) {
      FindSame(ns[1..], a, b, cs);
    }
  }

  lemma {:induction false} PartnersExact(ms: seq<Member>, ns: seq<Member>, cs: bool)
    ensures Partners(ms, ns, cs) && Partners(ns, ms, cs)
      <==> FlatMembers(ms, cs).Some? && FlatMembers(ms, cs) == FlatMembers(ns, cs)
  {
    hide Flat, FlatMembers, Partners, Consistent;
    if Partners(ms, ns, cs) && Partners(ns, ms, cs) {
      PartnersConsistent(ms, ns, cs);
      PartnersConsistent(ns, ms, cs);
    }
    FlatMade(ms, cs);
    FlatMade(ns, cs);
    if FlatMembers(ms, cs).Some? && FlatMembers(ns, cs).Some? {
      PartnersKnown(ms, ns, cs);
      PartnersKnown(ns, ms, cs);
      FlatSame(ms, ns, cs);
    }
  }

  /** `cJSON_Compare` on any two trees: equal when members with one key have one value in
      both, and the values are the same. */
  lemma {:induction false} LookupExact(a: Json, b: Json, cs: bool)
    ensures LookupCompare(a, b, cs) <==> Flat(a, cs).Some? && Flat(a, cs) == Flat(b, cs)
    decreases Size(a) + Size(b), 0
  {
    match (a, b) {
      case (String(x), String(y)) => StrCmpZero(x, y);
      case (Array(xs), Array(ys)) => LookupItemsExact(xs, ys, cs);
      case (Object(ms), Object(ns)) =>
        LookupMembersExact(ms, ns, cs);
        LookupMembersExact(ns, ms, cs);
        PartnersExact(ms, ns, cs);
      case _ =>
    }
  }

  lemma {:induction false} LookupItemsExact(xs: seq<Json>, ys: seq<Json>, cs: bool)
    ensures LookupItems(xs, ys, cs) <==> FlatItems(xs, cs).Some? && FlatItems(xs, cs) == FlatItems(ys, cs)
    decreases SizeItems(xs) + SizeItems(ys), 1 + |xs|
  {
    hide LookupCompare, Flat;
    if xs != [] && ys != [] {
      LookupExact(xs[0], ys[0], cs);
      LookupItemsExact(xs[1..], ys[1..], cs);
      if FlatItems(xs, cs).Some? && FlatItems(ys, cs).Some? {
        TailOf(Flat(xs[0], cs).value, FlatItems(xs[1..], cs).value);
        TailOf(Flat(ys[0], cs).value, FlatItems(ys[1..], cs).value);
      }
    }
  }

  lemma {:induction false} LookupMembersExact(ms: seq<Member>, ns: seq<Member>, cs: bool)
    ensures LookupMembers(ms, ns, cs) <==> Partners(ms, ns, cs)
    decreases SizeMembers(ms) + SizeMembers(ns), 1 + |ms|
  {
    hide LookupCompare, Flat, Partner;
    if ms != [] {
      var i := FindKey(ns, ms[0].name, cs);
      if i < |ns| {
        LookupExact(ms[0].item, ns[i].item, cs);
      }
      PartnerIs(ms[0], ns, cs);
      LookupMembersExact(ms[1..], ns, cs);
      PartnersCons(ms, ns, cs);
    }
  }

  lemma {:induction false} PartnerIs(m: Member, ns: seq<Member>, cs: bool)
    ensures Partner(m, ns, cs) <==>
      var i := FindKey(ns, m.name, cs);
      i < |ns| && Flat(m.item, cs).Some? && Flat(m.item, cs) == Flat(ns[i].item, cs)
  {
    hide Flat, FindKey;
  }

  lemma PartnersCons(ms: seq<Member>, ns: seq<Member>, cs: bool)
    requires ms != []
    ensures Partners(ms, ns, cs) <==> Partner(ms[0], ns, cs) && Partners(ms[1..], ns, cs)
  {
    hide Partner;
    assert ms == [ms[0]] + ms[1..];
  }

  // ------------------------------------------------------------ when they agree

  lemma {:induction false} ChosenIs(ms: seq<Member>, k: string, cs: bool)
    ensures forall m :: m in Chosen(ms, k, cs) <==> m in ms && Norm(m.name, cs) == k
  {
    hide Norm;
    if ms != [] {
      ChosenIs(ms[1..], k, cs);
      assert forall m :: m in ms <==> m == ms[0] || m in ms[1..];
    }
  }

  /** A member of the other list with the same key and the same value. */
  ghost predicate Mirrored(m: Member, ns: seq<Member>, cs: bool)
  {
    exists n :: n in ns && Norm(n.name, cs) == Norm(m.name, cs) && Flat(n.item, cs) == Flat(m.item, cs)
  }

  /** Equal with all copies, equal without them. */
  lemma {:induction false} CopiesFlat(a: Json, b: Json, cs: bool)
    requires CopiesOf(a, cs) == CopiesOf(b, cs)
    ensures Flat(a, cs) == Flat(b, cs)
    decreases a, 1
  {
    match (a, b) {
      case (Array(xs), Array(ys)) => CopiesFlatItems(xs, ys, cs);
      case (Object(ms), Object(ns)) =>
        forall m | m in ms
          ensures Mirrored(m, ns, cs)
        {
          CopiesMirror(m, ms, ns, cs, a);
        }
        forall n | n in ns
          ensures Mirrored(n, ms, cs)
        {
          CopiesMirrored(n, ms, ns, cs, a);
        }
        MirrorSame(ms, ns, cs);
      case _ =>
    }
  }

  lemma {:induction false} CopiesFlatItems(xs: seq<Json>, ys: seq<Json>, cs: bool)
    requires CopiesOfItems(xs, cs) == CopiesOfItems(ys, cs)
    ensures FlatItems(xs, cs) == FlatItems(ys, cs)
    decreases xs, 0
  {
    hide CopiesOf, Flat;
    assert |CopiesOfItems(xs, cs)| == |CopiesOfItems(ys, cs)|;
    if xs != [] {
      TailOf(CopiesOf(xs[0], cs), CopiesOfItems(xs[1..], cs));
      TailOf(CopiesOf(ys[0], cs), CopiesOfItems(ys[1..], cs));
      CopiesFlat(xs[0], ys[0], cs);
      CopiesFlatItems(xs[1..], ys[1..], cs);
    }
  }

  /** Copies at the same place among those with one key. */
  lemma {:induction false} SameChosen(ms: seq<Member>, ns: seq<Member>, k: string, p: nat, cs: bool)
    requires CopiesOfMembers(ms, cs) == CopiesOfMembers(ns, cs)
    ensures |Chosen(ms, k, cs)| == |Chosen(ns, k, cs)|
    ensures p < |Chosen(ms, k, cs)| ==>
      CopiesOf(Chosen(ms, k, cs)[p].item, cs) == CopiesOf(Chosen(ns, k, cs)[p].item, cs)
  {
    hide CopiesOf, CopiesOfMembers, Chosen, Listed;
    ListedChosen(ms, k, cs);
    ListedChosen(ns, k, cs);
    var x, y := CopiesOfList(Chosen(ms, k, cs), cs), CopiesOfList(Chosen(ns, k, cs), cs);
    assert x == y;
    assert p < |x| ==> x[p] == y[p];
  }

  lemma {:induction false} CopiesMirror(m: Member, ms: seq<Member>, ns: seq<Member>, cs: bool, owner: Json)
    requires CopiesOfMembers(ms, cs) == CopiesOfMembers(ns, cs) && m in ms && owner == Object(ms)
    ensures Mirrored(m, ns, cs)
    decreases owner, 0
  {
    hide CopiesOf, CopiesOfMembers, Chosen, Flat, Norm;
    var k := Norm(m.name, cs);
    ChosenIs(ms, k, cs);
    ChosenIs(ns, k, cs);
    var p :| 0 <= p < |Chosen(ms, k, cs)| && Chosen(ms, k, cs)[p] == m;
    SameChosen(ms, ns, k, p, cs);
    var n := Chosen(ns, k, cs)[p];
    assert n in Chosen(ns, k, cs);
    CopiesFlat(m.item, n.item, cs);
  }

  lemma {:induction false} CopiesMirrored(n: Member, ms: seq<Member>, ns: seq<Member>, cs: bool, owner: Json)
    requires CopiesOfMembers(ms, cs) == CopiesOfMembers(ns, cs) && n in ns && owner == Object(ms)
    ensures Mirrored(n, ms, cs)
    decreases owner, 0
  {
    hide CopiesOf, CopiesOfMembers, Chosen, Flat, Norm;
    var k := Norm(n.name, cs);
    ChosenIs(ms, k, cs);
    ChosenIs(ns, k, cs);
    var p :| 0 <= p < |Chosen(ns, k, cs)| && Chosen(ns, k, cs)[p] == n;
    SameChosen(ms, ns, k, p, cs);
    var m := Chosen(ms, k, cs)[p];
    assert m in Chosen(ms, k, cs);
    CopiesFlat(m.item, n.item, cs);
  }

  lemma {:induction false} MirrorConsistent(ms: seq<Member>, ns: seq<Member>, cs: bool)
    requires (forall m :: m in ms ==> Mirrored(m, ns, cs)) && Consistent(ns, cs)
    ensures Consistent(ms, cs)
    ensures forall m :: m in ms ==> FlatMembers(ns, cs).Some? && FlatAt(m, FlatMembers(ns, cs).value, cs)
  {
    hide Flat, Norm, FlatMembers;
    FlatMade(ns, cs);
    FlatHolds(ns, cs);
    forall m, n | m in ms && n in ms && Norm(m.name, cs) == Norm(n.name, cs)
      ensures Flat(m.item, cs) == Flat(n.item, cs)
    {
      assert Mirrored(m, ns, cs) && Mirrored(n, ns, cs);
    }
    forall m | m in ms
      ensures Flat(m.item, cs).Some? && FlatAt(m, FlatMembers(ns, cs).value, cs)
    {
      assert Mirrored(m, ns, cs);
    }
  }

  lemma {:induction false} MirrorSame(ms: seq<Member>, ns: seq<Member>, cs: bool)
    requires forall m :: m in ms ==> Mirrored(m, ns, cs)
    requires forall n :: n in ns ==> Mirrored(n, ms, cs)
    ensures FlatMembers(ms, cs) == FlatMembers(ns, cs)
  {
    hide Flat, Norm, FlatMembers, Mirrored, Consistent;
    FlatMade(ms, cs);
    FlatMade(ns, cs);
    if Consistent(ms, cs) {
      MirrorConsistent(ns, ms, cs);
    }
    if Consistent(ns, cs) {
      MirrorConsistent(ms, ns, cs);
      FlatSame(ms, ns, cs);
    }
  }

  /** Members with one key have one value, at every object of the tree. */
  predicate Flattens(j: Json, cs: bool)
  {
    Flat(j, cs).Some?
  }

  /** The comparisons give one answer exactly when equal trees have no two values for one
      key, and trees that differ do not differ in the number of equal copies alone. */
  lemma {:induction false} AgreeExactly(a: Json, b: Json, cs: bool)
    ensures CompareJson(a, b, cs) == LookupCompare(a, b, cs) <==>
      if CopiesOf(a, cs) == CopiesOf(b, cs) then Flattens(a, cs)
      else !Flattens(a, cs) || Flat(a, cs) != Flat(b, cs)
  {
    hide CompareJson, LookupCompare, CopiesOf, Flat;
    CompareExact(a, b, cs);
    LookupExact(a, b, cs);
    if CopiesOf(a, cs) == CopiesOf(b, cs) {
      CopiesFlat(a, b, cs);
    }
  }

  /** A tree and a copy of it: `compare_json` finds them equal, `cJSON_Compare` does so
      exactly when no key has two values in it. */
  lemma {:induction false} CopyAgrees(a: Json, cs: bool)
    ensures CompareJson(a, a, cs)
    ensures LookupCompare(a, a, cs) <==> Flattens(a, cs)
  {
    hide CompareJson, LookupCompare, CopiesOf, Flat;
    CompareExact(a, a, cs);
    LookupExact(a, a, cs);
  }

  /** With distinct keys a tree without invalid items flattens to its value. */
  lemma {:induction false} WellFormedFlattens(j: Json, cs: bool)
    requires WellFormed(j, cs)
    ensures Flat(j, cs) == Some(Denote(j, cs))
    decreases j
  {
    match j
    case Array(items) => WellFormedItems(items, cs);
    case Object(members) => WellFormedMembers(members, cs);
    case _ =>
  }

  lemma {:induction false} WellFormedItems(items: seq<Json>, cs: bool)
    requires forall x :: x in items ==> WellFormed(x, cs)
    ensures FlatItems(items, cs) == Some(DenoteItems(items, cs))
    decreases items
  {
    hide WellFormed, Flat, Denote;
    if items != [] {
      assert items[0] in items && forall x :: x in items[1..] ==> x in items;
      WellFormedFlattens(items[0], cs);
      WellFormedItems(items[1..], cs);
    }
  }

  lemma {:induction false} WellFormedMembers(members: seq<Member>, cs: bool)
    requires Distinct(members, NameOf, cs) && forall m :: m in members ==> WellFormed(m.item, cs)
    ensures FlatMembers(members, cs) == Some(DenoteMembers(members, cs))
    decreases members
  {
    hide WellFormed, Flat, Denote, Norm, SameKey;
    if members != [] {
      assert members[0] in members && forall m :: m in members[1..] ==> m in members;
      WellFormedFlattens(members[0].item, cs);
      DistinctTail(members, cs);
      WellFormedMembers(members[1..], cs);
      NameAbsent(members, cs);
    }
  }

  lemma {:induction false} NameAbsent(members: seq<Member>, cs: bool)
    requires Distinct(members, NameOf, cs) && members != []
    ensures Norm(members[0].name, cs) !in DenoteMembers(members[1..], cs)
  {
    hide Norm, SameKey, Denote;
    forall i | 0 < i < |members|
      ensures Norm(members[i].name, cs) != Norm(members[0].name, cs)
    {
      assert !SameKey(NameOf(members[0]), NameOf(members[i]), cs);
      NormSame(members[0].name, members[i].name, cs);
    }
    if Norm(members[0].name, cs) in DenoteMembers(members[1..], cs) {
      DenoteKey(members[1..], Norm(members[0].name, cs), cs);
      assert false;
    }
  }
}
