/** What `compare_json` leaves behind: it sorts the child lists it walks, in place, as
    far as it gets. */
module CompareLeaves {
  import opened Text
  import opened Sort
  import opened Json
  import opened Comparison
  import opened Duplicate

  /** `a` after `compare_json(a, b)`; what is left of `b` is `AfterCompare(b, a)`. */
  function AfterCompare(a: Json, b: Json, cs: bool): Json
    decreases a, 1, 0
  {
    match (a, b)
    case (Array(xs), Array(ys)) => Array(AfterItems(xs, ys, cs))
    case (Object(ms), Object(ns)) =>
      SortKeepsBelow(ms, cs, a);
      Object(AfterMembers(SortList(ms, NameOf, cs), SortList(ns, NameOf, cs), cs, a))
    case _ => a
  }

  function AfterItems(xs: seq<Json>, ys: seq<Json>, cs: bool): (r: seq<Json>)
    ensures |r| == |xs|
    decreases xs, 0, 0
  {
    if xs == [] || ys == [] then xs
    else
      [AfterCompare(xs[0], ys[0], cs)]
      + if CompareJson(xs[0], ys[0], cs) then AfterItems(xs[1..], ys[1..], cs) else xs[1..]
  }

  /** The walk over two sorted lists, up to the first difference. */
  function AfterMembers(ms: seq<Member>, ns: seq<Member>, cs: bool, ghost owner: Json): (r: seq<Member>)
    requires forall m :: m in ms ==> m.item < owner
    ensures |r| == |ms| && forall i :: 0 <= i < |ms| ==> r[i].name == ms[i].name
    decreases owner, 0, |ms|
  {
    if ms == [] || ns == [] || Compare(ms[0].name, ns[0].name, cs) != 0 then ms
    else
      [Member(ms[0].name, AfterCompare(ms[0].item, ns[0].item, cs))]
      + if CompareJson(ms[0].item, ns[0].item, cs) then AfterMembers(ms[1..], ns[1..], cs, owner) else ms[1..]
  }

  // ------------------------------------------------------------ both sides alike

  lemma {:induction false} CompareSymmetric(a: Json, b: Json, cs: bool)
    ensures CompareJson(a, b, cs) == CompareJson(b, a, cs)
    decreases a, 1, 0
  {
    match (a, b) {
      case (String(x), String(y)) => StrCmpFlip(x, y);
      case (Array(xs), Array(ys)) => CompareItemsSymmetric(xs, ys, cs);
      case (Object(ms), Object(ns)) =>
        SortKeepsBelow(ms, cs, a);
        SortKeepsBelow(ns, cs, b);
        CompareMembersSymmetric(SortList(ms, NameOf, cs), SortList(ns, NameOf, cs), cs, a, b);
      case _ =>
    }
  }

  lemma {:induction false} CompareItemsSymmetric(xs: seq<Json>, ys: seq<Json>, cs: bool)
    ensures CompareItems(xs, ys, cs) == CompareItems(ys, xs, cs)
    decreases xs, 0, 0
  {
    if xs != [] && ys != [] {
      CompareSymmetric(xs[0], ys[0], cs);
      CompareItemsSymmetric(xs[1..], ys[1..], cs);
    }
  }

  lemma {:induction false} CompareMembersSymmetric(ms: seq<Member>, ns: seq<Member>, cs: bool, a: Json, b: Json)
    requires forall m :: m in ms ==> m.item < a
    requires forall n :: n in ns ==> n.item < b
    ensures CompareMembers(ms, ns, cs, a) == CompareMembers(ns, ms, cs, b)
    decreases a, 0, |ms|
  {
    hide Compare;
    if ms != [] && ns != [] {
      CompareFlip(ms[0].name, ns[0].name, cs);
      CompareSymmetric(ms[0].item, ns[0].item, cs);
      CompareMembersSymmetric(ms[1..], ns[1..], cs, a, b);
    }
  }

  // ------------------------------------------------------------- what is kept

  lemma {:induction false} MergeSize(xs: seq<Member>, ys: seq<Member>, cs: bool)
    ensures SizeMembers(Merge(xs, ys, NameOf, cs)) == SizeMembers(xs) + SizeMembers(ys)
    ensures HeightMembers(Merge(xs, ys, NameOf, cs)) == Max(HeightMembers(xs), HeightMembers(ys))
  {
    hide Compare;
    if xs != [] && ys != [] {
      if Compare(NameOf(xs[0]), NameOf(ys[0]), cs) < 0 {
        MergeSize(xs[1..], ys, cs);
      } else {
        MergeSize(xs, ys[1..], cs);
      }
    }
  }

  lemma {:induction false} ConcatSize(xs: seq<Member>, ys: seq<Member>)
    ensures SizeMembers(xs + ys) == SizeMembers(xs) + SizeMembers(ys)
    ensures HeightMembers(xs + ys) == Max(HeightMembers(xs), HeightMembers(ys))
  {
    if xs == [] {
      NoPrefix(ys);
    } else {
      TailOfConcat(xs, ys);
      ConcatSize(xs[1..], ys);
    }
  }

  /** Sorting changes neither the size nor the height. */
  lemma {:induction false} SortedSize(ms: seq<Member>, cs: bool)
    ensures SizeMembers(SortList(ms, NameOf, cs)) == SizeMembers(ms)
    ensures HeightMembers(SortList(ms, NameOf, cs)) == HeightMembers(ms)
    decreases |ms|
  {
    hide Ascending, SizeMembers, HeightMembers, Merge;
    if |ms| > 1 && !Ascending(ms, NameOf, cs) {
      var left, right := ms[..(|ms| + 1) / 2], ms[(|ms| + 1) / 2..];
      SortedSize(left, cs);
      SortedSize(right, cs);
      MergeSize(SortList(left, NameOf, cs), SortList(right, NameOf, cs), cs);
      ConcatSize(left, right);
      assert ms == left + right;
    }
  }

  lemma {:induction false} AfterSize(a: Json, b: Json, cs: bool)
    ensures Size(AfterCompare(a, b, cs)) == Size(a) && Height(AfterCompare(a, b, cs)) == Height(a)
    decreases a, 1, 0
  {
    match (a, b) {
      case (Array(xs), Array(ys)) => AfterItemsSize(xs, ys, cs);
      case (Object(ms), Object(ns)) =>
        SortKeepsBelow(ms, cs, a);
        SortedSize(ms, cs);
        AfterMembersSize(SortList(ms, NameOf, cs), SortList(ns, NameOf, cs), cs, a);
      case _ =>
    }
  }

  lemma {:induction false} AfterItemsSize(xs: seq<Json>, ys: seq<Json>, cs: bool)
    ensures SizeItems(AfterItems(xs, ys, cs)) == SizeItems(xs)
    ensures HeightItems(AfterItems(xs, ys, cs)) == HeightItems(xs)
    decreases xs, 0, 0
  {
    hide CompareJson;
    if xs != [] && ys != [] {
      AfterSize(xs[0], ys[0], cs);
      AfterItemsSize(xs[1..], ys[1..], cs);
    }
  }

  lemma {:induction false} AfterMembersSize(ms: seq<Member>, ns: seq<Member>, cs: bool, owner: Json)
    requires forall m :: m in ms ==> m.item < owner
    ensures SizeMembers(AfterMembers(ms, ns, cs, owner)) == SizeMembers(ms)
    ensures HeightMembers(AfterMembers(ms, ns, cs, owner)) == HeightMembers(ms)
    decreases owner, 0, |ms|
  {
    hide CompareJson, Compare;
    if ms != [] && ns != [] {
      AfterSize(ms[0].item, ns[0].item, cs);
      AfterMembersSize(ms[1..], ns[1..], cs, owner);
    }
  }

  /** The value stays, with or without case, and keys stay distinct. */
  lemma {:induction false} AfterDenotes(a: Json, b: Json, cs: bool, d: bool)
    requires WellFormed(a, d)
    ensures WellFormed(AfterCompare(a, b, cs), d) && Denote(AfterCompare(a, b, cs), d) == Denote(a, d)
    decreases a, 2, 0
  {
    match (a, b) {
      case (Array(xs), Array(ys)) => AfterItemsDenote(xs, ys, cs, d);
      case (Object(ms), Object(ns)) => AfterObjectDenotes(a, ms, ns, cs, d);
      case _ =>
    }
  }

  lemma {:induction false} AfterObjectDenotes(a: Json, ms: seq<Member>, ns: seq<Member>, cs: bool, d: bool)
    requires a == Object(ms) && WellFormed(a, d)
    ensures var r := AfterCompare(a, Object(ns), cs); WellFormed(r, d) && Denote(r, d) == Denote(a, d)
    decreases a, 1, 0
  {
    hide SortList, DenoteMembers, SameKey, AfterMembers, Distinct;
    SortKeepsBelow(ms, cs, a);
    SortedDenotes(ms, cs, d);
    AfterMembersDenote(SortList(ms, NameOf, cs), SortList(ns, NameOf, cs), cs, a, d);
  }

  lemma {:induction false} SortedDenotes(ms: seq<Member>, cs: bool, d: bool)
    requires WellFormed(Object(ms), d)
    ensures var sorted := SortList(ms, NameOf, cs);
      && Distinct(sorted, NameOf, d) && DenoteMembers(sorted, d) == DenoteMembers(ms, d)
      && forall m :: m in sorted ==> WellFormed(m.item, d)
  {
    hide SortList, DenoteMembers, SameKey;
    SortPermutes(ms, NameOf, cs);
    DistinctByMultiset(ms, SortList(ms, NameOf, cs), NameOf, d);
    DenoteSorted(ms, d, cs);
    forall m | m in SortList(ms, NameOf, cs)
      ensures WellFormed(m.item, d)
    {
      SortMembers(ms, NameOf, cs, m);
    }
  }

  lemma {:induction false} AfterItemsDenote(xs: seq<Json>, ys: seq<Json>, cs: bool, d: bool)
    requires forall x :: x in xs ==> WellFormed(x, d)
    ensures forall x :: x in AfterItems(xs, ys, cs) ==> WellFormed(x, d)
    ensures DenoteItems(AfterItems(xs, ys, cs), d) == DenoteItems(xs, d)
    decreases xs, 0, 0
  {
    hide CompareJson, WellFormed, Denote;
    if xs != [] && ys != [] {
      AfterDenotes(xs[0], ys[0], cs, d);
      AfterItemsDenote(xs[1..], ys[1..], cs, d);
      var r := if CompareJson(xs[0], ys[0], cs) then AfterItems(xs[1..], ys[1..], cs) else xs[1..];
      TailOfConcat([AfterCompare(xs[0], ys[0], cs)], r);
      NoPrefix(r);
      assert forall x :: x in xs[1..] ==> x in xs;
    }
  }

  lemma {:induction false} AfterMembersDenote(ms: seq<Member>, ns: seq<Member>, cs: bool, owner: Json, d: bool)
    requires forall m :: m in ms ==> m.item < owner && WellFormed(m.item, d)
    requires Distinct(ms, NameOf, d)
    ensures forall m :: m in AfterMembers(ms, ns, cs, owner) ==> WellFormed(m.item, d)
    ensures Distinct(AfterMembers(ms, ns, cs, owner), NameOf, d)
    ensures DenoteMembers(AfterMembers(ms, ns, cs, owner), d) == DenoteMembers(ms, d)
    decreases owner, 0, |ms|
  {
    hide CompareJson, Compare, WellFormed, Denote, SameKey, Distinct, DenoteMembers;
    var after := AfterMembers(ms, ns, cs, owner);
    DistinctNames(ms, after, d);
    if ms != [] && ns != [] && Compare(ms[0].name, ns[0].name, cs) == 0 {
      DistinctTail(ms, d);
      InTail(ms);
      AfterDenotes(ms[0].item, ns[0].item, cs, d);
      AfterMembersDenote(ms[1..], ns[1..], cs, owner, d);
      var r := if CompareJson(ms[0].item, ns[0].item, cs) then AfterMembers(ms[1..], ns[1..], cs, owner) else ms[1..];
      HeadDenotes(ms, Member(ms[0].name, AfterCompare(ms[0].item, ns[0].item, cs)), r, d);
    }
  }

  lemma InTail<T>(xs: seq<T>)
    requires xs != []
    ensures xs[0] in xs && forall x :: x in xs[1..] ==> x in xs
  {
  }

  lemma {:induction false} HeadDenotes(ms: seq<Member>, m: Member, r: seq<Member>, d: bool)
    requires ms != [] && m.name == ms[0].name && Denote(m.item, d) == Denote(ms[0].item, d) && WellFormed(m.item, d)
    requires DenoteMembers(r, d) == DenoteMembers(ms[1..], d) && forall x :: x in r ==> WellFormed(x.item, d)
    ensures DenoteMembers([m] + r, d) == DenoteMembers(ms, d)
    ensures forall x :: x in [m] + r ==> WellFormed(x.item, d)
  {
    hide WellFormed, Denote;
    TailOfConcat([m], r);
    NoPrefix(r);
  }
}
