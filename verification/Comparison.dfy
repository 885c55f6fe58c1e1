/** The two deep comparisons: `compare_json` sorts both objects and walks them in
    lockstep, `cJSON_Compare` looks every member of each up in the other. */
module Comparison {
  import opened Text
  import opened Sort
  import opened Json

  // ------------------------------------------------------------ compare_json

  function CompareJson(a: Json, b: Json, cs: bool): bool
    decreases a, 1, 0
  {
    match (a, b)
    case (Invalid, Invalid) => true
    case (Null, Null) => true
    case (Bool(x), Bool(y)) => x == y
    case (Number(x), Number(y)) => x == y
    case (String(x), String(y)) => StrCmp(x, y) == 0
    case (Array(xs), Array(ys)) => CompareItems(xs, ys, cs)
    case (Object(ms), Object(ns)) =>
      SortKeepsBelow(ms, cs, a);
      CompareMembers(SortList(ms, NameOf, cs), SortList(ns, NameOf, cs), cs, a)
    case _ => false
  }

  function CompareItems(xs: seq<Json>, ys: seq<Json>, cs: bool): bool
    decreases xs, 0, 0
  {
    if xs == [] || ys == [] then xs == [] && ys == []
    else CompareJson(xs[0], ys[0], cs) && CompareItems(xs[1..], ys[1..], cs)
  }

  function CompareMembers(ms: seq<Member>, ns: seq<Member>, cs: bool, ghost owner: Json): bool
    requires forall m :: m in ms ==> m.item < owner
    decreases owner, 0, |ms|
  {
    if ms == [] || ns == [] then ms == [] && ns == []
    else
      && Compare(ms[0].name, ns[0].name, cs) == 0
      && CompareJson(ms[0].item, ns[0].item, cs)
      && CompareMembers(ms[1..], ns[1..], cs, owner)
  }

  lemma {:induction false} SortKeepsBelow(ms: seq<Member>, cs: bool, owner: Json)
    requires owner.Object? && owner.members == ms
    ensures forall m :: m in SortList(ms, NameOf, cs) ==> m.item < owner
  {
    forall m | m in SortList(ms, NameOf, cs)
      ensures m.item < owner
    {
      SortMembers(ms, NameOf, cs, m);
    }
  }

  // ----------------------------------------------------------- cJSON_Compare

  /** Termination measure: the lookups swap the two sides. */
  function Size(j: Json): nat
    decreases j
  {
    match j
    case Array(items) => 1 + SizeItems(items)
    case Object(members) => 1 + SizeMembers(members)
    case _ => 1
  }

  function SizeItems(items: seq<Json>): (n: nat)
    ensures forall i :: 0 <= i < |items| ==> Size(items[i]) <= n
    decreases items
  {
    if items == [] then 0 else Size(items[0]) + SizeItems(items[1..])
  }

  function SizeMembers(members: seq<Member>): (n: nat)
    ensures forall i :: 0 <= i < |members| ==> Size(members[i].item) <= n
    decreases members
  {
    if members == [] then 0 else Size(members[0].item) + SizeMembers(members[1..])
  }

  function LookupCompare(a: Json, b: Json, cs: bool): bool
    decreases Size(a) + Size(b), 0
  {
    match (a, b)
    case (Null, Null) => true
    case (Bool(x), Bool(y)) => x == y
    case (Number(x), Number(y)) => x == y
    case (String(x), String(y)) => StrCmp(x, y) == 0
    case (Array(xs), Array(ys)) => LookupItems(xs, ys, cs)
    case (Object(ms), Object(ns)) => LookupMembers(ms, ns, cs) && LookupMembers(ns, ms, cs)
    case _ => false
  }

  function LookupItems(xs: seq<Json>, ys: seq<Json>, cs: bool): bool
    decreases SizeItems(xs) + SizeItems(ys), 1 + |xs|
  {
    if xs == [] || ys == [] then xs == [] && ys == []
    else LookupCompare(xs[0], ys[0], cs) && LookupItems(xs[1..], ys[1..], cs)
  }

  /** One of the two loops: every member of `ms` has an equal partner in `ns`. */
  function LookupMembers(ms: seq<Member>, ns: seq<Member>, cs: bool): bool
    decreases SizeMembers(ms) + SizeMembers(ns), 1 + |ms|
  {
    if ms == [] then true
    else
      var i := FindKey(ns, ms[0].name, cs);
      i < |ns| && LookupCompare(ms[0].item, ns[i].item, cs) && LookupMembers(ms[1..], ns, cs)
  }

  // ------------------------------------------------------------ both decide equality

  ghost predicate Ascends(ms: seq<Member>, cs: bool)
  {
    forall i, j :: 0 <= i < j < |ms| ==> Compare(NameOf(ms[i]), NameOf(ms[j]), cs) < 0
  }

  lemma AscendsTail(ms: seq<Member>, cs: bool)
    requires Ascends(ms, cs) && ms != []
    ensures Ascends(ms[1..], cs)
  {
    forall i, j | 0 <= i < j < |ms[1..]|
      ensures Compare(NameOf(ms[1..][i]), NameOf(ms[1..][j]), cs) < 0
    {
      assert ms[1..][i] == ms[i + 1] && ms[1..][j] == ms[j + 1];
    }
  }

  /** A key below the first one of an ascending list is not in its map. */
  lemma {:induction false} BelowAbsent(key: string, ms: seq<Member>, cs: bool)
    requires Ascends(ms, cs)
    requires ms != [] ==> Compare(key, ms[0].name, cs) < 0
    ensures Norm(key, cs) !in DenoteMembers(ms, cs)
  {
    if Norm(key, cs) in DenoteMembers(ms, cs) {
      DenoteKey(ms, Norm(key, cs), cs);
      var i :| 0 <= i < |ms| && Norm(ms[i].name, cs) == Norm(key, cs);
      CompareZero(key, ms[i].name, cs);
      if i > 0 {
        assert Compare(NameOf(ms[0]), NameOf(ms[i]), cs) < 0;
        CompareTransitive(key, ms[0].name, ms[i].name, cs);
      }
      assert false;
    }
  }

  lemma {:induction false} HeadAbsent(ms: seq<Member>, cs: bool)
    requires Ascends(ms, cs) && ms != []
    ensures Ascends(ms[1..], cs) && Norm(ms[0].name, cs) !in DenoteMembers(ms[1..], cs)
  {
    AscendsTail(ms, cs);
    if |ms| > 1 {
      assert Compare(NameOf(ms[0]), NameOf(ms[1]), cs) < 0;
    }
    BelowAbsent(ms[0].name, ms[1..], cs);
  }

  /** `compare_json` decides equality of the denoted values, for either order. */
  lemma {:induction false} CompareJsonDecides(a: Json, b: Json, cs: bool)
    requires WellFormed(a, cs) && WellFormed(b, cs)
    ensures CompareJson(a, b, cs) <==> Denote(a, cs) == Denote(b, cs)
    decreases a, 1, 0
  {
    match (a, b) {
      case (String(x), String(y)) => StrCmpZero(x, y);
      case (Array(xs), Array(ys)) => CompareItemsDecides(xs, ys, cs);
      case (Object(ms), Object(ns)) =>
        SortKeepsBelow(ms, cs, a);
        SortDistinct(ms, NameOf, cs);
        SortDistinct(ns, NameOf, cs);
        SortKeepsDistinct(ms, cs);
        SortKeepsDistinct(ns, cs);
        CompareMembersDecides(SortList(ms, NameOf, cs), SortList(ns, NameOf, cs), cs, a);
        DenoteSorted(ms, cs, cs);
        DenoteSorted(ns, cs, cs);
      case _ =>
    }
  }

  lemma {:induction false} SortKeepsDistinct(ms: seq<Member>, cs: bool)
    requires WellFormed(Object(ms), cs)
    ensures forall m :: m in SortList(ms, NameOf, cs) ==> WellFormed(m.item, cs)
  {
    forall m | m in SortList(ms, NameOf, cs)
      ensures WellFormed(m.item, cs)
    {
      SortMembers(ms, NameOf, cs, m);
    }
  }

  lemma {:induction false} CompareItemsDecides(xs: seq<Json>, ys: seq<Json>, cs: bool)
    requires forall i :: 0 <= i < |xs| ==> WellFormed(xs[i], cs)
    requires forall i :: 0 <= i < |ys| ==> WellFormed(ys[i], cs)
    ensures CompareItems(xs, ys, cs) <==> DenoteItems(xs, cs) == DenoteItems(ys, cs)
    decreases xs, 0, 0
  {
    var p, q := DenoteItems(xs, cs), DenoteItems(ys, cs);
    if xs != [] && ys != [] {
      CompareJsonDecides(xs[0], ys[0], cs);
      CompareItemsDecides(xs[1..], ys[1..], cs);
      assert p == [p[0]] + DenoteItems(xs[1..], cs) && q == [q[0]] + DenoteItems(ys[1..], cs);
      assert p[1..] == DenoteItems(xs[1..], cs) && q[1..] == DenoteItems(ys[1..], cs);
    }
  }

  lemma {:induction false} CompareMembersDecides(ms: seq<Member>, ns: seq<Member>, cs: bool, owner: Json)
    requires forall m :: m in ms ==> m.item < owner && WellFormed(m.item, cs)
    requires forall m :: m in ns ==> WellFormed(m.item, cs)
    requires Ascends(ms, cs) && Ascends(ns, cs)
    ensures CompareMembers(ms, ns, cs, owner) <==> DenoteMembers(ms, cs) == DenoteMembers(ns, cs)
    decreases owner, 0, |ms|
  {
    var p, q := DenoteMembers(ms, cs), DenoteMembers(ns, cs);
    if ms == [] || ns == [] {
      if ms != [] {
        assert Norm(ms[0].name, cs) in p;
      }
      if ns != [] {
        assert Norm(ns[0].name, cs) in q;
      }
    } else {
      var k, l := Norm(ms[0].name, cs), Norm(ns[0].name, cs);
      assert k in p && l in q;
      CompareZero(ms[0].name, ns[0].name, cs);
      if Compare(ms[0].name, ns[0].name, cs) == 0 {
        CompareJsonDecides(ms[0].item, ns[0].item, cs);
        CompareMembersDecides(ms[1..], ns[1..], cs, owner);
        HeadAbsent(ms, cs);
        HeadAbsent(ns, cs);
        UpdateFresh(DenoteMembers(ms[1..], cs), DenoteMembers(ns[1..], cs), k,
                    Denote(ms[0].item, cs), Denote(ns[0].item, cs));
      } else if Compare(ms[0].name, ns[0].name, cs) < 0 {
        BelowAbsent(ms[0].name, ns, cs);
      } else {
        CompareFlip(ms[0].name, ns[0].name, cs);
        BelowAbsent(ns[0].name, ms, cs);
      }
    }
  }

  lemma UpdateFresh(m: map<string, Value>, n: map<string, Value>, k: string, v: Value, w: Value)
    requires k !in m && k !in n
    ensures m[k := v] == n[k := w] <==> m == n && v == w
  {
    if m[k := v] == n[k := w] {
      assert m == m[k := v] - {k} && n == n[k := w] - {k};
      assert m[k := v][k] == v && n[k := w][k] == w;
    }
  }

  /** `cJSON_Compare` decides the same equality. */
  lemma {:induction false} LookupCompareDecides(a: Json, b: Json, cs: bool)
    requires WellFormed(a, cs) && WellFormed(b, cs)
    ensures LookupCompare(a, b, cs) <==> Denote(a, cs) == Denote(b, cs)
    decreases Size(a) + Size(b), 0
  {
    match (a, b) {
      case (String(x), String(y)) => StrCmpZero(x, y);
      case (Array(xs), Array(ys)) => LookupItemsDecides(xs, ys, cs);
      case (Object(ms), Object(ns)) =>
        LookupMembersDecides(ms, ns, cs);
        LookupMembersDecides(ns, ms, cs);
        SubmapsBothWays(ms, ns, cs);
      case _ =>
    }
  }

  lemma {:induction false} LookupItemsDecides(xs: seq<Json>, ys: seq<Json>, cs: bool)
    requires forall i :: 0 <= i < |xs| ==> WellFormed(xs[i], cs)
    requires forall i :: 0 <= i < |ys| ==> WellFormed(ys[i], cs)
    ensures LookupItems(xs, ys, cs) <==> DenoteItems(xs, cs) == DenoteItems(ys, cs)
    decreases SizeItems(xs) + SizeItems(ys), 1 + |xs|
  {
    var p, q := DenoteItems(xs, cs), DenoteItems(ys, cs);
    if xs != [] && ys != [] {
      LookupCompareDecides(xs[0], ys[0], cs);
      LookupItemsDecides(xs[1..], ys[1..], cs);
      assert p[1..] == DenoteItems(xs[1..], cs) && q[1..] == DenoteItems(ys[1..], cs);
      assert p == [p[0]] + p[1..] && q == [q[0]] + q[1..];
    }
  }

  /** Every member of `ms` agrees with the map of `ns`. */
  ghost predicate Agrees(ms: seq<Member>, ns: seq<Member>, cs: bool)
  {
    forall m :: m in ms ==>
      Norm(m.name, cs) in DenoteMembers(ns, cs)
      && DenoteMembers(ns, cs)[Norm(m.name, cs)] == Denote(m.item, cs)
  }

  predicate AgreesAt(m: Member, ns: seq<Member>, cs: bool)
  {
    Norm(m.name, cs) in DenoteMembers(ns, cs) && DenoteMembers(ns, cs)[Norm(m.name, cs)] == Denote(m.item, cs)
  }

  lemma AgreesCons(ms: seq<Member>, ns: seq<Member>, cs: bool)
    requires ms != []
    ensures Agrees(ms, ns, cs) <==> AgreesAt(ms[0], ns, cs) && Agrees(ms[1..], ns, cs)
  {
    hide DenoteMembers, Denote, Norm;
    assert ms == [ms[0]] + ms[1..];
  }

  lemma {:induction false} LookupMembersDecides(ms: seq<Member>, ns: seq<Member>, cs: bool)
    requires forall i :: 0 <= i < |ms| ==> WellFormed(ms[i].item, cs)
    requires forall i :: 0 <= i < |ns| ==> WellFormed(ns[i].item, cs)
    ensures LookupMembers(ms, ns, cs) <==> Agrees(ms, ns, cs)
    decreases SizeMembers(ms) + SizeMembers(ns), 1 + |ms|
  {
    if ms != [] {
      var i := FindKey(ns, ms[0].name, cs);
      DenoteFind(ns, ms[0].name, cs);
      if i < |ns| {
        LookupCompareDecides(ms[0].item, ns[i].item, cs);
      }
      LookupMembersDecides(ms[1..], ns, cs);
      AgreesCons(ms, ns, cs);
    }
  }

  lemma {:induction false} SubmapsBothWays(ms: seq<Member>, ns: seq<Member>, cs: bool)
    requires Distinct(ms, NameOf, cs) && Distinct(ns, NameOf, cs)
    ensures Agrees(ms, ns, cs) && Agrees(ns, ms, cs)
      <==> DenoteMembers(ms, cs) == DenoteMembers(ns, cs)
  {
    var p, q := DenoteMembers(ms, cs), DenoteMembers(ns, cs);
    if p == q {
      AgreesWithItself(ms, cs);
      AgreesWithItself(ns, cs);
    }
    if Agrees(ms, ns, cs) && Agrees(ns, ms, cs) {
      forall k | k in p
        ensures k in q && q[k] == p[k]
      {
        KeyAgrees(ms, ns, k, cs);
      }
      forall k | k in q
        ensures k in p
      {
        KeyAgrees(ns, ms, k, cs);
      }
      assert p == q;
    }
  }

  lemma AgreesWithItself(ms: seq<Member>, cs: bool)
    requires Distinct(ms, NameOf, cs)
    ensures Agrees(ms, ms, cs)
  {
    forall m | m in ms
      ensures Norm(m.name, cs) in DenoteMembers(ms, cs)
        && DenoteMembers(ms, cs)[Norm(m.name, cs)] == Denote(m.item, cs)
    {
      var i :| 0 <= i < |ms| && ms[i] == m;
      DenoteAt(ms, i, cs);
    }
  }

  lemma {:induction false} KeyAgrees(ms: seq<Member>, ns: seq<Member>, k: string, cs: bool)
    requires Distinct(ms, NameOf, cs) && Agrees(ms, ns, cs) && k in DenoteMembers(ms, cs)
    ensures k in DenoteMembers(ns, cs) && DenoteMembers(ns, cs)[k] == DenoteMembers(ms, cs)[k]
  {
    DenoteKey(ms, k, cs);
    var i :| 0 <= i < |ms| && Norm(ms[i].name, cs) == k;
    DenoteAt(ms, i, cs);
    assert ms[i] in ms;
  }

  /** The fast comparison agrees with the simple one. */
  lemma {:induction false} ComparisonsAgree(a: Json, b: Json, cs: bool)
    requires WellFormed(a, cs) && WellFormed(b, cs)
    ensures CompareJson(a, b, cs) == LookupCompare(a, b, cs)
    ensures CompareJson(a, b, cs) <==> Denote(a, cs) == Denote(b, cs)
  {
    CompareJsonDecides(a, b, cs);
    LookupCompareDecides(a, b, cs);
  }

  /** Without distinct keys the two disagree: the sort takes ties from its second
      half, so two copies of one list are still walked alike, but the lookup
      compares the second member with the first. */
  lemma DuplicateKeysDisagree()
    ensures var a := Object([Member("k", Number(1)), Member("k", Number(2))]);
      CompareJson(a, a, true) && !LookupCompare(a, a, true)
  {
    var m1, m2 := Member("k", Number(1)), Member("k", Number(2));
    var ms := [m1, m2];
    var a := Object(ms);
    assert SortList(ms, NameOf, true) == [m2, m1] by {
      StrCmpZero("k", "k");
      assert !Ascending(ms, NameOf, true) by {
        assert Compare(NameOf(ms[0]), NameOf(ms[0 + 1]), true) == 0;
      }
      assert ms[..1] == [m1] && ms[1..] == [m2];
      assert SortList([m1], NameOf, true) == [m1] && SortList([m2], NameOf, true) == [m2];
      assert Merge([m1], [m2], NameOf, true) == [m2] + Merge([m1], [], NameOf, true);
    }
    SortKeepsBelow(ms, true, a);
    assert CompareMembers([m2, m1], [m2, m1], true, a) by {
      StrCmpZero("k", "k");
      assert [m2, m1][1..] == [m1] && [m1][1..] == [];
      assert CompareMembers([], [], true, a);
      assert CompareMembers([m1], [m1], true, a);
    }
    assert CompareJson(a, a, true);
    assert ms[1..] == [m2];
    assert FindKey(ms, "k", true) == 0;
    assert !LookupCompare(Number(2), Number(1), true);
    assert !LookupMembers([m2], ms, true);
  }
}
