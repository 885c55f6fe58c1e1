/** `merge_patch` computes the function of RFC 7396, `generate_merge_patch` the
    patch between two values, and both together restore `to` exactly when the
    change sets no null. */
module MergeRoundTrip {
  import opened Text
  import opened Sort
  import opened Json
  import opened Comparison
  import opened CompareLeaves
  import opened Duplicate
  import opened MergePatch
  import opened MergeValues

  // ------------------------------------------------------------ merge_patch

  function DenoteOption(j: Option<Json>, cs: bool): Option<Value>
  {
    if j.None? then None else Some(Denote(j.value, cs))
  }

  /** The parts of a patch that are duplicated are not nested too deeply. */
  predicate Copies(patch: Json)
    decreases patch
  {
    match patch
    case Object(members) => forall i :: 0 <= i < |members| ==> Copies(members[i].item)
    case _ => Height(patch) <= CIRCULAR_LIMIT
  }

  predicate WellFormedList(ms: seq<Member>, cs: bool)
  {
    Distinct(ms, NameOf, cs) && forall m :: m in ms ==> WellFormed(m.item, cs)
  }

  lemma {:induction false} WellFormedObject(ms: seq<Member>, cs: bool)
    ensures WellFormed(Object(ms), cs) <==> WellFormedList(ms, cs)
  {
    if WellFormedList(ms, cs) {
      forall i | 0 <= i < |ms|
        ensures WellFormed(ms[i].item, cs)
      {
        assert ms[i] in ms;
      }
    }
  }

  predicate CopiesAll(ps: seq<Member>)
  {
    forall p :: p in ps ==> Copies(p.item)
  }

  lemma CopiesObject(ps: seq<Member>)
    ensures Copies(Object(ps)) <==> CopiesAll(ps)
  {
    if CopiesAll(ps) {
      forall i | 0 <= i < |ps|
        ensures Copies(ps[i].item)
      {
        assert ps[i] in ps;
      }
    }
  }

  /** Merging fails exactly when a part of the patch cannot be duplicated;
      otherwise it gives the value the standard prescribes. */
  lemma {:induction false} MergeIsRfc(target: Option<Json>, patch: Json, cs: bool)
    requires target.Some? ==> WellFormed(target.value, cs)
    requires WellFormed(patch, cs)
    ensures var r := ApplyMerge(target, patch, cs);
      && (r.Some? <==> Copies(patch))
      && (r.Some? ==>
            WellFormed(r.value, cs) && Denote(r.value, cs) == Rfc(DenoteOption(target, cs), Denote(patch, cs)))
    decreases patch, 0
  {
    if !patch.Object? {
      DuplicateExact(patch, 0);
    } else {
      hide RfcFields, MergeMembers, WellFormed, WellFormedList, Copies, CopiesAll, DenoteMembers;
      var start := if target.Some? && target.value.Object? then target.value.members else [];
      WellFormedObject(patch.members, cs);
      WellFormedObject(start, cs);
      EmptyList(cs);
      CopiesObject(patch.members);
      MergeMembersIsRfc(start, patch.members, cs);
      var merged := MergeMembers(start, patch.members, cs);
      if merged.Some? {
        WellFormedObject(merged.value, cs);
      }
    }
  }

  lemma {:induction false} EmptyList(cs: bool)
    ensures WellFormedList([], cs) && DenoteMembers([], cs) == map[]
  {
  }

  lemma {:induction false} MergeMembersIsRfc(ms: seq<Member>, ps: seq<Member>, cs: bool)
    requires WellFormedList(ms, cs) && WellFormedList(ps, cs)
    ensures var r := MergeMembers(ms, ps, cs);
      && (r.Some? <==> CopiesAll(ps))
      && (r.Some? ==>
            && WellFormedList(r.value, cs)
            && DenoteMembers(r.value, cs) == RfcFields(DenoteMembers(ms, cs), VObject(DenoteMembers(ps, cs))))
    decreases ps, 1
  {
    var fields := DenoteMembers(ms, cs);
    if ps == [] {
      assert RfcFields(fields, VObject(map[])) == fields;
    } else {
      var p, k, v := ps[0], Norm(ps[0].name, cs), Denote(ps[0].item, cs);
      var kept := Kept(ms, p.name, cs);
      ListTail(ps, cs);
      KeptMembers(ms, p.name, cs);
      RfcFieldsStep(fields, k, v, DenoteMembers(ps[1..], cs));
      CopiesTail(ps);
      if p.item.Null? {
        MergeMembersIsRfc(kept, ps[1..], cs);
      } else {
        ReplacedIsRfc(ms, p, cs);
        hide WellFormedList, RfcFields, Rfc, CopiesAll, DenoteMembers, Denote, Copies, FindKey, Kept;
        var replacement := ApplyMerge(OldItem(ms, p.name, cs), p.item, cs);
        if replacement.Some? {
          MergeMembersIsRfc(kept + [Member(p.name, replacement.value)], ps[1..], cs);
        }
        StepDefinition(ms, ps, cs);
        assert DenoteMembers(ps, cs) == DenoteMembers(ps[1..], cs)[k := v] by { DenoteStep(ps, cs); }
        assert v != VNull by { DenoteNull(p.item, cs); }
      }
    }
  }

  lemma {:induction false} DenoteStep(ps: seq<Member>, cs: bool)
    requires ps != []
    ensures DenoteMembers(ps, cs) == DenoteMembers(ps[1..], cs)[Norm(ps[0].name, cs) := Denote(ps[0].item, cs)]
  {
  }

  lemma {:induction false} DenoteNull(j: Json, cs: bool)
    ensures Denote(j, cs) == VNull <==> j.Null?
  {
  }

  lemma {:induction false} StepDefinition(ms: seq<Member>, ps: seq<Member>, cs: bool)
    requires ps != [] && !ps[0].item.Null?
    ensures var replacement := ApplyMerge(OldItem(ms, ps[0].name, cs), ps[0].item, cs);
      MergeMembers(ms, ps, cs)
        == if replacement.None? then None
           else MergeMembers(Kept(ms, ps[0].name, cs) + [Member(ps[0].name, replacement.value)], ps[1..], cs)
  {
  }

  function Kept(ms: seq<Member>, name: string, cs: bool): seq<Member>
  {
    var i := FindKey(ms, name, cs);
    if i < |ms| then RemoveAt(ms, i) else ms
  }

  function OldItem(ms: seq<Member>, name: string, cs: bool): Option<Json>
  {
    var i := FindKey(ms, name, cs);
    if i < |ms| then Some(ms[i].item) else None
  }

  lemma CopiesTail(ps: seq<Member>)
    requires ps != []
    ensures CopiesAll(ps) <==> Copies(ps[0].item) && CopiesAll(ps[1..])
  {
    assert ps == [ps[0]] + ps[1..];
  }

  /** One member that is not null, merged and appended. */
  lemma {:induction false} ReplacedIsRfc(ms: seq<Member>, p: Member, cs: bool)
    requires WellFormedList(ms, cs) && WellFormed(p.item, cs)
    ensures var replacement := ApplyMerge(OldItem(ms, p.name, cs), p.item, cs);
      && (replacement.Some? <==> Copies(p.item))
      && (replacement.Some? ==>
            var next := Kept(ms, p.name, cs) + [Member(p.name, replacement.value)];
            var fields, k := DenoteMembers(ms, cs), Norm(p.name, cs);
            WellFormedList(next, cs)
            && DenoteMembers(next, cs) == fields[k := Rfc(Lookup(fields, k), Denote(p.item, cs))])
    decreases p.item, 1
  {
    hide ApplyMerge, Rfc, Copies, Distinct, Norm;
    var fields, k := DenoteMembers(ms, cs), Norm(p.name, cs);
    var i := FindKey(ms, p.name, cs);
    DenoteFind(ms, p.name, cs);
    assert i < |ms| ==> ms[i] in ms;
    assert DenoteOption(OldItem(ms, p.name, cs), cs) == Lookup(fields, k);
    MergeIsRfc(OldItem(ms, p.name, cs), p.item, cs);
    var replacement := ApplyMerge(OldItem(ms, p.name, cs), p.item, cs);
    if replacement.Some? {
      var m := Member(p.name, replacement.value);
      KeptMembers(ms, p.name, cs);
      AppendMember(Kept(ms, p.name, cs), m, cs);
      assert (fields - {k})[k := Denote(m.item, cs)] == fields[k := Denote(m.item, cs)];
    }
  }

  lemma {:induction false} ListTail(ps: seq<Member>, cs: bool)
    requires WellFormedList(ps, cs) && ps != []
    ensures WellFormedList(ps[1..], cs) && Norm(ps[0].name, cs) !in DenoteMembers(ps[1..], cs)
  {
    assert ps == [ps[0]] + ps[1..];
    forall i, j | 0 <= i < j < |ps[1..]|
      ensures !SameKey(NameOf(ps[1..][i]), NameOf(ps[1..][j]), cs)
    {
      assert ps[1..][i] == ps[i + 1] && ps[1..][j] == ps[j + 1];
    }
    if Norm(ps[0].name, cs) in DenoteMembers(ps[1..], cs) {
      DenoteKey(ps[1..], Norm(ps[0].name, cs), cs);
    }
  }

  lemma {:induction false} KeptMembers(ms: seq<Member>, name: string, cs: bool)
    requires WellFormedList(ms, cs)
    ensures var kept := Kept(ms, name, cs);
      && WellFormedList(kept, cs)
      && DenoteMembers(kept, cs) == DenoteMembers(ms, cs) - {Norm(name, cs)}
      && forall m :: m in kept ==> !SameKey(NameOf(m), name, cs)
  {
    var i := FindKey(ms, name, cs);
    DenoteFind(ms, name, cs);
    if i < |ms| {
      RemoveKeepsDistinct(ms, i, cs);
      DenoteRemove(ms, i, cs);
    } else {
      forall m | m in ms
        ensures !SameKey(NameOf(m), name, cs)
      {
        var j :| 0 <= j < |ms| && ms[j] == m;
      }
    }
  }

  lemma {:induction false} AppendMember(ms: seq<Member>, m: Member, cs: bool)
    requires WellFormedList(ms, cs) && WellFormed(m.item, cs)
    requires forall x :: x in ms ==> !SameKey(NameOf(x), m.name, cs)
    ensures WellFormedList(ms + [m], cs)
    ensures DenoteMembers(ms + [m], cs) == DenoteMembers(ms, cs)[Norm(m.name, cs) := Denote(m.item, cs)]
  {
    DenoteAppend(ms, m, cs);
    var all := ms + [m];
    forall i, j | 0 <= i < j < |all|
      ensures !SameKey(NameOf(all[i]), NameOf(all[j]), cs)
    {
      assert all[i] in ms;
    }
  }

  /** One member of the patch is the loop body of the standard. */
  lemma {:induction false} RfcFieldsStep(fields: map<string, Value>, k: string, v: Value, rest: map<string, Value>)
    requires k !in rest
    ensures RfcFields(fields, VObject(rest[k := v]))
      == RfcFields(if v == VNull then fields - {k} else fields[k := Rfc(Lookup(fields, k), v)], VObject(rest))
  {
  }

  // --------------------------------------------------- generate_merge_patch

  /** Wherever the generator ignores case its order agrees with `strcmp`. */
  predicate Ordered(from: Json, to: Json, cs: bool)
    decreases from
  {
    match (from, to)
    case (Array(xs), Array(ys)) =>
      forall i :: 0 <= i < |xs| && i < |ys| ==> Ordered(xs[i], ys[i], cs)
    case (Object(ms), Object(ns)) =>
      && (!cs ==> NamesAgree(ms + ns))
      && forall i, j :: 0 <= i < |ms| && 0 <= j < |ns| && ms[i].name == ns[j].name ==>
           Ordered(ms[i].item, ns[j].item, false)
    case _ => true
  }

  predicate NamesAgree(ms: seq<Member>)
  {
    forall i, j :: 0 <= i < |ms| && 0 <= j < |ms| ==> OrdersAgree(ms[i].name, ms[j].name)
  }

  lemma {:induction false} AgreeSorts(ms: seq<Member>, ns: seq<Member>)
    requires NamesAgree(ms + ns)
    ensures SortList(ms, NameOf, false) == SortList(ms, NameOf, true)
    ensures SortList(ns, NameOf, false) == SortList(ns, NameOf, true)
    ensures forall m, n :: m in ms && n in ns ==> OrdersAgree(m.name, n.name)
  {
    hide SortList, OrdersAgree;
    var all := ms + ns;
    forall x, y | x in all && y in all
      ensures OrdersAgree(NameOf(x), NameOf(y))
    {
      var i :| 0 <= i < |all| && all[i] == x;
      var j :| 0 <= j < |all| && all[j] == y;
      assert OrdersAgree(all[i].name, all[j].name);
    }
    SortAgrees(ms, NameOf);
    SortAgrees(ns, NameOf);
  }

  /** Same-named members of ordered objects are ordered. */
  lemma {:induction false} OrderedPairs(from: Json, to: Json, cs: bool)
    requires from.Object? && to.Object? && Ordered(from, to, cs)
    ensures forall m, n :: m in from.members && n in to.members && m.name == n.name ==> Ordered(m.item, n.item, false)
  {
    forall m, n | m in from.members && n in to.members && m.name == n.name
      ensures Ordered(m.item, n.item, false)
    {
      var i :| 0 <= i < |from.members| && from.members[i] == m;
      var j :| 0 <= j < |to.members| && to.members[j] == n;
    }
  }

  /** On ordered pairs the comparison does not depend on the flag. */
  lemma {:induction false} CompareAgrees(a: Json, b: Json)
    requires Ordered(a, b, false)
    ensures CompareJson(a, b, false) == CompareJson(a, b, true)
    decreases a, 1, 0
  {
    match (a, b) {
      case (Array(xs), Array(ys)) => CompareItemsAgrees(xs, ys);
      case (Object(ms), Object(ns)) =>
        AgreeSorts(ms, ns);
        OrderedPairs(a, b, false);
        SortKeepsBelow(ms, true, a);
        forall m
          ensures m in SortList(ms, NameOf, true) <==> m in ms
          ensures m in SortList(ns, NameOf, true) <==> m in ns
        {
          SortMembers(ms, NameOf, true, m);
          SortMembers(ns, NameOf, true, m);
        }
        CompareMembersAgrees(SortList(ms, NameOf, true), SortList(ns, NameOf, true), a);
      case _ =>
    }
  }

  lemma {:induction false} CompareItemsAgrees(xs: seq<Json>, ys: seq<Json>)
    requires forall i :: 0 <= i < |xs| && i < |ys| ==> Ordered(xs[i], ys[i], false)
    ensures CompareItems(xs, ys, false) == CompareItems(xs, ys, true)
    decreases xs, 0, 0
  {
    if xs != [] && ys != [] {
      CompareAgrees(xs[0], ys[0]);
      CompareItemsAgrees(xs[1..], ys[1..]);
    }
  }

  lemma {:induction false} CompareMembersAgrees(ms: seq<Member>, ns: seq<Member>, owner: Json)
    requires forall m :: m in ms ==> m.item < owner
    requires forall m, n :: m in ms && n in ns ==> OrdersAgree(m.name, n.name)
    requires forall m, n :: m in ms && n in ns && m.name == n.name ==> Ordered(m.item, n.item, false)
    ensures CompareMembers(ms, ns, false, owner) == CompareMembers(ms, ns, true, owner)
    decreases owner, 0, |ms|
  {
    if ms != [] && ns != [] {
      assert ms == [ms[0]] + ms[1..] && ns == [ns[0]] + ns[1..];
      assert OrdersAgree(ms[0].name, ns[0].name);
      CompareZero(ms[0].name, ns[0].name, true);
      if ms[0].name == ns[0].name {
        CompareAgrees(ms[0].item, ns[0].item);
      }
      CompareMembersAgrees(ms[1..], ns[1..], owner);
    }
  }

  /** A pair stays ordered when the comparison sorts it. */
  lemma {:induction false} OrderedAfter(a: Json, b: Json, cs: bool)
    requires WellFormed(a, true) && WellFormed(b, true) && Ordered(a, b, false)
    ensures Ordered(AfterCompare(a, b, cs), AfterCompare(b, a, cs), false)
    decreases a, 2, 0
  {
    match (a, b) {
      case (Array(xs), Array(ys)) => OrderedAfterArrays(xs, ys, cs);
      case (Object(ms), Object(ns)) => OrderedAfterObjects(a, b, cs);
      case _ =>
    }
  }

  predicate ItemsOrdered(xs: seq<Json>, ys: seq<Json>)
  {
    forall i :: 0 <= i < |xs| && i < |ys| ==> Ordered(xs[i], ys[i], false)
  }

  lemma OrderedArrays(xs: seq<Json>, ys: seq<Json>)
    ensures Ordered(Array(xs), Array(ys), false) <==> ItemsOrdered(xs, ys)
  {
  }

  lemma {:induction false} OrderedAfterArrays(xs: seq<Json>, ys: seq<Json>, cs: bool)
    requires WellFormed(Array(xs), true) && WellFormed(Array(ys), true) && Ordered(Array(xs), Array(ys), false)
    ensures Ordered(AfterCompare(Array(xs), Array(ys), cs), AfterCompare(Array(ys), Array(xs), cs), false)
    decreases xs, 1, 0
  {
    hide Ordered, AfterItems, ItemsOrdered;
    OrderedArrays(xs, ys);
    OrderedAfterItems(xs, ys, cs);
    OrderedArrays(AfterItems(xs, ys, cs), AfterItems(ys, xs, cs));
  }

  lemma {:induction false} OrderedAfterItems(xs: seq<Json>, ys: seq<Json>, cs: bool)
    requires forall x :: x in xs ==> WellFormed(x, true)
    requires forall y :: y in ys ==> WellFormed(y, true)
    requires ItemsOrdered(xs, ys)
    ensures ItemsOrdered(AfterItems(xs, ys, cs), AfterItems(ys, xs, cs))
    decreases xs, 0, 0
  {
    hide Ordered, WellFormed, AfterCompare, CompareJson, ItemsOrdered;
    if xs != [] && ys != [] {
      OrderedFirst(xs, ys);
      OrderedAfter(xs[0], ys[0], cs);
      CompareSymmetric(xs[0], ys[0], cs);
      OrderedAfterItems(xs[1..], ys[1..], cs);
      var same := CompareJson(xs[0], ys[0], cs);
      ItemsOrderedCons(AfterCompare(xs[0], ys[0], cs), AfterCompare(ys[0], xs[0], cs),
                       if same then AfterItems(xs[1..], ys[1..], cs) else xs[1..],
                       if same then AfterItems(ys[1..], xs[1..], cs) else ys[1..]);
    }
  }

  lemma OrderedFirst(xs: seq<Json>, ys: seq<Json>)
    requires ItemsOrdered(xs, ys) && xs != [] && ys != []
    ensures Ordered(xs[0], ys[0], false) && ItemsOrdered(xs[1..], ys[1..])
    ensures xs[0] in xs && ys[0] in ys
  {
    hide Ordered;
  }

  lemma {:induction false} ItemsOrderedCons(x: Json, y: Json, xs: seq<Json>, ys: seq<Json>)
    requires Ordered(x, y, false) && ItemsOrdered(xs, ys)
    ensures ItemsOrdered([x] + xs, [y] + ys)
  {
    hide Ordered;
  }

  predicate PairsOrdered(ms: seq<Member>, ns: seq<Member>)
  {
    forall m, n :: m in ms && n in ns && m.name == n.name ==> Ordered(m.item, n.item, false)
  }

  ghost predicate MembersAgree(ms: seq<Member>, ns: seq<Member>)
  {
    forall x, y :: x in ms + ns && y in ms + ns ==> OrdersAgree(x.name, y.name)
  }

  lemma AgreeMembers(ms: seq<Member>, ns: seq<Member>)
    ensures NamesAgree(ms + ns) <==> MembersAgree(ms, ns)
  {
    hide OrdersAgree;
    var all := ms + ns;
    if NamesAgree(all) {
      forall x, y | x in all && y in all
        ensures OrdersAgree(x.name, y.name)
      {
        var i :| 0 <= i < |all| && all[i] == x;
        var j :| 0 <= j < |all| && all[j] == y;
        assert OrdersAgree(all[i].name, all[j].name);
      }
    }
  }

  lemma OrderedObjects(ms: seq<Member>, ns: seq<Member>)
    ensures Ordered(Object(ms), Object(ns), false) <==> MembersAgree(ms, ns) && PairsOrdered(ms, ns)
  {
    hide OrdersAgree, NamesAgree, MembersAgree;
    AgreeMembers(ms, ns);
    if Ordered(Object(ms), Object(ns), false) {
      OrderedPairs(Object(ms), Object(ns), false);
    }
  }

  lemma {:induction false} OrderedAfterObjects(a: Json, b: Json, cs: bool)
    requires a.Object? && b.Object? && WellFormed(a, true) && WellFormed(b, true) && Ordered(a, b, false)
    ensures Ordered(AfterCompare(a, b, cs), AfterCompare(b, a, cs), false)
    decreases a, 1, 0
  {
    hide Ordered, SortList, AfterMembers, SameKey, Distinct, PairsOrdered, OrdersAgree, MembersAgree, WellFormed;
    var ms, ns := SortList(a.members, NameOf, cs), SortList(b.members, NameOf, cs);
    SortKeepsBelow(a.members, cs, a);
    SortKeepsBelow(b.members, cs, b);
    OrderedObjects(a.members, b.members);
    SortedDenotes(a.members, cs, true);
    SortedDenotes(b.members, cs, true);
    SortedOrdered(a.members, b.members, cs);
    OrderedAfterMembers(ms, ns, cs, a, b);
    var p, q := AfterMembers(ms, ns, cs, a), AfterMembers(ns, ms, cs, b);
    SameNamesAgree(ms, ns, p, q);
    OrderedObjects(p, q);
  }

  lemma {:induction false} SortedOrdered(ms: seq<Member>, ns: seq<Member>, cs: bool)
    requires MembersAgree(ms, ns) && PairsOrdered(ms, ns)
    ensures var p, q := SortList(ms, NameOf, cs), SortList(ns, NameOf, cs); MembersAgree(p, q) && PairsOrdered(p, q)
  {
    hide SortList, OrdersAgree, Ordered;
    forall m
      ensures m in SortList(ms, NameOf, cs) <==> m in ms
      ensures m in SortList(ns, NameOf, cs) <==> m in ns
    {
      SortMembers(ms, NameOf, cs, m);
      SortMembers(ns, NameOf, cs, m);
    }
  }

  lemma SameNamesAgree(ms: seq<Member>, ns: seq<Member>, p: seq<Member>, q: seq<Member>)
    requires MembersAgree(ms, ns) && |p| == |ms| && |q| == |ns|
    requires forall i :: 0 <= i < |p| ==> p[i].name == ms[i].name
    requires forall i :: 0 <= i < |q| ==> q[i].name == ns[i].name
    ensures MembersAgree(p, q)
  {
    hide OrdersAgree;
    forall x | x in p + q
      ensures exists m :: m in ms + ns && m.name == x.name
    {
      var i :| 0 <= i < |p + q| && (p + q)[i] == x;
      assert (ms + ns)[i] in ms + ns && (ms + ns)[i].name == x.name;
    }
  }

  lemma {:induction false} OrderedAfterMembers(ms: seq<Member>, ns: seq<Member>, cs: bool, a: Json, b: Json)
    requires forall m :: m in ms ==> m.item < a && WellFormed(m.item, true)
    requires forall n :: n in ns ==> n.item < b && WellFormed(n.item, true)
    requires Distinct(ms, NameOf, true) && Distinct(ns, NameOf, true)
    requires MembersAgree(ms, ns) && PairsOrdered(ms, ns)
    ensures PairsOrdered(AfterMembers(ms, ns, cs, a), AfterMembers(ns, ms, cs, b))
    decreases a, 0, |ms|
  {
    hide Ordered, WellFormed, AfterCompare, CompareJson, OrdersAgree, Compare, SameKey, Distinct, MembersAgree;
    if ms != [] && ns != [] {
      CompareFlip(ms[0].name, ns[0].name, cs);
      if Compare(ms[0].name, ns[0].name, cs) == 0 {
        HeadsAgree(ms, ns, cs);
        OrderedAfter(ms[0].item, ns[0].item, cs);
        CompareSymmetric(ms[0].item, ns[0].item, cs);
        TailsAgree(ms, ns);
        OrderedAfterMembers(ms[1..], ns[1..], cs, a, b);
        var same := CompareJson(ms[0].item, ns[0].item, cs);
        var p := if same then AfterMembers(ms[1..], ns[1..], cs, a) else ms[1..];
        var q := if same then AfterMembers(ns[1..], ms[1..], cs, b) else ns[1..];
        OrderedCons(ms, ns, Member(ms[0].name, AfterCompare(ms[0].item, ns[0].item, cs)),
                    Member(ns[0].name, AfterCompare(ns[0].item, ms[0].item, cs)), p, q);
      }
    }
  }

  lemma HeadsAgree(ms: seq<Member>, ns: seq<Member>, cs: bool)
    requires ms != [] && ns != [] && MembersAgree(ms, ns) && PairsOrdered(ms, ns)
    requires Compare(ms[0].name, ns[0].name, cs) == 0
    ensures ms[0].name == ns[0].name && Ordered(ms[0].item, ns[0].item, false)
  {
    hide Compare, Ordered;
    assert ms[0] in ms + ns && (ms + ns)[|ms|] == ns[0] && ns[0] in ms + ns;
    assert OrdersAgree(ms[0].name, ns[0].name);
    CompareZero(ms[0].name, ns[0].name, true);
  }

  lemma TailsAgree(ms: seq<Member>, ns: seq<Member>)
    requires ms != [] && ns != [] && MembersAgree(ms, ns) && PairsOrdered(ms, ns)
    requires Distinct(ms, NameOf, true) && Distinct(ns, NameOf, true)
    ensures MembersAgree(ms[1..], ns[1..]) && PairsOrdered(ms[1..], ns[1..])
    ensures Distinct(ms[1..], NameOf, true) && Distinct(ns[1..], NameOf, true)
    ensures forall m :: m in ms[1..] ==> m in ms
    ensures forall n :: n in ns[1..] ==> n in ns
  {
    hide Ordered, OrdersAgree;
    DistinctTail(ms, true);
    DistinctTail(ns, true);
    forall x | x in ms[1..] + ns[1..]
      ensures x in ms + ns
    {
      assert x in ms[1..] || x in ns[1..];
    }
  }

  /** Heads of one name stay ordered, and no other name of the tails is theirs. */
  lemma OrderedCons(ms: seq<Member>, ns: seq<Member>, m: Member, n: Member, p: seq<Member>, q: seq<Member>)
    requires ms != [] && ns != [] && Distinct(ms, NameOf, true) && Distinct(ns, NameOf, true)
    requires m.name == ms[0].name == ns[0].name == n.name && Ordered(m.item, n.item, false)
    requires |p| == |ms| - 1 && forall i :: 0 <= i < |p| ==> p[i].name == ms[1..][i].name
    requires |q| == |ns| - 1 && forall i :: 0 <= i < |q| ==> q[i].name == ns[1..][i].name
    requires PairsOrdered(p, q)
    ensures PairsOrdered([m] + p, [n] + q)
  {
    hide Ordered;
    forall i | 0 <= i < |p|
      ensures p[i].name != m.name
    {
      DistinctAt(ms, i + 1, 0, true);
    }
    forall i | 0 <= i < |q|
      ensures q[i].name != m.name
    {
      DistinctAt(ns, i + 1, 0, true);
    }
  }

  lemma {:induction false} CompareIsEqual(a: Json, b: Json, cs: bool)
    requires WellFormed(a, true) && WellFormed(b, true) && (cs || Ordered(a, b, false))
    ensures CompareJson(a, b, cs) <==> Denote(a, true) == Denote(b, true)
  {
    if !cs {
      CompareAgrees(a, b);
    }
    CompareJsonDecides(a, b, true);
  }

  /** A generated patch: absent, or well formed, copyable and of the value given. */
  ghost predicate Represents(patch: Option<Json>, v: Option<Value>)
  {
    && DenoteOption(patch, true) == v
    && (patch.Some? ==> WellFormed(patch.value, true) && Copies(patch.value))
  }

  lemma {:induction false} LowCopies(j: Json)
    requires Height(j) <= CIRCULAR_LIMIT
    ensures Copies(j)
    decreases j
  {
    match j {
      case Object(members) =>
        forall i | 0 <= i < |members|
          ensures Copies(members[i].item)
        {
          LowCopies(members[i].item);
        }
      case _ =>
    }
  }

  /** The generator computes the patch between the two values. */
  lemma {:induction false} GenerateIsDiff(from: Json, to: Json, cs: bool)
    requires WellFormed(from, true) && WellFormed(to, true) && Ordered(from, to, cs)
    requires Height(to) <= CIRCULAR_LIMIT
    ensures Represents(Generate(from, to, cs), Diff(Denote(from, true), Denote(to, true)))
    decreases Size(from), 1, 0
  {
    if !to.Object? || !from.Object? {
      DuplicateExact(to, 0);
      LowCopies(to);
    } else {
      var ms, ns := SortList(from.members, NameOf, cs), SortList(to.members, NameOf, cs);
      SortedSize(from.members, cs);
      StartWalk(from, to, cs);
      GenerateMembersIsDiff(ms, ns, cs);
      var patch := GenerateMembers(ms, ns, cs);
      DenoteSorted(from.members, true, cs);
      DenoteSorted(to.members, true, cs);
      WellFormedObject(patch, true);
      if patch != [] {
        assert Norm(patch[0].name, true) in DenoteMembers(patch, true);
        forall i | 0 <= i < |patch|
          ensures Copies(patch[i].item)
        {
          assert patch[i] in patch;
        }
      }
    }
  }

  /** So does the recursive call, whatever order the comparison has left. */
  lemma {:induction false} BelowIsDiff(from: Json, to: Json, cs: bool)
    requires WellFormed(from, true) && WellFormed(to, true) && Ordered(from, to, false)
    requires Height(to) <= CIRCULAR_LIMIT
    ensures Represents(GenerateBelow(from, to, cs), Diff(Denote(from, true), Denote(to, true)))
    decreases Size(from), 2, 0
  {
    hide AfterCompare, Denote, WellFormed, Ordered, Represents, Generate, Height;
    AfterSize(from, to, cs);
    AfterSize(to, from, cs);
    AfterDenotes(from, to, cs, true);
    AfterDenotes(to, from, cs, true);
    OrderedAfter(from, to, cs);
    GenerateIsDiff(AfterCompare(from, to, cs), AfterCompare(to, from, cs), false);
  }

  /** What the walk over both sorted lists needs. */
  ghost predicate WalkState(ms: seq<Member>, ns: seq<Member>, cs: bool)
  {
    && Ascends(ms, true) && Ascends(ns, true)
    && WellFormedItems(ms) && WellFormedItems(ns)
    && (forall n :: n in ns ==> Height(n.item) <= CIRCULAR_LIMIT)
    && (forall m, n :: m in ms && n in ns && m.name == n.name ==> Ordered(m.item, n.item, false))
  }

  predicate WellFormedItems(ms: seq<Member>)
  {
    forall m :: m in ms ==> WellFormed(m.item, true)
  }

  lemma {:induction false} StartWalk(from: Json, to: Json, cs: bool)
    requires from.Object? && to.Object?
    requires WellFormed(from, true) && WellFormed(to, true) && Ordered(from, to, cs)
    requires Height(to) <= CIRCULAR_LIMIT
    ensures WalkState(SortList(from.members, NameOf, cs), SortList(to.members, NameOf, cs), cs)
  {
    var ms, ns := from.members, to.members;
    SortDistinct(ms, NameOf, true);
    SortDistinct(ns, NameOf, true);
    if !cs {
      AgreeSorts(ms, ns);
    }
    OrderedPairs(from, to, cs);
    forall m
      ensures m in SortList(ms, NameOf, cs) <==> m in ms
      ensures m in SortList(ns, NameOf, cs) <==> m in ns
    {
      SortMembers(ms, NameOf, cs, m);
      SortMembers(ns, NameOf, cs, m);
    }
  }

  lemma WalkTails(ms: seq<Member>, ns: seq<Member>, cs: bool)
    requires WalkState(ms, ns, cs)
    ensures ms != [] ==> WalkState(ms[1..], ns, cs) && ms[0] in ms && ms[0].name !in DenoteMembers(ms[1..], true)
    ensures ns != [] ==> WalkState(ms, ns[1..], cs) && ns[0] in ns && ns[0].name !in DenoteMembers(ns[1..], true)
    ensures ms != [] && ns != [] ==> WalkState(ms[1..], ns[1..], cs)
  {
    if ms != [] {
      assert ms == [ms[0]] + ms[1..];
      HeadAbsent(ms, true);
    }
    if ns != [] {
      assert ns == [ns[0]] + ns[1..];
      HeadAbsent(ns, true);
    }
  }

  /** The members of a generated patch. */
  ghost predicate Lists(patch: seq<Member>, fields: map<string, Value>)
  {
    && WellFormedList(patch, true)
    && DenoteMembers(patch, true) == fields
    && forall p :: p in patch ==> Copies(p.item)
  }

  lemma ListsCons(name: string, item: Option<Json>, rest: seq<Member>, fields: map<string, Value>)
    requires Lists(rest, fields) && name !in fields
    requires item.Some? ==> WellFormed(item.value, true) && Copies(item.value)
    ensures Lists(AddTo(name, item) + rest,
                  if item.None? then fields else fields[name := Denote(item.value, true)])
  {
    if item.None? {
      NoPrefix(rest);
    } else {
      var all := [Member(name, item.value)] + rest;
      assert all[1..] == rest;
      forall i, j | 0 <= i < j < |all|
        ensures !SameKey(NameOf(all[i]), NameOf(all[j]), true)
      {
        if i == 0 {
          NamedIn(rest, j - 1);
        } else {
          assert !SameKey(NameOf(rest[i - 1]), NameOf(rest[j - 1]), true);
        }
      }
    }
  }

  function Fields(ms: seq<Member>): Value
  {
    VObject(DenoteMembers(ms, true))
  }

  lemma {:induction false} GenerateMembersIsDiff(ms: seq<Member>, ns: seq<Member>, cs: bool)
    requires WalkState(ms, ns, cs)
    ensures Lists(GenerateMembers(ms, ns, cs), DiffFields(Fields(ms), Fields(ns)))
    decreases SizeMembers(ms) + 1, 0, |ms| + |ns|
  {
    if ms == [] && ns == [] {
      assert DiffFields(VObject(map[]), VObject(map[])) == map[];
    } else {
      WalkTails(ms, ns, cs);
      var diff := if ms == [] then 1 else if ns == [] then -1 else StrCmp(ms[0].name, ns[0].name);
      if diff < 0 {
        FirstMissing(ms, ns);
        GenerateMembersIsDiff(ms[1..], ns, cs);
        DiffRemoved(Fields(ms[1..]), Fields(ns), ms[0].name, Denote(ms[0].item, true));
        ListsCons(ms[0].name, Some(Null), GenerateMembers(ms[1..], ns, cs),
                  DiffFields(Fields(ms[1..]), Fields(ns)));
      } else if diff > 0 {
        if ms != [] {
          StrCmpFlip(ms[0].name, ns[0].name);
        }
        FirstMissing(ns, ms);
        GenerateMembersIsDiff(ms, ns[1..], cs);
        DiffAdded(Fields(ms), Fields(ns[1..]), ns[0].name, Denote(ns[0].item, true));
        DuplicateExact(ns[0].item, 0);
        LowCopies(ns[0].item);
        ListsCons(ns[0].name, Some(ns[0].item), GenerateMembers(ms, ns[1..], cs),
                  DiffFields(Fields(ms), Fields(ns[1..])));
      } else {
        StrCmpZero(ms[0].name, ns[0].name);
        GenerateMembersIsDiff(ms[1..], ns[1..], cs);
        CompareIsEqual(ms[0].item, ns[0].item, cs);
        var rest := GenerateMembers(ms[1..], ns[1..], cs);
        var f, t := Denote(ms[0].item, true), Denote(ns[0].item, true);
        DiffBoth(Fields(ms[1..]), Fields(ns[1..]), ms[0].name, f, t);
        var identical := CompareJson(ms[0].item, ns[0].item, cs);
        var inner := if identical then None else GenerateBelow(ms[0].item, ns[0].item, cs);
        if f != t {
          BelowIsDiff(ms[0].item, ns[0].item, cs);
        }
        assert AddTo(ns[0].name, None) == [];
        ListsCons(ns[0].name, inner, rest, DiffFields(Fields(ms[1..]), Fields(ns[1..])));
      }
    }
  }

  lemma {:induction false} FirstMissing(ms: seq<Member>, ns: seq<Member>)
    requires Ascends(ns, true) && ms != [] && (ns != [] ==> StrCmp(ms[0].name, ns[0].name) < 0)
    ensures ms[0].name !in DenoteMembers(ns, true)
  {
    BelowAbsent(ms[0].name, ns, true);
  }

  lemma DiffRemoved(f: Value, t: Value, k: string, v: Value)
    requires f.VObject? && t.VObject? && k !in f.fields && k !in t.fields
    ensures k !in DiffFields(f, t)
    ensures DiffFields(VObject(f.fields[k := v]), t) == DiffFields(f, t)[k := VNull]
  {
  }

  lemma DiffAdded(f: Value, t: Value, k: string, v: Value)
    requires f.VObject? && t.VObject? && k !in f.fields && k !in t.fields
    ensures k !in DiffFields(f, t)
    ensures DiffFields(f, VObject(t.fields[k := v])) == DiffFields(f, t)[k := v]
  {
  }

  lemma DiffBoth(f: Value, t: Value, k: string, v: Value, w: Value)
    requires f.VObject? && t.VObject? && k !in f.fields && k !in t.fields
    ensures k !in DiffFields(f, t)
    ensures DiffFields(VObject(f.fields[k := v]), VObject(t.fields[k := w]))
      == if v != w && Diff(v, w).Some? then DiffFields(f, t)[k := Diff(v, w).value] else DiffFields(f, t)
  {
    hide Diff;
    var d, e := DiffFields(VObject(f.fields[k := v]), VObject(t.fields[k := w])), DiffFields(f, t);
    assert forall x :: x != k ==> (x in d <==> x in e) && (x in d ==> d[x] == e[x]);
  }

  // ------------------------------------------------------------ the theorem

  /** Generation says there is nothing to do only for equal values; otherwise
      merging the patch into a copy of `from` gives `to` exactly when the change
      sets no null. */
  lemma {:induction false} MergeRestores(from: Json, to: Json)
    requires WellFormed(from, true) && WellFormed(to, true) && Ordered(from, to, true)
    requires Height(to) <= CIRCULAR_LIMIT
    ensures var patch := Generate(from, to, true);
      && (patch.None? ==> Denote(from, true) == Denote(to, true))
      && (patch.Some? ==>
            var r := ApplyMerge(Some(from), patch.value, true);
            r.Some? && (Denote(r.value, true) == Denote(to, true) <==> NullSafe(Denote(from, true), Denote(to, true))))
  {
    GenerateIsDiff(from, to, true);
    var patch := Generate(from, to, true);
    DiffRestores(Denote(from, true), Denote(to, true));
    if patch.Some? {
      MergeIsRfc(Some(from), patch.value, true);
    } else {
      assert Diff(Denote(from, true), Denote(to, true)) == None;
      if Denote(from, true) != Denote(to, true) {
        DiffExists(Denote(from, true), Denote(to, true));
      }
    }
  }
}
