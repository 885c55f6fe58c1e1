/** The recursive procedures of libs/cjson/src/cJSON_Utils.c and libs/cjson/src/cJSON.c
    with their loops over child lists, each proved to compute the function that stands
    for it in the theorems. Trees are values here; the lists they walk are sequences. */
module Procedures {
  import opened Text
  import opened Sort
  import opened Json
  import C = Comparison
  import L = CompareLeaves
  import D = Duplicate
  import P = Patch
  import M = MergePatch
  import A = LivePatch
  import G = LiveMerging
  import opened Links
  import opened LiveTrees
  import opened Pointer

  /** `compare_json`: both trees are sorted on the way, as far as it gets. */
  method CompareJson(a: Json, b: Json, cs: bool) returns (identical: bool, first: Json, second: Json)
    ensures identical == C.CompareJson(a, b, cs)
    ensures first == L.AfterCompare(a, b, cs) && second == L.AfterCompare(b, a, cs)
    decreases a, 1
  {
    first, second := a, b;
    if P.TypeOf(a) != P.TypeOf(b) {
      return false, a, b;
    }
    match a
    case Number(n) => identical := n == b.n;
    case String(s) => identical := StrCmp(s, b.s) == 0;
    case Array(xs) =>
      var left, right;
      identical, left, right := CompareItems(xs, b.items, cs);
      first, second := Array(left), Array(right);
    case Object(members) =>
      C.SortKeepsBelow(members, cs, a);
      C.SortKeepsBelow(b.members, cs, b);
      var left, right;
      identical, left, right :=
        CompareMembers(SortList(members, NameOf, cs), SortList(b.members, NameOf, cs), cs, a, b);
      first, second := Object(left), Object(right);
    case _ => identical := true;
  }

  /** An update in place at the border of what is done. */
  lemma SetAt<T>(xs: seq<T>, i: nat, x: T)
    requires i < |xs|
    ensures xs[i := x][..i + 1] == xs[..i] + [x] && xs[i := x][i + 1..] == xs[i + 1..]
    ensures xs[i := x] == xs[..i] + ([x] + xs[i + 1..])
  {
  }

  lemma Done<T>(xs: seq<T>, i: nat)
    requires i <= |xs|
    ensures xs == xs[..i] + xs[i..]
  {
  }

  /** One of the two arrays with the first `i` elements compared. */
  ghost predicate Passed(now: seq<Json>, xs: seq<Json>, ys: seq<Json>, i: nat, cs: bool)
  {
    && i <= |xs| == |now| && i <= |ys| && now[i..] == xs[i..]
    && L.AfterItems(xs, ys, cs) == now[..i] + L.AfterItems(xs[i..], ys[i..], cs)
  }

  lemma PassStarts(xs: seq<Json>, ys: seq<Json>, cs: bool)
    ensures Passed(xs, xs, ys, 0, cs) && xs[0..] == xs
  {
    hide L.AfterItems;
    NoPrefix(L.AfterItems(xs, ys, cs));
    assert ys[0..] == ys;
  }

  lemma PassStops(now: seq<Json>, xs: seq<Json>, ys: seq<Json>, i: nat, cs: bool)
    requires Passed(now, xs, ys, i, cs) && (i == |xs| || i == |ys|)
    ensures L.AfterItems(xs, ys, cs) == now
  {
    Done(now, i);
  }

  lemma PassAdvances(now: seq<Json>, xs: seq<Json>, ys: seq<Json>, i: nat, cs: bool)
    requires Passed(now, xs, ys, i, cs) && i < |xs| && i < |ys|
    ensures var next := now[i := L.AfterCompare(xs[i], ys[i], cs)];
      if C.CompareJson(xs[i], ys[i], cs) then Passed(next, xs, ys, i + 1, cs) else L.AfterItems(xs, ys, cs) == next
  {
    hide C.CompareJson, C.CompareItems, L.AfterItems, L.AfterCompare;
    CompareItemsStep(xs, ys, i, cs);
    var x := L.AfterCompare(xs[i], ys[i], cs);
    SetAt(now, i, x);
    DropDrop(now, i, 1);
    DropDrop(xs, i, 1);
    Assoc(now[..i], [x], L.AfterItems(xs[i + 1..], ys[i + 1..], cs));
  }

  method CompareItems(xs: seq<Json>, ys: seq<Json>, cs: bool)
    returns (identical: bool, left: seq<Json>, right: seq<Json>)
    ensures identical == C.CompareItems(xs, ys, cs)
    ensures left == L.AfterItems(xs, ys, cs) && right == L.AfterItems(ys, xs, cs)
    decreases xs, 0
  {
    hide C.CompareJson, C.CompareItems, L.AfterItems, L.AfterCompare, Passed;
    left, right := xs, ys;
    var i := 0;
    PassStarts(xs, ys, cs);
    PassStarts(ys, xs, cs);
    while i < |xs| && i < |ys|
      invariant i <= |xs| == |left| && i <= |ys| == |right|
      invariant C.CompareItems(xs, ys, cs) == C.CompareItems(xs[i..], ys[i..], cs)
      invariant Passed(left, xs, ys, i, cs) && Passed(right, ys, xs, i, cs)
    {
      CompareItemsStep(xs, ys, i, cs);
      L.CompareSymmetric(xs[i], ys[i], cs);
      PassAdvances(left, xs, ys, i, cs);
      PassAdvances(right, ys, xs, i, cs);
      var first, second;
      identical, first, second := CompareJson(xs[i], ys[i], cs);
      left, right := left[i := first], right[i := second];
      if !identical {
        return;
      }
      i := i + 1;
    }
    CompareItemsEnd(xs[i..], ys[i..], cs);
    PassStops(left, xs, ys, i, cs);
    PassStops(right, ys, xs, i, cs);
    identical := i == |xs| == |ys|;
  }

  lemma CompareItemsStep(xs: seq<Json>, ys: seq<Json>, i: nat, cs: bool)
    requires i < |xs| && i < |ys|
    ensures C.CompareItems(xs[i..], ys[i..], cs)
      <==> C.CompareJson(xs[i], ys[i], cs) && C.CompareItems(xs[i + 1..], ys[i + 1..], cs)
    ensures L.AfterItems(xs[i..], ys[i..], cs) == [L.AfterCompare(xs[i], ys[i], cs)]
      + if C.CompareJson(xs[i], ys[i], cs) then L.AfterItems(xs[i + 1..], ys[i + 1..], cs) else xs[i + 1..]
  {
    hide C.CompareJson, L.AfterCompare;
    DropDrop(xs, i, 1);
    DropDrop(ys, i, 1);
  }

  lemma CompareItemsEnd(xs: seq<Json>, ys: seq<Json>, cs: bool)
    requires xs == [] || ys == []
    ensures C.CompareItems(xs, ys, cs) <==> xs == [] && ys == []
  {
  }

  /** One of the two lists with the first `i` members compared. */
  ghost predicate Walked(now: seq<Member>, ms: seq<Member>, ns: seq<Member>, i: nat, cs: bool, owner: Json)
    requires forall m :: m in ms ==> m.item < owner
  {
    && i <= |ms| == |now| && i <= |ns| && now[i..] == ms[i..]
    && C.CompareMembers(ms, ns, cs, owner) == C.CompareMembers(ms[i..], ns[i..], cs, owner)
    && L.AfterMembers(ms, ns, cs, owner) == now[..i] + L.AfterMembers(ms[i..], ns[i..], cs, owner)
  }

  lemma WalkStarts(ms: seq<Member>, ns: seq<Member>, cs: bool, owner: Json)
    requires forall m :: m in ms ==> m.item < owner
    ensures Walked(ms, ms, ns, 0, cs, owner)
  {
    hide L.AfterMembers, C.CompareMembers;
    assert ms[0..] == ms;
    NoPrefix(L.AfterMembers(ms, ns, cs, owner));
    assert ns[0..] == ns;
  }

  lemma WalkStops(now: seq<Member>, ms: seq<Member>, ns: seq<Member>, i: nat, cs: bool, owner: Json)
    requires (forall m :: m in ms ==> m.item < owner) && Walked(now, ms, ns, i, cs, owner)
    requires i == |ms| || i == |ns| || Compare(ms[i].name, ns[i].name, cs) != 0
    ensures L.AfterMembers(ms, ns, cs, owner) == now
    ensures C.CompareMembers(ms, ns, cs, owner) <==> i == |ms| == |ns|
  {
    hide L.AfterCompare, C.CompareJson, Compare;
    Done(now, i);
  }

  lemma WalkAdvances(now: seq<Member>, ms: seq<Member>, ns: seq<Member>, i: nat, cs: bool, owner: Json)
    requires (forall m :: m in ms ==> m.item < owner) && Walked(now, ms, ns, i, cs, owner)
    requires i < |ms| && i < |ns| && Compare(ms[i].name, ns[i].name, cs) == 0
    ensures var next := now[i := Member(ms[i].name, L.AfterCompare(ms[i].item, ns[i].item, cs))];
      if C.CompareJson(ms[i].item, ns[i].item, cs) then Walked(next, ms, ns, i + 1, cs, owner)
      else L.AfterMembers(ms, ns, cs, owner) == next && !C.CompareMembers(ms, ns, cs, owner)
  {
    hide C.CompareJson, C.CompareMembers, L.AfterMembers, L.AfterCompare, Compare;
    CompareMembersStep(ms, ns, i, cs, owner);
    var m := Member(ms[i].name, L.AfterCompare(ms[i].item, ns[i].item, cs));
    SetAt(now, i, m);
    DropDrop(now, i, 1);
    DropDrop(ms, i, 1);
    Assoc(now[..i], [m], L.AfterMembers(ms[i + 1..], ns[i + 1..], cs, owner));
  }

  /** The loop over two sorted objects. */
  method CompareMembers(ms: seq<Member>, ns: seq<Member>, cs: bool, ghost a: Json, ghost b: Json)
    returns (identical: bool, left: seq<Member>, right: seq<Member>)
    requires forall m :: m in ms ==> m.item < a
    requires forall n :: n in ns ==> n.item < b
    ensures identical == C.CompareMembers(ms, ns, cs, a)
    ensures left == L.AfterMembers(ms, ns, cs, a) && right == L.AfterMembers(ns, ms, cs, b)
    decreases a, 0
  {
    hide C.CompareJson, C.CompareMembers, L.AfterMembers, L.AfterCompare, Compare, Walked;
    left, right := ms, ns;
    var i := 0;
    WalkStarts(ms, ns, cs, a);
    WalkStarts(ns, ms, cs, b);
    while i < |ms| && i < |ns|
      invariant i <= |ms| == |left| && i <= |ns| == |right|
      invariant Walked(left, ms, ns, i, cs, a) && Walked(right, ns, ms, i, cs, b)
    {
      CompareFlip(ms[i].name, ns[i].name, cs);
      if Compare(ms[i].name, ns[i].name, cs) != 0 {
        WalkStops(left, ms, ns, i, cs, a);
        WalkStops(right, ns, ms, i, cs, b);
        return false, left, right;
      }
      assert ms[i] in ms;
      L.CompareSymmetric(ms[i].item, ns[i].item, cs);
      WalkAdvances(left, ms, ns, i, cs, a);
      WalkAdvances(right, ns, ms, i, cs, b);
      var first, second;
      identical, first, second := CompareJson(ms[i].item, ns[i].item, cs);
      left, right := left[i := Member(ms[i].name, first)], right[i := Member(ns[i].name, second)];
      if !identical {
        return;
      }
      i := i + 1;
    }
    WalkStops(left, ms, ns, i, cs, a);
    WalkStops(right, ns, ms, i, cs, b);
    identical := i == |ms| == |ns|;
  }

  lemma CompareMembersStep(ms: seq<Member>, ns: seq<Member>, i: nat, cs: bool, owner: Json)
    requires i < |ms| && i < |ns|
    requires forall m :: m in ms ==> m.item < owner
    ensures C.CompareMembers(ms[i..], ns[i..], cs, owner) <==>
      && Compare(ms[i].name, ns[i].name, cs) == 0 && C.CompareJson(ms[i].item, ns[i].item, cs)
      && C.CompareMembers(ms[i + 1..], ns[i + 1..], cs, owner)
    ensures L.AfterMembers(ms[i..], ns[i..], cs, owner) ==
      if Compare(ms[i].name, ns[i].name, cs) != 0 then ms[i..]
      else
        [Member(ms[i].name, L.AfterCompare(ms[i].item, ns[i].item, cs))]
        + if C.CompareJson(ms[i].item, ns[i].item, cs) then L.AfterMembers(ms[i + 1..], ns[i + 1..], cs, owner)
          else ms[i + 1..]
  {
    hide C.CompareJson, L.AfterCompare, Compare;
    DropDrop(ms, i, 1);
    DropDrop(ns, i, 1);
  }

  /** `cJSON_Compare` of two different items. */
  method LookupCompare(a: Json, b: Json, cs: bool) returns (equal: bool)
    ensures equal == C.LookupCompare(a, b, cs)
    decreases C.Size(a) + C.Size(b), 0
  {
    if P.TypeOf(a) != P.TypeOf(b) || a.Invalid? {
      return false;
    }
    match a
    case Number(n) => equal := n == b.n;
    case String(s) => equal := StrCmp(s, b.s) == 0;
    case Array(xs) =>
      var i := 0;
      while i < |xs| && i < |b.items|
        invariant i <= |xs| && i <= |b.items|
        invariant C.LookupItems(xs, b.items, cs) == C.LookupItems(xs[i..], b.items[i..], cs)
      {
        hide C.LookupCompare;
        DropDrop(xs, i, 1);
        DropDrop(b.items, i, 1);
        equal := LookupCompare(xs[i], b.items[i], cs);
        if !equal {
          return;
        }
        i := i + 1;
      }
      equal := i == |xs| == |b.items|;
    case Object(ms) =>
      equal := LookupEach(ms, b.members, cs);
      if equal {
        equal := LookupEach(b.members, ms, cs);
      }
    case _ => equal := true;
  }

  /** One of the two loops over the members of an object. */
  method LookupEach(ms: seq<Member>, ns: seq<Member>, cs: bool) returns (equal: bool)
    ensures equal == C.LookupMembers(ms, ns, cs)
    decreases C.SizeMembers(ms) + C.SizeMembers(ns), 1
  {
    hide C.LookupCompare;
    for i := 0 to |ms|
      invariant C.LookupMembers(ms, ns, cs) == C.LookupMembers(ms[i..], ns, cs)
    {
      DropDrop(ms, i, 1);
      var k := FindKey(ns, ms[i].name, cs);
      if k >= |ns| {
        return false;
      }
      equal := LookupCompare(ms[i].item, ns[k].item, cs);
      if !equal {
        return;
      }
    }
    equal := true;
  }

  /** `create_patches`: what it appends to the array of patches. */
  method CreatePatches(patches: seq<Json>, path: string, from: Json, to: Json, cs: bool) returns (result: seq<Json>)
    ensures result == patches + P.CreatePatches(path, from, to, cs)
    decreases from, 1
  {
    result := patches;
    NoSuffix(patches);
    if P.TypeOf(from) != P.TypeOf(to) {
      return patches + [P.ComposePatch("replace", path, None, Some(to))];
    }
    match from
    case Number(n) =>
      if n != to.n {
        result := patches + [P.ComposePatch("replace", path, None, Some(to))];
      }
    case String(s) =>
      if StrCmp(s, to.s) != 0 {
        result := patches + [P.ComposePatch("replace", path, None, Some(to))];
      }
    case Array(items) =>
      result := CreateForItems(patches, path, items, to.items, cs);
    case Object(members) =>
      C.SortKeepsBelow(members, cs, from);
      result := CreateForMembers(patches, path,
                                 SortList(members, NameOf, cs), SortList(to.members, NameOf, cs), cs, from);
    case _ =>
  }

  /** The three loops over arrays. */
  method CreateForItems(patches: seq<Json>, path: string, xs: seq<Json>, ys: seq<Json>, cs: bool)
    returns (result: seq<Json>)
    ensures result == patches + P.CreateForItems(path, xs, ys, 0, cs)
    decreases xs, 0
  {
    hide P.CreatePatches, P.ComposePatch, Decimal;
    result := patches;
    ghost var whole := patches + P.CreateForItems(path, xs, ys, 0, cs);
    var index := 0;
    while index < |xs| && index < |ys|
      invariant index <= |xs| && index <= |ys|
      invariant result + P.CreateForItems(path, xs[index..], ys[index..], index, cs) == whole
    {
      DropDrop(xs, index, 1);
      DropDrop(ys, index, 1);
      ghost var before := result;
      result := CreatePatches(result, path + "/" + Decimal(index), xs[index], ys[index], cs);
      Assoc(before, P.CreatePatches(path + "/" + Decimal(index), xs[index], ys[index], cs),
            P.CreateForItems(path, xs[index + 1..], ys[index + 1..], index + 1, cs));
      index := index + 1;
    }
    var i := index;
    while i < |xs|
      invariant index <= i <= |xs|
      invariant index < |xs| ==> ys[index..] == [] && result + P.RemoveRest(path, |xs| - i, index) == whole
      invariant index == |xs| ==> result + P.AppendRest(path, ys[index..]) == whole
    {
      Assoc(result, [P.ComposePatch("remove", path, Some(Decimal(index)), None)],
            P.RemoveRest(path, |xs| - i - 1, index));
      result := result + [P.ComposePatch("remove", path, Some(Decimal(index)), None)];
      i := i + 1;
    }
    NoSuffix(result);
    while index < |ys|
      invariant index <= |ys| && result + P.AppendRest(path, ys[index..]) == whole
    {
      DropDrop(ys, index, 1);
      Assoc(result, [P.ComposePatch("add", path, Some("-"), Some(ys[index]))], P.AppendRest(path, ys[index + 1..]));
      result := result + [P.ComposePatch("add", path, Some("-"), Some(ys[index]))];
      index := index + 1;
    }
    NoSuffix(result);
  }

  /** The loop over two sorted objects. */
  method CreateForMembers(patches: seq<Json>, path: string, ms: seq<Member>, ns: seq<Member>, cs: bool,
                          ghost owner: Json)
    returns (result: seq<Json>)
    requires forall m :: m in ms ==> m.item < owner
    ensures result == patches + P.CreateForMembers(path, ms, ns, cs, owner)
    decreases owner, 0
  {
    hide P.CreatePatches, P.CreateForMembers, P.ComposePatch, Encode, Compare;
    result := patches;
    ghost var whole := patches + P.CreateForMembers(path, ms, ns, cs, owner);
    var i, k := 0, 0;
    DropDrop(ms, 0, 0);
    DropDrop(ns, 0, 0);
    while i < |ms| || k < |ns|
      invariant i <= |ms| && k <= |ns|
      invariant result + P.CreateForMembers(path, ms[i..], ns[k..], cs, owner) == whole
      decreases |ms| - i + |ns| - k
    {
      ghost var before := result;
      NextMembers(path, ms, ns, i, k, cs, owner);
      var diff := if i == |ms| then 1 else if k == |ns| then -1 else Compare(ms[i].name, ns[k].name, cs);
      if diff == 0 {
        assert ms[i] in ms;
        result := CreatePatches(result, path + "/" + Encode(ms[i].name), ms[i].item, ns[k].item, cs);
        Assoc(before, P.CreatePatches(path + "/" + Encode(ms[i].name), ms[i].item, ns[k].item, cs),
              P.CreateForMembers(path, ms[i + 1..], ns[k + 1..], cs, owner));
        i, k := i + 1, k + 1;
      } else if diff < 0 {
        result := result + [P.ComposePatch("remove", path, Some(ms[i].name), None)];
        Assoc(before, [P.ComposePatch("remove", path, Some(ms[i].name), None)],
              P.CreateForMembers(path, ms[i + 1..], ns[k..], cs, owner));
        i := i + 1;
      } else {
        result := result + [P.ComposePatch("add", path, Some(ns[k].name), Some(ns[k].item))];
        Assoc(before, [P.ComposePatch("add", path, Some(ns[k].name), Some(ns[k].item))],
              P.CreateForMembers(path, ms[i..], ns[k + 1..], cs, owner));
        k := k + 1;
      }
    }
    assert ms[i..] == [] && ns[k..] == [];
    NoMembers(path, cs, owner);
    NoSuffix(result);
  }

  /** What the specification says about the next members. */
  lemma NextMembers(path: string, ms: seq<Member>, ns: seq<Member>, i: nat, k: nat, cs: bool, owner: Json)
    requires i <= |ms| && k <= |ns| && (i < |ms| || k < |ns|)
    requires forall m :: m in ms ==> m.item < owner
    ensures var diff := if i == |ms| then 1 else if k == |ns| then -1 else Compare(ms[i].name, ns[k].name, cs);
      P.CreateForMembers(path, ms[i..], ns[k..], cs, owner) ==
        if diff == 0 then
          P.CreatePatches(path + "/" + Encode(ms[i].name), ms[i].item, ns[k].item, cs)
          + P.CreateForMembers(path, ms[i + 1..], ns[k + 1..], cs, owner)
        else if diff < 0 then
          [P.ComposePatch("remove", path, Some(ms[i].name), None)]
          + P.CreateForMembers(path, ms[i + 1..], ns[k..], cs, owner)
        else
          [P.ComposePatch("add", path, Some(ns[k].name), Some(ns[k].item))]
          + P.CreateForMembers(path, ms[i..], ns[k + 1..], cs, owner)
  {
    hide P.CreatePatches, P.ComposePatch, Encode, Compare;
    if i < |ms| {
      DropDrop(ms, i, 1);
    }
    if k < |ns| {
      DropDrop(ns, k, 1);
    }
  }

  lemma NoMembers(path: string, cs: bool, owner: Json)
    ensures P.CreateForMembers(path, [], [], cs, owner) == []
  {
  }

  /** `cJSONUtils_ApplyPatches` on a document with its links: patches in order, up to the
      first that fails. */
  method ApplyPatches(tree: Live, patches: Json, cs: bool) returns (r: A.LiveApplied)
    requires Proper(tree)
    ensures r == if patches.Array? then A.ApplyLiveAll(tree, patches.items, cs) else A.LiveApplied(1, tree)
  {
    hide A.ApplyLive;
    if !patches.Array? {
      return A.LiveApplied(1, tree);
    }
    r := A.LiveApplied(0, tree);
    for i := 0 to |patches.items|
      invariant r.LiveApplied? && r.status == 0 && Proper(r.tree)
      invariant A.ApplyLiveAll(tree, patches.items, cs) == A.ApplyLiveAll(r.tree, patches.items[i..], cs)
    {
      DropDrop(patches.items, i, 1);
      r := A.ApplyLive(r.tree, patches.items[i], cs);
      if r.Unstated? || r.status != 0 {
        return;
      }
    }
  }

  /** `merge_patch` on a document with its links. */
  method MergePatch(target: Option<Live>, patch: Json, cs: bool) returns (result: G.LiveMerged)
    ensures result == G.LiveMerge(target, patch, cs)
    decreases patch
  {
    hide G.LiveMerge, D.DuplicateRec, Take, Append, PlainMembers;
    MergeUnfold(target, patch, cs);
    if !patch.Object? {
      var copy := D.DuplicateRec(patch, 0);
      return if copy.None? then G.Failed else G.Merged(A.LiveValue(copy.value));
    }
    var now := if target.Some? && target.value.Members? then target.value else Members([], Tail);
    ghost var start := now;
    for i := 0 to |patch.members|
      invariant now.Members? && start.Members?
      invariant G.LiveMergeMembers(start.members, start.back, patch.members, cs)
        == G.LiveMergeMembers(now.members, now.back, patch.members[i..], cs)
    {
      DropDrop(patch.members, i, 1);
      var p, ms := patch.members[i], now.members;
      var k := FindKey(PlainMembers(ms), p.name, cs);
      var replace_me := None;
      if k < |ms| {
        replace_me := Some(ms[k].item);
        now := Members(RemoveAt(ms, k), Take(now.back, |ms|, k));
      }
      if !p.item.Null? {
        result := MergePatch(replace_me, p.item, cs);
        if !result.Merged? {
          return;
        }
        var r := Append(now.members, now.back, LiveMember(p.name, result.tree));
        if r.Undefined? {
          return G.Lost;
        }
        now := Members(r.list, r.back);
      }
    }
    result := G.Merged(now);
  }

  lemma MergeUnfold(target: Option<Live>, patch: Json, cs: bool)
    ensures G.LiveMerge(target, patch, cs) ==
      if !patch.Object? then
        var copy := D.DuplicateRec(patch, 0);
        if copy.None? then G.Failed else G.Merged(A.LiveValue(copy.value))
      else if target.Some? && target.value.Members? then
        G.LiveMergeMembers(target.value.members, target.value.back, patch.members, cs)
      else G.LiveMergeMembers([], Tail, patch.members, cs)
  {
    hide D.DuplicateRec;
  }

  /** `generate_merge_patch`; the recursive call gets the two items as the comparison has
      left them, and ignores case. */
  method GenerateMergePatch(from: Json, to: Json, cs: bool) returns (patch: Option<Json>)
    ensures patch == M.Generate(from, to, cs)
    decreases C.Size(from)
  {
    hide D.DuplicateRec, C.CompareJson, L.AfterCompare, C.Size, M.Generate, M.GenerateMembers, M.GenerateBelow,
      SortList, StrCmp;
    GenerateUnfold(from, to, cs);
    if !to.Object? || !from.Object? {
      return D.DuplicateRec(to, 0);
    }
    var ms, ns := SortList(from.members, NameOf, cs), SortList(to.members, NameOf, cs);
    ghost var whole := M.GenerateMembers(ms, ns, cs);
    var found: seq<Member> := [];
    var i, k := 0, 0;
    NoPrefix(whole);
    DropDrop(ms, 0, 0);
    DropDrop(ns, 0, 0);
    while i < |ms| || k < |ns|
      invariant i <= |ms| && k <= |ns|
      invariant found + M.GenerateMembers(ms[i..], ns[k..], cs) == whole
      decreases |ms| - i + |ns| - k
    {
      NextEntries(ms, ns, i, k, cs);
      var diff := if i == |ms| then 1 else if k == |ns| then -1 else StrCmp(ms[i].name, ns[k].name);
      ghost var before := found;
      if diff < 0 {
        found := found + M.AddTo(ms[i].name, Some(Null));
        Assoc(before, M.AddTo(ms[i].name, Some(Null)), M.GenerateMembers(ms[i + 1..], ns[k..], cs));
        i := i + 1;
      } else if diff > 0 {
        found := found + M.AddTo(ns[k].name, D.DuplicateRec(ns[k].item, 0));
        Assoc(before, M.AddTo(ns[k].name, D.DuplicateRec(ns[k].item, 0)),
              M.GenerateMembers(ms[i..], ns[k + 1..], cs));
        k := k + 1;
      } else {
        var added: seq<Member> := [];
        var identical, first, second := CompareJson(ms[i].item, ns[k].item, cs);
        if !identical {
          SmallerBelow(from.members, i, ns[k].item, cs);
          BelowUnfold(ms[i].item, ns[k].item, cs);
          var inner := GenerateMergePatch(first, second, false);
          added := M.AddTo(ns[k].name, inner);
        }
        found := found + added;
        Assoc(before, added, M.GenerateMembers(ms[i + 1..], ns[k + 1..], cs));
        i, k := i + 1, k + 1;
      }
    }
    NoEntries(ms[i..], ns[k..], cs);
    NoSuffix(found);
    patch := if found == [] then None else Some(Object(found));
  }

  lemma GenerateUnfold(from: Json, to: Json, cs: bool)
    ensures M.Generate(from, to, cs) ==
      if !to.Object? || !from.Object? then D.DuplicateRec(to, 0)
      else
        var ms, ns := SortList(from.members, NameOf, cs), SortList(to.members, NameOf, cs);
        var found := M.GenerateMembers(ms, ns, cs);
        if found == [] then None else Some(Object(found))
  {
    hide SortList, M.GenerateMembers, D.DuplicateRec;
  }

  lemma BelowUnfold(from: Json, to: Json, cs: bool)
    ensures M.GenerateBelow(from, to, cs)
      == M.Generate(L.AfterCompare(from, to, cs), L.AfterCompare(to, from, cs), false)
  {
    hide M.Generate, L.AfterCompare;
  }

  lemma NoEntries(ms: seq<Member>, ns: seq<Member>, cs: bool)
    requires ms == [] && ns == []
    ensures M.GenerateMembers(ms, ns, cs) == []
  {
  }

  /** What the specification says about the next members. */
  lemma NextEntries(ms: seq<Member>, ns: seq<Member>, i: nat, k: nat, cs: bool)
    requires i <= |ms| && k <= |ns| && (i < |ms| || k < |ns|)
    ensures var diff := if i == |ms| then 1 else if k == |ns| then -1 else StrCmp(ms[i].name, ns[k].name);
      M.GenerateMembers(ms[i..], ns[k..], cs) ==
        if diff < 0 then M.AddTo(ms[i].name, Some(Null)) + M.GenerateMembers(ms[i + 1..], ns[k..], cs)
        else if diff > 0 then
          M.AddTo(ns[k].name, D.DuplicateRec(ns[k].item, 0)) + M.GenerateMembers(ms[i..], ns[k + 1..], cs)
        else
          (if C.CompareJson(ms[i].item, ns[k].item, cs) then []
           else M.AddTo(ns[k].name, M.GenerateBelow(ms[i].item, ns[k].item, cs)))
          + M.GenerateMembers(ms[i + 1..], ns[k + 1..], cs)
  {
    hide D.DuplicateRec, C.CompareJson, M.GenerateBelow, StrCmp;
    if i < |ms| {
      DropDrop(ms, i, 1);
    }
    if k < |ns| {
      DropDrop(ns, k, 1);
    }
  }

  lemma SmallerBelow(members: seq<Member>, i: nat, to: Json, cs: bool)
    requires i < |members|
    ensures var item := SortList(members, NameOf, cs)[i].item;
      C.Size(L.AfterCompare(item, to, cs)) < C.Size(Object(members))
  {
    hide SortList;
    L.AfterSize(SortList(members, NameOf, cs)[i].item, to, cs);
    L.SortedSize(members, cs);
  }

  /** `cJSON_Duplicate_rec`: the children are duplicated one by one, up to the depth
      allowed. */
  method Duplicate(j: Json, depth: nat) returns (copy: Option<Json>)
    ensures copy == D.DuplicateRec(j, depth)
    decreases j, 1
  {
    match j
    case Array(items) =>
      var copies := DuplicateItems(items, depth);
      copy := if copies.None? then None else Some(Array(copies.value));
    case Object(members) =>
      var copies := DuplicateMembers(members, depth);
      copy := if copies.None? then None else Some(Object(copies.value));
    case _ => copy := Some(j);
  }

  function Joined<T>(done: seq<T>, rest: Option<seq<T>>): Option<seq<T>>
  {
    if rest.None? then None else Some(done + rest.value)
  }

  lemma JoinedOne<T>(done: seq<T>, x: T, rest: Option<seq<T>>)
    ensures Joined(done + [x], rest) == Joined(done, if rest.None? then None else Some([x] + rest.value))
  {
    if rest.Some? {
      Assoc(done, [x], rest.value);
    }
  }

  lemma JoinedEnds<T>(done: seq<T>, rest: Option<seq<T>>)
    ensures Joined([], rest) == rest && Joined(done, Some([])) == Some(done)
  {
    NoSuffix(done);
    if rest.Some? {
      NoPrefix(rest.value);
    }
  }

  method DuplicateItems(items: seq<Json>, depth: nat) returns (copies: Option<seq<Json>>)
    ensures copies == D.DuplicateItems(items, depth)
    decreases items, 0
  {
    hide D.DuplicateRec;
    var done := [];
    JoinedEnds(done, D.DuplicateItems(items, depth));
    for i := 0 to |items|
      invariant D.DuplicateItems(items, depth) == Joined(done, D.DuplicateItems(items[i..], depth))
    {
      DropDrop(items, i, 1);
      if depth >= D.CIRCULAR_LIMIT {
        return None;
      }
      var copy := Duplicate(items[i], depth + 1);
      if copy.None? {
        return None;
      }
      JoinedOne(done, copy.value, D.DuplicateItems(items[i + 1..], depth));
      done := done + [copy.value];
    }
    JoinedEnds(done, None);
    copies := Some(done);
  }

  method DuplicateMembers(members: seq<Member>, depth: nat) returns (copies: Option<seq<Member>>)
    ensures copies == D.DuplicateMembers(members, depth)
    decreases members, 0
  {
    hide D.DuplicateRec;
    var done := [];
    JoinedEnds(done, D.DuplicateMembers(members, depth));
    for i := 0 to |members|
      invariant D.DuplicateMembers(members, depth) == Joined(done, D.DuplicateMembers(members[i..], depth))
    {
      DropDrop(members, i, 1);
      if depth >= D.CIRCULAR_LIMIT {
        return None;
      }
      var copy := Duplicate(members[i].item, depth + 1);
      if copy.None? {
        return None;
      }
      JoinedOne(done, Member(members[i].name, copy.value), D.DuplicateMembers(members[i + 1..], depth));
      done := done + [Member(members[i].name, copy.value)];
    }
    JoinedEnds(done, None);
    copies := Some(done);
  }
}
