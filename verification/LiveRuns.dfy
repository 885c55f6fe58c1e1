/** Runs of patches on documents with their links: when no add is lost, what a TEST does
    to later adds, and the round trip of generated patches. */
module LiveRuns {
  import opened Text
  import opened Sort
  import opened Json
  import opened Links
  import opened Comparison
  import opened Pointer
  import opened Duplicate
  import opened Patch
  import opened PatchSteps
  import opened PatchCases
  import opened PatchExact
  import opened LiveTrees
  import opened LivePatch

  // --------------------------------------------------------- whole documents

  lemma {:induction false} WholeReceives(parent: Live, child: string, cs: bool)
    requires Whole(parent)
    ensures Receives(parent, child, cs)
  {
    hide FindKey;
  }

  lemma {:induction false} WholeReceivesAt(tree: Live, path: string, cs: bool)
    requires Whole(tree) && Proper(tree)
    ensures ReceivesAt(tree, path, cs)
  {
    hide Resolve, DecodeInPlace, Whole, Plain, LastSlash, Receives;
    var slash := LastSlash(path);
    if slash.Some? {
      var position := Resolve(Plain(tree), path[..slash.value], cs);
      if position.Some? {
        LiveAtWhole(tree, position.value);
        WholeReceives(LiveAt(tree, position.value), DecodeInPlace(path[slash.value + 1..]), cs);
      }
    }
  }

  /** On a whole document every patch does what it does on the tree. */
  lemma {:induction false} WholeFits(tree: Live, patch: Json, cs: bool)
    requires Whole(tree) && Proper(tree)
    ensures AddFits(tree, patch, cs)
  {
    hide LiveDetachPath, DetachPath, Whole, Plain, GetMember, DecodeOperation, PatchValue, Resolve, NodeAt,
      DuplicateRec, Proper, ReceivesAt;
    var target, from := GetMember(patch, "path", cs), GetMember(patch, "from", cs);
    if target.Some? && target.value.String? {
      var path := target.value.s;
      WholeReceivesAt(tree, path, cs);
      DetachPathAlike(tree, path, cs);
      var old_item := LiveDetachPath(tree, path, cs);
      if old_item.LiveDetached? {
        WholeReceivesAt(old_item.rest, path, cs);
      }
      if from.Some? && from.value.String? {
        DetachPathAlike(tree, from.value.s, cs);
        var moved := LiveDetachPath(tree, from.value.s, cs);
        if moved.LiveDetached? {
          WholeReceivesAt(moved.rest, path, cs);
        }
      }
    }
  }

  /** A run without a TEST loses nothing. */
  lemma {:induction false} NoTestsFit(tree: Live, patches: seq<Json>, cs: bool)
    requires Whole(tree) && Proper(tree) && forall p :: p in patches ==> DecodeOperation(p, cs) != TEST
    ensures AddsFit(tree, patches, cs)
    decreases |patches|
  {
    hide ApplyLive, ApplyPatch, DecodeOperation, Whole, Plain, Proper, AddFits;
    if patches != [] {
      WholeFits(tree, patches[0], cs);
      ApplyExact(tree, patches[0], cs);
      assert patches[0] in patches;
      var first := ApplyLive(tree, patches[0], cs);
      if first.status == 0 {
        NoTestsFit(first.tree, patches[1..], cs);
      }
    }
  }

  // ------------------------------------------------------ generated patches

  predicate NoTest(patches: seq<Json>)
  {
    forall p :: p in patches ==> DecodeOperation(p, true) != TEST
  }

  lemma {:induction false} ComposedNoTest(operation: string, path: string, suffix: Option<string>, value: Option<Json>)
    requires operation != "test"
    ensures NoTest([ComposePatch(operation, path, suffix, value)])
  {
    hide ComposePatch, GetMember;
    ReadPatch(operation, path, suffix, value);
  }

  lemma NoTestConcat(ps: seq<Json>, qs: seq<Json>)
    requires NoTest(ps) && NoTest(qs)
    ensures NoTest(ps + qs)
  {
    hide DecodeOperation;
  }

  lemma NoneNoTest()
    ensures NoTest([])
  {
  }

  lemma {:induction false} CreatedNoTest(path: string, from: Json, to: Json)
    ensures NoTest(CreatePatches(path, from, to, true))
    decreases from, 1, 0
  {
    hide NoTest, ComposePatch;
    NoneNoTest();
    ComposedNoTest("replace", path, None, Some(to));
    if TypeOf(from) == TypeOf(to) {
      match from {
        case Array(items) => ItemsNoTest(path, items, to.items, 0);
        case Object(members) =>
          SortKeepsBelow(members, true, from);
          MembersNoTest(path, SortList(members, NameOf, true), SortList(to.members, NameOf, true), from);
        case _ =>
      }
    }
  }

  lemma {:induction false} ItemsNoTest(path: string, xs: seq<Json>, ys: seq<Json>, index: nat)
    ensures NoTest(CreateForItems(path, xs, ys, index, true))
    decreases xs, 0, 0
  {
    hide NoTest, ComposePatch, Decimal;
    if xs == [] {
      RestNoTest(path, ys);
    } else if ys == [] {
      RemovedNoTest(path, |xs|, index);
    } else {
      CreatedNoTest(path + "/" + Decimal(index), xs[0], ys[0]);
      ItemsNoTest(path, xs[1..], ys[1..], index + 1);
      NoTestConcat(CreatePatches(path + "/" + Decimal(index), xs[0], ys[0], true),
                   CreateForItems(path, xs[1..], ys[1..], index + 1, true));
    }
  }

  lemma {:induction false} RemovedNoTest(path: string, count: nat, index: nat)
    ensures NoTest(RemoveRest(path, count, index))
  {
    hide NoTest, ComposePatch, Decimal;
    NoneNoTest();
    if count > 0 {
      ComposedNoTest("remove", path, Some(Decimal(index)), None);
      RemovedNoTest(path, count - 1, index);
      NoTestConcat([ComposePatch("remove", path, Some(Decimal(index)), None)], RemoveRest(path, count - 1, index));
    }
  }

  lemma {:induction false} RestNoTest(path: string, ys: seq<Json>)
    ensures NoTest(AppendRest(path, ys))
  {
    hide NoTest, ComposePatch;
    NoneNoTest();
    if ys != [] {
      ComposedNoTest("add", path, Some("-"), Some(ys[0]));
      RestNoTest(path, ys[1..]);
      NoTestConcat([ComposePatch("add", path, Some("-"), Some(ys[0]))], AppendRest(path, ys[1..]));
    }
  }

  lemma {:induction false} MembersNoTest(path: string, ms: seq<Member>, ns: seq<Member>, owner: Json)
    requires forall m :: m in ms ==> m.item < owner
    ensures NoTest(CreateForMembers(path, ms, ns, true, owner))
    decreases owner, 0, |ms| + |ns|
  {
    hide NoTest, ComposePatch, Compare, Encode;
    NoneNoTest();
    if ms != [] || ns != [] {
      var diff := if ms == [] then 1 else if ns == [] then -1 else Compare(ms[0].name, ns[0].name, true);
      if diff == 0 {
        CreatedNoTest(path + "/" + Encode(ms[0].name), ms[0].item, ns[0].item);
        MembersNoTest(path, ms[1..], ns[1..], owner);
        NoTestConcat(CreatePatches(path + "/" + Encode(ms[0].name), ms[0].item, ns[0].item, true),
                     CreateForMembers(path, ms[1..], ns[1..], true, owner));
      } else if diff < 0 {
        ComposedNoTest("remove", path, Some(ms[0].name), None);
        MembersNoTest(path, ms[1..], ns, owner);
        NoTestConcat([ComposePatch("remove", path, Some(ms[0].name), None)],
                     CreateForMembers(path, ms[1..], ns, true, owner));
      } else {
        ComposedNoTest("add", path, Some(ns[0].name), Some(ns[0].item));
        MembersNoTest(path, ms, ns[1..], owner);
        NoTestConcat([ComposePatch("add", path, Some(ns[0].name), Some(ns[0].item))],
                     CreateForMembers(path, ms, ns[1..], true, owner));
      }
    }
  }

  /** The round trip on a document: applied to a whole copy of `from`, the generated
      patches lose no add, and lead to the value of `to` exactly when `from` is
      restorable. */
  lemma {:induction false} LiveRoundTrip(document: Live, from: Json, to: Json)
    requires Whole(document) && Proper(document) && Plain(document) == from
    requires WellFormed(from, true) && WellFormed(to, true)
    requires Height(to) <= CIRCULAR_LIMIT && Addressable(from)
    ensures var r := ApplyLiveAll(document, CreatePatches("", from, to, true), true);
      && r.LiveApplied?
      && (r.status == 0 && Denote(Plain(r.tree), true) == Denote(to, true) <==> Restorable(from, from, to))
  {
    hide CreatePatches, ApplyAll, ApplyLiveAll, Denote, Restorable, DecodeOperation, AddsFit, WellFormed, Whole, Plain,
      Proper;
    var patches := CreatePatches("", from, to, true);
    CreatedNoTest("", from, to);
    NoTestsFit(document, patches, true);
    RunExact(document, patches, true);
    assert RunAgrees(document, patches, |patches|, true);
    assert patches[..|patches|] == patches;
    RoundTripExact(from, to);
  }

  // --------------------------------------------------- adding after a test

  /** The sort leaves the first and the last member where they were. */
  predicate EndsKept(ms: seq<LiveMember>, cs: bool)
  {
    EndsStay(WithPlaces(ms), SortItems(ms, cs))
  }

  /** With distinct keys the ends stay when the first and the last key do. */
  lemma {:induction false} EndsByName(ms: seq<LiveMember>, cs: bool)
    requires Distinct(PlainMembers(ms), NameOf, true) && |ms| > 1
    ensures var plain := PlainMembers(ms);
      var sorted := SortList(plain, NameOf, cs);
      EndsKept(ms, cs) <==>
        sorted[0].name == plain[0].name && sorted[|ms| - 1].name == plain[|ms| - 1].name
  {
    hide SortList;
    var plain, ns := PlainMembers(ms), SortItems(ms, cs);
    SortPlain(ms, cs);
    SortedFrom(ms, cs);
    assert ns[0] in WithPlaces(ms) && ns[|ns| - 1] in WithPlaces(ms);
    var sorted := SortList(plain, NameOf, cs);
    assert sorted[0] == PlainMember(ns[0].member) && sorted[|ms| - 1] == PlainMember(ns[|ms| - 1].member);
    SameIndex(ms, ns[0], 0);
    SameIndex(ms, ns[|ms| - 1], |ms| - 1);
  }

  lemma {:induction false} SameIndex(ms: seq<LiveMember>, n: Numbered, i: nat)
    requires Distinct(PlainMembers(ms), NameOf, true) && n in WithPlaces(ms) && i < |ms|
    ensures n.index == i <==> n.member.name == PlainMembers(ms)[i].name
  {
    var k :| 0 <= k < |ms| && WithPlaces(ms)[k] == n;
    if k != i {
      DistinctAt(PlainMembers(ms), k, i, true);
    }
  }

  lemma {:induction false} BackAfterSort(ms: seq<LiveMember>, cs: bool)
    ensures SortedBack(Tail, ms, cs) == Tail <==> EndsKept(ms, cs)
  {
    hide SortItems, SortBack, EndsStay;
    SortedOnce(ms, cs);
    SortBackExact(Tail, WithPlaces(ms), SortItems(ms, cs));
  }

  lemma {:induction false} FindByNames(xs: seq<Member>, ys: seq<Member>, key: string, cs: bool)
    requires |xs| == |ys| && forall i :: 0 <= i < |xs| ==> xs[i].name == ys[i].name
    ensures FindKey(xs, key, cs) == FindKey(ys, key, cs)
  {
    if xs != [] && !SameKey(key, xs[0].name, cs) {
      FindByNames(xs[1..], ys[1..], key, cs);
    }
  }

  /** An object that a TEST has compared receives a later add exactly when the sort has
      left its ends where they were, or the add replaces the member sorted last. */
  lemma {:induction false} ReceivesAfterTest(ms: seq<LiveMember>, ns: seq<Member>, child: string, cs: bool)
    ensures Receives(LiveAfter(Members(ms, Tail), Object(ns), cs), child, cs) <==>
      || EndsKept(ms, cs)
      || FindKey(SortList(PlainMembers(ms), NameOf, cs), child, cs) == |ms| - 1
  {
    hide SortList, SortItems, LiveAfterMembers, LiveAfter, FindKey, EndsKept, SortedBack, PlainMembers, Unnumber;
    var l := Members(ms, Tail);
    LiveAfterIs(l, ms, Tail, ns, cs);
    SortPlain(ms, cs);
    BackAfterSort(ms, cs);
    var sorted := Unnumber(SortItems(ms, cs));
    var after := LiveAfterMembers(sorted, SortList(ns, NameOf, cs), cs, l);
    FindByNames(PlainMembers(after), PlainMembers(sorted), child, cs);
    if ms == [] {
      EndsOfNone(cs);
    }
  }

  lemma {:induction false} EndsOfNone(cs: bool)
    ensures EndsKept([], cs)
  {
    hide SortList;
  }

  // -------------------------------------------- the same, below any path

  lemma {:induction false} FindTokenByNames(xs: seq<Member>, ys: seq<Member>, token: string, cs: bool)
    requires |xs| == |ys| && forall i :: 0 <= i < |xs| ==> xs[i].name == ys[i].name
    ensures FindToken(xs, token, cs) == FindToken(ys, token, cs)
  {
    hide MatchesToken;
    if xs != [] && !MatchesToken(xs[0].name, token, cs) {
      FindTokenByNames(xs[1..], ys[1..], token, cs);
    }
  }

  lemma {:induction false} UpdatedAt(j: Json, path: Path, item: Json)
    requires ValidPath(j, path) && path != []
    ensures var u := Update(j, path, item);
      && ChildCount(u) == ChildCount(j) && u.Array? == j.Array? && u.Object? == j.Object?
      && Child(u, path[0]) == Update(Child(j, path[0]), path[1..], item)
      && (j.Object? ==> forall i :: 0 <= i < |j.members| ==> u.members[i].name == j.members[i].name)
  {
    hide Update;
    UpdateDefinition(j, path, item);
  }

  lemma {:induction false} UpdateDefinition(j: Json, path: Path, item: Json)
    requires ValidPath(j, path) && path != []
    ensures Update(j, path, item) ==
      var child := Update(Child(j, path[0]), path[1..], item);
      if j.Array? then Array(j.items[path[0] := child])
      else Object(j.members[path[0] := Member(j.members[path[0]].name, child)])
  {
  }

  /** Changing the node a path leads to changes nothing on the way. */
  lemma {:induction false} ResolveKept(j: Json, text: string, item: Json, cs: bool)
    requires Resolve(j, text, cs).Some?
    ensures Resolve(Update(j, Resolve(j, text, cs).value, item), text, cs) == Resolve(j, text, cs)
    decreases |text|
  {
    hide FindToken, DecodeIndex, Update, Child, SkipToken;
    if text != [] && text[0] == '/' {
      var path := Resolve(j, text, cs).value;
      UpdatedAt(j, path, item);
      var child := SelectChild(j, text[1..], cs);
      var u := Update(j, path, item);
      if j.Object? {
        FindTokenByNames(j.members, u.members, text[1..], cs);
      }
      assert SelectChild(u, text[1..], cs) == child;
      ResolveKept(Child(j, child.value), SkipToken(text[1..]), item, cs);
    }
  }

  lemma {:induction false} LiveOfUpdate(l: Live, path: Path, x: Live)
    requires Proper(l) && Proper(x) && ValidPath(Plain(l), path) && ValidPath(Plain(LiveUpdate(l, path, x)), path)
    ensures LiveAt(LiveUpdate(l, path, x), path) == x
    decreases path
  {
    if path != [] {
      if l.Items? {
        LiveOfUpdate(l.items[path[0]], path[1..], x);
      } else {
        LiveOfUpdate(l.members[path[0]].item, path[1..], x);
      }
    }
  }

  /** A TEST of an object anywhere in the document, and an add into that object. */
  lemma {:induction false} TestThenAdd(tree: Live, path: string, ns: seq<Member>, token: string, cs: bool)
    requires Whole(tree) && Proper(tree) && Resolve(Plain(tree), path, cs).Some? && '/' !in token
    requires LiveAt(tree, Resolve(Plain(tree), path, cs).value).Members?
    ensures var ms := LiveAt(tree, Resolve(Plain(tree), path, cs).value).members;
      ReceivesAt(LiveTested(tree, path, Some(Object(ns)), cs), path + "/" + token, cs) <==>
        || EndsKept(ms, cs)
        || FindKey(SortList(PlainMembers(ms), NameOf, cs), DecodeInPlace(token), cs) == |ms| - 1
  {
    hide Resolve, DecodeInPlace, Whole, Plain, Proper, LastSlash, Receives, LiveAfter, LiveUpdate, LiveAt, FindKey,
      SortList, SortItems, EndsKept, PlainMembers;
    var position := Resolve(Plain(tree), path, cs).value;
    var l := LiveAt(tree, position);
    LiveAtWhole(tree, position);
    WholeTail(l);
    var after := LiveAfter(l, Object(ns), cs);
    LiveAfterPlain(l, Object(ns), cs);
    ResolveKept(Plain(tree), path, Plain(after), cs);
    LiveOfUpdate(tree, position, after);
    SplitAtSlash(path, token);
    ReceivesAfterTest(l.members, ns, DecodeInPlace(token), cs);
  }

  lemma {:induction false} WholeTail(l: Live)
    requires Whole(l) && l.Members?
    ensures l.back == Tail
  {
  }
}
