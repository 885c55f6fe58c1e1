/** Documents on which an add reports success and is lost. */
module LiveLimits {
  import opened Text
  import opened Sort
  import opened Json
  import opened Links
  import opened Comparison
  import opened Pointer
  import opened Duplicate
  import opened Patch
  import opened PatchKeys
  import opened PatchSteps
  import opened LiveTrees
  import opened LivePatch
  import opened LiveMerging
  import opened CreateLeaves

  const ITEM_A := LiveMember("a", Atom(Number(2)))
  const ITEM_B := LiveMember("b", Atom(Number(1)))
  const TESTED := Object([Member("a", Number(2)), Member("b", Number(1))])

  lemma TwoPlain(x: LiveMember, y: LiveMember, back: Back)
    requires x.item.Atom? && y.item.Atom? && !x.item.value.Array? && !y.item.value.Array?
    requires !x.item.value.Object? && !y.item.value.Object? && BackFits(back, 2)
    ensures Proper(Members([x, y], back))
    ensures Plain(Members([x, y], back)) == Object([Member(x.name, x.item.value), Member(y.name, y.item.value)])
    ensures PlainMembers([x, y]) == [Member(x.name, x.item.value), Member(y.name, y.item.value)]
  {
    ObjectViews([x, y], back);
    assert PlainMember(x) == Member(x.name, x.item.value) && PlainMember(y) == Member(y.name, y.item.value);
    assert PlainMembers([x, y]) == [PlainMember(x), PlainMember(y)];
  }

  lemma SortedLinks()
    ensures Unnumber(SortItems([ITEM_B, ITEM_A], true)) == [ITEM_A, ITEM_B]
    ensures SortedBack(Tail, [ITEM_B, ITEM_A], true) == Nowhere
  {
    hide SortList;
    assert WithPlaces([ITEM_B, ITEM_A]) == [Numbered(0, ITEM_B), Numbered(1, ITEM_A)];
    SwapSorted(Numbered(0, ITEM_B), Numbered(1, ITEM_A), NumberedName, true);
    var ns := [Numbered(1, ITEM_A), Numbered(0, ITEM_B)];
    assert SortItems([ITEM_B, ITEM_A], true) == ns && Unnumber(ns) == [ITEM_A, ITEM_B];
  }

  lemma TestedSorts()
    ensures Proper(Members([ITEM_B, ITEM_A], Tail))
    ensures LiveAfter(Members([ITEM_B, ITEM_A], Tail), TESTED, true) == Members([ITEM_A, ITEM_B], Nowhere)
  {
    hide SortList, SortedBack, SortItems;
    var tree := Members([ITEM_B, ITEM_A], Tail);
    TwoPlain(ITEM_B, ITEM_A, Tail);
    KeptSorted(TESTED.members[0], TESTED.members[1], NameOf, true);
    SortedLinks();
    LiveAfterIs(tree, [ITEM_B, ITEM_A], Tail, TESTED.members, true);
    WalkKeepsAtoms(tree);
  }

  lemma WalkKeepsAtoms(owner: Live)
    requires forall m :: m in [ITEM_A, ITEM_B] ==> m.item < owner
    ensures LiveAfterMembers([ITEM_A, ITEM_B], TESTED.members, true, owner) == [ITEM_A, ITEM_B]
  {
    StrCmpZero("a", "a");
    StrCmpZero("b", "b");
    assert [ITEM_A, ITEM_B][1..] == [ITEM_B] && [ITEM_B][1..] == [];
    assert TESTED.members[1..] == [TESTED.members[1]] && [TESTED.members[1]][1..] == [];
    assert LiveAfterMembers([ITEM_B], [TESTED.members[1]], true, owner)
      == [ITEM_B] + LiveAfterMembers([], [], true, owner);
  }

  lemma TestSucceeds()
    ensures CompareJson(Object([Member("b", Number(1)), Member("a", Number(2))]), TESTED, true)
  {
    hide SortList;
    var a, b := Member("a", Number(2)), Member("b", Number(1));
    var tree := Object([b, a]);
    SwapSorted(b, a, NameOf, true);
    KeptSorted(a, b, NameOf, true);
    SortKeepsBelow([b, a], true, tree);
    StrCmpZero("a", "a");
    StrCmpZero("b", "b");
    assert [a, b][1..] == [b] && [b][1..] == [];
    assert CompareMembers([b], [b], true, tree);
  }

  lemma TestSorts()
    ensures Proper(Members([ITEM_B, ITEM_A], Tail))
    ensures ApplyLive(Members([ITEM_B, ITEM_A], Tail), ComposePatch("test", "", None, Some(TESTED)), true)
      == LiveApplied(0, Members([ITEM_A, ITEM_B], Nowhere))
  {
    hide ComposePatch, LiveAfter, CompareJson, Plain, GetMember, DecodeOperation;
    var tree, test := Members([ITEM_B, ITEM_A], Tail), ComposePatch("test", "", None, Some(TESTED));
    TwoPlain(ITEM_B, ITEM_A, Tail);
    TestedHeight();
    ReadPatch("test", "", None, Some(TESTED));
    ReadTest(test);
    TestedSorts();
    TestSucceeds();
    assert Resolve(Plain(tree), "", true) == Some([]);
  }

  lemma ReadTest(test: Json)
    requires GetMember(test, "op", true) == Some(String("test"))
    ensures DecodeOperation(test, true) == TEST
  {
  }

  lemma TestedHeight()
    ensures Height(TESTED) <= CIRCULAR_LIMIT
  {
    assert TESTED.members[1..] == [TESTED.members[1]] && [TESTED.members[1]][1..] == [];
    assert HeightMembers([TESTED.members[1]]) <= 1;
  }

  lemma AddLost()
    ensures Proper(Members([ITEM_A, ITEM_B], Nowhere))
    ensures ApplyLive(Members([ITEM_A, ITEM_B], Nowhere), ComposePatch("add", "", Some("c"), Some(Number(3))), true)
      == LiveApplied(0, Members([ITEM_A, ITEM_B], Nowhere))
  {
    hide ComposePatch, Plain, GetMember, DecodeOperation, LiveAddAtPath, PatchValue, Encode;
    TwoPlain(ITEM_A, ITEM_B, Nowhere);
    PlainSurvives("c");
    ReadPatch("add", "", Some("c"), Some(Number(3)));
    ReadValue("add", "", Some("c"), Number(3));
    ReadAdd(ComposePatch("add", "", Some("c"), Some(Number(3))));
    NowhereLoses(LiveValue(Number(3)));
    assert "" + "/" + Encode("c") == "/c";
  }

  lemma ReadAdd(add: Json)
    requires GetMember(add, "op", true) == Some(String("add"))
    ensures DecodeOperation(add, true) == ADD
  {
  }

  lemma NowhereLoses(value: Live)
    requires Proper(value)
    ensures Proper(Members([ITEM_A, ITEM_B], Nowhere))
    ensures LiveAddAtPath(Members([ITEM_A, ITEM_B], Nowhere), "/c", value, true)
      == LiveApplied(0, Members([ITEM_A, ITEM_B], Nowhere))
  {
    hide Plain, FindKey, LastSlash, DecodeInPlace, PlainMembers;
    var tree := Members([ITEM_A, ITEM_B], Nowhere);
    TwoPlain(ITEM_A, ITEM_B, Nowhere);
    PlainSurvives("c");
    DecodeExact("c");
    SplitAtSlash("", "c");
    assert "" + "/" + "c" == "/c";
    assert Resolve(Plain(tree), "", true) == Some([]);
    NoC();
  }

  lemma NoC()
    ensures FindKey([Member("a", Number(2)), Member("b", Number(1))], "c", true) == 2
  {
    var ms := [Member("a", Number(2)), Member("b", Number(1))];
    assert ms[0].name == "a" && ms[1].name == "b" && "c" != "a" && "c" != "b";
    assert ms[1..] == [ms[1]];
  }

  /** A TEST that succeeds moves `b` behind `a`; the add of `c` then reports success and
      adds nothing. */
  lemma LostAdd()
    ensures var test := ComposePatch("test", "", None, Some(TESTED));
      var add := ComposePatch("add", "", Some("c"), Some(Number(3)));
      ApplyLiveAll(Members([ITEM_B, ITEM_A], Tail), [test, add], true)
        == LiveApplied(0, Members([ITEM_A, ITEM_B], Nowhere))
  {
    hide ComposePatch, ApplyLive;
    var test := ComposePatch("test", "", None, Some(TESTED));
    var add := ComposePatch("add", "", Some("c"), Some(Number(3)));
    TestSorts();
    AddLost();
    var tree, left := Members([ITEM_B, ITEM_A], Tail), Members([ITEM_A, ITEM_B], Nowhere);
    assert [test, add][1..] == [add] && [add][1..] == [];
    assert ApplyLiveAll(left, [add], true) == LiveApplied(0, left);
    assert ApplyLiveAll(tree, [test, add], true) == ApplyLiveAll(left, [add], true);
  }

  /** The same after generating patches: `c` is new, `b` and `a` change places in the
      document, and the one patch adds nothing to it. */
  lemma LostOnSource()
    ensures var to := Object(TESTED.members + [Member("c", Number(3))]);
      var document := Members([ITEM_B, ITEM_A], Tail);
      var left, patches := LiveCreated(document, to), CreatePatches("", Plain(document), to, true);
      left == Members([ITEM_A, ITEM_B], Nowhere) && ApplyLiveAll(left, patches, true) == LiveApplied(0, left)
  {
    hide ComposePatch, ApplyLive, SortList, SortedBack, LiveCreated, CreatePatches, Plain;
    var a, b, c := Member("a", Number(2)), Member("b", Number(1)), Member("c", Number(3));
    var document, left := Members([ITEM_B, ITEM_A], Tail), Members([ITEM_A, ITEM_B], Nowhere);
    var add := ComposePatch("add", "", Some("c"), Some(Number(3)));
    assert TESTED.members + [c] == [a, b, c];
    TwoPlain(ITEM_B, ITEM_A, Tail);
    SortedThree(a, b, c);
    CreatedLinks(document, [a, b, c]);
    CreatedAdd(a, b, c, add);
    AddLost();
    assert [add][1..] == [];
  }

  lemma SortedThree(a: Member, b: Member, c: Member)
    requires a.name == "a" && b.name == "b" && c.name == "c"
    ensures SortList([a, b, c], NameOf, true) == [a, b, c]
  {
    assert Ascending([a, b, c], NameOf, true) by {
      assert StrCmp("a", "b") < 0 && StrCmp("b", "c") < 0;
    }
  }

  lemma CreatedLinks(document: Live, ns: seq<Member>)
    requires document == Members([ITEM_B, ITEM_A], Tail) && |ns| == 3
    requires ns[0] == Member("a", Number(2)) && ns[1] == Member("b", Number(1))
    requires SortList(ns, NameOf, true) == ns
    ensures LiveCreated(document, Object(ns)) == Members([ITEM_A, ITEM_B], Nowhere)
  {
    hide SortList, SortedBack;
    SortedLinks();
    LiveCreatedIs(document, [ITEM_B, ITEM_A], Tail, ns);
    StrCmpZero("a", "a");
    StrCmpZero("b", "b");
    assert [ITEM_A, ITEM_B][1..] == [ITEM_B] && [ITEM_B][1..] == [];
    assert LiveCreatedMembers([ITEM_B], ns[1..], document) == [ITEM_B] + LiveCreatedMembers([], ns[2..], document);
  }

  lemma CreatedAdd(a: Member, b: Member, c: Member, add: Json)
    requires a == Member("a", Number(2)) && b == Member("b", Number(1)) && c == Member("c", Number(3))
    requires add == ComposePatch("add", "", Some("c"), Some(Number(3)))
    requires SortList([a, b, c], NameOf, true) == [a, b, c]
    ensures CreatePatches("", Object([b, a]), Object([a, b, c]), true) == [add]
  {
    hide SortList, Encode;
    SwapSorted(b, a, NameOf, true);
    CreatePairs("", [b, a], [a, b, c]);
    StrCmpZero("a", "a");
    StrCmpZero("b", "b");
    var owner := Object([b, a]);
    assert [a, b][1..] == [b] && [b][1..] == [] && [a, b, c][1..] == [b, c] && [b, c][1..] == [c] && [c][1..] == [];
    assert CreateForMembers("", [], [], true, owner) == [];
    assert CreateForMembers("", [], [c], true, owner) == [add] + [];
    assert CreateForMembers("", [b], [b, c], true, owner) == [] + [add];
    assert CreateForMembers("", [a, b], [a, b, c], true, owner) == [] + [add];
  }

  /** A merge into what a sort has left of `b` and `a` loses `c` as well. */
  lemma LostInMerge()
    ensures SortedBack(Tail, [ITEM_B, ITEM_A], true) == Nowhere
    ensures Unnumber(SortItems([ITEM_B, ITEM_A], true)) == [ITEM_A, ITEM_B]
    ensures var left := Members([ITEM_A, ITEM_B], Nowhere);
      LiveMerge(Some(left), Object([Member("c", Number(3))]), true) == Merged(left)
  {
    hide SortItems, SortedBack, PlainMembers, FindKey;
    SortedLinks();
    TwoPlain(ITEM_A, ITEM_B, Nowhere);
    NoC();
    var c := Member("c", Number(3));
    assert [c][1..] == [];
    assert LiveMergeMembers([ITEM_A, ITEM_B], Nowhere, [], true) == Merged(Members([ITEM_A, ITEM_B], Nowhere));
  }
}
