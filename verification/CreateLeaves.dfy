/** What generating patches leaves of `from`: `create_patches` sorts every pair of objects
    it walks, in place, and with it moves what `prev` of a head leads to. */
module CreateLeaves {
  import opened Text
  import opened Sort
  import opened Json
  import opened Links
  import opened Comparison
  import opened CompareLeaves
  import opened Pointer
  import opened Duplicate
  import opened Patch
  import opened PatchCases
  import opened PatchExact
  import opened LiveTrees
  import opened LivePatch

  /** `from` after `create_patches(from, to)`, without its links. */
  function CreatedTree(from: Json, to: Json): Json
    decreases from, 1, 0
  {
    match (from, to)
    case (Array(xs), Array(ys)) => Array(CreatedItems(xs, ys))
    case (Object(ms), Object(ns)) =>
      SortKeepsBelow(ms, true, from);
      Object(CreatedMembers(SortList(ms, NameOf, true), SortList(ns, NameOf, true), from))
    case _ => from
  }

  function CreatedItems(xs: seq<Json>, ys: seq<Json>): (r: seq<Json>)
    ensures |r| == |xs|
    decreases xs, 0, 0
  {
    if xs == [] || ys == [] then xs else [CreatedTree(xs[0], ys[0])] + CreatedItems(xs[1..], ys[1..])
  }

  function CreatedMembers(ms: seq<Member>, ns: seq<Member>, ghost owner: Json): (r: seq<Member>)
    requires forall m :: m in ms ==> m.item < owner
    ensures |r| == |ms| && forall i :: 0 <= i < |ms| ==> r[i].name == ms[i].name
    decreases owner, 0, |ms| + |ns|
  {
    if ms == [] || ns == [] then ms
    else
      var diff := Compare(ms[0].name, ns[0].name, true);
      if diff == 0 then
        [Member(ms[0].name, CreatedTree(ms[0].item, ns[0].item))] + CreatedMembers(ms[1..], ns[1..], owner)
      else if diff < 0 then [ms[0]] + CreatedMembers(ms[1..], ns, owner)
      else CreatedMembers(ms, ns[1..], owner)
  }

  // ------------------------------------------------------------ what is kept

  /** The value stays, and so do distinct keys and sizes an index can reach. */
  ghost predicate Keeps(before: Json, after: Json, d: bool)
  {
    && WellFormed(after, d) && Denote(after, d) == Denote(before, d)
    && (Addressable(before) ==> Addressable(after))
  }

  lemma {:induction false} CreatedKeeps(from: Json, to: Json, d: bool)
    requires WellFormed(from, d)
    ensures Keeps(from, CreatedTree(from, to), d)
    decreases from, 2, 0
  {
    match (from, to) {
      case (Array(xs), Array(ys)) =>
        ItemsKeep(xs, ys, d);
      case (Object(ms), Object(ns)) => ObjectKeeps(from, ms, ns, d);
      case _ =>
    }
  }

  lemma {:induction false} ObjectKeeps(from: Json, ms: seq<Member>, ns: seq<Member>, d: bool)
    requires from == Object(ms) && WellFormed(from, d)
    ensures Keeps(from, CreatedTree(from, Object(ns)), d)
    decreases from, 1, 0
  {
    hide SortList, DenoteMembers, SameKey, CreatedMembers, Distinct;
    SortKeepsBelow(ms, true, from);
    SortedDenotes(ms, true, d);
    var sorted, nsorted := SortList(ms, NameOf, true), SortList(ns, NameOf, true);
    MembersKeep(sorted, nsorted, from, d);
    if Addressable(from) {
      SortAddressable(ms);
      ObjectAddressable(CreatedMembers(sorted, nsorted, from));
    }
  }

  lemma {:induction false} SortAddressable(ms: seq<Member>)
    requires Addressable(Object(ms))
    ensures forall m :: m in SortList(ms, NameOf, true) ==> Addressable(m.item)
  {
    hide SortList;
    forall m | m in SortList(ms, NameOf, true)
      ensures Addressable(m.item)
    {
      SortMembers(ms, NameOf, true, m);
    }
  }

  lemma {:induction false} ObjectAddressable(ms: seq<Member>)
    ensures Addressable(Object(ms)) <==> forall m :: m in ms ==> Addressable(m.item)
  {
    if forall m :: m in ms ==> Addressable(m.item) {
      forall i | 0 <= i < |ms|
        ensures Addressable(ms[i].item)
      {
        assert ms[i] in ms;
      }
    }
  }

  lemma {:induction false} ItemsKeep(xs: seq<Json>, ys: seq<Json>, d: bool)
    requires forall x :: x in xs ==> WellFormed(x, d)
    ensures var r := CreatedItems(xs, ys);
      && (forall x :: x in r ==> WellFormed(x, d)) && DenoteItems(r, d) == DenoteItems(xs, d)
      && ((forall x :: x in xs ==> Addressable(x)) ==> forall x :: x in r ==> Addressable(x))
    decreases xs, 0, 0
  {
    hide WellFormed, Denote, Addressable, CreatedTree;
    if xs != [] && ys != [] {
      InTail(xs);
      CreatedKeeps(xs[0], ys[0], d);
      ItemsKeep(xs[1..], ys[1..], d);
      var r := CreatedItems(xs[1..], ys[1..]);
      TailOfConcat([CreatedTree(xs[0], ys[0])], r);
      NoPrefix(r);
    }
  }

  lemma {:induction false} MembersKeep(ms: seq<Member>, ns: seq<Member>, owner: Json, d: bool)
    requires forall m :: m in ms ==> m.item < owner && WellFormed(m.item, d)
    requires Distinct(ms, NameOf, d)
    ensures var r := CreatedMembers(ms, ns, owner);
      && (forall m :: m in r ==> WellFormed(m.item, d)) && Distinct(r, NameOf, d)
      && DenoteMembers(r, d) == DenoteMembers(ms, d)
      && ((forall m :: m in ms ==> Addressable(m.item)) ==> forall m :: m in r ==> Addressable(m.item))
    decreases owner, 0, |ms| + |ns|
  {
    hide Compare, WellFormed, Denote, SameKey, Distinct, DenoteMembers, Addressable, CreatedTree;
    DistinctNames(ms, CreatedMembers(ms, ns, owner), d);
    if ms != [] && ns != [] {
      var diff := Compare(ms[0].name, ns[0].name, true);
      if diff > 0 {
        MembersKeep(ms, ns[1..], owner, d);
      } else {
        DistinctTail(ms, d);
        InTail(ms);
        CreatedKeeps(ms[0].item, ns[0].item, d);
        var rest := if diff == 0 then ns[1..] else ns;
        MembersKeep(ms[1..], rest, owner, d);
        var m := if diff == 0 then Member(ms[0].name, CreatedTree(ms[0].item, ns[0].item)) else ms[0];
        HeadDenotes(ms, m, CreatedMembers(ms[1..], rest, owner), d);
      }
    }
  }

  // ------------------------------------------------------- the same patches

  /** Once more from what is left comes the same list of patches. */
  lemma {:induction false} CreatedSame(path: string, from: Json, to: Json)
    requires WellFormed(from, true)
    ensures CreatePatches(path, CreatedTree(from, to), to, true) == CreatePatches(path, from, to, true)
    decreases from, 2, 0
  {
    match (from, to) {
      case (Array(xs), Array(ys)) => ItemsSame(path, xs, ys, 0);
      case (Object(ms), Object(ns)) => ObjectSame(path, from, ms, ns);
      case _ =>
    }
  }

  lemma {:induction false} ObjectSame(path: string, from: Json, ms: seq<Member>, ns: seq<Member>)
    requires from == Object(ms) && WellFormed(from, true)
    ensures CreatePatches(path, CreatedTree(from, Object(ns)), Object(ns), true)
      == CreatePatches(path, from, Object(ns), true)
    decreases from, 1, 0
  {
    hide SortList, CreatedMembers, Distinct, CreateForMembers, Compare, CreatedTree, CreatePatches;
    var sorted, nsorted := SortList(ms, NameOf, true), SortList(ns, NameOf, true);
    CreatedObject(ms, ns);
    var r := CreatedMembers(sorted, nsorted, from);
    SortDistinct(ms, NameOf, true);
    AscendingNames(sorted, r);
    CreatePairs(path, ms, ns);
    CreatePairs(path, r, ns);
    SortedDenotes(ms, true, true);
    MembersSame(path, sorted, nsorted, from, Object(r));
  }

  lemma {:induction false} CreatedObject(ms: seq<Member>, ns: seq<Member>)
    ensures forall m :: m in SortList(ms, NameOf, true) ==> m.item < Object(ms)
    ensures CreatedTree(Object(ms), Object(ns))
      == Object(CreatedMembers(SortList(ms, NameOf, true), SortList(ns, NameOf, true), Object(ms)))
  {
    hide SortList, CreatedMembers;
    SortKeepsBelow(ms, true, Object(ms));
  }

  lemma {:induction false} CreatePairs(path: string, ms: seq<Member>, ns: seq<Member>)
    ensures forall m :: m in SortList(ms, NameOf, true) ==> m.item < Object(ms)
    ensures CreatePatches(path, Object(ms), Object(ns), true)
      == CreateForMembers(path, SortList(ms, NameOf, true), SortList(ns, NameOf, true), true, Object(ms))
  {
    hide SortList, CreateForMembers;
    SortKeepsBelow(ms, true, Object(ms));
  }

  /** A list with the names of a strictly ascending one is sorted. */
  lemma {:induction false} AscendingNames(before: seq<Member>, after: seq<Member>)
    requires |before| == |after| && forall i :: 0 <= i < |before| ==> after[i].name == before[i].name
    requires forall i, j :: 0 <= i < j < |before| ==> Compare(NameOf(before[i]), NameOf(before[j]), true) < 0
    ensures SortList(after, NameOf, true) == after
  {
    hide Compare;
    forall i | 0 <= i < |after| - 1
      ensures Compare(NameOf(after[i]), NameOf(after[i + 1]), true) < 0
    {
      assert Compare(NameOf(before[i]), NameOf(before[i + 1]), true) < 0;
    }
  }

  lemma {:induction false} ItemsSame(path: string, xs: seq<Json>, ys: seq<Json>, index: nat)
    requires forall x :: x in xs ==> WellFormed(x, true)
    ensures CreateForItems(path, CreatedItems(xs, ys), ys, index, true) == CreateForItems(path, xs, ys, index, true)
    decreases xs, 0, 0
  {
    hide WellFormed, CreatedTree, CreatePatches, Decimal;
    if xs != [] && ys != [] {
      InTail(xs);
      CreatedSame(path + "/" + Decimal(index), xs[0], ys[0]);
      ItemsSame(path, xs[1..], ys[1..], index + 1);
      assert CreatedItems(xs, ys)[1..] == CreatedItems(xs[1..], ys[1..]);
    }
  }

  lemma {:induction false} MembersSame(path: string, ms: seq<Member>, ns: seq<Member>, owner: Json, left: Json)
    requires forall m :: m in ms ==> m.item < owner && WellFormed(m.item, true)
    requires forall m :: m in CreatedMembers(ms, ns, owner) ==> m.item < left
    ensures CreateForMembers(path, CreatedMembers(ms, ns, owner), ns, true, left)
      == CreateForMembers(path, ms, ns, true, owner)
    decreases owner, 0, |ms| + |ns|
  {
    hide WellFormed, CreatedTree, CreatePatches, Compare, Encode, ComposePatch;
    if ms == [] {
      BehindAll(path, ns, owner, left);
    } else if ns == [] {
      AllRemoved(path, ms, owner, left);
    } else {
      InTail(ms);
      var diff, r := Compare(ms[0].name, ns[0].name, true), CreatedMembers(ms, ns, owner);
      if diff > 0 {
        MembersSame(path, ms, ns[1..], owner, left);
      } else {
        var rest := if diff == 0 then ns[1..] else ns;
        if diff == 0 {
          CreatedSame(path + "/" + Encode(ms[0].name), ms[0].item, ns[0].item);
        }
        assert r[1..] == CreatedMembers(ms[1..], rest, owner);
        InTail(r);
        MembersSame(path, ms[1..], rest, owner, left);
      }
    }
  }

  lemma {:induction false} BehindAll(path: string, ns: seq<Member>, owner: Json, left: Json)
    ensures CreateForMembers(path, [], ns, true, left) == CreateForMembers(path, [], ns, true, owner)
    decreases ns
  {
    hide Encode, ComposePatch;
    if ns != [] {
      BehindAll(path, ns[1..], owner, left);
    }
  }

  lemma {:induction false} AllRemoved(path: string, ms: seq<Member>, owner: Json, left: Json)
    requires forall m :: m in ms ==> m.item < owner && m.item < left
    ensures CreateForMembers(path, ms, [], true, left) == CreateForMembers(path, ms, [], true, owner)
    decreases ms
  {
    hide Encode, ComposePatch;
    if ms != [] {
      AllRemoved(path, ms[1..], owner, left);
    }
  }

  // --------------------------------------------------------- with its links

  /** The document after `create_patches(from, to)`. */
  function LiveCreated(l: Live, to: Json): Live
    decreases l, 1, 0
  {
    match (l, to)
    case (Items(xs), Array(ys)) => Items(LiveCreatedItems(xs, ys))
    case (Members(ms, back), Object(ns)) =>
      SortedInside(ms, true);
      Members(LiveCreatedMembers(Unnumber(SortItems(ms, true)), SortList(ns, NameOf, true), l),
              SortedBack(back, ms, true))
    case _ => l
  }

  function LiveCreatedItems(xs: seq<Live>, ys: seq<Json>): (r: seq<Live>)
    ensures |r| == |xs|
    decreases xs, 0, 0
  {
    if xs == [] || ys == [] then xs else [LiveCreated(xs[0], ys[0])] + LiveCreatedItems(xs[1..], ys[1..])
  }

  function LiveCreatedMembers(ms: seq<LiveMember>, ns: seq<Member>, ghost owner: Live): (r: seq<LiveMember>)
    requires forall m :: m in ms ==> m.item < owner
    ensures |r| == |ms| && forall i :: 0 <= i < |ms| ==> r[i].name == ms[i].name
    decreases owner, 0, |ms| + |ns|
  {
    if ms == [] || ns == [] then ms
    else
      var diff := Compare(ms[0].name, ns[0].name, true);
      if diff == 0 then
        [LiveMember(ms[0].name, LiveCreated(ms[0].item, ns[0].item))] + LiveCreatedMembers(ms[1..], ns[1..], owner)
      else if diff < 0 then [ms[0]] + LiveCreatedMembers(ms[1..], ns, owner)
      else LiveCreatedMembers(ms, ns[1..], owner)
  }

  lemma {:induction false} LiveCreatedPlain(l: Live, to: Json)
    requires Proper(l)
    ensures Proper(LiveCreated(l, to)) && Plain(LiveCreated(l, to)) == CreatedTree(Plain(l), to)
    decreases l, 2, 0
  {
    match (l, to) {
      case (Items(xs), Array(ys)) => LiveItemsPlain(xs, ys);
      case (Members(ms, back), Object(ns)) => LiveObjectPlain(l, ms, back, ns);
      case _ =>
    }
  }

  lemma {:induction false} LiveObjectPlain(l: Live, ms: seq<LiveMember>, back: Back, ns: seq<Member>)
    requires l == Members(ms, back) && Proper(l)
    ensures var r := LiveCreated(l, Object(ns)); Proper(r) && Plain(r) == CreatedTree(Plain(l), Object(ns))
    decreases l, 1, 0
  {
    hide SortList, SortItems, LiveCreatedMembers, CreatedMembers, Unnumber, PlainMembers, LiveCreated, CreatedTree,
      SortedBack;
    var plain := PlainMembers(ms);
    LiveCreatedIs(l, ms, back, ns);
    SortedInside(ms, true);
    SortPlain(ms, true);
    SortedBackFits(back, ms, true);
    CreatedObject(plain, ns);
    LiveMembersPlain(Unnumber(SortItems(ms, true)), SortList(ns, NameOf, true), l, Object(plain));
  }

  lemma {:induction false} LiveCreatedIs(l: Live, ms: seq<LiveMember>, back: Back, ns: seq<Member>)
    requires l == Members(ms, back)
    ensures forall m :: m in Unnumber(SortItems(ms, true)) ==> m.item < l
    ensures LiveCreated(l, Object(ns))
      == Members(LiveCreatedMembers(Unnumber(SortItems(ms, true)), SortList(ns, NameOf, true), l),
                 SortedBack(back, ms, true))
  {
    hide SortList, SortItems, LiveCreatedMembers, Unnumber, SortedBack;
    SortedInside(ms, true);
  }

  lemma {:induction false} LiveItemsPlain(xs: seq<Live>, ys: seq<Json>)
    requires forall x :: x in xs ==> Proper(x)
    ensures forall x :: x in LiveCreatedItems(xs, ys) ==> Proper(x)
    ensures PlainItems(LiveCreatedItems(xs, ys)) == CreatedItems(PlainItems(xs), ys)
    decreases xs, 0, 0
  {
    hide Proper, Plain, LiveCreated, CreatedTree;
    if xs != [] && ys != [] {
      LiveCreatedPlain(xs[0], ys[0]);
      LiveItemsPlain(xs[1..], ys[1..]);
      InTail(xs);
    }
  }

  /** The step of the walk that moves on in `from`. */
  lemma {:induction false} LiveCreatedStep(ms: seq<LiveMember>, ns: seq<Member>, owner: Live)
    requires ms != [] && ns != [] && Compare(ms[0].name, ns[0].name, true) <= 0
    requires forall m :: m in ms ==> m.item < owner
    ensures var diff := Compare(ms[0].name, ns[0].name, true);
      var m := if diff == 0 then LiveMember(ms[0].name, LiveCreated(ms[0].item, ns[0].item)) else ms[0];
      LiveCreatedMembers(ms, ns, owner)
        == [m] + LiveCreatedMembers(ms[1..], if diff == 0 then ns[1..] else ns, owner)
  {
    hide Compare, LiveCreated;
  }

  lemma {:induction false} CreatedStep(ms: seq<Member>, ns: seq<Member>, owner: Json)
    requires ms != [] && ns != [] && Compare(ms[0].name, ns[0].name, true) <= 0
    requires forall m :: m in ms ==> m.item < owner
    ensures var diff := Compare(ms[0].name, ns[0].name, true);
      var m := if diff == 0 then Member(ms[0].name, CreatedTree(ms[0].item, ns[0].item)) else ms[0];
      CreatedMembers(ms, ns, owner) == [m] + CreatedMembers(ms[1..], if diff == 0 then ns[1..] else ns, owner)
  {
    hide Compare, CreatedTree;
  }

  lemma {:induction false} LiveCreatedSkip(ms: seq<LiveMember>, ns: seq<Member>, owner: Live, plain: Json)
    requires ms != [] && ns != [] && Compare(ms[0].name, ns[0].name, true) > 0
    requires forall m :: m in ms ==> m.item < owner
    requires forall m :: m in PlainMembers(ms) ==> m.item < plain
    ensures LiveCreatedMembers(ms, ns, owner) == LiveCreatedMembers(ms, ns[1..], owner)
    ensures CreatedMembers(PlainMembers(ms), ns, plain) == CreatedMembers(PlainMembers(ms), ns[1..], plain)
  {
    hide Compare, CreatedTree, LiveCreated, Plain;
    PlainHead(ms);
  }

  lemma {:induction false} NothingWalked(ms: seq<LiveMember>, ns: seq<Member>, owner: Live, plain: Json)
    requires ms == [] || ns == []
    requires forall m :: m in ms ==> m.item < owner
    requires forall m :: m in PlainMembers(ms) ==> m.item < plain
    ensures LiveCreatedMembers(ms, ns, owner) == ms
    ensures CreatedMembers(PlainMembers(ms), ns, plain) == PlainMembers(ms)
  {
  }

  lemma {:induction false} LiveMembersPlain(ms: seq<LiveMember>, ns: seq<Member>, owner: Live, plain: Json)
    requires forall m :: m in ms ==> m.item < owner && Proper(m.item)
    requires forall m :: m in PlainMembers(ms) ==> m.item < plain
    ensures forall m :: m in LiveCreatedMembers(ms, ns, owner) ==> Proper(m.item)
    ensures PlainMembers(LiveCreatedMembers(ms, ns, owner)) == CreatedMembers(PlainMembers(ms), ns, plain)
    decreases owner, 0, |ms| + |ns|
  {
    hide Compare, Proper, Plain, LiveCreated, CreatedTree, PlainMembers, LiveCreatedMembers, CreatedMembers;
    if ms == [] || ns == [] {
      NothingWalked(ms, ns, owner, plain);
    } else {
      PlainHead(ms);
      InTail(ms);
      var diff := Compare(ms[0].name, ns[0].name, true);
      if diff > 0 {
        LiveCreatedSkip(ms, ns, owner, plain);
        LiveMembersPlain(ms, ns[1..], owner, plain);
      } else {
        LiveCreatedStep(ms, ns, owner);
        CreatedStep(PlainMembers(ms), ns, plain);
        LiveCreatedPlain(ms[0].item, ns[0].item);
        var rest := if diff == 0 then ns[1..] else ns;
        LiveMembersPlain(ms[1..], rest, owner, plain);
        var m := if diff == 0 then LiveMember(ms[0].name, LiveCreated(ms[0].item, ns[0].item)) else ms[0];
        PlainCons(m, LiveCreatedMembers(ms[1..], rest, owner));
      }
    }
  }

  /** Applied to the very document they were generated from, the patches do to it after
      every step what they do to its tree exactly when every add finds the tail; and then
      they lead to the value of `to` exactly when what was left of `from` is restorable. */
  lemma {:induction false} SameDocument(document: Live, to: Json)
    requires Proper(document) && WellFormed(Plain(document), true) && WellFormed(to, true)
    requires Height(to) <= CIRCULAR_LIMIT && Addressable(Plain(document))
    ensures var patches, left := CreatePatches("", Plain(document), to, true), LiveCreated(document, to);
      && Proper(left) && Denote(Plain(left), true) == Denote(Plain(document), true)
      && ((forall n :: 0 <= n <= |patches| ==> RunAgrees(left, patches, n, true)) <==> AddsFit(left, patches, true))
      && (AddsFit(left, patches, true) ==>
            var r := ApplyLiveAll(left, patches, true);
            && r.LiveApplied?
            && (r.status == 0 && Denote(Plain(r.tree), true) == Denote(to, true) <==>
                  Restorable(Plain(left), Plain(left), to)))
  {
    hide CreatePatches, ApplyAll, ApplyLiveAll, Denote, Restorable, AddsFit, WellFormed, Plain, Proper, CreatedTree,
      LiveCreated, Addressable;
    var patches, left := CreatePatches("", Plain(document), to, true), LiveCreated(document, to);
    LiveCreatedPlain(document, to);
    CreatedKeeps(Plain(document), to, true);
    CreatedSame("", Plain(document), to);
    RunExact(left, patches, true);
    RoundTripExact(Plain(left), to);
    if AddsFit(left, patches, true) {
      assert RunAgrees(left, patches, |patches|, true);
      assert patches[..|patches|] == patches;
    }
  }
}
