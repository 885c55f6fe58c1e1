/** When applying the generated patches turns a copy of `from` into `to`. */
module PatchRoundTrip {
  import opened Text
  import opened Sort
  import opened Json
  import opened Comparison
  import opened Pointer
  import opened Duplicate
  import opened Patch
  import opened PatchKeys
  import opened Places
  import opened PatchSteps
  import opened PatchLift
  import opened PatchWalk
  import opened PatchState

  /** Wherever two objects are patched into each other, the keys that are removed,
      replaced or added survive the decoder. */
  predicate Survivable(from: Json, to: Json)
    decreases from
  {
    match (from, to)
    case (Array(xs), Array(ys)) =>
      forall i :: 0 <= i < |xs| && i < |ys| ==> Survivable(xs[i], ys[i])
    case (Object(ms), Object(ns)) => KeysSurvive(ms, ns) && PairsSurvive(ms, ns)
    case _ => true
  }

  predicate PairsSurvive(ms: seq<Member>, ns: seq<Member>)
    decreases ms
  {
    forall m, n :: m in ms && n in ns && m.name == n.name ==> Survivable(m.item, n.item)
  }

  // ------------------------------------------------- the state of the walk

  /** The member is still there, before every key that differs by case alone. */
  predicate Holds(members: seq<Member>, m: Member)
  {
    var i := FindKey(members, m.name, true);
    && i < |members| && FindKey(members, m.name, false) == i
    && WellFormed(members[i].item, false) && Denote(members[i].item, true) == Denote(m.item, true)
  }

  /** Distinct keys, though an added one may differ by case alone from one that is
      removed later, and well-formed items. */
  predicate Tidy(members: seq<Member>)
  {
    && Distinct(members, NameOf, true)
    && forall m :: m in members ==> WellFormed(m.item, false)
  }

  ghost predicate LoopState(members: seq<Member>, ms: seq<Member>, ns: seq<Member>,
                            detached: set<string>, added: set<string>)
  {
    && Steps(ms, ns, detached, added) && Tidy(members)
    && (forall m :: m in ms ==> Holds(members, m) && WellFormed(m.item, false) && Addressable(m.item))
    && (forall n :: n in ns ==> WellFormed(n.item, false) && Height(n.item) <= CIRCULAR_LIMIT)
  }

  /** All changed keys survive, and the detached ones differ from the keys of
      `from` by more than case. */
  ghost predicate Safe(ms: seq<Member>, detached: set<string>, added: set<string>)
  {
    && (forall x :: x in detached + added ==> Survives(x))
    && (forall m, x :: m in ms && x in detached && Fold(x) == Fold(m.name) ==> x == m.name)
  }

  /** The first holder stays the first when another member goes. */
  lemma HoldsRemove(members: seq<Member>, i: nat, m: Member)
    requires i < |members| && Holds(members, m) && members[i].name != m.name
    ensures Holds(RemoveAt(members, i), m)
  {
    hide Denote, WellFormed, Fold;
    FindBehind(members, i, m.name, true);
    FindBehind(members, i, m.name, false);
  }

  lemma HoldsAppend(members: seq<Member>, x: Member, m: Member)
    requires Holds(members, m)
    ensures Holds(members + [x], m)
  {
    hide Denote, WellFormed, Fold;
    AppendFind(members, x, m.name, true);
    AppendFind(members, x, m.name, false);
  }

  lemma {:induction false} TidyRemove(members: seq<Member>, i: nat)
    requires Tidy(members) && i < |members|
    ensures Tidy(RemoveAt(members, i))
    ensures DenoteMembers(RemoveAt(members, i), true) == DenoteMembers(members, true) - {members[i].name}
    ensures forall m :: m in RemoveAt(members, i) ==> m.name != members[i].name
  {
    hide WellFormed, Denote, DenoteMembers, Distinct, RemoveAt;
    RemoveKeepsDistinct(members, i, true);
    DenoteRemove(members, i, true);
  }

  /** Detaching a key that is held. */
  lemma {:induction false} DropHeld(members: seq<Member>, ms: seq<Member>, m: Member)
    requires Tidy(members) && Holds(members, m)
    requires forall x :: x in ms ==> Holds(members, x) && x.name != m.name
    ensures var rest := DropMember(members, m.name);
      && rest.Some? && Tidy(rest.value)
      && DenoteMembers(rest.value, true) == DenoteMembers(members, true) - {m.name}
      && (forall x :: x in ms ==> Holds(rest.value, x))
      && !HasKey(rest.value, m.name, true)
  {
    hide WellFormed, Denote, DenoteMembers, Fold;
    var i := FindKey(members, m.name, true);
    TidyRemove(members, i);
    forall x | x in ms
      ensures Holds(RemoveAt(members, i), x)
    {
      HoldsRemove(members, i, x);
    }
  }

  /** Adding a member. */
  lemma {:induction false} PutFresh(members: seq<Member>, ms: seq<Member>, key: string, item: Json)
    requires Tidy(members) && WellFormed(item, false)
    requires forall x :: x in ms ==> Holds(members, x) && x.name != key
    ensures var next := PutMember(members, key, item);
      && Tidy(next)
      && DenoteMembers(next, true) == DenoteMembers(members, true)[key := Denote(item, true)]
      && (forall x :: x in ms ==> Holds(next, x))
  {
    hide WellFormed, Denote, DenoteMembers, Fold, Holds;
    var kept, i := Without(members, key), FindKey(members, key, true);
    if i < |members| {
      TidyRemove(members, i);
      forall x | x in ms
        ensures Holds(kept, x)
      {
        HoldsRemove(members, i, x);
      }
    }
    assert forall x :: x in kept ==> !SameKey(NameOf(x), key, true);
    PutMap(members, kept, key, Denote(item, true));
    DenoteAppend(kept, Member(key, item), true);
    forall x | x in ms
      ensures Holds(kept + [Member(key, item)], x)
    {
      HoldsAppend(kept, Member(key, item), x);
    }
  }

  lemma {:induction false} PutMap(members: seq<Member>, kept: seq<Member>, key: string, v: Value)
    requires kept == Without(members, key) && Tidy(members)
    ensures DenoteMembers(kept, true)[key := v] == DenoteMembers(members, true)[key := v]
  {
    var i := FindKey(members, key, true);
    if i < |members| {
      TidyRemove(members, i);
    }
  }

  /** Changing the item of a member. */
  lemma SetHeld(members: seq<Member>, ms: seq<Member>, i: nat, item: Json)
    requires Tidy(members) && i < |members| && WellFormed(item, false)
    requires forall x :: x in ms ==> Holds(members, x) && x.name != members[i].name
    ensures var next := members[i := Member(members[i].name, item)];
      && Tidy(next)
      && DenoteMembers(next, true) == DenoteMembers(members, true)[members[i].name := Denote(item, true)]
      && (forall x :: x in ms ==> Holds(next, x))
  {
    hide WellFormed, Denote, DenoteMembers, Fold;
    var next := members[i := Member(members[i].name, item)];
    assert Distinct(next, NameOf, true) by {
      DistinctNames(members, next, true);
    }
    forall k
      ensures k in DenoteMembers(next, true) <==> k in DenoteMembers(members, true) || k == members[i].name
      ensures k in DenoteMembers(next, true) ==>
        DenoteMembers(next, true)[k]
          == if k == members[i].name then Denote(item, true) else DenoteMembers(members, true)[k]
    {
      SetMemberAt(members, i, item, k);
    }
    forall x | x in ms
      ensures Holds(next, x)
    {
      FindKeyNames(members, next, x.name, true);
      FindKeyNames(members, next, x.name, false);
    }
  }

  // ------------------------------------------------------ what the walk leaves

  lemma {:induction false} NotNamed(ms: seq<Member>, k: string)
    requires forall m :: m in ms ==> m.name != k
    ensures k !in DenoteMembers(ms, true)
  {
    if k in DenoteMembers(ms, true) {
      DenoteKey(ms, k, true);
    }
  }

  /** The walk ends as it should exactly when the pairs ahead can be patched. */
  ghost predicate Decides(after: Option<seq<Member>>, fields: map<string, Value>, ms: seq<Member>, ns: seq<Member>)
  {
    && (after.Some? && DenoteMembers(after.value, true) == Merged(fields, ms, ns) <==> PairsSurvive(ms, ns))
    && (PairsSurvive(ms, ns) ==> Tidy(after.value))
  }

  lemma {:induction false} PairsBoth(ms: seq<Member>, ns: seq<Member>)
    requires ms != [] && ns != [] && Ascends(ms, true) && Ascends(ns, true) && ms[0].name == ns[0].name
    ensures PairsSurvive(ms, ns) <==> Survivable(ms[0].item, ns[0].item) && PairsSurvive(ms[1..], ns[1..])
  {
    hide Survivable, Ascends, DenoteMembers;
    HeadApart(ms);
    HeadApart(ns);
  }

  lemma {:induction false} PairsFirst(ms: seq<Member>, ns: seq<Member>)
    requires ms != [] && forall n :: n in ns ==> n.name != ms[0].name
    ensures PairsSurvive(ms, ns) <==> PairsSurvive(ms[1..], ns)
  {
    hide Survivable;
    forall m
      ensures m in ms <==> m == ms[0] || m in ms[1..]
    {
      InTail(ms, m);
    }
  }

  lemma {:induction false} PairsSecond(ms: seq<Member>, ns: seq<Member>)
    requires ns != [] && forall m :: m in ms ==> m.name != ns[0].name
    ensures PairsSurvive(ms, ns) <==> PairsSurvive(ms, ns[1..])
  {
    hide Survivable;
    forall n
      ensures n in ns <==> n == ns[0] || n in ns[1..]
    {
      InTail(ns, n);
    }
  }

  lemma StateTails(members: seq<Member>, ms: seq<Member>, ns: seq<Member>, detached: set<string>, added: set<string>)
    requires LoopState(members, ms, ns, detached, added) && Safe(ms, detached, added)
    ensures forall m :: ms != [] && m in ms[1..] ==>
      m in ms && Holds(members, m) && WellFormed(m.item, false) && Addressable(m.item)
    ensures forall n :: ns != [] && n in ns[1..] ==>
      n in ns && WellFormed(n.item, false) && Height(n.item) <= CIRCULAR_LIMIT
    ensures ms != [] ==> Safe(ms[1..], detached, added)
    ensures ms != [] ==> ms[0] in ms
    ensures ns != [] ==> ns[0] in ns
  {
    hide Holds, WellFormed, Addressable, Height, Survives, Steps, Tidy, Fold;
    forall m | ms != [] && m in ms[1..]
      ensures m in ms
    {
      InTail(ms, m);
    }
    forall n | ns != [] && n in ns[1..]
      ensures n in ns
    {
      InTail(ns, n);
    }
  }

  /** A key of the first list only is removed. */
  lemma {:induction false} StateFirst(members: seq<Member>, ms: seq<Member>, ns: seq<Member>, detached: set<string>,
                                      added: set<string>)
    requires LoopState(members, ms, ns, detached, added) && Safe(ms, detached, added) && ms != []
    requires ns != [] ==> StrCmp(ms[0].name, ns[0].name) < 0
    ensures var next := DropMember(members, Decoded(ms[0].name));
      && next.Some? && LoopState(next.value, ms[1..], ns, detached, added) && Safe(ms[1..], detached, added)
      && Merged(DenoteMembers(next.value, true), ms[1..], ns) == Merged(DenoteMembers(members, true), ms, ns)
    ensures PairsSurvive(ms, ns) <==> PairsSurvive(ms[1..], ns)
  {
    hide Holds, WellFormed, Addressable, Height, Survives, Steps, Tidy, Fold, StrCmp, Merged, DenoteMembers, DropMember,
      DecodeInPlace, Encode, PairsSurvive, Ascends;
    StateTails(members, ms, ns, detached, added);
    StepFirst(ms, ns, detached, added);
    StepsAscend(ms, ns, detached, added);
    HeadApart(ms);
    DecodeExact(ms[0].name);
    DropHeld(members, ms[1..], ms[0]);
    MergedFirst(DenoteMembers(members, true), ms, ns);
    PairsFirst(ms, ns);
  }

  lemma StepsAscend(ms: seq<Member>, ns: seq<Member>, detached: set<string>, added: set<string>)
    requires Steps(ms, ns, detached, added)
    ensures Ascends(ms, true) && Ascends(ns, true)
  {
  }

  /** A key of the second list only is added. */
  lemma {:induction false} StateSecond(members: seq<Member>, ms: seq<Member>, ns: seq<Member>, detached: set<string>,
                                       added: set<string>)
    requires LoopState(members, ms, ns, detached, added) && Safe(ms, detached, added) && ns != []
    requires ms != [] ==> StrCmp(ns[0].name, ms[0].name) < 0
    ensures var next := PutMember(members, Decoded(ns[0].name), ns[0].item);
      && LoopState(next, ms, ns[1..], detached, added)
      && Merged(DenoteMembers(next, true), ms, ns[1..]) == Merged(DenoteMembers(members, true), ms, ns)
    ensures PairsSurvive(ms, ns) <==> PairsSurvive(ms, ns[1..])
  {
    hide Holds, WellFormed, Addressable, Height, Survives, Steps, Tidy, Fold, StrCmp, Merged, DenoteMembers, PutMember,
      DecodeInPlace, Encode, PairsSurvive, Ascends;
    StateTails(members, ms, ns, detached, added);
    StepSecond(ms, ns, detached, added);
    StepsAscend(ms, ns, detached, added);
    HeadApart(ns);
    DecodeExact(ns[0].name);
    PutFresh(members, ms, ns[0].name, ns[0].item);
    NotNamed(ms, ns[0].name);
    MergedSecond(DenoteMembers(members, true), ms, ns);
    PairsSecond(ms, ns);
  }

  /** A key of both lists is replaced. */
  lemma {:induction false} StateReplaced(members: seq<Member>, ms: seq<Member>, ns: seq<Member>,
                                         detached: set<string>, added: set<string>)
    requires LoopState(members, ms, ns, detached, added) && Safe(ms, detached, added)
    requires ms != [] && ns != [] && ms[0].name == ns[0].name && Replaced(ms[0].item, ns[0].item)
    ensures var next := WalkBoth(members, ms[0], ns[0]);
      && next.Some? && LoopState(next.value, ms[1..], ns[1..], detached, added) && Safe(ms[1..], detached, added)
      && Merged(DenoteMembers(next.value, true), ms[1..], ns[1..]) == Merged(DenoteMembers(members, true), ms, ns)
  {
    hide Holds, WellFormed, Addressable, Height, Survives, Steps, Tidy, Fold, StrCmp, Merged, DenoteMembers, DropMember,
      PutMember, DecodeInPlace, Encode, Replaced, Ascends;
    StateTails(members, ms, ns, detached, added);
    StepBoth(ms, ns, detached, added);
    StepsAscend(ms, ns, detached, added);
    HeadApart(ms);
    HeadApart(ns);
    DecodeExact(ms[0].name);
    var fields, v := DenoteMembers(members, true), Denote(ns[0].item, true);
    DropHeld(members, ms[1..], ms[0]);
    PutFresh(DropMember(members, ms[0].name).value, ms[1..], ms[0].name, ns[0].item);
    assert (fields - {ms[0].name})[ms[0].name := v] == fields[ms[0].name := v];
    MergedBoth(fields, ms, ns);
  }

  /** Patching from within is setting the item, also when there is no patch. */
  lemma {:induction false} WithinIs(members: seq<Member>, m: Member, n: Member)
    requires Holds(members, m) && !Replaced(m.item, n.item)
    ensures var i := FindKey(members, m.name, true);
      && i < |members| && members[i].name == m.name
      && WellFormed(members[i].item, false) && Denote(members[i].item, true) == Denote(m.item, true)
      && var r := ApplyAll(members[i].item, CreatePatches("", m.item, n.item, true), true);
      WalkBoth(members, m, n) == if r.status == 0 then Some(members[i := Member(members[i].name, r.tree)]) else None
  {
    hide WellFormed, Denote, Replaced, CreatePatches, ApplyPatch, Fold;
    var i, patches := FindKey(members, m.name, true), CreatePatches("", m.item, n.item, true);
    assert patches == [] ==> ApplyAll(members[i].item, patches, true) == Applied(0, members[i].item);
    assert members[i := Member(members[i].name, members[i].item)] == members;
  }

  /** A key of both lists is patched from within. */
  lemma {:induction false} StateWithin(members: seq<Member>, ms: seq<Member>, ns: seq<Member>, detached: set<string>,
                                       added: set<string>)
    requires LoopState(members, ms, ns, detached, added) && Safe(ms, detached, added)
    requires ms != [] && ns != [] && ms[0].name == ns[0].name && !Replaced(ms[0].item, ns[0].item)
    ensures var i := FindKey(members, ms[0].name, true);
      && i < |members|
      && WellFormed(members[i].item, false) && Denote(members[i].item, true) == Denote(ms[0].item, true)
      && var r := ApplyAll(members[i].item, CreatePatches("", ms[0].item, ns[0].item, true), true);
      && var next := WalkBoth(members, ms[0], ns[0]);
      && (next.Some? <==> r.status == 0)
      && (next.Some? ==> next.value == members[i := Member(members[i].name, r.tree)])
      && (next.Some? && WellFormed(r.tree, false) && Denote(r.tree, true) == Denote(ns[0].item, true) ==>
            && LoopState(next.value, ms[1..], ns[1..], detached, added) && Safe(ms[1..], detached, added)
            && Merged(DenoteMembers(next.value, true), ms[1..], ns[1..])
                 == Merged(DenoteMembers(members, true), ms, ns))
  {
    hide WellFormed, Addressable, Height, Survives, Steps, Tidy, Fold, StrCmp, Merged, DenoteMembers, Replaced, Denote,
      CreatePatches, ApplyAll, Ascends, WalkBoth, Holds, FindKey;
    StateTails(members, ms, ns, detached, added);
    StepBoth(ms, ns, detached, added);
    StepsAscend(ms, ns, detached, added);
    HeadApart(ms);
    HeadApart(ns);
    WithinIs(members, ms[0], ns[0]);
    var i := FindKey(members, ms[0].name, true);
    var r := ApplyAll(members[i].item, CreatePatches("", ms[0].item, ns[0].item, true), true);
    if r.status == 0 && WellFormed(r.tree, false) && Denote(r.tree, true) == Denote(ns[0].item, true) {
      SetHeld(members, ms[1..], i, r.tree);
      MergedBoth(DenoteMembers(members, true), ms, ns);
    }
  }

  /** A wrong item below an unchanged key stays wrong. */
  lemma {:induction false} WrongStays(members: seq<Member>, ms: seq<Member>, ns: seq<Member>, detached: set<string>,
                                      added: set<string>,
                   fields: map<string, Value>, i: nat, item: Json)
    requires Steps(ms, ns, detached, added) && Safe(ms, detached, added)
    requires ms != [] && ns != [] && ms[0].name == ns[0].name && !Replaced(ms[0].item, ns[0].item)
    requires FindKey(members, ms[0].name, true) == i < |members| && members[i].name == ms[0].name
    requires Denote(item, true) != Denote(ns[0].item, true)
    requires Walk(members[i := Member(members[i].name, item)], ms[1..], ns[1..]).Some?
    ensures var after := Walk(members[i := Member(members[i].name, item)], ms[1..], ns[1..]).value;
      DenoteMembers(after, true) != Merged(fields, ms, ns)
  {
    hide Walk, Survives, Steps, Replaced, Denote, DenoteMembers, DecodeInPlace, Encode, Fold, Ascends;
    var key, next := ms[0].name, members[i := Member(members[i].name, item)];
    StepBoth(ms, ns, detached, added);
    StepsAscend(ms, ns, detached, added);
    HeadApart(ms);
    forall x | x in detached + added
      ensures Decoded(x) == x && (x in detached ==> Fold(x) != Fold(key)) && (x in added ==> x != key)
    {
      DecodeExact(x);
      assert ms[0] in ms;
    }
    WalkKeeps(next, ms[1..], ns[1..], detached, added, key);
    FindKeyNames(members, next, key, true);
    DenoteFind(Walk(next, ms[1..], ns[1..]).value, key, true);
    HeadApart(ns);
    DenoteAscends(ns, ns[0]);
  }

  lemma MergedNone(fields: map<string, Value>)
    ensures Merged(fields, [], []) == fields
  {
    assert DenoteMembers([], true) == map[];
    assert fields - {} == fields;
  }

  // ------------------------------------------------------------ the induction

  lemma {:induction false} WalkExact(members: seq<Member>, ms: seq<Member>, ns: seq<Member>,
                                     detached: set<string>, added: set<string>, owner: Json)
    requires LoopState(members, ms, ns, detached, added) && Safe(ms, detached, added)
    requires forall m :: m in ms ==> m.item < owner
    ensures Decides(Walk(members, ms, ns), DenoteMembers(members, true), ms, ns)
    decreases owner, 0, |ms| + |ns|, 1
  {
    hide LoopState, Safe, WalkBoth, DropMember, PutMember, Merged, Steps, StrCmp, Tidy, PairsSurvive, DenoteMembers,
      Decoded;
    if ms == [] && ns == [] {
      MergedNone(DenoteMembers(members, true));
      StateTidy(members, ms, ns, detached, added);
    } else {
      var diff := if ms == [] then 1 else if ns == [] then -1 else Compare(ms[0].name, ns[0].name, true);
      if diff == 0 {
        StrCmpZero(ms[0].name, ns[0].name);
        BothExact(members, ms, ns, detached, added, owner);
      } else if diff < 0 {
        StateFirst(members, ms, ns, detached, added);
        WalkExact(DropMember(members, Decoded(ms[0].name)).value, ms[1..], ns, detached, added, owner);
      } else {
        if ms != [] {
          StrCmpFlip(ms[0].name, ns[0].name);
        }
        StateSecond(members, ms, ns, detached, added);
        WalkExact(PutMember(members, Decoded(ns[0].name), ns[0].item), ms, ns[1..], detached, added, owner);
      }
    }
  }

  lemma {:induction false} StateTidy(members: seq<Member>, ms: seq<Member>, ns: seq<Member>, detached: set<string>,
                                     added: set<string>)
    requires LoopState(members, ms, ns, detached, added)
    ensures Tidy(members) && (ms == [] ==> PairsSurvive(ms, ns))
  {
  }

  lemma {:induction false} ReplacedPair(from: Json, to: Json)
    requires Replaced(from, to)
    ensures Survivable(from, to)
  {
  }

  lemma {:induction false} BothExact(members: seq<Member>, ms: seq<Member>, ns: seq<Member>,
                  detached: set<string>, added: set<string>, owner: Json)
    requires LoopState(members, ms, ns, detached, added) && Safe(ms, detached, added)
    requires ms != [] && ns != [] && ms[0].name == ns[0].name && Compare(ms[0].name, ns[0].name, true) == 0
    requires forall m :: m in ms ==> m.item < owner
    ensures Decides(Walk(members, ms, ns), DenoteMembers(members, true), ms, ns)
    decreases owner, 0, |ms| + |ns|, 0
  {
    hide LoopState, Safe, WalkBoth, Merged, Steps, StrCmp, Tidy, PairsSurvive, DenoteMembers, Survivable, Replaced,
      Denote,
      WellFormed, CreatePatches, ApplyAll;
    StateParts(members, ms, ns, detached, added);
    PairsBoth(ms, ns);
    if Replaced(ms[0].item, ns[0].item) {
      ReplacedPair(ms[0].item, ns[0].item);
      StateReplaced(members, ms, ns, detached, added);
      WalkExact(WalkBoth(members, ms[0], ns[0]).value, ms[1..], ns[1..], detached, added, owner);
    } else {
      StateWithin(members, ms, ns, detached, added);
      var i := FindKey(members, ms[0].name, true);
      Exact(members[i].item, ms[0].item, ns[0].item);
      var r := ApplyAll(members[i].item, CreatePatches("", ms[0].item, ns[0].item, true), true);
      if Survivable(ms[0].item, ns[0].item) {
        WalkExact(WalkBoth(members, ms[0], ns[0]).value, ms[1..], ns[1..], detached, added, owner);
      } else if r.status == 0 && Walk(members, ms, ns).Some? {
        WrongStays(members, ms, ns, detached, added, DenoteMembers(members, true), i, r.tree);
      }
    }
  }

  lemma StateParts(members: seq<Member>, ms: seq<Member>, ns: seq<Member>, detached: set<string>, added: set<string>)
    requires LoopState(members, ms, ns, detached, added) && ms != [] && ns != []
    ensures Steps(ms, ns, detached, added) && Ascends(ms, true) && Ascends(ns, true)
    ensures ms[0] in ms && WellFormed(ms[0].item, false) && Addressable(ms[0].item)
    ensures ns[0] in ns && WellFormed(ns[0].item, false) && Height(ns[0].item) <= CIRCULAR_LIMIT
  {
    hide Holds, WellFormed, Addressable, Height, Kept, Known, Tidy;
    assert ms[0] in ms && ns[0] in ns;
  }

  /** Of the arrays: the same for every element of both. */
  lemma {:induction false} ItemsExact(items: seq<Json>, xs: seq<Json>, ys: seq<Json>)
    requires |items| == |xs|
    requires forall i :: 0 <= i < |xs| ==> WellFormed(items[i], false) && Denote(items[i], true) == Denote(xs[i], true)
    requires forall x :: x in xs ==> WellFormed(x, false) && Addressable(x)
    requires forall y :: y in ys ==> WellFormed(y, false) && Height(y) <= CIRCULAR_LIMIT
    ensures var after, good := WalkItems(items, xs, ys),
                               forall i :: 0 <= i < |xs| && i < |ys| ==> Survivable(xs[i], ys[i]);
      && (after.Some? && DenoteItems(after.value, true) == DenoteItems(ys, true) <==> good)
      && (good ==> forall x :: x in after.value ==> WellFormed(x, false))
    decreases xs, 0, 0
  {
    hide Survivable, WellFormed, Denote, Addressable, Height, CreatePatches, ApplyAll, DenoteItems;
    if xs != [] && ys != [] {
      Exact(items[0], xs[0], ys[0]);
      ItemsExact(items[1..], xs[1..], ys[1..]);
      ItemsCons(xs, ys);
      var r := ApplyAll(items[0], CreatePatches("", xs[0], ys[0], true), true);
      var rest := WalkItems(items[1..], xs[1..], ys[1..]);
      if r.status == 0 && rest.Some? {
        DenoteCons(r.tree, rest.value, ys);
      }
    } else {
      DenoteNone();
    }
  }

  lemma DenoteNone()
    ensures DenoteItems([], true) == []
  {
  }

  lemma ItemsCons(xs: seq<Json>, ys: seq<Json>)
    requires xs != [] && ys != []
    ensures (forall i :: 0 <= i < |xs| && i < |ys| ==> Survivable(xs[i], ys[i]))
      <==> Survivable(xs[0], ys[0])
           && forall i :: 0 <= i < |xs[1..]| && i < |ys[1..]| ==> Survivable(xs[1..][i], ys[1..][i])
  {
    hide Survivable;
    if
      && Survivable(xs[0], ys[0])
      && forall i :: 0 <= i < |xs[1..]| && i < |ys[1..]| ==> Survivable(xs[1..][i], ys[1..][i])
    {
      forall i | 0 <= i < |xs| && i < |ys|
        ensures Survivable(xs[i], ys[i])
      {
        assert i > 0 ==> xs[i] == xs[1..][i - 1] && ys[i] == ys[1..][i - 1];
      }
    }
  }

  lemma {:induction false} DenoteCons(x: Json, rest: seq<Json>, ys: seq<Json>)
    requires ys != []
    ensures DenoteItems([x] + rest, true) == DenoteItems(ys, true)
      <==> Denote(x, true) == Denote(ys[0], true) && DenoteItems(rest, true) == DenoteItems(ys[1..], true)
  {
    hide Denote;
    assert ([x] + rest)[1..] == rest && ([x] + rest)[0] == x;
    SameCons(Denote(x, true), DenoteItems(rest, true), Denote(ys[0], true), DenoteItems(ys[1..], true));
  }

  lemma SameCons<T>(a: T, s: seq<T>, b: T, t: seq<T>)
    ensures [a] + s == [b] + t <==> a == b && s == t
  {
    assert ([a] + s)[0] == a && ([a] + s)[1..] == s;
    assert ([b] + t)[0] == b && ([b] + t)[1..] == t;
  }

  /** Patches for a whole tree, applied to any tree with the value of `from`. */
  lemma {:induction false} Exact(tree: Json, from: Json, to: Json)
    requires WellFormed(tree, false) && WellFormed(from, false) && WellFormed(to, false)
    requires Denote(tree, true) == Denote(from, true)
    requires Height(to) <= CIRCULAR_LIMIT && Addressable(from)
    ensures var r := ApplyAll(tree, CreatePatches("", from, to, true), true);
      && (r.status == 0 && Denote(r.tree, true) == Denote(to, true) <==> Survivable(from, to))
      && (Survivable(from, to) ==> WellFormed(r.tree, false))
    decreases from, 1, 0
  {
    hide ApplyPatch, ComposePatch, StrCmp, SortList, Fold, FindKey;
    if from.String? && to.String? {
      StrCmpZero(from.s, to.s);
    }
    if Replaced(from, to) {
      ReplacesRoot(tree, from, to);
    } else if from.Array? {
      ArrayExact(tree, from, to);
    } else if from.Object? {
      ObjectExact(tree, from, to);
    }
  }

  lemma {:induction false} ArrayExact(tree: Json, from: Json, to: Json)
    requires from.Array? && to.Array?
    requires WellFormed(tree, false) && WellFormed(from, false) && WellFormed(to, false)
    requires Denote(tree, true) == Denote(from, true)
    requires Height(to) <= CIRCULAR_LIMIT && Addressable(from)
    ensures var r := ApplyAll(tree, CreatePatches("", from, to, true), true);
      && (r.status == 0 && Denote(r.tree, true) == Denote(to, true) <==> Survivable(from, to))
      && (Survivable(from, to) ==> WellFormed(r.tree, false))
    decreases from, 0, 0
  {
    hide ApplyAll, ComposePatch, DenoteItems, CreateForItems, Denote, WellFormed, Addressable, Height, WalkItems,
      Survivable,
      CreatePatches;
    DenoteArray(tree);
    DenoteArray(from);
    ArrayParts(tree);
    ArrayParts(from);
    ArrayParts(to);
    ArrayPair(from, to);
    var items, xs, ys := tree.items, from.items, to.items;
    SameElements(items, xs);
    NoPrefix(items);
    ItemsAgree([], items, xs, ys);
    ItemsExact(items, xs, ys);
    var after := WalkItems(items, xs, ys);
    if after.Some? {
      NoPrefix(after.value);
      DenoteArray(Array(after.value));
      DenoteArray(to);
      ArrayParts(Array(after.value));
    }
  }

  lemma {:induction false} SameElements(items: seq<Json>, xs: seq<Json>)
    requires DenoteItems(items, true) == DenoteItems(xs, true)
    ensures |items| == |xs| && forall i :: 0 <= i < |xs| ==> Denote(items[i], true) == Denote(xs[i], true)
  {
    hide Denote;
    forall i | 0 <= i < |xs|
      ensures Denote(items[i], true) == Denote(xs[i], true)
    {
      assert DenoteItems(items, true)[i] == DenoteItems(xs, true)[i];
    }
  }

  lemma {:induction false} ArrayParts(j: Json)
    requires j.Array?
    ensures WellFormed(j, false) <==> forall x :: x in j.items ==> WellFormed(x, false)
    ensures Addressable(j) ==> |j.items| <= SIZE_LIMIT && forall x :: x in j.items ==> Addressable(x)
    ensures Height(j) <= CIRCULAR_LIMIT ==> forall x :: x in j.items ==> Height(x) <= CIRCULAR_LIMIT
    ensures Denote(j, true) == VArray(DenoteItems(j.items, true))
  {
    if forall x :: x in j.items ==> WellFormed(x, false) {
      forall i | 0 <= i < |j.items|
        ensures WellFormed(j.items[i], false)
      {
        assert j.items[i] in j.items;
      }
    }
  }

  lemma {:induction false} ArrayPair(from: Json, to: Json)
    requires from.Array? && to.Array?
    ensures CreatePatches("", from, to, true) == CreateForItems("", from.items, to.items, 0, true)
    ensures Survivable(from, to)
      <==> forall i :: 0 <= i < |from.items| && i < |to.items| ==> Survivable(from.items[i], to.items[i])
  {
  }

  lemma {:induction false} ObjectExact(tree: Json, from: Json, to: Json)
    requires from.Object? && to.Object?
    requires WellFormed(tree, false) && WellFormed(from, false) && WellFormed(to, false)
    requires Denote(tree, true) == Denote(from, true)
    requires Height(to) <= CIRCULAR_LIMIT && Addressable(from)
    ensures var r := ApplyAll(tree, CreatePatches("", from, to, true), true);
      && (r.status == 0 && Denote(r.tree, true) == Denote(to, true) <==> Survivable(from, to))
      && (Survivable(from, to) ==> WellFormed(r.tree, false))
    decreases from, 0, |from.members| + |to.members| + 1
  {
    hide ApplyAll, ComposePatch, DenoteMembers, CreateForMembers, SortList, KeysSurvive, PairsSurvive, WellFormed, Walk,
      Merged, Ascends, Tidy, Height, Addressable, LoopState, Safe;
    var ms, ns := SortList(from.members, NameOf, true), SortList(to.members, NameOf, true);
    DenoteArray(tree);
    SortKeepsBelow(from.members, true, from);
    SortedParts(from);
    SortedParts(to);
    HeightParts(to);
    SortedSurvive(from.members, to.members, ms, ns);
    WalkAgrees(tree.members, ms, ns, from);
    var after := Walk(tree.members, ms, ns);
    if KeysSurvive(ms, ns) {
      var detached, added := StartState(tree, from, to);
      WalkExact(tree.members, ms, ns, detached, added, from);
      var fields := DenoteMembers(from.members, true);
      assert Merged(fields, ms, ns) == DenoteMembers(to.members, true) by { MergedAll(fields, ms, ns); }
      if after.Some? && PairsSurvive(ms, ns) {
        TidyWellFormed(after.value, to);
      }
    } else if after.Some? {
      BadKeyBreaks(tree.members, ms, ns);
    }
  }

  lemma {:induction false} MergedAll(fields: map<string, Value>, ms: seq<Member>, ns: seq<Member>)
    requires DenoteMembers(ms, true) == fields
    ensures Merged(fields, ms, ns) == DenoteMembers(ns, true)
  {
    assert fields - fields.Keys == map[];
  }

  /** The sorted members of an object. */
  lemma {:induction false} SortedParts(j: Json)
    requires j.Object? && WellFormed(j, false)
    ensures var ms := SortList(j.members, NameOf, true);
      && Ascends(ms, true) && DenoteMembers(ms, true) == DenoteMembers(j.members, true)
      && (forall m :: m in ms <==> m in j.members)
      && (forall m :: m in ms ==> WellFormed(m.item, false))
      && (forall m, m' :: m in ms && m' in ms && Fold(m.name) == Fold(m'.name) ==> m == m')
  {
    hide Fold, DenoteMembers, SortList;
    FoldDistinct(j.members);
    SortDistinct(j.members, NameOf, true);
    DenoteSorted(j.members, true, true);
    forall m
      ensures m in SortList(j.members, NameOf, true) <==> m in j.members
    {
      SortMembers(j.members, NameOf, true, m);
    }
    forall m, m' | m in j.members && m' in j.members && Fold(m.name) == Fold(m'.name)
      ensures m == m'
    {
      var i :| 0 <= i < |j.members| && j.members[i] == m;
      var k :| 0 <= k < |j.members| && j.members[k] == m';
      assert SameKey(NameOf(j.members[i]), NameOf(j.members[k]), false);
      assert SameKey(NameOf(j.members[k]), NameOf(j.members[i]), false);
    }
  }

  lemma {:induction false} HeightParts(j: Json)
    requires j.Object? && Height(j) <= CIRCULAR_LIMIT
    ensures forall m :: m in j.members ==> Height(m.item) <= CIRCULAR_LIMIT
  {
  }

  lemma {:induction false} SortedSurvive(ms: seq<Member>, ns: seq<Member>, sms: seq<Member>, sns: seq<Member>)
    requires forall m :: (m in sms <==> m in ms)
    requires forall n :: (n in sns <==> n in ns)
    ensures KeysSurvive(sms, sns) <==> KeysSurvive(ms, ns)
    ensures PairsSurvive(sms, sns) <==> PairsSurvive(ms, ns)
  {
    hide Survives, Survivable, Replaced;
    forall m
      ensures Kept(m, ns) <==> Kept(m, sns)
      ensures Known(m, ms) <==> Known(m, sms)
    {
    }
    hide Kept, Known;
  }

  /** The walk starts in the state it needs. */
  lemma StartState(tree: Json, from: Json, to: Json) returns (detached: set<string>, added: set<string>)
    requires tree.Object? && from.Object? && to.Object?
    requires WellFormed(tree, false) && WellFormed(from, false) && WellFormed(to, false)
    requires Denote(tree, true) == Denote(from, true)
    requires Height(to) <= CIRCULAR_LIMIT && Addressable(from)
    requires KeysSurvive(SortList(from.members, NameOf, true), SortList(to.members, NameOf, true))
    ensures var ms, ns := SortList(from.members, NameOf, true), SortList(to.members, NameOf, true);
      LoopState(tree.members, ms, ns, detached, added) && Safe(ms, detached, added)
  {
    hide Survives, Fold, DenoteMembers, SortList, Steps, Kept, Known, Holds, Ascends;
    var ms, ns := SortList(from.members, NameOf, true), SortList(to.members, NameOf, true);
    SortedParts(from);
    SortedParts(to);
    HeightParts(to);
    DenoteArray(tree);
    FoldDistinct(tree.members);
    detached, added := Changes(ms, ns);
    forall m | m in ms
      ensures Holds(tree.members, m) && Addressable(m.item)
    {
      DenoteAscends(ms, m);
      StartHolds(tree, m);
    }
  }

  lemma {:induction false} StartHolds(tree: Json, m: Member)
    requires tree.Object? && WellFormed(tree, false)
    requires m.name in DenoteMembers(tree.members, true)
    requires DenoteMembers(tree.members, true)[m.name] == Denote(m.item, true)
    ensures Holds(tree.members, m)
  {
    hide Denote, DenoteMembers, Fold;
    DenoteFind(tree.members, m.name, true);
    FindBoth(tree.members, m.name);
  }

  /** With the keys of `to` the final list is distinct even without case. */
  lemma {:induction false} TidyWellFormed(members: seq<Member>, to: Json)
    requires Tidy(members) && to.Object? && WellFormed(to, false)
    requires DenoteMembers(members, true) == DenoteMembers(to.members, true)
    ensures WellFormed(Object(members), false)
  {
    hide DenoteMembers, Fold;
    forall i, k | 0 <= i < k < |members|
      ensures !SameKey(NameOf(members[i]), NameOf(members[k]), false)
    {
      DenoteAt(members, i, true);
      DenoteAt(members, k, true);
      WholeFresh(to.members, members[k].name);
      assert !SameKey(NameOf(members[i]), NameOf(members[k]), true);
    }
  }

  // ------------------------------------------------------------ the theorems

  /** Patches with a longer path act at a place as the short ones on its node. */
  lemma {:induction false} LiftPlace(tree: Json, p: Place, from: Json, to: Json)
    requires WellFormed(tree, false) && HasPlace(Denote(tree, true), p)
    requires Height(to) <= CIRCULAR_LIMIT && !Replaced(from, to)
    ensures var a := ApplyAll(tree, CreatePatches(PlaceText(p), from, to, true), true);
      var b := ApplyAll(NodeAt(tree, Locate(tree, p)), CreatePatches("", from, to, true), true);
      && (a.status == 0 <==> b.status == 0)
      && (a.status == 0 ==> a.tree == Update(tree, Locate(tree, p), b.tree))
    decreases p
  {
    hide CreatePatches, ApplyAll, Denote, WellFormed, Height, Replaced, StepText;
    if p != [] {
      LocateStep(tree, p[0]);
      LocatedStep(tree, p[0]);
      var i := StepIndex(tree, p[0]);
      var child := Child(tree, i);
      LiftPlace(child, p[1..], from, to);
      LiftCreated(tree, p[0], PlaceText(p[1..]), from, to);
      var inner := Locate(child, p[1..]);
      UpdateBelow(tree, i, inner, ApplyAll(NodeAt(child, inner), CreatePatches("", from, to, true), true).tree);
      assert Locate(tree, p) == [i] + inner;
    }
  }

  lemma {:induction false} LocatedStep(tree: Json, s: Step)
    requires HasStep(Denote(tree, true), s)
    ensures StepAt(tree, s) == Some(StepIndex(tree, s))
  {
    if s.Key? {
      DenoteFind(tree.members, s.name, true);
    }
  }

  /** An updated node is found again at its place. */
  lemma {:induction false} NodeUpdated(tree: Json, p: Place, item: Json)
    requires WellFormed(tree, false) && HasPlace(Denote(tree, true), p)
    requires var u := Update(tree, Locate(tree, p), item); WellFormed(u, false) && HasPlace(Denote(u, true), p)
    ensures var u := Update(tree, Locate(tree, p), item); NodeAt(u, Locate(u, p)) == item
    decreases p
  {
    hide Denote, WellFormed;
    if p != [] {
      var s, u := p[0], Update(tree, Locate(tree, p), item);
      LocateStep(tree, s);
      LocatedStep(tree, s);
      var i := StepIndex(tree, s);
      var inner := Locate(Child(tree, i), p[1..]);
      assert Locate(tree, p) == [i] + inner;
      UpdateBelow(tree, i, inner, item);
      UpdateStep(tree, s, Update(Child(tree, i), inner, item));
      LocatedStep(u, s);
      LocateStep(u, s);
      NodeUpdated(Child(tree, i), p[1..], item);
      assert Locate(u, p)[1..] == Locate(Child(u, i), p[1..]);
    }
  }

  lemma {:induction false} ReplaceCorrect(tree: Json, p: Place, to: Json)
    requires WellFormed(tree, false) && WellFormed(to, false) && Height(to) <= CIRCULAR_LIMIT
    requires HasPlace(Denote(tree, true), p) && (p != [] ==> StepSurvives(p[|p| - 1]))
    ensures Yields(ApplyAll(tree, [ComposePatch("replace", PlaceText(p), None, Some(to))], true),
                   Put(Denote(tree, true), p, Denote(to, true)))
  {
    if p == [] {
      ReplaceRootApplies(tree, to);
    } else {
      var q, s := p[..|p| - 1], p[|p| - 1];
      assert p == q + [s];
      ReplaceChildApplies(tree, q, s, to);
    }
    ApplyOne(tree, ComposePatch("replace", PlaceText(p), None, Some(to)), []);
  }

  /** Patches generated for a place turn the value there into that of `to`, and
      change nothing else, exactly when the changed keys survive. */
  lemma {:induction false} CreateCorrect(tree: Json, p: Place, from: Json, to: Json)
    requires WellFormed(tree, false) && WellFormed(from, false) && WellFormed(to, false)
    requires Height(to) <= CIRCULAR_LIMIT && Addressable(from)
    requires HasPlace(Denote(tree, true), p) && Get(Denote(tree, true), p) == Denote(from, true)
    requires p != [] && Replaced(from, to) ==> StepSurvives(p[|p| - 1])
    ensures Yields(ApplyAll(tree, CreatePatches(PlaceText(p), from, to, true), true),
                   Put(Denote(tree, true), p, Denote(to, true)))
      <==> Survivable(from, to)
  {
    hide CreatePatches, ApplyAll, ComposePatch, Denote, WellFormed, Height, Replaced, PlaceText, Survivable, Put, Get,
      HasPlace,
      Locate, NodeAt, Update, Addressable;
    if Replaced(from, to) {
      ReplacesRoot(tree, from, to);
      ReplacedPair(from, to);
      ReplaceCorrect(tree, p, to);
    } else {
      var node := NodeAt(tree, Locate(tree, p));
      NodePlace(tree, p);
      LiftPlace(tree, p, from, to);
      Exact(node, from, to);
      var b := ApplyAll(node, CreatePatches("", from, to, true), true);
      PutExact(tree, p, b.tree, Denote(to, true));
    }
  }

  /** The tree has the value put at a place exactly when the node there has it. */
  lemma {:induction false} PutExact(tree: Json, p: Place, item: Json, w: Value)
    requires WellFormed(tree, false) && HasPlace(Denote(tree, true), p)
    ensures var u := Update(tree, Locate(tree, p), item);
      WellFormed(u, false) && Denote(u, true) == Put(Denote(tree, true), p, w) ==> Denote(item, true) == w
    ensures var u := Update(tree, Locate(tree, p), item);
      WellFormed(item, false) && Denote(item, true) == w ==>
        WellFormed(u, false) && Denote(u, true) == Put(Denote(tree, true), p, w)
  {
    hide Denote, WellFormed, Put, Get, HasPlace, Locate, NodeAt, Update;
    var u := Update(tree, Locate(tree, p), item);
    if WellFormed(item, false) {
      UpdatePlace(tree, p, item);
    }
    if WellFormed(u, false) && Denote(u, true) == Put(Denote(tree, true), p, w) {
      PutGet(Denote(tree, true), p, w);
      NodeUpdated(tree, p, item);
      NodePlace(u, p);
    }
  }

  /** Applying the generated patches in order to a copy of `from` succeeds and
      gives a tree with the value of `to` exactly when the changed keys survive. */
  lemma {:induction false} RoundTrip(from: Json, to: Json)
    requires WellFormed(from, false) && WellFormed(to, false)
    requires Height(to) <= CIRCULAR_LIMIT && Addressable(from)
    ensures var r := ApplyPatches(from, GeneratePatches(from, to, true), true);
      r.status == 0 && Denote(r.tree, true) == Denote(to, true) <==> Survivable(from, to)
  {
    hide CreatePatches, ApplyAll, Denote, Survivable;
    Exact(from, from, to);
  }
}
