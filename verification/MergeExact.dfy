/** Exactly when a generated merge patch brings a tree to `to`, for all trees with
    distinct keys: the recursive call of `generate_merge_patch` sorts without case
    and walks with `strcmp`, so that it may pass a key of both objects twice. */
module MergeExact {
  import opened Text
  import opened Sort
  import opened Json
  import opened Comparison
  import opened CompareLeaves
  import opened Duplicate
  import opened MergePatch
  import opened MergeValues
  import opened MergeRoundTrip
  import PatchState

  /** No null is set, no comparison without case takes different values for equal, and
      no key is passed in `to` before it is passed in `from`. */
  predicate Mergeable(from: Json, to: Json, cs: bool)
    decreases Size(from), 1, 0
  {
    if !to.Object? then true
    else if !from.Object? then NullFree(Denote(to, true))
    else
      SortedSize(from.members, cs);
      WalkMerges(SortList(from.members, NameOf, cs), SortList(to.members, NameOf, cs), cs)
  }

  predicate WalkMerges(ms: seq<Member>, ns: seq<Member>, cs: bool)
    decreases SizeMembers(ms) + 1, 0, |ms| + |ns|
  {
    if ms == [] && ns == [] then true
    else
      var diff := if ms == [] then 1 else if ns == [] then -1 else StrCmp(ms[0].name, ns[0].name);
      if diff < 0 then WalkMerges(ms[1..], ns, cs)
      else if diff > 0 then
        && !PatchState.Known(ns[0], ms) && !ns[0].item.Null? && NullFree(Denote(ns[0].item, true))
        && WalkMerges(ms, ns[1..], cs)
      else
        && (if CompareJson(ms[0].item, ns[0].item, cs) then CompareJson(ms[0].item, ns[0].item, true)
            else !ns[0].item.Null? && MergeableBelow(ms[0].item, ns[0].item, cs))
        && WalkMerges(ms[1..], ns[1..], cs)
  }

  /** The same for the recursive call, which gets the items as the comparison left them. */
  predicate MergeableBelow(from: Json, to: Json, cs: bool)
    decreases Size(from), 2, 0
  {
    AfterSize(from, to, cs);
    Mergeable(AfterCompare(from, to, cs), AfterCompare(to, from, cs), false)
  }

  // ------------------------------------------------------------ entries

  lemma {:induction false} MergeConcat(members: seq<Member>, first: seq<Member>, second: seq<Member>)
    ensures var r := MergeMembers(members, first, true);
      MergeMembers(members, first + second, true) == if r.None? then None else MergeMembers(r.value, second, true)
    decreases |first|
  {
    if first == [] {
      NoPrefix(second);
    } else {
      hide ApplyMerge, RemoveAt;
      TailOfConcat(first, second);
      var p, i := first[0], FindKey(members, first[0].name, true);
      var kept := if i < |members| then RemoveAt(members, i) else members;
      if p.item.Null? {
        MergeConcat(kept, first[1..], second);
      } else {
        var replacement := ApplyMerge(if i < |members| then Some(members[i].item) else None, p.item, true);
        if replacement.Some? {
          MergeConcat(kept + [Member(p.name, replacement.value)], first[1..], second);
        }
      }
    }
  }

  /** What one entry of the patch does to the members. */
  function Entry(members: seq<Member>, p: Member): Option<seq<Member>>
  {
    var kept := Kept(members, p.name, true);
    if p.item.Null? then Some(kept)
    else
      var replacement := ApplyMerge(OldItem(members, p.name, true), p.item, true);
      if replacement.None? then None else Some(kept + [Member(p.name, replacement.value)])
  }

  lemma {:induction false} MergeCons(members: seq<Member>, p: Member, rest: seq<Member>)
    ensures var next := Entry(members, p);
      MergeMembers(members, [p] + rest, true) == if next.None? then None else MergeMembers(next.value, rest, true)
  {
    hide ApplyMerge;
    assert ([p] + rest)[1..] == rest && ([p] + rest)[0] == p;
  }

  lemma EntryKeeps(members: seq<Member>, p: Member, key: string)
    requires p.name != key && Entry(members, p).Some?
    ensures PatchState.SameAt(members, Entry(members, p).value, key)
  {
    hide ApplyMerge;
    var i := FindKey(members, p.name, true);
    if i < |members| {
      PatchState.RemoveSameAt(members, i, key);
    }
    if !p.item.Null? {
      var replacement := ApplyMerge(OldItem(members, p.name, true), p.item, true);
      PatchState.AppendFind(Kept(members, p.name, true), Member(p.name, replacement.value), key, true);
    }
  }

  /** Entries for other keys leave a key alone. */
  lemma {:induction false} MergeKeeps(members: seq<Member>, ps: seq<Member>, key: string)
    requires forall p :: p in ps ==> p.name != key
    requires MergeMembers(members, ps, true).Some?
    ensures PatchState.SameAt(members, MergeMembers(members, ps, true).value, key)
    decreases |ps|
  {
    if ps != [] {
      hide ApplyMerge, Entry, MergeMembers;
      HeadTail(ps);
      MergeCons(members, ps[0], ps[1..]);
      EntryKeeps(members, ps[0], key);
      MergeKeeps(Entry(members, ps[0]).value, ps[1..], key);
    } else {
      assert MergeMembers(members, ps, true) == Some(members);
    }
  }

  lemma EntryDistinct(members: seq<Member>, p: Member)
    requires Distinct(members, NameOf, true) && Entry(members, p).Some?
    ensures Distinct(Entry(members, p).value, NameOf, true)
  {
    hide ApplyMerge;
    var i, kept := FindKey(members, p.name, true), Kept(members, p.name, true);
    if i < |members| {
      RemoveKeepsDistinct(members, i, true);
    }
    forall m | m in kept
      ensures m.name != p.name
    {
      if i >= |members| {
        var j :| 0 <= j < |members| && members[j] == m;
        assert !SameKey(p.name, members[j].name, true);
      }
    }
    AppendDistinct(kept, p.name);
  }

  lemma AppendDistinct(members: seq<Member>, name: string)
    requires Distinct(members, NameOf, true) && forall m :: m in members ==> m.name != name
    ensures forall item :: Distinct(members + [Member(name, item)], NameOf, true)
  {
    forall item
      ensures Distinct(members + [Member(name, item)], NameOf, true)
    {
      var all := members + [Member(name, item)];
      forall i, j | 0 <= i < j < |all|
        ensures !SameKey(NameOf(all[i]), NameOf(all[j]), true)
      {
        assert all[i] in members;
        if j < |members| {
          assert !SameKey(NameOf(members[i]), NameOf(members[j]), true);
        }
      }
    }
  }

  lemma {:induction false} MergeDistinct(members: seq<Member>, ps: seq<Member>)
    requires Distinct(members, NameOf, true) && MergeMembers(members, ps, true).Some?
    ensures Distinct(MergeMembers(members, ps, true).value, NameOf, true)
    decreases |ps|
  {
    if ps != [] {
      hide ApplyMerge, Entry, MergeMembers, Distinct;
      HeadTail(ps);
      MergeCons(members, ps[0], ps[1..]);
      EntryDistinct(members, ps[0]);
      MergeDistinct(Entry(members, ps[0]).value, ps[1..]);
    } else {
      assert MergeMembers(members, ps, true) == Some(members);
    }
  }

  // --------------------------------------------------- what is generated

  /** The walk writes no other keys than those of the two objects. */
  lemma {:induction false} GeneratedNames(ms: seq<Member>, ns: seq<Member>, cs: bool, key: string)
    requires forall m :: m in ms ==> m.name != key
    requires forall n :: n in ns ==> n.name != key
    ensures forall p :: p in GenerateMembers(ms, ns, cs) ==> p.name != key
    decreases |ms| + |ns|
  {
    hide CompareJson, Generate, DuplicateRec, StrCmp;
    if ms != [] || ns != [] {
      var diff := if ms == [] then 1 else if ns == [] then -1 else StrCmp(ms[0].name, ns[0].name);
      if diff < 0 {
        GeneratedNames(ms[1..], ns, cs, key);
      } else if diff > 0 {
        GeneratedNames(ms, ns[1..], cs, key);
      } else {
        GeneratedNames(ms[1..], ns[1..], cs, key);
      }
    }
  }

  /** The names differ from one another. */
  ghost predicate Apart(ms: seq<Member>)
  {
    forall i, j :: 0 <= i < j < |ms| ==> ms[i].name != ms[j].name
  }

  lemma ApartHead(ms: seq<Member>)
    requires Apart(ms) && ms != []
    ensures Apart(ms[1..]) && ms[0] in ms
    ensures forall m :: m in ms[1..] ==> m in ms && m.name != ms[0].name
    ensures forall m :: m in ms ==> m == ms[0] || m in ms[1..]
  {
    HeadTail(ms);
    forall m | m in ms[1..]
      ensures m in ms && m.name != ms[0].name
    {
      var i :| 0 <= i < |ms[1..]| && ms[1..][i] == m;
      assert ms[i + 1] == m;
    }
  }

  /** A key that only the first list still has is removed in the end. */
  lemma {:induction false} RemovedAtLast(members: seq<Member>, ms: seq<Member>, ns: seq<Member>, cs: bool,
                                         key: string)
    requires Distinct(members, NameOf, true) && Apart(ms)
    requires (exists m :: m in ms && m.name == key) && forall n :: n in ns ==> n.name != key
    requires MergeMembers(members, GenerateMembers(ms, ns, cs), true).Some?
    ensures !HasKey(MergeMembers(members, GenerateMembers(ms, ns, cs), true).value, key, true)
    decreases |ms| + |ns|
  {
    hide CompareJson, Generate, DuplicateRec, StrCmp, MergeMembers, Entry, Distinct, FindKey;
    ApartHead(ms);
    var diff := if ns == [] then -1 else StrCmp(ms[0].name, ns[0].name);
    if diff < 0 {
      var p, rest := Member(ms[0].name, Null), GenerateMembers(ms[1..], ns, cs);
      MergeCons(members, p, rest);
      EntryDistinct(members, p);
      if ms[0].name == key {
        GeneratedNames(ms[1..], ns, cs, key);
        MergeKeeps(Entry(members, p).value, rest, key);
        EntryRemoves(members, key);
      } else {
        RemovedAtLast(Entry(members, p).value, ms[1..], ns, cs, key);
      }
    } else if diff > 0 {
      var entry, rest := AddTo(ns[0].name, DuplicateRec(ns[0].item, 0)), GenerateMembers(ms, ns[1..], cs);
      MergeConcat(members, entry, rest);
      MergeDistinct(members, entry);
      RemovedAtLast(MergeMembers(members, entry, true).value, ms, ns[1..], cs, key);
    } else {
      StrCmpZero(ms[0].name, ns[0].name);
      assert ns[0] in ns;
      var entry := if CompareJson(ms[0].item, ns[0].item, cs) then []
                   else AddTo(ns[0].name, GenerateBelow(ms[0].item, ns[0].item, cs));
      MergeConcat(members, entry, GenerateMembers(ms[1..], ns[1..], cs));
      MergeDistinct(members, entry);
      RemovedAtLast(MergeMembers(members, entry, true).value, ms[1..], ns[1..], cs, key);
    }
  }

  lemma EntryRemoves(members: seq<Member>, key: string)
    requires Distinct(members, NameOf, true)
    ensures Entry(members, Member(key, Null)).Some?
    ensures !HasKey(Entry(members, Member(key, Null)).value, key, true)
  {
    var i := FindKey(members, key, true);
    if i < |members| {
      RemoveKeepsDistinct(members, i, true);
      NamedDenoted(RemoveAt(members, i), key);
      DenoteFind(RemoveAt(members, i), key, true);
    }
  }

  // ------------------------------------------------------ the state of the walk

  /** The object still holds what is left of `from`, nothing that is still to be
      added, and both lists have distinct keys. */
  ghost predicate MergeState(members: seq<Member>, ms: seq<Member>, ns: seq<Member>)
  {
    && WellFormedList(members, true) && Apart(ms) && Apart(ns)
    && (forall m :: m in ms ==> WellFormed(m.item, true)
                                && Lookup(DenoteMembers(members, true), m.name) == Some(Denote(m.item, true)))
    && (forall n :: n in ns ==> WellFormed(n.item, true) && Height(n.item) <= CIRCULAR_LIMIT)
    && (forall n :: n in ns ==> PatchState.Known(n, ms) || n.name !in DenoteMembers(members, true))
  }

  ghost predicate Decides(after: Option<seq<Member>>, fields: map<string, Value>, ms: seq<Member>, ns: seq<Member>,
                          good: bool)
  {
    && (after.Some? && DenoteMembers(after.value, true) == PatchState.Merged(fields, ms, ns) <==> good)
    && (good ==> WellFormedList(after.value, true))
  }

  lemma {:induction false} NamedDenoted(ms: seq<Member>, key: string)
    ensures key in DenoteMembers(ms, true) <==> exists m :: m in ms && m.name == key
  {
    DenoteFind(ms, key, true);
    if m :| m in ms && m.name == key {
      var i :| 0 <= i < |ms| && ms[i] == m;
      NamedIn(ms, i);
    }
    if HasKey(ms, key, true) {
      assert ms[FindKey(ms, key, true)] in ms;
    }
  }

  lemma {:induction false} HeadUnnamed(ms: seq<Member>)
    requires Apart(ms) && ms != []
    ensures ms[0].name !in DenoteMembers(ms[1..], true)
    ensures DenoteMembers(ms, true) == DenoteMembers(ms[1..], true)[ms[0].name := Denote(ms[0].item, true)]
  {
    ApartHead(ms);
    NamedDenoted(ms[1..], ms[0].name);
  }

  lemma {:induction false} WrongAt(members: seq<Member>, after: seq<Member>, fields: map<string, Value>,
                                   ms: seq<Member>, ns: seq<Member>)
    requires ns != [] && Apart(ns) && PatchState.SameAt(members, after, ns[0].name)
    requires Lookup(DenoteMembers(members, true), ns[0].name) != Some(Denote(ns[0].item, true))
    ensures DenoteMembers(after, true) != PatchState.Merged(fields, ms, ns)
  {
    var key := ns[0].name;
    HeadUnnamed(ns);
    DenoteFind(members, key, true);
    DenoteFind(after, key, true);
  }

  /** The first list's key is removed. */
  lemma {:induction false} StateRemoved(members: seq<Member>, ms: seq<Member>, ns: seq<Member>)
    requires MergeState(members, ms, ns) && ms != []
    ensures var next := Kept(members, ms[0].name, true);
      && Entry(members, Member(ms[0].name, Null)) == Some(next)
      && MergeState(next, ms[1..], ns)
      && PatchState.Merged(DenoteMembers(next, true), ms[1..], ns)
           == PatchState.Merged(DenoteMembers(members, true), ms, ns)
  {
    hide WellFormed, Denote, Height, WellFormedList, Apart, Kept, DenoteMembers, PatchState.Merged;
    var fields, k := DenoteMembers(members, true), ms[0].name;
    ApartHead(ms);
    KeptMembers(members, k, true);
    forall n | n in ns
      ensures PatchState.Known(n, ms[1..]) || n.name !in fields - {k}
    {
      if n.name != k {
        PatchState.KnownTail(n, ms);
      }
    }
    PatchState.MergedFirst(fields, ms, ns);
  }

  /** The second list's key gets its value. */
  lemma {:induction false} StatePut(members: seq<Member>, ms: seq<Member>, ns: seq<Member>, next: seq<Member>)
    requires MergeState(members, ms, ns) && ns != [] && forall m :: m in ms ==> m.name != ns[0].name
    requires WellFormedList(next, true)
    requires DenoteMembers(next, true) == DenoteMembers(members, true)[ns[0].name := Denote(ns[0].item, true)]
    ensures MergeState(next, ms, ns[1..])
    ensures PatchState.Merged(DenoteMembers(next, true), ms, ns[1..])
      == PatchState.Merged(DenoteMembers(members, true), ms, ns)
  {
    hide WellFormed, Denote, Height, WellFormedList, Apart, DenoteMembers, PatchState.Merged;
    ApartHead(ns);
    HeadUnnamed(ns);
    NamedDenoted(ms, ns[0].name);
    PatchState.MergedSecond(DenoteMembers(members, true), ms, ns);
  }

  /** A key of both lists, with its value put or already there. */
  lemma {:induction false} StateMet(members: seq<Member>, ms: seq<Member>, ns: seq<Member>, next: seq<Member>)
    requires MergeState(members, ms, ns) && ms != [] && ns != [] && ms[0].name == ns[0].name
    requires WellFormedList(next, true)
    requires DenoteMembers(next, true) == DenoteMembers(members, true)[ns[0].name := Denote(ns[0].item, true)]
    ensures MergeState(next, ms[1..], ns[1..])
    ensures PatchState.Merged(DenoteMembers(next, true), ms[1..], ns[1..])
      == PatchState.Merged(DenoteMembers(members, true), ms, ns)
  {
    hide WellFormed, Denote, Height, WellFormedList, Apart, DenoteMembers, PatchState.Merged;
    ApartHead(ms);
    ApartHead(ns);
    HeadUnnamed(ms);
    HeadUnnamed(ns);
    forall n | n in ns[1..]
      ensures PatchState.Known(n, ms[1..]) || n.name !in DenoteMembers(next, true)
    {
      PatchState.KnownTail(n, ms);
    }
    PatchState.MergedBoth(DenoteMembers(members, true), ms, ns);
  }

  // ------------------------------------------------------------ the induction

  lemma {:induction false} WalkExact(members: seq<Member>, ms: seq<Member>, ns: seq<Member>, cs: bool)
    requires MergeState(members, ms, ns)
    ensures Decides(MergeMembers(members, GenerateMembers(ms, ns, cs), true), DenoteMembers(members, true),
                    ms, ns, WalkMerges(ms, ns, cs))
    decreases SizeMembers(ms) + 1, 0, |ms| + |ns|, 1
  {
    hide MergeMembers, MergeState, Entry, CompareJson, Generate, DuplicateRec, StrCmp, Mergeable, NullFree, Denote,
      DenoteMembers, WellFormedList;
    if ms == [] && ns == [] {
      NothingMerged(members, ms, ns);
    } else {
      var diff := if ms == [] then 1 else if ns == [] then -1 else StrCmp(ms[0].name, ns[0].name);
      if diff < 0 {
        StateRemoved(members, ms, ns);
        MergeCons(members, Member(ms[0].name, Null), GenerateMembers(ms[1..], ns, cs));
        WalkExact(Kept(members, ms[0].name, true), ms[1..], ns, cs);
      } else if diff > 0 {
        AddedExact(members, ms, ns, cs);
      } else {
        StrCmpZero(ms[0].name, ns[0].name);
        MetExact(members, ms, ns, cs);
      }
    }
  }

  lemma {:induction false} NothingMerged(members: seq<Member>, ms: seq<Member>, ns: seq<Member>)
    requires MergeState(members, ms, ns) && ms == [] && ns == []
    ensures MergeMembers(members, [], true) == Some(members) && WellFormedList(members, true)
    ensures PatchState.Merged(DenoteMembers(members, true), ms, ns) == DenoteMembers(members, true)
  {
    assert DenoteMembers(members, true) - {} == DenoteMembers(members, true);
  }

  lemma {:induction false} StateParts(members: seq<Member>, ms: seq<Member>, ns: seq<Member>)
    requires MergeState(members, ms, ns)
    ensures WellFormedList(members, true) && Distinct(members, NameOf, true) && Apart(ms) && Apart(ns)
    ensures ms != [] ==> ms[0] in ms && WellFormed(ms[0].item, true)
    ensures ms != [] ==> Lookup(DenoteMembers(members, true), ms[0].name) == Some(Denote(ms[0].item, true))
    ensures ns != [] ==> ns[0] in ns && WellFormed(ns[0].item, true) && Height(ns[0].item) <= CIRCULAR_LIMIT
    ensures ns != [] ==> PatchState.Known(ns[0], ms) || ns[0].name !in DenoteMembers(members, true)
  {
    hide WellFormed, Denote, DenoteMembers, Height;
    assert ms != [] ==> ms[0] in ms;
    assert ns != [] ==> ns[0] in ns;
  }

  /** An entry for a key that is not there sets the value if it holds no null. */
  lemma {:induction false} EntryAdds(members: seq<Member>, p: Member)
    requires WellFormedList(members, true) && p.name !in DenoteMembers(members, true)
    requires WellFormed(p.item, true) && Height(p.item) <= CIRCULAR_LIMIT
    ensures var next, v := Entry(members, p), Denote(p.item, true);
      && next.Some?
      && (Lookup(DenoteMembers(next.value, true), p.name) == Some(v) <==> !p.item.Null? && NullFree(v))
      && (!p.item.Null? && NullFree(v) ==>
            WellFormedList(next.value, true)
            && DenoteMembers(next.value, true) == DenoteMembers(members, true)[p.name := v])
  {
    hide ApplyMerge, Rfc, Denote, DenoteMembers, WellFormed, WellFormedList, NullFree, Kept, Copies;
    var v := Denote(p.item, true);
    KeptMembers(members, p.name, true);
    if !p.item.Null? {
      LowCopies(p.item);
      ReplacedIsRfc(members, p, true);
      RfcFromNothing(None, v);
    }
  }

  lemma {:induction false} AddedExact(members: seq<Member>, ms: seq<Member>, ns: seq<Member>, cs: bool)
    requires MergeState(members, ms, ns)
    requires ns != [] && (ms != [] ==> StrCmp(ms[0].name, ns[0].name) > 0)
    ensures Decides(MergeMembers(members, GenerateMembers(ms, ns, cs), true), DenoteMembers(members, true),
                    ms, ns, WalkMerges(ms, ns, cs))
    decreases SizeMembers(ms) + 1, 0, |ms| + |ns|, 0
  {
    hide MergeMembers, MergeState, Entry, CompareJson, Generate, DuplicateRec, StrCmp, Mergeable, NullFree, Denote,
      DenoteMembers, WellFormedList, WellFormed, Height, Apart, Distinct;
    StateParts(members, ms, ns);
    DuplicateExact(ns[0].item, 0);
    var p, rest := ns[0], GenerateMembers(ms, ns[1..], cs);
    MergeCons(members, p, rest);
    ApartHead(ns);
    var after := MergeMembers(members, [p] + rest, true);
    if PatchState.Known(p, ms) {
      if after.Some? {
        EntryDistinct(members, p);
        RemovedAtLast(Entry(members, p).value, ms, ns[1..], cs, p.name);
        LostAt(after.value, DenoteMembers(members, true), ms, ns);
      }
    } else {
      EntryAdds(members, p);
      var next := Entry(members, p).value;
      if !p.item.Null? && NullFree(Denote(p.item, true)) {
        StatePut(members, ms, ns, next);
        WalkExact(next, ms, ns[1..], cs);
      } else if after.Some? {
        GeneratedNames(ms, ns[1..], cs, p.name);
        MergeKeeps(next, rest, p.name);
        WrongAt(next, after.value, DenoteMembers(members, true), ms, ns);
      }
    }
  }

  lemma {:induction false} LostAt(after: seq<Member>, fields: map<string, Value>, ms: seq<Member>, ns: seq<Member>)
    requires ns != [] && Apart(ns) && !HasKey(after, ns[0].name, true)
    ensures DenoteMembers(after, true) != PatchState.Merged(fields, ms, ns)
  {
    HeadUnnamed(ns);
    DenoteFind(after, ns[0].name, true);
  }

  lemma {:induction false} MetExact(members: seq<Member>, ms: seq<Member>, ns: seq<Member>, cs: bool)
    requires MergeState(members, ms, ns)
    requires ms != [] && ns != [] && ms[0].name == ns[0].name && StrCmp(ms[0].name, ns[0].name) == 0
    ensures Decides(MergeMembers(members, GenerateMembers(ms, ns, cs), true), DenoteMembers(members, true),
                    ms, ns, WalkMerges(ms, ns, cs))
    decreases SizeMembers(ms) + 1, 0, |ms| + |ns|, 0
  {
    hide MergeMembers, MergeState, Entry, CompareJson, Generate, StrCmp, Mergeable, NullFree, Denote,
      DenoteMembers, WellFormedList, WellFormed, Height, Apart, Distinct;
    var key, f, t := ns[0].name, Denote(ms[0].item, true), Denote(ns[0].item, true);
    StateParts(members, ms, ns);
    ApartHead(ms);
    ApartHead(ns);
    var same, rest := CompareJson(ms[0].item, ns[0].item, cs), GenerateMembers(ms[1..], ns[1..], cs);
    var inner := if same then None else GenerateBelow(ms[0].item, ns[0].item, cs);
    CompareJsonDecides(ms[0].item, ns[0].item, true);
    MetEntry(members, ms[0], ns[0], cs, same);
    var next := if inner.None? then Some(members) else Entry(members, Member(key, inner.value));
    if inner.None? {
      NoPrefix(rest);
    } else {
      MergeCons(members, Member(key, inner.value), rest);
    }
    var good := if same then f == t else !ns[0].item.Null? && MergeableBelow(ms[0].item, ns[0].item, cs);
    if good {
      StateMet(members, ms, ns, next.value);
      WalkExact(next.value, ms[1..], ns[1..], cs);
    } else if next.Some? && MergeMembers(next.value, rest, true).Some? {
      GeneratedNames(ms[1..], ns[1..], cs, key);
      MergeKeeps(next.value, rest, key);
      WrongAt(next.value, MergeMembers(next.value, rest, true).value, DenoteMembers(members, true), ms, ns);
    }
  }

  /** The entry for a key of both objects. */
  lemma MetEntry(members: seq<Member>, m: Member, n: Member, cs: bool, same: bool)
    requires WellFormedList(members, true) && WellFormed(m.item, true) && WellFormed(n.item, true)
    requires m.name == n.name && Height(n.item) <= CIRCULAR_LIMIT
    requires Lookup(DenoteMembers(members, true), m.name) == Some(Denote(m.item, true))
    ensures var inner := if same then None else GenerateBelow(m.item, n.item, cs);
      var next := if inner.None? then Some(members) else Entry(members, Member(n.name, inner.value));
      var f, t := Denote(m.item, true), Denote(n.item, true);
      var good := if same then f == t else !n.item.Null? && MergeableBelow(m.item, n.item, cs);
      && (next.Some? && Lookup(DenoteMembers(next.value, true), n.name) == Some(t) <==> good)
      && (good ==> WellFormedList(next.value, true)
                   && DenoteMembers(next.value, true) == DenoteMembers(members, true)[n.name := t])
    decreases Size(m.item), 3
  {
    hide GenerateBelow, MergeableBelow, Denote, DenoteMembers, WellFormedList, WellFormed, Height, ApplyMerge, Distinct;
    var fields, t := DenoteMembers(members, true), Denote(n.item, true);
    if same {
      assert fields[n.name := fields[n.name]] == fields;
    } else {
      var i := FindKey(members, m.name, true);
      DenoteFind(members, m.name, true);
      KeyItem(members, i);
      ExactBelow(members[i].item, m.item, n.item, cs);
      var inner := GenerateBelow(m.item, n.item, cs);
      BelowNull(m.item, n.item, cs);
      KeptMembers(members, n.name, true);
      if inner.None? {
        assert fields[n.name := fields[n.name]] == fields;
      } else if !n.item.Null? {
        var replacement := ApplyMerge(Some(members[i].item), inner.value, true);
        if replacement.Some? {
          EntryValue(Kept(members, n.name, true), n.name, replacement.value);
          if MergeableBelow(m.item, n.item, cs) {
            AppendMember(Kept(members, n.name, true), Member(n.name, replacement.value), true);
            assert (fields - {n.name})[n.name := t] == fields[n.name := t];
          }
        }
      }
    }
  }

  lemma KeyItem(members: seq<Member>, i: nat)
    requires WellFormedList(members, true) && i < |members|
    ensures WellFormed(members[i].item, true)
  {
    assert members[i] in members;
  }

  lemma {:induction false} EntryValue(kept: seq<Member>, name: string, item: Json)
    requires forall m :: m in kept ==> !SameKey(NameOf(m), name, true)
    ensures Lookup(DenoteMembers(kept + [Member(name, item)], true), name) == Some(Denote(item, true))
  {
    DenoteAppend(kept, Member(name, item), true);
  }

  lemma {:induction false} BelowNull(from: Json, to: Json, cs: bool)
    ensures to.Null? <==> GenerateBelow(from, to, cs) == Some(Null)
  {
    hide AfterMembers, AfterItems, GenerateMembers;
    DuplicateExact(AfterCompare(to, from, cs), 0);
  }

  lemma {:induction false} BelowIs(from: Json, to: Json, cs: bool)
    ensures GenerateBelow(from, to, cs) == Generate(AfterCompare(from, to, cs), AfterCompare(to, from, cs), false)
    ensures MergeableBelow(from, to, cs) == Mergeable(AfterCompare(from, to, cs), AfterCompare(to, from, cs), false)
  {
    hide AfterCompare, Generate, Mergeable;
  }

  /** The recursive call, on the items as the comparison left them. */
  lemma ExactBelow(target: Json, from: Json, to: Json, cs: bool)
    requires WellFormed(target, true) && WellFormed(from, true) && WellFormed(to, true)
    requires Denote(target, true) == Denote(from, true) && Height(to) <= CIRCULAR_LIMIT
    ensures var patch := GenerateBelow(from, to, cs);
      var r := if patch.None? then Some(target) else ApplyMerge(Some(target), patch.value, true);
      && (r.Some? && Denote(r.value, true) == Denote(to, true) <==> MergeableBelow(from, to, cs))
      && (MergeableBelow(from, to, cs) ==> WellFormed(r.value, true))
    decreases Size(from), 2
  {
    hide AfterCompare, Generate, Mergeable, Denote, WellFormed, Height, ApplyMerge, GenerateBelow, MergeableBelow;
    BelowIs(from, to, cs);
    AfterSize(from, to, cs);
    AfterSize(to, from, cs);
    AfterDenotes(from, to, cs, true);
    AfterDenotes(to, from, cs, true);
    Exact(target, AfterCompare(from, to, cs), AfterCompare(to, from, cs), false);
  }

  /** A target with the value of `from` becomes `to`, or there is nothing to do
      because it has that value, exactly when the pair is mergeable. */
  lemma {:induction false} Exact(target: Json, from: Json, to: Json, cs: bool)
    requires WellFormed(target, true) && WellFormed(from, true) && WellFormed(to, true)
    requires Denote(target, true) == Denote(from, true) && Height(to) <= CIRCULAR_LIMIT
    ensures var patch := Generate(from, to, cs);
      var r := if patch.None? then Some(target) else ApplyMerge(Some(target), patch.value, true);
      && (r.Some? && Denote(r.value, true) == Denote(to, true) <==> Mergeable(from, to, cs))
      && (Mergeable(from, to, cs) ==> WellFormed(r.value, true))
    decreases Size(from), 1
  {
    if !to.Object? || !from.Object? {
      DuplicateExact(to, 0);
      LowCopies(to);
      MergeIsRfc(Some(target), to, true);
      if to.Object? {
        RfcFromNothing(Some(Denote(target, true)), Denote(to, true));
      }
    } else {
      ObjectExact(target, from, to, cs);
    }
  }

  lemma ObjectExact(target: Json, from: Json, to: Json, cs: bool)
    requires from.Object? && to.Object?
    requires WellFormed(target, true) && WellFormed(from, true) && WellFormed(to, true)
    requires Denote(target, true) == Denote(from, true) && Height(to) <= CIRCULAR_LIMIT
    ensures var patch := Generate(from, to, cs);
      var r := if patch.None? then Some(target) else ApplyMerge(Some(target), patch.value, true);
      && (r.Some? && Denote(r.value, true) == Denote(to, true) <==> Mergeable(from, to, cs))
      && (Mergeable(from, to, cs) ==> WellFormed(r.value, true))
    decreases Size(from), 0, |from.members| + |to.members| + 1
  {
    hide MergeMembers, GenerateMembers, WalkMerges, MergeState, SortList, DenoteMembers, WellFormed, WellFormedList,
      Height;
    var ms, ns := SortList(from.members, NameOf, cs), SortList(to.members, NameOf, cs);
    SortedSize(from.members, cs);
    StartMerge(target, from, to, cs);
    WalkExact(target.members, ms, ns, cs);
    var patch := GenerateMembers(ms, ns, cs);
    DenoteObject(target);
    DenoteObject(from);
    DenoteObject(to);
    if patch == [] {
      assert MergeMembers(target.members, [], true) == Some(target.members) by { NoEntries(target.members); }
    }
    var after := MergeMembers(target.members, patch, true);
    if after.Some? {
      DenoteObject(Object(after.value));
      WellFormedObject(after.value, true);
    }
  }

  lemma {:induction false} NoEntries(members: seq<Member>)
    ensures MergeMembers(members, [], true) == Some(members)
  {
  }

  lemma {:induction false} DenoteObject(j: Json)
    requires j.Object?
    ensures Denote(j, true) == VObject(DenoteMembers(j.members, true))
  {
  }

  lemma {:induction false} StartMerge(target: Json, from: Json, to: Json, cs: bool)
    requires target.Object? && from.Object? && to.Object?
    requires WellFormed(target, true) && WellFormed(from, true) && WellFormed(to, true)
    requires Denote(target, true) == Denote(from, true) && Height(to) <= CIRCULAR_LIMIT
    ensures var ms, ns := SortList(from.members, NameOf, cs), SortList(to.members, NameOf, cs);
      && MergeState(target.members, ms, ns)
      && PatchState.Merged(DenoteMembers(target.members, true), ms, ns) == DenoteMembers(to.members, true)
  {
    hide Height, WellFormed, SortList, Denote, DenoteMembers, Distinct, Apart;
    var ms, ns := SortList(from.members, NameOf, cs), SortList(to.members, NameOf, cs);
    var fields := DenoteMembers(target.members, true);
    DenoteObject(target);
    DenoteObject(from);
    WellFormedObject(target.members, true);
    SortedObject(from, cs);
    SortedObject(to, cs);
    forall m | m in ms
      ensures Lookup(fields, m.name) == Some(Denote(m.item, true))
    {
      DenoteIsMembers(from.members, m.name, true);
    }
    forall n | n in ns && n.name in fields
      ensures PatchState.Known(n, ms)
    {
      NamedDenoted(ms, n.name);
    }
    assert fields - fields.Keys == map[];
  }

  lemma {:induction false} SortedObject(j: Json, cs: bool)
    requires j.Object? && WellFormed(j, true)
    ensures var ms := SortList(j.members, NameOf, cs);
      && Apart(ms) && Distinct(j.members, NameOf, true)
      && DenoteMembers(ms, true) == DenoteMembers(j.members, true)
      && (forall m :: m in ms ==> m in j.members && WellFormed(m.item, true))
      && (Height(j) <= CIRCULAR_LIMIT ==> forall m :: m in ms ==> Height(m.item) <= CIRCULAR_LIMIT)
  {
    hide SortList, DenoteMembers;
    var ms := SortList(j.members, NameOf, cs);
    SortPermutes(j.members, NameOf, cs);
    DistinctByMultiset(j.members, ms, NameOf, true);
    DenoteSorted(j.members, true, cs);
    forall i, k | 0 <= i < k < |ms|
      ensures ms[i].name != ms[k].name
    {
      assert !SameKey(NameOf(ms[i]), NameOf(ms[k]), true);
    }
    forall m | m in ms
      ensures m in j.members
    {
      SortMembers(j.members, NameOf, cs, m);
    }
  }

  /** The merge round trip through the case-sensitive functions, exactly. */
  lemma MergeExactly(from: Json, to: Json)
    requires WellFormed(from, true) && WellFormed(to, true) && Height(to) <= CIRCULAR_LIMIT
    ensures var patch := Generate(from, to, true);
      var r := if patch.None? then Some(from) else ApplyMerge(Some(from), patch.value, true);
      r.Some? && Denote(r.value, true) == Denote(to, true) <==> Mergeable(from, to, true)
  {
    Exact(from, from, to, true);
  }
}
