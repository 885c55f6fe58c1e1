/** What the walk over two member lists keeps, and why a changed key that does not
    survive the decoder can never be put right by the other patches. */
module PatchState {
  import opened Text
  import opened Json
  import opened Comparison
  import opened Patch
  import opened PatchKeys
  import opened PatchSteps
  import opened PatchLift
  import opened PatchWalk

  // ------------------------------------------------------- which keys change

  /** The member has a partner whose item is patched from within. */
  predicate Kept(m: Member, ns: seq<Member>)
  {
    exists n :: n in ns && n.name == m.name && !Replaced(m.item, n.item)
  }

  predicate Known(n: Member, ms: seq<Member>)
  {
    exists m :: m in ms && m.name == n.name
  }

  /** Every key that is removed, replaced or added survives its decoder. */
  predicate KeysSurvive(ms: seq<Member>, ns: seq<Member>)
  {
    && (forall m :: m in ms ==> Survives(m.name) || Kept(m, ns))
    && (forall n :: n in ns ==> Survives(n.name) || Known(n, ms))
  }

  /** Which of the keys still ahead are detached (removed or replaced) and which
      are added. */
  ghost predicate Steps(ms: seq<Member>, ns: seq<Member>, detached: set<string>, added: set<string>)
  {
    && Ascends(ms, true) && Ascends(ns, true)
    && (forall m :: m in ms ==> m.name !in added && (m.name in detached <==> !Kept(m, ns)))
    && (forall n :: n in ns ==> (n.name in added <==> !Known(n, ms)))
  }

  lemma InTail<T>(xs: seq<T>, x: T)
    requires xs != []
    ensures x in xs[1..] ==> x in xs
    ensures x in xs ==> x == xs[0] || x in xs[1..]
  {
    assert xs == [xs[0]] + xs[1..];
  }

  lemma AscendsFirst(ms: seq<Member>, m: Member)
    requires Ascends(ms, true) && ms != [] && m in ms
    ensures m == ms[0] || StrCmp(ms[0].name, m.name) < 0
    ensures m.name == ms[0].name ==> m == ms[0]
  {
    var i :| 0 <= i < |ms| && ms[i] == m;
    if i > 0 {
      assert Compare(NameOf(ms[0]), NameOf(ms[i]), true) < 0;
      StrCmpZero(ms[0].name, m.name);
    }
  }

  lemma BelowOther(m: Member, ns: seq<Member>, n: Member)
    requires Ascends(ns, true) && n in ns && StrCmp(m.name, ns[0].name) < 0
    ensures StrCmp(m.name, n.name) < 0 && m.name != n.name
  {
    AscendsFirst(ns, n);
    if n != ns[0] {
      StrCmpTransitive(m.name, ns[0].name, n.name);
    }
    StrCmpZero(m.name, n.name);
  }

  /** The first key of an ascending list is its own, and the rest ascends. */
  lemma HeadApart(ms: seq<Member>)
    requires Ascends(ms, true) && ms != []
    ensures Ascends(ms[1..], true) && ms[0] in ms && ms[0].name !in DenoteMembers(ms[1..], true)
    ensures forall m :: m in ms[1..] ==> m in ms && m.name != ms[0].name
    ensures forall m :: m in ms ==> m == ms[0] || m in ms[1..]
  {
    HeadAbsent(ms, true);
    forall m | m in ms
      ensures m == ms[0] || m in ms[1..]
    {
      InTail(ms, m);
    }
    forall m | m in ms[1..]
      ensures m in ms && m.name != ms[0].name
    {
      InTail(ms, m);
      DenoteKeyOf(ms[1..], m);
    }
  }

  lemma {:induction false} DenoteKeyOf(ms: seq<Member>, m: Member)
    requires m in ms
    ensures m.name in DenoteMembers(ms, true)
  {
    var i :| 0 <= i < |ms| && ms[i] == m;
    NamedIn(ms, i);
  }

  lemma KeptTail(m: Member, ns: seq<Member>)
    requires ns != [] && ns[0].name != m.name
    ensures Kept(m, ns) <==> Kept(m, ns[1..])
  {
    hide Replaced;
    forall n | n in ns && n.name == m.name
      ensures n in ns[1..]
    {
      InTail(ns, n);
    }
    forall n | n in ns[1..]
      ensures n in ns
    {
      InTail(ns, n);
    }
  }

  lemma KnownTail(n: Member, ms: seq<Member>)
    requires ms != [] && ms[0].name != n.name
    ensures Known(n, ms) <==> Known(n, ms[1..])
  {
    forall m | m in ms && m.name == n.name
      ensures m in ms[1..]
    {
      InTail(ms, m);
    }
    forall m | m in ms[1..]
      ensures m in ms
    {
      InTail(ms, m);
    }
  }

  lemma KeptHead(m: Member, ns: seq<Member>)
    requires ns != [] && Ascends(ns, true) && ns[0].name == m.name
    ensures Kept(m, ns) <==> !Replaced(m.item, ns[0].item)
  {
    hide Replaced;
    assert ns[0] in ns;
    if Kept(m, ns) {
      var n :| n in ns && n.name == m.name && !Replaced(m.item, n.item);
      AscendsFirst(ns, n);
    }
  }

  /** A key of both lists. */
  lemma StepBoth(ms: seq<Member>, ns: seq<Member>, detached: set<string>, added: set<string>)
    requires Steps(ms, ns, detached, added) && ms != [] && ns != [] && ms[0].name == ns[0].name
    ensures Steps(ms[1..], ns[1..], detached, added)
    ensures ms[0].name in detached <==> Replaced(ms[0].item, ns[0].item)
    ensures ms[0].name !in added
  {
    hide Replaced, Kept, Known, Ascends;
    HeadApart(ms);
    HeadApart(ns);
    KeptHead(ms[0], ns);
    forall m | m in ms[1..]
      ensures Kept(m, ns) <==> Kept(m, ns[1..])
    {
      KeptTail(m, ns);
    }
    forall n | n in ns[1..]
      ensures Known(n, ms) <==> Known(n, ms[1..])
    {
      KnownTail(n, ms);
    }
  }

  /** A key of the first list only. */
  lemma StepFirst(ms: seq<Member>, ns: seq<Member>, detached: set<string>, added: set<string>)
    requires Steps(ms, ns, detached, added) && ms != []
    requires ns != [] ==> StrCmp(ms[0].name, ns[0].name) < 0
    ensures Steps(ms[1..], ns, detached, added) && ms[0].name in detached
    ensures forall n :: n in ns ==> n.name != ms[0].name
  {
    hide Replaced, Known, Ascends, StrCmp;
    HeadApart(ms);
    forall n | n in ns
      ensures n.name != ms[0].name && (Known(n, ms) <==> Known(n, ms[1..]))
    {
      BelowOther(ms[0], ns, n);
      KnownTail(n, ms);
    }
  }

  /** A key of the second list only. */
  lemma StepSecond(ms: seq<Member>, ns: seq<Member>, detached: set<string>, added: set<string>)
    requires Steps(ms, ns, detached, added) && ns != []
    requires ms != [] ==> StrCmp(ns[0].name, ms[0].name) < 0
    ensures Steps(ms, ns[1..], detached, added) && ns[0].name in added
    ensures forall m :: m in ms ==> m.name != ns[0].name
  {
    hide Replaced, Kept, Ascends, StrCmp;
    HeadApart(ns);
    forall m | m in ms
      ensures m.name != ns[0].name && (Kept(m, ns) <==> Kept(m, ns[1..]))
    {
      BelowOther(ns[0], ms, m);
      KeptTail(m, ns);
    }
  }

  // --------------------------------------------------------- lookups in lists

  lemma {:induction false} FindIs(members: seq<Member>, key: string, cs: bool, i: nat)
    requires i < |members| && SameKey(key, members[i].name, cs)
    requires forall k :: 0 <= k < i ==> !SameKey(key, members[k].name, cs)
    ensures FindKey(members, key, cs) == i
  {
  }

  lemma FindNone(members: seq<Member>, key: string, cs: bool)
    requires forall k :: 0 <= k < |members| ==> !SameKey(key, members[k].name, cs)
    ensures !HasKey(members, key, cs)
  {
  }

  /** The key finds the same item in both lists, or none. */
  predicate SameAt(before: seq<Member>, after: seq<Member>, key: string)
  {
    && (HasKey(before, key, true) <==> HasKey(after, key, true))
    && (HasKey(before, key, true) ==>
          before[FindKey(before, key, true)].item == after[FindKey(after, key, true)].item)
  }

  /** Taking out a member moves the others up at most. */
  lemma {:induction false} FindBehind(members: seq<Member>, i: nat, key: string, cs: bool)
    requires i < |members| && FindKey(members, key, cs) != i
    ensures var rest, f := RemoveAt(members, i), FindKey(members, key, cs);
      FindKey(rest, key, cs) == if f < i then f else f - 1
  {
    hide SameKey;
    var rest, f := RemoveAt(members, i), FindKey(members, key, cs);
    var g := if f < i then f else f - 1;
    forall k | 0 <= k < g
      ensures !SameKey(key, rest[k].name, cs)
    {
      assert rest[k] == members[if k < i then k else k + 1];
    }
    if f < |members| {
      assert rest[g] == members[f];
      FindIs(rest, key, cs, g);
    } else {
      FindNone(rest, key, cs);
    }
  }

  lemma RemoveSameAt(members: seq<Member>, i: nat, key: string)
    requires i < |members| && members[i].name != key
    ensures SameAt(members, RemoveAt(members, i), key)
  {
    FindBehind(members, i, key, true);
  }

  lemma {:induction false} AppendFind(members: seq<Member>, m: Member, key: string, cs: bool)
    ensures HasKey(members, key, cs) ==> FindKey(members + [m], key, cs) == FindKey(members, key, cs)
    ensures !HasKey(members, key, cs) && !SameKey(key, m.name, cs) ==> !HasKey(members + [m], key, cs)
  {
    hide SameKey;
    if HasKey(members, key, cs) {
      FindIs(members + [m], key, cs, FindKey(members, key, cs));
    } else if !SameKey(key, m.name, cs) {
      FindNone(members + [m], key, cs);
    }
  }

  lemma {:induction false} DropSameAt(members: seq<Member>, dropped: string, key: string)
    requires DropMember(members, dropped).Some? && Fold(dropped) != Fold(key)
    ensures SameAt(members, DropMember(members, dropped).value, key)
  {
    RemoveSameAt(members, FindKey(members, dropped, false), key);
  }

  lemma PutSameAt(members: seq<Member>, put: string, item: Json, key: string)
    requires put != key
    ensures SameAt(members, PutMember(members, put, item), key)
  {
    var i := FindKey(members, put, true);
    if i < |members| {
      RemoveSameAt(members, i, key);
    }
    AppendFind(Without(members, put), Member(put, item), key, true);
  }

  lemma SetSameAt(members: seq<Member>, i: nat, item: Json, key: string)
    requires i < |members| && members[i].name != key
    ensures SameAt(members, members[i := Member(members[i].name, item)], key)
  {
    FindKeyNames(members, members[i := Member(members[i].name, item)], key, true);
  }

  // ------------------------------------------------------ the fields in the end

  /** What the walk makes of the fields when every patch does what it should. */
  function Merged(fields: map<string, Value>, ms: seq<Member>, ns: seq<Member>): map<string, Value>
  {
    (fields - DenoteMembers(ms, true).Keys) + DenoteMembers(ns, true)
  }

  lemma MergedBoth(fields: map<string, Value>, ms: seq<Member>, ns: seq<Member>)
    requires ms != [] && ns != [] && ms[0].name == ns[0].name
    requires ns[0].name !in DenoteMembers(ms[1..], true) && ns[0].name !in DenoteMembers(ns[1..], true)
    ensures Merged(fields[ns[0].name := Denote(ns[0].item, true)], ms[1..], ns[1..]) == Merged(fields, ms, ns)
  {
  }

  lemma MergedFirst(fields: map<string, Value>, ms: seq<Member>, ns: seq<Member>)
    requires ms != []
    ensures Merged(fields - {ms[0].name}, ms[1..], ns) == Merged(fields, ms, ns)
  {
  }

  lemma {:induction false} MergedSecond(fields: map<string, Value>, ms: seq<Member>, ns: seq<Member>)
    requires ns != [] && ns[0].name !in DenoteMembers(ms, true) && ns[0].name !in DenoteMembers(ns[1..], true)
    ensures Merged(fields[ns[0].name := Denote(ns[0].item, true)], ms, ns[1..]) == Merged(fields, ms, ns)
  {
  }

  // ---------------------------------------------------- keys out of reach

  /** No patch for these keys finds or writes the key. */
  ghost predicate OutOfReach(detached: set<string>, added: set<string>, key: string)
  {
    && (forall x :: x in detached ==> Fold(Decoded(x)) != Fold(key))
    && (forall x :: x in added ==> Decoded(x) != key)
  }

  lemma {:induction false} BothSameAt(members: seq<Member>, m: Member, n: Member, key: string)
    requires WalkBoth(members, m, n).Some?
    requires if Replaced(m.item, n.item) then Fold(Decoded(m.name)) != Fold(key) else m.name != key
    ensures SameAt(members, WalkBoth(members, m, n).value, key)
  {
    hide CreatePatches, ApplyAll, Decoded, DropMember, PutMember, Replaced;
    if Replaced(m.item, n.item) {
      var rest := DropMember(members, Decoded(m.name)).value;
      DropSameAt(members, Decoded(m.name), key);
      PutSameAt(rest, Decoded(m.name), n.item, key);
    } else if CreatePatches("", m.item, n.item, true) != [] {
      var i := FindKey(members, m.name, true);
      var r := ApplyAll(members[i].item, CreatePatches("", m.item, n.item, true), true);
      SetSameAt(members, i, r.tree, key);
    }
  }

  /** A key out of reach keeps its item through the whole walk. */
  lemma {:induction false} WalkKeeps(members: seq<Member>, ms: seq<Member>, ns: seq<Member>,
                                     detached: set<string>, added: set<string>, key: string)
    requires Steps(ms, ns, detached, added) && OutOfReach(detached, added, key)
    requires forall m :: m in ms && m.name == key ==> key in detached
    requires Walk(members, ms, ns).Some?
    ensures SameAt(members, Walk(members, ms, ns).value, key)
    decreases |ms| + |ns|
  {
    hide Decoded, Fold, WalkBoth, DropMember, PutMember, Steps, Replaced, StrCmp;
    if ms != [] || ns != [] {
      var diff := if ms == [] then 1 else if ns == [] then -1 else Compare(ms[0].name, ns[0].name, true);
      if diff == 0 {
        StrCmpZero(ms[0].name, ns[0].name);
        StepBoth(ms, ns, detached, added);
        BothSameAt(members, ms[0], ns[0], key);
        WalkKeeps(WalkBoth(members, ms[0], ns[0]).value, ms[1..], ns[1..], detached, added, key);
      } else if diff < 0 {
        StepFirst(ms, ns, detached, added);
        DropSameAt(members, Decoded(ms[0].name), key);
        WalkKeeps(DropMember(members, Decoded(ms[0].name)).value, ms[1..], ns, detached, added, key);
      } else {
        if ms != [] {
          StrCmpFlip(ms[0].name, ns[0].name);
        }
        StepSecond(ms, ns, detached, added);
        PutSameAt(members, Decoded(ns[0].name), ns[0].item, key);
        WalkKeeps(PutMember(members, Decoded(ns[0].name), ns[0].item), ms, ns[1..], detached, added, key);
      }
    }
  }

  // ------------------------------------------------- keys that do not survive

  /** A key with the most that decoding may still change. */
  lemma {:induction false} MostUnsettled(keys: set<string>) returns (key: string)
    requires keys != {}
    ensures key in keys && forall x :: x in keys ==> Unsettled(x) <= Unsettled(key)
    decreases |keys|
  {
    hide Unsettled;
    key :| key in keys;
    var rest := keys - {key};
    if rest != {} {
      var other := MostUnsettled(rest);
      assert forall x :: x in keys ==> x == key || x in rest;
      if Unsettled(key) < Unsettled(other) {
        key := other;
      }
    }
  }

  /** Of the keys that do not survive one is decoded from no other. */
  lemma MostOutOfReach(detached: set<string>, added: set<string>) returns (key: string)
    requires exists x :: x in detached + added && !Survives(x)
    ensures key in detached + added && !Survives(key) && OutOfReach(detached, added, key)
  {
    hide Decoded, Survives, Unsettled, Fold;
    var bad := set x | x in detached + added && !Survives(x);
    assert bad != {} by {
      var y :| y in detached + added && !Survives(y);
      assert y in bad;
    }
    key := MostUnsettled(bad);
    forall x | x in detached + added
      ensures Fold(Decoded(x)) != Fold(key)
    {
      assert !Survives(x) ==> x in bad;
      if Fold(Decoded(x)) == Fold(key) {
        DecodesToLess(x, key);
      }
    }
  }

  lemma {:induction false} ReplacedDiffers(from: Json, to: Json)
    requires Replaced(from, to)
    ensures Denote(from, true) != Denote(to, true)
  {
  }

  /** The keys two whole lists detach and add. */
  lemma Changes(ms: seq<Member>, ns: seq<Member>) returns (detached: set<string>, added: set<string>)
    requires Ascends(ms, true) && Ascends(ns, true)
    ensures Steps(ms, ns, detached, added)
    ensures forall x :: x in detached ==> exists m :: m in ms && m.name == x && !Kept(m, ns)
    ensures forall x :: x in added ==> exists n :: n in ns && n.name == x && !Known(n, ms)
  {
    hide Kept;
    detached := set m | m in ms && !Kept(m, ns) :: m.name;
    added := set n | n in ns && !Known(n, ms) :: n.name;
    forall m, m' | m in ms && m' in ms && m.name == m'.name
      ensures m == m'
    {
      AscendsNames(ms, m, m');
    }
  }

  lemma AscendsNames(ms: seq<Member>, m: Member, m': Member)
    requires Ascends(ms, true) && m in ms && m' in ms && m.name == m'.name
    ensures m == m'
  {
    var i :| 0 <= i < |ms| && ms[i] == m;
    var j :| 0 <= j < |ms| && ms[j] == m';
    StrCmpZero(m.name, m'.name);
    assert NameOf(ms[i]) == NameOf(ms[j]);
  }

  lemma {:induction false} DenoteAscends(ms: seq<Member>, m: Member)
    requires Ascends(ms, true) && m in ms
    ensures m.name in DenoteMembers(ms, true) && DenoteMembers(ms, true)[m.name] == Denote(m.item, true)
  {
    DenoteFind(ms, m.name, true);
    DenoteKeyOf(ms, m);
    var i := FindKey(ms, m.name, true);
    AscendsNames(ms, ms[i], m);
  }

  /** Where a changed key does not survive, the walk fails or ends elsewhere. */
  lemma {:induction false} BadKeyBreaks(members: seq<Member>, ms: seq<Member>, ns: seq<Member>)
    requires Ascends(ms, true) && Ascends(ns, true) && !KeysSurvive(ms, ns)
    requires DenoteMembers(members, true) == DenoteMembers(ms, true)
    requires Walk(members, ms, ns).Some?
    ensures DenoteMembers(Walk(members, ms, ns).value, true) != DenoteMembers(ns, true)
  {
    hide Decoded, Survives, Walk, Ascends, Replaced, Denote, DenoteMembers, Fold, FindKey, Steps;
    var detached, added := Changes(ms, ns);
    BadKey(ms, ns, detached, added);
    var key := MostOutOfReach(detached, added);
    KeyDetached(ms, ns, detached, added, key);
    WalkKeeps(members, ms, ns, detached, added, key);
    var after := Walk(members, ms, ns).value;
    DenoteFind(members, key, true);
    DenoteFind(after, key, true);
    if key in added {
      var n :| n in ns && n.name == key && !Known(n, ms);
      DenoteAscends(ns, n);
      if key in DenoteMembers(ms, true) {
        DenoteKey(ms, key, true);
      }
    } else {
      var m :| m in ms && m.name == key && !Kept(m, ns);
      DenoteAscends(ms, m);
      if key in DenoteMembers(ns, true) {
        DenoteKey(ns, key, true);
        var i :| 0 <= i < |ns| && Norm(ns[i].name, true) == key;
        DenoteAscends(ns, ns[i]);
        assert Replaced(m.item, ns[i].item);
        ReplacedDiffers(m.item, ns[i].item);
      }
    }
  }

  lemma BadKey(ms: seq<Member>, ns: seq<Member>, detached: set<string>, added: set<string>)
    requires Steps(ms, ns, detached, added) && !KeysSurvive(ms, ns)
    ensures exists x :: x in detached + added && !Survives(x)
  {
    hide Survives, Kept, Known;
    if m :| m in ms && !Survives(m.name) && !Kept(m, ns) {
      assert m.name in detached + added;
    } else {
      var n :| n in ns && !Survives(n.name) && !Known(n, ms);
      assert n.name in detached + added;
    }
  }

  lemma KeyDetached(ms: seq<Member>, ns: seq<Member>, detached: set<string>, added: set<string>, key: string)
    requires Steps(ms, ns, detached, added) && key in detached + added
    ensures forall m :: m in ms && m.name == key ==> key in detached
  {
    hide Kept, Known;
  }
}
