/** The walk over two member lists, class by class: members whose keys differ by case alone
    form a class, detaching takes the first of a class, and no class knows of another. */
module PatchClasses {
  import opened Text
  import opened Json
  import opened Comparison
  import opened Patch
  import opened PatchKeys
  import opened PatchSteps
  import opened PatchLift
  import opened PatchWalk
  import opened PatchState
  import opened ComparisonExact

  /** The members of one class, in their order. */
  function Class(ms: seq<Member>, c: string): seq<Member>
  {
    Chosen(ms, c, false)
  }

  lemma {:induction false} ClassIs(ms: seq<Member>, c: string)
    ensures forall m :: m in Class(ms, c) <==> m in ms && Fold(m.name) == c
  {
    ChosenIs(ms, c, false);
  }

  lemma {:induction false} ClassConcat(xs: seq<Member>, ys: seq<Member>, c: string)
    ensures Class(xs + ys, c) == Class(xs, c) + Class(ys, c)
  {
    ChosenConcat(xs, ys, c, false);
  }

  lemma {:induction false} ClassHead(ms: seq<Member>, c: string)
    requires ms != []
    ensures Class(ms, c) == if Fold(ms[0].name) == c then [ms[0]] + Class(ms[1..], c) else Class(ms[1..], c)
  {
    hide Fold;
    NoPrefix(Class(ms[1..], c));
  }

  lemma {:induction false} ClassOne(m: Member, c: string)
    ensures Class([m], c) == if Fold(m.name) == c then [m] else []
  {
    hide Fold;
    ClassHead([m], c);
    assert [m][1..] == [] && Class([], c) == [];
  }

  /** How many members of its class come before a member. */
  function Rank(ms: seq<Member>, i: nat): nat
    requires i < |ms|
  {
    |Class(ms[..i], Fold(ms[i].name))|
  }

  /** Taking out or changing a member of a class. */
  lemma {:induction false} ClassAt(ms: seq<Member>, i: nat)
    requires i < |ms|
    ensures var c, r := Fold(ms[i].name), Rank(ms, i);
      && r < |Class(ms, c)| && Class(ms, c)[r] == ms[i] && Class(ms, c)[..r] == Class(ms[..i], c)
      && Class(RemoveAt(ms, i), c) == RemoveAt(Class(ms, c), r)
      && forall x: Member :: x.name == ms[i].name ==> Class(ms[i := x], c) == Class(ms, c)[r := x]
  {
    hide Class, Fold;
    var c, before, after := Fold(ms[i].name), ms[..i], ms[i + 1..];
    var p, q := Class(before, c), Class(after, c);
    assert ms == before + ([ms[i]] + after);
    ClassConcat(before, [ms[i]] + after, c);
    ClassConcat([ms[i]], after, c);
    ClassOne(ms[i], c);
    assert Class(ms, c) == p + ([ms[i]] + q);
    ClassConcat(before, after, c);
    assert RemoveAt(p + ([ms[i]] + q), |p|) == p + q;
    forall x: Member | x.name == ms[i].name
      ensures Class(ms[i := x], c) == Class(ms, c)[|p| := x]
    {
      assert ms[i := x] == before + ([x] + after);
      ClassConcat(before, [x] + after, c);
      ClassConcat([x], after, c);
      ClassOne(x, c);
      assert (p + ([ms[i]] + q))[|p| := x] == p + ([x] + q);
    }
  }

  lemma {:induction false} ClassBeside(ms: seq<Member>, i: nat, c: string)
    requires i < |ms| && Fold(ms[i].name) != c
    ensures Class(RemoveAt(ms, i), c) == Class(ms, c)
    ensures forall x: Member :: x.name == ms[i].name ==> Class(ms[i := x], c) == Class(ms, c)
  {
    hide Class, Fold;
    var before, after := ms[..i], ms[i + 1..];
    assert ms == before + ([ms[i]] + after);
    ClassConcat(before, [ms[i]] + after, c);
    ClassConcat([ms[i]], after, c);
    ClassOne(ms[i], c);
    ClassConcat(before, after, c);
    NoPrefix(Class(after, c));
    forall x: Member | x.name == ms[i].name
      ensures Class(ms[i := x], c) == Class(ms, c)
    {
      assert ms[i := x] == before + ([x] + after);
      ClassConcat(before, [x] + after, c);
      ClassConcat([x], after, c);
      ClassOne(x, c);
    }
  }

  lemma SameClass(a: string, b: string, cs: bool)
    ensures SameKey(a, b, cs) ==> Fold(a) == Fold(b)
    ensures SameKey(a, b, false) <==> Fold(a) == Fold(b)
  {
  }

  /** A key is found in its class where it is found. */
  lemma {:induction false} ClassFind(ms: seq<Member>, key: string, cs: bool)
    ensures var i, j := FindKey(ms, key, cs), FindKey(Class(ms, Fold(key)), key, cs);
      && (i < |ms| <==> j < |Class(ms, Fold(key))|)
      && (i < |ms| ==> Fold(ms[i].name) == Fold(key) && j == Rank(ms, i))
  {
    hide Class, Fold, SameKey;
    var c, i := Fold(key), FindKey(ms, key, cs);
    if i < |ms| {
      SameClass(key, ms[i].name, cs);
      ClassAt(ms, i);
      var r := Rank(ms, i);
      forall k | 0 <= k < r
        ensures !SameKey(key, Class(ms, c)[k].name, cs)
      {
        ClassIs(ms[..i], c);
        assert Class(ms, c)[k] == Class(ms[..i], c)[k];
        assert Class(ms[..i], c)[k] in ms[..i];
      }
      FindIs(Class(ms, c), key, cs, r);
    } else {
      forall k | 0 <= k < |Class(ms, c)|
        ensures !SameKey(key, Class(ms, c)[k].name, cs)
      {
        ClassIs(ms, c);
        assert Class(ms, c)[k] in ms;
      }
      FindNone(Class(ms, c), key, cs);
    }
  }

  // ------------------------------------------------------- the steps on a class

  /** A detach takes the first member of its class. */
  lemma {:induction false} ClassDrop(ms: seq<Member>, key: string, c: string)
    ensures var rest := DropMember(ms, key);
      && (rest.None? <==> Class(ms, Fold(key)) == [])
      && (rest.Some? ==> Class(rest.value, c) == if c == Fold(key) then Class(ms, c)[1..] else Class(ms, c))
    ensures DropMember(Class(ms, Fold(key)), key)
      == if Class(ms, Fold(key)) == [] then None else Some(Class(ms, Fold(key))[1..])
  {
    hide Class, Fold, RemoveAt, Rank;
    var i, cl := FindKey(ms, key, false), Class(ms, Fold(key));
    ClassFind(ms, key, false);
    ClassIs(ms, Fold(key));
    if cl != [] {
      assert cl[0] in cl;
      SameClass(key, cl[0].name, false);
      FindIs(cl, key, false, 0);
      RemoveFirst(cl);
    }
    if i < |ms| {
      ClassAt(ms, i);
      if c != Fold(key) {
        ClassBeside(ms, i, c);
      }
    }
  }

  lemma {:induction false} ClassPut(ms: seq<Member>, key: string, item: Json, c: string)
    ensures Class(PutMember(ms, key, item), c)
      == if c == Fold(key) then PutMember(Class(ms, c), key, item) else Class(ms, c)
  {
    hide Class, Fold, RemoveAt;
    var i, m := FindKey(ms, key, true), Member(key, item);
    ClassFind(ms, key, true);
    ClassConcat(Without(ms, key), [m], c);
    ClassOne(m, c);
    NoSuffix(Class(Without(ms, key), c));
    if i < |ms| {
      ClassAt(ms, i);
      if c != Fold(key) {
        ClassBeside(ms, i, c);
      }
    }
  }

  /** The patches for a key of both objects. */
  lemma {:induction false} ClassBoth(ms: seq<Member>, m: Member, n: Member, c: string)
    requires Replaced(m.item, n.item) ==> Fold(Decoded(m.name)) == Fold(m.name)
    ensures var next := WalkBoth(ms, m, n);
      && (next.None? <==> WalkBoth(Class(ms, Fold(m.name)), m, n).None?)
      && (next.Some? ==>
            Class(next.value, c)
              == if c == Fold(m.name) then WalkBoth(Class(ms, c), m, n).value else Class(ms, c))
  {
    hide Class, Fold, DropMember, PutMember, Replaced, CreatePatches, ApplyAll, Decoded;
    if Replaced(m.item, n.item) {
      var key := Decoded(m.name);
      ClassDrop(ms, key, c);
      ClassDrop(ms, key, Fold(key));
      var rest := DropMember(ms, key);
      if rest.Some? {
        ClassPut(rest.value, key, n.item, c);
      }
    } else {
      ClassWithin(ms, m, n, c);
    }
  }

  lemma {:induction false} ClassWithin(ms: seq<Member>, m: Member, n: Member, c: string)
    requires !Replaced(m.item, n.item)
    ensures var next := WalkBoth(ms, m, n);
      && (next.None? <==> WalkBoth(Class(ms, Fold(m.name)), m, n).None?)
      && (next.Some? ==>
            Class(next.value, c)
              == if c == Fold(m.name) then WalkBoth(Class(ms, c), m, n).value else Class(ms, c))
  {
    hide Class, Fold, Replaced, CreatePatches, ApplyAll;
    var patches, i := CreatePatches("", m.item, n.item, true), FindKey(ms, m.name, true);
    ClassFind(ms, m.name, true);
    if patches != [] && i < |ms| {
      ClassAt(ms, i);
      var r := ApplyAll(ms[i].item, patches, true);
      var x := Member(ms[i].name, r.tree);
      if c == Fold(m.name) {
        assert Class(ms[i := x], c) == Class(ms, c)[Rank(ms, i) := x];
      } else {
        ClassBeside(ms, i, c);
        assert Class(ms[i := x], c) == Class(ms, c);
      }
    }
  }

  // -------------------------------------------------------------- whole walks

  datatype Advance = Advance(next: Option<seq<Member>>, ms: seq<Member>, ns: seq<Member>, key: string)

  /** The first step of a walk. */
  function Step(members: seq<Member>, ms: seq<Member>, ns: seq<Member>): Advance
    requires ms != [] || ns != []
  {
    var diff := if ms == [] then 1 else if ns == [] then -1 else Compare(ms[0].name, ns[0].name, true);
    if diff == 0 then Advance(WalkBoth(members, ms[0], ns[0]), ms[1..], ns[1..], ms[0].name)
    else if diff < 0 then Advance(DropMember(members, Decoded(ms[0].name)), ms[1..], ns, ms[0].name)
    else Advance(Some(PutMember(members, Decoded(ns[0].name), ns[0].item)), ms, ns[1..], ns[0].name)
  }

  lemma {:induction false} WalkSteps(members: seq<Member>, ms: seq<Member>, ns: seq<Member>)
    requires ms != [] || ns != []
    ensures var s := Step(members, ms, ns);
      Walk(members, ms, ns) == if s.next.None? then None else Walk(s.next.value, s.ms, s.ns)
  {
    hide WalkBoth, DropMember, PutMember, Decoded, Compare;
  }

  /** Decoding stays in the class of every changed key. */
  ghost predicate StayInClass(keys: set<string>)
  {
    forall x :: x in keys ==> Fold(Decoded(x)) == Fold(x)
  }

  lemma {:induction false} ClassAscends(ms: seq<Member>, c: string)
    requires Ascends(ms, true) && ms != [] && Class(ms, c) != []
    ensures Ascends(ms[1..], true)
    ensures Fold(ms[0].name) == c ==> Class(ms, c)[0] == ms[0] && Class(ms, c)[1..] == Class(ms[1..], c)
    ensures Fold(ms[0].name) != c ==> Class(ms, c) == Class(ms[1..], c) && Class(ms, c)[0] in ms[1..]
  {
    hide Class, Fold;
    ClassHead(ms, c);
    AscendsTail(ms, true);
    if Fold(ms[0].name) == c {
      TailOf(ms[0], Class(ms[1..], c));
    } else {
      ClassIs(ms[1..], c);
      assert Class(ms[1..], c)[0] in Class(ms[1..], c);
    }
  }

  /** A key below the head of an ascending list is below the head of every class. */
  lemma {:induction false} BelowClass(m: Member, ns: seq<Member>, c: string)
    requires Ascends(ns, true) && (ns != [] ==> StrCmp(m.name, ns[0].name) < 0) && Class(ns, c) != []
    ensures StrCmp(m.name, Class(ns, c)[0].name) < 0
  {
    hide Class, StrCmp, Fold;
    ClassIs(ns, c);
    var n := Class(ns, c)[0];
    assert n in Class(ns, c);
    BelowOther(m, ns, n);
  }

  /** Which keys change, after a step; and what the step itself does. */
  lemma StepRest(members: seq<Member>, ms: seq<Member>, ns: seq<Member>, detached: set<string>, added: set<string>)
    requires Steps(ms, ns, detached, added) && (ms != [] || ns != [])
    ensures var s := Step(members, ms, ns);
      Steps(s.ms, s.ns, detached, added) && |s.ms| + |s.ns| < |ms| + |ns|
    ensures var diff := if ms == [] then 1 else if ns == [] then -1 else Compare(ms[0].name, ns[0].name, true);
      && (diff == 0 ==> ms[0].name == ns[0].name && (ms[0].name in detached <==> Replaced(ms[0].item, ns[0].item)))
      && (diff < 0 ==> ms[0].name in detached)
      && (diff > 0 ==> ns[0].name in added)
    ensures Ascends(ms, true) && Ascends(ns, true)
  {
    hide WalkBoth, DropMember, PutMember, Decoded, StrCmp, Replaced, Kept, Known, Ascends;
    var diff := if ms == [] then 1 else if ns == [] then -1 else Compare(ms[0].name, ns[0].name, true);
    if diff == 0 {
      StrCmpZero(ms[0].name, ns[0].name);
      StepBoth(ms, ns, detached, added);
    } else if diff < 0 {
      StepFirst(ms, ns, detached, added);
    } else {
      if ms != [] {
        StrCmpFlip(ms[0].name, ns[0].name);
      }
      StepSecond(ms, ns, detached, added);
    }
  }

  /** The step of a class is the step of the whole where that has a key of the class. */
  lemma {:induction false} StepClass(members: seq<Member>, ms: seq<Member>, ns: seq<Member>,
                                     detached: set<string>, added: set<string>, c: string)
    requires Steps(ms, ns, detached, added) && StayInClass(detached + added) && (ms != [] || ns != [])
    requires Fold(Step(members, ms, ns).key) == c
    ensures Class(ms, c) != [] || Class(ns, c) != []
    ensures var s := Step(members, ms, ns);
      Step(Class(members, c), Class(ms, c), Class(ns, c))
        == Advance(if s.next.None? then None else Some(Class(s.next.value, c)), Class(s.ms, c), Class(s.ns, c), s.key)
  {
    hide Class, Fold, WalkBoth, DropMember, PutMember, Decoded, Replaced, StrCmp, Ascends, Steps;
    StepRest(members, ms, ns, detached, added);
    var diff := if ms == [] then 1 else if ns == [] then -1 else Compare(ms[0].name, ns[0].name, true);
    if ms != [] {
      ClassHead(ms, c);
      assert ms[0] in ms;
    }
    if ns != [] {
      ClassHead(ns, c);
      assert ns[0] in ns;
    }
    WalkNothing(members, c);
    if diff == 0 {
      StrCmpZero(ms[0].name, ns[0].name);
      ClassAscends(ms, c);
      ClassAscends(ns, c);
      ClassBoth(members, ms[0], ns[0], c);
    } else if diff < 0 {
      ClassAscends(ms, c);
      if Class(ns, c) != [] {
        BelowClass(ms[0], ns, c);
      }
      ClassDrop(members, Decoded(ms[0].name), c);
    } else {
      ClassAscends(ns, c);
      if ms != [] && Class(ms, c) != [] {
        StrCmpFlip(ms[0].name, ns[0].name);
        BelowClass(ns[0], ms, c);
        StrCmpFlip(ns[0].name, Class(ms, c)[0].name);
      }
      ClassPut(members, Decoded(ns[0].name), ns[0].item, c);
    }
  }

  lemma {:induction false} StepBeside(members: seq<Member>, ms: seq<Member>, ns: seq<Member>,
                                      detached: set<string>, added: set<string>, c: string)
    requires Steps(ms, ns, detached, added) && StayInClass(detached + added) && (ms != [] || ns != [])
    requires Fold(Step(members, ms, ns).key) != c && Step(members, ms, ns).next.Some?
    ensures var s := Step(members, ms, ns);
      Class(s.next.value, c) == Class(members, c) && Class(s.ms, c) == Class(ms, c) && Class(s.ns, c) == Class(ns, c)
  {
    hide Class, Fold, WalkBoth, DropMember, PutMember, Decoded, Replaced, StrCmp, Steps;
    StepRest(members, ms, ns, detached, added);
    var diff := if ms == [] then 1 else if ns == [] then -1 else Compare(ms[0].name, ns[0].name, true);
    if ms != [] {
      ClassHead(ms, c);
      assert ms[0] in ms;
    }
    if ns != [] {
      ClassHead(ns, c);
      assert ns[0] in ns;
    }
    if diff == 0 {
      StrCmpZero(ms[0].name, ns[0].name);
      ClassBoth(members, ms[0], ns[0], c);
    } else if diff < 0 {
      ClassDrop(members, Decoded(ms[0].name), c);
    } else {
      ClassPut(members, Decoded(ns[0].name), ns[0].item, c);
    }
  }

  /** A walk that succeeds does in every class what the walk of the class does. */
  lemma {:induction false} WalkClass(members: seq<Member>, ms: seq<Member>, ns: seq<Member>,
                                     detached: set<string>, added: set<string>, c: string)
    requires Steps(ms, ns, detached, added) && StayInClass(detached + added)
    requires Walk(members, ms, ns).Some?
    ensures Walk(Class(members, c), Class(ms, c), Class(ns, c)) == Some(Class(Walk(members, ms, ns).value, c))
    decreases |ms| + |ns|
  {
    hide Class, Fold, Walk, Step, StayInClass, Steps, Ascends;
    if ms == [] && ns == [] {
      WalkNothing(members, c);
    } else {
      var s := Step(members, ms, ns);
      WalkSteps(members, ms, ns);
      StepRest(members, ms, ns, detached, added);
      WalkClass(s.next.value, s.ms, s.ns, detached, added, c);
      if Fold(s.key) == c {
        StepClass(members, ms, ns, detached, added, c);
        WalkSteps(Class(members, c), Class(ms, c), Class(ns, c));
      } else {
        StepBeside(members, ms, ns, detached, added, c);
      }
    }
  }

  lemma WalkNothing(members: seq<Member>, c: string)
    ensures Walk(members, [], []) == Some(members) && Class([], c) == []
    ensures Walk(Class(members, c), [], []) == Some(Class(members, c))
  {
  }

  /** A walk that fails does so in some class. */
  lemma {:induction false} WalkFails(members: seq<Member>, ms: seq<Member>, ns: seq<Member>,
                                     detached: set<string>, added: set<string>)
    returns (c: string)
    requires Steps(ms, ns, detached, added) && StayInClass(detached + added)
    requires Walk(members, ms, ns).None?
    ensures Walk(Class(members, c), Class(ms, c), Class(ns, c)).None?
    decreases |ms| + |ns|
  {
    hide Class, Fold, Walk, Step, StayInClass, Steps, Ascends;
    if ms == [] && ns == [] {
      WalkNothing(members, "");
      assert false;
    } else {
      var s := Step(members, ms, ns);
      WalkSteps(members, ms, ns);
      StepRest(members, ms, ns, detached, added);
      if s.next.None? {
        c := Fold(s.key);
      } else {
        c := WalkFails(s.next.value, s.ms, s.ns, detached, added);
      }
      if Fold(s.key) == c {
        StepClass(members, ms, ns, detached, added, c);
        WalkSteps(Class(members, c), Class(ms, c), Class(ns, c));
      } else {
        StepBeside(members, ms, ns, detached, added, c);
      }
    }
  }

  // --------------------------------------------------------------- the fields

  lemma {:induction false} ClassFields(ms: seq<Member>, c: string, k: string)
    ensures k in DenoteMembers(Class(ms, c), true) <==> k in DenoteMembers(ms, true) && Fold(k) == c
    ensures k in DenoteMembers(Class(ms, c), true) ==>
      DenoteMembers(Class(ms, c), true)[k] == DenoteMembers(ms, true)[k]
  {
    hide Class, Fold, Denote, DenoteMembers;
    DenoteFind(ms, k, true);
    DenoteFind(Class(ms, c), k, true);
    if Fold(k) == c {
      ClassFind(ms, k, true);
      var i := FindKey(ms, k, true);
      if i < |ms| {
        ClassAt(ms, i);
      }
    } else {
      ClassIs(ms, c);
      forall i | 0 <= i < |Class(ms, c)|
        ensures !SameKey(k, Class(ms, c)[i].name, true)
      {
        assert Class(ms, c)[i] in Class(ms, c);
      }
      FindNone(Class(ms, c), k, true);
    }
  }

  /** Fields are equal when they are so in every class. */
  lemma {:induction false} FieldsByClass(ms: seq<Member>, ns: seq<Member>)
    ensures DenoteMembers(ms, true) == DenoteMembers(ns, true)
      <==> forall c :: DenoteMembers(Class(ms, c), true) == DenoteMembers(Class(ns, c), true)
  {
    hide Class, Fold, Denote, DenoteMembers;
    var p, q := DenoteMembers(ms, true), DenoteMembers(ns, true);
    if p == q {
      forall c
        ensures DenoteMembers(Class(ms, c), true) == DenoteMembers(Class(ns, c), true)
      {
        forall k
          ensures k in DenoteMembers(Class(ms, c), true) <==> k in DenoteMembers(Class(ns, c), true)
          ensures k in DenoteMembers(Class(ms, c), true) ==>
            DenoteMembers(Class(ms, c), true)[k] == DenoteMembers(Class(ns, c), true)[k]
        {
          ClassFields(ms, c, k);
          ClassFields(ns, c, k);
        }
      }
    }
    if forall c :: DenoteMembers(Class(ms, c), true) == DenoteMembers(Class(ns, c), true) {
      forall k
        ensures k in p <==> k in q
        ensures k in p ==> p[k] == q[k]
      {
        ClassFields(ms, Fold(k), k);
        ClassFields(ns, Fold(k), k);
        assert DenoteMembers(Class(ms, Fold(k)), true) == DenoteMembers(Class(ns, Fold(k)), true);
      }
    }
  }
}
