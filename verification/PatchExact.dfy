/** The patch round trip for all trees with distinct keys. */
module PatchExact {
  import opened Text
  import opened Sort
  import opened Json
  import opened Comparison
  import opened Pointer
  import opened Duplicate
  import opened Patch
  import opened PatchKeys
  import opened PatchSteps
  import opened PatchLift
  import opened PatchWalk
  import opened PatchState
  import opened PatchClasses
  import opened PatchCases
  import PatchOperations
  import R = PatchRoundTrip

  // ------------------------------------------------------------ the pairs ahead

  lemma {:induction false} ReplacedRestorable(tree: Json, from: Json, to: Json)
    requires Replaced(from, to)
    ensures Restorable(tree, from, to)
  {
  }

  /** Only kept members with their partners count. */
  lemma {:induction false} PairsShrink(ts: seq<Member>, us: seq<Member>, ms: seq<Member>, ps: seq<Member>,
                                       ns: seq<Member>, qs: seq<Member>)
    requires forall t :: t in us ==> t in ts
    requires forall m :: m in ps ==> m in ms
    requires forall n :: n in qs ==> n in ns
    requires forall t, m, n :: t in ts && m in ms && n in ns && t.name == m.name && m.name == n.name ==>
      Replaced(m.item, n.item) || (t in us && m in ps && n in qs)
    ensures PairsRestorable(ts, ms, ns) <==> PairsRestorable(us, ps, qs)
  {
    hide Restorable, Replaced;
    if PairsRestorable(us, ps, qs) {
      forall t, m, n | t in ts && m in ms && n in ns && t.name == m.name && m.name == n.name
        ensures Restorable(t.item, m.item, n.item)
      {
        if Replaced(m.item, n.item) {
          ReplacedRestorable(t.item, m.item, n.item);
        }
      }
    }
  }

  /** A detached key. */
  lemma {:induction false} PairsDetached(ts: seq<Member>, us: seq<Member>, ms: seq<Member>, ns: seq<Member>,
                                         qs: seq<Member>, detached: set<string>, added: set<string>)
    requires Steps(ms, ns, detached, added) && ms != [] && ms[0].name in detached
    requires forall t :: t in us ==> t in ts
    requires forall t :: t in ts && t.name !in detached ==> t in us
    requires qs == ns || (ns != [] && qs == ns[1..] && ns[0].name == ms[0].name)
    ensures PairsRestorable(ts, ms, ns) <==> PairsRestorable(us, ms[1..], qs)
  {
    hide PairsRestorable, Replaced;
    TailsIn(ms, ns);
    forall t, m, n | t in ts && m in ms && n in ns && t.name == m.name && m.name == n.name && !Replaced(m.item, n.item)
      ensures t in us && m in ms[1..] && n in qs
    {
      assert Kept(m, ns);
      assert m.name !in detached;
      InTail(ms, m);
      if ns != [] {
        InTail(ns, n);
      }
    }
    PairsShrink(ts, us, ms, ms[1..], ns, qs);
  }

  lemma {:induction false} PairsAdded(ts: seq<Member>, ms: seq<Member>, ns: seq<Member>)
    requires ns != [] && forall m :: m in ms ==> m.name != ns[0].name
    ensures PairsRestorable(ts, ms, ns) <==> PairsRestorable(ts, ms, ns[1..])
  {
    hide PairsRestorable, Replaced;
    TailsIn(ns, ns);
    forall t, m, n | t in ts && m in ms && n in ns && t.name == m.name && m.name == n.name && !Replaced(m.item, n.item)
      ensures n in ns[1..]
    {
      InTail(ns, n);
    }
    PairsShrink(ts, ts, ms, ms, ns, ns[1..]);
  }

  /** All pairs are one of them and the others. */
  lemma {:induction false} PairsSplit(ts: seq<Member>, us: seq<Member>, ms: seq<Member>, ns: seq<Member>, t: Member)
    requires ms != [] && ns != [] && t in ts && t.name == ms[0].name && ms[0].name == ns[0].name
    requires forall u :: u in ts ==> (u.name == t.name ==> u == t) && (u.name != t.name ==> u in us)
    requires forall u :: u in us && u.name != t.name ==> u in ts
    requires forall m :: m in ms ==> m == ms[0] || m in ms[1..]
    requires forall m :: m in ms[1..] ==> m.name != t.name && m in ms
    requires forall n :: n in ns ==> n == ns[0] || n in ns[1..]
    requires forall n :: n in ns[1..] ==> n.name != t.name && n in ns
    ensures PairsRestorable(ts, ms, ns) <==>
      Restorable(t.item, ms[0].item, ns[0].item) && PairsRestorable(us, ms[1..], ns[1..])
  {
    hide Restorable;
    TailsIn(ms, ns);
    TailsIn(ns, ms);
    if PairsRestorable(ts, ms, ns) {
      forall u, m, n | u in us && m in ms[1..] && n in ns[1..] && u.name == m.name && m.name == n.name
        ensures Restorable(u.item, m.item, n.item)
      {
        assert u in ts && m in ms && n in ns;
      }
    }
    if Restorable(t.item, ms[0].item, ns[0].item) && PairsRestorable(us, ms[1..], ns[1..]) {
      forall u, m, n | u in ts && m in ms && n in ns && u.name == m.name && m.name == n.name
        ensures Restorable(u.item, m.item, n.item)
      {
        if m == ms[0] {
          assert u == t && n == ns[0];
        } else {
          assert u in us && m in ms[1..] && n in ns[1..];
        }
      }
    }
  }

  /** A kept key. */
  lemma {:induction false} PairsKept(ts: seq<Member>, i: nat, x: Member, ms: seq<Member>, ns: seq<Member>)
    requires Distinct(ts, NameOf, true) && Ascends(ms, true) && Ascends(ns, true)
    requires ms != [] && ns != [] && ms[0].name == ns[0].name
    requires i < |ts| && ts[i].name == ms[0].name && x.name == ms[0].name
    ensures PairsRestorable(ts, ms, ns) <==>
      Restorable(ts[i].item, ms[0].item, ns[0].item) && PairsRestorable(ts[i := x], ms[1..], ns[1..])
  {
    hide PairsRestorable, Restorable, Ascends, Distinct, DenoteMembers;
    HeadApart(ms);
    HeadApart(ns);
    NamedOnce(ts, i);
    SetIn(ts, i, x);
    PairsSplit(ts, ts[i := x], ms, ns, ts[i]);
  }

  // ---------------------------------------------------------------- one class

  lemma {:induction false} WithinAt(members: seq<Member>, m: Member, n: Member, i: nat)
    requires i < |members| && FindKey(members, m.name, true) == i && !Replaced(m.item, n.item)
    ensures var r := ApplyAll(members[i].item, CreatePatches("", m.item, n.item, true), true);
      WalkBoth(members, m, n) == if r.status == 0 then Some(members[i := Member(m.name, r.tree)]) else None
  {
    hide Replaced, CreatePatches, ApplyPatch;
    var patches := CreatePatches("", m.item, n.item, true);
    assert members[i].name == m.name;
    assert patches == [] ==> ApplyAll(members[i].item, patches, true) == Applied(0, members[i].item);
    assert members[i := Member(members[i].name, members[i].item)] == members;
  }

  /** Whether the walk of a class ends as it should. */
  ghost predicate ClassDecides(old_ones: seq<Member>, put: seq<Member>, ms: seq<Member>, ns: seq<Member>,
                               detached: set<string>, goal: map<string, Value>)
  {
    Right(Walk(old_ones + put, ms, ns), goal) <==>
      Ready(old_ones, ms, ns, detached) && PairsRestorable(old_ones, ms, ns)
  }

  lemma {:induction false} ClassExact(old_ones: seq<Member>, put: seq<Member>, ms: seq<Member>, ns: seq<Member>,
                                      detached: set<string>, added: set<string>, goal: map<string, Value>, c: string,
                                      owner: Json)
    requires ClassState(old_ones, put, ms, ns, detached, added, goal, c)
    requires forall m :: m in ms ==> m.item < owner
    ensures ClassDecides(old_ones, put, ms, ns, detached, goal)
    decreases owner, 0, |ms| + |ns|, 1
  {
    hide ClassState, Ready, Walk, Right, Step, Replaced, StrCmp;
    if ms == [] && ns == [] {
      EndExact(old_ones, put, detached, added, goal, c);
    } else {
      StateSteps(old_ones, put, ms, ns, detached, added, goal, c);
      StepRest(old_ones + put, ms, ns, detached, added);
      var diff := if ms == [] then 1 else if ns == [] then -1 else Compare(ms[0].name, ns[0].name, true);
      if diff == 0 && ms[0].name !in detached {
        KeptExact(old_ones, put, ms, ns, detached, added, goal, c, owner);
      } else if diff == 0 {
        ReplacedExact(old_ones, put, ms, ns, detached, added, goal, c, owner);
      } else if diff < 0 {
        RemovedExact(old_ones, put, ms, ns, detached, added, goal, c, owner);
      } else {
        AddedExact(old_ones, put, ms, ns, detached, added, goal, c, owner);
      }
    }
  }

  lemma StateSteps(old_ones: seq<Member>, put: seq<Member>, ms: seq<Member>, ns: seq<Member>, detached: set<string>,
                   added: set<string>, goal: map<string, Value>, c: string)
    requires ClassState(old_ones, put, ms, ns, detached, added, goal, c)
    ensures Steps(ms, ns, detached, added) && AllSurvive(detached + added) && Ascends(ms, true) && Ascends(ns, true)
    ensures Distinct(old_ones + put, NameOf, true) && OneClass(old_ones + put, c)
    ensures OneClass(ms, c) && OneClass(ns, c) && Fit(ms, ns)
  {
    hide AllSurvive, Fit, Distinct, OldState, PutState, GoalState, Fold;
  }

  lemma {:induction false} AddedExact(old_ones: seq<Member>, put: seq<Member>, ms: seq<Member>, ns: seq<Member>,
                                      detached: set<string>, added: set<string>, goal: map<string, Value>, c: string,
                                      owner: Json)
    requires ClassState(old_ones, put, ms, ns, detached, added, goal, c)
    requires forall m :: m in ms ==> m.item < owner
    requires ns != [] && (ms != [] ==> Compare(ms[0].name, ns[0].name, true) > 0)
    ensures ClassDecides(old_ones, put, ms, ns, detached, goal)
    decreases owner, 0, |ms| + |ns|, 0
  {
    hide ClassState, Ready, Right, Steps, StrCmp, WalkBoth, DropMember, PutMember, Decoded, PairsRestorable, Named,
      AllSurvive, Survives;
    StateSteps(old_ones, put, ms, ns, detached, added, goal, c);
    if ms != [] {
      StrCmpFlip(ms[0].name, ns[0].name);
    }
    StepSecond(ms, ns, detached, added);
    SurvivorDecodes(detached + added, ns[0].name);
    NotNamedIn(ms, ns[0].name);
    StateAdded(old_ones, put, ms, ns, detached, added, goal, c);
    ClassExact(old_ones, put + [ns[0]], ms, ns[1..], detached, added, goal, c, owner);
    forall m | m in ms
      ensures Named(ns, m.name) <==> Named(ns[1..], m.name)
    {
      NamedTail(ns, m.name);
    }
    ReadySame(old_ones, ms, ns, ns[1..], detached);
    PairsAdded(old_ones, ms, ns);
  }

  lemma SurvivorDecodes(keys: set<string>, key: string)
    requires AllSurvive(keys) && key in keys
    ensures Decoded(key) == key
  {
    hide Survives, Decoded;
    DecodedSelf(key);
  }

  lemma NotNamedIn(ms: seq<Member>, key: string)
    requires forall m :: m in ms ==> m.name != key
    ensures !Named(ms, key)
  {
  }

  lemma {:induction false} RemovedExact(old_ones: seq<Member>, put: seq<Member>, ms: seq<Member>, ns: seq<Member>,
                                        detached: set<string>, added: set<string>, goal: map<string, Value>,
                                        c: string, owner: Json)
    requires ClassState(old_ones, put, ms, ns, detached, added, goal, c)
    requires forall m :: m in ms ==> m.item < owner
    requires ms != [] && (ns != [] ==> Compare(ms[0].name, ns[0].name, true) < 0)
    ensures ClassDecides(old_ones, put, ms, ns, detached, goal)
    decreases owner, 0, |ms| + |ns|, 0
  {
    hide ClassState, Ready, Right, Steps, StrCmp, WalkBoth, DropMember, PutMember, Decoded, PairsRestorable, Named,
      AllSurvive, Survives, Fold;
    var all, x := old_ones + put, ms[0].name;
    StateSteps(old_ones, put, ms, ns, detached, added, goal, c);
    StepFirst(ms, ns, detached, added);
    SurvivorDecodes(detached + added, x);
    OneTail(ms, c);
    HeadDropped(all, x);
    NotNamedIn(ns, x);
    if all == [] {
      NoneReady(old_ones, ms, ns, detached);
      NotEnded();
    } else if old_ones == [] || old_ones[0].name !in detached {
      LostHead(old_ones, put, ms, ns, ns, all[1..], detached, added, goal, c);
    } else {
      StateRemoved(old_ones, put, ms, ns, detached, added, goal, c);
      TailsIn(ms, old_ones);
      ClassExact(old_ones[1..], put, ms[1..], ns, detached, added, goal, c, owner);
      ReadyDetached(old_ones, ms, ns, ns, detached);
      KeptBehind(old_ones, detached);
      PairsDetached(old_ones, old_ones[1..], ms, ns, ns, detached, added);
    }
  }

  lemma NotEnded()
    ensures forall goal :: !Right(None, goal)
  {
  }

  lemma {:induction false} NoneReady(old_ones: seq<Member>, ms: seq<Member>, ns: seq<Member>, detached: set<string>)
    requires old_ones == [] && ms != [] && ms[0].name in detached
    ensures !Ready(old_ones, ms, ns, detached)
  {
    hide SoonEnough;
  }

  lemma KeptBehind(old_ones: seq<Member>, detached: set<string>)
    requires old_ones != [] && old_ones[0].name in detached
    ensures forall o :: o in old_ones && o.name !in detached ==> o in old_ones[1..]
  {
    assert forall o :: o in old_ones ==> o == old_ones[0] || o in old_ones[1..];
  }

  lemma {:induction false} ReplacedExact(old_ones: seq<Member>, put: seq<Member>, ms: seq<Member>, ns: seq<Member>,
                                         detached: set<string>, added: set<string>, goal: map<string, Value>,
                                         c: string, owner: Json)
    requires ClassState(old_ones, put, ms, ns, detached, added, goal, c)
    requires forall m :: m in ms ==> m.item < owner
    requires ms != [] && ns != [] && ms[0].name == ns[0].name && Compare(ms[0].name, ns[0].name, true) == 0
    requires ms[0].name in detached
    ensures ClassDecides(old_ones, put, ms, ns, detached, goal)
    decreases owner, 0, |ms| + |ns|, 0
  {
    hide ClassState, Ready, Right, Steps, StrCmp, DropMember, PutMember, Decoded, PairsRestorable, Named,
      AllSurvive, Survives, Fold, Replaced, CreatePatches, ApplyAll, Without, Ascends;
    var all, x := old_ones + put, ms[0].name;
    StateSteps(old_ones, put, ms, ns, detached, added, goal, c);
    StepBoth(ms, ns, detached, added);
    SurvivorDecodes(detached + added, x);
    OneTail(ms, c);
    HeadDropped(all, x);
    TailsIn(ns, ns);
    if all == [] {
      NoneReady(old_ones, ms, ns, detached);
      NotEnded();
    } else if old_ones == [] || old_ones[0].name !in detached {
      PutWithin(all[1..], x, ns[0].item);
      LostHead(old_ones, put, ms, ns, ns[1..], PutMember(all[1..], x, ns[0].item), detached, added, goal, c);
    } else {
      StateReplaced(old_ones, put, ms, ns, detached, added, goal, c);
      TailsIn(ms, old_ones);
      var left := Without(old_ones[1..], x);
      ClassExact(left, put + [ns[0]], ms[1..], ns[1..], detached, added, goal, c, owner);
      LeftKeeps(old_ones, put, x, detached);
      PairsDetached(old_ones, left, ms, ns, ns[1..], detached, added);
      AheadSame(ms, ns);
      ReadyDetached(old_ones, ms, ns, ns[1..], detached);
      NamedAt(ns, 0);
      if Named(old_ones[1..], x) {
        TooFew(old_ones, ms, ns, detached, left, c, put, added, goal);
      } else {
        LeftSame(old_ones[1..], x);
      }
    }
  }

  lemma {:induction false} AheadSame(ms: seq<Member>, ns: seq<Member>)
    requires ms != [] && ns != [] && ms[0].name == ns[0].name && Ascends(ms, true)
    ensures SameAhead(ms[1..], ns, ns[1..])
  {
    hide Ascends, Named;
    HeadApart(ms);
    forall m | m in ms[1..]
      ensures Named(ns, m.name) <==> Named(ns[1..], m.name)
    {
      NamedTail(ns, m.name);
    }
  }

  lemma {:induction false} LeftKeeps(old_ones: seq<Member>, put: seq<Member>, key: string, detached: set<string>)
    requires Distinct(old_ones + put, NameOf, true) && old_ones != [] && old_ones[0].name in detached && key in detached
    ensures forall t :: t in Without(old_ones[1..], key) ==> t in old_ones
    ensures forall t :: t in old_ones && t.name !in detached ==> t in Without(old_ones[1..], key)
  {
    hide Distinct, Without;
    DistinctNamed(old_ones, put);
    DistinctDropped(old_ones);
    WithoutIs(old_ones[1..], key);
    KeptBehind(old_ones, detached);
  }

  lemma {:induction false} WithoutIs(ms: seq<Member>, key: string)
    requires Distinct(ms, NameOf, true)
    ensures forall x :: x in Without(ms, key) <==> x in ms && x.name != key
  {
    NoSuffix(ms);
    WithoutPut(ms, [], key);
  }

  lemma {:induction false} LeftSame(rest: seq<Member>, key: string)
    requires !Named(rest, key)
    ensures Without(rest, key) == rest
  {
    forall k | 0 <= k < |rest|
      ensures !SameKey(key, rest[k].name, true)
    {
      NamedAt(rest, k);
    }
    FindNone(rest, key, true);
  }

  /** A replaced member that is taken out beside the head leaves too few to detach. */
  lemma {:induction false} TooFew(old_ones: seq<Member>, ms: seq<Member>, ns: seq<Member>, detached: set<string>,
                                  left: seq<Member>, c: string, put: seq<Member>, added: set<string>,
                                  goal: map<string, Value>)
    requires ClassState(old_ones, put, ms, ns, detached, added, goal, c)
    requires ms != [] && ns != [] && ms[0].name in detached && old_ones != [] && old_ones[0].name in detached
    requires Named(old_ones[1..], ms[0].name) && left == Without(old_ones[1..], ms[0].name)
    ensures !Ready(left, ms[1..], ns[1..], detached)
  {
    hide Steps, AllSurvive, Fit, Distinct, OneClass, OldState, PutState, GoalState, SoonEnough, Named, Without;
    LeftCount(old_ones[1..], ms[0].name, detached);
    if Ready(left, ms[1..], ns[1..], detached) {
      ReadyCount(left, Count(ms[1..], detached), detached);
    }
  }

  lemma {:induction false} KeptExact(old_ones: seq<Member>, put: seq<Member>, ms: seq<Member>, ns: seq<Member>,
                                     detached: set<string>, added: set<string>, goal: map<string, Value>, c: string,
                                     owner: Json)
    requires ClassState(old_ones, put, ms, ns, detached, added, goal, c)
    requires forall m :: m in ms ==> m.item < owner
    requires ms != [] && ns != [] && ms[0].name == ns[0].name && Compare(ms[0].name, ns[0].name, true) == 0
    requires ms[0].name !in detached
    ensures ClassDecides(old_ones, put, ms, ns, detached, goal)
    decreases owner, 0, |ms| + |ns|, 0
  {
    hide ClassState, Ready, Right, Steps, StrCmp, PairsRestorable, Named, AllSurvive, Survives, Fold, Replaced,
      CreatePatches, ApplyAll, Ascends, WalkBoth, Denote, WellFormed, Addressable, Height, Restorable, Distinct;
    var all, x := old_ones + put, ms[0].name;
    StateSteps(old_ones, put, ms, ns, detached, added, goal, c);
    StepBoth(ms, ns, detached, added);
    TailsIn(ms, ns);
    TailsIn(ns, ms);
    var i := KeptAt(old_ones, put, ms, ns, detached, added, goal, c);
    WithinAt(all, ms[0], ns[0], i);
    CaseExact(old_ones[i].item, ms[0].item, ns[0].item);
    var r := ApplyAll(old_ones[i].item, CreatePatches("", ms[0].item, ns[0].item, true), true);
    var next := Member(x, r.tree);
    DistinctNamed(old_ones, put);
    PairsKept(old_ones, i, next, ms, ns);
    AheadSame(ms, ns);
    ReadyKept(old_ones, old_ones[i := next], ms, ns, ns[1..], detached);
    if Restorable(old_ones[i].item, ms[0].item, ns[0].item) {
      StateKept(old_ones, put, ms, ns, detached, added, goal, c, i, r.tree);
      ClassExact(old_ones[i := next], put, ms[1..], ns[1..], detached, added, goal, c, owner);
    } else if r.status == 0 {
      KeptWrong(old_ones, put, ms, ns, detached, added, goal, c, i, r.tree);
    } else {
      NotEnded();
    }
  }

  /** Where a kept member is. */
  lemma {:induction false} KeptAt(old_ones: seq<Member>, put: seq<Member>, ms: seq<Member>, ns: seq<Member>,
                                  detached: set<string>, added: set<string>, goal: map<string, Value>, c: string)
    returns (i: nat)
    requires ClassState(old_ones, put, ms, ns, detached, added, goal, c)
    requires ms != [] && ms[0].name !in detached
    ensures i < |old_ones| && old_ones[i].name == ms[0].name
    ensures FindKey(old_ones + put, ms[0].name, true) == i
    ensures WellFormed(old_ones[i].item, true) && Denote(old_ones[i].item, true) == Denote(ms[0].item, true)
  {
    hide Steps, AllSurvive, Fit, Distinct, OneClass, PutState, GoalState, WellFormed, Denote;
    assert ms[0] in ms;
    var o :| o in old_ones && Holder(o, ms[0]);
    i :| 0 <= i < |old_ones| && old_ones[i] == o;
    assert (old_ones + put)[i] == o;
    NamedOnce(old_ones + put, i);
  }

  /** A kept member that comes out wrong stays wrong. */
  lemma {:induction false} KeptWrong(old_ones: seq<Member>, put: seq<Member>, ms: seq<Member>, ns: seq<Member>,
                                     detached: set<string>, added: set<string>, goal: map<string, Value>, c: string,
                                     i: nat, item: Json)
    requires ClassState(old_ones, put, ms, ns, detached, added, goal, c)
    requires ms != [] && ns != [] && ms[0].name == ns[0].name && ms[0].name !in detached
    requires Steps(ms[1..], ns[1..], detached, added) && ms[0].name !in added
    requires i < |old_ones| && old_ones[i].name == ms[0].name && Denote(item, true) != Denote(ns[0].item, true)
    ensures !Right(Walk((old_ones + put)[i := Member(ms[0].name, item)], ms[1..], ns[1..]), goal)
  {
    hide Steps, Survives, Fit, Distinct, OneClass, OldState, PutState, WellFormed, Denote, Walk, Right, Named, Ascends;
    var x, all := ms[0].name, old_ones + put;
    var next := all[i := Member(x, item)];
    StateSteps(old_ones, put, ms, ns, detached, added, goal, c);
    TailsIn(ns, ns);
    HeadNamed(ms);
    SetNever(all, i, x, item, goal[x]);
    NotRight(next, ms[1..], ns[1..], detached, added, x, goal);
  }

  lemma {:induction false} SetNever(all: seq<Member>, i: nat, key: string, item: Json, v: Value)
    requires Distinct(all, NameOf, true) && i < |all| && all[i].name == key && Denote(item, true) != v
    ensures Never(all[i := Member(key, item)], key, v)
  {
    hide Denote;
    var next := all[i := Member(key, item)];
    forall x | x in next && x.name == key
      ensures x == Member(key, item)
    {
      var j :| 0 <= j < |next| && next[j] == x;
      if j != i {
        DistinctAt(all, i, j, true);
      }
    }
  }

  // ------------------------------------------------------- all classes of an object

  /** Two lists with distinct keys and the same keys have as many of any set of keys. */
  lemma {:induction false} CountSame(xs: seq<Member>, ys: seq<Member>, keys: set<string>)
    requires Distinct(xs, NameOf, true) && Distinct(ys, NameOf, true)
    requires forall k :: Named(xs, k) <==> Named(ys, k)
    ensures Count(xs, keys) == Count(ys, keys)
  {
    hide Named;
    CountSet(xs, keys);
    CountSet(ys, keys);
    assert CountedKeys(xs, keys) == CountedKeys(ys, keys) by {
      forall k
        ensures k in CountedKeys(xs, keys) <==> k in CountedKeys(ys, keys)
      {
        CountedIs(xs, keys, k);
        CountedIs(ys, keys, k);
      }
    }
  }

  function CountedKeys(xs: seq<Member>, keys: set<string>): set<string>
  {
    set x | x in xs && x.name in keys :: x.name
  }

  lemma CountedIs(xs: seq<Member>, keys: set<string>, k: string)
    ensures k in CountedKeys(xs, keys) <==> k in keys && Named(xs, k)
  {
  }

  lemma CountedStep(xs: seq<Member>, keys: set<string>)
    requires xs != [] && Absent(xs[1..], xs[0].name)
    ensures xs[0].name !in CountedKeys(xs[1..], keys)
    ensures CountedKeys(xs, keys)
      == CountedKeys(xs[1..], keys) + if xs[0].name in keys then {xs[0].name} else {}
  {
    assert forall x :: x in xs <==> x == xs[0] || x in xs[1..];
  }

  lemma {:induction false} CountSet(xs: seq<Member>, keys: set<string>)
    requires Distinct(xs, NameOf, true)
    ensures Count(xs, keys) == |CountedKeys(xs, keys)|
  {
    hide Distinct;
    if xs == [] {
      assert CountedKeys(xs, keys) == {};
    } else {
      DistinctDropped(xs);
      CountSet(xs[1..], keys);
      CountedStep(xs, keys);
    }
  }

  lemma {:induction false} ClassNamed(ms: seq<Member>, c: string, k: string)
    ensures Named(Class(ms, c), k) <==> Named(ms, k) && Fold(k) == c
  {
    hide Class, Fold;
    ClassIs(ms, c);
  }

  lemma {:induction false} ClassDistinct(ms: seq<Member>, c: string)
    requires Distinct(ms, NameOf, true)
    ensures Distinct(Class(ms, c), NameOf, true)
  {
    hide Fold, Distinct;
    if ms != [] {
      DistinctDropped(ms);
      ClassDistinct(ms[1..], c);
      ClassHead(ms, c);
      ClassIs(ms[1..], c);
      if Fold(ms[0].name) == c {
        DistinctPrepend(ms[0], Class(ms[1..], c));
      }
    }
  }

  lemma DistinctPrepend(m: Member, rest: seq<Member>)
    requires Distinct(rest, NameOf, true) && Absent(rest, m.name)
    ensures Distinct([m] + rest, NameOf, true)
  {
    var all := [m] + rest;
    forall i, j | 0 <= i < j < |all|
      ensures !SameKey(NameOf(all[i]), NameOf(all[j]), true)
    {
      assert all[j] == rest[j - 1] && rest[j - 1] in rest;
      if i > 0 {
        assert all[i] == rest[i - 1];
      }
    }
  }

  lemma {:induction false} ClassSorted(ms: seq<Member>, c: string)
    requires Ascends(ms, true)
    ensures Ascends(Class(ms, c), true)
  {
    hide Fold, StrCmp;
    if ms != [] {
      AscendsTail(ms, true);
      ClassSorted(ms[1..], c);
      ClassHead(ms, c);
      ClassIs(ms[1..], c);
      if Fold(ms[0].name) == c {
        AscendsPrepend(ms, Class(ms[1..], c));
      }
    }
  }

  lemma AscendsPrepend(ms: seq<Member>, rest: seq<Member>)
    requires Ascends(ms, true) && ms != [] && Ascends(rest, true) && forall m :: m in rest ==> m in ms[1..]
    ensures Ascends([ms[0]] + rest, true)
  {
    hide StrCmp;
    var all := [ms[0]] + rest;
    forall i, j | 0 <= i < j < |all|
      ensures Compare(NameOf(all[i]), NameOf(all[j]), true) < 0
    {
      assert all[j] == rest[j - 1] && rest[j - 1] in rest;
      if i > 0 {
        assert all[i] == rest[i - 1];
      } else {
        var k :| 0 <= k < |ms[1..]| && ms[1..][k] == rest[j - 1];
        assert ms[k + 1] == rest[j - 1];
      }
    }
  }

  /** Which keys of a class change. */
  lemma {:induction false} ClassSteps(ms: seq<Member>, ns: seq<Member>, detached: set<string>, added: set<string>,
                                      c: string)
    requires Steps(ms, ns, detached, added)
    ensures Steps(Class(ms, c), Class(ns, c), detached, added)
  {
    hide Class, Fold, Replaced, Ascends;
    ClassSorted(ms, c);
    ClassSorted(ns, c);
    ClassIs(ms, c);
    ClassIs(ns, c);
    forall m | m in Class(ms, c)
      ensures Kept(m, ns) <==> Kept(m, Class(ns, c))
    {
    }
    forall n | n in Class(ns, c)
      ensures Known(n, ms) <==> Known(n, Class(ms, c))
    {
    }
  }

  /** Two objects to be patched into each other, and the tree they are patched on. */
  ghost predicate Paired(ts: seq<Member>, ms: seq<Member>, ns: seq<Member>, detached: set<string>, added: set<string>)
  {
    && Steps(ms, ns, detached, added) && AllSurvive(detached + added) && Fit(ms, ns)
    && Distinct(ts, NameOf, true) && (forall t :: t in ts ==> WellFormed(t.item, true))
    && DenoteMembers(ts, true) == DenoteMembers(ms, true)
  }

  lemma {:induction false} SameNamed(ts: seq<Member>, ms: seq<Member>, k: string)
    requires DenoteMembers(ts, true) == DenoteMembers(ms, true)
    ensures Named(ts, k) <==> Named(ms, k)
  {
    hide Denote, DenoteMembers;
    NamedIsField(ts, k);
    NamedIsField(ms, k);
  }

  lemma {:induction false} NamedIsField(ms: seq<Member>, k: string)
    ensures Named(ms, k) <==> k in DenoteMembers(ms, true)
  {
    hide Denote, DenoteMembers;
    if Named(ms, k) {
      var m :| m in ms && m.name == k;
      DenoteKeyOf(ms, m);
    }
    if k in DenoteMembers(ms, true) {
      DenoteKey(ms, k, true);
      var i :| 0 <= i < |ms| && Norm(ms[i].name, true) == k;
      NamedAt(ms, i);
    }
  }

  /** A member of a list with distinct keys stands for its field. */
  lemma {:induction false} FieldOf(ms: seq<Member>, m: Member)
    requires Distinct(ms, NameOf, true) && m in ms
    ensures m.name in DenoteMembers(ms, true) && DenoteMembers(ms, true)[m.name] == Denote(m.item, true)
  {
    hide Denote, DenoteMembers, Distinct;
    DenoteIsMembers(ms, m.name, true);
    assert Norm(m.name, true) == m.name;
  }

  lemma AscendsDistinct(ms: seq<Member>)
    requires Ascends(ms, true)
    ensures Distinct(ms, NameOf, true)
  {
    hide StrCmp;
    forall i, j | 0 <= i < j < |ms|
      ensures !SameKey(NameOf(ms[i]), NameOf(ms[j]), true)
    {
      assert Compare(NameOf(ms[i]), NameOf(ms[j]), true) < 0;
      StrCmpZero(ms[i].name, ms[j].name);
    }
  }

  /** The walk of a class starts in the state it needs. */
  lemma {:induction false} ClassStarts(ts: seq<Member>, ms: seq<Member>, ns: seq<Member>, detached: set<string>,
                                       added: set<string>, c: string)
    requires Paired(ts, ms, ns, detached, added)
    ensures ClassState(Class(ts, c), [], Class(ms, c), Class(ns, c), detached, added,
                       DenoteMembers(Class(ns, c), true), c)
  {
    hide Class, Fold, Denote, DenoteMembers, Distinct, WellFormed, Addressable, Height, Steps, AllSurvive, Named;
    var goal := DenoteMembers(Class(ns, c), true);
    NoSuffix(Class(ts, c));
    ClassDistinct(ts, c);
    ClassSteps(ms, ns, detached, added, c);
    ClassIs(ts, c);
    ClassIs(ms, c);
    ClassIs(ns, c);
    StartCounts(ts, ms, ns, detached, added, c);
    StartOld(ts, ms, ns, detached, added, c);
    StartGoal(ms, ns, detached, added, c);
  }

  lemma {:induction false} StartCounts(ts: seq<Member>, ms: seq<Member>, ns: seq<Member>, detached: set<string>,
                                       added: set<string>, c: string)
    requires Paired(ts, ms, ns, detached, added)
    ensures Count(Class(ts, c), detached) == Count(Class(ms, c), detached)
  {
    hide Class, Fold, Denote, DenoteMembers, Distinct, AllSurvive, Fit, Named, Ascends;
    ClassDistinct(ts, c);
    AscendsDistinct(ms);
    ClassDistinct(ms, c);
    forall k
      ensures Named(Class(ts, c), k) <==> Named(Class(ms, c), k)
    {
      ClassNamed(ts, c, k);
      ClassNamed(ms, c, k);
      SameNamed(ts, ms, k);
    }
    CountSame(Class(ts, c), Class(ms, c), detached);
  }

  lemma {:induction false} StartOld(ts: seq<Member>, ms: seq<Member>, ns: seq<Member>, detached: set<string>,
                                    added: set<string>, c: string)
    requires Paired(ts, ms, ns, detached, added)
    ensures OldState(Class(ts, c), Class(ms, c), detached, added, DenoteMembers(Class(ns, c), true))
  {
    hide Class, Fold, Denote, DenoteMembers, Distinct, WellFormed, Fit, AllSurvive, Ascends, Replaced;
    var goal := DenoteMembers(Class(ns, c), true);
    ClassIs(ts, c);
    ClassIs(ms, c);
    AscendsDistinct(ms);
    forall o | o in Class(ts, c)
      ensures o.name !in added && Named(Class(ms, c), o.name) && (o.name !in detached ==> o.name in goal)
    {
      StartMember(ts, ms, ns, detached, added, c, o);
    }
    forall m | m in Class(ms, c)
      ensures exists o :: o in Class(ts, c) && Holder(o, m)
    {
      StartHolder(ts, ms, m);
      var o :| o in ts && Holder(o, m);
      assert o in Class(ts, c);
    }
  }

  lemma {:induction false} StartMember(ts: seq<Member>, ms: seq<Member>, ns: seq<Member>, detached: set<string>,
                                       added: set<string>, c: string, o: Member)
    requires Paired(ts, ms, ns, detached, added) && o in Class(ts, c)
    ensures o.name !in added && Named(Class(ms, c), o.name)
    ensures o.name !in detached ==> o.name in DenoteMembers(Class(ns, c), true)
  {
    hide Class, Fold, Denote, DenoteMembers, Distinct, WellFormed, Fit, AllSurvive, Ascends, Replaced;
    ClassIs(ts, c);
    assert Named(ts, o.name);
    SameNamed(ts, ms, o.name);
    ClassNamed(ms, c, o.name);
    var m :| m in ms && m.name == o.name;
    if o.name !in detached {
      var n :| n in ns && n.name == m.name && !Replaced(m.item, n.item);
      assert Named(ns, o.name);
      ClassNamed(ns, c, o.name);
      NamedIsField(Class(ns, c), o.name);
    }
  }

  lemma {:induction false} StartHolder(ts: seq<Member>, ms: seq<Member>, m: Member)
    requires Distinct(ts, NameOf, true) && Distinct(ms, NameOf, true) && m in ms
    requires DenoteMembers(ts, true) == DenoteMembers(ms, true) && forall t :: t in ts ==> WellFormed(t.item, true)
    ensures exists o :: o in ts && Holder(o, m)
  {
    hide Denote, DenoteMembers, Distinct, WellFormed;
    FieldOf(ms, m);
    NamedIsField(ts, m.name);
    var o :| o in ts && o.name == m.name;
    FieldOf(ts, o);
    assert Holder(o, m);
  }

  lemma {:induction false} StartGoal(ms: seq<Member>, ns: seq<Member>, detached: set<string>, added: set<string>,
                                     c: string)
    requires Steps(ms, ns, detached, added)
    ensures GoalState([], [], Class(ns, c), {}, DenoteMembers(Class(ns, c), true))
    ensures forall old_ones :: GoalState(old_ones, [], Class(ns, c), detached, DenoteMembers(Class(ns, c), true))
  {
    hide Class, Denote, DenoteMembers, Distinct, Ascends, Named;
    ClassSorted(ns, c);
    AscendsDistinct(Class(ns, c));
    forall n | n in Class(ns, c)
      ensures n.name in DenoteMembers(Class(ns, c), true)
      ensures DenoteMembers(Class(ns, c), true)[n.name] == Denote(n.item, true)
    {
      FieldOf(Class(ns, c), n);
    }
    forall k | k in DenoteMembers(Class(ns, c), true)
      ensures Named(Class(ns, c), k)
    {
      NamedIsField(Class(ns, c), k);
    }
  }

  // ------------------------------------------------------------- whole objects

  /** The walk ends right exactly when it does so in every class. */
  lemma {:induction false} RightByClass(ts: seq<Member>, ms: seq<Member>, ns: seq<Member>, detached: set<string>,
                                        added: set<string>)
    requires Steps(ms, ns, detached, added) && StayInClass(detached + added)
    ensures Right(Walk(ts, ms, ns), DenoteMembers(ns, true)) <==>
      forall c :: Right(Walk(Class(ts, c), Class(ms, c), Class(ns, c)), DenoteMembers(Class(ns, c), true))
  {
    hide Class, Walk, DenoteMembers, Steps, StayInClass;
    var after := Walk(ts, ms, ns);
    if after.Some? {
      forall c
        ensures Walk(Class(ts, c), Class(ms, c), Class(ns, c)) == Some(Class(after.value, c))
      {
        WalkClass(ts, ms, ns, detached, added, c);
      }
      FieldsByClass(after.value, ns);
    } else {
      var c := WalkFails(ts, ms, ns, detached, added);
      assert !Right(Walk(Class(ts, c), Class(ms, c), Class(ns, c)), DenoteMembers(Class(ns, c), true));
    }
  }

  /** The classes of the tree are ready. */
  ghost predicate ClassesReady(ts: seq<Member>, ms: seq<Member>, ns: seq<Member>, detached: set<string>)
  {
    forall c :: Ready(Class(ts, c), Class(ms, c), Class(ns, c), detached)
  }

  lemma {:induction false} PairsByClass(ts: seq<Member>, ms: seq<Member>, ns: seq<Member>)
    ensures PairsRestorable(ts, ms, ns) <==>
      forall c :: PairsRestorable(Class(ts, c), Class(ms, c), Class(ns, c))
  {
    hide Restorable, Class, Fold;
    forall c
      ensures forall t :: t in Class(ts, c) <==> t in ts && Fold(t.name) == c
      ensures forall m :: m in Class(ms, c) <==> m in ms && Fold(m.name) == c
      ensures forall n :: n in Class(ns, c) <==> n in ns && Fold(n.name) == c
    {
      ClassIs(ts, c);
      ClassIs(ms, c);
      ClassIs(ns, c);
    }
    if forall c :: PairsRestorable(Class(ts, c), Class(ms, c), Class(ns, c)) {
      forall t, m, n | t in ts && m in ms && n in ns && t.name == m.name && m.name == n.name
        ensures Restorable(t.item, m.item, n.item)
      {
        var c := Fold(t.name);
        assert PairsRestorable(Class(ts, c), Class(ms, c), Class(ns, c));
        assert t in Class(ts, c) && m in Class(ms, c) && n in Class(ns, c);
      }
    }
    if PairsRestorable(ts, ms, ns) {
      forall c
        ensures PairsRestorable(Class(ts, c), Class(ms, c), Class(ns, c))
      {
        PairsOfClass(ts, ms, ns, c);
      }
    }
  }

  lemma {:induction false} PairsOfClass(ts: seq<Member>, ms: seq<Member>, ns: seq<Member>, c: string)
    requires PairsRestorable(ts, ms, ns)
    ensures PairsRestorable(Class(ts, c), Class(ms, c), Class(ns, c))
  {
    hide Restorable, Class, Fold;
    ClassIs(ts, c);
    ClassIs(ms, c);
    ClassIs(ns, c);
    forall t, m, n | t in Class(ts, c) && m in Class(ms, c) && n in Class(ns, c) && t.name == m.name && m.name == n.name
      ensures Restorable(t.item, m.item, n.item)
    {
      assert t in ts && m in ms && n in ns;
    }
  }

  lemma {:induction false} WalkDecides(ts: seq<Member>, ms: seq<Member>, ns: seq<Member>, detached: set<string>,
                                       added: set<string>, owner: Json)
    requires Paired(ts, ms, ns, detached, added) && forall m :: m in ms ==> m.item < owner
    ensures Right(Walk(ts, ms, ns), DenoteMembers(ns, true)) <==>
      ClassesReady(ts, ms, ns, detached) && PairsRestorable(ts, ms, ns)
    decreases owner, 1
  {
    hide Class, Walk, Right, Ready, PairsRestorable, DenoteMembers, Steps, Survives, Fit, Distinct, Fold;
    SurvivorsSettled(detached + added);
    RightByClass(ts, ms, ns, detached, added);
    PairsByClass(ts, ms, ns);
    forall c
      ensures Right(Walk(Class(ts, c), Class(ms, c), Class(ns, c)), DenoteMembers(Class(ns, c), true))
        <==> Ready(Class(ts, c), Class(ms, c), Class(ns, c), detached)
             && PairsRestorable(Class(ts, c), Class(ms, c), Class(ns, c))
    {
      ClassStarts(ts, ms, ns, detached, added, c);
      ClassIs(ms, c);
      NoSuffix(Class(ts, c));
      ClassExact(Class(ts, c), [], Class(ms, c), Class(ns, c), detached, added, DenoteMembers(Class(ns, c), true), c,
                 owner);
      ClassOutcome(Class(ts, c), Class(ms, c), Class(ns, c), detached, DenoteMembers(Class(ns, c), true));
    }
  }

  lemma ClassOutcome(ts: seq<Member>, ms: seq<Member>, ns: seq<Member>, detached: set<string>, goal: map<string, Value>)
    requires ClassDecides(ts, [], ms, ns, detached, goal)
    ensures Right(Walk(ts, ms, ns), goal) <==> Ready(ts, ms, ns, detached) && PairsRestorable(ts, ms, ns)
  {
    hide Walk, Right, Ready, PairsRestorable;
    NoSuffix(ts);
  }

  lemma SurvivorsSettled(keys: set<string>)
    requires AllSurvive(keys)
    ensures StayInClass(keys)
  {
    hide Survives, Decoded, Fold;
    forall x | x in keys
      ensures Decoded(x) == x
    {
      DecodedSelf(x);
    }
  }

  /** Where the tree has no member of a class there is nothing to do. */
  lemma {:induction false} EmptyReady(ts: seq<Member>, ms: seq<Member>, ns: seq<Member>, detached: set<string>,
                                      c: string)
    requires DenoteMembers(ts, true) == DenoteMembers(ms, true) && forall t :: t in ts ==> Fold(t.name) != c
    ensures Ready(Class(ts, c), Class(ms, c), Class(ns, c), detached)
  {
    hide Class, Fold, Denote, DenoteMembers, Named;
    ClassIs(ts, c);
    ClassIs(ms, c);
    if Class(ms, c) != [] {
      NamedAt(Class(ms, c), 0);
      ClassNamed(ms, c, Class(ms, c)[0].name);
      SameNamed(ts, ms, Class(ms, c)[0].name);
      NoneNamed(ts, Class(ms, c)[0].name, c);
    }
    NoneIn(Class(ts, c));
  }

  lemma NoneIn(xs: seq<Member>)
    ensures (forall x :: x !in xs) ==> xs == []
  {
    if xs != [] {
      assert xs[0] in xs;
    }
  }

  lemma NoneNamed(ts: seq<Member>, k: string, c: string)
    requires Fold(k) == c && forall t :: t in ts ==> Fold(t.name) != c
    ensures !Named(ts, k)
  {
  }

  lemma {:induction false} ReadyInOrder(ts: seq<Member>, from: seq<Member>, to: seq<Member>, detached: set<string>)
    requires DenoteMembers(ts, true) == DenoteMembers(SortList(from, NameOf, true), true)
    requires detached == DetachedKeys(from, to)
    ensures InOrder(ts, from, to) <==>
      ClassesReady(ts, SortList(from, NameOf, true), SortList(to, NameOf, true), detached)
  {
    hide Class, Ready, Fold, SortList, DenoteMembers, DetachedKeys;
    var ms, ns := SortList(from, NameOf, true), SortList(to, NameOf, true);
    if InOrder(ts, from, to) {
      forall c
        ensures Ready(Class(ts, c), Class(ms, c), Class(ns, c), detached)
      {
        if forall t :: t in ts ==> Fold(t.name) != c {
          EmptyReady(ts, ms, ns, detached, c);
        }
      }
    }
  }

  /** Which keys change does not depend on the order. */
  lemma {:induction false} SortedKeys(from: seq<Member>, to: seq<Member>, ms: seq<Member>, ns: seq<Member>,
                                      detached: set<string>, added: set<string>)
    requires forall m :: m in ms <==> m in from
    requires forall n :: n in ns <==> n in to
    requires Steps(ms, ns, detached, added)
    requires forall x :: x in detached ==> exists m :: m in ms && m.name == x && !Kept(m, ns)
    ensures detached == DetachedKeys(from, to)
  {
    hide Replaced, Ascends;
    forall m
      ensures Kept(m, to) <==> Kept(m, ns)
    {
    }
    hide Kept;
    forall x
      ensures x in detached <==> x in DetachedKeys(from, to)
    {
      if x in detached {
        var m :| m in ms && m.name == x && !Kept(m, ns);
        assert m in from;
      }
    }
  }

  /** The sorted members of an object. */
  lemma {:induction false} SortedMembers(j: Json)
    requires j.Object? && WellFormed(j, true)
    ensures var ms := SortList(j.members, NameOf, true);
      && Ascends(ms, true) && DenoteMembers(ms, true) == DenoteMembers(j.members, true)
      && (forall m :: m in ms <==> m in j.members) && (forall m :: m in j.members ==> WellFormed(m.item, true))
      && Distinct(j.members, NameOf, true)
  {
    hide DenoteMembers, SortList;
    SortDistinct(j.members, NameOf, true);
    DenoteSorted(j.members, true, true);
    forall m
      ensures m in SortList(j.members, NameOf, true) <==> m in j.members
    {
      SortMembers(j.members, NameOf, true, m);
    }
  }

  lemma {:induction false} ChangesSurvive(ms: seq<Member>, ns: seq<Member>, detached: set<string>, added: set<string>)
    requires KeysSurvive(ms, ns)
    requires forall x :: x in detached ==> exists m :: m in ms && m.name == x && !Kept(m, ns)
    requires forall x :: x in added ==> exists n :: n in ns && n.name == x && !Known(n, ms)
    ensures AllSurvive(detached + added)
  {
    hide Survives, Kept, Known;
  }

  lemma {:induction false} KeysSurviveSorted(ms: seq<Member>, ns: seq<Member>, sms: seq<Member>, sns: seq<Member>)
    requires forall m :: m in sms <==> m in ms
    requires forall n :: n in sns <==> n in ns
    ensures KeysSurvive(sms, sns) <==> KeysSurvive(ms, ns)
    ensures forall ts :: PairsRestorable(ts, sms, sns) <==> PairsRestorable(ts, ms, ns)
  {
    hide Survives, Replaced, Restorable;
    forall m
      ensures Kept(m, ns) <==> Kept(m, sns)
      ensures Known(m, ms) <==> Known(m, sms)
    {
    }
    hide Kept, Known;
  }

  lemma {:induction false} ObjectExact(tree: Json, from: Json, to: Json)
    requires tree.Object? && from.Object? && to.Object?
    requires WellFormed(tree, true) && WellFormed(from, true) && WellFormed(to, true)
    requires Denote(tree, true) == Denote(from, true)
    requires Height(to) <= CIRCULAR_LIMIT && Addressable(from)
    ensures var r := ApplyAll(tree, CreatePatches("", from, to, true), true);
      r.status == 0 && Denote(r.tree, true) == Denote(to, true) <==> Restorable(tree, from, to)
    decreases from, 2
  {
    hide ApplyAll, DenoteMembers, SortList, KeysSurvive, PairsRestorable, InOrder, WellFormed, Walk, Ascends, Height,
      Addressable, Steps, ClassesReady, DetachedKeys, CreatePatches, CreateForMembers, AllSurvive;
    var ms, ns := SortList(from.members, NameOf, true), SortList(to.members, NameOf, true);
    DenoteArray(tree);
    DenoteArray(from);
    DenoteArray(to);
    SortedMembers(tree);
    SortedMembers(from);
    SortedMembers(to);
    SortKeepsBelow(from.members, true, from);
    R.HeightParts(to);
    AddressableParts(from);
    KeysSurviveSorted(from.members, to.members, ms, ns);
    WalkAgrees(tree.members, ms, ns, from);
    CreateObject(from, to);
    RestorableObject(tree, from, to);
    ObjectOutcome(ApplyAll(tree, CreatePatches("", from, to, true), true), Walk(tree.members, ms, ns), to);
    if KeysSurvive(ms, ns) {
      var detached, added := Changes(ms, ns);
      ChangesSurvive(ms, ns, detached, added);
      SortedKeys(from.members, to.members, ms, ns, detached, added);
      WalkDecides(tree.members, ms, ns, detached, added, from);
      ReadyInOrder(tree.members, from.members, to.members, detached);
    } else if Walk(tree.members, ms, ns).Some? {
      BadKeyBreaks(tree.members, ms, ns);
    }
  }

  lemma {:induction false} CreateObject(from: Json, to: Json)
    requires from.Object? && to.Object?
    ensures forall m :: m in SortList(from.members, NameOf, true) ==> m.item < from
    ensures CreatePatches("", from, to, true)
      == CreateForMembers("", SortList(from.members, NameOf, true), SortList(to.members, NameOf, true), true, from)
  {
    hide CreateForMembers, SortList;
    SortKeepsBelow(from.members, true, from);
  }

  lemma {:induction false} RestorableObject(tree: Json, from: Json, to: Json)
    requires tree.Object? && from.Object? && to.Object?
    ensures Restorable(tree, from, to) <==>
      && KeysSurvive(from.members, to.members) && InOrder(tree.members, from.members, to.members)
      && PairsRestorable(tree.members, from.members, to.members)
  {
    hide KeysSurvive, InOrder, PairsRestorable;
  }

  lemma {:induction false} ObjectOutcome(r: Applied, after: Option<seq<Member>>, to: Json)
    requires Leaves(r, after) && to.Object?
    ensures r.status == 0 && Denote(r.tree, true) == Denote(to, true)
      <==> Right(after, DenoteMembers(to.members, true))
  {
    hide DenoteMembers;
    if after.Some? {
      DenoteArray(r.tree);
      DenoteArray(to);
    }
  }

  lemma {:induction false} AddressableParts(j: Json)
    requires Addressable(j)
    ensures j.Object? ==> forall m :: m in j.members ==> Addressable(m.item)
    ensures j.Array? ==> |j.items| <= SIZE_LIMIT && forall x :: x in j.items ==> Addressable(x)
  {
  }

  // ------------------------------------------------------------- whole trees

  lemma {:induction false} ElementsExact(items: seq<Json>, xs: seq<Json>, ys: seq<Json>)
    requires |items| == |xs|
    requires forall i :: 0 <= i < |xs| ==> WellFormed(items[i], true) && Denote(items[i], true) == Denote(xs[i], true)
    requires forall x :: x in xs ==> WellFormed(x, true) && Addressable(x)
    requires forall y :: y in ys ==> WellFormed(y, true) && Height(y) <= CIRCULAR_LIMIT
    ensures var after := WalkItems(items, xs, ys);
      after.Some? && DenoteItems(after.value, true) == DenoteItems(ys, true) <==>
        forall i :: 0 <= i < |xs| && i < |ys| ==> Restorable(items[i], xs[i], ys[i])
    decreases xs, 0
  {
    hide Restorable, WellFormed, Denote, Addressable, Height, CreatePatches, ApplyAll, DenoteItems;
    if xs != [] && ys != [] {
      CaseExact(items[0], xs[0], ys[0]);
      ElementsExact(items[1..], xs[1..], ys[1..]);
      ElementsCons(items, xs, ys);
      var r := ApplyAll(items[0], CreatePatches("", xs[0], ys[0], true), true);
      var rest := WalkItems(items[1..], xs[1..], ys[1..]);
      if r.status == 0 && rest.Some? {
        R.DenoteCons(r.tree, rest.value, ys);
      }
    } else {
      R.DenoteNone();
    }
  }

  lemma {:induction false} ElementsCons(items: seq<Json>, xs: seq<Json>, ys: seq<Json>)
    requires |items| == |xs| && xs != [] && ys != []
    ensures (forall i :: 0 <= i < |xs| && i < |ys| ==> Restorable(items[i], xs[i], ys[i]))
      <==> Restorable(items[0], xs[0], ys[0])
           && forall i :: 0 <= i < |xs[1..]| && i < |ys[1..]| ==> Restorable(items[1..][i], xs[1..][i], ys[1..][i])
  {
    hide Restorable;
    if
      && Restorable(items[0], xs[0], ys[0])
      && forall i :: 0 <= i < |xs[1..]| && i < |ys[1..]| ==> Restorable(items[1..][i], xs[1..][i], ys[1..][i])
    {
      forall i | 0 <= i < |xs| && i < |ys|
        ensures Restorable(items[i], xs[i], ys[i])
      {
        assert i > 0 ==> items[i] == items[1..][i - 1] && xs[i] == xs[1..][i - 1] && ys[i] == ys[1..][i - 1];
      }
    }
    if forall i :: 0 <= i < |xs| && i < |ys| ==> Restorable(items[i], xs[i], ys[i]) {
      forall i | 0 <= i < |xs[1..]| && i < |ys[1..]|
        ensures Restorable(items[1..][i], xs[1..][i], ys[1..][i])
      {
        assert items[i + 1] == items[1..][i] && xs[i + 1] == xs[1..][i] && ys[i + 1] == ys[1..][i];
      }
    }
  }

  lemma {:induction false} ItemsWellFormed(j: Json)
    requires j.Array? && WellFormed(j, true)
    ensures forall x :: x in j.items ==> WellFormed(x, true)
    ensures forall i :: 0 <= i < |j.items| ==> WellFormed(j.items[i], true)
  {
  }

  lemma {:induction false} ItemsLow(j: Json)
    requires j.Array? && Height(j) <= CIRCULAR_LIMIT
    ensures forall x :: x in j.items ==> Height(x) <= CIRCULAR_LIMIT
  {
  }

  lemma {:induction false} RestorableArray(tree: Json, from: Json, to: Json)
    requires tree.Array? && from.Array? && to.Array? && |tree.items| == |from.items|
    ensures CreatePatches("", from, to, true) == CreateForItems("", from.items, to.items, 0, true)
    ensures Restorable(tree, from, to) <==>
      forall i :: 0 <= i < |from.items| && i < |to.items| ==> Restorable(tree.items[i], from.items[i], to.items[i])
  {
    hide CreateForItems;
  }

  lemma {:induction false} ArrayExact(tree: Json, from: Json, to: Json)
    requires tree.Array? && from.Array? && to.Array?
    requires WellFormed(tree, true) && WellFormed(from, true) && WellFormed(to, true)
    requires Denote(tree, true) == Denote(from, true)
    requires Height(to) <= CIRCULAR_LIMIT && Addressable(from)
    ensures var r := ApplyAll(tree, CreatePatches("", from, to, true), true);
      r.status == 0 && Denote(r.tree, true) == Denote(to, true) <==> Restorable(tree, from, to)
    decreases from, 2
  {
    hide ApplyAll, DenoteItems, CreateForItems, Denote, WellFormed, Addressable, Height, WalkItems, Restorable,
      CreatePatches;
    DenoteArray(tree);
    DenoteArray(from);
    ItemsWellFormed(tree);
    ItemsWellFormed(from);
    ItemsWellFormed(to);
    ItemsLow(to);
    AddressableParts(from);
    var items, xs, ys := tree.items, from.items, to.items;
    R.SameElements(items, xs);
    RestorableArray(tree, from, to);
    NoPrefix(items);
    ItemsAgree([], items, xs, ys);
    ElementsExact(items, xs, ys);
    var after := WalkItems(items, xs, ys);
    if after.Some? {
      NoPrefix(after.value);
      ArrayDenotes(after.value, to);
    }
  }

  lemma {:induction false} ArrayDenotes(items: seq<Json>, to: Json)
    requires to.Array?
    ensures Denote(Array(items), true) == Denote(to, true) <==> DenoteItems(items, true) == DenoteItems(to.items, true)
  {
    hide DenoteItems;
  }

  /** Patches for a whole tree, applied to any tree with the value of `from`: they lead to
      the value of `to` exactly when the tree is restorable. */
  lemma {:induction false} CaseExact(tree: Json, from: Json, to: Json)
    requires WellFormed(tree, true) && WellFormed(from, true) && WellFormed(to, true)
    requires Denote(tree, true) == Denote(from, true)
    requires Height(to) <= CIRCULAR_LIMIT && Addressable(from)
    ensures var r := ApplyAll(tree, CreatePatches("", from, to, true), true);
      r.status == 0 && Denote(r.tree, true) == Denote(to, true) <==> Restorable(tree, from, to)
    decreases from, 3
  {
    hide ApplyPatch, ComposePatch, StrCmp, SortList, Fold, FindKey, WellFormed, DenoteMembers, DenoteItems;
    if from.String? && to.String? {
      StrCmpZero(from.s, to.s);
    }
    DenoteArray(tree);
    DenoteArray(from);
    if Replaced(from, to) {
      ReplacesRoot(tree, from, to);
      ReplacedRestorable(tree, from, to);
    } else if from.Array? {
      ArrayExact(tree, from, to);
    } else if from.Object? {
      ObjectExact(tree, from, to);
    }
  }

  /** Applying the generated patches in order to a copy of `from` succeeds and gives a tree
      with the value of `to` exactly when the changed keys survive and, in every class of
      keys that differ by case alone, the members to detach come first and the replaced
      ones among them soon enough. */
  lemma {:induction false} RoundTripExact(from: Json, to: Json)
    requires WellFormed(from, true) && WellFormed(to, true)
    requires Height(to) <= CIRCULAR_LIMIT && Addressable(from)
    ensures var r := ApplyPatches(from, GeneratePatches(from, to, true), true);
      r.status == 0 && Denote(r.tree, true) == Denote(to, true) <==> Restorable(from, from, to)
  {
    hide CreatePatches, ApplyAll, Denote, Restorable;
    CaseExact(from, from, to);
  }

  /** Where no two keys of an object differ by case alone, that is what `Survivable` says. */
  lemma {:induction false} RestorableDistinct(from: Json, to: Json)
    requires WellFormed(from, false) && WellFormed(to, false)
    requires Height(to) <= CIRCULAR_LIMIT && Addressable(from)
    ensures Restorable(from, from, to) <==> R.Survivable(from, to)
  {
    hide CreatePatches, ApplyAll, Denote, Restorable, R.Survivable, WellFormed;
    PatchOperations.WellFormedEither(from);
    PatchOperations.WellFormedEither(to);
    R.RoundTrip(from, to);
    RoundTripExact(from, to);
  }
}
