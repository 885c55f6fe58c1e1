/** The patch round trip for all trees with distinct keys, also where keys differ by case
    alone: exactly when, in every class of such keys, detaching the first member of the
    class each time takes out the right ones. */
module PatchCases {
  import opened Text
  import opened Sort
  import opened Json
  import opened Comparison
  import opened Pointer
  import opened Duplicate
  import opened Patch
  import opened PatchKeys
  import opened PatchSteps
  import opened PatchLift
  import opened PatchWalk
  import opened PatchState
  import opened PatchClasses

  // ------------------------------------------------------------ the condition

  predicate Named(ms: seq<Member>, key: string)
  {
    exists m :: m in ms && m.name == key
  }

  function Count(ms: seq<Member>, keys: set<string>): nat
  {
    if ms == [] then 0 else (if ms[0].name in keys then 1 else 0) + Count(ms[1..], keys)
  }

  /** The keys that are removed or replaced. */
  function DetachedKeys(ms: seq<Member>, ns: seq<Member>): set<string>
  {
    set m | m in ms && !Kept(m, ns) :: m.name
  }

  /** A replaced member has no more members before it than detached keys are smaller. */
  predicate SoonEnough(ts: seq<Member>, ms: seq<Member>, ns: seq<Member>, detached: set<string>)
  {
    forall r, i :: 0 <= r < |ms| && 0 <= i < |ts| && ts[i].name == ms[r].name ==>
      ms[r].name in detached && Named(ns, ms[r].name) ==> i <= Count(ms[..r], detached)
  }

  /** Of one class: the members of the tree that are detached come before those that are
      kept, and the replaced ones come soon enough. */
  predicate Ready(ts: seq<Member>, ms: seq<Member>, ns: seq<Member>, detached: set<string>)
  {
    && Count(ms, detached) <= |ts|
    && (forall i :: 0 <= i < |ts| ==> (ts[i].name in detached <==> i < Count(ms, detached)))
    && SoonEnough(ts, ms, ns, detached)
  }

  /** Every class of the tree is ready. */
  predicate InOrder(ts: seq<Member>, ms: seq<Member>, ns: seq<Member>)
  {
    forall t :: t in ts ==>
      var c := Fold(t.name);
      Ready(Class(ts, c), Class(SortList(ms, NameOf, true), c), Class(SortList(ns, NameOf, true), c),
            DetachedKeys(ms, ns))
  }

  /** Wherever two objects are patched into each other, changed keys survive the decoder
      and every class is ready. */
  predicate Restorable(tree: Json, from: Json, to: Json)
    decreases from
  {
    match (tree, from, to)
    case (Array(ts), Array(xs), Array(ys)) =>
      forall i :: 0 <= i < |ts| && i < |xs| && i < |ys| ==> Restorable(ts[i], xs[i], ys[i])
    case (Object(ts), Object(ms), Object(ns)) =>
      KeysSurvive(ms, ns) && InOrder(ts, ms, ns) && PairsRestorable(ts, ms, ns)
    case _ => true
  }

  predicate PairsRestorable(ts: seq<Member>, ms: seq<Member>, ns: seq<Member>)
    decreases ms
  {
    forall t, m, n :: t in ts && m in ms && n in ns && t.name == m.name && m.name == n.name ==>
      Restorable(t.item, m.item, n.item)
  }

  // ------------------------------------------------- what can not be put right

  ghost predicate Never(members: seq<Member>, key: string, v: Value)
  {
    forall x :: x in members && x.name == key ==> Denote(x.item, true) != v
  }

  ghost predicate Absent(members: seq<Member>, key: string)
  {
    forall x :: x in members ==> x.name != key
  }

  /** What a detach and an add leave. */
  lemma DropWithin(members: seq<Member>, key: string)
    ensures var rest := DropMember(members, key); rest.Some? ==> forall x :: x in rest.value ==> x in members
  {
    hide RemoveAt, FindKey;
    var i := FindKey(members, key, false);
    if i < |members| {
      RemovedIn(members, i);
    }
  }

  lemma PutWithin(members: seq<Member>, key: string, item: Json)
    ensures forall x :: x in PutMember(members, key, item) ==> x in members || x == Member(key, item)
  {
    hide RemoveAt, FindKey;
    var i := FindKey(members, key, true);
    if i < |members| {
      RemovedIn(members, i);
    }
  }

  ghost predicate AllSurvive(keys: set<string>)
  {
    forall x :: x in keys ==> Survives(x)
  }

  /** No patch ahead puts the key, and none ahead changes an item of it. */
  ghost predicate Beyond(members: seq<Member>, ms: seq<Member>, ns: seq<Member>, detached: set<string>,
                         added: set<string>, key: string)
  {
    && (Named(ns, key) ==> key !in added)
    && (Named(ms, key) ==> key !in detached && Absent(members, key))
  }

  lemma {:induction false} BothBeyond(members: seq<Member>, m: Member, n: Member, key: string, v: Value)
    requires WalkBoth(members, m, n).Some? && Never(members, key, v)
    requires if Replaced(m.item, n.item) then m.name != key && Decoded(m.name) == m.name
             else m.name == key ==> Absent(members, key)
    ensures Never(WalkBoth(members, m, n).value, key, v)
    ensures Absent(members, key) ==> Absent(WalkBoth(members, m, n).value, key)
  {
    hide Denote, CreatePatches, ApplyAll, Decoded, DropMember, PutMember, Replaced;
    if Replaced(m.item, n.item) {
      var rest := DropMember(members, m.name).value;
      DropWithin(members, m.name);
      PutWithin(rest, m.name, n.item);
    } else if CreatePatches("", m.item, n.item, true) != [] {
      var i := FindKey(members, m.name, true);
      assert members[i] in members;
      var r := ApplyAll(members[i].item, CreatePatches("", m.item, n.item, true), true);
      var next := members[i := Member(members[i].name, r.tree)];
      assert members[i].name == m.name;
      forall x | x in next
        ensures x in members || x.name == m.name
      {
        var j :| 0 <= j < |next| && next[j] == x;
        if j != i {
          assert x == members[j];
        }
      }
    }
  }

  /** A key that is lost or has a wrong value, and is beyond the patches ahead, stays so. */
  lemma {:induction false} WrongKeeps(members: seq<Member>, ms: seq<Member>, ns: seq<Member>,
                                      detached: set<string>, added: set<string>, key: string, v: Value)
    requires Steps(ms, ns, detached, added) && AllSurvive(detached + added)
    requires Never(members, key, v) && Beyond(members, ms, ns, detached, added, key)
    requires Walk(members, ms, ns).Some?
    ensures Never(Walk(members, ms, ns).value, key, v)
    decreases |ms| + |ns|
  {
    hide Decoded, Survives, WalkBoth, DropMember, PutMember, Steps, Replaced, StrCmp, Denote, Never, Absent;
    if ms != [] || ns != [] {
      var diff := if ms == [] then 1 else if ns == [] then -1 else Compare(ms[0].name, ns[0].name, true);
      BeyondTails(members, ms, ns, detached, added, key);
      if diff == 0 {
        StrCmpZero(ms[0].name, ns[0].name);
        StepBoth(ms, ns, detached, added);
        if Replaced(ms[0].item, ns[0].item) {
          DecodedSelf(ms[0].name);
        }
        BothBeyond(members, ms[0], ns[0], key, v);
        WrongKeeps(WalkBoth(members, ms[0], ns[0]).value, ms[1..], ns[1..], detached, added, key, v);
      } else if diff < 0 {
        StepFirst(ms, ns, detached, added);
        DropBeyond(members, Decoded(ms[0].name), key, v);
        WrongKeeps(DropMember(members, Decoded(ms[0].name)).value, ms[1..], ns, detached, added, key, v);
      } else {
        if ms != [] {
          StrCmpFlip(ms[0].name, ns[0].name);
        }
        StepSecond(ms, ns, detached, added);
        DecodedSelf(ns[0].name);
        PutBeyond(members, ns[0].name, ns[0].item, key, v);
        WrongKeeps(PutMember(members, ns[0].name, ns[0].item), ms, ns[1..], detached, added, key, v);
      }
    }
  }

  lemma DecodedSelf(key: string)
    requires Survives(key)
    ensures Decoded(key) == key
  {
    DecodeExact(key);
  }

  lemma {:induction false} DropBeyond(members: seq<Member>, dropped: string, key: string, v: Value)
    requires DropMember(members, dropped).Some? && Never(members, key, v)
    ensures Never(DropMember(members, dropped).value, key, v)
    ensures Absent(members, key) ==> Absent(DropMember(members, dropped).value, key)
  {
    hide Denote, DropMember;
    DropWithin(members, dropped);
  }

  lemma {:induction false} PutBeyond(members: seq<Member>, put: string, item: Json, key: string, v: Value)
    requires put != key && Never(members, key, v)
    ensures Never(PutMember(members, put, item), key, v)
    ensures Absent(members, key) ==> Absent(PutMember(members, put, item), key)
  {
    hide Denote, PutMember;
    PutWithin(members, put, item);
  }

  lemma {:induction false} BeyondTails(members: seq<Member>, ms: seq<Member>, ns: seq<Member>, detached: set<string>,
                                       added: set<string>, key: string)
    requires Beyond(members, ms, ns, detached, added, key)
    ensures ms != [] ==> (Named(ms[1..], key) ==> Named(ms, key)) && Named(ms, ms[0].name)
    ensures ns != [] ==> (Named(ns[1..], key) ==> Named(ns, key)) && Named(ns, ns[0].name)
  {
    if ms != [] {
      assert ms[0] in ms;
    }
    if ns != [] {
      assert ns[0] in ns;
    }
  }

  ghost predicate Right(after: Option<seq<Member>>, goal: map<string, Value>)
  {
    after.Some? && DenoteMembers(after.value, true) == goal
  }

  lemma {:induction false} NotRight(members: seq<Member>, ms: seq<Member>, ns: seq<Member>,
                                    detached: set<string>, added: set<string>, key: string, goal: map<string, Value>)
    requires Steps(ms, ns, detached, added) && AllSurvive(detached + added) && key in goal
    requires Never(members, key, goal[key]) && Beyond(members, ms, ns, detached, added, key)
    ensures !Right(Walk(members, ms, ns), goal)
  {
    hide Walk, Steps, Survives, Denote, DenoteMembers, Beyond;
    if Walk(members, ms, ns).Some? {
      WrongKeeps(members, ms, ns, detached, added, key, goal[key]);
      var after := Walk(members, ms, ns).value;
      DenoteFind(after, key, true);
      var i := FindKey(after, key, true);
      if i < |after| {
        assert after[i] in after && after[i].name == key;
      }
    }
  }

  // --------------------------------------------------- the condition, step by step

  lemma {:induction false} CountNames(xs: seq<Member>, ys: seq<Member>, keys: set<string>)
    requires |xs| == |ys| && forall i :: 0 <= i < |xs| ==> xs[i].name == ys[i].name
    ensures Count(xs, keys) == Count(ys, keys)
  {
    if xs != [] {
      assert xs[0].name == ys[0].name;
      CountNames(xs[1..], ys[1..], keys);
    }
  }

  lemma CountPrefix(ms: seq<Member>, r: nat, keys: set<string>)
    requires 0 < r <= |ms|
    ensures Count(ms[..r], keys) == (if ms[0].name in keys then 1 else 0) + Count(ms[1..][..r - 1], keys)
  {
    assert ms[..r][0] == ms[0] && ms[..r][1..] == ms[1..][..r - 1];
  }

  lemma {:induction false} CountWithout(ms: seq<Member>, i: nat, keys: set<string>)
    requires i < |ms|
    ensures Count(RemoveAt(ms, i), keys) == Count(ms, keys) - if ms[i].name in keys then 1 else 0
  {
    if i == 0 {
      RemoveFirst(ms);
    } else {
      CountWithout(ms[1..], i - 1, keys);
      var rest := RemoveAt(ms, i);
      assert rest[0] == ms[0] && rest[1..] == RemoveAt(ms[1..], i - 1);
    }
  }

  /** When the first of them are the detached ones, that is how many there are. */
  lemma {:induction false} ReadyCount(ts: seq<Member>, n: nat, keys: set<string>)
    requires n <= |ts| && forall i :: 0 <= i < |ts| ==> (ts[i].name in keys <==> i < n)
    ensures Count(ts, keys) == n
  {
    if ts != [] {
      var rest, m := ts[1..], if n > 0 then n - 1 else 0;
      forall i | 0 <= i < |rest|
        ensures rest[i].name in keys <==> i < m
      {
        assert rest[i] == ts[i + 1];
      }
      ReadyCount(rest, m, keys);
      assert ts[0].name in keys <==> 0 < n;
    }
  }

  ghost predicate SameAhead(ms: seq<Member>, ns: seq<Member>, ns': seq<Member>)
  {
    forall m :: m in ms ==> (Named(ns, m.name) <==> Named(ns', m.name))
  }

  /** A detach that takes out a detached member leaves the condition as it was, but for a
      replaced one that is further behind. */
  lemma {:induction false} SoonDetached(ts: seq<Member>, ms: seq<Member>, ns: seq<Member>, ns': seq<Member>,
                                        detached: set<string>)
    requires ms != [] && ts != [] && ms[0].name in detached && SameAhead(ms[1..], ns, ns')
    ensures SoonEnough(ts, ms, ns, detached) <==>
      && SoonEnough(ts[1..], ms[1..], ns', detached)
      && (Named(ns, ms[0].name) ==> !Named(ts[1..], ms[0].name))
  {
    hide Named;
    var us, ps := ts[1..], ms[1..];
    if SoonEnough(ts, ms, ns, detached) {
      forall r, i | 0 <= r < |ps| && 0 <= i < |us| && us[i].name == ps[r].name
        ensures ps[r].name in detached && Named(ns', ps[r].name) ==> i <= Count(ps[..r], detached)
      {
        assert ts[i + 1] == us[i] && ms[r + 1] == ps[r] && ps[r] in ps;
        CountPrefix(ms, r + 1, detached);
      }
      if Named(ns, ms[0].name) {
        FirstNotBehind(ts, ms, ns, detached);
      }
    }
    if SoonEnough(us, ps, ns', detached) && (Named(ns, ms[0].name) ==> !Named(us, ms[0].name)) {
      forall r, i | 0 <= r < |ms| && 0 <= i < |ts| && ts[i].name == ms[r].name
        ensures ms[r].name in detached && Named(ns, ms[r].name) ==> i <= Count(ms[..r], detached)
      {
        if i > 0 && r > 0 {
          assert us[i - 1] == ts[i] && ps[r - 1] == ms[r] && ps[r - 1] in ps;
          CountPrefix(ms, r, detached);
        } else if i > 0 {
          NamedAt(us, i - 1);
          assert us[i - 1] == ts[i];
        }
      }
    }
  }

  lemma NamedAt(ms: seq<Member>, i: nat)
    requires i < |ms|
    ensures Named(ms, ms[i].name)
  {
    assert ms[i] in ms;
  }

  lemma SoonFirst(ts: seq<Member>, ms: seq<Member>, ns: seq<Member>, detached: set<string>, i: nat)
    requires SoonEnough(ts, ms, ns, detached) && ms != [] && i < |ts| && ts[i].name == ms[0].name
    requires ms[0].name in detached && Named(ns, ms[0].name)
    ensures i == 0
  {
    assert i <= Count(ms[..0], detached);
  }

  lemma FirstNotBehind(ts: seq<Member>, ms: seq<Member>, ns: seq<Member>, detached: set<string>)
    requires SoonEnough(ts, ms, ns, detached) && ms != [] && ts != []
    requires ms[0].name in detached && Named(ns, ms[0].name)
    ensures !Named(ts[1..], ms[0].name)
  {
    if Named(ts[1..], ms[0].name) {
      var t :| t in ts[1..] && t.name == ms[0].name;
      var i :| 0 <= i < |ts[1..]| && ts[1..][i] == t;
      SoonFirst(ts, ms, ns, detached, i + 1);
    }
  }

  lemma {:induction false} ReadyDetached(ts: seq<Member>, ms: seq<Member>, ns: seq<Member>, ns': seq<Member>,
                                         detached: set<string>)
    requires ms != [] && ts != [] && ms[0].name in detached && ts[0].name in detached
    requires SameAhead(ms[1..], ns, ns')
    ensures Ready(ts, ms, ns, detached) <==>
      && Ready(ts[1..], ms[1..], ns', detached)
      && (Named(ns, ms[0].name) ==> !Named(ts[1..], ms[0].name))
  {
    hide SoonEnough, Named;
    SoonDetached(ts, ms, ns, ns', detached);
    var n := Count(ms[1..], detached);
    assert Count(ms, detached) == n + 1;
    if forall i :: 0 <= i < |ts| ==> (ts[i].name in detached <==> i < n + 1) {
      forall i | 0 <= i < |ts[1..]|
        ensures ts[1..][i].name in detached <==> i < n
      {
        assert ts[1..][i] == ts[i + 1];
      }
    }
    if forall i :: 0 <= i < |ts[1..]| ==> (ts[1..][i].name in detached <==> i < n) {
      forall i | 0 <= i < |ts|
        ensures ts[i].name in detached <==> i < n + 1
      {
        if i > 0 {
          assert ts[1..][i - 1] == ts[i];
        }
      }
    }
  }

  /** A key that is kept. */
  lemma {:induction false} ReadyKept(ts: seq<Member>, us: seq<Member>, ms: seq<Member>, ns: seq<Member>,
                                     ns': seq<Member>, detached: set<string>)
    requires ms != [] && ms[0].name !in detached && SameAhead(ms[1..], ns, ns')
    requires |us| == |ts| && forall i :: 0 <= i < |ts| ==> us[i].name == ts[i].name
    ensures Ready(ts, ms, ns, detached) <==> Ready(us, ms[1..], ns', detached)
  {
    hide Named;
    var ps := ms[1..];
    assert Count(ms, detached) == Count(ps, detached);
    if SoonEnough(ts, ms, ns, detached) {
      forall r, i | 0 <= r < |ps| && 0 <= i < |us| && us[i].name == ps[r].name
        ensures ps[r].name in detached && Named(ns', ps[r].name) ==> i <= Count(ps[..r], detached)
      {
        assert ts[i].name == us[i].name && ms[r + 1] == ps[r] && ps[r] in ps;
        CountPrefix(ms, r + 1, detached);
      }
    }
    if SoonEnough(us, ps, ns', detached) {
      forall r, i | 0 <= r < |ms| && 0 <= i < |ts| && ts[i].name == ms[r].name
        ensures ms[r].name in detached && Named(ns, ms[r].name) ==> i <= Count(ms[..r], detached)
      {
        if r > 0 {
          assert us[i].name == ts[i].name && ps[r - 1] == ms[r] && ps[r - 1] in ps;
          CountPrefix(ms, r, detached);
        }
      }
    }
  }

  lemma {:induction false} ReadySame(ts: seq<Member>, ms: seq<Member>, ns: seq<Member>, ns': seq<Member>,
                                     detached: set<string>)
    requires SameAhead(ms, ns, ns')
    ensures Ready(ts, ms, ns, detached) <==> Ready(ts, ms, ns', detached)
  {
    hide Named;
    forall r | 0 <= r < |ms|
      ensures Named(ns, ms[r].name) <==> Named(ns', ms[r].name)
    {
      assert ms[r] in ms;
    }
  }

  // ------------------------------------------------------ the state of one class

  /** A member of the tree with the value of the member it stands for. */
  ghost predicate Holder(o: Member, m: Member)
  {
    o.name == m.name && WellFormed(o.item, true) && Denote(o.item, true) == Denote(m.item, true)
  }

  /** The members that were there at the start. */
  ghost predicate OldState(old_ones: seq<Member>, ms: seq<Member>, detached: set<string>, added: set<string>,
                           goal: map<string, Value>)
  {
    && (forall o :: o in old_ones ==>
          && o.name !in added
          && if o.name in detached then o.name in goal ==> Named(ms, o.name)
             else o.name in goal && (Named(ms, o.name) || Denote(o.item, true) == goal[o.name]))
    && forall m :: m in ms && m.name !in detached ==> exists o :: o in old_ones && Holder(o, m)
  }

  /** The members that patches have put behind them. */
  ghost predicate PutState(put: seq<Member>, ms: seq<Member>, ns: seq<Member>, goal: map<string, Value>)
  {
    forall n :: n in put ==>
      n.name in goal && Denote(n.item, true) == goal[n.name] && !Named(ms, n.name) && !Named(ns, n.name)
  }

  /** The fields aimed at are ahead, put, or kept. */
  ghost predicate GoalState(old_ones: seq<Member>, put: seq<Member>, ns: seq<Member>, detached: set<string>,
                            goal: map<string, Value>)
  {
    && (forall n :: n in ns ==> n.name in goal && goal[n.name] == Denote(n.item, true))
    && forall k :: k in goal ==> Named(ns, k) || Named(put, k) || (k !in detached && Named(old_ones, k))
  }

  ghost predicate OneClass(ms: seq<Member>, c: string)
  {
    forall m :: m in ms ==> Fold(m.name) == c
  }

  ghost predicate Fit(ms: seq<Member>, ns: seq<Member>)
  {
    && (forall m :: m in ms ==> WellFormed(m.item, true) && Addressable(m.item))
    && forall n :: n in ns ==> WellFormed(n.item, true) && Height(n.item) <= CIRCULAR_LIMIT
  }

  ghost predicate ClassState(old_ones: seq<Member>, put: seq<Member>, ms: seq<Member>, ns: seq<Member>,
                             detached: set<string>, added: set<string>, goal: map<string, Value>, c: string)
  {
    && Steps(ms, ns, detached, added) && AllSurvive(detached + added) && Fit(ms, ns)
    && Distinct(old_ones + put, NameOf, true)
    && OneClass(old_ones, c) && OneClass(put, c) && OneClass(ms, c) && OneClass(ns, c)
    && OldState(old_ones, ms, detached, added, goal) && PutState(put, ms, ns, goal)
    && GoalState(old_ones, put, ns, detached, goal)
    && Count(old_ones, detached) <= Count(ms, detached)
  }

  // ------------------------------------------------------------- parts of it

  lemma DistinctNamed(xs: seq<Member>, ys: seq<Member>)
    requires Distinct(xs + ys, NameOf, true)
    ensures Distinct(xs, NameOf, true) && Distinct(ys, NameOf, true)
    ensures forall x, y :: x in xs && y in ys ==> x.name != y.name
  {
    var all := xs + ys;
    forall i, j | 0 <= i < j < |xs|
      ensures !SameKey(NameOf(xs[i]), NameOf(xs[j]), true)
    {
      assert all[i] == xs[i] && all[j] == xs[j];
    }
    forall i, j | 0 <= i < j < |ys|
      ensures !SameKey(NameOf(ys[i]), NameOf(ys[j]), true)
    {
      assert all[|xs| + i] == ys[i] && all[|xs| + j] == ys[j];
    }
    forall x, y | x in xs && y in ys
      ensures x.name != y.name
    {
      var i :| 0 <= i < |xs| && xs[i] == x;
      var j :| 0 <= j < |ys| && ys[j] == y;
      assert all[i] == x && all[|xs| + j] == y;
      assert !SameKey(NameOf(all[i]), NameOf(all[|xs| + j]), true);
    }
  }

  lemma {:induction false} NamedOnce(ms: seq<Member>, i: nat)
    requires Distinct(ms, NameOf, true) && i < |ms|
    ensures FindKey(ms, ms[i].name, true) == i
    ensures forall m :: m in ms && m.name == ms[i].name ==> m == ms[i]
  {
    FindIs(ms, ms[i].name, true, i);
    forall m | m in ms && m.name == ms[i].name
      ensures m == ms[i]
    {
      var j :| 0 <= j < |ms| && ms[j] == m;
      if j != i {
        DistinctAt(ms, i, j, true);
      }
    }
  }

  /** In one class a detach takes the head. */
  lemma {:induction false} HeadDropped(ms: seq<Member>, key: string)
    requires OneClass(ms, Fold(key))
    ensures DropMember(ms, key) == if ms == [] then None else Some(ms[1..])
  {
    hide Fold;
    if ms != [] {
      assert ms[0] in ms;
      SameClass(key, ms[0].name, false);
      FindIs(ms, key, false, 0);
      RemoveFirst(ms);
    }
  }

  /** The end of the walk. */
  lemma {:induction false} EndExact(old_ones: seq<Member>, put: seq<Member>, detached: set<string>, added: set<string>,
                                    goal: map<string, Value>, c: string)
    requires ClassState(old_ones, put, [], [], detached, added, goal, c)
    ensures Right(Walk(old_ones + put, [], []), goal) <==> Ready(old_ones, [], [], detached)
  {
    hide Steps, Survives, Denote, DenoteMembers, Distinct, Fold;
    var all := old_ones + put;
    DistinctNamed(old_ones, put);
    if Ready(old_ones, [], [], detached) {
      forall k
        ensures k in DenoteMembers(all, true) <==> k in goal
        ensures k in goal && k in DenoteMembers(all, true) ==> DenoteMembers(all, true)[k] == goal[k]
      {
        EndField(old_ones, put, detached, added, goal, c, k);
      }
    } else {
      var i :| 0 <= i < |old_ones| && old_ones[i].name in detached;
      assert old_ones[i] in old_ones && old_ones[i] in all && !Named([], old_ones[i].name);
      DenoteIsMembers(all, old_ones[i].name, true);
      assert Norm(old_ones[i].name, true) == old_ones[i].name;
    }
  }

  lemma {:induction false} EndField(old_ones: seq<Member>, put: seq<Member>, detached: set<string>, added: set<string>,
                                    goal: map<string, Value>, c: string, k: string)
    requires ClassState(old_ones, put, [], [], detached, added, goal, c) && Ready(old_ones, [], [], detached)
    ensures var fields := DenoteMembers(old_ones + put, true);
      && (k in fields <==> k in goal)
      && (k in goal && k in fields ==> fields[k] == goal[k])
  {
    hide Steps, Survives, Denote, DenoteMembers, Distinct, Fold;
    var all := old_ones + put;
    DenoteIsMembers(all, k, true);
    if k in goal {
      if Named(put, k) {
        var n :| n in put && n.name == k;
        assert n in all;
      } else {
        assert !Named([], k);
        var o :| o in old_ones && o.name == k;
        assert o in all;
      }
    }
    forall x | x in all && x.name == k
      ensures k in goal && Denote(x.item, true) == goal[k]
    {
      if x in old_ones {
        var i :| 0 <= i < |old_ones| && old_ones[i] == x;
        assert x.name !in detached && !Named([], x.name);
      }
    }
  }

  // --------------------------------------------------------------- the steps

  lemma OneTail(ms: seq<Member>, c: string)
    requires OneClass(ms, c) && ms != []
    ensures OneClass(ms[1..], c) && Fold(ms[0].name) == c
  {
    assert ms[0] in ms && forall m :: m in ms[1..] ==> m in ms;
  }

  lemma DistinctDropped(xs: seq<Member>)
    requires Distinct(xs, NameOf, true) && xs != []
    ensures Distinct(xs[1..], NameOf, true) && Absent(xs[1..], xs[0].name)
    ensures forall x :: x in xs[1..] ==> x in xs
  {
    DistinctTail(xs, true);
    forall x | x in xs[1..]
      ensures x.name != xs[0].name
    {
      var i :| 0 <= i < |xs[1..]| && xs[1..][i] == x;
      DistinctAt(xs, 0, i + 1, true);
    }
  }

  lemma NamedTail(ms: seq<Member>, key: string)
    requires ms != []
    ensures Named(ms, key) <==> ms[0].name == key || Named(ms[1..], key)
  {
    assert forall m :: m in ms <==> m == ms[0] || m in ms[1..];
    if ms[0].name == key {
      assert ms[0] in ms;
    }
  }

  /** What is lost when a detach takes out a member that should stay. */
  lemma {:induction false} LostHead(old_ones: seq<Member>, put: seq<Member>, ms: seq<Member>, ns: seq<Member>,
                                    ns': seq<Member>, next: seq<Member>, detached: set<string>, added: set<string>,
                                    goal: map<string, Value>, c: string)
    requires ClassState(old_ones, put, ms, ns, detached, added, goal, c)
    requires ms != [] && ms[0].name in detached && Steps(ms[1..], ns', detached, added)
    requires old_ones + put != [] && (old_ones != [] ==> old_ones[0].name !in detached)
    requires forall n :: n in ns' ==> n in ns
    requires forall x :: x in next ==> x in (old_ones + put)[1..] || x.name == ms[0].name
    ensures !Right(Walk(next, ms[1..], ns'), goal) && !Ready(old_ones, ms, ns, detached)
  {
    hide Steps, Survives, Denote, Distinct, Fold, Walk, SoonEnough, Right, AllSurvive;
    var all := old_ones + put;
    var key := all[0].name;
    DistinctNamed(old_ones, put);
    DistinctDropped(all);
    NamedTail(ms, key);
    assert ms[0] in ms;
    if old_ones == [] {
      assert all[0] in put;
    } else {
      assert all[0] == old_ones[0] && old_ones[0] in old_ones;
    }
    LostBeyond(all, ms, ns, ns', next, detached, added, goal, key);
  }

  lemma {:induction false} LostBeyond(all: seq<Member>, ms: seq<Member>, ns: seq<Member>, ns': seq<Member>,
                                      next: seq<Member>, detached: set<string>, added: set<string>,
                                      goal: map<string, Value>, key: string)
    requires ms != [] && Steps(ms[1..], ns', detached, added) && AllSurvive(detached + added)
    requires all != [] && Absent(all[1..], key) && key != ms[0].name && key in goal
    requires Named(ns, key) ==> key !in added
    requires Named(ms, key) ==> key !in detached
    requires forall n :: n in ns' ==> n in ns
    requires forall x :: x in next ==> x in all[1..] || x.name == ms[0].name
    ensures !Right(Walk(next, ms[1..], ns'), goal)
  {
    hide Steps, Survives, Denote, Walk, Right;
    NamedTail(ms, key);
    assert Absent(next, key);
    NotRight(next, ms[1..], ns', detached, added, key, goal);
  }

  lemma OneAppend(put: seq<Member>, n: Member, c: string)
    requires OneClass(put, c) && Fold(n.name) == c
    ensures OneClass(put + [n], c)
  {
    hide Fold;
    assert forall x :: x in put + [n] ==> x in put || x == n;
  }

  lemma FitTails(ms: seq<Member>, ns: seq<Member>)
    requires Fit(ms, ns)
    ensures ms != [] ==> Fit(ms[1..], ns)
    ensures ns != [] ==> Fit(ms, ns[1..])
    ensures ms != [] && ns != [] ==> Fit(ms[1..], ns[1..])
  {
    hide WellFormed, Addressable, Height;
    TailsIn(ms, ns);
    TailsIn(ns, ms);
  }

  lemma GoalAhead(old_ones: seq<Member>, put: seq<Member>, ns: seq<Member>, detached: set<string>,
                  goal: map<string, Value>)
    requires GoalState(old_ones, put, ns, detached, goal) && ns != []
    ensures ns[0].name in goal && goal[ns[0].name] == Denote(ns[0].item, true)
  {
    hide Denote;
    assert ns[0] in ns;
  }

  /** A removed key: the head goes. */
  lemma {:induction false} StateRemoved(old_ones: seq<Member>, put: seq<Member>, ms: seq<Member>, ns: seq<Member>,
                                        detached: set<string>, added: set<string>, goal: map<string, Value>, c: string)
    requires ClassState(old_ones, put, ms, ns, detached, added, goal, c)
    requires ms != [] && ms[0].name in detached && !Named(ns, ms[0].name) && Steps(ms[1..], ns, detached, added)
    requires old_ones != [] && old_ones[0].name in detached
    ensures ClassState(old_ones[1..], put, ms[1..], ns, detached, added, goal, c)
    ensures (old_ones + put)[1..] == old_ones[1..] + put
  {
    hide Steps, AllSurvive, WellFormed, Addressable, Height, Denote, Fold, Named, Distinct;
    var rest := old_ones[1..];
    assert (old_ones + put)[1..] == rest + put;
    DistinctDropped(old_ones + put);
    TailsIn(old_ones, ms);
    RemovedOld(old_ones, put, ms, ns, detached, added, goal);
    assert forall k :: Named(ms[1..], k) ==> Named(ms, k) by {
      forall k | Named(ms[1..], k)
        ensures Named(ms, k)
      {
        NamedTail(ms, k);
      }
    }
    RemovedGoal(old_ones, put, ns, detached, goal);
  }

  lemma TailsIn(xs: seq<Member>, ys: seq<Member>)
    ensures xs != [] ==> xs[0] in xs && forall x :: x in xs[1..] ==> x in xs
    ensures ys != [] ==> ys[0] in ys && forall y :: y in ys[1..] ==> y in ys
  {
  }

  lemma {:induction false} RemovedOld(old_ones: seq<Member>, put: seq<Member>, ms: seq<Member>, ns: seq<Member>,
                                      detached: set<string>, added: set<string>, goal: map<string, Value>)
    requires OldState(old_ones, ms, detached, added, goal) && PutState(put, ms, ns, goal)
    requires GoalState(old_ones, put, ns, detached, goal)
    requires ms != [] && ms[0].name in detached && !Named(ns, ms[0].name)
    requires old_ones != [] && old_ones[0].name in detached
    ensures OldState(old_ones[1..], ms[1..], detached, added, goal)
  {
    hide WellFormed, Denote, Named;
    TailsIn(old_ones, ms);
    var x := ms[0].name;
    NamedTail(ms, x);
    assert !Named(put, x) by {
      if Named(put, x) {
        PutNamed(put, ms, ns, goal, x);
      }
    }
    assert x !in goal;
    forall o | o in old_ones[1..]
      ensures Named(ms, o.name) ==> o.name == x || Named(ms[1..], o.name)
    {
      NamedTail(ms, o.name);
    }
    forall m | m in ms[1..] && m.name !in detached
      ensures exists o :: o in old_ones[1..] && Holder(o, m)
    {
      HeldBehind(old_ones, ms, detached, added, goal, m);
    }
  }

  lemma PutNamed(put: seq<Member>, ms: seq<Member>, ns: seq<Member>, goal: map<string, Value>, key: string)
    requires PutState(put, ms, ns, goal) && Named(put, key)
    ensures !Named(ms, key) && !Named(ns, key)
  {
    var n :| n in put && n.name == key;
    assert !Named(ms, n.name) && !Named(ns, n.name);
  }

  /** The head that is detached holds no kept member. */
  lemma {:induction false} HeldBehind(old_ones: seq<Member>, ms: seq<Member>, detached: set<string>,
                                      added: set<string>, goal: map<string, Value>, m: Member)
    requires OldState(old_ones, ms, detached, added, goal) && m in ms && m.name !in detached
    requires old_ones != [] && old_ones[0].name in detached
    ensures exists o :: o in old_ones[1..] && Holder(o, m)
  {
    hide Holder, Denote, Named;
    var o :| o in old_ones && Holder(o, m);
    HolderName(o, m);
    var i :| 0 <= i < |old_ones| && old_ones[i] == o;
    assert old_ones[1..][i - 1] == o;
  }

  lemma HolderName(o: Member, m: Member)
    requires Holder(o, m)
    ensures o.name == m.name
  {
  }

  lemma RemovedGoal(old_ones: seq<Member>, put: seq<Member>, ns: seq<Member>, detached: set<string>,
                    goal: map<string, Value>)
    requires GoalState(old_ones, put, ns, detached, goal) && old_ones != [] && old_ones[0].name in detached
    ensures GoalState(old_ones[1..], put, ns, detached, goal)
  {
    hide Denote, Named;
    forall k | k in goal
      ensures Named(ns, k) || Named(put, k) || (k !in detached && Named(old_ones[1..], k))
    {
      NamedTail(old_ones, k);
    }
  }

  /** An added key comes last. */
  lemma {:induction false} StateAdded(old_ones: seq<Member>, put: seq<Member>, ms: seq<Member>, ns: seq<Member>,
                                      detached: set<string>, added: set<string>, goal: map<string, Value>, c: string)
    requires ClassState(old_ones, put, ms, ns, detached, added, goal, c)
    requires ns != [] && ns[0].name in added && !Named(ms, ns[0].name) && Steps(ms, ns[1..], detached, added)
    requires Ascends(ns, true)
    ensures PutMember(old_ones + put, ns[0].name, ns[0].item) == old_ones + (put + [ns[0]])
    ensures ClassState(old_ones, put + [ns[0]], ms, ns[1..], detached, added, goal, c)
  {
    hide Steps, AllSurvive, Denote, Fold, Named, Distinct, Ascends, OldState, PutState, GoalState, OneClass, Fit,
      PutMember, Absent;
    var all, n := old_ones + put, ns[0];
    OneTail(ns, c);
    FitTails(ms, ns);
    FreshKey(old_ones, put, ms, ns, detached, added, goal);
    PutFreshKey(all, n);
    Assoc(old_ones, put, [n]);
    GoalAhead(old_ones, put, ns, detached, goal);
    PutMore(put, ms, ms, ns, goal);
    GoalMore(old_ones, old_ones, put, ns, detached, goal);
    OneAppend(put, n, c);
  }

  lemma {:induction false} FreshKey(old_ones: seq<Member>, put: seq<Member>, ms: seq<Member>, ns: seq<Member>,
                                    detached: set<string>, added: set<string>, goal: map<string, Value>)
    requires OldState(old_ones, ms, detached, added, goal) && PutState(put, ms, ns, goal)
    requires ns != [] && ns[0].name in added
    ensures Absent(old_ones + put, ns[0].name)
  {
    hide Named, Denote, Holder;
    NamedTail(ns, ns[0].name);
    forall x | x in old_ones + put
      ensures x.name != ns[0].name
    {
      if x in put {
        assert !Named(ns, x.name);
      }
    }
  }

  /** Putting a key that is not there appends it. */
  lemma {:induction false} PutFreshKey(all: seq<Member>, n: Member)
    requires Distinct(all, NameOf, true) && Absent(all, n.name)
    ensures PutMember(all, n.name, n.item) == all + [n] && Distinct(all + [n], NameOf, true)
  {
    forall k | 0 <= k < |all|
      ensures !SameKey(n.name, all[k].name, true)
    {
      assert all[k] in all;
    }
    FindNone(all, n.name, true);
    var next := all + [n];
    forall i, j | 0 <= i < j < |next|
      ensures !SameKey(NameOf(next[i]), NameOf(next[j]), true)
    {
      if j < |all| {
        assert next[i] == all[i] && next[j] == all[j];
      } else {
        assert next[i] == all[i] && all[i] in all;
      }
    }
  }

  lemma {:induction false} PutMore(put: seq<Member>, ms: seq<Member>, ms': seq<Member>, ns: seq<Member>,
                                   goal: map<string, Value>)
    requires PutState(put, ms, ns, goal) && ns != [] && Ascends(ns, true)
    requires ns[0].name in goal && goal[ns[0].name] == Denote(ns[0].item, true)
    requires !Named(ms', ns[0].name) && forall k :: Named(ms', k) ==> Named(ms, k)
    ensures PutState(put + [ns[0]], ms', ns[1..], goal)
  {
    hide Denote, Named, Ascends;
    HeadNamed(ns);
    forall x | x in put + [ns[0]]
      ensures !Named(ns[1..], x.name) && !Named(ms', x.name)
    {
      NamedTail(ns, x.name);
    }
  }

  lemma HeadNamed(ns: seq<Member>)
    requires ns != [] && Ascends(ns, true)
    ensures !Named(ns[1..], ns[0].name) && Named(ns, ns[0].name)
  {
    hide Ascends;
    HeadApart(ns);
  }

  lemma {:induction false} GoalMore(old_ones: seq<Member>, left: seq<Member>, put: seq<Member>, ns: seq<Member>,
                                    detached: set<string>, goal: map<string, Value>)
    requires GoalState(old_ones, put, ns, detached, goal) && ns != []
    requires forall k :: k !in detached && Named(old_ones, k) ==> Named(left, k)
    ensures GoalState(left, put + [ns[0]], ns[1..], detached, goal)
  {
    hide Denote, Named;
    TailsIn(ns, ns);
    forall k | k in goal
      ensures Named(ns[1..], k) || Named(put + [ns[0]], k) || (k !in detached && Named(left, k))
    {
      NamedTail(ns, k);
      NamedAppend(put, ns[0], k);
    }
  }

  lemma NamedAppend(put: seq<Member>, n: Member, key: string)
    ensures Named(put + [n], key) <==> Named(put, key) || n.name == key
  {
    assert n in put + [n] && forall x :: x in put + [n] <==> x in put || x == n;
  }

  lemma {:induction false} WithoutNone(ms: seq<Member>, key: string)
    requires Absent(ms, key)
    ensures Without(ms, key) == ms
  {
    forall k | 0 <= k < |ms|
      ensures !SameKey(key, ms[k].name, true)
    {
      assert ms[k] in ms;
    }
    FindNone(ms, key, true);
  }

  lemma {:induction false} WithoutFound(rest: seq<Member>, put: seq<Member>, i: nat)
    requires Distinct(rest + put, NameOf, true) && i < |rest|
    ensures var key := rest[i].name;
      && Without(rest, key) == RemoveAt(rest, i) && Without(rest + put, key) == RemoveAt(rest, i) + put
      && Distinct(RemoveAt(rest, i) + put, NameOf, true) && Absent(RemoveAt(rest, i) + put, key)
      && forall x :: x in RemoveAt(rest, i) <==> x in rest && x.name != key
  {
    hide Distinct;
    var all := rest + put;
    DistinctNamed(rest, put);
    assert all[i] == rest[i];
    NamedOnce(rest, i);
    NamedOnce(all, i);
    assert RemoveAt(all, i) == RemoveAt(rest, i) + put;
    hide RemoveAt;
    RemoveKeepsDistinct(all, i, true);
    RemoveKeepsDistinct(rest, i, true);
  }

  lemma {:induction false} WithoutPut(rest: seq<Member>, put: seq<Member>, key: string)
    requires Distinct(rest + put, NameOf, true) && Absent(put, key)
    ensures Without(rest + put, key) == Without(rest, key) + put
    ensures Distinct(Without(rest, key) + put, NameOf, true) && Absent(Without(rest, key) + put, key)
    ensures forall x :: x in Without(rest, key) <==> x in rest && x.name != key
  {
    hide Distinct, Without, RemoveAt, SameKey;
    var all := rest + put;
    DistinctNamed(rest, put);
    if Named(rest, key) {
      var t :| t in rest && t.name == key;
      var i :| 0 <= i < |rest| && rest[i] == t;
      WithoutFound(rest, put, i);
    } else {
      WithoutNone(rest, key);
      WithoutNone(all, key);
    }
  }

  lemma OneWithin(rest: seq<Member>, left: seq<Member>, c: string)
    requires OneClass(rest, c) && forall x :: x in left ==> x in rest
    ensures OneClass(left, c)
  {
    hide Fold;
  }

  lemma CountHead(ms: seq<Member>, keys: set<string>)
    requires ms != []
    ensures Count(ms, keys) == (if ms[0].name in keys then 1 else 0) + Count(ms[1..], keys)
  {
  }

  lemma PutLeft(rest: seq<Member>, put: seq<Member>, left: seq<Member>, key: string, n: Member)
    requires Without(rest + put, key) == left + put && n.name == key
    ensures PutMember(rest + put, key, n.item) == left + (put + [n]) && (left + put) + [n] == left + (put + [n])
  {
    hide Without;
    Assoc(left, put, [n]);
  }

  /** A replaced key: the head goes, what is left of the key goes, the new item comes last. */
  lemma {:induction false} StateReplaced(old_ones: seq<Member>, put: seq<Member>, ms: seq<Member>, ns: seq<Member>,
                                         detached: set<string>, added: set<string>, goal: map<string, Value>,
                                         c: string)
    requires ClassState(old_ones, put, ms, ns, detached, added, goal, c)
    requires ms != [] && ns != [] && ms[0].name == ns[0].name && ms[0].name in detached
    requires Steps(ms[1..], ns[1..], detached, added) && Ascends(ms, true) && Ascends(ns, true)
    requires old_ones != [] && old_ones[0].name in detached
    ensures var left := Without(old_ones[1..], ms[0].name);
      && PutMember((old_ones + put)[1..], ms[0].name, ns[0].item) == left + (put + [ns[0]])
      && ClassState(left, put + [ns[0]], ms[1..], ns[1..], detached, added, goal, c)
  {
    hide Steps, AllSurvive, Denote, Fold, Named, Distinct, Ascends, Without, OldState, PutState, GoalState, OneClass,
      Fit, Absent, Count;
    var x, rest := ms[0].name, old_ones[1..];
    var left := Without(rest, x);
    assert (old_ones + put)[1..] == rest + put;
    DistinctDropped(old_ones + put);
    OneTail(ms, c);
    OneTail(ns, c);
    OneTail(old_ones, c);
    FitTails(ms, ns);
    HeadNamed(ms);
    PutAbsent(put, ms, ns, goal, x);
    WithoutPut(rest, put, x);
    OneWithin(rest, left, c);
    PutFreshKey(left + put, ns[0]);
    PutLeft(rest, put, left, x, ns[0]);
    forall k | Named(ms[1..], k)
      ensures Named(ms, k)
    {
      NamedTail(ms, k);
    }
    GoalAhead(old_ones, put, ns, detached, goal);
    PutMore(put, ms, ms[1..], ns, goal);
    ReplacedOld(old_ones, left, ms, detached, added, goal);
    GoalMore(old_ones, left, put, ns, detached, goal);
    LeftCount(rest, x, detached);
    CountHead(old_ones, detached);
    CountHead(ms, detached);
    OneAppend(put, ns[0], c);
  }

  lemma PutAbsent(put: seq<Member>, ms: seq<Member>, ns: seq<Member>, goal: map<string, Value>, key: string)
    requires PutState(put, ms, ns, goal) && Named(ms, key)
    ensures Absent(put, key)
  {
    hide Denote;
  }

  lemma {:induction false} LeftCount(rest: seq<Member>, key: string, detached: set<string>)
    ensures Count(Without(rest, key), detached) <= Count(rest, detached)
    ensures Named(rest, key) && key in detached ==> Count(Without(rest, key), detached) == Count(rest, detached) - 1
  {
    hide RemoveAt;
    var i := FindKey(rest, key, true);
    if i < |rest| {
      CountWithout(rest, i, detached);
    }
  }

  lemma {:induction false} ReplacedOld(old_ones: seq<Member>, left: seq<Member>, ms: seq<Member>,
                                       detached: set<string>, added: set<string>, goal: map<string, Value>)
    requires OldState(old_ones, ms, detached, added, goal)
    requires ms != [] && ms[0].name in detached && old_ones != [] && old_ones[0].name in detached
    requires forall x :: x in left <==> x in old_ones[1..] && x.name != ms[0].name
    ensures OldState(left, ms[1..], detached, added, goal)
    ensures forall k :: k !in detached && Named(old_ones, k) ==> Named(left, k)
  {
    hide WellFormed, Denote, Holder;
    TailsIn(old_ones, ms);
    forall o | o in left
      ensures Named(ms, o.name) ==> Named(ms[1..], o.name)
    {
      NamedTail(ms, o.name);
    }
    forall m | m in ms[1..] && m.name !in detached
      ensures exists o :: o in left && Holder(o, m)
    {
      HeldBehind(old_ones, ms, detached, added, goal, m);
      var o :| o in old_ones[1..] && Holder(o, m);
      HolderName(o, m);
      assert o in left;
    }
    forall k | k !in detached && Named(old_ones, k)
      ensures Named(left, k)
    {
      NamedTail(old_ones, k);
      var o :| o in old_ones[1..] && o.name == k;
      assert o in left;
    }
  }

  /** A kept key: its item is patched where it stands. */
  lemma {:induction false} StateKept(old_ones: seq<Member>, put: seq<Member>, ms: seq<Member>, ns: seq<Member>,
                                     detached: set<string>, added: set<string>, goal: map<string, Value>, c: string,
                                     i: nat, item: Json)
    requires ClassState(old_ones, put, ms, ns, detached, added, goal, c)
    requires ms != [] && ns != [] && ms[0].name == ns[0].name && ms[0].name !in detached
    requires Steps(ms[1..], ns[1..], detached, added) && Ascends(ms, true) && Ascends(ns, true)
    requires i < |old_ones| && old_ones[i].name == ms[0].name && Denote(item, true) == Denote(ns[0].item, true)
    ensures var left := old_ones[i := Member(ms[0].name, item)];
      && (old_ones + put)[i := Member(ms[0].name, item)] == left + put
      && ClassState(left, put, ms[1..], ns[1..], detached, added, goal, c)
  {
    hide Steps, AllSurvive, WellFormed, Addressable, Height, Denote, Fold, Named, Distinct, Ascends, OldState,
      GoalState,
      PutState;
    var x := ms[0].name;
    var left := old_ones[i := Member(x, item)];
    TailsIn(ns, ms);
    DistinctNames(old_ones + put, left + put, true);
    SetIn(old_ones, i, Member(x, item));
    CountNames(old_ones, left, detached);
    KeptOld(old_ones, put, ms, ns, detached, added, goal, i, item);
    KeptPut(put, ms, ns, goal);
    KeptGoal(old_ones, left, put, ms, ns, detached, goal, i);
  }

  lemma SetIn(ms: seq<Member>, i: nat, x: Member)
    requires i < |ms| && x.name == ms[i].name
    ensures forall m :: m in ms[i := x] ==> m == x || m in ms
    ensures forall m :: m in ms && m.name != x.name ==> m in ms[i := x]
    ensures ms[i] in ms && x in ms[i := x]
  {
    assert ms[i := x][i] == x;
    forall m | m in ms && m.name != x.name
      ensures m in ms[i := x]
    {
      var j :| 0 <= j < |ms| && ms[j] == m;
      assert ms[i := x][j] == m;
    }
  }

  lemma {:induction false} KeptOld(old_ones: seq<Member>, put: seq<Member>, ms: seq<Member>, ns: seq<Member>,
                                   detached: set<string>, added: set<string>, goal: map<string, Value>, i: nat,
                                   item: Json)
    requires OldState(old_ones, ms, detached, added, goal) && GoalState(old_ones, put, ns, detached, goal)
    requires ms != [] && ns != [] && ms[0].name == ns[0].name && ms[0].name !in detached && Ascends(ms, true)
    requires Distinct(old_ones + put, NameOf, true)
    requires i < |old_ones| && old_ones[i].name == ms[0].name && Denote(item, true) == Denote(ns[0].item, true)
    ensures OldState(old_ones[i := Member(ms[0].name, item)], ms[1..], detached, added, goal)
  {
    hide WellFormed, Denote, Named, Distinct, Ascends, Holder;
    var x := ms[0].name;
    var left := old_ones[i := Member(x, item)];
    TailsIn(ns, ms);
    HeadNamed(ms);
    HeadApart(ms);
    DistinctNamed(old_ones, put);
    NamedOnce(old_ones, i);
    SetIn(old_ones, i, Member(x, item));
    forall o | o in left
      ensures o == Member(x, item) || o in old_ones
      ensures o.name != x && Named(ms, o.name) ==> Named(ms[1..], o.name)
      ensures o.name == x ==> o == Member(x, item)
    {
      NamedTail(ms, o.name);
      var j :| 0 <= j < |left| && left[j] == o;
      if j != i {
        assert old_ones[j] == o;
        if o.name == x {
          DistinctAt(old_ones, i, j, true);
        }
      }
    }
    forall m | m in ms[1..] && m.name !in detached
      ensures exists o :: o in left && Holder(o, m)
    {
      assert m in ms;
      var o :| o in old_ones && Holder(o, m);
      HolderName(o, m);
      assert o in left;
    }
  }

  lemma {:induction false} KeptPut(put: seq<Member>, ms: seq<Member>, ns: seq<Member>, goal: map<string, Value>)
    requires PutState(put, ms, ns, goal) && ms != [] && ns != []
    ensures PutState(put, ms[1..], ns[1..], goal)
  {
    hide Denote, Named;
    forall n | n in put
      ensures !Named(ms[1..], n.name) && !Named(ns[1..], n.name)
    {
      NamedTail(ms, n.name);
      NamedTail(ns, n.name);
    }
  }

  lemma {:induction false} KeptGoal(old_ones: seq<Member>, left: seq<Member>, put: seq<Member>, ms: seq<Member>,
                                    ns: seq<Member>, detached: set<string>, goal: map<string, Value>, i: nat)
    requires GoalState(old_ones, put, ns, detached, goal) && ns != [] && ms != [] && ms[0].name == ns[0].name
    requires ms[0].name !in detached && |left| == |old_ones| && i < |left| && left[i].name == ns[0].name
    requires forall j :: 0 <= j < |left| ==> left[j].name == old_ones[j].name
    ensures GoalState(left, put, ns[1..], detached, goal)
  {
    hide Denote, Named;
    TailsIn(ns, ns);
    forall k | k in goal
      ensures Named(ns[1..], k) || Named(put, k) || (k !in detached && Named(left, k))
    {
      NamedTail(ns, k);
      NamedAt(left, i);
      if Named(old_ones, k) {
        NamedSame(old_ones, left, k);
      }
    }
  }

  lemma NamedSame(xs: seq<Member>, ys: seq<Member>, key: string)
    requires |xs| == |ys| && forall j :: 0 <= j < |ys| ==> ys[j].name == xs[j].name
    requires Named(xs, key)
    ensures Named(ys, key)
  {
    var x :| x in xs && x.name == key;
    var j :| 0 <= j < |xs| && xs[j] == x;
    NamedAt(ys, j);
  }
}
