/** What the generated patches do to the children of one container, without the
    paths: a walk over the list of children beside the two lists compared. */
module PatchWalk {
  import opened Text
  import opened Json
  import opened Pointer
  import opened Duplicate
  import opened Patch
  import opened PatchKeys
  import opened Places
  import opened PatchSteps
  import opened PatchLift

  // ------------------------------------------------------------ the walk

  /** A detach: keys are looked up without case. */
  function DropMember(members: seq<Member>, key: string): Option<seq<Member>>
  {
    var i := FindKey(members, key, false);
    if i < |members| then Some(RemoveAt(members, i)) else None
  }

  /** An add: the key is looked up with case and comes last. */
  function PutMember(members: seq<Member>, key: string, item: Json): seq<Member>
  {
    Without(members, key) + [Member(key, item)]
  }

  /** The patches for a key of both objects. */
  function WalkBoth(members: seq<Member>, m: Member, n: Member): Option<seq<Member>>
  {
    if Replaced(m.item, n.item) then
      var rest := DropMember(members, Decoded(m.name));
      if rest.None? then None else Some(PutMember(rest.value, Decoded(m.name), n.item))
    else
      var patches, i := CreatePatches("", m.item, n.item, true), FindKey(members, m.name, true);
      if patches == [] then Some(members)
      else if i >= |members| then None
      else
        var r := ApplyAll(members[i].item, patches, true);
        if r.status != 0 then None else Some(members[i := Member(members[i].name, r.tree)])
  }

  /** The patches for two sorted member lists; `None` when one of them fails. */
  function Walk(members: seq<Member>, ms: seq<Member>, ns: seq<Member>): Option<seq<Member>>
    decreases |ms| + |ns|
  {
    if ms == [] && ns == [] then Some(members)
    else
      var diff := if ms == [] then 1 else if ns == [] then -1 else Compare(ms[0].name, ns[0].name, true);
      if diff == 0 then
        var next := WalkBoth(members, ms[0], ns[0]);
        if next.None? then None else Walk(next.value, ms[1..], ns[1..])
      else if diff < 0 then
        var next := DropMember(members, Decoded(ms[0].name));
        if next.None? then None else Walk(next.value, ms[1..], ns)
      else Walk(PutMember(members, Decoded(ns[0].name), ns[0].item), ms, ns[1..])
  }

  /** The patches for two arrays. */
  function WalkItems(items: seq<Json>, xs: seq<Json>, ys: seq<Json>): Option<seq<Json>>
    requires |items| == |xs|
    decreases |xs|
  {
    if xs == [] then Some(ys)
    else if ys == [] then Some([])
    else
      var r := ApplyAll(items[0], CreatePatches("", xs[0], ys[0], true), true);
      if r.status != 0 then None
      else
        var rest := WalkItems(items[1..], xs[1..], ys[1..]);
        if rest.None? then None else Some([r.tree] + rest.value)
  }

  // ----------------------------------------------------- edits at the top

  lemma DetachTop(tree: Json, child: string)
    requires '/' !in child
    ensures DetachPath(tree, "/" + child, true) == DetachChild(tree, DecodeInPlace(child))
  {
    hide DetachChild, DecodeInPlace;
    SplitAtSlash("", child);
    NoPrefix("/");
    assert Resolve(tree, "", true) == Some([]);
  }

  lemma AddTop(tree: Json, child: string, value: Json)
    requires '/' !in child
    ensures var a := AddChild(tree, DecodeInPlace(child), value, true);
      AddAtPath(tree, "/" + child, value, true) == if a.status != 0 then Applied(a.status, tree) else Applied(0, a.tree)
  {
    hide AddChild, DecodeInPlace;
    SplitAtSlash("", child);
    NoPrefix("/");
    assert Resolve(tree, "", true) == Some([]);
  }

  lemma TopEdit(tree: Json, operation: string, child: string, value: Option<Json>)
    requires operation != "remove" ==> operation in {"add", "replace"} && Usable(value)
    ensures Written(Edit(operation, "/" + child, value))
    ensures ApplyPatch(tree, ComposePatch(operation, "/" + child, None, value), true)
      == ApplyEdit(tree, Edit(operation, "/" + child, value))
  {
    hide ApplyPatch, ApplyEdit, ComposePatch;
    NoPrefix("/" + child);
    ApplyIsEdit(tree, "", Edit(operation, "/" + child, value));
  }

  lemma {:induction false} TopSuffix(operation: string, key: string, value: Option<Json>)
    ensures ComposePatch(operation, "", Some(key), value) == ComposePatch(operation, "/" + Encode(key), None, value)
  {
    NoPrefix("/");
  }

  /** The result is the object with these members, or a failure. */
  predicate Leaves(r: Applied, members: Option<seq<Member>>)
  {
    if members.None? then r.status != 0 else r == Applied(0, Object(members.value))
  }

  lemma TopRemove(members: seq<Member>, key: string)
    ensures Leaves(ApplyPatch(Object(members), ComposePatch("remove", "", Some(key), None), true),
                   DropMember(members, Decoded(key)))
  {
    hide ApplyPatch, ComposePatch, Encode, DecodeInPlace, DetachPath, FindKey, RemoveAt;
    TopSuffix("remove", key, None);
    TopEdit(Object(members), "remove", Encode(key), None);
    EncodeSlashFree(key);
    DetachTop(Object(members), Encode(key));
  }

  lemma {:induction false} TopAdd(members: seq<Member>, key: string, value: Json)
    requires Height(value) <= CIRCULAR_LIMIT
    ensures Leaves(ApplyPatch(Object(members), ComposePatch("add", "", Some(key), Some(value)), true),
                   Some(PutMember(members, Decoded(key), value)))
  {
    hide ApplyPatch, ComposePatch, Encode, DecodeInPlace, AddAtPath, FindKey, RemoveAt;
    TopSuffix("add", key, Some(value));
    TopEdit(Object(members), "add", Encode(key), Some(value));
    EncodeSlashFree(key);
    AddTop(Object(members), Encode(key), value);
  }

  lemma {:induction false} TopReplace(members: seq<Member>, key: string, value: Json)
    requires Height(value) <= CIRCULAR_LIMIT
    ensures var rest := DropMember(members, Decoded(key));
      Leaves(ApplyPatch(Object(members), ComposePatch("replace", "/" + Encode(key), None, Some(value)), true),
             if rest.None? then None else Some(PutMember(rest.value, Decoded(key), value)))
  {
    hide ApplyPatch, ComposePatch, Encode, DecodeInPlace, AddAtPath, DetachPath, FindKey, RemoveAt;
    TopEdit(Object(members), "replace", Encode(key), Some(value));
    EncodeSlashFree(key);
    DetachTop(Object(members), Encode(key));
    var rest := DropMember(members, Decoded(key));
    if rest.Some? {
      AddTop(Object(rest.value), Encode(key), value);
    }
  }

  // ---------------------------------------------- the patches are the walk

  lemma {:induction false} ReplacesRoot(tree: Json, from: Json, to: Json)
    requires Replaced(from, to) && Height(to) <= CIRCULAR_LIMIT
    ensures forall path :: CreatePatches(path, from, to, true) == [ComposePatch("replace", path, None, Some(to))]
    ensures ApplyAll(tree, CreatePatches("", from, to, true), true) == Applied(0, to)
  {
    hide ComposePatch, GetMember, PatchValue, DetachPath, AddAtPath;
    if from.String? && to.String? {
      StrCmpZero(from.s, to.s);
    }
    var patch := ComposePatch("replace", "", None, Some(to));
    ReadPatch("replace", "", None, Some(to));
    ReadValue("replace", "", None, to);
    ApplyOne(tree, patch, []);
  }

  lemma BothAgree(members: seq<Member>, m: Member, n: Member)
    requires Height(n.item) <= CIRCULAR_LIMIT
    ensures Leaves(ApplyAll(Object(members), CreatePatches("/" + Encode(m.name), m.item, n.item, true), true),
                   WalkBoth(members, m, n))
  {
    hide ApplyPatch, CreatePatches, ComposePatch, Encode, Decoded, DropMember, Replaced, FindKey, Height, AllShifted;
    var s, tree := Key(m.name), Object(members);
    var long := CreatePatches("/" + Encode(m.name), m.item, n.item, true);
    var short := CreatePatches("", m.item, n.item, true);
    if Replaced(m.item, n.item) {
      ReplacesRoot(tree, m.item, n.item);
      TopReplace(members, m.name, n.item);
      ApplyOne(tree, long[0], []);
    } else {
      NoSuffix("/" + Encode(m.name));
      CreateShifted("/" + Encode(m.name), "", m.item, n.item);
      SameLength("/" + Encode(m.name), long, short);
      if short != [] {
        if StepAt(tree, s).Some? {
          LiftAll(tree, s, long, short);
          assert [StepAt(tree, s).value][1..] == [];
        } else {
          FirstShifted("/" + Encode(m.name), long, short);
          LiftMissing(tree, s, long[0], short[0]);
        }
      }
    }
  }

  lemma SameLength(prefix: string, long: seq<Json>, short: seq<Json>)
    requires AllShifted(prefix, long, short)
    ensures |long| == |short|
  {
  }

  lemma FirstShifted(prefix: string, long: seq<Json>, short: seq<Json>)
    requires AllShifted(prefix, long, short) && long != []
    ensures Shifted(prefix, long[0], short[0])
  {
    hide Shifted;
  }

  lemma {:induction false} WalkAgrees(members: seq<Member>, ms: seq<Member>, ns: seq<Member>, owner: Json)
    requires forall m :: m in ms ==> m.item < owner
    requires forall n :: n in ns ==> Height(n.item) <= CIRCULAR_LIMIT
    ensures Leaves(ApplyAll(Object(members), CreateForMembers("", ms, ns, true, owner), true), Walk(members, ms, ns))
    decreases |ms| + |ns|
  {
    hide ApplyPatch, CreatePatches, ComposePatch, Encode, Decoded, DropMember, PutMember, WalkBoth, Height, StrCmp;
    if ms != [] || ns != [] {
      var diff := if ms == [] then 1 else if ns == [] then -1 else Compare(ms[0].name, ns[0].name, true);
      NoPrefix("/");
      if diff == 0 {
        var next := WalkBoth(members, ms[0], ns[0]);
        BothAgree(members, ms[0], ns[0]);
        if next.Some? {
          WalkAgrees(next.value, ms[1..], ns[1..], owner);
        }
        ApplyConcat(Object(members), CreatePatches("/" + Encode(ms[0].name), ms[0].item, ns[0].item, true),
                    CreateForMembers("", ms[1..], ns[1..], true, owner));
      } else if diff < 0 {
        var next := DropMember(members, Decoded(ms[0].name));
        TopRemove(members, ms[0].name);
        if next.Some? {
          WalkAgrees(next.value, ms[1..], ns, owner);
        }
        ApplyOne(Object(members), ComposePatch("remove", "", Some(ms[0].name), None),
                 CreateForMembers("", ms[1..], ns, true, owner));
      } else {
        TopAdd(members, ns[0].name, ns[0].item);
        WalkAgrees(PutMember(members, Decoded(ns[0].name), ns[0].item), ms, ns[1..], owner);
        ApplyOne(Object(members), ComposePatch("add", "", Some(ns[0].name), Some(ns[0].item)),
                 CreateForMembers("", ms, ns[1..], true, owner));
      }
    }
  }

  // ------------------------------------------------------------- arrays

  lemma {:induction false} TopIndex(i: nat)
    ensures DecodeInPlace(Decimal(i)) == Decimal(i) == Encode(Decimal(i)) && '/' !in Decimal(i) && Decimal(i) != "-"
    ensures i < SIZE_LIMIT ==> DecodeIndex(Decimal(i)) == Some(i)
  {
    DigitsPlain(Decimal(i));
    PlainSurvives(Decimal(i));
    DecodeExact(Decimal(i));
    assert IsDigit(Decimal(i)[0]);
    NoSuffix(Decimal(i));
    if i < SIZE_LIMIT {
      DecodePrinted(i, []);
    }
  }

  lemma {:induction false} TopRemoveItem(items: seq<Json>, i: nat)
    requires i < |items| && i < SIZE_LIMIT
    ensures ApplyPatch(Array(items), ComposePatch("remove", "", Some(Decimal(i)), None), true)
      == Applied(0, Array(RemoveAt(items, i)))
  {
    hide ApplyPatch, ComposePatch, Encode, DecodeInPlace, DetachPath, RemoveAt, Decimal, DecodeIndex;
    TopIndex(i);
    TopSuffix("remove", Decimal(i), None);
    TopEdit(Array(items), "remove", Decimal(i), None);
    DetachTop(Array(items), Decimal(i));
  }

  lemma {:induction false} TopReplaceItem(items: seq<Json>, i: nat, value: Json)
    requires i < |items| && i < SIZE_LIMIT && Height(value) <= CIRCULAR_LIMIT
    ensures ApplyPatch(Array(items), ComposePatch("replace", "/" + Decimal(i), None, Some(value)), true)
      == Applied(0, Array(items[i := value]))
  {
    hide ApplyPatch, ComposePatch, Encode, DecodeInPlace, DetachPath, AddAtPath, RemoveAt, InsertAt, Decimal,
      DecodeIndex;
    TopIndex(i);
    TopEdit(Array(items), "replace", Decimal(i), Some(value));
    DetachTop(Array(items), Decimal(i));
    AddTop(Array(RemoveAt(items, i)), Decimal(i), value);
    RemainingAt(items, i);
    InsertRemoved(items, i, value);
  }

  lemma {:induction false} TopAppend(items: seq<Json>, value: Json)
    requires Height(value) <= CIRCULAR_LIMIT
    ensures ApplyPatch(Array(items), ComposePatch("add", "", Some("-"), Some(value)), true)
      == Applied(0, Array(items + [value]))
  {
    hide ApplyPatch, ComposePatch, Encode, DecodeInPlace, AddAtPath, DecodeIndex;
    PlainSurvives("-");
    DecodeExact("-");
    TopSuffix("add", "-", Some(value));
    TopEdit(Array(items), "add", "-", Some(value));
    AddTop(Array(items), "-", value);
  }

  lemma {:induction false} AppendAgrees(items: seq<Json>, ys: seq<Json>)
    requires forall y :: y in ys ==> Height(y) <= CIRCULAR_LIMIT
    ensures ApplyAll(Array(items), AppendRest("", ys), true) == Applied(0, Array(items + ys))
    decreases |ys|
  {
    hide ApplyPatch, ComposePatch, Height;
    if ys == [] {
      NoSuffix(items);
    } else {
      TopAppend(items, ys[0]);
      ApplyOne(Array(items), ComposePatch("add", "", Some("-"), Some(ys[0])), AppendRest("", ys[1..]));
      AppendAgrees(items + [ys[0]], ys[1..]);
      assert (items + [ys[0]]) + ys[1..] == items + ys;
    }
  }

  lemma {:induction false} RemoveAgrees(head: seq<Json>, rest: seq<Json>)
    requires |head| + |rest| <= SIZE_LIMIT
    ensures ApplyAll(Array(head + rest), RemoveRest("", |rest|, |head|), true) == Applied(0, Array(head))
    decreases |rest|
  {
    hide ApplyPatch, ComposePatch, Decimal;
    if rest == [] {
      NoSuffix(head);
    } else {
      TopRemoveItem(head + rest, |head|);
      assert RemoveAt(head + rest, |head|) == head + rest[1..];
      ApplyOne(Array(head + rest), ComposePatch("remove", "", Some(Decimal(|head|)), None),
               RemoveRest("", |rest| - 1, |head|));
      RemoveAgrees(head, rest[1..]);
    }
  }

  /** One element of both arrays. */
  lemma {:induction false} ItemAgrees(items: seq<Json>, i: nat, from: Json, to: Json)
    requires i < |items| && i < SIZE_LIMIT && Height(to) <= CIRCULAR_LIMIT
    ensures var a := ApplyAll(Array(items), CreatePatches("/" + Decimal(i), from, to, true), true);
      var a' := ApplyAll(items[i], CreatePatches("", from, to, true), true);
      && (a.status == 0 <==> a'.status == 0)
      && (a.status == 0 ==> a.tree == Array(items[i := a'.tree]))
  {
    hide ApplyPatch, CreatePatches, ComposePatch, Decimal, Replaced;
    if Replaced(from, to) {
      ReplacesRoot(items[i], from, to);
      TopReplaceItem(items, i, to);
      ApplyOne(Array(items), ComposePatch("replace", "/" + Decimal(i), None, Some(to)), []);
    } else {
      NoSuffix("/" + Decimal(i));
      LiftCreated(Array(items), Index(i), "", from, to);
      assert [i][1..] == [];
    }
  }

  lemma {:induction false} ItemsAgree(head: seq<Json>, items: seq<Json>, xs: seq<Json>, ys: seq<Json>)
    requires |items| == |xs| && |head| + |items| <= SIZE_LIMIT
    requires forall y :: y in ys ==> Height(y) <= CIRCULAR_LIMIT
    ensures var r := ApplyAll(Array(head + items), CreateForItems("", xs, ys, |head|, true), true);
      var w := WalkItems(items, xs, ys);
      if w.None? then r.status != 0 else r == Applied(0, Array(head + w.value))
    decreases |xs|
  {
    hide ApplyPatch, CreatePatches, ComposePatch, Decimal, Height;
    if xs == [] {
      NoSuffix(head);
      AppendAgrees(head, ys);
    } else if ys == [] {
      NoSuffix(head);
      RemoveAgrees(head, items);
    } else {
      var all, i := head + items, |head|;
      NoPrefix("/");
      ItemAgrees(all, i, xs[0], ys[0]);
      var a' := ApplyAll(items[0], CreatePatches("", xs[0], ys[0], true), true);
      ApplyConcat(Array(all), CreatePatches("/" + Decimal(i), xs[0], ys[0], true),
                  CreateForItems("", xs[1..], ys[1..], i + 1, true));
      if a'.status == 0 {
        assert all[i := a'.tree] == (head + [a'.tree]) + items[1..];
        ItemsAgree(head + [a'.tree], items[1..], xs[1..], ys[1..]);
        var rest := WalkItems(items[1..], xs[1..], ys[1..]);
        if rest.Some? {
          Assoc(head, [a'.tree], rest.value);
        }
      }
    }
  }
}
