/** What a single generated patch does to a tree and to the value it denotes. */
module PatchSteps {
  import opened Text
  import opened Sort
  import opened Json
  import opened Pointer
  import opened Duplicate
  import opened Patch
  import opened PatchKeys
  import opened Places

  // --------------------------------------------------------- reading a patch

  lemma ReadPatch(operation: string, path: string, suffix: Option<string>, value: Option<Json>)
    ensures var patch := ComposePatch(operation, path, suffix, value);
      && GetMember(patch, "path", true)
           == Some(String(if suffix.None? then path else path + "/" + Encode(suffix.value)))
      && GetMember(patch, "op", true) == Some(String(operation))
      && (value.Some? && Height(value.value) <= CIRCULAR_LIMIT ==> GetMember(patch, "value", true) == value)
  {
    var patch := ComposePatch(operation, path, suffix, value);
    var ms := patch.members;
    assert ms[0].name == "op" && ms[1].name == "path";
    assert FindKey(ms, "op", true) == 0;
    assert "path" != "op";
    assert FindKey(ms, "path", true) == 1;
    if value.Some? && Height(value.value) <= CIRCULAR_LIMIT {
      DuplicateExact(value.value, 0);
      assert ms[2] == Member("value", value.value) && |ms| == 3;
      assert "value" != "op" && "value" != "path";
      assert FindKey(ms, "value", true) == 2;
    }
  }

  lemma {:induction false} ReadValue(operation: string, path: string, suffix: Option<string>, value: Json)
    requires Height(value) <= CIRCULAR_LIMIT
    ensures PatchValue(ComposePatch(operation, path, suffix, Some(value)), true) == (0, value)
  {
    ReadPatch(operation, path, suffix, Some(value));
    DuplicateExact(value, 0);
  }

  /** What `apply_patch` does with each of the generated operations. */
  lemma {:induction false} AddIs(tree: Json, path: string, suffix: Option<string>, value: Json)
    requires Height(value) <= CIRCULAR_LIMIT
    ensures var full := if suffix.None? then path else path + "/" + Encode(suffix.value);
      full != "" ==>
        ApplyPatch(tree, ComposePatch("add", path, suffix, Some(value)), true) == AddAtPath(tree, full, value, true)
  {
    hide ComposePatch, GetMember, AddAtPath, DetachPath, PatchValue, Encode, Resolve, TestAtPath, TestedTree;
    ReadPatch("add", path, suffix, Some(value));
    ReadValue("add", path, suffix, value);
  }

  lemma {:induction false} ReplaceIs(tree: Json, path: string, value: Json)
    requires Height(value) <= CIRCULAR_LIMIT && path != ""
    ensures var d := DetachPath(tree, path, true);
      d.Detached? ==>
        ApplyPatch(tree, ComposePatch("replace", path, None, Some(value)), true) == AddAtPath(d.rest, path, value, true)
  {
    hide ComposePatch, GetMember, AddAtPath, DetachPath, PatchValue, Encode, Resolve, TestAtPath, TestedTree;
    ReadPatch("replace", path, None, Some(value));
    ReadValue("replace", path, None, value);
  }

  lemma {:induction false} RemoveIs(tree: Json, path: string, name: string)
    ensures var d := DetachPath(tree, path + "/" + Encode(name), true);
      d.Detached? ==> ApplyPatch(tree, ComposePatch("remove", path, Some(name), None), true) == Applied(0, d.rest)
  {
    hide ComposePatch, GetMember, AddAtPath, DetachPath, PatchValue, Encode, Resolve, TestAtPath, TestedTree;
    ReadPatch("remove", path, Some(name), None);
    assert path + "/" + Encode(name) != "";
  }

  // ------------------------------------------------------ the edited children

  /** The last step of a path, decoded, names the child again. */
  function ChildText(s: Step): string
  {
    match s case Key(k) => Encode(k) case Index(i) => Decimal(i)
  }

  predicate StepSurvives(s: Step)
  {
    s.Key? ==> Survives(s.name)
  }

  lemma {:induction false} DigitsPlain(digits: string)
    requires forall i :: 0 <= i < |digits| ==> IsDigit(digits[i])
    ensures '~' !in digits && '/' !in digits
  {
  }

  lemma DecodeStep(s: Step)
    requires StepSurvives(s)
    ensures DecodeInPlace(ChildText(s)) == if s.Key? then s.name else Decimal(s.i)
    ensures '/' !in ChildText(s) && StepText(s) == "/" + ChildText(s)
  {
    match s {
      case Key(k) =>
        DecodeExact(k);
        EncodeSlashFree(k);
      case Index(i) =>
        DigitsPlain(Decimal(i));
        PlainSurvives(Decimal(i));
        DecodeExact(Decimal(i));
    }
  }

  lemma {:induction false} SplitAtSlash(parent: string, child: string)
    requires '/' !in child
    ensures var path := parent + "/" + child;
      && LastSlash(path) == Some(|parent|)
      && path[..|parent|] == parent && path[|parent| + 1..] == child
    decreases |child|
  {
    var path := parent + "/" + child;
    if child == [] {
      assert path == parent + "/";
    } else {
      var shorter := child[..|child| - 1];
      SplitAtSlash(parent, shorter);
      assert path[..|path| - 1] == parent + "/" + shorter;
      assert path[|path| - 1] == child[|child| - 1];
    }
  }

  lemma {:induction false} DetachMember(parent: Json, key: string)
    requires WellFormed(parent, false) && HasStep(Denote(parent, true), Key(key))
    ensures var d := DetachChild(parent, key);
      && d.Detached? && WellFormed(d.rest, false)
      && Denote(d.rest, true) == DropStep(Denote(parent, true), Key(key))
  {
    DenoteFind(parent.members, key, true);
    FindBoth(parent.members, key);
    var i := FindKey(parent.members, key, true);
    DenoteRemoveMember(parent.members, i);
    forall k | 0 <= k < |RemoveAt(parent.members, i)|
      ensures WellFormed(RemoveAt(parent.members, i)[k].item, false)
    {
      assert RemoveAt(parent.members, i)[k] == parent.members[if k < i then k else k + 1];
    }
  }

  lemma {:induction false} DetachElement(parent: Json, i: nat)
    requires WellFormed(parent, false) && HasStep(Denote(parent, true), Index(i))
    ensures var d := DetachChild(parent, Decimal(i));
      && d.Detached? && WellFormed(d.rest, false)
      && Denote(d.rest, true) == DropStep(Denote(parent, true), Index(i))
  {
    hide Decimal, DecodeIndex, Denote, WellFormed;
    DecodePrinted(i, []);
    NoSuffix(Decimal(i));
    DenoteArray(parent);
    ElementRemoved(parent.items, i);
  }

  lemma {:induction false} ElementRemoved(items: seq<Json>, i: nat)
    requires i < |items| && WellFormed(Array(items), false)
    ensures WellFormed(Array(RemoveAt(items, i)), false)
    ensures Denote(Array(RemoveAt(items, i)), true) == VArray(RemoveAt(DenoteItems(items, true), i))
  {
    hide RemoveAt, Denote;
    var r := RemoveAt(items, i);
    RemainingAt(items, i);
    RemainingAt(DenoteItems(items, true), i);
    var a, b := DenoteItems(r, true), RemoveAt(DenoteItems(items, true), i);
    forall k | 0 <= k < |r|
      ensures WellFormed(r[k], false) && a[k] == b[k]
    {
      assert r[k] == items[if k < i then k else k + 1];
    }
    assert a == b;
    DenoteArray(Array(r));
  }

  /** What detaching and adding do to the value of the parent. */
  lemma {:induction false} DetachValue(parent: Json, s: Step)
    requires WellFormed(parent, false) && HasStep(Denote(parent, true), s)
    requires StepSurvives(s)
    ensures var d := DetachChild(parent, DecodeInPlace(ChildText(s)));
      && d.Detached? && WellFormed(d.rest, false)
      && Denote(d.rest, true) == DropStep(Denote(parent, true), s)
  {
    DecodeStep(s);
    if s.Key? {
      DetachMember(parent, s.name);
    } else {
      DetachElement(parent, s.i);
    }
  }

  function DropStep(v: Value, s: Step): Value
    requires HasStep(v, s)
  {
    match s
    case Key(k) => VObject(v.fields - {k})
    case Index(i) => VArray(RemoveAt(v.items, i))
  }

  /** The key clashes with no other key of the object when case is ignored. */
  predicate Fresh(fields: map<string, Value>, key: string)
  {
    forall k :: k in fields && Fold(k) == Fold(key) ==> k == key
  }

  function Without(members: seq<Member>, key: string): seq<Member>
  {
    var i := FindKey(members, key, true);
    if i < |members| then RemoveAt(members, i) else members
  }

  lemma {:induction false} WithoutKey(members: seq<Member>, key: string)
    requires Distinct(members, NameOf, false) && Fresh(DenoteMembers(members, true), key)
    ensures Distinct(Without(members, key), NameOf, false)
    ensures DenoteMembers(Without(members, key), true) == DenoteMembers(members, true) - {key}
    ensures forall m :: m in Without(members, key) ==> m in members && !SameKey(NameOf(m), key, false)
  {
    var i := FindKey(members, key, true);
    DenoteFind(members, key, true);
    if i < |members| {
      DenoteRemoveMember(members, i);
      RemoveKeepsDistinct(members, i, false);
    }
    forall m | m in Without(members, key)
      ensures m in members && !SameKey(NameOf(m), key, false)
    {
      DenoteIsMembers(members, m.name, true);
    }
  }

  lemma {:induction false} AddKeyValue(parent: Json, key: string, value: Json)
    requires WellFormed(parent, false) && WellFormed(value, false) && parent.Object?
    requires Fresh(DenoteMembers(parent.members, true), key)
    ensures var a := AddChild(parent, key, value, true);
      && a.status == 0 && WellFormed(a.tree, false)
      && Denote(a.tree, true) == VObject(DenoteMembers(parent.members, true)[key := Denote(value, true)])
  {
    var kept, fields := Without(parent.members, key), DenoteMembers(parent.members, true);
    WithoutKey(parent.members, key);
    forall x | x in kept
      ensures WellFormed(x.item, false)
    {
      var i :| 0 <= i < |parent.members| && parent.members[i] == x;
    }
    hide Distinct, DenoteMembers, Fresh, WellFormed;
    DenoteAppendMember(kept, key, value);
    assert (fields - {key})[key := Denote(value, true)] == fields[key := Denote(value, true)];
    AppendWellFormed(kept, Member(key, value));
    assert AddChild(parent, key, value, true) == Applied(0, Object(kept + [Member(key, value)]));
  }

  lemma AppendWellFormed(members: seq<Member>, m: Member)
    requires Distinct(members + [m], NameOf, false) && WellFormed(m.item, false)
    requires forall x :: x in members ==> WellFormed(x.item, false)
    ensures WellFormed(Object(members + [m]), false)
  {
    var all := members + [m];
    forall i | 0 <= i < |all|
      ensures WellFormed(all[i].item, false)
    {
      assert i < |members| ==> all[i] in members;
    }
  }

  lemma {:induction false} PushValue(parent: Json, value: Json)
    requires WellFormed(parent, false) && WellFormed(value, false) && parent.Array?
    ensures var a := AddChild(parent, "-", value, true);
      && a.status == 0 && WellFormed(a.tree, false)
      && Denote(a.tree, true) == VArray(DenoteItems(parent.items, true) + [Denote(value, true)])
  {
    assert DenoteItems(parent.items + [value], true) == DenoteItems(parent.items, true) + [Denote(value, true)];
  }

  /** Adding a value where a child was taken out puts it in the child's place. */
  lemma {:induction false} RestoreValue(hole: Json, s: Step, value: Json, whole: Value)
    requires WellFormed(hole, false) && WellFormed(value, false) && StepSurvives(s)
    requires HasStep(whole, s) && Denote(hole, true) == DropStep(whole, s)
    requires s.Key? ==> Fresh(whole.fields, s.name)
    ensures var a := AddChild(hole, DecodeInPlace(ChildText(s)), value, true);
      && a.status == 0 && WellFormed(a.tree, false)
      && Denote(a.tree, true) == PutStep(whole, s, Denote(value, true))
  {
    DecodeStep(s);
    match s {
      case Key(k) =>
        AddKeyValue(hole, k, value);
        assert (whole.fields - {k})[k := Denote(value, true)] == whole.fields[k := Denote(value, true)];
      case Index(i) =>
        RestoreItem(hole, i, value, whole.items);
    }
  }

  lemma {:induction false} RestoreItem(hole: Json, i: nat, value: Json, whole: seq<Value>)
    requires WellFormed(hole, false) && WellFormed(value, false)
    requires i < |whole| && i < SIZE_LIMIT && Denote(hole, true) == VArray(RemoveAt(whole, i))
    ensures var a := AddChild(hole, Decimal(i), value, true);
      && a.status == 0 && WellFormed(a.tree, false)
      && Denote(a.tree, true) == VArray(whole[i := Denote(value, true)])
  {
    assert IsDigit(Decimal(i)[0]);
    DecodePrinted(i, []);
    NoSuffix(Decimal(i));
    DenoteInsert(hole.items, i, value);
    InsertRemoved(whole, i, Denote(value, true));
  }

  lemma InsertRemoved<T>(xs: seq<T>, i: nat, x: T)
    requires i < |xs|
    ensures InsertAt(RemoveAt(xs, i), i, x) == xs[i := x]
  {
  }

  lemma InsertedAt<T>(xs: seq<T>, i: nat, x: T)
    requires i <= |xs|
    ensures |InsertAt(xs, i, x)| == |xs| + 1
    ensures forall k :: 0 <= k <= |xs| ==>
      InsertAt(xs, i, x)[k] == if k == i then x else xs[if k < i then k else k - 1]
  {
  }

  lemma {:induction false} DenoteInsert(items: seq<Json>, i: nat, value: Json)
    requires i <= |items| && WellFormed(Array(items), false) && WellFormed(value, false)
    ensures WellFormed(Array(InsertAt(items, i, value)), false)
    ensures DenoteItems(InsertAt(items, i, value), true) == InsertAt(DenoteItems(items, true), i, Denote(value, true))
  {
    hide Denote, InsertAt;
    var r, v := InsertAt(items, i, value), Denote(value, true);
    InsertedAt(items, i, value);
    InsertedAt(DenoteItems(items, true), i, v);
    var a, b := DenoteItems(r, true), InsertAt(DenoteItems(items, true), i, v);
    forall k | 0 <= k < |r|
      ensures WellFormed(r[k], false) && a[k] == b[k]
    {
      assert r[k] == if k == i then value else items[if k < i then k else k - 1];
    }
    assert a == b;
  }

  // ---------------------------------------------------------- single patches

  /** A correct patch step: status 0, well formed again, and the value expected. */
  ghost predicate Yields(r: Applied, v: Value)
  {
    r.status == 0 && WellFormed(r.tree, false) && Denote(r.tree, true) == v
  }

  lemma {:induction false} DetachAtPlace(tree: Json, p: Place, s: Step)
    requires WellFormed(tree, false) && HasPlace(Denote(tree, true), p + [s]) && StepSurvives(s)
    ensures var d := DetachPath(tree, PlaceText(p) + "/" + ChildText(s), true);
      && HasPlace(Denote(tree, true), p) && HasStep(Get(Denote(tree, true), p), s)
      && d.Detached? && WellFormed(d.rest, false)
      && Denote(d.rest, true) == Put(Denote(tree, true), p, DropStep(Get(Denote(tree, true), p), s))
  {
    hide Resolve, Locate, Denote, DetachChild, DecodeInPlace, PlaceText, Encode, Update, NodeAt, Put, Get, HasPlace,
      ValidPath, WellFormed;
    PlaceSnoc(Denote(tree, true), p, s);
    DecodeStep(s);
    SplitAtSlash(PlaceText(p), ChildText(s));
    ResolvePlace(tree, p);
    NodePlace(tree, p);
    var parent := NodeAt(tree, Locate(tree, p));
    DetachValue(parent, s);
    UpdatePlace(tree, p, DetachChild(parent, DecodeInPlace(ChildText(s))).rest);
  }

  lemma {:induction false} AddAtPlace(tree: Json, p: Place, child: string, value: Json)
    requires WellFormed(tree, false) && HasPlace(Denote(tree, true), p) && '/' !in child
    ensures WellFormed(NodeAt(tree, Locate(tree, p)), false)
    ensures Denote(NodeAt(tree, Locate(tree, p)), true) == Get(Denote(tree, true), p)
    ensures var a := AddChild(NodeAt(tree, Locate(tree, p)), DecodeInPlace(child), value, true);
      a.status == 0 && WellFormed(a.tree, false) ==>
        Yields(AddAtPath(tree, PlaceText(p) + "/" + child, value, true),
               Put(Denote(tree, true), p, Denote(a.tree, true)))
  {
    SplitAtSlash(PlaceText(p), child);
    ResolvePlace(tree, p);
    NodePlace(tree, p);
    var a := AddChild(NodeAt(tree, Locate(tree, p)), DecodeInPlace(child), value, true);
    if a.status == 0 && WellFormed(a.tree, false) {
      UpdatePlace(tree, p, a.tree);
    }
  }

  lemma {:induction false} RemoveApplies(tree: Json, p: Place, s: Step)
    requires WellFormed(tree, false) && HasPlace(Denote(tree, true), p + [s]) && StepSurvives(s)
    ensures HasPlace(Denote(tree, true), p) && HasStep(Get(Denote(tree, true), p), s)
    ensures var name := if s.Key? then s.name else Decimal(s.i);
      Yields(ApplyPatch(tree, ComposePatch("remove", PlaceText(p), Some(name), None), true),
             Put(Denote(tree, true), p, DropStep(Get(Denote(tree, true), p), s)))
  {
    hide ApplyPatch, AddAtPath, Resolve, Locate, Denote, DetachChild, DecodeInPlace, PlaceText, Update, NodeAt, Put,
      Get, HasPlace, ValidPath, WellFormed, DetachPath, ComposePatch, GetMember, FindKey;
    var name := if s.Key? then s.name else Decimal(s.i);
    assert Encode(name) == ChildText(s) by {
      if s.Index? {
        DigitsPlain(name);
        PlainSurvives(name);
      }
    }
    RemoveIs(tree, PlaceText(p), name);
    DetachAtPlace(tree, p, s);
  }

  lemma {:induction false} AddKeyApplies(tree: Json, p: Place, key: string, value: Json)
    requires WellFormed(tree, false) && WellFormed(value, false) && Height(value) <= CIRCULAR_LIMIT
    requires HasPlace(Denote(tree, true), p) && Get(Denote(tree, true), p).VObject?
    requires Survives(key) && Fresh(Get(Denote(tree, true), p).fields, key)
    ensures Yields(ApplyPatch(tree, ComposePatch("add", PlaceText(p), Some(key), Some(value)), true),
                   Put(Denote(tree, true), p, VObject(Get(Denote(tree, true), p).fields[key := Denote(value, true)])))
  {
    hide ApplyPatch, AddAtPath, Resolve, Locate, Denote, DecodeInPlace, PlaceText, Update, NodeAt, Put, Get, HasPlace,
      ValidPath, DetachPath, ComposePatch, GetMember, FindKey, Survives, Fresh, WellFormed, AddChild;
    AddIs(tree, PlaceText(p), Some(key), value);
    DecodeStep(Key(key));
    AddAtPlace(tree, p, Encode(key), value);
    DenoteArray(NodeAt(tree, Locate(tree, p)));
    AddKeyValue(NodeAt(tree, Locate(tree, p)), key, value);
    assert PlaceText(p) + "/" + Encode(key) != "";
  }

  lemma {:induction false} PushApplies(tree: Json, p: Place, value: Json)
    requires WellFormed(tree, false) && WellFormed(value, false) && Height(value) <= CIRCULAR_LIMIT
    requires HasPlace(Denote(tree, true), p) && Get(Denote(tree, true), p).VArray?
    ensures Yields(ApplyPatch(tree, ComposePatch("add", PlaceText(p), Some("-"), Some(value)), true),
                   Put(Denote(tree, true), p, VArray(Get(Denote(tree, true), p).items + [Denote(value, true)])))
  {
    hide ApplyPatch, AddAtPath, Resolve, Locate, Denote, DecodeInPlace, PlaceText, Update, NodeAt, Put, Get, HasPlace,
      ValidPath, WellFormed, DetachPath, ComposePatch, GetMember, FindKey;
    PlainSurvives("-");
    DecodeExact("-");
    AddIs(tree, PlaceText(p), Some("-"), value);
    AddAtPlace(tree, p, "-", value);
    var parent := NodeAt(tree, Locate(tree, p));
    DenoteArray(parent);
    PushValue(parent, value);
    assert PlaceText(p) + "/" + "-" != "";
  }

  lemma {:induction false} DenoteArray(j: Json)
    ensures Denote(j, true).VArray? <==> j.Array?
    ensures Denote(j, true).VObject? <==> j.Object?
    ensures j.Array? ==> Denote(j, true).items == DenoteItems(j.items, true)
    ensures j.Object? ==> Denote(j, true).fields == DenoteMembers(j.members, true)
  {
  }

  lemma {:induction false} ReplaceRootApplies(tree: Json, value: Json)
    requires WellFormed(value, false) && Height(value) <= CIRCULAR_LIMIT
    ensures Yields(ApplyPatch(tree, ComposePatch("replace", "", None, Some(value)), true), Denote(value, true))
  {
    hide Resolve, Locate, Denote, DecodeInPlace, Update, NodeAt, WellFormed, DetachPath, ComposePatch, GetMember,
      FindKey;
    ReadPatch("replace", "", None, Some(value));
    ReadValue("replace", "", None, value);
  }

  lemma {:induction false} ReplaceChildApplies(tree: Json, p: Place, s: Step, value: Json)
    requires WellFormed(tree, false) && WellFormed(value, false) && Height(value) <= CIRCULAR_LIMIT
    requires HasPlace(Denote(tree, true), p + [s]) && StepSurvives(s)
    ensures Yields(ApplyPatch(tree, ComposePatch("replace", PlaceText(p + [s]), None, Some(value)), true),
                   Put(Denote(tree, true), p + [s], Denote(value, true)))
  {
    hide ApplyPatch, AddAtPath, Resolve, Locate, DecodeInPlace, PlaceText, Update, NodeAt, Put, Get, HasPlace,
      ValidPath, DetachPath, ComposePatch, GetMember, FindKey, Denote, DropStep, PutStep, ChildText, AddChild;
    var v := Denote(tree, true);
    var path := PlaceText(p) + "/" + ChildText(s);
    PlaceSnoc(v, p, s);
    ChildPath(p, s);
    assert path != "";
    ReplaceIs(tree, path, value);
    NodePlace(tree, p);
    DetachAtPlace(tree, p, s);
    var rest, whole := DetachPath(tree, path, true).rest, Get(v, p);
    PutGet(v, p, DropStep(whole, s));
    DecodeStep(s);
    AddAtPlace(rest, p, ChildText(s), value);
    if s.Key? {
      DenoteArray(NodeAt(tree, Locate(tree, p)));
      WholeFresh(NodeAt(tree, Locate(tree, p)).members, s.name);
    }
    RestoreValue(NodeAt(rest, Locate(rest, p)), s, value, whole);
  }

  lemma {:induction false} ChildPath(p: Place, s: Step)
    requires StepSurvives(s)
    ensures PlaceText(p + [s]) == PlaceText(p) + "/" + ChildText(s)
  {
    PlaceTextSnoc(p, s);
    DecodeStep(s);
    Assoc(PlaceText(p), "/", ChildText(s));
  }

  /** A key of an object with keys distinct up to case is fresh in it. */
  lemma {:induction false} WholeFresh(members: seq<Member>, key: string)
    requires Distinct(members, NameOf, false) && key in DenoteMembers(members, true)
    ensures Fresh(DenoteMembers(members, true), key)
  {
    forall k | k in DenoteMembers(members, true) && Fold(k) == Fold(key)
      ensures k == key
    {
      DenoteKey(members, k, true);
      DenoteKey(members, key, true);
      var i :| 0 <= i < |members| && Norm(members[i].name, true) == k;
      var j :| 0 <= j < |members| && Norm(members[j].name, true) == key;
      assert i < j ==> !SameKey(NameOf(members[i]), NameOf(members[j]), false);
      assert j < i ==> !SameKey(NameOf(members[j]), NameOf(members[i]), false);
    }
  }

  // ------------------------------------------------------ sequences of patches

  /** Patches in a row stop at the first that fails. */
  lemma {:induction false} ApplyConcat(tree: Json, first: seq<Json>, second: seq<Json>)
    ensures var r := ApplyAll(tree, first, true);
      ApplyAll(tree, first + second, true) == if r.status != 0 then r else ApplyAll(r.tree, second, true)
    decreases |first|
  {
    if first == [] {
      NoPrefix(second);
    } else {
      TailOfConcat(first, second);
      ApplyConcat(ApplyPatch(tree, first[0], true).tree, first[1..], second);
    }
  }

  lemma {:induction false} ApplyOne(tree: Json, patch: Json, rest: seq<Json>)
    ensures var r := ApplyPatch(tree, patch, true);
      && ApplyAll(tree, [patch] + rest, true) == (if r.status != 0 then r else ApplyAll(r.tree, rest, true))
      && ApplyAll(tree, [patch], true) == r
  {
    var r := ApplyPatch(tree, patch, true);
    TailOfConcat([patch], rest);
    NoPrefix(rest);
    assert [patch][1..] == [];
    assert ApplyAll(r.tree, [], true) == Applied(0, r.tree);
  }
}
