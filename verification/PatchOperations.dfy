/** The six operations of section 4 of RFC 6902 as `apply_patch` carries them out, for
    any patch document: what each of them does to the value of the tree. */
module PatchOperations {
  import opened Text
  import opened Json
  import opened Comparison
  import opened CompareLeaves
  import opened Pointer
  import opened Duplicate
  import opened Patch
  import opened PatchKeys
  import opened Places
  import opened PatchSteps

  /** The patch names this operation and this path. */
  predicate Names(patch: Json, operation: string, path: string)
  {
    && GetMember(patch, "op", true) == Some(String(operation))
    && GetMember(patch, "path", true) == Some(String(path))
  }

  /** Where a value can be added: at a key that clashes with no other, or at an index
      up to the length. */
  predicate Addable(v: Value, s: Step)
  {
    match s
    case Key(k) => v.VObject? && Fresh(v.fields, k)
    case Index(i) => v.VArray? && i <= |v.items| && i < SIZE_LIMIT
  }

  /** Section 4.1: an object gets or replaces the member, an array shifts its elements. */
  function AddStep(v: Value, s: Step, w: Value): Value
    requires Addable(v, s)
  {
    match s
    case Key(k) => VObject(v.fields[k := w])
    case Index(i) => VArray(InsertAt(v.items, i, w))
  }

  // ---------------------------------------------------------------- parts

  lemma {:induction false} WellFormedEither(j: Json)
    requires WellFormed(j, false)
    ensures WellFormed(j, true)
    decreases j
  {
    match j
    case Array(items) =>
      forall i | 0 <= i < |items|
        ensures WellFormed(items[i], true)
      {
        WellFormedEither(items[i]);
      }
    case Object(members) =>
      FoldDistinct(members);
      forall i | 0 <= i < |members|
        ensures WellFormed(members[i].item, true)
      {
        WellFormedEither(members[i].item);
      }
    case _ =>
  }

  lemma {:induction false} InsertValue(parent: Json, i: nat, value: Json)
    requires WellFormed(parent, false) && WellFormed(value, false)
    requires parent.Array? && i <= |parent.items| && i < SIZE_LIMIT
    ensures var a := AddChild(parent, Decimal(i), value, true);
      && a.status == 0 && WellFormed(a.tree, false)
      && Denote(a.tree, true) == VArray(InsertAt(DenoteItems(parent.items, true), i, Denote(value, true)))
  {
    hide Decimal, DecodeIndex, InsertAt, Denote;
    DigitFirst(i);
    DecodePrinted(i, []);
    NoSuffix(Decimal(i));
    DenoteInsert(parent.items, i, value);
    DenoteArray(Array(InsertAt(parent.items, i, value)));
  }

  lemma {:induction false} DigitFirst(i: nat)
    ensures Decimal(i) != "-"
  {
    assert IsDigit(Decimal(i)[0]);
  }

  /** The end of `apply_patch` adds the value at the place the path names. */
  lemma {:induction false} AddsAt(tree: Json, p: Place, s: Step, value: Json)
    requires WellFormed(tree, false) && WellFormed(value, false) && StepSurvives(s)
    requires HasPlace(Denote(tree, true), p) && Addable(Get(Denote(tree, true), p), s)
    ensures Yields(AddAtPath(tree, PlaceText(p) + "/" + ChildText(s), value, true),
                   Put(Denote(tree, true), p, AddStep(Get(Denote(tree, true), p), s, Denote(value, true))))
  {
    hide Denote, WellFormed, Get, Put, HasPlace, PlaceText, AddAtPath, NodeAt, Locate, AddChild, DecodeInPlace, Encode,
      Decimal, Fresh, InsertAt;
    DecodeStep(s);
    AddAtPlace(tree, p, ChildText(s), value);
    var parent := NodeAt(tree, Locate(tree, p));
    DenoteArray(parent);
    match s {
      case Key(k) => AddKeyValue(parent, k, value);
      case Index(i) => InsertValue(parent, i, value);
    }
  }

  /** What `detach_path` hands over is the item at the place. */
  lemma {:induction false} DetachedItem(tree: Json, p: Place, s: Step)
    requires WellFormed(tree, false) && HasPlace(Denote(tree, true), p + [s]) && StepSurvives(s)
    ensures var d := DetachPath(tree, PlaceText(p) + "/" + ChildText(s), true);
      d.Detached? && WellFormed(d.item, false) && Denote(d.item, true) == Get(Denote(tree, true), p + [s])
  {
    hide Resolve, Locate, Denote, DetachChild, DecodeInPlace, PlaceText, Encode, Update, NodeAt, Put, Get, HasPlace,
      ValidPath, WellFormed;
    PlaceSnoc(Denote(tree, true), p, s);
    DecodeStep(s);
    SplitAtSlash(PlaceText(p), ChildText(s));
    ResolvePlace(tree, p);
    NodePlace(tree, p);
    DetachedChild(NodeAt(tree, Locate(tree, p)), s);
  }

  lemma {:induction false} DetachedChild(parent: Json, s: Step)
    requires WellFormed(parent, false) && HasStep(Denote(parent, true), s) && StepSurvives(s)
    ensures var d := DetachChild(parent, DecodeInPlace(ChildText(s)));
      d.Detached? && WellFormed(d.item, false) && Denote(d.item, true) == GetStep(Denote(parent, true), s)
  {
    hide DecodeInPlace, Decimal, DecodeIndex, Encode;
    DecodeStep(s);
    match s {
      case Key(k) =>
        DenoteFind(parent.members, k, true);
        FindBoth(parent.members, k);
      case Index(i) =>
        DecodePrinted(i, []);
        NoSuffix(Decimal(i));
    }
  }

  // ---------------------------------------------------------------- the operations

  /** For any path: a test returns 0 exactly when the path resolves, the patch has a
      value and both are equal with objects as maps, and 1 otherwise. It sorts what it
      compares, which changes no value. */
  lemma {:induction false} TestExact(tree: Json, patch: Json, path: string)
    requires WellFormed(tree, true) && Names(patch, "test", path)
    requires var value := GetMember(patch, "value", true); value.Some? ==> WellFormed(value.value, true)
    ensures var position, value := Resolve(tree, path, true), GetMember(patch, "value", true);
      var same := && position.Some? && value.Some?
                  && Denote(NodeAt(tree, position.value), true) == Denote(value.value, true);
      var r := ApplyPatch(tree, patch, true);
      && r.status == (if same then 0 else 1)
      && (position.None? || value.None? ==> r.tree == tree)
      && SameValue(tree, r.tree)
  {
    hide Denote, WellFormed, NodeAt, Resolve, GetMember, CompareJson, AddAtPath, DetachPath, PatchValue, AfterCompare,
      Update, SameValue;
    var position, value := Resolve(tree, path, true), GetMember(patch, "value", true);
    if position.Some? && value.Some? {
      var node := NodeAt(tree, position.value);
      NodeWellFormed(tree, position.value, true);
      CompareJsonDecides(node, value.value, true);
      TestKeeps(tree, position.value, value.value);
    } else {
      SameValueSelf(tree);
    }
  }

  /** Both stand for one value, and keys that are distinct stay so. */
  predicate SameValue(before: Json, after: Json)
  {
    && WellFormed(after, true) && Denote(after, true) == Denote(before, true)
    && (WellFormed(before, false) ==> WellFormed(after, false))
  }

  lemma {:induction false} SameValueSelf(tree: Json)
    requires WellFormed(tree, true)
    ensures SameValue(tree, tree)
  {
  }

  lemma {:induction false} TestKeeps(tree: Json, path: Path, value: Json)
    requires WellFormed(tree, true) && ValidPath(tree, path)
    ensures SameValue(tree, Update(tree, path, AfterCompare(NodeAt(tree, path), value, true)))
  {
    hide Denote, WellFormed, NodeAt, AfterCompare, Update;
    var node := NodeAt(tree, path);
    NodeWellFormed(tree, path, true);
    AfterDenotes(node, value, true, true);
    UpdateSame(tree, path, AfterCompare(node, value, true), true);
    if WellFormed(tree, false) {
      NodeWellFormed(tree, path, false);
      AfterDenotes(node, value, true, false);
      UpdateSame(tree, path, AfterCompare(node, value, true), false);
    }
  }

  /** A node replaced by one of the same value. */
  lemma {:induction false} UpdateSame(tree: Json, path: Path, item: Json, d: bool)
    requires ValidPath(tree, path) && WellFormed(tree, d) && WellFormed(item, d)
    requires Denote(item, d) == Denote(NodeAt(tree, path), d)
    ensures WellFormed(Update(tree, path, item), d) && Denote(Update(tree, path, item), d) == Denote(tree, d)
    decreases path
  {
    hide Denote, WellFormed;
    if path != [] {
      var child := Child(tree, path[0]);
      ChildWellFormed(tree, path[0], d);
      UpdateSame(child, path[1..], item, d);
      ChildSame(tree, path[0], Update(child, path[1..], item), d);
    }
  }

  lemma {:induction false} ChildWellFormed(tree: Json, i: nat, d: bool)
    requires WellFormed(tree, d) && i < ChildCount(tree)
    ensures WellFormed(Child(tree, i), d)
  {
  }

  lemma ChildSame(tree: Json, i: nat, item: Json, d: bool)
    requires WellFormed(tree, d) && i < ChildCount(tree)
    requires WellFormed(item, d) && Denote(item, d) == Denote(Child(tree, i), d)
    ensures var r := if tree.Array? then Array(tree.items[i := item])
                     else Object(tree.members[i := Member(tree.members[i].name, item)]);
      WellFormed(r, d) && Denote(r, d) == Denote(tree, d)
  {
    if tree.Array? {
      assert DenoteItems(tree.items[i := item], d) == DenoteItems(tree.items, d);
    } else {
      var ms := tree.members[i := Member(tree.members[i].name, item)];
      DistinctNames(tree.members, ms, d);
      SameDenotes(tree.members, ms, d);
    }
  }

  lemma {:induction false} SameDenotes(ms: seq<Member>, ns: seq<Member>, d: bool)
    requires |ms| == |ns|
    requires forall i :: 0 <= i < |ms| ==> ms[i].name == ns[i].name && Denote(ms[i].item, d) == Denote(ns[i].item, d)
    ensures DenoteMembers(ms, d) == DenoteMembers(ns, d)
  {
    hide Denote;
    if ms != [] {
      assert ms[0].name == ns[0].name;
      SameDenotes(ms[1..], ns[1..], d);
    }
  }

  lemma {:induction false} NodeWellFormed(tree: Json, path: Path, d: bool)
    requires WellFormed(tree, d) && ValidPath(tree, path)
    ensures WellFormed(NodeAt(tree, path), d)
    decreases path
  {
    if path != [] {
      NodeWellFormed(Child(tree, path[0]), path[1..], d);
    }
  }

  /** Section 4.6: a test succeeds exactly when the value at the path equals the given
      one, objects as maps, and changes no value. */
  lemma {:induction false} TestApplies(tree: Json, patch: Json, p: Place, value: Json)
    requires WellFormed(tree, false) && WellFormed(value, true) && HasPlace(Denote(tree, true), p)
    requires Names(patch, "test", PlaceText(p)) && GetMember(patch, "value", true) == Some(value)
    ensures var r := ApplyPatch(tree, patch, true);
      SameValue(tree, r.tree) && (r.status == 0 <==> Get(Denote(tree, true), p) == Denote(value, true))
  {
    hide ApplyPatch, Denote, WellFormed, Get, HasPlace, PlaceText, NodeAt, Locate, Resolve, GetMember;
    ResolvePlace(tree, p);
    NodePlace(tree, p);
    WellFormedEither(tree);
    TestExact(tree, patch, PlaceText(p));
  }

  /** Section 4.1. */
  lemma {:induction false} AddApplies(tree: Json, patch: Json, p: Place, s: Step, value: Json)
    requires WellFormed(tree, false) && WellFormed(value, false) && StepSurvives(s) && Height(value) <= CIRCULAR_LIMIT
    requires HasPlace(Denote(tree, true), p) && Addable(Get(Denote(tree, true), p), s)
    requires Names(patch, "add", PlaceText(p) + "/" + ChildText(s)) && GetMember(patch, "value", true) == Some(value)
    ensures Yields(ApplyPatch(tree, patch, true),
                   Put(Denote(tree, true), p, AddStep(Get(Denote(tree, true), p), s, Denote(value, true))))
  {
    hide Denote, WellFormed, Get, Put, HasPlace, PlaceText, ChildText, AddAtPath, DetachPath, GetMember, TestAtPath,
      TestedTree,
      Addable,
      AddStep, Resolve, DuplicateRec;
    DuplicateExact(value, 0);
    assert PlaceText(p) + "/" + ChildText(s) != "";
    AddsAt(tree, p, s, value);
  }

  /** Section 4.2. */
  lemma {:induction false} RemoveAtApplies(tree: Json, patch: Json, p: Place, s: Step)
    requires WellFormed(tree, false) && StepSurvives(s) && HasPlace(Denote(tree, true), p + [s])
    requires Names(patch, "remove", PlaceText(p) + "/" + ChildText(s))
    ensures HasPlace(Denote(tree, true), p) && HasStep(Get(Denote(tree, true), p), s)
    ensures Yields(ApplyPatch(tree, patch, true), Put(Denote(tree, true), p, DropStep(Get(Denote(tree, true), p), s)))
  {
    hide Denote, WellFormed, Get, Put, HasPlace, PlaceText, ChildText, AddAtPath, DetachPath, GetMember, TestAtPath,
      TestedTree,
      DropStep,
      Resolve, PatchValue;
    assert PlaceText(p) + "/" + ChildText(s) != "";
    DetachAtPlace(tree, p, s);
  }

  /** Section 4.4: a move removes the value at one place and adds it at another one of
      what is left. */
  lemma {:induction false} MoveApplies(tree: Json, patch: Json, q: Place, r: Step, p: Place, s: Step)
    requires WellFormed(tree, false) && StepSurvives(r) && StepSurvives(s) && HasPlace(Denote(tree, true), q + [r])
    requires HasPlace(Denote(tree, true), q) && HasStep(Get(Denote(tree, true), q), r)
    requires var left := Put(Denote(tree, true), q, DropStep(Get(Denote(tree, true), q), r));
      HasPlace(left, p) && Addable(Get(left, p), s)
    requires Names(patch, "move", PlaceText(p) + "/" + ChildText(s))
    requires GetMember(patch, "from", true) == Some(String(PlaceText(q) + "/" + ChildText(r)))
    ensures var left := Put(Denote(tree, true), q, DropStep(Get(Denote(tree, true), q), r));
      Yields(ApplyPatch(tree, patch, true),
             Put(left, p, AddStep(Get(left, p), s, Get(Denote(tree, true), q + [r]))))
  {
    hide Denote, WellFormed, Get, Put, HasPlace, PlaceText, ChildText, AddAtPath, DetachPath, GetMember, TestAtPath,
      TestedTree,
      Addable,
      AddStep, DropStep, HasStep, Resolve, PatchValue;
    DetachAtPlace(tree, q, r);
    DetachedItem(tree, q, r);
    var d := DetachPath(tree, PlaceText(q) + "/" + ChildText(r), true);
    AddsAt(d.rest, p, s, d.item);
  }

  /** Section 4.5: a copy adds the value of one place at another one. */
  lemma {:induction false} CopyApplies(tree: Json, patch: Json, q: Place, p: Place, s: Step)
    requires WellFormed(tree, false) && StepSurvives(s) && HasPlace(Denote(tree, true), q)
    requires HasPlace(Denote(tree, true), p) && Addable(Get(Denote(tree, true), p), s)
    requires Height(NodeAt(tree, Locate(tree, q))) <= CIRCULAR_LIMIT
    requires Names(patch, "copy", PlaceText(p) + "/" + ChildText(s))
    requires GetMember(patch, "from", true) == Some(String(PlaceText(q)))
    ensures Yields(ApplyPatch(tree, patch, true),
                   Put(Denote(tree, true), p, AddStep(Get(Denote(tree, true), p), s, Get(Denote(tree, true), q))))
  {
    hide Denote, WellFormed, Get, Put, HasPlace, PlaceText, ChildText, AddAtPath, DetachPath, GetMember, TestAtPath,
      TestedTree,
      Addable,
      AddStep, Resolve, PatchValue, Locate, NodeAt, DuplicateRec;
    ResolvePlace(tree, q);
    NodePlace(tree, q);
    DuplicateExact(NodeAt(tree, Locate(tree, q)), 0);
    AddsAt(tree, p, s, NodeAt(tree, Locate(tree, q)));
  }

  /** Section 4.3: a replace puts the value where the old one was. */
  lemma {:induction false} ReplaceApplies(tree: Json, patch: Json, p: Place, s: Step, value: Json)
    requires WellFormed(tree, false) && WellFormed(value, false) && StepSurvives(s) && Height(value) <= CIRCULAR_LIMIT
    requires HasPlace(Denote(tree, true), p + [s])
    requires Names(patch, "replace", PlaceText(p) + "/" + ChildText(s))
    requires GetMember(patch, "value", true) == Some(value)
    ensures Yields(ApplyPatch(tree, patch, true), Put(Denote(tree, true), p + [s], Denote(value, true)))
  {
    hide ApplyPatch, Denote, WellFormed, Put, HasPlace, PlaceText, ChildText, GetMember, ComposePatch;
    ReplaceChildApplies(tree, p, s, value);
    SameReplace(tree, patch, PlaceText(p) + "/" + ChildText(s), value);
    ChildPath(p, s);
  }

  /** Only the members a replace reads matter. */
  lemma {:induction false} SameReplace(tree: Json, patch: Json, path: string, value: Json)
    requires Height(value) <= CIRCULAR_LIMIT
    requires Names(patch, "replace", path) && GetMember(patch, "value", true) == Some(value)
    ensures ApplyPatch(tree, patch, true) == ApplyPatch(tree, ComposePatch("replace", path, None, Some(value)), true)
  {
    hide GetMember, ComposePatch, AddAtPath, DetachPath, TestAtPath, TestedTree, Resolve, DuplicateRec;
    ReadPatch("replace", path, None, Some(value));
    DuplicateExact(value, 0);
  }

  // ------------------------------------------------- the root and what is missing

  /** No key of the object has the name, the array is too short, or the value has no
      children at all. Without case where a detach is meant. */
  ghost predicate Lacks(v: Value, s: Step, cs: bool)
  {
    match s
    case Key(k) => if v.VObject? then forall l :: l in v.fields ==> !SameKey(k, l, cs) else !v.VArray?
    case Index(i) => i < SIZE_LIMIT && if v.VArray? then i >= |v.items| else !v.VObject?
  }

  lemma {:induction false} SelectMissing(parent: Json, s: Step)
    requires Lacks(Denote(parent, true), s, true)
    ensures SelectChild(parent, ChildText(s), true).None?
  {
    match s {
      case Key(k) =>
        NoSuffix(Encode(k));
        if parent.Object? {
          FindTokenIsFindKey(parent.members, k, "", true);
          DenoteFind(parent.members, k, true);
        }
      case Index(i) =>
        DecodePrinted(i, []);
        NoSuffix(Decimal(i));
    }
  }

  /** Resolving in two parts. */
  lemma {:induction false} ResolveConcat(tree: Json, p: Place, rest: string)
    requires WellFormed(tree, false) && HasPlace(Denote(tree, true), p) && TokenEnds(rest)
    ensures Resolve(tree, PlaceText(p) + rest, true).None? <==> Resolve(NodeAt(tree, Locate(tree, p)), rest, true).None?
    decreases p
  {
    hide Denote, WellFormed, StepText, SelectChild;
    if p == [] {
      NoPrefix(rest);
    } else {
      LocateStep(tree, p[0]);
      var i, tail := StepIndex(tree, p[0]), PlaceText(p[1..]) + rest;
      ResolveConcat(Child(tree, i), p[1..], rest);
      Assoc(StepText(p[0]), PlaceText(p[1..]), rest);
      EndsConcat(PlaceText(p[1..]), rest);
      LocateToken(tree, p[0], tail);
      ResolveToken(tree, StepText(p[0]), tail, i);
      assert Locate(tree, p) == [i] + Locate(Child(tree, i), p[1..]);
      assert Locate(tree, p)[1..] == Locate(Child(tree, i), p[1..]);
    }
  }

  lemma EndsConcat(a: string, b: string)
    requires TokenEnds(a) && TokenEnds(b)
    ensures TokenEnds(a + b)
  {
  }

  /** A test of a child that is not there returns 1. */
  lemma {:induction false} TestMissing(tree: Json, patch: Json, p: Place, s: Step)
    requires WellFormed(tree, false) && HasPlace(Denote(tree, true), p) && Lacks(Get(Denote(tree, true), p), s, true)
    requires Names(patch, "test", PlaceText(p) + "/" + ChildText(s))
    ensures ApplyPatch(tree, patch, true) == Applied(1, tree)
  {
    hide Denote, WellFormed, Get, HasPlace, PlaceText, NodeAt, Locate, Resolve, GetMember, CompareJson, AddAtPath,
      DetachPath, PatchValue, Lacks, ChildText, SelectChild;
    NodePlace(tree, p);
    var node, rest := NodeAt(tree, Locate(tree, p)), "/" + ChildText(s);
    SelectMissing(node, s);
    assert rest[1..] == ChildText(s);
    ResolveUnfold(node, rest, true);
    ResolveConcat(tree, p, rest);
    Assoc(PlaceText(p), "/", ChildText(s));
  }

  lemma {:induction false} DetachNone(parent: Json, s: Step)
    requires Lacks(Denote(parent, true), s, false) && StepSurvives(s)
    ensures DetachChild(parent, DecodeInPlace(ChildText(s))).Missing?
  {
    hide DecodeInPlace, Encode, Decimal, DecodeIndex;
    DecodeStep(s);
    match s {
      case Key(k) =>
        if parent.Object? {
          var i := FindKey(parent.members, k, false);
          if i < |parent.members| {
            NamedIn(parent.members, i);
          }
        }
      case Index(i) =>
        DecodePrinted(i, []);
        NoSuffix(Decimal(i));
    }
  }

  /** Removing or replacing a child that is not there returns 13 and changes nothing. */
  lemma {:induction false} DetachMissing(tree: Json, patch: Json, operation: string, p: Place, s: Step)
    requires WellFormed(tree, false) && HasPlace(Denote(tree, true), p) && StepSurvives(s)
    requires Lacks(Get(Denote(tree, true), p), s, false) && operation in {"remove", "replace"}
    requires Names(patch, operation, PlaceText(p) + "/" + ChildText(s))
    ensures ApplyPatch(tree, patch, true) == Applied(13, tree)
  {
    hide Denote, WellFormed, Get, HasPlace, PlaceText, NodeAt, Locate, Resolve, GetMember, AddAtPath, TestAtPath,
      TestedTree,
      PatchValue,
      Lacks, ChildText, LastSlash, DetachChild, DecodeInPlace;
    NodePlace(tree, p);
    DecodeStep(s);
    SplitAtSlash(PlaceText(p), ChildText(s));
    ResolvePlace(tree, p);
    DetachNone(NodeAt(tree, Locate(tree, p)), s);
    assert PlaceText(p) + "/" + ChildText(s) != "";
  }

  /** Section 4.1: the index `-` appends. */
  lemma {:induction false} AddPushes(tree: Json, patch: Json, p: Place, value: Json)
    requires WellFormed(tree, false) && WellFormed(value, false) && Height(value) <= CIRCULAR_LIMIT
    requires HasPlace(Denote(tree, true), p) && Get(Denote(tree, true), p).VArray?
    requires Names(patch, "add", PlaceText(p) + "/-") && GetMember(patch, "value", true) == Some(value)
    ensures Yields(ApplyPatch(tree, patch, true),
                   Put(Denote(tree, true), p, VArray(Get(Denote(tree, true), p).items + [Denote(value, true)])))
  {
    hide ApplyPatch, Denote, WellFormed, Get, Put, HasPlace, PlaceText, GetMember, ComposePatch;
    Assoc(PlaceText(p), "/", "-");
    SameAdd(tree, patch, PlaceText(p) + "/-", value);
    PushApplies(tree, p, value);
    PushPath(PlaceText(p), value);
  }

  lemma PushPath(path: string, value: Json)
    ensures ComposePatch("add", path, Some("-"), Some(value)) == ComposePatch("add", path + "/-", None, Some(value))
  {
    assert Encode("-") == "-" by { PlainSurvives("-"); }
    Assoc(path, "/", "-");
    assert "/" + "-" == "/-";
  }

  lemma {:induction false} SameAdd(tree: Json, patch: Json, path: string, value: Json)
    requires Height(value) <= CIRCULAR_LIMIT
    requires Names(patch, "add", path) && GetMember(patch, "value", true) == Some(value)
    ensures ApplyPatch(tree, patch, true) == ApplyPatch(tree, ComposePatch("add", path, None, Some(value)), true)
  {
    hide GetMember, ComposePatch, AddAtPath, DetachPath, TestAtPath, TestedTree, Resolve, DuplicateRec;
    ReadPatch("add", path, None, Some(value));
    DuplicateExact(value, 0);
  }

  /** The empty path: an add or a replace puts its value for the whole tree, and a
      remove leaves an item of no type. */
  lemma RootApplies(tree: Json, patch: Json, operation: string)
    requires operation in {"add", "replace", "remove"} && Names(patch, operation, "")
    ensures operation == "remove" ==> ApplyPatch(tree, patch, true) == Applied(0, Invalid)
    ensures operation != "remove" ==>
      var value := GetMember(patch, "value", true);
      ApplyPatch(tree, patch, true) ==
        if value.None? then Applied(7, tree)
        else if Height(value.value) > CIRCULAR_LIMIT then Applied(8, tree)
        else Applied(0, value.value)
  {
    hide GetMember, AddAtPath, DetachPath, TestAtPath, TestedTree, Resolve, DuplicateRec, Height;
    var value := GetMember(patch, "value", true);
    if value.Some? {
      DuplicateExact(value.value, 0);
    }
  }
}
