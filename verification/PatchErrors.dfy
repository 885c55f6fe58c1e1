/** The error codes of `apply_patch` in libs/cjson/src/cJSON_Utils.c: which patches are
    malformed, where nothing can be added, and what a patch that fails has done. */
module PatchErrors {
  import opened Text
  import opened Json
  import opened Pointer
  import opened Duplicate
  import opened Patch
  import opened PatchKeys
  import opened Places
  import opened PatchSteps
  import opened PatchOperations

  // ---------------------------------------------------------------- malformed patches

  const OPERATIONS := {"add", "remove", "replace", "move", "copy", "test"}

  lemma DecodesSix(patch: Json)
    ensures var op := GetMember(patch, "op", true);
      DecodeOperation(patch, true) != INVALID <==> op.Some? && op.value.String? && op.value.s in OPERATIONS
  {
    hide GetMember;
  }

  lemma WellFormedStatus(tree: Json, patch: Json)
    requires var path := GetMember(patch, "path", true); path.Some? && path.value.String?
    requires DecodeOperation(patch, true) != INVALID
    ensures ApplyPatch(tree, patch, true).status !in {2, 3}
  {
    hide GetMember, DetachPath, AddAtPath, Resolve, PatchValue, TestAtPath, TestedTree, DecodeOperation;
    StatusAdd();
    StatusValue(patch);
    StatusTest();
  }

  /** A patch without a string as its path is malformed with 2, one with a path but
      without the name of an operation with 3; no other patch returns these. */
  lemma MalformedExact(tree: Json, patch: Json)
    ensures var path, op := GetMember(patch, "path", true), GetMember(patch, "op", true);
      var r := ApplyPatch(tree, patch, true);
      var named := path.Some? && path.value.String?;
      && (r.status == 2 <==> !named)
      && (r.status == 3 <==> named && !(op.Some? && op.value.String? && op.value.s in OPERATIONS))
      && (r.status == 2 || r.status == 3 ==> r.tree == tree)
  {
    hide GetMember, DetachPath, AddAtPath, Resolve, PatchValue, TestAtPath, TestedTree, DecodeOperation;
    DecodesSix(patch);
    var path := GetMember(patch, "path", true);
    if path.Some? && path.value.String? && DecodeOperation(patch, true) != INVALID {
      WellFormedStatus(tree, patch);
    }
  }

  lemma StatusAdd()
    ensures forall tree, path, value, cs :: AddAtPath(tree, path, value, cs).status in {0, 9, 10, 11}
  {
    forall tree, path, value, cs
      ensures AddAtPath(tree, path, value, cs).status in {0, 9, 10, 11}
    {
      hide Resolve, NodeAt, DecodeInPlace, DecodeIndex;
    }
  }

  lemma StatusValue(patch: Json)
    ensures PatchValue(patch, true).0 in {0, 7, 8}
  {
  }

  lemma StatusTest()
    ensures forall tree, path, value, cs :: TestAtPath(tree, path, value, cs) in {0, 1}
  {
  }

  // ---------------------------------------------------------------- where an add fails

  /** What adding behind a token without escapes returns, by the value at the place: an
      array takes a dash and every index up to its length, 10 is an index past it, 11 a
      token that is no index, and 9 a value without children. */
  ghost function AddStatus(v: Value, token: string): nat
  {
    match v
    case VObject(_) => 0
    case VArray(items) =>
      if token == "-" || token == "" then 0
      else if !ArrayIndex(token) then 11
      else
        IndexIsDecimal(token);
        if DecimalValue(token) % SIZE_LIMIT > |items| then 10 else 0
    case _ => 9
  }

  lemma {:induction false} ChildStatus(parent: Json, token: string, value: Json)
    requires '/' !in token
    ensures AddChild(parent, token, value, true).status == AddStatus(Denote(parent, true), token)
  {
    hide Denote, DecodeIndex, ArrayIndex, DecimalValue;
    DenoteArray(parent);
    DenoteKind(parent);
    NoSuffix(token);
    if token == "" {
      EmptyIndex("");
    } else if ArrayIndex(token) {
      IndexIsDecimal(token);
      IndexAccepted(token, "");
    } else {
      IndexRefused(token, "");
    }
  }

  lemma {:induction false} DenoteKind(j: Json)
    ensures var v := Denote(j, true); v.VArray? == j.Array? && v.VObject? == j.Object?
    ensures j.Array? ==> |Denote(j, true).items| == |j.items|
  {
  }

  lemma PlainDecodes(token: string)
    requires '/' !in token && '~' !in token
    ensures DecodeInPlace(token) == token
  {
    PlainSurvives(token);
    DecodeStep(Key(token));
  }

  /** An add behind an existing place returns exactly that, and if it fails the tree is
      as it was. */
  lemma {:induction false} AddExact(tree: Json, patch: Json, p: Place, token: string, value: Json)
    requires WellFormed(tree, false) && HasPlace(Denote(tree, true), p) && '/' !in token && '~' !in token
    requires Names(patch, "add", PlaceText(p) + "/" + token)
    requires GetMember(patch, "value", true) == Some(value) && Height(value) <= CIRCULAR_LIMIT
    ensures var r := ApplyPatch(tree, patch, true);
      r.status == AddStatus(Get(Denote(tree, true), p), token) && (r.status != 0 ==> r.tree == tree)
  {
    hide Denote, WellFormed, Get, HasPlace, PlaceText, GetMember, AddChild, Resolve, LastSlash, AddStatus, NodeAt,
         Locate, Update, TestAtPath, TestedTree, DetachPath, DecodeInPlace, DuplicateRec;
    DuplicateExact(value, 0);
    PlainDecodes(token);
    SplitAtSlash(PlaceText(p), token);
    ResolvePlace(tree, p);
    NodePlace(tree, p);
    ChildStatus(NodeAt(tree, Locate(tree, p)), token, value);
    assert PlaceText(p) + "/" + token != "";
  }

  lemma {:induction false} SelectsNone(parent: Json, s: Step, rest: string)
    requires Lacks(Denote(parent, true), s, true) && TokenEnds(rest)
    ensures SelectChild(parent, ChildText(s) + rest, true).None?
  {
    match s {
      case Key(k) =>
        if parent.Object? {
          FindTokenIsFindKey(parent.members, k, rest, true);
          DenoteFind(parent.members, k, true);
        }
      case Index(i) =>
        DecodePrinted(i, rest);
    }
  }

  /** Below a child that is not there nothing can be added, however long the path is. */
  lemma {:induction false} AddBelowMissing(tree: Json, patch: Json, p: Place, s: Step, rest: string, token: string,
                                           value: Json)
    requires WellFormed(tree, false) && HasPlace(Denote(tree, true), p) && Lacks(Get(Denote(tree, true), p), s, true)
    requires TokenEnds(rest) && '/' !in token
    requires Names(patch, "add", PlaceText(p) + ("/" + ChildText(s) + rest) + "/" + token)
    requires GetMember(patch, "value", true) == Some(value) && Height(value) <= CIRCULAR_LIMIT
    ensures ApplyPatch(tree, patch, true) == Applied(9, tree)
  {
    hide Denote, WellFormed, Get, HasPlace, PlaceText, GetMember, AddChild, Resolve, LastSlash, NodeAt, Locate, Update,
         TestAtPath, TestedTree, DetachPath, DecodeInPlace, DuplicateRec, Lacks, SelectChild, ChildText;
    DuplicateExact(value, 0);
    NodePlace(tree, p);
    var node, below := NodeAt(tree, Locate(tree, p)), "/" + ChildText(s) + rest;
    SelectsNone(node, s, rest);
    assert below[1..] == ChildText(s) + rest && below[0] == '/';
    ResolveUnfold(node, below, true);
    ResolveConcat(tree, p, below);
    SplitAtSlash(PlaceText(p) + below, token);
    assert PlaceText(p) + below + "/" + token != "";
  }

  lemma {:induction false} NoSlash(path: string)
    ensures LastSlash(path).None? <==> '/' !in path
  {
    if path != [] {
      var n := |path| - 1;
      NoSlash(path[..n]);
      assert path == path[..n] + [path[n]];
    }
  }

  /** Nor behind a path that is not empty and has no slash. */
  lemma {:induction false} AddWithoutSlash(tree: Json, patch: Json, path: string, value: Json)
    requires path != "" && '/' !in path && Names(patch, "add", path)
    requires GetMember(patch, "value", true) == Some(value) && Height(value) <= CIRCULAR_LIMIT
    ensures ApplyPatch(tree, patch, true) == Applied(9, tree)
  {
    hide GetMember, Resolve, LastSlash, TestAtPath, TestedTree, DetachPath, DuplicateRec;
    DuplicateExact(value, 0);
    NoSlash(path);
  }

  // ------------------------------------------------------- what failing patches have done

  /** An add without a value, a move and a copy without a source change nothing. */
  lemma {:induction false} MembersMissing(tree: Json, patch: Json, operation: string, path: string)
    requires Names(patch, operation, path)
    ensures operation == "add" && GetMember(patch, "value", true).None? ==>
      ApplyPatch(tree, patch, true) == Applied(7, tree)
    ensures operation in {"move", "copy"} && GetMember(patch, "from", true).None? ==>
      ApplyPatch(tree, patch, true) == Applied(4, tree)
  {
    hide GetMember, Resolve, TestAtPath, TestedTree, DetachPath, AddAtPath, DuplicateRec;
  }

  /** A replace without a value has removed the old one before it returns 7. */
  lemma {:induction false} ReplaceRemoves(tree: Json, patch: Json, p: Place, s: Step)
    requires WellFormed(tree, false) && StepSurvives(s) && HasPlace(Denote(tree, true), p + [s])
    requires Names(patch, "replace", PlaceText(p) + "/" + ChildText(s)) && GetMember(patch, "value", true).None?
    ensures HasPlace(Denote(tree, true), p) && HasStep(Get(Denote(tree, true), p), s)
    ensures var r := ApplyPatch(tree, patch, true);
      && r.status == 7 && WellFormed(r.tree, false)
      && Denote(r.tree, true) == Put(Denote(tree, true), p, DropStep(Get(Denote(tree, true), p), s))
  {
    hide Denote, WellFormed, Get, Put, HasPlace, PlaceText, ChildText, GetMember, AddAtPath, TestAtPath, TestedTree,
         DetachPath, DropStep, HasStep, DuplicateRec;
    DetachAtPlace(tree, p, s);
    assert PlaceText(p) + "/" + ChildText(s) != "";
  }

  /** A move to where nothing can be added has removed its source before it fails. */
  lemma {:induction false} MoveRemoves(tree: Json, patch: Json, q: Place, r: Step, p: Place, token: string)
    requires WellFormed(tree, false) && StepSurvives(r) && HasPlace(Denote(tree, true), q + [r])
    requires HasPlace(Denote(tree, true), q) && HasStep(Get(Denote(tree, true), q), r)
    requires GetMember(patch, "from", true) == Some(String(PlaceText(q) + "/" + ChildText(r)))
    requires Names(patch, "move", PlaceText(p) + "/" + token) && '/' !in token && '~' !in token
    requires var left := Put(Denote(tree, true), q, DropStep(Get(Denote(tree, true), q), r));
      HasPlace(left, p) && AddStatus(Get(left, p), token) != 0
    ensures var left := Put(Denote(tree, true), q, DropStep(Get(Denote(tree, true), q), r));
      var a := ApplyPatch(tree, patch, true);
      a.status == AddStatus(Get(left, p), token) && WellFormed(a.tree, false) && Denote(a.tree, true) == left
  {
    hide Denote, WellFormed, Get, Put, HasPlace, PlaceText, ChildText, GetMember, AddAtPath, TestAtPath, TestedTree,
         DetachPath, DropStep, HasStep, DuplicateRec, AddStatus;
    DetachAtPlace(tree, q, r);
    var d := DetachPath(tree, PlaceText(q) + "/" + ChildText(r), true);
    AddFails(d.rest, p, token, d.item);
  }

  lemma {:induction false} AddFails(tree: Json, p: Place, token: string, value: Json)
    requires WellFormed(tree, false) && HasPlace(Denote(tree, true), p) && '/' !in token && '~' !in token
    requires AddStatus(Get(Denote(tree, true), p), token) != 0
    ensures AddAtPath(tree, PlaceText(p) + "/" + token, value, true)
      == Applied(AddStatus(Get(Denote(tree, true), p), token), tree)
  {
    hide Denote, WellFormed, Get, HasPlace, PlaceText, AddChild, Resolve, LastSlash, AddStatus, NodeAt, Locate, Update,
         DecodeInPlace;
    PlainDecodes(token);
    SplitAtSlash(PlaceText(p), token);
    ResolvePlace(tree, p);
    NodePlace(tree, p);
    ChildStatus(NodeAt(tree, Locate(tree, p)), token, value);
  }

  // ---------------------------------------------------------------- runs

  /** A run returns what its first failing patch returns and leaves what that has left;
      what is no array of patches returns 1 and changes nothing. */
  lemma {:induction false} FirstFailure(tree: Json, first: seq<Json>, patch: Json, rest: seq<Json>)
    requires ApplyAll(tree, first, true).status == 0
    ensures var r := ApplyPatch(ApplyAll(tree, first, true).tree, patch, true);
      r.status != 0 ==> ApplyPatches(tree, Array(first + ([patch] + rest)), true) == r
    ensures forall j: Json :: !j.Array? ==> ApplyPatches(tree, j, true) == Applied(1, tree)
  {
    hide ApplyPatch;
    ApplyConcat(tree, first, [patch] + rest);
    ApplyOne(ApplyAll(tree, first, true).tree, patch, rest);
  }
}
