/** Patches whose paths lead through a child act on the child as the patches with
    shorter paths act on a tree of its own. */
module PatchLift {
  import opened Text
  import opened Sort
  import opened Json
  import opened Comparison
  import opened Pointer
  import opened Duplicate
  import opened Patch
  import opened Places
  import opened PatchSteps

  /** The pair is patched by replacing the whole item. */
  predicate Replaced(from: Json, to: Json)
  {
    || TypeOf(from) != TypeOf(to)
    || (from.Number? && from.n != to.n)
    || (from.String? && from.s != to.s)
  }

  // ------------------------------------------------------------ longer paths

  datatype Edit = Edit(operation: string, path: string, value: Option<Json>)

  /** An edit below the root, as `create_patches` writes it. */
  predicate Written(e: Edit)
  {
    && e.path != "" && e.path[0] == '/'
    && (e.operation != "remove" ==> e.operation in {"add", "replace"} && Usable(e.value))
  }

  predicate Usable(value: Option<Json>)
  {
    value.Some? && Height(value.value) <= CIRCULAR_LIMIT
  }

  function Spell(prefix: string, e: Edit): Json
  {
    ComposePatch(e.operation, prefix + e.path, None, e.value)
  }

  /** The same edit, once with the prefix before its path and once without. */
  ghost predicate Shifted(prefix: string, long: Json, short: Json)
  {
    exists e :: Written(e) && long == Spell(prefix, e) && short == Spell("", e)
  }

  ghost predicate AllShifted(prefix: string, long: seq<Json>, short: seq<Json>)
  {
    |long| == |short| && forall i :: 0 <= i < |long| ==> Shifted(prefix, long[i], short[i])
  }

  lemma ShiftedConcat(prefix: string, long: seq<Json>, short: seq<Json>, long': seq<Json>, short': seq<Json>)
    requires AllShifted(prefix, long, short) && AllShifted(prefix, long', short')
    ensures AllShifted(prefix, long + long', short + short')
  {
    hide Shifted;
  }

  lemma ShiftedAlone(prefix: string, operation: string, path: string, value: Option<Json>)
    requires Written(Edit(operation, path, value))
    ensures AllShifted(prefix, [ComposePatch(operation, prefix + path, None, value)],
                       [ComposePatch(operation, path, None, value)])
  {
    hide ComposePatch;
    NoPrefix(path);
    var e := Edit(operation, path, value);
    assert Written(e) && ComposePatch(operation, prefix + path, None, value) == Spell(prefix, e)
      && ComposePatch(operation, path, None, value) == Spell("", e);
  }

  lemma ShiftedSuffix(prefix: string, operation: string, path: string, name: string, value: Option<Json>)
    requires TokenEnds(path) && (operation != "remove" ==> operation in {"add", "replace"} && Usable(value))
    ensures AllShifted(prefix, [ComposePatch(operation, prefix + path, Some(name), value)],
                       [ComposePatch(operation, path, Some(name), value)])
  {
    hide Encode;
    PathBelow(prefix, path, Encode(name));
    ShiftedAlone(prefix, operation, path + "/" + Encode(name), value);
  }

  lemma PathBelow(prefix: string, path: string, name: string)
    requires TokenEnds(path)
    ensures (prefix + path) + "/" + name == prefix + (path + "/" + name)
    ensures path + "/" + name != "" && (path + "/" + name)[0] == '/'
  {
  }

  /** A longer path changes nothing else about the patches. */
  lemma {:induction false} CreateShifted(prefix: string, path: string, from: Json, to: Json)
    requires TokenEnds(path) && Height(to) <= CIRCULAR_LIMIT && (path == "" ==> !Replaced(from, to))
    ensures AllShifted(prefix, CreatePatches(prefix + path, from, to, true), CreatePatches(path, from, to, true))
    decreases from, 1, 0
  {
    hide ComposePatch, StrCmp;
    if from.String? && to.String? {
      StrCmpZero(from.s, to.s);
    }
    if Replaced(from, to) {
      ShiftedAlone(prefix, "replace", path, Some(to));
    } else if from.Array? {
      ItemsShifted(prefix, path, from.items, to.items, 0);
    } else if from.Object? {
      SortKeepsBelow(from.members, true, from);
      SortedHeights(to.members);
      MembersShifted(prefix, path, SortList(from.members, NameOf, true), SortList(to.members, NameOf, true), from);
    }
  }

  lemma {:induction false} SortedHeights(members: seq<Member>)
    requires HeightMembers(members) <= CIRCULAR_LIMIT
    ensures forall m :: m in SortList(members, NameOf, true) ==> Height(m.item) <= CIRCULAR_LIMIT
  {
    forall m | m in SortList(members, NameOf, true)
      ensures Height(m.item) <= CIRCULAR_LIMIT
    {
      SortMembers(members, NameOf, true, m);
    }
  }

  lemma {:induction false} ItemsShifted(prefix: string, path: string, xs: seq<Json>, ys: seq<Json>, index: nat)
    requires TokenEnds(path) && forall y :: y in ys ==> Height(y) <= CIRCULAR_LIMIT
    ensures AllShifted(prefix, CreateForItems(prefix + path, xs, ys, index, true),
                       CreateForItems(path, xs, ys, index, true))
    decreases xs, 0, 0
  {
    hide ComposePatch, CreatePatches, Decimal, Height, AllShifted;
    if xs == [] {
      AppendShifted(prefix, path, ys);
    } else if ys == [] {
      RemoveShifted(prefix, path, |xs|, index);
    } else {
      PathBelow(prefix, path, Decimal(index));
      CreateShifted(prefix, path + "/" + Decimal(index), xs[0], ys[0]);
      ItemsShifted(prefix, path, xs[1..], ys[1..], index + 1);
      ShiftedConcat(prefix,
                    CreatePatches(prefix + (path + "/" + Decimal(index)), xs[0], ys[0], true),
                    CreatePatches(path + "/" + Decimal(index), xs[0], ys[0], true),
                    CreateForItems(prefix + path, xs[1..], ys[1..], index + 1, true),
                    CreateForItems(path, xs[1..], ys[1..], index + 1, true));
    }
  }

  lemma {:induction false} AppendShifted(prefix: string, path: string, ys: seq<Json>)
    requires TokenEnds(path) && forall y :: y in ys ==> Height(y) <= CIRCULAR_LIMIT
    ensures AllShifted(prefix, AppendRest(prefix + path, ys), AppendRest(path, ys))
  {
    hide ComposePatch, Height;
    if ys != [] {
      ShiftedSuffix(prefix, "add", path, "-", Some(ys[0]));
      AppendShifted(prefix, path, ys[1..]);
      ShiftedConcat(prefix, [ComposePatch("add", prefix + path, Some("-"), Some(ys[0]))],
                    [ComposePatch("add", path, Some("-"), Some(ys[0]))],
                    AppendRest(prefix + path, ys[1..]), AppendRest(path, ys[1..]));
    }
  }

  lemma {:induction false} RemoveShifted(prefix: string, path: string, count: nat, index: nat)
    requires TokenEnds(path)
    ensures AllShifted(prefix, RemoveRest(prefix + path, count, index), RemoveRest(path, count, index))
    decreases count
  {
    hide ComposePatch, Decimal;
    if count > 0 {
      ShiftedSuffix(prefix, "remove", path, Decimal(index), None);
      RemoveShifted(prefix, path, count - 1, index);
      ShiftedConcat(prefix, [ComposePatch("remove", prefix + path, Some(Decimal(index)), None)],
                    [ComposePatch("remove", path, Some(Decimal(index)), None)],
                    RemoveRest(prefix + path, count - 1, index), RemoveRest(path, count - 1, index));
    }
  }

  lemma {:induction false} MembersShifted(prefix: string, path: string, ms: seq<Member>, ns: seq<Member>, owner: Json)
    requires TokenEnds(path) && forall n :: n in ns ==> Height(n.item) <= CIRCULAR_LIMIT
    requires forall m :: m in ms ==> m.item < owner
    ensures AllShifted(prefix, CreateForMembers(prefix + path, ms, ns, true, owner),
                       CreateForMembers(path, ms, ns, true, owner))
    decreases owner, 0, |ms| + |ns|
  {
    hide ComposePatch, CreatePatches, Encode, Height, AllShifted, StrCmp;
    if ms == [] && ns == [] {
      assert AllShifted(prefix, [], []) by { NoneShifted(prefix); }
    } else {
      var diff := if ms == [] then 1 else if ns == [] then -1 else Compare(ms[0].name, ns[0].name, true);
      if diff == 0 {
        var name := Encode(ms[0].name);
        PathBelow(prefix, path, name);
        CreateShifted(prefix, path + "/" + name, ms[0].item, ns[0].item);
        MembersShifted(prefix, path, ms[1..], ns[1..], owner);
        ShiftedConcat(prefix, CreatePatches(prefix + (path + "/" + name), ms[0].item, ns[0].item, true),
                      CreatePatches(path + "/" + name, ms[0].item, ns[0].item, true),
                      CreateForMembers(prefix + path, ms[1..], ns[1..], true, owner),
                      CreateForMembers(path, ms[1..], ns[1..], true, owner));
      } else if diff < 0 {
        ShiftedSuffix(prefix, "remove", path, ms[0].name, None);
        MembersShifted(prefix, path, ms[1..], ns, owner);
        ShiftedConcat(prefix, [ComposePatch("remove", prefix + path, Some(ms[0].name), None)],
                      [ComposePatch("remove", path, Some(ms[0].name), None)],
                      CreateForMembers(prefix + path, ms[1..], ns, true, owner),
                      CreateForMembers(path, ms[1..], ns, true, owner));
      } else {
        ShiftedSuffix(prefix, "add", path, ns[0].name, Some(ns[0].item));
        MembersShifted(prefix, path, ms, ns[1..], owner);
        ShiftedConcat(prefix, [ComposePatch("add", prefix + path, Some(ns[0].name), Some(ns[0].item))],
                      [ComposePatch("add", path, Some(ns[0].name), Some(ns[0].item))],
                      CreateForMembers(prefix + path, ms, ns[1..], true, owner),
                      CreateForMembers(path, ms, ns[1..], true, owner));
      }
    }
  }

  lemma NoneShifted(prefix: string)
    ensures AllShifted(prefix, [], [])
  {
  }

  // -------------------------------------------------------- into the child

  /** What `apply_patch` does with an edit below the root. */
  function ApplyEdit(tree: Json, e: Edit): Applied
    requires Written(e)
  {
    if e.operation == "add" then AddAtPath(tree, e.path, e.value.value, true)
    else
      var d := DetachPath(tree, e.path, true);
      if d.Missing? then Applied(13, tree)
      else if e.operation == "remove" then Applied(0, d.rest)
      else AddAtPath(d.rest, e.path, e.value.value, true)
  }

  lemma ApplyIsEdit(tree: Json, prefix: string, e: Edit)
    requires Written(e) && Written(e.(path := prefix + e.path))
    ensures ApplyPatch(tree, Spell(prefix, e), true) == ApplyEdit(tree, e.(path := prefix + e.path))
  {
    hide ComposePatch, GetMember, AddAtPath, DetachPath, PatchValue, Resolve, TestAtPath, TestedTree, Height;
    ReadPatch(e.operation, prefix + e.path, None, e.value);
    if e.operation != "remove" {
      ReadValue(e.operation, prefix + e.path, None, e.value.value);
    }
  }

  /** The index of the child a step names, if there is one. */
  function StepAt(j: Json, s: Step): (r: Option<nat>)
    ensures r.Some? ==> r.value < ChildCount(j)
  {
    match s
    case Key(k) => if j.Object? && HasKey(j.members, k, true) then Some(FindKey(j.members, k, true)) else None
    case Index(i) => if j.Array? && i < |j.items| && i < SIZE_LIMIT then Some(i) else None
  }

  /** A path below a step starts with the child, and leads nowhere without it. */
  lemma {:induction false} StepResolves(j: Json, s: Step, rest: string)
    requires TokenEnds(rest) && (StepAt(j, s).Some? || (s.Key? && j.Object?))
    ensures var i := StepAt(j, s);
      Resolve(j, StepText(s) + rest, true) ==
        if i.None? then None else Prepend(i.value, Resolve(Child(j, i.value), rest, true))
  {
    var i, token := StepAt(j, s), StepText(s)[1..] + rest;
    TailOfConcat(StepText(s), rest);
    assert SelectChild(j, token, true) == i && SkipToken(token) == rest by {
      StepSelects(j, s, rest);
    }
    ResolveUnfold(j, StepText(s) + rest, true);
  }

  lemma {:induction false} StepSelects(j: Json, s: Step, rest: string)
    requires TokenEnds(rest) && (StepAt(j, s).Some? || (s.Key? && j.Object?))
    ensures SelectChild(j, StepText(s)[1..] + rest, true) == StepAt(j, s)
    ensures SkipToken(StepText(s)[1..] + rest) == rest
  {
    match s {
      case Key(k) =>
        assert StepText(s)[1..] == Encode(k);
        EncodeSlashFree(k);
        FindTokenIsFindKey(j.members, k, rest, true);
        SkipTokenExact(Encode(k), rest);
      case Index(i) =>
        assert StepText(s)[1..] == Decimal(i);
        DecodePrinted(i, rest);
        SkipTokenExact(Decimal(i), rest);
    }
  }

  lemma {:induction false} LastSlashBehind(prefix: string, path: string)
    requires LastSlash(path).Some?
    ensures LastSlash(prefix + path) == Some(|prefix| + LastSlash(path).value)
    decreases |path|
  {
    var whole := prefix + path;
    assert whole[|whole| - 1] == path[|path| - 1];
    if path[|path| - 1] != '/' {
      assert whole[..|whole| - 1] == prefix + path[..|path| - 1];
      LastSlashBehind(prefix, path[..|path| - 1]);
    }
  }

  lemma {:induction false} SlashInside(path: string)
    requires path != "" && path[0] == '/'
    ensures LastSlash(path).Some? && TokenEnds(path[..LastSlash(path).value])
    decreases |path|
  {
    if path[|path| - 1] != '/' {
      SlashInside(path[..|path| - 1]);
      var n := LastSlash(path).value;
      assert path[..|path| - 1][..n] == path[..n];
    }
  }

  /** Parent and child text of a longer path. */
  lemma {:induction false} SplitBehind(prefix: string, path: string)
    requires path != "" && path[0] == '/'
    ensures LastSlash(path).Some? && LastSlash(prefix + path).Some?
    ensures var n, m := LastSlash(path).value, LastSlash(prefix + path).value;
      && TokenEnds(path[..n])
      && (prefix + path)[..m] == prefix + path[..n] && (prefix + path)[m + 1..] == path[n + 1..]
  {
    SlashInside(path);
    LastSlashBehind(prefix, path);
  }

  lemma {:induction false} UpdateBelow(j: Json, i: nat, path: Path, item: Json)
    requires i < ChildCount(j) && ValidPath(Child(j, i), path)
    ensures ValidPath(j, [i] + path) && NodeAt(j, [i] + path) == NodeAt(Child(j, i), path)
    ensures Update(j, [i] + path, item) == Update(j, [i], Update(Child(j, i), path, item))
  {
    assert ([i] + path)[1..] == path && [i][1..] == [];
  }

  lemma {:induction false} DetachLift(j: Json, s: Step, path: string)
    requires path != "" && path[0] == '/' && StepAt(j, s).Some?
    ensures var i := StepAt(j, s).value;
      var d, d' := DetachPath(j, StepText(s) + path, true), DetachPath(Child(j, i), path, true);
      && (d.Missing? <==> d'.Missing?)
      && (d.Detached? ==> d.item == d'.item && d.rest == Update(j, [i], d'.rest))
  {
    hide Resolve, NodeAt, Update, DetachChild, DecodeInPlace, StepText, LastSlash, StepAt;
    var i := StepAt(j, s).value;
    SplitBehind(StepText(s), path);
    var parent, child := path[..LastSlash(path).value], path[LastSlash(path).value + 1..];
    StepResolves(j, s, parent);
    var position := Resolve(Child(j, i), parent, true);
    if position.Some? {
      var d' := DetachChild(NodeAt(Child(j, i), position.value), DecodeInPlace(child));
      UpdateBelow(j, i, position.value, if d'.Missing? then j else d'.rest);
    }
  }

  lemma {:induction false} AddLift(j: Json, s: Step, path: string, value: Json)
    requires path != "" && path[0] == '/' && StepAt(j, s).Some?
    ensures var i := StepAt(j, s).value;
      var a, a' := AddAtPath(j, StepText(s) + path, value, true), AddAtPath(Child(j, i), path, value, true);
      && a.status == a'.status
      && (a.status == 0 ==> a.tree == Update(j, [i], a'.tree))
  {
    hide Resolve, NodeAt, Update, AddChild, DecodeInPlace, StepText, LastSlash, StepAt;
    var i := StepAt(j, s).value;
    SplitBehind(StepText(s), path);
    var parent, child := path[..LastSlash(path).value], path[LastSlash(path).value + 1..];
    StepResolves(j, s, parent);
    var position := Resolve(Child(j, i), parent, true);
    if position.Some? {
      var added := AddChild(NodeAt(Child(j, i), position.value), DecodeInPlace(child), value, true);
      UpdateBelow(j, i, position.value, added.tree);
    }
  }

  lemma {:induction false} FindKeyNames(ms: seq<Member>, ns: seq<Member>, name: string, cs: bool)
    requires |ms| == |ns| && forall k :: 0 <= k < |ms| ==> ms[k].name == ns[k].name
    ensures FindKey(ms, name, cs) == FindKey(ns, name, cs)
  {
    if ms != [] {
      assert ms[0].name == ns[0].name;
      FindKeyNames(ms[1..], ns[1..], name, cs);
    }
  }

  /** The step still names the child after the child was changed. */
  lemma {:induction false} UpdateStep(j: Json, s: Step, item: Json)
    requires StepAt(j, s).Some?
    ensures var i := StepAt(j, s).value;
      var r := Update(j, [i], item);
      && StepAt(r, s) == Some(i) && Child(r, i) == item
      && forall x :: Update(r, [i], x) == Update(j, [i], x)
    ensures Update(j, [StepAt(j, s).value], Child(j, StepAt(j, s).value)) == j
  {
    var i := StepAt(j, s).value;
    var r := Update(j, [i], item);
    assert [i][1..] == [];
    match s {
      case Key(k) =>
        FindKeyNames(j.members, r.members, k, true);
        assert j.members[i] == Member(j.members[i].name, j.members[i].item);
        assert j.members[i := j.members[i]] == j.members;
        forall x
          ensures Update(r, [i], x) == Update(j, [i], x)
        {
          assert r.members[i := Member(j.members[i].name, x)] == j.members[i := Member(j.members[i].name, x)];
        }
      case Index(_) =>
        assert j.items[i := j.items[i]] == j.items;
        forall x
          ensures Update(r, [i], x) == Update(j, [i], x)
        {
          assert r.items[i := x] == j.items[i := x];
        }
    }
  }

  /** One patch below a child. */
  lemma {:induction false} LiftOne(j: Json, s: Step, long: Json, short: Json)
    requires StepAt(j, s).Some? && Shifted(StepText(s), long, short)
    ensures var i := StepAt(j, s).value;
      var a, a' := ApplyPatch(j, long, true), ApplyPatch(Child(j, i), short, true);
      && a.status == a'.status
      && (a.status == 0 ==> a.tree == Update(j, [i], a'.tree))
  {
    hide ApplyPatch, DetachPath, AddAtPath, Update, StepText, StepAt, Spell;
    var i := StepAt(j, s).value;
    var e :| Written(e) && long == Spell(StepText(s), e) && short == Spell("", e);
    NoPrefix(e.path);
    TailOfConcat(StepText(s), e.path);
    ApplyIsEdit(j, StepText(s), e);
    ApplyIsEdit(Child(j, i), "", e);
    DetachLift(j, s, e.path);
    if e.operation == "add" {
      AddLift(j, s, e.path, e.value.value);
    } else {
      var d' := DetachPath(Child(j, i), e.path, true);
      if d'.Detached? && e.operation == "replace" {
        UpdateStep(j, s, d'.rest);
        AddLift(Update(j, [i], d'.rest), s, e.path, e.value.value);
      }
    }
  }

  /** Patches below a child that is not there fail. */
  lemma LiftMissing(j: Json, s: Step, long: Json, short: Json)
    requires s.Key? && j.Object? && StepAt(j, s).None? && Shifted(StepText(s), long, short)
    ensures ApplyPatch(j, long, true).status != 0
  {
    hide ApplyPatch, Resolve, StepText, StepAt, Spell, LastSlash, DecodeInPlace;
    var e :| Written(e) && long == Spell(StepText(s), e) && short == Spell("", e);
    TailOfConcat(StepText(s), e.path);
    ApplyIsEdit(j, StepText(s), e);
    SplitBehind(StepText(s), e.path);
    StepResolves(j, s, e.path[..LastSlash(e.path).value]);
  }

  /** Patches below a child, one after the other. */
  lemma {:induction false} LiftAll(j: Json, s: Step, long: seq<Json>, short: seq<Json>)
    requires StepAt(j, s).Some? && AllShifted(StepText(s), long, short)
    ensures var i := StepAt(j, s).value;
      var a, a' := ApplyAll(j, long, true), ApplyAll(Child(j, i), short, true);
      && (a.status == 0 <==> a'.status == 0)
      && (a.status == 0 ==> a.tree == Update(j, [i], a'.tree))
    decreases |long|
  {
    hide ApplyPatch, Update, StepText, StepAt, Shifted;
    var i := StepAt(j, s).value;
    if long == [] {
      UpdateStep(j, s, Child(j, i));
    } else {
      LiftOne(j, s, long[0], short[0]);
      var a' := ApplyPatch(Child(j, i), short[0], true);
      if a'.status == 0 {
        UpdateStep(j, s, a'.tree);
        LiftAll(Update(j, [i], a'.tree), s, long[1..], short[1..]);
      }
    }
  }

  /** Patches for a child applied to the whole. */
  lemma {:induction false} LiftCreated(j: Json, s: Step, path: string, from: Json, to: Json)
    requires StepAt(j, s).Some? && TokenEnds(path) && Height(to) <= CIRCULAR_LIMIT
    requires path == "" ==> !Replaced(from, to)
    ensures var i := StepAt(j, s).value;
      var a := ApplyAll(j, CreatePatches(StepText(s) + path, from, to, true), true);
      var a' := ApplyAll(Child(j, i), CreatePatches(path, from, to, true), true);
      && (a.status == 0 <==> a'.status == 0)
      && (a.status == 0 ==> a.tree == Update(j, [i], a'.tree))
  {
    CreateShifted(StepText(s), path, from, to);
    LiftAll(j, s, CreatePatches(StepText(s) + path, from, to, true), CreatePatches(path, from, to, true));
  }
}
