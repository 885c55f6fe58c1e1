/** Trees inside and outside of the patch round trip: all with plain keys are inside;
    keys that do not survive the decoder and keys of one object that differ by case
    alone need not be. */
module PatchLimits {
  import opened Text
  import opened Sort
  import opened Json
  import opened Comparison
  import opened Pointer
  import opened Duplicate
  import opened Patch
  import opened PatchKeys
  import opened PatchSteps
  import opened PatchState
  import opened PatchRoundTrip

  /** No `~`, no `/` and no upper-case letter. */
  predicate PlainKey(key: string)
  {
    forall i :: 0 <= i < |key| ==> key[i] != '~' && key[i] != '/' && !('A' <= key[i] <= 'Z')
  }

  predicate PlainKeys(j: Json)
    decreases j
  {
    match j
    case Array(items) => forall i :: 0 <= i < |items| ==> PlainKeys(items[i])
    case Object(members) =>
      forall i :: 0 <= i < |members| ==> PlainKey(members[i].name) && PlainKeys(members[i].item)
    case _ => true
  }

  lemma {:induction false} FoldPlain(key: string)
    requires PlainKey(key)
    ensures Fold(key) == key && Survives(key)
  {
    PlainSurvives(key);
  }

  lemma {:induction false} PlainWellFormed(j: Json)
    requires PlainKeys(j) && WellFormed(j, true)
    ensures WellFormed(j, false)
    decreases j
  {
    match j {
      case Array(items) =>
        forall i | 0 <= i < |items|
          ensures WellFormed(items[i], false)
        {
          PlainWellFormed(items[i]);
        }
      case Object(members) =>
        forall i | 0 <= i < |members|
          ensures WellFormed(members[i].item, false)
        {
          PlainWellFormed(members[i].item);
        }
        forall i, k | 0 <= i < k < |members|
          ensures !SameKey(NameOf(members[i]), NameOf(members[k]), false)
        {
          FoldPlain(members[i].name);
          FoldPlain(members[k].name);
          assert !SameKey(NameOf(members[i]), NameOf(members[k]), true);
        }
      case _ =>
    }
  }

  lemma {:induction false} PlainSurvivable(from: Json, to: Json)
    requires PlainKeys(from) && PlainKeys(to)
    ensures Survivable(from, to)
    decreases from
  {
    match (from, to) {
      case (Array(xs), Array(ys)) =>
        forall i | 0 <= i < |xs| && i < |ys|
          ensures Survivable(xs[i], ys[i])
        {
          PlainSurvivable(xs[i], ys[i]);
        }
      case (Object(ms), Object(ns)) =>
        PlainSurvive(ms, ns);
        forall m, n | m in ms && n in ns && m.name == n.name
          ensures Survivable(m.item, n.item)
        {
          PlainSurvivable(m.item, n.item);
        }
      case _ =>
    }
  }

  lemma PlainSurvive(ms: seq<Member>, ns: seq<Member>)
    requires forall i :: 0 <= i < |ms| ==> PlainKey(ms[i].name)
    requires forall i :: 0 <= i < |ns| ==> PlainKey(ns[i].name)
    ensures KeysSurvive(ms, ns)
  {
    hide Survives, Kept, Known;
    forall m | m in ms
      ensures Survives(m.name)
    {
      FoldPlain(m.name);
    }
    forall n | n in ns
      ensures Survives(n.name)
    {
      FoldPlain(n.name);
    }
  }

  /** With plain keys that are distinct in every object nothing else is needed. */
  lemma {:induction false} PlainRoundTrip(from: Json, to: Json)
    requires PlainKeys(from) && PlainKeys(to) && WellFormed(from, true) && WellFormed(to, true)
    requires Height(to) <= CIRCULAR_LIMIT && Addressable(from)
    ensures var r := ApplyPatches(from, GeneratePatches(from, to, true), true);
      r.status == 0 && Denote(r.tree, true) == Denote(to, true)
  {
    PlainWellFormed(from);
    PlainWellFormed(to);
    PlainSurvivable(from, to);
    RoundTrip(from, to);
  }

  lemma SortAlone(m: Member)
    ensures SortList([m], NameOf, true) == [m] && SortList([], NameOf, true) == []
  {
  }

  /** A key that is added to an empty object round trips exactly when it survives. */
  lemma {:induction false} AddNeedsSurvival(key: string, value: Json)
    requires Height(value) < CIRCULAR_LIMIT && WellFormed(value, false)
    ensures var from, to := Object([]), Object([Member(key, value)]);
      var r := ApplyPatches(from, GeneratePatches(from, to, true), true);
      r.status == 0 && (Denote(r.tree, true) == Denote(to, true) <==> Survives(key))
  {
    hide CreatePatches, ComposePatch, AddAtPath, DecodeInPlace, Encode, Survives, WellFormed, GetMember,
      DecodeOperation;
    var patch := ComposePatch("add", "", Some(key), Some(value));
    AddedPatches(key, value);
    ReadPatch("add", "", Some(key), Some(value));
    ReadValue("add", "", Some(key), value);
    AddedKey(key, value);
    ReadOperation("add", "", Some(key), Some(value));
    ApplyOne(Object([]), patch, []);
    var decoded := DecodeInPlace(Encode(key));
    DecodeExact(key);
    SingleValue(decoded, value);
    SingleValue(key, value);
    SameSingle(decoded, key, Denote(value, true));
  }

  lemma SameSingle(k: string, l: string, v: Value)
    ensures map[k := v] == map[l := v] <==> k == l
  {
    assert k in map[k := v];
  }

  lemma ReadOperation(operation: string, path: string, suffix: Option<string>, value: Option<Json>)
    requires operation == "add"
    ensures DecodeOperation(ComposePatch(operation, path, suffix, value), true) == ADD
  {
    ReadPatch(operation, path, suffix, value);
  }

  lemma AddedPatches(key: string, value: Json)
    ensures CreatePatches("", Object([]), Object([Member(key, value)]), true)
      == [ComposePatch("add", "", Some(key), Some(value))]
  {
    var from, patch := Object([]), ComposePatch("add", "", Some(key), Some(value));
    SortAlone(Member(key, value));
    assert [Member(key, value)][1..] == [];
    SortKeepsBelow([], true, from);
    assert CreateForMembers("", [], [], true, from) == [];
    assert CreateForMembers("", [], [Member(key, value)], true, from) == [patch] + [];
    NoSuffix([patch]);
  }

  lemma {:induction false} AddedKey(key: string, value: Json)
    ensures AddAtPath(Object([]), "" + "/" + Encode(key), value, true)
      == Applied(0, Object([Member(DecodeInPlace(Encode(key)), value)]))
  {
    var decoded := DecodeInPlace(Encode(key));
    EncodeSlashFree(key);
    SplitAtSlash("", Encode(key));
    assert Resolve(Object([]), "", true) == Some([]);
    NoPrefix([Member(decoded, value)]);
    assert AddChild(Object([]), decoded, value, true) == Applied(0, Object([Member(decoded, value)]));
  }

  lemma {:induction false} SingleValue(key: string, value: Json)
    ensures DenoteMembers([Member(key, value)], true) == map[key := Denote(value, true)]
  {
    assert [Member(key, value)][1..] == [];
  }

  /** A slash in a key breaks the round trip: `a/b` comes back as `a~/`. */
  lemma SlashBreaks()
    ensures !Survives("a/b")
    ensures var from, to := Object([]), Object([Member("a/b", Null)]);
      Denote(ApplyPatches(from, GeneratePatches(from, to, true), true).tree, true) != Denote(to, true)
  {
    assert "a/b"[1] == '/';
    AddNeedsSurvival("a/b", Null);
  }

  /** Of two keys that differ by case alone the patch removes `/A`, and the lookup without
      case takes the first: the wrong one in one order, the right one in the other. */
  lemma CaseBreaks()
    ensures var a, b := Member("a", Number(1)), Member("A", Number(2));
      var ab, ba, to := Object([a, b]), Object([b, a]), Object([a]);
      && ApplyPatches(ab, GeneratePatches(ab, to, true), true) == Applied(0, Object([b]))
      && ApplyPatches(ba, GeneratePatches(ba, to, true), true) == Applied(0, Object([a]))
  {
    hide SortList, ApplyPatch, ComposePatch, CreatePatches;
    var a, b := Member("a", Number(1)), Member("A", Number(2));
    var patch := ComposePatch("remove", "", Some("A"), None);
    SwapSorted(a, b, NameOf, true);
    KeptSorted(b, a, NameOf, true);
    CaseCreates(a, b, [a, b]);
    CaseCreates(a, b, [b, a]);
    CaseRemoves(a, b, [a, b]);
    CaseRemoves(a, b, [b, a]);
    assert [a, b][1..] == [b] && [b, a][1..] == [a];
    ApplyOne(Object([a, b]), patch, []);
    ApplyOne(Object([b, a]), patch, []);
  }

  lemma {:induction false} CaseCreates(a: Member, b: Member, ms: seq<Member>)
    requires a == Member("a", Number(1)) && b == Member("A", Number(2)) && SortList(ms, NameOf, true) == [b, a]
    ensures CreatePatches("", Object(ms), Object([a]), true) == [ComposePatch("remove", "", Some("A"), None)]
  {
    hide SortList, ComposePatch;
    SortAlone(a);
    SortKeepsBelow(ms, true, Object(ms));
    CasePatches(a, b, Object(ms));
  }

  lemma {:induction false} CaseRemoves(a: Member, b: Member, ms: seq<Member>)
    requires a == Member("a", Number(1)) && b == Member("A", Number(2)) && ms in {[a, b], [b, a]}
    ensures ApplyPatch(Object(ms), ComposePatch("remove", "", Some("A"), None), true) == Applied(0, Object(ms[1..]))
  {
    hide ComposePatch, FindKey, DetachChild, Encode, DecodeInPlace, LastSlash, GetMember;
    PlainSurvives("A");
    DecodeExact("A");
    ReadPatch("remove", "", Some("A"), None);
    SplitAtSlash("", "A");
    assert Resolve(Object(ms), "", true) == Some([]);
    CaseDetaches(a, b, ms);
    assert DetachPath(Object(ms), "" + "/" + "A", true) == Detached(ms[0].item, Object(ms[1..]));
    assert "" + "/" + Encode("A") != "";
  }

  lemma {:induction false} CaseDetaches(a: Member, b: Member, ms: seq<Member>)
    requires a == Member("a", Number(1)) && b == Member("A", Number(2)) && ms in {[a, b], [b, a]}
    ensures DetachChild(Object(ms), "A") == Detached(ms[0].item, Object(ms[1..]))
  {
    assert Fold("A") == Fold("a") by {
      assert Fold("A")[0] == 'a' && Fold("a")[0] == 'a';
    }
    assert FindKey(ms, "A", false) == 0;
    assert RemoveAt(ms, 0) == ms[1..];
  }

  lemma {:induction false} CasePatches(a: Member, b: Member, owner: Json)
    requires a == Member("a", Number(1)) && b == Member("A", Number(2))
    requires forall m :: m in [b, a] ==> m.item < owner
    ensures CreateForMembers("", [b, a], [a], true, owner) == [ComposePatch("remove", "", Some("A"), None)]
  {
    assert [b, a][1..] == [a] && [a][1..] == [];
    assert StrCmp("A", "a") < 0;
    StrCmpZero("a", "a");
    assert CreateForMembers("", [], [], true, owner) == [];
    assert CreatePatches("" + "/" + Encode("a"), Number(1), Number(1), true) == [];
    assert CreateForMembers("", [a], [a], true, owner) == [] + [];
    NoSuffix([ComposePatch("remove", "", Some("A"), None)]);
  }
}
