/** JSON Merge Patch (RFC 7396) in libs/cjson/src/cJSON_Utils.c: applying and
    generating. NULL results are `None`. */
module MergePatch {
  import opened Text
  import opened Sort
  import opened Json
  import opened Comparison
  import opened CompareLeaves
  import opened Duplicate

  /** `merge_patch`; a missing target is `None`. */
  function ApplyMerge(target: Option<Json>, patch: Json, cs: bool): Option<Json>
    decreases patch, 0
  {
    if !patch.Object? then DuplicateRec(patch, 0)
    else
      var start := if target.Some? && target.value.Object? then target.value.members else [];
      var merged := MergeMembers(start, patch.members, cs);
      if merged.None? then None else Some(Object(merged.value))
  }

  function MergeMembers(members: seq<Member>, patches: seq<Member>, cs: bool): Option<seq<Member>>
    decreases patches, 1
  {
    if patches == [] then Some(members)
    else
      var p := patches[0];
      var i := FindKey(members, p.name, cs);
      var kept := if i < |members| then RemoveAt(members, i) else members;
      if p.item.Null? then MergeMembers(kept, patches[1..], cs)
      else
        var old_item := if i < |members| then Some(members[i].item) else None;
        var replacement := ApplyMerge(old_item, p.item, cs);
        if replacement.None? then None
        else MergeMembers(kept + [Member(p.name, replacement.value)], patches[1..], cs)
  }

  /** `generate_merge_patch` for a `to` that is not NULL. The recursive call goes
      through the public function that ignores case, and gets the two items as the
      comparison before it has left them. */
  function Generate(from: Json, to: Json, cs: bool): Option<Json>
    decreases Size(from), 1, 0
  {
    if !to.Object? || !from.Object? then DuplicateRec(to, 0)
    else
      SortedSize(from.members, cs);
      var patch := GenerateMembers(SortList(from.members, NameOf, cs), SortList(to.members, NameOf, cs), cs);
      if patch == [] then None else Some(Object(patch))
  }

  /** Adding NULL to an object is refused and leaves it as it is. */
  function AddTo(name: string, item: Option<Json>): seq<Member>
  {
    if item.None? then [] else [Member(name, item.value)]
  }

  function GenerateMembers(ms: seq<Member>, ns: seq<Member>, cs: bool): seq<Member>
    decreases SizeMembers(ms) + 1, 0, |ms| + |ns|
  {
    if ms == [] && ns == [] then []
    else
      var diff := if ms == [] then 1 else if ns == [] then -1 else StrCmp(ms[0].name, ns[0].name);
      if diff < 0 then AddTo(ms[0].name, Some(Null)) + GenerateMembers(ms[1..], ns, cs)
      else if diff > 0 then AddTo(ns[0].name, DuplicateRec(ns[0].item, 0)) + GenerateMembers(ms, ns[1..], cs)
      else
        (if CompareJson(ms[0].item, ns[0].item, cs) then []
         else AddTo(ns[0].name, GenerateBelow(ms[0].item, ns[0].item, cs)))
        + GenerateMembers(ms[1..], ns[1..], cs)
  }

  /** The recursive call for two items that a comparison with this flag found different. */
  function GenerateBelow(from: Json, to: Json, cs: bool): Option<Json>
    decreases Size(from), 2, 0
  {
    AfterSize(from, to, cs);
    Generate(AfterCompare(from, to, cs), AfterCompare(to, from, cs), false)
  }
}

/** RFC 7396 on values, and when a generated patch does its work there. */
module MergeValues {
  import opened Json

  /** Section 2 of RFC 7396: the function MergePatch(Target, Patch). */
  function Rfc(target: Option<Value>, patch: Value): Value
    decreases patch, 1
  {
    if !patch.VObject? then patch else VObject(RfcFields(FieldsOf(target), patch))
  }

  function FieldsOf(target: Option<Value>): map<string, Value>
  {
    if target.Some? && target.value.VObject? then target.value.fields else map[]
  }

  function RfcFields(fields: map<string, Value>, patch: Value): map<string, Value>
    requires patch.VObject?
    decreases patch, 0
  {
    map k | k in fields.Keys + patch.fields.Keys && !(k in patch.fields && patch.fields[k] == VNull) ::
      if k in patch.fields then Rfc(Lookup(fields, k), patch.fields[k]) else fields[k]
  }

  function Lookup(fields: map<string, Value>, k: string): Option<Value>
  {
    if k in fields then Some(fields[k]) else None
  }

  /** The patch from one value to another; `None` when there is nothing to do. */
  function Diff(f: Value, t: Value): Option<Value>
    decreases f, 1
  {
    if !t.VObject? || !f.VObject? then Some(t)
    else
      var d := DiffFields(f, t);
      if d == map[] then None else Some(VObject(d))
  }

  function DiffFields(f: Value, t: Value): map<string, Value>
    requires f.VObject? && t.VObject?
    decreases f, 0
  {
    map k | k in f.fields.Keys + t.fields.Keys && Lookup(f.fields, k) != Lookup(t.fields, k)
            && (k in f.fields && k in t.fields ==> Diff(f.fields[k], t.fields[k]).Some?) ::
      if k !in t.fields then VNull
      else if k !in f.fields then t.fields[k]
      else Diff(f.fields[k], t.fields[k]).value
  }

  /** No member reachable through objects is null. */
  predicate NullFree(v: Value)
    decreases v
  {
    v.VObject? ==> forall k :: k in v.fields ==> v.fields[k] != VNull && NullFree(v.fields[k])
  }

  /** No null is set by the change: nulls may stay where they are. */
  predicate NullSafe(f: Value, t: Value)
    decreases t
  {
    t.VObject? ==>
      if !f.VObject? then NullFree(t)
      else forall k :: k in t.fields ==>
        (k in f.fields && f.fields[k] == t.fields[k])
        || (t.fields[k] != VNull
            && if k in f.fields then NullSafe(f.fields[k], t.fields[k]) else NullFree(t.fields[k]))
  }

  /** Merging into nothing keeps a value exactly when it holds no null. */
  lemma {:induction false} RfcFromNothing(target: Option<Value>, v: Value)
    requires FieldsOf(target) == map[]
    ensures Rfc(target, v) == v <==> NullFree(v)
    decreases v
  {
    if v.VObject? {
      var r := RfcFields(map[], v);
      forall k | k in v.fields
        ensures (k in r && r[k] == v.fields[k]) <==> v.fields[k] != VNull && NullFree(v.fields[k])
      {
        RfcFromNothing(None, v.fields[k]);
      }
      assert r == v.fields <==> forall k :: k in v.fields ==> k in r && r[k] == v.fields[k];
    }
  }

  /** Values that differ have a patch, and it is null only if the new value is. */
  lemma {:induction false} DiffExists(f: Value, t: Value)
    requires f != t
    ensures Diff(f, t).Some?
    ensures Diff(f, t).value == VNull <==> t == VNull
    decreases f
  {
    if f.VObject? && t.VObject? {
      var d := DiffFields(f, t);
      var k :| k in f.fields.Keys + t.fields.Keys && Lookup(f.fields, k) != Lookup(t.fields, k);
      if k in f.fields && k in t.fields {
        DiffExists(f.fields[k], t.fields[k]);
      }
      assert k in d;
    }
  }

  /** Applying the patch gives the new value. */
  predicate Restores(f: Value, t: Value)
  {
    match Diff(f, t)
    case None => f == t
    case Some(p) => Rfc(Some(f), p) == t
  }

  /** The merge patch round trip holds exactly when no null is set. */
  lemma {:induction false} DiffRestores(f: Value, t: Value)
    ensures Restores(f, t) <==> NullSafe(f, t)
    decreases t, 1
  {
    if !t.VObject? {
    } else if !f.VObject? {
      RfcFromNothing(Some(f), t);
    } else {
      var d := DiffFields(f, t);
      var r := RfcFields(f.fields, VObject(d));
      forall k
        ensures (Lookup(r, k) == Lookup(t.fields, k)) <==> (k in t.fields ==> SafeAt(f, t, k))
      {
        RestoresAt(f, t, k);
      }
      assert NullSafe(f, t) <==> forall k :: k in t.fields ==> SafeAt(f, t, k);
      SameByLookup(r, t.fields);
      if d == map[] {
        NothingToDo(f, t);
      }
    }
  }

  predicate SafeAt(f: Value, t: Value, k: string)
    requires f.VObject? && t.VObject? && k in t.fields
  {
    (k in f.fields && f.fields[k] == t.fields[k])
    || (t.fields[k] != VNull
        && if k in f.fields then NullSafe(f.fields[k], t.fields[k]) else NullFree(t.fields[k]))
  }

  lemma SameByLookup(r: map<string, Value>, t: map<string, Value>)
    ensures r == t <==> forall k :: Lookup(r, k) == Lookup(t, k)
  {
    if forall k :: Lookup(r, k) == Lookup(t, k) {
      assert forall k :: k in r <==> Lookup(r, k).Some?;
      assert forall k :: k in t <==> Lookup(t, k).Some?;
      forall k | k in r
        ensures k in t && r[k] == t[k]
      {
        assert Lookup(r, k) == Lookup(t, k);
      }
      forall k | k in t
        ensures k in r
      {
        assert Lookup(r, k) == Lookup(t, k);
      }
    }
  }

  lemma {:induction false} DiffersAt(f: Value, t: Value, k: string)
    requires f.VObject? && t.VObject?
    ensures k in DiffFields(f, t) <==> Lookup(f.fields, k) != Lookup(t.fields, k)
  {
    if Lookup(f.fields, k) != Lookup(t.fields, k) && k in f.fields && k in t.fields {
      DiffExists(f.fields[k], t.fields[k]);
    }
  }

  lemma {:induction false} NothingToDo(f: Value, t: Value)
    requires f.VObject? && t.VObject? && DiffFields(f, t) == map[]
    ensures f == t && RfcFields(f.fields, VObject(map[])) == f.fields
  {
    forall k
      ensures Lookup(f.fields, k) == Lookup(t.fields, k)
    {
      DiffersAt(f, t, k);
    }
    SameByLookup(f.fields, t.fields);
  }

  lemma {:induction false} RestoresAt(f: Value, t: Value, k: string)
    requires f.VObject? && t.VObject?
    ensures var r := RfcFields(f.fields, VObject(DiffFields(f, t)));
      (Lookup(r, k) == Lookup(t.fields, k)) <==> (k in t.fields ==> SafeAt(f, t, k))
    decreases t, 0
  {
    var d := DiffFields(f, t);
    if k in t.fields {
      if k !in f.fields {
        RfcFromNothing(None, t.fields[k]);
        assert k in d && d[k] == t.fields[k];
      } else if f.fields[k] != t.fields[k] {
        DiffExists(f.fields[k], t.fields[k]);
        assert k in d && d[k] == Diff(f.fields[k], t.fields[k]).value;
        DiffRestores(f.fields[k], t.fields[k]);
      }
    }
  }
}
