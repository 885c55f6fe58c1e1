/** Places inside a value, the pointer text that names them, and how list
    operations on the tree act on the value it denotes. */
module Places {
  import opened Text
  import opened Sort
  import opened Json
  import opened Pointer
  import opened Patch

  datatype Step = Key(name: string) | Index(i: nat)

  type Place = seq<Step>

  predicate HasStep(v: Value, s: Step)
  {
    match s
    case Key(k) => v.VObject? && k in v.fields
    case Index(i) => v.VArray? && i < |v.items| && i < SIZE_LIMIT
  }

  function GetStep(v: Value, s: Step): Value
    requires HasStep(v, s)
  {
    match s
    case Key(k) => v.fields[k]
    case Index(i) => v.items[i]
  }

  function PutStep(v: Value, s: Step, w: Value): Value
    requires HasStep(v, s)
  {
    match s
    case Key(k) => VObject(v.fields[k := w])
    case Index(i) => VArray(v.items[i := w])
  }

  predicate HasPlace(v: Value, p: Place)
    decreases p
  {
    p == [] || (HasStep(v, p[0]) && HasPlace(GetStep(v, p[0]), p[1..]))
  }

  function Get(v: Value, p: Place): Value
    requires HasPlace(v, p)
    decreases p
  {
    if p == [] then v else Get(GetStep(v, p[0]), p[1..])
  }

  function Put(v: Value, p: Place, w: Value): Value
    requires HasPlace(v, p)
    decreases p
  {
    if p == [] then w else PutStep(v, p[0], Put(GetStep(v, p[0]), p[1..], w))
  }

  function StepText(s: Step): (t: string)
    ensures t != [] && t[0] == '/'
  {
    "/" + match s { case Key(k) => Encode(k) case Index(i) => Decimal(i) }
  }

  function PlaceText(p: Place): (t: string)
    ensures TokenEnds(t)
    decreases p
  {
    if p == [] then "" else StepText(p[0]) + PlaceText(p[1..])
  }

  lemma {:induction false} PlaceTextSnoc(p: Place, s: Step)
    ensures PlaceText(p + [s]) == PlaceText(p) + StepText(s)
  {
    if p == [] {
      assert p + [s] == [s] && [s][1..] == [];
      NoSuffix(StepText(s));
      NoPrefix(StepText(s));
    } else {
      PlaceTextSnoc(p[1..], s);
      assert (p + [s])[1..] == p[1..] + [s] && (p + [s])[0] == p[0];
      Assoc(StepText(p[0]), PlaceText(p[1..]), StepText(s));
    }
  }

  /** Reading what was put, putting twice. */
  lemma {:induction false} PutGet(v: Value, p: Place, w: Value)
    requires HasPlace(v, p)
    ensures HasPlace(Put(v, p, w), p) && Get(Put(v, p, w), p) == w
    ensures forall x :: Put(Put(v, p, w), p, x) == Put(v, p, x)
    ensures Put(v, p, Get(v, p)) == v
  {
    if p != [] {
      PutGet(GetStep(v, p[0]), p[1..], w);
      var inner := Put(GetStep(v, p[0]), p[1..], w);
      var put := PutStep(v, p[0], inner);
      assert GetStep(put, p[0]) == inner;
      forall x
        ensures Put(put, p, x) == Put(v, p, x)
      {
        var y := Put(GetStep(v, p[0]), p[1..], x);
        assert Put(inner, p[1..], x) == y;
        PutStepTwice(v, p[0], inner, y);
      }
      PutStepSame(v, p[0]);
    }
  }

  lemma PutStepTwice(v: Value, s: Step, w: Value, x: Value)
    requires HasStep(v, s)
    ensures HasStep(PutStep(v, s, w), s) && PutStep(PutStep(v, s, w), s, x) == PutStep(v, s, x)
  {
    match s
    case Key(k) => assert v.fields[k := w][k := x] == v.fields[k := x];
    case Index(i) => assert v.items[i := w][i := x] == v.items[i := x];
  }

  lemma PutStepSame(v: Value, s: Step)
    requires HasStep(v, s)
    ensures PutStep(v, s, GetStep(v, s)) == v
  {
    match s
    case Key(k) => assert v.fields[k := v.fields[k]] == v.fields;
    case Index(i) => assert v.items[i := v.items[i]] == v.items;
  }

  lemma {:induction false} PlaceSnoc(v: Value, p: Place, s: Step)
    ensures HasPlace(v, p + [s]) <==> HasPlace(v, p) && HasStep(Get(v, p), s)
    ensures HasPlace(v, p + [s]) ==> Get(v, p + [s]) == GetStep(Get(v, p), s)
    ensures HasPlace(v, p + [s]) ==>
      forall w :: Put(v, p + [s], w) == Put(v, p, PutStep(Get(v, p), s, w))
  {
    if p == [] {
      assert p + [s] == [s] && [s][1..] == [];
    } else {
      assert (p + [s])[0] == p[0] && (p + [s])[1..] == p[1..] + [s];
      if HasStep(v, p[0]) {
        PlaceSnoc(GetStep(v, p[0]), p[1..], s);
      }
    }
  }

  // ------------------------------------------------ members under list edits

  lemma FoldDistinct(members: seq<Member>)
    requires Distinct(members, NameOf, false)
    ensures Distinct(members, NameOf, true)
  {
    forall i, j | 0 <= i < j < |members|
      ensures !SameKey(NameOf(members[i]), NameOf(members[j]), true)
    {
      assert !SameKey(NameOf(members[i]), NameOf(members[j]), false);
    }
  }

  /** With keys distinct up to case, both lookups find a member at its place. */
  lemma {:induction false} FindBoth(members: seq<Member>, name: string)
    requires Distinct(members, NameOf, false) && HasKey(members, name, true)
    ensures FindKey(members, name, false) == FindKey(members, name, true)
  {
    var i := FindKey(members, name, true);
    DenoteAt(members, i, false);
  }

  lemma SetMemberAt(members: seq<Member>, i: nat, item: Json, k: string)
    requires Distinct(members, NameOf, true) && i < |members|
    requires Distinct(members[i := Member(members[i].name, item)], NameOf, true)
    ensures var changed := DenoteMembers(members[i := Member(members[i].name, item)], true);
      var fields := DenoteMembers(members, true);
      && (k in changed <==> k in fields || k == members[i].name)
      && (k in changed ==> changed[k] == if k == members[i].name then Denote(item, true) else fields[k])
  {
    hide Distinct, DenoteMembers, Denote;
    var changed := members[i := Member(members[i].name, item)];
    DenoteAt(changed, i, true);
    DenoteAt(members, i, true);
    if k in DenoteMembers(changed, true) {
      DenoteKey(changed, k, true);
      var j :| 0 <= j < |changed| && Norm(changed[j].name, true) == k;
      DenoteAt(changed, j, true);
      DenoteAt(members, j, true);
    }
    if k in DenoteMembers(members, true) {
      DenoteKey(members, k, true);
      var j :| 0 <= j < |members| && Norm(members[j].name, true) == k;
      DenoteAt(changed, j, true);
    }
  }

  lemma DenoteSetMember(members: seq<Member>, i: nat, item: Json)
    requires Distinct(members, NameOf, false) && i < |members|
    ensures var changed := members[i := Member(members[i].name, item)];
      && Distinct(changed, NameOf, false)
      && DenoteMembers(changed, true) == DenoteMembers(members, true)[members[i].name := Denote(item, true)]
  {
    var changed := members[i := Member(members[i].name, item)];
    forall a, b | 0 <= a < b < |changed|
      ensures !SameKey(NameOf(changed[a]), NameOf(changed[b]), false)
    {
      assert NameOf(changed[a]) == NameOf(members[a]) && NameOf(changed[b]) == NameOf(members[b]);
    }
    FoldDistinct(members);
    FoldDistinct(changed);
    forall k
      ensures k in DenoteMembers(changed, true) <==> k in DenoteMembers(members, true) || k == members[i].name
      ensures k in DenoteMembers(changed, true) ==>
        DenoteMembers(changed, true)[k]
          == if k == members[i].name then Denote(item, true) else DenoteMembers(members, true)[k]
    {
      SetMemberAt(members, i, item, k);
    }
  }

  lemma {:induction false} DenoteRemoveMember(members: seq<Member>, i: nat)
    requires Distinct(members, NameOf, false) && i < |members|
    ensures Distinct(RemoveAt(members, i), NameOf, false)
    ensures DenoteMembers(RemoveAt(members, i), true) == DenoteMembers(members, true) - {members[i].name}
  {
    FoldDistinct(members);
    RemoveKeepsDistinct(members, i, false);
    DenoteRemove(members, i, true);
  }

  lemma {:induction false} DenoteAppendMember(members: seq<Member>, name: string, item: Json)
    requires Distinct(members, NameOf, false)
    requires forall m :: m in members ==> !SameKey(NameOf(m), name, false)
    ensures var longer := members + [Member(name, item)];
      && Distinct(longer, NameOf, false)
      && DenoteMembers(longer, true) == DenoteMembers(members, true)[name := Denote(item, true)]
  {
    DenoteAppend(members, Member(name, item), true);
  }

  // -------------------------------------------------- places in trees

  /** The position of a place. */
  function Locate(j: Json, p: Place): (path: Path)
    requires WellFormed(j, false) && HasPlace(Denote(j, true), p)
    ensures ValidPath(j, path)
    decreases p
  {
    if p == [] then []
    else
      LocateStep(j, p[0]);
      var i := StepIndex(j, p[0]);
      [i] + Locate(Child(j, i), p[1..])
  }

  function StepIndex(j: Json, s: Step): nat
    requires HasStep(Denote(j, true), s)
  {
    match s
    case Key(k) => FindKey(j.members, k, true)
    case Index(i) => i
  }

  lemma {:induction false} LocateStep(j: Json, s: Step)
    requires WellFormed(j, false) && HasStep(Denote(j, true), s)
    ensures StepIndex(j, s) < ChildCount(j)
    ensures Denote(Child(j, StepIndex(j, s)), true) == GetStep(Denote(j, true), s)
    ensures WellFormed(Child(j, StepIndex(j, s)), false)
  {
    if s.Key? {
      DenoteFind(j.members, s.name, true);
    }
  }

  lemma {:induction false} LocateToken(j: Json, s: Step, rest: string)
    requires HasStep(Denote(j, true), s) && TokenEnds(rest)
    ensures SelectChild(j, StepText(s)[1..] + rest, true) == Some(StepIndex(j, s))
    ensures SkipToken(StepText(s)[1..] + rest) == rest
  {
    match s {
      case Key(k) =>
        DenoteFind(j.members, k, true);
        assert StepText(s)[1..] == Encode(k);
        EncodeSlashFree(k);
        FindTokenIsFindKey(j.members, k, rest, true);
        SkipTokenExact(Encode(k), rest);
      case Index(i) =>
        assert StepText(s)[1..] == Decimal(i);
        DecodePrinted(i, rest);
        SkipTokenExact(Decimal(i), rest);
    }
  }

  lemma {:induction false} NodePlace(j: Json, p: Place)
    requires WellFormed(j, false) && HasPlace(Denote(j, true), p)
    ensures Denote(NodeAt(j, Locate(j, p)), true) == Get(Denote(j, true), p)
    ensures WellFormed(NodeAt(j, Locate(j, p)), false)
    decreases p
  {
    if p != [] {
      LocateStep(j, p[0]);
      var i := StepIndex(j, p[0]);
      NodePlace(Child(j, i), p[1..]);
      assert Locate(j, p)[1..] == Locate(Child(j, i), p[1..]);
    }
  }

  /** The pointer text of a place resolves to it. */
  lemma {:induction false} ResolvePlace(j: Json, p: Place)
    requires WellFormed(j, false) && HasPlace(Denote(j, true), p)
    ensures Resolve(j, PlaceText(p), true) == Some(Locate(j, p))
    decreases p
  {
    if p != [] {
      LocateStep(j, p[0]);
      var i, tail := StepIndex(j, p[0]), PlaceText(p[1..]);
      ResolvePlace(Child(j, i), p[1..]);
      LocateToken(j, p[0], tail);
      ResolveToken(j, StepText(p[0]), tail, i);
      assert Locate(j, p) == [i] + Locate(Child(j, i), p[1..]);
    }
  }

  lemma {:induction false} ResolveToken(j: Json, step: string, tail: string, i: nat)
    requires step != [] && step[0] == '/' && TokenEnds(tail) && i < ChildCount(j)
    requires SelectChild(j, step[1..] + tail, true) == Some(i) && SkipToken(step[1..] + tail) == tail
    ensures Resolve(j, step + tail, true) == Prepend(i, Resolve(Child(j, i), tail, true))
  {
    TailOfConcat(step, tail);
    ResolveUnfold(j, step + tail, true);
  }

  lemma {:induction false} ResolveUnfold(j: Json, pointer: string, cs: bool)
    requires pointer != [] && pointer[0] == '/'
    ensures var child := SelectChild(j, pointer[1..], cs);
      Resolve(j, pointer, cs)
        == if child.None? then None
           else Prepend(child.value, Resolve(Child(j, child.value), SkipToken(pointer[1..]), cs))
  {
  }

  /** Updating the tree at a place updates its value there. */
  lemma {:induction false} UpdatePlace(j: Json, p: Place, item: Json)
    requires WellFormed(j, false) && WellFormed(item, false) && HasPlace(Denote(j, true), p)
    ensures WellFormed(Update(j, Locate(j, p), item), false)
    ensures Denote(Update(j, Locate(j, p), item), true) == Put(Denote(j, true), p, Denote(item, true))
    decreases p
  {
    if p != [] {
      LocateStep(j, p[0]);
      var i := StepIndex(j, p[0]);
      var child := Child(j, i);
      UpdatePlace(child, p[1..], item);
      var inner := Update(child, Locate(child, p[1..]), item);
      assert Locate(j, p)[1..] == Locate(child, p[1..]);
      UpdateChild(j, p[0], inner);
    }
  }

  lemma {:induction false} UpdateChild(j: Json, s: Step, item: Json)
    requires WellFormed(j, false) && WellFormed(item, false) && HasStep(Denote(j, true), s)
    requires StepIndex(j, s) < ChildCount(j)
    ensures var r := Update(j, [StepIndex(j, s)], item);
      WellFormed(r, false) && Denote(r, true) == PutStep(Denote(j, true), s, Denote(item, true))
  {
    var i := StepIndex(j, s);
    assert [i][1..] == [];
    match s {
      case Key(k) =>
        DenoteSetMember(j.members, i, item);
      case Index(_) =>
        assert DenoteItems(j.items[i := item], true) == DenoteItems(j.items, true)[i := Denote(item, true)];
    }
  }
}
