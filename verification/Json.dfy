/** JSON trees as the child lists of libs/cjson/inc/cJSON.h hold them, and the
    values they stand for: an object is an ordered list of members, its value a
    finite map from keys. */
module Json {
  import opened Text
  import opened Sort

  /** A cJSON item by its type. `Number` keeps `valueint`; `Invalid` is what an
      item is before it is filled and after its root was removed. */
  datatype Json =
    | Invalid
    | Null
    | Bool(b: bool)
    | Number(n: int)
    | String(s: string)
    | Array(items: seq<Json>)
    | Object(members: seq<Member>)

  datatype Member = Member(name: string, item: Json)

  datatype Option<+T> = None | Some(value: T)

  datatype Value =
    | VInvalid
    | VNull
    | VBool(b: bool)
    | VNumber(n: int)
    | VString(s: string)
    | VArray(items: seq<Value>)
    | VObject(fields: map<string, Value>)

  function NameOf(m: Member): string
  {
    m.name
  }

  /** The name a key has in the map of its object. */
  function Norm(key: string, cs: bool): string
  {
    if cs then key else Fold(key)
  }

  /** What a tree stands for; of members with the same key the first one counts. */
  function Denote(j: Json, cs: bool): Value
    decreases j
  {
    match j
    case Invalid => VInvalid
    case Null => VNull
    case Bool(b) => VBool(b)
    case Number(n) => VNumber(n)
    case String(s) => VString(s)
    case Array(items) => VArray(DenoteItems(items, cs))
    case Object(members) => VObject(DenoteMembers(members, cs))
  }

  function DenoteItems(items: seq<Json>, cs: bool): (r: seq<Value>)
    ensures |r| == |items|
    ensures forall i :: 0 <= i < |items| ==> r[i] == Denote(items[i], cs)
    decreases items
  {
    if items == [] then [] else [Denote(items[0], cs)] + DenoteItems(items[1..], cs)
  }

  function DenoteMembers(members: seq<Member>, cs: bool): map<string, Value>
    decreases members
  {
    if members == [] then map[]
    else DenoteMembers(members[1..], cs)[Norm(members[0].name, cs) := Denote(members[0].item, cs)]
  }

  /** `get_object_item`: the first member with the key, or the number of members. */
  function FindKey(members: seq<Member>, name: string, cs: bool): (i: nat)
    ensures i <= |members|
    ensures i < |members| ==> SameKey(name, members[i].name, cs)
    ensures forall k :: 0 <= k < i ==> !SameKey(name, members[k].name, cs)
  {
    if members == [] then 0
    else if SameKey(name, members[0].name, cs) then 0
    else 1 + FindKey(members[1..], name, cs)
  }

  predicate HasKey(members: seq<Member>, name: string, cs: bool)
  {
    FindKey(members, name, cs) < |members|
  }

  /** No item is invalid and no object has two members with the same key. */
  predicate WellFormed(j: Json, cs: bool)
    decreases j
  {
    match j
    case Invalid => false
    case Array(items) => forall i :: 0 <= i < |items| ==> WellFormed(items[i], cs)
    case Object(members) =>
      && Distinct(members, NameOf, cs)
      && forall i :: 0 <= i < |members| ==> WellFormed(members[i].item, cs)
    case _ => true
  }

  /** Lookup in the list is lookup in the map. */
  lemma {:induction false} DenoteFind(members: seq<Member>, name: string, cs: bool)
    ensures HasKey(members, name, cs) <==> Norm(name, cs) in DenoteMembers(members, cs)
    ensures var i := FindKey(members, name, cs);
      i < |members| ==> DenoteMembers(members, cs)[Norm(name, cs)] == Denote(members[i].item, cs)
  {
    if members != [] && !SameKey(name, members[0].name, cs) {
      DenoteFind(members[1..], name, cs);
    }
  }

  /** Every member has its key in the map. */
  lemma {:induction false} NamedIn(ms: seq<Member>, i: nat)
    requires i < |ms|
    ensures ms[i].name in DenoteMembers(ms, true)
  {
    DenoteFind(ms, ms[i].name, true);
    assert SameKey(ms[i].name, ms[i].name, true);
  }

  /** Every key of the map comes from a member. */
  lemma {:induction false} DenoteKey(members: seq<Member>, k: string, cs: bool)
    requires k in DenoteMembers(members, cs)
    ensures exists i :: 0 <= i < |members| && Norm(members[i].name, cs) == k
  {
    if Norm(members[0].name, cs) != k {
      DenoteKey(members[1..], k, cs);
      var i :| 0 <= i < |members[1..]| && Norm(members[1..][i].name, cs) == k;
      assert Norm(members[i + 1].name, cs) == k;
    }
  }

  /** With distinct keys a member is found under its own name. */
  lemma {:induction false} DenoteAt(members: seq<Member>, i: nat, cs: bool)
    requires Distinct(members, NameOf, cs) && i < |members|
    ensures FindKey(members, members[i].name, cs) == i
    ensures Norm(members[i].name, cs) in DenoteMembers(members, cs)
    ensures DenoteMembers(members, cs)[Norm(members[i].name, cs)] == Denote(members[i].item, cs)
  {
    var j := FindKey(members, members[i].name, cs);
    DenoteFind(members, members[i].name, cs);
    if j < i {
      assert false;
    }
  }

  /** The order of members with distinct keys does not matter. */
  lemma {:induction false} DenotePermuted(xs: seq<Member>, ys: seq<Member>, cs: bool)
    requires multiset(xs) == multiset(ys) && Distinct(xs, NameOf, cs)
    ensures DenoteMembers(xs, cs) == DenoteMembers(ys, cs)
  {
    DistinctByMultiset(xs, ys, NameOf, cs);
    DenotePermutedInto(xs, ys, cs);
    DenotePermutedInto(ys, xs, cs);
  }

  lemma {:induction false} DenotePermutedInto(xs: seq<Member>, ys: seq<Member>, cs: bool)
    requires multiset(xs) == multiset(ys) && Distinct(xs, NameOf, cs) && Distinct(ys, NameOf, cs)
    ensures forall k :: k in DenoteMembers(xs, cs) ==>
      k in DenoteMembers(ys, cs) && DenoteMembers(ys, cs)[k] == DenoteMembers(xs, cs)[k]
  {
    forall k | k in DenoteMembers(xs, cs)
      ensures k in DenoteMembers(ys, cs) && DenoteMembers(ys, cs)[k] == DenoteMembers(xs, cs)[k]
    {
      DenoteKey(xs, k, cs);
      var i :| 0 <= i < |xs| && Norm(xs[i].name, cs) == k;
      assert xs[i] in multiset(ys);
      var j :| 0 <= j < |ys| && ys[j] == xs[i];
      DenoteAt(xs, i, cs);
      DenoteAt(ys, j, cs);
    }
  }

  lemma {:induction false} DenoteSorted(members: seq<Member>, cs: bool, order: bool)
    requires Distinct(members, NameOf, cs)
    ensures DenoteMembers(SortList(members, NameOf, order), cs) == DenoteMembers(members, cs)
  {
    SortPermutes(members, NameOf, order);
    DenotePermuted(members, SortList(members, NameOf, order), cs);
  }

  // ------------------------------------------------------- edits of a list

  function RemoveAt<T>(xs: seq<T>, i: nat): seq<T>
    requires i < |xs|
  {
    xs[..i] + xs[i + 1..]
  }

  function InsertAt<T>(xs: seq<T>, i: nat, x: T): seq<T>
    requires i <= |xs|
  {
    xs[..i] + [x] + xs[i..]
  }

  lemma RemainingAt<T>(xs: seq<T>, i: nat)
    requires i < |xs|
    ensures |RemoveAt(xs, i)| == |xs| - 1
    ensures forall k :: 0 <= k < |xs| - 1 ==> RemoveAt(xs, i)[k] == xs[if k < i then k else k + 1]
  {
  }

  lemma RemovedIn<T>(xs: seq<T>, i: nat)
    requires i < |xs|
    ensures |RemoveAt(xs, i)| == |xs| - 1 && xs[i] in xs && forall x :: x in RemoveAt(xs, i) ==> x in xs
  {
  }

  lemma RemoveFirst<T>(xs: seq<T>)
    requires xs != []
    ensures RemoveAt(xs, 0) == xs[1..]
  {
  }

  lemma DistinctTail(ms: seq<Member>, d: bool)
    requires Distinct(ms, NameOf, d) && ms != []
    ensures Distinct(ms[1..], NameOf, d)
  {
    forall i, j | 0 <= i < j < |ms[1..]|
      ensures !SameKey(NameOf(ms[1..][i]), NameOf(ms[1..][j]), d)
    {
      assert ms[1..][i] == ms[i + 1] && ms[1..][j] == ms[j + 1];
    }
  }

  lemma DistinctNames(before: seq<Member>, after: seq<Member>, d: bool)
    requires Distinct(before, NameOf, d)
    requires |before| == |after| && forall i :: 0 <= i < |before| ==> after[i].name == before[i].name
    ensures Distinct(after, NameOf, d)
  {
    forall i, j | 0 <= i < j < |after|
      ensures !SameKey(NameOf(after[i]), NameOf(after[j]), d)
    {
      assert NameOf(after[i]) == NameOf(before[i]) && NameOf(after[j]) == NameOf(before[j]);
    }
  }

  lemma DistinctAt(members: seq<Member>, i: nat, k: nat, cs: bool)
    requires Distinct(members, NameOf, cs) && i < |members| && k < |members| && i != k
    ensures !SameKey(members[i].name, members[k].name, cs)
  {
    assert NameOf(members[i]) == members[i].name && NameOf(members[k]) == members[k].name;
  }

  lemma SameSelf(key: string, cs: bool)
    ensures SameKey(key, key, cs)
  {
  }

  lemma RemainsIn(members: seq<Member>, i: nat, m: Member, cs: bool)
    requires Distinct(members, NameOf, cs) && i < |members|
    ensures m in RemoveAt(members, i) <==> m in members && !SameKey(m.name, members[i].name, cs)
  {
    hide SameKey, RemoveAt, Distinct;
    var rest := RemoveAt(members, i);
    RemainingAt(members, i);
    if m in rest {
      var j :| 0 <= j < |rest| && rest[j] == m;
      var k := if j < i then j else j + 1;
      assert members[k] == m;
      DistinctAt(members, k, i, cs);
    }
    if m in members && !SameKey(m.name, members[i].name, cs) {
      var k :| 0 <= k < |members| && members[k] == m;
      assert k != i by { SameSelf(m.name, cs); }
      assert rest[if k < i then k else k - 1] == m;
    }
  }

  lemma RemoveKeepsDistinct(members: seq<Member>, i: nat, cs: bool)
    requires Distinct(members, NameOf, cs) && i < |members|
    ensures Distinct(RemoveAt(members, i), NameOf, cs)
    ensures forall m :: m in RemoveAt(members, i) <==> m in members && !SameKey(m.name, members[i].name, cs)
  {
    hide SameKey;
    var rest := RemoveAt(members, i);
    forall a, b | 0 <= a < b < |rest|
      ensures !SameKey(NameOf(rest[a]), NameOf(rest[b]), cs)
    {
      var a', b' := if a < i then a else a + 1, if b < i then b else b + 1;
      assert rest[a] == members[a'] && rest[b] == members[b'] && a' < b';
    }
    forall m
      ensures m in rest <==> m in members && !SameKey(m.name, members[i].name, cs)
    {
      RemainsIn(members, i, m, cs);
    }
  }

  /** With distinct keys the map holds exactly the members. */
  lemma {:induction false} DenoteIsMembers(members: seq<Member>, k: string, cs: bool)
    requires Distinct(members, NameOf, cs)
    ensures k in DenoteMembers(members, cs) <==> exists m :: m in members && Norm(m.name, cs) == k
    ensures forall m :: m in members && Norm(m.name, cs) == k ==>
      k in DenoteMembers(members, cs) && DenoteMembers(members, cs)[k] == Denote(m.item, cs)
  {
    if k in DenoteMembers(members, cs) {
      DenoteKey(members, k, cs);
      var i :| 0 <= i < |members| && Norm(members[i].name, cs) == k;
      assert members[i] in members;
    }
    forall m | m in members && Norm(m.name, cs) == k
      ensures k in DenoteMembers(members, cs) && DenoteMembers(members, cs)[k] == Denote(m.item, cs)
    {
      var i :| 0 <= i < |members| && members[i] == m;
      DenoteAt(members, i, cs);
    }
  }

  lemma {:induction false} DenoteRemoveAt(members: seq<Member>, i: nat, k: string, cs: bool)
    requires Distinct(members, NameOf, cs) && i < |members|
    ensures var rest := RemoveAt(members, i);
      && (k in DenoteMembers(rest, cs) <==> k in DenoteMembers(members, cs) && k != Norm(members[i].name, cs))
      && (k in DenoteMembers(rest, cs) ==> DenoteMembers(rest, cs)[k] == DenoteMembers(members, cs)[k])
  {
    hide DenoteMembers, Denote, RemoveAt, Distinct, Fold;
    var rest := RemoveAt(members, i);
    RemoveKeepsDistinct(members, i, cs);
    DenoteIsMembers(rest, k, cs);
    DenoteIsMembers(members, k, cs);
    if k in DenoteMembers(rest, cs) {
      var m :| m in rest && Norm(m.name, cs) == k;
      assert m in members;
    }
    if k in DenoteMembers(members, cs) && k != Norm(members[i].name, cs) {
      var m :| m in members && Norm(m.name, cs) == k;
      assert m in rest;
    }
  }

  lemma {:induction false} DenoteRemove(members: seq<Member>, i: nat, cs: bool)
    requires Distinct(members, NameOf, cs) && i < |members|
    ensures DenoteMembers(RemoveAt(members, i), cs) == DenoteMembers(members, cs) - {Norm(members[i].name, cs)}
  {
    var rest := RemoveAt(members, i);
    RemoveKeepsDistinct(members, i, cs);
    forall k
      ensures k in DenoteMembers(rest, cs) <==> k in DenoteMembers(members, cs) && k != Norm(members[i].name, cs)
      ensures k in DenoteMembers(rest, cs) ==> DenoteMembers(rest, cs)[k] == DenoteMembers(members, cs)[k]
    {
      DenoteRemoveAt(members, i, k, cs);
    }
  }

  lemma {:induction false} DenoteAppend(members: seq<Member>, m: Member, cs: bool)
    requires forall x :: x in members ==> !SameKey(NameOf(x), m.name, cs)
    ensures DenoteMembers(members + [m], cs) == DenoteMembers(members, cs)[Norm(m.name, cs) := Denote(m.item, cs)]
  {
    if members == [] {
      assert [m][1..] == [];
      NoPrefix([m]);
    } else {
      TailOfConcat(members, [m]);
      assert members == [members[0]] + members[1..];
      DenoteAppend(members[1..], m, cs);
      var rest, k, l := DenoteMembers(members[1..], cs), Norm(m.name, cs), Norm(members[0].name, cs);
      assert k != l by { assert !SameKey(NameOf(members[0]), m.name, cs); }
      assert rest[k := Denote(m.item, cs)][l := Denote(members[0].item, cs)]
          == rest[l := Denote(members[0].item, cs)][k := Denote(m.item, cs)];
    }
  }
}
