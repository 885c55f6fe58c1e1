/** Documents as they are while patches are applied. A TEST sorts child lists in place
    with `sort_list`, which leaves `prev` of the head behind; a later add trusts it. Here
    an object carries what `prev` of its head leads to. */
module LiveTrees {
  import opened Text
  import opened Sort
  import opened Json
  import opened Links
  import opened Comparison
  import opened CompareLeaves
  import opened Pointer
  import opened Patch

  datatype Live =
    | Atom(value: Json)
    | Items(items: seq<Live>)
    | Members(members: seq<LiveMember>, back: Back)

  datatype LiveMember = LiveMember(name: string, item: Live)

  /** The tree without its links. */
  function Plain(l: Live): Json
    decreases l
  {
    match l
    case Atom(v) => v
    case Items(xs) => Array(PlainItems(xs))
    case Members(ms, _) => Object(PlainMembers(ms))
  }

  function PlainItems(xs: seq<Live>): (r: seq<Json>)
    ensures |r| == |xs| && forall i :: 0 <= i < |xs| ==> r[i] == Plain(xs[i])
    decreases xs
  {
    if xs == [] then [] else [Plain(xs[0])] + PlainItems(xs[1..])
  }

  function PlainMember(m: LiveMember): Member
    decreases m, 1
  {
    Member(m.name, Plain(m.item))
  }

  function PlainMembers(ms: seq<LiveMember>): (r: seq<Member>)
    ensures |r| == |ms| && forall i :: 0 <= i < |ms| ==> r[i] == PlainMember(ms[i])
    decreases ms
  {
    if ms == [] then [] else [PlainMember(ms[0])] + PlainMembers(ms[1..])
  }

  /** Atoms have no children, and an item inside a list is before its tail. */
  predicate Proper(l: Live)
    decreases l
  {
    match l
    case Atom(v) => !v.Array? && !v.Object?
    case Items(xs) => forall i :: 0 <= i < |xs| ==> Proper(xs[i])
    case Members(ms, back) => BackFits(back, |ms|) && forall i :: 0 <= i < |ms| ==> Proper(ms[i].item)
  }

  /** Every head's `prev` is the tail. */
  predicate Whole(l: Live)
    decreases l
  {
    match l
    case Atom(v) => !v.Array? && !v.Object?
    case Items(xs) => forall i :: 0 <= i < |xs| ==> Whole(xs[i])
    case Members(ms, back) => back == Tail && forall i :: 0 <= i < |ms| ==> Whole(ms[i].item)
  }

  lemma {:induction false} WholeProper(l: Live)
    requires Whole(l)
    ensures Proper(l)
    decreases l
  {
    match l
    case Atom(_) =>
    case Items(xs) =>
      forall i | 0 <= i < |xs|
        ensures Proper(xs[i])
      {
        WholeProper(xs[i]);
      }
    case Members(ms, _) =>
      forall i | 0 <= i < |ms|
        ensures Proper(ms[i].item)
      {
        WholeProper(ms[i].item);
      }
  }

  /** A tree as the parser and `cJSON_Duplicate` build it. */
  function Fresh(j: Json): (l: Live)
    ensures Whole(l)
    decreases j
  {
    match j
    case Array(items) => Items(FreshItems(items))
    case Object(members) => Members(FreshMembers(members), Tail)
    case _ => Atom(j)
  }

  function FreshItems(items: seq<Json>): (r: seq<Live>)
    ensures |r| == |items| && forall i :: 0 <= i < |r| ==> Whole(r[i])
    decreases items
  {
    if items == [] then [] else [Fresh(items[0])] + FreshItems(items[1..])
  }

  function FreshMembers(members: seq<Member>): (r: seq<LiveMember>)
    ensures |r| == |members| && forall i :: 0 <= i < |r| ==> Whole(r[i].item)
    decreases members
  {
    if members == [] then []
    else [LiveMember(members[0].name, Fresh(members[0].item))] + FreshMembers(members[1..])
  }

  lemma {:induction false} FreshPlain(j: Json)
    ensures Plain(Fresh(j)) == j
    decreases j
  {
    match j
    case Array(items) => FreshItemsPlain(items);
    case Object(members) => FreshMembersPlain(members);
    case _ =>
  }

  lemma {:induction false} FreshItemsPlain(items: seq<Json>)
    ensures PlainItems(FreshItems(items)) == items
    decreases items
  {
    if items != [] {
      FreshPlain(items[0]);
      FreshItemsPlain(items[1..]);
      HeadTail(items);
    }
  }

  lemma {:induction false} FreshMembersPlain(members: seq<Member>)
    ensures PlainMembers(FreshMembers(members)) == members
    decreases members
  {
    if members != [] {
      FreshPlain(members[0].item);
      FreshMembersPlain(members[1..]);
      HeadTail(members);
    }
  }

  // ---------------------------------------------------------- sorting in place

  /** An item and its place before the sort. */
  datatype Numbered = Numbered(index: nat, member: LiveMember)

  function NumberedName(n: Numbered): string
  {
    n.member.name
  }

  function WithPlaces(ms: seq<LiveMember>): (r: seq<Numbered>)
    ensures |r| == |ms| && forall i :: 0 <= i < |ms| ==> r[i] == Numbered(i, ms[i])
  {
    seq(|ms|, i requires 0 <= i < |ms| => Numbered(i, ms[i]))
  }

  function Unnumber(ns: seq<Numbered>): (r: seq<LiveMember>)
    ensures |r| == |ns| && forall i :: 0 <= i < |ns| ==> r[i] == ns[i].member
  {
    seq(|ns|, i requires 0 <= i < |ns| => ns[i].member)
  }

  function SortItems(ms: seq<LiveMember>, cs: bool): (r: seq<Numbered>)
    ensures |r| == |ms|
  {
    SortList(WithPlaces(ms), NumberedName, cs)
  }

  function Mapped<S, T>(xs: seq<S>, f: S -> T): (r: seq<T>)
    ensures |r| == |xs| && forall i :: 0 <= i < |xs| ==> r[i] == f(xs[i])
  {
    seq(|xs|, i requires 0 <= i < |xs| => f(xs[i]))
  }

  lemma MappedNone<S, T>(xs: seq<S>, f: S -> T)
    ensures xs == [] <==> Mapped(xs, f) == []
  {
  }

  lemma MappedHead<S, T>(xs: seq<S>, f: S -> T)
    requires xs != []
    ensures Mapped(xs, f) != [] && Mapped(xs, f)[0] == f(xs[0]) && Mapped(xs, f)[1..] == Mapped(xs[1..], f)
  {
  }

  lemma MappedCons<S, T>(x: S, xs: seq<S>, f: S -> T)
    ensures Mapped([x] + xs, f) == [f(x)] + Mapped(xs, f)
  {
  }

  lemma {:induction false} MergeMapped<S, T>(xs: seq<S>, ys: seq<S>, f: S -> T, k: S -> string, l: T -> string,
                                             cs: bool)
    requires forall x :: x in xs || x in ys ==> l(f(x)) == k(x)
    ensures Merge(Mapped(xs, f), Mapped(ys, f), l, cs) == Mapped(Merge(xs, ys, k, cs), f)
  {
    hide Compare, Mapped;
    if xs == [] || ys == [] {
      MappedNone(xs, f);
      MappedNone(ys, f);
    } else {
      MappedHead(xs, f);
      MappedHead(ys, f);
      assert xs[0] in xs && ys[0] in ys;
      if Compare(k(xs[0]), k(ys[0]), cs) < 0 {
        MergeMapped(xs[1..], ys, f, k, l, cs);
        MappedCons(xs[0], Merge(xs[1..], ys, k, cs), f);
      } else {
        MergeMapped(xs, ys[1..], f, k, l, cs);
        MappedCons(ys[0], Merge(xs, ys[1..], k, cs), f);
      }
    }
  }

  lemma {:induction false} SortedKeys<S, T>(xs: seq<S>, ys: seq<S>, f: S -> T, k: S -> string, l: T -> string, cs: bool)
    requires forall x :: x in xs || x in ys ==> l(f(x)) == k(x)
    ensures forall x :: x in SortList(xs, k, cs) || x in SortList(ys, k, cs) ==> l(f(x)) == k(x)
  {
    hide SortList;
    forall x | x in SortList(xs, k, cs) || x in SortList(ys, k, cs)
      ensures l(f(x)) == k(x)
    {
      SortMembers(xs, k, cs, x);
      SortMembers(ys, k, cs, x);
    }
  }

  /** Sorting looks at nothing but the keys. */
  lemma {:induction false} SortMapped<S, T>(xs: seq<S>, f: S -> T, k: S -> string, l: T -> string, cs: bool)
    requires forall x :: x in xs ==> l(f(x)) == k(x)
    ensures SortList(Mapped(xs, f), l, cs) == Mapped(SortList(xs, k, cs), f)
    decreases |xs|
  {
    hide Compare, Merge, Mapped, SortList, Ascending;
    AscendingMapped(xs, f, k, l, cs);
    SortUnfold(xs, k, cs);
    SortUnfold(Mapped(xs, f), l, cs);
    if |xs| > 1 && !Ascending(xs, k, cs) {
      var left, right := xs[..(|xs| + 1) / 2], xs[(|xs| + 1) / 2..];
      SplitMapped(xs, (|xs| + 1) / 2, f);
      SortMapped(left, f, k, l, cs);
      SortMapped(right, f, k, l, cs);
      SortedKeys(left, right, f, k, l, cs);
      MergeMapped(SortList(left, k, cs), SortList(right, k, cs), f, k, l, cs);
    }
  }

  lemma AscendingMapped<S, T>(xs: seq<S>, f: S -> T, k: S -> string, l: T -> string, cs: bool)
    requires forall x :: x in xs ==> l(f(x)) == k(x)
    ensures Ascending(Mapped(xs, f), l, cs) <==> Ascending(xs, k, cs)
  {
    hide Compare;
    forall i | 0 <= i < |xs| - 1
      ensures Compare(l(Mapped(xs, f)[i]), l(Mapped(xs, f)[i + 1]), cs) == Compare(k(xs[i]), k(xs[i + 1]), cs)
    {
      assert xs[i] in xs && xs[i + 1] in xs;
    }
  }

  lemma SplitMapped<S, T>(xs: seq<S>, i: nat, f: S -> T)
    requires i <= |xs|
    ensures Mapped(xs, f)[..i] == Mapped(xs[..i], f) && Mapped(xs, f)[i..] == Mapped(xs[i..], f)
  {
  }

  /** The items come in the order in which the plain members are sorted. */
  lemma {:induction false} SortPlain(ms: seq<LiveMember>, cs: bool)
    ensures PlainMembers(Unnumber(SortItems(ms, cs))) == SortList(PlainMembers(ms), NameOf, cs)
  {
    hide SortList;
    var f := (n: Numbered) => PlainMember(n.member);
    SortMapped(WithPlaces(ms), f, NumberedName, NameOf, cs);
    assert Mapped(WithPlaces(ms), f) == PlainMembers(ms);
    assert Mapped(SortItems(ms, cs), f) == PlainMembers(Unnumber(SortItems(ms, cs)));
  }

  lemma SortedFrom(ms: seq<LiveMember>, cs: bool)
    ensures forall n :: n in SortItems(ms, cs) <==> n in WithPlaces(ms)
  {
    hide SortList;
    forall n
      ensures n in SortItems(ms, cs) <==> n in WithPlaces(ms)
    {
      SortMembers(WithPlaces(ms), NumberedName, cs, n);
    }
  }

  lemma SortedInside(ms: seq<LiveMember>, cs: bool)
    ensures forall m :: m in Unnumber(SortItems(ms, cs)) ==> m in ms
  {
    hide SortList, SortItems;
    SortedFrom(ms, cs);
    var ns := SortItems(ms, cs);
    forall m | m in Unnumber(ns)
      ensures m in ms
    {
      var i :| 0 <= i < |ns| && Unnumber(ns)[i] == m;
      assert ns[i] in WithPlaces(ms);
    }
  }

  /** No item comes twice out of the sort. */
  lemma OnceIn(ns: seq<Numbered>, from: seq<Numbered>, p: nat, q: nat)
    requires multiset(ns) == multiset(from) && p < q < |ns|
    requires forall i :: 0 <= i < |from| ==> from[i].index == i
    ensures ns[p] != ns[q]
  {
    if ns[p] == ns[q] {
      CountTwice(ns, p, q);
      CountIndex(from, ns[p]);
    }
  }

  lemma {:induction false} CountIndex(from: seq<Numbered>, n: Numbered)
    requires forall i, j :: 0 <= i < j < |from| ==> from[i].index != from[j].index
    ensures multiset(from)[n] <= 1
    decreases |from|
  {
    if from != [] {
      CountIndex(from[1..], n);
      HeadTail(from);
      if n == from[0] {
        assert n !in from[1..];
      }
    }
  }

  lemma {:induction false} SortedOnce(ms: seq<LiveMember>, cs: bool)
    ensures var ns := SortItems(ms, cs);
      && multiset(WithPlaces(ms)) == multiset(ns)
      && forall i, j :: 0 <= i < j < |ns| ==> ns[i] != ns[j]
  {
    hide SortList;
    SortPermutes(WithPlaces(ms), NumberedName, cs);
    var ns := SortItems(ms, cs);
    forall i, j | 0 <= i < j < |ns|
      ensures ns[i] != ns[j]
    {
      OnceIn(ns, WithPlaces(ms), i, j);
    }
  }

  /** What `prev` of the head leads to after the sort. */
  function SortedBack(back: Back, ms: seq<LiveMember>, cs: bool): Back
  {
    SortBack(back, WithPlaces(ms), SortItems(ms, cs))
  }

  lemma {:induction false} SortedBackFits(back: Back, ms: seq<LiveMember>, cs: bool)
    requires BackFits(back, |ms|)
    ensures BackFits(SortedBack(back, ms, cs), |ms|)
  {
    hide SortItems, SortBack;
    SortedOnce(ms, cs);
    SortBackExact(back, WithPlaces(ms), SortItems(ms, cs));
  }

  /** A document after `compare_json` with a plain tree. */
  function LiveAfter(l: Live, b: Json, cs: bool): Live
    decreases l, 1, 0
  {
    match (l, b)
    case (Items(xs), Array(ys)) => Items(LiveAfterItems(xs, ys, cs))
    case (Members(ms, back), Object(ns)) =>
      SortedInside(ms, cs);
      Members(LiveAfterMembers(Unnumber(SortItems(ms, cs)), SortList(ns, NameOf, cs), cs, l), SortedBack(back, ms, cs))
    case _ => l
  }

  function LiveAfterItems(xs: seq<Live>, ys: seq<Json>, cs: bool): (r: seq<Live>)
    ensures |r| == |xs|
    decreases xs, 0, 0
  {
    if xs == [] || ys == [] then xs
    else
      [LiveAfter(xs[0], ys[0], cs)]
      + if CompareJson(Plain(xs[0]), ys[0], cs) then LiveAfterItems(xs[1..], ys[1..], cs) else xs[1..]
  }

  function LiveAfterMembers(ms: seq<LiveMember>, ns: seq<Member>, cs: bool, ghost owner: Live): (r: seq<LiveMember>)
    requires forall m :: m in ms ==> m.item < owner
    ensures |r| == |ms| && forall i :: 0 <= i < |ms| ==> r[i].name == ms[i].name
    decreases owner, 0, |ms|
  {
    if ms == [] || ns == [] || Compare(ms[0].name, ns[0].name, cs) != 0 then ms
    else
      [LiveMember(ms[0].name, LiveAfter(ms[0].item, ns[0].item, cs))]
      + if CompareJson(Plain(ms[0].item), ns[0].item, cs) then LiveAfterMembers(ms[1..], ns[1..], cs, owner)
        else ms[1..]
  }

  /** Without its links it is the tree `compare_json` leaves. */
  lemma {:induction false} LiveAfterPlain(l: Live, b: Json, cs: bool)
    requires Proper(l)
    ensures Proper(LiveAfter(l, b, cs)) && Plain(LiveAfter(l, b, cs)) == AfterCompare(Plain(l), b, cs)
    decreases l, 2, 0
  {
    match (l, b) {
      case (Items(xs), Array(ys)) => LiveAfterItemsPlain(xs, ys, cs);
      case (Members(ms, back), Object(ns)) =>
        LiveAfterObjectPlain(l, ms, back, ns, cs);
      case _ =>
    }
  }

  lemma {:induction false} LiveAfterObjectPlain(l: Live, ms: seq<LiveMember>, back: Back, ns: seq<Member>, cs: bool)
    requires l == Members(ms, back) && Proper(l)
    ensures var r := LiveAfter(l, Object(ns), cs); Proper(r) && Plain(r) == AfterCompare(Plain(l), Object(ns), cs)
    decreases l, 1, 0
  {
    hide SortList, SortItems, LiveAfterMembers, AfterMembers, Unnumber, PlainMembers, LiveAfter, AfterCompare,
      SortedBack,
      CompareJson;
    var plain := PlainMembers(ms);
    LiveAfterIs(l, ms, back, ns, cs);
    SortedInside(ms, cs);
    SortPlain(ms, cs);
    SortedBackFits(back, ms, cs);
    SortKeepsBelow(plain, cs, Object(plain));
    AfterCompareIs(plain, ns, cs);
    LiveAfterMembersPlain(Unnumber(SortItems(ms, cs)), SortList(ns, NameOf, cs), cs, l, Object(plain));
  }

  lemma {:induction false} LiveAfterIs(l: Live, ms: seq<LiveMember>, back: Back, ns: seq<Member>, cs: bool)
    requires l == Members(ms, back)
    ensures forall m :: m in Unnumber(SortItems(ms, cs)) ==> m.item < l
    ensures LiveAfter(l, Object(ns), cs)
      == Members(LiveAfterMembers(Unnumber(SortItems(ms, cs)), SortList(ns, NameOf, cs), cs, l),
                 SortedBack(back, ms, cs))
  {
    hide SortList, SortItems, LiveAfterMembers, Unnumber, SortedBack;
    SortedInside(ms, cs);
  }

  lemma {:induction false} AfterCompareIs(ms: seq<Member>, ns: seq<Member>, cs: bool)
    ensures forall m :: m in SortList(ms, NameOf, cs) ==> m.item < Object(ms)
    ensures AfterCompare(Object(ms), Object(ns), cs)
      == Object(AfterMembers(SortList(ms, NameOf, cs), SortList(ns, NameOf, cs), cs, Object(ms)))
  {
    hide SortList, AfterMembers;
    SortKeepsBelow(ms, cs, Object(ms));
  }

  lemma {:induction false} LiveAfterItemsPlain(xs: seq<Live>, ys: seq<Json>, cs: bool)
    requires forall x :: x in xs ==> Proper(x)
    ensures forall x :: x in LiveAfterItems(xs, ys, cs) ==> Proper(x)
    ensures PlainItems(LiveAfterItems(xs, ys, cs)) == AfterItems(PlainItems(xs), ys, cs)
    decreases xs, 0, 0
  {
    hide CompareJson, Proper, Plain, LiveAfter, AfterCompare;
    if xs != [] && ys != [] {
      LiveAfterPlain(xs[0], ys[0], cs);
      LiveAfterItemsPlain(xs[1..], ys[1..], cs);
      InTail(xs);
    }
  }

  lemma {:induction false} LiveAfterMembersPlain(ms: seq<LiveMember>, ns: seq<Member>, cs: bool, owner: Live,
                                                 plain: Json)
    requires forall m :: m in ms ==> m.item < owner && Proper(m.item)
    requires forall m :: m in PlainMembers(ms) ==> m.item < plain
    ensures forall m :: m in LiveAfterMembers(ms, ns, cs, owner) ==> Proper(m.item)
    ensures PlainMembers(LiveAfterMembers(ms, ns, cs, owner)) == AfterMembers(PlainMembers(ms), ns, cs, plain)
    decreases owner, 0, |ms|
  {
    hide CompareJson, Compare, Proper, Plain, LiveAfter, AfterCompare, PlainMembers;
    if ms != [] && ns != [] {
      LiveAfterPlain(ms[0].item, ns[0].item, cs);
      PlainHead(ms);
      LiveAfterMembersPlain(ms[1..], ns[1..], cs, owner, plain);
      InTail(ms);
      PlainCons(LiveMember(ms[0].name, LiveAfter(ms[0].item, ns[0].item, cs)),
                if CompareJson(Plain(ms[0].item), ns[0].item, cs) then LiveAfterMembers(ms[1..], ns[1..], cs, owner)
                else ms[1..]);
    }
  }

  lemma {:induction false} PlainHead(ms: seq<LiveMember>)
    requires ms != []
    ensures PlainMembers(ms)[1..] == PlainMembers(ms[1..]) && PlainMembers(ms)[0] == PlainMember(ms[0])
    ensures forall m :: m in PlainMembers(ms[1..]) ==> m in PlainMembers(ms)
  {
    hide Plain;
  }

  lemma {:induction false} PlainCons(m: LiveMember, ms: seq<LiveMember>)
    ensures PlainMembers([m] + ms) == [PlainMember(m)] + PlainMembers(ms)
  {
    hide Plain;
    assert ([m] + ms)[1..] == ms;
  }

  // -------------------------------------------------------------- positions

  function LiveAt(l: Live, path: Path): (r: Live)
    requires Proper(l) && ValidPath(Plain(l), path)
    ensures Proper(r) && Plain(r) == NodeAt(Plain(l), path)
    decreases path
  {
    if path == [] then l
    else if l.Items? then LiveAt(l.items[path[0]], path[1..])
    else LiveAt(l.members[path[0]].item, path[1..])
  }

  function LiveUpdate(l: Live, path: Path, x: Live): (r: Live)
    requires Proper(l) && ValidPath(Plain(l), path)
    ensures Plain(r) == Update(Plain(l), path, Plain(x))
    ensures Proper(x) ==> Proper(r)
    ensures Whole(l) && Whole(x) ==> Whole(r)
    decreases path
  {
    if path == [] then x
    else if l.Items? then
      var inner := LiveUpdate(l.items[path[0]], path[1..], x);
      assert PlainItems(l.items[path[0] := inner]) == PlainItems(l.items)[path[0] := Plain(inner)];
      Items(l.items[path[0] := inner])
    else
      var m := l.members[path[0]];
      var inner := LiveMember(m.name, LiveUpdate(m.item, path[1..], x));
      assert PlainMembers(l.members[path[0] := inner]) == PlainMembers(l.members)[path[0] := PlainMember(inner)];
      Members(l.members[path[0] := inner], l.back)
  }

  lemma {:induction false} LiveAtWhole(l: Live, path: Path)
    requires Whole(l) && Proper(l) && ValidPath(Plain(l), path)
    ensures Whole(LiveAt(l, path))
    decreases path
  {
    if path != [] {
      if l.Items? {
        LiveAtWhole(l.items[path[0]], path[1..]);
      } else {
        LiveAtWhole(l.members[path[0]].item, path[1..]);
      }
    }
  }
}
