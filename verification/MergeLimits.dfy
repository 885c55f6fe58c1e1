/** Where the merge patch round trip ends: plain keys are always ordered, a target
    without null is always safe, and a null or mixed-case keys below the top can break
    it. */
module MergeLimits {
  import opened Text
  import opened Sort
  import opened Json
  import opened Comparison
  import opened CompareLeaves
  import opened Duplicate
  import opened PatchLimits
  import opened MergePatch
  import opened MergeValues
  import opened MergeRoundTrip

  lemma PlainAgree(a: string, b: string)
    requires PlainKey(a) && PlainKey(b)
    ensures OrdersAgree(a, b)
  {
    FoldPlain(a);
    FoldPlain(b);
  }

  lemma {:induction false} PlainOrdered(from: Json, to: Json, cs: bool)
    requires PlainKeys(from) && PlainKeys(to)
    ensures Ordered(from, to, cs)
    decreases from
  {
    match (from, to) {
      case (Array(xs), Array(ys)) =>
        forall i | 0 <= i < |xs| && i < |ys|
          ensures Ordered(xs[i], ys[i], cs)
        {
          PlainOrdered(xs[i], ys[i], cs);
        }
      case (Object(ms), Object(ns)) =>
        var all := ms + ns;
        forall i, j | 0 <= i < |all| && 0 <= j < |all|
          ensures OrdersAgree(all[i].name, all[j].name)
        {
          PlainAgree(all[i].name, all[j].name);
        }
        forall i, j | 0 <= i < |ms| && 0 <= j < |ns| && ms[i].name == ns[j].name
          ensures Ordered(ms[i].item, ns[j].item, false)
        {
          PlainOrdered(ms[i].item, ns[j].item, false);
        }
      case _ =>
    }
  }

  lemma {:induction false} NullFreeSafe(f: Value, t: Value)
    requires NullFree(t)
    ensures NullSafe(f, t)
    decreases t
  {
    if t.VObject? && f.VObject? {
      forall k | k in t.fields
        ensures t.fields[k] != VNull
        ensures if k in f.fields then NullSafe(f.fields[k], t.fields[k]) else NullFree(t.fields[k])
      {
        if k in f.fields {
          NullFreeSafe(f.fields[k], t.fields[k]);
        }
      }
    }
  }

  /** With plain keys and no null in `to`, generating and merging restores `to`. */
  lemma {:induction false} PlainMergeRestores(from: Json, to: Json)
    requires PlainKeys(from) && PlainKeys(to) && WellFormed(from, true) && WellFormed(to, true)
    requires Height(to) <= CIRCULAR_LIMIT && NullFree(Denote(to, true))
    ensures var patch := Generate(from, to, true);
      && (patch.None? ==> Denote(from, true) == Denote(to, true))
      && (patch.Some? ==>
            var r := ApplyMerge(Some(from), patch.value, true);
            r.Some? && Denote(r.value, true) == Denote(to, true))
  {
    PlainOrdered(from, to, true);
    NullFreeSafe(Denote(from, true), Denote(to, true));
    MergeRestores(from, to);
  }

  lemma TwoSorted(a: Member, b: Member)
    requires a.name == "a" && b.name == "B"
    ensures SortList([a, b], NameOf, false) == [a, b] && SortList([b], NameOf, false) == [b]
  {
    assert Fold("a") == "a" && Fold("B") == "b" by {
      assert Fold("a")[0] == 'a' && Fold("B")[0] == 'b';
    }
    assert Ascending([a, b], NameOf, false);
  }

  /** Two members that are not in ascending order are swapped. */
  /** Below the top the generator sorts without case but walks with `strcmp`, so
      it meets `B` twice: first as new, then as removed. */
  lemma MixedCaseBreaks()
    ensures var a, b := Member("a", Number(1)), Member("B", Number(2));
      GenerateMembers(SortList([a, b], NameOf, false), SortList([b], NameOf, false), false)
        == [b, Member("a", Null), Member("B", Null)]
    ensures var a, b := Member("a", Number(1)), Member("B", Number(2));
      MergeMembers([a, b], [b, Member("a", Null), Member("B", Null)], false) == Some([])
  {
    var a, b := Member("a", Number(1)), Member("B", Number(2));
    TwoSorted(a, b);
    assert [a, b][1..] == [b] && [b][1..] == [];
    assert StrCmp("a", "B") > 0;
    assert GenerateMembers([], [], false) == [];
    assert GenerateMembers([b], [], false) == [Member("B", Null)] + [];
    assert GenerateMembers([a, b], [], false) == [Member("a", Null)] + [Member("B", Null)];
    assert GenerateMembers([a, b], [b], false) == [b] + [Member("a", Null), Member("B", Null)];
    MixedCaseMerge(a, b, false);
  }

  lemma {:induction false} MixedCaseMerge(a: Member, b: Member, cs: bool)
    requires a == Member("a", Number(1)) && b == Member("B", Number(2))
    ensures MergeMembers([a, b], [b, Member("a", Null), Member("B", Null)], cs) == Some([])
  {
    var p1, p2 := Member("a", Null), Member("B", Null);
    assert Fold("a") == "a" && Fold("B") == "b" && "a" != "B" by {
      assert Fold("a")[0] == 'a' && Fold("B")[0] == 'b';
    }
    assert [a, b][1..] == [b] && [b, p1, p2][1..] == [p1, p2] && [p1, p2][1..] == [p2] && [p2][1..] == [];
    assert FindKey([a, b], "B", cs) == 1;
    assert RemoveAt([a, b], 1) == [a] && RemoveAt([a, b], 0) == [b] && RemoveAt([b], 0) == [];
    assert MergeMembers([b], [p2], cs) == MergeMembers([], [], cs);
    assert MergeMembers([a, b], [p1, p2], cs) == MergeMembers([b], [p2], cs);
    assert [a] + [b] == [a, b];
  }

  lemma Alone(m: Member)
    ensures [m][1..] == [] && SortList([m], NameOf, true) == [m] == SortList([m], NameOf, false)
    ensures Object([m]).members == [m]
  {
  }

  /** The same for a whole pair and the case-sensitive functions: `B` is kept by both
      trees and lost by the patch. */
  lemma MixedCaseLoses()
    ensures var a, b := Member("a", Number(1)), Member("B", Number(2));
      var from, to := Object([Member("o", Object([a, b]))]), Object([Member("o", Object([b]))]);
      var patch := Generate(from, to, true);
      && patch == Some(Object([Member("o", Object([b, Member("a", Null), Member("B", Null)]))]))
      && ApplyMerge(Some(from), patch.value, true) == Some(Object([Member("o", Object([]))]))
  {
    hide SortList, CompareJson, StrCmp, AfterCompare, Generate, GenerateBelow, FindKey;
    var a, b := Member("a", Number(1)), Member("B", Number(2));
    var inner, outer := Object([a, b]), Object([b]);
    var from, to := Object([Member("o", inner)]), Object([Member("o", outer)]);
    var p := [b, Member("a", Null), Member("B", Null)];
    MixedCaseBelow(a, b);
    TwoDiffer(a, b);
    OnePatch("o", inner, outer, Object(p));
    MixedCaseMerge(a, b, true);
    MergeAlone("o", inner, Object(p), Object([]));
  }

  /** The comparison sorts with case first, and the recursion sorts again without. */
  lemma MixedCaseBelow(a: Member, b: Member)
    requires a == Member("a", Number(1)) && b == Member("B", Number(2))
    ensures GenerateBelow(Object([a, b]), Object([b]), true)
      == Some(Object([b, Member("a", Null), Member("B", Null)]))
  {
    hide SortList, GenerateMembers, Generate, AfterCompare, Fold;
    var inner, outer := Object([a, b]), Object([b]);
    assert AfterCompare(inner, outer, true) == Object([b, a]) && AfterCompare(outer, inner, true) == Object([b]) by {
      AfterMixed(a, b);
    }
    assert Compare("B", "a", false) >= 0 by { FoldedLetters(); }
    SwapSorted(b, a, NameOf, false);
    MixedCaseBreaks();
    TwoSorted(a, b);
    GenerateObjects([b, a], [b], false);
    AfterSize(inner, outer, true);
  }

  lemma FoldedLetters()
    ensures Compare("B", "a", false) >= 0 && Compare("A", "a", false) == 0
  {
    assert Fold("a") == "a" && Fold("B") == "b" && Fold("A") == "a" by {
      assert Fold("a")[0] == 'a' && Fold("B")[0] == 'b' && Fold("A")[0] == 'a';
    }
    StrCmpZero("a", "a");
  }

  lemma {:induction false} GenerateObjects(ms: seq<Member>, ns: seq<Member>, cs: bool)
    ensures var patch := GenerateMembers(SortList(ms, NameOf, cs), SortList(ns, NameOf, cs), cs);
      Generate(Object(ms), Object(ns), cs) == if patch == [] then None else Some(Object(patch))
  {
    hide GenerateMembers, SortList;
  }

  lemma AfterMixed(a: Member, b: Member)
    requires a == Member("a", Number(1)) && b == Member("B", Number(2))
    ensures AfterCompare(Object([a, b]), Object([b]), true) == Object([b, a])
    ensures AfterCompare(Object([b]), Object([a, b]), true) == Object([b])
  {
    hide SortList;
    var inner, outer := Object([a, b]), Object([b]);
    assert Compare("a", "B", true) > 0;
    SwapSorted(a, b, NameOf, true);
    Alone(b);
    StrCmpZero("B", "B");
    SortKeepsBelow([a, b], true, inner);
    SortKeepsBelow([b], true, outer);
    assert [b, a][1..] == [a] && [b][1..] == [];
    assert AfterMembers([b, a], [b], true, inner) == [b] + [a];
    assert AfterMembers([b], [b, a], true, outer) == [b] + [];
  }

  /** A pair with one key, whose items differ. */
  lemma {:induction false} OnePatch(name: string, from: Json, to: Json, patch: Json)
    requires !CompareJson(from, to, true) && GenerateBelow(from, to, true) == Some(patch)
    ensures Generate(Object([Member(name, from)]), Object([Member(name, to)]), true)
      == Some(Object([Member(name, patch)]))
  {
    hide SortList, CompareJson, GenerateBelow;
    var m, n := Member(name, from), Member(name, to);
    Alone(m);
    Alone(n);
    StrCmpZero(name, name);
    GenerateObjects([m], [n], true);
    assert GenerateMembers([], [], true) == [];
    NoSuffix([Member(name, patch)]);
    assert GenerateMembers([m], [n], true) == [Member(name, patch)];
  }

  lemma TwoDiffer(a: Member, b: Member)
    requires a == Member("a", Number(1)) && b == Member("B", Number(2))
    ensures !CompareJson(Object([a, b]), Object([b]), true)
  {
    var x, y := Object([a, b]), Object([b]);
    assert a.name != b.name;
    CompareJsonDecides(x, y, true);
    DenoteFind([a, b], "a", true);
    DenoteFind([b], "a", true);
    assert FindKey([a, b], "a", true) == 0;
    assert [b][1..] == [];
  }

  lemma {:induction false} MergeAlone(name: string, target: Json, patch: Json, after: Json)
    requires !patch.Null? && ApplyMerge(Some(target), patch, true) == Some(after)
    ensures ApplyMerge(Some(Object([Member(name, target)])), Object([Member(name, patch)]), true)
      == Some(Object([Member(name, after)]))
  {
    var ms, ps := [Member(name, target)], [Member(name, patch)];
    assert FindKey(ms, name, true) == 0;
    assert RemoveAt(ms, 0) == [] && ps[1..] == [];
    NoPrefix([Member(name, after)]);
    assert MergeMembers(ms, ps, true) == MergeMembers([] + [Member(name, after)], [], true);
  }

  /** A null in the target cannot be set: the patch that should add it removes it. */
  lemma NullLost()
    ensures var from, to := Object([]), Object([Member("a", Null)]);
      && Generate(from, to, true) == Some(to)
      && ApplyMerge(Some(from), to, true) == Some(from)
  {
    var from, m := Object([]), Member("a", Null);
    Alone(m);
    assert GenerateMembers([], [], true) == [];
    NoSuffix([m]);
    assert GenerateMembers([], [m], true) == [m] + [];
    assert MergeMembers([], [m], true) == MergeMembers([], [], true);
  }

  /** Keys below the top that differ by case alone need not hurt: both lists come to the
      recursion in one order, whatever order they had, and tie in the same way. */
  lemma TiedKeysMerge()
    ensures var f := [Member("A", Number(1)), Member("a", Number(2))];
      var t := [Member("a", Number(5)), Member("A", Number(1))];
      var from, to := Object([Member("x", Object(f))]), Object([Member("x", Object(t))]);
      var patch := Generate(from, to, true);
      && patch == Some(Object([Member("x", Object([Member("a", Number(5))]))]))
      && ApplyMerge(Some(from), patch.value, true)
           == Some(Object([Member("x", Object([Member("A", Number(1)), Member("a", Number(5))]))]))
  {
    hide SortList, CompareJson, AfterCompare, Generate, GenerateBelow, FindKey, MergeMembers;
    var upper, lower, other := Member("A", Number(1)), Member("a", Number(2)), Member("a", Number(5));
    TiedBelow(upper, lower, other);
    OnePatch("x", Object([upper, lower]), Object([other, upper]), Object([other]));
    TiedMerged(upper, lower, other);
    MergeAlone("x", Object([upper, lower]), Object([other]), Object([upper, other]));
  }

  lemma TiedBelow(upper: Member, lower: Member, other: Member)
    requires upper == Member("A", Number(1)) && lower == Member("a", Number(2)) && other == Member("a", Number(5))
    ensures !CompareJson(Object([upper, lower]), Object([other, upper]), true)
    ensures GenerateBelow(Object([upper, lower]), Object([other, upper]), true) == Some(Object([other]))
  {
    hide SortList, GenerateMembers, Generate, AfterCompare, CompareJson;
    var from, to := Object([upper, lower]), Object([other, upper]);
    AfterTied(upper, lower, other);
    FoldedLetters();
    SwapSorted(upper, lower, NameOf, false);
    SwapSorted(upper, other, NameOf, false);
    GenerateObjects([upper, lower], [upper, other], false);
    WalkTied(upper, lower, other);
    AfterSize(from, to, true);
  }

  lemma AfterTied(upper: Member, lower: Member, other: Member)
    requires upper == Member("A", Number(1)) && lower == Member("a", Number(2)) && other == Member("a", Number(5))
    ensures !CompareJson(Object([upper, lower]), Object([other, upper]), true)
    ensures AfterCompare(Object([upper, lower]), Object([other, upper]), true) == Object([upper, lower])
    ensures AfterCompare(Object([other, upper]), Object([upper, lower]), true) == Object([upper, other])
  {
    hide SortList;
    var from, to := Object([upper, lower]), Object([other, upper]);
    assert Compare("A", "a", true) < 0 && Compare("a", "A", true) > 0;
    StrCmpZero("A", "A");
    StrCmpZero("a", "a");
    KeptSorted(upper, lower, NameOf, true);
    SwapSorted(other, upper, NameOf, true);
    SortKeepsBelow([upper, lower], true, from);
    SortKeepsBelow([other, upper], true, to);
    assert [upper, lower][1..] == [lower] && [upper, other][1..] == [other] && [lower][1..] == [] && [other][1..] == [];
    assert AfterMembers([lower], [other], true, from) == [lower] + [];
    assert AfterMembers([other], [lower], true, to) == [other] + [];
    assert AfterMembers([upper, lower], [upper, other], true, from) == [upper] + [lower];
    assert AfterMembers([upper, other], [upper, lower], true, to) == [upper] + [other];
    assert !CompareMembers([lower], [other], true, from);
  }

  lemma WalkTied(upper: Member, lower: Member, other: Member)
    requires upper == Member("A", Number(1)) && lower == Member("a", Number(2)) && other == Member("a", Number(5))
    ensures GenerateMembers([lower, upper], [other, upper], false) == [other]
  {
    StrCmpZero("A", "A");
    StrCmpZero("a", "a");
    assert [lower, upper][1..] == [upper] && [other, upper][1..] == [upper] && [upper][1..] == [];
    assert GenerateBelow(Number(2), Number(5), false) == Some(Number(5));
    assert GenerateMembers([], [], false) == [];
    assert GenerateMembers([upper], [upper], false) == [] + [];
    assert GenerateMembers([lower, upper], [other, upper], false) == [other] + [];
  }

  lemma TiedMerged(upper: Member, lower: Member, other: Member)
    requires upper == Member("A", Number(1)) && lower == Member("a", Number(2)) && other == Member("a", Number(5))
    ensures ApplyMerge(Some(Object([upper, lower])), Object([other]), true) == Some(Object([upper, other]))
  {
    assert "A" != "a";
    assert [upper, lower][1..] == [lower] && [other][1..] == [];
    assert FindKey([upper, lower], "a", true) == 1;
    assert RemoveAt([upper, lower], 1) == [upper];
    assert MergeMembers([upper, lower], [other], true) == MergeMembers([upper] + [other], [], true);
    assert [upper] + [other] == [upper, other];
  }
}
