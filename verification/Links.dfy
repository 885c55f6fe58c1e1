/** What `prev` of the head of a child list leads to. In a whole list it is the tail, and
    `add_item_to_array` appends behind it; `sort_list` leaves it behind. */
module Links {
  import opened Text

  /** The tail, nothing, an item before the tail, or an item that has left the list. */
  datatype Back = Tail | Nowhere | Inside(i: nat) | Gone

  predicate BackFits(back: Back, length: nat)
  {
    back.Inside? ==> back.i + 1 < length
  }

  /** A list after an operation; undefined when an item that has left it would have to be
      linked. */
  datatype Relinked<T> = Undefined | Relinked(list: seq<T>, back: Back)

  /** `add_item_to_array`: the item goes behind what `prev` of the head leads to, and
      nowhere if that is NULL. */
  function Append<T>(xs: seq<T>, back: Back, x: T): Relinked<T>
  {
    if xs == [] then Relinked([x], Tail)
    else
      match back
      case Tail => Relinked(xs + [x], Tail)
      case Nowhere => Relinked(xs, Nowhere)
      case Inside(i) => if i < |xs| then Relinked(xs[..i + 1] + [x], Tail) else Undefined
      case Gone => Undefined
  }

  /** `cJSON_DetachItemViaPointer`: a new head inherits `prev`, a new tail repairs it. */
  function Take(back: Back, length: nat, i: nat): Back
    requires i < length
  {
    if length == 1 || (i == length - 1 && i > 0) then Tail
    else
      match back
      case Inside(j) => if j == i then Gone else if j > i then Inside(j - 1) else back
      case _ => back
  }

  /** The place of an element in a list that holds it. */
  function PlaceOf<T(==)>(xs: seq<T>, x: T): (p: nat)
    ensures p <= |xs| && (p < |xs| ==> xs[p] == x)
    ensures forall k :: 0 <= k < p ==> xs[k] != x
    ensures p == |xs| <==> x !in xs
  {
    if xs == [] || xs[0] == x then 0 else 1 + PlaceOf(xs[1..], x)
  }

  function LeadsTo<T(==)>(xs: seq<T>, x: T): Back
  {
    if PlaceOf(xs, x) == |xs| - 1 then Tail else Inside(PlaceOf(xs, x))
  }

  /** `sort_list` from one order of a list to another: `prev` stays with the head when the
      head stays, and is NULL otherwise. */
  function SortBack<T(==)>(back: Back, before: seq<T>, after: seq<T>): Back
    requires |before| == |after|
  {
    if |after| <= 1 then back
    else if after[0] != before[0] then Nowhere
    else
      match back
      case Tail => LeadsTo(after, before[|before| - 1])
      case Inside(i) => if i < |before| then LeadsTo(after, before[i]) else back
      case _ => back
  }

  /** The first and the last item are where they were. */
  predicate EndsStay<T(==)>(before: seq<T>, after: seq<T>)
    requires |before| == |after|
  {
    |after| <= 1 || (after[0] == before[0] && after[|after| - 1] == before[|before| - 1])
  }

  lemma AppendExact<T>(xs: seq<T>, back: Back, x: T)
    requires BackFits(back, |xs|)
    ensures var r := Append(xs, back, x);
      && (r == Relinked(xs + [x], Tail) <==> xs == [] || back == Tail)
      && (r.Relinked? ==> BackFits(r.back, |r.list|) && forall y :: y in r.list ==> y == x || y in xs)
      && (r.Relinked? && |r.list| == |xs| + 1 ==> xs == [] || back == Tail)
  {
    if xs == [] {
      NoPrefix([x]);
    } else {
      assert |xs + [x]| == |xs| + 1;
      assert back.Inside? ==> |xs[..back.i + 1] + [x]| < |xs| + 1;
    }
  }

  lemma TakeExact(back: Back, length: nat, i: nat)
    requires i < length && BackFits(back, length)
    ensures BackFits(Take(back, length, i), length - 1)
    ensures Take(back, length, i) == Tail <==> back == Tail || length == 1 || i == length - 1
  {
  }

  lemma {:induction false} PlaceUnrepeated<T(!new)>(xs: seq<T>, k: nat)
    requires k < |xs| && forall i, j :: 0 <= i < j < |xs| ==> xs[i] != xs[j]
    ensures PlaceOf(xs, xs[k]) == k
  {
  }

  /** After a sort of a whole list `prev` of the head leads to the tail exactly when both
      ends stay. */
  lemma {:induction false} SortBackExact<T(!new)>(back: Back, before: seq<T>, after: seq<T>)
    requires multiset(before) == multiset(after) && |before| == |after| && BackFits(back, |before|)
    requires forall i, j :: 0 <= i < j < |after| ==> after[i] != after[j]
    ensures BackFits(SortBack(back, before, after), |after|)
    ensures SortBack(Tail, before, after) == Tail <==> EndsStay(before, after)
  {
    hide PlaceOf;
    if |after| > 1 {
      var tail := before[|before| - 1];
      assert tail in multiset(before);
      assert tail in after;
      if back.Inside? {
        assert before[back.i] in multiset(before);
        assert before[back.i] in after;
      }
      if after[|after| - 1] == tail {
        PlaceUnrepeated(after, |after| - 1);
      }
    }
  }

  /** An add right after the sort of a whole list works exactly when both ends stayed. If
      another item has come first the new one is lost; if only the tail has moved,
      everything behind the old tail is lost instead. */
  lemma {:induction false} AppendAfterSort<T(!new)>(before: seq<T>, after: seq<T>, x: T)
    requires multiset(before) == multiset(after) && |before| == |after|
    requires forall i, j :: 0 <= i < j < |after| ==> after[i] != after[j]
    ensures var n, r := |after|, Append(after, SortBack(Tail, before, after), x);
      && (r == Relinked(after + [x], Tail) <==> EndsStay(before, after))
      && (n > 1 && after[0] != before[0] ==> r == Relinked(after, Nowhere))
      && (n > 1 && after[0] == before[0] && !EndsStay(before, after) ==>
            var tail := PlaceOf(after, before[n - 1]);
            tail < n - 1 && r == Relinked(after[..tail + 1] + [x], Tail))
  {
    hide PlaceOf;
    SortBackExact(Tail, before, after);
    AppendExact(after, SortBack(Tail, before, after), x);
    if |after| > 1 {
      assert before[|before| - 1] in multiset(after);
      assert before[|before| - 1] in after;
    }
  }
}
