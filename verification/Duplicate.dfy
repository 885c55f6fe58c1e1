/** `cJSON_Duplicate`, whose recursion stops at CJSON_CIRCULAR_LIMIT. */
module Duplicate {
  import opened Text
  import opened Json

  const CIRCULAR_LIMIT: nat := 10000

  /** `cJSON_Duplicate_rec` with recursion; `None` stands for NULL. */
  function DuplicateRec(j: Json, depth: nat): Option<Json>
    decreases j
  {
    match j
    case Array(items) =>
      var copies := DuplicateItems(items, depth);
      if copies.None? then None else Some(Array(copies.value))
    case Object(members) =>
      var copies := DuplicateMembers(members, depth);
      if copies.None? then None else Some(Object(copies.value))
    case _ => Some(j)
  }

  function DuplicateItems(items: seq<Json>, depth: nat): Option<seq<Json>>
    decreases items
  {
    if items == [] then Some([])
    else if depth >= CIRCULAR_LIMIT then None
    else
      var copy := DuplicateRec(items[0], depth + 1);
      if copy.None? then None
      else
        var rest := DuplicateItems(items[1..], depth);
        if rest.None? then None else Some([copy.value] + rest.value)
  }

  function DuplicateMembers(members: seq<Member>, depth: nat): Option<seq<Member>>
    decreases members
  {
    if members == [] then Some([])
    else if depth >= CIRCULAR_LIMIT then None
    else
      var copy := DuplicateRec(members[0].item, depth + 1);
      if copy.None? then None
      else
        var rest := DuplicateMembers(members[1..], depth);
        if rest.None? then None else Some([Member(members[0].name, copy.value)] + rest.value)
  }

  /** The number of nested non-empty containers. */
  function Height(j: Json): nat
    decreases j
  {
    match j
    case Array(items) => HeightItems(items)
    case Object(members) => HeightMembers(members)
    case _ => 0
  }

  function HeightItems(items: seq<Json>): (h: nat)
    ensures items != [] ==> h > 0
    ensures forall i :: 0 <= i < |items| ==> Height(items[i]) < h
    decreases items
  {
    if items == [] then 0 else Max(1 + Height(items[0]), HeightItems(items[1..]))
  }

  function HeightMembers(members: seq<Member>): (h: nat)
    ensures members != [] ==> h > 0
    ensures forall i :: 0 <= i < |members| ==> Height(members[i].item) < h
    decreases members
  {
    if members == [] then 0 else Max(1 + Height(members[0].item), HeightMembers(members[1..]))
  }

  /** A duplicate is an exact copy, and it fails exactly on trees nested too deeply. */
  lemma {:induction false} DuplicateExact(j: Json, depth: nat)
    ensures DuplicateRec(j, depth) == if Height(j) == 0 || depth + Height(j) <= CIRCULAR_LIMIT then Some(j) else None
    decreases j
  {
    match j {
      case Array(items) => DuplicateItemsExact(items, depth);
      case Object(members) => DuplicateMembersExact(members, depth);
      case _ =>
    }
  }

  lemma {:induction false} DuplicateItemsExact(items: seq<Json>, depth: nat)
    ensures DuplicateItems(items, depth)
      == if items == [] || depth + HeightItems(items) <= CIRCULAR_LIMIT then Some(items) else None
    decreases items
  {
    if items != [] {
      DuplicateExact(items[0], depth + 1);
      DuplicateItemsExact(items[1..], depth);
      assert items == [items[0]] + items[1..];
    }
  }

  lemma {:induction false} DuplicateMembersExact(members: seq<Member>, depth: nat)
    ensures DuplicateMembers(members, depth)
      == if members == [] || depth + HeightMembers(members) <= CIRCULAR_LIMIT then Some(members) else None
    decreases members
  {
    if members != [] {
      DuplicateExact(members[0].item, depth + 1);
      DuplicateMembersExact(members[1..], depth);
      assert members == [members[0]] + members[1..];
      assert Member(members[0].name, members[0].item) == members[0];
    }
  }
}
