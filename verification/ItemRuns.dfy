/** Whole runs of the list operations: any sequence of append, insert, detach and
    replace acts on the child sequence, and the links stay those of that sequence. */
module ItemRuns {
  import opened Json
  import opened Text
  import opened Items
  import opened Links

  datatype Operation =
    | Append(item: Item)
    | Insert(which: int, item: Item)
    | Detach(which: int)
    | Replace(which: int, item: Item)

  /** What one operation does to the child sequence. */
  function Effect(op: Operation, s: seq<Item>): seq<Item>
  {
    match op
    case Append(item) => s + [item]
    case Insert(which, item) => if which < 0 then s else if which < |s| then InsertAt(s, which, item) else s + [item]
    case Detach(which) => if 0 <= which < |s| then RemoveAt(s, which) else s
    case Replace(which, item) => if 0 <= which < |s| then s[which := item] else s
  }

  function Effects(ops: seq<Operation>, s: seq<Item>): seq<Item>
  {
    if ops == [] then s else Effects(ops[1..], Effect(ops[0], s))
  }

  /** The items that may still be used: the one a replace puts out is freed. */
  ghost function Remaining(op: Operation, s: seq<Item>, all: set<Item>): set<Item>
  {
    if op.Replace? && 0 <= op.which < |s| then all - {s[op.which]} else all
  }

  ghost function RemainingAll(ops: seq<Operation>, s: seq<Item>, all: set<Item>): set<Item>
  {
    if ops == [] then all else RemainingAll(ops[1..], Effect(ops[0], s), Remaining(ops[0], s, all))
  }

  /** Only items that are in no list go in; detached items may go in again, replaced
      ones may not. */
  ghost predicate Legal(op: Operation, s: seq<Item>, all: set<Item>)
  {
    op.Detach? || (op.item in all && op.item !in s)
  }

  ghost predicate LegalRun(ops: seq<Operation>, s: seq<Item>, all: set<Item>)
  {
    ops == [] || (Legal(ops[0], s, all) && LegalRun(ops[1..], Effect(ops[0], s), Remaining(ops[0], s, all)))
  }

  /** The list and the detached items around it. */
  ghost predicate Pool(parent: Item, s: seq<Item>, all: set<Item>)
    reads parent, s, all
  {
    && ListOf(parent, s)
    && parent !in all
    && (forall x :: x in s ==> x in all)
    && (forall x :: x in all && x !in s ==> x.next == null)
  }

  /** Nothing but the new item comes in and nothing but the item at the place leaves. */
  lemma EffectMembers(op: Operation, s: seq<Item>, x: Item)
    requires op.Detach? || op.item !in s
    ensures x in Effect(op, s) ==> x in s || (!op.Detach? && x == op.item)
    ensures x in s && x !in Effect(op, s) ==>
      (op.Detach? || op.Replace?) && 0 <= op.which < |s| && x == s[op.which]
    ensures !op.Detach? && Effect(op, s) != s ==> op.item in Effect(op, s)
  {
    var r := Effect(op, s);
    if op.Replace? && 0 <= op.which < |s| {
      assert r[op.which] == op.item;
      if x in s && x != s[op.which] {
        var j :| 0 <= j < |s| && s[j] == x;
        assert r[j] == x;
      }
    }
  }

  /** Which items are in no list after an operation. */
  lemma FreeAfter(op: Operation, s: seq<Item>, all: set<Item>)
    requires Legal(op, s, all) && forall x :: x in s ==> x in all
    ensures forall x :: x in Effect(op, s) ==> x in all
    ensures forall x :: x in all && x !in Effect(op, s) ==>
      || (x !in s && (op.Detach? || x != op.item || Effect(op, s) == s))
      || ((op.Detach? || op.Replace?) && 0 <= op.which < |s| && x == s[op.which])
  {
    forall x | x in Effect(op, s)
      ensures x in all
    {
      EffectMembers(op, s, x);
    }
    forall x | x in all && x !in Effect(op, s)
      ensures (x !in s && (op.Detach? || x != op.item || Effect(op, s) == s))
        || ((op.Detach? || op.Replace?) && 0 <= op.which < |s| && x == s[op.which])
    {
      EffectMembers(op, s, x);
    }
  }

  method Appends(parent: Item, op: Operation, ghost s: seq<Item>, ghost all: set<Item>)
    requires op.Append? && Pool(parent, s, all) && Legal(op, s, all)
    modifies parent`child, all`next, all`prev
    ensures Pool(parent, Effect(op, s), all)
  {
    hide ListWith;
    FreeAfter(op, s, all);
    NoPrefix([op.item]);
    var ok := AddItemToArray(parent, op.item, s, Tail);
  }

  method Inserts(parent: Item, op: Operation, ghost s: seq<Item>, ghost all: set<Item>)
    requires op.Insert? && Pool(parent, s, all) && Legal(op, s, all)
    modifies parent`child, all`next, all`prev
    ensures Pool(parent, Effect(op, s), all)
  {
    hide ListOf;
    FreeAfter(op, s, all);
    var ok := InsertItemInArray(parent, op.which, op.item, s);
  }

  method Detaches(parent: Item, op: Operation, ghost s: seq<Item>, ghost all: set<Item>)
    requires op.Detach? && Pool(parent, s, all)
    modifies parent`child, all`next, all`prev
    ensures Pool(parent, Effect(op, s), all)
  {
    hide ListOf;
    FreeAfter(op, s, all);
    var detached := DetachItemFromArray(parent, op.which, s);
  }

  method Replaces(parent: Item, op: Operation, ghost s: seq<Item>, ghost all: set<Item>)
    requires op.Replace? && Pool(parent, s, all) && Legal(op, s, all)
    modifies parent`child, all`next, all`prev
    ensures Pool(parent, Effect(op, s), Remaining(op, s, all))
  {
    hide ListOf;
    FreeAfter(op, s, all);
    PutOut(parent, op, s);
    if op.which >= 0 {
      var item := GetArrayItem(parent, op.which, s);
      var ok := ReplaceItemViaPointer(parent, item, op.item, s, op.which);
    }
  }

  /** The replaced item is nowhere else in the list. */
  lemma PutOut(parent: Item, op: Operation, s: seq<Item>)
    requires op.Replace? && ListOf(parent, s) && op.item !in s
    ensures 0 <= op.which < |s| ==> s[op.which] !in Effect(op, s)
  {
  }

  /** A whole run. */
  method Run(parent: Item, ops: seq<Operation>, ghost s: seq<Item>, ghost all: set<Item>)
    requires Pool(parent, s, all) && LegalRun(ops, s, all)
    modifies parent`child, all`next, all`prev
    ensures Pool(parent, Effects(ops, s), RemainingAll(ops, s, all))
  {
    ghost var now, left := s, all;
    for i := 0 to |ops|
      invariant Pool(parent, now, left) && LegalRun(ops[i..], now, left) && left <= all
      invariant Effects(ops[i..], now) == Effects(ops, s)
      invariant RemainingAll(ops[i..], now, left) == RemainingAll(ops, s, all)
    {
      assert ops[i..][1..] == ops[i + 1..];
      match ops[i] {
        case Append(_) => Appends(parent, ops[i], now, left);
        case Insert(_, _) => Inserts(parent, ops[i], now, left);
        case Detach(_) => Detaches(parent, ops[i], now, left);
        case Replace(_, _) => Replaces(parent, ops[i], now, left);
      }
      now, left := Effect(ops[i], now), Remaining(ops[i], now, left);
    }
  }
}
