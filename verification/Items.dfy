/** cJSON items on the heap: the child list of an array or object and the
    operations that relink it. The ghost sequence handed along is the list. */
module Items {
  import opened Json
  import opened Links

  class Item {
    const name: string
    var next: Item?
    var prev: Item?
    var child: Item?

    constructor (name: string)
      ensures this.name == name && next == null && prev == null && child == null
    {
      this.name := name;
      next, prev, child := null, null, null;
    }
  }

  ghost predicate Different(s: seq<Item>)
  {
    forall i, j :: 0 <= i < j < |s| ==> s[i] != s[j]
  }

  /** The neighbours of an item in a child list; `first` is the `prev` of the head. */
  function After(s: seq<Item>, i: nat): Item?
    requires i < |s|
  {
    if i + 1 < |s| then s[i + 1] else null
  }

  function Before(s: seq<Item>, i: nat, first: Item?): Item?
    requires i < |s|
  {
    if i > 0 then s[i - 1] else first
  }

  /** The items are different and each `next` leads to the following one. */
  ghost predicate Linked(s: seq<Item>)
    reads s
  {
    && Different(s)
    && (forall i {:trigger s[i].next} :: 0 <= i < |s| - 1 ==> s[i].next == s[i + 1])
    && (s != [] ==> s[|s| - 1].next == null)
  }

  /** Every `prev` but the first one leads back. */
  ghost predicate BackLinked(s: seq<Item>)
    reads s
  {
    forall i {:trigger s[i].prev} :: 0 < i < |s| ==> s[i].prev == s[i - 1]
  }

  /** A list as `sort_list` takes and returns it. */
  ghost predicate Chain(head: Item?, s: seq<Item>)
    reads s
  {
    && head == (if s == [] then null else s[0])
    && Linked(s) && BackLinked(s)
  }

  /** What a pointer leads to, seen from a list. */
  ghost predicate PointsTo(p: Item?, s: seq<Item>, back: Back)
  {
    match back
    case Tail => s != [] && p == s[|s| - 1]
    case Nowhere => p == null
    case Inside(i) => i < |s| && p == s[i]
    case Gone => p != null && p !in s
  }

  /** The child list of a parent, whatever the `prev` of its head leads to. */
  ghost predicate ListWith(parent: Item, s: seq<Item>, back: Back)
    reads parent, s
  {
    && parent !in s
    && Chain(parent.child, s)
    && (s != [] ==> PointsTo(s[0].prev, s, back))
  }

  /** A whole child list: the `prev` of the head is the tail. */
  ghost predicate ListOf(parent: Item, s: seq<Item>)
    reads parent, s
  {
    ListWith(parent, s, Tail)
  }

  function Maybe(item: Item?): set<Item>
  {
    if item == null then {} else {item}
  }

  /** The links of the item at one place of a list. */
  lemma AtPlace(parent: Item, s: seq<Item>, i: nat, back: Back)
    requires ListWith(parent, s, back) && i < |s|
    ensures parent.child == s[0] && (s[i] == s[0] <==> i == 0) && PointsTo(s[0].prev, s, back)
    ensures s[i].next == After(s, i) && s[i].prev == Before(s, i, s[0].prev)
    ensures forall j {:trigger s[j].next} :: 0 <= j < |s| ==> s[j].next == After(s, j)
    ensures forall j {:trigger s[j].prev} :: 0 <= j < |s| ==> s[j].prev == Before(s, j, s[0].prev)
  {
  }

  /** `get_array_item`. */
  method GetArrayItem(parent: Item, index: nat, ghost s: seq<Item>) returns (item: Item?)
    requires ListOf(parent, s)
    ensures item == if index < |s| then s[index] else null
  {
    item := parent.child;
    var left := index;
    ghost var i := 0;
    while item != null && left > 0
      invariant i <= |s| && i + left == index
      invariant item == if i < |s| then s[i] else null
      decreases left
    {
      left := left - 1;
      item := item.next;
      i := i + 1;
    }
  }

  /** `add_item_to_array`. */
  method AddItemToArray(parent: Item, item: Item?, ghost s: seq<Item>, ghost back: Back) returns (ok: bool)
    requires ListWith(parent, s, back) && (s == [] || back != Gone)
    requires item != null && item != parent ==> item !in s && item.next == null
    modifies parent`child, s`next, s`prev, Maybe(item)`next, Maybe(item)`prev
    ensures ok <==> item != null && item != parent
    ensures if ok then var r := Append(s, back, item); r.Relinked? && ListWith(parent, r.list, r.back)
      else ListWith(parent, s, back)
  {
    if item == null || parent == item {
      return false;
    }
    var child := parent.child;
    ghost var first := if s == [] then null else s[0].prev;
    if child == null {
      parent.child := item;
      item.prev := item;
      item.next := null;
    } else if child.prev != null {
      child.prev.next := item;
      item.prev := child.prev;
      parent.child.prev := item;
      AppendedAt(parent, s, item, back, first);
    }
    return true;
  }

  /** Linking an item behind the one that `prev` of the head led to ends the list there. */
  lemma AppendedAt(parent: Item, s: seq<Item>, item: Item, back: Back, first: Item?)
    requires s != [] && parent !in s && Different(s) && item !in s && item != parent
    requires (back == Tail || back.Inside?) && PointsTo(first, s, back)
    requires parent.child == s[0] && item.next == null && item.prev == first && s[0].prev == item
    requires forall j {:trigger s[j].next} :: 0 <= j < |s| ==> s[j].next == if s[j] == first then item else After(s, j)
    requires forall j {:trigger s[j].prev} :: 0 < j < |s| ==> s[j].prev == s[j - 1]
    ensures var r := Append(s, back, item); r.Relinked? && ListWith(parent, r.list, r.back)
  {
    var r := Append(s, back, item).list;
    var k := |r| - 2;
    assert s[k] == first && r == s[..k + 1] + [item];
    assert forall j :: 0 <= j <= k ==> r[j] == s[j];
    assert forall j :: 0 <= j < k ==> s[j] != first;
  }

  /** Relinking the neighbours of one item takes it out of the list. */
  lemma TakenOut(parent: Item, s: seq<Item>, i: nat, back: Back, first: Item?)
    requires Different(s) && parent !in s && i < |s| && PointsTo(first, s, back)
    requires parent.child == if i == 0 then After(s, 0) else s[0]
    requires forall j {:trigger s[j].next} :: 0 <= j < |s| && j != i ==>
      s[j].next == if j == i - 1 then After(s, i) else After(s, j)
    requires forall j {:trigger s[j].prev} :: 0 <= j < |s| && j != i ==>
      s[j].prev == if j == i + 1 || (j == 0 && i == |s| - 1) then Before(s, i, first) else Before(s, j, first)
    ensures ListWith(parent, RemoveAt(s, i), Take(back, |s|, i))
  {
    var r := RemoveAt(s, i);
    assert forall k :: 0 <= k < |r| ==> r[k] == s[if k < i then k else k + 1];
  }

  /** Linking an item between its neighbours puts it into the list. */
  lemma PutIn(parent: Item, s: seq<Item>, i: nat, item: Item)
    requires Different(s) && parent !in s && i < |s| && item !in s && item != parent
    requires parent.child == if i == 0 then item else s[0]
    requires item.next == s[i] && item.prev == Before(s, i, s[|s| - 1])
    requires forall j {:trigger s[j].next} :: 0 <= j < |s| ==> s[j].next == if j == i - 1 then item else After(s, j)
    requires forall j {:trigger s[j].prev} :: 0 <= j < |s| ==>
      s[j].prev == if j == i then item else Before(s, j, s[|s| - 1])
    ensures ListOf(parent, InsertAt(s, i, item))
  {
    var r := InsertAt(s, i, item);
    assert forall k :: 0 <= k < |r| ==> r[k] == if k < i then s[k] else if k == i then item else s[k - 1];
  }

  /** `cJSON_DetachItemViaPointer`. */
  method DetachItemViaPointer(parent: Item, item: Item?, ghost s: seq<Item>, ghost i: nat, ghost back: Back)
    returns (detached: Item?)
    requires ListWith(parent, s, back)
    requires item != null ==> i < |s| && s[i] == item
    modifies parent`child, s`next, s`prev
    ensures detached == item
    ensures item != null ==> item.next == null && item.prev == null
    ensures if item == null then ListWith(parent, s, back) else ListWith(parent, RemoveAt(s, i), Take(back, |s|, i))
  {
    ghost var first := if s == [] then null else s[0].prev;
    if item != null {
      AtPlace(parent, s, i, back);
    }
    if item == null || (item != parent.child && item.prev == null) {
      return null;
    }
    if item != parent.child {
      item.prev.next := item.next;
    }
    if item.next != null {
      item.next.prev := item.prev;
    }
    if item == parent.child {
      parent.child := item.next;
    } else if item.next == null {
      parent.child.prev := item.prev;
    }
    item.prev := null;
    item.next := null;
    TakenOut(parent, s, i, back, first);
    return item;
  }

  /** `cJSON_DetachItemFromArray`. */
  method DetachItemFromArray(parent: Item, which: int, ghost s: seq<Item>) returns (detached: Item?)
    requires ListOf(parent, s)
    modifies parent`child, s`next, s`prev
    ensures detached == if 0 <= which < |s| then s[which] else null
    ensures detached != null ==> detached.next == null && detached.prev == null
    ensures ListOf(parent, if 0 <= which < |s| then RemoveAt(s, which) else s)
  {
    if which < 0 {
      return null;
    }
    var item := GetArrayItem(parent, which, s);
    detached := DetachItemViaPointer(parent, item, s, which, Tail);
  }

  /** `detach_item_from_array` of cJSON_Utils.c. */
  method DetachByIndex(parent: Item, which: nat, ghost s: seq<Item>) returns (detached: Item?)
    requires ListOf(parent, s)
    modifies parent`child, s`next, s`prev
    ensures detached == if which < |s| then s[which] else null
    ensures detached != null ==> detached.next == null && detached.prev == null
    ensures ListOf(parent, if which < |s| then RemoveAt(s, which) else s)
  {
    var c := GetArrayItem(parent, which, s);
    if c == null {
      return null;
    }
    AtPlace(parent, s, which, Tail);
    if c != parent.child {
      c.prev.next := c.next;
    }
    if c.next != null {
      c.next.prev := c.prev;
    }
    if c == parent.child {
      parent.child := c.next;
    } else if c.next == null {
      parent.child.prev := c.prev;
    }
    c.prev := null;
    c.next := null;
    TakenOut(parent, s, which, Tail, s[|s| - 1]);
    return c;
  }

  /** `cJSON_InsertItemInArray`; an index past the end appends. */
  method InsertItemInArray(parent: Item, which: int, newitem: Item?, ghost s: seq<Item>) returns (ok: bool)
    requires ListOf(parent, s)
    requires newitem != null ==> newitem !in s && newitem != parent && newitem.next == null
    modifies parent`child, s`next, s`prev, Maybe(newitem)`next, Maybe(newitem)`prev
    ensures ok <==> which >= 0 && newitem != null
    ensures ListOf(parent, if !ok then s else if which < |s| then InsertAt(s, which, newitem) else s + [newitem])
    ensures !ok && newitem != null ==> newitem.next == old(newitem.next)
  {
    if which < 0 || newitem == null {
      return false;
    }
    var after := GetArrayItem(parent, which, s);
    if after == null {
      ok := AddItemToArray(parent, newitem, s, Tail);
      return;
    }
    AtPlace(parent, s, which, Tail);
    if after != parent.child && after.prev == null {
      return false;
    }
    newitem.next := after;
    newitem.prev := after.prev;
    after.prev := newitem;
    if after == parent.child {
      parent.child := newitem;
    } else {
      newitem.prev.next := newitem;
    }
    PutIn(parent, s, which, newitem);
    return true;
  }

  /** `insert_item_in_array` of cJSON_Utils.c; an index past the end is refused. */
  method InsertByIndex(parent: Item, which: nat, newitem: Item, ghost s: seq<Item>) returns (ok: bool)
    requires ListOf(parent, s)
    requires newitem !in s && newitem != parent && newitem.next == null
    modifies parent`child, s`next, s`prev, Maybe(newitem)`next, Maybe(newitem)`prev
    ensures ok <==> which <= |s|
    ensures ListOf(parent, if ok then InsertAt(s, which, newitem) else s)
  {
    var child, left := parent.child, which;
    ghost var i := 0;
    while child != null && left > 0
      invariant i <= |s| && i + left == which
      invariant child == if i < |s| then s[i] else null
      decreases left
    {
      child := child.next;
      left := left - 1;
      i := i + 1;
    }
    if left > 0 {
      return false;
    }
    if child == null {
      assert InsertAt(s, which, newitem) == s + [newitem];
      ok := AddItemToArray(parent, newitem, s, Tail);
      return true;
    }
    AtPlace(parent, s, which, Tail);
    newitem.next := child;
    newitem.prev := child.prev;
    child.prev := newitem;
    if child == parent.child {
      parent.child := newitem;
    } else {
      newitem.prev.next := newitem;
    }
    PutIn(parent, s, which, newitem);
    return true;
  }

  /** `cJSON_ReplaceItemViaPointer`; the replaced item leaves with no links and is freed,
      so that nothing may use it again. */
  method ReplaceItemViaPointer(parent: Item, item: Item?, replacement: Item?, ghost s: seq<Item>, ghost i: nat)
    returns (ok: bool)
    requires ListOf(parent, s)
    requires item != null ==> i < |s| && s[i] == item
    requires replacement != null && replacement != item ==> replacement !in s && replacement != parent
    modifies parent`child, s`next, s`prev, Maybe(replacement)`next, Maybe(replacement)`prev
    ensures ok <==> item != null && replacement != null
    ensures ListOf(parent, if ok then s[i := replacement] else s)
    ensures !ok && replacement != null ==> replacement.next == old(replacement.next)
    ensures ok && replacement != item ==> item.next == null && item.prev == null
  {
    if parent.child == null || replacement == null || item == null {
      return false;
    }
    AtPlace(parent, s, i, Tail);
    if replacement == item {
      return true;
    }
    replacement.next := item.next;
    replacement.prev := item.prev;
    if replacement.next != null {
      replacement.next.prev := replacement;
    }
    if parent.child == item {
      if parent.child.prev == parent.child {
        replacement.prev := replacement;
      }
      parent.child := replacement;
    } else {
      if replacement.prev != null {
        replacement.prev.next := replacement;
      }
      if replacement.next == null {
        parent.child.prev := replacement;
      }
    }
    item.next := null;
    item.prev := null;
    return true;
  }
}
