/** `apply_patch` on documents with their links, and when it does what it does on trees. */
module LivePatch {
  import opened Json
  import opened Links
  import opened Pointer
  import opened Duplicate
  import opened Patch
  import opened LiveTrees

  // ------------------------------------------------------------- the operations

  datatype LiveDetached = LiveMissing | LiveDetached(item: Live, rest: Live)

  function LiveDetachChild(parent: Live, child: string): LiveDetached
  {
    match parent
    case Items(items) =>
      var index := DecodeIndex(child);
      if index.None? || index.value >= |items| then LiveMissing
      else LiveDetached(items[index.value], Items(RemoveAt(items, index.value)))
    case Members(ms, back) =>
      var i := FindKey(PlainMembers(ms), child, false);
      if i >= |ms| then LiveMissing
      else LiveDetached(ms[i].item, Members(RemoveAt(ms, i), Take(back, |ms|, i)))
    case Atom(_) => LiveMissing
  }

  datatype LiveApplied = Unstated | LiveApplied(status: nat, tree: Live)

  function LiveAddChild(parent: Live, child: string, value: Live, cs: bool): LiveApplied
  {
    match parent
    case Items(items) =>
      if child == "-" then LiveApplied(0, Items(InsertAt(items, |items|, value)))
      else
        var index := DecodeIndex(child);
        if index.None? then LiveApplied(11, parent)
        else if index.value > |items| then LiveApplied(10, parent)
        else LiveApplied(0, Items(InsertAt(items, index.value, value)))
    case Members(ms, back) =>
      var i := FindKey(PlainMembers(ms), child, cs);
      var kept := if i < |ms| then RemoveAt(ms, i) else ms;
      var left := Append(kept, if i < |ms| then Take(back, |ms|, i) else back, LiveMember(child, value));
      if left.Undefined? then Unstated else LiveApplied(0, Members(left.list, left.back))
    case Atom(_) => LiveApplied(9, parent)
  }

  // ------------------------------------------------- against the tree alone

  /** The child taken and what is left are those of the tree, and stay whole. */
  ghost predicate DetachesAlike(parent: Live, l: LiveDetached, d: Detached)
  {
    match (l, d)
    case (LiveMissing, Missing) => true
    case (LiveDetached(x, rest), Detached(y, left)) =>
      && Proper(x) && Proper(rest) && Plain(x) == y && Plain(rest) == left
      && (Whole(parent) ==> Whole(x) && Whole(rest))
    case _ => false
  }

  /** The same status and the same tree. */
  ghost predicate Agrees(l: LiveApplied, p: Applied)
  {
    l.LiveApplied? && l.status == p.status && Plain(l.tree) == p.tree
  }

  /** An add goes behind the tail: the list is empty, `prev` of the head leads to the
      tail, or the member that the add replaces is the tail itself. */
  predicate Receives(parent: Live, child: string, cs: bool)
  {
    parent.Members? && parent.members != [] ==>
      parent.back == Tail || FindKey(PlainMembers(parent.members), child, cs) == |parent.members| - 1
  }

  /** The three views of an object, and of an array. */
  lemma {:induction false} ObjectViews(ms: seq<LiveMember>, back: Back)
    ensures Proper(Members(ms, back)) <==> BackFits(back, |ms|) && forall m :: m in ms ==> Proper(m.item)
    ensures Whole(Members(ms, back)) <==> back == Tail && forall m :: m in ms ==> Whole(m.item)
    ensures Plain(Members(ms, back)) == Object(PlainMembers(ms))
  {
    if forall m :: m in ms ==> Whole(m.item) {
      forall i | 0 <= i < |ms|
        ensures Whole(ms[i].item)
      {
        assert ms[i] in ms;
      }
    }
    if forall m :: m in ms ==> Proper(m.item) {
      forall i | 0 <= i < |ms|
        ensures Proper(ms[i].item)
      {
        assert ms[i] in ms;
      }
    }
  }

  lemma {:induction false} ArrayViews(xs: seq<Live>)
    ensures Proper(Items(xs)) <==> forall x :: x in xs ==> Proper(x)
    ensures Whole(Items(xs)) <==> forall x :: x in xs ==> Whole(x)
    ensures Plain(Items(xs)) == Array(PlainItems(xs))
  {
    if forall x :: x in xs ==> Whole(x) {
      forall i | 0 <= i < |xs|
        ensures Whole(xs[i])
      {
        assert xs[i] in xs;
      }
    }
    if forall x :: x in xs ==> Proper(x) {
      forall i | 0 <= i < |xs|
        ensures Proper(xs[i])
      {
        assert xs[i] in xs;
      }
    }
  }

  lemma {:induction false} AtomViews(j: Json)
    ensures !j.Array? && !j.Object? <==> Proper(Atom(j))
    ensures Whole(Atom(j)) <==> Proper(Atom(j))
    ensures Plain(Atom(j)) == j
  {
  }

  lemma {:induction false} PlainRemove(ms: seq<LiveMember>, i: nat)
    requires i < |ms|
    ensures PlainMembers(RemoveAt(ms, i)) == RemoveAt(PlainMembers(ms), i)
    ensures PlainMembers(ms)[i].item == Plain(ms[i].item)
  {
    hide Plain;
  }

  lemma {:induction false} PlainAppend(ms: seq<LiveMember>, m: LiveMember)
    ensures PlainMembers(ms + [m]) == PlainMembers(ms) + [Member(m.name, Plain(m.item))]
  {
    hide Plain;
    assert PlainMember(m) == Member(m.name, Plain(m.item));
    assert PlainMembers(ms + [m]) == PlainMembers(ms) + [PlainMember(m)];
  }

  lemma {:induction false} PlainInsert(items: seq<Live>, i: nat, value: Live)
    requires i <= |items|
    ensures PlainItems(InsertAt(items, i, value)) == InsertAt(PlainItems(items), i, Plain(value))
    ensures forall x :: x in InsertAt(items, i, value) ==> x == value || x in items
  {
    hide Plain;
  }

  lemma InsertLast<T>(xs: seq<T>, x: T)
    ensures InsertAt(xs, |xs|, x) == xs + [x]
  {
  }

  lemma {:induction false} DetachMemberAlike(ms: seq<LiveMember>, back: Back, child: string)
    requires Proper(Members(ms, back))
    ensures DetachesAlike(Members(ms, back), LiveDetachChild(Members(ms, back), child),
                          DetachChild(Object(PlainMembers(ms)), child))
  {
    hide FindKey, Plain, Whole, Proper, PlainMembers, RemoveAt, DecodeIndex, Take, BackFits;
    ObjectViews(ms, back);
    var i := FindKey(PlainMembers(ms), child, false);
    if i < |ms| {
      PlainRemove(ms, i);
      RemovedIn(ms, i);
      TakeExact(back, |ms|, i);
      ObjectViews(RemoveAt(ms, i), Take(back, |ms|, i));
    }
  }

  lemma {:induction false} DetachItemAlike(items: seq<Live>, child: string)
    requires Proper(Items(items))
    ensures DetachesAlike(Items(items), LiveDetachChild(Items(items), child),
                          DetachChild(Array(PlainItems(items)), child))
  {
    hide DecodeIndex, Plain, Whole, Proper, FindKey, PlainMembers;
    ArrayViews(items);
    var index := DecodeIndex(child);
    if index.Some? && index.value < |items| {
      assert PlainItems(RemoveAt(items, index.value)) == RemoveAt(PlainItems(items), index.value);
      RemovedIn(items, index.value);
      ArrayViews(RemoveAt(items, index.value));
    }
  }

  lemma {:induction false} DetachAtomAlike(v: Json, child: string)
    requires Proper(Atom(v))
    ensures DetachesAlike(Atom(v), LiveDetachChild(Atom(v), child), DetachChild(v, child))
  {
  }

  lemma {:induction false} DetachAlike(parent: Live, child: string)
    requires Proper(parent)
    ensures DetachesAlike(parent, LiveDetachChild(parent, child), DetachChild(Plain(parent), child))
  {
    hide LiveDetachChild, DetachChild, DetachesAlike, PlainMembers, PlainItems;
    match parent
    case Items(items) => DetachItemAlike(items, child);
    case Members(ms, back) => DetachMemberAlike(ms, back, child);
    case Atom(v) => DetachAtomAlike(v, child);
  }

  /** What an add leaves: proper, whole if all was whole, and what it leaves on the tree
      exactly when the parent receives it. */
  ghost predicate AddsExactly(parent: Live, child: string, value: Live, cs: bool, l: LiveApplied, p: Applied)
  {
    && (Agrees(l, p) <==> Receives(parent, child, cs))
    && (l.LiveApplied? ==> l.status == p.status) && (p.status != 0 ==> Receives(parent, child, cs))
    && (l.LiveApplied? ==> Proper(l.tree) && (Whole(parent) && Whole(value) ==> Whole(l.tree)))
  }

  lemma {:induction false} AddItemExact(items: seq<Live>, child: string, value: Live, cs: bool)
    requires Proper(Items(items)) && Proper(value)
    ensures AddsExactly(Items(items), child, value, cs, LiveAddChild(Items(items), child, value, cs),
                        AddChild(Array(PlainItems(items)), child, Plain(value), cs))
  {
    hide DecodeIndex, Plain, Whole, Proper, FindKey, PlainItems, PlainMembers, InsertAt;
    ArrayViews(items);
    PlainInsert(items, |items|, value);
    InsertLast(PlainItems(items), Plain(value));
    ArrayViews(InsertAt(items, |items|, value));
    var index := DecodeIndex(child);
    if index.Some? && index.value <= |items| {
      PlainInsert(items, index.value, value);
      ArrayViews(InsertAt(items, index.value, value));
    }
  }

  lemma {:induction false} AddMemberExact(ms: seq<LiveMember>, back: Back, child: string, value: Live, cs: bool)
    requires Proper(Members(ms, back)) && Proper(value)
    ensures AddsExactly(Members(ms, back), child, value, cs, LiveAddChild(Members(ms, back), child, value, cs),
                        AddChild(Object(PlainMembers(ms)), child, Plain(value), cs))
  {
    hide FindKey, Plain, Whole, Proper, PlainMembers, RemoveAt, DecodeIndex, Take, Append, BackFits;
    ObjectViews(ms, back);
    var i := FindKey(PlainMembers(ms), child, cs);
    var kept, m := if i < |ms| then RemoveAt(ms, i) else ms, LiveMember(child, value);
    var left := if i < |ms| then Take(back, |ms|, i) else back;
    if i < |ms| {
      PlainRemove(ms, i);
      RemovedIn(ms, i);
      TakeExact(back, |ms|, i);
    }
    AppendExact(kept, left, m);
    var r := Append(kept, left, m);
    PlainAppend(kept, m);
    if r.Relinked? {
      ObjectViews(r.list, r.back);
      assert |PlainMembers(r.list)| == |r.list| && |PlainMembers(kept + [m])| == |kept| + 1;
    }
  }

  lemma {:induction false} AddAtomExact(v: Json, child: string, value: Live, cs: bool)
    requires Proper(Atom(v))
    ensures AddsExactly(Atom(v), child, value, cs, LiveAddChild(Atom(v), child, value, cs),
                        AddChild(v, child, Plain(value), cs))
  {
  }

  lemma {:induction false} AddExact(parent: Live, child: string, value: Live, cs: bool)
    requires Proper(parent) && Proper(value)
    ensures AddsExactly(parent, child, value, cs, LiveAddChild(parent, child, value, cs),
                        AddChild(Plain(parent), child, Plain(value), cs))
  {
    hide LiveAddChild, AddChild, AddsExactly, PlainMembers, PlainItems;
    match parent
    case Items(items) => AddItemExact(items, child, value, cs);
    case Members(ms, back) => AddMemberExact(ms, back, child, value, cs);
    case Atom(v) => AddAtomExact(v, child, value, cs);
  }

  // ------------------------------------------------------------------ patches

  /** `detach_path`. */
  function LiveDetachPath(tree: Live, path: string, cs: bool): (r: LiveDetached)
    requires Proper(tree)
    ensures r.LiveDetached? ==> Proper(r.item) && Proper(r.rest)
  {
    var slash := LastSlash(path);
    if slash.None? then LiveMissing
    else
      var position := Resolve(Plain(tree), path[..slash.value], cs);
      if position.None? then LiveMissing
      else
        DetachAlike(LiveAt(tree, position.value), DecodeInPlace(path[slash.value + 1..]));
        match LiveDetachChild(LiveAt(tree, position.value), DecodeInPlace(path[slash.value + 1..]))
        case LiveMissing => LiveMissing
        case LiveDetached(item, rest) => LiveDetached(item, LiveUpdate(tree, position.value, rest))
  }

  /** The end of `apply_patch`. */
  function LiveAddAtPath(tree: Live, path: string, value: Live, cs: bool): (r: LiveApplied)
    requires Proper(tree) && Proper(value)
    ensures r.LiveApplied? ==> Proper(r.tree)
  {
    var slash := LastSlash(path);
    if slash.None? then LiveApplied(9, tree)
    else
      var position := Resolve(Plain(tree), path[..slash.value], cs);
      if position.None? then LiveApplied(9, tree)
      else
        AddExact(LiveAt(tree, position.value), DecodeInPlace(path[slash.value + 1..]), value, cs);
        var added := LiveAddChild(LiveAt(tree, position.value), DecodeInPlace(path[slash.value + 1..]), value, cs);
        if added.Unstated? then Unstated
        else if added.status != 0 then LiveApplied(added.status, tree)
        else LiveApplied(0, LiveUpdate(tree, position.value, added.tree))
  }

  function LiveTested(tree: Live, path: string, value: Option<Json>, cs: bool): (r: Live)
    requires Proper(tree)
    ensures Proper(r) && Plain(r) == TestedTree(Plain(tree), path, value, cs)
  {
    var position := Resolve(Plain(tree), path, cs);
    if position.None? || value.None? then tree
    else
      LiveAfterPlain(LiveAt(tree, position.value), value.value, cs);
      LiveUpdate(tree, position.value, LiveAfter(LiveAt(tree, position.value), value.value, cs))
  }

  function LiveValue(j: Json): (l: Live)
    ensures Whole(l) && Proper(l) && Plain(l) == j
  {
    FreshPlain(j);
    WholeProper(Fresh(j));
    Fresh(j)
  }

  /** `apply_patch` on a document as earlier patches left it. */
  function ApplyLive(tree: Live, patch: Json, cs: bool): (r: LiveApplied)
    requires Proper(tree)
    ensures r.LiveApplied? ==> Proper(r.tree)
  {
    var target := GetMember(patch, "path", cs);
    if target.None? || !target.value.String? then LiveApplied(2, tree)
    else
      var path := target.value.s;
      match DecodeOperation(patch, cs)
      case INVALID => LiveApplied(3, tree)
      case TEST =>
        var value := GetMember(patch, "value", cs);
        LiveApplied(TestAtPath(Plain(tree), path, value, cs), LiveTested(tree, path, value, cs))
      case REMOVE =>
        if path == "" then LiveApplied(0, Atom(Invalid))
        else
          var old_item := LiveDetachPath(tree, path, cs);
          if old_item.LiveMissing? then LiveApplied(13, tree) else LiveApplied(0, old_item.rest)
      case REPLACE =>
        var (status, value) := PatchValue(patch, cs);
        if path == "" then (if status != 0 then LiveApplied(status, tree) else LiveApplied(0, LiveValue(value)))
        else
          var old_item := LiveDetachPath(tree, path, cs);
          if old_item.LiveMissing? then LiveApplied(13, tree)
          else if status != 0 then LiveApplied(status, old_item.rest)
          else LiveAddAtPath(old_item.rest, path, LiveValue(value), cs)
      case ADD =>
        var (status, value) := PatchValue(patch, cs);
        if status != 0 then LiveApplied(status, tree)
        else if path == "" then LiveApplied(0, LiveValue(value))
        else LiveAddAtPath(tree, path, LiveValue(value), cs)
      case MOVE =>
        var from := GetMember(patch, "from", cs);
        if from.None? then LiveApplied(4, tree)
        else
          var moved := if from.value.String? then LiveDetachPath(tree, from.value.s, cs) else LiveMissing;
          if moved.LiveMissing? then LiveApplied(5, tree) else LiveAddAtPath(moved.rest, path, moved.item, cs)
      case COPY =>
        var from := GetMember(patch, "from", cs);
        if from.None? then LiveApplied(4, tree)
        else
          var source := if from.value.String? then Resolve(Plain(tree), from.value.s, cs) else None;
          if source.None? then LiveApplied(5, tree)
          else
            var copy := DuplicateRec(NodeAt(Plain(tree), source.value), 0);
            if copy.None? then LiveApplied(6, tree) else LiveAddAtPath(tree, path, LiveValue(copy.value), cs)
  }

  function ApplyLiveAll(tree: Live, patches: seq<Json>, cs: bool): LiveApplied
    requires Proper(tree)
    decreases |patches|
  {
    if patches == [] then LiveApplied(0, tree)
    else
      var first := ApplyLive(tree, patches[0], cs);
      if first.Unstated? || first.status != 0 then first else ApplyLiveAll(first.tree, patches[1..], cs)
  }

  // ------------------------------------------- when an add finds the tail

  /** The object a path leads to receives the child named there. */
  predicate ReceivesAt(tree: Live, path: string, cs: bool)
    requires Proper(tree)
  {
    var slash := LastSlash(path);
    slash.None?
    || var position := Resolve(Plain(tree), path[..slash.value], cs);
       position.None?
       || Receives(LiveAt(tree, position.value), DecodeInPlace(path[slash.value + 1..]), cs)
  }

  lemma {:induction false} NodeOfUpdate(j: Json, path: Path, item: Json)
    requires ValidPath(j, path)
    ensures ValidPath(Update(j, path, item), path) && NodeAt(Update(j, path, item), path) == item
    decreases path
  {
    if path != [] {
      NodeOfUpdate(Child(j, path[0]), path[1..], item);
    }
  }

  lemma {:induction false} DetachPathAlike(tree: Live, path: string, cs: bool)
    requires Proper(tree)
    ensures DetachesAlike(tree, LiveDetachPath(tree, path, cs), DetachPath(Plain(tree), path, cs))
  {
    hide Resolve, LiveDetachChild, DetachChild, DecodeInPlace, Whole, Plain, Update, NodeAt, LastSlash, Proper;
    var slash := LastSlash(path);
    if slash.Some? {
      var position := Resolve(Plain(tree), path[..slash.value], cs);
      if position.Some? {
        if Whole(tree) {
          LiveAtWhole(tree, position.value);
        }
        DetachAlike(LiveAt(tree, position.value), DecodeInPlace(path[slash.value + 1..]));
      }
    }
  }

  lemma {:induction false} AddAtPathExact(tree: Live, path: string, value: Live, cs: bool)
    requires Proper(tree) && Proper(value)
    ensures var l, p := LiveAddAtPath(tree, path, value, cs), AddAtPath(Plain(tree), path, Plain(value), cs);
      && (Agrees(l, p) <==> ReceivesAt(tree, path, cs))
      && (l.LiveApplied? && Whole(tree) && Whole(value) ==> Whole(l.tree))
  {
    hide Resolve, LiveAddChild, AddChild, DecodeInPlace, Whole, Plain, Update, NodeAt, LastSlash, Proper, Receives;
    var slash := LastSlash(path);
    if slash.Some? {
      var position := Resolve(Plain(tree), path[..slash.value], cs);
      if position.Some? {
        if Whole(tree) {
          LiveAtWhole(tree, position.value);
        }
        var parent, child := LiveAt(tree, position.value), DecodeInPlace(path[slash.value + 1..]);
        AddExact(parent, child, value, cs);
        var l, p := LiveAddChild(parent, child, value, cs), AddChild(Plain(parent), child, Plain(value), cs);
        if l.LiveApplied? {
          NodeOfUpdate(Plain(tree), position.value, Plain(l.tree));
          NodeOfUpdate(Plain(tree), position.value, p.tree);
        }
      }
    }
  }

  /** The add of a patch, if there is one, finds the tail. */
  predicate AddFits(tree: Live, patch: Json, cs: bool)
    requires Proper(tree)
  {
    var target, from := GetMember(patch, "path", cs), GetMember(patch, "from", cs);
    target.Some? && target.value.String? ==>
      var path := target.value.s;
      match DecodeOperation(patch, cs)
      case ADD => path == "" || PatchValue(patch, cs).0 != 0 || ReceivesAt(tree, path, cs)
      case REPLACE =>
        path == "" || PatchValue(patch, cs).0 != 0
        || var old_item := LiveDetachPath(tree, path, cs);
           old_item.LiveMissing? || ReceivesAt(old_item.rest, path, cs)
      case MOVE =>
        from.None? || !from.value.String?
        || var moved := LiveDetachPath(tree, from.value.s, cs);
           moved.LiveMissing? || ReceivesAt(moved.rest, path, cs)
      case COPY =>
        from.None? || !from.value.String?
        || var source := Resolve(Plain(tree), from.value.s, cs);
           source.None? || DuplicateRec(NodeAt(Plain(tree), source.value), 0).None? || ReceivesAt(tree, path, cs)
      case _ => true
  }

  /** The outcome of one patch: that on the tree exactly when the add fits, and a whole
      document stays whole. */
  ghost predicate AppliesExactly(tree: Live, patch: Json, cs: bool)
    requires Proper(tree)
  {
    var l := ApplyLive(tree, patch, cs);
    && (Agrees(l, ApplyPatch(Plain(tree), patch, cs)) <==> AddFits(tree, patch, cs))
    && (l.LiveApplied? && Whole(tree) && DecodeOperation(patch, cs) != TEST ==> Whole(l.tree))
  }

  lemma {:induction false} RemoveExact(tree: Live, patch: Json, cs: bool)
    requires Proper(tree) && DecodeOperation(patch, cs) == REMOVE
    ensures AppliesExactly(tree, patch, cs)
  {
    hide LiveDetachPath, DetachPath, LiveAddAtPath, AddAtPath, Whole, Plain, GetMember, DecodeOperation, PatchValue,
      TestAtPath, TestedTree, LiveTested, Resolve, NodeAt, DuplicateRec, Proper, DetachChild, LiveDetachChild,
      ReceivesAt;
    AtomViews(Invalid);
    var target := GetMember(patch, "path", cs);
    if target.Some? && target.value.String? {
      DetachPathAlike(tree, target.value.s, cs);
    }
  }

  lemma {:induction false} ReplaceExact(tree: Live, patch: Json, cs: bool)
    requires Proper(tree) && DecodeOperation(patch, cs) == REPLACE
    ensures AppliesExactly(tree, patch, cs)
  {
    hide LiveDetachPath, DetachPath, LiveAddAtPath, AddAtPath, Whole, Plain, GetMember, DecodeOperation, PatchValue,
      TestAtPath, TestedTree, LiveTested, Resolve, NodeAt, DuplicateRec, Proper, DetachChild, LiveDetachChild,
      ReceivesAt;
    var target := GetMember(patch, "path", cs);
    if target.Some? && target.value.String? {
      var path, value := target.value.s, PatchValue(patch, cs).1;
      DetachPathAlike(tree, path, cs);
      var old_item := LiveDetachPath(tree, path, cs);
      if old_item.LiveDetached? {
        AddAtPathExact(old_item.rest, path, LiveValue(value), cs);
      }
    }
  }

  lemma {:induction false} AddOneExact(tree: Live, patch: Json, cs: bool)
    requires Proper(tree) && DecodeOperation(patch, cs) == ADD
    ensures AppliesExactly(tree, patch, cs)
  {
    hide LiveDetachPath, DetachPath, LiveAddAtPath, AddAtPath, Whole, Plain, GetMember, DecodeOperation, PatchValue,
      TestAtPath, TestedTree, LiveTested, Resolve, NodeAt, DuplicateRec, Proper, DetachChild, LiveDetachChild,
      ReceivesAt;
    var target := GetMember(patch, "path", cs);
    if target.Some? && target.value.String? {
      AddAtPathExact(tree, target.value.s, LiveValue(PatchValue(patch, cs).1), cs);
    }
  }

  lemma {:induction false} MoveExact(tree: Live, patch: Json, cs: bool)
    requires Proper(tree) && DecodeOperation(patch, cs) == MOVE
    ensures AppliesExactly(tree, patch, cs)
  {
    hide LiveDetachPath, DetachPath, LiveAddAtPath, AddAtPath, Whole, Plain, GetMember, DecodeOperation, PatchValue,
      TestAtPath, TestedTree, LiveTested, Resolve, NodeAt, DuplicateRec, Proper, DetachChild, LiveDetachChild,
      ReceivesAt;
    var target, from := GetMember(patch, "path", cs), GetMember(patch, "from", cs);
    if target.Some? && target.value.String? && from.Some? && from.value.String? {
      DetachPathAlike(tree, from.value.s, cs);
      var moved := LiveDetachPath(tree, from.value.s, cs);
      if moved.LiveDetached? {
        AddAtPathExact(moved.rest, target.value.s, moved.item, cs);
      }
    }
  }

  lemma {:induction false} CopyExact(tree: Live, patch: Json, cs: bool)
    requires Proper(tree) && DecodeOperation(patch, cs) == COPY
    ensures AppliesExactly(tree, patch, cs)
  {
    hide LiveDetachPath, DetachPath, LiveAddAtPath, AddAtPath, Whole, Plain, GetMember, DecodeOperation, PatchValue,
      TestAtPath, TestedTree, LiveTested, Resolve, NodeAt, DuplicateRec, Proper, DetachChild, LiveDetachChild,
      ReceivesAt;
    var target, from := GetMember(patch, "path", cs), GetMember(patch, "from", cs);
    if target.Some? && target.value.String? && from.Some? && from.value.String? {
      var source := Resolve(Plain(tree), from.value.s, cs);
      if source.Some? {
        var copy := DuplicateRec(NodeAt(Plain(tree), source.value), 0);
        if copy.Some? {
          AddAtPathExact(tree, target.value.s, LiveValue(copy.value), cs);
        }
      }
    }
  }

  lemma {:induction false} TestAgrees(tree: Live, patch: Json, cs: bool)
    requires Proper(tree) && DecodeOperation(patch, cs) in {TEST, INVALID}
    ensures AppliesExactly(tree, patch, cs)
  {
    hide LiveDetachPath, DetachPath, LiveAddAtPath, AddAtPath, Whole, Plain, GetMember, DecodeOperation, PatchValue,
      TestAtPath, TestedTree, LiveTested, Resolve, NodeAt, DuplicateRec, Proper, DetachChild, LiveDetachChild,
      ReceivesAt;
  }

  /** A patch does to a document what it does to its tree exactly when its add, if it has
      one, finds the tail; and every operation but TEST leaves a whole document whole. */
  lemma {:induction false} ApplyExact(tree: Live, patch: Json, cs: bool)
    requires Proper(tree)
    ensures var l, p := ApplyLive(tree, patch, cs), ApplyPatch(Plain(tree), patch, cs);
      && ((l.LiveApplied? && l.status == p.status && Plain(l.tree) == p.tree) <==> AddFits(tree, patch, cs))
      && (l.LiveApplied? && Whole(tree) && DecodeOperation(patch, cs) != TEST ==> Whole(l.tree))
  {
    hide ApplyLive, ApplyPatch, Whole, Plain, DecodeOperation, AddFits;
    match DecodeOperation(patch, cs)
    case REMOVE => RemoveExact(tree, patch, cs);
    case REPLACE => ReplaceExact(tree, patch, cs);
    case ADD => AddOneExact(tree, patch, cs);
    case MOVE => MoveExact(tree, patch, cs);
    case COPY => CopyExact(tree, patch, cs);
    case _ => TestAgrees(tree, patch, cs);
  }

  // --------------------------------------------------------------------- runs

  /** Every add of the run finds the tail of the list it goes into. */
  predicate AddsFit(tree: Live, patches: seq<Json>, cs: bool)
    requires Proper(tree)
    decreases |patches|
  {
    patches == []
    || (AddFits(tree, patches[0], cs)
        && var first := ApplyLive(tree, patches[0], cs);
           (first.LiveApplied? && first.status == 0 ==> AddsFit(first.tree, patches[1..], cs)))
  }

  /** After some of the patches the document is what the tree is. */
  ghost predicate RunAgrees(tree: Live, patches: seq<Json>, n: nat, cs: bool)
    requires Proper(tree) && n <= |patches|
  {
    Agrees(ApplyLiveAll(tree, patches[..n], cs), ApplyAll(Plain(tree), patches[..n], cs))
  }

  lemma {:induction false} RunStep(tree: Live, patches: seq<Json>, n: nat, cs: bool)
    requires Proper(tree) && 0 < n <= |patches|
    requires Agrees(ApplyLive(tree, patches[0], cs), ApplyPatch(Plain(tree), patches[0], cs))
    ensures var first := ApplyLive(tree, patches[0], cs);
      RunAgrees(tree, patches, n, cs) <==> first.status != 0 || RunAgrees(first.tree, patches[1..], n - 1, cs)
  {
    hide ApplyLive, ApplyPatch, Plain, Proper;
    assert patches[..n][0] == patches[0] && patches[..n][1..] == patches[1..][..n - 1];
  }

  lemma {:induction false} RunFirst(tree: Live, patches: seq<Json>, cs: bool)
    requires Proper(tree) && patches != []
    ensures RunAgrees(tree, patches, 1, cs) <==>
      Agrees(ApplyLive(tree, patches[0], cs), ApplyPatch(Plain(tree), patches[0], cs))
  {
    hide ApplyLive, ApplyPatch, Plain, Proper;
    var one := [patches[0]];
    assert patches[..1] == one && one[1..] == [];
    assert ApplyLiveAll(tree, one, cs) == ApplyLive(tree, patches[0], cs);
    assert ApplyAll(Plain(tree), one, cs) == ApplyPatch(Plain(tree), patches[0], cs);
  }

  /** A run agrees with the run on the tree after every patch exactly when every add finds
      the tail. */
  lemma {:induction false} RunExact(tree: Live, patches: seq<Json>, cs: bool)
    requires Proper(tree)
    ensures (forall n :: 0 <= n <= |patches| ==> RunAgrees(tree, patches, n, cs)) <==> AddsFit(tree, patches, cs)
    decreases |patches|
  {
    hide ApplyLive, ApplyPatch, Plain, Proper, AddFits, RunAgrees;
    NoRun(tree, patches, cs);
    if patches != [] {
      var first := ApplyLive(tree, patches[0], cs);
      ApplyExact(tree, patches[0], cs);
      RunFirst(tree, patches, cs);
      if AddFits(tree, patches[0], cs) {
        forall n | 0 < n <= |patches|
          ensures RunAgrees(tree, patches, n, cs)
            <==> first.status != 0 || RunAgrees(first.tree, patches[1..], n - 1, cs)
        {
          RunStep(tree, patches, n, cs);
        }
        if first.status == 0 {
          RunExact(first.tree, patches[1..], cs);
          RunsShift(tree, first.tree, patches, cs);
        }
      }
    }
  }

  lemma {:induction false} NoRun(tree: Live, patches: seq<Json>, cs: bool)
    requires Proper(tree)
    ensures RunAgrees(tree, patches, 0, cs)
  {
    hide Plain, Proper;
    assert patches[..0] == [];
  }

  lemma {:induction false} RunsShift(tree: Live, next: Live, patches: seq<Json>, cs: bool)
    requires Proper(tree) && Proper(next) && patches != [] && RunAgrees(tree, patches, 0, cs)
    requires forall n :: 0 < n <= |patches| ==>
      (RunAgrees(tree, patches, n, cs) <==> RunAgrees(next, patches[1..], n - 1, cs))
    ensures (forall n :: 0 <= n <= |patches| ==> RunAgrees(tree, patches, n, cs))
      <==> forall n :: 0 <= n <= |patches[1..]| ==> RunAgrees(next, patches[1..], n, cs)
  {
    hide RunAgrees, Proper;
    if forall n :: 0 <= n <= |patches| ==> RunAgrees(tree, patches, n, cs) {
      forall n | 0 <= n <= |patches[1..]|
        ensures RunAgrees(next, patches[1..], n, cs)
      {
        assert RunAgrees(tree, patches, n + 1, cs);
      }
    }
  }
}
