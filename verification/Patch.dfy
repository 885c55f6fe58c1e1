/** JSON Patch (RFC 6902) in libs/cjson/src/cJSON_Utils.c: generating the patches
    that turn one tree into another and applying a patch. Patches are JSON trees
    themselves. An update in place becomes the updated tree. */
module Patch {
  import opened Text
  import opened Sort
  import opened Json
  import opened Comparison
  import opened CompareLeaves
  import opened Pointer
  import opened Duplicate

  // ------------------------------------------------------------- generating

  /** `compose_patch`; a `value` that cannot be duplicated is left out. */
  function ComposePatch(operation: string, path: string, suffix: Option<string>, value: Option<Json>): Json
  {
    var full := if suffix.None? then path else path + "/" + Encode(suffix.value);
    var copy := if value.None? then None else DuplicateRec(value.value, 0);
    Object([Member("op", String(operation)), Member("path", String(full))]
           + if copy.None? then [] else [Member("value", copy.value)])
  }

  /** `type & 0xFF`, with the constants of cJSON.h. */
  function TypeOf(j: Json): nat
  {
    match j
    case Invalid => 0
    case Bool(b) => if b then 2 else 1
    case Null => 4
    case Number(_) => 8
    case String(_) => 16
    case Array(_) => 32
    case Object(_) => 64
  }

  /** `create_patches`. */
  function CreatePatches(path: string, from: Json, to: Json, cs: bool): seq<Json>
    decreases from, 1, 0
  {
    if TypeOf(from) != TypeOf(to) then [ComposePatch("replace", path, None, Some(to))]
    else
      match from
      case Number(n) => if n != to.n then [ComposePatch("replace", path, None, Some(to))] else []
      case String(s) => if StrCmp(s, to.s) != 0 then [ComposePatch("replace", path, None, Some(to))] else []
      case Array(items) => CreateForItems(path, items, to.items, 0, cs)
      case Object(members) =>
        SortKeepsBelow(members, cs, from);
        CreateForMembers(path, SortList(members, NameOf, cs), SortList(to.members, NameOf, cs), cs, from)
      case _ => []
  }

  /** The three loops over array elements, from `index` on. */
  function CreateForItems(path: string, xs: seq<Json>, ys: seq<Json>, index: nat, cs: bool): seq<Json>
    decreases xs, 0, 0
  {
    if xs == [] then AppendRest(path, ys)
    else if ys == [] then RemoveRest(path, |xs|, index)
    else
      CreatePatches(path + "/" + Decimal(index), xs[0], ys[0], cs)
      + CreateForItems(path, xs[1..], ys[1..], index + 1, cs)
  }

  function RemoveRest(path: string, count: nat, index: nat): seq<Json>
  {
    if count == 0 then []
    else [ComposePatch("remove", path, Some(Decimal(index)), None)] + RemoveRest(path, count - 1, index)
  }

  function AppendRest(path: string, ys: seq<Json>): seq<Json>
  {
    if ys == [] then []
    else [ComposePatch("add", path, Some("-"), Some(ys[0]))] + AppendRest(path, ys[1..])
  }

  /** The loop over two sorted member lists. */
  function CreateForMembers(path: string, ms: seq<Member>, ns: seq<Member>, cs: bool, ghost owner: Json): seq<Json>
    requires forall m :: m in ms ==> m.item < owner
    decreases owner, 0, |ms| + |ns|
  {
    if ms == [] && ns == [] then []
    else
      var diff := if ms == [] then 1 else if ns == [] then -1 else Compare(ms[0].name, ns[0].name, cs);
      if diff == 0 then
        CreatePatches(path + "/" + Encode(ms[0].name), ms[0].item, ns[0].item, cs)
        + CreateForMembers(path, ms[1..], ns[1..], cs, owner)
      else if diff < 0 then
        [ComposePatch("remove", path, Some(ms[0].name), None)]
        + CreateForMembers(path, ms[1..], ns, cs, owner)
      else
        [ComposePatch("add", path, Some(ns[0].name), Some(ns[0].item))]
        + CreateForMembers(path, ms, ns[1..], cs, owner)
  }

  /** `cJSONUtils_GeneratePatchesCaseSensitive` and its sibling. */
  function GeneratePatches(from: Json, to: Json, cs: bool): Json
  {
    Array(CreatePatches("", from, to, cs))
  }

  // ---------------------------------------------------------------- applying

  /** `decode_pointer_inplace` from read position `i` and write position `d` on;
      the result is the C string the buffer then holds. */
  function DecodeFrom(buffer: string, d: nat, i: nat): string
    requires d <= i <= |buffer|
    decreases |buffer| - i
  {
    if i == |buffer| then buffer[..d]
    else if buffer[i] != '~' then DecodeFrom(buffer, d + 1, i + 1)
    else if At(buffer, i + 1) == '0' && i + 1 < |buffer| then DecodeFrom(buffer[d := '~'], d + 1, i + 2)
    else if At(buffer, i + 1) == '1' && i + 1 < |buffer| then DecodeFrom(buffer[d + 1 := '/'], d + 1, i + 2)
    else buffer
  }

  function DecodeInPlace(text: string): string
  {
    DecodeFrom(text, 0, 0)
  }

  /** The same code on a NUL-terminated buffer. */
  method DecodePointerInplace(text: array<char>)
    requires text.Length > 0 && text[text.Length - 1] == '\0'
    requires NulFree(text[..text.Length - 1])
    modifies text
    ensures var decoded := DecodeInPlace(old(text[..text.Length - 1]));
      |decoded| < text.Length && text[..|decoded|] == decoded && text[|decoded|] == '\0'
  {
    var last := text.Length - 1;
    ghost var whole := DecodeInPlace(text[..last]);
    var d, i := 0, 0;
    while text[i] != '\0'
      invariant d <= i <= last && text[last] == '\0' && NulFree(text[..last])
      invariant DecodeFrom(text[..last], d, i) == whole
      decreases last - i
    {
      ghost var before := text[..last];
      if text[i] == '~' {
        if text[i + 1] == '0' {
          text[d] := '~';
          assert text[..last] == before[d := '~'];
        } else if text[i + 1] == '1' {
          text[d + 1] := '/';
          assert text[..last] == before[d + 1 := '/'];
        } else {
          assert whole == before;
          return;
        }
        i := i + 1;
      }
      d, i := d + 1, i + 1;
    }
    assert i == last;
    ghost var n := |whole|;
    assert whole == text[..last][..d] == text[..d];
    text[d] := '\0';
    assert text[..n] == whole;
  }

  /** Position of the last `/`, as `strrchr` finds it. */
  function LastSlash(path: string): (r: Option<nat>)
    ensures r.Some? ==> r.value < |path| && path[r.value] == '/'
  {
    if path == [] then None
    else if path[|path| - 1] == '/' then Some(|path| - 1)
    else LastSlash(path[..|path| - 1])
  }

  /** The tree with another item at a position; the key of a member stays. */
  function Update(j: Json, path: Path, item: Json): (r: Json)
    requires ValidPath(j, path)
    ensures path != [] ==> ChildCount(r) == ChildCount(j) && r.Array? == j.Array? && r.Object? == j.Object?
    decreases path
  {
    if path == [] then item
    else
      var child := Update(Child(j, path[0]), path[1..], item);
      if j.Array? then Array(j.items[path[0] := child])
      else Object(j.members[path[0] := Member(j.members[path[0]].name, child)])
  }

  datatype Detached = Missing | Detached(item: Json, rest: Json)

  /** The end of `detach_path`: the child leaves its parent. Keys are looked up
      without case whatever the flag. */
  function DetachChild(parent: Json, child: string): Detached
  {
    match parent
    case Array(items) =>
      var index := DecodeIndex(child);
      if index.None? || index.value >= |items| then Missing
      else Detached(items[index.value], Array(RemoveAt(items, index.value)))
    case Object(members) =>
      var i := FindKey(members, child, false);
      if i >= |members| then Missing
      else Detached(members[i].item, Object(RemoveAt(members, i)))
    case _ => Missing
  }

  /** `detach_path`. */
  function DetachPath(tree: Json, path: string, cs: bool): Detached
  {
    var slash := LastSlash(path);
    if slash.None? then Missing
    else
      var position := Resolve(tree, path[..slash.value], cs);
      if position.None? then Missing
      else
        match DetachChild(NodeAt(tree, position.value), DecodeInPlace(path[slash.value + 1..]))
        case Missing => Missing
        case Detached(item, rest) => Detached(item, Update(tree, position.value, rest))
  }

  datatype Operation = INVALID | ADD | REMOVE | REPLACE | MOVE | COPY | TEST

  function GetMember(patch: Json, name: string, cs: bool): Option<Json>
  {
    if patch.Object? && HasKey(patch.members, name, cs)
    then Some(patch.members[FindKey(patch.members, name, cs)].item) else None
  }

  /** `decode_patch_operation`. */
  function DecodeOperation(patch: Json, cs: bool): Operation
  {
    var operation := GetMember(patch, "op", cs);
    if operation.None? || !operation.value.String? then INVALID
    else
      match operation.value.s
      case "add" => ADD
      case "remove" => REMOVE
      case "replace" => REPLACE
      case "move" => MOVE
      case "copy" => COPY
      case "test" => TEST
      case _ => INVALID
  }

  /** Status code and tree after a patch; a failing patch may have removed. */
  datatype Applied = Applied(status: nat, tree: Json)

  /** The end of `apply_patch`: adding a child to its parent. */
  function AddChild(parent: Json, child: string, value: Json, cs: bool): Applied
  {
    match parent
    case Array(items) =>
      if child == "-" then Applied(0, Array(items + [value]))
      else
        var index := DecodeIndex(child);
        if index.None? then Applied(11, parent)
        else if index.value > |items| then Applied(10, parent)
        else Applied(0, Array(InsertAt(items, index.value, value)))
    case Object(members) =>
      var i := FindKey(members, child, cs);
      var kept := if i < |members| then RemoveAt(members, i) else members;
      Applied(0, Object(kept + [Member(child, value)]))
    case _ => Applied(9, parent)
  }

  function AddAtPath(tree: Json, path: string, value: Json, cs: bool): Applied
  {
    var slash := LastSlash(path);
    if slash.None? then Applied(9, tree)
    else
      var position := Resolve(tree, path[..slash.value], cs);
      if position.None? then Applied(9, tree)
      else
        var added := AddChild(NodeAt(tree, position.value), DecodeInPlace(path[slash.value + 1..]), value, cs);
        if added.status != 0 then Applied(added.status, tree)
        else Applied(0, Update(tree, position.value, added.tree))
  }

  function TestAtPath(tree: Json, path: string, value: Option<Json>, cs: bool): nat
  {
    var position := Resolve(tree, path, cs);
    if position.None? || value.None? then 1
    else if CompareJson(NodeAt(tree, position.value), value.value, cs) then 0 else 1
  }

  /** The comparison sorts what it walks, in the document too. */
  function TestedTree(tree: Json, path: string, value: Option<Json>, cs: bool): Json
  {
    var position := Resolve(tree, path, cs);
    if position.None? || value.None? then tree
    else Update(tree, position.value, AfterCompare(NodeAt(tree, position.value), value.value, cs))
  }

  /** Fetching what ADD and REPLACE add. */
  function PatchValue(patch: Json, cs: bool): (nat, Json)
  {
    var value := GetMember(patch, "value", cs);
    if value.None? then (7, Invalid)
    else
      var copy := DuplicateRec(value.value, 0);
      if copy.None? then (8, Invalid) else (0, copy.value)
  }

  /** `apply_patch` on a tree whose child lists are whole, each head's `prev` on the tail.
      Every operation but TEST leaves them so; `LiveTrees` says what a later add meets
      where a TEST has sorted. */
  function ApplyPatch(tree: Json, patch: Json, cs: bool): Applied
  {
    var target := GetMember(patch, "path", cs);
    if target.None? || !target.value.String? then Applied(2, tree)
    else
      var path := target.value.s;
      var opcode := DecodeOperation(patch, cs);
      match opcode
      case INVALID => Applied(3, tree)
      case TEST =>
        var value := GetMember(patch, "value", cs);
        Applied(TestAtPath(tree, path, value, cs), TestedTree(tree, path, value, cs))
      case REMOVE =>
        if path == "" then Applied(0, Invalid)
        else
          var old_item := DetachPath(tree, path, cs);
          if old_item.Missing? then Applied(13, tree) else Applied(0, old_item.rest)
      case REPLACE =>
        var (status, value) := PatchValue(patch, cs);
        if path == "" then (if status != 0 then Applied(status, tree) else Applied(0, value))
        else
          var old_item := DetachPath(tree, path, cs);
          if old_item.Missing? then Applied(13, tree)
          else if status != 0 then Applied(status, old_item.rest)
          else AddAtPath(old_item.rest, path, value, cs)
      case ADD =>
        var (status, value) := PatchValue(patch, cs);
        if status != 0 then Applied(status, tree)
        else if path == "" then Applied(0, value)
        else AddAtPath(tree, path, value, cs)
      case MOVE =>
        var from := GetMember(patch, "from", cs);
        if from.None? then Applied(4, tree)
        else
          var moved := if from.value.String? then DetachPath(tree, from.value.s, cs) else Missing;
          if moved.Missing? then Applied(5, tree) else AddAtPath(moved.rest, path, moved.item, cs)
      case COPY =>
        var from := GetMember(patch, "from", cs);
        if from.None? then Applied(4, tree)
        else
          var source := if from.value.String? then Resolve(tree, from.value.s, cs) else None;
          if source.None? then Applied(5, tree)
          else
            var copy := DuplicateRec(NodeAt(tree, source.value), 0);
            if copy.None? then Applied(6, tree) else AddAtPath(tree, path, copy.value, cs)
  }

  /** `cJSONUtils_ApplyPatchesCaseSensitive` and its sibling. */
  function ApplyPatches(tree: Json, patches: Json, cs: bool): Applied
  {
    if !patches.Array? then Applied(1, tree) else ApplyAll(tree, patches.items, cs)
  }

  function ApplyAll(tree: Json, patches: seq<Json>, cs: bool): Applied
    decreases |patches|
  {
    if patches == [] then Applied(0, tree)
    else
      var first := ApplyPatch(tree, patches[0], cs);
      if first.status != 0 then first else ApplyAll(first.tree, patches[1..], cs)
  }
}
