/** `merge_patch` on documents with their links: every member it sets is detached and
    appended, so that it too relies on the `prev` of the head. */
module LiveMerging {
  import opened Json
  import opened Links
  import opened Duplicate
  import opened MergePatch
  import opened LiveTrees
  import opened LivePatch

  /** NULL, a document, or undefined where an item that has left a list would be linked. */
  datatype LiveMerged = Lost | Failed | Merged(tree: Live)

  function LiveMerge(target: Option<Live>, patch: Json, cs: bool): LiveMerged
    decreases patch, 0
  {
    if !patch.Object? then
      var copy := DuplicateRec(patch, 0);
      if copy.None? then Failed else Merged(LiveValue(copy.value))
    else if target.Some? && target.value.Members? then
      LiveMergeMembers(target.value.members, target.value.back, patch.members, cs)
    else LiveMergeMembers([], Tail, patch.members, cs)
  }

  function LiveMergeMembers(ms: seq<LiveMember>, back: Back, patches: seq<Member>, cs: bool): LiveMerged
    decreases patches, 1
  {
    if patches == [] then Merged(Members(ms, back))
    else
      var p := patches[0];
      var i := FindKey(PlainMembers(ms), p.name, cs);
      var kept := if i < |ms| then RemoveAt(ms, i) else ms;
      var left := if i < |ms| then Take(back, |ms|, i) else back;
      if p.item.Null? then LiveMergeMembers(kept, left, patches[1..], cs)
      else
        var replacement := LiveMerge(if i < |ms| then Some(ms[i].item) else None, p.item, cs);
        if !replacement.Merged? then replacement
        else
          var r := Append(kept, left, LiveMember(p.name, replacement.tree));
          if r.Undefined? then Lost else LiveMergeMembers(r.list, r.back, patches[1..], cs)
  }

  function PlainOption(target: Option<Live>): Option<Json>
  {
    if target.None? then None else Some(Plain(target.value))
  }

  /** The same outcome as on the tree, and whole. */
  ghost predicate MergesAlike(l: LiveMerged, m: Option<Json>)
  {
    match l
    case Lost => false
    case Failed => m == None
    case Merged(tree) => m == Some(Plain(tree)) && Whole(tree)
  }

  /** Merging into a whole document, or into nothing, does what it does on the tree and
      leaves the document whole. */
  lemma {:induction false} WholeMerge(target: Option<Live>, patch: Json, cs: bool)
    requires target.Some? ==> Whole(target.value)
    ensures MergesAlike(LiveMerge(target, patch, cs), ApplyMerge(PlainOption(target), patch, cs))
    decreases patch, 0
  {
    hide Whole, Plain, PlainMembers, LiveMergeMembers, MergeMembers;
    if patch.Object? {
      NoMembersWhole();
      if target.Some? {
        PlainKind(target.value);
      }
      if target.Some? && target.value.Members? {
        WholeMergeMembers(target.value.members, patch.members, cs);
      } else {
        WholeMergeMembers([], patch.members, cs);
      }
    }
  }

  lemma {:induction false} PlainKind(l: Live)
    requires Whole(l)
    ensures Plain(l).Object? <==> l.Members?
    ensures l.Members? ==>
      l.back == Tail && l == Members(l.members, Tail) && Plain(l) == Object(PlainMembers(l.members))
  {
  }

  lemma NoMembersWhole()
    ensures Whole(Members([], Tail)) && PlainMembers([]) == []
  {
  }

  /** The rest of a merge, the object being a tree or a document. */
  ghost predicate MembersAlike(l: LiveMerged, merged: Option<seq<Member>>)
  {
    MergesAlike(l, if merged.None? then None else Some(Object(merged.value)))
  }

  lemma {:induction false} WholeMergeMembers(ms: seq<LiveMember>, patches: seq<Member>, cs: bool)
    requires Whole(Members(ms, Tail))
    ensures MembersAlike(LiveMergeMembers(ms, Tail, patches, cs), MergeMembers(PlainMembers(ms), patches, cs))
    decreases patches, 1
  {
    hide Whole, Plain, PlainMembers, LiveMerge, ApplyMerge, FindKey, RemoveAt, MergesAlike, Append, Take;
    ObjectViews(ms, Tail);
    if patches == [] {
      MergesNothing(ms);
    } else {
      var p := patches[0];
      var i := FindKey(PlainMembers(ms), p.name, cs);
      var kept := if i < |ms| then RemoveAt(ms, i) else ms;
      if i < |ms| {
        PlainRemove(ms, i);
        RemovedIn(ms, i);
        TakeExact(Tail, |ms|, i);
      }
      ObjectViews(kept, Tail);
      if p.item.Null? {
        WholeMergeMembers(kept, patches[1..], cs);
      } else {
        var old_item := if i < |ms| then Some(ms[i].item) else None;
        WholeMerge(old_item, p.item, cs);
        var replacement := LiveMerge(old_item, p.item, cs);
        MergedViews(replacement, ApplyMerge(PlainOption(old_item), p.item, cs));
        if replacement.Merged? {
          var m := LiveMember(p.name, replacement.tree);
          AppendExact(kept, Tail, m);
          PlainAppend(kept, m);
          ObjectViews(kept + [m], Tail);
          WholeMergeMembers(kept + [m], patches[1..], cs);
        } else {
          FailsAlike(replacement);
        }
      }
    }
  }

  lemma {:induction false} MergesNothing(ms: seq<LiveMember>)
    requires Whole(Members(ms, Tail))
    ensures MembersAlike(Merged(Members(ms, Tail)), Some(PlainMembers(ms)))
  {
    hide Whole, PlainMembers;
    ObjectViews(ms, Tail);
  }

  lemma MergedViews(l: LiveMerged, m: Option<Json>)
    requires MergesAlike(l, m)
    ensures l.Merged? || l.Failed?
    ensures l.Failed? <==> m.None?
    ensures l.Merged? ==> m == Some(Plain(l.tree)) && Whole(l.tree)
  {
    hide Plain, Whole;
  }

  lemma FailsAlike(l: LiveMerged)
    requires l.Failed?
    ensures MembersAlike(l, None)
  {
  }
}
