/**
 * The cross-entity rule for tags: problems refer to tags by name, so deleting or
 * renaming a tag rewrites the tag sets of the problems currently shown.
 *
 * DeleteTagNamed and RenameTagNamed are the two inner loops of ModelManager's
 * deleteTags and setTags, run over a snapshot of the problem's tag set and proved
 * against WithoutTagNamed and RenamedTags. The functions ending in AsWritten model
 * the inner loops as the source writes them, over the live tag set in its iteration
 * order, and the lemmas next to them exhibit where they part from the intended effect.
 */
module TagCascade {
  import opened Entities

  predicate HasTagNamed(tags: set<Tag>, name: string) {
    exists t :: t in tags && t.name == name
  }

  /** The tags whose name is not `name`. */
  function WithoutTagNamed(tags: set<Tag>, name: string): (r: set<Tag>)
    ensures r <= tags
    ensures !HasTagNamed(r, name)
    ensures forall t :: t in tags && t.name != name ==> t in r
  {
    set t | t in tags && t.name != name
  }

  /** The intended rename: the tag named `name`, if there is one, is replaced by `edited`. */
  function RenamedTags(tags: set<Tag>, name: string, edited: Tag): (r: set<Tag>)
    ensures HasTagNamed(tags, name) ==> edited in r && r - {edited} <= tags
    ensures HasTagNamed(tags, name) && edited.name != name ==> !HasTagNamed(r, name)
    ensures forall t :: t in tags && t.name != name ==> t in r
    ensures !HasTagNamed(tags, name) ==> r == tags
  {
    if HasTagNamed(tags, name) then WithoutTagNamed(tags, name) + {edited} else tags
  }

  /** A set of tags holds at most one tag of a given name, since a tag is its name. */
  lemma TagNamedIsUnique(tags: set<Tag>, name: string)
    ensures HasTagNamed(tags, name) <==> Tag(name) in tags
    ensures WithoutTagNamed(tags, name) == tags - {Tag(name)}
  {
    if HasTagNamed(tags, name) {
      var t :| t in tags && t.name == name;
      assert t == Tag(name);
    }
  }

  /** deleteTags' inner loop over a snapshot of one problem's tags. */
  method DeleteTagNamed(tags: set<Tag>, name: string) returns (r: set<Tag>)
    ensures r == WithoutTagNamed(tags, name)
  {
    r := tags;
    var pending := tags;
    while pending != {}
      invariant pending <= tags
      invariant forall t :: t in r <==> t in tags && (t in pending || t.name != name)
      decreases pending
    {
      var tag :| tag in pending;
      if tag.name == name {
        r := r - {tag};
      }
      pending := pending - {tag};
    }
  }

  /** setTags' inner loop over a snapshot of one problem's tags: delete the match, then add the edited tag. */
  method RenameTagNamed(tags: set<Tag>, name: string, edited: Tag) returns (r: set<Tag>)
    ensures r == RenamedTags(tags, name, edited)
  {
    TagNamedIsUnique(tags, name);
    r := tags;
    var pending := tags;
    while pending != {}
      invariant pending <= tags
      invariant r == if Tag(name) in tags - pending then (tags - {Tag(name)}) + {edited} else tags
      decreases pending
    {
      var tag :| tag in pending;
      if tag.name == name {
        assert tag == Tag(name);
        r := (r - {tag}) + {edited};
      }
      pending := pending - {tag};
    }
  }

  /** How a fail-fast iteration over a live set ends. */
  datatype IterationOutcome = Completed(tags: set<Tag>) | ConcurrentModification

  /**
   * deleteTags' inner loop as written: a for-each over the problem's live tag set,
   * visited in the set's iteration order, deleting from that same set. Once the set
   * has changed, the iterator's next call to next() throws; hasNext() does not check.
   */
  function IterateDeleting(order: seq<Tag>, name: string, i: nat, current: set<Tag>, modified: bool): IterationOutcome
    requires i <= |order|
    decreases |order| - i
  {
    if i == |order| then Completed(current)
    else if modified then ConcurrentModification
    else if order[i].name == name then IterateDeleting(order, name, i + 1, current - {order[i]}, true)
    else IterateDeleting(order, name, i + 1, current, false)
  }

  function DeleteTagNamedAsWritten(order: seq<Tag>, name: string): IterationOutcome {
    IterateDeleting(order, name, 0, set t | t in order, false)
  }

  /** First position at or after i holding a tag named `name`, or |order|. */
  function FirstNamed(order: seq<Tag>, name: string, i: nat): (k: nat)
    requires i <= |order|
    ensures i <= k <= |order|
    ensures k < |order| ==> order[k].name == name
    ensures forall j :: i <= j < k ==> order[j].name != name
    decreases |order| - i
  {
    if i == |order| || order[i].name == name then i else FirstNamed(order, name, i + 1)
  }

  lemma {:induction false} IterateDeletingOutcome(order: seq<Tag>, name: string, i: nat, current: set<Tag>)
    requires i <= |order|
    ensures var k := FirstNamed(order, name, i);
      IterateDeleting(order, name, i, current, false) ==
        if k == |order| then Completed(current)
        else if k == |order| - 1 then Completed(current - {order[k]})
        else ConcurrentModification
    decreases |order| - i
  {
    if i < |order| && order[i].name != name {
      IterateDeletingOutcome(order, name, i + 1, current);
    }
  }

  /**
   * The loop as written finishes only when no tag matches or the match is the last
   * one visited; then it has done what WithoutTagNamed describes. Otherwise it throws.
   */
  lemma DeleteAsWrittenCompletesOnlyWhenMatchIsLast(order: seq<Tag>, name: string)
    ensures DeleteTagNamedAsWritten(order, name).Completed? <==>
      forall j :: 0 <= j < |order| - 1 ==> order[j].name != name
    ensures DeleteTagNamedAsWritten(order, name).Completed? ==>
      DeleteTagNamedAsWritten(order, name).tags == WithoutTagNamed((set t | t in order), name)
  {
    var all := set t | t in order;
    IterateDeletingOutcome(order, name, 0, all);
    TagNamedIsUnique(all, name);
    var k := FirstNamed(order, name, 0);
    if k < |order| {
      assert order[k] == Tag(name);
    } else {
      assert !HasTagNamed(all, name);
    }
  }

  lemma DeleteAsWrittenThrowsOnFirstOfTwo()
    ensures DeleteTagNamedAsWritten([Tag("a"), Tag("b")], "a") == ConcurrentModification
    ensures WithoutTagNamed({Tag("a"), Tag("b")}, "a") == {Tag("b")}
  {
    DeleteAsWrittenCompletesOnlyWhenMatchIsLast([Tag("a"), Tag("b")], "a");
    assert [Tag("a"), Tag("b")][0].name == "a";
  }

  /**
   * setTags' inner loop as written: the same for-each over the live tag set, adding
   * the edited tag and then deleting the matched one. The deletion always changes
   * the set, so the iterator's next call to next() throws.
   */
  function IterateRenaming(order: seq<Tag>, name: string, edited: Tag, i: nat, current: set<Tag>, modified: bool): IterationOutcome
    requires i <= |order|
    decreases |order| - i
  {
    if i == |order| then Completed(current)
    else if modified then ConcurrentModification
    else if order[i].name == name then IterateRenaming(order, name, edited, i + 1, (current + {edited}) - {order[i]}, true)
    else IterateRenaming(order, name, edited, i + 1, current, false)
  }

  function RenameTagNamedAsWritten(order: seq<Tag>, name: string, edited: Tag): IterationOutcome {
    IterateRenaming(order, name, edited, 0, set t | t in order, false)
  }

  lemma {:induction false} IterateRenamingOutcome(order: seq<Tag>, name: string, edited: Tag, i: nat, current: set<Tag>)
    requires i <= |order|
    ensures var k := FirstNamed(order, name, i);
      IterateRenaming(order, name, edited, i, current, false) ==
        if k == |order| then Completed(current)
        else if k == |order| - 1 then Completed((current + {edited}) - {order[k]})
        else ConcurrentModification
    decreases |order| - i
  {
    if i < |order| && order[i].name != name {
      IterateRenamingOutcome(order, name, edited, i + 1, current);
    }
  }

  /**
   * The rename as written finishes only when no tag matches or the match is the last
   * one visited. Then it agrees with RenamedTags when the name changes, and acts as
   * WithoutTagNamed, dropping the tag, when the name is kept.
   */
  lemma RenameAsWrittenCompletesOnlyWhenMatchIsLast(order: seq<Tag>, name: string, edited: Tag)
    ensures RenameTagNamedAsWritten(order, name, edited).Completed? <==>
      forall j :: 0 <= j < |order| - 1 ==> order[j].name != name
    ensures RenameTagNamedAsWritten(order, name, edited).Completed? && edited.name != name ==>
      RenameTagNamedAsWritten(order, name, edited).tags == RenamedTags((set t | t in order), name, edited)
    ensures RenameTagNamedAsWritten(order, name, edited).Completed? && edited.name == name ==>
      RenameTagNamedAsWritten(order, name, edited).tags == WithoutTagNamed((set t | t in order), name)
  {
    var all := set t | t in order;
    IterateRenamingOutcome(order, name, edited, 0, all);
    TagNamedIsUnique(all, name);
    var k := FirstNamed(order, name, 0);
    if k < |order| {
      assert order[k] == Tag(name);
      assert HasTagNamed(all, name);
      if edited.name == name {
        assert edited == Tag(name);
      }
    } else {
      assert !HasTagNamed(all, name);
    }
  }

  /** Renaming a to c in tags visited as a, b throws, where the intended result is {b, c}. */
  lemma RenameAsWrittenThrowsOnFirstOfTwo()
    ensures RenameTagNamedAsWritten([Tag("a"), Tag("b")], "a", Tag("c")) == ConcurrentModification
    ensures RenamedTags({Tag("a"), Tag("b")}, "a", Tag("c")) == {Tag("b"), Tag("c")}
  {
    RenameAsWrittenCompletesOnlyWhenMatchIsLast([Tag("a"), Tag("b")], "a", Tag("c"));
    assert [Tag("a"), Tag("b")][0].name == "a";
    assert Tag("a") in {Tag("a"), Tag("b")};
  }

  /** Renaming the only tag x to x as written leaves no tag, where the intended rename keeps x. */
  lemma AsWrittenRenameToSameNameDropsTag()
    ensures RenameTagNamedAsWritten([Tag("x")], "x", Tag("x")) == Completed({})
    ensures RenamedTags({Tag("x")}, "x", Tag("x")) == {Tag("x")}
  {
    RenameAsWrittenCompletesOnlyWhenMatchIsLast([Tag("x")], "x", Tag("x"));
    assert (set t | t in [Tag("x")]) == {Tag("x")};
    assert HasTagNamed({Tag("x")}, "x") by {
      assert Tag("x") in {Tag("x")};
    }
  }

  /**
   * deleteTags over the whole store: every problem the filter shows loses the tag
   * named `name`; the others are untouched.
   */
  function DeleteTagsFromShown(ps: seq<Problem>, shown: Problem -> bool, name: string): (r: seq<Problem>)
  {
    seq(|ps|, i requires 0 <= i < |ps| =>
      if shown(ps[i]) then ps[i].(tags := WithoutTagNamed(ps[i].tags, name)) else ps[i])
  }

  /** setTags over the whole store: every problem the filter shows has the tag renamed. */
  function RenameTagInShown(ps: seq<Problem>, shown: Problem -> bool, name: string, edited: Tag): (r: seq<Problem>)
  {
    seq(|ps|, i requires 0 <= i < |ps| =>
      if shown(ps[i]) then ps[i].(tags := RenamedTags(ps[i].tags, name, edited)) else ps[i])
  }

  /** After deleteTags, no problem still in the filtered view holds a tag of that name. */
  lemma DeleteTagsClearsFilteredView(ps: seq<Problem>, shown: Problem -> bool, name: string)
    ensures var after := DeleteTagsFromShown(ps, shown, name);
      forall p :: p in Filter(after, shown) ==> !HasTagNamed(p.tags, name)
  {
    var after := DeleteTagsFromShown(ps, shown, name);
    forall p | p in Filter(after, shown) ensures !HasTagNamed(p.tags, name) {
      var i :| 0 <= i < |after| && after[i] == p;
      assert shown(p);
    }
  }

  /** The cascades keep every problem's name and leave hidden problems as they were. */
  lemma CascadesKeepNamesAndHidden(ps: seq<Problem>, shown: Problem -> bool, name: string, edited: Tag)
    ensures |DeleteTagsFromShown(ps, shown, name)| == |RenameTagInShown(ps, shown, name, edited)| == |ps|
    ensures forall i :: 0 <= i < |ps| ==>
      DeleteTagsFromShown(ps, shown, name)[i].name == ps[i].name
      && RenameTagInShown(ps, shown, name, edited)[i].name == ps[i].name
    ensures forall i :: 0 <= i < |ps| && !shown(ps[i]) ==>
      DeleteTagsFromShown(ps, shown, name)[i] == ps[i] && RenameTagInShown(ps, shown, name, edited)[i] == ps[i]
    ensures UniqueProblemNames(ps) ==>
      UniqueProblemNames(DeleteTagsFromShown(ps, shown, name))
      && UniqueProblemNames(RenameTagInShown(ps, shown, name, edited))
  {
  }

  /**
   * After setTags, every shown problem that held the old name holds the edited tag
   * and, when the name changed, no longer the old one; shown problems without it
   * are unchanged.
   */
  lemma RenameTagUpdatesShown(ps: seq<Problem>, shown: Problem -> bool, name: string, edited: Tag, i: nat)
    requires i < |ps| && shown(ps[i])
    ensures var after := RenameTagInShown(ps, shown, name, edited)[i];
      (HasTagNamed(ps[i].tags, name) ==> edited in after.tags && (edited.name != name ==> !HasTagNamed(after.tags, name)))
      && (!HasTagNamed(ps[i].tags, name) ==> after == ps[i])
  {
  }
}
