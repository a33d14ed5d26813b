/** What the PATCH path records: nothing for a patch that changes nothing, otherwise the event of the direct
    update. */
module PatchEvents {
  import opened Common
  import opened SiblingOrder
  import opened RowMoves
  import opened Forest
  import opened Prepare
  import opened ForestView

  // The event recorded with an applied patch.
  ghost function FolderRecorded(s: Store, p: Prepared<string>, now: int): Option<Event>
    requires Live(s.folders, p.id) && p.original == s.folders[p.id] && p.final.workspace == p.original.workspace
  {
    if p.noOp then None else Some(FolderEvent(p.id, ApplyFolder(s, p, now).1))
  }

  ghost function BookmarkRecorded(s: Store, p: Prepared<Link>, now: int): Option<Event>
    requires Live(s.bookmarks, p.id) && p.original == s.bookmarks[p.id] && p.final.workspace == p.original.workspace
  {
    if p.noOp then None else Some(BookmarkEvent(p.id, ApplyBookmark(s, p, now).1))
  }

  // Times apart, the tables show the same.
  lemma TimesDoNotShow<P>(t: Table<P>, u: Table<P>, group: set<Id>, now: int, ws: Id)
    requires OnlyTimesMoved(t, u, group, now)
    ensures Shown(u, ws) == Shown(t, ws)
    ensures forall k: Option<Id> :: Children(u, ws, k) == Children(t, ws, k)
  {
    forall k: Option<Id> ensures Children(u, ws, k) == Children(t, ws, k) {
      SameMembersSameOrder(t, u, group, now, ws, k);
    }
  }

  lemma SameMembersSameOrder<P>(t: Table<P>, u: Table<P>, group: set<Id>, now: int, ws: Id, k: Option<Id>)
    requires OnlyTimesMoved(t, u, group, now)
    ensures Children(u, ws, k) == Children(t, ws, k)
  {
    assert Members(u, ws, k) == Members(t, ws, k);
    ChildrenList(t, ws, k);
    ChildrenList(u, ws, k);
    assert SortedListing(u, Members(u, ws, k), Children(t, ws, k));
    SortedIsUnique(u, Members(u, ws, k), Children(u, ws, k), Children(t, ws, k));
  }

  lemma SameView(s: Store, t: Store, ws: Id)
    requires Shown(t.folders, ws) == Shown(s.folders, ws) && Shown(t.bookmarks, ws) == Shown(s.bookmarks, ws)
    requires forall k: Option<Id> :: Kids(t, ws, k) == Kids(s, ws, k)
    ensures ViewOf(t, ws) == ViewOf(s, ws)
  {
    KidsOfIs(t, ws, KidsOf(s, ws));
  }

  lemma FolderTimesDoNotShow(s: Store, t: Store, group: set<Id>, now: int, ws: Id)
    requires OnlyTimesMoved(s.folders, t.folders, group, now) && t.bookmarks == s.bookmarks
    ensures ViewOf(t, ws) == ViewOf(s, ws)
  {
    TimesDoNotShow(s.folders, t.folders, group, now, ws);
    SameView(s, t, ws);
  }

  lemma BookmarkTimesDoNotShow(s: Store, t: Store, group: set<Id>, now: int, ws: Id)
    requires OnlyTimesMoved(s.bookmarks, t.bookmarks, group, now) && t.folders == s.folders
    ensures ViewOf(t, ws) == ViewOf(s, ws)
  {
    TimesDoNotShow(s.bookmarks, t.bookmarks, group, now, ws);
    SameView(s, t, ws);
  }

  lemma PreparedForFolder(s: Store, c: Caller, id: Id, patch: FolderPatch)
    requires PrepareFolder(s, s, c, id, patch).Ok?
    ensures PrepareFolder(s, s, c, id, patch).value.id == id
  {
  }

  // Times are not part of an event.
  lemma SameFolderEvent(id: Id, a: Row<string>, b: Row<string>, t: int)
    requires a == b.(updatedAt := t)
    ensures FolderEvent(id, a) == FolderEvent(id, b)
  {
  }

  // The outcome of a PATCH next to that of the direct update.
  lemma FolderPatchIsTheUpdate(s: Store, c: Caller, id: Id, patch: FolderPatch, ws: Id)
    requires Inv(s) && PrepareFolder(s, s, c, id, patch).Ok?
    ensures var p := PrepareFolder(s, s, c, id, patch).value;
            && Live(s.folders, p.id) && p.original == s.folders[p.id] && p.final.workspace == p.original.workspace && UpdateFolder(s, c, id, patch).Ok?
            && var after, direct := ApplyFolder(s, p, c.now).0, UpdateFolder(s, c, id, patch).value;
               && p.id == id && ViewOf(after, ws) == ViewOf(direct.0, ws)
               && (if p.noOp then after == s && FolderRecorded(s, p, c.now) == None else FolderRecorded(s, p, c.now) == Some(FolderEvent(id, direct.1)))
  {
    FolderPathsAgree(s, c, id, patch);
    PreparedForFolder(s, c, id, patch);
    var p := PrepareFolder(s, s, c, id, patch).value;
    var direct := UpdateFolder(s, c, id, patch).value.0;
    SameFolderEvent(id, ApplyFolder(s, p, c.now).1, direct.folders[id], s.folders[id].updatedAt);
    if p.noOp {
      FolderTimesDoNotShow(s, direct, Members(s.folders, p.final.workspace, p.final.parent), c.now, ws);
    } else {
      assert ApplyFolder(s, p, c.now).0 == direct;
    }
  }

  lemma BookmarkPatchIsTheUpdate(s: Store, c: Caller, id: Id, patch: BookmarkPatch, ws: Id)
    requires Inv(s) && PrepareBookmark(s, s, c, id, patch).Ok?
    ensures var p := PrepareBookmark(s, s, c, id, patch).value;
            && Live(s.bookmarks, p.id) && p.original == s.bookmarks[p.id] && p.final.workspace == p.original.workspace && UpdateBookmark(s, c, id, patch).Ok?
            && var after, direct := ApplyBookmark(s, p, c.now).0, UpdateBookmark(s, c, id, patch).value;
               && p.id == id && ViewOf(after, ws) == ViewOf(direct.0, ws)
               && (if p.noOp then after == s && BookmarkRecorded(s, p, c.now) == None else BookmarkRecorded(s, p, c.now) == Some(BookmarkEvent(id, direct.1)))
  {
    BookmarkPathsAgree(s, c, id, patch);
    var p := PrepareBookmark(s, s, c, id, patch).value;
    var direct := UpdateBookmark(s, c, id, patch).value.0;
    if p.noOp {
      BookmarkTimesDoNotShow(s, direct, Members(s.bookmarks, p.final.workspace, p.final.parent), c.now, ws);
    } else {
      assert ApplyBookmark(s, p, c.now).0 == direct;
    }
  }

  /** A PATCH of a folder leaves the forest the direct update leaves. If it changes nothing it records nothing and
      leaves the tables as they are; otherwise it records the event of the direct update, which describes the
      change. */
  lemma FolderPatchTold(s: Store, c: Caller, id: Id, patch: FolderPatch)
    requires Inv(s) && PrepareFolder(s, s, c, id, patch).Ok?
    ensures var p := PrepareFolder(s, s, c, id, patch).value;
            && Live(s.folders, p.id) && p.original == s.folders[p.id] && p.final.workspace == p.original.workspace && UpdateFolder(s, c, id, patch).Ok?
            && var ws, after, direct := p.original.workspace, ApplyFolder(s, p, c.now).0, UpdateFolder(s, c, id, patch).value;
               var e := FolderEvent(id, direct.1);
               && ViewOf(after, ws) == ViewOf(direct.0, ws)
               && (p.noOp ==> after == s && FolderRecorded(s, p, c.now) == None)
               && (!p.noOp ==> FolderRecorded(s, p, c.now) == Some(e) && Applicable(ViewOf(s, ws), e) && ViewOf(after, ws) == ApplyEvent(ViewOf(s, ws), e))
  {
    FolderPatchIsTheUpdate(s, c, id, patch, s.folders[id].workspace);
    PatchedFolderView(s, c, id, patch, s.folders[id].workspace);
  }

  /** The same for bookmarks; the event describes the change unless it puts the bookmark into a list with
      folders. */
  lemma BookmarkPatchTold(s: Store, c: Caller, id: Id, patch: BookmarkPatch)
    requires Inv(s) && PrepareBookmark(s, s, c, id, patch).Ok?
    ensures var p := PrepareBookmark(s, s, c, id, patch).value;
            && Live(s.bookmarks, p.id) && p.original == s.bookmarks[p.id] && p.final.workspace == p.original.workspace && UpdateBookmark(s, c, id, patch).Ok?
            && var ws, after, direct := p.original.workspace, ApplyBookmark(s, p, c.now).0, UpdateBookmark(s, c, id, patch).value;
               var e := BookmarkEvent(id, direct.1);
               && ViewOf(after, ws) == ViewOf(direct.0, ws)
               && (p.noOp ==> after == s && BookmarkRecorded(s, p, c.now) == None)
               && (!p.noOp ==> BookmarkRecorded(s, p, c.now) == Some(e) && Applicable(ViewOf(s, ws), e))
               && (!p.noOp ==> (ViewOf(after, ws) == ApplyEvent(ViewOf(s, ws), e) <==> !BehindFolders(s, ws, e)))
  {
    BookmarkPatchIsTheUpdate(s, c, id, patch, s.bookmarks[id].workspace);
    PatchedBookmarkView(s, c, id, patch, s.bookmarks[id].workspace);
  }
}
