/** The bookmark service: the two tables updated in place, one method per transaction. A method either
    commits the whole new state or returns an error and leaves the tables alone. */
module BookmarkService {
  import opened Common
  import opened Ancestry
  import opened SiblingOrder
  import opened RowMoves
  import opened Forest
  import opened Prepare

  // SELECT id ... ORDER BY position, id: the least remaining row first.
  method SelectOrdered<P>(t: Table<P>, s: set<Id>) returns (ids: seq<Id>)
    requires s <= t.Keys
    ensures ids == Sorted(t, s)
  {
    ids := [];
    var rest := s;
    while rest != {}
      invariant rest <= s
      invariant ids + Sorted(t, rest) == Sorted(t, s)
      decreases |rest|
    {
      LeastExists(t, rest);
      var m :| m in rest && forall x | x in rest :: Before(t, m, x);
      assert IsLeast(t, rest, m);
      assert ids + ([m] + Sorted(t, rest - {m})) == (ids + [m]) + Sorted(t, rest - {m});
      ids := ids + [m];
      rest := rest - {m};
    }
  }

  // Room for one more id, the tail shifted up by one, the moving id written into the gap.
  method InsertAt(ids: seq<Id>, moving: Option<Id>, requested: Option<int>) returns (r: seq<Id>)
    ensures moving.None? ==> r == ids
    ensures moving.Some? ==> r == Inserted(ids, moving.value, InsertionPoint(|ids|, requested))
  {
    if moving.None? {
      return ids;
    }
    var position := |ids|;
    if requested.Some? {
      position := requested.value;
      if position < 0 {
        position := 0;
      }
      if position > |ids| {
        position := |ids|;
      }
    }
    var a := new Id[|ids| + 1](i => 0);
    for i := 0 to |ids|
      invariant a[..i] == ids[..i]
    {
      a[i] := ids[i];
    }
    var k := |ids|;
    while k > position
      invariant position <= k <= |ids|
      invariant forall i :: 0 <= i < k ==> a[i] == ids[i]
      invariant forall i :: k < i <= |ids| ==> a[i] == ids[i - 1]
    {
      a[k] := a[k - 1];
      k := k - 1;
    }
    a[position] := moving.value;
    r := a[..];
  }

  // UPDATE ... SET position = idx, one row after the other.
  method WritePositions<P>(t: Table<P>, ids: seq<Id>, now: int) returns (u: Table<P>)
    requires forall x | x in ids :: x in t
    ensures u == Renumber(t, ids, now)
  {
    u := t;
    for idx := 0 to |ids|
      invariant u == Renumber(t, ids[..idx], now)
    {
      assert ids[..idx + 1][..idx] == ids[..idx];
      assert ids[idx] in ids;
      u := u[ids[idx] := u[ids[idx]].(position := idx, updatedAt := now)];
    }
    assert ids[..|ids|] == ids;
  }

  method ReorderSiblings<P>(t: Table<P>, ws: Id, parent: Option<Id>, moving: Option<Id>, requested: Option<int>, now: int) returns (u: Table<P>)
    requires moving.Some? ==> moving.value in Members(t, ws, parent)
    ensures u == Reordered(t, ws, parent, moving, requested, now)
  {
    var group := Members(t, ws, parent);
    if moving.Some? {
      group := group - {moving.value};
    }
    var ids := SelectOrdered(t, group);
    ids := InsertAt(ids, moving, requested);
    NewOrderListsGroup(t, ws, parent, moving, requested);
    assert ids == NewOrder(t, ws, parent, moving, requested);
    u := WritePositions(t, ids, now);
  }

  // The two recursive walks and the soft deletes they feed, then the closing of the gap.
  method SoftDeleteFolder(s: Store, c: Caller, id: Id) returns (after: Store)
    requires Inv(s) && DeleteFolder(s, c, id).Ok?
    ensures after == DeleteFolder(s, c, id).value
  {
    LiveParentsAcyclic(s.folders);
    var dead := SubtreeQuery(LiveParents(s.folders), id);
    var marked := Marked(s.folders, dead, c.now);
    assert AllParents(marked) == AllParents(s.folders);
    var below := SubtreeQuery(AllParents(marked), id);
    var gone := set b | b in s.bookmarks && !s.bookmarks[b].deleted && s.bookmarks[b].parent.Some? && s.bookmarks[b].parent.value in below;
    assert gone == DeadBookmarks(s, marked, id);
    var closed := ReorderSiblings(marked, s.folders[id].workspace, s.folders[id].parent, None, None, c.now);
    after := Store(closed, Marked(s.bookmarks, gone, c.now));
  }

  class Service {
    var folders: FolderTable
    var bookmarks: BookmarkTable

    function Tables(): Store
      reads this
    {
      Store(folders, bookmarks)
    }

    ghost predicate Valid()
      reads this
    {
      Inv(Tables())
    }

    constructor ()
      ensures Valid() && Tables() == Store(map[], map[])
    {
      folders, bookmarks := map[], map[];
      EmptyStoreInv();
    }

    method CreateFolderTx(c: Caller, ws: Id, input: FolderInput, newId: Id) returns (r: Result<Row<string>, Error>)
      requires Valid() && newId !in folders && newId !in bookmarks
      modifies this
      ensures Valid()
      ensures match CreateFolder(old(Tables()), c, ws, input, newId)
              case Err(e) => r == Err(e) && Tables() == old(Tables())
              case Ok(after) => r == Ok(after.1) && Tables() == after.0
    {
      var name := TrimSpace(input.name);
      if name == "" { return Err(NameRequired); }
      if ws !in c.writable { return Err(Forbidden); }
      if input.parent.Some? && !FolderIn(Tables(), input.parent.value, ws) { return Err(NotFound); }
      CreatedEffect(folders, newId, ws, input.parent, name, input.position, c.now);
      CreateFolderKeepsInv(Tables(), c, ws, input, newId);
      var inserted := folders[newId := Row(ws, input.parent, name, 0, c.now, false)];
      folders := ReorderSiblings(inserted, ws, input.parent, Some(newId), input.position, c.now);
      r := Ok(folders[newId]);
    }

    method UpdateFolderTx(c: Caller, id: Id, patch: FolderPatch) returns (r: Result<Row<string>, Error>)
      requires Valid()
      modifies this
      ensures Valid()
      ensures match UpdateFolder(old(Tables()), c, id, patch)
              case Err(e) => r == Err(e) && Tables() == old(Tables())
              case Ok(after) => r == Ok(after.1) && Tables() == after.0
    {
      if !Live(folders, id) { return Err(NotFound); }
      var row := folders[id];
      if row.workspace !in c.writable { return Err(Forbidden); }
      var target := FolderTarget(row, patch);
      if target.Some? {
        if !FolderIn(Tables(), target.value, row.workspace) { return Err(NotFound); }
        if target.value == id { return Err(OwnParent); }
        LiveParentsAcyclic(folders);
        var below := SubtreeQuery(LiveParents(folders), id);
        if target.value in below { return Err(OwnSubtree); }
      }
      if patch.name.Some? && TrimSpace(patch.name.value) == "" { return Err(NameRequired); }
      var position := RequestedPosition(row, target, patch.position);
      var name := NewName(row, patch);
      MovedEffect(folders, id, target, name, position, c.now);
      DetachedEffect(folders, id, target, name, c.now);
      UpdateFolderKeepsInv(Tables(), c, id, patch);
      var t := folders[id := row.(parent := target, payload := name, updatedAt := c.now)];
      if row.parent != target {
        t := ReorderSiblings(t, row.workspace, row.parent, None, None, c.now);
      }
      folders := ReorderSiblings(t, row.workspace, target, Some(id), position, c.now);
      r := Ok(folders[id]);
    }

    method DeleteFolderTx(c: Caller, id: Id) returns (r: Result<(), Error>)
      requires Valid()
      modifies this
      ensures Valid()
      ensures match DeleteFolder(old(Tables()), c, id)
              case Err(e) => r == Err(e) && Tables() == old(Tables())
              case Ok(after) => r.Ok? && Tables() == after
    {
      if !Live(folders, id) { return Err(NotFound); }
      var row := folders[id];
      if row.workspace !in c.writable { return Err(Forbidden); }
      DeleteFolderKeepsInv(Tables(), c, id);
      var after := SoftDeleteFolder(Tables(), c, id);
      bookmarks, folders := after.bookmarks, after.folders;
      r := Ok(());
    }

    method CreateBookmarkTx(c: Caller, ws: Id, input: BookmarkInput, newId: Id) returns (r: Result<Row<Link>, Error>)
      requires Valid() && newId !in folders && newId !in bookmarks
      modifies this
      ensures Valid()
      ensures match CreateBookmark(old(Tables()), c, ws, input, newId)
              case Err(e) => r == Err(e) && Tables() == old(Tables())
              case Ok(after) => r == Ok(after.1) && Tables() == after.0
    {
      var link := Link(TrimSpace(input.link.title), TrimSpace(input.link.url));
      if link.title == "" { return Err(TitleRequired); }
      if !c.validUrl(link.url) { return Err(InvalidUrl); }
      if ws !in c.writable { return Err(Forbidden); }
      if !FolderIn(Tables(), input.folder, ws) { return Err(NotFound); }
      CreatedEffect(bookmarks, newId, ws, Some(input.folder), link, input.position, c.now);
      CreateBookmarkKeepsInv(Tables(), c, ws, input, newId);
      var inserted := bookmarks[newId := Row(ws, Some(input.folder), link, 0, c.now, false)];
      bookmarks := ReorderSiblings(inserted, ws, Some(input.folder), Some(newId), input.position, c.now);
      r := Ok(bookmarks[newId]);
    }

    method UpdateBookmarkTx(c: Caller, id: Id, patch: BookmarkPatch) returns (r: Result<Row<Link>, Error>)
      requires Valid()
      modifies this
      ensures Valid()
      ensures match UpdateBookmark(old(Tables()), c, id, patch)
              case Err(e) => r == Err(e) && Tables() == old(Tables())
              case Ok(after) => r == Ok(after.1) && Tables() == after.0
    {
      if !Live(bookmarks, id) { return Err(NotFound); }
      var row := bookmarks[id];
      if row.workspace !in c.writable { return Err(Forbidden); }
      var target := BookmarkTarget(row, patch);
      if target.None? || !FolderIn(Tables(), target.value, row.workspace) { return Err(NotFound); }
      var link := NewLink(row, patch);
      if patch.title.Some? && link.title == "" { return Err(TitleRequired); }
      if patch.url.Some? && !c.validUrl(link.url) { return Err(InvalidUrl); }
      var position := RequestedPosition(row, target, patch.position);
      MovedEffect(bookmarks, id, target, link, position, c.now);
      DetachedEffect(bookmarks, id, target, link, c.now);
      UpdateBookmarkKeepsInv(Tables(), c, id, patch);
      var t := bookmarks[id := row.(parent := target, payload := link, updatedAt := c.now)];
      if row.parent != target {
        t := ReorderSiblings(t, row.workspace, row.parent, None, None, c.now);
      }
      bookmarks := ReorderSiblings(t, row.workspace, target, Some(id), position, c.now);
      r := Ok(bookmarks[id]);
    }

    method DeleteBookmarkTx(c: Caller, id: Id) returns (r: Result<(), Error>)
      requires Valid()
      modifies this
      ensures Valid()
      ensures match DeleteBookmark(old(Tables()), c, id)
              case Err(e) => r == Err(e) && Tables() == old(Tables())
              case Ok(after) => r.Ok? && Tables() == after
    {
      if !Live(bookmarks, id) { return Err(NotFound); }
      var row := bookmarks[id];
      if row.workspace !in c.writable { return Err(Forbidden); }
      DeleteBookmarkKeepsInv(Tables(), c, id);
      var marked := Marked(bookmarks, {id}, c.now);
      bookmarks := ReorderSiblings(marked, row.workspace, row.parent, None, None, c.now);
      r := Ok(());
    }

    // The caller prepared p in this same transaction, so its original row is still the stored one.
    method ApplyPreparedFolderPatchTx(c: Caller, seen: Store, patch: FolderPatch, p: Prepared<string>) returns (row: Row<string>)
      requires Valid() && PrepareFolder(seen, Tables(), c, p.id, patch) == Ok(p)
      modifies this
      ensures Valid() && bookmarks == old(bookmarks)
      ensures row == p.final
      ensures p.noOp ==> folders == old(folders)
      ensures !p.noOp ==> p.id in folders && UpdateFolder(old(Tables()), c, p.id, patch) == Ok((Tables(), folders[p.id]))
    {
      FolderApplyIsDirect(Tables(), c, seen, patch, p);
      UpdateFolderKeepsInv(Tables(), c, p.id, patch);
      if p.noOp {
        return p.final;
      }
      folders := ApplyRow(folders, p, c.now);
      row := p.final;
    }

    method ApplyPreparedBookmarkPatchTx(c: Caller, seen: Store, patch: BookmarkPatch, p: Prepared<Link>) returns (row: Row<Link>)
      requires Valid() && PrepareBookmark(seen, Tables(), c, p.id, patch) == Ok(p)
      modifies this
      ensures Valid() && folders == old(folders)
      ensures row == p.final
      ensures p.noOp ==> bookmarks == old(bookmarks)
      ensures !p.noOp ==> p.id in bookmarks && UpdateBookmark(old(Tables()), c, p.id, patch) == Ok((Tables(), bookmarks[p.id]))
    {
      BookmarkApplyIsDirect(Tables(), c, seen, patch, p);
      UpdateBookmarkKeepsInv(Tables(), c, p.id, patch);
      if p.noOp {
        return p.final;
      }
      bookmarks := ApplyRow(bookmarks, p, c.now);
      row := p.final;
    }
  }

  // UPDATE of parent and payload without touching updated_at, then the same renumberings as a direct update.
  method ApplyRow<P>(t: Table<P>, p: Prepared<P>, now: int) returns (u: Table<P>)
    requires Live(t, p.id) && p.original == t[p.id] && p.final.workspace == p.original.workspace && !p.noOp
    ensures u == Applied(t, p, now).0
  {
    ghost var d := Detached(t, p.id, p.final.parent, p.final.payload, now);
    ApplyDetachedAgrees(t, p, now);
    DetachedEffect(t, p.id, p.final.parent, p.final.payload, now);
    AgreeButMembers(d, ApplyDetached(t, p, now), p.id, p.final.workspace, p.final.parent);
    var t1 := t[p.id := t[p.id].(parent := p.final.parent, payload := p.final.payload)];
    if p.original.parent != p.final.parent {
      t1 := ReorderSiblings(t1, p.original.workspace, p.original.parent, None, None, now);
    }
    u := ReorderSiblings(t1, p.final.workspace, p.final.parent, Some(p.id), Some(p.final.position), now);
  }

  lemma FolderApplyIsDirect(s: Store, c: Caller, seen: Store, patch: FolderPatch, p: Prepared<string>)
    requires Inv(s) && PrepareFolder(seen, s, c, p.id, patch) == Ok(p)
    ensures Live(s.folders, p.id) && p.original == s.folders[p.id] && p.final.workspace == p.original.workspace
    ensures UpdateFolder(s, c, p.id, patch).Ok?
    ensures !p.noOp ==> var u := Applied(s.folders, p, c.now).0;
                        p.id in u && UpdateFolder(s, c, p.id, patch).value == (s.(folders := u), u[p.id])
  {
    NoDriftMeansSerialFolder(seen, s, c, p.id, patch);
    FolderPathsAgree(s, c, p.id, patch);
  }

  lemma BookmarkApplyIsDirect(s: Store, c: Caller, seen: Store, patch: BookmarkPatch, p: Prepared<Link>)
    requires Inv(s) && PrepareBookmark(seen, s, c, p.id, patch) == Ok(p)
    ensures Live(s.bookmarks, p.id) && p.original == s.bookmarks[p.id] && p.final.workspace == p.original.workspace
    ensures UpdateBookmark(s, c, p.id, patch).Ok?
    ensures !p.noOp ==> var u := Applied(s.bookmarks, p, c.now).0;
                        p.id in u && UpdateBookmark(s, c, p.id, patch).value == (s.(bookmarks := u), u[p.id])
  {
    NoDriftMeansSerialBookmark(seen, s, c, p.id, patch);
    BookmarkPathsAgree(s, c, p.id, patch);
  }

  lemma LiveParentsAcyclic(t: FolderTable)
    requires Acyclic(AllParents(t))
    ensures Acyclic(LiveParents(t))
  {
    var r :| Ranked(AllParents(t), r);
    assert Ranked(LiveParents(t), r);
  }
}
