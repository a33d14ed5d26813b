/** Rows are never taken out: what a run of transactions leaves of every row. */
module KeptRows {
  import opened Common
  import opened SiblingOrder
  import opened RowMoves
  import opened Forest
  import opened ReplayRun

  // Every row stays, in its workspace, and deleted once it has been.
  ghost predicate RowsKept<P>(t: Table<P>, u: Table<P>) {
    forall x | x in t :: x in u && u[x].workspace == t[x].workspace && (t[x].deleted ==> u[x].deleted)
  }

  ghost predicate StoreKept(s: Store, t: Store) {
    RowsKept(s.folders, t.folders) && RowsKept(s.bookmarks, t.bookmarks)
  }

  lemma ShapesKept<P>(t: Table<P>, u: Table<P>, id: Id)
    requires t.Keys <= u.Keys && (forall x | x in t && x != id :: SameShape(u[x], t[x]))
    requires id in t ==> u[id].workspace == t[id].workspace && u[id].deleted == t[id].deleted
    ensures RowsKept(t, u)
  {
    forall x | x in t ensures u[x].workspace == t[x].workspace && (t[x].deleted ==> u[x].deleted) {
      if x != id { assert SameShape(u[x], t[x]); }
    }
  }

  lemma CreateKeepsRows<P>(t: Table<P>, id: Id, ws: Id, parent: Option<Id>, payload: P, requested: Option<int>, now: int)
    requires id !in t
    ensures RowsKept(t, Created(t, id, ws, parent, payload, requested, now))
  {
    CreatedEffect(t, id, ws, parent, payload, requested, now);
    ShapesKept(t, Created(t, id, ws, parent, payload, requested, now), id);
  }

  lemma MoveKeepsRows<P>(t: Table<P>, id: Id, target: Option<Id>, payload: P, requested: Option<int>, now: int)
    requires Live(t, id)
    ensures RowsKept(t, Moved(t, id, target, payload, requested, now))
  {
    MovedEffect(t, id, target, payload, requested, now);
    ShapesKept(t, Moved(t, id, target, payload, requested, now), id);
  }

  lemma RemovalKeepsRows<P>(t: Table<P>, dead: set<Id>, id: Id, now: int)
    requires Live(t, id) && id in dead && Members(t, t[id].workspace, t[id].parent) * dead == {id}
    ensures RowsKept(t, Removed(t, dead, id, now))
  {
    RemovedEffect(t, dead, id, now);
    var u := Removed(t, dead, id, now);
    forall x | x in t ensures x in u && u[x].workspace == t[x].workspace && (t[x].deleted ==> u[x].deleted) {
      assert SameShape(u[x], t[x].(deleted := t[x].deleted || x in dead));
    }
  }

  lemma DeletionKeepsRows(s: Store, c: Caller, id: Id)
    requires Inv(s)
    ensures DeleteFolder(s, c, id).Ok? ==> StoreKept(s, DeleteFolder(s, c, id).value)
    ensures DeleteBookmark(s, c, id).Ok? ==> StoreKept(s, DeleteBookmark(s, c, id).value)
  {
    if DeleteFolder(s, c, id).Ok? {
      SubtreeMeetsSiblingsOnce(s, id);
      RemovalKeepsRows(s.folders, DeadFolders(s, id), id, c.now);
    }
    if DeleteBookmark(s, c, id).Ok? {
      assert Members(s.bookmarks, s.bookmarks[id].workspace, s.bookmarks[id].parent) * {id} == {id};
      RemovalKeepsRows(s.bookmarks, {id}, id, c.now);
    }
  }

  lemma CommitKeepsRows(s: Store, c: Caller, cmd: Command)
    requires Inv(s) && FreshIds(s, cmd)
    ensures StoreKept(s, Commit(s, c, cmd))
  {
    match cmd
    case MakeFolder(ws, input, newId) => CreateKeepsRows(s.folders, newId, ws, input.parent, TrimSpace(input.name), input.position, c.now);
    case PatchFolder(id, patch) =>
      if Live(s.folders, id) {
        var row := s.folders[id];
        var target := FolderTarget(row, patch);
        MoveKeepsRows(s.folders, id, target, NewName(row, patch), RequestedPosition(row, target, patch.position), c.now);
      }
    case DropFolder(id) => DeletionKeepsRows(s, c, id);
    case MakeBookmark(ws, input, newId) =>
      CreateKeepsRows(s.bookmarks, newId, ws, Some(input.folder), Link(TrimSpace(input.link.title), TrimSpace(input.link.url)), input.position, c.now);
    case PatchBookmark(id, patch) =>
      if Live(s.bookmarks, id) {
        var row := s.bookmarks[id];
        var target := BookmarkTarget(row, patch);
        MoveKeepsRows(s.bookmarks, id, target, NewLink(row, patch), RequestedPosition(row, target, patch.position), c.now);
      }
    case DropBookmark(id) => DeletionKeepsRows(s, c, id);
  }

  lemma {:induction false} RunKeepsInv(stores: seq<Store>, steps: seq<Step>, n: nat)
    requires Committed(stores, steps) && Inv(stores[0]) && n <= |steps|
    ensures Inv(stores[n])
  {
    if n > 0 {
      RunKeepsInv(stores, steps, n - 1);
      CommitKeepsInv(stores[n - 1], steps[n - 1].caller, steps[n - 1].cmd);
      assert stores[n - 1 + 1] == Commit(stores[n - 1], steps[n - 1].caller, steps[n - 1].cmd);
    }
  }

  lemma {:induction false} RunKeepsRows(stores: seq<Store>, steps: seq<Step>, i: nat, n: nat)
    requires Committed(stores, steps) && Inv(stores[0]) && i <= n <= |steps|
    ensures StoreKept(stores[i], stores[n])
    decreases n
  {
    if i < n {
      RunKeepsRows(stores, steps, i, n - 1);
      RunKeepsInv(stores, steps, n - 1);
      CommitKeepsRows(stores[n - 1], steps[n - 1].caller, steps[n - 1].cmd);
      assert stores[n - 1 + 1] == Commit(stores[n - 1], steps[n - 1].caller, steps[n - 1].cmd);
    }
  }
}
