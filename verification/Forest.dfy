/** The folder and bookmark tables, the invariant of the forest they describe, and the six
    transactions as functions from one committed state to the next. */
module Forest {
  import opened Common
  import opened Ancestry
  import opened SiblingOrder
  import opened RowMoves

  datatype Link = Link(title: string, url: string)

  type FolderTable = Table<string>
  type BookmarkTable = Table<Link>

  datatype Store = Store(folders: FolderTable, bookmarks: BookmarkTable)

  datatype Error = NotFound | Forbidden | NameRequired | TitleRequired | InvalidUrl | OwnParent | OwnSubtree

  // What a transaction knows besides the tables: the caller's writable workspaces, NOW(), URL parsing.
  datatype Caller = Caller(writable: set<Id>, now: int, validUrl: string -> bool)

  datatype FolderInput = FolderInput(parent: Option<Id>, name: string, position: Option<int>)
  datatype FolderPatch = FolderPatch(name: Option<string>, parent: Option<Option<Id>>, position: Option<int>)
  datatype BookmarkInput = BookmarkInput(folder: Id, link: Link, position: Option<int>)
  // folder: Some(None) is an explicit null, which the update treats like an absent field.
  datatype BookmarkPatch = BookmarkPatch(folder: Option<Option<Id>>, title: Option<string>, url: Option<string>, position: Option<int>)

  predicate IsSpace(c: char) {
    c in "\t\n\r \U{000B}\U{000C}\U{0085}\U{00A0}\U{1680}\U{2028}\U{2029}\U{202F}\U{205F}\U{3000}" || '\U{2000}' <= c <= '\U{200A}'
  }

  function TrimSpace(s: string): string {
    if s == "" then ""
    else if IsSpace(s[0]) then TrimSpace(s[1..])
    else if IsSpace(s[|s| - 1]) then TrimSpace(s[..|s| - 1])
    else s
  }

  function AllParents<P>(t: Table<P>): Parents {
    map x | x in t :: t[x].parent
  }

  function LiveParents<P>(t: Table<P>): Parents {
    map x | x in t && !t[x].deleted :: t[x].parent
  }

  // Every row's parent exists; a live row's parent is live and in the same workspace.
  ghost predicate Linked<P, Q>(t: Table<P>, above: Table<Q>) {
    forall x {:trigger t[x].parent} | x in t && t[x].parent.Some? ::
      var p := t[x].parent.value;
      p in above && (!t[x].deleted ==> !above[p].deleted && above[p].workspace == t[x].workspace)
  }

  ghost predicate Inv(s: Store) {
    && Linked(s.folders, s.folders)
    && Linked(s.bookmarks, s.folders)
    && (forall x | x in s.bookmarks :: s.bookmarks[x].parent.Some?)
    && Acyclic(AllParents(s.folders))
    && AllDense(s.folders)
    && AllDense(s.bookmarks)
    && s.folders.Keys !! s.bookmarks.Keys
  }

  predicate FolderIn(s: Store, id: Id, ws: Id) {
    Live(s.folders, id) && s.folders[id].workspace == ws
  }

  // ---------- transactions ----------

  ghost function CreateFolder(s: Store, c: Caller, ws: Id, input: FolderInput, newId: Id): Result<(Store, Row<string>), Error>
    requires newId !in s.folders
  {
    var name := TrimSpace(input.name);
    if name == "" then Err(NameRequired)
    else if ws !in c.writable then Err(Forbidden)
    else if input.parent.Some? && !FolderIn(s, input.parent.value, ws) then Err(NotFound)
    else
      CreatedEffect(s.folders, newId, ws, input.parent, name, input.position, c.now);
      var u := Created(s.folders, newId, ws, input.parent, name, input.position, c.now);
      Ok((s.(folders := u), u[newId]))
  }

  function FolderTarget(row: Row<string>, patch: FolderPatch): Option<Id> {
    match patch.parent case Some(p) => p case None => row.parent
  }

  // The checks UpdateFolderTx and PrepareFolderPatchTx make, in their common order.
  ghost function FolderPatchError(s: Store, c: Caller, id: Id, patch: FolderPatch): Option<Error> {
    if !Live(s.folders, id) then Some(NotFound)
    else
      var row := s.folders[id];
      var target := FolderTarget(row, patch);
      if row.workspace !in c.writable then Some(Forbidden)
      else if target.Some? && !FolderIn(s, target.value, row.workspace) then Some(NotFound)
      else if target == Some(id) then Some(OwnParent)
      else if target.Some? && target.value in Subtree(LiveParents(s.folders), id) then Some(OwnSubtree)
      else if patch.name.Some? && TrimSpace(patch.name.value) == "" then Some(NameRequired)
      else None
  }

  function NewName(row: Row<string>, patch: FolderPatch): string {
    match patch.name case Some(n) => TrimSpace(n) case None => row.payload
  }

  // An absent position keeps the current one in place and means the end when the parent changes.
  function RequestedPosition<P>(row: Row<P>, target: Option<Id>, position: Option<int>): Option<int> {
    if position.Some? then position
    else if row.parent != target then None
    else Some(row.position)
  }

  ghost function UpdateFolder(s: Store, c: Caller, id: Id, patch: FolderPatch): Result<(Store, Row<string>), Error> {
    match FolderPatchError(s, c, id, patch)
    case Some(e) => Err(e)
    case None =>
      var row := s.folders[id];
      var target := FolderTarget(row, patch);
      var u := Moved(s.folders, id, target, NewName(row, patch), RequestedPosition(row, target, patch.position), c.now);
      MovedEffect(s.folders, id, target, NewName(row, patch), RequestedPosition(row, target, patch.position), c.now);
      Ok((s.(folders := u), u[id]))
  }

  ghost function DeadFolders(s: Store, id: Id): set<Id> {
    Subtree(LiveParents(s.folders), id)
  }

  // The second walk ignores deletion marks: it runs after the first one has set them.
  ghost function DeadBookmarks(s: Store, folders: FolderTable, id: Id): set<Id> {
    set b | b in s.bookmarks && !s.bookmarks[b].deleted && s.bookmarks[b].parent.Some? && s.bookmarks[b].parent.value in Subtree(AllParents(folders), id)
  }

  ghost function DeleteFolder(s: Store, c: Caller, id: Id): Result<Store, Error> {
    if !Live(s.folders, id) then Err(NotFound)
    else if s.folders[id].workspace !in c.writable then Err(Forbidden)
    else
      var dead := DeadFolders(s, id);
      var marked := Marked(s.folders, dead, c.now);
      Ok(Store(Removed(s.folders, dead, id, c.now), Marked(s.bookmarks, DeadBookmarks(s, marked, id), c.now)))
  }

  ghost function CreateBookmark(s: Store, c: Caller, ws: Id, input: BookmarkInput, newId: Id): Result<(Store, Row<Link>), Error>
    requires newId !in s.bookmarks
  {
    var link := Link(TrimSpace(input.link.title), TrimSpace(input.link.url));
    if link.title == "" then Err(TitleRequired)
    else if !c.validUrl(link.url) then Err(InvalidUrl)
    else if ws !in c.writable then Err(Forbidden)
    else if !FolderIn(s, input.folder, ws) then Err(NotFound)
    else
      CreatedEffect(s.bookmarks, newId, ws, Some(input.folder), link, input.position, c.now);
      var u := Created(s.bookmarks, newId, ws, Some(input.folder), link, input.position, c.now);
      Ok((s.(bookmarks := u), u[newId]))
  }

  function BookmarkTarget(row: Row<Link>, patch: BookmarkPatch): Option<Id> {
    if patch.folder.Some? && patch.folder.value.Some? then patch.folder.value else row.parent
  }

  function NewLink(row: Row<Link>, patch: BookmarkPatch): Link {
    Link(match patch.title case Some(t) => TrimSpace(t) case None => row.payload.title,
         match patch.url case Some(u) => TrimSpace(u) case None => row.payload.url)
  }

  ghost function BookmarkPatchError(s: Store, c: Caller, id: Id, patch: BookmarkPatch): Option<Error> {
    if !Live(s.bookmarks, id) then Some(NotFound)
    else
      var row := s.bookmarks[id];
      var target := BookmarkTarget(row, patch);
      if row.workspace !in c.writable then Some(Forbidden)
      else if target.None? || !FolderIn(s, target.value, row.workspace) then Some(NotFound)
      else if patch.title.Some? && NewLink(row, patch).title == "" then Some(TitleRequired)
      else if patch.url.Some? && !c.validUrl(NewLink(row, patch).url) then Some(InvalidUrl)
      else None
  }

  ghost function UpdateBookmark(s: Store, c: Caller, id: Id, patch: BookmarkPatch): Result<(Store, Row<Link>), Error> {
    match BookmarkPatchError(s, c, id, patch)
    case Some(e) => Err(e)
    case None =>
      var row := s.bookmarks[id];
      var target := BookmarkTarget(row, patch);
      var u := Moved(s.bookmarks, id, target, NewLink(row, patch), RequestedPosition(row, target, patch.position), c.now);
      MovedEffect(s.bookmarks, id, target, NewLink(row, patch), RequestedPosition(row, target, patch.position), c.now);
      Ok((s.(bookmarks := u), u[id]))
  }

  ghost function DeleteBookmark(s: Store, c: Caller, id: Id): Result<Store, Error> {
    if !Live(s.bookmarks, id) then Err(NotFound)
    else if s.bookmarks[id].workspace !in c.writable then Err(Forbidden)
    else Ok(s.(bookmarks := Removed(s.bookmarks, {id}, id, c.now)))
  }

  // ---------- the invariant over every transaction ----------

  // Climbing from a live folder never meets a deleted one, so both recursive walks agree on it.
  lemma {:induction false} LiveWalkIsFullWalk(t: FolderTable, x: Id, n: nat)
    requires Linked(t, t) && Live(t, x)
    ensures Up(LiveParents(t), x, n) == Up(AllParents(t), x, n)
    decreases n
  {
    if n > 0 && t[x].parent.Some? {
      LiveWalkIsFullWalk(t, t[x].parent.value, n - 1);
    }
  }

  lemma LiveReachesIff(t: FolderTable, x: Id, y: Id)
    requires Linked(t, t) && Live(t, x)
    ensures Reaches(LiveParents(t), x, y) <==> Reaches(AllParents(t), x, y)
  {
    if n: nat :| Up(LiveParents(t), x, n) == Some(y) {
      LiveWalkIsFullWalk(t, x, n);
    }
    if n: nat :| Up(AllParents(t), x, n) == Some(y) {
      LiveWalkIsFullWalk(t, x, n);
    }
  }

  lemma CreatedLinks(t: FolderTable, u: FolderTable, newId: Id)
    requires Linked(t, t) && newId !in t && u.Keys == t.Keys + {newId}
    requires forall x | x in t :: SameShape(u[x], t[x])
    requires u[newId].parent.Some? ==> FolderIn(Store(t, map[]), u[newId].parent.value, u[newId].workspace)
    ensures Linked(u, u)
    ensures AllParents(u) == AllParents(t)[newId := u[newId].parent]
  {
    forall x | x in u && u[x].parent.Some?
      ensures var p := u[x].parent.value; p in u && (!u[x].deleted ==> !u[p].deleted && u[p].workspace == u[x].workspace)
    {
      if x != newId {
        assert SameShape(u[x], t[x]);
      }
      assert SameShape(u[u[x].parent.value], t[u[x].parent.value]);
    }
  }

  lemma CreateFolderKeepsInv(s: Store, c: Caller, ws: Id, input: FolderInput, newId: Id)
    requires Inv(s) && newId !in s.folders && newId !in s.bookmarks
    requires CreateFolder(s, c, ws, input, newId).Ok?
    ensures Inv(CreateFolder(s, c, ws, input, newId).value.0)
  {
    var t := s.folders;
    var name := TrimSpace(input.name);
    var u := Created(t, newId, ws, input.parent, name, input.position, c.now);
    CreatedEffect(t, newId, ws, input.parent, name, input.position, c.now);
    CreatedKeepsDense(t, newId, ws, input.parent, name, input.position, c.now);
    CreatedLinks(t, u, newId);
    AddingLeafKeepsAcyclic(AllParents(t), newId, input.parent);
  }

  lemma ReparentedLinks(t: FolderTable, u: FolderTable, id: Id)
    requires Linked(t, t) && id in t && u.Keys == t.Keys
    requires forall x | x in t && x != id :: SameShape(u[x], t[x])
    requires u[id].deleted == t[id].deleted && u[id].workspace == t[id].workspace
    requires u[id].parent.Some? ==> FolderIn(Store(t, map[]), u[id].parent.value, t[id].workspace)
    ensures Linked(u, u)
    ensures AllParents(u) == AllParents(t)[id := u[id].parent]
  {
    forall x | x in u && u[x].parent.Some?
      ensures var p := u[x].parent.value; p in u && (!u[x].deleted ==> !u[p].deleted && u[p].workspace == u[x].workspace)
    {
      var p := u[x].parent.value;
      if p in t {
        assert p != id ==> SameShape(u[p], t[p]);
      }
      if x != id {
        assert SameShape(u[x], t[x]);
      }
    }
  }

  lemma UpdateFolderKeepsInv(s: Store, c: Caller, id: Id, patch: FolderPatch)
    requires Inv(s) && UpdateFolder(s, c, id, patch).Ok?
    ensures Inv(UpdateFolder(s, c, id, patch).value.0)
  {
    var row := s.folders[id];
    var target := FolderTarget(row, patch);
    var req := RequestedPosition(row, target, patch.position);
    FolderMoveKeepsInv(s, id, target, NewName(row, patch), req, c.now);
  }

  // A folder patch is accepted exactly when the caller may write, the name it brings is not blank, and the parent
  // it brings is there and closes no cycle; a patch that brings none leaves the folder where it may be.
  lemma FolderPatchAcceptedIff(s: Store, c: Caller, id: Id, patch: FolderPatch)
    requires Inv(s)
    ensures UpdateFolder(s, c, id, patch).Ok? <==>
            && Live(s.folders, id) && s.folders[id].workspace in c.writable
            && (patch.name.Some? ==> TrimSpace(patch.name.value) != "")
            && (patch.parent.Some? && patch.parent.value.Some? ==>
                  FolderIn(s, patch.parent.value.value, s.folders[id].workspace) && Acyclic(AllParents(s.folders)[id := patch.parent.value]))
  {
    if Live(s.folders, id) {
      var target := FolderTarget(s.folders[id], patch);
      MovingKeepsAcyclicIff(AllParents(s.folders), id, target);
      if target.Some? && FolderIn(s, target.value, s.folders[id].workspace) {
        LiveReachesIff(s.folders, target.value, id);
        ReachesStep(AllParents(s.folders), target.value, id);
      }
      if patch.parent.None? { assert AllParents(s.folders)[id := target] == AllParents(s.folders); }
    }
  }

  lemma FolderMoveKeepsInv(s: Store, id: Id, target: Option<Id>, name: string, req: Option<int>, now: int)
    requires Inv(s) && Live(s.folders, id)
    requires target.Some? ==> FolderIn(s, target.value, s.folders[id].workspace) && target.value !in Subtree(LiveParents(s.folders), id)
    ensures Inv(s.(folders := Moved(s.folders, id, target, name, req, now)))
  {
    var t := s.folders;
    var u := Moved(t, id, target, name, req, now);
    MovedEffect(t, id, target, name, req, now);
    ReparentedLinks(t, u, id);
    if target.Some? {
      LiveReachesIff(t, target.value, id);
    }
    MovingKeepsAcyclicIff(AllParents(t), id, target);
    MovedKeepsDense(t, id, target, name, req, now);
  }

  // Among the siblings of a folder only the folder itself lies in its subtree.
  lemma SubtreeMeetsSiblingsOnce(s: Store, id: Id)
    requires Inv(s) && Live(s.folders, id)
    ensures Members(s.folders, s.folders[id].workspace, s.folders[id].parent) * DeadFolders(s, id) == {id}
    ensures DeadFolders(s, id) <= s.folders.Keys
    ensures forall x | x in DeadFolders(s, id) :: Live(s.folders, x)
  {
    var t := s.folders;
    var p := LiveParents(t);
    assert Up(p, id, 0) == Some(id);
    forall x | x in Members(t, t[id].workspace, t[id].parent) && x in DeadFolders(s, id) ensures x == id {
      LiveReachesIff(t, x, id);
      var n: nat :| Up(AllParents(t), x, n) == Some(id);
      if n > 0 {
        var q := t[id].parent.value;
        assert Up(AllParents(t), q, n - 1) == Some(id);
        assert Up(AllParents(t), id, n) == Some(id);
        AcyclicHasNoCycle(AllParents(t), id, n);
      }
    }
  }

  lemma DeadFoldersExact(s: Store, id: Id, now: int)
    requires Inv(s) && Live(s.folders, id)
    ensures var u := Removed(s.folders, DeadFolders(s, id), id, now);
            && u.Keys == s.folders.Keys
            && (forall x | x in s.folders :: SameShape(u[x], s.folders[x].(deleted := u[x].deleted)))
            && (forall x | x in s.folders :: (Live(u, x) <==> Live(s.folders, x) && !Reaches(AllParents(s.folders), x, id)))
  {
    var dead := DeadFolders(s, id);
    SubtreeMeetsSiblingsOnce(s, id);
    RemovedEffect(s.folders, dead, id, now);
    var u := Removed(s.folders, dead, id, now);
    forall x | x in s.folders
      ensures SameShape(u[x], s.folders[x].(deleted := u[x].deleted))
      ensures Live(u, x) <==> Live(s.folders, x) && !Reaches(AllParents(s.folders), x, id)
    {
      assert SameShape(u[x], s.folders[x].(deleted := s.folders[x].deleted || x in dead));
      if Live(s.folders, x) {
        LiveReachesIff(s.folders, x, id);
      }
    }
  }

  // The soft delete of a folder removes exactly the live folders below it and the live bookmarks in them.
  lemma DeleteFolderIsExact(s: Store, c: Caller, id: Id)
    requires Inv(s) && DeleteFolder(s, c, id).Ok?
    ensures var u := DeleteFolder(s, c, id).value;
            && u.folders.Keys == s.folders.Keys && u.bookmarks.Keys == s.bookmarks.Keys
            && (forall x | x in s.folders ::
                  (Live(u.folders, x) <==> Live(s.folders, x) && !Reaches(AllParents(s.folders), x, id)))
            && (forall b | b in s.bookmarks ::
                  (Live(u.bookmarks, b) <==> Live(s.bookmarks, b) && !Reaches(AllParents(s.folders), s.bookmarks[b].parent.value, id)))
            && (forall x | x in s.folders :: SameShape(u.folders[x], s.folders[x].(deleted := u.folders[x].deleted)))
            && (forall b | b in s.bookmarks :: SameShape(u.bookmarks[b], s.bookmarks[b].(deleted := u.bookmarks[b].deleted)))
  {
    DeadFoldersExact(s, id, c.now);
    var u := DeleteFolder(s, c, id).value;
    var marked := Marked(s.folders, DeadFolders(s, id), c.now);
    assert AllParents(marked) == AllParents(s.folders);
    forall b | b in s.bookmarks
      ensures Live(u.bookmarks, b) <==> Live(s.bookmarks, b) && !Reaches(AllParents(s.folders), s.bookmarks[b].parent.value, id)
    {
    }
  }

  lemma DeleteFolderKeepsLinks(s: Store, c: Caller, id: Id)
    requires Inv(s) && DeleteFolder(s, c, id).Ok?
    ensures var u := DeleteFolder(s, c, id).value;
            Linked(u.folders, u.folders) && Linked(u.bookmarks, u.folders) && AllParents(u.folders) == AllParents(s.folders)
  {
    DeleteFolderIsExact(s, c, id);
    var u := DeleteFolder(s, c, id).value;
    var p := AllParents(s.folders);
    forall x | x in u.folders && u.folders[x].parent.Some?
      ensures var q := u.folders[x].parent.value; q in u.folders && (!u.folders[x].deleted ==> !u.folders[q].deleted && u.folders[q].workspace == u.folders[x].workspace)
    {
      ReachesStep(p, x, id);
      assert SameShape(u.folders[x], s.folders[x].(deleted := u.folders[x].deleted));
      var q := u.folders[x].parent.value;
      assert SameShape(u.folders[q], s.folders[q].(deleted := u.folders[q].deleted));
      if !u.folders[x].deleted {
        assert Live(u.folders, x);
        assert Live(u.folders, q);
      }
    }
    forall b | b in u.bookmarks && u.bookmarks[b].parent.Some?
      ensures var q := u.bookmarks[b].parent.value; q in u.folders && (!u.bookmarks[b].deleted ==> !u.folders[q].deleted && u.folders[q].workspace == u.bookmarks[b].workspace)
    {
      assert SameShape(u.bookmarks[b], s.bookmarks[b].(deleted := u.bookmarks[b].deleted));
      var q := u.bookmarks[b].parent.value;
      assert SameShape(u.folders[q], s.folders[q].(deleted := u.folders[q].deleted));
      if !u.bookmarks[b].deleted {
        assert Live(u.bookmarks, b);
        assert Live(u.folders, q);
      }
    }
  }

  lemma DeleteFolderKeepsDense(s: Store, c: Caller, id: Id)
    requires Inv(s) && DeleteFolder(s, c, id).Ok?
    ensures AllDense(DeleteFolder(s, c, id).value.folders) && AllDense(DeleteFolder(s, c, id).value.bookmarks)
  {
    var t := s.folders;
    var dead := DeadFolders(s, id);
    var marked := Marked(t, dead, c.now);
    SubtreeMeetsSiblingsOnce(s, id);
    RemovedEffect(t, dead, id, c.now);
    forall w: Id, p: Option<Id> ensures Dense(Removed(t, dead, id, c.now), w, p) {
      if (w, p) != (t[id].workspace, t[id].parent) {
        RemovedElsewhere(t, dead, id, c.now, w, p);
        DeadGroup(s, id, w, p);
        if p.Some? && p.value in dead {
          MarkedEmptied(t, dead, c.now, w, p);
        } else {
          MarkedUntouched(t, dead, c.now, w, p);
        }
      }
    }
    var gone := DeadBookmarks(s, marked, id);
    forall w: Id, p: Option<Id> ensures Dense(Marked(s.bookmarks, gone, c.now), w, p) {
      if p.Some? && p.value in Subtree(AllParents(marked), id) {
        MarkedEmptied(s.bookmarks, gone, c.now, w, p);
      } else {
        MarkedUntouched(s.bookmarks, gone, c.now, w, p);
      }
    }
  }

  // A folder group other than the deleted folder's own dies as a whole or not at all.
  lemma DeadGroup(s: Store, id: Id, w: Id, p: Option<Id>)
    requires Inv(s) && Live(s.folders, id)
    requires (w, p) != (s.folders[id].workspace, s.folders[id].parent)
    ensures if p.Some? && p.value in DeadFolders(s, id) then Members(s.folders, w, p) <= DeadFolders(s, id)
            else Members(s.folders, w, p) !! DeadFolders(s, id)
  {
    var q := LiveParents(s.folders);
    forall x | x in Members(s.folders, w, p)
      ensures x in DeadFolders(s, id) <==> p.Some? && p.value in DeadFolders(s, id)
    {
      ReachesStep(q, x, id);
    }
  }

  lemma DeleteFolderKeepsInv(s: Store, c: Caller, id: Id)
    requires Inv(s) && DeleteFolder(s, c, id).Ok?
    ensures Inv(DeleteFolder(s, c, id).value)
  {
    DeleteFolderIsExact(s, c, id);
    DeleteFolderKeepsLinks(s, c, id);
    DeleteFolderKeepsDense(s, c, id);
    var u := DeleteFolder(s, c, id).value;
    forall b | b in u.bookmarks ensures u.bookmarks[b].parent.Some? {
      assert SameShape(u.bookmarks[b], s.bookmarks[b].(deleted := u.bookmarks[b].deleted));
    }
  }

  lemma CreateBookmarkKeepsInv(s: Store, c: Caller, ws: Id, input: BookmarkInput, newId: Id)
    requires Inv(s) && newId !in s.folders && newId !in s.bookmarks
    requires CreateBookmark(s, c, ws, input, newId).Ok?
    ensures Inv(CreateBookmark(s, c, ws, input, newId).value.0)
  {
    var link := Link(TrimSpace(input.link.title), TrimSpace(input.link.url));
    CreatedEffect(s.bookmarks, newId, ws, Some(input.folder), link, input.position, c.now);
    CreatedKeepsDense(s.bookmarks, newId, ws, Some(input.folder), link, input.position, c.now);
    var u := CreateBookmark(s, c, ws, input, newId).value.0.bookmarks;
    assert forall x | x in s.bookmarks :: SameShape(u[x], s.bookmarks[x]);
  }

  lemma UpdateBookmarkKeepsInv(s: Store, c: Caller, id: Id, patch: BookmarkPatch)
    requires Inv(s) && UpdateBookmark(s, c, id, patch).Ok?
    ensures Inv(UpdateBookmark(s, c, id, patch).value.0)
  {
    var row := s.bookmarks[id];
    var target := BookmarkTarget(row, patch);
    var req := RequestedPosition(row, target, patch.position);
    MovedEffect(s.bookmarks, id, target, NewLink(row, patch), req, c.now);
    MovedKeepsDense(s.bookmarks, id, target, NewLink(row, patch), req, c.now);
    var u := UpdateBookmark(s, c, id, patch).value.0.bookmarks;
    assert forall x | x in s.bookmarks && x != id :: SameShape(u[x], s.bookmarks[x]);
  }

  lemma DeleteBookmarkKeepsInv(s: Store, c: Caller, id: Id)
    requires Inv(s) && DeleteBookmark(s, c, id).Ok?
    ensures Inv(DeleteBookmark(s, c, id).value)
  {
    var t := s.bookmarks;
    assert Members(t, t[id].workspace, t[id].parent) * {id} == {id};
    RemovedEffect(t, {id}, id, c.now);
    var u := DeleteBookmark(s, c, id).value.bookmarks;
    assert forall x | x in t :: SameShape(u[x], t[x].(deleted := t[x].deleted || x in {id}));
    forall w: Id, p: Option<Id> ensures Dense(u, w, p) {
      if (w, p) != (t[id].workspace, t[id].parent) {
        RemovedElsewhere(t, {id}, id, c.now, w, p);
        MarkedUntouched(t, {id}, c.now, w, p);
      }
    }
  }

  // ---------- runs ----------

  datatype Command =
    | MakeFolder(ws: Id, folderInput: FolderInput, newId: Id)
    | PatchFolder(id: Id, folderPatch: FolderPatch)
    | DropFolder(id: Id)
    | MakeBookmark(ws: Id, bookmarkInput: BookmarkInput, newId: Id)
    | PatchBookmark(id: Id, bookmarkPatch: BookmarkPatch)
    | DropBookmark(id: Id)

  // gen_random_uuid() never returns an id already in a table.
  ghost predicate FreshIds(s: Store, cmd: Command) {
    (cmd.MakeFolder? || cmd.MakeBookmark?) ==> cmd.newId !in s.folders && cmd.newId !in s.bookmarks
  }

  // One transaction: its effect when it commits, no effect when it fails.
  ghost function Commit(s: Store, c: Caller, cmd: Command): Store
    requires FreshIds(s, cmd)
  {
    match cmd
    case MakeFolder(ws, input, newId) => (match CreateFolder(s, c, ws, input, newId) case Ok(r) => r.0 case Err(_) => s)
    case PatchFolder(id, patch) => (match UpdateFolder(s, c, id, patch) case Ok(r) => r.0 case Err(_) => s)
    case DropFolder(id) => (match DeleteFolder(s, c, id) case Ok(u) => u case Err(_) => s)
    case MakeBookmark(ws, input, newId) => (match CreateBookmark(s, c, ws, input, newId) case Ok(r) => r.0 case Err(_) => s)
    case PatchBookmark(id, patch) => (match UpdateBookmark(s, c, id, patch) case Ok(r) => r.0 case Err(_) => s)
    case DropBookmark(id) => (match DeleteBookmark(s, c, id) case Ok(u) => u case Err(_) => s)
  }

  lemma CommitKeepsInv(s: Store, c: Caller, cmd: Command)
    requires Inv(s) && FreshIds(s, cmd)
    ensures Inv(Commit(s, c, cmd))
  {
    match cmd
    case MakeFolder(ws, input, newId) =>
      if CreateFolder(s, c, ws, input, newId).Ok? { CreateFolderKeepsInv(s, c, ws, input, newId); }
    case PatchFolder(id, patch) =>
      if UpdateFolder(s, c, id, patch).Ok? { UpdateFolderKeepsInv(s, c, id, patch); }
    case DropFolder(id) =>
      if DeleteFolder(s, c, id).Ok? { DeleteFolderKeepsInv(s, c, id); }
    case MakeBookmark(ws, input, newId) =>
      if CreateBookmark(s, c, ws, input, newId).Ok? { CreateBookmarkKeepsInv(s, c, ws, input, newId); }
    case PatchBookmark(id, patch) =>
      if UpdateBookmark(s, c, id, patch).Ok? { UpdateBookmarkKeepsInv(s, c, id, patch); }
    case DropBookmark(id) =>
      if DeleteBookmark(s, c, id).Ok? { DeleteBookmarkKeepsInv(s, c, id); }
  }

  // The states of a serial run: each follows from the one before by some caller's command.
  ghost predicate SerialRun(states: seq<Store>) {
    && states != []
    && states[0] == Store(map[], map[])
    && forall i | 0 <= i < |states| - 1 ::
         exists c, cmd :: FreshIds(states[i], cmd) && states[i + 1] == Commit(states[i], c, cmd)
  }

  lemma EmptyStoreInv()
    ensures Inv(Store(map[], map[]))
  {
    var f: FolderTable := map[];
    var b: BookmarkTable := map[];
    assert Ranked(AllParents(f), map[]);
    forall w: Id, p: Option<Id> ensures Dense(f, w, p) && Dense(b, w, p) {
      assert Members(f, w, p) == {} && Members(b, w, p) == {};
    }
  }

  lemma {:induction false} EveryRunKeepsInv(states: seq<Store>, i: nat)
    requires SerialRun(states) && i < |states|
    ensures Inv(states[i])
  {
    if i == 0 {
      EmptyStoreInv();
    } else {
      EveryRunKeepsInv(states, i - 1);
      var c, cmd :| FreshIds(states[i - 1], cmd) && states[i - 1 + 1] == Commit(states[i - 1], c, cmd);
      CommitKeepsInv(states[i - 1], c, cmd);
    }
  }
}
