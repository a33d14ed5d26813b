/** What each transaction accepts, stores and refuses, said on the fields of the request itself. */
module Transactions {
  import opened Common
  import opened Ancestry
  import opened SiblingOrder
  import opened RowMoves
  import opened Forest

  // ---------- names ----------

  // r is s without the white space around it.
  ghost predicate IsTrimmed(s: string, r: string) {
    exists i, j | 0 <= i <= j <= |s| :: TrimmedAt(s, r, i, j)
  }

  ghost predicate TrimmedAt(s: string, r: string, i: int, j: int)
    requires 0 <= i <= j <= |s|
  {
    && r == s[i..j] && (forall k | 0 <= k < i :: IsSpace(s[k])) && (forall k | j <= k < |s| :: IsSpace(s[k]))
    && (r != "" ==> !IsSpace(r[0]) && !IsSpace(r[|r| - 1]))
  }

  lemma {:induction false} TrimmedIs(s: string)
    ensures IsTrimmed(s, TrimSpace(s))
  {
    if s == "" {
      assert TrimmedAt(s, "", 0, 0);
    } else if IsSpace(s[0]) {
      TrimmedIs(s[1..]);
      var i, j :| 0 <= i <= j <= |s[1..]| && TrimmedAt(s[1..], TrimSpace(s[1..]), i, j);
      assert s[1..][i..j] == s[i + 1..j + 1];
      forall k | 0 <= k < i + 1 ensures IsSpace(s[k]) { assert k > 0 ==> s[k] == s[1..][k - 1]; }
      forall k | j + 1 <= k < |s| ensures IsSpace(s[k]) { assert s[k] == s[1..][k - 1]; }
      assert TrimmedAt(s, TrimSpace(s), i + 1, j + 1);
    } else if IsSpace(s[|s| - 1]) {
      var front := s[..|s| - 1];
      TrimmedIs(front);
      var i, j :| 0 <= i <= j <= |front| && TrimmedAt(front, TrimSpace(front), i, j);
      assert front[i..j] == s[i..j];
      assert front[0] == s[0];
      forall k | j <= k < |s| ensures IsSpace(s[k]) { assert k < |front| ==> s[k] == front[k]; }
      assert TrimmedAt(s, TrimSpace(s), i, j);
    } else {
      assert TrimmedAt(s, s, 0, |s|);
    }
  }

  // White space on either side decides nothing else: there is one such string.
  lemma TrimmedIsOne(s: string, a: string, b: string)
    requires IsTrimmed(s, a) && IsTrimmed(s, b)
    ensures a == b
  {
    var i, j :| 0 <= i <= j <= |s| && TrimmedAt(s, a, i, j);
    var k, l :| 0 <= k <= l <= |s| && TrimmedAt(s, b, k, l);
    if a != "" { assert a[0] == s[i] && a[|a| - 1] == s[j - 1]; }
    if b != "" { assert b[0] == s[k] && b[|b| - 1] == s[l - 1]; }
  }

  // White space is that of Unicode.
  lemma SpaceIs(c: char)
    ensures IsSpace(c) <==> c as int in {9, 10, 11, 12, 13, 32, 133, 160, 5760, 8232, 8233, 8239, 8287, 12288} || 8192 <= c as int <= 8202
  {
  }

  // ---------- a folder ----------

  // Of an accepted folder patch: what the stored row has, field by field, and what the tables keep.
  lemma FolderPatchStores(s: Store, c: Caller, id: Id, patch: FolderPatch)
    requires UpdateFolder(s, c, id, patch).Ok?
    ensures var (t, row) := UpdateFolder(s, c, id, patch).value;
            && id in s.folders && id in t.folders && t.bookmarks == s.bookmarks && t.folders.Keys == s.folders.Keys
            && var was := s.folders[id];
               var others := Without(Children(s.folders, was.workspace, row.parent), id);
               && row == t.folders[id] && row.workspace == was.workspace && row.deleted == was.deleted && row.updatedAt == c.now
               && (patch.parent.Some? ==> row.parent == patch.parent.value) && (patch.parent.None? ==> row.parent == was.parent)
               && (patch.name.Some? ==> IsTrimmed(patch.name.value, row.payload)) && (patch.name.None? ==> row.payload == was.payload)
               && PlacedAt(row.position, |others|, patch.position, row.parent == was.parent, was.position)
               && Children(t.folders, was.workspace, row.parent) == Inserted(others, id, row.position)
               && (row.parent != was.parent ==> Children(t.folders, was.workspace, was.parent) == Without(Children(s.folders, was.workspace, was.parent), id))
               && (forall x | x in s.folders && x != id :: SameShape(t.folders[x], s.folders[x]))
  {
    var row := s.folders[id];
    var target := FolderTarget(row, patch);
    MovedEffect(s.folders, id, target, NewName(row, patch), RequestedPosition(row, target, patch.position), c.now);
    if patch.name.Some? { TrimmedIs(patch.name.value); }
  }

  // Among so many others: the index asked for, brought into range; without one a row that stays in its group stays
  // where it is, and one that enters a group goes to its end.
  ghost predicate PlacedAt(position: int, others: nat, asked: Option<int>, stays: bool, was: int) {
    && 0 <= position <= others
    && (asked.Some? ==> Nearest(position, asked.value, others))
    && (asked.None? && stays ==> Nearest(position, was, others))
    && (asked.None? && !stays ==> position == others)
  }

  // No index in range is nearer to the one wanted.
  ghost predicate Nearest(position: int, wanted: int, others: nat) {
    (0 <= wanted <= others ==> position == wanted) && (wanted < 0 ==> position == 0) && (wanted > others ==> position == others)
  }

  // Why a folder patch is refused: by the first of these that holds.
  lemma FolderPatchRefusals(s: Store, c: Caller, id: Id, patch: FolderPatch)
    requires Inv(s)
    ensures var r := UpdateFolder(s, c, id, patch);
            var p := if patch.parent.Some? then patch.parent.value else None;
            && (!Live(s.folders, id) ==> r == Err(NotFound))
            && (Live(s.folders, id) ==>
                  var ws := s.folders[id].workspace;
                  && (ws !in c.writable ==> r == Err(Forbidden))
                  && (ws in c.writable && p.Some? && !FolderIn(s, p.value, ws) ==> r == Err(NotFound))
                  && (ws in c.writable && p.Some? && FolderIn(s, p.value, ws) && p.value == id ==> r == Err(OwnParent))
                  && (ws in c.writable && p.Some? && FolderIn(s, p.value, ws) && p.value != id && Reaches(AllParents(s.folders), p.value, id) ==> r == Err(OwnSubtree))
                  && (ws in c.writable && (p.Some? ==> FolderIn(s, p.value, ws) && !Reaches(AllParents(s.folders), p.value, id)) && patch.name.Some? && IsTrimmed(patch.name.value, "") ==>
                        r == Err(NameRequired)))
  {
    FolderPatchAcceptedIff(s, c, id, patch);
    if Live(s.folders, id) { FolderParentChecks(s, id, patch); }
    if patch.name.Some? {
      TrimmedIs(patch.name.value);
      if IsTrimmed(patch.name.value, "") { TrimmedIsOne(patch.name.value, "", TrimSpace(patch.name.value)); }
    }
  }

  // The place a folder already has is always allowed.
  lemma FolderParentChecks(s: Store, id: Id, patch: FolderPatch)
    requires Inv(s) && Live(s.folders, id)
    ensures var target := FolderTarget(s.folders[id], patch);
            var p := if patch.parent.Some? then patch.parent.value else None;
            && (patch.parent.None? && target.Some? ==> FolderIn(s, target.value, s.folders[id].workspace) && target.value != id && target.value !in Subtree(LiveParents(s.folders), id))
            && (patch.parent.Some? ==> target == p)
            && (p.Some? && FolderIn(s, p.value, s.folders[id].workspace) ==> (p.value in Subtree(LiveParents(s.folders), id) <==> Reaches(AllParents(s.folders), p.value, id)))
            && Reaches(AllParents(s.folders), id, id)
  {
    assert Up(AllParents(s.folders), id, 0) == Some(id);
    var p := if patch.parent.Some? then patch.parent.value else s.folders[id].parent;
    if p.Some? && FolderIn(s, p.value, s.folders[id].workspace) { LiveReachesIff(s.folders, p.value, id); }
    if s.folders[id].parent.Some? { ParentIsAbove(s, id); }
  }

  lemma ParentIsAbove(s: Store, id: Id)
    requires Inv(s) && Live(s.folders, id) && s.folders[id].parent.Some?
    ensures var p := s.folders[id].parent.value; FolderIn(s, p, s.folders[id].workspace) && p != id && !Reaches(AllParents(s.folders), p, id)
  {
    var p := s.folders[id].parent.value;
    assert AllParents(s.folders)[id := Some(p)] == AllParents(s.folders);
    MovingKeepsAcyclicIff(AllParents(s.folders), id, Some(p));
    assert Up(AllParents(s.folders), p, 0) == Some(p);
  }

  lemma NewFolderStores(s: Store, c: Caller, ws: Id, input: FolderInput, newId: Id)
    requires newId !in s.folders
    ensures var r := CreateFolder(s, c, ws, input, newId);
            && (r.Ok? <==> !IsTrimmed(input.name, "") && ws in c.writable && (input.parent.Some? ==> FolderIn(s, input.parent.value, ws)))
            && (r.Err? ==> r.error == if IsTrimmed(input.name, "") then NameRequired else if ws !in c.writable then Forbidden else NotFound)
            && (r.Ok? ==>
                  var (t, row) := r.value;
                  var before := Children(s.folders, ws, input.parent);
                  && t.bookmarks == s.bookmarks && t.folders.Keys == s.folders.Keys + {newId} && row == t.folders[newId]
                  && IsTrimmed(input.name, row.payload) && row.parent == input.parent && row.workspace == ws && !row.deleted && row.updatedAt == c.now
                  && PlacedAt(row.position, |before|, input.position, false, 0)
                  && Children(t.folders, ws, input.parent) == Inserted(before, newId, row.position)
                  && (forall x | x in s.folders :: SameShape(t.folders[x], s.folders[x])))
  {
    TrimmedIs(input.name);
    if IsTrimmed(input.name, "") { TrimmedIsOne(input.name, "", TrimSpace(input.name)); }
    CreatedEffect(s.folders, newId, ws, input.parent, TrimSpace(input.name), input.position, c.now);
  }

  lemma FolderDeleteRefusals(s: Store, c: Caller, id: Id)
    ensures var r := DeleteFolder(s, c, id);
            && (r.Ok? <==> Live(s.folders, id) && s.folders[id].workspace in c.writable)
            && (r.Err? ==> r.error == if Live(s.folders, id) then Forbidden else NotFound)
  {
  }

  // ---------- a bookmark ----------

  lemma BookmarkPatchStores(s: Store, c: Caller, id: Id, patch: BookmarkPatch)
    requires UpdateBookmark(s, c, id, patch).Ok?
    ensures var (t, row) := UpdateBookmark(s, c, id, patch).value;
            && id in s.bookmarks && id in t.bookmarks && t.folders == s.folders && t.bookmarks.Keys == s.bookmarks.Keys
            && var was := s.bookmarks[id];
               var others := Without(Children(s.bookmarks, was.workspace, row.parent), id);
               && row == t.bookmarks[id] && row.workspace == was.workspace && row.deleted == was.deleted && row.updatedAt == c.now
               && (if patch.folder.Some? && patch.folder.value.Some? then row.parent == patch.folder.value else row.parent == was.parent)
               && (patch.title.Some? ==> IsTrimmed(patch.title.value, row.payload.title)) && (patch.title.None? ==> row.payload.title == was.payload.title)
               && (patch.url.Some? ==> IsTrimmed(patch.url.value, row.payload.url)) && (patch.url.None? ==> row.payload.url == was.payload.url)
               && PlacedAt(row.position, |others|, patch.position, row.parent == was.parent, was.position)
               && Children(t.bookmarks, was.workspace, row.parent) == Inserted(others, id, row.position)
               && (row.parent != was.parent ==> Children(t.bookmarks, was.workspace, was.parent) == Without(Children(s.bookmarks, was.workspace, was.parent), id))
               && (forall x | x in s.bookmarks && x != id :: SameShape(t.bookmarks[x], s.bookmarks[x]))
  {
    var row := s.bookmarks[id];
    var target := BookmarkTarget(row, patch);
    MovedEffect(s.bookmarks, id, target, NewLink(row, patch), RequestedPosition(row, target, patch.position), c.now);
    if patch.title.Some? { TrimmedIs(patch.title.value); }
    if patch.url.Some? { TrimmedIs(patch.url.value); }
  }

  /** A bookmark patch is accepted exactly when the caller may write, the folder it names is there, and the title
      and url it brings are not blank and well-formed; otherwise the first failing check is what it is told. */
  lemma BookmarkPatchAcceptedIff(s: Store, c: Caller, id: Id, patch: BookmarkPatch)
    requires Inv(s)
    ensures var r := UpdateBookmark(s, c, id, patch);
            && (!Live(s.bookmarks, id) ==> r == Err(NotFound))
            && (Live(s.bookmarks, id) ==>
                  var ws := s.bookmarks[id].workspace;
                  var there := patch.folder.Some? && patch.folder.value.Some? ==> FolderIn(s, patch.folder.value.value, ws);
                  var titled := patch.title.Some? ==> !IsTrimmed(patch.title.value, "");
                  var linked := patch.url.Some? ==> exists url :: IsTrimmed(patch.url.value, url) && c.validUrl(url);
                  && (r.Ok? <==> ws in c.writable && there && titled && linked)
                  && (r.Err? ==> r.error == if ws !in c.writable then Forbidden else if !there then NotFound else if !titled then TitleRequired else InvalidUrl))
  {
    if patch.title.Some? {
      TrimmedIs(patch.title.value);
      if IsTrimmed(patch.title.value, "") { TrimmedIsOne(patch.title.value, "", TrimSpace(patch.title.value)); }
    }
    if patch.url.Some? { TrimmedUrl(c, patch.url.value); }
  }

  lemma TrimmedUrl(c: Caller, s: string)
    ensures c.validUrl(TrimSpace(s)) <==> exists url :: IsTrimmed(s, url) && c.validUrl(url)
  {
    TrimmedIs(s);
    forall url | IsTrimmed(s, url) ensures url == TrimSpace(s) {
      TrimmedIsOne(s, url, TrimSpace(s));
    }
  }

  lemma NewBookmarkStores(s: Store, c: Caller, ws: Id, input: BookmarkInput, newId: Id)
    requires newId !in s.bookmarks
    ensures var r := CreateBookmark(s, c, ws, input, newId);
            var titled := !IsTrimmed(input.link.title, "");
            var linked := exists url :: IsTrimmed(input.link.url, url) && c.validUrl(url);
            && (r.Ok? <==> titled && linked && ws in c.writable && FolderIn(s, input.folder, ws))
            && (r.Err? ==> r.error == if !titled then TitleRequired else if !linked then InvalidUrl else if ws !in c.writable then Forbidden else NotFound)
            && (r.Ok? ==>
                  var (t, row) := r.value;
                  var before := Children(s.bookmarks, ws, Some(input.folder));
                  && t.folders == s.folders && t.bookmarks.Keys == s.bookmarks.Keys + {newId} && row == t.bookmarks[newId]
                  && IsTrimmed(input.link.title, row.payload.title) && IsTrimmed(input.link.url, row.payload.url)
                  && row.parent == Some(input.folder) && row.workspace == ws && !row.deleted && row.updatedAt == c.now
                  && PlacedAt(row.position, |before|, input.position, false, 0)
                  && Children(t.bookmarks, ws, Some(input.folder)) == Inserted(before, newId, row.position)
                  && (forall x | x in s.bookmarks :: SameShape(t.bookmarks[x], s.bookmarks[x])))
  {
    var link := Link(TrimSpace(input.link.title), TrimSpace(input.link.url));
    TrimmedIs(input.link.title);
    if IsTrimmed(input.link.title, "") { TrimmedIsOne(input.link.title, "", TrimSpace(input.link.title)); }
    TrimmedIs(input.link.url);
    TrimmedUrl(c, input.link.url);
    CreatedEffect(s.bookmarks, newId, ws, Some(input.folder), link, input.position, c.now);
  }

  // A deleted bookmark is the only one marked, and its group closes up.
  lemma BookmarkDeleteIsExact(s: Store, c: Caller, id: Id)
    ensures var r := DeleteBookmark(s, c, id);
            && (r.Ok? <==> Live(s.bookmarks, id) && s.bookmarks[id].workspace in c.writable)
            && (r.Err? ==> r.error == if Live(s.bookmarks, id) then Forbidden else NotFound)
            && (r.Ok? ==>
                  var t, was := r.value, s.bookmarks[id];
                  && t.folders == s.folders && t.bookmarks.Keys == s.bookmarks.Keys
                  && (forall x | x in s.bookmarks :: SameShape(t.bookmarks[x], s.bookmarks[x].(deleted := s.bookmarks[x].deleted || x == id)))
                  && Children(t.bookmarks, was.workspace, was.parent) == Without(Children(s.bookmarks, was.workspace, was.parent), id))
  {
    if Live(s.bookmarks, id) { RemovedEffect(s.bookmarks, {id}, id, c.now); }
  }

  // ---------- the rows around ----------

  // u is t with the given row written, the rows of the group renumbered at that time, and no other row touched.
  ghost predicate Touches<P>(t: Table<P>, u: Table<P>, id: Id, group: set<Id>, now: int) {
    forall x | x in t && x != id ::
      && x in u
      && (x in group ==> u[x] == t[x].(position := u[x].position, updatedAt := now))
      && (x !in group ==> u[x] == t[x])
  }

  // The live rows of two lists.
  function Siblings<P>(t: Table<P>, ws: Id, a: Option<Id>, b: Option<Id>): set<Id> {
    set x | x in t && !t[x].deleted && t[x].workspace == ws && (t[x].parent == a || t[x].parent == b)
  }

  lemma MovedTouches<P>(t: Table<P>, id: Id, target: Option<Id>, payload: P, requested: Option<int>, now: int)
    requires Live(t, id)
    ensures Touches(t, Moved(t, id, target, payload, requested, now), id, Siblings(t, t[id].workspace, t[id].parent, target), now)
  {
    var row := t[id];
    var t1 := t[id := row.(parent := target, payload := payload, updatedAt := now)];
    var t2 := Detached(t, id, target, payload, now);
    DetachedEffect(t, id, target, payload, now);
    if row.parent != target { ReorderedGroup(t1, row.workspace, row.parent, None, None, now); }
    ReorderedGroup(t2, row.workspace, target, Some(id), requested, now);
  }

  lemma RemovedTouches<P>(t: Table<P>, dead: set<Id>, id: Id, now: int, x: Id)
    requires Live(t, id) && x in t
    ensures var u := Removed(t, dead, id, now);
            && x in u
            && (x in dead ==> u[x] == t[x].(deleted := true, updatedAt := now))
            && (x !in dead && x in Members(t, t[id].workspace, t[id].parent) ==> u[x] == t[x].(position := u[x].position, updatedAt := now))
            && (x !in dead && x !in Members(t, t[id].workspace, t[id].parent) ==> u[x] == t[x])
  {
    ReorderedGroup(Marked(t, dead, now), t[id].workspace, t[id].parent, None, None, now);
  }

  /** Around the row it is about a transaction renumbers the live rows of the lists it enters and leaves, stamping them
      with its time, and touches no other row. */
  lemma FolderPatchTouches(s: Store, c: Caller, id: Id, patch: FolderPatch)
    requires UpdateFolder(s, c, id, patch).Ok?
    ensures var (t, row) := UpdateFolder(s, c, id, patch).value;
            id in s.folders && Touches(s.folders, t.folders, id, Siblings(s.folders, row.workspace, s.folders[id].parent, row.parent), c.now)
  {
    var row := s.folders[id];
    var target := FolderTarget(row, patch);
    var requested := RequestedPosition(row, target, patch.position);
    MovedEffect(s.folders, id, target, NewName(row, patch), requested, c.now);
    MovedTouches(s.folders, id, target, NewName(row, patch), requested, c.now);
  }

  lemma BookmarkPatchTouches(s: Store, c: Caller, id: Id, patch: BookmarkPatch)
    requires UpdateBookmark(s, c, id, patch).Ok?
    ensures var (t, row) := UpdateBookmark(s, c, id, patch).value;
            id in s.bookmarks && Touches(s.bookmarks, t.bookmarks, id, Siblings(s.bookmarks, row.workspace, s.bookmarks[id].parent, row.parent), c.now)
  {
    var row := s.bookmarks[id];
    var target := BookmarkTarget(row, patch);
    var requested := RequestedPosition(row, target, patch.position);
    MovedEffect(s.bookmarks, id, target, NewLink(row, patch), requested, c.now);
    MovedTouches(s.bookmarks, id, target, NewLink(row, patch), requested, c.now);
  }

  lemma CreatedTouches<P>(t: Table<P>, id: Id, ws: Id, parent: Option<Id>, payload: P, requested: Option<int>, now: int)
    requires id !in t
    ensures Touches(t, Created(t, id, ws, parent, payload, requested, now), id, Siblings(t, ws, parent, parent), now)
  {
    var t1 := t[id := Row(ws, parent, payload, 0, now, false)];
    assert id in Members(t1, ws, parent);
    ReorderedGroup(t1, ws, parent, Some(id), requested, now);
  }

  lemma NewRowsTouch(s: Store, c: Caller, ws: Id, folder: FolderInput, bookmark: BookmarkInput, newId: Id)
    ensures newId !in s.folders ==>
              var r := CreateFolder(s, c, ws, folder, newId);
              r.Ok? ==> Touches(s.folders, r.value.0.folders, newId, Siblings(s.folders, ws, folder.parent, folder.parent), c.now)
    ensures newId !in s.bookmarks ==>
              var r := CreateBookmark(s, c, ws, bookmark, newId);
              r.Ok? ==> Touches(s.bookmarks, r.value.0.bookmarks, newId, Siblings(s.bookmarks, ws, Some(bookmark.folder), Some(bookmark.folder)), c.now)
  {
    if newId !in s.folders { CreatedTouches(s.folders, newId, ws, folder.parent, TrimSpace(folder.name), folder.position, c.now); }
    if newId !in s.bookmarks {
      CreatedTouches(s.bookmarks, newId, ws, Some(bookmark.folder), Link(TrimSpace(bookmark.link.title), TrimSpace(bookmark.link.url)), bookmark.position, c.now);
    }
  }

  /** What the delete of a folder writes: the live folders below it and the live bookmarks in them are marked at its time,
      its siblings are renumbered, and no other row is touched, in particular none deleted before. */
  lemma FolderDeleteTouches(s: Store, c: Caller, id: Id, x: Id, b: Id)
    requires Inv(s) && DeleteFolder(s, c, id).Ok?
    ensures var t, was := DeleteFolder(s, c, id).value, s.folders[id];
            && (x in s.folders ==>
                  var dead := Live(s.folders, x) && Reaches(AllParents(s.folders), x, id);
                  var beside := Live(s.folders, x) && s.folders[x].workspace == was.workspace && s.folders[x].parent == was.parent;
                  && x in t.folders
                  && (dead ==> t.folders[x] == s.folders[x].(deleted := true, updatedAt := c.now))
                  && (!dead && beside ==> t.folders[x] == s.folders[x].(position := t.folders[x].position, updatedAt := c.now))
                  && (!dead && !beside ==> t.folders[x] == s.folders[x]))
            && (b in s.bookmarks ==>
                  var dead := Live(s.bookmarks, b) && Reaches(AllParents(s.folders), s.bookmarks[b].parent.value, id);
                  b in t.bookmarks && t.bookmarks[b] == if dead then s.bookmarks[b].(deleted := true, updatedAt := c.now) else s.bookmarks[b])
  {
    DeleteFolderIsExact(s, c, id);
    if x in s.folders {
      var dead := DeadFolders(s, id);
      RemovedTouches(s.folders, dead, id, c.now, x);
      if Live(s.folders, x) { LiveReachesIff(s.folders, x, id); }
    }
  }

  lemma BookmarkDeleteTouches(s: Store, c: Caller, id: Id, x: Id)
    requires DeleteBookmark(s, c, id).Ok? && x in s.bookmarks
    ensures var t, was := DeleteBookmark(s, c, id).value, s.bookmarks[id];
            var beside := Live(s.bookmarks, x) && s.bookmarks[x].workspace == was.workspace && s.bookmarks[x].parent == was.parent;
            && x in t.bookmarks
            && (x == id ==> t.bookmarks[x] == s.bookmarks[x].(deleted := true, updatedAt := c.now))
            && (x != id && beside ==> t.bookmarks[x] == s.bookmarks[x].(position := t.bookmarks[x].position, updatedAt := c.now))
            && (x != id && !beside ==> t.bookmarks[x] == s.bookmarks[x])
  {
    RemovedTouches(s.bookmarks, {id}, id, c.now, x);
  }
}
