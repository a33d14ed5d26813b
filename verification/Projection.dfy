/** The extension's stored projection of one workspace, driving the Chrome tree event by event. */
module Projection {
  import opened Common
  import opened Ancestry
  import opened ForestView
  import opened ChromeTree
  import opened Replay
  import Mapping
  import opened FolderTree
  import opened Rebuild
  import opened Clearing

  class Workspace {
    var tree: Tree
    var workspaceChromeId: Id
    const maps: Mapping.ProjectionMaps

    constructor (tree: Tree, root: Id)
      ensures this.tree == tree && workspaceChromeId == root && fresh(maps)
    {
      this.tree, workspaceChromeId := tree, root;
      maps := new Mapping.ProjectionMaps();
    }

    ghost function State(): Client
      reads this, maps
    {
      Client(tree, workspaceChromeId, maps.chromeIdByBackendId, maps.backendIdByChromeId)
    }

    method MoveNode(id: Id, to: Id, index: int) returns (refused: Option<Refusal>)
      requires Consistent(tree)
      modifies this`tree
      ensures match Move(old(tree), id, to, index)
              case Ok(t) => refused.None? && tree == t
              case Err(e) => refused == Some(e) && tree == old(tree)
    {
      if id !in tree.parent || tree.parent[id].None? { return Some(NoSuchNode); }
      if to !in tree.kids { return Some(NoSuchParent); }
      if index < 0 || index > |tree.kids[to]| { return Some(IndexOutOfRange); }
      var below := SubtreeQuery(tree.parent, id);
      if to in below { return Some(IntoItself); }
      var from := tree.parent[id].value;
      var at := LandingIndex(from == to, IndexOf(tree.kids[from], id), index);
      WithoutDistinct(tree.kids[from], id);
      var rest := tree.kids[from := Without(tree.kids[from], id)];
      tree := tree.(parent := tree.parent[id := Some(to)], kids := rest[to := Inserted(Without(tree.kids[to], id), id, at)]);
      refused := None;
    }

    method CreateNode(parent: Id, caption: Label, index: int, newId: Id) returns (refused: Option<Refusal>)
      modifies this`tree
      ensures match Create(old(tree), parent, caption, index, newId)
              case Ok(t) => refused.None? && tree == t
              case Err(e) => refused == Some(e) && tree == old(tree)
    {
      if parent !in tree.kids { return Some(NoSuchParent); }
      if index < 0 || index > |tree.kids[parent]| { return Some(IndexOutOfRange); }
      var kids := tree.kids[parent := Inserted(tree.kids[parent], newId, index)];
      if caption.FolderLabel? {
        kids := kids[newId := []];
      }
      tree := Tree(tree.parent[newId := Some(parent)], tree.caption[newId := caption], kids);
      refused := None;
    }

    // Retitle and, if parent or index differ, move; then check where the node landed.
    method SettleNode(x: Id, to: Id, caption: Label, position: int) returns (failed: Option<Failure>)
      requires Consistent(tree) && to in tree.kids
      modifies this`tree
      ensures match Settle(old(State()), x, to, caption, position)
              case Ok(c) => failed.None? && State() == c
              case Err(e) => failed == Some(e)
    {
      if x !in tree.parent { return Some(NeedsRecovery); }
      if tree.parent[x].None? { return Some(Refused(NoSuchNode)); }
      var from := tree.parent[x].value;
      var was := IndexOf(tree.kids[from], x);
      if from != to || was != position {
        var refused := MoveNode(x, to, ChromeMoveIndex(from, was, to, position));
        if refused.Some? { return Some(Refused(refused.value)); }
        if position < 0 || position >= |tree.kids[to]| || tree.kids[to][position] != x { return Some(LandedElsewhere); }
      }
      tree := Retitled(tree, x, caption);
      failed := None;
    }

    // applyRemoteFolderUpsert and applyRemoteBookmarkUpsert.
    method ApplyUpsert(id: Id, parent: Option<Id>, position: int, caption: Label, newId: Id) returns (failed: Option<Failure>)
      requires Consistent(tree)
      modifies this, maps
      ensures match Replay.ApplyUpsert(old(State()), id, parent, position, caption, newId)
              case Ok(c) => failed.None? && State() == c
              case Err(e) => failed == Some(e)
    {
      var kind := if caption.FolderLabel? then Mapping.Folder else Mapping.Bookmark;
      var place: Id;
      if parent.None? {
        place := workspaceChromeId;
      } else if parent.value in maps.chromeIdByBackendId {
        place := maps.chromeIdByBackendId[parent.value];
      } else {
        return Some(NeedsRecovery);
      }
      if place !in tree.parent || (id in maps.chromeIdByBackendId && maps.chromeIdByBackendId[id] !in tree.parent) { return Some(NeedsRecovery); }
      if place !in tree.kids { return Some(Refused(NoSuchParent)); }
      if id in maps.chromeIdByBackendId {
        failed := SettleNode(maps.chromeIdByBackendId[id], place, caption, position);
        return;
      }
      var reuse := Reusable(tree, tree.kids[place], caption);
      if reuse.Some? {
        maps.SetMapping(id, reuse.value, kind);
        failed := SettleNode(reuse.value, place, caption, position);
        return;
      }
      var refused := CreateNode(place, caption, position, newId);
      if refused.Some? { return Some(Refused(refused.value)); }
      maps.SetMapping(id, newId, kind);
      failed := None;
    }

    // deleteChromeNode: the subtree is collected, removed from Chrome, and its mapped ids forgotten one by one.
    method ApplyRemoval(id: Id) returns (failed: Option<Failure>)
      requires Consistent(tree) && Mapping.TwoWay(maps.State())
      modifies this, maps
      ensures match Replay.ApplyRemoval(old(State()), id)
              case Ok(c) => failed.None? && State() == c && Mapping.TwoWay(maps.State())
              case Err(e) => failed == Some(e) && State() == old(State())
    {
      if id !in maps.chromeIdByBackendId { return None; }
      var x := maps.chromeIdByBackendId[id];
      var gone := SubtreeQuery(tree.parent, x);
      assert Up(tree.parent, x, 0) == Some(x);
      var mapped := gone * maps.backendIdByChromeId.Keys;
      if |mapped| > MAX_MAPPED { return Some(TooManyMapped); }
      if x !in tree.parent || tree.parent[x].None? || tree.parent[x].value !in tree.kids { return Some(Refused(NoSuchNode)); }
      var from := tree.parent[x].value;
      tree := Tree(tree.parent - gone, tree.caption - gone, tree.kids[from := Without(tree.kids[from], x)] - gone);
      ghost var before := maps.State();
      var ids := Listing(mapped);
      maps.RemoveMappingsByChromeIds(ids);
      maps.RemoveMappingByBackendId(id);
      ForgottenSubtree(old(State()), before, gone, ids, id);
      failed := None;
    }

    // collectChromeIds and removeTree: the ids of the subtree, which then goes.
    method RemoveSubtree(id: Id) returns (subtree: set<Id>)
      requires Consistent(tree) && RemoveTree(tree, id).Ok?
      modifies this`tree
      ensures subtree == Subtree(old(tree.parent), id) && RemoveTree(old(tree), id) == Ok(tree)
    {
      subtree := SubtreeQuery(tree.parent, id);
      var from := tree.parent[id].value;
      tree := Tree(tree.parent - subtree, tree.caption - subtree, tree.kids[from := Without(tree.kids[from], id)] - subtree);
    }

    // clearChildren: every child but the excluded ones goes with all below it; what was removed is returned.
    method ClearChildren(folder: Id, exclude: set<Id>) returns (removed: set<Id>)
      requires Consistent(tree) && folder in tree.kids
      modifies this`tree
      ensures Consistent(tree) && folder in tree.kids
      ensures tree.kids[folder] == Spared(old(tree.kids[folder]), exclude)
      ensures removed == Doomed(old(tree.parent), old(tree.kids[folder]), exclude)
      ensures tree.parent == old(tree.parent) - removed
      ensures forall p | p in tree.kids && p != folder :: p in old(tree.kids) && tree.kids[p] == old(tree.kids)[p]
      ensures forall x | x in tree.caption :: x in old(tree.caption) && tree.caption[x] == old(tree.caption)[x]
    {
      ghost var was := tree;
      var children := tree.kids[folder];
      removed := {};
      NothingClearedYet(tree, folder, exclude);
      assert Doomed(was.parent, children[..0], exclude) == {};
      for i := 0 to |children|
        invariant ClearedUpTo(was, tree, folder, exclude, i)
        invariant removed == Doomed(was.parent, children[..i], exclude)
      {
        assert children[i] in children;
        DoomedNext(was.parent, children, exclude, i);
        if children[i] in exclude {
          ExcludedStep(was, tree, folder, exclude, i);
        } else {
          NextChildIntact(was, tree, folder, exclude, i);
          RemovedStep(was, tree, folder, exclude, i);
          var subtree := RemoveSubtree(children[i]);
          removed := removed + subtree;
        }
      }
      assert children[..|children|] == children;
    }

    // The middle of doResyncWorkspace: the maps are emptied, the workspace folder is cleared but for the user's own
    // folder, and what the server sent is created. v: the forest with nothing in it.
    method Rematerialize(folders: seq<FolderNode>, localOnly: Id, next: Id, ghost v: View) returns (refused: Option<Refusal>, unused: Id)
      requires Consistent(tree) && workspaceChromeId in tree.parent && tree.parent[workspaceChromeId] == None && workspaceChromeId in tree.kids
      requires localOnly in tree.kids[workspaceChromeId] && localOnly in tree.caption && tree.caption[localOnly] == FolderLabel(LOCAL_ONLY_FOLDER_TITLE)
      requires forall x | x in tree.parent :: x < next
      requires DenseNodes(folders) && Distinct(AllIds(folders)) && NoNodes(v)
      modifies this, maps
      ensures refused.None? && workspaceChromeId == old(workspaceChromeId)
      ensures Sim(WithFolders(v, None, folders), State(), [localOnly]) && TailNamed([localOnly], tree.caption)
      ensures State().chromeOf.Keys == Elements(AllIds(folders)) && forall x | x in tree.parent :: x < unused
    {
      maps.Clear();
      LocalIsThere(tree, workspaceChromeId, localOnly);
      var removed := ClearChildren(workspaceChromeId, {localOnly});
      RootIsKept(old(tree).parent, old(tree).kids[workspaceChromeId], {localOnly}, workspaceChromeId);
      FilledFromCleared(v, old(tree), State(), localOnly, folders, next);
      refused, unused := MaterializeFolders(workspaceChromeId, folders, next);
    }

    method MaterializeBookmark(place: Id, bookmark: BookmarkRow, next: Id) returns (refused: Option<Refusal>, unused: Id)
      modifies this, maps
      ensures match PlaceBookmark(old(State()), place, bookmark, next)
              case Ok(r) => refused.None? && State() == r.0 && unused == r.1
              case Err(e) => refused == Some(e)
    {
      unused := next;
      refused := CreateNode(place, BookmarkLabel(bookmark.title, bookmark.url), bookmark.position, next);
      if refused.None? {
        maps.SetMapping(bookmark.id, next, Mapping.Bookmark);
        unused := next + 1;
      }
    }

    // The folder first, then its bookmarks, then each subfolder; the first refusal stops everything.
    method MaterializeFolder(place: Id, folder: FolderNode, next: Id) returns (refused: Option<Refusal>, unused: Id)
      modifies this, maps
      ensures match PlaceFolder(old(State()), place, folder, next)
              case Ok(r) => refused.None? && State() == r.0 && unused == r.1
              case Err(e) => refused == Some(e)
      decreases folder, 1
    {
      unused := next;
      refused := CreateNode(place, FolderLabel(folder.name), folder.position, next);
      if refused.Some? { return; }
      maps.SetMapping(folder.id, next, Mapping.Folder);
      unused := next + 1;
      ghost var begun := State();
      for i := 0 to |folder.bookmarks|
        invariant PlaceBookmarks(begun, next, folder.bookmarks[..i], next + 1) == Ok((State(), unused))
      {
        assert folder.bookmarks[..i + 1][..i] == folder.bookmarks[..i];
        refused, unused := MaterializeBookmark(next, folder.bookmarks[i], unused);
        if refused.Some? {
          PlaceBookmarksStops(begun, next, folder.bookmarks, i + 1, next + 1);
          return;
        }
      }
      assert folder.bookmarks[..|folder.bookmarks|] == folder.bookmarks;
      refused, unused := MaterializeFolders(next, folder.folders, unused);
    }

    method MaterializeFolders(place: Id, folders: seq<FolderNode>, next: Id) returns (refused: Option<Refusal>, unused: Id)
      modifies this, maps
      ensures match PlaceFolders(old(State()), place, folders, next)
              case Ok(r) => refused.None? && State() == r.0 && unused == r.1
              case Err(e) => refused == Some(e)
      decreases folders, 0
    {
      refused, unused := None, next;
      for i := 0 to |folders|
        invariant refused.None? && PlaceFolders(old(State()), place, folders[..i], next) == Ok((State(), unused))
      {
        assert folders[..i + 1][..i] == folders[..i];
        refused, unused := MaterializeFolder(place, folders[i], unused);
        if refused.Some? {
          PlaceFoldersStops(old(State()), place, folders, i + 1, next);
          return;
        }
      }
      assert folders[..|folders|] == folders;
    }
  }

  lemma LocalIsThere(t: Tree, root: Id, x: Id)
    requires Consistent(t) && root in t.kids && x in t.kids[root] && root in t.parent && t.parent[root] == None
    ensures Spared(t.kids[root], {x}) == [x] && forall y | y in t.kids[root] :: y != root
  {
    SparedOne(t.kids[root], x);
  }

  // The top of the tree lies below none of its children.
  lemma RootIsKept(p: Parents, children: seq<Id>, exclude: set<Id>, root: Id)
    requires root in p && p[root] == None && forall x | x in children :: x != root
    ensures root !in Doomed(p, children, exclude)
  {
    forall x | x in children ensures !Reaches(p, root, x) {
      ReachesStep(p, root, x);
    }
  }

  // The cleared tree, filled.
  lemma FilledFromCleared(v: View, was: Tree, c: Client, localOnly: Id, folders: seq<FolderNode>, next: Id)
    requires NoNodes(v) && Consistent(c.tree) && c.root in c.tree.parent && c.tree.parent[c.root] == None
    requires c.root in c.tree.kids && c.tree.kids[c.root] == [localOnly] && c.chromeOf.Keys == {} && c.backendOf.Keys == {}
    requires localOnly in was.caption && was.caption[localOnly] == FolderLabel(LOCAL_ONLY_FOLDER_TITLE)
    requires forall x | x in c.tree.caption :: x in was.caption && c.tree.caption[x] == was.caption[x]
    requires forall x | x in c.tree.parent :: x < next
    requires DenseNodes(folders) && Distinct(AllIds(folders))
    ensures var r := PlaceFolders(c, c.root, folders, next);
            && r.Ok? && Sim(WithFolders(v, None, folders), r.value.0, [localOnly]) && TailNamed([localOnly], r.value.0.tree.caption)
            && r.value.0.chromeOf.Keys == Elements(AllIds(folders)) && r.value.0.root == c.root && forall x | x in r.value.0.tree.parent :: x < r.value.1
  {
    ClearedIsSound(v, c, next);
    assert localOnly in c.tree.kids[c.root] && localOnly in c.tree.parent && localOnly in c.tree.caption;
    RebuildPicturesTree(v, c, [localOnly], next, folders);
  }

  // A refusal on the way is the refusal of the whole.
  lemma {:induction false} PlaceBookmarksStops(c: Client, place: Id, rows: seq<BookmarkRow>, i: nat, next: Id)
    requires i <= |rows| && PlaceBookmarks(c, place, rows[..i], next).Err?
    ensures PlaceBookmarks(c, place, rows, next) == PlaceBookmarks(c, place, rows[..i], next)
    decreases |rows|
  {
    if i == |rows| {
      assert rows[..i] == rows;
    } else {
      var front := rows[..|rows| - 1];
      assert front[..i] == rows[..i];
      PlaceBookmarksStops(c, place, front, i, next);
    }
  }

  lemma {:induction false} PlaceFoldersStops(c: Client, place: Id, nodes: seq<FolderNode>, i: nat, next: Id)
    requires i <= |nodes| && PlaceFolders(c, place, nodes[..i], next).Err?
    ensures PlaceFolders(c, place, nodes, next) == PlaceFolders(c, place, nodes[..i], next)
    decreases |nodes|
  {
    if i == |nodes| {
      assert nodes[..i] == nodes;
    } else {
      var front := nodes[..|nodes| - 1];
      assert front[..i] == nodes[..i];
      PlaceFoldersStops(c, place, front, i, next);
    }
  }

  // collectBackendIds: every folder and bookmark id of the tree.
  method CollectBackendIds(folders: seq<FolderNode>) returns (ids: set<Id>)
    ensures ids == Elements(AllIds(folders))
    decreases folders
  {
    ids := {};
    for i := 0 to |folders|
      invariant ids == Elements(AllIds(folders[..i]))
    {
      assert folders[..i + 1][..i] == folders[..i];
      var folder := folders[i];
      ghost var before := ids;
      ids := ids + {folder.id};
      for j := 0 to |folder.bookmarks|
        invariant ids == before + {folder.id} + Elements(BookmarkIds(folder.bookmarks[..j]))
      {
        ids := ids + {folder.bookmarks[j].id};
        assert BookmarkIds(folder.bookmarks[..j + 1]) == BookmarkIds(folder.bookmarks[..j]) + [folder.bookmarks[j].id];
      }
      assert folder.bookmarks[..|folder.bookmarks|] == folder.bookmarks;
      var below := CollectBackendIds(folder.folders);
      ids := ids + below;
    }
    assert folders[..|folders|] == folders;
  }

  // The elements of a set in some order.
  method Listing(s: set<Id>) returns (r: seq<Id>)
    ensures Elements(r) == s
  {
    r := [];
    var rest := s;
    while rest != {}
      invariant rest <= s && Elements(r) == s - rest
      decreases rest
    {
      var x :| x in rest;
      Mapping.ElementsNext(r, x);
      r := r + [x];
      rest := rest - {x};
    }
  }

  // Forgetting the mapped nodes one by one, then the removed node itself, forgets the whole subtree.
  lemma ForgottenSubtree(c: Client, m: Mapping.Maps, gone: set<Id>, ids: seq<Id>, id: Id)
    requires Mapping.TwoWay(m) && m.chromeOf == c.chromeOf && m.backendOf == c.backendOf
    requires Elements(ids) == gone * c.backendOf.Keys && id in c.chromeOf && c.chromeOf[id] in gone
    ensures var after := Mapping.BackendDropped(Mapping.AllChromeDropped(m, ids), id);
            && Mapping.TwoWay(after)
            && after.chromeOf == Forget(c, gone) - {id} && after.backendOf == c.backendOf - gone
  {
    var mapped := gone * c.backendOf.Keys;
    Mapping.AllChromeDroppedRestricts(m, ids);
    Mapping.RestrictedStaysTwoWay(m, mapped);
    Mapping.DropBackendNext(m, mapped, id);
    assert mapped + {c.chromeOf[id]} == mapped;
  }
}
