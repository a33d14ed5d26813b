/** The rebuild: an empty workspace folder filled from the tree the server sent, each node created at its
    own backend position, bookmarks of a folder before its subfolders. */
module Rebuild {
  import opened Common
  import opened Ancestry
  import opened FolderTree
  import opened ForestView
  import opened ChromeTree
  import opened Replay
  import opened Clearing

  function FolderIds(nodes: seq<FolderNode>): (r: seq<Id>)
    ensures |r| == |nodes|
  {
    seq(|nodes|, i requires 0 <= i < |nodes| => nodes[i].id)
  }

  function BookmarkIds(rows: seq<BookmarkRow>): (r: seq<Id>)
    ensures |r| == |rows|
  {
    seq(|rows|, i requires 0 <= i < |rows| => rows[i].id)
  }

  // Every id of the tree, folder by folder.
  function AllIds(nodes: seq<FolderNode>): seq<Id>
    decreases nodes
  {
    if nodes == [] then []
    else AllIds(nodes[..|nodes| - 1]) + IdsOf(nodes[|nodes| - 1])
  }

  function IdsOf(node: FolderNode): seq<Id>
    decreases node
  {
    [node.id] + BookmarkIds(node.bookmarks) + AllIds(node.folders)
  }

  // Positions are 0, 1, 2, ... among the folders and among the bookmarks of each folder.
  ghost predicate DenseNodes(nodes: seq<FolderNode>)
    decreases nodes
  {
    forall i | 0 <= i < |nodes| :: nodes[i].position == i && DenseNode(nodes[i])
  }

  ghost predicate DenseNode(node: FolderNode)
    decreases node
  {
    && (forall i | 0 <= i < |node.bookmarks| :: node.bookmarks[i].position == i)
    && DenseNodes(node.folders)
  }

  // ---------- the materialization ----------

  function PlaceBookmark(c: Client, place: Id, b: BookmarkRow, next: Id): Result<(Client, Id), Refusal> {
    match Create(c.tree, place, BookmarkLabel(b.title, b.url), b.position, next)
    case Err(e) => Err(e)
    case Ok(t) => Ok((SetMapping(c.(tree := t), b.id, next), next + 1))
  }

  function PlaceBookmarks(c: Client, place: Id, rows: seq<BookmarkRow>, next: Id): Result<(Client, Id), Refusal> {
    if rows == [] then Ok((c, next))
    else
      var n := |rows| - 1;
      match PlaceBookmarks(c, place, rows[..n], next)
      case Err(e) => Err(e)
      case Ok(r) => PlaceBookmark(r.0, place, rows[n], r.1)
  }

  // The folder itself and its bookmarks.
  function OpenFolder(c: Client, place: Id, node: FolderNode, next: Id): Result<(Client, Id), Refusal> {
    match Create(c.tree, place, FolderLabel(node.name), node.position, next)
    case Err(e) => Err(e)
    case Ok(t) => PlaceBookmarks(SetMapping(c.(tree := t), node.id, next), next, node.bookmarks, next + 1)
  }

  function PlaceFolder(c: Client, place: Id, node: FolderNode, next: Id): Result<(Client, Id), Refusal>
    decreases node
  {
    match OpenFolder(c, place, node, next)
    case Err(e) => Err(e)
    case Ok(r) => PlaceFolders(r.0, next, node.folders, r.1)
  }

  function PlaceFolders(c: Client, place: Id, nodes: seq<FolderNode>, next: Id): Result<(Client, Id), Refusal>
    decreases nodes
  {
    if nodes == [] then Ok((c, next))
    else
      var n := |nodes| - 1;
      match PlaceFolders(c, place, nodes[..n], next)
      case Err(e) => Err(e)
      case Ok(r) => PlaceFolder(r.0, place, nodes[n], r.1)
  }

  // ---------- the forest a tree stands for ----------

  // The view holds the folder under its parent, with its subfolders in order followed by its bookmarks in
  // order, and likewise everything below it.
  ghost predicate Shows(v: View, parent: Option<Id>, node: FolderNode)
    decreases node
  {
    && node.id in v.parent && v.parent[node.id] == parent
    && node.id in v.caption && v.caption[node.id] == FolderLabel(node.name)
    && Some(node.id) in v.kids && v.kids[Some(node.id)] == FolderIds(node.folders) + BookmarkIds(node.bookmarks)
    && (forall b | b in node.bookmarks :: ShowsBookmark(v, node.id, b))
    && ShowsAll(v, Some(node.id), node.folders)
  }

  ghost predicate ShowsBookmark(v: View, folder: Id, b: BookmarkRow) {
    b.id in v.parent && v.parent[b.id] == Some(folder) && b.id in v.caption && v.caption[b.id] == BookmarkLabel(b.title, b.url)
  }

  ghost predicate ShowsAll(v: View, parent: Option<Id>, nodes: seq<FolderNode>)
    decreases nodes
  {
    forall i | 0 <= i < |nodes| :: Shows(v, parent, nodes[i])
  }

  // w has everything v has, apart from the list under k.
  ghost predicate Extends(v: View, w: View, k: Option<Id>) {
    && (forall x | x in v.parent :: x in w.parent && w.parent[x] == v.parent[x])
    && (forall x | x in v.caption :: x in w.caption && w.caption[x] == v.caption[x])
    && (forall j | j in v.kids :: j in w.kids)
    && (forall j | j in v.kids && j != k :: w.kids[j] == v.kids[j])
  }

  lemma {:induction false} ShowsKept(v: View, w: View, k: Option<Id>, parent: Option<Id>, node: FolderNode)
    requires Shows(v, parent, node) && Extends(v, w, k)
    requires k.Some? ==> k.value !in IdsOf(node)
    ensures Shows(w, parent, node)
    decreases node
  {
    assert node.id == IdsOf(node)[0];
    forall b | b in node.bookmarks ensures ShowsBookmark(w, node.id, b) {
      assert ShowsBookmark(v, node.id, b);
    }
    assert forall x :: x in AllIds(node.folders) ==> x in IdsOf(node);
    ShowsAllKept(v, w, k, Some(node.id), node.folders);
  }

  lemma {:induction false} ShowsAllKept(v: View, w: View, k: Option<Id>, parent: Option<Id>, nodes: seq<FolderNode>)
    requires ShowsAll(v, parent, nodes) && Extends(v, w, k)
    requires k.Some? ==> k.value !in AllIds(nodes)
    ensures ShowsAll(w, parent, nodes)
    decreases nodes
  {
    if nodes != [] {
      var n := |nodes| - 1;
      assert forall x :: x in AllIds(nodes) <==> x in AllIds(nodes[..n]) || x in IdsOf(nodes[n]);
      ShowsAllKept(v, w, k, parent, nodes[..n]);
      ShowsKept(v, w, k, parent, nodes[n]);
      ShowsAllJoined(w, parent, nodes);
    }
  }

  lemma ShowsAllJoined(w: View, parent: Option<Id>, nodes: seq<FolderNode>)
    requires nodes != [] && ShowsAll(w, parent, nodes[..|nodes| - 1]) && Shows(w, parent, nodes[|nodes| - 1])
    ensures ShowsAll(w, parent, nodes)
  {
    var front := nodes[..|nodes| - 1];
    forall i | 0 <= i < |nodes| ensures Shows(w, parent, nodes[i]) {
      if i < |front| { assert Shows(w, parent, front[i]); }
    }
  }

  // ---------- every creation is in range and keeps the picture ----------

  datatype Standing = Sound | Broken

  // Sound: the tree is a picture of the view and Chrome's next id is unused.
  ghost function StandingOf(v: View, c: Client, tail: seq<Id>, next: Id): Standing {
    if Sim(v, c, tail) && GoodView(v) && (forall x | x in c.tree.parent :: x < next) then Standing.Sound else Broken
  }

  lemma ListedChild(parent: Parents, kids: imap<Option<Id>, seq<Id>>, k: Option<Id>, x: Id, at: nat)
    requires NodesListed(parent, kids) && ListsOwn(parent, kids)
    requires x !in parent && k in kids && at <= |kids[k]|
    ensures var l := kids[k := Inserted(kids[k], x, at)];
            NodesListed(parent[x := k], l) && ListsOwn(parent[x := k], l)
  {
    assert x !in kids[k];
    InsertedDistinct(kids[k], x, at);
  }

  lemma InsertKeepsLists(v: View, id: Id, parent: Option<Id>, position: int, caption: Label)
    requires NodesListed(v.parent, v.kids) && ListsOwn(v.parent, v.kids) && Insertable(v, id, parent, position) && Some(id) !in v.kids
    ensures var w := InsertNode(v, id, parent, caption, position); NodesListed(w.parent, w.kids) && ListsOwn(w.parent, w.kids)
  {
    ListedChild(v.parent, v.kids, parent, id, position);
  }

  lemma InsertKeepsGood(v: View, id: Id, parent: Option<Id>, position: int, caption: Label)
    requires GoodView(v) && Insertable(v, id, parent, position)
    ensures GoodView(InsertNode(v, id, parent, caption, position))
  {
    AddingLeafKeepsAcyclic(v.parent, id, parent);
    InsertKeepsLists(v, id, parent, position, caption);
  }

  lemma SoundCreation(v: View, c: Client, tail: seq<Id>, next: Id, id: Id, parent: Option<Id>, position: int, caption: Label)
    requires StandingOf(v, c, tail, next) == Standing.Sound && Insertable(v, id, parent, position)
    ensures var r := Create(c.tree, At(c.chromeOf, c.root, parent), caption, position, next);
            r.Ok? && Sim(InsertNode(v, id, parent, caption, position), SetMapping(c.(tree := r.value), id, next), tail)
  {
    CreatedTree(v, c, tail, id, parent, position, caption, next);
  }

  lemma SoundInsert(v: View, c: Client, tail: seq<Id>, next: Id, id: Id, parent: Option<Id>, position: int, caption: Label)
    requires StandingOf(v, c, tail, next) == Standing.Sound && Insertable(v, id, parent, position)
    ensures GoodView(InsertNode(v, id, parent, caption, position))
  {
    InsertKeepsGood(v, id, parent, position, caption);
  }

  lemma NextUnused(v: View, c: Client, tail: seq<Id>, next: Id, place: Id, position: int, caption: Label)
    requires StandingOf(v, c, tail, next) == Standing.Sound
    ensures var r := Create(c.tree, place, caption, position, next);
            r.Ok? ==> forall x | x in r.value.parent :: x < next + 1
  {
  }

  // What one creation does to the view, and that Chrome accepts it.
  lemma OneCreation(v: View, c: Client, tail: seq<Id>, next: Id, id: Id, parent: Option<Id>, position: int, caption: Label)
    requires StandingOf(v, c, tail, next) == Standing.Sound && Insertable(v, id, parent, position)
    ensures var r := Create(c.tree, At(c.chromeOf, c.root, parent), caption, position, next);
            && r.Ok?
            && StandingOf(InsertNode(v, id, parent, caption, position), SetMapping(c.(tree := r.value), id, next), tail, next + 1) == Standing.Sound
  {
    SoundCreation(v, c, tail, next, id, parent, position, caption);
    SoundInsert(v, c, tail, next, id, parent, position, caption);
    var p := At(c.chromeOf, c.root, parent);
    NextUnused(v, c, tail, next, p, position, caption);
  }

  // The view after a creation, where it is in range.
  ghost function Put(v: View, id: Id, parent: Option<Id>, position: int, caption: Label): View {
    if Insertable(v, id, parent, position) then InsertNode(v, id, parent, caption, position) else v
  }

  ghost function WithBookmarks(v: View, folder: Id, rows: seq<BookmarkRow>): View {
    if rows == [] then v
    else
      var b := rows[|rows| - 1];
      Put(WithBookmarks(v, folder, rows[..|rows| - 1]), b.id, Some(folder), b.position, BookmarkLabel(b.title, b.url))
  }

  // Only known folders have a list.
  ghost predicate Keyed(v: View) {
    v.caption.Keys == v.parent.Keys && forall k | k in v.kids && k.Some? :: k.value in v.parent.Keys
  }

  ghost predicate NewBookmarks(v: View, folder: Id, rows: seq<BookmarkRow>) {
    && Keyed(v) && Some(folder) in v.kids && v.kids[Some(folder)] == []
    && (forall i | 0 <= i < |rows| :: rows[i].position == i)
    && Distinct(BookmarkIds(rows)) && forall b | b in rows :: b.id !in v.parent
  }

  lemma NewBookmarksFront(v: View, folder: Id, rows: seq<BookmarkRow>)
    requires NewBookmarks(v, folder, rows) && rows != []
    ensures var n := |rows| - 1;
            && NewBookmarks(v, folder, rows[..n]) && rows[n].position == n && rows[n].id !in v.parent
            && BookmarkIds(rows) == BookmarkIds(rows[..n]) + [rows[n].id] && rows[n].id !in BookmarkIds(rows[..n])
            && (forall b | b in rows :: b in rows[..n] || b == rows[n])
  {
    var n := |rows| - 1;
    assert rows == rows[..n] + [rows[n]];
    assert forall i | 0 <= i < n :: BookmarkIds(rows[..n])[i] == BookmarkIds(rows)[i];
    assert BookmarkIds(rows)[n] == rows[n].id;
  }

  lemma {:induction false} BookmarksGrow(v: View, folder: Id, rows: seq<BookmarkRow>)
    requires NewBookmarks(v, folder, rows)
    ensures var w := WithBookmarks(v, folder, rows);
            && Extends(v, w, Some(folder)) && Keyed(w) && w.kids.Keys == v.kids.Keys && w.kids[Some(folder)] == BookmarkIds(rows)
            && w.parent.Keys == v.parent.Keys + (set x | x in BookmarkIds(rows))
            && (forall b | b in rows :: ShowsBookmark(w, folder, b))
  {
    if rows == [] {
    } else {
      var n := |rows| - 1;
      NewBookmarksFront(v, folder, rows);
      BookmarksGrow(v, folder, rows[..n]);
      BookmarkAppended(v, WithBookmarks(v, folder, rows[..n]), folder, rows);
    }
  }

  lemma BookmarkAppended(v: View, u: View, folder: Id, rows: seq<BookmarkRow>)
    requires rows != [] && Keyed(v) && Keyed(u) && Extends(v, u, Some(folder)) && u.kids.Keys == v.kids.Keys && Some(folder) in u.kids
    requires var n := |rows| - 1;
             && u.kids[Some(folder)] == BookmarkIds(rows[..n])
             && u.parent.Keys == v.parent.Keys + (set x | x in BookmarkIds(rows[..n]))
             && (forall b | b in rows[..n] :: ShowsBookmark(u, folder, b))
             && rows[n].position == n && rows[n].id !in v.parent
             && BookmarkIds(rows) == BookmarkIds(rows[..n]) + [rows[n].id] && rows[n].id !in BookmarkIds(rows[..n])
             && (forall b | b in rows :: b in rows[..n] || b == rows[n])
    ensures var b := rows[|rows| - 1];
            var w := Put(u, b.id, Some(folder), b.position, BookmarkLabel(b.title, b.url));
            && Insertable(u, b.id, Some(folder), b.position)
            && Extends(v, w, Some(folder)) && Keyed(w) && w.kids.Keys == v.kids.Keys && w.kids[Some(folder)] == BookmarkIds(rows)
            && w.parent.Keys == v.parent.Keys + (set x | x in BookmarkIds(rows))
            && (forall b | b in rows :: ShowsBookmark(w, folder, b))
  {
    var b := rows[|rows| - 1];
  }

  ghost function WithFolder(v: View, parent: Option<Id>, node: FolderNode): View
    decreases node
  {
    WithFolders(Opened(v, parent, node), Some(node.id), node.folders)
  }

  ghost function Opened(v: View, parent: Option<Id>, node: FolderNode): View {
    WithBookmarks(Put(v, node.id, parent, node.position, FolderLabel(node.name)), node.id, node.bookmarks)
  }

  ghost function WithFolders(v: View, parent: Option<Id>, nodes: seq<FolderNode>): View
    decreases nodes
  {
    if nodes == [] then v
    else WithFolder(WithFolders(v, parent, nodes[..|nodes| - 1]), parent, nodes[|nodes| - 1])
  }

  lemma DistinctParts(a: seq<Id>, b: seq<Id>)
    requires Distinct(a + b)
    ensures Distinct(a) && Distinct(b) && Elements(a) !! Elements(b)
    ensures Elements(a + b) == Elements(a) + Elements(b)
  {
    assert forall i | 0 <= i < |a| :: (a + b)[i] == a[i];
    assert forall j | 0 <= j < |b| :: (a + b)[|a| + j] == b[j];
  }

  // Nodes not yet in the view, to be hung under a place it has.
  ghost predicate NewFolders(v: View, parent: Option<Id>, nodes: seq<FolderNode>) {
    Keyed(v) && parent in v.kids && DenseNodes(nodes) && Distinct(AllIds(nodes)) && Elements(AllIds(nodes)) !! v.parent.Keys
  }

  ghost predicate NewFolder(v: View, parent: Option<Id>, node: FolderNode) {
    && Keyed(v) && parent in v.kids && 0 <= node.position <= |v.kids[parent]|
    && DenseNode(node) && Distinct(IdsOf(node)) && Elements(IdsOf(node)) !! v.parent.Keys
  }

  lemma NodeParts(node: FolderNode)
    requires Distinct(IdsOf(node))
    ensures var b, f := BookmarkIds(node.bookmarks), AllIds(node.folders);
            && Distinct(b) && Distinct(f) && node.id !in b && node.id !in f && Elements(b) !! Elements(f)
            && Elements(IdsOf(node)) == {node.id} + Elements(b) + Elements(f)
  {
    var b, f := BookmarkIds(node.bookmarks), AllIds(node.folders);
    DistinctParts([node.id] + b, f);
    DistinctParts([node.id], b);
    assert node.id in Elements([node.id]) && node.id in Elements([node.id] + b);
  }

  lemma ListParts(nodes: seq<FolderNode>)
    requires nodes != [] && DenseNodes(nodes) && Distinct(AllIds(nodes))
    ensures var front, last := nodes[..|nodes| - 1], nodes[|nodes| - 1];
            && DenseNodes(front) && DenseNode(last) && last.position == |nodes| - 1
            && Distinct(AllIds(front)) && Distinct(IdsOf(last)) && Elements(AllIds(front)) !! Elements(IdsOf(last))
            && Elements(AllIds(nodes)) == Elements(AllIds(front)) + Elements(IdsOf(last))
            && FolderIds(nodes) == FolderIds(front) + [last.id]
  {
    var front, last := nodes[..|nodes| - 1], nodes[|nodes| - 1];
    DistinctParts(AllIds(front), IdsOf(last));
  }

  // A new folder has an empty list, ready for its bookmarks.
  lemma FolderAlone(v: View, parent: Option<Id>, node: FolderNode)
    requires NewFolder(v, parent, node)
    ensures var own := Put(v, node.id, parent, node.position, FolderLabel(node.name));
            && Insertable(v, node.id, parent, node.position)
            && NewBookmarks(own, node.id, node.bookmarks)
            && Extends(v, own, parent) && own.kids[parent] == Inserted(v.kids[parent], node.id, node.position)
            && own.parent == v.parent[node.id := parent] && own.caption == v.caption[node.id := FolderLabel(node.name)]
            && Some(node.id) !in v.kids
  {
    NodeParts(node);
    assert node.id in Elements(IdsOf(node));
    var own := Put(v, node.id, parent, node.position, FolderLabel(node.name));
    forall b | b in node.bookmarks ensures b.id !in own.parent {
      var i :| 0 <= i < |node.bookmarks| && node.bookmarks[i] == b;
      assert BookmarkIds(node.bookmarks)[i] == b.id;
      assert b.id in Elements(BookmarkIds(node.bookmarks));
    }
  }

  // With its bookmarks placed its list holds exactly them.
  lemma FolderOpened(v: View, parent: Option<Id>, node: FolderNode) returns (u: View)
    requires NewFolder(v, parent, node)
    ensures u == Opened(v, parent, node)
    ensures Extends(v, u, parent) && Keyed(u) && u.kids[parent] == Inserted(v.kids[parent], node.id, node.position)
    ensures Some(node.id) in u.kids && u.kids[Some(node.id)] == BookmarkIds(node.bookmarks)
    ensures u.parent.Keys == v.parent.Keys + {node.id} + Elements(BookmarkIds(node.bookmarks))
    ensures node.id in u.parent && u.parent[node.id] == parent && node.id in u.caption && u.caption[node.id] == FolderLabel(node.name)
    ensures forall b | b in node.bookmarks :: ShowsBookmark(u, node.id, b)
  {
    FolderAlone(v, parent, node);
    var own := Put(v, node.id, parent, node.position, FolderLabel(node.name));
    BookmarksGrow(own, node.id, node.bookmarks);
    u := WithBookmarks(own, node.id, node.bookmarks);
  }

  lemma SubfoldersNew(v: View, u: View, node: FolderNode)
    requires DenseNode(node) && Distinct(IdsOf(node)) && Elements(IdsOf(node)) !! v.parent.Keys
    requires Keyed(u) && Some(node.id) in u.kids && u.parent.Keys == v.parent.Keys + {node.id} + Elements(BookmarkIds(node.bookmarks))
    ensures NewFolders(u, Some(node.id), node.folders)
    ensures u.parent.Keys + Elements(AllIds(node.folders)) == v.parent.Keys + Elements(IdsOf(node))
  {
    NodeParts(node);
  }

  lemma {:induction false} FolderGrows(v: View, parent: Option<Id>, node: FolderNode)
    requires NewFolder(v, parent, node)
    ensures var w := WithFolder(v, parent, node);
            && Extends(v, w, parent) && Keyed(w) && w.kids[parent] == Inserted(v.kids[parent], node.id, node.position)
            && w.parent.Keys == v.parent.Keys + Elements(IdsOf(node))
            && Shows(w, parent, node)
    decreases node, 1
  {
    var u := FolderOpened(v, parent, node);
    SubfoldersNew(v, u, node);
    FoldersGrow(u, Some(node.id), node.folders);
    assert node.id in Elements(IdsOf(node)) by { NodeParts(node); }
  }

  lemma LastFolderNew(v: View, u: View, parent: Option<Id>, nodes: seq<FolderNode>)
    requires NewFolders(v, parent, nodes) && nodes != [] && Keyed(u) && parent in u.kids
    requires u.kids[parent] == FolderIds(nodes[..|nodes| - 1]) + v.kids[parent]
    requires u.parent.Keys == v.parent.Keys + Elements(AllIds(nodes[..|nodes| - 1]))
    ensures NewFolder(u, parent, nodes[|nodes| - 1])
    ensures u.parent.Keys + Elements(IdsOf(nodes[|nodes| - 1])) == v.parent.Keys + Elements(AllIds(nodes))
  {
    ListParts(nodes);
  }

  lemma FirstFoldersNew(v: View, parent: Option<Id>, nodes: seq<FolderNode>)
    requires NewFolders(v, parent, nodes) && nodes != []
    ensures NewFolders(v, parent, nodes[..|nodes| - 1])
    ensures nodes[|nodes| - 1].position == |nodes| - 1
  {
    ListParts(nodes);
  }

  lemma {:induction false} FoldersGrow(v: View, parent: Option<Id>, nodes: seq<FolderNode>)
    requires NewFolders(v, parent, nodes)
    ensures var w := WithFolders(v, parent, nodes);
            && Extends(v, w, parent) && Keyed(w) && w.kids[parent] == FolderIds(nodes) + v.kids[parent]
            && w.parent.Keys == v.parent.Keys + Elements(AllIds(nodes))
            && ShowsAll(w, parent, nodes)
    decreases nodes, 0
  {
    if nodes == [] {
    } else {
      var n := |nodes| - 1;
      var u := WithFolders(v, parent, nodes[..n]);
      FirstFoldersNew(v, parent, nodes);
      FoldersGrow(v, parent, nodes[..n]);
      LastFolderNew(v, u, parent, nodes);
      FolderGrows(u, parent, nodes[n]);
      var w := WithFolder(u, parent, nodes[n]);
      AppendedBefore(nodes, v.kids[parent]);
      assert parent.Some? ==> parent.value in v.parent.Keys;
      FolderAppended(u, w, parent, nodes);
    }
  }

  lemma AppendedBefore(nodes: seq<FolderNode>, rest: seq<Id>)
    requires nodes != []
    ensures var n := |nodes| - 1;
            Inserted(FolderIds(nodes[..n]) + rest, nodes[n].id, n) == FolderIds(nodes) + rest
  {
    var n := |nodes| - 1;
    assert FolderIds(nodes) == FolderIds(nodes[..n]) + [nodes[n].id];
  }

  lemma FolderAppended(u: View, w: View, parent: Option<Id>, nodes: seq<FolderNode>)
    requires nodes != [] && Extends(u, w, parent)
    requires ShowsAll(u, parent, nodes[..|nodes| - 1]) && Shows(w, parent, nodes[|nodes| - 1])
    requires parent.Some? ==> parent.value !in AllIds(nodes[..|nodes| - 1])
    ensures ShowsAll(w, parent, nodes)
  {
    ShowsAllKept(u, w, parent, parent, nodes[..|nodes| - 1]);
    ShowsAllJoined(w, parent, nodes);
  }

  // The mapping only grows, and the workspace folder stays.
  ghost predicate Anchored(c: Client, d: Client) {
    d.root == c.root && forall x | x in c.chromeOf :: x in d.chromeOf && d.chromeOf[x] == c.chromeOf[x]
  }

  // ---------- the Chrome calls behind the view ----------

  lemma PutIsCreation(v: View, c: Client, tail: seq<Id>, next: Id, id: Id, parent: Option<Id>, position: int, caption: Label)
    requires StandingOf(v, c, tail, next) == Standing.Sound && Insertable(v, id, parent, position)
    ensures var r := Create(c.tree, At(c.chromeOf, c.root, parent), caption, position, next);
            && r.Ok?
            && var d := SetMapping(c.(tree := r.value), id, next);
               StandingOf(Put(v, id, parent, position, caption), d, tail, next + 1) == Standing.Sound && Anchored(c, d) && d.chromeOf[id] == next
  {
    OneCreation(v, c, tail, next, id, parent, position, caption);
    MappingCovers(v, c, tail, next);
  }

  lemma MappingCovers(v: View, c: Client, tail: seq<Id>, next: Id)
    requires StandingOf(v, c, tail, next) == Standing.Sound
    ensures c.chromeOf.Keys == v.parent.Keys
  {
  }

  lemma BookmarkPlaced(u: View, c: Client, tail: seq<Id>, next: Id, folder: Id, place: Id, b: BookmarkRow)
    requires StandingOf(u, c, tail, next) == Standing.Sound && Insertable(u, b.id, Some(folder), b.position)
    requires folder in c.chromeOf && c.chromeOf[folder] == place
    ensures var r := PlaceBookmark(c, place, b, next);
            && r.Ok? && Anchored(c, r.value.0)
            && StandingOf(Put(u, b.id, Some(folder), b.position, BookmarkLabel(b.title, b.url)), r.value.0, tail, r.value.1) == Standing.Sound
  {
    PutIsCreation(u, c, tail, next, b.id, Some(folder), b.position, BookmarkLabel(b.title, b.url));
    assert At(c.chromeOf, c.root, Some(folder)) == place;
  }

  lemma {:induction false} BookmarksPlaced(v: View, c: Client, tail: seq<Id>, next: Id, folder: Id, place: Id, rows: seq<BookmarkRow>)
    requires StandingOf(v, c, tail, next) == Standing.Sound && NewBookmarks(v, folder, rows)
    requires folder in c.chromeOf && c.chromeOf[folder] == place
    ensures var r := PlaceBookmarks(c, place, rows, next);
            r.Ok? && StandingOf(WithBookmarks(v, folder, rows), r.value.0, tail, r.value.1) == Standing.Sound && Anchored(c, r.value.0)
  {
    if rows != [] {
      var n := |rows| - 1;
      NextBookmarkInRange(v, folder, rows);
      BookmarksPlaced(v, c, tail, next, folder, place, rows[..n]);
      var r := PlaceBookmarks(c, place, rows[..n], next).value;
      BookmarkPlaced(WithBookmarks(v, folder, rows[..n]), r.0, tail, r.1, folder, place, rows[n]);
      AnchoredThrough(c, r.0, PlaceBookmark(r.0, place, rows[n], r.1).value.0);
    }
  }

  lemma NextBookmarkInRange(v: View, folder: Id, rows: seq<BookmarkRow>)
    requires NewBookmarks(v, folder, rows) && rows != []
    ensures var n := |rows| - 1;
            NewBookmarks(v, folder, rows[..n]) && Insertable(WithBookmarks(v, folder, rows[..n]), rows[n].id, Some(folder), rows[n].position)
  {
    NewBookmarksFront(v, folder, rows);
    BookmarksGrow(v, folder, rows[..|rows| - 1]);
  }

  // The client right after the folder itself has been created.
  lemma FolderCreated(v: View, c: Client, tail: seq<Id>, next: Id, parent: Option<Id>, place: Id, node: FolderNode) returns (d: Client)
    requires StandingOf(v, c, tail, next) == Standing.Sound && PlaceOf(c, parent) == Some(place)
    requires Insertable(v, node.id, parent, node.position)
    ensures StandingOf(Put(v, node.id, parent, node.position, FolderLabel(node.name)), d, tail, next + 1) == Standing.Sound
    ensures Anchored(c, d) && node.id in d.chromeOf && d.chromeOf[node.id] == next
    ensures OpenFolder(c, place, node, next) == PlaceBookmarks(d, next, node.bookmarks, next + 1)
  {
    PutIsCreation(v, c, tail, next, node.id, parent, node.position, FolderLabel(node.name));
    assert At(c.chromeOf, c.root, parent) == place;
    d := SetMapping(c.(tree := Create(c.tree, place, FolderLabel(node.name), node.position, next).value), node.id, next);
  }

  lemma FolderOpenedInTree(v: View, c: Client, tail: seq<Id>, next: Id, parent: Option<Id>, place: Id, node: FolderNode)
    requires StandingOf(v, c, tail, next) == Standing.Sound && PlaceOf(c, parent) == Some(place)
    requires Insertable(v, node.id, parent, node.position)
    requires NewBookmarks(Put(v, node.id, parent, node.position, FolderLabel(node.name)), node.id, node.bookmarks)
    ensures var r := OpenFolder(c, place, node, next);
            && r.Ok? && StandingOf(Opened(v, parent, node), r.value.0, tail, r.value.1) == Standing.Sound
            && Anchored(c, r.value.0) && PlaceOf(r.value.0, Some(node.id)) == Some(next)
  {
    var d := FolderCreated(v, c, tail, next, parent, place, node);
    BookmarksPlaced(Put(v, node.id, parent, node.position, FolderLabel(node.name)), d, tail, next + 1, node.id, next, node.bookmarks);
    AnchoredThrough(c, d, OpenFolder(c, place, node, next).value.0);
  }

  lemma {:induction false} FolderPlaced(v: View, c: Client, tail: seq<Id>, next: Id, parent: Option<Id>, place: Id, node: FolderNode)
    requires StandingOf(v, c, tail, next) == Standing.Sound && NewFolder(v, parent, node) && PlaceOf(c, parent) == Some(place)
    ensures var r := PlaceFolder(c, place, node, next);
            r.Ok? && StandingOf(WithFolder(v, parent, node), r.value.0, tail, r.value.1) == Standing.Sound && Anchored(c, r.value.0)
    decreases node, 1
  {
    FolderReady(v, parent, node);
    FolderOpenedInTree(v, c, tail, next, parent, place, node);
    var r := OpenFolder(c, place, node, next).value;
    FoldersPlaced(Opened(v, parent, node), r.0, tail, r.1, Some(node.id), next, node.folders);
    AnchoredThrough(c, r.0, PlaceFolders(r.0, next, node.folders, r.1).value.0);
  }

  lemma FolderReady(v: View, parent: Option<Id>, node: FolderNode)
    requires NewFolder(v, parent, node)
    ensures Insertable(v, node.id, parent, node.position)
    ensures NewBookmarks(Put(v, node.id, parent, node.position, FolderLabel(node.name)), node.id, node.bookmarks)
    ensures NewFolders(Opened(v, parent, node), Some(node.id), node.folders)
  {
    FolderAlone(v, parent, node);
    var u := FolderOpened(v, parent, node);
    SubfoldersNew(v, u, node);
  }

  lemma AnchoredThrough(c: Client, d: Client, e: Client)
    requires Anchored(c, d) && Anchored(d, e)
    ensures Anchored(c, e)
  {
  }

  lemma {:induction false} FoldersPlaced(v: View, c: Client, tail: seq<Id>, next: Id, parent: Option<Id>, place: Id, nodes: seq<FolderNode>)
    requires StandingOf(v, c, tail, next) == Standing.Sound && NewFolders(v, parent, nodes) && PlaceOf(c, parent) == Some(place)
    ensures var r := PlaceFolders(c, place, nodes, next);
            r.Ok? && StandingOf(WithFolders(v, parent, nodes), r.value.0, tail, r.value.1) == Standing.Sound && Anchored(c, r.value.0)
    decreases nodes, 0
  {
    if nodes != [] {
      var n := |nodes| - 1;
      var u := WithFolders(v, parent, nodes[..n]);
      FirstFoldersNew(v, parent, nodes);
      FoldersPlaced(v, c, tail, next, parent, place, nodes[..n]);
      FoldersGrow(v, parent, nodes[..n]);
      LastFolderNew(v, u, parent, nodes);
      var r := PlaceFolders(c, place, nodes[..n], next).value;
      FolderPlaced(u, r.0, tail, r.1, parent, place, nodes[n]);
    }
  }

  lemma RebuildPlaces(v: View, c: Client, tail: seq<Id>, next: Id, nodes: seq<FolderNode>)
    requires StandingOf(v, c, tail, next) == Standing.Sound && NewFolders(v, None, nodes)
    ensures var r := PlaceFolders(c, c.root, nodes, next);
            var w := WithFolders(v, None, nodes);
            && r.Ok? && StandingOf(w, r.value.0, tail, r.value.1) == Standing.Sound
            && None in w.kids && w.kids[None] == FolderIds(nodes) + v.kids[None] && ShowsAll(w, None, nodes)
            && r.value.0.chromeOf.Keys == w.parent.Keys == v.parent.Keys + Elements(AllIds(nodes)) && r.value.0.root == c.root
  {
    FoldersGrow(v, None, nodes);
    FoldersPlaced(v, c, tail, next, None, c.root, nodes);
    MappingCovers(WithFolders(v, None, nodes), PlaceFolders(c, c.root, nodes, next).value.0, tail, PlaceFolders(c, c.root, nodes, next).value.1);
  }

  // ---------- before and after ----------

  ghost predicate NoNodes(v: View) {
    v.parent.Keys == {} && v.caption.Keys == {} && (forall k :: k in v.kids <==> k == None) && v.kids[None] == []
  }

  lemma NothingIsAcyclic(p: Parents)
    requires p.Keys == {}
    ensures Acyclic(p)
  {
    var r: map<Id, nat> := map x | x in p :: 0;
    assert Ranked(p, r);
  }

  // A cleared workspace folder with an empty mapping is a picture of the forest with nothing in it; what was
  // left under the folder is the user's own.
  lemma ClearedIsSound(v: View, c: Client, next: Id)
    requires NoNodes(v) && Consistent(c.tree) && c.root in c.tree.parent && c.tree.parent[c.root] == None && c.root in c.tree.kids
    requires c.chromeOf.Keys == {} && c.backendOf.Keys == {} && forall x | x in c.tree.parent :: x < next
    ensures StandingOf(v, c, c.tree.kids[c.root], next) == Standing.Sound
  {
    NothingIsAcyclic(v.parent);
    assert Image(c.chromeOf, v.kids[None]) + c.tree.kids[c.root] == c.tree.kids[c.root];
  }

  lemma {:induction false} SparedOne(children: seq<Id>, x: Id)
    requires Distinct(children)
    ensures Spared(children, {x}) == if x in children then [x] else []
  {
    if children != [] {
      var n := |children| - 1;
      assert children == children[..n] + [children[n]];
      SparedOne(children[..n], x);
    }
  }

  // The nodes that were there keep their titles.
  ghost predicate TitlesKept(t: Tree, u: Tree, next: Id) {
    forall x | x in t.caption && x < next :: x in u.caption && u.caption[x] == t.caption[x]
  }

  lemma {:induction false} BookmarksKeepTitles(c: Client, place: Id, rows: seq<BookmarkRow>, next: Id)
    ensures var r := PlaceBookmarks(c, place, rows, next); r.Ok? ==> TitlesKept(c.tree, r.value.0.tree, next) && next <= r.value.1
  {
    if rows != [] {
      BookmarksKeepTitles(c, place, rows[..|rows| - 1], next);
    }
  }

  lemma {:induction false} FolderKeepsTitles(c: Client, place: Id, node: FolderNode, next: Id)
    ensures var r := PlaceFolder(c, place, node, next); r.Ok? ==> TitlesKept(c.tree, r.value.0.tree, next) && next <= r.value.1
    decreases node, 1
  {
    var t := Create(c.tree, place, FolderLabel(node.name), node.position, next);
    if t.Ok? {
      var d := SetMapping(c.(tree := t.value), node.id, next);
      BookmarksKeepTitles(d, next, node.bookmarks, next + 1);
      var r := PlaceBookmarks(d, next, node.bookmarks, next + 1);
      if r.Ok? { FoldersKeepTitles(r.value.0, next, node.folders, r.value.1); }
    }
  }

  lemma {:induction false} FoldersKeepTitles(c: Client, place: Id, nodes: seq<FolderNode>, next: Id)
    ensures var r := PlaceFolders(c, place, nodes, next); r.Ok? ==> TitlesKept(c.tree, r.value.0.tree, next) && next <= r.value.1
    decreases nodes, 0
  {
    if nodes != [] {
      var n := |nodes| - 1;
      FoldersKeepTitles(c, place, nodes[..n], next);
      var r := PlaceFolders(c, place, nodes[..n], next);
      if r.Ok? { FolderKeepsTitles(r.value.0, place, nodes[n], r.value.1); }
    }
  }

  lemma TailKeepsName(v: View, c: Client, tail: seq<Id>, next: Id, nodes: seq<FolderNode>)
    requires StandingOf(v, c, tail, next) == Standing.Sound && TailNamed(tail, c.tree.caption) && PlaceFolders(c, c.root, nodes, next).Ok?
    ensures TailNamed(tail, PlaceFolders(c, c.root, nodes, next).value.0.tree.caption)
  {
    FoldersKeepTitles(c, c.root, nodes, next);
    forall x | x in tail ensures x < next {
      assert c.tree.caption.Keys == c.tree.parent.Keys;
    }
  }

  lemma SoundMeans(v: View, c: Client, tail: seq<Id>, next: Id)
    requires StandingOf(v, c, tail, next) == Standing.Sound
    ensures Sim(v, c, tail) && GoodView(v) && forall x | x in c.tree.parent :: x < next
    ensures Keyed(v)
  {
  }

  /** Filling an empty workspace folder, in front of whatever the user keeps there, from a dense tree: every
      index is in range, and the result is a picture of the forest the tree shows, whose mapping is a
      bijection onto exactly the ids of the tree. */
  lemma RebuildPicturesTree(v: View, c: Client, tail: seq<Id>, next: Id, nodes: seq<FolderNode>)
    requires StandingOf(v, c, tail, next) == Standing.Sound && NoNodes(v) && TailNamed(tail, c.tree.caption)
    requires DenseNodes(nodes) && Distinct(AllIds(nodes))
    ensures var r := PlaceFolders(c, c.root, nodes, next);
            var w := WithFolders(v, None, nodes);
            && r.Ok? && Sim(w, r.value.0, tail) && GoodView(w) && TailNamed(tail, r.value.0.tree.caption) && (forall x | x in r.value.0.tree.parent :: x < r.value.1)
            && None in w.kids && w.kids[None] == FolderIds(nodes) && ShowsAll(w, None, nodes)
            && r.value.0.chromeOf.Keys == w.parent.Keys == Elements(AllIds(nodes)) && r.value.0.root == c.root
  {
    SoundMeans(v, c, tail, next);
    RebuildPlaces(v, c, tail, next, nodes);
    TailKeepsName(v, c, tail, next, nodes);
    SoundMeans(WithFolders(v, None, nodes), PlaceFolders(c, c.root, nodes, next).value.0, tail, PlaceFolders(c, c.root, nodes, next).value.1);
  }
}
