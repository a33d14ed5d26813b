/** Turning the flat rows of a workspace back into a tree, and the tree back into rows. */
module FolderTree {
  import opened Common
  import opened Ancestry
  import opened SiblingOrder
  import opened Forest

  datatype FolderRow = FolderRow(id: Id, parent: Option<Id>, name: string, position: int)
  datatype BookmarkRow = BookmarkRow(id: Id, folder: Id, title: string, url: string, position: int)
  datatype FolderNode = FolderNode(id: Id, parent: Option<Id>, name: string, position: int, folders: seq<FolderNode>, bookmarks: seq<BookmarkRow>)

  // The rows with a given parent, in row order.
  function ChildRows(rows: seq<FolderRow>, parent: Option<Id>): seq<FolderRow> {
    if rows == [] then []
    else
      var n := |rows| - 1;
      ChildRows(rows[..n], parent) + (if rows[n].parent == parent then [rows[n]] else [])
  }

  function BookmarksIn(rows: seq<BookmarkRow>, folder: Id): seq<BookmarkRow> {
    if rows == [] then []
    else
      var n := |rows| - 1;
      BookmarksIn(rows[..n], folder) + (if rows[n].folder == folder then [rows[n]] else [])
  }

  function RowIds(rows: seq<FolderRow>): (r: seq<Id>)
    ensures |r| == |rows|
  {
    seq(|rows|, i requires 0 <= i < |rows| => rows[i].id)
  }

  ghost predicate UniqueIds(folders: seq<FolderRow>, bookmarks: seq<BookmarkRow>) {
    && (forall i, j :: 0 <= i < j < |folders| ==> folders[i].id != folders[j].id)
    && (forall i, j :: 0 <= i < j < |bookmarks| ==> bookmarks[i].id != bookmarks[j].id)
  }

  // What the forest invariant says about the rows of one workspace.
  ghost predicate ForestRows(folders: seq<FolderRow>, bookmarks: seq<BookmarkRow>) {
    && UniqueIds(folders, bookmarks)
    && (forall r | r in folders && r.parent.Some? :: exists q :: q in folders && q.id == r.parent.value)
    && (forall b | b in bookmarks :: exists q :: q in folders && q.id == b.folder)
    && exists p: Parents :: MatchesRows(p, folders) && Acyclic(p)
  }

  ghost predicate MatchesRows(p: Parents, rows: seq<FolderRow>) {
    && (forall r | r in rows :: r.id in p && p[r.id] == r.parent)
    && (forall x | x in p :: exists r :: r in rows && r.id == x)
  }

  // The node carries its row, its children are the rows naming it as parent, all in row order.
  ghost predicate Faithful(node: FolderNode, row: FolderRow, folders: seq<FolderRow>, bookmarks: seq<BookmarkRow>)
    decreases node
  {
    && node.id == row.id && node.parent == row.parent && node.name == row.name && node.position == row.position
    && node.bookmarks == BookmarksIn(bookmarks, row.id)
    && var kids := ChildRows(folders, Some(row.id));
       |node.folders| == |kids| && forall i | 0 <= i < |kids| :: Faithful(node.folders[i], kids[i], folders, bookmarks)
  }

  ghost predicate FaithfulList(nodes: seq<FolderNode>, rows: seq<FolderRow>, folders: seq<FolderRow>, bookmarks: seq<BookmarkRow>) {
    |nodes| == |rows| && forall i | 0 <= i < |rows| :: Faithful(nodes[i], rows[i], folders, bookmarks)
  }

  lemma {:induction false} ChildRowsIn(rows: seq<FolderRow>, parent: Option<Id>)
    ensures forall r :: r in ChildRows(rows, parent) <==> r in rows && r.parent == parent
  {
    if rows != [] {
      var n := |rows| - 1;
      ChildRowsIn(rows[..n], parent);
      assert rows == rows[..n] + [rows[n]];
    }
  }

  lemma {:induction false} BookmarksInIn(rows: seq<BookmarkRow>, folder: Id)
    ensures forall r :: r in BookmarksIn(rows, folder) <==> r in rows && r.folder == folder
  {
    if rows != [] {
      var n := |rows| - 1;
      BookmarksInIn(rows[..n], folder);
      assert rows == rows[..n] + [rows[n]];
    }
  }

  // ---------- the algorithm ----------

  // The maps the build works from: bare nodes by id, child ids by parent, root ids, all in row order.
  ghost predicate Indexed(byId: map<Id, FolderNode>, byParent: map<Id, seq<Id>>, rootIds: seq<Id>, rows: seq<FolderRow>) {
    NodesIndexed(byId, rows) && ListsIndexed(byParent, rootIds, rows)
  }

  ghost predicate NodesIndexed(byId: map<Id, FolderNode>, rows: seq<FolderRow>) {
    && (forall x :: x in byId <==> HasId(rows, x))
    && (forall k | 0 <= k < |rows| :: rows[k].id in byId && byId[rows[k].id] == Bare(rows[k]))
  }

  ghost predicate ListsIndexed(byParent: map<Id, seq<Id>>, rootIds: seq<Id>, rows: seq<FolderRow>) {
    && rootIds == RowIds(ChildRows(rows, None))
    && (forall x :: Listed(byParent, x) == RowIds(ChildRows(rows, Some(x))))
  }

  ghost predicate HasId(rows: seq<FolderRow>, x: Id) {
    exists k :: 0 <= k < |rows| && rows[k].id == x
  }

  method IndexFolders(folders: seq<FolderRow>) returns (byId: map<Id, FolderNode>, byParent: map<Id, seq<Id>>, rootIds: seq<Id>)
    requires forall i, j :: 0 <= i < j < |folders| ==> folders[i].id != folders[j].id
    ensures Indexed(byId, byParent, rootIds, folders)
  {
    byId, byParent, rootIds := map[], map[], [];
    for i := 0 to |folders|
      invariant Indexed(byId, byParent, rootIds, folders[..i])
    {
      NodesNext(byId, folders, i);
      ListsNext(byParent, rootIds, folders, i);
      var folder := folders[i];
      byId := byId[folder.id := Bare(folder)];
      if folder.parent.None? {
        rootIds := rootIds + [folder.id];
      } else {
        var parent := folder.parent.value;
        byParent := byParent[parent := Listed(byParent, parent) + [folder.id]];
      }
    }
    assert folders[..|folders|] == folders;
  }

  lemma NodesNext(byId: map<Id, FolderNode>, rows: seq<FolderRow>, i: nat)
    requires i < |rows| && NodesIndexed(byId, rows[..i])
    requires forall i, j :: 0 <= i < j < |rows| ==> rows[i].id != rows[j].id
    ensures NodesIndexed(byId[rows[i].id := Bare(rows[i])], rows[..i + 1])
  {
    var row := rows[i];
    var done, next := rows[..i], rows[..i + 1];
    forall x ensures HasId(next, x) <==> HasId(done, x) || x == row.id {
    }
    forall k | 0 <= k < |next| ensures next[k].id in byId[row.id := Bare(row)] && byId[row.id := Bare(row)][next[k].id] == Bare(next[k]) {
      if k < i {
        assert done[k] == rows[k] == next[k];
      }
    }
  }

  lemma ListsNext(byParent: map<Id, seq<Id>>, rootIds: seq<Id>, rows: seq<FolderRow>, i: nat)
    requires i < |rows| && ListsIndexed(byParent, rootIds, rows[..i])
    ensures var row := rows[i];
            ListsIndexed(if row.parent.None? then byParent else byParent[row.parent.value := Listed(byParent, row.parent.value) + [row.id]],
                         if row.parent.None? then rootIds + [row.id] else rootIds,
                         rows[..i + 1])
  {
    var row := rows[i];
    var done, next := rows[..i], rows[..i + 1];
    ChildRowsNext(rows, i, None);
    forall x: Id ensures RowIds(ChildRows(next, Some(x))) == RowIds(ChildRows(done, Some(x))) + (if row.parent == Some(x) then [row.id] else []) {
      ChildRowsNext(rows, i, Some(x));
    }
  }

  lemma ChildRowsNext(rows: seq<FolderRow>, i: nat, p: Option<Id>)
    requires i < |rows|
    ensures RowIds(ChildRows(rows[..i + 1], p)) == RowIds(ChildRows(rows[..i], p)) + (if rows[i].parent == p then [rows[i].id] else [])
  {
    assert rows[..i + 1][..i] == rows[..i];
  }

  ghost predicate Filled(byId: map<Id, FolderNode>, folders: seq<FolderRow>, bookmarks: seq<BookmarkRow>) {
    && (forall x :: x in byId <==> HasId(folders, x))
    && forall k | 0 <= k < |folders| ::
         folders[k].id in byId && byId[folders[k].id] == Bare(folders[k]).(bookmarks := BookmarksIn(bookmarks, folders[k].id))
  }

  method AttachBookmarks(bare: map<Id, FolderNode>, ghost folders: seq<FolderRow>, bookmarks: seq<BookmarkRow>) returns (byId: map<Id, FolderNode>)
    requires Filled(bare, folders, [])
    requires forall i, j :: 0 <= i < j < |folders| ==> folders[i].id != folders[j].id
    ensures Filled(byId, folders, bookmarks)
  {
    byId := bare;
    for i := 0 to |bookmarks|
      invariant Filled(byId, folders, bookmarks[..i])
    {
      var bookmark := bookmarks[i];
      assert bookmarks[..i + 1][..i] == bookmarks[..i];
      if bookmark.folder in byId {
        var node := byId[bookmark.folder];
        byId := byId[bookmark.folder := node.(bookmarks := node.bookmarks + [bookmark])];
      }
    }
    assert bookmarks[..|bookmarks|] == bookmarks;
  }

  method BuildFolderTree(folders: seq<FolderRow>, bookmarks: seq<BookmarkRow>) returns (tree: seq<FolderNode>)
    requires ForestRows(folders, bookmarks)
    ensures FaithfulList(tree, ChildRows(folders, None), folders, bookmarks)
  {
    var bare, byParent, rootIds := IndexFolders(folders);
    var byId := AttachBookmarks(bare, folders, bookmarks);
    ghost var p: Parents :| MatchesRows(p, folders) && Acyclic(p);
    ghost var rank :| Ranked(p, rank);
    ghost var bound := MaxRank(p.Keys, rank);
    forall r | r in folders ensures r.id in rank && rank[r.id] <= bound {
      RankBounded(p.Keys, rank, r.id);
    }
    tree := BuildAll(byId, byParent, rootIds, ChildRows(folders, None), None, folders, bookmarks, p, rank, bound);
  }

  function Bare(folder: FolderRow): FolderNode {
    FolderNode(folder.id, folder.parent, folder.name, folder.position, [], [])
  }

  function Listed(m: map<Id, seq<Id>>, x: Id): seq<Id> {
    if x in m then m[x] else []
  }

  // The loops over root ids and over child ids, with the recursive build of each node.
  method BuildAll(byId: map<Id, FolderNode>, byParent: map<Id, seq<Id>>, ids: seq<Id>,
                  ghost rows: seq<FolderRow>, ghost parent: Option<Id>, ghost folders: seq<FolderRow>, ghost bookmarks: seq<BookmarkRow>,
                  ghost p: Parents, ghost rank: map<Id, nat>, ghost bound: nat)
    returns (built: seq<FolderNode>)
    requires MatchesRows(p, folders) && Ranked(p, rank)
    requires forall r | r in folders :: r.id in rank && rank[r.id] <= bound
    requires Filled(byId, folders, bookmarks)
    requires forall x :: Listed(byParent, x) == RowIds(ChildRows(folders, Some(x)))
    requires rows == ChildRows(folders, parent) && ids == RowIds(rows)
    requires parent.Some? ==> HasId(folders, parent.value)
    ensures FaithfulList(built, rows, folders, bookmarks)
    decreases if parent.None? then bound + 1 else if parent.value in rank then bound - rank[parent.value] else 0
  {
    ChildRowsIn(folders, parent);
    built := [];
    for i := 0 to |ids|
      invariant FaithfulList(built, rows[..i], folders, bookmarks)
    {
      assert rows[i] in rows;
      ghost var k :| 0 <= k < |folders| && folders[k] == rows[i];
      assert HasId(folders, ids[i]);
      var children := BuildAll(byId, byParent, Listed(byParent, ids[i]), ChildRows(folders, Some(ids[i])), Some(ids[i]), folders, bookmarks, p, rank, bound);
      var node := byId[ids[i]].(folders := children);
      assert Faithful(node, rows[i], folders, bookmarks);
      AppendFaithful(built, node, rows, i, folders, bookmarks);
      built := built + [node];
    }
    assert rows[..|ids|] == rows;
  }

  lemma AppendFaithful(built: seq<FolderNode>, node: FolderNode, rows: seq<FolderRow>, i: nat, folders: seq<FolderRow>, bookmarks: seq<BookmarkRow>)
    requires i < |rows| && FaithfulList(built, rows[..i], folders, bookmarks) && Faithful(node, rows[i], folders, bookmarks)
    ensures FaithfulList(built + [node], rows[..i + 1], folders, bookmarks)
  {
    forall k | 0 <= k < i + 1 ensures Faithful((built + [node])[k], rows[..i + 1][k], folders, bookmarks) {
      if k < i {
        assert rows[..i][k] == rows[k];
        assert Faithful(built[k], rows[..i][k], folders, bookmarks);
      }
    }
  }

  ghost function MaxRank(s: set<Id>, rank: map<Id, nat>): nat
    requires s <= rank.Keys
  {
    if s == {} then 0
    else
      var x :| x in s;
      var rest := MaxRank(s - {x}, rank);
      if rank[x] > rest then rank[x] else rest
  }

  lemma {:induction false} RankBounded(s: set<Id>, rank: map<Id, nat>, y: Id)
    requires s <= rank.Keys && y in s
    ensures rank[y] <= MaxRank(s, rank)
  {
    var x :| x in s && MaxRank(s, rank) == var rest := MaxRank(s - {x}, rank); if rank[x] > rest then rank[x] else rest;
    if y != x {
      RankBounded(s - {x}, rank, y);
    }
  }

  // ---------- flattening ----------

  datatype Entry = FolderEntry(id: Id, parent: Option<Id>) | BookmarkEntry(bookmark: BookmarkRow)

  function BookmarkEntries(rows: seq<BookmarkRow>): seq<Entry> {
    seq(|rows|, i requires 0 <= i < |rows| => BookmarkEntry(rows[i]))
  }

  function FolderEntries(rows: seq<FolderRow>): seq<Entry> {
    seq(|rows|, i requires 0 <= i < |rows| => FolderEntry(rows[i].id, rows[i].parent))
  }

  function OwnEntries(node: FolderNode): seq<Entry> {
    [FolderEntry(node.id, node.parent)] + BookmarkEntries(node.bookmarks)
  }

  function Flatten(nodes: seq<FolderNode>): seq<Entry>
    decreases nodes
  {
    if nodes == [] then []
    else OwnEntries(nodes[0]) + Flatten(nodes[0].folders) + Flatten(nodes[1..])
  }

  // The folder an entry hangs on: itself, or the folder of the bookmark.
  function Anchor(e: Entry): Id {
    match e case FolderEntry(id, _) => id case BookmarkEntry(b) => b.folder
  }

  ghost predicate IsRow(e: Entry, folders: seq<FolderRow>, bookmarks: seq<BookmarkRow>) {
    match e
    case FolderEntry(id, parent) => exists r :: r in folders && r.id == id && r.parent == parent
    case BookmarkEntry(b) => b in bookmarks
  }

  lemma DistinctCount(s: seq<Entry>, e: Entry)
    requires Distinct(s)
    ensures multiset(s)[e] == if e in s then 1 else 0
  {
    if e in s {
      var i :| 0 <= i < |s| && s[i] == e;
      assert s == s[..i] + [e] + s[i + 1..];
      assert e !in s[..i] && e !in s[i + 1..];
      assert multiset(s) == multiset(s[..i]) + multiset{e} + multiset(s[i + 1..]);
    }
  }

  lemma {:induction false} SubDistinct(rows: seq<BookmarkRow>, folder: Id)
    requires forall i, j :: 0 <= i < j < |rows| ==> rows[i].id != rows[j].id
    ensures Distinct(BookmarksIn(rows, folder))
  {
    if rows != [] {
      var n := |rows| - 1;
      SubDistinct(rows[..n], folder);
      BookmarksInIn(rows[..n], folder);
    }
  }

  lemma {:induction false} SubDistinctFolders(rows: seq<FolderRow>, parent: Option<Id>)
    requires forall i, j :: 0 <= i < j < |rows| ==> rows[i].id != rows[j].id
    ensures forall i, j :: 0 <= i < j < |ChildRows(rows, parent)| ==> ChildRows(rows, parent)[i].id != ChildRows(rows, parent)[j].id
  {
    if rows != [] {
      var n := |rows| - 1;
      SubDistinctFolders(rows[..n], parent);
      ChildRowsIn(rows[..n], parent);
    }
  }

  // A node lists a row itself exactly when the row hangs on it.
  lemma OwnCount(node: FolderNode, row: FolderRow, folders: seq<FolderRow>, bookmarks: seq<BookmarkRow>, e: Entry)
    requires UniqueIds(folders, bookmarks) && row in folders && Faithful(node, row, folders, bookmarks)
    ensures multiset(OwnEntries(node))[e] == if IsRow(e, folders, bookmarks) && Anchor(e) == row.id then 1 else 0
  {
    var b := BookmarkEntries(node.bookmarks);
    SubDistinct(bookmarks, row.id);
    BookmarksInIn(bookmarks, row.id);
    assert Distinct(b);
    DistinctCount(b, e);
    assert multiset(OwnEntries(node)) == multiset{FolderEntry(node.id, node.parent)} + multiset(b);
    if e.BookmarkEntry? {
      assert e in b <==> e.bookmark in node.bookmarks by {
        if e.bookmark in node.bookmarks {
          var i :| 0 <= i < |node.bookmarks| && node.bookmarks[i] == e.bookmark;
          assert b[i] == e;
        }
      }
    }
  }

  // Flattening a list of siblings meets exactly the rows below one of them, each once.
  lemma {:induction false} FlattenCount(nodes: seq<FolderNode>, rows: seq<FolderRow>, parent: Option<Id>, folders: seq<FolderRow>, bookmarks: seq<BookmarkRow>, p: Parents, e: Entry)
    requires UniqueIds(folders, bookmarks) && MatchesRows(p, folders) && Acyclic(p)
    requires FaithfulList(nodes, rows, folders, bookmarks)
    requires forall r | r in rows :: r in folders && r.parent == parent
    requires forall i, j :: 0 <= i < j < |rows| ==> rows[i].id != rows[j].id
    ensures multiset(Flatten(nodes))[e] == if IsRow(e, folders, bookmarks) && BelowOne(p, Anchor(e), rows) then 1 else 0
    decreases nodes
  {
    if nodes != [] {
      var node, row := nodes[0], rows[0];
      assert row in rows;
      var kids := FaithfulParts(nodes, rows, folders, bookmarks);
      OwnCount(node, row, folders, bookmarks, e);
      FlattenCount(node.folders, kids, Some(row.id), folders, bookmarks, p, e);
      FlattenCount(nodes[1..], rows[1..], parent, folders, bookmarks, p, e);
      FlattenParts(nodes, e);
      HangsOnOneOf(p, Anchor(e), folders, rows, parent);
      AddUp(multiset(OwnEntries(node))[e], multiset(Flatten(node.folders))[e], multiset(Flatten(nodes[1..]))[e], IsRow(e, folders, bookmarks),
            Anchor(e) == row.id, BelowOne(p, Anchor(e), kids), BelowOne(p, Anchor(e), rows[1..]));
    }
  }

  // At most one of three places holds an entry.
  lemma AddUp(a: nat, b: nat, c: nat, row: bool, x: bool, y: bool, z: bool)
    requires a == (if row && x then 1 else 0) && b == (if row && y then 1 else 0) && c == (if row && z then 1 else 0)
    requires !(x && y) && !(x && z) && !(y && z)
    ensures a + b + c == if row && (x || y || z) then 1 else 0
  {
  }

  lemma FaithfulParts(nodes: seq<FolderNode>, rows: seq<FolderRow>, folders: seq<FolderRow>, bookmarks: seq<BookmarkRow>) returns (kids: seq<FolderRow>)
    requires nodes != [] && FaithfulList(nodes, rows, folders, bookmarks) && UniqueIds(folders, bookmarks)
    ensures kids == ChildRows(folders, Some(rows[0].id))
    ensures Faithful(nodes[0], rows[0], folders, bookmarks)
    ensures FaithfulList(nodes[0].folders, kids, folders, bookmarks)
    ensures FaithfulList(nodes[1..], rows[1..], folders, bookmarks)
    ensures forall r | r in rows[1..] :: r in rows
    ensures forall r | r in kids :: r in folders && r.parent == Some(rows[0].id)
    ensures forall i, j :: 0 <= i < j < |kids| ==> kids[i].id != kids[j].id
  {
    kids := ChildRows(folders, Some(rows[0].id));
    ChildRowsIn(folders, Some(rows[0].id));
    SubDistinctFolders(folders, Some(rows[0].id));
    assert Faithful(nodes[0], rows[0], folders, bookmarks);
    forall i | 0 <= i < |rows[1..]| ensures Faithful(nodes[1..][i], rows[1..][i], folders, bookmarks) {
      assert Faithful(nodes[i + 1], rows[i + 1], folders, bookmarks);
    }
  }

  lemma FlattenParts(nodes: seq<FolderNode>, e: Entry)
    requires nodes != []
    ensures multiset(Flatten(nodes))[e] ==
            multiset(OwnEntries(nodes[0]))[e] + multiset(Flatten(nodes[0].folders))[e] + multiset(Flatten(nodes[1..]))[e]
  {
    assert Flatten(nodes) == OwnEntries(nodes[0]) + Flatten(nodes[0].folders) + Flatten(nodes[1..]);
  }

  // A node below a list of siblings is the first of them, or below one of its children, or below one of
  // the others: exactly one of the three.
  lemma HangsOnOneOf(p: Parents, x: Id, folders: seq<FolderRow>, rows: seq<FolderRow>, parent: Option<Id>)
    requires MatchesRows(p, folders) && Acyclic(p) && rows != []
    requires forall r | r in rows :: r in folders && r.parent == parent
    requires forall i, j :: 0 <= i < j < |rows| ==> rows[i].id != rows[j].id
    ensures var kids := ChildRows(folders, Some(rows[0].id));
            && (BelowOne(p, x, rows) <==> x == rows[0].id || BelowOne(p, x, kids) || BelowOne(p, x, rows[1..]))
            && !(x == rows[0].id && BelowOne(p, x, kids))
            && !(x == rows[0].id && BelowOne(p, x, rows[1..]))
            && !(BelowOne(p, x, kids) && BelowOne(p, x, rows[1..]))
  {
    var row := rows[0];
    assert row in rows;
    BelowChild(p, x, row, folders);
    if i :| 0 <= i < |rows[1..]| && Reaches(p, x, rows[1..][i].id) {
      assert rows[i + 1] in rows && rows[i + 1] == rows[1..][i];
      if Reaches(p, x, row.id) {
        SiblingsShareNothing(p, x, row, rows[i + 1]);
      }
    }
    if i :| 0 <= i < |rows| && Reaches(p, x, rows[i].id) {
      if i > 0 {
        assert rows[1..][i - 1] == rows[i];
      }
    }
  }

  ghost predicate BelowOne(p: Parents, x: Id, rows: seq<FolderRow>) {
    exists i :: 0 <= i < |rows| && Reaches(p, x, rows[i].id)
  }

  lemma BelowChild(p: Parents, x: Id, row: FolderRow, folders: seq<FolderRow>)
    requires MatchesRows(p, folders) && Acyclic(p) && row in folders
    ensures var kids := ChildRows(folders, Some(row.id));
            && (Reaches(p, x, row.id) <==> x == row.id || BelowOne(p, x, kids))
            && !(x == row.id && BelowOne(p, x, kids))
  {
    var kids := ChildRows(folders, Some(row.id));
    ChildRowsIn(folders, Some(row.id));
    assert Up(p, row.id, 0) == Some(row.id);
    if n: nat :| Up(p, x, n) == Some(row.id) {
      if n > 0 {
        LastStep(p, x, n, row, folders);
      }
    }
    if i :| 0 <= i < |kids| && Reaches(p, x, kids[i].id) {
      assert kids[i] in kids;
      BelowAChild(p, x, kids[i], row);
    }
  }

  lemma BelowAChild(p: Parents, x: Id, kid: FolderRow, row: FolderRow)
    requires Acyclic(p) && kid.id in p && p[kid.id] == Some(row.id) && Reaches(p, x, kid.id)
    ensures Reaches(p, x, row.id) && x != row.id
  {
    ReachesStep(p, kid.id, row.id);
    ReachesStep(p, row.id, row.id);
    ReachesTransitive(p, x, kid.id, row.id);
    var n: nat :| Up(p, x, n) == Some(kid.id);
    UpAdds(p, x, n, 1);
    assert Up(p, kid.id, 1) == Up(p, row.id, 0);
    AcyclicHasNoCycle(p, x, n + 1);
  }

  // The last step of a climb to a row comes from one of its children.
  lemma LastStep(p: Parents, x: Id, n: nat, row: FolderRow, folders: seq<FolderRow>)
    requires MatchesRows(p, folders) && row in folders && n > 0 && Up(p, x, n) == Some(row.id)
    ensures BelowOne(p, x, ChildRows(folders, Some(row.id)))
  {
    var kids := ChildRows(folders, Some(row.id));
    ChildRowsIn(folders, Some(row.id));
    UpAdds(p, x, n - 1, 1);
    var y := Up(p, x, n - 1).value;
    assert y in p && p[y].Some? && Up(p, p[y].value, 0) == Some(row.id);
    var r :| r in folders && r.id == y;
    assert r in kids;
    var i :| 0 <= i < |kids| && kids[i] == r;
    assert Reaches(p, x, kids[i].id);
  }

  lemma SiblingsShareNothing(p: Parents, x: Id, a: FolderRow, b: FolderRow)
    requires Acyclic(p) && a.id in p && b.id in p && p[a.id] == p[b.id] && a.id != b.id
    ensures !(Reaches(p, x, a.id) && Reaches(p, x, b.id))
  {
    if Reaches(p, x, a.id) && Reaches(p, x, b.id) {
      AncestorsAreComparable(p, x, a.id, b.id);
      if Reaches(p, a.id, b.id) {
        SiblingNotAbove(p, a.id, b.id);
      } else {
        SiblingNotAbove(p, b.id, a.id);
      }
    }
  }

  lemma SiblingNotAbove(p: Parents, a: Id, b: Id)
    requires Acyclic(p) && a in p && b in p && p[a] == p[b] && a != b
    ensures !Reaches(p, a, b)
  {
    if n: nat :| Up(p, a, n) == Some(b) {
      assert Up(p, b, n) == Up(p, p[b].value, n - 1) == Up(p, a, n);
      AcyclicHasNoCycle(p, b, n);
    }
  }

  lemma {:induction false} EveryRowHangsOnARoot(p: Parents, rank: map<Id, nat>, folders: seq<FolderRow>, row: FolderRow) returns (i: nat)
    requires MatchesRows(p, folders) && Ranked(p, rank) && row in folders
    requires forall r | r in folders && r.parent.Some? :: exists q :: q in folders && q.id == r.parent.value
    ensures i < |ChildRows(folders, None)| && Reaches(p, row.id, ChildRows(folders, None)[i].id)
    decreases rank[row.id]
  {
    ChildRowsIn(folders, None);
    ReachesStep(p, row.id, row.id);
    if row.parent.None? {
      var roots := ChildRows(folders, None);
      assert row in roots;
      i :| 0 <= i < |roots| && roots[i] == row;
    } else {
      var q :| q in folders && q.id == row.parent.value;
      i := EveryRowHangsOnARoot(p, rank, folders, q);
      ReachesStep(p, row.id, ChildRows(folders, None)[i].id);
    }
  }

  lemma EntriesDistinct(folders: seq<FolderRow>, bookmarks: seq<BookmarkRow>)
    requires UniqueIds(folders, bookmarks)
    ensures Distinct(FolderEntries(folders) + BookmarkEntries(bookmarks))
  {
  }

  /** Flattening the built tree gives every folder row and every bookmark row exactly once, with its own
      parent; Faithful adds that siblings stand in row order. */
  lemma FlattenInvertsBuild(tree: seq<FolderNode>, folders: seq<FolderRow>, bookmarks: seq<BookmarkRow>)
    requires ForestRows(folders, bookmarks)
    requires FaithfulList(tree, ChildRows(folders, None), folders, bookmarks)
    ensures multiset(Flatten(tree)) == multiset(FolderEntries(folders) + BookmarkEntries(bookmarks))
  {
    var all := FolderEntries(folders) + BookmarkEntries(bookmarks);
    EntriesDistinct(folders, bookmarks);
    forall e: Entry ensures multiset(Flatten(tree))[e] == multiset(all)[e] {
      DistinctCount(all, e);
      RowIsListed(folders, bookmarks, e);
      FlattenMeetsRowsOnce(tree, folders, bookmarks, e);
    }
  }

  lemma FlattenMeetsRowsOnce(tree: seq<FolderNode>, folders: seq<FolderRow>, bookmarks: seq<BookmarkRow>, e: Entry)
    requires ForestRows(folders, bookmarks)
    requires FaithfulList(tree, ChildRows(folders, None), folders, bookmarks)
    ensures multiset(Flatten(tree))[e] == if IsRow(e, folders, bookmarks) then 1 else 0
  {
    var p: Parents :| MatchesRows(p, folders) && Acyclic(p);
    var rank :| Ranked(p, rank);
    ChildRowsIn(folders, None);
    SubDistinctFolders(folders, None);
    FlattenCount(tree, ChildRows(folders, None), None, folders, bookmarks, p, e);
    if IsRow(e, folders, bookmarks) {
      var r :| r in folders && r.id == Anchor(e);
      var i := EveryRowHangsOnARoot(p, rank, folders, r);
    }
  }

  lemma RowIsListed(folders: seq<FolderRow>, bookmarks: seq<BookmarkRow>, e: Entry)
    ensures IsRow(e, folders, bookmarks) <==> e in FolderEntries(folders) + BookmarkEntries(bookmarks)
  {
    var f, b := FolderEntries(folders), BookmarkEntries(bookmarks);
    if IsRow(e, folders, bookmarks) {
      match e {
        case FolderEntry(id, parent) =>
          var r :| r in folders && r.id == id && r.parent == parent;
          var i :| 0 <= i < |folders| && folders[i] == r;
          assert f[i] == e;
        case BookmarkEntry(row) =>
          var i :| 0 <= i < |bookmarks| && bookmarks[i] == row;
          assert b[i] == e;
      }
    }
    if e in f {
      var i :| 0 <= i < |f| && f[i] == e;
      assert folders[i] in folders;
    }
    if e in b {
      var i :| 0 <= i < |b| && b[i] == e;
      assert bookmarks[i] in bookmarks;
    }
  }

  // ---------- the rows the tree query returns ----------

  // What ORDER BY COALESCE(parent_id, ''), position, id says about rows of one parent.
  ghost predicate RowsOrdered(rows: seq<FolderRow>) {
    forall i, j :: 0 <= i < j < |rows| && rows[i].parent == rows[j].parent ==>
      rows[i].position < rows[j].position || (rows[i].position == rows[j].position && rows[i].id <= rows[j].id)
  }

  // SELECT ... WHERE workspace_id = ws AND deleted_at IS NULL.
  ghost predicate RowsOf(s: Store, ws: Id, rows: seq<FolderRow>) {
    && (forall i, j :: 0 <= i < j < |rows| ==> rows[i].id != rows[j].id)
    && (forall r | r in rows :: FolderIn(s, r.id, ws) && s.folders[r.id].parent == r.parent && s.folders[r.id].payload == r.name && s.folders[r.id].position == r.position)
    && (forall x | FolderIn(s, x, ws) :: exists r :: r in rows && r.id == x)
    && RowsOrdered(rows)
  }

  ghost predicate BookmarkRowsOf(s: Store, ws: Id, rows: seq<BookmarkRow>) {
    && (forall i, j :: 0 <= i < j < |rows| ==> rows[i].id != rows[j].id)
    && (forall r | r in rows :: Live(s.bookmarks, r.id) && s.bookmarks[r.id].workspace == ws && s.bookmarks[r.id].parent == Some(r.folder)
          && s.bookmarks[r.id].payload == Link(r.title, r.url) && s.bookmarks[r.id].position == r.position)
    && (forall x | Live(s.bookmarks, x) && s.bookmarks[x].workspace == ws :: exists r :: r in rows && r.id == x)
    && BookmarkRowsOrdered(rows)
  }

  ghost predicate BookmarkRowsOrdered(rows: seq<BookmarkRow>) {
    forall i, j :: 0 <= i < j < |rows| && rows[i].folder == rows[j].folder ==>
      rows[i].position < rows[j].position || (rows[i].position == rows[j].position && rows[i].id <= rows[j].id)
  }

  lemma {:induction false} ChildRowsOrdered(rows: seq<FolderRow>, parent: Option<Id>)
    requires RowsOrdered(rows)
    ensures RowsOrdered(ChildRows(rows, parent))
  {
    if rows != [] {
      var n := |rows| - 1;
      ChildRowsOrdered(rows[..n], parent);
      ChildRowsIn(rows[..n], parent);
      var before := ChildRows(rows[..n], parent);
      var after := ChildRows(rows, parent);
      forall i, j | 0 <= i < j < |after| && after[i].parent == after[j].parent
        ensures after[i].position < after[j].position || (after[i].position == after[j].position && after[i].id <= after[j].id)
      {
        if j == |before| {
          assert before[i] in before && before[i] in rows[..n];
          var k :| 0 <= k < n && rows[k] == before[i];
        }
      }
    }
  }

  /** On rows read from a store satisfying the forest invariant the build's demands are met, and the children
      it gives each folder are the live children of that folder in position order. */
  lemma TreeRowsOfForest(s: Store, ws: Id, rows: seq<FolderRow>, bookmarks: seq<BookmarkRow>, parent: Option<Id>)
    requires Inv(s) && RowsOf(s, ws, rows) && BookmarkRowsOf(s, ws, bookmarks)
    ensures ForestRows(rows, bookmarks)
    ensures RowIds(ChildRows(rows, parent)) == Children(s.folders, ws, parent)
  {
    RowsFormForest(s, ws, rows, bookmarks);
    ChildRowsAreChildren(s, ws, rows, parent);
  }

  lemma RowsFormForest(s: Store, ws: Id, rows: seq<FolderRow>, bookmarks: seq<BookmarkRow>)
    requires Inv(s) && RowsOf(s, ws, rows) && BookmarkRowsOf(s, ws, bookmarks)
    ensures ForestRows(rows, bookmarks)
  {
    RowParentsAcyclic(s, ws, rows);
    forall r | r in rows && r.parent.Some? ensures exists q :: q in rows && q.id == r.parent.value {
      assert FolderIn(s, r.parent.value, ws);
    }
    forall b | b in bookmarks ensures exists q :: q in rows && q.id == b.folder {
      assert FolderIn(s, b.folder, ws);
    }
  }

  lemma ChildRowsAreMembers(s: Store, ws: Id, rows: seq<FolderRow>, parent: Option<Id>)
    requires RowsOf(s, ws, rows)
    ensures forall x :: x in RowIds(ChildRows(rows, parent)) <==> x in Members(s.folders, ws, parent)
  {
    var kids := ChildRows(rows, parent);
    var ids := RowIds(kids);
    ChildRowsIn(rows, parent);
    forall x ensures x in ids <==> x in Members(s.folders, ws, parent) {
      if x in ids {
        var i :| 0 <= i < |ids| && ids[i] == x;
        assert kids[i] in kids;
      }
      if x in Members(s.folders, ws, parent) {
        assert FolderIn(s, x, ws);
        var r :| r in rows && r.id == x;
        assert r in kids;
        var i :| 0 <= i < |kids| && kids[i] == r;
        assert ids[i] == x;
      }
    }
  }

  lemma ChildRowsInOrder(s: Store, ws: Id, rows: seq<FolderRow>, parent: Option<Id>)
    requires RowsOf(s, ws, rows)
    ensures var ids := RowIds(ChildRows(rows, parent));
            forall i, j :: 0 <= i < j < |ids| ==> ids[i] in s.folders && ids[j] in s.folders && Before(s.folders, ids[i], ids[j])
  {
    var kids := ChildRows(rows, parent);
    ChildRowsIn(rows, parent);
    ChildRowsOrdered(rows, parent);
    var ids := RowIds(kids);
    forall i, j | 0 <= i < j < |ids| ensures ids[i] in s.folders && ids[j] in s.folders && Before(s.folders, ids[i], ids[j]) {
      assert kids[i] in kids && kids[j] in kids;
    }
  }

  lemma ChildRowsAreChildren(s: Store, ws: Id, rows: seq<FolderRow>, parent: Option<Id>)
    requires RowsOf(s, ws, rows)
    ensures RowIds(ChildRows(rows, parent)) == Children(s.folders, ws, parent)
  {
    var ids := RowIds(ChildRows(rows, parent));
    ChildRowsAreMembers(s, ws, rows, parent);
    ChildRowsInOrder(s, ws, rows, parent);
    SubDistinctFolders(rows, parent);
    ChildrenList(s.folders, ws, parent);
    SortedIsUnique(s.folders, Members(s.folders, ws, parent), ids, Children(s.folders, ws, parent));
  }

  lemma RowParentsAcyclic(s: Store, ws: Id, rows: seq<FolderRow>)
    requires Inv(s) && RowsOf(s, ws, rows)
    ensures exists p: Parents :: MatchesRows(p, rows) && Acyclic(p)
  {
    var all := AllParents(s.folders);
    var p: Parents := map x | x in s.folders && FolderIn(s, x, ws) :: s.folders[x].parent;
    var rank :| Ranked(all, rank);
    assert Ranked(p, rank);
    assert MatchesRows(p, rows);
  }
}
