/** Rebuilding from the tree the server sends for a workspace gives a picture of the server's forest itself,
    whatever the kinds of its lists. */
module RebuildRun {
  import opened Common
  import opened Ancestry
  import opened SiblingOrder
  import opened Forest
  import opened FolderTree
  import opened ForestView
  import opened ChromeTree
  import opened Replay
  import opened ReplayRun
  import opened Rebuild

  // ---------- the rows of one folder ----------

  lemma {:induction false} BookmarksOrdered(rows: seq<BookmarkRow>, folder: Id)
    requires BookmarkRowsOrdered(rows)
    ensures BookmarkRowsOrdered(BookmarksIn(rows, folder))
  {
    if rows != [] {
      var n := |rows| - 1;
      BookmarksOrdered(rows[..n], folder);
      BookmarksInIn(rows[..n], folder);
      var before := BookmarksIn(rows[..n], folder);
      var after := BookmarksIn(rows, folder);
      forall i, j | 0 <= i < j < |after| && after[i].folder == after[j].folder
        ensures after[i].position < after[j].position || (after[i].position == after[j].position && after[i].id <= after[j].id)
      {
        if j == |before| {
          assert before[i] in before && before[i] in rows[..n];
          var k :| 0 <= k < n && rows[k] == before[i];
        }
      }
    }
  }

  lemma {:induction false} SubDistinctBookmarks(rows: seq<BookmarkRow>, folder: Id)
    requires forall i, j :: 0 <= i < j < |rows| ==> rows[i].id != rows[j].id
    ensures Distinct(BookmarkIds(BookmarksIn(rows, folder)))
  {
    if rows != [] {
      var n := |rows| - 1;
      SubDistinctBookmarks(rows[..n], folder);
      BookmarksInIn(rows[..n], folder);
      var before, after := BookmarksIn(rows[..n], folder), BookmarksIn(rows, folder);
      var ids := BookmarkIds(after);
      forall i, j | 0 <= i < j < |after| ensures ids[i] != ids[j] {
        if j < |before| {
          assert BookmarkIds(before)[i] != BookmarkIds(before)[j];
        } else {
          assert before[i] in before && before[i] in rows[..n];
          var k :| 0 <= k < n && rows[k] == before[i];
        }
      }
    }
  }

  lemma BookmarkRowsAreMembers(s: Store, ws: Id, rows: seq<BookmarkRow>, folder: Id)
    requires BookmarkRowsOf(s, ws, rows)
    ensures forall x :: x in BookmarkIds(BookmarksIn(rows, folder)) <==> x in Members(s.bookmarks, ws, Some(folder))
  {
    var kids := BookmarksIn(rows, folder);
    var ids := BookmarkIds(kids);
    BookmarksInIn(rows, folder);
    forall x ensures x in ids <==> x in Members(s.bookmarks, ws, Some(folder)) {
      if x in ids {
        var i :| 0 <= i < |ids| && ids[i] == x;
        assert kids[i] in kids;
      }
      if x in Members(s.bookmarks, ws, Some(folder)) {
        var r :| r in rows && r.id == x;
        assert r in kids;
        var i :| 0 <= i < |kids| && kids[i] == r;
        assert ids[i] == x;
      }
    }
  }

  lemma BookmarkRowsAreChildren(s: Store, ws: Id, rows: seq<BookmarkRow>, folder: Id)
    requires BookmarkRowsOf(s, ws, rows)
    ensures BookmarkIds(BookmarksIn(rows, folder)) == Children(s.bookmarks, ws, Some(folder))
  {
    var kids := BookmarksIn(rows, folder);
    var ids := BookmarkIds(kids);
    BookmarkRowsAreMembers(s, ws, rows, folder);
    SubDistinctBookmarks(rows, folder);
    RowsInOrder(s, ws, rows, folder);
    ChildrenList(s.bookmarks, ws, Some(folder));
    SortedIsUnique(s.bookmarks, Members(s.bookmarks, ws, Some(folder)), ids, Children(s.bookmarks, ws, Some(folder)));
  }

  lemma RowsInOrder(s: Store, ws: Id, rows: seq<BookmarkRow>, folder: Id)
    requires BookmarkRowsOf(s, ws, rows)
    ensures var ids := BookmarkIds(BookmarksIn(rows, folder));
            forall i, j :: 0 <= i < j < |ids| ==> ids[i] in s.bookmarks && ids[j] in s.bookmarks && Before(s.bookmarks, ids[i], ids[j])
  {
    var kids := BookmarksIn(rows, folder);
    BookmarksInIn(rows, folder);
    BookmarksOrdered(rows, folder);
    var ids := BookmarkIds(kids);
    forall i, j | 0 <= i < j < |ids| ensures ids[i] in s.bookmarks && ids[j] in s.bookmarks && Before(s.bookmarks, ids[i], ids[j]) {
      assert kids[i] in kids && kids[j] in kids;
    }
  }

  // ---------- the tree is dense ----------

  // What the server sends, as read from a store in order.
  ghost predicate Sent(s: Store, ws: Id, nodes: seq<FolderNode>, rows: seq<FolderRow>, bookmarks: seq<BookmarkRow>, parent: Option<Id>) {
    && Inv(s) && RowsOf(s, ws, rows) && BookmarkRowsOf(s, ws, bookmarks)
    && FaithfulList(nodes, ChildRows(rows, parent), rows, bookmarks)
  }

  lemma FolderPositions(s: Store, ws: Id, rows: seq<FolderRow>, parent: Option<Id>, i: nat)
    requires Inv(s) && RowsOf(s, ws, rows) && i < |ChildRows(rows, parent)|
    ensures ChildRows(rows, parent)[i].position == i
  {
    ChildRowsAreChildren(s, ws, rows, parent);
    ChildRowsIn(rows, parent);
    var kids := ChildRows(rows, parent);
    assert kids[i] in kids;
    assert RowIds(kids)[i] == kids[i].id;
    assert Dense(s.folders, ws, parent);
  }

  lemma BookmarkPositions(s: Store, ws: Id, rows: seq<BookmarkRow>, folder: Id, i: nat)
    requires Inv(s) && BookmarkRowsOf(s, ws, rows) && i < |BookmarksIn(rows, folder)|
    ensures BookmarksIn(rows, folder)[i].position == i
  {
    BookmarkRowsAreChildren(s, ws, rows, folder);
    BookmarksInIn(rows, folder);
    var kids := BookmarksIn(rows, folder);
    assert kids[i] in kids;
    assert BookmarkIds(kids)[i] == kids[i].id;
    assert Dense(s.bookmarks, ws, Some(folder));
  }

  lemma {:induction false} SentIsDense(s: Store, ws: Id, nodes: seq<FolderNode>, rows: seq<FolderRow>, bookmarks: seq<BookmarkRow>, parent: Option<Id>)
    requires Sent(s, ws, nodes, rows, bookmarks, parent)
    ensures DenseNodes(nodes)
    decreases nodes
  {
    var kids := ChildRows(rows, parent);
    forall i | 0 <= i < |nodes| ensures nodes[i].position == i && DenseNode(nodes[i]) {
      assert Faithful(nodes[i], kids[i], rows, bookmarks);
      FolderPositions(s, ws, rows, parent, i);
      NodeIsDense(s, ws, nodes[i], kids[i], rows, bookmarks);
    }
  }

  lemma {:induction false} NodeIsDense(s: Store, ws: Id, node: FolderNode, row: FolderRow, rows: seq<FolderRow>, bookmarks: seq<BookmarkRow>)
    requires Inv(s) && RowsOf(s, ws, rows) && BookmarkRowsOf(s, ws, bookmarks) && Faithful(node, row, rows, bookmarks)
    ensures DenseNode(node)
    decreases node
  {
    forall i | 0 <= i < |node.bookmarks| ensures node.bookmarks[i].position == i {
      BookmarkPositions(s, ws, bookmarks, row.id, i);
    }
    SentIsDense(s, ws, node.folders, rows, bookmarks, Some(row.id));
  }

  // ---------- every row once ----------

  function EntryId(e: Entry): Id {
    match e case FolderEntry(id, _) => id case BookmarkEntry(b) => b.id
  }

  function EntryIds(es: seq<Entry>): (r: seq<Id>)
    ensures |r| == |es|
  {
    seq(|es|, i requires 0 <= i < |es| => EntryId(es[i]))
  }

  lemma {:induction false} AllIdsCons(h: FolderNode, t: seq<FolderNode>)
    ensures AllIds([h] + t) == IdsOf(h) + AllIds(t)
    decreases |t|
  {
    var l := [h] + t;
    if t == [] {
      assert l[..0] == [] && l[0] == h;
    } else {
      var n := |t| - 1;
      assert l[..n + 1] == [h] + t[..n];
      AllIdsCons(h, t[..n]);
    }
  }

  lemma {:induction false} IdsOfFlattened(nodes: seq<FolderNode>)
    ensures EntryIds(Flatten(nodes)) == AllIds(nodes)
    decreases nodes
  {
    if nodes != [] {
      var h, t := nodes[0], nodes[1..];
      assert nodes == [h] + t;
      AllIdsCons(h, t);
      IdsOfFlattened(h.folders);
      IdsOfFlattened(t);
      assert EntryIds(OwnEntries(h)) == [h.id] + BookmarkIds(h.bookmarks);
    }
  }

  lemma TwiceCounted<T>(a: seq<T>, i: nat, j: nat)
    requires i < j < |a| && a[i] == a[j]
    ensures multiset(a)[a[i]] >= 2
  {
    assert a == a[..j] + a[j..];
    assert a[..j][i] == a[i] && a[j..][0] == a[j];
    assert a[i] in multiset(a[..j]) && a[i] in multiset(a[j..]);
  }

  lemma DistinctLike(a: seq<Entry>, b: seq<Entry>)
    requires multiset(a) == multiset(b) && Distinct(b)
    ensures Distinct(a) && forall e :: e in a <==> e in b
  {
    forall i, j | 0 <= i < j < |a| ensures a[i] != a[j] {
      DistinctCount(b, a[i]);
      if a[i] == a[j] {
        TwiceCounted(a, i, j);
      }
    }
    forall e ensures e in a <==> e in b {
      assert e in a <==> e in multiset(a);
      assert e in b <==> e in multiset(b);
    }
  }

  // The flattened tree holds every row of the workspace exactly once.
  lemma SentEntries(s: Store, ws: Id, nodes: seq<FolderNode>, rows: seq<FolderRow>, bookmarks: seq<BookmarkRow>)
    requires Sent(s, ws, nodes, rows, bookmarks, None)
    ensures Distinct(Flatten(nodes))
    ensures forall e :: e in Flatten(nodes) <==> IsRow(e, rows, bookmarks)
  {
    RowsFormForest(s, ws, rows, bookmarks);
    FlattenInvertsBuild(nodes, rows, bookmarks);
    EntriesDistinct(rows, bookmarks);
    DistinctLike(Flatten(nodes), FolderEntries(rows) + BookmarkEntries(bookmarks));
    forall e ensures e in Flatten(nodes) <==> IsRow(e, rows, bookmarks) {
      RowIsListed(rows, bookmarks, e);
    }
  }

  lemma SentIdsDistinct(s: Store, ws: Id, nodes: seq<FolderNode>, rows: seq<FolderRow>, bookmarks: seq<BookmarkRow>)
    requires Sent(s, ws, nodes, rows, bookmarks, None)
    ensures Distinct(AllIds(nodes))
  {
    var es := Flatten(nodes);
    SentEntries(s, ws, nodes, rows, bookmarks);
    IdsOfFlattened(nodes);
    forall i, j | 0 <= i < j < |es| ensures EntryIds(es)[i] != EntryIds(es)[j] {
      assert es[i] in es && es[j] in es && es[i] != es[j];
    }
  }

  lemma FolderSent(s: Store, ws: Id, nodes: seq<FolderNode>, rows: seq<FolderRow>, bookmarks: seq<BookmarkRow>, x: Id) returns (r: FolderRow)
    requires Sent(s, ws, nodes, rows, bookmarks, None) && x in Shown(s.folders, ws)
    ensures r in rows && r.id == x && FolderEntry(x, r.parent) in Flatten(nodes)
  {
    SentEntries(s, ws, nodes, rows, bookmarks);
    assert FolderIn(s, x, ws);
    r :| r in rows && r.id == x;
  }

  lemma BookmarkSent(s: Store, ws: Id, nodes: seq<FolderNode>, rows: seq<FolderRow>, bookmarks: seq<BookmarkRow>, x: Id) returns (r: BookmarkRow)
    requires Sent(s, ws, nodes, rows, bookmarks, None) && x in Shown(s.bookmarks, ws)
    ensures r in bookmarks && r.id == x && BookmarkEntry(r) in Flatten(nodes)
  {
    SentEntries(s, ws, nodes, rows, bookmarks);
    assert Live(s.bookmarks, x);
    r :| r in bookmarks && r.id == x;
  }

  lemma SentIsShown(s: Store, ws: Id, nodes: seq<FolderNode>, rows: seq<FolderRow>, bookmarks: seq<BookmarkRow>, x: Id)
    requires Sent(s, ws, nodes, rows, bookmarks, None) && x in AllIds(nodes)
    ensures x in Shown(s.folders, ws).Keys + Shown(s.bookmarks, ws).Keys
  {
    var es := Flatten(nodes);
    SentEntries(s, ws, nodes, rows, bookmarks);
    IdsOfFlattened(nodes);
    var i :| 0 <= i < |es| && EntryIds(es)[i] == x;
    assert es[i] in es && IsRow(es[i], rows, bookmarks);
  }

  lemma SentIds(s: Store, ws: Id, nodes: seq<FolderNode>, rows: seq<FolderRow>, bookmarks: seq<BookmarkRow>)
    requires Sent(s, ws, nodes, rows, bookmarks, None)
    ensures Elements(AllIds(nodes)) == Shown(s.folders, ws).Keys + Shown(s.bookmarks, ws).Keys
  {
    forall x ensures x in AllIds(nodes) <==> x in Shown(s.folders, ws).Keys + Shown(s.bookmarks, ws).Keys {
      if x in AllIds(nodes) {
        SentIsShown(s, ws, nodes, rows, bookmarks, x);
      }
      if x in Shown(s.folders, ws) {
        var r := FolderSent(s, ws, nodes, rows, bookmarks, x);
        EntryListed(nodes, FolderEntry(x, r.parent));
      }
      if x in Shown(s.bookmarks, ws) {
        var r := BookmarkSent(s, ws, nodes, rows, bookmarks, x);
        EntryListed(nodes, BookmarkEntry(r));
      }
    }
  }

  lemma EntryListed(nodes: seq<FolderNode>, e: Entry)
    requires e in Flatten(nodes)
    ensures EntryId(e) in AllIds(nodes)
  {
    IdsOfFlattened(nodes);
    var es := Flatten(nodes);
    var i :| 0 <= i < |es| && es[i] == e;
    assert EntryIds(es)[i] == EntryId(e);
  }

  // ---------- what the rebuilt view shows of each row ----------

  ghost predicate ShowsEntry(w: View, rows: seq<FolderRow>, bookmarks: seq<BookmarkRow>, e: Entry) {
    match e
    case FolderEntry(id, parent) =>
      && id in w.parent && w.parent[id] == parent
      && (exists r :: r in rows && r.id == id && id in w.caption && w.caption[id] == FolderLabel(r.name))
      && Some(id) in w.kids && w.kids[Some(id)] == RowIds(ChildRows(rows, Some(id))) + BookmarkIds(BookmarksIn(bookmarks, id))
    case BookmarkEntry(b) => ShowsBookmark(w, b.folder, b)
  }

  lemma NodeShown(w: View, parent: Option<Id>, node: FolderNode, row: FolderRow, rows: seq<FolderRow>, bookmarks: seq<BookmarkRow>, e: Entry)
    requires Shows(w, parent, node) && Faithful(node, row, rows, bookmarks) && row in rows && row.parent == parent && e in OwnEntries(node)
    ensures ShowsEntry(w, rows, bookmarks, e)
  {
    var kids := ChildRows(rows, Some(row.id));
    assert FolderIds(node.folders) == RowIds(kids) by {
      forall i | 0 <= i < |kids| ensures node.folders[i].id == kids[i].id {
        assert Faithful(node.folders[i], kids[i], rows, bookmarks);
      }
    }
    BookmarksInIn(bookmarks, row.id);
    if e.BookmarkEntry? {
      assert e.bookmark in node.bookmarks by {
        var es := BookmarkEntries(node.bookmarks);
        assert e in es;
        var i :| 0 <= i < |es| && es[i] == e;
      }
      assert ShowsBookmark(w, node.id, e.bookmark);
    }
  }

  lemma {:induction false} EntriesShown(w: View, parent: Option<Id>, nodes: seq<FolderNode>, kids: seq<FolderRow>, rows: seq<FolderRow>, bookmarks: seq<BookmarkRow>, e: Entry)
    requires ShowsAll(w, parent, nodes) && FaithfulList(nodes, kids, rows, bookmarks) && e in Flatten(nodes)
    requires forall r | r in kids :: r in rows && r.parent == parent
    ensures ShowsEntry(w, rows, bookmarks, e)
    decreases nodes
  {
    var node, row := nodes[0], kids[0];
    assert Faithful(node, row, rows, bookmarks) && Shows(w, parent, node) && row in kids;
    if e in OwnEntries(node) {
      NodeShown(w, parent, node, row, rows, bookmarks, e);
    } else if e in Flatten(node.folders) {
      ChildRowsIn(rows, Some(row.id));
      EntriesShown(w, Some(node.id), node.folders, ChildRows(rows, Some(row.id)), rows, bookmarks, e);
    } else {
      EntriesShown(w, parent, nodes[1..], kids[1..], rows, bookmarks, e);
    }
  }

  // ---------- the rebuilt view is the server's ----------

  // Lists belong to folders.
  ghost predicate FolderKeyed(v: View) {
    forall k | k in v.kids && k.Some? :: k.value in v.caption && v.caption[k.value].FolderLabel?
  }

  lemma {:induction false} BookmarksKeepFolderKeyed(v: View, folder: Id, rows: seq<BookmarkRow>)
    requires FolderKeyed(v) && v.caption.Keys == v.parent.Keys
    ensures var w := WithBookmarks(v, folder, rows); FolderKeyed(w) && w.caption.Keys == w.parent.Keys
  {
    if rows != [] {
      var b := rows[|rows| - 1];
      BookmarksKeepFolderKeyed(v, folder, rows[..|rows| - 1]);
    }
  }

  lemma {:induction false} FolderKeepsFolderKeyed(v: View, parent: Option<Id>, node: FolderNode)
    requires FolderKeyed(v) && v.caption.Keys == v.parent.Keys
    ensures var w := WithFolder(v, parent, node); FolderKeyed(w) && w.caption.Keys == w.parent.Keys
    decreases node, 1
  {
    BookmarksKeepFolderKeyed(Put(v, node.id, parent, node.position, FolderLabel(node.name)), node.id, node.bookmarks);
    FoldersKeepFolderKeyed(Opened(v, parent, node), Some(node.id), node.folders);
  }

  lemma {:induction false} FoldersKeepFolderKeyed(v: View, parent: Option<Id>, nodes: seq<FolderNode>)
    requires FolderKeyed(v) && v.caption.Keys == v.parent.Keys
    ensures var w := WithFolders(v, parent, nodes); FolderKeyed(w) && w.caption.Keys == w.parent.Keys
    decreases nodes, 0
  {
    if nodes != [] {
      FoldersKeepFolderKeyed(v, parent, nodes[..|nodes| - 1]);
      FolderKeepsFolderKeyed(WithFolders(v, parent, nodes[..|nodes| - 1]), parent, nodes[|nodes| - 1]);
    }
  }

  // The view agrees with the store on every node it shows.
  ghost predicate AgreesOn(w: View, s: Store, ws: Id, x: Id) {
    && x in w.parent && x in w.caption
    && (x in Shown(s.folders, ws) ==>
          && w.parent[x] == s.folders[x].parent && w.caption[x] == FolderLabel(s.folders[x].payload)
          && Some(x) in w.kids && w.kids[Some(x)] == Kids(s, ws, Some(x)))
    && (x in Shown(s.bookmarks, ws) ==>
          w.parent[x] == s.bookmarks[x].parent && w.caption[x] == BookmarkLabel(s.bookmarks[x].payload.title, s.bookmarks[x].payload.url))
  }

  lemma ShownFolderAgrees(w: View, s: Store, ws: Id, rows: seq<FolderRow>, bookmarks: seq<BookmarkRow>, x: Id, parent: Option<Id>)
    requires Inv(s) && RowsOf(s, ws, rows) && BookmarkRowsOf(s, ws, bookmarks) && x in Shown(s.folders, ws)
    requires ShowsEntry(w, rows, bookmarks, FolderEntry(x, parent)) && s.folders[x].parent == parent
    ensures AgreesOn(w, s, ws, x)
  {
    ChildRowsAreChildren(s, ws, rows, Some(x));
    BookmarkRowsAreChildren(s, ws, bookmarks, x);
  }

  lemma RebuiltAgrees(w: View, s: Store, ws: Id, nodes: seq<FolderNode>, rows: seq<FolderRow>, bookmarks: seq<BookmarkRow>, x: Id)
    requires Sent(s, ws, nodes, rows, bookmarks, None) && ShowsAll(w, None, nodes)
    requires x in Shown(s.folders, ws) || x in Shown(s.bookmarks, ws)
    ensures AgreesOn(w, s, ws, x)
  {
    ChildRowsIn(rows, None);
    if x in Shown(s.folders, ws) {
      var r := FolderSent(s, ws, nodes, rows, bookmarks, x);
      EntriesShown(w, None, nodes, ChildRows(rows, None), rows, bookmarks, FolderEntry(x, r.parent));
      ShownFolderAgrees(w, s, ws, rows, bookmarks, x, r.parent);
    } else {
      var r := BookmarkSent(s, ws, nodes, rows, bookmarks, x);
      EntriesShown(w, None, nodes, ChildRows(rows, None), rows, bookmarks, BookmarkEntry(r));
    }
  }

  lemma SameParents(p: Parents, f: map<Id, Placed<string>>, b: map<Id, Placed<Link>>, kids: imap<Option<Id>, seq<Id>>)
    requires p.Keys == f.Keys + b.Keys && f.Keys !! b.Keys
    requires forall x | x in f :: p[x] == f[x].parent
    requires forall x | x in b :: p[x] == b[x].parent
    ensures p == ViewFrom(f, b, kids).parent
  {
  }

  lemma SameCaptions(c: map<Id, Label>, f: map<Id, Placed<string>>, b: map<Id, Placed<Link>>, kids: imap<Option<Id>, seq<Id>>)
    requires c.Keys == f.Keys + b.Keys && f.Keys !! b.Keys
    requires forall x | x in f :: c[x] == FolderLabel(f[x].payload)
    requires forall x | x in b :: c[x] == BookmarkLabel(b[x].payload.title, b[x].payload.url)
    ensures c == ViewFrom(f, b, kids).caption
  {
  }

  lemma SameLists(kids: imap<Option<Id>, seq<Id>>, s: Store, ws: Id)
    requires forall k | k in kids && k.Some? :: k.value in Shown(s.folders, ws)
    requires None in kids && kids[None] == Kids(s, ws, None)
    requires forall x | x in Shown(s.folders, ws) :: Some(x) in kids && kids[Some(x)] == Kids(s, ws, Some(x))
    ensures kids == KidsOf(s, ws)
  {
    forall k ensures k in kids <==> k in KidsOf(s, ws) {
      if k.Some? && k.value in Shown(s.folders, ws) { assert Some(k.value) in kids; }
    }
    forall k | k in KidsOf(s, ws) ensures kids[k] == KidsOf(s, ws)[k] {
      if k.Some? { assert Some(k.value) in kids; }
    }
  }

  lemma AgreeingViewIsTheView(w: View, s: Store, ws: Id)
    requires s.folders.Keys !! s.bookmarks.Keys
    requires w.parent.Keys == w.caption.Keys == Shown(s.folders, ws).Keys + Shown(s.bookmarks, ws).Keys
    requires forall x | x in Shown(s.folders, ws).Keys + Shown(s.bookmarks, ws).Keys :: AgreesOn(w, s, ws, x)
    requires (forall k | k in w.kids && k.Some? :: k.value in Shown(s.folders, ws)) && None in w.kids && w.kids[None] == Kids(s, ws, None)
    ensures w == ViewOf(s, ws)
  {
    var f, b := Shown(s.folders, ws), Shown(s.bookmarks, ws);
    forall x | x in f ensures w.parent[x] == f[x].parent && w.caption[x] == FolderLabel(f[x].payload) && Some(x) in w.kids && w.kids[Some(x)] == Kids(s, ws, Some(x)) {
      assert AgreesOn(w, s, ws, x);
    }
    forall x | x in b ensures w.parent[x] == b[x].parent && w.caption[x] == BookmarkLabel(b[x].payload.title, b[x].payload.url) {
      assert AgreesOn(w, s, ws, x);
    }
    SameParents(w.parent, f, b, KidsOf(s, ws));
    SameCaptions(w.caption, f, b, KidsOf(s, ws));
    SameLists(w.kids, s, ws);
  }

  lemma RebuiltKeys(w: View, s: Store, ws: Id, k: Id)
    requires s.folders.Keys !! s.bookmarks.Keys && FolderKeyed(w) && Some(k) in w.kids && w.caption.Keys == Shown(s.folders, ws).Keys + Shown(s.bookmarks, ws).Keys
    requires forall x | x in Shown(s.folders, ws).Keys + Shown(s.bookmarks, ws).Keys :: AgreesOn(w, s, ws, x)
    ensures k in Shown(s.folders, ws)
  {
    assert k in w.caption && w.caption[k].FolderLabel?;
    assert AgreesOn(w, s, ws, k);
  }

  lemma RebuiltRoot(s: Store, ws: Id, nodes: seq<FolderNode>, rows: seq<FolderRow>, bookmarks: seq<BookmarkRow>)
    requires Sent(s, ws, nodes, rows, bookmarks, None)
    ensures FolderIds(nodes) == Kids(s, ws, None)
  {
    var kids := ChildRows(rows, None);
    forall i | 0 <= i < |kids| ensures nodes[i].id == kids[i].id {
      assert Faithful(nodes[i], kids[i], rows, bookmarks);
    }
    assert FolderIds(nodes) == RowIds(kids);
    ChildRowsAreChildren(s, ws, rows, None);
  }

  lemma RebuiltViewIsTheView(s: Store, ws: Id, nodes: seq<FolderNode>, rows: seq<FolderRow>, bookmarks: seq<BookmarkRow>, v: View)
    requires Sent(s, ws, nodes, rows, bookmarks, None) && NoNodes(v)
    ensures DenseNodes(nodes) && Distinct(AllIds(nodes))
    ensures WithFolders(v, None, nodes) == ViewOf(s, ws)
  {
    SentIsDense(s, ws, nodes, rows, bookmarks, None);
    SentIdsDistinct(s, ws, nodes, rows, bookmarks);
    SentIds(s, ws, nodes, rows, bookmarks);
    var w := WithFolders(v, None, nodes);
    FoldersGrow(v, None, nodes);
    FoldersKeepFolderKeyed(v, None, nodes);
    RebuiltRoot(s, ws, nodes, rows, bookmarks);
    forall x | x in Shown(s.folders, ws).Keys + Shown(s.bookmarks, ws).Keys ensures AgreesOn(w, s, ws, x) {
      RebuiltAgrees(w, s, ws, nodes, rows, bookmarks, x);
    }
    forall k | k in w.kids && k.Some? ensures k.value in Shown(s.folders, ws) {
      RebuiltKeys(w, s, ws, k.value);
    }
    AgreeingViewIsTheView(w, s, ws);
  }

  /** The rebuild from what the server sends for a workspace: every Chrome call is accepted, and the tree is
      then a picture of the server's forest itself. Lists may mix folders and bookmarks. */
  lemma RebuildPicturesForest(s: Store, ws: Id, nodes: seq<FolderNode>, rows: seq<FolderRow>, bookmarks: seq<BookmarkRow>, v: View, c: Client, tail: seq<Id>, next: Id)
    requires Sent(s, ws, nodes, rows, bookmarks, None) && NoNodes(v)
    requires StandingOf(v, c, tail, next) == Standing.Sound && TailNamed(tail, c.tree.caption)
    ensures var r := PlaceFolders(c, c.root, nodes, next);
            r.Ok? && Sim(ViewOf(s, ws), r.value.0, tail) && TailNamed(tail, r.value.0.tree.caption) && forall x | x in r.value.0.tree.parent :: x < r.value.1
  {
    RebuiltViewIsTheView(s, ws, nodes, rows, bookmarks, v);
    RebuildPicturesTree(v, c, tail, next, nodes);
  }
}
