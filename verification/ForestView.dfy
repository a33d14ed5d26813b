/** The live ordered forest of one workspace as its members see it, and the sync events that describe how
    each committed transaction changes it. */
module ForestView {
  import opened Common
  import opened Ancestry
  import opened SiblingOrder
  import opened RowMoves
  import opened Forest

  datatype Label = FolderLabel(title: string) | BookmarkLabel(title: string, url: string)

  // kids: the ordered children of the root (None) and of every folder.
  datatype View = View(parent: Parents, caption: map<Id, Label>, kids: imap<Option<Id>, seq<Id>>)

  // Payloads of folder/bookmark .created, .updated and .deleted events; created and updated look alike.
  datatype Event =
    | Upsert(id: Id, parent: Option<Id>, position: int, caption: Label)
    | Removal(id: Id, parent: Option<Id>)

  datatype Placed<P> = Placed(parent: Option<Id>, payload: P)

  // The live rows of one workspace, without position and time.
  ghost function Shown<P>(t: Table<P>, ws: Id): map<Id, Placed<P>> {
    map x | x in t && !t[x].deleted && t[x].workspace == ws :: Placed(t[x].parent, t[x].payload)
  }

  ghost function Kids(s: Store, ws: Id, key: Option<Id>): seq<Id> {
    Children(s.folders, ws, key) + Children(s.bookmarks, ws, key)
  }

  // The root and every folder shown have a list of children.
  ghost predicate IsKey(folders: set<Id>, k: Option<Id>) {
    k.None? || k.value in folders
  }

  ghost function KidsOf(s: Store, ws: Id): imap<Option<Id>, seq<Id>> {
    imap k: Option<Id> | IsKey(Shown(s.folders, ws).Keys, k) :: Kids(s, ws, k)
  }

  ghost function ViewFrom(f: map<Id, Placed<string>>, b: map<Id, Placed<Link>>, kids: imap<Option<Id>, seq<Id>>): View {
    View(map x | x in f.Keys + b.Keys :: (if x in f then f[x].parent else b[x].parent),
         map x | x in f.Keys + b.Keys :: (if x in f then FolderLabel(f[x].payload) else BookmarkLabel(b[x].payload.title, b[x].payload.url)),
         kids)
  }

  ghost function ViewOf(s: Store, ws: Id): View {
    ViewFrom(Shown(s.folders, ws), Shown(s.bookmarks, ws), KidsOf(s, ws))
  }

  // A bookmark put into a list that has folders: its position counts bookmarks only, while the list a member
  // sees begins with the folders.
  ghost predicate BehindFolders(s: Store, ws: Id, e: Event) {
    e.Upsert? && e.caption.BookmarkLabel? && Children(s.folders, ws, e.parent) != []
  }

  // ---------- what an event says about the forest ----------

  ghost predicate Insertable(v: View, id: Id, parent: Option<Id>, position: int) {
    id !in v.parent && parent in v.kids && 0 <= position <= |v.kids[parent]|
  }

  ghost function InsertNode(v: View, id: Id, parent: Option<Id>, caption: Label, position: int): View
    requires Insertable(v, id, parent, position)
  {
    var kids := v.kids[parent := Inserted(v.kids[parent], id, position)];
    View(v.parent[id := parent], v.caption[id := caption], if caption.FolderLabel? then kids[Some(id) := []] else kids)
  }

  ghost function Detach(v: View, id: Id): imap<Option<Id>, seq<Id>>
    requires id in v.parent && v.parent[id] in v.kids
  {
    v.kids[v.parent[id] := Without(v.kids[v.parent[id]], id)]
  }

  ghost predicate Movable(v: View, id: Id, parent: Option<Id>, position: int) {
    && id in v.parent && v.parent[id] in v.kids
    && parent in v.kids && 0 <= position <= |Detach(v, id)[parent]|
  }

  ghost function MoveNode(v: View, id: Id, parent: Option<Id>, caption: Label, position: int): View
    requires Movable(v, id, parent, position)
  {
    var rest := Detach(v, id);
    View(v.parent[id := parent], v.caption[id := caption], rest[parent := Inserted(rest[parent], id, position)])
  }

  ghost function RemoveNode(v: View, id: Id): View
    requires id in v.parent && v.parent[id] in v.kids
  {
    var gone := Subtree(v.parent, id);
    var rest := Detach(v, id);
    View(v.parent - gone, v.caption - gone, imap k | k in rest && (k.None? || k.value !in gone) :: rest[k])
  }

  ghost predicate Applicable(v: View, e: Event) {
    match e
    case Upsert(id, parent, position, _) => if id in v.parent then Movable(v, id, parent, position) else Insertable(v, id, parent, position)
    case Removal(id, parent) => id in v.parent && v.parent[id] in v.kids && (parent.Some? ==> parent.value in v.parent)
  }

  ghost function ApplyEvent(v: View, e: Event): View
    requires Applicable(v, e)
  {
    match e
    case Upsert(id, parent, position, caption) => if id in v.parent then MoveNode(v, id, parent, caption, position) else InsertNode(v, id, parent, caption, position)
    case Removal(id, _) => RemoveNode(v, id)
  }

  // ---------- the events transactions record ----------

  ghost function FolderEvent(id: Id, row: Row<string>): Event {
    Upsert(id, row.parent, row.position, FolderLabel(row.payload))
  }

  ghost function BookmarkEvent(id: Id, row: Row<Link>): Event {
    Upsert(id, row.parent, row.position, BookmarkLabel(row.payload.title, row.payload.url))
  }

  // The workspace and payload of the event recorded with a committed command; None when it fails.
  ghost function Recorded(s: Store, c: Caller, cmd: Command): Option<(Id, Event)>
    requires FreshIds(s, cmd)
  {
    match cmd
    case MakeFolder(ws, input, newId) =>
      (match CreateFolder(s, c, ws, input, newId) case Ok(r) => Some((ws, FolderEvent(newId, r.1))) case Err(_) => None)
    case PatchFolder(id, patch) =>
      (match UpdateFolder(s, c, id, patch) case Ok(r) => Some((r.1.workspace, FolderEvent(id, r.1))) case Err(_) => None)
    case DropFolder(id) =>
      (match DeleteFolder(s, c, id) case Ok(_) => Some((s.folders[id].workspace, Removal(id, s.folders[id].parent))) case Err(_) => None)
    case MakeBookmark(ws, input, newId) =>
      (match CreateBookmark(s, c, ws, input, newId) case Ok(r) => Some((ws, BookmarkEvent(newId, r.1))) case Err(_) => None)
    case PatchBookmark(id, patch) =>
      (match UpdateBookmark(s, c, id, patch) case Ok(r) => Some((r.1.workspace, BookmarkEvent(id, r.1))) case Err(_) => None)
    case DropBookmark(id) =>
      (match DeleteBookmark(s, c, id) case Ok(_) => Some((s.bookmarks[id].workspace, Removal(id, s.bookmarks[id].parent))) case Err(_) => None)
  }

  // ---------- each transaction is described by its event ----------

  // Re-parenting or adding one folder row.
  lemma PutFolder(f: map<Id, Placed<string>>, b: map<Id, Placed<Link>>, id: Id, p: Placed<string>, was: imap<Option<Id>, seq<Id>>, kids: imap<Option<Id>, seq<Id>>)
    requires id !in b
    ensures var v := ViewFrom(f, b, was);
            ViewFrom(f[id := p], b, kids) == View(v.parent[id := p.parent], v.caption[id := FolderLabel(p.payload)], kids)
  {
  }

  lemma PutBookmark(f: map<Id, Placed<string>>, b: map<Id, Placed<Link>>, id: Id, p: Placed<Link>, was: imap<Option<Id>, seq<Id>>, kids: imap<Option<Id>, seq<Id>>)
    requires id !in f
    ensures var v := ViewFrom(f, b, was);
            ViewFrom(f, b[id := p], kids) == View(v.parent[id := p.parent], v.caption[id := BookmarkLabel(p.payload.title, p.payload.url)], kids)
  {
  }

  lemma DropNodes(f: map<Id, Placed<string>>, b: map<Id, Placed<Link>>, gone: set<Id>, was: imap<Option<Id>, seq<Id>>, kids: imap<Option<Id>, seq<Id>>)
    ensures var v := ViewFrom(f, b, was);
            ViewFrom(f - gone, b - gone, kids) == View(v.parent - gone, v.caption - gone, kids)
  {
  }

  lemma ShownAfterPut<P>(t: Table<P>, u: Table<P>, id: Id, ws: Id, w: Id)
    requires u.Keys == t.Keys + {id} && !u[id].deleted && u[id].workspace == ws
    requires id in t ==> t[id].workspace == ws
    requires forall x | x in t && x != id :: SameShape(u[x], t[x])
    ensures Shown(u, w) == if w == ws then Shown(t, w)[id := Placed(u[id].parent, u[id].payload)] else Shown(t, w)
  {
    forall x | x in t && x != id ensures x in Shown(u, w) <==> x in Shown(t, w) {
      assert SameShape(u[x], t[x]);
    }
    forall x | x in t && x != id && x in Shown(u, w) ensures Shown(u, w)[x] == Shown(t, w)[x] {
      assert SameShape(u[x], t[x]);
    }
  }

  lemma NotAChild<P>(t: Table<P>, ws: Id, id: Id, k: Option<Id>)
    requires id in t ==> t[id].parent != k
    ensures Without(Children(t, ws, k), id) == Children(t, ws, k)
  {
    ChildrenList(t, ws, k);
  }

  lemma Stranger<P>(t: Table<P>, ws: Id, id: Id, k: Option<Id>)
    requires id !in t
    ensures Without(Children(t, ws, k), id) == Children(t, ws, k)
  {
    ChildrenList(t, ws, k);
  }

  lemma DetachedKids(s: Store, ws: Id, id: Id, k: Option<Id>)
    requires s.folders.Keys !! s.bookmarks.Keys
    ensures id in s.folders ==> Without(Kids(s, ws, k), id) == Without(Children(s.folders, ws, k), id) + Children(s.bookmarks, ws, k)
    ensures id in s.bookmarks ==> Without(Kids(s, ws, k), id) == Children(s.folders, ws, k) + Without(Children(s.bookmarks, ws, k), id)
  {
    WithoutConcat(Children(s.folders, ws, k), Children(s.bookmarks, ws, k), id);
    if id in s.folders { Stranger(s.bookmarks, ws, id, k); }
    if id in s.bookmarks { Stranger(s.folders, ws, id, k); }
  }

  lemma KidsOfIs(s: Store, ws: Id, m: imap<Option<Id>, seq<Id>>)
    requires forall k :: k in m <==> k.None? || k.value in Shown(s.folders, ws)
    requires forall k | k in m :: m[k] == Kids(s, ws, k)
    ensures KidsOf(s, ws) == m
  {
  }

  // A folder without rows below it has no children.
  lemma Childless<P>(t: Table<P>, ws: Id, k: Option<Id>)
    requires forall x | x in t :: t[x].parent != k
    ensures Children(t, ws, k) == []
  {
    ChildrenList(t, ws, k);
  }

  lemma InsertedInFront(a: seq<Id>, b: seq<Id>, x: Id, at: nat)
    requires at <= |a|
    ensures Inserted(a + b, x, at) == Inserted(a, x, at) + b
  {
  }

  // With something in front the same index is another place.
  lemma InsertedBehind(a: seq<Id>, b: seq<Id>, x: Id, at: nat)
    requires at <= |b| && x !in a && x !in b
    ensures Inserted(a + b, x, at) == a + Inserted(b, x, at) <==> a == []
  {
    if a == [] {
      assert a + b == b && a + Inserted(b, x, at) == Inserted(b, x, at);
    } else {
      assert Inserted(a + b, x, at)[at] == x;
      var l := a + Inserted(b, x, at);
      if at < |a| { assert l[at] == a[at]; } else { assert l[at] == b[at - |a|]; }
    }
  }

  lemma CreatedFolderKids(s: Store, u: FolderTable, ws: Id, parent: Option<Id>, newId: Id, at: nat)
    requires Inv(s) && newId !in s.folders && IsKey(Shown(s.folders, ws).Keys, parent)
    requires Shown(u, ws).Keys == Shown(s.folders, ws).Keys + {newId}
    requires at <= |Children(s.folders, ws, parent)| && Children(u, ws, parent) == Inserted(Children(s.folders, ws, parent), newId, at)
    requires forall k: Option<Id> | k != parent :: Children(u, ws, k) == Children(s.folders, ws, k)
    ensures at <= |Kids(s, ws, parent)|
    ensures KidsOf(s.(folders := u), ws) == KidsOf(s, ws)[parent := Inserted(KidsOf(s, ws)[parent], newId, at)][Some(newId) := []]
  {
    InsertedInFront(Children(s.folders, ws, parent), Children(s.bookmarks, ws, parent), newId, at);
    Childless(s.folders, ws, Some(newId));
    Childless(s.bookmarks, ws, Some(newId));
    var t := s.(folders := u);
    var b := KidsOf(s, ws)[parent := Inserted(KidsOf(s, ws)[parent], newId, at)][Some(newId) := []];
    forall k | k in b ensures b[k] == Kids(t, ws, k) {
      if k == Some(newId) {
        assert Kids(t, ws, k) == Kids(s, ws, k) == [];
      } else if k != parent {
        assert Kids(t, ws, k) == Kids(s, ws, k);
      }
    }
    KidsOfIs(t, ws, b);
  }

  lemma CreatedFolderView(s: Store, c: Caller, ws: Id, input: FolderInput, newId: Id)
    requires Inv(s) && newId !in s.folders && newId !in s.bookmarks
    requires CreateFolder(s, c, ws, input, newId).Ok?
    ensures var r := CreateFolder(s, c, ws, input, newId).value;
            var e := FolderEvent(newId, r.1);
            && Applicable(ViewOf(s, ws), e) && newId !in ViewOf(s, ws).parent
            && ViewOf(r.0, ws) == ApplyEvent(ViewOf(s, ws), e)
  {
    var r := CreateFolder(s, c, ws, input, newId).value;
    var u := r.0.folders;
    var name := TrimSpace(input.name);
    CreatedEffect(s.folders, newId, ws, input.parent, name, input.position, c.now);
    ShownAfterPut(s.folders, u, newId, ws, ws);
    forall k: Option<Id> | k != input.parent ensures Children(u, ws, k) == Children(s.folders, ws, k) {
      CreatedElsewhere(s.folders, newId, ws, input.parent, name, input.position, c.now, ws, k);
    }
    var at := InsertionPoint(|Children(s.folders, ws, input.parent)|, input.position);
    assert Children(u, ws, input.parent)[at] == newId;
    CreatedFolderKids(s, u, ws, input.parent, newId, at);
    PutFolder(Shown(s.folders, ws), Shown(s.bookmarks, ws), newId, Placed(input.parent, name), KidsOf(s, ws), KidsOf(r.0, ws));
  }

  lemma CreatedFolderElsewhere(s: Store, c: Caller, ws: Id, input: FolderInput, newId: Id, w: Id)
    requires newId !in s.folders && CreateFolder(s, c, ws, input, newId).Ok? && w != ws
    ensures ViewOf(CreateFolder(s, c, ws, input, newId).value.0, w) == ViewOf(s, w)
  {
    var t := CreateFolder(s, c, ws, input, newId).value.0;
    var name := TrimSpace(input.name);
    CreatedEffect(s.folders, newId, ws, input.parent, name, input.position, c.now);
    ShownAfterPut(s.folders, t.folders, newId, ws, w);
    forall k: Option<Id> ensures Kids(t, w, k) == Kids(s, w, k) {
      CreatedElsewhere(s.folders, newId, ws, input.parent, name, input.position, c.now, w, k);
    }
    SameKidsOf(s, t, w);
  }

  lemma SameKidsOf(s: Store, t: Store, w: Id)
    requires Shown(t.folders, w).Keys == Shown(s.folders, w).Keys
    requires forall k: Option<Id> :: Kids(t, w, k) == Kids(s, w, k)
    ensures KidsOf(t, w) == KidsOf(s, w)
  {
  }

  lemma CreatedBookmarkKids(s: Store, u: BookmarkTable, ws: Id, parent: Option<Id>, newId: Id, at: nat)
    requires IsKey(Shown(s.folders, ws).Keys, parent) && newId !in s.folders && newId !in s.bookmarks
    requires at <= |Children(s.bookmarks, ws, parent)| && Children(u, ws, parent) == Inserted(Children(s.bookmarks, ws, parent), newId, at)
    requires forall k: Option<Id> | k != parent :: Children(u, ws, k) == Children(s.bookmarks, ws, k)
    ensures at <= |Kids(s, ws, parent)|
    ensures KidsOf(s.(bookmarks := u), ws) == KidsOf(s, ws)[parent := Inserted(KidsOf(s, ws)[parent], newId, at)]
            <==> Children(s.folders, ws, parent) == []
  {
    var m := KidsOf(s, ws)[parent := Inserted(Kids(s, ws, parent), newId, at)];
    ChildrenList(s.folders, ws, parent);
    ChildrenList(s.bookmarks, ws, parent);
    InsertedBehind(Children(s.folders, ws, parent), Children(s.bookmarks, ws, parent), newId, at);
    assert Kids(s.(bookmarks := u), ws, parent) == Children(s.folders, ws, parent) + Inserted(Children(s.bookmarks, ws, parent), newId, at);
    if Children(s.folders, ws, parent) == [] {
      KidsOfIs(s.(bookmarks := u), ws, m);
    } else {
      assert KidsOf(s.(bookmarks := u), ws)[parent] != m[parent];
    }
  }

  // The lists after a bookmark is created, and the index it got.
  lemma CreatedBookmarkLists(s: Store, c: Caller, ws: Id, input: BookmarkInput, newId: Id)
    requires newId !in s.folders && newId !in s.bookmarks && CreateBookmark(s, c, ws, input, newId).Ok?
    ensures var r := CreateBookmark(s, c, ws, input, newId).value;
            && IsKey(Shown(s.folders, ws).Keys, Some(input.folder))
            && 0 <= r.1.position <= |Kids(s, ws, Some(input.folder))|
            && (KidsOf(r.0, ws) == KidsOf(s, ws)[Some(input.folder) := Inserted(KidsOf(s, ws)[Some(input.folder)], newId, r.1.position)]
                <==> Children(s.folders, ws, Some(input.folder)) == [])
  {
    var u := CreateBookmark(s, c, ws, input, newId).value.0.bookmarks;
    var link := Link(TrimSpace(input.link.title), TrimSpace(input.link.url));
    var parent := Some(input.folder);
    CreatedEffect(s.bookmarks, newId, ws, parent, link, input.position, c.now);
    forall k: Option<Id> | k != parent ensures Children(u, ws, k) == Children(s.bookmarks, ws, k) {
      CreatedElsewhere(s.bookmarks, newId, ws, parent, link, input.position, c.now, ws, k);
    }
    var at := InsertionPoint(|Children(s.bookmarks, ws, parent)|, input.position);
    assert Children(u, ws, parent)[at] == newId;
    CreatedBookmarkKids(s, u, ws, parent, newId, at);
  }

  lemma CreatedBookmarkView(s: Store, c: Caller, ws: Id, input: BookmarkInput, newId: Id)
    requires Inv(s) && newId !in s.folders && newId !in s.bookmarks
    requires CreateBookmark(s, c, ws, input, newId).Ok?
    ensures var r := CreateBookmark(s, c, ws, input, newId).value;
            var e := BookmarkEvent(newId, r.1);
            && Applicable(ViewOf(s, ws), e) && newId !in ViewOf(s, ws).parent
            && (ViewOf(r.0, ws) == ApplyEvent(ViewOf(s, ws), e) <==> !BehindFolders(s, ws, e))
  {
    var r := CreateBookmark(s, c, ws, input, newId).value;
    var link := Link(TrimSpace(input.link.title), TrimSpace(input.link.url));
    CreatedEffect(s.bookmarks, newId, ws, Some(input.folder), link, input.position, c.now);
    ShownAfterPut(s.bookmarks, r.0.bookmarks, newId, ws, ws);
    CreatedBookmarkLists(s, c, ws, input, newId);
    PutBookmark(Shown(s.folders, ws), Shown(s.bookmarks, ws), newId, Placed(Some(input.folder), link), KidsOf(s, ws), KidsOf(r.0, ws));
  }

  lemma TwoListsChanged(s: Store, t: Store, ws: Id, k: Option<Id>, l: seq<Id>, k2: Option<Id>, l2: seq<Id>)
    requires Shown(t.folders, ws).Keys == Shown(s.folders, ws).Keys
    requires IsKey(Shown(s.folders, ws).Keys, k) && IsKey(Shown(s.folders, ws).Keys, k2)
    requires (k != k2 ==> Kids(t, ws, k) == l) && Kids(t, ws, k2) == l2
    requires forall j: Option<Id> | j != k && j != k2 :: Kids(t, ws, j) == Kids(s, ws, j)
    ensures KidsOf(t, ws) == KidsOf(s, ws)[k := l][k2 := l2]
  {
    KidsOfIs(t, ws, KidsOf(s, ws)[k := l][k2 := l2]);
  }

  lemma CreatedBookmarkElsewhere(s: Store, c: Caller, ws: Id, input: BookmarkInput, newId: Id, w: Id)
    requires newId !in s.bookmarks && CreateBookmark(s, c, ws, input, newId).Ok? && w != ws
    ensures ViewOf(CreateBookmark(s, c, ws, input, newId).value.0, w) == ViewOf(s, w)
  {
    var t := CreateBookmark(s, c, ws, input, newId).value.0;
    var link := Link(TrimSpace(input.link.title), TrimSpace(input.link.url));
    CreatedEffect(s.bookmarks, newId, ws, Some(input.folder), link, input.position, c.now);
    ShownAfterPut(s.bookmarks, t.bookmarks, newId, ws, w);
    forall k: Option<Id> ensures Kids(t, w, k) == Kids(s, w, k) {
      CreatedElsewhere(s.bookmarks, newId, ws, Some(input.folder), link, input.position, c.now, w, k);
    }
    SameKidsOf(s, t, w);
  }

  // A move seen list by list is the move of the view.
  lemma ListsAfterMove(s: Store, t: Store, ws: Id, id: Id, from: Option<Id>, target: Option<Id>, at: int)
    requires Shown(t.folders, ws).Keys == Shown(s.folders, ws).Keys
    requires id in ViewOf(s, ws).parent && ViewOf(s, ws).parent[id] == from
    requires IsKey(Shown(s.folders, ws).Keys, from) && IsKey(Shown(s.folders, ws).Keys, target)
    requires 0 <= at <= |Without(Kids(s, ws, target), id)| && Kids(t, ws, target) == Inserted(Without(Kids(s, ws, target), id), id, at)
    requires target != from ==> Kids(t, ws, from) == Without(Kids(s, ws, from), id) && Without(Kids(s, ws, target), id) == Kids(s, ws, target)
    requires forall k: Option<Id> | k != target && k != from :: Kids(t, ws, k) == Kids(s, ws, k)
    ensures Movable(ViewOf(s, ws), id, target, at)
    ensures KidsOf(t, ws) == Detach(ViewOf(s, ws), id)[target := Inserted(Detach(ViewOf(s, ws), id)[target], id, at)]
  {
    TwoListsChanged(s, t, ws, from, Without(Kids(s, ws, from), id), target, Kids(t, ws, target));
  }

  lemma ListAfterMoveDiffers(s: Store, t: Store, ws: Id, id: Id, target: Option<Id>, at: int)
    requires Shown(t.folders, ws).Keys == Shown(s.folders, ws).Keys
    requires id in ViewOf(s, ws).parent
    requires IsKey(Shown(s.folders, ws).Keys, ViewOf(s, ws).parent[id]) && IsKey(Shown(s.folders, ws).Keys, target)
    requires var from := ViewOf(s, ws).parent[id]; target != from ==> Without(Kids(s, ws, target), id) == Kids(s, ws, target)
    requires 0 <= at <= |Without(Kids(s, ws, target), id)| && Kids(t, ws, target) != Inserted(Without(Kids(s, ws, target), id), id, at)
    ensures Movable(ViewOf(s, ws), id, target, at)
    ensures KidsOf(t, ws) != Detach(ViewOf(s, ws), id)[target := Inserted(Detach(ViewOf(s, ws), id)[target], id, at)]
  {
    var l := Detach(ViewOf(s, ws), id)[target];
    assert l == Without(Kids(s, ws, target), id);
    assert KidsOf(t, ws)[target] == Kids(t, ws, target);
  }

  // A folder put among folders, seen with the bookmarks behind it.
  lemma EnteredFolderList(s: Store, u: FolderTable, ws: Id, id: Id, target: Option<Id>, at: nat)
    requires s.folders.Keys !! s.bookmarks.Keys && id in s.folders
    requires at <= |Without(Children(s.folders, ws, target), id)|
    requires Children(u, ws, target) == Inserted(Without(Children(s.folders, ws, target), id), id, at)
    ensures at <= |Without(Kids(s, ws, target), id)|
    ensures Kids(s.(folders := u), ws, target) == Inserted(Without(Kids(s, ws, target), id), id, at)
  {
    DetachedKids(s, ws, id, target);
    InsertedInFront(Without(Children(s.folders, ws, target), id), Children(s.bookmarks, ws, target), id, at);
  }

  lemma LeftFolderList(s: Store, u: FolderTable, ws: Id, id: Id, from: Option<Id>, target: Option<Id>)
    requires s.folders.Keys !! s.bookmarks.Keys && id in s.folders && s.folders[id].parent == from && target != from
    requires Children(u, ws, from) == Without(Children(s.folders, ws, from), id)
    ensures Kids(s.(folders := u), ws, from) == Without(Kids(s, ws, from), id)
    ensures Without(Kids(s, ws, target), id) == Kids(s, ws, target)
  {
    DetachedKids(s, ws, id, from);
    DetachedKids(s, ws, id, target);
    NotAChild(s.folders, ws, id, target);
  }

  // The lists a move of a folder leaves and enters.
  lemma MovedFolderKids(s: Store, id: Id, target: Option<Id>, name: string, req: Option<int>, now: int)
    requires Inv(s) && Live(s.folders, id)
    ensures var ws := s.folders[id].workspace;
            var from := s.folders[id].parent;
            var t := s.(folders := Moved(s.folders, id, target, name, req, now));
            && id in t.folders
            && var at := t.folders[id].position;
               && 0 <= at <= |Without(Kids(s, ws, target), id)| && Kids(t, ws, target) == Inserted(Without(Kids(s, ws, target), id), id, at)
               && (target != from ==> Kids(t, ws, from) == Without(Kids(s, ws, from), id) && Without(Kids(s, ws, target), id) == Kids(s, ws, target))
  {
    var row := s.folders[id];
    var ws := row.workspace;
    var u := Moved(s.folders, id, target, name, req, now);
    MovedEffect(s.folders, id, target, name, req, now);
    var at := u[id].position;
    assert Children(u, ws, target)[at] == id;
    EnteredFolderList(s, u, ws, id, target, at);
    if target != row.parent {
      LeftFolderList(s, u, ws, id, row.parent, target);
    }
  }

  lemma MovedFolderView(s: Store, id: Id, target: Option<Id>, name: string, req: Option<int>, now: int)
    requires Inv(s) && Live(s.folders, id)
    requires target.Some? ==> FolderIn(s, target.value, s.folders[id].workspace)
    ensures var ws := s.folders[id].workspace;
            var t := s.(folders := Moved(s.folders, id, target, name, req, now));
            && id in t.folders
            && var e := FolderEvent(id, t.folders[id]);
               && Applicable(ViewOf(s, ws), e) && id in ViewOf(s, ws).parent
               && ViewOf(t, ws) == ApplyEvent(ViewOf(s, ws), e)
  {
    var ws := s.folders[id].workspace;
    var from := s.folders[id].parent;
    var t := s.(folders := Moved(s.folders, id, target, name, req, now));
    MovedFolderKids(s, id, target, name, req, now);
    MovedEffect(s.folders, id, target, name, req, now);
    ShownAfterPut(s.folders, t.folders, id, ws, ws);
    forall k: Option<Id> | k != target && k != from ensures Kids(t, ws, k) == Kids(s, ws, k) {
      MovedElsewhere(s.folders, id, target, name, req, now, ws, k);
    }
    ListsAfterMove(s, t, ws, id, from, target, t.folders[id].position);
    PutFolder(Shown(s.folders, ws), Shown(s.bookmarks, ws), id, Placed(target, name), KidsOf(s, ws), KidsOf(t, ws));
  }

  lemma MovedFolderElsewhere(s: Store, id: Id, target: Option<Id>, name: string, req: Option<int>, now: int, w: Id)
    requires Live(s.folders, id) && w != s.folders[id].workspace
    ensures ViewOf(s.(folders := Moved(s.folders, id, target, name, req, now)), w) == ViewOf(s, w)
  {
    var t := s.(folders := Moved(s.folders, id, target, name, req, now));
    MovedEffect(s.folders, id, target, name, req, now);
    ShownAfterPut(s.folders, t.folders, id, s.folders[id].workspace, w);
    forall k: Option<Id> ensures Kids(t, w, k) == Kids(s, w, k) {
      MovedElsewhere(s.folders, id, target, name, req, now, w, k);
    }
    SameKidsOf(s, t, w);
  }

  lemma EnteredBookmarkList(s: Store, u: BookmarkTable, ws: Id, id: Id, target: Option<Id>, at: nat)
    requires s.folders.Keys !! s.bookmarks.Keys && id in s.bookmarks
    requires at <= |Without(Children(s.bookmarks, ws, target), id)|
    requires Children(u, ws, target) == Inserted(Without(Children(s.bookmarks, ws, target), id), id, at)
    ensures at <= |Without(Kids(s, ws, target), id)|
    ensures Kids(s.(bookmarks := u), ws, target) == Inserted(Without(Kids(s, ws, target), id), id, at) <==> Children(s.folders, ws, target) == []
  {
    DetachedKids(s, ws, id, target);
    ChildrenList(s.folders, ws, target);
    InsertedBehind(Children(s.folders, ws, target), Without(Children(s.bookmarks, ws, target), id), id, at);
  }

  lemma LeftBookmarkList(s: Store, u: BookmarkTable, ws: Id, id: Id, from: Option<Id>, target: Option<Id>)
    requires s.folders.Keys !! s.bookmarks.Keys && id in s.bookmarks && s.bookmarks[id].parent == from && target != from
    requires Children(u, ws, from) == Without(Children(s.bookmarks, ws, from), id)
    ensures Kids(s.(bookmarks := u), ws, from) == Without(Kids(s, ws, from), id)
    ensures Without(Kids(s, ws, target), id) == Kids(s, ws, target)
  {
    DetachedKids(s, ws, id, from);
    DetachedKids(s, ws, id, target);
    NotAChild(s.bookmarks, ws, id, target);
  }

  lemma MovedBookmarkKids(s: Store, id: Id, target: Option<Id>, link: Link, req: Option<int>, now: int)
    requires Inv(s) && Live(s.bookmarks, id)
    ensures var ws := s.bookmarks[id].workspace;
            var from := s.bookmarks[id].parent;
            var t := s.(bookmarks := Moved(s.bookmarks, id, target, link, req, now));
            && id in t.bookmarks
            && var at := t.bookmarks[id].position;
               && 0 <= at <= |Without(Kids(s, ws, target), id)|
               && (Kids(t, ws, target) == Inserted(Without(Kids(s, ws, target), id), id, at) <==> Children(s.folders, ws, target) == [])
               && (target != from ==> Kids(t, ws, from) == Without(Kids(s, ws, from), id) && Without(Kids(s, ws, target), id) == Kids(s, ws, target))
  {
    var row := s.bookmarks[id];
    var ws := row.workspace;
    var u := Moved(s.bookmarks, id, target, link, req, now);
    MovedEffect(s.bookmarks, id, target, link, req, now);
    var at := u[id].position;
    assert Children(u, ws, target)[at] == id;
    EnteredBookmarkList(s, u, ws, id, target, at);
    if target != row.parent {
      LeftBookmarkList(s, u, ws, id, row.parent, target);
    }
  }

  lemma MovedBookmarkView(s: Store, id: Id, target: Option<Id>, link: Link, req: Option<int>, now: int)
    requires Inv(s) && Live(s.bookmarks, id)
    requires target.Some? && FolderIn(s, target.value, s.bookmarks[id].workspace)
    ensures var ws := s.bookmarks[id].workspace;
            var t := s.(bookmarks := Moved(s.bookmarks, id, target, link, req, now));
            && id in t.bookmarks
            && var e := BookmarkEvent(id, t.bookmarks[id]);
               && Applicable(ViewOf(s, ws), e) && id in ViewOf(s, ws).parent
               && (ViewOf(t, ws) == ApplyEvent(ViewOf(s, ws), e) <==> !BehindFolders(s, ws, e))
  {
    var ws := s.bookmarks[id].workspace;
    var from := s.bookmarks[id].parent;
    var t := s.(bookmarks := Moved(s.bookmarks, id, target, link, req, now));
    MovedBookmarkKids(s, id, target, link, req, now);
    MovedEffect(s.bookmarks, id, target, link, req, now);
    ShownAfterPut(s.bookmarks, t.bookmarks, id, ws, ws);
    forall k: Option<Id> | k != target && k != from ensures Kids(t, ws, k) == Kids(s, ws, k) {
      MovedElsewhere(s.bookmarks, id, target, link, req, now, ws, k);
    }
    if Children(s.folders, ws, target) == [] {
      ListsAfterMove(s, t, ws, id, from, target, t.bookmarks[id].position);
    } else {
      ListAfterMoveDiffers(s, t, ws, id, target, t.bookmarks[id].position);
    }
    PutBookmark(Shown(s.folders, ws), Shown(s.bookmarks, ws), id, Placed(target, link), KidsOf(s, ws), KidsOf(t, ws));
  }

  lemma MovedBookmarkElsewhere(s: Store, id: Id, target: Option<Id>, link: Link, req: Option<int>, now: int, w: Id)
    requires Live(s.bookmarks, id) && w != s.bookmarks[id].workspace
    ensures ViewOf(s.(bookmarks := Moved(s.bookmarks, id, target, link, req, now)), w) == ViewOf(s, w)
  {
    var t := s.(bookmarks := Moved(s.bookmarks, id, target, link, req, now));
    MovedEffect(s.bookmarks, id, target, link, req, now);
    ShownAfterPut(s.bookmarks, t.bookmarks, id, s.bookmarks[id].workspace, w);
    forall k: Option<Id> ensures Kids(t, w, k) == Kids(s, w, k) {
      MovedElsewhere(s.bookmarks, id, target, link, req, now, w, k);
    }
    SameKidsOf(s, t, w);
  }

  // In the live forest of a workspace a node lies below a folder exactly when its folder chain says so.
  lemma {:induction false} SameClimb(s: Store, ws: Id, x: Id, n: nat)
    requires Inv(s) && x in Shown(s.folders, ws)
    ensures Up(ViewOf(s, ws).parent, x, n) == Up(AllParents(s.folders), x, n)
    decreases n
  {
    if n > 0 && s.folders[x].parent.Some? {
      SameClimb(s, ws, s.folders[x].parent.value, n - 1);
    }
  }

  lemma FolderBelowInView(s: Store, ws: Id, id: Id, x: Id)
    requires Inv(s) && x in Shown(s.folders, ws)
    ensures Reaches(ViewOf(s, ws).parent, x, id) <==> Reaches(AllParents(s.folders), x, id)
  {
    if n: nat :| Up(ViewOf(s, ws).parent, x, n) == Some(id) {
      SameClimb(s, ws, x, n);
    }
    if n: nat :| Up(AllParents(s.folders), x, n) == Some(id) {
      SameClimb(s, ws, x, n);
    }
  }

  lemma BookmarkBelowInView(s: Store, ws: Id, id: Id, b: Id)
    requires Inv(s) && b in Shown(s.bookmarks, ws) && id in s.folders
    ensures Reaches(ViewOf(s, ws).parent, b, id) <==> Reaches(AllParents(s.folders), s.bookmarks[b].parent.value, id)
  {
    ReachesStep(ViewOf(s, ws).parent, b, id);
    FolderBelowInView(s, ws, id, s.bookmarks[b].parent.value);
  }

  lemma {:induction false} ClimbStaysHome(s: Store, x: Id, n: nat)
    requires Inv(s) && Live(s.folders, x) && Up(AllParents(s.folders), x, n).Some?
    ensures var y := Up(AllParents(s.folders), x, n).value; Live(s.folders, y) && s.folders[y].workspace == s.folders[x].workspace
    decreases n
  {
    if n > 0 {
      ClimbStaysHome(s, s.folders[x].parent.value, n - 1);
    }
  }

  lemma OtherWorkspaceNotBelow(s: Store, id: Id, x: Id)
    requires Inv(s) && Live(s.folders, id) && Live(s.folders, x) && s.folders[x].workspace != s.folders[id].workspace
    ensures !Reaches(AllParents(s.folders), x, id)
  {
    if n: nat :| Up(AllParents(s.folders), x, n) == Some(id) {
      ClimbStaysHome(s, x, n);
    }
  }

  // What a workspace still shows after a folder of workspace home has been deleted.
  lemma RemovedFolderNodes(s: Store, c: Caller, id: Id, w: Id)
    requires Inv(s) && DeleteFolder(s, c, id).Ok?
    ensures var home := s.folders[id].workspace;
            var t := DeleteFolder(s, c, id).value;
            var gone := if w == home then Subtree(ViewOf(s, home).parent, id) else {};
            && Shown(t.folders, w) == Shown(s.folders, w) - gone
            && Shown(t.bookmarks, w) == Shown(s.bookmarks, w) - gone
  {
    var home := s.folders[id].workspace;
    var t := DeleteFolder(s, c, id).value;
    var v := ViewOf(s, home);
    DeleteFolderIsExact(s, c, id);
    forall x | x in Shown(s.folders, w)
      ensures Live(t.folders, x) <==> !(w == home && x in Subtree(v.parent, id))
    {
      if w == home {
        FolderBelowInView(s, w, id, x);
      } else {
        OtherWorkspaceNotBelow(s, id, x);
      }
    }
    forall x | x in Shown(s.bookmarks, w)
      ensures Live(t.bookmarks, x) <==> !(w == home && x in Subtree(v.parent, id))
    {
      if w == home {
        BookmarkBelowInView(s, w, id, x);
      } else {
        OtherWorkspaceNotBelow(s, id, s.bookmarks[x].parent.value);
      }
    }
    var gone := if w == home then Subtree(v.parent, id) else {};
    ShownAfterDelete(s.folders, t.folders, w, gone);
    ShownAfterDelete(s.bookmarks, t.bookmarks, w, gone);
  }

  lemma ShownAfterDelete<P>(t: Table<P>, u: Table<P>, w: Id, gone: set<Id>)
    requires u.Keys == t.Keys
    requires forall x | x in t :: SameShape(u[x], t[x].(deleted := u[x].deleted))
    requires forall x | x in t :: Live(u, x) ==> Live(t, x)
    requires forall x | x in Shown(t, w) :: Live(u, x) <==> x !in gone
    ensures Shown(u, w) == Shown(t, w) - gone
  {
    forall x | x in t ensures x in Shown(u, w) <==> x in Shown(t, w) && x !in gone {
      assert SameShape(u[x], t[x].(deleted := u[x].deleted));
    }
    forall x | x in Shown(u, w) ensures Shown(u, w)[x] == Shown(t, w)[x] {
      assert SameShape(u[x], t[x].(deleted := u[x].deleted));
    }
  }

  // Sibling lists after a folder delete: the folder's own list loses it, lists outside its subtree stay.
  lemma RemovedFolderKids(s: Store, c: Caller, id: Id, w: Id, k: Option<Id>)
    requires Inv(s) && DeleteFolder(s, c, id).Ok?
    requires k.Some? ==> Live(s.folders, k.value) && !Reaches(AllParents(s.folders), k.value, id)
    ensures var t := DeleteFolder(s, c, id).value;
            Kids(t, w, k) == if (w, k) == (s.folders[id].workspace, s.folders[id].parent) then Without(Kids(s, w, k), id) else Kids(s, w, k)
  {
    var t := DeleteFolder(s, c, id).value;
    var dead := DeadFolders(s, id);
    var marked := Marked(s.folders, dead, c.now);
    assert AllParents(marked) == AllParents(s.folders);
    MarkedUntouched(s.bookmarks, DeadBookmarks(s, marked, id), c.now, w, k);
    SubtreeMeetsSiblingsOnce(s, id);
    DetachedKids(s, w, id, k);
    if (w, k) == (s.folders[id].workspace, s.folders[id].parent) {
      RemovedEffect(s.folders, dead, id, c.now);
    } else {
      if k.Some? {
        LiveReachesIff(s.folders, k.value, id);
      }
      DeadGroup(s, id, w, k);
      RemovedElsewhere(s.folders, dead, id, c.now, w, k);
      MarkedUntouched(s.folders, dead, c.now, w, k);
    }
  }

  // A removal seen list by list is the removal of the view.
  lemma ListsAfterRemoval(s: Store, t: Store, ws: Id, id: Id)
    requires var v := ViewOf(s, ws);
             && id in v.parent && v.parent[id] in v.kids
             && (forall k: Id :: k in Shown(t.folders, ws) <==> k in Shown(s.folders, ws) && k !in Subtree(v.parent, id))
             && forall k: Option<Id> | IsKey(Shown(s.folders, ws).Keys, k) && (k.None? || k.value !in Subtree(v.parent, id)) ::
                  Kids(t, ws, k) == if k == v.parent[id] then Without(Kids(s, ws, k), id) else Kids(s, ws, k)
    ensures KidsOf(t, ws) == RemoveNode(ViewOf(s, ws), id).kids
  {
    var v := ViewOf(s, ws);
    var m := RemoveNode(v, id).kids;
    forall k ensures k in m <==> k.None? || k.value in Shown(t.folders, ws) {
      assert k in v.kids <==> IsKey(Shown(s.folders, ws).Keys, k);
    }
    forall k | k in m ensures m[k] == Kids(t, ws, k) {
      assert k in v.kids && v.kids[k] == Kids(s, ws, k);
    }
    KidsOfIs(t, ws, m);
  }

  lemma DroppedFolderView(s: Store, c: Caller, id: Id)
    requires Inv(s) && DeleteFolder(s, c, id).Ok?
    ensures var ws := s.folders[id].workspace;
            && id in ViewOf(s, ws).parent && ViewOf(s, ws).parent[id] in ViewOf(s, ws).kids
            && ViewOf(DeleteFolder(s, c, id).value, ws) == RemoveNode(ViewOf(s, ws), id)
  {
    var ws := s.folders[id].workspace;
    var v := ViewOf(s, ws);
    assert v.parent[id] == s.folders[id].parent && IsKey(Shown(s.folders, ws).Keys, v.parent[id]);
    RemovedFolderNodes(s, c, id, ws);
    forall k: Option<Id> | IsKey(Shown(s.folders, ws).Keys, k) && (k.None? || k.value !in Subtree(v.parent, id))
      ensures Kids(DeleteFolder(s, c, id).value, ws, k) == if k == v.parent[id] then Without(Kids(s, ws, k), id) else Kids(s, ws, k)
    {
      if k.Some? {
        FolderBelowInView(s, ws, id, k.value);
      }
      RemovedFolderKids(s, c, id, ws, k);
    }
    ListsAfterRemoval(s, DeleteFolder(s, c, id).value, ws, id);
    DropNodes(Shown(s.folders, ws), Shown(s.bookmarks, ws), Subtree(ViewOf(s, ws).parent, id), KidsOf(s, ws), KidsOf(DeleteFolder(s, c, id).value, ws));
  }

  lemma NothingDropped<T>(m: map<Id, T>)
    ensures m - {} == m
  {
  }

  lemma DroppedFolderElsewhere(s: Store, c: Caller, id: Id, w: Id)
    requires Inv(s) && DeleteFolder(s, c, id).Ok? && w != s.folders[id].workspace
    ensures ViewOf(DeleteFolder(s, c, id).value, w) == ViewOf(s, w)
  {
    RemovedFolderNodes(s, c, id, w);
    NothingDropped(Shown(s.folders, w));
    NothingDropped(Shown(s.bookmarks, w));
    DroppedFolderListsElsewhere(s, c, id, w);
  }

  lemma DroppedFolderListsElsewhere(s: Store, c: Caller, id: Id, w: Id)
    requires Inv(s) && DeleteFolder(s, c, id).Ok? && w != s.folders[id].workspace
    requires Shown(DeleteFolder(s, c, id).value.folders, w) == Shown(s.folders, w)
    ensures KidsOf(DeleteFolder(s, c, id).value, w) == KidsOf(s, w)
  {
    forall k | k in KidsOf(s, w) ensures KidsOf(s, w)[k] == Kids(DeleteFolder(s, c, id).value, w, k) {
      if k.Some? {
        OtherWorkspaceNotBelow(s, id, k.value);
      }
      RemovedFolderKids(s, c, id, w, k);
    }
    KidsOfIs(DeleteFolder(s, c, id).value, w, KidsOf(s, w));
  }

  lemma DroppedBookmarkKids(s: Store, c: Caller, id: Id, w: Id, k: Option<Id>)
    requires Inv(s) && DeleteBookmark(s, c, id).Ok?
    ensures Kids(DeleteBookmark(s, c, id).value, w, k) ==
            if (w, k) == (s.bookmarks[id].workspace, s.bookmarks[id].parent) then Without(Kids(s, w, k), id) else Kids(s, w, k)
  {
    var row := s.bookmarks[id];
    assert Members(s.bookmarks, row.workspace, row.parent) * {id} == {id};
    DetachedKids(s, w, id, k);
    if (w, k) == (row.workspace, row.parent) {
      RemovedEffect(s.bookmarks, {id}, id, c.now);
    } else {
      RemovedElsewhere(s.bookmarks, {id}, id, c.now, w, k);
      MarkedUntouched(s.bookmarks, {id}, c.now, w, k);
    }
  }

  lemma DroppedBookmarkShown(s: Store, c: Caller, id: Id, w: Id)
    requires Inv(s) && DeleteBookmark(s, c, id).Ok?
    ensures Shown(DeleteBookmark(s, c, id).value.bookmarks, w) == Shown(s.bookmarks, w) - {id}
  {
    var row := s.bookmarks[id];
    assert Members(s.bookmarks, row.workspace, row.parent) * {id} == {id};
    RemovedEffect(s.bookmarks, {id}, id, c.now);
    var u := DeleteBookmark(s, c, id).value.bookmarks;
    forall x | x in s.bookmarks ensures SameShape(u[x], s.bookmarks[x].(deleted := u[x].deleted)) && (Live(u, x) <==> Live(s.bookmarks, x) && x != id) {
      assert SameShape(u[x], s.bookmarks[x].(deleted := s.bookmarks[x].deleted || x in {id}));
    }
    ShownAfterDelete(s.bookmarks, u, w, {id});
  }

  lemma BookmarkIsALeaf(s: Store, ws: Id, id: Id)
    requires Inv(s) && id in Shown(s.bookmarks, ws)
    ensures Subtree(ViewOf(s, ws).parent, id) == {id}
  {
    var p := ViewOf(s, ws).parent;
    assert Up(p, id, 0) == Some(id);
    forall x, n: nat | Up(p, x, n) == Some(id) ensures n == 0 {
      NothingBelowBookmark(s, ws, id, x, n);
    }
  }

  lemma {:induction false} NothingBelowBookmark(s: Store, ws: Id, id: Id, x: Id, n: nat)
    requires Inv(s) && id in Shown(s.bookmarks, ws) && Up(ViewOf(s, ws).parent, x, n) == Some(id)
    ensures n == 0
    decreases n
  {
    var p := ViewOf(s, ws).parent;
    if n > 0 {
      NothingBelowBookmark(s, ws, id, p[x].value, n - 1);
    }
  }

  lemma DroppedBookmarkLists(s: Store, c: Caller, id: Id)
    requires Inv(s) && DeleteBookmark(s, c, id).Ok?
    ensures var ws := s.bookmarks[id].workspace;
            && id in ViewOf(s, ws).parent && ViewOf(s, ws).parent[id] in ViewOf(s, ws).kids
            && KidsOf(DeleteBookmark(s, c, id).value, ws) == RemoveNode(ViewOf(s, ws), id).kids
  {
    var ws := s.bookmarks[id].workspace;
    var t := DeleteBookmark(s, c, id).value;
    var parent := s.bookmarks[id].parent;
    assert IsKey(Shown(s.folders, ws).Keys, parent);
    BookmarkIsALeaf(s, ws, id);
    forall k: Option<Id> ensures Kids(t, ws, k) == if k == parent then Without(Kids(s, ws, k), id) else Kids(s, ws, k) {
      DroppedBookmarkKids(s, c, id, ws, k);
    }
    ListsAfterRemoval(s, t, ws, id);
  }

  lemma DroppedBookmarkView(s: Store, c: Caller, id: Id)
    requires Inv(s) && DeleteBookmark(s, c, id).Ok?
    ensures var ws := s.bookmarks[id].workspace;
            && id in ViewOf(s, ws).parent && ViewOf(s, ws).parent[id] in ViewOf(s, ws).kids
            && ViewOf(DeleteBookmark(s, c, id).value, ws) == RemoveNode(ViewOf(s, ws), id)
  {
    var ws := s.bookmarks[id].workspace;
    var t := DeleteBookmark(s, c, id).value;
    DroppedBookmarkLists(s, c, id);
    DroppedBookmarkShown(s, c, id, ws);
    BookmarkIsALeaf(s, ws, id);
    assert Shown(s.folders, ws) - {id} == Shown(s.folders, ws);
    DropNodes(Shown(s.folders, ws), Shown(s.bookmarks, ws), {id}, KidsOf(s, ws), KidsOf(t, ws));
  }

  lemma DroppedBookmarkElsewhere(s: Store, c: Caller, id: Id, w: Id)
    requires Inv(s) && DeleteBookmark(s, c, id).Ok? && w != s.bookmarks[id].workspace
    ensures ViewOf(DeleteBookmark(s, c, id).value, w) == ViewOf(s, w)
  {
    var t := DeleteBookmark(s, c, id).value;
    DroppedBookmarkShown(s, c, id, w);
    assert Shown(s.bookmarks, w) - {id} == Shown(s.bookmarks, w);
    forall k: Option<Id> ensures Kids(t, w, k) == Kids(s, w, k) {
      DroppedBookmarkKids(s, c, id, w, k);
    }
    SameKidsOf(s, t, w);
  }

  lemma PatchedFolderView(s: Store, c: Caller, id: Id, patch: FolderPatch, ws: Id)
    requires Inv(s) && UpdateFolder(s, c, id, patch).Ok?
    ensures var r := UpdateFolder(s, c, id, patch).value;
            && r.1.workspace == s.folders[id].workspace
            && if r.1.workspace == ws then Applicable(ViewOf(s, ws), FolderEvent(id, r.1)) && ViewOf(r.0, ws) == ApplyEvent(ViewOf(s, ws), FolderEvent(id, r.1))
               else ViewOf(r.0, ws) == ViewOf(s, ws)
  {
    var row := s.folders[id];
    var target := FolderTarget(row, patch);
    var req := RequestedPosition(row, target, patch.position);
    MovedEffect(s.folders, id, target, NewName(row, patch), req, c.now);
    if row.workspace == ws {
      MovedFolderView(s, id, target, NewName(row, patch), req, c.now);
    } else {
      MovedFolderElsewhere(s, id, target, NewName(row, patch), req, c.now, ws);
    }
  }

  lemma PatchedBookmarkView(s: Store, c: Caller, id: Id, patch: BookmarkPatch, ws: Id)
    requires Inv(s) && UpdateBookmark(s, c, id, patch).Ok?
    ensures var r := UpdateBookmark(s, c, id, patch).value;
            && r.1.workspace == s.bookmarks[id].workspace
            && var e := BookmarkEvent(id, r.1);
               if r.1.workspace == ws then Applicable(ViewOf(s, ws), e) && (ViewOf(r.0, ws) == ApplyEvent(ViewOf(s, ws), e) <==> !BehindFolders(s, ws, e))
               else ViewOf(r.0, ws) == ViewOf(s, ws)
  {
    var row := s.bookmarks[id];
    var target := BookmarkTarget(row, patch);
    var req := RequestedPosition(row, target, patch.position);
    MovedEffect(s.bookmarks, id, target, NewLink(row, patch), req, c.now);
    if row.workspace == ws {
      MovedBookmarkView(s, id, target, NewLink(row, patch), req, c.now);
    } else {
      MovedBookmarkElsewhere(s, id, target, NewLink(row, patch), req, c.now, ws);
    }
  }

  /** The event a committed command records, applied to the view before it, gives the view after it, unless it
      puts a bookmark into a list that has folders; then, and only then, it does not. A workspace it does not
      belong to, and a failed command, change nothing. */
  lemma EventDescribesTheForestIff(s: Store, c: Caller, cmd: Command, ws: Id)
    requires Inv(s) && FreshIds(s, cmd)
    ensures var after := ViewOf(Commit(s, c, cmd), ws);
            match Recorded(s, c, cmd)
            case None => Commit(s, c, cmd) == s
            case Some(r) =>
              if r.0 == ws then Applicable(ViewOf(s, ws), r.1) && (after == ApplyEvent(ViewOf(s, ws), r.1) <==> !BehindFolders(s, ws, r.1))
              else after == ViewOf(s, ws)
  {
    if Recorded(s, c, cmd).Some? {
      match cmd {
        case MakeFolder(w, input, newId) =>
          if w == ws { CreatedFolderView(s, c, w, input, newId); } else { CreatedFolderElsewhere(s, c, w, input, newId, ws); }
        case PatchFolder(id, patch) => PatchedFolderView(s, c, id, patch, ws);
        case DropFolder(id) =>
          if s.folders[id].workspace == ws { DroppedFolderView(s, c, id); } else { DroppedFolderElsewhere(s, c, id, ws); }
        case MakeBookmark(w, input, newId) =>
          if w == ws { CreatedBookmarkView(s, c, w, input, newId); } else { CreatedBookmarkElsewhere(s, c, w, input, newId, ws); }
        case PatchBookmark(id, patch) => PatchedBookmarkView(s, c, id, patch, ws);
        case DropBookmark(id) =>
          if s.bookmarks[id].workspace == ws { DroppedBookmarkView(s, c, id); } else { DroppedBookmarkElsewhere(s, c, id, ws); }
      }
    }
  }
}
