/** An upsert that finds its parent gone is not applied: the extension forgets the node, fetches the server's tree
    again and materialises it below the nearest folder still standing, here the workspace folder itself. */
module Recovery {
  import opened Common
  import opened Ancestry
  import opened FolderTree
  import opened ForestView
  import opened ChromeTree
  import opened Replay
  import opened Clearing
  import opened Rebuild
  import opened GatedReplay
  import opened StaleReplay

  // enterRecovery: how often a recovery is begun before one is given up.
  const MAX_SILENT_RECOVERY_ATTEMPTS := 3

  // ---------- one recovery ----------

  // invalidateSubtreeMappings: the entity with everything below its node, and its parent if that is missing.
  ghost function Disowned(c: Client, e: Event): Client
    requires e.Upsert?
  {
    var place := PlaceOf(c, e.parent);
    Invalidated(c, e.id, if place.None? || place.value !in c.tree.parent then e.parent else None)
  }

  // Above the entity or its parent in the tree the server sends.
  ghost predicate OnTheWay(sent: View, e: Event, y: Id)
    requires e.Upsert?
  {
    || (e.parent.Some? && Reaches(sent.parent, e.parent.value, y))
    || (e.caption.FolderLabel? && Reaches(sent.parent, e.id, y))
  }

  // resolveCanonicalAnchor ends at a folder of the tree sent that is still mapped to a node; where there is none, at
  // the workspace folder.
  ghost predicate AnchoredBelow(c: Client, sent: View, e: Event)
    requires e.Upsert?
  {
    exists y :: y in sent.parent && y in sent.caption && sent.caption[y].FolderLabel? && OnTheWay(sent, e, y) && y in c.chromeOf && c.chromeOf[y] in c.tree.parent
  }

  // clearManagedChildren: the folder after its first i children have been removed or spared.
  ghost function Cleared(t: Tree, folder: Id, exclude: set<Id>, i: nat): Tree
    requires folder in t.kids && i <= |t.kids[folder]|
  {
    if i == 0 then t else WithoutChild(Cleared(t, folder, exclude, i - 1), t.kids[folder][i - 1], exclude)
  }

  ghost function WithoutChild(t: Tree, x: Id, exclude: set<Id>): Tree {
    if x in exclude then t
    else
      match RemoveTree(t, x)
      case Ok(u) => u
      case Err(_) => t
  }

  ghost function Emptied(c: Client, exclude: set<Id>): Client
    requires c.root in c.tree.kids
  {
    var children := c.tree.kids[c.root];
    var gone := Doomed(c.tree.parent, children, exclude);
    c.(tree := Cleared(c.tree, c.root, exclude, |children|), chromeOf := Forget(c, gone), backendOf := c.backendOf - gone)
  }

  // attemptSubtreeRecovery up to its replay, anchored at the workspace folder.
  ghost function Refilled(c: Client, e: Event, nodes: seq<FolderNode>, tail: seq<Id>, next: Id): Result<(Client, Id), Refusal>
    requires e.Upsert? && c.root in c.tree.kids
  {
    PlaceFolders(Emptied(Disowned(c, e), Elements(tail)), c.root, nodes, next)
  }

  // ---------- it ends in a picture of what was sent ----------

  ghost predicate Inverse(m: map<Id, Id>, inv: map<Id, Id>) {
    forall b | b in m :: m[b] in inv && inv[m[b]] == b
  }

  // Everything mapped lies below the children of the workspace folder that are not the user's own.
  ghost predicate Refillable(c: Client, tail: seq<Id>) {
    && Consistent(c.tree) && c.root in c.tree.parent && c.tree.parent[c.root] == None && c.root in c.tree.kids
    && Spared(c.tree.kids[c.root], Elements(tail)) == tail && TailNamed(tail, c.tree.caption)
    && (forall x | x in c.backendOf :: x in Doomed(c.tree.parent, c.tree.kids[c.root], Elements(tail)))
    && Inverse(c.chromeOf, c.backendOf)
  }

  lemma {:induction false} ClearedSoFar(t: Tree, folder: Id, exclude: set<Id>, i: nat)
    requires Consistent(t) && folder in t.kids && i <= |t.kids[folder]|
    ensures ClearedUpTo(t, Cleared(t, folder, exclude, i), folder, exclude, i)
    decreases i
  {
    if i == 0 {
      NothingClearedYet(t, folder, exclude);
    } else {
      ClearedSoFar(t, folder, exclude, i - 1);
      ClearedNext(t, Cleared(t, folder, exclude, i - 1), folder, exclude, i - 1);
    }
  }

  lemma ClearedNext(was: Tree, t: Tree, folder: Id, exclude: set<Id>, i: nat)
    requires Consistent(was) && folder in was.kids && i < |was.kids[folder]| && ClearedUpTo(was, t, folder, exclude, i)
    ensures ClearedUpTo(was, WithoutChild(t, was.kids[folder][i], exclude), folder, exclude, i + 1)
  {
    if was.kids[folder][i] in exclude { ExcludedStep(was, t, folder, exclude, i); } else { RemovedStep(was, t, folder, exclude, i); }
  }

  lemma EmptiedTree(c: Client, tail: seq<Id>)
    requires Refillable(c, tail)
    ensures var t := Emptied(c, Elements(tail)).tree;
            && Consistent(t) && c.root in t.parent && t.parent[c.root] == None && c.root in t.kids && t.kids[c.root] == tail
            && TailNamed(tail, t.caption) && t.parent.Keys <= c.tree.parent.Keys
  {
    var children := c.tree.kids[c.root];
    var n := |children|;
    ClearedSoFar(c.tree, c.root, Elements(tail), n);
    assert children[..n] == children && children[n..] == [];
    RootStays(c.tree, c.root, Elements(tail));
    TailStays(Cleared(c.tree, c.root, Elements(tail), n), c.tree, c.root, tail);
  }

  lemma RootStays(t: Tree, root: Id, exclude: set<Id>)
    requires Consistent(t) && root in t.parent && t.parent[root] == None && root in t.kids
    ensures root !in Doomed(t.parent, t.kids[root], exclude)
  {
    forall x | x in t.kids[root] ensures !Reaches(t.parent, root, x) {
      ReachesStep(t.parent, root, x);
    }
  }

  lemma TailStays(t: Tree, was: Tree, root: Id, tail: seq<Id>)
    requires Consistent(t) && root in t.kids && t.kids[root] == tail && TailNamed(tail, was.caption)
    requires forall x | x in t.caption :: x in was.caption && t.caption[x] == was.caption[x]
    ensures TailNamed(tail, t.caption)
  {
    forall x | x in tail ensures x in t.caption {
      assert x in t.kids[root];
    }
  }

  lemma EmptiedMaps(c: Client, tail: seq<Id>)
    requires Refillable(c, tail)
    ensures var d := Emptied(c, Elements(tail)); (forall b :: b !in d.chromeOf) && (forall x :: x !in d.backendOf) && d.root == c.root
  {
    var gone := Doomed(c.tree.parent, c.tree.kids[c.root], Elements(tail));
    forall b ensures b !in Forget(c, gone) {
      if b in c.chromeOf { assert c.chromeOf[b] in gone && c.backendOf[c.chromeOf[b]] == b; }
    }
  }

  // What the server sends, and the forest it shows.
  ghost predicate Sends(nodes: seq<FolderNode>, sent: View) {
    DenseNodes(nodes) && Distinct(AllIds(nodes)) && exists blank :: NoNodes(blank) && sent == WithFolders(blank, None, nodes)
  }

  lemma FilledPictures(c: Client, nodes: seq<FolderNode>, sent: View, tail: seq<Id>, next: Id)
    requires Sends(nodes, sent) && Consistent(c.tree) && c.root in c.tree.parent && c.tree.parent[c.root] == None
    requires c.root in c.tree.kids && c.tree.kids[c.root] == tail && TailNamed(tail, c.tree.caption)
    requires (forall b :: b !in c.chromeOf) && (forall x :: x !in c.backendOf) && forall x | x in c.tree.parent :: x < next
    ensures var r := PlaceFolders(c, c.root, nodes, next); r.Ok? && Picture(sent, r.value.0, tail)
  {
    var blank :| NoNodes(blank) && sent == WithFolders(blank, None, nodes);
    assert c.chromeOf.Keys == {} && c.backendOf.Keys == {};
    ClearedIsSound(blank, c, next);
    RebuildPicturesTree(blank, c, tail, next, nodes);
    PictureIs(sent, PlaceFolders(c, c.root, nodes, next).value.0, tail);
  }

  /** However the tree stood, with everything mapped below the workspace folder: a recovery anchored there leaves a
      picture of the tree the server sent. */
  lemma RefillPictures(c: Client, e: Event, nodes: seq<FolderNode>, sent: View, tail: seq<Id>, next: Id)
    requires e.Upsert? && c.root in c.tree.kids && Refillable(Disowned(c, e), tail) && Sends(nodes, sent)
    requires forall x | x in c.tree.parent :: x < next
    ensures var r := Refilled(c, e, nodes, tail, next); r.Ok? && Picture(sent, r.value.0, tail)
  {
    var d := Disowned(c, e);
    EmptiedTree(d, tail);
    EmptiedMaps(d, tail);
    FilledPictures(Emptied(d, Elements(tail)), nodes, sent, tail, next);
  }

  // ---------- from a picture ----------

  lemma {:induction false} SparedEnd(a: seq<Id>, b: seq<Id>, exclude: set<Id>)
    requires (forall x | x in a :: x !in exclude) && (forall x | x in b :: x in exclude)
    ensures Spared(a + b, exclude) == b
    decreases |a| + |b|
  {
    if b != [] {
      var n := |b| - 1;
      assert (a + b)[..|a + b| - 1] == a + b[..n] && (a + b)[|a + b| - 1] == b[n] && b == b[..n] + [b[n]];
      SparedEnd(a, b[..n], exclude);
    } else if a != [] {
      var n := |a| - 1;
      assert (a + b)[..|a + b| - 1] == a[..n] + [] && (a + b)[|a + b| - 1] == a[n];
      SparedEnd(a[..n], [], exclude);
    }
  }

  // Every node lies below one at the top.
  lemma {:induction false} TopOf(p: Parents, r: map<Id, nat>, x: Id) returns (y: Id)
    requires Ranked(p, r) && x in p && forall b | b in p && p[b].Some? :: p[b].value in p
    ensures y in p && p[y] == None && Reaches(p, x, y)
    decreases r[x]
  {
    if p[x].None? {
      y := x;
      assert Up(p, x, 0) == Some(x);
    } else {
      y := TopOf(p, r, p[x].value);
      ReachesStep(p, x, y);
    }
  }

  lemma MappedIsDoomed(v: View, c: Client, tail: seq<Id>, x: Id)
    requires Picture(v, c, tail) && x in c.backendOf
    ensures c.root in c.tree.kids && x in Doomed(c.tree.parent, c.tree.kids[c.root], Elements(tail))
  {
    PictureIs(v, c, tail);
    var b := c.backendOf[x];
    var r: map<Id, nat> :| Ranked(v.parent, r);
    var top := TopOf(v.parent, r, b);
    NodePictured(v, c, tail, b);
    SubtreePictured(v, c, tail, top, b);
    ListPictured(v, c, tail, None);
    TopIsChild(v, c, tail, top);
  }

  lemma TopIsChild(v: View, c: Client, tail: seq<Id>, top: Id)
    requires Picture(v, c, tail) && top in v.parent && v.parent[top] == None
    ensures var y := Lookup(c.chromeOf, top);
            c.root in c.tree.kids && y !in tail && exists i :: 0 <= i < |c.tree.kids[c.root]| && c.tree.kids[c.root][i] == y
  {
    TopIsListed(v, c, tail, top);
    ListPictured(v, c, tail, None);
    var i :| 0 <= i < |v.kids[None]| && v.kids[None][i] == top;
    assert c.tree.kids[c.root][i] == Lookup(c.chromeOf, top);
  }

  lemma TopIsListed(v: View, c: Client, tail: seq<Id>, top: Id)
    requires Picture(v, c, tail) && top in v.parent && v.parent[top] == None
    ensures None in v.kids && top in v.kids[None] && Lookup(c.chromeOf, top) !in tail
  {
    PictureIs(v, c, tail);
  }

  lemma InvalidatedPairs(c: Client, id: Id, parent: Option<Id>)
    requires Inverse(c.chromeOf, c.backendOf)
    ensures var d := Invalidated(c, id, parent);
            && d.tree == c.tree && d.root == c.root && d.backendOf.Keys <= c.backendOf.Keys && Inverse(d.chromeOf, d.backendOf)
            && (forall b | b in d.chromeOf :: b in c.chromeOf && c.chromeOf[b] in c.backendOf && (id in c.chromeOf ==> c.chromeOf[b] !in Subtree(c.tree.parent, c.chromeOf[id])))
  {
    var d := Invalidated(c, id, parent);
    forall b | b in d.chromeOf ensures id in c.chromeOf ==> c.chromeOf[b] !in Subtree(c.tree.parent, c.chromeOf[id]) + {c.chromeOf[id]} {
      assert c.backendOf[c.chromeOf[b]] == b;
    }
  }

  // A recovery first forgets the node, what hangs below it, and its parent if and only if that is not there.
  lemma DisownedIs(c: Client, e: Event, b: Id)
    requires e.Upsert?
    requires forall b | b in c.chromeOf :: c.chromeOf[b] in c.backendOf && c.backendOf[c.chromeOf[b]] == b
    requires forall x | x in c.backendOf :: c.backendOf[x] in c.chromeOf && c.chromeOf[c.backendOf[x]] == x
    requires c.root in c.tree.parent
    ensures var d := Disowned(c, e);
            && d.tree == c.tree && d.root == c.root
            && (b in d.chromeOf <==> && b in c.chromeOf && b != e.id && !(Some(b) == e.parent && c.chromeOf[b] !in c.tree.parent)
                                     && !(e.id in c.chromeOf && Reaches(c.tree.parent, c.chromeOf[b], c.chromeOf[e.id])))
            && (b in d.chromeOf ==> d.chromeOf[b] == c.chromeOf[b])
            && (b in c.chromeOf ==> (c.chromeOf[b] in d.backendOf <==> b in d.chromeOf))
  {
    var place := PlaceOf(c, e.parent);
    InvalidatedIs(c, e.id, if place.None? || place.value !in c.tree.parent then e.parent else None, b);
  }

  lemma MappingPictured(v: View, c: Client, tail: seq<Id>)
    requires Picture(v, c, tail)
    ensures c.chromeOf.Keys == v.parent.Keys && Inverse(c.chromeOf, c.backendOf)
  {
    PictureIs(v, c, tail);
  }

  lemma BelowPictured(v: View, c: Client, tail: seq<Id>, id: Id, b: Id)
    requires Picture(v, c, tail) && id in v.parent && b in v.parent
    ensures id in c.chromeOf && b in c.chromeOf && (Reaches(v.parent, b, id) ==> c.chromeOf[b] in Subtree(c.tree.parent, c.chromeOf[id]))
  {
    PictureIs(v, c, tail);
    SubtreePictured(v, c, tail, id, b);
  }

  lemma DisownedPairs(v: View, c: Client, tail: seq<Id>, e: Event)
    requires Picture(v, c, tail) && e.Upsert?
    ensures var d := Disowned(c, e);
            && d.tree == c.tree && d.root == c.root && d.backendOf.Keys <= c.backendOf.Keys && Inverse(d.chromeOf, d.backendOf)
            && (forall b | b in d.chromeOf :: b in v.parent && (e.id in v.parent ==> !Reaches(v.parent, b, e.id)))
  {
    MappingPictured(v, c, tail);
    var place := PlaceOf(c, e.parent);
    InvalidatedPairs(c, e.id, if place.None? || place.value !in c.tree.parent then e.parent else None);
    forall b | b in Disowned(c, e).chromeOf && e.id in v.parent ensures !Reaches(v.parent, b, e.id) {
      BelowPictured(v, c, tail, e.id, b);
    }
  }

  lemma PictureIsRefillable(v: View, c: Client, tail: seq<Id>, e: Event)
    requires Picture(v, c, tail) && e.Upsert?
    ensures Refillable(Disowned(c, e), tail)
  {
    DisownedPairs(v, c, tail, e);
    SparedInPicture(v, c, tail);
    forall x | x in c.backendOf ensures x in Doomed(c.tree.parent, c.tree.kids[c.root], Elements(tail)) {
      MappedIsDoomed(v, c, tail, x);
    }
  }

  lemma SparedInPicture(v: View, c: Client, tail: seq<Id>)
    requires Picture(v, c, tail)
    ensures Consistent(c.tree) && c.root in c.tree.parent && c.tree.parent[c.root] == None && c.root in c.tree.kids && TailNamed(tail, c.tree.caption)
    ensures Spared(c.tree.kids[c.root], Elements(tail)) == tail
  {
    PictureIs(v, c, tail);
    var front := Image(c.chromeOf, v.kids[None]);
    assert At(c.chromeOf, c.root, None) == c.root;
    forall y | y in front ensures y !in Elements(tail) {
      var i :| 0 <= i < |front| && front[i] == y;
      assert v.kids[None][i] in v.kids[None];
    }
    SparedEnd(front, tail, Elements(tail));
  }

  // Whether the recovery ends at the workspace folder, told from the forest.
  ghost predicate RootAnchored(v: View, sent: View, e: Event)
    requires e.Upsert?
  {
    forall y | y in sent.parent && y in sent.caption && sent.caption[y].FolderLabel? && OnTheWay(sent, e, y) && y in v.parent ::
      e.id in v.parent && Reaches(v.parent, y, e.id)
  }

  lemma AnchorIsRoot(v: View, c: Client, tail: seq<Id>, sent: View, e: Event)
    requires Picture(v, c, tail) && e.Upsert? && RootAnchored(v, sent, e)
    ensures !AnchoredBelow(Disowned(c, e), sent, e)
  {
    DisownedPairs(v, c, tail, e);
  }

  // It does, under a parent the server no longer has, for every bookmark, and for every folder that has gone from
  // the server too or stands at the top there.
  lemma GoneParentIsRootAnchored(v: View, sent: View, e: Event)
    requires e.Upsert? && e.parent.Some? && e.parent.value !in sent.parent
    requires e.caption.FolderLabel? && e.id in sent.parent ==> sent.parent[e.id].None?
    ensures RootAnchored(v, sent, e)
  {
    forall y | y in sent.parent && OnTheWay(sent, e, y) ensures y == e.id {
      ReachesStep(sent.parent, e.parent.value, y);
      ReachesStep(sent.parent, e.id, y);
    }
    assert Up(v.parent, e.id, 0) == Some(e.id);
  }
}
