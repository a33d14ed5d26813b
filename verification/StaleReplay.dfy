/** Old events: what becomes of an event that was recorded for another forest than the one it meets. It may
    already have happened, no longer fit, put a node back where it once was, or name a parent that is gone. */
module StaleReplay {
  import opened Common
  import opened Ancestry
  import opened ForestView
  import opened ChromeTree
  import opened Replay
  import opened GatedReplay
  import opened Overlay
  import Clearing
  import Rebuild

  // The forest has the place the event names, and it does not lie below the node itself.
  ghost predicate Takes(v: View, e: Event) {
    && Applicable(v, e)
    && (e.Upsert? && e.id in v.parent && e.parent.Some? ==> !Reaches(v.parent, e.parent.value, e.id))
  }

  // The removal of a node that is not there: nothing is done.
  ghost predicate Skipped(v: View, e: Event) {
    e.Removal? && e.id !in v.parent
  }

  // The parent an upsert names is not there.
  ghost predicate Homeless(v: View, e: Event) {
    e.Upsert? && e.parent.Some? && e.parent.value !in v.parent
  }

  ghost predicate FitsIn(v: View, e: Event) {
    Takes(v, e) || Skipped(v, e)
  }

  // The forest after one entry of the log, where it fits.
  ghost function Forward(v: View, entry: Option<Event>): View {
    if entry.Some? && Takes(v, entry.value) then ApplyEvent(v, entry.value) else v
  }

  // Chrome will not have it: an index out of range of the list with the user's own nodes behind it, or a parent
  // below the node.
  ghost predicate Refusable(v: View, e: Event, tail: seq<Id>) {
    && e.Upsert? && e.parent in v.kids
    && (|| !(0 <= e.position <= |Without(v.kids[e.parent], e.id)| + |TailAt(e.parent, tail)|)
        || (e.id in v.parent && e.parent.Some? && Reaches(v.parent, e.parent.value, e.id)))
  }

  // No sibling has the title the event brings.
  ghost predicate NewTitle(v: View, e: Event) {
    e.Upsert? && e.id !in v.parent && e.parent in v.kids ==>
      && (forall b | b in v.kids[e.parent] :: b in v.caption && v.caption[b] != e.caption)
      && (e.parent.None? ==> e.caption != FolderLabel(LOCAL_ONLY_FOLDER_TITLE))
  }

  // There are no twins, the event does not fall among the user's own nodes at the end of the root, and what is
  // removed is removed from a place that is there.
  ghost predicate Undisputed(v: View, e: Event, tail: seq<Id>) {
    && (FitsIn(v, e) || Refusable(v, e, tail))
    && (if Takes(v, e) then NoTwins(ApplyEvent(v, e)) else NewTitle(v, e))
  }

  // ---------- the forests stay forests ----------

  lemma ListsTakenOut(parent: Parents, kids: imap<Option<Id>, seq<Id>>, id: Id)
    requires NodesListed(parent, kids) && ListsOwn(parent, kids) && id in parent
    ensures var rest := kids[parent[id] := Without(kids[parent[id]], id)];
            NodesListed(parent - {id}, rest) && ListsOwn(parent - {id}, rest)
  {
    assert parent[id] in kids;
    WithoutDistinct(kids[parent[id]], id);
  }

  lemma MoveKeepsGood(v: View, id: Id, parent: Option<Id>, caption: Label, position: int)
    requires GoodView(v) && Movable(v, id, parent, position) && (parent.Some? ==> !Reaches(v.parent, parent.value, id))
    ensures GoodView(MoveNode(v, id, parent, caption, position))
  {
    MovingKeepsAcyclicIff(v.parent, id, parent);
    ListsTakenOut(v.parent, v.kids, id);
    MovedLists(v.parent, Detach(v, id), id, parent, position);
  }

  lemma MovedLists(p: Parents, rest: imap<Option<Id>, seq<Id>>, id: Id, parent: Option<Id>, position: nat)
    requires NodesListed(p - {id}, rest) && ListsOwn(p - {id}, rest) && id in p && parent in rest && position <= |rest[parent]|
    ensures var l := rest[parent := Inserted(rest[parent], id, position)]; NodesListed(p[id := parent], l) && ListsOwn(p[id := parent], l)
  {
    Rebuild.ListedChild(p - {id}, rest, parent, id, position);
    assert (p - {id})[id := parent] == p[id := parent];
  }

  // Without a set of nodes that is closed below, apart from the one already taken out.
  lemma ListsCutDown(p: Parents, rest: imap<Option<Id>, seq<Id>>, id: Id, gone: set<Id>)
    requires NodesListed(p - {id}, rest) && ListsOwn(p - {id}, rest) && id in gone
    requires forall x {:trigger p[x]} | x in p && x != id :: x in gone <==> p[x].Some? && p[x].value in gone
    ensures var l := imap k | k in rest && (k.None? || k.value !in gone) :: rest[k];
            NodesListed(p - gone, l) && ListsOwn(p - gone, l)
  {
    var l := imap k | k in rest && (k.None? || k.value !in gone) :: rest[k];
    forall b | b in p - gone ensures p[b] in l && b in l[p[b]] {
      assert b in p - {id} && (p - {id})[b] == p[b];
    }
    forall k, b | k in l && b in l[k] ensures b in p - gone && p[b] == k {
      assert b in rest[k] && b in p - {id} && (p - {id})[b] == k;
    }
  }

  lemma CutLists(v: View, id: Id)
    requires GoodView(v) && id in v.parent && v.parent[id] in v.kids
    ensures var w := RemoveNode(v, id); NodesListed(w.parent, w.kids) && ListsOwn(w.parent, w.kids)
  {
    var gone := Subtree(v.parent, id);
    assert Up(v.parent, id, 0) == Some(id);
    forall x | x in v.parent && x != id ensures x in gone <==> v.parent[x].Some? && v.parent[x].value in gone {
      ReachesStep(v.parent, x, id);
    }
    ListsTakenOut(v.parent, v.kids, id);
    ListsCutDown(v.parent, Detach(v, id), id, gone);
  }

  lemma RemoveKeepsGood(v: View, id: Id)
    requires GoodView(v) && id in v.parent && v.parent[id] in v.kids
    ensures GoodView(RemoveNode(v, id))
  {
    DroppingKeepsAcyclic(v.parent, Subtree(v.parent, id));
    CutLists(v, id);
  }

  lemma TakenIsGood(v: View, e: Event)
    requires Good(v) && Takes(v, e)
    ensures Good(ApplyEvent(v, e))
  {
    GoodIs(v);
    GoodIs(ApplyEvent(v, e));
    match e
    case Upsert(id, parent, position, caption) =>
      if id in v.parent {
        MoveKeepsGood(v, id, parent, caption, position);
      } else {
        Rebuild.InsertKeepsGood(v, id, parent, position, caption);
      }
    case Removal(id, _) => RemoveKeepsGood(v, id);
  }

  lemma TakenKeepsLists(v: View, e: Event)
    requires FoldersHaveLists(v) && v.caption.Keys == v.parent.Keys && Takes(v, e)
    requires e.Upsert? && e.id in v.caption ==> v.caption[e.id].FolderLabel? == e.caption.FolderLabel?
    ensures FoldersHaveLists(ApplyEvent(v, e))
  {
  }

  // Kinds are given once and for all: folders are the ids of folders.
  ghost predicate Kinded(v: View, folders: set<Id>) {
    forall x | x in v.caption :: v.caption[x].FolderLabel? <==> x in folders
  }

  ghost predicate EntryKinded(entry: Option<Event>, folders: set<Id>) {
    entry.Some? && entry.value.Upsert? ==> (entry.value.caption.FolderLabel? <==> entry.value.id in folders)
  }

  lemma ForwardKinded(v: View, entry: Option<Event>, folders: set<Id>)
    requires Kinded(v, folders) && EntryKinded(entry, folders)
    ensures Kinded(Forward(v, entry), folders)
  {
  }

  // ---------- a tree is a picture of one forest only ----------

  lemma ImageDecides(m: map<Id, Id>, a: seq<Id>, b: seq<Id>, rest: seq<Id>)
    requires Image(m, a) + rest == Image(m, b) + rest
    requires forall x, y {:trigger Lookup(m, x), Lookup(m, y)} | x in a && y in b && Lookup(m, x) == Lookup(m, y) :: x == y
    ensures a == b
  {
    assert |Image(m, a) + rest| == |Image(m, b) + rest|;
    forall i | 0 <= i < |a| ensures a[i] == b[i] {
      assert (Image(m, a) + rest)[i] == Lookup(m, a[i]) && (Image(m, b) + rest)[i] == Lookup(m, b[i]);
    }
  }

  // Mapped nodes are told apart.
  lemma ToldApart(v: View, c: Client, tail: seq<Id>)
    requires Picture(v, c, tail)
    ensures forall x, y {:trigger Lookup(c.chromeOf, x), Lookup(c.chromeOf, y)} | x in v.parent && y in v.parent && Lookup(c.chromeOf, x) == Lookup(c.chromeOf, y) :: x == y
    ensures forall x | x in v.parent :: Lookup(c.chromeOf, x) != c.root
  {
    PictureIs(v, c, tail);
  }

  lemma ListPictured(v: View, c: Client, tail: seq<Id>, k: Option<Id>)
    requires Picture(v, c, tail) && k in v.kids
    ensures At(c.chromeOf, c.root, k) in c.tree.kids && c.tree.kids[At(c.chromeOf, c.root, k)] == Image(c.chromeOf, v.kids[k]) + TailAt(k, tail)
    ensures forall x | x in v.kids[k] :: x in v.parent
  {
    PictureIs(v, c, tail);
  }

  lemma NodePictured(v: View, c: Client, tail: seq<Id>, x: Id)
    requires Picture(v, c, tail) && x in v.parent
    ensures var y := Lookup(c.chromeOf, x);
            && y in c.tree.parent && c.tree.parent[y] == Some(At(c.chromeOf, c.root, v.parent[x])) && (v.parent[x].Some? ==> v.parent[x].value in v.parent)
            && x in v.caption && y in c.tree.caption && c.tree.caption[y] == v.caption[x]
  {
    PictureIs(v, c, tail);
  }

  lemma SameNode(v: View, w: View, c: Client, tail: seq<Id>, x: Id)
    requires Picture(v, c, tail) && Picture(w, c, tail) && x in v.parent
    ensures x in w.parent && v.parent[x] == w.parent[x] && x in v.caption && x in w.caption && v.caption[x] == w.caption[x]
  {
    PictureKeys(v, c, tail);
    PictureKeys(w, c, tail);
    NodePictured(v, c, tail, x);
    NodePictured(w, c, tail, x);
    ToldApart(v, c, tail);
  }

  lemma SameList(v: View, w: View, c: Client, tail: seq<Id>, k: Option<Id>)
    requires Picture(v, c, tail) && Picture(w, c, tail) && k in v.kids && k in w.kids
    ensures v.kids[k] == w.kids[k]
  {
    ListPictured(v, c, tail, k);
    ListPictured(w, c, tail, k);
    PictureKeys(v, c, tail);
    PictureKeys(w, c, tail);
    ToldApart(v, c, tail);
    ImageDecides(c.chromeOf, v.kids[k], w.kids[k], TailAt(k, tail));
  }

  lemma PictureDecides(v: View, w: View, c: Client, tail: seq<Id>)
    requires Picture(v, c, tail) && FoldersHaveLists(v) && FoldersHaveLists(w) && Good(v) && Good(w)
    ensures Picture(w, c, tail) <==> v == w
  {
    if Picture(w, c, tail) {
      PictureKeys(v, c, tail);
      PictureKeys(w, c, tail);
      GoodParents(v);
      GoodParents(w);
      forall x | x in v.parent ensures v.parent[x] == w.parent[x] && v.caption[x] == w.caption[x] {
        SameNode(v, w, c, tail, x);
      }
      SameViews(v, w, c, tail);
    }
  }

  lemma SameViews(v: View, w: View, c: Client, tail: seq<Id>)
    requires Picture(v, c, tail) && Picture(w, c, tail) && FoldersHaveLists(v) && FoldersHaveLists(w)
    requires v.caption == w.caption && v.parent == w.parent && None in v.kids && None in w.kids
    ensures v == w
  {
    forall k ensures k in v.kids <==> k in w.kids {
      if k.Some? { assert k == Some(k.value); }
    }
    forall k | k in v.kids ensures v.kids[k] == w.kids[k] {
      SameList(v, w, c, tail, k);
    }
    assert v.kids == w.kids;
  }

  // ---------- an event Chrome will not have ----------

  ghost predicate RefusedBy(c: Client, e: Event, newId: Id)
    requires Consistent(c.tree)
  {
    IsRefusal(ApplyToClient(c, e, newId))
  }

  // Chrome's refusal: neither too large nor a matter of recovery.
  ghost predicate IsRefusal(r: Result<Client, Failure>) {
    r.Err? && !r.error.TooManyMapped? && !r.error.NeedsRecovery?
  }

  lemma NoMatchHere(v: View, c: Client, tail: seq<Id>, e: Event)
    requires Sim(v, c, tail) && GoodView(v) && TailNamed(tail, c.tree.caption) && e.Upsert? && e.id !in v.parent && e.parent in v.kids && NewTitle(v, e)
    ensures Matches(c.tree, Siblings(c, e.parent), e.caption) == []
  {
    var matches := Matches(c.tree, Siblings(c, e.parent), e.caption);
    MatchesAreChildren(c.tree, Siblings(c, e.parent), e.caption);
    if matches != [] {
      PictureMember(c.chromeOf, v.kids[e.parent], TailAt(e.parent, tail), matches[0]);
    }
  }

  lemma NewRefused(v: View, c: Client, tail: seq<Id>, e: Event, newId: Id)
    requires Sim(v, c, tail) && GoodView(v) && TailNamed(tail, c.tree.caption) && e.Upsert? && e.id !in v.parent && NewTitle(v, e)
    requires Refusable(v, e, tail)
    ensures RefusedBy(c, e, newId)
  {
    var to := At(c.chromeOf, c.root, e.parent);
    NoMatchHere(v, c, tail, e);
    PlaceIsPictured(v, c, tail, e.parent);
    NewPlace(v, c, tail, e);
    CreateRefused(c, e, newId, to);
  }

  lemma NewPlace(v: View, c: Client, tail: seq<Id>, e: Event)
    requires Sim(v, c, tail) && GoodView(v) && e.Upsert? && e.id !in v.parent && e.parent in v.kids
    ensures e.id !in c.chromeOf && PlaceOf(c, e.parent) == Some(At(c.chromeOf, c.root, e.parent))
    ensures |Without(v.kids[e.parent], e.id)| == |v.kids[e.parent]|
  {
    WithoutDistinct(v.kids[e.parent], e.id);
  }

  lemma CreateRefused(c: Client, e: Event, newId: Id, to: Id)
    requires Consistent(c.tree) && e.Upsert? && e.id !in c.chromeOf && PlaceOf(c, e.parent) == Some(to) && to in c.tree.kids
    requires Matches(c.tree, Siblings(c, e.parent), e.caption) == [] && !(0 <= e.position <= |c.tree.kids[to]|)
    ensures RefusedBy(c, e, newId)
  {
  }

  // Where a known node stands in the tree, and how much room there is where it is to go.
  lemma KnownStands(v: View, c: Client, tail: seq<Id>, id: Id, k: Option<Id>)
    requires Sim(v, c, tail) && GoodView(v) && id in v.parent && k in v.kids
    ensures var x, to := Lookup(c.chromeOf, id), At(c.chromeOf, c.root, k);
            && id in c.chromeOf && c.chromeOf[id] == x && PlaceOf(c, k) == Some(to) && to in c.tree.kids
            && x in c.tree.parent && c.tree.parent[x].Some?
            && |Without(v.kids[k], id)| + |TailAt(k, tail)| == if c.tree.parent[x].value == to then |c.tree.kids[to]| - 1 else |c.tree.kids[to]|
  {
    NodeIsPictured(v, c, tail, id);
    PlacesDiffer(v, c, tail, v.parent[id], k);
    PlaceIsPictured(v, c, tail, k);
    LengthWithout(v, id, k);
  }

  lemma BelowInTree(v: View, c: Client, tail: seq<Id>, id: Id, y: Id)
    requires Sim(v, c, tail) && GoodView(v) && id in v.parent && y in v.parent && Reaches(v.parent, y, id)
    ensures Lookup(c.chromeOf, y) in Subtree(c.tree.parent, Lookup(c.chromeOf, id))
  {
    SubtreePictured(v, c, tail, id, y);
  }

  lemma KnownRefused(v: View, c: Client, tail: seq<Id>, e: Event, newId: Id)
    requires Sim(v, c, tail) && GoodView(v) && e.Upsert? && e.id in v.parent && Refusable(v, e, tail)
    ensures RefusedBy(c, e, newId)
  {
    var x, to := Lookup(c.chromeOf, e.id), At(c.chromeOf, c.root, e.parent);
    KnownStands(v, c, tail, e.id, e.parent);
    if e.parent.Some? && Reaches(v.parent, e.parent.value, e.id) {
      BelowInTree(v, c, tail, e.id, e.parent.value);
      IntoItselfRefused(c, x, to, e.caption, e.position);
    } else {
      OutOfRangeRefused(c, x, to, e.caption, e.position);
    }
    SettleRefused(c, e, newId, x, to);
  }

  lemma SettleRefused(c: Client, e: Event, newId: Id, x: Id, to: Id)
    requires Consistent(c.tree) && x in c.tree.parent && e.Upsert? && e.id in c.chromeOf && c.chromeOf[e.id] == x && PlaceOf(c, e.parent) == Some(to) && to in c.tree.kids
    requires IsRefusal(Settle(c, x, to, e.caption, e.position))
    ensures RefusedBy(c, e, newId)
  {
  }

  lemma LengthWithout(v: View, id: Id, k: Option<Id>)
    requires GoodView(v) && id in v.parent && k in v.kids
    ensures |Without(v.kids[k], id)| == if v.parent[id] == k then |v.kids[k]| - 1 else |v.kids[k]|
  {
    WithoutDistinct(v.kids[k], id);
  }

  lemma OutOfRangeRefused(c: Client, x: Id, to: Id, caption: Label, position: int)
    requires Consistent(c.tree) && x in c.tree.parent && c.tree.parent[x].Some? && to in c.tree.kids
    requires !(0 <= position <= if c.tree.parent[x].value == to then |c.tree.kids[to]| - 1 else |c.tree.kids[to]|)
    ensures IsRefusal(Settle(c, x, to, caption, position))
  {
    assert x in c.tree.kids[c.tree.parent[x].value];
  }

  lemma IntoItselfRefused(c: Client, x: Id, to: Id, caption: Label, position: int)
    requires Consistent(c.tree) && x in c.tree.parent && c.tree.parent[x].Some? && to in c.tree.kids && to in Subtree(c.tree.parent, x)
    ensures IsRefusal(Settle(c, x, to, caption, position))
  {
    if c.tree.parent[x].value == to {
      Clearing.ParentNotBelow(c.tree, to, x);
    }
  }

  lemma UpsertRefused(v: View, c: Client, tail: seq<Id>, e: Event, newId: Id)
    requires Picture(v, c, tail) && Refusable(v, e, tail) && NewTitle(v, e)
    ensures Consistent(c.tree) && RefusedBy(c, e, newId)
  {
    PictureIs(v, c, tail);
    if e.id in v.parent { KnownRefused(v, c, tail, e, newId); } else { NewRefused(v, c, tail, e, newId); }
  }
}
