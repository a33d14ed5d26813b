/** Replaying a history from its beginning onto a tree that already shows a later forest: what is replayed comes
    first in every list, what is still to come stays behind it. */
module Overlay {
  import opened Common
  import opened Ancestry
  import opened ForestView
  import opened Replay
  import opened GatedReplay

  // The ids of a list that are not known yet, in their order.
  function Later(l: seq<Id>, known: set<Id>): seq<Id> {
    if l == [] then [] else (if l[0] in known then [] else [l[0]]) + Later(l[1..], known)
  }

  type Lists = imap<Option<Id>, seq<Id>>

  ghost function ListIn(lists: Lists, k: Option<Id>): seq<Id> {
    if k in lists then lists[k] else []
  }

  // The lists of a, each followed by what the list of b has beyond the known ids.
  ghost function OverLists(a: Lists, b: Lists, known: set<Id>): Lists {
    imap k | k in a || k in b :: ListIn(a, k) + Later(ListIn(b, k), known)
  }

  ghost function Over<T>(a: map<Id, T>, b: map<Id, T>): map<Id, T> {
    map x | x in a.Keys + b.Keys :: if x in a then a[x] else b[x]
  }

  // v: the forest replayed so far; w: the later forest the tree was built from.
  ghost function Overlaid(v: View, w: View): View {
    View(Over(v.parent, w.parent), Over(v.caption, w.caption), OverLists(v.kids, w.kids, v.parent.Keys))
  }

  // Lists belong to folders, and to every folder.
  ghost predicate FoldersHaveLists(v: View) {
    forall x {:trigger Some(x) in v.kids} {:trigger v.caption[x]} :: Some(x) in v.kids <==> x in v.caption && v.caption[x].FolderLabel?
  }

  // A node keeps its kind.
  ghost predicate SameKinds(v: View, w: View) {
    forall x | x in v.caption && x in w.caption :: v.caption[x].FolderLabel? == w.caption[x].FolderLabel?
  }

  // What the later forest still has is not removed on the way.
  ghost predicate Outlives(v: View, next: View, w: View) {
    forall x | x in v.parent && x in w.parent :: x in next.parent
  }

  // ---------- lists ----------

  lemma {:induction false} LaterMembers(l: seq<Id>, known: set<Id>)
    ensures forall x :: x in Later(l, known) <==> x in l && x !in known
  {
    if l != [] {
      assert l == [l[0]] + l[1..];
      LaterMembers(l[1..], known);
    }
  }

  lemma {:induction false} LaterDistinct(l: seq<Id>, known: set<Id>)
    requires Distinct(l)
    ensures Distinct(Later(l, known))
  {
    if l != [] {
      LaterDistinct(l[1..], known);
      LaterMembers(l[1..], known);
    }
  }

  // One more id known is that id out of the list.
  lemma {:induction false} LaterKnows(l: seq<Id>, known: set<Id>, x: Id)
    ensures Later(l, known + {x}) == Without(Later(l, known), x)
  {
    if l != [] {
      LaterKnows(l[1..], known, x);
      WithoutConcat(if l[0] in known then [] else [l[0]], Later(l[1..], known), x);
    }
  }

  lemma {:induction false} LaterSame(l: seq<Id>, a: set<Id>, b: set<Id>)
    requires forall x | x in l :: x in a <==> x in b
    ensures Later(l, a) == Later(l, b)
  {
    if l != [] {
      assert l[0] in l && forall x | x in l[1..] :: x in l;
      LaterSame(l[1..], a, b);
    }
  }

  // ---------- the lists under one event ----------

  // Entering a list with a position among the ids replayed so far.
  lemma ListsEntered(a: Lists, b: Lists, known: set<Id>, id: Id, p: Option<Id>, at: nat)
    requires p in a && at <= |a[p]|
    ensures var o := OverLists(a, b, known); OverLists(a[p := Inserted(a[p], id, at)], b, known) == o[p := Inserted(o[p], id, at)]
  {
    var o := OverLists(a, b, known);
    var left, right := OverLists(a[p := Inserted(a[p], id, at)], b, known), o[p := Inserted(o[p], id, at)];
    InsertedInFront(a[p], Later(ListIn(b, p), known), id, at);
    forall k ensures k in left <==> k in right {
    }
    forall k | k in left ensures left[k] == right[k] {
    }
  }

  // Leaving a list of the ids replayed so far.
  lemma ListsLeft(a: Lists, b: Lists, known: set<Id>, id: Id, q: Option<Id>)
    requires q in a && id in known
    ensures var o := OverLists(a, b, known); OverLists(a[q := Without(a[q], id)], b, known) == o[q := Without(o[q], id)]
  {
    var o := OverLists(a, b, known);
    var left, right := OverLists(a[q := Without(a[q], id)], b, known), o[q := Without(o[q], id)];
    ListLeft(a[q], ListIn(b, q), known, id);
    forall k ensures k in left <==> k in right {
    }
    forall k | k in left ensures left[k] == right[k] {
      assert right[k] == if k == q then Without(o[q], id) else o[k];
    }
  }

  lemma ListLeft(a: seq<Id>, b: seq<Id>, known: set<Id>, id: Id)
    requires id in known
    ensures Without(a, id) + Later(b, known) == Without(a + Later(b, known), id)
  {
    LaterMembers(b, known);
    WithoutConcat(a, Later(b, known), id);
  }

  // An id becomes known that stands in one list only, among those still to come, or in none.
  lemma ListsKnown(a: Lists, b: Lists, known: set<Id>, id: Id, q: Option<Id>)
    requires forall k | k in a :: id !in a[k]
    requires forall k | k in b && k != q :: id !in b[k]
    requires q in a || q in b
    ensures var o := OverLists(a, b, known); OverLists(a, b, known + {id}) == o[q := Without(o[q], id)]
  {
    var o := OverLists(a, b, known);
    var left, right := OverLists(a, b, known + {id}), o[q := Without(o[q], id)];
    forall k ensures k in left <==> k in right {
    }
    forall k | k in left ensures left[k] == right[k] {
      ListKnown(ListIn(a, k), ListIn(b, k), known, id);
      if k == q { assert right[k] == Without(o[q], id); } else { assert right[k] == o[k]; }
    }
  }

  lemma ListKnown(a: seq<Id>, b: seq<Id>, known: set<Id>, id: Id)
    requires id !in a
    ensures a + Later(b, known + {id}) == Without(a + Later(b, known), id)
    ensures id !in b ==> a + Later(b, known + {id}) == a + Later(b, known)
  {
    LaterKnows(b, known, id);
    LaterMembers(b, known);
    WithoutConcat(a, Later(b, known), id);
  }

  // A new folder's list.
  lemma ListsOpened(a: Lists, b: Lists, known: set<Id>, id: Id)
    requires Some(id) !in a
    ensures var o := OverLists(a, b, known);
            OverLists(a[Some(id) := []], b, known) == if Some(id) in b then o else o[Some(id) := []]
  {
    var o := OverLists(a, b, known);
    var left, right := OverLists(a[Some(id) := []], b, known), if Some(id) in b then o else o[Some(id) := []];
    forall k ensures k in left <==> k in right {
    }
    forall k | k in left ensures left[k] == right[k] {
    }
  }

  lemma ListKept(b: seq<Id>, known: set<Id>, gone: set<Id>)
    requires forall x | x in b :: x !in gone
    ensures Later(b, known - gone) == Later(b, known)
  {
    LaterSame(b, known - gone, known);
  }

  // A subtree of the ids replayed so far goes, and nothing of it is still to come.
  lemma ListsDropped(a: Lists, b: Lists, known: set<Id>, gone: set<Id>)
    requires forall x, k | k in b && x in b[k] :: x !in gone
    requires forall x | x in gone :: Some(x) !in b
    ensures var o := OverLists(a, b, known);
            OverLists(imap k | k in a && (k.None? || k.value !in gone) :: a[k], b, known - gone) == imap k | k in o && (k.None? || k.value !in gone) :: o[k]
  {
    var o := OverLists(a, b, known);
    var cut := imap k | k in a && (k.None? || k.value !in gone) :: a[k];
    var left, right := OverLists(cut, b, known - gone), imap k | k in o && (k.None? || k.value !in gone) :: o[k];
    forall k ensures k in left <==> k in right {
      if k.Some? && k.value in gone { assert Some(k.value) !in b; }
    }
    forall k | k in left ensures left[k] == right[k] {
      ListDropped(ListIn(b, k), b, known, gone, k);
      assert left[k] == ListIn(cut, k) + Later(ListIn(b, k), known - gone) && right[k] == ListIn(a, k) + Later(ListIn(b, k), known);
    }
  }

  lemma ListDropped(l: seq<Id>, b: Lists, known: set<Id>, gone: set<Id>, k: Option<Id>)
    requires l == ListIn(b, k) && forall x, k | k in b && x in b[k] :: x !in gone
    ensures Later(l, known - gone) == Later(l, known)
  {
    ListKept(l, known, gone);
  }

  lemma ListRewritten(o: Lists, q: Option<Id>, id: Id)
    requires q in o && id !in o[q]
    ensures o[q := Without(o[q], id)] == o
  {
  }

  // ---------- one event ----------

  // What one event of the history must be for the overlay to follow it.
  ghost predicate Fits(v: View, e: Event, next: View, w: View) {
    && Good(v) && Good(w) && FoldersHaveLists(w)
    && Applicable(v, e) && next == ApplyEvent(v, e)
    && SameKinds(next, w) && Outlives(v, next, w)
  }

  // A node is listed under its parent, and nowhere else.
  lemma Listed(v: View, id: Id)
    requires Good(v)
    ensures forall k | k in v.kids && id in v.kids[k] :: id in v.parent && v.parent[id] == k
    ensures id in v.parent ==> v.parent[id] in v.kids && id in v.kids[v.parent[id]]
    ensures id !in v.parent ==> Some(id) !in v.kids
    ensures v.caption.Keys == v.parent.Keys
  {
    GoodIs(v);
  }

  lemma OverPut<T>(a: map<Id, T>, b: map<Id, T>, id: Id, t: T)
    ensures Over(a[id := t], b) == Over(a, b)[id := t]
  {
  }

  lemma OverDropped<T>(a: map<Id, T>, b: map<Id, T>, gone: set<Id>)
    requires forall x | x in gone :: x !in b
    ensures Over(a - gone, b) == Over(a, b) - gone
  {
  }

  lemma KeysPut<T>(a: map<Id, T>, id: Id, t: T)
    ensures a[id := t].Keys == a.Keys + {id}
  {
  }

  // A node new in both forests.
  lemma NewOutside(v: View, e: Event, next: View, w: View)
    requires Fits(v, e, next, w) && e.Upsert? && e.id !in v.parent && e.id !in w.parent
    ensures Applicable(Overlaid(v, w), e) && ApplyEvent(Overlaid(v, w), e) == Overlaid(next, w)
  {
    var o := Overlaid(v, w);
    var known := v.parent.Keys;
    Listed(v, e.id);
    Listed(w, e.id);
    OverPut(v.parent, w.parent, e.id, e.parent);
    OverPut(v.caption, w.caption, e.id, e.caption);
    KeysPut(v.parent, e.id, e.parent);
    ListsKnown(v.kids, w.kids, known, e.id, e.parent);
    LaterMembers(ListIn(w.kids, e.parent), known);
    ListRewritten(o.kids, e.parent, e.id);
    ListsEntered(v.kids, w.kids, known + {e.id}, e.id, e.parent, e.position);
    if e.caption.FolderLabel? {
      ListsOpened(v.kids[e.parent := Inserted(v.kids[e.parent], e.id, e.position)], w.kids, known + {e.id}, e.id);
    }
  }

  // A node of the later forest whose time has come: it is moved from where it waits.
  lemma NewInside(v: View, e: Event, next: View, w: View)
    requires Fits(v, e, next, w) && e.Upsert? && e.id !in v.parent && e.id in w.parent
    ensures Applicable(Overlaid(v, w), e) && ApplyEvent(Overlaid(v, w), e) == Overlaid(next, w)
  {
    var o := Overlaid(v, w);
    var known, q := v.parent.Keys, w.parent[e.id];
    Listed(v, e.id);
    Listed(w, e.id);
    OverPut(v.parent, w.parent, e.id, e.parent);
    OverPut(v.caption, w.caption, e.id, e.caption);
    KeysPut(v.parent, e.id, e.parent);
    ListsKnown(v.kids, w.kids, known, e.id, q);
    ListsEntered(v.kids, w.kids, known + {e.id}, e.id, e.parent, e.position);
    assert next.caption[e.id] == e.caption;
    if e.caption.FolderLabel? {
      assert Some(e.id) in w.kids;
      ListsOpened(v.kids[e.parent := Inserted(v.kids[e.parent], e.id, e.position)], w.kids, known + {e.id}, e.id);
    }
  }

  // A node both replayed and still there: as in the forest itself.
  lemma Known(v: View, e: Event, next: View, w: View)
    requires Fits(v, e, next, w) && e.Upsert? && e.id in v.parent
    ensures Applicable(Overlaid(v, w), e) && ApplyEvent(Overlaid(v, w), e) == Overlaid(next, w)
  {
    var q := v.parent[e.id];
    Listed(v, e.id);
    OverPut(v.parent, w.parent, e.id, e.parent);
    OverPut(v.caption, w.caption, e.id, e.caption);
    KeysPut(v.parent, e.id, e.parent);
    assert next.parent.Keys == v.parent.Keys;
    ListsLeft(v.kids, w.kids, v.parent.Keys, e.id, q);
    ListsEntered(Detach(v, e.id), w.kids, v.parent.Keys, e.id, e.parent, e.position);
  }

  // Nothing that is still to come hangs below a removed node.
  lemma {:induction false} NothingWaitsBelow(v: View, w: View, id: Id, x: Id, n: nat)
    requires Good(v) && Good(w) && id in v.parent
    requires forall y | y in Subtree(v.parent, id) :: y !in w.parent
    requires x in Overlaid(v, w).parent && Up(Overlaid(v, w).parent, x, n) == Some(id)
    ensures x in v.parent && Up(v.parent, x, n) == Some(id)
    decreases n
  {
    var o := Overlaid(v, w).parent;
    if n > 0 {
      assert o[x].Some?;
      var y := o[x].value;
      ParentsAreNodes(v, w, x);
      NothingWaitsBelow(v, w, id, y, n - 1);
      assert y in Subtree(v.parent, id);
      if x !in v.parent { ParentOf(w, x); }
    }
  }

  lemma ParentOf(v: View, x: Id)
    requires Good(v) && x in v.parent && v.parent[x].Some?
    ensures v.parent[x].value in v.parent
  {
    GoodIs(v);
    assert v.parent[x] in v.kids;
  }

  lemma ParentsAreNodes(v: View, w: View, x: Id)
    requires Good(v) && Good(w) && x in Overlaid(v, w).parent && Overlaid(v, w).parent[x].Some?
    ensures Overlaid(v, w).parent[x].value in Overlaid(v, w).parent
  {
    if x in v.parent { ParentOf(v, x); } else { ParentOf(w, x); }
  }

  lemma {:induction false} SameClimbOver(v: View, w: View, x: Id, n: nat)
    requires Good(v) && x in v.parent
    ensures Up(Overlaid(v, w).parent, x, n) == Up(v.parent, x, n)
    decreases n
  {
    if n > 0 && v.parent[x].Some? {
      ParentOf(v, x);
      SameClimbOver(v, w, v.parent[x].value, n - 1);
    }
  }

  lemma SameSubtree(v: View, w: View, id: Id)
    requires Good(v) && Good(w) && id in v.parent
    requires forall y | y in Subtree(v.parent, id) :: y !in w.parent
    ensures Subtree(Overlaid(v, w).parent, id) == Subtree(v.parent, id)
  {
    var o := Overlaid(v, w).parent;
    forall x ensures x in Subtree(o, id) <==> x in Subtree(v.parent, id) {
      if x in Subtree(o, id) {
        var n: nat :| Up(o, x, n) == Some(id);
        NothingWaitsBelow(v, w, id, x, n);
      }
      if x in Subtree(v.parent, id) {
        var n: nat :| Up(v.parent, x, n) == Some(id);
        SameClimbOver(v, w, x, n);
      }
    }
  }

  lemma Removed(v: View, e: Event, next: View, w: View)
    requires Fits(v, e, next, w) && e.Removal?
    ensures Applicable(Overlaid(v, w), e) && ApplyEvent(Overlaid(v, w), e) == Overlaid(next, w)
  {
    var gone := Subtree(v.parent, e.id);
    Listed(v, e.id);
    forall y | y in gone ensures y !in w.parent && Some(y) !in w.kids {
      assert y in v.parent && y !in next.parent;
      Listed(w, y);
    }
    SameSubtree(v, w, e.id);
    OverDropped(v.parent, w.parent, gone);
    Listed(w, e.id);
    OverDropped(v.caption, w.caption, gone);
    ListsLeft(v.kids, w.kids, v.parent.Keys, e.id, v.parent[e.id]);
    forall x, k | k in w.kids && x in w.kids[k] ensures x !in gone {
      Listed(w, x);
    }
    ListsDropped(Detach(v, e.id), w.kids, v.parent.Keys, gone);
    assert next.parent.Keys == v.parent.Keys - gone;
  }

  /** One event applied to the overlay is the overlay of the next forest. */
  lemma OverlayFollows(v: View, e: Event, next: View, w: View)
    requires Fits(v, e, next, w)
    ensures Applicable(Overlaid(v, w), e) && ApplyEvent(Overlaid(v, w), e) == Overlaid(next, w)
  {
    if e.Removal? { Removed(v, e, next, w); }
    else if e.id in v.parent { Known(v, e, next, w); }
    else if e.id in w.parent { NewInside(v, e, next, w); }
    else { NewOutside(v, e, next, w); }
  }

  // ---------- the overlay is a forest ----------

  lemma {:induction false} RanksBounded(s: set<Id>, r: map<Id, nat>) returns (top: nat)
    requires s <= r.Keys
    ensures forall x | x in s :: r[x] <= top
  {
    if s == {} {
      top := 0;
    } else {
      var x :| x in s;
      var rest := RanksBounded(s - {x}, r);
      top := if r[x] > rest then r[x] else rest;
    }
  }

  lemma OverAcyclic(p: Parents, q: Parents)
    requires Acyclic(p) && Acyclic(q)
    requires forall x {:trigger p[x]} | x in p && p[x].Some? :: p[x].value in p
    requires forall x {:trigger q[x]} | x in q && q[x].Some? :: q[x].value in q
    ensures Acyclic(Over(p, q))
  {
    var r :| Ranked(p, r);
    var t :| Ranked(q, t);
    var top := RanksBounded(p.Keys, r);
    var o := Over(p, q);
    var u: map<Id, nat> := map x | x in o :: if x in p then r[x] else 1 + top + t[x];
    assert Ranked(o, u);
  }

  lemma OverListed(v: View, w: View)
    requires Good(v) && Good(w)
    ensures NodesListed(Overlaid(v, w).parent, Overlaid(v, w).kids)
  {
    var o := Overlaid(v, w);
    forall b | b in o.parent ensures o.parent[b] in o.kids && b in o.kids[o.parent[b]] {
      Listed(v, b);
      Listed(w, b);
      LaterMembers(ListIn(w.kids, o.parent[b]), v.parent.Keys);
    }
  }

  lemma OverOwn(v: View, w: View)
    requires Good(v) && Good(w)
    ensures ListsOwn(Overlaid(v, w).parent, Overlaid(v, w).kids)
  {
    var o := Overlaid(v, w);
    forall k, b | k in o.kids && b in o.kids[k] ensures b in o.parent && o.parent[b] == k {
      Listed(v, b);
      Listed(w, b);
      LaterMembers(ListIn(w.kids, k), v.parent.Keys);
    }
    forall k | k in o.kids ensures Distinct(o.kids[k]) {
      OverDistinct(v, w, k);
    }
  }

  lemma OverDistinct(v: View, w: View, k: Option<Id>)
    requires Good(v) && Good(w) && k in Overlaid(v, w).kids
    ensures Distinct(Overlaid(v, w).kids[k])
  {
    var a, b := ListIn(v.kids, k), Later(ListIn(w.kids, k), v.parent.Keys);
    ListsDistinct(v, k);
    ListsDistinct(w, k);
    LaterDistinct(ListIn(w.kids, k), v.parent.Keys);
    LaterMembers(ListIn(w.kids, k), v.parent.Keys);
    forall x | x in a ensures x !in b {
      Listed(v, x);
    }
    JoinedDistinct(a, b);
  }

  lemma ListsDistinct(v: View, k: Option<Id>)
    requires Good(v)
    ensures Distinct(ListIn(v.kids, k))
  {
    GoodIs(v);
  }

  lemma JoinedDistinct(a: seq<Id>, b: seq<Id>)
    requires Distinct(a) && Distinct(b) && forall x | x in a :: x !in b
    ensures Distinct(a + b)
  {
    forall i, j | 0 <= i < j < |a + b| ensures (a + b)[i] != (a + b)[j] {
      if i < |a| <= j { assert a[i] in a && b[j - |a|] in b; }
    }
  }

  lemma OverlayIsGood(v: View, w: View)
    requires Good(v) && Good(w)
    ensures Good(Overlaid(v, w))
  {
    OverListed(v, w);
    OverOwn(v, w);
    GoodParents(v);
    GoodParents(w);
    OverAcyclic(v.parent, w.parent);
    GoodAssembled(Overlaid(v, w));
  }

  lemma GoodParents(v: View)
    requires Good(v)
    ensures Acyclic(v.parent) && None in v.kids && v.caption.Keys == v.parent.Keys
    ensures forall x {:trigger v.parent[x]} | x in v.parent && v.parent[x].Some? :: v.parent[x].value in v.parent
    ensures forall k | k in v.kids && k.Some? :: k.value in v.parent
  {
    GoodIs(v);
    forall x | x in v.parent && v.parent[x].Some? ensures v.parent[x].value in v.parent {
      assert v.parent[x] in v.kids;
    }
  }

  lemma GoodAssembled(o: View)
    requires None in o.kids && o.caption.Keys == o.parent.Keys && (forall k | k in o.kids && k.Some? :: k.value in o.parent)
    requires NodesListed(o.parent, o.kids) && ListsOwn(o.parent, o.kids) && Acyclic(o.parent)
    ensures Good(o)
  {
    GoodIs(o);
  }

  // Nothing replayed yet: the overlay is the later forest.
  lemma OverNothing(v: View, w: View)
    requires v.parent.Keys == {} && v.caption.Keys == {} && (forall k | k in v.kids :: v.kids[k] == [] && k in w.kids)
    ensures Overlaid(v, w) == w
  {
    forall k | k in w.kids ensures Later(w.kids[k], v.parent.Keys) == w.kids[k] {
      NothingKnown(w.kids[k], v.parent.Keys);
    }
    forall k ensures ListIn(v.kids, k) == [] {
    }
    var o := Overlaid(v, w);
    assert o.parent == w.parent && o.caption == w.caption;
    forall k ensures k in o.kids <==> k in w.kids {
    }
    forall k | k in o.kids ensures o.kids[k] == w.kids[k] {
    }
    assert o.kids == w.kids;
  }

  lemma {:induction false} NothingKnown(l: seq<Id>, known: set<Id>)
    requires known == {}
    ensures Later(l, known) == l
  {
    if l != [] { NothingKnown(l[1..], known); }
  }

  // Everything replayed: the overlay is the forest itself.
  lemma OverItself(v: View)
    requires Good(v)
    ensures Overlaid(v, v) == v
  {
    forall k | k in v.kids ensures Later(v.kids[k], v.parent.Keys) == [] {
      forall x | x in v.kids[k] ensures x in v.parent.Keys { Listed(v, x); }
      AllKnown(v.kids[k], v.parent.Keys);
    }
    var o := Overlaid(v, v);
    assert o.parent == v.parent && o.caption == v.caption;
    forall k ensures k in o.kids <==> k in v.kids {
    }
    forall k | k in o.kids ensures o.kids[k] == v.kids[k] {
    }
    assert o.kids == v.kids;
  }

  lemma {:induction false} AllKnown(l: seq<Id>, known: set<Id>)
    requires forall x | x in l :: x in known
    ensures Later(l, known) == []
  {
    if l != [] {
      assert l[0] in l;
      AllKnown(l[1..], known);
    }
  }
}
