/** Rows with a parent and a position, the listing of one sibling group by (position, id), and the
    renumbering that every create, move and delete performs on it. Folders and bookmarks share it. */
module SiblingOrder {
  import opened Common

  datatype Row<P> = Row(workspace: Id, parent: Option<Id>, payload: P, position: int, updatedAt: int, deleted: bool)

  type Table<P> = map<Id, Row<P>>

  predicate Live<P>(t: Table<P>, id: Id) {
    id in t && !t[id].deleted
  }

  // The live rows under one parent of one workspace; parent None is the workspace root.
  function Members<P>(t: Table<P>, ws: Id, parent: Option<Id>): set<Id> {
    set id | id in t && !t[id].deleted && t[id].workspace == ws && t[id].parent == parent
  }

  // ORDER BY position, id.
  predicate Before<P>(t: Table<P>, a: Id, b: Id)
    requires a in t && b in t
  {
    t[a].position < t[b].position || (t[a].position == t[b].position && a <= b)
  }

  ghost predicate SortedListing<P>(t: Table<P>, s: set<Id>, r: seq<Id>) {
    && (forall x :: x in r <==> x in s)
    && Distinct(r)
    && s <= t.Keys
    && (forall i, j :: 0 <= i < j < |r| ==> Before(t, r[i], r[j]))
  }

  ghost predicate IsLeast<P>(t: Table<P>, s: set<Id>, m: Id)
    requires s <= t.Keys
  {
    m in s && forall x | x in s :: Before(t, m, x)
  }

  lemma {:induction false} LeastExists<P>(t: Table<P>, s: set<Id>)
    requires s <= t.Keys && s != {}
    ensures exists m :: IsLeast(t, s, m)
  {
    var a :| a in s;
    if s == {a} {
      assert IsLeast(t, s, a);
    } else {
      LeastExists(t, s - {a});
      var m :| IsLeast(t, s - {a}, m);
      var w := if Before(t, a, m) then a else m;
      forall x | x in s ensures Before(t, w, x) {
        if x != a { assert x in s - {a}; }
      }
      assert IsLeast(t, s, w);
    }
  }

  ghost function Sorted<P>(t: Table<P>, s: set<Id>): seq<Id>
    requires s <= t.Keys
    decreases |s|
  {
    if s == {} then []
    else
      LeastExists(t, s);
      var m :| IsLeast(t, s, m);
      [m] + Sorted(t, s - {m})
  }

  lemma {:induction false} SortedLists<P>(t: Table<P>, s: set<Id>)
    requires s <= t.Keys
    ensures SortedListing(t, s, Sorted(t, s))
    ensures |Sorted(t, s)| == |s|
    decreases |s|
  {
    if s != {} {
      LeastExists(t, s);
      var m :| IsLeast(t, s, m) && Sorted(t, s) == [m] + Sorted(t, s - {m});
      SortedLists(t, s - {m});
      var r := Sorted(t, s);
      forall x ensures x in r <==> x in s {
        if x in s && x != m { assert x in Sorted(t, s - {m}); }
      }
      assert forall i, j :: 0 <= i < j < |r| ==> r[i] != r[j] && Before(t, r[i], r[j]);
    }
  }

  // It is in ascending order of position, and of id where positions are equal.
  lemma SortedByPositionThenId<P>(t: Table<P>, s: set<Id>, i: nat, j: nat)
    requires s <= t.Keys
    ensures var r := Sorted(t, s);
            i < j < |r| ==>
              && r[i] in t && r[j] in t
              && (t[r[i]].position < t[r[j]].position || (t[r[i]].position == t[r[j]].position && r[i] < r[j]))
  {
    SortedLists(t, s);
  }

  // A sorted listing is determined by the table and the set alone.
  lemma {:induction false} SortedIsUnique<P>(t: Table<P>, s: set<Id>, a: seq<Id>, b: seq<Id>)
    requires SortedListing(t, s, a) && SortedListing(t, s, b)
    ensures a == b
    decreases |a|
  {
    if a == [] {
      EmptyOrInhabited(b);
      assert forall x :: x in b <==> x in a;
    } else {
      assert a[0] in s && a[0] in b;
      assert b != [] && b[0] in s && b[0] in a;
      var i :| 0 <= i < |a| && a[i] == b[0];
      var j :| 0 <= j < |b| && b[j] == a[0];
      assert a[0] == b[0];
      assert a == [a[0]] + a[1..] && b == [b[0]] + b[1..];
      assert forall x :: x in a[1..] <==> x in s - {a[0]};
      assert forall x :: x in b[1..] <==> x in s - {a[0]};
      SortedIsUnique(t, s - {a[0]}, a[1..], b[1..]);
    }
  }

  ghost function Children<P>(t: Table<P>, ws: Id, parent: Option<Id>): seq<Id> {
    Sorted(t, Members(t, ws, parent))
  }

  lemma ChildrenList<P>(t: Table<P>, ws: Id, parent: Option<Id>)
    ensures SortedListing(t, Members(t, ws, parent), Children(t, ws, parent))
    ensures |Children(t, ws, parent)| == |Members(t, ws, parent)|
  {
    SortedLists(t, Members(t, ws, parent));
  }

  lemma ListingWithout<P>(t: Table<P>, s: set<Id>, a: seq<Id>, x: Id)
    requires SortedListing(t, s, a)
    ensures SortedListing(t, s - {x}, Without(a, x))
  {
    WithoutDistinct(a, x);
    if x in a {
      var k :| 0 <= k < |a| && a[k] == x;
      WithoutAt(a, k);
      ShortenedStaysOrdered(t, a, k);
    }
  }

  lemma ShortenedStaysOrdered<P>(t: Table<P>, a: seq<Id>, k: nat)
    requires k < |a| && (forall x | x in a :: x in t) && forall i, j :: 0 <= i < j < |a| ==> Before(t, a[i], a[j])
    ensures var r := a[..k] + a[k + 1..]; forall i, j :: 0 <= i < j < |r| ==> r[i] in t && r[j] in t && Before(t, r[i], r[j])
  {
    var r := a[..k] + a[k + 1..];
    forall i, j | 0 <= i < j < |r| ensures r[i] in t && r[j] in t && Before(t, r[i], r[j]) {
      assert r[i] == a[if i < k then i else i + 1] && r[j] == a[if j < k then j else j + 1];
    }
  }

  // Listing a set without one of its rows is listing the set and dropping that row.
  lemma SortedWithout<P>(t: Table<P>, s: set<Id>, x: Id)
    requires s <= t.Keys
    ensures Sorted(t, s - {x}) == Without(Sorted(t, s), x)
  {
    SortedLists(t, s);
    SortedLists(t, s - {x});
    ListingWithout(t, s, Sorted(t, s), x);
    SortedIsUnique(t, s - {x}, Sorted(t, s - {x}), Without(Sorted(t, s), x));
  }

  // Two tables that agree on a set list it in the same order.
  lemma SortedAgrees<P>(t: Table<P>, u: Table<P>, s: set<Id>)
    requires s <= t.Keys && s <= u.Keys
    requires forall x | x in s :: u[x].position == t[x].position
    ensures Sorted(u, s) == Sorted(t, s)
  {
    SortedLists(t, s);
    SortedLists(u, s);
    SortedIsUnique(t, s, Sorted(t, s), Sorted(u, s));
  }

  lemma ChildrenAgree<P>(t: Table<P>, u: Table<P>, ws: Id, parent: Option<Id>)
    requires Members(u, ws, parent) == Members(t, ws, parent)
    requires forall x | x in Members(t, ws, parent) :: u[x].position == t[x].position
    ensures Children(u, ws, parent) == Children(t, ws, parent)
  {
    SortedAgrees(t, u, Members(t, ws, parent));
  }

  // Positions of the group are exactly 0..n-1, in listing order.
  ghost predicate Dense<P>(t: Table<P>, ws: Id, parent: Option<Id>) {
    var c := Children(t, ws, parent);
    forall i | 0 <= i < |c| :: c[i] in t && t[c[i]].position == i
  }

  ghost predicate AllDense<P>(t: Table<P>) {
    forall ws, parent :: Dense(t, ws, parent)
  }

  // The loop UPDATE ... SET position = idx, updated_at = now over a list of ids.
  ghost function Renumber<P>(t: Table<P>, ids: seq<Id>, now: int): (u: Table<P>)
    requires forall x | x in ids :: x in t
    ensures u.Keys == t.Keys
  {
    if ids == [] then t
    else
      var n := |ids| - 1;
      var u := Renumber(t, ids[..n], now);
      u[ids[n] := u[ids[n]].(position := n, updatedAt := now)]
  }

  lemma {:induction false} RenumberAt<P>(t: Table<P>, ids: seq<Id>, now: int)
    requires forall x | x in ids :: x in t
    requires Distinct(ids)
    ensures forall i :: 0 <= i < |ids| ==> Renumber(t, ids, now)[ids[i]] == t[ids[i]].(position := i, updatedAt := now)
    ensures forall x | x in t && x !in ids :: Renumber(t, ids, now)[x] == t[x]
  {
    if ids != [] {
      var n := |ids| - 1;
      RenumberAt(t, ids[..n], now);
      var u := Renumber(t, ids[..n], now);
      assert ids[n] !in ids[..n];
      assert u[ids[n]] == t[ids[n]];
      assert forall i :: 0 <= i < n ==> ids[..n][i] == ids[i];
      assert ids == ids[..n] + [ids[n]];
    }
  }

  // The ids in their new order: the group without the moving row, then that row put at the request.
  ghost function NewOrder<P>(t: Table<P>, ws: Id, parent: Option<Id>, moving: Option<Id>, requested: Option<int>): seq<Id> {
    match moving
    case None => Children(t, ws, parent)
    case Some(m) =>
      var others := Sorted(t, Members(t, ws, parent) - {m});
      Inserted(others, m, InsertionPoint(|others|, requested))
  }

  // No request means the end; any other request is forced into 0..n.
  function InsertionPoint(n: nat, requested: Option<int>): (r: nat)
    ensures r <= n
  {
    match requested
    case None => n
    case Some(p) => Clamp(p, n)
  }

  ghost function Reordered<P>(t: Table<P>, ws: Id, parent: Option<Id>, moving: Option<Id>, requested: Option<int>, now: int): Table<P>
    requires moving.Some? ==> moving.value in Members(t, ws, parent)
  {
    NewOrderListsGroup(t, ws, parent, moving, requested);
    Renumber(t, NewOrder(t, ws, parent, moving, requested), now)
  }

  // The listing a reordering must produce.
  ghost function NewListing(before: seq<Id>, moving: Option<Id>, requested: Option<int>): seq<Id> {
    match moving
    case None => before
    case Some(m) =>
      var rest := Without(before, m);
      Inserted(rest, m, InsertionPoint(|rest|, requested))
  }

  // Rows of the group keep everything but position and time; all other rows are untouched.
  ghost predicate OnlyPositionsMoved<P>(t: Table<P>, u: Table<P>, group: set<Id>, now: int) {
    && u.Keys == t.Keys
    && (forall x | x in t && x in group :: u[x] == t[x].(position := u[x].position, updatedAt := now))
    && (forall x | x in t && x !in group :: u[x] == t[x])
  }

  lemma NewOrderListsGroup<P>(t: Table<P>, ws: Id, parent: Option<Id>, moving: Option<Id>, requested: Option<int>)
    requires moving.Some? ==> moving.value in Members(t, ws, parent)
    ensures var ids := NewOrder(t, ws, parent, moving, requested);
            && Distinct(ids)
            && (forall x :: x in ids <==> x in Members(t, ws, parent))
    ensures NewOrder(t, ws, parent, moving, requested) == NewListing(Children(t, ws, parent), moving, requested)
  {
    var group := Members(t, ws, parent);
    ChildrenList(t, ws, parent);
    if moving.Some? {
      SortedWithout(t, group, moving.value);
      var rest := Without(Children(t, ws, parent), moving.value);
      WithoutDistinct(Children(t, ws, parent), moving.value);
      InsertedDistinct(rest, moving.value, InsertionPoint(|rest|, requested));
    }
  }

  lemma RenumberMovesPositions<P>(t: Table<P>, group: set<Id>, ids: seq<Id>, now: int)
    requires Distinct(ids) && group <= t.Keys && forall x :: x in ids <==> x in group
    ensures OnlyPositionsMoved(t, Renumber(t, ids, now), group, now)
  {
    RenumberAt(t, ids, now);
    var u := Renumber(t, ids, now);
    forall x | x in t && x in group ensures u[x] == t[x].(position := u[x].position, updatedAt := now) {
      assert x in ids;
      var i :| 0 <= i < |ids| && ids[i] == x;
    }
  }

  // The renumbered ids are the listing of the renumbered rows.
  lemma RenumberedListing<P>(t: Table<P>, group: set<Id>, ids: seq<Id>, now: int)
    requires Distinct(ids) && group <= t.Keys && forall x :: x in ids <==> x in group
    ensures SortedListing(Renumber(t, ids, now), group, ids)
    ensures forall i | 0 <= i < |ids| :: Renumber(t, ids, now)[ids[i]].position == i
  {
    RenumberAt(t, ids, now);
  }

  // What a reordering does to the group it is called for.
  lemma ReorderedGroup<P>(t: Table<P>, ws: Id, parent: Option<Id>, moving: Option<Id>, requested: Option<int>, now: int)
    requires moving.Some? ==> moving.value in Members(t, ws, parent)
    ensures var u := Reordered(t, ws, parent, moving, requested, now);
            && OnlyPositionsMoved(t, u, Members(t, ws, parent), now)
            && Dense(u, ws, parent)
            && Children(u, ws, parent) == NewListing(Children(t, ws, parent), moving, requested)
  {
    var group := Members(t, ws, parent);
    var ids := NewOrder(t, ws, parent, moving, requested);
    NewOrderListsGroup(t, ws, parent, moving, requested);
    RenumberMovesPositions(t, group, ids, now);
    RenumberedListing(t, group, ids, now);
    GroupListing(t, Renumber(t, ids, now), ws, parent, ids, now);
  }

  lemma GroupListing<P>(t: Table<P>, u: Table<P>, ws: Id, parent: Option<Id>, ids: seq<Id>, now: int)
    requires OnlyPositionsMoved(t, u, Members(t, ws, parent), now) && SortedListing(u, Members(t, ws, parent), ids)
    requires forall i | 0 <= i < |ids| :: u[ids[i]].position == i
    ensures Children(u, ws, parent) == ids && Dense(u, ws, parent)
  {
    ChildrenList(u, ws, parent);
    SortedIsUnique(u, Members(t, ws, parent), Children(u, ws, parent), ids);
  }

  // Every other group is left alone.
  lemma ReorderedElsewhere<P>(t: Table<P>, ws: Id, parent: Option<Id>, moving: Option<Id>, requested: Option<int>, now: int, w: Id, p: Option<Id>)
    requires moving.Some? ==> moving.value in Members(t, ws, parent)
    requires (w, p) != (ws, parent)
    ensures var u := Reordered(t, ws, parent, moving, requested, now);
            && Members(u, w, p) == Members(t, w, p)
            && Children(u, w, p) == Children(t, w, p)
            && (Dense(u, w, p) <==> Dense(t, w, p))
  {
    ReorderedGroup(t, ws, parent, moving, requested, now);
    UntouchedGroup(t, Reordered(t, ws, parent, moving, requested, now), Members(t, ws, parent), now, w, p);
  }

  lemma UntouchedGroup<P>(t: Table<P>, u: Table<P>, group: set<Id>, now: int, w: Id, p: Option<Id>)
    requires OnlyPositionsMoved(t, u, group, now) && Members(t, w, p) !! group
    ensures Members(u, w, p) == Members(t, w, p) && Children(u, w, p) == Children(t, w, p)
    ensures Dense(u, w, p) <==> Dense(t, w, p)
  {
    ChildrenAgree(t, u, w, p);
    ChildrenList(t, w, p);
  }
}
