/** Inserting, moving and soft-deleting one row of a table, each followed by the renumbering of the
    groups it touches, and what that does to every sibling listing. */
module RowMoves {
  import opened Common
  import opened SiblingOrder

  ghost predicate Grouped<P>(row: Row<P>, ws: Id, parent: Option<Id>) {
    !row.deleted && row.workspace == ws && row.parent == parent
  }

  // Rows differ at most in position and time.
  ghost predicate SameShape<P>(a: Row<P>, b: Row<P>) {
    a.workspace == b.workspace && a.parent == b.parent && a.payload == b.payload && a.deleted == b.deleted
  }

  lemma DroppingStranger<P>(t: Table<P>, ws: Id, parent: Option<Id>, id: Id)
    ensures id !in Members(t, ws, parent) ==> Without(Children(t, ws, parent), id) == Children(t, ws, parent)
  {
    ChildrenList(t, ws, parent);
  }

  // Writing one row leaves every listing as it was, apart from that row.
  lemma PutRow<P>(t: Table<P>, id: Id, row: Row<P>, ws: Id, parent: Option<Id>)
    ensures var u := t[id := row];
            && Members(u, ws, parent) == (if Grouped(row, ws, parent) then Members(t, ws, parent) + {id} else Members(t, ws, parent) - {id})
            && Without(Children(u, ws, parent), id) == Without(Children(t, ws, parent), id)
            && (id !in Members(u, ws, parent) ==> Children(u, ws, parent) == Without(Children(t, ws, parent), id))
            && (id !in Members(t, ws, parent) ==> Without(Children(u, ws, parent), id) == Children(t, ws, parent))
  {
    var u := t[id := row];
    var before, after := Members(t, ws, parent), Members(u, ws, parent);
    DroppingStranger(t, ws, parent, id);
    DroppingStranger(u, ws, parent, id);
    assert after == if Grouped(row, ws, parent) then before + {id} else before - {id};
    assert after - {id} == before - {id};
    SortedWithout(t, before, id);
    SortedWithout(u, after, id);
    SortedAgrees(t, u, before - {id});
  }

  lemma PutRowDense<P>(t: Table<P>, id: Id, row: Row<P>, ws: Id, parent: Option<Id>)
    requires id !in Members(t, ws, parent) && !Grouped(row, ws, parent)
    ensures Children(t[id := row], ws, parent) == Children(t, ws, parent)
    ensures Dense(t[id := row], ws, parent) <==> Dense(t, ws, parent)
  {
    PutRow(t, id, row, ws, parent);
    ChildrenList(t, ws, parent);
  }

  // INSERT at position 0, then reorder the group around the new row.
  ghost function Created<P>(t: Table<P>, id: Id, ws: Id, parent: Option<Id>, payload: P, requested: Option<int>, now: int): Table<P> {
    var t1 := t[id := Row(ws, parent, payload, 0, now, false)];
    assert id in Members(t1, ws, parent);
    Reordered(t1, ws, parent, Some(id), requested, now)
  }

  // UPDATE ... SET deleted_at = now over a set of ids.
  function Marked<P>(t: Table<P>, dead: set<Id>, now: int): (u: Table<P>)
    ensures u.Keys == t.Keys
  {
    map x | x in t :: if x in dead then t[x].(deleted := true, updatedAt := now) else t[x]
  }

  // Two rounds of position writes compose.
  ghost predicate Renumbered<P>(t: Table<P>, u: Table<P>) {
    u.Keys == t.Keys && forall x | x in t :: SameShape(u[x], t[x])
  }

  lemma OnlyPositionsMovedIsRenumbered<P>(t: Table<P>, u: Table<P>, group: set<Id>, now: int)
    requires OnlyPositionsMoved(t, u, group, now)
    ensures Renumbered(t, u)
  {
    forall x | x in t ensures SameShape(u[x], t[x]) {
      if x in group {
        assert u[x] == t[x].(position := u[x].position, updatedAt := now);
      }
    }
  }

  lemma CreatedEffect<P>(t: Table<P>, id: Id, ws: Id, parent: Option<Id>, payload: P, requested: Option<int>, now: int)
    requires id !in t
    ensures var u := Created(t, id, ws, parent, payload, requested, now);
            var before := Children(t, ws, parent);
            var at := InsertionPoint(|before|, requested);
            && u.Keys == t.Keys + {id}
            && u[id] == Row(ws, parent, payload, at, now, false)
            && (forall x | x in t :: SameShape(u[x], t[x]))
            && (forall x | x in t && x !in Members(t, ws, parent) :: u[x] == t[x])
            && Children(u, ws, parent) == Inserted(before, id, at)
            && Dense(u, ws, parent)
  {
    var t1 := t[id := Row(ws, parent, payload, 0, now, false)];
    var u := Created(t, id, ws, parent, payload, requested, now);
    PutRow(t, id, t1[id], ws, parent);
    ReorderedGroup(t1, ws, parent, Some(id), requested, now);
    OnlyPositionsMovedIsRenumbered(t1, u, Members(t1, ws, parent), now);
    var c := Children(u, ws, parent);
    var at := InsertionPoint(|Children(t, ws, parent)|, requested);
    assert c[at] == id && u[c[at]].position == at;
    assert u[id] == t1[id].(position := u[id].position, updatedAt := now);
  }

  lemma CreatedElsewhere<P>(t: Table<P>, id: Id, ws: Id, parent: Option<Id>, payload: P, requested: Option<int>, now: int, w: Id, p: Option<Id>)
    requires id !in t && (w, p) != (ws, parent)
    ensures var u := Created(t, id, ws, parent, payload, requested, now);
            Children(u, w, p) == Children(t, w, p) && (Dense(u, w, p) <==> Dense(t, w, p))
  {
    var t1 := t[id := Row(ws, parent, payload, 0, now, false)];
    PutRow(t, id, t1[id], ws, parent);
    PutRowDense(t, id, t1[id], w, p);
    ReorderedElsewhere(t1, ws, parent, Some(id), requested, now, w, p);
  }

  // UPDATE of parent and payload, then renumbering of the group left behind.
  ghost function Detached<P>(t: Table<P>, id: Id, target: Option<Id>, payload: P, now: int): Table<P>
    requires Live(t, id)
  {
    var row := t[id];
    var t1 := t[id := row.(parent := target, payload := payload, updatedAt := now)];
    if row.parent != target then Reordered(t1, row.workspace, row.parent, None, None, now) else t1
  }

  lemma DetachedEffect<P>(t: Table<P>, id: Id, target: Option<Id>, payload: P, now: int)
    requires Live(t, id)
    ensures var row := t[id];
            var t2 := Detached(t, id, target, payload, now);
            && t2.Keys == t.Keys
            && t2[id] == row.(parent := target, payload := payload, updatedAt := now)
            && (forall x | x in t && x != id :: SameShape(t2[x], t[x]))
            && (forall x | x in t && x != id && x !in Members(t, row.workspace, row.parent) :: t2[x] == t[x])
            && (row.parent == target ==> forall x | x in t && x != id :: t2[x] == t[x])
            && id in Members(t2, row.workspace, target)
            && Without(Children(t2, row.workspace, target), id) == Without(Children(t, row.workspace, target), id)
            && (row.parent != target ==> Children(t2, row.workspace, row.parent) == Without(Children(t, row.workspace, row.parent), id))
            && (row.parent != target ==> Dense(t2, row.workspace, row.parent))
  {
    var row := t[id];
    var row1 := row.(parent := target, payload := payload, updatedAt := now);
    var t1 := t[id := row1];
    PutRow(t, id, row1, row.workspace, target);
    PutRow(t, id, row1, row.workspace, row.parent);
    if row.parent != target {
      var t2 := Detached(t, id, target, payload, now);
      ReorderedGroup(t1, row.workspace, row.parent, None, None, now);
      ReorderedElsewhere(t1, row.workspace, row.parent, None, None, now, row.workspace, target);
      OnlyPositionsMovedIsRenumbered(t1, t2, Members(t1, row.workspace, row.parent), now);
      assert id !in Members(t1, row.workspace, row.parent);
    }
  }

  lemma DetachedElsewhere<P>(t: Table<P>, id: Id, target: Option<Id>, payload: P, now: int, w: Id, p: Option<Id>)
    requires Live(t, id)
    requires (w, p) != (t[id].workspace, target) && (w, p) != (t[id].workspace, t[id].parent)
    ensures var t2 := Detached(t, id, target, payload, now);
            Children(t2, w, p) == Children(t, w, p) && (Dense(t2, w, p) <==> Dense(t, w, p))
  {
    var row := t[id];
    var row1 := row.(parent := target, payload := payload, updatedAt := now);
    PutRowDense(t, id, row1, w, p);
    if row.parent != target {
      ReorderedElsewhere(t[id := row1], row.workspace, row.parent, None, None, now, w, p);
    }
  }

  // The whole move: detach, then reorder the group entered around the row.
  ghost function Moved<P>(t: Table<P>, id: Id, target: Option<Id>, payload: P, requested: Option<int>, now: int): Table<P>
    requires Live(t, id)
  {
    DetachedEffect(t, id, target, payload, now);
    Reordered(Detached(t, id, target, payload, now), t[id].workspace, target, Some(id), requested, now)
  }

  // A move takes the row out of its old list and puts it at the requested place of the new one.
  lemma MovedEffect<P>(t: Table<P>, id: Id, target: Option<Id>, payload: P, requested: Option<int>, now: int)
    requires Live(t, id)
    ensures var row := t[id];
            var u := Moved(t, id, target, payload, requested, now);
            var rest := Without(Children(t, row.workspace, target), id);
            var at := InsertionPoint(|rest|, requested);
            && u.Keys == t.Keys
            && u[id] == row.(parent := target, payload := payload, position := at, updatedAt := now)
            && (forall x | x in t && x != id :: SameShape(u[x], t[x]))
            && Children(u, row.workspace, target) == Inserted(rest, id, at)
            && Dense(u, row.workspace, target)
            && (row.parent != target ==> Children(u, row.workspace, row.parent) == Without(Children(t, row.workspace, row.parent), id))
            && (row.parent != target ==> Dense(u, row.workspace, row.parent))
  {
    var row := t[id];
    var u := Moved(t, id, target, payload, requested, now);
    var t2 := Detached(t, id, target, payload, now);
    DetachedEffect(t, id, target, payload, now);
    ReorderedGroup(t2, row.workspace, target, Some(id), requested, now);
    OnlyPositionsMovedIsRenumbered(t2, u, Members(t2, row.workspace, target), now);
    if row.parent != target {
      ReorderedElsewhere(t2, row.workspace, target, Some(id), requested, now, row.workspace, row.parent);
    }
    var rest := Without(Children(t, row.workspace, target), id);
    var at := InsertionPoint(|rest|, requested);
    var c := Children(u, row.workspace, target);
    assert c[at] == id && u[c[at]].position == at;
    assert u[id] == t2[id].(position := u[id].position, updatedAt := now);
  }

  lemma MovedElsewhere<P>(t: Table<P>, id: Id, target: Option<Id>, payload: P, requested: Option<int>, now: int, w: Id, p: Option<Id>)
    requires Live(t, id)
    requires (w, p) != (t[id].workspace, target) && (w, p) != (t[id].workspace, t[id].parent)
    ensures var u := Moved(t, id, target, payload, requested, now);
            Children(u, w, p) == Children(t, w, p) && (Dense(u, w, p) <==> Dense(t, w, p))
  {
    DetachedEffect(t, id, target, payload, now);
    DetachedElsewhere(t, id, target, payload, now, w, p);
    ReorderedElsewhere(Detached(t, id, target, payload, now), t[id].workspace, target, Some(id), requested, now, w, p);
  }

  lemma MovedKeepsDense<P>(t: Table<P>, id: Id, target: Option<Id>, payload: P, requested: Option<int>, now: int)
    requires Live(t, id) && AllDense(t)
    ensures AllDense(Moved(t, id, target, payload, requested, now))
  {
    MovedEffect(t, id, target, payload, requested, now);
    forall w: Id, p: Option<Id> ensures Dense(Moved(t, id, target, payload, requested, now), w, p) {
      if (w, p) != (t[id].workspace, target) && (w, p) != (t[id].workspace, t[id].parent) {
        MovedElsewhere(t, id, target, payload, requested, now, w, p);
      }
    }
  }

  lemma CreatedKeepsDense<P>(t: Table<P>, id: Id, ws: Id, parent: Option<Id>, payload: P, requested: Option<int>, now: int)
    requires id !in t && AllDense(t)
    ensures AllDense(Created(t, id, ws, parent, payload, requested, now))
  {
    CreatedEffect(t, id, ws, parent, payload, requested, now);
    forall w: Id, p: Option<Id> ensures Dense(Created(t, id, ws, parent, payload, requested, now), w, p) {
      if (w, p) != (ws, parent) {
        CreatedElsewhere(t, id, ws, parent, payload, requested, now, w, p);
      }
    }
  }

  // Soft deletion empties the dead rows out of every group.
  lemma MarkedMembers<P>(t: Table<P>, dead: set<Id>, now: int, w: Id, p: Option<Id>)
    ensures Members(Marked(t, dead, now), w, p) == Members(t, w, p) - dead
  {
  }

  lemma MarkedUntouched<P>(t: Table<P>, dead: set<Id>, now: int, w: Id, p: Option<Id>)
    requires Members(t, w, p) !! dead
    ensures Children(Marked(t, dead, now), w, p) == Children(t, w, p)
    ensures Dense(Marked(t, dead, now), w, p) <==> Dense(t, w, p)
  {
    MarkedMembers(t, dead, now, w, p);
    assert Members(t, w, p) - dead == Members(t, w, p);
    ChildrenAgree(t, Marked(t, dead, now), w, p);
    ChildrenList(t, w, p);
  }

  lemma MarkedEmptied<P>(t: Table<P>, dead: set<Id>, now: int, w: Id, p: Option<Id>)
    requires Members(t, w, p) <= dead
    ensures Children(Marked(t, dead, now), w, p) == []
    ensures Dense(Marked(t, dead, now), w, p)
  {
    MarkedMembers(t, dead, now, w, p);
    assert Members(t, w, p) - dead == {};
  }

  // Deleting rows of which one group holds a single one, then closing the gap in that group.
  ghost function Removed<P>(t: Table<P>, dead: set<Id>, id: Id, now: int): Table<P>
    requires id in t
  {
    Reordered(Marked(t, dead, now), t[id].workspace, t[id].parent, None, None, now)
  }

  lemma RemovedEffect<P>(t: Table<P>, dead: set<Id>, id: Id, now: int)
    requires Live(t, id) && id in dead
    requires Members(t, t[id].workspace, t[id].parent) * dead == {id}
    ensures var u := Removed(t, dead, id, now);
            && u.Keys == t.Keys
            && (forall x | x in t :: SameShape(u[x], t[x].(deleted := t[x].deleted || x in dead)))
            && Children(u, t[id].workspace, t[id].parent) == Without(Children(t, t[id].workspace, t[id].parent), id)
            && Dense(u, t[id].workspace, t[id].parent)
  {
    var ws, parent := t[id].workspace, t[id].parent;
    var u := Removed(t, dead, id, now);
    var m := Marked(t, dead, now);
    MarkedMembers(t, dead, now, ws, parent);
    var group := Members(t, ws, parent);
    assert group - dead == group - {id};
    SortedWithout(t, group, id);
    SortedAgrees(t, m, group - {id});
    ReorderedGroup(m, ws, parent, None, None, now);
    OnlyPositionsMovedIsRenumbered(m, u, Members(m, ws, parent), now);
  }

  lemma RemovedElsewhere<P>(t: Table<P>, dead: set<Id>, id: Id, now: int, w: Id, p: Option<Id>)
    requires id in t && (w, p) != (t[id].workspace, t[id].parent)
    ensures Children(Removed(t, dead, id, now), w, p) == Children(Marked(t, dead, now), w, p)
    ensures Dense(Removed(t, dead, id, now), w, p) <==> Dense(Marked(t, dead, now), w, p)
  {
    ReorderedElsewhere(Marked(t, dead, now), t[id].workspace, t[id].parent, None, None, now, w, p);
  }
}
