/** The prepare/apply update path, its agreement with the direct update, and the recognition of repeats. */
module Prepare {
  import opened Common
  import opened Ancestry
  import opened SiblingOrder
  import opened RowMoves
  import opened Forest

  datatype Prepared<P> = Prepared(id: Id, original: Row<P>, final: Row<P>, noOp: bool)

  datatype PrepareError = Refused(error: Error) | Drift

  // ---------- scopes ----------

  datatype Kind = BookmarkScope | FolderScope
  datatype ScopeKey = ScopeKey(kind: Kind, workspace: Id, parent: Option<Id>)

  // The locks are taken in one fixed order; the root scope sorts after every parent id.
  predicate KeyLess(a: ScopeKey, b: ScopeKey) {
    if a.kind != b.kind then a.kind.BookmarkScope?
    else if a.workspace != b.workspace then a.workspace < b.workspace
    else a.parent.Some? && (b.parent.None? || a.parent.value < b.parent.value)
  }

  predicate KeysSorted(s: seq<ScopeKey>) {
    forall i, j :: 0 <= i < j < |s| ==> s[i] == s[j] || KeyLess(s[i], s[j])
  }

  predicate KeysCanonical(s: seq<ScopeKey>) {
    forall i, j :: 0 <= i < j < |s| ==> KeyLess(s[i], s[j])
  }

  function InsertKey(s: seq<ScopeKey>, k: ScopeKey): (r: seq<ScopeKey>)
    ensures forall x :: x in r <==> x in s || x == k
  {
    if s == [] || k == s[0] || KeyLess(k, s[0]) then [k] + s
    else
      assert s == [s[0]] + s[1..];
      [s[0]] + InsertKey(s[1..], k)
  }

  lemma {:induction false} InsertKeySorted(s: seq<ScopeKey>, k: ScopeKey)
    requires KeysSorted(s)
    ensures KeysSorted(InsertKey(s, k))
  {
    var r := InsertKey(s, k);
    if s == [] || k == s[0] || KeyLess(k, s[0]) {
      forall j | 0 < j < |r| ensures r[0] == r[j] || KeyLess(r[0], r[j]) {
        assert r[j] == s[j - 1];
      }
    } else {
      var rest := InsertKey(s[1..], k);
      InsertKeySorted(s[1..], k);
      forall j | 0 < j < |r| ensures r[0] == r[j] || KeyLess(r[0], r[j]) {
        assert r[j] == rest[j - 1] && rest[j - 1] in rest;
      }
    }
  }

  // sort.Slice over the keys.
  function SortKeys(s: seq<ScopeKey>): (r: seq<ScopeKey>)
    ensures KeysSorted(r)
    ensures forall x :: x in r <==> x in s
  {
    if s == [] then []
    else
      assert s == [s[0]] + s[1..];
      InsertKeySorted(SortKeys(s[1..]), s[0]);
      InsertKey(SortKeys(s[1..]), s[0])
  }

  // Sorting, then keeping a key only when it differs from the last one kept.
  method SortedScopeKeys(scopes: seq<ScopeKey>) returns (result: seq<ScopeKey>)
    ensures KeysCanonical(result)
    ensures forall k :: k in result <==> k in scopes
  {
    var keys := SortKeys(scopes);
    result := [];
    for i := 0 to |keys|
      invariant KeysCanonical(result)
      invariant i == 0 ==> result == []
      invariant forall k :: k in result <==> k in keys[..i]
      invariant i > 0 ==> result != [] && result[|result| - 1] == keys[i - 1]
    {
      if |result| == 0 || result[|result| - 1] != keys[i] {
        if i > 0 {
          assert KeyLess(keys[i - 1], keys[i]);
        } else {
          assert result + [keys[i]] == [keys[i]];
        }
        result := result + [keys[i]];
      }
      assert keys[..i + 1] == keys[..i] + [keys[i]];
    }
    assert keys[..|keys|] == keys;
  }

  lemma HeadIsLess(s: seq<ScopeKey>, k: ScopeKey)
    requires KeysCanonical(s) && s != []
    ensures k in s[1..] <==> k in s && k != s[0]
  {
    assert s == [s[0]] + s[1..];
    if k in s[1..] {
      var i :| 0 <= i < |s| - 1 && s[1..][i] == k;
      assert KeyLess(s[0], s[i + 1]);
    }
  }

  // Two canonical key lists are equal exactly when they hold the same keys.
  lemma {:induction false} CanonicalKeysAreUnique(a: seq<ScopeKey>, b: seq<ScopeKey>)
    requires KeysCanonical(a) && KeysCanonical(b)
    ensures a == b <==> forall k :: k in a <==> k in b
  {
    if forall k :: k in a <==> k in b {
      if a == [] {
        assert b == [] || b[0] in b;
      } else {
        assert a[0] in b;
        assert b[0] in a;
        var i :| 0 <= i < |a| && a[i] == b[0];
        var j :| 0 <= j < |b| && b[j] == a[0];
        assert a[0] == b[0];
        forall k ensures k in a[1..] <==> k in b[1..] {
          HeadIsLess(a, k);
          HeadIsLess(b, k);
        }
        CanonicalKeysAreUnique(a[1..], b[1..]);
        assert a == [a[0]] + a[1..] && b == [b[0]] + b[1..];
      }
    }
  }

  function PatchScopes(kind: Kind, ws: Id, original: Option<Id>, target: Option<Id>): seq<ScopeKey> {
    [ScopeKey(kind, ws, original), ScopeKey(kind, ws, target)]
  }

  // equalScopeKeys over two canonical lists, by CanonicalKeysAreUnique.
  ghost predicate SameScopes(a: seq<ScopeKey>, b: seq<ScopeKey>) {
    forall k :: k in a <==> k in b
  }

  // ---------- preparation ----------

  // The normalised final position: defaulted, then forced into the target list.
  ghost function FinalPosition<P>(t: Table<P>, id: Id, target: Option<Id>, position: Option<int>): nat
    requires id in t
  {
    var row := t[id];
    var count := |Members(t, row.workspace, target) - {id}|;
    var wanted := if position.Some? then position.value else if row.parent != target then count else row.position;
    Clamp(wanted, count)
  }

  ghost function FinalPatch<P>(t: Table<P>, id: Id, target: Option<Id>, payload: P, position: Option<int>): Prepared<P>
    requires id in t
  {
    var row := t[id];
    var final := row.(parent := target, payload := payload, position := FinalPosition(t, id, target, position));
    Prepared(id, row, final, final == row)
  }

  // The target row is first read without locks in state seen; the locks are taken, and everything
  // else is read, in state s. Other transactions may have committed in between.
  ghost function PrepareFolder(seen: Store, s: Store, c: Caller, id: Id, patch: FolderPatch): Result<Prepared<string>, PrepareError> {
    if !Live(seen.folders, id) then Err(Refused(NotFound))
    else
      var discovered := seen.folders[id];
      var target := FolderTarget(discovered, patch);
      var initial := PatchScopes(FolderScope, discovered.workspace, discovered.parent, target);
      if !Live(s.folders, id) then Err(Refused(NotFound))
      else
        var locked := s.folders[id];
        if locked.workspace !in c.writable then Err(Refused(Forbidden))
        else if target.Some? && !FolderIn(s, target.value, locked.workspace) then Err(Refused(NotFound))
        else if target == Some(id) then Err(Refused(OwnParent))
        else if target.Some? && target.value in Subtree(LiveParents(s.folders), id) then Err(Refused(OwnSubtree))
        else
          var current := PatchScopes(FolderScope, locked.workspace, locked.parent, FolderTarget(locked, patch));
          if !SameScopes(initial, current) then Err(Drift)
          else if patch.name.Some? && TrimSpace(patch.name.value) == "" then Err(Refused(NameRequired))
          else Ok(FinalPatch(s.folders, id, target, NewName(locked, patch), patch.position))
  }

  ghost function PrepareBookmark(seen: Store, s: Store, c: Caller, id: Id, patch: BookmarkPatch): Result<Prepared<Link>, PrepareError> {
    if !Live(seen.bookmarks, id) then Err(Refused(NotFound))
    else
      var discovered := seen.bookmarks[id];
      var target := BookmarkTarget(discovered, patch);
      var initial := PatchScopes(BookmarkScope, discovered.workspace, discovered.parent, target);
      if !Live(s.bookmarks, id) then Err(Refused(NotFound))
      else
        var locked := s.bookmarks[id];
        if locked.workspace !in c.writable then Err(Refused(Forbidden))
        else if target.None? || !FolderIn(s, target.value, locked.workspace) then Err(Refused(NotFound))
        else
          var current := PatchScopes(BookmarkScope, locked.workspace, locked.parent, BookmarkTarget(locked, patch));
          if !SameScopes(initial, current) then Err(Drift)
          else if patch.title.Some? && TrimSpace(patch.title.value) == "" then Err(Refused(TitleRequired))
          else if patch.url.Some? && !c.validUrl(TrimSpace(patch.url.value)) then Err(Refused(InvalidUrl))
          else Ok(FinalPatch(s.bookmarks, id, target, NewLink(locked, patch), patch.position))
  }

  // A stale discovery is refused or harmless: what is prepared is the serial preparation on the locked state.
  lemma NoDriftMeansSerialFolder(seen: Store, s: Store, c: Caller, id: Id, patch: FolderPatch)
    requires PrepareFolder(seen, s, c, id, patch).Ok?
    ensures PrepareFolder(seen, s, c, id, patch) == PrepareFolder(s, s, c, id, patch)
    ensures seen.folders[id].parent == s.folders[id].parent
  {
    var a, b := seen.folders[id], s.folders[id];
    var initial := PatchScopes(FolderScope, a.workspace, a.parent, FolderTarget(a, patch));
    var current := PatchScopes(FolderScope, b.workspace, b.parent, FolderTarget(b, patch));
    assert initial[0] in initial && initial[1] in initial && current[0] in current && current[1] in current;
  }

  lemma NoDriftMeansSerialBookmark(seen: Store, s: Store, c: Caller, id: Id, patch: BookmarkPatch)
    requires PrepareBookmark(seen, s, c, id, patch).Ok?
    ensures PrepareBookmark(seen, s, c, id, patch) == PrepareBookmark(s, s, c, id, patch)
    ensures seen.bookmarks[id].parent == s.bookmarks[id].parent
  {
    var a, b := seen.bookmarks[id], s.bookmarks[id];
    var initial := PatchScopes(BookmarkScope, a.workspace, a.parent, BookmarkTarget(a, patch));
    var current := PatchScopes(BookmarkScope, b.workspace, b.parent, BookmarkTarget(b, patch));
    assert initial[0] in initial && initial[1] in initial && current[0] in current && current[1] in current;
  }

  // ---------- application ----------

  // The first UPDATE of the apply path leaves updated_at alone.
  ghost function ApplyDetached<P>(t: Table<P>, p: Prepared<P>, now: int): Table<P>
    requires Live(t, p.id)
  {
    var t1 := t[p.id := t[p.id].(parent := p.final.parent, payload := p.final.payload)];
    if p.original.parent != p.final.parent then Reordered(t1, p.original.workspace, p.original.parent, None, None, now) else t1
  }

  ghost function Applied<P>(t: Table<P>, p: Prepared<P>, now: int): (Table<P>, Row<P>)
    requires Live(t, p.id) && p.original == t[p.id] && p.final.workspace == p.original.workspace
  {
    if p.noOp then (t, p.final)
    else
      ApplyDetachedAgrees(t, p, now);
      DetachedEffect(t, p.id, p.final.parent, p.final.payload, now);
      AgreeButMembers(Detached(t, p.id, p.final.parent, p.final.payload, now), ApplyDetached(t, p, now), p.id, p.final.workspace, p.final.parent);
      (Reordered(ApplyDetached(t, p, now), p.final.workspace, p.final.parent, Some(p.id), Some(p.final.position), now), p.final)
  }

  // Equal but for the time of one row.
  ghost predicate AgreeBut<P>(t: Table<P>, u: Table<P>, id: Id) {
    && u.Keys == t.Keys
    && (forall x | x in t && x != id :: u[x] == t[x])
    && (id in t ==> u[id] == t[id].(updatedAt := u[id].updatedAt))
  }

  lemma AgreeButMembers<P>(t: Table<P>, u: Table<P>, id: Id, w: Id, p: Option<Id>)
    requires AgreeBut(t, u, id)
    ensures Members(u, w, p) == Members(t, w, p)
    ensures Children(u, w, p) == Children(t, w, p)
  {
    assert Members(u, w, p) == Members(t, w, p);
    ChildrenAgree(t, u, w, p);
  }

  lemma {:induction false} AgreeButRenumber<P>(t: Table<P>, u: Table<P>, id: Id, ids: seq<Id>, now: int)
    requires AgreeBut(t, u, id)
    requires forall x | x in ids :: x in t
    ensures AgreeBut(Renumber(t, ids, now), Renumber(u, ids, now), id)
    ensures id in ids ==> Renumber(t, ids, now) == Renumber(u, ids, now)
  {
    if ids != [] {
      var n := |ids| - 1;
      AgreeButRenumber(t, u, id, ids[..n], now);
      assert ids == ids[..n] + [ids[n]];
    }
  }

  lemma AgreeButReordered<P>(t: Table<P>, u: Table<P>, id: Id, ws: Id, parent: Option<Id>, moving: Option<Id>, requested: Option<int>, now: int)
    requires AgreeBut(t, u, id)
    requires moving.Some? ==> moving.value in Members(t, ws, parent)
    ensures moving.Some? ==> moving.value in Members(u, ws, parent)
    ensures AgreeBut(Reordered(t, ws, parent, moving, requested, now), Reordered(u, ws, parent, moving, requested, now), id)
    ensures moving == Some(id) ==> Reordered(t, ws, parent, moving, requested, now) == Reordered(u, ws, parent, moving, requested, now)
  {
    AgreeButMembers(t, u, id, ws, parent);
    NewOrderListsGroup(t, ws, parent, moving, requested);
    NewOrderListsGroup(u, ws, parent, moving, requested);
    AgreeButRenumber(t, u, id, NewOrder(t, ws, parent, moving, requested), now);
  }

  lemma ApplyDetachedAgrees<P>(t: Table<P>, p: Prepared<P>, now: int)
    requires Live(t, p.id) && p.original == t[p.id]
    ensures AgreeBut(Detached(t, p.id, p.final.parent, p.final.payload, now), ApplyDetached(t, p, now), p.id)
  {
    var row := t[p.id];
    var t1 := t[p.id := row.(parent := p.final.parent, payload := p.final.payload, updatedAt := now)];
    var u1 := t[p.id := row.(parent := p.final.parent, payload := p.final.payload)];
    if row.parent != p.final.parent {
      AgreeButReordered(t1, u1, p.id, row.workspace, row.parent, None, None, now);
    }
  }

  // Applying the prepared row is the direct move with the request normalised beforehand.
  lemma AppliedIsMoved<P>(t: Table<P>, id: Id, target: Option<Id>, payload: P, position: Option<int>, now: int)
    requires Live(t, id)
    ensures var p := FinalPatch(t, id, target, payload, position);
            var u := Moved(t, id, target, payload, RequestedPosition(t[id], target, position), now);
            && p.original == t[id] && p.final.workspace == t[id].workspace
            && p.final == u[id].(updatedAt := t[id].updatedAt)
            && (!p.noOp ==> Applied(t, p, now).0 == u)
  {
    var row := t[id];
    var p := FinalPatch(t, id, target, payload, position);
    var req := RequestedPosition(row, target, position);
    var u := Moved(t, id, target, payload, req, now);
    MovedEffect(t, id, target, payload, req, now);
    RestCount(t, id, row.workspace, target);
    var rest := Without(Children(t, row.workspace, target), id);
    assert InsertionPoint(|rest|, req) == p.final.position == InsertionPoint(|rest|, Some(p.final.position));
    if !p.noOp {
      var d := Detached(t, id, target, payload, now);
      DetachedEffect(t, id, target, payload, now);
      ApplyDetachedAgrees(t, p, now);
      AgreeButReordered(d, ApplyDetached(t, p, now), id, row.workspace, target, Some(id), Some(p.final.position), now);
      NewOrderListsGroup(d, row.workspace, target, Some(id), req);
      NewOrderListsGroup(d, row.workspace, target, Some(id), Some(p.final.position));
    }
  }

  lemma RestCount<P>(t: Table<P>, id: Id, ws: Id, target: Option<Id>)
    ensures |Without(Children(t, ws, target), id)| == |Members(t, ws, target) - {id}|
  {
    var group := Members(t, ws, target);
    SortedWithout(t, group, id);
    SortedLists(t, group - {id});
  }

  // Putting a row of a dense list back at its own position gives the same list.
  lemma OwnPlace<P>(t: Table<P>, id: Id)
    requires Live(t, id) && Dense(t, t[id].workspace, t[id].parent)
    ensures var c := Children(t, t[id].workspace, t[id].parent);
            && 0 <= t[id].position < |c| && c[t[id].position] == id
            && |Without(c, id)| == |c| - 1
            && Inserted(Without(c, id), id, t[id].position) == c
  {
    var c := Children(t, t[id].workspace, t[id].parent);
    ChildrenList(t, t[id].workspace, t[id].parent);
    assert id in c;
    var i :| 0 <= i < |c| && c[i] == id;
    ReinsertAtOwnIndex(c, i);
  }

  // Where a patch puts a row: without a position it keeps its place or goes to the end of its new list; a
  // position is its index among the other rows, forced into range.
  lemma PatchPlaces<P>(t: Table<P>, id: Id, target: Option<Id>, payload: P, position: Option<int>, now: int)
    requires Live(t, id) && Dense(t, t[id].workspace, t[id].parent)
    ensures var row := t[id];
            var u := Moved(t, id, target, payload, RequestedPosition(row, target, position), now);
            var before, after := Children(t, row.workspace, target), Children(u, row.workspace, target);
            && (position.None? && target == row.parent ==> after == before)
            && (position.None? && target != row.parent ==> after == before + [id])
            && (position.Some? ==> after == Inserted(Without(before, id), id, Clamp(position.value, |Without(before, id)|)))
  {
    var row := t[id];
    MovedEffect(t, id, target, payload, RequestedPosition(row, target, position), now);
    if position.None? {
      if target == row.parent {
        OwnPlace(t, id);
      } else {
        DroppingStranger(t, row.workspace, target, id);
      }
    }
  }

  // The list it leaves closes up around it, and every list but the two stays as it was.
  lemma PatchLeavesOthers<P>(t: Table<P>, id: Id, target: Option<Id>, payload: P, position: Option<int>, now: int, w: Id, p: Option<Id>)
    requires Live(t, id) && (w, p) != (t[id].workspace, target)
    ensures var u := Moved(t, id, target, payload, RequestedPosition(t[id], target, position), now);
            Children(u, w, p) == if (w, p) == (t[id].workspace, t[id].parent) then Without(Children(t, w, p), id) else Children(t, w, p)
  {
    var req := RequestedPosition(t[id], target, position);
    if (w, p) == (t[id].workspace, t[id].parent) {
      MovedEffect(t, id, target, payload, req, now);
    } else {
      MovedElsewhere(t, id, target, payload, req, now, w, p);
    }
  }

  // A dense list answers a move to the place a row already has with the same list.
  lemma NoOpMoveKeepsPositions<P>(t: Table<P>, id: Id, position: Option<int>, now: int)
    requires Live(t, id) && Dense(t, t[id].workspace, t[id].parent)
    requires FinalPosition(t, id, t[id].parent, position) == t[id].position
    ensures var row := t[id];
            var u := Moved(t, id, row.parent, row.payload, RequestedPosition(row, row.parent, position), now);
            OnlyTimesMoved(t, u, Members(t, row.workspace, row.parent), now)
  {
    var row := t[id];
    var group := Members(t, row.workspace, row.parent);
    var req := RequestedPosition(row, row.parent, position);
    var u := Moved(t, id, row.parent, row.payload, req, now);
    MovedEffect(t, id, row.parent, row.payload, req, now);
    RestCount(t, id, row.workspace, row.parent);
    OwnPlace(t, id);
    DetachedEffect(t, id, row.parent, row.payload, now);
    var d := Detached(t, id, row.parent, row.payload, now);
    AgreeButMembers(t, d, id, row.workspace, row.parent);
    ReorderedGroup(d, row.workspace, row.parent, Some(id), req, now);
    SameListingSamePositions(t, d, u, id, row.workspace, row.parent, now);
  }

  lemma SameListingSamePositions<P>(t: Table<P>, d: Table<P>, u: Table<P>, id: Id, ws: Id, parent: Option<Id>, now: int)
    requires AgreeBut(t, d, id) && OnlyPositionsMoved(d, u, Members(t, ws, parent), now)
    requires Dense(t, ws, parent) && Dense(u, ws, parent) && Children(u, ws, parent) == Children(t, ws, parent)
    requires id in Members(t, ws, parent)
    ensures OnlyTimesMoved(t, u, Members(t, ws, parent), now)
  {
    var c := Children(t, ws, parent);
    ChildrenList(t, ws, parent);
    forall x | x in t && x in Members(t, ws, parent) ensures u[x] == t[x].(updatedAt := now) {
      assert x in c;
      var k :| 0 <= k < |c| && c[k] == x;
      assert u[c[k]].position == k == t[c[k]].position;
      assert u[x] == d[x].(position := u[x].position, updatedAt := now);
    }
  }

  ghost predicate OnlyTimesMoved<P>(t: Table<P>, u: Table<P>, group: set<Id>, now: int) {
    && u.Keys == t.Keys
    && (forall x | x in t && x in group :: u[x] == t[x].(updatedAt := now))
    && (forall x | x in t && x !in group :: u[x] == t[x])
  }

  // ---------- the two paths agree ----------

  ghost function ApplyFolder(s: Store, p: Prepared<string>, now: int): (Store, Row<string>)
    requires Live(s.folders, p.id) && p.original == s.folders[p.id] && p.final.workspace == p.original.workspace
  {
    var r := Applied(s.folders, p, now);
    (s.(folders := r.0), r.1)
  }

  ghost function ApplyBookmark(s: Store, p: Prepared<Link>, now: int): (Store, Row<Link>)
    requires Live(s.bookmarks, p.id) && p.original == s.bookmarks[p.id] && p.final.workspace == p.original.workspace
  {
    var r := Applied(s.bookmarks, p, now);
    (s.(bookmarks := r.0), r.1)
  }

  // What the two paths must have in common once both accept.
  ghost predicate PathsAgree<P>(t: Table<P>, id: Id, p: Prepared<P>, applied: (Table<P>, Row<P>), direct: Table<P>, now: int) {
    && id in t && id in direct
    && applied.1 == direct[id].(updatedAt := t[id].updatedAt)
    && (!p.noOp ==> applied.0 == direct)
    && (p.noOp ==> applied.0 == t && OnlyTimesMoved(t, direct, Members(t, p.final.workspace, p.final.parent), now))
  }

  lemma MovePathsAgree<P>(t: Table<P>, id: Id, target: Option<Id>, payload: P, position: Option<int>, now: int)
    requires Live(t, id) && AllDense(t)
    ensures var p := FinalPatch(t, id, target, payload, position);
            && p.id == id && p.original == t[id] && p.final.workspace == t[id].workspace
            && PathsAgree(t, id, p, Applied(t, p, now), Moved(t, id, target, payload, RequestedPosition(t[id], target, position), now), now)
  {
    AppliedIsMoved(t, id, target, payload, position, now);
    MovedEffect(t, id, target, payload, RequestedPosition(t[id], target, position), now);
    if FinalPatch(t, id, target, payload, position).noOp {
      assert target == t[id].parent && payload == t[id].payload;
      NoOpMoveKeepsPositions(t, id, position, now);
    }
  }

  /** Both paths fail on the same inputs with the same error. */
  lemma FolderPathsFailAlike(s: Store, c: Caller, id: Id, patch: FolderPatch)
    ensures match PrepareFolder(s, s, c, id, patch)
            case Err(e) => e.Refused? && UpdateFolder(s, c, id, patch) == Err(e.error)
            case Ok(_) => UpdateFolder(s, c, id, patch).Ok?
  {
  }

  lemma BookmarkPathsFailAlike(s: Store, c: Caller, id: Id, patch: BookmarkPatch)
    ensures match PrepareBookmark(s, s, c, id, patch)
            case Err(e) => e.Refused? && UpdateBookmark(s, c, id, patch) == Err(e.error)
            case Ok(_) => UpdateBookmark(s, c, id, patch).Ok?
  {
  }

  /** Otherwise they reach the same store, except that a patch that changes nothing is skipped by apply and
      rewrites times on the direct path. The row apply returns is the row stored, but with the time it had
      when it was locked. */
  lemma FolderPathsAgree(s: Store, c: Caller, id: Id, patch: FolderPatch)
    requires Inv(s) && PrepareFolder(s, s, c, id, patch).Ok?
    ensures var p := PrepareFolder(s, s, c, id, patch).value;
            var direct := UpdateFolder(s, c, id, patch);
            && direct.Ok? && direct.value.0.bookmarks == s.bookmarks && direct.value.1 == direct.value.0.folders[id]
            && Live(s.folders, p.id) && p.original == s.folders[p.id] && p.final.workspace == p.original.workspace
            && PathsAgree(s.folders, id, p, Applied(s.folders, p, c.now), direct.value.0.folders, c.now)
  {
    var row := s.folders[id];
    var target := FolderTarget(row, patch);
    FolderPathsFailAlike(s, c, id, patch);
    MovePathsAgree(s.folders, id, target, NewName(row, patch), patch.position, c.now);
  }

  lemma BookmarkPathsAgree(s: Store, c: Caller, id: Id, patch: BookmarkPatch)
    requires Inv(s) && PrepareBookmark(s, s, c, id, patch).Ok?
    ensures var p := PrepareBookmark(s, s, c, id, patch).value;
            var direct := UpdateBookmark(s, c, id, patch);
            && direct.Ok? && direct.value.0.folders == s.folders && direct.value.1 == direct.value.0.bookmarks[id]
            && Live(s.bookmarks, p.id) && p.original == s.bookmarks[p.id] && p.final.workspace == p.original.workspace
            && PathsAgree(s.bookmarks, id, p, Applied(s.bookmarks, p, c.now), direct.value.0.bookmarks, c.now)
  {
    var row := s.bookmarks[id];
    var target := BookmarkTarget(row, patch);
    BookmarkPathsFailAlike(s, c, id, patch);
    MovePathsAgree(s.bookmarks, id, target, NewLink(row, patch), patch.position, c.now);
  }

  // The row apply returns is exactly the row stored if and only if nothing was rewritten at a new time.
  lemma ReturnedRowIsStoredIff(s: Store, c: Caller, id: Id, patch: FolderPatch)
    requires Inv(s) && PrepareFolder(s, s, c, id, patch).Ok?
    ensures var p := PrepareFolder(s, s, c, id, patch).value;
            && Live(s.folders, p.id) && p.original == s.folders[p.id] && p.final.workspace == p.original.workspace
            && (ApplyFolder(s, p, c.now).1 == ApplyFolder(s, p, c.now).0.folders[id] <==> p.noOp || s.folders[id].updatedAt == c.now)
  {
    FolderPathsAgree(s, c, id, patch);
    var row := s.folders[id];
    var target := FolderTarget(row, patch);
    var req := RequestedPosition(row, target, patch.position);
    MovedEffect(s.folders, id, target, NewName(row, patch), req, c.now);
  }

  lemma ReturnedBookmarkIsStoredIff(s: Store, c: Caller, id: Id, patch: BookmarkPatch)
    requires Inv(s) && PrepareBookmark(s, s, c, id, patch).Ok?
    ensures var p := PrepareBookmark(s, s, c, id, patch).value;
            && Live(s.bookmarks, p.id) && p.original == s.bookmarks[p.id] && p.final.workspace == p.original.workspace
            && (ApplyBookmark(s, p, c.now).1 == ApplyBookmark(s, p, c.now).0.bookmarks[id] <==> p.noOp || s.bookmarks[id].updatedAt == c.now)
  {
    BookmarkPathsAgree(s, c, id, patch);
    var row := s.bookmarks[id];
    var target := BookmarkTarget(row, patch);
    var req := RequestedPosition(row, target, patch.position);
    MovedEffect(s.bookmarks, id, target, NewLink(row, patch), req, c.now);
  }

  // ---------- repeats ----------

  // What the request fingerprint of a PATCH covers: everything of the final row but its times.
  datatype Fingerprint<P> = Fingerprint(id: Id, workspace: Id, parent: Option<Id>, payload: P, position: int)

  function PatchFingerprint<P>(p: Prepared<P>): Fingerprint<P> {
    Fingerprint(p.id, p.final.workspace, p.final.parent, p.final.payload, p.final.position)
  }

  // A defaulted, clamped position is stable once applied.
  lemma FinalPositionIsStable<P>(t: Table<P>, id: Id, target: Option<Id>, payload: P, position: Option<int>, now: int)
    requires Live(t, id)
    ensures var p := FinalPatch(t, id, target, payload, position);
            && p.original == t[id] && p.final.workspace == t[id].workspace
            && var u := Applied(t, p, now).0;
               && Live(u, id)
               && FinalPosition(u, id, target, position) == p.final.position
               && u[id] == p.final.(updatedAt := u[id].updatedAt)
  {
    var p := FinalPatch(t, id, target, payload, position);
    AppliedIsMoved(t, id, target, payload, position, now);
    if !p.noOp {
      var row := t[id];
      var req := RequestedPosition(row, target, position);
      var u := Moved(t, id, target, payload, req, now);
      MovedEffect(t, id, target, payload, req, now);
      RestCount(t, id, row.workspace, target);
      RestCount(u, id, row.workspace, target);
      var rest := Without(Children(t, row.workspace, target), id);
      ChildrenList(t, row.workspace, target);
      WithoutDistinct(Children(t, row.workspace, target), id);
      InsertedDistinct(rest, id, p.final.position);
    }
  }

  /** Preparing the same input again, on the state its application left, by the same or another time and
      caller who may write there, is accepted, changes nothing and has the same fingerprint. */
  lemma RepeatedFolderPatchIsRecognised(s: Store, c: Caller, c2: Caller, id: Id, patch: FolderPatch)
    requires Inv(s) && PrepareFolder(s, s, c, id, patch).Ok?
    requires s.folders[id].workspace in c2.writable
    ensures var p := PrepareFolder(s, s, c, id, patch).value;
            && Live(s.folders, p.id) && p.original == s.folders[p.id] && p.final.workspace == p.original.workspace
            && var after := ApplyFolder(s, p, c.now).0;
               var again := PrepareFolder(after, after, c2, id, patch);
               again.Ok? && again.value.noOp && PatchFingerprint(again.value) == PatchFingerprint(p)
  {
    var row := s.folders[id];
    var target := FolderTarget(row, patch);
    var name := NewName(row, patch);
    var p := FinalPatch(s.folders, id, target, name, patch.position);
    assert PrepareFolder(s, s, c, id, patch) == Ok(p);
    FinalPositionIsStable(s.folders, id, target, name, patch.position, c.now);
    var after := ApplyFolder(s, p, c.now).0;
    assert FolderTarget(after.folders[id], patch) == target && NewName(after.folders[id], patch) == name;
    assert FinalPosition(after.folders, id, target, patch.position) == p.final.position;
    AfterPatchIsAccepted(s, c, id, patch);
  }

  // The checks that passed before the patch pass again after it.
  lemma AfterPatchIsAccepted(s: Store, c: Caller, id: Id, patch: FolderPatch)
    requires Inv(s) && PrepareFolder(s, s, c, id, patch).Ok?
    ensures var p := PrepareFolder(s, s, c, id, patch).value;
            && Live(s.folders, p.id) && p.original == s.folders[p.id] && p.final.workspace == p.original.workspace
            && var after := ApplyFolder(s, p, c.now).0;
               && Inv(after) && Live(after.folders, id)
               && (p.final.parent.Some? ==> FolderIn(after, p.final.parent.value, p.final.workspace))
               && (p.final.parent.Some? ==> p.final.parent.value != id && p.final.parent.value !in Subtree(LiveParents(after.folders), id))
  {
    var row := s.folders[id];
    var target := FolderTarget(row, patch);
    var req := RequestedPosition(row, target, patch.position);
    FolderPathsAgree(s, c, id, patch);
    UpdateFolderKeepsInv(s, c, id, patch);
    var p := PrepareFolder(s, s, c, id, patch).value;
    var after := ApplyFolder(s, p, c.now).0;
    MovedEffect(s.folders, id, target, NewName(row, patch), req, c.now);
    if target.Some? {
      if !p.noOp {
        assert SameShape(after.folders[target.value], s.folders[target.value]);
      }
      ParentIsNotBelow(after, id);
    }
  }

  lemma ParentIsNotBelow(s: Store, id: Id)
    requires Inv(s) && Live(s.folders, id) && s.folders[id].parent.Some?
    ensures s.folders[id].parent.value != id
    ensures s.folders[id].parent.value !in Subtree(LiveParents(s.folders), id)
  {
    var all := AllParents(s.folders);
    var q := s.folders[id].parent.value;
    assert Up(all, id, 1) == Up(all, q, 0);
    AcyclicHasNoCycle(all, id, 1);
    if q in Subtree(LiveParents(s.folders), id) {
      LiveReachesIff(s.folders, q, id);
      var n: nat :| Up(all, q, n) == Some(id);
      assert Up(all, id, n + 1) == Some(id);
      AcyclicHasNoCycle(all, id, n + 1);
    }
  }

  lemma RepeatedBookmarkPatchIsRecognised(s: Store, c: Caller, c2: Caller, id: Id, patch: BookmarkPatch)
    requires Inv(s) && PrepareBookmark(s, s, c, id, patch).Ok?
    requires s.bookmarks[id].workspace in c2.writable && c2.validUrl == c.validUrl
    ensures var p := PrepareBookmark(s, s, c, id, patch).value;
            && Live(s.bookmarks, p.id) && p.original == s.bookmarks[p.id] && p.final.workspace == p.original.workspace
            && var after := ApplyBookmark(s, p, c.now).0;
               var again := PrepareBookmark(after, after, c2, id, patch);
               again.Ok? && again.value.noOp && PatchFingerprint(again.value) == PatchFingerprint(p)
  {
    var row := s.bookmarks[id];
    var target := BookmarkTarget(row, patch);
    var p := FinalPatch(s.bookmarks, id, target, NewLink(row, patch), patch.position);
    assert PrepareBookmark(s, s, c, id, patch) == Ok(p);
    FinalPositionIsStable(s.bookmarks, id, target, NewLink(row, patch), patch.position, c.now);
  }
}
