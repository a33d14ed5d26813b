/** A PATCH sent twice under one event id: the prepared row feeds the fingerprint of the idempotent command. */
module RepeatedPatch {
  import opened Common
  import opened Ancestry
  import opened SiblingOrder
  import opened RowMoves
  import opened Forest
  import opened Prepare
  import I = Idempotency

  // The canonical encoding of a fingerprint and its hash, taken as injective.
  ghost predicate Injective<P(!new)>(encode: Fingerprint<P> -> Id) {
    forall a, b :: encode(a) == encode(b) ==> a == b
  }

  // A key nobody holds and nobody has used.
  ghost predicate KeyIsNew(i: I.System, lockOf: I.Scope -> Id, call: Id, scope: I.Scope) {
    && call !in i.calls && scope !in i.records && lockOf(scope) !in i.locks
    && forall k | k in i.locks :: i.locks[k] != call
  }

  // The first call, committed; its answer may or may not have been heard.
  ghost function FirstCall(i: I.System, lockOf: I.Scope -> Id, call: Id, scope: I.Scope, fingerprint: Id, result: I.SafeResult, hook: Id, heard: bool): I.System {
    I.Uninterrupted(i, lockOf, call, scope, Some(fingerprint), Some((result, hook)), if heard then I.Heard else I.Unheard)
  }

  lemma CommittedCallIsGone(i: I.System, lockOf: I.Scope -> Id, call: Id, scope: I.Scope, fingerprint: Id, result: I.SafeResult, hook: Id, fate: I.CommitFate)
    requires call in i.calls && i.calls[call] == I.Call(scope, I.Claimed(fingerprint), i.now) && I.SafeStatus(result) && fate != I.RolledBack
    requires lockOf(scope) in i.locks && i.locks[lockOf(scope)] == call
    ensures var t := I.Next(I.Next(I.Next(i, lockOf, I.Run(call, Some((result, hook)))), lockOf, I.Complete(call)), lockOf, I.Commit(call, fate));
            t.calls == i.calls - {call} && lockOf(scope) !in t.locks && t.records == i.records[scope := I.Record(fingerprint, I.Completed, Some(result), i.now + I.TTL)]
  {
    var ran := I.Next(i, lockOf, I.Run(call, Some((result, hook))));
    var done := I.Next(ran, lockOf, I.Complete(call));
    assert done.calls[call].phase == I.Finished(fingerprint, result, hook);
    assert done.calls - {call} == i.calls - {call};
  }

  // After it the key's receipt is complete and its lock free again.
  lemma FirstCallLeavesReceipt(i: I.System, lockOf: I.Scope -> Id, call: Id, scope: I.Scope, fingerprint: Id, result: I.SafeResult, hook: Id, heard: bool)
    requires KeyIsNew(i, lockOf, call, scope) && I.SafeStatus(result)
    ensures var t := FirstCall(i, lockOf, call, scope, fingerprint, result, hook, heard);
            && lockOf(scope) !in t.locks && t.calls.Keys == i.calls.Keys
            && scope in t.records && t.records[scope] == I.Record(fingerprint, I.Completed, Some(result), i.now + I.TTL)
  {
    I.ReachesClaim(i, lockOf, call, scope, fingerprint);
    var at := i.(calls := i.calls[call := I.Call(scope, I.Claimed(fingerprint), i.now)], locks := i.locks[lockOf(scope) := call]);
    CommittedCallIsGone(at, lockOf, call, scope, fingerprint, result, hook, if heard then I.Heard else I.Unheard);
  }

  // What a call under the same key is told, once the first has committed: the first response when what it
  // prepares is what the first prepared, a conflict otherwise. Its command is not run.
  lemma SecondCallIsTold<P(!new)>(i: I.System, lockOf: I.Scope -> Id, first: Id, second: Id, scope: I.Scope, encode: Fingerprint<P> -> Id,
                            was: Fingerprint<P>, again: Fingerprint<P>, result: I.SafeResult, hook: Id, heard: bool, ran: Option<(I.SafeResult, Id)>)
    requires KeyIsNew(i, lockOf, first, scope) && I.SafeStatus(result) && second !in i.calls && Injective(encode)
    ensures var t := FirstCall(i, lockOf, first, scope, encode(was), result, hook, heard);
            I.Told(t, I.Uninterrupted(t, lockOf, second, scope, Some(encode(again)), ran, I.Heard), scope,
                   if again == was then I.Replayed(result) else I.KeyConflict)
  {
    FirstCallLeavesReceipt(i, lockOf, first, scope, encode(was), result, hook, heard);
    var t := FirstCall(i, lockOf, first, scope, encode(was), result, hook, heard);
    assert encode(again) == encode(was) <==> again == was;
    I.EndsOnReceipt(t, lockOf, second, scope, encode(again), ran, I.Heard);
  }

  /** A folder PATCH sent again with nothing in between is answered with the stored response, whatever its
      command would do, and the forest stays as the first one left it. */
  lemma FolderPatchSentTwice(s: Store, c: Caller, c2: Caller, id: Id, patch: FolderPatch, i: I.System, lockOf: I.Scope -> Id, first: Id, second: Id,
                             scope: I.Scope, encode: Fingerprint<string> -> Id, result: I.SafeResult, hook: Id, heard: bool, ran: Option<(I.SafeResult, Id)>)
    requires Inv(s) && PrepareFolder(s, s, c, id, patch).Ok? && s.folders[id].workspace in c2.writable
    requires KeyIsNew(i, lockOf, first, scope) && I.SafeStatus(result) && second !in i.calls && Injective(encode)
    ensures var p := PrepareFolder(s, s, c, id, patch).value;
            && Live(s.folders, p.id) && p.original == s.folders[p.id] && p.final.workspace == p.original.workspace
            && var after := ApplyFolder(s, p, c.now).0;
               var again := PrepareFolder(after, after, c2, id, patch);
               var t := FirstCall(i, lockOf, first, scope, encode(PatchFingerprint(p)), result, hook, heard);
               again.Ok? && I.Told(t, I.Uninterrupted(t, lockOf, second, scope, Some(encode(PatchFingerprint(again.value))), ran, I.Heard), scope, I.Replayed(result))
  {
    RepeatedFolderPatchIsRecognised(s, c, c2, id, patch);
    var was := PatchFingerprint(PrepareFolder(s, s, c, id, patch).value);
    SecondCallIsTold(i, lockOf, first, second, scope, encode, was, was, result, hook, heard, ran);
  }

  lemma BookmarkPatchSentTwice(s: Store, c: Caller, c2: Caller, id: Id, patch: BookmarkPatch, i: I.System, lockOf: I.Scope -> Id, first: Id, second: Id,
                               scope: I.Scope, encode: Fingerprint<Link> -> Id, result: I.SafeResult, hook: Id, heard: bool, ran: Option<(I.SafeResult, Id)>)
    requires Inv(s) && PrepareBookmark(s, s, c, id, patch).Ok? && s.bookmarks[id].workspace in c2.writable && c2.validUrl == c.validUrl
    requires KeyIsNew(i, lockOf, first, scope) && I.SafeStatus(result) && second !in i.calls && Injective(encode)
    ensures var p := PrepareBookmark(s, s, c, id, patch).value;
            && Live(s.bookmarks, p.id) && p.original == s.bookmarks[p.id] && p.final.workspace == p.original.workspace
            && var after := ApplyBookmark(s, p, c.now).0;
               var again := PrepareBookmark(after, after, c2, id, patch);
               var t := FirstCall(i, lockOf, first, scope, encode(PatchFingerprint(p)), result, hook, heard);
               again.Ok? && I.Told(t, I.Uninterrupted(t, lockOf, second, scope, Some(encode(PatchFingerprint(again.value))), ran, I.Heard), scope, I.Replayed(result))
  {
    RepeatedBookmarkPatchIsRecognised(s, c, c2, id, patch);
    var was := PatchFingerprint(PrepareBookmark(s, s, c, id, patch).value);
    SecondCallIsTold(i, lockOf, first, second, scope, encode, was, was, result, hook, heard, ran);
  }

  // What a repeat of a patch must still find, apart from what it writes itself: the row with the parent and
  // payload it had then, at the place it got then. others: how many siblings it has where it was put.
  ghost predicate StillThere<P>(row: Row<P>, was: Row<P>, setsParent: bool, position: Option<int>, others: nat) {
    && row.workspace == was.workspace
    && (!setsParent ==> row.parent == was.parent)
    && match position
       case Some(k) => Clamp(k, others) == was.position
       case None => if row.parent == was.parent then row.position == was.position else others == was.position
  }

  // How many live rows of a list stand beside the given one.
  ghost function Others<P>(t: Table<P>, ws: Id, parent: Option<Id>, id: Id): nat {
    |Without(Children(t, ws, parent), id)|
  }

  lemma FinalIsStillThere<P>(t: Table<P>, id: Id, target: Option<Id>, payload: P, position: Option<int>, was: Row<P>, setsParent: bool)
    requires Live(t, id) && Dense(t, t[id].workspace, t[id].parent)
    requires if setsParent then target == was.parent else target == t[id].parent
    ensures var again := FinalPatch(t, id, target, payload, position).final;
            && again.workspace == t[id].workspace && again.parent == target && again.payload == payload
            && (again.workspace == was.workspace && again.parent == was.parent && again.position == was.position <==>
                  StillThere(t[id], was, setsParent, position, Others(t, t[id].workspace, was.parent, id)))
  {
    RestCount(t, id, t[id].workspace, target);
    if t[id].parent == target { OwnPlace(t, id); }
  }

  ghost function Repeated<P>(p: Result<Prepared<P>, PrepareError>, encode: Fingerprint<P> -> Id): Option<Id> {
    match p case Ok(q) => Some(encode(PatchFingerprint(q))) case Err(_) => None
  }

  /** The same folder PATCH under the same event id, with any transactions in between: an error if it is not
      accepted any more, the stored response if what it does not write itself is still there, and a conflict
      otherwise, although it is the same request. */
  lemma LaterRepeatIsReplayedIff(s: Store, later: Store, c: Caller, c2: Caller, id: Id, patch: FolderPatch, i: I.System, lockOf: I.Scope -> Id, first: Id, second: Id,
                                 scope: I.Scope, encode: Fingerprint<string> -> Id, result: I.SafeResult, hook: Id, heard: bool, ran: Option<(I.SafeResult, Id)>)
    requires PrepareFolder(s, s, c, id, patch).Ok? && Inv(later)
    requires KeyIsNew(i, lockOf, first, scope) && I.SafeStatus(result) && second !in i.calls && Injective(encode)
    ensures var p := PrepareFolder(s, s, c, id, patch).value;
            var again := PrepareFolder(later, later, c2, id, patch);
            var t := FirstCall(i, lockOf, first, scope, encode(PatchFingerprint(p)), result, hook, heard);
            && (again.Ok? ==> Live(later.folders, id))
            && I.Told(t, I.Uninterrupted(t, lockOf, second, scope, Repeated(again, encode), ran, I.Heard), scope,
                      if again.Err? then I.Error
                      else if (patch.name.Some? || later.folders[id].payload == p.final.payload)
                        && StillThere(later.folders[id], p.final, patch.parent.Some?, patch.position, Others(later.folders, later.folders[id].workspace, p.final.parent, id))
                      then I.Replayed(result)
                      else I.KeyConflict)
  {
    var p := PrepareFolder(s, s, c, id, patch).value;
    var again := PrepareFolder(later, later, c2, id, patch);
    if again.Err? {
      FirstCallLeavesReceipt(i, lockOf, first, scope, encode(PatchFingerprint(p)), result, hook, heard);
      I.EndsBeforeClaim(FirstCall(i, lockOf, first, scope, encode(PatchFingerprint(p)), result, hook, heard), lockOf, second, scope, None, ran, I.Heard);
    } else {
      var row := later.folders[id];
      assert Dense(later.folders, row.workspace, row.parent);
      FinalIsStillThere(later.folders, id, FolderTarget(row, patch), NewName(row, patch), patch.position, p.final, patch.parent.Some?);
      SecondCallIsTold(i, lockOf, first, second, scope, encode, PatchFingerprint(p), PatchFingerprint(again.value), result, hook, heard, ran);
    }
  }

  // An explicit null for the folder leaves it as it is, like an absent one.
  predicate SetsFolder(patch: BookmarkPatch) {
    patch.folder.Some? && patch.folder.value.Some?
  }

  /** The same for bookmarks. */
  lemma LaterBookmarkRepeatIsReplayedIff(s: Store, later: Store, c: Caller, c2: Caller, id: Id, patch: BookmarkPatch, i: I.System, lockOf: I.Scope -> Id, first: Id,
                                         second: Id, scope: I.Scope, encode: Fingerprint<Link> -> Id, result: I.SafeResult, hook: Id, heard: bool, ran: Option<(I.SafeResult, Id)>)
    requires PrepareBookmark(s, s, c, id, patch).Ok? && Inv(later)
    requires KeyIsNew(i, lockOf, first, scope) && I.SafeStatus(result) && second !in i.calls && Injective(encode)
    ensures var p := PrepareBookmark(s, s, c, id, patch).value;
            var again := PrepareBookmark(later, later, c2, id, patch);
            var t := FirstCall(i, lockOf, first, scope, encode(PatchFingerprint(p)), result, hook, heard);
            && (again.Ok? ==> Live(later.bookmarks, id))
            && I.Told(t, I.Uninterrupted(t, lockOf, second, scope, Repeated(again, encode), ran, I.Heard), scope,
                      if again.Err? then I.Error
                      else if (patch.title.Some? || later.bookmarks[id].payload.title == p.final.payload.title)
                        && (patch.url.Some? || later.bookmarks[id].payload.url == p.final.payload.url)
                        && StillThere(later.bookmarks[id], p.final, SetsFolder(patch), patch.position, Others(later.bookmarks, later.bookmarks[id].workspace, p.final.parent, id))
                      then I.Replayed(result)
                      else I.KeyConflict)
  {
    var p := PrepareBookmark(s, s, c, id, patch).value;
    var again := PrepareBookmark(later, later, c2, id, patch);
    if again.Err? {
      FirstCallLeavesReceipt(i, lockOf, first, scope, encode(PatchFingerprint(p)), result, hook, heard);
      I.EndsBeforeClaim(FirstCall(i, lockOf, first, scope, encode(PatchFingerprint(p)), result, hook, heard), lockOf, second, scope, None, ran, I.Heard);
    } else {
      var row := later.bookmarks[id];
      assert Dense(later.bookmarks, row.workspace, row.parent);
      FinalIsStillThere(later.bookmarks, id, BookmarkTarget(row, patch), NewLink(row, patch), patch.position, p.final, SetsFolder(patch));
      SecondCallIsTold(i, lockOf, first, second, scope, encode, PatchFingerprint(p), PatchFingerprint(again.value), result, hook, heard, ran);
    }
  }

  // The failing input: a folder with a sibling is renamed without a position, then moved within its list, and
  // the rename is sent again.
  lemma MovedInBetweenConflicts(s: Store, c: Caller, c2: Caller, id: Id, name: string, i: I.System, lockOf: I.Scope -> Id, first: Id, second: Id,
                                scope: I.Scope, encode: Fingerprint<string> -> Id, result: I.SafeResult, hook: Id, heard: bool, ran: Option<(I.SafeResult, Id)>)
    requires Inv(s) && PrepareFolder(s, s, c, id, Rename(name)).Ok? && s.folders[id].workspace in c2.writable
    requires |Children(s.folders, s.folders[id].workspace, s.folders[id].parent)| >= 2
    requires KeyIsNew(i, lockOf, first, scope) && I.SafeStatus(result) && second !in i.calls && Injective(encode)
    ensures var later := RenamedThenMoved(s, c, c2, id, name);
            && later.Ok?
            && var again := PrepareFolder(later.value, later.value, c2, id, Rename(name));
               var t := FirstCall(i, lockOf, first, scope, encode(PatchFingerprint(PrepareFolder(s, s, c, id, Rename(name)).value)), result, hook, heard);
               again.Ok? && I.Told(t, I.Uninterrupted(t, lockOf, second, scope, Repeated(again, encode), ran, I.Heard), scope, I.KeyConflict)
  {
    StandsElsewhere(s, c, c2, id, name);
    LaterRepeatIsReplayedIff(s, RenamedThenMoved(s, c, c2, id, name).value, c, c2, id, Rename(name), i, lockOf, first, second, scope, encode, result, hook, heard, ran);
  }

  function Rename(name: string): FolderPatch {
    FolderPatch(Some(name), None, None)
  }

  function MoveTo(position: int): FolderPatch {
    FolderPatch(None, None, Some(position))
  }

  ghost function RenamedThenMoved(s: Store, c: Caller, c2: Caller, id: Id, name: string): Result<Store, Error>
    requires id in s.folders
  {
    match UpdateFolder(s, c, id, Rename(name))
    case Err(e) => Err(e)
    case Ok(r) =>
      match UpdateFolder(r.0, c2, id, MoveTo(if s.folders[id].position == 0 then 1 else 0))
      case Err(e) => Err(e)
      case Ok(q) => Ok(q.0)
  }

  lemma StandsElsewhere(s: Store, c: Caller, c2: Caller, id: Id, name: string)
    requires Inv(s) && PrepareFolder(s, s, c, id, Rename(name)).Ok? && s.folders[id].workspace in c2.writable
    requires |Children(s.folders, s.folders[id].workspace, s.folders[id].parent)| >= 2
    ensures var later := RenamedThenMoved(s, c, c2, id, name);
            var was := PrepareFolder(s, s, c, id, Rename(name)).value.final;
            && later.Ok? && Inv(later.value) && Live(later.value.folders, id)
            && later.value.folders[id].parent == was.parent && later.value.folders[id].position != was.position
            && PrepareFolder(later.value, later.value, c2, id, Rename(name)).Ok?
  {
    RenamePrepared(s, c, id, name);
    RenamedInPlace(s, c, id, name);
    UpdateFolderKeepsInv(s, c, id, Rename(name));
    ThenMoved(UpdateFolder(s, c, id, Rename(name)).value.0, c2, id, if s.folders[id].position == 0 then 1 else 0, name);
  }

  lemma ThenMoved(s: Store, c: Caller, id: Id, to: int, name: string)
    requires Inv(s) && Live(s.folders, id) && s.folders[id].workspace in c.writable && TrimSpace(name) != ""
    requires 0 <= to < |Children(s.folders, s.folders[id].workspace, s.folders[id].parent)|
    ensures UpdateFolder(s, c, id, MoveTo(to)).Ok?
    ensures var later := UpdateFolder(s, c, id, MoveTo(to)).value.0;
            && Inv(later) && Live(later.folders, id) && later.folders[id].parent == s.folders[id].parent && later.folders[id].position == to
            && PrepareFolder(later, later, c, id, Rename(name)).Ok?
  {
    UpdateAcceptedInPlace(s, c, id, MoveTo(to));
    MovedInPlace(s, c, id, to);
    UpdateFolderKeepsInv(s, c, id, MoveTo(to));
    PrepareAcceptedInPlace(UpdateFolder(s, c, id, MoveTo(to)).value.0, c, id, Rename(name));
  }

  lemma PrepareAcceptedInPlace(s: Store, c: Caller, id: Id, patch: FolderPatch)
    requires Inv(s) && Live(s.folders, id) && s.folders[id].workspace in c.writable && patch.parent.None?
    requires patch.name.Some? ==> TrimSpace(patch.name.value) != ""
    ensures PrepareFolder(s, s, c, id, patch).Ok?
  {
    UpdateAcceptedInPlace(s, c, id, patch);
    FolderPathsFailAlike(s, c, id, patch);
  }

  // The failing input of the returned row: a folder written earlier is given another name. The row stored has the
  // new time, the row returned the old one.
  lemma RenameReturnsOldTime(s: Store, c: Caller, id: Id, name: string)
    requires Inv(s) && Live(s.folders, id) && s.folders[id].workspace in c.writable
    requires TrimSpace(name) != "" && TrimSpace(name) != s.folders[id].payload && s.folders[id].updatedAt != c.now
    ensures PrepareFolder(s, s, c, id, Rename(name)).Ok?
    ensures var p := PrepareFolder(s, s, c, id, Rename(name)).value;
            && p.id == id && p.original == s.folders[id] && p.final.workspace == p.original.workspace
            && ApplyFolder(s, p, c.now).0.folders[id].updatedAt == c.now && ApplyFolder(s, p, c.now).1.updatedAt == s.folders[id].updatedAt
  {
    PrepareAcceptedInPlace(s, c, id, Rename(name));
    FolderPathsAgree(s, c, id, Rename(name));
    RenamedInPlace(s, c, id, name);
  }

  lemma RenamePrepared(s: Store, c: Caller, id: Id, name: string)
    requires Inv(s) && PrepareFolder(s, s, c, id, Rename(name)).Ok?
    ensures UpdateFolder(s, c, id, Rename(name)).Ok?
    ensures var was := PrepareFolder(s, s, c, id, Rename(name)).value.final; was.parent == s.folders[id].parent && was.position == s.folders[id].position
  {
    FolderPathsFailAlike(s, c, id, Rename(name));
    RenamedInPlace(s, c, id, name);
  }

  // A patch that names no parent is accepted wherever the caller may write and the name is not blank.
  lemma UpdateAcceptedInPlace(s: Store, c: Caller, id: Id, patch: FolderPatch)
    requires Inv(s) && Live(s.folders, id) && s.folders[id].workspace in c.writable && patch.parent.None?
    requires patch.name.Some? ==> TrimSpace(patch.name.value) != ""
    ensures UpdateFolder(s, c, id, patch).Ok?
  {
    FolderPatchAcceptedIff(s, c, id, patch);
    assert AllParents(s.folders)[id := s.folders[id].parent] == AllParents(s.folders);
  }

  lemma RenamedInPlace(s: Store, c: Caller, id: Id, name: string)
    requires Inv(s) && UpdateFolder(s, c, id, Rename(name)).Ok?
    ensures FinalPosition(s.folders, id, s.folders[id].parent, None) == s.folders[id].position
    ensures var u := UpdateFolder(s, c, id, Rename(name)).value.0;
            && Live(u.folders, id) && u.folders[id] == s.folders[id].(payload := TrimSpace(name), updatedAt := c.now)
            && Children(u.folders, s.folders[id].workspace, s.folders[id].parent) == Children(s.folders, s.folders[id].workspace, s.folders[id].parent)
  {
    var row := s.folders[id];
    assert Dense(s.folders, row.workspace, row.parent);
    OwnPlace(s.folders, id);
    RestCount(s.folders, id, row.workspace, row.parent);
    MovedEffect(s.folders, id, row.parent, TrimSpace(name), Some(row.position), c.now);
  }

  lemma MovedInPlace(s: Store, c: Caller, id: Id, to: int)
    requires Inv(s) && UpdateFolder(s, c, id, MoveTo(to)).Ok?
    requires 0 <= to < |Children(s.folders, s.folders[id].workspace, s.folders[id].parent)|
    ensures var u := UpdateFolder(s, c, id, MoveTo(to)).value.0;
            Live(u.folders, id) && u.folders[id] == s.folders[id].(position := to, updatedAt := c.now)
  {
    var row := s.folders[id];
    assert Dense(s.folders, row.workspace, row.parent);
    OwnPlace(s.folders, id);
    MovedEffect(s.folders, id, row.parent, row.payload, Some(to), c.now);
  }
}
