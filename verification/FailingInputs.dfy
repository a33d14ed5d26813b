/** Histories on which a rebuild's closing replay fails: workspaces with nothing but folders at their root. */
module FailingInputs {
  import opened Common
  import opened Ancestry
  import opened ForestView
  import opened ChromeTree
  import opened Replay
  import opened Echoes
  import opened GatedReplay
  import opened Overlay
  import opened ClosingReplay
  import opened StaleReplay
  import opened Recovery
  import opened Clearing

  ghost function Onward(w: View, log: seq<Option<Event>>, i: nat, j: nat): View
    requires j <= |log|
  {
    if j <= i then w else Forward(Onward(w, log, i, j - 1), log[j - 1])
  }

  // The forests that applying the log from its i-th entry on goes through.
  ghost function Rerun(w: View, log: seq<Option<Event>>, i: nat): (r: seq<View>)
    ensures |r| == |log| + 1
  {
    seq(|log| + 1, j requires 0 <= j <= |log| => Onward(w, log, i, j))
  }

  ghost predicate GoesOn(h: seq<View>, log: seq<Option<Event>>, i: nat) {
    |h| == |log| + 1 && forall j | i <= j < |log| :: h[j + 1] == Forward(h[j], log[j])
  }

  lemma RerunGoesOn(w: View, log: seq<Option<Event>>, i: nat)
    ensures GoesOn(Rerun(w, log, i), log, i)
  {
  }

  // Empty folders side by side, each with its title.
  ghost predicate IsFlat(v: View, ids: seq<Id>, title: Id -> string) {
    && Distinct(ids)
    && (forall x :: x in v.parent <==> x in ids) && (forall x | x in ids :: v.parent[x] == None)
    && (forall x :: x in v.caption <==> x in ids) && (forall x | x in ids :: v.caption[x] == FolderLabel(title(x)))
    && RootOnly(v.kids, ids)
  }

  ghost predicate RootOnly(kids: Lists, ids: seq<Id>) {
    (forall k :: k in kids <==> k.None? || k.value in ids) && kids[None] == ids && (forall x | x in ids :: kids[Some(x)] == [])
  }

  // Sealed, as the pictures are.
  ghost predicate OpenedRow(really: bool, v: View, ids: seq<Id>, title: Id -> string) {
    really ==> IsFlat(v, ids, title)
  }

  ghost predicate InARow(v: View, ids: seq<Id>, title: Id -> string) {
    forall really: bool :: OpenedRow(really, v, ids, title)
  }

  lemma RowIs(v: View, ids: seq<Id>, title: Id -> string)
    ensures InARow(v, ids, title) <==> IsFlat(v, ids, title)
  {
    assert InARow(v, ids, title) ==> OpenedRow(true, v, ids, title);
  }

  lemma FlatLists(v: View, ids: seq<Id>, title: Id -> string)
    requires IsFlat(v, ids, title)
    ensures forall k | k in v.kids :: v.kids[k] == if k.None? then ids else []
  {
    forall k | k in v.kids ensures v.kids[k] == if k.None? then ids else [] {
      if k.Some? { assert v.kids[Some(k.value)] == []; }
    }
  }

  lemma FlatIsGood(v: View, ids: seq<Id>, title: Id -> string)
    requires IsFlat(v, ids, title)
    ensures Good(v) && FoldersHaveLists(v)
  {
    var r: map<Id, nat> := map x | x in v.parent :: 0;
    assert Ranked(v.parent, r);
    assert v.caption.Keys == v.parent.Keys;
    FlatLists(v, ids, title);
    forall b | b in v.parent ensures v.parent[b] in v.kids && b in v.kids[v.parent[b]] {
    }
    forall k, b | k in v.kids && b in v.kids[k] ensures b in v.parent && v.parent[b] == k {
    }
    forall k | k in v.kids ensures Distinct(v.kids[k]) {
    }
    GoodAssembled(v);
  }

  lemma FlatHasNoTwins(v: View, ids: seq<Id>, title: Id -> string)
    requires IsFlat(v, ids, title)
    requires forall x, y | x in ids && y in ids && x != y :: title(x) != title(y)
    requires forall x | x in ids :: title(x) != LOCAL_ONLY_FOLDER_TITLE
    ensures NoTwins(v)
  {
    FlatLists(v, ids, title);
    forall k, x, y | k in v.kids && x in v.kids[k] && y in v.kids[k] && x != y ensures x in v.caption && y in v.caption && v.caption[x] != v.caption[y] {
      assert title(x) != title(y);
    }
  }

  lemma FlatInserted(v: View, ids: seq<Id>, title: Id -> string, id: Id, at: nat)
    requires IsFlat(v, ids, title) && id !in ids && at <= |ids|
    ensures var e := Upsert(id, None, at, FolderLabel(title(id)));
            Takes(v, e) && IsFlat(ApplyEvent(v, e), Inserted(ids, id, at), title)
  {
    InsertedDistinct(ids, id, at);
    RootInserted(v.kids, ids, id, at);
    var caption := FolderLabel(title(id));
    assert ApplyEvent(v, Upsert(id, None, at, caption)) == View(v.parent[id := None], v.caption[id := caption], v.kids[None := Inserted(ids, id, at)][Some(id) := []]);
  }

  lemma RootInserted(kids: Lists, ids: seq<Id>, id: Id, at: nat)
    requires RootOnly(kids, ids) && id !in ids && at <= |ids| && forall y :: y in Inserted(ids, id, at) <==> y in ids || y == id
    ensures RootOnly(kids[None := Inserted(ids, id, at)][Some(id) := []], Inserted(ids, id, at))
  {
    var l := kids[None := Inserted(ids, id, at)][Some(id) := []];
    forall k ensures k in l <==> k.None? || k.value in Inserted(ids, id, at) {
    }
  }

  // Put elsewhere, or given another title, or both.
  lemma FlatSettled(v: View, ids: seq<Id>, title: Id -> string, after: Id -> string, id: Id, at: nat)
    requires IsFlat(v, ids, title) && id in ids && at <= |Without(ids, id)| && forall x | x in ids && x != id :: after(x) == title(x)
    ensures var e := Upsert(id, None, at, FolderLabel(after(id)));
            Takes(v, e) && IsFlat(ApplyEvent(v, e), Inserted(Without(ids, id), id, at), after)
  {
    WithoutDistinct(ids, id);
    InsertedDistinct(Without(ids, id), id, at);
  }

  lemma FlatSubtree(v: View, ids: seq<Id>, title: Id -> string, id: Id)
    requires IsFlat(v, ids, title) && id in ids
    ensures Subtree(v.parent, id) == {id}
  {
    forall x ensures x in Subtree(v.parent, id) <==> x == id {
      ReachesStep(v.parent, x, id);
    }
  }

  lemma FlatRemoved(v: View, ids: seq<Id>, title: Id -> string, id: Id)
    requires IsFlat(v, ids, title) && id in ids
    ensures var e := Removal(id, None);
            Takes(v, e) && IsFlat(ApplyEvent(v, e), Without(ids, id), title) && |Subtree(v.parent, id)| == 1
  {
    FlatSubtree(v, ids, title, id);
    WithoutDistinct(ids, id);
    var w := RemoveNode(v, id);
    RootCut(v.kids, ids, id);
    assert w == View(v.parent - {id}, v.caption - {id}, w.kids) && RootOnly(w.kids, Without(ids, id));
  }

  lemma RootCut(kids: Lists, ids: seq<Id>, id: Id)
    requires RootOnly(kids, ids)
    ensures var rest := kids[None := Without(ids, id)];
            RootOnly(imap k | k in rest && (k.None? || k.value !in {id}) :: rest[k], Without(ids, id))
  {
    var rest := kids[None := Without(ids, id)];
    var l := imap k | k in rest && (k.None? || k.value !in {id}) :: rest[k];
    forall k ensures k in l <==> k.None? || k.value in Without(ids, id) {
      assert k in rest <==> k.None? || k.value in ids;
    }
  }

  function Letter(x: Id): string {
    if x == 1 then "a" else if x == 2 then "b" else if x == 3 then "c" else "d"
  }

  function LetterAfter(x: Id): string {
    if x == 3 then "e" else Letter(x)
  }

  function Made(x: Id, at: nat): Option<Event> {
    Some(Upsert(x, None, at, FolderLabel(Letter(x))))
  }

  // One entry of the log, applied to a flat forest.
  ghost predicate OpenedStep(really: bool, v: View, entry: Option<Event>, ids: seq<Id>, title: Id -> string) {
    really ==> entry.Some? && Takes(v, entry.value) && IsFlat(Forward(v, entry), ids, title)
  }

  ghost predicate Goes(v: View, entry: Option<Event>, ids: seq<Id>, title: Id -> string) {
    forall really: bool :: OpenedStep(really, v, entry, ids, title)
  }

  lemma GoesIs(v: View, entry: Option<Event>, ids: seq<Id>, title: Id -> string)
    ensures Goes(v, entry, ids, title) <==> entry.Some? && Takes(v, entry.value) && IsFlat(Forward(v, entry), ids, title)
  {
    assert Goes(v, entry, ids, title) ==> OpenedStep(true, v, entry, ids, title);
  }

  ghost predicate GoesFlat(v: View, entry: Option<Event>) {
    exists ids, title :: Goes(v, entry, ids, title)
  }

  lemma GoesPut(v: View, ids: seq<Id>, w: seq<Id>, title: Id -> string, x: Id, at: nat)
    requires InARow(v, ids, title) && x !in ids && at <= |ids| && w == Inserted(ids, x, at)
    ensures var entry := Some(Upsert(x, None, at, FolderLabel(title(x)))); Goes(v, entry, w, title) && InARow(Forward(v, entry), w, title) && GoesFlat(v, entry)
  {
    var entry := Some(Upsert(x, None, at, FolderLabel(title(x))));
    RowIs(v, ids, title);
    FlatInserted(v, ids, title, x, at);
    GoesIs(v, entry, w, title);
    RowIs(Forward(v, entry), w, title);
  }

  lemma GoesSettled(v: View, ids: seq<Id>, i: nat, w: seq<Id>, after: Id -> string, at: nat)
    requires InARow(v, ids, Letter) && i < |ids| && forall x | x in ids && x != ids[i] :: after(x) == Letter(x)
    requires var rest := ids[..i] + ids[i + 1..]; at <= |rest| && w == Inserted(rest, ids[i], at)
    ensures var entry := Some(Upsert(ids[i], None, at, FolderLabel(after(ids[i])))); Goes(v, entry, w, after) && InARow(Forward(v, entry), w, after) && GoesFlat(v, entry)
  {
    var entry := Some(Upsert(ids[i], None, at, FolderLabel(after(ids[i]))));
    RowIs(v, ids, Letter);
    WithoutAt(ids, i);
    FlatSettled(v, ids, Letter, after, ids[i], at);
    GoesIs(v, entry, w, after);
    RowIs(Forward(v, entry), w, after);
  }

  lemma GoesCut(v: View, ids: seq<Id>, w: seq<Id>, title: Id -> string)
    requires InARow(v, ids, title) && ids != [] && w == ids[1..]
    ensures var entry := Some(Removal(ids[0], None)); Goes(v, entry, w, title) && InARow(Forward(v, entry), w, title) && GoesFlat(v, entry)
  {
    var entry := Some(Removal(ids[0], None));
    RowIs(v, ids, title);
    WithoutAt(ids, 0);
    assert ids[..0] + ids[1..] == ids[1..];
    FlatRemoved(v, ids, title, ids[0]);
    GoesIs(v, entry, w, title);
    RowIs(Forward(v, entry), w, title);
  }

  // The forests of a history in which every entry goes.
  lemma GoesIsTold(v: View, log: seq<Option<Event>>)
    requires Blank(v) && forall i | 0 <= i < |log| :: GoesFlat(Rerun(v, log, 0)[i], log[i])
    ensures Told(Rerun(v, log, 0), log)
  {
    var views := Rerun(v, log, 0);
    RerunGoesOn(v, log, 0);
    FlatIsGood(v, [], Letter);
    forall i | 0 <= i < |views| ensures Good(views[i]) {
      if i > 0 {
        assert GoesFlat(views[i - 1], log[i - 1]);
        var ids, title :| Goes(views[i - 1], log[i - 1], ids, title);
        GoesIs(views[i - 1], log[i - 1], ids, title);
        FlatIsGood(views[i], ids, title);
      }
    }
    forall i | 0 <= i < |log| ensures Leads(views[i], log[i], views[i + 1]) {
      assert GoesFlat(views[i], log[i]);
      var ids, title :| Goes(views[i], log[i], ids, title);
      GoesIs(views[i], log[i], ids, title);
    }
  }

  // Every history below begins with three folders.
  lemma ThreeMade(v: View, log: seq<Option<Event>>)
    requires Blank(v) && |log| >= 3 && log[0] == Made(1, 0) && log[1] == Made(2, 1) && log[2] == Made(3, 2)
    ensures var views := Rerun(v, log, 0);
            && Goes(views[0], log[0], [1], Letter) && Goes(views[1], log[1], [1, 2], Letter) && Goes(views[2], log[2], [1, 2, 3], Letter)
            && InARow(views[3], [1, 2, 3], Letter)
            && GoesFlat(views[0], log[0]) && GoesFlat(views[1], log[1]) && GoesFlat(views[2], log[2])
  {
    var views := Rerun(v, log, 0);
    RerunGoesOn(v, log, 0);
    assert views[1] == Forward(views[0], log[0]) && views[2] == Forward(views[1], log[1]) && views[3] == Forward(views[2], log[2]);
    RowIs(views[0], [], Letter);
    GoesPut(views[0], [], [1], Letter, 1, 0);
    GoesPut(views[1], [1], [1, 2], Letter, 2, 1);
    GoesPut(views[2], [1, 2], [1, 2, 3], Letter, 3, 2);
  }

  // ---------- an old event is refused ----------

  // Three folders are made, the last is renamed, and all three are removed.
  const MADE_AND_REMOVED: seq<Option<Event>> :=
    [Made(1, 0), Made(2, 1), Made(3, 2), Some(Upsert(3, None, 2, FolderLabel("e"))), Some(Removal(1, None)), Some(Removal(2, None)), Some(Removal(3, None))]

  lemma ThreeRemoved(v: View)
    requires Blank(v)
    ensures var views, log := Rerun(v, MADE_AND_REMOVED, 0), MADE_AND_REMOVED;
            GoesFlat(views[3], log[3]) && GoesFlat(views[4], log[4]) && GoesFlat(views[5], log[5]) && GoesFlat(views[6], log[6]) && InARow(views[7], [], LetterAfter)
  {
    RerunGoesOn(v, MADE_AND_REMOVED, 0);
    ThreeMade(v, MADE_AND_REMOVED);
    RenamedAndRemoved(Rerun(v, MADE_AND_REMOVED, 0), MADE_AND_REMOVED);
  }

  lemma RenamedAndRemoved(views: seq<View>, log: seq<Option<Event>>)
    requires GoesOn(views, log, 0) && |log| == 7 && InARow(views[3], [1, 2, 3], Letter) && log[3] == Some(Upsert(3, None, 2, FolderLabel(LetterAfter(3))))
    requires log[4] == Some(Removal(1, None)) && log[5] == Some(Removal(2, None)) && log[6] == Some(Removal(3, None))
    ensures GoesFlat(views[3], log[3]) && GoesFlat(views[4], log[4]) && GoesFlat(views[5], log[5]) && GoesFlat(views[6], log[6]) && InARow(views[7], [], LetterAfter)
  {
    GoesSettled(views[3], [1, 2, 3], 2, [1, 2, 3], LetterAfter, 2);
    assert views[4] == Forward(views[3], log[3]) && views[5] == Forward(views[4], log[4]);
    GoesCut(views[4], [1, 2, 3], [2, 3], LetterAfter);
    assert views[6] == Forward(views[5], log[5]) && views[7] == Forward(views[6], log[6]);
    GoesCut(views[5], [2, 3], [3], LetterAfter);
    GoesCut(views[6], [3], [], LetterAfter);
  }

  lemma SevenGo(views: seq<View>, log: seq<Option<Event>>)
    requires |log| == 7 && |views| == 8 && GoesFlat(views[0], log[0]) && GoesFlat(views[1], log[1]) && GoesFlat(views[2], log[2]) && GoesFlat(views[3], log[3])
    requires GoesFlat(views[4], log[4]) && GoesFlat(views[5], log[5]) && GoesFlat(views[6], log[6])
    ensures forall i | 0 <= i < |log| :: GoesFlat(views[i], log[i])
  {
  }

  lemma MadeAndRemovedIsTold(v: View)
    requires Blank(v)
    ensures Told(Rerun(v, MADE_AND_REMOVED, 0), MADE_AND_REMOVED)
  {
    ThreeMade(v, MADE_AND_REMOVED);
    ThreeRemoved(v);
    SevenGo(Rerun(v, MADE_AND_REMOVED, 0), MADE_AND_REMOVED);
    GoesIsTold(v, MADE_AND_REMOVED);
  }

  // The rebuild with a cursor after the third event: the renaming of the third folder finds nothing at the root,
  // or the user's own folder at most.
  lemma OldRenamingIsRefused(v: View, u: Setup, s: Extension, tries: nat)
    requires Blank(v) && Passing(u) && NewIds(u) && u.log == MADE_AND_REMOVED && |u.tail| <= 1 && Rests(s, Rerun(v, MADE_AND_REMOVED, 0)[7], u.tail, 3)
    ensures Told(Rerun(v, MADE_AND_REMOVED, 0), MADE_AND_REMOVED)
    ensures Closing(u, s, tries) == None
  {
    MadeAndRemovedIsTold(v);
    ThreeRemoved(v);
    var w := Rerun(v, MADE_AND_REMOVED, 0)[7];
    RenamingStops(w, u.tail, u.timing(tries, 3).prompt);
    ClosingFollowsCourse(u, s, w, tries);
  }

  lemma RenamingStops(w: View, tail: seq<Id>, prompt: bool)
    requires InARow(w, [], LetterAfter) && |tail| <= 1
    ensures var e := MADE_AND_REMOVED[3].value; Undisputed(w, e, tail) && !Homeless(w, e) && Stops(w, e, prompt)
  {
    RowIs(w, [], LetterAfter);
    assert Without(w.kids[None], 3) == [] && "e" != LOCAL_ONLY_FOLDER_TITLE;
  }

  // ---------- the old order comes back ----------

  // Four folders are made, the last one in front.
  const MADE_IN_FRONT: seq<Option<Event>> := [Made(1, 0), Made(2, 1), Made(3, 2), Made(4, 0)]

  lemma FourGo(views: seq<View>, log: seq<Option<Event>>)
    requires |log| == 4 && |views| == 5 && GoesFlat(views[0], log[0]) && GoesFlat(views[1], log[1]) && GoesFlat(views[2], log[2]) && GoesFlat(views[3], log[3])
    ensures forall i | 0 <= i < |log| :: GoesFlat(views[i], log[i])
  {
  }

  lemma PutInFront(ids: seq<Id>, x: Id)
    ensures Inserted(ids, x, 0) == [x] + ids
  {
  }

  lemma FourMade(v: View)
    requires Blank(v)
    ensures Told(Rerun(v, MADE_IN_FRONT, 0), MADE_IN_FRONT) && InARow(Rerun(v, MADE_IN_FRONT, 0)[4], [4, 1, 2, 3], Letter)
  {
    FourthMade(v);
    FourGo(Rerun(v, MADE_IN_FRONT, 0), MADE_IN_FRONT);
    GoesIsTold(v, MADE_IN_FRONT);
  }

  lemma FourthMade(v: View)
    requires Blank(v)
    ensures var views, log := Rerun(v, MADE_IN_FRONT, 0), MADE_IN_FRONT;
            && GoesFlat(views[0], log[0]) && GoesFlat(views[1], log[1]) && GoesFlat(views[2], log[2]) && GoesFlat(views[3], log[3])
            && InARow(views[4], [4, 1, 2, 3], Letter)
  {
    RerunGoesOn(v, MADE_IN_FRONT, 0);
    ThreeMade(v, MADE_IN_FRONT);
    MadeInFront(Rerun(v, MADE_IN_FRONT, 0), MADE_IN_FRONT);
  }

  lemma MadeInFront(views: seq<View>, log: seq<Option<Event>>)
    requires GoesOn(views, log, 0) && |log| == 4 && InARow(views[3], [1, 2, 3], Letter) && log[3] == Made(4, 0)
    ensures GoesFlat(views[3], log[3]) && InARow(views[4], [4, 1, 2, 3], Letter)
  {
    PutInFront([1, 2, 3], 4);
    assert views[4] == Forward(views[3], log[3]);
    GoesPut(views[3], [1, 2, 3], [4, 1, 2, 3], Letter, 4, 0);
  }

  // Replayed once more from the third event on, the third folder goes back to the place it had then.
  lemma TwoPutBack(w: View)
    requires InARow(w, [4, 1, 2, 3], Letter)
    ensures var h, log := Rerun(w, MADE_IN_FRONT, 2), MADE_IN_FRONT;
            h[2] == w && Goes(h[2], log[2], [4, 1, 3, 2], Letter) && Goes(h[3], log[3], [4, 1, 3, 2], Letter) && InARow(h[3], [4, 1, 3, 2], Letter) && InARow(h[4], [4, 1, 3, 2], Letter)
  {
    var h, log := Rerun(w, MADE_IN_FRONT, 2), MADE_IN_FRONT;
    RerunGoesOn(w, log, 2);
    assert h[3] == Forward(h[2], log[2]) && h[4] == Forward(h[3], log[3]);
    var four, five: seq<Id> := [4, 1, 2, 3], [4, 1, 3, 2];
    assert four[..3] + four[4..] == [4, 1, 2];
    assert Inserted([4, 1, 2], 3, 2) == five;
    GoesSettled(h[2], four, 3, five, Letter, 2);
    assert five[..0] + five[1..] == [1, 3, 2];
    assert Inserted([1, 3, 2], 4, 0) == five;
    GoesSettled(h[3], five, 0, five, Letter, 0);
  }

  ghost predicate Lettered(ids: seq<Id>) {
    forall x | x in ids :: 1 <= x <= 4
  }

  lemma LettersDiffer()
    ensures forall x, y | 1 <= x <= 4 && 1 <= y <= 4 && x != y :: Letter(x) != Letter(y)
    ensures forall x :: Letter(x) != LOCAL_ONLY_FOLDER_TITLE
  {
    assert "a"[0] != "b"[0] && "a"[0] != "c"[0] && "a"[0] != "d"[0] && "b"[0] != "c"[0] && "b"[0] != "d"[0] && "c"[0] != "d"[0];
    assert |LOCAL_ONLY_FOLDER_TITLE| != 1;
  }

  // Making a folder that is already there only moves it.
  lemma MadeAgainMoves(v: View, ids: seq<Id>, w: seq<Id>, x: Id, at: nat, tail: seq<Id>)
    requires InARow(v, ids, Letter) && x in ids && Goes(v, Made(x, at), w, Letter) && Lettered(w)
    ensures var e := Made(x, at).value;
            Undisputed(v, e, tail) && !Homeless(v, e) && !Stops(v, e, true) && !Pauses(v, e, true) && Met(v, e) == Forward(v, Some(e))
  {
    RowIs(v, ids, Letter);
    GoesIs(v, Made(x, at), w, Letter);
    LetteredHasNoTwins(Forward(v, Made(x, at)), w);
    assert !RetitlesNode(v, Made(x, at).value);
  }

  lemma LetteredHasNoTwins(v: View, ids: seq<Id>)
    requires IsFlat(v, ids, Letter) && Lettered(ids)
    ensures NoTwins(v)
  {
    LettersDiffer();
    FlatHasNoTwins(v, ids, Letter);
  }

  // The rebuild with a cursor after the second event, all callbacks in time: nothing is refused, and the folders
  // end up in an order they never had.
  lemma OldOrderComesBack(v: View, u: Setup, s: Extension, tries: nat)
    requires Blank(v) && Passing(u) && NewIds(u) && u.log == MADE_IN_FRONT && (forall i :: u.timing(tries, i).prompt)
    requires Rests(s, Rerun(v, MADE_IN_FRONT, 0)[4], u.tail, 2)
    ensures var views := Rerun(v, MADE_IN_FRONT, 0);
            var after := Rerun(views[4], MADE_IN_FRONT, 2)[4];
            var r := Closing(u, s, tries);
            && Told(views, MADE_IN_FRONT) && InARow(views[4], [4, 1, 2, 3], Letter) && InARow(after, [4, 1, 3, 2], Letter)
            && EndsInPicture(r, after, u.tail) && !EndsInPicture(r, views[4], u.tail)
  {
    var w := Rerun(v, MADE_IN_FRONT, 0)[4];
    FourMade(v);
    TwoPutBack(w);
    PutBackCourse(u, w, tries);
    PutBackIsOther(w);
    ClosingFollowsCourse(u, s, w, tries);
    PictureDecides(Rerun(w, MADE_IN_FRONT, 2)[4], w, Closing(u, s, tries).value.client, u.tail);
  }

  lemma PutBackCourse(u: Setup, w: View, tries: nat)
    requires InARow(w, [4, 1, 2, 3], Letter) && u.log == MADE_IN_FRONT && forall i :: u.timing(tries, i).prompt
    ensures Untroubled(u, w, tries, 2) && Course(u, w, tries, false, 2) == Some(Rerun(w, MADE_IN_FRONT, 2)[4])
  {
    var h := Rerun(w, MADE_IN_FRONT, 2);
    RerunGoesOn(w, MADE_IN_FRONT, 2);
    TwoPutBack(w);
    MadeAgainMoves(h[2], [4, 1, 2, 3], [4, 1, 3, 2], 3, 2, u.tail);
    MadeAgainMoves(h[3], [4, 1, 3, 2], [4, 1, 3, 2], 4, 0, u.tail);
    assert h[3] == Forward(h[2], u.log[2]) && h[4] == Forward(h[3], u.log[3]);
    assert u.timing(tries, 2).prompt && u.timing(tries, 3).prompt;
    assert Course(u, h[4], tries, false, 4) == Some(h[4]) && Untroubled(u, h[4], tries, 4);
    assert Course(u, h[3], tries, false, 3) == Some(h[4]) && Untroubled(u, h[3], tries, 3);
  }

  lemma PutBackIsOther(w: View)
    requires InARow(w, [4, 1, 2, 3], Letter)
    ensures var after := Rerun(w, MADE_IN_FRONT, 2)[4]; after != w && Good(w) && FoldersHaveLists(w) && Good(after) && FoldersHaveLists(after)
  {
    var after := Rerun(w, MADE_IN_FRONT, 2)[4];
    TwoPutBack(w);
    RowIs(w, [4, 1, 2, 3], Letter);
    RowIs(after, [4, 1, 3, 2], Letter);
    FlatIsGood(w, [4, 1, 2, 3], Letter);
    FlatIsGood(after, [4, 1, 3, 2], Letter);
    assert w.kids[None][2] == 2 && after.kids[None][2] == 3;
  }

  // ---------- a twin is taken over ----------

  function Twin(x: Id): string {
    "x"
  }

  // A folder is made and removed, and another one of the same title is made.
  const MADE_TWICE: seq<Option<Event>> := [Some(Upsert(1, None, 0, FolderLabel("x"))), Some(Removal(1, None)), Some(Upsert(2, None, 0, FolderLabel("x")))]

  lemma TwinsMade(v: View)
    requires Blank(v)
    ensures Told(Rerun(v, MADE_TWICE, 0), MADE_TWICE) && IsFlat(Rerun(v, MADE_TWICE, 0)[3], [2], Twin)
  {
    TwinSteps(v);
    GoesIsTold(v, MADE_TWICE);
    RowIs(Rerun(v, MADE_TWICE, 0)[3], [2], Twin);
  }

  lemma TwinSteps(v: View)
    requires Blank(v)
    ensures var views, log := Rerun(v, MADE_TWICE, 0), MADE_TWICE;
            && GoesFlat(views[0], log[0]) && GoesFlat(views[1], log[1]) && GoesFlat(views[2], log[2]) && InARow(views[3], [2], Twin)
  {
    var views, log := Rerun(v, MADE_TWICE, 0), MADE_TWICE;
    RerunGoesOn(v, log, 0);
    assert views[1] == Forward(views[0], log[0]) && views[2] == Forward(views[1], log[1]) && views[3] == Forward(views[2], log[2]);
    RowIs(views[0], [], Twin);
    GoesPut(views[0], [], [1], Twin, 1, 0);
    GoesCut(views[1], [1], [], Twin);
    GoesPut(views[2], [], [2], Twin, 2, 0);
  }

  // The workspace folder shows one folder in front of the user's own, with the given Chrome id.
  ghost predicate Single(c: Client, x: Id, tail: seq<Id>) {
    && Consistent(c.tree) && c.root in c.tree.parent && c.tree.parent[c.root] == None && c.root in c.tree.kids && c.tree.kids[c.root] == [x] + tail
    && x in c.tree.parent && c.tree.parent[x] == Some(c.root) && x in c.tree.caption && c.tree.caption[x] == FolderLabel("x")
    && TailNamed(tail, c.tree.caption)
    && 2 in c.chromeOf && c.chromeOf[2] == x && c.backendOf.Keys == {x}
  }

  lemma RebuiltTwin(w: View, c: Client, tail: seq<Id>)
    requires Picture(w, c, tail) && IsFlat(w, [2], Twin)
    ensures c.chromeOf.Keys == {2} && Single(c, c.chromeOf[2], tail)
  {
    PictureKeys(w, c, tail);
    assert w.parent.Keys == {2};
    SparedInPicture(w, c, tail);
    NodePictured(w, c, tail, 2);
    ListPictured(w, c, tail, None);
    TailAndMapping(w, c, tail);
    assert Image(c.chromeOf, [2]) == [c.chromeOf[2]];
  }

  lemma TailAndMapping(w: View, c: Client, tail: seq<Id>)
    requires Picture(w, c, tail)
    ensures forall x | x in c.backendOf :: c.backendOf[x] in c.chromeOf && c.chromeOf[c.backendOf[x]] == x
    ensures forall b | b in c.chromeOf :: c.chromeOf[b] in c.backendOf
  {
    PictureIs(w, c, tail);
  }

  lemma {:induction false} NoMatches(t: Tree, children: seq<Id>, caption: Label)
    requires forall y | y in children :: y in t.caption && t.caption[y] != caption
    ensures Matches(t, children, caption) == []
  {
    if children != [] {
      assert children[0] in children;
      NoMatches(t, children[1..], caption);
    }
  }

  lemma OneMatches(c: Client, x: Id, tail: seq<Id>)
    requires Single(c, x, tail)
    ensures Matches(c.tree, c.tree.kids[c.root], FolderLabel("x")) == [x]
  {
    assert |LOCAL_ONLY_FOLDER_TITLE| != |"x"|;
    NoMatches(c.tree, tail, FolderLabel("x"));
    assert ([x] + tail)[1..] == tail;
  }

  // The first creation, replayed, takes over the node of the second.
  lemma TwinTakenOver(s: Extension, ws: Id, x: Id, tail: seq<Id>, newId: Id, seen: Reads)
    requires Single(s.client, x, tail) && s.client.chromeOf.Keys == {2}
    ensures var t := Apply(s, ws, MADE_TWICE[0].value, newId, seen);
            && t == s.(client := t.client, cursor := s.cursor + 1) && !IsLost(s.client, 1, None)
            && t.client == s.client.(chromeOf := s.client.chromeOf[1 := x], backendOf := s.client.backendOf[x := 1])
  {
    var c := s.client;
    OneMatches(c, x, tail);
    assert Reusable(c.tree, c.tree.kids[c.root], FolderLabel("x")) == Some(x);
    assert c.tree.caption[x := FolderLabel("x")] == c.tree.caption;
  }

  // Both are mapped to it.
  ghost predicate Shared(c: Client, x: Id, tail: seq<Id>) {
    Single(c, x, tail) && c.chromeOf.Keys == {1, 2} && c.chromeOf[1] == x && c.backendOf[x] == 1
  }

  // The removal of the first then removes the node, and leaves the second mapped to nothing.
  ghost predicate Stranded(c: Client, x: Id, tail: seq<Id>) {
    && Consistent(c.tree) && c.root in c.tree.parent && c.tree.parent[c.root] == None && c.root in c.tree.kids && c.tree.kids[c.root] == tail
    && TailNamed(tail, c.tree.caption) && x !in c.tree.parent
    && c.chromeOf.Keys == {2} && c.chromeOf[2] == x && forall y :: y !in c.backendOf
  }

  lemma TwinRemoved(s: Extension, ws: Id, x: Id, tail: seq<Id>, newId: Id, seen: Reads)
    requires Shared(s.client, x, tail)
    ensures var t := Apply(s, ws, MADE_TWICE[1].value, newId, seen);
            t == s.(client := t.client, cursor := s.cursor + 1) && Stranded(t.client, x, tail)
  {
    TwinCut(s.client, x, tail, newId);
  }

  lemma TwinCut(c: Client, x: Id, tail: seq<Id>, newId: Id)
    requires Shared(c, x, tail)
    ensures var r := ApplyToClient(c, MADE_TWICE[1].value, newId); r.Ok? && Stranded(r.value, x, tail)
  {
    TwinTree(c, x, tail);
    TwinMapping(c, x, tail);
  }

  lemma TwinTree(c: Client, x: Id, tail: seq<Id>)
    requires Single(c, x, tail)
    ensures var r := RemoveTree(c.tree, x);
            && r.Ok? && Consistent(r.value) && c.root in r.value.parent && r.value.parent[c.root] == None && c.root in r.value.kids && r.value.kids[c.root] == tail
            && TailNamed(tail, r.value.caption) && x !in r.value.parent
  {
    assert Up(c.tree.parent, x, 0) == Some(x);
    RemoveKeepsConsistent(c.tree, x);
    TailOutlives(c, x, tail);
  }

  lemma TwinMapping(c: Client, x: Id, tail: seq<Id>)
    requires Shared(c, x, tail)
    ensures var gone := Subtree(c.tree.parent, x);
            && |gone * c.backendOf.Keys| == 1 && (forall y :: y !in c.backendOf - gone)
            && (Forget(c, gone) - {1}).Keys == {2} && (Forget(c, gone) - {1})[2] == x
  {
    var gone := Subtree(c.tree.parent, x);
    assert Up(c.tree.parent, x, 0) == Some(x);
    assert gone * c.backendOf.Keys == {x};
    assert |{x}| == 1;
    assert forall b :: b in Forget(c, gone) - {1} <==> b == 2;
  }

  lemma TailOutlives(c: Client, x: Id, tail: seq<Id>)
    requires Single(c, x, tail)
    ensures var gone := Subtree(c.tree.parent, x); c.root !in gone && Without([x] + tail, x) == tail && forall y | y in tail :: y !in gone
  {
    var children := c.tree.kids[c.root];
    assert children[0] == x && Distinct(children);
    ParentNotBelow(c.tree, c.root, x);
    forall y | y in tail ensures y in children && y != x && y !in Subtree(c.tree.parent, x) {
      var i :| 0 <= i < |tail| && tail[i] == y;
      assert children[i + 1] == y && children[0] != children[i + 1];
      SiblingNotBelow(c.tree, c.root, y, x);
    }
    WithoutAt(children, 0);
    assert children[..0] + children[1..] == tail;
  }

  lemma StrandedIsRefillable(c: Client, x: Id, tail: seq<Id>, sent: View)
    requires Stranded(c, x, tail) && IsFlat(sent, [2], Twin)
    ensures var e := MADE_TWICE[2].value; IsLost(c, 2, None) && Refillable(Disowned(c, e), tail) && !AnchoredBelow(Disowned(c, e), sent, e)
  {
    var e := MADE_TWICE[2].value;
    SparedEnd([], tail, Elements(tail));
    assert [] + tail == tail;
    forall b ensures b !in Disowned(c, e).chromeOf {
    }
  }

  lemma StrandedRecovers(u: Setup, c: Client, x: Id, next: Id)
    requires Refilling(u) && Stranded(c, x, u.tail) && IsFlat(u.sent, [2], Twin) && AllBelow(c.tree, next)
    ensures Picture(u.sent, u.refill(c, MADE_TWICE[2].value, next), u.tail)
  {
    assert OpenedRefill(true, u);
    StrandedIsRefillable(c, x, u.tail, u.sent);
    RefillPictures(c, MADE_TWICE[2].value, u.nodes, u.sent, u.tail, next);
    assert RefillsWith(u, c, MADE_TWICE[2].value, next);
  }

  lemma StrandedIsNoPicture(w: View, c: Client, x: Id, tail: seq<Id>)
    requires Stranded(c, x, tail) && IsFlat(w, [2], Twin)
    ensures !Picture(w, c, tail)
  {
    if Picture(w, c, tail) { NodePictured(w, c, tail, 2); }
  }

  lemma MadeAgainStays(w: View, tail: seq<Id>, prompt: bool)
    requires IsFlat(w, [2], Twin)
    ensures var e := MADE_TWICE[2].value; Undisputed(w, e, tail) && !Homeless(w, e) && !Stops(w, e, prompt) && !Pauses(w, e, prompt) && Met(w, e) == w
  {
    var e := MADE_TWICE[2].value;
    FlatSettled(w, [2], Twin, Twin, 2, 0);
    assert Without([2], 2) == [] && Inserted([], 2, 0) == [2];
    FlatIsOne(w, ApplyEvent(w, e), [2], Twin);
    TwinHasNoTwins(w);
    assert w.kids[None] == [2] && w.caption[2] == FolderLabel("x");
    NothingChanges(w, e);
  }

  lemma NothingChanges(w: View, e: Event)
    requires Takes(w, e) && e.Upsert? && e.id in w.parent && w.parent[e.id] == e.parent && IsAt(w, e.id, e.position) && e.id in w.caption && w.caption[e.id] == e.caption
    ensures !Changes(w, e)
  {
  }

  lemma TwinHasNoTwins(w: View)
    requires IsFlat(w, [2], Twin)
    ensures NoTwins(w)
  {
    assert |LOCAL_ONLY_FOLDER_TITLE| != |"x"|;
    FlatHasNoTwins(w, [2], Twin);
  }

  // Met by the forest sent, the second creation changes nothing.
  lemma SecondChangesNothing(u: Setup, tries: nat)
    requires u.log == MADE_TWICE && IsFlat(u.sent, [2], Twin)
    ensures Untroubled(u, u.sent, tries, 2) && Course(u, u.sent, tries, false, 2) == Some(u.sent)
  {
    var w := u.sent;
    MadeAgainStays(w, u.tail, u.timing(tries, 2).prompt);
    assert Course(u, w, tries, false, 3) == Some(w) && Untroubled(u, w, tries, 3);
  }

  lemma FlatIsOne(v: View, w: View, ids: seq<Id>, title: Id -> string)
    requires IsFlat(v, ids, title) && IsFlat(w, ids, title)
    ensures v == w
  {
    FlatLists(v, ids, title);
    FlatLists(w, ids, title);
    assert v.parent == w.parent && v.caption == w.caption;
    assert v.kids == w.kids;
  }

  /** The first rebuild of a workspace with such a history: the two folders share a Chrome node once the first event
      has been replayed, and the node is gone after the second. It ends well if and only if there is a recovery left
      for the third. */
  lemma FirstTwinTakesOver(v: View, u: Setup, s: Extension, tries: nat)
    requires Blank(v) && Passing(u) && NewIds(u) && Refilling(u) && u.log == MADE_TWICE && u.sent == Rerun(v, MADE_TWICE, 0)[3] && Rests(s, u.sent, u.tail, 0)
    ensures Told(Rerun(v, MADE_TWICE, 0), MADE_TWICE)
    ensures var c := u.pass(s, u.unused(s.client.tree, tries, 0), u.timing(tries, 0)).client; 1 in c.chromeOf && 2 in c.chromeOf && c.chromeOf[1] == c.chromeOf[2]
    ensures var r := Closing(u, s, tries); r.Some? && (Picture(u.sent, r.value.client, u.tail) <==> tries < MAX_SILENT_RECOVERY_ATTEMPTS)
  {
    TwinsMade(v);
    RebuiltTwin(u.sent, s.client, u.tail);
    var x := s.client.chromeOf[2];
    var m := TwinsMeet(u, s, x, tries);
    var t := TwinsPart(u, m, x, tries);
    StrandedEnds(u, t, x, tries);
  }

  lemma TwinsMeet(u: Setup, s: Extension, x: Id, tries: nat) returns (t: Extension)
    requires Passing(u) && u.log == MADE_TWICE && s.cursor == 0 && s.echoes == [] && OpenGate(s.journal) && Single(s.client, x, u.tail) && s.client.chromeOf.Keys == {2}
    ensures t.cursor == 1 && t.echoes == [] && OpenGate(t.journal) && Shared(t.client, x, u.tail) && Loop(u, s, tries, 0) == Loop(u, t, tries, 1)
    ensures t == u.pass(s, u.unused(s.client.tree, tries, 0), u.timing(tries, 0))
  {
    var next, timing := u.unused(s.client.tree, tries, 0), u.timing(tries, 0);
    TwinTakenOver(s, u.ws, x, u.tail, next, timing.seen);
    PassCounted(u, s, next, timing);
    EnvelopePasses(u, s, tries, 0);
    t := u.pass(s, next, timing);
  }

  lemma TwinsPart(u: Setup, s: Extension, x: Id, tries: nat) returns (t: Extension)
    requires Passing(u) && u.log == MADE_TWICE && s.cursor == 1 && s.echoes == [] && OpenGate(s.journal) && Shared(s.client, x, u.tail)
    ensures t.cursor == 2 && t.echoes == [] && OpenGate(t.journal) && Stranded(t.client, x, u.tail) && Loop(u, s, tries, 1) == Loop(u, t, tries, 2)
  {
    var next, timing := u.unused(s.client.tree, tries, 1), u.timing(tries, 1);
    TwinRemoved(s, u.ws, x, u.tail, next, timing.seen);
    PassCounted(u, s, next, timing);
    EnvelopePasses(u, s, tries, 1);
    t := u.pass(s, next, timing);
  }

  lemma StrandedEnds(u: Setup, t: Extension, x: Id, tries: nat)
    requires Passing(u) && NewIds(u) && Refilling(u) && u.log == MADE_TWICE && IsFlat(u.sent, [2], Twin)
    requires t.cursor == 2 && t.echoes == [] && OpenGate(t.journal) && Stranded(t.client, x, u.tail)
    ensures var r := Loop(u, t, tries, 2); r.ended && (Picture(u.sent, r.ext.client, u.tail) <==> tries < MAX_SILENT_RECOVERY_ATTEMPTS)
  {
    StrandedIsRefillable(t.client, x, u.tail, u.sent);
    if tries < MAX_SILENT_RECOVERY_ATTEMPTS {
      var next := u.unused(t.client.tree, tries, 2);
      assert AllBelow(t.client.tree, next);
      StrandedRecovers(u, t.client, x, next);
      SecondChangesNothing(u, tries + 1);
      LoopFollows(u, Recovering(u, t, tries, 2), u.sent, tries + 1, 2);
      LostRecovers(u, t, tries, 2);
    } else {
      StrandedIsNoPicture(u.sent, t.client, x, u.tail);
      LostPassedOver(u, t, tries, 2);
    }
  }

  // ---------- one event alone ----------

  // The creation of a folder beside one of the same title is not followed.
  lemma SecondOfTheTitle(w: View, c: Client, tail: seq<Id>, newId: Id)
    requires Picture(w, c, tail) && IsFlat(w, [2], Twin) && newId !in c.tree.parent
    ensures var e := MADE_TWICE[0].value;
            && Takes(w, e) && Good(ApplyEvent(w, e)) && Consistent(c.tree)
            && var r := ApplyToClient(c, e, newId); !(r.Ok? && Picture(ApplyEvent(w, e), r.value, tail))
  {
    var e := MADE_TWICE[0].value;
    FlatInserted(w, [2], Twin, 1, 0);
    FlatIsGood(ApplyEvent(w, e), Inserted([2], 1, 0), Twin);
    PictureIs(w, c, tail);
    GoodIs(ApplyEvent(w, e));
    RebuiltTwin(w, c, tail);
    OneMatches(c, c.chromeOf[2], tail);
    EventFollowedIff(w, c, tail, e, newId);
    var r := ApplyToClient(c, e, newId);
    if r.Ok? { PictureIs(ApplyEvent(w, e), r.value, tail); }
  }

  // A folder with five hundred bookmarks in it.
  ghost predicate IsFull(v: View, folder: Id, bookmarks: seq<Id>) {
    && Good(v) && |bookmarks| == MAX_MAPPED && Distinct(bookmarks) && folder !in bookmarks
    && folder in v.parent && forall x | x in bookmarks :: x in v.parent && v.parent[x] == Some(folder)
  }

  lemma {:induction false} DistinctSize(s: seq<Id>)
    requires Distinct(s)
    ensures |Elements(s)| == |s|
  {
    if s != [] {
      var n := |s| - 1;
      assert s == s[..n] + [s[n]] && s[n] !in s[..n];
      DistinctSize(s[..n]);
      assert Elements(s) == Elements(s[..n]) + {s[n]};
    }
  }

  // Its removal is not followed.
  lemma FullFolderStays(v: View, c: Client, tail: seq<Id>, folder: Id, bookmarks: seq<Id>, newId: Id)
    requires Picture(v, c, tail) && IsFull(v, folder, bookmarks)
    ensures var e := Removal(folder, v.parent[folder]); Takes(v, e) && Consistent(c.tree) && ApplyToClient(c, e, newId) == Err(TooManyMapped)
  {
    var all := Elements(bookmarks) + {folder};
    GoodIs(v);
    FullSubtree(v, folder, bookmarks);
    DistinctSize(bookmarks);
    assert |all| == MAX_MAPPED + 1;
    SmallerSet(all, Subtree(v.parent, folder));
    LargeIsRefused(v, c, tail, Removal(folder, v.parent[folder]), newId);
  }

  lemma FullSubtree(v: View, folder: Id, bookmarks: seq<Id>)
    requires IsFull(v, folder, bookmarks)
    ensures Elements(bookmarks) + {folder} <= Subtree(v.parent, folder)
  {
    assert Up(v.parent, folder, 0) == Some(folder);
    forall x | x in bookmarks ensures Reaches(v.parent, x, folder) {
      ReachesStep(v.parent, x, folder);
    }
  }
}
