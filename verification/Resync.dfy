/** From the server's runs to the extension's tree: the recorded events of any serial run tell its forests, so
    gated replay and the closing replay of a rebuild follow the server itself. */
module Resync {
  import opened Common
  import opened SiblingOrder
  import opened Forest
  import opened FolderTree
  import opened ForestView
  import opened Replay
  import opened ReplayRun
  import opened Echoes
  import opened GatedReplay
  import opened ClosingReplay
  import opened Recovery
  import opened KeptRows
  import opened Rebuild
  import opened RebuildRun
  import RowMoves
  import O = Overlay
  import S = StaleReplay

  // ---------- the log of a run ----------

  // What a step adds to the workspace's log. A step that records nothing for it stands as an empty entry, so that
  // cursors count steps.
  ghost function EntryOf(s: Store, step: ReplayRun.Step, ws: Id): Option<Event>
    requires FreshIds(s, step.cmd)
  {
    match Recorded(s, step.caller, step.cmd)
    case None => None
    case Some(r) => if r.0 == ws then Some(r.1) else None
  }

  ghost function ViewsOf(stores: seq<Store>, ws: Id): (r: seq<View>)
    ensures |r| == |stores|
  {
    seq(|stores|, i requires 0 <= i < |stores| => ViewOf(stores[i], ws))
  }

  ghost function LogOf(stores: seq<Store>, steps: seq<ReplayRun.Step>, ws: Id): (r: seq<Option<Event>>)
    requires Committed(stores, steps)
    ensures |r| == |steps|
  {
    seq(|steps|, i requires 0 <= i < |steps| => EntryOf(stores[i], steps[i], ws))
  }

  // No step puts a bookmark into a list that has folders.
  ghost predicate FoldersFirst(stores: seq<Store>, steps: seq<ReplayRun.Step>, ws: Id)
    requires Committed(stores, steps)
  {
    forall i | 0 <= i < |steps| && LogOf(stores, steps, ws)[i].Some? :: !BehindFolders(stores[i], ws, LogOf(stores, steps, ws)[i].value)
  }

  lemma EntryLeads(s: Store, step: ReplayRun.Step, ws: Id)
    requires Inv(s) && FreshIds(s, step.cmd) && (EntryOf(s, step, ws).Some? ==> !BehindFolders(s, ws, EntryOf(s, step, ws).value))
    ensures Leads(ViewOf(s, ws), EntryOf(s, step, ws), ViewOf(Commit(s, step.caller, step.cmd), ws))
  {
    EventDescribesTheForestIff(s, step.caller, step.cmd, ws);
  }

  lemma GoodViewOf(s: Store, ws: Id)
    requires Inv(s)
    ensures Good(ViewOf(s, ws))
  {
    ViewIsGood(s, ws);
    GoodIs(ViewOf(s, ws));
  }

  /** The events a serial run records for a workspace tell its forests one after the other. */
  lemma RunIsTold(stores: seq<Store>, steps: seq<ReplayRun.Step>, ws: Id)
    requires Committed(stores, steps) && Inv(stores[0]) && FoldersFirst(stores, steps, ws)
    ensures Told(ViewsOf(stores, ws), LogOf(stores, steps, ws))
  {
    var views, log := ViewsOf(stores, ws), LogOf(stores, steps, ws);
    forall i | 0 <= i < |views| ensures Good(views[i]) {
      RunKeepsInv(stores, steps, i);
      GoodViewOf(stores[i], ws);
    }
    forall i | 0 <= i < |log| ensures Leads(views[i], log[i], views[i + 1]) {
      RunKeepsInv(stores, steps, i);
      assert log[i].Some? ==> !BehindFolders(stores[i], ws, log[i].value);
      EntryLeads(stores[i], steps[i], ws);
    }
  }

  lemma ViewHasLists(s: Store, ws: Id)
    requires Inv(s)
    ensures O.FoldersHaveLists(ViewOf(s, ws))
  {
  }

  lemma KindsStay(s: Store, t: Store, ws: Id)
    requires Inv(t) && StoreKept(s, t)
    ensures O.SameKinds(ViewOf(s, ws), ViewOf(t, ws))
  {
    var v, w := ViewOf(s, ws), ViewOf(t, ws);
    forall x | x in v.caption && x in w.caption ensures v.caption[x].FolderLabel? == w.caption[x].FolderLabel? {
      if x in Shown(s.folders, ws) { assert x in t.folders; } else { assert x in t.bookmarks; }
    }
  }

  lemma LiveStays<P>(s: Table<P>, t: Table<P>, u: Table<P>, ws: Id, x: Id)
    requires RowsKept(s, t) && RowsKept(t, u) && x in Shown(s, ws) && x in Shown(u, ws)
    ensures x in Shown(t, ws)
  {
  }

  lemma LiveOutlives(s: Store, t: Store, u: Store, ws: Id)
    requires Inv(u) && StoreKept(s, t) && StoreKept(t, u)
    ensures O.Outlives(ViewOf(s, ws), ViewOf(t, ws), ViewOf(u, ws))
  {
    forall x | x in ViewOf(s, ws).parent && x in ViewOf(u, ws).parent ensures x in ViewOf(t, ws).parent {
      if x in Shown(s.folders, ws) {
        assert x in u.folders;
        LiveStays(s.folders, t.folders, u.folders, ws, x);
      } else {
        assert x in u.bookmarks;
        LiveStays(s.bookmarks, t.bookmarks, u.bookmarks, ws, x);
      }
    }
  }

  // The workspace has no rows yet.
  ghost predicate Untouched(s: Store, ws: Id) {
    (forall x | x in s.folders :: s.folders[x].workspace != ws) && (forall x | x in s.bookmarks :: s.bookmarks[x].workspace != ws)
  }

  lemma UntouchedIsBlank(s: Store, ws: Id)
    requires Untouched(s, ws)
    ensures Empty(ViewOf(s, ws))
  {
    EmptyIs(ViewOf(s, ws));
    SiblingsOf(s.folders, ws);
    SiblingsOf(s.bookmarks, ws);
  }

  lemma SiblingsOf<P>(t: Table<P>, ws: Id)
    requires forall x | x in t :: t[x].workspace != ws
    ensures Children(t, ws, None) == []
  {
    ChildrenList(t, ws, None);
    EmptyOrInhabited(Children(t, ws, None));
  }

  lemma RunIsHistory(stores: seq<Store>, steps: seq<ReplayRun.Step>, ws: Id, n: nat)
    requires Committed(stores, steps) && Inv(stores[0]) && Empty(ViewOf(stores[0], ws)) && FoldersFirst(stores, steps, ws) && n <= |steps|
    ensures History(ViewsOf(stores, ws), LogOf(stores, steps, ws), n)
  {
    var views := ViewsOf(stores, ws);
    RunIsTold(stores, steps, ws);
    RunKeepsInv(stores, steps, n);
    ViewHasLists(stores[n], ws);
    forall i | 0 <= i < n ensures Lasts(views[i], views[i + 1], views[n]) {
      RunKeepsRows(stores, steps, i, i + 1);
      RunKeepsRows(stores, steps, i + 1, n);
      KindsStay(stores[i + 1], stores[n], ws);
      LiveOutlives(stores[i], stores[i + 1], stores[n], ws);
    }
  }

  // ---------- replay through the gate ----------

  /** Gated replay of a serial run: however events and callbacks interleave, the tree is a picture of the forest
      at the cursor, or of the next one with one callback still to come. */
  lemma GatedReplayFollowsServer(stores: seq<Store>, steps: seq<ReplayRun.Step>, ws: Id, s: Extension, tail: seq<Id>, run: seq<GatedReplay.Step>, canonical: string -> string)
    requires Committed(stores, steps) && Inv(stores[0]) && FoldersFirst(stores, steps, ws)
    requires AllPlain(ViewsOf(stores, ws), LogOf(stores, steps, ws)) && OneChangeEach(ViewsOf(stores, ws), LogOf(stores, steps, ws))
    requires Calm(s, ViewsOf(stores, ws), tail) && UnusedIds(s, ws, LogOf(stores, steps, ws), run, canonical)
    ensures InStep(RunOf(s, ws, LogOf(stores, steps, ws), run, canonical), ViewsOf(stores, ws), tail, canonical)
  {
    RunIsTold(stores, steps, ws);
    EveryInterleavingPictures(s, ViewsOf(stores, ws), LogOf(stores, steps, ws), tail, ws, run, canonical);
  }

  // ---------- a rebuild, and what follows it ----------

  // d is what the rebuild makes of the cleared client c from what the server sends of its n-th forest; unused is
  // the next id Chrome will give.
  ghost predicate Rebuilt(s: Store, ws: Id, nodes: seq<FolderNode>, v: View, c: Client, tail: seq<Id>, next: Id, d: Client, unused: Id) {
    && (exists rows, bookmarks :: Sent(s, ws, nodes, rows, bookmarks, None))
    && NoNodes(v) && StandingOf(v, c, tail, next) == Standing.Sound && TailNamed(tail, c.tree.caption)
    && PlaceFolders(c, c.root, nodes, next) == Ok((d, unused))
  }

  lemma RebuiltPictures(s: Store, ws: Id, nodes: seq<FolderNode>, v: View, c: Client, tail: seq<Id>, next: Id, d: Client, unused: Id)
    requires Inv(s) && Rebuilt(s, ws, nodes, v, c, tail, next, d, unused)
    ensures Picture(ViewOf(s, ws), d, tail) && forall x | x in d.tree.parent :: x < unused
  {
    var rows, bookmarks :| Sent(s, ws, nodes, rows, bookmarks, None);
    RebuildPicturesForest(s, ws, nodes, rows, bookmarks, v, c, tail, next);
    ViewIsGood(s, ws);
    PictureIs(ViewOf(s, ws), d, tail);
  }

  /** A rebuild and the replay of what is committed after it: the tree is a picture of the server's forest at
      every step. */
  lemma RebuildThenReplay(stores: seq<Store>, steps: seq<ReplayRun.Step>, ws: Id, nodes: seq<FolderNode>, v: View, c: Client, tail: seq<Id>, next: Id, d: Client, unused: Id, n: nat)
    requires Committed(stores, steps) && Inv(stores[0]) && n <= |steps|
    requires Rebuilt(stores[0], ws, nodes, v, c, tail, next, d, unused)
    requires forall i {:trigger steps[i]} | 0 <= i < n && ClientAfter(stores, steps, ws, d, i).Ok? ::
               Tidy(stores[i], stores[i + 1], steps[i], ws, ClientAfter(stores, steps, ws, d, i).value)
    ensures var r := ClientAfter(stores, steps, ws, d, n); r.Ok? && Picture(ViewOf(stores[n], ws), r.value, tail)
  {
    RebuiltPictures(stores[0], ws, nodes, v, c, tail, next, d, unused);
    PictureIs(ViewOf(stores[0], ws), d, tail);
    ReplayFollowsServer(stores, steps, ws, d, tail, n);
    ViewIsGood(stores[n], ws);
    PictureIs(ViewOf(stores[n], ws), ClientAfter(stores, steps, ws, d, n).value, tail);
  }

  // An extension at the end of the materialization, with the given cursor.
  ghost predicate AtClosing(s: Extension, cursor: nat) {
    s.cursor == cursor && s.echoes == [] && OpenGate(s.journal)
  }

  // The closing replay finds the whole log of the run, and the forest the run ended with.
  ghost predicate AtTheEnd(u: Setup, stores: seq<Store>, steps: seq<ReplayRun.Step>, ws: Id)
    requires Committed(stores, steps)
  {
    Passing(u) && NewIds(u) && u.log == LogOf(stores, steps, ws) && u.sent == ViewOf(stores[|steps|], ws)
  }

  lemma RebuiltRests(stores: seq<Store>, steps: seq<ReplayRun.Step>, ws: Id, n: nat, nodes: seq<FolderNode>, v: View, c: Client, tail: seq<Id>, next: Id, unused: Id, s: Extension, cursor: nat)
    requires Committed(stores, steps) && Inv(stores[0]) && n <= |steps| && AtClosing(s, cursor)
    requires Rebuilt(stores[n], ws, nodes, v, c, tail, next, s.client, unused)
    ensures Inv(stores[n]) && Rests(s, ViewOf(stores[n], ws), tail, cursor)
  {
    RunKeepsInv(stores, steps, n);
    RebuiltPictures(stores[n], ws, nodes, v, c, tail, next, s.client, unused);
  }

  /** The first rebuild of a workspace, while the run goes on: built from the n-th forest, with nothing behind the
      cursor, the closing replay ends in a picture of the last forest if and only if every event passes. */
  lemma FirstRebuildClosesIff(stores: seq<Store>, steps: seq<ReplayRun.Step>, ws: Id, n: nat, nodes: seq<FolderNode>, v: View, c: Client, next: Id, unused: Id,
                              s: Extension, u: Setup, tries: nat)
    requires Committed(stores, steps) && Inv(stores[0]) && Empty(ViewOf(stores[0], ws)) && FoldersFirst(stores, steps, ws) && n <= |steps|
    requires Rebuilt(stores[n], ws, nodes, v, c, u.tail, next, s.client, unused) && AtClosing(s, 0) && AtTheEnd(u, stores, steps, ws)
    requires Twinless(Whole(ViewsOf(stores, ws), n), u.log, 0)
    ensures EndsInPicture(Closing(u, s, tries), ViewOf(stores[|steps|], ws), u.tail) <==> AllPass(u, Whole(ViewsOf(stores, ws), n), tries, 0)
  {
    RebuiltRests(stores, steps, ws, n, nodes, v, c, u.tail, next, unused, s, 0);
    RunIsHistory(stores, steps, ws, n);
    FullReplayClosesIff(u, s, ViewsOf(stores, ws), n, tries);
  }

  /** The same with the cursor at the forest the tree was built from. */
  lemma CurrentRebuildClosesIff(stores: seq<Store>, steps: seq<ReplayRun.Step>, ws: Id, n: nat, nodes: seq<FolderNode>, v: View, c: Client, next: Id, unused: Id,
                                s: Extension, u: Setup, tries: nat)
    requires Committed(stores, steps) && Inv(stores[0]) && FoldersFirst(stores, steps, ws) && n <= |steps|
    requires Rebuilt(stores[n], ws, nodes, v, c, u.tail, next, s.client, unused) && AtClosing(s, n) && AtTheEnd(u, stores, steps, ws)
    requires Twinless(ViewsOf(stores, ws), u.log, n)
    ensures EndsInPicture(Closing(u, s, tries), ViewOf(stores[|steps|], ws), u.tail) <==> AllPass(u, ViewsOf(stores, ws), tries, n)
  {
    RebuiltRests(stores, steps, ws, n, nodes, v, c, u.tail, next, unused, s, n);
    RunIsTold(stores, steps, ws);
    LateReplayClosesIff(u, s, ViewsOf(stores, ws), n, tries);
  }

  // ---------- a cursor anywhere ----------

  // A recorded node is in the table of its kind.
  lemma RecordedInTable(s: Store, step: ReplayRun.Step, ws: Id)
    requires Inv(s) && FreshIds(s, step.cmd)
    ensures var entry, t := EntryOf(s, step, ws), Commit(s, step.caller, step.cmd);
            entry.Some? && entry.value.Upsert? ==> if entry.value.caption.FolderLabel? then entry.value.id in t.folders else entry.value.id in t.bookmarks
  {
    CommitKeepsRows(s, step.caller, step.cmd);
    match step.cmd
    case MakeFolder(w, input, newId) =>
      RowMoves.CreatedEffect(s.folders, newId, w, input.parent, TrimSpace(input.name), input.position, step.caller.now);
    case MakeBookmark(w, input, newId) =>
      RowMoves.CreatedEffect(s.bookmarks, newId, w, Some(input.folder), Link(TrimSpace(input.link.title), TrimSpace(input.link.url)), input.position, step.caller.now);
    case _ =>
  }

  lemma EntriesKinded(stores: seq<Store>, steps: seq<ReplayRun.Step>, ws: Id, j: nat)
    requires Committed(stores, steps) && Inv(stores[0]) && j < |steps|
    ensures S.EntryKinded(LogOf(stores, steps, ws)[j], stores[|steps|].folders.Keys)
  {
    RunKeepsInv(stores, steps, j);
    RunKeepsInv(stores, steps, |steps|);
    RecordedInTable(stores[j], steps[j], ws);
    RunKeepsRows(stores, steps, j + 1, |steps|);
    assert stores[j + 1] == Commit(stores[j], steps[j].caller, steps[j].cmd);
  }

  lemma ViewKinded(s: Store, t: Store, ws: Id)
    requires Inv(t) && StoreKept(s, t)
    ensures S.Kinded(ViewOf(s, ws), t.folders.Keys)
  {
    var v := ViewOf(s, ws);
    forall x | x in v.caption ensures v.caption[x].FolderLabel? <==> x in t.folders {
      if x in Shown(s.folders, ws) { assert x in t.folders; } else { assert x in t.bookmarks; }
    }
  }

  lemma ForestOfKinds(stores: seq<Store>, steps: seq<ReplayRun.Step>, ws: Id, n: nat)
    requires Committed(stores, steps) && Inv(stores[0]) && n <= |steps|
    ensures OfKinds(ViewOf(stores[n], ws), stores[|steps|].folders.Keys)
  {
    RunKeepsInv(stores, steps, n);
    RunKeepsInv(stores, steps, |steps|);
    RunKeepsRows(stores, steps, n, |steps|);
    ViewHasLists(stores[n], ws);
    GoodViewOf(stores[n], ws);
    ViewKinded(stores[n], stores[|steps|], ws);
  }

  // What the server sends shows its forest, as a recovery wants it.
  lemma SentIsSent(s: Store, ws: Id, nodes: seq<FolderNode>, rows: seq<FolderRow>, bookmarks: seq<BookmarkRow>, blank: View)
    requires Sent(s, ws, nodes, rows, bookmarks, None) && NoNodes(blank)
    ensures Sends(nodes, ViewOf(s, ws))
  {
    RebuiltViewIsTheView(s, ws, nodes, rows, bookmarks, blank);
  }

  /** And with the cursor anywhere, recoveries and all: the closing replay ends in a picture of the last forest if
      and only if the course of the log, from the n-th forest and the cursor on, ends with it. */
  lemma AnyRebuildClosesIff(stores: seq<Store>, steps: seq<ReplayRun.Step>, ws: Id, n: nat, nodes: seq<FolderNode>, v: View, c: Client, next: Id, unused: Id,
                            s: Extension, u: Setup, tries: nat)
    requires Committed(stores, steps) && Inv(stores[0]) && n <= |steps| && s.cursor <= |steps|
    requires Rebuilt(stores[n], ws, nodes, v, c, u.tail, next, s.client, unused) && AtClosing(s, s.cursor) && AtTheEnd(u, stores, steps, ws)
    requires Untroubled(u, ViewOf(stores[n], ws), tries, s.cursor)
    ensures EndsInPicture(Closing(u, s, tries), ViewOf(stores[|steps|], ws), u.tail) <==>
            Course(u, ViewOf(stores[n], ws), tries, false, s.cursor) == Some(ViewOf(stores[|steps|], ws))
  {
    RebuiltRests(stores, steps, ws, n, nodes, v, c, u.tail, next, unused, s, s.cursor);
    ForestOfKinds(stores, steps, ws, n);
    ForestOfKinds(stores, steps, ws, |steps|);
    forall k | 0 <= k < |u.log| ensures S.EntryKinded(u.log[k], stores[|steps|].folders.Keys) {
      EntriesKinded(stores, steps, ws, k);
    }
    ClosesInIff(u, s, ViewOf(stores[n], ws), ViewOf(stores[|steps|], ws), tries, stores[|steps|].folders.Keys);
  }
}
