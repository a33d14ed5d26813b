/** Whole runs: the server commits commands, the extension replays the recorded events, and the Chrome
    tree stays a picture of the server's forest. */
module ReplayRun {
  import opened Common
  import opened Ancestry
  import opened SiblingOrder
  import opened Forest
  import opened ForestView
  import opened ChromeTree
  import opened Replay

  // ---------- the view of a forest is a forest ----------

  lemma ViewKeys(s: Store, ws: Id)
    requires Inv(s)
    ensures var v := ViewOf(s, ws);
            && None in v.kids && v.caption.Keys == v.parent.Keys
            && (forall k | k in v.kids && k.Some? :: k.value in v.parent)
  {
  }

  lemma ViewNodeListed(s: Store, ws: Id, b: Id)
    requires Inv(s) && b in ViewOf(s, ws).parent
    ensures var v := ViewOf(s, ws); v.parent[b] in v.kids && b in v.kids[v.parent[b]]
  {
    var k := ViewOf(s, ws).parent[b];
    if b in Shown(s.folders, ws) {
      ChildrenList(s.folders, ws, k);
    } else {
      ChildrenList(s.bookmarks, ws, k);
    }
  }

  lemma ViewListOwn(s: Store, ws: Id, k: Option<Id>, b: Id)
    requires Inv(s) && b in Kids(s, ws, k)
    ensures b in ViewOf(s, ws).parent && ViewOf(s, ws).parent[b] == k
  {
    ChildrenList(s.folders, ws, k);
    ChildrenList(s.bookmarks, ws, k);
  }

  lemma ViewListDistinct(s: Store, ws: Id, k: Option<Id>)
    requires Inv(s)
    ensures Distinct(Kids(s, ws, k))
  {
    ChildrenList(s.folders, ws, k);
    ChildrenList(s.bookmarks, ws, k);
    var f, b := Children(s.folders, ws, k), Children(s.bookmarks, ws, k);
    forall i, j | 0 <= i < j < |f + b| ensures (f + b)[i] != (f + b)[j] {
      if i < |f| <= j {
        assert f[i] in Members(s.folders, ws, k) && b[j - |f|] in Members(s.bookmarks, ws, k);
      }
    }
  }

  // Leaves hung below an acyclic map leave it acyclic.
  lemma LeavesKeepAcyclic(folders: Parents, p: Parents)
    requires Acyclic(folders)
    requires forall x {:trigger p[x]} | x in p && p[x].Some? :: p[x].value in folders.Keys
    requires forall x {:trigger p[x]} | x in p && x in folders.Keys :: folders[x] == p[x]
    ensures Acyclic(p)
  {
    var r :| Ranked(folders, r);
    var q: map<Id, nat> := map x | x in p ::
      if x in folders then r[x] else if p[x].Some? then 1 + r[p[x].value] else 0;
    assert Ranked(p, q);
  }

  lemma ViewAcyclic(s: Store, ws: Id)
    requires Inv(s)
    ensures Acyclic(ViewOf(s, ws).parent)
  {
    LeavesKeepAcyclic(AllParents(s.folders), ViewOf(s, ws).parent);
  }

  lemma ViewNodesListed(s: Store, ws: Id)
    requires Inv(s)
    ensures NodesListed(ViewOf(s, ws).parent, ViewOf(s, ws).kids)
  {
    var v := ViewOf(s, ws);
    forall b | b in v.parent ensures v.parent[b] in v.kids && b in v.kids[v.parent[b]] {
      ViewNodeListed(s, ws, b);
    }
  }

  lemma ViewListsOwn(s: Store, ws: Id)
    requires Inv(s)
    ensures ListsOwn(ViewOf(s, ws).parent, ViewOf(s, ws).kids)
  {
    var v := ViewOf(s, ws);
    forall k, b | k in v.kids && b in v.kids[k] ensures b in v.parent && v.parent[b] == k {
      ViewListOwn(s, ws, k, b);
    }
    forall k | k in v.kids ensures Distinct(v.kids[k]) {
      ViewListDistinct(s, ws, k);
    }
  }

  lemma ViewIsGood(s: Store, ws: Id)
    requires Inv(s)
    ensures GoodView(ViewOf(s, ws))
  {
    ViewKeys(s, ws);
    ViewNodesListed(s, ws);
    ViewListsOwn(s, ws);
    ViewAcyclic(s, ws);
  }

  // ---------- runs ----------

  // newId is the id Chrome would give to a node created while the step's event is replayed.
  datatype Step = Step(caller: Caller, cmd: Command, newId: Id)

  ghost predicate Committed(stores: seq<Store>, steps: seq<Step>) {
    && |stores| == |steps| + 1
    && forall i | 0 <= i < |steps| ::
         FreshIds(stores[i], steps[i].cmd) && stores[i + 1] == Commit(stores[i], steps[i].caller, steps[i].cmd)
  }

  ghost function Replayed(s: Store, step: Step, ws: Id, c: Client): Result<Client, Failure>
    requires FreshIds(s, step.cmd)
  {
    match Recorded(s, step.caller, step.cmd)
    case None => Ok(c)
    case Some(r) =>
      if r.0 != ws then Ok(c)
      else if !Consistent(c.tree) then Err(NeedsRecovery)
      else ApplyToClient(c, r.1, step.newId)
  }

  // The extension's state once the events of the first n steps have been replayed.
  ghost function ClientAfter(stores: seq<Store>, steps: seq<Step>, ws: Id, c: Client, n: nat): Result<Client, Failure>
    requires Committed(stores, steps) && n <= |steps|
  {
    if n == 0 then Ok(c)
    else
      match ClientAfter(stores, steps, ws, c, n - 1)
      case Err(e) => Err(e)
      case Ok(d) => Replayed(stores[n - 1], steps[n - 1], ws, d)
  }

  // What the run must respect at one step: no bookmark put into a list with folders, no twins, removals that
  // fit one operation, and a Chrome that hands out unused ids.
  ghost predicate Tidy(s: Store, t: Store, step: Step, ws: Id, c: Client)
    requires FreshIds(s, step.cmd)
  {
    && NoTwins(ViewOf(t, ws)) && step.newId !in c.tree.parent
    && match Recorded(s, step.caller, step.cmd)
       case None => true
       case Some(r) => r.0 == ws ==> !BehindFolders(s, ws, r.1) && (r.1.Removal? ==> |Subtree(ViewOf(s, ws).parent, r.1.id)| <= MAX_MAPPED)
  }

  lemma StepFollowed(s: Store, step: Step, ws: Id, c: Client, tail: seq<Id>)
    requires Inv(s) && FreshIds(s, step.cmd) && Sim(ViewOf(s, ws), c, tail) && TailNamed(tail, c.tree.caption)
    requires Tidy(s, Commit(s, step.caller, step.cmd), step, ws, c)
    ensures var r := Replayed(s, step, ws, c);
            r.Ok? && Sim(ViewOf(Commit(s, step.caller, step.cmd), ws), r.value, tail) && TailNamed(tail, r.value.tree.caption)
  {
    EventDescribesTheForestIff(s, step.caller, step.cmd, ws);
    ViewIsGood(s, ws);
    CommitKeepsInv(s, step.caller, step.cmd);
    ViewIsGood(Commit(s, step.caller, step.cmd), ws);
    var recorded := Recorded(s, step.caller, step.cmd);
    if recorded.Some? && recorded.value.0 == ws {
      EventFollowed(ViewOf(s, ws), c, tail, recorded.value.1, step.newId);
    }
  }

  /** Replaying the events of any serial run, in order, turns a picture of the forest before the run into a
      picture of the forest after it. */
  lemma {:induction false} ReplayFollowsServer(stores: seq<Store>, steps: seq<Step>, ws: Id, c: Client, tail: seq<Id>, n: nat)
    requires Committed(stores, steps) && n <= |steps| && Inv(stores[0])
    requires Sim(ViewOf(stores[0], ws), c, tail) && TailNamed(tail, c.tree.caption)
    requires forall i {:trigger steps[i]} | 0 <= i < n && ClientAfter(stores, steps, ws, c, i).Ok? ::
               Tidy(stores[i], stores[i + 1], steps[i], ws, ClientAfter(stores, steps, ws, c, i).value)
    ensures Inv(stores[n])
    ensures var r := ClientAfter(stores, steps, ws, c, n);
            r.Ok? && Sim(ViewOf(stores[n], ws), r.value, tail) && TailNamed(tail, r.value.tree.caption)
  {
    if n > 0 {
      ReplayFollowsServer(stores, steps, ws, c, tail, n - 1);
      var d := ClientAfter(stores, steps, ws, c, n - 1).value;
      CommitKeepsInv(stores[n - 1], steps[n - 1].caller, steps[n - 1].cmd);
      assert stores[n - 1 + 1] == Commit(stores[n - 1], steps[n - 1].caller, steps[n - 1].cmd);
      assert Tidy(stores[n - 1], stores[n - 1 + 1], steps[n - 1], ws, d);
      StepFollowed(stores[n - 1], steps[n - 1], ws, d, tail);
    }
  }

  // An extension that knows nothing but an empty workspace folder.
  ghost predicate BareRoot(c: Client) {
    && c.chromeOf.Keys == {} && c.backendOf.Keys == {}
    && c.tree.parent.Keys == {c.root} && c.tree.parent[c.root] == None
    && c.tree.caption.Keys == {c.root}
    && c.tree.kids.Keys == {c.root} && c.tree.kids[c.root] == []
  }

  lemma BareRootIsPicture(v: View, c: Client)
    requires v.parent.Keys == {} && v.caption.Keys == {}
    requires (forall k :: k in v.kids <==> k == None) && v.kids[None] == []
    requires BareRoot(c)
    ensures Sim(v, c, [])
  {
    assert Ranked(c.tree.parent, map[c.root := 0]);
  }

  // It is a picture of the empty forest, so every run may start from it.
  lemma EmptyIsPictured(ws: Id, c: Client)
    requires BareRoot(c)
    ensures Sim(ViewOf(Store(map[], map[]), ws), c, [])
  {
    BareRootIsPicture(ViewOf(Store(map[], map[]), ws), c);
  }
}
