/** Replay as the extension runs it: an event that changes a node Chrome already has leaves a pending receipt,
    and nothing further is applied until the callback of that change has come back. */
module GatedReplay {
  import opened Common
  import opened Ancestry
  import opened ForestView
  import opened ChromeTree
  import opened Replay
  import opened Echoes
  import J = Journal

  // ---------- sealed facts ----------

  // What is sealed stays out of a proof until it is asked for: the two predicates below are long, and most
  // steps only hand them on.
  ghost predicate Opened(really: bool, v: View, c: Client, tail: seq<Id>) {
    really ==> Sim(v, c, tail) && GoodView(v) && TailNamed(tail, c.tree.caption)
  }

  ghost predicate Picture(v: View, c: Client, tail: seq<Id>) {
    forall really: bool :: Opened(really, v, c, tail)
  }

  ghost predicate OpenedView(really: bool, v: View) {
    really ==> GoodView(v)
  }

  ghost predicate Good(v: View) {
    forall really: bool :: OpenedView(really, v)
  }

  lemma PictureIs(v: View, c: Client, tail: seq<Id>)
    ensures Picture(v, c, tail) <==> Sim(v, c, tail) && GoodView(v) && TailNamed(tail, c.tree.caption)
  {
    assert Picture(v, c, tail) ==> Opened(true, v, c, tail);
  }

  lemma GoodIs(v: View)
    ensures Good(v) <==> GoodView(v)
  {
    assert Good(v) ==> OpenedView(true, v);
  }

  lemma PictureIsConsistent(v: View, c: Client, tail: seq<Id>)
    requires Picture(v, c, tail)
    ensures Consistent(c.tree)
  {
    PictureIs(v, c, tail);
  }

  // ---------- what the server tells ----------

  // The forests of a workspace and, between each two, the event that leads from one to the next, if any.
  ghost predicate Told(views: seq<View>, log: seq<Option<Event>>) {
    && |views| == |log| + 1
    && (forall i | 0 <= i < |views| :: Good(views[i]))
    && (forall i | 0 <= i < |log| :: Leads(views[i], log[i], views[i + 1]))
  }

  ghost predicate Leads(v: View, entry: Option<Event>, w: View) {
    match entry
    case None => w == v
    case Some(e) => Applicable(v, e) && w == ApplyEvent(v, e)
  }

  // The same for one entry.
  ghost predicate ToldAt(views: seq<View>, log: seq<Option<Event>>, n: nat) {
    && n < |log| && n + 1 < |views| && Good(views[n]) && Good(views[n + 1]) && Leads(views[n], log[n], views[n + 1])
  }

  // The event moves a node the forest has, or gives it another title.
  ghost predicate MovesNode(v: View, e: Event) {
    && e.Upsert? && e.id in v.parent
    && !(v.parent[e.id] == e.parent && e.parent in v.kids && 0 <= e.position < |v.kids[e.parent]| && v.kids[e.parent][e.position] == e.id)
  }

  ghost predicate RetitlesNode(v: View, e: Event) {
    e.Upsert? && e.id in v.parent && e.id in v.caption && v.caption[e.id] != e.caption
  }

  // ---------- the extension ----------

  // cursor: how many entries of the log are behind it; echoes: callbacks Chrome has raised and nobody has
  // handled yet.
  datatype Extension = Extension(client: Client, journal: J.Journal, cursor: nat, echoes: seq<Echo>)

  // Whether the two reads that the handler of a retitling callback makes of its node come after the node was moved.
  datatype Reads = Reads(first: bool, second: bool)

  // A node that is moved and retitled, read before or after the move.
  function Glimpse(from: Spot, to: Spot, moved: bool): Spot {
    if moved then to else Spot(from.parent, from.index, to.caption)
  }

  function EchoesAt(node: Node, from: Spot, to: Spot, seen: Reads): seq<Echo> {
    EchoesOf(node, from, to, Glimpse(from, to, seen.first), Glimpse(from, to, seen.second))
  }

  // The node Chrome already has for an upsert: the mapped one, or a sibling to be taken over.
  function Known(c: Client, e: Event): Option<Id> {
    if !e.Upsert? then None
    else if e.id in c.chromeOf then Some(c.chromeOf[e.id])
    else Reusable(c.tree, Siblings(c, e.parent), e.caption)
  }

  ghost function SpotIn(t: Tree, x: Id): Spot
    requires Consistent(t) && x in t.parent && t.parent[x].Some?
  {
    Spot(t.parent[x].value, IndexOf(t.kids[t.parent[x].value], x), t.caption[x])
  }

  function KindOf(caption: Label): J.Kind {
    if caption.FolderLabel? then J.Folder else J.Bookmark
  }

  // An upsert of a known node, the client after it being d: the receipt goes out before Chrome is touched.
  ghost function Effect(s: Extension, ws: Id, e: Event, x: Id, d: Client, seen: Reads): Extension
    requires e.Upsert? && Consistent(s.client.tree) && x in s.client.tree.parent && s.client.tree.parent[x].Some?
  {
    var place := PlaceOf(s.client, e.parent);
    var from, to := SpotIn(s.client.tree, x), Spot(if place.Some? then place.value else s.client.root, e.position, e.caption);
    var node := Node(ws, e.id, x, KindOf(e.caption));
    if !Moves(from, to) && !Retitles(from, to) then s.(client := d, cursor := s.cursor + 1)
    else if |J.PruneReceipts(s.journal.receipts)| >= J.MAX_RECEIPTS then s.(journal := J.Gate(s.journal, s.cursor + 1, J.ReceiptCapacity))
    else s.(client := d, journal := J.Persist(s.journal, ReceiptFor(node, s.cursor + 1, from, to)), echoes := s.echoes + EchoesAt(node, from, to, seen))
  }

  // applyRemoteEnvelope with an open gate. A removal of too many nodes pauses, and is counted as applied. What
  // needs a recovery first is left alone here.
  ghost function Apply(s: Extension, ws: Id, e: Event, newId: Id, seen: Reads): Extension {
    if !Consistent(s.client.tree) then s
    else
      match ApplyToClient(s.client, e, newId)
      case Err(TooManyMapped) => s.(journal := J.Pause(s.journal, J.AmbiguousOperation), cursor := s.cursor + 1)
      case Err(NeedsRecovery) => s
      case Err(_) => s.(journal := J.Gate(s.journal, s.cursor + 1, J.ChromeEffectRejected))
      case Ok(d) =>
        var x := Known(s.client, e);
        if x.None? || x.value !in s.client.tree.parent || s.client.tree.parent[x.value].None? then s.(client := d, cursor := s.cursor + 1)
        else Effect(s, ws, e, x.value, d, seen)
  }

  datatype Step = NextEvent(newId: Id, seen: Reads) | NextEcho

  // The next event is only looked at with the gate open. A callback that consumes the receipt takes the
  // cursor with it.
  ghost function After(s: Extension, ws: Id, log: seq<Option<Event>>, step: Step, canonical: string -> string): Extension {
    match step
    case NextEvent(newId, seen) =>
      if s.cursor >= |log| || s.journal.phase == J.Paused || J.HasPending(s.journal) then s
      else if log[s.cursor].None? then s.(cursor := s.cursor + 1)
      else Apply(s, ws, log[s.cursor].value, newId, seen)
    case NextEcho =>
      if s.echoes == [] then s
      else
        var c := s.echoes[0];
        var i := J.FirstPending(s.journal.receipts, c.callback);
        var consumed := i < |s.journal.receipts| && J.Confirms(s.journal.receipts[i], c.callback, canonical);
        s.(journal := Handled(s.journal, c, canonical), echoes := s.echoes[1..],
           cursor := if consumed && s.journal.receipts[i].cursor > s.cursor then s.journal.receipts[i].cursor else s.cursor)
  }

  // ---------- the picture through the gate ----------

  // Nothing is under way: the tree is a picture of the forest at the cursor.
  ghost predicate Calm(s: Extension, views: seq<View>, tail: seq<Id>) {
    && s.cursor < |views| && s.echoes == [] && OpenGate(s.journal)
    && Picture(views[s.cursor], s.client, tail)
  }

  // One effect is under way: the tree is already a picture of the next forest, and the one callback outstanding
  // will confirm the one receipt.
  ghost predicate Awaiting(s: Extension, views: seq<View>, tail: seq<Id>, canonical: string -> string) {
    && s.cursor + 1 < |views| && s.journal.phase != J.Paused && |s.echoes| == 1
    && (exists node, r :: J.Pending(s.journal.receipts) == [r] && r.cursor == s.cursor + 1 && Belongs(s.echoes[0], node)
          && r.workspace == node.workspace && r.backend == node.backend && r.chrome == node.chrome && r.kind == node.kind && J.Confirms(r, s.echoes[0].callback, canonical))
    && Picture(views[s.cursor + 1], s.client, tail)
  }

  // Where a known node stands in the tree says how it stands in the forest.
  lemma SpotsAgree(v: View, c: Client, tail: seq<Id>, e: Event)
    requires Sim(v, c, tail) && GoodView(v) && e.Upsert? && e.id in v.parent && Applicable(v, e)
    ensures var x := Lookup(c.chromeOf, e.id);
            && e.id in c.chromeOf && c.chromeOf[e.id] == x && x in c.tree.parent && c.tree.parent[x].Some? && e.parent in v.kids
            && PlaceOf(c, e.parent) == Some(At(c.chromeOf, c.root, e.parent))
            && var from, to := SpotIn(c.tree, x), Spot(At(c.chromeOf, c.root, e.parent), e.position, e.caption);
               (Moves(from, to) <==> MovesNode(v, e)) && (Retitles(from, to) <==> RetitlesNode(v, e))
  {
    var x, k := Lookup(c.chromeOf, e.id), v.parent[e.id];
    NodeIsPictured(v, c, tail, e.id);
    PlacesDiffer(v, c, tail, k, e.parent);
    PictureIndex(v, c, tail, e.id);
    TitlePictured(v, c, tail, e.id);
    SameSpot(v, e, SpotIn(c.tree, x), At(c.chromeOf, c.root, k), At(c.chromeOf, c.root, e.parent));
  }

  lemma TitlePictured(v: View, c: Client, tail: seq<Id>, id: Id)
    requires Sim(v, c, tail) && id in v.caption
    ensures Lookup(c.chromeOf, id) in c.tree.caption && c.tree.caption[Lookup(c.chromeOf, id)] == v.caption[id]
  {
  }

  lemma SameSpot(v: View, e: Event, from: Spot, here: Id, there: Id)
    requires e.Upsert? && e.id in v.parent && e.id in v.caption && v.parent[e.id] in v.kids && e.parent in v.kids
    requires from.parent == here && (here == there <==> v.parent[e.id] == e.parent)
    requires var l := v.kids[v.parent[e.id]];
             0 <= from.index < |l| && l[from.index] == e.id && forall j | 0 <= j < |l| && l[j] == e.id :: j == from.index
    requires from.caption == v.caption[e.id]
    ensures var to := Spot(there, e.position, e.caption); (Moves(from, to) <==> MovesNode(v, e)) && (Retitles(from, to) <==> RetitlesNode(v, e))
  {
  }

  // A node has the same index in the tree as in the forest.
  lemma PictureIndex(v: View, c: Client, tail: seq<Id>, id: Id)
    requires Sim(v, c, tail) && GoodView(v) && id in v.parent
    ensures var x := Lookup(c.chromeOf, id);
            && x in c.tree.parent && c.tree.parent[x].Some? && v.parent[id] in v.kids
            && var i := IndexOf(c.tree.kids[c.tree.parent[x].value], x);
               i < |v.kids[v.parent[id]]| && v.kids[v.parent[id]][i] == id && forall j | 0 <= j < |v.kids[v.parent[id]]| && v.kids[v.parent[id]][j] == id :: j == i
  {
    NodeIsPictured(v, c, tail, id);
    var k := v.parent[id];
    PlaceIsPictured(v, c, tail, k);
    IndexInPicture(c.chromeOf, v.kids[k], TailAt(k, tail), c.tree.kids[At(c.chromeOf, c.root, k)], id);
  }

  lemma IndexInPicture(m: map<Id, Id>, l: seq<Id>, rest: seq<Id>, chrome: seq<Id>, id: Id)
    requires chrome == Image(m, l) + rest && Distinct(chrome) && id in l
    ensures Lookup(m, id) in chrome
    ensures var i := IndexOf(chrome, Lookup(m, id)); i < |l| && l[i] == id && forall j | 0 <= j < |l| && l[j] == id :: j == i
  {
    forall j | 0 <= j < |l| && l[j] == id ensures chrome[j] == Lookup(m, id) {
    }
    var k :| 0 <= k < |l| && l[k] == id;
    assert chrome[k] == Lookup(m, id);
    assert IndexOf(chrome, Lookup(m, id)) == k;
  }

  lemma PlaceIsPictured(v: View, c: Client, tail: seq<Id>, k: Option<Id>)
    requires Sim(v, c, tail) && k in v.kids
    ensures At(c.chromeOf, c.root, k) in c.tree.kids
    ensures var l := c.tree.kids[At(c.chromeOf, c.root, k)]; l == Image(c.chromeOf, v.kids[k]) + TailAt(k, tail) && Distinct(l)
  {
  }

  lemma PlacesDiffer(v: View, c: Client, tail: seq<Id>, k: Option<Id>, l: Option<Id>)
    requires Sim(v, c, tail) && GoodView(v) && k in v.kids && l in v.kids
    ensures PlaceOf(c, k) == Some(At(c.chromeOf, c.root, k)) && PlaceOf(c, l) == Some(At(c.chromeOf, c.root, l))
    ensures At(c.chromeOf, c.root, k) == At(c.chromeOf, c.root, l) <==> k == l
  {
  }

  // What the run must respect at one event, apart from moving and retitling at once.
  ghost predicate Plain(v: View, e: Event) {
    && NoTwins(ApplyEventIf(v, e))
    && (e.Removal? ==> |Subtree(v.parent, e.id)| <= MAX_MAPPED)
  }

  ghost function ApplyEventIf(v: View, e: Event): View {
    if Applicable(v, e) then ApplyEvent(v, e) else v
  }

  // A new node nobody else carries the title of is created; no callback of it is waited for.
  lemma NothingKnown(v: View, c: Client, tail: seq<Id>, e: Event)
    requires Sim(v, c, tail) && GoodView(v) && TailNamed(tail, c.tree.caption) && Applicable(v, e) && NoTwins(ApplyEvent(v, e))
    requires e.Upsert? && e.id !in v.parent
    ensures Known(c, e).None?
  {
    NoTwinNoMatch(v, c, tail, e.id, e.parent, e.position, e.caption);
  }

  // t is s with the effect of e on its way: Chrome touched, the receipt pending, the callbacks raised.
  ghost predicate Effected(s: Extension, t: Extension, ws: Id, e: Event, moves: bool, retitles: bool, seen: Reads) {
    && e.Upsert? && Consistent(s.client.tree) && e.id in s.client.chromeOf && PlaceOf(s.client, e.parent).Some?
    && s.client.chromeOf[e.id] in s.client.tree.parent && s.client.tree.parent[s.client.chromeOf[e.id]].Some?
    && var x := s.client.chromeOf[e.id];
       var from, to := SpotIn(s.client.tree, x), Spot(PlaceOf(s.client, e.parent).value, e.position, e.caption);
       var node := Node(ws, e.id, x, KindOf(e.caption));
       && Moves(from, to) == moves && Retitles(from, to) == retitles
       && t == s.(client := t.client, journal := J.Persist(s.journal, ReceiptFor(node, s.cursor + 1, from, to)), echoes := s.echoes + EchoesAt(node, from, to, seen))
  }

  // One event with the gate open, whatever becomes of its receipt.
  lemma AppliedOpenly(s: Extension, v: View, w: View, tail: seq<Id>, ws: Id, e: Event, newId: Id, seen: Reads)
    requires Sim(v, s.client, tail) && GoodView(v) && TailNamed(tail, s.client.tree.caption) && newId !in s.client.tree.parent
    requires Applicable(v, e) && w == ApplyEvent(v, e) && GoodView(w) && Plain(v, e) && OpenGate(s.journal)
    ensures var t := Apply(s, ws, e, newId, seen);
            && Sim(w, t.client, tail) && TailNamed(tail, t.client.tree.caption)
            && if !MovesNode(v, e) && !RetitlesNode(v, e) then t == s.(client := t.client, cursor := s.cursor + 1)
               else Effected(s, t, ws, e, MovesNode(v, e), RetitlesNode(v, e), seen)
  {
    EventFollowed(v, s.client, tail, e, newId);
    var d := ApplyToClient(s.client, e, newId).value;
    if e.Upsert? && e.id in v.parent {
      SpotsAgree(v, s.client, tail, e);
      EffectOfKnown(s, ws, e, newId, seen, d);
    } else {
      if e.Upsert? { NothingKnown(v, s.client, tail, e); }
      EffectOfUnknown(s, ws, e, newId, seen, d);
    }
  }

  lemma EffectOfKnown(s: Extension, ws: Id, e: Event, newId: Id, seen: Reads, d: Client)
    requires Consistent(s.client.tree) && ApplyToClient(s.client, e, newId) == Ok(d) && OpenGate(s.journal)
    requires e.Upsert? && e.id in s.client.chromeOf && s.client.chromeOf[e.id] in s.client.tree.parent && s.client.tree.parent[s.client.chromeOf[e.id]].Some?
    requires PlaceOf(s.client, e.parent).Some?
    ensures var x := s.client.chromeOf[e.id];
            var from, to := SpotIn(s.client.tree, x), Spot(PlaceOf(s.client, e.parent).value, e.position, e.caption);
            var node := Node(ws, e.id, x, KindOf(e.caption));
            Apply(s, ws, e, newId, seen) ==
              if !Moves(from, to) && !Retitles(from, to) then s.(client := d, cursor := s.cursor + 1)
              else s.(client := d, journal := J.Persist(s.journal, ReceiptFor(node, s.cursor + 1, from, to)), echoes := s.echoes + EchoesAt(node, from, to, seen))
  {
    var x := s.client.chromeOf[e.id];
    var from, to := SpotIn(s.client.tree, x), Spot(PlaceOf(s.client, e.parent).value, e.position, e.caption);
    PersistedAlone(s.journal, Node(ws, e.id, x, KindOf(e.caption)), s.cursor + 1, from, to);
  }

  lemma EffectOfUnknown(s: Extension, ws: Id, e: Event, newId: Id, seen: Reads, d: Client)
    requires Consistent(s.client.tree) && ApplyToClient(s.client, e, newId) == Ok(d) && Known(s.client, e).None?
    ensures Apply(s, ws, e, newId, seen) == s.(client := d, cursor := s.cursor + 1)
  {
  }

  lemma AppliedSealed(s: Extension, v: View, w: View, tail: seq<Id>, ws: Id, e: Event, newId: Id, seen: Reads)
    requires Picture(v, s.client, tail) && newId !in s.client.tree.parent
    requires Applicable(v, e) && w == ApplyEvent(v, e) && Good(w) && Plain(v, e) && OpenGate(s.journal)
    ensures var t := Apply(s, ws, e, newId, seen);
            && Picture(w, t.client, tail)
            && if !MovesNode(v, e) && !RetitlesNode(v, e) then t == s.(client := t.client, cursor := s.cursor + 1)
               else Effected(s, t, ws, e, MovesNode(v, e), RetitlesNode(v, e), seen)
  {
    PictureIs(v, s.client, tail);
    GoodIs(w);
    AppliedOpenly(s, v, w, tail, ws, e, newId, seen);
    PictureIs(w, Apply(s, ws, e, newId, seen).client, tail);
  }

  ghost predicate AllPlain(views: seq<View>, log: seq<Option<Event>>) {
    |views| == |log| + 1 && forall i | 0 <= i < |log| && log[i].Some? :: Plain(views[i], log[i].value)
  }

  // No event of the log both moves and retitles.
  ghost predicate OneChangeEach(views: seq<View>, log: seq<Option<Event>>) {
    |views| == |log| + 1 && forall i | 0 <= i < |log| && log[i].Some? :: !(MovesNode(views[i], log[i].value) && RetitlesNode(views[i], log[i].value))
  }

  lemma NothingPending(j: J.Journal)
    requires J.Pending(j.receipts) == []
    ensures !J.HasPending(j)
  {
    J.PendingMembers(j.receipts);
    forall r | r in j.receipts ensures !r.pending {
      assert r in j.receipts && r.pending ==> r in J.Pending(j.receipts);
    }
  }

  lemma NextApplies(s: Extension, ws: Id, log: seq<Option<Event>>, newId: Id, seen: Reads, canonical: string -> string)
    requires OpenGate(s.journal) && s.cursor < |log| && log[s.cursor].Some?
    ensures After(s, ws, log, NextEvent(newId, seen), canonical) == Apply(s, ws, log[s.cursor].value, newId, seen)
  {
    NothingPending(s.journal);
  }

  lemma NextOfOne(s: Extension, views: seq<View>, log: seq<Option<Event>>, tail: seq<Id>, ws: Id, newId: Id, seen: Reads, canonical: string -> string)
    requires ToldAt(views, log, s.cursor) && Calm(s, views, tail) && newId !in s.client.tree.parent && log[s.cursor].Some?
    requires var e := log[s.cursor].value; Plain(views[s.cursor], e) && !(MovesNode(views[s.cursor], e) && RetitlesNode(views[s.cursor], e))
    ensures var t := After(s, ws, log, NextEvent(newId, seen), canonical);
            && t.journal.intents == s.journal.intents
            && if MovesNode(views[s.cursor], log[s.cursor].value) || RetitlesNode(views[s.cursor], log[s.cursor].value)
               then Awaiting(t, views, tail, canonical) && t.cursor == s.cursor
               else Calm(t, views, tail) && t.cursor == s.cursor + 1
  {
    var n := s.cursor;
    var e := log[n].value;
    NextApplies(s, ws, log, newId, seen, canonical);
    AppliedSealed(s, views[n], views[n + 1], tail, ws, e, newId, seen);
    if MovesNode(views[n], e) || RetitlesNode(views[n], e) {
      OneIsAwaited(s, Apply(s, ws, e, newId, seen), views, tail, ws, e, MovesNode(views[n], e), seen, canonical);
    }
  }

  lemma CalmNext(s: Extension, views: seq<View>, log: seq<Option<Event>>, tail: seq<Id>, ws: Id, newId: Id, seen: Reads, canonical: string -> string)
    requires Told(views, log) && AllPlain(views, log) && OneChangeEach(views, log) && Calm(s, views, tail)
    requires newId !in s.client.tree.parent && s.cursor < |log|
    ensures var t := After(s, ws, log, NextEvent(newId, seen), canonical);
            && t.journal.intents == s.journal.intents
            && ((Calm(t, views, tail) && t.cursor == s.cursor + 1) || (Awaiting(t, views, tail, canonical) && t.cursor == s.cursor))
  {
    assert ToldAt(views, log, s.cursor);
    if log[s.cursor].Some? {
      NextOfOne(s, views, log, tail, ws, newId, seen, canonical);
    } else {
      NothingPending(s.journal);
      assert Leads(views[s.cursor], log[s.cursor], views[s.cursor + 1]);
    }
  }

  lemma OneIsAwaited(s: Extension, t: Extension, views: seq<View>, tail: seq<Id>, ws: Id, e: Event, moves: bool, seen: Reads, canonical: string -> string)
    requires s.echoes == [] && OpenGate(s.journal) && s.cursor + 1 < |views| && Effected(s, t, ws, e, moves, !moves, seen)
    requires Picture(views[s.cursor + 1], t.client, tail)
    ensures Awaiting(t, views, tail, canonical) && t.cursor == s.cursor && t.journal.intents == s.journal.intents
  {
    var x := s.client.chromeOf[e.id];
    var from, to := SpotIn(s.client.tree, x), Spot(PlaceOf(s.client, e.parent).value, e.position, e.caption);
    var node := Node(ws, e.id, x, KindOf(e.caption));
    PersistedAlone(s.journal, node, s.cursor + 1, from, to);
    var r := ReceiptFor(node, s.cursor + 1, from, to);
    assert t.echoes == EchoesAt(node, from, to, seen);
    assert J.Confirms(r, t.echoes[0].callback, canonical) && Belongs(t.echoes[0], node);
  }

  lemma AwaitedComes(s: Extension, views: seq<View>, log: seq<Option<Event>>, tail: seq<Id>, ws: Id, canonical: string -> string)
    requires Awaiting(s, views, tail, canonical)
    ensures var t := After(s, ws, log, NextEcho, canonical);
            Calm(t, views, tail) && t.cursor == s.cursor + 1 && t.journal.intents == s.journal.intents
  {
    var node, r :| J.Pending(s.journal.receipts) == [r] && r.cursor == s.cursor + 1 && Belongs(s.echoes[0], node)
          && r.workspace == node.workspace && r.backend == node.backend && r.chrome == node.chrome && r.kind == node.kind && J.Confirms(r, s.echoes[0].callback, canonical);
    var c := s.echoes[0];
    OneEcho(s.journal, node, r, c, canonical);
    FoundReceipt(s.journal, node, r, c);
  }

  lemma FoundReceipt(j: J.Journal, node: Node, r: J.Receipt, c: Echo)
    requires J.Pending(j.receipts) == [r] && Belongs(c, node)
    requires r.workspace == node.workspace && r.backend == node.backend && r.chrome == node.chrome && r.kind == node.kind
    ensures var i := J.FirstPending(j.receipts, c.callback); i < |j.receipts| && j.receipts[i] == r
  {
    J.PendingMembers(j.receipts);
    assert r in J.Pending(j.receipts);
    J.PendingFound(j, c.callback, (url: string) => url);
    var i := J.FirstPending(j.receipts, c.callback);
    assert j.receipts[i] in j.receipts && j.receipts[i] in J.Pending(j.receipts);
  }

  lemma AwaitingIsPending(s: Extension, views: seq<View>, tail: seq<Id>, canonical: string -> string)
    requires Awaiting(s, views, tail, canonical)
    ensures J.HasPending(s.journal)
  {
    var r :| J.Pending(s.journal.receipts) == [r];
    J.PendingMembers(s.journal.receipts);
    assert r in J.Pending(s.journal.receipts);
  }

  // ---------- runs ----------

  ghost function RunOf(s: Extension, ws: Id, log: seq<Option<Event>>, steps: seq<Step>, canonical: string -> string): Extension {
    if steps == [] then s else After(RunOf(s, ws, log, steps[..|steps| - 1], canonical), ws, log, steps[|steps| - 1], canonical)
  }

  // Chrome hands out unused ids.
  ghost predicate UnusedIds(s: Extension, ws: Id, log: seq<Option<Event>>, steps: seq<Step>, canonical: string -> string) {
    forall i | 0 <= i < |steps| && steps[i].NextEvent? :: steps[i].newId !in RunOf(s, ws, log, steps[..i], canonical).client.tree.parent
  }

  lemma UnusedBefore(s: Extension, ws: Id, log: seq<Option<Event>>, steps: seq<Step>, canonical: string -> string)
    requires UnusedIds(s, ws, log, steps, canonical) && steps != []
    ensures var n := |steps| - 1;
            && UnusedIds(s, ws, log, steps[..n], canonical)
            && (steps[n].NextEvent? ==> steps[n].newId !in RunOf(s, ws, log, steps[..n], canonical).client.tree.parent)
  {
    var front := steps[..|steps| - 1];
    forall i | 0 <= i < |front| && front[i].NextEvent? ensures front[i].newId !in RunOf(s, ws, log, front[..i], canonical).client.tree.parent {
      assert front[..i] == steps[..i] && steps[i].NextEvent?;
    }
  }

  ghost predicate InStep(s: Extension, views: seq<View>, tail: seq<Id>, canonical: string -> string) {
    Calm(s, views, tail) || Awaiting(s, views, tail, canonical)
  }

  lemma StepKeepsInStep(s: Extension, views: seq<View>, log: seq<Option<Event>>, tail: seq<Id>, ws: Id, step: Step, canonical: string -> string)
    requires Told(views, log) && AllPlain(views, log) && OneChangeEach(views, log) && InStep(s, views, tail, canonical)
    requires step.NextEvent? ==> step.newId !in s.client.tree.parent
    ensures var t := After(s, ws, log, step, canonical); InStep(t, views, tail, canonical) && t.journal.intents == s.journal.intents && s.cursor <= t.cursor
  {
    if Calm(s, views, tail) {
      if step.NextEvent? && s.cursor < |log| { CalmNext(s, views, log, tail, ws, step.newId, step.seen, canonical); }
    } else {
      AwaitingIsPending(s, views, tail, canonical);
      if step.NextEcho? { AwaitedComes(s, views, log, tail, ws, canonical); }
    }
  }

  /** However events and callbacks interleave, the tree is a picture of the forest at the cursor, or of the next
      one with the confirming callback of its one change still to come; nothing is gated, and no echo is taken
      for a change of the user's. No event of the log may both move and retitle a node. */
  lemma {:induction false} EveryInterleavingPictures(s: Extension, views: seq<View>, log: seq<Option<Event>>, tail: seq<Id>, ws: Id, steps: seq<Step>, canonical: string -> string)
    requires Told(views, log) && AllPlain(views, log) && OneChangeEach(views, log) && Calm(s, views, tail)
    requires UnusedIds(s, ws, log, steps, canonical)
    ensures var t := RunOf(s, ws, log, steps, canonical); InStep(t, views, tail, canonical) && t.journal.intents == s.journal.intents && s.cursor <= t.cursor
  {
    if steps != [] {
      var n := |steps| - 1;
      UnusedBefore(s, ws, log, steps, canonical);
      EveryInterleavingPictures(s, views, log, tail, ws, steps[..n], canonical);
      StepKeepsInStep(RunOf(s, ws, log, steps[..n], canonical), views, log, tail, ws, steps[n], canonical);
    }
  }

  // And it moves on: an event and then a callback take the cursor over one more entry.
  lemma RoundAdvances(s: Extension, views: seq<View>, log: seq<Option<Event>>, tail: seq<Id>, ws: Id, newId: Id, seen: Reads, canonical: string -> string)
    requires Told(views, log) && AllPlain(views, log) && OneChangeEach(views, log) && Calm(s, views, tail)
    requires newId !in s.client.tree.parent && s.cursor < |log|
    ensures var t := After(After(s, ws, log, NextEvent(newId, seen), canonical), ws, log, NextEcho, canonical); Calm(t, views, tail) && t.cursor == s.cursor + 1
  {
    CalmNext(s, views, log, tail, ws, newId, seen, canonical);
    var t := After(s, ws, log, NextEvent(newId, seen), canonical);
    if Awaiting(t, views, tail, canonical) && t.cursor == s.cursor { AwaitedComes(t, views, log, tail, ws, canonical); }
  }

  // ---------- what goes wrong, and exactly when ----------

  // The event, then up to two callbacks.
  ghost function Round(s: Extension, ws: Id, log: seq<Option<Event>>, newId: Id, seen: Reads, canonical: string -> string): Extension {
    After(After(After(s, ws, log, NextEvent(newId, seen), canonical), ws, log, NextEcho, canonical), ws, log, NextEcho, canonical)
  }

  // An event Chrome refuses leaves tree and cursor as they are and pauses the workspace in front of it.
  lemma RefusedEventPauses(s: Extension, ws: Id, log: seq<Option<Event>>, newId: Id, seen: Reads, canonical: string -> string)
    requires OpenGate(s.journal) && s.cursor < |log| && log[s.cursor].Some? && Consistent(s.client.tree)
    requires var r := ApplyToClient(s.client, log[s.cursor].value, newId); r.Err? && (r.error.Refused? || r.error.LandedElsewhere?)
    ensures var t := After(s, ws, log, NextEvent(newId, seen), canonical);
            && t.client == s.client && t.cursor == s.cursor && t.echoes == s.echoes
            && t.journal.phase == J.Paused && t.journal.failedCursor == Some(s.cursor + 1) && t.journal.pauseReason == Some(J.ChromeEffectRejected)
            && t.journal.disposition == Some(J.Retry) && t.journal.receipts == s.journal.receipts && t.journal.intents == s.journal.intents
            && t.journal.operations == s.journal.operations
  {
    NextApplies(s, ws, log, newId, seen, canonical);
  }

  // An upsert that must be recovered first is left to the recovery: the gate stays open in front of it.
  lemma LostEventWaits(s: Extension, ws: Id, log: seq<Option<Event>>, newId: Id, seen: Reads, canonical: string -> string)
    requires OpenGate(s.journal) && s.cursor < |log| && log[s.cursor].Some? && Consistent(s.client.tree)
    requires ApplyToClient(s.client, log[s.cursor].value, newId) == Err(NeedsRecovery)
    ensures After(s, ws, log, NextEvent(newId, seen), canonical) == s
  {
    NextApplies(s, ws, log, newId, seen, canonical);
  }

  // With a hundred receipts kept the effect is not begun, and the workspace pauses in front of it. Behind an open gate
  // at most twenty are.
  lemma FullReceiptsPause(s: Extension, ws: Id, e: Event, x: Id, d: Client, seen: Reads)
    requires e.Upsert? && Consistent(s.client.tree) && x in s.client.tree.parent && s.client.tree.parent[x].Some? && PlaceOf(s.client, e.parent).Some?
    requires var from, to := SpotIn(s.client.tree, x), Spot(PlaceOf(s.client, e.parent).value, e.position, e.caption);
             from.parent != to.parent || from.index != to.index || from.caption != to.caption
    ensures var t := Effect(s, ws, e, x, d, seen);
            |J.PruneReceipts(s.journal.receipts)| >= 100 ==>
              && t.client == s.client && t.cursor == s.cursor && t.echoes == s.echoes
              && t.journal.phase == J.Paused && t.journal.failedCursor == Some(s.cursor + 1) && t.journal.pauseReason == Some(J.ReceiptCapacity)
              && t.journal.receipts == s.journal.receipts && t.journal.intents == s.journal.intents
    ensures OpenGate(s.journal) ==> |J.PruneReceipts(s.journal.receipts)| <= 20
  {
    J.PrunedAreKept(s.journal.receipts);
  }

  lemma ShutGateStays(s: Extension, ws: Id, log: seq<Option<Event>>, step: Step, canonical: string -> string)
    requires s.journal.phase == J.Paused
    ensures var t := After(s, ws, log, step, canonical);
            && t.client == s.client && t.journal.phase == J.Paused && s.cursor <= t.cursor
            && (step.NextEvent? ==> t == s) && (step.NextEcho? && s.echoes != [] ==> t.echoes == s.echoes[1..])
  {
  }

  /** A paused workspace is left alone: over any steps the tree and the mapping stay as they are, and only callbacks of
      effects begun before the pause are still handled. */
  lemma {:induction false} PausedRunTouchesNothing(s: Extension, ws: Id, log: seq<Option<Event>>, steps: seq<Step>, canonical: string -> string)
    requires s.journal.phase == J.Paused
    ensures var t := RunOf(s, ws, log, steps, canonical);
            && t.client == s.client && t.journal.phase == J.Paused && s.cursor <= t.cursor
            && |t.echoes| <= |s.echoes| && t.echoes == s.echoes[|s.echoes| - |t.echoes|..]
            && (s.echoes == [] ==> t == s)
  {
    if steps != [] {
      var n := |steps| - 1;
      PausedRunTouchesNothing(s, ws, log, steps[..n], canonical);
      ShutGateStays(RunOf(s, ws, log, steps[..n], canonical), ws, log, steps[n], canonical);
    }
  }

  // A pending receipt holds the next event back.
  lemma PendingHoldsBack(s: Extension, ws: Id, log: seq<Option<Event>>, newId: Id, seen: Reads, canonical: string -> string)
    requires J.Pending(s.journal.receipts) != []
    ensures After(s, ws, log, NextEvent(newId, seen), canonical) == s
  {
    J.PendingIff(s.journal);
  }

  lemma RoundIsRun(s: Extension, ws: Id, log: seq<Option<Event>>, newId: Id, seen: Reads, canonical: string -> string)
    ensures Round(s, ws, log, newId, seen, canonical) == RunOf(s, ws, log, [NextEvent(newId, seen), NextEcho, NextEcho], canonical)
  {
    var steps := [NextEvent(newId, seen), NextEcho, NextEcho];
    assert steps[..2][..1] == steps[..1] && steps[..1][..0] == [];
    assert RunOf(s, ws, log, steps[..1], canonical) == After(RunOf(s, ws, log, steps[..1][..0], canonical), ws, log, steps[0], canonical);
    assert RunOf(s, ws, log, steps[..2], canonical) == After(RunOf(s, ws, log, steps[..1], canonical), ws, log, steps[1], canonical);
  }

  // What the handler of the retitling callback takes for a change of the user's own.
  ghost function Echoed(s: Extension, ws: Id, e: Event, seen: Reads): J.Payload
    requires e.Upsert? && Consistent(s.client.tree) && e.id in s.client.chromeOf && PlaceOf(s.client, e.parent).Some?
    requires s.client.chromeOf[e.id] in s.client.tree.parent && s.client.tree.parent[s.client.chromeOf[e.id]].Some?
  {
    var x := s.client.chromeOf[e.id];
    var from, to := SpotIn(s.client.tree, x), Spot(PlaceOf(s.client, e.parent).value, e.position, e.caption);
    Mistaken(ChangedEcho(Node(ws, e.id, x, KindOf(e.caption)), Glimpse(from, to, seen.first), Glimpse(from, to, seen.second)))
  }

  // What a picture says of a node an upsert finds: enough for the definitions here.
  ghost predicate Stands(c: Client, e: Event) {
    && e.Upsert? && Consistent(c.tree) && e.id in c.chromeOf && PlaceOf(c, e.parent).Some?
    && c.chromeOf[e.id] in c.tree.parent && c.tree.parent[c.chromeOf[e.id]].Some?
  }

  lemma KnownNodeStands(v: View, c: Client, tail: seq<Id>, e: Event)
    requires Picture(v, c, tail) && Applicable(v, e) && e.Upsert? && e.id in v.parent
    ensures Stands(c, e)
  {
    PictureIs(v, c, tail);
    SpotsAgree(v, c, tail, e);
  }

  // The journal after a round in which the echo was captured: gated by the callback, the receipt consumed by the
  // next one.
  ghost predicate PausedByEcho(j: J.Journal, k: J.Journal, echo: J.Payload) {
    && k.phase == J.Paused && k.disposition == Some(J.Retry) && k.pauseReason in {Some(J.FinalVerificationFailed), Some(J.IntentOverflow)}
    && J.Pending(k.receipts) == [] && k.intents == J.Capture(j, echo).intents && (!J.Intended(j.intents, echo) ==> J.Owed(k.intents, echo))
  }

  // The workspace is paused by the retitling callback, which is captured; the moving one then consumes the
  // receipt, and the tree is the picture all along.
  lemma BothPauses(s: Extension, views: seq<View>, log: seq<Option<Event>>, tail: seq<Id>, ws: Id, newId: Id, seen: Reads, canonical: string -> string)
    requires ToldAt(views, log, s.cursor) && Calm(s, views, tail) && newId !in s.client.tree.parent && log[s.cursor].Some?
    requires var e := log[s.cursor].value; Plain(views[s.cursor], e) && MovesNode(views[s.cursor], e) && RetitlesNode(views[s.cursor], e)
    ensures Stands(s.client, log[s.cursor].value)
    ensures var t := Round(s, ws, log, newId, seen, canonical);
            && PausedByEcho(s.journal, t.journal, Echoed(s, ws, log[s.cursor].value, seen))
            && t.echoes == [] && t.cursor == s.cursor + 1 && Picture(views[s.cursor + 1], t.client, tail)
  {
    var n := s.cursor;
    var e := log[n].value;
    KnownNodeStands(views[n], s.client, tail, e);
    NextApplies(s, ws, log, newId, seen, canonical);
    BothApplied(s, views[n], views[n + 1], tail, ws, e, newId, seen);
    TwoAreAwaited(s, Apply(s, ws, e, newId, seen), ws, log, e, seen, canonical);
  }

  lemma BothApplied(s: Extension, v: View, w: View, tail: seq<Id>, ws: Id, e: Event, newId: Id, seen: Reads)
    requires Picture(v, s.client, tail) && newId !in s.client.tree.parent && Good(w) && OpenGate(s.journal)
    requires Applicable(v, e) && w == ApplyEvent(v, e) && Plain(v, e) && MovesNode(v, e) && RetitlesNode(v, e)
    ensures var t := Apply(s, ws, e, newId, seen); Picture(w, t.client, tail) && Effected(s, t, ws, e, true, true, seen)
  {
    AppliedSealed(s, v, w, tail, ws, e, newId, seen);
  }

  lemma TwoAreAwaited(s: Extension, t: Extension, ws: Id, log: seq<Option<Event>>, e: Event, seen: Reads, canonical: string -> string)
    requires s.echoes == [] && OpenGate(s.journal) && Stands(s.client, e) && Effected(s, t, ws, e, true, true, seen)
    ensures var u := After(After(t, ws, log, NextEcho, canonical), ws, log, NextEcho, canonical);
            && PausedByEcho(s.journal, u.journal, Echoed(s, ws, e, seen)) && u.echoes == [] && u.cursor == s.cursor + 1 && u.client == t.client
  {
    var x := s.client.chromeOf[e.id];
    var from, to := SpotIn(s.client.tree, x), Spot(PlaceOf(s.client, e.parent).value, e.position, e.caption);
    var node := Node(ws, e.id, x, KindOf(e.caption));
    var c := ChangedEcho(node, Glimpse(from, to, seen.first), Glimpse(from, to, seen.second));
    assert t.echoes == [c, MovedEcho(node, from, to)];
    PersistedAlone(s.journal, node, s.cursor + 1, from, to);
    TwoEchoes(t, ws, log, node, ReceiptFor(node, s.cursor + 1, from, to), c, from, to, canonical);
    SameCapture(s.journal, t.journal, Mistaken(c));
  }

  lemma SameCapture(j: J.Journal, k: J.Journal, p: J.Payload)
    requires j.intents == k.intents
    ensures J.Capture(j, p).intents == J.Capture(k, p).intents
  {
  }

  lemma TwoEchoes(t: Extension, ws: Id, log: seq<Option<Event>>, node: Node, r: J.Receipt, c: Echo, from: Spot, to: Spot, canonical: string -> string)
    requires Moves(from, to) && r == ReceiptFor(node, t.cursor + 1, from, to) && Belongs(c, node) && !c.callback.moved
    requires J.Pending(t.journal.receipts) == [r] && t.echoes == [c, MovedEcho(node, from, to)]
    ensures var u := After(After(t, ws, log, NextEcho, canonical), ws, log, NextEcho, canonical);
            && PausedByEcho(t.journal, u.journal, Mistaken(c)) && u.echoes == [] && u.cursor == t.cursor + 1 && u.client == t.client
  {
    OneEcho(t.journal, node, r, c, canonical);
    FoundReceipt(t.journal, node, r, c);
    var u := After(t, ws, log, NextEcho, canonical);
    RetitledFirst(t.journal, node, r, c, MovedEcho(node, from, to), canonical);
    FoundReceipt(u.journal, node, r, u.echoes[0]);
  }

  /** An event of a tidy log is followed without a pause if and only if it does not both move and retitle. */
  lemma RoundFollowedIff(s: Extension, views: seq<View>, log: seq<Option<Event>>, tail: seq<Id>, ws: Id, newId: Id, seen: Reads, canonical: string -> string)
    requires ToldAt(views, log, s.cursor) && Calm(s, views, tail) && newId !in s.client.tree.parent && log[s.cursor].Some?
    requires Plain(views[s.cursor], log[s.cursor].value)
    ensures var t := Round(s, ws, log, newId, seen, canonical);
            Calm(t, views, tail) && t.cursor == s.cursor + 1 <==> !(MovesNode(views[s.cursor], log[s.cursor].value) && RetitlesNode(views[s.cursor], log[s.cursor].value))
  {
    var n := s.cursor;
    var e := log[n].value;
    if MovesNode(views[n], e) && RetitlesNode(views[n], e) {
      BothPauses(s, views, log, tail, ws, newId, seen, canonical);
    } else {
      OneChangeRound(s, views, log, tail, ws, newId, seen, canonical);
    }
  }

  lemma OneChangeRound(s: Extension, views: seq<View>, log: seq<Option<Event>>, tail: seq<Id>, ws: Id, newId: Id, seen: Reads, canonical: string -> string)
    requires ToldAt(views, log, s.cursor) && Calm(s, views, tail) && newId !in s.client.tree.parent && log[s.cursor].Some?
    requires var e := log[s.cursor].value; Plain(views[s.cursor], e) && !(MovesNode(views[s.cursor], e) && RetitlesNode(views[s.cursor], e))
    ensures var t := Round(s, ws, log, newId, seen, canonical); Calm(t, views, tail) && t.cursor == s.cursor + 1 && t.journal.intents == s.journal.intents
  {
    NextOfOne(s, views, log, tail, ws, newId, seen, canonical);
    var t := After(s, ws, log, NextEvent(newId, seen), canonical);
    if Awaiting(t, views, tail, canonical) && t.cursor == s.cursor { AwaitedComes(t, views, log, tail, ws, canonical); }
  }

  ghost predicate NodeOwed(j: J.Journal, id: Id) {
    exists x :: x in j.intents && x.payload.backend == id && x.status != J.Acked
  }

  /** After the round the extension owes the server a change of the node, though the user made none, if and only if
      the event both moves and retitles it. */
  lemma RoundOwesIff(s: Extension, views: seq<View>, log: seq<Option<Event>>, tail: seq<Id>, ws: Id, newId: Id, seen: Reads, canonical: string -> string)
    requires ToldAt(views, log, s.cursor) && Calm(s, views, tail) && newId !in s.client.tree.parent && log[s.cursor].Some?
    requires Plain(views[s.cursor], log[s.cursor].value) && forall x | x in s.journal.intents :: x.payload.backend != log[s.cursor].value.id
    ensures var e := log[s.cursor].value;
            NodeOwed(Round(s, ws, log, newId, seen, canonical).journal, e.id) <==> MovesNode(views[s.cursor], e) && RetitlesNode(views[s.cursor], e)
  {
    var e := log[s.cursor].value;
    var t := Round(s, ws, log, newId, seen, canonical);
    if MovesNode(views[s.cursor], e) && RetitlesNode(views[s.cursor], e) {
      BothPauses(s, views, log, tail, ws, newId, seen, canonical);
      CapturedNode(s.journal, t.journal, Echoed(s, ws, e, seen), e.id);
    } else {
      OneChangeRound(s, views, log, tail, ws, newId, seen, canonical);
      assert t.journal.intents == s.journal.intents;
    }
  }

  lemma CapturedNode(j: J.Journal, k: J.Journal, p: J.Payload, id: Id)
    requires PausedByEcho(j, k, p) && p.backend == id && forall x | x in j.intents :: x.payload.backend != id
    ensures NodeOwed(k, id)
  {
    assert !J.Intended(j.intents, p);
    var x :| x in k.intents && x.payload == p && x.status != J.Acked;
  }

  // drainLocalIntents, for a node still mapped as it was: the change an intent asks the server for. None where it
  // is refused before it is sent.
  function Asked(c: Client, p: J.Payload): Option<Event> {
    var root := p.node.parent == Some(c.root);
    if p.node.parent.None? || p.node.index.None? || (!root && p.node.parent.value !in c.backendOf) then None
    else
      var parent := if root then None else Some(c.backendOf[p.node.parent.value]);
      match p.entity
      case Folder => Some(Upsert(p.backend, parent, p.node.index.value, FolderLabel(p.node.title)))
      case Bookmark =>
        if root || p.node.url.None? then None
        else Some(Upsert(p.backend, parent, p.node.index.value, BookmarkLabel(p.node.title, p.node.url.value)))
  }

  ghost predicate IsAt(v: View, id: Id, index: int) {
    && id in v.parent && v.parent[id] in v.kids && 0 <= index < |v.kids[v.parent[id]]| && v.kids[v.parent[id]][index] == id
  }

  // A place is told from the Chrome id it is mapped to.
  lemma PlaceNamed(v: View, c: Client, tail: seq<Id>, k: Option<Id>)
    requires Picture(v, c, tail) && k in v.kids
    ensures PlaceOf(c, k) == Some(At(c.chromeOf, c.root, k)) && (At(c.chromeOf, c.root, k) == c.root <==> k.None?)
    ensures k.Some? ==> At(c.chromeOf, c.root, k) in c.backendOf && c.backendOf[At(c.chromeOf, c.root, k)] == k.value
  {
    PictureIs(v, c, tail);
    PlacesDiffer(v, c, tail, k, k);
  }

  lemma EchoNames(s: Extension, v: View, d: Client, tail: seq<Id>, ws: Id, e: Event, seen: Reads)
    requires Picture(v, s.client, tail) && Applicable(v, e) && Stands(s.client, e) && e.id in v.parent
    requires d.root == s.client.root && d.backendOf == s.client.backendOf
    requires e.caption.BookmarkLabel? ==> e.parent.Some? && v.parent[e.id].Some?
    ensures var sent := Asked(d, Echoed(s, ws, e, seen));
            && (seen.second ==> sent == Some(e))
            && (!seen.second ==> sent.Some? && sent.value.Upsert? && sent.value == e.(parent := v.parent[e.id], position := sent.value.position) && IsAt(v, e.id, sent.value.position))
  {
    var k := v.parent[e.id];
    KnownIndex(v, s.client, tail, e.id);
    PlaceNamed(v, s.client, tail, k);
    PlaceNamed(v, s.client, tail, e.parent);
  }

  lemma KnownIndex(v: View, c: Client, tail: seq<Id>, id: Id)
    requires Picture(v, c, tail) && id in v.parent
    ensures var x := Lookup(c.chromeOf, id);
            && Consistent(c.tree) && id in c.chromeOf && x == c.chromeOf[id] && x in c.tree.parent && v.parent[id] in v.kids && c.tree.parent[x] == Some(At(c.chromeOf, c.root, v.parent[id]))
            && IsAt(v, id, IndexOf(c.tree.kids[c.tree.parent[x].value], x))
  {
    PictureIs(v, c, tail);
    PictureIndex(v, c, tail, id);
  }

  // The mapping of a known node is left as it is.
  lemma SameMapping(s: Extension, log: seq<Option<Event>>, ws: Id, newId: Id, seen: Reads, canonical: string -> string)
    requires s.cursor < |log| && log[s.cursor].Some? && Stands(s.client, log[s.cursor].value) && OpenGate(s.journal)
    ensures var d := Round(s, ws, log, newId, seen, canonical).client; d.root == s.client.root && d.backendOf == s.client.backendOf
  {
    NothingPending(s.journal);
    KnownMapping(s.client, log[s.cursor].value, newId);
  }

  lemma KnownMapping(c: Client, e: Event, newId: Id)
    requires Stands(c, e)
    ensures var r := ApplyToClient(c, e, newId); r.Ok? ==> r.value.root == c.root && r.value.backendOf == c.backendOf
  {
  }

  // The forest after an upsert has the node where it was told.
  lemma SettledForest(v: View, e: Event)
    requires Good(v) && Good(ApplyEventIf(v, e)) && Applicable(v, e) && e.Upsert? && e.id in v.parent
    ensures !MovesNode(ApplyEvent(v, e), e) && !RetitlesNode(ApplyEvent(v, e), e)
  {
    GoodIs(v);
    WithoutDistinct(v.kids[v.parent[e.id]], e.id);
  }

  // And asking for the old place moves it.
  lemma BackMoves(v: View, e: Event, back: Event)
    requires Good(v) && Good(ApplyEventIf(v, e)) && Applicable(v, e) && e.Upsert? && e.id in v.parent && MovesNode(v, e)
    requires back.Upsert? && back == e.(parent := v.parent[e.id], position := back.position) && IsAt(v, e.id, back.position)
    ensures MovesNode(ApplyEvent(v, e), back)
  {
    if v.parent[e.id] == e.parent {
      GoodIs(v);
      WithoutDistinct(v.kids[e.parent], e.id);
      InsertedOnce(Without(v.kids[e.parent], e.id), e.id, e.position);
      StandsWhereTold(v, e);
    } else {
      StandsWhereTold(v, e);
    }
  }

  lemma InsertedOnce(l: seq<Id>, id: Id, at: nat)
    requires id !in l && at <= |l|
    ensures forall j | 0 <= j < |Inserted(l, id, at)| :: Inserted(l, id, at)[j] == id <==> j == at
  {
  }

  lemma StandsWhereTold(v: View, e: Event)
    requires Applicable(v, e) && e.Upsert? && e.id in v.parent && v.parent[e.id] in v.kids
    ensures var w := ApplyEvent(v, e);
            && e.id in w.parent && w.parent[e.id] == e.parent && e.parent in w.kids
            && (v.parent[e.id] == e.parent ==> w.kids[e.parent] == Inserted(Without(v.kids[e.parent], e.id), e.id, e.position))
  {
  }

  /** What a retry then makes of it: the gate opens behind the event, and the echo is sent. If the handler read the
      node after the move, the server is asked for what it has; if it read it before, the node is asked back to
      the place the event took it from. */
  lemma RetrySendsTheEcho(s: Extension, views: seq<View>, log: seq<Option<Event>>, tail: seq<Id>, ws: Id, newId: Id, seen: Reads, canonical: string -> string)
    requires ToldAt(views, log, s.cursor) && Calm(s, views, tail) && newId !in s.client.tree.parent && log[s.cursor].Some?
    requires var e := log[s.cursor].value; Plain(views[s.cursor], e) && MovesNode(views[s.cursor], e) && RetitlesNode(views[s.cursor], e)
    requires var e := log[s.cursor].value; e.caption.BookmarkLabel? ==> e.parent.Some? && views[s.cursor].parent[e.id].Some?
    ensures var e, v, w := log[s.cursor].value, views[s.cursor], views[s.cursor + 1];
            var t := Round(s, ws, log, newId, seen, canonical);
            var u := t.(journal := J.RetryJournal(t.journal));
            && Stands(s.client, e) && Calm(u, views, tail) && u.cursor == s.cursor + 1
            && (!J.Intended(s.journal.intents, Echoed(s, ws, e, seen)) ==> J.Owed(u.journal.intents, Echoed(s, ws, e, seen)))
            && var sent := Asked(u.client, Echoed(s, ws, e, seen));
               && sent.Some? && sent.value.Upsert? && sent.value.id == e.id && sent.value.caption == e.caption
               && (seen.second ==> sent == Some(e) && !MovesNode(w, e) && !RetitlesNode(w, e))
               && (!seen.second ==> sent.value.parent == v.parent[e.id] && IsAt(v, e.id, sent.value.position) && MovesNode(w, sent.value))
  {
    BothPauses(s, views, log, tail, ws, newId, seen, canonical);
    var e, v, w := log[s.cursor].value, views[s.cursor], views[s.cursor + 1];
    var t := Round(s, ws, log, newId, seen, canonical);
    NothingPending(t.journal);
    SameMapping(s, log, ws, newId, seen, canonical);
    EchoNames(s, v, t.client, tail, ws, e, seen);
    if seen.second { SettledForest(v, e); } else { BackMoves(v, e, Asked(t.client, Echoed(s, ws, e, seen)).value); }
  }

  // A removal of more nodes than one operation may cover pauses the workspace, but counts as applied: after a
  // retry the gate is open, the cursor is past the removal, and the removed nodes are still in the tree.
  lemma LargeRemovalIsSkipped(s: Extension, views: seq<View>, log: seq<Option<Event>>, tail: seq<Id>, ws: Id, newId: Id, seen: Reads, canonical: string -> string)
    requires ToldAt(views, log, s.cursor) && Calm(s, views, tail) && log[s.cursor].Some? && log[s.cursor].value.Removal?
    requires |Subtree(views[s.cursor].parent, log[s.cursor].value.id)| > 500 && s.journal.disposition != Some(J.Rebuild)
    ensures var t := After(s, ws, log, NextEvent(newId, seen), canonical);
            var u := t.(journal := J.RetryJournal(t.journal));
            && t.journal.phase == J.Paused && t.journal.pauseReason == Some(J.AmbiguousOperation) && t.client == s.client && OpenGate(u.journal) && u.cursor == s.cursor + 1
            && Picture(views[s.cursor], u.client, tail) && !Picture(views[s.cursor + 1], u.client, tail)
  {
    LargeIsCounted(s, views[s.cursor], views[s.cursor + 1], tail, ws, log, newId, seen, canonical);
    RetryOpens(s.journal);
  }

  lemma LargeIsCounted(s: Extension, v: View, w: View, tail: seq<Id>, ws: Id, log: seq<Option<Event>>, newId: Id, seen: Reads, canonical: string -> string)
    requires OpenGate(s.journal) && Picture(v, s.client, tail) && s.cursor < |log| && log[s.cursor].Some? && log[s.cursor].value.Removal?
    requires Leads(v, log[s.cursor], w) && |Subtree(v.parent, log[s.cursor].value.id)| > MAX_MAPPED
    ensures After(s, ws, log, NextEvent(newId, seen), canonical) == s.(journal := J.Pause(s.journal, J.AmbiguousOperation), cursor := s.cursor + 1)
    ensures !Picture(w, s.client, tail)
  {
    NextApplies(s, ws, log, newId, seen, canonical);
    LargeApplied(s, v, tail, ws, log[s.cursor].value, newId, seen);
  }

  lemma LargeApplied(s: Extension, v: View, tail: seq<Id>, ws: Id, e: Event, newId: Id, seen: Reads)
    requires Picture(v, s.client, tail)
    requires e.Removal? && Applicable(v, e) && |Subtree(v.parent, e.id)| > MAX_MAPPED
    ensures Apply(s, ws, e, newId, seen) == s.(journal := J.Pause(s.journal, J.AmbiguousOperation), cursor := s.cursor + 1)
    ensures !Picture(RemoveNode(v, e.id), s.client, tail)
  {
    PictureIsConsistent(v, s.client, tail);
    LargeIsRefused(v, s.client, tail, e, newId);
    RefusedIsCounted(s, ws, e, newId, seen);
    RemovedIsGone(v, e.id);
    OtherIsNoPicture(v, RemoveNode(v, e.id), s.client, tail, e.id);
  }

  lemma RefusedIsCounted(s: Extension, ws: Id, e: Event, newId: Id, seen: Reads)
    requires Consistent(s.client.tree) && ApplyToClient(s.client, e, newId) == Err(TooManyMapped)
    ensures Apply(s, ws, e, newId, seen) == s.(journal := J.Pause(s.journal, J.AmbiguousOperation), cursor := s.cursor + 1)
  {
  }

  lemma LargeIsRefused(v: View, c: Client, tail: seq<Id>, e: Event, newId: Id)
    requires Picture(v, c, tail) && e.Removal? && Applicable(v, e) && |Subtree(v.parent, e.id)| > MAX_MAPPED
    ensures Consistent(c.tree) && ApplyToClient(c, e, newId) == Err(TooManyMapped)
  {
    PictureIs(v, c, tail);
    LargeRemovalRefused(v, c, tail, e.id);
    PlaceIsKnown(v, c, tail, e.parent);
    PlacedRemoval(c, e.id, e.parent, newId);
  }

  lemma OtherIsNoPicture(v: View, w: View, c: Client, tail: seq<Id>, id: Id)
    requires Picture(v, c, tail) && id in v.parent && id !in w.parent
    ensures !Picture(w, c, tail)
  {
    PictureKeys(v, c, tail);
    if Picture(w, c, tail) { PictureKeys(w, c, tail); }
  }

  lemma PictureKeys(v: View, c: Client, tail: seq<Id>)
    requires Picture(v, c, tail)
    ensures c.chromeOf.Keys == v.parent.Keys
  {
    PictureIs(v, c, tail);
  }

  lemma RetryOpens(j: J.Journal)
    requires OpenGate(j) && j.disposition != Some(J.Rebuild)
    ensures OpenGate(J.RetryJournal(J.Pause(j, J.AmbiguousOperation)))
  {
    NothingPending(j);
  }

  lemma LargeRemovalRefused(v: View, c: Client, tail: seq<Id>, id: Id)
    requires Sim(v, c, tail) && GoodView(v) && id in v.parent && v.parent[id] in v.kids && |Subtree(v.parent, id)| > MAX_MAPPED
    ensures ApplyRemoval(c, id) == Err(TooManyMapped)
  {
    RemovalOfKnown(v, c, tail, id);
    NodeIsPictured(v, c, tail, id);
  }

  lemma RemovedIsGone(v: View, id: Id)
    requires id in v.parent && v.parent[id] in v.kids
    ensures id !in RemoveNode(v, id).parent
  {
    assert Up(v.parent, id, 0) == Some(id);
  }
}
