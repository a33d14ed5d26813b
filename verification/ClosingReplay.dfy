/** The end of a rebuild: the workspace's whole log is read again, and every event above the stored cursor is
    applied to the tree just built. An event that needs a recovery first has one begun in the middle of the loop,
    with a loop of its own. */
module ClosingReplay {
  import opened Common
  import opened Ancestry
  import opened FolderTree
  import opened ForestView
  import opened ChromeTree
  import opened Replay
  import opened Echoes
  import opened GatedReplay
  import opened Overlay
  import opened StaleReplay
  import opened Recovery
  import J = Journal

  // How the callbacks of an event come: before the loop looks at the cursor, or only when all is over; and how
  // their handlers find the node.
  datatype Timing = Timing(prompt: bool, seen: Reads)

  type Pass = (Extension, Id, Timing) -> Extension
  type Refill = (Client, Event, Id) -> Client

  // What a rebuild finds. The server stands still: the log is the whole log, and sent is the forest it sends whenever
  // it is asked, as nodes. tail: the user's own nodes at the end of the workspace folder. Timing and Chrome's next
  // id may differ each time an event is met, after so many recoveries begun.
  datatype Setup = Setup(ws: Id, log: seq<Option<Event>>, canonical: string -> string, nodes: seq<FolderNode>, sent: View, tail: seq<Id>,
                         pass: Pass, refill: Refill, timing: (nat, nat) -> Timing, unused: (Tree, nat, nat) -> Id)

  // ---------- the loop ----------

  // One event is applied, and its callbacks come, or they do not.
  ghost function Attempt(s: Extension, ws: Id, log: seq<Option<Event>>, newId: Id, timing: Timing, canonical: string -> string): Extension {
    if timing.prompt then Round(s, ws, log, newId, timing.seen, canonical) else After(s, ws, log, NextEvent(newId, timing.seen), canonical)
  }

  ghost function Attempts(ws: Id, log: seq<Option<Event>>, canonical: string -> string): Pass {
    (s: Extension, newId: Id, timing: Timing) => Attempt(s, ws, log, newId, timing, canonical)
  }

  predicate GateShut(j: J.Journal) {
    j.phase == J.Paused || J.HasPending(j)
  }

  // pauseWorkspace after a recovery that got stuck.
  function Abandoned(j: J.Journal, cursor: int): J.Journal {
    J.Gate(j, cursor, J.AmbiguousPredecessor).(disposition := Some(J.Rebuild))
  }

  // ended: the loop got to the end of the log; tries: the recoveries begun since one ended.
  datatype Outcome = Outcome(ext: Extension, tries: nat, ended: bool)

  function Left(tries: nat): nat {
    if tries < MAX_SILENT_RECOVERY_ATTEMPTS then MAX_SILENT_RECOVERY_ATTEMPTS - tries else 0
  }

  // The loop over the log, of a rebuild or of a recovery: an event is applied unless it is behind the cursor, and
  // must have taken the cursor with it before the next one is looked at.
  ghost function Loop(u: Setup, s: Extension, tries: nat, i: nat): Outcome
    requires i <= |u.log|
    decreases |u.log| - i, Left(tries), 1
  {
    if i == |u.log| then Outcome(s, tries, true)
    else if i < s.cursor then Loop(u, s, tries, i + 1)
    else if u.log[i].None? then Loop(u, s.(cursor := i + 1), tries, i + 1)
    else
      var t := Envelope(u, s, tries, i);
      if t.ext.cursor <= i then t.(ended := false) else Loop(u, t.ext, t.tries, i + 1)
  }

  // applyRemoteEnvelope. An upsert that has lost its parent or its node starts a recovery, with a replay of its own
  // from the cursor, and is counted whatever comes of it; after too many recoveries it is counted at once.
  ghost function Envelope(u: Setup, s: Extension, tries: nat, i: nat): Outcome
    requires i < |u.log| && u.log[i].Some?
    decreases |u.log| - i, Left(tries), 0
  {
    var e, next := u.log[i].value, u.unused(s.client.tree, tries, i);
    if GateShut(s.journal) then Outcome(s, tries, true)
    else if !e.Upsert? || !IsLost(s.client, e.id, e.parent) then Outcome(u.pass(s, next, u.timing(tries, i)), tries, true)
    else if tries >= MAX_SILENT_RECOVERY_ATTEMPTS then Outcome(s.(cursor := i + 1), tries, true)
    else
      var r := Loop(u, s.(client := u.refill(s.client, e, next)), tries + 1, i);
      if r.ended then Outcome(r.ext.(cursor := if r.ext.cursor < |u.log| then |u.log| else r.ext.cursor), 0, true)
      else Outcome(r.ext.(journal := Abandoned(r.ext.journal, r.ext.cursor), cursor := if r.ext.cursor <= i then i + 1 else r.ext.cursor), r.tries, true)
  }

  // The closing replay, with so many recoveries begun before; None where it is given up.
  ghost function Closing(u: Setup, s: Extension, tries: nat): Option<Extension> {
    var r := Loop(u, s, tries, 0);
    if r.ended then Some(r.ext) else None
  }

  // ---------- what the setup means ----------

  // Sealed, as the pictures are.
  ghost predicate OpenedPass(really: bool, u: Setup) {
    really ==> u.pass == Attempts(u.ws, u.log, u.canonical)
  }

  ghost predicate Passing(u: Setup) {
    forall really: bool :: OpenedPass(really, u)
  }

  lemma PassIs(u: Setup, s: Extension, newId: Id, timing: Timing)
    requires Passing(u)
    ensures u.pass(s, newId, timing) == Attempt(s, u.ws, u.log, newId, timing, u.canonical)
  {
    assert OpenedPass(true, u);
  }

  // A recovery anchored at the workspace folder refills it.
  ghost predicate RefillsWith(u: Setup, c: Client, e: Event, next: Id) {
    e.Upsert? && c.root in c.tree.kids && !AnchoredBelow(Disowned(c, e), u.sent, e) ==>
      var r := Refilled(c, e, u.nodes, u.tail, next); r.Ok? ==> u.refill(c, e, next) == r.value.0
  }

  ghost predicate OpenedRefill(really: bool, u: Setup) {
    really ==> Sends(u.nodes, u.sent) && forall c, e, next :: RefillsWith(u, c, e, next)
  }

  ghost predicate Refilling(u: Setup) {
    forall really: bool :: OpenedRefill(really, u)
  }

  ghost predicate AllBelow(t: Tree, next: Id) {
    forall x | x in t.parent :: x < next
  }

  // Chrome hands out ids above all there are.
  ghost predicate NewIds(u: Setup) {
    forall t, tries, i :: AllBelow(t, u.unused(t, tries, i))
  }

  lemma UnusedIsNew(u: Setup, t: Tree, tries: nat, i: nat)
    requires NewIds(u)
    ensures u.unused(t, tries, i) !in t.parent
  {
    assert AllBelow(t, u.unused(t, tries, i));
  }

  lemma RecoveredPicture(u: Setup, v: View, c: Client, e: Event, next: Id)
    requires Refilling(u) && Picture(v, c, u.tail) && e.Upsert? && RootAnchored(v, u.sent, e) && AllBelow(c.tree, next)
    ensures Picture(u.sent, u.refill(c, e, next), u.tail)
  {
    assert OpenedRefill(true, u);
    SparedInPicture(v, c, u.tail);
    PictureIsRefillable(v, c, u.tail, e);
    AnchorIsRoot(v, c, u.tail, u.sent, e);
    RefillPictures(c, e, u.nodes, u.sent, u.tail, next);
    assert RefillsWith(u, c, e, next);
  }

  // ---------- the same, on forests ----------

  ghost predicate LastEvent(log: seq<Option<Event>>, i: nat) {
    forall j | i < j < |log| :: log[j].None?
  }

  ghost predicate TooLarge(v: View, e: Event) {
    e.Removal? && e.id in v.parent && |Subtree(v.parent, e.id)| > MAX_MAPPED
  }

  ghost predicate Changes(v: View, e: Event) {
    MovesNode(v, e) || RetitlesNode(v, e)
  }

  // An event that does not take the cursor with it: Chrome refuses it, or its callbacks do not come in time.
  ghost predicate Stops(v: View, e: Event, prompt: bool) {
    !FitsIn(v, e) || (Changes(v, e) && !prompt)
  }

  // An event that takes the cursor with it and pauses the workspace: too large a removal, or a move and a new title at
  // once.
  ghost predicate Pauses(v: View, e: Event, prompt: bool) {
    FitsIn(v, e) && (TooLarge(v, e) || (MovesNode(v, e) && RetitlesNode(v, e) && prompt))
  }

  // The forest after the event, where there is room for it.
  ghost function Met(v: View, e: Event): View {
    if !FitsIn(v, e) || TooLarge(v, e) then v else Forward(v, Some(e))
  }

  // The forest the closing replay ends with, from the given one on; None where it is given up. An event whose
  // parent is gone has the forest sent in place of the one it met, and is met again; after three such
  // recoveries it is passed over. again: the event has been met before, and will be counted.
  ghost function Course(u: Setup, v: View, tries: nat, again: bool, i: nat): Option<View>
    requires i <= |u.log|
    decreases |u.log| - i, Left(tries)
  {
    if i == |u.log| then Some(v)
    else if u.log[i].None? then Course(u, v, tries, false, i + 1)
    else
      var e, prompt := u.log[i].value, u.timing(tries, i).prompt;
      if Homeless(v, e) then
        (if tries >= MAX_SILENT_RECOVERY_ATTEMPTS then Course(u, v, tries, false, i + 1) else Course(u, u.sent, tries + 1, true, i))
      else if Stops(v, e, prompt) then (if again && LastEvent(u.log, i) then Some(Met(v, e)) else None)
      else if Pauses(v, e, prompt) then (if LastEvent(u.log, i) then Some(Met(v, e)) else None)
      else Course(u, Met(v, e), tries, false, i + 1)
  }

  // On its way every event is undisputed, and every recovery is anchored at the workspace folder.
  ghost predicate Untroubled(u: Setup, v: View, tries: nat, i: nat)
    requires i <= |u.log|
    decreases |u.log| - i, Left(tries)
  {
    if i == |u.log| then true
    else if u.log[i].None? then Untroubled(u, v, tries, i + 1)
    else
      var e, prompt := u.log[i].value, u.timing(tries, i).prompt;
      if Homeless(v, e) then
        (if tries >= MAX_SILENT_RECOVERY_ATTEMPTS then Untroubled(u, v, tries, i + 1)
         else Refilling(u) && RootAnchored(v, u.sent, e) && Untroubled(u, u.sent, tries + 1, i))
      else
        Undisputed(v, e, u.tail) && (Stops(v, e, prompt) || Pauses(v, e, prompt) || Untroubled(u, Met(v, e), tries, i + 1))
  }

  // ---------- one event ----------

  // Nothing is under way, and the tree is a picture of the forest.
  ghost predicate Rests(s: Extension, v: View, tail: seq<Id>, i: nat) {
    s.cursor == i && s.echoes == [] && OpenGate(s.journal) && Picture(v, s.client, tail)
  }

  // Two forests, before and after the i-th entry.
  ghost function Around(v: View, w: View, n: nat, i: nat): (r: seq<View>)
    ensures |r| == n + 1 && forall j | 0 <= j <= n :: r[j] == if j <= i then v else w
  {
    seq(n + 1, j requires 0 <= j <= n => if j <= i then v else w)
  }

  lemma UnknownRemoval(c: Client, e: Event, newId: Id)
    requires Consistent(c.tree) && c.root in c.tree.parent && e.Removal? && e.id !in c.chromeOf && forall b | b in c.chromeOf :: c.chromeOf[b] in c.tree.parent
    ensures ApplyToClient(c, e, newId) == Ok(c)
  {
    if e.parent.Some? && e.parent.value !in c.chromeOf {
      NothingInvalidated(c, e.id, e.parent);
    } else {
      PlacedRemoval(c, e.id, e.parent, newId);
    }
  }

  lemma NothingInvalidated(c: Client, id: Id, parent: Option<Id>)
    requires id !in c.chromeOf && parent.Some? && parent.value !in c.chromeOf
    ensures Invalidated(c, id, parent) == c
  {
    var ids := {id, parent.value};
    assert Forget(c, {}) == c.chromeOf;
    assert c.chromeOf - ids == c.chromeOf;
    assert (set b | b in ids && b in c.chromeOf :: c.chromeOf[b]) == {};
  }

  lemma SkippedIsNothing(v: View, c: Client, tail: seq<Id>, e: Event, newId: Id)
    requires Picture(v, c, tail) && Skipped(v, e)
    ensures Consistent(c.tree) && ApplyToClient(c, e, newId) == Ok(c)
  {
    SparedInPicture(v, c, tail);
    PictureKeys(v, c, tail);
    forall b | b in c.chromeOf ensures c.chromeOf[b] in c.tree.parent {
      NodePictured(v, c, tail, b);
    }
    UnknownRemoval(c, e, newId);
  }

  // An event that is only counted.
  lemma PassCounted(u: Setup, s: Extension, newId: Id, timing: Timing)
    requires Passing(u) && s.cursor < |u.log| && u.log[s.cursor].Some? && s.echoes == [] && OpenGate(s.journal)
    requires Apply(s, u.ws, u.log[s.cursor].value, newId, timing.seen).echoes == []
    ensures u.pass(s, newId, timing) == Apply(s, u.ws, u.log[s.cursor].value, newId, timing.seen)
  {
    PassIs(u, s, newId, timing);
    NextApplies(s, u.ws, u.log, newId, timing.seen, u.canonical);
  }

  lemma CountedIs(s: Extension, ws: Id, e: Event, newId: Id, seen: Reads)
    requires Consistent(s.client.tree) && e.Removal? && ApplyToClient(s.client, e, newId) == Ok(s.client)
    ensures Apply(s, ws, e, newId, seen) == s.(cursor := s.cursor + 1)
  {
  }

  lemma GatedIs(s: Extension, ws: Id, e: Event, newId: Id, seen: Reads)
    requires Consistent(s.client.tree) && RefusedBy(s.client, e, newId)
    ensures Apply(s, ws, e, newId, seen) == s.(journal := J.Gate(s.journal, s.cursor + 1, J.ChromeEffectRejected))
  {
  }

  lemma PassSkipped(u: Setup, s: Extension, v: View, i: nat, newId: Id, timing: Timing)
    requires Passing(u) && i < |u.log| && u.log[i].Some? && Rests(s, v, u.tail, i) && Skipped(v, u.log[i].value)
    ensures u.pass(s, newId, timing) == s.(cursor := i + 1)
  {
    SkippedIsNothing(v, s.client, u.tail, u.log[i].value, newId);
    CountedIs(s, u.ws, u.log[i].value, newId, timing.seen);
    PassCounted(u, s, newId, timing);
  }

  lemma PassRefused(u: Setup, s: Extension, v: View, i: nat, newId: Id, timing: Timing)
    requires Passing(u) && i < |u.log| && u.log[i].Some? && Rests(s, v, u.tail, i)
    requires var e := u.log[i].value; Refusable(v, e, u.tail) && NewTitle(v, e)
    ensures var t := u.pass(s, newId, timing); t.cursor == i && t.client == s.client
  {
    UpsertRefused(v, s.client, u.tail, u.log[i].value, newId);
    GatedIs(s, u.ws, u.log[i].value, newId, timing.seen);
    PassCounted(u, s, newId, timing);
  }

  lemma PassLarge(u: Setup, s: Extension, v: View, i: nat, newId: Id, timing: Timing)
    requires Passing(u) && i < |u.log| && u.log[i].Some? && Rests(s, v, u.tail, i)
    requires var e := u.log[i].value; Applicable(v, e) && TooLarge(v, e)
    ensures var t := u.pass(s, newId, timing); t.cursor == i + 1 && t.journal.phase == J.Paused && t.client == s.client
  {
    LargeIsRefused(v, s.client, u.tail, u.log[i].value, newId);
    RefusedIsCounted(s, u.ws, u.log[i].value, newId, timing.seen);
    PassCounted(u, s, newId, timing);
  }

  // What the run must respect for the lemmas of gated replay to speak of one event.
  ghost predicate Taken(u: Setup, s: Extension, v: View, i: nat, newId: Id) {
    && Passing(u) && i < |u.log| && u.log[i].Some? && Rests(s, v, u.tail, i) && newId !in s.client.tree.parent
    && var e := u.log[i].value; Takes(v, e) && NoTwins(ApplyEvent(v, e)) && !TooLarge(v, e)
  }

  lemma TakenIsTold(u: Setup, s: Extension, v: View, i: nat, newId: Id)
    requires Taken(u, s, v, i, newId)
    ensures var e := u.log[i].value;
            var h := Around(v, ApplyEvent(v, e), |u.log|, i);
            && ToldAt(h, u.log, i) && Calm(s, h, u.tail) && Plain(h[i], e) && h[i] == v && h[i + 1] == ApplyEvent(v, e)
  {
    PictureHasGood(v, s.client, u.tail);
    TakenIsGood(v, u.log[i].value);
  }

  lemma PictureHasGood(v: View, c: Client, tail: seq<Id>)
    requires Picture(v, c, tail)
    ensures Good(v)
  {
    PictureIs(v, c, tail);
    GoodIs(v);
  }

  lemma PassFollowed(u: Setup, s: Extension, v: View, i: nat, newId: Id, timing: Timing)
    requires Taken(u, s, v, i, newId)
    requires var e := u.log[i].value; !(MovesNode(v, e) && RetitlesNode(v, e)) && (Changes(v, e) ==> timing.prompt)
    ensures Rests(u.pass(s, newId, timing), ApplyEvent(v, u.log[i].value), u.tail, i + 1)
  {
    TakenIsTold(u, s, v, i, newId);
    PassIs(u, s, newId, timing);
    var h := Around(v, ApplyEvent(v, u.log[i].value), |u.log|, i);
    if timing.prompt {
      OneChangeRound(s, h, u.log, u.tail, u.ws, newId, timing.seen, u.canonical);
    } else {
      NextOfOne(s, h, u.log, u.tail, u.ws, newId, timing.seen, u.canonical);
    }
  }

  lemma PassLate(u: Setup, s: Extension, v: View, i: nat, newId: Id, timing: Timing)
    requires Taken(u, s, v, i, newId) && Changes(v, u.log[i].value) && !timing.prompt
    ensures var t := u.pass(s, newId, timing); t.cursor == i && Picture(ApplyEvent(v, u.log[i].value), t.client, u.tail)
  {
    TakenIsTold(u, s, v, i, newId);
    PassIs(u, s, newId, timing);
    NextApplies(s, u.ws, u.log, newId, timing.seen, u.canonical);
    AppliedSealed(s, v, ApplyEvent(v, u.log[i].value), u.tail, u.ws, u.log[i].value, newId, timing.seen);
  }

  lemma PassBoth(u: Setup, s: Extension, v: View, i: nat, newId: Id, timing: Timing)
    requires Taken(u, s, v, i, newId) && MovesNode(v, u.log[i].value) && RetitlesNode(v, u.log[i].value) && timing.prompt
    ensures var t := u.pass(s, newId, timing);
            t.cursor == i + 1 && t.journal.phase == J.Paused && Picture(ApplyEvent(v, u.log[i].value), t.client, u.tail)
  {
    TakenIsTold(u, s, v, i, newId);
    PassIs(u, s, newId, timing);
    BothPauses(s, Around(v, ApplyEvent(v, u.log[i].value), |u.log|, i), u.log, u.tail, u.ws, newId, timing.seen, u.canonical);
  }

  // What becomes of an undisputed event that is not homeless.
  lemma EventMet(u: Setup, s: Extension, v: View, i: nat, newId: Id, timing: Timing)
    requires Passing(u) && i < |u.log| && u.log[i].Some? && Rests(s, v, u.tail, i) && newId !in s.client.tree.parent
    requires Undisputed(v, u.log[i].value, u.tail)
    ensures var e := u.log[i].value;
            var t := u.pass(s, newId, timing);
            && Picture(Met(v, e), t.client, u.tail)
            && (Stops(v, e, timing.prompt) ==> t.cursor == i)
            && (Pauses(v, e, timing.prompt) ==> t.cursor == i + 1 && t.journal.phase == J.Paused)
            && (!Stops(v, e, timing.prompt) && !Pauses(v, e, timing.prompt) ==> Rests(t, Met(v, e), u.tail, i + 1))
  {
    var e := u.log[i].value;
    if !FitsIn(v, e) {
      PassRefused(u, s, v, i, newId, timing);
    } else if !Takes(v, e) {
      PassSkipped(u, s, v, i, newId, timing);
    } else if TooLarge(v, e) {
      PassLarge(u, s, v, i, newId, timing);
    } else if Changes(v, e) && !timing.prompt {
      PassLate(u, s, v, i, newId, timing);
    } else if MovesNode(v, e) && RetitlesNode(v, e) {
      PassBoth(u, s, v, i, newId, timing);
    } else {
      PassFollowed(u, s, v, i, newId, timing);
    }
  }

  // ---------- the loop follows the course ----------

  // Once paused the loop gets no further than the next event.
  lemma {:induction false} PausedLoop(u: Setup, s: Extension, tries: nat, i: nat)
    requires i <= |u.log| && s.journal.phase == J.Paused
    ensures var r := Loop(u, s, tries, i);
            && (r.ended <==> forall j | 0 <= j < |u.log| && i <= j && s.cursor <= j :: u.log[j].None?)
            && (r.ended ==> r.ext.client == s.client)
            && (!r.ended ==> exists j :: r.ext.cursor <= j && i <= j < |u.log| && u.log[j].Some?)
    decreases |u.log| - i
  {
    if i < |u.log| {
      if i < s.cursor {
        PausedLoop(u, s, tries, i + 1);
      } else if u.log[i].None? {
        PausedLoop(u, s.(cursor := i + 1), tries, i + 1);
      }
    }
  }

  // A cursor that has seen the whole log: nothing is replayed.
  lemma {:induction false} NothingToReplay(u: Setup, s: Extension, tries: nat, i: nat)
    requires i <= |u.log| <= s.cursor
    ensures Loop(u, s, tries, i) == Outcome(s, tries, true)
    decreases |u.log| - i
  {
    if i < |u.log| { NothingToReplay(u, s, tries, i + 1); }
  }

  lemma {:induction false} SkipsBehind(u: Setup, s: Extension, tries: nat, i: nat)
    requires i <= s.cursor <= |u.log|
    ensures Loop(u, s, tries, i) == Loop(u, s, tries, s.cursor)
    decreases s.cursor - i
  {
    if i < s.cursor { SkipsBehind(u, s, tries, i + 1); }
  }

  // The outcome of the loop is the one the two courses tell: once, if the loop is the rebuild's own; more, if it is
  // that of a recovery begun at the i-th event.
  ghost predicate Agrees(u: Setup, r: Outcome, once: Option<View>, more: Option<View>, i: nat)
    requires i <= |u.log|
  {
    && (r.ended <==> once.Some?)
    && (r.ended ==> more == once && Picture(once.value, r.ext.client, u.tail))
    && (!r.ended && more.Some? ==> Picture(more.value, r.ext.client, u.tail) && i < |u.log| && u.log[i].Some? && LastEvent(u.log, i) && r.ext.cursor <= i)
    && (!r.ended && more.None? ==> exists j :: r.ext.cursor <= j && i < j < |u.log| && u.log[j].Some?)
  }

  // An entry that is only passed.
  lemma AgreesBefore(u: Setup, r: Outcome, once: Option<View>, more: Option<View>, i: nat)
    requires i < |u.log| && Agrees(u, r, once, more, i + 1)
    ensures Agrees(u, r, once, once, i)
  {
  }

  ghost predicate Begun(u: Setup, s: Extension, v: View, tries: nat, i: nat) {
    i <= |u.log| && Passing(u) && NewIds(u) && Rests(s, v, u.tail, i) && Untroubled(u, v, tries, i)
  }

  lemma HomelessIsLost(v: View, c: Client, tail: seq<Id>, e: Event)
    requires Picture(v, c, tail) && Homeless(v, e)
    ensures IsLost(c, e.id, e.parent)
  {
    PictureKeys(v, c, tail);
  }

  lemma HousedIsNotLost(v: View, c: Client, tail: seq<Id>, e: Event)
    requires Picture(v, c, tail) && !Homeless(v, e) && e.Upsert?
    ensures !IsLost(c, e.id, e.parent)
  {
    SparedInPicture(v, c, tail);
    PictureKeys(v, c, tail);
    if e.id in v.parent { NodePictured(v, c, tail, e.id); }
    if e.parent.Some? { NodePictured(v, c, tail, e.parent.value); }
  }

  ghost function Recovering(u: Setup, s: Extension, tries: nat, i: nat): Extension
    requires i < |u.log| && u.log[i].Some?
  {
    s.(client := u.refill(s.client, u.log[i].value, u.unused(s.client.tree, tries, i)))
  }

  lemma OpenIsNotShut(j: J.Journal)
    requires OpenGate(j)
    ensures !GateShut(j)
  {
    NothingPending(j);
  }

  lemma LostPassedOver(u: Setup, s: Extension, tries: nat, i: nat)
    requires i < |u.log| && u.log[i].Some? && s.cursor == i && OpenGate(s.journal) && tries >= MAX_SILENT_RECOVERY_ATTEMPTS
    requires var e := u.log[i].value; e.Upsert? && IsLost(s.client, e.id, e.parent)
    ensures Loop(u, s, tries, i) == Loop(u, s.(cursor := i + 1), tries, i + 1)
  {
    OpenIsNotShut(s.journal);
  }

  lemma LostRecovers(u: Setup, s: Extension, tries: nat, i: nat)
    requires i < |u.log| && u.log[i].Some? && s.cursor == i && OpenGate(s.journal) && tries < MAX_SILENT_RECOVERY_ATTEMPTS
    requires var e := u.log[i].value; e.Upsert? && IsLost(s.client, e.id, e.parent)
    requires Loop(u, Recovering(u, s, tries, i), tries + 1, i).ended
    ensures var r := Loop(u, s, tries, i); r.ended && r.ext.client == Loop(u, Recovering(u, s, tries, i), tries + 1, i).ext.client
  {
    OpenIsNotShut(s.journal);
    var t := Envelope(u, s, tries, i);
    NothingToReplay(u, t.ext, t.tries, i + 1);
  }

  lemma PassedOver(u: Setup, s: Extension, v: View, tries: nat, i: nat)
    requires i < |u.log| && u.log[i].Some? && Rests(s, v, u.tail, i) && Homeless(v, u.log[i].value) && tries >= MAX_SILENT_RECOVERY_ATTEMPTS
    ensures Loop(u, s, tries, i) == Loop(u, s.(cursor := i + 1), tries, i + 1)
  {
    HomelessIsLost(v, s.client, u.tail, u.log[i].value);
    LostPassedOver(u, s, tries, i);
  }

  lemma RecoveryBegins(u: Setup, s: Extension, v: View, tries: nat, i: nat)
    requires Begun(u, s, v, tries, i) && i < |u.log| && u.log[i].Some? && Homeless(v, u.log[i].value) && tries < MAX_SILENT_RECOVERY_ATTEMPTS
    ensures Begun(u, Recovering(u, s, tries, i), u.sent, tries + 1, i)
  {
    assert AllBelow(s.client.tree, u.unused(s.client.tree, tries, i));
    RecoveredPicture(u, v, s.client, u.log[i].value, u.unused(s.client.tree, tries, i));
  }

  // Whatever becomes of a recovery, its event is counted: the loop around it goes on only if the recovery got to
  // the end of the log, and then has nothing left to do.
  lemma RecoveryEnds(u: Setup, s: Extension, v: View, tries: nat, i: nat, once: Option<View>, more: Option<View>)
    requires i < |u.log| && u.log[i].Some? && Rests(s, v, u.tail, i) && Homeless(v, u.log[i].value) && tries < MAX_SILENT_RECOVERY_ATTEMPTS
    requires Agrees(u, Loop(u, Recovering(u, s, tries, i), tries + 1, i), once, more, i)
    ensures Agrees(u, Loop(u, s, tries, i), more, more, i)
  {
    OpenIsNotShut(s.journal);
    HomelessIsLost(v, s.client, u.tail, u.log[i].value);
    if Loop(u, Recovering(u, s, tries, i), tries + 1, i).ended {
      LostRecovers(u, s, tries, i);
    } else {
      var t := Envelope(u, s, tries, i);
      PausedLoop(u, t.ext, t.tries, i + 1);
    }
  }

  // A recovery whose replay got stuck pauses the workspace at the cursor it reached, for a rebuild, and its event is
  // counted all the same.
  lemma StuckRecoveryPauses(u: Setup, s: Extension, tries: nat, i: nat)
    requires i < |u.log| && u.log[i].Some? && OpenGate(s.journal) && tries < 3
    requires var e := u.log[i].value; e.Upsert? && IsLost(s.client, e.id, e.parent)
    requires !Loop(u, Recovering(u, s, tries, i), tries + 1, i).ended
    ensures var r, t := Loop(u, Recovering(u, s, tries, i), tries + 1, i), Envelope(u, s, tries, i);
            && t.ended && t.ext.client == r.ext.client && t.ext.cursor == (if r.ext.cursor <= i then i + 1 else r.ext.cursor)
            && t.ext.journal.phase == J.Paused && t.ext.journal.failedCursor == Some(r.ext.cursor) && t.ext.journal.pauseReason == Some(J.AmbiguousPredecessor)
            && t.ext.journal.disposition == Some(J.Rebuild) && t.ext.journal.intents == r.ext.journal.intents && t.ext.journal.receipts == r.ext.journal.receipts
  {
    OpenIsNotShut(s.journal);
  }

  // An event that is no matter of recovery.
  lemma EnvelopePasses(u: Setup, s: Extension, tries: nat, i: nat)
    requires i < |u.log| && u.log[i].Some? && s.cursor == i && OpenGate(s.journal)
    requires var e := u.log[i].value; e.Upsert? ==> !IsLost(s.client, e.id, e.parent)
    ensures var t := u.pass(s, u.unused(s.client.tree, tries, i), u.timing(tries, i));
            Loop(u, s, tries, i) == if t.cursor <= i then Outcome(t, tries, false) else Loop(u, t, tries, i + 1)
  {
    OpenIsNotShut(s.journal);
  }

  lemma StoppedAgrees(u: Setup, t: Extension, w: View, tries: nat, i: nat)
    requires i < |u.log| && u.log[i].Some? && t.cursor == i && Picture(w, t.client, u.tail)
    ensures Agrees(u, Outcome(t, tries, false), None, if LastEvent(u.log, i) then Some(w) else None, i)
  {
  }

  lemma PausedAgrees(u: Setup, t: Extension, w: View, tries: nat, i: nat)
    requires i < |u.log| && t.cursor == i + 1 && t.journal.phase == J.Paused && Picture(w, t.client, u.tail)
    ensures var c := if LastEvent(u.log, i) then Some(w) else None; Agrees(u, Loop(u, t, tries, i + 1), c, c, i)
  {
    PausedLoop(u, t, tries, i + 1);
  }

  /** The loop, begun with a picture of any forest, does what the course from that forest says. */
  lemma {:induction false} LoopFollows(u: Setup, s: Extension, v: View, tries: nat, i: nat)
    requires Begun(u, s, v, tries, i)
    ensures Agrees(u, Loop(u, s, tries, i), Course(u, v, tries, false, i), Course(u, v, tries, true, i), i)
    decreases |u.log| - i, Left(tries)
  {
    if i < |u.log| {
      if u.log[i].None? {
        LoopFollows(u, s.(cursor := i + 1), v, tries, i + 1);
        AgreesBefore(u, Loop(u, s, tries, i), Course(u, v, tries, false, i), Course(u, v, tries, true, i + 1), i);
      } else if !Homeless(v, u.log[i].value) {
        HousedFollows(u, s, v, tries, i);
      } else if tries >= MAX_SILENT_RECOVERY_ATTEMPTS {
        PassedOver(u, s, v, tries, i);
        LoopFollows(u, s.(cursor := i + 1), v, tries, i + 1);
        AgreesBefore(u, Loop(u, s, tries, i), Course(u, v, tries, false, i), Course(u, v, tries, true, i + 1), i);
      } else {
        RecoveryBegins(u, s, v, tries, i);
        LoopFollows(u, Recovering(u, s, tries, i), u.sent, tries + 1, i);
        RecoveryEnds(u, s, v, tries, i, Course(u, u.sent, tries + 1, false, i), Course(u, u.sent, tries + 1, true, i));
      }
    }
  }

  lemma {:induction false} HousedFollows(u: Setup, s: Extension, v: View, tries: nat, i: nat)
    requires Begun(u, s, v, tries, i) && i < |u.log| && u.log[i].Some? && !Homeless(v, u.log[i].value)
    ensures Agrees(u, Loop(u, s, tries, i), Course(u, v, tries, false, i), Course(u, v, tries, true, i), i)
    decreases |u.log| - i, Left(tries), 0
  {
    var e, next, timing := u.log[i].value, u.unused(s.client.tree, tries, i), u.timing(tries, i);
    UnusedIsNew(u, s.client.tree, tries, i);
    if e.Upsert? { HousedIsNotLost(v, s.client, u.tail, e); }
    EnvelopePasses(u, s, tries, i);
    EventMet(u, s, v, i, next, timing);
    var t := u.pass(s, next, timing);
    if Stops(v, e, timing.prompt) {
      StoppedAgrees(u, t, Met(v, e), tries, i);
    } else if Pauses(v, e, timing.prompt) {
      PausedAgrees(u, t, Met(v, e), tries, i);
    } else {
      assert Begun(u, t, Met(v, e), tries, i + 1);
      LoopFollows(u, t, Met(v, e), tries, i + 1);
      AgreesBefore(u, Loop(u, s, tries, i), Course(u, v, tries, false, i), Course(u, Met(v, e), tries, true, i + 1), i);
    }
  }

  ghost predicate EndsInPicture(r: Option<Extension>, v: View, tail: seq<Id>) {
    r.Some? && Picture(v, r.value.client, tail)
  }

  /** The closing replay from any cursor, onto a picture of any forest, recoveries and all: it is given up where the
      course is, and otherwise ends in a picture of the forest the course ends with. */
  lemma ClosingFollowsCourse(u: Setup, s: Extension, v: View, tries: nat)
    requires Begun(u, s, v, tries, s.cursor)
    ensures var r, c := Closing(u, s, tries), Course(u, v, tries, false, s.cursor);
            (r.Some? <==> c.Some?) && (c.Some? ==> EndsInPicture(r, c.value, u.tail))
  {
    SkipsBehind(u, s, tries, 0);
    LoopFollows(u, s, v, tries, s.cursor);
  }

  // ---------- which forest it is ----------

  // Folders have lists, and every node is of the kind it has for good.
  ghost predicate OfKinds(v: View, folders: set<Id>) {
    Good(v) && FoldersHaveLists(v) && Kinded(v, folders)
  }

  lemma MetOfKinds(v: View, e: Event, folders: set<Id>)
    requires OfKinds(v, folders) && EntryKinded(Some(e), folders)
    ensures OfKinds(Met(v, e), folders)
  {
    if Met(v, e) != v {
      GoodParents(v);
      TakenIsGood(v, e);
      TakenKeepsLists(v, e);
      ForwardKinded(v, Some(e), folders);
    }
  }

  lemma {:induction false} CourseOfKinds(u: Setup, v: View, tries: nat, again: bool, i: nat, folders: set<Id>)
    requires i <= |u.log| && OfKinds(v, folders) && OfKinds(u.sent, folders) && forall k | 0 <= k < |u.log| :: EntryKinded(u.log[k], folders)
    ensures var c := Course(u, v, tries, again, i); c.Some? ==> OfKinds(c.value, folders)
    decreases |u.log| - i, Left(tries)
  {
    if i < |u.log| {
      if u.log[i].None? {
        CourseOfKinds(u, v, tries, false, i + 1, folders);
      } else if Homeless(v, u.log[i].value) {
        if tries >= MAX_SILENT_RECOVERY_ATTEMPTS {
          CourseOfKinds(u, v, tries, false, i + 1, folders);
        } else {
          CourseOfKinds(u, u.sent, tries + 1, true, i, folders);
        }
      } else {
        MetOfKinds(v, u.log[i].value, folders);
        CourseOfKinds(u, Met(v, u.log[i].value), tries, false, i + 1, folders);
      }
    }
  }

  /** And it ends in a picture of the forest asked for, as of the server's last one, if and only if the course ends
      with that forest. */
  lemma ClosesInIff(u: Setup, s: Extension, v: View, target: View, tries: nat, folders: set<Id>)
    requires Begun(u, s, v, tries, s.cursor) && OfKinds(v, folders) && OfKinds(u.sent, folders) && OfKinds(target, folders)
    requires forall k | 0 <= k < |u.log| :: EntryKinded(u.log[k], folders)
    ensures EndsInPicture(Closing(u, s, tries), target, u.tail) <==> Course(u, v, tries, false, s.cursor) == Some(target)
  {
    ClosingFollowsCourse(u, s, v, tries);
    CourseOfKinds(u, v, tries, false, s.cursor, folders);
    var r, c := Closing(u, s, tries), Course(u, v, tries, false, s.cursor);
    if c.Some? { PictureDecides(c.value, target, r.value.client, u.tail); }
  }

  /** An upsert whose parent is gone from the server as well is passed over: the recoveries it costs put the forest
      sent in place of the one it met, if there are any left, and no event has another after it. */
  lemma {:induction false} GoneForGoodIsPassedOver(u: Setup, v: View, tries: nat, again: bool, i: nat)
    requires i < |u.log| && u.log[i].Some? && Homeless(v, u.log[i].value) && Homeless(u.sent, u.log[i].value)
    ensures Course(u, v, tries, again, i) ==
            if tries >= 3 then Course(u, v, tries, false, i + 1) else Course(u, u.sent, 3, false, i + 1)
    decreases Left(tries)
  {
    if tries < MAX_SILENT_RECOVERY_ATTEMPTS {
      GoneForGoodIsPassedOver(u, u.sent, tries + 1, true, i);
    }
  }

  // The event concerns nothing the server still has.
  ghost predicate Bygone(sent: View, e: Event) {
    Homeless(sent, e) || Skipped(sent, e)
  }

  /** With only such events ahead of the cursor, as the renaming of a bookmark whose folder was removed afterwards,
      a rebuild ends with the forest it was built from. */
  lemma {:induction false} BygonesAreBygones(u: Setup, tries: nat, i: nat)
    requires i <= |u.log| && forall j | i <= j < |u.log| && u.log[j].Some? :: Bygone(u.sent, u.log[j].value)
    ensures Course(u, u.sent, tries, false, i) == Some(u.sent)
    decreases |u.log| - i
  {
    if i < |u.log| {
      BygonesAreBygones(u, tries, i + 1);
      if u.log[i].Some? && Homeless(u.sent, u.log[i].value) {
        GoneForGoodIsPassedOver(u, u.sent, tries, false, i);
        BygonesAreBygones(u, MAX_SILENT_RECOVERY_ATTEMPTS, i + 1);
      }
    }
  }

  // ---------- logs that tell the forests ----------

  ghost predicate ToldFrom(views: seq<View>, log: seq<Option<Event>>, i: nat) {
    |views| == |log| + 1 && forall j | i <= j < |log| :: ToldAt(views, log, j)
  }

  ghost predicate TwinlessAt(views: seq<View>, log: seq<Option<Event>>, n: nat) {
    n < |log| && n < |views| && (log[n].Some? && Applicable(views[n], log[n].value) ==> NoTwins(ApplyEvent(views[n], log[n].value)))
  }

  // No event gives a node a title that one of its siblings has.
  ghost predicate Twinless(views: seq<View>, log: seq<Option<Event>>, i: nat) {
    |views| == |log| + 1 && forall j | i <= j < |log| :: TwinlessAt(views, log, j)
  }

  // What must hold of one event for the closing replay to get past it with the picture intact.
  ghost predicate Passes(v: View, e: Event, prompt: bool, last: bool) {
    && !TooLarge(v, e)
    && (Changes(v, e) ==> prompt)
    && (MovesNode(v, e) && RetitlesNode(v, e) ==> last)
  }

  ghost predicate PassesAt(u: Setup, views: seq<View>, tries: nat, j: nat) {
    j < |u.log| && j < |views| && (u.log[j].Some? ==> Passes(views[j], u.log[j].value, u.timing(tries, j).prompt, LastEvent(u.log, j)))
  }

  ghost predicate AllPass(u: Setup, views: seq<View>, tries: nat, i: nat) {
    |views| == |u.log| + 1 && forall j | i <= j < |u.log| :: PassesAt(u, views, tries, j)
  }

  // With nothing but empty entries left the forest does not change.
  lemma {:induction false} NothingMore(views: seq<View>, log: seq<Option<Event>>, i: nat)
    requires ToldFrom(views, log, i) && i <= |log| && forall j | i <= j < |log| :: log[j].None?
    ensures views[|log|] == views[i]
    decreases |log| - i
  {
    if i < |log| {
      assert ToldAt(views, log, i);
      NothingMore(views, log, i + 1);
    }
  }

  // An event that was recorded for the forest it meets fits it.
  lemma ToldFits(v: View, e: Event, w: View)
    requires Good(v) && Good(w) && Leads(v, Some(e), w)
    ensures Takes(v, e) && !Homeless(v, e) && Forward(v, Some(e)) == w
  {
    GoodIs(v);
    GoodIs(w);
    if e.Upsert? && e.id in v.parent { MovingKeepsAcyclicIff(v.parent, e.id, e.parent); }
  }

  // The forest is the last one, or has a node the last one has not.
  ghost predicate OrMore(v: View, last: View) {
    v == last || exists id :: id in v.parent && id !in last.parent
  }

  ghost predicate TellsPasses(u: Setup, views: seq<View>, c: Option<View>, tries: nat, i: nat)
    requires |views| == |u.log| + 1
  {
    (c == Some(views[|u.log|]) <==> AllPass(u, views, tries, i)) && (c.Some? ==> OrMore(c.value, views[|u.log|]))
  }

  lemma {:induction false} ToldCourse(u: Setup, views: seq<View>, tries: nat, i: nat)
    requires i <= |u.log| && ToldFrom(views, u.log, i) && Twinless(views, u.log, i)
    ensures Untroubled(u, views[i], tries, i) && TellsPasses(u, views, Course(u, views[i], tries, false, i), tries, i)
    decreases |u.log| - i
  {
    if i < |u.log| {
      assert ToldAt(views, u.log, i) && TwinlessAt(views, u.log, i);
      ToldCourse(u, views, tries, i + 1);
      if u.log[i].None? {
        AllPassStep(u, views, tries, i);
      } else {
        var e, prompt := u.log[i].value, u.timing(tries, i).prompt;
        ToldFits(views[i], e, views[i + 1]);
        if Stops(views[i], e, prompt) {
          assert !PassesAt(u, views, tries, i);
        } else if Pauses(views[i], e, prompt) {
          ToldPause(u, views, tries, i);
        } else {
          AllPassStep(u, views, tries, i);
        }
      }
    }
  }

  lemma AllPassStep(u: Setup, views: seq<View>, tries: nat, i: nat)
    requires i < |u.log| && |views| == |u.log| + 1 && PassesAt(u, views, tries, i)
    ensures AllPass(u, views, tries, i) <==> AllPass(u, views, tries, i + 1)
  {
    if AllPass(u, views, tries, i + 1) {
      forall j | i <= j < |u.log| ensures PassesAt(u, views, tries, j) {
        assert j == i || i + 1 <= j;
      }
    }
  }

  lemma ToldPause(u: Setup, views: seq<View>, tries: nat, i: nat)
    requires i < |u.log| && ToldFrom(views, u.log, i) && u.log[i].Some? && Takes(views[i], u.log[i].value)
    requires Pauses(views[i], u.log[i].value, u.timing(tries, i).prompt)
    ensures TellsPasses(u, views, if LastEvent(u.log, i) then Some(Met(views[i], u.log[i].value)) else None, tries, i)
  {
    var e := u.log[i].value;
    assert ToldAt(views, u.log, i);
    assert PassesAt(u, views, tries, i) <==> LastEvent(u.log, i) && !TooLarge(views[i], e);
    if LastEvent(u.log, i) { NothingMore(views, u.log, i + 1); }
    if TooLarge(views[i], e) { RemovedIsGone(views[i], e.id); }
  }

  /** Onto the forest at the cursor, where no event makes twins: the closing replay ends in a picture of the last
      forest if and only if every event passes: no removal is too large, the callbacks of a change come in time, and
      only the last event may both move and retitle a node. */
  lemma ClosesIff(u: Setup, s: Extension, views: seq<View>, tries: nat)
    requires s.cursor <= |u.log| && Passing(u) && NewIds(u)
    requires ToldFrom(views, u.log, s.cursor) && Twinless(views, u.log, s.cursor) && Rests(s, views[s.cursor], u.tail, s.cursor)
    ensures EndsInPicture(Closing(u, s, tries), views[|u.log|], u.tail) <==> AllPass(u, views, tries, s.cursor)
  {
    ToldCourse(u, views, tries, s.cursor);
    ClosingFollowsCourse(u, s, views[s.cursor], tries);
    var r, c := Closing(u, s, tries), Course(u, views[s.cursor], tries, false, s.cursor);
    if c.Some? && c.value != views[|u.log|] {
      var id :| id in c.value.parent && id !in views[|u.log|].parent;
      OtherIsNoPicture(c.value, views[|u.log|], r.value.client, u.tail, id);
    }
  }

  // ---------- from the end, and from the beginning ----------

  ghost predicate Blank(v: View) {
    (forall x :: x !in v.parent && x !in v.caption) && (forall k :: k in v.kids <==> k == None) && v.kids[None] == []
  }

  // Sealed, as the pictures are.
  ghost predicate OpenedBlank(really: bool, v: View) {
    really ==> Blank(v)
  }

  ghost predicate Empty(v: View) {
    forall really: bool :: OpenedBlank(really, v)
  }

  lemma EmptyIs(v: View)
    ensures Empty(v) <==> Blank(v)
  {
    assert Empty(v) ==> OpenedBlank(true, v);
  }

  // A history from the empty forest in which ids are never used twice: what the n-th forest still has is not
  // removed before, and keeps its kind.
  ghost predicate History(views: seq<View>, log: seq<Option<Event>>, n: nat) {
    && Told(views, log) && n < |views| && Empty(views[0]) && FoldersHaveLists(views[n])
    && (forall i | 0 <= i < n :: Lasts(views[i], views[i + 1], views[n]))
  }

  ghost predicate Lasts(v: View, next: View, w: View) {
    SameKinds(next, w) && Outlives(v, next, w)
  }

  // The forests that replaying the log from its beginning onto the n-th forest goes through.
  ghost function Whole(views: seq<View>, n: nat): (r: seq<View>)
    requires n < |views|
    ensures |r| == |views|
  {
    seq(|views|, i requires 0 <= i < |views| => if i <= n then Overlaid(views[i], views[n]) else views[i])
  }

  lemma StartsWhole(v: View, w: View)
    requires Empty(v) && Good(w)
    ensures Overlaid(v, w) == w
  {
    EmptyIs(v);
    assert v.parent.Keys == {} && v.caption.Keys == {};
    GoodParents(w);
    OverNothing(v, w);
  }

  lemma HistoryEnds(views: seq<View>, log: seq<Option<Event>>, n: nat)
    requires History(views, log, n)
    ensures n < |views| == |log| + 1 && Empty(views[0]) && Good(views[n])
  {
  }

  lemma WholeLate(views: seq<View>, n: nat, i: nat)
    requires n <= i < |views| && Good(views[n])
    ensures Whole(views, n)[i] == views[i]
  {
    WholeAtTurn(views, n);
  }

  lemma WholeEnds(views: seq<View>, log: seq<Option<Event>>, n: nat)
    requires History(views, log, n)
    ensures var w := Whole(views, n); w[0] == views[n] && w[n] == views[n] && w[|log|] == views[|log|]
  {
    HistoryEnds(views, log, n);
    WholeAtStart(views, n);
    WholeLate(views, n, n);
    WholeLate(views, n, |log|);
  }

  lemma WholeAtStart(views: seq<View>, n: nat)
    requires n < |views| && Empty(views[0]) && Good(views[n])
    ensures Whole(views, n)[0] == views[n]
  {
    StartsWhole(views[0], views[n]);
    assert Whole(views, n)[0] == Overlaid(views[0], views[n]);
  }

  lemma WholeAtTurn(views: seq<View>, n: nat)
    requires n < |views| && Good(views[n])
    ensures Whole(views, n)[n] == views[n]
  {
    OverItself(views[n]);
    assert Whole(views, n)[n] == Overlaid(views[n], views[n]);
  }

  lemma OverLeads(v: View, entry: Option<Event>, next: View, w: View)
    requires Good(v) && Good(w) && FoldersHaveLists(w) && Leads(v, entry, next) && Lasts(v, next, w)
    ensures Leads(Overlaid(v, w), entry, Overlaid(next, w))
  {
    if entry.Some? { OverlayFollows(v, entry.value, next, w); }
  }

  lemma HistoryAt(views: seq<View>, log: seq<Option<Event>>, n: nat, i: nat)
    requires History(views, log, n) && i < |log|
    ensures Good(views[i]) && Good(views[n]) && FoldersHaveLists(views[n]) && Leads(views[i], log[i], views[i + 1]) && (i < n ==> Lasts(views[i], views[i + 1], views[n]))
  {
  }

  lemma WholeLeads(views: seq<View>, log: seq<Option<Event>>, n: nat, i: nat)
    requires History(views, log, n) && i < |log|
    ensures var w := Whole(views, n); Leads(w[i], log[i], w[i + 1])
  {
    var w := Whole(views, n);
    HistoryAt(views, log, n, i);
    if i < n {
      assert w[i] == Overlaid(views[i], views[n]) && w[i + 1] == Overlaid(views[i + 1], views[n]);
      OverLeads(views[i], log[i], views[i + 1], views[n]);
    } else {
      WholeLate(views, n, i);
      WholeLate(views, n, i + 1);
    }
  }

  lemma WholeGood(views: seq<View>, log: seq<Option<Event>>, n: nat, i: nat)
    requires History(views, log, n) && i < |views|
    ensures Good(Whole(views, n)[i])
  {
    if i <= n { OverlayIsGood(views[i], views[n]); }
  }

  lemma WholeIsTold(views: seq<View>, log: seq<Option<Event>>, n: nat)
    requires History(views, log, n)
    ensures ToldFrom(Whole(views, n), log, 0)
  {
    forall i | 0 <= i < |log| ensures ToldAt(Whole(views, n), log, i) {
      WholeLeads(views, log, n, i);
      WholeGood(views, log, n, i);
      WholeGood(views, log, n, i + 1);
    }
  }

  /** A rebuild with nothing behind the cursor: the whole history is replayed onto the tree built from its n-th
      forest, each event onto the forest of its time in front of what was still to come. Where no event makes
      twins there, the replay ends in a picture of the last forest if and only if every event passes. */
  lemma FullReplayClosesIff(u: Setup, s: Extension, views: seq<View>, n: nat, tries: nat)
    requires Passing(u) && NewIds(u) && History(views, u.log, n) && Twinless(Whole(views, n), u.log, 0) && Rests(s, views[n], u.tail, 0)
    ensures EndsInPicture(Closing(u, s, tries), views[|u.log|], u.tail) <==> AllPass(u, Whole(views, n), tries, 0)
  {
    WholeIsTold(views, u.log, n);
    WholeEnds(views, u.log, n);
    ClosesIff(u, s, Whole(views, n), tries);
  }

  /** A rebuild with only what came after its forest still ahead. */
  lemma LateReplayClosesIff(u: Setup, s: Extension, views: seq<View>, n: nat, tries: nat)
    requires Passing(u) && NewIds(u) && Told(views, u.log) && n < |views| && Twinless(views, u.log, n) && Rests(s, views[n], u.tail, n)
    ensures EndsInPicture(Closing(u, s, tries), views[|u.log|], u.tail) <==> AllPass(u, views, tries, n)
  {
    forall j | n <= j < |u.log| ensures ToldAt(views, u.log, j) {
      assert Leads(views[j], u.log[j], views[j + 1]);
    }
    ClosesIff(u, s, views, tries);
  }
}
