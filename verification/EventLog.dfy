/** The sync event log: every mutation takes the next cursor of its workspace inside its own transaction,
    and a request is known by its event id. Transactions interleave and may abort anywhere. */
module EventLog {
  import opened Common

  datatype Entity = Entity(kind: Id, id: Id)

  // Creations are looked up by workspace and event id, updates and deletes by event id and entity.
  datatype Request = Request(workspace: Id, eventId: Id, entity: Entity, creates: bool, payload: Id)

  datatype Entry = Entry(cursor: int, eventId: Id, entity: Entity, payload: Id)

  datatype Phase = Waiting | KeyLocked | Checked | Repeated(entry: Entry) | Recorded(entry: Entry)

  datatype Call = Call(request: Request, phase: Phase)

  datatype Outcome = Applied(entry: Entry) | Duplicate(entry: Entry) | Failed

  // log: committed rows of sync_events by workspace, in commit order. rowLocks: who holds the row lock on
  // a workspace's cursor. keyLocks: who holds an advisory lock.
  datatype System = System(cursors: map<Id, int>, log: map<Id, seq<Entry>>, keyLocks: map<Id, Id>, rowLocks: map<Id, Id>,
                           calls: map<Id, Call>, answers: seq<(Request, Outcome)>)

  datatype Step =
    | Begin(call: Id, request: Request)
    | LockKey(call: Id)
    | Check(call: Id)
    | Record(call: Id, applied: bool)
    | Commit(call: Id, heard: bool)
    | Abort(call: Id)

  function CursorOf(s: System, ws: Id): int {
    if ws in s.cursors then s.cursors[ws] else 0
  }

  function LogOf(s: System, ws: Id): seq<Entry> {
    if ws in s.log then s.log[ws] else []
  }

  ghost predicate Logged(entries: seq<Entry>, eventId: Id) {
    exists i :: 0 <= i < |entries| && entries[i].eventId == eventId
  }

  function Find(entries: seq<Entry>, eventId: Id, entity: Option<Entity>): (r: Option<Entry>)
    ensures r.Some? ==> r.value in entries && r.value.eventId == eventId && (entity.Some? ==> r.value.entity == entity.value)
    ensures r.None? ==> forall e | e in entries && e.eventId == eventId :: entity.Some? && e.entity != entity.value
  {
    if entries == [] then None
    else
      var last := entries[|entries| - 1];
      if last.eventId == eventId && (entity.None? || last.entity == entity.value) then Some(last)
      else
        assert entries == entries[..|entries| - 1] + [last];
        Find(entries[..|entries| - 1], eventId, entity)
  }

  // loadDuplicate*; an entity belongs to one workspace, so its events are all in that workspace's log.
  function FindDuplicate(s: System, r: Request): Option<Entry> {
    Find(LogOf(s, r.workspace), r.eventId, if r.creates then None else Some(r.entity))
  }

  function Ended(s: System, call: Id, outcome: Outcome): System
    requires call in s.calls
  {
    s.(keyLocks := map k | k in s.keyLocks && s.keyLocks[k] != call :: s.keyLocks[k],
       rowLocks := map k | k in s.rowLocks && s.rowLocks[k] != call :: s.rowLocks[k],
       calls := s.calls - {call},
       answers := s.answers + [(s.calls[call].request, outcome)])
  }

  function At(s: System, call: Id, phase: Phase): System
    requires call in s.calls
  {
    s.(calls := s.calls[call := s.calls[call].(phase := phase)])
  }

  // recordEvent: the cursor row is locked and incremented, and the row inserted under both unique keys.
  function Recording(s: System, call: Id, applied: bool): System
    requires call in s.calls
  {
    var r := s.calls[call].request;
    if !applied then Ended(s, call, Failed)
    else if r.workspace in s.rowLocks then s
    else if Find(LogOf(s, r.workspace), r.eventId, None).Some? then Ended(s, call, Failed)
    else
      var e := Entry(CursorOf(s, r.workspace) + 1, r.eventId, r.entity, r.payload);
      At(s, call, Recorded(e)).(rowLocks := s.rowLocks[r.workspace := call])
  }

  function Published(s: System, ws: Id, e: Entry): System {
    s.(cursors := s.cursors[ws := e.cursor], log := s.log[ws := LogOf(s, ws) + [e]])
  }

  function Next(s: System, lockOf: Request -> Id, step: Step): System {
    match step
    case Begin(call, r) => if call in s.calls then s else s.(calls := s.calls[call := Call(r, Waiting)])
    case LockKey(call) =>
      if call !in s.calls || s.calls[call].phase != Waiting || lockOf(s.calls[call].request) in s.keyLocks then s
      else At(s, call, KeyLocked).(keyLocks := s.keyLocks[lockOf(s.calls[call].request) := call])
    case Check(call) =>
      if call !in s.calls || s.calls[call].phase != KeyLocked then s
      else
        (match FindDuplicate(s, s.calls[call].request)
         case Some(e) => At(s, call, Repeated(e))
         case None => At(s, call, Checked))
    case Record(call, applied) => if call in s.calls && s.calls[call].phase == Checked then Recording(s, call, applied) else s
    case Commit(call, heard) =>
      if call !in s.calls then s
      else
        (match s.calls[call].phase
         case Repeated(e) => Ended(s, call, if heard then Duplicate(e) else Failed)
         case Recorded(e) => Ended(Published(s, s.calls[call].request.workspace, e), call, if heard then Applied(e) else Failed)
         case _ => s)
    case Abort(call) => if call in s.calls then Ended(s, call, Failed) else s
  }

  // ---------- the invariant ----------

  // The log holds cursors 1, 2, ... up to the workspace's cursor, each once and in order, and no event id
  // twice.
  ghost predicate GapFree(s: System) {
    forall ws: Id ::
      && |LogOf(s, ws)| == CursorOf(s, ws)
      && (forall i | 0 <= i < |LogOf(s, ws)| :: LogOf(s, ws)[i].cursor == i + 1)
      && (forall i, j | 0 <= i < j < |LogOf(s, ws)| :: LogOf(s, ws)[i].eventId != LogOf(s, ws)[j].eventId)
  }

  // A recorded but uncommitted event holds its workspace's row lock and the next cursor.
  ghost predicate RecordedIsNext(s: System) {
    forall c | c in s.calls && s.calls[c].phase.Recorded? ::
      var r, e := s.calls[c].request, s.calls[c].phase.entry;
      && r.workspace in s.rowLocks && s.rowLocks[r.workspace] == c
      && e.cursor == CursorOf(s, r.workspace) + 1 && e.eventId == r.eventId
      && !Logged(LogOf(s, r.workspace), r.eventId)
  }

  ghost predicate RepeatedIsLogged(s: System) {
    forall c | c in s.calls && s.calls[c].phase.Repeated? ::
      s.calls[c].phase.entry in LogOf(s, s.calls[c].request.workspace) && s.calls[c].phase.entry.eventId == s.calls[c].request.eventId
  }

  ghost predicate AnswersLogged(s: System) {
    forall a | a in s.answers && !a.1.Failed? :: a.1.entry in LogOf(s, a.0.workspace) && a.1.entry.eventId == a.0.eventId
  }

  ghost predicate Inv(s: System) {
    GapFree(s) && RecordedIsNext(s) && RepeatedIsLogged(s) && AnswersLogged(s)
  }

  lemma PublishedGapFree(s: System, ws: Id, e: Entry)
    requires GapFree(s) && e.cursor == CursorOf(s, ws) + 1 && !Logged(LogOf(s, ws), e.eventId)
    ensures GapFree(Published(s, ws, e))
  {
    var t := Published(s, ws, e);
    var before := LogOf(s, ws);
    assert LogOf(t, ws) == before + [e];
    forall i | 0 <= i < |before| ensures before[i].eventId != e.eventId {
    }
    forall w: Id | w != ws ensures LogOf(t, w) == LogOf(s, w) && CursorOf(t, w) == CursorOf(s, w) {
    }
  }

  lemma EndedKeepsInv(s: System, call: Id, outcome: Outcome)
    requires GapFree(s) && RepeatedIsLogged(s) && AnswersLogged(s) && call in s.calls
    requires forall c | c in s.calls && c != call && s.calls[c].phase.Recorded? ::
               var r, e := s.calls[c].request, s.calls[c].phase.entry;
               && r.workspace in s.rowLocks && s.rowLocks[r.workspace] == c
               && e.cursor == CursorOf(s, r.workspace) + 1 && e.eventId == r.eventId && !Logged(LogOf(s, r.workspace), r.eventId)
    requires !outcome.Failed? ==> outcome.entry in LogOf(s, s.calls[call].request.workspace) && outcome.entry.eventId == s.calls[call].request.eventId
    ensures Inv(Ended(s, call, outcome))
  {
    var t := Ended(s, call, outcome);
    forall ws: Id ensures LogOf(t, ws) == LogOf(s, ws) && CursorOf(t, ws) == CursorOf(s, ws) {
    }
    forall a | a in t.answers ensures a in s.answers || a == (s.calls[call].request, outcome) {
    }
  }

  lemma AdvanceKeepsInv(s: System, call: Id, phase: Phase, keyLocks: map<Id, Id>)
    requires Inv(s) && call in s.calls && !phase.Recorded?
    requires phase.Repeated? ==> phase.entry in LogOf(s, s.calls[call].request.workspace) && phase.entry.eventId == s.calls[call].request.eventId
    ensures Inv(At(s, call, phase).(keyLocks := keyLocks))
  {
    var t := At(s, call, phase).(keyLocks := keyLocks);
    forall ws: Id ensures LogOf(t, ws) == LogOf(s, ws) && CursorOf(t, ws) == CursorOf(s, ws) {
    }
  }

  lemma RecordKeepsInv(s: System, call: Id, applied: bool)
    requires Inv(s) && call in s.calls && s.calls[call].phase == Checked
    ensures Inv(Recording(s, call, applied))
  {
    var r := s.calls[call].request;
    if !applied || (r.workspace !in s.rowLocks && Find(LogOf(s, r.workspace), r.eventId, None).Some?) {
      EndedKeepsInv(s, call, Failed);
    } else if r.workspace !in s.rowLocks {
      var t := Recording(s, call, applied);
      forall ws: Id ensures LogOf(t, ws) == LogOf(s, ws) && CursorOf(t, ws) == CursorOf(s, ws) {
      }
    }
  }

  lemma CommitKeepsInv(s: System, lockOf: Request -> Id, call: Id, heard: bool)
    requires Inv(s) && call in s.calls
    ensures Inv(Next(s, lockOf, Commit(call, heard)))
  {
    if s.calls[call].phase.Repeated? {
      EndedKeepsInv(s, call, if heard then Duplicate(s.calls[call].phase.entry) else Failed);
    } else if s.calls[call].phase.Recorded? {
      var ws, e := s.calls[call].request.workspace, s.calls[call].phase.entry;
      PublishedGapFree(s, ws, e);
      EndedKeepsInv(Published(s, ws, e), call, if heard then Applied(e) else Failed);
    }
  }

  lemma StepKeepsInv(s: System, lockOf: Request -> Id, step: Step)
    requires Inv(s)
    ensures Inv(Next(s, lockOf, step))
  {
    match step
    case Begin(call, r) =>
      if call !in s.calls {
        var t := s.(calls := s.calls[call := Call(r, Waiting)]);
        forall ws: Id ensures LogOf(t, ws) == LogOf(s, ws) && CursorOf(t, ws) == CursorOf(s, ws) {
        }
      }
    case LockKey(call) =>
      if call in s.calls && s.calls[call].phase == Waiting {
        AdvanceKeepsInv(s, call, KeyLocked, s.keyLocks[lockOf(s.calls[call].request) := call]);
      }
    case Check(call) =>
      if call in s.calls && s.calls[call].phase == KeyLocked {
        var found := FindDuplicate(s, s.calls[call].request);
        AdvanceKeepsInv(s, call, if found.Some? then Repeated(found.value) else Checked, s.keyLocks);
      }
    case Record(call, applied) => if call in s.calls && s.calls[call].phase == Checked { RecordKeepsInv(s, call, applied); }
    case Commit(call, heard) => if call in s.calls { CommitKeepsInv(s, lockOf, call, heard); }
    case Abort(call) => if call in s.calls { EndedKeepsInv(s, call, Failed); }
  }

  function RunOf(s: System, lockOf: Request -> Id, steps: seq<Step>): System {
    if steps == [] then s else Next(RunOf(s, lockOf, steps[..|steps| - 1]), lockOf, steps[|steps| - 1])
  }

  function Empty(): System {
    System(map[], map[], map[], map[], map[], [])
  }

  /** However the transactions interleave and abort, every workspace's committed log holds cursors
      1..current exactly once and no event id twice. */
  lemma {:induction false} EveryRunKeepsInv(lockOf: Request -> Id, steps: seq<Step>)
    ensures Inv(RunOf(Empty(), lockOf, steps))
  {
    if steps == [] {
      forall ws: Id ensures LogOf(Empty(), ws) == [] && CursorOf(Empty(), ws) == 0 {
      }
    } else {
      EveryRunKeepsInv(lockOf, steps[..|steps| - 1]);
      StepKeepsInv(RunOf(Empty(), lockOf, steps[..|steps| - 1]), lockOf, steps[|steps| - 1]);
    }
  }

  // ---------- repeats ----------

  // A step changes a workspace's log only by appending one event, and only one whose id is new there.
  lemma LogGrowsByNewIds(s: System, lockOf: Request -> Id, step: Step, ws: Id)
    requires Inv(s)
    ensures var before, after := LogOf(s, ws), LogOf(Next(s, lockOf, step), ws);
            after == before || (|after| == |before| + 1 && after[..|before|] == before && !Logged(before, after[|before|].eventId))
  {
  }

  /** Resending: no step of a call whose event id its workspace has already logged changes any log or
      cursor. */
  lemma ResendChangesNothing(s: System, lockOf: Request -> Id, step: Step)
    requires Inv(s) && !step.Begin? && step.call in s.calls
    requires Logged(LogOf(s, s.calls[step.call].request.workspace), s.calls[step.call].request.eventId)
    ensures var t := Next(s, lockOf, step); t.log == s.log && t.cursors == s.cursors
  {
  }

  // And when the resent request is the logged one, its check finds the logged event itself.
  lemma ResendIsAnsweredByItsEvent(s: System, lockOf: Request -> Id, call: Id, i: nat)
    requires Inv(s) && call in s.calls && s.calls[call].phase == KeyLocked
    requires var r := s.calls[call].request;
             i < |LogOf(s, r.workspace)| && LogOf(s, r.workspace)[i].eventId == r.eventId && (r.creates || LogOf(s, r.workspace)[i].entity == r.entity)
    ensures Next(s, lockOf, Check(call)) == At(s, call, Repeated(LogOf(s, s.calls[call].request.workspace)[i]))
  {
    var r := s.calls[call].request;
    var entries := LogOf(s, r.workspace);
    var found := FindDuplicate(s, r);
    assert entries[i] in entries;
    var j :| 0 <= j < |entries| && entries[j] == found.value;
    assert GapFree(s);
  }

  // A check finds exactly a logged event of the request's own id, about the request's own entity unless that is
  // still to be created.
  lemma CheckFindsIff(s: System, lockOf: Request -> Id, call: Id)
    requires call in s.calls && s.calls[call].phase == KeyLocked
    ensures var r, t := s.calls[call].request, Next(s, lockOf, Check(call));
            && call in t.calls && t.log == s.log && t.cursors == s.cursors && t.answers == s.answers
            && (t.calls[call].phase.Repeated? || t.calls[call].phase == Checked)
            && (t.calls[call].phase == Checked <==>
                  forall e | e in LogOf(s, r.workspace) && e.eventId == r.eventId :: !r.creates && e.entity != r.entity)
            && (t.calls[call].phase.Repeated? ==>
                  var e := t.calls[call].phase.entry; e in LogOf(s, r.workspace) && e.eventId == r.eventId && (r.creates || e.entity == r.entity))
  {
  }

  // An event id that was used for something else is refused by the unique key.
  lemma RecordIsRefusedIff(s: System, lockOf: Request -> Id, call: Id)
    requires call in s.calls && s.calls[call].phase == Checked && s.calls[call].request.workspace !in s.rowLocks
    ensures var r, t := s.calls[call].request, Next(s, lockOf, Record(call, true));
            && (call !in t.calls <==> Logged(LogOf(s, r.workspace), r.eventId))
            && (call !in t.calls ==> t.answers == s.answers + [(r, Failed)] && t.log == s.log && t.cursors == s.cursors)
  {
    var r := s.calls[call].request;
    var found := Find(LogOf(s, r.workspace), r.eventId, None);
    if found.Some? {
      var i :| 0 <= i < |LogOf(s, r.workspace)| && LogOf(s, r.workspace)[i] == found.value;
    }
  }

  // ---------- the locks ----------

  // Whoever is past its lock step holds its key's lock, and only such calls hold one; the row lock of a
  // workspace is held by a call of that workspace that has recorded its event.
  ghost predicate LocksHeld(s: System, lockOf: Request -> Id) {
    KeyLocksHeld(s, lockOf) && RowLocksHeld(s)
  }

  ghost predicate KeyLocksHeld(s: System, lockOf: Request -> Id) {
    && (forall c | c in s.calls && s.calls[c].phase != Waiting ::
          lockOf(s.calls[c].request) in s.keyLocks && s.keyLocks[lockOf(s.calls[c].request)] == c)
    && (forall k | k in s.keyLocks ::
          s.keyLocks[k] in s.calls && s.calls[s.keyLocks[k]].phase != Waiting && lockOf(s.calls[s.keyLocks[k]].request) == k)
  }

  ghost predicate RowLocksHeld(s: System) {
    && (forall c | c in s.calls && s.calls[c].phase.Recorded? ::
          s.calls[c].request.workspace in s.rowLocks && s.rowLocks[s.calls[c].request.workspace] == c)
    && (forall w | w in s.rowLocks ::
          s.rowLocks[w] in s.calls && s.calls[s.rowLocks[w]].phase.Recorded? && s.calls[s.rowLocks[w]].request.workspace == w)
  }

  lemma EndedKeepsLocks(s: System, lockOf: Request -> Id, call: Id, outcome: Outcome)
    requires LocksHeld(s, lockOf) && call in s.calls
    ensures LocksHeld(Ended(s, call, outcome), lockOf)
  {
  }

  lemma LockKeepsLocks(s: System, lockOf: Request -> Id, call: Id)
    requires LocksHeld(s, lockOf)
    ensures LocksHeld(Next(s, lockOf, LockKey(call)), lockOf)
  {
  }

  lemma CheckKeepsLocks(s: System, lockOf: Request -> Id, call: Id)
    requires LocksHeld(s, lockOf)
    ensures LocksHeld(Next(s, lockOf, Check(call)), lockOf)
  {
  }

  lemma RecordKeepsLocks(s: System, lockOf: Request -> Id, call: Id, applied: bool)
    requires LocksHeld(s, lockOf) && call in s.calls && s.calls[call].phase == Checked
    ensures LocksHeld(Recording(s, call, applied), lockOf)
  {
    var r := s.calls[call].request;
    if !applied || (r.workspace !in s.rowLocks && Find(LogOf(s, r.workspace), r.eventId, None).Some?) {
      EndedKeepsLocks(s, lockOf, call, Failed);
    }
  }

  lemma CommitKeepsLocks(s: System, lockOf: Request -> Id, call: Id, heard: bool)
    requires LocksHeld(s, lockOf) && call in s.calls
    ensures LocksHeld(Next(s, lockOf, Commit(call, heard)), lockOf)
  {
    match s.calls[call].phase
    case Repeated(e) => EndedKeepsLocks(s, lockOf, call, if heard then Duplicate(e) else Failed);
    case Recorded(e) =>
      assert LocksHeld(Published(s, s.calls[call].request.workspace, e), lockOf);
      EndedKeepsLocks(Published(s, s.calls[call].request.workspace, e), lockOf, call, if heard then Applied(e) else Failed);
    case _ =>
  }

  lemma StepKeepsLocks(s: System, lockOf: Request -> Id, step: Step)
    requires LocksHeld(s, lockOf)
    ensures LocksHeld(Next(s, lockOf, step), lockOf)
  {
    match step
    case Begin(call, r) =>
    case LockKey(call) => LockKeepsLocks(s, lockOf, call);
    case Check(call) => CheckKeepsLocks(s, lockOf, call);
    case Record(call, applied) => if call in s.calls && s.calls[call].phase == Checked { RecordKeepsLocks(s, lockOf, call, applied); }
    case Commit(call, heard) => if call in s.calls { CommitKeepsLocks(s, lockOf, call, heard); }
    case Abort(call) => if call in s.calls { EndedKeepsLocks(s, lockOf, call, Failed); }
  }

  /** In every run a lock is held by a call in progress that asked for it: two calls with one lock key are never
      past their lock step together, and when every transaction has ended no lock is left. */
  lemma {:induction false} EveryRunHoldsLocks(lockOf: Request -> Id, steps: seq<Step>)
    ensures LocksHeld(RunOf(Empty(), lockOf, steps), lockOf)
    ensures var s := RunOf(Empty(), lockOf, steps);
            && (forall c, d | c in s.calls && d in s.calls && s.calls[c].phase != Waiting && s.calls[d].phase != Waiting ::
                  lockOf(s.calls[c].request) == lockOf(s.calls[d].request) ==> c == d)
            && (s.calls.Keys == {} ==> s.keyLocks.Keys == {} && s.rowLocks.Keys == {})
  {
    if steps != [] {
      EveryRunHoldsLocks(lockOf, steps[..|steps| - 1]);
      StepKeepsLocks(RunOf(Empty(), lockOf, steps[..|steps| - 1]), lockOf, steps[|steps| - 1]);
    }
  }

  // A call takes its lock exactly when nobody holds it.
  lemma LockIsTakenIff(s: System, lockOf: Request -> Id, call: Id)
    requires call in s.calls && s.calls[call].phase == Waiting
    ensures var r, t := s.calls[call].request, Next(s, lockOf, LockKey(call));
            && call in t.calls && t.calls[call].request == r
            && (t.calls[call].phase == KeyLocked <==> lockOf(r) !in s.keyLocks)
            && (lockOf(r) in s.keyLocks ==> t == s)
  {
  }

  // One operation for each event id: requests of one workspace with one event id are of one kind, about one
  // entity unless it is still to be created, and ask for one lock.
  ghost predicate OneUse(used: set<Request>, lockOf: Request -> Id) {
    forall p, q | p in used && q in used && p.workspace == q.workspace && p.eventId == q.eventId ::
      p.creates == q.creates && (p.creates || p.entity == q.entity) && lockOf(p) == lockOf(q)
  }

  ghost predicate Stems(e: Entry, ws: Id, used: set<Request>) {
    exists r :: r in used && r.workspace == ws && r.eventId == e.eventId && r.entity == e.entity
  }

  // Calls, recorded events and logged events are those of the given requests, and nobody past its check finds its
  // event id logged.
  ghost predicate Undisturbed(s: System, used: set<Request>) {
    && (forall c | c in s.calls :: s.calls[c].request in used)
    && (forall c | c in s.calls && s.calls[c].phase.Recorded? ::
          s.calls[c].phase.entry.eventId == s.calls[c].request.eventId && s.calls[c].phase.entry.entity == s.calls[c].request.entity)
    && (forall ws: Id, e | e in LogOf(s, ws) :: Stems(e, ws, used))
    && (forall c | c in s.calls && (s.calls[c].phase == Checked || s.calls[c].phase.Recorded?) ::
          !Logged(LogOf(s, s.calls[c].request.workspace), s.calls[c].request.eventId))
  }

  lemma CheckKeepsUndisturbed(s: System, lockOf: Request -> Id, used: set<Request>, call: Id)
    requires OneUse(used, lockOf) && Undisturbed(s, used)
    ensures Undisturbed(Next(s, lockOf, Check(call)), used)
  {
    if call in s.calls && s.calls[call].phase == KeyLocked {
      var r, t := s.calls[call].request, Next(s, lockOf, Check(call));
      forall ws: Id ensures LogOf(t, ws) == LogOf(s, ws) {
      }
      if FindDuplicate(s, r).None? { NothingFoundNothingLogged(s, lockOf, used, r); }
    }
  }

  lemma NothingFoundNothingLogged(s: System, lockOf: Request -> Id, used: set<Request>, r: Request)
    requires OneUse(used, lockOf) && r in used && FindDuplicate(s, r).None?
    requires forall e | e in LogOf(s, r.workspace) :: Stems(e, r.workspace, used)
    ensures !Logged(LogOf(s, r.workspace), r.eventId)
  {
    var entries := LogOf(s, r.workspace);
    forall i | 0 <= i < |entries| ensures entries[i].eventId != r.eventId {
      assert entries[i] in entries;
    }
  }

  lemma StillUnlogged(before: seq<Entry>, e: Entry, eventId: Id)
    requires !Logged(before, eventId) && e.eventId != eventId
    ensures !Logged(before + [e], eventId)
  {
    forall i | 0 <= i < |before + [e]| ensures (before + [e])[i].eventId != eventId {
      assert i < |before| ==> (before + [e])[i] == before[i];
    }
  }

  // Two calls past their lock step in one workspace have different event ids.
  lemma OthersDiffer(s: System, lockOf: Request -> Id, used: set<Request>, c: Id, d: Id)
    requires LocksHeld(s, lockOf) && OneUse(used, lockOf) && c in s.calls && d in s.calls && c != d
    requires s.calls[c].request in used && s.calls[d].request in used && s.calls[c].request.workspace == s.calls[d].request.workspace
    requires s.calls[c].phase != Waiting && s.calls[d].phase != Waiting
    ensures s.calls[c].request.eventId != s.calls[d].request.eventId
  {
  }

  lemma CommitKeepsUndisturbed(s: System, lockOf: Request -> Id, used: set<Request>, call: Id, heard: bool)
    requires LocksHeld(s, lockOf) && OneUse(used, lockOf) && Undisturbed(s, used)
    ensures Undisturbed(Next(s, lockOf, Commit(call, heard)), used)
  {
    if call in s.calls && s.calls[call].phase.Recorded? {
      var r, e, t := s.calls[call].request, s.calls[call].phase.entry, Next(s, lockOf, Commit(call, heard));
      var before := LogOf(s, r.workspace);
      assert LogOf(t, r.workspace) == before + [e];
      assert Stems(e, r.workspace, used);
      forall ws: Id, x | x in LogOf(t, ws) ensures Stems(x, ws, used) {
        assert ws != r.workspace ==> LogOf(t, ws) == LogOf(s, ws);
      }
      forall c | c in t.calls && (t.calls[c].phase == Checked || t.calls[c].phase.Recorded?)
        ensures !Logged(LogOf(t, t.calls[c].request.workspace), t.calls[c].request.eventId)
      {
        if s.calls[c].request.workspace == r.workspace {
          OthersDiffer(s, lockOf, used, c, call);
          StillUnlogged(before, e, s.calls[c].request.eventId);
        } else {
          assert LogOf(t, s.calls[c].request.workspace) == LogOf(s, s.calls[c].request.workspace);
        }
      }
    } else {
      forall ws: Id ensures LogOf(Next(s, lockOf, Commit(call, heard)), ws) == LogOf(s, ws) {
      }
    }
  }

  lemma RecordKeepsUndisturbed(s: System, lockOf: Request -> Id, used: set<Request>, call: Id, applied: bool)
    requires Undisturbed(s, used)
    ensures Undisturbed(Next(s, lockOf, Record(call, applied)), used)
  {
    forall ws: Id ensures LogOf(Next(s, lockOf, Record(call, applied)), ws) == LogOf(s, ws) {
    }
  }

  lemma OtherKeepsUndisturbed(s: System, lockOf: Request -> Id, used: set<Request>, step: Step)
    requires Undisturbed(s, used) && (step.Begin? || step.LockKey? || step.Abort?) && (step.Begin? ==> step.request in used)
    ensures Undisturbed(Next(s, lockOf, step), used)
  {
    forall ws: Id ensures LogOf(Next(s, lockOf, step), ws) == LogOf(s, ws) {
    }
  }

  lemma StepKeepsUndisturbed(s: System, lockOf: Request -> Id, used: set<Request>, step: Step)
    requires LocksHeld(s, lockOf) && OneUse(used, lockOf) && Undisturbed(s, used)
    requires step.Begin? ==> step.request in used
    ensures Undisturbed(Next(s, lockOf, step), used)
  {
    match step
    case Check(call) => CheckKeepsUndisturbed(s, lockOf, used, call);
    case Commit(call, heard) => CommitKeepsUndisturbed(s, lockOf, used, call, heard);
    case Record(call, applied) => RecordKeepsUndisturbed(s, lockOf, used, call, applied);
    case _ => OtherKeepsUndisturbed(s, lockOf, used, step);
  }

  lemma {:induction false} EveryRunIsUndisturbed(lockOf: Request -> Id, used: set<Request>, steps: seq<Step>)
    requires OneUse(used, lockOf) && forall step | step in steps && step.Begin? :: step.request in used
    ensures Undisturbed(RunOf(Empty(), lockOf, steps), used)
  {
    if steps == [] {
      forall ws: Id ensures LogOf(Empty(), ws) == [] {
      }
    } else {
      EveryRunIsUndisturbed(lockOf, used, steps[..|steps| - 1]);
      EveryRunHoldsLocks(lockOf, steps[..|steps| - 1]);
      StepKeepsUndisturbed(RunOf(Empty(), lockOf, steps[..|steps| - 1]), lockOf, used, steps[|steps| - 1]);
    }
  }

  /** As long as an event id is used for one operation, resending it at any moment and as often as wanted never runs
      into the unique key: in every run a call past its check whose mutation succeeds records its event under the
      next cursor as soon as the workspace's row lock is free. */
  lemma RepeatsNeverCollide(lockOf: Request -> Id, used: set<Request>, steps: seq<Step>, call: Id)
    requires OneUse(used, lockOf) && forall step | step in steps && step.Begin? :: step.request in used
    requires var s := RunOf(Empty(), lockOf, steps);
             call in s.calls && s.calls[call].phase == Checked && s.calls[call].request.workspace !in s.rowLocks
    ensures var s := RunOf(Empty(), lockOf, steps);
            var r, t := s.calls[call].request, Next(s, lockOf, Record(call, true));
            && call in t.calls && t.calls[call] == Call(r, Recorded(Entry(CursorOf(s, r.workspace) + 1, r.eventId, r.entity, r.payload)))
            && t.answers == s.answers && t.log == s.log && t.cursors == s.cursors
  {
    EveryRunIsUndisturbed(lockOf, used, steps);
  }

  // What a commit does: the recorded event is logged under its cursor and the call is told its event.
  lemma CommitIsTold(s: System, lockOf: Request -> Id, call: Id, heard: bool)
    requires call in s.calls && (s.calls[call].phase.Recorded? || s.calls[call].phase.Repeated?)
    ensures var ws, e, t := s.calls[call].request.workspace, s.calls[call].phase.entry, Next(s, lockOf, Commit(call, heard));
            && call !in t.calls
            && t.answers == s.answers + [(s.calls[call].request, if !heard then Failed else if s.calls[call].phase.Recorded? then Applied(e) else Duplicate(e))]
            && (s.calls[call].phase.Recorded? ==> LogOf(t, ws) == LogOf(s, ws) + [e] && CursorOf(t, ws) == e.cursor)
            && (s.calls[call].phase.Repeated? ==> t.log == s.log && t.cursors == s.cursors)
  {
  }

  // What an aborted or failed transaction leaves: nothing.
  lemma AbortLeavesNothing(s: System, lockOf: Request -> Id, call: Id)
    requires call in s.calls
    ensures var t := Next(s, lockOf, Abort(call));
            call !in t.calls && t.log == s.log && t.cursors == s.cursors && t.answers == s.answers + [(s.calls[call].request, Failed)]
    ensures s.calls[call].phase == Checked ==> Next(s, lockOf, Record(call, false)) == Next(s, lockOf, Abort(call))
  {
  }

  // ---------- reading the log back ----------

  method EnsureContiguous(afterCursor: int, currentCursor: int, events: seq<Entry>) returns (ok: bool)
    ensures ok <==> afterCursor >= currentCursor
                    || (|events| == currentCursor - afterCursor && forall i | 0 <= i < |events| :: events[i].cursor == afterCursor + 1 + i)
  {
    if afterCursor >= currentCursor { return true; }
    if |events| == 0 { return false; }
    var expected := afterCursor + 1;
    for k := 0 to |events|
      invariant expected == afterCursor + 1 + k
      invariant forall i | 0 <= i < k :: events[i].cursor == afterCursor + 1 + i
    {
      if events[k].cursor != expected { return false; }
      expected := expected + 1;
    }
    return expected - 1 == currentCursor;
  }

  // SELECT ... WHERE cursor > after ORDER BY cursor.
  function Later(entries: seq<Entry>, after: int): seq<Entry> {
    if entries == [] then []
    else
      var last := entries[|entries| - 1];
      Later(entries[..|entries| - 1], after) + (if last.cursor > after then [last] else [])
  }

  lemma {:induction false} NothingLater(entries: seq<Entry>, after: int)
    requires forall i | 0 <= i < |entries| :: entries[i].cursor <= after
    ensures Later(entries, after) == []
  {
    if entries != [] {
      NothingLater(entries[..|entries| - 1], after);
    }
  }

  lemma {:induction false} LaterIsSuffix(entries: seq<Entry>, after: nat)
    requires forall i | 0 <= i < |entries| :: entries[i].cursor == i + 1
    ensures Later(entries, after) == if after <= |entries| then entries[after..] else []
  {
    if after >= |entries| {
      NothingLater(entries, after);
    } else {
      var n := |entries| - 1;
      LaterIsSuffix(entries[..n], after);
      assert entries[after..] == entries[..n][after..] + [entries[n]];
    }
  }

  // ReplayEvents reads the cursor first and the events afterwards.
  method ReplayEvents(currentCursor: int, entries: seq<Entry>, afterCursor: int) returns (ok: bool, events: seq<Entry>)
    ensures events == Later(entries, afterCursor)
    ensures ok <==> afterCursor >= currentCursor
                    || (|events| == currentCursor - afterCursor && forall i | 0 <= i < |events| :: events[i].cursor == afterCursor + 1 + i)
  {
    events := Later(entries, afterCursor);
    ok := EnsureContiguous(afterCursor, currentCursor, events);
  }

  // The failing input: one transaction commits between the two reads of a replay.
  lemma CommitInBetweenIsRefused(s: System, ws: Id, e: Entry, from: nat)
    requires GapFree(s) && from < CursorOf(s, ws) && e.cursor == CursorOf(s, ws) + 1 && !Logged(LogOf(s, ws), e.eventId)
    ensures GapFree(Published(s, ws, e))
    ensures |Later(LogOf(Published(s, ws, e), ws), from)| != CursorOf(s, ws) - from
  {
    var t := Published(s, ws, e);
    PublishedGapFree(s, ws, e);
    assert |LogOf(t, ws)| == CursorOf(t, ws) == CursorOf(s, ws) + 1;
    LaterIsSuffix(LogOf(t, ws), from);
  }

  // What a replay accepts: for a client at some earlier cursor the reply passes exactly when nothing was
  // committed between the two reads, and then it is exactly the missing slice.
  lemma ReplayAcceptsIff(before: System, after: System, ws: Id, from: nat)
    requires GapFree(before) && GapFree(after) && LogOf(before, ws) <= LogOf(after, ws)
    requires from < CursorOf(before, ws)
    ensures var current, events := CursorOf(before, ws), Later(LogOf(after, ws), from);
            var accepted := |events| == current - from && forall i | 0 <= i < |events| :: events[i].cursor == from + 1 + i;
            && (accepted <==> CursorOf(after, ws) == current)
            && (accepted ==> events == LogOf(before, ws)[from..])
  {
    LaterIsSuffix(LogOf(after, ws), from);
  }

  // ---------- one mutation, uninterrupted ----------

  datatype CommitFate = Heard | Unheard | RolledBack

  function Uninterrupted(s: System, lockOf: Request -> Id, call: Id, r: Request, applied: bool, fate: CommitFate): System {
    var s1 := Next(s, lockOf, Begin(call, r));
    var s2 := Next(s1, lockOf, LockKey(call));
    var s3 := Next(s2, lockOf, Check(call));
    var s4 := Next(s3, lockOf, Record(call, applied));
    Next(s4, lockOf, if fate == RolledBack then Abort(call) else Commit(call, fate == Heard))
  }

  // It is a run of the machine.
  lemma UninterruptedIsRun(lockOf: Request -> Id, call: Id, r: Request, applied: bool, fate: CommitFate)
    ensures Uninterrupted(Empty(), lockOf, call, r, applied, fate)
            == RunOf(Empty(), lockOf, [Begin(call, r), LockKey(call), Check(call), Record(call, applied), if fate == RolledBack then Abort(call) else Commit(call, fate == Heard)])
  {
    var steps := [Begin(call, r), LockKey(call), Check(call), Record(call, applied), if fate == RolledBack then Abort(call) else Commit(call, fate == Heard)];
    assert steps[..4][..3] == steps[..3] && steps[..3][..2] == steps[..2] && steps[..2][..1] == steps[..1] && steps[..1][..0] == [];
    assert RunOf(Empty(), lockOf, steps[..1]) == Next(RunOf(Empty(), lockOf, steps[..1][..0]), lockOf, steps[0]);
    assert RunOf(Empty(), lockOf, steps[..2]) == Next(RunOf(Empty(), lockOf, steps[..1]), lockOf, steps[1]);
    assert RunOf(Empty(), lockOf, steps[..3]) == Next(RunOf(Empty(), lockOf, steps[..2]), lockOf, steps[2]);
    assert RunOf(Empty(), lockOf, steps[..4]) == Next(RunOf(Empty(), lockOf, steps[..3]), lockOf, steps[3]);
  }

  lemma UninterruptedFailure(s: System, lockOf: Request -> Id, call: Id, r: Request, applied: bool, fate: CommitFate)
    requires call !in s.calls && s.keyLocks == map[] && s.rowLocks == map[] && FindDuplicate(s, r).None?
    requires !applied || Find(LogOf(s, r.workspace), r.eventId, None).Some?
    ensures var t := Uninterrupted(s, lockOf, call, r, applied, fate);
            t.log == s.log && t.cursors == s.cursors && t.answers == s.answers + [(r, Failed)]
  {
  }

  lemma UninterruptedDuplicate(s: System, lockOf: Request -> Id, call: Id, r: Request, applied: bool, fate: CommitFate)
    requires call !in s.calls && s.keyLocks == map[] && FindDuplicate(s, r).Some?
    ensures var t := Uninterrupted(s, lockOf, call, r, applied, fate);
            t.log == s.log && t.cursors == s.cursors && t.answers == s.answers + [(r, if fate == Heard then Duplicate(FindDuplicate(s, r).value) else Failed)]
  {
  }

  lemma CheckedWithoutDuplicate(s: System, lockOf: Request -> Id, call: Id, r: Request)
    requires call !in s.calls && s.keyLocks == map[] && FindDuplicate(s, r).None?
    ensures Next(Next(Next(s, lockOf, Begin(call, r)), lockOf, LockKey(call)), lockOf, Check(call))
            == s.(calls := s.calls[call := Call(r, Checked)], keyLocks := s.keyLocks[lockOf(r) := call])
  {
    assert s.calls[call := Call(r, Waiting)][call := Call(r, KeyLocked)][call := Call(r, Checked)] == s.calls[call := Call(r, Checked)];
  }

  lemma RecordThenEnd(s: System, lockOf: Request -> Id, call: Id, r: Request, fate: CommitFate)
    requires call in s.calls && s.calls[call] == Call(r, Checked) && r.workspace !in s.rowLocks
    requires Find(LogOf(s, r.workspace), r.eventId, None).None?
    ensures var t := Next(Next(s, lockOf, Record(call, true)), lockOf, if fate == RolledBack then Abort(call) else Commit(call, fate == Heard));
            var e := Entry(CursorOf(s, r.workspace) + 1, r.eventId, r.entity, r.payload);
            && t.answers == s.answers + [(r, if fate == Heard then Applied(e) else Failed)]
            && if fate == RolledBack then t.log == s.log && t.cursors == s.cursors
               else t.log == Published(s, r.workspace, e).log && t.cursors == Published(s, r.workspace, e).cursors
  {
  }

  lemma UninterruptedMutation(s: System, lockOf: Request -> Id, call: Id, r: Request, fate: CommitFate)
    requires call !in s.calls && s.keyLocks == map[] && s.rowLocks == map[] && FindDuplicate(s, r).None?
    requires Find(LogOf(s, r.workspace), r.eventId, None).None?
    ensures var t := Uninterrupted(s, lockOf, call, r, true, fate);
            var e := Entry(CursorOf(s, r.workspace) + 1, r.eventId, r.entity, r.payload);
            && t.answers == s.answers + [(r, if fate == Heard then Applied(e) else Failed)]
            && if fate == RolledBack then t.log == s.log && t.cursors == s.cursors
               else t.log == Published(s, r.workspace, e).log && t.cursors == Published(s, r.workspace, e).cursors
  {
    CheckedWithoutDuplicate(s, lockOf, call, r);
    RecordThenEnd(s.(calls := s.calls[call := Call(r, Checked)], keyLocks := s.keyLocks[lockOf(r) := call]), lockOf, call, r, fate);
  }

  class Store {
    var cursors: map<Id, int>
    var log: map<Id, seq<Entry>>
    const lockOf: Request -> Id

    constructor (lockOf: Request -> Id)
      ensures Snapshot() == Empty() && this.lockOf == lockOf
    {
      this.lockOf := lockOf;
      cursors, log := map[], map[];
    }

    function Snapshot(): System
      reads this
    {
      System(cursors, log, map[], map[], map[], [])
    }

    // applied: whether the mutation itself succeeds; fate: what becomes of the commit.
    method RunMutation(call: Id, r: Request, applied: bool, fate: CommitFate) returns (outcome: Outcome)
      modifies this`cursors, this`log
      ensures var t := Uninterrupted(old(Snapshot()), lockOf, call, r, applied, fate);
              cursors == t.cursors && log == t.log && t.answers == [(r, outcome)]
    {
      var duplicate := FindDuplicate(Snapshot(), r);
      if duplicate.Some? {
        UninterruptedDuplicate(Snapshot(), lockOf, call, r, applied, fate);
        return if fate == Heard then Duplicate(duplicate.value) else Failed;
      }
      if !applied || Find(LogOf(Snapshot(), r.workspace), r.eventId, None).Some? {
        UninterruptedFailure(Snapshot(), lockOf, call, r, applied, fate);
        return Failed;
      }
      UninterruptedMutation(Snapshot(), lockOf, call, r, fate);
      var cursor := CursorOf(Snapshot(), r.workspace) + 1;
      var e := Entry(cursor, r.eventId, r.entity, r.payload);
      if fate == RolledBack { return Failed; }
      log := log[r.workspace := LogOf(Snapshot(), r.workspace) + [e]];
      cursors := cursors[r.workspace := cursor];
      outcome := if fate == Heard then Applied(e) else Failed;
    }
  }
}
