/** Idempotent commands: one receipt per key, guarded by a try-lock, written in the command's own
    transaction. Calls interleave step by step and may be cut off anywhere. */
module Idempotency {
  import opened Common

  datatype Scope = Scope(principal: Id, method_: Id, route: Id, key: Id)
  datatype SafeResult = SafeResult(status: int, body: Id)
  datatype Status = InProgress | Completed | Failed

  datatype Record = Record(fingerprint: Id, status: Status, response: Option<SafeResult>, expiresAt: int)

  // hook: what the caller runs after the commit.
  datatype Outcome =
    | Created(result: SafeResult, hook: Id)
    | Replayed(result: SafeResult)
    | KeyConflict
    | Busy
    | Error

  // A call's progress through its transaction.
  datatype Phase =
    | Begun
    | Locked
    | Prepared(fingerprint: Id)
    | Claimed(fingerprint: Id)
    | Replaying(fingerprint: Id, result: SafeResult)
    | Ran(fingerprint: Id, result: SafeResult, hook: Id)
    | Finished(fingerprint: Id, result: SafeResult, hook: Id)

  // began: when the call's transaction did, which is what NOW() means in it.
  datatype Call = Call(scope: Scope, phase: Phase, began: int)

  // A committed command, and in which life of its key: cleanup of an expired receipt ends a life.
  datatype Effect = Effect(scope: Scope, life: nat, fingerprint: Id, result: SafeResult, began: int)
  datatype Answer = Answer(scope: Scope, life: nat, outcome: Outcome)

  // committed: when each of the effects was.
  datatype System = System(records: map<Scope, Record>, locks: map<Id, Id>, calls: map<Id, Call>,
                           lives: map<Scope, nat>, effects: seq<Effect>, committed: seq<int>, answers: seq<Answer>, now: int)

  const TTL := 86400

  datatype CommitFate = Heard | Unheard | RolledBack

  datatype Step =
    | Begin(call: Id, scope: Scope)
    | TryLock(call: Id)
    | Prepare(call: Id, fingerprint: Option<Id>)
    | Claim(call: Id)
    | Run(call: Id, ran: Option<(SafeResult, Id)>)
    | Complete(call: Id)
    | Commit(call: Id, fate: CommitFate)
    | Abort(call: Id)
    | Cleanup(scopes: set<Scope>)
    | Tick(seconds: nat)

  function LifeOf(s: System, scope: Scope): nat {
    if scope in s.lives then s.lives[scope] else 0
  }

  predicate SafeStatus(r: SafeResult) {
    r.status == 200 || r.status == 201
  }

  // The end of a call: its locks are released with its transaction, and the caller is told.
  function Ended(s: System, call: Id, outcome: Outcome): System
    requires call in s.calls
  {
    var scope := s.calls[call].scope;
    s.(locks := map k | k in s.locks && s.locks[k] != call :: s.locks[k],
       calls := s.calls - {call},
       answers := s.answers + [Answer(scope, LifeOf(s, scope), outcome)])
  }

  function At(s: System, call: Id, phase: Phase): System
    requires call in s.calls
  {
    s.(calls := s.calls[call := s.calls[call].(phase := phase)])
  }

  // claimReceipt, reading committed rows.
  function Claiming(s: System, call: Id, fingerprint: Id): System
    requires call in s.calls
  {
    var scope := s.calls[call].scope;
    if scope !in s.records then At(s, call, Claimed(fingerprint))
    else
      var row := s.records[scope];
      if row.fingerprint != fingerprint then Ended(s, call, KeyConflict)
      else
        match row.status
        case Completed => if row.response.Some? then At(s, call, Replaying(fingerprint, row.response.value)) else Ended(s, call, Error)
        case Failed => At(s, call, Claimed(fingerprint))
        case InProgress => Ended(s, call, Busy)
  }

  // The receipt and the command's effects become visible together.
  function Published(s: System, call: Id, fingerprint: Id, result: SafeResult): System
    requires call in s.calls
  {
    var scope := s.calls[call].scope;
    s.(records := s.records[scope := Record(fingerprint, Completed, Some(result), s.calls[call].began + TTL)],
       effects := s.effects + [Effect(scope, LifeOf(s, scope), fingerprint, result, s.calls[call].began)],
       committed := s.committed + [s.now])
  }

  function Committing(s: System, call: Id, fate: CommitFate): System
    requires call in s.calls
  {
    match s.calls[call].phase
    case Replaying(_, result) => Ended(s, call, if fate == Heard then Replayed(result) else Error)
    case Finished(fingerprint, result, hook) =>
      if fate == RolledBack then Ended(s, call, Error)
      else Ended(Published(s, call, fingerprint, result), call, if fate == Heard then Created(result, hook) else Error)
    case _ => s
  }

  // Only expired terminal rows go; each removal begins a new life of its key.
  function Cleaned(s: System, scopes: set<Scope>): System {
    var gone := set k | k in scopes && k in s.records && s.records[k].status != InProgress && s.records[k].expiresAt <= s.now;
    s.(records := s.records - gone,
       lives := map k | k in s.lives.Keys + gone :: (if k in gone then LifeOf(s, k) + 1 else s.lives[k]))
  }

  function Next(s: System, lockOf: Scope -> Id, step: Step): System {
    match step
    case Begin(call, scope) => if call in s.calls then s else s.(calls := s.calls[call := Call(scope, Begun, s.now)])
    case TryLock(call) =>
      if call !in s.calls || s.calls[call].phase != Begun then s
      else if lockOf(s.calls[call].scope) in s.locks then Ended(s, call, Busy)
      else At(s, call, Locked).(locks := s.locks[lockOf(s.calls[call].scope) := call])
    case Prepare(call, fingerprint) =>
      if call !in s.calls || s.calls[call].phase != Locked then s
      else if fingerprint.None? then Ended(s, call, Error)
      else At(s, call, Prepared(fingerprint.value))
    case Claim(call) =>
      if call in s.calls && s.calls[call].phase.Prepared? then Claiming(s, call, s.calls[call].phase.fingerprint) else s
    case Run(call, ran) =>
      if call !in s.calls || !s.calls[call].phase.Claimed? then s
      else if ran.None? then Ended(s, call, Error)
      else At(s, call, Ran(s.calls[call].phase.fingerprint, ran.value.0, ran.value.1))
    case Complete(call) =>
      if call !in s.calls || !s.calls[call].phase.Ran? then s
      else
        var p := s.calls[call].phase;
        if SafeStatus(p.result) then At(s, call, Finished(p.fingerprint, p.result, p.hook)) else Ended(s, call, Error)
    case Commit(call, fate) => if call in s.calls then Committing(s, call, fate) else s
    case Abort(call) => if call in s.calls then Ended(s, call, Error) else s
    case Cleanup(scopes) => Cleaned(s, scopes)
    case Tick(seconds) => s.(now := s.now + seconds)
  }

  // ---------- the invariant ----------

  predicate Holding(c: Call) {
    !c.phase.Begun?
  }

  // A call past its try-lock holds its lock, and only such calls hold locks.
  ghost predicate LocksHeld(s: System, lockOf: Scope -> Id) {
    && (forall c | c in s.calls && Holding(s.calls[c]) :: lockOf(s.calls[c].scope) in s.locks && s.locks[lockOf(s.calls[c].scope)] == c)
    && (forall k | k in s.locks :: s.locks[k] in s.calls && Holding(s.calls[s.locks[k]]))
  }

  ghost predicate ReceiptsComplete(s: System) {
    forall k | k in s.records ::
      && s.records[k].status == Completed && s.records[k].response.Some?
      && (s.records[k].response.value.status == 200 || s.records[k].response.value.status == 201)
  }

  // A receipt stands for exactly the one effect of its key's current life.
  ghost predicate ReceiptsAreEffects(s: System) {
    && (forall k | k in s.records :: s.records[k].response.Some? &&
          Effect(k, LifeOf(s, k), s.records[k].fingerprint, s.records[k].response.value, s.records[k].expiresAt - TTL) in s.effects)
    && (forall e | e in s.effects :: e.life <= LifeOf(s, e.scope) && (e.life == LifeOf(s, e.scope) ==> e.scope in s.records))
  }

  ghost predicate OneEffectPerLife(s: System) {
    forall i, j | 0 <= i < j < |s.effects| && s.effects[i].scope == s.effects[j].scope :: s.effects[i].life != s.effects[j].life
  }

  // A call that may still commit a new receipt has found none, and none has appeared since.
  ghost predicate ClaimsFresh(s: System) {
    forall c | c in s.calls && (s.calls[c].phase.Claimed? || s.calls[c].phase.Ran? || s.calls[c].phase.Finished?) :: s.calls[c].scope !in s.records
  }

  ghost predicate Known(s: System, scope: Scope, life: nat, fingerprint: Id, result: SafeResult) {
    exists e :: e in s.effects && e.scope == scope && e.life <= life && e.fingerprint == fingerprint && e.result == result
  }

  ghost predicate ResultsSafe(s: System) {
    && (forall c | c in s.calls && s.calls[c].phase.Finished? :: SafeStatus(s.calls[c].phase.result))
    && (forall c | c in s.calls && s.calls[c].phase.Replaying? ::
          Known(s, s.calls[c].scope, LifeOf(s, s.calls[c].scope), s.calls[c].phase.fingerprint, s.calls[c].phase.result))
  }

  ghost predicate AnswersTrue(s: System) {
    && (forall a | a in s.answers && a.outcome.Created? :: exists e :: e in s.effects && e.scope == a.scope && e.life == a.life && e.result == a.outcome.result)
    && (forall a | a in s.answers && a.outcome.Replayed? :: exists e :: e in s.effects && e.scope == a.scope && e.life <= a.life && e.result == a.outcome.result)
    && (forall i, j | 0 <= i < j < |s.answers| && s.answers[i].outcome.Created? && s.answers[j].outcome.Created? && s.answers[i].scope == s.answers[j].scope ::
          s.answers[i].life != s.answers[j].life)
    && (forall a | a in s.answers :: a.life <= LifeOf(s, a.scope) && (a.outcome.Created? && a.life == LifeOf(s, a.scope) ==> a.scope in s.records))
  }

  ghost predicate Inv(s: System, lockOf: Scope -> Id) {
    LocksHeld(s, lockOf) && Kept(s) && ClaimsFresh(s) && ResultsSafe(s)
  }

  // What the tables and the answers given say, whatever calls are at work.
  ghost predicate Kept(s: System) {
    ReceiptsComplete(s) && ReceiptsAreEffects(s) && OneEffectPerLife(s) && AnswersTrue(s)
  }

  lemma SameKept(s: System, t: System)
    requires Kept(s) && t.records == s.records && t.lives == s.lives && t.effects == s.effects && t.answers == s.answers
    ensures Kept(t)
  {
  }

  // ---------- every step keeps it ----------

  // Nobody has been told that the current life's command was created.
  ghost predicate NotYetTold(s: System, scope: Scope) {
    forall a | a in s.answers && a.outcome.Created? && a.scope == scope :: a.life != LifeOf(s, scope)
  }

  // After the receipt is published only the publishing call itself is still at work on the key; it is
  // ended in the same step.
  ghost predicate InvBut(s: System, lockOf: Scope -> Id, call: Id) {
    && LocksHeld(s, lockOf) && Kept(s)
    && (forall c | c in s.calls && c != call && (s.calls[c].phase.Claimed? || s.calls[c].phase.Ran? || s.calls[c].phase.Finished?) :: s.calls[c].scope !in s.records)
    && ResultsSafe(s)
  }

  lemma EndedKeepsInv(s: System, lockOf: Scope -> Id, call: Id, outcome: Outcome)
    requires InvBut(s, lockOf, call) && call in s.calls
    requires outcome.Created? ==> exists e :: e in s.effects && e.scope == s.calls[call].scope && e.life == LifeOf(s, e.scope) && e.result == outcome.result
    requires outcome.Created? ==> s.calls[call].scope in s.records && NotYetTold(s, s.calls[call].scope)
    requires outcome.Replayed? ==> exists e :: e in s.effects && e.scope == s.calls[call].scope && e.life <= LifeOf(s, e.scope) && e.result == outcome.result
    ensures Inv(Ended(s, call, outcome), lockOf)
  {
    SameResults(s, Ended(s, call, outcome));
    AnsweredIsKept(s, call, outcome);
    EndedLocks(s, lockOf, call, outcome);
  }

  lemma EndedLocks(s: System, lockOf: Scope -> Id, call: Id, outcome: Outcome)
    requires LocksHeld(s, lockOf) && call in s.calls
    ensures LocksHeld(Ended(s, call, outcome), lockOf)
  {
  }

  lemma AnsweredIsKept(s: System, call: Id, outcome: Outcome)
    requires Kept(s) && call in s.calls
    requires outcome.Created? ==> exists e :: e in s.effects && e.scope == s.calls[call].scope && e.life == LifeOf(s, e.scope) && e.result == outcome.result
    requires outcome.Created? ==> s.calls[call].scope in s.records && NotYetTold(s, s.calls[call].scope)
    requires outcome.Replayed? ==> exists e :: e in s.effects && e.scope == s.calls[call].scope && e.life <= LifeOf(s, e.scope) && e.result == outcome.result
    ensures Kept(Ended(s, call, outcome))
  {
  }

  // Results stay backed by effects as long as no effect goes and no finished or replaying call comes.
  lemma SameResults(s: System, t: System)
    requires ResultsSafe(s) && s.effects <= t.effects
    requires forall c | c in t.calls && (t.calls[c].phase.Finished? || t.calls[c].phase.Replaying?) :: c in s.calls && t.calls[c] == s.calls[c]
    requires forall k: Scope :: LifeOf(s, k) <= LifeOf(t, k)
    ensures ResultsSafe(t)
  {
    forall c | c in t.calls && t.calls[c].phase.Replaying?
      ensures Known(t, t.calls[c].scope, LifeOf(t, t.calls[c].scope), t.calls[c].phase.fingerprint, t.calls[c].phase.result)
    {
      var k := t.calls[c];
      assert Known(s, k.scope, LifeOf(s, k.scope), k.phase.fingerprint, k.phase.result);
      var e :| e in s.effects && e.scope == k.scope && e.life <= LifeOf(s, k.scope) && e.fingerprint == k.phase.fingerprint && e.result == k.phase.result;
      assert e in t.effects;
    }
  }

  lemma AdvanceKeepsInv(s: System, lockOf: Scope -> Id, call: Id, phase: Phase)
    requires Inv(s, lockOf) && call in s.calls && Holding(s.calls[call]) && !phase.Begun?
    requires phase.Claimed? || phase.Ran? || phase.Finished? ==> s.calls[call].scope !in s.records
    requires phase.Finished? ==> SafeStatus(phase.result)
    requires phase.Replaying? ==> Known(s, s.calls[call].scope, LifeOf(s, s.calls[call].scope), phase.fingerprint, phase.result)
    ensures Inv(At(s, call, phase), lockOf)
  {
    var t := At(s, call, phase);
    SameKept(s, t);
    forall c | c in t.calls && t.calls[c].phase.Replaying?
      ensures Known(t, t.calls[c].scope, LifeOf(t, t.calls[c].scope), t.calls[c].phase.fingerprint, t.calls[c].phase.result)
    {
      assert Known(s, t.calls[c].scope, LifeOf(s, t.calls[c].scope), t.calls[c].phase.fingerprint, t.calls[c].phase.result);
    }
  }

  // A call that finds a receipt with its own fingerprint is given the result of the one effect of the
  // key's current life; another fingerprint is a conflict; a receipt is never in progress or failed.
  lemma ClaimFindsFirstResult(s: System, lockOf: Scope -> Id, call: Id, fingerprint: Id)
    requires Inv(s, lockOf) && call in s.calls && s.calls[call].scope in s.records
    ensures var scope := s.calls[call].scope;
            var row := s.records[scope];
            && row.response.Some?
            && Effect(scope, LifeOf(s, scope), row.fingerprint, row.response.value, row.expiresAt - TTL) in s.effects
            && Claiming(s, call, fingerprint) ==
                 if row.fingerprint == fingerprint then At(s, call, Replaying(fingerprint, row.response.value)) else Ended(s, call, KeyConflict)
  {
  }

  lemma ClaimKeepsInv(s: System, lockOf: Scope -> Id, call: Id, fingerprint: Id)
    requires Inv(s, lockOf) && call in s.calls && Holding(s.calls[call])
    ensures Inv(Claiming(s, call, fingerprint), lockOf)
  {
    var scope := s.calls[call].scope;
    if scope in s.records {
      ClaimFindsFirstResult(s, lockOf, call, fingerprint);
      var row := s.records[scope];
      if row.fingerprint == fingerprint {
        assert Known(s, scope, LifeOf(s, scope), fingerprint, row.response.value);
        AdvanceKeepsInv(s, lockOf, call, Replaying(fingerprint, row.response.value));
      } else {
        EndedKeepsInv(s, lockOf, call, KeyConflict);
      }
    } else {
      AdvanceKeepsInv(s, lockOf, call, Claimed(fingerprint));
    }
  }

  lemma PublishedAnswers(s: System, call: Id, fingerprint: Id, result: SafeResult)
    requires AnswersTrue(s) && call in s.calls
    ensures AnswersTrue(Published(s, call, fingerprint, result))
  {
    var t := Published(s, call, fingerprint, result);
    forall e | e in s.effects ensures e in t.effects {
    }
  }

  lemma PublishedReceipts(s: System, lockOf: Scope -> Id, call: Id, fingerprint: Id, result: SafeResult)
    requires Inv(s, lockOf) && call in s.calls && s.calls[call].phase.Finished? && SafeStatus(result)
    ensures Kept(Published(s, call, fingerprint, result))
  {
    PublishedAnswers(s, call, fingerprint, result);
    PublishedBacked(s, call, fingerprint, result);
    PublishedLives(s, call, fingerprint, result);
  }

  // Every receipt still stands for an effect.
  lemma PublishedBacked(s: System, call: Id, fingerprint: Id, result: SafeResult)
    requires ReceiptsComplete(s) && ReceiptsAreEffects(s) && call in s.calls && SafeStatus(result)
    ensures var t := Published(s, call, fingerprint, result); ReceiptsComplete(t) && ReceiptsAreEffects(t)
  {
    var scope := s.calls[call].scope;
    var t := Published(s, call, fingerprint, result);
    var e := Effect(scope, LifeOf(s, scope), fingerprint, result, s.calls[call].began);
    assert t.effects[|s.effects|] == e;
    forall k | k in t.records ensures Effect(k, LifeOf(t, k), t.records[k].fingerprint, t.records[k].response.value, t.records[k].expiresAt - TTL) in t.effects {
      if k != scope {
        assert Effect(k, LifeOf(s, k), s.records[k].fingerprint, s.records[k].response.value, s.records[k].expiresAt - TTL) in s.effects;
      }
    }
    forall x | x in t.effects ensures x in s.effects || x == e {
    }
  }

  // And the new effect is the first of its key's life.
  lemma PublishedLives(s: System, call: Id, fingerprint: Id, result: SafeResult)
    requires ReceiptsAreEffects(s) && OneEffectPerLife(s) && call in s.calls && s.calls[call].scope !in s.records
    ensures OneEffectPerLife(Published(s, call, fingerprint, result))
  {
    forall i | 0 <= i < |s.effects| && s.effects[i].scope == s.calls[call].scope ensures s.effects[i].life != LifeOf(s, s.calls[call].scope) {
      assert s.effects[i] in s.effects;
    }
  }

  lemma PublishedKeepsInv(s: System, lockOf: Scope -> Id, call: Id, fingerprint: Id, result: SafeResult)
    requires Inv(s, lockOf) && call in s.calls && s.calls[call].phase.Finished? && SafeStatus(result)
    ensures InvBut(Published(s, call, fingerprint, result), lockOf, call)
    ensures NotYetTold(Published(s, call, fingerprint, result), s.calls[call].scope)
    ensures Effect(s.calls[call].scope, LifeOf(s, s.calls[call].scope), fingerprint, result, s.calls[call].began) in Published(s, call, fingerprint, result).effects
  {
    var t := Published(s, call, fingerprint, result);
    PublishedReceipts(s, lockOf, call, fingerprint, result);
    assert t.effects[|s.effects|] == Effect(s.calls[call].scope, LifeOf(s, s.calls[call].scope), fingerprint, result, s.calls[call].began);
    forall c | c in t.calls && t.calls[c].phase.Replaying?
      ensures Known(t, t.calls[c].scope, LifeOf(t, t.calls[c].scope), t.calls[c].phase.fingerprint, t.calls[c].phase.result)
    {
    }
    forall c | c in t.calls && c != call && (t.calls[c].phase.Claimed? || t.calls[c].phase.Ran? || t.calls[c].phase.Finished?)
      ensures t.calls[c].scope !in t.records
    {
    }
  }

  lemma PublishingKeepsInv(s: System, lockOf: Scope -> Id, call: Id, fate: CommitFate)
    requires Inv(s, lockOf) && call in s.calls && s.calls[call].phase.Finished? && fate != RolledBack
    ensures Inv(Committing(s, call, fate), lockOf)
  {
    var p := s.calls[call].phase;
    PublishedKeepsInv(s, lockOf, call, p.fingerprint, p.result);
    EndedKeepsInv(Published(s, call, p.fingerprint, p.result), lockOf, call, if fate == Heard then Created(p.result, p.hook) else Error);
  }

  lemma ReplayingKeepsInv(s: System, lockOf: Scope -> Id, call: Id, fate: CommitFate)
    requires Inv(s, lockOf) && call in s.calls && s.calls[call].phase.Replaying?
    ensures Inv(Committing(s, call, fate), lockOf)
  {
    var p := s.calls[call].phase;
    assert Known(s, s.calls[call].scope, LifeOf(s, s.calls[call].scope), p.fingerprint, p.result);
    EndedKeepsInv(s, lockOf, call, if fate == Heard then Replayed(p.result) else Error);
  }

  lemma FailureKeepsInv(s: System, lockOf: Scope -> Id, call: Id)
    requires Inv(s, lockOf) && call in s.calls
    ensures Inv(Ended(s, call, Error), lockOf)
  {
    EndedKeepsInv(s, lockOf, call, Error);
  }

  lemma LivesAfterCleanup(s: System, scopes: set<Scope>)
    ensures var t := Cleaned(s, scopes);
            forall k: Scope :: LifeOf(s, k) <= LifeOf(t, k) && (k in t.records ==> k in s.records && t.records[k] == s.records[k] && LifeOf(t, k) == LifeOf(s, k))
                               && (LifeOf(t, k) == LifeOf(s, k) && k in s.records ==> k in t.records)
  {
  }

  lemma CleanedIsKept(s: System, scopes: set<Scope>)
    requires Kept(s)
    ensures Kept(Cleaned(s, scopes))
  {
    CleanedReceipts(s, scopes);
    CleanedAnswers(s, scopes);
  }

  lemma CleanedReceipts(s: System, scopes: set<Scope>)
    requires ReceiptsComplete(s) && ReceiptsAreEffects(s)
    ensures ReceiptsComplete(Cleaned(s, scopes)) && ReceiptsAreEffects(Cleaned(s, scopes))
  {
    LivesAfterCleanup(s, scopes);
  }

  lemma CleanedAnswers(s: System, scopes: set<Scope>)
    requires AnswersTrue(s)
    ensures AnswersTrue(Cleaned(s, scopes))
  {
    LivesAfterCleanup(s, scopes);
  }

  lemma CleanupKeepsInv(s: System, lockOf: Scope -> Id, scopes: set<Scope>)
    requires Inv(s, lockOf)
    ensures Inv(Cleaned(s, scopes), lockOf)
  {
    var t := Cleaned(s, scopes);
    LivesAfterCleanup(s, scopes);
    CleanedIsKept(s, scopes);
    SameResults(s, t);
  }

  lemma LockTakenKeepsInv(s: System, lockOf: Scope -> Id, call: Id)
    requires Inv(s, lockOf) && call in s.calls && s.calls[call].phase.Begun? && lockOf(s.calls[call].scope) !in s.locks
    ensures Inv(At(s, call, Locked).(locks := s.locks[lockOf(s.calls[call].scope) := call]), lockOf)
  {
    SameResults(s, At(s, call, Locked).(locks := s.locks[lockOf(s.calls[call].scope) := call]));
    SameKept(s, At(s, call, Locked).(locks := s.locks[lockOf(s.calls[call].scope) := call]));
  }

  lemma BusyKeepsInv(s: System, lockOf: Scope -> Id, call: Id)
    requires Inv(s, lockOf) && call in s.calls
    ensures Inv(Ended(s, call, Busy), lockOf)
  {
    EndedKeepsInv(s, lockOf, call, Busy);
  }

  lemma TryLockKeepsInv(s: System, lockOf: Scope -> Id, call: Id)
    requires Inv(s, lockOf) && call in s.calls && s.calls[call].phase.Begun?
    ensures Inv(Next(s, lockOf, TryLock(call)), lockOf)
  {
    if lockOf(s.calls[call].scope) in s.locks {
      BusyKeepsInv(s, lockOf, call);
    } else {
      LockTakenKeepsInv(s, lockOf, call);
    }
  }

  lemma BeginKeepsInv(s: System, lockOf: Scope -> Id, call: Id, scope: Scope)
    requires Inv(s, lockOf) && call !in s.calls
    ensures Inv(s.(calls := s.calls[call := Call(scope, Begun, s.now)]), lockOf)
  {
    SameResults(s, s.(calls := s.calls[call := Call(scope, Begun, s.now)]));
    SameKept(s, s.(calls := s.calls[call := Call(scope, Begun, s.now)]));
  }

  lemma RunKeepsInv(s: System, lockOf: Scope -> Id, call: Id, ran: (SafeResult, Id))
    requires Inv(s, lockOf) && call in s.calls && s.calls[call].phase.Claimed?
    ensures Inv(At(s, call, Ran(s.calls[call].phase.fingerprint, ran.0, ran.1)), lockOf)
  {
    AdvanceKeepsInv(s, lockOf, call, Ran(s.calls[call].phase.fingerprint, ran.0, ran.1));
  }

  lemma CompleteKeepsInv(s: System, lockOf: Scope -> Id, call: Id)
    requires Inv(s, lockOf) && call in s.calls && s.calls[call].phase.Ran? && SafeStatus(s.calls[call].phase.result)
    ensures var p := s.calls[call].phase; Inv(At(s, call, Finished(p.fingerprint, p.result, p.hook)), lockOf)
  {
    var p := s.calls[call].phase;
    AdvanceKeepsInv(s, lockOf, call, Finished(p.fingerprint, p.result, p.hook));
  }

  lemma PrepareKeepsInv(s: System, lockOf: Scope -> Id, call: Id, fingerprint: Id)
    requires Inv(s, lockOf) && call in s.calls && s.calls[call].phase == Locked
    ensures Inv(At(s, call, Prepared(fingerprint)), lockOf)
  {
    AdvanceKeepsInv(s, lockOf, call, Prepared(fingerprint));
  }

  // The call a step advances, when it is a step of one call.
  lemma CallStepKeepsInv(s: System, lockOf: Scope -> Id, step: Step)
    requires Inv(s, lockOf) && (step.Prepare? || step.Run? || step.Complete?) && step.call in s.calls
    ensures Inv(Next(s, lockOf, step), lockOf)
  {
    FailureKeepsInv(s, lockOf, step.call);
    match step
    case Prepare(call, fingerprint) => if s.calls[call].phase == Locked && fingerprint.Some? { PrepareKeepsInv(s, lockOf, call, fingerprint.value); }
    case Run(call, ran) => if s.calls[call].phase.Claimed? && ran.Some? { RunKeepsInv(s, lockOf, call, ran.value); }
    case Complete(call) => if s.calls[call].phase.Ran? && SafeStatus(s.calls[call].phase.result) { CompleteKeepsInv(s, lockOf, call); }
  }

  lemma CommitKeepsInv(s: System, lockOf: Scope -> Id, call: Id, fate: CommitFate)
    requires Inv(s, lockOf) && call in s.calls
    ensures Inv(Committing(s, call, fate), lockOf)
  {
    if s.calls[call].phase.Replaying? {
      ReplayingKeepsInv(s, lockOf, call, fate);
    } else if s.calls[call].phase.Finished? {
      if fate == RolledBack { FailureKeepsInv(s, lockOf, call); } else { PublishingKeepsInv(s, lockOf, call, fate); }
    }
  }

  lemma LockStepKeepsInv(s: System, lockOf: Scope -> Id, step: Step)
    requires Inv(s, lockOf) && (step.TryLock? || step.Claim? || step.Commit?) && step.call in s.calls
    ensures Inv(Next(s, lockOf, step), lockOf)
  {
    match step
    case TryLock(call) => if s.calls[call].phase.Begun? { TryLockKeepsInv(s, lockOf, call); }
    case Claim(call) => if s.calls[call].phase.Prepared? { ClaimKeepsInv(s, lockOf, call, s.calls[call].phase.fingerprint); }
    case Commit(call, fate) => CommitKeepsInv(s, lockOf, call, fate);
  }

  lemma OpenStepKeepsInv(s: System, lockOf: Scope -> Id, step: Step)
    requires Inv(s, lockOf) && (step.Begin? || step.Cleanup? || step.Tick?)
    ensures Inv(Next(s, lockOf, step), lockOf)
  {
    if step.Begin? {
      if step.call !in s.calls { BeginKeepsInv(s, lockOf, step.call, step.scope); }
    } else if step.Cleanup? {
      CleanupKeepsInv(s, lockOf, step.scopes);
    }
  }

  lemma StepKeepsInv(s: System, lockOf: Scope -> Id, step: Step)
    requires Inv(s, lockOf)
    ensures Inv(Next(s, lockOf, step), lockOf)
  {
    if step.Begin? || step.Cleanup? || step.Tick? {
      OpenStepKeepsInv(s, lockOf, step);
    } else if step.call in s.calls {
      if step.Abort? {
        FailureKeepsInv(s, lockOf, step.call);
      } else if step.Prepare? || step.Run? || step.Complete? {
        CallStepKeepsInv(s, lockOf, step);
      } else {
        LockStepKeepsInv(s, lockOf, step);
      }
    }
  }

  // ---------- runs ----------

  function RunOf(s: System, lockOf: Scope -> Id, steps: seq<Step>): System {
    if steps == [] then s else Next(RunOf(s, lockOf, steps[..|steps| - 1]), lockOf, steps[|steps| - 1])
  }

  function Fresh(now: int): System {
    System(map[], map[], map[], map[], [], [], [], now)
  }

  lemma {:induction false} EveryRunKeepsInv(lockOf: Scope -> Id, now: int, steps: seq<Step>)
    ensures Inv(RunOf(Fresh(now), lockOf, steps), lockOf)
  {
    if steps != [] {
      EveryRunKeepsInv(lockOf, now, steps[..|steps| - 1]);
      StepKeepsInv(RunOf(Fresh(now), lockOf, steps[..|steps| - 1]), lockOf, steps[|steps| - 1]);
    }
  }

  /** Whatever the interleaving and wherever calls are cut off: between two cleanups of a key its command is
      committed at most once, at most one call is told it was created, and every replayed result is the
      result of a committed command of that key. */
  lemma ExactlyOncePerLife(lockOf: Scope -> Id, now: int, steps: seq<Step>, i: nat, j: nat)
    ensures var s := RunOf(Fresh(now), lockOf, steps);
            && (i < j < |s.effects| && s.effects[i].scope == s.effects[j].scope ==> s.effects[i].life != s.effects[j].life)
            && (i < j < |s.answers| && s.answers[i].outcome.Created? && s.answers[j].outcome.Created? && s.answers[i].scope == s.answers[j].scope ==>
                  s.answers[i].life != s.answers[j].life)
            && (i < |s.answers| && s.answers[i].outcome.Replayed? ==>
                  exists e :: e in s.effects && e.scope == s.answers[i].scope && e.result == s.answers[i].outcome.result)
  {
    EveryRunKeepsInv(lockOf, now, steps);
  }

  // ---------- a day apart ----------

  ghost predicate Timed(s: System) {
    && |s.committed| == |s.effects|
    && (forall c | c in s.calls :: s.calls[c].began <= s.now)
    && (forall i | 0 <= i < |s.effects| :: s.effects[i].began <= s.committed[i] <= s.now)
    && (forall i, j | 0 <= i < j < |s.effects| :: s.committed[i] <= s.committed[j])
  }

  // The receipts of past lives had expired, and no command of a key was committed again before the receipt of the
  // one before it had.
  ghost predicate Spaced(s: System) {
    && Timed(s)
    && (forall e | e in s.effects && e.life < LifeOf(s, e.scope) :: e.began + TTL <= s.now)
    && Apart(s)
  }

  ghost predicate Apart(s: System)
    requires |s.committed| == |s.effects|
  {
    forall i, j | 0 <= i < j < |s.effects| && s.effects[i].scope == s.effects[j].scope :: s.effects[i].began + TTL <= s.committed[j]
  }

  lemma EndedKeepsSpaced(s: System, call: Id, outcome: Outcome)
    requires Spaced(s) && call in s.calls
    ensures Spaced(Ended(s, call, outcome))
  {
  }

  // All earlier commands of the key belong to past lives.
  lemma PublishedKeepsSpaced(s: System, lockOf: Scope -> Id, call: Id, fingerprint: Id, result: SafeResult)
    requires Inv(s, lockOf) && Spaced(s) && call in s.calls && s.calls[call].phase.Finished?
    ensures Spaced(Published(s, call, fingerprint, result))
  {
    var t := Published(s, call, fingerprint, result);
    PublishedIsApart(s, lockOf, call, fingerprint, result);
    forall e | e in t.effects && e.life < LifeOf(t, e.scope) ensures e.began + TTL <= t.now {
      assert e == t.effects[|s.effects|] || e in s.effects;
    }
  }

  lemma PublishedIsApart(s: System, lockOf: Scope -> Id, call: Id, fingerprint: Id, result: SafeResult)
    requires Inv(s, lockOf) && Spaced(s) && call in s.calls && s.calls[call].phase.Finished?
    ensures Apart(Published(s, call, fingerprint, result))
  {
    var t := Published(s, call, fingerprint, result);
    forall i, j | 0 <= i < j < |t.effects| && t.effects[i].scope == t.effects[j].scope ensures t.effects[i].began + TTL <= t.committed[j] {
      if j == |s.effects| {
        assert s.effects[i] in s.effects;
        OnlyPastLives(s, lockOf, call, s.effects[i]);
      }
    }
  }

  lemma OnlyPastLives(s: System, lockOf: Scope -> Id, call: Id, e: Effect)
    requires Inv(s, lockOf) && call in s.calls && s.calls[call].phase.Finished? && e in s.effects && e.scope == s.calls[call].scope
    ensures e.life < LifeOf(s, e.scope)
  {
  }

  // The effect of a key's current life is the one its receipt stands for.
  lemma CurrentEffect(s: System, e: Effect)
    requires Kept(s) && e in s.effects && e.life == LifeOf(s, e.scope)
    ensures e.scope in s.records && s.records[e.scope].expiresAt == e.began + TTL
  {
    var row := s.records[e.scope];
    var f := Effect(e.scope, LifeOf(s, e.scope), row.fingerprint, row.response.value, row.expiresAt - TTL);
    var i :| 0 <= i < |s.effects| && s.effects[i] == e;
    var j :| 0 <= j < |s.effects| && s.effects[j] == f;
  }

  lemma CleanedKeepsSpaced(s: System, lockOf: Scope -> Id, scopes: set<Scope>)
    requires Inv(s, lockOf) && Spaced(s)
    ensures Spaced(Cleaned(s, scopes))
  {
    var t := Cleaned(s, scopes);
    forall e | e in t.effects && e.life < LifeOf(t, e.scope) ensures e.began + TTL <= t.now {
      if e.life == LifeOf(s, e.scope) { CurrentEffect(s, e); }
    }
  }

  lemma StepKeepsSpaced(s: System, lockOf: Scope -> Id, step: Step)
    requires Inv(s, lockOf) && Spaced(s)
    ensures Spaced(Next(s, lockOf, step))
  {
    match step
    case Commit(call, fate) =>
      if call in s.calls && !(s.calls[call].phase.Finished? && fate != RolledBack) {
        QuietKeepsSpaced(s, Next(s, lockOf, step));
      } else if call in s.calls {
        var p := s.calls[call].phase;
        PublishedKeepsSpaced(s, lockOf, call, p.fingerprint, p.result);
        EndedKeepsSpaced(Published(s, call, p.fingerprint, p.result), call, if fate == Heard then Created(p.result, p.hook) else Error);
      }
    case Cleanup(scopes) => CleanedKeepsSpaced(s, lockOf, scopes);
    case _ =>
      OtherStepIsQuiet(s, lockOf, step);
      QuietKeepsSpaced(s, Next(s, lockOf, step));
  }

  // Nothing is committed and no life ends.
  ghost predicate Quiet(s: System, t: System) {
    && t.effects == s.effects && t.committed == s.committed && t.lives == s.lives && s.now <= t.now
    && forall c | c in t.calls :: t.calls[c].began <= t.now
  }

  lemma OtherStepIsQuiet(s: System, lockOf: Scope -> Id, step: Step)
    requires !step.Commit? && !step.Cleanup? && forall c | c in s.calls :: s.calls[c].began <= s.now
    ensures Quiet(s, Next(s, lockOf, step))
  {
  }

  lemma QuietKeepsSpaced(s: System, t: System)
    requires Spaced(s) && Quiet(s, t)
    ensures Spaced(t)
  {
  }

  lemma {:induction false} EveryRunKeepsSpaced(lockOf: Scope -> Id, now: int, steps: seq<Step>)
    ensures Spaced(RunOf(Fresh(now), lockOf, steps))
  {
    if steps != [] {
      EveryRunKeepsSpaced(lockOf, now, steps[..|steps| - 1]);
      EveryRunKeepsInv(lockOf, now, steps[..|steps| - 1]);
      StepKeepsSpaced(RunOf(Fresh(now), lockOf, steps[..|steps| - 1]), lockOf, steps[|steps| - 1]);
    }
  }

  /** In every run a command of a key is committed a second time only a day or more after the transaction of the
      first began. */
  lemma CommittedADayApart(lockOf: Scope -> Id, now: int, steps: seq<Step>, i: nat, j: nat)
    ensures var s := RunOf(Fresh(now), lockOf, steps);
            |s.committed| == |s.effects| && (i < j < |s.effects| && s.effects[i].scope == s.effects[j].scope ==> s.committed[j] >= s.effects[i].began + 86400)
  {
    EveryRunKeepsSpaced(lockOf, now, steps);
  }

  // A command's result is kept if and only if it is a success, 200 or 201; any other ends the call and leaves nothing.
  lemma CompletesIff(s: System, lockOf: Scope -> Id, call: Id)
    requires call in s.calls && s.calls[call].phase.Ran?
    ensures var p, t := s.calls[call].phase, Next(s, lockOf, Complete(call));
            && t.records == s.records && t.effects == s.effects
            && (call in t.calls <==> p.result.status == 200 || p.result.status == 201)
            && (call in t.calls ==> t.calls[call].phase == Finished(p.fingerprint, p.result, p.hook) && t.answers == s.answers)
            && (call !in t.calls ==> t.answers == s.answers + [Answer(s.calls[call].scope, LifeOf(s, s.calls[call].scope), Error)])
  {
  }

  // An expired receipt is gone once a cleanup meets it.
  lemma CleanupRemovesIff(s: System, lockOf: Scope -> Id, scopes: set<Scope>, k: Scope)
    requires Inv(s, lockOf) && k in s.records
    ensures k !in Next(s, lockOf, Cleanup(scopes)).records <==> k in scopes && s.records[k].expiresAt <= s.now
  {
  }

  // One step takes a receipt away only when it has expired, and never changes one.
  lemma StepKeepsReceipt(s: System, lockOf: Scope -> Id, step: Step, k: Scope)
    requires Inv(s, lockOf) && k in s.records
    ensures var t := Next(s, lockOf, step);
            && s.now <= t.now && (k in t.records ==> t.records[k] == s.records[k])
            && (k !in t.records ==> s.records[k].expiresAt <= s.now)
  {
    match step
    case Commit(call, fate) => CommitKeepsReceipt(s, lockOf, call, fate, k);
    case Cleanup(scopes) => CleanupRemovesIff(s, lockOf, scopes, k);
    case _ => OtherStepKeepsRecords(s, lockOf, step);
  }

  lemma OtherStepKeepsRecords(s: System, lockOf: Scope -> Id, step: Step)
    requires !step.Commit? && !step.Cleanup?
    ensures Next(s, lockOf, step).records == s.records && s.now <= Next(s, lockOf, step).now
  {
  }

  // A call that publishes has found no receipt of its key.
  lemma CommitKeepsReceipt(s: System, lockOf: Scope -> Id, call: Id, fate: CommitFate, k: Scope)
    requires ClaimsFresh(s) && k in s.records
    ensures var t := Next(s, lockOf, Commit(call, fate)); k in t.records && t.records[k] == s.records[k] && t.now == s.now
  {
  }

  /** A receipt there is at one point of a run is there unchanged as long as it has not expired. */
  lemma {:induction false} ReceiptOutlasts(lockOf: Scope -> Id, now: int, steps: seq<Step>, n: nat, k: Scope)
    requires n <= |steps| && k in RunOf(Fresh(now), lockOf, steps[..n]).records
    ensures var s, t := RunOf(Fresh(now), lockOf, steps[..n]), RunOf(Fresh(now), lockOf, steps);
            s.now <= t.now && (t.now < s.records[k].expiresAt ==> k in t.records && t.records[k] == s.records[k])
    decreases |steps|
  {
    if n == |steps| {
      assert steps[..n] == steps;
    } else {
      var front := steps[..|steps| - 1];
      assert front[..n] == steps[..n];
      ReceiptOutlasts(lockOf, now, front, n, k);
      EveryRunKeepsInv(lockOf, now, front);
      var s, u := RunOf(Fresh(now), lockOf, steps[..n]), RunOf(Fresh(now), lockOf, front);
      StepMovesTime(u, lockOf, steps[|steps| - 1]);
      if k in u.records { StepKeepsReceipt(u, lockOf, steps[|steps| - 1], k); }
    }
  }

  lemma StepMovesTime(s: System, lockOf: Scope -> Id, step: Step)
    ensures s.now <= Next(s, lockOf, step).now
  {
  }

  // ---------- one call, uninterrupted ----------

  function Uninterrupted(s: System, lockOf: Scope -> Id, call: Id, scope: Scope, prepared: Option<Id>, ran: Option<(SafeResult, Id)>, fate: CommitFate): System {
    var s1 := Next(s, lockOf, Begin(call, scope));
    var s2 := Next(s1, lockOf, TryLock(call));
    var s3 := Next(s2, lockOf, Prepare(call, prepared));
    var s4 := Next(s3, lockOf, Claim(call));
    var s5 := Next(s4, lockOf, Run(call, ran));
    var s6 := Next(s5, lockOf, Complete(call));
    Next(s6, lockOf, Commit(call, fate))
  }

  ghost predicate Told(s: System, t: System, scope: Scope, outcome: Outcome) {
    t.records == s.records && t.answers == s.answers + [Answer(scope, LifeOf(s, scope), outcome)]
  }

  lemma EndsBeforeClaim(s: System, lockOf: Scope -> Id, call: Id, scope: Scope, prepared: Option<Id>, ran: Option<(SafeResult, Id)>, fate: CommitFate)
    requires call !in s.calls && (lockOf(scope) in s.locks || prepared.None?)
    ensures Told(s, Uninterrupted(s, lockOf, call, scope, prepared, ran, fate), scope, if lockOf(scope) in s.locks then Busy else Error)
  {
  }

  lemma EndsOnReceipt(s: System, lockOf: Scope -> Id, call: Id, scope: Scope, fingerprint: Id, ran: Option<(SafeResult, Id)>, fate: CommitFate)
    requires call !in s.calls && lockOf(scope) !in s.locks && scope in s.records
    requires s.records[scope].fingerprint != fingerprint || s.records[scope].status != Failed
    ensures var row := s.records[scope];
            Told(s, Uninterrupted(s, lockOf, call, scope, Some(fingerprint), ran, fate), scope,
                 if row.fingerprint != fingerprint then KeyConflict
                 else if row.status == InProgress then Busy
                 else if row.response.None? || fate != Heard then Error
                 else Replayed(row.response.value))
  {
  }

  // The call has claimed its key: it holds the lock and nothing else has changed.
  lemma ReachesClaim(s: System, lockOf: Scope -> Id, call: Id, scope: Scope, fingerprint: Id)
    requires call !in s.calls && lockOf(scope) !in s.locks
    requires scope in s.records ==> s.records[scope].fingerprint == fingerprint && s.records[scope].status == Failed
    ensures Next(Next(Next(Next(s, lockOf, Begin(call, scope)), lockOf, TryLock(call)), lockOf, Prepare(call, Some(fingerprint))), lockOf, Claim(call))
            == s.(calls := s.calls[call := Call(scope, Claimed(fingerprint), s.now)], locks := s.locks[lockOf(scope) := call])
  {
    var calls := s.calls[call := Call(scope, Begun, s.now)][call := Call(scope, Locked, s.now)][call := Call(scope, Prepared(fingerprint), s.now)];
    assert calls[call := Call(scope, Claimed(fingerprint), s.now)] == s.calls[call := Call(scope, Claimed(fingerprint), s.now)];
  }

  lemma ClaimRunsOut(s: System, lockOf: Scope -> Id, call: Id, scope: Scope, fingerprint: Id, ran: Option<(SafeResult, Id)>, fate: CommitFate)
    requires call in s.calls && s.calls[call] == Call(scope, Claimed(fingerprint), s.now)
    ensures var t := Next(Next(Next(s, lockOf, Run(call, ran)), lockOf, Complete(call)), lockOf, Commit(call, fate));
            if ran.None? || !SafeStatus(ran.value.0) || fate == RolledBack then Told(s, t, scope, Error)
            else
              && t.records == s.records[scope := Record(fingerprint, Completed, Some(ran.value.0), s.now + 86400)]
              && t.answers == s.answers + [Answer(scope, LifeOf(s, scope), if fate == Heard then Created(ran.value.0, ran.value.1) else Error)]
  {
  }

  lemma EndsAfterClaim(s: System, lockOf: Scope -> Id, call: Id, scope: Scope, fingerprint: Id, ran: Option<(SafeResult, Id)>, fate: CommitFate)
    requires call !in s.calls && lockOf(scope) !in s.locks
    requires scope in s.records ==> s.records[scope].fingerprint == fingerprint && s.records[scope].status == Failed
    ensures var t := Uninterrupted(s, lockOf, call, scope, Some(fingerprint), ran, fate);
            if ran.None? || !SafeStatus(ran.value.0) || fate == RolledBack then Told(s, t, scope, Error)
            else
              && t.records == s.records[scope := Record(fingerprint, Completed, Some(ran.value.0), s.now + 86400)]
              && t.answers == s.answers + [Answer(scope, LifeOf(s, scope), if fate == Heard then Created(ran.value.0, ran.value.1) else Error)]
  {
    ReachesClaim(s, lockOf, call, scope, fingerprint);
    ClaimRunsOut(s.(calls := s.calls[call := Call(scope, Claimed(fingerprint), s.now)], locks := s.locks[lockOf(scope) := call]), lockOf, call, scope, fingerprint, ran, fate);
  }

  // The receipts table and the advisory locks other transactions hold.
  class Executor {
    var records: map<Scope, Record>
    var held: map<Id, Id>
    const lockOf: Scope -> Id

    constructor (lockOf: Scope -> Id)
      ensures this.lockOf == lockOf && records == map[] && held == map[]
    {
      this.lockOf := lockOf;
      records, held := map[], map[];
    }

    function Snapshot(now: int): System
      reads this
    {
      System(records, held, map[], map[], [], [], [], now)
    }

    // prepared and ran are what the caller's prepare and command return inside the transaction.
    method ExecutePrepared(call: Id, scope: Scope, prepared: Option<Id>, ran: Option<(SafeResult, Id)>, fate: CommitFate, now: int) returns (outcome: Outcome)
      modifies this`records
      ensures var t := Uninterrupted(old(Snapshot(now)), lockOf, call, scope, prepared, ran, fate);
              records == t.records && t.answers == [Answer(scope, 0, outcome)]
    {
      if lockOf(scope) in held {
        EndsBeforeClaim(Snapshot(now), lockOf, call, scope, prepared, ran, fate);
        return Busy;
      }
      if prepared.None? {
        EndsBeforeClaim(Snapshot(now), lockOf, call, scope, prepared, ran, fate);
        return Error;
      }
      var fingerprint := prepared.value;
      if scope in records {
        var row := records[scope];
        if row.fingerprint != fingerprint || row.status != Failed {
          EndsOnReceipt(Snapshot(now), lockOf, call, scope, fingerprint, ran, fate);
        }
        if row.fingerprint != fingerprint { return KeyConflict; }
        if row.status == Completed {
          if row.response.None? { return Error; }
          return if fate == Heard then Replayed(row.response.value) else Error;
        }
        if row.status != Failed { return Busy; }
      }
      EndsAfterClaim(Snapshot(now), lockOf, call, scope, fingerprint, ran, fate);
      if ran.None? { return Error; }
      var result, hook := ran.value.0, ran.value.1;
      if result.status != 200 && result.status != 201 { return Error; }
      if fate == RolledBack { return Error; }
      records := records[scope := Record(fingerprint, Completed, Some(result), now + TTL)];
      outcome := if fate == Heard then Created(result, hook) else Error;
    }
  }
}
