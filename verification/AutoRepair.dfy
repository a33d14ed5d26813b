/** The auto-repair layer of one workspace: pausing arms at most one repair chain at a time, at most two
    between returns to live, and never leaves a paused workspace without either a chain or a verdict. A logout takes
    the claim away, and the chain that held it goes silent. */
module AutoRepair {
  import opened Common
  import J = Journal

  datatype Health = HealthLive | Recovering | Degraded | Other

  // Where a chain is: waiting for its first read, repairing, its repair settled, or its claim given up and
  // the leftover state about to be settled.
  datatype Chain = Started(action: J.Disposition) | Repairing(action: J.Disposition) | Repaired(failed: bool) | Settling(failed: bool)

  // flight: the claim that holds the workspace. armed counts chains armed since the last return to live.
  datatype State = State(journal: J.Journal, health: Health, attempts: nat, flight: Option<Id>, chains: map<Id, Chain>, armed: nat)

  const MAX_AUTO_REPAIR_ATTEMPTS := 2

  datatype Step =
    | PauseWorkspace(claim: Id, cursor: int, reason: J.Reason, repair: Option<J.Disposition>, written: bool)
    | ChainReads(claim: Id, selected: bool)
    | RepairEnds(claim: Id, failed: bool)
    | ChainGivesUpClaim(claim: Id)
    | ChainSettles(claim: Id, newClaim: Id, lastCursor: int, written: bool)
    | ReturnsToLive
    | Reset
    | JournalMoves(journal: J.Journal)

  // The journal pauseWorkspace leaves.
  function Gated(j: J.Journal, cursor: int, reason: J.Reason, repair: Option<J.Disposition>): J.Journal {
    var g := J.Gate(j, cursor, reason);
    var r := if repair.Some? then g.(disposition := repair) else g;
    if J.HasPending(r) then r.(disposition := Some(J.Rebuild)) else r
  }

  // pauseWorkspace: decide and claim in one slot. A failed write leaves the stored state as it was and gives
  // the claim back.
  function Pausing(s: State, claim: Id, cursor: int, reason: J.Reason, repair: Option<J.Disposition>, written: bool): State {
    if !written then s
    else
      var j := Gated(s.journal, cursor, reason, repair);
      var action := if s.flight.Some? || s.attempts >= MAX_AUTO_REPAIR_ATTEMPTS then None else J.PlanAutoRepair(j);
      if s.flight.Some? then s.(journal := j, health := Recovering)
      else if action.Some? then
        s.(journal := j, health := Recovering, attempts := s.attempts + 1, flight := Some(claim),
           chains := s.chains[claim := Started(action.value)], armed := s.armed + 1)
      else s.(journal := j, health := Degraded)
  }

  // settleAfterAutoRepair.
  function SettleAfter(s: State, claim: Id, newClaim: Id, lastCursor: int, failed: bool, written: bool): State {
    var t := s.(chains := s.chains - {claim});
    if s.journal.phase == J.Paused && s.journal.pauseReason.Some? then
      Pausing(t, newClaim, if s.journal.failedCursor.Some? then s.journal.failedCursor.value else lastCursor, s.journal.pauseReason.value, s.journal.disposition, written)
    else if failed && s.health == Recovering && written then t.(health := Degraded)
    else t
  }

  function Next(s: State, step: Step): State {
    match step
    case PauseWorkspace(claim, cursor, reason, repair, written) =>
      if claim in s.chains then s else Pausing(s, claim, cursor, reason, repair, written)
    case ChainReads(claim, selected) =>
      if claim in s.chains && s.chains[claim].Started? then
        s.(chains := s.chains[claim := if selected && s.flight == Some(claim) then Repairing(s.chains[claim].action) else Repaired(false)])
      else s
    case RepairEnds(claim, failed) =>
      if claim in s.chains && s.chains[claim].Repairing? then s.(chains := s.chains[claim := Repaired(failed)]) else s
    case ChainGivesUpClaim(claim) =>
      if claim in s.chains && s.chains[claim].Repaired? then
        (if s.flight == Some(claim) then s.(flight := None, chains := s.chains[claim := Settling(s.chains[claim].failed)])
         else s.(chains := s.chains - {claim}))
      else s
    case ChainSettles(claim, newClaim, lastCursor, written) =>
      if claim in s.chains && s.chains[claim].Settling? && newClaim !in s.chains then
        SettleAfter(s, claim, newClaim, lastCursor, s.chains[claim].failed, written)
      else s
    case ReturnsToLive =>
      s.(journal := s.journal.(phase := J.Live, pauseReason := None, failedCursor := None), health := HealthLive, attempts := 0, armed := 0)
    case Reset => s.(flight := None)
    case JournalMoves(j) => s.(journal := j)
  }

  // ---------- the invariant ----------

  predicate Owns(c: Chain) {
    !c.Settling?
  }

  ghost predicate Inv(s: State) {
    && s.armed == s.attempts <= MAX_AUTO_REPAIR_ATTEMPTS
    && (s.flight.Some? ==> s.flight.value in s.chains && Owns(s.chains[s.flight.value]))
  }

  // No chain works without the claim.
  ghost predicate Sole(s: State) {
    forall c | c in s.chains && Owns(s.chains[c]) :: s.flight == Some(c)
  }

  lemma StepKeepsInv(s: State, step: Step)
    requires Inv(s)
    ensures Inv(Next(s, step))
    ensures Sole(s) && !step.Reset? ==> Sole(Next(s, step))
  {
  }

  function Calm(j: J.Journal): State {
    State(j, HealthLive, 0, None, map[], 0)
  }

  function RunOf(j: J.Journal, steps: seq<Step>): State {
    if steps == [] then Calm(j) else Next(RunOf(j, steps[..|steps| - 1]), steps[|steps| - 1])
  }

  lemma {:induction false} EveryRunKeepsInv(j: J.Journal, steps: seq<Step>)
    ensures Inv(RunOf(j, steps))
    ensures Reset !in steps ==> Sole(RunOf(j, steps))
  {
    if steps != [] {
      EveryRunKeepsInv(j, steps[..|steps| - 1]);
      StepKeepsInv(RunOf(j, steps[..|steps| - 1]), steps[|steps| - 1]);
    }
  }

  /** In every interleaving at most two chains have been armed since the last return to live, and until a logout at
      most one of them is at work. */
  lemma BoundedRepair(j: J.Journal, steps: seq<Step>, c: Id, d: Id)
    ensures var s := RunOf(j, steps);
            && s.armed <= 2
            && (Reset !in steps && c in s.chains && d in s.chains && Owns(s.chains[c]) && Owns(s.chains[d]) ==> c == d)
  {
    EveryRunKeepsInv(j, steps);
  }

  predicate IsOf(step: Step, claim: Id) {
    (step.ChainReads? || step.RepairEnds? || step.ChainGivesUpClaim? || step.ChainSettles?) && step.claim == claim
  }

  /** A chain whose claim was taken away ends without a trace: whatever happens around it, it begins no repair, it
      never settles, and its own steps change neither journal, health, budget nor the claim. */
  lemma {:induction false} TakenChainIsSilent(s: State, steps: seq<Step>, claim: Id)
    requires Inv(s) && claim in s.chains && Owns(s.chains[claim]) && s.flight != Some(claim)
    requires forall step | step in steps :: !(step.PauseWorkspace? && step.claim == claim) && !(step.ChainSettles? && step.newClaim == claim)
    ensures var t := After(s, steps);
            && t.flight != Some(claim)
            && (claim in t.chains ==> Owns(t.chains[claim]) && (t.chains[claim].Repairing? ==> s.chains[claim].Repairing?))
    ensures forall step | IsOf(step, claim) ::
              var t := Next(s, step); t.journal == s.journal && t.health == s.health && t.attempts == s.attempts && t.flight == s.flight
    decreases |steps|
  {
    if steps != [] {
      assert steps[0] in steps;
      StepKeepsInv(s, steps[0]);
      var t := Next(s, steps[0]);
      if claim in t.chains { TakenChainIsSilent(t, steps[1..], claim); } else { GoneChainStaysGone(t, steps[1..], claim); }
    }
  }

  lemma {:induction false} GoneChainStaysGone(s: State, steps: seq<Step>, claim: Id)
    requires Inv(s) && claim !in s.chains
    requires forall step | step in steps :: !(step.PauseWorkspace? && step.claim == claim) && !(step.ChainSettles? && step.newClaim == claim)
    ensures claim !in After(s, steps).chains && After(s, steps).flight != Some(claim)
    decreases |steps|
  {
    if steps != [] {
      assert steps[0] in steps;
      StepKeepsInv(s, steps[0]);
      GoneChainStaysGone(Next(s, steps[0]), steps[1..], claim);
    }
  }

  // Somebody will still deal with the pause: it has its verdict, a chain holds it, or a chain is about to settle it.
  ghost predicate Attended(s: State) {
    && s.journal.phase == J.Paused && s.journal.pauseReason.Some?
    && (s.health == Degraded || (s.health == Recovering && (s.flight.Some? || exists c :: c in s.chains && s.chains[c].Settling?)))
  }

  // The step neither fails to write nor takes the claim away nor leaves the pause.
  predicate Keeps(step: Step) {
    && !step.Reset? && !step.ReturnsToLive?
    && (step.PauseWorkspace? || step.ChainSettles? ==> step.written)
    && (step.JournalMoves? ==> step.journal.phase == J.Paused && step.journal.pauseReason.Some?)
  }

  lemma StepKeepsAttended(s: State, step: Step)
    requires Inv(s) && Attended(s) && Keeps(step)
    ensures Attended(Next(s, step))
  {
    if s.health == Recovering && s.flight.None? {
      var c :| c in s.chains && s.chains[c].Settling?;
      assert !(step.ChainSettles? && step.claim == c) ==> Next(s, step).health == Degraded || Next(s, step).flight.Some? || (c in Next(s, step).chains && Next(s, step).chains[c].Settling?);
    } else if step.ChainGivesUpClaim? && s.flight == Some(step.claim) && s.chains[step.claim].Repaired? {
      assert Next(s, step).chains[step.claim].Settling?;
    }
  }

  /** A paused workspace is never left alone: however chains, callers and journal writes interleave, from a pause on it
      is degraded, or recovering with a chain that holds it or is about to settle it. */
  lemma {:induction false} PausedIsAttended(s: State, first: Step, steps: seq<Step>)
    requires Inv(s) && first.PauseWorkspace? && first.written && first.claim !in s.chains
    requires forall step | step in steps :: Keeps(step)
    ensures Inv(After(Next(s, first), steps)) && Attended(After(Next(s, first), steps))
  {
    StepKeepsInv(s, first);
    AttendedOn(Next(s, first), steps);
  }

  lemma {:induction false} AttendedOn(s: State, steps: seq<Step>)
    requires Inv(s) && Attended(s) && forall step | step in steps :: Keeps(step)
    ensures Inv(After(s, steps)) && Attended(After(s, steps))
    decreases |steps|
  {
    if steps != [] {
      assert steps[0] in steps;
      StepKeepsInv(s, steps[0]);
      StepKeepsAttended(s, steps[0]);
      AttendedOn(Next(s, steps[0]), steps[1..]);
    }
  }

  // A chain that settles on a journal no longer paused degrades a recovering workspace exactly when its repair reported
  // a failure, and otherwise leaves it as it is.
  lemma SettlesQuietlyIff(s: State, step: Step)
    requires step.ChainSettles? && step.claim in s.chains && s.chains[step.claim].Settling? && step.newClaim !in s.chains
    requires !(s.journal.phase == J.Paused && s.journal.pauseReason.Some?)
    ensures var t := Next(s, step);
            && t.journal == s.journal && t.flight == s.flight && t.attempts == s.attempts && step.claim !in t.chains
            && (t.health == s.health <==> !(s.health == Recovering && s.chains[step.claim].failed && step.written))
            && (t.health == s.health || t.health == Degraded)
  {
  }

  // A chain's whole way with a repair that fails.
  function FailedRepair(s: State, claim: Id, newClaim: Id, lastCursor: int): State {
    Next(Next(Next(Next(s, ChainReads(claim, true)), RepairEnds(claim, true)), ChainGivesUpClaim(claim)), ChainSettles(claim, newClaim, lastCursor, true))
  }

  lemma FailedRepairPausesAgain(s: State, claim: Id, newClaim: Id, lastCursor: int)
    requires Inv(s) && s.flight == Some(claim) && s.chains[claim].Started? && newClaim !in s.chains
    requires s.journal.phase == J.Paused && s.journal.pauseReason.Some? && s.journal.failedCursor.Some?
    ensures var j := s.journal;
            FailedRepair(s, claim, newClaim, lastCursor)
              == Pausing(s.(flight := None, chains := s.chains - {claim}), newClaim, j.failedCursor.value, j.pauseReason.value, j.disposition, true)
  {
    var s1 := Next(s, ChainReads(claim, true));
    var s2 := Next(s1, RepairEnds(claim, true));
    var s3 := Next(s2, ChainGivesUpClaim(claim));
    assert s3.chains - {claim} == s.chains - {claim};
  }

  /** The bound is met: two chains in a row may repair and fail, and then the workspace is degraded with the budget
      spent. */
  lemma TwoRepairsThenDegraded(j: J.Journal, cursor: int, reason: J.Reason)
    requires J.Pending(j.receipts) == [] && reason != J.BootstrapRequired
    ensures var pause, settle := PauseWorkspace(1, cursor, reason, None, true), ChainSettles(1, 2, cursor, true);
            var s1 := Next(Calm(j), pause);
            var s2 := Next(Next(Next(Next(s1, ChainReads(1, true)), RepairEnds(1, true)), ChainGivesUpClaim(1)), settle);
            var s3 := Next(Next(Next(Next(s2, ChainReads(2, true)), RepairEnds(2, true)), ChainGivesUpClaim(2)), ChainSettles(2, 3, cursor, true));
            && s1.flight == Some(1) && s1.attempts == 1 && s2.flight == Some(2) && s2.attempts == 2 && s2.health == Recovering
            && s3.flight.None? && s3.attempts == 2 && s3.health == Degraded && s3.journal.phase == J.Paused
  {
    var g := J.Gate(j, cursor, reason);
    J.PendingIff(g);
    var s1 := Next(Calm(j), PauseWorkspace(1, cursor, reason, None, true));
    assert s1 == State(g, Recovering, 1, Some(1), map[][1 := Started(J.Retry)], 1);
    FailedRepairPausesAgain(s1, 1, 2, cursor);
    var s2 := FailedRepair(s1, 1, 2, cursor);
    assert s2.journal == g && s2.flight == Some(2) && s2.attempts == 2 && s2.chains[2] == Started(J.Retry) && 3 !in s2.chains;
    FailedRepairPausesAgain(s2, 2, 3, cursor);
  }

  // Pausing leaves the workspace paused, and either degraded or with a chain in flight.
  lemma PausedHasChainOrVerdict(s: State, step: Step)
    requires Inv(s) && step.PauseWorkspace? && step.written && step.claim !in s.chains
    ensures var t := Next(s, step);
            && t.journal.phase == J.Paused && t.journal.pauseReason == Some(step.reason)
            && (t.flight.Some? <==> t.health == Recovering) && (t.flight.None? <==> t.health == Degraded)
  {
  }

  // The journal a pause leaves: at the failed cursor with the reason given, asking for a rebuild exactly when a remote
  // effect is pending, the caller asked for one, or the reason does.
  lemma PausedJournalIs(s: State, step: Step)
    requires step.PauseWorkspace? && step.written && step.claim !in s.chains
    ensures var j, k := s.journal, Next(s, step).journal;
            && k.phase == J.Paused && k.pauseReason == Some(step.reason) && k.failedCursor == Some(step.cursor)
            && k.receipts == j.receipts && k.intents == j.intents && k.operations == j.operations
            && k.disposition == Some(if J.Pending(j.receipts) != [] || step.repair == Some(J.Rebuild) || (step.repair.None? && step.reason == J.BootstrapRequired)
                                     then J.Rebuild else J.Retry)
  {
    var g := J.Gate(s.journal, step.cursor, step.reason);
    J.PendingIff(if step.repair.Some? then g.(disposition := step.repair) else g);
    assert step.repair.Some? ==> step.repair.value == J.Retry || step.repair.value == J.Rebuild;
  }

  // The layer takes the pause up exactly as PauseWorkspace would, at the journal's failed cursor, or at the last cursor
  // when the journal names none.
  lemma SettlingPausesAgain(s: State, step: Step)
    requires step.ChainSettles? && step.written && step.claim in s.chains && s.chains[step.claim].Settling? && step.newClaim !in s.chains
    requires s.journal.phase == J.Paused && s.journal.pauseReason.Some?
    ensures var j, k := s.journal, Next(s, step).journal;
            && step.claim !in Next(s, step).chains
            && k.phase == J.Paused && k.pauseReason == j.pauseReason
            && k.failedCursor == Some(if j.failedCursor.Some? then j.failedCursor.value else step.lastCursor)
            && k.receipts == j.receipts && k.intents == j.intents && k.operations == j.operations
  {
  }

  // So does a chain that settles on a journal still paused.
  lemma SettledHasChainOrVerdict(s: State, step: Step)
    requires Inv(s) && step.ChainSettles? && step.written && step.claim in s.chains && s.chains[step.claim].Settling?
    requires step.newClaim !in s.chains
    requires s.journal.phase == J.Paused && s.journal.pauseReason.Some?
    ensures var t := Next(s, step);
            && t.journal.phase == J.Paused
            && (t.flight.Some? <==> t.health == Recovering) && (t.flight.None? <==> t.health == Degraded)
  {
  }

  // Which of the two, exactly: with nothing in flight a chain is armed when fewer than two have been and there is a
  // repair that loses nothing; it retries where a retry of the journal left would resume and rebuilds otherwise.
  lemma PauseArmsIff(s: State, step: Step)
    requires Inv(s) && step.PauseWorkspace? && step.written && step.claim !in s.chains && s.flight.None?
    ensures var t := Next(s, step);
            var retries := t.journal.disposition != Some(J.Rebuild) && step.reason != J.BootstrapRequired;
            && (t.flight == Some(step.claim) <==> s.attempts < 2 && (retries || forall x | x in s.journal.intents :: x.status == J.Acked))
            && (t.flight == Some(step.claim) ==>
                  && t.chains == s.chains[step.claim := Started(if retries then J.Retry else J.Rebuild)]
                  && t.attempts == s.attempts + 1 && t.health == Recovering)
            && (t.flight != Some(step.claim) ==> t.flight.None? && t.chains == s.chains && t.attempts == s.attempts && t.health == Degraded)
            && (retries <==> J.RetryJournal(t.journal).phase == J.Replay)
  {
  }

  // While a chain is in flight a pause only waits for it.
  lemma PauseWaitsForTheChain(s: State, step: Step)
    requires step.PauseWorkspace? && step.written && step.claim !in s.chains && s.flight.Some?
    ensures var t := Next(s, step); t.flight == s.flight && t.chains == s.chains && t.attempts == s.attempts && t.health == Recovering
  {
  }

  // A pause that could not be written leaves everything as it was.
  lemma FailedPauseIsNone(s: State, step: Step)
    requires step.PauseWorkspace? && !step.written
    ensures Next(s, step) == s
  {
  }

  // A chain's way: it repairs only while it holds the claim, gives it up after its repair, and settles then.
  lemma ChainRepairsIff(s: State, claim: Id, selected: bool, failed: bool)
    requires Inv(s) && claim in s.chains
    ensures var t := Next(s, ChainReads(claim, selected));
            s.chains[claim].Started? ==>
              && t == s.(chains := t.chains) && claim in t.chains
              && (t.chains[claim] == Repairing(s.chains[claim].action) <==> selected && s.flight == Some(claim))
              && (t.chains[claim] == Repaired(false) <==> !(selected && s.flight == Some(claim)))
    ensures var t := Next(s, RepairEnds(claim, failed));
            s.chains[claim].Repairing? ==> t == s.(chains := t.chains) && claim in t.chains && t.chains[claim] == Repaired(failed)
    ensures var t := Next(s, ChainGivesUpClaim(claim));
            s.chains[claim].Repaired? ==>
              && t.flight == (if s.flight == Some(claim) then None else s.flight) && t.journal == s.journal && t.health == s.health && t.attempts == s.attempts
              && (claim in t.chains <==> s.flight == Some(claim)) && (claim in t.chains ==> t.chains[claim] == Settling(s.chains[claim].failed))
  {
  }

  // A return to live ends the pause and gives the whole budget back.
  lemma LiveRestoresBudget(s: State)
    ensures var t := Next(s, ReturnsToLive);
            && t.journal.phase == J.Live && t.journal.pauseReason.None? && t.journal.failedCursor.None? && t.health == HealthLive && t.attempts == 0
            && t.journal.intents == s.journal.intents && t.journal.receipts == s.journal.receipts && t.flight == s.flight && t.chains == s.chains
  {
  }

  // A chain never rebuilds over a change that is not acknowledged at the time it is armed.
  lemma ArmedRebuildLosesNothing(s: State, step: Step)
    requires Inv(s) && step.PauseWorkspace? && step.claim !in s.chains && s.flight.None?
    requires Next(s, step).flight == Some(step.claim) && Next(s, step).chains[step.claim] == Started(J.Rebuild)
    ensures forall x | x in s.journal.intents :: x.status == J.Acked
  {
    J.AutoRepairChoices(Gated(s.journal, step.cursor, step.reason, step.repair));
  }

  // Between the arming and the rebuild the journal moves on. A change is lost then if and only if it is captured
  // in between and not acknowledged before the rebuild comes.
  lemma RebuildAfterGapLosesIff(s: State, step: Step, gap: seq<J.Step>, canonical: string -> string, p: J.Payload)
    requires Inv(s) && step.PauseWorkspace? && step.claim !in s.chains && s.flight.None?
    requires Next(s, step).flight == Some(step.claim) && Next(s, step).chains[step.claim] == Started(J.Rebuild)
    requires forall g | g in gap :: !g.RebuildPressed?
    ensures var t := Next(s, step);
            var late := J.After(t.journal, gap, canonical);
            var u := Next(Next(t, JournalMoves(late)), ChainReads(step.claim, true));
            && !J.Owed(t.journal.intents, p)
            && u.chains[step.claim] == Repairing(J.Rebuild) && u.journal == late
            && (J.Owed(late.intents, p) && !J.Owed(J.RebuildJournal(late).intents, p) <==> J.CapturedUnacked(t.journal, gap, canonical, p))
  {
    var t := Next(s, step);
    var late := J.After(t.journal, gap, canonical);
    ArmedRebuildLosesNothing(s, step);
    J.OwedAfterIff(t.journal, gap, canonical, p);
    J.AckedMembers(late.intents);
  }

  // A pause the layer is not told of, as that of a rejected callback, is repaired by nobody: until the workspace is
  // paused once more or returns to live no chain is armed.
  lemma {:induction false} UntoldPauseWaits(s: State, steps: seq<Step>)
    requires Inv(s) && s.journal.phase == J.Paused && forall c :: c !in s.chains
    requires forall step | step in steps :: !step.PauseWorkspace? && !step.ReturnsToLive? && (step.JournalMoves? ==> step.journal.phase == J.Paused)
    ensures var t := After(s, steps);
            t.journal.phase == J.Paused && t.flight.None? && t.health == s.health && t.attempts == s.attempts && forall c :: c !in t.chains
    decreases |steps|
  {
    if steps != [] {
      assert steps[0] in steps;
      StepKeepsInv(s, steps[0]);
      UntoldPauseWaits(Next(s, steps[0]), steps[1..]);
    }
  }

  function After(s: State, steps: seq<Step>): State
    decreases |steps|
  {
    if steps == [] then s else After(Next(s, steps[0]), steps[1..])
  }

  lemma {:induction false} AfterSnoc(s: State, steps: seq<Step>, step: Step)
    ensures After(s, steps + [step]) == Next(After(s, steps), step)
    decreases |steps|
  {
    if steps == [] {
      assert ([] + [step])[1..] == [];
    } else {
      AfterSnoc(Next(s, steps[0]), steps[1..], step);
      assert (steps + [step])[1..] == steps[1..] + [step];
    }
  }

  // Both ways of running say the same.
  lemma {:induction false} RunIsAfter(j: J.Journal, steps: seq<Step>)
    ensures RunOf(j, steps) == After(Calm(j), steps)
  {
    if steps != [] {
      var n := |steps| - 1;
      RunIsAfter(j, steps[..n]);
      AfterSnoc(Calm(j), steps[..n], steps[n]);
      assert steps[..n] + [steps[n]] == steps;
    }
  }

  // The shortest losing gap: one change captured between the arming and the rebuild, and not known before.
  lemma ChangeInTheGapIsDropped(s: State, step: Step, canonical: string -> string, p: J.Payload)
    requires Inv(s) && step.PauseWorkspace? && step.claim !in s.chains && s.flight.None?
    requires Next(s, step).flight == Some(step.claim) && Next(s, step).chains[step.claim] == Started(J.Rebuild)
    requires !J.Intended(s.journal.intents, p)
    ensures var late := J.After(Next(s, step).journal, [J.LocalChange(p)], canonical);
            J.Owed(late.intents, p) && !J.Owed(J.RebuildJournal(late).intents, p)
  {
    var t := Next(s, step);
    var late := J.After(t.journal, [J.LocalChange(p)], canonical);
    assert [J.LocalChange(p)][1..] == [];
    assert late == J.After(J.Reduce(t.journal, J.LocalChange(p), canonical), [], canonical);
    var k := J.MakeRoom(t.journal.intents) + [J.Intent(p, J.Queued)];
    assert k[|k| - 1] in k;
    J.OnlyRebuildDropsOwed(late, J.RebuildPressed, canonical, p);
  }

  // How much repairing is still possible without a return to live: every chain a settling chain arms costs
  // one of the attempts left.
  function Budget(s: State): int {
    2 - s.attempts
  }

  lemma ArmingSpendsBudget(s: State, step: Step)
    requires Inv(s) && !step.ReturnsToLive?
    ensures var t := Next(s, step);
            && 0 <= Budget(t) <= Budget(s)
            && (t.flight.Some? && t.flight != s.flight ==> Budget(t) == Budget(s) - 1)
  {
  }
}
