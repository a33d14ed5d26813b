/** Coalesced workspace tasks: a request that finds a task under way asks for one more run and waits. */
module Coalesce {
  import opened Common

  // One execution of the runner.
  datatype Run = Run(start: nat, finished: Option<bool>)

  // between: the runner has settled and the loop has not yet looked at the rerun flag.
  datatype Lock = Lock(rerun: bool, between: bool)

  // Requests in progress, by id, with their time of arrival; and those that returned normally, each with
  // the run that served it.
  datatype Service = Service(arrived: nat, run: nat)
  datatype State = State(lock: Option<Lock>, runs: seq<Run>, waiting: map<Id, nat>, served: map<Id, Service>, clock: nat)

  datatype Step =
    | Request(id: Id)
    | RunnerSettles(ok: bool)
    | LoopContinues

  function Begun(s: State): State {
    s.(runs := s.runs + [Run(s.clock, None)])
  }

  // runCoalescedWorkspaceTask, one atomic piece at a time.
  function Piece(s: State, step: Step): State {
    match step
    case Request(id) =>
      if id in s.waiting || id in s.served then s
      else
        var t := s.(waiting := s.waiting[id := s.clock]);
        (match s.lock
         case None => Begun(t).(lock := Some(Lock(false, false)))
         case Some(l) => t.(lock := Some(l.(rerun := true))))
    case RunnerSettles(ok) =>
      if s.lock.None? || s.lock.value.between || s.runs == [] then s
      else
        var n := |s.runs| - 1;
        s.(runs := s.runs[n := s.runs[n].(finished := Some(ok))], lock := Some(s.lock.value.(between := true)))
    case LoopContinues =>
      if s.lock.None? || !s.lock.value.between || s.runs == [] then s
      else
        var n := |s.runs| - 1;
        if s.runs[n].finished != Some(true) then s.(lock := None, waiting := map[])
        else if s.lock.value.rerun then Begun(s).(lock := Some(Lock(false, false)))
        else s.(lock := None, waiting := map[], served := s.served + map id | id in s.waiting :: Service(s.waiting[id], n))
  }

  function Next(s: State, step: Step): State {
    Piece(s, step).(clock := s.clock + 1)
  }

  // ---------- the invariant ----------

  // Runs follow one another: only the last may be unfinished, and only while the lock is held.
  ghost predicate OneAtATime(s: State) {
    && (forall i | 0 <= i < |s.runs| :: s.runs[i].start < s.clock)
    && (forall i | 0 <= i < |s.runs| - 1 :: s.runs[i].finished.Some?)
    && (s.lock.None? ==> forall i | 0 <= i < |s.runs| :: s.runs[i].finished.Some?)
    && (s.lock.Some? ==> s.runs != [] && (s.lock.value.between <==> s.runs[|s.runs| - 1].finished.Some?))
  }

  // A waiting request has asked for one more run, or the run under way began no earlier than it arrived.
  ghost predicate NobodyForgotten(s: State) {
    && (s.lock.None? ==> s.waiting == map[])
    && (forall id | id in s.waiting :: s.waiting[id] < s.clock)
    && (s.lock.Some? && s.runs != [] && !s.lock.value.rerun ==> forall id | id in s.waiting :: s.waiting[id] <= s.runs[|s.runs| - 1].start)
  }

  // Whoever returned normally was followed by a run that began no earlier and went to its end.
  ghost predicate ServedWell(s: State) {
    forall id | id in s.served :: Completed(s.runs, s.served[id])
  }

  ghost predicate Completed(runs: seq<Run>, service: Service) {
    service.run < |runs| && service.arrived <= runs[service.run].start && runs[service.run].finished == Some(true)
  }

  ghost predicate Inv(s: State) {
    OneAtATime(s) && NobodyForgotten(s) && ServedWell(s)
  }

  lemma RequestKeepsInv(s: State, id: Id)
    requires Inv(s)
    ensures Inv(Next(s, Request(id)))
  {
  }

  lemma SettleKeepsInv(s: State, ok: bool)
    requires Inv(s)
    ensures Inv(Next(s, RunnerSettles(ok)))
  {
  }

  lemma LoopKeepsInv(s: State)
    requires Inv(s)
    ensures Inv(Next(s, LoopContinues))
  {
  }

  lemma StepKeepsInv(s: State, step: Step)
    requires Inv(s)
    ensures Inv(Next(s, step))
  {
    match step
    case Request(id) => RequestKeepsInv(s, id);
    case RunnerSettles(ok) => SettleKeepsInv(s, ok);
    case LoopContinues => LoopKeepsInv(s);
  }

  function Idle(): State {
    State(None, [], map[], map[], 0)
  }

  function RunOf(steps: seq<Step>): State {
    if steps == [] then Idle() else Next(RunOf(steps[..|steps| - 1]), steps[|steps| - 1])
  }

  lemma {:induction false} EveryRunKeepsInv(steps: seq<Step>)
    ensures Inv(RunOf(steps))
  {
    if steps != [] {
      EveryRunKeepsInv(steps[..|steps| - 1]);
      StepKeepsInv(RunOf(steps[..|steps| - 1]), steps[|steps| - 1]);
    }
  }

  /** In every interleaving: runs never overlap, a request that returned normally was served by a complete
      run begun at or after it, and the lock is gone exactly when nobody waits. */
  lemma NoRequestIsLost(steps: seq<Step>, i: nat, j: nat, id: Id)
    ensures var s := RunOf(steps);
            && (i < j < |s.runs| ==> s.runs[i].finished.Some?)
            && (id in s.served ==> Completed(s.runs, s.served[id]))
            && (s.lock.None? ==> s.waiting == map[] && forall k | 0 <= k < |s.runs| :: s.runs[k].finished.Some?)
  {
    EveryRunKeepsInv(steps);
  }

  // A new request begins a run of its own, or asks the one under way for one more.
  lemma RequestIsTaken(s: State, id: Id)
    requires Inv(s) && id !in s.waiting && id !in s.served
    ensures var t := Next(s, Request(id));
            && t.waiting == s.waiting[id := s.clock] && t.served == s.served && t.lock.Some?
            && (s.lock.None? ==> t.runs == s.runs + [Run(s.clock, None)] && !t.lock.value.rerun && !t.lock.value.between)
            && (s.lock.Some? ==> t.runs == s.runs && t.lock.value == s.lock.value.(rerun := true))
  {
  }

  // What the loop does once its runner has settled: after a failure everybody is let go unserved; after a success with a
  // request come in meanwhile it runs once more for all; and otherwise everybody is served by the run just ended.
  lemma LoopReleasesIff(s: State)
    requires Inv(s) && s.lock.Some? && s.lock.value.between
    ensures var n, t := |s.runs| - 1, Next(s, LoopContinues);
            && n >= 0 && s.runs[n].finished.Some?
            && (t.lock.None? <==> !s.runs[n].finished.value || !s.lock.value.rerun)
            && (t.lock.None? ==> t.waiting == map[] && t.runs == s.runs)
            && (t.lock.Some? ==> t.waiting == s.waiting && t.runs == s.runs + [Run(s.clock, None)] && !t.lock.value.rerun && t.served == s.served)
            && (forall id | id in s.waiting :: id in t.served && id !in s.served ==> t.served[id] == Service(s.waiting[id], n))
            && (forall id | id in s.waiting && id !in s.served :: id in t.served <==> s.runs[n].finished.value && !s.lock.value.rerun)
  {
  }

  /** A request that comes while the loop is already to run once more costs no further run: from a run under way that
      succeeds, however many requests came in, one more serves them all. */
  lemma OneMoreServesAll(steps: seq<Step>)
    ensures var s := RunOf(steps);
            var t := RunOut(s, true);
            var u := RunOut(t, true);
            s.lock.Some? && !s.lock.value.between ==>
              && |t.runs| == (if s.lock.value.rerun then |s.runs| + 1 else |s.runs|) && u.lock.None? && |u.runs| == |t.runs|
              && forall id | id in s.waiting :: id in u.served
  {
    EveryRunKeepsInv(steps);
    FirstRunOut(RunOf(steps), true);
    LastRunOut(RunOut(RunOf(steps), true), true);
  }

  lemma RunOneMore(steps: seq<Step>, n: nat)
    requires n < |steps|
    ensures RunOf(steps[..n + 1]) == Next(RunOf(steps[..n]), steps[n])
  {
    assert steps[..n + 1][..n] == steps[..n];
  }

  // The runner settles and the loop looks at what has come in.
  function RunOut(s: State, ok: bool): State {
    Next(Next(s, RunnerSettles(ok)), LoopContinues)
  }

  ghost predicate Fine(s: State) {
    s.lock.Some? && s.runs != [] && s.lock.value.between ==> s.runs[|s.runs| - 1].finished == Some(true)
  }

  // No request is open, or a run is under way that no request came after.
  ghost predicate LastRun(s: State) {
    s.lock.Some? ==> !s.lock.value.between && !s.lock.value.rerun
  }

  lemma FirstRunOut(s: State, ok: bool)
    requires Inv(s)
    ensures var t := RunOut(s, ok);
            Inv(t) && LastRun(t) && (ok && Fine(s) ==> forall id | id in s.waiting :: id in t.waiting || id in t.served)
  {
    StepKeepsInv(s, RunnerSettles(ok));
    StepKeepsInv(Next(s, RunnerSettles(ok)), LoopContinues);
  }

  lemma LastRunOut(s: State, ok: bool)
    requires Inv(s) && LastRun(s)
    ensures var t := RunOut(s, ok);
            t.lock.None? && t.waiting == map[] && (forall id | id in s.served :: id in t.served) && (ok ==> forall id | id in s.waiting :: id in t.served)
  {
  }

  // Once requests stop coming, two runs are enough: whatever state was reached, after them the lock is free and
  // everybody has been let go, and served if both went well.
  lemma TwoRunsRelease(steps: seq<Step>, first: bool, second: bool)
    ensures var s := RunOf(steps);
            var t := RunOut(RunOut(s, first), second);
            t.lock.None? && t.waiting == map[] && (first && second && Fine(s) ==> forall id | id in s.waiting :: id in t.served)
  {
    EveryRunKeepsInv(steps);
    FirstRunOut(RunOf(steps), first);
    LastRunOut(RunOut(RunOf(steps), first), second);
  }

  lemma ThreeWait(a: Id, b: Id, c: Id)
    requires a != b && b != c && a != c
    ensures var s := RunOf([Request(a), Request(b), Request(c)]);
            && s.runs == [Run(0, None)] && s.lock == Some(Lock(true, false)) && s.clock == 3
            && s.waiting.Keys == {a, b, c} && s.served.Keys == {}
  {
    var steps := [Request(a), Request(b), Request(c)];
    assert steps[..0] == [];
    RunOneMore(steps, 0);
    RunOneMore(steps, 1);
    RunOneMore(steps, 2);
    assert steps[..3] == steps;
  }

  /** Three requests, two runs: the second and the third come during the first run and share the next, which serves all. */
  lemma ThreeRequestsTwoRuns(a: Id, b: Id, c: Id)
    requires a != b && b != c && a != c
    ensures var s := RunOf([Request(a), Request(b), Request(c)]);
            var t := RunOut(s, true);
            var u := RunOut(t, true);
            && |s.runs| == 1 && |t.runs| == 2 && t.lock.Some? && |u.runs| == 2 && u.lock.None? && a in u.served && b in u.served && c in u.served
  {
    ThreeWait(a, b, c);
    OneMoreServesAll([Request(a), Request(b), Request(c)]);
    EveryRunKeepsInv([Request(a), Request(b), Request(c)]);
    var s := RunOf([Request(a), Request(b), Request(c)]);
    StepKeepsInv(s, RunnerSettles(true));
    LoopReleasesIff(Next(s, RunnerSettles(true)));
  }
}
