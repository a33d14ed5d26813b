/** The extension and the server exchanging refresh tokens: the extension saves its attempt before sending
    it, messages are lost, delayed and delivered again, and the service worker dies at any moment. */
module Session {
  import opened Common
  import opened RefreshTokens

  // What local storage holds.
  datatype Private = Private(token: Token, pending: Option<Id>)

  // refresh() between its awaits: after reading storage, after saving the attempt, after sending.
  datatype Flight =
    | Reading(epoch: nat, token: Token, pending: Option<Id>)
    | Saved(epoch: nat, token: Token, attempt: Id)
    | Waiting(epoch: nat, token: Token, attempt: Id)

  datatype Sent = Sent(token: Token, attempt: Id)
  datatype Answer = Answer(sent: Sent, result: Result<Token, RefreshError>)

  // sent: every request ever put on the network; own: the families this client ever logged in to.
  datatype World = World(server: Server, stored: Option<Private>, epoch: nat, flight: Option<Flight>,
                         sent: set<Sent>, answers: set<Answer>, own: set<Id>, now: int)

  datatype Who = Who(device: Id, user: Id, client: Id)

  datatype Step =
    | StartRead
    | SaveAttempt(newAttempt: Id)
    | Send
    | Deliver(request: Sent)
    | Receive(answer: Answer)
    | NetworkFailure
    | Crash
    | Tick(seconds: nat)
    | Login(newFamily: Id)
    | ClearSession
    | Elsewhere(other: Request)

  ghost predicate Enabled(w: World, me: Who, step: Step) {
    match step
    case StartRead => w.flight.None?
    case SaveAttempt(_) => w.flight.Some? && w.flight.value.Reading?
    case Send => w.flight.Some? && w.flight.value.Saved?
    case Deliver(request) => request in w.sent
    case Receive(answer) =>
      && w.flight.Some? && w.flight.value.Waiting? && answer in w.answers
      && answer.sent == Sent(w.flight.value.token, w.flight.value.attempt)
    case NetworkFailure => w.flight.Some? && w.flight.value.Waiting?
    case Crash => true
    case Tick(_) => true
    case Login(f) => NewFamilyId(w.server, f) && IsDevice(w.server, me.device, me.user, me.client)
    case ClearSession => true
    case Elsewhere(r) => (r.Create? ==> NewFamilyId(w.server, r.newFamily)) && (r.Refresh? ==> RootOf(r.token) !in w.own)
  }

  function Next(w: World, me: Who, step: Step): World {
    match step
    case StartRead =>
      (match w.stored
       case None => w.(flight := None)
       case Some(p) => w.(flight := Some(Reading(w.epoch, p.token, p.pending))))
    case SaveAttempt(newAttempt) =>
      (match w.flight
       case Some(Reading(epoch, token, pending)) =>
         (match pending
          case Some(a) => w.(flight := Some(Saved(epoch, token, a)))
          case None => w.(stored := Some(Private(token, Some(newAttempt))), flight := Some(Saved(epoch, token, newAttempt))))
       case _ => w)
    case Send =>
      (match w.flight
       case Some(Saved(epoch, token, a)) => w.(sent := w.sent + {Sent(token, a)}, flight := Some(Waiting(epoch, token, a)))
       case _ => w)
    case Deliver(request) =>
      var r := Rotate(w.server, request.token, Some(request.attempt), Some(me.client), w.now);
      w.(server := r.0, answers := w.answers + {Answer(request, r.1)})
    case Receive(answer) =>
      (match w.flight
       case Some(Waiting(epoch, _, _)) =>
         (match answer.result
          case Err(Unauthorized) => w.(stored := None, flight := None)
          case Err(Unavailable) => w.(flight := None)
          case Ok(next) => if epoch == w.epoch then w.(stored := Some(Private(next, None)), flight := None) else w.(flight := None))
       case _ => w)
    case NetworkFailure => w.(flight := None)
    case Crash => w.(flight := None, epoch := 0)
    case Tick(seconds) => w.(now := w.now + seconds)
    case Login(f) =>
      w.(server := CreateFamily(w.server, me.device, me.user, me.client, f).0, stored := Some(Private(Initial(f), None)),
         epoch := w.epoch + 1, own := w.own + {f})
    case ClearSession => w.(stored := None, epoch := w.epoch + 1)
    case Elsewhere(r) => w.(server := Serve(w.server, r))
  }

  // The retry window is met by every delivery of a retired token; nobody logs in while a refresh is under
  // way, or clears the session between its read and its write of storage.
  ghost predicate Orderly(w: World, me: Who, step: Step) {
    match step
    case Deliver(request) =>
      Selected(w.server, request.token, Some(me.client)) && w.server.tokens[request.token].retired.Some? ==>
        w.now < w.server.tokens[request.token].retired.value.retryUntil
    case Login(_) => w.flight.None?
    case ClearSession => w.flight.None? || w.flight.value.Waiting?
    case _ => true
  }

  // ---------- the invariant ----------

  ghost predicate OneAttemptPerToken(sent: set<Sent>) {
    forall a, b | a in sent && b in sent && a.token == b.token :: a == b
  }

  // Own tokens are retired only by requests this client sent.
  ghost predicate RetiredBySent(w: World) {
    forall t | t in w.server.tokens && RootOf(t) in w.own && w.server.tokens[t].retired.Some? ::
      Sent(t, w.server.tokens[t].retired.value.attempt) in w.sent
  }

  ghost predicate SentKnown(w: World) {
    forall r | r in w.sent :: r.token in w.server.tokens && RootOf(r.token) in w.own
  }

  // No request went out for a token later than the stored one, and those for it carry the stored attempt.
  ghost predicate StoredIsLatest(p: Private, sent: set<Sent>) {
    forall r | r in sent && RootOf(r.token) == RootOf(p.token) ::
      Depth(r.token) <= Depth(p.token) && (Depth(r.token) == Depth(p.token) ==> r.token == p.token && p.pending == Some(r.attempt))
  }

  ghost predicate StoredKnown(w: World) {
    match w.stored
    case None => true
    case Some(p) => p.token in w.server.tokens && RootOf(p.token) in w.own && StoredIsLatest(p, w.sent)
  }

  ghost predicate FlightTold(w: World) {
    match w.flight
    case None => true
    case Some(Reading(epoch, token, pending)) => epoch == w.epoch && w.stored == Some(Private(token, pending))
    case Some(Saved(epoch, token, a)) => epoch == w.epoch && w.stored == Some(Private(token, Some(a)))
    case Some(Waiting(epoch, token, a)) => Sent(token, a) in w.sent && (epoch == w.epoch ==> w.stored == Some(Private(token, Some(a)))) && epoch <= w.epoch
  }

  ghost predicate AnswersKnown(w: World) {
    forall x | x in w.answers && x.result.Ok? ::
      x.sent in w.sent && x.result.value == Child(x.sent.token, x.sent.attempt) && x.result.value in w.server.tokens
  }

  ghost predicate NoReuse(w: World) {
    w.own <= w.server.families.Keys && forall f | f in w.own :: !w.server.families[f].reuseDetected
  }

  ghost predicate Safe(w: World) {
    && RefreshTokens.Inv(w.server)
    && SentKnown(w) && OneAttemptPerToken(w.sent) && RetiredBySent(w)
    && StoredKnown(w) && FlightTold(w) && AnswersKnown(w) && NoReuse(w)
  }

  // ---------- every orderly step keeps it ----------

  // The server knows no less, and of the client's own families nothing but revocation has changed.
  ghost predicate OwnUntouched(s: Server, t: Server, own: set<Id>) {
    && (forall x | x in s.tokens :: x in t.tokens)
    && (forall x | x in t.tokens && RootOf(x) in own :: x in s.tokens && t.tokens[x] == s.tokens[x])
    && s.families.Keys <= t.families.Keys
    && (forall f | f in own && f in s.families :: t.families[f].reuseDetected == s.families[f].reuseDetected)
  }

  lemma ElsewhereLeavesOwn(s: Server, r: Request, own: set<Id>)
    requires RefreshTokens.Inv(s) && own <= s.families.Keys
    requires (r.Create? ==> NewFamilyId(s, r.newFamily)) && (r.Refresh? ==> RootOf(r.token) !in own)
    ensures OwnUntouched(s, Serve(s, r), own)
  {
    match r
    case Create(_, _, _, _) =>
    case Refresh(token, attempt, from, now) => RefreshLeavesOwn(s, token, attempt, from, now, own);
    case SignOut(_, _) =>
    case SignOutEverywhere(_) =>
  }

  lemma RefreshLeavesOwn(s: Server, token: Token, attempt: Option<Id>, from: Option<Id>, now: int, own: set<Id>)
    requires RefreshTokens.Inv(s) && RootOf(token) !in own
    ensures OwnUntouched(s, Rotate(s, token, attempt, from, now).0, own)
  {
    if token in s.tokens {
      FamilyIsRoot(s, token);
    }
  }

  lemma ElsewhereKeepsSafe(w: World, me: Who, r: Request)
    requires Safe(w) && Enabled(w, me, Elsewhere(r))
    ensures Safe(Next(w, me, Elsewhere(r)))
  {
    ServeKeepsInv(w.server, r);
    ElsewhereLeavesOwn(w.server, r, w.own);
  }

  lemma LoginKeepsSafe(w: World, me: Who, f: Id)
    requires Safe(w) && Enabled(w, me, Login(f)) && w.flight.None?
    ensures Safe(Next(w, me, Login(f)))
  {
    var t := CreateFamily(w.server, me.device, me.user, me.client, f).0;
    ServeKeepsInv(w.server, Create(me.device, me.user, me.client, f));
    ElsewhereLeavesOwn(w.server, Create(me.device, me.user, me.client, f), w.own);
    var u := Next(w, me, Login(f));
    forall x | x in t.tokens && RootOf(x) == f ensures x == Initial(f) {
      FamilyIsRoot(t, x);
    }
  }

  lemma SaveKeepsSafe(w: World, me: Who, a: Id)
    requires Safe(w) && Enabled(w, me, SaveAttempt(a))
    ensures Safe(Next(w, me, SaveAttempt(a)))
  {
    var p := w.stored.value;
    forall r | r in w.sent && RootOf(r.token) == RootOf(p.token) && p.pending.None? ensures Depth(r.token) < Depth(p.token) {
    }
  }

  lemma SendKeepsSafe(w: World, me: Who)
    requires Safe(w) && Enabled(w, me, Send)
    ensures Safe(Next(w, me, Send))
  {
  }

  // A delivery of an own token inside the window is answered with the child of its saved attempt; the
  // reuse branch is not reached.
  lemma DeliveryNeverLooksLikeReuse(w: World, me: Who, request: Sent)
    requires Safe(w) && request in w.sent && Orderly(w, me, Deliver(request))
    ensures var r := Rotate(w.server, request.token, Some(request.attempt), Some(me.client), w.now);
            && (r.0 == w.server || (w.server.tokens[request.token].retired.None? && r.0 == Rotated(w.server, request.token, request.attempt, w.now)))
            && (r.1 == Err(Unauthorized) <==> !Selected(w.server, request.token, Some(me.client)) || w.server.families[w.server.tokens[request.token].family].revoked)
            && (r.1.Ok? ==> r.1.value == Child(request.token, request.attempt) && r.1.value in r.0.tokens)
  {
    var t := request.token;
    if Selected(w.server, t, Some(me.client)) && !w.server.families[w.server.tokens[t].family].revoked {
      if w.server.tokens[t].retired.Some? {
        assert Sent(t, w.server.tokens[t].retired.value.attempt) in w.sent;
        RetiredPointsOn(w.server, t);
      } else {
        RotationNeverCollides(w.server, t, request.attempt);
      }
    }
  }

  lemma RotatedKeepsSafe(w: World, request: Sent)
    requires Safe(w) && request in w.sent && w.server.tokens[request.token].retired.None?
    ensures Safe(w.(server := Rotated(w.server, request.token, request.attempt, w.now)))
  {
    var t := Rotated(w.server, request.token, request.attempt, w.now);
    FamilyIsRoot(w.server, request.token);
    RotationNeverCollides(w.server, request.token, request.attempt);
    RotatedKeepsInv(w.server, request.token, request.attempt, w.now);
  }

  lemma DeliverKeepsSafe(w: World, me: Who, request: Sent)
    requires Safe(w) && request in w.sent && Orderly(w, me, Deliver(request))
    ensures Safe(Next(w, me, Deliver(request)))
  {
    DeliveryNeverLooksLikeReuse(w, me, request);
    var r := Rotate(w.server, request.token, Some(request.attempt), Some(me.client), w.now);
    if r.0 == w.server {
    } else {
      RotatedKeepsSafe(w, request);
    }
  }

  lemma ReceiveKeepsSafe(w: World, me: Who, answer: Answer)
    requires Safe(w) && Enabled(w, me, Receive(answer))
    ensures Safe(Next(w, me, Receive(answer)))
  {
    var flight := w.flight.value;
    if answer.result.Ok? && flight.epoch == w.epoch {
      assert answer in w.answers && answer.result.value == Child(flight.token, flight.attempt);
    }
  }

  lemma StepKeepsSafe(w: World, me: Who, step: Step)
    requires Safe(w) && Enabled(w, me, step) && Orderly(w, me, step)
    ensures Safe(Next(w, me, step))
  {
    match step
    case StartRead =>
    case SaveAttempt(a) => SaveKeepsSafe(w, me, a);
    case Send => SendKeepsSafe(w, me);
    case Deliver(request) => DeliverKeepsSafe(w, me, request);
    case Receive(answer) => ReceiveKeepsSafe(w, me, answer);
    case NetworkFailure =>
    case Crash =>
    case Tick(_) =>
    case Login(f) => LoginKeepsSafe(w, me, f);
    case ClearSession =>
    case Elsewhere(r) => ElsewhereKeepsSafe(w, me, r);
  }

  // ---------- runs ----------

  ghost predicate Start(w: World) {
    && RefreshTokens.Inv(w.server) && w.stored.None? && w.flight.None? && w.sent == {} && w.answers == {} && w.own == {}
  }

  ghost predicate OrderlyRun(worlds: seq<World>, steps: seq<Step>, me: Who) {
    && |worlds| == |steps| + 1 && Start(worlds[0])
    && forall i {:trigger steps[i]} | 0 <= i < |steps| ::
         Enabled(worlds[i], me, steps[i]) && Orderly(worlds[i], me, steps[i]) && worlds[i + 1] == Next(worlds[i], me, steps[i])
  }

  lemma {:induction false} EveryOrderlyRunIsSafe(worlds: seq<World>, steps: seq<Step>, me: Who, i: nat)
    requires OrderlyRun(worlds, steps, me) && i < |worlds|
    ensures Safe(worlds[i])
  {
    if i > 0 {
      EveryOrderlyRunIsSafe(worlds, steps, me, i - 1);
      var step := steps[i - 1];
      assert worlds[i - 1 + 1] == Next(worlds[i - 1], me, step);
      StepKeepsSafe(worlds[i - 1], me, step);
    }
  }

  /** In every orderly run no family of this client is ever marked as reused: whatever is lost, delayed,
      repeated or interrupted, the server never takes the client for a thief. */
  lemma NoRunDetectsReuse(worlds: seq<World>, steps: seq<Step>, me: Who, i: nat, f: Id)
    requires OrderlyRun(worlds, steps, me) && i < |worlds| && f in worlds[i].own
    ensures f in worlds[i].server.families && !worlds[i].server.families[f].reuseDetected
  {
    EveryOrderlyRunIsSafe(worlds, steps, me, i);
  }

  // ---------- what a run keeps ----------

  // Storage is emptied by a refusal and by clearing it, and by nothing else: no lost message, late answer or crash
  // does. What it holds otherwise is the token it held, that token's child, or a login's first token.
  lemma StepForgetsIff(w: World, me: Who, step: Step)
    requires Safe(w) && Enabled(w, me, step) && Orderly(w, me, step) && w.stored.Some?
    ensures var p, after := w.stored.value, Next(w, me, step).stored;
            && (after.None? <==> step.ClearSession? || (step.Receive? && step.answer.result == Err(Unauthorized)))
            && (after.Some? ==>
                  || after.value.token == p.token
                  || (step.Receive? && p.pending.Some? && after.value == Private(Child(p.token, p.pending.value), None))
                  || (step.Login? && after.value == Private(Initial(step.newFamily), None)))
            && (after.Some? && after.value.token == p.token && p.pending.Some? ==> after == w.stored)
  {
    if step.Receive? && step.answer.result.Ok? { assert step.answer in w.answers; }
  }

  // Servers never forget a device, nor whose a family is; and a revoked family stays so.
  ghost predicate FamilyKept(s: Server, t: Server, f: Id) {
    && t.devices == s.devices && f in s.families && f in t.families
    && t.families[f].user == s.families[f].user && t.families[f].device == s.families[f].device && (s.families[f].revoked ==> t.families[f].revoked)
  }

  lemma RequestKeepsFamily(s: Server, r: Request, f: Id)
    requires f in s.families && (r.Create? ==> r.newFamily != f)
    ensures FamilyKept(s, Serve(s, r), f)
  {
  }

  lemma StepKeepsFamily(w: World, me: Who, step: Step, f: Id)
    requires f in w.server.families && Enabled(w, me, step)
    ensures FamilyKept(w.server, Next(w, me, step).server, f)
  {
    match step
    case Deliver(request) => RequestKeepsFamily(w.server, Refresh(request.token, Some(request.attempt), Some(me.client), w.now), f);
    case Login(newFamily) => RequestKeepsFamily(w.server, Create(me.device, me.user, me.client, newFamily), f);
    case Elsewhere(r) => RequestKeepsFamily(w.server, r, f);
    case _ =>
  }

  // The family is this client's own, and only its revocation has been answered by a refusal.
  ghost predicate Mine(w: World, me: Who, f: Id) {
    && f in w.own && f in w.server.families && IsDevice(w.server, me.device, me.user, me.client)
    && w.server.families[f].user == me.user && w.server.families[f].device == me.device
    && (forall x | x in w.answers && RootOf(x.sent.token) == f && x.result == Err(Unauthorized) :: w.server.families[f].revoked)
  }

  // As long as the family is not revoked, one of its tokens is stored and every refresh under way is for it.
  ghost predicate Held(w: World, me: Who, f: Id) {
    && Mine(w, me, f) && (forall x | x in w.answers :: x.sent in w.sent)
    && (!w.server.families[f].revoked ==>
          w.stored.Some? && RootOf(w.stored.value.token) == f && (w.flight.Some? ==> RootOf(w.flight.value.token) == f))
  }

  lemma AnswersStaySent(w: World, me: Who, step: Step)
    requires Enabled(w, me, step) && forall x | x in w.answers :: x.sent in w.sent
    ensures forall x | x in Next(w, me, step).answers :: x.sent in Next(w, me, step).sent
  {
  }

  lemma StaysMine(w: World, me: Who, step: Step, f: Id)
    requires Safe(w) && Enabled(w, me, step) && Orderly(w, me, step) && Mine(w, me, f)
    ensures Mine(Next(w, me, step), me, f)
  {
    StepKeepsFamily(w, me, step, f);
    if step.Deliver? && RootOf(step.request.token) == f {
      FamilyIsRoot(w.server, step.request.token);
      DeliveryNeverLooksLikeReuse(w, me, step.request);
    }
  }

  // Nothing but a cleared session, another login or a revocation takes a session away.
  lemma StaysHeld(w: World, me: Who, step: Step, f: Id)
    requires Safe(w) && Enabled(w, me, step) && Orderly(w, me, step) && Held(w, me, f) && !step.ClearSession? && !step.Login?
    ensures Held(Next(w, me, step), me, f)
  {
    AnswersStaySent(w, me, step);
    StaysMine(w, me, step, f);
    StepKeepsFamily(w, me, step, f);
    if step.Receive? && !w.server.families[f].revoked {
      assert RootOf(step.answer.sent.token) == f;
      assert step.answer.result.Ok? ==> step.answer.result.value == Child(step.answer.sent.token, step.answer.sent.attempt);
    }
  }

  lemma LoginIsHeld(w: World, me: Who, f: Id)
    requires Safe(w) && Enabled(w, me, Login(f)) && Orderly(w, me, Login(f)) && forall x | x in w.answers :: x.sent in w.sent
    ensures Held(Next(w, me, Login(f)), me, f)
  {
    forall x | x in w.answers ensures RootOf(x.sent.token) != f {
      assert x.sent in w.sent;
      FamilyIsRoot(w.server, x.sent.token);
    }
  }

  lemma {:induction false} EveryRunAnswersSent(worlds: seq<World>, steps: seq<Step>, me: Who, i: nat)
    requires OrderlyRun(worlds, steps, me) && i < |worlds|
    ensures forall x | x in worlds[i].answers :: x.sent in worlds[i].sent
  {
    if i > 0 {
      EveryRunAnswersSent(worlds, steps, me, i - 1);
      assert worlds[i - 1 + 1] == Next(worlds[i - 1], me, steps[i - 1]);
      AnswersStaySent(worlds[i - 1], me, steps[i - 1]);
    }
  }

  // The i-th step is the login to the family, and after it nobody logs in again or clears the session before the
  // j-th state.
  ghost predicate LastLogin(steps: seq<Step>, i: nat, j: nat, f: Id) {
    i < j <= |steps| && steps[i] == Login(f) && forall k | i < k < j :: !steps[k].ClearSession? && !steps[k].Login?
  }

  /** Over every orderly run: from a login on, through lost, late and repeated messages and crashes, a token of that
      login's family is stored as long as nobody clears the session, logs in again or revokes the family. */
  lemma {:induction false} SessionIsKept(worlds: seq<World>, steps: seq<Step>, me: Who, i: nat, j: nat, f: Id)
    requires OrderlyRun(worlds, steps, me) && LastLogin(steps, i, j, f)
    ensures Held(worlds[j], me, f)
    decreases j
  {
    EveryOrderlyRunIsSafe(worlds, steps, me, j - 1);
    EveryRunAnswersSent(worlds, steps, me, j - 1);
    var step := steps[j - 1];
    assert worlds[j - 1 + 1] == Next(worlds[j - 1], me, step);
    if j - 1 == i {
      LoginIsHeld(worlds[i], me, f);
    } else {
      SessionIsKept(worlds, steps, me, i, j - 1, f);
      StaysHeld(worlds[j - 1], me, step, f);
    }
  }

  // What is left of a world when its service worker is restarted, if a refresh is under way.
  function Restarted(w: World, me: Who): World {
    if w.flight.None? then w else Next(w, me, Crash)
  }

  /** So from every state of every orderly run, whatever was lost before, one undisturbed refresh stores the current
      token of the family logged in to last, unless the session was cleared or the family revoked. */
  lemma EveryRunRecovers(worlds: seq<World>, steps: seq<Step>, me: Who, i: nat, j: nat, f: Id, newAttempt: Id)
    requires OrderlyRun(worlds, steps, me) && LastLogin(steps, i, j, f)
    requires f in worlds[j].server.families && !worlds[j].server.families[f].revoked
    requires worlds[j].stored.Some? ==>
               Orderly(Restarted(worlds[j], me), me, Deliver(Sent(worlds[j].stored.value.token, AttemptOf(worlds[j].stored.value, newAttempt))))
    ensures worlds[j].stored.Some? && RootOf(worlds[j].stored.value.token) == f
    ensures var p := worlds[j].stored.value;
            var request := Sent(p.token, AttemptOf(p, newAttempt));
            var w4 := Next(Next(Next(Next(Restarted(worlds[j], me), me, StartRead), me, SaveAttempt(newAttempt)), me, Send), me, Deliver(request));
            var current := Child(p.token, request.attempt);
            var w5 := Next(w4, me, Receive(Answer(request, Ok(current))));
            && Enabled(w4, me, Receive(Answer(request, Ok(current)))) && w5.stored == Some(Private(current, None))
            && RootOf(current) == f && current in w5.server.tokens && w5.server.tokens[current].family == f && w5.server.tokens[current].retired.None?
  {
    SessionIsKept(worlds, steps, me, i, j, f);
    EveryOrderlyRunIsSafe(worlds, steps, me, j);
    RestartedStands(worlds[j], me, f);
    RefreshRecovers(Restarted(worlds[j], me), me, newAttempt);
    CurrentFamily(Restarted(worlds[j], me), me, newAttempt);
  }

  lemma RestartedStands(v: World, me: Who, f: Id)
    requires Safe(v) && Held(v, me, f) && f in v.server.families && !v.server.families[f].revoked
    ensures var w := Restarted(v, me);
            && Safe(w) && w.stored == v.stored && w.flight.None? && w.stored.Some? && RootOf(w.stored.value.token) == f
            && w.stored.value.token in w.server.tokens && w.server.tokens[w.stored.value.token].family == f
            && Selected(w.server, w.stored.value.token, Some(me.client)) && !w.server.families[f].revoked
  {
    if v.flight.Some? { StepKeepsSafe(v, me, Crash); }
    FamilyIsRoot(v.server, v.stored.value.token);
  }

  lemma CurrentFamily(w: World, me: Who, newAttempt: Id)
    requires Safe(w) && w.stored.Some? && w.flight.None?
    requires var t := w.stored.value.token; t in w.server.tokens
    requires var t := w.stored.value.token;
             && Selected(w.server, t, Some(me.client)) && !w.server.families[w.server.tokens[t].family].revoked
             && Orderly(w, me, Deliver(Sent(t, AttemptOf(w.stored.value, newAttempt))))
    ensures var p := w.stored.value;
            var request := Sent(p.token, AttemptOf(p, newAttempt));
            var w4 := Next(Next(Next(Next(w, me, StartRead), me, SaveAttempt(newAttempt)), me, Send), me, Deliver(request));
            var current := Child(p.token, request.attempt);
            current in w4.server.tokens ==> w4.server.tokens[current].family == RootOf(p.token)
  {
    var p := w.stored.value;
    var request := Sent(p.token, AttemptOf(p, newAttempt));
    var w1 := Next(w, me, StartRead);
    var w2 := Next(w1, me, SaveAttempt(newAttempt));
    var w3 := Next(w2, me, Send);
    StepKeepsSafe(w, me, StartRead);
    StepKeepsSafe(w1, me, SaveAttempt(newAttempt));
    StepKeepsSafe(w2, me, Send);
    StepKeepsSafe(w3, me, Deliver(request));
    var w4 := Next(w3, me, Deliver(request));
    if Child(p.token, request.attempt) in w4.server.tokens { FamilyIsRoot(w4.server, Child(p.token, request.attempt)); }
  }

  // The family's current token is the stored one, or the one its saved attempt has already made.
  lemma CurrentWithinReach(w: World, t: Token)
    requires Safe(w) && w.stored.Some?
    requires t in w.server.tokens && w.server.tokens[t].family == RootOf(w.stored.value.token) && w.server.tokens[t].retired.None?
    ensures var p := w.stored.value;
            if w.server.tokens[p.token].retired.None? then t == p.token else p.pending.Some? && t == Child(p.token, p.pending.value)
  {
    var p := w.stored.value;
    FamilyIsRoot(w.server, p.token);
    OneUnretired(w.server, RootOf(p.token));
    if w.server.tokens[p.token].retired.Some? {
      var r := w.server.tokens[p.token].retired.value;
      RetiredPointsOn(w.server, p.token);
      assert Sent(p.token, r.attempt) in w.sent;
    }
  }

  function AttemptOf(p: Private, newAttempt: Id): Id {
    if p.pending.Some? then p.pending.value else newAttempt
  }

  /** One undisturbed refresh, begun in any safe state whose family is not revoked and inside the window,
      leaves the client holding the family's current token with nothing pending. */
  lemma RefreshRecovers(w: World, me: Who, newAttempt: Id)
    requires Safe(w) && w.flight.None? && w.stored.Some?
    requires var t := w.stored.value.token;
             && Selected(w.server, t, Some(me.client)) && !w.server.families[w.server.tokens[t].family].revoked
             && Orderly(w, me, Deliver(Sent(t, AttemptOf(w.stored.value, newAttempt))))
    ensures var p := w.stored.value;
            var request := Sent(p.token, AttemptOf(p, newAttempt));
            var w3 := Next(Next(Next(w, me, StartRead), me, SaveAttempt(newAttempt)), me, Send);
            var w4 := Next(w3, me, Deliver(request));
            var answer := Answer(request, Ok(Child(p.token, request.attempt)));
            var w5 := Next(w4, me, Receive(answer));
            && Enabled(w3, me, Deliver(request)) && Enabled(w4, me, Receive(answer))
            && w5.stored == Some(Private(Child(p.token, request.attempt), None))
            && Child(p.token, request.attempt) in w5.server.tokens && w5.server.tokens[Child(p.token, request.attempt)].retired.None?
  {
    var p := w.stored.value;
    var request := Sent(p.token, AttemptOf(p, newAttempt));
    var w1 := Next(w, me, StartRead);
    var w2 := Next(w1, me, SaveAttempt(newAttempt));
    var w3 := Next(w2, me, Send);
    StepKeepsSafe(w, me, StartRead);
    StepKeepsSafe(w1, me, SaveAttempt(newAttempt));
    StepKeepsSafe(w2, me, Send);
    DeliveredIsCurrent(w3, me, request);
  }

  lemma DeliveredIsCurrent(w: World, me: Who, request: Sent)
    requires Safe(w) && request in w.sent && Orderly(w, me, Deliver(request))
    requires w.stored == Some(Private(request.token, Some(request.attempt)))
    requires Selected(w.server, request.token, Some(me.client)) && !w.server.families[w.server.tokens[request.token].family].revoked
    ensures var r := Rotate(w.server, request.token, Some(request.attempt), Some(me.client), w.now);
            var child := Child(request.token, request.attempt);
            r.1 == Ok(child) && child in r.0.tokens && r.0.tokens[child].retired.None?
  {
    DeliveryNeverLooksLikeReuse(w, me, request);
    RefreshSucceedsIff(w.server, request.token, request.attempt, Some(me.client), w.now);
    var row := w.server.tokens[request.token];
    if row.retired.Some? {
      RetiredPointsOn(w.server, request.token);
      var child := row.retired.value.rotatedTo;
    } else {
      RotationNeverCollides(w.server, request.token, request.attempt);
    }
  }

  // ---------- what the discipline rules out ----------

  // What a login does to the refresh request already on its way: it revokes the device's families and
  // touches no token.
  lemma LoginSeenByRefresh(w: World, me: Who, f: Id, request: Sent)
    requires Safe(w) && Enabled(w, me, Login(f)) && request in w.sent
    ensures var s, u := w.server, Next(w, me, Login(f)).server;
            && RefreshTokens.Inv(u)
            && (Selected(u, request.token, Some(me.client)) <==> Selected(s, request.token, Some(me.client)))
            && request.token in s.tokens && request.token in u.tokens && u.tokens[request.token] == s.tokens[request.token]
            && s.tokens[request.token].family in s.families && s.tokens[request.token].family in u.families
            && var before, after := s.families[s.tokens[request.token].family], u.families[s.tokens[request.token].family];
               after.revoked == (before.revoked || (before.user == me.user && before.device == me.device))
  {
    CreateKeepsInv(w.server, me.device, me.user, me.client, f);
    assert request.token in w.server.tokens;
    FamilyIsRoot(w.server, request.token);
  }

  /** A login while a refresh is on its way to the server survives the answer if and only if, before the login, the
      old token was still known to the server for this client, its family was not revoked, and it was a family of
      another user or device. Otherwise the old request is refused, and a refusal clears storage without looking
      at the epoch. */
  lemma LoginSurvivesRefreshIff(w: World, me: Who, f: Id)
    requires Safe(w) && Enabled(w, me, Login(f)) && w.flight.Some? && w.flight.value.Waiting?
    requires Orderly(Next(w, me, Login(f)), me, Deliver(Sent(w.flight.value.token, w.flight.value.attempt)))
    ensures var request := Sent(w.flight.value.token, w.flight.value.attempt);
            var w1 := Next(w, me, Login(f));
            var w2 := Next(w1, me, Deliver(request));
            var answer := Answer(request, Rotate(w1.server, request.token, Some(request.attempt), Some(me.client), w1.now).1);
            && Enabled(w1, me, Deliver(request)) && Enabled(w2, me, Receive(answer))
            && w1.stored == Some(Private(Initial(f), None))
            && (Next(w2, me, Receive(answer)).stored == w1.stored <==>
                  && Selected(w.server, request.token, Some(me.client))
                  && var family := w.server.families[w.server.tokens[request.token].family];
                     !family.revoked && !(family.user == me.user && family.device == me.device))
  {
    var request := Sent(w.flight.value.token, w.flight.value.attempt);
    var w1 := Next(w, me, Login(f));
    LoginSeenByRefresh(w, me, f, request);
    if Selected(w1.server, request.token, Some(me.client)) {
      RefreshSucceedsIff(w1.server, request.token, request.attempt, Some(me.client), w1.now);
      OwnRetiredByThis(w, request);
    }
  }

  /** A refresh delivered before the login and answered after it leaves the login alone if and only if the server
      rotated or repeated the token: here the device of the old session does not matter. */
  lemma LoginAfterDeliverySurvivesIff(w: World, me: Who, f: Id)
    requires Safe(w) && w.flight.Some? && w.flight.value.Waiting?
    requires Orderly(w, me, Deliver(Sent(w.flight.value.token, w.flight.value.attempt)))
    requires Enabled(Next(w, me, Deliver(Sent(w.flight.value.token, w.flight.value.attempt))), me, Login(f))
    ensures var request := Sent(w.flight.value.token, w.flight.value.attempt);
            var w1 := Next(w, me, Deliver(request));
            var w2 := Next(w1, me, Login(f));
            var answer := Answer(request, Rotate(w.server, request.token, Some(request.attempt), Some(me.client), w.now).1);
            && Enabled(w, me, Deliver(request)) && Enabled(w2, me, Receive(answer)) && w2.stored == Some(Private(Initial(f), None))
            && (Next(w2, me, Receive(answer)).stored == w2.stored <==>
                  Selected(w.server, request.token, Some(me.client)) && !w.server.families[w.server.tokens[request.token].family].revoked)
  {
    var request := Sent(w.flight.value.token, w.flight.value.attempt);
    if Selected(w.server, request.token, Some(me.client)) {
      RefreshSucceedsIff(w.server, request.token, request.attempt, Some(me.client), w.now);
      OwnRetiredByThis(w, request);
    }
  }

  lemma OwnRetiredByThis(w: World, request: Sent)
    requires Safe(w) && request in w.sent
    ensures request.token in w.server.tokens
    ensures var r := w.server.tokens[request.token].retired; r.Some? ==> r.value.attempt == request.attempt
  {
    var r := w.server.tokens[request.token].retired;
    assert r.Some? ==> Sent(request.token, r.value.attempt) in w.sent;
  }

  // On the device of the old session it never survives; the family it made stays live on the server.
  lemma LoginDuringRefreshIsLost(w: World, me: Who, f: Id)
    requires Safe(w) && Enabled(w, me, Login(f)) && w.flight.Some? && w.flight.value.Waiting?
    requires var t := w.flight.value.token;
             t in w.server.tokens && w.server.tokens[t].family in w.server.families
             && w.server.families[w.server.tokens[t].family].user == me.user && w.server.families[w.server.tokens[t].family].device == me.device
    ensures var request := Sent(w.flight.value.token, w.flight.value.attempt);
            var w1 := Next(w, me, Login(f));
            var w2 := Next(w1, me, Deliver(request));
            var refusal := Answer(request, Err(Unauthorized));
            var w3 := Next(w2, me, Receive(refusal));
            && Enabled(w1, me, Deliver(request)) && Enabled(w2, me, Receive(refusal))
            && w1.stored == Some(Private(Initial(f), None))
            && w3.stored == None && f in w3.server.families && !w3.server.families[f].revoked
  {
  }

  // A login between a refresh's read of storage and its write is kept by the write if and only if the read
  // found an attempt already saved; otherwise the old token is written over it.
  lemma LoginInTheGapIsKeptIff(w: World, me: Who, f: Id, a: Id)
    requires Safe(w) && Enabled(w, me, Login(f)) && w.flight.Some? && w.flight.value.Reading?
    ensures var w1 := Next(w, me, Login(f));
            var w2 := Next(w1, me, SaveAttempt(a));
            && w1.stored == Some(Private(Initial(f), None)) && Enabled(w1, me, SaveAttempt(a))
            && (w2.stored == w1.stored <==> w.flight.value.pending.Some?)
            && (w.flight.value.pending.None? ==> w2.stored == Some(Private(w.flight.value.token, Some(a))))
  {
    assert w.flight.value.token in w.server.tokens;
    FamilyIsRoot(w.server, w.flight.value.token);
  }

  // A session cleared in the same gap comes back under the same condition, and the next refresh uses it.
  lemma ClearedSessionReturnsIff(w: World, me: Who, a: Id)
    requires Safe(w) && w.flight.Some? && w.flight.value.Reading?
    ensures var w1 := Next(w, me, ClearSession);
            var w2 := Next(w1, me, SaveAttempt(a));
            && w1.stored == None && Enabled(w1, me, SaveAttempt(a))
            && (w2.stored == None <==> w.flight.value.pending.Some?)
            && (w.flight.value.pending.None? ==> w2.stored == Some(Private(w.flight.value.token, Some(a))) && w2.stored.value.token == w.stored.value.token)
  {
  }
}
