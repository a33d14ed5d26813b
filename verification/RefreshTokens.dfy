/** Refresh-token families on the server: creation, rotation with a timed retry, reuse detection and
    logout, after the rotation technique of section 4.14.2 of RFC 9700. */
module RefreshTokens {
  import opened Common

  // derive is an injective keyed hash: a token is known by what it was derived from.
  datatype Token = Initial(family: Id) | Child(parent: Token, attempt: Id)

  datatype Device = Device(user: Id, client: Id)
  datatype Family = Family(user: Id, device: Id, revoked: bool, reuseDetected: bool, rotations: nat)
  datatype Retirement = Retirement(attempt: Id, retryUntil: int, rotatedTo: Token)
  datatype TokenRow = TokenRow(family: Id, retired: Option<Retirement>)

  datatype Server = Server(devices: map<Id, Device>, families: map<Id, Family>, tokens: map<Token, TokenRow>)

  datatype RefreshError = Unauthorized | Unavailable

  const RETRY_WINDOW := 60

  function Revoke(s: Server, user: Id, device: Id): Server {
    s.(families := map f | f in s.families ::
      if s.families[f].user == user && s.families[f].device == device then s.families[f].(revoked := true) else s.families[f])
  }

  predicate IsDevice(s: Server, d: Id, user: Id, client: Id) {
    d in s.devices && s.devices[d] == Device(user, client)
  }

  // createTx: the device's other families are revoked and a new one starts with its initial token.
  function CreateFamily(s: Server, device: Id, user: Id, client: Id, newFamily: Id): (Server, Result<Token, RefreshError>) {
    if !IsDevice(s, device, user, client) then (s, Err(Unavailable))
    else
      var t := Revoke(s, user, device);
      (t.(families := t.families[newFamily := Family(user, device, false, false, 0)],
          tokens := t.tokens[Initial(newFamily) := TokenRow(newFamily, None)]),
       Ok(Initial(newFamily)))
  }

  // No client means a request without a client id.
  predicate Selected(s: Server, token: Token, client: Option<Id>) {
    && token in s.tokens && s.tokens[token].family in s.families
    && s.families[s.tokens[token].family].device in s.devices
    && (client.Some? ==> s.devices[s.families[s.tokens[token].family].device].client == client.value)
  }

  function DetectReuse(s: Server, f: Id): Server
    requires f in s.families
  {
    s.(families := s.families[f := s.families[f].(revoked := true, reuseDetected := true)])
  }

  function Rotated(s: Server, token: Token, attempt: Id, now: int): Server
    requires token in s.tokens && s.tokens[token].family in s.families
  {
    var f := s.tokens[token].family;
    var child := Child(token, attempt);
    Server(s.devices,
           s.families[f := s.families[f].(rotations := s.families[f].rotations + 1)],
           s.tokens[child := TokenRow(f, None)][token := TokenRow(f, Some(Retirement(attempt, now + RETRY_WINDOW, child)))])
  }

  // rotateForClient. A blank attempt is None.
  function Rotate(s: Server, token: Token, attempt: Option<Id>, client: Option<Id>, now: int): (Server, Result<Token, RefreshError>) {
    if attempt.None? || !Selected(s, token, client) then (s, Err(Unauthorized))
    else
      var f := s.tokens[token].family;
      if s.families[f].revoked then (s, Err(Unauthorized))
      else
        match s.tokens[token].retired
        case Some(r) =>
          if r.attempt == attempt.value && now < r.retryUntil then (s, Ok(Child(token, attempt.value)))
          else (DetectReuse(s, f), Err(Unauthorized))
        case None =>
          if Child(token, attempt.value) in s.tokens then (s, Err(Unavailable))
          else (Rotated(s, token, attempt.value, now), Ok(Child(token, attempt.value)))
  }

  function Logout(s: Server, token: Token, client: Option<Id>): (Server, Option<RefreshError>) {
    if !Selected(s, token, client) || s.families[s.tokens[token].family].revoked then (s, Some(Unauthorized))
    else
      var f := s.families[s.tokens[token].family];
      (Revoke(s, f.user, f.device), None)
  }

  function RevokeAll(s: Server, user: Id): Server {
    s.(families := map f | f in s.families :: if s.families[f].user == user then s.families[f].(revoked := true) else s.families[f])
  }

  // ---------- the invariant ----------

  // The token reached from a family's first by a list of attempts.
  function Chain(f: Id, attempts: seq<Id>): Token {
    if attempts == [] then Initial(f) else Child(Chain(f, attempts[..|attempts| - 1]), attempts[|attempts| - 1])
  }

  // The i-th token of the chain is retired by the attempt that made the next; the last is not retired.
  ghost predicate Link(s: Server, f: Id, attempts: seq<Id>, i: nat)
    requires i <= |attempts|
  {
    var t := Chain(f, attempts[..i]);
    && t in s.tokens && s.tokens[t].family == f
    && match s.tokens[t].retired
       case None => i == |attempts|
       case Some(r) => i < |attempts| && r.attempt == attempts[i] && r.rotatedTo == Child(t, attempts[i])
  }

  ghost predicate OnChain(f: Id, attempts: seq<Id>, t: Token) {
    exists i: nat :: i <= |attempts| && t == Chain(f, attempts[..i])
  }

  // The family's tokens are exactly the links of one chain.
  ghost predicate ChainOf(s: Server, f: Id, attempts: seq<Id>) {
    && (forall i: nat | i <= |attempts| :: Link(s, f, attempts, i))
    && (forall t | t in s.tokens && s.tokens[t].family == f :: OnChain(f, attempts, t))
  }

  ghost predicate Chained(s: Server, f: Id) {
    f in s.families && exists attempts :: ChainOf(s, f, attempts) && |attempts| == s.families[f].rotations
  }

  ghost predicate OneActive(s: Server) {
    forall f, g | f in s.families && g in s.families && !s.families[f].revoked && !s.families[g].revoked
      && s.families[f].user == s.families[g].user && s.families[f].device == s.families[g].device :: f == g
  }

  ghost predicate Inv(s: Server) {
    && (forall t | t in s.tokens :: s.tokens[t].family in s.families)
    && (forall f | f in s.families :: s.families[f].device in s.devices)
    && (forall f | f in s.families :: Chained(s, f))
    && OneActive(s)
  }

  // A chain keeps its length apart: prefixes of different length are different tokens.
  lemma {:induction false} ChainDepth(f: Id, attempts: seq<Id>)
    ensures Depth(Chain(f, attempts)) == |attempts| && RootOf(Chain(f, attempts)) == f
  {
    if attempts != [] {
      ChainDepth(f, attempts[..|attempts| - 1]);
    }
  }

  function Depth(t: Token): nat {
    match t case Initial(_) => 0 case Child(p, _) => 1 + Depth(p)
  }

  function RootOf(t: Token): Id {
    match t case Initial(f) => f case Child(p, _) => RootOf(p)
  }

  // The last token of the chain is the one that is not retired.
  lemma ChainEnd(s: Server, f: Id, attempts: seq<Id>)
    requires ChainOf(s, f, attempts)
    ensures var t := Chain(f, attempts); t in s.tokens && s.tokens[t].family == f && s.tokens[t].retired.None? && Depth(t) == |attempts|
    ensures forall u | u in s.tokens && s.tokens[u].family == f && s.tokens[u].retired.None? :: u == Chain(f, attempts)
  {
    var n := |attempts|;
    assert attempts[..n] == attempts;
    assert Link(s, f, attempts, n);
    ChainDepth(f, attempts);
    forall u | u in s.tokens && s.tokens[u].family == f && s.tokens[u].retired.None? ensures u == Chain(f, attempts) {
      assert OnChain(f, attempts, u);
      var i: nat :| i <= n && u == Chain(f, attempts[..i]);
      assert Link(s, f, attempts, i);
    }
  }

  // Exactly one token of a family is not retired, and its chain has as many rotations as the family counts.
  lemma OneUnretired(s: Server, f: Id)
    requires Chained(s, f)
    ensures exists t :: t in s.tokens && s.tokens[t].family == f && s.tokens[t].retired.None? && Depth(t) == s.families[f].rotations
    ensures forall t, u | t in s.tokens && u in s.tokens && s.tokens[t].family == f == s.tokens[u].family
              && s.tokens[t].retired.None? && s.tokens[u].retired.None? :: t == u
  {
    var attempts :| ChainOf(s, f, attempts) && |attempts| == s.families[f].rotations;
    ChainEnd(s, f, attempts);
  }

  // ---------- every step keeps it ----------

  // Nothing but marks on families changed.
  ghost predicate OnlyMarks(s: Server, t: Server) {
    && t.tokens == s.tokens && t.devices == s.devices && t.families.Keys == s.families.Keys
    && forall f | f in s.families ::
         && t.families[f].user == s.families[f].user && t.families[f].device == s.families[f].device
         && t.families[f].rotations == s.families[f].rotations && (s.families[f].revoked ==> t.families[f].revoked)
  }

  lemma MarksKeepInv(s: Server, t: Server)
    requires Inv(s) && OnlyMarks(s, t)
    ensures Inv(t)
  {
    forall f | f in t.families ensures Chained(t, f) {
      assert Chained(s, f);
      var attempts :| ChainOf(s, f, attempts) && |attempts| == s.families[f].rotations;
      SameChain(s, t, f, attempts);
    }
  }

  lemma SameChain(s: Server, t: Server, f: Id, attempts: seq<Id>)
    requires ChainOf(s, f, attempts)
    requires forall x :: (x in t.tokens && t.tokens[x].family == f) <==> (x in s.tokens && s.tokens[x].family == f)
    requires forall x | x in s.tokens && s.tokens[x].family == f :: t.tokens[x] == s.tokens[x]
    ensures ChainOf(t, f, attempts)
  {
    forall i: nat | i <= |attempts| ensures Link(t, f, attempts, i) {
      assert Link(s, f, attempts, i);
    }
  }

  lemma NewFamilyChained(s: Server, t: Server, newFamily: Id)
    requires newFamily in t.families && t.families[newFamily].rotations == 0
    requires Initial(newFamily) in t.tokens && t.tokens[Initial(newFamily)] == TokenRow(newFamily, None)
    requires forall x | x in t.tokens && t.tokens[x].family == newFamily :: x == Initial(newFamily)
    ensures Chained(t, newFamily)
  {
    var none: seq<Id> := [];
    assert none[..0] == none;
    assert Link(t, newFamily, none, 0);
    forall x | x in t.tokens && t.tokens[x].family == newFamily ensures OnChain(newFamily, none, x) {
      assert x == Chain(newFamily, none[..0]);
    }
    assert ChainOf(t, newFamily, none);
  }

  // Other families' chains do not see new tokens.
  lemma ChainUntouched(s: Server, t: Server, f: Id)
    requires Chained(s, f) && f in t.families && t.families[f].rotations == s.families[f].rotations
    requires forall x :: (x in t.tokens && t.tokens[x].family == f) <==> (x in s.tokens && s.tokens[x].family == f)
    requires forall x | x in s.tokens && s.tokens[x].family == f :: t.tokens[x] == s.tokens[x]
    ensures Chained(t, f)
  {
    var attempts :| ChainOf(s, f, attempts) && |attempts| == s.families[f].rotations;
    SameChain(s, t, f, attempts);
  }

  // A family id never used before.
  ghost predicate NewFamilyId(s: Server, f: Id) {
    f !in s.families && Initial(f) !in s.tokens
  }

  lemma CreateKeepsInv(s: Server, device: Id, user: Id, client: Id, newFamily: Id)
    requires Inv(s) && NewFamilyId(s, newFamily)
    ensures Inv(CreateFamily(s, device, user, client, newFamily).0)
  {
    if IsDevice(s, device, user, client) {
      var t := CreateFamily(s, device, user, client, newFamily).0;
      forall f | f in t.families ensures Chained(t, f) {
        if f == newFamily {
          NewFamilyChained(s, t, newFamily);
        } else {
          assert Chained(s, f);
          ChainUntouched(s, t, f);
        }
      }
    }
  }

  lemma RotatedChain(s: Server, token: Token, attempt: Id, now: int)
    requires Inv(s) && token in s.tokens && s.tokens[token].retired.None? && Child(token, attempt) !in s.tokens
    ensures Chained(Rotated(s, token, attempt, now), s.tokens[token].family)
  {
    var f := s.tokens[token].family;
    var t := Rotated(s, token, attempt, now);
    assert Chained(s, f);
    var attempts :| ChainOf(s, f, attempts) && |attempts| == s.families[f].rotations;
    ChainEnd(s, f, attempts);
    ChainExtended(s, token, attempt, now, attempts);
  }

  lemma ChainExtended(s: Server, token: Token, attempt: Id, now: int, attempts: seq<Id>)
    requires token in s.tokens && s.tokens[token].family in s.families && Child(token, attempt) !in s.tokens
    requires ChainOf(s, s.tokens[token].family, attempts) && token == Chain(s.tokens[token].family, attempts)
    ensures ChainOf(Rotated(s, token, attempt, now), s.tokens[token].family, attempts + [attempt])
  {
    var f := s.tokens[token].family;
    var n := |attempts|;
    var longer := attempts + [attempt];
    assert longer[..n + 1][..n] == attempts && longer[..n + 1] == longer;
    forall i: nat | i <= n + 1 ensures Link(Rotated(s, token, attempt, now), f, longer, i) {
      NextLink(s, token, attempt, now, attempts, i);
    }
    forall x | x in Rotated(s, token, attempt, now).tokens && Rotated(s, token, attempt, now).tokens[x].family == f ensures OnChain(f, longer, x) {
      if x == Child(token, attempt) {
        assert x == Chain(f, longer[..n + 1]);
      } else {
        assert OnChain(f, attempts, x);
        var i: nat :| i <= n && x == Chain(f, attempts[..i]);
        assert longer[..i] == attempts[..i];
      }
    }
  }

  // Below its end the chain is as it was.
  lemma OldLink(s: Server, token: Token, attempt: Id, now: int, attempts: seq<Id>, i: nat)
    requires token in s.tokens && s.tokens[token].family in s.families && Child(token, attempt) !in s.tokens
    requires token == Chain(s.tokens[token].family, attempts)
    requires i < |attempts| && Link(s, s.tokens[token].family, attempts, i)
    ensures Link(Rotated(s, token, attempt, now), s.tokens[token].family, attempts + [attempt], i)
  {
    var f := s.tokens[token].family;
    assert (attempts + [attempt])[..i] == attempts[..i];
    ChainDepth(f, attempts[..i]);
    ChainDepth(f, attempts);
  }

  lemma NextLink(s: Server, token: Token, attempt: Id, now: int, attempts: seq<Id>, i: nat)
    requires token in s.tokens && s.tokens[token].family in s.families && Child(token, attempt) !in s.tokens
    requires ChainOf(s, s.tokens[token].family, attempts) && token == Chain(s.tokens[token].family, attempts)
    requires i <= |attempts| + 1
    ensures Link(Rotated(s, token, attempt, now), s.tokens[token].family, attempts + [attempt], i)
  {
    var n := |attempts|;
    if i < n {
      assert Link(s, s.tokens[token].family, attempts, i);
      OldLink(s, token, attempt, now, attempts, i);
    } else {
      assert Link(s, s.tokens[token].family, attempts, n) && attempts[..n] == attempts;
      EndLinks(s, token, attempt, now, attempts, i);
    }
  }

  // The old end of the chain now points to the new one.
  lemma EndLinks(s: Server, token: Token, attempt: Id, now: int, attempts: seq<Id>, i: nat)
    requires token in s.tokens && token == Chain(s.tokens[token].family, attempts)
    requires s.tokens[token].family in s.families && |attempts| <= i <= |attempts| + 1
    ensures Link(Rotated(s, token, attempt, now), s.tokens[token].family, attempts + [attempt], i)
  {
    var n := |attempts|;
    var longer := attempts + [attempt];
    assert longer[..n] == attempts && longer[..n + 1] == longer;
    assert Chain(s.tokens[token].family, longer) == Child(token, attempt);
  }

  lemma RotatedKeepsInv(s: Server, token: Token, attempt: Id, now: int)
    requires Inv(s) && token in s.tokens && s.tokens[token].retired.None? && Child(token, attempt) !in s.tokens
    ensures Inv(Rotated(s, token, attempt, now))
  {
    var t := Rotated(s, token, attempt, now);
    forall f | f in t.families ensures Chained(t, f) {
      assert Chained(s, f);
      if f == s.tokens[token].family {
        RotatedChain(s, token, attempt, now);
      } else {
        ChainUntouched(s, t, f);
      }
    }
  }

  lemma FamilyIsRoot(s: Server, t: Token)
    requires Inv(s) && t in s.tokens
    ensures RootOf(t) == s.tokens[t].family
  {
    var f := s.tokens[t].family;
    assert Chained(s, f);
    var attempts :| ChainOf(s, f, attempts) && |attempts| == s.families[f].rotations;
    assert OnChain(f, attempts, t);
    var i: nat :| i <= |attempts| && t == Chain(f, attempts[..i]);
    ChainDepth(f, attempts[..i]);
  }

  // A rotation whose token exists already, under the unique index on hashes, is told the service is unavailable and
  // changes nothing.
  lemma CollisionIsUnavailable(s: Server, token: Token, attempt: Id, client: Option<Id>, now: int)
    requires Selected(s, token, client) && !s.families[s.tokens[token].family].revoked && s.tokens[token].retired.None?
    ensures var r := Rotate(s, token, Some(attempt), client, now);
            && (Child(token, attempt) in s.tokens ==> r == (s, Err(Unavailable)))
            && (Child(token, attempt) !in s.tokens ==> r.1 == Ok(Child(token, attempt)))
  {
  }

  // An unretired token has no child yet, so a rotation never collides with an existing hash.
  lemma RotationNeverCollides(s: Server, token: Token, attempt: Id)
    requires Inv(s) && token in s.tokens && s.tokens[token].retired.None?
    ensures Child(token, attempt) !in s.tokens
  {
    var child := Child(token, attempt);
    if child in s.tokens {
      FamilyIsRoot(s, child);
      FamilyIsRoot(s, token);
      var f := s.tokens[token].family;
      assert Chained(s, f);
      var attempts :| ChainOf(s, f, attempts) && |attempts| == s.families[f].rotations;
      ChainEnd(s, f, attempts);
      assert OnChain(f, attempts, child);
      var i: nat :| i <= |attempts| && child == Chain(f, attempts[..i]);
      ChainDepth(f, attempts[..i]);
    }
  }

  lemma RotateKeepsInv(s: Server, token: Token, attempt: Option<Id>, client: Option<Id>, now: int)
    requires Inv(s)
    ensures Inv(Rotate(s, token, attempt, client, now).0)
  {
    if attempt.Some? && Selected(s, token, client) && !s.families[s.tokens[token].family].revoked {
      if s.tokens[token].retired.Some? {
        MarksKeepInv(s, DetectReuse(s, s.tokens[token].family));
      } else {
        RotationNeverCollides(s, token, attempt.value);
        RotatedKeepsInv(s, token, attempt.value, now);
      }
    }
  }

  // ---------- runs ----------

  datatype Request =
    | Create(device: Id, user: Id, client: Id, newFamily: Id)
    | Refresh(token: Token, attempt: Option<Id>, from: Option<Id>, now: int)
    | SignOut(token: Token, from: Option<Id>)
    | SignOutEverywhere(user: Id)

  function Serve(s: Server, r: Request): Server {
    match r
    case Create(device, user, client, newFamily) => CreateFamily(s, device, user, client, newFamily).0
    case Refresh(token, attempt, from, now) => Rotate(s, token, attempt, from, now).0
    case SignOut(token, from) => Logout(s, token, from).0
    case SignOutEverywhere(user) => RevokeAll(s, user)
  }

  ghost predicate Served(s: Server, r: Request, t: Server) {
    (r.Create? ==> NewFamilyId(s, r.newFamily)) && t == Serve(s, r)
  }

  lemma ServeKeepsInv(s: Server, r: Request)
    requires Inv(s) && (r.Create? ==> NewFamilyId(s, r.newFamily))
    ensures Inv(Serve(s, r))
  {
    match r
    case Create(device, user, client, newFamily) => CreateKeepsInv(s, device, user, client, newFamily);
    case Refresh(token, attempt, from, now) => RotateKeepsInv(s, token, attempt, from, now);
    case SignOut(token, from) => MarksKeepInv(s, Logout(s, token, from).0);
    case SignOutEverywhere(user) => MarksKeepInv(s, RevokeAll(s, user));
  }

  ghost predicate Follows(s: Server, t: Server) {
    exists r :: Served(s, r, t)
  }

  ghost predicate ServerRun(states: seq<Server>) {
    && states != [] && states[0].families == map[] && states[0].tokens == map[]
    && forall i {:trigger states[i]} | 0 <= i < |states| - 1 :: Follows(states[i], states[i + 1])
  }

  // In every state of every run each family has exactly one unretired token, at the end of one chain whose
  // length its rotation count gives, and each user and device has at most one unrevoked family.
  lemma {:induction false} EveryServerRunKeepsInv(states: seq<Server>, i: nat)
    requires ServerRun(states) && i < |states|
    ensures Inv(states[i])
  {
    if i == 0 {
      NoTokensInv(states[0]);
    } else {
      EveryServerRunKeepsInv(states, i - 1);
      assert Follows(states[i - 1], states[i - 1 + 1]);
      FollowKeepsInv(states[i - 1], states[i]);
    }
  }

  lemma NoTokensInv(s: Server)
    requires s.families.Keys == {} && s.tokens.Keys == {}
    ensures Inv(s)
  {
  }

  lemma FollowKeepsInv(s: Server, t: Server)
    requires Inv(s) && Follows(s, t)
    ensures Inv(t)
  {
    var r :| Served(s, r, t);
    ServeKeepsInv(s, r);
  }

  // A family once revoked is revoked in every later state of the run, where no use of any of its tokens
  // yields another or changes anything.
  lemma {:induction false} RevokedForever(states: seq<Server>, i: nat, j: nat, f: Id, r: Request)
    requires ServerRun(states) && i <= j < |states| && f in states[i].families && states[i].families[f].revoked
    ensures f in states[j].families && states[j].families[f].revoked
    ensures r.Refresh? && r.token in states[j].tokens && states[j].tokens[r.token].family == f ==>
              Rotate(states[j], r.token, r.attempt, r.from, r.now) == (states[j], Err(Unauthorized))
    decreases j - i
  {
    if i < j {
      assert Follows(states[i], states[i + 1]);
      var next :| Served(states[i], next, states[i + 1]);
      StaysRevoked(states[i], next, f);
      RevokedForever(states, i + 1, j, f, r);
    }
  }

  lemma StaysRevoked(s: Server, r: Request, f: Id)
    requires f in s.families && s.families[f].revoked && (r.Create? ==> NewFamilyId(s, r.newFamily))
    ensures f in Serve(s, r).families && Serve(s, r).families[f].revoked
  {
  }

  // A refresh succeeds exactly when the token is current, or is being retried by the attempt that retired it
  // within the window, in a family that is not revoked; a second attempt on a retired token revokes.
  lemma RefreshSucceedsIff(s: Server, token: Token, attempt: Id, client: Option<Id>, now: int)
    requires Inv(s) && Selected(s, token, client)
    ensures var row := s.tokens[token];
            var live := !s.families[row.family].revoked;
            var retry := row.retired.Some? && row.retired.value.attempt == attempt && now < row.retired.value.retryUntil;
            var r := Rotate(s, token, Some(attempt), client, now);
            && (r.1 == Ok(Child(token, attempt)) <==> live && (row.retired.None? || retry))
            && (r.1.Err? ==> r.1 == Err(Unauthorized))
            && r.0.families[row.family].revoked == (!live || (row.retired.Some? && !retry))
            && r.0.families[row.family].reuseDetected == (s.families[row.family].reuseDetected || (live && row.retired.Some? && !retry))
  {
    if s.tokens[token].retired.None? {
      RotationNeverCollides(s, token, attempt);
    }
  }

  // Whatever a refresh answers is the family's current token or, on a retry, still the one made before.
  lemma AnswerIsChild(s: Server, token: Token, attempt: Id, client: Option<Id>, now: int)
    requires Inv(s) && Rotate(s, token, Some(attempt), client, now).1.Ok?
    ensures var t := Rotate(s, token, Some(attempt), client, now).0;
            && token in t.tokens && t.tokens[token].retired.Some? && t.tokens[token].retired.value.rotatedTo == Child(token, attempt)
            && Child(token, attempt) in t.tokens
  {
    RotateKeepsInv(s, token, Some(attempt), client, now);
    var t := Rotate(s, token, Some(attempt), client, now).0;
    assert t.tokens[token].retired.Some?;
    RetiredPointsOn(t, token);
  }

  lemma RetiredPointsOn(s: Server, token: Token)
    requires Inv(s) && token in s.tokens && s.tokens[token].retired.Some?
    ensures var r := s.tokens[token].retired.value;
            r.rotatedTo == Child(token, r.attempt) && r.rotatedTo in s.tokens && s.tokens[r.rotatedTo].family == s.tokens[token].family
  {
    var f := s.tokens[token].family;
    assert Chained(s, f);
    var attempts :| ChainOf(s, f, attempts) && |attempts| == s.families[f].rotations;
    assert OnChain(f, attempts, token);
    var i: nat :| i <= |attempts| && token == Chain(f, attempts[..i]);
    assert Link(s, f, attempts, i);
    assert Link(s, f, attempts, i + 1);
    assert attempts[..i + 1][..i] == attempts[..i];
  }

  // ---------- what ends a session, and what begins one ----------

  // The server knows the token, and for the client if one is named.
  ghost predicate KnownFor(s: Server, token: Token, client: Option<Id>) {
    && token in s.tokens && s.tokens[token].family in s.families
    && var d := s.families[s.tokens[token].family].device; d in s.devices && (client.None? || s.devices[d].client == client.value)
  }

  // Exactly the families chosen are revoked, and nothing else is changed.
  ghost predicate RevokedExactly(s: Server, t: Server, chosen: set<Id>) {
    && t.devices == s.devices && t.tokens == s.tokens && t.families.Keys == s.families.Keys
    && forall f | f in s.families :: t.families[f] == s.families[f].(revoked := s.families[f].revoked || f in chosen)
  }

  function FamiliesOf(s: Server, user: Id, device: Id): set<Id> {
    set f | f in s.families && s.families[f].user == user && s.families[f].device == device
  }

  // No token of the families opens anything any more.
  ghost predicate AllRefused(s: Server, families: set<Id>) {
    forall t, attempt, client, now {:trigger Rotate(s, t, attempt, client, now)} |
      t in s.tokens && s.tokens[t].family in families :: Rotate(s, t, attempt, client, now) == (s, Err(Unauthorized))
  }

  lemma RevokedAreRefused(s: Server, families: set<Id>)
    requires forall f | f in families && f in s.families :: s.families[f].revoked
    ensures AllRefused(s, families)
  {
  }

  /** A logout succeeds if and only if the token is known for the client and its family not revoked. It then revokes
      every family of that user on that device and nothing else, and no token of theirs is good for a refresh or
      another logout. A logout that fails changes nothing. */
  lemma LogoutRevokesIff(s: Server, token: Token, client: Option<Id>)
    ensures var (t, failed) := Logout(s, token, client);
            && (failed.None? <==> KnownFor(s, token, client) && !s.families[s.tokens[token].family].revoked)
            && (failed.Some? ==> failed.value == Unauthorized && t == s)
            && (failed.None? ==>
                  var f := s.families[s.tokens[token].family];
                  && RevokedExactly(s, t, FamiliesOf(s, f.user, f.device)) && s.tokens[token].family in FamiliesOf(s, f.user, f.device)
                  && AllRefused(t, FamiliesOf(s, f.user, f.device))
                  && forall u, c | u in t.tokens && t.tokens[u].family in FamiliesOf(s, f.user, f.device) :: Logout(t, u, c).1.Some?)
  {
    var (t, failed) := Logout(s, token, client);
    if failed.None? {
      var f := s.families[s.tokens[token].family];
      RevokedAreRefused(t, FamiliesOf(s, f.user, f.device));
    }
  }

  // Logging out everywhere does the same to all families of the user.
  lemma RevokeAllRevokes(s: Server, user: Id)
    ensures var t, mine := RevokeAll(s, user), set f | f in s.families && s.families[f].user == user; RevokedExactly(s, t, mine) && AllRefused(t, mine)
  {
    RevokedAreRefused(RevokeAll(s, user), set f | f in s.families && s.families[f].user == user);
  }

  /** A login on a registered device is answered with the first token of a family of its own, good at once; the
      device's older families of the user are revoked, and no other. */
  lemma LoginStartsFamily(s: Server, device: Id, user: Id, client: Id, newFamily: Id, attempt: Id, now: int)
    requires NewFamilyId(s, newFamily)
    ensures var (t, r) := CreateFamily(s, device, user, client, newFamily);
            && (r.Ok? <==> device in s.devices && s.devices[device].user == user && s.devices[device].client == client)
            && (r.Err? ==> r.error == Unavailable && t == s)
            && (r.Ok? ==>
                  && r.value == Initial(newFamily) && t.devices == s.devices && t.tokens == s.tokens[r.value := TokenRow(newFamily, None)]
                  && RevokedExactly(s, t.(families := t.families - {newFamily}, tokens := s.tokens), FamiliesOf(s, user, device))
                  && t.families.Keys == s.families.Keys + {newFamily} && t.families[newFamily] == Family(user, device, false, false, 0)
                  && (Child(r.value, attempt) !in s.tokens ==> Rotate(t, r.value, Some(attempt), Some(client), now).1 == Ok(Child(r.value, attempt))))
  {
  }

  /** After a rotation the same attempt is answered the same, as often as it is repeated, for a minute and no longer;
      any other attempt, or the same one later, revokes the family and marks it as reused. */
  lemma RetriedWithinAMinuteIff(s: Server, token: Token, attempt: Id, again: Id, client: Option<Id>, now: int, later: int)
    requires Inv(s) && KnownFor(s, token, client) && s.tokens[token].retired.None? && !s.families[s.tokens[token].family].revoked
    ensures var t := Rotate(s, token, Some(attempt), client, now).0;
            var (u, r) := Rotate(t, token, Some(again), client, later);
            var f := s.tokens[token].family;
            && (r == Ok(Child(token, attempt)) <==> again == attempt && later < now + 60)
            && (r.Ok? ==> u == t)
            && (r.Err? ==> r.error == Unauthorized && u == t.(families := t.families[f := t.families[f].(revoked := true, reuseDetected := true)]))
  {
    RotationNeverCollides(s, token, attempt);
  }
}
