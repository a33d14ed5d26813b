/** The transactions on the refresh tables, row by row. */
module RefreshRepository {
  import opened Common
  import opened RefreshTokens

  class Repository {
    var devices: map<Id, Device>
    var families: map<Id, Family>
    var tokens: map<Token, TokenRow>

    constructor ()
      ensures Tables() == Server(map[], map[], map[])
    {
      devices, families, tokens := map[], map[], map[];
    }

    function Tables(): Server
      reads this
    {
      Server(devices, families, tokens)
    }

    // UPDATE refresh_families SET revoked_at = COALESCE(revoked_at, NOW()) WHERE user_id = $1 AND device_id = $2.
    method RevokeDevice(user: Id, device: Id)
      modifies this`families
      ensures Tables() == Revoke(old(Tables()), user, device)
    {
      families := map f | f in families ::
        if families[f].user == user && families[f].device == device then families[f].(revoked := true) else families[f];
    }

    method CreateTx(device: Id, user: Id, client: Id, newFamily: Id) returns (r: Result<Token, RefreshError>)
      requires NewFamilyId(Tables(), newFamily)
      modifies this`families, this`tokens
      ensures (Tables(), r) == CreateFamily(old(Tables()), device, user, client, newFamily)
      ensures RefreshTokens.Inv(old(Tables())) ==> RefreshTokens.Inv(Tables())
    {
      CreateInv(Tables(), device, user, client, newFamily);
      if device !in devices || devices[device] != Device(user, client) { return Err(Unavailable); }
      RevokeDevice(user, device);
      families := families[newFamily := Family(user, device, false, false, 0)];
      var token := Initial(newFamily);
      tokens := tokens[token := TokenRow(newFamily, None)];
      r := Ok(token);
    }

    method RotateForClient(token: Token, attempt: Option<Id>, client: Option<Id>, now: int) returns (r: Result<Token, RefreshError>)
      modifies this`families, this`tokens
      ensures (Tables(), r) == Rotate(old(Tables()), token, attempt, client, now)
      ensures RefreshTokens.Inv(old(Tables())) ==> RefreshTokens.Inv(Tables())
    {
      RotateInv(Tables(), token, attempt, client, now);
      if attempt.None? { return Err(Unauthorized); }
      if !Selected(Tables(), token, client) { return Err(Unauthorized); }
      var row := tokens[token];
      var family := families[row.family];
      if family.revoked { return Err(Unauthorized); }
      if row.retired.Some? {
        var retired := row.retired.value;
        if retired.attempt == attempt.value && now < retired.retryUntil {
          return Ok(Child(token, attempt.value));
        }
        families := families[row.family := family.(revoked := true, reuseDetected := true)];
        return Err(Unauthorized);
      }
      var child := Child(token, attempt.value);
      if child in tokens { return Err(Unavailable); }
      tokens := tokens[child := TokenRow(row.family, None)];
      tokens := tokens[token := TokenRow(row.family, Some(Retirement(attempt.value, now + RETRY_WINDOW, child)))];
      families := families[row.family := family.(rotations := family.rotations + 1)];
      r := Ok(child);
    }

    method LogoutForClient(token: Token, client: Option<Id>) returns (failed: Option<RefreshError>)
      modifies this`families
      ensures (Tables(), failed) == Logout(old(Tables()), token, client)
      ensures RefreshTokens.Inv(old(Tables())) ==> RefreshTokens.Inv(Tables())
    {
      LogoutInv(Tables(), token, client);
      if !Selected(Tables(), token, client) || families[tokens[token].family].revoked { return Some(Unauthorized); }
      var family := families[tokens[token].family];
      RevokeDevice(family.user, family.device);
      failed := None;
    }
  }

  lemma CreateInv(s: Server, device: Id, user: Id, client: Id, newFamily: Id)
    requires NewFamilyId(s, newFamily)
    ensures RefreshTokens.Inv(s) ==> RefreshTokens.Inv(CreateFamily(s, device, user, client, newFamily).0)
  {
    if RefreshTokens.Inv(s) { ServeKeepsInv(s, Create(device, user, client, newFamily)); }
  }

  lemma RotateInv(s: Server, token: Token, attempt: Option<Id>, client: Option<Id>, now: int)
    ensures RefreshTokens.Inv(s) ==> RefreshTokens.Inv(Rotate(s, token, attempt, client, now).0)
  {
    if RefreshTokens.Inv(s) { ServeKeepsInv(s, Refresh(token, attempt, client, now)); }
  }

  lemma LogoutInv(s: Server, token: Token, client: Option<Id>)
    ensures RefreshTokens.Inv(s) ==> RefreshTokens.Inv(Logout(s, token, client).0)
  {
    if RefreshTokens.Inv(s) { ServeKeepsInv(s, SignOut(token, client)); }
  }
}
