/**
 The auth service as the code runs it: account rows and Redis keys as fields, changed key by
 key.  Every method is proved to do what its function in `Sessions` says.
 */
module AuthService {
  import opened Basics
  import Text
  import opened Sessions

  class Service {
    const cfg: Config
    var accounts: map<User, Account>
    var refresh: map<(User, Token), int>
    var index: map<User, Entry<set<Token>>>
    var versions: map<User, nat>
    var blacklist: map<Token, int>
    var verification: MailBox
    var reset: MailBox
    var issued: seq<Claims>
    var secrets: nat

    ghost function View(): Store
      reads this
    {
      Store(accounts, refresh, index, versions, blacklist, verification, reset, issued, secrets)
    }

    constructor (cfg: Config)
      ensures View() == EMPTY_STORE && this.cfg == cfg
    {
      this.cfg := cfg;
      accounts, refresh, index, versions, blacklist := map[], map[], map[], map[], map[];
      verification, reset, issued, secrets := MailBox(map[], map[]), MailBox(map[], map[]), [], 0;
    }

    // ----- Key operations

    method StoreRefreshToken(user: User, token: Token, now: int)
      modifies this`refresh, this`index
      ensures View() == Sessions.StoreRefresh(old(View()), user, token, now)
    {
      refresh := refresh[(user, token) := now + WEEK_MS];
      // SADD starts a new set when the old one has expired.
      var members := {};
      if user in index && now < index[user].expires {
        members := index[user].value;
      }
      index := index[user := Entry(members + {token}, now + WEEK_MS)];
    }

    method RevokeRefreshToken(user: User, token: Token, now: int)
      modifies this`refresh, this`index
      ensures View() == Sessions.RevokeRefresh(old(View()), user, token, now)
    {
      refresh := refresh - {(user, token)};
      // SREM removes the key together with its last member.
      if user in index && now < index[user].expires && index[user].value - {token} != {} {
        index := index[user := Entry(index[user].value - {token}, index[user].expires)];
      } else {
        index := index - {user};
      }
    }

    method RevokeAllUserRefreshTokens(user: User)
      modifies this`refresh, this`index
      ensures View() == Sessions.RevokeAll(old(View()), user)
    {
      var keys := set k | k in refresh && k.0 == user;
      ghost var all, before := keys, refresh;
      while keys != {}
        invariant keys <= all && refresh == before - (all - keys) && index == old(index)
        decreases keys
      {
        var key :| key in keys;
        refresh := refresh - {key};
        keys := keys - {key};
        assert before - (all - keys) == (before - (all - keys - {key})) - {key};
      }
      assert all - keys == all == RefreshKeys(old(View()), user);
      index := index - {user};
    }

    method IncrementTokenVersion(user: User)
      modifies this`versions
      ensures View() == Sessions.BumpVersion(old(View()), user)
    {
      var current := if user in versions then versions[user] else 0;
      versions := versions[user := current + 1];
    }

    method GetOrInitTokenVersion(user: User) returns (version: nat)
      modifies this`versions
      ensures version == if user in old(versions) then old(versions)[user] else 1
      ensures versions == old(versions)[user := version]
    {
      if user in versions {
        assert versions == versions[user := versions[user]];
        return versions[user];
      }
      versions := versions[user := 1];
      return 1;
    }

    method GenerateTokens(user: User, now: int) returns (access: Token, refreshToken: Token)
      modifies this`versions, this`issued
      ensures View() == Sessions.GenerateTokens(cfg, old(View()), user, now)
      ensures access == |old(issued)| && refreshToken == access + 1
    {
      var version := GetOrInitTokenVersion(user);
      access := |issued|;
      refreshToken := access + 1;
      issued := issued + [Claims(user, version, Seconds(now) + cfg.accessSeconds),
                          Claims(user, version, Seconds(now) + cfg.refreshSeconds)];
    }

    // ----- Accounts

    method Register(user: User, password: string, a: Admission, now: int) returns (r: Outcome)
      modifies this
      ensures (View(), r) == Sessions.Register(old(View()), user, password, a, now)
    {
      if !a.enabled {
        return Err(RegistrationDisabled);
      }
      if |a.allowedDomains| > 0 {
        if a.domain.None? || a.domain.value == "" {
          return Err(DomainNotAllowed);
        }
        var domain := Text.Lower(a.domain.value);
        if !(exists d | d in a.allowedDomains :: Text.Lower(d) == domain) {
          return Err(DomainNotAllowed);
        }
      }
      if user in accounts {
        return Err(Duplicate);
      }
      accounts := accounts[user := Account(Some(password), false, true, false)];
      if !a.recalculates {
        return Err(WeightsRefused);
      }
      var secret := secrets;
      secrets := secrets + 1;
      verification := verification.(current := verification.current[user := Entry(secret, now + DAY_MS)]);
      verification := verification.(tokens := verification.tokens[secret := Entry(user, now + DAY_MS)]);
      return Ok(Done);
    }

    method Login(user: User, password: string, now: int) returns (r: Outcome)
      modifies this
      ensures (View(), r) == Sessions.Login(cfg, old(View()), user, password, now)
    {
      if user !in accounts || !accounts[user].active {
        return Err(InvalidCredentials);
      }
      var account := accounts[user];
      if account.password.None? {
        return Err(SsoOnly);
      }
      if account.password.value != password {
        return Err(InvalidCredentials);
      }
      if !account.verified {
        return Err(NotVerified);
      }
      if account.resetRequired {
        return Err(ResetRequired);
      }
      var access, refreshToken := GenerateTokens(user, now);
      StoreRefreshToken(user, refreshToken, now);
      return Ok(Issued(access, refreshToken));
    }

    method VerifyEmail(secret: Secret, now: int) returns (r: Outcome)
      modifies this
      ensures (View(), r) == Sessions.VerifyEmail(old(View()), secret, now)
    {
      if !(secret in verification.tokens && now < verification.tokens[secret].expires) {
        return Err(TokenInvalid);
      }
      var user := verification.tokens[secret].value;
      if !(user in verification.current && now < verification.current[user].expires &&
           verification.current[user].value == secret) {
        return Err(TokenInvalid);
      }
      if user !in accounts {
        return Err(NotFound);
      }
      if accounts[user].verified {
        return Err(AlreadyVerified);
      }
      accounts := accounts[user := accounts[user].(verified := true)];
      verification := verification.(tokens := verification.tokens - {secret});
      verification := verification.(current := verification.current - {user});
      return Ok(Done);
    }

    method ResendVerification(user: User, now: int) returns (r: Outcome)
      modifies this
      ensures (View(), r) == Sessions.ResendVerification(old(View()), user, now)
    {
      if user !in accounts || accounts[user].verified {
        return Ok(Done);
      }
      if user in verification.current && now < verification.current[user].expires {
        verification := verification.(tokens := verification.tokens - {verification.current[user].value});
      }
      var secret := secrets;
      secrets := secrets + 1;
      verification := verification.(current := verification.current[user := Entry(secret, now + DAY_MS)]);
      verification := verification.(tokens := verification.tokens[secret := Entry(user, now + DAY_MS)]);
      return Ok(Done);
    }

    method ForgotPassword(user: User, now: int) returns (r: Outcome)
      modifies this
      ensures (View(), r) == Sessions.ForgotPassword(old(View()), user, now)
    {
      if user !in accounts {
        return Ok(Done);
      }
      var secret := secrets;
      secrets := secrets + 1;
      reset := reset.(current := reset.current[user := Entry(secret, now + HOUR_MS)]);
      reset := reset.(tokens := reset.tokens[secret := Entry(user, now + HOUR_MS)]);
      return Ok(Done);
    }

    method ResetPassword(secret: Secret, password: string, now: int) returns (r: Outcome)
      modifies this
      ensures (View(), r) == Sessions.ResetPassword(old(View()), secret, password, now)
    {
      if !(secret in reset.tokens && now < reset.tokens[secret].expires) {
        return Err(TokenInvalid);
      }
      var user := reset.tokens[secret].value;
      if !(user in reset.current && now < reset.current[user].expires && reset.current[user].value == secret) {
        return Err(TokenInvalid);
      }
      if user !in accounts {
        return Err(NotFound);
      }
      accounts := accounts[user := accounts[user].(password := Some(password), resetRequired := false)];
      RevokeAllUserRefreshTokens(user);
      IncrementTokenVersion(user);
      reset := reset.(tokens := reset.tokens - {secret});
      reset := reset.(current := reset.current - {user});
      return Ok(Done);
    }

    method ChangePassword(user: User, current: string, password: string) returns (r: Outcome)
      modifies this
      ensures (View(), r) == Sessions.ChangePassword(old(View()), user, current, password)
    {
      if user !in accounts {
        return Err(NotFound);
      }
      if accounts[user].password.None? {
        return Err(SsoOnly);
      }
      if accounts[user].password.value != current {
        return Err(InvalidCredentials);
      }
      accounts := accounts[user := accounts[user].(password := Some(password), resetRequired := false)];
      RevokeAllUserRefreshTokens(user);
      return Ok(Done);
    }

    method ForcePasswordReset(user: User) returns (r: Outcome)
      modifies this
      ensures (View(), r) == Sessions.ForcePasswordReset(old(View()), user)
    {
      if user !in accounts {
        return Err(NotFound);
      }
      if accounts[user].password.None? {
        return Ok(NotApplicable);
      }
      accounts := accounts[user := accounts[user].(resetRequired := true)];
      RevokeAllUserRefreshTokens(user);
      IncrementTokenVersion(user);
      return Ok(Done);
    }

    // ----- Tokens

    method Refresh(token: Token, now: int) returns (r: Outcome)
      modifies this
      ensures (View(), r) == Sessions.Refresh(cfg, old(View()), token, now)
    {
      if token in blacklist && now < blacklist[token] {
        return Err(TokenRevoked);
      }
      if !(token < |issued| && Seconds(now) < issued[token].exp) {
        return Err(TokenInvalid);
      }
      var user := issued[token].sub;
      if !((user, token) in refresh && now < refresh[(user, token)]) {
        return Err(TokenRevoked);
      }
      if user !in accounts {
        return Err(NotFound);
      }
      if !accounts[user].active {
        return Err(Deactivated);
      }
      var access, refreshToken := GenerateTokens(user, now);
      RevokeRefreshToken(user, token, now);
      StoreRefreshToken(user, refreshToken, now);
      return Ok(Issued(access, refreshToken));
    }

    method ValidateUser(token: Token, now: int) returns (r: Outcome)
      ensures r == Sessions.ValidateAccess(View(), token, now)
    {
      if !(token < |issued| && Seconds(now) < issued[token].exp) {
        return Err(TokenInvalid);
      }
      if token in blacklist && now < blacklist[token] {
        return Err(TokenRevoked);
      }
      var payload := issued[token];
      var payloadVersion := if payload.version != 0 then payload.version else 1;
      if payload.sub !in versions {
        return Err(VersionMissing);
      }
      if payloadVersion < versions[payload.sub] {
        return Err(TokenRevoked);
      }
      return Ok(Accepted(payload.sub));
    }

    method Logout(token: Token, user: User, now: int) returns (r: Outcome)
      modifies this
      ensures (View(), r) == Sessions.Logout(old(View()), token, user, now)
    {
      RevokeAllUserRefreshTokens(user);
      if token < |issued| {
        var ttl := issued[token].exp - Seconds(now);
        if ttl > 0 {
          blacklist := blacklist[token := now + 1000 * ttl];
        }
      }
      return Ok(Done);
    }
  }
}
