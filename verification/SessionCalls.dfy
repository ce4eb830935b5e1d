/**
 What each call of the auth service does, read off the accounts and keys alone: exactly when it
 succeeds, which error it gives otherwise, and every account and key it leaves behind.
 */
module SessionCalls {
  import opened Basics
  import opened Sessions
  import Text

  // ----- Registration and login

  /** The policy lets the address in: registration is on, and its domain is listed if there is a list. */
  ghost predicate Admits(a: Admission) {
    && a.enabled
    && (|a.allowedDomains| > 0 ==>
          && a.domain.Some? && |a.domain.value| > 0
          && exists i :: 0 <= i < |a.allowedDomains| && Text.Lower(a.allowedDomains[i]) == Text.Lower(a.domain.value))
  }

  lemma RegisterErrors(s: Store, u: User, password: string, a: Admission, now: int)
    ensures var (s', r) := Register(s, u, password, a, now);
      && (r == Err(RegistrationDisabled) <==> !a.enabled)
      && (r == Err(DomainNotAllowed) <==> a.enabled && !Admits(a))
      && (r == Err(Duplicate) <==> Admits(a) && u in s.accounts)
      && (r == Err(WeightsRefused) <==> Admits(a) && u !in s.accounts && !a.recalculates)
      && (r == Ok(Done) <==> Admits(a) && u !in s.accounts && a.recalculates)
  {
  }

  /** A registration makes an active, unverified account, and a verification token for a day. */
  lemma RegisterExact(s: Store, u: User, password: string, a: Admission, now: int)
    requires Admits(a) && u !in s.accounts
    ensures var s' := Register(s, u, password, a, now).0;
      var expires := now + 24 * 60 * 60 * 1000;
      && s'.accounts == s.accounts[u := Account(Some(password), false, true, false)]
      && s' == s.(accounts := s'.accounts, verification := s'.verification, secrets := s'.secrets)
      && (!a.recalculates ==> s'.verification == s.verification && s'.secrets == s.secrets)
      && (a.recalculates ==>
            && s'.secrets == s.secrets + 1
            && s'.verification.tokens == s.verification.tokens[s.secrets := Entry(u, expires)]
            && s'.verification.current == s.verification.current[u := Entry(s.secrets, expires)])
  {
  }

  /** The seven-day refresh key of a new token, and the index set that lists it with the ones still there. */
  ghost predicate KeyAdded(s: Store, s': Store, u: User, t: Token, now: int) {
    var expires := now + 7 * 24 * 60 * 60 * 1000;
    var listed := if u in s.index && now < s.index[u].expires then s.index[u].value else {};
    && s'.refresh == s.refresh[(u, t) := expires]
    && s'.index == s.index[u := Entry(listed + {t}, expires)]
  }

  /** Two new tokens, an access and a refresh token, with the stored version and the configured lifetimes. */
  ghost predicate TokensIssued(cfg: Config, s: Store, s': Store, u: User, now: int) {
    var version := if u in s.versions then s.versions[u] else 1;
    && s'.versions == s.versions[u := version]
    && s'.issued == s.issued + [Claims(u, version, now / 1000 + cfg.accessSeconds),
                                Claims(u, version, now / 1000 + cfg.refreshSeconds)]
  }

  lemma LoginErrors(cfg: Config, s: Store, u: User, password: string, now: int)
    ensures var (s', r) := Login(cfg, s, u, password, now);
      var active := u in s.accounts && s.accounts[u].active;
      var matches := active && s.accounts[u].password == Some(password);
      && (r == Err(SsoOnly) <==> active && s.accounts[u].password == None)
      && (r == Err(InvalidCredentials) <==> !active || (s.accounts[u].password != None && !matches))
      && (r == Err(NotVerified) <==> matches && !s.accounts[u].verified)
      && (r == Err(ResetRequired) <==> matches && s.accounts[u].verified && s.accounts[u].resetRequired)
      && (r.Ok? <==> matches && s.accounts[u].verified && !s.accounts[u].resetRequired)
      && (r.Err? ==> s' == s)
  {
  }

  lemma LoginExact(cfg: Config, s: Store, u: User, password: string, now: int)
    requires Login(cfg, s, u, password, now).1.Ok?
    ensures var (s', r) := Login(cfg, s, u, password, now);
      && r == Ok(Issued(|s.issued|, |s.issued| + 1))
      && TokensIssued(cfg, s, s', u, now)
      && KeyAdded(s, s', u, |s.issued| + 1, now)
      && s' == s.(versions := s'.versions, issued := s'.issued, refresh := s'.refresh, index := s'.index)
  {
  }

  // ----- Mail tokens

  /** The token is unexpired, and the unexpired current one of this user. */
  ghost predicate IsCurrent(box: MailBox, secret: Secret, u: User, now: int) {
    && secret in box.tokens && now < box.tokens[secret].expires && box.tokens[secret].value == u
    && u in box.current && now < box.current[u].expires && box.current[u].value == secret
  }

  lemma MailUserExact(box: MailBox, secret: Secret, now: int)
    ensures forall u: User :: IsCurrent(box, secret, u, now) <==> MailUser(box, secret, now) == Some(u)
  {
  }

  lemma VerifyExact(s: Store, secret: Secret, now: int)
    ensures var (s', r) := VerifyEmail(s, secret, now);
      && (r == Err(TokenInvalid) <==> forall u :: !IsCurrent(s.verification, secret, u, now))
      && forall u | IsCurrent(s.verification, secret, u, now) ::
           && (r == Err(NotFound) <==> u !in s.accounts)
           && (r == Err(AlreadyVerified) <==> u in s.accounts && s.accounts[u].verified)
           && (r == Ok(Done) <==> u in s.accounts && !s.accounts[u].verified)
           && (r.Err? ==> s' == s)
           && (r.Ok? ==>
                 && s'.accounts == s.accounts[u := s.accounts[u].(verified := true)]
                 && s'.verification == MailBox(s.verification.tokens - {secret}, s.verification.current - {u})
                 && s' == s.(accounts := s'.accounts, verification := s'.verification))
  {
    MailUserExact(s.verification, secret, now);
    var found := MailUser(s.verification, secret, now);
    assert found.Some? ==> IsCurrent(s.verification, secret, found.value, now);
  }

  /** Asking again replaces the unexpired current token of an unverified user by a new one; others get nothing. */
  lemma ResendExact(s: Store, u: User, now: int)
    ensures var (s', r) := ResendVerification(s, u, now);
      var expires := now + 24 * 60 * 60 * 1000;
      var box := s.verification;
      var replaced := if u in box.current && now < box.current[u].expires then {box.current[u].value} else {};
      && r == Ok(Done)
      && (u !in s.accounts || s.accounts[u].verified ==> s' == s)
      && (u in s.accounts && !s.accounts[u].verified ==>
            && s'.verification.tokens == (box.tokens - replaced)[s.secrets := Entry(u, expires)]
            && s'.verification.current == box.current[u := Entry(s.secrets, expires)]
            && s' == s.(verification := s'.verification, secrets := s.secrets + 1))
  {
    var box := s.verification;
    assert box.tokens - {} == box.tokens;
  }

  /** A known user gets a reset token for an hour; an unknown one nothing, and no error. */
  lemma ForgotExact(s: Store, u: User, now: int)
    ensures var (s', r) := ForgotPassword(s, u, now);
      var expires := now + 60 * 60 * 1000;
      && r == Ok(Done)
      && (u !in s.accounts ==> s' == s)
      && (u in s.accounts ==>
            && s'.reset.tokens == s.reset.tokens[s.secrets := Entry(u, expires)]
            && s'.reset.current == s.reset.current[u := Entry(s.secrets, expires)]
            && s' == s.(reset := s'.reset, secrets := s.secrets + 1))
  {
  }

  // ----- Passwords

  /** Every refresh key of the user and the index are gone, and all others are as they were. */
  ghost predicate KeysGone(s: Store, s': Store, u: User) {
    && (forall v, t :: (v, t) in s'.refresh <==> (v, t) in s.refresh && v != u)
    && (forall k | k in s'.refresh :: k in s.refresh && s'.refresh[k] == s.refresh[k])
    && s'.index == s.index - {u}
  }

  lemma AllKeysGone(s: Store, u: User)
    ensures KeysGone(s, RevokeAll(s, u), u)
  {
    forall v, t ensures (v, t) in RevokeAll(s, u).refresh <==> (v, t) in s.refresh && v != u {
      assert (v, t) in RefreshKeys(s, u) <==> (v, t) in s.refresh && v == u;
    }
  }

  /** A raised version: one more than the stored one, or 1. */
  ghost predicate VersionRaised(s: Store, s': Store, u: User) {
    s'.versions == s.versions[u := if u in s.versions then s.versions[u] + 1 else 1]
  }

  lemma ResetErrors(s: Store, secret: Secret, password: string, now: int)
    ensures var (s', r) := ResetPassword(s, secret, password, now);
      && (r == Err(TokenInvalid) <==> forall u :: !IsCurrent(s.reset, secret, u, now))
      && (forall u | IsCurrent(s.reset, secret, u, now) ::
            (r == Err(NotFound) <==> u !in s.accounts) && (r == Ok(Done) <==> u in s.accounts))
      && (r.Err? ==> s' == s)
  {
    MailUserExact(s.reset, secret, now);
    var found := MailUser(s.reset, secret, now);
    assert found.Some? ==> IsCurrent(s.reset, secret, found.value, now);
  }

  /** A reset stores the password, lifts the demand for it, ends the sessions, raises the version, spends the token. */
  lemma ResetExact(s: Store, secret: Secret, password: string, now: int, u: User)
    requires IsCurrent(s.reset, secret, u, now) && u in s.accounts
    ensures var s' := ResetPassword(s, secret, password, now).0;
      && s'.accounts == s.accounts[u := s.accounts[u].(password := Some(password), resetRequired := false)]
      && KeysGone(s, s', u) && VersionRaised(s, s', u)
      && s'.reset == MailBox(s.reset.tokens - {secret}, s.reset.current - {u})
      && s' == s.(accounts := s'.accounts, refresh := s'.refresh, index := s'.index, versions := s'.versions,
                  reset := s'.reset)
  {
    AllKeysGone(NewPassword(s, u, password), u);
  }

  /** A change needs the stored password; anything else changes nothing. */
  lemma ChangeErrors(s: Store, u: User, current: string, password: string)
    ensures var (s', r) := ChangePassword(s, u, current, password);
      && (r == Err(NotFound) <==> u !in s.accounts)
      && (r == Err(SsoOnly) <==> u in s.accounts && s.accounts[u].password == None)
      && (r == Err(InvalidCredentials) <==>
            u in s.accounts && s.accounts[u].password != None && s.accounts[u].password != Some(current))
      && (r == Ok(Done) <==> u in s.accounts && s.accounts[u].password == Some(current))
      && (r.Err? ==> s' == s)
  {
  }

  /** It then stores the new password, lifts the demand for it and ends the sessions, and leaves the version. */
  lemma ChangeExact(s: Store, u: User, current: string, password: string)
    requires u in s.accounts && s.accounts[u].password == Some(current)
    ensures var s' := ChangePassword(s, u, current, password).0;
      && s'.accounts == s.accounts[u := s.accounts[u].(password := Some(password), resetRequired := false)]
      && KeysGone(s, s', u)
      && s' == s.(accounts := s'.accounts, refresh := s'.refresh, index := s'.index)
  {
    AllKeysGone(NewPassword(s, u, password), u);
  }

  lemma ForceExact(s: Store, u: User)
    ensures var (s', r) := ForcePasswordReset(s, u);
      && (r == Err(NotFound) <==> u !in s.accounts)
      && (r == Ok(NotApplicable) <==> u in s.accounts && s.accounts[u].password == None)
      && (r == Ok(Done) <==> u in s.accounts && s.accounts[u].password != None)
      && (r != Ok(Done) ==> s' == s)
      && (r == Ok(Done) ==>
            && s'.accounts == s.accounts[u := s.accounts[u].(resetRequired := true)]
            && KeysGone(s, s', u) && VersionRaised(s, s', u)
            && s' == s.(accounts := s'.accounts, refresh := s'.refresh, index := s'.index, versions := s'.versions))
  {
    if u in s.accounts {
      AllKeysGone(s.(accounts := s.accounts[u := s.accounts[u].(resetRequired := true)]), u);
    }
  }

  /** The call gives the user's stored password, or redeems the user's current reset mail. */
  ghost predicate MaySetPassword(s: Store, op: Op, now: int, u: User) {
    || (op.ChangeOp? && op.user == u && u in s.accounts && s.accounts[u].password == Some(op.current))
    || (op.ResetOp? && IsCurrent(s.reset, op.secret, u, now))
  }

  lemma StepPassword(cfg: Config, s: Store, op: Op, now: int, u: User)
    requires u in s.accounts
    ensures var s' := Step(cfg, s, op, now).0;
      && u in s'.accounts
      && s'.accounts[u].password ==
         if MaySetPassword(s, op, now, u) then Some(op.password) else s.accounts[u].password
  {
    match op {
      case ResetOp(secret, _) => MailUserExact(s.reset, secret, now);
      case ChangeOp(_, _, _) =>
      case _ => OtherStepsKeepPasswords(cfg, s, op, now, u);
    }
  }

  lemma OtherStepsKeepPasswords(cfg: Config, s: Store, op: Op, now: int, u: User)
    requires u in s.accounts && !op.ResetOp? && !op.ChangeOp?
    ensures var s' := Step(cfg, s, op, now).0;
      u in s'.accounts && s'.accounts[u].password == s.accounts[u].password
  {
  }

  /**
   In every run the password of a user with an account is set exactly by the events that give
   the stored one or redeem the current reset mail, and by no other.
   */
  lemma PasswordSetExact(run: Run, i: nat, u: User)
    requires run.Valid() && i < |run.events| && u in run.states[i].accounts
    ensures u in run.states[i + 1].accounts
    ensures var e := run.events[i];
      run.states[i + 1].accounts[u].password ==
        if MaySetPassword(run.states[i], e.op, e.now, u) then Some(e.op.password)
        else run.states[i].accounts[u].password
  {
    var e := run.events[i];
    StepPassword(run.cfg, run.states[i], e.op, e.now, u);
  }

  // ----- Tokens

  /** The token was issued, and its expiry second has not come. */
  ghost predicate Unexpired(s: Store, t: Token, now: int) {
    t < |s.issued| && now / 1000 < s.issued[t].exp
  }

  ghost predicate OnBlacklist(s: Store, t: Token, now: int) {
    t in s.blacklist && now < s.blacklist[t]
  }

  lemma RefreshErrors(cfg: Config, s: Store, t: Token, now: int)
    ensures var (s', r) := Refresh(cfg, s, t, now);
      var valid := !OnBlacklist(s, t, now) && Unexpired(s, t, now);
      && (r == Err(TokenInvalid) <==> !OnBlacklist(s, t, now) && !valid)
      && (r.Ok? ==> valid)
      && (r.Err? ==> s' == s)
      && (OnBlacklist(s, t, now) ==> r == Err(TokenRevoked))
      && (valid ==>
            var u := s.issued[t].sub;
            var stored := (u, t) in s.refresh && now < s.refresh[(u, t)];
            && (r == Err(TokenRevoked) <==> !stored)
            && (r == Err(NotFound) <==> stored && u !in s.accounts)
            && (r == Err(Deactivated) <==> stored && u in s.accounts && !s.accounts[u].active)
            && (r.Ok? <==> stored && u in s.accounts && s.accounts[u].active))
  {
  }

  /** A refresh swaps the key of the presented token for that of the new one, in the keys and in the index. */
  lemma RefreshExact(cfg: Config, s: Store, t: Token, now: int)
    requires Refresh(cfg, s, t, now).1.Ok?
    ensures var (s', r) := Refresh(cfg, s, t, now);
      var u, minted := s.issued[t].sub, |s.issued| + 1;
      var expires := now + 7 * 24 * 60 * 60 * 1000;
      var listed := if u in s.index && now < s.index[u].expires then s.index[u].value else {};
      && r == Ok(Issued(|s.issued|, minted))
      && TokensIssued(cfg, s, s', u, now)
      && s'.refresh == (s.refresh - {(u, t)})[(u, minted) := expires]
      && s'.index == s.index[u := Entry(listed - {t} + {minted}, expires)]
      && s' == s.(versions := s'.versions, issued := s'.issued, refresh := s'.refresh, index := s'.index)
  {
  }

  /** The guard: exactly which tokens it accepts. */
  lemma ValidateExact(s: Store, t: Token, now: int)
    ensures var r := ValidateAccess(s, t, now);
      && (r == Err(TokenInvalid) <==> !Unexpired(s, t, now))
      && (Unexpired(s, t, now) ==>
            var c := s.issued[t];
            var version := if c.version == 0 then 1 else c.version;
            && (r == Err(VersionMissing) <==> !OnBlacklist(s, t, now) && c.sub !in s.versions)
            && (r == Err(TokenRevoked) <==>
                  OnBlacklist(s, t, now) || (c.sub in s.versions && version < s.versions[c.sub]))
            && (r == Ok(Accepted(c.sub)) <==>
                  !OnBlacklist(s, t, now) && c.sub in s.versions && s.versions[c.sub] <= version))
  {
  }

  /** A logout ends the sessions, and blacklists a token that has seconds left for exactly those. */
  lemma LogoutExact(s: Store, t: Token, u: User, now: int)
    ensures var (s', r) := Logout(s, t, u, now);
      && r == Ok(Done)
      && KeysGone(s, s', u)
      && s'.blacklist ==
         (if Unexpired(s, t, now) then s.blacklist[t := now + 1000 * (s.issued[t].exp - now / 1000)] else s.blacklist)
      && s' == s.(refresh := s'.refresh, index := s'.index, blacklist := s'.blacklist)
  {
    AllKeysGone(s, u);
  }

  // ----- From outside the service

  /** Single sign-on adds an active, verified account without a password; an administrator sets the activity alone. */
  lemma OutsideExact(s: Store, u: User, active: bool)
    ensures AddSsoAccount(s, u) ==
      if u in s.accounts then (s, Err(Duplicate))
      else (s.(accounts := s.accounts[u := Account(None, true, true, false)]), Ok(Done))
    ensures var (s', r) := SetActive(s, u, active);
      && (r == Err(NotFound) <==> u !in s.accounts)
      && (r == Ok(Done) <==> u in s.accounts)
      && s' == if u in s.accounts then s.(accounts := s.accounts[u := s.accounts[u].(active := active)]) else s
  {
  }
}
