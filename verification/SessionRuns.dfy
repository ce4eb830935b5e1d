/** What every run of the auth service keeps. */
module SessionRuns {
  import opened Basics
  import opened Sessions

  /** Every live refresh key is listed in its user's index set, which expires no earlier. */
  ghost predicate IndexComplete(s: Store, now: int) {
    forall u, t | RefreshActive(s, u, t, now) ::
      && t in Members(s, u, now)
      && s.refresh[(u, t)] <= s.index[u].expires
  }

  /** A refresh key belongs to an issued token of a verified user with no pending reset. */
  ghost predicate RefreshGuarded(s: Store) {
    forall k | k in s.refresh ::
      && k.1 < |s.issued| && s.issued[k.1].sub == k.0
      && k.0 in s.accounts && s.accounts[k.0].verified && !s.accounts[k.0].resetRequired
  }

  /** Stored versions start at 1, and issued versions are at most the stored one. */
  ghost predicate VersionsBounded(s: Store) {
    && (forall u | u in s.versions :: 1 <= s.versions[u])
    && forall i | 0 <= i < |s.issued| ::
      && s.issued[i].sub in s.versions
      && 1 <= s.issued[i].version <= s.versions[s.issued[i].sub]
  }

  /** A blacklist entry lives at least until its token expires. */
  ghost predicate BlacklistLongEnough(s: Store) {
    forall t | t in s.blacklist :: t < |s.issued| && 1000 * s.issued[t].exp <= s.blacklist[t]
  }

  // ----- One step

  lemma StoreKeepsIndex(s: Store, u: User, t: Token, now: int)
    requires IndexComplete(s, now) && KeysWithinWeek(s, now)
    ensures IndexComplete(StoreRefresh(s, u, t, now), now)
  {
    var s' := StoreRefresh(s, u, t, now);
    forall v, x | RefreshActive(s', v, x, now)
      ensures x in Members(s', v, now) && s'.refresh[(v, x)] <= s'.index[v].expires
    {
      assert (v, x) == (u, t) || RefreshActive(s, v, x, now);
    }
  }

  lemma RevokeKeepsIndex(s: Store, u: User, t: Token, now: int)
    requires IndexComplete(s, now)
    ensures IndexComplete(RevokeRefresh(s, u, t, now), now)
  {
    var s' := RevokeRefresh(s, u, t, now);
    forall v, x | RefreshActive(s', v, x, now)
      ensures x in Members(s', v, now) && s'.refresh[(v, x)] <= s'.index[v].expires
    {
      assert RefreshActive(s, v, x, now);
    }
  }

  lemma RevokeAllKeepsIndex(s: Store, u: User, now: int)
    requires IndexComplete(s, now)
    ensures IndexComplete(RevokeAll(s, u), now)
  {
    var s' := RevokeAll(s, u);
    forall v, x | RefreshActive(s', v, x, now)
      ensures x in Members(s', v, now) && s'.refresh[(v, x)] <= s'.index[v].expires
    {
      assert (v, x) !in RefreshKeys(s, u);
      assert RefreshActive(s, v, x, now);
    }
  }

  /** No key outlives a key stored now. */
  ghost predicate KeysWithinWeek(s: Store, now: int) {
    forall k | k in s.refresh :: s.refresh[k] <= now + WEEK_MS
  }

  /** What the methods that do not touch the refresh keys have in common. */
  lemma SameKeysKeepIndex(s: Store, s': Store, now: int)
    requires IndexComplete(s, now) && s'.refresh == s.refresh && s'.index == s.index
    ensures IndexComplete(s', now)
  {
    assert forall u, t :: RefreshActive(s', u, t, now) == RefreshActive(s, u, t, now);
    assert forall u :: Members(s', u, now) == Members(s, u, now);
  }

  lemma LaterIndex(s: Store, before: int, now: int)
    requires IndexComplete(s, before) && before <= now
    ensures IndexComplete(s, now)
  {
    assert forall u, t :: RefreshActive(s, u, t, now) ==> RefreshActive(s, u, t, before);
  }

  /** The user whose refresh keys a successful step deletes, if there is one. */
  function RevokedUser(s: Store, op: Op, now: int): Option<User> {
    match op
    case LogoutOp(_, u) => Some(u)
    case ChangeOp(u, _, _) => Some(u)
    case ForceResetOp(u) => Some(u)
    case ResetOp(secret, _) => MailUser(s.reset, secret, now)
    case _ => None
  }

  lemma StepIssuesNothing(cfg: Config, s: Store, op: Op, now: int)
    requires !op.LoginOp? && !op.RefreshOp?
    ensures Step(cfg, s, op, now).0.issued == s.issued
  {
  }

  /** The refresh keys and index sets of two stores agree. */
  ghost predicate SameKeys(a: Store, b: Store) {
    a.refresh == b.refresh && a.index == b.index
  }

  /** A step other than a login or a refresh changes nothing in the keys, or deletes those of one user. */
  lemma StepRevokes(cfg: Config, s: Store, op: Op, now: int)
    requires !op.LoginOp? && !op.RefreshOp?
    ensures var (s', u) := (Step(cfg, s, op, now).0, RevokedUser(s, op, now));
      SameKeys(s', s) || (u.Some? && SameKeys(s', RevokeAll(s, u.value)))
  {
  }

  lemma StepKeepsIndex(cfg: Config, s: Store, op: Op, before: int, now: int)
    requires IndexComplete(s, before) && before <= now && KeysWithinWeek(s, before)
    ensures IndexComplete(Step(cfg, s, op, now).0, now)
  {
    var s' := Step(cfg, s, op, now).0;
    LaterIndex(s, before, now);
    if op.LoginOp? || op.RefreshOp? {
      if s' != s {
        var u := if op.LoginOp? then op.user else s.issued[op.token].sub;
        var g := GenerateTokens(cfg, s, u, now);
        SameKeysKeepIndex(s, g, now);
        if op.RefreshOp? {
          RevokeKeepsIndex(g, u, op.token, now);
          StoreKeepsIndex(RevokeRefresh(g, u, op.token, now), u, |s.issued| + 1, now);
        } else {
          StoreKeepsIndex(g, u, |s.issued| + 1, now);
        }
      }
    } else {
      StepRevokes(cfg, s, op, now);
      var u := RevokedUser(s, op, now);
      if s'.refresh == s.refresh && s'.index == s.index {
        SameKeysKeepIndex(s, s', now);
      } else {
        RevokeAllKeepsIndex(s, u.value, now);
        SameKeysKeepIndex(RevokeAll(s, u.value), s', now);
      }
    }
  }

  lemma StepKeepsWeek(cfg: Config, s: Store, op: Op, before: int, now: int)
    requires KeysWithinWeek(s, before) && before <= now
    ensures KeysWithinWeek(Step(cfg, s, op, now).0, now)
  {
    if !op.LoginOp? && !op.RefreshOp? {
      StepRevokes(cfg, s, op, now);
    }
  }

  lemma StepKeepsGuarded(cfg: Config, s: Store, op: Op, now: int)
    requires RefreshGuarded(s)
    ensures RefreshGuarded(Step(cfg, s, op, now).0)
  {
    var s' := Step(cfg, s, op, now).0;
    if op.LoginOp? || op.RefreshOp? {
      StepMintsGuarded(cfg, s, op, now);
    } else {
      StepRevokes(cfg, s, op, now);
      StepIssuesNothing(cfg, s, op, now);
      StepKeepsVerified(cfg, s, op, now);
      StepAsksForReset(cfg, s, op, now);
    }
  }

  /** Accounts stay, and stay verified. */
  lemma StepKeepsVerified(cfg: Config, s: Store, op: Op, now: int)
    ensures var s' := Step(cfg, s, op, now).0;
      forall u | u in s.accounts :: u in s'.accounts && (s.accounts[u].verified ==> s'.accounts[u].verified)
  {
  }

  /** Only a forced reset, which deletes the keys, asks for a new password. */
  lemma StepAsksForReset(cfg: Config, s: Store, op: Op, now: int)
    ensures var s' := Step(cfg, s, op, now).0;
      forall u | u in s.accounts && u in s'.accounts && s'.accounts[u].resetRequired ::
        s.accounts[u].resetRequired || (op == ForceResetOp(u) && s'.refresh == RevokeAll(s, u).refresh)
  {
  }

  lemma StepMintsGuarded(cfg: Config, s: Store, op: Op, now: int)
    requires RefreshGuarded(s) && (op.LoginOp? || op.RefreshOp?)
    ensures RefreshGuarded(Step(cfg, s, op, now).0)
  {
    var s' := Step(cfg, s, op, now).0;
    if s' != s {
      var u := if op.LoginOp? then op.user else s.issued[op.token].sub;
      assert s'.accounts == s.accounts && s.issued <= s'.issued;
      assert s'.issued[|s.issued| + 1].sub == u;
      assert op.RefreshOp? ==> (u, op.token) in s.refresh;
      forall k | k in s'.refresh ensures k in s.refresh || k == (u, |s.issued| + 1) {
      }
    }
  }

  /** Tokens stay issued, and stored versions only grow. */
  ghost predicate VersionsKept(a: Store, b: Store) {
    && a.issued <= b.issued
    && (forall u | u in a.versions :: u in b.versions && a.versions[u] <= b.versions[u])
  }

  lemma StepKeepsVersions(cfg: Config, s: Store, op: Op, now: int)
    requires VersionsBounded(s)
    ensures VersionsBounded(Step(cfg, s, op, now).0) && VersionsKept(s, Step(cfg, s, op, now).0)
  {
    if op.LoginOp? || op.RefreshOp? {
      MintKeepsVersions(cfg, s, op, now);
    } else {
      StepIssuesNothing(cfg, s, op, now);
      StepRaises(cfg, s, op, now);
    }
  }

  /** A step that issues no token leaves each stored version or raises it. */
  lemma StepRaises(cfg: Config, s: Store, op: Op, now: int)
    requires !op.LoginOp? && !op.RefreshOp?
    ensures var (versions, u) := (Step(cfg, s, op, now).0.versions, RevokedUser(s, op, now));
      versions == s.versions || (u.Some? && versions == BumpVersion(s, u.value).versions)
  {
  }

  lemma MintKeepsVersions(cfg: Config, s: Store, op: Op, now: int)
    requires VersionsBounded(s) && (op.LoginOp? || op.RefreshOp?)
    ensures VersionsBounded(Step(cfg, s, op, now).0) && VersionsKept(s, Step(cfg, s, op, now).0)
  {
    var s' := Step(cfg, s, op, now).0;
    if s' != s {
      var u := if op.LoginOp? then op.user else s.issued[op.token].sub;
      var g := GenerateTokens(cfg, s, u, now);
      GenerateKeepsVersions(cfg, s, u, now);
      assert s'.versions == g.versions && s'.issued == g.issued;
    }
  }

  lemma GenerateKeepsVersions(cfg: Config, s: Store, u: User, now: int)
    requires VersionsBounded(s)
    ensures VersionsBounded(GenerateTokens(cfg, s, u, now)) && VersionsKept(s, GenerateTokens(cfg, s, u, now))
  {
  }

  lemma StepKeepsBlacklist(cfg: Config, s: Store, op: Op, now: int)
    requires BlacklistLongEnough(s)
    ensures var s' := Step(cfg, s, op, now).0;
      && BlacklistLongEnough(s')
      && s.blacklist.Keys <= s'.blacklist.Keys && s.issued <= s'.issued
  {
    var s' := Step(cfg, s, op, now).0;
    if !op.LogoutOp? {
      assert s'.blacklist == s.blacklist;
    }
  }

  // ----- Every reachable state

  ghost function TimeBefore(run: Run, n: nat): int
    requires run.Valid() && n < |run.states|
  {
    if n == 0 then if |run.events| > 0 then run.events[0].now else 0 else run.events[n - 1].now
  }

  lemma {:induction false} Reachable(run: Run, n: nat)
    requires run.Valid() && n < |run.states|
    ensures var s := run.states[n];
      && IndexComplete(s, TimeBefore(run, n)) && KeysWithinWeek(s, TimeBefore(run, n))
      && RefreshGuarded(s) && VersionsBounded(s) && BlacklistLongEnough(s)
  {
    if n > 0 {
      Reachable(run, n - 1);
      var e, s := run.events[n - 1], run.states[n - 1];
      StepKeepsIndex(run.cfg, s, e.op, TimeBefore(run, n - 1), e.now);
      StepKeepsWeek(run.cfg, s, e.op, TimeBefore(run, n - 1), e.now);
      StepKeepsGuarded(run.cfg, s, e.op, e.now);
      StepKeepsVersions(run.cfg, s, e.op, e.now);
      StepKeepsBlacklist(run.cfg, s, e.op, e.now);
    }
  }

  /**
   In every reachable state, at every later moment: each live refresh key is listed in its user's
   index set, and the set does not expire before the key.
   */
  lemma IndexCoversLiveKeys(run: Run, n: nat, now: int, u: User, t: Token)
    requires run.Valid() && n < |run.states| && TimeBefore(run, n) <= now
    requires RefreshActive(run.states[n], u, t, now)
    ensures t in Members(run.states[n], u, now)
    ensures run.states[n].refresh[(u, t)] <= run.states[n].index[u].expires
  {
    Reachable(run, n);
    assert RefreshActive(run.states[n], u, t, TimeBefore(run, n));
  }

  /** A user whose email is unverified, or who must reset the password, has no live refresh token. */
  lemma NoSessionWhileBlocked(run: Run, n: nat, now: int, u: User, t: Token)
    requires run.Valid() && n < |run.states|
    requires u in run.states[n].accounts ==>
      !run.states[n].accounts[u].verified || run.states[n].accounts[u].resetRequired
    ensures !RefreshActive(run.states[n], u, t, now)
  {
    Reachable(run, n);
  }

  // ----- Refresh tokens are used once

  /** An issued token that is not stored as a refresh token of its user. */
  ghost predicate Spent(s: Store, t: Token) {
    t < |s.issued| && (s.issued[t].sub, t) !in s.refresh
  }

  lemma StepKeepsSpent(cfg: Config, s: Store, op: Op, now: int, t: Token)
    requires Spent(s, t)
    ensures Spent(Step(cfg, s, op, now).0, t)
  {
  }

  lemma {:induction false} SpentForever(run: Run, m: nat, n: nat, t: Token)
    requires run.Valid() && m <= n < |run.states| && Spent(run.states[m], t)
    ensures Spent(run.states[n], t)
    decreases n
  {
    if m < n {
      SpentForever(run, m, n - 1, t);
      var e := run.events[n - 1];
      StepKeepsSpent(run.cfg, run.states[n - 1], e.op, e.now, t);
    }
  }

  lemma RefreshSpends(cfg: Config, s: Store, t: Token, now: int)
    requires Refresh(cfg, s, t, now).1.Ok?
    ensures Spent(Refresh(cfg, s, t, now).0, t)
  {
  }

  /** Each refresh token is accepted at most once in a run. */
  lemma RefreshedOnce(run: Run, m: nat, n: nat, t: Token)
    requires run.Valid() && m < n < |run.events|
    requires run.events[m].op == RefreshOp(t) == run.events[n].op
    requires run.ReplyOf(m).Ok?
    ensures run.ReplyOf(n).Err?
  {
    RefreshSpends(run.cfg, run.states[m], t, run.events[m].now);
    SpentForever(run, m + 1, n, t);
  }

  ghost function LiveTokens(s: Store, u: User, now: int): set<Token> {
    set k | k in s.refresh && k.0 == u && now < s.refresh[k] :: k.1
  }

  /** A refresh swaps the presented token for a new one, so the user keeps the same number of live tokens. */
  lemma RefreshKeepsCount(run: Run, n: nat, t: Token, now: int, u: User)
    requires run.Valid() && n < |run.states|
    requires Refresh(run.cfg, run.states[n], t, now).1.Ok?
    ensures var (s, s') := (run.states[n], Refresh(run.cfg, run.states[n], t, now).0);
      var minted := Refresh(run.cfg, s, t, now).1.value.refresh;
      && |LiveTokens(s', u, now)| == |LiveTokens(s, u, now)|
      && (u == s.issued[t].sub ==> t in LiveTokens(s, u, now) && minted !in LiveTokens(s, u, now) &&
                                   LiveTokens(s', u, now) == LiveTokens(s, u, now) - {t} + {minted})
      && (u != s.issued[t].sub ==> LiveTokens(s', u, now) == LiveTokens(s, u, now))
  {
    Reachable(run, n);
    RefreshSwaps(run.cfg, run.states[n], t, now, u);
  }

  lemma RefreshSwaps(cfg: Config, s: Store, t: Token, now: int, u: User)
    requires RefreshGuarded(s) && Refresh(cfg, s, t, now).1.Ok?
    ensures var s' := Refresh(cfg, s, t, now).0;
      var minted := Refresh(cfg, s, t, now).1.value.refresh;
      && (u == s.issued[t].sub ==> t in LiveTokens(s, u, now) && minted !in LiveTokens(s, u, now) &&
                                   LiveTokens(s', u, now) == LiveTokens(s, u, now) - {t} + {minted})
      && (u != s.issued[t].sub ==> LiveTokens(s', u, now) == LiveTokens(s, u, now))
  {
    var v, minted := s.issued[t].sub, |s.issued| + 1;
    assert RefreshActive(s, v, t, now) && (v, minted) !in s.refresh;
    SwappedTokens(s, Refresh(cfg, s, t, now).0, v, t, minted, now + WEEK_MS, now, u);
  }

  lemma SwappedTokens(s: Store, s': Store, v: User, t: Token, minted: Token, expires: int, now: int, u: User)
    requires s'.refresh == (s.refresh - {(v, t)})[(v, minted) := expires] && now < expires
    requires (v, minted) !in s.refresh
    ensures var (before, after) := (LiveTokens(s, u, now), LiveTokens(s', u, now));
      after == if u == v then before - {t} + {minted} else before
  {
    var before, after := LiveTokens(s, u, now), LiveTokens(s', u, now);
    LiveTokensMember(s, u, now);
    LiveTokensMember(s', u, now);
    forall x ensures x in after <==> RefreshActive(s', u, x, now) {}
    forall x ensures x in before <==> RefreshActive(s, u, x, now) {}
    if u == v {
      assert after == before - {t} + {minted};
    } else {
      assert after == before;
    }
  }

  lemma LiveTokensMember(s: Store, u: User, now: int)
    ensures forall x :: x in LiveTokens(s, u, now) <==> RefreshActive(s, u, x, now)
  {
    forall x | RefreshActive(s, u, x, now) ensures x in LiveTokens(s, u, now) {
      assert (u, x) in s.refresh;
    }
  }

  /** Logout, a completed or forced reset and a password change leave the user no refresh token at all. */
  lemma SessionsEnd(cfg: Config, s: Store, op: Op, now: int, u: User)
    requires Step(cfg, s, op, now).1 == Ok(Done)
    requires
      || (op.LogoutOp? && op.user == u)
      || (op.ChangeOp? && op.user == u)
      || (op.ForceResetOp? && op.user == u)
      || (op.ResetOp? && MailUser(s.reset, op.secret, now) == Some(u))
    ensures forall later :: LiveTokens(Step(cfg, s, op, now).0, u, later) == {}
  {
    var s' := Step(cfg, s, op, now).0;
    assert forall k | k in s'.refresh :: k.0 != u;
  }

  // ----- Access tokens

  lemma VersionsKeptTwice(a: Store, b: Store, c: Store)
    requires VersionsKept(a, b) && VersionsKept(b, c)
    ensures VersionsKept(a, c)
  {
  }

  lemma {:induction false} VersionsGrow(run: Run, m: nat, n: nat)
    requires run.Valid() && m <= n < |run.states|
    ensures VersionsKept(run.states[m], run.states[n])
    decreases n
  {
    if m < n {
      VersionsGrow(run, m, n - 1);
      Reachable(run, n - 1);
      var e := run.events[n - 1];
      StepKeepsVersions(run.cfg, run.states[n - 1], e.op, e.now);
      VersionsKeptTwice(run.states[m], run.states[n - 1], run.states[n]);
    }
  }

  /** The reset, by mail or forced, of a user's password. */
  ghost predicate ResetsUser(run: Run, m: nat, u: User)
    requires run.Valid() && m < |run.events|
  {
    && run.ReplyOf(m) == Ok(Done)
    && var e := run.events[m];
       || e.op == ForceResetOp(u)
       || (e.op.ResetOp? && MailUser(run.states[m].reset, e.op.secret, e.now) == Some(u))
  }

  /** After a reset no token issued to the user before it is accepted in any later state at any time. */
  lemma ResetRevokesTokens(run: Run, m: nat, n: nat, u: User, t: Token, now: int)
    requires run.Valid() && m < n < |run.states| && ResetsUser(run, m, u)
    requires t < |run.states[m].issued| && run.states[m].issued[t].sub == u
    ensures ValidateAccess(run.states[n], t, now).Err?
  {
    Reachable(run, m);
    VersionsGrow(run, m, n);
    VersionsGrow(run, m + 1, n);
    var s, s1 := run.states[m], run.states[m + 1];
    assert s1.versions[u] == s.versions[u] + 1;
    assert run.states[n].issued[t] == s.issued[t];
  }

  /** A password change ends the refresh tokens only: what the guard says of any access token stays the same. */
  lemma ChangeKeepsAccessTokens(s: Store, u: User, current: string, password: string, t: Token, now: int)
    ensures ValidateAccess(ChangePassword(s, u, current, password).0, t, now) == ValidateAccess(s, t, now)
  {
  }

  /** A token that is blacklisted until it expires, or has expired. */
  ghost predicate LoggedOut(s: Store, t: Token, now: int) {
    && t < |s.issued|
    && (t in s.blacklist || s.issued[t].exp <= Seconds(now))
  }

  lemma {:induction false} LoggedOutForever(run: Run, m: nat, n: nat, t: Token)
    requires run.Valid() && m < n < |run.states| && LoggedOut(run.states[m + 1], t, run.events[m].now)
    ensures LoggedOut(run.states[n], t, run.events[n - 1].now)
    decreases n
  {
    if m + 1 < n {
      LoggedOutForever(run, m, n - 1, t);
      Reachable(run, n - 1);
      var e := run.events[n - 1];
      StepKeepsBlacklist(run.cfg, run.states[n - 1], e.op, e.now);
    }
  }

  /** After a logout the token is never accepted again, in any later state, at that moment or any later one. */
  lemma LogoutIsFinal(run: Run, m: nat, n: nat, t: Token, u: User, now: int)
    requires run.Valid() && m < n < |run.states| && run.events[m].op == LogoutOp(t, u)
    requires run.events[n - 1].now <= now
    requires t < |run.states[m].issued|
    ensures ValidateAccess(run.states[n], t, now).Err?
  {
    LoggedOutForever(run, m, n, t);
    Reachable(run, n);
  }

  // ----- Mail tokens

  datatype MailKind = Verification | PasswordReset

  function Box(s: Store, kind: MailKind): MailBox {
    if kind.Verification? then s.verification else s.reset
  }

  function Lifetime(kind: MailKind): int {
    if kind.Verification? then DAY_MS else HOUR_MS
  }

  /** Event i issues a mail token of this kind to the user; the token is `states[i].secrets`. */
  ghost predicate IssuesMail(run: Run, kind: MailKind, i: nat, u: User)
    requires i < |run.events| && |run.states| == |run.events| + 1
  {
    var s, op := run.states[i], run.events[i].op;
    match kind
    case Verification =>
      || (op.RegisterOp? && op.user == u && run.ReplyOf(i).Ok?)
      || (op == ResendOp(u) && u in s.accounts && !s.accounts[u].verified)
    case PasswordReset => op == ForgotOp(u) && u in s.accounts
  }

  /** Event i redeems this mail token. */
  ghost predicate Redeems(run: Run, kind: MailKind, i: nat, secret: Secret)
    requires run.Valid() && i < |run.events|
  {
    && run.ReplyOf(i).Ok?
    && var op := run.events[i].op;
       match kind
       case Verification => op == VerifyEmailOp(secret)
       case PasswordReset => op.ResetOp? && op.secret == secret
  }

  /** The current token of a user is the last one issued to them. */
  ghost predicate LastIssued(run: Run, kind: MailKind, n: nat, i: nat, u: User, current: Entry<Secret>)
    requires i < n < |run.states| == |run.events| + 1
  {
    && IssuesMail(run, kind, i, u)
    && current == Entry(run.states[i].secrets, run.events[i].now + Lifetime(kind))
    && forall k | i < k < n :: !IssuesMail(run, kind, k, u)
  }

  /** The current token of the user changes in step n exactly when the step issues one, or vanishes. */
  ghost predicate CurrentFollows(run: Run, kind: MailKind, n: nat, u: User)
    requires n < |run.events| && |run.states| == |run.events| + 1
  {
    var a, b := Box(run.states[n], kind).current, Box(run.states[n + 1], kind).current;
    && (IssuesMail(run, kind, n, u) ==>
          u in b && b[u] == Entry(run.states[n].secrets, run.events[n].now + Lifetime(kind)))
    && (!IssuesMail(run, kind, n, u) && u in b ==> u in a && a[u] == b[u])
  }

  lemma StepVerification(run: Run, n: nat, u: User)
    requires run.Valid() && n < |run.events|
    ensures CurrentFollows(run, Verification, n, u)
  {
  }

  lemma StepPasswordReset(run: Run, n: nat, u: User)
    requires run.Valid() && n < |run.events|
    ensures CurrentFollows(run, PasswordReset, n, u)
  {
  }

  lemma {:induction false} LastOfCurrents(run: Run, kind: MailKind, n: nat, u: User)
    requires |run.states| == |run.events| + 1 && n < |run.states|
    requires u !in Box(run.states[0], kind).current && u in Box(run.states[n], kind).current
    requires forall k | 0 <= k < |run.events| :: CurrentFollows(run, kind, k, u)
    ensures exists i: nat | i < n :: LastIssued(run, kind, n, i, u, Box(run.states[n], kind).current[u])
  {
    var current := Box(run.states[n], kind).current[u];
    assert CurrentFollows(run, kind, n - 1, u);
    if IssuesMail(run, kind, n - 1, u) {
      assert LastIssued(run, kind, n, n - 1, u, current);
    } else {
      LastOfCurrents(run, kind, n - 1, u);
      var i: nat :| i < n - 1 && LastIssued(run, kind, n - 1, i, u, current);
      assert LastIssued(run, kind, n, i, u, current);
    }
  }

  lemma CurrentIsLast(run: Run, kind: MailKind, n: nat, u: User)
    requires run.Valid() && n < |run.states| && u in Box(run.states[n], kind).current
    ensures exists i: nat | i < n :: LastIssued(run, kind, n, i, u, Box(run.states[n], kind).current[u])
  {
    forall k | 0 <= k < |run.events| ensures CurrentFollows(run, kind, k, u) {
      StepVerification(run, k, u);
      StepPasswordReset(run, k, u);
    }
    LastOfCurrents(run, kind, n, u);
  }

  /**
   A mail token is redeemed only while it is the last one issued to its user, and only within
   its lifetime.
   */
  lemma RedeemedTokenIsLast(run: Run, kind: MailKind, n: nat, secret: Secret)
    requires run.Valid() && n < |run.events| && Redeems(run, kind, n, secret)
    ensures exists i: nat, u: User | i < n ::
      && IssuesMail(run, kind, i, u) && run.states[i].secrets == secret
      && (forall k | i < k < n :: !IssuesMail(run, kind, k, u))
      && run.events[n].now < run.events[i].now + Lifetime(kind)
  {
    var box := Box(run.states[n], kind);
    var u := MailUser(box, secret, run.events[n].now).value;
    CurrentIsLast(run, kind, n, u);
    var i: nat :| i < n && LastIssued(run, kind, n, i, u, box.current[u]);
  }

  ghost predicate MailSpent(s: Store, kind: MailKind, secret: Secret) {
    secret < s.secrets && secret !in Box(s, kind).tokens
  }

  /** A step puts no mail token into a box except a new one. */
  lemma StepMail(cfg: Config, s: Store, op: Op, now: int, kind: MailKind)
    ensures var s' := Step(cfg, s, op, now).0;
      && s.secrets <= s'.secrets
      && Box(s', kind).tokens.Keys <= Box(s, kind).tokens.Keys + {s.secrets}
      && (Box(s', kind).tokens.Keys <= Box(s, kind).tokens.Keys || s'.secrets == s.secrets + 1)
  {
  }

  lemma {:induction false} SecretsKnown(run: Run, n: nat, kind: MailKind)
    requires run.Valid() && n < |run.states|
    ensures forall t | t in Box(run.states[n], kind).tokens :: t < run.states[n].secrets
  {
    if n > 0 {
      SecretsKnown(run, n - 1, kind);
      var e := run.events[n - 1];
      StepMail(run.cfg, run.states[n - 1], e.op, e.now, kind);
    }
  }

  lemma {:induction false} MailSpentForever(run: Run, kind: MailKind, m: nat, n: nat, secret: Secret)
    requires run.Valid() && m <= n < |run.states| && MailSpent(run.states[m], kind, secret)
    ensures MailSpent(run.states[n], kind, secret)
    decreases n
  {
    if m < n {
      MailSpentForever(run, kind, m, n - 1, secret);
      var e := run.events[n - 1];
      StepMail(run.cfg, run.states[n - 1], e.op, e.now, kind);
    }
  }

  /** A mail token is redeemed at most once in a run. */
  lemma RedeemedOnce(run: Run, kind: MailKind, m: nat, n: nat, secret: Secret)
    requires run.Valid() && m < n < |run.events| && Redeems(run, kind, m, secret)
    ensures !Redeems(run, kind, n, secret)
  {
    SecretsKnown(run, m, kind);
    assert secret in Box(run.states[m], kind).tokens;
    MailSpentForever(run, kind, m + 1, n, secret);
  }

  // ----- What is accepted

  /** In every reachable state the tokens of a login are accepted exactly until they expire, if nothing else happens. */
  lemma LoginTokensWork(run: Run, n: nat, u: User, password: string, now: int, later: int)
    requires run.Valid() && n < |run.states| && now <= later
    requires Login(run.cfg, run.states[n], u, password, now).1.Ok?
    ensures var (s, reply) := Login(run.cfg, run.states[n], u, password, now);
      && (ValidateAccess(s, reply.value.access, later) == Ok(Accepted(u))
          <==> Seconds(later) < Seconds(now) + run.cfg.accessSeconds)
      && (Refresh(run.cfg, s, reply.value.refresh, later).1.Ok?
          <==> Seconds(later) < Seconds(now) + run.cfg.refreshSeconds && later < now + WEEK_MS)
  {
    Reachable(run, n);
    var g := GenerateTokens(run.cfg, run.states[n], u, now);
    GenerateKeepsVersions(run.cfg, run.states[n], u, now);
    assert g.issued[|run.states[n].issued|].version == g.versions[u];
  }

  /** After a reset or a change, the new password and no other logs an active, verified user in. */
  lemma NewPasswordLogsIn(cfg: Config, s: Store, op: Op, now: int, u: User, attempt: string, later: int)
    requires (op.ChangeOp? && op.user == u) || (op.ResetOp? && MailUser(s.reset, op.secret, now) == Some(u))
    requires Step(cfg, s, op, now).1 == Ok(Done)
    ensures Login(cfg, Step(cfg, s, op, now).0, u, attempt, later).1.Ok?
       <==> attempt == op.password && s.accounts[u].active && s.accounts[u].verified
  {
  }

  /** Right after a registration the mailed token works exactly for a day, and only then the user logs in. */
  lemma RegistrationFlow(
    cfg: Config, s: Store, u: User, password: string, a: Admission, now: int, redeemed: int, later: int)
    requires Register(s, u, password, a, now).1.Ok? && now <= redeemed
    ensures var s1 := Register(s, u, password, a, now).0;
      var (s2, reply) := VerifyEmail(s1, s.secrets, redeemed);
      && Login(cfg, s1, u, password, later).1 == Err(NotVerified)
      && (reply.Ok? <==> redeemed < now + DAY_MS)
      && (reply.Ok? ==> Login(cfg, s2, u, password, later).1.Ok?)
  {
  }

  /**
   A failed registration leaves an account behind exactly when the policy admits the new user
   and the recalculation refuses; asking for another mail then completes the registration.
   */
  lemma FailedRegistrationExact(s: Store, u: User, password: string, a: Admission, now: int, asked: int, redeemed: int)
    requires Register(s, u, password, a, now).1.Err? && asked <= redeemed
    ensures var s1 := Register(s, u, password, a, now).0;
      var s2 := ResendVerification(s1, u, asked).0;
      && (s1 != s <==> AdmissionError(a).None? && u !in s.accounts && !a.recalculates)
      && (s1 != s ==> (VerifyEmail(s2, s.secrets, redeemed).1.Ok? <==> redeemed < asked + DAY_MS))
  {
    assert u in Register(s, u, password, a, now).0.accounts || Register(s, u, password, a, now).0 == s;
  }

  /** From the empty store on, a registration whose recalculation refuses fails and leaves its account behind. */
  lemma RefusedRegistrationStays(u: User, password: string, now: int)
    ensures var (s, reply) := Register(EMPTY_STORE, u, password, Admission(true, [], None, false), now);
      && reply == Err(WeightsRefused)
      && u in s.accounts && !s.accounts[u].verified && s.verification == MailBox(map[], map[])
  {
  }

  /** Right after a forced reset no password works; a mailed token lifts it exactly for an hour. */
  lemma ForcedResetFlow(cfg: Config, s: Store, u: User, password: string, now: int, redeemed: int, later: int)
    requires u in s.accounts && s.accounts[u].password.Some? && s.accounts[u].active && s.accounts[u].verified
    ensures var s1 := ForcePasswordReset(s, u).0;
      var s2 := ForgotPassword(s1, u, now).0;
      var (s3, reply) := ResetPassword(s2, s.secrets, password, redeemed);
      && (forall attempt :: Login(cfg, s2, u, attempt, later).1.Err?)
      && (reply.Ok? <==> redeemed < now + HOUR_MS)
      && (reply.Ok? ==> Login(cfg, s3, u, password, later).1.Ok?)
  {
  }

  // ----- Who is kept out

  ghost predicate ResetRequired(s: Store, u: User) {
    u in s.accounts && s.accounts[u].resetRequired
  }

  ghost predicate Unverified(s: Store, u: User) {
    u in s.accounts && !s.accounts[u].verified
  }

  /** Event i asks the user for a new password. */
  ghost predicate AsksReset(run: Run, i: nat, u: User)
    requires i < |run.events| && |run.states| == |run.events| + 1
  {
    run.events[i].op == ForceResetOp(u) && run.ReplyOf(i) == Ok(Done)
  }

  /** Event i gives the user a new password. */
  ghost predicate SetsPassword(run: Run, i: nat, u: User)
    requires i < |run.events| && |run.states| == |run.events| + 1
  {
    && run.ReplyOf(i) == Ok(Done)
    && var e := run.events[i];
       || (e.op.ChangeOp? && e.op.user == u)
       || (e.op.ResetOp? && MailUser(run.states[i].reset, e.op.secret, e.now) == Some(u))
  }

  /** Event i creates the account of the user by registration. */
  ghost predicate Registers(run: Run, i: nat, u: User)
    requires i < |run.events| && |run.states| == |run.events| + 1
  {
    && run.events[i].op.RegisterOp? && run.events[i].op.user == u
    && u !in run.states[i].accounts && AdmissionError(run.events[i].op.admission).None?
  }

  /** Event i verifies the e-mail address of the user. */
  ghost predicate VerifiesUser(run: Run, i: nat, u: User)
    requires i < |run.events| && |run.states| == |run.events| + 1
  {
    && run.ReplyOf(i).Ok?
    && var e := run.events[i];
       e.op.VerifyEmailOp? && MailUser(run.states[i].verification, e.op.secret, e.now) == Some(u)
  }

  lemma StepFlag(run: Run, i: nat, u: User)
    requires run.Valid() && i < |run.events|
    ensures ResetRequired(run.states[i + 1], u)
       <==> AsksReset(run, i, u) || (ResetRequired(run.states[i], u) && !SetsPassword(run, i, u))
  {
  }

  lemma StepUnverified(run: Run, i: nat, u: User)
    requires run.Valid() && i < |run.events|
    ensures Unverified(run.states[i + 1], u)
       <==> Registers(run, i, u) || (Unverified(run.states[i], u) && !VerifiesUser(run, i, u))
  {
    var e := run.events[i];
    if !e.op.RegisterOp? && !e.op.VerifyEmailOp? {
      OtherStepsKeepUnverified(run.cfg, run.states[i], e.op, e.now, u);
    } else {
      assert e.op.RegisterOp? ==>
        run.states[i + 1] == Register(run.states[i], e.op.user, e.op.password, e.op.admission, e.now).0;
      assert e.op.VerifyEmailOp? ==> run.states[i + 1] == VerifyEmail(run.states[i], e.op.secret, e.now).0;
    }
  }

  lemma OtherStepsKeepUnverified(cfg: Config, s: Store, op: Op, now: int, u: User)
    requires !op.RegisterOp? && !op.VerifyEmailOp?
    ensures Unverified(Step(cfg, s, op, now).0, u) == Unverified(s, u)
  {
  }

  /** A flag that events set and clear is up exactly when a setting one was not followed by a clearing one. */
  lemma {:induction false} Latch(on: seq<bool>, off: seq<bool>, flag: seq<bool>, n: nat)
    requires n < |flag| == |on| + 1 == |off| + 1 && !flag[0]
    requires forall i | 0 <= i < |on| :: flag[i + 1] <==> on[i] || (flag[i] && !off[i])
    ensures flag[n] <==> exists m: nat | m < n :: on[m] && forall i | m < i < n :: !off[i]
  {
    if n > 0 {
      Latch(on, off, flag, n - 1);
      assert flag[n] <==> on[n - 1] || (flag[n - 1] && !off[n - 1]);
    }
  }

  /** In every run a user must reset the password exactly when a forced reset was not followed by a new password. */
  lemma ResetRequiredExact(run: Run, n: nat, u: User)
    requires run.Valid() && n < |run.states|
    ensures ResetRequired(run.states[n], u)
       <==> exists m: nat | m < n :: AsksReset(run, m, u) && forall i | m < i < n :: !SetsPassword(run, i, u)
  {
    forall i | 0 <= i < |run.events| ensures StepFlagFollows(run, i, u) {
      StepFlag(run, i, u);
    }
    assert !ResetRequired(run.states[0], u);
    ResetRequiredExactFrom(run, n, u);
  }

  ghost predicate StepFlagFollows(run: Run, i: nat, u: User)
    requires i < |run.events| && |run.states| == |run.events| + 1
  {
    ResetRequired(run.states[i + 1], u)
    <==> AsksReset(run, i, u) || (ResetRequired(run.states[i], u) && !SetsPassword(run, i, u))
  }

  lemma ResetRequiredExactFrom(run: Run, n: nat, u: User)
    requires n < |run.states| == |run.events| + 1 && !ResetRequired(run.states[0], u)
    requires forall i | 0 <= i < |run.events| :: StepFlagFollows(run, i, u)
    ensures ResetRequired(run.states[n], u)
       <==> exists m: nat | m < n :: AsksReset(run, m, u) && forall i | m < i < n :: !SetsPassword(run, i, u)
  {
    var on := seq(|run.events|, i requires 0 <= i < |run.events| => AsksReset(run, i, u));
    var off := seq(|run.events|, i requires 0 <= i < |run.events| => SetsPassword(run, i, u));
    var flag := seq(|run.states|, i requires 0 <= i < |run.states| => ResetRequired(run.states[i], u));
    forall i | 0 <= i < |run.events| ensures flag[i + 1] <==> on[i] || (flag[i] && !off[i]) {
      assert StepFlagFollows(run, i, u);
    }
    Latch(on, off, flag, n);
    assert forall i {:trigger on[i]} {:trigger AsksReset(run, i, u)} | 0 <= i < |on| :: on[i] == AsksReset(run, i, u);
    assert forall i {:trigger off[i]} {:trigger SetsPassword(run, i, u)} | 0 <= i < |off| ::
      off[i] == SetsPassword(run, i, u);
  }

  /** In every run a user is unverified exactly when a registration has not been followed by a redeemed mail. */
  lemma UnverifiedExact(run: Run, n: nat, u: User)
    requires run.Valid() && n < |run.states|
    ensures Unverified(run.states[n], u)
       <==> exists m: nat | m < n :: Registers(run, m, u) && forall i | m < i < n :: !VerifiesUser(run, i, u)
  {
    forall i | 0 <= i < |run.events| ensures StepUnverifiedFollows(run, i, u) {
      StepUnverified(run, i, u);
    }
    assert !Unverified(run.states[0], u);
    UnverifiedExactFrom(run, n, u);
  }

  ghost predicate StepUnverifiedFollows(run: Run, i: nat, u: User)
    requires i < |run.events| && |run.states| == |run.events| + 1
  {
    Unverified(run.states[i + 1], u)
    <==> Registers(run, i, u) || (Unverified(run.states[i], u) && !VerifiesUser(run, i, u))
  }

  lemma UnverifiedExactFrom(run: Run, n: nat, u: User)
    requires n < |run.states| == |run.events| + 1 && !Unverified(run.states[0], u)
    requires forall i | 0 <= i < |run.events| :: StepUnverifiedFollows(run, i, u)
    ensures Unverified(run.states[n], u)
       <==> exists m: nat | m < n :: Registers(run, m, u) && forall i | m < i < n :: !VerifiesUser(run, i, u)
  {
    var on := seq(|run.events|, i requires 0 <= i < |run.events| => Registers(run, i, u));
    var off := seq(|run.events|, i requires 0 <= i < |run.events| => VerifiesUser(run, i, u));
    var flag := seq(|run.states|, i requires 0 <= i < |run.states| => Unverified(run.states[i], u));
    forall i | 0 <= i < |run.events| ensures flag[i + 1] <==> on[i] || (flag[i] && !off[i]) {
      assert StepUnverifiedFollows(run, i, u);
    }
    Latch(on, off, flag, n);
    assert forall i {:trigger on[i]} {:trigger Registers(run, i, u)} | 0 <= i < |on| :: on[i] == Registers(run, i, u);
    assert forall i {:trigger off[i]} {:trigger VerifiesUser(run, i, u)} | 0 <= i < |off| ::
      off[i] == VerifiesUser(run, i, u);
  }

  /** No login and no refresh of the user succeeds at event i. */
  ghost predicate KeptOut(run: Run, i: nat, u: User)
    requires i < |run.events| && |run.states| == |run.events| + 1
  {
    var (s, op) := (run.states[i], run.events[i].op);
    && (op.LoginOp? && op.user == u ==> run.ReplyOf(i).Err?)
    && (op.RefreshOp? && op.token < |s.issued| && s.issued[op.token].sub == u ==> run.ReplyOf(i).Err?)
  }

  lemma BlockedIsKeptOut(run: Run, i: nat, u: User)
    requires run.Valid() && i < |run.events|
    requires ResetRequired(run.states[i], u) || Unverified(run.states[i], u)
    ensures KeptOut(run, i, u)
  {
    Reachable(run, i);
  }

  /** From a registration until a redeemed mail, whatever else happens, the user is kept out. */
  lemma KeptOutUntilVerified(run: Run, m: nat, n: nat, u: User)
    requires run.Valid() && m < n < |run.events| && Registers(run, m, u)
    requires forall i | m < i < n :: !VerifiesUser(run, i, u)
    ensures KeptOut(run, n, u)
  {
    UnverifiedExact(run, n, u);
    BlockedIsKeptOut(run, n, u);
  }

  /** From a forced reset until a new password, whatever else happens, the user is kept out. */
  lemma KeptOutUntilReset(run: Run, m: nat, n: nat, u: User)
    requires run.Valid() && m < n < |run.events| && AsksReset(run, m, u)
    requires forall i | m < i < n :: !SetsPassword(run, i, u)
    ensures KeptOut(run, n, u)
  {
    ResetRequiredExact(run, n, u);
    BlockedIsKeptOut(run, n, u);
  }

  /** A login or a refresh issues tokens to its own user only, if it succeeds. */
  lemma MintsForOne(cfg: Config, s: Store, op: Op, now: int)
    requires op.LoginOp? || op.RefreshOp?
    ensures var (s', reply) := Step(cfg, s, op, now);
      && (reply.Err? ==> s'.issued == s.issued)
      && (reply.Ok? && op.LoginOp? ==> s'.issued == GenerateTokens(cfg, s, op.user, now).issued)
      && (reply.Ok? && op.RefreshOp? ==>
            op.token < |s.issued| && s'.issued == GenerateTokens(cfg, s, s.issued[op.token].sub, now).issued)
  {
  }

  ghost predicate IssuedToOthers(a: Store, b: Store, u: User) {
    a.issued <= b.issued && forall t: nat | |a.issued| <= t < |b.issued| :: b.issued[t].sub != u
  }

  lemma NoneIssuedKeptOut(run: Run, i: nat, u: User)
    requires run.Valid() && i < |run.events| && KeptOut(run, i, u)
    ensures IssuedToOthers(run.states[i], run.states[i + 1], u)
  {
    var s, e := run.states[i], run.events[i];
    if e.op.LoginOp? || e.op.RefreshOp? {
      MintsForOne(run.cfg, s, e.op, e.now);
    } else {
      StepIssuesNothing(run.cfg, s, e.op, e.now);
    }
  }

  lemma {:induction false} NoTokensWhileKeptOut(run: Run, m: nat, n: nat, u: User)
    requires run.Valid() && m < n < |run.states| && AsksReset(run, m, u)
    requires forall i | m < i < n :: !SetsPassword(run, i, u)
    ensures forall t: nat | t < |run.states[n].issued| && run.states[n].issued[t].sub == u :: t < |run.states[m].issued|
    decreases n
  {
    if m + 1 < n {
      NoTokensWhileKeptOut(run, m, n - 1, u);
      KeptOutUntilReset(run, m, n - 1, u);
      NoneIssuedKeptOut(run, n - 1, u);
    }
  }

  /** From a forced reset until a new password the guard accepts no token of the user at all, at any time. */
  lemma NothingAcceptedUntilReset(run: Run, m: nat, n: nat, u: User, t: Token, now: int)
    requires run.Valid() && m < n < |run.states| && AsksReset(run, m, u)
    requires forall i | m < i < n :: !SetsPassword(run, i, u)
    ensures ValidateAccess(run.states[n], t, now) != Ok(Accepted(u))
  {
    NoTokensWhileKeptOut(run, m, n, u);
    if t < |run.states[n].issued| && run.states[n].issued[t].sub == u {
      VersionsGrow(run, m, n);
      assert run.states[m].issued[t] == run.states[n].issued[t];
      ResetRevokesTokens(run, m, n, u, t, now);
    }
  }
}
