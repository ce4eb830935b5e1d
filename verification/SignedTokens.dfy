/**
 Refresh tokens as the strings they are.  Nothing but the claims goes into a signed token, and
 its times are in whole seconds, so two tokens of one user made within one second are the same
 string.  `Sessions` takes every token as fresh; here is what rotation does without that.

 The e-mail address and the role of a user are claims too; they are taken not to change.
 */
module SignedTokens {
  import opened Basics
  import Sessions

  type User = Sessions.User

  /** The signed string, identified with its claims; `iat` and `exp` are in seconds. */
  datatype Signed = Signed(sub: User, version: nat, iat: int, exp: int)

  /** The stored versions, and the refresh keys with their expiry. */
  datatype Keys = Keys(versions: map<User, nat>, refresh: map<Signed, int>)

  function Version(k: Keys, user: User): nat {
    if user in k.versions then k.versions[user] else 1
  }

  /** The refresh token that `generateTokens` makes at this moment. */
  function Minted(lifetime: nat, k: Keys, user: User, now: int): Signed {
    Signed(user, Version(k, user), Sessions.Seconds(now), Sessions.Seconds(now) + lifetime)
  }

  function Store(lifetime: nat, k: Keys, user: User, now: int): Keys {
    Keys(k.versions[user := Version(k, user)], k.refresh[Minted(lifetime, k, user, now) := now + Sessions.WEEK_MS])
  }

  predicate Active(k: Keys, t: Signed, now: int) {
    Sessions.Seconds(now) < t.exp && t in k.refresh && now < k.refresh[t]
  }

  /** Rotation deletes the presented token before it stores the new one. */
  function Refresh(lifetime: nat, k: Keys, t: Signed, now: int): (Keys, Option<Signed>) {
    if !Active(k, t, now) then (k, None)
    else (Store(lifetime, k.(refresh := k.refresh - {t}), t.sub, now), Some(Minted(lifetime, k, t.sub, now)))
  }

  /** The end of all sessions of a user; resets raise the version as well. */
  function End(k: Keys, user: User, raise: bool): Keys {
    Keys(if raise then k.versions[user := (if user in k.versions then k.versions[user] else 0) + 1] else k.versions,
         map t | t in k.refresh && t.sub != user :: k.refresh[t])
  }

  datatype Op = LoginOp(user: User) | RefreshOp(token: Signed) | EndOp(user: User, raise: bool)

  function Step(lifetime: nat, k: Keys, op: Op, now: int): Keys {
    match op
    case LoginOp(u) => Store(lifetime, k, u, now)
    case RefreshOp(t) => Refresh(lifetime, k, t, now).0
    case EndOp(u, raise) => End(k, u, raise)
  }

  datatype Event = Event(op: Op, now: int)

  /** Successful logins, refreshes and session ends, from no keys on. */
  datatype Run = Run(lifetime: nat, states: seq<Keys>, events: seq<Event>)
  {
    ghost predicate Valid() {
      && |states| == |events| + 1
      && states[0] == Keys(map[], map[])
      && (forall i | 0 <= i < |events| :: states[i + 1] == Step(lifetime, states[i], events[i].op, events[i].now))
      && (forall i, j | 0 <= i < j < |events| :: events[i].now <= events[j].now)
    }

    /** Event i presents the token and is accepted. */
    predicate Accepts(i: nat, t: Signed) {
      i < |events| && |states| == |events| + 1 && events[i].op == RefreshOp(t) && Active(states[i], t, events[i].now)
    }
  }

  /** A stored token carries the stored version of its user, the configured lifetime, and a second that has come. */
  ghost predicate WellMade(lifetime: nat, k: Keys, now: int) {
    forall t | t in k.refresh ::
      && t.sub in k.versions && t.version == k.versions[t.sub]
      && t.exp == t.iat + lifetime && t.iat <= Sessions.Seconds(now)
  }

  ghost function TimeBefore(run: Run, n: nat): int
    requires run.Valid() && n < |run.states|
  {
    if n == 0 then if |run.events| > 0 then run.events[0].now else 0 else run.events[n - 1].now
  }

  lemma {:induction false} AlwaysWellMade(run: Run, n: nat)
    requires run.Valid() && n < |run.states|
    ensures WellMade(run.lifetime, run.states[n], TimeBefore(run, n))
  {
    if n > 0 {
      AlwaysWellMade(run, n - 1);
      var e := run.events[n - 1];
      StepWellMade(run.lifetime, run.states[n - 1], e.op, TimeBefore(run, n - 1), e.now);
    }
  }

  lemma StepWellMade(lifetime: nat, k: Keys, op: Op, before: int, now: int)
    requires WellMade(lifetime, k, before) && before <= now
    ensures WellMade(lifetime, Step(lifetime, k, op, now), now)
  {
  }

  /** A token minted for a stored token's user is that very token exactly in the second it was made in. */
  lemma MintedAgain(lifetime: nat, k: Keys, before: int, t: Signed, now: int)
    requires WellMade(lifetime, k, before) && t in k.refresh
    ensures Minted(lifetime, k, t.sub, now) == t <==> Sessions.Seconds(now) == t.iat
  {
  }

  /**
   In every reachable state, a refresh gives back the presented token exactly when it happens in
   the second the token was made in.  Exactly then the token is accepted again, until it expires.
   */
  lemma ReusableExact(run: Run, n: nat, t: Signed, now: int, later: int)
    requires run.Valid() && n < |run.states| && TimeBefore(run, n) <= now <= later
    requires Active(run.states[n], t, now)
    ensures var (k, minted) := Refresh(run.lifetime, run.states[n], t, now);
      && (minted == Some(t) <==> Sessions.Seconds(now) == t.iat)
      && (Refresh(run.lifetime, k, t, later).1.Some? <==>
            && Sessions.Seconds(now) == t.iat
            && Sessions.Seconds(later) < t.exp && later < now + Sessions.WEEK_MS)
  {
    AlwaysWellMade(run, n);
    MintedAgain(run.lifetime, run.states[n], TimeBefore(run, n), t, now);
  }

  /** Once the second of a token is over, nothing brings a lost key back. */
  lemma {:induction false} GoneForever(run: Run, m: nat, n: nat, t: Signed)
    requires run.Valid() && m < n < |run.states|
    requires t !in run.states[m + 1].refresh && t.iat < Sessions.Seconds(run.events[m].now)
    ensures t !in run.states[n].refresh
    decreases n
  {
    if m + 1 < n {
      GoneForever(run, m, n - 1, t);
      StepBringsBack(run.lifetime, run.states[n - 1], run.events[n - 1].op, run.events[n - 1].now, t);
    }
  }

  lemma StepBringsBack(lifetime: nat, k: Keys, op: Op, now: int, t: Signed)
    requires t !in k.refresh
    ensures t in Step(lifetime, k, op, now).refresh ==> t.iat == Sessions.Seconds(now)
  {
  }

  /** In a run, a token that is accepted after the second it was made in is never accepted again. */
  lemma AcceptedOnceLater(run: Run, m: nat, n: nat, t: Signed)
    requires run.Valid() && m < n < |run.events| && run.Accepts(m, t) && run.Accepts(n, t)
    ensures Sessions.Seconds(run.events[m].now) == t.iat
  {
    AlwaysWellMade(run, m);
    MintedAgain(run.lifetime, run.states[m], TimeBefore(run, m), t, run.events[m].now);
    if t.iat < Sessions.Seconds(run.events[m].now) {
      GoneForever(run, m, n, t);
    }
  }

  /** A run in which a token is accepted twice, both times in the second it was made in. */
  function TwiceInOneSecond(lifetime: nat): Run {
    var t := Signed(0, 1, 0, lifetime);
    var events := [Event(LoginOp(0), 0), Event(RefreshOp(t), 1), Event(RefreshOp(t), 2)];
    var k0 := Keys(map[], map[]);
    var k1 := Step(lifetime, k0, events[0].op, 0);
    var k2 := Step(lifetime, k1, events[1].op, 1);
    Run(lifetime, [k0, k1, k2, Step(lifetime, k2, events[2].op, 2)], events)
  }

  /** Acceptance within the second of issue does repeat. */
  lemma AcceptedTwice(lifetime: nat)
    requires lifetime > 0
    ensures var run, t := TwiceInOneSecond(lifetime), Signed(0, 1, 0, lifetime);
      run.Valid() && run.Accepts(1, t) && run.Accepts(2, t)
  {
  }

  // ----- Equal tokens

  /** Event i makes a refresh token for the user. */
  predicate Mints(run: Run, i: nat, user: User)
    requires i < |run.events| && |run.states| == |run.events| + 1
  {
    var e := run.events[i];
    || e.op == LoginOp(user)
    || (e.op.RefreshOp? && e.op.token.sub == user && Active(run.states[i], e.op.token, e.now))
  }

  function MintedAt(run: Run, i: nat, user: User): Signed
    requires i < |run.events| && |run.states| == |run.events| + 1
  {
    Minted(run.lifetime, run.states[i], user, run.events[i].now)
  }

  /** Once stored, the version of a user never drops, and stays the same exactly while no reset raises it. */
  lemma {:induction false} VersionExact(run: Run, m: nat, n: nat, user: User)
    requires run.Valid() && m < n < |run.states| && user in run.states[m + 1].versions
    ensures user in run.states[n].versions && Version(run.states[m + 1], user) <= Version(run.states[n], user)
    ensures Version(run.states[n], user) == Version(run.states[m + 1], user)
       <==> forall i | m < i < n :: run.events[i].op != EndOp(user, true)
    decreases n
  {
    if m + 1 < n {
      VersionExact(run, m, n - 1, user);
      StepVersion(run.lifetime, run.states[n - 1], run.events[n - 1].op, run.events[n - 1].now, user);
    }
  }

  lemma StepVersion(lifetime: nat, k: Keys, op: Op, now: int, user: User)
    requires user in k.versions
    ensures user in Step(lifetime, k, op, now).versions
    ensures Version(Step(lifetime, k, op, now), user) == Version(k, user) + if op == EndOp(user, true) then 1 else 0
  {
  }

  /**
   In every run, two tokens made for one user, by logins or refreshes, are the same string exactly
   when both are made in one second and no reset of the user lies between.
   */
  lemma SharedTokenExact(run: Run, m: nat, n: nat, user: User)
    requires run.Valid() && m < n < |run.events| && Mints(run, m, user) && Mints(run, n, user)
    ensures MintedAt(run, m, user) == MintedAt(run, n, user) <==>
      && Sessions.Seconds(run.events[m].now) == Sessions.Seconds(run.events[n].now)
      && forall i | m < i < n :: run.events[i].op != EndOp(user, true)
  {
    StepStoresVersion(run, m, user);
    VersionExact(run, m, n, user);
  }

  lemma StepStoresVersion(run: Run, m: nat, user: User)
    requires run.Valid() && m < |run.events| && Mints(run, m, user)
    ensures user in run.states[m + 1].versions && Version(run.states[m + 1], user) == Version(run.states[m], user)
  {
  }

  /** The end of the sessions deletes the keys of that user, keeps all others, and raises the version if asked to. */
  lemma EndExact(k: Keys, user: User, raise: bool)
    ensures var k' := End(k, user, raise);
      && (forall t :: t in k'.refresh <==> t in k.refresh && t.sub != user)
      && (forall t | t in k'.refresh :: k'.refresh[t] == k.refresh[t])
      && k'.versions ==
         (if !raise then k.versions
          else k.versions[user := if user in k.versions then k.versions[user] + 1 else 1])
  {
  }
}
