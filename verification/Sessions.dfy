/**
 Accounts, sessions and mail tokens: one function per method of the auth service, over the
 account rows and the Redis keys.

 Times are milliseconds; a Redis key is gone once its expiry time is reached.  A signed
 token is its position in `issued`, so it is fresh and nobody else can make one; a hash is
 identified with what it was made from.
 */
module Sessions {
  import opened Basics
  import Text

  type User = nat
  type Token = nat
  type Secret = nat

  const DAY_MS := 86_400_000
  const HOUR_MS := 3_600_000
  const WEEK_MS := 604_800_000

  datatype Account = Account(password: Option<string>, verified: bool, active: bool, resetRequired: bool)

  /** The claims of a token made by `generateTokens`; `exp` is in seconds. */
  datatype Claims = Claims(sub: User, version: nat, exp: int)

  /** A Redis value with its expiry time. */
  datatype Entry<+T> = Entry(value: T, expires: int)

  /** The two keys of one family of mail tokens: token to user, and user to the current token. */
  datatype MailBox = MailBox(tokens: map<Secret, Entry<User>>, current: map<User, Entry<Secret>>)

  datatype Store = Store(
    accounts: map<User, Account>,
    refresh: map<(User, Token), int>,          // rt:user:hash, with its expiry
    index: map<User, Entry<set<Token>>>,       // rt:user:<user>
    versions: map<User, nat>,                  // tv:user
    blacklist: map<Token, int>,                // bl_token, with its expiry
    verification: MailBox,                     // vt:
    reset: MailBox,                            // prt:
    issued: seq<Claims>,
    secrets: nat)                              // how many mail tokens were made

  const EMPTY_STORE :=
    Store(map[], map[], map[], map[], map[], MailBox(map[], map[]), MailBox(map[], map[]), [], 0)

  /** The configured token lifetimes, in seconds. */
  datatype Config = Config(accessSeconds: nat, refreshSeconds: nat)

  datatype Reply = Done | Issued(access: Token, refresh: Token) | NotApplicable | Accepted(user: User)

  datatype Error =
    | RegistrationDisabled | DomainNotAllowed | WeightsRefused
    | Duplicate | InvalidCredentials | SsoOnly | NotVerified | ResetRequired
    | TokenInvalid | AlreadyVerified | NotFound | TokenRevoked | Deactivated | VersionMissing

  type Outcome = Result<Reply, Error>

  /** `Math.floor(Date.now() / 1000)`. */
  function Seconds(now: int): int {
    now / 1000
  }

  // ----- Mail tokens

  function IssueMail(box: MailBox, user: User, secret: Secret, expires: int): MailBox {
    MailBox(box.tokens[secret := Entry(user, expires)], box.current[user := Entry(secret, expires)])
  }

  /** The user whose current token this is, if it is live. */
  function MailUser(box: MailBox, secret: Secret, now: int): Option<User> {
    if !(secret in box.tokens && now < box.tokens[secret].expires) then None
    else
      var user := box.tokens[secret].value;
      if user in box.current && now < box.current[user].expires && box.current[user].value == secret then Some(user)
      else None
  }

  function ConsumeMail(box: MailBox, user: User, secret: Secret): MailBox {
    MailBox(box.tokens - {secret}, box.current - {user})
  }

  // ----- Refresh tokens and versions

  function Members(s: Store, user: User, now: int): set<Token> {
    if user in s.index && now < s.index[user].expires then s.index[user].value else {}
  }

  function StoreRefresh(s: Store, user: User, token: Token, now: int): Store {
    s.(refresh := s.refresh[(user, token) := now + WEEK_MS],
       index := s.index[user := Entry(Members(s, user, now) + {token}, now + WEEK_MS)])
  }

  function RevokeRefresh(s: Store, user: User, token: Token, now: int): Store {
    var left := Members(s, user, now) - {token};
    s.(refresh := s.refresh - {(user, token)},
       index := if left == {} then s.index - {user} else s.index[user := Entry(left, s.index[user].expires)])
  }

  function RefreshKeys(s: Store, user: User): set<(User, Token)> {
    set k | k in s.refresh && k.0 == user
  }

  function RevokeAll(s: Store, user: User): Store {
    s.(refresh := s.refresh - RefreshKeys(s, user), index := s.index - {user})
  }

  function RefreshActive(s: Store, user: User, token: Token, now: int): bool {
    (user, token) in s.refresh && now < s.refresh[(user, token)]
  }

  function BumpVersion(s: Store, user: User): Store {
    s.(versions := s.versions[user := (if user in s.versions then s.versions[user] else 0) + 1])
  }

  /** Two new tokens with the user's current version, which starts at 1. */
  function GenerateTokens(cfg: Config, s: Store, user: User, now: int): Store {
    var version := if user in s.versions then s.versions[user] else 1;
    s.(versions := s.versions[user := version],
       issued := s.issued + [Claims(user, version, Seconds(now) + cfg.accessSeconds),
                             Claims(user, version, Seconds(now) + cfg.refreshSeconds)])
  }

  /** The signature and expiry check of a JWT (RFC 7519, section 4.1.4: not accepted on or after `exp`). */
  predicate Verifies(s: Store, token: Token, now: int) {
    token < |s.issued| && Seconds(now) < s.issued[token].exp
  }

  predicate Blacklisted(s: Store, token: Token, now: int) {
    token in s.blacklist && now < s.blacklist[token]
  }

  // ----- The methods

  /**
   What a registration meets: the registration policy, the domain of the e-mail address, and
   whether the profile recalculation accepts the configured weights.
   */
  datatype Admission = Admission(enabled: bool, allowedDomains: seq<string>, domain: Option<string>, recalculates: bool)

  function AdmissionError(a: Admission): Option<Error> {
    if !a.enabled then Some(RegistrationDisabled)
    else if a.allowedDomains != [] &&
            (a.domain.None? || a.domain.value == "" ||
             forall d | d in a.allowedDomains :: Text.Lower(d) != Text.Lower(a.domain.value)) then
      Some(DomainNotAllowed)
    else None
  }

  /** The account is created before the recalculation, the verification token after it. */
  function Register(s: Store, user: User, password: string, a: Admission, now: int): (Store, Outcome) {
    if AdmissionError(a).Some? then (s, Err(AdmissionError(a).value))
    else if user in s.accounts then (s, Err(Duplicate))
    else
      var s' := s.(accounts := s.accounts[user := Account(Some(password), false, true, false)]);
      if !a.recalculates then (s', Err(WeightsRefused))
      else
        (s'.(verification := IssueMail(s.verification, user, s.secrets, now + DAY_MS), secrets := s.secrets + 1),
         Ok(Done))
  }

  function LoginError(s: Store, user: User, password: string): Option<Error> {
    if user !in s.accounts || !s.accounts[user].active then Some(InvalidCredentials)
    else
      var a := s.accounts[user];
      if a.password.None? then Some(SsoOnly)
      else if a.password.value != password then Some(InvalidCredentials)
      else if !a.verified then Some(NotVerified)
      else if a.resetRequired then Some(ResetRequired)
      else None
  }

  function Login(cfg: Config, s: Store, user: User, password: string, now: int): (Store, Outcome) {
    var error := LoginError(s, user, password);
    if error.Some? then (s, Err(error.value))
    else
      var n := |s.issued|;
      (StoreRefresh(GenerateTokens(cfg, s, user, now), user, n + 1, now), Ok(Issued(n, n + 1)))
  }

  function VerifyEmail(s: Store, secret: Secret, now: int): (Store, Outcome) {
    var found := MailUser(s.verification, secret, now);
    if found.None? then (s, Err(TokenInvalid))
    else
      var user := found.value;
      if user !in s.accounts then (s, Err(NotFound))
      else if s.accounts[user].verified then (s, Err(AlreadyVerified))
      else
        (s.(accounts := s.accounts[user := s.accounts[user].(verified := true)],
            verification := ConsumeMail(s.verification, user, secret)),
         Ok(Done))
  }

  /** Unknown and verified users are ignored silently. */
  function ResendVerification(s: Store, user: User, now: int): (Store, Outcome) {
    if user !in s.accounts || s.accounts[user].verified then (s, Ok(Done))
    else
      var box := s.verification;
      var cleaned :=
        if user in box.current && now < box.current[user].expires then
          box.(tokens := box.tokens - {box.current[user].value})
        else box;
      (s.(verification := IssueMail(cleaned, user, s.secrets, now + DAY_MS), secrets := s.secrets + 1), Ok(Done))
  }

  function ForgotPassword(s: Store, user: User, now: int): (Store, Outcome) {
    if user !in s.accounts then (s, Ok(Done))
    else (s.(reset := IssueMail(s.reset, user, s.secrets, now + HOUR_MS), secrets := s.secrets + 1), Ok(Done))
  }

  function NewPassword(s: Store, user: User, password: string): Store
    requires user in s.accounts
  {
    s.(accounts := s.accounts[user := s.accounts[user].(password := Some(password), resetRequired := false)])
  }

  function ResetPassword(s: Store, secret: Secret, password: string, now: int): (Store, Outcome) {
    var found := MailUser(s.reset, secret, now);
    if found.None? then (s, Err(TokenInvalid))
    else
      var user := found.value;
      if user !in s.accounts then (s, Err(NotFound))
      else
        var s' := BumpVersion(RevokeAll(NewPassword(s, user, password), user), user);
        (s'.(reset := ConsumeMail(s.reset, user, secret)), Ok(Done))
  }

  function ChangePassword(s: Store, user: User, current: string, password: string): (Store, Outcome) {
    if user !in s.accounts then (s, Err(NotFound))
    else if s.accounts[user].password.None? then (s, Err(SsoOnly))
    else if s.accounts[user].password.value != current then (s, Err(InvalidCredentials))
    else (RevokeAll(NewPassword(s, user, password), user), Ok(Done))
  }

  function ForcePasswordReset(s: Store, user: User): (Store, Outcome) {
    if user !in s.accounts then (s, Err(NotFound))
    else if s.accounts[user].password.None? then (s, Ok(NotApplicable))
    else
      var flagged := s.(accounts := s.accounts[user := s.accounts[user].(resetRequired := true)]);
      (BumpVersion(RevokeAll(flagged, user), user), Ok(Done))
  }

  function Refresh(cfg: Config, s: Store, token: Token, now: int): (Store, Outcome) {
    if Blacklisted(s, token, now) then (s, Err(TokenRevoked))
    else if !Verifies(s, token, now) then (s, Err(TokenInvalid))
    else
      var user := s.issued[token].sub;
      if !RefreshActive(s, user, token, now) then (s, Err(TokenRevoked))
      else if user !in s.accounts then (s, Err(NotFound))
      else if !s.accounts[user].active then (s, Err(Deactivated))
      else
        var n := |s.issued|;
        (StoreRefresh(RevokeRefresh(GenerateTokens(cfg, s, user, now), user, token, now), user, n + 1, now),
         Ok(Issued(n, n + 1)))
  }

  /** The guard of an authenticated request: signature and expiry, blacklist, version. */
  function ValidateAccess(s: Store, token: Token, now: int): Outcome {
    if !Verifies(s, token, now) then Err(TokenInvalid)
    else if Blacklisted(s, token, now) then Err(TokenRevoked)
    else
      var c := s.issued[token];
      var payloadVersion := if c.version == 0 then 1 else c.version;
      if c.sub !in s.versions then Err(VersionMissing)
      else if payloadVersion < s.versions[c.sub] then Err(TokenRevoked)
      else Ok(Accepted(c.sub))
  }

  function Logout(s: Store, token: Token, user: User, now: int): (Store, Outcome) {
    var s' := RevokeAll(s, user);
    if token < |s.issued| && s.issued[token].exp - Seconds(now) > 0 then
      var ttl := s.issued[token].exp - Seconds(now);
      (s'.(blacklist := s.blacklist[token := now + 1000 * ttl]), Ok(Done))
    else (s', Ok(Done))
  }

  /** Accounts made by single sign-on, and deactivation by an administrator, happen outside this service. */
  function AddSsoAccount(s: Store, user: User): (Store, Outcome) {
    if user in s.accounts then (s, Err(Duplicate))
    else (s.(accounts := s.accounts[user := Account(None, true, true, false)]), Ok(Done))
  }

  function SetActive(s: Store, user: User, active: bool): (Store, Outcome) {
    if user !in s.accounts then (s, Err(NotFound))
    else (s.(accounts := s.accounts[user := s.accounts[user].(active := active)]), Ok(Done))
  }

  // ----- Runs

  datatype Op =
    | RegisterOp(user: User, password: string, admission: Admission)
    | LoginOp(user: User, password: string)
    | VerifyEmailOp(secret: Secret)
    | ResendOp(user: User)
    | ForgotOp(user: User)
    | ResetOp(secret: Secret, password: string)
    | ChangeOp(user: User, current: string, password: string)
    | ForceResetOp(user: User)
    | RefreshOp(token: Token)
    | ValidateOp(token: Token)
    | LogoutOp(token: Token, user: User)
    | AddSsoOp(user: User)
    | SetActiveOp(user: User, active: bool)

  function Step(cfg: Config, s: Store, op: Op, now: int): (Store, Outcome) {
    match op
    case RegisterOp(u, p, a) => Register(s, u, p, a, now)
    case LoginOp(u, p) => Login(cfg, s, u, p, now)
    case VerifyEmailOp(t) => VerifyEmail(s, t, now)
    case ResendOp(u) => ResendVerification(s, u, now)
    case ForgotOp(u) => ForgotPassword(s, u, now)
    case ResetOp(t, p) => ResetPassword(s, t, p, now)
    case ChangeOp(u, c, p) => ChangePassword(s, u, c, p)
    case ForceResetOp(u) => ForcePasswordReset(s, u)
    case RefreshOp(t) => Refresh(cfg, s, t, now)
    case ValidateOp(t) => (s, ValidateAccess(s, t, now))
    case LogoutOp(t, u) => Logout(s, t, u, now)
    case AddSsoOp(u) => AddSsoAccount(s, u)
    case SetActiveOp(u, b) => SetActive(s, u, b)
  }

  datatype Event = Event(op: Op, now: int)

  /** A run from the empty store: `states[i]` is the store before `events[i]`. */
  datatype Run = Run(cfg: Config, states: seq<Store>, events: seq<Event>)
  {
    ghost predicate Valid() {
      && |states| == |events| + 1
      && states[0] == EMPTY_STORE
      && (forall i | 0 <= i < |events| :: states[i + 1] == Step(cfg, states[i], events[i].op, events[i].now).0)
      && (forall i, j | 0 <= i < j < |events| :: events[i].now <= events[j].now)
    }

    function ReplyOf(i: nat): Outcome
      requires i < |events| && |states| == |events| + 1
    {
      Step(cfg, states[i], events[i].op, events[i].now).1
    }
  }
}
