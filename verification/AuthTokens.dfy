/** Verification links and refresh tokens. Every service call is one atomic step with its own clock reading.
    A refresh token is represented by the digest it is stored under; users and tokens are never deleted, and
    the id of a row is its index. */
module AuthTokens {
  import opened Text

  const VERIFICATION_TTL_MS := 60 * 60 * 1000
  const REFRESH_TTL_MS := 7 * 24 * 60 * 60 * 1000
  const REMEMBER_ME_TTL_MS := 30 * 24 * 60 * 60 * 1000

  type UserId = nat
  type TokenId = nat

  datatype Status = PendingVerification | Active | Suspended | Inactive

  datatype Link = Link(token: string, expiresAt: int, usedAt: Option<int>)

  datatype User = User(email: string, status: Status, verifiedAt: Option<int>, link: Option<Link>)

  datatype Origin = Login | Verification | Rotation(of: TokenId)

  /** `origin` and `next` are history: where a token came from, and the token it was exchanged for. */
  datatype Token = Token(digest: string, user: UserId, expiresAt: int, revokedAt: Option<int>, origin: Origin,
      next: Option<TokenId>)

  /** `slugs` are those of the organizations, which are never removed. */
  datatype State = State(users: seq<User>, tokens: seq<Token>, slugs: set<string>)

  const EMPTY := State([], [], {})

  datatype Outcome = Done | Session(digest: string) | AlreadyVerified | Denied | Forbidden | Conflict | NotFound

  // ----- Look-ups by unique column -----

  function FindEmail(users: seq<User>, email: string): (u: Option<UserId>)
    ensures u.Some? ==> u.value < |users| && users[u.value].email == email
    ensures u.None? ==> forall v :: 0 <= v < |users| ==> users[v].email != email
  {
    if users == [] then None
    else if users[|users|-1].email == email then Some(|users| - 1)
    else FindEmail(users[..|users|-1], email)
  }

  predicate HasLink(u: User, token: string) { u.link.Some? && u.link.value.token == token }

  function FindLink(users: seq<User>, token: string): (u: Option<UserId>)
    ensures u.Some? ==> u.value < |users| && HasLink(users[u.value], token)
    ensures u.None? ==> forall v :: 0 <= v < |users| ==> !HasLink(users[v], token)
  {
    if users == [] then None
    else if HasLink(users[|users|-1], token) then Some(|users| - 1)
    else FindLink(users[..|users|-1], token)
  }

  function FindToken(tokens: seq<Token>, digest: string): (i: Option<TokenId>)
    ensures i.Some? ==> i.value < |tokens| && tokens[i.value].digest == digest
    ensures i.None? ==> forall k :: 0 <= k < |tokens| ==> tokens[k].digest != digest
  {
    if tokens == [] then None
    else if tokens[|tokens|-1].digest == digest then Some(|tokens| - 1)
    else FindToken(tokens[..|tokens|-1], digest)
  }

  // ----- The services as functions -----

  function NewLink(token: string, now: int): Link { Link(token, now + VERIFICATION_TTL_MS, None) }

  /** The upsert behind a resent link: an existing row keeps its `usedAt`. */
  function Upsert(link: Option<Link>, token: string, now: int): Link {
    if link.Some? then link.value.(token := token, expiresAt := now + VERIFICATION_TTL_MS) else NewLink(token, now)
  }

  function NewToken(digest: string, user: UserId, rememberMe: bool, origin: Origin, now: int): Token {
    Token(digest, user, now + (if rememberMe then REMEMBER_ME_TTL_MS else REFRESH_TTL_MS), None, origin, None)
  }

  /** `slug` is what `SlugUtil.create` makes of the organization's name. Both it and the address must be new. */
  function Register(s: State, slug: string, email: string, token: string, now: int): (State, Outcome) {
    if FindEmail(s.users, email).Some? || slug in s.slugs then (s, Conflict)
    else
      var user := User(email, PendingVerification, None, Some(NewLink(token, now)));
      (s.(users := s.users + [user], slugs := s.slugs + {slug}), Done)
  }

  /** An organization made by an administrator, under a free slug. */
  function AddOrganization(s: State, slug: string): State { s.(slugs := s.slugs + {slug}) }

  /** Users created by an administrator or by accepting an invitation are verified from the start. */
  function AddVerified(s: State, email: string, now: int): (State, Outcome) {
    if FindEmail(s.users, email).Some? then (s, Conflict)
    else (s.(users := s.users + [User(email, Active, Some(now), None)]), Done)
  }

  function Resend(s: State, email: string, token: string, now: int): State {
    var u := FindEmail(s.users, email);
    if u.None? || s.users[u.value].verifiedAt.Some? then s
    else
      var user := s.users[u.value];
      s.(users := s.users[u.value := user.(link := Some(Upsert(user.link, token, now)))])
  }

  predicate Usable(link: Link, now: int) { link.usedAt.None? && link.expiresAt > now }

  function VerifyEmail(s: State, token: string, digest: string, now: int): (State, Outcome) {
    var u := FindLink(s.users, token);
    if u.None? then (s, Denied)
    else
      var user := s.users[u.value];
      if Usable(user.link.value, now) then
        var verified := user.(
          status := Active, verifiedAt := Some(now), link := Some(user.link.value.(usedAt := Some(now))));
        var t := NewToken(digest, u.value, false, Verification, now);
        (s.(users := s.users[u.value := verified], tokens := s.tokens + [t]), Session(digest))
      else (s, if user.verifiedAt.Some? then AlreadyVerified else Denied)
  }

  function LogIn(s: State, email: string, passwordOk: bool, rememberMe: bool, digest: string, now: int)
    : (State, Outcome)
  {
    var u := FindEmail(s.users, email);
    if u.None? || !passwordOk then (s, Denied)
    else if s.users[u.value].verifiedAt.None? || s.users[u.value].status != Active then (s, Forbidden)
    else (s.(tokens := s.tokens + [NewToken(digest, u.value, rememberMe, Login, now)]), Session(digest))
  }

  predicate Honoured(t: Token, now: int) { t.revokedAt.None? && t.expiresAt >= now }

  function Refresh(s: State, presented: string, digest: string, now: int): (State, Outcome) {
    var i := FindToken(s.tokens, presented);
    if i.None? || !Honoured(s.tokens[i.value], now) || s.tokens[i.value].user >= |s.users| then (s, Denied)
    else
      var spent := s.tokens[i.value];
      var revoked := s.tokens[i.value := spent.(revokedAt := Some(now), next := Some(|s.tokens|))];
      (s.(tokens := revoked + [NewToken(digest, spent.user, false, Rotation(i.value), now)]), Session(digest))
  }

  function Logout(s: State, presented: string, now: int): State {
    var i := FindToken(s.tokens, presented);
    if i.None? || s.tokens[i.value].revokedAt.Some? then s
    else s.(tokens := s.tokens[i.value := s.tokens[i.value].(revokedAt := Some(now))])
  }

  function RevokeIf(t: Token, user: UserId, now: int): Token {
    if t.user == user && t.revokedAt.None? then t.(revokedAt := Some(now)) else t
  }

  function RevokeAll(tokens: seq<Token>, user: UserId, now: int): (r: seq<Token>)
    ensures |r| == |tokens| && forall i :: 0 <= i < |r| ==> r[i] == RevokeIf(tokens[i], user, now)
  {
    seq(|tokens|, i requires 0 <= i < |tokens| => RevokeIf(tokens[i], user, now))
  }

  function ForceLogout(s: State, user: UserId, now: int): (State, Outcome) {
    if user >= |s.users| then (s, NotFound) else (s.(tokens := RevokeAll(s.tokens, user, now)), Done)
  }

  function SetStatus(s: State, user: UserId, status: Status): (State, Outcome) {
    if user >= |s.users| then (s, NotFound)
    else (s.(users := s.users[user := s.users[user].(status := status)]), Done)
  }

  /** An administrator's change of address; keeping one's own address is no conflict. */
  function ChangeEmail(s: State, user: UserId, email: string): (State, Outcome) {
    if user >= |s.users| then (s, NotFound)
    else if s.users[user].email != email && FindEmail(s.users, email).Some? then (s, Conflict)
    else (s.(users := s.users[user := s.users[user].(email := email)]), Done)
  }

  function VerifyUserEmail(s: State, user: UserId, now: int): (State, Outcome) {
    if user >= |s.users| then (s, NotFound)
    else (s.(users := s.users[user := s.users[user].(verifiedAt := Some(now), status := Active)]), Done)
  }

  // ----- What each call does -----

  ghost predicate Known(s: State, email: string) { exists u :: 0 <= u < |s.users| && s.users[u].email == email }

  /** The user has the link of that token, which was not used and is not past its time. */
  ghost predicate LinkOpen(s: State, u: int, token: string, now: int) {
    && 0 <= u < |s.users| && s.users[u].link.Some? && s.users[u].link.value.token == token
    && s.users[u].link.value.usedAt.None? && now < s.users[u].link.value.expiresAt
  }

  /** The user may sign in: verified and active. */
  ghost predicate MaySignIn(s: State, u: int, email: string) {
    && 0 <= u < |s.users| && s.users[u].email == email
    && s.users[u].verifiedAt.Some? && s.users[u].status == Active
  }

  /** The token is stored under the digest, was not revoked and is not past its time. */
  ghost predicate TokenGood(s: State, i: int, presented: string, now: int) {
    && 0 <= i < |s.tokens| && s.tokens[i].digest == presented && s.tokens[i].revokedAt.None?
    && now <= s.tokens[i].expiresAt && s.tokens[i].user < |s.users|
  }

  /** Registration needs a new address and a new slug, and gives an unverified user a link for an hour. */
  lemma RegisterStores(s: State, slug: string, email: string, token: string, now: int)
    ensures var (t, r) := Register(s, slug, email, token, now);
            if Known(s, email) || slug in s.slugs then t == s && r == Conflict
            else
              && r == Done && t.tokens == s.tokens && t.slugs == s.slugs + {slug}
              && t.users == s.users
                 + [User(email, PendingVerification, None, Some(Link(token, now + 3_600_000, None)))]
  {
  }

  /** An unverified user gets a new token and another hour, and keeps what is known about the use of the link; nothing
      else changes. Addresses belong to one user each. */
  lemma ResendStores(s: State, email: string, token: string, now: int)
    ensures var t := Resend(s, email, token, now);
            && t.tokens == s.tokens && t.slugs == s.slugs && |t.users| == |s.users|
            && (t != s ==> exists u :: 0 <= u < |s.users| && Resent(s, t, u, email, token, now))
            && (Waits(s, email) ==> exists u :: 0 <= u < |s.users| && Resent(s, t, u, email, token, now))
  {
    var u := FindEmail(s.users, email);
    if u.Some? && s.users[u.value].verifiedAt.None? {
      assert Resent(s, Resend(s, email, token, now), u.value, email, token, now);
    }
  }

  /** The address belongs to users who are not verified. */
  ghost predicate Waits(s: State, email: string) {
    Known(s, email) && forall u :: 0 <= u < |s.users| && s.users[u].email == email ==> s.users[u].verifiedAt.None?
  }

  ghost predicate Resent(s: State, t: State, u: int, email: string, token: string, now: int)
    requires 0 <= u < |s.users| == |t.users|
  {
    var a, b := s.users[u], t.users[u];
    && a.email == email && a.verifiedAt.None?
    && b == a.(link := Some(Link(token, now + 3_600_000, if a.link.Some? then a.link.value.usedAt else None)))
    && forall v :: 0 <= v < |s.users| && v != u ==> t.users[v] == s.users[v]
  }

  /** A verification that opens a session consumes an open link, verifies and activates its user, and adds a token for
      seven days; any other changes nothing. */
  lemma VerifyStores(s: State, token: string, digest: string, now: int)
    ensures var (t, r) := VerifyEmail(s, token, digest, now);
            if r.Session? then
              r == Session(digest) && exists u :: LinkOpen(s, u, token, now) && Verified(s, t, u, digest, now)
            else t == s && r in {Denied, AlreadyVerified}
  {
    var u := FindLink(s.users, token);
    if u.Some? && Usable(s.users[u.value].link.value, now) { assert LinkOpen(s, u.value, token, now); }
  }

  ghost predicate Verified(s: State, t: State, u: int, digest: string, now: int)
    requires 0 <= u < |s.users| && s.users[u].link.Some?
  {
    && t.slugs == s.slugs
    && t.users == s.users[u := s.users[u].(status := Active, verifiedAt := Some(now),
                                           link := Some(s.users[u].link.value.(usedAt := Some(now))))]
    && t.tokens == s.tokens + [Token(digest, u, now + 604_800_000, None, Verification, None)]
  }

  /** Signing in needs a known address, the right password, and a verified and active user; the session lasts seven
      days, or thirty when the user asks to be remembered. Wrong address and wrong password are answered alike. */
  lemma LogInStores(s: State, email: string, passwordOk: bool, rememberMe: bool, digest: string, now: int)
    ensures var (t, r) := LogIn(s, email, passwordOk, rememberMe, digest, now);
            && t.users == s.users && t.slugs == s.slugs
            && (r == Denied <==> !Known(s, email) || !passwordOk)
            && (r == Denied || r == Forbidden || r == Session(digest))
            && (r == Forbidden ==> exists u :: 0 <= u < |s.users| && s.users[u].email == email
                                               && (s.users[u].verifiedAt.None? || s.users[u].status != Active))
            && (OneAddress(s, email) && passwordOk && (exists u :: MaySignIn(s, u, email)) ==> r.Session?)
            && if r.Session? then
                 && passwordOk
                 && var end := now + if rememberMe then 2_592_000_000 else 604_800_000;
                 exists u :: MaySignIn(s, u, email) && t.tokens == s.tokens + [Token(digest, u, end, None, Login, None)]
               else t == s
  {
    var u := FindEmail(s.users, email);
    if u.Some? && passwordOk && s.users[u.value].verifiedAt.Some? && s.users[u.value].status == Active {
      assert MaySignIn(s, u.value, email);
    }
  }

  ghost predicate OneAddress(s: State, email: string) {
    forall u, v :: 0 <= u < v < |s.users| ==> !(s.users[u].email == email == s.users[v].email)
  }

  /** A rotation revokes the good token presented and adds its successor for seven days; any other is refused. */
  lemma RefreshStores(s: State, presented: string, digest: string, now: int)
    ensures var (t, r) := Refresh(s, presented, digest, now);
            && t.users == s.users && t.slugs == s.slugs
            && if r.Session? then
                 r == Session(digest) && exists i :: TokenGood(s, i, presented, now) && Rotated(s, t, i, digest, now)
               else t == s && r == Denied
  {
    var i := FindToken(s.tokens, presented);
    if Refresh(s, presented, digest, now).1.Session? { assert TokenGood(s, i.value, presented, now); }
  }

  ghost predicate Rotated(s: State, t: State, i: TokenId, digest: string, now: int)
    requires i < |s.tokens|
  {
    t.tokens == s.tokens[i := s.tokens[i].(revokedAt := Some(now), next := Some(|s.tokens|))]
                + [Token(digest, s.tokens[i].user, now + 604_800_000, None, Rotation(i), None)]
  }

  /** Signing out revokes the token presented, if it was live; an administrator's log-out revokes all live tokens of the
      user. */
  lemma RevocationsStore(s: State, presented: string, user: UserId, now: int)
    ensures var t := Logout(s, presented, now);
            && t.users == s.users && t.slugs == s.slugs && |t.tokens| == |s.tokens|
            && (forall i :: 0 <= i < |s.tokens| ==>
                  t.tokens[i] == s.tokens[i]
                  || (s.tokens[i].digest == presented && s.tokens[i].revokedAt.None?
                      && t.tokens[i] == s.tokens[i].(revokedAt := Some(now))))
            && ((exists i :: 0 <= i < |s.tokens| && s.tokens[i].digest == presented)
                && (forall i :: 0 <= i < |s.tokens| && s.tokens[i].digest == presented ==> s.tokens[i].revokedAt.None?)
                ==> t != s)
    ensures var (t, r) := ForceLogout(s, user, now);
            && t.users == s.users && t.slugs == s.slugs && |t.tokens| == |s.tokens|
            && (r == NotFound <==> user >= |s.users|) && (r == NotFound ==> t == s)
            && (r != NotFound ==> r == Done && forall i :: 0 <= i < |s.tokens| ==>
                  t.tokens[i] == if s.tokens[i].user == user && s.tokens[i].revokedAt.None?
                                 then s.tokens[i].(revokedAt := Some(now)) else s.tokens[i])
  {
    var i := FindToken(s.tokens, presented);
    if i.Some? && s.tokens[i.value].revokedAt.None? {
      assert Logout(s, presented, now).tokens[i.value] != s.tokens[i.value];
    }
  }

  /** What administrators do to users; a taken address is refused, unless it is the user's own. */
  lemma AdministrationStores(s: State, user: UserId, status: Status, email: string, now: int)
    ensures AddVerified(s, email, now) ==
            if Known(s, email) then (s, Conflict)
            else (s.(users := s.users + [User(email, Active, Some(now), None)]), Done)
    ensures user >= |s.users| ==>
              && SetStatus(s, user, status) == (s, NotFound) == ChangeEmail(s, user, email)
              && VerifyUserEmail(s, user, now) == (s, NotFound)
    ensures user < |s.users| ==>
              var a := s.users[user];
              && SetStatus(s, user, status) == (s.(users := s.users[user := a.(status := status)]), Done)
              && VerifyUserEmail(s, user, now)
                 == (s.(users := s.users[user := a.(verifiedAt := Some(now), status := Active)]), Done)
              && ChangeEmail(s, user, email) ==
                 if a.email != email && Known(s, email) then (s, Conflict)
                 else (s.(users := s.users[user := a.(email := email)]), Done)
  {
  }

  // ----- The services as methods on the tables -----

  class Service {
    var users: seq<User>
    var tokens: seq<Token>
    var slugs: set<string>

    function Tables(): State
      reads this
    {
      State(users, tokens, slugs)
    }

    constructor ()
      ensures Tables() == EMPTY
    {
      users, tokens, slugs := [], [], {};
    }

    /** `createToken` of the verification service, for an existing user. */
    method UpsertLink(user: UserId, token: string, now: int)
      requires user < |users|
      modifies this`users
      ensures users == old(users)[user := old(users)[user].(link := Some(Upsert(old(users)[user].link, token, now)))]
    {
      var existing := users[user].link;
      if existing.Some? {
        users := users[user :=
            users[user].(link := Some(existing.value.(token := token, expiresAt := now + VERIFICATION_TTL_MS)))];
      } else {
        users := users[user := users[user].(link := Some(Link(token, now + VERIFICATION_TTL_MS, None)))];
      }
    }

    method CreateRefreshToken(user: UserId, rememberMe: bool, origin: Origin, digest: string, now: int)
      modifies this`tokens
      ensures tokens == old(tokens) + [NewToken(digest, user, rememberMe, origin, now)]
    {
      var ttl := if rememberMe then REMEMBER_ME_TTL_MS else REFRESH_TTL_MS;
      tokens := tokens + [Token(digest, user, now + ttl, None, origin, None)];
    }

    method RegisterOrganization(slug: string, email: string, token: string, now: int) returns (r: Outcome)
      modifies this`users, this`slugs
      ensures (Tables(), r) == Register(old(Tables()), slug, email, token, now)
    {
      var existing := FindEmail(users, email);
      if existing.Some? { return Conflict; }
      if slug in slugs { return Conflict; }
      slugs := slugs + {slug};
      users := users + [User(email, PendingVerification, None, None)];
      UpsertLink(|users| - 1, token, now);
      assert users == old(users) + [User(email, PendingVerification, None, Some(NewLink(token, now)))];
      r := Done;
    }

    method ResendVerification(email: string, token: string, now: int)
      modifies this`users
      ensures Tables() == Resend(old(Tables()), email, token, now)
    {
      var user := FindEmail(users, email);
      if user.None? || users[user.value].verifiedAt.Some? { return; }
      UpsertLink(user.value, token, now);
    }

    /** The link is consumed before the last checks, which are made on the row as it is then. */
    method Verify(token: string, digest: string, now: int) returns (r: Outcome)
      modifies this
      ensures (Tables(), r) == VerifyEmail(old(Tables()), token, digest, now)
    {
      var found := FindLink(users, token);
      if found.None? { return Denied; }
      var id := found.value;
      var link := users[id].link.value;
      var isTokenUsable := link.usedAt.None? && link.expiresAt > now;
      var alreadyVerified := users[id].verifiedAt.Some?;
      if !isTokenUsable && !alreadyVerified { return Denied; }
      if isTokenUsable {
        users := users[id :=
            users[id].(verifiedAt := Some(now), status := Active, link := Some(link.(usedAt := Some(now))))];
      }
      if users[id].verifiedAt.None? { return Denied; }
      if !isTokenUsable || users[id].status != Active { return AlreadyVerified; }
      CreateRefreshToken(id, false, Verification, digest, now);
      r := Session(digest);
    }

    method SignIn(email: string, passwordOk: bool, rememberMe: bool, digest: string, now: int) returns (r: Outcome)
      modifies this`tokens
      ensures (Tables(), r) == LogIn(old(Tables()), email, passwordOk, rememberMe, digest, now)
    {
      var user := FindEmail(users, email);
      if user.None? { return Denied; }
      if !passwordOk { return Denied; }
      if users[user.value].verifiedAt.None? { return Forbidden; }
      if users[user.value].status != Active { return Forbidden; }
      CreateRefreshToken(user.value, rememberMe, Login, digest, now);
      r := Session(digest);
    }

    method Rotate(presented: string, digest: string, now: int) returns (r: Outcome)
      modifies this`tokens
      ensures (Tables(), r) == Refresh(old(Tables()), presented, digest, now)
    {
      var found := FindToken(tokens, presented);
      if found.None? { return Denied; }
      var id := found.value;
      if tokens[id].revokedAt.Some? || tokens[id].expiresAt < now { return Denied; }
      if tokens[id].user >= |users| { return Denied; }
      tokens := tokens[id := tokens[id].(revokedAt := Some(now), next := Some(|tokens|))];
      CreateRefreshToken(tokens[id].user, false, Rotation(id), digest, now);
      r := Session(digest);
    }

    method SignOut(presented: string, now: int)
      modifies this`tokens
      ensures Tables() == Logout(old(Tables()), presented, now)
    {
      var found := FindToken(tokens, presented);
      if found.Some? && tokens[found.value].revokedAt.None? {
        tokens := tokens[found.value := tokens[found.value].(revokedAt := Some(now))];
      }
    }
  }

  // ----- Runs -----

  datatype Op =
    | RegisterOp(slug: string, email: string, token: string, now: int)
    | AddOrganizationOp(slug: string)
    | AddVerifiedOp(email: string, now: int)
    | ResendOp(email: string, token: string, now: int)
    | VerifyOp(token: string, digest: string, now: int)
    | LoginOp(email: string, passwordOk: bool, rememberMe: bool, digest: string, now: int)
    | RefreshOp(presented: string, digest: string, now: int)
    | LogoutOp(presented: string, now: int)
    | ForceLogoutOp(user: UserId, now: int)
    | SetStatusOp(user: UserId, status: Status)
    | ChangeEmailOp(user: UserId, email: string)
    | VerifyUserOp(user: UserId, now: int)

  /** A random token or digest is one that no row has. */
  predicate Legal(s: State, op: Op) {
    match op
    case RegisterOp(_, _, token, _) => FindLink(s.users, token).None?
    case ResendOp(_, token, _) => FindLink(s.users, token).None?
    case VerifyOp(_, digest, _) => FindToken(s.tokens, digest).None?
    case LoginOp(_, _, _, digest, _) => FindToken(s.tokens, digest).None?
    case RefreshOp(_, digest, _) => FindToken(s.tokens, digest).None?
    case _ => true
  }

  function Apply(s: State, op: Op): (State, Outcome) {
    match op
    case RegisterOp(slug, email, token, now) => Register(s, slug, email, token, now)
    case AddOrganizationOp(slug) => (AddOrganization(s, slug), Done)
    case AddVerifiedOp(email, now) => AddVerified(s, email, now)
    case ResendOp(email, token, now) => (Resend(s, email, token, now), Done)
    case VerifyOp(token, digest, now) => VerifyEmail(s, token, digest, now)
    case LoginOp(email, passwordOk, rememberMe, digest, now) => LogIn(s, email, passwordOk, rememberMe, digest, now)
    case RefreshOp(presented, digest, now) => Refresh(s, presented, digest, now)
    case LogoutOp(presented, now) => (Logout(s, presented, now), Done)
    case ForceLogoutOp(user, now) => ForceLogout(s, user, now)
    case SetStatusOp(user, status) => SetStatus(s, user, status)
    case ChangeEmailOp(user, email) => ChangeEmail(s, user, email)
    case VerifyUserOp(user, now) => VerifyUserEmail(s, user, now)
  }

  ghost predicate StepAt(states: seq<State>, ops: seq<Op>, i: nat)
    requires |states| == |ops| + 1 && i < |ops|
  {
    Legal(states[i], ops[i]) && states[i + 1] == Apply(states[i], ops[i]).0
  }

  ghost predicate IsRun(states: seq<State>, ops: seq<Op>) {
    |states| == |ops| + 1 && forall i :: 0 <= i < |ops| ==> StepAt(states, ops, i)
  }

  // ----- Counting tokens -----

  function Count(tokens: seq<Token>, p: Token -> bool): nat {
    if tokens == [] then 0 else Count(tokens[..|tokens|-1], p) + if p(tokens[|tokens|-1]) then 1 else 0
  }

  predicate IsLive(t: Token) { t.revokedAt.None? }

  /** The first token of a session. */
  predicate IsRoot(t: Token) { !t.origin.Rotation? }

  /** The last token of a session so far. */
  predicate IsTail(t: Token) { t.next.None? }

  /** The last token of a session that has ended. */
  predicate IsEnd(t: Token) { t.next.None? && t.revokedAt.Some? }

  function ByVerification(user: UserId): Token -> bool {
    (t: Token) => t.origin == Verification && t.user == user
  }

  lemma CountSnoc(tokens: seq<Token>, t: Token, p: Token -> bool)
    ensures Count(tokens + [t], p) == Count(tokens, p) + if p(t) then 1 else 0
  {
    assert (tokens + [t])[..|tokens|] == tokens;
  }

  lemma {:induction false} CountAgrees(a: seq<Token>, b: seq<Token>, p: Token -> bool)
    requires |a| == |b| && forall i :: 0 <= i < |a| ==> p(a[i]) == p(b[i])
    ensures Count(a, p) == Count(b, p)
  {
    if a != [] { CountAgrees(a[..|a|-1], b[..|b|-1], p); }
  }

  lemma {:induction false} CountSet(tokens: seq<Token>, i: TokenId, t: Token, p: Token -> bool)
    requires i < |tokens| && p(tokens[i]) && !p(t)
    ensures Count(tokens[i := t], p) == Count(tokens, p) - 1
  {
    var front := tokens[..|tokens|-1];
    if i < |front| {
      CountSet(front, i, t, p);
      assert tokens[i := t][..|front|] == front[i := t];
    } else {
      assert tokens[i := t][..|front|] == front;
    }
  }

  lemma {:induction false} CountsAtMostOne(tokens: seq<Token>, p: Token -> bool, i: TokenId, j: TokenId)
    requires i < j < |tokens| && p(tokens[i]) && p(tokens[j])
    ensures Count(tokens, p) >= 2
  {
    var front := tokens[..|tokens|-1];
    if j < |front| { CountsAtMostOne(front, p, i, j); } else { CountsOne(front, p, i); }
  }

  lemma {:induction false} CountsOne(tokens: seq<Token>, p: Token -> bool, i: TokenId)
    requires i < |tokens| && p(tokens[i])
    ensures Count(tokens, p) >= 1
  {
    var front := tokens[..|tokens|-1];
    if i < |front| { CountsOne(front, p, i); }
  }

  // ----- Invariants of every run -----

  ghost predicate SameLink(users: seq<User>, token: string, u: UserId, v: UserId) {
    u < |users| && v < |users| && HasLink(users[u], token) && HasLink(users[v], token)
  }

  ghost predicate UniqueLinks(users: seq<User>) {
    forall token, u: UserId, v: UserId :: SameLink(users, token, u, v) ==> u == v
  }

  ghost predicate SameDigest(tokens: seq<Token>, i: TokenId, j: TokenId) {
    i < |tokens| && j < |tokens| && tokens[i].digest == tokens[j].digest
  }

  ghost predicate UniqueDigests(tokens: seq<Token>) {
    forall i: TokenId, j: TokenId :: SameDigest(tokens, i, j) ==> i == j
  }

  predicate LinkUsed(u: User) { u.link.Some? && u.link.value.usedAt.Some? }

  /** Only verified users have used their link. */
  ghost predicate UsedMeansVerified(users: seq<User>) {
    forall u :: 0 <= u < |users| ==> LinkUsed(users[u]) ==> users[u].verifiedAt.Some?
  }

  ghost predicate VerifiedUser(users: seq<User>, u: UserId) { u < |users| && users[u].verifiedAt.Some? }

  /** Tokens belong to verified users. */
  ghost predicate Owned(s: State) { forall i :: 0 <= i < |s.tokens| ==> VerifiedUser(s.users, s.tokens[i].user) }

  /** A token and its successor name each other, have the same owner, and the token is revoked. */
  ghost predicate Chained(tokens: seq<Token>, i: TokenId)
    requires i < |tokens|
  {
    var t := tokens[i];
    && (t.next.Some? ==> t.revokedAt.Some? && i < t.next.value < |tokens| && tokens[t.next.value].origin == Rotation(i))
    && (t.origin.Rotation? ==>
        t.origin.of < i && tokens[t.origin.of].next == Some(i) && tokens[t.origin.of].user == t.user)
  }

  ghost predicate AllChained(tokens: seq<Token>) { forall i :: 0 <= i < |tokens| ==> Chained(tokens, i) }

  /** A user has one session that came from a verification link exactly if the link has been used. */
  ghost predicate OneVerification(s: State, u: UserId) {
    Count(s.tokens, ByVerification(u)) == if u < |s.users| && LinkUsed(s.users[u]) then 1 else 0
  }

  ghost predicate AllOneVerification(s: State) { forall u: UserId :: OneVerification(s, u) }

  /** As many sessions are at their last token as have been opened. */
  ghost predicate Balanced(tokens: seq<Token>) { Count(tokens, IsTail) == Count(tokens, IsRoot) }

  ghost predicate Inv(s: State) {
    && UniqueLinks(s.users) && UsedMeansVerified(s.users)
    && UniqueDigests(s.tokens) && AllChained(s.tokens) && Balanced(s.tokens)
    && Owned(s) && AllOneVerification(s)
  }

  /** A row whose verification and link are those of before, or whose link is new. */
  lemma LinksStayUnique(users: seq<User>, u: UserId, user: User)
    requires UniqueLinks(users) && u <= |users|
    requires user.link.Some? ==>
             (u < |users| && HasLink(users[u], user.link.value.token)) || FindLink(users, user.link.value.token).None?
    ensures UniqueLinks(if u < |users| then users[u := user] else users + [user])
  {
    hide FindLink;
    var after := if u < |users| then users[u := user] else users + [user];
    forall token, v: UserId, w: UserId | SameLink(after, token, v, w)
      ensures v == w
    {
      if v != u && w != u { assert SameLink(users, token, v, w); }
      if u < |users| && HasLink(users[u], token) {
        assert v != u ==> SameLink(users, token, v, u);
        assert w != u ==> SameLink(users, token, w, u);
      }
    }
  }

  /** Changing or adding one user, neither undoing a verification nor using a link. */
  lemma UserKeepsInv(s: State, u: UserId, user: User)
    requires Inv(s) && u <= |s.users|
    requires user.link.Some? ==>
             (u < |s.users| && HasLink(s.users[u], user.link.value.token))
                 || FindLink(s.users, user.link.value.token).None?
    requires if u < |s.users|
             then (s.users[u].verifiedAt.Some? ==> user.verifiedAt.Some?) && LinkUsed(user) == LinkUsed(s.users[u])
             else !LinkUsed(user)
    ensures Inv(s.(users := if u < |s.users| then s.users[u := user] else s.users + [user]))
  {
    LinksStayUnique(s.users, u, user);
    hide FindLink, UniqueLinks, UniqueDigests, AllChained, Balanced, Count, HasLink;
    var t := s.(users := if u < |s.users| then s.users[u := user] else s.users + [user]);
    forall i | 0 <= i < |t.tokens|
      ensures VerifiedUser(t.users, t.tokens[i].user)
    {
      assert VerifiedUser(s.users, s.tokens[i].user);
    }
    forall v: UserId
      ensures OneVerification(t, v)
    {
      assert OneVerification(s, v);
    }
  }

  /** A new token of a verified user, not the successor of another. */
  lemma RootKeepsTokens(tokens: seq<Token>, t: Token)
    requires UniqueDigests(tokens) && AllChained(tokens) && Balanced(tokens)
    requires FindToken(tokens, t.digest).None? && IsRoot(t) && t.next.None?
    ensures UniqueDigests(tokens + [t]) && AllChained(tokens + [t]) && Balanced(tokens + [t])
  {
    CountSnoc(tokens, t, IsTail);
    CountSnoc(tokens, t, IsRoot);
    NewDigest(tokens, t);
    hide UniqueDigests, FindToken, Count;
    forall i | 0 <= i < |tokens + [t]|
      ensures Chained(tokens + [t], i)
    {
      if i < |tokens| { assert Chained(tokens, i); }
    }
  }

  lemma NewDigest(tokens: seq<Token>, t: Token)
    requires UniqueDigests(tokens) && FindToken(tokens, t.digest).None?
    ensures UniqueDigests(tokens + [t])
  {
    hide FindToken;
    forall i: TokenId, j: TokenId | SameDigest(tokens + [t], i, j)
      ensures i == j
    {
      if i < |tokens| && j < |tokens| { assert SameDigest(tokens, i, j); }
    }
  }

  lemma LoginKeepsInv(s: State, t: Token)
    requires Inv(s) && FindToken(s.tokens, t.digest).None? && t.origin == Login && t.next.None?
             && VerifiedUser(s.users, t.user)
    ensures Inv(s.(tokens := s.tokens + [t]))
  {
    RootKeepsTokens(s.tokens, t);
    hide FindToken, UniqueLinks, UniqueDigests, AllChained, Balanced, Count, HasLink, UsedMeansVerified;
    var after := s.(tokens := s.tokens + [t]);
    forall u: UserId
      ensures OneVerification(after, u)
    {
      assert OneVerification(s, u);
      CountSnoc(s.tokens, t, ByVerification(u));
    }
  }

  lemma VerifyKeepsInv(s: State, token: string, digest: string, now: int)
    requires Inv(s) && FindToken(s.tokens, digest).None?
    ensures Inv(VerifyEmail(s, token, digest, now).0)
  {
    hide FindToken, FindLink;
    var after := VerifyEmail(s, token, digest, now).0;
    if after != s {
      var u := FindLink(s.users, token).value;
      var t := after.tokens[|s.tokens|];
      RootKeepsTokens(s.tokens, t);
      LinksStayUnique(s.users, u, after.users[u]);
      hide UniqueLinks, UniqueDigests, AllChained, Balanced, Count, HasLink;
      forall v: UserId
        ensures OneVerification(after, v)
      {
        assert OneVerification(s, v);
        CountSnoc(s.tokens, t, ByVerification(v));
      }
      forall i | 0 <= i < |after.tokens|
        ensures VerifiedUser(after.users, after.tokens[i].user)
      {
        if i < |s.tokens| { assert VerifiedUser(s.users, s.tokens[i].user); }
      }
    }
  }

  /** Revoking tokens changes neither who owns them nor how they are chained. */
  ghost predicate OnlyRevokes(a: Token, b: Token) {
    b == a.(revokedAt := b.revokedAt) && (a.revokedAt.Some? ==> b == a)
  }

  lemma RevokeKeepsInv(s: State, after: seq<Token>)
    requires Inv(s) && |after| == |s.tokens| && forall i :: 0 <= i < |after| ==> OnlyRevokes(s.tokens[i], after[i])
    ensures Inv(s.(tokens := after))
  {
    hide UniqueLinks, HasLink, UsedMeansVerified, Count;
    var t := s.(tokens := after);
    assert UniqueDigests(after) by {
      forall i: TokenId, j: TokenId | SameDigest(after, i, j) ensures i == j { assert SameDigest(s.tokens, i, j); }
    }
    forall i | 0 <= i < |after|
      ensures Chained(after, i) && VerifiedUser(t.users, after[i].user)
    {
      assert Chained(s.tokens, i) && VerifiedUser(s.users, s.tokens[i].user);
    }
    CountAgrees(s.tokens, after, IsTail);
    CountAgrees(s.tokens, after, IsRoot);
    forall u: UserId
      ensures OneVerification(t, u)
    {
      assert OneVerification(s, u);
      CountAgrees(s.tokens, after, ByVerification(u));
    }
  }

  lemma RefreshKeepsInv(s: State, presented: string, digest: string, now: int)
    requires Inv(s) && FindToken(s.tokens, digest).None?
    ensures Inv(Refresh(s, presented, digest, now).0)
  {
    hide FindToken, Count, UniqueLinks, UsedMeansVerified;
    var after := Refresh(s, presented, digest, now).0;
    if after != s {
      var i := FindToken(s.tokens, presented).value;
      RotateKeepsTokens(s.tokens, i, after.tokens[|s.tokens|], now);
      assert Chained(s.tokens, i);
      forall k | 0 <= k < |after.tokens|
        ensures VerifiedUser(after.users, after.tokens[k].user)
      {
        if k < |s.tokens| { assert VerifiedUser(s.users, s.tokens[k].user); }
        assert VerifiedUser(s.users, s.tokens[i].user);
      }
      forall u: UserId
        ensures OneVerification(after, u)
      {
        assert OneVerification(s, u);
        var revoked := after.tokens[..|s.tokens|];
        assert after.tokens == revoked + [after.tokens[|s.tokens|]];
        CountAgrees(s.tokens, revoked, ByVerification(u));
        CountSnoc(revoked, after.tokens[|s.tokens|], ByVerification(u));
      }
    }
  }

  function Exchanged(tokens: seq<Token>, i: TokenId, now: int): seq<Token>
    requires i < |tokens|
  {
    tokens[i := tokens[i].(revokedAt := Some(now), next := Some(|tokens|))]
  }

  lemma RotateKeepsTokens(tokens: seq<Token>, i: TokenId, t: Token, now: int)
    requires UniqueDigests(tokens) && AllChained(tokens) && Balanced(tokens) && i < |tokens| && IsLive(tokens[i])
    requires FindToken(tokens, t.digest).None? && t.origin == Rotation(i) && t.next.None? && t.user == tokens[i].user
    ensures UniqueDigests(Exchanged(tokens, i, now) + [t]) && AllChained(Exchanged(tokens, i, now) + [t])
    ensures Balanced(Exchanged(tokens, i, now) + [t])
  {
    RotateKeepsDigests(tokens, i, t, now);
    RotateKeepsBalance(tokens, i, t, now);
    hide FindToken, Count, UniqueDigests, SameDigest, Balanced, Exchanged, Chained;
    var after := Exchanged(tokens, i, now) + [t];
    forall k | 0 <= k < |after|
      ensures Chained(after, k)
    {
      ChainedAfterRotation(tokens, i, t, now, k);
    }
  }

  lemma ChainedAfterRotation(tokens: seq<Token>, i: TokenId, t: Token, now: int, k: TokenId)
    requires AllChained(tokens) && i < |tokens| && IsLive(tokens[i]) && k <= |tokens|
    requires t.origin == Rotation(i) && t.next.None? && t.user == tokens[i].user
    ensures k < |Exchanged(tokens, i, now) + [t]| && Chained(Exchanged(tokens, i, now) + [t], k)
  {
    assert Chained(tokens, i);
    if k < |tokens| { assert Chained(tokens, k); }
  }

  lemma RotateKeepsDigests(tokens: seq<Token>, i: TokenId, t: Token, now: int)
    requires UniqueDigests(tokens) && i < |tokens| && FindToken(tokens, t.digest).None?
    ensures UniqueDigests(Exchanged(tokens, i, now) + [t])
  {
    hide FindToken;
    var after := Exchanged(tokens, i, now) + [t];
    forall k: TokenId, j: TokenId | SameDigest(after, k, j)
      ensures k == j
    {
      if k < |tokens| && j < |tokens| { assert SameDigest(tokens, k, j); }
    }
  }

  lemma RotateKeepsBalance(tokens: seq<Token>, i: TokenId, t: Token, now: int)
    requires AllChained(tokens) && Balanced(tokens) && i < |tokens| && IsLive(tokens[i])
    requires t.origin == Rotation(i) && t.next.None?
    ensures Balanced(Exchanged(tokens, i, now) + [t])
  {
    var revoked := Exchanged(tokens, i, now);
    assert Chained(tokens, i);
    hide Count, AllChained;
    CountSet(tokens, i, revoked[i], IsTail);
    CountAgrees(tokens, revoked, IsRoot);
    CountSnoc(revoked, t, IsTail);
    CountSnoc(revoked, t, IsRoot);
  }

  lemma SlugsDoNotMatter(s: State, slugs: set<string>)
    requires Inv(s)
    ensures Inv(s.(slugs := slugs))
  {
    hide UniqueLinks, UniqueDigests, AllChained, Balanced, Count, UsedMeansVerified;
    var t := s.(slugs := slugs);
    forall u: UserId ensures OneVerification(t, u) { assert OneVerification(s, u); }
  }

  lemma StepKeepsInv(s: State, op: Op)
    requires Inv(s) && Legal(s, op)
    ensures Inv(Apply(s, op).0)
  {
    hide Inv, FindLink, FindToken, FindEmail;
    match op
    case RegisterOp(slug, email, token, now) =>
      SlugsDoNotMatter(s, s.slugs + {slug});
      if Register(s, slug, email, token, now).1 == Done {
        UserKeepsInv(s.(slugs := s.slugs + {slug}), |s.users|,
                     User(email, PendingVerification, None, Some(NewLink(token, now))));
      }
    case AddOrganizationOp(slug) => SlugsDoNotMatter(s, s.slugs + {slug});
    case AddVerifiedOp(email, now) =>
      if FindEmail(s.users, email).None? { UserKeepsInv(s, |s.users|, User(email, Active, Some(now), None)); }
    case ResendOp(email, token, now) =>
      var u := FindEmail(s.users, email);
      if u.Some? && s.users[u.value].verifiedAt.None? {
        UserKeepsInv(s, u.value, s.users[u.value].(link := Some(Upsert(s.users[u.value].link, token, now))));
      }
    case VerifyOp(token, digest, now) => VerifyKeepsInv(s, token, digest, now);
    case LoginOp(email, passwordOk, rememberMe, digest, now) =>
      var (t, r) := LogIn(s, email, passwordOk, rememberMe, digest, now);
      if r.Session? { LoginKeepsInv(s, NewToken(digest, FindEmail(s.users, email).value, rememberMe, Login, now)); }
    case RefreshOp(presented, digest, now) => RefreshKeepsInv(s, presented, digest, now);
    case LogoutOp(presented, now) => RevokeKeepsInv(s, Logout(s, presented, now).tokens);
    case ForceLogoutOp(user, now) => if user < |s.users| { RevokeKeepsInv(s, RevokeAll(s.tokens, user, now)); }
    case SetStatusOp(user, status) => if user < |s.users| { UserKeepsInv(s, user, s.users[user].(status := status)); }
    case ChangeEmailOp(user, email) => if user < |s.users| { UserKeepsInv(s, user, s.users[user].(email := email)); }
    case VerifyUserOp(user, now) => if user < |s.users| {
      UserKeepsInv(s, user, s.users[user].(verifiedAt := Some(now), status := Active));
    }
  }

  lemma {:induction false} RunKeepsInv(states: seq<State>, ops: seq<Op>, n: nat)
    requires IsRun(states, ops) && Inv(states[0]) && n < |states|
    ensures Inv(states[n])
  {
    hide Inv, Apply, Legal;
    if n > 0 {
      RunKeepsInv(states, ops, n - 1);
      assert StepAt(states, ops, n - 1);
      StepKeepsInv(states[n - 1], ops[n - 1]);
    }
  }

  lemma EmptyIsFine()
    ensures Inv(EMPTY)
  {
  }

  // ----- What the invariants mean -----

  /** Over any run, no user ever gets two sessions from verification links. */
  lemma OneSessionPerVerification(states: seq<State>, ops: seq<Op>, n: nat, i: TokenId, j: TokenId)
    requires IsRun(states, ops) && Inv(states[0]) && n < |states| && i < j < |states[n].tokens|
    requires states[n].tokens[i].origin == Verification == states[n].tokens[j].origin
    ensures states[n].tokens[i].user != states[n].tokens[j].user
  {
    RunKeepsInv(states, ops, n);
    var s := states[n];
    assert OneVerification(s, s.tokens[i].user);
    if s.tokens[i].user == s.tokens[j].user {
      CountsAtMostOne(s.tokens, ByVerification(s.tokens[i].user), i, j);
    }
  }

  lemma {:induction false} TailsAreLiveOrEnded(tokens: seq<Token>, all: seq<Token>)
    requires AllChained(all) && tokens <= all
    ensures Count(tokens, IsTail) == Count(tokens, IsLive) + Count(tokens, IsEnd)
  {
    if tokens != [] {
      TailsAreLiveOrEnded(tokens[..|tokens|-1], all);
      assert Chained(all, |tokens| - 1);
    }
  }

  /** Conservation over any run: every session opened is either live, through exactly one token, or has ended. */
  lemma SessionsAreConserved(states: seq<State>, ops: seq<Op>, n: nat)
    requires IsRun(states, ops) && Inv(states[0]) && n < |states|
    ensures Count(states[n].tokens, IsLive) + Count(states[n].tokens, IsEnd) == Count(states[n].tokens, IsRoot)
  {
    RunKeepsInv(states, ops, n);
    TailsAreLiveOrEnded(states[n].tokens, states[n].tokens);
  }

  /** A rotation leaves the number of live tokens as it was, opens no session and ends none; the new token is
      good for seven days, however long the old one was. */
  lemma RefreshConserves(s: State, presented: string, digest: string, now: int)
    requires Inv(s) && FindToken(s.tokens, digest).None?
    ensures var (t, r) := Refresh(s, presented, digest, now);
            && Count(t.tokens, IsLive) == Count(s.tokens, IsLive) && Count(t.tokens, IsRoot) == Count(s.tokens, IsRoot)
            && (r.Session? ==> FindToken(t.tokens, digest) == Some(|s.tokens|) && Honoured(t.tokens[|s.tokens|], now)
                               && forall later :: Honoured(t.tokens[|s.tokens|], later)
                                   <==> later <= now + 604_800_000)
  {
    hide FindToken, UniqueLinks, UsedMeansVerified, Owned, AllOneVerification;
    RefreshKeepsInv(s, presented, digest, now);
    var (t, r) := Refresh(s, presented, digest, now);
    if r.Session? {
      var i := FindToken(s.tokens, presented).value;
      var revoked := Exchanged(s.tokens, i, now);
      CountSet(s.tokens, i, revoked[i], IsLive);
      CountAgrees(s.tokens, revoked, IsRoot);
      CountSnoc(revoked, t.tokens[|s.tokens|], IsLive);
      CountSnoc(revoked, t.tokens[|s.tokens|], IsRoot);
      assert SameDigest(t.tokens, FindToken(t.tokens, digest).value, |s.tokens|);
    }
  }

  /** Exactly when a rotation succeeds: the token is known, not revoked and not past its time. The user's
      status is not asked. */
  lemma RefreshSucceeds(s: State, presented: string, digest: string, now: int)
    requires Inv(s)
    ensures Refresh(s, presented, digest, now).1.Session?
       <==> exists i :: 0 <= i < |s.tokens| && s.tokens[i].digest == presented && Honoured(s.tokens[i], now)
  {
    hide FindToken, UniqueLinks, UsedMeansVerified, AllChained, Balanced, AllOneVerification;
    if i :| 0 <= i < |s.tokens| && s.tokens[i].digest == presented && Honoured(s.tokens[i], now) {
      assert SameDigest(s.tokens, i, FindToken(s.tokens, presented).value);
      assert VerifiedUser(s.users, s.tokens[i].user);
    }
  }

  /** The session a token belongs to, named by its first token. */
  function SessionOf(tokens: seq<Token>, i: TokenId): (r: TokenId)
    requires AllChained(tokens) && i < |tokens|
    ensures r <= i && IsRoot(tokens[r]) && tokens[r].user == tokens[i].user
  {
    assert Chained(tokens, i);
    if tokens[i].origin.Rotation? then SessionOf(tokens, tokens[i].origin.of) else i
  }

  /** Of two tokens of one session the earlier was exchanged, at the latest for the later one. */
  lemma {:induction false} SessionIsAChain(tokens: seq<Token>, i: TokenId, j: TokenId)
    requires AllChained(tokens) && i < j < |tokens| && SessionOf(tokens, i) == SessionOf(tokens, j)
    ensures tokens[i].next.Some? && tokens[i].next.value <= j
    decreases j, i
  {
    assert Chained(tokens, j) && Chained(tokens, i);
    var p := tokens[j].origin.of;
    if i < p {
      SessionIsAChain(tokens, i, p);
    } else if p < i {
      SessionIsAChain(tokens, p, i);
    }
  }

  /** A session never has two live tokens, and its live token is its last one. */
  lemma OneLiveTokenPerSession(s: State, i: TokenId, j: TokenId)
    requires Inv(s) && i < j < |s.tokens| && SessionOf(s.tokens, i) == SessionOf(s.tokens, j)
    ensures !IsLive(s.tokens[i])
  {
    SessionIsAChain(s.tokens, i, j);
    assert Chained(s.tokens, i);
  }

  // ----- What never changes again -----

  ghost predicate UserFollows(a: User, b: User) {
    (a.verifiedAt.Some? ==> b.verifiedAt.Some?) && (LinkUsed(a) ==> b.link == a.link)
  }

  ghost predicate TokenFollows(a: Token, b: Token) {
    && b.digest == a.digest && b.user == a.user && b.expiresAt == a.expiresAt && b.origin == a.origin
    && (a.revokedAt.Some? ==> b == a)
  }

  ghost predicate Follows(s: State, t: State) {
    && |s.users| <= |t.users| && |s.tokens| <= |t.tokens|
    && (forall u :: 0 <= u < |s.users| ==> UserFollows(s.users[u], t.users[u]))
    && forall i :: 0 <= i < |s.tokens| ==> TokenFollows(s.tokens[i], t.tokens[i])
  }

  lemma StepFollows(s: State, op: Op)
    requires Inv(s)
    ensures Follows(s, Apply(s, op).0)
  {
    hide UniqueLinks, UniqueDigests, AllOneVerification, Owned, Balanced, FindEmail, FindLink, FindToken;
    forall i | 0 <= i < |s.tokens| ensures Chained(s.tokens, i) {}
  }

  lemma FollowsTransitive(s: State, t: State, u: State)
    requires Follows(s, t) && Follows(t, u)
    ensures Follows(s, u)
  {
    forall k | 0 <= k < |s.users| ensures UserFollows(s.users[k], u.users[k]) {
      assert UserFollows(s.users[k], t.users[k]) && UserFollows(t.users[k], u.users[k]);
    }
    forall k | 0 <= k < |s.tokens| ensures TokenFollows(s.tokens[k], u.tokens[k]) {
      assert TokenFollows(s.tokens[k], t.tokens[k]) && TokenFollows(t.tokens[k], u.tokens[k]);
    }
  }

  /** Over any stretch of a run: verified users stay verified, a used link stays exactly as it is, and a revoked
      token stays exactly as it is. */
  lemma {:induction false} RunFollows(states: seq<State>, ops: seq<Op>, m: nat, n: nat)
    requires IsRun(states, ops) && Inv(states[0]) && m <= n < |states|
    ensures Follows(states[m], states[n])
    decreases n
  {
    hide Inv, Apply, Legal;
    if m < n {
      RunFollows(states, ops, m, n - 1);
      hide Follows;
      RunKeepsInv(states, ops, n - 1);
      assert StepAt(states, ops, n - 1);
      StepFollows(states[n - 1], ops[n - 1]);
      FollowsTransitive(states[m], states[n - 1], states[n]);
    }
  }

  lemma {:induction false} SlugsGrow(states: seq<State>, ops: seq<Op>, m: nat, n: nat)
    requires IsRun(states, ops) && m <= n < |states|
    ensures states[m].slugs <= states[n].slugs
    decreases n
  {
    hide FindEmail, FindLink, FindToken;
    if m < n {
      SlugsGrow(states, ops, m, n - 1);
      assert StepAt(states, ops, n - 1);
    }
  }

  /** Two organizations whose names give the same slug never both register, in any run and under any addresses. */
  lemma OneRegistrationPerSlug(states: seq<State>, ops: seq<Op>, m: nat, n: nat)
    requires IsRun(states, ops) && m < n < |ops|
    requires ops[m].RegisterOp? && ops[n].RegisterOp? && ops[m].slug == ops[n].slug
    requires Apply(states[m], ops[m]).1 == Done
    ensures Apply(states[n], ops[n]).1 == Conflict
  {
    assert StepAt(states, ops, m);
    SlugsGrow(states, ops, m + 1, n);
  }

  /** A link that opened a session never opens another, at any later point of the run. */
  lemma NoReplayOfLinks(states: seq<State>, ops: seq<Op>, m: nat, n: nat)
    requires IsRun(states, ops) && Inv(states[0]) && m < n < |ops|
    requires ops[m].VerifyOp? && ops[n].VerifyOp? && ops[n].token == ops[m].token
    requires Apply(states[m], ops[m]).1.Session?
    ensures Apply(states[n], ops[n]).1 == AlreadyVerified
  {
    RunKeepsInv(states, ops, n);
    RunFollows(states, ops, m + 1, n);
    assert StepAt(states, ops, m);
    hide Inv, FindLink;
    UsedLinkIsDead(states[m], states[m + 1], states[n], ops[m].token, ops[m].digest, ops[m].now,
                  ops[n].digest, ops[n].now);
  }

  lemma UsedLinkIsDead(s: State, t: State, later: State, token: string, digest: string, now: int, digest': string,
                       now': int)
    requires VerifyEmail(s, token, digest, now) == (t, Session(digest)) && Follows(t, later) && Inv(later)
    ensures VerifyEmail(later, token, digest', now').1 == AlreadyVerified
  {
    hide FindLink, FindToken, UniqueDigests, AllChained, Balanced, Owned, AllOneVerification;
    var u := FindLink(s.users, token).value;
    assert UserFollows(t.users[u], later.users[u]);
    assert SameLink(later.users, token, u, FindLink(later.users, token).value);
  }

  /** A refresh token that was exchanged is refused for the rest of the run, so it has one successor at most. */
  lemma NoReplayOfTokens(states: seq<State>, ops: seq<Op>, m: nat, n: nat)
    requires IsRun(states, ops) && Inv(states[0]) && m < n < |ops|
    requires ops[m].RefreshOp? && ops[n].RefreshOp? && ops[n].presented == ops[m].presented
    requires Apply(states[m], ops[m]).1.Session?
    ensures Apply(states[n], ops[n]).1 == Denied
  {
    RunKeepsInv(states, ops, n);
    RunFollows(states, ops, m + 1, n);
    assert StepAt(states, ops, m);
    hide Inv, FindToken;
    UsedTokenIsDead(states[m], states[m + 1], states[n], ops[m].presented, ops[m].digest, ops[m].now,
                  ops[n].digest, ops[n].now);
  }

  lemma UsedTokenIsDead(s: State, t: State, later: State, presented: string, digest: string, now: int, digest': string,
                        now': int)
    requires Refresh(s, presented, digest, now) == (t, Session(digest)) && Follows(t, later) && Inv(later)
    ensures Refresh(later, presented, digest', now').1 == Denied
  {
    hide FindLink, FindToken, UniqueLinks, AllChained, Balanced, Owned, AllOneVerification, UsedMeansVerified;
    var i := FindToken(s.tokens, presented).value;
    assert TokenFollows(t.tokens[i], later.tokens[i]);
    assert SameDigest(later.tokens, i, FindToken(later.tokens, presented).value);
  }

  // ----- A resent link works -----

  /** The step neither sends the user another link nor presents the one the user has. */
  predicate Spares(s: State, op: Op, u: UserId) {
    && (op.ResendOp? ==> FindEmail(s.users, op.email) != Some(u))
    && (op.VerifyOp? ==> u < |s.users| ==> !HasLink(s.users[u], op.token))
  }

  lemma StepKeepsLink(s: State, op: Op, u: UserId)
    requires u < |s.users| && Spares(s, op, u)
    ensures u < |Apply(s, op).0.users| && Apply(s, op).0.users[u].link == s.users[u].link
  {
    hide FindLink, FindToken, FindEmail;
  }

  lemma {:induction false} LinkWaits(states: seq<State>, ops: seq<Op>, n: nat, u: UserId)
    requires IsRun(states, ops) && n < |states| && u < |states[0].users|
    requires forall i :: 0 <= i < n ==> Spares(states[i], ops[i], u)
    ensures u < |states[n].users| && states[n].users[u].link == states[0].users[u].link
  {
    hide Apply, Spares;
    if n > 0 {
      LinkWaits(states, ops, n - 1, u);
      assert StepAt(states, ops, n - 1);
      StepKeepsLink(states[n - 1], ops[n - 1], u);
    }
  }

  /** Although the upsert keeps `usedAt`, the link sent to an unverified user is always usable: within the hour,
      whatever else happens meanwhile, it verifies that user and opens a session. Only another link, which replaces
      it, or its own use ends that. */
  lemma ResentLinkWorks(s: State, email: string, token: string, sent: int, states: seq<State>, ops: seq<Op>,
                        digest: string, now: int)
    requires Inv(s) && FindLink(s.users, token).None?
    requires var u := FindEmail(s.users, email); u.Some? && s.users[u.value].verifiedAt.None?
    requires IsRun(states, ops) && states[0] == Resend(s, email, token, sent)
    requires forall i :: 0 <= i < |ops| ==> Spares(states[i], ops[i], FindEmail(s.users, email).value)
    requires now < sent + 3_600_000
    ensures var (t, r) := VerifyEmail(states[|ops|], token, digest, now);
            var u := FindEmail(s.users, email).value;
            r == Session(digest) && u < |t.users| && t.users[u].verifiedAt == Some(now) && t.users[u].status == Active
  {
    var u := FindEmail(s.users, email).value;
    StepKeepsInv(s, ResendOp(email, token, sent));
    LinkWaits(states, ops, |ops|, u);
    RunKeepsInv(states, ops, |ops|);
    hide FindEmail, FindLink, FindToken, IsRun, AllChained, Balanced, Owned, AllOneVerification, UniqueDigests;
    assert !LinkUsed(s.users[u]);
    assert states[0].users[u].link == Some(Upsert(s.users[u].link, token, sent));
    var last := states[|ops|];
    assert SameLink(last.users, token, u, FindLink(last.users, token).value);
  }

  /** Exactly when a link opens a session; the final status check never stops one. */
  lemma VerifyOpensSession(s: State, token: string, digest: string, now: int)
    requires Inv(s)
    ensures VerifyEmail(s, token, digest, now).1.Session?
       <==> exists u :: 0 <= u < |s.users| && HasLink(s.users[u], token) && Usable(s.users[u].link.value, now)
    ensures VerifyEmail(s, token, digest, now).1.Session? <==> VerifyEmail(s, token, digest, now).0 != s
  {
    hide FindLink, AllChained, Balanced, Owned, AllOneVerification, UniqueDigests;
    if u :| 0 <= u < |s.users| && HasLink(s.users[u], token) && Usable(s.users[u].link.value, now) {
      assert SameLink(s.users, token, u, FindLink(s.users, token).value);
    }
  }
}
