/**
 * Token issue, validation and revocation (cli/api/auth.py, cli/api/server.py:100-255,
 * cli/api/admin_routes.py:35-120, cli/api/dependencies.py). A token is its payload;
 * decoding succeeds only for payloads that were issued.
 */
module Tokens {
  import opened Basics

  const ACCESS_TOKEN_EXPIRE_SECONDS: int := 3600
  const REFRESH_TOKEN_EXPIRE_SECONDS: int := 604800

  datatype Kind = Access | Refresh

  datatype Token = Token(jti: string, sub: string, role: string, scopes: seq<string>, tt: Kind, iat: int, exp: int)

  datatype Store = Store(issued: seq<Token>, revoked: set<string>, consumed: set<string>)

  datatype Verdict = Unknown | Expired | Revoked | Used | Good

  /** decode_token: signature, then expiry (on or after `exp`), then revocation, then single use. */
  function Decode(s: Store, t: Token, now: int): Verdict {
    if t !in s.issued then Unknown
    else if t.exp <= now then Expired
    else if t.jti in s.revoked then Revoked
    else if t.tt == Refresh && t.jti in s.consumed then Used
    else Good
  }

  function Lifetime(k: Kind): int {
    if k == Access then ACCESS_TOKEN_EXPIRE_SECONDS else REFRESH_TOKEN_EXPIRE_SECONDS
  }

  function NewToken(k: Kind, jti: string, sub: string, role: string, scopes: seq<string>, now: int): Token {
    Token(jti, sub, role, scopes, k, now, now + Lifetime(k))
  }

  function IssuePair(s: Store, sub: string, role: string, scopes: seq<string>, now: int, a: string, r: string): Store {
    s.(issued := s.issued + [NewToken(Access, a, sub, role, scopes, now)]
        + [NewToken(Refresh, r, sub, role, scopes, now)])
  }

  function RevokeId(s: Store, jti: string): Store {
    s.(revoked := s.revoked + {jti},
       consumed := s.consumed + if exists t :: t in s.issued && t.jti == jti && t.tt == Refresh then {jti} else {})
  }

  function IdsOf(ts: seq<Token>, sub: string): set<string> {
    set t | t in ts && t.sub == sub :: t.jti
  }

  function RefreshIdsOf(ts: seq<Token>, sub: string): set<string> {
    set t | t in ts && t.sub == sub && t.tt == Refresh :: t.jti
  }

  function RevokeSub(s: Store, sub: string): Store {
    s.(revoked := s.revoked + IdsOf(s.issued, sub), consumed := s.consumed + RefreshIdsOf(s.issued, sub))
  }

  // --- Roles and scopes -----------------------------------------------------

  const USER_SCOPES := ["platform:read", "workspace:read", "workspace:write", "runtime:read", "runtime:write"]

  function DefaultScopes(role: string): seq<string> {
    if role == "admin" then ["admin:*"] else USER_SCOPES
  }

  /** The scopes a login or admin issue grants; None when a requested one is outside the role. */
  function Grant(role: string, requested: Option<seq<string>>): Option<seq<string>> {
    if requested.Some? && requested.value != [] then
      if forall x | x in requested.value :: x in DefaultScopes(role) then Some(requested.value) else None
    else Some(DefaultScopes(role))
  }

  predicate RequireAdmin(t: Token) {
    t.role == "admin" || "admin:*" in t.scopes
  }

  function LastColon(s: string): Option<nat> {
    if s == [] then None
    else if s[|s| - 1] == ':' then Some(|s| - 1)
    else LastColon(s[..|s| - 1])
  }

  /** "workspace:read" is also covered by "workspace:*". */
  predicate Covers(scopes: seq<string>, required: string) {
    || required in scopes
    || (match LastColon(required)
        case None => false
        case Some(i) => i <= |required| && required[..i] + ":*" in scopes)
  }

  predicate RequireScope(t: Token, required: seq<string>) {
    "admin:*" in t.scopes || forall r | r in required :: Covers(t.scopes, r)
  }

  // --- Handlers -------------------------------------------------------------

  datatype Response =
    | Unauthorized
    | BadRequest
    | Forbidden
    | Issued(access: Token, refresh: Token)
    | Done(jti: string)
    | Count(n: nat)

  predicate CurrentUser(s: Store, now: int, t: Token) {
    Decode(s, t, now) == Good && t.tt == Access
  }

  function Issue(s: Store, now: int, sub: string, requested: Option<seq<string>>,
                 role: string, a: string, r: string): (Store, Response) {
    if role != "admin" && role != "user" then (s, BadRequest)
    else
      match Grant(role, requested)
      case None => (s, BadRequest)
      case Some(scopes) =>
        (IssuePair(s, sub, role, scopes, now, a, r),
         Issued(NewToken(Access, a, sub, role, scopes, now), NewToken(Refresh, r, sub, role, scopes, now)))
  }

  function Login(s: Store, now: int, keys: set<string>, key: string, sub: string,
                 requested: Option<seq<string>>, role: string, a: string, r: string): (Store, Response) {
    if key !in keys then (s, Unauthorized) else Issue(s, now, sub, requested, role, a, r)
  }

  /** Rotation: consume the old refresh token, issue a new pair with the same payload. */
  function Rotate(s: Store, now: int, t: Token, a: string, r: string): (Store, Response) {
    if Decode(s, t, now) != Good || t.tt != Refresh then (s, Unauthorized)
    else
      (IssuePair(s.(consumed := s.consumed + {t.jti}), t.sub, t.role, t.scopes, now, a, r),
       Issued(NewToken(Access, a, t.sub, t.role, t.scopes, now), NewToken(Refresh, r, t.sub, t.role, t.scopes, now)))
  }

  // The handlers below run after get_current_user admitted `t` in a step of its own.

  function RevokeOwn(s: Store, t: Token): (Store, Response) {
    (RevokeId(s, t.jti), Done(t.jti))
  }

  function AdminIssue(s: Store, now: int, t: Token, sub: string, requested: Option<seq<string>>,
                      role: string, a: string, r: string): (Store, Response) {
    if !RequireAdmin(t) then (s, Forbidden) else Issue(s, now, sub, requested, role, a, r)
  }

  function AdminRevoke(s: Store, t: Token, jti: string): (Store, Response) {
    if !RequireAdmin(t) then (s, Forbidden) else (RevokeId(s, jti), Done(jti))
  }

  function AdminRevokeSub(s: Store, t: Token, sub: string): (Store, Response) {
    if !RequireAdmin(t) then (s, Forbidden)
    else (RevokeSub(s, sub), Count(|RevokeSub(s, sub).revoked - s.revoked|))
  }

  // --- Runs -----------------------------------------------------------------

  datatype Op =
    | Tick(seconds: nat)
    | LoginOp(key: string, sub: string, requested: Option<seq<string>>, role: string, a: string, r: string)
    | RefreshOp(token: Token, a: string, r: string)
    | AdmitOp(token: Token)
    | RevokeOp(token: Token)
    | AdminIssueOp(token: Token, sub: string, requested: Option<seq<string>>, role: string, a: string, r: string)
    | AdminRevokeOp(token: Token, jti: string)
    | AdminRevokeSubOp(token: Token, sub: string)

  /**
   * The server and its history. `admitted` holds the token of each request that
   * get_current_user let through and whose handler has not run yet. `chain` maps each
   * token id to the login or admin issue it descends from, `roots` counts those.
   */
  datatype System = System(
    store: Store, now: int, keys: set<string>, admitted: multiset<Token>, chain: map<string, nat>, roots: nat)

  /** The token of a request whose handler waits for get_current_user. */
  function ActsFor(op: Op): Option<Token> {
    match op
    case RevokeOp(t) => Some(t)
    case AdminIssueOp(t, _, _, _, _, _) => Some(t)
    case AdminRevokeOp(t, _) => Some(t)
    case AdminRevokeSubOp(t, _) => Some(t)
    case _ => None
  }

  /** New ids are random: never seen before in any list. */
  predicate Fresh(s: Store, a: string, r: string) {
    && a != r
    && (forall t | t in s.issued :: t.jti != a && t.jti != r)
    && a !in s.revoked + s.consumed && r !in s.revoked + s.consumed
  }

  predicate FreshIds(y: System, op: Op) {
    match op
    case LoginOp(_, _, _, _, a, r) => Fresh(y.store, a, r)
    case RefreshOp(_, a, r) => Fresh(y.store, a, r)
    case AdminIssueOp(_, _, _, _, a, r) => Fresh(y.store, a, r)
    case _ => true
  }

  predicate Possible(y: System, op: Op) {
    FreshIds(y, op) && (ActsFor(op).Some? ==> ActsFor(op).value in y.admitted)
  }

  function Respond(y: System, op: Op): (Store, Response) {
    match op
    case Tick(_) => (y.store, Done(""))
    case LoginOp(key, sub, requested, role, a, r) => Login(y.store, y.now, y.keys, key, sub, requested, role, a, r)
    case RefreshOp(t, a, r) => Rotate(y.store, y.now, t, a, r)
    case AdmitOp(t) => (y.store, if CurrentUser(y.store, y.now, t) then Done(t.jti) else Unauthorized)
    case RevokeOp(t) => RevokeOwn(y.store, t)
    case AdminIssueOp(t, sub, requested, role, a, r) => AdminIssue(y.store, y.now, t, sub, requested, role, a, r)
    case AdminRevokeOp(t, jti) => AdminRevoke(y.store, t, jti)
    case AdminRevokeSubOp(t, sub) => AdminRevokeSub(y.store, t, sub)
  }

  /** Requests admitted and not yet handled, after the step. */
  function AdmittedAfter(y: System, op: Op): multiset<Token> {
    if op.AdmitOp? && CurrentUser(y.store, y.now, op.token) then y.admitted + multiset{op.token}
    else if ActsFor(op).Some? then y.admitted - multiset{ActsFor(op).value}
    else y.admitted
  }

  function Happen(y: System, op: Op): System {
    var (store, response) := Respond(y, op);
    var z := y.(store := store, admitted := AdmittedAfter(y, op));
    if op.Tick? then z.(now := y.now + op.seconds)
    else if !response.Issued? then z
    else if op.RefreshOp? then
      var c := if op.token.jti in y.chain then y.chain[op.token.jti] else 0;
      z.(chain := y.chain[op.a := c][op.r := c])
    else
      z.(chain := y.chain[response.access.jti := y.roots][response.refresh.jti := y.roots], roots := y.roots + 1)
  }

  predicate IsRun(y: System, ops: seq<Op>)
    decreases |ops|
  {
    ops == [] || (Possible(y, ops[0]) && IsRun(Happen(y, ops[0]), ops[1..]))
  }

  function Final(y: System, ops: seq<Op>): System
    decreases |ops|
  {
    if ops == [] then y else Final(Happen(y, ops[0]), ops[1..])
  }

  function Boot(keys: set<string>, now: int): System {
    System(Store([], {}, {}), now, keys, multiset{}, map[], 0)
  }

  // --- What every run keeps -------------------------------------------------

  predicate WellScoped(t: Token) {
    && (t.role == "admin" || t.role == "user")
    && t.scopes != []
    && forall x | x in t.scopes :: x in DefaultScopes(t.role)
  }

  predicate DistinctIds(s: Store) {
    forall i, j | 0 <= i < j < |s.issued| :: s.issued[i].jti != s.issued[j].jti
  }

  predicate SameChain(y: System, t: Token, u: Token) {
    t.jti in y.chain && u.jti in y.chain && y.chain[t.jti] == y.chain[u.jti]
  }

  /** Every refresh token of a chain but its newest has been consumed. */
  predicate OldOnesConsumed(y: System) {
    forall i, j | 0 <= i < j < |y.store.issued| ::
      && y.store.issued[i].tt == Refresh && y.store.issued[j].tt == Refresh
      && SameChain(y, y.store.issued[i], y.store.issued[j])
      ==> y.store.issued[i].jti in y.store.consumed
  }

  predicate Chained(y: System) {
    forall t | t in y.store.issued :: t.jti in y.chain && y.chain[t.jti] < y.roots
  }

  predicate Timed(y: System) {
    forall t | t in y.store.issued :: t.iat <= y.now && t.exp == t.iat + Lifetime(t.tt)
  }

  ghost predicate Inv(y: System) {
    && DistinctIds(y.store)
    && Chained(y)
    && OldOnesConsumed(y)
    && Timed(y)
    && (forall t | t in y.store.issued :: WellScoped(t))
  }

  /** `z` is `y` with an access and a refresh token appended to chain `c`, whose older refresh tokens are consumed. */
  predicate Extends(y: System, z: System, c: nat, a: string, r: string) {
    && |z.store.issued| == |y.store.issued| + 2
    && (forall i | 0 <= i < |y.store.issued| :: z.store.issued[i] == y.store.issued[i])
    && z.store.issued[|y.store.issued|].jti == a && z.store.issued[|y.store.issued|].tt == Access
    && z.store.issued[|y.store.issued| + 1].jti == r
    && z.chain == y.chain[a := c][r := c] && c < z.roots && y.roots <= z.roots
    && y.store.consumed <= z.store.consumed
    && (forall t | t in y.store.issued ::
          t.tt == Refresh && t.jti in y.chain && y.chain[t.jti] == c ==> t.jti in z.store.consumed)
  }

  lemma OldIds(y: System, z: System, c: nat, a: string, r: string, i: nat)
    requires Inv(y) && Fresh(y.store, a, r) && Extends(y, z, c, a, r) && i < |y.store.issued|
    ensures var id := z.store.issued[i].jti;
            id != a && id != r && id in y.chain && id in z.chain && z.chain[id] == y.chain[id] < y.roots
  {
    assert y.store.issued[i] in y.store.issued;
  }

  lemma ExtendedIds(y: System, z: System, c: nat, a: string, r: string)
    requires Inv(y) && Fresh(y.store, a, r) && Extends(y, z, c, a, r)
    ensures DistinctIds(z.store) && Chained(z)
  {
    forall i | 0 <= i < |z.store.issued|
      ensures z.store.issued[i].jti in z.chain && z.chain[z.store.issued[i].jti] < z.roots
      ensures forall j | 0 <= j < i :: z.store.issued[j].jti != z.store.issued[i].jti
    {
      forall j | 0 <= j < i && j < |y.store.issued|
        ensures z.store.issued[j].jti != z.store.issued[i].jti
      {
        OldIds(y, z, c, a, r, j);
      }
      if i < |y.store.issued| {
        OldIds(y, z, c, a, r, i);
      }
    }
  }

  lemma ExtendedOrder(y: System, z: System, c: nat, a: string, r: string)
    requires Inv(y) && Fresh(y.store, a, r) && Extends(y, z, c, a, r)
    ensures OldOnesConsumed(z)
  {
    forall i, j | 0 <= i < j < |z.store.issued| && z.store.issued[i].tt == Refresh && z.store.issued[j].tt == Refresh
                  && SameChain(z, z.store.issued[i], z.store.issued[j])
      ensures z.store.issued[i].jti in z.store.consumed
    {
      OldIds(y, z, c, a, r, i);
      if j < |y.store.issued| {
        OldIds(y, z, c, a, r, j);
        assert SameChain(y, y.store.issued[i], y.store.issued[j]);
      } else {
        assert y.store.issued[i] in y.store.issued;
      }
    }
  }

  predicate Grows(s: Store, z: Store) {
    (forall t | t in s.issued :: t in z.issued) && s.revoked <= z.revoked && s.consumed <= z.consumed
  }

  lemma IssueGrows(s: Store, now: int, sub: string, requested: Option<seq<string>>, role: string, a: string, r: string)
    ensures Grows(s, Issue(s, now, sub, requested, role, a, r).0)
  {
  }

  lemma RotateGrows(s: Store, now: int, t: Token, a: string, r: string)
    ensures Grows(s, Rotate(s, now, t, a, r).0)
  {
  }

  lemma RevokeGrows(s: Store, jti: string, sub: string)
    ensures Grows(s, RevokeId(s, jti)) && Grows(s, RevokeSub(s, sub))
  {
  }

  lemma AnswerGrows(y: System, op: Op)
    ensures Grows(y.store, Respond(y, op).0)
  {
    match op
    case LoginOp(_, sub, requested, role, a, r) => IssueGrows(y.store, y.now, sub, requested, role, a, r);
    case AdminIssueOp(_, sub, requested, role, a, r) => IssueGrows(y.store, y.now, sub, requested, role, a, r);
    case RefreshOp(t, a, r) => RotateGrows(y.store, y.now, t, a, r);
    case RevokeOp(t) => RevokeGrows(y.store, t.jti, "");
    case AdminRevokeOp(_, jti) => RevokeGrows(y.store, jti, "");
    case AdminRevokeSubOp(_, sub) => RevokeGrows(y.store, "", sub);
    case _ =>
  }

  /** Nothing issued, revoked or consumed is ever undone, and time goes on. */
  lemma StepGrows(y: System, op: Op)
    ensures Grows(y.store, Happen(y, op).store) && y.now <= Happen(y, op).now
  {
    AnswerGrows(y, op);
  }

  lemma RootIssueExtends(y: System, op: Op)
    requires Inv(y) && Possible(y, op) && (op.LoginOp? || op.AdminIssueOp?) && Respond(y, op).1.Issued?
    ensures Extends(y, Happen(y, op), y.roots, op.a, op.r)
  {
  }

  predicate Fits(t: Token, now: int) {
    t.iat <= now && t.exp == t.iat + Lifetime(t.tt) && WellScoped(t)
  }

  /** What an issue adds: tokens of the subject asked for, with the two ids. */
  lemma IssueAdds(s: Store, now: int, sub: string, requested: Option<seq<string>>, role: string, a: string, r: string)
    ensures var (z, response) := Issue(s, now, sub, requested, role, a, r);
            && (forall t | t in z.issued && t !in s.issued :: t.sub == sub && response.Issued?)
            && (forall t, u | t in z.issued && u in z.issued && t !in s.issued && u !in s.issued ::
                  t.role == u.role && t.scopes == u.scopes)
            && (response.Issued? ==> response.access.jti == a && response.refresh.jti == r)
  {
  }

  lemma IssuedFit(s: Store, now: int, sub: string, requested: Option<seq<string>>,
                  role: string, a: string, r: string, t: Token)
    requires t in Issue(s, now, sub, requested, role, a, r).0.issued
    ensures t in s.issued || Fits(t, now)
  {
  }

  lemma RootIssueFits(y: System, op: Op, t: Token)
    requires Inv(y) && (op.LoginOp? || op.AdminIssueOp?) && t in Happen(y, op).store.issued
    ensures Fits(t, y.now)
  {
    if t !in y.store.issued {
      IssuedFit(y.store, y.now, op.sub, op.requested, op.role, op.a, op.r, t);
    }
  }

  lemma RootIssueKeepsInv(y: System, op: Op)
    requires Inv(y) && Possible(y, op) && (op.LoginOp? || op.AdminIssueOp?)
    ensures Inv(Happen(y, op))
  {
    if Respond(y, op).1.Issued? {
      var z := Happen(y, op);
      RootIssueExtends(y, op);
      ExtendedIds(y, z, y.roots, op.a, op.r);
      ExtendedOrder(y, z, y.roots, op.a, op.r);
      forall t | t in z.store.issued
        ensures Fits(t, z.now)
      {
        RootIssueFits(y, op, t);
      }
    } else {
      assert Happen(y, op).store == y.store;
    }
  }

  /** A refresh token that still decodes is the newest of its chain. */
  lemma GoodIsNewest(y: System, t: Token, u: Token)
    requires Inv(y) && t in y.store.issued && u in y.store.issued && t.tt == Refresh && u.tt == Refresh
             && SameChain(y, t, u)
    requires t.jti !in y.store.consumed && t != u
    ensures u.jti in y.store.consumed
  {
    var i :| 0 <= i < |y.store.issued| && y.store.issued[i] == t;
    var j :| 0 <= j < |y.store.issued| && y.store.issued[j] == u;
    assert i < j ==> false;
  }

  lemma RefreshKeepsInv(y: System, op: Op)
    requires Inv(y) && Possible(y, op) && op.RefreshOp?
    ensures Inv(Happen(y, op))
  {
    var z := Happen(y, op);
    var t := op.token;
    if Respond(y, op).1.Issued? {
      assert t in y.store.issued && t.jti !in y.store.consumed;
      forall u | u in y.store.issued && u.tt == Refresh && y.chain[u.jti] == y.chain[t.jti]
        ensures u.jti in z.store.consumed
      {
        if u != t {
          GoodIsNewest(y, t, u);
        }
      }
      ExtendedIds(y, z, y.chain[t.jti], op.a, op.r);
      ExtendedOrder(y, z, y.chain[t.jti], op.a, op.r);
    }
  }

  lemma StepKeepsInv(y: System, op: Op)
    requires Inv(y) && Possible(y, op)
    ensures Inv(Happen(y, op))
  {
    if op.RefreshOp? {
      RefreshKeepsInv(y, op);
    } else if op.LoginOp? || op.AdminIssueOp? {
      RootIssueKeepsInv(y, op);
    }
  }

  lemma {:induction false} RunKeepsInv(y: System, ops: seq<Op>)
    requires Inv(y) && IsRun(y, ops)
    ensures Inv(Final(y, ops))
    decreases |ops|
  {
    if ops != [] {
      StepKeepsInv(y, ops[0]);
      RunKeepsInv(Happen(y, ops[0]), ops[1..]);
    }
  }
}
