/** What the token handlers answer: what a client may rely on, and what it may not get. */
module TokenAnswers {
  import opened Basics
  import opened Tokens
  import opened TokenTheorems

  // --- What was asked for ---------------------------------------------------

  predicate IsIssue(op: Op) {
    op.LoginOp? || op.AdminIssueOp?
  }

  /** The scopes an issue asks for: those requested, or all of the role's when none are. */
  function ScopesAsked(op: Op): seq<string>
    requires IsIssue(op)
  {
    if op.requested.Some? && op.requested.value != [] then op.requested.value else DefaultScopes(op.role)
  }

  predicate AskedBy(op: Op, t: Token) {
    IsIssue(op) && t.sub == op.sub && t.role == op.role && t.scopes == ScopesAsked(op)
  }

  /** The step itself, when it is an issue that was granted. */
  function GrantedIssue(y: System, op: Op): seq<Op> {
    if IsIssue(op) && Respond(y, op).1.Issued? then [op] else []
  }

  /** The issues of a run that were granted, in order: issue number n begins chain n. */
  function Issues(y: System, ops: seq<Op>): seq<Op>
    decreases |ops|
  {
    if ops == [] then [] else GrantedIssue(y, ops[0]) + Issues(Happen(y, ops[0]), ops[1..])
  }

  /** Every token descends from the issue its chain began with. */
  predicate Descends(y: System, issues: seq<Op>) {
    && |issues| == y.roots
    && forall t | t in y.store.issued ::
         t.jti in y.chain && y.chain[t.jti] < |issues| && AskedBy(issues[y.chain[t.jti]], t)
  }

  lemma IssueAsked(s: Store, now: int, op: Op, t: Token)
    requires IsIssue(op)
    requires t in Issue(s, now, op.sub, op.requested, op.role, op.a, op.r).0.issued && t !in s.issued
    ensures AskedBy(op, t) && (t.jti == op.a || t.jti == op.r)
  {
  }

  lemma DescendsStep(y: System, op: Op, issues: seq<Op>)
    requires Inv(y) && Possible(y, op) && Descends(y, issues)
    ensures Descends(Happen(y, op), issues + GrantedIssue(y, op))
  {
    var z := Happen(y, op);
    var more := issues + GrantedIssue(y, op);
    assert issues + [] == issues;
    forall t | t in z.store.issued
      ensures t.jti in z.chain && z.chain[t.jti] < |more| && AskedBy(more[z.chain[t.jti]], t)
    {
      if t in y.store.issued {
        ChainStep(y, op, t);
      } else if IsIssue(op) {
        NewRootToken(y, op, t);
      } else {
        SourceShares(y, op, t);
      }
    }
    RootsGrow(y, op);
  }

  lemma RootsGrow(y: System, op: Op)
    ensures Happen(y, op).roots == y.roots + |GrantedIssue(y, op)|
  {
  }

  lemma IssueResponds(y: System, op: Op)
    requires IsIssue(op) && Respond(y, op).0 != y.store
    ensures Respond(y, op) == Issue(y.store, y.now, op.sub, op.requested, op.role, op.a, op.r)
  {
  }

  lemma NewRootToken(y: System, op: Op, t: Token)
    requires IsIssue(op) && t in Happen(y, op).store.issued && t !in y.store.issued
    ensures Respond(y, op).1.Issued? && AskedBy(op, t)
    ensures t.jti in Happen(y, op).chain && Happen(y, op).chain[t.jti] == y.roots
  {
    assert Happen(y, op).store == Respond(y, op).0;
    IssueResponds(y, op);
    IssueAsked(y.store, y.now, op, t);
    IssueAdds(y.store, y.now, op.sub, op.requested, op.role, op.a, op.r);
  }

  lemma {:induction false} DescendsStays(y: System, ops: seq<Op>, issues: seq<Op>)
    requires Inv(y) && IsRun(y, ops) && Descends(y, issues)
    ensures Descends(Final(y, ops), issues + Issues(y, ops))
    decreases |ops|
  {
    if ops == [] {
      assert issues + [] == issues;
    } else {
      var first, z := GrantedIssue(y, ops[0]), Happen(y, ops[0]);
      DescendsStep(y, ops[0], issues);
      StepKeepsInv(y, ops[0]);
      DescendsStays(z, ops[1..], issues + first);
      IssuesRegroup(issues, first, Issues(z, ops[1..]));
    }
  }

  lemma IssuesRegroup(a: seq<Op>, b: seq<Op>, c: seq<Op>)
    ensures a + b + c == a + (b + c)
  {
  }

  /**
   * In every reachable state each token descends from the login or admin issue of the
   * run that its chain began with: that issue asked for its subject and its role, and
   * for its scopes, or for none in particular and then it has all of the role's.
   */
  lemma TokensAreAsAsked(keys: set<string>, now: int, ops: seq<Op>, y: System, t: Token)
    requires Reaches(keys, now, ops, y) && t in y.store.issued
    ensures var issues := Issues(Boot(keys, now), ops);
            && |issues| == y.roots && t.jti in y.chain && y.chain[t.jti] < |issues|
            && AskedBy(issues[y.chain[t.jti]], t)
  {
    DescendsStays(Boot(keys, now), ops, []);
    assert [] + Issues(Boot(keys, now), ops) == Issues(Boot(keys, now), ops);
  }

  /** A user token passes for a set of scopes exactly when its issue asked for all of them. */
  lemma NarrowTokensStayNarrow(keys: set<string>, now: int, ops: seq<Op>, y: System, t: Token, required: seq<string>)
    requires Reaches(keys, now, ops, y) && t in y.store.issued && t.role == "user"
    ensures t.jti in y.chain && y.chain[t.jti] < |Issues(Boot(keys, now), ops)|
    ensures var op := Issues(Boot(keys, now), ops)[y.chain[t.jti]];
            IsIssue(op) && (RequireScope(t, required) <==> forall r | r in required :: r in ScopesAsked(op))
  {
    TokensAreAsAsked(keys, now, ops, y, t);
    RoleMatchesScopes(keys, now, ops, y, t, required);
  }

  /** What a role may do when no scopes are asked for. */
  lemma DefaultsOfRoles(x: string)
    ensures x in DefaultScopes("admin") <==> x == "admin:*"
    ensures x in DefaultScopes("user") <==>
              || x == "platform:read" || x == "workspace:read" || x == "workspace:write"
              || x == "runtime:read" || x == "runtime:write"
  {
  }

  // --- Refusals -------------------------------------------------------------

  /** Role and scopes that can be granted. */
  predicate Grantable(op: Op)
    requires IsIssue(op)
  {
    && (op.role == "admin" || op.role == "user")
    && forall x | x in ScopesAsked(op) :: x in DefaultScopes(op.role)
  }

  /** A login is answered exactly so: unknown key, bad role or scope, or two tokens. */
  lemma LoginAnswersIff(y: System, op: Op)
    requires op.LoginOp?
    ensures Respond(y, op).1 == Unauthorized <==> op.key !in y.keys
    ensures Respond(y, op).1 == BadRequest <==> op.key in y.keys && !Grantable(op)
    ensures Respond(y, op).1.Issued? <==> op.key in y.keys && Grantable(op)
    ensures !Respond(y, op).1.Issued? ==> Happen(y, op) == y
  {
  }

  /** And an admin issue: not an admin, bad role or scope, or two tokens. */
  lemma AdminIssueAnswersIff(y: System, op: Op)
    requires op.AdminIssueOp?
    ensures Respond(y, op).1 == Forbidden <==> !RequireAdmin(op.token)
    ensures Respond(y, op).1 == BadRequest <==> RequireAdmin(op.token) && !Grantable(op)
    ensures Respond(y, op).1.Issued? <==> RequireAdmin(op.token) && Grantable(op)
    ensures !Respond(y, op).1.Issued? ==> Happen(y, op).store == y.store
  {
  }

  /** Revocations by id and by subject are for admins only, and otherwise change nothing. */
  lemma AdminRevokeAnswersIff(y: System, op: Op)
    requires op.AdminRevokeOp? || op.AdminRevokeSubOp?
    ensures Respond(y, op).1 == Forbidden <==> !RequireAdmin(op.token)
    ensures Respond(y, op).1 == Forbidden ==> Happen(y, op).store == y.store
    ensures op.AdminRevokeOp? && RequireAdmin(op.token) ==> Respond(y, op).1 == Done(op.jti)
    ensures op.AdminRevokeSubOp? && RequireAdmin(op.token) ==> Respond(y, op).1.Count?
  {
    assert Happen(y, op).store == Respond(y, op).0;
    if op.AdminRevokeOp? {
      assert Respond(y, op) == AdminRevoke(y.store, op.token, op.jti);
    } else {
      assert Respond(y, op) == AdminRevokeSub(y.store, op.token, op.sub);
    }
  }

  /** The count of a revocation by subject is the number of its tokens that were not revoked before. */
  lemma CutOffCountIsExact(y: System, admin: Token, sub: string)
    requires Inv(y) && RequireAdmin(admin)
    ensures Respond(y, AdminRevokeSubOp(admin, sub)).1
            == Count(|set t | t in y.store.issued && t.sub == sub && t.jti !in y.store.revoked :: t.jti|)
  {
    assert RevokeSub(y.store, sub).revoked - y.store.revoked
           == set t | t in y.store.issued && t.sub == sub && t.jti !in y.store.revoked :: t.jti;
  }

  /** Exactly the redeemable refresh tokens are redeemed. */
  lemma RefreshAnswersIff(y: System, op: Op)
    requires op.RefreshOp?
    ensures Respond(y, op).1.Issued? <==> Redeemable(y, op.token)
    ensures !Respond(y, op).1.Issued? ==> Respond(y, op).1 == Unauthorized && Happen(y, op) == y
  {
  }

  // --- Answered tokens work -------------------------------------------------

  /** The step revokes the token by its id or by its subject. */
  predicate Revokes(op: Op, t: Token) {
    match op
    case RevokeOp(u) => u.jti == t.jti
    case AdminRevokeOp(_, jti) => jti == t.jti
    case AdminRevokeSubOp(_, sub) => sub == t.sub
    case _ => false
  }

  predicate Redeems(op: Op, t: Token) {
    op.RefreshOp? && op.token.jti == t.jti
  }

  /** Usable but for its expiry. */
  predicate Live(y: System, t: Token) {
    t in y.store.issued && t.jti !in y.store.revoked && (t.tt == Refresh ==> t.jti !in y.store.consumed)
  }

  lemma LiveMeans(y: System, t: Token)
    requires Live(y, t)
    ensures t.tt == Access ==> (CurrentUser(y.store, y.now, t) <==> y.now < t.exp)
    ensures t.tt == Refresh ==> (Redeemable(y, t) <==> y.now < t.exp)
  {
  }

  /** The two tokens answered are the two added, of one access and one refresh kind, and both are live. */
  lemma AnsweredAreAdded(y: System, op: Op)
    requires Inv(y) && Possible(y, op) && Respond(y, op).1.Issued?
    ensures var z, response := Happen(y, op), Respond(y, op).1;
            && z.store.issued == y.store.issued + [response.access] + [response.refresh]
            && response.access.tt == Access && response.refresh.tt == Refresh
            && response.access !in y.store.issued && response.refresh !in y.store.issued
            && Live(z, response.access) && Live(z, response.refresh)
            && response.access.exp == y.now + ACCESS_TOKEN_EXPIRE_SECONDS
            && response.refresh.exp == y.now + REFRESH_TOKEN_EXPIRE_SECONDS
  {
    if op.RefreshOp? {
      RefreshAdds(y, op);
    } else {
      IssueIsLive(y, op);
    }
  }

  lemma IssueIsLive(y: System, op: Op)
    requires Possible(y, op) && IsIssue(op) && Respond(y, op).1.Issued?
    ensures var z, response := Happen(y, op), Respond(y, op).1;
            && z.store.issued == y.store.issued + [response.access] + [response.refresh]
            && z.store.revoked == y.store.revoked && z.store.consumed == y.store.consumed
            && response.access.jti == op.a && response.refresh.jti == op.r
            && response.access.tt == Access && response.refresh.tt == Refresh
            && response.access.exp == y.now + ACCESS_TOKEN_EXPIRE_SECONDS
            && response.refresh.exp == y.now + REFRESH_TOKEN_EXPIRE_SECONDS
  {
  }

  lemma RefreshAdds(y: System, op: Op)
    requires Inv(y) && Possible(y, op) && op.RefreshOp? && Respond(y, op).1.Issued?
    ensures var z, response := Happen(y, op), Respond(y, op).1;
            && z.store.issued == y.store.issued + [response.access] + [response.refresh]
            && z.store.revoked == y.store.revoked && z.store.consumed == y.store.consumed + {op.token.jti}
            && response.access.jti == op.a && response.refresh.jti == op.r && op.token.jti != op.r
            && response.access.tt == Access && response.refresh.tt == Refresh
            && response.access.exp == y.now + ACCESS_TOKEN_EXPIRE_SECONDS
            && response.refresh.exp == y.now + REFRESH_TOKEN_EXPIRE_SECONDS
  {
    assert op.token in y.store.issued;
  }

  lemma LiveStep(y: System, op: Op, t: Token)
    requires Inv(y) && Possible(y, op) && Live(y, t) && !Revokes(op, t) && !Redeems(op, t)
    ensures Live(Happen(y, op), t)
  {
    StepGrows(y, op);
    if op.AdminRevokeSubOp? {
      OtherSubjectStays(y.store, op.sub, t);
    } else if op.RefreshOp? {
      ConsumesOwn(y, op);
    } else if op.LoginOp? || op.AdminIssueOp? {
      IssueLeavesSets(y, op);
    }
  }

  lemma IssueLeavesSets(y: System, op: Op)
    requires IsIssue(op)
    ensures Happen(y, op).store.revoked == y.store.revoked && Happen(y, op).store.consumed == y.store.consumed
  {
  }

  lemma ConsumesOwn(y: System, op: Op)
    requires op.RefreshOp?
    ensures Happen(y, op).store.revoked == y.store.revoked
    ensures Happen(y, op).store.consumed <= y.store.consumed + {op.token.jti}
  {
  }

  lemma OtherSubjectStays(s: Store, sub: string, t: Token)
    requires DistinctIds(s) && t in s.issued && t.sub != sub
    ensures t.jti !in IdsOf(s.issued, sub) && t.jti !in RefreshIdsOf(s.issued, sub)
  {
    forall u | u in s.issued && u.sub == sub
      ensures u.jti != t.jti
    {
      OtherIds(s, t, u);
    }
  }

  lemma OtherIds(s: Store, t: Token, u: Token)
    requires DistinctIds(s) && t in s.issued && u in s.issued && t != u
    ensures t.jti != u.jti
  {
    var i :| 0 <= i < |s.issued| && s.issued[i] == t;
    var j :| 0 <= j < |s.issued| && s.issued[j] == u;
  }

  lemma {:induction false} LiveStays(y: System, ops: seq<Op>, t: Token)
    requires Inv(y) && IsRun(y, ops) && Live(y, t)
    requires forall op | op in ops :: !Revokes(op, t) && !Redeems(op, t)
    ensures Live(Final(y, ops), t)
    decreases |ops|
  {
    if ops != [] {
      assert ops[0] in ops;
      LiveStep(y, ops[0], t);
      StepKeepsInv(y, ops[0]);
      LiveStays(Happen(y, ops[0]), ops[1..], t);
    }
  }

  /**
   * Whatever step answers two tokens, the access token is admitted and the refresh
   * token redeemable exactly until they expire, in every later run that neither
   * revokes them by id or subject nor redeems them.
   */
  lemma AnsweredTokensWork(y: System, op: Op, ops: seq<Op>)
    requires Inv(y) && Possible(y, op) && Respond(y, op).1.Issued? && IsRun(Happen(y, op), ops)
    ensures var response, z := Respond(y, op).1, Final(Happen(y, op), ops);
            && ((forall o | o in ops :: !Revokes(o, response.access) && !Redeems(o, response.access)) ==>
                  (CurrentUser(z.store, z.now, response.access) <==> z.now < y.now + ACCESS_TOKEN_EXPIRE_SECONDS))
            && ((forall o | o in ops :: !Revokes(o, response.refresh) && !Redeems(o, response.refresh)) ==>
                  (Redeemable(z, response.refresh) <==> z.now < y.now + REFRESH_TOKEN_EXPIRE_SECONDS))
  {
    var response, z := Respond(y, op).1, Final(Happen(y, op), ops);
    AnsweredAreAdded(y, op);
    StepKeepsInv(y, op);
    if forall o | o in ops :: !Revokes(o, response.access) && !Redeems(o, response.access) {
      LiveStays(Happen(y, op), ops, response.access);
      LiveMeans(z, response.access);
    }
    if forall o | o in ops :: !Revokes(o, response.refresh) && !Redeems(o, response.refresh) {
      LiveStays(Happen(y, op), ops, response.refresh);
      LiveMeans(z, response.refresh);
    }
  }

  // --- A client that goes on refreshing -------------------------------------

  /** The refresh token the client holds after the step, if it held `t` before. */
  function Held(y: System, op: Op, t: Token): Token {
    if op.RefreshOp? && op.token == t && Respond(y, op).1.Issued? then Respond(y, op).1.refresh else t
  }

  /** The client presents the refresh token answered last, in time; nobody revokes it or presents another of its id. */
  predicate InTime(y: System, ops: seq<Op>, t: Token)
    decreases |ops|
  {
    ops == [] ||
    (&& !Revokes(ops[0], t)
     && (Redeems(ops[0], t) ==> ops[0].token == t && y.now < t.exp)
     && InTime(Happen(y, ops[0]), ops[1..], Held(y, ops[0], t)))
  }

  /** How often the client is refused. */
  function Refusals(y: System, ops: seq<Op>, t: Token): nat
    decreases |ops|
  {
    if ops == [] then 0
    else (if ops[0].RefreshOp? && ops[0].token == t && !Respond(y, ops[0]).1.Issued? then 1 else 0)
         + Refusals(Happen(y, ops[0]), ops[1..], Held(y, ops[0], t))
  }

  /** Such a client is never refused, through any number of refreshes and whatever others do. */
  lemma {:induction false} NeverRefused(y: System, ops: seq<Op>, t: Token)
    requires Inv(y) && IsRun(y, ops) && Live(y, t) && t.tt == Refresh && InTime(y, ops, t)
    ensures Refusals(y, ops, t) == 0
    decreases |ops|
  {
    if ops != [] {
      var op, z := ops[0], Happen(y, ops[0]);
      StepKeepsInv(y, op);
      if Redeems(op, t) {
        LiveMeans(y, t);
        RefreshAnswersIff(y, op);
        AnsweredAreAdded(y, op);
      } else {
        LiveStep(y, op, t);
      }
      NeverRefused(z, ops[1..], Held(y, op, t));
    }
  }

  // --- Revoked refresh tokens count as consumed -----------------------------

  predicate RevokedConsumed(s: Store) {
    forall t | t in s.issued && t.tt == Refresh && t.jti in s.revoked :: t.jti in s.consumed
  }

  lemma RevokingConsumes(s: Store, jti: string, sub: string)
    requires DistinctIds(s) && RevokedConsumed(s)
    ensures RevokedConsumed(RevokeId(s, jti)) && RevokedConsumed(RevokeSub(s, sub))
  {
    forall t | t in s.issued && t.tt == Refresh && t.jti in IdsOf(s.issued, sub)
      ensures t.jti in RefreshIdsOf(s.issued, sub)
    {
      if t.sub != sub {
        OtherSubjectStays(s, sub, t);
      }
    }
  }

  lemma AddingConsumes(y: System, op: Op)
    requires Inv(y) && Possible(y, op) && RevokedConsumed(y.store) && Respond(y, op).1.Issued?
    ensures RevokedConsumed(Happen(y, op).store)
  {
    AnsweredAreAdded(y, op);
    StepGrows(y, op);
    if op.RefreshOp? {
      ConsumesOwn(y, op);
    } else {
      IssueLeavesSets(y, op);
    }
  }

  lemma RevokedConsumedStep(y: System, op: Op)
    requires Inv(y) && Possible(y, op) && RevokedConsumed(y.store)
    ensures RevokedConsumed(Happen(y, op).store)
  {
    if Respond(y, op).1.Issued? {
      AddingConsumes(y, op);
    } else {
      match op
      case RevokeOp(t) => RevokingConsumes(y.store, t.jti, "");
      case AdminRevokeOp(_, jti) => RevokingConsumes(y.store, jti, "");
      case AdminRevokeSubOp(_, sub) => RevokingConsumes(y.store, "", sub);
      case _ =>
    }
  }

  /** In every reachable state a revoked refresh token counts as used, too. */
  lemma {:induction false} RevokedRefreshIsConsumed(y: System, ops: seq<Op>)
    requires Inv(y) && IsRun(y, ops) && RevokedConsumed(y.store)
    ensures RevokedConsumed(Final(y, ops).store)
    decreases |ops|
  {
    if ops != [] {
      RevokedConsumedStep(y, ops[0]);
      StepKeepsInv(y, ops[0]);
      RevokedRefreshIsConsumed(Happen(y, ops[0]), ops[1..]);
    }
  }
}
