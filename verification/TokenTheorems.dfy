/** Guarantees of the token lifecycle over every run. */
module TokenTheorems {
  import opened Basics
  import opened Tokens

  ghost predicate Reaches(keys: set<string>, now: int, ops: seq<Op>, y: System) {
    IsRun(Boot(keys, now), ops) && y == Final(Boot(keys, now), ops)
  }

  predicate Redeemable(y: System, t: Token) {
    t.tt == Refresh && Decode(y.store, t, y.now) == Good
  }

  // --- Rotation -------------------------------------------------------------

  function RedeemableTokens(y: System): set<Token> {
    set t | t in y.store.issued && Redeemable(y, t)
  }

  function IssuesIn(ops: seq<Op>): nat {
    if ops == [] then 0 else (if ops[0].LoginOp? || ops[0].AdminIssueOp? then 1 else 0) + IssuesIn(ops[1..])
  }

  lemma {:induction false} RootsCountIssues(y: System, ops: seq<Op>)
    requires IsRun(y, ops)
    ensures Final(y, ops).roots <= y.roots + IssuesIn(ops)
    decreases |ops|
  {
    if ops != [] {
      RootsCountIssues(Happen(y, ops[0]), ops[1..]);
    }
  }

  /** Tokens of different chains below `n`: at most `n` of them. */
  lemma {:induction false} ChainsBound(ts: set<Token>, chain: map<string, nat>, n: nat)
    requires forall t | t in ts :: t.jti in chain && chain[t.jti] < n
    requires forall t, u | t in ts && u in ts && chain[t.jti] == chain[u.jti] :: t == u
    ensures |ts| <= n
  {
    if n == 0 {
      assert ts == {};
    } else if t :| t in ts && chain[t.jti] == n - 1 {
      ChainsBound(ts - {t}, chain, n - 1);
    } else {
      ChainsBound(ts, chain, n - 1);
    }
  }

  /**
   * In every reachable state at most the newest refresh token of a chain is
   * redeemable, so redeemable refresh tokens never outnumber logins and admin issues.
   */
  lemma OneRedeemablePerIssue(keys: set<string>, now: int, ops: seq<Op>, y: System)
    requires Reaches(keys, now, ops, y)
    ensures forall i, j | 0 <= i < j < |y.store.issued| && y.store.issued[j].tt == Refresh
                          && SameChain(y, y.store.issued[i], y.store.issued[j]) :: !Redeemable(y, y.store.issued[i])
    ensures |RedeemableTokens(y)| <= y.roots <= IssuesIn(ops)
  {
    RunKeepsInv(Boot(keys, now), ops);
    RootsCountIssues(Boot(keys, now), ops);
    forall t, u | t in RedeemableTokens(y) && u in RedeemableTokens(y) && y.chain[t.jti] == y.chain[u.jti]
      ensures t == u
    {
      if t != u {
        GoodIsNewest(y, t, u);
      }
    }
    ChainsBound(RedeemableTokens(y), y.chain, y.roots);
  }

  /** How often the refresh handler accepted token id `jti` in a run. */
  function Acceptances(y: System, ops: seq<Op>, jti: string): nat
    decreases |ops|
  {
    if ops == [] then 0
    else
      (if ops[0].RefreshOp? && ops[0].token.jti == jti && Respond(y, ops[0]).1.Issued? then 1 else 0)
      + Acceptances(Happen(y, ops[0]), ops[1..], jti)
  }

  lemma {:induction false} ConsumedNeverAccepted(y: System, ops: seq<Op>, jti: string)
    requires IsRun(y, ops) && jti in y.store.consumed
    ensures Acceptances(y, ops, jti) == 0
    decreases |ops|
  {
    if ops != [] {
      StepGrows(y, ops[0]);
      ConsumedNeverAccepted(Happen(y, ops[0]), ops[1..], jti);
    }
  }

  /** Each refresh id is accepted at most once, in any run from any state. */
  lemma {:induction false} AcceptedAtMostOnce(y: System, ops: seq<Op>, jti: string)
    requires IsRun(y, ops)
    ensures Acceptances(y, ops, jti) <= 1
    decreases |ops|
  {
    if ops != [] {
      var z := Happen(y, ops[0]);
      if ops[0].RefreshOp? && ops[0].token.jti == jti && Respond(y, ops[0]).1.Issued? {
        ConsumedNeverAccepted(z, ops[1..], jti);
      } else {
        AcceptedAtMostOnce(z, ops[1..], jti);
      }
    }
  }

  // --- Subject cut-off ------------------------------------------------------

  predicate IssuesFor(op: Op, sub: string) {
    (op.LoginOp? || op.AdminIssueOp?) && op.sub == sub
  }

  predicate CutOff(s: Store, sub: string) {
    forall t | t in s.issued :: t.sub == sub ==> t.jti in s.revoked
  }

  lemma CutOffStep(y: System, op: Op, sub: string)
    requires Possible(y, op) && CutOff(y.store, sub) && !IssuesFor(op, sub)
    ensures CutOff(Happen(y, op).store, sub)
  {
    StepGrows(y, op);
    forall t | t in Happen(y, op).store.issued && t !in y.store.issued
      ensures t.sub != sub
    {
      AddedSubject(y, op, t);
    }
  }

  lemma AddedSubject(y: System, op: Op, t: Token)
    requires t in Happen(y, op).store.issued && t !in y.store.issued
    ensures IssuesFor(op, t.sub) || (op.RefreshOp? && Decode(y.store, op.token, y.now) == Good && t.sub == op.token.sub)
  {
    if op.LoginOp? || op.AdminIssueOp? {
      IssueAdds(y.store, y.now, op.sub, op.requested, op.role, op.a, op.r);
    }
  }

  lemma {:induction false} CutOffStays(y: System, ops: seq<Op>, sub: string)
    requires IsRun(y, ops) && CutOff(y.store, sub)
    requires forall op | op in ops :: !IssuesFor(op, sub)
    ensures CutOff(Final(y, ops).store, sub)
    decreases |ops|
  {
    if ops != [] {
      assert !IssuesFor(ops[0], sub);
      CutOffStep(y, ops[0], sub);
      CutOffStays(Happen(y, ops[0]), ops[1..], sub);
    }
  }

  /**
   * Once a subject's tokens are revoked, every token with that subject is rejected
   * in every later state, for API access and for refresh, until it is issued anew:
   * no refresh chain escapes.
   */
  lemma SubjectCutOffIsFinal(y: System, admin: Token, sub: string, ops: seq<Op>, t: Token)
    requires Respond(y, AdminRevokeSubOp(admin, sub)).1.Count?
    requires IsRun(Happen(y, AdminRevokeSubOp(admin, sub)), ops)
    requires forall op | op in ops :: !IssuesFor(op, sub)
    requires t.sub == sub
    ensures var z := Final(Happen(y, AdminRevokeSubOp(admin, sub)), ops); Decode(z.store, t, z.now) != Good
  {
    var y1 := Happen(y, AdminRevokeSubOp(admin, sub));
    assert CutOff(y1.store, sub);
    CutOffStays(y1, ops, sub);
  }

  /** Revoking a subject leaves every other subject's tokens as they were. */
  lemma CutOffSparesOthers(s: Store, sub: string, t: Token, now: int)
    requires DistinctIds(s) && t.sub != sub
    ensures Decode(RevokeSub(s, sub), t, now) == Decode(s, t, now)
  {
    if t in s.issued {
      forall u | u in s.issued && u.sub == sub
        ensures u.jti != t.jti
      {
        var i :| 0 <= i < |s.issued| && s.issued[i] == t;
        var j :| 0 <= j < |s.issued| && s.issued[j] == u;
      }
    }
    assert RefreshIdsOf(s.issued, sub) <= IdsOf(s.issued, sub);
  }

  lemma {:induction false} RevokedOnlyGrows(y: System, ops: seq<Op>)
    requires IsRun(y, ops)
    ensures y.store.revoked <= Final(y, ops).store.revoked
    decreases |ops|
  {
    if ops != [] {
      StepGrows(y, ops[0]);
      RevokedOnlyGrows(Happen(y, ops[0]), ops[1..]);
    }
  }

  /** A token whose id was revoked, by its holder or by an admin, is rejected in every later state. */
  lemma RevokedIdIsFinal(y: System, op: Op, t: Token, ops: seq<Op>)
    requires op == RevokeOp(t) || (op.AdminRevokeOp? && op.jti == t.jti && RequireAdmin(op.token))
    requires IsRun(Happen(y, op), ops)
    ensures var z := Final(Happen(y, op), ops); Decode(z.store, t, z.now) != Good && !CurrentUser(z.store, z.now, t)
  {
    RevokedNow(y, op, t);
    RevokedOnlyGrows(Happen(y, op), ops);
  }

  lemma RevokedNow(y: System, op: Op, t: Token)
    requires op == RevokeOp(t) || (op.AdminRevokeOp? && op.jti == t.jti && RequireAdmin(op.token))
    ensures t.jti in Happen(y, op).store.revoked
  {
  }

  // --- Requests on their way ------------------------------------------------

  /** How many handlers run on behalf of `t` in a run. */
  function ActsOf(ops: seq<Op>, t: Token): nat {
    if ops == [] then 0 else (if ActsFor(ops[0]) == Some(t) then 1 else 0) + ActsOf(ops[1..], t)
  }

  lemma RejectedStep(y: System, op: Op, t: Token)
    requires Possible(y, op) && t.jti in y.store.revoked
    ensures Happen(y, op).admitted[t] + (if ActsFor(op) == Some(t) then 1 else 0) <= y.admitted[t]
  {
  }

  lemma {:induction false} RevokedActs(y: System, ops: seq<Op>, t: Token)
    requires IsRun(y, ops) && t.jti in y.store.revoked
    ensures ActsOf(ops, t) <= y.admitted[t]
    decreases |ops|
  {
    if ops != [] {
      StepGrows(y, ops[0]);
      RejectedStep(y, ops[0], t);
      RevokedActs(Happen(y, ops[0]), ops[1..], t);
    }
  }

  /**
   * The check of a token and the handler it lets through are two steps. So after a
   * token is revoked, at most the requests admitted before still act for it, and if
   * there are any, they can.
   */
  lemma RevokedTokenActsIff(y: System, t: Token)
    requires t.jti in y.store.revoked
    ensures forall ops | IsRun(y, ops) :: ActsOf(ops, t) <= y.admitted[t]
    ensures (exists ops :: IsRun(y, ops) && ActsOf(ops, t) > 0) <==> t in y.admitted
  {
    forall ops | IsRun(y, ops)
      ensures ActsOf(ops, t) <= y.admitted[t]
    {
      RevokedActs(y, ops, t);
    }
    if t in y.admitted {
      var ops := [RevokeOp(t)];
      assert ops[1..] == [] && ActsOf([], t) == 0;
      assert IsRun(Happen(y, ops[0]), []);
      assert IsRun(y, ops) && ActsOf(ops, t) == 1;
    }
  }

  /** Revoking a subject again, with no issue for it in between, reports zero tokens. */
  lemma SecondCutOffCountsZero(y: System, admin: Token, sub: string, ops: seq<Op>, again: Token)
    requires Respond(y, AdminRevokeSubOp(admin, sub)).1.Count?
    requires IsRun(Happen(y, AdminRevokeSubOp(admin, sub)), ops)
    requires forall op | op in ops :: !IssuesFor(op, sub)
    ensures var z := Final(Happen(y, AdminRevokeSubOp(admin, sub)), ops);
            var response := Respond(z, AdminRevokeSubOp(again, sub)).1;
            response.Count? ==> response.n == 0
  {
    var y1 := Happen(y, AdminRevokeSubOp(admin, sub));
    assert CutOff(y1.store, sub);
    CutOffStays(y1, ops, sub);
    NothingLeftToRevoke(Final(y1, ops).store, sub);
  }

  lemma NothingLeftToRevoke(s: Store, sub: string)
    requires CutOff(s, sub)
    ensures |RevokeSub(s, sub).revoked - s.revoked| == 0
  {
    assert RevokeSub(s, sub).revoked == s.revoked;
  }

  // --- Bounded tail ---------------------------------------------------------

  /** Chain `c` was last able to mint tokens at time `limit`. */
  ghost predicate Frozen(y: System, c: nat, limit: int) {
    forall t | t in y.store.issued && t.jti in y.chain && y.chain[t.jti] == c ::
      if t.tt == Refresh then !Redeemable(y, t) else t.exp <= limit + ACCESS_TOKEN_EXPIRE_SECONDS
  }

  /** A token that does not decode now never decodes later. */
  lemma RejectedStaysRejected(y: System, op: Op, t: Token)
    requires Inv(y) && Possible(y, op) && t in y.store.issued && Decode(y.store, t, y.now) != Good
    ensures Decode(Happen(y, op).store, t, Happen(y, op).now) != Good
  {
    StepGrows(y, op);
  }

  /** Tokens a step adds to `issued` belong to a new chain or to the chain of the refresh token it accepts. */
  lemma FrozenStep(y: System, op: Op, c: nat, limit: int)
    requires Inv(y) && Possible(y, op) && Frozen(y, c, limit) && c < y.roots
    ensures Frozen(Happen(y, op), c, limit) && c < Happen(y, op).roots
  {
    var z := Happen(y, op);
    forall t | t in z.store.issued && t.jti in z.chain && z.chain[t.jti] == c
      ensures if t.tt == Refresh then !Redeemable(z, t) else t.exp <= limit + ACCESS_TOKEN_EXPIRE_SECONDS
    {
      if t in y.store.issued {
        assert t.jti in y.chain && y.chain[t.jti] == c;
        if t.tt == Refresh {
          RejectedStaysRejected(y, op, t);
        }
      } else {
        assert false;
      }
    }
  }

  lemma {:induction false} FrozenStays(y: System, ops: seq<Op>, c: nat, limit: int)
    requires Inv(y) && IsRun(y, ops) && Frozen(y, c, limit) && c < y.roots
    ensures Frozen(Final(y, ops), c, limit)
    decreases |ops|
  {
    if ops != [] {
      FrozenStep(y, ops[0], c, limit);
      StepKeepsInv(y, ops[0]);
      FrozenStays(Happen(y, ops[0]), ops[1..], c, limit);
    }
  }

  /**
   * When no refresh token of a chain is redeemable at some moment, no token of the
   * chain, refreshed earlier or not, is accepted 3600 seconds later or after.
   */
  lemma DeadChainTailIsBounded(y: System, c: nat, ops: seq<Op>, t: Token)
    requires Inv(y) && IsRun(y, ops) && c < y.roots
    requires forall u | u in y.store.issued && y.chain[u.jti] == c :: !Redeemable(y, u)
    ensures var z := Final(y, ops);
            z.now >= y.now + ACCESS_TOKEN_EXPIRE_SECONDS && t.jti in z.chain && z.chain[t.jti] == c
            ==> Decode(z.store, t, z.now) != Good
  {
    assert Frozen(y, c, y.now);
    FrozenStays(y, ops, c, y.now);
  }

  /** The ids a step may give to new tokens. */
  function Minted(op: Op): set<string> {
    match op
    case LoginOp(_, _, _, _, a, r) => {a, r}
    case RefreshOp(_, a, r) => {a, r}
    case AdminIssueOp(_, _, _, _, a, r) => {a, r}
    case _ => {}
  }

  lemma OtherIdsStay(y: System, op: Op, id: string)
    requires id in y.chain && id !in Minted(op)
    ensures id in Happen(y, op).chain && Happen(y, op).chain[id] == y.chain[id]
  {
    if op.LoginOp? || op.AdminIssueOp? {
      IssueAdds(y.store, y.now, op.sub, op.requested, op.role, op.a, op.r);
    }
  }

  lemma ChainStep(y: System, op: Op, t: Token)
    requires Inv(y) && Possible(y, op) && t in y.store.issued
    ensures t in Happen(y, op).store.issued && t.jti in Happen(y, op).chain
            && Happen(y, op).chain[t.jti] == y.chain[t.jti]
  {
    StepGrows(y, op);
    assert t.jti !in Minted(op);
    OtherIdsStay(y, op, t.jti);
  }

  /** An issued token stays in its chain. */
  lemma {:induction false} ChainStays(y: System, ops: seq<Op>, t: Token)
    requires Inv(y) && IsRun(y, ops) && t in y.store.issued
    ensures t.jti in Final(y, ops).chain && Final(y, ops).chain[t.jti] == y.chain[t.jti]
    decreases |ops|
  {
    if ops != [] {
      ChainStep(y, ops[0], t);
      StepKeepsInv(y, ops[0]);
      ChainStays(Happen(y, ops[0]), ops[1..], t);
    }
  }

  /** Revoking a chain's redeemable refresh token by id ends the chain within the hour. */
  lemma RevokedRefreshTailIsBounded(y: System, admin: Token, t: Token, ops: seq<Op>, u: Token)
    requires Inv(y) && Redeemable(y, t) && RequireAdmin(admin)
    requires IsRun(y, [AdminRevokeOp(admin, t.jti)] + ops)
    ensures var z := Final(y, [AdminRevokeOp(admin, t.jti)] + ops);
            z.now >= y.now + ACCESS_TOKEN_EXPIRE_SECONDS && SameChain(z, t, u) ==> Decode(z.store, u, z.now) != Good
  {
    var op := AdminRevokeOp(admin, t.jti);
    var y1 := Happen(y, op);
    assert ([op] + ops)[1..] == ops;
    StepKeepsInv(y, op);
    RevokedIsDead(y, admin, t);
    ChainStays(y1, ops, t);
    DeadChainTailIsBounded(y1, y.chain[t.jti], ops, u);
  }

  lemma RevokedIsDead(y: System, admin: Token, t: Token)
    requires Inv(y) && Redeemable(y, t) && RequireAdmin(admin)
    ensures var y1 := Happen(y, AdminRevokeOp(admin, t.jti));
            forall u | u in y1.store.issued && y1.chain[u.jti] == y.chain[t.jti] :: !Redeemable(y1, u)
  {
    var y1 := Happen(y, AdminRevokeOp(admin, t.jti));
    forall u | u in y1.store.issued && y1.chain[u.jti] == y.chain[t.jti]
      ensures !Redeemable(y1, u)
    {
      if u != t && u.tt == Refresh {
        GoodIsNewest(y, t, u);
      }
    }
  }

  // --- Revoking one's own token ---------------------------------------------

  /** get_current_user admits issued access tokens only. */
  predicate AdmittedAccess(y: System) {
    forall t | t in y.admitted :: t in y.store.issued && t.tt == Access
  }

  lemma AdmittedStep(y: System, op: Op)
    requires AdmittedAccess(y)
    ensures AdmittedAccess(Happen(y, op))
  {
    StepGrows(y, op);
    forall t | t in Happen(y, op).admitted
      ensures t in y.store.issued && t.tt == Access
    {
      AdmittedFrom(y, op, t);
    }
  }

  lemma AdmittedFrom(y: System, op: Op, t: Token)
    requires t in AdmittedAfter(y, op)
    ensures t in y.admitted || (t in y.store.issued && t.tt == Access)
  {
  }

  lemma {:induction false} AdmittedStay(y: System, ops: seq<Op>)
    requires AdmittedAccess(y) && IsRun(y, ops)
    ensures AdmittedAccess(Final(y, ops))
    decreases |ops|
  {
    if ops != [] {
      AdmittedStep(y, ops[0]);
      AdmittedStay(Happen(y, ops[0]), ops[1..]);
    }
  }

  lemma AccessIdIsApart(s: Store, t: Token, u: Token)
    requires DistinctIds(s) && t in s.issued && u in s.issued && t.tt == Access && u.tt == Refresh
    ensures u.jti != t.jti
  {
    var i :| 0 <= i < |s.issued| && s.issued[i] == t;
    var j :| 0 <= j < |s.issued| && s.issued[j] == u;
  }

  lemma AccessRevokeSpares(y: System, t: Token, u: Token)
    requires DistinctIds(y.store) && t in y.store.issued && t.tt == Access && u in RedeemableTokens(y)
    ensures u in RedeemableTokens(Happen(y, RevokeOp(t)))
  {
    AccessIdIsApart(y.store, t, u);
    forall v | v in y.store.issued && v.tt == Refresh
      ensures v.jti != t.jti
    {
      AccessIdIsApart(y.store, t, v);
    }
    assert RevokeId(y.store, t.jti).consumed == y.store.consumed;
  }

  /**
   * A holder's own revoke ends the access token it is sent with and nothing else: in
   * every reachable state all redeemable refresh tokens, those of its own chain too,
   * stay redeemable.
   */
  lemma OwnRevokeSparesRefresh(keys: set<string>, now: int, ops: seq<Op>, y: System, t: Token)
    requires Reaches(keys, now, ops, y) && Possible(y, RevokeOp(t))
    ensures RedeemableTokens(Happen(y, RevokeOp(t))) == RedeemableTokens(y)
    ensures !CurrentUser(Happen(y, RevokeOp(t)).store, y.now, t)
  {
    RunKeepsInv(Boot(keys, now), ops);
    AdmittedStay(Boot(keys, now), ops);
    var z := Happen(y, RevokeOp(t));
    forall u | u in RedeemableTokens(y)
      ensures u in RedeemableTokens(z)
    {
      AccessRevokeSpares(y, t, u);
    }
    forall u | u in RedeemableTokens(z)
      ensures u in RedeemableTokens(y)
    {
      RevokeRedeemsNothing(y, t, u);
    }
  }

  lemma RevokeRedeemsNothing(y: System, t: Token, u: Token)
    requires u in RedeemableTokens(Happen(y, RevokeOp(t)))
    ensures u in RedeemableTokens(y)
  {
  }

  // --- What a chain carries -------------------------------------------------

  predicate SamePayload(t: Token, u: Token) {
    t.sub == u.sub && t.role == u.role && t.scopes == u.scopes
  }

  predicate Uniform(y: System) {
    forall t, u | t in y.store.issued && u in y.store.issued :: SameChain(y, t, u) ==> SamePayload(t, u)
  }

  /** The older token whose payload and chain an issued token shares after a refresh. */
  function Source(y: System, op: Op, t: Token): Token
    requires op.RefreshOp?
  {
    if t in y.store.issued then t else op.token
  }

  lemma SourceShares(y: System, op: Op, t: Token)
    requires Inv(y) && Possible(y, op) && op.RefreshOp? && Respond(y, op).1.Issued? && t in Happen(y, op).store.issued
    ensures var v := Source(y, op, t);
            && v in y.store.issued && SamePayload(t, v) && t.jti in Happen(y, op).chain
            && Happen(y, op).chain[t.jti] == y.chain[v.jti]
  {
  }

  lemma NewRootApart(y: System, op: Op, kept: Token, added: Token)
    requires Inv(y) && Possible(y, op) && !op.RefreshOp?
    requires kept in y.store.issued && added in Happen(y, op).store.issued && added !in y.store.issued
    ensures !SameChain(Happen(y, op), kept, added)
  {
    ChainStep(y, op, kept);
    RootIssueExtends(y, op);
  }

  lemma NewRootsAlike(y: System, op: Op, t: Token, u: Token)
    requires !op.RefreshOp? && t in Happen(y, op).store.issued && u in Happen(y, op).store.issued
    requires t !in y.store.issued && u !in y.store.issued
    ensures SamePayload(t, u)
  {
    if op.LoginOp? || op.AdminIssueOp? {
      IssueAdds(y.store, y.now, op.sub, op.requested, op.role, op.a, op.r);
    }
  }

  /** A login or admin issue starts a chain of its own. */
  lemma RootsStandApart(y: System, op: Op, t: Token, u: Token)
    requires Inv(y) && Possible(y, op) && !op.RefreshOp? && Uniform(y)
    requires t in Happen(y, op).store.issued && u in Happen(y, op).store.issued && SameChain(Happen(y, op), t, u)
    ensures SamePayload(t, u)
  {
    if t in y.store.issued && u in y.store.issued {
      ChainStep(y, op, t);
      ChainStep(y, op, u);
      assert SameChain(y, t, u);
    } else if t in y.store.issued {
      NewRootApart(y, op, t, u);
    } else if u in y.store.issued {
      NewRootApart(y, op, u, t);
    } else {
      NewRootsAlike(y, op, t, u);
    }
  }

  lemma UniformKept(y: System, op: Op)
    requires Inv(y) && Possible(y, op) && Uniform(y)
    ensures Uniform(Happen(y, op))
  {
    var z := Happen(y, op);
    forall t, u | t in z.store.issued && u in z.store.issued && SameChain(z, t, u)
      ensures SamePayload(t, u)
    {
      if !op.RefreshOp? {
        RootsStandApart(y, op, t, u);
      } else if Respond(y, op).1.Issued? {
        SourceShares(y, op, t);
        SourceShares(y, op, u);
        assert SameChain(y, Source(y, op, t), Source(y, op, u));
      } else {
        assert z == y;
      }
    }
  }

  lemma {:induction false} UniformStays(y: System, ops: seq<Op>)
    requires Inv(y) && IsRun(y, ops) && Uniform(y)
    ensures Uniform(Final(y, ops))
    decreases |ops|
  {
    if ops != [] {
      UniformKept(y, ops[0]);
      StepKeepsInv(y, ops[0]);
      UniformStays(Happen(y, ops[0]), ops[1..]);
    }
  }

  /** All tokens descended from one login or admin issue have its subject, role and scopes: no refresh widens them. */
  lemma ChainsKeepPayload(keys: set<string>, now: int, ops: seq<Op>, y: System, t: Token, u: Token)
    requires Reaches(keys, now, ops, y) && t in y.store.issued && u in y.store.issued && SameChain(y, t, u)
    ensures t.sub == u.sub && t.role == u.role && t.scopes == u.scopes
  {
    UniformStays(Boot(keys, now), ops);
    assert SamePayload(t, u);
  }

  predicate UsesKey(op: Op, keys: set<string>) {
    op.LoginOp? && op.key in keys
  }

  /** Without a login by a registered key no token ever exists. */
  lemma {:induction false} NoKeyNoTokens(y: System, ops: seq<Op>)
    requires IsRun(y, ops) && y.store.issued == [] && y.admitted == multiset{}
    requires forall op | op in ops :: !UsesKey(op, y.keys)
    ensures Final(y, ops).store.issued == []
    decreases |ops|
  {
    if ops != [] {
      assert !UsesKey(ops[0], y.keys);
      NoKeyNoTokens(Happen(y, ops[0]), ops[1..]);
    }
  }

  // --- Roles ----------------------------------------------------------------

  lemma UserScopesEndPlainly(x: string)
    requires x in USER_SCOPES
    ensures x != "admin:*" && x[|x| - 1] != '*'
  {
  }

  /**
   * Every token reachable by login, admin issue and refresh has role admin exactly
   * when it holds admin:*, so the two tests of require_admin agree, and
   * require_scope passes an admin or the holder of every scope asked for.
   */
  lemma RoleMatchesScopes(keys: set<string>, now: int, ops: seq<Op>, y: System, t: Token, required: seq<string>)
    requires Reaches(keys, now, ops, y) && t in y.store.issued
    ensures WellScoped(t)
    ensures t.role == "admin" <==> "admin:*" in t.scopes
    ensures RequireAdmin(t) <==> t.role == "admin"
    ensures RequireScope(t, required) <==> t.role == "admin" || forall r | r in required :: r in t.scopes
  {
    RunKeepsInv(Boot(keys, now), ops);
    if t.role == "admin" {
      assert t.scopes[0] in t.scopes && t.scopes[0] in DefaultScopes("admin");
    } else {
      forall x | x in t.scopes
        ensures x != "admin:*" && x[|x| - 1] != '*'
      {
        UserScopesEndPlainly(x);
      }
      forall r
        ensures Covers(t.scopes, r) ==> r in t.scopes
      {
        if LastColon(r).Some? && LastColon(r).value <= |r| {
          var family := r[..LastColon(r).value] + ":*";
          assert family[|family| - 1] == '*';
        }
      }
    }
  }
}
