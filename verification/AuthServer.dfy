/**
 * The in-memory token store and its handlers as they run: three module-level
 * collections updated in place (cli/api/auth.py:68-319, cli/api/server.py:130-255,
 * cli/api/admin_routes.py:42-120). login and refresh check and update without an
 * await between; the others act on a token that get_current_user admitted before.
 */
module AuthServer {
  import opened Basics
  import opened Tokens

  class AuthStore {
    var issued: seq<Token>
    var revoked: set<string>
    var consumed: set<string>

    constructor ()
      ensures View() == Store([], {}, {})
    {
      issued, revoked, consumed := [], {}, {};
    }

    function View(): Store
      reads this
    {
      Store(issued, revoked, consumed)
    }

    method CreateToken(k: Kind, sub: string, scopes: seq<string>, role: string, jti: string, now: int)
      returns (t: Token)
      modifies this`issued
      ensures t == NewToken(k, jti, sub, role, scopes, now) && issued == old(issued) + [t]
    {
      t := Token(jti, sub, role, scopes, k, now, now + Lifetime(k));
      issued := issued + [t];
    }

    method RevokeToken(jti: string)
      modifies this`revoked, this`consumed
      ensures View() == RevokeId(old(View()), jti)
    {
      revoked := revoked + {jti};
      for i := 0 to |issued|
        invariant consumed == old(consumed)
        invariant forall j | 0 <= j < i :: !(issued[j].jti == jti && issued[j].tt == Refresh)
      {
        if issued[i].jti == jti && issued[i].tt == Refresh {
          consumed := consumed + {jti};
          assert issued[i] in issued;
          return;
        }
      }
    }

    method ConsumeRefreshToken(jti: string)
      modifies this`consumed
      ensures consumed == old(consumed) + {jti}
    {
      consumed := consumed + {jti};
    }

    /** The body of the loop below, for a token of the subject. */
    method RevokeListed(t: Token) returns (grew: nat)
      modifies this`revoked, this`consumed
      ensures revoked == With(old(revoked), t, true)
      ensures consumed == With(old(consumed), t, t.tt == Refresh)
      ensures |revoked| == |old(revoked)| + grew
    {
      grew := 0;
      if t.jti !in revoked {
        revoked := revoked + {t.jti};
        grew := 1;
      }
      if t.tt == Refresh {
        consumed := consumed + {t.jti};
      }
    }

    /** The loop of the method below, over the listed snapshot. */
    method RevokeEach(listed: seq<Token>, sub: string) returns (count: nat)
      modifies this`revoked, this`consumed
      ensures revoked == RevokedAfter(old(revoked), listed, |listed|, sub)
      ensures consumed == ConsumedAfter(old(consumed), listed, |listed|, sub)
      ensures |revoked| == |old(revoked)| + count
    {
      count := 0;
      for i := 0 to |listed|
        invariant revoked == RevokedAfter(old(revoked), listed, i, sub)
        invariant consumed == ConsumedAfter(old(consumed), listed, i, sub)
        invariant |revoked| == |old(revoked)| + count
      {
        if listed[i].sub == sub {
          var grew := RevokeListed(listed[i]);
          count := count + grew;
        }
      }
    }

    /** The count is exactly the growth of the revoked set. */
    method RevokeTokenBySub(sub: string) returns (count: nat)
      modifies this`revoked, this`consumed
      ensures View() == RevokeSub(old(View()), sub)
      ensures count == |revoked - old(revoked)|
    {
      AllIds(revoked, consumed, issued, sub);
      count := RevokeEach(issued, sub);
      Growth(old(revoked), revoked);
    }
  }

  /** One listed token marked in a set of ids. */
  function With(ids: set<string>, t: Token, mark: bool): set<string> {
    if mark then ids + {t.jti} else ids
  }

  function RevokedAfter(base: set<string>, ts: seq<Token>, n: nat, sub: string): set<string>
    requires n <= |ts|
  {
    if n == 0 then base else With(RevokedAfter(base, ts, n - 1, sub), ts[n - 1], ts[n - 1].sub == sub)
  }

  function ConsumedAfter(base: set<string>, ts: seq<Token>, n: nat, sub: string): set<string>
    requires n <= |ts|
  {
    if n == 0 then base
    else With(ConsumedAfter(base, ts, n - 1, sub), ts[n - 1], ts[n - 1].sub == sub && ts[n - 1].tt == Refresh)
  }

  lemma {:induction false} FirstIds(revoked: set<string>, consumed: set<string>, ts: seq<Token>, n: nat, sub: string)
    requires n <= |ts|
    ensures RevokedAfter(revoked, ts, n, sub) == revoked + IdsOf(ts[..n], sub)
    ensures ConsumedAfter(consumed, ts, n, sub) == consumed + RefreshIdsOf(ts[..n], sub)
  {
    if n > 0 {
      FirstIds(revoked, consumed, ts, n - 1, sub);
      NextId(ts, n - 1, sub);
    }
  }

  lemma NextId(ts: seq<Token>, i: nat, sub: string)
    requires i < |ts|
    ensures IdsOf(ts[..i + 1], sub) == IdsOf(ts[..i], sub) + if ts[i].sub == sub then {ts[i].jti} else {}
    ensures RefreshIdsOf(ts[..i + 1], sub)
            == RefreshIdsOf(ts[..i], sub) + if ts[i].sub == sub && ts[i].tt == Refresh then {ts[i].jti} else {}
  {
    assert forall t :: t in ts[..i + 1] <==> t in ts[..i] || t == ts[i];
  }

  lemma AllIds(revoked: set<string>, consumed: set<string>, ts: seq<Token>, sub: string)
    ensures RevokedAfter(revoked, ts, |ts|, sub) == revoked + IdsOf(ts, sub)
    ensures ConsumedAfter(consumed, ts, |ts|, sub) == consumed + RefreshIdsOf(ts, sub)
  {
    FirstIds(revoked, consumed, ts, |ts|, sub);
    assert ts[..|ts|] == ts;
  }

  lemma Growth(base: set<string>, now: set<string>)
    requires base <= now
    ensures |now - base| == |now| - |base|
  {
    assert now == base + (now - base);
  }

  class Server {
    const auth: AuthStore
    const keys: set<string>

    constructor (keys: set<string>)
      ensures this.keys == keys && fresh(auth) && auth.View() == Store([], {}, {})
    {
      auth := new AuthStore();
      this.keys := keys;
    }

    /** The part login and admin issue share: role check, scope check, two new tokens. */
    method IssueFor(now: int, sub: string, requested: Option<seq<string>>, role: string, a: string, r: string)
      returns (response: Response)
      modifies auth`issued
      ensures (auth.View(), response) == Issue(old(auth.View()), now, sub, requested, role, a, r)
    {
      if role != "admin" && role != "user" {
        return BadRequest;
      }
      var granted := Grant(role, requested);
      if granted.None? {
        return BadRequest;
      }
      var access := auth.CreateToken(Access, sub, granted.value, role, a, now);
      var refresh := auth.CreateToken(Refresh, sub, granted.value, role, r, now);
      return Issued(access, refresh);
    }

    method LoginHandler(
      now: int, key: string, sub: string, requested: Option<seq<string>>, role: string, a: string, r: string)
      returns (response: Response)
      modifies auth`issued
      ensures (auth.View(), response) == Login(old(auth.View()), now, keys, key, sub, requested, role, a, r)
    {
      if key !in keys {
        return Unauthorized;
      }
      response := IssueFor(now, sub, requested, role, a, r);
    }

    method RefreshHandler(now: int, t: Token, a: string, r: string) returns (response: Response)
      modifies auth`issued, auth`consumed
      ensures (auth.View(), response) == Rotate(old(auth.View()), now, t, a, r)
    {
      if Decode(auth.View(), t, now) != Good {
        return Unauthorized;
      }
      if t.tt != Refresh {
        return Unauthorized;
      }
      auth.ConsumeRefreshToken(t.jti);
      var access := auth.CreateToken(Access, t.sub, t.scopes, t.role, a, now);
      var refresh := auth.CreateToken(Refresh, t.sub, t.scopes, t.role, r, now);
      return Issued(access, refresh);
    }

    /** The dependency that runs before each handler below, in a step of its own. */
    method GetCurrentUser(now: int, t: Token) returns (admitted: bool)
      ensures admitted <==> CurrentUser(auth.View(), now, t)
    {
      if Decode(auth.View(), t, now) != Good {
        return false;
      }
      return t.tt != Refresh;
    }

    method RevokeHandler(t: Token) returns (response: Response)
      modifies auth`revoked, auth`consumed
      ensures (auth.View(), response) == RevokeOwn(old(auth.View()), t)
    {
      auth.RevokeToken(t.jti);
      return Done(t.jti);
    }

    method AdminIssueHandler(
      now: int, t: Token, sub: string, requested: Option<seq<string>>, role: string, a: string, r: string)
      returns (response: Response)
      modifies auth`issued
      ensures (auth.View(), response) == AdminIssue(old(auth.View()), now, t, sub, requested, role, a, r)
    {
      if !RequireAdmin(t) {
        return Forbidden;
      }
      response := IssueFor(now, sub, requested, role, a, r);
    }

    method AdminRevokeHandler(t: Token, jti: string) returns (response: Response)
      modifies auth`revoked, auth`consumed
      ensures (auth.View(), response) == AdminRevoke(old(auth.View()), t, jti)
    {
      if !RequireAdmin(t) {
        return Forbidden;
      }
      auth.RevokeToken(jti);
      return Done(jti);
    }

    method AdminRevokeSubHandler(t: Token, sub: string) returns (response: Response)
      modifies auth`revoked, auth`consumed
      ensures (auth.View(), response) == AdminRevokeSub(old(auth.View()), t, sub)
    {
      if !RequireAdmin(t) {
        return Forbidden;
      }
      var count := auth.RevokeTokenBySub(sub);
      return Count(count);
    }
  }
}
