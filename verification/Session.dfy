/** Refresh of the session and workspace tokens (`src/auth.rs`). */
module Session {
  import opened Bytes

  const SIX_HOURS_SECS := 6 * 60 * 60
  const I64_LIMIT := 0x8000_0000_0000_0000

  datatype Claims = Claims(exp: int, iat: Option<int>)

  // ---- When a token is refreshed ------------------------------------------

  /** Two's-complement wrap-around of a 64-bit subtraction. */
  function WrapI64(n: int): int {
    (n + I64_LIMIT) % (2 * I64_LIMIT) - I64_LIMIT
  }

  /** Half, rounded towards zero. */
  function HalfTowardsZero(n: int): int {
    if n >= 0 then n / 2 else -(-n / 2)
  }

  function Threshold(c: Claims): int {
    match c.iat
    case Some(iat) => HalfTowardsZero(WrapI64(c.exp - iat))
    case None => SIX_HOURS_SECS
  }

  predicate Expired(c: Claims, now: int) {
    WrapI64(c.exp - now) <= 0
  }

  predicate RefreshRequired(c: Claims, now: int) {
    !Expired(c, now) && WrapI64(c.exp - now) <= Threshold(c)
  }

  predicate WsRefreshRequired(c: Claims, now: int) {
    Expired(c, now) || RefreshRequired(c, now)
  }

  /** The claims of a token that parses, at a time after 1970: `exp` is not negative, and all are 64-bit. */
  ghost predicate Sane(c: Claims, now: int) {
    && 0 <= c.exp < I64_LIMIT && 0 <= now < I64_LIMIT
    && (c.iat.Some? ==> -I64_LIMIT <= c.iat.value < I64_LIMIT)
  }

  /** No more than half the lifetime is left, or six hours where the lifetime is not known. */
  ghost predicate HalfSpent(c: Claims, now: int) {
    && now < c.exp
    && match c.iat
       case Some(iat) => c.exp - iat < 0x8000_0000_0000_0000 && 2 * (c.exp - now) <= c.exp - iat
       case None => c.exp - now <= 21600
  }

  lemma WrapIs(n: int)
    ensures -0x8000_0000_0000_0000 <= WrapI64(n) < 0x8000_0000_0000_0000
    ensures (n - WrapI64(n)) % 0x1_0000_0000_0000_0000 == 0
  {
    var m := n + I64_LIMIT;
    assert n - WrapI64(n) == m - m % (2 * I64_LIMIT);
    assert m == m / (2 * I64_LIMIT) * (2 * I64_LIMIT) + m % (2 * I64_LIMIT);
  }

  /**
   When a token has expired and when it is due, in terms of its claims. A workspace token is due when
   it has expired as well. A lifetime that overflows 64 bits is never half spent.
   */
  lemma DueIs(c: Claims, now: int)
    requires Sane(c, now)
    ensures Expired(c, now) <==> c.exp <= now
    ensures RefreshRequired(c, now) <==> HalfSpent(c, now)
    ensures WsRefreshRequired(c, now) <==> c.exp <= now || HalfSpent(c, now)
  {
    NoWrap(c.exp - now);
    match c.iat
    case None =>
    case Some(iat) =>
      if c.exp - iat < I64_LIMIT {
        NoWrap(c.exp - iat);
      } else {
        assert WrapI64(c.exp - iat) == c.exp - iat - 2 * I64_LIMIT < 0;
      }
  }

  // ---- A session that is used often enough --------------------------------

  /** The token issued at time `t` with lifetime `life`, with or without an `iat` claim. */
  function Issued(t: int, life: nat, withIat: bool): Claims {
    Claims(t + life, if withIat then Some(t) else None)
  }

  /** Runs the calls at `times` on token `c`, each refresh succeeding: None once one finds it expired. */
  predicate Survives(c: Claims, times: seq<int>, life: nat, withIat: bool)
    decreases |times|
  {
    if times == [] then true
    else if Expired(c, times[0]) then false
    else
      var next := if RefreshRequired(c, times[0]) then Issued(times[0], life, withIat) else c;
      Survives(next, times[1..], life, withIat)
  }

  /** Calls from `since` on, no two further apart than `gap`, all within the range of the clock. */
  ghost predicate Spaced(since: int, times: seq<int>, gap: nat, life: nat)
    decreases |times|
  {
    if times == [] then true
    else since <= times[0] <= since + gap && times[0] + life < I64_LIMIT && Spaced(times[0], times[1..], gap, life)
  }

  /** A login at any time is followed by no expired call, as long as the calls are so spaced. */
  ghost predicate NeverLapses(life: nat, withIat: bool, gap: nat) {
    forall t: int, times: seq<int> ::
      0 <= t && t + life < I64_LIMIT && Spaced(t, times, gap, life) ==>
        Survives(Issued(t, life, withIat), times, life, withIat)
  }

  /** The longest gap between calls that a session of this lifetime stands. */
  function SafeGap(life: nat, withIat: bool): nat
    requires life >= 1
  {
    if withIat then life / 2 else Min(SIX_HOURS_SECS, life - 1)
  }

  lemma NoWrap(n: int)
    requires -I64_LIMIT <= n < I64_LIMIT
    ensures WrapI64(n) == n
  {
  }

  /** On a token issued at `issued`, what a call at `now` finds. */
  lemma CallFinds(issued: int, life: nat, withIat: bool, now: int)
    requires life >= 1 && 0 <= issued <= now < I64_LIMIT && issued + life < I64_LIMIT
    ensures Expired(Issued(issued, life, withIat), now) <==> now >= issued + life
    ensures RefreshRequired(Issued(issued, life, withIat), now) <==>
      now < issued + life <= now + if withIat then life / 2 else SIX_HOURS_SECS
  {
    NoWrap(issued + life - now);
    NoWrap(life);
    assert issued + life - issued == life;
  }

  lemma {:induction false} SafeFrom(issued: int, last: int, life: nat, withIat: bool, times: seq<int>, gap: nat)
    requires life >= 1 && gap <= SafeGap(life, withIat)
    requires 0 <= issued <= last && issued + life < I64_LIMIT
    requires last + gap < issued + life
    requires Spaced(last, times, gap, life)
    ensures Survives(Issued(issued, life, withIat), times, life, withIat)
    decreases |times|
  {
    if times != [] {
      var now := times[0];
      CallFinds(issued, life, withIat, now);
      if RefreshRequired(Issued(issued, life, withIat), now) {
        SafeFrom(now, now, life, withIat, times[1..], gap);
      } else {
        SafeFrom(issued, now, life, withIat, times[1..], gap);
      }
    }
  }

  function EverySecond(from: int, n: nat): seq<int>
    decreases n
  {
    if n == 0 then [] else [from + 1] + EverySecond(from + 1, n - 1)
  }

  /**
   Calls one second apart, up to just before the refresh threshold, leave the token as it is; a call
   one second more than the safe gap later finds it expired.
   */
  lemma {:induction false} QuietThenLate(issued: int, at: int, n: nat, life: nat, withIat: bool, gap: nat)
    requires life >= 1 && gap > SafeGap(life, withIat)
    requires 0 <= issued <= at && issued + 2 * life < I64_LIMIT
    requires at + n + SafeGap(life, withIat) + 1 == issued + life
    ensures Spaced(at, EverySecond(at, n) + [issued + life], gap, life)
    ensures !Survives(Issued(issued, life, withIat), EverySecond(at, n) + [issued + life], life, withIat)
    decreases n
  {
    var times := EverySecond(at, n) + [issued + life];
    CallFinds(issued, life, withIat, times[0]);
    if n > 0 {
      QuietThenLate(issued, at + 1, n - 1, life, withIat, gap);
      assert times[1..] == EverySecond(at + 1, n - 1) + [issued + life];
    } else {
      assert times[1..] == [];
    }
  }

  /**
   The session never lapses exactly when calls are spaced at most `SafeGap` apart: half the lifetime
   with an `iat` claim, else six hours or just under the lifetime, whichever is less.
   */
  lemma LapseBoundIsTight(life: nat, withIat: bool, gap: nat)
    requires life >= 1 && 2 * life < I64_LIMIT
    ensures NeverLapses(life, withIat, gap) <==> gap <= SafeGap(life, withIat)
  {
    if gap <= SafeGap(life, withIat) {
      forall t: int, times: seq<int> | 0 <= t && t + life < I64_LIMIT && Spaced(t, times, gap, life)
        ensures Survives(Issued(t, life, withIat), times, life, withIat)
      {
        SafeFrom(t, t, life, withIat, times, gap);
      }
    } else {
      var n := life - SafeGap(life, withIat) - 1;
      QuietThenLate(0, 0, n, life, withIat, gap);
      var times := EverySecond(0, n) + [0 + life];
      assert Spaced(0, times, gap, life) && !Survives(Issued(0, life, withIat), times, life, withIat);
    }
  }

  // ---- Refreshing stored credentials --------------------------------------

  datatype UserInfo = UserInfo(
    email: string,
    mnemonic: string,
    bucket: string,
    bridgeUser: string,
    userId: string,
    rootFolderId: string,
    eccPrivateKey: Option<string>,
    kyberPrivateKey: Option<string>
  )

  datatype Workspace = Workspace(
    id: string,
    name: string,
    token: string,
    bucket: string,
    networkUser: string,
    networkPass: string,
    mnemonic: string,
    rootFolderId: string
  )

  datatype Credentials = Credentials(token: string, user: UserInfo, workspace: Option<Workspace>)

  datatype WsReply = WsReply(tokenHeader: string, bucket: string, networkUser: string, networkPass: string)

  datatype SessionError = InvalidCredentials | SessionExpired | WorkspaceExpired(cause: Option<string>)

  /** The token parser, the mnemonic check, the clock and the server's answers. */
  datatype Env = Env(
    claims: string -> Option<Claims>,
    mnemonicOk: string -> bool,
    now: int,
    refreshToken: string -> Result<string, string>,
    refreshWorkspace: (string, string) -> Result<Option<WsReply>, string>
  ) {
    ghost predicate IsSane() {
      forall token :: claims(token).Some? ==> Sane(claims(token).value, now)
    }

    /** A token that parses and has not expired. */
    predicate Usable(token: string) {
      claims(token).Some? && !Expired(claims(token).value, now)
    }

    /** A workspace token is due when it does not parse, has expired, or is near its end. */
    predicate WsDue(token: string) {
      claims(token).None? || WsRefreshRequired(claims(token).value, now)
    }

    /** The warning for a refresh of the main token that was due and failed. */
    function TokenWarning(token: string): seq<string> {
      if claims(token).Some? && RefreshRequired(claims(token).value, now) && refreshToken(token).Err?
      then ["token refresh failed: " + refreshToken(token).error]
      else []
    }

    /** The warning for a refresh of the workspace that was due and failed, asked for with `token`. */
    function WorkspaceWarning(token: string, ws: Option<Workspace>): seq<string> {
      if ws.Some? && WsDue(ws.value.token) && refreshWorkspace(token, ws.value.id).Err?
      then ["workspace refresh failed: " + refreshWorkspace(token, ws.value.id).error]
      else []
    }
  }

  /** `w` is `was`, or `was` with the rotating fields taken from a reply fetched with `token`. */
  ghost predicate KeptOrFetched(env: Env, token: string, was: Workspace, w: Workspace) {
    || (w == was && env.Usable(was.token))
    || exists reply: WsReply ::
         && env.refreshWorkspace(token, was.id) == Ok(Some(reply))
         && w == was.(token := reply.tokenHeader, bucket := reply.bucket,
                      networkUser := reply.networkUser, networkPass := reply.networkPass)
  }

  /** The result of a refresh, from the claims and the server's answers. */
  ghost predicate RefreshedAs(env: Env, stored: Credentials, r: Result<(Credentials, bool), SessionError>) {
    var c := env.claims(stored.token);
    if c == None || !env.mnemonicOk(stored.user.mnemonic) then r == Err(InvalidCredentials)
    else if c.value.exp <= env.now then r == Err(SessionExpired)
    else
      var answer := env.refreshToken(stored.token);
      var renewed := HalfSpent(c.value, env.now) && answer.Ok?;
      var creds := if renewed then stored.(token := answer.value) else stored;
      match stored.workspace
      case None => r == Ok((creds, renewed))
      case Some(ws) =>
        var wc := env.claims(ws.token);
        var over := wc == None || wc.value.exp <= env.now;
        if !over && !HalfSpent(wc.value, env.now) then r == Ok((creds, renewed))
        else
          match env.refreshWorkspace(creds.token, ws.id)
          case Ok(Some(a)) =>
            var ws' := Workspace(ws.id, ws.name, a.tokenHeader, a.bucket, a.networkUser, a.networkPass, ws.mnemonic, ws.rootFolderId);
            r == Ok((Credentials(creds.token, stored.user, Some(ws')), true))
          case Ok(None) => if over then r == Err(WorkspaceExpired(None)) else r == Ok((creds, renewed))
          case Err(e) => if over then r == Err(WorkspaceExpired(Some(e))) else r == Ok((creds, renewed))
  }

  /**
   Refreshes the tokens that need it. Identity never changes; both tokens of an `Ok` result were
   fetched in this call or are unexpired; `changed` false means nothing changed. A warning is given
   for exactly the refreshes that were due, failed, and left a session that is still valid.
   */
  method RefreshCredentials(env: Env, stored: Credentials)
    returns (r: Result<(Credentials, bool), SessionError>, warnings: seq<string>)
    ensures env.IsSane() ==> RefreshedAs(env, stored, r)
    ensures r == Err(InvalidCredentials) <==> env.claims(stored.token).None? || !env.mnemonicOk(stored.user.mnemonic)
    ensures r == Err(SessionExpired) <==>
      env.claims(stored.token).Some? && env.mnemonicOk(stored.user.mnemonic) && !env.Usable(stored.token)
    ensures r.Err? && r.error.WorkspaceExpired? ==>
      && stored.workspace.Some? && !env.Usable(stored.workspace.value.token)
      && exists token ::
           && (token == stored.token || env.refreshToken(stored.token) == Ok(token))
           && var reply := env.refreshWorkspace(token, stored.workspace.value.id);
              reply == Ok(None) || reply.Err?
    ensures r.Err? ==>
      warnings == if r.error.WorkspaceExpired? then env.TokenWarning(stored.token) else []
    ensures r.Ok? ==>
      var (creds, changed) := r.value;
      && warnings == env.TokenWarning(stored.token) + env.WorkspaceWarning(creds.token, stored.workspace)
      && creds.user == stored.user
      && (creds.workspace.Some? <==> stored.workspace.Some?)
      && (!changed ==> creds == stored)
      && (changed <==>
            || (RefreshRequired(env.claims(stored.token).value, env.now) && env.refreshToken(stored.token).Ok?)
            || (stored.workspace.Some? && env.WsDue(stored.workspace.value.token)
                && env.refreshWorkspace(creds.token, stored.workspace.value.id).Ok?
                && env.refreshWorkspace(creds.token, stored.workspace.value.id).value.Some?))
      && (var reply := env.refreshToken(stored.token);
          if RefreshRequired(env.claims(stored.token).value, env.now) && reply.Ok? then changed && creds.token == reply.value
          else creds.token == stored.token)
      && (env.Usable(creds.token) || env.refreshToken(stored.token) == Ok(creds.token))
      && (stored.workspace.Some? ==>
            && KeptOrFetched(env, creds.token, stored.workspace.value, creds.workspace.value)
            && (!env.WsDue(stored.workspace.value.token) ==> creds.workspace == stored.workspace)
            && (var reply := env.refreshWorkspace(creds.token, stored.workspace.value.id);
                env.WsDue(stored.workspace.value.token) && reply.Ok? && reply.value.Some? ==>
                  changed && creds.workspace.value.token == reply.value.value.tokenHeader)
            && creds.workspace.value.(token := "", bucket := "", networkUser := "", networkPass := "")
               == stored.workspace.value.(token := "", bucket := "", networkUser := "", networkPass := ""))
  {
    if env.IsSane() {
      forall token | env.claims(token).Some?
        ensures var c := env.claims(token).value;
                && (Expired(c, env.now) <==> c.exp <= env.now)
                && (RefreshRequired(c, env.now) <==> HalfSpent(c, env.now))
      {
        DueIs(env.claims(token).value, env.now);
      }
    }
    var creds := stored;
    warnings := [];
    var claims := env.claims(creds.token);
    if claims.None? || !env.mnemonicOk(creds.user.mnemonic) {
      return Err(InvalidCredentials), warnings;
    }
    if Expired(claims.value, env.now) {
      return Err(SessionExpired), warnings;
    }
    var changed := false;
    if RefreshRequired(claims.value, env.now) {
      match env.refreshToken(creds.token) {
        case Ok(newToken) =>
          creds := creds.(token := newToken);
          changed := true;
        case Err(e) =>
          warnings := warnings + ["token refresh failed: " + e];
      }
    }
    if creds.workspace.Some? {
      var ws := creds.workspace.value;
      var wsClaims := env.claims(ws.token);
      var wsExpired := wsClaims.None? || Expired(wsClaims.value, env.now);
      var required := env.WsDue(ws.token);
      if required {
        match env.refreshWorkspace(creds.token, ws.id) {
          case Ok(Some(reply)) =>
            ws := ws.(token := reply.tokenHeader, bucket := reply.bucket,
                      networkUser := reply.networkUser, networkPass := reply.networkPass);
            creds := creds.(workspace := Some(ws));
            changed := true;
          case Ok(None) =>
            if wsExpired {
              return Err(WorkspaceExpired(None)), warnings;
            }
          case Err(e) =>
            if wsExpired {
              return Err(WorkspaceExpired(Some(e))), warnings;
            }
            warnings := warnings + ["workspace refresh failed: " + e];
        }
      }
    }
    r := Ok((creds, changed));
  }
}
