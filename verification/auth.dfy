/** Token authentication of MCP clients: a token table keyed by token, an audit
    log that receives one entry per validation attempt, and the per-user
    statistics read from both. The two tables live in PostgreSQL; here they are
    the fields of the authenticator. Time is integer seconds supplied by the
    caller. */
module Auth {
  import opened Common

  /** A stored timestamp with the two renderings the messages use: `str()` of the
      datetime and its `%Y-%m-%d` date. */
  datatype Instant = Instant(seconds: int, display: string, date: string)

  /** A row of `mcp_auth_tokens`. */
  datatype TokenRow = TokenRow(userId: string, enabled: bool, expiresAt: Option<Instant>,
                               permissions: seq<string>, displayName: Option<string>,
                               lastUsedAt: Option<int>)

  /** A row of `mcp_auth_audit_log`; `at` is the column's default, the time of the
      insert. */
  datatype AuditEntry = AuditEntry(token: string, userId: string, action: string, success: bool,
                                   message: string, ip: Option<string>, userAgent: Option<string>, at: int)

  /** The dictionary `validate_token` returns. */
  datatype AuthResult =
    | Granted(userId: string, permissions: seq<string>, displayName: Option<string>)
    | Refused(error: string)

  /** A database error raised inside `validate_token`: by the token lookup, or by
      the `last_used_at` update once every check has passed. */
  datatype Fault = NoFault | LookupFails(reason: string) | UpdateFails(reason: string)

  const LOGIN := "login"
  const DENIED := "denied"
  const EXPIRED := "expired"
  const ERROR := "error"

  const INVALID_TOKEN := "Invalid authentication token." + " Please check your MEM0_TOKEN environment variable."
  const TOKEN_DISABLED := "This token has been disabled. Contact your administrator."
  const SYSTEM_ERROR := "Authentication system error." + " Please try again or contact support."

  function ExpiredError(expiry: Instant): string {
    "Token expired on " + expiry.date + ". Please request a new token from your administrator."
  }

  function MismatchError(owner: string, given: string): string {
    "User ID mismatch. This token belongs to '" + owner + "', but you provided '" + given
      + "'. Please check your MEM0_USER_ID environment variable."
  }

  /** `row['expires_at'] and datetime.utcnow() > row['expires_at']`: a token
      without expiry never expires, and one expiring at `now` is still good. */
  predicate Expired(row: TokenRow, now: int) {
    row.expiresAt.Some? && now > row.expiresAt.value.seconds
  }

  /** What one call decides: the result, and the audit entry's action, message and
      success flag. */
  datatype Verdict = Verdict(result: AuthResult, action: string, message: string, success: bool)

  // The verdicts of the individual checks, as `validate_token` builds them.
  const INVALID := Verdict(Refused(INVALID_TOKEN), DENIED, "Invalid token", false)
  const DISABLED := Verdict(Refused(TOKEN_DISABLED), DENIED, "Token disabled", false)

  function ExpiredVerdict(expiry: Instant): Verdict {
    Verdict(Refused(ExpiredError(expiry)), EXPIRED, "Token expired on " + expiry.display, false)
  }

  function MismatchVerdict(owner: string, given: string): Verdict {
    Verdict(Refused(MismatchError(owner, given)), DENIED, "User ID mismatch. Expected: " + owner + ", Got: " + given, false)
  }

  function GrantedVerdict(row: TokenRow): Verdict {
    Verdict(Granted(row.userId, row.permissions, row.displayName), LOGIN, "Authentication successful", true)
  }

  function SystemErrorVerdict(reason: string): Verdict {
    Verdict(Refused(SYSTEM_ERROR), ERROR, "System error: " + reason, false)
  }

  /** The checks of `validate_token` in their order: the token exists, is enabled,
      has not expired, and belongs to `userId`. The first that fails decides. */
  function Check(tokens: map<string, TokenRow>, token: string, userId: string, now: int): (v: Verdict)
    ensures v.success <==> v.result.Granted?
    ensures v.result.Granted? <==>
      token in tokens && tokens[token].enabled && !Expired(tokens[token], now) && tokens[token].userId == userId
    ensures v.result.Granted? ==>
      v.result == Granted(userId, tokens[token].permissions, tokens[token].displayName)
      && v.action == LOGIN
    ensures v.result.Refused? ==> v.action in {DENIED, EXPIRED}
  {
    if token !in tokens then INVALID
    else
      var row := tokens[token];
      if !row.enabled then DISABLED
      else if Expired(row, now) then ExpiredVerdict(row.expiresAt.value)
      else if row.userId != userId then MismatchVerdict(row.userId, userId)
      else GrantedVerdict(row)
  }

  /** The verdict once a database error is taken into account: any error turns
      the call into a system error, logged with the action "error". */
  function Outcome(tokens: map<string, TokenRow>, token: string, userId: string, now: int, fault: Fault): (v: Verdict)
    ensures v.success <==> v.result.Granted?
    ensures v.action == LOGIN <==> v.success
    ensures v.result.Granted? <==> fault.NoFault? && Check(tokens, token, userId, now).result.Granted?
    ensures fault.LookupFails? ==> v == SystemErrorVerdict(fault.reason)
  {
    var v := Check(tokens, token, userId, now);
    match fault
    case NoFault => v
    case LookupFails(e) => SystemErrorVerdict(e)
    case UpdateFails(e) => if v.success then SystemErrorVerdict(e) else v
  }

  /** The check order: a missing token is reported as such whatever else holds; a
      disabled token as disabled even when it has also expired or belongs to
      someone else; an expired token as expired even when the user differs. */
  lemma CheckOrder(tokens: map<string, TokenRow>, token: string, userId: string, now: int)
    ensures token !in tokens ==> Check(tokens, token, userId, now) == INVALID
    ensures token in tokens && !tokens[token].enabled ==>
      Check(tokens, token, userId, now).result == Refused(TOKEN_DISABLED)
    ensures token in tokens && tokens[token].enabled && Expired(tokens[token], now) ==>
      Check(tokens, token, userId, now).result == Refused(ExpiredError(tokens[token].expiresAt.value))
      && Check(tokens, token, userId, now).action == EXPIRED
    ensures token in tokens && tokens[token].enabled && !Expired(tokens[token], now) && tokens[token].userId != userId ==>
      Check(tokens, token, userId, now).result == Refused(MismatchError(tokens[token].userId, userId))
  {
  }

  /** The token table after a call: only a fully successful call touches it, and
      then only the `last_used_at` of the token presented. */
  function TokensAfter(tokens: map<string, TokenRow>, token: string, userId: string, now: int, fault: Fault): (r: map<string, TokenRow>)
    ensures r.Keys == tokens.Keys
    ensures forall t :: t in tokens && t != token ==> r[t] == tokens[t]
    ensures !Outcome(tokens, token, userId, now, fault).success ==> r == tokens
    ensures Outcome(tokens, token, userId, now, fault).success ==> r[token] == tokens[token].(lastUsedAt := Some(now))
  {
    if Outcome(tokens, token, userId, now, fault).success then tokens[token := tokens[token].(lastUsedAt := Some(now))]
    else tokens
  }

  const THIRTY_DAYS := 30 * 86400

  /** `action = 'login' AND timestamp > NOW() - INTERVAL '30 days'` for `userId`. */
  predicate RecentLogin(e: AuditEntry, userId: string, now: int) {
    e.userId == userId && e.action == LOGIN && e.at > now - THIRTY_DAYS
  }

  /** `get_user_stats(user_id)` without `last_activity`. `SUM(CASE ...)` over no
      row is NULL, so `active` is absent for a user without tokens. */
  datatype UserStats = UserStats(userId: string, totalTokens: nat, activeTokens: Option<nat>, logins30d: nat)

  function TokensOf(tokens: map<string, TokenRow>, userId: string): set<string> {
    set t | t in tokens && tokens[t].userId == userId
  }

  function EnabledTokensOf(tokens: map<string, TokenRow>, userId: string): set<string> {
    set t | t in tokens && tokens[t].userId == userId && tokens[t].enabled
  }

  /** `COUNT(*)` of the audit query: the user's logins in the 30 days before `now`. */
  function RecentLogins(audit: seq<AuditEntry>, userId: string, now: int): nat {
    CountWhere(audit, (e: AuditEntry) => RecentLogin(e, userId, now))
  }

  function Stats(tokens: map<string, TokenRow>, audit: seq<AuditEntry>, userId: string, now: int): (r: UserStats)
    ensures r.userId == userId
    ensures r.totalTokens == |TokensOf(tokens, userId)|
    ensures r.activeTokens.None? <==> r.totalTokens == 0
    ensures r.activeTokens.Some? ==> r.activeTokens.value == |EnabledTokensOf(tokens, userId)| <= r.totalTokens
    ensures r.logins30d == RecentLogins(audit, userId, now) <= |audit|
    ensures r.totalTokens == 0 <==> forall t :: t in tokens ==> tokens[t].userId != userId
  {
    var all := TokensOf(tokens, userId);
    var enabled := EnabledTokensOf(tokens, userId);
    assert enabled <= all;
    SubsetCardStrings(enabled, all);
    if all == {} then
      assert forall t :: t in tokens ==> t !in all;
      UserStats(userId, 0, None, RecentLogins(audit, userId, now))
    else
      UserStats(userId, |all|, Some(|enabled|), RecentLogins(audit, userId, now))
  }

  lemma SubsetCardStrings(a: set<string>, b: set<string>)
    requires a <= b
    ensures |a| <= |b|
  {
    if a != {} {
      var x :| x in a;
      SubsetCardStrings(a - {x}, b - {x});
    }
  }

  lemma CountWhereSnoc<T>(s: seq<T>, x: T, p: T -> bool)
    ensures CountWhere(s + [x], p) == CountWhere(s, p) + (if p(x) then 1 else 0)
  {
    assert (s + [x])[..|s|] == s;
  }

  class TokenAuthenticator {
    /** `mcp_auth_tokens`, keyed by token. */
    var tokens: map<string, TokenRow>
    /** `mcp_auth_audit_log`, oldest first. */
    var audit: seq<AuditEntry>

    constructor (initial: map<string, TokenRow>, log: seq<AuditEntry>)
      ensures tokens == initial && audit == log
    {
      tokens := initial;
      audit := log;
    }

    /** `_log_auth_attempt`: one insert into the audit log. A failing insert
        (`insertFails`) is swallowed: the log stays as it was and nothing else
        changes. */
    method LogAuthAttempt(entry: AuditEntry, insertFails: bool)
      modifies this
      ensures tokens == old(tokens)
      ensures audit == if insertFails then old(audit) else old(audit) + [entry]
    {
      if !insertFails {
        audit := audit + [entry];
      }
    }

    /** The checks of `validate_token`, in its order, up to the `last_used_at`
        update: the verdict of the call. */
    method Decide(token: string, userId: string, now: int, fault: Fault) returns (v: Verdict)
      ensures v == Outcome(tokens, token, userId, now, fault)
    {
      if fault.LookupFails? {
        return SystemErrorVerdict(fault.reason);
      }
      if token !in tokens {
        return INVALID;
      }
      var row := tokens[token];
      if !row.enabled {
        return DISABLED;
      }
      if row.expiresAt.Some? && now > row.expiresAt.value.seconds {
        return ExpiredVerdict(row.expiresAt.value);
      }
      if row.userId != userId {
        return MismatchVerdict(row.userId, userId);
      }
      if fault.UpdateFails? {
        return SystemErrorVerdict(fault.reason);
      }
      return GrantedVerdict(row);
    }

    /** `validate_token(token, user_id, client_ip, user_agent)` at time `now`.
        `fault` is the database error the call runs into, if any, and
        `insertFails` whether the audit insert fails. */
    method ValidateToken(token: string, userId: string, clientIp: Option<string>, userAgent: Option<string>,
                         now: int, fault: Fault, insertFails: bool) returns (r: AuthResult)
      modifies this
      ensures var v := Outcome(old(tokens), token, userId, now, fault);
        && r == v.result
        && audit == old(audit) + (if insertFails then [] else
                                   [AuditEntry(token, userId, v.action, v.success, v.message, clientIp, userAgent, now)])
      ensures tokens == TokensAfter(old(tokens), token, userId, now, fault)
    {
      var v := Decide(token, userId, now, fault);
      if v.success {
        tokens := tokens[token := tokens[token].(lastUsedAt := Some(now))];
      }
      LogAuthAttempt(AuditEntry(token, userId, v.action, v.success, v.message, clientIp, userAgent, now), insertFails);
      r := v.result;
    }

    /** `get_user_stats(user_id)` at time `now`. */
    function GetUserStats(userId: string, now: int): (r: UserStats)
      reads this
      ensures r.userId == userId
      ensures r.totalTokens == |TokensOf(tokens, userId)|
      ensures r.activeTokens == if r.totalTokens == 0 then None else Some(|EnabledTokensOf(tokens, userId)|)
      ensures r.logins30d == RecentLogins(audit, userId, now)
    {
      Stats(tokens, audit, userId, now)
    }
  }

  /** A successful validation leaves the user's token counts as they were and
      adds one to the logins of the last 30 days (when the audit insert works); a
      refused one adds no login. */
  lemma StatsAfterValidation(tokens: map<string, TokenRow>, audit: seq<AuditEntry>, token: string, userId: string,
                             now: int, fault: Fault, ip: Option<string>, ua: Option<string>)
    ensures var v := Outcome(tokens, token, userId, now, fault);
      var after := Stats(TokensAfter(tokens, token, userId, now, fault),
                         audit + [AuditEntry(token, userId, v.action, v.success, v.message, ip, ua, now)], userId, now);
      var before := Stats(tokens, audit, userId, now);
      && after.totalTokens == before.totalTokens
      && after.activeTokens == before.activeTokens
      && after.logins30d == before.logins30d + (if v.success then 1 else 0)
  {
    var v := Outcome(tokens, token, userId, now, fault);
    var t2 := TokensAfter(tokens, token, userId, now, fault);
    assert TokensOf(t2, userId) == TokensOf(tokens, userId);
    assert EnabledTokensOf(t2, userId) == EnabledTokensOf(tokens, userId);
    var e := AuditEntry(token, userId, v.action, v.success, v.message, ip, ua, now);
    CountWhereSnoc(audit, e, (x: AuditEntry) => RecentLogin(x, userId, now));
    assert RecentLogins(audit + [e], userId, now) == RecentLogins(audit, userId, now) + (if v.success then 1 else 0);
    assert RecentLogin(e, userId, now) <==> v.success;
  }
}
