/** The operator gate of the http-gateway: the session endpoint and the `/operator` middleware. */
module OperatorAuth {
  import opened Options
  import opened Unicode
  import opened JsonText
  import opened OperatorToken

  datatype Config = Config(
    apiKey: Option<Text>, sessionSecret: Option<Text>, sessionEnforcement: bool,
    sessionTtlMs: int, sessionSkewMs: int, roleEnforcement: bool, defaultRole: Text,
    readRoles: set<Text>, mutationRoles: set<Text>, readActors: set<Text>, mutationActors: set<Text>)

  /** `Other` stands for OPTIONS and every other verb, which the gate takes for a mutation too. */
  datatype Method = Get | Head | Post | Put | Patch | Delete | Other

  /** A request as the gate reads it: the path below the mount point, four headers, the body's actor. */
  datatype Request = Request(
    httpMethod: Method, path: Text, keyHeader: Option<Text>, authorization: Option<Text>,
    actorHeader: Option<Text>, roleHeader: Option<Text>, bodyActor: Option<Text>)

  datatype AuthError =
    | AuthDisabled | SessionDisabled | AuthRequired | ActorForbidden | RoleForbidden
    | SessionInvalid | SessionNotYetValid | SessionExpired | SessionActorMismatch | SessionRoleMismatch
    | SessionRequired

  datatype Outcome =
    | Forwarded
    | Issued(token: Text, claims: Claims)
    | Refused(status: nat, error: AuthError)

  // ---- Header readers --------------------------------------------------------------------------

  predicate IsSpace(u: CodeUnit) {
    || 0x09 <= u <= 0x0D || 0x2000 <= u <= 0x200A
    || u in {0x20, 0xA0, 0x1680, 0x2028, 0x2029, 0x202F, 0x205F, 0x3000, 0xFEFF}
  }

  function TrimStart(t: Text): Text {
    if t != [] && IsSpace(t[0]) then TrimStart(t[1..]) else t
  }

  function TrimEnd(t: Text): Text {
    if t != [] && IsSpace(t[|t| - 1]) then TrimEnd(t[..|t| - 1]) else t
  }

  function Trim(t: Text): Text {
    TrimEnd(TrimStart(t))
  }

  predicate IsTrimmed(t: Text) {
    t != [] ==> !IsSpace(t[0]) && !IsSpace(t[|t| - 1])
  }

  lemma {:induction false} TrimStartTrims(t: Text)
    ensures TrimStart(t) != [] ==> !IsSpace(TrimStart(t)[0])
  {
    if t != [] && IsSpace(t[0]) { TrimStartTrims(t[1..]); }
  }

  lemma {:induction false} TrimEndTrims(t: Text)
    ensures TrimEnd(t) != [] ==> !IsSpace(TrimEnd(t)[|TrimEnd(t)| - 1]) && TrimEnd(t)[0] == t[0]
  {
    if t != [] && IsSpace(t[|t| - 1]) { TrimEndTrims(t[..|t| - 1]); }
  }

  lemma TrimTrims(t: Text)
    ensures IsTrimmed(Trim(t))
    ensures IsTrimmed(t) ==> Trim(t) == t
  {
    TrimStartTrims(t);
    TrimEndTrims(TrimStart(t));
  }

  /** `header?.trim() || fallback`. */
  function TrimmedOr(header: Option<Text>, fallback: Text): Text {
    match header
    case Some(t) => if Trim(t) != [] then Trim(t) else fallback
    case None => fallback
  }

  const BEARER: Text := [0x62, 0x65, 0x61, 0x72, 0x65, 0x72, 0x20]

  function AsciiLower(u: CodeUnit): CodeUnit {
    if 0x41 <= u <= 0x5A then u + 0x20 else u
  }

  predicate StartsBearer(t: Text) {
    |t| >= 7 && forall i :: 0 <= i < 7 ==> AsciiLower(t[i]) == BEARER[i]
  }

  /** The scheme is read in any case and ends with one blank. */
  lemma BearerInAnyCase(t: Text)
    ensures StartsBearer(t) <==>
      && |t| >= 7
      && t[0] in {0x42, 0x62} && t[1] in {0x45, 0x65} && t[2] in {0x41, 0x61} && t[3] in {0x52, 0x72}
      && t[4] in {0x45, 0x65} && t[5] in {0x52, 0x72} && t[6] == 0x20
  {
    if |t| >= 7 {
      assert StartsBearer(t) <==> (
        && AsciiLower(t[0]) == BEARER[0] && AsciiLower(t[1]) == BEARER[1] && AsciiLower(t[2]) == BEARER[2]
        && AsciiLower(t[3]) == BEARER[3] && AsciiLower(t[4]) == BEARER[4] && AsciiLower(t[5]) == BEARER[5]
        && AsciiLower(t[6]) == BEARER[6]);
    }
  }

  function BearerValue(req: Request): Option<Text> {
    match req.authorization
    case Some(a) => if StartsBearer(Trim(a)) then Some(Trim(Trim(a)[7..])) else None
    case None => None
  }

  function ReadCredential(req: Request): Option<Text> {
    var key := TrimmedOr(req.keyHeader, []);
    if key != [] then Some(key) else BearerValue(req)
  }

  function ReadSession(req: Request): Option<Text> {
    match BearerValue(req)
    case Some(t) => if HasPrefix(t, OST + [DOT]) then Some(t) else None
    case None => None
  }

  /** "http-gateway". */
  const GATEWAY_ACTOR: Text := [0x68, 0x74, 0x74, 0x70, 0x2D, 0x67, 0x61, 0x74, 0x65, 0x77, 0x61, 0x79]

  function ReadActor(req: Request): Text {
    TrimmedOr(req.actorHeader, TrimmedOr(req.bodyActor, GATEWAY_ACTOR))
  }

  function ReadRole(cfg: Config, req: Request): Text {
    TrimmedOr(req.roleHeader, cfg.defaultRole)
  }

  // ---- What the readers read -------------------------------------------------------------------

  predicate IsBlank(t: Text) {
    forall i :: 0 <= i < |t| ==> IsSpace(t[i])
  }

  /** Trimming cuts white space off both ends and nothing else. */
  lemma TrimExactly(t: Text) returns (i: nat, j: nat)
    ensures i <= j <= |t| && Trim(t) == t[i..j] && IsBlank(t[..i]) && IsBlank(t[j..])
    ensures Trim(t) == [] <==> IsBlank(t)
  {
    i := TrimStartExactly(t);
    var k := TrimEndExactly(t[i..]);
    j := i + k;
    assert t[i..][..k] == t[i..j] && t[i..][k..] == t[j..];
    TrimTrims(t);
    if Trim(t) == [] {
      assert t == t[..i] + t[j..];
    } else {
      assert t[i] == Trim(t)[0] && !IsSpace(t[i]);
    }
  }

  lemma {:induction false} TrimStartExactly(t: Text) returns (i: nat)
    ensures i <= |t| && TrimStart(t) == t[i..] && IsBlank(t[..i])
  {
    i := 0;
    if t != [] && IsSpace(t[0]) {
      var k := TrimStartExactly(t[1..]);
      i := k + 1;
      assert t[..i] == [t[0]] + t[1..][..k];
    }
  }

  lemma {:induction false} TrimEndExactly(t: Text) returns (j: nat)
    ensures j <= |t| && TrimEnd(t) == t[..j] && IsBlank(t[j..])
  {
    j := |t|;
    if t != [] && IsSpace(t[|t| - 1]) {
      var u := t[..|t| - 1];
      j := TrimEndExactly(u);
      assert t[j..] == u[j..] + [t[|t| - 1]] && t[..j] == u[..j];
    }
  }

  /** A header that says something. */
  predicate Says(header: Option<Text>) {
    header.Some? && !IsBlank(header.value)
  }

  /** The actor is the header's if it says something, whatever the body says; or else the body's if that
      says something; or else the gateway's own name. */
  lemma ActorComesFrom(req: Request)
    ensures Says(req.actorHeader) ==> ReadActor(req) == Trim(req.actorHeader.value)
    ensures !Says(req.actorHeader) && Says(req.bodyActor) ==> ReadActor(req) == Trim(req.bodyActor.value)
    ensures !Says(req.actorHeader) && !Says(req.bodyActor) ==> ReadActor(req) == GATEWAY_ACTOR
  {
    if req.actorHeader.Some? { var i, j := TrimExactly(req.actorHeader.value); }
    if req.bodyActor.Some? { var i, j := TrimExactly(req.bodyActor.value); }
  }

  lemma RoleComesFrom(cfg: Config, req: Request)
    ensures ReadRole(cfg, req) == if Says(req.roleHeader) then Trim(req.roleHeader.value) else cfg.defaultRole
  {
    if req.roleHeader.Some? { var i, j := TrimExactly(req.roleHeader.value); }
  }

  /** A key header that says something is the credential, whatever the bearer says. */
  lemma CredentialComesFrom(req: Request)
    ensures Says(req.keyHeader) ==> ReadCredential(req) == Some(Trim(req.keyHeader.value))
    ensures !Says(req.keyHeader) ==> ReadCredential(req) == BearerValue(req)
    ensures ReadSession(req).Some? ==> ReadSession(req) == BearerValue(req)
  {
    if req.keyHeader.Some? { var i, j := TrimExactly(req.keyHeader.value); }
  }

  lemma ActorIsNamed(req: Request)
    ensures ReadActor(req) != [] && IsTrimmed(ReadActor(req)) && Trim(ReadActor(req)) == ReadActor(req)
  {
    if req.actorHeader.Some? { TrimTrims(req.actorHeader.value); }
    if req.bodyActor.Some? { TrimTrims(req.bodyActor.value); }
    TrimTrims(ReadActor(req));
  }

  // ---- Access lists ----------------------------------------------------------------------------

  predicate IsRead(m: Method) {
    m == Get || m == Head
  }

  predicate ActorAllowed(cfg: Config, m: Method, actor: Text) {
    var actors := if IsRead(m) then cfg.readActors else cfg.mutationActors;
    |actors| > 0 ==> actor in actors
  }

  predicate RoleAllowed(cfg: Config, m: Method, role: Text) {
    role in (if IsRead(m) then cfg.readRoles else cfg.mutationRoles)
  }

  predicate Allowed(cfg: Config, m: Method, actor: Text, role: Text) {
    ActorAllowed(cfg, m, actor) && (cfg.roleEnforcement ==> RoleAllowed(cfg, m, role))
  }

  /** GET and HEAD go by the read lists and every other verb by the mutation lists.  An empty actor list
      admits every actor; role lists count only under role enforcement, and an empty one admits no role. */
  lemma AllowedExactly(cfg: Config, m: Method, actor: Text, role: Text)
    ensures m in {Get, Head} ==>
      (Allowed(cfg, m, actor, role) <==>
        (cfg.readActors == {} || actor in cfg.readActors) && (!cfg.roleEnforcement || role in cfg.readRoles))
    ensures m !in {Get, Head} ==>
      (Allowed(cfg, m, actor, role) <==>
        (cfg.mutationActors == {} || actor in cfg.mutationActors)
        && (!cfg.roleEnforcement || role in cfg.mutationRoles))
  {
  }

  // ---- What the gate promises ------------------------------------------------------------------

  predicate IsSet(key: Option<Text>) {
    key.Some? && key.value != []
  }

  function ClaimsFor(cfg: Config, pf: Platform, req: Request, now: int, sessionId: Text): Claims {
    Claims(ReadActor(req), ReadRole(cfg, req), pf.isoDate(now), pf.isoDate(now + cfg.sessionTtlMs), sessionId)
  }

  /** Who may obtain a session. */
  predicate MayIssue(cfg: Config, req: Request) {
    && IsSet(cfg.apiKey) && IsSet(cfg.sessionSecret)
    && ReadCredential(req) == cfg.apiKey
    && Allowed(cfg, req.httpMethod, ReadActor(req), ReadRole(cfg, req))
  }

  /** The time check of a session. */
  predicate InWindow(cfg: Config, pf: Platform, c: Claims, now: int) {
    && pf.parseDate(c.issuedAt).Some? && pf.parseDate(c.expiresAt).Some?
    && pf.parseDate(c.issuedAt).value - cfg.sessionSkewMs <= now <= pf.parseDate(c.expiresAt).value + cfg.sessionSkewMs
  }

  predicate Matches(cfg: Config, req: Request, c: Claims) {
    && ReadActor(req) == c.actor
    && (ReadRole(cfg, req) == [] || ReadRole(cfg, req) == c.role)
  }

  /** When a request carrying a session token is let through. */
  predicate SessionAdmits(cfg: Config, pf: Platform, req: Request, token: Text, now: int) {
    match ParseToken(pf, cfg.sessionSecret, token)
    case None => false
    case Some(c) => InWindow(cfg, pf, c, now) && Matches(cfg, req, c) && Allowed(cfg, req.httpMethod, c.actor, c.role)
  }

  /** "/auth/session", the one path that may pass on the raw key under session enforcement. */
  const SESSION_PATH: Text := [0x2F, 0x61, 0x75, 0x74, 0x68, 0x2F, 0x73, 0x65, 0x73, 0x73, 0x69, 0x6F, 0x6E]

  predicate KeyAdmits(cfg: Config, req: Request) {
    && (cfg.sessionEnforcement ==> req.path == SESSION_PATH)
    && ReadCredential(req) == cfg.apiKey
    && Allowed(cfg, req.httpMethod, ReadActor(req), ReadRole(cfg, req))
  }

  /** Exactly which requests reach the handlers behind the gate. */
  predicate Admits(cfg: Config, pf: Platform, req: Request, now: int) {
    || !IsSet(cfg.apiKey)
    || match ReadSession(req)
       case Some(token) => SessionAdmits(cfg, pf, req, token, now)
       case None => KeyAdmits(cfg, req)
  }

  // ---- The order of the checks -----------------------------------------------------------------

  /** The first thing wrong with a session, if anything. */
  function ClaimsError(cfg: Config, pf: Platform, c: Claims, req: Request, now: int): Option<AuthError> {
    if pf.parseDate(c.issuedAt) == None || pf.parseDate(c.expiresAt) == None then Some(SessionInvalid)
    else if now < pf.parseDate(c.issuedAt).value - cfg.sessionSkewMs then Some(SessionNotYetValid)
    else if pf.parseDate(c.expiresAt).value + cfg.sessionSkewMs < now then Some(SessionExpired)
    else if ReadActor(req) != c.actor then Some(SessionActorMismatch)
    else if ReadRole(cfg, req) != [] && ReadRole(cfg, req) != c.role then Some(SessionRoleMismatch)
    else None
  }

  function ListsOutcome(cfg: Config, m: Method, actor: Text, role: Text): Outcome {
    if !ActorAllowed(cfg, m, actor) then Refused(403, ActorForbidden)
    else if !Allowed(cfg, m, actor, role) then Refused(403, RoleForbidden)
    else Forwarded
  }

  function SessionOutcome(cfg: Config, pf: Platform, req: Request, token: Text, now: int): Outcome {
    match ParseToken(pf, cfg.sessionSecret, token)
    case None => Refused(401, SessionInvalid)
    case Some(c) =>
      match ClaimsError(cfg, pf, c, req, now)
      case Some(error) => Refused(401, error)
      case None => ListsOutcome(cfg, req.httpMethod, c.actor, c.role)
  }

  function KeyOutcome(cfg: Config, req: Request): Outcome {
    if cfg.sessionEnforcement && req.path != SESSION_PATH then Refused(401, SessionRequired)
    else if ReadCredential(req) != cfg.apiKey then Refused(401, AuthRequired)
    else ListsOutcome(cfg, req.httpMethod, ReadActor(req), ReadRole(cfg, req))
  }

  function GateOutcome(cfg: Config, pf: Platform, req: Request, now: int): Outcome {
    if !IsSet(cfg.apiKey) then Forwarded
    else
      match ReadSession(req)
      case Some(token) => SessionOutcome(cfg, pf, req, token, now)
      case None => KeyOutcome(cfg, req)
  }

  function EndpointOutcome(cfg: Config, pf: Platform, req: Request, now: int, sessionId: Text): Outcome {
    if !IsSet(cfg.apiKey) then Refused(503, AuthDisabled)
    else if !IsSet(cfg.sessionSecret) then Refused(503, SessionDisabled)
    else if ReadCredential(req) != cfg.apiKey then Refused(401, AuthRequired)
    else
      match ListsOutcome(cfg, req.httpMethod, ReadActor(req), ReadRole(cfg, req))
      case Refused(status, error) => Refused(status, error)
      case _ =>
        var c := ClaimsFor(cfg, pf, req, now, sessionId);
        Issued(CreateToken(pf, c), c)
  }

  lemma ClaimsErrorNone(cfg: Config, pf: Platform, c: Claims, req: Request, now: int)
    ensures ClaimsError(cfg, pf, c, req, now) == None <==> InWindow(cfg, pf, c, now) && Matches(cfg, req, c)
  {
  }

  /** An empty key is no key, and an empty secret no secret: without a key the gate is open and no session
      is issued, and without a secret none is issued or admitted. */
  lemma EmptyIsUnset(cfg: Config, pf: Platform, req: Request, now: int, sessionId: Text)
    ensures cfg.apiKey.GetOr([]) == [] ==>
      GateOutcome(cfg, pf, req, now) == Forwarded
      && EndpointOutcome(cfg, pf, req, now, sessionId) == Refused(503, AuthDisabled)
    ensures cfg.apiKey.Some? && cfg.apiKey.value != [] && cfg.sessionSecret.GetOr([]) == [] ==>
      EndpointOutcome(cfg, pf, req, now, sessionId) == Refused(503, SessionDisabled)
      && (ReadSession(req).Some? ==> GateOutcome(cfg, pf, req, now) == Refused(401, SessionInvalid))
  {
  }

  /** The gate forwards a request exactly when the gate's promise admits it. */
  lemma GateForwards(cfg: Config, pf: Platform, req: Request, now: int)
    ensures GateOutcome(cfg, pf, req, now) == Forwarded <==> Admits(cfg, pf, req, now)
  {
    match ReadSession(req)
    case Some(token) =>
      match ParseToken(pf, cfg.sessionSecret, token) {
        case Some(c) => ClaimsErrorNone(cfg, pf, c, req, now);
        case None =>
      }
    case None =>
  }

  /** A session is issued exactly to a caller with the right key whom the lists of the method admit. */
  lemma EndpointIssues(cfg: Config, pf: Platform, req: Request, now: int, sessionId: Text)
    ensures EndpointOutcome(cfg, pf, req, now, sessionId).Issued? <==> MayIssue(cfg, req)
    ensures var c := ClaimsFor(cfg, pf, req, now, sessionId);
      MayIssue(cfg, req) ==> EndpointOutcome(cfg, pf, req, now, sessionId) == Issued(CreateToken(pf, c), c)
  {
  }

  // ---- The handlers ----------------------------------------------------------------------------

  /** One Express exchange: the handler answers or calls `next`, once. */
  class Exchange {
    var outcome: Option<Outcome>

    constructor ()
      ensures outcome == None
    {
      outcome := None;
    }

    method Next()
      requires outcome == None
      modifies this
      ensures outcome == Some(Forwarded)
    {
      outcome := Some(Forwarded);
    }

    method Refuse(status: nat, error: AuthError)
      requires outcome == None
      modifies this
      ensures outcome == Some(Refused(status, error))
    {
      outcome := Some(Refused(status, error));
    }

    method Json(token: Text, claims: Claims)
      requires outcome == None
      modifies this
      ensures outcome == Some(Issued(token, claims))
    {
      outcome := Some(Issued(token, claims));
    }
  }

  /** POST /operator/auth/session. */
  method SessionEndpoint(cfg: Config, pf: Platform, req: Request, now: int, sessionId: Text, res: Exchange)
    requires res.outcome == None
    modifies res
    ensures res.outcome == Some(EndpointOutcome(cfg, pf, req, now, sessionId))
  {
    if !IsSet(cfg.apiKey) {
      res.Refuse(503, AuthDisabled);
      return;
    }
    if !IsSet(cfg.sessionSecret) {
      res.Refuse(503, SessionDisabled);
      return;
    }
    var credential := ReadCredential(req);
    if credential != cfg.apiKey {
      res.Refuse(401, AuthRequired);
      return;
    }
    ActorIsNamed(req);
    var actor := Trim(ReadActor(req));
    var role := ReadRole(cfg, req);
    var allowedActors := if IsRead(req.httpMethod) then cfg.readActors else cfg.mutationActors;
    if |allowedActors| > 0 && actor !in allowedActors {
      res.Refuse(403, ActorForbidden);
      return;
    }
    var allowedRoles := if IsRead(req.httpMethod) then cfg.readRoles else cfg.mutationRoles;
    if cfg.roleEnforcement && role !in allowedRoles {
      res.Refuse(403, RoleForbidden);
      return;
    }
    var expiresAt := now + cfg.sessionTtlMs;
    var claims := Claims(actor, role, pf.isoDate(now), pf.isoDate(expiresAt), sessionId);
    assert claims == ClaimsFor(cfg, pf, req, now, sessionId);
    res.Json(CreateToken(pf, claims), claims);
  }

  /** `validateSessionClaims`: None when the session may be used for the request. */
  method ValidateClaims(cfg: Config, pf: Platform, claims: Claims, req: Request, now: int)
    returns (error: Option<AuthError>)
    ensures error == ClaimsError(cfg, pf, claims, req, now)
    ensures error == None <==> InWindow(cfg, pf, claims, now) && Matches(cfg, req, claims)
  {
    ClaimsErrorNone(cfg, pf, claims, req, now);
    var issuedAt := pf.parseDate(claims.issuedAt);
    var expiresAt := pf.parseDate(claims.expiresAt);
    if issuedAt == None || expiresAt == None {
      return Some(SessionInvalid);
    }
    if issuedAt.value - cfg.sessionSkewMs > now {
      return Some(SessionNotYetValid);
    }
    if expiresAt.value + cfg.sessionSkewMs < now {
      return Some(SessionExpired);
    }
    ActorIsNamed(req);
    var actor := Trim(ReadActor(req));
    if actor != [] && actor != claims.actor {
      return Some(SessionActorMismatch);
    }
    var role := ReadRole(cfg, req);
    if role != [] && role != claims.role {
      return Some(SessionRoleMismatch);
    }
    return None;
  }

  /** The gate before every `/operator` handler. */
  method Middleware(cfg: Config, pf: Platform, req: Request, now: int, res: Exchange)
    requires res.outcome == None
    modifies res
    ensures res.outcome == Some(GateOutcome(cfg, pf, req, now))
  {
    if !IsSet(cfg.apiKey) {
      res.Next();
      return;
    }
    var sessionToken := ReadSession(req);
    if sessionToken.Some? {
      var claims := ParseToken(pf, cfg.sessionSecret, sessionToken.value);
      if claims == None {
        res.Refuse(401, SessionInvalid);
        return;
      }
      var c := claims.value;
      var error := ValidateClaims(cfg, pf, c, req, now);
      if error.Some? {
        res.Refuse(401, error.value);
        return;
      }
      var allowedActors := if IsRead(req.httpMethod) then cfg.readActors else cfg.mutationActors;
      if |allowedActors| > 0 && c.actor !in allowedActors {
        res.Refuse(403, ActorForbidden);
        return;
      }
      if cfg.roleEnforcement {
        var allowedRoles := if IsRead(req.httpMethod) then cfg.readRoles else cfg.mutationRoles;
        if c.role !in allowedRoles {
          res.Refuse(403, RoleForbidden);
          return;
        }
      }
      res.Next();
      return;
    }
    if cfg.sessionEnforcement && req.path != SESSION_PATH {
      res.Refuse(401, SessionRequired);
      return;
    }
    var credential := ReadCredential(req);
    if credential == cfg.apiKey {
      ActorIsNamed(req);
      var actor := Trim(ReadActor(req));
      var allowedActors := if IsRead(req.httpMethod) then cfg.readActors else cfg.mutationActors;
      if |allowedActors| > 0 && actor !in allowedActors {
        res.Refuse(403, ActorForbidden);
        return;
      }
      if !cfg.roleEnforcement {
        res.Next();
        return;
      }
      var role := ReadRole(cfg, req);
      var allowedRoles := if IsRead(req.httpMethod) then cfg.readRoles else cfg.mutationRoles;
      if role in allowedRoles {
        res.Next();
        return;
      }
      res.Refuse(403, RoleForbidden);
      return;
    }
    res.Refuse(401, AuthRequired);
  }
}
