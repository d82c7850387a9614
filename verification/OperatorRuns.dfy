/** Runs of the operator gate: what a session that is let through says about the past, and when an
    issued session keeps working. */
module OperatorRuns {
  import opened Options
  import opened Unicode
  import opened JsonText
  import opened OperatorToken
  import opened OperatorAuth
  import Base64Url

  /** A call of the session endpoint, or a request at the gate, at a server time. */
  datatype Event =
    | Login(req: Request, at: int, sessionId: Text)
    | Call(req: Request, at: int)

  ghost predicate ClockIsMonotone(run: seq<Event>) {
    forall i, j :: 0 <= i < j < |run| ==> run[i].at <= run[j].at
  }

  predicate IsIssued(cfg: Config, pf: Platform, e: Event) {
    e.Login? && EndpointOutcome(cfg, pf, e.req, e.at, e.sessionId).Issued?
  }

  function LoginClaims(cfg: Config, pf: Platform, e: Event): Claims
    requires e.Login?
  {
    ClaimsFor(cfg, pf, e.req, e.at, e.sessionId)
  }

  predicate SignedBefore(cfg: Config, pf: Platform, run: seq<Event>, i: nat, payload: Text)
    requires i <= |run|
  {
    exists j: nat :: j < i && IsIssued(cfg, pf, run[j]) && Payload(LoginClaims(cfg, pf, run[j])) == payload
  }

  /** The token of the i-th event, if its signature is right, holds a payload signed before. */
  ghost predicate IsUnforged(cfg: Config, pf: Platform, run: seq<Event>, i: nat)
    requires i < |run|
  {
    var token := ReadSession(run[i].req);
    token.Some? && TokenParts(token.value).Some? ==>
      var payload, signature := TokenParts(token.value).value.0, TokenParts(token.value).value.1;
      SignatureMatches(pf, payload, signature) ==> SignedBefore(cfg, pf, run, i, payload)
  }

  /** The ideal signer: a caller can show the signature of a payload only after the endpoint signed it. */
  ghost predicate SignerIsIdeal(cfg: Config, pf: Platform, run: seq<Event>) {
    forall i: nat | i < |run| && run[i].Call? :: IsUnforged(cfg, pf, run, i)
  }

  /** What a let-through session request owes to the login it stems from. */
  ghost predicate StemsFrom(cfg: Config, pf: Platform, call: Event, login: Event) {
    && login.Login?
    && ReadCredential(login.req) == cfg.apiKey
    && Allowed(cfg, login.req.httpMethod, ReadActor(login.req), ReadRole(cfg, login.req))
    && ReadActor(call.req) == ReadActor(login.req)
    && (ReadRole(cfg, call.req) == [] || ReadRole(cfg, call.req) == ReadRole(cfg, login.req))
    && login.at <= call.at <= login.at + cfg.sessionTtlMs + cfg.sessionSkewMs
    && login.at - cfg.sessionSkewMs <= call.at
    && Allowed(cfg, call.req.httpMethod, ReadActor(login.req), ReadRole(cfg, login.req))
  }

  /** Session safety over every run: a request let through on a session carries the actor and role of
      an earlier successful login with the right key, falls inside that login's window, and meets the
      lists of its own method. */
  lemma SessionSafety(cfg: Config, pf: Platform, run: seq<Event>, i: nat)
    requires IsPlatform(pf) && IsSet(cfg.apiKey)
    requires ClockIsMonotone(run) && SignerIsIdeal(cfg, pf, run)
    requires i < |run| && run[i].Call? && ReadSession(run[i].req).Some?
    requires GateOutcome(cfg, pf, run[i].req, run[i].at) == Forwarded
    ensures exists j: nat :: j < i && IsIssued(cfg, pf, run[j]) && StemsFrom(cfg, pf, run[i], run[j])
  {
    var req, now := run[i].req, run[i].at;
    var token := ReadSession(req).value;
    GateForwards(cfg, pf, req, now);
    ParsedTokenIsSigned(pf, cfg.sessionSecret, token);
    var (payload, signature) := TokenParts(token).value;
    assert IsUnforged(cfg, pf, run, i);
    assert SignedBefore(cfg, pf, run, i, payload);
    var j: nat :| j < i && IsIssued(cfg, pf, run[j]) && Payload(LoginClaims(cfg, pf, run[j])) == payload;
    var c := LoginClaims(cfg, pf, run[j]);
    PayloadRoundTrip(c);
    assert ParseToken(pf, cfg.sessionSecret, token) == Some(c);
    EndpointIssues(cfg, pf, run[j].req, run[j].at, run[j].sessionId);
    assert pf.parseDate(pf.isoDate(run[j].at)) == Some(run[j].at);
    assert pf.parseDate(pf.isoDate(run[j].at + cfg.sessionTtlMs)) == Some(run[j].at + cfg.sessionTtlMs);
    assert StemsFrom(cfg, pf, run[i], run[j]);
  }

  /** Without any login nothing is ever let through on a session. */
  lemma NoLoginNoSession(cfg: Config, pf: Platform, run: seq<Event>, i: nat)
    requires IsPlatform(pf) && IsSet(cfg.apiKey) && ClockIsMonotone(run) && SignerIsIdeal(cfg, pf, run)
    requires forall j: nat | j < |run| :: run[j].Call?
    requires i < |run| && ReadSession(run[i].req).Some?
    ensures GateOutcome(cfg, pf, run[i].req, run[i].at) != Forwarded
  {
    if GateOutcome(cfg, pf, run[i].req, run[i].at) == Forwarded {
      SessionSafety(cfg, pf, run, i);
    }
  }

  /** A caller of the gate shows no session, or one that an earlier login was given. */
  ghost predicate IsHonest(cfg: Config, pf: Platform, run: seq<Event>, i: nat)
    requires i < |run|
  {
    ReadSession(run[i].req).Some? ==>
      exists j: nat :: j < i && IsIssued(cfg, pf, run[j])
        && ReadSession(run[i].req).value == CreateToken(pf, LoginClaims(cfg, pf, run[j]))
  }

  /** Whatever honest callers do, no signature is shown before it was made. */
  lemma HonestRunsAreIdeal(cfg: Config, pf: Platform, run: seq<Event>)
    requires IsPlatform(pf) && forall i: nat | i < |run| && run[i].Call? :: IsHonest(cfg, pf, run, i)
    ensures SignerIsIdeal(cfg, pf, run)
  {
    forall i: nat | i < |run| && run[i].Call?
      ensures IsUnforged(cfg, pf, run, i)
    {
      assert IsHonest(cfg, pf, run, i);
      if ReadSession(run[i].req).Some? {
        var j: nat :| j < i && IsIssued(cfg, pf, run[j])
          && ReadSession(run[i].req).value == CreateToken(pf, LoginClaims(cfg, pf, run[j]));
        CreatedTokenParts(pf, LoginClaims(cfg, pf, run[j]));
      }
    }
  }

  // ---- When an issued session keeps working ----------------------------------------------------

  /** An issued token presented again: exactly the window, the match and the lists decide. */
  lemma IssuedTokenDecision(cfg: Config, pf: Platform, login: Event, call: Event)
    requires IsPlatform(pf) && IsIssued(cfg, pf, login) && call.Call?
    requires ReadSession(call.req) == Some(CreateToken(pf, LoginClaims(cfg, pf, login)))
    ensures GateOutcome(cfg, pf, call.req, call.at) == Forwarded <==>
      && login.at - cfg.sessionSkewMs <= call.at <= login.at + cfg.sessionTtlMs + cfg.sessionSkewMs
      && Matches(cfg, call.req, LoginClaims(cfg, pf, login))
      && Allowed(cfg, call.req.httpMethod, ReadActor(login.req), ReadRole(cfg, login.req))
  {
    var c := LoginClaims(cfg, pf, login);
    EndpointIssues(cfg, pf, login.req, login.at, login.sessionId);
    GateForwards(cfg, pf, call.req, call.at);
    TokenRoundTrip(pf, cfg.sessionSecret, c);
    assert pf.parseDate(pf.isoDate(login.at)) == Some(login.at);
    assert pf.parseDate(pf.isoDate(login.at + cfg.sessionTtlMs)) == Some(login.at + cfg.sessionTtlMs);
  }

  /** A later request by the holder of a session, inside the window. */
  ghost predicate IsReuse(cfg: Config, pf: Platform, login: Event, call: Event) {
    && IsIssued(cfg, pf, login) && login.req.httpMethod == Post && call.Call?
    && ReadSession(call.req) == Some(CreateToken(pf, LoginClaims(cfg, pf, login)))
    && ReadActor(call.req) == ReadActor(login.req)
    && ReadRole(cfg, call.req) == ReadRole(cfg, login.req)
    && login.at - cfg.sessionSkewMs <= call.at <= login.at + cfg.sessionTtlMs + cfg.sessionSkewMs
  }

  /** Every issued session is accepted for its actor and role, on every method, all through its window. */
  ghost predicate EverySessionWorks(cfg: Config, pf: Platform) {
    forall login, call :: IsReuse(cfg, pf, login, call) ==>
      GateOutcome(cfg, pf, call.req, call.at) == Forwarded
  }

  /** The mutation lists lie inside the read lists.  An empty actor list admits everyone. */
  predicate ActorsNested(cfg: Config) {
    |cfg.readActors| == 0 || (|cfg.mutationActors| > 0 && cfg.mutationActors <= cfg.readActors)
  }

  predicate RolesNested(cfg: Config) {
    cfg.roleEnforcement ==> cfg.mutationRoles <= cfg.readRoles
  }

  /** No login can succeed: enforcement is on and no role may mutate. */
  predicate NoLoginPossible(cfg: Config) {
    cfg.roleEnforcement && cfg.mutationRoles == {}
  }

  /** The configuration as the loader leaves it: keys and list entries trimmed and not empty. */
  ghost predicate IsLoaded(cfg: Config) {
    && IsSet(cfg.apiKey) && IsTrimmed(cfg.apiKey.value) && IsSet(cfg.sessionSecret)
    && cfg.defaultRole != [] && IsTrimmed(cfg.defaultRole)
    && (forall x | x in cfg.readRoles + cfg.mutationRoles + cfg.readActors + cfg.mutationActors ::
          x != [] && IsTrimmed(x))
    && 0 <= cfg.sessionTtlMs && 0 <= cfg.sessionSkewMs
  }

  lemma NestedListsSuffice(cfg: Config, pf: Platform)
    requires IsPlatform(pf)
    requires (ActorsNested(cfg) && RolesNested(cfg)) || NoLoginPossible(cfg)
    ensures EverySessionWorks(cfg, pf)
  {
    forall login, call | IsReuse(cfg, pf, login, call)
      ensures GateOutcome(cfg, pf, call.req, call.at) == Forwarded
    {
      IssuedTokenDecision(cfg, pf, login, call);
      EndpointIssues(cfg, pf, login.req, login.at, login.sessionId);
    }
  }

  // ---- The lists are needed --------------------------------------------------------------------

  const BEARER_HEADER: Text := [0x42, 0x65, 0x61, 0x72, 0x65, 0x72, 0x20]

  function LoginRequest(cfg: Config, actor: Text, role: Text): Request
    requires cfg.apiKey.Some?
  {
    Request(Post, SESSION_PATH, cfg.apiKey, None, Some(actor), Some(role), None)
  }

  function ReuseRequest(m: Method, token: Text, actor: Text, role: Text): Request {
    Request(m, [], None, Some(BEARER_HEADER + token), Some(actor), Some(role), None)
  }

  lemma TokenIsTrimmed(pf: Platform, c: Claims)
    requires IsPlatform(pf)
    ensures IsTrimmed(CreateToken(pf, c)) && HasPrefix(CreateToken(pf, c), OST + [DOT])
  {
    var t, s := CreateToken(pf, c), Signature(pf, Payload(c));
    CreatedTokenParts(pf, c);
    SignatureShape(pf, Payload(c));
    Base64Url.EncodeLetters(pf.digest(Payload(c)));
    assert t[|t| - 1] == s[|s| - 1];
    assert t[0] == OST[0];
  }

  lemma ReuseRequestReads(pf: Platform, c: Claims, m: Method, actor: Text, role: Text)
    requires IsPlatform(pf)
    ensures ReadSession(ReuseRequest(m, CreateToken(pf, c), actor, role)) == Some(CreateToken(pf, c))
  {
    TokenIsTrimmed(pf, c);
    BearerReads(ReuseRequest(m, CreateToken(pf, c), actor, role), CreateToken(pf, c));
  }

  /** A trimmed token behind "Bearer " is read back whole. */
  lemma BearerReads(req: Request, token: Text)
    requires token != [] && IsTrimmed(token) && HasPrefix(token, OST + [DOT])
    requires req.authorization == Some(BEARER_HEADER + token)
    ensures ReadSession(req) == Some(token)
  {
    var a := BEARER_HEADER + token;
    assert a[0] == 0x42 && a[|a| - 1] == token[|token| - 1];
    TrimTrims(a);
    TrimTrims(token);
    assert a[7..] == token;
    BearerStarts(token);
  }

  lemma BearerStarts(token: Text)
    ensures StartsBearer(BEARER_HEADER + token)
  {
  }

  /** An actor and a role that may log in but may not read break some session. */
  lemma UnreadableSession(cfg: Config, pf: Platform, actor: Text, role: Text)
    requires IsPlatform(pf) && IsLoaded(cfg)
    requires actor != [] && IsTrimmed(actor) && role != [] && IsTrimmed(role)
    requires Allowed(cfg, Post, actor, role) && !Allowed(cfg, Get, actor, role)
    ensures !EverySessionWorks(cfg, pf)
  {
    var login := Login(LoginRequest(cfg, actor, role), 0, []);
    TrimTrims(actor);
    TrimTrims(role);
    TrimTrims(cfg.apiKey.value);
    EndpointIssues(cfg, pf, login.req, 0, []);
    var c := LoginClaims(cfg, pf, login);
    var call := Call(ReuseRequest(Get, CreateToken(pf, c), actor, role), 0);
    ReuseRequestReads(pf, c, Get, actor, role);
    assert IsReuse(cfg, pf, login, call);
    IssuedTokenDecision(cfg, pf, login, call);
  }

  /** A login and a read with the session it was given. */
  function LoginThenRead(cfg: Config, pf: Platform, actor: Text, role: Text): seq<Event>
    requires cfg.apiKey.Some?
  {
    var login := Login(LoginRequest(cfg, actor, role), 0, []);
    [login, Call(ReuseRequest(Get, CreateToken(pf, LoginClaims(cfg, pf, login)), actor, role), 0)]
  }

  /** Such a run is one of those that session safety speaks of, and its read is let through exactly when
      the lists admit the operator to read. */
  lemma LoginThenReadWorks(cfg: Config, pf: Platform, actor: Text, role: Text)
    requires IsPlatform(pf) && IsLoaded(cfg)
    requires actor != [] && IsTrimmed(actor) && role != [] && IsTrimmed(role) && Allowed(cfg, Post, actor, role)
    ensures var run := LoginThenRead(cfg, pf, actor, role);
      && ClockIsMonotone(run) && SignerIsIdeal(cfg, pf, run) && ReadSession(run[1].req).Some?
      && (GateOutcome(cfg, pf, run[1].req, run[1].at) == Forwarded <==> Allowed(cfg, Get, actor, role))
  {
    var run := LoginThenRead(cfg, pf, actor, role);
    TrimTrims(actor);
    TrimTrims(role);
    TrimTrims(cfg.apiKey.value);
    EndpointIssues(cfg, pf, run[0].req, 0, []);
    ReuseRequestReads(pf, LoginClaims(cfg, pf, run[0]), Get, actor, role);
    assert IsHonest(cfg, pf, run, 1);
    HonestRunsAreIdeal(cfg, pf, run);
    IssuedTokenDecision(cfg, pf, run[0], run[1]);
  }

  ghost function Longest(s: set<Text>): (n: nat)
    ensures forall x :: x in s ==> |x| <= n
  {
    if s == {} then 0
    else
      var x :| x in s;
      var n := Longest(s - {x});
      if |x| < n then n else |x|
  }

  /** A trimmed text outside a given set. */
  lemma FreshText(s: set<Text>) returns (t: Text)
    ensures t != [] && IsTrimmed(t) && t !in s
  {
    t := seq(Longest(s) + 1, _ => 0x61);
  }

  /** Exactly when every issued session works everywhere: the lists are nested, or nobody can log in. */
  lemma EverySessionWorksExactly(cfg: Config, pf: Platform)
    requires IsPlatform(pf) && IsLoaded(cfg)
    ensures EverySessionWorks(cfg, pf) <==> (ActorsNested(cfg) && RolesNested(cfg)) || NoLoginPossible(cfg)
  {
    if (ActorsNested(cfg) && RolesNested(cfg)) || NoLoginPossible(cfg) {
      NestedListsSuffice(cfg, pf);
    } else {
      var role, actor := cfg.defaultRole, GATEWAY_ACTOR;
      if cfg.roleEnforcement {
        role :| role in cfg.mutationRoles && (!RolesNested(cfg) ==> role !in cfg.readRoles);
      }
      if |cfg.mutationActors| > 0 {
        assert cfg.mutationActors != {};
        actor :| actor in cfg.mutationActors && (!ActorsNested(cfg) ==> actor !in cfg.readActors);
      } else if !ActorsNested(cfg) {
        actor := FreshText(cfg.readActors);
      }
      var listed := cfg.readRoles + cfg.mutationRoles + cfg.readActors + cfg.mutationActors;
      assert role == cfg.defaultRole || role in listed;
      assert |cfg.mutationActors| > 0 ==> actor in listed;
      assert !IsSpace(GATEWAY_ACTOR[0]) && !IsSpace(GATEWAY_ACTOR[|GATEWAY_ACTOR| - 1]);
      UnreadableSession(cfg, pf, actor, role);
    }
  }
}
