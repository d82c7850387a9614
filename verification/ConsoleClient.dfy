/** The console's cached operator session, used by concurrent requests against the gateway.

    `ensureOperatorSession` runs without interruption up to its `fetch`, and again from the parsed
    response to its return.  Calls interleave only between those two pieces. */
module ConsoleClient {
  import opened Options
  import opened Unicode
  import opened JsonText
  import opened OperatorToken
  import opened OperatorAuth
  import opened OperatorRuns

  datatype Identity = Identity(apiKey: Text, actor: Text, role: Text)

  /** The two module-level variables. */
  datatype Cache = Cache(token: Text, expiresAt: int)

  const EMPTY_CACHE := Cache([], 0)

  datatype Begun = NoSession | Cached(token: Text) | Fetching

  datatype SessionResponse = SessionResponse(token: Text, expiresAt: Text)

  predicate IsComplete(id: Identity) {
    id.apiKey != [] && id.actor != [] && id.role != []
  }

  const MARGIN_MS := 30_000

  /** The first piece of a call, at a console time. */
  function BeginCall(id: Identity, cache: Cache, now: int): Begun {
    if !IsComplete(id) then NoSession
    else if cache.token != [] && cache.expiresAt > now + MARGIN_MS then Cached(cache.token)
    else Fetching
  }

  /** The second piece: both variables come from the response at hand. */
  function FinishCall(pf: Platform, response: SessionResponse): Cache {
    Cache(response.token, match pf.parseDate(response.expiresAt) case Some(t) => t case None => 0)
  }

  /** When a call hands out the cached token: the operator is complete, there is a token, and more than 30
      seconds of it are left. */
  lemma CachedExactly(id: Identity, cache: Cache, now: int)
    ensures BeginCall(id, cache, now).Cached? <==>
      IsComplete(id) && cache.token != [] && cache.expiresAt - now > 30_000
    ensures BeginCall(id, cache, now).Cached? ==> BeginCall(id, cache, now).token == cache.token
    ensures BeginCall(id, cache, now) == NoSession <==> id.apiKey == [] || id.actor == [] || id.role == []
  {
  }

  /** A session whose expiry the platform cannot read is never reused: the next call fetches again. */
  lemma UnreadableExpiryFetches(pf: Platform, id: Identity, response: SessionResponse, now: nat)
    requires pf.parseDate(response.expiresAt) == None && IsComplete(id)
    ensures BeginCall(id, FinishCall(pf, response), now) == Fetching
  {
  }

  // ---- The requests ----------------------------------------------------------------------------

  function LoginCall(id: Identity): Request {
    Request(Post, SESSION_PATH, Some(id.apiKey), None, Some(id.actor), Some(id.role), None)
  }

  /** What the caller of `getJson` asks for.  Some bodies name an actor of their own. */
  datatype Ask = Ask(httpMethod: Method, path: Text, bodyActor: Option<Text>)

  /** The headers of `getJson`, with or without a session. */
  function GatewayCall(id: Identity, session: Text, ask: Ask): Request {
    if session != [] then
      Request(ask.httpMethod, ask.path, None, Some(BEARER_HEADER + session), Some(id.actor), Some(id.role),
              ask.bodyActor)
    else
      Request(ask.httpMethod, ask.path, NonEmpty(id.apiKey), None, NonEmpty(id.actor), NonEmpty(id.role), ask.bodyActor)
  }

  /** The three constants as the module reads them, trimmed, and all there. */
  predicate IsOperator(id: Identity) {
    IsComplete(id) && IsTrimmed(id.apiKey) && IsTrimmed(id.actor) && IsTrimmed(id.role)
  }

  /** Every request of the console speaks for the configured operator, whatever its body says, and one
      without a session shows the key. */
  lemma IdentityIsRead(cfg: Config, id: Identity, session: Text, ask: Ask)
    requires IsOperator(id)
    ensures ReadActor(LoginCall(id)) == id.actor && ReadRole(cfg, LoginCall(id)) == id.role
    ensures ReadCredential(LoginCall(id)) == Some(id.apiKey)
    ensures var req := GatewayCall(id, session, ask);
      && req.httpMethod == ask.httpMethod && req.path == ask.path
      && ReadActor(req) == id.actor && ReadRole(cfg, req) == id.role
      && (session == [] ==> ReadCredential(req) == Some(id.apiKey) && ReadSession(req) == None)
  {
    TrimTrims(id.apiKey);
    TrimTrims(id.actor);
    TrimTrims(id.role);
  }

  /** Before it has an actor, a role or a key, the console sends what it has; the gateway's defaults
      stand in for the others. */
  lemma PartialIdentityIsRead(cfg: Config, id: Identity, ask: Ask)
    requires ask.bodyActor == None
    ensures var req := GatewayCall(id, [], ask);
      && (id.actor == [] ==> ReadActor(req) == GATEWAY_ACTOR)
      && (id.role == [] ==> ReadRole(cfg, req) == cfg.defaultRole)
      && (id.apiKey == [] ==> ReadCredential(req) == None)
  {
  }

  function NonEmpty(t: Text): Option<Text> {
    if t != [] then Some(t) else None
  }

  // ---- Console and gateway together ------------------------------------------------------------

  /** A cached token given to a request, at a console time. */
  datatype Handout = Handout(token: Text, at: int)

  /** A session the gateway granted: the login it handled and the body it answered with. */
  datatype Grant = Grant(login: Event, response: SessionResponse)

  datatype World = World(cache: Cache, serverNow: int, grants: seq<Grant>, handouts: seq<Handout>)

  datatype Step =
    | Enter(now: int)                          // a call runs its first piece
    | Serve(at: int, sessionId: Text)          // the gateway handles one session request
    | Resume(k: nat)                           // the k-th answer reaches the call that waits for it
    | Throw                                    // a refused or lost answer

  function Start(serverNow: int): World {
    World(EMPTY_CACHE, serverNow, [], [])
  }

  predicate CanStep(w: World, s: Step) {
    match s
    case Serve(at, _) => w.serverNow <= at
    case Resume(k) => k < |w.grants|
    case _ => true
  }

  function Answer(cfg: Config, pf: Platform, login: Event): Option<SessionResponse>
    requires login.Login?
  {
    match EndpointOutcome(cfg, pf, login.req, login.at, login.sessionId)
    case Issued(token, claims) => Some(SessionResponse(token, claims.expiresAt))
    case _ => None
  }

  function ServeLogin(cfg: Config, pf: Platform, w: World, login: Event): World
    requires login.Login?
  {
    match Answer(cfg, pf, login)
    case Some(response) => w.(serverNow := login.at, grants := w.grants + [Grant(login, response)])
    case None => w.(serverNow := login.at)
  }

  function Apply(cfg: Config, pf: Platform, id: Identity, w: World, s: Step): World
    requires CanStep(w, s)
  {
    match s
    case Enter(now) =>
      (match BeginCall(id, w.cache, now)
       case Cached(token) => w.(handouts := w.handouts + [Handout(token, now)])
       case _ => w)
    case Serve(at, sessionId) => ServeLogin(cfg, pf, w, Login(LoginCall(id), at, sessionId))
    case Resume(k) => w.(cache := FinishCall(pf, w.grants[k].response))
    case Throw => w
  }

  /** The world after any interleaving: any calls may be under way, and answers come in any order. */
  function After(cfg: Config, pf: Platform, id: Identity, serverNow: int, steps: seq<Step>): Option<World> {
    if steps == [] then Some(Start(serverNow))
    else
      var last := |steps| - 1;
      match After(cfg, pf, id, serverNow, steps[..last])
      case None => None
      case Some(w) => if CanStep(w, steps[last]) then Some(Apply(cfg, pf, id, w, steps[last])) else None
  }

  // ---- Invariants ------------------------------------------------------------------------------

  /** A grant answers a login of this console that the gateway already handled. */
  predicate IsGrant(cfg: Config, pf: Platform, id: Identity, serverNow: int, g: Grant) {
    && g.login.Login? && g.login.req == LoginCall(id) && g.login.at <= serverNow
    && Answer(cfg, pf, g.login) == Some(g.response)
  }

  predicate ExpiryIsRead(cfg: Config, pf: Platform, g: Grant) {
    pf.parseDate(g.response.expiresAt) == Some(g.login.at + cfg.sessionTtlMs)
  }

  ghost predicate GrantsAreOurs(cfg: Config, pf: Platform, id: Identity, w: World) {
    forall k: nat | k < |w.grants| :: IsGrant(cfg, pf, id, w.serverNow, w.grants[k])
  }

  /** The pair of variables is one answer of the gateway. */
  predicate CacheFrom(cfg: Config, cache: Cache, g: Grant) {
    cache == Cache(g.response.token, g.login.at + cfg.sessionTtlMs)
  }

  predicate HandoutFrom(cfg: Config, h: Handout, g: Grant) {
    h.token == g.response.token && h.at + MARGIN_MS < g.login.at + cfg.sessionTtlMs
  }

  ghost predicate CacheIsOneAnswer(cfg: Config, w: World) {
    w.cache == EMPTY_CACHE || exists k: nat :: k < |w.grants| && CacheFrom(cfg, w.cache, w.grants[k])
  }

  ghost predicate IsFresh(cfg: Config, w: World, h: Handout) {
    exists k: nat :: k < |w.grants| && HandoutFrom(cfg, h, w.grants[k])
  }

  ghost predicate HandoutsAreFresh(cfg: Config, w: World) {
    forall i: nat | i < |w.handouts| :: IsFresh(cfg, w, w.handouts[i])
  }

  ghost predicate ExpiriesAreRead(cfg: Config, pf: Platform, w: World) {
    forall k: nat | k < |w.grants| :: ExpiryIsRead(cfg, pf, w.grants[k])
  }

  lemma GrantFacts(cfg: Config, pf: Platform, login: Event)
    requires IsPlatform(pf) && login.Login? && Answer(cfg, pf, login).Some?
    ensures IsIssued(cfg, pf, login)
    ensures var r, c := Answer(cfg, pf, login).value, LoginClaims(cfg, pf, login);
      && r == SessionResponse(CreateToken(pf, c), c.expiresAt)
      && pf.parseDate(r.expiresAt) == Some(login.at + cfg.sessionTtlMs)
  {
    var c := LoginClaims(cfg, pf, login);
    assert EndpointOutcome(cfg, pf, login.req, login.at, login.sessionId) == Issued(CreateToken(pf, c), c) by {
      EndpointIssues(cfg, pf, login.req, login.at, login.sessionId);
    }
    ExpiryDate(cfg, pf, login);
  }

  lemma ExpiryDate(cfg: Config, pf: Platform, login: Event)
    requires IsPlatform(pf) && login.Login?
    ensures pf.parseDate(LoginClaims(cfg, pf, login).expiresAt) == Some(login.at + cfg.sessionTtlMs)
  {
    assert pf.parseDate(pf.isoDate(login.at + cfg.sessionTtlMs)) == Some(login.at + cfg.sessionTtlMs);
  }

  lemma TimeKeepsGrants(cfg: Config, pf: Platform, id: Identity, v: World, at: int)
    requires GrantsAreOurs(cfg, pf, id, v) && v.serverNow <= at
    ensures GrantsAreOurs(cfg, pf, id, v.(serverNow := at))
  {
    forall k: nat | k < |v.grants|
      ensures IsGrant(cfg, pf, id, at, v.grants[k])
    {
      assert IsGrant(cfg, pf, id, v.serverNow, v.grants[k]);
    }
  }

  lemma OneMoreGrant(cfg: Config, pf: Platform, id: Identity, v: World, g: Grant)
    requires GrantsAreOurs(cfg, pf, id, v) && ExpiriesAreRead(cfg, pf, v)
    requires IsGrant(cfg, pf, id, v.serverNow, g) && ExpiryIsRead(cfg, pf, g)
    ensures var w := v.(grants := v.grants + [g]);
      GrantsAreOurs(cfg, pf, id, w) && ExpiriesAreRead(cfg, pf, w)
  {
    var w := v.(grants := v.grants + [g]);
    forall k: nat | k < |w.grants|
      ensures IsGrant(cfg, pf, id, w.serverNow, w.grants[k]) && ExpiryIsRead(cfg, pf, w.grants[k])
    {
      if k < |v.grants| {
        assert IsGrant(cfg, pf, id, v.serverNow, v.grants[k]) && ExpiryIsRead(cfg, pf, v.grants[k]);
      }
    }
  }

  lemma ServeKeepsGrants(cfg: Config, pf: Platform, id: Identity, v: World, login: Event)
    requires IsPlatform(pf) && GrantsAreOurs(cfg, pf, id, v) && ExpiriesAreRead(cfg, pf, v)
    requires login.Login? && login.req == LoginCall(id) && v.serverNow <= login.at
    ensures GrantsAreOurs(cfg, pf, id, ServeLogin(cfg, pf, v, login))
    ensures ExpiriesAreRead(cfg, pf, ServeLogin(cfg, pf, v, login))
  {
    var answer := Answer(cfg, pf, login);
    var now := v.(serverNow := login.at);
    TimeKeepsGrants(cfg, pf, id, v, login.at);
    if answer.Some? {
      NewGrant(cfg, pf, id, login);
      OneMoreGrant(cfg, pf, id, now, Grant(login, answer.value));
    }
  }

  lemma NewGrant(cfg: Config, pf: Platform, id: Identity, login: Event)
    requires IsPlatform(pf) && login.Login? && login.req == LoginCall(id) && Answer(cfg, pf, login).Some?
    ensures var g := Grant(login, Answer(cfg, pf, login).value);
      IsGrant(cfg, pf, id, login.at, g) && ExpiryIsRead(cfg, pf, g)
  {
    var g := Grant(login, Answer(cfg, pf, login).value);
    assert ExpiryIsRead(cfg, pf, g) by { GrantFacts(cfg, pf, login); }
  }

  lemma MoreGrants(cfg: Config, v: World, w: World)
    requires v.grants <= w.grants && v.cache == w.cache && v.handouts == w.handouts
    requires CacheIsOneAnswer(cfg, v) && HandoutsAreFresh(cfg, v)
    ensures CacheIsOneAnswer(cfg, w) && HandoutsAreFresh(cfg, w)
  {
    if v.cache != EMPTY_CACHE {
      var k: nat :| k < |v.grants| && CacheFrom(cfg, v.cache, v.grants[k]);
      assert CacheFrom(cfg, w.cache, w.grants[k]);
    }
    forall i: nat | i < |w.handouts|
      ensures IsFresh(cfg, w, w.handouts[i])
    {
      assert IsFresh(cfg, v, v.handouts[i]);
      var k: nat :| k < |v.grants| && HandoutFrom(cfg, v.handouts[i], v.grants[k]);
      assert HandoutFrom(cfg, w.handouts[i], w.grants[k]);
    }
  }

  lemma EnterKeepsHandouts(cfg: Config, id: Identity, v: World, now: int)
    requires CacheIsOneAnswer(cfg, v) && HandoutsAreFresh(cfg, v)
    requires BeginCall(id, v.cache, now).Cached?
    ensures HandoutsAreFresh(cfg, v.(handouts := v.handouts + [Handout(v.cache.token, now)]))
  {
    var w := v.(handouts := v.handouts + [Handout(v.cache.token, now)]);
    var k: nat :| k < |v.grants| && CacheFrom(cfg, v.cache, v.grants[k]);
    assert HandoutFrom(cfg, Handout(v.cache.token, now), w.grants[k]);
    forall i: nat | i < |w.handouts|
      ensures IsFresh(cfg, w, w.handouts[i])
    {
      assert i < |v.handouts| ==> IsFresh(cfg, v, v.handouts[i]);
    }
  }

  ghost predicate IsSafe(cfg: Config, pf: Platform, id: Identity, w: World) {
    && GrantsAreOurs(cfg, pf, id, w) && ExpiriesAreRead(cfg, pf, w)
    && CacheIsOneAnswer(cfg, w) && HandoutsAreFresh(cfg, w)
  }

  lemma EnterIsSafe(cfg: Config, pf: Platform, id: Identity, v: World, now: int)
    requires IsSafe(cfg, pf, id, v)
    ensures IsSafe(cfg, pf, id, Apply(cfg, pf, id, v, Enter(now)))
  {
    if BeginCall(id, v.cache, now).Cached? { EnterKeepsHandouts(cfg, id, v, now); }
  }

  lemma ServeIsSafe(cfg: Config, pf: Platform, id: Identity, v: World, at: int, sessionId: Text)
    requires IsPlatform(pf) && IsSafe(cfg, pf, id, v) && v.serverNow <= at
    ensures IsSafe(cfg, pf, id, Apply(cfg, pf, id, v, Serve(at, sessionId)))
  {
    var login := Login(LoginCall(id), at, sessionId);
    ServeKeepsGrants(cfg, pf, id, v, login);
    MoreGrants(cfg, v, ServeLogin(cfg, pf, v, login));
  }

  lemma ResumeIsSafe(cfg: Config, pf: Platform, id: Identity, v: World, k: nat)
    requires IsSafe(cfg, pf, id, v) && k < |v.grants|
    ensures IsSafe(cfg, pf, id, Apply(cfg, pf, id, v, Resume(k)))
  {
    var w := v.(cache := FinishCall(pf, v.grants[k].response));
    assert ExpiryIsRead(cfg, pf, v.grants[k]);
    assert CacheFrom(cfg, w.cache, w.grants[k]);
    forall i: nat | i < |w.handouts|
      ensures IsFresh(cfg, w, w.handouts[i])
    {
      assert IsFresh(cfg, v, v.handouts[i]);
    }
  }

  /** Under every interleaving the cached token and expiry come from one answer of the gateway, and
      every handed out token expires more than the margin after its hand-out. */
  lemma {:induction false} InterleavingsAreSafe(cfg: Config, pf: Platform, id: Identity, serverNow: int,
                                                steps: seq<Step>)
    requires IsPlatform(pf) && After(cfg, pf, id, serverNow, steps).Some?
    ensures IsSafe(cfg, pf, id, After(cfg, pf, id, serverNow, steps).value)
  {
    if steps == [] {
    } else {
      var last := |steps| - 1;
      InterleavingsAreSafe(cfg, pf, id, serverNow, steps[..last]);
      var v := After(cfg, pf, id, serverNow, steps[..last]).value;
      match steps[last] {
        case Enter(now) => EnterIsSafe(cfg, pf, id, v, now);
        case Serve(at, sessionId) => ServeIsSafe(cfg, pf, id, v, at, sessionId);
        case Resume(k) => ResumeIsSafe(cfg, pf, id, v, k);
        case Throw =>
      }
    }
  }

  // ---- The two variables -----------------------------------------------------------------------

  lemma OneMoreStep(cfg: Config, pf: Platform, id: Identity, serverNow: int, steps: seq<Step>, s: Step)
    requires After(cfg, pf, id, serverNow, steps).Some? && CanStep(After(cfg, pf, id, serverNow, steps).value, s)
    ensures After(cfg, pf, id, serverNow, steps + [s])
         == Some(Apply(cfg, pf, id, After(cfg, pf, id, serverNow, steps).value, s))
  {
    assert (steps + [s])[..|steps|] == steps;
  }

  /** The module of the console, and as ghosts the gateway it talks to and the steps both have taken. */
  class OperatorSession {
    const id: Identity
    const platform: Platform
    var token: Text
    var expiresAt: int
    ghost const cfg: Config
    ghost const serverStart: int
    ghost var steps: seq<Step>

    constructor (id: Identity, platform: Platform, ghost cfg: Config, ghost serverStart: int)
      requires IsPlatform(platform)
      ensures this.id == id && this.platform == platform && this.cfg == cfg && this.serverStart == serverStart
      ensures Valid() && steps == [] && Current() == EMPTY_CACHE
    {
      this.id, this.platform, this.cfg, this.serverStart := id, platform, cfg, serverStart;
      token, expiresAt, steps := [], 0, [];
    }

    function Current(): Cache
      reads this
    {
      Cache(token, expiresAt)
    }

    /** The world the steps lead to. */
    ghost function Reached(): Option<World>
      reads this
    {
      After(cfg, platform, id, serverStart, steps)
    }

    /** The variables are the cache of that world. */
    ghost predicate Valid()
      reads this
    {
      IsPlatform(platform) && Reached().Some? && Reached().value.cache == Current()
    }

    /** The gateway handles a login of this console meanwhile. */
    ghost method Serve(at: int, sessionId: Text)
      requires Valid() && Reached().value.serverNow <= at
      modifies this`steps
      ensures Valid() && steps == old(steps) + [Step.Serve(at, sessionId)]
    {
      OneMoreStep(cfg, platform, id, serverStart, steps, Step.Serve(at, sessionId));
      steps := steps + [Step.Serve(at, sessionId)];
    }

    /** A cached token goes out only if the gateway granted it and it expires more than the margin later. */
    method Begin(now: int) returns (begun: Begun)
      requires Valid()
      modifies this`steps
      ensures Valid() && steps == old(steps) + [Enter(now)] && begun == BeginCall(id, Current(), now)
      ensures begun == NoSession <==> !IsComplete(id)
      ensures begun.Cached? ==>
        var h := Handout(begun.token, now);
        && Reached().value.handouts == old(Reached().value.handouts) + [h]
        && IsFresh(cfg, Reached().value, h)
    {
      hide After, Apply, IsPlatform;
      begun := Decide(now);
      OneMoreStep(cfg, platform, id, serverStart, steps, Enter(now));
      EnterGives(cfg, platform, id, Reached().value, now);
      steps := steps + [Enter(now)];
      if begun.Cached? {
        InterleavingsAreSafe(cfg, platform, id, serverStart, steps);
        LastIsFresh(cfg, Reached().value);
      }
    }

    /** The first piece of `ensureOperatorSession`. */
    method Decide(now: int) returns (begun: Begun)
      ensures begun == BeginCall(id, Current(), now)
    {
      if id.apiKey == [] || id.actor == [] || id.role == [] {
        return NoSession;
      }
      if token != [] && expiresAt > now + 30_000 {
        return Cached(token);
      }
      return Fetching;
    }

    /** The second piece.  None stands for a response that is not ok: the call throws and nothing is
        stored.  With the gateway's k-th answer, or none, the world takes the step. */
    method Finish(response: Option<SessionResponse>, ghost k: nat) returns (result: Option<Text>)
      modifies this
      ensures response == None ==> result == None && Current() == old(Current())
      ensures response.Some? ==>
        Current() == FinishCall(platform, response.value) && result == Some(response.value.token)
      ensures old(Valid() && IsAnswer(response, k)) ==>
        Valid() && steps == old(steps) + [if response.Some? then Resume(k) else Throw]
    {
      ghost var step := if response.Some? then Resume(k) else Throw;
      if Valid() && IsAnswer(response, k) {
        OneMoreStep(cfg, platform, id, serverStart, steps, step);
      }
      steps := steps + [step];
      match response {
        case None => return None;
        case Some(session) =>
          token := session.token;
          var parsed := platform.parseDate(session.expiresAt);
          expiresAt := if parsed.Some? && parsed.value != 0 then parsed.value else 0;
          return Some(token);
      }
    }

    /** A response that is ok is one of the gateway's grants. */
    ghost predicate IsAnswer(response: Option<SessionResponse>, k: nat)
      requires Valid()
      reads this
    {
      response.Some? ==> k < |Reached().value.grants| && Reached().value.grants[k].response == response.value
    }
  }

  lemma EnterGives(cfg: Config, pf: Platform, id: Identity, w: World, now: int)
    ensures var v := Apply(cfg, pf, id, w, Enter(now));
      && v.cache == w.cache
      && (BeginCall(id, w.cache, now).Cached? ==> v == w.(handouts := w.handouts + [Handout(w.cache.token, now)]))
  {
  }

  lemma LastIsFresh(cfg: Config, w: World)
    requires HandoutsAreFresh(cfg, w) && w.handouts != []
    ensures IsFresh(cfg, w, w.handouts[|w.handouts| - 1])
  {
  }

  // ---- The gate's view -------------------------------------------------------------------------

  /** A request sent with a granted token: exactly the time window, the actor and the lists decide.  The
      actor is that of the login unless the console's own is blank and the body names another. */
  lemma GrantedTokenDecision(cfg: Config, pf: Platform, id: Identity, serverNow: int, g: Grant,
                             ask: Ask, arrival: int)
    requires IsPlatform(pf) && IsGrant(cfg, pf, id, serverNow, g)
    ensures g.response.token != []
    ensures var req := GatewayCall(id, g.response.token, ask);
      && (GateOutcome(cfg, pf, req, arrival) == Forwarded <==>
        && g.login.at - cfg.sessionSkewMs <= arrival <= g.login.at + cfg.sessionTtlMs + cfg.sessionSkewMs
        && ReadActor(req) == ReadActor(LoginCall(id))
        && Allowed(cfg, ask.httpMethod, ReadActor(req), ReadRole(cfg, req)))
      && (IsOperator(id) || ask.bodyActor == None ==> ReadActor(req) == ReadActor(LoginCall(id)))
  {
    var c := LoginClaims(cfg, pf, g.login);
    GrantFacts(cfg, pf, g.login);
    GatewayCallReads(pf, c, id, ask);
    SameIdentity(cfg, id, g.response.token, ask);
    hide Allowed, CreateToken, EndpointOutcome, GateOutcome, GatewayCall, IsPlatform, ReadActor, ReadRole, ReadSession;
    hide ClaimsFor, LoginClaims;
    ClaimsOfLogin(cfg, pf, g.login);
    IssuedTokenDecision(cfg, pf, g.login, Call(GatewayCall(id, g.response.token, ask), arrival));
  }

  lemma ClaimsOfLogin(cfg: Config, pf: Platform, login: Event)
    requires login.Login?
    ensures LoginClaims(cfg, pf, login).actor == ReadActor(login.req)
    ensures LoginClaims(cfg, pf, login).role == ReadRole(cfg, login.req)
  {
  }

  lemma SameIdentity(cfg: Config, id: Identity, session: Text, ask: Ask)
    requires session != []
    ensures var req := GatewayCall(id, session, ask);
      && req.httpMethod == ask.httpMethod && ReadRole(cfg, req) == ReadRole(cfg, LoginCall(id))
      && (IsOperator(id) || ask.bodyActor == None ==> ReadActor(req) == ReadActor(LoginCall(id)))
  {
    if IsOperator(id) { IdentityIsRead(cfg, id, session, ask); }
  }

  lemma GatewayCallReads(pf: Platform, c: Claims, id: Identity, ask: Ask)
    requires IsPlatform(pf)
    ensures CreateToken(pf, c) != []
    ensures ReadSession(GatewayCall(id, CreateToken(pf, c), ask)) == Some(CreateToken(pf, c))
  {
    TokenIsTrimmed(pf, c);
    BearerReads(GatewayCall(id, CreateToken(pf, c), ask), CreateToken(pf, c));
  }

  /** Console and gate agree: a request sent with a cached token passes the gate, whatever the
      interleaving was and whatever actor its body names, exactly when the lists of its method admit the
      operator, as long as the gateway reads its clock at most the margin, one millisecond and the skew
      after the console did. */
  lemma CachedTokenIsAccepted(cfg: Config, pf: Platform, id: Identity, serverNow: int, steps: seq<Step>,
                              i: nat, ask: Ask, arrival: int)
    requires IsPlatform(pf) && 0 <= cfg.sessionSkewMs && After(cfg, pf, id, serverNow, steps).Some?
    requires var w := After(cfg, pf, id, serverNow, steps).value;
      && i < |w.handouts|
      && w.serverNow <= arrival <= w.handouts[i].at + MARGIN_MS + 1 + cfg.sessionSkewMs
    ensures var h := After(cfg, pf, id, serverNow, steps).value.handouts[i];
      var req := GatewayCall(id, h.token, ask);
      && (IsOperator(id) ==>
        (GateOutcome(cfg, pf, req, arrival) == Forwarded <==> Allowed(cfg, ask.httpMethod, id.actor, id.role)))
      && (GateOutcome(cfg, pf, req, arrival) == Forwarded <==>
        ReadActor(req) == ReadActor(LoginCall(id)) && Allowed(cfg, ask.httpMethod, ReadActor(req), ReadRole(cfg, req)))
  {
    hide Allowed, GateOutcome, GatewayCall, IsOperator, IsPlatform, ReadActor, ReadRole;
    InterleavingsAreSafe(cfg, pf, id, serverNow, steps);
    var w := After(cfg, pf, id, serverNow, steps).value;
    assert IsFresh(cfg, w, w.handouts[i]);
    var k: nat :| k < |w.grants| && HandoutFrom(cfg, w.handouts[i], w.grants[k]);
    assert IsGrant(cfg, pf, id, w.serverNow, w.grants[k]);
    GrantedTokenDecision(cfg, pf, id, w.serverNow, w.grants[k], ask, arrival);
    if IsOperator(id) { IdentityIsRead(cfg, id, w.handouts[i].token, ask); }
  }

  /** A granted token is handed out up to the last moment before its margin, and refused that much later. */
  lemma GrantRunsOut(cfg: Config, pf: Platform, id: Identity, serverNow: int, g: Grant, ask: Ask)
    requires IsPlatform(pf) && IsComplete(id) && IsGrant(cfg, pf, id, serverNow, g)
    ensures var now := g.login.at + cfg.sessionTtlMs - MARGIN_MS - 1;
      && BeginCall(id, FinishCall(pf, g.response), now) == Cached(g.response.token)
      && BeginCall(id, FinishCall(pf, g.response), now + 1) == Fetching
      && GateOutcome(cfg, pf, GatewayCall(id, g.response.token, ask),
                     now + MARGIN_MS + 2 + cfg.sessionSkewMs) != Forwarded
  {
    hide Allowed, CreateToken, EndpointOutcome, GateOutcome, GatewayCall, ReadActor, ReadRole;
    var now := g.login.at + cfg.sessionTtlMs - MARGIN_MS - 1;
    GrantFacts(cfg, pf, g.login);
    GrantedTokenDecision(cfg, pf, id, serverNow, g, ask, now + MARGIN_MS + 2 + cfg.sessionSkewMs);
  }

  /** The steps of one call that logs in and one that comes at the last moment before the margin. */
  function LastMoment(cfg: Config, at: int, sessionId: Text): seq<Step> {
    [Serve(at, sessionId), Resume(0), Enter(at + cfg.sessionTtlMs - MARGIN_MS - 1)]
  }

  /** The bound is tight: whenever the gateway would issue a session, there is a run that hands out its
      token at the last moment, and one millisecond over the bound the gate refuses that token. */
  lemma MarginIsTight(cfg: Config, pf: Platform, id: Identity, at: int, sessionId: Text, ask: Ask)
    requires IsPlatform(pf) && IsComplete(id) && MayIssue(cfg, LoginCall(id))
    ensures var run := After(cfg, pf, id, at, LastMoment(cfg, at, sessionId));
      && run.Some? && |run.value.handouts| == 1
      && var h := run.value.handouts[0];
         GateOutcome(cfg, pf, GatewayCall(id, h.token, ask), h.at + MARGIN_MS + 2 + cfg.sessionSkewMs) != Forwarded
  {
    hide After, BeginCall, CreateToken, GateOutcome, GatewayCall, IsGrant, IsPlatform, LastMoment, MayIssue;
    var login := Login(LoginCall(id), at, sessionId);
    var claims := LoginClaims(cfg, pf, login);
    var g := Grant(login, SessionResponse(CreateToken(pf, claims), claims.expiresAt));
    IssuedGrant(cfg, pf, id, at, sessionId, g);
    GrantRunsOut(cfg, pf, id, at, g, ask);
    LastMomentRun(cfg, pf, id, at, sessionId, g, at + cfg.sessionTtlMs - MARGIN_MS - 1);
  }

  lemma IssuedGrant(cfg: Config, pf: Platform, id: Identity, at: int, sessionId: Text, g: Grant)
    requires IsPlatform(pf) && MayIssue(cfg, LoginCall(id)) && g.login == Login(LoginCall(id), at, sessionId)
    requires var c := LoginClaims(cfg, pf, g.login); g.response == SessionResponse(CreateToken(pf, c), c.expiresAt)
    ensures IsGrant(cfg, pf, id, at, g)
  {
    EndpointIssues(cfg, pf, LoginCall(id), at, sessionId);
  }

  lemma LastMomentRun(cfg: Config, pf: Platform, id: Identity, at: int, sessionId: Text, g: Grant, now: int)
    requires IsGrant(cfg, pf, id, at, g) && g.login == Login(LoginCall(id), at, sessionId)
    requires now == at + cfg.sessionTtlMs - MARGIN_MS - 1
    requires BeginCall(id, FinishCall(pf, g.response), now) == Cached(g.response.token)
    ensures After(cfg, pf, id, at, LastMoment(cfg, at, sessionId))
         == Some(World(FinishCall(pf, g.response), at, [g], [Handout(g.response.token, now)]))
  {
    hide *;
    ServeGives(cfg, pf, id, at, sessionId, g);
    ResumeGives(cfg, pf, id, at, g);
    CachedGives(cfg, pf, id, World(FinishCall(pf, g.response), at, [g], []), now, g.response.token);
    RunOfThree(cfg, pf, id, at, sessionId, g, now);
  }

  lemma RunOfThree(cfg: Config, pf: Platform, id: Identity, at: int, sessionId: Text, g: Grant, now: int)
    requires now == at + cfg.sessionTtlMs - MARGIN_MS - 1
    requires Apply(cfg, pf, id, Start(at), Serve(at, sessionId)) == World(EMPTY_CACHE, at, [g], [])
    ensures var w := World(EMPTY_CACHE, at, [g], []);
      After(cfg, pf, id, at, LastMoment(cfg, at, sessionId))
        == Some(Apply(cfg, pf, id, Apply(cfg, pf, id, w, Resume(0)), Enter(now)))
  {
    hide After, Apply;
    AfterThree(cfg, pf, id, at, Serve(at, sessionId), Resume(0), Enter(now));
  }

  lemma CachedGives(cfg: Config, pf: Platform, id: Identity, w: World, now: int, token: Text)
    requires w.handouts == [] && BeginCall(id, w.cache, now) == Cached(token)
    ensures Apply(cfg, pf, id, w, Enter(now)) == World(w.cache, w.serverNow, w.grants, [Handout(token, now)])
  {
    hide BeginCall;
    assert [] + [Handout(token, now)] == [Handout(token, now)];
  }

  lemma ResumeGives(cfg: Config, pf: Platform, id: Identity, at: int, g: Grant)
    ensures Apply(cfg, pf, id, World(EMPTY_CACHE, at, [g], []), Resume(0))
         == World(FinishCall(pf, g.response), at, [g], [])
  {
  }

  lemma ServeGives(cfg: Config, pf: Platform, id: Identity, at: int, sessionId: Text, g: Grant)
    requires IsGrant(cfg, pf, id, at, g) && g.login == Login(LoginCall(id), at, sessionId)
    ensures Apply(cfg, pf, id, Start(at), Serve(at, sessionId)) == World(EMPTY_CACHE, at, [g], [])
  {
    hide Answer;
    assert [] + [g] == [g];
  }

  lemma AfterThree(cfg: Config, pf: Platform, id: Identity, at: int, a: Step, b: Step, c: Step)
    requires var w := Start(at);
      && CanStep(w, a) && CanStep(Apply(cfg, pf, id, w, a), b)
      && CanStep(Apply(cfg, pf, id, Apply(cfg, pf, id, w, a), b), c)
    ensures After(cfg, pf, id, at, [a, b, c])
         == Some(Apply(cfg, pf, id, Apply(cfg, pf, id, Apply(cfg, pf, id, Start(at), a), b), c))
  {
    hide Apply, CanStep, Start;
    assert After(cfg, pf, id, at, []) == Some(Start(at));
    OneMoreStep(cfg, pf, id, at, [], a);
    assert [] + [a] == [a];
    OneMoreStep(cfg, pf, id, at, [a], b);
    assert [a] + [b] == [a, b];
    OneMoreStep(cfg, pf, id, at, [a, b], c);
    assert [a, b] + [c] == [a, b, c];
  }
}
