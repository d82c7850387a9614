/** The `/v1` trial surface of the http-gateway: a capped evidence buffer, a map of deferred approvals
    and a policy source that can be swapped while requests come in.

    `Machine` keeps the whole history; the class keeps what the gateway keeps, and refines it. */
module TrialGateway {
  import opened Options
  import opened TrialEngine

  /** The fields a request body may carry; one of another type counts as missing. */
  datatype Body = Body(scenarioId: Option<string>, intent: Option<Intent>, policy: Option<string>)

  datatype Pending = Pending(intent: Intent, source: string, evaluation: Evaluation)

  // ---- The history machine ---------------------------------------------------------------------

  datatype Deferral = Deferral(token: string, pending: Pending)

  /** An approval or a denial, with the number of deferrals made before it. */
  datatype Resolution = Resolution(token: string, input: EvalInput, deferralsBefore: nat)

  /** `log` is every record ever made, oldest first, and `inputs` what each was decided on. */
  datatype Machine = Machine(
    source: string, pending: map<string, Pending>, log: seq<GelRecord>, inputs: seq<EvalInput>,
    deferrals: seq<Deferral>, resolutions: seq<Resolution>)

  datatype Request =
    | Evaluate(body: Body, approval: Option<Approval>, clock: string)   // also /actions/execute
    | Resolve(token: string, answer: Approval, clock: string)           // /approvals/:id/approve and deny
    | ApplyPolicy(policy: Option<string>)
    | ReadOnly                                                          // replay, audit, check, plan, lists

  function Tip(log: seq<GelRecord>): Option<string> {
    if log == [] then None else Some(log[|log| - 1].currentHash)
  }

  function FindScenario(scenarios: seq<Scenario>, id: string): Option<Scenario> {
    if scenarios == [] then None
    else if scenarios[0].id == id then Some(scenarios[0])
    else FindScenario(scenarios[1..], id)
  }

  function BodyIntent(e: Engine, body: Body): Intent
    requires |e.scenarios| > 0
  {
    if body.intent.Some? then body.intent.value
    else
      var scenario :=
        if body.scenarioId.Some? && body.scenarioId.value != "" then FindScenario(e.scenarios, body.scenarioId.value)
        else None;
      scenario.GetOr(e.scenarios[0]).intent
  }

  predicate IsScenario(e: Engine, id: string, k: nat) {
    k < |e.scenarios| && e.scenarios[k].id == id && forall j :: 0 <= j < k ==> e.scenarios[j].id != id
  }

  lemma {:induction false} FindScenarioExactly(scenarios: seq<Scenario>, id: string) returns (k: nat)
    ensures k <= |scenarios| && forall j :: 0 <= j < k ==> scenarios[j].id != id
    ensures if k < |scenarios| then scenarios[k].id == id && FindScenario(scenarios, id) == Some(scenarios[k])
            else FindScenario(scenarios, id) == None
  {
    k := 0;
    if scenarios != [] && scenarios[0].id != id {
      var j := FindScenarioExactly(scenarios[1..], id);
      k := j + 1;
      assert forall m :: 0 < m < k ==> scenarios[m] == scenarios[1..][m - 1];
    }
  }

  predicate NamesScenario(e: Engine, body: Body) {
    && body.scenarioId.Some? && body.scenarioId.value != ""
    && exists j :: 0 <= j < |e.scenarios| && e.scenarios[j].id == body.scenarioId.value
  }

  /** An intent in the body wins; or else the first scenario of the id; or else the first scenario. */
  lemma BodyIntentExactly(e: Engine, body: Body) returns (k: nat)
    requires |e.scenarios| > 0
    ensures body.intent.Some? ==> BodyIntent(e, body) == body.intent.value
    ensures body.intent == None ==> k < |e.scenarios| && BodyIntent(e, body) == e.scenarios[k].intent
    ensures if NamesScenario(e, body) then IsScenario(e, body.scenarioId.value, k) else k == 0
  {
    k := 0;
    if body.scenarioId.Some? && body.scenarioId.value != "" {
      k := FindScenarioExactly(e.scenarios, body.scenarioId.value);
      if k == |e.scenarios| { k := 0; }
    }
  }

  function EvaluateInput(e: Engine, m: Machine, body: Body, approval: Option<Approval>, clock: string): EvalInput
    requires |e.scenarios| > 0
  {
    EvalInput(body.policy.GetOr(m.source), BodyIntent(e, body), approval, Tip(m.log), None, clock)
  }

  function ResolveInput(m: Machine, token: string, approval: Approval, clock: string): EvalInput
    requires token in m.pending
  {
    EvalInput(m.pending[token].source, m.pending[token].intent, Some(approval), Tip(m.log), None, clock)
  }

  function DeferredToken(evaluation: Evaluation): Option<string> {
    if evaluation.deferToken.Some? && evaluation.deferToken.value != "" then evaluation.deferToken else None
  }

  /** The engine's answer is logged, and a deferral is kept for the operator. */
  function Logged(m: Machine, input: EvalInput, evaluation: Evaluation): Machine {
    var logged := m.(log := m.log + [evaluation.gelRecord], inputs := m.inputs + [input]);
    match DeferredToken(evaluation)
    case Some(token) =>
      var p := Pending(input.intent, input.source, evaluation);
      logged.(pending := m.pending[token := p], deferrals := m.deferrals + [Deferral(token, p)])
    case None => logged
  }

  function Settled(m: Machine, token: string, input: EvalInput, evaluation: Evaluation): Machine {
    m.(log := m.log + [evaluation.gelRecord],
       inputs := m.inputs + [input],
       pending := m.pending - {token},
       resolutions := m.resolutions + [Resolution(token, input, |m.deferrals|)])
  }

  /** One request, seen as history: records and deferrals are only ever added.  When the engine throws,
      the handler stops before it changes anything. */
  function Step(e: Engine, m: Machine, req: Request): Machine
    requires |e.scenarios| > 0
  {
    match req
    case Evaluate(body, approval, clock) =>
      var input := EvaluateInput(e, m, body, approval, clock);
      (match EvaluateTrial(e, input)
       case Some(evaluation) => Logged(m, input, evaluation)
       case None => m)
    case Resolve(token, approval, clock) =>
      if token !in m.pending then m
      else
        var input := ResolveInput(m, token, approval, clock);
        (match EvaluateTrial(e, input)
         case Some(evaluation) => Settled(m, token, input, evaluation)
         case None => m)
    case ApplyPolicy(policy) =>
      if Validates(e, policy.GetOr("")) then m.(source := policy.GetOr("")) else m
    case ReadOnly => m
  }

  function Run(e: Engine, m: Machine, reqs: seq<Request>): Machine
    requires |e.scenarios| > 0
    decreases |reqs|
  {
    if reqs == [] then m else Step(e, Run(e, m, reqs[..|reqs| - 1]), reqs[|reqs| - 1])
  }

  function Start(source: string): Machine {
    Machine(source, map[], [], [], [], [])
  }

  // ---- What every run keeps --------------------------------------------------------------------

  predicate IsChained(log: seq<GelRecord>) {
    forall i :: 0 <= i < |log| ==> log[i].previousHash == Tip(log[..i]).GetOr(GENESIS)
  }

  function CountDeferrals(ds: seq<Deferral>, token: string): nat {
    if ds == [] then 0 else CountDeferrals(ds[..|ds| - 1], token) + if ds[|ds| - 1].token == token then 1 else 0
  }

  function CountResolutions(rs: seq<Resolution>, token: string): nat {
    if rs == [] then 0 else CountResolutions(rs[..|rs| - 1], token) + if rs[|rs| - 1].token == token then 1 else 0
  }

  /** What the newest deferral of a token held. */
  function LatestDeferral(ds: seq<Deferral>, token: string): Option<Pending> {
    if ds == [] then None
    else if ds[|ds| - 1].token == token then Some(ds[|ds| - 1].pending)
    else LatestDeferral(ds[..|ds| - 1], token)
  }

  function IfPending(m: Machine, token: string): nat {
    if token in m.pending then 1 else 0
  }

  /** A token is resolved at most as often as it was deferred; a pending one has one turn left. */
  ghost predicate ResolvedWithinDeferred(m: Machine) {
    forall t :: CountResolutions(m.resolutions, t) + IfPending(m, t) <= CountDeferrals(m.deferrals, t)
  }

  /** A pending entry is what its latest deferral held, and its key is its own token. */
  ghost predicate PendingIsLatest(m: Machine) {
    forall t :: t in m.pending ==>
      && LatestDeferral(m.deferrals, t) == Some(m.pending[t])
      && m.pending[t].evaluation.deferToken == Some(t)
  }

  predicate DecidedUnderLatest(m: Machine, r: Resolution) {
    && r.deferralsBefore <= |m.deferrals|
    && var latest := LatestDeferral(m.deferrals[..r.deferralsBefore], r.token);
       latest.Some? && r.input.source == latest.value.source && r.input.intent == latest.value.intent
  }

  /** Every resolution was decided under the source and intent of the latest deferral before it. */
  ghost predicate ResolutionsFollowDeferrals(m: Machine) {
    forall i :: 0 <= i < |m.resolutions| ==> DecidedUnderLatest(m, m.resolutions[i])
  }

  /** A pending action is one that the rules defer as long as no operator answers. */
  ghost predicate PendingIsDeferred(e: Engine, m: Machine) {
    forall t :: t in m.pending ==> IsDeferred(e, m.pending[t].source, m.pending[t].intent)
  }

  predicate IsDecidedOn(e: Engine, record: GelRecord, input: EvalInput) {
    EvaluateTrial(e, input).Some? && EvaluateTrial(e, input).value.gelRecord == record
  }

  /** Every record is what the engine returned for its input. */
  ghost predicate LogIsDecided(e: Engine, log: seq<GelRecord>, inputs: seq<EvalInput>) {
    |inputs| == |log| && forall k: nat | k < |log| :: IsDecidedOn(e, log[k], inputs[k])
  }

  ghost predicate Invariant(e: Engine, m: Machine) {
    && LogIsDecided(e, m.log, m.inputs)
    && IsChained(m.log) && ResolvedWithinDeferred(m) && PendingIsLatest(m) && ResolutionsFollowDeferrals(m)
    && PendingIsDeferred(e, m) && Validates(e, m.source)
  }

  lemma ChainGrows(log: seq<GelRecord>, record: GelRecord)
    requires IsChained(log) && record.previousHash == Tip(log).GetOr(GENESIS)
    ensures IsChained(log + [record])
  {
    var longer := log + [record];
    forall i | 0 <= i < |longer|
      ensures longer[i].previousHash == Tip(longer[..i]).GetOr(GENESIS)
    {
      assert longer[..i] == log[..i];
      assert log[..|log|] == log;
    }
  }

  lemma ResolutionsStay(m: Machine, n: Machine)
    requires ResolutionsFollowDeferrals(m)
    requires m.deferrals <= n.deferrals && m.resolutions == n.resolutions
    ensures ResolutionsFollowDeferrals(n)
  {
    forall i | 0 <= i < |n.resolutions|
      ensures DecidedUnderLatest(n, n.resolutions[i])
    {
      var r := n.resolutions[i];
      assert DecidedUnderLatest(m, r);
      assert n.deferrals[..r.deferralsBefore] == m.deferrals[..r.deferralsBefore];
    }
  }

  lemma DeferKeeps(m: Machine, token: string, p: Pending, n: Machine)
    requires ResolvedWithinDeferred(m) && PendingIsLatest(m) && ResolutionsFollowDeferrals(m)
    requires p.evaluation.deferToken == Some(token)
    requires n.pending == m.pending[token := p] && n.deferrals == m.deferrals + [Deferral(token, p)]
    requires n.resolutions == m.resolutions
    ensures ResolvedWithinDeferred(n) && PendingIsLatest(n) && ResolutionsFollowDeferrals(n)
  {
    assert n.deferrals[..|n.deferrals| - 1] == m.deferrals;
    forall t
      ensures CountResolutions(n.resolutions, t) + IfPending(n, t) <= CountDeferrals(n.deferrals, t)
    {
      assert CountResolutions(m.resolutions, t) + IfPending(m, t) <= CountDeferrals(m.deferrals, t);
    }
    ResolutionsStay(m, n);
  }

  lemma ResolveKeeps(m: Machine, r: Resolution, n: Machine)
    requires ResolvedWithinDeferred(m) && PendingIsLatest(m) && ResolutionsFollowDeferrals(m)
    requires r.token in m.pending && r.deferralsBefore == |m.deferrals|
    requires r.input.source == m.pending[r.token].source && r.input.intent == m.pending[r.token].intent
    requires n.pending == m.pending - {r.token} && n.deferrals == m.deferrals
    requires n.resolutions == m.resolutions + [r]
    ensures ResolvedWithinDeferred(n) && PendingIsLatest(n) && ResolutionsFollowDeferrals(n)
  {
    assert n.resolutions[..|n.resolutions| - 1] == m.resolutions;
    forall t
      ensures CountResolutions(n.resolutions, t) + IfPending(n, t) <= CountDeferrals(n.deferrals, t)
    {
      assert CountResolutions(m.resolutions, t) + IfPending(m, t) <= CountDeferrals(m.deferrals, t);
    }
    forall i | 0 <= i < |n.resolutions|
      ensures DecidedUnderLatest(n, n.resolutions[i])
    {
      if i < |m.resolutions| {
        assert DecidedUnderLatest(m, m.resolutions[i]);
      } else {
        assert m.deferrals[..|m.deferrals|] == m.deferrals;
      }
    }
  }

  lemma DecidedGrows(e: Engine, m: Machine, n: Machine, input: EvalInput)
    requires LogIsDecided(e, m.log, m.inputs) && EvaluateTrial(e, input).Some?
    requires n.log == m.log + [EvaluateTrial(e, input).value.gelRecord] && n.inputs == m.inputs + [input]
    ensures LogIsDecided(e, n.log, n.inputs)
  {
    hide EvaluateTrial;
    forall k: nat | k < |n.log|
      ensures IsDecidedOn(e, n.log[k], n.inputs[k])
    {
      assert k < |m.log| ==> IsDecidedOn(e, m.log[k], m.inputs[k]);
    }
  }

  lemma LoggedKeepsInvariant(e: Engine, m: Machine, input: EvalInput, evaluation: Evaluation)
    requires Invariant(e, m) && input.previousHash == Tip(m.log)
    requires EvaluateTrial(e, input) == Some(evaluation)
    ensures Invariant(e, Logged(m, input, evaluation))
  {
    var n := Logged(m, input, evaluation);
    EvaluationFacts(e, input);
    DecidedGrows(e, m, n, input);
    ChainGrows(m.log, evaluation.gelRecord);
    match DeferredToken(evaluation) {
      case Some(token) =>
        DeferredOnly(e, input);
        DeferKeeps(m, token, Pending(input.intent, input.source, evaluation), n);
      case None =>
        assert forall t :: IfPending(n, t) == IfPending(m, t);
        ResolutionsStay(m, n);
    }
  }

  lemma SettledKeepsInvariant(e: Engine, m: Machine, token: string, input: EvalInput, evaluation: Evaluation)
    requires Invariant(e, m) && input.previousHash == Tip(m.log) && token in m.pending
    requires input.source == m.pending[token].source && input.intent == m.pending[token].intent
    requires EvaluateTrial(e, input) == Some(evaluation)
    ensures Invariant(e, Settled(m, token, input, evaluation))
  {
    EvaluationFacts(e, input);
    DecidedGrows(e, m, Settled(m, token, input, evaluation), input);
    ChainGrows(m.log, evaluation.gelRecord);
    ResolveKeeps(m, Resolution(token, input, |m.deferrals|), Settled(m, token, input, evaluation));
  }

  lemma StepKeepsInvariant(e: Engine, m: Machine, req: Request)
    requires |e.scenarios| > 0 && Invariant(e, m)
    ensures Invariant(e, Step(e, m, req))
  {
    hide Invariant, Logged, Settled, EvaluateTrial;
    match req {
      case Evaluate(body, approval, clock) =>
        var input := EvaluateInput(e, m, body, approval, clock);
        match EvaluateTrial(e, input) {
          case Some(evaluation) => LoggedKeepsInvariant(e, m, input, evaluation);
          case None =>
        }
      case Resolve(token, approval, clock) =>
        if token in m.pending {
          var input := ResolveInput(m, token, approval, clock);
          match EvaluateTrial(e, input) {
            case Some(evaluation) => SettledKeepsInvariant(e, m, token, input, evaluation);
            case None =>
          }
        }
      case ApplyPolicy(policy) =>
        if Validates(e, policy.GetOr("")) { SourceKeepsInvariant(e, m, policy.GetOr("")); }
      case ReadOnly =>
    }
  }

  lemma SourceKeepsInvariant(e: Engine, m: Machine, source: string)
    requires Invariant(e, m) && Validates(e, source)
    ensures Invariant(e, m.(source := source))
  {
    var n := m.(source := source);
    assert forall t :: IfPending(n, t) == IfPending(m, t);
    ResolutionsStay(m, n);
  }

  /** Over every run from a valid policy: the log is one hash chain, each token is resolved at most as
      often as it was deferred, each pending key is its entry's own token and its entry is one the rules
      defer, each resolution was decided under the source of the latest deferral, and the active source
      validates. */
  lemma {:induction false} EveryRunKeepsInvariant(e: Engine, source: string, reqs: seq<Request>)
    requires |e.scenarios| > 0 && Validates(e, source)
    ensures Invariant(e, Run(e, Start(source), reqs))
    decreases |reqs|
  {
    if reqs == [] {
    } else {
      EveryRunKeepsInvariant(e, source, reqs[..|reqs| - 1]);
      StepKeepsInvariant(e, Run(e, Start(source), reqs[..|reqs| - 1]), reqs[|reqs| - 1]);
    }
  }

  /** No run ever logs a permit or a deferral outside the policy it was decided under: not on a revoked or
      unbound authority, not for an action that is not granted or is denied, not over either limit; and a
      permit from the asked amount on is logged only with an approval. */
  lemma NoRunLogsOverTheLimits(e: Engine, source: string, reqs: seq<Request>, k: nat)
    requires |e.scenarios| > 0 && Validates(e, source)
    requires k < |Run(e, Start(source), reqs).log|
    ensures var m := Run(e, Start(source), reqs);
      && k < |m.inputs| && e.parse(m.inputs[k].source).Some?
      && IsWarranted(e.parse(m.inputs[k].source).value, m.inputs[k], m.log[k].decision)
  {
    hide EvaluateTrial, IsWarranted, Run;
    EveryRunKeepsInvariant(e, source, reqs);
    var m := Run(e, Start(source), reqs);
    assert IsDecidedOn(e, m.log[k], m.inputs[k]);
    ReturnedIsWarranted(e, m.inputs[k]);
    RecordTellsDecision(e, m.inputs[k]);
  }

  predicate SameMaterials(e: Engine, a: seq<EvalInput>, b: seq<EvalInput>) {
    && |a| == |b|
    && forall k :: 0 <= k < |a| ==>
      && EvaluateTrial(e, a[k]).Some? && EvaluateTrial(e, b[k]).Some?
      && MaterialOf(e, a[k]) == MaterialOf(e, b[k])
  }

  /** The newest hash stands for the whole log: two logs that end in the same hash have the same length,
      and their records agree on every decision, action, policy, authority, warrant and link, unless the
      hash has a collision. */
  lemma {:induction false} TipTellsHistory(e: Engine, log: seq<GelRecord>, inputs: seq<EvalInput>,
                                           other: seq<GelRecord>, others: seq<EvalInput>)
    requires IsChained(log) && LogIsDecided(e, log, inputs) && IsChained(other) && LogIsDecided(e, other, others)
    requires Tip(log) == Tip(other)
    ensures SameMaterials(e, inputs, others) || HasCollision(e)
    decreases |log|
  {
    hide EvaluateTrial, MaterialOf, HasCollision;
    if log == [] || other == [] {
    } else {
      var k, l := |log| - 1, |other| - 1;
      assert IsDecidedOn(e, log[k], inputs[k]) && IsDecidedOn(e, other[l], others[l]);
      SameHashSameMaterial(e, inputs[k], others[l]);
      MaterialTells(e, inputs[k]);
      MaterialTells(e, others[l]);
      if MaterialOf(e, inputs[k]) == MaterialOf(e, others[l]) {
        PrefixIsChained(e, log, inputs);
        PrefixIsChained(e, other, others);
        TipTellsHistory(e, log[..k], inputs[..k], other[..l], others[..l]);
      }
    }
  }

  /** The last record points at the log before it: no hash reads "GENESIS". */
  lemma PrefixIsChained(e: Engine, log: seq<GelRecord>, inputs: seq<EvalInput>)
    requires log != [] && IsChained(log) && LogIsDecided(e, log, inputs)
    ensures var k := |log| - 1;
      && IsChained(log[..k]) && LogIsDecided(e, log[..k], inputs[..k])
      && log[k].previousHash == Tip(log[..k]).GetOr(GENESIS) && Tip(log[..k]) != Some(GENESIS)
  {
    hide EvaluateTrial;
    var k := |log| - 1;
    forall i | 0 <= i < k
      ensures log[..k][i].previousHash == Tip(log[..k][..i]).GetOr(GENESIS)
    {
      assert log[..k][..i] == log[..i];
    }
    if k > 0 {
      assert IsDecidedOn(e, log[k - 1], inputs[k - 1]);
      MaterialTells(e, inputs[k - 1]);
      assert log[k - 1].currentHash[0] == 'a' && GENESIS[0] == 'G';
    }
  }

  /** In any two runs: equal newest hashes mean equal histories, up to a collision of the hash. */
  lemma RunsWithOneTip(e: Engine, source: string, reqs: seq<Request>, other: string, others: seq<Request>)
    requires |e.scenarios| > 0 && Validates(e, source) && Validates(e, other)
    requires Tip(Run(e, Start(source), reqs).log) == Tip(Run(e, Start(other), others).log)
    ensures SameMaterials(e, Run(e, Start(source), reqs).inputs, Run(e, Start(other), others).inputs) || HasCollision(e)
  {
    hide EvaluateTrial, Run, SameMaterials;
    EveryRunKeepsInvariant(e, source, reqs);
    EveryRunKeepsInvariant(e, other, others);
    var m, n := Run(e, Start(source), reqs), Run(e, Start(other), others);
    TipTellsHistory(e, m.log, m.inputs, n.log, n.inputs);
  }

  /** The input of the engine call that a request makes, if it makes one and logs it. */
  function InputOf(e: Engine, m: Machine, req: Request): Option<EvalInput>
    requires |e.scenarios| > 0
  {
    match req
    case Evaluate(body, approval, clock) => Some(EvaluateInput(e, m, body, approval, clock))
    case Resolve(token, approval, clock) =>
      if token in m.pending then Some(ResolveInput(m, token, approval, clock)) else None
    case _ => None
  }

  /** The engine is called and returns. */
  predicate AddsRecord(e: Engine, m: Machine, req: Request)
    requires |e.scenarios| > 0
  {
    InputOf(e, m, req).Some? && EvaluateTrial(e, InputOf(e, m, req).value).Some?
  }

  /** Evaluate, execute, approve and deny add exactly one record if the engine returns, and a resolution
      only for a pending token.  In every other case none is added, and nothing but an applied policy
      changes at all, so a pending token stays pending. */
  lemma StepAddsOneRecord(e: Engine, m: Machine, req: Request)
    requires |e.scenarios| > 0
    ensures m.log <= Step(e, m, req).log
    ensures |Step(e, m, req).log| == |m.log| + if AddsRecord(e, m, req) then 1 else 0
    ensures Step(e, m, req) != m && !req.ApplyPolicy? ==> AddsRecord(e, m, req)
    ensures req.Resolve? && req.token in m.pending ==>
      (req.token !in Step(e, m, req).pending <==> AddsRecord(e, m, req))
  {
    hide EvaluateTrial;
  }

  /** An answer settles a token for good or changes nothing; a second answer to a settled token finds
      nothing and changes nothing. */
  lemma ResolveOnce(e: Engine, m: Machine, token: string, a: Approval, b: Approval, clock: string, later: string)
    requires |e.scenarios| > 0
    ensures var once := Step(e, m, Resolve(token, a, clock));
      && (token in once.pending ==> once == m)
      && (token !in once.pending ==> Step(e, once, Resolve(token, b, later)) == once)
  {
    hide EvaluateTrial;
  }

  // ---- When the engine throws ------------------------------------------------------------------

  /** In every reachable state a denial settles its pending token, with one record that says so. */
  lemma DenialSettles(e: Engine, m: Machine, token: string, clock: string)
    requires |e.scenarios| > 0 && Invariant(e, m) && token in m.pending
    ensures var n := Step(e, m, Resolve(token, Denied, clock));
      token !in n.pending && |n.log| == |m.log| + 1 && n.log[|m.log|].decision == Deny
  {
    var input := ResolveInput(m, token, Denied, clock);
    AnswerToDeferred(e, input);
    RecordTellsDecision(e, input);
  }

  lemma RecordTellsDecision(e: Engine, i: EvalInput)
    requires EvaluateTrial(e, i).Some?
    ensures EvaluateTrial(e, i).value.gelRecord.decision == EvaluateTrial(e, i).value.decision
  {
  }

  /** The expiry of the warrant that an approval of this token would issue is a date. */
  predicate WarrantCanExpire(e: Engine, m: Machine, token: string, clock: string)
    requires token in m.pending && e.parse(m.pending[token].source).Some?
  {
    var p := m.pending[token];
    e.plusSeconds(p.intent.occurredAt.GetOr(clock), e.parse(p.source).value.warrantSeconds).Some?
  }

  /** In every reachable state an approval, full or reduced, settles its pending token, with one record of
      a permit, if and only if the warrant can expire.  Otherwise it throws and the token stays pending. */
  lemma ApprovalSettlesExactly(e: Engine, m: Machine, token: string, answer: Approval, clock: string)
    requires |e.scenarios| > 0 && Invariant(e, m) && token in m.pending && Approves(Some(answer))
    ensures e.parse(m.pending[token].source).Some?
    ensures var n := Step(e, m, Resolve(token, answer, clock));
      if WarrantCanExpire(e, m, token, clock) then
        token !in n.pending && |n.log| == |m.log| + 1 && n.log[|m.log|].decision == Permit
      else n == m
  {
    var input := ResolveInput(m, token, answer, clock);
    assert IsDeferred(e, input.source, input.intent);
    AnswerToDeferred(e, input);
    if EvaluateTrial(e, input).Some? { RecordTellsDecision(e, input); }
  }

  /** Under the active source, in every reachable state, evaluate and execute throw exactly on an intent
      without parameters and on a permitted one whose warrant would expire at no date. */
  lemma ActiveSourceReturnsExactly(e: Engine, m: Machine, body: Body, approval: Option<Approval>, clock: string)
    requires |e.scenarios| > 0 && Invariant(e, m) && body.policy == None
    ensures var input := EvaluateInput(e, m, body, approval, clock);
      && e.parse(input.source).Some?
      && (AddsRecord(e, m, Request.Evaluate(body, approval, clock)) <==>
        && input.intent.parameters.Some?
        && (IsPermitted(e, input) ==>
              e.plusSeconds(TimeOf(input), e.parse(input.source).value.warrantSeconds).Some?))
  {
    ReturnsExactly(e, EvaluateInput(e, m, body, approval, clock));
  }

  /** The first input: an evaluation with the policy text "" adds no record and changes nothing. */
  lemma EmptyPolicyAddsNothing(e: Engine, m: Machine, body: Body, approval: Option<Approval>, clock: string)
    requires IsEngine(e) && body.policy == Some("")
    ensures Step(e, m, Request.Evaluate(body, approval, clock)) == m
  {
    EmptySourceThrows(e, EvaluateInput(e, m, body, approval, clock));
  }

  /** The second input: an intent that the active policy defers and whose time is the word "soon".  It is
      recorded and kept pending; no approval ever settles it, and a denial does. */
  lemma SoonStaysPending(e: Engine, m: Machine, body: Body, clock: string, answer: Approval, later: string)
    returns (token: string)
    requires IsEngine(e) && Invariant(e, m) && body.policy == None && Approves(Some(answer))
    requires IsDeferred(e, m.source, BodyIntent(e, body)) && BodyIntent(e, body).occurredAt == Some("soon")
    ensures var n := Step(e, m, Request.Evaluate(body, None, clock));
      && |n.log| == |m.log| + 1 && token in n.pending
      && Step(e, n, Resolve(token, answer, later)) == n
      && token !in Step(e, n, Resolve(token, Denied, later)).pending
  {
    var req := Request.Evaluate(body, None, clock);
    var input, n := EvaluateInput(e, m, body, None, clock), Step(e, m, req);
    DeferredReturns(e, input);
    EvaluationFacts(e, input);
    StepKeepsInvariant(e, m, req);
    token := EvaluateTrial(e, input).value.deferToken.value;
    assert n.pending[token].intent == input.intent;
    ApprovalSettlesExactly(e, n, token, answer, later);
    DenialSettles(e, n, token, later);
  }

  /** Policies applied between a deferral and its resolution do not matter to the decision. */
  lemma {:induction false} PolicyChangesDoNotReachPending(e: Engine, m: Machine, token: string,
                                                          policies: seq<Option<string>>, approval: Approval,
                                                          clock: string)
    requires |e.scenarios| > 0 && token in m.pending
    ensures var n := Run(e, m, ApplyAll(policies));
      token in n.pending && ResolveInput(n, token, approval, clock) == ResolveInput(m, token, approval, clock)
    decreases |policies|
  {
    if policies == [] {
    } else {
      var k := |policies| - 1;
      PolicyChangesDoNotReachPending(e, m, token, policies[..k], approval, clock);
      assert ApplyAll(policies)[..k] == ApplyAll(policies[..k]);
    }
  }

  function ApplyAll(policies: seq<Option<string>>): seq<Request> {
    seq(|policies|, i requires 0 <= i < |policies| => ApplyPolicy(policies[i]))
  }

  // ---- The capped buffer -----------------------------------------------------------------------

  const CAP := 100

  /** The newest records first, at most `n` of them. */
  function Newest(log: seq<GelRecord>, n: nat): seq<GelRecord> {
    if log == [] || n == 0 then [] else [log[|log| - 1]] + Newest(log[..|log| - 1], n - 1)
  }

  lemma {:induction false} NewestExact(log: seq<GelRecord>, n: nat)
    ensures |Newest(log, n)| == if |log| < n then |log| else n
    ensures forall i :: 0 <= i < |Newest(log, n)| ==> Newest(log, n)[i] == log[|log| - 1 - i]
  {
    if log == [] || n == 0 {
    } else {
      NewestExact(log[..|log| - 1], n - 1);
      var rest := Newest(log[..|log| - 1], n - 1);
      forall i | 0 <= i < |Newest(log, n)|
        ensures Newest(log, n)[i] == log[|log| - 1 - i]
      {
        if i > 0 { assert Newest(log, n)[i] == rest[i - 1]; }
      }
    }
  }

  lemma NewestSnoc(log: seq<GelRecord>, record: GelRecord, cap: nat)
    requires cap > 0
    ensures Newest(log + [record], cap) == [record] + Newest(log, cap - 1)
  {
    assert (log + [record])[..|log|] == log;
  }

  lemma NewestFewer(log: seq<GelRecord>, cap: nat)
    requires cap > 0
    ensures var r := Newest(log, cap);
      Newest(log, cap - 1) == if |r| < cap then r else r[..cap - 1]
  {
    NewestExact(log, cap);
    NewestExact(log, cap - 1);
  }

  /** `unshift` then `pop` when over the cap keeps the newest records. */
  lemma UnshiftPop(log: seq<GelRecord>, record: GelRecord, cap: nat)
    requires cap > 0
    ensures var grown := [record] + Newest(log, cap);
      Newest(log + [record], cap) == if |grown| > cap then grown[..|grown| - 1] else grown
  {
    NewestSnoc(log, record, cap);
    NewestFewer(log, cap);
    NewestExact(log, cap);
  }

  /** Neighbours in the buffer are linked: each record names the hash of the next older one. */
  lemma BufferIsLinked(log: seq<GelRecord>, i: nat)
    requires IsChained(log) && i + 1 < |Newest(log, CAP)|
    ensures Newest(log, CAP)[i].previousHash == Newest(log, CAP)[i + 1].currentHash
  {
    hide Newest;
    NewestExact(log, CAP);
    var k := |log| - 1 - i;
    assert log[k].previousHash == Tip(log[..k]).GetOr(GENESIS);
  }

  // ---- The gateway -----------------------------------------------------------------------------

  /** The log index of the oldest record still in the buffer. */
  function Oldest(log: seq<GelRecord>): nat {
    if |log| < CAP then 0 else |log| - CAP
  }

  ghost predicate IsNewestMatch(log: seq<GelRecord>, k: nat, recordId: string, r: GelRecord)
    requires k < |log|
  {
    && log[k] == r && r.recordId == recordId
    && forall l :: k < l < |log| ==> log[l].recordId != recordId
  }

  /** `records.find(...)` on the buffer of a log. */
  method FindIn(records: seq<GelRecord>, recordId: string, ghost log: seq<GelRecord>) returns (found: Option<GelRecord>)
    requires records == Newest(log, CAP)
    ensures found == None ==> forall k :: Oldest(log) <= k < |log| ==> log[k].recordId != recordId
    ensures found.Some? ==> exists k :: Oldest(log) <= k < |log| && IsNewestMatch(log, k, recordId, found.value)
  {
    NewestExact(log, CAP);
    var i := 0;
    while i < |records|
      invariant 0 <= i <= |records|
      invariant forall k :: |log| - i <= k < |log| ==> log[k].recordId != recordId
    {
      assert records[i] == log[|log| - 1 - i];
      if records[i].recordId == recordId {
        assert IsNewestMatch(log, |log| - 1 - i, recordId, records[i]);
        return Some(records[i]);
      }
      i := i + 1;
    }
    return None;
  }

  /** NotFound is the 404; Thrown is the engine's error, which goes to Express. */
  datatype ResolveResult = NotFound | Thrown | Resolved(evaluation: Evaluation)

  function ResolveOutcome(e: Engine, m: Machine, id: string, approval: Approval, clock: string): ResolveResult {
    if id !in m.pending then NotFound
    else
      match EvaluateTrial(e, ResolveInput(m, id, approval, clock))
      case Some(evaluation) => Resolved(evaluation)
      case None => Thrown
  }

  const REPLAY_TIME := "2026-01-01T00:00:00.000Z"

  function ReplayInput(e: Engine, source: string, policy: Option<string>, intent: Option<Intent>,
                       previousHash: Option<string>, now: Option<string>, clock: string): EvalInput
    requires |e.scenarios| > 0
  {
    EvalInput(policy.GetOr(source), intent.GetOr(e.scenarios[0].intent), None, Some(previousHash.GetOr(GENESIS)),
              Some(now.GetOr(REPLAY_TIME)), clock)
  }

  lemma PendingAnswer(e: Engine, m: Machine, id: string, answer: Approval, clock: string)
    requires Invariant(e, m) && id in m.pending
    ensures var r := ResolveOutcome(e, m, id, answer, clock);
      && !r.NotFound?
      && (answer == Denied ==> r.Resolved? && r.evaluation.decision == Deny)
      && (Approves(Some(answer)) && r.Resolved? ==> r.evaluation.decision == Permit)
  {
    AnswerToDeferred(e, ResolveInput(m, id, answer, clock));
  }

  class Gateway {
    const engine: Engine
    var source: string
    var records: seq<GelRecord>
    var approvals: map<string, Pending>
    ghost var history: Machine

    /** The buffer is the newest part of the log; source and approvals are the machine's own. */
    ghost predicate Refines()
      reads this
    {
      && |engine.scenarios| > 0
      && records == Newest(history.log, CAP)
      && source == history.source && approvals == history.pending
    }

    ghost predicate Valid()
      reads this
    {
      Refines() && Invariant(engine, history)
    }

    constructor (engine: Engine, source: string)
      requires |engine.scenarios| > 0 && Validates(engine, source)
      ensures Valid() && this.engine == engine && history == Start(source)
    {
      this.engine := engine;
      this.source := source;
      records, approvals := [], map[];
      history := Start(source);
      new;
      EveryRunKeepsInvariant(engine, source, []);
    }

    /** `trialGelRecords[0]?.currentHash`. */
    function PreviousHash(): Option<string>
      reads this
    {
      if records == [] then None else Some(records[0].currentHash)
    }

    lemma PreviousHashIsTip()
      requires records == Newest(history.log, CAP)
      ensures PreviousHash() == Tip(history.log)
    {
      NewestExact(history.log, CAP);
    }

    method AppendTrialRecord(evaluation: Evaluation)
      requires records == Newest(history.log, CAP)
      modifies `records
      ensures records == Newest(history.log + [evaluation.gelRecord], CAP)
    {
      UnshiftPop(history.log, evaluation.gelRecord, CAP);
      records := [evaluation.gelRecord] + records;
      if |records| > 100 {
        records := records[..|records| - 1];
      }
    }

    /** None is the engine's error; nothing has changed then. */
    method EvaluateTrialRequest(body: Body, approval: Option<Approval>, clock: string)
      returns (intent: Intent, evaluation: Option<Evaluation>)
      requires Refines()
      modifies this
      ensures Refines() && history == Step(engine, old(history), Request.Evaluate(body, approval, clock))
      ensures intent == BodyIntent(engine, body)
      ensures evaluation == EvaluateTrial(engine, EvaluateInput(engine, old(history), body, approval, clock))
      ensures evaluation == None ==>
        records == old(records) && approvals == old(approvals) && history == old(history)
    {
      hide EvaluateTrial, Newest;
      PreviousHashIsTip();
      intent := BodyIntent(engine, body);
      var policy := body.policy.GetOr(source);
      evaluation := EvaluateTrial(engine, EvalInput(policy, intent, approval, PreviousHash(), None, clock));
      if evaluation == None { return; }
      var result := evaluation.value;
      AppendTrialRecord(result);
      if result.deferToken.Some? && result.deferToken.value != "" {
        approvals := approvals[result.deferToken.value := Pending(intent, policy, result)];
      }
      history := Step(engine, history, Request.Evaluate(body, approval, clock));
    }

    /** POST /v1/actions/evaluate. */
    method EvaluateAction(body: Body, clock: string) returns (intent: Intent, evaluation: Option<Evaluation>)
      requires Valid()
      modifies this
      ensures Valid() && history == Step(engine, old(history), Request.Evaluate(body, None, clock))
      ensures evaluation == EvaluateTrial(engine, EvaluateInput(engine, old(history), body, None, clock))
      ensures evaluation == None ==>
        records == old(records) && approvals == old(approvals) && history == old(history)
    {
      hide EvaluateTrial, Invariant, Newest, Step;
      StepKeepsInvariant(engine, history, Request.Evaluate(body, None, clock));
      intent, evaluation := EvaluateTrialRequest(body, None, clock);
    }

    /** POST /v1/actions/execute: the status tells what became of the action, and 500 that the engine threw. */
    method Execute(body: Body, approval: Option<Approval>, clock: string)
      returns (status: nat, executed: bool, evaluation: Option<Evaluation>)
      requires Valid()
      modifies this
      ensures Valid() && history == Step(engine, old(history), Request.Evaluate(body, approval, clock))
      ensures evaluation == EvaluateTrial(engine, EvaluateInput(engine, old(history), body, approval, clock))
      ensures status == 500 <==> evaluation == None
      ensures executed <==> evaluation.Some? && evaluation.value.decision == Permit
      ensures executed <==> evaluation.Some? && evaluation.value.warrant.Some?
      ensures status == 200 <==> executed
      ensures status == 202 <==> evaluation.Some? && evaluation.value.decision == Defer
      ensures status == 409 <==> evaluation.Some? && evaluation.value.decision in {Deny, FailClosed}
      ensures evaluation == None ==>
        records == old(records) && approvals == old(approvals) && history == old(history)
    {
      hide EvaluateTrial, Invariant, Newest, Step;
      StepKeepsInvariant(engine, history, Request.Evaluate(body, approval, clock));
      ghost var input := EvaluateInput(engine, history, body, approval, clock);
      var intent;
      intent, evaluation := EvaluateTrialRequest(body, approval, clock);
      if evaluation == None { return 500, false, None; }
      EvaluationFacts(engine, input);
      executed := evaluation.value.decision == Permit;
      status := if executed then 200 else if evaluation.value.decision == Defer then 202 else 409;
    }

    /** The common part of approve and deny. */
    method ResolveDeferred(id: string, approval: Approval, clock: string) returns (result: ResolveResult)
      requires Refines()
      modifies this
      ensures Refines() && history == Step(engine, old(history), Resolve(id, approval, clock))
      ensures result == ResolveOutcome(engine, old(history), id, approval, clock)
      ensures result.Resolved? ==> id !in approvals
      ensures !result.Resolved? ==>
        records == old(records) && approvals == old(approvals) && history == old(history)
    {
      hide EvaluateTrial, Newest;
      if id !in approvals {
        return NotFound;
      }
      PreviousHashIsTip();
      var deferred := approvals[id];
      var input := EvalInput(deferred.source, deferred.intent, Some(approval), PreviousHash(), None, clock);
      var evaluation := EvaluateTrial(engine, input);
      if evaluation == None {
        return Thrown;
      }
      AppendTrialRecord(evaluation.value);
      approvals := approvals - {id};
      history := Step(engine, history, Resolve(id, approval, clock));
      result := Resolved(evaluation.value);
    }

    /** POST /v1/approvals/:id/approve: an approval that throws leaves its token pending. */
    method Approve(id: string, reducedAuthority: bool, clock: string) returns (result: ResolveResult)
      requires Valid()
      modifies this
      ensures var answer := if reducedAuthority then ReducedAuthority else Approved;
        && Valid() && history == Step(engine, old(history), Resolve(id, answer, clock))
        && result == ResolveOutcome(engine, old(history), id, answer, clock)
      ensures result.NotFound? <==> id !in old(approvals)
      ensures result.Resolved? ==> id !in approvals && result.evaluation.decision == Permit
      ensures !result.Resolved? ==>
        records == old(records) && approvals == old(approvals) && history == old(history)
    {
      hide EvaluateTrial, Invariant, Newest, Step;
      var approval := if reducedAuthority then ReducedAuthority else Approved;
      StepKeepsInvariant(engine, history, Resolve(id, approval, clock));
      if id in approvals { PendingAnswer(engine, history, id, approval, clock); }
      result := ResolveDeferred(id, approval, clock);
    }

    /** POST /v1/approvals/:id/deny: a pending action can always be denied. */
    method Refuse(id: string, clock: string) returns (result: ResolveResult)
      requires Valid()
      modifies this
      ensures Valid() && history == Step(engine, old(history), Resolve(id, Denied, clock))
      ensures result == ResolveOutcome(engine, old(history), id, Denied, clock)
      ensures result.Resolved? <==> id in old(approvals)
      ensures result.Resolved? ==> id !in approvals && result.evaluation.decision == Deny
      ensures !result.Resolved? ==>
        result == NotFound && records == old(records) && approvals == old(approvals) && history == old(history)
    {
      hide EvaluateTrial, Invariant, Newest, Step;
      StepKeepsInvariant(engine, history, Resolve(id, Denied, clock));
      if id in approvals { PendingAnswer(engine, history, id, Denied, clock); }
      result := ResolveDeferred(id, Denied, clock);
    }

    /** POST /v1/policy/apply: a source that does not validate is refused.  One that does parses, so the
        second parse after the change never throws. */
    method Apply(policy: Option<string>) returns (applied: bool)
      requires Valid()
      modifies this
      ensures Valid() && history == Step(engine, old(history), ApplyPolicy(policy))
      ensures applied <==> Validates(engine, policy.GetOr(""))
      ensures applied ==> source == policy.GetOr("") && engine.parse(source).Some?
      ensures !applied ==> source == old(source)
      ensures records == old(records) && approvals == old(approvals)
    {
      var candidate := policy.GetOr("");
      var parsed := engine.parse(candidate);
      applied := parsed.Some? && IsBound(parsed.value);
      StepKeepsInvariant(engine, history, ApplyPolicy(policy));
      history := Step(engine, history, ApplyPolicy(policy));
      if applied {
        source := candidate;
      }
    }

    /** POST /v1/replay evaluates without touching the gateway. */
    method Replay(policy: Option<string>, intent: Option<Intent>, previousHash: Option<string>, now: Option<string>,
                  clock: string)
      returns (evaluation: Option<Evaluation>)
      requires Valid()
      ensures evaluation == EvaluateTrial(engine, ReplayInput(engine, source, policy, intent, previousHash, now, clock))
      ensures evaluation.Some? ==> evaluation.value.gelRecord.previousHash == previousHash.GetOr(GENESIS)
      ensures policy == None ==> (evaluation == None <==>
        var i := ReplayInput(engine, source, policy, intent, previousHash, now, clock);
        || i.intent.parameters == None
        || (IsPermitted(engine, i) && engine.plusSeconds(TimeOf(i), engine.parse(source).value.warrantSeconds) == None))
    {
      hide EvaluateTrial;
      var replayed := if policy.Some? then policy.value else source;
      var what := if intent.Some? then intent.value else engine.scenarios[0].intent;
      var previous := if previousHash.Some? then previousHash.value else "GENESIS";
      var at := if now.Some? then now.value else "2026-01-01T00:00:00.000Z";
      var input := EvalInput(replayed, what, None, Some(previous), Some(at), clock);
      evaluation := EvaluateTrial(engine, input);
      if evaluation.Some? { EvaluationFacts(engine, input); }
      if policy == None { ReturnsExactly(engine, input); }
    }

    /** GET /v1/audit/:recordId finds the newest logged record of that id among the last hundred. */
    method FindRecord(recordId: string) returns (found: Option<GelRecord>)
      requires Valid()
      ensures found == None ==>
        forall k :: Oldest(history.log) <= k < |history.log| ==> history.log[k].recordId != recordId
      ensures found.Some? ==>
        exists k :: Oldest(history.log) <= k < |history.log| && IsNewestMatch(history.log, k, recordId, found.value)
    {
      found := FindIn(records, recordId, history.log);
    }

    /** GET /v1/audit/tail: the newest twenty-five records. */
    method AuditTail() returns (items: seq<GelRecord>)
      requires Valid()
      ensures items == Newest(history.log, 25)
    {
      hide Invariant, Newest;
      NewestExact(history.log, CAP);
      NewestExact(history.log, 25);
      items := records[..if |records| < 25 then |records| else 25];
    }
  }
}
