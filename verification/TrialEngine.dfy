/** The trial engine behind the `/v1` surface: what it decides, and when it throws instead.

    Parsing, dates and hashes come from the runtime; the rules are those of `evaluateTrialAction`. */
module TrialEngine {
  import opened Options

  datatype Approval = Approved | Denied | MoreInfo | ReducedAuthority

  datatype Decision = Permit | Deny | Defer | FailClosed

  datatype Parameters = Parameters(amount: Option<real>)

  /** What the rules read of an intent; `material` stands for the fields that only go into hashes. */
  datatype Intent = Intent(
    requestedAction: Option<string>, parameters: Option<Parameters>, occurredAt: Option<string>, material: string)

  datatype Policy = Policy(
    policyHash: string, authorityHash: string,
    wardId: string, sovereign: string,
    authorityId: string, authorityWard: string, permittedActions: seq<string>, maxAmount: Option<real>, revoked: bool,
    requireAuthority: string, requireWarrant: bool, deferFrom: Option<real>, denyAbove: Option<real>,
    denyActions: seq<string>,
    warrantSeconds: nat, standingPower: bool, hashChain: bool)

  datatype Warrant = Warrant(id: string, issuedAt: string, expiresAt: string)

  datatype GelRecord = GelRecord(
    recordId: string, previousHash: string, currentHash: string, decision: Decision, timestamp: string)

  datatype Evaluation = Evaluation(
    decision: Decision, decisionCode: string, warrant: Option<Warrant>, gelRecord: GelRecord,
    deferToken: Option<string>)

  /** What the hash of a record covers. */
  datatype Material = Material(
    actionHash: string, authorityHash: string, decision: Decision, policyHash: string, warrantId: Option<string>,
    previousHash: string)

  /** `now` is given by replays only; elsewhere the clock is read. */
  datatype EvalInput = EvalInput(
    source: string, intent: Intent, approval: Option<Approval>, previousHash: Option<string>, now: Option<string>,
    clock: string)

  datatype Scenario = Scenario(id: string, intent: Intent)

  /** `parse` and `plusSeconds` give None where the source throws. */
  datatype Engine = Engine(
    parse: string -> Option<Policy>,
    plusSeconds: (string, nat) -> Option<string>,
    actionHash: (Intent, string) -> string,
    warrantHash: (string, string, string) -> string,
    recordHash: Material -> string,
    tokenHash: (string, string) -> string,
    scenarios: seq<Scenario>)

  const GENESIS := "GENESIS"

  const BLOCKS := ["ward", "authority_envelope", "commit_gate", "warrant_policy", "gel"]

  predicate Contains(t: string, p: string) {
    (|p| <= |t| && t[..|p|] == p) || (t != [] && Contains(t[1..], p))
  }

  /** What is known of the runtime: there are scenarios, a source that parses names its five blocks, and
      the word "soon" is no date. */
  ghost predicate IsEngine(e: Engine) {
    && |e.scenarios| > 0
    && (forall s, k :: e.parse(s).Some? && 0 <= k < |BLOCKS| ==> Contains(s, BLOCKS[k]))
    && (forall n :: e.plusSeconds("soon", n) == None)
  }

  // ---- The rules -------------------------------------------------------------------------------

  /** What `validateGovernanceSource` asks of a parsed policy. */
  predicate IsBound(p: Policy) {
    && p.sovereign != "" && p.authorityWard == p.wardId && p.requireAuthority == p.authorityId
    && !(p.requireWarrant && p.standingPower) && p.hashChain
  }

  predicate Validates(e: Engine, source: string) {
    e.parse(source).Some? && IsBound(e.parse(source).value)
  }

  datatype Ruling = Ruling(decision: Decision, code: string)

  predicate Names(actions: seq<string>, action: Option<string>) {
    action.Some? && action.value in actions
  }

  predicate Exceeds(amount: Option<real>, limit: Option<real>) {
    amount.Some? && limit.Some? && amount.value > limit.value
  }

  predicate Reaches(amount: Option<real>, limit: Option<real>) {
    amount.Some? && limit.Some? && amount.value >= limit.value
  }

  function Rule(p: Policy, action: Option<string>, amount: Option<real>, approval: Option<Approval>): Ruling {
    if p.revoked then Ruling(FailClosed, "AUTHORITY_REVOKED")
    else if p.requireAuthority != p.authorityId || p.authorityWard != p.wardId then
      Ruling(FailClosed, "MISSING_AUTHORITY_BINDING")
    else if Names(p.denyActions, action) then Ruling(Deny, "ACTION_DENIED_BY_GATE")
    else if !Names(p.permittedActions, action) then Ruling(Deny, "ACTION_OUTSIDE_AUTHORITY")
    else if Exceeds(amount, p.maxAmount) then Ruling(Deny, "AMOUNT_EXCEEDS_AUTHORITY")
    else if Exceeds(amount, p.denyAbove) then Ruling(Deny, "AMOUNT_DENIED_BY_GATE")
    else if approval == Some(Denied) then Ruling(Deny, "OPERATOR_DENIED")
    else if Reaches(amount, p.deferFrom) && approval != Some(Approved) && approval != Some(ReducedAuthority) then
      Ruling(Defer, "OPERATOR_APPROVAL_REQUIRED")
    else if approval == Some(ReducedAuthority) then Ruling(Permit, "PERMIT_REDUCED_ONE_TIME_AUTHORITY")
    else if approval == Some(Approved) then Ruling(Permit, "PERMIT_OPERATOR_APPROVED")
    else Ruling(Permit, "PERMIT_AUTONOMOUS")
  }

  /** The time written into the record and the warrant. */
  function TimeOf(i: EvalInput): string {
    i.now.GetOr(i.intent.occurredAt.GetOr(i.clock))
  }

  /** The time the intent is hashed with. */
  function ActionTime(i: EvalInput): string {
    i.intent.occurredAt.GetOr(i.now.GetOr(i.clock))
  }

  function WarrantFor(e: Engine, p: Policy, actionHash: string, now: string, expiresAt: string): Warrant {
    Warrant("wrn-" + e.warrantHash(actionHash, p.policyHash, now), now, expiresAt)
  }

  function MaterialFor(e: Engine, p: Policy, i: EvalInput, decision: Decision, warrant: Option<Warrant>): Material {
    var warrantId := if warrant.Some? then Some(warrant.value.id) else None;
    Material(
      e.actionHash(i.intent, ActionTime(i)), p.authorityHash, decision, p.policyHash, warrantId,
      i.previousHash.GetOr(GENESIS))
  }

  function Conclude(e: Engine, p: Policy, i: EvalInput, ruling: Ruling, warrant: Option<Warrant>): Evaluation {
    var actionHash := e.actionHash(i.intent, ActionTime(i));
    var previous := i.previousHash.GetOr(GENESIS);
    var hash := e.recordHash(MaterialFor(e, p, i, ruling.decision, warrant));
    Evaluation(
      ruling.decision, ruling.code, warrant,
      GelRecord("gel-" + hash, previous, "aos-" + hash, ruling.decision, TimeOf(i)),
      if ruling.decision == Defer then Some("def-" + e.tokenHash(actionHash, p.policyHash)) else None)
  }

  /** None stands for a throw: the source does not parse, the intent has no parameters, or a warrant is
      due and its expiry is no date. */
  function EvaluateTrial(e: Engine, i: EvalInput): Option<Evaluation> {
    match e.parse(i.source)
    case None => None
    case Some(p) =>
      if i.intent.parameters == None then None
      else
        var ruling := Rule(p, i.intent.requestedAction, i.intent.parameters.value.amount, i.approval);
        if ruling.decision != Permit then Some(Conclude(e, p, i, ruling, None))
        else
          match e.plusSeconds(TimeOf(i), p.warrantSeconds)
          case None => None
          case Some(expiresAt) =>
            var actionHash := e.actionHash(i.intent, ActionTime(i));
            Some(Conclude(e, p, i, ruling, Some(WarrantFor(e, p, actionHash, TimeOf(i), expiresAt))))
  }

  // ---- What an evaluation says -----------------------------------------------------------------

  lemma EvaluationFacts(e: Engine, i: EvalInput)
    requires EvaluateTrial(e, i).Some?
    ensures var r := EvaluateTrial(e, i).value;
      && r.gelRecord.previousHash == i.previousHash.GetOr(GENESIS)
      && (r.warrant.Some? <==> r.decision == Permit)
      && (r.deferToken.Some? <==> r.decision == Defer)
      && (r.deferToken.Some? ==> r.deferToken.value != "")
  {
    var p := e.parse(i.source).value;
    var ruling := Rule(p, i.intent.requestedAction, i.intent.parameters.value.amount, i.approval);
    ConcludeFacts(e, p, i, ruling, EvaluateTrial(e, i).value.warrant);
  }

  lemma ConcludeFacts(e: Engine, p: Policy, i: EvalInput, ruling: Ruling, warrant: Option<Warrant>)
    ensures var r := Conclude(e, p, i, ruling, warrant);
      && r.decision == ruling.decision && r.warrant == warrant
      && r.gelRecord.previousHash == i.previousHash.GetOr(GENESIS)
      && (r.deferToken.Some? <==> r.decision == Defer)
      && (r.deferToken.Some? ==> r.deferToken.value != "")
  {
    var r := Conclude(e, p, i, ruling, warrant);
    assert r.deferToken.Some? ==> r.deferToken.value[0] == 'd';
  }

  // ---- Exactly which decision ------------------------------------------------------------------

  predicate IsUnbound(p: Policy) {
    p.requireAuthority != p.authorityId || p.authorityWard != p.wardId
  }

  /** The action is granted, not denied, and its amount, if any, is within both limits. */
  predicate WithinLimits(p: Policy, action: Option<string>, amount: Option<real>) {
    && action.Some? && action.value in p.permittedActions && action.value !in p.denyActions
    && (amount.Some? && p.maxAmount.Some? ==> amount.value <= p.maxAmount.value)
    && (amount.Some? && p.denyAbove.Some? ==> amount.value <= p.denyAbove.value)
  }

  /** An amount from which on an operator is asked. */
  predicate IsAsked(p: Policy, amount: Option<real>) {
    amount.Some? && p.deferFrom.Some? && amount.value >= p.deferFrom.value
  }

  predicate Approves(a: Option<Approval>) {
    a == Some(Approved) || a == Some(ReducedAuthority)
  }

  predicate IsInForce(p: Policy) {
    !p.revoked && !IsUnbound(p)
  }

  /** Each decision, exactly. */
  lemma DecisionExactly(p: Policy, action: Option<string>, amount: Option<real>, approval: Option<Approval>)
    ensures Rule(p, action, amount, approval).decision == FailClosed <==> !IsInForce(p)
    ensures Rule(p, action, amount, approval).decision == Deny <==>
      IsInForce(p) && (!WithinLimits(p, action, amount) || approval == Some(Denied))
    ensures Rule(p, action, amount, approval).decision == Defer <==>
      && IsInForce(p) && WithinLimits(p, action, amount)
      && IsAsked(p, amount) && !Approves(approval) && approval != Some(Denied)
    ensures Rule(p, action, amount, approval).decision == Permit <==>
      && IsInForce(p) && WithinLimits(p, action, amount)
      && (Approves(approval) || (!IsAsked(p, amount) && approval != Some(Denied)))
  {
  }

  /** Each code, exactly: of several reasons the first in the list of checks is reported. */
  lemma CodeExactly(p: Policy, action: Option<string>, amount: Option<real>, approval: Option<Approval>)
    ensures var r := Rule(p, action, amount, approval);
      && (p.revoked ==> r.code == "AUTHORITY_REVOKED")
      && (!p.revoked && IsUnbound(p) ==> r.code == "MISSING_AUTHORITY_BINDING")
      && (r.decision == Defer ==> r.code == "OPERATOR_APPROVAL_REQUIRED")
      && (r.decision == Permit && approval == Some(Approved) ==> r.code == "PERMIT_OPERATOR_APPROVED")
      && (r.decision == Permit && approval == Some(ReducedAuthority) ==> r.code == "PERMIT_REDUCED_ONE_TIME_AUTHORITY")
      && (r.decision == Permit && !Approves(approval) ==> r.code == "PERMIT_AUTONOMOUS")
  {
  }

  lemma DenialExactly(p: Policy, action: Option<string>, amount: Option<real>, approval: Option<Approval>)
    requires IsInForce(p)
    ensures var r := Rule(p, action, amount, approval);
      var denied := action.Some? && action.value in p.denyActions;
      var granted := action.Some? && action.value in p.permittedActions;
      var overMax := amount.Some? && p.maxAmount.Some? && amount.value > p.maxAmount.value;
      var overGate := amount.Some? && p.denyAbove.Some? && amount.value > p.denyAbove.value;
      && (denied ==> r.code == "ACTION_DENIED_BY_GATE")
      && (!denied && !granted ==> r.code == "ACTION_OUTSIDE_AUTHORITY")
      && (!denied && granted && overMax ==> r.code == "AMOUNT_EXCEEDS_AUTHORITY")
      && (!denied && granted && !overMax && overGate ==> r.code == "AMOUNT_DENIED_BY_GATE")
      && (WithinLimits(p, action, amount) && approval == Some(Denied) ==> r.code == "OPERATOR_DENIED")
  {
  }

  /** What a permit or a deferral says of the policy, and a permit from the asked amount on of the answer. */
  predicate IsWarranted(p: Policy, i: EvalInput, decision: Decision) {
    && i.intent.parameters.Some?
    && (decision == Permit || decision == Defer ==>
          IsInForce(p) && WithinLimits(p, i.intent.requestedAction, i.intent.parameters.value.amount))
    && (decision == Permit && IsAsked(p, i.intent.parameters.value.amount) ==> Approves(i.approval))
  }

  lemma ReturnedIsWarranted(e: Engine, i: EvalInput)
    requires EvaluateTrial(e, i).Some?
    ensures e.parse(i.source).Some?
    ensures IsWarranted(e.parse(i.source).value, i, EvaluateTrial(e, i).value.decision)
    ensures var p, r := e.parse(i.source).value, EvaluateTrial(e, i).value;
      var ruling := Rule(p, i.intent.requestedAction, i.intent.parameters.value.amount, i.approval);
      r.decision == ruling.decision && r.decisionCode == ruling.code
  {
    var p := e.parse(i.source).value;
    DecisionExactly(p, i.intent.requestedAction, i.intent.parameters.value.amount, i.approval);
  }

  /** A refund of 12000 where the authority grants at most 10000 is denied, whatever an operator says. */
  lemma LargeRefundIsDenied(p: Policy, approval: Option<Approval>)
    requires IsInForce(p) && "stripe.refund" in p.permittedActions && "stripe.refund" !in p.denyActions
    requires p.maxAmount == Some(10000.0)
    ensures Rule(p, Some("stripe.refund"), Some(12000.0), approval) == Ruling(Deny, "AMOUNT_EXCEEDS_AUTHORITY")
  {
    DecisionExactly(p, Some("stripe.refund"), Some(12000.0), approval);
    DenialExactly(p, Some("stripe.refund"), Some(12000.0), approval);
  }

  /** The times of a record and its warrant: a given now, or else the intent's own time, or else the clock. */
  lemma TimesExactly(e: Engine, i: EvalInput)
    requires EvaluateTrial(e, i).Some?
    ensures var r := EvaluateTrial(e, i).value;
      && (i.now.Some? ==> r.gelRecord.timestamp == i.now.value)
      && (i.now == None && i.intent.occurredAt.Some? ==> r.gelRecord.timestamp == i.intent.occurredAt.value)
      && (i.now == None && i.intent.occurredAt == None ==> r.gelRecord.timestamp == i.clock)
      && (r.warrant.Some? ==>
            && r.warrant.value.issuedAt == r.gelRecord.timestamp
            && e.plusSeconds(r.gelRecord.timestamp, e.parse(i.source).value.warrantSeconds)
                 == Some(r.warrant.value.expiresAt))
  {
  }

  // ---- What a hash stands for ------------------------------------------------------------------

  /** What the record of a returned evaluation was hashed from. */
  function MaterialOf(e: Engine, i: EvalInput): (m: Material)
    requires EvaluateTrial(e, i).Some?
  {
    var r := EvaluateTrial(e, i).value;
    MaterialFor(e, e.parse(i.source).value, i, r.decision, r.warrant)
  }

  /** The material holds the decision, the previous hash, the hashes of the action, authority and policy,
      and the warrant; the record's two names are its hash. */
  lemma MaterialTells(e: Engine, i: EvalInput)
    requires EvaluateTrial(e, i).Some?
    ensures var m, r, p := MaterialOf(e, i), EvaluateTrial(e, i).value, e.parse(i.source).value;
      && m.decision == r.decision == r.gelRecord.decision && m.previousHash == r.gelRecord.previousHash
      && m.actionHash == e.actionHash(i.intent, ActionTime(i))
      && m.policyHash == p.policyHash && m.authorityHash == p.authorityHash
      && m.warrantId == (if r.warrant.Some? then Some(r.warrant.value.id) else None)
      && r.gelRecord.currentHash == "aos-" + e.recordHash(m) && r.gelRecord.recordId == "gel-" + e.recordHash(m)
  {
  }

  ghost predicate HasCollision(e: Engine) {
    exists m, n :: m != n && e.recordHash(m) == e.recordHash(n)
  }

  /** Two records with one hash come from the same material, unless the hash has a collision. */
  lemma SameHashSameMaterial(e: Engine, i: EvalInput, j: EvalInput)
    requires EvaluateTrial(e, i).Some? && EvaluateTrial(e, j).Some?
    requires EvaluateTrial(e, i).value.gelRecord.currentHash == EvaluateTrial(e, j).value.gelRecord.currentHash
    ensures MaterialOf(e, i) == MaterialOf(e, j) || HasCollision(e)
  {
    MaterialTells(e, i);
    MaterialTells(e, j);
    hide EvaluateTrial, MaterialOf;
    var h, k := e.recordHash(MaterialOf(e, i)), e.recordHash(MaterialOf(e, j));
    assert ("aos-" + h)[4..] == h && ("aos-" + k)[4..] == k;
  }

  // ---- What validation refuses -----------------------------------------------------------------

  datatype ValidationError = NoSovereign | WardUnbound | AuthorityUnbound | StandingPower | ChainOff

  /** The errors `validateGovernanceSource` pushes for a policy that parses, in its order. */
  function ValidationErrors(p: Policy): seq<ValidationError> {
    (if p.sovereign == "" then [NoSovereign] else [])
    + (if p.authorityWard != p.wardId then [WardUnbound] else [])
    + (if p.requireAuthority != p.authorityId then [AuthorityUnbound] else [])
    + (if p.requireWarrant && p.standingPower then [StandingPower] else [])
    + (if !p.hashChain then [ChainOff] else [])
  }

  /** A policy passes exactly when no error is pushed. */
  lemma BoundExactly(p: Policy)
    ensures IsBound(p) <==> ValidationErrors(p) == []
  {
    assert IsBound(p) || |ValidationErrors(p)| > 0;
  }

  /** A source and an intent that the rules defer as long as no operator answers. */
  predicate IsDeferred(e: Engine, source: string, intent: Intent) {
    && e.parse(source).Some? && intent.parameters.Some?
    && Rule(e.parse(source).value, intent.requestedAction, intent.parameters.value.amount, None).decision == Defer
  }

  lemma DeferredOnly(e: Engine, i: EvalInput)
    requires EvaluateTrial(e, i).Some? && EvaluateTrial(e, i).value.decision == Defer
    ensures IsDeferred(e, i.source, i.intent)
  {
  }

  lemma DeferredReturns(e: Engine, i: EvalInput)
    requires IsDeferred(e, i.source, i.intent) && i.approval == None
    ensures EvaluateTrial(e, i).Some? && EvaluateTrial(e, i).value.decision == Defer
  {
  }

  /** An answer to a deferred action: a denial is always recorded; an approval permits, and throws exactly
      when the expiry of its warrant is no date. */
  lemma AnswerToDeferred(e: Engine, i: EvalInput)
    requires IsDeferred(e, i.source, i.intent)
    ensures i.approval == Some(Denied) ==>
      EvaluateTrial(e, i).Some? && EvaluateTrial(e, i).value.decision == Deny
      && EvaluateTrial(e, i).value.decisionCode == "OPERATOR_DENIED"
    ensures Approves(i.approval) ==>
      && (EvaluateTrial(e, i).Some? <==> e.plusSeconds(TimeOf(i), e.parse(i.source).value.warrantSeconds).Some?)
      && (EvaluateTrial(e, i).Some? ==> EvaluateTrial(e, i).value.decision == Permit)
  {
  }

  /** Under a policy that validates, an evaluation never misses its binding: it fails closed exactly when
      the authority is revoked. */
  lemma ValidNeverUnbound(e: Engine, i: EvalInput)
    requires Validates(e, i.source) && EvaluateTrial(e, i).Some?
    ensures EvaluateTrial(e, i).value.decision == FailClosed <==> e.parse(i.source).value.revoked
    ensures EvaluateTrial(e, i).value.decisionCode != "MISSING_AUTHORITY_BINDING"
  {
    var p := e.parse(i.source).value;
    var r := Rule(p, i.intent.requestedAction, i.intent.parameters.value.amount, i.approval);
    CodeOfRule(p, i.intent.requestedAction, i.intent.parameters.value.amount, i.approval);
    assert EvaluateTrial(e, i).value.decision == r.decision && EvaluateTrial(e, i).value.decisionCode == r.code;
  }

  lemma CodeOfRule(p: Policy, action: Option<string>, amount: Option<real>, approval: Option<Approval>)
    requires IsBound(p)
    ensures Rule(p, action, amount, approval).decision == FailClosed <==> p.revoked
    ensures Rule(p, action, amount, approval).code != "MISSING_AUTHORITY_BINDING"
  {
    var r := Rule(p, action, amount, approval);
    assert "MISSING_AUTHORITY_BINDING"[0] == 'M';
  }

  /** A warrant is due for this input. */
  predicate IsPermitted(e: Engine, i: EvalInput)
    requires e.parse(i.source).Some? && i.intent.parameters.Some?
  {
    var amount := i.intent.parameters.value.amount;
    Rule(e.parse(i.source).value, i.intent.requestedAction, amount, i.approval).decision == Permit
  }

  /** Under a source that parses, the engine throws exactly on an intent without parameters and on a
      permitted one whose warrant would expire at no date. */
  lemma ReturnsExactly(e: Engine, i: EvalInput)
    requires e.parse(i.source).Some?
    ensures EvaluateTrial(e, i).Some? <==>
      && i.intent.parameters.Some?
      && (IsPermitted(e, i) ==> e.plusSeconds(TimeOf(i), e.parse(i.source).value.warrantSeconds).Some?)
  {
  }

  /** A source that does not name one of the five blocks makes the engine throw, whatever the intent. */
  lemma UnnamedBlockThrows(e: Engine, i: EvalInput, k: nat)
    requires IsEngine(e) && k < |BLOCKS| && !Contains(i.source, BLOCKS[k])
    ensures EvaluateTrial(e, i) == None
  {
  }

  lemma EmptySourceThrows(e: Engine, i: EvalInput)
    requires IsEngine(e) && i.source == ""
    ensures EvaluateTrial(e, i) == None
  {
    assert BLOCKS[0] == "ward" && !Contains("", "ward");
    UnnamedBlockThrows(e, i, 0);
  }
}
