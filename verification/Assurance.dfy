/** The assurance report: postures of missions and of the system, derived from unbounded lists of
    tasks, workspaces, evidence artifacts and active kill scopes. */
module Assurance {
  import opened Options

  datatype Mission = Mission(id: string, status: string, targetSystem: string)
  datatype Task = Task(missionId: string, status: string, assignedAgentId: Option<string>)
  datatype Workspace = Workspace(missionId: Option<string>, id: Option<string>)
  datatype KillScope = KillScope(scope: Option<string>, scopeRef: Option<string>)
  datatype Artifact = Artifact(
    missionId: Option<string>, artifactType: Option<string>, subjectType: Option<string>, verification: Option<string>)

  datatype Evidence = Evidence(
    tasks: seq<Task>, workspaces: seq<Workspace>, artifacts: seq<Artifact>, scopes: seq<KillScope>)

  datatype Posture = Halted | Blocked | Conditional | Insurable

  function Rank(p: Posture): nat {
    match p case Halted => 0 case Blocked => 1 case Conditional => 2 case Insurable => 3
  }

  // ---- The facts of one mission ----------------------------------------------------------------

  datatype Facts = Facts(
    status: string, blockedTasks: nat, autonomyAttestations: nat, finalityCertificates: nat,
    agentVerified: bool, deviceVerified: bool, activeKillScopes: seq<KillScope>)

  function Filter<T>(s: seq<T>, keep: T -> bool): (r: seq<T>) {
    if s == [] then [] else (if keep(s[0]) then [s[0]] else []) + Filter(s[1..], keep)
  }

  /** A scope reaches a mission; two missing references count as equal, as `undefined` does. */
  predicate Reaches(e: Evidence, m: Mission, s: KillScope) {
    || s.scope == Some("global")
    || (s.scope == Some("mission") && s.scopeRef == Some(m.id))
    || (s.scope == Some("domain") && s.scopeRef == Some(m.targetSystem))
    || (s.scope == Some("agent") && exists t :: t in e.tasks && t.missionId == m.id && t.assignedAgentId == s.scopeRef)
    || (s.scope == Some("device") && exists w :: w in e.workspaces && w.missionId == Some(m.id) && w.id == s.scopeRef)
  }

  predicate IsBlocked(m: Mission, t: Task) {
    t.missionId == m.id && (t.status == "blocked" || t.status == "cancelled")
  }

  predicate IsOfType(m: Mission, a: Artifact, kind: string) {
    a.missionId == Some(m.id) && a.artifactType == Some(kind)
  }

  predicate Attests(m: Mission, a: Artifact, subject: string) {
    IsOfType(m, a, "identity-attestation") && a.subjectType == Some(subject) && a.verification != Some("failed")
  }

  function MissionFacts(e: Evidence, m: Mission): Facts {
    Facts(
      m.status,
      |Filter(e.tasks, t => IsBlocked(m, t))|,
      |Filter(e.artifacts, a => IsOfType(m, a, "autonomy-attestation"))|,
      |Filter(e.artifacts, a => IsOfType(m, a, "finality-certificate"))|,
      exists a :: a in e.artifacts && Attests(m, a, "agent"),
      exists a :: a in e.artifacts && Attests(m, a, "device"),
      Filter(e.scopes, s => Reaches(e, m, s)))
  }

  function DerivePosture(f: Facts): Posture {
    if f.status == "halted" || |f.activeKillScopes| > 0 then Halted
    else if f.blockedTasks > 0 then Blocked
    else if f.agentVerified && f.deviceVerified && f.finalityCertificates > 0 && f.autonomyAttestations > 0 then
      Insurable
    else Conditional
  }

  function MissionPosture(e: Evidence, m: Mission): Posture {
    DerivePosture(MissionFacts(e, m))
  }

  // ---- The exact posture -----------------------------------------------------------------------

  ghost predicate IsHalted(e: Evidence, m: Mission) {
    m.status == "halted" || exists s :: s in e.scopes && Reaches(e, m, s)
  }

  ghost predicate HasBlockedWork(e: Evidence, m: Mission) {
    exists t :: t in e.tasks && t.missionId == m.id && (t.status == "blocked" || t.status == "cancelled")
  }

  /** The artifacts name this mission with an artifact of this type. */
  ghost predicate HasArtifact(e: Evidence, m: Mission, kind: string) {
    exists a :: a in e.artifacts && a.missionId == Some(m.id) && a.artifactType == Some(kind)
  }

  /** An identity attestation of the subject whose verification has not failed; a missing one counts. */
  ghost predicate HasIdentity(e: Evidence, m: Mission, subject: string) {
    exists a :: a in e.artifacts && a.missionId == Some(m.id) && a.artifactType == Some("identity-attestation")
      && a.subjectType == Some(subject) && a.verification != Some("failed")
  }

  ghost predicate HasAllEvidence(e: Evidence, m: Mission) {
    && HasIdentity(e, m, "agent") && HasIdentity(e, m, "device")
    && HasArtifact(e, m, "finality-certificate") && HasArtifact(e, m, "autonomy-attestation")
  }

  lemma FilterFinds<T>(s: seq<T>, keep: T -> bool)
    ensures |Filter(s, keep)| > 0 <==> exists x :: x in s && keep(x)
  {
    FilterEmpty(s, keep);
  }

  /** Each posture, in terms of the evidence lists. */
  lemma PostureExactly(e: Evidence, m: Mission)
    ensures MissionPosture(e, m) == Halted <==> IsHalted(e, m)
    ensures MissionPosture(e, m) == Blocked <==> !IsHalted(e, m) && HasBlockedWork(e, m)
    ensures MissionPosture(e, m) == Insurable <==> !IsHalted(e, m) && !HasBlockedWork(e, m) && HasAllEvidence(e, m)
    ensures MissionPosture(e, m) == Conditional <==> !IsHalted(e, m) && !HasBlockedWork(e, m) && !HasAllEvidence(e, m)
  {
    hide HasArtifact, HasBlockedWork, HasIdentity, IsHalted;
    HaltIsFound(e, m);
    BlockIsFound(e, m);
    ArtifactsAreFound(e, m);
    IdentityIsAttested(e, m, "agent");
    IdentityIsAttested(e, m, "device");
  }

  lemma HaltIsFound(e: Evidence, m: Mission)
    ensures m.status == "halted" || |MissionFacts(e, m).activeKillScopes| > 0 <==> IsHalted(e, m)
  {
    hide Reaches, Filter;
    FilterFinds(e.scopes, s => Reaches(e, m, s));
  }

  lemma BlockIsFound(e: Evidence, m: Mission)
    ensures MissionFacts(e, m).blockedTasks > 0 <==> HasBlockedWork(e, m)
  {
    hide Filter;
    FilterFinds(e.tasks, t => IsBlocked(m, t));
    assert forall t :: IsBlocked(m, t) <==> t.missionId == m.id && (t.status == "blocked" || t.status == "cancelled");
  }

  lemma ArtifactsAreFound(e: Evidence, m: Mission)
    ensures MissionFacts(e, m).finalityCertificates > 0 <==> HasArtifact(e, m, "finality-certificate")
    ensures MissionFacts(e, m).autonomyAttestations > 0 <==> HasArtifact(e, m, "autonomy-attestation")
  {
    hide Filter;
    FilterFinds(e.artifacts, a => IsOfType(m, a, "finality-certificate"));
    FilterFinds(e.artifacts, a => IsOfType(m, a, "autonomy-attestation"));
  }

  lemma IdentityIsAttested(e: Evidence, m: Mission, subject: string)
    ensures HasIdentity(e, m, subject) <==> exists a :: a in e.artifacts && Attests(m, a, subject)
  {
    forall a
      ensures Attests(m, a, subject) <==> (a.missionId == Some(m.id)
        && a.artifactType == Some("identity-attestation") && a.subjectType == Some(subject)
        && a.verification != Some("failed"))
    {
    }
  }

  /** Whom a kill scope halts, kind by kind.  An unknown kind halts nobody. */
  lemma ScopeHaltsExactly(e: Evidence, m: Mission, s: KillScope)
    requires e.scopes == [s] && m.status != "halted"
    ensures s.scope == Some("global") ==> MissionPosture(e, m) == Halted
    ensures s.scope == Some("mission") ==> (MissionPosture(e, m) == Halted <==> s.scopeRef == Some(m.id))
    ensures s.scope == Some("domain") ==> (MissionPosture(e, m) == Halted <==> s.scopeRef == Some(m.targetSystem))
    ensures s.scope == Some("agent") ==> (MissionPosture(e, m) == Halted <==>
      exists t :: t in e.tasks && t.missionId == m.id && t.assignedAgentId == s.scopeRef)
    ensures s.scope == Some("device") ==> (MissionPosture(e, m) == Halted <==>
      exists w :: w in e.workspaces && w.missionId == Some(m.id) && w.id == s.scopeRef)
    ensures MissionPosture(e, m) == Halted ==>
      s.scope.Some? && s.scope.value in {"global", "mission", "domain", "agent", "device"}
  {
    PostureExactly(e, m);
    assert s in e.scopes;
    KindsDiffer();
  }

  lemma KindsDiffer()
    ensures "global"[0] == 'g' && "mission"[0] == 'm' && "agent"[0] == 'a' && "domain"[1] == 'o' && "device"[1] == 'e'
  {
  }

  // ---- Monotonicity ----------------------------------------------------------------------------

  lemma {:induction false} FilterEmpty<T>(s: seq<T>, keep: T -> bool)
    ensures |Filter(s, keep)| > 0 <==> exists i :: 0 <= i < |s| && keep(s[i])
  {
    if s != [] {
      FilterEmpty(s[1..], keep);
      if i :| 0 <= i < |s| && keep(s[i]) {
        assert i > 0 ==> s[1..][i - 1] == s[i];
      }
      if |Filter(s[1..], keep)| > 0 {
        var i :| 0 <= i < |s[1..]| && keep(s[1..][i]);
        assert keep(s[i + 1]);
      }
    }
  }

  predicate Within<T(==)>(s: seq<T>, t: seq<T>) {
    forall i :: 0 <= i < |s| ==> s[i] in t
  }

  /** A longer list keeps whatever the filter found. */
  lemma FilterGrows<T>(s: seq<T>, t: seq<T>, keep: T -> bool, also: T -> bool)
    requires Within(s, t) && forall i :: 0 <= i < |s| && keep(s[i]) ==> also(s[i])
    ensures |Filter(s, keep)| > 0 ==> |Filter(t, also)| > 0
  {
    FilterEmpty(s, keep);
    FilterEmpty(t, also);
    if i :| 0 <= i < |s| && keep(s[i]) {
      assert s[i] in t;
      var j :| 0 <= j < |t| && t[j] == s[i];
    }
  }

  /** Adding artifacts, in any order, never lowers a mission's posture. */
  lemma MoreArtifactsNeverLower(e: Evidence, f: Evidence, m: Mission)
    requires e.tasks == f.tasks && e.workspaces == f.workspaces && e.scopes == f.scopes
    requires Within(e.artifacts, f.artifacts)
    ensures Rank(MissionPosture(e, m)) <= Rank(MissionPosture(f, m))
  {
    FilterGrows(e.artifacts, f.artifacts,
                a => IsOfType(m, a, "autonomy-attestation"), a => IsOfType(m, a, "autonomy-attestation"));
    FilterGrows(e.artifacts, f.artifacts,
                a => IsOfType(m, a, "finality-certificate"), a => IsOfType(m, a, "finality-certificate"));
    FilterGrows(f.scopes, e.scopes, s => Reaches(f, m, s), s => Reaches(e, m, s));
    AttestationStays(e, f, m, "agent");
    AttestationStays(e, f, m, "device");
  }

  lemma AttestationStays(e: Evidence, f: Evidence, m: Mission, subject: string)
    requires Within(e.artifacts, f.artifacts)
    ensures (exists a :: a in e.artifacts && Attests(m, a, subject)) ==>
      exists a :: a in f.artifacts && Attests(m, a, subject)
  {
  }

  /** Adding kill scopes, tasks or workspaces never raises it. */
  lemma MoreControlNeverRaises(e: Evidence, f: Evidence, m: Mission)
    requires e.artifacts == f.artifacts
    requires Within(e.tasks, f.tasks) && Within(e.workspaces, f.workspaces) && Within(e.scopes, f.scopes)
    ensures Rank(MissionPosture(f, m)) <= Rank(MissionPosture(e, m))
  {
    forall s | Reaches(e, m, s)
      ensures Reaches(f, m, s)
    {
    }
    FilterGrows(e.scopes, f.scopes, s => Reaches(e, m, s), s => Reaches(f, m, s));
    FilterGrows(e.tasks, f.tasks, t => IsBlocked(m, t), t => IsBlocked(m, t));
  }

  // ---- Reasons ---------------------------------------------------------------------------------

  datatype Reason =
    | StatusHalted | KillScopes(scopes: seq<KillScope>) | BlockedTasks(count: nat)
    | AgentUnverified | DeviceUnverified | NoFinality | NoAutonomy | Satisfied

  function When(condition: bool, reason: Reason): seq<Reason> {
    if condition then [reason] else []
  }

  /** Everything that keeps a mission from being insurable, in report order. */
  function Problems(f: Facts): seq<Reason> {
    When(f.status == "halted", StatusHalted)
    + When(|f.activeKillScopes| > 0, KillScopes(f.activeKillScopes))
    + When(f.blockedTasks > 0, BlockedTasks(f.blockedTasks))
    + When(!f.agentVerified, AgentUnverified)
    + When(!f.deviceVerified, DeviceUnverified)
    + When(f.finalityCertificates < 1, NoFinality)
    + When(f.autonomyAttestations < 1, NoAutonomy)
  }

  /** The problems, or else the one good reason. */
  function Reasons(f: Facts): seq<Reason> {
    if Problems(f) == [] then [Satisfied] else Problems(f)
  }

  /** `deriveAssuranceReasons` pushes onto a list and falls back to the one good reason. */
  method DeriveReasons(f: Facts) returns (reasons: seq<Reason>)
    ensures reasons == Reasons(f)
    ensures reasons == [Satisfied] <==> DerivePosture(f) == Insurable
  {
    reasons := [];
    reasons := Push(reasons, f.status == "halted", StatusHalted);
    reasons := Push(reasons, |f.activeKillScopes| > 0, KillScopes(f.activeKillScopes));
    reasons := Push(reasons, f.blockedTasks > 0, BlockedTasks(f.blockedTasks));
    reasons := Push(reasons, !f.agentVerified, AgentUnverified);
    reasons := Push(reasons, !f.deviceVerified, DeviceUnverified);
    reasons := Push(reasons, f.finalityCertificates < 1, NoFinality);
    reasons := Push(reasons, f.autonomyAttestations < 1, NoAutonomy);
    assert [] + When(f.status == "halted", StatusHalted) == When(f.status == "halted", StatusHalted);
    if |reasons| == 0 { reasons := reasons + [Satisfied]; }
    InsurableExactlyWithoutProblems(f);
  }

  method Push(reasons: seq<Reason>, condition: bool, reason: Reason) returns (longer: seq<Reason>)
    ensures longer == reasons + When(condition, reason)
  {
    longer := reasons;
    if condition { longer := longer + [reason]; }
  }

  /** A mission is insurable exactly when its reasons are the single fallback, which is never reported
      beside a problem. */
  lemma InsurableExactlyWithoutProblems(f: Facts)
    ensures Reasons(f) == [Satisfied] <==> DerivePosture(f) == Insurable
    ensures Problems(f) == [] <==> DerivePosture(f) == Insurable
    ensures Satisfied !in Problems(f)
    ensures (StatusHalted in Problems(f) || KillScopes(f.activeKillScopes) in Problems(f)) <==>
      DerivePosture(f) == Halted
  {
    var n := |Problems(f)|;
    assert n == 0 <==> Problems(f) == [];
    assert Satisfied !in Problems(f) && Satisfied in [Satisfied];
  }

  lemma WhenHas(condition: bool, reason: Reason, x: Reason)
    ensures x in When(condition, reason) <==> condition && x == reason
    ensures |When(condition, reason)| == if condition then 1 else 0
  {
  }

  /** Each problem is reported exactly when it is there. */
  lemma ProblemsExactly(f: Facts, x: Reason)
    ensures x in Problems(f) <==>
      match x
      case StatusHalted => f.status == "halted"
      case KillScopes(scopes) => scopes == f.activeKillScopes && scopes != []
      case BlockedTasks(n) => n == f.blockedTasks && n > 0
      case AgentUnverified => !f.agentVerified
      case DeviceUnverified => !f.deviceVerified
      case NoFinality => f.finalityCertificates == 0
      case NoAutonomy => f.autonomyAttestations == 0
      case Satisfied => false
  {
    hide When;
    WhenHas(f.status == "halted", StatusHalted, x);
    WhenHas(|f.activeKillScopes| > 0, KillScopes(f.activeKillScopes), x);
    WhenHas(f.blockedTasks > 0, BlockedTasks(f.blockedTasks), x);
    WhenHas(!f.agentVerified, AgentUnverified, x);
    WhenHas(!f.deviceVerified, DeviceUnverified, x);
    WhenHas(f.finalityCertificates < 1, NoFinality, x);
    WhenHas(f.autonomyAttestations < 1, NoAutonomy, x);
  }

  // ---- The system ------------------------------------------------------------------------------

  function SystemPosture(ps: seq<Posture>): Posture {
    if Halted in ps then Halted
    else if forall p :: p in ps ==> p == Insurable then Insurable
    else Conditional
  }

  function Meet(p: Posture, q: Posture): Posture {
    if Rank(p) <= Rank(q) then p else q
  }

  /** A blocked mission counts as conditional for the system. */
  function AsSystem(p: Posture): Posture {
    if p == Blocked then Conditional else p
  }

  function MeetAll(ps: seq<Posture>): Posture {
    if ps == [] then Insurable else Meet(AsSystem(ps[0]), MeetAll(ps[1..]))
  }

  /** The system posture is the meet of the mission postures. */
  lemma {:induction false} SystemIsMeet(ps: seq<Posture>)
    ensures SystemPosture(ps) == MeetAll(ps)
  {
    if ps != [] {
      SystemIsMeet(ps[1..]);
      assert ps[0] in ps;
      assert ps == [ps[0]] + ps[1..];
      assert forall p :: p in ps <==> p == ps[0] || p in ps[1..];
    }
  }

  /** It depends only on which postures occur, so not on the order of the missions. */
  lemma SystemIgnoresOrder(ps: seq<Posture>, qs: seq<Posture>)
    requires forall p :: p in ps <==> p in qs
    ensures SystemPosture(ps) == SystemPosture(qs) && MeetAll(ps) == MeetAll(qs)
  {
    SystemIsMeet(ps);
    SystemIsMeet(qs);
  }

  /** The mission postures of a report, in order. */
  function Postures(e: Evidence, ms: seq<Mission>): (ps: seq<Posture>)
    ensures |ps| == |ms| && forall i :: 0 <= i < |ms| ==> ps[i] == MissionPosture(e, ms[i])
  {
    seq(|ms|, i requires 0 <= i < |ms| => MissionPosture(e, ms[i]))
  }

  lemma {:induction false} MeetFollows(ps: seq<Posture>, qs: seq<Posture>)
    requires |ps| == |qs| && forall i :: 0 <= i < |ps| ==> Rank(ps[i]) <= Rank(qs[i])
    ensures Rank(MeetAll(ps)) <= Rank(MeetAll(qs))
  {
    if ps != [] { MeetFollows(ps[1..], qs[1..]); }
  }

  /** Over the whole report: more artifacts never lower the system posture, more kill scopes, tasks or
      workspaces never raise it. */
  lemma SystemIsMonotone(e: Evidence, f: Evidence, ms: seq<Mission>)
    requires Within(e.artifacts, f.artifacts)
    requires Within(f.tasks, e.tasks) && Within(f.workspaces, e.workspaces) && Within(f.scopes, e.scopes)
    ensures Rank(SystemPosture(Postures(e, ms))) <= Rank(SystemPosture(Postures(f, ms)))
  {
    var between := e.(artifacts := f.artifacts);
    forall i | 0 <= i < |ms|
      ensures Rank(Postures(e, ms)[i]) <= Rank(Postures(f, ms)[i])
    {
      MoreArtifactsNeverLower(e, between, ms[i]);
      MoreControlNeverRaises(f, between, ms[i]);
    }
    MeetFollows(Postures(e, ms), Postures(f, ms));
    SystemIsMeet(Postures(e, ms));
    SystemIsMeet(Postures(f, ms));
  }

  datatype SystemReason = SomeHalted | SomeBlocked | SomeConditional | AllSatisfied

  function SystemReasons(ps: seq<Posture>): seq<SystemReason> {
    (if SystemPosture(ps) == Halted then [SomeHalted] else [])
    + (if Blocked in ps then [SomeBlocked] else [])
    + (if Conditional in ps then [SomeConditional] else [])
    + (if SystemPosture(ps) == Insurable && |ps| > 0 then [AllSatisfied] else [])
  }

  /** Each reason is given exactly when the missions call for it. */
  lemma SystemReasonsExactly(ps: seq<Posture>)
    ensures SomeHalted in SystemReasons(ps) <==> Halted in ps
    ensures SomeBlocked in SystemReasons(ps) <==> Blocked in ps
    ensures SomeConditional in SystemReasons(ps) <==> Conditional in ps
    ensures AllSatisfied in SystemReasons(ps) <==> ps != [] && forall i :: 0 <= i < |ps| ==> ps[i] == Insurable
  {
    if ps != [] && forall i :: 0 <= i < |ps| ==> ps[i] == Insurable {
      assert Halted !in ps;
    }
  }

  /** There is a reason exactly when there is a mission. */
  lemma ReasonsExactlyForMissions(ps: seq<Posture>)
    ensures SystemReasons(ps) == [] <==> ps == []
  {
    if ps != [] {
      assert ps[0] in ps;
      if SystemPosture(ps) == Conditional {
        var p :| p in ps && p != Insurable;
        assert p == Blocked || p == Conditional;
      }
    }
  }
}
