/** The admission policy: who decides a request's tenant (the seven-row table),
    and which stage, if any, refuses it. */
module AdmissionTable {
  datatype Option<+T> = None | Some(value: T)

  /** The request view handed to the gate; an absent string is "". */
  datatype Req = Req(
    apiKey: string, authorization: string, bearerOversize: bool, jwtProfile: string,
    body: string, parsedModel: Option<string>, parseResult: int,
    prefixModel: string, hdrModel: string, authMode: int, svc: string,
    prefixOnly: bool, declaredLen: nat, defaultTokens: int,
    netidBound: bool, failClosed: bool, ifindex: int, clientIp: string,
    classOn: bool, objectiveHint: string, objectiveStrict: bool)

  /** What a credential validator, the rate check or the reservation fills in. */
  datatype Decision = Decision(decision: int, retryAfter: int, tenant: string, key: string, user: string,
                               errorCode: string, authFlags: int)

  /** A network-identity binding of the request's source. */
  datatype Nid = Nid(matched: bool, enforce: bool, credentialNetwork: bool, modelOk: bool,
                     forwardIdentity: bool, tenant: string, name: string)

  datatype Class = Class(priority: int, priorityClass: nat, denied: bool, objective: string)

  datatype Tier = Tier(kind: nat, off: nat, len: nat)

  datatype Grant = Grant(ok: bool, epoch: int, granted: int, why: Decision)

  /** The control plane and the JSON readers, as the gate sees them. */
  datatype Oracles = Oracles(
    modelField: string -> (int, string),
    tierField: string -> Tier,
    promptTokens: string -> int,
    maxTokens: string -> int,
    defaultOf: Option<string -> int>,
    strictOf: Option<string -> bool>,
    resolve: (string, int, string, string) -> (bool, Nid),
    validateKey: (string, string) -> (bool, Decision),
    validateBearer: (string, string, string, bool) -> (bool, Decision),
    classResolve: (string, string, string, string, string, string, nat) -> (bool, Class),
    rate: (string, string, string, string, string) -> (bool, Decision),
    reserve: (string, string, string, string, string, int, int, int) -> Grant)

  /** Every call the gate makes to the control plane. */
  datatype Call =
    | Resolve(ip: string, ifindex: int, svc: string, model: string)
    | Key(key: string, model: string)
    | Bearer(token: string, model: string, profile: string, oversize: bool)
    | ClassOf(tenant: string, key: string, binding: string, profile: string, svc: string, hint: string, tier: nat)
    | Rate(key: string, tenant: string, user: string, svc: string, model: string)
    | Reserve(tenant: string, model: string, user: string, key: string, svc: string, prompt: int, max: int, dflt: int)
    | Record(refusal: Refusal, model: string, who: Who, near: Near, class_: ClassInfo)

  datatype Stage = NoStage | Auth | Conflict | RateLimit | Reservation | Objective | Framing

  datatype Source = ByCredential | ByNetwork | ByBearer

  datatype Verdict = Allow | Unmetered | Deny

  /** What the response to a refusal carries. */
  datatype Refusal = Refusal(stage: Stage, status: int, retryAfter: int, retryBody: bool, code: string)

  /** The validated identity. */
  datatype Who = Who(tenant: string, key: string, user: string, authFlags: int)

  /** The reservation that rides to settlement. */
  datatype Held = Held(tokens: nat, epoch: int, clamped: bool)

  /** How the tenant was decided, and the binding beside it. */
  datatype Near = Near(src: Source, forward: bool, binding: string)

  datatype ClassInfo = ClassInfo(ran: bool, priority: int, priorityClass: nat, denied: bool, hintUnread: bool,
                                 objective: string, tier: Tier)

  datatype Result = Result(verdict: Verdict, refusal: Refusal, model: string, who: Who, held: Held, near: Near,
                           class_: ClassInfo)

  const NO_TIER := Tier(0, 0, 0)
  const NO_REFUSAL := Refusal(NoStage, 0, 0, false, "")
  const NOBODY := Who("", "", "", 0)
  const NOTHING_HELD := Held(0, 0, false)
  const BLANK := Result(Allow, NO_REFUSAL, "", NOBODY, NOTHING_HELD, Near(ByCredential, false, ""),
                        ClassInfo(false, 0, 0, false, false, "", NO_TIER))

  // ---- the request, as the policy reads it ----

  /** 0 and 2 declare no enforcement; any other value enforces. */
  predicate Enforcing(q: Req) { !(q.authMode == 0 || q.authMode == 2) }

  predicate UsesNetid(q: Req) { q.netidBound && q.svc != "" }

  const MODEL_LEN: nat := 128

  function Cut(s: string): string { if |s| < MODEL_LEN then s else s[..MODEL_LEN - 1] }

  /** The model the body names, and what reading it said. */
  function BodyModel(q: Req, o: Oracles): (int, string) {
    if q.parsedModel.Some? then (q.parseResult, Cut(q.parsedModel.value))
    else if q.body != "" && !q.prefixOnly then o.modelField(q.body)
    else (0, "")
  }

  const DUPLICATE_MODEL := -6
  const DUPLICATE_USER := -8

  predicate Ambiguous(q: Req, o: Oracles) {
    && (Enforcing(q) || UsesNetid(q) || q.parsedModel.Some?)
    && (BodyModel(q, o).0 == DUPLICATE_MODEL || BodyModel(q, o).0 == DUPLICATE_USER)
  }

  function BodyBound(q: Req, o: Oracles): string {
    if BodyModel(q, o).1 != "" then BodyModel(q, o).1 else q.prefixModel
  }

  /** One model for authorization and for routing, body first. */
  function Model(q: Req, o: Oracles): string {
    if BodyBound(q, o) != "" then BodyBound(q, o) else q.hdrModel
  }

  function Lower(c: char): char { if 'A' <= c <= 'Z' then c - 'A' + 'a' else c }

  predicate BearerScheme(s: string) {
    |s| >= 7 && Lower(s[0]) == 'b' && Lower(s[1]) == 'e' && Lower(s[2]) == 'a' && Lower(s[3]) == 'r' &&
    Lower(s[4]) == 'e' && Lower(s[5]) == 'r' && s[6] == ' '
  }

  function SkipSpaces(s: string): string {
    if s != "" && s[0] == ' ' then SkipSpaces(s[1..]) else s
  }

  /** The bearer token; any other scheme is no bearer credential. */
  function Token(q: Req): string {
    if BearerScheme(q.authorization) then SkipSpaces(q.authorization[7..]) else ""
  }

  /** A token dropped for its size was presented. */
  predicate Presented(q: Req) { q.apiKey != "" || Token(q) != "" || q.bearerOversize }

  predicate JwtArm(q: Req) { q.authMode == 3 || (q.authMode == 4 && q.apiKey == "") }

  /** What the credential arm says. */
  function Validate(q: Req, o: Oracles): (bool, Decision) {
    if JwtArm(q) then o.validateBearer(Token(q), Model(q, o), q.jwtProfile, q.bearerOversize)
    else o.validateKey(q.apiKey, Model(q, o))
  }

  function ValidateCall(q: Req, o: Oracles): Call {
    if JwtArm(q) then Bearer(Token(q), Model(q, o), q.jwtProfile, q.bearerOversize)
    else Key(q.apiKey, Model(q, o))
  }

  function ResolveCall(q: Req, o: Oracles): Call { Resolve(q.clientIp, q.ifindex, q.svc, Model(q, o)) }

  /** The binding of the source. A match that names no tenant is no answer. */
  datatype Binding = Unbound | NoAnswer | Bound(nid: Nid)

  function BindingOf(q: Req, o: Oracles): Binding {
    var (ok, n) := o.resolve(q.clientIp, q.ifindex, q.svc, Model(q, o));
    if !ok then NoAnswer
    else if !n.matched then Unbound
    else if n.tenant == "" then NoAnswer
    else Bound(n)
  }

  // ---- the table ----

  /** The identity a request is metered as. */
  datatype Ident = Ident(who: Who, modelRefused: bool)

  datatype Route =
    | Malformed                                    // more than one routing key in the body
    | Keyless                                      // row 1
    | AsNetwork(nid: Nid)                          // rows 2 and 6
    | Refused(why: Decision)                       // the credential is refused: rows 3 to 5, and row 7
    | Mismatch(who: Decision, nid: Nid)            // row 5, tenant differs
    | NetModel(who: Decision, nid: Nid)            // row 5, model not in the binding's list
    | AsCredential(who: Decision, near: Option<Nid>) // rows 3, 4 and 5
    | Unavailable(named: Option<Decision>)         // fail closed, the resolver cannot answer

  /** A service that does not enforce: the source's binding, or nothing, decides. */
  function OpenRoute(q: Req, o: Oracles): Route {
    if !UsesNetid(q) then Keyless
    else match BindingOf(q, o)
      case Unbound => Keyless
      case NoAnswer => if q.failClosed then Unavailable(None) else Keyless
      case Bound(n) => AsNetwork(n)
  }

  /** A validated credential, beside the binding of its source. */
  function CredentialRoute(q: Req, o: Oracles, d: Decision): Route {
    if !UsesNetid(q) then AsCredential(d, None)
    else match BindingOf(q, o)
      case Unbound => AsCredential(d, None)
      case NoAnswer => if q.failClosed then Unavailable(Some(d)) else AsCredential(d, None)
      case Bound(n) =>
        if n.enforce && n.tenant != d.tenant then Mismatch(d, n)
        else if n.enforce && !n.modelOk then NetModel(d, n)
        else AsCredential(d, Some(n))
  }

  function RouteOf(q: Req, o: Oracles): Route {
    if Ambiguous(q, o) then Malformed
    else if !Enforcing(q) then OpenRoute(q, o)
    else if !Presented(q) && UsesNetid(q) && BindingOf(q, o).NoAnswer? && q.failClosed then Unavailable(None)
    else if !Presented(q) && UsesNetid(q) && BindingOf(q, o).Bound? && BindingOf(q, o).nid.credentialNetwork then
      AsNetwork(BindingOf(q, o).nid)
    else if !Validate(q, o).0 then Refused(Validate(q, o).1)
    else CredentialRoute(q, o, Validate(q, o).1)
  }

  function WhoIs(d: Decision): Who { Who(d.tenant, d.key, d.user, d.authFlags) }

  /** The identity of the two metered routes. */
  function IdentOf(r: Route): Ident
    requires r.AsNetwork? || r.AsCredential?
  {
    if r.AsNetwork? then Ident(Who(r.nid.tenant, "", "", 0), !r.nid.modelOk)
    else Ident(WhoIs(r.who), false)
  }

  // ---- the stages of a metered request ----

  predicate Conflicting(q: Req, o: Oracles) {
    BodyBound(q, o) != "" && q.hdrModel != "" && BodyBound(q, o) != q.hdrModel
  }

  predicate ClassRuns(q: Req, who: Who) { q.classOn && who.tenant != "" }

  predicate BodyWhole(q: Req) { q.body != "" && !q.prefixOnly }

  function TierOf(q: Req, o: Oracles): Tier { if BodyWhole(q) then o.tierField(q.body) else NO_TIER }

  function ClassCall(q: Req, o: Oracles, who: Who, near: Near): Call {
    ClassOf(who.tenant, who.key, near.binding, if near.src == ByBearer then q.jwtProfile else "", q.svc,
            q.objectiveHint, TierOf(q, o).kind)
  }

  /** A resolver that cannot answer leaves the request standard. */
  function ClassAnswer(o: Oracles, c: Call): Class
    requires c.ClassOf?
  {
    var (ok, k) := o.classResolve(c.tenant, c.key, c.binding, c.profile, c.svc, c.hint, c.tier);
    if ok then k else Class(0, 0, false, "")
  }

  predicate Strict(q: Req, o: Oracles) {
    if o.strictOf.Some? then o.strictOf.value(Model(q, o)) else q.objectiveStrict
  }

  predicate ClassRefuses(q: Req, o: Oracles, who: Who, near: Near) {
    ClassRuns(q, who) && ClassAnswer(o, ClassCall(q, o, who, near)).denied && Strict(q, o)
  }

  function RateCall(q: Req, o: Oracles, who: Who): Call { Rate(who.key, who.tenant, who.user, q.svc, Model(q, o)) }

  function RateAnswer(o: Oracles, c: Call): (bool, Decision)
    requires c.Rate?
  {
    o.rate(c.key, c.tenant, c.user, c.svc, c.model)
  }

  /** The tokens to claim: prompt estimate, declared ceiling, default ceiling. */
  function Claim(q: Req, o: Oracles): (int, int, int) {
    var seen := if q.body != "" then o.promptTokens(q.body) else 0;
    var bytes := if q.declaredLen / 4 > 100_000_000 then 100_000_000 else q.declaredLen / 4;
    var prompt := if q.prefixOnly && q.declaredLen > 0 && bytes > seen then bytes else seen;
    var max := if q.body != "" then o.maxTokens(q.body) else 0;
    var dflt := if o.defaultOf.Some? then o.defaultOf.value(Model(q, o)) else q.defaultTokens;
    (prompt, max, if max <= 0 && dflt > 0 then dflt else 0)
  }

  predicate Reserves(q: Req, o: Oracles) {
    && (q.body != "" || (q.prefixOnly && q.declaredLen > 0))
    && var (prompt, max, dflt) := Claim(q, o);
       prompt > 0 || max > 0 || dflt > 0
  }

  function ReserveCall(q: Req, o: Oracles, who: Who): Call {
    var (prompt, max, dflt) := Claim(q, o);
    Reserve(who.tenant, Model(q, o), who.user, who.key, q.svc, prompt, max, dflt)
  }

  function ReserveAnswer(o: Oracles, c: Call): Grant
    requires c.Reserve?
  {
    o.reserve(c.tenant, c.model, c.user, c.key, c.svc, c.prompt, c.max, c.dflt)
  }

  predicate RateRefuses(q: Req, o: Oracles, who: Who) { !RateAnswer(o, RateCall(q, o, who)).0 }

  predicate ReserveRefuses(q: Req, o: Oracles, who: Who) {
    Reserves(q, o) && !ReserveAnswer(o, ReserveCall(q, o, who)).ok
  }

  /** The first stage that refuses, or none. */
  function FirstRefusal(q: Req, o: Oracles, id: Ident, near: Near): Stage {
    if Conflicting(q, o) then Conflict
    else if id.modelRefused then Auth
    else if ClassRefuses(q, o, id.who, near) then Objective
    else if RateRefuses(q, o, id.who) then RateLimit
    else if ReserveRefuses(q, o, id.who) then Reservation
    else NoStage
  }

  /** The calls made on the way: nothing is asked behind the stage that refuses. */
  function MeteredCalls(q: Req, o: Oracles, who: Who, near: Near, at: Stage): seq<Call> {
    var class_ := if ClassRuns(q, who) then [ClassCall(q, o, who, near)] else [];
    var claim := if Reserves(q, o) then [ReserveCall(q, o, who)] else [];
    match at
    case Conflict => []
    case Auth => []
    case Objective => class_
    case RateLimit => class_ + [RateCall(q, o, who)]
    case _ => class_ + [RateCall(q, o, who)] + claim
  }
}
