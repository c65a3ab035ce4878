/** The gate itself: `ai_gw_admit` and the arms it dispatches to. Each arm fills
    the result step by step and returns at the first refusal. */
module AdmissionGate {
  import opened AdmissionTable

  /** `set_deny` */
  function Denied(res: Result, refusal: Refusal): Result { res.(verdict := Deny, refusal := refusal) }

  function Uint32(x: int): nat { x % 0x1_0000_0000 }

  function Or(code: string, fallback: string): string { if code != "" then code else fallback }

  // ---- what each part of the gate promises ----

  /** 503 for the gateway's own outage, 429 for a limit. */
  function RateRefusal(d: Decision): Refusal {
    Refusal(RateLimit, if d.decision == 4 then 503 else 429, d.retryAfter, true,
            Or(d.errorCode, "rate_limit_exceeded"))
  }

  const CONFLICT := Refusal(Conflict, 400, 0, false, "model_conflict")
  const MODEL_REFUSED := Refusal(Auth, 403, 0, false, "model_not_allowed")
  const TENANT_MISMATCH := Refusal(Auth, 403, 0, false, "network_tenant_mismatch")
  const OBJECTIVE_REFUSED := Refusal(Objective, 403, 0, false, "objective_not_allowed")
  const UNAVAILABLE := Refusal(Auth, 503, 5, false, "netid_unavailable")

  /** The refusal of each metered stage. */
  function StageRefusal(q: Req, o: Oracles, who: Who, at: Stage): Refusal {
    match at
    case Conflict => CONFLICT
    case Auth => MODEL_REFUSED
    case Objective => OBJECTIVE_REFUSED
    case RateLimit => RateRefusal(RateAnswer(o, RateCall(q, o, who)).1)
    case Reservation =>
      var d := ReserveAnswer(o, ReserveCall(q, o, who)).why;
      Refusal(Reservation, 429, d.retryAfter, true, d.errorCode)
    case _ => NO_REFUSAL
  }

  /** What is held for settlement: what the quota granted, and only on ALLOW. A
      refused reservation reports what was asked. */
  function HeldAfter(q: Req, o: Oracles, who: Who, at: Stage): Held {
    var c := ReserveCall(q, o, who); var g := ReserveAnswer(o, c);
    var granted := if g.granted < 0 then 0 else g.granted;
    if at == Reservation then Held(Uint32(c.prompt + c.max), 0, false)
    else if at != NoStage || !Reserves(q, o) || g.epoch == 0 then NOTHING_HELD
    else Held(Uint32(granted), g.epoch, c.dflt > 0 && granted < c.prompt + c.max + c.dflt)
  }

  /** The identity a verdict carries: all of it past the first two stages. */
  function WhoAfter(who: Who, at: Stage): Who {
    match at
    case Conflict => Who(who.tenant, who.key, "", 0)
    case Auth => Who(who.tenant, "", "", 0)
    case _ => who
  }

  /** What the class stage leaves in the result. */
  function Classified(q: Req, o: Oracles, who: Who, near: Near): ClassInfo {
    var k := ClassAnswer(o, ClassCall(q, o, who, near));
    ClassInfo(true, k.priority, if k.priorityClass <= 2 then k.priorityClass else 0, k.denied,
              !BodyWhole(q) && q.objectiveHint == "", k.objective,
              if ClassRefuses(q, o, who, near) || TierOf(q, o).kind == 0 then NO_TIER else TierOf(q, o))
  }

  /** The class a verdict carries: the stage's answer where it ran. */
  function ClassAfter(q: Req, o: Oracles, who: Who, before: Result, at: Stage): ClassInfo {
    if at == Conflict || at == Auth || !ClassRuns(q, who) then before.class_ else Classified(q, o, who, before.near)
  }

  /** The metered stages, for an identity that is decided. */
  ghost predicate MeteredOk(q: Req, o: Oracles, id: Ident, before: Result, res: Result, calls: seq<Call>) {
    var at := FirstRefusal(q, o, id, before.near);
    && res.verdict == (if at == NoStage then Allow else Deny)
    && res.refusal == StageRefusal(q, o, id.who, at)
    && res.who == WhoAfter(id.who, at)
    && res.held == HeldAfter(q, o, id.who, at)
    && res.near == before.near
    && res.class_ == ClassAfter(q, o, id.who, before, at)
    && res.model == (if at == Conflict || at == Auth then before.model else Cut(Model(q, o)))
    && calls == MeteredCalls(q, o, id.who, before.near, at)
  }

  /** Nothing decided or charged yet. */
  predicate Fresh(res: Result) {
    res.verdict == Allow && res.refusal == NO_REFUSAL && res.held == NOTHING_HELD
  }

  // ---- the arms ----

  /** `admit_keyless`: the opt-in shared bucket, then UNMETERED. */
  method AdmitKeyless(o: Oracles, before: Result, svc: string) returns (res: Result, calls: seq<Call>)
    ensures calls == (if svc == "" then [] else [Rate("", "", "", svc, "")])
    ensures var (ok, d) := o.rate("", "", "", svc, "");
            res == if svc == "" || ok then before.(verdict := Unmetered) else Denied(before, RateRefusal(d))
  {
    res, calls := before, [];
    if svc != "" {
      calls := [Rate("", "", "", svc, "")];
      var (ok, d) := o.rate("", "", "", svc, "");
      if !ok {
        res := Denied(res, Refusal(RateLimit, if d.decision == 4 then 503 else 429, d.retryAfter, true,
                                   if d.errorCode != "" then d.errorCode else "rate_limit_exceeded"));
        return;
      }
    }
    res := res.(verdict := Unmetered);
  }

  /** `netid_lookup` and `netid_ask`: a resolver that cannot answer is "no
      binding", unless the service fails closed. */
  method NetidAsk(q: Req, o: Oracles, before: Result, model: string)
      returns (res: Result, found: Option<Nid>, refused: bool, calls: seq<Call>)
    requires model == Model(q, o)
    ensures calls == [ResolveCall(q, o)]
    ensures refused <==> BindingOf(q, o).NoAnswer? && q.failClosed
    ensures res == if refused then Denied(before, UNAVAILABLE) else before
    ensures found == if BindingOf(q, o).Bound? then Some(BindingOf(q, o).nid) else None
  {
    res, refused, found := before, false, None;
    calls := [Resolve(q.clientIp, q.ifindex, q.svc, model)];
    var (ok, n) := o.resolve(q.clientIp, q.ifindex, q.svc, model);
    if ok && n.matched && n.tenant != "" {
      found := Some(n);
    } else if !ok || n.matched {
      if q.failClosed {
        res := Denied(res, Refusal(Auth, 503, 5, false, "netid_unavailable"));
        refused := true;
      }
    }
  }

  /** `admit_class` */
  method AdmitClass(q: Req, o: Oracles, before: Result, who: Who, model: string)
      returns (res: Result, refused: bool, calls: seq<Call>)
    requires model == Model(q, o) && ClassRuns(q, who)
    ensures calls == [ClassCall(q, o, who, before.near)]
    ensures refused <==> ClassRefuses(q, o, who, before.near)
    ensures var c := before.(class_ := Classified(q, o, who, before.near));
            res == if refused then Denied(c, OBJECTIVE_REFUSED) else c
  {
    hide Model;
    var tier, unread := NO_TIER, false;
    if q.body != "" && !q.prefixOnly {
      tier := o.tierField(q.body);
    } else if q.objectiveHint == "" {
      unread := true;
    }
    var profile := if before.near.src == ByBearer then q.jwtProfile else "";
    calls := [ClassOf(who.tenant, who.key, before.near.binding, profile, q.svc, q.objectiveHint, tier.kind)];
    var (ok, k) := o.classResolve(who.tenant, who.key, before.near.binding, profile, q.svc, q.objectiveHint, tier.kind);
    if !ok { k := Class(0, 0, false, ""); }
    var info := ClassInfo(true, k.priority, if k.priorityClass <= 2 then k.priorityClass else 0,
                          k.denied, unread, k.objective, NO_TIER);
    refused := k.denied && if o.strictOf.Some? then o.strictOf.value(model) else q.objectiveStrict;
    if refused {
      res := Denied(before.(class_ := info), Refusal(Objective, 403, 0, false, "objective_not_allowed"));
      return;
    }
    if tier.kind != 0 { info := info.(tier := tier); }
    res := before.(class_ := info);
  }

  /** How much to claim before dispatch. */
  method SizeClaim(q: Req, o: Oracles, model: string) returns (prompt: int, max: int, dflt: int)
    requires model == Model(q, o)
    ensures (prompt, max, dflt) == Claim(q, o)
  {
    prompt, max, dflt := 0, 0, 0;
    if q.body != "" {
      prompt := o.promptTokens(q.body);
      max := o.maxTokens(q.body);
    }
    if q.prefixOnly && q.declaredLen > 0 {
      var fromBytes := q.declaredLen / 4;
      if fromBytes > 100_000_000 { fromBytes := 100_000_000; }
      if fromBytes > prompt { prompt := fromBytes; }
    }
    if max <= 0 {
      var d := if o.defaultOf.Some? then o.defaultOf.value(model) else q.defaultTokens;
      if d > 0 { dflt := d; }
    }
  }

  /** Stage 4: the reservation. */
  method AdmitReserve(q: Req, o: Oracles, before: Result, who: Who, model: string)
      returns (res: Result, calls: seq<Call>)
    requires model == Model(q, o) && before.held == NOTHING_HELD && before.verdict == Allow
    ensures calls == if Reserves(q, o) then [ReserveCall(q, o, who)] else []
    ensures var r := before.(held := HeldAfter(q, o, who, if ReserveRefuses(q, o, who) then Reservation else NoStage));
            res == if ReserveRefuses(q, o, who) then Denied(r, StageRefusal(q, o, who, Reservation)) else r
  {
    hide Claim, Model, Uint32;
    res, calls := before, [];
    if q.body != "" || (q.prefixOnly && q.declaredLen > 0) {
      var prompt, max, dflt := SizeClaim(q, o, model);
      if prompt > 0 || max > 0 || dflt > 0 {
        calls := [Reserve(who.tenant, model, who.user, who.key, q.svc, prompt, max, dflt)];
        var g := o.reserve(who.tenant, model, who.user, who.key, q.svc, prompt, max, dflt);
        if !g.ok {
          res := Denied(res, Refusal(Reservation, 429, g.why.retryAfter, true, g.why.errorCode));
          res := res.(held := Held(Uint32(prompt + max), 0, false));
          return;
        }
        if g.epoch != 0 {
          var granted := if g.granted < 0 then 0 else g.granted;
          res := res.(held := Held(Uint32(granted), g.epoch, false));
          if dflt > 0 && granted < prompt + max + dflt { res := res.(held := res.held.(clamped := true)); }
        }
      }
    }
  }

  /** `admit_metered`: one body for every way a tenant is decided. */
  method AdmitMetered(q: Req, o: Oracles, before: Result, id: Ident, model: string, bodyBound: string)
      returns (res: Result, calls: seq<Call>)
    requires model == Model(q, o) && bodyBound == BodyBound(q, o) && Fresh(before) && before.who == NOBODY
    ensures MeteredOk(q, o, id, before, res, calls)
  {
    hide Reserves, ReserveRefuses, ClassRefuses, Classified, HeldAfter, ReserveCall, ClassCall, BodyBound, Model;
    var who := id.who;
    res, calls := before, [];
    if bodyBound != "" && q.hdrModel != "" && bodyBound != q.hdrModel {
      res := Denied(res, Refusal(Conflict, 400, 0, false, "model_conflict"))
        .(who := Who(who.tenant, who.key, "", 0));
      NothingHeld(q, o, who, Conflict);
      return;
    }
    if id.modelRefused {
      res := Denied(res, Refusal(Auth, 403, 0, false, "model_not_allowed")).(who := Who(who.tenant, "", "", 0));
      NothingHeld(q, o, who, Auth);
      return;
    }
    res := res.(who := who, model := Cut(model));
    if q.classOn && who.tenant != "" {
      var refused, asked;
      res, refused, asked := AdmitClass(q, o, res, who, model);
      calls := calls + asked;
      if refused {
        NothingHeld(q, o, who, Objective);
        return;
      }
    } else {
      NoClass(q, o, who, before.near);
    }
    calls := calls + [Rate(who.key, who.tenant, who.user, q.svc, model)];
    var (ok, d) := o.rate(who.key, who.tenant, who.user, q.svc, model);
    if !ok {
      res := Denied(res, Refusal(RateLimit, if d.decision == 4 then 503 else 429, d.retryAfter, true,
                                 if d.errorCode != "" then d.errorCode else "rate_limit_exceeded"));
      NothingHeld(q, o, who, RateLimit);
      return;
    }
    var claimed;
    res, claimed := AdmitReserve(q, o, res, who, model);
    calls := calls + claimed;
  }

  lemma NothingHeld(q: Req, o: Oracles, who: Who, at: Stage)
    requires at != Reservation && at != NoStage
    ensures HeldAfter(q, o, who, at) == NOTHING_HELD
  {
  }

  lemma NoClass(q: Req, o: Oracles, who: Who, near: Near)
    requires !ClassRuns(q, who)
    ensures !ClassRefuses(q, o, who, near)
  {
  }

  // ---- the table, row by row ----

  /** A refused credential: 503 for the store's outage, 403 for a model it may
      not use, 401 for anything else. */
  function CredentialRefusal(q: Req, d: Decision): Refusal {
    if d.decision == 4 then Refusal(Auth, 503, 5, false, Or(d.errorCode, "policy_store_unavailable"))
    else if d.decision == 2 then MODEL_REFUSED
    else Refusal(Auth, 401, 0, false, Or(d.errorCode, if JwtArm(q) then "invalid_token" else "invalid_api_key"))
  }

  function CredentialSource(q: Req): Source { if JwtArm(q) then ByBearer else ByCredential }

  /** A validated identity on a refusal made before the metered stages. */
  function Named(d: Decision): Who { Who(d.tenant, d.key, d.user, 0) }

  function NearBinding(q: Req, n: Option<Nid>): Near {
    if n.Some? then Near(CredentialSource(q), n.value.forwardIdentity, n.value.name)
    else Near(CredentialSource(q), false, "")
  }

  /** Where a request starts: the model is known once anything may refuse it. */
  function Start(q: Req, o: Oracles): Result {
    if Enforcing(q) then BLANK.(model := Cut(Model(q, o))) else BLANK
  }

  function OnNetwork(q: Req, o: Oracles, n: Nid): Result {
    BLANK.(model := Cut(Model(q, o)), near := Near(ByNetwork, n.forwardIdentity, n.name))
  }

  /** A body with a routing key twice: which one is named. */
  function FramingRefusal(q: Req, o: Oracles): Refusal {
    Refusal(Framing, 400, 0, false,
            if BodyModel(q, o).0 == DUPLICATE_USER then "duplicate_user_field" else "duplicate_model_field")
  }

  /** The result of each route; the metered ones go through their stages. */
  ghost predicate RouteOk(q: Req, o: Oracles, res: Result, calls: seq<Call>) {
    match RouteOf(q, o)
    case Malformed =>
      calls == [] && res == Denied(BLANK, FramingRefusal(q, o))
    case Keyless =>
      var (ok, d) := o.rate("", "", "", q.svc, "");
      && calls == (if q.svc == "" then [] else [Rate("", "", "", q.svc, "")])
      && res == (if q.svc == "" || ok then BLANK.(verdict := Unmetered) else Denied(BLANK, RateRefusal(d)))
    case AsNetwork(n) => MeteredOk(q, o, IdentOf(RouteOf(q, o)), OnNetwork(q, o, n), res, calls)
    case Refused(d) =>
      && calls == []
      && res == Denied(if d.decision == 2 then Start(q, o).(who := Named(d), near := NearBinding(q, None))
                       else Start(q, o), CredentialRefusal(q, d))
    case Mismatch(d, n) =>
      && calls == []
      && res == Denied(Start(q, o).(who := Named(d), near := NearBinding(q, Some(n))), TENANT_MISMATCH)
    case NetModel(d, n) =>
      && calls == []
      && res == Denied(Start(q, o).(who := Named(d), near := NearBinding(q, Some(n))), MODEL_REFUSED)
    case AsCredential(d, n) =>
      MeteredOk(q, o, IdentOf(RouteOf(q, o)), Start(q, o).(near := NearBinding(q, n)), res, calls)
    case Unavailable(d) =>
      && calls == []
      && res == Denied(if d.Some? then Start(q, o).(who := Named(d.value), near := NearBinding(q, None))
                       else Start(q, o), UNAVAILABLE)
  }

  /** The resolver is asked before the credential only when there is none. */
  predicate AsksFirst(q: Req) { UsesNetid(q) && (!Enforcing(q) || !Presented(q)) }

  /** The calls that find the route. */
  function HeadCalls(q: Req, o: Oracles): seq<Call> {
    var ask := if UsesNetid(q) then [ResolveCall(q, o)] else [];
    match RouteOf(q, o)
    case Malformed => []
    case Keyless => ask
    case AsNetwork(_) => ask
    case Unavailable(None) => ask
    case Refused(_) => (if AsksFirst(q) then ask else []) + [ValidateCall(q, o)]
    case _ => if AsksFirst(q) then ask + [ValidateCall(q, o)] else [ValidateCall(q, o)] + ask
  }

  /** Every refusal is recorded, once, with what it carries. */
  function RecordCalls(res: Result): seq<Call> {
    if res.verdict == Deny then [Record(res.refusal, res.model, res.who, res.near, res.class_)] else []
  }

  /** What the gate promises: the route the table gives, its calls in order, and
      the record of a refusal at the end. */
  ghost predicate GateOk(q: Req, o: Oracles, res: Result, calls: seq<Call>) {
    exists tail :: RouteOk(q, o, res, tail) && calls == HeadCalls(q, o) + tail + RecordCalls(res)
  }

  // ---- the gate ----

  /** The scheme tag and the spaces behind it are dropped. */
  method StripBearer(q: Req) returns (token: string)
    ensures token == Token(q)
  {
    token := "";
    if BearerScheme(q.authorization) {
      token := q.authorization[7..];
      while token != "" && token[0] == ' '
        invariant SkipSpaces(token) == SkipSpaces(q.authorization[7..])
        decreases |token|
      {
        token := token[1..];
      }
    }
  }

  /** `admit_network` */
  method AdmitNetwork(q: Req, o: Oracles, before: Result, n: Nid, model: string, bodyBound: string)
      returns (res: Result, calls: seq<Call>)
    requires model == Model(q, o) && bodyBound == BodyBound(q, o) && before == BLANK.(model := Cut(model))
    ensures MeteredOk(q, o, Ident(Who(n.tenant, "", "", 0), !n.modelOk), OnNetwork(q, o, n), res, calls)
  {
    hide MeteredOk, BodyBound, Model;
    var id := Ident(Who(n.tenant, "", "", 0), !n.modelOk);
    res := before.(near := Near(ByNetwork, n.forwardIdentity, n.name));
    res, calls := AdmitMetered(q, o, res, id, model, bodyBound);
  }

  /** A validated credential beside the binding of its source: rows 3, 4 and 5. */
  method HoldToBinding(q: Req, o: Oracles, before: Result, d: Decision, found: Option<Nid>, model: string, bodyBound: string)
      returns (res: Result, calls: seq<Call>)
    requires model == Model(q, o) && bodyBound == BodyBound(q, o)
    requires before == Start(q, o).(near := NearBinding(q, None)) && Enforcing(q)
    ensures found.Some? && found.value.enforce && found.value.tenant != d.tenant ==>
              calls == [] &&
              res == Denied(Start(q, o).(who := Named(d), near := NearBinding(q, found)), TENANT_MISMATCH)
    ensures found.Some? && found.value.enforce && found.value.tenant == d.tenant && !found.value.modelOk ==>
              calls == [] &&
              res == Denied(Start(q, o).(who := Named(d), near := NearBinding(q, found)), MODEL_REFUSED)
    ensures !(found.Some? && found.value.enforce && (found.value.tenant != d.tenant || !found.value.modelOk)) ==>
              MeteredOk(q, o, Ident(WhoIs(d), false), Start(q, o).(near := NearBinding(q, found)), res, calls)
  {
    hide MeteredOk, BodyBound, Model, JwtArm;
    res, calls := before, [];
    if found.Some? {
      var n := found.value;
      res := res.(near := res.near.(binding := n.name, forward := n.forwardIdentity));
      if n.enforce {
        var mismatch := n.tenant != d.tenant;
        if mismatch || !n.modelOk {
          if mismatch {
            res := Denied(res, Refusal(Auth, 403, 0, false, "network_tenant_mismatch"));
          } else {
            res := Denied(res, Refusal(Auth, 403, 0, false, "model_not_allowed"));
          }
          res := res.(who := Who(d.tenant, d.key, d.user, 0));
          return;
        }
      }
    }
    res, calls := AdmitMetered(q, o, res, Ident(WhoIs(d), false), model, bodyBound);
  }

  /** The answer to a credential its validator refused. */
  method RefuseCredential(q: Req, before: Result, d: Decision) returns (res: Result)
    ensures res == Denied(if d.decision == 2 then
                            before.(who := Named(d), near := if JwtArm(q) then before.near.(src := ByBearer) else before.near)
                          else before, CredentialRefusal(q, d))
  {
    if d.decision == 4 {
      res := Denied(before, Refusal(Auth, 503, 5, false,
                                    if d.errorCode != "" then d.errorCode else "policy_store_unavailable"));
    } else if d.decision == 2 {
      res := Denied(before, Refusal(Auth, 403, 0, false, "model_not_allowed"));
      if JwtArm(q) { res := res.(near := res.near.(src := ByBearer)); }
      res := res.(who := Who(d.tenant, d.key, d.user, 0));
    } else {
      var code := if d.errorCode != "" then d.errorCode
                  else if JwtArm(q) then "invalid_token" else "invalid_api_key";
      res := Denied(before, Refusal(Auth, 401, 0, false, code));
    }
  }

  /** The arm the service declares; with mode 4, a present key decides alone. */
  method CheckCredential(q: Req, o: Oracles, token: string, model: string) returns (ok: bool, d: Decision, call: Call)
    requires token == Token(q) && model == Model(q, o)
    ensures (ok, d) == Validate(q, o) && call == ValidateCall(q, o)
  {
    hide Token, Model;
    var v;
    if q.authMode == 3 || (q.authMode == 4 && q.apiKey == "") {
      call := Bearer(token, model, q.jwtProfile, q.bearerOversize);
      v := o.validateBearer(token, model, q.jwtProfile, q.bearerOversize);
    } else {
      call := Key(q.apiKey, model);
      v := o.validateKey(q.apiKey, model);
    }
    ok, d := v.0, v.1;
  }

  /** A service that enforces: rows 3 to 7. */
  method AdmitEnforcing(q: Req, o: Oracles, model: string, bodyBound: string)
      returns (res: Result, head: seq<Call>, tail: seq<Call>)
    requires Enforcing(q) && !Ambiguous(q, o) && model == Model(q, o) && bodyBound == BodyBound(q, o)
    ensures head == HeadCalls(q, o) && RouteOk(q, o, res, tail)
  {
    hide MeteredOk, BodyBound, Model, BindingOf, Token, JwtArm, CredentialRefusal, Validate, ValidateCall;
    res, head, tail := BLANK.(model := Cut(model)), [], [];
    var token := StripBearer(q);
    var asked, found, refused := false, None, false;
    if UsesNetid(q) && q.apiKey == "" && token == "" && !q.bearerOversize {
      asked := true;
      res, found, refused, head := NetidAsk(q, o, res, model);
      if refused { return; }
      if found.Some? && found.value.credentialNetwork {
        res, tail := AdmitNetwork(q, o, res, found.value, model, bodyBound);
        return;
      }
    }
    var ok, d, call := CheckCredential(q, o, token, model);
    head := head + [call];
    if !ok {
      res := RefuseCredential(q, res, d);
      return;
    }
    if JwtArm(q) { res := res.(near := res.near.(src := ByBearer)); }
    if UsesNetid(q) && !asked {
      var ask;
      res, found, refused, ask := NetidAsk(q, o, res, model);
      head := head + ask;
      if refused {
        res := res.(who := Who(d.tenant, d.key, d.user, 0));
        return;
      }
    }
    res, tail := HoldToBinding(q, o, res, d, found, model, bodyBound);
  }

  /** `ai_gw_admit_decide`, with the calls that found the route and the rest. */
  method Decide(q: Req, o: Oracles) returns (res: Result, head: seq<Call>, tail: seq<Call>)
    ensures head == HeadCalls(q, o) && RouteOk(q, o, res, tail)
  {
    hide MeteredOk, BindingOf, Token, JwtArm, CredentialRefusal;
    res, head, tail := BLANK, [], [];
    var enforcing, netid := Enforcing(q), UsesNetid(q);
    if !enforcing && !netid && q.parsedModel.None? {
      res, tail := AdmitKeyless(o, res, q.svc);
      return;
    }
    var (rc, bodyModel) := BodyModel(q, o);
    if rc == DUPLICATE_MODEL || rc == DUPLICATE_USER {
      res := Denied(res, Refusal(Framing, 400, 0, false,
                                 if rc == DUPLICATE_USER then "duplicate_user_field" else "duplicate_model_field"));
      return;
    }
    if !enforcing && !netid {
      res, tail := AdmitKeyless(o, res, q.svc);
      return;
    }
    var bodyBound := if bodyModel != "" then bodyModel else q.prefixModel;
    var model := if bodyBound != "" then bodyBound else q.hdrModel;
    if !enforcing {
      var found, refused;
      res, found, refused, head := NetidAsk(q, o, res, model);
      if refused { return; }
      if found.Some? {
        res, tail := AdmitNetwork(q, o, res.(model := Cut(model)), found.value, model, bodyBound);
        return;
      }
      res, tail := AdmitKeyless(o, res, q.svc);
      return;
    }
    res, head, tail := AdmitEnforcing(q, o, model, bodyBound);
  }

  /** `ai_gw_admit`: one frame through which every refusal is recorded. */
  method Admit(q: Req, o: Oracles) returns (res: Result, calls: seq<Call>)
    ensures GateOk(q, o, res, calls)
  {
    hide RouteOk, HeadCalls;
    var head, tail;
    res, head, tail := Decide(q, o);
    calls := head + tail;
    if res.verdict == Deny {
      calls := calls + [Record(res.refusal, res.model, res.who, res.near, res.class_)];
    }
  }
}
