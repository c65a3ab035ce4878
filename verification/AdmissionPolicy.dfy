/** The admission policy as an operator reads it: in the numbers of the wire, the
    fields of the request, and the calls the gate is seen to make. */
module AdmissionPolicy {
  import opened AdmissionTable
  import opened AdmissionGate
  import opened AdmissionTheorems

  /** The control plane accepted this: a key, a token, or the source in place of both. */
  predicate Accepted(o: Oracles, c: Call) {
    match c
    case Key(key, model) => o.validateKey(key, model).0
    case Bearer(token, model, profile, oversize) => o.validateBearer(token, model, profile, oversize).0
    case Resolve(ip, ifindex, svc, model) =>
      var (ok, n) := o.resolve(ip, ifindex, svc, model);
      ok && n.matched && n.tenant != "" && n.credentialNetwork
    case _ => false
  }

  // ---- where a call stands ----

  lemma Parts(q: Req, o: Oracles, res: Result, calls: seq<Call>) returns (tail: seq<Call>)
    requires GateOk(q, o, res, calls)
    ensures RouteOk(q, o, res, tail) && calls == HeadCalls(q, o) + tail + RecordCalls(res)
    ensures forall c :: c in tail ==> Rank(c) >= 2
    ensures forall c :: c in calls && Rank(c) < 2 ==> c in HeadCalls(q, o)
    ensures forall c :: c in calls && 2 <= Rank(c) < 5 ==> c in tail
    ensures forall c :: c in HeadCalls(q, o) ==> c in calls && Rank(c) < 2
    ensures forall c :: c in tail ==> c in calls
  {
    hide RouteOk, HeadCalls;
    tail :| RouteOk(q, o, res, tail) && calls == HeadCalls(q, o) + tail + RecordCalls(res);
    TailIsRising(q, o, res, tail);
    HeadIsHeading(q, o);
  }

  /** The credential calls and the resolver's among those that find the route. */
  lemma HeadIs(q: Req, o: Oracles)
    ensures var h, r := HeadCalls(q, o), RouteOf(q, o);
            && (r.AsCredential? || r.Refused? || r.Mismatch? || r.NetModel? || (r.Unavailable? && r.named.Some?) <==>
                  ValidateCall(q, o) in h)
            && (r.AsNetwork? ==> UsesNetid(q) && ResolveCall(q, o) in h)
            && (forall c :: c in h ==> c == ValidateCall(q, o) || (c == ResolveCall(q, o) && UsesNetid(q)))
  {
    hide Ambiguous, Presented, BindingOf, Validate, Model, Token, JwtArm, Enforcing;
    NetworkUses(q, o);
  }

  lemma NetworkUses(q: Req, o: Oracles)
    ensures RouteOf(q, o).AsNetwork? ==> UsesNetid(q)
  {
    hide Ambiguous, Presented, BindingOf, Validate, UsesNetid, Enforcing;
  }

  // ---- which modes enforce, and how ----

  /** The routes of an enforcing mode, by the numbers. */
  lemma EnforcingRoutes(q: Req, o: Oracles)
    requires q.authMode != 0 && q.authMode != 2
    ensures var r := RouteOf(q, o);
            && !r.Keyless?
            && (r.AsCredential? ==> Validate(q, o).0)
            && (r.AsNetwork? ==>
                  && Accepted(o, ResolveCall(q, o))
                  && q.apiKey == "" && !q.bearerOversize && Token(q) == "")
  {
    hide Ambiguous, Validate, Model, Token, UsesNetid;
  }

  /** NOBODY PASSES UNCHECKED. Under any mode but 0 and 2, a mode nobody knows
      included, a request that is not refused was accepted by a validator, or came
      without any credential from a source whose binding stands in for one; and it
      is never let through unmetered. */
  lemma NoFreePass(q: Req, o: Oracles, res: Result, calls: seq<Call>)
    requires GateOk(q, o, res, calls) && q.authMode != 0 && q.authMode != 2 && res.verdict != Deny
    ensures res.verdict == Allow
    ensures exists c :: c in calls && Accepted(o, c)
              && (c.Resolve? ==> q.apiKey == "" && Token(q) == "" && !q.bearerOversize)
  {
    hide RouteOk, HeadCalls, RouteOf, Validate, Accepted, Token;
    var tail := Parts(q, o, res, calls);
    EnforcingRoutes(q, o);
    HeadIs(q, o);
    LetIn(q, o, res, tail);
    var r := RouteOf(q, o);
    if r.AsCredential? {
      ValidateAccepts(q, o);
      assert ValidateCall(q, o) in calls;
    } else {
      assert ResolveCall(q, o) in calls;
    }
  }

  lemma LetIn(q: Req, o: Oracles, res: Result, tail: seq<Call>)
    requires RouteOk(q, o, res, tail) && res.verdict != Deny && !RouteOf(q, o).Keyless?
    ensures res.verdict == Allow && (RouteOf(q, o).AsCredential? || RouteOf(q, o).AsNetwork?)
  {
    hide RouteOf, IdentOf, FirstRefusal, StageRefusal, HeldAfter, WhoAfter, ClassAfter, MeteredCalls, Model,
         CredentialRefusal, FramingRefusal;
  }

  lemma ValidateAccepts(q: Req, o: Oracles)
    ensures Validate(q, o).0 <==> Accepted(o, ValidateCall(q, o))
    ensures !ValidateCall(q, o).Resolve?
  {
    hide Model, Token, JwtArm;
  }

  /** WHICH ARM. Modes 0 and 2 ask no validator; 3 asks about the token only; 4
      about the key exactly when there is one, and about the token otherwise; and
      every other mode about the key only. */
  lemma ModeChoosesArm(q: Req, o: Oracles, res: Result, calls: seq<Call>, c: Call)
    requires GateOk(q, o, res, calls) && c in calls
    ensures q.authMode == 0 || q.authMode == 2 ==> !c.Key? && !c.Bearer?
    ensures q.authMode == 3 ==> !c.Key?
    ensures q.authMode == 4 && q.apiKey == "" ==> !c.Key?
    ensures q.authMode == 4 && q.apiKey != "" ==> !c.Bearer?
    ensures q.authMode != 3 && q.authMode != 4 ==> !c.Bearer?
    ensures c.Key? ==> c.key == q.apiKey
    ensures c.Bearer? ==> c.token == Token(q) && c.profile == q.jwtProfile && c.oversize == q.bearerOversize
  {
    hide RouteOk, HeadCalls, Model, Token;
    var tail := Parts(q, o, res, calls);
    HeadIs(q, o);
    if c.Key? || c.Bearer? {
      assert c == ValidateCall(q, o);
      if q.authMode == 0 || q.authMode == 2 { OpenAsksNobody(q, o); }
    }
  }

  lemma OpenAsksNobody(q: Req, o: Oracles)
    requires q.authMode == 0 || q.authMode == 2
    ensures ValidateCall(q, o) !in HeadCalls(q, o)
  {
    hide HeadCalls, ValidateCall, BindingOf, Ambiguous, Validate, UsesNetid;
    HeadIs(q, o);
  }

  /** A PRESENTED CREDENTIAL IS CHECKED. Under an enforcing mode a request with a key
      or a token, that is not malformed, is put to the validator. */
  lemma CredentialIsChecked(q: Req, o: Oracles, res: Result, calls: seq<Call>)
    requires GateOk(q, o, res, calls) && q.authMode != 0 && q.authMode != 2 && res.refusal.stage != Framing
    requires q.apiKey != "" || Token(q) != "" || q.bearerOversize
    ensures exists c :: c in calls && (c.Key? || c.Bearer?)
    ensures q.authMode == 4 && q.apiKey != "" ==> exists c :: c in calls && c.Key?
  {
    hide RouteOk, HeadCalls, Model, Token;
    var tail := Parts(q, o, res, calls);
    HeadIs(q, o);
    NotFraming(q, o, res, tail);
    PresentedIsValidated(q, o);
    assert ValidateCall(q, o) in calls;
  }

  lemma PresentedIsValidated(q: Req, o: Oracles)
    requires q.authMode != 0 && q.authMode != 2 && !RouteOf(q, o).Malformed?
    requires q.apiKey != "" || Token(q) != "" || q.bearerOversize
    ensures ValidateCall(q, o) in HeadCalls(q, o)
  {
    hide HeadCalls, ValidateCall, BindingOf, Validate, UsesNetid, Token;
    HeadIs(q, o);
  }

  lemma NotFraming(q: Req, o: Oracles, res: Result, tail: seq<Call>)
    requires RouteOk(q, o, res, tail)
    ensures RouteOf(q, o).Malformed? <==> res.refusal.stage == Framing
  {
    hide RouteOf, IdentOf, FirstRefusal, HeldAfter, WhoAfter, ClassAfter, MeteredCalls, Model;
  }

  /** TWICE NAMED. A request is refused as framed exactly when its body names a model
      or a user twice (-6 and -8 of the scanner), and somebody would read it: the
      transport that scanned it, an enforcing mode, or a service with bindings. */
  lemma FramedExactly(q: Req, o: Oracles, res: Result, calls: seq<Call>)
    requires GateOk(q, o, res, calls)
    ensures res.refusal.stage == Framing <==>
            if q.parsedModel.Some? then q.parseResult == -6 || q.parseResult == -8
            else
              && q.body != "" && !q.prefixOnly && (o.modelField(q.body).0 == -6 || o.modelField(q.body).0 == -8)
              && ((q.authMode != 0 && q.authMode != 2) || (q.netidBound && q.svc != ""))
    ensures res.refusal.stage == Framing ==>
              var rc := if q.parsedModel.Some? then q.parseResult else o.modelField(q.body).0;
              && res.verdict == Deny && |calls| == 1
              && res.refusal == Refusal(Framing, 400, 0, false,
                                        if rc == -8 then "duplicate_user_field" else "duplicate_model_field")
  {
    hide HeadCalls;
    var tail := Parts(q, o, res, calls);
    NotFraming(q, o, res, tail);
    MalformedIs(q, o);
    assert RouteOf(q, o).Malformed? ==> tail == [] && HeadCalls(q, o) == [];
  }

  lemma MalformedIs(q: Req, o: Oracles)
    ensures RouteOf(q, o).Malformed? <==> Ambiguous(q, o)
    ensures RouteOf(q, o).Malformed? ==> HeadCalls(q, o) == []
  {
    hide BindingOf, Validate, Ambiguous, Presented;
  }

  // ---- what is read from the request ----

  /** THE MODEL. What the transport or the body names, then the prefix, then the
      header; a scanned name is cut at 127 characters. */
  lemma ModelIs(q: Req, o: Oracles)
    ensures q.parsedModel.Some? && 0 < |q.parsedModel.value| < 128 ==> Model(q, o) == q.parsedModel.value
    ensures q.parsedModel.Some? && |q.parsedModel.value| >= 128 ==> Model(q, o) == q.parsedModel.value[..127]
    ensures q.parsedModel.None? && q.body != "" && !q.prefixOnly && o.modelField(q.body).1 != "" ==>
              Model(q, o) == o.modelField(q.body).1
    ensures (if q.parsedModel.Some? then q.parsedModel.value == ""
             else q.body == "" || q.prefixOnly || o.modelField(q.body).1 == "") ==>
              Model(q, o) == if q.prefixModel != "" then q.prefixModel else q.hdrModel
  {
  }

  /** ONE MODEL. Every call that names a model names that one, but for the shared
      bucket of traffic without an identity, which names none. */
  lemma OneModel(q: Req, o: Oracles, res: Result, calls: seq<Call>, c: Call)
    requires GateOk(q, o, res, calls) && c in calls
    ensures c.Key? || c.Bearer? || c.Resolve? || c.Reserve? ==> c.model == Model(q, o)
    ensures c.Rate? ==> c.model == Model(q, o) || c == Rate("", "", "", q.svc, "")
    ensures c.Resolve? ==> q.netidBound && q.svc != "" && c == Resolve(q.clientIp, q.ifindex, q.svc, Model(q, o))
  {
    hide RouteOk, HeadCalls, Model, Token, TierOf, Claim;
    var tail := Parts(q, o, res, calls);
    HeadIs(q, o);
    if c.Rate? || c.Reserve? {
      var near := TailIs(q, o, res, tail, c);
    }
  }

  lemma MeteredCallsAre(q: Req, o: Oracles, who: Who, near: Near, at: Stage, c: Call)
    requires c in MeteredCalls(q, o, who, near, at)
    ensures at != Conflict && at != Auth
    ensures c == ClassCall(q, o, who, near) || c == RateCall(q, o, who) || c == ReserveCall(q, o, who)
    ensures !c.ClassOf? && !c.Rate? ==> c == ReserveCall(q, o, who) && Reserves(q, o)
  {
    hide Reserves, ClassRuns, Claim, Model, TierOf;
  }

  /** A call behind the route: the shared bucket's, or one for the verdict's identity. */
  lemma TailIs(q: Req, o: Oracles, res: Result, tail: seq<Call>, c: Call) returns (near: Near)
    requires RouteOk(q, o, res, tail) && c in tail
    ensures (c == Rate("", "", "", q.svc, "") && res.who == NOBODY)
            || c == ClassCall(q, o, res.who, near) || c == RateCall(q, o, res.who) || c == ReserveCall(q, o, res.who)
  {
    hide RouteOf, IdentOf, FirstRefusal, StageRefusal, HeldAfter, ClassAfter, Model, ClassCall, RateCall, ReserveCall,
         MeteredCalls, CredentialRefusal, FramingRefusal;
    near := BLANK.near;
    match RouteOf(q, o)
    case AsNetwork(n) =>
      var id := IdentOf(RouteOf(q, o));
      near := OnNetwork(q, o, n).near;
      MeteredCallsAre(q, o, id.who, near, FirstRefusal(q, o, id, near), c);
    case AsCredential(d, n) =>
      var id := IdentOf(RouteOf(q, o));
      near := NearBinding(q, n);
      MeteredCallsAre(q, o, id.who, near, FirstRefusal(q, o, id, near), c);
    case _ =>
  }

  /** "bearer" in any mixture of cases. */
  predicate BearerName(s: string) {
    |s| == 6 && s[0] in "bB" && s[1] in "eE" && s[2] in "aA" && s[3] in "rR" && s[4] in "eE" && s[5] in "rR"
  }

  predicate OnlySpaces(s: string) { forall i :: 0 <= i < |s| ==> s[i] == ' ' }

  lemma SchemeIs(s: string)
    ensures BearerScheme(s) <==> |s| >= 7 && BearerName(s[..6]) && s[6] == ' '
  {
    if |s| >= 7 {
      var n := s[..6];
      assert forall i :: 0 <= i < 6 ==> n[i] == s[i];
      LowerIs(s[0], 'b');
      LowerIs(s[1], 'e');
      LowerIs(s[2], 'a');
      LowerIs(s[3], 'r');
      LowerIs(s[4], 'e');
      LowerIs(s[5], 'r');
      hide Lower;
    }
  }

  lemma LowerIs(c: char, x: char)
    requires 'a' <= x <= 'z'
    ensures Lower(c) == x <==> c == x || c == x - 'a' + 'A'
  {
  }

  lemma {:induction false} SkipsSpaces(gap: string, t: string)
    requires OnlySpaces(gap) && (t != "" ==> t[0] != ' ')
    ensures SkipSpaces(gap + t) == t
    decreases |gap|
  {
    if gap == "" {
      assert gap + t == t;
    } else {
      assert (gap + t)[1..] == gap[1..] + t;
      SkipsSpaces(gap[1..], t);
    }
  }

  /** THE TOKEN. A header of the bearer scheme, in any case and with any number of
      spaces, carries what follows them. */
  lemma TokenIs(q: Req, name: string, gap: string, t: string)
    requires BearerName(name) && OnlySpaces(gap) && gap != "" && (t != "" ==> t[0] != ' ')
    requires q.authorization == name + gap + t
    ensures Token(q) == t
  {
    hide BearerScheme, SkipSpaces;
    var a := q.authorization;
    SchemeIs(a);
    assert a[..6] == name && a[6] == gap[0];
    assert a[7..] == gap[1..] + t;
    SkipsSpaces(gap[1..], t);
  }

  /** Any other header carries no token. */
  lemma NoToken(q: Req)
    requires !(|q.authorization| >= 7 && BearerName(q.authorization[..6]) && q.authorization[6] == ' ')
    ensures Token(q) == ""
  {
    hide BearerScheme, BearerName;
    SchemeIs(q.authorization);
  }

  // ---- who is charged, and what is held ----

  /** CHARGED TO THE VERDICT'S IDENTITY. Whoever passed the first two stages is the
      one the class, the rate check and the reservation were asked about. */
  lemma ChargedToWho(q: Req, o: Oracles, res: Result, calls: seq<Call>, c: Call)
    requires GateOk(q, o, res, calls) && c in calls && (c.Rate? || c.Reserve? || c.ClassOf?)
    ensures c.tenant == res.who.tenant && c.key == res.who.key && c.svc == q.svc
    ensures c.Rate? || c.Reserve? ==> c.user == res.who.user
  {
    hide RouteOk, HeadCalls, Model, TierOf, Claim;
    var tail := Parts(q, o, res, calls);
    var near := TailIs(q, o, res, tail, c);
  }

  /** HELD IS GRANTED. An admitted request holds for settlement what its reservation
      was granted, under the epoch it was granted in, and nothing without one. */
  lemma HeldIsGranted(q: Req, o: Oracles, res: Result, calls: seq<Call>, c: Call)
    requires GateOk(q, o, res, calls) && res.verdict == Allow && c in calls && c.Reserve?
    ensures Holds(res.held, c, ReserveAnswer(o, c))
  {
    hide RouteOk, HeadCalls;
    var tail := Parts(q, o, res, calls);
    TailHolds(q, o, res, tail, c);
  }

  lemma TailHolds(q: Req, o: Oracles, res: Result, tail: seq<Call>, c: Call)
    requires RouteOk(q, o, res, tail) && res.verdict == Allow && c in tail && c.Reserve?
    ensures Holds(res.held, c, ReserveAnswer(o, c))
  {
    hide RouteOf, MeteredOk, Holds, CredentialRefusal, FramingRefusal, IdentOf;
    match RouteOf(q, o)
    case AsNetwork(n) => MeteredHolds(q, o, IdentOf(RouteOf(q, o)), OnNetwork(q, o, n), res, tail, c);
    case AsCredential(d, n) =>
      MeteredHolds(q, o, IdentOf(RouteOf(q, o)), Start(q, o).(near := NearBinding(q, n)), res, tail, c);
    case _ =>
  }

  /** What a granted claim leaves to be settled; it is marked as cut where the quota
      gave less than was asked for with a default. */
  predicate Holds(held: Held, c: Call, g: Grant)
    requires c.Reserve?
  {
    && g.ok
    && (g.epoch == 0 ==> held == NOTHING_HELD)
    && (g.epoch != 0 ==>
          && held.epoch == g.epoch
          && (0 <= g.granted < 0x1_0000_0000 ==> held.tokens == g.granted)
          && (g.granted < 0 ==> held.tokens == 0)
          && (held.clamped <==> c.dflt > 0 && Most(0, g.granted) < c.prompt + c.max + c.dflt))
  }

  lemma MeteredHolds(q: Req, o: Oracles, id: Ident, before: Result, res: Result, tail: seq<Call>, c: Call)
    requires MeteredOk(q, o, id, before, res, tail) && res.verdict == Allow && c in tail && c.Reserve?
    ensures Holds(res.held, c, ReserveAnswer(o, c))
  {
    hide StageRefusal, WhoAfter, ClassAfter, Model, Conflicting, ClassRefuses, RateRefuses, Claim, ClassRuns, TierOf,
         MeteredCalls, Reserves;
    MeteredCallsAre(q, o, id.who, before.near, FirstRefusal(q, o, id, before.near), c);
  }

  /** Without a claim nothing is held. */
  lemma NothingWithoutClaim(q: Req, o: Oracles, res: Result, calls: seq<Call>)
    requires GateOk(q, o, res, calls) && res.verdict != Deny
    ensures res.held == NOTHING_HELD || exists c :: c in calls && c.Reserve?
  {
    hide HeadCalls, RouteOf, IdentOf, StageRefusal, ClassAfter, Model, Claim, ClassRuns, TierOf, CredentialRefusal,
         FramingRefusal, Conflicting, ClassRefuses, RateRefuses;
    var tail := Parts(q, o, res, calls);
    if Reserves(q, o) && (RouteOf(q, o).AsNetwork? || RouteOf(q, o).AsCredential?) {
      assert ReserveCall(q, o, IdentOf(RouteOf(q, o)).who) in tail;
    }
  }

  /** 400 for a request that cannot be read one way, 401, 403 or 503 for its
      credential or binding, 403 for its objective, 429 for a limit, and 503 for a
      limit the store cannot check. */
  predicate StatusFits(r: Refusal) {
    match r.stage
    case Framing => r.status == 400
    case Conflict => r == Refusal(Conflict, 400, 0, false, "model_conflict")
    case Auth => r.status in {401, 403, 503}
    case Objective => r == Refusal(Objective, 403, 0, false, "objective_not_allowed")
    case RateLimit => r.status in {429, 503}
    case Reservation => r.status == 429
    case NoStage => false
  }

  /** THE STATUS says which stage refused. */
  lemma StatusOfStage(q: Req, o: Oracles, res: Result, calls: seq<Call>)
    requires GateOk(q, o, res, calls) && res.verdict == Deny
    ensures StatusFits(res.refusal)
  {
    hide HeadCalls, RouteOf, IdentOf, MeteredOk, StatusFits;
    var tail := Parts(q, o, res, calls);
    hide GateOk;
    match RouteOf(q, o)
    case AsNetwork(n) => MeteredStatus(q, o, IdentOf(RouteOf(q, o)), OnNetwork(q, o, n), res, tail);
    case AsCredential(d, n) =>
      MeteredStatus(q, o, IdentOf(RouteOf(q, o)), Start(q, o).(near := NearBinding(q, n)), res, tail);
    case _ => OtherStatus(q, o, res, tail);
  }

  lemma MeteredStatus(q: Req, o: Oracles, id: Ident, before: Result, res: Result, tail: seq<Call>)
    requires MeteredOk(q, o, id, before, res, tail) && res.verdict == Deny
    ensures StatusFits(res.refusal)
  {
    hide HeldAfter, ClassAfter, Model, Conflicting, ClassRefuses, RateRefuses, ReserveRefuses, MeteredCalls, WhoAfter;
  }

  lemma OtherStatus(q: Req, o: Oracles, res: Result, tail: seq<Call>)
    requires RouteOk(q, o, res, tail) && res.verdict == Deny && !RouteOf(q, o).AsNetwork? && !RouteOf(q, o).AsCredential?
    ensures StatusFits(res.refusal)
  {
    hide RouteOf, Model;
  }

  /** WHO DECIDED. An admitted request says so: a token, a key, or its network. */
  lemma SourceNamesArm(q: Req, o: Oracles, res: Result, calls: seq<Call>)
    requires GateOk(q, o, res, calls) && res.verdict == Allow
    ensures res.near.src == ByBearer <==> exists c :: c in calls && c.Bearer?
    ensures res.near.src == ByCredential <==> exists c :: c in calls && c.Key?
    ensures |Model(q, o)| < 128 ==> res.model == Model(q, o)
  {
    hide RouteOk, HeadCalls, Model, RouteOf;
    var tail := Parts(q, o, res, calls);
    HeadIs(q, o);
    AllowedSource(q, o, res, tail);
    if RouteOf(q, o).AsCredential? {
      assert ValidateCall(q, o) in calls;
    } else {
      assert forall c :: c in calls && (c.Key? || c.Bearer?) ==> c == ValidateCall(q, o);
    }
  }

  lemma AllowedSource(q: Req, o: Oracles, res: Result, tail: seq<Call>)
    requires RouteOk(q, o, res, tail) && res.verdict == Allow
    ensures RouteOf(q, o).AsNetwork? || RouteOf(q, o).AsCredential?
    ensures RouteOf(q, o).AsNetwork? ==> res.near.src == ByNetwork
    ensures RouteOf(q, o).AsCredential? ==> res.near.src == if JwtArm(q) then ByBearer else ByCredential
    ensures res.model == Cut(Model(q, o))
  {
    hide RouteOf, IdentOf, StageRefusal, HeldAfter, WhoAfter, ClassAfter, MeteredCalls, Model, CredentialRefusal,
         FramingRefusal, JwtArm, Conflicting, ClassRefuses, RateRefuses, ReserveRefuses;
  }

  /** The class of a request is what the resolver answered about this call, standard
      where it could not answer; the objective is refused exactly where it denies
      and the service is strict about it. */
  ghost predicate ClassSays(q: Req, o: Oracles, res: Result, c: Call)
    requires c.ClassOf?
  {
    var (ok, k) := o.classResolve(c.tenant, c.key, c.binding, c.profile, c.svc, c.hint, c.tier);
    var strict := if o.strictOf.Some? then o.strictOf.value(Model(q, o)) else q.objectiveStrict;
    && q.classOn && res.who.tenant != "" && res.class_.ran
    && res.class_.priority == (if ok then k.priority else 0)
    && res.class_.priorityClass == (if ok && k.priorityClass <= 2 then k.priorityClass else 0)
    && (res.class_.denied <==> ok && k.denied)
    && (res.refusal.stage == Objective <==> ok && k.denied && strict)
    && c.tier == (if q.body != "" && !q.prefixOnly then o.tierField(q.body).kind else 0)
    && (res.class_.hintUnread <==> (q.body == "" || q.prefixOnly) && q.objectiveHint == "")
    && (res.refusal.stage != Objective && c.tier != 0 ==> res.class_.tier == o.tierField(q.body))
    && c.hint == q.objectiveHint && c.profile == (if res.near.src == ByBearer then q.jwtProfile else "")
  }

  /** THE CLASS IS THE RESOLVER'S. */
  lemma ClassIsReported(q: Req, o: Oracles, res: Result, calls: seq<Call>, c: Call)
    requires GateOk(q, o, res, calls) && c in calls && c.ClassOf?
    ensures ClassSays(q, o, res, c)
  {
    hide RouteOk, HeadCalls, ClassSays;
    var tail := Parts(q, o, res, calls);
    TailClass(q, o, res, tail, c);
  }

  lemma TailClass(q: Req, o: Oracles, res: Result, tail: seq<Call>, c: Call)
    requires RouteOk(q, o, res, tail) && c in tail && c.ClassOf?
    ensures ClassSays(q, o, res, c)
  {
    hide RouteOf, IdentOf, MeteredOk, ClassSays, CredentialRefusal, FramingRefusal;
    match RouteOf(q, o)
    case AsNetwork(n) => MeteredClass(q, o, IdentOf(RouteOf(q, o)), OnNetwork(q, o, n), res, tail, c);
    case AsCredential(d, n) =>
      MeteredClass(q, o, IdentOf(RouteOf(q, o)), Start(q, o).(near := NearBinding(q, n)), res, tail, c);
    case _ =>
  }

  lemma MeteredClass(q: Req, o: Oracles, id: Ident, before: Result, res: Result, tail: seq<Call>, c: Call)
    requires MeteredOk(q, o, id, before, res, tail) && c in tail && c.ClassOf?
    ensures ClassSays(q, o, res, c)
  {
    hide HeldAfter, Model, Conflicting, RateRefuses, ReserveRefuses, Claim, Reserves, MeteredCalls;
    var at := FirstRefusal(q, o, id, before.near);
    MeteredCallsAre(q, o, id.who, before.near, at, c);
    assert ClassRuns(q, id.who) by { ClassRan(q, o, id.who, before.near, at, c); }
  }

  lemma ClassRan(q: Req, o: Oracles, who: Who, near: Near, at: Stage, c: Call)
    requires c in MeteredCalls(q, o, who, near, at) && c.ClassOf?
    ensures ClassRuns(q, who)
  {
    hide Reserves, Claim, Model, TierOf;
  }

  // ---- what a refusal says ----

  /** Of a limit: 503 where the store cannot answer (decision 4), 429 otherwise, with
      the checker's own delay and code. */
  predicate SaysLimit(r: Refusal, d: Decision) {
    && r.status == (if d.decision == 4 then 503 else 429) && r.retryAfter == d.retryAfter && r.retryBody
    && r.code == if d.errorCode != "" then d.errorCode else "rate_limit_exceeded"
  }

  /** THE LIMIT'S ANSWER is the answer to the one rate call. */
  lemma LimitSays(q: Req, o: Oracles, res: Result, calls: seq<Call>)
    requires GateOk(q, o, res, calls) && res.refusal.stage == RateLimit
    ensures exists c :: c in calls && c.Rate?
              && !o.rate(c.key, c.tenant, c.user, c.svc, c.model).0
              && SaysLimit(res.refusal, o.rate(c.key, c.tenant, c.user, c.svc, c.model).1)
  {
    hide RouteOk, HeadCalls, SaysLimit;
    var tail := Parts(q, o, res, calls);
    var c := TailLimit(q, o, res, tail);
  }

  lemma TailLimit(q: Req, o: Oracles, res: Result, tail: seq<Call>) returns (c: Call)
    requires RouteOk(q, o, res, tail) && res.refusal.stage == RateLimit
    ensures c in tail && c.Rate? && !RateAnswer(o, c).0 && SaysLimit(res.refusal, RateAnswer(o, c).1)
  {
    hide RouteOf, IdentOf, HeldAfter, WhoAfter, ClassAfter, Model, Claim, TierOf, Conflicting, ClassRefuses,
         ReserveRefuses, Reserves, ClassRuns, ClassCall;
    c := Rate("", "", "", q.svc, "");
    if RouteOf(q, o).AsNetwork? || RouteOf(q, o).AsCredential? { c := RateCall(q, o, IdentOf(RouteOf(q, o)).who); }
  }

  /** THE QUOTA'S ANSWER: 429 with its delay and code; what was asked for is noted,
      without the default, and nothing is held. */
  lemma QuotaSays(q: Req, o: Oracles, res: Result, calls: seq<Call>, c: Call)
    requires GateOk(q, o, res, calls) && c in calls && c.Reserve? && !ReserveAnswer(o, c).ok
    ensures var d := ReserveAnswer(o, c).why;
            && res.verdict == Deny && res.refusal == Refusal(Reservation, 429, d.retryAfter, true, d.errorCode)
            && res.held.epoch == 0 && !res.held.clamped
            && (0 <= c.prompt + c.max < 0x1_0000_0000 ==> res.held.tokens == c.prompt + c.max)
  {
    hide RouteOk, HeadCalls;
    var tail := Parts(q, o, res, calls);
    hide GateOk;
    TailQuota(q, o, res, tail, c);
  }

  lemma TailQuota(q: Req, o: Oracles, res: Result, tail: seq<Call>, c: Call)
    requires RouteOk(q, o, res, tail) && c in tail && c.Reserve? && !ReserveAnswer(o, c).ok
    ensures var d := ReserveAnswer(o, c).why;
            && res.verdict == Deny && res.refusal == Refusal(Reservation, 429, d.retryAfter, true, d.errorCode)
            && res.held.epoch == 0 && !res.held.clamped
            && (0 <= c.prompt + c.max < 0x1_0000_0000 ==> res.held.tokens == c.prompt + c.max)
  {
    hide RouteOf, IdentOf, MeteredOk, CredentialRefusal, FramingRefusal;
    match RouteOf(q, o)
    case AsNetwork(n) => MeteredQuota(q, o, IdentOf(RouteOf(q, o)), OnNetwork(q, o, n), res, tail, c);
    case AsCredential(d, n) =>
      MeteredQuota(q, o, IdentOf(RouteOf(q, o)), Start(q, o).(near := NearBinding(q, n)), res, tail, c);
    case _ =>
  }

  lemma MeteredQuota(q: Req, o: Oracles, id: Ident, before: Result, res: Result, tail: seq<Call>, c: Call)
    requires MeteredOk(q, o, id, before, res, tail) && c in tail && c.Reserve? && !ReserveAnswer(o, c).ok
    ensures var d := ReserveAnswer(o, c).why;
            && res.verdict == Deny && res.refusal == Refusal(Reservation, 429, d.retryAfter, true, d.errorCode)
            && res.held.epoch == 0 && !res.held.clamped
            && (0 <= c.prompt + c.max < 0x1_0000_0000 ==> res.held.tokens == c.prompt + c.max)
  {
    hide WhoAfter, ClassAfter, Model, Claim, TierOf, ClassRuns;
    MeteredCallsAre(q, o, id.who, before.near, FirstRefusal(q, o, id, before.near), c);
    assert c == ReserveCall(q, o, id.who);
    hide Conflicting, ClassRefuses, RateRefuses;
  }

  /** THE VALIDATOR'S ANSWER: 503 for a store that cannot answer (decision 4), 403 for
      a model the credential may not use (decision 2), which names its owner, and
      401 for anything else; the code is the validator's, or the arm's own. */
  lemma ValidatorSays(q: Req, o: Oracles, res: Result, calls: seq<Call>, c: Call)
    requires GateOk(q, o, res, calls) && c in calls && (c.Key? || c.Bearer?) && !Accepted(o, c)
    ensures var d := if c.Key? then o.validateKey(c.key, c.model).1
                     else o.validateBearer(c.token, c.model, c.profile, c.oversize).1;
            && res.verdict == Deny && res.refusal.stage == Auth && !res.refusal.retryBody
            && res.refusal.status == (if d.decision == 4 then 503 else if d.decision == 2 then 403 else 401)
            && res.refusal.retryAfter == (if d.decision == 4 then 5 else 0)
            && res.refusal.code == (if d.decision == 2 then "model_not_allowed"
                                    else if d.errorCode != "" then d.errorCode
                                    else if d.decision == 4 then "policy_store_unavailable"
                                    else if c.Key? then "invalid_api_key" else "invalid_token")
            && res.who == if d.decision == 2 then Who(d.tenant, d.key, d.user, 0) else NOBODY
  {
    hide RouteOk, HeadCalls, Model, Token;
    var tail := Parts(q, o, res, calls);
    hide GateOk;
    HeadIs(q, o);
    assert c == ValidateCall(q, o);
    ValidateAccepts(q, o);
    RefusedRoute(q, o);
    RefusedSays(q, o, res, tail);
  }

  lemma RefusedRoute(q: Req, o: Oracles)
    requires ValidateCall(q, o) in HeadCalls(q, o) && !Validate(q, o).0
    ensures RouteOf(q, o) == Refused(Validate(q, o).1)
  {
    hide Ambiguous, Presented, BindingOf, Validate, ValidateCall, HeadCalls, UsesNetid;
    HeadIs(q, o);
  }

  lemma RefusedSays(q: Req, o: Oracles, res: Result, tail: seq<Call>)
    requires RouteOk(q, o, res, tail) && RouteOf(q, o).Refused?
    ensures var d := RouteOf(q, o).why;
            && res.verdict == Deny && res.refusal == CredentialRefusal(q, d)
            && res.who == if d.decision == 2 then Who(d.tenant, d.key, d.user, 0) else NOBODY
  {
    hide RouteOf, CredentialRefusal, Model;
  }

  /** What the validator of a credential call answered. */
  function Verdict(o: Oracles, c: Call): Decision
    requires c.Key? || c.Bearer?
  {
    if c.Key? then o.validateKey(c.key, c.model).1 else o.validateBearer(c.token, c.model, c.profile, c.oversize).1
  }

  /** ADMITTED AS. A credential admits its own tenant, key, user and flags; without
      one, the binding of the source admits its tenant and nobody in particular. */
  lemma AdmittedAs(q: Req, o: Oracles, res: Result, calls: seq<Call>)
    requires GateOk(q, o, res, calls) && res.verdict == Allow
    ensures forall c :: c in calls && (c.Key? || c.Bearer?) ==>
              var d := Verdict(o, c); res.who == Who(d.tenant, d.key, d.user, d.authFlags)
    ensures (forall c :: c in calls ==> !c.Key? && !c.Bearer?) ==>
              var n := o.resolve(q.clientIp, q.ifindex, q.svc, Model(q, o)).1;
              res.who == Who(n.tenant, "", "", 0) && n.tenant != "" && n.modelOk
              && res.near == Near(ByNetwork, n.forwardIdentity, n.name)
  {
    hide RouteOk, HeadCalls, Model, Token;
    var tail := Parts(q, o, res, calls);
    hide GateOk;
    HeadIs(q, o);
    AllowedAs(q, o, res, tail);
    RouteAnswers(q, o);
  }

  lemma AllowedAs(q: Req, o: Oracles, res: Result, tail: seq<Call>)
    requires RouteOk(q, o, res, tail) && res.verdict == Allow
    ensures match RouteOf(q, o)
            case AsCredential(d, _) => res.who == Who(d.tenant, d.key, d.user, d.authFlags)
            case AsNetwork(n) =>
              res.who == Who(n.tenant, "", "", 0) && n.modelOk && res.near == Near(ByNetwork, n.forwardIdentity, n.name)
            case _ => false
  {
    hide RouteOf, StageRefusal, HeldAfter, ClassAfter, MeteredCalls, Model, CredentialRefusal, FramingRefusal,
         Conflicting, ClassRefuses, RateRefuses, ReserveRefuses;
  }

  lemma RouteAnswers(q: Req, o: Oracles)
    ensures match RouteOf(q, o)
            case AsCredential(d, _) => d == Verdict(o, ValidateCall(q, o))
            case AsNetwork(n) => n == o.resolve(q.clientIp, q.ifindex, q.svc, Model(q, o)).1 && n.tenant != ""
            case Mismatch(d, n) => d == Verdict(o, ValidateCall(q, o))
            case NetModel(d, n) => d == Verdict(o, ValidateCall(q, o))
            case _ => true
  {
    hide Ambiguous, Presented, Model, Token, UsesNetid, Enforcing;
  }

  /** HELD TO ITS NETWORK. A credential its binding turns away is named in full. */
  lemma TurnedAway(q: Req, o: Oracles, res: Result, calls: seq<Call>, c: Call)
    requires GateOk(q, o, res, calls) && c in calls && (c.Key? || c.Bearer?)
    requires RouteOf(q, o).Mismatch? || RouteOf(q, o).NetModel?
    ensures var d := Verdict(o, c);
            && res.verdict == Deny && res.refusal.stage == Auth && res.refusal.status == 403
            && res.who == Who(d.tenant, d.key, d.user, 0)
            && (res.refusal.code == "network_tenant_mismatch" <==> RouteOf(q, o).Mismatch?)
  {
    hide HeadCalls, Model, Token, RouteOf;
    var tail := Parts(q, o, res, calls);
    hide GateOk;
    HeadIs(q, o);
    RouteAnswers(q, o);
  }

  // ---- what an admission means ----

  /** The model without the header's say: what the body, or its prefix, names. */
  lemma BodyBoundIs(q: Req, o: Oracles)
    ensures Model(q.(hdrModel := ""), o) == BodyBound(q, o)
  {
    assert BodyModel(q.(hdrModel := ""), o) == BodyModel(q, o);
  }

  /** PAST EVERY STAGE. An admitted request was checked against its rate and found
      within it; a claim it made was granted; no validator and no strict objective
      refused it; and a model in its header is the one its body names, if it names
      one. */
  lemma PassedEveryStage(q: Req, o: Oracles, res: Result, calls: seq<Call>)
    requires GateOk(q, o, res, calls) && res.verdict == Allow
    ensures exists c :: c in calls && c.Rate?
    ensures forall c :: c in calls ==>
              && (c.Rate? ==> RateAnswer(o, c).0)
              && (c.Reserve? ==> ReserveAnswer(o, c).ok)
              && (c.Key? || c.Bearer? ==> Accepted(o, c))
              && (c.ClassOf? ==> !ClassAnswer(o, c).denied || !Strict(q, o))
    ensures var body := Model(q.(hdrModel := ""), o); body == "" || q.hdrModel == "" || body == q.hdrModel
  {
    hide RouteOk, HeadCalls, Model, RateAnswer, ClassAnswer, Strict;
    var tail := Parts(q, o, res, calls);
    hide GateOk;
    HeadIs(q, o);
    BodyBoundIs(q, o);
    LetIn(q, o, res, tail) by { NotKeyless(q, o, res, tail); }
    ValidateAccepts(q, o);
    AcceptedRoute(q, o);
    TailPasses(q, o, res, tail);
  }

  lemma NotKeyless(q: Req, o: Oracles, res: Result, tail: seq<Call>)
    requires RouteOk(q, o, res, tail) && res.verdict == Allow
    ensures !RouteOf(q, o).Keyless?
  {
    hide RouteOf, MeteredOk;
  }

  lemma AcceptedRoute(q: Req, o: Oracles)
    ensures RouteOf(q, o).AsCredential? ==> Validate(q, o).0
    ensures RouteOf(q, o).AsNetwork? ==> ValidateCall(q, o) !in HeadCalls(q, o)
  {
    hide Ambiguous, Presented, BindingOf, Validate, ValidateCall, HeadCalls, UsesNetid, Enforcing;
    HeadIs(q, o);
  }

  lemma TailPasses(q: Req, o: Oracles, res: Result, tail: seq<Call>)
    requires RouteOk(q, o, res, tail) && res.verdict == Allow
    ensures exists c :: c in tail && c.Rate?
    ensures forall c :: c in tail ==>
              && (c.Rate? ==> RateAnswer(o, c).0)
              && (c.Reserve? ==> ReserveAnswer(o, c).ok)
              && (c.ClassOf? ==> !ClassAnswer(o, c).denied || !Strict(q, o))
    ensures BodyBound(q, o) == "" || q.hdrModel == "" || BodyBound(q, o) == q.hdrModel
  {
    hide RouteOf, IdentOf, MeteredOk, Model, BodyBound, RateAnswer, ReserveAnswer, ClassAnswer, Strict;
    match RouteOf(q, o)
    case AsNetwork(n) => MeteredPasses(q, o, IdentOf(RouteOf(q, o)), OnNetwork(q, o, n), res, tail);
    case AsCredential(d, n) =>
      MeteredPasses(q, o, IdentOf(RouteOf(q, o)), Start(q, o).(near := NearBinding(q, n)), res, tail);
    case _ =>
  }

  lemma MeteredPasses(q: Req, o: Oracles, id: Ident, before: Result, res: Result, tail: seq<Call>)
    requires MeteredOk(q, o, id, before, res, tail) && res.verdict == Allow
    ensures exists c :: c in tail && c.Rate?
    ensures forall c :: c in tail ==>
              && (c.Rate? ==> RateAnswer(o, c).0)
              && (c.Reserve? ==> ReserveAnswer(o, c).ok)
              && (c.ClassOf? ==> !ClassAnswer(o, c).denied || !Strict(q, o))
    ensures BodyBound(q, o) == "" || q.hdrModel == "" || BodyBound(q, o) == q.hdrModel
  {
    hide StageRefusal, HeldAfter, WhoAfter, ClassAfter, Model, BodyBound, Claim, TierOf, Strict;
    var at := FirstRefusal(q, o, id, before.near);
    assert RateCall(q, o, id.who) in tail;
    forall c | c in tail
      ensures (c.Rate? ==> RateAnswer(o, c).0) && (c.Reserve? ==> ReserveAnswer(o, c).ok)
      ensures c.ClassOf? ==> !ClassAnswer(o, c).denied || !Strict(q, o)
    {
      MeteredCallsAre(q, o, id.who, before.near, at, c);
      if c.ClassOf? { ClassRan(q, o, id.who, before.near, at, c); }
    }
  }

  /** A CLAIM IS MADE by an admitted request exactly when there is a body, or the
      promise of one, that comes to any tokens; and it is for that many. */
  lemma ClaimIsMade(q: Req, o: Oracles, res: Result, calls: seq<Call>)
    requires GateOk(q, o, res, calls) && res.verdict == Allow
    ensures (exists c :: c in calls && c.Reserve?) <==>
            && (q.body != "" || (q.prefixOnly && q.declaredLen > 0))
            && (Claim(q, o).0 > 0 || Claim(q, o).1 > 0 || Claim(q, o).2 > 0)
    ensures forall c :: c in calls && c.Reserve? ==> (c.prompt, c.max, c.dflt) == Claim(q, o)
  {
    hide RouteOk, HeadCalls, Claim;
    var tail := Parts(q, o, res, calls);
    hide GateOk;
    TailClaims(q, o, res, tail);
  }

  lemma TailClaims(q: Req, o: Oracles, res: Result, tail: seq<Call>)
    requires RouteOk(q, o, res, tail) && res.verdict == Allow
    ensures (exists c :: c in tail && c.Reserve?) <==> Reserves(q, o)
    ensures forall c :: c in tail && c.Reserve? ==> (c.prompt, c.max, c.dflt) == Claim(q, o)
  {
    hide RouteOf, IdentOf, MeteredOk, Claim, Reserves;
    match RouteOf(q, o)
    case AsNetwork(n) => MeteredClaims(q, o, IdentOf(RouteOf(q, o)), OnNetwork(q, o, n), res, tail);
    case AsCredential(d, n) =>
      MeteredClaims(q, o, IdentOf(RouteOf(q, o)), Start(q, o).(near := NearBinding(q, n)), res, tail);
    case _ =>
  }

  lemma MeteredClaims(q: Req, o: Oracles, id: Ident, before: Result, res: Result, tail: seq<Call>)
    requires MeteredOk(q, o, id, before, res, tail) && res.verdict == Allow
    ensures (exists c :: c in tail && c.Reserve?) <==> Reserves(q, o)
    ensures forall c :: c in tail && c.Reserve? ==> (c.prompt, c.max, c.dflt) == Claim(q, o)
  {
    hide StageRefusal, HeldAfter, WhoAfter, ClassAfter, Model, Claim, TierOf, Reserves, Conflicting, ClassRefuses,
         RateRefuses, ReserveRefuses, ClassRuns;
    if Reserves(q, o) { assert ReserveCall(q, o, id.who) in tail; }
    forall c | c in tail && c.Reserve? ensures Reserves(q, o) && (c.prompt, c.max, c.dflt) == Claim(q, o) {
      MeteredCallsAre(q, o, id.who, before.near, FirstRefusal(q, o, id, before.near), c);
    }
  }

  /** FAILS CLOSED. Where bindings fail closed, a resolver that cannot answer, or one
      that matches and names no tenant, refuses whatever no validator refuses; and
      it is never taken for a binding. */
  lemma FailsClosed(q: Req, o: Oracles, res: Result, calls: seq<Call>)
    requires GateOk(q, o, res, calls) && res.refusal.stage != Framing && q.netidBound && q.svc != ""
    requires var (ok, n) := o.resolve(q.clientIp, q.ifindex, q.svc, Model(q, o)); !ok || (n.matched && n.tenant == "")
    ensures q.failClosed ==>
              && res.verdict == Deny
              && (res.refusal == Refusal(Auth, 503, 5, false, "netid_unavailable")
                  || exists c :: c in calls && (c.Key? || c.Bearer?) && !Accepted(o, c))
    ensures !q.failClosed ==> res.near.binding == "" && res.near.src != ByNetwork
  {
    hide RouteOk, HeadCalls, Model, Token, Validate, Ambiguous;
    var tail := Parts(q, o, res, calls);
    NotFraming(q, o, res, tail);
    MalformedIs(q, o);
    AdmissionTheorems.NoAnswer(q, o, res, calls);
    hide GateOk;
    if Enforcing(q) && Presented(q) && !Validate(q, o).0 {
      PresentedIsValidated(q, o);
      ValidateAccepts(q, o);
      assert ValidateCall(q, o) in calls;
      HeadIs(q, o);
    }
  }
}
