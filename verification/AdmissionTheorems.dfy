/** What holds of every request and every behaviour of the control plane. */
module AdmissionTheorems {
  import opened AdmissionTable
  import opened AdmissionGate

  /** The order the gate calls the control plane in. */
  function Rank(c: Call): nat {
    match c
    case Resolve(_, _, _, _) => 0
    case Key(_, _) => 1
    case Bearer(_, _, _, _) => 1
    case ClassOf(_, _, _, _, _, _, _) => 2
    case Rate(_, _, _, _, _) => 3
    case Reserve(_, _, _, _, _, _, _, _) => 4
    case Record(_, _, _, _, _) => 5
  }

  /** Ranks rise from `lo` and stay below `hi`. */
  predicate Rising(calls: seq<Call>, lo: nat, hi: nat) {
    && (forall i :: 0 <= i < |calls| ==> lo <= Rank(calls[i]) < hi)
    && (forall i, j :: 0 <= i < j < |calls| ==> Rank(calls[i]) < Rank(calls[j]))
  }

  /** Finding the route: the resolver and the validator, each at most once. */
  predicate Heading(calls: seq<Call>) {
    && (forall i :: 0 <= i < |calls| ==> Rank(calls[i]) < 2)
    && (forall i, j :: 0 <= i < j < |calls| ==> Rank(calls[i]) != Rank(calls[j]))
  }

  lemma HeadIsHeading(q: Req, o: Oracles)
    ensures Heading(HeadCalls(q, o))
  {
    hide RouteOf, AsksFirst, UsesNetid, Model, JwtArm, Token;
  }

  lemma MeteredIsRising(q: Req, o: Oracles, who: Who, near: Near, at: Stage)
    ensures Rising(MeteredCalls(q, o, who, near, at), 2, 5)
  {
    hide Reserves, ClassRuns, Claim, Model, TierOf;
  }

  lemma TailIsRising(q: Req, o: Oracles, res: Result, tail: seq<Call>)
    requires RouteOk(q, o, res, tail)
    ensures Rising(tail, 2, 5)
  {
    hide RouteOf, IdentOf, FirstRefusal, StageRefusal, HeldAfter, WhoAfter, Rising, Denied;
    match RouteOf(q, o)
    case AsNetwork(n) =>
      var id, before := IdentOf(RouteOf(q, o)), OnNetwork(q, o, n);
      MeteredIsRising(q, o, id.who, before.near, FirstRefusal(q, o, id, before.near));
    case AsCredential(d, n) =>
      var id, near := IdentOf(RouteOf(q, o)), NearBinding(q, n);
      MeteredIsRising(q, o, id.who, near, FirstRefusal(q, o, id, near));
    case _ => ShortIsRising(q.svc);
  }

  lemma ShortIsRising(svc: string)
    ensures Rising([], 2, 5) && Rising([Rate("", "", "", svc, "")], 2, 5)
  {
  }

  /** EACH ORACLE AT MOST ONCE, IN ORDER. The resolver and the validator come
      first; the class, the rate check and the reservation follow in that order;
      the record of a refusal is last. */
  lemma CallsInOrder(q: Req, o: Oracles, res: Result, calls: seq<Call>)
    requires GateOk(q, o, res, calls)
    ensures forall i, j :: 0 <= i < j < |calls| ==>
              Rank(calls[i]) != Rank(calls[j]) && (Rank(calls[i]) >= 2 ==> Rank(calls[i]) < Rank(calls[j]))
    ensures forall i, j :: 0 <= i < j < |calls| && Rank(calls[j]) < 2 ==> Rank(calls[i]) < 2
  {
    hide RouteOk, HeadCalls;
    var tail :| RouteOk(q, o, res, tail) && calls == HeadCalls(q, o) + tail + RecordCalls(res);
    HeadIsHeading(q, o);
    TailIsRising(q, o, res, tail);
    Join(HeadCalls(q, o), tail, RecordCalls(res));
  }

  lemma Join(head: seq<Call>, tail: seq<Call>, end: seq<Call>)
    requires Heading(head) && Rising(tail, 2, 5) && |end| <= 1 && (end != [] ==> Rank(end[0]) == 5)
    ensures var calls := head + tail + end;
            && (forall i, j :: 0 <= i < j < |calls| ==>
                  Rank(calls[i]) != Rank(calls[j]) && (Rank(calls[i]) >= 2 ==> Rank(calls[i]) < Rank(calls[j])))
            && (forall i, j :: 0 <= i < j < |calls| && Rank(calls[j]) < 2 ==> Rank(calls[i]) < 2)
  {
    hide Rank;
  }

  /** RECORDED ONCE, NOTHING HELD. A refusal leaves no reservation to settle and
      exactly one record, which names its stage, status and identity; a request
      that is not refused leaves none. */
  lemma RefusalIsRecorded(q: Req, o: Oracles, res: Result, calls: seq<Call>)
    requires GateOk(q, o, res, calls)
    ensures res.verdict == Deny ==>
              && res.held.epoch == 0 && calls != []
              && calls[|calls| - 1] == Record(res.refusal, res.model, res.who, res.near, res.class_)
              && (forall i :: 0 <= i < |calls| - 1 ==> !calls[i].Record?)
    ensures res.verdict != Deny ==> forall i :: 0 <= i < |calls| ==> !calls[i].Record?
  {
    hide RouteOk, HeadCalls;
    var tail :| RouteOk(q, o, res, tail) && calls == HeadCalls(q, o) + tail + RecordCalls(res);
    HeadIsHeading(q, o);
    TailIsRising(q, o, res, tail);
    if res.verdict == Deny { DenyHoldsNothing(q, o, res, tail); }
    var early := HeadCalls(q, o) + tail;
    assert forall i :: 0 <= i < |early| ==> Rank(early[i]) < 5;
  }

  lemma DenyHoldsNothing(q: Req, o: Oracles, res: Result, tail: seq<Call>)
    requires RouteOk(q, o, res, tail) && res.verdict == Deny
    ensures res.held.epoch == 0
  {
    hide RouteOf, IdentOf, StageRefusal, WhoAfter, MeteredCalls, Conflicting, ClassRefuses, RateRefuses, Reserves, Claim;
  }

  /** A rate or reservation call was made for an identity. */
  predicate Charged(calls: seq<Call>) {
    exists i :: 0 <= i < |calls| && (calls[i].Rate? || calls[i].Reserve?)
  }

  /** NOTHING CHARGED EARLY. For a request with an identity, a rate or
      reservation call means that the identity was validated (or matched by a
      binding that may stand in for a credential), the models agree, the
      binding's model list and the class stage passed; and a reservation means
      that the rate check passed as well. */
  lemma ChargedAfterStages(q: Req, o: Oracles, res: Result, calls: seq<Call>)
    requires GateOk(q, o, res, calls) && Charged(calls) && !RouteOf(q, o).Keyless?
    ensures var r := RouteOf(q, o);
            && (r.AsNetwork? || (r.AsCredential? && Validate(q, o) == (true, r.who)))
            && !Conflicting(q, o) && !IdentOf(r).modelRefused
            && !ClassRefuses(q, o, IdentOf(r).who, res.near)
            && ((exists i :: 0 <= i < |calls| && calls[i].Reserve?) ==> !RateRefuses(q, o, IdentOf(r).who))
  {
    hide RouteOk, HeadCalls, RouteOf, Conflicting, ClassRefuses, RateRefuses, Validate, IdentOf;
    var tail :| RouteOk(q, o, res, tail) && calls == HeadCalls(q, o) + tail + RecordCalls(res);
    HeadIsHeading(q, o);
    var i :| 0 <= i < |calls| && (calls[i].Rate? || calls[i].Reserve?);
    Middle(HeadCalls(q, o), tail, RecordCalls(res), calls[i]);
    TailCharged(q, o, res, tail);
    CredentialWasValid(q, o);
    if k :| 0 <= k < |calls| && calls[k].Reserve? { Middle(HeadCalls(q, o), tail, RecordCalls(res), calls[k]); }
  }

  /** A charge is among the calls between the heading and the record. */
  lemma Middle(head: seq<Call>, tail: seq<Call>, last: seq<Call>, c: Call)
    requires c in head + tail + last && Heading(head) && (forall x :: x in last ==> x.Record?) && (c.Rate? || c.Reserve?)
    ensures c in tail
  {
    assert Rank(c) >= 3;
    assert c !in head;
    assert c !in last;
  }

  lemma TailCharged(q: Req, o: Oracles, res: Result, tail: seq<Call>)
    requires RouteOk(q, o, res, tail) && !RouteOf(q, o).Keyless?
    requires exists c :: c in tail && (c.Rate? || c.Reserve?)
    ensures var r := RouteOf(q, o);
            && (r.AsNetwork? || r.AsCredential?)
            && !Conflicting(q, o) && !IdentOf(r).modelRefused && !ClassRefuses(q, o, IdentOf(r).who, res.near)
            && ((exists c :: c in tail && c.Reserve?) ==> !RateRefuses(q, o, IdentOf(r).who))
  {
    hide RouteOf, IdentOf, StageRefusal, HeldAfter, WhoAfter, Denied, Conflicting, ClassRefuses, RateRefuses,
         ReserveRefuses, Reserves, ClassRuns, Claim, Model;
  }

  lemma CredentialWasValid(q: Req, o: Oracles)
    ensures RouteOf(q, o).AsCredential? ==> Enforcing(q) && Validate(q, o) == (true, RouteOf(q, o).who)
  {
    hide Validate, BindingOf, Ambiguous, Presented;
  }

  /** THE CREDENTIAL DECIDES. On an enforcing service a request that presents a
      credential is admitted only as the identity its validator named, never by
      the network; and if the validator refuses it, nothing admits it. */
  lemma CredentialAloneDecides(q: Req, o: Oracles, res: Result, calls: seq<Call>)
    requires GateOk(q, o, res, calls) && Enforcing(q) && Presented(q)
    ensures res.verdict != Deny ==>
              && res.verdict == Allow && Validate(q, o).0 && res.who == WhoIs(Validate(q, o).1)
              && res.near.src != ByNetwork
    ensures !Validate(q, o).0 ==> res.verdict == Deny
  {
    hide Validate, BindingOf, Ambiguous, HeadCalls, StageRefusal, HeldAfter, MeteredCalls, Conflicting, ClassRefuses,
         RateRefuses, ReserveRefuses;
    var tail :| RouteOk(q, o, res, tail) && calls == HeadCalls(q, o) + tail + RecordCalls(res);
  }

  /** The binding can turn an admission into a refusal, never change who is
      admitted: two control planes that differ only in the resolver admit a
      presented credential as the same identity. */
  lemma ResolverCannotChangeTenant(q: Req, o: Oracles, p: Oracles, a: Result, b: Result, ac: seq<Call>, bc: seq<Call>)
    requires Enforcing(q) && Presented(q) && p == o.(resolve := p.resolve)
    requires GateOk(q, o, a, ac) && GateOk(q, p, b, bc) && a.verdict == Allow && b.verdict == Allow
    ensures a.who == b.who
  {
    hide GateOk;
    CredentialAloneDecides(q, o, a, ac);
    CredentialAloneDecides(q, p, b, bc);
  }

  /** DETERMINED. The request and the control plane's answers leave nothing open:
      there is one result and one sequence of calls. */
  lemma GateIsDetermined(q: Req, o: Oracles, a: Result, b: Result, ac: seq<Call>, bc: seq<Call>)
    requires GateOk(q, o, a, ac) && GateOk(q, o, b, bc)
    ensures a == b && ac == bc
  {
    hide HeadCalls, RouteOk;
    var at :| RouteOk(q, o, a, at) && ac == HeadCalls(q, o) + at + RecordCalls(a);
    var bt :| RouteOk(q, o, b, bt) && bc == HeadCalls(q, o) + bt + RecordCalls(b);
    RouteIsDetermined(q, o, a, b, at, bt);
  }

  lemma RouteIsDetermined(q: Req, o: Oracles, a: Result, b: Result, at: seq<Call>, bt: seq<Call>)
    requires RouteOk(q, o, a, at) && RouteOk(q, o, b, bt)
    ensures a == b && at == bt
  {
    hide RouteOf, IdentOf, FirstRefusal, StageRefusal, HeldAfter, WhoAfter, ClassAfter, MeteredCalls, Model, RateRefusal,
         CredentialRefusal, FramingRefusal, Named, NearBinding, Start, OnNetwork, Denied;
  }

  /** The metered routes and the keyless one are the only ways in: past all five
      stages, or past the shared bucket. */
  lemma AdmittedExactlyWhen(q: Req, o: Oracles, res: Result, calls: seq<Call>)
    requires GateOk(q, o, res, calls)
    ensures var r := RouteOf(q, o);
            && (res.verdict == Allow <==>
                  (r.AsNetwork? || r.AsCredential?) && FirstRefusal(q, o, IdentOf(r), res.near) == NoStage)
            && (res.verdict == Unmetered <==>
                  r.Keyless? && (q.svc == "" || o.rate("", "", "", q.svc, "").0))
  {
    hide RouteOf, IdentOf, FirstRefusal, StageRefusal, HeldAfter, WhoAfter, ClassAfter, MeteredCalls, HeadCalls, Model,
         CredentialRefusal, FramingRefusal;
    var tail :| RouteOk(q, o, res, tail) && calls == HeadCalls(q, o) + tail + RecordCalls(res);
  }

  /** No stage refuses this identity, with the tenant decided as `near` says. */
  predicate Passes(q: Req, o: Oracles, who: Who, modelRefused: bool, near: Near) {
    FirstRefusal(q, o, Ident(who, modelRefused), near) == NoStage
  }

  /** THE SEVEN ROWS. Each row of the table, for a request whose body is not
      ambiguous: exactly when it is admitted, as whom, and what is refused. */
  lemma SevenRows(q: Req, o: Oracles, res: Result, calls: seq<Call>)
    requires GateOk(q, o, res, calls) && !Ambiguous(q, o)
    requires UsesNetid(q) && !BindingOf(q, o).NoAnswer?
    ensures var b := BindingOf(q, o); var v := Validate(q, o);
            // 1
            && (!Enforcing(q) && b.Unbound? ==>
                  && (res.verdict == Unmetered <==> o.rate("", "", "", q.svc, "").0)
                  && (res.verdict != Unmetered ==> res.verdict == Deny && res.refusal.stage == RateLimit))
            // 2
            && (!Enforcing(q) && b.Bound? ==>
                  && (res.verdict == Allow <==> Passes(q, o, NetworkWho(b.nid), !b.nid.modelOk, res.near))
                  && res.verdict != Unmetered && res.who.tenant == b.nid.tenant
                  && res.near == Near(ByNetwork, b.nid.forwardIdentity, b.nid.name))
            // 3
            && (Enforcing(q) && Presented(q) && b.Unbound? && v.0 ==>
                  && (res.verdict == Allow <==> Passes(q, o, WhoIs(v.1), false, res.near))
                  && res.verdict != Unmetered && res.who.tenant == v.1.tenant
                  && res.near == Near(CredentialSource(q), false, ""))
            // 4
            && (Enforcing(q) && Presented(q) && b.Bound? && !b.nid.enforce && v.0 ==>
                  && (res.verdict == Allow <==> Passes(q, o, WhoIs(v.1), false, res.near))
                  && res.verdict != Unmetered && res.who.tenant == v.1.tenant
                  && res.near == Near(CredentialSource(q), b.nid.forwardIdentity, b.nid.name))
            // 5
            && (Enforcing(q) && Presented(q) && b.Bound? && b.nid.enforce && v.0 ==>
                  && (res.verdict == Allow <==>
                        b.nid.tenant == v.1.tenant && b.nid.modelOk && Passes(q, o, WhoIs(v.1), false, res.near))
                  && res.verdict != Unmetered && res.who.tenant == v.1.tenant
                  && res.near == Near(CredentialSource(q), b.nid.forwardIdentity, b.nid.name)
                  && (b.nid.tenant != v.1.tenant ==> res.verdict == Deny && res.refusal == TENANT_MISMATCH)
                  && (b.nid.tenant == v.1.tenant && !b.nid.modelOk ==>
                        res.verdict == Deny && res.refusal == MODEL_REFUSED))
            // 6
            && (Enforcing(q) && !Presented(q) && b.Bound? && b.nid.credentialNetwork ==>
                  && (res.verdict == Allow <==> Passes(q, o, NetworkWho(b.nid), !b.nid.modelOk, res.near))
                  && res.verdict != Unmetered && res.who.tenant == b.nid.tenant
                  && res.near == Near(ByNetwork, b.nid.forwardIdentity, b.nid.name))
            // 7
            && (Enforcing(q) && !Presented(q) && !(b.Bound? && b.nid.credentialNetwork) && !v.0 ==>
                  res.verdict == Deny && res.refusal == CredentialRefusal(q, v.1))
  {
    hide Validate, BindingOf, Ambiguous, HeadCalls, StageRefusal, HeldAfter, MeteredCalls, FirstRefusal, ClassAfter,
         JwtArm, CredentialRefusal, Presented, Model;
    var tail :| RouteOk(q, o, res, tail) && calls == HeadCalls(q, o) + tail + RecordCalls(res);
  }

  /** The identity of a binding: its tenant, with no key and no user. */
  function NetworkWho(n: Nid): Who { Who(n.tenant, "", "", 0) }

  /** KEYLESS. Where nobody is identified the shared bucket is all there is: at
      most one charge, to nobody, and nothing is held or attributed. */
  lemma KeylessIsNobody(q: Req, o: Oracles, res: Result, calls: seq<Call>)
    requires GateOk(q, o, res, calls) && RouteOf(q, o).Keyless?
    ensures res.verdict != Allow && res.who == NOBODY && res.held == NOTHING_HELD && res.near == BLANK.near
    ensures q.svc == "" ==> res.verdict == Unmetered && !Charged(calls)
    ensures res.verdict == Deny ==> res.refusal.stage == RateLimit && res.refusal.status in {429, 503}
    ensures forall i :: 0 <= i < |calls| && (calls[i].Rate? || calls[i].Reserve?) ==>
              calls[i] == Rate("", "", "", q.svc, "")
  {
    hide RouteOf, HeadCalls, MeteredOk;
    var tail :| RouteOk(q, o, res, tail) && calls == HeadCalls(q, o) + tail + RecordCalls(res);
    HeadIsHeading(q, o);
    forall i | 0 <= i < |calls| && (calls[i].Rate? || calls[i].Reserve?) ensures calls[i] in tail {
      Middle(HeadCalls(q, o), tail, RecordCalls(res), calls[i]);
    }
  }

  /** A REFUSED CREDENTIAL. The answer is about authentication and says which kind:
      try again only on the store's outage, an identity only where the credential
      was good and its model was not; and nothing was charged. */
  lemma RefusedCredential(q: Req, o: Oracles, res: Result, calls: seq<Call>)
    requires GateOk(q, o, res, calls) && RouteOf(q, o).Refused?
    ensures res.verdict == Deny && res.refusal.stage == Auth && res.refusal.status in {401, 403, 503}
    ensures res.refusal.retryAfter != 0 <==> res.refusal.status == 503
    ensures res.who != NOBODY ==> res.refusal.status == 403
    ensures res.refusal.code != "" && !Charged(calls)
  {
    hide RouteOf, HeadCalls, MeteredOk;
    var tail :| RouteOk(q, o, res, tail) && calls == HeadCalls(q, o) + tail + RecordCalls(res);
    HeadIsHeading(q, o);
    assert calls == HeadCalls(q, o) + RecordCalls(res);
    NotCharged(HeadCalls(q, o), RecordCalls(res));
  }

  /** Finding the route and recording a refusal charge nothing. */
  lemma NotCharged(head: seq<Call>, last: seq<Call>)
    requires Heading(head) && forall i :: 0 <= i < |last| ==> last[i].Record?
    ensures !Charged(head + last)
  {
    var all := head + last;
    forall i | 0 <= i < |all| ensures !all[i].Rate? && !all[i].Reserve? {
      if i < |head| {
        assert all[i] == head[i] && Rank(head[i]) < 2;
      } else {
        assert all[i] == last[i - |head|];
      }
    }
  }

  /** THE CLAIM. It is never less than the prompt the body shows; a streamed one
      never less than a quarter of the declared bytes, up to a hundred million;
      it grows with what is declared; and a default stands in only for a ceiling
      that was not declared. */
  lemma ClaimCovers(q: Req, o: Oracles, longer: nat)
    requires longer >= q.declaredLen
    ensures var (prompt, max, dflt) := Claim(q, o);
            && (q.body != "" ==> prompt >= o.promptTokens(q.body) && max == o.maxTokens(q.body))
            && (q.prefixOnly && q.declaredLen >= 4 ==> prompt >= Least(q.declaredLen / 4, 100_000_000) && Reserves(q, o))
            && (prompt > (if q.body != "" then o.promptTokens(q.body) else 0) ==>
                  q.prefixOnly && prompt == Least(q.declaredLen / 4, 100_000_000))
            && dflt >= 0 && (dflt > 0 ==> max <= 0)
            && (max <= 0 ==>
                  dflt == Most(0, if o.defaultOf.Some? then o.defaultOf.value(Model(q, o)) else q.defaultTokens))
            && prompt <= Claim(q.(declaredLen := longer), o).0
  {
    hide Model;
  }

  function Least(a: int, b: int): int { if a < b then a else b }

  function Most(a: int, b: int): int { if a < b then b else a }

  /** FAIL CLOSED. A resolver that cannot answer refuses what it would have
      decided on a service that asked for that. */
  lemma NoAnswer(q: Req, o: Oracles, res: Result, calls: seq<Call>)
    requires GateOk(q, o, res, calls) && !Ambiguous(q, o) && UsesNetid(q) && BindingOf(q, o).NoAnswer?
    ensures q.failClosed ==>
              (res.verdict == Deny && res.refusal == Refusal(Auth, 503, 5, false, "netid_unavailable")) ||
              (Enforcing(q) && Presented(q) && res.verdict == Deny && !Validate(q, o).0)
    ensures !q.failClosed ==> res.near.binding == "" && res.near.src != ByNetwork
  {
    hide Validate, BindingOf, Ambiguous, HeadCalls, StageRefusal, HeldAfter, MeteredCalls, FirstRefusal, ClassAfter,
         JwtArm, CredentialRefusal, Presented, Model;
    var tail :| RouteOk(q, o, res, tail) && calls == HeadCalls(q, o) + tail + RecordCalls(res);
  }

  // ---- a resolver that cannot answer is one that finds nothing ----

  const UNMATCHED := Nid(false, false, false, false, false, "", "")

  /** The control plane with a resolver that knows no source. */
  function Unmatching(o: Oracles): Oracles { o.(resolve := (ip, ifindex, svc, model) => (true, UNMATCHED)) }

  lemma SameReading(q: Req, o: Oracles, p: Oracles)
    requires p == o.(resolve := p.resolve)
    ensures Model(q, p) == Model(q, o) && BodyModel(q, p) == BodyModel(q, o) && Claim(q, p) == Claim(q, o)
    ensures Conflicting(q, p) == Conflicting(q, o) && Strict(q, p) == Strict(q, o) && TierOf(q, p) == TierOf(q, o)
    ensures Ambiguous(q, p) == Ambiguous(q, o) && Validate(q, p) == Validate(q, o)
    ensures ValidateCall(q, p) == ValidateCall(q, o) && ResolveCall(q, p) == ResolveCall(q, o)
  {
    assert BodyModel(q, p) == BodyModel(q, o);
    assert Model(q, p) == Model(q, o);
  }

  lemma SameStages(q: Req, o: Oracles, p: Oracles, id: Ident, near: Near)
    requires p == o.(resolve := p.resolve)
    ensures ClassCall(q, p, id.who, near) == ClassCall(q, o, id.who, near)
    ensures ClassRefuses(q, p, id.who, near) == ClassRefuses(q, o, id.who, near)
    ensures RateCall(q, p, id.who) == RateCall(q, o, id.who) && ReserveCall(q, p, id.who) == ReserveCall(q, o, id.who)
    ensures Reserves(q, p) == Reserves(q, o) && FirstRefusal(q, p, id, near) == FirstRefusal(q, o, id, near)
  {
    hide Claim, Model, Strict, TierOf, Conflicting;
    SameReading(q, o, p);
  }

  lemma SameLeft(q: Req, o: Oracles, p: Oracles, id: Ident, before: Result, at: Stage)
    requires p == o.(resolve := p.resolve)
    ensures StageRefusal(q, p, id.who, at) == StageRefusal(q, o, id.who, at)
    ensures HeldAfter(q, p, id.who, at) == HeldAfter(q, o, id.who, at)
    ensures ClassAfter(q, p, id.who, before, at) == ClassAfter(q, o, id.who, before, at)
    ensures MeteredCalls(q, p, id.who, before.near, at) == MeteredCalls(q, o, id.who, before.near, at)
  {
    hide Claim, Model, Strict, TierOf, FirstRefusal, ClassCall, RateCall, ReserveCall, ClassRefuses, Reserves, Uint32;
    SameReading(q, o, p);
    SameStages(q, o, p, id, before.near);
  }

  lemma SameMetered(q: Req, o: Oracles, p: Oracles, id: Ident, before: Result, res: Result, calls: seq<Call>)
    requires p == o.(resolve := p.resolve)
    ensures MeteredOk(q, p, id, before, res, calls) <==> MeteredOk(q, o, id, before, res, calls)
  {
    hide Model, FirstRefusal, StageRefusal, HeldAfter, ClassAfter, MeteredCalls;
    SameReading(q, o, p);
    SameStages(q, o, p, id, before.near);
    SameLeft(q, o, p, id, before, FirstRefusal(q, o, id, before.near));
  }

  lemma SameRoute(q: Req, o: Oracles)
    requires !q.failClosed && BindingOf(q, o).NoAnswer?
    ensures RouteOf(q, Unmatching(o)) == RouteOf(q, o) && HeadCalls(q, Unmatching(o)) == HeadCalls(q, o)
  {
    var p := Unmatching(o);
    SameReading(q, o, p);
    assert BindingOf(q, p) == Unbound;
    hide BindingOf, Ambiguous, Validate, Presented, ValidateCall, ResolveCall;
  }

  /** NO ANSWER IS NO MATCH. On a service that does not fail closed, a resolver that
      cannot answer decides nothing: the result and the calls are those of a
      resolver that finds no binding. */
  lemma NoAnswerIsNoMatch(q: Req, o: Oracles, res: Result, calls: seq<Call>)
    requires !q.failClosed && BindingOf(q, o).NoAnswer?
    ensures GateOk(q, o, res, calls) <==> GateOk(q, Unmatching(o), res, calls)
  {
    hide RouteOk, HeadCalls, BindingOf;
    SameRoute(q, o);
    forall tail ensures RouteOk(q, o, res, tail) <==> RouteOk(q, Unmatching(o), res, tail) {
      SameResult(q, o, res, tail);
    }
  }

  lemma SameResult(q: Req, o: Oracles, res: Result, tail: seq<Call>)
    requires !q.failClosed && BindingOf(q, o).NoAnswer?
    ensures RouteOk(q, o, res, tail) <==> RouteOk(q, Unmatching(o), res, tail)
  {
    hide MeteredOk, HeadCalls, RouteOf, BindingOf, Model, IdentOf, BodyModel;
    var p := Unmatching(o);
    SameRoute(q, o);
    SameReading(q, o, p);
    match RouteOf(q, o)
    case AsNetwork(n) => SameMetered(q, o, p, IdentOf(RouteOf(q, o)), OnNetwork(q, o, n), res, tail);
    case AsCredential(d, n) =>
      SameMetered(q, o, p, IdentOf(RouteOf(q, o)), Start(q, o).(near := NearBinding(q, n)), res, tail);
    case _ =>
  }
}
