// Choosing a model: rejection of ineligible candidates, scoring, and a total order on what is left.

module Routing {
  import opened Text
  import opened ProviderPolicy

  datatype Billing = Free | FreeQuota | UserPays | Paid | Unknown

  datatype Quality = Economy | Balanced | High

  /** A catalog model, with its score for the request's task. */
  datatype Candidate = Candidate(provider: string, model: string, enabled: bool, billing: Billing,
                                 capabilities: set<string>, reasoningLevels: seq<string>, parameters: set<string>,
                                 contextLength: int, taskScore: Option<real>)

  /** What the configuration, the environment and the usage database say about a provider. */
  datatype Provider = Provider(enabled: bool, healthy: Option<bool>, credentialMissing: bool, accountMissing: bool,
                               dailyExhausted: bool, monthlyExhausted: bool)

  datatype World = World(providers: map<string, Provider>, allowPaid: bool, allowUserPays: bool, preferFree: bool)

  /** `content` stands for prompt, system prompt and task, which routing only reads. */
  datatype Request = Request(content: string, inputTokens: int, maxOutput: int, required: set<string>, effort: Option<string>,
                             quality: Quality, allowPaid: bool, allowUserPays: bool, responseFormat: bool,
                             session: Option<string>, preferred: seq<string>, excluded: seq<string>)

  datatype Reason = ModelDisabled | NoManualProvider | NotManualProvider | PinnedElsewhere | Excluded | MissingCapabilities
                  | NoReasoning | EffortUnsupported | FormatUnsupported | ContextTooSmall | NotConfigured | ProviderDisabled
                  | Unhealthy | NoCredential | NoAccount | DailyCap | MonthlyCap | PaidDisabled | UserPaysDisabled

  // ---- _rejection_reason ----

  /** The pin gate: manual selection, or the live pin of the session. */
  function PolicyReason(p: Policy, pinned: Option<string>, c: Candidate): Option<Reason> {
    if p.mode == Manual then
      if p.manualProvider.None? then Some(NoManualProvider)
      else if c.provider != p.manualProvider.value then Some(NotManualProvider) else None
    else if pinned.Some? && c.provider != pinned.value then Some(PinnedElsewhere)
    else None
  }

  function RequestReason(c: Candidate, r: Request): Option<Reason> {
    if c.provider in r.excluded then Some(Excluded)
    else if !(r.required <= c.capabilities) then Some(MissingCapabilities)
    else if r.effort.Some? && c.reasoningLevels == [] then Some(NoReasoning)
    else if r.effort.Some? && r.effort.value !in c.reasoningLevels then Some(EffortUnsupported)
    else if r.responseFormat && c.parameters != {} && "response_format" !in c.parameters && "structured_outputs" !in c.parameters then Some(FormatUnsupported)
    else if r.inputTokens + r.maxOutput > c.contextLength then Some(ContextTooSmall)
    else None
  }

  function ProviderReason(w: World, c: Candidate): Option<Reason> {
    if c.provider !in w.providers then Some(NotConfigured)
    else
      var p := w.providers[c.provider];
      if !p.enabled then Some(ProviderDisabled)
      else if p.healthy == Some(false) then Some(Unhealthy)
      else if p.credentialMissing then Some(NoCredential)
      else if p.accountMissing then Some(NoAccount)
      else if p.dailyExhausted then Some(DailyCap)
      else if p.monthlyExhausted then Some(MonthlyCap)
      else None
  }

  function BillingReason(w: World, c: Candidate, r: Request): Option<Reason> {
    if c.billing == Paid && !(r.allowPaid && w.allowPaid) then Some(PaidDisabled)
    else if c.billing == UserPays && !(r.allowUserPays && w.allowUserPays) then Some(UserPaysDisabled)
    else None
  }

  /** The first gate a candidate fails. */
  function Rejection(w: World, p: Policy, pinned: Option<string>, c: Candidate, r: Request): Option<Reason> {
    if !c.enabled then Some(ModelDisabled)
    else
      var a := PolicyReason(p, pinned, c);
      if a.Some? then a
      else
        var b := RequestReason(c, r);
        if b.Some? then b
        else
          var d := ProviderReason(w, c);
          if d.Some? then d else BillingReason(w, c, r)
  }

  // ---- _score ----

  function BillingBonus(b: Billing): real {
    match b
    case Free => 35.0
    case FreeQuota => 28.0
    case UserPays => 18.0
    case Paid => 0.0
    case Unknown => -8.0
  }

  function QualityWeight(q: Quality): real {
    match q
    case Economy => 1.0
    case Balanced => 0.6
    case High => 0.15
  }

  function QualityMinimum(q: Quality): real {
    match q
    case Economy => 0.0
    case Balanced => 35.0
    case High => 55.0
  }

  function Score(w: World, c: Candidate, r: Request): real {
    var headroom := c.contextLength - r.inputTokens - r.maxOutput;
    c.taskScore.UnwrapOr(40.0)
      + (if w.preferFree then BillingBonus(c.billing) * QualityWeight(r.quality) else 0.0)
      + (if headroom > 64_000 then 6.0 else if headroom < 2048 then -12.0 else 0.0)
      + (if r.quality == High && c.taskScore.UnwrapOr(0.0) >= 75.0 then 12.0 else 0.0)
      + (if r.quality == Economy && (c.billing == Free || c.billing == FreeQuota) then 8.0 else 0.0)
  }

  datatype Scored = Scored(candidate: Candidate, score: real)

  datatype RouteRejection = RouteRejection(provider: string, model: string, reason: Reason)

  // ---- the order of `valid.sort` ----

  /** The order Python gives strings: by code points. */
  predicate StrLess(a: string, b: string) {
    b != "" && (a == "" || a[0] < b[0] || (a[0] == b[0] && StrLess(a[1..], b[1..])))
  }

  /** Position of the provider in the order, from 1; one more than the number of distinct names if absent. */
  function Rank(order: seq<string>, provider: string): nat {
    if provider in order then IndexOf(order, provider) + 1 else |set p | p in order| + 1
  }

  function IndexOf(s: seq<string>, x: string): (i: nat)
    requires x in s
    ensures i < |s| && s[i] == x && x !in s[..i]
  {
    if s[0] == x then 0 else 1 + IndexOf(s[1..], x)
  }

  /** (rank, -score, provider, model) in lexicographic order. */
  predicate Before(order: seq<string>, a: Scored, b: Scored) {
    var ra, rb := Rank(order, a.candidate.provider), Rank(order, b.candidate.provider);
    ra < rb || (ra == rb && (a.score > b.score || (a.score == b.score &&
      (StrLess(a.candidate.provider, b.candidate.provider) || (a.candidate.provider == b.candidate.provider &&
        StrLess(a.candidate.model, b.candidate.model))))))
  }

  /** The first item after a stable sort: the earliest that nothing comes before. */
  function First(order: seq<string>, items: seq<Scored>): (best: Scored)
    requires items != []
    ensures best in items
  {
    if |items| == 1 then items[0]
    else
      var best := First(order, items[1..]);
      if Before(order, best, items[0]) then best else items[0]
  }

  lemma {:induction false} StrLessTotal(a: string, b: string)
    ensures !(StrLess(a, b) && StrLess(b, a)) && !StrLess(a, a)
    ensures a == b || StrLess(a, b) || StrLess(b, a)
    decreases |a|
  {
    if a != "" {
      StrLessTotal(a[1..], if b != "" then b[1..] else "");
      StrLessTotal(a[1..], a[1..]);
      if b != "" {
        assert a == [a[0]] + a[1..] && b == [b[0]] + b[1..];
      }
    }
  }

  lemma {:induction false} StrLessTransitive(a: string, b: string, c: string)
    requires StrLess(a, b) && StrLess(b, c)
    ensures StrLess(a, c)
    decreases |a|
  {
    if a != "" && a[0] == b[0] == c[0] {
      StrLessTransitive(a[1..], b[1..], c[1..]);
    }
  }

  lemma BeforeTransitive(order: seq<string>, a: Scored, b: Scored, c: Scored)
    requires Before(order, a, b) && Before(order, b, c)
    ensures Before(order, a, c)
  {
    if StrLess(a.candidate.provider, b.candidate.provider) && StrLess(b.candidate.provider, c.candidate.provider) {
      StrLessTransitive(a.candidate.provider, b.candidate.provider, c.candidate.provider);
    }
    if StrLess(a.candidate.model, b.candidate.model) && StrLess(b.candidate.model, c.candidate.model) {
      StrLessTransitive(a.candidate.model, b.candidate.model, c.candidate.model);
    }
  }

  lemma BeforeTotal(order: seq<string>, a: Scored, b: Scored)
    ensures !(Before(order, a, b) && Before(order, b, a))
    ensures !SameModel(a.candidate, b.candidate) ==> Before(order, a, b) || Before(order, b, a)
  {
    StrLessTotal(a.candidate.provider, b.candidate.provider);
    StrLessTotal(a.candidate.model, b.candidate.model);
  }

  predicate SameModel(a: Candidate, b: Candidate) {
    a.provider == b.provider && a.model == b.model
  }

  /** Nothing comes before the first item. */
  lemma {:induction false} FirstIsMinimal(order: seq<string>, items: seq<Scored>, other: Scored)
    requires items != [] && other in items
    ensures !Before(order, other, First(order, items))
    decreases |items|
  {
    BeforeTotal(order, other, other);
    if |items| > 1 {
      var best := First(order, items[1..]);
      BeforeTotal(order, best, items[0]);
      if other in items[1..] {
        FirstIsMinimal(order, items[1..], other);
        if !Before(order, best, items[0]) && Before(order, other, items[0]) {
          NotBeforeChain(order, other, items[0], best);
        }
      }
    }
  }

  lemma NotBeforeChain(order: seq<string>, a: Scored, b: Scored, c: Scored)
    requires Before(order, a, b) && !Before(order, c, b)
    ensures Before(order, a, c)
  {
    if Before(order, b, c) {
      BeforeTransitive(order, a, b, c);
    } else {
      StrLessTotal(b.candidate.provider, c.candidate.provider);
      StrLessTotal(b.candidate.model, c.candidate.model);
    }
  }

  // ---- decide ----

  /** The candidates that pass every gate, in catalog order. */
  function Valid(w: World, p: Policy, pinned: Option<string>, r: Request, catalog: seq<Candidate>): seq<Scored> {
    if catalog == [] then []
    else
      (if Rejection(w, p, pinned, catalog[0], r).None? then [Scored(catalog[0], Score(w, catalog[0], r))] else [])
        + Valid(w, p, pinned, r, catalog[1..])
  }

  function Rejections(w: World, p: Policy, pinned: Option<string>, r: Request, catalog: seq<Candidate>): seq<RouteRejection> {
    if catalog == [] then []
    else
      var reason := Rejection(w, p, pinned, catalog[0], r);
      (if reason.Some? then [RouteRejection(catalog[0].provider, catalog[0].model, reason.value)] else [])
        + Rejections(w, p, pinned, r, catalog[1..])
  }

  function PaidOnly(items: seq<Scored>): seq<Scored> {
    if items == [] then []
    else (if items[0].candidate.billing == Paid || items[0].candidate.billing == UserPays then [items[0]] else []) + PaidOnly(items[1..])
  }

  /** The choice among the valid candidates: the first, or below the quality floor the first that costs
      something, if there is one. */
  function Choice(order: seq<string>, quality: Quality, valid: seq<Scored>): (s: Scored)
    requires valid != []
  {
    var best := First(order, valid);
    if best.score < QualityMinimum(quality) && PaidOnly(valid) != [] then First(order, PaidOnly(valid)) else best
  }

  datatype Decision = Route(chosen: Scored) | NoRoute(rejections: seq<RouteRejection>)

  /** The provider order of the decision. */
  function OrderFor(p: Policy, r: Request, now: int): seq<string> {
    if r.preferred != [] then r.preferred else ProviderOrder(p, r.session, now)
  }

  /** `decide` at one instant, without the usage record. */
  function Decide(w: World, p: Policy, r: Request, catalog: seq<Candidate>, now: int): Decision {
    var pinned := StickyFor(p, r.session, now).0;
    var valid := Valid(w, p, pinned, r, catalog);
    if valid == [] then NoRoute(Rejections(w, p, pinned, r, catalog))
    else Route(Choice(OrderFor(p, r, now), r.quality, valid))
  }

  /** Some enabled model reaches the pin gate, or the provider order is asked for: then expired pins are dropped. */
  predicate AsksForPin(w: World, p: Policy, r: Request, catalog: seq<Candidate>, now: int) {
    (p.mode != Manual && AnyEnabled(catalog))
      || (r.preferred == [] && Decide(w, p, r, catalog, now).Route?)
  }

  /** The policy that `decide` leaves. */
  function PolicyAfter(w: World, p: Policy, r: Request, catalog: seq<Candidate>, now: int): Policy {
    if AsksForPin(w, p, r, catalog, now) then StickyFor(p, r.session, now).1 else p
  }

  predicate AnyEnabled(catalog: seq<Candidate>) {
    exists c :: c in catalog && c.enabled
  }

  /** Dropping expired pins changes no verdict. */
  lemma CleanedRejectsAlike(w: World, p: Policy, r: Request, c: Candidate, now: int)
    ensures var (pinned, q) := StickyFor(p, r.session, now);
      StickyFor(q, r.session, now) == (pinned, q) && Rejection(w, q, pinned, c, r) == Rejection(w, p, pinned, c, r)
  {
    StickyForIsIdempotent(p, r.session, now);
    StickyForKeepsMode(p, r.session, now);
    var (pinned, q) := StickyFor(p, r.session, now);
    assert PolicyReason(q, pinned, c) == PolicyReason(p, pinned, c);
  }

  /** `_rejection_reason`: the pin is looked up only for an enabled model outside manual mode. */
  method Reject(w: World, policy: ProviderRoutingPolicy, c: Candidate, r: Request, now: int) returns (reason: Option<Reason>)
    modifies policy`sticky, policy`sessionSticky
    ensures reason == Rejection(w, old(policy.Value()), StickyFor(old(policy.Value()), r.session, now).0, c, r)
    ensures policy.Value() == if old(policy.mode) != Manual && c.enabled then StickyFor(old(policy.Value()), r.session, now).1 else old(policy.Value())
  {
    if !c.enabled {
      return Some(ModelDisabled);
    }
    if policy.mode == Manual {
      if policy.manualProvider.None? {
        return Some(NoManualProvider);
      }
      if c.provider != policy.manualProvider.value {
        return Some(NotManualProvider);
      }
    } else {
      var pinned := policy.StickyProvider(r.session, now);
      if pinned.Some? && c.provider != pinned.value {
        return Some(PinnedElsewhere);
      }
    }
    reason := RequestReason(c, r);
    if reason.Some? {
      return;
    }
    reason := ProviderReason(w, c);
    if reason.Some? {
      return;
    }
    reason := BillingReason(w, c, r);
  }

  /** One turn of the scoring loop. */
  method ScoreOne(w: World, policy: ProviderRoutingPolicy, c: Candidate, r: Request, now: int, ghost before: Policy, ghost seen: bool)
    returns (reason: Option<Reason>)
    requires policy.Value() == if before.mode != Manual && seen then StickyFor(before, r.session, now).1 else before
    modifies policy`sticky, policy`sessionSticky
    ensures reason == Rejection(w, before, StickyFor(before, r.session, now).0, c, r)
    ensures policy.Value() == if before.mode != Manual && (seen || c.enabled) then StickyFor(before, r.session, now).1 else before
  {
    CleanedRejectsAlike(w, before, r, c, now);
    StickyForKeepsMode(before, r.session, now);
    reason := Reject(w, policy, c, r, now);
  }

  /** The scoring loop of `decide`, with the policy object that the pin gate may clean up. */
  method ScoreAll(w: World, policy: ProviderRoutingPolicy, r: Request, catalog: seq<Candidate>, now: int)
    returns (valid: seq<Scored>, rejections: seq<RouteRejection>)
    modifies policy`sticky, policy`sessionSticky
    ensures var before := old(policy.Value()); var pinned := StickyFor(before, r.session, now).0;
      && valid == Valid(w, before, pinned, r, catalog) && rejections == Rejections(w, before, pinned, r, catalog)
      && policy.Value() == if before.mode != Manual && AnyEnabled(catalog) then StickyFor(before, r.session, now).1 else before
  {
    ghost var before := policy.Value();
    ghost var pinned, cleaned := StickyFor(before, r.session, now).0, StickyFor(before, r.session, now).1;
    valid, rejections := [], [];
    for i := 0 to |catalog|
      invariant policy.Value() == if before.mode != Manual && AnyEnabled(catalog[..i]) then cleaned else before
      invariant Valid(w, before, pinned, r, catalog) == valid + Valid(w, before, pinned, r, catalog[i..])
      invariant Rejections(w, before, pinned, r, catalog) == rejections + Rejections(w, before, pinned, r, catalog[i..])
    {
      var c := catalog[i];
      ScoreTurn(w, before, pinned, r, catalog, i, valid, rejections);
      var reason := ScoreOne(w, policy, c, r, now, before, AnyEnabled(catalog[..i]));
      if reason.Some? {
        rejections := rejections + [RouteRejection(c.provider, c.model, reason.value)];
      } else {
        valid := valid + [Scored(c, Score(w, c, r))];
      }
    }
    assert catalog[..|catalog|] == catalog;
    assert valid + [] == valid && rejections + [] == rejections;
  }

  /** What one turn of the scoring loop adds to the two lists. */
  lemma ScoreTurn(w: World, p: Policy, pinned: Option<string>, r: Request, catalog: seq<Candidate>, i: nat,
                  valid: seq<Scored>, rejections: seq<RouteRejection>)
    requires i < |catalog|
    ensures AnyEnabled(catalog[..i + 1]) <==> AnyEnabled(catalog[..i]) || catalog[i].enabled
    ensures var c, reason := catalog[i], Rejection(w, p, pinned, catalog[i], r);
      && valid + Valid(w, p, pinned, r, catalog[i..])
        == (if reason.None? then valid + [Scored(c, Score(w, c, r))] else valid) + Valid(w, p, pinned, r, catalog[i + 1..])
      && rejections + Rejections(w, p, pinned, r, catalog[i..])
        == (if reason.None? then rejections else rejections + [RouteRejection(c.provider, c.model, reason.value)])
          + Rejections(w, p, pinned, r, catalog[i + 1..])
  {
    assert catalog[..i + 1] == catalog[..i] + [catalog[i]];
    FirstScored(w, p, pinned, r, catalog[i..], catalog[i + 1..], valid);
    FirstRejected(w, p, pinned, r, catalog[i..], catalog[i + 1..], rejections);
  }

  lemma FirstScored(w: World, p: Policy, pinned: Option<string>, r: Request, catalog: seq<Candidate>, rest: seq<Candidate>, valid: seq<Scored>)
    requires catalog != [] && rest == catalog[1..]
    ensures var c := catalog[0];
      valid + Valid(w, p, pinned, r, catalog)
        == (if Rejection(w, p, pinned, c, r).None? then valid + [Scored(c, Score(w, c, r))] else valid) + Valid(w, p, pinned, r, rest)
  {
    Regrouped(valid, [Scored(catalog[0], Score(w, catalog[0], r))], Valid(w, p, pinned, r, rest));
  }

  lemma FirstRejected(w: World, p: Policy, pinned: Option<string>, r: Request, catalog: seq<Candidate>, rest: seq<Candidate>,
                      rejections: seq<RouteRejection>)
    requires catalog != [] && rest == catalog[1..]
    ensures var c, reason := catalog[0], Rejection(w, p, pinned, catalog[0], r);
      rejections + Rejections(w, p, pinned, r, catalog)
        == (if reason.None? then rejections else rejections + [RouteRejection(c.provider, c.model, reason.value)])
          + Rejections(w, p, pinned, r, rest)
  {
    var c, reason := catalog[0], Rejection(w, p, pinned, catalog[0], r);
    var added := RouteRejection(c.provider, c.model, reason.UnwrapOr(ModelDisabled));
    Regrouped(rejections, [added], Rejections(w, p, pinned, r, rest));
  }

  lemma Regrouped<T>(a: seq<T>, b: seq<T>, c: seq<T>)
    ensures a + (b + c) == (a + b) + c && a + ([] + c) == a + c
  {
  }

  method DecideRoute(w: World, policy: ProviderRoutingPolicy, r: Request, catalog: seq<Candidate>, now: int) returns (d: Decision)
    modifies policy`sticky, policy`sessionSticky
    ensures d == Decide(w, old(policy.Value()), r, catalog, now)
    ensures policy.Value() == PolicyAfter(w, old(policy.Value()), r, catalog, now)
  {
    ghost var before := policy.Value();
    StickyForIsIdempotent(before, r.session, now);
    StickyForKeepsMode(before, r.session, now);
    var valid, rejections := ScoreAll(w, policy, r, catalog, now);
    if valid == [] {
      return NoRoute(rejections);
    }
    var order := r.preferred;
    if order == [] {
      order := policy.Order(r.session, now);
    }
    d := Route(Choice(order, r.quality, valid));
  }

  // ---- main results ----

  /** The candidate passes every gate. */
  predicate Eligible(w: World, p: Policy, r: Request, now: int, c: Candidate) {
    Rejection(w, p, StickyFor(p, r.session, now).0, c, r).None?
  }

  lemma {:induction false} ValidMembers(w: World, p: Policy, pinned: Option<string>, r: Request, catalog: seq<Candidate>, s: Scored)
    ensures s in Valid(w, p, pinned, r, catalog) <==>
      s.candidate in catalog && s.score == Score(w, s.candidate, r) && Rejection(w, p, pinned, s.candidate, r).None?
    decreases |catalog|
  {
    if catalog != [] {
      ValidMembers(w, p, pinned, r, catalog[1..], s);
    }
  }

  lemma {:induction false} PaidMembers(items: seq<Scored>, s: Scored)
    ensures s in PaidOnly(items) <==> s in items && (s.candidate.billing == Paid || s.candidate.billing == UserPays)
    decreases |items|
  {
    if items != [] {
      PaidMembers(items[1..], s);
    }
  }

  /** Every catalog model is either valid or recorded with exactly one rejection. */
  lemma {:induction false} EveryModelAccountedFor(w: World, p: Policy, pinned: Option<string>, r: Request, catalog: seq<Candidate>)
    ensures |Valid(w, p, pinned, r, catalog)| + |Rejections(w, p, pinned, r, catalog)| == |catalog|
    ensures forall c :: c in catalog ==>
      (if Rejection(w, p, pinned, c, r).None? then Scored(c, Score(w, c, r)) in Valid(w, p, pinned, r, catalog)
       else RouteRejection(c.provider, c.model, Rejection(w, p, pinned, c, r).value) in Rejections(w, p, pinned, r, catalog))
    decreases |catalog|
  {
    if catalog != [] {
      EveryModelAccountedFor(w, p, pinned, r, catalog[1..]);
    }
  }

  // ---- the decision as a minimum over sets ----

  /** The eligible models with their scores. */
  ghost function EligibleSet(w: World, p: Policy, r: Request, catalog: seq<Candidate>, now: int): set<Scored> {
    set c | c in catalog && Eligible(w, p, r, now, c) :: Scored(c, Score(w, c, r))
  }

  ghost function Costing(pool: set<Scored>): set<Scored> {
    set s | s in pool && (s.candidate.billing == Paid || s.candidate.billing == UserPays)
  }

  /** `s` comes before everything else in the pool. */
  ghost predicate IsBest(order: seq<string>, pool: set<Scored>, s: Scored) {
    s in pool && forall t :: t in pool && t != s ==> Before(order, s, t)
  }

  /** The decision read off a pool: the best of it, or below the quality floor the best that costs
      something, if anything does. */
  ghost predicate IsDecision(order: seq<string>, quality: Quality, pool: set<Scored>, s: Scored) {
    exists best :: IsBest(order, pool, best) &&
      if best.score < QualityMinimum(quality) && Costing(pool) != {} then IsBest(order, Costing(pool), s) else s == best
  }

  /** Scores are a function of the model, and models are unique. */
  ghost predicate DistinctModels(pool: set<Scored>) {
    forall s, t :: s in pool && t in pool && SameModel(s.candidate, t.candidate) ==> s == t
  }

  /** Catalog keys are unique. */
  ghost predicate UniqueModels(catalog: seq<Candidate>) {
    forall c, d :: c in catalog && d in catalog && SameModel(c, d) ==> c == d
  }

  lemma FirstIsBest(order: seq<string>, items: seq<Scored>, pool: set<Scored>)
    requires items != [] && DistinctModels(pool) && forall s :: s in items <==> s in pool
    ensures IsBest(order, pool, First(order, items))
  {
    var best := First(order, items);
    forall t | t in pool && t != best ensures Before(order, best, t) {
      FirstIsMinimal(order, items, t);
      BeforeTotal(order, best, t);
    }
  }

  lemma BestIsUnique(order: seq<string>, pool: set<Scored>, s: Scored, t: Scored)
    requires IsBest(order, pool, s) && IsBest(order, pool, t)
    ensures s == t
  {
    BeforeTotal(order, s, t);
  }

  lemma DecisionIsUnique(order: seq<string>, quality: Quality, pool: set<Scored>, s: Scored, t: Scored)
    requires IsDecision(order, quality, pool, s) && IsDecision(order, quality, pool, t)
    ensures s == t
  {
    var a :| IsBest(order, pool, a) &&
      if a.score < QualityMinimum(quality) && Costing(pool) != {} then IsBest(order, Costing(pool), s) else s == a;
    var b :| IsBest(order, pool, b) &&
      if b.score < QualityMinimum(quality) && Costing(pool) != {} then IsBest(order, Costing(pool), t) else t == b;
    BestIsUnique(order, pool, a, b);
    if a.score < QualityMinimum(quality) && Costing(pool) != {} {
      BestIsUnique(order, Costing(pool), s, t);
    }
  }

  lemma ValidIsEligible(w: World, p: Policy, r: Request, catalog: seq<Candidate>, now: int)
    ensures forall s :: s in Valid(w, p, StickyFor(p, r.session, now).0, r, catalog) <==> s in EligibleSet(w, p, r, catalog, now)
  {
    var pinned, pool := StickyFor(p, r.session, now).0, EligibleSet(w, p, r, catalog, now);
    forall s: Scored ensures s in Valid(w, p, pinned, r, catalog) <==> s in pool {
      ValidMembers(w, p, pinned, r, catalog, s);
      if s in Valid(w, p, pinned, r, catalog) {
        assert Eligible(w, p, r, now, s.candidate) && s == Scored(s.candidate, Score(w, s.candidate, r));
      }
    }
  }

  /** `decide` fails exactly when no model is eligible, and otherwise takes the unique minimum of
      (preference rank, -score, provider, model) over the eligible models or, below the quality floor,
      over those that cost something. */
  lemma DecisionIsOptimal(w: World, p: Policy, r: Request, catalog: seq<Candidate>, now: int)
    requires UniqueModels(catalog)
    ensures var pool, d := EligibleSet(w, p, r, catalog, now), Decide(w, p, r, catalog, now);
      && (d.NoRoute? <==> pool == {})
      && (d.Route? ==> IsDecision(OrderFor(p, r, now), r.quality, pool, d.chosen))
  {
    var pool, order := EligibleSet(w, p, r, catalog, now), OrderFor(p, r, now);
    var valid := Valid(w, p, StickyFor(p, r.session, now).0, r, catalog);
    ValidIsEligible(w, p, r, catalog, now);
    if valid == [] {
      assert forall s :: s in pool ==> s in valid;
    } else {
      assert valid[0] in pool;
      FirstIsBest(order, valid, pool);
      forall s: Scored ensures s in PaidOnly(valid) <==> s in Costing(pool) {
        PaidMembers(valid, s);
      }
      if PaidOnly(valid) != [] {
        assert PaidOnly(valid)[0] in Costing(pool);
        FirstIsBest(order, PaidOnly(valid), Costing(pool));
      }
    }
  }

  /** The decision does not depend on the order of the catalog. */
  lemma DecisionIgnoresCatalogOrder(w: World, p: Policy, r: Request, catalog: seq<Candidate>, shuffled: seq<Candidate>, now: int)
    requires UniqueModels(catalog) && multiset(catalog) == multiset(shuffled)
    ensures var d, e := Decide(w, p, r, catalog, now), Decide(w, p, r, shuffled, now);
      (d.Route? <==> e.Route?) && (d.Route? ==> d == e)
  {
    assert forall c :: c in catalog <==> c in multiset(catalog);
    assert forall c :: c in shuffled <==> c in multiset(shuffled);
    assert EligibleSet(w, p, r, catalog, now) == EligibleSet(w, p, r, shuffled, now);
    DecisionIsOptimal(w, p, r, catalog, now);
    DecisionIsOptimal(w, p, r, shuffled, now);
    var d, e := Decide(w, p, r, catalog, now), Decide(w, p, r, shuffled, now);
    if d.Route? {
      DecisionIsUnique(OrderFor(p, r, now), r.quality, EligibleSet(w, p, r, catalog, now), d.chosen, e.chosen);
    }
  }

  /** The chosen model passed every gate. */
  lemma ChosenIsEligible(w: World, p: Policy, r: Request, catalog: seq<Candidate>, now: int)
    requires Decide(w, p, r, catalog, now).Route?
    ensures var c := Decide(w, p, r, catalog, now).chosen.candidate; c in catalog && Eligible(w, p, r, now, c)
  {
    var pinned := StickyFor(p, r.session, now).0;
    var valid := Valid(w, p, pinned, r, catalog);
    var s := Decide(w, p, r, catalog, now).chosen;
    PaidMembers(valid, s);
    ValidMembers(w, p, pinned, r, catalog, s);
  }

  /** Outside manual mode a live pin forces the pinned provider; in manual mode the selected one; and an
      excluded provider is never chosen. */
  lemma PinForcesProvider(w: World, p: Policy, r: Request, catalog: seq<Candidate>, now: int)
    requires Decide(w, p, r, catalog, now).Route?
    ensures var chosen, pinned := Decide(w, p, r, catalog, now).chosen.candidate.provider, StickyFor(p, r.session, now).0;
      && (p.mode != Manual && pinned.Some? ==> chosen == pinned.value)
      && (p.mode == Manual ==> p.manualProvider == Some(chosen))
      && chosen !in r.excluded
  {
    ChosenIsEligible(w, p, r, catalog, now);
  }

  /** A live pin on an excluded provider leaves no route at all. */
  lemma ExcludedPinHasNoRoute(w: World, p: Policy, r: Request, catalog: seq<Candidate>, now: int)
    requires p.mode != Manual && StickyFor(p, r.session, now).0.Some? && StickyFor(p, r.session, now).0.value in r.excluded
    ensures Decide(w, p, r, catalog, now).NoRoute?
  {
    if Decide(w, p, r, catalog, now).Route? {
      PinForcesProvider(w, p, r, catalog, now);
    }
  }

  // ---- the gates and the ranking, in the fields alone ----

  /** The failed gate is true of the model. */
  ghost predicate Fails(w: World, p: Policy, r: Request, now: int, c: Candidate, x: Reason) {
    match x
    case ModelDisabled => !c.enabled
    case NoManualProvider => p.mode == Manual && p.manualProvider == None
    case NotManualProvider => p.mode == Manual && p.manualProvider.Some? && p.manualProvider.value != c.provider
    case PinnedElsewhere => p.mode != Manual && exists x :: PinnedTo(p, r.session, now, x) && x != c.provider
    case Excluded => c.provider in r.excluded
    case MissingCapabilities => exists x :: x in r.required && x !in c.capabilities
    case NoReasoning => r.effort.Some? && |c.reasoningLevels| == 0
    case EffortUnsupported => r.effort.Some? && |c.reasoningLevels| > 0 && r.effort.value !in c.reasoningLevels
    case FormatUnsupported => r.responseFormat && c.parameters != {} && {"response_format", "structured_outputs"} !! c.parameters
    case ContextTooSmall => c.contextLength < r.inputTokens + r.maxOutput
    case NotConfigured => c.provider !in w.providers
    case ProviderDisabled => c.provider in w.providers && !w.providers[c.provider].enabled
    case Unhealthy => c.provider in w.providers && w.providers[c.provider].healthy == Some(false)
    case NoCredential => c.provider in w.providers && w.providers[c.provider].credentialMissing
    case NoAccount => c.provider in w.providers && w.providers[c.provider].accountMissing
    case DailyCap => c.provider in w.providers && w.providers[c.provider].dailyExhausted
    case MonthlyCap => c.provider in w.providers && w.providers[c.provider].monthlyExhausted
    case PaidDisabled => c.billing == Paid && (!r.allowPaid || !w.allowPaid)
    case UserPaysDisabled => c.billing == UserPays && (!r.allowUserPays || !w.allowUserPays)
  }

  /** The gates in the order they are asked. */
  function Gate(x: Reason): nat {
    match x
    case ModelDisabled => 0
    case NoManualProvider => 1
    case NotManualProvider => 2
    case PinnedElsewhere => 3
    case Excluded => 4
    case MissingCapabilities => 5
    case NoReasoning => 6
    case EffortUnsupported => 7
    case FormatUnsupported => 8
    case ContextTooSmall => 9
    case NotConfigured => 10
    case ProviderDisabled => 11
    case Unhealthy => 12
    case NoCredential => 13
    case NoAccount => 14
    case DailyCap => 15
    case MonthlyCap => 16
    case PaidDisabled => 17
    case UserPaysDisabled => 18
  }

  /** `x` is the first gate the model fails; None is none. */
  ghost predicate FirstFailure(w: World, p: Policy, r: Request, now: int, c: Candidate, x: Option<Reason>) {
    match x
    case None => forall y :: !Fails(w, p, r, now, c, y)
    case Some(reason) => Fails(w, p, r, now, c, reason) && forall y :: Gate(y) < Gate(reason) ==> !Fails(w, p, r, now, c, y)
  }

  /** The first gate from `lo` on and before `hi` that the model fails. */
  ghost predicate FirstWithin(w: World, p: Policy, r: Request, now: int, c: Candidate, lo: nat, hi: nat, x: Option<Reason>) {
    match x
    case None => forall y :: lo <= Gate(y) < hi ==> !Fails(w, p, r, now, c, y)
    case Some(reason) =>
      && lo <= Gate(reason) < hi && Fails(w, p, r, now, c, reason)
      && forall y :: lo <= Gate(y) < Gate(reason) ==> !Fails(w, p, r, now, c, y)
  }

  lemma PolicyGates(w: World, p: Policy, r: Request, now: int, c: Candidate)
    ensures FirstWithin(w, p, r, now, c, 1, 4, PolicyReason(p, StickyFor(p, r.session, now).0, c))
  {
    LookupFinds(p, r.session, now);
  }

  lemma RequestGates(w: World, p: Policy, r: Request, now: int, c: Candidate)
    ensures FirstWithin(w, p, r, now, c, 4, 10, RequestReason(c, r))
  {
    if r.required <= c.capabilities {
      assert !Fails(w, p, r, now, c, MissingCapabilities);
    } else {
      var x :| x in r.required && x !in c.capabilities;
    }
  }

  lemma ProviderGates(w: World, p: Policy, r: Request, now: int, c: Candidate)
    ensures FirstWithin(w, p, r, now, c, 10, 17, ProviderReason(w, c))
  {
    assert forall y: Reason :: 10 <= Gate(y) < 17 ==>
      y in {NotConfigured, ProviderDisabled, Unhealthy, NoCredential, NoAccount, DailyCap, MonthlyCap};
  }

  lemma BillingGates(w: World, p: Policy, r: Request, now: int, c: Candidate)
    ensures FirstWithin(w, p, r, now, c, 17, 19, BillingReason(w, c, r))
  {
  }

  lemma RejectionIsFirstFailure(w: World, p: Policy, r: Request, now: int, c: Candidate)
    ensures FirstFailure(w, p, r, now, c, Rejection(w, p, StickyFor(p, r.session, now).0, c, r))
  {
    PolicyGates(w, p, r, now, c);
    RequestGates(w, p, r, now, c);
    ProviderGates(w, p, r, now, c);
    BillingGates(w, p, r, now, c);
    FirstOfFive(w, p, r, now, c, PolicyReason(p, StickyFor(p, r.session, now).0, c), RequestReason(c, r), ProviderReason(w, c), BillingReason(w, c, r));
  }

  lemma FirstOfFive(w: World, p: Policy, r: Request, now: int, c: Candidate,
                    a: Option<Reason>, b: Option<Reason>, d: Option<Reason>, e: Option<Reason>)
    requires FirstWithin(w, p, r, now, c, 1, 4, a) && FirstWithin(w, p, r, now, c, 4, 10, b)
    requires FirstWithin(w, p, r, now, c, 10, 17, d) && FirstWithin(w, p, r, now, c, 17, 19, e)
    ensures FirstFailure(w, p, r, now, c,
      if !c.enabled then Some(ModelDisabled) else if a.Some? then a else if b.Some? then b else if d.Some? then d else e)
  {
    assert forall y: Reason :: Gate(y) == 0 || 1 <= Gate(y) < 4 || 4 <= Gate(y) < 10 || 10 <= Gate(y) < 17 || 17 <= Gate(y) < 19;
    assert forall y: Reason :: Gate(y) == 0 ==> y == ModelDisabled;
  }

  /** The model meets every demand of policy, request, configuration, environment and caps. */
  ghost predicate Passes(w: World, p: Policy, r: Request, now: int, c: Candidate) {
    && c.enabled && c.provider !in r.excluded
    && (if p.mode == Manual then p.manualProvider == Some(c.provider) else forall x :: PinnedTo(p, r.session, now, x) ==> x == c.provider)
    && (forall x :: x in r.required ==> x in c.capabilities)
    && (r.effort.Some? ==> r.effort.value in c.reasoningLevels)
    && (r.responseFormat && c.parameters != {} ==> "response_format" in c.parameters || "structured_outputs" in c.parameters)
    && r.inputTokens + r.maxOutput <= c.contextLength
    && c.provider in w.providers && Serves(w.providers[c.provider])
    && (c.billing == Paid ==> r.allowPaid && w.allowPaid)
    && (c.billing == UserPays ==> r.allowUserPays && w.allowUserPays)
  }

  predicate Serves(p: Provider) {
    p.enabled && p.healthy != Some(false) && !p.credentialMissing && !p.accountMissing && !p.dailyExhausted && !p.monthlyExhausted
  }

  lemma PassesIff(w: World, p: Policy, r: Request, now: int, c: Candidate)
    ensures Passes(w, p, r, now, c) <==> Rejection(w, p, StickyFor(p, r.session, now).0, c, r).None?
    ensures Passes(w, p, r, now, c) <==> forall y :: !Fails(w, p, r, now, c, y)
  {
    LookupFinds(p, r.session, now);
    assert r.required <= c.capabilities <==> forall x :: x in r.required ==> x in c.capabilities;
    RejectionIsFirstFailure(w, p, r, now, c);
  }

  /** There is a route exactly when some model of the catalog passes; the chosen one does. */
  lemma RouteIffPasses(w: World, p: Policy, r: Request, catalog: seq<Candidate>, now: int)
    ensures Decide(w, p, r, catalog, now).Route? <==> exists c :: c in catalog && Passes(w, p, r, now, c)
    ensures Decide(w, p, r, catalog, now).Route? ==>
      var c := Decide(w, p, r, catalog, now).chosen.candidate; c in catalog && Passes(w, p, r, now, c)
  {
    forall c: Candidate ensures Eligible(w, p, r, now, c) <==> Passes(w, p, r, now, c) {
      PassesIff(w, p, r, now, c);
    }
    if Decide(w, p, r, catalog, now).Route? {
      ChosenIsEligible(w, p, r, catalog, now);
    }
    if c :| c in catalog && Passes(w, p, r, now, c) {
      ValidMembers(w, p, StickyFor(p, r.session, now).0, r, catalog, Scored(c, Score(w, c, r)));
    }
  }

  /** Without a route each model is reported with the first gate it fails, in catalog order. */
  lemma {:induction false} RejectionsTell(w: World, p: Policy, r: Request, catalog: seq<Candidate>, now: int)
    requires Valid(w, p, StickyFor(p, r.session, now).0, r, catalog) == []
    ensures var told := Rejections(w, p, StickyFor(p, r.session, now).0, r, catalog);
      && |told| == |catalog|
      && forall k :: 0 <= k < |catalog| ==>
        told[k].provider == catalog[k].provider && told[k].model == catalog[k].model && FirstFailure(w, p, r, now, catalog[k], Some(told[k].reason))
    decreases |catalog|
  {
    if catalog != [] {
      RejectionsTell(w, p, r, catalog[1..], now);
      RejectionIsFirstFailure(w, p, r, now, catalog[0]);
    }
  }

  /** The points of a model: its score for the task, what its billing is worth at the wanted quality, room to
      spare, and being a specialist or free where that is wanted. */
  lemma ScoreAddsUp(w: World, c: Candidate, r: Request)
    ensures Score(w, c, r)
      == (if c.taskScore.Some? then c.taskScore.value else 40.0)
      + (if !w.preferFree then 0.0
         else (if c.billing == Free then 35.0 else if c.billing == FreeQuota then 28.0 else if c.billing == UserPays then 18.0
               else if c.billing == Paid then 0.0 else -8.0)
              * (if r.quality == Economy then 1.0 else if r.quality == Balanced then 0.6 else 0.15))
      + (if c.contextLength > r.inputTokens + r.maxOutput + 64_000 then 6.0
         else if c.contextLength < r.inputTokens + r.maxOutput + 2048 then -12.0 else 0.0)
      + (if r.quality == High && c.taskScore.Some? && c.taskScore.value >= 75.0 then 12.0 else 0.0)
      + (if r.quality == Economy && (c.billing == Free || c.billing == FreeQuota) then 8.0 else 0.0)
  {
  }

  /** By code points: at the first difference, or at the end of the shorter. */
  predicate Sooner(a: string, b: string) {
    exists k :: 0 <= k <= |a| && k < |b| && a[..k] == b[..k] && (k == |a| || a[k] < b[k])
  }

  lemma {:induction false} StrLessIsSooner(a: string, b: string)
    ensures StrLess(a, b) <==> Sooner(a, b)
    decreases |a|
  {
    if a != "" && b != "" {
      StrLessIsSooner(a[1..], b[1..]);
      if a[0] == b[0] && Sooner(a[1..], b[1..]) {
        var k :| 0 <= k <= |a| - 1 && k < |b| - 1 && a[1..][..k] == b[1..][..k] && (k == |a| - 1 || a[1..][k] < b[1..][k]);
        assert a[..k + 1] == [a[0]] + a[1..][..k] && b[..k + 1] == [b[0]] + b[1..][..k];
      }
      if a[0] < b[0] {
        assert a[..0] == b[..0];
      }
      if Sooner(a, b) {
        var k :| 0 <= k <= |a| && k < |b| && a[..k] == b[..k] && (k == |a| || a[k] < b[k]);
        if k > 0 {
          assert a[..k][0] == a[0] && b[..k][0] == b[0];
          assert a[1..][..k - 1] == a[..k][1..] && b[1..][..k - 1] == b[..k][1..];
        }
      }
    } else if b != "" {
      assert a[..0] == b[..0];
    }
  }

  /** Where the provider stands in the order: at its first mention, or behind as many places as there are names. */
  predicate StandsAt(order: seq<string>, provider: string, n: nat) {
    if provider in order then 0 < n <= |order| && order[n - 1] == provider && provider !in order[..n - 1]
    else n == |set x | x in order| + 1
  }

  /** `a` goes before `b`: an earlier place, then more points, then the names. */
  ghost predicate GoesBefore(order: seq<string>, a: Scored, b: Scored) {
    exists m: nat, n: nat :: StandsAt(order, a.candidate.provider, m) && StandsAt(order, b.candidate.provider, n) &&
      (m < n || (m == n && (a.score > b.score || (a.score == b.score &&
        (Sooner(a.candidate.provider, b.candidate.provider)
         || (a.candidate.provider == b.candidate.provider && Sooner(a.candidate.model, b.candidate.model)))))))
  }

  lemma RankStands(order: seq<string>, provider: string, n: nat)
    ensures StandsAt(order, provider, n) <==> n == Rank(order, provider)
  {
    if provider in order && StandsAt(order, provider, n) {
      FirstIsOne(order, provider, IndexOf(order, provider), n - 1);
    }
  }

  lemma FirstIsOne(order: seq<string>, x: string, i: nat, j: nat)
    requires i < |order| && j < |order| && order[i] == order[j] == x && x !in order[..i] && x !in order[..j]
    ensures i == j
  {
    if i < j {
      MentionedBefore(order, x, i, j);
    } else if j < i {
      MentionedBefore(order, x, j, i);
    }
  }

  lemma MentionedBefore(order: seq<string>, x: string, i: nat, j: nat)
    requires i < j <= |order| && order[i] == x
    ensures x in order[..j]
  {
    assert order[..j][i] == x;
  }

  lemma BeforeIsGoesBefore(order: seq<string>, a: Scored, b: Scored)
    ensures Before(order, a, b) <==> GoesBefore(order, a, b)
  {
    var x, y := a.candidate, b.candidate;
    StrLessIsSooner(x.provider, y.provider);
    StrLessIsSooner(x.model, y.model);
    RankStands(order, x.provider, Rank(order, x.provider));
    RankStands(order, y.provider, Rank(order, y.provider));
    if GoesBefore(order, a, b) {
      var m: nat, n: nat :| StandsAt(order, x.provider, m) && StandsAt(order, y.provider, n) &&
        (m < n || (m == n && (a.score > b.score || (a.score == b.score &&
          (Sooner(x.provider, y.provider) || (x.provider == y.provider && Sooner(x.model, y.model)))))));
      RankStands(order, x.provider, m);
      RankStands(order, y.provider, n);
    }
  }

  /** No passing model, of those that cost something if `costing`, goes before this one. */
  ghost predicate Unbeaten(w: World, p: Policy, r: Request, catalog: seq<Candidate>, now: int, order: seq<string>, costing: bool, s: Scored) {
    && Runs(w, p, r, catalog, now, costing, s.candidate) && s.score == Score(w, s.candidate, r)
    && forall c :: Runs(w, p, r, catalog, now, costing, c) ==> !GoesBefore(order, Scored(c, Score(w, c, r)), s)
  }

  ghost predicate Runs(w: World, p: Policy, r: Request, catalog: seq<Candidate>, now: int, costing: bool, c: Candidate) {
    c in catalog && Passes(w, p, r, now, c) && (costing ==> c.billing == Paid || c.billing == UserPays)
  }

  /** The choice is unbeaten among the passing models; but when that one has less than 0, 35 or 55 points, by the
      wanted quality, and some passing model costs something, it is unbeaten among those that do. */
  ghost predicate ChosenWell(w: World, p: Policy, r: Request, catalog: seq<Candidate>, now: int, order: seq<string>, s: Scored) {
    exists best :: Unbeaten(w, p, r, catalog, now, order, false, best) &&
      if best.score < (if r.quality == Economy then 0.0 else if r.quality == Balanced then 35.0 else 55.0)
        && (exists c :: Runs(w, p, r, catalog, now, true, c))
      then Unbeaten(w, p, r, catalog, now, order, true, s) else s == best
  }

  lemma FirstIsUnbeaten(w: World, p: Policy, r: Request, catalog: seq<Candidate>, now: int, order: seq<string>, costing: bool, items: seq<Scored>)
    requires items != []
    requires forall s: Scored :: s in items <==> Runs(w, p, r, catalog, now, costing, s.candidate) && s.score == Score(w, s.candidate, r)
    ensures Unbeaten(w, p, r, catalog, now, order, costing, First(order, items))
  {
    forall c | Runs(w, p, r, catalog, now, costing, c) ensures !GoesBefore(order, Scored(c, Score(w, c, r)), First(order, items)) {
      FirstIsMinimal(order, items, Scored(c, Score(w, c, r)));
      BeforeIsGoesBefore(order, Scored(c, Score(w, c, r)), First(order, items));
    }
  }

  lemma ValidRuns(w: World, p: Policy, r: Request, catalog: seq<Candidate>, now: int, valid: seq<Scored>)
    requires valid == Valid(w, p, StickyFor(p, r.session, now).0, r, catalog)
    ensures forall s: Scored :: s in valid <==> Runs(w, p, r, catalog, now, false, s.candidate) && s.score == Score(w, s.candidate, r)
    ensures forall s: Scored :: s in PaidOnly(valid) <==> Runs(w, p, r, catalog, now, true, s.candidate) && s.score == Score(w, s.candidate, r)
  {
    forall s: Scored
      ensures s in valid <==> Runs(w, p, r, catalog, now, false, s.candidate) && s.score == Score(w, s.candidate, r)
      ensures s in PaidOnly(valid) <==> Runs(w, p, r, catalog, now, true, s.candidate) && s.score == Score(w, s.candidate, r)
    {
      ValidMembers(w, p, StickyFor(p, r.session, now).0, r, catalog, s);
      PaidMembers(valid, s);
      PassesIff(w, p, r, now, s.candidate);
    }
  }

  /** The decision, in the order of the request or else of the policy. */
  lemma RouteIsChosenWell(w: World, p: Policy, r: Request, catalog: seq<Candidate>, now: int)
    requires Decide(w, p, r, catalog, now).Route?
    ensures ChosenWell(w, p, r, catalog, now, if r.preferred != [] then r.preferred else ProviderOrder(p, r.session, now),
                       Decide(w, p, r, catalog, now).chosen)
  {
    var valid, order := Valid(w, p, StickyFor(p, r.session, now).0, r, catalog), OrderFor(p, r, now);
    ValidRuns(w, p, r, catalog, now, valid);
    FirstIsUnbeaten(w, p, r, catalog, now, order, false, valid);
    assert forall c :: Runs(w, p, r, catalog, now, true, c) ==> Scored(c, Score(w, c, r)) in PaidOnly(valid);
    if PaidOnly(valid) != [] {
      FirstIsUnbeaten(w, p, r, catalog, now, order, true, PaidOnly(valid));
      assert Runs(w, p, r, catalog, now, true, PaidOnly(valid)[0].candidate);
    }
  }

  /** A decision drops expired pins exactly when it asks for one: to check an enabled model outside manual mode,
      or for the order of a route without preferences. */
  lemma DecisionLeaves(w: World, p: Policy, r: Request, catalog: seq<Candidate>, now: int)
    ensures var asks := (p.mode != Manual && exists k :: 0 <= k < |catalog| && catalog[k].enabled)
        || (r.preferred == [] && exists c :: c in catalog && Passes(w, p, r, now, c));
      PolicyAfter(w, p, r, catalog, now) == if asks then StickyFor(p, r.session, now).1 else p
  {
    RouteIffPasses(w, p, r, catalog, now);
    if c :| c in catalog && c.enabled {
      var k :| 0 <= k < |catalog| && catalog[k] == c;
    }
    assert forall k :: 0 <= k < |catalog| ==> catalog[k] in catalog;
  }
}
