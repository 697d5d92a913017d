// Executing a locked route: one retry on a rate limit, and moving on to the next provider on exhausted quota.

module QuotaFallback {
  import opened Text
  import opened ProviderPolicy
  import opened Routing

  // ---- classify_provider_failure ----

  datatype Availability = RateLimited | QuotaExhausted | Unavailable | AuthenticationFailure | SecurityDenied

  /** The evidence a provider error carries; `reached` is already in lower case. */
  datatype Failure = Failure(statusCode: Option<int>, reached: string, quotaExhausted: bool, securityDenied: bool,
                             retryAfter: bool, resetAt: Option<int>)

  const QUOTA_SIGNS := ["quota", "credit", "monthly", "daily", "usage_limit", "limit_reached", "exhausted"]

  function Classify(f: Failure): Availability {
    if f.securityDenied then SecurityDenied
    else if f.quotaExhausted then QuotaExhausted
    else if exists sign :: sign in QUOTA_SIGNS && Find(f.reached, sign, 0) >= 0 then QuotaExhausted
    else if f.statusCode == Some(402) then QuotaExhausted
    else if f.statusCode == Some(429) then RateLimited
    else if f.statusCode == Some(401) || f.statusCode == Some(403) then AuthenticationFailure
    else Unavailable
  }

  // ---- the same evidence, field by field ----

  predicate Mentions(text: string, word: string) {
    exists i :: 0 <= i <= |text| && OccursAt(text, word, i)
  }

  predicate NamesQuota(reached: string) {
    Mentions(reached, "quota") || Mentions(reached, "credit") || Mentions(reached, "monthly") || Mentions(reached, "daily")
      || Mentions(reached, "usage_limit") || Mentions(reached, "limit_reached") || Mentions(reached, "exhausted")
  }

  /** The failure says that quota is used up, and is no denial. */
  predicate QuotaOut(f: Failure) {
    !f.securityDenied && (f.quotaExhausted || NamesQuota(f.reached) || f.statusCode == Some(402))
  }

  /** It is a 429 without any of that. */
  predicate Throttled(f: Failure) {
    !f.securityDenied && !f.quotaExhausted && !NamesQuota(f.reached) && f.statusCode == Some(429)
  }

  lemma MentionsIsFind(text: string, word: string)
    ensures Mentions(text, word) <==> Find(text, word, 0) >= 0
  {
    if Mentions(text, word) {
      var i :| 0 <= i <= |text| && OccursAt(text, word, i);
    }
    if Find(text, word, 0) >= 0 {
      assert OccursAt(text, word, Find(text, word, 0));
    }
  }

  lemma SignsAre(reached: string)
    ensures NamesQuota(reached) <==> exists sign :: sign in QUOTA_SIGNS && Find(reached, sign, 0) >= 0
  {
    forall sign ensures Mentions(reached, sign) <==> Find(reached, sign, 0) >= 0 {
      MentionsIsFind(reached, sign);
    }
    assert QUOTA_SIGNS[0] == "quota" && QUOTA_SIGNS[1] == "credit" && QUOTA_SIGNS[2] == "monthly" && QUOTA_SIGNS[3] == "daily";
    assert QUOTA_SIGNS[4] == "usage_limit" && QUOTA_SIGNS[5] == "limit_reached" && QUOTA_SIGNS[6] == "exhausted";
    if NamesQuota(reached) {
      var k :| 0 <= k < |QUOTA_SIGNS| && Mentions(reached, QUOTA_SIGNS[k]);
      assert QUOTA_SIGNS[k] in QUOTA_SIGNS;
    }
  }

  /** The two classes the loop acts on. */
  lemma ClassifyIs(f: Failure)
    ensures Classify(f) == QuotaExhausted <==> QuotaOut(f)
    ensures Classify(f) == RateLimited <==> Throttled(f)
  {
    SignsAre(f.reached);
  }

  // ---- one run of _execute_with_quota_fallback ----

  datatype Attempt = Completed(text: string) | ProviderError(failure: Failure) | OtherError

  /** What attempt number `n` meets: the provider's answer, and the world and clock at the decision after it. */
  datatype Env = Env(execute: nat -> Attempt, world: nat -> World, clock: nat -> int)

  /** `at` is the time of the decision that chose `to`. */
  datatype Hop = Hop(from: string, to: string, resetAt: Option<int>, at: int)

  /** The loop's variables, and `calls`, the providers executed so far. */
  datatype State = State(request: Request, chosen: Scored, failed: seq<string>, hops: seq<Hop>, retried: bool,
                         policy: Policy, calls: seq<string>)

  datatype Result = Answer(text: string) | Raised

  datatype Final = Final(result: Result, st: State)

  function ProviderOf(st: State): string {
    st.chosen.candidate.provider
  }

  /** The request after quota ran out: preferences filled in, tried providers excluded. */
  function NextRequest(st: State, now: int): Request {
    var failed := st.failed + [ProviderOf(st)];
    st.request.(preferred := OrderFor(st.policy, st.request, now), excluded := Dedup(st.request.excluded + failed))
  }

  /** Filling in the preferences asks for the pin. */
  function OrderPolicy(st: State, now: int): Policy {
    if st.request.preferred == [] then StickyFor(st.policy, st.request.session, now).1 else st.policy
  }

  /** The state after a fallback, or None when no route is left. */
  function Advance(env: Env, catalog: seq<Candidate>, st: State, failure: Failure): (State, bool) {
    var n := |st.calls|;
    var now, request := env.clock(n), NextRequest(st, env.clock(n));
    var p := OrderPolicy(st, now);
    var d := Decide(env.world(n), p, request, catalog, now);
    var q := PolicyAfter(env.world(n), p, request, catalog, now);
    var failed := st.failed + [ProviderOf(st)];
    if d.NoRoute? then (st.(policy := q, failed := failed), false)
    else
      var to := d.chosen.candidate.provider;
      (State(request, d.chosen, failed, st.hops + [Hop(ProviderOf(st), to, failure.resetAt, now)], false,
             Stuck(q, to, failure.resetAt, st.request.session), st.calls), true)
  }

  function Called(st: State): State {
    st.(calls := st.calls + [ProviderOf(st)])
  }

  /** Providers of the catalog that may still be tried. */
  function Untried(catalog: seq<Candidate>, st: State): set<string> {
    (set c | c in catalog :: c.provider) - (set f | f in st.failed) - {ProviderOf(st)}
  }

  lemma AdvanceShrinks(env: Env, catalog: seq<Candidate>, st: State, failure: Failure)
    requires Advance(env, catalog, st, failure).1
    ensures var next := Advance(env, catalog, st, failure).0;
      Untried(catalog, next) < Untried(catalog, st) && ProviderOf(next) !in next.request.excluded
  {
    var n := |st.calls|;
    var now := env.clock(n);
    var request, p := NextRequest(st, now), OrderPolicy(st, now);
    var next := Advance(env, catalog, st, failure).0;
    PinForcesProvider(env.world(n), p, request, catalog, now);
    ChosenIsEligible(env.world(n), p, request, catalog, now);
    var to := ProviderOf(next);
    forall f | f in next.failed ensures f in request.excluded {
      assert f in st.request.excluded + next.failed;
    }
    assert forall f :: f in st.failed ==> f in next.failed;
    assert ProviderOf(st) in next.failed;
    assert to in Untried(catalog, st) by {
      assert to in (set c | c in catalog :: c.provider);
    }
    assert to !in Untried(catalog, next);
  }

  /** The loop from a state on. */
  function Loop(env: Env, catalog: seq<Candidate>, st: State): Final
    decreases Untried(catalog, st), if st.retried then 0 else 1
  {
    var attempt, now := env.execute(|st.calls|), Called(st);
    match attempt
    case Completed(text) => Final(Answer(text), now)
    case OtherError => Final(Raised, now)
    case ProviderError(f) =>
      if Classify(f) == RateLimited && !st.retried && f.retryAfter then
        assert Untried(catalog, now.(retried := true)) == Untried(catalog, st);
        Loop(env, catalog, now.(retried := true))
      else if Classify(f) == QuotaExhausted then
        var (next, routed) := Advance(env, catalog, now, f);
        if !routed then Final(Raised, next)
        else
          AdvanceShrinks(env, catalog, now, f);
          assert Untried(catalog, now) == Untried(catalog, st);
          Loop(env, catalog, next)
      else Final(Raised, now)
  }

  function Start(request: Request, chosen: Scored, policy: Policy): State {
    State(request, chosen, [], [], false, policy, [])
  }

  method ExecuteWithQuotaFallback(env: Env, catalog: seq<Candidate>, request: Request, decision: Scored, policy: ProviderRoutingPolicy)
    returns (result: Result, chosen: Scored, hops: seq<Hop>, currentRequest: Request, ghost calls: seq<string>)
    modifies policy`sticky, policy`sessionSticky
    ensures var end := Loop(env, catalog, Start(request, decision, old(policy.Value())));
      && result == end.result && chosen == end.st.chosen && hops == end.st.hops && currentRequest == end.st.request
      && calls == end.st.calls && policy.Value() == end.st.policy
  {
    currentRequest, chosen, hops, calls := request, decision, [], [];
    var failed: seq<string>, retried, n := [], false, 0;
    ghost var end := Loop(env, catalog, Start(request, decision, policy.Value()));
    ghost var st := Start(request, decision, policy.Value());
    while true
      invariant st == State(currentRequest, chosen, failed, hops, retried, policy.Value(), calls) && n == |calls|
      invariant Loop(env, catalog, st) == end
      decreases Untried(catalog, st), if retried then 0 else 1
    {
      ghost var now := Called(st);
      assert Untried(catalog, now) == Untried(catalog, st) == Untried(catalog, now.(retried := true));
      var attempt := env.execute(n);
      n := n + 1;
      calls := calls + [chosen.candidate.provider];
      if attempt.Completed? {
        return Answer(attempt.text), chosen, hops, currentRequest, calls;
      }
      if attempt.OtherError? {
        return Raised, chosen, hops, currentRequest, calls;
      }
      var state := Classify(attempt.failure);
      if state == RateLimited && !retried && attempt.failure.retryAfter {
        retried := true;
        st := now.(retried := true);
        continue;
      }
      if state != QuotaExhausted {
        return Raised, chosen, hops, currentRequest, calls;
      }
      var routed;
      ghost var advanced := Advance(env, catalog, now, attempt.failure);
      routed, currentRequest, chosen, failed, hops := FallBack(env, catalog, attempt.failure, policy, currentRequest, chosen, failed, hops, n, now);
      if !routed {
        return Raised, chosen, hops, currentRequest, calls;
      }
      AdvanceShrinks(env, catalog, now, attempt.failure);
      retried := false;
      st := advanced.0;
    }
  }

  /** The quota branch of the loop. */
  method FallBack(env: Env, catalog: seq<Candidate>, failure: Failure, policy: ProviderRoutingPolicy,
                  request: Request, chosen: Scored, failed: seq<string>, hops: seq<Hop>, n: nat, ghost st: State)
    returns (routed: bool, request': Request, chosen': Scored, failed': seq<string>, hops': seq<Hop>)
    requires st.request == request && st.chosen == chosen && st.failed == failed && st.hops == hops && |st.calls| == n
    requires st.policy == policy.Value()
    modifies policy`sticky, policy`sessionSticky
    ensures var (next, ok) := Advance(env, catalog, st, failure);
      && routed == ok && request' == next.request && chosen' == next.chosen && failed' == next.failed && hops' == next.hops
      && policy.Value() == next.policy
  {
    var provider, now := chosen.candidate.provider, env.clock(n);
    failed' := failed + [provider];
    var order := request.preferred;
    if order == [] {
      order := policy.Order(request.session, now);
    }
    var nextRequest := request.(preferred := order, excluded := Dedup(request.excluded + failed'));
    var d := DecideRoute(env.world(n), policy, nextRequest, catalog, now);
    if d.NoRoute? {
      return false, request, chosen, failed', hops;
    }
    var to := d.chosen.candidate.provider;
    hops' := hops + [Hop(provider, to, failure.resetAt, now)];
    policy.Stick(to, failure.resetAt, request.session);
    routed, request', chosen' := true, nextRequest, d.chosen;
  }

  // ---- what every run keeps ----

  /** The hops lead from `first` to `last`, each from where the one before arrived. */
  predicate Chain(first: string, hops: seq<Hop>, last: string) {
    if hops == [] then first == last
    else hops[|hops| - 1].to == last && Chain(first, hops[..|hops| - 1], hops[|hops| - 1].from)
  }

  predicate Distinct(s: seq<string>) {
    forall i, j :: 0 <= i < j < |s| ==> s[i] != s[j]
  }

  /** Only the preferences and the exclusions of the locked request differ. */
  predicate SameLocks(a: Request, b: Request) {
    b == a.(preferred := b.preferred, excluded := b.excluded)
  }

  /** At every time before its reset the last hop's pin decides for the session. */
  ghost predicate Pinned(st: State) {
    st.hops != [] ==>
      var hop := st.hops[|st.hops| - 1];
      forall now: int :: (hop.resetAt.None? || hop.resetAt.value > now) ==> StickyFor(st.policy, st.request.session, now).0 == Some(hop.to)
  }

  /** Each hop but the first was decided after the reset time of the hop before. */
  predicate WaitedForReset(hops: seq<Hop>) {
    forall i :: 0 <= i < |hops| - 1 ==> hops[i].resetAt.Some? && hops[i].resetAt.value <= hops[i + 1].at
  }

  /** The providers left behind, in order. */
  function Left(hops: seq<Hop>): (froms: seq<string>)
    ensures |froms| == |hops| && forall i :: 0 <= i < |hops| ==> froms[i] == hops[i].from
  {
    seq(|hops|, i requires 0 <= i < |hops| => hops[i].from)
  }

  /** What holds of a run so far, whether it goes on or has ended. */
  ghost predicate Lawful(start: Request, first: string, st: State) {
    && SameLocks(start, st.request)
    && Chain(first, st.hops, ProviderOf(st))
    && Distinct(Left(st.hops) + [ProviderOf(st)])
    && (forall hop :: hop in st.hops ==> hop.to !in start.excluded)
    && (st.policy.mode != Manual ==> WaitedForReset(st.hops))
    && (forall x :: multiset(st.calls)[x] <= 2)
    && (forall x :: x in st.calls ==> x in Left(st.hops) || x == ProviderOf(st))
  }

  /** What else holds at the head of the loop. */
  ghost predicate Going(start: Request, st: State) {
    && st.failed == Left(st.hops)
    && (forall x :: x in start.excluded || x in st.failed ==> x in st.request.excluded)
    && (st.policy.mode != Manual ==> Pinned(st))
    && multiset(st.calls)[ProviderOf(st)] == (if st.retried then 1 else 0)
  }

  lemma CallKeepsLawful(start: Request, first: string, st: State)
    requires Lawful(start, first, st) && Going(start, st)
    ensures Lawful(start, first, Called(st))
    ensures !st.retried ==> Going(start, Called(st).(retried := true))
  {
    var now := Called(st);
    assert multiset(now.calls) == multiset(st.calls) + multiset{ProviderOf(st)};
  }

  lemma PolicyModeKept(w: World, p: Policy, r: Request, catalog: seq<Candidate>, now: int)
    ensures PolicyAfter(w, p, r, catalog, now).mode == p.mode
  {
    StickyForKeepsMode(p, r.session, now);
  }

  lemma StuckPins(p: Policy, request: Request, chosen: Scored, failed: seq<string>, hops: seq<Hop>, hop: Hop, calls: seq<string>, session: Option<string>)
    requires request.session == session
    ensures Pinned(State(request, chosen, failed, hops + [hop], false, Stuck(p, hop.to, hop.resetAt, session), calls))
  {
    forall now: int | hop.resetAt.None? || hop.resetAt.value > now
      ensures StickyFor(Stuck(p, hop.to, hop.resetAt, session), session, now).0 == Some(hop.to)
    {
      PinHoldsUntilReset(p, hop.to, hop.resetAt, session, now);
    }
  }

  /** `next` is one hop behind `st`, decided at time `now`. */
  ghost predicate IsHop(st: State, next: State, hop: Hop) {
    && hop.from == ProviderOf(st) && hop.to == ProviderOf(next) && next.hops == st.hops + [hop]
    && next.failed == st.failed + [ProviderOf(st)] && next.calls == st.calls && !next.retried
    && SameLocks(st.request, next.request) && next.policy.mode == st.policy.mode
    && (forall x :: x in next.request.excluded <==> x in st.request.excluded || x in next.failed)
    && ProviderOf(next) !in next.request.excluded
    && (st.policy.mode != Manual ==> PinAllows(st, hop))
    && Pinned(next)
  }

  /** No pin of the session stands against the hop at its time. */
  predicate PinAllows(st: State, hop: Hop) {
    var pinned := StickyFor(st.policy, st.request.session, hop.at).0;
    pinned.None? || pinned == Some(hop.to)
  }

  lemma HopDecision(env: Env, catalog: seq<Candidate>, st: State, failure: Failure) returns (hop: Hop)
    requires Advance(env, catalog, st, failure).1
    ensures IsHop(st, Advance(env, catalog, st, failure).0, hop)
    ensures hop.resetAt == failure.resetAt && hop.at == env.clock(|st.calls|)
  {
    var n := |st.calls|;
    var now := env.clock(n);
    var request, p := NextRequest(st, now), OrderPolicy(st, now);
    var q := PolicyAfter(env.world(n), p, request, catalog, now);
    PinForcesProvider(env.world(n), p, request, catalog, now);
    StickyForIsIdempotent(st.policy, st.request.session, now);
    StickyForKeepsMode(st.policy, st.request.session, now);
    PolicyModeKept(env.world(n), p, request, catalog, now);
    var next := Advance(env, catalog, st, failure).0;
    hop := Hop(ProviderOf(st), ProviderOf(next), failure.resetAt, now);
    StuckPins(q, request, next.chosen, next.failed, st.hops, hop, st.calls, st.request.session);
    forall x ensures x in request.excluded <==> x in st.request.excluded || x in next.failed {
      assert x in request.excluded <==> x in st.request.excluded + next.failed;
    }
  }

  lemma LeftAppend(hops: seq<Hop>, hop: Hop)
    ensures Left(hops + [hop]) == Left(hops) + [hop.from]
  {
  }

  lemma ChainAppend(first: string, hops: seq<Hop>, hop: Hop)
    requires Chain(first, hops, hop.from)
    ensures Chain(first, hops + [hop], hop.to)
  {
    assert (hops + [hop])[..|hops|] == hops;
  }

  lemma DistinctAppend(s: seq<string>, x: string)
    requires Distinct(s) && x !in s
    ensures Distinct(s + [x])
  {
  }

  /** A hop can only be decided once the pin of the hop before has run out. */
  lemma HopWaits(st: State, hop: Hop)
    requires st.hops != [] && Pinned(st) && PinAllows(st, hop) && hop.to != st.hops[|st.hops| - 1].to
    ensures var last := st.hops[|st.hops| - 1]; last.resetAt.Some? && last.resetAt.value <= hop.at
  {
  }

  lemma WaitAppend(hops: seq<Hop>, hop: Hop)
    requires WaitedForReset(hops)
    requires hops != [] ==> hops[|hops| - 1].resetAt.Some? && hops[|hops| - 1].resetAt.value <= hop.at
    ensures WaitedForReset(hops + [hop])
  {
    var all := hops + [hop];
    forall i | 0 <= i < |all| - 1 ensures all[i].resetAt.Some? && all[i].resetAt.value <= all[i + 1].at {
      assert all[i] == hops[i];
      if i < |hops| - 1 { assert all[i + 1] == hops[i + 1]; }
    }
  }

  lemma ChainEnds(first: string, hops: seq<Hop>, last: string)
    requires Chain(first, hops, last) && hops != []
    ensures hops[|hops| - 1].to == last
  {
  }

  lemma HopKeepsGoing(start: Request, first: string, st: State, next: State, hop: Hop)
    requires Lawful(start, first, st) && IsHop(st, next, hop) && st.failed == Left(st.hops)
    requires forall x :: x in start.excluded || x in st.failed ==> x in st.request.excluded
    ensures Going(start, next)
  {
    LeftAppend(st.hops, hop);
    assert ProviderOf(next) !in st.calls;
  }

  lemma HopKeepsLawful(start: Request, first: string, st: State, next: State, hop: Hop)
    requires Lawful(start, first, st) && IsHop(st, next, hop) && st.failed == Left(st.hops)
    requires forall x :: x in start.excluded || x in st.failed ==> x in st.request.excluded
    requires st.policy.mode != Manual ==> Pinned(st)
    ensures Lawful(start, first, next)
  {
    LeftAppend(st.hops, hop);
    ChainAppend(first, st.hops, hop);
    DistinctAppend(Left(st.hops) + [hop.from], hop.to);
    if st.policy.mode != Manual {
      if st.hops != [] {
        ChainEnds(first, st.hops, hop.from);
        HopWaits(st, hop);
      }
      WaitAppend(st.hops, hop);
    }
  }

  lemma AdvanceKeepsLawful(env: Env, catalog: seq<Candidate>, start: Request, first: string, st: State, failure: Failure)
    requires Lawful(start, first, st) && Advance(env, catalog, st, failure).1 && st.failed == Left(st.hops)
    requires forall x :: x in start.excluded || x in st.failed ==> x in st.request.excluded
    requires st.policy.mode != Manual ==> Pinned(st)
    ensures var next := Advance(env, catalog, st, failure).0;
      Lawful(start, first, next) && Going(start, next) && next.policy.mode == st.policy.mode
  {
    var hop := HopDecision(env, catalog, st, failure);
    var next := Advance(env, catalog, st, failure).0;
    HopKeepsGoing(start, first, st, next, hop);
    HopKeepsLawful(start, first, st, next, hop);
  }

  /** One turn of the loop that does not end it: the state at its head again. */
  function Turn(env: Env, catalog: seq<Candidate>, st: State): Option<State> {
    var attempt, now := env.execute(|st.calls|), Called(st);
    if !attempt.ProviderError? then None
    else if Classify(attempt.failure) == RateLimited && !st.retried && attempt.failure.retryAfter then Some(now.(retried := true))
    else if Classify(attempt.failure) != QuotaExhausted || !Advance(env, catalog, now, attempt.failure).1 then None
    else Some(Advance(env, catalog, now, attempt.failure).0)
  }

  lemma TurnGoes(env: Env, catalog: seq<Candidate>, start: Request, first: string, st: State, next: State)
    requires Lawful(start, first, st) && Going(start, st) && Turn(env, catalog, st) == Some(next)
    ensures Lawful(start, first, next) && Going(start, next)
  {
    var f, now := env.execute(|st.calls|).failure, Called(st);
    CallKeepsLawful(start, first, st);
    if !(Classify(f) == RateLimited && !st.retried && f.retryAfter) {
      AdvanceKeepsLawful(env, catalog, start, first, now, f);
    }
  }

  lemma TurnIsLoop(env: Env, catalog: seq<Candidate>, st: State, next: State)
    requires Turn(env, catalog, st) == Some(next)
    ensures Loop(env, catalog, next) == Loop(env, catalog, st)
  {
  }

  lemma NoRouteKeeps(env: Env, catalog: seq<Candidate>, st: State, failure: Failure)
    requires !Advance(env, catalog, st, failure).1
    ensures var next := Advance(env, catalog, st, failure).0;
      next == st.(policy := next.policy, failed := next.failed) && next.policy.mode == st.policy.mode
  {
    var n, now := |st.calls|, env.clock(|st.calls|);
    StickyForKeepsMode(st.policy, st.request.session, now);
    PolicyModeKept(env.world(n), OrderPolicy(st, now), NextRequest(st, now), catalog, now);
  }

  lemma TurnShrinks(env: Env, catalog: seq<Candidate>, st: State, next: State)
    requires Turn(env, catalog, st) == Some(next)
    ensures Untried(catalog, next) < Untried(catalog, st) || (Untried(catalog, next) == Untried(catalog, st) && next.retried && !st.retried)
    ensures next.policy.mode == st.policy.mode
  {
    var f, now := env.execute(|st.calls|).failure, Called(st);
    assert Untried(catalog, now) == Untried(catalog, st) == Untried(catalog, now.(retried := true));
    if !(Classify(f) == RateLimited && !st.retried && f.retryAfter) {
      AdvanceShrinks(env, catalog, now, f);
      var hop := HopDecision(env, catalog, now, f);
    }
  }

  lemma LastTurn(env: Env, catalog: seq<Candidate>, start: Request, first: string, st: State)
    requires Lawful(start, first, st) && Going(start, st) && Turn(env, catalog, st).None?
    ensures Lawful(start, first, Loop(env, catalog, st).st)
    ensures Loop(env, catalog, st).st.policy.mode == st.policy.mode
  {
    CallKeepsLawful(start, first, st);
    var attempt, now := env.execute(|st.calls|), Called(st);
    if attempt.ProviderError? && !Advance(env, catalog, now, attempt.failure).1 {
      NoRouteKeeps(env, catalog, now, attempt.failure);
    }
  }

  /** Every run from a lawful state ends lawfully. */
  lemma {:induction false} LoopIsLawful(env: Env, catalog: seq<Candidate>, start: Request, first: string, st: State)
    requires Lawful(start, first, st) && Going(start, st)
    ensures Lawful(start, first, Loop(env, catalog, st).st)
    ensures Loop(env, catalog, st).st.policy.mode == st.policy.mode
    decreases Untried(catalog, st), if st.retried then 0 else 1
  {
    if Turn(env, catalog, st).Some? {
      var next := Turn(env, catalog, st).value;
      TurnGoes(env, catalog, start, first, st, next);
      TurnShrinks(env, catalog, st, next);
      TurnIsLoop(env, catalog, st, next);
      LoopIsLawful(env, catalog, start, first, next);
    } else {
      LastTurn(env, catalog, start, first, st);
    }
  }

  // ---- main results ----

  /** Over every run: only preferences and exclusions of the locked request change; the hops are a chain
      of distinct providers from the locked route to the returned one, none of them excluded by the caller;
      no provider is executed more than twice; and outside manual mode every further hop waited for the
      reset time of the hop before. */
  lemma FallbackRunIsLawful(env: Env, catalog: seq<Candidate>, request: Request, decision: Scored, policy: Policy)
    ensures var st := Loop(env, catalog, Start(request, decision, policy)).st;
      && SameLocks(request, st.request)
      && Chain(decision.candidate.provider, st.hops, ProviderOf(st))
      && Distinct(Left(st.hops) + [ProviderOf(st)])
      && (forall hop :: hop in st.hops ==> hop.to !in request.excluded)
      && (forall x :: multiset(st.calls)[x] <= 2 && (x in st.calls ==> x in Left(st.hops) + [ProviderOf(st)]))
      && (policy.mode != Manual ==> WaitedForReset(st.hops))
  {
    LoopIsLawful(env, catalog, request, decision.candidate.provider, Start(request, decision, policy));
  }

  /** A route is found exactly when some catalog model passes every gate. */
  lemma RouteIffEligible(w: World, p: Policy, r: Request, catalog: seq<Candidate>, now: int)
    ensures Decide(w, p, r, catalog, now).Route? <==> exists c :: c in catalog && Eligible(w, p, r, now, c)
  {
    ValidIsEligible(w, p, r, catalog, now);
    var valid := Valid(w, p, StickyFor(p, r.session, now).0, r, catalog);
    if valid != [] {
      assert valid[0] in EligibleSet(w, p, r, catalog, now);
    }
    if c :| c in catalog && Eligible(w, p, r, now, c) {
      assert Scored(c, Score(w, c, r)) in EligibleSet(w, p, r, catalog, now);
    }
  }

  /** A quota failure right after a hop moves on exactly when that hop's pin has run out and some catalog
      model is eligible for the next request; while the pin is live the run ends with the provider's error. */
  lemma SecondHopNeedsExpiredPin(env: Env, catalog: seq<Candidate>, st: State, failure: Failure)
    requires st.policy.mode != Manual && Pinned(st) && st.hops != [] && st.hops[|st.hops| - 1].to == ProviderOf(st)
    ensures var last, n := st.hops[|st.hops| - 1], |st.calls|; var now := env.clock(n);
      Advance(env, catalog, st, failure).1 <==>
        && last.resetAt.Some? && last.resetAt.value <= now
        && exists c :: c in catalog && Eligible(env.world(n), OrderPolicy(st, now), NextRequest(st, now), now, c)
  {
    var last, n := st.hops[|st.hops| - 1], |st.calls|;
    var now := env.clock(n);
    var w, p, request := env.world(n), OrderPolicy(st, now), NextRequest(st, now);
    StickyForIsIdempotent(st.policy, st.request.session, now);
    StickyForKeepsMode(st.policy, st.request.session, now);
    assert ProviderOf(st) in request.excluded by {
      assert ProviderOf(st) in st.request.excluded + (st.failed + [ProviderOf(st)]);
    }
    if last.resetAt.None? || last.resetAt.value > now {
      ExcludedPinHasNoRoute(w, p, request, catalog, now);
    } else {
      RouteIffEligible(w, p, request, catalog, now);
    }
  }

  // ---- the next route, by the gates alone ----

  ghost predicate SomeonePasses(w: World, p: Policy, r: Request, catalog: seq<Candidate>, now: int) {
    exists c :: c in catalog && Passes(w, p, r, now, c)
  }

  /** Asking for the pin first does not change who passes. */
  lemma PassesAlike(w: World, p: Policy, r: Request, now: int, c: Candidate)
    ensures Passes(w, StickyFor(p, r.session, now).1, r, now, c) <==> Passes(w, p, r, now, c)
  {
    var q := StickyFor(p, r.session, now).1;
    StickyForIsIdempotent(p, r.session, now);
    StickyForKeepsMode(p, r.session, now);
    LookupFinds(p, r.session, now);
    LookupFinds(q, r.session, now);
  }

  /** What the next request asks for: the preferences the request had, or the policy's; and not the providers
      excluded or tried before, nor the one that just failed. */
  ghost predicate IsNextRequest(st: State, now: int, r: Request) {
    && SameLocks(st.request, r)
    && r.preferred == (if st.request.preferred != [] then st.request.preferred else ProviderOrder(st.policy, st.request.session, now))
    && (forall x :: x in r.excluded <==> x in st.request.excluded || x in st.failed || x == ProviderOf(st))
  }

  lemma NextRequestIs(st: State, now: int)
    ensures IsNextRequest(st, now, NextRequest(st, now))
  {
    var r, tried := NextRequest(st, now), st.failed + [ProviderOf(st)];
    forall x ensures x in r.excluded <==> x in st.request.excluded || x in st.failed || x == ProviderOf(st) {
      assert x in tried <==> x in st.failed || x == ProviderOf(st);
      assert x in r.excluded <==> x in st.request.excluded + tried;
    }
  }

  lemma AdvanceIffPasses(env: Env, catalog: seq<Candidate>, st: State, failure: Failure)
    ensures var n := |st.calls|;
      Advance(env, catalog, st, failure).1 <==> SomeonePasses(env.world(n), st.policy, NextRequest(st, env.clock(n)), catalog, env.clock(n))
  {
    var n := |st.calls|;
    var w, now, r := env.world(n), env.clock(n), NextRequest(st, env.clock(n));
    RouteIffPasses(w, OrderPolicy(st, now), r, catalog, now);
    forall c: Candidate ensures Passes(w, OrderPolicy(st, now), r, now, c) <==> Passes(w, st.policy, r, now, c) {
      PassesAlike(w, st.policy, r, now, c);
    }
  }

  /** The states at the head of the loop, one turn after the other. */
  ghost predicate Heads(env: Env, catalog: seq<Candidate>, start: State, heads: seq<State>) {
    && heads != [] && heads[0] == start
    && forall k :: 0 < k < |heads| ==> Turn(env, catalog, heads[k - 1]) == Some(heads[k])
  }

  lemma StartGoes(request: Request, decision: Scored, policy: Policy, st: State)
    requires st == Start(request, decision, policy)
    ensures Lawful(request, decision.candidate.provider, st) && Going(request, st)
  {
  }

  /** Every head of every run is one of the states the laws are about. */
  lemma {:induction false} HeadsGo(env: Env, catalog: seq<Candidate>, request: Request, first: string, start: State, heads: seq<State>, k: nat)
    requires Lawful(request, first, start) && Going(request, start) && Heads(env, catalog, start, heads) && k < |heads|
    ensures Lawful(request, first, heads[k]) && Going(request, heads[k])
    decreases k
  {
    if k > 0 {
      HeadsGo(env, catalog, request, first, start, heads, k - 1);
      TurnGoes(env, catalog, request, first, heads[k - 1], heads[k]);
    }
  }

  /** From each of its heads a run goes on to the same end. */
  lemma {:induction false} HeadsLoop(env: Env, catalog: seq<Candidate>, start: State, heads: seq<State>, k: nat)
    requires Heads(env, catalog, start, heads) && k < |heads|
    ensures Loop(env, catalog, heads[k]) == Loop(env, catalog, start)
    decreases k
  {
    if k > 0 {
      HeadsLoop(env, catalog, start, heads, k - 1);
      TurnIsLoop(env, catalog, heads[k - 1], heads[k]);
    }
  }

  /** Quota ran out at this head of the loop, for a provider that was moved to. */
  predicate FailsAgain(env: Env, st: State) {
    var attempt := env.execute(|st.calls|);
    st.hops != [] && st.policy.mode != Manual && attempt.ProviderError? && QuotaOut(attempt.failure)
  }

  /** At every head a run reaches behind a hop, exhausted quota is answered by another hop exactly when the pin
      of the hop before has run out and some catalog model is eligible for the next request. */
  lemma NextHopIff(env: Env, catalog: seq<Candidate>, request: Request, decision: Scored, policy: Policy, heads: seq<State>, st: State)
    requires Heads(env, catalog, Start(request, decision, policy), heads) && st == heads[|heads| - 1] && FailsAgain(env, st)
    ensures var last, n := st.hops[|st.hops| - 1], |st.calls| + 1;
      Turn(env, catalog, st).Some? <==>
        && last.resetAt.Some? && last.resetAt.value <= env.clock(n)
        && SomeonePasses(env.world(n), st.policy, NextRequest(Called(st), env.clock(n)), catalog, env.clock(n))
  {
    StartGoes(request, decision, policy, Start(request, decision, policy));
    HeadsGo(env, catalog, request, decision.candidate.provider, Start(request, decision, policy), heads, |heads| - 1);
    StandsOnPin(request, decision.candidate.provider, st);
    HopTurn(env, catalog, st);
    SecondHopNeedsExpiredPin(env, catalog, Called(st), env.execute(|st.calls|).failure);
    AdvanceIffPasses(env, catalog, Called(st), env.execute(|st.calls|).failure);
  }

  lemma StandsOnPin(start: Request, first: string, st: State)
    requires Lawful(start, first, st) && Going(start, st) && st.hops != [] && st.policy.mode != Manual
    ensures Pinned(Called(st)) && st.hops[|st.hops| - 1].to == ProviderOf(st)
  {
  }

  lemma HopTurn(env: Env, catalog: seq<Candidate>, st: State)
    requires FailsAgain(env, st)
    ensures Turn(env, catalog, st).Some? <==> Advance(env, catalog, Called(st), env.execute(|st.calls|).failure).1
  {
    ClassifyIs(env.execute(|st.calls|).failure);
  }

  // ---- what every attempt is answered with, by the fields of its failure ----

  /** The attempt is answered by another one at the same provider. */
  predicate Repeats(env: Env, st: State) {
    var attempt := env.execute(|st.calls|);
    attempt.ProviderError? && Throttled(attempt.failure) && attempt.failure.retryAfter && !st.retried
  }

  /** It is answered by a hop. */
  ghost predicate MovesOn(env: Env, catalog: seq<Candidate>, st: State) {
    var attempt, n := env.execute(|st.calls|), |st.calls| + 1;
    && attempt.ProviderError? && QuotaOut(attempt.failure)
    && SomeonePasses(env.world(n), st.policy, NextRequest(Called(st), env.clock(n)), catalog, env.clock(n))
  }

  /** A repeat changes nothing but that it happened. */
  lemma RepeatTells(env: Env, catalog: seq<Candidate>, st: State)
    requires Repeats(env, st)
    ensures Turn(env, catalog, st) == Some(st.(calls := st.calls + [ProviderOf(st)], retried := true))
  {
    ClassifyIs(env.execute(|st.calls|).failure);
  }

  lemma ChosenAlike(w: World, p: Policy, q: Policy, r: Request, catalog: seq<Candidate>, now: int, order: seq<string>, s: Scored)
    requires forall c :: Passes(w, p, r, now, c) <==> Passes(w, q, r, now, c)
    requires ChosenWell(w, p, r, catalog, now, order, s)
    ensures ChosenWell(w, q, r, catalog, now, order, s)
  {
    assert forall costing, c :: Runs(w, p, r, catalog, now, costing, c) <==> Runs(w, q, r, catalog, now, costing, c);
    forall costing, t: Scored ensures Unbeaten(w, p, r, catalog, now, order, costing, t) <==> Unbeaten(w, q, r, catalog, now, order, costing, t) {
    }
    var best :| Unbeaten(w, p, r, catalog, now, order, false, best) &&
      if best.score < (if r.quality == Economy then 0.0 else if r.quality == Balanced then 35.0 else 55.0)
        && (exists c :: Runs(w, p, r, catalog, now, true, c))
      then Unbeaten(w, p, r, catalog, now, order, true, s) else s == best;
    assert Unbeaten(w, q, r, catalog, now, order, false, best);
  }

  lemma NextIsChosenWell(w: World, made: State, catalog: seq<Candidate>, now: int)
    requires Decide(w, OrderPolicy(made, now), NextRequest(made, now), catalog, now).Route?
    ensures var r := NextRequest(made, now);
      ChosenWell(w, made.policy, r, catalog, now, r.preferred, Decide(w, OrderPolicy(made, now), r, catalog, now).chosen)
  {
    var p, r := OrderPolicy(made, now), NextRequest(made, now);
    RouteIsChosenWell(w, p, r, catalog, now);
    forall c: Candidate ensures Passes(w, p, r, now, c) <==> Passes(w, made.policy, r, now, c) {
      PassesAlike(w, made.policy, r, now, c);
    }
    StickyForIsIdempotent(made.policy, r.session, now);
    StickyForKeepsMode(made.policy, r.session, now);
    ChosenAlike(w, p, made.policy, r, catalog, now, r.preferred, Decide(w, p, r, catalog, now).chosen);
  }

  /** A hop goes to the model chosen for the next request, is recorded with the reset time of the failure, and counts
      as not yet repeated. */
  lemma MoveTells(env: Env, catalog: seq<Candidate>, st: State)
    requires MovesOn(env, catalog, st)
    ensures var f, now := env.execute(|st.calls|).failure, env.clock(|st.calls| + 1);
      && Turn(env, catalog, st).Some?
      && var next := Turn(env, catalog, st).value;
      && IsNextRequest(st, now, next.request) && !next.retried
      && ChosenWell(env.world(|st.calls| + 1), st.policy, next.request, catalog, now, next.request.preferred, next.chosen)
      && next.hops == st.hops + [Hop(ProviderOf(st), ProviderOf(next), f.resetAt, now)]
      && next.calls == st.calls + [ProviderOf(st)] && next.failed == st.failed + [ProviderOf(st)] && ProviderOf(next) != ProviderOf(st)
  {
    var f, made, now := env.execute(|st.calls|).failure, Called(st), env.clock(|st.calls| + 1);
    ClassifyIs(f);
    AdvanceIffPasses(env, catalog, made, f);
    var next := Advance(env, catalog, made, f).0;
    assert Turn(env, catalog, st) == Some(next);
    NextRequestIs(made, now);
    NextIsChosenWell(env.world(|made.calls|), made, catalog, now);
    assert ProviderOf(next) !in next.request.excluded && ProviderOf(st) in next.request.excluded;
  }

  /** A hop pins its session to where it went, until the reset time of the failure. */
  lemma MovePins(env: Env, catalog: seq<Candidate>, st: State, now: int)
    requires MovesOn(env, catalog, st)
    ensures var f := env.execute(|st.calls|).failure;
      && Turn(env, catalog, st).Some?
      && var next := Turn(env, catalog, st).value;
      && next.policy.mode == st.policy.mode
      && (f.resetAt.None? || now < f.resetAt.value ==> PinnedTo(next.policy, st.request.session, now, ProviderOf(next)))
  {
    var f, made := env.execute(|st.calls|).failure, Called(st);
    ClassifyIs(f);
    AdvanceIffPasses(env, catalog, made, f);
    var hop := HopDecision(env, catalog, made, f);
    LookupFinds(Advance(env, catalog, made, f).0.policy, st.request.session, now);
  }

  /** Anything else ends the run: with the text of a completed attempt, and else with the error; no hop is added. */
  lemma EndTells(env: Env, catalog: seq<Candidate>, st: State)
    requires !Repeats(env, st) && !MovesOn(env, catalog, st)
    ensures Turn(env, catalog, st).None?
    ensures var attempt, end := env.execute(|st.calls|), Loop(env, catalog, st);
      && end.result == (if attempt.Completed? then Answer(attempt.text) else Raised)
      && end.st.hops == st.hops && end.st.calls == st.calls + [ProviderOf(st)]
      && end.st.request == st.request && end.st.chosen == st.chosen
  {
    var attempt, made := env.execute(|st.calls|), Called(st);
    if attempt.ProviderError? {
      ClassifyIs(attempt.failure);
      AdvanceIffPasses(env, catalog, made, attempt.failure);
    }
  }

  predicate SomeEnabled(catalog: seq<Candidate>) {
    exists k :: 0 <= k < |catalog| && catalog[k].enabled
  }

  /** The decision for the next request has asked for the pin, for its gates or for its order. */
  predicate Asked(catalog: seq<Candidate>, st: State) {
    st.request.preferred == [] || (st.policy.mode != Manual && SomeEnabled(catalog))
  }

  /** What is pinned behind that decision. */
  function PolicyLeft(catalog: seq<Candidate>, st: State, now: int): Policy {
    if Asked(catalog, st) then StickyFor(st.policy, st.request.session, now).1 else st.policy
  }

  lemma NextPolicy(w: World, made: State, catalog: seq<Candidate>, now: int)
    ensures PolicyAfter(w, OrderPolicy(made, now), NextRequest(made, now), catalog, now) == PolicyLeft(catalog, made, now)
  {
    DecisionLeaves(w, OrderPolicy(made, now), NextRequest(made, now), catalog, now);
    StickyForIsIdempotent(made.policy, made.request.session, now);
    StickyForKeepsMode(made.policy, made.request.session, now);
  }

  /** A hop leaves the pins as the decision left them, but for the one of its session. */
  lemma MoveLeaves(env: Env, catalog: seq<Candidate>, st: State)
    requires MovesOn(env, catalog, st)
    ensures var now, resetAt := env.clock(|st.calls| + 1), env.execute(|st.calls|).failure.resetAt;
      && Turn(env, catalog, st).Some?
      && var next, q := Turn(env, catalog, st).value, PolicyLeft(catalog, st, now);
      && var pin := Pin(ProviderOf(next), resetAt);
      next.policy == match st.request.session { case Some(x) => q.(sessions := q.sessions[x := pin]) case None => q.(sticky := Some(pin)) }
  {
    var f, made, now := env.execute(|st.calls|).failure, Called(st), env.clock(|st.calls| + 1);
    ClassifyIs(f);
    AdvanceIffPasses(env, catalog, made, f);
    NextPolicy(env.world(|made.calls|), made, catalog, now);
    assert Turn(env, catalog, st) == Some(Advance(env, catalog, made, f).0);
  }

  /** The end of a run leaves the pins alone, unless quota was out and a decision was tried. */
  lemma EndLeaves(env: Env, catalog: seq<Candidate>, st: State)
    requires !Repeats(env, st) && !MovesOn(env, catalog, st)
    ensures var attempt, end := env.execute(|st.calls|), Loop(env, catalog, st);
      end.st.policy == if attempt.ProviderError? && QuotaOut(attempt.failure) then PolicyLeft(catalog, st, env.clock(|st.calls| + 1)) else st.policy
  {
    var attempt, made := env.execute(|st.calls|), Called(st);
    if attempt.ProviderError? {
      ClassifyIs(attempt.failure);
      AdvanceIffPasses(env, catalog, made, attempt.failure);
      NextPolicy(env.world(|made.calls|), made, catalog, env.clock(|made.calls|));
    }
  }

  // ---- what every run tells of its attempts ----

  /** Attempt `k` at `path[k]` was answered by the next one: a repeat of a first try that was throttled with a time to
      wait, or a move because quota was out. */
  predicate Answered(env: Env, path: seq<string>, k: nat)
    requires k + 1 < |path|
  {
    env.execute(k).ProviderError? &&
    var f := env.execute(k).failure;
    if path[k + 1] == path[k] then Throttled(f) && f.retryAfter && (k == 0 || path[k - 1] != path[k]) else QuotaOut(f)
  }

  predicate AllAnswered(env: Env, path: seq<string>) {
    forall k :: 0 <= k < |path| - 1 ==> Answered(env, path, k)
  }

  /** The moves along the path, each with the reset time of the failure it answers and the time of its decision. */
  function Moves(env: Env, path: seq<string>): seq<Hop>
    requires AllAnswered(env, path)
    decreases |path|
  {
    if |path| < 2 then []
    else
      var n := |path| - 1;
      FrontAnswered(env, path);
      assert Answered(env, path, n - 1);
      Moves(env, path[..n]) + LastMove(env, path)
  }

  /** The move to the last provider of the path, if it was one. */
  function LastMove(env: Env, path: seq<string>): seq<Hop>
    requires |path| > 1 && Answered(env, path, |path| - 2)
  {
    var n := |path| - 1;
    if path[n] == path[n - 1] then [] else [Hop(path[n - 1], path[n], env.execute(n - 1).failure.resetAt, env.clock(n))]
  }

  lemma FrontAnswered(env: Env, path: seq<string>)
    requires AllAnswered(env, path) && path != []
    ensures AllAnswered(env, path[..|path| - 1])
  {
    var front := path[..|path| - 1];
    forall k | 0 <= k < |front| - 1 ensures Answered(env, front, k) {
      assert Answered(env, path, k);
    }
  }

  /** The providers tried so far and the one to try next. */
  function Path(st: State): seq<string> {
    st.calls + [ProviderOf(st)]
  }

  /** A state at the head of the loop tells what happened before it. */
  ghost predicate Tells(env: Env, first: string, st: State) {
    && Path(st)[0] == first && AllAnswered(env, Path(st)) && st.hops == Moves(env, Path(st))
    && (st.retried <==> |st.calls| > 0 && st.calls[|st.calls| - 1] == ProviderOf(st))
  }

  lemma PathGrows(env: Env, path: seq<string>, x: string)
    requires AllAnswered(env, path) && path != [] && Answered(env, path + [x], |path| - 1)
    ensures AllAnswered(env, path + [x])
    ensures Moves(env, path + [x]) == Moves(env, path) + LastMove(env, path + [x])
  {
    AnsweredGrows(env, path, path + [x]);
    MovesGrow(env, path, path + [x]);
  }

  lemma AnsweredGrows(env: Env, path: seq<string>, longer: seq<string>)
    requires AllAnswered(env, path) && path != [] && |longer| == |path| + 1 && longer[..|path|] == path && Answered(env, longer, |path| - 1)
    ensures AllAnswered(env, longer)
  {
    assert forall k :: 0 <= k < |path| ==> longer[k] == longer[..|path|][k];
    forall k | 0 <= k < |longer| - 1 ensures Answered(env, longer, k) {
      if k < |path| - 1 {
        assert Answered(env, path, k);
      }
    }
  }

  lemma MovesGrow(env: Env, path: seq<string>, longer: seq<string>)
    requires AllAnswered(env, path) && path != [] && |longer| == |path| + 1 && longer[..|path|] == path && AllAnswered(env, longer)
    ensures env.execute(|path| - 1).ProviderError?
    ensures Moves(env, longer) == Moves(env, path) + LastMove(env, longer)
  {
    assert Answered(env, longer, |path| - 1);
    assert longer[..|longer| - 1] == path;
  }

  lemma TurnTells(env: Env, catalog: seq<Candidate>, first: string, st: State, next: State)
    requires Tells(env, first, st) && Turn(env, catalog, st) == Some(next)
    ensures Tells(env, first, next)
  {
    if !Repeats(env, st) && !MovesOn(env, catalog, st) {
      EndTells(env, catalog, st);
    } else if Repeats(env, st) {
      RepeatTells(env, catalog, st);
      RepeatGrows(env, first, st, next);
    } else {
      MoveTells(env, catalog, st);
      MoveGrows(env, first, st, next);
    }
  }

  lemma RepeatGrows(env: Env, first: string, st: State, next: State)
    requires Tells(env, first, st) && Repeats(env, st) && next == st.(calls := st.calls + [ProviderOf(st)], retried := true)
    ensures Tells(env, first, next)
  {
    var path, x := Path(st), ProviderOf(st);
    assert Path(next) == path + [x];
    assert Answered(env, path + [x], |path| - 1);
    PathGrows(env, path, x);
  }

  lemma MoveGrows(env: Env, first: string, st: State, next: State)
    requires Tells(env, first, st) && env.execute(|st.calls|).ProviderError? && QuotaOut(env.execute(|st.calls|).failure)
    requires next.calls == st.calls + [ProviderOf(st)] && ProviderOf(next) != ProviderOf(st) && !next.retried
    requires next.hops == st.hops + [Hop(ProviderOf(st), ProviderOf(next), env.execute(|st.calls|).failure.resetAt, env.clock(|st.calls| + 1))]
    ensures Tells(env, first, next)
  {
    var path, x := Path(st), ProviderOf(next);
    assert Path(next) == path + [x];
    assert Answered(env, path + [x], |path| - 1);
    PathGrows(env, path, x);
  }

  /** How a run ends: an answer is the text of the last attempt; an error means that the last attempt failed and was
      neither to be repeated nor to be moved on from. */
  ghost predicate EndsWell(env: Env, catalog: seq<Candidate>, last: State, end: Final) {
    var attempt := env.execute(|last.calls|);
    && !Repeats(env, last) && !MovesOn(env, catalog, last)
    && end.result == (if attempt.Completed? then Answer(attempt.text) else Raised)
    && end.st.hops == last.hops && end.st.calls == Path(last) && end.st.request == last.request && end.st.chosen == last.chosen
  }

  /** Every run, attempt by attempt, in what the providers said: each attempt but the last is answered by one repeat
      of a throttled first try or by a move because quota was out; the hops are exactly those moves; and the last
      attempt, which called for neither, decides the result. */
  lemma {:induction false} RunTells(env: Env, catalog: seq<Candidate>, first: string, st: State) returns (last: State)
    requires Tells(env, first, st)
    ensures Tells(env, first, last) && EndsWell(env, catalog, last, Loop(env, catalog, st))
    decreases Untried(catalog, st), if st.retried then 0 else 1
  {
    if Turn(env, catalog, st).Some? {
      var next := Turn(env, catalog, st).value;
      TurnTells(env, catalog, first, st, next);
      TurnShrinks(env, catalog, st, next);
      TurnIsLoop(env, catalog, st, next);
      last := RunTells(env, catalog, first, next);
    } else {
      last := st;
      StopTells(env, catalog, st);
      EndTells(env, catalog, st);
    }
  }

  lemma StopTells(env: Env, catalog: seq<Candidate>, st: State)
    requires Turn(env, catalog, st).None?
    ensures !Repeats(env, st) && !MovesOn(env, catalog, st)
  {
    if Repeats(env, st) {
      RepeatTells(env, catalog, st);
    } else if MovesOn(env, catalog, st) {
      MoveTells(env, catalog, st);
    }
  }

  /** The whole run of a locked request. */
  lemma FallbackTells(env: Env, catalog: seq<Candidate>, request: Request, decision: Scored, policy: Policy) returns (last: State)
    ensures var end := Loop(env, catalog, Start(request, decision, policy));
      Recounts(env, decision.candidate.provider, end) && EndsWell(env, catalog, last, end)
  {
    var st := Start(request, decision, policy);
    StartTells(env, decision.candidate.provider, st);
    last := RunTells(env, catalog, decision.candidate.provider, st);
    LastRecounts(env, catalog, decision.candidate.provider, last, Loop(env, catalog, st));
  }

  /** The run by its attempts: they start at `first` and end at the returned provider, each but the last is answered by
      the next, the hops are the moves among them, and the last one is the result. */
  ghost predicate Recounts(env: Env, first: string, end: Final) {
    var calls, n := end.st.calls, |end.st.calls| - 1;
    && n >= 0 && calls[0] == first && calls[n] == ProviderOf(end.st)
    && AllAnswered(env, calls) && end.st.hops == Moves(env, calls)
    && end.result == (if env.execute(n).Completed? then Answer(env.execute(n).text) else Raised)
  }

  lemma StartTells(env: Env, first: string, st: State)
    requires st.calls == [] && st.hops == [] && !st.retried && ProviderOf(st) == first
    ensures Tells(env, first, st)
  {
    assert Path(st) == [first];
  }

  lemma LastRecounts(env: Env, catalog: seq<Candidate>, first: string, last: State, end: Final)
    requires Tells(env, first, last) && EndsWell(env, catalog, last, end)
    ensures Recounts(env, first, end)
  {
  }
}
