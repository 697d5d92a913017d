// The single-use store of locked execution plans: create, approve, consume, purge.

module Preflight {
  import opened Text

  type Token = string

  datatype Status = Ready | ConfirmationRequired | Spent

  /** A prepared execution. `locked` stands for everything that is frozen: prompts, budgets, routes. */
  datatype Plan = Plan(locked: string, needs: bool, confirmation: Option<Token>, approved: bool,
                       status: Status, mayBegin: bool, expires: int)

  datatype Store = Store(plans: map<Token, Plan>, confirmations: map<Token, Token>)

  const EMPTY := Store(map[], map[])

  datatype Error = BadLists | UnknownConfirmation | PlanGone | UnknownPlan | NotApproved

  datatype Outcome<+T> = Done(value: T) | Refused(error: Error)

  /** What `create` is given: list lengths, who needs confirmation, the frozen content. */
  datatype Request = Request(requests: nat, roles: nat, decisions: seq<bool>, synthesis: Option<bool>, locked: string)

  // ---- what each operation does ----

  predicate NeedsConfirmation(r: Request) {
    true in r.decisions || r.synthesis == Some(true)
  }

  predicate WellFormed(r: Request) {
    r.requests > 0 && r.requests == |r.decisions| && r.roles == |r.decisions|
  }

  function NewPlan(r: Request, confirmToken: Token, expires: int): Plan {
    var needs := NeedsConfirmation(r);
    Plan(r.locked, needs, if needs then Some(confirmToken) else None, !needs,
         if needs then ConfirmationRequired else Ready, !needs, expires)
  }

  /** `create`; the two tokens and the expiry time are drawn by the caller. */
  function Created(s: Store, r: Request, planToken: Token, confirmToken: Token, expires: int): (Store, Outcome<Plan>) {
    if !WellFormed(r) then (s, Refused(BadLists))
    else
      var plan := NewPlan(r, confirmToken, expires);
      (Store(s.plans[planToken := plan],
             if plan.needs then s.confirmations[confirmToken := planToken] else s.confirmations), Done(plan))
  }

  predicate Expired(s: Store, token: Token, now: int) {
    token in s.plans && s.plans[token].expires < now
  }

  function Purged(s: Store, now: int): Store {
    Store(map t | t in s.plans && !Expired(s, t, now) :: s.plans[t],
          map c | c in s.confirmations && !Expired(s, s.confirmations[c], now) :: s.confirmations[c])
  }

  function Approved(s: Store, confirmToken: Token, now: int): (Store, Outcome<Plan>) {
    var p := Purged(s, now);
    if confirmToken !in p.confirmations then (p, Refused(UnknownConfirmation))
    else
      var token := p.confirmations[confirmToken];
      var left := p.confirmations - {confirmToken};
      if token !in p.plans then (Store(p.plans, left), Refused(PlanGone))
      else
        var plan := p.plans[token].(approved := true, status := Ready, mayBegin := true, confirmation := None);
        (Store(p.plans[token := plan], left), Done(plan))
  }

  function Consumed(s: Store, planToken: Token, now: int): (Store, Outcome<Plan>) {
    var p := Purged(s, now);
    if planToken !in p.plans then (p, Refused(UnknownPlan))
    else if !p.plans[planToken].approved then (p, Refused(NotApproved))
    else
      (Store(p.plans - {planToken}, map c | c in p.confirmations && p.confirmations[c] != planToken :: p.confirmations[c]),
       Done(p.plans[planToken].(status := Spent, mayBegin := true)))
  }

  class PreflightStore {
    var plans: map<Token, Plan>
    var confirmations: map<Token, Token>

    ghost function Value(): Store
      reads this
    {
      Store(plans, confirmations)
    }

    constructor ()
      ensures Value() == EMPTY
    {
      plans, confirmations := map[], map[];
    }

    method Create(r: Request, planToken: Token, confirmToken: Token, expires: int) returns (out: Outcome<Plan>)
      modifies this
      ensures (Value(), out) == Created(old(Value()), r, planToken, confirmToken, expires)
    {
      if r.requests == 0 || |r.decisions| == 0 || r.requests != |r.decisions| {
        return Refused(BadLists);
      }
      if r.roles != |r.decisions| {
        return Refused(BadLists);
      }
      var needs := true in r.decisions;
      if r.synthesis.Some? {
        needs := needs || r.synthesis.value;
      }
      var plan := NewPlan(r, confirmToken, expires);
      plans := plans[planToken := plan];
      if needs {
        confirmations := confirmations[confirmToken := planToken];
      }
      out := Done(plan);
    }

    method Purge(now: int)
      modifies this
      ensures Value() == Purged(old(Value()), now)
    {
      ghost var before := Value();
      var expired := set t | t in plans && plans[t].expires < now;
      ghost var gone: set<Token> := {};
      while expired != {}
        invariant expired !! gone && forall t :: t in expired + gone <==> Expired(before, t, now)
        invariant plans == before.plans - gone
        invariant confirmations == map c | c in before.confirmations && before.confirmations[c] !in gone :: before.confirmations[c]
        decreases expired
      {
        var token :| token in expired;
        plans := plans - {token};
        confirmations := map c | c in confirmations && confirmations[c] != token :: confirmations[c];
        expired, gone := expired - {token}, gone + {token};
      }
    }

    method Approve(confirmToken: Token, now: int) returns (out: Outcome<Plan>)
      modifies this
      ensures (Value(), out) == Approved(old(Value()), confirmToken, now)
    {
      Purge(now);
      if confirmToken !in confirmations {
        return Refused(UnknownConfirmation);
      }
      var token := confirmations[confirmToken];
      confirmations := confirmations - {confirmToken};
      if token !in plans {
        return Refused(PlanGone);
      }
      var plan := plans[token].(approved := true, status := Ready, mayBegin := true, confirmation := None);
      plans := plans[token := plan];
      out := Done(plan);
    }

    method Consume(planToken: Token, now: int) returns (out: Outcome<Plan>)
      modifies this
      ensures (Value(), out) == Consumed(old(Value()), planToken, now)
    {
      Purge(now);
      if planToken !in plans {
        return Refused(UnknownPlan);
      }
      var plan := plans[planToken];
      plans := plans - {planToken};
      if !plan.approved {
        plans := plans[planToken := plan];
        assert plans == Purged(old(Value()), now).plans;
        return Refused(NotApproved);
      }
      confirmations := map c | c in confirmations && confirmations[c] != planToken :: confirmations[c];
      out := Done(plan.(status := Spent, mayBegin := true));
    }
  }

  // ---- runs ----

  datatype Op =
    | CreateOp(r: Request, planToken: Token, confirmToken: Token, expires: int)
    | ApproveOp(confirmToken: Token, now: int)
    | ConsumeOp(planToken: Token, now: int)
    | PurgeOp(now: int)

  /** What an operation did, as its caller saw it. */
  datatype Event =
    | Made(token: Token, needs: bool, confirm: Token, expires: int)
    | Accepted(confirm: Token, now: int)
    | Used(token: Token, now: int)
    | Swept(now: int)
    | Nothing

  function Apply(s: Store, op: Op): (Store, Event) {
    match op
    case CreateOp(r, p, c, e) =>
      var (s', out) := Created(s, r, p, c, e);
      (s', if out.Done? then Made(p, out.value.needs, c, e) else Nothing)
    case ApproveOp(c, now) =>
      var (s', out) := Approved(s, c, now);
      (s', if out.Done? then Accepted(c, now) else Swept(now))
    case ConsumeOp(p, now) =>
      var (s', out) := Consumed(s, p, now);
      (s', if out.Done? then Used(p, now) else Swept(now))
    case PurgeOp(now) => (Purged(s, now), Swept(now))
  }

  /** The time at which an operation purged. */
  function SweptAt(e: Event): Option<int> {
    match e
    case Accepted(_, now) => Some(now)
    case Used(_, now) => Some(now)
    case Swept(now) => Some(now)
    case _ => None
  }

  function Run(ops: seq<Op>): (r: (Store, seq<Event>))
    ensures |r.1| == |ops|
    decreases |ops|
  {
    if ops == [] then (EMPTY, [])
    else
      var n := |ops| - 1;
      var (s, events) := Run(ops[..n]);
      var (s', e) := Apply(s, ops[n]);
      (s', events + [e])
  }

  /** The random tokens of a plan were never drawn before. */
  predicate NewTokens(events: seq<Event>, op: Op) {
    op.CreateOp? ==> forall e :: e in events && e.Made? ==> e.token != op.planToken && e.confirm != op.confirmToken
  }

  predicate FreshTokens(ops: seq<Op>)
    decreases |ops|
  {
    ops == [] || (FreshTokens(ops[..|ops| - 1]) && NewTokens(Run(ops[..|ops| - 1]).1, ops[|ops| - 1]))
  }

  // ---- the store is its history ----

  /** Event `i` made a plan that no later event used up or swept away as expired. */
  predicate Lives(events: seq<Event>, i: nat) {
    i < |events| && events[i].Made? &&
    forall j :: i < j < |events| ==> Spares(events[i], events[j])
  }

  predicate LiveNeedy(events: seq<Event>, i: nat) {
    Lives(events, i) && events[i].needs
  }

  /** Some living plan has this token. */
  predicate PlanLives(events: seq<Event>, t: Token) {
    exists i :: 0 <= i < |events| && Lives(events, i) && events[i].token == t
  }

  /** Some living plan that needs confirmation has this confirmation token. */
  predicate ConfirmationLives(events: seq<Event>, c: Token) {
    exists i :: 0 <= i < |events| && LiveNeedy(events, i) && events[i].confirm == c
  }

  predicate Spares(made: Event, e: Event)
    requires made.Made?
  {
    !(e.Used? && e.token == made.token) && (SweptAt(e).Some? ==> made.expires >= SweptAt(e).value)
  }

  /** The confirmation of the plan made at `i` was accepted since. */
  predicate Confirmed(events: seq<Event>, i: nat)
    requires i < |events| && events[i].Made?
  {
    exists j :: i < j < |events| && events[j].Accepted? && events[j].confirm == events[i].confirm
  }

  /** The plan as its making event describes it. */
  predicate Describes(events: seq<Event>, i: nat, s: Store)
    requires i < |events| && events[i].Made?
  {
    var e := events[i];
    e.token in s.plans &&
    var plan := s.plans[e.token];
    && plan.needs == e.needs && plan.expires == e.expires
    && (plan.approved <==> !e.needs || Confirmed(events, i))
    && (!plan.approved <==> e.confirm in s.confirmations)
    && (!plan.approved ==> plan.confirmation == Some(e.confirm) && s.confirmations[e.confirm] == e.token)
  }

  /** Tokens name plans uniquely in the log. */
  predicate UniqueTokens(events: seq<Event>) {
    forall i, j :: 0 <= i < j < |events| && events[i].Made? && events[j].Made? ==>
      events[i].token != events[j].token && events[i].confirm != events[j].confirm
  }

  /** The store holds exactly the plans that live in the log, as the log describes them, and no other
      confirmations than those of its unapproved plans. */
  ghost predicate IsHistory(s: Store, events: seq<Event>) {
    && UniqueTokens(events)
    && (forall i :: 0 <= i < |events| && Lives(events, i) ==> Describes(events, i, s))
    && (forall t :: t in s.plans ==> PlanLives(events, t))
    && (forall c :: c in s.confirmations ==> ConfirmationLives(events, c))
  }

  lemma LivesAppend(events: seq<Event>, e: Event, i: nat)
    requires i < |events|
    ensures Lives(events + [e], i) <==> Lives(events, i) && Spares(events[i], e)
  {
    var all := events + [e];
    if Lives(events, i) && Spares(events[i], e) {
      forall j | i < j < |all| ensures Spares(all[i], all[j]) {
        if j < |events| { assert all[j] == events[j]; }
      }
    }
    if Lives(all, i) {
      forall j | i < j < |events| ensures Spares(events[i], events[j]) {
        assert all[j] == events[j];
      }
      assert all[|events|] == e;
    }
  }

  lemma ConfirmedAppend(events: seq<Event>, e: Event, i: nat)
    requires i < |events| && events[i].Made?
    ensures Confirmed(events + [e], i) <==> Confirmed(events, i) || (e.Accepted? && e.confirm == events[i].confirm)
  {
    var all := events + [e];
    if Confirmed(events, i) {
      var j :| i < j < |events| && events[j].Accepted? && events[j].confirm == events[i].confirm;
      assert all[j] == events[j];
    }
    if e.Accepted? && e.confirm == events[i].confirm {
      assert all[|events|] == e;
    }
    if Confirmed(all, i) {
      var j :| i < j < |all| && all[j].Accepted? && all[j].confirm == all[i].confirm;
      if j < |events| { assert events[j] == all[j]; }
    }
  }

  lemma UniqueAppend(events: seq<Event>, e: Event)
    requires UniqueTokens(events)
    requires e.Made? ==> forall i :: 0 <= i < |events| && events[i].Made? ==> events[i].token != e.token && events[i].confirm != e.confirm
    ensures UniqueTokens(events + [e])
  {
    var all := events + [e];
    forall i, j | 0 <= i < j < |all| && all[i].Made? && all[j].Made?
      ensures all[i].token != all[j].token && all[i].confirm != all[j].confirm
    {
      assert all[i] == events[i];
      if j < |events| { assert all[j] == events[j]; }
    }
  }

  lemma PlanStays(events: seq<Event>, e: Event, i: nat)
    requires i < |events| && Lives(events, i) && Spares(events[i], e)
    ensures PlanLives(events + [e], events[i].token)
    ensures events[i].needs ==> ConfirmationLives(events + [e], events[i].confirm)
  {
    LivesAppend(events, e, i);
    var all := events + [e];
    assert all[i] == events[i] && Lives(all, i);
    if events[i].needs { assert LiveNeedy(all, i); }
  }

  /** The living plan of a token. */
  lemma PlanOf(s: Store, events: seq<Event>, t: Token) returns (i: nat)
    requires IsHistory(s, events) && t in s.plans
    ensures i < |events| && Lives(events, i) && events[i].token == t && Describes(events, i, s)
  {
    assert PlanLives(events, t);
    i :| 0 <= i < |events| && Lives(events, i) && events[i].token == t;
  }

  /** The living plan of a confirmation. */
  lemma PlanOfConfirmation(s: Store, events: seq<Event>, c: Token) returns (i: nat)
    requires IsHistory(s, events) && c in s.confirmations
    ensures i < |events| && Lives(events, i) && events[i].needs && events[i].confirm == c && Describes(events, i, s)
    ensures s.confirmations[c] == events[i].token && !s.plans[events[i].token].approved
  {
    assert ConfirmationLives(events, c);
    i :| 0 <= i < |events| && LiveNeedy(events, i) && events[i].confirm == c;
    assert Describes(events, i, s);
  }

  /** Two living plans with the same token, or the same confirmation, are the same. */
  lemma OtherTokens(events: seq<Event>, i: nat, k: nat)
    requires UniqueTokens(events) && i < |events| && k < |events| && events[i].Made? && events[k].Made?
    ensures i == k || (events[i].token != events[k].token && events[i].confirm != events[k].confirm)
  {
  }

  /** A plan that is not expired keeps its description when the store is purged. */
  lemma PurgeDescribes(s: Store, events: seq<Event>, i: nat, now: int)
    requires i < |events| && events[i].Made? && Describes(events, i, s) && events[i].expires >= now
    ensures Describes(events, i, Purged(s, now))
  {
  }

  /** Logging an event that is not this plan's acceptance keeps its description. */
  lemma LogDescribes(s: Store, events: seq<Event>, e: Event, i: nat)
    requires i < |events| && events[i].Made? && Describes(events, i, s)
    requires !(e.Accepted? && e.confirm == events[i].confirm)
    ensures Describes(events + [e], i, s)
  {
    ConfirmedAppend(events, e, i);
    assert (events + [e])[i] == events[i];
  }

  // A purging operation leaves: every spared living plan described, and nothing else.

  predicate Covered(events: seq<Event>, e: Event, after: Store) {
    && (forall t :: t in after.plans ==> PlanLives(events + [e], t))
    && (forall c :: c in after.confirmations ==> ConfirmationLives(events + [e], c))
  }

  /** The event neither uses nor sweeps away this plan of the store. */
  predicate SparesPlan(s: Store, t: Token, e: Event)
    requires t in s.plans
  {
    !(e.Used? && e.token == t) && (SweptAt(e).Some? ==> s.plans[t].expires >= SweptAt(e).value)
  }

  /** What is left are spared plans of the store and confirmations that lead to them. */
  predicate Leaves(s: Store, e: Event, after: Store) {
    && (forall t :: t in after.plans ==> t in s.plans && SparesPlan(s, t, e))
    && (forall c :: c in after.confirmations ==>
          c in s.confirmations && s.confirmations[c] in s.plans && SparesPlan(s, s.confirmations[c], e))
  }

  predicate Leads(s: Store) {
    forall c :: c in s.confirmations ==> s.confirmations[c] in s.plans
  }

  lemma HistoryLeads(s: Store, events: seq<Event>)
    requires IsHistory(s, events)
    ensures Leads(s)
  {
    forall c | c in s.confirmations ensures s.confirmations[c] in s.plans {
      var i := PlanOfConfirmation(s, events, c);
    }
  }

  lemma SweepLeaves(s: Store, now: int)
    requires Leads(s)
    ensures Leaves(s, Swept(now), Purged(s, now))
  {
  }

  lemma AcceptLeaves(s: Store, c: Token, now: int)
    requires Leads(s)
    ensures Leaves(s, Accepted(c, now), Approved(s, c, now).0)
  {
  }

  lemma UseLeaves(s: Store, t: Token, now: int)
    requires Leads(s) && Consumed(s, t, now).1.Done?
    ensures Leaves(s, Used(t, now), Consumed(s, t, now).0)
  {
  }

  /** What an operation leaves still lives in the log. */
  lemma LeftIsCovered(s: Store, events: seq<Event>, e: Event, after: Store)
    requires IsHistory(s, events) && Leaves(s, e, after)
    ensures Covered(events, e, after)
  {
    forall t | t in after.plans ensures PlanLives(events + [e], t) {
      var i := PlanOf(s, events, t);
      PlanStays(events, e, i);
    }
    forall c | c in after.confirmations ensures ConfirmationLives(events + [e], c) {
      var i := PlanOfConfirmation(s, events, c);
      PlanStays(events, e, i);
    }
  }

  ghost predicate SparedDescribed(events: seq<Event>, e: Event, after: Store) {
    forall i :: 0 <= i < |events| && Lives(events, i) && Spares(events[i], e) ==> Describes(events + [e], i, after)
  }

  /** The purged store, one event later, when every spared plan is still described. */
  lemma Assemble(events: seq<Event>, e: Event, after: Store)
    requires UniqueTokens(events) && !e.Made?
    requires SparedDescribed(events, e, after) && Covered(events, e, after)
    ensures IsHistory(after, events + [e])
  {
    UniqueAppend(events, e);
    var all := events + [e];
    forall i | 0 <= i < |all| && Lives(all, i) ensures Describes(all, i, after) {
      assert all[|events|] == e;
      LivesAppend(events, e, i);
      assert all[i] == events[i];
    }
  }

  lemma SweepKeeps(s: Store, events: seq<Event>, now: int)
    requires IsHistory(s, events)
    ensures IsHistory(Purged(s, now), events + [Swept(now)])
  {
    var e, p := Swept(now), Purged(s, now);
    HistoryLeads(s, events);
    SweepLeaves(s, now);
    LeftIsCovered(s, events, e, p);
    forall i | 0 <= i < |events| && Lives(events, i) && Spares(events[i], e) ensures Describes(events + [e], i, p) {
      PurgeDescribes(s, events, i, now);
      LogDescribes(p, events, e, i);
    }
    Assemble(events, e, p);
  }

  lemma AcceptDescribes(s: Store, events: seq<Event>, c: Token, now: int, k: nat, i: nat)
    requires IsHistory(s, events) && c in Purged(s, now).confirmations
    requires k < |events| && Lives(events, k) && Describes(events, k, s) && events[k].needs && events[k].confirm == c
    requires i < |events| && Lives(events, i) && events[i].expires >= now && events[k].expires >= now
    ensures Approved(s, c, now).1.Done? && Describes(events + [Accepted(c, now)], i, Approved(s, c, now).0)
  {
    var e := Accepted(c, now);
    PurgeDescribes(s, events, i, now);
    PurgeDescribes(s, events, k, now);
    OtherTokens(events, i, k);
    ConfirmedAppend(events, e, i);
    assert (events + [e])[i] == events[i];
  }

  lemma AcceptDescribesSpared(s: Store, events: seq<Event>, c: Token, now: int, k: nat, after: Store)
    requires IsHistory(s, events) && c in Purged(s, now).confirmations && after == Approved(s, c, now).0
    requires k < |events| && Lives(events, k) && Describes(events, k, s) && events[k].needs && events[k].confirm == c
    requires events[k].expires >= now
    ensures SparedDescribed(events, Accepted(c, now), after)
  {
    forall i | 0 <= i < |events| && Lives(events, i) && Spares(events[i], Accepted(c, now))
      ensures Describes(events + [Accepted(c, now)], i, after)
    {
      AcceptDescribes(s, events, c, now, k, i);
    }
  }

  lemma AcceptDescribesAll(s: Store, events: seq<Event>, c: Token, now: int)
    requires IsHistory(s, events) && c in Purged(s, now).confirmations
    ensures Approved(s, c, now).1.Done?
    ensures SparedDescribed(events, Accepted(c, now), Approved(s, c, now).0)
  {
    var k := PlanOfConfirmation(s, events, c);
    AcceptDescribes(s, events, c, now, k, k);
    AcceptDescribesSpared(s, events, c, now, k, Approved(s, c, now).0);
  }

  lemma AcceptCovers(s: Store, events: seq<Event>, c: Token, now: int)
    requires IsHistory(s, events)
    ensures Covered(events, Accepted(c, now), Approved(s, c, now).0)
  {
    HistoryLeads(s, events);
    AcceptLeaves(s, c, now);
    LeftIsCovered(s, events, Accepted(c, now), Approved(s, c, now).0);
  }

  lemma AcceptKeeps(s: Store, events: seq<Event>, c: Token, now: int)
    requires IsHistory(s, events) && c in Purged(s, now).confirmations
    ensures Approved(s, c, now).1.Done?
    ensures IsHistory(Approved(s, c, now).0, events + [Accepted(c, now)])
  {
    AcceptDescribesAll(s, events, c, now);
    AcceptCovers(s, events, c, now);
    Assemble(events, Accepted(c, now), Approved(s, c, now).0);
  }

  lemma UseDescribes(s: Store, events: seq<Event>, t: Token, now: int, i: nat)
    requires IsHistory(s, events) && Consumed(s, t, now).1.Done?
    requires i < |events| && Lives(events, i) && Spares(events[i], Used(t, now))
    ensures Describes(events + [Used(t, now)], i, Consumed(s, t, now).0)
  {
    var e := Used(t, now);
    PurgeDescribes(s, events, i, now);
    assert Describes(events, i, Consumed(s, t, now).0);
    LogDescribes(Consumed(s, t, now).0, events, e, i);
  }

  lemma UseKeeps(s: Store, events: seq<Event>, t: Token, now: int)
    requires IsHistory(s, events) && Consumed(s, t, now).1.Done?
    ensures IsHistory(Consumed(s, t, now).0, events + [Used(t, now)])
  {
    var e, after := Used(t, now), Consumed(s, t, now).0;
    HistoryLeads(s, events);
    UseLeaves(s, t, now);
    LeftIsCovered(s, events, e, after);
    forall i | 0 <= i < |events| && Lives(events, i) && Spares(events[i], e) ensures Describes(events + [e], i, after) {
      UseDescribes(s, events, t, now, i);
    }
    Assemble(events, e, after);
  }

  /** A token nobody drew is in no map. */
  lemma NotYetKnown(s: Store, events: seq<Event>, t: Token, c: Token)
    requires IsHistory(s, events)
    requires forall i :: 0 <= i < |events| && events[i].Made? ==> events[i].token != t && events[i].confirm != c
    ensures t !in s.plans && c !in s.confirmations
  {
  }

  lemma MakeDescribes(s: Store, events: seq<Event>, r: Request, t: Token, c: Token, expires: int, i: nat)
    requires IsHistory(s, events) && WellFormed(r) && i <= |events|
    requires forall j :: 0 <= j < |events| && events[j].Made? ==> events[j].token != t && events[j].confirm != c
    requires i < |events| ==> Lives(events, i)
    ensures Describes(events + [Made(t, NeedsConfirmation(r), c, expires)], i, Created(s, r, t, c, expires).0)
  {
    var e := Made(t, NeedsConfirmation(r), c, expires);
    NotYetKnown(s, events, t, c);
    if i < |events| {
      assert Describes(events, i, Created(s, r, t, c, expires).0);
      LogDescribes(Created(s, r, t, c, expires).0, events, e, i);
    } else {
      assert (events + [e])[i] == e;
    }
  }

  lemma MakeCovers(s: Store, events: seq<Event>, r: Request, t: Token, c: Token, expires: int)
    requires IsHistory(s, events) && WellFormed(r)
    ensures Covered(events, Made(t, NeedsConfirmation(r), c, expires), Created(s, r, t, c, expires).0)
  {
    var e, n := Made(t, NeedsConfirmation(r), c, expires), |events|;
    var after, all := Created(s, r, t, c, expires).0, events + [e];
    assert all[n] == e && Lives(all, n);
    assert e.needs ==> LiveNeedy(all, n);
    forall u | u in after.plans ensures PlanLives(all, u) {
      if u != t {
        var i := PlanOf(s, events, u);
        PlanStays(events, e, i);
      }
    }
    forall u | u in after.confirmations ensures ConfirmationLives(all, u) {
      if u != c || !e.needs {
        var i := PlanOfConfirmation(s, events, u);
        PlanStays(events, e, i);
      }
    }
  }

  lemma MakeKeeps(s: Store, events: seq<Event>, r: Request, t: Token, c: Token, expires: int)
    requires IsHistory(s, events) && WellFormed(r)
    requires forall i :: 0 <= i < |events| && events[i].Made? ==> events[i].token != t && events[i].confirm != c
    ensures IsHistory(Created(s, r, t, c, expires).0, events + [Made(t, NeedsConfirmation(r), c, expires)])
  {
    var e := Made(t, NeedsConfirmation(r), c, expires);
    var after, all := Created(s, r, t, c, expires).0, events + [e];
    UniqueAppend(events, e);
    MakeCovers(s, events, r, t, c, expires);
    forall i | 0 <= i < |all| && Lives(all, i) ensures Describes(all, i, after) {
      if i < |events| {
        LivesAppend(events, e, i);
      }
      MakeDescribes(s, events, r, t, c, expires, i);
    }
  }

  lemma NothingKeeps(s: Store, events: seq<Event>)
    requires IsHistory(s, events)
    ensures IsHistory(s, events + [Nothing])
  {
    forall i | 0 <= i < |events| && Lives(events, i) ensures Describes(events + [Nothing], i, s) {
      LogDescribes(s, events, Nothing, i);
    }
    forall t | t in s.plans ensures PlanLives(events + [Nothing], t) {
      var i := PlanOf(s, events, t);
      PlanStays(events, Nothing, i);
    }
    forall c | c in s.confirmations ensures ConfirmationLives(events + [Nothing], c) {
      var i := PlanOfConfirmation(s, events, c);
      PlanStays(events, Nothing, i);
    }
    Assemble(events, Nothing, s);
  }

  lemma ApplyKeeps(s: Store, events: seq<Event>, op: Op)
    requires IsHistory(s, events) && NewTokens(events, op)
    ensures IsHistory(Apply(s, op).0, events + [Apply(s, op).1])
  {
    match op
    case CreateOp(r, p, c, e) =>
      if WellFormed(r) { MakeKeeps(s, events, r, p, c, e); } else { NothingKeeps(s, events); }
    case ApproveOp(c, now) =>
      if c in Purged(s, now).confirmations { AcceptKeeps(s, events, c, now); } else { SweepKeeps(s, events, now); }
    case ConsumeOp(p, now) =>
      if Consumed(s, p, now).1.Done? { UseKeeps(s, events, p, now); } else { SweepKeeps(s, events, now); }
    case PurgeOp(now) => SweepKeeps(s, events, now);
  }

  /** In every run with fresh tokens the store is exactly what its log says. */
  lemma {:induction false} StoreIsHistory(ops: seq<Op>)
    requires FreshTokens(ops)
    ensures IsHistory(Run(ops).0, Run(ops).1)
    decreases |ops|
  {
    if ops != [] {
      var n := |ops| - 1;
      StoreIsHistory(ops[..n]);
      ApplyKeeps(Run(ops[..n]).0, Run(ops[..n]).1, ops[n]);
    }
  }

  // ---- main results ----

  /** The making event of a plan that may be executed at time `now`. */
  predicate Executable(events: seq<Event>, i: nat, token: Token, now: int) {
    Lives(events, i) && events[i].token == token && events[i].expires >= now && (events[i].needs ==> Confirmed(events, i))
  }

  /** `consume` succeeds exactly on a plan that was made, was neither used nor swept away since, has not
      expired, and whose own confirmation was accepted since it was made, if it needs one. */
  lemma ConsumeExactly(ops: seq<Op>, token: Token, now: int)
    requires FreshTokens(ops)
    ensures Consumed(Run(ops).0, token, now).1.Done? <==>
      exists i :: 0 <= i < |ops| && Executable(Run(ops).1, i, token, now)
  {
    StoreIsHistory(ops);
    var (s, events) := Run(ops);
    if Consumed(s, token, now).1.Done? {
      var i := PlanOf(s, events, token);
      assert Executable(events, i, token, now);
    }
    if i :| 0 <= i < |ops| && Executable(events, i, token, now) {
      assert Describes(events, i, s);
      PurgeDescribes(s, events, i, now);
    }
  }

  /** The making event of a plan whose confirmation may be accepted at time `now`. */
  predicate Acceptable(events: seq<Event>, i: nat, confirm: Token, now: int) {
    LiveNeedy(events, i) && events[i].confirm == confirm && events[i].expires >= now && !Confirmed(events, i)
  }

  /** `approve` succeeds exactly on the unaccepted confirmation of a living, unexpired plan, and never
      finds the plan missing. */
  lemma ApproveExactly(ops: seq<Op>, confirm: Token, now: int)
    requires FreshTokens(ops)
    ensures Approved(Run(ops).0, confirm, now).1 != Refused(PlanGone)
    ensures Approved(Run(ops).0, confirm, now).1.Done? <==>
      exists i :: 0 <= i < |ops| && Acceptable(Run(ops).1, i, confirm, now)
  {
    StoreIsHistory(ops);
    var (s, events) := Run(ops);
    if confirm in Purged(s, now).confirmations {
      AcceptKeeps(s, events, confirm, now);
      var i := PlanOfConfirmation(s, events, confirm);
      assert Acceptable(events, i, confirm, now);
    }
    if i :| 0 <= i < |ops| && Acceptable(events, i, confirm, now) {
      assert Describes(events, i, s);
      PurgeDescribes(s, events, i, now);
    }
  }

  /** The confirmations map one to one onto the live unapproved plans. */
  lemma ConfirmationsAreUnapprovedPlans(ops: seq<Op>)
    requires FreshTokens(ops)
    ensures var s := Run(ops).0;
      && (forall c :: c in s.confirmations ==>
            s.confirmations[c] in s.plans && !s.plans[s.confirmations[c]].approved && s.plans[s.confirmations[c]].confirmation == Some(c))
      && (forall t :: t in s.plans && !s.plans[t].approved ==>
            s.plans[t].confirmation.Some? && s.plans[t].confirmation.value in s.confirmations
            && s.confirmations[s.plans[t].confirmation.value] == t)
  {
    StoreIsHistory(ops);
    var (s, events) := Run(ops);
    forall c | c in s.confirmations
      ensures s.confirmations[c] in s.plans && !s.plans[s.confirmations[c]].approved && s.plans[s.confirmations[c]].confirmation == Some(c)
    {
      var i := PlanOfConfirmation(s, events, c);
    }
    forall t | t in s.plans && !s.plans[t].approved
      ensures s.plans[t].confirmation.Some? && s.plans[t].confirmation.value in s.confirmations
        && s.confirmations[s.plans[t].confirmation.value] == t
    {
      var i := PlanOf(s, events, t);
    }
  }

  lemma {:induction false} PrefixRun(ops: seq<Op>, j: nat)
    requires FreshTokens(ops) && j <= |ops|
    ensures FreshTokens(ops[..j]) && Run(ops[..j]).1 == Run(ops).1[..j]
    ensures j < |ops| ==> Run(ops).1[j] == Apply(Run(ops[..j]).0, ops[j]).1
    decreases |ops|
  {
    if j < |ops| {
      var n := |ops| - 1;
      PrefixRun(ops[..n], if j < n then j else n);
      assert ops[..n][..j] == ops[..j];
      assert Run(ops).1[..n] == Run(ops[..n]).1;
      assert Run(ops).1[..j] == Run(ops).1[..n][..j];
    } else {
      assert ops[..j] == ops && Run(ops).1[..j] == Run(ops).1;
    }
  }

  /** The log entry of an execution, and the making event it goes back to. */
  lemma UsedWasExecutable(ops: seq<Op>, j: nat) returns (i: nat)
    requires FreshTokens(ops) && j < |ops| && Run(ops).1[j].Used?
    ensures i < j && Executable(Run(ops).1[..j], i, Run(ops).1[j].token, Run(ops).1[j].now)
  {
    PrefixRun(ops, j);
    var e := Run(ops).1[j];
    ConsumeExactly(ops[..j], e.token, e.now);
    i :| 0 <= i < |ops[..j]| && Executable(Run(ops[..j]).1, i, e.token, e.now);
  }

  /** No plan is executed twice. */
  lemma ConsumedAtMostOnce(ops: seq<Op>, log: seq<Event>, j: nat, k: nat)
    requires FreshTokens(ops) && log == Run(ops).1 && j < k < |log| && log[j].Used? && log[k].Used?
    ensures log[j].token != log[k].token
  {
    var a := UsedWasExecutable(ops, j);
    var b := UsedWasExecutable(ops, k);
    StoreIsHistory(ops);
    if log[j].token == log[k].token {
      OtherTokens(log, a, b);
    }
  }

  /** A plan that needs confirmation is executed only after its own confirmation was accepted. */
  lemma ConsumedOnlyAfterApproval(ops: seq<Op>, log: seq<Event>, j: nat) returns (i: nat, k: nat)
    requires FreshTokens(ops) && log == Run(ops).1 && j < |log| && log[j].Used?
    ensures i < j && log[i].Made? && log[i].token == log[j].token && log[j].now <= log[i].expires
    ensures log[i].needs ==> i < k < j && log[k].Accepted? && log[k].confirm == log[i].confirm
  {
    i := UsedWasExecutable(ops, j);
    var before := log[..j];
    k := 0;
    if before[i].needs {
      k :| i < k < |before| && before[k].Accepted? && before[k].confirm == before[i].confirm;
    }
  }

  /** A refused `consume` leaves the store as purging leaves it. */
  lemma RefusedConsumeChangesNothing(s: Store, token: Token, now: int)
    requires Consumed(s, token, now).1.Refused?
    ensures Consumed(s, token, now).0 == Purged(s, now)
    ensures (forall t :: t in s.plans ==> s.plans[t].expires >= now) ==> Consumed(s, token, now).0 == s
  {
    if forall t :: t in s.plans ==> s.plans[t].expires >= now {
      assert Purged(s, now).plans == s.plans && Purged(s, now).confirmations == s.confirmations;
    }
  }

  // ---- the same in the operations and their answers alone ----

  /** One of the locked decisions, or the one for the synthesis, asks for confirmation. */
  predicate Demands(r: Request) {
    (exists k :: 0 <= k < |r.decisions| && r.decisions[k]) || r.synthesis == Some(true)
  }

  predicate Proper(r: Request) {
    r.requests > 0 && |r.decisions| == r.requests && r.roles == r.requests
  }

  /** Operation `j` of the run was answered without an error; a purge answers nothing. */
  predicate Succeeds(ops: seq<Op>, j: nat)
    requires j < |ops|
  {
    var s := Run(ops[..j]).0;
    match ops[j]
    case CreateOp(r, p, c, e) => Created(s, r, p, c, e).1.Done?
    case ApproveOp(c, now) => Approved(s, c, now).1.Done?
    case ConsumeOp(p, now) => Consumed(s, p, now).1.Done?
    case PurgeOp(_) => false
  }

  function TimeOf(op: Op): Option<int> {
    match op
    case CreateOp(_, _, _, _) => None
    case ApproveOp(_, now) => Some(now)
    case ConsumeOp(_, now) => Some(now)
    case PurgeOp(now) => Some(now)
  }

  /** Operation `i` created the plan with this token, no operation since came after its expiry time, and no
      `consume` was given it. */
  predicate Stands(ops: seq<Op>, i: nat, token: Token) {
    && i < |ops| && ops[i].CreateOp? && ops[i].planToken == token && Proper(ops[i].r)
    && forall j :: i < j < |ops| ==>
      && (TimeOf(ops[j]).Some? ==> TimeOf(ops[j]).value <= ops[i].expires)
      && !(ops[j].ConsumeOp? && ops[j].planToken == token && Succeeds(ops, j))
  }

  /** An `approve` with the confirmation token drawn by operation `i` succeeded since. */
  predicate AcceptedSince(ops: seq<Op>, i: nat)
    requires i < |ops| && ops[i].CreateOp?
  {
    exists j :: i < j < |ops| && ops[j].ApproveOp? && ops[j].confirmToken == ops[i].confirmToken && Succeeds(ops, j)
  }

  /** What `create` answers and stores: the frozen content as it is, ready at once or waiting for the drawn
      confirmation token, by what the decisions demand. */
  lemma CreateTells(s: Store, r: Request, planToken: Token, confirmToken: Token, expires: int)
    ensures var (after, out) := Created(s, r, planToken, confirmToken, expires);
      if !Proper(r) then after == s && out == Refused(BadLists)
      else if Demands(r) then
        && out == Done(Plan(r.locked, true, Some(confirmToken), false, ConfirmationRequired, false, expires))
        && after == Store(s.plans[planToken := out.value], s.confirmations[confirmToken := planToken])
      else
        && out == Done(Plan(r.locked, false, None, true, Ready, true, expires))
        && after == Store(s.plans[planToken := out.value], s.confirmations)
  {
    DemandsIsNeeds(r);
  }

  lemma DemandsIsNeeds(r: Request)
    ensures Demands(r) <==> NeedsConfirmation(r)
  {
    if true in r.decisions {
      var k :| 0 <= k < |r.decisions| && r.decisions[k] == true;
    }
  }

  /** What the log says of an operation. */
  predicate LogTells(ops: seq<Op>, j: nat, e: Event)
    requires j < |ops|
  {
    && (e.Made? <==> ops[j].CreateOp? && Proper(ops[j].r))
    && (e.Made? ==> e == Made(ops[j].planToken, Demands(ops[j].r), ops[j].confirmToken, ops[j].expires))
    && (e.Accepted? <==> ops[j].ApproveOp? && Succeeds(ops, j))
    && (e.Accepted? ==> e == Accepted(ops[j].confirmToken, ops[j].now))
    && (e.Used? <==> ops[j].ConsumeOp? && Succeeds(ops, j))
    && (e.Used? ==> e == Used(ops[j].planToken, ops[j].now))
    && SweptAt(e) == TimeOf(ops[j])
  }

  lemma LogTellsOps(ops: seq<Op>, j: nat)
    requires FreshTokens(ops) && j < |ops|
    ensures LogTells(ops, j, Run(ops).1[j])
  {
    PrefixRun(ops, j);
    var s := Run(ops[..j]).0;
    if ops[j].CreateOp? {
      CreateTells(s, ops[j].r, ops[j].planToken, ops[j].confirmToken, ops[j].expires);
    }
  }

  lemma LogTellsAll(ops: seq<Op>, log: seq<Event>)
    requires FreshTokens(ops) && log == Run(ops).1
    ensures forall j :: 0 <= j < |ops| ==> LogTells(ops, j, log[j])
  {
    forall j | 0 <= j < |ops| ensures LogTells(ops, j, log[j]) {
      LogTellsOps(ops, j);
    }
  }

  lemma LivesIsStands(ops: seq<Op>, log: seq<Event>, i: nat)
    requires |log| == |ops| && i < |ops| && forall j :: 0 <= j < |ops| ==> LogTells(ops, j, log[j])
    ensures Lives(log, i) <==> ops[i].CreateOp? && Stands(ops, i, ops[i].planToken)
  {
    assert LogTells(ops, i, log[i]);
    if Lives(log, i) {
      var e := ops[i];
      assert e.CreateOp?;
      forall j | i < j < |ops|
        ensures TimeOf(ops[j]).Some? ==> TimeOf(ops[j]).value <= e.expires
        ensures !(ops[j].ConsumeOp? && ops[j].planToken == e.planToken && Succeeds(ops, j))
      {
        assert LogTells(ops, j, log[j]) && Spares(log[i], log[j]);
      }
    }
    if ops[i].CreateOp? && Stands(ops, i, ops[i].planToken) {
      forall j | i < j < |ops| ensures Spares(log[i], log[j]) {
        assert LogTells(ops, j, log[j]);
      }
    }
  }

  lemma ConfirmedIsAccepted(ops: seq<Op>, log: seq<Event>, i: nat)
    requires |log| == |ops| && i < |ops| && log[i].Made? && forall j :: 0 <= j < |ops| ==> LogTells(ops, j, log[j])
    ensures ops[i].CreateOp? && (Confirmed(log, i) <==> AcceptedSince(ops, i))
  {
    assert LogTells(ops, i, log[i]);
    if Confirmed(log, i) {
      var j :| i < j < |log| && log[j].Accepted? && log[j].confirm == log[i].confirm;
      assert LogTells(ops, j, log[j]);
    }
    if AcceptedSince(ops, i) {
      var j :| i < j < |ops| && ops[j].ApproveOp? && ops[j].confirmToken == ops[i].confirmToken && Succeeds(ops, j);
      assert LogTells(ops, j, log[j]);
    }
  }

  /** Every stored plan holds what one of the operations froze. */
  ghost predicate FrozenBy(ops: seq<Op>, token: Token, plan: Plan) {
    exists i :: 0 <= i < |ops| && ops[i].CreateOp? && Proper(ops[i].r) && ops[i].planToken == token && plan.locked == ops[i].r.locked
  }

  lemma {:induction false} PlansAreFrozen(ops: seq<Op>, token: Token)
    requires token in Run(ops).0.plans
    ensures FrozenBy(ops, token, Run(ops).0.plans[token])
    decreases |ops|
  {
    var n := |ops| - 1;
    var before, after := Run(ops[..n]).0, Run(ops).0;
    if ops[n].CreateOp? && Proper(ops[n].r) && ops[n].planToken == token {
      CreateTells(before, ops[n].r, ops[n].planToken, ops[n].confirmToken, ops[n].expires);
      assert after.plans[token].locked == ops[n].r.locked;
    } else {
      LockKept(before, ops[n], token);
      PlansAreFrozen(ops[..n], token);
      var i :| 0 <= i < n && ops[..n][i].CreateOp? && Proper(ops[..n][i].r) && ops[..n][i].planToken == token
        && before.plans[token].locked == ops[..n][i].r.locked;
      assert ops[..n][i] == ops[i];
    }
  }

  lemma LockKept(s: Store, op: Op, token: Token)
    requires token in Apply(s, op).0.plans && !(op.CreateOp? && Proper(op.r) && op.planToken == token)
    ensures token in s.plans && Apply(s, op).0.plans[token].locked == s.plans[token].locked
  {
    if op.CreateOp? {
      CreateTells(s, op.r, op.planToken, op.confirmToken, op.expires);
    }
  }

  /** Whether `consume` succeeds, by the operations before it: the plan was created, came through unexpired and
      unused, and if one of its decisions demands it, its own confirmation token was accepted since. Without that
      acceptance the refusal says so; any other refusal knows no such plan. */
  lemma ConsumeByOps(ops: seq<Op>, token: Token, now: int)
    requires FreshTokens(ops)
    ensures var out := Consumed(Run(ops).0, token, now).1;
      && (out.Done? <==> exists i: nat :: Stands(ops, i, token) && now <= ops[i].expires && (Demands(ops[i].r) ==> AcceptedSince(ops, i)))
      && (out == Refused(NotApproved) <==>
            exists i: nat :: Stands(ops, i, token) && now <= ops[i].expires && Demands(ops[i].r) && !AcceptedSince(ops, i))
      && (out.Done? || out == Refused(NotApproved) || out == Refused(UnknownPlan))
  {
    StoreIsHistory(ops);
    var (s, log) := Run(ops);
    LogTellsAll(ops, log);
    if token in s.plans && s.plans[token].expires >= now {
      var i := PlanOf(s, log, token);
      LivesIsStands(ops, log, i);
      ConfirmedIsAccepted(ops, log, i);
      assert LogTells(ops, i, log[i]);
      OnlyOneStands(ops, log, i, token);
    } else {
      forall i: nat | Stands(ops, i, token) ensures now > ops[i].expires {
        LivesIsStands(ops, log, i);
        assert LogTells(ops, i, log[i]) && Describes(log, i, s);
      }
    }
  }

  lemma OnlyOneStands(ops: seq<Op>, log: seq<Event>, i: nat, token: Token)
    requires |log| == |ops| && UniqueTokens(log) && Stands(ops, i, token) && forall j :: 0 <= j < |ops| ==> LogTells(ops, j, log[j])
    ensures forall k: nat :: Stands(ops, k, token) ==> k == i
  {
    forall k: nat | Stands(ops, k, token) ensures k == i {
      assert LogTells(ops, i, log[i]) && LogTells(ops, k, log[k]);
      OtherTokens(log, i, k);
    }
  }

  /** The plan handed out is the one that was created: its frozen content, now spent. */
  lemma ConsumeHandsOut(ops: seq<Op>, token: Token, now: int) returns (i: nat)
    requires FreshTokens(ops) && Consumed(Run(ops).0, token, now).1.Done?
    ensures Stands(ops, i, token) && (Demands(ops[i].r) ==> AcceptedSince(ops, i))
    ensures var plan := Consumed(Run(ops).0, token, now).1.value;
      plan.locked == ops[i].r.locked && plan.needs == Demands(ops[i].r) && plan.approved && plan.mayBegin && plan.status == Spent
  {
    StoreIsHistory(ops);
    var (s, log) := Run(ops);
    LogTellsAll(ops, log);
    i := PlanOf(s, log, token);
    LivesIsStands(ops, log, i);
    ConfirmedIsAccepted(ops, log, i);
    assert LogTells(ops, i, log[i]);
    PlansAreFrozen(ops, token);
    var k :| 0 <= k < |ops| && ops[k].CreateOp? && Proper(ops[k].r) && ops[k].planToken == token && s.plans[token].locked == ops[k].r.locked;
    assert LogTells(ops, k, log[k]);
    OtherTokens(log, i, k);
  }

  /** Operation `i` created a standing plan that demands confirmation, with this token, and did not get it yet. */
  predicate Awaits(ops: seq<Op>, i: nat, confirm: Token, now: int) {
    && i < |ops| && ops[i].CreateOp? && Stands(ops, i, ops[i].planToken)
    && ops[i].confirmToken == confirm && now <= ops[i].expires && Demands(ops[i].r) && !AcceptedSince(ops, i)
  }

  /** Whether `approve` succeeds, by the operations before it: the confirmation token was drawn for a plan that
      demands it, stands unexpired, and was not accepted before; the plan is ready then. */
  lemma ApproveByOps(ops: seq<Op>, confirm: Token, now: int)
    requires FreshTokens(ops)
    ensures var out := Approved(Run(ops).0, confirm, now).1;
      && (out.Done? <==> exists i: nat :: Awaits(ops, i, confirm, now))
      && (out.Done? ==> out.value.approved && out.value.status == Ready && out.value.mayBegin && out.value.confirmation == None)
  {
    ApproveExactly(ops, confirm, now);
    var log := Run(ops).1;
    LogTellsAll(ops, log);
    forall i: nat | i < |ops| ensures Acceptable(log, i, confirm, now) <==> Awaits(ops, i, confirm, now) {
      LivesIsStands(ops, log, i);
      assert LogTells(ops, i, log[i]);
      if log[i].Made? {
        ConfirmedIsAccepted(ops, log, i);
      }
    }
  }
}
