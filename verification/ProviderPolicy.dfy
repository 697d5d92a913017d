// Provider order and pins: which provider a session is pinned to, and in which order providers are tried.

module ProviderPolicy {
  import opened Text

  datatype Mode = CodexFirst | ThirdPartyFirst | Manual

  datatype Pin = Pin(provider: string, until: Option<int>)

  datatype Policy = Policy(mode: Mode, codexFirst: seq<string>, thirdPartyFirst: seq<string>,
                           manualProvider: Option<string>, sticky: Option<Pin>, sessions: map<string, Pin>)

  predicate Live(pin: Pin, now: int) {
    pin.until.None? || pin.until.value > now
  }

  /** `clear_sticky` without a session forgets every pin. */
  function ClearedSticky(p: Policy, session: Option<string>): Policy {
    if session.Some? then p.(sessions := p.sessions - {session.value})
    else p.(sticky := None, sessions := map[])
  }

  /** The policy once an expired pin of the session is dropped. */
  function Forgotten(p: Policy, session: Option<string>, now: int): Policy {
    if session.Some? && session.value in p.sessions && !Live(p.sessions[session.value], now)
    then p.(sessions := p.sessions - {session.value}) else p
  }

  /** `sticky_for`: the pinned provider and the policy after its lazy clean-up. */
  function StickyFor(p: Policy, session: Option<string>, now: int): (Option<string>, Policy) {
    if session.Some? && session.value in p.sessions && Live(p.sessions[session.value], now)
    then (Some(p.sessions[session.value].provider), p)
    else
      var q := Forgotten(p, session, now);
      if q.sticky.Some? && Live(q.sticky.value, now) then (Some(q.sticky.value.provider), q)
      else if q.sticky.Some? then (None, ClearedSticky(q, None))
      else (None, q)
  }

  /** `provider_order` */
  function ProviderOrder(p: Policy, session: Option<string>, now: int): seq<string> {
    var pinned := StickyFor(p, session, now).0;
    if pinned.Some? then [pinned.value]
    else match p.mode
      case Manual => if p.manualProvider.Some? then [p.manualProvider.value] else []
      case CodexFirst => p.codexFirst
      case ThirdPartyFirst => p.thirdPartyFirst
  }

  /** `stick` */
  function Stuck(p: Policy, provider: string, resetAt: Option<int>, session: Option<string>): Policy {
    if session.Some? then p.(sessions := p.sessions[session.value := Pin(provider, resetAt)])
    else p.(sticky := Some(Pin(provider, resetAt)))
  }

  class ProviderRoutingPolicy {
    var mode: Mode
    var codexFirst: seq<string>
    var thirdPartyFirst: seq<string>
    var manualProvider: Option<string>
    var sticky: Option<Pin>
    var sessionSticky: map<string, Pin>

    ghost function Value(): Policy
      reads this
    {
      Policy(mode, codexFirst, thirdPartyFirst, manualProvider, sticky, sessionSticky)
    }

    constructor (p: Policy)
      ensures Value() == p
    {
      mode, codexFirst, thirdPartyFirst := p.mode, p.codexFirst, p.thirdPartyFirst;
      manualProvider, sticky, sessionSticky := p.manualProvider, p.sticky, p.sessions;
    }

    method StickyProvider(session: Option<string>, now: int) returns (provider: Option<string>)
      modifies this`sticky, this`sessionSticky
      ensures (provider, Value()) == StickyFor(old(Value()), session, now)
    {
      if session.Some? && session.value in sessionSticky {
        var pin := sessionSticky[session.value];
        if pin.until.None? || pin.until.value > now {
          return Some(pin.provider);
        }
        sessionSticky := sessionSticky - {session.value};
      }
      if sticky.Some? && (sticky.value.until.None? || sticky.value.until.value > now) {
        return Some(sticky.value.provider);
      }
      if sticky.Some? {
        ClearSticky(None);
      }
      provider := None;
    }

    method Stick(provider: string, resetAt: Option<int>, session: Option<string>)
      modifies this`sticky, this`sessionSticky
      ensures Value() == Stuck(old(Value()), provider, resetAt, session)
    {
      if session.Some? {
        sessionSticky := sessionSticky[session.value := Pin(provider, resetAt)];
      } else {
        sticky := Some(Pin(provider, resetAt));
      }
    }

    method ClearSticky(session: Option<string>)
      modifies this`sticky, this`sessionSticky
      ensures Value() == ClearedSticky(old(Value()), session)
    {
      if session.Some? {
        sessionSticky := sessionSticky - {session.value};
        return;
      }
      sticky := None;
      sessionSticky := map[];
    }

    method Order(session: Option<string>, now: int) returns (order: seq<string>)
      modifies this`sticky, this`sessionSticky
      ensures order == ProviderOrder(old(Value()), session, now) && Value() == StickyFor(old(Value()), session, now).1
    {
      var pinned := StickyProvider(session, now);
      if pinned.Some? {
        return [pinned.value];
      }
      match mode
      case Manual => order := if manualProvider.Some? then [manualProvider.value] else [];
      case CodexFirst => order := codexFirst;
      case ThirdPartyFirst => order := thirdPartyFirst;
    }
  }

  /** Asking again at the same time gives the same pin and changes nothing more. */
  lemma StickyForIsIdempotent(p: Policy, session: Option<string>, now: int)
    ensures var (pinned, q) := StickyFor(p, session, now); StickyFor(q, session, now) == (pinned, q)
  {
  }

  /** The clean-up never touches mode, routes or the manual provider. */
  lemma StickyForKeepsMode(p: Policy, session: Option<string>, now: int)
    ensures var q := StickyFor(p, session, now).1;
      q.mode == p.mode && q.manualProvider == p.manualProvider && q.codexFirst == p.codexFirst && q.thirdPartyFirst == p.thirdPartyFirst
  {
  }

  /** A fresh pin decides for its session exactly until its reset time; later the session is as if it
      had never been pinned, and only the global pin counts. */
  lemma PinHoldsUntilReset(p: Policy, provider: string, resetAt: Option<int>, session: Option<string>, now: int)
    ensures var pinned := StickyFor(Stuck(p, provider, resetAt, session), session, now).0;
      if resetAt.None? || resetAt.value > now then pinned == Some(provider)
      else if session.Some? then pinned == StickyFor(p.(sessions := p.sessions - {session.value}), session, now).0
      else pinned == None
  {
  }

  // ---- how long a session's pin is kept ----

  datatype Op = Pinning(provider: string, resetAt: Option<int>, session: Option<string>)
              | Clearing(session: Option<string>)
              | Looking(session: Option<string>, now: int)

  function Step(p: Policy, op: Op): Policy {
    match op
    case Pinning(provider, resetAt, session) => Stuck(p, provider, resetAt, session)
    case Clearing(session) => ClearedSticky(p, session)
    case Looking(session, now) => StickyFor(p, session, now).1
  }

  function Run(p: Policy, ops: seq<Op>): Policy
    decreases |ops|
  {
    if ops == [] then p else Step(Run(p, ops[..|ops| - 1]), ops[|ops| - 1])
  }

  /** The clock never goes back. */
  predicate Ordered(ops: seq<Op>) {
    forall i, j :: 0 <= i < j < |ops| && ops[i].Looking? && ops[j].Looking? ==> ops[i].now <= ops[j].now
  }

  /** The global pin set last. */
  function GlobalPin(p: Policy, ops: seq<Op>): Option<Pin>
    decreases |ops|
  {
    if ops == [] then p.sticky
    else
      match ops[|ops| - 1]
      case Pinning(provider, resetAt, None) => Some(Pin(provider, resetAt))
      case _ => GlobalPin(p, ops[..|ops| - 1])
  }

  /** The pin of a session set last and not cleared by name since. */
  function SessionPin(p: Policy, ops: seq<Op>, session: string): Option<Pin>
    decreases |ops|
  {
    if ops == [] then if session in p.sessions then Some(p.sessions[session]) else None
    else
      match ops[|ops| - 1]
      case Pinning(provider, resetAt, Some(x)) =>
        if x == session then Some(Pin(provider, resetAt)) else SessionPin(p, ops[..|ops| - 1], session)
      case Clearing(Some(x)) => if x == session then None else SessionPin(p, ops[..|ops| - 1], session)
      case _ => SessionPin(p, ops[..|ops| - 1], session)
  }

  predicate HasLivePin(p: Policy, ops: seq<Op>, session: Option<string>, now: int) {
    session.Some? && SessionPin(p, ops, session.value).Some? && Live(SessionPin(p, ops, session.value).value, now)
  }

  /** The operation costs session `s` its pin `pin`: another pin, a clearing, the session's own lookup past
      the pin's reset, or any lookup without a live pin of its own past the reset of the global pin. */
  predicate Ends(p: Policy, before: seq<Op>, op: Op, s: string, pin: Pin) {
    match op
    case Pinning(provider, resetAt, session) => session == Some(s) && Pin(provider, resetAt) != pin
    case Clearing(session) => session == None || session == Some(s)
    case Looking(session, now) =>
      !HasLivePin(p, before, session, now)
      && (session == Some(s) || (GlobalPin(p, before).Some? && !Live(GlobalPin(p, before).value, now)))
  }

  predicate NothingEnds(p: Policy, ops: seq<Op>, s: string, pin: Pin)
    decreases |ops|
  {
    ops == [] || (NothingEnds(p, ops[..|ops| - 1], s, pin) && !Ends(p, ops[..|ops| - 1], ops[|ops| - 1], s, pin))
  }

  predicate Holds(p: Policy, s: string, pin: Pin) {
    s in p.sessions && p.sessions[s] == pin
  }

  predicate HeldThroughout(p: Policy, ops: seq<Op>, s: string, pin: Pin)
    decreases |ops|
  {
    Holds(Run(p, ops), s, pin) && (ops == [] || HeldThroughout(p, ops[..|ops| - 1], s, pin))
  }

  /** While no lookup wiped the pins, the policy holds what the operations say, but for expired pins. */
  ghost predicate Traced(p: Policy, ops: seq<Op>, q: Policy) {
    && q.sticky == GlobalPin(p, ops)
    && (forall x :: x in q.sessions ==> SessionPin(p, ops, x) == Some(q.sessions[x]))
    && (forall x, now: int :: IsLater(ops, now) && HasLivePin(p, ops, Some(x), now) ==> x in q.sessions)
  }

  predicate IsLater(ops: seq<Op>, now: int) {
    forall i :: 0 <= i < |ops| && ops[i].Looking? ==> ops[i].now <= now
  }

  lemma PinsOneMore(p: Policy, ops: seq<Op>, op: Op, x: string)
    ensures GlobalPin(p, ops + [op]) == if op.Pinning? && op.session.None? then Some(Pin(op.provider, op.resetAt)) else GlobalPin(p, ops)
    ensures SessionPin(p, ops + [op], x) ==
      if op.Pinning? && op.session == Some(x) then Some(Pin(op.provider, op.resetAt))
      else if op.Clearing? && op.session == Some(x) then None
      else SessionPin(p, ops, x)
  {
    assert (ops + [op])[..|ops|] == ops;
  }

  lemma LaterOneMore(ops: seq<Op>, op: Op, now: int)
    requires IsLater(ops + [op], now)
    ensures IsLater(ops, now) && (op.Looking? ==> op.now <= now)
  {
    var longer := ops + [op];
    assert longer[|ops|] == op;
    assert forall i :: 0 <= i < |ops| ==> longer[i] == ops[i];
  }

  lemma OrderedIsLater(ops: seq<Op>, op: Op)
    requires Ordered(ops + [op]) && op.Looking?
    ensures IsLater(ops, op.now)
  {
    var longer := ops + [op];
    assert longer[|ops|] == op;
    assert forall i :: 0 <= i < |ops| ==> longer[i] == ops[i];
  }

  /** A lookup finds a live pin of its session exactly when the operations before say there is one. */
  lemma LooksAlike(p: Policy, ops: seq<Op>, q: Policy, session: Option<string>, now: int)
    requires Traced(p, ops, q) && IsLater(ops, now)
    ensures HasLivePin(p, ops, session, now) <==>
      session.Some? && session.value in q.sessions && Live(q.sessions[session.value], now)
  {
  }

  lemma StepHolds(p: Policy, ops: seq<Op>, op: Op, q: Policy, s: string, pin: Pin)
    requires Traced(p, ops, q) && Ordered(ops + [op]) && Holds(q, s, pin)
    ensures Holds(Step(q, op), s, pin) <==> !Ends(p, ops, op, s, pin)
  {
    if op.Looking? {
      OrderedIsLater(ops, op);
      LooksAlike(p, ops, q, op.session, op.now);
    }
  }

  lemma StepTraced(p: Policy, ops: seq<Op>, op: Op, q: Policy, s: string, pin: Pin)
    requires Traced(p, ops, q) && Ordered(ops + [op]) && Holds(q, s, pin) && !Ends(p, ops, op, s, pin)
    ensures Traced(p, ops + [op], Step(q, op))
  {
    var after := Step(q, op);
    PinsOneMore(p, ops, op, s);
    if op.Looking? {
      OrderedIsLater(ops, op);
      LooksAlike(p, ops, q, op.session, op.now);
    }
    forall x | x in after.sessions ensures SessionPin(p, ops + [op], x) == Some(after.sessions[x]) {
      PinsOneMore(p, ops, op, x);
    }
    forall x, now: int | IsLater(ops + [op], now) && HasLivePin(p, ops + [op], Some(x), now) ensures x in after.sessions {
      LaterOneMore(ops, op, now);
      PinsOneMore(p, ops, op, x);
      assert HasLivePin(p, ops, Some(x), now) ==> x in q.sessions;
    }
  }

  lemma {:induction false} TracedWhileHeld(p: Policy, ops: seq<Op>, s: string, pin: Pin)
    requires Holds(p, s, pin) && Ordered(ops) && NothingEnds(p, ops, s, pin)
    ensures Traced(p, ops, Run(p, ops)) && Holds(Run(p, ops), s, pin)
    decreases |ops|
  {
    if ops != [] {
      var n := |ops| - 1;
      TracedWhileHeld(p, ops[..n], s, pin);
      assert ops[..n] + [ops[n]] == ops;
      StepTraced(p, ops[..n], ops[n], Run(p, ops[..n]), s, pin);
      StepHolds(p, ops[..n], ops[n], Run(p, ops[..n]), s, pin);
    }
  }

  /** Over every run of pinnings, clearings and lookups a session keeps its pin all along exactly when none
      of the operations, by what was pinned and cleared before it, costs it the pin. */
  lemma {:induction false} PinHeldIff(p: Policy, ops: seq<Op>, s: string, pin: Pin)
    requires Holds(p, s, pin) && Ordered(ops)
    ensures HeldThroughout(p, ops, s, pin) <==> NothingEnds(p, ops, s, pin)
    decreases |ops|
  {
    if ops != [] {
      var n := |ops| - 1;
      PinHeldIff(p, ops[..n], s, pin);
      if NothingEnds(p, ops[..n], s, pin) {
        TracedWhileHeld(p, ops[..n], s, pin);
        assert ops[..n] + [ops[n]] == ops;
        StepHolds(p, ops[..n], ops[n], Run(p, ops[..n]), s, pin);
      }
    }
  }

  // ---- what a lookup finds and leaves ----

  predicate LiveFor(p: Policy, session: string, now: int) {
    session in p.sessions && (p.sessions[session].until.None? || now < p.sessions[session].until.value)
  }

  /** The session has a live pin to this provider, or has none and the global one is. */
  predicate PinnedTo(p: Policy, session: Option<string>, now: int, provider: string) {
    if session.Some? && LiveFor(p, session.value, now) then p.sessions[session.value].provider == provider
    else p.sticky.Some? && p.sticky.value.provider == provider && (p.sticky.value.until.None? || now < p.sticky.value.until.value)
  }

  lemma LookupFinds(p: Policy, session: Option<string>, now: int)
    ensures var found := StickyFor(p, session, now).0;
      (found.Some? ==> PinnedTo(p, session, now, found.value)) && (found.None? ==> forall x :: !PinnedTo(p, session, now, x))
    ensures forall x :: PinnedTo(p, session, now, x) ==> StickyFor(p, session, now).0 == Some(x)
  {
  }

  /** The lookup comes without a live pin of its own session upon an expired global one. */
  predicate Wipes(p: Policy, session: Option<string>, now: int) {
    && !(session.Some? && LiveFor(p, session.value, now))
    && p.sticky.Some? && p.sticky.value.until.Some? && p.sticky.value.until.value <= now
  }

  /** A lookup forgets every pin if it wipes, else at most the expired one of its own session. */
  lemma LookupLeaves(p: Policy, session: Option<string>, now: int)
    ensures var q := StickyFor(p, session, now).1;
      && q.sticky == (if Wipes(p, session, now) then None else p.sticky)
      && (forall x :: x in q.sessions <==> x in p.sessions && !Wipes(p, session, now) && !(session == Some(x) && !LiveFor(p, x, now)))
      && (forall x :: x in q.sessions ==> q.sessions[x] == p.sessions[x])
  {
  }

  /** The provider order is the live pin alone; without one it is the mode's. */
  lemma OrderFollows(p: Policy, session: Option<string>, now: int)
    ensures forall x :: PinnedTo(p, session, now, x) ==> ProviderOrder(p, session, now) == [x]
    ensures (forall x :: !PinnedTo(p, session, now, x)) ==>
      match p.mode
      case Manual => ProviderOrder(p, session, now) == (if p.manualProvider == None then [] else [p.manualProvider.value])
      case CodexFirst => ProviderOrder(p, session, now) == p.codexFirst
      case ThirdPartyFirst => ProviderOrder(p, session, now) == p.thirdPartyFirst
  {
    LookupFinds(p, session, now);
  }
}
