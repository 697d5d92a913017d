// The append-only registry of write scopes: grant, delegate, revoke, authorize.

module WriteOwnership {
  import opened Text
  import opened Glob

  datatype Kind = Ownership | Delegation(issuer: string)

  datatype Record = Record(kind: Kind, taskId: string, actor: string, scopes: seq<string>,
                           expiresAt: Option<int>, revoked: bool)

  datatype Reason = NoScope | Overlap(existing: string) | MayNotDelegate | MayNotRevoke
                  | NoDelegation | GrantRevoked | GrantExpired

  datatype Outcome = Done | Conflict(reason: Reason)

  datatype Access = Allowed | Denied | Raised(reason: Reason)

  // ---- what each operation does to the persisted records ----

  predicate HitsAny(existing: string, scopes: seq<string>) {
    exists scope :: scope in scopes && Clash(existing, scope)
  }

  /** The first scope of a list that overlaps one of `scopes`. */
  function FirstHit(existing: seq<string>, scopes: seq<string>): (r: Option<string>)
    ensures r.None? <==> forall e :: e in existing ==> !HitsAny(e, scopes)
    ensures r.Some? ==> r.value in existing && HitsAny(r.value, scopes)
  {
    if existing == [] then None
    else if HitsAny(existing[0], scopes) then Some(existing[0])
    else FirstHit(existing[1..], scopes)
  }

  predicate Overlaps(record: Record, scopes: seq<string>) {
    FirstHit(record.scopes, scopes).Some?
  }

  function FirstGrantConflict(records: seq<Record>, scopes: seq<string>): (r: Option<string>)
    ensures r.None? <==> forall record :: record in records ==> !Overlaps(record, scopes)
  {
    if records == [] then None
    else
      var hit := FirstHit(records[0].scopes, scopes);
      assert hit.Some? <==> Overlaps(records[0], scopes);
      if hit.Some? then hit else FirstGrantConflict(records[1..], scopes)
  }

  function Granted(records: seq<Record>, taskId: string, actor: string, scopes: seq<string>,
                   expiresAt: Option<int>): (seq<Record>, Outcome)
  {
    if scopes == [] then (records, Conflict(NoScope))
    else match FirstGrantConflict(records, scopes)
      case Some(existing) => (records, Conflict(Overlap(existing)))
      case None => (records + [Record(Ownership, taskId, actor, scopes, expiresAt, false)], Done)
  }

  /** Every child scope matches some parent scope as text. */
  predicate Covers(parents: seq<string>, children: seq<string>) {
    forall child :: child in children ==> exists parent :: parent in parents && Matches(parent, child)
  }

  predicate Owns(record: Record, taskId: string, actor: string) {
    record.taskId == taskId && record.kind.Ownership? && record.actor == actor
  }

  predicate MayDelegate(record: Record, taskId: string, issuer: string, scopes: seq<string>) {
    Owns(record, taskId, issuer) && !record.revoked && Covers(record.scopes, scopes)
  }

  /** Overlaps with the issuer's own ownership of the task are skipped; the message names the
      record's first scope. */
  function FirstDelegateConflict(records: seq<Record>, taskId: string, issuer: string, scopes: seq<string>): (r: Option<string>)
    ensures r.None? <==> forall record :: record in records && !Owns(record, taskId, issuer) ==> !Overlaps(record, scopes)
  {
    if records == [] then None
    else if !Owns(records[0], taskId, issuer) && Overlaps(records[0], scopes) then Some(records[0].scopes[0])
    else FirstDelegateConflict(records[1..], taskId, issuer, scopes)
  }

  function Delegated(records: seq<Record>, taskId: string, issuer: string, actor: string, scopes: seq<string>,
                     expiresAt: Option<int>): (seq<Record>, Outcome)
  {
    if !exists record :: record in records && MayDelegate(record, taskId, issuer, scopes) then (records, Conflict(MayNotDelegate))
    else match FirstDelegateConflict(records, taskId, issuer, scopes)
      case Some(existing) => (records, Conflict(Overlap(existing)))
      case None => (records + [Record(Delegation(issuer), taskId, actor, scopes, expiresAt, false)], Done)
  }

  predicate DelegatedTo(record: Record, taskId: string, delegate: string) {
    record.taskId == taskId && record.kind.Delegation? && record.actor == delegate
  }

  predicate OwnsSome(records: seq<Record>, taskId: string, actor: string) {
    exists record :: record in records && Owns(record, taskId, actor)
  }

  function Withdrawn(record: Record, taskId: string, delegate: string): Record {
    if DelegatedTo(record, taskId, delegate) then record.(revoked := true) else record
  }

  function Revoked(records: seq<Record>, taskId: string, delegate: string, actor: string): (seq<Record>, Outcome) {
    if !exists record :: record in records && DelegatedTo(record, taskId, delegate) then (records, Conflict(NoDelegation))
    else if !OwnsSome(records, taskId, actor) then (records, Conflict(MayNotRevoke))
    else (seq(|records|, i requires 0 <= i < |records| => Withdrawn(records[i], taskId, delegate)), Done)
  }

  predicate Accepts(scopes: seq<string>, path: string) {
    exists scope :: scope in scopes && Matches(scope, path)
  }

  predicate ForPair(record: Record, taskId: string, actor: string) {
    record.taskId == taskId && record.actor == actor
  }

  /** The scan of `authorize`: the first record of the pair that is revoked, expired or matching decides. */
  function Scan(records: seq<Record>, taskId: string, actor: string, path: string, now: int): Access {
    if records == [] then Denied
    else
      var record := records[0];
      if !ForPair(record, taskId, actor) then Scan(records[1..], taskId, actor, path, now)
      else if record.revoked then Raised(GrantRevoked)
      else if record.expiresAt.Some? && record.expiresAt.value <= now then Raised(GrantExpired)
      else if Accepts(record.scopes, path) then Allowed
      else Scan(records[1..], taskId, actor, path, now)
  }

  class OwnershipRegistry {
    var records: seq<Record>

    constructor ()
      ensures records == []
    {
      records := [];
    }

    method Grant(taskId: string, actor: string, scopes: seq<string>, expiresAt: Option<int>) returns (r: Outcome)
      modifies this
      ensures (records, r) == Granted(old(records), taskId, actor, scopes, expiresAt)
    {
      if scopes == [] {
        return Conflict(NoScope);
      }
      var i := 0;
      while i < |records|
        invariant i <= |records| && records == old(records)
        invariant FirstGrantConflict(records, scopes) == FirstGrantConflict(records[i..], scopes)
      {
        var hit := HitLoop(records[i].scopes, scopes);
        if hit.Some? {
          return Conflict(Overlap(hit.value));
        }
        i := i + 1;
      }
      records := records + [Record(Ownership, taskId, actor, scopes, expiresAt, false)];
      r := Done;
    }

    /** The inner loop of `grant`: the first scope of a record that overlaps. */
    method HitLoop(existing: seq<string>, scopes: seq<string>) returns (hit: Option<string>)
      ensures hit == FirstHit(existing, scopes)
    {
      for k := 0 to |existing|
        invariant FirstHit(existing, scopes) == FirstHit(existing[k..], scopes)
      {
        if HitsAny(existing[k], scopes) {
          return Some(existing[k]);
        }
      }
      hit := None;
    }

    method Delegate(taskId: string, issuer: string, actor: string, scopes: seq<string>, expiresAt: Option<int>)
      returns (r: Outcome)
      modifies this
      ensures (records, r) == Delegated(old(records), taskId, issuer, actor, scopes, expiresAt)
    {
      if !exists record :: record in records && MayDelegate(record, taskId, issuer, scopes) {
        return Conflict(MayNotDelegate);
      }
      var conflict := DelegateLoop(taskId, issuer, scopes);
      if conflict.Some? {
        return Conflict(Overlap(conflict.value));
      }
      records := records + [Record(Delegation(issuer), taskId, actor, scopes, expiresAt, false)];
      r := Done;
    }

    /** The loop of `delegate` over all records but the issuer's own. */
    method DelegateLoop(taskId: string, issuer: string, scopes: seq<string>) returns (conflict: Option<string>)
      ensures conflict == FirstDelegateConflict(records, taskId, issuer, scopes)
    {
      for i := 0 to |records|
        invariant FirstDelegateConflict(records, taskId, issuer, scopes) == FirstDelegateConflict(records[i..], taskId, issuer, scopes)
      {
        var record := records[i];
        if Owns(record, taskId, issuer) {
          continue;
        }
        if exists existing :: existing in record.scopes && HitsAny(existing, scopes) {
          return Some(record.scopes[0]);
        }
      }
      conflict := None;
    }

    /** The records are written back only when the whole loop went through. */
    method Revoke(taskId: string, delegate: string, actor: string) returns (r: Outcome)
      modifies this
      ensures (records, r) == Revoked(old(records), taskId, delegate, actor)
    {
      var changed, working, i := false, records, 0;
      while i < |records|
        invariant i <= |records| == |working| && records == old(records)
        invariant changed <==> exists record :: record in records[..i] && DelegatedTo(record, taskId, delegate)
        invariant changed ==> OwnsSome(records, taskId, actor)
        invariant forall k :: 0 <= k < |records| ==>
          working[k] == if k < i then Withdrawn(records[k], taskId, delegate) else records[k]
      {
        if DelegatedTo(records[i], taskId, delegate) {
          assert records[i] in records;
          if !OwnsSome(records, taskId, actor) {
            return Conflict(MayNotRevoke);
          }
          working := working[i := working[i].(revoked := true)];
          changed := true;
        }
        assert records[..i + 1] == records[..i] + [records[i]];
        i := i + 1;
      }
      assert records[..i] == records;
      if !changed {
        return Conflict(NoDelegation);
      }
      assert working == Revoked(records, taskId, delegate, actor).0;
      records := working;
      r := Done;
    }

    method Authorize(taskId: string, actor: string, path: string, now: int) returns (r: Access)
      ensures r == Scan(records, taskId, actor, path, now)
    {
      var i := 0;
      while i < |records|
        invariant i <= |records|
        invariant Scan(records, taskId, actor, path, now) == Scan(records[i..], taskId, actor, path, now)
      {
        var record := records[i];
        i := i + 1;
        if !ForPair(record, taskId, actor) {
          continue;
        }
        if record.revoked {
          return Raised(GrantRevoked);
        }
        if record.expiresAt.Some? && record.expiresAt.value <= now {
          return Raised(GrantExpired);
        }
        if Accepts(record.scopes, path) {
          return Allowed;
        }
      }
      r := Denied;
    }
  }

  // ---- runs of the registry ----

  datatype Op =
    | Grant(taskId: string, actor: string, scopes: seq<string>, expiresAt: Option<int>)
    | Delegate(taskId: string, issuer: string, actor: string, scopes: seq<string>, expiresAt: Option<int>)
    | Revoke(taskId: string, delegate: string, actor: string)

  /** The records after one operation, refused or not. */
  function Step(records: seq<Record>, op: Op): seq<Record> {
    match op
    case Grant(t, a, s, e) => Granted(records, t, a, s, e).0
    case Delegate(t, i, a, s, e) => Delegated(records, t, i, a, s, e).0
    case Revoke(t, d, a) => Revoked(records, t, d, a).0
  }

  function Run(records: seq<Record>, ops: seq<Op>): seq<Record>
    decreases |ops|
  {
    if ops == [] then records else Step(Run(records, ops[..|ops| - 1]), ops[|ops| - 1])
  }

  /** Record `j` was delegated under ownership record `i`: the owner of the task issued it, and its
      scopes match the owner's as text. */
  predicate IssuedUnder(owner: Record, delegation: Record) {
    && owner.kind.Ownership? && delegation.kind.Delegation?
    && owner.taskId == delegation.taskId && owner.actor == delegation.kind.issuer
  }

  predicate ScopesClash(a: Record, b: Record) {
    exists x, y :: x in a.scopes && y in b.scopes && Clash(x, y)
  }

  /** Overlapping records are an owner and a later delegation that owner issued. */
  ghost predicate Exclusive(records: seq<Record>) {
    forall i, j :: 0 <= i < j < |records| && ScopesClash(records[i], records[j]) ==> IssuedUnder(records[i], records[j])
  }

  /** Each delegation stands under an earlier ownership record that covers it. */
  ghost predicate Backed(records: seq<Record>) {
    forall j :: 0 <= j < |records| && records[j].kind.Delegation? ==>
      exists i :: 0 <= i < j && IssuedUnder(records[i], records[j]) && Covers(records[i].scopes, records[j].scopes)
  }

  lemma ClashOverlaps(a: Record, b: Record)
    requires ScopesClash(a, b)
    ensures Overlaps(a, b.scopes)
  {
    var x, y :| x in a.scopes && y in b.scopes && Clash(x, y);
    assert HitsAny(x, b.scopes);
  }

  lemma AppendKeepsExclusive(records: seq<Record>, r: Record)
    requires Exclusive(records)
    requires forall o :: o in records && !IssuedUnder(o, r) ==> !Overlaps(o, r.scopes)
    ensures Exclusive(records + [r])
  {
    var after := records + [r];
    forall i, j | 0 <= i < j < |after| && ScopesClash(after[i], after[j]) ensures IssuedUnder(after[i], after[j]) {
      ClashOverlaps(after[i], after[j]);
      assert after[i] in records;
    }
  }

  lemma AppendKeepsBacked(records: seq<Record>, r: Record)
    requires Backed(records)
    requires r.kind.Delegation? ==> exists o :: o in records && IssuedUnder(o, r) && Covers(o.scopes, r.scopes)
    ensures Backed(records + [r])
  {
    var after := records + [r];
    forall j | 0 <= j < |after| && after[j].kind.Delegation?
      ensures exists i :: 0 <= i < j && IssuedUnder(after[i], after[j]) && Covers(after[i].scopes, after[j].scopes)
    {
      if j < |records| {
        var i :| 0 <= i < j && IssuedUnder(records[i], records[j]) && Covers(records[i].scopes, records[j].scopes);
        assert after[i] == records[i];
      } else {
        var o :| o in records && IssuedUnder(o, r) && Covers(o.scopes, r.scopes);
        var i :| 0 <= i < |records| && records[i] == o;
        assert after[i] == o;
      }
    }
  }

  /** Revoking changes nothing but revocation marks. */
  lemma SameScopesKeep(before: seq<Record>, after: seq<Record>)
    requires Exclusive(before) && Backed(before) && |after| == |before|
    requires forall k :: 0 <= k < |before| ==> after[k].(revoked := false) == before[k].(revoked := false)
    ensures Exclusive(after) && Backed(after)
  {
    forall i, j | 0 <= i < j < |after| && ScopesClash(after[i], after[j]) ensures IssuedUnder(after[i], after[j]) {
      assert ScopesClash(before[i], before[j]);
    }
    forall j | 0 <= j < |after| && after[j].kind.Delegation?
      ensures exists i :: 0 <= i < j && IssuedUnder(after[i], after[j]) && Covers(after[i].scopes, after[j].scopes)
    {
      var i :| 0 <= i < j && IssuedUnder(before[i], before[j]) && Covers(before[i].scopes, before[j].scopes);
      assert IssuedUnder(after[i], after[j]);
    }
  }

  lemma StepKeeps(records: seq<Record>, op: Op)
    requires Exclusive(records) && Backed(records)
    ensures Exclusive(Step(records, op)) && Backed(Step(records, op))
  {
    match op
    case Grant(t, a, s, e) =>
      if Granted(records, t, a, s, e).1 == Done {
        var r := Record(Ownership, t, a, s, e, false);
        AppendKeepsExclusive(records, r);
        AppendKeepsBacked(records, r);
      }
    case Delegate(t, i, a, s, e) =>
      if Delegated(records, t, i, a, s, e).1 == Done {
        var r := Record(Delegation(i), t, a, s, e, false);
        var o :| o in records && MayDelegate(o, t, i, s);
        assert IssuedUnder(o, r);
        AppendKeepsExclusive(records, r);
        AppendKeepsBacked(records, r);
      }
    case Revoke(t, d, a) =>
      SameScopesKeep(records, Step(records, op));
  }

  lemma {:induction false} ReachableKeeps(ops: seq<Op>)
    ensures Exclusive(Run([], ops)) && Backed(Run([], ops))
    decreases |ops|
  {
    if ops != [] {
      ReachableKeeps(ops[..|ops| - 1]);
      StepKeeps(Run([], ops[..|ops| - 1]), ops[|ops| - 1]);
    }
  }

  // ---- main results ----

  /** In every reachable registry, scopes of two records overlap (by the registry's own test)
      only between an owner and a delegation that owner issued on the same task. */
  lemma OverlapOnlyByDelegation(ops: seq<Op>, i: nat, j: nat, x: string, y: string)
    requires i < j < |Run([], ops)|
    requires x in Run([], ops)[i].scopes && y in Run([], ops)[j].scopes && Clash(x, y)
    ensures IssuedUnder(Run([], ops)[i], Run([], ops)[j])
  {
    ReachableKeeps(ops);
    var records := Run([], ops);
    assert ScopesClash(records[i], records[j]);
  }

  /** Delegation is sound: whatever a delegation denotes, its issuer's ownership denotes, when no
      owner's scope holds a one-character wildcard and no delegated scope holds a class. */
  lemma DelegationSound(ops: seq<Op>, j: nat) returns (i: nat)
    requires j < |Run([], ops)| && Run([], ops)[j].kind.Delegation?
    requires forall r, s :: r in Run([], ops) && s in r.scopes ==> if r.kind.Ownership? then Rigid(s) else ClassFree(s)
    ensures i < j && IssuedUnder(Run([], ops)[i], Run([], ops)[j])
    ensures forall path :: Accepts(Run([], ops)[j].scopes, path) ==> Accepts(Run([], ops)[i].scopes, path)
  {
    ReachableKeeps(ops);
    var records := Run([], ops);
    i := Backer(records, j);
    assert records[i] in records && records[j] in records;
    assert forall s :: s in records[i].scopes ==> Rigid(s);
    assert forall s :: s in records[j].scopes ==> ClassFree(s);
    forall path | Accepts(records[j].scopes, path) ensures Accepts(records[i].scopes, path) {
      CoveredAccepts(records[i].scopes, records[j].scopes, path);
    }
  }

  lemma Backer(records: seq<Record>, j: nat) returns (i: nat)
    requires Backed(records) && j < |records| && records[j].kind.Delegation?
    ensures i < j && IssuedUnder(records[i], records[j]) && Covers(records[i].scopes, records[j].scopes)
  {
    i :| 0 <= i < j && IssuedUnder(records[i], records[j]) && Covers(records[i].scopes, records[j].scopes);
  }

  lemma CoveredAccepts(parents: seq<string>, children: seq<string>, path: string)
    requires Covers(parents, children) && Accepts(children, path)
    requires (forall s :: s in parents ==> Rigid(s)) && forall s :: s in children ==> ClassFree(s)
    ensures Accepts(parents, path)
  {
    var child :| child in children && Matches(child, path);
    var parent :| parent in parents && Matches(parent, child);
    RigidCoverSound(parent);
  }

  /** The record that let a request through. */
  lemma {:induction false} AllowedBy(records: seq<Record>, taskId: string, actor: string, path: string, now: int) returns (k: nat)
    requires Scan(records, taskId, actor, path, now) == Allowed
    ensures k < |records| && ForPair(records[k], taskId, actor) && Accepts(records[k].scopes, path) && !records[k].revoked
    ensures records[k].expiresAt.Some? ==> now < records[k].expiresAt.value
    decreases |records|
  {
    var first := records[0];
    if ForPair(first, taskId, actor) && Accepts(first.scopes, path) {
      k := 0;
    } else {
      var k' := AllowedBy(records[1..], taskId, actor, path, now);
      k := k' + 1;
    }
  }

  /** Nobody is ever let through to a path that no owner of the task holds. */
  lemma AuthorizedWithinOwnership(ops: seq<Op>, taskId: string, actor: string, path: string, now: int)
    requires forall r, s :: r in Run([], ops) && s in r.scopes ==> if r.kind.Ownership? then Rigid(s) else ClassFree(s)
    requires Scan(Run([], ops), taskId, actor, path, now) == Allowed
    ensures exists r :: r in Run([], ops) && r.kind.Ownership? && r.taskId == taskId && Accepts(r.scopes, path)
  {
    var records := Run([], ops);
    var k := AllowedBy(records, taskId, actor, path, now);
    if records[k].kind.Delegation? {
      var i := DelegationSound(ops, k);
      assert records[i] in records;
    } else {
      assert records[k] in records;
    }
  }

  /** A path granted as plain text is never let through to anybody but its owner and the owner's delegates. */
  lemma PlainScopeIsExclusive(ops: seq<Op>, i: nat, path: string, taskId: string, actor: string, now: int)
    requires i < |Run([], ops)| && Run([], ops)[i].kind.Ownership?
    requires Plain(path) && path in Run([], ops)[i].scopes
    requires Scan(Run([], ops), taskId, actor, path, now) == Allowed
    ensures taskId == Run([], ops)[i].taskId
    ensures exists r :: r in Run([], ops) && ForPair(r, taskId, actor) && (r == Run([], ops)[i] || IssuedUnder(Run([], ops)[i], r))
  {
    var records := Run([], ops);
    var k := AllowedBy(records, taskId, actor, path, now);
    assert records[k] in records;
    var scope :| scope in records[k].scopes && Matches(scope, path);
    assert Clash(path, scope) && Clash(scope, path);
    if i < k {
      OverlapOnlyByDelegation(ops, i, k, path, scope);
    } else if k < i {
      OverlapOnlyByDelegation(ops, k, i, scope, path);
    }
  }

  // ---- revocation ----

  /** The records of the pair that come before its first delegation. */
  function BeforeDelegation(records: seq<Record>, taskId: string, delegate: string): seq<Record> {
    if records == [] || DelegatedTo(records[0], taskId, delegate) then []
    else [records[0]] + BeforeDelegation(records[1..], taskId, delegate)
  }

  /** The pair has a delegation, and its first one is revoked. */
  predicate FirstDelegationRevoked(records: seq<Record>, taskId: string, delegate: string) {
    var n := |BeforeDelegation(records, taskId, delegate)|;
    n < |records| && DelegatedTo(records[n], taskId, delegate) && records[n].revoked
  }

  lemma {:induction false} BeforeIsPrefix(records: seq<Record>, taskId: string, delegate: string)
    ensures BeforeDelegation(records, taskId, delegate) <= records
    ensures var n := |BeforeDelegation(records, taskId, delegate)|;
      && (n < |records| ==> DelegatedTo(records[n], taskId, delegate))
      && forall k :: 0 <= k < n ==> !DelegatedTo(records[k], taskId, delegate)
    decreases |records|
  {
    if records != [] && !DelegatedTo(records[0], taskId, delegate) {
      BeforeIsPrefix(records[1..], taskId, delegate);
    }
  }

  /** A longer registry that agrees up to and including the first delegation has the same prefix. */
  lemma {:induction false} BeforeIsStable(records: seq<Record>, after: seq<Record>, taskId: string, delegate: string)
    requires FirstDelegationRevoked(records, taskId, delegate) && |records| <= |after|
    requires forall k :: 0 <= k < |records| ==> after[k].(revoked := false) == records[k].(revoked := false)
    requires forall k :: 0 <= k < |records| ==> (records[k].revoked ==> after[k].revoked)
    requires forall k :: 0 <= k < |records| && records[k].kind.Ownership? ==> after[k] == records[k]
    ensures FirstDelegationRevoked(after, taskId, delegate)
    ensures Settled(after, taskId, delegate) == Settled(records, taskId, delegate)
    decreases |records|
  {
    assert after[0].(revoked := false) == records[0].(revoked := false);
    if !DelegatedTo(records[0], taskId, delegate) {
      BeforeIsStable(records[1..], after[1..], taskId, delegate);
    }
  }

  /** The pair's ownership records that are scanned before its first delegation. */
  function Settled(records: seq<Record>, taskId: string, delegate: string): seq<Record> {
    if records == [] || DelegatedTo(records[0], taskId, delegate) then []
    else (if ForPair(records[0], taskId, delegate) then [records[0]] else []) + Settled(records[1..], taskId, delegate)
  }

  lemma StepIsStable(records: seq<Record>, op: Op, taskId: string, delegate: string)
    requires FirstDelegationRevoked(records, taskId, delegate)
    ensures FirstDelegationRevoked(Step(records, op), taskId, delegate)
    ensures Settled(Step(records, op), taskId, delegate) == Settled(records, taskId, delegate)
  {
    BeforeIsStable(records, Step(records, op), taskId, delegate);
  }

  lemma {:induction false} RunIsStable(records: seq<Record>, ops: seq<Op>, taskId: string, delegate: string)
    requires FirstDelegationRevoked(records, taskId, delegate)
    ensures FirstDelegationRevoked(Run(records, ops), taskId, delegate)
    ensures Settled(Run(records, ops), taskId, delegate) == Settled(records, taskId, delegate)
    decreases |ops|
  {
    if ops != [] {
      RunIsStable(records, ops[..|ops| - 1], taskId, delegate);
      StepIsStable(Run(records, ops[..|ops| - 1]), ops[|ops| - 1], taskId, delegate);
    }
  }

  /** Once the first delegation is revoked, only the ownership records in front of it still count. */
  lemma {:induction false} ScanStopsAtRevocation(records: seq<Record>, taskId: string, delegate: string, path: string, now: int)
    requires FirstDelegationRevoked(records, taskId, delegate)
    ensures Scan(records, taskId, delegate, path, now) ==
      (var r := Scan(Settled(records, taskId, delegate), taskId, delegate, path, now); if r == Denied then Raised(GrantRevoked) else r)
    decreases |records|
  {
    if !DelegatedTo(records[0], taskId, delegate) {
      ScanStopsAtRevocation(records[1..], taskId, delegate, path, now);
      var settled := Settled(records, taskId, delegate);
      if ForPair(records[0], taskId, delegate) {
        assert settled[1..] == Settled(records[1..], taskId, delegate);
      } else {
        assert settled == Settled(records[1..], taskId, delegate);
      }
    }
  }

  lemma {:induction false} RevokeMarksFirst(records: seq<Record>, taskId: string, delegate: string, actor: string)
    requires Revoked(records, taskId, delegate, actor).1 == Done
    ensures FirstDelegationRevoked(Revoked(records, taskId, delegate, actor).0, taskId, delegate)
  {
    var after := Revoked(records, taskId, delegate, actor).0;
    BeforeIsPrefix(after, taskId, delegate);
    var record :| record in records && DelegatedTo(record, taskId, delegate);
    var k :| 0 <= k < |records| && records[k] == record;
    assert DelegatedTo(after[k], taskId, delegate);
  }

  /** After a successful revoke, whatever is granted, delegated or revoked later, `authorize` raises for
      the pair on exactly the requests that the ownership records in front of its first delegation do
      not let through. */
  lemma RevocationIsFinal(records: seq<Record>, taskId: string, delegate: string, actor: string, later: seq<Op>, path: string, now: int)
    requires Revoked(records, taskId, delegate, actor).1 == Done
    ensures var revoked := Revoked(records, taskId, delegate, actor).0;
      var before := Settled(revoked, taskId, delegate);
      && (forall r :: r in before ==> r.kind.Ownership?)
      && (Scan(Run(revoked, later), taskId, delegate, path, now).Raised? <==>
            Scan(before, taskId, delegate, path, now) != Allowed)
      && (before == [] ==> Scan(Run(revoked, later), taskId, delegate, path, now) == Raised(GrantRevoked))
  {
    var revoked := Revoked(records, taskId, delegate, actor).0;
    RevokeMarksFirst(records, taskId, delegate, actor);
    RunIsStable(revoked, later, taskId, delegate);
    ScanStopsAtRevocation(Run(revoked, later), taskId, delegate, path, now);
    SettledAreOwnerships(revoked, taskId, delegate);
  }

  lemma {:induction false} SettledAreOwnerships(records: seq<Record>, taskId: string, delegate: string)
    ensures forall r :: r in Settled(records, taskId, delegate) ==> r.kind.Ownership? && ForPair(r, taskId, delegate)
    decreases |records|
  {
    if records != [] {
      SettledAreOwnerships(records[1..], taskId, delegate);
    }
  }

  // ---- exactly when each operation succeeds, record by record ----

  /** The record speaks for the actor on the task. */
  predicate Speaks(r: Record, taskId: string, actor: string) {
    r.taskId == taskId && r.actor == actor
  }

  predicate Lapsed(r: Record, now: int) {
    r.revoked || (r.expiresAt.Some? && now >= r.expiresAt.value)
  }

  ghost predicate Denotes(r: Record, path: string) {
    exists k :: 0 <= k < |r.scopes| && Matches(r.scopes[k], path)
  }

  /** Record `k` is the first of the pair that has lapsed or denotes the path. */
  ghost predicate Settles(records: seq<Record>, taskId: string, actor: string, path: string, now: int, k: nat) {
    && k < |records| && Speaks(records[k], taskId, actor) && (Lapsed(records[k], now) || Denotes(records[k], path))
    && forall j :: 0 <= j < k && Speaks(records[j], taskId, actor) ==> !Lapsed(records[j], now) && !Denotes(records[j], path)
  }

  lemma DenotesIsAccepts(r: Record, path: string)
    ensures Denotes(r, path) <==> Accepts(r.scopes, path)
  {
    if Accepts(r.scopes, path) {
      var scope :| scope in r.scopes && Matches(scope, path);
      var k :| 0 <= k < |r.scopes| && r.scopes[k] == scope;
    }
  }

  function AnswerOf(records: seq<Record>, now: int, k: nat): Access
    requires k <= |records|
  {
    if k == |records| then Denied
    else if records[k].revoked then Raised(GrantRevoked)
    else if Lapsed(records[k], now) then Raised(GrantExpired)
    else Allowed
  }

  /** What the scan answers from the record that settles it, if there is one. */
  lemma {:induction false} ScanSettles(records: seq<Record>, taskId: string, actor: string, path: string, now: int) returns (k: nat)
    ensures k <= |records|
    ensures k < |records| ==> Settles(records, taskId, actor, path, now, k)
    ensures k == |records| ==> forall j :: 0 <= j < k && Speaks(records[j], taskId, actor) ==> !Lapsed(records[j], now) && !Denotes(records[j], path)
    ensures Scan(records, taskId, actor, path, now) == AnswerOf(records, now, k)
    decreases |records|
  {
    if records == [] {
      k := 0;
    } else {
      DenotesIsAccepts(records[0], path);
      if Speaks(records[0], taskId, actor) && (Lapsed(records[0], now) || Denotes(records[0], path)) {
        k := 0;
      } else {
        var rest := ScanSettles(records[1..], taskId, actor, path, now);
        k := rest + 1;
        assert forall j :: 1 <= j < |records| ==> records[j] == records[1..][j - 1];
      }
    }
  }

  ghost predicate LetsThrough(records: seq<Record>, taskId: string, actor: string, path: string, now: int, k: nat) {
    && k < |records| && Speaks(records[k], taskId, actor) && !Lapsed(records[k], now) && Denotes(records[k], path)
    && forall j :: 0 <= j < k && Speaks(records[j], taskId, actor) ==> !Lapsed(records[j], now)
  }

  /** A record lets a request through exactly when it is a live one of the pair that denotes the path and no
      record of the pair in front of it is revoked or expired. */
  lemma AuthorizeAllowsIff(records: seq<Record>, taskId: string, actor: string, path: string, now: int)
    ensures Scan(records, taskId, actor, path, now) == Allowed <==>
      exists k: nat :: LetsThrough(records, taskId, actor, path, now, k)
  {
    var k := ScanSettles(records, taskId, actor, path, now);
    if k < |records| && !Lapsed(records[k], now) {
      assert LetsThrough(records, taskId, actor, path, now, k);
    }
  }

  ghost predicate TurnsAway(records: seq<Record>, taskId: string, actor: string, path: string, now: int, k: nat) {
    && k < |records| && Speaks(records[k], taskId, actor) && Lapsed(records[k], now)
    && forall j :: 0 <= j < k && Speaks(records[j], taskId, actor) ==> Lapsed(records[j], now) || !Denotes(records[j], path)
  }

  /** It raises exactly when some record of the pair has lapsed and no live one in front of it denotes the path;
      the error is that of the first lapsed record. */
  lemma AuthorizeRaisesIff(records: seq<Record>, taskId: string, actor: string, path: string, now: int)
    ensures Scan(records, taskId, actor, path, now).Raised? <==>
      exists k: nat :: TurnsAway(records, taskId, actor, path, now, k)
    ensures Scan(records, taskId, actor, path, now).Raised? ==>
      exists k: nat :: TurnsAway(records, taskId, actor, path, now, k)
        && (forall j :: 0 <= j < k && Speaks(records[j], taskId, actor) ==> !Lapsed(records[j], now))
        && Scan(records, taskId, actor, path, now) == Raised(if records[k].revoked then GrantRevoked else GrantExpired)
  {
    var k := ScanSettles(records, taskId, actor, path, now);
    if k < |records| && Lapsed(records[k], now) {
      assert TurnsAway(records, taskId, actor, path, now, k);
    }
  }

  /** No scope of the record matches one of `scopes` as text, either way round. */
  ghost predicate Apart(r: Record, scopes: seq<string>) {
    forall i, j :: 0 <= i < |r.scopes| && 0 <= j < |scopes| ==> !Matches(r.scopes[i], scopes[j]) && !Matches(scopes[j], r.scopes[i])
  }

  lemma ApartIsNoOverlap(r: Record, scopes: seq<string>)
    ensures Apart(r, scopes) <==> !Overlaps(r, scopes)
  {
    if Overlaps(r, scopes) {
      var x := FirstHit(r.scopes, scopes).value;
      var y :| y in scopes && Clash(x, y);
      var i :| 0 <= i < |r.scopes| && r.scopes[i] == x;
      var j :| 0 <= j < |scopes| && scopes[j] == y;
    } else {
      forall i, j | 0 <= i < |r.scopes| && 0 <= j < |scopes| ensures !Matches(r.scopes[i], scopes[j]) && !Matches(scopes[j], r.scopes[i]) {
        assert r.scopes[i] in r.scopes && scopes[j] in scopes;
        assert !HitsAny(r.scopes[i], scopes);
      }
    }
  }

  /** `grant` succeeds exactly for some scopes that stay apart from every record's, and then adds just that grant. */
  lemma GrantSucceedsIff(records: seq<Record>, taskId: string, actor: string, scopes: seq<string>, expiresAt: Option<int>)
    ensures var (after, out) := Granted(records, taskId, actor, scopes, expiresAt);
      && (out == Done <==> |scopes| > 0 && forall k :: 0 <= k < |records| ==> Apart(records[k], scopes))
      && after == (if out == Done then records + [Record(Ownership, taskId, actor, scopes, expiresAt, false)] else records)
      && (out == Conflict(NoScope) <==> |scopes| == 0)
  {
    forall k | 0 <= k < |records| ensures Apart(records[k], scopes) <==> !Overlaps(records[k], scopes) {
      ApartIsNoOverlap(records[k], scopes);
    }
  }

  /** Record `k` is an unrevoked ownership of the issuer on the task, and each new scope matches one of its scopes. */
  ghost predicate Sanctions(records: seq<Record>, taskId: string, issuer: string, scopes: seq<string>, k: nat) {
    && k < |records| && records[k].kind == Ownership && records[k].taskId == taskId && records[k].actor == issuer && !records[k].revoked
    && forall j :: 0 <= j < |scopes| ==> MatchedBy(records[k].scopes, scopes[j])
  }

  ghost predicate MatchedBy(parents: seq<string>, child: string) {
    exists i :: 0 <= i < |parents| && Matches(parents[i], child)
  }

  lemma SanctionedIff(records: seq<Record>, taskId: string, issuer: string, scopes: seq<string>, k: nat)
    requires k < |records|
    ensures Sanctions(records, taskId, issuer, scopes, k) <==> MayDelegate(records[k], taskId, issuer, scopes)
  {
    CoversByIndex(records[k].scopes, scopes);
  }

  lemma CoversByIndex(parents: seq<string>, children: seq<string>)
    ensures Covers(parents, children) <==> forall j :: 0 <= j < |children| ==> MatchedBy(parents, children[j])
  {
    forall child: string ensures MatchedBy(parents, child) <==> exists parent :: parent in parents && Matches(parent, child) {
      MatchedByOne(parents, child);
    }
    forall j | 0 <= j < |children| ensures children[j] in children {
    }
  }

  lemma MatchedByOne(parents: seq<string>, child: string)
    ensures MatchedBy(parents, child) <==> exists parent :: parent in parents && Matches(parent, child)
  {
    if parent :| parent in parents && Matches(parent, child) {
      var i :| 0 <= i < |parents| && parents[i] == parent;
    }
  }

  /** `delegate` succeeds exactly under an unrevoked ownership of the issuer that covers the scopes, apart from every
      record but the issuer's own ownerships of the task, and then adds just that delegation. */
  lemma DelegateSucceedsIff(records: seq<Record>, taskId: string, issuer: string, actor: string, scopes: seq<string>, expiresAt: Option<int>)
    ensures var (after, out) := Delegated(records, taskId, issuer, actor, scopes, expiresAt);
      && (out == Conflict(MayNotDelegate) <==> !exists k: nat :: Sanctions(records, taskId, issuer, scopes, k))
      && (out == Done <==> (exists k: nat :: Sanctions(records, taskId, issuer, scopes, k)) && ApartFromOthers(records, taskId, issuer, scopes))
      && after == (if out == Done then records + [Record(Delegation(issuer), taskId, actor, scopes, expiresAt, false)] else records)
  {
    SomeSanctions(records, taskId, issuer, scopes);
    OthersApart(records, taskId, issuer, scopes);
  }

  ghost predicate ApartFromOthers(records: seq<Record>, taskId: string, issuer: string, scopes: seq<string>) {
    forall k :: 0 <= k < |records| ==>
      (records[k].kind == Ownership && records[k].taskId == taskId && records[k].actor == issuer) || Apart(records[k], scopes)
  }

  lemma SomeSanctions(records: seq<Record>, taskId: string, issuer: string, scopes: seq<string>)
    ensures (exists k: nat :: Sanctions(records, taskId, issuer, scopes, k)) <==>
      exists record :: record in records && MayDelegate(record, taskId, issuer, scopes)
  {
    if k: nat :| Sanctions(records, taskId, issuer, scopes, k) {
      SanctionedIff(records, taskId, issuer, scopes, k);
      assert records[k] in records;
    }
    if record :| record in records && MayDelegate(record, taskId, issuer, scopes) {
      var k :| 0 <= k < |records| && records[k] == record;
      SanctionedIff(records, taskId, issuer, scopes, k);
    }
  }

  lemma OthersApart(records: seq<Record>, taskId: string, issuer: string, scopes: seq<string>)
    ensures ApartFromOthers(records, taskId, issuer, scopes) <==> FirstDelegateConflict(records, taskId, issuer, scopes).None?
  {
    forall k | 0 <= k < |records| ensures Apart(records[k], scopes) <==> !Overlaps(records[k], scopes) {
      ApartIsNoOverlap(records[k], scopes);
    }
    forall k | 0 <= k < |records| ensures records[k] in records {
    }
  }

  /** `revoke` succeeds exactly when there is a delegation to the delegate and an ownership of the actor on the
      task, and then marks the delegations to the delegate on the task and nothing else. */
  lemma RevokeSucceedsIff(records: seq<Record>, taskId: string, delegate: string, actor: string)
    ensures var (after, out) := Revoked(records, taskId, delegate, actor);
      && (out == Done <==>
            && (exists k :: 0 <= k < |records| && records[k].kind.Delegation? && records[k].taskId == taskId && records[k].actor == delegate)
            && (exists k :: 0 <= k < |records| && records[k].kind == Ownership && records[k].taskId == taskId && records[k].actor == actor))
      && |after| == |records|
      && forall k :: 0 <= k < |records| ==> after[k] == records[k].(revoked := records[k].revoked
            || (out == Done && records[k].kind.Delegation? && records[k].taskId == taskId && records[k].actor == delegate))
  {
    if record :| record in records && DelegatedTo(record, taskId, delegate) {
      var k :| 0 <= k < |records| && records[k] == record;
    }
    if record :| record in records && Owns(record, taskId, actor) {
      var k :| 0 <= k < |records| && records[k] == record;
    }
    forall k | 0 <= k < |records| ensures records[k] in records {
    }
  }

  lemma {:induction false} RunKeepsOwnerships(records: seq<Record>, ops: seq<Op>)
    ensures |Run(records, ops)| >= |records|
    ensures forall k :: 0 <= k < |records| && records[k].kind.Ownership? ==> Run(records, ops)[k] == records[k]
    ensures forall k :: 0 <= k < |records| ==> Run(records, ops)[k].(revoked := false) == records[k].(revoked := false)
    decreases |ops|
  {
    if ops != [] {
      RunKeepsOwnerships(records, ops[..|ops| - 1]);
    }
  }

  /** What was granted to an actor with no record on the task before is open to it until the grant expires,
      whatever is granted, delegated or revoked later; from then on its requests raise. */
  lemma GrantStands(ops: seq<Op>, taskId: string, actor: string, scopes: seq<string>, expiresAt: Option<int>,
                    later: seq<Op>, scope: string, path: string, now: int)
    requires Granted(Run([], ops), taskId, actor, scopes, expiresAt).1 == Done && scope in scopes && Matches(scope, path)
    requires forall k :: 0 <= k < |Run([], ops)| ==> !Speaks(Run([], ops)[k], taskId, actor)
    ensures var after := Run(Granted(Run([], ops), taskId, actor, scopes, expiresAt).0, later);
      Scan(after, taskId, actor, path, now) ==
        if expiresAt.Some? && now >= expiresAt.value then Raised(GrantExpired) else Allowed
  {
    var records := Run([], ops);
    var granted := Granted(records, taskId, actor, scopes, expiresAt).0;
    GrantSucceedsIff(records, taskId, actor, scopes, expiresAt);
    RunKeepsOwnerships(granted, later);
    var after := Run(granted, later);
    var n := |records|;
    assert granted[n] == Record(Ownership, taskId, actor, scopes, expiresAt, false);
    forall j | 0 <= j < n ensures !Speaks(after[j], taskId, actor) {
      assert granted[j] == records[j];
    }
    var i :| 0 <= i < |scopes| && scopes[i] == scope;
    assert Denotes(after[n], path);
    var k := ScanSettles(after, taskId, actor, path, now);
    assert k == n;
  }
}
