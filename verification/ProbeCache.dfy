// Provider probes: a cache with time limits and at most one probe in flight per provider. Every step is
// what runs between two awaits.

module ProbeCache {
  import opened Text

  const SUCCESS_TTL := 60.0
  const FAILURE_TTL := 15.0

  /** A status row; `reachable` is whether its status says so. */
  datatype Row = Row(reachable: bool, detail: string)

  datatype Saved = Saved(fingerprint: string, storedAt: real, success: bool, row: Row)

  datatype Finish = Finish(row: Row, at: real)

  /** A task running `_perform_probe`; `finish` is its result. */
  datatype Probe = Probe(name: string, fingerprint: string, finish: Option<Finish>)

  datatype Answer = Hit(row: Row, age: real) | Waiting(probe: nat) | Got(probe: nat, row: Row)

  datatype Caller = Caller(name: string, fingerprint: string, answer: Answer)

  datatype Event = Stored(probe: nat) | Dropped(name: string) | DroppedAll

  datatype State = State(cache: map<string, Saved>, inflight: map<string, nat>, probes: seq<Probe>, callers: seq<Caller>,
                         log: seq<Event>, clock: real)

  const INIT := State(map[], map[], [], [], [], 0.0)

  // ---- the steps ----

  function Ttl(success: bool): real {
    if success then SUCCESS_TTL else FAILURE_TTL
  }

  predicate Fresh(cache: map<string, Saved>, name: string, fingerprint: string, now: real) {
    name in cache && cache[name].fingerprint == fingerprint && now - cache[name].storedAt < Ttl(cache[name].success)
  }

  /** `_cached_probe` up to its await. */
  function Called(s: State, name: string, fingerprint: string, now: real): State {
    if Fresh(s.cache, name, fingerprint, now) then
      s.(callers := s.callers + [Caller(name, fingerprint, Hit(s.cache[name].row, now - s.cache[name].storedAt))])
    else if name in s.inflight then
      s.(callers := s.callers + [Caller(name, fingerprint, Waiting(s.inflight[name]))])
    else
      s.(probes := s.probes + [Probe(name, fingerprint, None)],
         inflight := s.inflight[name := |s.probes|],
         callers := s.callers + [Caller(name, fingerprint, Waiting(|s.probes|))])
  }

  predicate Running(s: State, p: nat) {
    p < |s.probes| && s.probes[p].finish.None?
  }

  /** The end of `_perform_probe`. */
  function Finished(s: State, p: nat, row: Row, now: real): State
    requires Running(s, p)
  {
    var probe := s.probes[p];
    s.(cache := s.cache[probe.name := Saved(probe.fingerprint, now, row.reachable, row)],
       probes := s.probes[p := probe.(finish := Some(Finish(row, now)))],
       log := s.log + [Stored(p)])
  }

  predicate Resumable(s: State, c: nat) {
    c < |s.callers| && s.callers[c].answer.Waiting? && s.callers[c].answer.probe < |s.probes|
      && s.probes[s.callers[c].answer.probe].finish.Some?
  }

  /** `_cached_probe` behind its await, with the `finally`. */
  function Resumed(s: State, c: nat): State
    requires Resumable(s, c)
  {
    var caller := s.callers[c];
    var p := caller.answer.probe;
    s.(callers := s.callers[c := caller.(answer := Got(p, s.probes[p].finish.value.row))],
       inflight := if caller.name in s.inflight && s.inflight[caller.name] == p then s.inflight - {caller.name} else s.inflight)
  }

  /** `invalidate_probe_cache`; the empty name is no name. */
  function Invalidated(s: State, name: string): State {
    if name != "" then s.(cache := s.cache - {name}, log := s.log + [Dropped(name)])
    else s.(cache := map[], log := s.log + [DroppedAll])
  }

  datatype Step = Call(name: string, fingerprint: string) | Finishes(probe: nat, row: Row) | Resumes(caller: nat) | Invalidate(name: string)

  /** One step at time `now`; the clock never goes back, and a step that cannot be taken is none. */
  function Apply(s: State, step: Step, now: real): State {
    if now < s.clock then s
    else
      var t := s.(clock := now);
      match step
      case Call(name, fingerprint) => Called(t, name, fingerprint, now)
      case Finishes(p, row) => if Running(t, p) then Finished(t, p, row, now) else t
      case Resumes(c) => if Resumable(t, c) then Resumed(t, c) else t
      case Invalidate(name) => Invalidated(t, name)
  }

  /** Any number of callers, in any interleaving. */
  function After(trace: seq<(Step, real)>): State {
    if trace == [] then INIT else Apply(After(trace[..|trace| - 1]), trace[|trace| - 1].0, trace[|trace| - 1].1)
  }

  /** The object, with its two dictionaries; tasks are the event loop's, callers and log are history. */
  class PipelineManager {
    var cache: map<string, Saved>
    var inflight: map<string, nat>
    var tasks: seq<Probe>
    ghost var callers: seq<Caller>
    ghost var log: seq<Event>
    ghost var clock: real

    ghost function Now(): State
      reads this
    {
      State(cache, inflight, tasks, callers, log, clock)
    }

    constructor ()
      ensures Now() == INIT
    {
      cache, inflight, tasks, callers, log, clock := map[], map[], [], [], [], 0.0;
    }

    /** Some is the row from the cache; None goes on to wait for the returned task. */
    method Begin(name: string, fingerprint: string, now: real) returns (row: Option<Row>, task: nat)
      requires clock <= now
      modifies this
      ensures Now() == Apply(old(Now()), Call(name, fingerprint), now)
      ensures row.Some? <==> Fresh(old(cache), name, fingerprint, now)
      ensures row.Some? ==> row.value == old(cache)[name].row
      ensures row.None? ==> name in inflight && inflight[name] == task
    {
      clock, task := now, 0;
      if name in cache && cache[name].fingerprint == fingerprint {
        var age := now - cache[name].storedAt;
        var ttl := if cache[name].success then SUCCESS_TTL else FAILURE_TTL;
        if age < ttl {
          row := Some(cache[name].row);
          callers := callers + [Caller(name, fingerprint, Hit(cache[name].row, age))];
          return;
        }
      }
      row := None;
      if name !in inflight {
        inflight := inflight[name := |tasks|];
        tasks := tasks + [Probe(name, fingerprint, None)];
      }
      task := inflight[name];
      callers := callers + [Caller(name, fingerprint, Waiting(task))];
    }

    method FinishProbe(task: nat, row: Row, now: real)
      requires clock <= now && Running(Now(), task)
      modifies this
      ensures Now() == Apply(old(Now()), Finishes(task, row), now)
    {
      clock := now;
      cache := cache[tasks[task].name := Saved(tasks[task].fingerprint, now, row.reachable, row)];
      tasks := tasks[task := tasks[task].(finish := Some(Finish(row, now)))];
      log := log + [Stored(task)];
    }

    method Resume(ghost caller: nat, name: string, task: nat, now: real) returns (row: Row)
      requires clock <= now && Resumable(Now(), caller)
      requires callers[caller].name == name && callers[caller].answer.probe == task
      modifies this
      ensures Now() == Apply(old(Now()), Resumes(caller), now)
      ensures row == old(tasks)[task].finish.value.row
    {
      clock := now;
      row := tasks[task].finish.value.row;
      callers := callers[caller := callers[caller].(answer := Got(task, row))];
      if name in inflight && inflight[name] == task {
        inflight := inflight - {name};
      }
    }

    method InvalidateProbeCache(name: string, now: real) returns (count: nat)
      requires clock <= now
      modifies this
      ensures Now() == Apply(old(Now()), Invalidate(name), now)
      ensures count == |old(cache)| - |cache|
    {
      clock := now;
      if name != "" {
        count := if name in cache then 1 else 0;
        ghost var before := cache;
        cache := cache - {name};
        log := log + [Dropped(name)];
        RemovedCount(before, name);
      } else {
        count := |cache|;
        cache := map[];
        log := log + [DroppedAll];
      }
    }
  }

  lemma RemovedCount(m: map<string, Saved>, name: string)
    ensures |m - {name}| == |m| - (if name in m then 1 else 0)
  {
    assert (m - {name}).Keys == m.Keys - {name};
    assert |m.Keys| == |m| && |(m - {name}).Keys| == |m - {name}|;
  }

  // ---- at most one probe in flight ----

  /** Every running probe is the one its provider's entry in the table of flights names. */
  ghost predicate Registered(s: State) {
    forall p: nat :: Running(s, p) ==> s.probes[p].name in s.inflight && s.inflight[s.probes[p].name] == p
  }

  ghost predicate Waits(s: State) {
    && (forall n :: n in s.inflight ==> s.inflight[n] < |s.probes| && s.probes[s.inflight[n]].name == n)
    && (forall c :: 0 <= c < |s.callers| ==> AnswerFits(s, s.callers[c]))
  }

  /** A caller waits for, or was given the row of, a probe of the provider it asked about. */
  ghost predicate AnswerFits(s: State, c: Caller) {
    match c.answer
    case Hit(_, _) => true
    case Waiting(p) => p < |s.probes| && s.probes[p].name == c.name
    case Got(p, row) => p < |s.probes| && s.probes[p].name == c.name && s.probes[p].finish.Some? && s.probes[p].finish.value.row == row
  }

  lemma WaitsKept(s: State, step: Step, now: real)
    requires Waits(s)
    ensures Waits(Apply(s, step, now))
  {
    var t := s.(clock := now);
    AnswersStay(s, t);
    match step
    case Call(name, fingerprint) => CallWaits(t, name, fingerprint, now);
    case Finishes(p, row) => if Running(t, p) { FinishWaits(t, p, row, now); }
    case Resumes(c) => if Resumable(t, c) { ResumeWaits(t, c); }
    case Invalidate(_) =>
  }

  /** Probes may start or finish without changing what an answer means. */
  ghost predicate Extends(s: State, t: State) {
    |s.probes| <= |t.probes| && forall p :: 0 <= p < |s.probes| ==>
      t.probes[p].(finish := None) == s.probes[p].(finish := None) && (s.probes[p].finish.Some? ==> t.probes[p] == s.probes[p])
  }

  lemma AnswersStay(s: State, t: State)
    requires Waits(s) && Extends(s, t)
    ensures forall c :: 0 <= c < |s.callers| ==> AnswerFits(t, s.callers[c])
  {
    forall c | 0 <= c < |s.callers| ensures AnswerFits(t, s.callers[c]) {
      assert AnswerFits(s, s.callers[c]);
    }
  }

  lemma CallWaits(s: State, name: string, fingerprint: string, now: real)
    requires Waits(s)
    ensures Waits(Called(s, name, fingerprint, now))
  {
    AnswersStay(s, Called(s, name, fingerprint, now));
  }

  lemma FinishWaits(s: State, p: nat, row: Row, now: real)
    requires Waits(s) && Running(s, p)
    ensures Waits(Finished(s, p, row, now))
  {
    AnswersStay(s, Finished(s, p, row, now));
  }

  lemma ResumeWaits(s: State, c: nat)
    requires Waits(s) && Resumable(s, c)
    ensures Waits(Resumed(s, c))
  {
    AnswersStay(s, Resumed(s, c));
    assert AnswerFits(s, s.callers[c]);
  }

  lemma RegisteredKept(s: State, step: Step, now: real)
    requires Waits(s) && Registered(s)
    ensures Registered(Apply(s, step, now))
  {
    var t := Apply(s, step, now);
    forall p: nat | Running(t, p) ensures t.probes[p].name in t.inflight && t.inflight[t.probes[p].name] == p {
      assert p < |s.probes| ==> Running(s, p);
    }
  }

  lemma {:induction false} TraceIsRegistered(trace: seq<(Step, real)>)
    ensures Waits(After(trace)) && Registered(After(trace))
  {
    if trace != [] {
      var n := |trace| - 1;
      TraceIsRegistered(trace[..n]);
      WaitsKept(After(trace[..n]), trace[n].0, trace[n].1);
      RegisteredKept(After(trace[..n]), trace[n].0, trace[n].1);
    }
  }

  /** Under every interleaving, two running probes of one provider are the same probe. */
  lemma SingleFlight(trace: seq<(Step, real)>, p: nat, q: nat)
    requires Running(After(trace), p) && Running(After(trace), q)
    requires After(trace).probes[p].name == After(trace).probes[q].name
    ensures p == q
  {
    TraceIsRegistered(trace);
  }

  /** A caller that was not served from the cache gets the row of a finished probe of its provider. */
  lemma EveryoneGetsAProbe(trace: seq<(Step, real)>, c: nat)
    requires c < |After(trace).callers| && After(trace).callers[c].answer.Got?
    ensures var s := After(trace); var Got(p, row) := s.callers[c].answer;
      p < |s.probes| && s.probes[p].name == s.callers[c].name && s.probes[p].finish.Some? && s.probes[p].finish.value.row == row
  {
    TraceIsRegistered(trace);
    assert AnswerFits(After(trace), After(trace).callers[c]);
  }

  // ---- no flight is left behind ----

  ghost predicate Awaited(s: State, n: string) {
    n in s.inflight && exists c :: 0 <= c < |s.callers| && WaitsFor(s.callers[c], n, s.inflight[n])
  }

  predicate WaitsFor(c: Caller, n: string, p: nat) {
    c.name == n && c.answer == Waiting(p)
  }

  ghost predicate AllAwaited(s: State) {
    forall n :: n in s.inflight ==> Awaited(s, n)
  }

  lemma AllAwaitedKept(s: State, step: Step, now: real)
    requires Waits(s) && AllAwaited(s)
    ensures AllAwaited(Apply(s, step, now))
  {
    var t := Apply(s, step, now);
    forall n | n in t.inflight ensures Awaited(t, n) {
      if n in s.inflight && t.inflight[n] == s.inflight[n] {
        var c :| 0 <= c < |s.callers| && WaitsFor(s.callers[c], n, s.inflight[n]);
        assert WaitsFor(t.callers[c], n, t.inflight[n]);
      } else {
        assert WaitsFor(t.callers[|s.callers|], n, t.inflight[n]);
      }
    }
  }

  /** Once no caller is waiting, no flight is registered and no probe is running. */
  lemma {:induction false} NoFlightLeftBehind(trace: seq<(Step, real)>)
    ensures AllAwaited(After(trace))
    ensures (forall c :: 0 <= c < |After(trace).callers| ==> !After(trace).callers[c].answer.Waiting?)
      ==> After(trace).inflight == map[] && forall p: nat :: !Running(After(trace), p)
  {
    TraceIsRegistered(trace);
    if trace != [] {
      var n := |trace| - 1;
      NoFlightLeftBehind(trace[..n]);
      TraceIsRegistered(trace[..n]);
      AllAwaitedKept(After(trace[..n]), trace[n].0, trace[n].1);
    }
    NobodyWaits(After(trace));
  }

  lemma NobodyWaits(s: State)
    requires AllAwaited(s) && Registered(s)
    ensures (forall c :: 0 <= c < |s.callers| ==> !s.callers[c].answer.Waiting?) ==> s.inflight == map[] && forall p: nat :: !Running(s, p)
  {
    if forall c :: 0 <= c < |s.callers| ==> !s.callers[c].answer.Waiting? {
      assert forall n :: n !in s.inflight;
    }
  }

  // ---- the cache is what the log says ----

  /** The probe whose row the cache should hold, by the log alone. */
  function Latest(s: State, log: seq<Event>, name: string): (p: Option<nat>)
    ensures p.Some? ==> p.value < |s.probes| && s.probes[p.value].name == name
  {
    if log == [] then None
    else
      match log[|log| - 1]
      case Stored(p) => if p < |s.probes| && s.probes[p].name == name then Some(p) else Latest(s, log[..|log| - 1], name)
      case Dropped(n) => if n == name then None else Latest(s, log[..|log| - 1], name)
      case DroppedAll => None
  }

  /** The cache row for a name is the outcome of the probe that stored last since the last invalidation. */
  ghost predicate Agrees(s: State, name: string) {
    match Latest(s, s.log, name)
    case None => name !in s.cache
    case Some(p) => HasFinished(s, p) && name in s.cache && s.cache[name] == Outcome(s.probes[p])
  }

  ghost predicate HasFinished(s: State, p: nat) {
    p < |s.probes| && s.probes[p].finish.Some? && s.probes[p].finish.value.at <= s.clock
  }

  function Outcome(p: Probe): Saved
    requires p.finish.Some?
  {
    var Finish(row, at) := p.finish.value;
    Saved(p.fingerprint, at, row.reachable, row)
  }

  /** The log has each finished probe exactly once, and no other. */
  ghost predicate LoggedOnce(s: State) {
    && (forall k :: 0 <= k < |s.log| && s.log[k].Stored? ==> HasFinished(s, s.log[k].probe))
    && (forall j, k :: 0 <= j < k < |s.log| && s.log[j].Stored? ==> s.log[k] != s.log[j])
    && (forall p :: 0 <= p < |s.probes| && s.probes[p].finish.Some? ==> Stored(p) in s.log)
  }

  lemma LoggedOnceKept(s: State, step: Step, now: real)
    requires LoggedOnce(s)
    ensures LoggedOnce(Apply(s, step, now))
  {
    if now >= s.clock {
      var t := s.(clock := now);
      SameLog(s, t);
      match step
      case Call(n, fingerprint) => SameLog(t, Called(t, n, fingerprint, now));
      case Finishes(p, row) => if Running(t, p) { FinishLogged(t, p, row, now); }
      case Resumes(c) => if Resumable(t, c) { SameLog(t, Resumed(t, c)); }
      case Invalidate(n) => InvalidateLogged(t, n);
    }
  }

  lemma FinishedStays(s: State, t: State)
    requires LoggedOnce(s) && Extends(s, t) && t.clock >= s.clock
    ensures forall k :: 0 <= k < |s.log| && s.log[k].Stored? ==> HasFinished(t, s.log[k].probe)
  {
    forall k | 0 <= k < |s.log| && s.log[k].Stored? ensures HasFinished(t, s.log[k].probe) {
      assert HasFinished(s, s.log[k].probe);
    }
  }

  lemma SameLog(s: State, t: State)
    requires LoggedOnce(s) && Extends(s, t) && t.clock >= s.clock && t.log == s.log
    requires forall p :: 0 <= p < |t.probes| && t.probes[p].finish.Some? ==> p < |s.probes| && s.probes[p].finish.Some?
    ensures LoggedOnce(t)
  {
    FinishedStays(s, t);
  }

  lemma FinishLogged(s: State, p: nat, row: Row, now: real)
    requires LoggedOnce(s) && Running(s, p) && s.clock == now
    ensures LoggedOnce(Finished(s, p, row, now))
  {
    var t := Finished(s, p, row, now);
    FinishedStays(s, t);
    assert t.log[|s.log|] == Stored(p);
    forall q | 0 <= q < |t.probes| && t.probes[q].finish.Some? ensures Stored(q) in t.log {
      if q != p {
        assert Stored(q) in s.log;
      }
    }
  }

  lemma InvalidateLogged(s: State, name: string)
    requires LoggedOnce(s)
    ensures LoggedOnce(Invalidated(s, name))
  {
    var t := Invalidated(s, name);
    FinishedStays(s, t);
    assert forall q :: 0 <= q < |t.probes| && t.probes[q].finish.Some? ==> Stored(q) in s.log;
  }

  /** Names of probes do not change, so the log reads the same in a later state. */
  lemma LatestStays(s: State, t: State, log: seq<Event>, name: string)
    requires |s.probes| <= |t.probes| && forall p :: 0 <= p < |s.probes| ==> t.probes[p].name == s.probes[p].name
    requires forall k :: 0 <= k < |log| && log[k].Stored? ==> log[k].probe < |s.probes|
    ensures Latest(t, log, name) == Latest(s, log, name)
  {
  }

  lemma AgreesKept(s: State, step: Step, now: real, name: string)
    requires LoggedOnce(s) && Agrees(s, name)
    ensures Agrees(Apply(s, step, now), name)
  {
    if now >= s.clock {
      var t := s.(clock := now);
      LogStays(s, t, name);
      SameLog(s, t);
      AgreesAtOnce(t, step, name);
    }
  }

  lemma AgreesAtOnce(t: State, step: Step, name: string)
    requires LoggedOnce(t) && Agrees(t, name)
    ensures Agrees(Apply(t, step, t.clock), name)
  {
    match step
    case Call(n, fingerprint) => LogStays(t, Called(t, n, fingerprint, t.clock), name);
    case Finishes(p, row) => if Running(t, p) { FinishAgrees(t, p, row, t.clock, name); }
    case Resumes(c) => if Resumable(t, c) { LogStays(t, Resumed(t, c), name); }
    case Invalidate(n) => InvalidateAgrees(t, n, name);
  }

  lemma LogStays(s: State, t: State, name: string)
    requires LoggedOnce(s) && Extends(s, t) && t.clock >= s.clock
    ensures Latest(t, s.log, name) == Latest(s, s.log, name)
    ensures Agrees(s, name) && t.log == s.log && t.cache == s.cache ==> Agrees(t, name)
    ensures Latest(s, s.log, name).Some? ==> HasFinished(s, Latest(s, s.log, name).value) && HasFinished(t, Latest(s, s.log, name).value)
  {
    assert forall k :: 0 <= k < |s.log| && s.log[k].Stored? ==> HasFinished(s, s.log[k].probe);
    LatestStays(s, t, s.log, name);
    LatestFinished(s, s.log, name);
  }

  lemma {:induction false} LatestFinished(s: State, log: seq<Event>, name: string)
    requires forall k :: 0 <= k < |log| && log[k].Stored? ==> HasFinished(s, log[k].probe)
    ensures Latest(s, log, name).Some? ==> HasFinished(s, Latest(s, log, name).value)
  {
    if log != [] {
      LatestFinished(s, log[..|log| - 1], name);
    }
  }

  lemma FinishAgrees(s: State, p: nat, row: Row, now: real, name: string)
    requires LoggedOnce(s) && Agrees(s, name) && Running(s, p) && s.clock == now
    ensures Agrees(Finished(s, p, row, now), name)
  {
    var t := Finished(s, p, row, now);
    LogStays(s, t, name);
    assert t.log[..|t.log| - 1] == s.log;
  }

  lemma InvalidateAgrees(s: State, n: string, name: string)
    requires LoggedOnce(s) && Agrees(s, name)
    ensures Agrees(Invalidated(s, n), name)
  {
    var t := Invalidated(s, n);
    LogStays(s, t, name);
    assert t.log[..|t.log| - 1] == s.log;
  }

  lemma {:induction false} TraceIsLogged(trace: seq<(Step, real)>)
    ensures LoggedOnce(After(trace))
  {
    if trace != [] {
      TraceIsLogged(trace[..|trace| - 1]);
      LoggedOnceKept(After(trace[..|trace| - 1]), trace[|trace| - 1].0, trace[|trace| - 1].1);
    }
  }

  /** Under every interleaving the cache holds what the last store since the last invalidation saved. */
  lemma {:induction false} CacheIsHistory(trace: seq<(Step, real)>, name: string)
    ensures Agrees(After(trace), name)
  {
    if trace != [] {
      TraceIsLogged(trace[..|trace| - 1]);
      CacheIsHistory(trace[..|trace| - 1], name);
      AgreesKept(After(trace[..|trace| - 1]), trace[|trace| - 1].0, trace[|trace| - 1].1, name);
    }
  }

  /** A caller is served from the cache exactly when the latest stored probe of its provider, not invalidated
      since, ran under the caller's fingerprint and finished less than its time limit ago; it gets that row. */
  lemma HitExactlyWhenFresh(trace: seq<(Step, real)>, name: string, fingerprint: string, now: real)
    requires After(trace).clock <= now
    ensures var s, t := After(trace), After(trace + [(Call(name, fingerprint), now)]);
      var caller, latest := t.callers[|s.callers|], Latest(s, s.log, name);
      && |t.callers| == |s.callers| + 1
      && (caller.answer.Hit? <==> latest.Some? && StillFresh(s, latest.value, fingerprint, now))
      && (caller.answer.Hit? ==> caller.answer.row == s.probes[latest.value].finish.value.row)
  {
    CacheIsHistory(trace, name);
    AfterOneMore(trace, Call(name, fingerprint), now);
  }

  ghost predicate StillFresh(s: State, p: nat, fingerprint: string, now: real) {
    && HasFinished(s, p) && s.probes[p].fingerprint == fingerprint
    && var Finish(row, at) := s.probes[p].finish.value; 0.0 <= now - at < Ttl(row.reachable)
  }

  /** A new probe starts only when its provider has none running and its latest stored row, if one is left
      and the fingerprint has not changed, is at least its time limit old. */
  lemma ProbesKeepTheirDistance(trace: seq<(Step, real)>, name: string, fingerprint: string, now: real)
    requires After(trace).clock <= now
    requires |After(trace + [(Call(name, fingerprint), now)]).probes| > |After(trace).probes|
    ensures var s := After(trace); var latest := Latest(s, s.log, name);
      && (forall p: nat :: Running(s, p) ==> s.probes[p].name != name)
      && (latest.Some? ==> HasFinished(s, latest.value))
      && (latest.Some? && s.probes[latest.value].fingerprint == fingerprint ==>
          var Finish(row, at) := s.probes[latest.value].finish.value; now - at >= Ttl(row.reachable))
  {
    TraceIsRegistered(trace);
    CacheIsHistory(trace, name);
    AfterOneMore(trace, Call(name, fingerprint), now);
  }

  lemma AfterOneMore(trace: seq<(Step, real)>, step: Step, now: real)
    ensures After(trace + [(step, now)]) == Apply(After(trace), step, now)
  {
    assert (trace + [(step, now)])[..|trace|] == trace;
  }

  // ---- under whose fingerprint a caller is answered ----

  /** The row a caller was given, or waits for, is that of probe `p`. */
  predicate AnsweredBy(s: State, c: Caller, p: nat) {
    && p < |s.probes| && s.probes[p].name == c.name
    && match c.answer
       case Hit(row, _) => s.probes[p].finish.Some? && s.probes[p].finish.value.row == row
       case Waiting(q) => q == p
       case Got(q, row) => q == p && s.probes[p].finish.Some? && s.probes[p].finish.value.row == row
  }

  ghost predicate UnderOwnFingerprint(s: State, c: Caller) {
    exists p: nat :: AnsweredBy(s, c, p) && s.probes[p].fingerprint == c.fingerprint
  }

  /** What a caller can see before it calls: a fresh row, no probe in flight, or one of its own fingerprint. */
  predicate MeetsOwnFingerprint(s: State, name: string, fingerprint: string, now: real) {
    Fresh(s.cache, name, fingerprint, now) || name !in s.inflight
      || (s.inflight[name] < |s.probes| && s.probes[s.inflight[name]].fingerprint == fingerprint)
  }

  /** From `s` on, caller `c` asks the same, and its answer at most goes from waiting to the awaited row. */
  ghost predicate StaysAnswered(s: State, t: State, c: nat) {
    && Extends(s, t) && c < |s.callers| <= |t.callers|
    && t.callers[c].name == s.callers[c].name && t.callers[c].fingerprint == s.callers[c].fingerprint
    && (t.callers[c].answer == s.callers[c].answer
        || (s.callers[c].answer.Waiting? && t.callers[c].answer.Got? && t.callers[c].answer.probe == s.callers[c].answer.probe))
  }

  lemma StepStaysAnswered(s: State, step: Step, now: real, c: nat)
    requires c < |s.callers|
    ensures StaysAnswered(s, Apply(s, step, now), c)
  {
  }

  lemma {:induction false} TraceStaysAnswered(trace: seq<(Step, real)>, more: seq<(Step, real)>, c: nat)
    requires c < |After(trace).callers|
    ensures StaysAnswered(After(trace), After(trace + more), c)
    decreases |more|
  {
    if more == [] {
      assert trace + more == trace;
    } else {
      var n := |more| - 1;
      TraceStaysAnswered(trace, more[..n], c);
      assert trace + more == trace + more[..n] + [more[n]];
      AfterOneMore(trace + more[..n], more[n].0, more[n].1);
      StepStaysAnswered(After(trace + more[..n]), more[n].0, more[n].1, c);
    }
  }

  /** A row from the cache is that of a probe under the caller's fingerprint. */
  lemma HitIsOwn(s: State, name: string, fingerprint: string, now: real, c: Caller)
    requires Agrees(s, name) && Fresh(s.cache, name, fingerprint, now)
    requires c == Caller(name, fingerprint, Hit(s.cache[name].row, now - s.cache[name].storedAt))
    ensures UnderOwnFingerprint(s, c)
  {
    var p := Latest(s, s.log, name).value;
    assert AnsweredBy(s, c, p);
  }

  lemma WaitIsOwn(t: State, c: Caller, p: nat)
    requires c.answer == Waiting(p) && p < |t.probes| && t.probes[p].name == c.name
    ensures UnderOwnFingerprint(t, c) <==> t.probes[p].fingerprint == c.fingerprint
  {
    assert AnsweredBy(t, c, p);
  }

  /** The answer to a call, in the state the call leaves. */
  predicate AnswersCall(s: State, t: State, c: Caller, now: real) {
    if Fresh(s.cache, c.name, c.fingerprint, now) then
      c.answer == Hit(s.cache[c.name].row, now - s.cache[c.name].storedAt) && t.probes == s.probes
    else if c.name in s.inflight then c.answer == Waiting(s.inflight[c.name]) && t.probes == s.probes
    else c.answer == Waiting(|s.probes|) && t.probes == s.probes + [Probe(c.name, c.fingerprint, None)]
  }

  lemma CallAnswers(trace: seq<(Step, real)>, name: string, fingerprint: string, now: real)
    requires After(trace).clock <= now
    ensures var s, t := After(trace), After(trace + [(Call(name, fingerprint), now)]);
      && |t.callers| == |s.callers| + 1
      && t.callers[|s.callers|].name == name && t.callers[|s.callers|].fingerprint == fingerprint
      && AnswersCall(s, t, t.callers[|s.callers|], now)
  {
    AfterOneMore(trace, Call(name, fingerprint), now);
  }

  lemma AnswerUnderOwn(s: State, t: State, c: Caller, now: real)
    requires Waits(s) && Agrees(s, c.name) && AnswersCall(s, t, c, now)
    ensures UnderOwnFingerprint(t, c) <==> MeetsOwnFingerprint(s, c.name, c.fingerprint, now)
    ensures c.answer.Hit? ==> UnderOwnFingerprint(t, c)
  {
    if Fresh(s.cache, c.name, c.fingerprint, now) {
      HitIsOwn(s, c.name, c.fingerprint, now, c);
      var p: nat :| AnsweredBy(s, c, p) && s.probes[p].fingerprint == c.fingerprint;
      assert AnsweredBy(t, c, p);
    } else {
      WaitIsOwn(t, c, c.answer.probe);
    }
  }

  /** A caller is answered with the row of a probe that ran under the caller's own fingerprint, then and
      after any further steps, exactly when it met such a row or probe, or none in flight, as it called. */
  lemma OwnFingerprintIff(trace: seq<(Step, real)>, name: string, fingerprint: string, now: real, more: seq<(Step, real)>)
    requires After(trace).clock <= now
    ensures var s, u := After(trace), After(trace + [(Call(name, fingerprint), now)] + more);
      && |s.callers| < |u.callers|
      && (UnderOwnFingerprint(u, u.callers[|s.callers|]) <==> MeetsOwnFingerprint(s, name, fingerprint, now))
  {
    var called := trace + [(Call(name, fingerprint), now)];
    var c := |After(trace).callers|;
    CallAnswers(trace, name, fingerprint, now);
    TraceIsRegistered(trace);
    CacheIsHistory(trace, name);
    AnswerUnderOwn(After(trace), After(called), After(called).callers[c], now);
    TraceStaysAnswered(called, more, c);
    TraceIsRegistered(called);
    TraceIsRegistered(called + more);
    OwnFingerprintStays(After(called), After(called + more), c);
  }

  lemma OwnFingerprintStays(t: State, u: State, c: nat)
    requires StaysAnswered(t, u, c) && Waits(t) && Waits(u)
    requires t.callers[c].answer.Hit? ==> UnderOwnFingerprint(t, t.callers[c])
    ensures UnderOwnFingerprint(u, u.callers[c]) <==> UnderOwnFingerprint(t, t.callers[c])
  {
    var before, after := t.callers[c], u.callers[c];
    assert AnswerFits(t, before) && AnswerFits(u, after);
    if before.answer.Hit? {
      var p: nat :| AnsweredBy(t, before, p) && t.probes[p].fingerprint == before.fingerprint;
      assert AnsweredBy(u, after, p);
    } else {
      assert AnsweredBy(t, before, before.answer.probe) && AnsweredBy(u, after, before.answer.probe);
    }
  }

  /** A probe in flight answers callers whose fingerprint it does not have. */
  lemma JoiningIgnoresFingerprint(row: Row)
    ensures var s := After([(Call("p", "old"), 0.0), (Call("p", "new"), 0.0), (Finishes(0, row), 1.0), (Resumes(1), 1.0)]);
      && |s.probes| == 1 && s.probes[0].fingerprint == "old"
      && |s.callers| == 2 && s.callers[1] == Caller("p", "new", Got(0, row))
  {
    var t1 := [(Call("p", "old"), 0.0)];
    var t2 := t1 + [(Call("p", "new"), 0.0)];
    var t3 := t2 + [(Finishes(0, row), 1.0)];
    AfterOneMore([], Call("p", "old"), 0.0);
    assert [] + [(Call("p", "old"), 0.0)] == t1;
    AfterOneMore(t1, Call("p", "new"), 0.0);
    AfterOneMore(t2, Finishes(0, row), 1.0);
    AfterOneMore(t3, Resumes(1), 1.0);
    assert After([]) == INIT;
    var s1, s2, s3 := After(t1), After(t2), After(t3);
    assert s1 == INIT.(probes := [Probe("p", "old", None)], inflight := map["p" := 0], callers := [Caller("p", "old", Waiting(0))]);
    assert s2 == s1.(callers := [Caller("p", "old", Waiting(0)), Caller("p", "new", Waiting(0))]);
    assert s3.probes == [Probe("p", "old", Some(Finish(row, 1.0)))] && s3.callers == s2.callers && s3.clock == 1.0;
    assert Resumable(s3, 1);
    assert t3 + [(Resumes(1), 1.0)] == [(Call("p", "old"), 0.0), (Call("p", "new"), 0.0), (Finishes(0, row), 1.0), (Resumes(1), 1.0)];
  }

  // ---- the cache, told from the steps alone ----

  /** Step `i` was taken: the clock did not stand behind it. */
  predicate Taken(trace: seq<(Step, real)>, i: nat)
    requires i < |trace|
  {
    trace[i].1 >= After(trace[..i]).clock
  }

  /** Step `i` is the end of a probe of the provider. */
  predicate Stores(trace: seq<(Step, real)>, i: nat, name: string)
    requires i < |trace|
  {
    Taken(trace, i) && trace[i].0.Finishes? && Running(After(trace[..i]), trace[i].0.probe)
      && After(trace[..i]).probes[trace[i].0.probe].name == name
  }

  /** Step `i` invalidates the provider's row, or all rows. */
  predicate Clears(trace: seq<(Step, real)>, i: nat, name: string)
    requires i < |trace|
  {
    Taken(trace, i) && trace[i].0.Invalidate? && (trace[i].0.name == name || trace[i].0.name == "")
  }

  /** The last step that stored a row for the provider, unless it was cleared since. */
  function LastStore(trace: seq<(Step, real)>, name: string): (i: Option<nat>)
    ensures i.Some? ==> i.value < |trace| && Stores(trace, i.value, name)
  {
    if trace == [] then None
    else
      var n := |trace| - 1;
      if Stores(trace, n, name) then Some(n)
      else if Clears(trace, n, name) then None
      else
        var i := LastStore(trace[..n], name);
        assert i.Some? ==> trace[..n][..i.value] == trace[..i.value];
        i
  }

  /** The row for a provider is that of its last stored probe: its fingerprint, the time it ended, its outcome. */
  ghost predicate HoldsLast(s: State, trace: seq<(Step, real)>, name: string) {
    match LastStore(trace, name)
    case None => name !in s.cache
    case Some(i) => name in s.cache && s.cache[name] == SavedBy(trace, i, name)
  }

  function SavedBy(trace: seq<(Step, real)>, i: nat, name: string): Saved
    requires i < |trace| && Stores(trace, i, name)
  {
    var row := trace[i].0.row;
    Saved(After(trace[..i]).probes[trace[i].0.probe].fingerprint, trace[i].1, row.reachable, row)
  }

  /** How one step changes the cache. */
  lemma StepCaches(s: State, step: Step, now: real, name: string)
    requires now >= s.clock
    ensures var t := Apply(s, step, now);
      if step.Finishes? && Running(s, step.probe) && s.probes[step.probe].name == name then
        name in t.cache && t.cache[name] == Saved(s.probes[step.probe].fingerprint, now, step.row.reachable, step.row)
      else if step.Invalidate? && (step.name == name || step.name == "") then name !in t.cache
      else (name in t.cache <==> name in s.cache) && (name in t.cache ==> t.cache[name] == s.cache[name])
  {
  }

  /** Under every interleaving the cache holds, for each provider, what its last stored probe saved, unless an
      invalidation came behind it. */
  lemma {:induction false} CacheByTrace(trace: seq<(Step, real)>, name: string)
    ensures HoldsLast(After(trace), trace, name)
    decreases |trace|
  {
    if trace != [] {
      var n := |trace| - 1;
      CacheByTrace(trace[..n], name);
      if Taken(trace, n) {
        StepCaches(After(trace[..n]), trace[n].0, trace[n].1, name);
      }
      if !Stores(trace, n, name) && !Clears(trace, n, name) {
        SameLast(trace, n, name);
      }
    }
  }

  lemma SameLast(trace: seq<(Step, real)>, n: nat, name: string)
    requires |trace| == n + 1 && !Stores(trace, n, name) && !Clears(trace, n, name)
    ensures LastStore(trace, name) == LastStore(trace[..n], name)
    ensures LastStore(trace, name).Some? ==>
      SavedBy(trace, LastStore(trace, name).value, name) == SavedBy(trace[..n], LastStore(trace, name).value, name)
  {
    var i := LastStore(trace[..n], name);
    if i.Some? {
      assert trace[..n][..i.value] == trace[..i.value];
    }
  }

  /** The row of the last stored probe is that of the caller's fingerprint and not older than a minute, or a
      quarter of it for a failure. */
  predicate Serves(trace: seq<(Step, real)>, name: string, fingerprint: string, now: real) {
    LastStore(trace, name).Some? && Recent(SavedBy(trace, LastStore(trace, name).value, name), fingerprint, now)
  }

  predicate Recent(saved: Saved, fingerprint: string, now: real) {
    saved.fingerprint == fingerprint && now < saved.storedAt + if saved.row.reachable then 60.0 else 15.0
  }

  /** A caller is served from the cache exactly then, with that row and its age. */
  lemma HitByTrace(trace: seq<(Step, real)>, name: string, fingerprint: string, now: real)
    requires After(trace).clock <= now
    ensures var s, t := After(trace), After(trace + [(Call(name, fingerprint), now)]);
      && |t.callers| == |s.callers| + 1
      && (t.callers[|s.callers|].answer.Hit? <==> Serves(trace, name, fingerprint, now))
      && (t.callers[|s.callers|].answer.Hit? ==>
          var saved := SavedBy(trace, LastStore(trace, name).value, name);
          t.callers[|s.callers|].answer == Hit(saved.row, now - saved.storedAt))
  {
    CacheByTrace(trace, name);
    CallAnswers(trace, name, fingerprint, now);
  }
}
