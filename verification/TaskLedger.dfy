// The task ledger: rows of tasks beside a log of events. Every step is one transaction.

module TaskLedger {
  import opened Text

  datatype State = Pending | Leased | Running | Blocked | Complete | Failed

  function Name(s: State): string {
    match s
    case Pending => "pending"
    case Leased => "leased"
    case Running => "running"
    case Blocked => "blocked"
    case Complete => "complete"
    case Failed => "failed"
  }

  /** The state with a given name; None is a name `_STATES` does not have. */
  function Named(name: string): (r: Option<State>)
    ensures r.Some? ==> Name(r.value) == name
    ensures r.None? ==> forall s :: Name(s) != name
  {
    if name == "pending" then Some(Pending)
    else if name == "leased" then Some(Leased)
    else if name == "running" then Some(Running)
    else if name == "blocked" then Some(Blocked)
    else if name == "complete" then Some(Complete)
    else if name == "failed" then Some(Failed)
    else None
  }

  function Transitions(s: State): set<State> {
    match s
    case Pending => {Leased, Blocked, Failed}
    case Leased => {Running, Pending, Blocked, Failed}
    case Running => {Complete, Blocked, Failed}
    case Blocked => {Pending, Failed}
    case Failed => {Pending}
    case Complete => {}
  }

  // ---- the texts of events ----

  datatype Kind = Created | Claimed | ControlsUpdated | Moved(to: State) | Stopped(reason: string)

  const MOVED := "transition:"
  const STOPPED := "stopped:"

  function Written(k: Kind): string {
    match k
    case Created => "created"
    case Claimed => "claimed"
    case ControlsUpdated => "controls_updated"
    case Moved(to) => MOVED + Name(to)
    case Stopped(reason) => STOPPED + reason
  }

  predicate StartsWith(s: string, prefix: string) {
    |prefix| <= |s| && s[..|prefix|] == prefix
  }

  function ReadEvent(text: string): Option<Kind> {
    if text == "created" then Some(Created)
    else if text == "claimed" then Some(Claimed)
    else if text == "controls_updated" then Some(ControlsUpdated)
    else if StartsWith(text, MOVED) then
      match Named(text[|MOVED|..])
      case None => None
      case Some(s) => Some(Moved(s))
    else if StartsWith(text, STOPPED) then Some(Stopped(text[|STOPPED|..]))
    else None
  }

  /** What an event says can be read back from its text. */
  lemma EventReadsBack(k: Kind)
    ensures ReadEvent(Written(k)) == Some(k)
  {
    var text := Written(k);
    match k
    case Moved(to) =>
      assert text[0] == 't' && text[..|MOVED|] == MOVED && text[|MOVED|..] == Name(to);
    case Stopped(reason) =>
      assert text[0] == 's' && text[..|STOPPED|] == STOPPED && text[|STOPPED|..] == reason;
    case _ =>
  }

  // ---- the tables and the transactions ----

  datatype Task = Task(description: string, owner: string, state: State, leaseOwner: Option<string>, leaseUntil: Option<string>, controls: string)

  datatype Event = Event(taskId: string, actor: string, text: string)

  /** `unlogged` are the tasks whose row is committed and whose first event is not yet. */
  datatype Tables = Tables(tasks: map<string, Task>, events: seq<Event>, unlogged: set<string>)

  const EMPTY := Tables(map[], [], {})

  datatype Conflict = AlreadyExists | NotFound | NotPending | UnknownState | InvalidTransition | CannotStop | ReasonRequired

  datatype Done = Done(tables: Tables, conflict: Option<Conflict>)

  function Refused(t: Tables, why: Conflict): Done {
    Done(t, Some(why))
  }

  function Changed(t: Tables, id: string, task: Task, actor: string, kind: Kind): Done {
    Done(t.(tasks := t.tasks[id := task], events := t.events + [Event(id, actor, Written(kind))]), None)
  }

  /** The first statement of `create_task`, a transaction of its own. */
  function Inserted(t: Tables, id: string, description: string, owner: string): Done {
    if id in t.tasks then Refused(t, AlreadyExists)
    else Done(t.(tasks := t.tasks[id := Task(description, owner, Pending, None, None, "{}")], unlogged := t.unlogged + {id}), None)
  }

  /** The second one. */
  function Announced(t: Tables, id: string): Tables
    requires id in t.unlogged && id in t.tasks
  {
    t.(events := t.events + [Event(id, t.tasks[id].owner, Written(Created))], unlogged := t.unlogged - {id})
  }

  function ClaimedBy(t: Tables, id: string, actor: string, until: string): Done {
    if id !in t.tasks then Refused(t, NotFound)
    else if t.tasks[id].state != Pending then Refused(t, NotPending)
    else Changed(t, id, t.tasks[id].(state := Leased, leaseOwner := Some(actor), leaseUntil := Some(until)), actor, Claimed)
  }

  function MovedTo(t: Tables, id: string, name: string, actor: string): Done {
    if Named(name).None? then Refused(t, UnknownState)
    else if id !in t.tasks then Refused(t, NotFound)
    else
      var to := Named(name).value;
      if to !in Transitions(t.tasks[id].state) then Refused(t, InvalidTransition)
      else Changed(t, id, t.tasks[id].(state := to), actor, Moved(to))
  }

  function ControlsSet(t: Tables, id: string, controls: string, actor: string): Done {
    if id !in t.tasks then Refused(t, NotFound)
    else Changed(t, id, t.tasks[id].(controls := controls), actor, ControlsUpdated)
  }

  function StoppedFor(t: Tables, id: string, reason: string, actor: string): Done {
    if reason == "" then Refused(t, ReasonRequired)
    else if id !in t.tasks then Refused(t, NotFound)
    else if t.tasks[id].state == Blocked then Done(t, None)
    else if t.tasks[id].state !in {Leased, Running, Pending} then Refused(t, CannotStop)
    else Changed(t, id, t.tasks[id].(state := Blocked, leaseOwner := None, leaseUntil := None), actor, Stopped(reason))
  }

  datatype Step =
    | Insert(id: string, description: string, owner: string)
    | Announce(id: string)
    | Claim(id: string, actor: string, until: string)
    | Transition(id: string, name: string, actor: string)
    | SetControls(id: string, controls: string, actor: string)
    | Stop(id: string, reason: string, actor: string)

  function Apply(t: Tables, step: Step): Done {
    match step
    case Insert(id, description, owner) => Inserted(t, id, description, owner)
    case Announce(id) => Done(if id in t.unlogged && id in t.tasks then Announced(t, id) else t, None)
    case Claim(id, actor, until) => ClaimedBy(t, id, actor, until)
    case Transition(id, name, actor) => MovedTo(t, id, name, actor)
    case SetControls(id, controls, actor) => ControlsSet(t, id, controls, actor)
    case Stop(id, reason, actor) => StoppedFor(t, id, reason, actor)
  }

  /** Any serialization of the transactions of any number of connections. */
  function After(trace: seq<Step>): Tables {
    if trace == [] then EMPTY else Apply(After(trace[..|trace| - 1]), trace[|trace| - 1]).tables
  }

  /** One connection at work alone. */
  class TaskLedger {
    var tasks: map<string, Task>
    var events: seq<Event>
    ghost var unlogged: set<string>

    ghost function Now(): Tables
      reads this
    {
      Tables(tasks, events, unlogged)
    }

    constructor ()
      ensures Now() == EMPTY
    {
      tasks, events, unlogged := map[], [], {};
    }

    method Log(id: string, actor: string, kind: Kind)
      modifies this`events
      ensures events == old(events) + [Event(id, actor, Written(kind))]
    {
      events := events + [Event(id, actor, Written(kind))];
    }

    method CreateTask(id: string, description: string, owner: string) returns (conflict: Option<Conflict>)
      modifies this
      ensures var first := Apply(old(Now()), Insert(id, description, owner));
        conflict == first.conflict && Now() == if conflict.Some? then old(Now()) else Apply(first.tables, Announce(id)).tables
    {
      if id in tasks {
        return Some(AlreadyExists);
      }
      tasks := tasks[id := Task(description, owner, Pending, None, None, "{}")];
      Log(id, owner, Created);
      unlogged := unlogged + {id} - {id};
      return None;
    }

    method ClaimTask(id: string, actor: string, until: string) returns (conflict: Option<Conflict>)
      modifies this
      ensures Done(Now(), conflict) == Apply(old(Now()), Claim(id, actor, until))
    {
      if id !in tasks {
        return Some(NotFound);
      }
      if tasks[id].state != Pending {
        return Some(NotPending);
      }
      tasks := tasks[id := tasks[id].(state := Leased, leaseOwner := Some(actor), leaseUntil := Some(until))];
      Log(id, actor, Claimed);
      return None;
    }

    method TransitionTask(id: string, name: string, actor: string) returns (conflict: Option<Conflict>)
      modifies this
      ensures Done(Now(), conflict) == Apply(old(Now()), Transition(id, name, actor))
    {
      var to := Named(name);
      if to.None? {
        return Some(UnknownState);
      }
      if id !in tasks {
        return Some(NotFound);
      }
      if to.value !in Transitions(tasks[id].state) {
        return Some(InvalidTransition);
      }
      tasks := tasks[id := tasks[id].(state := to.value)];
      Log(id, actor, Moved(to.value));
      return None;
    }

    method SetTaskControls(id: string, controls: string, actor: string) returns (conflict: Option<Conflict>)
      modifies this
      ensures Done(Now(), conflict) == Apply(old(Now()), SetControls(id, controls, actor))
    {
      if id !in tasks {
        return Some(NotFound);
      }
      tasks := tasks[id := tasks[id].(controls := controls)];
      Log(id, actor, ControlsUpdated);
      return None;
    }

    method StopTask(id: string, reason: string, actor: string) returns (conflict: Option<Conflict>)
      modifies this
      ensures Done(Now(), conflict) == Apply(old(Now()), Stop(id, reason, actor))
    {
      if reason == "" {
        return Some(ReasonRequired);
      }
      if id !in tasks {
        return Some(NotFound);
      }
      if tasks[id].state == Blocked {
        return None;
      }
      if tasks[id].state !in {Leased, Running, Pending} {
        return Some(CannotStop);
      }
      tasks := tasks[id := tasks[id].(state := Blocked, leaseOwner := None, leaseUntil := None)];
      Log(id, actor, Stopped(reason));
      return None;
    }
  }

  // ---- replaying the log ----

  /** `events`: the log of one task. */
  function EventsOf(events: seq<Event>, id: string): seq<Event> {
    if events == [] then []
    else
      var before, last := EventsOf(events[..|events| - 1], id), events[|events| - 1];
      if last.taskId == id then before + [last] else before
  }

  datatype Standing = Standing(state: State, leaseOwner: Option<string>)

  /** What an event makes of a task; None is an event that cannot have happened then. */
  function Advanced(s: Standing, e: Event): Option<Standing> {
    match ReadEvent(e.text)
    case None => None
    case Some(Created) => Some(s)
    case Some(ControlsUpdated) => Some(s)
    case Some(Claimed) => if s.state == Pending then Some(Standing(Leased, Some(e.actor))) else None
    case Some(Moved(to)) => if to in Transitions(s.state) then Some(s.(state := to)) else None
    case Some(Stopped(_)) => if s.state in {Leased, Running, Pending} then Some(Standing(Blocked, None)) else None
  }

  function Replay(log: seq<Event>): Option<Standing> {
    if log == [] then Some(Standing(Pending, None))
    else
      match Replay(log[..|log| - 1])
      case None => None
      case Some(s) => Advanced(s, log[|log| - 1])
  }

  ghost predicate Explained(t: Tables, id: string) {
    var log := EventsOf(t.events, id);
    if id in t.tasks then Replay(log) == Some(Standing(t.tasks[id].state, t.tasks[id].leaseOwner)) else log == [] && id !in t.unlogged
  }

  lemma LogGrows(events: seq<Event>, e: Event, id: string)
    ensures EventsOf(events + [e], id) == if e.taskId == id then EventsOf(events, id) + [e] else EventsOf(events, id)
  {
    assert (events + [e])[..|events|] == events;
  }

  lemma ReplayOneMore(log: seq<Event>, e: Event)
    ensures Replay(log + [e]) == match Replay(log) case None => None case Some(s) => Advanced(s, e)
  {
    assert (log + [e])[..|log|] == log;
  }

  lemma ChangeExplained(t: Tables, id: string, task: Task, actor: string, kind: Kind, other: string)
    requires Explained(t, other) && id in t.tasks
    requires Advanced(Standing(t.tasks[id].state, t.tasks[id].leaseOwner), Event(id, actor, Written(kind)))
      == Some(Standing(task.state, task.leaseOwner))
    ensures Explained(Changed(t, id, task, actor, kind).tables, other)
  {
    LogGrows(t.events, Event(id, actor, Written(kind)), other);
    ReplayOneMore(EventsOf(t.events, other), Event(id, actor, Written(kind)));
  }

  lemma ExplainedKept(t: Tables, step: Step, id: string)
    requires Explained(t, id)
    ensures Explained(Apply(t, step).tables, id)
  {
    match step
    case Insert(_, _, _) =>
    case Announce(i) =>
      if i in t.unlogged && i in t.tasks {
        EventReadsBack(Created);
        LogGrows(t.events, Event(i, t.tasks[i].owner, Written(Created)), id);
        ReplayOneMore(EventsOf(t.events, id), Event(i, t.tasks[i].owner, Written(Created)));
      }
    case Claim(i, actor, until) =>
      EventReadsBack(Claimed);
      if i in t.tasks && t.tasks[i].state == Pending {
        ChangeExplained(t, i, t.tasks[i].(state := Leased, leaseOwner := Some(actor), leaseUntil := Some(until)), actor, Claimed, id);
      }
    case Transition(i, name, actor) =>
      if Named(name).Some? && i in t.tasks && Named(name).value in Transitions(t.tasks[i].state) {
        EventReadsBack(Moved(Named(name).value));
        ChangeExplained(t, i, t.tasks[i].(state := Named(name).value), actor, Moved(Named(name).value), id);
      }
    case SetControls(i, controls, actor) =>
      EventReadsBack(ControlsUpdated);
      if i in t.tasks {
        ChangeExplained(t, i, t.tasks[i].(controls := controls), actor, ControlsUpdated, id);
      }
    case Stop(i, reason, actor) =>
      EventReadsBack(Stopped(reason));
      if i in t.tasks && t.tasks[i].state in {Leased, Running, Pending} {
        ChangeExplained(t, i, t.tasks[i].(state := Blocked, leaseOwner := None, leaseUntil := None), actor, Stopped(reason), id);
      }
  }

  /** In every serialization a task's state and lease holder are the replay of its events, each of them
      legal where it stands; a task without a row has no events. */
  lemma {:induction false} RowIsReplay(trace: seq<Step>, id: string)
    ensures Explained(After(trace), id)
  {
    if trace != [] {
      RowIsReplay(trace[..|trace| - 1], id);
      ExplainedKept(After(trace[..|trace| - 1]), trace[|trace| - 1], id);
    }
  }

  // ---- what the log can look like ----

  lemma {:induction false} PrefixReplays(log: seq<Event>, k: nat)
    requires Replay(log).Some? && k <= |log|
    ensures Replay(log[..k]).Some?
  {
    if k < |log| {
      PrefixReplays(log[..|log| - 1], k);
      assert log[..|log| - 1][..k] == log[..k];
    } else {
      assert log[..k] == log;
    }
  }

  lemma {:induction false} PrefixAdvances(log: seq<Event>, k: nat)
    requires Replay(log).Some? && k < |log|
    ensures Replay(log[..k]).Some? && Advanced(Replay(log[..k]).value, log[k]) == Replay(log[..k + 1])
  {
    var shorter := log[..|log| - 1];
    if k < |log| - 1 {
      PrefixAdvances(shorter, k);
      assert shorter[..k] == log[..k] && shorter[..k + 1] == log[..k + 1];
    } else {
      assert log[..k + 1] == log;
    }
  }

  /** Every event leaves the state alone or moves it along `_TRANSITIONS`. */
  lemma LogIsAPath(trace: seq<Step>, id: string, k: nat)
    requires k < |EventsOf(After(trace).events, id)|
    ensures var log := EventsOf(After(trace).events, id);
      && Replay(log[..k]).Some? && Replay(log[..k + 1]).Some?
      && var s, t := Replay(log[..k]).value.state, Replay(log[..k + 1]).value.state; t == s || t in Transitions(s)
  {
    RowIsReplay(trace, id);
    PrefixReplays(EventsOf(After(trace).events, id), k + 1);
    PrefixAdvances(EventsOf(After(trace).events, id), k);
  }

  /** A complete task stays complete, with the same lease holder, whatever is tried on it. */
  lemma {:induction false} CompleteIsNeverLeft(trace: seq<Step>, more: seq<Step>, id: string)
    requires id in After(trace).tasks && After(trace).tasks[id].state == Complete
    ensures id in After(trace + more).tasks && After(trace + more).tasks[id].state == Complete
    ensures After(trace + more).tasks[id].leaseOwner == After(trace).tasks[id].leaseOwner
  {
    if more == [] {
      assert trace + more == trace;
    } else {
      var n := |more| - 1;
      CompleteIsNeverLeft(trace, more[..n], id);
      assert (trace + more)[..|trace + more| - 1] == trace + more[..n];
      CompleteStays(After(trace + more[..n]), more[n], id);
    }
  }

  lemma CompleteStays(t: Tables, step: Step, id: string)
    requires id in t.tasks && t.tasks[id].state == Complete
    ensures var after := Apply(t, step).tables;
      id in after.tasks && after.tasks[id].state == Complete && after.tasks[id].leaseOwner == t.tasks[id].leaseOwner
  {
  }

  /** Getting back to pending takes an event that says so. */
  lemma {:induction false} BackToPending(log: seq<Event>, j: nat, k: nat) returns (m: nat)
    requires Replay(log).Some? && j <= k <= |log|
    requires Replay(log[..j]).Some? && Replay(log[..j]).value.state != Pending
    requires Replay(log[..k]).Some? && Replay(log[..k]).value.state == Pending
    ensures j <= m < k && ReadEvent(log[m].text) == Some(Moved(Pending))
  {
    PrefixReplays(log, k - 1);
    assert log[..k][..k - 1] == log[..k - 1];
    if Replay(log[..k - 1]).value.state == Pending {
      m := BackToPending(log, j, k - 1);
    } else {
      m := k - 1;
    }
  }

  ghost predicate ReleasedBetween(log: seq<Event>, j: nat, k: nat) {
    exists m :: j < m < k && m < |log| && ReadEvent(log[m].text) == Some(Moved(Pending))
  }

  lemma ClaimLeases(log: seq<Event>, k: nat)
    requires Replay(log).Some? && k < |log| && ReadEvent(log[k].text) == Some(Claimed)
    ensures Replay(log[..k]).Some? && Replay(log[..k]).value.state == Pending
    ensures Replay(log[..k + 1]).Some? && Replay(log[..k + 1]).value.state == Leased
  {
    PrefixReplays(log, k + 1);
    PrefixAdvances(log, k);
    ClaimFromPending(Replay(log[..k]).value, log[k]);
  }

  lemma ClaimFromPending(s: Standing, e: Event)
    requires ReadEvent(e.text) == Some(Claimed) && Advanced(s, e).Some?
    ensures s.state == Pending && Advanced(s, e).value.state == Leased
  {
  }

  lemma ClaimsSeparatedInLog(log: seq<Event>, j: nat, k: nat)
    requires Replay(log).Some? && j < k < |log|
    requires ReadEvent(log[j].text) == Some(Claimed) && ReadEvent(log[k].text) == Some(Claimed)
    ensures ReleasedBetween(log, j, k)
  {
    ClaimLeases(log, j);
    ClaimLeases(log, k);
    var m := BackToPending(log, j + 1, k);
  }

  /** Between two successful claims of a task there is always a transition to pending. */
  lemma ClaimsAreSeparated(trace: seq<Step>, id: string, j: nat, k: nat)
    requires var log := EventsOf(After(trace).events, id);
      j < k < |log| && ReadEvent(log[j].text) == Some(Claimed) && ReadEvent(log[k].text) == Some(Claimed)
    ensures ReleasedBetween(EventsOf(After(trace).events, id), j, k)
  {
    RowIsReplay(trace, id);
    ClaimsSeparatedInLog(EventsOf(After(trace).events, id), j, k);
  }

  // ---- the first event ----

  ghost predicate IsCreation(e: Event) {
    ReadEvent(e.text) == Some(Created)
  }

  ghost predicate CreatedOnce(t: Tables, id: string) {
    var log := EventsOf(t.events, id);
    && (id in t.tasks && id !in t.unlogged ==> exists k :: 0 <= k < |log| && IsCreation(log[k]))
    && (id in t.unlogged ==> forall k :: 0 <= k < |log| ==> !IsCreation(log[k]))
    && (forall j, k :: 0 <= j < k < |log| ==> !(IsCreation(log[j]) && IsCreation(log[k])))
  }

  lemma EventAddedOnce(t: Tables, after: Tables, e: Event, id: string)
    requires CreatedOnce(t, id) && after.events == t.events + [e] && after.tasks.Keys == t.tasks.Keys
    requires if IsCreation(e) then e.taskId in t.unlogged && after.unlogged == t.unlogged - {e.taskId} else after.unlogged == t.unlogged
    ensures CreatedOnce(after, id)
  {
    LogGrows(t.events, e, id);
    var was, log := EventsOf(t.events, id), EventsOf(after.events, id);
    assert forall k :: 0 <= k < |was| ==> log[k] == was[k];
    assert e.taskId == id ==> log[|was|] == e;
  }

  lemma CreatedOnceKept(t: Tables, step: Step, id: string)
    requires CreatedOnce(t, id) && Explained(t, id)
    ensures CreatedOnce(Apply(t, step).tables, id)
  {
    var after := Apply(t, step).tables;
    if |after.events| > |t.events| {
      EventReadsBack(Created);
      EventReadsBack(Claimed);
      EventReadsBack(ControlsUpdated);
      if step.Stop? {
        EventReadsBack(Stopped(step.reason));
      }
      if step.Transition? {
        EventReadsBack(Moved(Named(step.name).value));
      }
      EventAddedOnce(t, after, after.events[|t.events|], id);
    }
  }

  /** A task is announced in the log exactly once, though a claim may be logged before it. */
  lemma {:induction false} AnnouncedOnce(trace: seq<Step>, id: string)
    ensures CreatedOnce(After(trace), id)
  {
    if trace != [] {
      AnnouncedOnce(trace[..|trace| - 1], id);
      RowIsReplay(trace[..|trace| - 1], id);
      CreatedOnceKept(After(trace[..|trace| - 1]), trace[|trace| - 1], id);
    }
  }

  /** The step logs an event for a task whose creation is not yet announced, and is not the announcement. */
  predicate Overtakes(t: Tables, step: Step, id: string) {
    id in t.unlogged && step.id == id && !step.Announce? && Apply(t, step).tables.events != t.events
  }

  /** Some step of the run overtook the announcement of the task. */
  predicate Overtaken(trace: seq<Step>, id: string) {
    trace != [] && (Overtaken(trace[..|trace| - 1], id) || Overtakes(After(trace[..|trace| - 1]), trace[|trace| - 1], id))
  }

  /** How a task's log begins, by whether its announcement was overtaken. */
  ghost predicate Begins(t: Tables, id: string, overtaken: bool) {
    var log := EventsOf(t.events, id);
    if id !in t.tasks then log == [] && id !in t.unlogged && !overtaken
    else if id in t.unlogged then (log == [] <==> !overtaken) && (log != [] ==> !IsCreation(log[0]))
    else log != [] && (IsCreation(log[0]) <==> !overtaken)
  }

  /** What an event at the end of the log is, by the step that put it there. */
  lemma LoggedEvent(t: Tables, step: Step)
    requires Apply(t, step).tables.events != t.events
    ensures var after := Apply(t, step).tables;
      && |after.events| == |t.events| + 1 && after.events[..|t.events|] == t.events && after.events[|t.events|].taskId == step.id
      && after.tasks.Keys == t.tasks.Keys && step.id in t.tasks
      && after.unlogged == (if step.Announce? then t.unlogged - {step.id} else t.unlogged)
      && (step.Announce? ==> step.id in t.unlogged)
      && (IsCreation(after.events[|t.events|]) <==> step.Announce?)
  {
    EventReadsBack(Created);
    EventReadsBack(Claimed);
    EventReadsBack(ControlsUpdated);
    if step.Stop? {
      EventReadsBack(Stopped(step.reason));
    }
    if step.Transition? {
      EventReadsBack(Moved(Named(step.name).value));
    }
  }

  lemma EventBegins(t: Tables, after: Tables, e: Event, announces: bool, id: string, overtaken: bool)
    requires Begins(t, id, overtaken) && after.events == t.events + [e] && after.tasks.Keys == t.tasks.Keys
    requires e.taskId in t.tasks && (IsCreation(e) <==> announces) && (announces ==> e.taskId in t.unlogged)
    requires after.unlogged == if announces then t.unlogged - {e.taskId} else t.unlogged
    ensures Begins(after, id, overtaken || (id in t.unlogged && e.taskId == id && !announces))
  {
    LogGrows(t.events, e, id);
    var log := EventsOf(t.events, id);
    assert log != [] ==> (log + [e])[0] == log[0];
  }

  lemma QuietBegins(t: Tables, step: Step, id: string, overtaken: bool)
    requires Begins(t, id, overtaken) && Apply(t, step).tables.events == t.events
    requires step.Announce? ==> !(step.id in t.unlogged && step.id in t.tasks)
    ensures Begins(Apply(t, step).tables, id, overtaken)
  {
  }

  lemma StepBegins(t: Tables, step: Step, id: string, overtaken: bool)
    requires Begins(t, id, overtaken)
    ensures Begins(Apply(t, step).tables, id, overtaken || Overtakes(t, step, id))
  {
    var after := Apply(t, step).tables;
    if after.events == t.events {
      AnnouncementLogs(t, step);
      QuietBegins(t, step, id, overtaken);
    } else {
      LoggedEvent(t, step);
      assert after.events == t.events + [after.events[|t.events|]];
      EventBegins(t, after, after.events[|t.events|], step.Announce?, id, overtaken);
    }
  }

  lemma AnnouncementLogs(t: Tables, step: Step)
    ensures step.Announce? && step.id in t.unlogged && step.id in t.tasks ==> |Apply(t, step).tables.events| == |t.events| + 1
  {
  }

  lemma {:induction false} TraceBegins(trace: seq<Step>, id: string)
    ensures Begins(After(trace), id, Overtaken(trace, id))
  {
    if trace != [] {
      var n := |trace| - 1;
      TraceBegins(trace[..n], id);
      StepBegins(After(trace[..n]), trace[n], id, Overtaken(trace[..n], id));
    }
  }

  /** The log of a task whose creation is through starts with that event exactly when no other event of the
      task was logged before it; while it is not through, the log is empty under the same condition. */
  lemma StartsWithCreationIff(trace: seq<Step>, id: string)
    requires id in After(trace).tasks
    ensures var t := After(trace); var log := EventsOf(t.events, id);
      if id in t.unlogged then log == [] <==> !Overtaken(trace, id)
      else log != [] && (IsCreation(log[0]) <==> !Overtaken(trace, id))
  {
    TraceBegins(trace, id);
  }

  lemma AfterOneMore(trace: seq<Step>, step: Step)
    ensures After(trace + [step]) == Apply(After(trace), step).tables
  {
    assert (trace + [step])[..|trace|] == trace;
  }

  /** The row of a new task is committed before its first event is, so a claim can be logged first. */
  lemma ClaimBeforeCreation()
    ensures After([Insert("t", "work", "ann"), Claim("t", "bob", "noon"), Announce("t")]).events
      == [Event("t", "bob", "claimed"), Event("t", "ann", "created")]
  {
    AfterOneMore([], Insert("t", "work", "ann"));
    AfterOneMore([Insert("t", "work", "ann")], Claim("t", "bob", "noon"));
    AfterOneMore([Insert("t", "work", "ann"), Claim("t", "bob", "noon")], Announce("t"));
    assert After([]) == EMPTY && [] + [Insert("t", "work", "ann")] == [Insert("t", "work", "ann")];
  }

  // ---- the tables, told from the steps alone ----

  /** The moves between states, by their names. */
  predicate Moves(from: string, to: string) {
    || (from == "pending" && (to == "leased" || to == "blocked" || to == "failed"))
    || (from == "leased" && (to == "running" || to == "pending" || to == "blocked" || to == "failed"))
    || (from == "running" && (to == "complete" || to == "blocked" || to == "failed"))
    || (from == "blocked" && (to == "pending" || to == "failed"))
    || (from == "failed" && to == "pending")
  }

  predicate IsState(name: string) {
    name == "pending" || name == "leased" || name == "running" || name == "blocked" || name == "complete" || name == "failed"
  }

  /** The row's state goes by this name. */
  predicate In(t: Tables, id: string, name: string) {
    id in t.tasks && Name(t.tasks[id].state) == name
  }

  /** The tables let the step do something. */
  predicate Permitted(t: Tables, step: Step) {
    match step
    case Insert(id, _, _) => id !in t.tasks
    case Announce(id) => id in t.tasks && id in t.unlogged
    case Claim(id, _, _) => In(t, id, "pending")
    case Transition(id, name, _) => id in t.tasks && Moves(Name(t.tasks[id].state), name)
    case SetControls(id, _, _) => id in t.tasks
    case Stop(id, reason, _) => reason != "" && (In(t, id, "pending") || In(t, id, "leased") || In(t, id, "running"))
  }

  lemma MovesAre(from: State, name: string)
    ensures Moves(Name(from), name) <==> Named(name).Some? && Named(name).value in Transitions(from)
    ensures IsState(name) <==> Named(name).Some?
  {
  }

  lemma NamesDiffer(s: State)
    ensures (Name(s) == "pending" <==> s == Pending) && (Name(s) == "leased" <==> s == Leased)
      && (Name(s) == "running" <==> s == Running) && (Name(s) == "blocked" <==> s == Blocked)
  {
  }

  /** A step that is not permitted changes nothing, and only stopping a blocked task is then no conflict. */
  lemma RefusedIff(t: Tables, step: Step)
    requires !step.Announce?
    ensures Apply(t, step).conflict == None <==>
      Permitted(t, step) || (step.Stop? && step.reason != "" && In(t, step.id, "blocked"))
    ensures !Permitted(t, step) ==> Apply(t, step).tables == t
  {
    if step.id in t.tasks {
      NamesDiffer(t.tasks[step.id].state);
      if step.Transition? {
        MovesAre(t.tasks[step.id].state, step.name);
      }
    }
  }

  /** Which conflict it is. */
  lemma ConflictTells(t: Tables, step: Step, why: Conflict)
    requires Apply(t, step).conflict == Some(why)
    ensures why == AlreadyExists <==> step.Insert?
    ensures why == ReasonRequired <==> step.Stop? && step.reason == ""
    ensures why == UnknownState <==> step.Transition? && !IsState(step.name)
    ensures why == NotFound <==> !step.Insert? && why != ReasonRequired && why != UnknownState && step.id !in t.tasks
    ensures why == NotPending ==> step.Claim? && !In(t, step.id, "pending")
    ensures why == InvalidTransition ==> step.Transition? && step.id in t.tasks && !Moves(Name(t.tasks[step.id].state), step.name)
    ensures why == CannotStop ==> step.Stop? && (In(t, step.id, "complete") || In(t, step.id, "failed"))
  {
    if step.Transition? {
      MovesAre(if step.id in t.tasks then t.tasks[step.id].state else Pending, step.name);
    }
  }

  /** What the permitted steps of a run make of a task. */
  datatype Said = Missing | Said(description: string, owner: string, state: string, lease: Option<(string, string)>, controls: string)

  function StepSays(before: Said, step: Step): Said {
    match step
    case Insert(_, description, owner) => Said(description, owner, "pending", None, "{}")
    case Announce(_) => before
    case Claim(_, actor, until) => if before.Said? then before.(state := "leased", lease := Some((actor, until))) else before
    case Transition(_, name, _) => if before.Said? then before.(state := name) else before
    case SetControls(_, controls, _) => if before.Said? then before.(controls := controls) else before
    case Stop(_, _, _) => if before.Said? then before.(state := "blocked", lease := None) else before
  }

  function RunSays(trace: seq<Step>, id: string): Said {
    if trace == [] then Missing
    else
      var n := |trace| - 1;
      if trace[n].id == id && Permitted(After(trace[..n]), trace[n]) then StepSays(RunSays(trace[..n], id), trace[n])
      else RunSays(trace[..n], id)
  }

  predicate RowIs(t: Tables, id: string, said: Said) {
    if said.Missing? then id !in t.tasks
    else
      && id in t.tasks && t.tasks[id].description == said.description && t.tasks[id].owner == said.owner
      && Name(t.tasks[id].state) == said.state && t.tasks[id].controls == said.controls
      && t.tasks[id].leaseOwner == (if said.lease.Some? then Some(said.lease.value.0) else None)
      && t.tasks[id].leaseUntil == (if said.lease.Some? then Some(said.lease.value.1) else None)
  }

  lemma StepRow(t: Tables, step: Step, id: string, said: Said)
    requires RowIs(t, id, said)
    ensures RowIs(Apply(t, step).tables, id, if step.id == id && Permitted(t, step) then StepSays(said, step) else said)
  {
    if step.id in t.tasks {
      NamesDiffer(t.tasks[step.id].state);
      if step.Transition? {
        MovesAre(t.tasks[step.id].state, step.name);
      }
    }
  }

  /** In every serialization a row is what the permitted steps on its task said last. */
  lemma {:induction false} RowByTrace(trace: seq<Step>, id: string)
    ensures RowIs(After(trace), id, RunSays(trace, id))
    decreases |trace|
  {
    if trace != [] {
      var n := |trace| - 1;
      RowByTrace(trace[..n], id);
      StepRow(After(trace[..n]), trace[n], id, RunSays(trace[..n], id));
    }
  }

  /** The event a permitted step logs. */
  function StepLogs(t: Tables, step: Step): seq<Event> {
    match step
    case Insert(_, _, _) => []
    case Announce(id) => [Event(id, if id in t.tasks then t.tasks[id].owner else "", "created")]
    case Claim(id, actor, _) => [Event(id, actor, "claimed")]
    case Transition(id, name, actor) => [Event(id, actor, "transition:" + name)]
    case SetControls(id, _, actor) => [Event(id, actor, "controls_updated")]
    case Stop(id, reason, actor) => [Event(id, actor, "stopped:" + reason)]
  }

  function RunLogs(trace: seq<Step>): seq<Event> {
    if trace == [] then []
    else
      var n := |trace| - 1;
      var t := After(trace[..n]);
      RunLogs(trace[..n]) + if Permitted(t, trace[n]) then StepLogs(t, trace[n]) else []
  }

  lemma StepLogged(t: Tables, step: Step)
    ensures Apply(t, step).tables.events == t.events + if Permitted(t, step) then StepLogs(t, step) else []
  {
    if step.id in t.tasks {
      NamesDiffer(t.tasks[step.id].state);
      if step.Transition? {
        MovesAre(t.tasks[step.id].state, step.name);
      }
    }
  }

  /** ... and the log has exactly one event for every permitted step but the first half of a creation. */
  lemma {:induction false} LogByTrace(trace: seq<Step>)
    ensures After(trace).events == RunLogs(trace)
    decreases |trace|
  {
    if trace != [] {
      LogByTrace(trace[..|trace| - 1]);
      StepLogged(After(trace[..|trace| - 1]), trace[|trace| - 1]);
    }
  }
}
