// Applying one manifest to the AGENTS files of many projects.

module AgentsManifest {
  import opened Text
  import opened AgentsSync

  datatype Entry = Entry(path: string, delta: string)

  datatype Manifest = Manifest(shared: string, projects: seq<Entry>)

  type Files = map<string, string>

  datatype Change = Change(path: string, changed: bool, content: string)

  datatype Outcome = Outcome(files: Files, changes: seq<Change>, error: Option<Rendered>)

  predicate Marked(s: string) {
    Contains(s, START) || Contains(s, END)
  }

  ghost predicate ValidManifest(m: Manifest) {
    && Strip(m.shared) != "" && !Marked(m.shared)
    && (forall k :: 0 <= k < |m.projects| ==> !Marked(m.projects[k].delta))
    && DistinctPaths(m)
  }

  ghost predicate DistinctPaths(m: Manifest) {
    forall j, k :: 0 <= j < k < |m.projects| ==> m.projects[j].path != m.projects[k].path
  }

  /** The paths of the first `k` projects. */
  predicate SeenAre(m: Manifest, k: nat, seen: set<string>) {
    && k <= |m.projects| && (forall j :: 0 <= j < k ==> m.projects[j].path in seen)
    && forall path :: path in seen ==> exists j :: 0 <= j < k && m.projects[j].path == path
  }

  lemma SeenMore(m: Manifest, k: nat, seen: set<string>)
    requires k < |m.projects| && SeenAre(m, k, seen)
    ensures SeenAre(m, k + 1, seen + {m.projects[k].path})
  {
    var more := seen + {m.projects[k].path};
    forall path | path in more ensures exists j :: 0 <= j < k + 1 && m.projects[j].path == path {
      if path in seen {
        var j :| 0 <= j < k && m.projects[j].path == path;
      }
    }
  }

  /** Nothing is wrong with the first `k` projects. */
  ghost predicate FineTo(m: Manifest, k: nat) {
    && k <= |m.projects| && (forall j :: 0 <= j < k ==> !Marked(m.projects[j].delta))
    && forall i, j :: 0 <= i < j < k ==> m.projects[i].path != m.projects[j].path
  }

  lemma FineMore(m: Manifest, k: nat, seen: set<string>)
    requires k < |m.projects| && FineTo(m, k) && SeenAre(m, k, seen)
    requires m.projects[k].path !in seen && !Marked(m.projects[k].delta)
    ensures FineTo(m, k + 1)
  {
  }

  lemma NotFine(m: Manifest, k: nat, seen: set<string>)
    requires k < |m.projects| && SeenAre(m, k, seen)
    requires m.projects[k].path in seen || Marked(m.projects[k].delta)
    ensures !ValidManifest(m)
  {
    if m.projects[k].path in seen {
      var j :| 0 <= j < k && m.projects[j].path == m.projects[k].path;
    }
  }

  lemma AllFine(m: Manifest)
    requires Strip(m.shared) != "" && !Marked(m.shared) && FineTo(m, |m.projects|)
    ensures ValidManifest(m)
  {
  }

  /** `validate_manifest`, for a manifest whose parts have the right types. */
  method ValidateManifest(m: Manifest) returns (ok: bool)
    ensures ok <==> ValidManifest(m)
  {
    if Strip(m.shared) == "" || Marked(m.shared) {
      return false;
    }
    var seen: set<string> := {};
    for k := 0 to |m.projects|
      invariant SeenAre(m, k, seen) && FineTo(m, k)
    {
      if m.projects[k].path in seen || Marked(m.projects[k].delta) {
        NotFine(m, k, seen);
        return false;
      }
      FineMore(m, k, seen);
      SeenMore(m, k, seen);
      seen := seen + {m.projects[k].path};
    }
    AllFine(m);
    ok := true;
  }

  /** The text of a file; a missing file reads as empty. */
  function Existing(files: Files, path: string): string {
    if path in files then files[path] else ""
  }

  /** What one entry is rendered to, given the files there are. */
  function RenderEntry(m: Manifest, k: nat, files: Files, expand: string -> Option<string>): Rendered
    requires k < |m.projects|
  {
    Render(Existing(files, m.projects[k].path), m.shared, m.projects[k].delta, expand)
  }

  function Answers(m: Manifest, files: Files, expand: string -> Option<string>): (answers: seq<Rendered>)
    ensures |answers| == |m.projects|
  {
    seq(|m.projects|, k requires 0 <= k < |m.projects| => RenderEntry(m, k, files, expand))
  }

  /** The report on one entry speaks of the file as it was before the call. */
  ghost predicate Reported(path: string, answer: Rendered, files: Files, c: Change) {
    c.path == path && answer == Ok(c.content) && (c.changed <==> c.content != Existing(files, c.path))
  }

  /** Every report is about the files before the call, only changed files are written, and the first
      entry that cannot be rendered ends the run with what came before it already written. */
  ghost predicate Lawful(projects: seq<Entry>, answers: seq<Rendered>, files: Files, apply: bool, r: Outcome)
    requires |answers| == |projects|
  {
    && ReportsTo(projects, answers, files, r.changes)
    && (if |r.changes| == |projects| then r.error == None else r.error == Some(answers[|r.changes|]) && !answers[|r.changes|].Ok?)
    && Written(files, apply, r.changes, r.files)
  }

  ghost predicate ReportsTo(projects: seq<Entry>, answers: seq<Rendered>, files: Files, changes: seq<Change>)
    requires |answers| == |projects|
  {
    |changes| <= |projects| && forall k :: 0 <= k < |changes| ==> Reported(projects[k].path, answers[k], files, changes[k])
  }

  ghost predicate Written(files: Files, apply: bool, changes: seq<Change>, after: Files) {
    && (forall p :: p in after <==> p in files || WrittenPath(apply, changes, p))
    && (forall p :: p in files && !WrittenPath(apply, changes, p) ==> after[p] == files[p])
    && (apply ==> forall k :: 0 <= k < |changes| ==> Existing(after, changes[k].path) == changes[k].content)
  }

  ghost predicate WrittenPath(apply: bool, changes: seq<Change>, p: string) {
    apply && exists k :: 0 <= k < |changes| && changes[k].changed && changes[k].path == p
  }

  /** `synchronize`; None is the rejected manifest. */
  method Synchronize(m: Manifest, files: Files, apply: bool, expand: string -> Option<string>) returns (r: Option<Outcome>)
    ensures r.Some? <==> ValidManifest(m)
    ensures r.Some? ==> Lawful(m.projects, Answers(m, files, expand), files, apply, r.value)
  {
    var ok := ValidateManifest(m);
    if !ok {
      return None;
    }
    ghost var answers := Answers(m, files, expand);
    var now, changes := files, [];
    for k := 0 to |m.projects|
      invariant |changes| == k && ReportsTo(m.projects, answers, files, changes)
      invariant Written(files, apply, changes, now)
    {
      var rendered := RenderEntry(m, k, now, expand);
      NotYetWritten(m, answers, files, apply, changes, now);
      AnswerAt(m, files, now, expand, k);
      if !rendered.Ok? {
        return Some(Outcome(now, changes, Some(rendered)));
      }
      var path := m.projects[k].path;
      var change := Change(path, rendered.text != Existing(now, path), rendered.text);
      ghost var before := now;
      if apply && change.changed {
        now := now[path := rendered.text];
      }
      OneMore(m, answers, files, apply, changes, before, change, now);
      changes := changes + [change];
    }
    r := Some(Outcome(now, changes, None));
  }

  lemma AnswerAt(m: Manifest, files: Files, now: Files, expand: string -> Option<string>, k: nat)
    requires k < |m.projects| && Existing(now, m.projects[k].path) == Existing(files, m.projects[k].path)
    ensures Answers(m, files, expand)[k] == RenderEntry(m, k, now, expand)
  {
  }

  lemma NotYetWritten(m: Manifest, answers: seq<Rendered>, files: Files, apply: bool, changes: seq<Change>, now: Files)
    requires DistinctPaths(m) && |answers| == |m.projects| && |changes| < |m.projects|
    requires ReportsTo(m.projects, answers, files, changes) && Written(files, apply, changes, now)
    ensures Existing(now, m.projects[|changes|].path) == Existing(files, m.projects[|changes|].path)
    ensures forall j :: 0 <= j < |changes| ==> changes[j].path != m.projects[|changes|].path
  {
    var path := m.projects[|changes|].path;
    forall j | 0 <= j < |changes| ensures changes[j].path != path {
      assert Reported(m.projects[j].path, answers[j], files, changes[j]);
    }
    assert !WrittenPath(apply, changes, path);
  }

  lemma OneMore(m: Manifest, answers: seq<Rendered>, files: Files, apply: bool, changes: seq<Change>, now: Files, c: Change, after: Files)
    requires DistinctPaths(m) && |answers| == |m.projects| && |changes| < |m.projects|
    requires ReportsTo(m.projects, answers, files, changes) && Written(files, apply, changes, now)
    requires c.path == m.projects[|changes|].path && answers[|changes|] == Ok(c.content)
    requires c.changed <==> c.content != Existing(now, c.path)
    requires after == if apply && c.changed then now[c.path := c.content] else now
    ensures ReportsTo(m.projects, answers, files, changes + [c]) && Written(files, apply, changes + [c], after)
  {
    NotYetWritten(m, answers, files, apply, changes, now);
    WriteOne(files, apply, changes, now, c, after);
  }

  lemma WriteOne(files: Files, apply: bool, changes: seq<Change>, now: Files, c: Change, after: Files)
    requires Written(files, apply, changes, now) && (!c.changed ==> Existing(now, c.path) == c.content)
    requires forall j :: 0 <= j < |changes| ==> changes[j].path != c.path
    requires after == if apply && c.changed then now[c.path := c.content] else now
    ensures Written(files, apply, changes + [c], after)
  {
    var longer := changes + [c];
    forall p ensures WrittenPath(apply, longer, p) <==> WrittenPath(apply, changes, p) || (apply && c.changed && p == c.path) {
      LongerWritten(apply, changes, c, p);
    }
    forall k | apply && 0 <= k < |longer| ensures Existing(after, longer[k].path) == longer[k].content {
      if k < |changes| {
        assert longer[k] == changes[k];
      }
    }
  }

  lemma LongerWritten(apply: bool, changes: seq<Change>, c: Change, p: string)
    ensures WrittenPath(apply, changes + [c], p) <==> WrittenPath(apply, changes, p) || (apply && c.changed && p == c.path)
  {
    var longer := changes + [c];
    assert longer[|changes|] == c;
    assert forall j :: 0 <= j < |changes| ==> longer[j] == changes[j];
  }

  // ---- what the reports mean ----

  /** A dry run reports exactly what applying would write. */
  lemma PlanIsWhatApplyWrites(projects: seq<Entry>, answers: seq<Rendered>, files: Files, plan: Outcome, run: Outcome)
    requires |answers| == |projects| && Lawful(projects, answers, files, false, plan) && Lawful(projects, answers, files, true, run)
    ensures plan.files == files && plan.changes == run.changes && plan.error == run.error
    ensures forall k :: 0 <= k < |plan.changes| ==> Existing(run.files, plan.changes[k].path) == plan.changes[k].content
  {
    NotLonger(projects, answers, files, run.changes, |plan.changes|);
    NotLonger(projects, answers, files, plan.changes, |run.changes|);
    forall k | 0 <= k < |plan.changes| ensures plan.changes[k] == run.changes[k] {
      assert Reported(projects[k].path, answers[k], files, plan.changes[k]);
      assert Reported(projects[k].path, answers[k], files, run.changes[k]);
    }
    assert plan.changes == run.changes;
    assert forall p :: !WrittenPath(false, plan.changes, p);
  }

  lemma NotLonger(projects: seq<Entry>, answers: seq<Rendered>, files: Files, changes: seq<Change>, k: nat)
    requires |answers| == |projects| && ReportsTo(projects, answers, files, changes)
    ensures k < |changes| ==> answers[k].Ok?
  {
    if k < |changes| {
      assert Reported(projects[k].path, answers[k], files, changes[k]);
    }
  }

  /** The manifest's texts can be rendered plainly, and every file's first start marker is followed by an end marker. */
  ghost predicate Plain(m: Manifest, files: Files) {
    && Clean(m.shared)
    && (forall k :: 0 <= k < |m.projects| ==> Clean(m.projects[k].delta) && Terminated(Existing(files, m.projects[k].path)))
  }

  ghost predicate HasMarker(s: string) {
    !Absent(s, START) || !Absent(s, END)
  }

  predicate Blank(s: string) {
    forall k :: 0 <= k < |s| ==> IsSpace(s[k])
  }

  lemma MarkedIs(s: string)
    ensures Marked(s) <==> HasMarker(s)
  {
    assert Contains(s, START) <==> !Absent(s, START);
    assert Contains(s, END) <==> !Absent(s, END);
  }

  lemma BlankIs(s: string)
    ensures Strip(s) == "" <==> Blank(s)
  {
    StripIsCore(s);
    var u, v :| Surrounds(s, u, Strip(s), v);
    CoreBehind(s, u, Strip(s), v);
    if Strip(s) != "" {
      assert Strip(s)[0] == s[|u|];
    }
  }

  /** A manifest is accepted exactly when the shared text is not blank, no text holds a marker and no path comes twice. */
  lemma AcceptedIff(m: Manifest)
    ensures ValidManifest(m) <==>
      && !Blank(m.shared) && !HasMarker(m.shared)
      && (forall k :: 0 <= k < |m.projects| ==> !HasMarker(m.projects[k].delta))
      && !exists j, k :: 0 <= j < k < |m.projects| && m.projects[j].path == m.projects[k].path
  {
    BlankIs(m.shared);
    MarkedIs(m.shared);
    forall k | 0 <= k < |m.projects| ensures Marked(m.projects[k].delta) <==> HasMarker(m.projects[k].delta) {
      MarkedIs(m.projects[k].delta);
    }
  }

  /** No backslash, which the template processing would read. */
  predicate NoBackslash(m: Manifest) {
    '\\' !in m.shared && forall k :: 0 <= k < |m.projects| ==> '\\' !in m.projects[k].delta
  }

  /** The texts of an accepted manifest are safe between the markers. */
  lemma AcceptedIsPlain(m: Manifest, files: Files)
    requires ValidManifest(m) && NoBackslash(m)
    requires forall k :: 0 <= k < |m.projects| ==> Terminated(Existing(files, m.projects[k].path))
    ensures Plain(m, files)
  {
    MarkedIs(m.shared);
    forall k | 0 <= k < |m.projects| ensures Clean(m.projects[k].delta) {
      MarkedIs(m.projects[k].delta);
    }
  }

  /** Applying a manifest to terminated files succeeds, and applying it again changes no file. */
  lemma SecondSyncChangesNothing(m: Manifest, files: Files, expand: string -> Option<string>, first: Outcome, second: Outcome)
    requires Plain(m, files) && PlainTemplates(expand)
    requires Lawful(m.projects, Answers(m, files, expand), files, true, first)
    requires Lawful(m.projects, Answers(m, first.files, expand), first.files, true, second)
    ensures first.error == None && second.error == None && second.files == first.files
    ensures forall k :: 0 <= k < |second.changes| ==> !second.changes[k].changed
  {
    var answers := Answers(m, files, expand);
    forall k | 0 <= k < |m.projects| ensures answers[k].Ok? {
      EntryRenders(m, files, expand, k);
    }
    var again := Answers(m, first.files, expand);
    forall k | 0 <= k < |m.projects| ensures again[k] == Ok(Existing(first.files, m.projects[k].path)) {
      EntrySettles(m, files, expand, answers, first, k);
      AnswerAt(m, first.files, first.files, expand, k);
    }
    NothingToWrite(m.projects, again, first.files, second);
  }

  lemma NothingToWrite(projects: seq<Entry>, answers: seq<Rendered>, files: Files, r: Outcome)
    requires |answers| == |projects| && Lawful(projects, answers, files, true, r)
    requires forall k :: 0 <= k < |projects| ==> answers[k] == Ok(Existing(files, projects[k].path))
    ensures r.error == None && r.files == files && forall k :: 0 <= k < |r.changes| ==> !r.changes[k].changed
  {
    forall k | 0 <= k < |r.changes| ensures !r.changes[k].changed {
      assert Reported(projects[k].path, answers[k], files, r.changes[k]);
    }
    assert forall p :: !WrittenPath(true, r.changes, p);
  }

  lemma EntryRenders(m: Manifest, files: Files, expand: string -> Option<string>, k: nat)
    requires k < |m.projects| && Plain(m, files) && PlainTemplates(expand)
    ensures Answers(m, files, expand)[k].Ok?
  {
    RenderFramed(Existing(files, m.projects[k].path), m.shared, m.projects[k].delta, expand);
    AnswerAt(m, files, files, expand, k);
  }

  lemma EntrySettles(m: Manifest, files: Files, expand: string -> Option<string>, answers: seq<Rendered>, first: Outcome, k: nat)
    requires k < |m.projects| && Plain(m, files) && PlainTemplates(expand) && answers == Answers(m, files, expand)
    requires Lawful(m.projects, answers, files, true, first) && |first.changes| == |m.projects|
    ensures RenderEntry(m, k, first.files, expand) == Ok(Existing(first.files, m.projects[k].path))
  {
    assert Reported(m.projects[k].path, answers[k], files, first.changes[k]);
    AnswerAt(m, files, files, expand, k);
    IdempotentIff(Existing(files, m.projects[k].path), m.shared, m.projects[k].delta, expand);
  }
}
