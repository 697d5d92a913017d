// Slicing a markdown ledger to the active phase and its declared dependencies, with cycle detection.

module LedgerSlicer {
  import opened Text

  // ---- graphs, paths and cycles ----

  type Graph = map<string, seq<string>>

  predicate Edge(g: Graph, a: string, b: string) {
    a in g && b in g[a]
  }

  predicate IsPath(g: Graph, p: seq<string>) {
    p != [] && forall i :: 0 <= i < |p| - 1 ==> Edge(g, p[i], p[i + 1])
  }

  predicate PathFromTo(g: Graph, p: seq<string>, a: string, b: string) {
    IsPath(g, p) && p[0] == a && p[|p| - 1] == b
  }

  ghost predicate Reach(g: Graph, a: string, b: string) {
    exists p :: PathFromTo(g, p, a, b)
  }

  /** A path of at least one edge leads from `a` back to `a`. */
  ghost predicate OnCycle(g: Graph, a: string) {
    exists p :: |p| >= 2 && PathFromTo(g, p, a, a)
  }

  /** Everything reachable from `root` is declared and none of it lies on a cycle. */
  ghost predicate Sound(g: Graph, root: string) {
    forall b :: Reach(g, root, b) ==> b in g && !OnCycle(g, b)
  }

  /** What the depth-first search has finished: closed under edges, declared, free of cycles. */
  ghost predicate Settled(g: Graph, visited: set<string>) {
    forall v :: v in visited ==> v in g && !OnCycle(g, v) && forall d :: d in g[v] ==> d in visited
  }

  lemma {:induction false} ClosedStays(g: Graph, visited: set<string>, p: seq<string>, k: nat, j: nat)
    requires Settled(g, visited) && IsPath(g, p) && k <= j < |p| && p[k] in visited
    ensures p[j] in visited
    decreases j
  {
    if k < j {
      ClosedStays(g, visited, p, k, j - 1);
      assert Edge(g, p[j - 1], p[j - 1 + 1]);
    }
  }

  /** A node whose dependencies are all finished is finished too. */
  lemma FinishKeepsSettled(g: Graph, visited: set<string>, name: string)
    requires Settled(g, visited) && name in g && name !in visited
    requires forall d :: d in g[name] ==> d in visited
    ensures Settled(g, visited + {name})
  {
    if OnCycle(g, name) {
      var p :| |p| >= 2 && PathFromTo(g, p, name, name);
      assert Edge(g, p[0], p[0 + 1]);
      ClosedStays(g, visited, p, 1, |p| - 1);
      assert false;
    }
  }

  lemma SettledReach(g: Graph, visited: set<string>, root: string)
    requires Settled(g, visited) && root in visited
    ensures Sound(g, root)
  {
    forall b | Reach(g, root, b) ensures b in visited {
      var p :| PathFromTo(g, p, root, b);
      ClosedStays(g, visited, p, 0, |p| - 1);
    }
  }

  lemma ExtendPath(g: Graph, p: seq<string>, d: string)
    requires IsPath(g, p) && Edge(g, p[|p| - 1], d)
    ensures IsPath(g, p + [d])
  {
  }

  /** The search stack meets its own node `i` again: a real cycle. */
  lemma StackCycle(g: Graph, stack: seq<string>, i: nat)
    requires IsPath(g, stack) && i < |stack| - 1 && stack[i] == stack[|stack| - 1]
    ensures OnCycle(g, stack[i])
  {
    assert PathFromTo(g, stack[i..], stack[i], stack[i]);
  }

  // ---- the ledger text ----

  /** How lines are read: `phaseOf` a heading's normalized phase name, `tidy` a section's lines after
      joining, stripping and splitting again, `dependsOn` the names a dependency line lists. */
  datatype Reader = Reader(phaseOf: string -> Option<string>, tidy: seq<string> -> seq<string>,
                           dependsOn: string -> Option<seq<string>>)

  /** The phase whose section the last line belongs to. */
  function Owner(lines: seq<string>, reader: Reader): Option<string> {
    if lines == [] then None
    else
      var n := |lines| - 1;
      var phase := reader.phaseOf(lines[n]);
      if phase.Some? then phase else Owner(lines[..n], reader)
  }

  /** The lines that stand under a heading of `name`, the headings included; headings that repeat a
      name continue its section. */
  function Under(lines: seq<string>, reader: Reader, name: string): seq<string> {
    if lines == [] then []
    else
      var n := |lines| - 1;
      Under(lines[..n], reader, name) + if Owner(lines, reader) == Some(name) then [lines[n]] else []
  }

  predicate HasPhase(lines: seq<string>, reader: Reader, name: string) {
    exists line :: line in lines && reader.phaseOf(line) == Some(name)
  }

  /** The sections of the lines: one for each phase named, holding exactly the lines under it. */
  predicate SectionsAre(found: map<string, seq<string>>, lines: seq<string>, reader: Reader) {
    && (forall name :: name in found ==> HasPhase(lines, reader, name) && found[name] == Under(lines, reader, name))
    && (forall line :: line in lines && reader.phaseOf(line).Some? ==> reader.phaseOf(line).value in found)
  }

  lemma {:induction false} NoPhaseNothingUnder(lines: seq<string>, reader: Reader, name: string)
    ensures HasPhase(lines, reader, name) || (Under(lines, reader, name) == [] && Owner(lines, reader) != Some(name))
    decreases |lines|
  {
    if lines != [] {
      var n := |lines| - 1;
      assert lines == lines[..n] + [lines[n]];
      NoPhaseNothingUnder(lines[..n], reader, name);
    }
  }

  /** Line `i` stands under a heading of `name`: it or a line above it is one, and no heading comes in between. */
  ghost predicate StandsUnder(lines: seq<string>, reader: Reader, i: nat, name: string)
    requires i < |lines|
  {
    exists h :: 0 <= h <= i && Heads(lines, reader, h, i, name)
  }

  predicate Heads(lines: seq<string>, reader: Reader, h: nat, i: nat, name: string)
    requires h <= i < |lines|
  {
    reader.phaseOf(lines[h]) == Some(name) && forall k :: h < k <= i ==> reader.phaseOf(lines[k]).None?
  }

  /** `part` are the lines at the places `at`, in order. */
  predicate PickedAt(part: seq<string>, lines: seq<string>, at: seq<nat>) {
    && |at| == |part|
    && (forall j :: 0 <= j < |at| ==> at[j] < |lines| && part[j] == lines[at[j]])
    && forall j, k :: 0 <= j < k < |at| ==> at[j] < at[k]
  }

  lemma {:induction false} OwnerStands(lines: seq<string>, reader: Reader, name: string)
    requires lines != []
    ensures Owner(lines, reader) == Some(name) <==> StandsUnder(lines, reader, |lines| - 1, name)
    decreases |lines|
  {
    var n := |lines| - 1;
    if reader.phaseOf(lines[n]).Some? {
      if reader.phaseOf(lines[n]) == Some(name) {
        assert Heads(lines, reader, n, n, name);
      }
    } else if n > 0 {
      OwnerStands(lines[..n], reader, name);
      StandsLonger(lines[..n], lines[n], lines, reader, name);
    }
  }

  lemma StandsLonger(front: seq<string>, line: string, lines: seq<string>, reader: Reader, name: string)
    requires front != [] && lines == front + [line] && reader.phaseOf(line).None?
    ensures StandsUnder(lines, reader, |front|, name) <==> StandsUnder(front, reader, |front| - 1, name)
  {
    var n, m := |front|, |front| - 1;
    assert forall k :: 0 <= k < n ==> lines[k] == front[k];
    if h :| 0 <= h <= n && Heads(lines, reader, h, n, name) {
      assert h < n;
      assert Heads(front, reader, h, m, name);
    }
    if h :| 0 <= h <= m && Heads(front, reader, h, m, name) {
      assert Heads(lines, reader, h, n, name);
    }
  }

  lemma StandsInFront(front: seq<string>, line: string, lines: seq<string>, reader: Reader, i: nat, name: string)
    requires i < |front| && lines == front + [line]
    ensures StandsUnder(lines, reader, i, name) <==> StandsUnder(front, reader, i, name)
  {
    assert forall k :: 0 <= k <= i ==> lines[k] == front[k];
    if h :| 0 <= h <= i && Heads(lines, reader, h, i, name) {
      assert Heads(front, reader, h, i, name);
    }
    if h :| 0 <= h <= i && Heads(front, reader, h, i, name) {
      assert Heads(lines, reader, h, i, name);
    }
  }

  /** The places of a section are exactly those of the lines that stand under its headings. */
  ghost predicate Places(lines: seq<string>, reader: Reader, name: string, at: seq<nat>) {
    && PickedAt(Under(lines, reader, name), lines, at)
    && forall i :: 0 <= i < |lines| ==> (i in at <==> StandsUnder(lines, reader, i, name))
  }

  /** A section holds exactly the lines that stand under one of its headings, in their order. */
  lemma {:induction false} SectionIsItsLines(lines: seq<string>, reader: Reader, name: string) returns (at: seq<nat>)
    ensures Places(lines, reader, name, at)
    decreases |lines|
  {
    at := [];
    if lines != [] {
      var n := |lines| - 1;
      var front := SectionIsItsLines(lines[..n], reader, name);
      OwnerStands(lines, reader, name);
      assert lines == lines[..n] + [lines[n]];
      forall i | 0 <= i < n ensures StandsUnder(lines, reader, i, name) <==> StandsUnder(lines[..n], reader, i, name) {
        StandsInFront(lines[..n], lines[n], lines, reader, i, name);
      }
      at := front + if Owner(lines, reader) == Some(name) then [n] else [];
      assert forall i :: i in front ==> i < n;
    }
  }

  /** The loop of `_sections`. */
  method Sections(lines: seq<string>, reader: Reader) returns (found: map<string, seq<string>>)
    ensures SectionsAre(found, lines, reader)
  {
    found := map[];
    var current: Option<string> := None;
    for i := 0 to |lines|
      invariant current == Owner(lines[..i], reader)
      invariant current.Some? ==> current.value in found
      invariant SectionsAre(found, lines[..i], reader)
    {
      var line := lines[i];
      assert lines[..i + 1] == lines[..i] + [line] && lines[..i + 1][..i] == lines[..i];
      var phase := reader.phaseOf(line);
      if phase.Some? {
        current := phase;
        if phase.value !in found {
          NoPhaseNothingUnder(lines[..i], reader, phase.value);
          found := found[phase.value := []];
        }
      }
      if current.Some? {
        found := found[current.value := found[current.value] + [line]];
      }
    }
    assert lines[..|lines|] == lines;
  }

  function Listed(lines: seq<string>, reader: Reader): seq<string> {
    if lines == [] then []
    else
      var deps := reader.dependsOn(lines[0]);
      (if deps.Some? then deps.value else []) + Listed(lines[1..], reader)
  }

  /** The dependency map of `slice_ledger`. */
  function DependencyMap(sections: map<string, seq<string>>, reader: Reader): Graph {
    map name | name in sections :: Dedup(Listed(reader.tidy(sections[name]), reader))
  }

  datatype Error = EmptyLedger | NoActivePhase | Missing(names: seq<string>) | Cycle(name: string)

  datatype Outcome = Slice(selected: seq<string>) | Rejected(error: Error)

  function Absent(deps: seq<string>, g: Graph): (r: seq<string>)
    ensures r == [] <==> forall d :: d in deps ==> d in g
    ensures forall d :: d in r ==> d in deps && d !in g
  {
    if deps == [] then [] else (if deps[0] !in g then [deps[0]] else []) + Absent(deps[1..], g)
  }

  /** A truthful complaint about the part of the graph that `root` reaches. */
  ghost predicate Justified(g: Graph, root: string, error: Error) {
    match error
    case Missing(names) => names != [] && forall d :: d in names ==> d !in g && Reach(g, root, d)
    case Cycle(name) => Reach(g, root, name) && OnCycle(g, name)
    case _ => false
  }

  class Search {
    const g: Graph
    var visiting: set<string>
    var visited: set<string>

    constructor (g: Graph)
      ensures this.g == g && visiting == {} && visited == {}
    {
      this.g := g;
      visiting, visited := {}, {};
    }

    /** The inner `visit`; `stack` is the chain of calls that led here. */
    method Visit(name: string, ghost stack: seq<string>) returns (error: Option<Error>)
      requires name in g && Settled(g, visited) && visiting !! visited && visiting <= g.Keys
      requires IsPath(g, stack + [name]) && forall v :: v in visiting <==> v in stack
      modifies this
      ensures error.None? ==>
        visiting == old(visiting) && old(visited) <= visited && name in visited && Settled(g, visited) && visiting !! visited
      ensures error.Some? ==> Justified(g, (stack + [name])[0], error.value)
      decreases g.Keys - visiting
    {
      ghost var path := stack + [name];
      if name in visiting {
        ghost var i :| 0 <= i < |stack| && stack[i] == name;
        StackCycle(g, path, i);
        assert PathFromTo(g, path, path[0], name);
        return Some(Cycle(name));
      }
      if name in visited {
        return None;
      }
      visiting := visiting + {name};
      var deps, i := g[name], 0;
      while i < |deps|
        invariant 0 <= i <= |deps|
        invariant visiting == old(visiting) + {name} && old(visited) <= visited
        invariant Settled(g, visited) && visiting !! visited
        invariant forall k :: 0 <= k < i ==> deps[k] in visited
      {
        assert Edge(g, name, deps[i]);
        ExtendPath(g, path, deps[i]);
        assert (path + [deps[i]])[0] == path[0];
        if deps[i] !in g {
          assert PathFromTo(g, path + [deps[i]], path[0], deps[i]);
          return Some(Missing([deps[i]]));
        }
        error := Visit(deps[i], path);
        if error.Some? {
          return;
        }
        i := i + 1;
      }
      FinishKeepsSettled(g, visited, name);
      visiting := visiting - {name};
      visited := visited + {name};
      error := None;
    }
  }

  /** The dependency map of the lines: `g` has a node for each phase, and its edges are the listed
      dependencies, each once. */
  predicate GraphOf(g: Graph, lines: seq<string>, reader: Reader) {
    && (forall name :: name in g ==> HasPhase(lines, reader, name))
    && (forall name :: name in g ==> g[name] == Dedup(Listed(reader.tidy(Under(lines, reader, name)), reader)))
    && (forall line :: line in lines && reader.phaseOf(line).Some? ==> reader.phaseOf(line).value in g)
  }

  lemma {:induction false} ListedIff(lines: seq<string>, reader: Reader, d: string)
    ensures d in Listed(lines, reader)
      <==> exists line :: line in lines && reader.dependsOn(line).Some? && d in reader.dependsOn(line).value
    decreases |lines|
  {
    if lines != [] {
      ListedIff(lines[1..], reader, d);
      assert lines == [lines[0]] + lines[1..];
      assert lines[0] in lines;
      assert forall line :: line in lines[1..] ==> line in lines;
    }
  }

  /** The graph has the phases that have a heading, and an edge for exactly the names that a dependency line of
      the section lists; no dependency comes twice. */
  lemma GraphTells(g: Graph, lines: seq<string>, reader: Reader, name: string, d: string)
    requires GraphOf(g, lines, reader)
    ensures name in g <==> HasPhase(lines, reader, name)
    ensures Edge(g, name, d) <==> name in g && exists line ::
      line in reader.tidy(Under(lines, reader, name)) && reader.dependsOn(line).Some? && d in reader.dependsOn(line).value
    ensures name in g ==> forall i, j :: 0 <= i < j < |g[name]| ==> g[name][i] != g[name][j]
  {
    ListedIff(reader.tidy(Under(lines, reader, name)), reader, d);
  }

  /** The part of `slice_ledger` behind the dependency map. */
  method Check(g: Graph, active: string) returns (error: Option<Error>)
    requires active in g
    ensures error.None? <==> Sound(g, active)
    ensures error.Some? ==> Justified(g, active, error.value)
  {
    var missing := Absent(g[active], g);
    if missing != [] {
      forall d | d in missing ensures Reach(g, active, d) {
        assert PathFromTo(g, [active, d], active, d);
      }
      JustifiedIsUnsound(g, active, Missing(missing));
      return Some(Missing(missing));
    }
    var search := new Search(g);
    error := search.Visit(active, []);
    if error.Some? {
      JustifiedIsUnsound(g, active, error.value);
    } else {
      SettledReach(g, search.visited, active);
    }
  }

  /** `slice_ledger` on the lines of a ledger: it succeeds exactly when the active phase exists and
      all it reaches is declared and acyclic; an error is always true of the ledger. */
  method SliceLedger(lines: seq<string>, blank: bool, active: string, reader: Reader)
    returns (r: Outcome, g: Graph)
    ensures GraphOf(g, lines, reader)
    ensures r.Slice? <==> !blank && "Phase " <= active && active in g && Sound(g, active)
    ensures r.Slice? ==> r.selected == [active] + g[active] && forall i, j :: 0 <= i < j < |r.selected| ==> r.selected[i] != r.selected[j]
    ensures r.Rejected? && (r.error.Missing? || r.error.Cycle?) ==> active in g && Justified(g, active, r.error)
    ensures r == Rejected(NoActivePhase) ==> !("Phase " <= active) || active !in g
    ensures r == Rejected(EmptyLedger) <==> blank
  {
    var sections := Sections(lines, reader);
    g := DependencyMap(sections, reader);
    if blank {
      return Rejected(EmptyLedger), g;
    }
    if !("Phase " <= active) || active !in sections {
      return Rejected(NoActivePhase), g;
    }
    var error := Check(g, active);
    if error.Some? {
      return Rejected(error.value), g;
    }
    SelfLoopIsCycle(g, active);
    DedupDistinct([active] + g[active]);
    r := Slice(Dedup([active] + g[active]));
  }

  lemma JustifiedIsUnsound(g: Graph, root: string, error: Error)
    requires Justified(g, root, error)
    ensures !Sound(g, root)
  {
    if error.Missing? {
      assert Reach(g, root, error.names[0]);
    }
  }

  lemma SelfLoopIsCycle(g: Graph, a: string)
    requires Sound(g, a)
    ensures a in g && a !in g[a]
  {
    if Edge(g, a, a) {
      assert PathFromTo(g, [a, a], a, a);
    }
    assert PathFromTo(g, [a], a, a);
  }
}
