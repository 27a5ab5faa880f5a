/**
 * On-demand tool loading as a concurrent protocol (`agent_loop.rs`, `hook.rs`): searches and loads stage tools
 * in a buffer, each tool result takes the buffer and registers it, an invalid call registers its tool, and
 * registrations run side by side, interrupted wherever they await the tool server.
 */
module ToolLoading {
  import opened Outcomes
  import opened Sequences
  import opened ToolSearch

  datatype Kind = Drained | Recovered

  /** A running registration: it has tried `tried` of its tools, and may be waiting for the server to add one. */
  datatype Task = Task(kind: Kind, given: seq<Tool>, tried: nat, adding: Option<Tool>)

  /** `names` is the once-only set, `added` what the server was given; `staged` and `wanted` are history. */
  datatype Session = Session(buffer: seq<Tool>, names: set<string>, added: seq<Tool>, tasks: seq<Task>,
                             staged: seq<Tool>, wanted: seq<Tool>)

  datatype Env = Env(rules: TextRules, catalog: seq<Tool>)

  const START := Session([], {}, [], [], [], [])

  /** The atomic steps: between any two of them another task may run. */
  datatype Step =
    | SearchStep(query: string)
    | LoadStep(names: seq<string>)
    | ToolResult
    | InvalidCall(name: string)
    | TryName(task: nat)
    | AddTool(task: nat)

  function Stage(s: Session, tools: seq<Tool>): Session {
    s.(buffer := s.buffer + tools, staged := s.staged + tools)
  }

  function Begin(s: Session, kind: Kind, tools: seq<Tool>): Session {
    s.(tasks := s.tasks + [Task(kind, tools, 0, None)])
  }

  predicate CanTry(s: Session, i: nat) {
    i < |s.tasks| && s.tasks[i].adding.None? && s.tasks[i].tried < |s.tasks[i].given|
  }

  predicate CanAdd(s: Session, i: nat) {
    i < |s.tasks| && s.tasks[i].adding.Some?
  }

  /** One tool of a registration: skipped if its name is in the set already, otherwise inserted and then added. */
  function Try(s: Session, i: nat): Session
    requires CanTry(s, i)
  {
    var task := s.tasks[i];
    var tool := task.given[task.tried];
    var next := task.(tried := task.tried + 1);
    if tool.name in s.names then s.(tasks := s.tasks[i := next])
    else s.(names := s.names + {tool.name}, tasks := s.tasks[i := next.(adding := Some(tool))])
  }

  function Add(s: Session, i: nat): Session
    requires CanAdd(s, i)
  {
    s.(added := s.added + [s.tasks[i].adding.value], tasks := s.tasks[i := s.tasks[i].(adding := None)])
  }

  /** A step that cannot be taken leaves everything as it is. */
  function Take(env: Env, s: Session, step: Step): Session {
    match step
    case SearchStep(query) => Stage(s, AutoLoaded(Search(env.rules, env.catalog, query)))
    case LoadStep(names) => Stage(s, FoundTools(env.catalog, names))
    case ToolResult => if s.buffer == [] then s else Begin(s.(buffer := []), Drained, s.buffer)
    case InvalidCall(name) =>
      (match Find(env.catalog, name)
       case None => s
       case Some(tool) => Begin(s.(wanted := s.wanted + [tool]), Recovered, [tool]))
    case TryName(i) => if CanTry(s, i) then Try(s, i) else s
    case AddTool(i) => if CanAdd(s, i) then Add(s, i) else s
  }

  /** Any interleaving is a sequence of steps. */
  function Run(env: Env, s: Session, steps: seq<Step>): Session
    decreases |steps|
  {
    if steps == [] then s else Run(env, Take(env, s, steps[0]), steps[1..])
  }

  // ----- what every step keeps -----

  predicate InFlight(s: Session, name: string) {
    exists i :: 0 <= i < |s.tasks| && s.tasks[i].adding.Some? && s.tasks[i].adding.value.name == name
  }

  predicate IsAdded(s: Session, name: string) {
    exists k :: 0 <= k < |s.added| && s.added[k].name == name
  }

  /** No name is added twice, being added twice at once, or being added when it was added before. */
  ghost predicate AddedOnce(s: Session) {
    && (forall j, k :: 0 <= j < k < |s.added| ==> s.added[j].name != s.added[k].name)
    && (forall i, j :: 0 <= i < j < |s.tasks| && s.tasks[i].adding.Some? && s.tasks[j].adding.Some? ==>
          s.tasks[i].adding.value.name != s.tasks[j].adding.value.name)
    && (forall i, k :: 0 <= i < |s.tasks| && s.tasks[i].adding.Some? && 0 <= k < |s.added| ==>
          s.tasks[i].adding.value.name != s.added[k].name)
  }

  /** The set holds exactly the names added or being added. */
  ghost predicate NamesAccurate(s: Session) {
    && (forall k :: 0 <= k < |s.added| ==> s.added[k].name in s.names)
    && (forall i :: 0 <= i < |s.tasks| && s.tasks[i].adding.Some? ==> s.tasks[i].adding.value.name in s.names)
    && (forall name :: name in s.names ==> IsAdded(s, name) || InFlight(s, name))
  }

  /** Every tool a registration has tried is in the set; what it is adding is what it last tried. */
  ghost predicate TriedAreNamed(s: Session) {
    forall i :: 0 <= i < |s.tasks| ==>
      && s.tasks[i].tried <= |s.tasks[i].given|
      && (forall k :: 0 <= k < s.tasks[i].tried ==> s.tasks[i].given[k].name in s.names)
  }

  /** What registrations of one kind were given, in the order they began. */
  function Given(kind: Kind, tasks: seq<Task>): seq<Tool> {
    if tasks == [] then []
    else
      var last := tasks[|tasks| - 1];
      Given(kind, tasks[..|tasks| - 1]) + if last.kind == kind then last.given else []
  }

  /** Everything staged is in the buffer or was taken, once and in order; likewise everything wanted was taken up. */
  ghost predicate NothingLost(s: Session) {
    && s.staged == Given(Drained, s.tasks) + s.buffer
    && s.wanted == Given(Recovered, s.tasks)
  }

  ghost predicate FromCatalog(env: Env, s: Session) {
    && (forall t :: t in s.staged || t in s.wanted || t in s.added ==> t in env.catalog)
    && (forall i, t :: 0 <= i < |s.tasks| && t in s.tasks[i].given ==> t in env.catalog)
    && (forall i :: 0 <= i < |s.tasks| && s.tasks[i].adding.Some? ==> s.tasks[i].adding.value in env.catalog)
    && (forall t :: t in s.buffer ==> t in env.catalog)
  }

  ghost predicate Invariant(env: Env, s: Session) {
    AddedOnce(s) && NamesAccurate(s) && TriedAreNamed(s) && NothingLost(s) && FromCatalog(env, s)
  }

  lemma TryKeepsNames(s: Session, i: nat)
    requires CanTry(s, i) && AddedOnce(s) && NamesAccurate(s) && TriedAreNamed(s)
    ensures AddedOnce(Try(s, i)) && NamesAccurate(Try(s, i)) && TriedAreNamed(Try(s, i))
  {
    var t := Try(s, i);
    var name := s.tasks[i].given[s.tasks[i].tried].name;
    forall n | n in t.names ensures IsAdded(t, n) || InFlight(t, n) {
      if n in s.names && !IsAdded(s, n) {
        var j :| 0 <= j < |s.tasks| && s.tasks[j].adding.Some? && s.tasks[j].adding.value.name == n;
        assert t.tasks[j] == s.tasks[j];
      } else if n in s.names {
        var k :| 0 <= k < |s.added| && s.added[k].name == n;
        assert t.added[k].name == n;
      } else {
        assert t.tasks[i].adding.value.name == n;
      }
    }
  }

  lemma AddKeepsNames(s: Session, i: nat)
    requires CanAdd(s, i) && AddedOnce(s) && NamesAccurate(s) && TriedAreNamed(s)
    ensures AddedOnce(Add(s, i)) && NamesAccurate(Add(s, i)) && TriedAreNamed(Add(s, i))
  {
    var t := Add(s, i);
    assert t.added[|s.added|] == s.tasks[i].adding.value;
    forall n | n in t.names ensures IsAdded(t, n) || InFlight(t, n) {
      if IsAdded(s, n) {
        var k :| 0 <= k < |s.added| && s.added[k].name == n;
        assert t.added[k].name == n;
      } else {
        var j :| 0 <= j < |s.tasks| && s.tasks[j].adding.Some? && s.tasks[j].adding.value.name == n;
        if j != i {
          assert t.tasks[j] == s.tasks[j];
        }
      }
    }
  }

  lemma {:induction false} SameGiven(kind: Kind, tasks: seq<Task>, i: nat, task: Task)
    requires i < |tasks| && task.kind == tasks[i].kind && task.given == tasks[i].given
    ensures Given(kind, tasks[i := task]) == Given(kind, tasks)
  {
    var n := |tasks| - 1;
    if i < n {
      assert tasks[i := task][..n] == tasks[..n][i := task];
      SameGiven(kind, tasks[..n], i, task);
    } else {
      assert tasks[i := task][..n] == tasks[..n];
    }
  }

  lemma BeginKeeps(s: Session, kind: Kind, tools: seq<Tool>)
    requires AddedOnce(s) && NamesAccurate(s) && TriedAreNamed(s)
    ensures var t := Begin(s, kind, tools);
            AddedOnce(t) && NamesAccurate(t) && TriedAreNamed(t)
    ensures Given(kind, Begin(s, kind, tools).tasks) == Given(kind, s.tasks) + tools
    ensures forall other :: other != kind ==> Given(other, Begin(s, kind, tools).tasks) == Given(other, s.tasks)
  {
    var t := Begin(s, kind, tools);
    assert t.tasks[..|s.tasks|] == s.tasks;
    forall n | n in t.names ensures IsAdded(t, n) || InFlight(t, n) {
      if IsAdded(s, n) {
        var k :| 0 <= k < |s.added| && s.added[k].name == n;
        assert t.added[k].name == n;
      } else {
        var j :| 0 <= j < |s.tasks| && s.tasks[j].adding.Some? && s.tasks[j].adding.value.name == n;
        assert t.tasks[j] == s.tasks[j];
      }
    }
  }

  lemma StageKeeps(env: Env, s: Session, tools: seq<Tool>)
    requires Invariant(env, s) && forall t :: t in tools ==> t in env.catalog
    ensures Invariant(env, Stage(s, tools))
  {
    var t := Stage(s, tools);
    AppendIsAssociative(Given(Drained, s.tasks), s.buffer, tools);
    forall n | n in t.names ensures IsAdded(t, n) || InFlight(t, n) {
      assert IsAdded(s, n) == IsAdded(t, n) && InFlight(s, n) == InFlight(t, n);
    }
  }

  lemma ToolResultKeeps(env: Env, s: Session)
    requires Invariant(env, s) && s.buffer != []
    ensures Invariant(env, Take(env, s, ToolResult))
  {
    var emptied := s.(buffer := []);
    assert NamesAccurate(emptied) by {
      forall n | n in s.names ensures IsAdded(emptied, n) || InFlight(emptied, n) {
        assert IsAdded(s, n) == IsAdded(emptied, n) && InFlight(s, n) == InFlight(emptied, n);
      }
    }
    BeginKeeps(emptied, Drained, s.buffer);
    AppendNothing(s.staged);
  }

  lemma InvalidCallKeeps(env: Env, s: Session, name: string)
    requires Invariant(env, s)
    ensures Invariant(env, Take(env, s, InvalidCall(name)))
  {
    if Find(env.catalog, name).Some? {
      var tool := Find(env.catalog, name).value;
      var wanting := s.(wanted := s.wanted + [tool]);
      assert NamesAccurate(wanting) by {
        forall n | n in s.names ensures IsAdded(wanting, n) || InFlight(wanting, n) {
          assert IsAdded(s, n) == IsAdded(wanting, n) && InFlight(s, n) == InFlight(wanting, n);
        }
      }
      BeginKeeps(wanting, Recovered, [tool]);
    }
  }

  lemma TryKeeps(env: Env, s: Session, i: nat)
    requires Invariant(env, s) && CanTry(s, i)
    ensures Invariant(env, Try(s, i))
  {
    TryKeepsNames(s, i);
    var t := Try(s, i);
    SameGiven(Drained, s.tasks, i, t.tasks[i]);
    SameGiven(Recovered, s.tasks, i, t.tasks[i]);
    assert s.tasks[i].given[s.tasks[i].tried] in s.tasks[i].given;
  }

  lemma AddKeeps(env: Env, s: Session, i: nat)
    requires Invariant(env, s) && CanAdd(s, i)
    ensures Invariant(env, Add(s, i))
  {
    AddKeepsNames(s, i);
    var t := Add(s, i);
    SameGiven(Drained, s.tasks, i, t.tasks[i]);
    SameGiven(Recovered, s.tasks, i, t.tasks[i]);
  }

  lemma StepKeeps(env: Env, s: Session, step: Step)
    requires Invariant(env, s)
    ensures Invariant(env, Take(env, s, step))
  {
    match step
    case SearchStep(query) =>
      SearchCorrect(env.rules, env.catalog, query);
      StageKeeps(env, s, AutoLoaded(Search(env.rules, env.catalog, query)));
    case LoadStep(names) =>
      LoadReportsTruly(env.catalog, names);
      StageKeeps(env, s, FoundTools(env.catalog, names));
    case ToolResult => if s.buffer != [] { ToolResultKeeps(env, s); }
    case InvalidCall(name) => InvalidCallKeeps(env, s, name);
    case TryName(i) => if CanTry(s, i) { TryKeeps(env, s, i); }
    case AddTool(i) => if CanAdd(s, i) { AddKeeps(env, s, i); }
  }

  lemma {:induction false} RunKeeps(env: Env, s: Session, steps: seq<Step>)
    requires Invariant(env, s)
    ensures Invariant(env, Run(env, s, steps))
    decreases |steps|
  {
    if steps != [] {
      StepKeeps(env, s, steps[0]);
      RunKeeps(env, Take(env, s, steps[0]), steps[1..]);
    }
  }

  /**
   * In every interleaving each catalog name is added to the server at most once, the set holds exactly the
   * names added or being added, everything staged is still in the buffer or was taken once and in order, and
   * only tools of the catalog are added.
   */
  lemma EveryRunAddsOnce(env: Env, steps: seq<Step>)
    ensures Invariant(env, Run(env, START, steps))
  {
    StartKeeps(env);
    RunKeeps(env, START, steps);
  }

  lemma StartKeeps(env: Env)
    ensures Invariant(env, START)
  {
    assert Given(Drained, []) == [] && Given(Recovered, []) == [];
  }
}
