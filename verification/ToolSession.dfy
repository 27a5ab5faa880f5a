/** What a finished registration guarantees, and the protocol when hooks run one at a time. */
module ToolSession {
  import opened Outcomes
  import opened Sequences
  import opened ToolSearch
  import opened ToolLoading

  predicate Finished(task: Task) {
    task.adding.None? && task.tried == |task.given|
  }

  // ----- what a caller may conclude when its registration returns -----

  /**
   * When a registration returns, a tool it was given can be called exactly when no other registration is still
   * waiting for the server to add that name.
   */
  lemma ReturnedIsCallableIff(env: Env, steps: seq<Step>, i: nat, tool: Tool)
    requires var s := Run(env, START, steps); i < |s.tasks| && Finished(s.tasks[i]) && tool in s.tasks[i].given
    ensures var s := Run(env, START, steps); IsAdded(s, tool.name) <==> !InFlight(s, tool.name)
  {
    var s := Run(env, START, steps);
    EveryRunAddsOnce(env, steps);
    var k :| 0 <= k < |s.tasks[i].given| && s.tasks[i].given[k] == tool;
    assert tool.name in s.names;
  }

  /** The run below: a registration of a load is waiting for the server when an invalid call asks for the same tool. */
  function RacingRecovery(name: string): seq<Step> {
    [LoadStep([name]), ToolResult, TryName(0), InvalidCall(name), TryName(1)]
  }

  /** So the recovery of an invalid call can return, reporting the tool as loaded, before the server has it. */
  lemma RecoveryCanReturnEarly(env: Env, tool: Tool)
    requires env.catalog == [tool]
    ensures var s := Run(env, START, RacingRecovery(tool.name));
            |s.tasks| == 2 && s.tasks[1].kind == Recovered && Finished(s.tasks[1]) && s.tasks[1].given == [tool]
            && !IsAdded(s, tool.name)
  {
    var name := tool.name;
    var loading, recovering := Task(Drained, [tool], 1, Some(tool)), Task(Recovered, [tool], 1, None);
    assert Find(env.catalog, name) == Some(tool);
    assert [name][..0] == [];
    assert FoundTools(env.catalog, [name]) == [tool];
    var s1 := Take(env, START, LoadStep([name]));
    assert s1 == Session([tool], {}, [], [], [tool], []);
    var s2 := Take(env, s1, ToolResult);
    assert s2 == Session([], {}, [], [Task(Drained, [tool], 0, None)], [tool], []);
    var s3 := Take(env, s2, TryName(0));
    assert s3 == Session([], {name}, [], [loading], [tool], []);
    var s4 := Take(env, s3, InvalidCall(name));
    assert s4 == Session([], {name}, [], [loading, Task(Recovered, [tool], 0, None)], [tool], [tool]);
    var s5 := Take(env, s4, TryName(1));
    assert s5 == Session([], {name}, [], [loading, recovering], [tool], [tool]);
    RunFive(env, START, LoadStep([name]), ToolResult, TryName(0), InvalidCall(name), TryName(1));
  }

  lemma RunFive(env: Env, s: Session, a: Step, b: Step, c: Step, d: Step, e: Step)
    ensures Run(env, s, [a, b, c, d, e])
            == Take(env, Take(env, Take(env, Take(env, Take(env, s, a), b), c), d), e)
  {
    assert [a, b, c, d, e][1..] == [b, c, d, e] && [b, c, d, e][1..] == [c, d, e];
    assert [c, d, e][1..] == [d, e] && [d, e][1..] == [e] && [e][1..] == [];
    var s1 := Take(env, s, a);
    assert Run(env, s, [a, b, c, d, e]) == Run(env, s1, [b, c, d, e]);
    var s2 := Take(env, s1, b);
    assert Run(env, s1, [b, c, d, e]) == Run(env, s2, [c, d, e]);
    var s3 := Take(env, s2, c);
    assert Run(env, s2, [c, d, e]) == Run(env, s3, [d, e]);
    var s4 := Take(env, s3, d);
    assert Run(env, s3, [d, e]) == Run(env, s4, [e]);
  }

  ghost predicate Idle(s: Session) {
    forall i :: 0 <= i < |s.tasks| ==> Finished(s.tasks[i])
  }

  lemma {:induction false} GivenMember(kind: Kind, tasks: seq<Task>, tool: Tool)
    ensures tool in Given(kind, tasks) <==>
            exists i :: 0 <= i < |tasks| && tasks[i].kind == kind && tool in tasks[i].given
  {
    if tasks != [] {
      var n := |tasks| - 1;
      GivenMember(kind, tasks[..n], tool);
      assert forall i :: 0 <= i < n ==> tasks[..n][i] == tasks[i];
    }
  }

  lemma IdleIsLoaded(env: Env, s: Session, tool: Tool)
    requires Invariant(env, s) && Idle(s) && (tool in s.wanted || (tool in s.staged && tool !in s.buffer))
    ensures IsAdded(s, tool.name)
  {
    GivenMember(Drained, s.tasks, tool);
    GivenMember(Recovered, s.tasks, tool);
    var i :| 0 <= i < |s.tasks| && tool in s.tasks[i].given;
    var k :| 0 <= k < |s.tasks[i].given| && s.tasks[i].given[k] == tool;
    assert tool.name in s.names;
  }

  /** After any interleaving that has come to rest, everything asked for and taken has been added. */
  lemma RestingRunHasLoaded(env: Env, steps: seq<Step>, tool: Tool)
    requires var s := Run(env, START, steps);
             Idle(s) && (tool in s.wanted || (tool in s.staged && tool !in s.buffer))
    ensures IsAdded(Run(env, START, steps), tool.name)
  {
    EveryRunAddsOnce(env, steps);
    IdleIsLoaded(env, Run(env, START, steps), tool);
  }

  lemma {:induction false} HistoryGrows(env: Env, s: Session, steps: seq<Step>)
    ensures s.staged <= Run(env, s, steps).staged && s.wanted <= Run(env, s, steps).wanted
    decreases |steps|
  {
    if steps != [] {
      HistoryGrows(env, Take(env, s, steps[0]), steps[1..]);
    }
  }

  /** The session before a step of a run, right after it, and at the end. */
  lemma RunThrough(env: Env, before: seq<Step>, step: Step, later: seq<Step>) returns (s: Session)
    ensures s == Run(env, START, before) && Invariant(env, s)
    ensures Run(env, START, before + [step] + later) == Run(env, Take(env, s, step), later)
  {
    s := Run(env, START, before);
    EveryRunAddsOnce(env, before);
    AppendIsAssociative(before, [step], later);
    RunAppend(env, START, before, [step] + later);
    assert ([step] + later)[1..] == later;
  }

  lemma FirstEightAreStaged(s: Session, found: seq<Tool>, k: nat)
    requires k < 8 && k < |found|
    ensures found[k] in Stage(s, AutoLoaded(found)).staged
  {
    AutoLoadedAreFirst(found);
    assert AutoLoaded(found)[k] == found[k];
    assert (s.staged + AutoLoaded(found))[|s.staged| + k] == found[k];
  }

  /** What a step stages or wants is on the server once the run rests, if the buffer was taken. */
  lemma StagedIsLoaded(env: Env, before: seq<Step>, step: Step, later: seq<Step>, tool: Tool)
    requires Idle(Run(env, START, before + [step] + later))
    requires tool in Take(env, Run(env, START, before), step).wanted
             || (tool in Take(env, Run(env, START, before), step).staged
                 && Run(env, START, before + [step] + later).buffer == [])
    ensures IsAdded(Run(env, START, before + [step] + later), tool.name)
  {
    var s := RunThrough(env, before, step, later);
    HistoryGrows(env, Take(env, s, step), later);
    RestingRunHasLoaded(env, before + [step] + later, tool);
  }

  /** Of a search anywhere in a run, the first eight tools are on the server once the run rests and is drained. */
  lemma SearchedIsLoaded(env: Env, before: seq<Step>, query: string, later: seq<Step>, k: nat)
    requires Idle(Run(env, START, before + [SearchStep(query)] + later))
    requires Run(env, START, before + [SearchStep(query)] + later).buffer == []
    requires k < 8 && k < |Search(env.rules, env.catalog, query)|
    ensures IsAdded(Run(env, START, before + [SearchStep(query)] + later),
                    Search(env.rules, env.catalog, query)[k].name)
  {
    var found := Search(env.rules, env.catalog, query);
    FirstEightAreStaged(Run(env, START, before), found, k);
    StagedIsLoaded(env, before, SearchStep(query), later, found[k]);
  }

  lemma {:induction false} FoundIfListed(catalog: seq<Tool>, names: seq<string>, name: string)
    requires name in names && Find(catalog, name).Some?
    ensures Find(catalog, name).value in FoundTools(catalog, names)
  {
    var n := |names| - 1;
    if name != names[n] {
      FoundIfListed(catalog, names[..n], name);
    }
  }

  /** So is every tool of the catalog that a load names. */
  lemma RequestedIsLoaded(env: Env, before: seq<Step>, names: seq<string>, later: seq<Step>, tool: Tool)
    requires Idle(Run(env, START, before + [LoadStep(names)] + later))
    requires Run(env, START, before + [LoadStep(names)] + later).buffer == []
    requires tool in env.catalog && tool.name in names
    ensures IsAdded(Run(env, START, before + [LoadStep(names)] + later), tool.name)
  {
    FoundIfListed(env.catalog, names, tool.name);
    var s, found := Run(env, START, before), Find(env.catalog, tool.name).value;
    assert found in (s.staged + FoundTools(env.catalog, names));
    StagedIsLoaded(env, before, LoadStep(names), later, found);
  }

  /** And every tool of the catalog that an invalid call names, drained or not. */
  lemma CalledIsLoaded(env: Env, before: seq<Step>, later: seq<Step>, tool: Tool)
    requires Idle(Run(env, START, before + [InvalidCall(tool.name)] + later)) && tool in env.catalog
    ensures IsAdded(Run(env, START, before + [InvalidCall(tool.name)] + later), tool.name)
  {
    RecoveryWants(env, Run(env, START, before), tool.name);
    StagedIsLoaded(env, before, InvalidCall(tool.name), later, Find(env.catalog, tool.name).value);
  }

  // ----- one registration, run without interruption -----

  datatype Registry = Registry(names: set<string>, added: seq<Tool>)

  function RegisterOne(r: Registry, tool: Tool): Registry {
    if tool.name in r.names then r else Registry(r.names + {tool.name}, r.added + [tool])
  }

  function RegisterAll(r: Registry, tools: seq<Tool>): Registry
    decreases |tools|
  {
    if tools == [] then r else RegisterAll(RegisterOne(r, tools[0]), tools[1..])
  }

  function RegistryOf(s: Session): Registry {
    Registry(s.names, s.added)
  }

  function Rounds(i: nat, n: nat): seq<Step> {
    if n == 0 then [] else [TryName(i), AddTool(i)] + Rounds(i, n - 1)
  }

  lemma {:induction false} RunAppend(env: Env, s: Session, a: seq<Step>, b: seq<Step>)
    ensures Run(env, s, a + b) == Run(env, Run(env, s, a), b)
    decreases |a|
  {
    if a == [] {
      assert a + b == b;
    } else {
      TailOfAppend(a, b);
      RunAppend(env, Take(env, s, a[0]), a[1..], b);
    }
  }

  /** What remains the same while one registration runs alone. */
  ghost predicate OnlyRegistered(s: Session, t: Session, i: nat)
    requires i < |s.tasks|
  {
    && t.buffer == s.buffer && t.staged == s.staged && t.wanted == s.wanted
    && |t.tasks| == |s.tasks| && forall j :: 0 <= j < |s.tasks| && j != i ==> t.tasks[j] == s.tasks[j]
  }

  lemma OneRound(env: Env, s: Session, i: nat)
    requires CanTry(s, i)
    ensures var t, task := Run(env, s, Rounds(i, 1)), s.tasks[i];
            && OnlyRegistered(s, t, i) && t.tasks[i] == task.(tried := task.tried + 1)
            && RegistryOf(t) == RegisterOne(RegistryOf(s), task.given[task.tried])
  {
    assert Rounds(i, 1) == [TryName(i), AddTool(i)];
    assert [TryName(i), AddTool(i)][1..] == [AddTool(i)] && [AddTool(i)][1..] == [];
    var mid := Take(env, s, TryName(i));
    assert Run(env, s, Rounds(i, 1)) == Run(env, mid, [AddTool(i)]) == Take(env, mid, AddTool(i));
  }

  /** Alone, a registration goes through its tools one by one, adding each name not yet in the set. */
  lemma {:induction false} SoloRun(env: Env, s: Session, i: nat)
    requires i < |s.tasks| && s.tasks[i].adding.None? && s.tasks[i].tried <= |s.tasks[i].given|
    ensures var task := s.tasks[i];
            var t := Run(env, s, Rounds(i, |task.given| - task.tried));
            && OnlyRegistered(s, t, i) && Finished(t.tasks[i]) && t.tasks[i].given == task.given
            && RegistryOf(t) == RegisterAll(RegistryOf(s), task.given[task.tried..])
    decreases |s.tasks[i].given| - s.tasks[i].tried
  {
    var task := s.tasks[i];
    var n := |task.given| - task.tried;
    if n > 0 {
      var mid := Run(env, s, Rounds(i, 1));
      OneRound(env, s, i);
      assert Rounds(i, 1) == [TryName(i), AddTool(i)];
      RunAppend(env, s, Rounds(i, 1), Rounds(i, n - 1));
      SoloRun(env, mid, i);
      assert task.given[task.tried..][1..] == task.given[task.tried + 1..];
    }
  }

  // ----- hooks one at a time -----

  /** A tool search, a load, a tool result or an invalid call, with its registration run to the end. */
  function Hook(step: Step, s: Session, env: Env): seq<Step> {
    var t := Take(env, s, step);
    if |t.tasks| > |s.tasks| then [step] + Rounds(|s.tasks|, |t.tasks[|s.tasks|].given|) else [step]
  }

  predicate IsHook(step: Step) {
    !step.TryName? && !step.AddTool?
  }

  function Sequential(env: Env, s: Session, hooks: seq<Step>): Session
    decreases |hooks|
  {
    if hooks == [] then s else Sequential(env, Run(env, s, Hook(hooks[0], s, env)), hooks[1..])
  }

  lemma HookRuns(env: Env, s: Session, step: Step)
    requires IsHook(step) && Idle(s)
    ensures var t := Run(env, s, Hook(step, s, env));
            && Idle(t) && (step.ToolResult? ==> t.buffer == [])
            && t.staged == Take(env, s, step).staged && t.wanted == Take(env, s, step).wanted
    ensures step.ToolResult? ==>
              RegistryOf(Run(env, s, Hook(step, s, env))) == RegisterAll(RegistryOf(s), s.buffer)
    ensures step.InvalidCall? ==>
              RegistryOf(Run(env, s, Hook(step, s, env)))
              == match Find(env.catalog, step.name)
                 case None => RegistryOf(s)
                 case Some(t) => RegisterAll(RegistryOf(s), [t])
  {
    var mid := Take(env, s, step);
    var n := |s.tasks|;
    var end := Run(env, s, Hook(step, s, env));
    if |mid.tasks| > n {
      var given := mid.tasks[n].given;
      RunAppend(env, s, [step], Rounds(n, |given|));
      OneStep(env, s, step);
      SoloRun(env, mid, n);
      assert given[0..] == given;
      forall i | 0 <= i < |end.tasks| ensures Finished(end.tasks[i]) {
        if i < n {
          assert mid.tasks[i] == s.tasks[i];
        }
      }
    } else {
      OneStep(env, s, step);
    }
  }

  lemma OneStep(env: Env, s: Session, step: Step)
    ensures Run(env, s, [step]) == Take(env, s, step)
  {
    assert [step][1..] == [];
  }

  lemma {:induction false} SequentialKeeps(env: Env, s: Session, hooks: seq<Step>)
    requires Invariant(env, s) && Idle(s) && forall h :: h in hooks ==> IsHook(h)
    ensures Invariant(env, Sequential(env, s, hooks)) && Idle(Sequential(env, s, hooks))
    decreases |hooks|
  {
    if hooks != [] {
      assert hooks[0] in hooks;
      HookRuns(env, s, hooks[0]);
      RunKeeps(env, s, Hook(hooks[0], s, env));
      SequentialKeeps(env, Run(env, s, Hook(hooks[0], s, env)), hooks[1..]);
    }
  }

  lemma {:induction false} SequentialSnoc(env: Env, s: Session, hooks: seq<Step>, last: Step)
    ensures var t := Sequential(env, s, hooks);
            Sequential(env, s, hooks + [last]) == Run(env, t, Hook(last, t, env))
    decreases |hooks|
  {
    if hooks == [] {
      assert [] + [last] == [last] && [last][1..] == [];
    } else {
      TailOfAppend(hooks, [last]);
      SequentialSnoc(env, Run(env, s, Hook(hooks[0], s, env)), hooks[1..], last);
    }
  }

  lemma AfterHook(env: Env, hooks: seq<Step>, last: Step)
    returns (before: Session, after: Session)
    requires IsHook(last) && forall h :: h in hooks ==> IsHook(h)
    ensures before == Sequential(env, START, hooks) && after == Sequential(env, START, hooks + [last])
    ensures Invariant(env, after) && Idle(after)
    ensures after.staged == Take(env, before, last).staged && after.wanted == Take(env, before, last).wanted
    ensures last.ToolResult? ==> after.buffer == []
  {
    before, after := Sequential(env, START, hooks), Sequential(env, START, hooks + [last]);
    SequentialKeeps(env, START, hooks);
    SequentialSnoc(env, START, hooks, last);
    HookRuns(env, before, last);
    RunKeeps(env, before, Hook(last, before, env));
  }

  /**
   * With hooks run one at a time, after each tool result the buffer is empty and every tool staged earlier has
   * been added to the server.
   */
  lemma ResultsLoadEverythingStaged(env: Env, hooks: seq<Step>, tool: Tool)
    requires forall h :: h in hooks ==> IsHook(h)
    ensures Sequential(env, START, hooks + [ToolResult]).buffer == []
    ensures tool in Sequential(env, START, hooks).staged ==>
              IsAdded(Sequential(env, START, hooks + [ToolResult]), tool.name)
  {
    var before, after := AfterHook(env, hooks, ToolResult);
    if tool in before.staged {
      IdleIsLoaded(env, after, tool);
    }
  }

  /** With hooks run one at a time, an invalid call that names a tool of the catalog leaves it callable. */
  lemma RecoveryLoads(env: Env, hooks: seq<Step>, name: string)
    requires forall h :: h in hooks ==> IsHook(h)
    requires Find(env.catalog, name).Some?
    ensures IsAdded(Sequential(env, START, hooks + [InvalidCall(name)]), name)
  {
    var before, after := AfterHook(env, hooks, InvalidCall(name));
    var tool := Find(env.catalog, name).value;
    RecoveryWants(env, before, name);
    IdleIsLoaded(env, after, tool);
  }

  lemma RecoveryWants(env: Env, s: Session, name: string)
    requires Find(env.catalog, name).Some?
    ensures Find(env.catalog, name).value in Take(env, s, InvalidCall(name)).wanted
  {
    assert Take(env, s, InvalidCall(name)).wanted[|s.wanted|] == Find(env.catalog, name).value;
  }

  // ----- the shared state as the session holds it -----

  /** The server has each name of the set once, and no other. */
  ghost predicate Consistent(r: Registry) {
    && (forall j, k :: 0 <= j < k < |r.added| ==> r.added[j].name != r.added[k].name)
    && (forall name :: name in r.names <==> exists k :: 0 <= k < |r.added| && r.added[k].name == name)
  }

  lemma RegisterOneKeeps(r: Registry, tool: Tool)
    requires Consistent(r)
    ensures Consistent(RegisterOne(r, tool))
  {
    if tool.name !in r.names {
      var t := RegisterOne(r, tool);
      forall name ensures name in t.names <==> exists k :: 0 <= k < |t.added| && t.added[k].name == name {
        if name == tool.name {
          assert t.added[|r.added|].name == name;
        } else if name in r.names {
          var k :| 0 <= k < |r.added| && r.added[k].name == name;
          assert t.added[k].name == name;
        }
      }
    }
  }

  function NameSet(tools: seq<Tool>): set<string> {
    if tools == [] then {} else {tools[0].name} + NameSet(tools[1..])
  }

  /** Registering keeps what the server has, adds every name given, and repeats none. */
  lemma {:induction false} RegisterAllCorrect(r: Registry, tools: seq<Tool>)
    requires Consistent(r)
    ensures var t := RegisterAll(r, tools);
            Consistent(t) && r.added <= t.added && t.names == r.names + NameSet(tools)
    decreases |tools|
  {
    if tools != [] {
      RegisterOneKeeps(r, tools[0]);
      RegisterAllCorrect(RegisterOne(r, tools[0]), tools[1..]);
    }
  }

  class LoadedTools {
    var loadedBuffer: seq<Tool>
    var loadedNames: set<string>
    var server: seq<Tool>

    constructor ()
      ensures loadedBuffer == [] && loadedNames == {} && server == []
    {
      loadedBuffer, loadedNames, server := [], {}, [];
    }

    function Contents(): Registry
      reads this
    {
      Registry(loadedNames, server)
    }

    /** The loader closure. */
    method Load(tools: seq<Tool>)
      modifies this`loadedBuffer
      ensures loadedBuffer == old(loadedBuffer) + tools
    {
      loadedBuffer := loadedBuffer + tools;
    }

    /** The `register_loaded` closure, uninterrupted. */
    method RegisterLoaded(tools: seq<Tool>)
      modifies this`loadedNames, this`server
      ensures Contents() == RegisterAll(old(Contents()), tools)
    {
      for i := 0 to |tools|
        invariant RegisterAll(Contents(), tools[i..]) == RegisterAll(old(Contents()), tools)
      {
        var tool := tools[i];
        assert tools[i..][0] == tool && tools[i..][1..] == tools[i + 1..];
        if tool.name in loadedNames {
          continue;
        }
        loadedNames := loadedNames + {tool.name};
        server := server + [tool];
      }
    }

    method HandleToolResult()
      modifies this
      ensures loadedBuffer == [] && Contents() == RegisterAll(old(Contents()), old(loadedBuffer))
    {
      var pending := loadedBuffer;
      loadedBuffer := [];
      if pending != [] {
        RegisterLoaded(pending);
      }
    }

    /** Whether the model is told that the tool is loaded now. */
    method HandleInvalidToolCall(catalog: seq<Tool>, name: string) returns (loaded: bool)
      modifies this`loadedNames, this`server
      ensures loaded == Find(catalog, name).Some?
      ensures Contents() == match Find(catalog, name)
                case None => old(Contents())
                case Some(tool) => RegisterAll(old(Contents()), [tool])
    {
      match Find(catalog, name)
      case Some(tool) =>
        RegisterLoaded([tool]);
        loaded := true;
      case None =>
        loaded := false;
    }
  }
}
