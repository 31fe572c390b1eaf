/** `Codesystem.crew()` from src/codesystem/crew.py: one agent per agent configuration, then
    one task per task configuration, in declaration order, each task depending only on
    tasks declared before it. Configurations are the already-parsed YAML mappings: ordered
    entries with distinct names, whose fields may be missing. */
module CrewBuild {
  import opened Wrappers

  datatype AgentConfig = AgentConfig(role: Option<string>, goal: Option<string>, backstory: Option<string>)

  datatype TaskConfig = TaskConfig(
    description: Option<string>,
    expectedOutput: Option<string>,
    agent: Option<string>,
    dependencies: Option<seq<string>>)

  datatype Agent = Agent(role: string, goal: string, backstory: string)

  /** A task; its dependencies are positions in the crew's task list. */
  datatype Task = Task(description: string, expectedOutput: Option<string>, agent: Agent, dependencies: seq<nat>)

  datatype Crew = Crew(agents: seq<Agent>, tasks: seq<Task>)

  /** The `KeyError` a missing field or an unknown agent name raises. */
  datatype BuildError = MissingKey(entry: string, key: string) | UnknownAgent(task: string, agent: string)

  function Names<C>(entries: seq<(string, C)>): seq<string> {
    seq(|entries|, k requires 0 <= k < |entries| => entries[k].0)
  }

  predicate Distinct(s: seq<string>) {
    forall i, j :: 0 <= i < j < |s| ==> s[i] != s[j]
  }

  function Positions(n: nat): seq<nat> {
    seq(n, k => k)
  }

  /** The dictionary built by storing `vals[k]` under `keys[k]`, in order. */
  function ZipMap<T>(keys: seq<string>, vals: seq<T>): (m: map<string, T>)
    requires |keys| == |vals|
  {
    if keys == [] then map[]
    else ZipMap(keys[..|keys| - 1], vals[..|vals| - 1])[keys[|keys| - 1] := vals[|vals| - 1]]
  }

  /** The keys of the dictionary are exactly the keys stored. */
  lemma {:induction false} ZipMapKeys<T>(keys: seq<string>, vals: seq<T>)
    requires |keys| == |vals|
    ensures forall k :: k in ZipMap(keys, vals) <==> k in keys
    decreases |keys|
  {
    if keys != [] {
      var n := |keys| - 1;
      ZipMapKeys(keys[..n], vals[..n]);
      assert keys == keys[..n] + [keys[n]];
    }
  }

  /** With distinct keys, every key finds the value stored beside it. */
  lemma {:induction false} ZipMapAt<T>(keys: seq<string>, vals: seq<T>, j: nat)
    requires |keys| == |vals| && Distinct(keys) && j < |keys|
    ensures keys[j] in ZipMap(keys, vals) && ZipMap(keys, vals)[keys[j]] == vals[j]
    decreases |keys|
  {
    var n := |keys| - 1;
    if j < n {
      assert keys[..n][j] == keys[j] && vals[..n][j] == vals[j] && keys[j] != keys[n];
      assert Distinct(keys[..n]);
      ZipMapAt(keys[..n], vals[..n], j);
    }
  }

  /** `Agent(role=c['role'], goal=c['goal'], backstory=c['backstory'])`: the first missing
      field, in that order, is the error. */
  function BuildAgent(name: string, c: AgentConfig): Result<Agent, BuildError> {
    if c.role.None? then Failure(MissingKey(name, "role"))
    else if c.goal.None? then Failure(MissingKey(name, "goal"))
    else if c.backstory.None? then Failure(MissingKey(name, "backstory"))
    else Success(Agent(c.role.value, c.goal.value, c.backstory.value))
  }

  /** The agents of the first loop, in configuration order, or the first error. */
  function BuildAgents(configs: seq<(string, AgentConfig)>): (r: Result<seq<Agent>, BuildError>)
    ensures r.Success? ==> |r.value| == |configs|
  {
    if configs == [] then Success([])
    else
      var n := |configs| - 1;
      match BuildAgents(configs[..n])
      case Failure(e) => Failure(e)
      case Success(agents) =>
        match BuildAgent(configs[n].0, configs[n].1)
        case Failure(e) => Failure(e)
        case Success(a) => Success(agents + [a])
  }

  /** The dependency list of one task: each declared name already in `taskOutputs`, in
      declared order and with repeats, mapped to that task's position. */
  function KnownDeps(declared: seq<string>, taskOutputs: map<string, nat>): seq<nat> {
    if declared == [] then []
    else
      var n := |declared| - 1;
      KnownDeps(declared[..n], taskOutputs)
        + (if declared[n] in taskOutputs then [taskOutputs[declared[n]]] else [])
  }

  /** `Task(description=..., expected_output=..., agent=agents[c['agent']], ...)`: the
      description is read first, then the agent name, then the agent is looked up. */
  function BuildTask(name: string, c: TaskConfig, agents: map<string, Agent>, taskOutputs: map<string, nat>)
    : Result<Task, BuildError>
  {
    var deps := if c.dependencies.Some? then KnownDeps(c.dependencies.value, taskOutputs) else [];
    if c.description.None? then Failure(MissingKey(name, "description"))
    else if c.agent.None? then Failure(MissingKey(name, "agent"))
    else if c.agent.value !in agents then Failure(UnknownAgent(name, c.agent.value))
    else Success(Task(c.description.value, c.expectedOutput, agents[c.agent.value], deps))
  }

  /** The `task_outputs` dictionary after the tasks of `configs`: name to position. */
  function TaskIndex(configs: seq<(string, TaskConfig)>): map<string, nat> {
    ZipMap(Names(configs), Positions(|configs|))
  }

  /** The tasks of the second loop, in configuration order, or the first error. */
  function BuildTasks(configs: seq<(string, TaskConfig)>, agents: map<string, Agent>): (r: Result<seq<Task>, BuildError>)
    ensures r.Success? ==> |r.value| == |configs|
  {
    if configs == [] then Success([])
    else
      var n := |configs| - 1;
      match BuildTasks(configs[..n], agents)
      case Failure(e) => Failure(e)
      case Success(tasks) =>
        match BuildTask(configs[n].0, configs[n].1, agents, TaskIndex(configs[..n]))
        case Failure(e) => Failure(e)
        case Success(t) => Success(tasks + [t])
  }

  /** What `crew()` returns: the crew and `task_outputs`, or the first error. */
  function CrewOf(agentConfigs: seq<(string, AgentConfig)>, taskConfigs: seq<(string, TaskConfig)>)
    : Result<(Crew, map<string, nat>), BuildError>
  {
    match BuildAgents(agentConfigs)
    case Failure(e) => Failure(e)
    case Success(agents) =>
      match BuildTasks(taskConfigs, ZipMap(Names(agentConfigs), agents))
      case Failure(e) => Failure(e)
      case Success(tasks) => Success((Crew(agents, tasks), TaskIndex(taskConfigs)))
  }

  lemma NamesPrefix<C>(entries: seq<(string, C)>, i: nat)
    requires i < |entries|
    ensures Names(entries[..i + 1]) == Names(entries[..i]) + [entries[i].0]
  {
  }

  lemma ZipMapSnoc<T>(keys: seq<string>, vals: seq<T>, k: string, v: T)
    requires |keys| == |vals|
    ensures ZipMap(keys + [k], vals + [v]) == ZipMap(keys, vals)[k := v]
  {
    assert (keys + [k])[..|keys|] == keys;
    assert (vals + [v])[..|vals|] == vals;
  }

  /** A prefix that fails makes the whole agent list fail with the same error. */
  lemma {:induction false} AgentFailureStays(configs: seq<(string, AgentConfig)>, i: nat)
    requires i <= |configs| && BuildAgents(configs[..i]).Failure?
    ensures BuildAgents(configs) == BuildAgents(configs[..i])
    decreases |configs| - i
  {
    if i < |configs| {
      assert configs[..i + 1][..i] == configs[..i];
      AgentFailureStays(configs, i + 1);
    } else {
      assert configs[..i] == configs;
    }
  }

  /** A prefix that fails makes the whole task list fail with the same error. */
  lemma {:induction false} TaskFailureStays(configs: seq<(string, TaskConfig)>, agents: map<string, Agent>, i: nat)
    requires i <= |configs| && BuildTasks(configs[..i], agents).Failure?
    ensures BuildTasks(configs, agents) == BuildTasks(configs[..i], agents)
    decreases |configs| - i
  {
    if i < |configs| {
      assert configs[..i + 1][..i] == configs[..i];
      TaskFailureStays(configs, agents, i + 1);
    } else {
      assert configs[..i] == configs;
    }
  }

  /** Recording one more task adds its name, mapped to its position. */
  lemma TaskIndexSnoc(configs: seq<(string, TaskConfig)>, i: nat)
    requires i < |configs|
    ensures TaskIndex(configs[..i + 1]) == TaskIndex(configs[..i])[configs[i].0 := i]
  {
    assert Positions(i + 1) == Positions(i) + [i];
    NamesPrefix(configs, i);
    ZipMapSnoc(Names(configs[..i]), Positions(i), configs[i].0, i);
  }

  /** The inner loop: `dependencies.append(task_outputs[dep])` for every declared name
      already in `task_outputs`. */
  method CollectDependencies(declared: seq<string>, taskOutputs: map<string, nat>) returns (deps: seq<nat>)
    ensures deps == KnownDeps(declared, taskOutputs)
  {
    deps := [];
    var i := 0;
    while i < |declared|
      invariant i <= |declared|
      invariant deps == KnownDeps(declared[..i], taskOutputs)
    {
      var dep := declared[i];
      assert declared[..i + 1][..i] == declared[..i];
      if dep in taskOutputs {
        deps := deps + [taskOutputs[dep]];
      }
      i := i + 1;
    }
    assert declared[..i] == declared;
  }

  /** The first loop of `crew()`: one agent per configuration entry, stored in `agents`. */
  method CreateAgents(configs: seq<(string, AgentConfig)>)
    returns (r: Result<seq<Agent>, BuildError>, agents: map<string, Agent>)
    ensures r == BuildAgents(configs)
    ensures r.Success? ==> agents == ZipMap(Names(configs), r.value)
  {
    var list: seq<Agent> := [];
    agents := map[];
    var i := 0;
    while i < |configs|
      invariant i <= |configs|
      invariant BuildAgents(configs[..i]) == Success(list)
      invariant agents == ZipMap(Names(configs[..i]), list)
    {
      var name := configs[i].0;
      var c := configs[i].1;
      assert configs[..i + 1][..i] == configs[..i];
      var missing: Option<string> := None;
      if c.role.None? {
        missing := Some("role");
      } else if c.goal.None? {
        missing := Some("goal");
      } else if c.backstory.None? {
        missing := Some("backstory");
      }
      if missing.Some? {
        r := Failure(MissingKey(name, missing.value));
        AgentFailureStays(configs, i + 1);
        return;
      }
      var agent := Agent(c.role.value, c.goal.value, c.backstory.value);
      NamesPrefix(configs, i);
      ZipMapSnoc(Names(configs[..i]), list, name, agent);
      agents := agents[name := agent];
      list := list + [agent];
      i := i + 1;
    }
    assert configs[..i] == configs;
    r := Success(list);
  }

  /** The body of the second loop for one entry: its dependencies, then the task, or the
      `KeyError` that stops the loop. */
  method MakeTask(name: string, c: TaskConfig, agents: map<string, Agent>, taskOutputs: map<string, nat>)
    returns (r: Result<Task, BuildError>)
    ensures r == BuildTask(name, c, agents, taskOutputs)
  {
    var dependencies: seq<nat> := [];
    if c.dependencies.Some? {
      dependencies := CollectDependencies(c.dependencies.value, taskOutputs);
    }
    if c.description.None? {
      return Failure(MissingKey(name, "description"));
    }
    if c.agent.None? {
      return Failure(MissingKey(name, "agent"));
    }
    if c.agent.value !in agents {
      return Failure(UnknownAgent(name, c.agent.value));
    }
    r := Success(Task(c.description.value, c.expectedOutput, agents[c.agent.value], dependencies));
  }

  /** The second loop of `crew()`: one task per configuration entry, each recorded in
      `task_outputs` under its name once built. */
  method CreateTasks(configs: seq<(string, TaskConfig)>, agents: map<string, Agent>)
    returns (r: Result<seq<Task>, BuildError>, taskOutputs: map<string, nat>)
    ensures r == BuildTasks(configs, agents)
    ensures r.Success? ==> taskOutputs == TaskIndex(configs)
  {
    var tasks: seq<Task> := [];
    taskOutputs := map[];
    var i := 0;
    while i < |configs|
      invariant i <= |configs|
      invariant BuildTasks(configs[..i], agents) == Success(tasks)
      invariant taskOutputs == TaskIndex(configs[..i])
    {
      var name := configs[i].0;
      var c := configs[i].1;
      assert configs[..i + 1][..i] == configs[..i];
      var built := MakeTask(name, c, agents, taskOutputs);
      if built.Failure? {
        r := Failure(built.error);
        TaskFailureStays(configs, agents, i + 1);
        return;
      }
      tasks := tasks + [built.value];
      TaskIndexSnoc(configs, i);
      taskOutputs := taskOutputs[name := i];
      i := i + 1;
    }
    assert configs[..i] == configs;
    r := Success(tasks);
  }

  /** `crew()`: the agents, then the tasks, then the crew of both with `task_outputs`. */
  method BuildCrew(agentConfigs: seq<(string, AgentConfig)>, taskConfigs: seq<(string, TaskConfig)>)
    returns (r: Result<(Crew, map<string, nat>), BuildError>)
    ensures r == CrewOf(agentConfigs, taskConfigs)
  {
    var agentList, agents := CreateAgents(agentConfigs);
    if agentList.Failure? {
      return Failure(agentList.error);
    }
    var tasks, taskOutputs := CreateTasks(taskConfigs, agents);
    if tasks.Failure? {
      return Failure(tasks.error);
    }
    r := Success((Crew(agentList.value, tasks.value), taskOutputs));
  }

  // ---- What crew() guarantees ----

  /** An agent entry with all three fields. */
  predicate AgentComplete(c: AgentConfig) {
    c.role.Some? && c.goal.Some? && c.backstory.Some?
  }

  /** The key `Agent(...)` finds missing first in an incomplete entry. */
  function MissingAgentKey(c: AgentConfig): string {
    if c.role.None? then "role" else if c.goal.None? then "goal" else "backstory"
  }

  /** The first loop succeeds exactly when every entry is complete, and then builds, in
      order, the agent each entry describes; otherwise the error names the first incomplete
      entry and its first missing field. */
  lemma {:induction false} BuildAgentsSpec(configs: seq<(string, AgentConfig)>)
    ensures var r := BuildAgents(configs);
      && (r.Success? <==> forall k :: 0 <= k < |configs| ==> AgentComplete(configs[k].1))
      && (r.Success? ==> forall k :: 0 <= k < |configs| ==>
            r.value[k] == Agent(configs[k].1.role.value, configs[k].1.goal.value, configs[k].1.backstory.value))
      && (r.Failure? ==>
            exists k :: 0 <= k < |configs| && !AgentComplete(configs[k].1)
              && (forall j :: 0 <= j < k ==> AgentComplete(configs[j].1))
              && r.error == MissingKey(configs[k].0, MissingAgentKey(configs[k].1)))
    decreases |configs|
  {
    if configs != [] {
      var n := |configs| - 1;
      var init := configs[..n];
      BuildAgentsSpec(init);
      assert forall k :: 0 <= k < n ==> init[k] == configs[k];
      var r := BuildAgents(configs);
      if BuildAgents(init).Failure? {
        var k :| 0 <= k < n && !AgentComplete(init[k].1)
          && (forall j :: 0 <= j < k ==> AgentComplete(init[j].1))
          && BuildAgents(init).error == MissingKey(init[k].0, MissingAgentKey(init[k].1));
        assert !AgentComplete(configs[k].1);
      } else if !AgentComplete(configs[n].1) {
        assert r.error == MissingKey(configs[n].0, MissingAgentKey(configs[n].1));
      }
    }
  }

  /** A task entry the second loop can build: a description, and an agent name among the
      agents built. */
  predicate TaskReady(c: TaskConfig, agents: map<string, Agent>) {
    c.description.Some? && c.agent.Some? && c.agent.value in agents
  }

  /** The error `Task(...)` raises for an entry that is not ready. */
  function TaskError(name: string, c: TaskConfig): BuildError {
    if c.description.None? then MissingKey(name, "description")
    else if c.agent.None? then MissingKey(name, "agent")
    else UnknownAgent(name, c.agent.value)
  }

  /** The dependencies the task at position `k` is given: its declared names that belong to
      tasks built before it. */
  function DependenciesAt(configs: seq<(string, TaskConfig)>, k: nat): seq<nat>
    requires k < |configs|
  {
    var c := configs[k].1;
    if c.dependencies.Some? then KnownDeps(c.dependencies.value, TaskIndex(configs[..k])) else []
  }

  lemma DependenciesAtPrefix(configs: seq<(string, TaskConfig)>, n: nat, k: nat)
    requires k < n <= |configs|
    ensures DependenciesAt(configs[..n], k) == DependenciesAt(configs, k)
  {
    assert configs[..n][..k] == configs[..k];
  }

  /** The second loop succeeds exactly when every entry is ready, and then builds, in order,
      the task each entry describes. */
  lemma {:induction false} BuildTasksSpec(configs: seq<(string, TaskConfig)>, agents: map<string, Agent>)
    ensures var r := BuildTasks(configs, agents);
      && (r.Success? <==> forall k :: 0 <= k < |configs| ==> TaskReady(configs[k].1, agents))
      && (r.Success? ==> forall k :: 0 <= k < |configs| ==>
            r.value[k] == Task(configs[k].1.description.value, configs[k].1.expectedOutput,
              agents[configs[k].1.agent.value], DependenciesAt(configs, k)))
    decreases |configs|
  {
    if configs != [] {
      var n := |configs| - 1;
      var init := configs[..n];
      BuildTasksSpec(init, agents);
      assert forall k :: 0 <= k < n ==> init[k] == configs[k];
      forall k | 0 <= k < n
        ensures DependenciesAt(init, k) == DependenciesAt(configs, k)
      {
        DependenciesAtPrefix(configs, n, k);
      }
      assert init == configs[..n][..n];
    }
  }

  /** When the second loop fails, the error is that of the first entry that is not ready. */
  lemma {:induction false} BuildTasksError(configs: seq<(string, TaskConfig)>, agents: map<string, Agent>)
    requires BuildTasks(configs, agents).Failure?
    ensures exists k :: 0 <= k < |configs| && !TaskReady(configs[k].1, agents)
              && (forall j :: 0 <= j < k ==> TaskReady(configs[j].1, agents))
              && BuildTasks(configs, agents).error == TaskError(configs[k].0, configs[k].1)
    decreases |configs|
  {
    var n := |configs| - 1;
    var init := configs[..n];
    if BuildTasks(init, agents).Failure? {
      BuildTasksError(init, agents);
      var k :| 0 <= k < n && !TaskReady(init[k].1, agents)
        && (forall j :: 0 <= j < k ==> TaskReady(init[j].1, agents))
        && BuildTasks(init, agents).error == TaskError(init[k].0, init[k].1);
      assert forall j :: 0 <= j <= k ==> init[j] == configs[j];
    } else {
      BuildTasksSpec(init, agents);
      assert forall j :: 0 <= j < n ==> init[j] == configs[j];
    }
  }

  /** Every position in `task_outputs` is that of a task already built. */
  lemma {:induction false} TaskIndexBelow(configs: seq<(string, TaskConfig)>)
    ensures forall name :: name in TaskIndex(configs) ==> TaskIndex(configs)[name] < |configs|
    decreases |configs|
  {
    if configs != [] {
      var n := |configs| - 1;
      TaskIndexBelow(configs[..n]);
      TaskIndexSnoc(configs, n);
      assert configs[..n + 1] == configs;
    }
  }

  /** A name is in `task_outputs` exactly when a task of that name was built. */
  lemma TaskIndexNames(configs: seq<(string, TaskConfig)>, name: string)
    ensures name in TaskIndex(configs) <==> exists k :: 0 <= k < |configs| && configs[k].0 == name
  {
    ZipMapKeys(Names(configs), Positions(|configs|));
    assert forall k :: 0 <= k < |configs| ==> Names(configs)[k] == configs[k].0;
  }

  /** With distinct task names, `task_outputs` maps each name to its own task. */
  lemma TaskIndexAt(configs: seq<(string, TaskConfig)>, k: nat)
    requires Distinct(Names(configs)) && k < |configs|
    ensures configs[k].0 in TaskIndex(configs) && TaskIndex(configs)[configs[k].0] == k
  {
    ZipMapAt(Names(configs), Positions(|configs|), k);
  }

  /** Resolving a list of names part by part resolves the whole: names are kept in their
      declared order, and a repeated name is resolved every time. */
  lemma {:induction false} KnownDepsAppend(a: seq<string>, b: seq<string>, taskOutputs: map<string, nat>)
    ensures KnownDeps(a + b, taskOutputs) == KnownDeps(a, taskOutputs) + KnownDeps(b, taskOutputs)
    decreases |b|
  {
    if b == [] {
      assert a + b == a;
    } else {
      var n := |b| - 1;
      KnownDepsAppend(a, b[..n], taskOutputs);
      assert (a + b)[..|a + b| - 1] == a + b[..n];
    }
  }

  /** One name resolves to its position when it is known and to nothing otherwise. */
  lemma KnownDepsOne(d: string, taskOutputs: map<string, nat>)
    ensures KnownDeps([d], taskOutputs) == if d in taskOutputs then [taskOutputs[d]] else []
  {
    assert [d][..0] == [];
  }

  /** A declared name that is not (yet) a task contributes nothing. */
  lemma UnknownDependencyDropped(a: seq<string>, d: string, b: seq<string>, taskOutputs: map<string, nat>)
    requires d !in taskOutputs
    ensures KnownDeps(a + [d] + b, taskOutputs) == KnownDeps(a + b, taskOutputs)
  {
    KnownDepsAppend(a + [d], b, taskOutputs);
    KnownDepsAppend(a, [d], taskOutputs);
    KnownDepsAppend(a, b, taskOutputs);
    KnownDepsOne(d, taskOutputs);
  }

  lemma {:induction false} KnownDepsBelow(declared: seq<string>, taskOutputs: map<string, nat>, bound: nat)
    requires forall name :: name in taskOutputs ==> taskOutputs[name] < bound
    ensures forall j :: 0 <= j < |KnownDeps(declared, taskOutputs)| ==> KnownDeps(declared, taskOutputs)[j] < bound
    decreases |declared|
  {
    if declared != [] {
      KnownDepsBelow(declared[..|declared| - 1], taskOutputs, bound);
    }
  }

  /** Every task depends only on tasks strictly before it, so the dependencies never form a
      cycle; a task naming itself or a later task does not depend on it. */
  lemma DependenciesPointBack(configs: seq<(string, TaskConfig)>, k: nat)
    requires k < |configs|
    ensures forall j :: 0 <= j < |DependenciesAt(configs, k)| ==> DependenciesAt(configs, k)[j] < k
  {
    if configs[k].1.dependencies.Some? {
      TaskIndexBelow(configs[..k]);
      KnownDepsBelow(configs[k].1.dependencies.value, TaskIndex(configs[..k]), k);
    }
  }

  /** A dependency on a name that no earlier task has is ignored. */
  lemma LaterNameIgnored(configs: seq<(string, TaskConfig)>, k: nat, a: seq<string>, d: string, b: seq<string>)
    requires k < |configs| && configs[k].1.dependencies == Some(a + [d] + b)
    requires forall j :: 0 <= j < k ==> configs[j].0 != d
    ensures DependenciesAt(configs, k) == KnownDeps(a + b, TaskIndex(configs[..k]))
  {
    TaskIndexNames(configs[..k], d);
    UnknownDependencyDropped(a, d, b, TaskIndex(configs[..k]));
  }

  /** A task entry whose agent name is one of `agentNames`. */
  predicate NamesKnownAgent(c: TaskConfig, agentNames: seq<string>) {
    c.description.Some? && c.agent.Some? && c.agent.value in agentNames
  }

  /** `crew()` as a whole: it succeeds exactly when every agent entry is complete and every
      task entry has a description and names a configured agent. The crew then holds one
      agent per agent entry and one task per task entry, in order; each task is given the
      agent of the entry it names and depends only on earlier tasks; `task_outputs` maps task
      names to positions. Agent entries are checked before any task entry. */
  lemma CrewSpec(agentConfigs: seq<(string, AgentConfig)>, taskConfigs: seq<(string, TaskConfig)>)
    requires Distinct(Names(agentConfigs))
    ensures var r := CrewOf(agentConfigs, taskConfigs);
      && (r.Success? <==>
            && (forall k :: 0 <= k < |agentConfigs| ==> AgentComplete(agentConfigs[k].1))
            && (forall k :: 0 <= k < |taskConfigs| ==> NamesKnownAgent(taskConfigs[k].1, Names(agentConfigs))))
      && ((exists k :: 0 <= k < |agentConfigs| && !AgentComplete(agentConfigs[k].1)) ==>
            BuildAgents(agentConfigs).Failure? && r == Failure(BuildAgents(agentConfigs).error))
      && (r.Success? ==>
            var crew := r.value.0;
            && |crew.agents| == |agentConfigs| && |crew.tasks| == |taskConfigs|
            && r.value.1 == TaskIndex(taskConfigs)
            && (forall k :: 0 <= k < |agentConfigs| ==>
                  crew.agents[k] == Agent(agentConfigs[k].1.role.value, agentConfigs[k].1.goal.value,
                    agentConfigs[k].1.backstory.value))
            && (forall k, j ::
                  (0 <= k < |taskConfigs| && 0 <= j < |agentConfigs|
                   && agentConfigs[j].0 == taskConfigs[k].1.agent.value) ==>
                  crew.tasks[k].agent == crew.agents[j])
            && (forall k :: 0 <= k < |taskConfigs| ==>
                  && crew.tasks[k].description == taskConfigs[k].1.description.value
                  && crew.tasks[k].expectedOutput == taskConfigs[k].1.expectedOutput
                  && crew.tasks[k].dependencies == DependenciesAt(taskConfigs, k)
                  && forall d :: d in crew.tasks[k].dependencies ==> d < k))
  {
    BuildAgentsSpec(agentConfigs);
    var built := BuildAgents(agentConfigs);
    if built.Success? {
      var agents := ZipMap(Names(agentConfigs), built.value);
      ZipMapKeys(Names(agentConfigs), built.value);
      BuildTasksSpec(taskConfigs, agents);
      assert forall k :: 0 <= k < |taskConfigs| ==>
        (TaskReady(taskConfigs[k].1, agents) <==> NamesKnownAgent(taskConfigs[k].1, Names(agentConfigs)));
      forall j | 0 <= j < |agentConfigs|
        ensures agentConfigs[j].0 in agents && agents[agentConfigs[j].0] == built.value[j]
      {
        assert Names(agentConfigs)[j] == agentConfigs[j].0;
        ZipMapAt(Names(agentConfigs), built.value, j);
      }
      forall k | 0 <= k < |taskConfigs|
        ensures forall d :: d in DependenciesAt(taskConfigs, k) ==> d < k
      {
        DependenciesPointBack(taskConfigs, k);
      }
    }
  }
}
