/** The legacy iDDS workflow generator
    (`python/lsst/ctrl/bps/wms/panda/idds_tasks.py`). From the generic workflow
    DAG of BPS it builds the node -> upstream-nodes map, groups jobs into tasks
    by the `_`-separated step in their names, groups each job's upstream jobs
    by task, and emits one `RubinTask` per step with its dependency records.

    The DAG is its node list (insertion order, as networkx iterates it) and its
    edge list (the order of `in_edges()`); each node carries its job's command
    line and its ordered input files. */
module IddsTasks {
  import opened Common
  import opened Text
  import opened Dicts

  datatype InputFile = InputFile(name: string, srcUri: string)

  /** A DAG node: its name, the job's command line and its input files. */
  datatype Job = Job(name: string, cmdline: string, inputs: seq<InputFile>)

  datatype Dag = Dag(nodes: seq<Job>, edges: seq<(string, string)>)

  function Names(nodes: seq<Job>): (names: seq<string>)
    ensures |names| == |nodes|
    ensures forall i :: 0 <= i < |nodes| ==> names[i] == nodes[i].name
  {
    if |nodes| == 0 then [] else [nodes[0].name] + Names(nodes[1..])
  }

  /** What a networkx DiGraph guarantees: node names are unique and both ends
      of an edge are nodes. */
  ghost predicate ValidDag(dag: Dag) {
    && (forall i, j :: 0 <= i < j < |dag.nodes| ==> dag.nodes[i].name != dag.nodes[j].name)
    && (forall e :: e in dag.edges ==> e.0 in Names(dag.nodes) && e.1 in Names(dag.nodes))
  }

  /** `bps_workflow.nodes.get(name)`. */
  function FindNode(nodes: seq<Job>, name: string): (r: Option<Job>)
    ensures r.Some? <==> name in Names(nodes)
    ensures r.Some? ==> r.value in nodes && r.value.name == name
  {
    if |nodes| == 0 then None
    else if nodes[0].name == name then Some(nodes[0])
    else
      assert Names(nodes) == [nodes[0].name] + Names(nodes[1..]);
      FindNode(nodes[1..], name)
  }

  const InitStep: string := "pipetaskInit"

  // ---------------------------------------------------------------------------
  // Names
  // ---------------------------------------------------------------------------

  /** `define_task_name`: the workflow name, `_`, the step. */
  function DefineTaskName(workflowName: string, step: string): string {
    workflowName + "_" + step
  }

  /** Within a workflow, distinct steps get distinct task names. */
  lemma DefineTaskNameInjective(workflowName: string, step1: string, step2: string)
    requires DefineTaskName(workflowName, step1) == DefineTaskName(workflowName, step2)
    ensures step1 == step2
  {
    assert step1 == DefineTaskName(workflowName, step1)[|workflowName| + 1..];
    assert step2 == DefineTaskName(workflowName, step2)[|workflowName| + 1..];
  }

  /** `get_task_by_job_name`: the second `_`-field, or the whole name when it
      has no `_`. */
  function GetTaskByJobName(jobName: string): string {
    var parts := Split(jobName, '_');
    if |parts| > 1 then parts[1] else jobName
  }

  /** A name without `_` is its own step; in `prefix_step` and
      `prefix_step_rest` the step is the field after the first `_`. */
  lemma TaskOfJobName(prefix: string, step: string, rest: string)
    requires '_' !in prefix && '_' !in step
    ensures GetTaskByJobName(prefix) == prefix
    ensures GetTaskByJobName(prefix + "_" + step) == step
    ensures GetTaskByJobName(prefix + "_" + step + "_" + rest) == step
  {
    SplitFreePrefix(prefix, "", '_');
    SplitFreePrefix(prefix, step, '_');
    SplitFreePrefix(step, "", '_');
    assert prefix + "_" + step == prefix + ['_'] + step;
    SplitFreePrefix(prefix, step + "_" + rest, '_');
    SplitFreePrefix(step, rest, '_');
    assert prefix + "_" + step + "_" + rest == prefix + ['_'] + (step + ['_'] + rest);
  }

  /** The first input file of a job (`get_input_file` gives its name, line 185
      its `src_uri`): `AttributeError` for an unknown node, `StopIteration` for
      a job without inputs. */
  function FirstInput(dag: Dag, jobName: string): (r: Result<InputFile>)
    ensures r.Ok? <==> FindNode(dag.nodes, jobName).Some? && |FindNode(dag.nodes, jobName).value.inputs| > 0
    ensures r.Ok? ==> r.value == FindNode(dag.nodes, jobName).value.inputs[0]
  {
    match FindNode(dag.nodes, jobName)
    case None => Err(AttributeError)
    case Some(job) => if |job.inputs| == 0 then Err(StopIteration) else Ok(job.inputs[0])
  }

  // ---------------------------------------------------------------------------
  // pick_non_init_cmdline
  // ---------------------------------------------------------------------------

  /** The command line of the first node not named `pipetaskInit`; `None` when
      there is none. */
  function FirstNonInit(nodes: seq<Job>): Option<string> {
    if |nodes| == 0 then None
    else if nodes[0].name != InitStep then Some(nodes[0].cmdline)
    else FirstNonInit(nodes[1..])
  }

  lemma {:induction false} FirstNonInitIsFirst(nodes: seq<Job>)
    ensures FirstNonInit(nodes).None? <==> forall i :: 0 <= i < |nodes| ==> nodes[i].name == InitStep
    ensures FirstNonInit(nodes).Some? ==>
      exists i :: 0 <= i < |nodes| && nodes[i].name != InitStep && FirstNonInit(nodes).value == nodes[i].cmdline &&
        (forall j :: 0 <= j < i ==> nodes[j].name == InitStep)
  {
    if |nodes| > 0 && nodes[0].name == InitStep {
      FirstNonInitIsFirst(nodes[1..]);
      assert forall i :: 1 <= i < |nodes| ==> nodes[1..][i - 1] == nodes[i];
      if FirstNonInit(nodes).Some? {
        var i :| 0 <= i < |nodes[1..]| && nodes[1..][i].name != InitStep
          && FirstNonInit(nodes).value == nodes[1..][i].cmdline && forall j :: 0 <= j < i ==> nodes[1..][j].name == InitStep;
        assert forall j :: 1 <= j < i + 1 ==> nodes[j] == nodes[1..][j - 1];
        assert nodes[i + 1] == nodes[1..][i];
      }
    }
  }

  // ---------------------------------------------------------------------------
  // create_raw_jobs_dependency_map
  // ---------------------------------------------------------------------------

  /** The sources of the edges into `v`, in edge order. */
  function Preds(edges: seq<(string, string)>, v: string): seq<string> {
    if |edges| == 0 then []
    else (if edges[0].1 == v then [edges[0].0] else []) + Preds(edges[1..], v)
  }

  lemma {:induction false} PredsMembers(edges: seq<(string, string)>, v: string)
    ensures forall u :: u in Preds(edges, v) <==> (u, v) in edges
    ensures Preds(edges, v) == [] <==> forall e :: e in edges ==> e.1 != v
  {
    if |edges| > 0 {
      PredsMembers(edges[1..], v);
      assert edges == [edges[0]] + edges[1..];
    }
  }

  /** `dependency_map.setdefault(edge[1], []).append(edge[0])` for each edge. */
  function AddEdges(d: ODict<seq<string>>, edges: seq<(string, string)>): (r: ODict<seq<string>>)
    requires d.Valid()
    ensures r.Valid()
    decreases |edges|
  {
    if |edges| == 0 then d else AddEdges(Append(d, edges[0].1, edges[0].0), edges[1..])
  }

  /** `dependency_map.setdefault(node, [])` for each node. */
  function AddNodes(d: ODict<seq<string>>, names: seq<string>): (r: ODict<seq<string>>)
    requires d.Valid()
    ensures r.Valid()
    decreases |names|
  {
    if |names| == 0 then d else AddNodes(SetDefault(d, names[0], []), names[1..])
  }

  function Get(d: ODict<seq<string>>, k: string): seq<string> {
    if k in d.values then d.values[k] else []
  }

  lemma {:induction false} AddEdgesKeys(d: ODict<seq<string>>, edges: seq<(string, string)>)
    requires d.Valid()
    ensures forall v :: v in AddEdges(d, edges).values <==> v in d.values || exists e :: e in edges && e.1 == v
    decreases |edges|
  {
    if |edges| > 0 {
      var next := Append(d, edges[0].1, edges[0].0);
      AddEdgesKeys(next, edges[1..]);
      assert edges == [edges[0]] + edges[1..];
    }
  }

  lemma {:induction false} AddEdgesValues(d: ODict<seq<string>>, edges: seq<(string, string)>, v: string)
    requires d.Valid()
    requires v in AddEdges(d, edges).values
    ensures AddEdges(d, edges).values[v] == Get(d, v) + Preds(edges, v)
    decreases |edges|
  {
    if |edges| == 0 {
      assert Get(d, v) + Preds(edges, v) == d.values[v] + [];
    } else {
      var next := Append(d, edges[0].1, edges[0].0);
      var rest := edges[1..];
      assert AddEdges(d, edges) == AddEdges(next, rest);
      assert Preds(edges, v) == (if edges[0].1 == v then [edges[0].0] else []) + Preds(rest, v);
      assert AddEdges(next, rest).values[v] == Get(next, v) + Preds(rest, v) by {
        AddEdgesValues(next, rest, v);
      }
      GetAppend(d, edges[0].1, edges[0].0, v, Preds(rest, v));
    }
  }

  lemma {:induction false} AddNodesContents(d: ODict<seq<string>>, names: seq<string>)
    requires d.Valid()
    ensures forall v :: v in AddNodes(d, names).values <==> v in d.values || v in names
    ensures forall v :: v in AddNodes(d, names).values ==> AddNodes(d, names).values[v] == Get(d, v)
    decreases |names|
  {
    if |names| > 0 {
      AddNodesContents(SetDefault(d, names[0], []), names[1..]);
      assert names == [names[0]] + names[1..];
    }
  }

  /** The map `create_raw_jobs_dependency_map` returns. */
  function RawDependencyMap(dag: Dag): (r: ODict<seq<string>>)
    ensures r.Valid()
  {
    AddNodes(AddEdges(Empty(), dag.edges), Names(dag.nodes))
  }

  /** Every node is a key and every key a node; a node's list holds the sources
      of its in-edges in edge order, so it is empty exactly for nodes without
      an in-edge. */
  lemma RawDependencyMapSpec(dag: Dag)
    requires ValidDag(dag)
    ensures forall v :: v in RawDependencyMap(dag).values <==> v in Names(dag.nodes)
    ensures forall v :: v in RawDependencyMap(dag).values ==> RawDependencyMap(dag).values[v] == Preds(dag.edges, v)
    ensures forall e :: e in dag.edges ==> e.0 in RawDependencyMap(dag).values[e.1]
    ensures forall v :: v in RawDependencyMap(dag).values ==>
      (RawDependencyMap(dag).values[v] == [] <==> forall e :: e in dag.edges ==> e.1 != v)
  {
    var edgesMap := AddEdges(Empty(), dag.edges);
    AddEdgesKeys(Empty(), dag.edges);
    AddNodesContents(edgesMap, Names(dag.nodes));
    forall v ensures v in RawDependencyMap(dag).values ==> RawDependencyMap(dag).values[v] == Preds(dag.edges, v) {
      if v in RawDependencyMap(dag).values {
        if v in edgesMap.values {
          AddEdgesValues(Empty(), dag.edges, v);
        } else {
          PredsMembers(dag.edges, v);
        }
      }
    }
    forall e | e in dag.edges ensures e.0 in RawDependencyMap(dag).values[e.1] {
      PredsMembers(dag.edges, e.1);
    }
    forall v | v in RawDependencyMap(dag).values
      ensures RawDependencyMap(dag).values[v] == [] <==> forall e :: e in dag.edges ==> e.1 != v
    {
      PredsMembers(dag.edges, v);
    }
  }

  // ---------------------------------------------------------------------------
  // split_dependencies_by_tasks
  // ---------------------------------------------------------------------------

  /** The task a dependency belongs to: the task name of its step. */
  function UpstreamTask(workflowName: string, job: string): string {
    DefineTaskName(workflowName, GetTaskByJobName(job))
  }

  predicate AllHaveInputs(dag: Dag, jobs: seq<string>) {
    forall k :: 0 <= k < |jobs| ==> FirstInput(dag, jobs[k]).Ok?
  }

  /** `dependencies_by_tasks.setdefault(task, []).append(file)` over `deps`,
      starting from `d`. */
  function GroupDeps(dag: Dag, workflowName: string, d: ODict<seq<string>>, deps: seq<string>): (r: Result<ODict<seq<string>>>)
    requires d.Valid()
    ensures r.Ok? ==> r.value.Valid()
    decreases |deps|
  {
    if |deps| == 0 then Ok(d)
    else
      var file :- FirstInput(dag, deps[0]);
      GroupDeps(dag, workflowName, Append(d, UpstreamTask(workflowName, deps[0]), file.name), deps[1..])
  }

  /** The first input files of the dependencies of task `t`, in order. */
  function FilesOfTask(dag: Dag, workflowName: string, deps: seq<string>, t: string): seq<string>
    requires AllHaveInputs(dag, deps)
    decreases |deps|
  {
    if |deps| == 0 then []
    else
      (if UpstreamTask(workflowName, deps[0]) == t then [FirstInput(dag, deps[0]).value.name] else [])
      + FilesOfTask(dag, workflowName, deps[1..], t)
  }

  /** The grouping fails exactly when a dependency has no input file. */
  lemma {:induction false} GroupDepsOkIff(dag: Dag, workflowName: string, d: ODict<seq<string>>, deps: seq<string>)
    requires d.Valid()
    ensures GroupDeps(dag, workflowName, d, deps).Ok? <==> AllHaveInputs(dag, deps)
    decreases |deps|
  {
    if |deps| > 0 && FirstInput(dag, deps[0]).Ok? {
      var file := FirstInput(dag, deps[0]).value;
      GroupDepsOkIff(dag, workflowName, Append(d, UpstreamTask(workflowName, deps[0]), file.name), deps[1..]);
      assert forall k :: 1 <= k < |deps| ==> deps[1..][k - 1] == deps[k];
    }
  }

  /** One step of the grouping, unfolded. */
  lemma GroupDepsStep(dag: Dag, workflowName: string, d: ODict<seq<string>>, deps: seq<string>)
    requires d.Valid() && |deps| > 0 && FirstInput(dag, deps[0]).Ok?
    ensures GroupDeps(dag, workflowName, d, deps)
      == GroupDeps(dag, workflowName, Append(d, UpstreamTask(workflowName, deps[0]), FirstInput(dag, deps[0]).value.name), deps[1..])
  {
  }

  /** The grouping's keys: the earlier ones and the tasks of the dependencies. */
  lemma {:induction false} GroupDepsKeys(dag: Dag, workflowName: string, d: ODict<seq<string>>, deps: seq<string>)
    requires d.Valid() && GroupDeps(dag, workflowName, d, deps).Ok?
    ensures forall t :: t in GroupDeps(dag, workflowName, d, deps).value.values <==>
      t in d.values || exists k :: 0 <= k < |deps| && UpstreamTask(workflowName, deps[k]) == t
    decreases |deps|
  {
    if |deps| > 0 {
      var file := FirstInput(dag, deps[0]).value;
      var task := UpstreamTask(workflowName, deps[0]);
      var next := Append(d, task, file.name);
      GroupDepsStep(dag, workflowName, d, deps);
      GroupDepsKeys(dag, workflowName, next, deps[1..]);
      var r := GroupDeps(dag, workflowName, d, deps).value;
      forall t ensures t in r.values <==> t in d.values || exists k :: 0 <= k < |deps| && UpstreamTask(workflowName, deps[k]) == t {
        if t in r.values && t !in next.values {
          var k :| 0 <= k < |deps[1..]| && UpstreamTask(workflowName, deps[1..][k]) == t;
          assert UpstreamTask(workflowName, deps[k + 1]) == t;
        }
        if exists k :: 0 <= k < |deps| && UpstreamTask(workflowName, deps[k]) == t {
          var k :| 0 <= k < |deps| && UpstreamTask(workflowName, deps[k]) == t;
          if k > 0 {
            assert UpstreamTask(workflowName, deps[1..][k - 1]) == t;
          }
        }
      }
    }
  }

  /** Each task's list: its earlier list followed by the files of its
      dependencies, in order. */
  lemma {:induction false} GroupDepsValues(dag: Dag, workflowName: string, d: ODict<seq<string>>, deps: seq<string>, t: string)
    requires d.Valid() && GroupDeps(dag, workflowName, d, deps).Ok?
    requires t in GroupDeps(dag, workflowName, d, deps).value.values
    ensures AllHaveInputs(dag, deps)
    ensures GroupDeps(dag, workflowName, d, deps).value.values[t] == Get(d, t) + FilesOfTask(dag, workflowName, deps, t)
    decreases |deps|
  {
    GroupDepsOkIff(dag, workflowName, d, deps);
    if |deps| == 0 {
      assert Get(d, t) + FilesOfTask(dag, workflowName, deps, t) == d.values[t] + [];
    } else {
      var file := FirstInput(dag, deps[0]).value;
      var task := UpstreamTask(workflowName, deps[0]);
      var next := Append(d, task, file.name);
      GroupDepsStep(dag, workflowName, d, deps);
      GroupDepsValues(dag, workflowName, next, deps[1..], t);
      GroupDepsValuesStep(dag, workflowName, d, deps, t);
    }
  }

  /** The first dependency adds its file to its own task's list and to no
      other, in both the grouping and `FilesOfTask`. */
  lemma GroupDepsValuesStep(dag: Dag, workflowName: string, d: ODict<seq<string>>, deps: seq<string>, t: string)
    requires d.Valid() && |deps| > 0 && AllHaveInputs(dag, deps)
    ensures AllHaveInputs(dag, deps[1..])
    ensures var next := Append(d, UpstreamTask(workflowName, deps[0]), FirstInput(dag, deps[0]).value.name);
      Get(next, t) + FilesOfTask(dag, workflowName, deps[1..], t) == Get(d, t) + FilesOfTask(dag, workflowName, deps, t)
  {
    assert forall k :: 1 <= k < |deps| ==> deps[1..][k - 1] == deps[k];
    var name := FirstInput(dag, deps[0]).value.name;
    var next := Append(d, UpstreamTask(workflowName, deps[0]), name);
    GetAppend(d, UpstreamTask(workflowName, deps[0]), name, t, FilesOfTask(dag, workflowName, deps[1..], t));
  }

  /** Appending to `task` extends `t`'s list by the item exactly when they are
      the same key. */
  lemma GetAppend(d: ODict<seq<string>>, task: string, x: string, t: string, rest: seq<string>)
    requires d.Valid()
    ensures Get(Append(d, task, x), t) + rest == Get(d, t) + ((if task == t then [x] else []) + rest)
  {
    var head: seq<string> := if task == t then [x] else [];
    assert Get(Append(d, task, x), t) == Get(d, t) + head by {
      GetAppendOne(d, task, x, t);
    }
    assert (Get(d, t) + head) + rest == Get(d, t) + (head + rest);
  }

  lemma GetAppendOne(d: ODict<seq<string>>, task: string, x: string, t: string)
    requires d.Valid()
    ensures Get(Append(d, task, x), t) == Get(d, t) + (if task == t then [x] else [])
  {
    if task != t {
      assert Get(d, t) + [] == Get(d, t);
    }
  }

  /** Every list of the grouping is non-empty. */
  lemma {:induction false} GroupDepsNonEmpty(dag: Dag, workflowName: string, d: ODict<seq<string>>, deps: seq<string>)
    requires d.Valid() && GroupDeps(dag, workflowName, d, deps).Ok?
    requires forall t :: t in d.values ==> |d.values[t]| > 0
    ensures forall t :: t in GroupDeps(dag, workflowName, d, deps).value.values ==> |GroupDeps(dag, workflowName, d, deps).value.values[t]| > 0
    decreases |deps|
  {
    if |deps| > 0 {
      GroupDepsOkIff(dag, workflowName, d, deps);
      var next := Append(d, UpstreamTask(workflowName, deps[0]), FirstInput(dag, deps[0]).value.name);
      GroupDepsStep(dag, workflowName, d, deps);
      GroupDepsNonEmpty(dag, workflowName, next, deps[1..]);
    }
  }

  /** The lists hold exactly one file per dependency. */
  lemma {:induction false} GroupDepsTotal(dag: Dag, workflowName: string, d: ODict<seq<string>>, deps: seq<string>)
    requires d.Valid() && GroupDeps(dag, workflowName, d, deps).Ok?
    ensures Total(GroupDeps(dag, workflowName, d, deps).value.keys, GroupDeps(dag, workflowName, d, deps).value.values)
      == Total(d.keys, d.values) + |deps|
    decreases |deps|
  {
    if |deps| > 0 {
      GroupDepsOkIff(dag, workflowName, d, deps);
      var name := FirstInput(dag, deps[0]).value.name;
      var next := Append(d, UpstreamTask(workflowName, deps[0]), name);
      GroupDepsStep(dag, workflowName, d, deps);
      AppendTotal(d, UpstreamTask(workflowName, deps[0]), name);
      GroupDepsTotal(dag, workflowName, next, deps[1..]);
    }
  }

  // ---------------------------------------------------------------------------
  // split_map_over_tasks
  // ---------------------------------------------------------------------------

  /** For one step's jobs: job input file -> upstream task -> files. */
  type JobDeps = ODict<ODict<seq<string>>>

  /** The `tasks_dependency_map` being built and the `tasks_inputs` field. */
  datatype SplitState = SplitState(taskDeps: ODict<JobDeps>, inputs: ODict<seq<string>>)

  ghost predicate GroupsOk(groups: ODict<seq<string>>) {
    groups.Valid() && forall t :: t in groups.values ==> |groups.values[t]| > 0
  }

  ghost predicate JobsOk(jobs: JobDeps) {
    jobs.Valid() && forall f :: f in jobs.values ==> GroupsOk(jobs.values[f])
  }

  /** All dictionaries well formed, every group non-empty, and every step's
      task name a key of `tasks_inputs`. */
  ghost predicate SplitValid(workflowName: string, st: SplitState) {
    && DictsValid(st)
    && forall s :: s in st.taskDeps.values ==>
      JobsOk(st.taskDeps.values[s]) && DefineTaskName(workflowName, s) in st.inputs.values
  }

  /** The dictionaries of the state are well formed. */
  ghost predicate DictsValid(st: SplitState) {
    st.taskDeps.Valid() && st.inputs.Valid() && forall s :: s in st.taskDeps.values ==> st.taskDeps.values[s].Valid()
  }

  function JobsOf(taskDeps: ODict<JobDeps>, step: string): JobDeps {
    if step in taskDeps.values then taskDeps.values[step] else Empty()
  }

  /** One job of the loop: its first input's name and source, its grouped
      dependencies, the `setdefault(step, {})[file] = groups` and the
      `tasks_inputs` append. A job or a dependency without input raises before
      anything changes. */
  function SplitStep(dag: Dag, workflowName: string, st: SplitState, job: string, deps: seq<string>): (r: Result<SplitState>)
    requires DictsValid(st)
    ensures r.Ok? ==> DictsValid(r.value)
  {
    var file :- FirstInput(dag, job);
    var groups :- GroupDeps(dag, workflowName, Empty(), deps);
    var step := GetTaskByJobName(job);
    var jobs := Put(JobsOf(st.taskDeps, step), file.name, groups);
    var inputs := Append(st.inputs, DefineTaskName(workflowName, step), file.srcUri);
    Ok(SplitState(Put(st.taskDeps, step, jobs), inputs))
  }

  /** The loop over the raw map's jobs; on an exception, the state reached
      before the failing job and the exception. */
  function SplitOver(dag: Dag, workflowName: string, st: SplitState, jobs: seq<string>, raw: ODict<seq<string>>): (r: (SplitState, Option<Error>))
    requires DictsValid(st)
    requires forall k :: 0 <= k < |jobs| ==> jobs[k] in raw.values
    ensures DictsValid(r.0)
    decreases |jobs|
  {
    if |jobs| == 0 then (st, None)
    else
      match SplitStep(dag, workflowName, st, jobs[0], raw.values[jobs[0]])
      case Err(e) => (st, Some(e))
      case Ok(next) => SplitOver(dag, workflowName, next, jobs[1..], raw)
  }

  /** A job's step succeeds exactly when it and each of its dependencies have
      an input file. */
  lemma SplitStepOkIff(dag: Dag, workflowName: string, st: SplitState, job: string, deps: seq<string>)
    requires DictsValid(st)
    ensures SplitStep(dag, workflowName, st, job, deps).Ok? <==> FirstInput(dag, job).Ok? && AllHaveInputs(dag, deps)
  {
    GroupDepsOkIff(dag, workflowName, Empty(), deps);
  }

  /** Every job of the raw map, and every one of its upstream jobs, has an
      input file. */
  predicate InputsPresent(dag: Dag, jobs: seq<string>, raw: ODict<seq<string>>)
    requires forall k :: 0 <= k < |jobs| ==> jobs[k] in raw.values
  {
    forall k :: 0 <= k < |jobs| ==> FirstInput(dag, jobs[k]).Ok? && AllHaveInputs(dag, raw.values[jobs[k]])
  }

  lemma InputsPresentCons(dag: Dag, jobs: seq<string>, raw: ODict<seq<string>>)
    requires |jobs| > 0 && forall k :: 0 <= k < |jobs| ==> jobs[k] in raw.values
    ensures InputsPresent(dag, jobs, raw) <==>
      FirstInput(dag, jobs[0]).Ok? && AllHaveInputs(dag, raw.values[jobs[0]]) && InputsPresent(dag, jobs[1..], raw)
  {
    assert forall k :: 1 <= k < |jobs| ==> jobs[1..][k - 1] == jobs[k];
  }

  /** The loop raises exactly when some job or upstream job has no input file. */
  lemma {:induction false} SplitOverOkIff(dag: Dag, workflowName: string, st: SplitState, jobs: seq<string>, raw: ODict<seq<string>>)
    requires DictsValid(st)
    requires forall k :: 0 <= k < |jobs| ==> jobs[k] in raw.values
    ensures SplitOver(dag, workflowName, st, jobs, raw).1.None? <==> InputsPresent(dag, jobs, raw)
    decreases |jobs|
  {
    if |jobs| > 0 {
      var deps := raw.values[jobs[0]];
      SplitStepOkIff(dag, workflowName, st, jobs[0], deps);
      InputsPresentCons(dag, jobs, raw);
      if FirstInput(dag, jobs[0]).Ok? && AllHaveInputs(dag, deps) {
        SplitStepOk(dag, workflowName, st, jobs[0], deps);
        var next := SplitStep(dag, workflowName, st, jobs[0], deps).value;
        SplitOverOkIff(dag, workflowName, next, jobs[1..], raw);
      }
    }
  }

  /** The `src_uri` of the first input of each job of `step`, in order. */
  function SourcesOfStep(dag: Dag, jobs: seq<string>, step: string): seq<string>
    requires AllHaveInputs(dag, jobs)
    decreases |jobs|
  {
    if |jobs| == 0 then []
    else
      (if GetTaskByJobName(jobs[0]) == step then [FirstInput(dag, jobs[0]).value.srcUri] else [])
      + SourcesOfStep(dag, jobs[1..], step)
  }

  /** A successful step of the loop, unfolded. */
  lemma SplitStepOk(dag: Dag, workflowName: string, st: SplitState, job: string, deps: seq<string>)
    requires DictsValid(st)
    requires FirstInput(dag, job).Ok? && AllHaveInputs(dag, deps)
    ensures GroupDeps(dag, workflowName, Empty(), deps).Ok?
    ensures SplitStep(dag, workflowName, st, job, deps) == Ok(SplitState(
      Put(st.taskDeps, GetTaskByJobName(job),
        Put(JobsOf(st.taskDeps, GetTaskByJobName(job)), FirstInput(dag, job).value.name, GroupDeps(dag, workflowName, Empty(), deps).value)),
      Append(st.inputs, DefineTaskName(workflowName, GetTaskByJobName(job)), FirstInput(dag, job).value.srcUri)))
  {
    GroupDepsOkIff(dag, workflowName, Empty(), deps);
  }

  /** What a successful step changes: its step becomes a key, and the job's
      input file is set in that step's dictionary; other steps are unchanged. */
  lemma SplitStepEffect(dag: Dag, workflowName: string, st: SplitState, job: string, deps: seq<string>)
    requires DictsValid(st)
    requires FirstInput(dag, job).Ok? && AllHaveInputs(dag, deps)
    ensures GroupDeps(dag, workflowName, Empty(), deps).Ok?
    ensures SplitStep(dag, workflowName, st, job, deps).Ok?
    ensures var next := SplitStep(dag, workflowName, st, job, deps).value; var step := GetTaskByJobName(job);
      && (forall s :: s in next.taskDeps.values <==> s in st.taskDeps.values || s == step)
      && JobsOf(next.taskDeps, step).values
        == JobsOf(st.taskDeps, step).values[FirstInput(dag, job).value.name := GroupDeps(dag, workflowName, Empty(), deps).value]
      && (forall s :: s != step ==> JobsOf(next.taskDeps, s) == JobsOf(st.taskDeps, s))
  {
    SplitStepOk(dag, workflowName, st, job, deps);
  }

  /** The steps of some jobs. */
  function StepsOf(jobs: seq<string>): set<string>
    decreases |jobs|
  {
    if |jobs| == 0 then {} else {GetTaskByJobName(jobs[0])} + StepsOf(jobs[1..])
  }

  lemma {:induction false} StepsOfMembers(jobs: seq<string>)
    ensures forall s :: s in StepsOf(jobs) <==> exists j :: j in jobs && GetTaskByJobName(j) == s
    decreases |jobs|
  {
    if |jobs| > 0 {
      StepsOfMembers(jobs[1..]);
      assert jobs == [jobs[0]] + jobs[1..];
    }
  }

  /** After a successful loop, the steps are the earlier ones and those of the
      jobs. */
  lemma {:induction false} SplitOverSteps(dag: Dag, workflowName: string, st: SplitState, jobs: seq<string>, raw: ODict<seq<string>>)
    requires DictsValid(st)
    requires forall k :: 0 <= k < |jobs| ==> jobs[k] in raw.values
    requires InputsPresent(dag, jobs, raw)
    ensures forall s :: s in SplitOver(dag, workflowName, st, jobs, raw).0.taskDeps.values <==>
      s in st.taskDeps.values || s in StepsOf(jobs)
    decreases |jobs|
  {
    if |jobs| > 0 {
      var deps := raw.values[jobs[0]];
      var rest := jobs[1..];
      InputsPresentCons(dag, jobs, raw);
      SplitStepEffect(dag, workflowName, st, jobs[0], deps);
      var next := SplitStep(dag, workflowName, st, jobs[0], deps).value;
      assert SplitOver(dag, workflowName, next, rest, raw) == SplitOver(dag, workflowName, st, jobs, raw);
      assert forall k :: 0 <= k < |rest| ==> rest[k] in raw.values;
      SplitOverSteps(dag, workflowName, next, rest, raw);
    }
  }

  /** After a successful loop, `tasks_inputs[<workflow>_<step>]` has grown by
      the sources of the step's jobs, in job order. */
  lemma {:induction false} SplitOverInputs(dag: Dag, workflowName: string, st: SplitState, jobs: seq<string>, raw: ODict<seq<string>>, s: string)
    requires DictsValid(st)
    requires forall k :: 0 <= k < |jobs| ==> jobs[k] in raw.values
    requires InputsPresent(dag, jobs, raw)
    ensures AllHaveInputs(dag, jobs)
    ensures Get(SplitOver(dag, workflowName, st, jobs, raw).0.inputs, DefineTaskName(workflowName, s))
      == Get(st.inputs, DefineTaskName(workflowName, s)) + SourcesOfStep(dag, jobs, s)
    decreases |jobs|
  {
    if |jobs| == 0 {
      assert Get(st.inputs, DefineTaskName(workflowName, s)) + SourcesOfStep(dag, jobs, s) == Get(st.inputs, DefineTaskName(workflowName, s)) + [];
    } else {
      SplitStepOk(dag, workflowName, st, jobs[0], raw.values[jobs[0]]);
      var next := SplitStep(dag, workflowName, st, jobs[0], raw.values[jobs[0]]).value;
      assert forall k :: 1 <= k < |jobs| ==> jobs[1..][k - 1] == jobs[k];
      SplitOverInputs(dag, workflowName, next, jobs[1..], raw, s);
      var step := GetTaskByJobName(jobs[0]);
      var src := FirstInput(dag, jobs[0]).value.srcUri;
      GetAppend(st.inputs, DefineTaskName(workflowName, step), src, DefineTaskName(workflowName, s), SourcesOfStep(dag, jobs[1..], s));
      if DefineTaskName(workflowName, step) == DefineTaskName(workflowName, s) {
        DefineTaskNameInjective(workflowName, step, s);
      }
    }
  }

  /** After a successful loop, every job's input file is a key of its step's
      dictionary. */
  lemma {:induction false} SplitOverJobsPresent(dag: Dag, workflowName: string, st: SplitState, jobs: seq<string>, raw: ODict<seq<string>>)
    requires DictsValid(st)
    requires forall k :: 0 <= k < |jobs| ==> jobs[k] in raw.values
    requires InputsPresent(dag, jobs, raw)
    ensures forall k :: 0 <= k < |jobs| ==>
      FirstInput(dag, jobs[k]).value.name in JobsOf(SplitOver(dag, workflowName, st, jobs, raw).0.taskDeps, GetTaskByJobName(jobs[k])).values
    decreases |jobs|
  {
    if |jobs| > 0 {
      var deps := raw.values[jobs[0]];
      var rest := jobs[1..];
      InputsPresentCons(dag, jobs, raw);
      SplitStepEffect(dag, workflowName, st, jobs[0], deps);
      var next := SplitStep(dag, workflowName, st, jobs[0], deps).value;
      var r := SplitOver(dag, workflowName, next, rest, raw).0;
      assert r == SplitOver(dag, workflowName, st, jobs, raw).0;
      assert forall k :: 0 <= k < |rest| ==> rest[k] in raw.values;
      assert forall k :: 0 <= k < |rest| ==>
        FirstInput(dag, rest[k]).value.name in JobsOf(r.taskDeps, GetTaskByJobName(rest[k])).values
      by {
        SplitOverJobsPresent(dag, workflowName, next, rest, raw);
      }
      var step0 := GetTaskByJobName(jobs[0]);
      var name0 := FirstInput(dag, jobs[0]).value.name;
      assert name0 in JobsOf(r.taskDeps, step0).values by {
        assert name0 in JobsOf(next.taskDeps, step0).values;
        SplitOverKeepsKeys(dag, workflowName, next, rest, raw);
      }
      forall k | 0 <= k < |jobs| ensures FirstInput(dag, jobs[k]).value.name in JobsOf(r.taskDeps, GetTaskByJobName(jobs[k])).values {
        if k > 0 {
          assert jobs[k] == rest[k - 1];
        }
      }
    }
  }

  /** After a successful loop, an entry of a step's dictionary is either an
      earlier one, unchanged, or the grouped dependencies of a job of that
      step with that input file (the last such job). */
  lemma {:induction false} SplitOverJobOrigin(dag: Dag, workflowName: string, st: SplitState, jobs: seq<string>, raw: ODict<seq<string>>, s: string, f: string)
    requires DictsValid(st)
    requires forall k :: 0 <= k < |jobs| ==> jobs[k] in raw.values
    requires InputsPresent(dag, jobs, raw)
    requires f in JobsOf(SplitOver(dag, workflowName, st, jobs, raw).0.taskDeps, s).values
    ensures (f in JobsOf(st.taskDeps, s).values &&
        JobsOf(SplitOver(dag, workflowName, st, jobs, raw).0.taskDeps, s).values[f] == JobsOf(st.taskDeps, s).values[f]) ||
      exists k :: 0 <= k < |jobs| && GetTaskByJobName(jobs[k]) == s && FirstInput(dag, jobs[k]).value.name == f &&
        GroupDeps(dag, workflowName, Empty(), raw.values[jobs[k]]) == Ok(JobsOf(SplitOver(dag, workflowName, st, jobs, raw).0.taskDeps, s).values[f])
    decreases |jobs|
  {
    if |jobs| > 0 {
      var deps := raw.values[jobs[0]];
      var rest := jobs[1..];
      InputsPresentCons(dag, jobs, raw);
      SplitStepEffect(dag, workflowName, st, jobs[0], deps);
      var next := SplitStep(dag, workflowName, st, jobs[0], deps).value;
      var r := SplitOver(dag, workflowName, next, rest, raw).0;
      assert r == SplitOver(dag, workflowName, st, jobs, raw).0;
      var value := JobsOf(r.taskDeps, s).values[f];
      var step0 := GetTaskByJobName(jobs[0]);
      var name0 := FirstInput(dag, jobs[0]).value.name;
      assert (f in JobsOf(next.taskDeps, s).values && value == JobsOf(next.taskDeps, s).values[f]) ||
        exists k :: 0 <= k < |rest| && GetTaskByJobName(rest[k]) == s && FirstInput(dag, rest[k]).value.name == f &&
          GroupDeps(dag, workflowName, Empty(), raw.values[rest[k]]) == Ok(value)
      by {
        assert forall k :: 0 <= k < |rest| ==> rest[k] in raw.values;
        SplitOverJobOrigin(dag, workflowName, next, rest, raw, s, f);
      }
      if f in JobsOf(next.taskDeps, s).values && value == JobsOf(next.taskDeps, s).values[f] {
        if s == step0 && f == name0 {
          assert GetTaskByJobName(jobs[0]) == s && FirstInput(dag, jobs[0]).value.name == f;
        }
      } else {
        var k :| 0 <= k < |rest| && GetTaskByJobName(rest[k]) == s && FirstInput(dag, rest[k]).value.name == f &&
          GroupDeps(dag, workflowName, Empty(), raw.values[rest[k]]) == Ok(value);
        assert rest[k] == jobs[k + 1];
      }
    }
  }

  /** The loop never removes a step or a job's input file. */
  lemma {:induction false} SplitOverKeepsKeys(dag: Dag, workflowName: string, st: SplitState, jobs: seq<string>, raw: ODict<seq<string>>)
    requires DictsValid(st)
    requires forall k :: 0 <= k < |jobs| ==> jobs[k] in raw.values
    ensures forall s :: s in st.taskDeps.values ==> s in SplitOver(dag, workflowName, st, jobs, raw).0.taskDeps.values
    ensures forall s, f :: f in JobsOf(st.taskDeps, s).values ==> f in JobsOf(SplitOver(dag, workflowName, st, jobs, raw).0.taskDeps, s).values
    decreases |jobs|
  {
    if |jobs| > 0 {
      var deps := raw.values[jobs[0]];
      SplitStepOkIff(dag, workflowName, st, jobs[0], deps);
      if FirstInput(dag, jobs[0]).Ok? && AllHaveInputs(dag, deps) {
        SplitStepOk(dag, workflowName, st, jobs[0], deps);
        var next := SplitStep(dag, workflowName, st, jobs[0], deps).value;
        SplitOverKeepsKeys(dag, workflowName, next, jobs[1..], raw);
      }
    }
  }

  /** One step keeps the state well formed. */
  lemma SplitStepValid(dag: Dag, workflowName: string, st: SplitState, job: string, deps: seq<string>)
    requires SplitValid(workflowName, st)
    requires SplitStep(dag, workflowName, st, job, deps).Ok?
    ensures SplitValid(workflowName, SplitStep(dag, workflowName, st, job, deps).value)
  {
    var file := FirstInput(dag, job).value;
    var groups := GroupDeps(dag, workflowName, Empty(), deps).value;
    GroupDepsNonEmpty(dag, workflowName, Empty(), deps);
    var step := GetTaskByJobName(job);
    var r := SplitStep(dag, workflowName, st, job, deps).value;
    assert JobsOk(JobsOf(st.taskDeps, step));
    assert JobsOk(r.taskDeps.values[step]);
  }

  /** The loop keeps the state well formed, whether or not it raises. */
  lemma {:induction false} SplitOverValid(dag: Dag, workflowName: string, st: SplitState, jobs: seq<string>, raw: ODict<seq<string>>)
    requires SplitValid(workflowName, st)
    requires forall k :: 0 <= k < |jobs| ==> jobs[k] in raw.values
    ensures SplitValid(workflowName, SplitOver(dag, workflowName, st, jobs, raw).0)
    decreases |jobs|
  {
    if |jobs| > 0 {
      var step := SplitStep(dag, workflowName, st, jobs[0], raw.values[jobs[0]]);
      if step.Ok? {
        SplitStepValid(dag, workflowName, st, jobs[0], raw.values[jobs[0]]);
        SplitOverValid(dag, workflowName, step.value, jobs[1..], raw);
      }
    }
  }

  // ---------------------------------------------------------------------------
  // The whole split of a DAG
  // ---------------------------------------------------------------------------

  /** `split_map_over_tasks(create_raw_jobs_dependency_map())` with
      `tasks_inputs` starting as `inputs`. */
  function SplitOfDag(dag: Dag, workflowName: string, inputs: ODict<seq<string>>): (r: (SplitState, Option<Error>))
    requires inputs.Valid()
    ensures SplitValid(workflowName, r.0)
  {
    var raw := RawDependencyMap(dag);
    SplitOverValid(dag, workflowName, SplitState(Empty(), inputs), raw.keys, raw);
    SplitOver(dag, workflowName, SplitState(Empty(), inputs), raw.keys, raw)
  }

  /** The raw map's keys, in order, are the DAG's nodes, each with the sources
      of its in-edges. */
  lemma RawKeys(dag: Dag)
    requires ValidDag(dag)
    ensures forall k :: 0 <= k < |RawDependencyMap(dag).keys| ==>
      RawDependencyMap(dag).keys[k] in Names(dag.nodes) &&
      RawDependencyMap(dag).values[RawDependencyMap(dag).keys[k]] == Preds(dag.edges, RawDependencyMap(dag).keys[k])
    ensures forall n :: n in Names(dag.nodes) ==> n in RawDependencyMap(dag).keys
  {
    RawDependencyMapSpec(dag);
  }

  lemma RawKeyAt(dag: Dag, k: int)
    requires ValidDag(dag) && 0 <= k < |RawDependencyMap(dag).keys|
    ensures RawDependencyMap(dag).keys[k] in Names(dag.nodes)
    ensures RawDependencyMap(dag).values[RawDependencyMap(dag).keys[k]] == Preds(dag.edges, RawDependencyMap(dag).keys[k])
  {
    RawKeys(dag);
  }

  /** Over a whole DAG, the split raises exactly when a node or one of its
      upstream nodes has no input file. */
  lemma SplitOfDagOkIff(dag: Dag, workflowName: string, inputs: ODict<seq<string>>)
    requires ValidDag(dag) && inputs.Valid()
    ensures SplitOfDag(dag, workflowName, inputs).1.None? <==>
      forall n :: n in Names(dag.nodes) ==> FirstInput(dag, n).Ok? && AllHaveInputs(dag, Preds(dag.edges, n))
  {
    var raw := RawDependencyMap(dag);
    var jobs := raw.keys;
    RawKeys(dag);
    SplitOverOkIff(dag, workflowName, SplitState(Empty(), inputs), jobs, raw);
    if SplitOfDag(dag, workflowName, inputs).1.Some? {
      var k :| 0 <= k < |jobs| && !(FirstInput(dag, jobs[k]).Ok? && AllHaveInputs(dag, raw.values[jobs[k]]));
      assert jobs[k] in Names(dag.nodes);
    } else {
      forall n | n in Names(dag.nodes) ensures FirstInput(dag, n).Ok? && AllHaveInputs(dag, Preds(dag.edges, n)) {
        var k :| 0 <= k < |jobs| && jobs[k] == n;
      }
    }
  }

  /** After a successful split of a whole DAG, the steps are exactly the steps
      of the nodes. */
  lemma SplitOfDagSteps(dag: Dag, workflowName: string, inputs: ODict<seq<string>>)
    requires ValidDag(dag) && inputs.Valid()
    requires SplitOfDag(dag, workflowName, inputs).1.None?
    ensures forall s :: s in SplitOfDag(dag, workflowName, inputs).0.taskDeps.values <==>
      exists n :: n in Names(dag.nodes) && GetTaskByJobName(n) == s
  {
    var raw := RawDependencyMap(dag);
    var jobs := raw.keys;
    var steps := SplitOfDag(dag, workflowName, inputs).0.taskDeps.values;
    assert forall s :: s in steps <==> s in StepsOf(jobs) by {
      var st0 := SplitState(Empty(), inputs);
      RawKeys(dag);
      SplitOverOkIff(dag, workflowName, st0, jobs, raw);
      SplitOverSteps(dag, workflowName, st0, jobs, raw);
    }
    assert forall n :: n in jobs <==> n in Names(dag.nodes) by {
      RawKeys(dag);
    }
    StepsOfMembers(jobs);
  }

  /** After a successful split of a whole DAG, each step's task name has gained
      the sources of its nodes' first inputs, in node order. */
  lemma SplitOfDagInputs(dag: Dag, workflowName: string, inputs: ODict<seq<string>>, s: string)
    requires ValidDag(dag) && inputs.Valid()
    requires SplitOfDag(dag, workflowName, inputs).1.None?
    ensures AllHaveInputs(dag, RawDependencyMap(dag).keys)
    ensures Get(SplitOfDag(dag, workflowName, inputs).0.inputs, DefineTaskName(workflowName, s)) ==
      Get(inputs, DefineTaskName(workflowName, s)) + SourcesOfStep(dag, RawDependencyMap(dag).keys, s)
  {
    var raw := RawDependencyMap(dag);
    SplitOverOkIff(dag, workflowName, SplitState(Empty(), inputs), raw.keys, raw);
    SplitOverInputs(dag, workflowName, SplitState(Empty(), inputs), raw.keys, raw, s);
  }

  /** After a successful split of a whole DAG, each job entry of a step holds
      the grouped upstream nodes of a node of that step with that input file. */
  lemma SplitOfDagJobs(dag: Dag, workflowName: string, inputs: ODict<seq<string>>, s: string, f: string)
    requires ValidDag(dag) && inputs.Valid()
    requires SplitOfDag(dag, workflowName, inputs).1.None?
    requires f in JobsOf(SplitOfDag(dag, workflowName, inputs).0.taskDeps, s).values
    ensures exists n :: (n in Names(dag.nodes) && GetTaskByJobName(n) == s && FirstInput(dag, n).Ok? &&
      FirstInput(dag, n).value.name == f &&
      GroupDeps(dag, workflowName, Empty(), Preds(dag.edges, n)) == Ok(JobsOf(SplitOfDag(dag, workflowName, inputs).0.taskDeps, s).values[f]))
  {
    var raw := RawDependencyMap(dag);
    var jobs := raw.keys;
    var st0 := SplitState(Empty(), inputs);
    var r := SplitOfDag(dag, workflowName, inputs).0;
    SplitOverOkIff(dag, workflowName, st0, jobs, raw);
    SplitOverJobOrigin(dag, workflowName, st0, jobs, raw, s, f);
    var k :| 0 <= k < |jobs| && GetTaskByJobName(jobs[k]) == s && FirstInput(dag, jobs[k]).value.name == f &&
      GroupDeps(dag, workflowName, Empty(), raw.values[jobs[k]]) == Ok(JobsOf(r.taskDeps, s).values[f]);
    RawKeyAt(dag, k);
    var n := jobs[k];
    assert n in Names(dag.nodes) && GetTaskByJobName(n) == s && FirstInput(dag, n).Ok? && FirstInput(dag, n).value.name == f;
    assert GroupDeps(dag, workflowName, Empty(), Preds(dag.edges, n)) == Ok(JobsOf(r.taskDeps, s).values[f]);
  }

  // ---------------------------------------------------------------------------
  // Dependency records (add_dependencies)
  // ---------------------------------------------------------------------------

  /** `{"task": ..., "inputname": ..., "available": False}` */
  datatype Dependency = Dependency(task: string, inputname: string, available: bool)

  /** `{"name": ..., "submitted": False, "dependencies": [...]}` */
  datatype JobDependency = JobDependency(name: string, submitted: bool, dependencies: seq<Dependency>)

  /** One record per upstream task, in key order, naming the first file taken
      from that task. */
  function UpstreamRecords(groups: ODict<seq<string>>): (r: seq<Dependency>)
    requires GroupsOk(groups)
    ensures |r| == |groups.keys|
  {
    seq(|groups.keys|, i requires 0 <= i < |groups.keys| => Dependency(groups.keys[i], groups.values[groups.keys[i]][0], false))
  }

  /** One record per job input file of a step, in key order. */
  function JobRecords(jobs: JobDeps): (r: seq<JobDependency>)
    requires JobsOk(jobs)
    ensures |r| == |jobs.keys|
  {
    seq(|jobs.keys|, i requires 0 <= i < |jobs.keys| => JobDependency(jobs.keys[i], false, UpstreamRecords(jobs.values[jobs.keys[i]])))
  }

  /** The dependency records of a job whose upstream jobs are `deps`. */
  function RecordsOf(dag: Dag, workflowName: string, deps: seq<string>): seq<Dependency>
    requires GroupDeps(dag, workflowName, Empty(), deps).Ok?
  {
    GroupDepsNonEmpty(dag, workflowName, Empty(), deps);
    UpstreamRecords(GroupDeps(dag, workflowName, Empty(), deps).value)
  }

  /** Each record names an upstream task of the job and is not yet available. */
  lemma RecordsTask(dag: Dag, workflowName: string, deps: seq<string>, i: int)
    requires GroupDeps(dag, workflowName, Empty(), deps).Ok?
    requires 0 <= i < |RecordsOf(dag, workflowName, deps)|
    ensures !RecordsOf(dag, workflowName, deps)[i].available
    ensures exists k :: 0 <= k < |deps| && UpstreamTask(workflowName, deps[k]) == RecordsOf(dag, workflowName, deps)[i].task
  {
    var g := GroupDeps(dag, workflowName, Empty(), deps).value;
    GroupDepsKeys(dag, workflowName, Empty(), deps);
    assert g.keys[i] in g.values;
  }

  /** Each record names the input file of the first upstream job of its task. */
  lemma RecordsInput(dag: Dag, workflowName: string, deps: seq<string>, i: int)
    requires GroupDeps(dag, workflowName, Empty(), deps).Ok?
    requires 0 <= i < |RecordsOf(dag, workflowName, deps)|
    ensures AllHaveInputs(dag, deps)
    ensures |FilesOfTask(dag, workflowName, deps, RecordsOf(dag, workflowName, deps)[i].task)| > 0
    ensures RecordsOf(dag, workflowName, deps)[i].inputname == FilesOfTask(dag, workflowName, deps, RecordsOf(dag, workflowName, deps)[i].task)[0]
  {
    var g := GroupDeps(dag, workflowName, Empty(), deps).value;
    assert AllHaveInputs(dag, deps) by {
      GroupDepsOkIff(dag, workflowName, Empty(), deps);
    }
    var task := g.keys[i];
    assert task in g.values;
    assert GroupsOk(g) by {
      GroupDepsNonEmpty(dag, workflowName, Empty(), deps);
    }
    var record := RecordsOf(dag, workflowName, deps)[i];
    assert record == Dependency(task, g.values[task][0], false) by {
      RecordAt(g, i);
    }
    assert g.values[task] == FilesOfTask(dag, workflowName, deps, task) by {
      GroupDepsValues(dag, workflowName, Empty(), deps, task);
      var empty: ODict<seq<string>> := Empty();
      assert Get(empty, task) + FilesOfTask(dag, workflowName, deps, task) == FilesOfTask(dag, workflowName, deps, task);
    }
  }

  lemma RecordAt(g: ODict<seq<string>>, i: int)
    requires GroupsOk(g) && 0 <= i < |g.keys|
    ensures g.keys[i] in g.values && |g.values[g.keys[i]]| > 0
    ensures UpstreamRecords(g)[i] == Dependency(g.keys[i], g.values[g.keys[i]][0], false)
  {
  }

  /** Every upstream task of the job has a record, and no task has two. */
  lemma RecordsCover(dag: Dag, workflowName: string, deps: seq<string>)
    requires GroupDeps(dag, workflowName, Empty(), deps).Ok?
    ensures forall k :: 0 <= k < |deps| ==>
      exists i :: 0 <= i < |RecordsOf(dag, workflowName, deps)| && RecordsOf(dag, workflowName, deps)[i].task == UpstreamTask(workflowName, deps[k])
    ensures forall i, j :: 0 <= i < j < |RecordsOf(dag, workflowName, deps)| ==>
      RecordsOf(dag, workflowName, deps)[i].task != RecordsOf(dag, workflowName, deps)[j].task
  {
    var g := GroupDeps(dag, workflowName, Empty(), deps).value;
    GroupDepsKeys(dag, workflowName, Empty(), deps);
    var recs := RecordsOf(dag, workflowName, deps);
    forall k | 0 <= k < |deps| ensures exists i :: 0 <= i < |recs| && recs[i].task == UpstreamTask(workflowName, deps[k]) {
      var t := UpstreamTask(workflowName, deps[k]);
      assert t in g.keys;
      var i :| 0 <= i < |g.keys| && g.keys[i] == t;
      assert recs[i].task == t;
    }
  }

  // ---------------------------------------------------------------------------
  // RubinTask and IDDSWorkflowGenerator
  // ---------------------------------------------------------------------------

  /** The parameters of one PanDA task. `dependencies` is `None` until
      `add_dependencies` fills it. */
  class RubinTask {
    var name: string
    var step: string
    var queue: Option<string>
    var executable: Option<string>
    var maxwalltime: int
    var maxattempt: int
    var lfns: seq<string>
    var localPfns: seq<string>
    var dependencies: Option<seq<JobDependency>>

    constructor(step: string, name: string, queue: Option<string>, lfns: seq<string>, localPfns: seq<string>,
                maxattempt: int, maxwalltime: int, executable: Option<string>)
      ensures this.step == step && this.name == name && this.queue == queue
      ensures this.lfns == lfns && this.localPfns == localPfns
      ensures this.maxattempt == maxattempt && this.maxwalltime == maxwalltime && this.executable == executable
      ensures dependencies.None?
    {
      this.step := step;
      this.name := name;
      this.queue := queue;
      this.lfns := lfns;
      this.localPfns := localPfns;
      this.maxattempt := maxattempt;
      this.maxwalltime := maxwalltime;
      this.executable := executable;
      dependencies := None;
    }
  }

  /** The BPS configuration values the generator reads; an absent
      `maxwalltime` or `maxattempt` takes its default. */
  datatype Config = Config(
    workflowName: string,
    himemSteps: seq<string>,
    computingQueue: Option<string>,
    computingQueueHimem: Option<string>,
    maxwalltime: Option<int>,
    maxattempt: Option<int>)

  const DefaultMaxWalltime: int := 90000
  const DefaultMaxAttempt: int := 5

  class IddsWorkflowGenerator {
    const dag: Dag
    const workflowName: string
    const himemTasks: set<string>
    const computingQueue: Option<string>
    const computingQueueHimem: Option<string>
    const maxwalltime: int
    const maxattempt: int
    var tasksInputs: ODict<seq<string>>

    ghost predicate Valid()
      reads this
    {
      ValidDag(dag) && tasksInputs.Valid()
    }

    constructor(dag: Dag, config: Config)
      requires ValidDag(dag)
      ensures Valid()
      ensures this.dag == dag && workflowName == config.workflowName
      ensures forall s :: s in himemTasks <==> s in config.himemSteps
      ensures computingQueue == config.computingQueue && computingQueueHimem == config.computingQueueHimem
      ensures maxwalltime == (if config.maxwalltime.Some? then config.maxwalltime.value else DefaultMaxWalltime)
      ensures maxattempt == (if config.maxattempt.Some? then config.maxattempt.value else DefaultMaxAttempt)
      ensures tasksInputs == Empty()
    {
      this.dag := dag;
      workflowName := config.workflowName;
      himemTasks := set s | s in config.himemSteps;
      computingQueue := config.computingQueue;
      computingQueueHimem := config.computingQueueHimem;
      maxwalltime := if config.maxwalltime.Some? then config.maxwalltime.value else DefaultMaxWalltime;
      maxattempt := if config.maxattempt.Some? then config.maxattempt.value else DefaultMaxAttempt;
      tasksInputs := Empty();
    }

    /** `pick_non_init_cmdline`: the loop over the nodes. */
    method PickNonInitCmdline() returns (r: Option<string>)
      ensures r == FirstNonInit(dag.nodes)
    {
      var i := 0;
      while i < |dag.nodes|
        invariant 0 <= i <= |dag.nodes|
        invariant FirstNonInit(dag.nodes[i..]) == FirstNonInit(dag.nodes)
      {
        assert dag.nodes[i..][1..] == dag.nodes[i + 1..];
        if dag.nodes[i].name != InitStep {
          return Some(dag.nodes[i].cmdline);
        }
        i := i + 1;
      }
      return None;
    }

    /** `create_raw_jobs_dependency_map`: the edge loop, then `setdefault` for
        each node that is not yet a key. */
    method CreateRawJobsDependencyMap() returns (r: ODict<seq<string>>)
      ensures r == RawDependencyMap(dag)
    {
      var d: ODict<seq<string>> := Empty();
      var i := 0;
      while i < |dag.edges|
        invariant 0 <= i <= |dag.edges|
        invariant d.Valid()
        invariant AddEdges(d, dag.edges[i..]) == AddEdges(Empty(), dag.edges)
      {
        assert dag.edges[i..][1..] == dag.edges[i + 1..];
        var edge := dag.edges[i];
        d := Append(d, edge.1, edge.0);
        i := i + 1;
      }
      assert dag.edges[i..] == [];
      var fromEdges := d.values.Keys;
      var names := Names(dag.nodes);
      var j := 0;
      while j < |names|
        invariant 0 <= j <= |names|
        invariant d.Valid()
        invariant forall v :: v in fromEdges ==> v in d.values
        invariant AddNodes(d, names[j..]) == RawDependencyMap(dag)
      {
        assert names[j..][1..] == names[j + 1..];
        if names[j] !in fromEdges {
          d := SetDefault(d, names[j], []);
        }
        j := j + 1;
      }
      assert names[j..] == [];
      r := d;
    }

    /** `split_dependencies_by_tasks`. */
    method SplitDependenciesByTasks(deps: seq<string>) returns (r: Result<ODict<seq<string>>>)
      ensures r == GroupDeps(dag, workflowName, Empty(), deps)
    {
      var d: ODict<seq<string>> := Empty();
      var i := 0;
      while i < |deps|
        invariant 0 <= i <= |deps|
        invariant d.Valid()
        invariant GroupDeps(dag, workflowName, d, deps[i..]) == GroupDeps(dag, workflowName, Empty(), deps)
      {
        assert deps[i..][1..] == deps[i + 1..];
        var file := FirstInput(dag, deps[i]);
        if file.Err? {
          return Err(file.error);
        }
        d := Append(d, UpstreamTask(workflowName, deps[i]), file.value.name);
        i := i + 1;
      }
      assert deps[i..] == [];
      r := Ok(d);
    }

    /** `split_map_over_tasks`: `tasks_inputs` grows as the jobs are visited
        and keeps what it gained before an exception. */
    method SplitMapOverTasks(raw: ODict<seq<string>>) returns (r: Result<ODict<JobDeps>>)
      requires Valid() && raw.Valid()
      modifies this
      ensures Valid()
      ensures var split := SplitOver(dag, workflowName, SplitState(Empty(), old(tasksInputs)), raw.keys, raw);
        && tasksInputs == split.0.inputs
        && (if split.1.Some? then r == Err(split.1.value) else r == Ok(split.0.taskDeps))
    {
      var taskDeps: ODict<JobDeps> := Empty();
      ghost var st0 := SplitState(Empty(), tasksInputs);
      var jobs := raw.keys;
      var i := 0;
      while i < |jobs|
        invariant 0 <= i <= |jobs|
        invariant Valid() && DictsValid(SplitState(taskDeps, tasksInputs))
        invariant SplitOver(dag, workflowName, SplitState(taskDeps, tasksInputs), jobs[i..], raw) == SplitOver(dag, workflowName, st0, jobs, raw)
      {
        assert jobs[i..][1..] == jobs[i + 1..];
        var job := jobs[i];
        var file := FirstInput(dag, job);
        if file.Err? {
          return Err(file.error);
        }
        var groups := SplitDependenciesByTasks(raw.values[job]);
        if groups.Err? {
          return Err(groups.error);
        }
        var step := GetTaskByJobName(job);
        taskDeps := Put(taskDeps, step, Put(JobsOf(taskDeps, step), file.value.name, groups.value));
        tasksInputs := Append(tasksInputs, DefineTaskName(workflowName, step), file.value.srcUri);
        i := i + 1;
      }
      assert jobs[i..] == [];
      r := Ok(taskDeps);
    }
  
    /** The fields `define_tasks` gives the task of `step`, from the split
        state `st` and the init job's command line. */
    ghost predicate TaskDefined(t: RubinTask, st: SplitState, step: string, initCmd: string)
      reads t
    {
      && t.step == step
      && t.name == DefineTaskName(workflowName, step)
      && t.queue == (if step in himemTasks then computingQueueHimem else computingQueue)
      && t.lfns == JobsOf(st.taskDeps, step).keys
      && t.localPfns == Get(st.inputs, t.name)
      && t.maxattempt == maxattempt
      && t.maxwalltime == maxwalltime
      && t.executable == (if step == InitStep then Some(initCmd) else FirstNonInit(dag.nodes))
    }

    /** `define_tasks`: one new task per step, in step order, then their
        dependency records. The split's exception comes first, then the
        `KeyError` of a DAG without a `pipetaskInit` node. */
    method DefineTasks() returns (r: Result<seq<RubinTask>>)
      requires Valid()
      modifies this
      ensures Valid()
      ensures tasksInputs == SplitOfDag(dag, workflowName, old(tasksInputs)).0.inputs
      ensures SplitOfDag(dag, workflowName, old(tasksInputs)).1.Some? ==> r == Err(SplitOfDag(dag, workflowName, old(tasksInputs)).1.value)
      ensures SplitOfDag(dag, workflowName, old(tasksInputs)).1.None? && FindNode(dag.nodes, InitStep).None? ==> r == Err(KeyError(InitStep))
      ensures r.Ok? <==> SplitOfDag(dag, workflowName, old(tasksInputs)).1.None? && FindNode(dag.nodes, InitStep).Some?
      ensures r.Ok? ==>
        var st := SplitOfDag(dag, workflowName, old(tasksInputs)).0;
        && |r.value| == |st.taskDeps.keys|
        && (forall i :: 0 <= i < |r.value| ==> fresh(r.value[i]))
        && (forall i :: 0 <= i < |r.value| ==>
              TaskDefined(r.value[i], st, st.taskDeps.keys[i], FindNode(dag.nodes, InitStep).value.cmdline))
        && (forall i :: 0 <= i < |r.value| ==>
              r.value[i].dependencies == Some(JobRecords(JobsOf(st.taskDeps, st.taskDeps.keys[i]))))
    {
      var raw := CreateRawJobsDependencyMap();
      var split := SplitMapOverTasks(raw);
      if split.Err? {
        return Err(split.error);
      }
      var taskDeps := split.value;
      var st := SplitState(taskDeps, tasksInputs);
      assert st == SplitOfDag(dag, workflowName, old(tasksInputs)).0;
      var init := FindNode(dag.nodes, InitStep);
      if init.None? {
        return Err(KeyError(InitStep));
      }
      var tasks := TasksOfSteps(st, init.value.cmdline);
      r := Ok(tasks);
    }

    /** The part of `define_tasks` after the split: the tasks of the steps of
        `st`, then their dependency records. */
    method TasksOfSteps(st: SplitState, initCmd: string) returns (tasks: seq<RubinTask>)
      requires SplitValid(workflowName, st)
      ensures |tasks| == |st.taskDeps.keys|
      ensures forall i :: 0 <= i < |tasks| ==> fresh(tasks[i])
      ensures forall i :: 0 <= i < |tasks| ==> TaskDefined(tasks[i], st, st.taskDeps.keys[i], initCmd)
      ensures forall i :: 0 <= i < |tasks| ==> tasks[i].dependencies == Some(JobRecords(JobsOf(st.taskDeps, st.taskDeps.keys[i])))
    {
      var otherCmd := PickNonInitCmdline();
      tasks := NewTasks(st, initCmd, otherCmd);
      AddDependencies(tasks, st.taskDeps);
    }

    /** The loop of `define_tasks`: one new task per step of `st`, in order. */
    method NewTasks(st: SplitState, initCmd: string, otherCmd: Option<string>) returns (tasks: seq<RubinTask>)
      requires SplitValid(workflowName, st)
      requires otherCmd == FirstNonInit(dag.nodes)
      ensures |tasks| == |st.taskDeps.keys|
      ensures forall j :: 0 <= j < |tasks| ==> fresh(tasks[j])
      ensures forall j :: 0 <= j < |tasks| ==> TaskDefined(tasks[j], st, st.taskDeps.keys[j], initCmd)
    {
      tasks := [];
      var i := 0;
      while i < |st.taskDeps.keys|
        invariant 0 <= i <= |st.taskDeps.keys|
        invariant |tasks| == i
        invariant forall j :: 0 <= j < i ==> fresh(tasks[j])
        invariant forall j :: 0 <= j < i ==> TaskDefined(tasks[j], st, st.taskDeps.keys[j], initCmd)
      {
        var step := st.taskDeps.keys[i];
        var name := DefineTaskName(workflowName, step);
        var queue := if step in himemTasks then computingQueueHimem else computingQueue;
        var executable := if step == InitStep then Some(initCmd) else otherCmd;
        var task := new RubinTask(step, name, queue, st.taskDeps.values[step].keys, st.inputs.values[name],
                                  maxattempt, maxwalltime, executable);
        tasks := tasks + [task];
        i := i + 1;
      }
    }

    /** `add_dependencies`: each task's `dependencies` becomes the records of
        its step's jobs; nothing else of a task changes. */
    method AddDependencies(tasks: seq<RubinTask>, taskDeps: ODict<JobDeps>)
      requires forall i :: 0 <= i < |tasks| ==> tasks[i].step in taskDeps.values && JobsOk(taskDeps.values[tasks[i].step])
      modifies set t | t in tasks
      ensures forall t :: t in tasks ==>
        && t.name == old(t.name) && t.step == old(t.step) && t.queue == old(t.queue)
        && t.executable == old(t.executable) && t.maxwalltime == old(t.maxwalltime) && t.maxattempt == old(t.maxattempt)
        && t.lfns == old(t.lfns) && t.localPfns == old(t.localPfns)
      ensures forall i :: 0 <= i < |tasks| ==> tasks[i].dependencies == Some(JobRecords(taskDeps.values[tasks[i].step]))
    {
      var i := 0;
      while i < |tasks|
        invariant 0 <= i <= |tasks|
        invariant forall t :: t in tasks ==>
          && t.name == old(t.name) && t.step == old(t.step) && t.queue == old(t.queue)
          && t.executable == old(t.executable) && t.maxwalltime == old(t.maxwalltime) && t.maxattempt == old(t.maxattempt)
          && t.lfns == old(t.lfns) && t.localPfns == old(t.localPfns)
        invariant forall j :: 0 <= j < i ==> tasks[j].dependencies == Some(JobRecords(taskDeps.values[tasks[j].step]))
      {
        var task := tasks[i];
        var jobs := taskDeps.values[task.step];
        var dependencies: seq<JobDependency> := [];
        var j := 0;
        while j < |jobs.keys|
          invariant 0 <= j <= |jobs.keys|
          invariant dependencies == JobRecords(jobs)[..j]
        {
          var job := jobs.keys[j];
          dependencies := dependencies + [JobDependency(job, false, UpstreamRecords(jobs.values[job]))];
          j := j + 1;
        }
        assert dependencies == JobRecords(jobs);
        task.dependencies := Some(dependencies);
        i := i + 1;
      }
    }
  }
}
