/** The earlier `PanDAService` and `PandaBpsWmsWorkflow`
    (python/lsst/ctrl/bps/wms/panda/panda_service.py): the hexed command line
    in the runner template, one `DomaLSSTWork` per generated task, the iDDS
    request record, and the cloud paths the task files are copied to. The
    iDDS client, its workflow object and the copies themselves are not
    modelled: the workflow's name, workload id and primary initial
    collection, and the request id the client returns, are inputs. */
module LegacyPandaService {
  import opened Common
  import opened Text
  import opened Codec
  import opened IddsTasks
  import PandaService

  // ---------------------------------------------------------------------------
  // add_decoder_prefix
  // ---------------------------------------------------------------------------

  /** `add_decoder_prefix`: every `_cmd_line_` of the `runner_command`
      template becomes the hexed command line. */
  function AddDecoderPrefix(runnerCommand: string, cmdLine: string): string {
    ReplaceAll(runnerCommand, PandaService.CmdLineMarker, ConvertExecStringToHex(cmdLine))
  }

  /** The template is cut at its markers into marker-free pieces, which the
      command glues with the hex text; that text decodes back to the command
      line; a template without the marker is returned as it is. */
  lemma AddDecoderPrefixSpec(runnerCommand: string, cmdLine: string)
    ensures var pieces := SplitOn(runnerCommand, PandaService.CmdLineMarker);
      && Join(PandaService.CmdLineMarker, pieces) == runnerCommand
      && (forall k :: 0 <= k < |pieces| ==> !Occurs(PandaService.CmdLineMarker, pieces[k]))
      && AddDecoderPrefix(runnerCommand, cmdLine) == Join(ConvertExecStringToHex(cmdLine), pieces)
    ensures DecodeHexCommandLine(ConvertExecStringToHex(cmdLine)) == Ok(cmdLine)
    ensures !Occurs(PandaService.CmdLineMarker, runnerCommand) ==> AddDecoderPrefix(runnerCommand, cmdLine) == runnerCommand
  {
    ReplaceAllSpec(runnerCommand, PandaService.CmdLineMarker, ConvertExecStringToHex(cmdLine));
    CommandLineRoundTrip(cmdLine);
    if !Occurs(PandaService.CmdLineMarker, runnerCommand) {
      ReplaceAbsent(runnerCommand, PandaService.CmdLineMarker, ConvertExecStringToHex(cmdLine));
    }
  }

  // ---------------------------------------------------------------------------
  // submit
  // ---------------------------------------------------------------------------

  /** The `DomaLSSTWork` parameters. */
  datatype LegacyWork = LegacyWork(
    executable: string,
    primaryInputCollection: PandaService.Collection,
    outputCollections: seq<PandaService.Collection>,
    logCollections: seq<PandaService.Collection>,
    dependencyMap: Option<seq<JobDependency>>,
    taskName: string,
    taskQueue: Option<string>)

  /** The work of the task at position `idx`; a task without an executable
      fails in `cmdline.encode()`. */
  function WorkOf(runnerCommand: string, task: RubinTask, idx: nat): Result<LegacyWork>
    reads task
  {
    if task.executable.None? then Err(AttributeError)
    else Ok(LegacyWork(
      AddDecoderPrefix(runnerCommand, task.executable.value),
      PandaService.InputCollection(idx),
      [PandaService.OutputCollection(idx)],
      [],
      task.dependencies,
      task.name,
      task.queue))
  }

  /** The loop of `submit`: one work per generated task, in order, each with
      the collections of its position; the first task without an executable
      stops it with `AttributeError`. */
  method AddWorks(runnerCommand: string, tasks: seq<RubinTask>) returns (r: Result<seq<LegacyWork>>)
    ensures r.Ok? <==> forall i :: 0 <= i < |tasks| ==> tasks[i].executable.Some?
    ensures r.Err? ==> r.error == AttributeError
    ensures r.Ok? ==> |r.value| == |tasks| && forall i :: 0 <= i < |tasks| ==> Ok(r.value[i]) == WorkOf(runnerCommand, tasks[i], i)
  {
    var works: seq<LegacyWork> := [];
    for idx := 0 to |tasks|
      invariant |works| == idx
      invariant forall i :: 0 <= i < idx ==> tasks[i].executable.Some? && Ok(works[i]) == WorkOf(runnerCommand, tasks[i], i)
    {
      var task := tasks[idx];
      var work := WorkOf(runnerCommand, task, idx);
      if work.Err? {
        return Err(AttributeError);
      }
      works := works + [work.value];
    }
    r := Ok(works);
  }

  /** Each work reads its task's executable back from the decoder's hex text
      and has collections no other work has. */
  lemma WorksSpec(runnerCommand: string, tasks: seq<RubinTask>, works: seq<LegacyWork>, i: nat, j: nat)
    requires |works| == |tasks| && forall k :: 0 <= k < |tasks| ==> Ok(works[k]) == WorkOf(runnerCommand, tasks[k], k)
    requires i < |tasks| && j < |tasks| && i != j
    ensures tasks[i].executable.Some?
    ensures works[i].executable == ReplaceAll(runnerCommand, PandaService.CmdLineMarker, ConvertExecStringToHex(tasks[i].executable.value))
    ensures DecodeHexCommandLine(ConvertExecStringToHex(tasks[i].executable.value)) == Ok(tasks[i].executable.value)
    ensures works[i].primaryInputCollection != works[j].primaryInputCollection
    ensures works[i].outputCollections != works[j].outputCollections
    ensures works[i].primaryInputCollection !in works[j].outputCollections
  {
    assert Ok(works[i]) == WorkOf(runnerCommand, tasks[i], i);
    assert Ok(works[j]) == WorkOf(runnerCommand, tasks[j], j);
    CommandLineRoundTrip(tasks[i].executable.value);
    PandaService.CollectionsDistinct(i, j);
    assert works[i].outputCollections[0] != works[j].outputCollections[0];
  }

  datatype RequestType = WorkflowRequest
  datatype RequestStatus = New

  /** The `idds_request` dictionary; the `workflow` object of its metadata is
      not modelled. */
  datatype IddsRequest = IddsRequest(
    scope: string,
    name: string,
    requester: string,
    requestType: RequestType,
    transformTag: string,
    status: RequestStatus,
    priority: int,
    lifetime: int,
    workloadId: Option<int>,
    metadataWorkloadId: Option<int>)

  /** The fields `submit` gives the request record. */
  predicate IsRequestFor(request: IddsRequest, workflowName: string, workloadId: Option<int>, primaryInitWork: Option<PandaService.Collection>) {
    && request.requester == "panda" && request.requestType == WorkflowRequest
    && request.transformTag == "workflow" && request.status == New
    && request.priority == 0 && request.lifetime == 30
    && request.workloadId == workloadId && request.metadataWorkloadId == request.workloadId
    && (primaryInitWork.Some? ==> request.scope == primaryInitWork.value.scope && request.name == primaryInitWork.value.name)
    && (primaryInitWork.None? ==> request.scope == "workflow" && request.name == workflowName)
  }

  /** The request record: a `workflow` request by `panda` with priority 0 and
      lifetime 30, whose workload id is the one in its metadata; its scope and
      name are those of the primary initial collection when there is one, and
      `workflow` and the workflow's name otherwise. */
  method BuildRequest(workflowName: string, workloadId: Option<int>, primaryInitWork: Option<PandaService.Collection>)
    returns (request: IddsRequest)
    ensures request.requester == "panda" && request.requestType == WorkflowRequest
    ensures request.transformTag == "workflow" && request.status == New
    ensures request.priority == 0 && request.lifetime == 30
    ensures request.workloadId == workloadId && request.metadataWorkloadId == request.workloadId
    ensures primaryInitWork.Some? ==> request.scope == primaryInitWork.value.scope && request.name == primaryInitWork.value.name
    ensures primaryInitWork.None? ==> request.scope == "workflow" && request.name == workflowName
  {
    request := IddsRequest("workflow", workflowName, "panda", WorkflowRequest, "workflow", New, 0, 30, workloadId, workloadId);
    if primaryInitWork.Some? {
      request := request.(scope := primaryInitWork.value.scope);
      request := request.(name := primaryInitWork.value.name);
    }
  }

  // ---------------------------------------------------------------------------
  // PandaBpsWmsWorkflow
  // ---------------------------------------------------------------------------

  /** The BPS workflow: its name, the tasks the generator defined (`None`
      until `from_generic_workflow` sets them) and the run id `submit` sets. */
  class PandaBpsWmsWorkflow {
    const name: string
    var generatedTasks: Option<seq<RubinTask>>
    var runId: Option<int>

    constructor(name: string)
      ensures this.name == name && generatedTasks == None && runId == None
    {
      this.name := name;
      generatedTasks := None;
      runId := None;
    }
  }

  /** `submit`. The client workflow's name, workload id and primary initial
      collection, and the id `add_request` returns, are inputs. A workflow
      whose tasks were never set cannot be enumerated (`TypeError`); otherwise
      the works are built first and, when they are, the request is made and
      the run id is set. */
  method Submit(workflow: PandaBpsWmsWorkflow, runnerCommand: string, clientName: string, workloadId: Option<int>,
                primaryInitWork: Option<PandaService.Collection>, requestId: int)
    returns (works: seq<LegacyWork>, request: Result<IddsRequest>)
    modifies workflow
    ensures workflow.generatedTasks == old(workflow.generatedTasks)
    ensures workflow.generatedTasks.None? ==> request == Err(TypeError)
    ensures workflow.generatedTasks.Some? ==>
      (request.Ok? <==> forall i :: 0 <= i < |workflow.generatedTasks.value| ==> workflow.generatedTasks.value[i].executable.Some?)
    ensures workflow.generatedTasks.Some? && request.Err? ==> request.error == AttributeError
    ensures request.Ok? ==>
      && workflow.generatedTasks.Some?
      && |works| == |workflow.generatedTasks.value|
      && (forall i :: 0 <= i < |works| ==> Ok(works[i]) == WorkOf(runnerCommand, workflow.generatedTasks.value[i], i))
      && IsRequestFor(request.value, clientName, workloadId, primaryInitWork)
      && workflow.runId == Some(requestId)
    ensures request.Err? ==> workflow.runId == old(workflow.runId)
  {
    if workflow.generatedTasks.None? {
      return [], Err(TypeError);
    }
    var built := AddWorks(runnerCommand, workflow.generatedTasks.value);
    if built.Err? {
      return [], Err(built.error);
    }
    works := built.value;
    var req := BuildRequest(clientName, workloadId, primaryInitWork);
    request := Ok(req);
    workflow.runId := Some(requestId);
  }

  // ---------------------------------------------------------------------------
  // from_generic_workflow: the cloud paths
  // ---------------------------------------------------------------------------

  /** `config['bucket'] + '/' + config['payload_folder'] + '/' + config['workflowName'] + '/'`. */
  function CloudPrefix(bucket: string, payloadFolder: string, workflowName: string): string {
    bucket + "/" + payloadFolder + "/" + workflowName + "/"
  }

  /** The prefix is a directory path: it ends with `/` and its components are
      the bucket's, then the payload folder, then the workflow name. */
  lemma CloudPrefixSpec(bucket: string, payloadFolder: string, workflowName: string)
    requires '/' !in payloadFolder && '/' !in workflowName
    ensures var p := CloudPrefix(bucket, payloadFolder, workflowName);
      |p| > 0 && p[|p| - 1] == '/' && Split(p, '/') == Split(bucket, '/') + [payloadFolder, workflowName, ""]
  {
    var a := bucket + "/" + payloadFolder;
    var b := a + "/" + workflowName;
    SplitSnoc(bucket, payloadFolder, '/');
    assert a == bucket + ['/'] + payloadFolder;
    SplitSnoc(a, workflowName, '/');
    assert b == a + ['/'] + workflowName;
    SplitSnoc(b, "", '/');
    assert b + "/" == b + ['/'] + "";
  }

  /** Every local file of every task, task after task. */
  function AllLocalPfns(tasks: seq<RubinTask>): seq<string>
    reads set t | t in tasks
    decreases |tasks|
  {
    if |tasks| == 0 then []
    else AllLocalPfns(tasks[..|tasks| - 1]) + tasks[|tasks| - 1].localPfns
  }

  /** The copy a source path gets: the prefix joined with its basename. */
  function CopyTarget(cloudPrefix: string, src: string): string {
    cloudPrefix + Basename(src)
  }

  /** The target of a copy keeps the source's file name and lies directly
      under the prefix. */
  lemma CopyTargetSpec(cloudPrefix: string, src: string)
    requires |cloudPrefix| > 0 && cloudPrefix[|cloudPrefix| - 1] == '/'
    ensures Basename(CopyTarget(cloudPrefix, src)) == Basename(src)
    ensures CopyTarget(cloudPrefix, src)[..|cloudPrefix|] == cloudPrefix
  {
    BasenameSpec(src);
    BasenameAfterSlash(cloudPrefix, Basename(src));
  }

  lemma BasenameAfterSlash(dir: string, name: string)
    requires |dir| > 0 && dir[|dir| - 1] == '/' && '/' !in name
    ensures Basename(dir + name) == name
  {
    var path := dir + name;
    assert path[|dir| - 1] == '/';
    assert forall j :: |dir| <= j < |path| ==> path[j] == name[j - |dir|];
    NameStartAt(path, |path|, |dir|);
    assert path[|dir|..] == name;
  }

  /** The `(source, target)` copies of a list of source paths. */
  function CopyPlan(cloudPrefix: string, srcs: seq<string>): seq<(string, string)>
    decreases |srcs|
  {
    if |srcs| == 0 then []
    else
      var last := srcs[|srcs| - 1];
      CopyPlan(cloudPrefix, srcs[..|srcs| - 1]) + [(last, CopyTarget(cloudPrefix, last))]
  }

  /** One copy per source path, in order, each to its target. */
  lemma {:induction false} CopyPlanSpec(cloudPrefix: string, srcs: seq<string>)
    ensures |CopyPlan(cloudPrefix, srcs)| == |srcs|
    ensures forall i :: 0 <= i < |srcs| ==> CopyPlan(cloudPrefix, srcs)[i] == (srcs[i], CopyTarget(cloudPrefix, srcs[i]))
    decreases |srcs|
  {
    if |srcs| > 0 {
      var init := srcs[..|srcs| - 1];
      CopyPlanSpec(cloudPrefix, init);
      assert forall i :: 0 <= i < |init| ==> init[i] == srcs[i];
    }
  }

  /** `copy_pickles_into_cloud`, without the transfer: each local file, in
      order, goes to the prefix joined with its basename. */
  method CopyPicklesIntoCloud(localPfns: seq<string>, cloudPrefix: string) returns (copies: seq<(string, string)>)
    ensures copies == CopyPlan(cloudPrefix, localPfns)
  {
    copies := [];
    for j := 0 to |localPfns|
      invariant copies == CopyPlan(cloudPrefix, localPfns[..j])
    {
      var src := localPfns[j];
      assert localPfns[..j + 1][..j] == localPfns[..j];
      copies := copies + [(src, CopyTarget(cloudPrefix, src))];
    }
    assert localPfns[..|localPfns|] == localPfns;
  }

  lemma {:induction false} CopyPlanAppend(cloudPrefix: string, a: seq<string>, b: seq<string>)
    ensures CopyPlan(cloudPrefix, a + b) == CopyPlan(cloudPrefix, a) + CopyPlan(cloudPrefix, b)
    decreases |b|
  {
    if |b| == 0 {
      assert a + b == a;
    } else {
      var init, last := b[..|b| - 1], b[|b| - 1];
      var copy := (last, CopyTarget(cloudPrefix, last));
      assert (a + b)[..|a + b| - 1] == a + init;
      assert (a + b)[|a + b| - 1] == last;
      assert CopyPlan(cloudPrefix, a + b) == CopyPlan(cloudPrefix, a + init) + [copy];
      assert CopyPlan(cloudPrefix, b) == CopyPlan(cloudPrefix, init) + [copy];
      CopyPlanAppend(cloudPrefix, a, init);
    }
  }

  /** The loop of `from_generic_workflow` over the generated tasks. */
  method CopyTaskFiles(tasks: seq<RubinTask>, cloudPrefix: string) returns (copies: seq<(string, string)>)
    ensures copies == CopyPlan(cloudPrefix, AllLocalPfns(tasks))
  {
    copies := [];
    for t := 0 to |tasks|
      invariant copies == CopyPlan(cloudPrefix, AllLocalPfns(tasks[..t]))
    {
      var more := CopyPicklesIntoCloud(tasks[t].localPfns, cloudPrefix);
      assert tasks[..t + 1][..t] == tasks[..t];
      CopyPlanAppend(cloudPrefix, AllLocalPfns(tasks[..t]), tasks[t].localPfns);
      copies := copies + more;
    }
    assert tasks[..|tasks|] == tasks;
  }

  /** `from_generic_workflow`: the generator defines the tasks, and each local
      file of each task, in order, is to be copied under the cloud prefix.
      The copies are returned as `(source, target)` pairs. */
  method FromGenericWorkflow(name: string, dag: Dag, config: Config, bucket: string, payloadFolder: string)
    returns (workflow: PandaBpsWmsWorkflow, copies: seq<(string, string)>, r: Result<()>)
    requires ValidDag(dag)
    ensures fresh(workflow) && workflow.name == name
    ensures r.Ok? <==> SplitOfDag(dag, config.workflowName, Dicts.Empty()).1.None? && FindNode(dag.nodes, InitStep).Some?
    ensures r.Ok? ==>
      var st := SplitOfDag(dag, config.workflowName, Dicts.Empty()).0;
      && workflow.generatedTasks.Some?
      && |workflow.generatedTasks.value| == |st.taskDeps.keys|
      && forall i :: 0 <= i < |workflow.generatedTasks.value| ==>
        var task := workflow.generatedTasks.value[i];
        && task.step == st.taskDeps.keys[i]
        && task.name == DefineTaskName(config.workflowName, st.taskDeps.keys[i])
        && task.localPfns == Get(st.inputs, task.name)
        && task.executable ==
             (if st.taskDeps.keys[i] == InitStep then Some(FindNode(dag.nodes, InitStep).value.cmdline) else FirstNonInit(dag.nodes))
    ensures r.Ok? ==> copies == CopyPlan(CloudPrefix(bucket, payloadFolder, config.workflowName), AllLocalPfns(workflow.generatedTasks.value))
  {
    workflow := new PandaBpsWmsWorkflow(name);
    var generator := new IddsWorkflowGenerator(dag, config);
    var tasks := generator.DefineTasks();
    copies := [];
    if tasks.Err? {
      return workflow, copies, Err(tasks.error);
    }
    workflow.generatedTasks := Some(tasks.value);
    var prefix := CloudPrefix(bucket, payloadFolder, config.workflowName);
    copies := CopyTaskFiles(tasks.value, prefix);
    r := Ok(());
  }
}
