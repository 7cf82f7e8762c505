/** How `PanDAService` (python/lsst/ctrl/bps/panda/panda_service.py) reads
    the replies of the iDDS client: the `ret[0] == 0 and ret[1][0]` test, the
    request id of a submission, the run reports, the ping status and the
    messages of a retry or an abort. The client calls themselves are not
    modelled; their replies are the inputs. */
module PandaReplies {
  import opened Common
  import opened Text
  import opened Dicts
  import opened PyValue

  // ---------------------------------------------------------------------------
  // States
  // ---------------------------------------------------------------------------

  /** The states of `lsst.ctrl.bps.WmsStates`. */
  datatype WmsState = Unknown | Misfit | Unready | Ready | Pending | Running | Deleted | Held | Succeeded | Failed | Pruned

  /** `for state in WmsStates`: every state, in declaration order. */
  const AllWmsStates: seq<WmsState> := [Unknown, Misfit, Unready, Ready, Pending, Running, Deleted, Held, Succeeded, Failed, Pruned]

  lemma AllWmsStatesListed()
    ensures forall s :: s in AllWmsStates
  {
    forall s: WmsState
      ensures s in AllWmsStates
    {
      match s
      case Unknown => assert AllWmsStates[0] == s;
      case Misfit => assert AllWmsStates[1] == s;
      case Unready => assert AllWmsStates[2] == s;
      case Ready => assert AllWmsStates[3] == s;
      case Pending => assert AllWmsStates[4] == s;
      case Running => assert AllWmsStates[5] == s;
      case Deleted => assert AllWmsStates[6] == s;
      case Held => assert AllWmsStates[7] == s;
      case Succeeded => assert AllWmsStates[8] == s;
      case Failed => assert AllWmsStates[9] == s;
      case Pruned => assert AllWmsStates[10] == s;
    }
  }

  /** The iDDS transform states that have a counterpart. */
  const KnownIddsStates: set<string> :=
    {"New", "Ready", "Transforming", "Finished", "SubFinished", "Cancelled", "Suspended", "Failed", "Expired"}

  /** `convert_idds_state_to_wms_state`: total, and each state is the image
      of exactly the iDDS names listed for it. */
  function ConvertIddsStateToWmsState(state: string): (w: WmsState)
    ensures w == Unready <==> state == "New"
    ensures w == Ready <==> state == "Ready"
    ensures w == Running <==> state == "Transforming"
    ensures w == Succeeded <==> state == "Finished" || state == "SubFinished"
    ensures w == Held <==> state == "Cancelled" || state == "Suspended"
    ensures w == Failed <==> state == "Failed" || state == "Expired"
    ensures w == Unknown <==> state !in KnownIddsStates
    ensures w != Misfit && w != Pending && w != Deleted && w != Pruned
  {
    if state in ["New"] then Unready
    else if state in ["Ready"] then Ready
    else if state in ["Transforming"] then Running
    else if state in ["Finished", "SubFinished"] then Succeeded
    else if state in ["Cancelled", "Suspended"] then Held
    else if state in ["Failed", "Expired"] then Failed
    else Unknown
  }

  /** The conversion applied to a reply value: only a string can equal one
      of the listed names. */
  function StateOfValue(v: Value): WmsState {
    if v.Str? then ConvertIddsStateToWmsState(v.s) else Unknown
  }

  // ---------------------------------------------------------------------------
  // The common reply test
  // ---------------------------------------------------------------------------

  /** `ret[0] == 0 and ret[1][0]`, taken as a condition; an error where the
      indexing raises. `ret[1]` is only looked at when the status is zero. */
  function ReplyAccepted(ret: Value): (r: Result<bool>)
    ensures r.Err? ==> !r.error.RuntimeError?
  {
    var status :- GetItem(ret, 0);
    if !IsZero(status) then Ok(false)
    else
      var body :- GetItem(ret, 1);
      var flag :- GetItem(body, 0);
      Ok(Truthy(flag))
  }

  /** A reply is accepted exactly when it is a sequence of at least two items
      whose status is zero and whose second item is a sequence or string
      that starts with a true value. */
  lemma ReplyAcceptedIff(ret: Value)
    ensures ReplyAccepted(ret) == Ok(true) <==>
      && ret.List? && |ret.items| >= 2 && IsZero(ret.items[0])
      && ((ret.items[1].List? && |ret.items[1].items| > 0 && Truthy(ret.items[1].items[0]))
          || (ret.items[1].Str? && |ret.items[1].s| > 0))
  {
    if ret.Str? && |ret.s| > 0 {
      assert GetItem(ret, 0) == Ok(Str([ret.s[0]]));
    }
    if ret.List? && |ret.items| >= 2 && IsZero(ret.items[0]) && ret.items[1].Str? && |ret.items[1].s| > 0 {
      var s := ret.items[1].s;
      assert GetItem(ret.items[1], 0) == Ok(Str([s[0]]));
    }
  }

  /** A non-zero status is a refusal, whatever follows it. */
  lemma NonZeroStatusRefused(status: Value, rest: seq<Value>)
    requires !IsZero(status)
    ensures ReplyAccepted(List([status] + rest)) == Ok(false)
  {
  }

  // ---------------------------------------------------------------------------
  // submit
  // ---------------------------------------------------------------------------

  const SubmitError: string := "Error submitting to PanDA service"

  /** `int(ret[1][-1])`. */
  function ReplyPayloadId(ret: Value): (r: Result<int>)
    ensures r.Err? ==> !r.error.RuntimeError?
  {
    var body :- GetItem(ret, 1);
    var last :- GetItem(body, -1);
    ToInt(last)
  }

  /** The request id of a submission reply: `int(ret[1][-1])` when the reply
      is accepted, `RuntimeError` when it is refused. A `RuntimeError` comes
      from a refusal and from nothing else. */
  function SubmitRequestId(ret: Value): (r: Result<int>)
    ensures r.Ok? ==> ReplyAccepted(ret) == Ok(true)
    ensures r.Err? && r.error.RuntimeError? <==> ReplyAccepted(ret) == Ok(false)
    ensures r.Err? && r.error.RuntimeError? ==> r.error == RuntimeError(SubmitError)
  {
    var accepted :- ReplyAccepted(ret);
    if !accepted then Err(RuntimeError(SubmitError)) else ReplyPayloadId(ret)
  }

  /** The reply shape of the iDDS REST interface, `(0, (True, ..., id))`,
      gives the id back, whether the id comes as a number or as its decimal
      text. */
  lemma SubmitRequestIdOfReply(flag: Value, middle: seq<Value>, id: int)
    requires Truthy(flag)
    ensures SubmitRequestId(List([Int(0), List([flag] + middle + [Int(id)])])) == Ok(id)
    ensures SubmitRequestId(List([Int(0), List([flag] + middle + [Str(IntToString(id))])])) == Ok(id)
  {
    ToIntOfDecimal(id);
    var body := [flag] + middle + [Str(IntToString(id))];
    assert body[|body| - 1] == Str(IntToString(id));
    var body2 := [flag] + middle + [Int(id)];
    assert body2[|body2| - 1] == Int(id);
  }

  // ---------------------------------------------------------------------------
  // report
  // ---------------------------------------------------------------------------

  const ReportError: string := "Error to get workflow status"

  /** The `WmsRunReport` fields that are not constant `None` or `[]`. The
      request and workload ids are kept as the values `str()` is applied to. */
  datatype RunReport = RunReport(
    requestId: Value,
    run: Value,
    project: string,
    campaign: string,
    payload: Value,
    operator: Value,
    state: WmsState,
    totalNumberJobs: Value,
    jobStateCounts: map<WmsState, Value>)

  /** The count dictionary of one request: every state, all zero except the
      processed files (succeeded) and the files being processed (running). */
  function JobStateCounts(processed: Value, processing: Value): (counts: map<WmsState, Value>)
    ensures forall s :: s in counts
    ensures counts[Succeeded] == processed && counts[Running] == processing
    ensures forall s :: s != Succeeded && s != Running ==> counts[s] == Int(0)
  {
    AllWmsStatesListed();
    map s | s in AllWmsStates :: if s == Succeeded then processed else if s == Running then processing else Int(0)
  }

  /** The loop over `WmsStates` and the two assignments after it. */
  method CountJobStates(processed: Value, processing: Value) returns (counts: map<WmsState, Value>)
    ensures counts == JobStateCounts(processed, processing)
  {
    counts := map[];
    var i := 0;
    while i < |AllWmsStates|
      invariant 0 <= i <= |AllWmsStates|
      invariant forall s :: s in counts <==> s in AllWmsStates[..i]
      invariant forall s :: s in counts ==> counts[s] == Int(0)
    {
      counts := counts[AllWmsStates[i] := Int(0)];
      i := i + 1;
    }
    counts := counts[Succeeded := processed];
    counts := counts[Running := processing];
    assert AllWmsStates[..i] == AllWmsStates;
  }

  /** `req["transform_status"]["attributes"]["_name_"]`. */
  function TransformStatusName(req: Value): Result<Value> {
    var status :- Lookup(req, "transform_status");
    var attributes :- Lookup(status, "attributes");
    Lookup(attributes, "_name_")
  }

  /** The keys of a request the report reads after its status, in order. */
  const RequestKeys: seq<string> :=
    ["output_processed_files", "output_processing_files", "request_id", "transform_workload_id", "name", "username", "output_total_files"]

  /** The report of one request. */
  function ReadRequest(req: Value): Result<RunReport> {
    var name :- TransformStatusName(req);
    var processed :- Lookup(req, "output_processed_files");
    var processing :- Lookup(req, "output_processing_files");
    var requestId :- Lookup(req, "request_id");
    var workloadId :- Lookup(req, "transform_workload_id");
    var payload :- Lookup(req, "name");
    var operator :- Lookup(req, "username");
    var total :- Lookup(req, "output_total_files");
    Ok(RunReport(requestId, workloadId, "Rubin", "Rubin", payload, operator, StateOfValue(name), total,
                 JobStateCounts(processed, processing)))
  }

  /** A request reads exactly when its status and every key the report uses
      are present; its state is the converted status and its counts come from
      the processed and processing files. */
  lemma ReadRequestSpec(req: Value)
    ensures var r := ReadRequest(req);
      && (r.Ok? <==> TransformStatusName(req).Ok? && req.Dict? && forall k :: k in RequestKeys ==> k in req.d.values)
      && (r.Ok? ==>
        && r.value.state == StateOfValue(TransformStatusName(req).value)
        && r.value.jobStateCounts == JobStateCounts(req.d.values["output_processed_files"], req.d.values["output_processing_files"])
        && r.value.requestId == req.d.values["request_id"]
        && r.value.project == "Rubin" && r.value.campaign == "Rubin")
  {
  }

  /** `f` applied to each item in turn; the first item it fails on ends the
      loop with its error. */
  function MapAll<X, Y>(f: X -> Result<Y>, xs: seq<X>): (r: Result<seq<Y>>)
    ensures r.Ok? <==> forall i :: 0 <= i < |xs| ==> f(xs[i]).Ok?
    ensures r.Ok? ==> |r.value| == |xs| && forall i :: 0 <= i < |xs| ==> f(xs[i]) == Ok(r.value[i])
    decreases |xs|
  {
    if |xs| == 0 then Ok([])
    else
      var first :- f(xs[0]);
      var rest :- MapAll(f, xs[1..]);
      assert forall i :: 1 <= i < |xs| ==> xs[1..][i - 1] == xs[i];
      Ok([first] + rest)
  }

  lemma {:induction false} MapAllFails<X, Y>(f: X -> Result<Y>, xs: seq<X>, i: nat)
    requires i < |xs| && f(xs[i]).Err?
    requires forall k :: 0 <= k < i ==> f(xs[k]).Ok?
    ensures MapAll(f, xs) == Err(f(xs[i]).error)
    decreases i
  {
    if i > 0 {
      var rest := xs[1..];
      assert rest[i - 1] == xs[i];
      forall k | 0 <= k < i - 1
        ensures f(rest[k]).Ok?
      {
        assert rest[k] == xs[k + 1];
      }
      MapAllFails(f, rest, i - 1);
      assert f(xs[0]).Ok?;
    }
  }

  lemma MapAllOk<X, Y>(f: X -> Result<Y>, xs: seq<X>, ys: seq<Y>)
    requires |ys| == |xs|
    requires forall k :: 0 <= k < |xs| ==> f(xs[k]) == Ok(ys[k])
    ensures MapAll(f, xs) == Ok(ys)
  {
    var r := MapAll(f, xs);
    assert r.Ok?;
    assert forall k :: 0 <= k < |xs| ==> Ok(r.value[k]) == Ok(ys[k]);
    assert r.value == ys;
  }

  /** The reports of the requests in turn; the first request that cannot be
      read ends the loop with its error. */
  function ReadRequests(reqs: seq<Value>): (r: Result<seq<RunReport>>)
    ensures r.Ok? <==> forall i :: 0 <= i < |reqs| ==> ReadRequest(reqs[i]).Ok?
    ensures r.Ok? ==> |r.value| == |reqs| && forall i :: 0 <= i < |reqs| ==> ReadRequest(reqs[i]) == Ok(r.value[i])
  {
    MapAll(ReadRequest, reqs)
  }

  /** `req["transform_status"]...` up to `WmsRunReport(**report)` for one
      request, with the count dictionary built by its loop. */
  method ReadRequestRecord(req: Value) returns (r: Result<RunReport>)
    ensures r == ReadRequest(req)
  {
    var checked := ReadRequest(req);
    ReadRequestSpec(req);
    if checked.Err? {
      return checked;
    }
    var name := TransformStatusName(req).value;
    var values := req.d.values;
    var counts := CountJobStates(values["output_processed_files"], values["output_processing_files"]);
    r := Ok(RunReport(values["request_id"], values["transform_workload_id"], "Rubin", "Rubin",
                      values["name"], values["username"], StateOfValue(name), values["output_total_files"], counts));
  }

  /** `ret[1][1]`, iterated. */
  function RequestList(ret: Value): (r: Result<seq<Value>>)
    ensures r.Err? ==> !r.error.RuntimeError?
  {
    var body :- GetItem(ret, 1);
    var reqs :- GetItem(body, 1);
    Iterate(reqs)
  }

  /** `report`: one run report per request of an accepted reply;
      `RuntimeError` for a refused reply and for an empty request list. */
  function ReportRuns(ret: Value): Result<seq<RunReport>> {
    var accepted :- ReplyAccepted(ret);
    if !accepted then Err(RuntimeError(ReportError))
    else
      var reqs :- RequestList(ret);
      var runs :- ReadRequests(reqs);
      if |runs| == 0 then Err(RuntimeError(ReportError)) else Ok(runs)
  }

  /** The loop of `report`, reading one request at a time. */
  method ReadRequestRecords(reqs: seq<Value>) returns (r: Result<seq<RunReport>>)
    ensures r == ReadRequests(reqs)
  {
    var runs: seq<RunReport> := [];
    for i := 0 to |reqs|
      invariant |runs| == i
      invariant forall k :: 0 <= k < i ==> ReadRequest(reqs[k]) == Ok(runs[k])
    {
      var report := ReadRequestRecord(reqs[i]);
      if report.Err? {
        MapAllFails(ReadRequest, reqs, i);
        return Err(report.error);
      }
      runs := runs + [report.value];
    }
    MapAllOk(ReadRequest, reqs, runs);
    return Ok(runs);
  }

  /** `report`: the runs of an accepted reply, `success` set once a request
      has been read. */
  method Report(ret: Value) returns (r: Result<seq<RunReport>>)
    ensures r == ReportRuns(ret)
  {
    var accepted := ReplyAccepted(ret);
    if accepted.Err? {
      return Err(accepted.error);
    }
    var runs: seq<RunReport> := [];
    var success := false;
    if accepted.value {
      var listed := RequestList(ret);
      if listed.Err? {
        return Err(listed.error);
      }
      var read := ReadRequestRecords(listed.value);
      if read.Err? {
        return Err(read.error);
      }
      runs := read.value;
      success := |runs| > 0;
    }
    if !success {
      return Err(RuntimeError(ReportError));
    }
    return Ok(runs);
  }

  /** An accepted reply with no request is reported as an error, as is a
      refused one. */
  lemma ReportNeedsRequests(ret: Value)
    requires ReplyAccepted(ret) == Ok(false) || (ReplyAccepted(ret) == Ok(true) && RequestList(ret) == Ok([]))
    ensures ReportRuns(ret) == Err(RuntimeError(ReportError))
  {
  }

  /** A report lists one run per request of an accepted reply; each run's
      state is the converted transform status and its counts are zero except
      for the succeeded and running states. */
  lemma ReportRunsSpec(ret: Value)
    requires ReportRuns(ret).Ok?
    ensures ReplyAccepted(ret) == Ok(true) && RequestList(ret).Ok?
    ensures var reqs := RequestList(ret).value; var runs := ReportRuns(ret).value;
      && |runs| == |reqs| > 0
      && forall i :: 0 <= i < |runs| ==>
           && runs[i].state == StateOfValue(TransformStatusName(reqs[i]).value)
           && (forall s :: s in runs[i].jobStateCounts)
           && (forall s :: s != Succeeded && s != Running ==> runs[i].jobStateCounts[s] == Int(0))
  {
    var reqs := RequestList(ret).value;
    var runs := ReportRuns(ret).value;
    assert ReadRequests(reqs) == Ok(runs);
    forall i | 0 <= i < |runs|
      ensures runs[i].state == StateOfValue(TransformStatusName(reqs[i]).value)
      ensures forall s :: s in runs[i].jobStateCounts
      ensures forall s :: s != Succeeded && s != Running ==> runs[i].jobStateCounts[s] == Int(0)
    {
      assert ReadRequest(reqs[i]) == Ok(runs[i]);
      ReadRequestSpec(reqs[i]);
    }
  }

  // ---------------------------------------------------------------------------
  // ping
  // ---------------------------------------------------------------------------

  const PingError: string := "Error to ping PanDA service"

  /** `"Status" in ret_status and ret_status["Status"] == "OK"` for
      `ret_status = ret[1][1]`. */
  function StatusOk(ret: Value): Result<bool> {
    var body :- GetItem(ret, 1);
    var status :- GetItem(body, 1);
    var present :- Contains(status, "Status");
    if !present then Ok(false)
    else
      var value :- Lookup(status, "Status");
      Ok(value == Str("OK"))
  }

  /** `ping`: nothing when the service answers, `RuntimeError` otherwise. */
  function Ping(ret: Value): Result<()> {
    var accepted :- ReplyAccepted(ret);
    var ok :- if accepted then StatusOk(ret) else Ok(false);
    if ok then Ok(()) else Err(RuntimeError(PingError))
  }

  /** The status part of an accepted ping reply. */
  predicate StatusIsOk(ret: Value) {
    && ret.List? && |ret.items| >= 2
    && ret.items[1].List? && |ret.items[1].items| >= 2
    && var status := ret.items[1].items[1];
    && status.Dict? && "Status" in status.d.values && status.d.values["Status"] == Str("OK")
  }

  /** The ping succeeds exactly when the reply is accepted and `ret[1][1]` is
      a dictionary whose `Status` is `"OK"`: a list or a string that
      contains `"Status"` makes the lookup raise. */
  lemma PingOkIff(ret: Value)
    ensures Ping(ret).Ok? <==> ReplyAccepted(ret) == Ok(true) && StatusIsOk(ret)
  {
    ReplyAcceptedIff(ret);
    if ReplyAccepted(ret) == Ok(true) && ret.items[1].Str? && |ret.items[1].s| >= 2 {
      var s := ret.items[1].s;
      assert GetItem(ret.items[1], 1) == Ok(Str([s[1]]));
    }
  }

  /** A refused reply, or one that names another status, is a `RuntimeError`. */
  lemma PingRefused(ret: Value)
    requires ReplyAccepted(ret) == Ok(false) || (ReplyAccepted(ret) == Ok(true) && StatusOk(ret) == Ok(false))
    ensures Ping(ret) == Err(RuntimeError(PingError))
  {
  }

  // ---------------------------------------------------------------------------
  // restart and cancel
  // ---------------------------------------------------------------------------

  const RetryError: string := "Error to retry workflow"
  const AbortError: string := "Error to abort workflow"

  /** The message kept for one item of the reply: `req[1]` of a tuple or
      list, after `req[0]` is read for the log level; the item itself
      otherwise. */
  function ActionMessage(req: Value): (r: Result<Value>)
    ensures r.Ok? <==> !req.List? || |req.items| >= 2
    ensures r.Err? ==> r.error == IndexError
    ensures r.Ok? ==> r.value == if req.List? then req.items[1] else req
  {
    if req.List? then
      var _ :- GetItem(req, 0);
      GetItem(req, 1)
    else Ok(req)
  }

  function ActionMessages(reqs: seq<Value>): (r: Result<seq<Value>>)
    ensures r.Ok? <==> forall i :: 0 <= i < |reqs| ==> ActionMessage(reqs[i]).Ok?
    ensures r.Err? ==> r.error == IndexError
    ensures r.Ok? ==> |r.value| == |reqs| && forall i :: 0 <= i < |reqs| ==> ActionMessage(reqs[i]) == Ok(r.value[i])
    decreases |reqs|
  {
    if |reqs| == 0 then Ok([])
    else
      var first :- ActionMessage(reqs[0]);
      var rest :- ActionMessages(reqs[1..]);
      assert forall i :: 1 <= i < |reqs| ==> reqs[1..][i - 1] == reqs[i];
      Ok([first] + rest)
  }

  /** The messages of a retry or abort reply. As written (`asWritten`), a
      refused reply yields no message and no error, because `success` starts
      True and is never changed; corrected, it raises `RuntimeError(failure)`. */
  function ActionReplies(ret: Value, failure: string, asWritten: bool): Result<seq<Value>> {
    var accepted :- ReplyAccepted(ret);
    if !accepted then
      if asWritten then Ok([]) else Err(RuntimeError(failure))
    else
      var reqs :- RequestList(ret);
      ActionMessages(reqs)
  }

  /** The loop shared by `restart` and `cancel`. */
  method CollectActionMessages(ret: Value, failure: string, asWritten: bool) returns (r: Result<seq<Value>>)
    ensures r == ActionReplies(ret, failure, asWritten)
  {
    var accepted := ReplyAccepted(ret);
    if accepted.Err? {
      return Err(accepted.error);
    }
    var rets: seq<Value> := [];
    var success := true;
    if accepted.value {
      var listed := RequestList(ret);
      if listed.Err? {
        return Err(listed.error);
      }
      var reqs := listed.value;
      var i := 0;
      while i < |reqs|
        invariant 0 <= i <= |reqs|
        invariant |rets| == i
        invariant forall k :: 0 <= k < i ==> ActionMessage(reqs[k]) == Ok(rets[k])
      {
        var req := reqs[i];
        if req.List? {
          var level := GetItem(req, 0);
          if level.Err? {
            ActionMessagesFails(reqs, i);
            return Err(level.error);
          }
          var message := GetItem(req, 1);
          if message.Err? {
            ActionMessagesFails(reqs, i);
            return Err(message.error);
          }
          rets := rets + [message.value];
        } else {
          rets := rets + [req];
        }
        i := i + 1;
      }
      ActionMessagesAll(reqs, rets);
    } else if !asWritten {
      success := false;
    }
    if !success {
      return Err(RuntimeError(failure));
    }
    return Ok(rets);
  }

  lemma {:induction false} ActionMessagesAll(reqs: seq<Value>, rets: seq<Value>)
    requires |rets| == |reqs|
    requires forall k :: 0 <= k < |reqs| ==> ActionMessage(reqs[k]) == Ok(rets[k])
    ensures ActionMessages(reqs) == Ok(rets)
    decreases |reqs|
  {
    if |reqs| > 0 {
      assert forall k :: 0 <= k < |reqs| - 1 ==> reqs[1..][k] == reqs[k + 1] && rets[1..][k] == rets[k + 1];
      ActionMessagesAll(reqs[1..], rets[1..]);
      assert rets == [rets[0]] + rets[1..];
    }
  }

  lemma {:induction false} ActionMessagesFails(reqs: seq<Value>, i: nat)
    requires i < |reqs| && ActionMessage(reqs[i]).Err?
    requires forall k :: 0 <= k < i ==> ActionMessage(reqs[k]).Ok?
    ensures ActionMessages(reqs) == Err(ActionMessage(reqs[i]).error)
    decreases i
  {
    if i > 0 {
      assert forall k :: 0 <= k < i - 1 ==> reqs[1..][k] == reqs[k + 1];
      ActionMessagesFails(reqs[1..], i - 1);
    }
  }

  /** What `restart` returns: `(True, None, json.dumps(rets))`; the JSON text
      is kept as the list it encodes. */
  datatype RestartOutcome = RestartOutcome(wmsId: Value, runName: Value, messages: seq<Value>)

  /** What `cancel` returns: `(True, json.dumps(rets))`. */
  datatype CancelOutcome = CancelOutcome(deleted: bool, messages: seq<Value>)

  /** `restart`: `asWritten` keeps the source's unreachable `raise`, so a
      refused reply returns success; otherwise it raises as intended. */
  method Restart(ret: Value, asWritten: bool) returns (r: Result<RestartOutcome>)
    ensures r.Ok? <==> ActionReplies(ret, RetryError, asWritten).Ok?
    ensures r.Ok? ==> r.value == RestartOutcome(Bool(true), NoneValue, ActionReplies(ret, RetryError, asWritten).value)
    ensures r.Err? ==> r.error == ActionReplies(ret, RetryError, asWritten).error
  {
    var rets := CollectActionMessages(ret, RetryError, asWritten);
    if rets.Err? {
      return Err(rets.error);
    }
    return Ok(RestartOutcome(Bool(true), NoneValue, rets.value));
  }

  /** `cancel`: `asWritten` keeps the source's unreachable `raise`, so a
      refused reply returns success; otherwise it raises as intended. */
  method Cancel(ret: Value, asWritten: bool) returns (r: Result<CancelOutcome>)
    ensures r.Ok? <==> ActionReplies(ret, AbortError, asWritten).Ok?
    ensures r.Ok? ==> r.value == CancelOutcome(true, ActionReplies(ret, AbortError, asWritten).value)
    ensures r.Err? ==> r.error == ActionReplies(ret, AbortError, asWritten).error
  {
    var rets := CollectActionMessages(ret, AbortError, asWritten);
    if rets.Err? {
      return Err(rets.error);
    }
    return Ok(CancelOutcome(true, rets.value));
  }

  /** Corrected, an action raises `RuntimeError` exactly for a refused reply;
      an accepted reply yields one message per item, `req[1]` for a tuple or
      list. */
  lemma ActionRepliesSpec(ret: Value, failure: string)
    ensures ActionReplies(ret, failure, false) == Err(RuntimeError(failure)) <==> ReplyAccepted(ret) == Ok(false)
    ensures ActionReplies(ret, failure, false).Ok? ==>
      && ReplyAccepted(ret) == Ok(true) && RequestList(ret).Ok?
      && var reqs := RequestList(ret).value; var msgs := ActionReplies(ret, failure, false).value;
      && |msgs| == |reqs|
      && forall i :: 0 <= i < |reqs| ==> msgs[i] == if reqs[i].List? then reqs[i].items[1] else reqs[i]
  {
    if ActionReplies(ret, failure, false).Ok? {
      var reqs := RequestList(ret).value;
      var msgs := ActionReplies(ret, failure, false).value;
      assert ActionMessages(reqs) == Ok(msgs);
      forall i | 0 <= i < |reqs|
        ensures msgs[i] == if reqs[i].List? then reqs[i].items[1] else reqs[i]
      {
        assert ActionMessage(reqs[i]) == Ok(msgs[i]);
      }
    }
  }

  /** As written, a refused reply is taken for success with no message: the
      `RuntimeError` branch of `restart` and `cancel` cannot be reached. */
  lemma RefusedActionAcceptedAsWritten(ret: Value, failure: string)
    requires ReplyAccepted(ret) == Ok(false)
    ensures ActionReplies(ret, failure, true) == Ok([])
    ensures ActionReplies(ret, failure, false) == Err(RuntimeError(failure))
  {
  }

  /** The reply `(1, (False, "error"))` makes `restart` return success. */
  lemma RefusedRetryExample()
    ensures ActionReplies(List([Int(1), List([Bool(false), Str("error")])]), RetryError, true) == Ok([])
    ensures ActionReplies(List([Int(1), List([Bool(false), Str("error")])]), RetryError, false) == Err(RuntimeError(RetryError))
  {
    NonZeroStatusRefused(Int(1), [List([Bool(false), Str("error")])]);
  }
}
