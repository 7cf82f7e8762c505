/** The edge-node command-line decoder of the current plugin
    (`python/lsst/ctrl/bps/panda/edgenode/cmd_line_decoder.py`): it recovers
    the hexed command line, substitutes the `<ENV:...>` and `<FILE:...>`
    placeholders, resolves event-service parameters through the order-id map,
    substitutes the `{key}` data parameters and maps the wait status of the
    payload to the exit code of the wrapper.

    The process environment, the content of the order-id map file and the wait
    status of the payload are parameters; the command line is returned instead
    of being run. */
module EdgeDecoder {
  import opened Common
  import opened Text
  import opened Codec
  import opened Placeholders

  // ---------------------------------------------------------------------------
  // replace_files_placeholders
  // ---------------------------------------------------------------------------

  /** The command line with every `<FILE:key>` replaced by the value of `key`
      in the `k1:v1+k2:v2...` file list. */
  function FilesSubst(cmdLine: string, files: string): Result<string> {
    var m :- FileMap(files);
    Substitute(cmdLine, "FILE", FindPlaceholders(cmdLine, "FILE"), m)
  }

  method ReplaceFilesPlaceholders(cmdLine: string, files: string) returns (r: Result<string>)
    ensures r == FilesSubst(cmdLine, files)
    ensures r.Ok? <==> (FileMap(files).Ok? &&
      forall k :: 0 <= k < |FindPlaceholders(cmdLine, "FILE")| ==> FindPlaceholders(cmdLine, "FILE")[k] in FileMap(files).value)
  {
    var m := ParseFiles(files);
    if m.Err? {
      return Err(m.error);
    }
    r := ReplacePlaceholders(cmdLine, "FILE", m.value);
  }

  /** The file list of one pair `key:value`, no separator in either part,
      turns `<FILE:key>` into `value`. */
  lemma FilePlaceholderReplaced(key: string, value: string)
    requires ':' !in key && '+' !in key && '>' !in key && '\n' !in key
    requires ':' !in value && '+' !in value
    ensures FilesSubst(Placeholder("FILE", key), key + ":" + value) == Ok(value)
  {
    var files := key + ":" + value;
    assert '+' !in files;
    SplitFreePrefix(files, "", '+');
    PairRoundTrip(key, value);
    assert FileMap(files) == KeyValueMap(map[], [files]);
    assert KeyValueMap(map[key := value], []) == Ok(map[key := value]);
    ReplaceSinglePlaceholder("FILE", key, map[key := value]);
  }

  // ---------------------------------------------------------------------------
  // Event-service parameters
  // ---------------------------------------------------------------------------

  /** The order-id map read from JSON: label -> event index -> pseudo file name. */
  type OrderIdMap = map<string, map<string, string>>

  /** An event parameter's label and the index of its event. */
  datatype EventRef = EventRef(taskLabel: string, eventIndex: string)

  /** Python `int(s)`. */
  function IntLiteral(s: string): (r: Result<int>)
    ensures r.Ok? <==> ParseInt(s).Some?
    ensures r.Ok? ==> r.value == ParseInt(s).value
  {
    match ParseInt(s)
    case Some(i) => Ok(i)
    case None => Err(ValueError("invalid literal for int() with base 10: '" + s + "'"))
  }

  /** `label:<prefix>_<base>^<order>`: the label, and `base + order - 1` as text.
      The order is the second `^`-field; it holds no `^`, so the source's second
      split of it changes nothing. */
  function ParseEventParam(param: string): Result<EventRef> {
    var pair :- ParsePair(param);
    var pieces := Split(pair.1, '_');
    if |pieces| < 2 then Err(IndexError)
    else
      var ids := Split(pieces[1], '^');
      if |ids| < 2 then Err(IndexError)
      else
        var base :- IntLiteral(ids[0]);
        var order :- IntLiteral(ids[1]);
        Ok(EventRef(pair.0, IntToString(base + order - 1)))
  }

  lemma IntToStringFree(i: int, c: char)
    requires c != '-' && !IsDigit(c)
    ensures c !in IntToString(i)
  {
  }

  /** The event part `prefix_b^o` splits into its prefix and the two ids. */
  lemma SplitEventIds(prefix: string, b: string, o: string)
    requires '_' !in prefix && '_' !in b && '_' !in o && '^' !in b && '^' !in o
    ensures Split(prefix + ['_'] + (b + ['^'] + o), '_') == [prefix, b + ['^'] + o]
    ensures Split(b + ['^'] + o, '^') == [b, o]
  {
    var ids := b + ['^'] + o;
    assert '_' !in ids;
    SplitFreePrefix(prefix, ids, '_');
    SplitFreePrefix(ids, "", '_');
    SplitFreePrefix(b, o, '^');
    SplitFreePrefix(o, "", '^');
  }

  /** An event parameter built from a label, a prefix and two integers gives
      back the label and the index `base + order - 1`. */
  lemma ParseEventParamOf(taskLabel: string, prefix: string, base: int, order: int)
    requires ':' !in taskLabel && ':' !in prefix && '_' !in prefix
    ensures ParseEventParam(taskLabel + ":" + prefix + "_" + IntToString(base) + "^" + IntToString(order))
      == Ok(EventRef(taskLabel, IntToString(base + order - 1)))
  {
    var b, o := IntToString(base), IntToString(order);
    IntToStringFree(base, ':');
    IntToStringFree(order, ':');
    IntToStringFree(base, '_');
    IntToStringFree(order, '_');
    IntToStringFree(base, '^');
    IntToStringFree(order, '^');
    var ids := b + ['^'] + o;
    var event := prefix + ['_'] + ids;
    var param := taskLabel + ":" + prefix + "_" + b + "^" + o;
    assert param == taskLabel + ":" + event;
    assert ':' !in event;
    PairRoundTrip(taskLabel, event);
    SplitEventIds(prefix, b, o);
    ParseIntToString(base);
    ParseIntToString(order);
  }

  /** What `params_map` holds for one event parameter. */
  datatype EventEntry = EventEntry(eventIndex: string, orderIdMap: map<string, string>)

  /** `ret_status`, `with_events` and `params_map` (an insertion-ordered dict:
      its keys in insertion order, and the entries). */
  datatype EventScan = EventScan(retStatus: bool, withEvents: bool, order: seq<string>, entries: map<string, EventEntry>)

  const EventMarker: string := "eventservice_"

  predicate IsEventParam(param: string) {
    Occurs(EventMarker, param)
  }

  /** The reference names a label of the map and an index of that label. */
  predicate Resolves(ev: EventRef, ids: OrderIdMap) {
    ev.taskLabel in ids && ev.eventIndex in ids[ev.taskLabel]
  }

  /** The parameter parses and its reference resolves. */
  predicate ParamResolves(param: string, ids: OrderIdMap) {
    ParseEventParam(param).Ok? && Resolves(ParseEventParam(param).value, ids)
  }

  /** Python `dict[key] = value` on the key order: a new key goes last. */
  function AddKey(order: seq<string>, key: string): seq<string> {
    if key in order then order else order + [key]
  }

  /** One parameter of the loop of `replace_event_file`. With `asWritten` a
      label the map lacks raises `KeyError` at the `params_map` assignment, as
      the source does; without it the label only clears `ret_status` (see
      `EmptyOrderIdMapRaises`). */
  function ScanStep(st: EventScan, param: string, ids: OrderIdMap, asWritten: bool): Result<EventScan> {
    if !IsEventParam(param) then Ok(st)
    else
      var ev :- ParseEventParam(param);
      var status := st.retStatus && ids != map[] && Resolves(ev, ids);
      if ev.taskLabel in ids then
        Ok(EventScan(status, true, AddKey(st.order, param), st.entries[param := EventEntry(ev.eventIndex, ids[ev.taskLabel])]))
      else if asWritten then Err(KeyError(ev.taskLabel))
      else Ok(EventScan(status, true, st.order, st.entries))
  }

  function ScanFrom(st: EventScan, params: seq<string>, ids: OrderIdMap, asWritten: bool): Result<EventScan>
    decreases |params|
  {
    if |params| == 0 then Ok(st)
    else
      var next :- ScanStep(st, params[0], ids, asWritten);
      ScanFrom(next, params[1..], ids, asWritten)
  }

  /** The order-id map in effect: the JSON content of the file named by
      `orderIdMapFilename` when that name is non-empty and the file exists and
      loads (`onDisk`), otherwise the empty map. */
  function EffectiveOrderIdMap(fileMap: map<string, string>, onDisk: Option<OrderIdMap>): (ids: OrderIdMap)
    ensures ids != map[] ==> "orderIdMapFilename" in fileMap && fileMap["orderIdMapFilename"] != "" && onDisk == Some(ids)
  {
    if "orderIdMapFilename" in fileMap && fileMap["orderIdMapFilename"] != "" && onDisk.Some? then onDisk.value
    else map[]
  }

  const InitialScan := EventScan(true, false, [], map[])

  /** The result of `replace_event_file(params, files)`. */
  function EventFileSpec(params: string, files: string, onDisk: Option<OrderIdMap>, asWritten: bool): Result<EventScan> {
    var fileMap :- FileMap(files);
    ScanFrom(InitialScan, Split(params, '+'), EffectiveOrderIdMap(fileMap, onDisk), asWritten)
  }

  /** `replace_event_file`. */
  method ReplaceEventFile(params: string, files: string, onDisk: Option<OrderIdMap>, asWritten: bool) returns (r: Result<EventScan>)
    ensures r == EventFileSpec(params, files, onDisk, asWritten)
  {
    var retStatus := true;
    var withEvents := false;
    var fileMap := ParseFiles(files);
    if fileMap.Err? {
      return Err(fileMap.error);
    }
    var ids := EffectiveOrderIdMap(fileMap.value, onDisk);
    var order: seq<string> := [];
    var entries: map<string, EventEntry> := map[];
    var paramsList := Split(params, '+');
    var i := 0;
    while i < |paramsList|
      invariant 0 <= i <= |paramsList|
      invariant ScanFrom(EventScan(retStatus, withEvents, order, entries), paramsList[i..], ids, asWritten)
        == EventFileSpec(params, files, onDisk, asWritten)
    {
      assert paramsList[i..][1..] == paramsList[i + 1..];
      var param := paramsList[i];
      if IsEventParam(param) {
        withEvents := true;
        var ev := ParseEventParam(param);
        if ev.Err? {
          return Err(ev.error);
        }
        var taskLabel, eventIndex := ev.value.taskLabel, ev.value.eventIndex;
        if ids == map[] {
          retStatus := false;
        }
        if taskLabel !in ids || eventIndex !in ids[taskLabel] {
          retStatus := false;
        }
        if taskLabel in ids {
          if param !in order {
            order := order + [param];
          }
          entries := entries[param := EventEntry(eventIndex, ids[taskLabel])];
        } else if asWritten {
          return Err(KeyError(taskLabel));
        }
      }
      i := i + 1;
    }
    return Ok(EventScan(retStatus, withEvents, order, entries));
  }

  /** `with_events` is set exactly when some parameter contains `eventservice_`. */
  lemma {:induction false} ScanWithEvents(st: EventScan, params: seq<string>, ids: OrderIdMap, asWritten: bool)
    requires ScanFrom(st, params, ids, asWritten).Ok?
    ensures ScanFrom(st, params, ids, asWritten).value.withEvents
      <==> st.withEvents || exists k :: 0 <= k < |params| && IsEventParam(params[k])
    decreases |params|
  {
    if |params| > 0 {
      var next := ScanStep(st, params[0], ids, asWritten).value;
      ScanWithEvents(next, params[1..], ids, asWritten);
      assert forall k :: 1 <= k < |params| ==> params[1..][k - 1] == params[k];
      if exists k :: 1 <= k < |params| && IsEventParam(params[k]) {
        var k :| 1 <= k < |params| && IsEventParam(params[k]);
        assert IsEventParam(params[1..][k - 1]);
      }
    }
  }

  /** Every event parameter reached by the scan parses; the corrected scan
      fails only on such a parse error, the source's also on an unknown label. */
  lemma {:induction false} ScanOkIff(st: EventScan, params: seq<string>, ids: OrderIdMap, asWritten: bool)
    ensures ScanFrom(st, params, ids, asWritten).Ok? <==>
      forall k :: 0 <= k < |params| && IsEventParam(params[k]) ==>
        ParseEventParam(params[k]).Ok? && (asWritten ==> ParseEventParam(params[k]).value.taskLabel in ids)
    decreases |params|
  {
    if |params| > 0 {
      assert forall k :: 1 <= k < |params| ==> params[1..][k - 1] == params[k];
      var step := ScanStep(st, params[0], ids, asWritten);
      if step.Ok? {
        ScanOkIff(step.value, params[1..], ids, asWritten);
      }
    }
  }

  /** The corrected scan keeps `ret_status` exactly when every event parameter
      names a label and an index of the order-id map. */
  lemma {:induction false} ScanStatus(st: EventScan, params: seq<string>, ids: OrderIdMap)
    requires ScanFrom(st, params, ids, false).Ok?
    ensures ScanFrom(st, params, ids, false).value.retStatus <==>
      st.retStatus && forall k :: 0 <= k < |params| && IsEventParam(params[k]) ==> ParamResolves(params[k], ids)
    decreases |params|
  {
    if |params| > 0 {
      var next := ScanStep(st, params[0], ids, false).value;
      ScanStatus(next, params[1..], ids);
      assert forall k :: 1 <= k < |params| ==> params[1..][k - 1] == params[k];
      if IsEventParam(params[0]) {
        var ev := ParseEventParam(params[0]).value;
        assert Resolves(ev, ids) ==> ids != map[];
      }
    }
  }

  /** The dict invariant of `params_map` and what the replacement loop relies
      on: keys listed once each, every key a non-empty parameter, and, while
      `ret_status` holds, every entry's index present in its label's map. */
  ghost predicate ScanInvariant(st: EventScan) {
    && (forall i, j :: 0 <= i < j < |st.order| ==> st.order[i] != st.order[j])
    && (forall p :: p in st.entries <==> p in st.order)
    && (forall p :: p in st.entries ==> |p| > 0)
    && (st.retStatus ==> forall p :: p in st.entries ==> st.entries[p].eventIndex in st.entries[p].orderIdMap)
  }

  lemma {:induction false} ScanKeepsInvariant(st: EventScan, params: seq<string>, ids: OrderIdMap, asWritten: bool)
    requires ScanInvariant(st)
    requires ScanFrom(st, params, ids, asWritten).Ok?
    ensures ScanInvariant(ScanFrom(st, params, ids, asWritten).value)
    decreases |params|
  {
    if |params| > 0 {
      var next := ScanStep(st, params[0], ids, asWritten).value;
      if IsEventParam(params[0]) {
        assert |params[0]| >= |EventMarker| > 0;
      }
      ScanKeepsInvariant(next, params[1..], ids, asWritten);
    }
  }

  /** Finding: with an empty order-id map (no `orderIdMapFilename`, or a file
      that is missing or fails to load) any event parameter raises `KeyError`
      at the `params_map` assignment, so the `ret_status = False` of the empty
      map check is never returned. */
  lemma EmptyOrderIdMapRaises(st: EventScan, params: seq<string>, k: nat)
    requires k < |params| && IsEventParam(params[k])
    requires forall j :: 0 <= j < |params| && IsEventParam(params[j]) ==> ParseEventParam(params[j]).Ok?
    ensures ScanFrom(st, params, map[], true).Err?
    ensures ScanFrom(st, params, map[], false).Ok?
    ensures !ScanFrom(st, params, map[], false).value.retStatus
  {
    ScanOkIff(st, params, map[], true);
    ScanOkIff(st, params, map[], false);
    ScanStatus(st, params, map[]);
  }

  /** One event parameter and no order-id map: the source raises `KeyError`
      on its label where the corrected scan reports `ret_status` False. */
  lemma EmptyOrderIdMapExample(param: string)
    requires IsEventParam(param) && ParseEventParam(param).Ok?
    ensures ScanFrom(InitialScan, [param], map[], true) == Err(KeyError(ParseEventParam(param).value.taskLabel))
    ensures ScanFrom(InitialScan, [param], map[], false) == Ok(EventScan(false, true, [], map[]))
  {
    var single: seq<string> := [param];
    assert single[1..] == [];
    var next := ScanStep(InitialScan, param, map[], false);
    assert next == Ok(EventScan(false, true, [], map[]));
  }

  lemma OccursInside(a: string, m: string, b: string, p: string)
    requires Occurs(p, m)
    ensures Occurs(p, a + m + b)
  {
    var i :| 0 <= i <= |m| - |p| && OccursAt(m, p, i);
    assert (a + m + b)[|a| + i..|a| + i + |p|] == m[i..i + |p|];
    assert OccursAt(a + m + b, p, |a| + i);
  }

  /** `<label>:eventservice_<base>^<order>`, the shape of an event parameter. */
  function EventParam(taskLabel: string, base: int, order: int): string {
    taskLabel + ":" + EventMarker + IntToString(base) + "^" + IntToString(order)
  }

  lemma EventParamIsEvent(taskLabel: string, base: int, order: int)
    ensures IsEventParam(EventParam(taskLabel, base, order))
  {
    var head, ids := taskLabel + ":", IntToString(base) + "^" + IntToString(order);
    assert EventParam(taskLabel, base, order) == head + EventMarker + ids;
    assert Occurs(EventMarker, EventMarker) by {
      assert OccursAt(EventMarker, EventMarker, 0);
    }
    OccursInside(head, EventMarker, ids, EventMarker);
  }

  lemma EventParamParsed(taskLabel: string, base: int, order: int)
    requires ':' !in taskLabel
    ensures ParseEventParam(EventParam(taskLabel, base, order)) == Ok(EventRef(taskLabel, IntToString(base + order - 1)))
  {
    var prefix := "eventservice";
    assert EventMarker == prefix + "_";
    assert EventParam(taskLabel, base, order) == taskLabel + ":" + prefix + "_" + IntToString(base) + "^" + IntToString(order);
    ParseEventParamOf(taskLabel, prefix, base, order);
  }

  /** An event parameter is recognised as one and parses to its label and
      the index `base + order - 1`. */
  lemma EventParamParses(taskLabel: string, base: int, order: int)
    requires ':' !in taskLabel
    ensures IsEventParam(EventParam(taskLabel, base, order))
    ensures ParseEventParam(EventParam(taskLabel, base, order)) == Ok(EventRef(taskLabel, IntToString(base + order - 1)))
  {
    EventParamIsEvent(taskLabel, base, order);
    EventParamParsed(taskLabel, base, order);
  }

  /** The instance `calexp:eventservice_1^1` of the above, in general form:
      `<label>:eventservice_<base>^<order>` with no order-id map raises
      `KeyError(label)`. */
  lemma EventParamWithoutMapRaises(taskLabel: string, base: int, order: int)
    requires ':' !in taskLabel
    ensures ScanFrom(InitialScan, [EventParam(taskLabel, base, order)], map[], true) == Err(KeyError(taskLabel))
  {
    EventParamParses(taskLabel, base, order);
    EmptyOrderIdMapExample(EventParam(taskLabel, base, order));
  }

  // ---------------------------------------------------------------------------
  // The module body: lines 205-245
  // ---------------------------------------------------------------------------

  /** Every listed event parameter has an entry whose index its map holds. */
  predicate EventsResolved(order: seq<string>, entries: map<string, EventEntry>) {
    forall k :: 0 <= k < |order| ==>
      order[k] in entries && |order[k]| > 0 && entries[order[k]].eventIndex in entries[order[k]].orderIdMap
  }

  /** The pseudo file name an event parameter stands for. */
  function PseudoFileName(e: EventEntry): string
    requires e.eventIndex in e.orderIdMap
  {
    e.orderIdMap[e.eventIndex]
  }

  /** Each event parameter in turn is replaced by its pseudo file name in both
      the command line and the data parameters. */
  function ReplaceEvents(cmdLine: string, data: string, order: seq<string>, entries: map<string, EventEntry>): (string, string)
    requires EventsResolved(order, entries)
    decreases |order|
  {
    if |order| == 0 then (cmdLine, data)
    else
      var pseudo := PseudoFileName(entries[order[0]]);
      ReplaceEvents(ReplaceAll(cmdLine, order[0], pseudo), ReplaceAll(data, order[0], pseudo), order[1..], entries)
  }

  /** Texts in which no listed event parameter occurs are left as they are. */
  lemma {:induction false} ReplaceEventsAbsent(cmdLine: string, data: string, order: seq<string>, entries: map<string, EventEntry>)
    requires EventsResolved(order, entries)
    requires forall k :: 0 <= k < |order| ==> !Occurs(order[k], cmdLine) && !Occurs(order[k], data)
    ensures ReplaceEvents(cmdLine, data, order, entries) == (cmdLine, data)
    decreases |order|
  {
    if |order| > 0 {
      var pseudo := PseudoFileName(entries[order[0]]);
      ReplaceAbsent(cmdLine, order[0], pseudo);
      ReplaceAbsent(data, order[0], pseudo);
      assert forall k :: 1 <= k < |order| ==> order[1..][k - 1] == order[k];
      ReplaceEventsAbsent(cmdLine, data, order[1..], entries);
    }
  }

  /** What the wrapper does: run a command line, or exit with a code. */
  datatype Launch = Run(cmdLine: string) | Exit(code: int)

  lemma ResolvedOfInvariant(st: EventScan)
    requires ScanInvariant(st) && st.retStatus
    ensures EventsResolved(st.order, st.entries)
  {
  }

  /** With `ret_status` true, the events resolve. */
  lemma EventFileSpecResolved(dataParams: string, files: string, onDisk: Option<OrderIdMap>, asWritten: bool)
    requires EventFileSpec(dataParams, files, onDisk, asWritten).Ok?
    requires EventFileSpec(dataParams, files, onDisk, asWritten).value.retStatus
    ensures EventsResolved(EventFileSpec(dataParams, files, onDisk, asWritten).value.order, EventFileSpec(dataParams, files, onDisk, asWritten).value.entries)
  {
    var ids := EffectiveOrderIdMap(FileMap(files).value, onDisk);
    ScanKeepsInvariant(InitialScan, Split(dataParams, '+'), ids, asWritten);
    ResolvedOfInvariant(EventFileSpec(dataParams, files, onDisk, asWritten).value);
  }

  /** Lines 217-234, once the events resolve: the event parameters replaced,
      the data parameters split, the `<FILE:...>` and `{key}` placeholders
      substituted. */
  function LaunchResolved(cmdLine: string, dataParams: string, files: string, scan: EventScan): (r: Result<Launch>)
    requires EventsResolved(scan.order, scan.entries)
    ensures r.Ok? ==> r.value.Run?
  {
    var replaced := ReplaceEvents(cmdLine, dataParams, scan.order, scan.entries);
    var withFiles :- FilesSubst(replaced.0, files);
    var final :- KeyValueSubst(withFiles, Split(replaced.1, '+')[1..]);
    Ok(Run(final))
  }

  /** What the decoder does once the files are delivered, the command line
      decoded and its environment substituted: scan the events, exit 1 on a
      false status, otherwise replace and substitute. */
  function LaunchOfScan(withEnv: string, dataParams: string, files: string, onDisk: Option<OrderIdMap>, asWritten: bool): Result<Launch> {
    var scan :- EventFileSpec(dataParams, files, onDisk, asWritten);
    if !scan.retStatus then Ok(Exit(1))
    else
      EventFileSpecResolved(dataParams, files, onDisk, asWritten);
      LaunchResolved(withEnv, dataParams, files, scan)
  }

  /** The command line the decoder hands to `os.system` for
      `decoder <hex> <data params> <src path> <files> <skip copy>`, with the
      environment and the loaded order-id map as inputs. `deliver_input_files`
      comes first and unpacks every `name:pfn` item of the file list, so a
      malformed list fails before the hex is decoded. `asWritten` selects the
      source's event scan, which raises `KeyError` on a label the order-id map
      lacks, or the corrected one, which makes the decoder exit 1 there. */
  function DecoderRun(hexArg: string, dataParams: string, files: string, env: map<string, string>, onDisk: Option<OrderIdMap>, asWritten: bool): Result<Launch> {
    var delivered :- FileMap(files);
    var decoded :- DecodeHexCommandLine(hexArg);
    var withEnv :- Substitute(decoded, "ENV", FindPlaceholders(decoded, "ENV"), env);
    LaunchOfScan(withEnv, dataParams, files, onDisk, asWritten)
  }

  method RunResolved(cmdLine: string, dataParams: string, files: string, scan: EventScan) returns (r: Result<Launch>)
    requires EventsResolved(scan.order, scan.entries)
    ensures r == LaunchResolved(cmdLine, dataParams, files, scan)
  {
    var order, entries := scan.order, scan.entries;
    var cmd, data := cmdLine, dataParams;
    var i := 0;
    while i < |order|
      invariant 0 <= i <= |order|
      invariant ReplaceEvents(cmd, data, order[i..], entries) == ReplaceEvents(cmdLine, dataParams, order, entries)
    {
      assert order[i..][1..] == order[i + 1..];
      var eventParam := order[i];
      var pseudo := PseudoFileName(entries[eventParam]);
      cmd := ReplaceAll(cmd, eventParam, pseudo);
      data := ReplaceAll(data, eventParam, pseudo);
      i := i + 1;
    }
    var dataList := Split(data, '+');
    var withFiles := ReplaceFilesPlaceholders(cmd, files);
    if withFiles.Err? {
      return Err(withFiles.error);
    }
    var final := SubstituteKeyValues(withFiles.value, dataList[1..]);
    if final.Err? {
      return Err(final.error);
    }
    return Ok(Run(final.value));
  }

  /** The module body, from the delivery of the input files to the command
      line it runs. */
  method RunDecoder(hexArg: string, dataParams: string, files: string, env: map<string, string>, onDisk: Option<OrderIdMap>, asWritten: bool)
    returns (r: Result<Launch>)
    ensures r == DecoderRun(hexArg, dataParams, files, env, onDisk, asWritten)
  {
    var delivered := ParseFiles(files);
    if delivered.Err? {
      return Err(delivered.error);
    }
    var decoded := DecodeHexCommandLine(hexArg);
    if decoded.Err? {
      return Err(decoded.error);
    }
    var withEnv := ReplacePlaceholders(decoded.value, "ENV", env);
    if withEnv.Err? {
      return Err(withEnv.error);
    }
    var scan := ReplaceEventFile(dataParams, files, onDisk, asWritten);
    if scan.Err? {
      return Err(scan.error);
    }
    if !scan.value.retStatus {
      return Ok(Exit(1));
    }
    EventFileSpecResolved(dataParams, files, onDisk, asWritten);
    r := RunResolved(withEnv.value, dataParams, files, scan.value);
  }

  /** The corrected decoder exits with 1 before running anything exactly when
      some event parameter names a label or an index the order-id map lacks. */
  lemma DecoderExitsOnUnresolvedEvent(hexArg: string, dataParams: string, files: string, env: map<string, string>, onDisk: Option<OrderIdMap>)
    requires FileMap(files).Ok?
    requires DecodeHexCommandLine(hexArg).Ok?
    requires Substitute(DecodeHexCommandLine(hexArg).value, "ENV", FindPlaceholders(DecodeHexCommandLine(hexArg).value, "ENV"), env).Ok?
    requires forall k :: 0 <= k < |Split(dataParams, '+')| && IsEventParam(Split(dataParams, '+')[k]) ==> ParseEventParam(Split(dataParams, '+')[k]).Ok?
    ensures DecoderRun(hexArg, dataParams, files, env, onDisk, false) == Ok(Exit(1)) <==>
      exists k :: 0 <= k < |Split(dataParams, '+')| && IsEventParam(Split(dataParams, '+')[k]) &&
        !ParamResolves(Split(dataParams, '+')[k], EffectiveOrderIdMap(FileMap(files).value, onDisk))
  {
    var decoded := DecodeHexCommandLine(hexArg).value;
    var withEnv := Substitute(decoded, "ENV", FindPlaceholders(decoded, "ENV"), env).value;
    assert DecoderRun(hexArg, dataParams, files, env, onDisk, false) == LaunchOfScan(withEnv, dataParams, files, onDisk, false);
    assert LaunchOfScan(withEnv, dataParams, files, onDisk, false) == Ok(Exit(1)) <==>
      exists k :: 0 <= k < |Split(dataParams, '+')| && IsEventParam(Split(dataParams, '+')[k]) &&
        !ParamResolves(Split(dataParams, '+')[k], EffectiveOrderIdMap(FileMap(files).value, onDisk))
    by {
      LaunchOfScanExits(withEnv, dataParams, files, onDisk);
    }
  }

  /** The corrected scan from the start succeeds, and its status is false
      exactly when some event parameter does not resolve. */
  lemma ScanFails(params: seq<string>, ids: OrderIdMap)
    requires forall k :: 0 <= k < |params| && IsEventParam(params[k]) ==> ParseEventParam(params[k]).Ok?
    ensures ScanFrom(InitialScan, params, ids, false).Ok?
    ensures !ScanFrom(InitialScan, params, ids, false).value.retStatus <==>
      exists k :: 0 <= k < |params| && IsEventParam(params[k]) && !ParamResolves(params[k], ids)
  {
    ScanOkIff(InitialScan, params, ids, false);
    ScanStatus(InitialScan, params, ids);
  }

  lemma LaunchOfScanExits(withEnv: string, dataParams: string, files: string, onDisk: Option<OrderIdMap>)
    requires FileMap(files).Ok?
    requires forall k :: 0 <= k < |Split(dataParams, '+')| && IsEventParam(Split(dataParams, '+')[k]) ==> ParseEventParam(Split(dataParams, '+')[k]).Ok?
    ensures LaunchOfScan(withEnv, dataParams, files, onDisk, false) == Ok(Exit(1)) <==>
      exists k :: 0 <= k < |Split(dataParams, '+')| && IsEventParam(Split(dataParams, '+')[k]) &&
        !ParamResolves(Split(dataParams, '+')[k], EffectiveOrderIdMap(FileMap(files).value, onDisk))
  {
    var ps := Split(dataParams, '+');
    var ids := EffectiveOrderIdMap(FileMap(files).value, onDisk);
    var scan := EventFileSpec(dataParams, files, onDisk, false);
    assert scan == ScanFrom(InitialScan, ps, ids, false);
    assert scan.Ok? && (!scan.value.retStatus <==>
      exists k :: 0 <= k < |ps| && IsEventParam(ps[k]) && !ParamResolves(ps[k], ids)) by {
      ScanFails(ps, ids);
    }
    if scan.value.retStatus {
      EventFileSpecResolved(dataParams, files, onDisk, false);
      var launched := LaunchResolved(withEnv, dataParams, files, scan.value);
      assert LaunchOfScan(withEnv, dataParams, files, onDisk, false) == launched;
      assert launched != Ok(Exit(1));
      assert !exists k :: 0 <= k < |ps| && IsEventParam(ps[k]) && !ParamResolves(ps[k], ids);
    } else {
      assert LaunchOfScan(withEnv, dataParams, files, onDisk, false) == Ok(Exit(1));
      assert exists k :: 0 <= k < |ps| && IsEventParam(ps[k]) && !ParamResolves(ps[k], ids);
    }
  }

  /** As written, a parameter whose label the order-id map lacks makes the
      decoder raise (`KeyError`) instead of exiting 1. */
  lemma DecoderRaisesOnUnknownLabel(hexArg: string, dataParams: string, files: string, env: map<string, string>, onDisk: Option<OrderIdMap>, k: nat)
    requires FileMap(files).Ok?
    requires DecodeHexCommandLine(hexArg).Ok?
    requires Substitute(DecodeHexCommandLine(hexArg).value, "ENV", FindPlaceholders(DecodeHexCommandLine(hexArg).value, "ENV"), env).Ok?
    requires forall j :: 0 <= j < |Split(dataParams, '+')| && IsEventParam(Split(dataParams, '+')[j]) ==> ParseEventParam(Split(dataParams, '+')[j]).Ok?
    requires k < |Split(dataParams, '+')| && IsEventParam(Split(dataParams, '+')[k])
    requires ParseEventParam(Split(dataParams, '+')[k]).value.taskLabel !in EffectiveOrderIdMap(FileMap(files).value, onDisk)
    ensures DecoderRun(hexArg, dataParams, files, env, onDisk, true).Err?
  {
    var decoded := DecodeHexCommandLine(hexArg).value;
    var withEnv := Substitute(decoded, "ENV", FindPlaceholders(decoded, "ENV"), env).value;
    var ps := Split(dataParams, '+');
    var ids := EffectiveOrderIdMap(FileMap(files).value, onDisk);
    assert EventFileSpec(dataParams, files, onDisk, true) == ScanFrom(InitialScan, ps, ids, true);
    ScanOkIff(InitialScan, ps, ids, true);
    assert DecoderRun(hexArg, dataParams, files, env, onDisk, true) == LaunchOfScan(withEnv, dataParams, files, onDisk, true);
  }

  /** Both scans agree when every event parameter that parses names a label of
      the map. */
  lemma {:induction false} ScanAgrees(st: EventScan, params: seq<string>, ids: OrderIdMap)
    requires forall k :: 0 <= k < |params| && IsEventParam(params[k]) && ParseEventParam(params[k]).Ok? ==>
      ParseEventParam(params[k]).value.taskLabel in ids
    ensures ScanFrom(st, params, ids, true) == ScanFrom(st, params, ids, false)
    decreases |params|
  {
    if |params| > 0 {
      assert forall k :: 1 <= k < |params| ==> params[1..][k - 1] == params[k];
      var step := ScanStep(st, params[0], ids, true);
      assert step == ScanStep(st, params[0], ids, false);
      if step.Ok? {
        ScanAgrees(step.value, params[1..], ids);
      }
    }
  }

  /** Away from that case the decoder as written and the corrected one do the
      same thing. */
  lemma DecoderAgreesOnKnownLabels(hexArg: string, dataParams: string, files: string, env: map<string, string>, onDisk: Option<OrderIdMap>)
    requires FileMap(files).Ok?
    requires forall k :: 0 <= k < |Split(dataParams, '+')| && IsEventParam(Split(dataParams, '+')[k]) && ParseEventParam(Split(dataParams, '+')[k]).Ok? ==>
      ParseEventParam(Split(dataParams, '+')[k]).value.taskLabel in EffectiveOrderIdMap(FileMap(files).value, onDisk)
    ensures DecoderRun(hexArg, dataParams, files, env, onDisk, true) == DecoderRun(hexArg, dataParams, files, env, onDisk, false)
  {
    assert EventFileSpec(dataParams, files, onDisk, true) == EventFileSpec(dataParams, files, onDisk, false) by {
      ScanAgrees(InitialScan, Split(dataParams, '+'), EffectiveOrderIdMap(FileMap(files).value, onDisk));
    }
    var decoded := DecodeHexCommandLine(hexArg);
    if decoded.Ok? {
      var withEnv := Substitute(decoded.value, "ENV", FindPlaceholders(decoded.value, "ENV"), env);
      if withEnv.Ok? {
        assert LaunchOfScan(withEnv.value, dataParams, files, onDisk, true) == LaunchOfScan(withEnv.value, dataParams, files, onDisk, false);
      }
    }
  }

  /** A plain command line goes through the wrapper unchanged: no placeholder,
      no `{`, and a single data parameter that is not an event parameter. */
  lemma DecoderTransparent(cmdLine: string, dataParam: string, files: string, env: map<string, string>, onDisk: Option<OrderIdMap>, asWritten: bool)
    requires !Occurs(Opening("ENV"), cmdLine) && !Occurs(Opening("FILE"), cmdLine) && '{' !in cmdLine
    requires '+' !in dataParam && !IsEventParam(dataParam)
    requires FileMap(files).Ok?
    ensures DecoderRun(ConvertExecStringToHex(cmdLine), dataParam, files, env, onDisk, asWritten) == Ok(Run(cmdLine))
  {
    CommandLineRoundTrip(cmdLine);
    NoOpeningNoPlaceholders(cmdLine, Opening("ENV"));
    NoOpeningNoPlaceholders(cmdLine, Opening("FILE"));
    SplitFreePrefix(dataParam, "", '+');
    var ids := EffectiveOrderIdMap(FileMap(files).value, onDisk);
    assert ScanFrom(InitialScan, [dataParam], ids, asWritten) == ScanFrom(InitialScan, [], ids, asWritten);
    assert [dataParam][1..] == [];
  }

  // ---------------------------------------------------------------------------
  // Lines 239-245: the exit code of the wrapper
  // ---------------------------------------------------------------------------

  /** The exit code for the wait status `os.system` returns: `128 + signal` when
      the payload was killed by a signal (`WIFSIGNALED`, a low 7-bit field other
      than 0 and 127), its exit status when it exited (`WIFEXITED`, a low field
      of 0; the status is bits 8-15), and 1 otherwise (stopped, or -1 when the
      shell could not be started). `%` and `/` by powers of two are the bit
      masks and shifts of the C macros, for negative statuses too. */
  function ExitCode(status: int): (code: int)
    ensures 0 <= code <= 255
  {
    var low := status % 128;
    if low != 0 && low != 127 then low + 128
    else if low == 0 then (status / 256) % 256
    else 1
  }

  /** A payload that exited with `code` makes the wrapper exit with `code`. */
  lemma ExitCodeOfExit(code: int, highBits: int)
    requires 0 <= code < 256
    ensures ExitCode(highBits * 65536 + code * 256) == code
  {
    var status := highBits * 65536 + code * 256;
    assert status == (highBits * 512 + code * 2) * 128;
    assert status == (highBits * 256 + code) * 256;
  }

  /** A payload killed by `signal`, with or without a core dump, makes the
      wrapper exit with `128 + signal`. */
  lemma ExitCodeOfSignal(signal: int, coreDumped: bool)
    requires 1 <= signal <= 126
    ensures ExitCode(signal + if coreDumped then 128 else 0) == 128 + signal
  {
  }

  /** A stopped payload (low byte 127) or a shell that could not start (-1)
      gives exit code 1. */
  lemma ExitCodeOtherwise(stopSignal: int)
    requires 0 <= stopSignal < 256
    ensures ExitCode(stopSignal * 256 + 127) == 1
    ensures ExitCode(-1) == 1
  {
    assert stopSignal * 256 + 127 == (stopSignal * 2) * 128 + 127;
  }
}
