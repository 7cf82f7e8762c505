# ctrl_bps_panda: the command-line transport and the iDDS bookkeeping

This project models the part of `ctrl_bps_panda` that the LSST Batch
Production Service uses to hand a workflow to PanDA through iDDS. It proves
properties of that model in Dafny. The model covers four pieces:

- **The command-line transport.** The submitting side encodes each
  job's command line as lowercase hexadecimal text over its UTF-8 bytes.
  That is the Base 16 encoding of section 8 of RFC 4648, over UTF-8 as
  defined in RFC 3629. The side then splices the text into the runner
  command. The edge-node decoder reverses this. Both its current and its legacy
  version unhexlify the command line and substitute `<ENV:name>` and
  `{key}` placeholders. The legacy version replaces only
  `<FILE:runQgraphFile>`, by the first data parameter, and prints the
  result instead of running it. The current version also:
  - substitutes every `<FILE:name>` from the file list;
  - resolves event-service parameters through an order-id map;
  - turns the wait status of the launched command into an exit code.
- **`PanDAService`** (current version). It does the following:
  - gathers the files to distribute into a placeholder dictionary and a
    direct-IO set;
  - builds one iDDS work per generated task, with its defaults;
  - adds the final-work condition;
  - reads the `(status, (ok, ..., payload))` replies of submit, report,
    ping, restart and cancel;
  - maps iDDS states to BPS states.
- **The legacy `PanDAService`.** It builds the works and the iDDS
  request record of a submission, and the cloud paths of the pickle files.
- **The legacy `IDDSWorkflowGenerator`.** It translates the BPS DAG into
  PanDA tasks:
  - a node → predecessors map;
  - jobs grouped into tasks by the second `_`-separated field of their name;
  - upstream dependencies grouped per task;
  - dependency records whose `submitted` and `available` flags are false.

The modules follow the program:

- `Common`: error and option types;
- `Text`: Python's `split`, `join`, `replace`, `os.path.basename`, `int`
  and `str`;
- `Codec`: UTF-8 and hex;
- `Dicts`: insertion-ordered dictionaries;
- `PyValue`: the Python values of client replies;
- `Placeholders`: `re.findall` of `<tag:name>`, replacement and `k:v` lists;
- `EdgeDecoder` and `LegacyEdgeDecoder`;
- `IddsTasks`;
- `PandaReplies` and `PandaService`;
- `LegacyPandaService`.

Where the source changes state step by step, the model does too:

- a loop becomes a `method` with invariants, proved against a
  specification function;
- `RubinTask`, `IddsWorkflowGenerator`, `BpsWorkflow` and
  `PandaBpsWmsWorkflow` are classes whose methods update their fields.

## Model

Paths are relative to the repository root.

| member | source | states |
|---|---|---|
| Codec.ConvertExecStringToHex | python/lsst/ctrl/bps/panda/panda_service.py:92 | the output is lowercase hex text, twice as long as the UTF-8 encoding of the command line |
| Codec.CommandLineRoundTrip | python/lsst/ctrl/bps/panda/edgenode/cmd_line_decoder.py:205 | unhexlify-then-decode gives back every command line that `convert_exec_string_to_hex` encoded |
| Codec.CommandLineCanonical | python/lsst/ctrl/bps/panda/panda_service.py:92 | a lowercase hex argument that decodes to a command line is exactly that command line's encoding (the codec is a bijection on its image) |
| Codec.Utf8RoundTrip | python/lsst/ctrl/bps/panda/panda_service.py:92 | UTF-8 decoding inverts `str.encode()` for every string |
| Codec.Utf8Canonical | python/lsst/ctrl/bps/panda/edgenode/cmd_line_decoder.py:205 | bytes that decode as UTF-8 are the encoding of what they decode to |
| Codec.UnhexlifyHexlify | python/lsst/ctrl/bps/panda/edgenode/cmd_line_decoder.py:205 | `unhexlify(hexlify(b)) == b` for all bytes |
| Codec.HexlifyUnhexlify | python/lsst/ctrl/bps/panda/panda_service.py:92 | lowercase hex that unhexlifies is the hexlify of the result |
| Codec.Hexlify | python/lsst/ctrl/bps/wms/panda/panda_service.py:82 | two lowercase hex digits per byte |
| Text.Split | python/lsst/ctrl/bps/panda/edgenode/cmd_line_decoder.py:113 | `str.split(sep)` has at least one part and no part contains the separator |
| Text.JoinSplit | python/lsst/ctrl/bps/panda/edgenode/cmd_line_decoder.py:224 | joining the parts of a split with the separator gives the text back |
| Text.SplitJoin | python/lsst/ctrl/bps/panda/panda_service.py:124-126 | splitting a join of separator-free parts gives the parts back |
| Text.ReplaceAllSpec | python/lsst/ctrl/bps/panda/panda_service.py:118-127 | `str.replace` cuts the text at every occurrence of the pattern into pattern-free pieces and joins them with the replacement; joining with the pattern restores the text |
| Text.ReplaceAbsent | python/lsst/ctrl/bps/wms/panda/panda_service.py:101 | replacing a pattern that does not occur changes nothing |
| Text.BasenameSpec | python/lsst/ctrl/bps/panda/panda_service.py:280 | `os.path.basename` is the slash-free suffix that follows the last `/` |
| Text.ParseIntToString | python/lsst/ctrl/bps/panda/panda_service.py:208 | `int(str(i)) == i` |
| Text.IntToStringInjective | python/lsst/ctrl/bps/panda/panda_service.py:157 | different integers have different decimal texts |
| Dicts.Put | python/lsst/ctrl/bps/panda/panda_service.py:242 | `d[k] = v` keeps insertion order: a new key goes last, an existing one keeps its place |
| Dicts.Append | python/lsst/ctrl/bps/wms/panda/idds_tasks.py:153 | `d.setdefault(k, []).append(x)` extends exactly the list under `k` and leaves every other key alone |
| Dicts.AppendTotal | python/lsst/ctrl/bps/wms/panda/idds_tasks.py:211-212 | each `setdefault(...).append` adds exactly one element to the dictionary's total |
| PyValue.GetItem | python/lsst/ctrl/bps/panda/panda_service.py:207 | `v[i]` on a list succeeds iff the (possibly negative) index is in range, and gives that item |
| PyValue.Lookup | python/lsst/ctrl/bps/panda/panda_service.py:412 | `v[key]` succeeds iff `v` is a dictionary holding `key`; otherwise `KeyError` or `TypeError` |
| PyValue.ToInt | python/lsst/ctrl/bps/panda/panda_service.py:208 | `int(v)` keeps integers, accepts a string iff it is a decimal literal, and raises otherwise |
| Placeholders.FindFrom | python/lsst/ctrl/bps/panda/edgenode/cmd_line_decoder.py:63 | the non-greedy match `(.*?)` never contains `>` or a newline |
| Placeholders.FoundPlaceholdersOccur | python/lsst/ctrl/bps/panda/edgenode/cmd_line_decoder.py:63 | every name found occurs as `<tag:name>` in the command line |
| Placeholders.NoOpeningNoPlaceholders | python/lsst/ctrl/bps/panda/edgenode/cmd_line_decoder.py:63 | without `<tag:` nothing is found |
| Placeholders.PlaceholderFound | python/lsst/ctrl/bps/panda/edgenode/cmd_line_decoder.py:63 | a lone `<tag:name>` yields exactly `[name]` |
| Placeholders.SubstituteFailsIffMissing | python/lsst/ctrl/bps/panda/edgenode/cmd_line_decoder.py:64-73 | the substitution raises `ValueError` iff some found name has no replacement, and then for the first such name |
| Placeholders.ReplacePlaceholders | python/lsst/ctrl/bps/panda/edgenode/cmd_line_decoder.py:63-74 | the loop fixes the names from the original command line; it raises iff a name is missing; a command line without `<tag:` comes back unchanged |
| Placeholders.ReplaceSinglePlaceholder | python/lsst/ctrl/bps/panda/edgenode/cmd_line_decoder.py:65-66 | a lone placeholder becomes its replacement, or raises when it has none |
| Placeholders.ParsePair | python/lsst/ctrl/bps/panda/edgenode/cmd_line_decoder.py:116 | `a, b = s.split(":")` succeeds only for exactly one `:`, and the two halves rebuild the segment |
| Placeholders.PairRoundTrip | python/lsst/ctrl/bps/panda/edgenode/cmd_line_decoder.py:116 | `k + ":" + v` unpacks to `(k, v)` |
| Placeholders.ParseFiles | python/lsst/ctrl/bps/panda/edgenode/cmd_line_decoder.py:113-117 | the loop builds the file dictionary of the `k:v+k:v` text |
| Placeholders.KeyValueMapOkIff | python/lsst/ctrl/bps/panda/edgenode/cmd_line_decoder.py:115-117 | parsing succeeds iff every segment has exactly one `:` |
| Placeholders.KeyValueMapContents | python/lsst/ctrl/bps/panda/edgenode/cmd_line_decoder.py:115-117 | the keys are those of the segments; each key maps to the value of its last segment (a later duplicate overwrites) |
| Placeholders.SubstituteKeyValues | python/lsst/ctrl/bps/panda/edgenode/cmd_line_decoder.py:232-234 | the `{key}` loop succeeds iff every parameter has exactly one `:` |
| Placeholders.KeyValueSubstNoBraces | python/lsst/ctrl/bps/panda/edgenode/cmd_line_decoder.py:232-234 | a command line without `{` is untouched by well-formed parameters |
| Placeholders.KeyValueSubstReplaced | python/lsst/ctrl/bps/panda/edgenode/cmd_line_decoder.py:232-234 | the parameter `k:v` replaces every `{k}` by `v` |
| EdgeDecoder.ReplaceFilesPlaceholders | python/lsst/ctrl/bps/panda/edgenode/cmd_line_decoder.py:113-119 | succeeds iff the file list parses and every `<FILE:name>` has an entry |
| EdgeDecoder.FilePlaceholderReplaced | python/lsst/ctrl/bps/panda/edgenode/cmd_line_decoder.py:113-118 | `<FILE:k>` with the file list `k:v` becomes `v` |
| EdgeDecoder.ParseEventParamOf | python/lsst/ctrl/bps/panda/edgenode/cmd_line_decoder.py:189-193 | for `label:prefix_base^order` the label is read back and the event index is `base + order - 1` |
| EdgeDecoder.EventParamParses | python/lsst/ctrl/bps/panda/edgenode/cmd_line_decoder.py:187-193 | an event-service parameter is recognised and parses to its label and `base + order - 1` |
| EdgeDecoder.EffectiveOrderIdMap | python/lsst/ctrl/bps/panda/edgenode/cmd_line_decoder.py:175-182 | the order-id map is non-empty only if `orderIdMapFilename` is named, non-empty and was loaded |
| EdgeDecoder.ReplaceEventFile | python/lsst/ctrl/bps/panda/edgenode/cmd_line_decoder.py:167-201 | the scan loop computes the event scan of the parameters, as written or corrected |
| EdgeDecoder.ScanWithEvents | python/lsst/ctrl/bps/panda/edgenode/cmd_line_decoder.py:186-188 | `with_events` is true iff some parameter contains `eventservice_` |
| EdgeDecoder.ScanOkIff | python/lsst/ctrl/bps/panda/edgenode/cmd_line_decoder.py:186-200 | the scan raises iff some event parameter is malformed or, as written, names a label missing from the map |
| EdgeDecoder.ScanStatus | python/lsst/ctrl/bps/panda/edgenode/cmd_line_decoder.py:194-198 | `ret_status` stays true iff every event parameter's label and index are in the order-id map |
| EdgeDecoder.ScanKeepsInvariant | python/lsst/ctrl/bps/panda/edgenode/cmd_line_decoder.py:184-200 | every recorded parameter is an event parameter with its index; a true status means all resolve |
| EdgeDecoder.EmptyOrderIdMapRaises | python/lsst/ctrl/bps/panda/edgenode/cmd_line_decoder.py:194-200 | with an empty order-id map and an event parameter, the code as written raises, while the corrected scan returns a false status |
| EdgeDecoder.EventParamWithoutMapRaises | python/lsst/ctrl/bps/panda/edgenode/cmd_line_decoder.py:194-200 | a single event parameter with no order-id map raises `KeyError(label)` as written |
| EdgeDecoder.ReplaceEventsAbsent | python/lsst/ctrl/bps/panda/edgenode/cmd_line_decoder.py:217-222 | replacing events that occur nowhere leaves the command line and the data parameters alone |
| EdgeDecoder.RunResolved | python/lsst/ctrl/bps/panda/edgenode/cmd_line_decoder.py:217-237 | after a successful scan the event replacement, `<FILE:...>` and `{key}` steps give the launched command |
| EdgeDecoder.RunDecoder | python/lsst/ctrl/bps/panda/edgenode/cmd_line_decoder.py:204-237 | the module body in source order: the file list unpacked by `deliver_input_files`, decode, environment, event scan, events, files, key/value; with `asWritten` an unknown event label raises `KeyError` as the source does, otherwise (corrected, see ## Findings) a false status exits 1 |
| EdgeDecoder.DecoderExitsOnUnresolvedEvent | python/lsst/ctrl/bps/panda/edgenode/cmd_line_decoder.py:210-215 | corrected (see ## Findings): the decoder exits with 1 instead of launching iff some event parameter does not resolve |
| EdgeDecoder.DecoderRaisesOnUnknownLabel | python/lsst/ctrl/bps/panda/edgenode/cmd_line_decoder.py:194-200 | as written, an event parameter whose label the order-id map lacks makes the decoder fail instead of exiting 1 |
| EdgeDecoder.ScanAgrees | python/lsst/ctrl/bps/panda/edgenode/cmd_line_decoder.py:186-200 | the source's scan and the corrected one give the same result when every parsed label is in the map |
| EdgeDecoder.DecoderAgreesOnKnownLabels | python/lsst/ctrl/bps/panda/edgenode/cmd_line_decoder.py:194-200 | the decoder as written and the corrected one behave the same unless some label is missing from the map |
| EdgeDecoder.DecoderTransparent | python/lsst/ctrl/bps/panda/edgenode/cmd_line_decoder.py:205-237 | a hexed command line without placeholders, and a plain parameter, launch exactly the original command line |
| EdgeDecoder.ExitCode | python/lsst/ctrl/bps/panda/edgenode/cmd_line_decoder.py:239-245 | the exit code is always in 0..255 |
| EdgeDecoder.ExitCodeOfExit | python/lsst/ctrl/bps/panda/edgenode/cmd_line_decoder.py:243-244 | a normal exit passes its status through |
| EdgeDecoder.ExitCodeOfSignal | python/lsst/ctrl/bps/panda/edgenode/cmd_line_decoder.py:241-242 | death by signal `n` gives `128 + n`, with or without a core dump |
| EdgeDecoder.ExitCodeOtherwise | python/lsst/ctrl/bps/panda/edgenode/cmd_line_decoder.py:240 | a stopped process, or a status `os.system` could not produce, gives 1 |
| LegacyEdgeDecoder.ReplaceEnvironmentVars | python/lsst/ctrl/bps/wms/panda/edgenode/cmd_line_decoder.py:23-27 | the loop computes the substitution over the names found in the original command line |
| LegacyEdgeDecoder.EnvSubstUnset | python/lsst/ctrl/bps/wms/panda/edgenode/cmd_line_decoder.py:25 | placeholders whose variable is unset or empty stay in place and nothing is raised |
| LegacyEdgeDecoder.NoEnvPlaceholders | python/lsst/ctrl/bps/wms/panda/edgenode/cmd_line_decoder.py:23-27 | a command line without `<ENV:` is unchanged |
| LegacyEdgeDecoder.AgreesWithStrictSubstitution | python/lsst/ctrl/bps/wms/panda/edgenode/cmd_line_decoder.py:23-27 | when every variable is set and non-empty, the legacy substitution equals the current one |
| LegacyEdgeDecoder.SingleEnvPlaceholder | python/lsst/ctrl/bps/wms/panda/edgenode/cmd_line_decoder.py:25-26 | a lone `<ENV:name>` becomes the variable's value if set, and is kept otherwise |
| LegacyEdgeDecoder.RunLegacyDecoder | python/lsst/ctrl/bps/wms/panda/edgenode/cmd_line_decoder.py:30-37 | the module body: decode first, then environment, then `<FILE:runQgraphFile>`, then the `{key}` loop |
| LegacyEdgeDecoder.LegacyDecoderOkIff | python/lsst/ctrl/bps/wms/panda/edgenode/cmd_line_decoder.py:30-36 | the decoder succeeds iff the hex decodes and every later parameter has exactly one `:` |
| LegacyEdgeDecoder.LegacyDecoderTransparent | python/lsst/ctrl/bps/wms/panda/edgenode/cmd_line_decoder.py:30-37 | a hexed plain command line comes back unchanged |
| LegacyEdgeDecoder.LegacyQgraphReplaced | python/lsst/ctrl/bps/wms/panda/edgenode/cmd_line_decoder.py:33 | `<FILE:runQgraphFile>` is replaced everywhere by the first data parameter |
| IddsTasks.DefineTaskNameInjective | python/lsst/ctrl/bps/wms/panda/idds_tasks.py:65 | different steps give different task names |
| IddsTasks.TaskOfJobName | python/lsst/ctrl/bps/wms/panda/idds_tasks.py:193 | the task is the second `_` field when there is one, and the whole name otherwise |
| IddsTasks.FirstNonInitIsFirst | python/lsst/ctrl/bps/wms/panda/idds_tasks.py:75-77 | the picked command line is that of the first node not named `pipetaskInit`, and none when there is no such node |
| IddsTasks.PredsMembers | python/lsst/ctrl/bps/wms/panda/idds_tasks.py:152-153 | `u` is a predecessor of `v` iff `(u, v)` is an edge |
| IddsTasks.RawDependencyMapSpec | python/lsst/ctrl/bps/wms/panda/idds_tasks.py:151-159 | every node is a key, and it maps to its predecessors in edge order; every edge is reflected; nodes without in-edges map to `[]` |
| IddsTasks.GroupDepsOkIff | python/lsst/ctrl/bps/wms/panda/idds_tasks.py:209-213 | grouping fails iff some dependency has no input file |
| IddsTasks.GroupDepsKeys | python/lsst/ctrl/bps/wms/panda/idds_tasks.py:209-213 | the keys are exactly the task names of the upstream jobs |
| IddsTasks.GroupDepsValues | python/lsst/ctrl/bps/wms/panda/idds_tasks.py:209-213 | each task name maps to the input files of its upstream jobs, in dependency order |
| IddsTasks.GroupDepsNonEmpty | python/lsst/ctrl/bps/wms/panda/idds_tasks.py:211-212 | no group is empty |
| IddsTasks.GroupDepsTotal | python/lsst/ctrl/bps/wms/panda/idds_tasks.py:209-213 | the number of files grouped equals the number of dependencies |
| IddsTasks.SplitOfDagOkIff | python/lsst/ctrl/bps/wms/panda/idds_tasks.py:182-190 | the split succeeds iff every node and every predecessor has an input file |
| IddsTasks.SplitOfDagSteps | python/lsst/ctrl/bps/wms/panda/idds_tasks.py:186 | the steps are exactly the task fields of the node names |
| IddsTasks.SplitOfDagInputs | python/lsst/ctrl/bps/wms/panda/idds_tasks.py:188-189 | each task's inputs gain the source paths of its jobs' first inputs, in node order |
| IddsTasks.SplitOfDagJobs | python/lsst/ctrl/bps/wms/panda/idds_tasks.py:184-187 | each file under a step comes from a node of that step, and maps to the grouped dependencies of that node |
| IddsTasks.RecordsTask | python/lsst/ctrl/bps/wms/panda/idds_tasks.py:136-138 | every dependency record is unavailable and names an upstream task |
| IddsTasks.RecordsInput | python/lsst/ctrl/bps/wms/panda/idds_tasks.py:137 | a record's `inputname` is the first file from its task |
| IddsTasks.RecordsCover | python/lsst/ctrl/bps/wms/panda/idds_tasks.py:136-138 | one record per upstream task: every upstream task has one and no task has two |
| IddsTasks.RubinTask.constructor | python/lsst/ctrl/bps/wms/panda/idds_tasks.py:7-20 | a task holds the given fields and no dependencies yet |
| IddsTasks.IddsWorkflowGenerator.constructor | python/lsst/ctrl/bps/wms/panda/idds_tasks.py:38-49 | the queues and himem steps come from the configuration; `maxwalltime` defaults to 90000 and `maxattempt` to 5; no task inputs yet |
| IddsTasks.IddsWorkflowGenerator.PickNonInitCmdline | python/lsst/ctrl/bps/wms/panda/idds_tasks.py:67-77 | the loop returns the first non-init node's command line |
| IddsTasks.IddsWorkflowGenerator.CreateRawJobsDependencyMap | python/lsst/ctrl/bps/wms/panda/idds_tasks.py:143-159 | the edge loop and the extra-node loop build the node → predecessors map |
| IddsTasks.IddsWorkflowGenerator.SplitDependenciesByTasks | python/lsst/ctrl/bps/wms/panda/idds_tasks.py:195-213 | the loop builds the per-task grouping of the dependencies |
| IddsTasks.IddsWorkflowGenerator.SplitMapOverTasks | python/lsst/ctrl/bps/wms/panda/idds_tasks.py:161-190 | the loop builds the task map and extends `tasks_inputs`, or raises the first job's error |
| IddsTasks.IddsWorkflowGenerator.NewTasks | python/lsst/ctrl/bps/wms/panda/idds_tasks.py:93-110 | one new task per step, in step order, named and queued as configured (himem queue iff the step is himem) |
| IddsTasks.IddsWorkflowGenerator.AddDependencies | python/lsst/ctrl/bps/wms/panda/idds_tasks.py:114-141 | each task gets the records of its step's jobs and nothing else of it changes |
| IddsTasks.IddsWorkflowGenerator.DefineTasks | python/lsst/ctrl/bps/wms/panda/idds_tasks.py:79-112 | one task per step; the executable is the init node's command line for `pipetaskInit` and the first non-init one otherwise; walltime and attempts as configured; a DAG without `pipetaskInit` raises `KeyError` |
| PandaService.FileItems | python/lsst/ctrl/bps/panda/panda_service.py:124 | one `k:v` item per placeholder, in dictionary order |
| PandaService.AddDecoderPrefixSpec | python/lsst/ctrl/bps/panda/panda_service.py:114-127 | every `_cmd_line_` becomes the decoder arguments and the template text between markers is kept; no marker, no change |
| PandaService.DecoderArgumentWords | python/lsst/ctrl/bps/panda/panda_service.py:118-127 | the arguments split at spaces into the hex text, `${IN/L}`, the path, an empty word, the file list and the direct-IO list |
| PandaService.DecoderArgumentsRoundTrip | python/lsst/ctrl/bps/panda/panda_service.py:114-127 | the edge node gets back the command line, the placeholder dictionary and the direct-IO list from those words |
| PandaService.FilesArgumentRoundTrip | python/lsst/ctrl/bps/panda/panda_service.py:124 | the `+`-joined `k:v` list parses back (as the decoder parses it) to the placeholder dictionary |
| PandaService.FlattenMembers | python/lsst/ctrl/bps/panda/panda_service.py:239-240 | a file is visited iff some task uses it |
| PandaService.AddFilesNames | python/lsst/ctrl/bps/panda/panda_service.py:239-244 | a name gets a local path iff some undelivered file has it; it is direct-IO iff some undelivered direct-IO file has it |
| PandaService.AddFilesPaths | python/lsst/ctrl/bps/panda/panda_service.py:241-242 | the path kept for a name is that of the last undelivered file with that name |
| PandaService.WithDefaultDirectIo | python/lsst/ctrl/bps/panda/panda_service.py:275-276 | the direct-IO set is never empty and keeps every direct-IO file |
| PandaService.PlaceholderValueSpec | python/lsst/ctrl/bps/panda/panda_service.py:279-284 | a placeholder value is the basename of its source, with one trailing `/` exactly for a directory |
| PandaService.CollectLocalPfns | python/lsst/ctrl/bps/panda/panda_service.py:237-244 | the nested loops compute the local paths and the direct-IO set |
| PandaService.BuildPlaceholders | python/lsst/ctrl/bps/panda/panda_service.py:278-284 | the loop computes the placeholder dictionary |
| PandaService.ListSet | python/lsst/ctrl/bps/panda/panda_service.py:126 | iterating a set lists each member once |
| PandaService.CopyFilesForDistribution | python/lsst/ctrl/bps/panda/panda_service.py:216-286 | the placeholders and the direct-IO list (defaulted, no duplicates) of the tasks' files |
| PandaService.DistributionNames | python/lsst/ctrl/bps/panda/panda_service.py:237-244 | only undelivered files get placeholders; only undelivered direct-IO files are direct-IO; the default is added iff there is none; direct-IO files have placeholders |
| PandaService.DistributionPaths | python/lsst/ctrl/bps/panda/panda_service.py:278-284 | a name's placeholder is the basename of its last undelivered source, with `/` for a directory |
| PandaService.MakeWorkDefaults | python/lsst/ctrl/bps/panda/panda_service.py:151-187 | priority and walltime are never 0: a nonzero task value is kept, otherwise 900 and 90000; the source label falls back to the configuration, then `test` |
| PandaService.CollectionsDistinct | python/lsst/ctrl/bps/panda/panda_service.py:155-161 | works at different positions have different input and output collections, and no input collection is an output collection |
| PandaService.LastFinalSpec | python/lsst/ctrl/bps/panda/panda_service.py:190-191 | there is a final work iff some task is final, and it is the last final task |
| PandaService.DagEndsSpec | python/lsst/ctrl/bps/panda/panda_service.py:192-193 | the DAG-end works are exactly the `is_dag_end` tasks, in order |
| PandaService.FinalCondition | python/lsst/ctrl/bps/panda/panda_service.py:195-200 | an AND condition exists only with a final work; it waits on the DAG-end works and triggers the final one |
| PandaService.BuildWorkflow | python/lsst/ctrl/bps/panda/panda_service.py:138-200 | one work per task in order, each the work of its position, and the final-work condition |
| PandaService.BpsWorkflow.constructor | python/lsst/ctrl/bps/panda/panda_service.py:576-579 | a new workflow has no run id |
| PandaService.Submit | python/lsst/ctrl/bps/panda/panda_service.py:130-213 | submission succeeds iff the reply is accepted and its last payload item converts with `int()`; that id becomes the run id; otherwise the error is raised and the run id is unchanged |
| PandaReplies.ConvertIddsStateToWmsState | python/lsst/ctrl/bps/panda/panda_service.py:358-372 | each iDDS state maps to its BPS state, in both directions; everything else is UNKNOWN |
| PandaReplies.AllWmsStatesListed | python/lsst/ctrl/bps/panda/panda_service.py:415 | the iteration over `WmsStates` lists every state |
| PandaReplies.ReplyAcceptedIff | python/lsst/ctrl/bps/panda/panda_service.py:207 | a reply is accepted iff `ret[0] == 0` and `ret[1][0]` is truthy |
| PandaReplies.NonZeroStatusRefused | python/lsst/ctrl/bps/panda/panda_service.py:207 | a non-zero status is refused, whatever follows it |
| PandaReplies.SubmitRequestId | python/lsst/ctrl/bps/panda/panda_service.py:207-210 | an id is returned only for an accepted reply; `RuntimeError` is raised exactly for a refused one |
| PandaReplies.SubmitRequestIdOfReply | python/lsst/ctrl/bps/panda/panda_service.py:207-208 | an accepted reply ending in an id, as an integer or a decimal string, gives that id |
| PandaReplies.JobStateCounts | python/lsst/ctrl/bps/panda/panda_service.py:414-418 | every state has a count; all are 0 except SUCCEEDED and RUNNING, which carry the processed and processing file counts |
| PandaReplies.CountJobStates | python/lsst/ctrl/bps/panda/panda_service.py:414-418 | the loop over the states builds those counts |
| PandaReplies.ReadRequestSpec | python/lsst/ctrl/bps/panda/panda_service.py:412-436 | a request reads iff it holds every field the report uses; its state is the mapped transform status |
| PandaReplies.ReadRequests | python/lsst/ctrl/bps/panda/panda_service.py:411-437 | one report per request, in order, or the first request's error |
| PandaReplies.ReadRequestRecords | python/lsst/ctrl/bps/panda/panda_service.py:411-438 | the loop over the requests gives one report per request, in order, or the first request's error |
| PandaReplies.Report | python/lsst/ctrl/bps/panda/panda_service.py:401-443 | the run reports of an accepted reply with at least one request; `RuntimeError` otherwise |
| PandaReplies.ReportNeedsRequests | python/lsst/ctrl/bps/panda/panda_service.py:440-441 | a refused reply, or an empty request list, raises `RuntimeError` |
| PandaReplies.ReportRunsSpec | python/lsst/ctrl/bps/panda/panda_service.py:408-441 | a report exists only for an accepted, non-empty reply; one run per request with its mapped state and counts |
| PandaReplies.PingOkIff | python/lsst/ctrl/bps/panda/panda_service.py:542-550 | a ping succeeds iff the reply is accepted and its status dictionary says `Status: OK` |
| PandaReplies.PingRefused | python/lsst/ctrl/bps/panda/panda_service.py:549-550 | otherwise it raises `RuntimeError` |
| PandaReplies.ActionMessage | python/lsst/ctrl/bps/panda/panda_service.py:332-341 | a tuple item gives its second element and anything else is kept whole |
| PandaReplies.ActionMessages | python/lsst/ctrl/bps/panda/panda_service.py:331-341 | one message per item, in order, or `IndexError` |
| PandaReplies.CollectActionMessages | python/lsst/ctrl/bps/panda/panda_service.py:327-343 | the loop collects the messages of a retry or abort reply |
| PandaReplies.ActionRepliesSpec | python/lsst/ctrl/bps/panda/panda_service.py:327-343 | corrected: a refused reply raises, and an accepted one gives one message per item |
| PandaReplies.RefusedActionAcceptedAsWritten | python/lsst/ctrl/bps/panda/panda_service.py:328-343 | as written, a refused reply is taken for success with no message |
| PandaReplies.Restart | python/lsst/ctrl/bps/panda/panda_service.py:304-344 | restart returns success and the messages or an error, as the shared loop gives them: with `asWritten` a refused reply is success with no message as in the source, otherwise (corrected, see ## Findings) it raises the retry error |
| PandaReplies.Cancel | python/lsst/ctrl/bps/panda/panda_service.py:493-529 | cancel returns success and the messages or an error, as the shared loop gives them: with `asWritten` a refused reply is success with no message as in the source, otherwise (corrected, see ## Findings) it raises the abort error |
| LegacyPandaService.AddDecoderPrefixSpec | python/lsst/ctrl/bps/wms/panda/panda_service.py:99-102 | every `_cmd_line_` becomes the hex text, and the rest of the runner command is unchanged; the hex decodes back |
| LegacyPandaService.AddWorks | python/lsst/ctrl/bps/wms/panda/panda_service.py:114-124 | one work per task, in order; a task without an executable raises |
| LegacyPandaService.WorksSpec | python/lsst/ctrl/bps/wms/panda/panda_service.py:115-123 | each work's executable carries its task's command line, recoverable by the decoder; collections differ between works |
| LegacyPandaService.BuildRequest | python/lsst/ctrl/bps/wms/panda/panda_service.py:125-141 | the request has requester `panda`, priority 0, lifetime 30 and matching workload ids; the primary collection, when present, replaces scope and name |
| LegacyPandaService.PandaBpsWmsWorkflow.constructor | python/lsst/ctrl/bps/wms/panda/panda_service.py:187-189 | a new workflow has its tasks unset (`None`) and no run id |
| LegacyPandaService.Submit | python/lsst/ctrl/bps/wms/panda/panda_service.py:104-145 | the generated tasks are kept; unset tasks raise `TypeError`; otherwise a request is sent iff every task has an executable (else `AttributeError`), with every field of the request record; the request id becomes the run id, which is otherwise unchanged |
| LegacyPandaService.CloudPrefixSpec | python/lsst/ctrl/bps/wms/panda/panda_service.py:197-198 | the prefix ends with `/`, and its `/` fields are the bucket's, the payload folder and the workflow name |
| LegacyPandaService.CopyTargetSpec | python/lsst/ctrl/bps/wms/panda/panda_service.py:217-219 | a copy target keeps the source's basename under the cloud prefix |
| LegacyPandaService.CopyPlanSpec | python/lsst/ctrl/bps/wms/panda/panda_service.py:216-220 | one copy per local file, in order, to its target |
| LegacyPandaService.CopyPicklesIntoCloud | python/lsst/ctrl/bps/wms/panda/panda_service.py:205-220 | the loop plans those copies |
| LegacyPandaService.FromGenericWorkflow | python/lsst/ctrl/bps/wms/panda/panda_service.py:192-202 | the workflow's tasks are set to one task per step of the split, each with its step, name, local files and executable as the generator defines them, or the generator's error; then every task file is copied under `bucket/payload_folder/workflowName/` |

## Left out

- The iDDS and PanDA client calls (`get_idds_client`, `submit`,
  `get_requests`, `retry`, `abort`, `ping`, `add_request`) are network
  I/O. Their replies are parameters of type `PyValue.Value`, and the
  legacy request id is a parameter.
- File transfer is left out. This covers `ResourcePath`/`ButlerURI`
  `transfer_from`, `findFileResources`, `exists`, and the thread-pool
  fan-out of `copy_files_for_distribution` (lines 246-273). The legacy
  copies are returned as a list of (source, target) pairs. "Is a
  directory" is an input set.
- The copies and the `chmod` of `deliver_input_files`, and the JSON
  loading of the order-id map, are file I/O. The loaded map (or its
  absence) is a parameter. The unpacking of the file list by
  `deliver_input_files` is modelled: it comes first in the decoder run.
- `os.environ`/`os.getenv` is a map parameter.
- The process effects are not modelled: `os.system` becomes the command
  line to launch, and `sys.exit` becomes its exit code. `print` and logging
  are dropped.
- `run_submission_checks`, `list_submitted_jobs`, `get_idds_client`,
  `prepare`, `write`, the new `from_generic_workflow`, and the legacy
  `report` stub (which returns no runs) are not modelled.
- `DomaPanDAWork`, `DomaLSSTWork`, `AndCondition`, `IDDS_client_workflow`
  and `BpsConfig.search` are third-party objects. They are plain records
  and optional configuration values here. `task_log` and
  `encode_command_line` are constants of every work and are not carried.
  The legacy `get_name`, `get_workload_id` and
  `get_primary_initial_collection` are inputs, and an empty primary
  collection is `None`. The request metadata's `workflow` object is not
  carried.
- `lsst.ctrl.bps.wms_service` is not part of this model. `WmsStates` is
  enumerated locally with the states the service uses.
- `str()` and `json.dumps` renderings of ids, replies and messages are
  left out. The model carries the values themselves.
- `ButlerURI.join` is modelled as concatenation onto a prefix ending in
  `/`.
- The order in which a Python set is iterated is left open: the direct-IO
  list is any listing of the set.
- PandaService.MakeWorkDefaults: task priorities are integers. `int()` of a
  float or string priority is not modelled.
- PyValue.ToInt: `int()` of a string accepts an optional sign (`+` or
  `-`) and decimal digits only. Surrounding whitespace and `_` separators
  are not modelled.
- EdgeDecoder.IntLiteral: it reads the event parameter's base and order
  with the same parser, so `int()`'s tolerance of surrounding whitespace
  and `_` separators is not modelled there either.
- IddsTasks: a job's inputs are a sequence of (name, source) records. The
  source keeps a dictionary keyed by file name, so a job listing the same
  file name twice is outside what the model describes.
- IddsTasks.IddsWorkflowGenerator.DefineTasks: the source hands each task
  the very list held in `tasks_inputs`, so the two stay shared. The model
  copies the value into `localPfns`, and that aliasing is not carried.
- Codec.ConvertExecStringToHex: a Dafny string cannot hold a lone
  surrogate, so the `UnicodeEncodeError` that `str.encode()` raises for one
  is not modelled.
- `himem_steps` must be a list. The `TypeError` of `set(None)` is not
  modelled.
- PandaService.FilesArgumentRoundTrip: it needs at least one placeholder.
  An empty dictionary joins to the empty word, and that word does not parse
  back to an empty dictionary.
- PandaService.DecoderArgumentsRoundTrip: the empty fourth word is
  dropped by the shell before the decoder sees its arguments. The lemma
  states the words before the shell drops it.
- PandaService.Submit: a workflow whose final work evaluates false in
  `if DAG_final_work` is not modelled. Works are always true.

## Findings

| source | as written | input that shows it | evidently intended | confidence | as-written member | corrected member |
|---|---|---|---|---|---|---|
| python/lsst/ctrl/bps/panda/edgenode/cmd_line_decoder.py:194-200 | with an empty (or unloaded) order-id map, `ret_status` is set False but line 200 then reads `order_id_map[label]` and raises `KeyError` | data parameters `lbl:eventservice_1^1` with no `orderIdMapFilename` in the file list | return `ret_status` False, so the decoder exits with code 1 | not executed | EdgeDecoder.EmptyOrderIdMapRaises | EdgeDecoder.DecoderExitsOnUnresolvedEvent |
| python/lsst/ctrl/bps/panda/panda_service.py:328-343 | `success` starts True and is never set False, so the `raise RuntimeError` for a refused retry (and, at lines 514-528, a refused abort) cannot happen | retry reply `(1, (False, "error"))` | raise `RuntimeError` for a refused reply, as `report` and `ping` do | not executed | PandaReplies.RefusedActionAcceptedAsWritten | PandaReplies.ActionRepliesSpec |
